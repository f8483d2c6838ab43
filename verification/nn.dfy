/**
 A model of the feedforward network of `src/nn.rs` over the matrices of
 module `Matrices`. The scalar activation (the logistic sigmoid of the
 source) is an uninterpreted parameter `f: int -> int`; everything proved
 here is structural: shapes, layer counts, which aborts can fire, and which
 part of the dataset is fed to the network.
 */
module Networks {
  import opened Matrices

  // ---------------------------------------------------------------------
  // Element-wise maps

  /** `Matrix::sigmoid`: replaces every element `x` by `f(x)`. */
  function Sigmoid(m: Matrix, f: int -> int): (r: Matrix)
    ensures r.rows == m.rows && r.cols == m.cols && |r.data| == |m.data|
    ensures forall k :: 0 <= k < |m.data| ==> r.data[k] == f(m.data[k])
  {
    m.(data := seq(|m.data|, k requires 0 <= k < |m.data| => f(m.data[k])))
  }

  /** The map acts on each cell independently of its position. */
  lemma SigmoidElementwise(m: Matrix, f: int -> int)
    requires Valid(m)
    ensures Valid(Sigmoid(m, f))
    ensures forall i: nat, j: nat :: i < m.rows && j < m.cols ==> At(Sigmoid(m, f), i, j) == f(At(m, i, j))
  {
    forall i: nat, j: nat | i < m.rows && j < m.cols
      ensures At(Sigmoid(m, f), i, j) == f(At(m, i, j))
    {
      IndexInBounds(m.rows, m.cols, i, j);
    }
  }

  /** Mapping a constant matrix gives the constant matrix of the image. */
  lemma SigmoidOfFill(m: Matrix, v: int, f: int -> int)
    ensures Sigmoid(Fill(m, v), f) == Fill(m, f(v))
  {
    assert Sigmoid(Fill(m, v), f).data == Fill(m, f(v)).data;
  }

  /** `Matrix::rand` with the random source injected: element `k` becomes
      `sample(k)`. */
  function Randomize(m: Matrix, sample: nat -> int): (r: Matrix)
    ensures r.rows == m.rows && r.cols == m.cols && |r.data| == |m.data|
    ensures forall k :: 0 <= k < |r.data| ==> r.data[k] == sample(k)
  {
    m.(data := seq(|m.data|, k requires 0 <= k < |m.data| => sample(k)))
  }

  // ---------------------------------------------------------------------
  // Layers

  /** One layer: a `(current, prev)` weight matrix and a `(current, 1)`
      bias column. */
  datatype Layer = Layer(weights: Matrix, biases: Matrix)

  /** The invariant `Layer::new` establishes. */
  predicate ValidLayer(l: Layer) {
    && Valid(l.weights) && Valid(l.biases)
    && l.weights.rows > 0 && l.weights.cols > 0
    && l.biases.rows == l.weights.rows && l.biases.cols == 1
  }

  /** `Layer::new(prev, current)`: all-default weights and biases; refused
      when either size is 0. */
  function NewLayer(prev: nat, current: nat): (r: Result<Layer>)
    ensures r.Err? <==> prev == 0 || current == 0
    ensures r.Err? ==> r.error == CreateError
    ensures r.Ok? ==> ValidLayer(r.value)
    ensures r.Ok? ==> r.value.weights.rows == current && r.value.weights.cols == prev
    ensures r.Ok? ==> forall k :: 0 <= k < |r.value.weights.data| ==> r.value.weights.data[k] == Default
    ensures r.Ok? ==> forall k :: 0 <= k < |r.value.biases.data| ==> r.value.biases.data[k] == Default
  {
    match New(current, prev)
    case Err(e) => Err(e)
    // once the weights exist, `current > 0` and the biases cannot fail
    case Ok(weights) => Ok(Layer(weights, New(current, 1).value))
  }

  /** The matrix product a layer applies: `mul` as the source writes it,
      which keeps only the last product term of each cell, or the dot
      product it evidently intends. */
  datatype Product = AsWritten | Intended

  /** Cell `(i, j)` of `a * b` under the chosen product. */
  function ProductCell(p: Product, a: Matrix, b: Matrix, i: nat, j: nat): int
    requires Valid(a) && Valid(b) && CanMul(a, b) && i < a.rows && j < b.cols
  {
    match p
    case AsWritten => LastTerm(a, b, i, j)
    case Intended => Dot(Row(a, i), Column(b, j))
  }

  /** `a * b` under the chosen product. */
  function Times(p: Product, a: Matrix, b: Matrix): (r: Matrix)
    requires Valid(a) && Valid(b) && CanMul(a, b)
    ensures Valid(r) && r.rows == a.rows && r.cols == b.cols
    ensures forall i: nat, j: nat :: i < r.rows && j < r.cols ==> At(r, i, j) == ProductCell(p, a, b, i, j)
  {
    match p
    case AsWritten => MulLast(a, b)
    case Intended => Mul(a, b)
  }

  /** `sigmoid(t + b)` on a column: cell `i` is `f(t[i] + b[i])`. */
  function SigmoidOfSum(t: Matrix, b: Matrix, f: int -> int): (r: Matrix)
    requires Valid(t) && Valid(b) && CanAdd(t, b) && t.cols == 1
    ensures Valid(r) && r.rows == t.rows && r.cols == 1
    ensures forall i: nat :: i < r.rows ==> At(r, i, 0) == f(At(t, i, 0) + At(b, i, 0))
  {
    var s := Add(t, b);
    SigmoidElementwise(s, f);
    Sigmoid(s, f)
  }

  /** `Layer::activate`: `f(weights * x + biases)`, on copies, so neither
      the layer nor `x` changes. The `assert!` of `mul` demands
      `x.rows == weights.cols`, and the one of `add` then demands
      `x.cols == 1`. With `AsWritten`, cell `i` sees only the last term
      of row `i` of the weights times `x`. */
  function ActivateLayer(l: Layer, x: Matrix, f: int -> int, p: Product): (r: Matrix)
    requires ValidLayer(l) && Valid(x)
    requires x.rows == l.weights.cols && x.cols == 1
    ensures Valid(r) && r.rows == l.weights.rows && r.cols == 1
    ensures forall i: nat :: i < r.rows ==>
      At(r, i, 0) == f(ProductCell(p, l.weights, x, i, 0) + At(l.biases, i, 0))
  {
    SigmoidOfSum(Times(p, l.weights, x), l.biases, f)
  }

  /** The two operator asserts inside `Layer::activate` hold exactly for a
      `(prev, 1)` input. */
  lemma ActivateLayerShapes(l: Layer, x: Matrix)
    requires ValidLayer(l) && Valid(x)
    ensures (CanMul(l.weights, x) && CanAdd(MulLast(l.weights, x), l.biases))
        <==> (x.rows == l.weights.cols && x.cols == 1)
  {
  }

  /** A one-neuron layer with two unit weights, a zero bias and the input
      `(1, 1)`: `activate` as written feeds `f` with the last term 1,
      where the dot product is 2. */
  lemma ActivateKeepsLastTerm(f: int -> int)
    ensures var l := Layer(Matrix(1, 2, [1, 1]), Matrix(1, 1, [0]));
      var x := Matrix(2, 1, [1, 1]);
      && ValidLayer(l) && Valid(x)
      && At(ActivateLayer(l, x, f, AsWritten), 0, 0) == f(1)
      && At(ActivateLayer(l, x, f, Intended), 0, 0) == f(2)
  {
    var l := Layer(Matrix(1, 2, [1, 1]), Matrix(1, 1, [0]));
    var x := Matrix(2, 1, [1, 1]);
    var u, v := Row(l.weights, 0), Column(x, 0);
    assert u == [1, 1] && v == [1, 1];
    assert u[..1] == [1] && v[..1] == [1];
    assert [1][..0] == [];
    assert At(l.biases, 0, 0) == 0;
  }

  /** A freshly created layer maps every input to the image of `Default`
      in every cell. */
  lemma FreshLayerActivation(prev: nat, current: nat, x: Matrix, f: int -> int, p: Product)
    requires prev > 0 && current > 0
    requires Valid(x) && x.rows == prev && x.cols == 1
    ensures NewLayer(prev, current).Ok?
    ensures forall i: nat :: i < current ==> At(ActivateLayer(NewLayer(prev, current).value, x, f, p), i, 0) == f(Default)
  {
    var l := NewLayer(prev, current).value;
    MulZeroLeft(l.weights, x);
    forall i: nat | i < current
      ensures At(ActivateLayer(l, x, f, p), i, 0) == f(Default)
    {
      IndexInBounds(current, 1, i, 0);
      IndexInBounds(current, prev, i, prev - 1);
      assert At(l.biases, i, 0) == Default;
      assert At(l.weights, i, prev - 1) == Default;
      assert At(Mul(l.weights, x), i, 0) == Dot(Row(l.weights, i), Column(x, 0));
    }
  }

  // ---------------------------------------------------------------------
  // Networks

  /** The network: its layers in order. */
  datatype Network = Network(layers: seq<Layer>)

  /** Every layer valid, and each layer's input size the previous layer's
      output size. */
  predicate Chained(layers: seq<Layer>) {
    && (forall i :: 0 <= i < |layers| ==> ValidLayer(layers[i]))
    && (forall i :: 0 < i < |layers| ==> layers[i].weights.cols == layers[i - 1].weights.rows)
  }

  /** The invariant `NN::new` establishes. */
  predicate WellFormed(net: Network) {
    Chained(net.layers)
  }

  /** The layers `NN::new` builds: one `Layer::new(sizes[i], sizes[i + 1])`
      per consecutive pair, stopping at the first error. */
  function BuildLayers(sizes: seq<nat>): (r: Result<seq<Layer>>)
    ensures r.Err? <==> |sizes| >= 2 && exists k :: 0 <= k < |sizes| && sizes[k] == 0
    ensures r.Err? ==> r.error == CreateError
    ensures r.Ok? ==> |r.value| == if |sizes| < 2 then 0 else |sizes| - 1
    ensures r.Ok? ==> Chained(r.value)
    ensures r.Ok? ==> forall i :: 0 <= i < |r.value| ==>
      r.value[i].weights.rows == sizes[i + 1] && r.value[i].weights.cols == sizes[i]
    decreases |sizes|
  {
    if |sizes| < 2 then Ok([])
    else
      var first :- NewLayer(sizes[0], sizes[1]);
      var rest :- BuildLayers(sizes[1..]);
      assert forall k :: 0 < k < |sizes| ==> sizes[k] == sizes[1..][k - 1];
      Ok([first] + rest)
  }

  /** `NN::new(sizes)`. */
  function NewNetwork(sizes: seq<nat>): (r: Result<Network>)
    ensures r.Err? <==> |sizes| >= 2 && exists k :: 0 <= k < |sizes| && sizes[k] == 0
    ensures r.Ok? ==> WellFormed(r.value)
    ensures r.Ok? ==> |r.value.layers| == if |sizes| < 2 then 0 else |sizes| - 1
    ensures r.Ok? ==> forall i :: 0 <= i < |r.value.layers| ==>
      r.value.layers[i].weights.rows == sizes[i + 1] && r.value.layers[i].weights.cols == sizes[i]
  {
    var layers :- BuildLayers(sizes);
    Ok(Network(layers))
  }

  /** With fewer than two sizes nothing is checked: even `[0]` yields a
      network without layers. */
  lemma NewNetworkDegenerate(sizes: seq<nat>)
    requires |sizes| < 2
    ensures NewNetwork(sizes) == Ok(Network([]))
  {
  }

  /** The network of the example entry point. */
  lemma NewNetworkExample()
    ensures NewNetwork([2, 2, 1]).Ok?
    ensures |NewNetwork([2, 2, 1]).value.layers| == 2
    ensures var l := NewNetwork([2, 2, 1]).value.layers;
      && l[0].weights.rows == 2 && l[0].weights.cols == 2 && l[0].biases.rows == 2 && l[0].biases.cols == 1
      && l[1].weights.rows == 1 && l[1].weights.cols == 2 && l[1].biases.rows == 1 && l[1].biases.cols == 1
  {
  }

  /** The loop of `NN::activate`: each layer's output is the next layer's
      input. */
  function Forward(layers: seq<Layer>, x: Matrix, f: int -> int, p: Product): (r: Matrix)
    requires Chained(layers) && Valid(x)
    requires |layers| > 0 ==> x.rows == layers[0].weights.cols && x.cols == 1
    ensures Valid(r)
    ensures |layers| == 0 ==> r == x
    ensures |layers| > 0 ==> r.rows == layers[|layers| - 1].weights.rows && r.cols == 1
    decreases |layers|
  {
    if |layers| == 0 then x
    else Forward(layers[1..], ActivateLayer(layers[0], x, f, p), f, p)
  }

  /** `NN::activate`. */
  function ActivateNetwork(net: Network, x: Matrix, f: int -> int, p: Product): (r: Matrix)
    requires WellFormed(net) && Valid(x)
    requires |net.layers| > 0 ==> x.rows == net.layers[0].weights.cols && x.cols == 1
    ensures Valid(r)
    ensures |net.layers| == 0 ==> r == x
    ensures |net.layers| > 0 ==> r.rows == net.layers[|net.layers| - 1].weights.rows && r.cols == 1
  {
    Forward(net.layers, x, f, p)
  }

  /** Both halves of a chained stack are chained, and they meet where the
      first half ends. */
  lemma ChainedSplit(front: seq<Layer>, back: seq<Layer>)
    requires Chained(front + back)
    ensures Chained(front) && Chained(back)
    ensures |front| > 0 && |back| > 0 ==> back[0].weights.cols == front[|front| - 1].weights.rows
  {
    var all := front + back;
    assert forall i :: 0 <= i < |front| ==> all[i] == front[i];
    assert forall i :: 0 <= i < |back| ==> all[|front| + i] == back[i];
  }

  /** Running two stacks of layers one after the other is running their
      concatenation. */
  lemma {:induction false} ForwardComposes(front: seq<Layer>, back: seq<Layer>, x: Matrix, f: int -> int, p: Product)
    requires Chained(front + back) && Valid(x)
    requires |front + back| > 0 ==> x.rows == (front + back)[0].weights.cols && x.cols == 1
    ensures Chained(front) && Chained(back)
    ensures |back| > 0 ==> Forward(front, x, f, p).rows == back[0].weights.cols && Forward(front, x, f, p).cols == 1
    ensures Forward(front + back, x, f, p) == Forward(back, Forward(front, x, f, p), f, p)
    decreases |front|
  {
    ChainedSplit(front, back);
    if |front| == 0 {
      assert front + back == back;
    } else {
      var y := ActivateLayer(front[0], x, f, p);
      assert (front + back)[0] == front[0];
      assert (front + back)[1..] == front[1..] + back;
      ForwardComposes(front[1..], back, y, f, p);
    }
  }

  /** For a network built from `sizes`, an input of shape `(sizes[0], 1)`
      yields an output of shape `(sizes[|sizes| - 1], 1)`. */
  lemma NetworkShape(sizes: seq<nat>, x: Matrix, f: int -> int, p: Product)
    requires NewNetwork(sizes).Ok? && |sizes| >= 2
    requires Valid(x) && x.rows == sizes[0] && x.cols == 1
    ensures ActivateNetwork(NewNetwork(sizes).value, x, f, p).rows == sizes[|sizes| - 1]
    ensures ActivateNetwork(NewNetwork(sizes).value, x, f, p).cols == 1
  {
  }

  /** `NN::rand` with the random source injected: element `k` of the
      weights of layer `i` becomes `sample(2 * i, k)`, element `k` of its
      biases `sample(2 * i + 1, k)`. */
  function RandomizeNetwork(net: Network, sample: (nat, nat) -> int): (r: Network)
    ensures |r.layers| == |net.layers|
    ensures forall i :: 0 <= i < |net.layers| ==>
      && r.layers[i].weights.rows == net.layers[i].weights.rows
      && r.layers[i].weights.cols == net.layers[i].weights.cols
      && r.layers[i].biases.rows == net.layers[i].biases.rows
      && r.layers[i].biases.cols == net.layers[i].biases.cols
      && |r.layers[i].weights.data| == |net.layers[i].weights.data|
      && |r.layers[i].biases.data| == |net.layers[i].biases.data|
    ensures WellFormed(net) ==> WellFormed(r)
  {
    Network(seq(|net.layers|, i requires 0 <= i < |net.layers| =>
      Layer(Randomize(net.layers[i].weights, (k: nat) => sample(2 * i, k)),
            Randomize(net.layers[i].biases, (k: nat) => sample(2 * i + 1, k)))))
  }

  /** `NN::train_model`: a stub that reports success and changes nothing. */
  function TrainModel(net: Network, model: Matrix, epochs: nat): (r: Result<Network>)
    ensures r.Ok? && r.value == net
  {
    Ok(net)
  }

  // ---------------------------------------------------------------------
  // Evaluation on a dataset

  /** One case reported by `test_model`: the input fed to the network, the
      network's output, and the value printed as "Expected". */
  datatype Case = Case(input: Matrix, result: Matrix, expected: int)

  /** The input size of a network. */
  function InputSize(net: Network): nat
    requires |net.layers| > 0
  {
    net.layers[0].weights.cols
  }

  /** The number of dataset columns `test_model` assumes per case: the
      output size of the first layer plus one. */
  function CaseWidth(net: Network): nat
    requires |net.layers| > 0
  {
    net.layers[0].weights.rows + 1
  }

  /** The conditions under which the loop of `test_model`, with case width
      `width`, runs without aborting: the `assert!` on the dataset size,
      `chunks` with a non-zero length, the `unwrap` of `from_vec`, and the
      `assert!` of the first layer's `mul`. With no rows no case is built. */
  predicate CasesRun(net: Network, model: Matrix, width: nat)
    requires |net.layers| > 0
  {
    && width > 0 && model.cols > 0
    && Size(model) % width == 0
    && (|model.data| > 0 ==> model.cols == width && width - 1 == InputSize(net))
  }

  /** The case built from one row with its first column dropped. */
  function MakeCase(net: Network, features: seq<int>, f: int -> int, p: Product): (c: Case)
    requires WellFormed(net) && |net.layers| > 0 && |features| == InputSize(net)
    ensures Valid(c.input) && c.input.rows == |features| && c.input.cols == 1 && c.input.data == features
    ensures c.expected == features[0]
    ensures c.result == ActivateNetwork(net, c.input, f, p)
  {
    var input := FromVec(|features|, 1, features).value;
    Case(input, ActivateNetwork(net, input, f, p), features[0])
  }

  /** The loop of `test_model` with case width `width`: for row `i` of the
      dataset, the row without its first column is the input and the
      dataset's column 1 is reported as "Expected". */
  function RunCases(net: Network, model: Matrix, width: nat, f: int -> int, p: Product): (r: seq<Case>)
    requires WellFormed(net) && |net.layers| > 0 && Valid(model)
    requires CasesRun(net, model, width)
    ensures |r| == model.rows
    ensures forall i :: 0 <= i < model.rows ==>
      && Valid(r[i].input) && r[i].input.rows == width - 1 && r[i].input.cols == 1
      && (forall t: nat :: t < width - 1 ==> r[i].input.data[t] == At(model, i, t + 1))
      && r[i].expected == At(model, i, 1)
      && r[i].result == ActivateNetwork(net, r[i].input, f, p)
  {
    var chunks := RowChunks(model);
    RowChunksAreRows(model);
    seq(|chunks|, i requires 0 <= i < |chunks| => MakeCase(net, chunks[i][1..], f, p))
  }

  /** `NN::test_model`, as written: the case width is taken from the
      first layer's output size, and the network runs with `mul` as
      written. It aborts on a network without layers. */
  function TestModel(net: Network, model: Matrix, f: int -> int): (r: Result<seq<Case>>)
    requires WellFormed(net) && |net.layers| > 0 && Valid(model)
    requires CasesRun(net, model, CaseWidth(net))
    ensures r.Ok? && |r.value| == model.rows
    ensures forall i :: 0 <= i < model.rows ==>
      && Valid(r.value[i].input) && r.value[i].input.rows == InputSize(net) && r.value[i].input.cols == 1
      && (forall t: nat :: t < InputSize(net) ==> r.value[i].input.data[t] == At(model, i, t + 1))
      && r.value[i].expected == At(model, i, 1)
      && r.value[i].result == ActivateNetwork(net, r.value[i].input, f, AsWritten)
  {
    Ok(RunCases(net, model, CaseWidth(net), f, AsWritten))
  }

  /** `test_model` as evidently intended: the case width is the input size
      of the network plus one, and the layers use the dot product. */
  function TestModelFixed(net: Network, model: Matrix, f: int -> int): (r: Result<seq<Case>>)
    requires WellFormed(net) && |net.layers| > 0 && Valid(model)
    requires CasesRun(net, model, InputSize(net) + 1)
    ensures r.Ok? && |r.value| == model.rows
    ensures forall i :: 0 <= i < model.rows ==>
      && Valid(r.value[i].input) && r.value[i].input.rows == InputSize(net) && r.value[i].input.cols == 1
      && (forall t: nat :: t < InputSize(net) ==> r.value[i].input.data[t] == At(model, i, t + 1))
      && r.value[i].expected == At(model, i, 1)
      && r.value[i].result == ActivateNetwork(net, r.value[i].input, f, Intended)
  {
    Ok(RunCases(net, model, InputSize(net) + 1, f, Intended))
  }

  lemma MultipleOfWidth(rows: nat, width: nat)
    requires width > 0
    ensures (rows * width) % width == 0
  {
    IndexDivMod(width, rows, 0);
    assert rows * width == width * rows + 0;
  }

  /** On a network built from `sizes` and a non-empty dataset, `test_model`
      runs exactly when the dataset has `sizes[1] + 1` columns and the first
      two sizes agree. */
  lemma TestModelRunsIff(sizes: seq<nat>, model: Matrix)
    requires NewNetwork(sizes).Ok? && |sizes| >= 2
    requires Valid(model) && model.rows > 0
    ensures CasesRun(NewNetwork(sizes).value, model, CaseWidth(NewNetwork(sizes).value))
      <==> model.cols == sizes[1] + 1 && sizes[0] == sizes[1]
  {
    var net := NewNetwork(sizes).value;
    if model.cols == sizes[1] + 1 {
      MultipleOfWidth(model.rows, model.cols);
    }
    assert model.cols > 0 ==> |model.data| > 0 by {
      if model.cols > 0 {
        MulMonotone(model.cols, 1, model.rows);
      }
    }
  }

  /** With the corrected width, the dataset only needs `sizes[0] + 1`
      columns. */
  lemma TestModelFixedRunsIff(sizes: seq<nat>, model: Matrix)
    requires NewNetwork(sizes).Ok? && |sizes| >= 2
    requires Valid(model) && model.rows > 0
    ensures CasesRun(NewNetwork(sizes).value, model, InputSize(NewNetwork(sizes).value) + 1)
      <==> model.cols == sizes[0] + 1
  {
    var net := NewNetwork(sizes).value;
    if model.cols == sizes[0] + 1 {
      MultipleOfWidth(model.rows, model.cols);
    }
    assert model.cols > 0 ==> |model.data| > 0 by {
      if model.cols > 0 {
        MulMonotone(model.cols, 1, model.rows);
      }
    }
  }

  /** A network built from `[2, 3, 1]` takes 2 inputs, but `test_model`
      cuts cases of 3 + 1 columns. A 4 x 3 dataset of 2-input cases passes
      the size `assert!` (12 is a multiple of 4), yet `from_vec(3, 1, _)` on
      its 2-element rows fails and is unwrapped; the corrected width runs. */
  lemma TestModelWidthMismatch()
    ensures NewNetwork([2, 3, 1]).Ok?
    ensures var net := NewNetwork([2, 3, 1]).value;
      var model := Matrix(4, 3, seq(12, _ => 0));
      && InputSize(net) == 2 && CaseWidth(net) == 4
      && Valid(model) && Size(model) % CaseWidth(net) == 0
      && !CasesRun(net, model, CaseWidth(net))
      && CasesRun(net, model, InputSize(net) + 1)
  {
  }
}
