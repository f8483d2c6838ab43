# mlrs: dense matrices and a feedforward network, modelled in Dafny

This project models the two pieces of pure logic in the Rust crate `mlrs`:

- `src/matrix.rs`: a generic row-major dense matrix `(rows, cols, data)`. It has
  checked constructors, linear-index accessors, `fill`, `row_chunks`, and the
  `+` and `*` operators.
- `src/nn.rs`: a feedforward network. Each layer holds a `(current, prev)`
  weight matrix and a `(current, 1)` bias column. `NN::new` builds one layer per
  consecutive pair of sizes. `activate` threads a column vector through
  `sigmoid(W * x + b)` layer by layer. `test_model` cuts a dataset into cases.

The element type is `int`, and `T::default()` is `Default == 0`. The logistic
sigmoid is an uninterpreted parameter `f: int -> int`. What is proved is
structural:

- shapes and layer counts;
- which `assert!`, `unwrap` and indexing aborts can fire;
- which part of a dataset row is fed to the network and which is reported as
  "Expected".

Aborts are preconditions. The recoverable errors `CreateError` and `GetError`
are a `Result`. Every matrix the crate can build has `|data| == rows * cols`.
That invariant is `Valid`, and the operators require it.

Files:

- `matrix.dfy` is module `Matrices` (`src/matrix.rs`).
- `nn.dfy` is module `Networks` (`src/nn.rs`).
- `example.dfy` is module `Example` (`src/main.rs`). It holds the XOR dataset and
  the `[2, 2, 1]` network of the entry point, used as test vectors.

Each concrete input on which the source departs from its evident intent sits
beside the member it concerns.

The model follows the code as written, including where it departs from its
evident intent:

- `from_vec` accepts `0 x n` and `n x 0` shapes with empty data.
- `mul` assigns each product term instead of adding it. `MulAsWritten` models
  the loops, and `MulLast` is their closed form. The corrected `Mul`
  accumulates. A layer takes a `Product` selector: `AsWritten` uses `MulLast`,
  as `Layer::activate` does, and `Intended` uses `Mul`.
- `test_model` takes its case width from the first layer's output size, not from
  the input size. `TestModel` runs the network with the product as written.
  `TestModelFixed` uses the intended width and the intended product.
- `NN::new` with fewer than two sizes builds an empty network.
- `train_model` is a stub that returns `Ok(())`.

## Model

| member | source | states |
|---|---|---|
| Matrices.New | src/matrix.rs:48-60 | fails with `CreateError` exactly when a dimension is 0; otherwise has the requested shape, `rows*cols` elements, all `Default`, and `size()` equals the storage length |
| Matrices.Size | src/matrix.rs:21-23 | zero exactly when a dimension is zero; for a valid matrix, the length of the storage |
| Matrices.FromVec | src/matrix.rs:61-66 | fails with `CreateError` exactly when `rows*cols` differs from the length of `data`; otherwise stores `data` unchanged with the requested shape |
| Matrices.FromVecAdmitsEmptyShapes | src/matrix.rs:48-66 | `from_vec` accepts `0 x n` and `n x 0` with empty data, where `new` refuses those shapes |
| Matrices.Get | src/matrix.rs:41-46 | `GetError` exactly when the linear index `cols*row+col` exceeds the length; otherwise the stored element at that index, whatever `col` is; index == length is the aborting case |
| Matrices.Update | src/matrix.rs:34-39 | a write through `get_mut` fails on the same condition as `get`; otherwise it changes exactly the element at the linear index and keeps the shape |
| Matrices.GetAfterUpdate | src/matrix.rs:34-46 | reading a cell back through `get` after writing it through `get_mut` yields the written value |
| Matrices.UpdateAt | src/matrix.rs:34-39 | writing an in-range cell keeps the matrix valid and leaves every other in-range cell unchanged |
| Matrices.GetChecked | src/matrix.rs:41-46 | corrected accessor: `GetError` exactly when `row >= rows` or `col >= cols`, otherwise the element at `(row, col)` |
| Matrices.GetCheckedAgreesInRange | src/matrix.rs:41-46 | on in-range coordinates the accessor as written and the corrected one agree |
| Matrices.GetCheckedNoAliasing | src/matrix.rs:41-46 | distinct in-range coordinates address distinct stored elements |
| Matrices.GetGuardOffByOne | src/matrix.rs:41-46 | for every valid matrix, `(rows, 0)` passes the guard although its linear index equals the length |
| Matrices.GetColumnNotChecked | src/matrix.rs:41-46 | on a 2x2 matrix `get(0, 2)` returns the element at `(1, 0)`; the corrected accessor refuses it |
| Matrices.CellsDetermine | src/matrix.rs:7-12 | a valid matrix is determined by its shape and its cells: the row-major layout covers the whole storage |
| Matrices.Fill | src/matrix.rs:68-75 | shape and length unchanged, every element equal to the fill value |
| Matrices.FillOverwrites | src/matrix.rs:68-75 | a second fill erases the first, and fill preserves validity |
| Matrices.RowChunks | src/matrix.rs:30-32 | with `cols > 0` the chunks concatenate back to the storage |
| Matrices.ChunksConcat | src/matrix.rs:30-32 | `chunks(n)` of any sequence concatenates back to that sequence |
| Matrices.RowChunksAreRows | src/matrix.rs:30-32 | for a valid matrix there are exactly `rows` chunks, each of length `cols`, chunk `i` holding row `i` |
| Matrices.Add | src/matrix.rs:103-111 | requires equal shapes (the two asserts); the result has the same shape and each element is the sum of the corresponding elements |
| Matrices.AddCommutes | src/matrix.rs:103-111 | element-wise addition is commutative |
| Matrices.Mul | src/matrix.rs:84-96 | corrected product: requires `a.cols == b.rows` and non-zero `a.rows`, `b.cols` (assert and `unwrap`); shape `(a.rows, b.cols)`, each cell the dot product of a row of `a` and a column of `b` accumulated from `Default` |
| Matrices.MulOnes | src/matrix.rs:84-96 | the product of all-ones `r x n` and `n x c` matrices holds `n` in every cell |
| Matrices.MulZeroLeft | src/matrix.rs:84-96 | a left factor of zeros gives a product of zeros |
| Matrices.MulLast | src/matrix.rs:84-96 | closed form of the product as written: shape `(a.rows, b.cols)`, each cell `Default + a[i][cols-1] * b[cols-1][j]`, only the last product term |
| Matrices.MulAsWritten | src/matrix.rs:84-96 | the loops as written, through `get`/`get_mut`: shape `(a.rows, b.cols)`, each cell holding only the last product term (`Default` when `a.cols == 0`), and the result equals `MulLast` |
| Matrices.MulLastSingleTerm | src/matrix.rs:84-96 | when `a.cols == 1` the product as written equals the intended one |
| Matrices.MulAssignDropsTerms | src/matrix.rs:87-95 | all-ones 2x3 times 3x2: every cell as written is 1, the dot product is 3 |
| Matrices.MulRowAsWritten | src/matrix.rs:88-93 | one pass of the column loop finishes row `i` and touches no other row |
| Matrices.MulCellAsWritten | src/matrix.rs:89-92 | the innermost loop leaves the cell holding the last product term and touches no other cell |
| Networks.Sigmoid | src/nn.rs:5-9 | shape and length preserved, element `k` becomes `f(data[k])` |
| Networks.SigmoidElementwise | src/nn.rs:5-9 | the map preserves validity and acts on every cell `(i, j)` independently |
| Networks.SigmoidOfFill | src/nn.rs:5-9 | mapping a constant matrix gives the constant matrix of the image |
| Networks.Randomize | src/nn.rs:10-14 | with the random source injected, the shape is preserved and element `k` is the `k`-th sample |
| Networks.NewLayer | src/nn.rs:28-32 | fails with `CreateError` exactly when `prev == 0` or `current == 0`; otherwise weights `(current, prev)` and biases `(current, 1)`, all `Default` |
| Networks.ActivateLayer | src/nn.rs:33-37 | requires a `(weights.cols, 1)` input; returns a valid `(current, 1)` matrix whose cell `i` is `f(p_i + b[i])`, where `p_i` is the last product term of row `i` under `AsWritten` (as the source computes) and the dot product of row `i` with `x` under `Intended` |
| Networks.ActivateKeepsLastTerm | src/nn.rs:33-37 | with `W = [[1, 1]]`, `b = [0]`, `x = (1, 1)`, the source's `activate` yields `f(1)` where the dot product would give `f(2)` |
| Networks.ActivateLayerShapes | src/nn.rs:33-37 | the `mul` assert and the `add` asserts inside `activate` both hold exactly for inputs of shape `(weights.cols, 1)` |
| Networks.FreshLayerActivation | src/nn.rs:28-37 | a freshly created all-default layer maps any `(prev, 1)` input to `f(Default)` in every cell, under either product |
| Networks.BuildLayers | src/nn.rs:54-66 | fails exactly when there are at least two sizes and one is 0; otherwise `max(0, len(sizes) - 1)` chained valid layers, layer `i` of weight shape `(sizes[i+1], sizes[i])` |
| Networks.NewNetwork | src/nn.rs:54-66 | same failure condition, layer count and layer shapes, and the network is well formed |
| Networks.NewNetworkDegenerate | src/nn.rs:54-66 | with fewer than two sizes, even `[0]`, the result is a network without layers |
| Networks.NewNetworkExample | src/nn.rs:54-66 | `[2, 2, 1]` gives two layers with shapes (2,2)/(2,1) and (1,2)/(1,1) |
| Networks.Forward | src/nn.rs:67-72 | folds the layers in order; an input `(layers[0].weights.cols, 1)` yields a valid output `(last layer's rows, 1)`; without layers the input is returned unchanged |
| Networks.ActivateNetwork | src/nn.rs:67-72 | the network's forward pass has the shapes of `Forward` |
| Networks.ForwardComposes | src/nn.rs:67-72 | running a concatenation of layer stacks is running the first stack, then the second on its output, under either product |
| Networks.NetworkShape | src/nn.rs:54-72 | for a network built from `sizes`, input `(sizes[0], 1)` gives output `(sizes[last], 1)` |
| Networks.RandomizeNetwork | src/nn.rs:73-82 | with the random source injected, every layer keeps its shapes and the network stays well formed |
| Networks.TrainModel | src/nn.rs:83-85 | always succeeds and leaves the network unchanged |
| Networks.MakeCase | src/nn.rs:91-98 | the case input is the row slice without its first column, as a column vector; "Expected" is that slice's first element; the result is the network's output on that input |
| Networks.RunCases | src/nn.rs:91-98 | one case per dataset row; case `i` feeds columns `1..width-1` of row `i`, reports column 1 as "Expected" and the network's output on that input |
| Networks.TestModel | src/nn.rs:87-101 | as written: needs a non-empty network, the size assert with width `weights.rows()+1`, and (for a non-empty dataset) `cols == width` and `width-1 == input size`; then succeeds with one case per row, each result the network's output with the product as written |
| Networks.TestModelFixed | src/nn.rs:87-101 | the same loop with width `weights.cols()+1`, i.e. the input size plus one, and the intended product |
| Networks.TestModelRunsIff | src/nn.rs:87-101 | on a network from `sizes` and a non-empty dataset, `test_model` runs exactly when `cols == sizes[1]+1` and `sizes[0] == sizes[1]` |
| Networks.TestModelFixedRunsIff | src/nn.rs:87-101 | with the corrected width it runs exactly when `cols == sizes[0]+1` |
| Networks.TestModelWidthMismatch | src/nn.rs:87-98 | with sizes `[2, 3, 1]` and a 4x3 dataset the size assert passes but the loop aborts; the corrected width runs |
| Example.XorModel | src/main.rs:5-10 | the XOR literal is a valid 4x3 matrix |
| Example.XorNetwork | src/main.rs:12 | the example network is well formed with input size 2 and first-layer output size 2 |
| Example.XorCases | src/nn.rs:87-101 | on the XOR dataset `test_model` feeds `[1,1]`, `[1,0]`, `[0,1]`, `[0,0]` and reports 1, 1, 0, 0 as "Expected" |

## Findings

| source | as written | input that shows it | evidently intended | confidence | as-written member | corrected member |
|---|---|---|---|---|---|---|
| src/matrix.rs:34-46 | `len < cols*row+col` rejects only indices past the length, so index == length passes and the indexing aborts | any matrix, `(row, col) = (rows, 0)` | reject every index `>= len` | high; not executed | Matrices.GetGuardOffByOne | Matrices.GetChecked |
| src/matrix.rs:42-45 | the column is never checked against `cols` | 2x2 matrix, `get(0, 2)` returns the element at `(1, 0)` | `GetError` when `row >= rows` or `col >= cols` | high; not executed | Matrices.GetColumnNotChecked | Matrices.GetChecked |
| src/matrix.rs:89-91 | each `k` assigns `default + a[i][k]*b[k][j]` to the cell, overwriting the previous terms | all-ones 2x3 times all-ones 3x2 gives 1 in every cell | the dot product, here 3 | high; not executed | Matrices.MulAsWritten | Matrices.Mul |
| src/nn.rs:89 | the case width is `weights.rows() + 1`, the first layer's output size plus one | network `[2, 3, 1]`, 4x3 dataset of 2-input cases: the assert passes, then `from_vec(3, 1, _).unwrap()` aborts | `weights.cols() + 1`, the input size plus one | medium; not executed | Networks.TestModelWidthMismatch | Networks.TestModelFixed |

## Left out

- Generic element type: the model fixes `T = int`, with `Default == 0`. `f32`
  rounding is not modelled.
- `Display` for `Matrix`, `Layer` and `NN` is left out. It is debug formatting
  and depends on `Vec::capacity`.
- The numerics of `sigmoid` (`f32::powf`) are left out. The activation is the
  parameter `f`, and nothing is assumed about it.
- `rand::random` is left out. It is an external crate. `Randomize` and
  `RandomizeNetwork` take the samples as a parameter.
- The `println!` of `test_model` is not modelled. The model returns the reported
  cases instead.
- `iter`, `iter_mut` and `&mut` references are modelled as the underlying
  sequence. A write through `get_mut` is the update-at-index `Update`.
- `rows()` and `cols()` are the datatype's fields. `size()` is `Size`.
- `usize` overflow in `cols*row+col` and `rows*cols` is not modelled. Integers
  are unbounded.
- `src/main.rs` wiring is left out. Only its XOR literal and its `[2, 2, 1]`
  network are used, as test vectors.
- Networks.TrainModel: the `model` and `epochs` arguments are ignored, as in the
  source. No training procedure exists in the code, so none is modelled.
- Matrices.RowChunks: it is stated for valid matrices, whose length is a
  multiple of `cols`. The short last chunk of `slice::chunks` appears only in
  `Chunks`.
