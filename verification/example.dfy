/**
 The example of the entry point `src/main.rs`: the XOR dataset and the
 `[2, 2, 1]` network, as test vectors for `test_model`.
 */
module Example {
  import opened Matrices
  import opened Networks

  /** The XOR dataset of the entry point, four rows of three columns. */
  function XorModel(): (m: Matrix)
    ensures Valid(m) && m.rows == 4 && m.cols == 3
  {
    FromVec(4, 3, [1, 1, 1,
                   1, 1, 0,
                   1, 0, 1,
                   0, 0, 0]).value
  }

  /** The example network `[2, 2, 1]` has input size 2 and first-layer
      output size 2, so both case widths are 3. */
  lemma XorNetwork()
    ensures NewNetwork([2, 2, 1]).Ok?
    ensures var net := NewNetwork([2, 2, 1]).value;
      WellFormed(net) && |net.layers| > 0 && InputSize(net) == 2 && CaseWidth(net) == 3
  {
    NewNetworkExample();
  }

  /** Case `i` of `test_model` on a dataset of two-feature rows. */
  lemma TwoFeatureCase(net: Network, model: Matrix, f: int -> int, i: nat)
    requires WellFormed(net) && |net.layers| > 0 && InputSize(net) == 2 && CaseWidth(net) == 3
    requires Valid(model) && CasesRun(net, model, CaseWidth(net)) && i < model.rows
    ensures |TestModel(net, model, f).value| == model.rows
    ensures TestModel(net, model, f).value[i].input.data == [At(model, i, 1), At(model, i, 2)]
    ensures TestModel(net, model, f).value[i].expected == At(model, i, 1)
  {
    var c := TestModel(net, model, f).value[i];
    assert |c.input.data| == 2;
  }

  /** On a network like the example one, `test_model` runs on the XOR
      dataset; each case feeds columns 1 and 2 of its row and reports
      column 1 as "Expected". */
  lemma XorCases(net: Network, f: int -> int)
    requires WellFormed(net) && |net.layers| > 0 && InputSize(net) == 2 && CaseWidth(net) == 3
    ensures CasesRun(net, XorModel(), CaseWidth(net))
    ensures var cases := TestModel(net, XorModel(), f).value;
      && |cases| == 4
      && cases[0].input.data == [1, 1] && cases[0].expected == 1
      && cases[1].input.data == [1, 0] && cases[1].expected == 1
      && cases[2].input.data == [0, 1] && cases[2].expected == 0
      && cases[3].input.data == [0, 0] && cases[3].expected == 0
  {
    var model := XorModel();
    assert Size(model) == 12;
    assert model.data == [1, 1, 1, 1, 1, 0, 1, 0, 1, 0, 0, 0];
    TwoFeatureCase(net, model, f, 0);
    TwoFeatureCase(net, model, f, 1);
    TwoFeatureCase(net, model, f, 2);
    TwoFeatureCase(net, model, f, 3);
  }
}
