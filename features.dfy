/**
 * `GCNComparator.get_x`: the operator choices of one cell are split by index
 * parity into the first and second input of each computed node, and the
 * feature rows are laid out as two fixed input-node rows followed by one row
 * per node. Embeddings and the `x_hidden` projection are symbolic: a row
 * records what was looked up and that `x_hidden` was applied to it.
 */
module Features {
  import opened Wrappers

  /** What one row of `torch.cat((emb_init_node, emb_op), dim=0)` was built from. */
  datatype Embedded =
    | InitNode(index: nat)          // `init_node_emb` looked up at 0 or 1
    | OpPair(op0: int, op1: int)    // `op_emb(op0)` concatenated with `op_emb(op1)`

  /** A row of the feature matrix: `x_hidden` applied to an embedded row (input-node rows included). */
  datatype FeatureRow = Hidden(input: Embedded)

  datatype FeatureError =
    | InconsistentSize   // the assertion: op0_list and op1_list differ in length
    | NonIntegerIndex    // empty op lists become a float tensor, which `nn.Embedding` refuses
    | OpIdOutOfRange     // an operator id outside the embedding table

  /** The elements at even positions, in order. */
  function Evens(s: seq<int>): seq<int> {
    if s == [] then [] else [s[0]] + Odds(s[1..])
  }

  /** The elements at odd positions, in order. */
  function Odds(s: seq<int>): seq<int> {
    if s == [] then [] else Evens(s[1..])
  }

  /** `op0_list` holds `s[0], s[2], ...` and `op1_list` holds `s[1], s[3], ...`. */
  lemma {:induction false} ParityAt(s: seq<int>)
    ensures |Evens(s)| == (|s| + 1) / 2 && |Odds(s)| == |s| / 2
    ensures forall j :: 0 <= j < |Evens(s)| ==> Evens(s)[j] == s[2 * j]
    ensures forall j :: 0 <= j < |Odds(s)| ==> Odds(s)[j] == s[2 * j + 1]
  {
    if s != [] {
      var t := s[1..];
      ParityAt(t);
      assert Evens(s) == [s[0]] + Odds(t) && Odds(s) == Evens(t);
      forall j | 0 < j < |Evens(s)| ensures Evens(s)[j] == s[2 * j] {
        assert Evens(s)[j] == Odds(t)[j - 1] == t[2 * (j - 1) + 1];
      }
      forall j | 0 <= j < |Odds(s)| ensures Odds(s)[j] == s[2 * j + 1] {
        assert Odds(s)[j] == Evens(t)[j] == t[2 * j];
      }
    }
  }

  /** Together the two lists are a permutation of the operator list. */
  lemma {:induction false} ParityPermutation(s: seq<int>)
    ensures multiset(Evens(s)) + multiset(Odds(s)) == multiset(s)
  {
    if s != [] {
      ParityPermutation(s[1..]);
      assert s == [s[0]] + s[1..];
    }
  }

  function Pairs(a: seq<int>, b: seq<int>): (rows: seq<FeatureRow>)
    requires |a| == |b|
  {
    seq(|a|, j requires 0 <= j < |a| => Hidden(OpPair(a[j], b[j])))
  }

  /** The feature matrix `get_x(ops)` computes, or the error it raises. */
  function FeatureRows(ops: seq<int>, numOps: nat): (r: Result<seq<FeatureRow>, FeatureError>)
    ensures r.Ok? ==> |ops| % 2 == 0 && |ops| > 0 && |r.value| == 2 + |ops| / 2
    ensures r.Ok? ==> forall i :: 0 <= i < |ops| ==> 0 <= ops[i] < numOps
  {
    ParityAt(ops);
    var op0, op1 := Evens(ops), Odds(ops);
    if |op0| != |op1| then Err(InconsistentSize)
    else if op0 == [] then Err(NonIntegerIndex)
    else if exists i :: 0 <= i < |ops| && !(0 <= ops[i] < numOps) then Err(OpIdOutOfRange)
    else Ok([Hidden(InitNode(0)), Hidden(InitNode(1))] + Pairs(op0, op1))
  }

  /** The only shape check: the assertion fails exactly for an odd number of operators. */
  lemma FeatureRowsSizeCheck(ops: seq<int>, numOps: nat)
    ensures FeatureRows(ops, numOps) == Err(InconsistentSize) <==> |ops| % 2 == 1
    ensures FeatureRows(ops, numOps).Ok? <==>
      && |ops| % 2 == 0 && |ops| > 0
      && forall i :: 0 <= i < |ops| ==> 0 <= ops[i] < numOps
  {
    ParityAt(ops);
  }

  /**
   * The feature matrix has `2 + |ops| / 2` rows: rows 0 and 1 are the fixed
   * input nodes, row `j + 2` pairs `ops[2j]` (first) with `ops[2j + 1]`.
   * Every row, the input-node rows included, passes through `x_hidden`.
   */
  lemma FeatureRowsLayout(ops: seq<int>, numOps: nat)
    requires FeatureRows(ops, numOps).Ok?
    ensures var rows := FeatureRows(ops, numOps).value;
      && |rows| == 2 + |ops| / 2
      && rows[0] == Hidden(InitNode(0)) && rows[1] == Hidden(InitNode(1))
      && forall j :: 0 <= j < |ops| / 2 ==> rows[j + 2] == Hidden(OpPair(ops[2 * j], ops[2 * j + 1]))
  {
    ParityAt(ops);
  }

  /**
   * The appending loop of `get_x`: even positions go to `op0`, odd ones to
   * `op1`, each keeping the original order.
   */
  method SplitByParity(ops: seq<int>) returns (op0: seq<int>, op1: seq<int>)
    ensures op0 == Evens(ops) && op1 == Odds(ops)
  {
    op0, op1 := [], [];
    var idx := 0;
    while idx < |ops|
      invariant 0 <= idx <= |ops|
      invariant |op0| == (idx + 1) / 2 && |op1| == idx / 2
      invariant forall j :: 0 <= j < |op0| ==> op0[j] == ops[2 * j]
      invariant forall j :: 0 <= j < |op1| ==> op1[j] == ops[2 * j + 1]
    {
      if idx % 2 == 0 {
        op0 := op0 + [ops[idx]];
      } else {
        op1 := op1 + [ops[idx]];
      }
      idx := idx + 1;
    }
    ParityAt(ops);
  }

  /** `get_x`: split, check, then lay out the rows. */
  method GetX(ops: seq<int>, numOps: nat) returns (r: Result<seq<FeatureRow>, FeatureError>)
    ensures r == FeatureRows(ops, numOps)
  {
    var op0, op1 := SplitByParity(ops);
    if |op0| != |op1| {
      return Err(InconsistentSize);
    }
    if op0 == [] {
      return Err(NonIntegerIndex);
    }
    if exists i :: 0 <= i < |ops| && !(0 <= ops[i] < numOps) {
      return Err(OpIdOutOfRange);
    }
    r := Ok([Hidden(InitNode(0)), Hidden(InitNode(1))] + Pairs(op0, op1));
  }
}
