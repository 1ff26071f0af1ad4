/**
 * `GCNComparator.arch_scoring`, `compare` and `pairwise_loss` on whole
 * architectures. The learned layers are abstract: a `Scorer` supplies the two
 * graph-convolution rounds (with their fixed parameters and dropout mask) as
 * one function from feature rows and adjacency to node embeddings, and the
 * final `score_fc` as a function from the concatenated cell vectors to a
 * real score. What is modelled is the encoding, the shape checks, the
 * dropping of the two input-node rows, the mean pooling and the order of
 * concatenation. The scoring as written builds the adjacency with
 * destinations starting at node 0 and rejects every cell of the search
 * space; `ArchScoring` offsets them past the input nodes, and `compare` and
 * `pairwise_loss` are modelled on it.
 */
module Scoring {
  import opened Wrappers
  import opened Adjacency
  import opened Features
  import opened Ranking

  type Vector = seq<real>

  /** One cell: `[prev_nodes, prev_ops]`. */
  datatype Cell = Cell(preds: seq<int>, ops: seq<int>)

  /** `{"normal": ..., "reduce": ...}`. */
  datatype Arch = Arch(normal: Cell, reduce: Cell)

  /** The search-space attributes the comparator reads. */
  datatype SearchSpace = SearchSpace(numSteps: nat, numNodeInputs: nat, numPrimitives: nat)

  datatype ScoreError =
    | FeatureFailure(feature: FeatureError)
    | AdjacencyFailure(adjacency: AdjError)
    | PropagationShape   // torch.spmm: the adjacency size differs from the number of feature rows
    | EmptyPool          // mean over no non-input rows: NaN in the source, which the model does not represent

  /**
   * The learned part: `gcn` stands for `gcn2(dropout(relu(gcn1(x, adj))), adj)`,
   * `head` for `score_fc`; `width` is `gcn_out_dim`.
   */
  datatype Scorer = Scorer(width: nat, gcn: (seq<FeatureRow>, SparseTensor) -> seq<Vector>, head: Vector -> real)

  /** The graph convolution gives one row of width `gcn_out_dim` per feature row. */
  ghost predicate WellShaped(s: Scorer) {
    forall x, adj :: |s.gcn(x, adj)| == |x| && forall j :: 0 <= j < |x| ==> |s.gcn(x, adj)[j]| == s.width
  }

  function NumNode(sp: SearchSpace): nat {
    sp.numSteps + sp.numNodeInputs
  }

  function ColumnSum(rows: seq<Vector>, c: nat): real
    requires forall j :: 0 <= j < |rows| ==> c < |rows[j]|
  {
    if rows == [] then 0.0 else ColumnSum(rows[..|rows| - 1], c) + rows[|rows| - 1][c]
  }

  /** `torch.mean(h[2:], dim=0)`: the column means of every row but the two input-node rows. */
  function PoolCell(h: seq<Vector>, w: nat): (v: Vector)
    requires |h| > 2 && forall j :: 0 <= j < |h| ==> |h[j]| == w
    ensures |v| == w
  {
    var rows := h[2..];
    seq(w, c requires 0 <= c < w => ColumnSum(rows, c) / (|rows| as real))
  }

  function CellFeatures(sp: SearchSpace, cell: Cell): Result<seq<FeatureRow>, ScoreError> {
    match FeatureRows(cell.ops, sp.numPrimitives)
    case Ok(x) => Ok(x)
    case Err(e) => Err(FeatureFailure(e))
  }

  /** `get_adj(preds, num_steps + num_node_inputs)` as written: destinations start at node 0. */
  function CellAdjacencyAsWritten(sp: SearchSpace, cell: Cell): (r: Result<SparseTensor, ScoreError>)
    ensures r.Ok? ==> |cell.preds| == NumNode(sp) * sp.numNodeInputs
  {
    match GetAdj(cell.preds, NumNode(sp), sp.numNodeInputs)
    case Ok(a) => Ok(a)
    case Err(e) => Err(AdjacencyFailure(e))
  }

  /** The adjacency with destinations offset past the input nodes, one row per computed node after them. */
  function CellAdjacency(sp: SearchSpace, cell: Cell): (r: Result<SparseTensor, ScoreError>)
    ensures r.Ok? ==> |cell.preds| == sp.numSteps * sp.numNodeInputs
  {
    match GetCellAdj(cell.preds, NumNode(sp), sp.numNodeInputs)
    case Ok(a) => Ok(a)
    case Err(e) => Err(AdjacencyFailure(e))
  }

  /**
   * The pooled vector of one encoded cell; the shape check of `torch.spmm`
   * first. A cell with no non-input row would pool to NaN; it is an error
   * here, and `get_x` never produces one (its rows number at least three).
   */
  function Embed(s: Scorer, x: seq<FeatureRow>, adj: SparseTensor): (r: Result<Vector, ScoreError>)
    requires WellShaped(s)
    ensures r.Ok? <==> |x| == adj.size && |x| > 2
    ensures r.Ok? ==> |r.value| == s.width
  {
    if |x| != adj.size then Err(PropagationShape)
    else if |x| <= 2 then Err(EmptyPool)
    else Ok(PoolCell(s.gcn(x, adj), s.width))
  }

  /**
   * `arch_scoring` with a given adjacency builder: both cells are encoded
   * (normal features, normal adjacency, reduce features, reduce adjacency,
   * in that order), embedded with the same parameters, pooled, and
   * concatenated normal first.
   */
  function ArchScoringWith(sp: SearchSpace, s: Scorer, arch: Arch, adjacency: (SearchSpace, Cell) -> Result<SparseTensor, ScoreError>): (r: Result<real, ScoreError>)
    requires WellShaped(s)
    ensures r.Ok? ==> adjacency(sp, arch.normal).Ok? && adjacency(sp, arch.reduce).Ok?
  {
    var xn :- CellFeatures(sp, arch.normal);
    var an :- adjacency(sp, arch.normal);
    var xr :- CellFeatures(sp, arch.reduce);
    var ar :- adjacency(sp, arch.reduce);
    var yn :- Embed(s, xn, an);
    var yr :- Embed(s, xr, ar);
    Ok(s.head(yn + yr))
  }

  /** `arch_scoring` as written: a score needs `(num_steps + k) * k` predecessors in each cell. */
  function ArchScoringAsWritten(sp: SearchSpace, s: Scorer, arch: Arch): (r: Result<real, ScoreError>)
    requires WellShaped(s)
    ensures r.Ok? ==> var n := NumNode(sp) * sp.numNodeInputs;
      |arch.normal.preds| == n && |arch.reduce.preds| == n
  {
    ArchScoringWith(sp, s, arch, CellAdjacencyAsWritten)
  }

  /**
   * `arch_scoring` with the destination offset in place; `compare` and
   * `pairwise_loss` use this one. A score needs `num_steps * k` predecessors
   * in each cell.
   */
  function ArchScoring(sp: SearchSpace, s: Scorer, arch: Arch): (r: Result<real, ScoreError>)
    requires WellShaped(s)
    ensures r.Ok? ==> var n := sp.numSteps * sp.numNodeInputs;
      |arch.normal.preds| == n && |arch.reduce.preds| == n
  {
    ArchScoringWith(sp, s, arch, CellAdjacency)
  }

  /** `compare(arch_1, arch_2)`: fails iff either scoring fails; 1 exactly when the first scores strictly higher, else 0. */
  function Compare(sp: SearchSpace, s: Scorer, a1: Arch, a2: Arch): (r: Result<nat, ScoreError>)
    requires WellShaped(s)
    ensures r.Ok? <==> ArchScoring(sp, s, a1).Ok? && ArchScoring(sp, s, a2).Ok?
    ensures r.Ok? ==> r.value <= 1 && (r.value == 1 <==> ArchScoring(sp, s, a1).value > ArchScoring(sp, s, a2).value)
  {
    var s1 :- ArchScoring(sp, s, a1);
    var s2 :- ArchScoring(sp, s, a2);
    Ok(CompareScores(s1, s2))
  }

  /**
   * `pairwise_loss(arch_1, arch_2, better, margin)`: fails iff either scoring
   * fails; otherwise never negative, and zero exactly when the preferred
   * architecture's score leads by at least `margin`.
   */
  function PairwiseLoss(sp: SearchSpace, s: Scorer, a1: Arch, a2: Arch, better: bool, margin: real): (r: Result<real, ScoreError>)
    requires WellShaped(s)
    ensures r.Ok? <==> ArchScoring(sp, s, a1).Ok? && ArchScoring(sp, s, a2).Ok?
    ensures r.Ok? ==> var s1, s2 := ArchScoring(sp, s, a1).value, ArchScoring(sp, s, a2).value;
      r.value >= 0.0 && (r.value == 0.0 <==> (if better then s1 - s2 else s2 - s1) >= margin)
  {
    var s1 :- ArchScoring(sp, s, a1);
    var s2 :- ArchScoring(sp, s, a2);
    Ok(HingeLoss(s1, s2, better, margin))
  }

  /** The operator list of a cell encodes: an even, nonempty list of known operator ids, one pair per computed node. */
  predicate OpsAccepted(sp: SearchSpace, cell: Cell) {
    && |cell.ops| % 2 == 0 && |cell.ops| > 0
    && (forall i :: 0 <= i < |cell.ops| ==> 0 <= cell.ops[i] < sp.numPrimitives)
    && 2 + |cell.ops| / 2 == NumNode(sp)
  }

  predicate PredsInRange(sp: SearchSpace, cell: Cell) {
    forall i :: 0 <= i < |cell.preds| ==> 0 <= cell.preds[i] < NumNode(sp)
  }

  /** What `arch_scoring` as written needs of one cell: `num_node * k` predecessors. */
  predicate CellAcceptedAsWritten(sp: SearchSpace, cell: Cell) {
    OpsAccepted(sp, cell) && |cell.preds| == NumNode(sp) * sp.numNodeInputs && PredsInRange(sp, cell)
  }

  /** What the corrected scoring needs of one cell: `num_steps * k` predecessors. */
  predicate CellAccepted(sp: SearchSpace, cell: Cell) {
    OpsAccepted(sp, cell) && |cell.preds| == sp.numSteps * sp.numNodeInputs && PredsInRange(sp, cell)
  }

  lemma CellAcceptedAsWrittenIff(sp: SearchSpace, s: Scorer, cell: Cell)
    requires WellShaped(s)
    ensures CellAcceptedAsWritten(sp, cell) <==>
      && CellFeatures(sp, cell).Ok? && CellAdjacencyAsWritten(sp, cell).Ok?
      && Embed(s, CellFeatures(sp, cell).value, CellAdjacencyAsWritten(sp, cell).value).Ok?
  {
    FeatureRowsSizeCheck(cell.ops, sp.numPrimitives);
    BuildAdjDefinedIff(cell.preds, 0, NumNode(sp), sp.numNodeInputs);
    if CellFeatures(sp, cell).Ok? {
      FeatureRowsLayout(cell.ops, sp.numPrimitives);
    }
  }

  lemma CellAcceptedIff(sp: SearchSpace, s: Scorer, cell: Cell)
    requires WellShaped(s)
    ensures CellAccepted(sp, cell) <==>
      && CellFeatures(sp, cell).Ok? && CellAdjacency(sp, cell).Ok?
      && Embed(s, CellFeatures(sp, cell).value, CellAdjacency(sp, cell).value).Ok?
  {
    FeatureRowsSizeCheck(cell.ops, sp.numPrimitives);
    BuildAdjDefinedIff(cell.preds, sp.numNodeInputs, NumNode(sp), sp.numNodeInputs);
    if CellFeatures(sp, cell).Ok? {
      FeatureRowsLayout(cell.ops, sp.numPrimitives);
    }
  }

  /** `arch_scoring` as written yields a score exactly when both cells are accepted by it; otherwise it raises. */
  lemma ArchScoringAsWrittenDefinedIff(sp: SearchSpace, s: Scorer, arch: Arch)
    requires WellShaped(s)
    ensures ArchScoringAsWritten(sp, s, arch).Ok? <==>
      CellAcceptedAsWritten(sp, arch.normal) && CellAcceptedAsWritten(sp, arch.reduce)
  {
    CellAcceptedAsWrittenIff(sp, s, arch.normal);
    CellAcceptedAsWrittenIff(sp, s, arch.reduce);
  }

  /** The corrected scoring yields a score exactly when both cells are accepted; otherwise it raises. */
  lemma ArchScoringDefinedIff(sp: SearchSpace, s: Scorer, arch: Arch)
    requires WellShaped(s)
    ensures ArchScoring(sp, s, arch).Ok? <==> CellAccepted(sp, arch.normal) && CellAccepted(sp, arch.reduce)
  {
    CellAcceptedIff(sp, s, arch.normal);
    CellAcceptedIff(sp, s, arch.reduce);
  }

  /**
   * `get_adj` is called with `num_node = num_steps + num_node_inputs`, so it
   * expects `(num_steps + k) * k` predecessors, while a cell of the search
   * space has `num_steps * k`. With `k > 0` an architecture containing such a
   * cell is always rejected.
   */
  lemma WellFormedCellRejected(sp: SearchSpace, s: Scorer, arch: Arch)
    requires WellShaped(s)
    requires sp.numNodeInputs > 0
    requires |arch.normal.preds| == sp.numSteps * sp.numNodeInputs
          || |arch.reduce.preds| == sp.numSteps * sp.numNodeInputs
    ensures ArchScoringAsWritten(sp, s, arch).Err?
  {
    var k := sp.numNodeInputs;
    assert NumNode(sp) * k == sp.numSteps * k + k * k;
    assert k * k > 0;
    ArchScoringAsWrittenDefinedIff(sp, s, arch);
  }

  /**
   * A cell of a two-input search space: `num_steps` computed nodes, two
   * predecessors and two operators each, every predecessor a node index and
   * every operator a primitive.
   */
  predicate WellFormedCell(sp: SearchSpace, cell: Cell) {
    && sp.numNodeInputs == 2 && sp.numSteps > 0
    && |cell.preds| == |cell.ops| == 2 * sp.numSteps
    && PredsInRange(sp, cell)
    && (forall i :: 0 <= i < |cell.ops| ==> 0 <= cell.ops[i] < sp.numPrimitives)
  }

  /** With the destination offset, every well-formed architecture is scored. */
  lemma WellFormedArchScored(sp: SearchSpace, s: Scorer, arch: Arch)
    requires WellShaped(s)
    requires WellFormedCell(sp, arch.normal) && WellFormedCell(sp, arch.reduce)
    ensures ArchScoring(sp, s, arch).Ok?
  {
    ArchScoringDefinedIff(sp, s, arch);
  }

  /**
   * Two steps, two inputs, five primitives: the corrected scoring scores
   * this architecture, the scoring as written raises on the normal cell's
   * adjacency (four predecessors where eight are expected).
   */
  lemma ExampleArchitecture(s: Scorer)
    requires WellShaped(s)
    ensures var sp, arch := SearchSpace(2, 2, 5), Arch(Cell([0, 1, 0, 1], [2, 3, 0, 4]), Cell([1, 0, 1, 0], [1, 1, 2, 2]));
      && ArchScoring(sp, s, arch).Ok?
      && ArchScoringAsWritten(sp, s, arch) == Err(AdjacencyFailure(LengthMismatch))
  {
    var sp, arch := SearchSpace(2, 2, 5), Arch(Cell([0, 1, 0, 1], [2, 3, 0, 4]), Cell([1, 0, 1, 0], [1, 1, 2, 2]));
    WellFormedArchScored(sp, s, arch);
    FeatureRowsSizeCheck(arch.normal.ops, 5);
    BuildAdjDefinedIff(arch.normal.preds, 0, 4, 2);
  }

  lemma {:induction false} ColumnSumConstant(rows: seq<Vector>, v: Vector, c: nat)
    requires c < |v| && forall j :: 0 <= j < |rows| ==> rows[j] == v
    ensures ColumnSum(rows, c) == (|rows| as real) * v[c]
  {
    if rows != [] {
      ColumnSumConstant(rows[..|rows| - 1], v, c);
    }
  }

  /** Mean pooling: when every non-input node has the same embedding, the cell vector is that embedding. */
  lemma PoolCellConstant(h: seq<Vector>, v: Vector)
    requires |h| > 2 && |v| > 0
    requires forall j :: 0 <= j < |h| ==> |h[j]| == |v|
    requires forall j :: 2 <= j < |h| ==> h[j] == v
    ensures PoolCell(h, |v|) == v
  {
    var rows := h[2..];
    forall c | 0 <= c < |v| ensures PoolCell(h, |v|)[c] == v[c] {
      ColumnSumConstant(rows, v, c);
    }
  }

  /**
   * `torch.cat((y_n, y_r))`: `score_fc` receives the pooled normal-cell
   * vector followed by the pooled reduce-cell vector, each `gcn_out_dim`
   * wide, both computed with the same parameters.
   */
  lemma ConcatNormalFirst(sp: SearchSpace, s: Scorer, arch: Arch)
    requires WellShaped(s)
    requires ArchScoring(sp, s, arch).Ok?
    ensures CellFeatures(sp, arch.normal).Ok? && CellAdjacency(sp, arch.normal).Ok?
    ensures CellFeatures(sp, arch.reduce).Ok? && CellAdjacency(sp, arch.reduce).Ok?
    ensures var yn := Embed(s, CellFeatures(sp, arch.normal).value, CellAdjacency(sp, arch.normal).value);
      var yr := Embed(s, CellFeatures(sp, arch.reduce).value, CellAdjacency(sp, arch.reduce).value);
      && yn.Ok? && yr.Ok? && |yn.value| == |yr.value| == s.width
      && ArchScoring(sp, s, arch).value == s.head(yn.value + yr.value)
  {
  }

  /**
   * Both cells go through the same parameters: an architecture whose two
   * cells are equal hands `score_fc` one cell vector twice.
   */
  lemma SharedParameters(sp: SearchSpace, s: Scorer, c: Cell)
    requires WellShaped(s)
    requires ArchScoring(sp, s, Arch(c, c)).Ok?
    ensures exists y: Vector :: |y| == s.width && ArchScoring(sp, s, Arch(c, c)).value == s.head(y + y)
  {
    ConcatNormalFirst(sp, s, Arch(c, c));
    var y := Embed(s, CellFeatures(sp, c).value, CellAdjacency(sp, c).value).value;
    assert ArchScoring(sp, s, Arch(c, c)).value == s.head(y + y);
  }

  /** `compare(a, b) == 1` implies `compare(b, a) == 0`; unequal scores give exactly one winner. */
  lemma CompareArchAntisymmetric(sp: SearchSpace, s: Scorer, a1: Arch, a2: Arch)
    requires WellShaped(s)
    ensures Compare(sp, s, a1, a2).Ok? <==> Compare(sp, s, a2, a1).Ok?
    ensures Compare(sp, s, a1, a2) == Ok(1) ==> Compare(sp, s, a2, a1) == Ok(0)
    ensures Compare(sp, s, a1, a2).Ok? ==>
      Compare(sp, s, a1, a2).value + Compare(sp, s, a2, a1).value ==
        if ArchScoring(sp, s, a1) != ArchScoring(sp, s, a2) then 1 else 0
  {
    if Compare(sp, s, a1, a2).Ok? {
      CompareAntisymmetric(ArchScoring(sp, s, a1).value, ArchScoring(sp, s, a2).value);
    }
  }

  /** `pairwise_loss(a, b, True) == pairwise_loss(b, a, False)`, and it is never negative. */
  lemma PairwiseLossLabelFlip(sp: SearchSpace, s: Scorer, a1: Arch, a2: Arch, margin: real)
    requires WellShaped(s)
    ensures PairwiseLoss(sp, s, a1, a2, true, margin).Ok? <==> PairwiseLoss(sp, s, a2, a1, false, margin).Ok?
    ensures PairwiseLoss(sp, s, a1, a2, true, margin).Ok? ==>
      && PairwiseLoss(sp, s, a1, a2, true, margin) == PairwiseLoss(sp, s, a2, a1, false, margin)
      && PairwiseLoss(sp, s, a1, a2, true, margin).value >= 0.0
  {
    if PairwiseLoss(sp, s, a1, a2, true, margin).Ok? {
      HingeLossLabelFlip(ArchScoring(sp, s, a1).value, ArchScoring(sp, s, a2).value, margin);
    }
  }
}
