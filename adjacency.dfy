/**
 * `GCNComparator.get_adj`: the predecessor list of one cell becomes a
 * `num_node x num_node` sparse matrix. Edge slot `i` goes to row
 * `i / num_node_inputs` and column `arch[i]`; duplicate edges are summed and
 * no transpose is added.
 */
module Adjacency {
  import opened Wrappers
  import opened Matrix
  import opened Arith

  /** The ValueErrors scipy's `coo_matrix` raises, in the order it checks them. */
  datatype AdjError = LengthMismatch | ColumnIndexExceeds | NegativeColumnIndex

  /** torch's sparse float tensor: COO triples and a square shape. */
  datatype SparseTensor = SparseTensor(size: nat, entries: seq<Entry>)

  /** `k` copies of `v`. */
  function Copies(v: nat, k: nat): (s: seq<nat>)
    ensures |s| == k && forall i :: 0 <= i < k ==> s[i] == v
  {
    seq(k, _ => v)
  }

  /** numpy's `np.repeat(range(lo, n), k)`: every node index from `lo` on repeated `k` times. */
  function Repeat(lo: nat, n: nat, k: nat): (s: seq<nat>)
    requires lo <= n
    ensures |s| == (n - lo) * k
    ensures forall i :: 0 <= i < |s| ==> lo <= s[i] < n
    decreases n - lo
  {
    if n == lo then []
    else
      assert (n - lo) * k == (n - 1 - lo) * k + k;
      Repeat(lo, n - 1, k) + Copies(n - 1, k)
  }

  /** Position `i` of the repeated node list holds `lo + i / k`. */
  lemma {:induction false} RepeatAt(lo: nat, n: nat, k: nat, i: nat)
    requires k > 0 && lo <= n && i < (n - lo) * k
    ensures Repeat(lo, n, k)[i] == lo + i / k
    decreases n - lo
  {
    if n > lo {
      var prev, m := Repeat(lo, n - 1, k), n - 1 - lo;
      MulSucc(m, k);
      if i < |prev| {
        RepeatAt(lo, n - 1, k, i);
        assert Repeat(lo, n, k)[i] == prev[i];
      } else {
        DivInBlock(i, m, k);
        assert Repeat(lo, n, k)[i] == Copies(n - 1, k)[i - |prev|];
      }
    }
  }

  /** The number of occurrences of `t` in `s`. */
  function Count(s: seq<nat>, t: nat): nat {
    if s == [] then 0 else (if s[0] == t then 1 else 0) + Count(s[1..], t)
  }

  lemma {:induction false} CountConcat(a: seq<nat>, b: seq<nat>, t: nat)
    ensures Count(a + b, t) == Count(a, t) + Count(b, t)
  {
    if a == [] {
      assert a + b == b;
    } else {
      assert (a + b)[0] == a[0] && (a + b)[1..] == a[1..] + b;
      CountConcat(a[1..], b, t);
    }
  }

  /** `k` copies of `v` hold `v` `k` times and nothing else. */
  lemma {:induction false} CopiesCount(v: nat, k: nat, t: nat)
    ensures Count(Copies(v, k), t) == if t == v then k else 0
  {
    if k > 0 {
      assert Copies(v, k)[1..] == Copies(v, k - 1);
      CopiesCount(v, k - 1, t);
    }
  }

  /** Every node index in `[lo, n)` occurs exactly `k` times in the repeated list, any other not at all. */
  lemma {:induction false} RepeatCount(lo: nat, n: nat, k: nat, t: nat)
    requires lo <= n
    ensures Count(Repeat(lo, n, k), t) == if lo <= t < n then k else 0
    decreases n - lo
  {
    if n > lo {
      var prev := Repeat(lo, n - 1, k);
      RepeatCount(lo, n - 1, k, t);
      CopiesCount(n - 1, k, t);
      CountConcat(prev, Copies(n - 1, k), t);
    }
  }

  function Nats(s: seq<int>): (r: seq<nat>)
    requires forall i :: 0 <= i < |s| ==> s[i] >= 0
    ensures |r| == |s| && forall i :: 0 <= i < |s| ==> r[i] == s[i]
  {
    seq(|s|, i requires 0 <= i < |s| => s[i] as nat)
  }

  /** The raw `coo_matrix((ones, (t_nodes, f_nodes)))` triples from slot `lo` on. */
  function RawEntries(ts: seq<nat>, fs: seq<nat>, lo: nat): (es: seq<Entry>)
    requires |ts| == |fs| && lo <= |ts|
    ensures |es| == |ts| - lo
    ensures forall j :: 0 <= j < |es| ==> es[j] == Entry(ts[lo + j], fs[lo + j], 1)
    decreases |ts| - lo
  {
    if lo == |ts| then [] else [Entry(ts[lo], fs[lo], 1)] + RawEntries(ts, fs, lo + 1)
  }

  /** `adj.multiply(adj > 0)`: keeps every positive entry, zeroes the rest. */
  function Mask(m: Grid): (r: Grid)
    ensures r == m
  {
    var r := seq(|m|, i requires 0 <= i < |m| => MaskRow(m[i]));
    assert forall i :: 0 <= i < |m| ==> r[i] == m[i];
    r
  }

  function MaskRow(row: seq<nat>): (r: seq<nat>)
    ensures r == row
  {
    var r := seq(|row|, j requires 0 <= j < |row| => row[j] * (if row[j] > 0 then 1 else 0));
    assert forall j :: 0 <= j < |row| ==> r[j] == row[j];
    r
  }

  /**
   * `get_adj(arch, num_node)` with `num_node_inputs == k`, followed by
   * `sparse_mx_to_torch_sparse_tensor`, with the destination nodes
   * `range(lo, num_node)`, each repeated `k` times.
   */
  function BuildAdj(preds: seq<int>, lo: nat, numNode: nat, k: nat): (r: Result<SparseTensor, AdjError>)
    requires lo <= numNode
    ensures r.Ok? ==> r.value.size == numNode && |preds| == (numNode - lo) * k
    ensures r.Ok? ==> forall i :: 0 <= i < |preds| ==> 0 <= preds[i] < numNode
  {
    var tNodes := Repeat(lo, numNode, k);
    if |preds| != |tNodes| then Err(LengthMismatch)
    else if exists i :: 0 <= i < |preds| && preds[i] >= numNode then Err(ColumnIndexExceeds)
    else if exists i :: 0 <= i < |preds| && preds[i] < 0 then Err(NegativeColumnIndex)
    else
      var raw := RawEntries(tNodes, Nats(preds), 0);
      Ok(SparseTensor(numNode, ToCoo(Mask(Densify(raw, numNode)))))
  }

  /** `get_adj` as written: `t_nodes = np.repeat(range(num_node), k)`, edge slot `i` goes into node `i / k`. */
  function GetAdj(preds: seq<int>, numNode: nat, k: nat): (r: Result<SparseTensor, AdjError>)
    ensures r.Ok? ==> r.value.size == numNode && |preds| == numNode * k
  {
    BuildAdj(preds, 0, numNode, k)
  }

  /**
   * `get_adj` with the destinations offset past the `k` input nodes,
   * `t_nodes = np.repeat(range(k, num_node), k)`: edge slot `i` goes into
   * node `k + i / k`, and a cell of `num_node - k` computed nodes is accepted.
   */
  function GetCellAdj(preds: seq<int>, numNode: nat, k: nat): (r: Result<SparseTensor, AdjError>)
    requires k <= numNode
    ensures r.Ok? ==> r.value.size == numNode && |preds| == (numNode - k) * k
  {
    BuildAdj(preds, k, numNode, k)
  }

  /** The dense matrix a sparse tensor denotes (duplicates summed). */
  function Dense(st: SparseTensor): Grid
    requires InBounds(st.entries, st.size)
  {
    Densify(st.entries, st.size)
  }

  /** Number of edge slots `i >= from` with `first + i / k == t` and `preds[i] == f`. */
  function SlotsInto(preds: seq<int>, first: nat, k: nat, t: nat, f: nat, from: nat): nat
    requires k > 0 && from <= |preds|
    decreases |preds| - from
  {
    if from == |preds| then 0
    else (if first + from / k == t && preds[from] == f then 1 else 0) + SlotsInto(preds, first, k, t, f, from + 1)
  }

  lemma {:induction false} RawValue(ts: seq<nat>, preds: seq<int>, fs: seq<nat>, first: nat, k: nat, t: nat, f: nat, from: nat)
    requires k > 0 && |ts| == |fs| == |preds| && from <= |ts|
    requires forall i :: 0 <= i < |ts| ==> ts[i] == first + i / k && fs[i] == preds[i]
    ensures ValueAt(RawEntries(ts, fs, from), t, f) == SlotsInto(preds, first, k, t, f, from)
    decreases |ts| - from
  {
    if from < |ts| {
      RawValue(ts, preds, fs, first, k, t, f, from + 1);
      assert RawEntries(ts, fs, from)[1..] == RawEntries(ts, fs, from + 1);
    }
  }

  lemma {:induction false} RawRowValue(ts: seq<nat>, fs: seq<nat>, t: nat, from: nat)
    requires |ts| == |fs| && from <= |ts|
    ensures RowValue(RawEntries(ts, fs, from), t) == Count(ts[from..], t)
    ensures TotalValue(RawEntries(ts, fs, from)) == |ts| - from
    decreases |ts| - from
  {
    if from < |ts| {
      RawRowValue(ts, fs, t, from + 1);
      assert RawEntries(ts, fs, from)[1..] == RawEntries(ts, fs, from + 1);
      assert ts[from..][1..] == ts[from + 1..];
    }
  }

  /**
   * The sparse constructor accepts the edge list exactly when there is one
   * predecessor per (destination node, input) slot and every predecessor is
   * a node index; a wrong length is reported first.
   */
  lemma BuildAdjDefinedIff(preds: seq<int>, lo: nat, numNode: nat, k: nat)
    requires lo <= numNode
    ensures BuildAdj(preds, lo, numNode, k).Ok? <==>
      |preds| == (numNode - lo) * k && forall i :: 0 <= i < |preds| ==> 0 <= preds[i] < numNode
    ensures |preds| != (numNode - lo) * k ==> BuildAdj(preds, lo, numNode, k) == Err(LengthMismatch)
  {
  }

  /** The raw triples of a successful call and the matrix they denote. */
  lemma RawInBounds(preds: seq<int>, lo: nat, numNode: nat, k: nat)
    requires lo <= numNode
    requires |preds| == (numNode - lo) * k && forall i :: 0 <= i < |preds| ==> 0 <= preds[i] < numNode
    ensures InBounds(RawEntries(Repeat(lo, numNode, k), Nats(preds), 0), numNode)
  {
  }

  /**
   * Entry (t, f) of the adjacency is the number of edge slots `i` with
   * `lo + i / k == t` and `preds[i] == f`: duplicates are summed, the masking
   * changes nothing and no transpose is added. The tensor holds each nonzero
   * coordinate once, in row-major order.
   */
  lemma BuildAdjCounts(preds: seq<int>, lo: nat, numNode: nat, k: nat)
    requires k > 0 && lo <= numNode
    requires BuildAdj(preds, lo, numNode, k).Ok?
    ensures var st := BuildAdj(preds, lo, numNode, k).value;
      && st.size == numNode
      && Coalesced(st.entries)
      && InBounds(st.entries, numNode)
      && forall t, f :: 0 <= t < numNode && 0 <= f < numNode ==>
           Dense(st)[t][f] == SlotsInto(preds, lo, k, t, f, 0)
  {
    var ts := Repeat(lo, numNode, k);
    var raw := RawEntries(ts, Nats(preds), 0);
    RawInBounds(preds, lo, numNode, k);
    var d := Densify(raw, numNode);
    ToCooRoundTrip(d, numNode);
    var st := BuildAdj(preds, lo, numNode, k).value;
    assert st.entries == ToCoo(d);
    forall i | 0 <= i < |ts| ensures ts[i] == lo + i / k {
      RepeatAt(lo, numNode, k, i);
    }
    forall t, f | 0 <= t < numNode && 0 <= f < numNode
      ensures Dense(st)[t][f] == SlotsInto(preds, lo, k, t, f, 0)
    {
      DensifyAt(raw, numNode, t, f);
      RawValue(ts, preds, Nats(preds), lo, k, t, f, 0);
    }
  }

  /**
   * Every destination row of the adjacency sums to `k` (each destination
   * owns `k` consecutive slots), the rows before `lo` are empty, and all
   * entries together sum to the number of slots.
   */
  lemma BuildAdjSums(preds: seq<int>, lo: nat, numNode: nat, k: nat)
    requires lo <= numNode
    requires BuildAdj(preds, lo, numNode, k).Ok?
    ensures var st := BuildAdj(preds, lo, numNode, k).value;
      && InBounds(st.entries, st.size)
      && Total(Dense(st)) == |preds|
      && forall t :: 0 <= t < numNode ==> Sum(Dense(st)[t]) == if lo <= t then k else 0
  {
    var ts := Repeat(lo, numNode, k);
    var raw := RawEntries(ts, Nats(preds), 0);
    RawInBounds(preds, lo, numNode, k);
    var d := Densify(raw, numNode);
    ToCooRoundTrip(d, numNode);
    var st := BuildAdj(preds, lo, numNode, k).value;
    assert st.entries == ToCoo(d);
    DensifyTotal(raw, numNode);
    RawRowValue(ts, Nats(preds), 0, 0);
    forall t | 0 <= t < numNode ensures Sum(Dense(st)[t]) == if lo <= t then k else 0 {
      DensifyRowSum(raw, numNode, t);
      RawRowValue(ts, Nats(preds), t, 0);
      assert ts[0..] == ts;
      RepeatCount(lo, numNode, k, t);
    }
  }

  /** A two-node, one-input example: an edge 1 -> 0 appears at (0, 1) but not at (1, 0). */
  lemma GetAdjNotSymmetric(preds: seq<int>)
    requires preds == [1, 1]
    ensures GetAdj(preds, 2, 1).Ok?
    ensures var st := GetAdj(preds, 2, 1).value;
      InBounds(st.entries, 2) && Dense(st)[0][1] == 1 && Dense(st)[1][0] == 0
  {
    BuildAdjDefinedIff(preds, 0, 2, 1);
    BuildAdjCounts(preds, 0, 2, 1);
    assert SlotsInto(preds, 0, 1, 0, 1, 2) == 0 && SlotsInto(preds, 0, 1, 1, 0, 2) == 0;
    assert SlotsInto(preds, 0, 1, 0, 1, 1) == 0 && SlotsInto(preds, 0, 1, 1, 0, 1) == 0;
    assert SlotsInto(preds, 0, 1, 0, 1, 0) == 1 && SlotsInto(preds, 0, 1, 1, 0, 0) == 0;
  }
}
