/**
 * Square count matrices and the coordinate (COO) format that scipy and torch
 * use for sparse matrices. A dense matrix holds natural numbers: the model of
 * a float32 matrix whose entries are small edge counts.
 */
module Matrix {

  type Grid = seq<seq<nat>>

  /** A coordinate-format entry: value `val` at (`row`, `col`). */
  datatype Entry = Entry(row: nat, col: nat, val: nat)

  predicate IsSquare(m: Grid, n: nat) {
    |m| == n && forall r :: 0 <= r < n ==> |m[r]| == n
  }

  predicate InBounds(es: seq<Entry>, n: nat) {
    forall i :: 0 <= i < |es| ==> es[i].row < n && es[i].col < n
  }

  /** Row-major order on coordinates. */
  predicate Before(a: Entry, b: Entry) {
    a.row < b.row || (a.row == b.row && a.col < b.col)
  }

  /**
   * The canonical ("coalesced") COO layout: coordinates strictly increasing in
   * row-major order, so no coordinate appears twice, and no stored zero.
   */
  predicate Coalesced(es: seq<Entry>) {
    && (forall i, j :: 0 <= i < j < |es| ==> Before(es[i], es[j]))
    && (forall i :: 0 <= i < |es| ==> es[i].val > 0)
  }

  function Zeros(n: nat): (m: Grid)
    ensures IsSquare(m, n)
    ensures forall r, c :: 0 <= r < n && 0 <= c < n ==> m[r][c] == 0
  {
    seq(n, _ => seq(n, _ => 0))
  }

  /** Adds `v` to the entry at (`r`, `c`). */
  function AddAt(m: Grid, n: nat, r: nat, c: nat, v: nat): (m': Grid)
    requires IsSquare(m, n) && r < n && c < n
    ensures IsSquare(m', n)
    ensures m'[r][c] == m[r][c] + v
    ensures forall r', c' :: 0 <= r' < n && 0 <= c' < n && (r' != r || c' != c) ==> m'[r'][c'] == m[r'][c']
  {
    var cell: nat := m[r][c] + v;
    var row: seq<nat> := m[r][c := cell];
    m[r := row]
  }

  /** Sum of the values that `es` stores at (`r`, `c`). */
  function ValueAt(es: seq<Entry>, r: nat, c: nat): nat {
    if es == [] then 0
    else (if es[0].row == r && es[0].col == c then es[0].val else 0) + ValueAt(es[1..], r, c)
  }

  /** Sum of the values that `es` stores in row `r`. */
  function RowValue(es: seq<Entry>, r: nat): nat {
    if es == [] then 0
    else (if es[0].row == r then es[0].val else 0) + RowValue(es[1..], r)
  }

  /** Sum of all values of `es`. */
  function TotalValue(es: seq<Entry>): nat {
    if es == [] then 0 else es[0].val + TotalValue(es[1..])
  }

  function Sum(s: seq<nat>): nat {
    if s == [] then 0 else Sum(s[..|s| - 1]) + s[|s| - 1]
  }

  /** Sum of every entry of `m`. */
  function Total(m: Grid): nat {
    if m == [] then 0 else Total(m[..|m| - 1]) + Sum(m[|m| - 1])
  }

  /**
   * The dense matrix a COO triple list denotes: entries at the same
   * coordinate are summed, as scipy does when it converts or multiplies a
   * COO matrix.
   */
  function Densify(es: seq<Entry>, n: nat): (m: Grid)
    requires InBounds(es, n)
    ensures IsSquare(m, n)
  {
    if es == [] then Zeros(n)
    else
      var e := es[|es| - 1];
      AddAt(Densify(es[..|es| - 1], n), n, e.row, e.col, e.val)
  }

  lemma {:induction false} ValueAtAppend(a: seq<Entry>, b: seq<Entry>, r: nat, c: nat)
    ensures ValueAt(a + b, r, c) == ValueAt(a, r, c) + ValueAt(b, r, c)
    ensures RowValue(a + b, r) == RowValue(a, r) + RowValue(b, r)
    ensures TotalValue(a + b) == TotalValue(a) + TotalValue(b)
  {
    if a != [] {
      assert (a + b)[1..] == a[1..] + b;
      ValueAtAppend(a[1..], b, r, c);
    } else {
      assert a + b == b;
    }
  }

  /** Every dense entry is the sum of the COO values stored at its coordinate. */
  lemma {:induction false} DensifyAt(es: seq<Entry>, n: nat, r: nat, c: nat)
    requires InBounds(es, n) && r < n && c < n
    ensures Densify(es, n)[r][c] == ValueAt(es, r, c)
  {
    if es != [] {
      var k := |es| - 1;
      DensifyAt(es[..k], n, r, c);
      assert es == es[..k] + [es[k]];
      ValueAtAppend(es[..k], [es[k]], r, c);
    }
  }

  lemma {:induction false} SumUpdate(s: seq<nat>, c: nat, v: nat)
    requires c < |s|
    ensures Sum(s[c := (s[c] + v) as nat]) == Sum(s) + v
  {
    var s' := s[c := (s[c] + v) as nat];
    var k := |s| - 1;
    if c == k {
      assert s'[..k] == s[..k];
    } else {
      assert s'[..k] == s[..k][c := (s[c] + v) as nat];
      SumUpdate(s[..k], c, v);
    }
  }

  lemma {:induction false} TotalUpdate(m: Grid, r: nat, row: seq<nat>, v: nat)
    requires r < |m| && Sum(row) == Sum(m[r]) + v
    ensures Total(m[r := row]) == Total(m) + v
  {
    var m' := m[r := row];
    var k := |m| - 1;
    if r == k {
      assert m'[..k] == m[..k];
    } else {
      assert m'[..k] == m[..k][r := row];
      TotalUpdate(m[..k], r, row, v);
    }
  }

  lemma {:induction false} SumZeros(s: seq<nat>)
    requires forall i :: 0 <= i < |s| ==> s[i] == 0
    ensures Sum(s) == 0
  {
    if s != [] {
      SumZeros(s[..|s| - 1]);
    }
  }

  lemma {:induction false} TotalZeros(m: Grid)
    requires forall r, c :: 0 <= r < |m| && 0 <= c < |m[r]| ==> m[r][c] == 0
    ensures Total(m) == 0
  {
    if m != [] {
      SumZeros(m[|m| - 1]);
      TotalZeros(m[..|m| - 1]);
    }
  }

  /** Adding `v` at (`r`, `c`) adds `v` to row `r`'s sum, to no other row's, and to the total. */
  lemma AddAtSums(m: Grid, n: nat, r: nat, c: nat, v: nat)
    requires IsSquare(m, n) && r < n && c < n
    ensures Total(AddAt(m, n, r, c, v)) == Total(m) + v
    ensures forall r' :: 0 <= r' < n ==> Sum(AddAt(m, n, r, c, v)[r']) == Sum(m[r']) + (if r' == r then v else 0)
  {
    var cell: nat := m[r][c] + v;
    var row: seq<nat> := m[r][c := cell];
    assert AddAt(m, n, r, c, v) == m[r := row];
    SumUpdate(m[r], c, v);
    TotalUpdate(m, r, row, v);
  }

  /** The dense matrix of `es` adds the last entry to the dense matrix of the others. */
  lemma DensifyLast(es: seq<Entry>, n: nat)
    requires InBounds(es, n) && es != []
    ensures var e := es[|es| - 1];
      && InBounds(es[..|es| - 1], n) && e.row < n && e.col < n
      && Densify(es, n) == AddAt(Densify(es[..|es| - 1], n), n, e.row, e.col, e.val)
  {
  }

  /** Summing all dense entries gives the sum of all COO values. */
  lemma {:induction false} DensifyTotal(es: seq<Entry>, n: nat)
    requires InBounds(es, n)
    ensures Total(Densify(es, n)) == TotalValue(es)
  {
    if es == [] {
      TotalZeros(Zeros(n));
    } else {
      var k := |es| - 1;
      var e := es[k];
      DensifyLast(es, n);
      DensifyTotal(es[..k], n);
      AddAtSums(Densify(es[..k], n), n, e.row, e.col, e.val);
      assert es == es[..k] + [e];
      ValueAtAppend(es[..k], [e], 0, 0);
    }
  }

  /** Summing row `r` of the dense matrix gives the COO values stored in row `r`. */
  lemma {:induction false} DensifyRowSum(es: seq<Entry>, n: nat, r: nat)
    requires InBounds(es, n) && r < n
    ensures Sum(Densify(es, n)[r]) == RowValue(es, r)
  {
    if es == [] {
      SumZeros(Zeros(n)[r]);
    } else {
      var k := |es| - 1;
      var e := es[k];
      DensifyLast(es, n);
      DensifyRowSum(es[..k], n, r);
      AddAtSums(Densify(es[..k], n), n, e.row, e.col, e.val);
      assert es == es[..k] + [e];
      ValueAtAppend(es[..k], [e], r, 0);
    }
  }

  /** The nonzero entries of `row` (row number `r`) from column `c` on, in column order. */
  function RowEntries(row: seq<nat>, r: nat, c: nat): (es: seq<Entry>)
    requires c <= |row|
    ensures forall i :: 0 <= i < |es| ==> es[i].row == r && c <= es[i].col < |row| && es[i].val == row[es[i].col] > 0
    ensures Coalesced(es)
    decreases |row| - c
  {
    if c == |row| then []
    else (if row[c] > 0 then [Entry(r, c, row[c])] else []) + RowEntries(row, r, c + 1)
  }

  /** The nonzero entries of the rows `r..` of `m`, in row-major order. */
  function EntriesFrom(m: Grid, r: nat): (es: seq<Entry>)
    requires r <= |m|
    ensures forall i :: 0 <= i < |es| ==> r <= es[i].row < |m| && es[i].col < |m[es[i].row]|
    ensures Coalesced(es)
    decreases |m| - r
  {
    if r == |m| then []
    else RowEntries(m[r], r, 0) + EntriesFrom(m, r + 1)
  }

  /**
   * scipy's `tocoo()` of a canonical matrix, re-packed as torch's
   * (indices, values, shape) triple: one entry per nonzero coordinate,
   * in row-major order.
   */
  function ToCoo(m: Grid): (es: seq<Entry>)
    ensures Coalesced(es)
    ensures forall i :: 0 <= i < |es| ==> es[i].row < |m| && es[i].col < |m[es[i].row]|
  {
    EntriesFrom(m, 0)
  }

  lemma {:induction false} RowEntriesValue(row: seq<nat>, r: nat, c0: nat, r': nat, c': nat)
    requires c0 <= |row|
    ensures ValueAt(RowEntries(row, r, c0), r', c') == if r' == r && c0 <= c' < |row| then row[c'] else 0
    decreases |row| - c0
  {
    if c0 < |row| {
      var head: seq<Entry> := if row[c0] > 0 then [Entry(r, c0, row[c0])] else [];
      var tail := RowEntries(row, r, c0 + 1);
      assert RowEntries(row, r, c0) == head + tail;
      RowEntriesValue(row, r, c0 + 1, r', c');
      ValueAtAppend(head, tail, r', c');
      if row[c0] > 0 {
        assert ValueAt(head[1..], r', c') == 0;
      }
    }
  }

  lemma {:induction false} EntriesFromValue(m: Grid, r0: nat, r: nat, c: nat)
    requires r0 <= |m|
    ensures ValueAt(EntriesFrom(m, r0), r, c) == if r0 <= r < |m| && c < |m[r]| then m[r][c] else 0
    decreases |m| - r0
  {
    if r0 < |m| {
      var head := RowEntries(m[r0], r0, 0);
      var tail := EntriesFrom(m, r0 + 1);
      assert EntriesFrom(m, r0) == head + tail;
      EntriesFromValue(m, r0 + 1, r, c);
      RowEntriesValue(m[r0], r0, 0, r, c);
      ValueAtAppend(head, tail, r, c);
      assert ValueAt(EntriesFrom(m, r0), r, c) == ValueAt(head, r, c) + ValueAt(tail, r, c);
      if r == r0 {
        assert ValueAt(tail, r, c) == 0;
      } else {
        assert ValueAt(head, r, c) == 0;
      }
    }
  }

  /** Round trip: re-packing a matrix as COO triples and densifying them gives the matrix back. */
  lemma ToCooRoundTrip(m: Grid, n: nat)
    requires IsSquare(m, n)
    ensures InBounds(ToCoo(m), n)
    ensures Densify(ToCoo(m), n) == m
  {
    var d := Densify(ToCoo(m), n);
    forall r, c | 0 <= r < n && 0 <= c < n
      ensures d[r][c] == m[r][c]
    {
      DensifyAt(ToCoo(m), n, r, c);
      EntriesFromValue(m, 0, r, c);
    }
    assert forall r :: 0 <= r < n ==> d[r] == m[r];
  }
}
