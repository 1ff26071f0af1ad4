/** Integer division facts shared by the adjacency and the reduction arithmetic. */
module Arith {
  /** A number in the `n`-th block of `k` consecutive numbers divides by `k` to `n`. */
  lemma DivInBlock(i: nat, n: nat, k: nat)
    requires k > 0 && n * k <= i < n * k + k
    ensures i / k == n
  {
    var q, r := i / k, i % k;
    assert i == q * k + r && 0 <= r < k;
    if q < n {
      MulLe(q + 1, n, k);
      assert false;
    } else if q > n {
      MulLe(n + 1, q, k);
      assert false;
    }
  }

  /** Multiplication by a natural number is monotone. */
  lemma {:induction false} MulLe(a: nat, b: nat, k: nat)
    requires a <= b
    ensures a * k <= b * k
  {
    if a < b {
      MulLe(a, b - 1, k);
      assert b * k == (b - 1) * k + k;
    }
  }

  /** One more block of `k`. */
  lemma MulSucc(m: nat, k: nat)
    ensures (m + 1) * k == m * k + k
  {
  }

  /** A multiple of `k` that is at least `c * k` is `m * k` for some `m >= c`. */
  lemma Quotient(h: nat, k: nat, c: nat) returns (m: nat)
    requires k > 0 && h % k == 0 && c * k <= h
    ensures h == m * k && m >= c
  {
    m := h / k;
    assert h == m * k + h % k;
    if m < c {
      MulLe(m + 1, c, k);
      MulSucc(m, k);
      assert false;
    }
  }

  /** The remainder of a number in the `n`-th block of `k` consecutive numbers is its offset in the block. */
  lemma ModInBlock(i: nat, n: nat, k: nat)
    requires k > 0 && n * k <= i < n * k + k
    ensures i % k == i - n * k
  {
    DivInBlock(i, n, k);
  }
}
