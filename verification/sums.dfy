/**
  Finite sums `f(0) + ... + f(n-1)` over integer-valued functions, with the
  handful of rearrangement facts the cost model needs: extensionality,
  pointwise addition and subtraction, and pulling single terms out of a sum.
 */
module Sums {

  /** The sum of `f(i)` for `0 <= i < n`, accumulated from the left as the source's loops do. */
  function Sum(n: nat, f: nat -> int): int
  {
    if n == 0 then 0 else Sum(n - 1, f) + f(n - 1)
  }

  /** Sums only depend on the values of `f` below the bound. */
  lemma {:induction false} SumExt(n: nat, f: nat -> int, g: nat -> int)
    requires forall i: nat :: i < n ==> f(i) == g(i)
    ensures Sum(n, f) == Sum(n, g)
  {
    if n > 0 {
      SumExt(n - 1, f, g);
    }
  }

  lemma {:induction false} SumZero(n: nat, f: nat -> int)
    requires forall i: nat :: i < n ==> f(i) == 0
    ensures Sum(n, f) == 0
  {
    if n > 0 {
      SumZero(n - 1, f);
    }
  }

  /** `n` terms that are each at least `-c` sum to at least `-(n * c)`. */
  lemma {:induction false} SumAtLeast(n: nat, f: nat -> int, c: int)
    requires forall i: nat :: i < n ==> f(i) >= -c
    ensures Sum(n, f) >= -(n * c)
  {
    if n > 0 {
      SumAtLeast(n - 1, f, c);
      assert (n - 1) * c + c == n * c;
    }
  }

  /** A pointwise sum of functions sums to the sum of the sums. */
  lemma {:induction false} SumAdd(n: nat, f: nat -> int, g: nat -> int, h: nat -> int)
    requires forall i: nat :: i < n ==> h(i) == f(i) + g(i)
    ensures Sum(n, h) == Sum(n, f) + Sum(n, g)
  {
    if n > 0 {
      SumAdd(n - 1, f, g, h);
    }
  }

  /** A pointwise difference of functions sums to the difference of the sums. */
  lemma {:induction false} SumSub(n: nat, f: nat -> int, g: nat -> int, h: nat -> int)
    requires forall i: nat :: i < n ==> h(i) == f(i) - g(i)
    ensures Sum(n, h) == Sum(n, f) - Sum(n, g)
  {
    if n > 0 {
      SumSub(n - 1, f, g, h);
    }
  }

  /** Pulling the term at index `k` out of a sum: `g` is `f` with that term zeroed. */
  lemma {:induction false} SumSplit1(n: nat, f: nat -> int, g: nat -> int, k: nat)
    requires k < n
    requires forall i: nat :: i < n ==> g(i) == (if i == k then 0 else f(i))
    ensures Sum(n, f) == f(k) + Sum(n, g)
  {
    if k == n - 1 {
      SumExt(n - 1, f, g);
    } else {
      SumSplit1(n - 1, f, g, k);
    }
  }

  /** Pulling the two distinct terms at `r` and `s` out of a sum. */
  lemma SumSplit2(n: nat, f: nat -> int, g: nat -> int, r: nat, s: nat)
    requires r < n && s < n && r != s
    requires forall i: nat :: i < n ==> g(i) == (if i == r || i == s then 0 else f(i))
    ensures Sum(n, f) == f(r) + f(s) + Sum(n, g)
  {
    var g1: nat -> int := (i: nat) => if i == r then 0 else f(i);
    SumSplit1(n, f, g1, r);
    SumSplit1(n, g1, g, s);
  }

  /** A sum whose only non-zero terms sit at `r` and `s`. */
  lemma SumOfTwo(n: nat, f: nat -> int, r: nat, s: nat)
    requires r < n && s < n && r != s
    requires forall i: nat :: i < n && i != r && i != s ==> f(i) == 0
    ensures Sum(n, f) == f(r) + f(s)
  {
    var g: nat -> int := (i: nat) => if i == r || i == s then 0 else f(i);
    SumSplit2(n, f, g, r, s);
    SumZero(n, g);
  }
}
