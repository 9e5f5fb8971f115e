/**
  Solution arrays of the local search: `solution[i]` is the value assigned to
  position `i`. The search only ever rearranges such an array (a swap of two
  positions or the reversal of a segment) and finally inverts it with
  `argsort`.
 */
module Permutations {

  /** Every entry is a valid index into an `n`-by-`n` matrix. */
  predicate InRange(p: seq<nat>, n: nat)
  {
    |p| == n && forall i :: 0 <= i < n ==> p[i] < n
  }

  /** `p` is a bijection of `{0, ..., n-1}` onto itself: in range, injective and onto. */
  predicate IsPermutation(p: seq<nat>, n: nat)
  {
    && InRange(p, n)
    && (forall i, j :: 0 <= i < j < n ==> p[i] != p[j])
    && (forall v: nat :: v < n ==> v in p)
  }

  /** The identity arrangement `np.arange(n)`. */
  function Identity(n: nat): (p: seq<nat>)
    ensures IsPermutation(p, n)
    ensures forall i :: 0 <= i < n ==> p[i] == i
  {
    var p := seq(n, (i: int) requires 0 <= i < n => i as nat);
    assert forall v: nat :: v < n ==> v in p by {
      forall v: nat | v < n
        ensures v in p
      {
        assert p[v] == v;
      }
    }
    p
  }

  /** The fancy-index assignment `solution[[r, s]] = solution[[s, r]]`: the right-hand side is read first. */
  function Swap(p: seq<nat>, r: nat, s: nat): (q: seq<nat>)
    requires r < |p| && s < |p|
    ensures |q| == |p| && q[r] == p[s] && q[s] == p[r]
    ensures forall i :: 0 <= i < |p| && i != r && i != s ==> q[i] == p[i]
    ensures InRange(p, |p|) ==> InRange(q, |p|)
  {
    p[r := p[s]][s := p[r]]
  }

  /** Swapping a position with itself changes nothing (the sentinel move of the stochastic variant). */
  lemma SwapSelf(p: seq<nat>, r: nat)
    requires r < |p|
    ensures Swap(p, r, r) == p
  {
  }

  lemma SwapPreservesPermutation(p: seq<nat>, n: nat, r: nat, s: nat)
    requires IsPermutation(p, n) && r < n && s < n
    ensures IsPermutation(Swap(p, r, s), n)
  {
    var q := Swap(p, r, s);
    forall v: nat | v < n
      ensures v in q
    {
      var k := IndexOf(p, v);
      if k == r {
        assert q[s] == v;
      } else if k == s {
        assert q[r] == v;
      } else {
        assert q[k] == v;
      }
    }
  }

  /** The elements of `s` in the opposite order. */
  function Reverse(s: seq<nat>): (t: seq<nat>)
    ensures |t| == |s|
    ensures forall i :: 0 <= i < |s| ==> t[i] == s[|s| - 1 - i]
  {
    if |s| == 0 then [] else Reverse(s[1..]) + [s[0]]
  }

  /** Replaces the inclusive segment `[a, b]` by its reverse (`solution[swap_part] = solution[np.flip(swap_part)]`). */
  function ReverseSegment(p: seq<nat>, a: nat, b: nat): (q: seq<nat>)
    requires a <= b < |p|
    ensures |q| == |p|
    ensures forall i :: 0 <= i < |p| && (i < a || b < i) ==> q[i] == p[i]
    ensures forall i :: a <= i <= b ==> q[i] == p[a + b - i]
  {
    p[..a] + Reverse(p[a..b + 1]) + p[b + 1..]
  }

  /** The position whose old entry lands at `i` when `[a, b]` is reversed. */
  function Mirror(a: nat, b: nat, i: nat): nat
  {
    if a <= i <= b then a + b - i else i
  }

  /** Reversing `[a, b]` reads every position from its mirror image. */
  lemma ReverseSegmentByMirror(p: seq<nat>, a: nat, b: nat)
    requires a <= b < |p|
    ensures forall i :: 0 <= i < |p| ==> Mirror(a, b, i) < |p| && ReverseSegment(p, a, b)[i] == p[Mirror(a, b, i)]
  {
  }

  lemma ReverseSegmentPreservesPermutation(p: seq<nat>, n: nat, a: nat, b: nat)
    requires IsPermutation(p, n) && a <= b < n
    ensures IsPermutation(ReverseSegment(p, a, b), n)
  {
    var q := ReverseSegment(p, a, b);
    ReverseSegmentByMirror(p, a, b);
    forall i, j | 0 <= i < j < n
      ensures q[i] != q[j]
    {
      var i', j' := Mirror(a, b, i), Mirror(a, b, j);
      assert i' != j';
      assert q[i] == p[i'] && q[j] == p[j'];
    }
    forall v: nat | v < n
      ensures v in q
    {
      var k := IndexOf(p, v);
      var k' := Mirror(a, b, k);
      assert Mirror(a, b, k') == k;
      assert q[k'] == v;
    }
  }

  /** The first position of `v` in `p`. */
  function IndexOf(p: seq<nat>, v: nat): (i: nat)
    requires v in p
    ensures i < |p| && p[i] == v
    ensures forall j :: 0 <= j < i ==> p[j] != v
  {
    if p[0] == v then 0 else 1 + IndexOf(p[1..], v)
  }

  /**
    `np.argsort(p)`: the positions of `p` listed in increasing order of their
    values. For a permutation this is its inverse.
   */
  function Argsort(p: seq<nat>): (q: seq<nat>)
    requires IsPermutation(p, |p|)
    ensures IsPermutation(q, |p|)
    ensures forall k :: 0 <= k < |p| ==> p[q[k]] == k
    ensures forall i :: 0 <= i < |p| ==> q[p[i]] == i
  {
    var n := |p|;
    var q := seq(n, (v: int) requires 0 <= v < n => IndexOf(p, v));
    assert forall i :: 0 <= i < n ==> q[p[i]] == i by {
      forall i | 0 <= i < n
        ensures q[p[i]] == i
      {
        var j := q[p[i]];
        assert p[j] == p[i];
      }
    }
    assert forall v: nat :: v < n ==> v in q by {
      forall v: nat | v < n
        ensures v in q
      {
        assert q[p[v]] == v;
      }
    }
    q
  }

  /** Inverting twice gives back the original arrangement. */
  lemma ArgsortRoundTrip(p: seq<nat>)
    requires IsPermutation(p, |p|)
    ensures Argsort(Argsort(p)) == p
  {
    var q := Argsort(p);
    var qq := Argsort(q);
    forall v | 0 <= v < |p|
      ensures qq[v] == p[v]
    {
      assert q[p[v]] == v;
      assert qq[q[p[v]]] == p[v];
    }
  }
}
