/**
  The cost model of the Quadratic Assignment Problem as the local search
  evaluates it: the full objective over a solution array, and the O(n)
  closed-form change of that objective when two positions are swapped.

  The flow matrix `F` is indexed by positions of the solution array and the
  distance matrix `D` by the values stored at those positions. Entries are
  unbounded integers.
 */
module CostModel {
  import opened Sums
  import opened Permutations

  type Matrix = seq<seq<int>>

  /** `M` has `n` rows of `n` entries each. */
  predicate IsSquare(M: Matrix, n: nat)
  {
    |M| == n && forall i :: 0 <= i < n ==> |M[i]| == n
  }

  predicate Symmetric(M: Matrix, n: nat)
    requires IsSquare(M, n)
  {
    forall i, j :: 0 <= i < n && 0 <= j < n ==> M[i][j] == M[j][i]
  }

  /** The constructor arguments `(n, D, F)` of the search object. */
  datatype Instance = Instance(n: nat, D: Matrix, F: Matrix)
  {
    predicate Valid()
    {
      IsSquare(D, n) && IsSquare(F, n)
    }
  }

  /** The contribution of the ordered pair of positions `(i, j)` to the objective. */
  function PairCost(inst: Instance, p: seq<nat>, i: nat, j: nat): int
    requires inst.Valid() && InRange(p, inst.n) && i < inst.n && j < inst.n
  {
    if i != j then inst.F[i][j] * inst.D[p[i]][p[j]] else 0
  }

  function RowTerms(inst: Instance, p: seq<nat>, i: nat): nat -> int
    requires inst.Valid() && InRange(p, inst.n) && i < inst.n
  {
    (j: nat) => if j < inst.n then PairCost(inst, p, i, j) else 0
  }

  /** The contribution of all pairs whose first position is `i`. */
  function RowCost(inst: Instance, p: seq<nat>, i: nat): int
    requires inst.Valid() && InRange(p, inst.n) && i < inst.n
  {
    Sum(inst.n, RowTerms(inst, p, i))
  }

  function CostTerms(inst: Instance, p: seq<nat>): nat -> int
    requires inst.Valid() && InRange(p, inst.n)
  {
    (i: nat) => if i < inst.n then RowCost(inst, p, i) else 0
  }

  /** The QAP objective: the sum over `i != j` of `F[i][j] * D[p[i]][p[j]]`. */
  function Cost(inst: Instance, p: seq<nat>): int
    requires inst.Valid() && InRange(p, inst.n)
  {
    Sum(inst.n, CostTerms(inst, p))
  }

  /** The term the swap-delta loop adds for a third position `k`. */
  function DeltaTerm(inst: Instance, p: seq<nat>, r: nat, s: nat, k: nat): int
    requires inst.Valid() && InRange(p, inst.n) && r < inst.n && s < inst.n && k < inst.n
  {
    var F := inst.F;
    var D := inst.D;
    (F[k][r] + F[r][k]) * (D[p[s]][p[k]] - D[p[r]][p[k]])
    + (F[k][s] + F[s][k]) * (D[p[r]][p[k]] - D[p[s]][p[k]])
  }

  function DeltaTerms(inst: Instance, p: seq<nat>, r: nat, s: nat): nat -> int
    requires inst.Valid() && InRange(p, inst.n) && r < inst.n && s < inst.n
  {
    (k: nat) => if k < inst.n && k != r && k != s then DeltaTerm(inst, p, r, s, k) else 0
  }

  /** The closed-form swap delta: the sum of `DeltaTerm` over all `k` other than `r` and `s`. */
  function Delta(inst: Instance, p: seq<nat>, r: nat, s: nat): int
    requires inst.Valid() && InRange(p, inst.n) && r < inst.n && s < inst.n
  {
    Sum(inst.n, DeltaTerms(inst, p, r, s))
  }

  /** The double loop of `cost_function`, accumulating into a single running sum. */
  method CostFunction(inst: Instance, p: seq<nat>) returns (total: int)
    requires inst.Valid() && InRange(p, inst.n)
    ensures total == Cost(inst, p)
  {
    var n := inst.n;
    total := 0;
    var i := 0;
    while i < n
      invariant 0 <= i <= n
      invariant total == Sum(i, CostTerms(inst, p))
    {
      var j := 0;
      while j < n
        invariant 0 <= j <= n
        invariant total == Sum(i, CostTerms(inst, p)) + Sum(j, RowTerms(inst, p, i))
      {
        if i != j {
          total := total + inst.F[i][j] * inst.D[p[i]][p[j]];
        }
        j := j + 1;
      }
      i := i + 1;
    }
  }

  /** The loop of `delta_function`, which reads the solution and leaves it alone. */
  method DeltaFunction(inst: Instance, p: seq<nat>, r: nat, s: nat) returns (delta: int)
    requires inst.Valid() && InRange(p, inst.n) && r < inst.n && s < inst.n
    ensures delta == Delta(inst, p, r, s)
  {
    var n := inst.n;
    var F := inst.F;
    var D := inst.D;
    delta := 0;
    var k := 0;
    while k < n
      invariant 0 <= k <= n
      invariant delta == Sum(k, DeltaTerms(inst, p, r, s))
    {
      if k != r && k != s {
        delta := delta + (F[k][r] + F[r][k]) * (D[p[s]][p[k]] - D[p[r]][p[k]])
                       + (F[k][s] + F[s][k]) * (D[p[r]][p[k]] - D[p[s]][p[k]]);
      }
      k := k + 1;
    }
  }

  function Abs(x: int): nat
  {
    if x < 0 then -x else x
  }

  /** The largest absolute value in `row`, 0 for an empty row. */
  function RowMaxAbs(row: seq<int>): (m: nat)
    ensures forall j :: 0 <= j < |row| ==> Abs(row[j]) <= m
  {
    if |row| == 0 then 0
    else
      var rest, last := RowMaxAbs(row[..|row| - 1]), Abs(row[|row| - 1]);
      if last <= rest then rest else last
  }

  /** The largest absolute entry of `M`, 0 when it has no entries. */
  function MaxAbs(M: Matrix): (m: nat)
    ensures forall i, j :: 0 <= i < |M| && 0 <= j < |M[i]| ==> Abs(M[i][j]) <= m
  {
    if |M| == 0 then 0
    else
      var rest, last := MaxAbs(M[..|M| - 1]), RowMaxAbs(M[|M| - 1]);
      if last <= rest then rest else last
  }

  lemma MulMonotone(u: nat, v: nat, a: nat, b: nat)
    requires u <= a && v <= b
    ensures u * v <= a * b
  {
    assert u * v <= a * v;
    assert a * v <= a * b;
  }

  lemma MulAtLeast(x: int, y: int, a: nat, b: nat)
    requires Abs(x) <= a && Abs(y) <= b
    ensures x * y >= -(a * b)
  {
    MulMonotone(Abs(x), Abs(y), a, b);
    if x < 0 && y >= 0 {
      assert x * y == -((-x) * y);
    } else if x >= 0 && y < 0 {
      assert x * y == -(x * (-y));
    } else if x < 0 && y < 0 {
      assert x * y == (-x) * (-y);
    }
  }

  /**
    A floor under every objective value of the instance: each of the `n * n`
    pairs contributes at least `-(max|F| * max|D|)`.
   */
  function CostFloor(inst: Instance): int
  {
    inst.n * (inst.n * PairFloor(inst))
  }

  /** The smallest contribution a single pair can make. */
  function PairFloor(inst: Instance): int
  {
    MaxAbs(inst.F) * MaxAbs(inst.D)
  }

  lemma PairAboveFloor(inst: Instance, p: seq<nat>, i: nat, j: nat)
    requires inst.Valid() && InRange(p, inst.n) && i < inst.n && j < inst.n
    ensures PairCost(inst, p, i, j) >= -PairFloor(inst)
  {
    if i != j {
      MulAtLeast(inst.F[i][j], inst.D[p[i]][p[j]], MaxAbs(inst.F), MaxAbs(inst.D));
    }
  }

  /** Each row of pairs contributes at least `n` times the smallest possible pair. */
  lemma RowAboveFloor(inst: Instance, p: seq<nat>, i: nat)
    requires inst.Valid() && InRange(p, inst.n) && i < inst.n
    ensures RowCost(inst, p, i) >= -(inst.n * PairFloor(inst))
  {
    forall j: nat | j < inst.n
      ensures RowTerms(inst, p, i)(j) >= -PairFloor(inst)
    {
      PairAboveFloor(inst, p, i, j);
    }
    SumAtLeast(inst.n, RowTerms(inst, p, i), PairFloor(inst));
  }

  /** No arrangement costs less than the floor, whatever the signs of the entries. */
  lemma CostAboveFloor(inst: Instance, p: seq<nat>)
    requires inst.Valid() && InRange(p, inst.n)
    ensures Cost(inst, p) >= -CostFloor(inst)
  {
    var c: int := inst.n * PairFloor(inst);
    forall i: nat | i < inst.n
      ensures CostTerms(inst, p)(i) >= -c
    {
      RowAboveFloor(inst, p, i);
    }
    SumAtLeast(inst.n, CostTerms(inst, p), c);
  }

  /** The swap delta does not depend on the order of the two positions. */
  lemma DeltaSymmetric(inst: Instance, p: seq<nat>, r: nat, s: nat)
    requires inst.Valid() && InRange(p, inst.n) && r < inst.n && s < inst.n
    ensures Delta(inst, p, r, s) == Delta(inst, p, s, r)
  {
    forall k: nat | k < inst.n
      ensures DeltaTerms(inst, p, r, s)(k) == DeltaTerms(inst, p, s, r)(k)
    {
    }
    SumExt(inst.n, DeltaTerms(inst, p, r, s), DeltaTerms(inst, p, s, r));
  }

  // ----- Proof that the closed-form delta is the change of the objective -----

  /** How much the pair `(i, j)` contributes more under `q` than under `p`. */
  function PairDiff(inst: Instance, p: seq<nat>, q: seq<nat>, i: nat, j: nat): int
    requires inst.Valid() && InRange(p, inst.n) && InRange(q, inst.n) && i < inst.n && j < inst.n
  {
    PairCost(inst, q, i, j) - PairCost(inst, p, i, j)
  }

  function PairDiffs(inst: Instance, p: seq<nat>, q: seq<nat>, i: nat): nat -> int
    requires inst.Valid() && InRange(p, inst.n) && InRange(q, inst.n) && i < inst.n
  {
    (j: nat) => if j < inst.n then PairDiff(inst, p, q, i, j) else 0
  }

  /** `PairDiffs` with the columns `r` and `s` left out. */
  function OffPairDiffs(inst: Instance, p: seq<nat>, q: seq<nat>, i: nat, r: nat, s: nat): nat -> int
    requires inst.Valid() && InRange(p, inst.n) && InRange(q, inst.n) && i < inst.n
  {
    (j: nat) => if j < inst.n && j != r && j != s then PairDiff(inst, p, q, i, j) else 0
  }

  function RowDiff(inst: Instance, p: seq<nat>, q: seq<nat>, i: nat): int
    requires inst.Valid() && InRange(p, inst.n) && InRange(q, inst.n) && i < inst.n
  {
    RowCost(inst, q, i) - RowCost(inst, p, i)
  }

  function RowDiffs(inst: Instance, p: seq<nat>, q: seq<nat>): nat -> int
    requires inst.Valid() && InRange(p, inst.n) && InRange(q, inst.n)
  {
    (i: nat) => if i < inst.n then RowDiff(inst, p, q, i) else 0
  }

  /** `RowDiffs` with the rows `r` and `s` left out. */
  function OffRowDiffs(inst: Instance, p: seq<nat>, q: seq<nat>, r: nat, s: nat): nat -> int
    requires inst.Valid() && InRange(p, inst.n) && InRange(q, inst.n)
  {
    (i: nat) => if i < inst.n && i != r && i != s then RowDiff(inst, p, q, i) else 0
  }

  lemma CostDiffByRows(inst: Instance, p: seq<nat>, q: seq<nat>)
    requires inst.Valid() && InRange(p, inst.n) && InRange(q, inst.n)
    ensures Cost(inst, q) - Cost(inst, p) == Sum(inst.n, RowDiffs(inst, p, q))
  {
    SumSub(inst.n, CostTerms(inst, q), CostTerms(inst, p), RowDiffs(inst, p, q));
  }

  lemma RowDiffByPairs(inst: Instance, p: seq<nat>, q: seq<nat>, i: nat)
    requires inst.Valid() && InRange(p, inst.n) && InRange(q, inst.n) && i < inst.n
    ensures RowDiff(inst, p, q, i) == Sum(inst.n, PairDiffs(inst, p, q, i))
  {
    SumSub(inst.n, RowTerms(inst, q, i), RowTerms(inst, p, i), PairDiffs(inst, p, q, i));
  }

  /** A row other than `r` and `s` only changes in the columns `r` and `s`. */
  lemma UntouchedRowDiff(inst: Instance, p: seq<nat>, r: nat, s: nat, i: nat)
    requires inst.Valid() && InRange(p, inst.n) && r < inst.n && s < inst.n && r != s
    requires i < inst.n && i != r && i != s
    ensures InRange(Swap(p, r, s), inst.n)
    ensures RowDiff(inst, p, Swap(p, r, s), i)
         == PairDiff(inst, p, Swap(p, r, s), i, r) + PairDiff(inst, p, Swap(p, r, s), i, s)
  {
    var q := Swap(p, r, s);
    RowDiffByPairs(inst, p, q, i);
    SumOfTwo(inst.n, PairDiffs(inst, p, q, i), r, s);
  }

  /** With `D` symmetric, a swapped row changes only outside the columns `r` and `s`. */
  lemma SwappedRowDiff(inst: Instance, p: seq<nat>, r: nat, s: nat, i: nat)
    requires inst.Valid() && InRange(p, inst.n) && r < inst.n && s < inst.n && r != s
    requires Symmetric(inst.D, inst.n)
    requires i == r || i == s
    ensures InRange(Swap(p, r, s), inst.n)
    ensures RowDiff(inst, p, Swap(p, r, s), i) == Sum(inst.n, OffPairDiffs(inst, p, Swap(p, r, s), i, r, s))
  {
    var q := Swap(p, r, s);
    RowDiffByPairs(inst, p, q, i);
    SumSplit2(inst.n, PairDiffs(inst, p, q, i), OffPairDiffs(inst, p, q, i, r, s), r, s);
    assert PairDiff(inst, p, q, r, s) == 0 by {
      assert inst.D[q[r]][q[s]] == inst.D[p[r]][p[s]];
    }
    assert PairDiff(inst, p, q, s, r) == 0 by {
      assert inst.D[q[s]][q[r]] == inst.D[p[s]][p[r]];
    }
  }

  /** For a third position `k`, the delta term gathers the four pair changes that involve `k`. */
  lemma DeltaTermGathers(inst: Instance, p: seq<nat>, r: nat, s: nat, k: nat)
    requires inst.Valid() && InRange(p, inst.n) && r < inst.n && s < inst.n && r != s
    requires Symmetric(inst.D, inst.n)
    requires k < inst.n && k != r && k != s
    ensures InRange(Swap(p, r, s), inst.n)
    ensures DeltaTerm(inst, p, r, s, k)
         == RowDiff(inst, p, Swap(p, r, s), k)
          + PairDiff(inst, p, Swap(p, r, s), r, k)
          + PairDiff(inst, p, Swap(p, r, s), s, k)
  {
    var q := Swap(p, r, s);
    UntouchedRowDiff(inst, p, r, s, k);
    var F, D := inst.F, inst.D;
    var dr, ds := D[p[r]][p[k]], D[p[s]][p[k]];
    assert D[p[k]][p[r]] == dr && D[p[k]][p[s]] == ds;
    assert PairDiff(inst, p, q, k, r) == F[k][r] * ds - F[k][r] * dr;
    assert PairDiff(inst, p, q, k, s) == F[k][s] * dr - F[k][s] * ds;
    assert PairDiff(inst, p, q, r, k) == F[r][k] * ds - F[r][k] * dr;
    assert PairDiff(inst, p, q, s, k) == F[s][k] * dr - F[s][k] * ds;
  }

  /**
    With a symmetric distance matrix the closed-form delta is exactly the
    objective after swapping positions `r` and `s` minus the objective before.
   */
  lemma DeltaCorrect(inst: Instance, p: seq<nat>, r: nat, s: nat)
    requires inst.Valid() && InRange(p, inst.n) && r < inst.n && s < inst.n
    requires Symmetric(inst.D, inst.n)
    ensures InRange(Swap(p, r, s), inst.n)
    ensures Delta(inst, p, r, s) == Cost(inst, Swap(p, r, s)) - Cost(inst, p)
  {
    var n := inst.n;
    var q := Swap(p, r, s);
    if r == s {
      assert q == p;
      SumZero(n, DeltaTerms(inst, p, r, s));
    } else {
      var terms := DeltaTerms(inst, p, r, s);
      var offRows := OffRowDiffs(inst, p, q, r, s);
      var offR := OffPairDiffs(inst, p, q, r, r, s);
      var offS := OffPairDiffs(inst, p, q, s, r, s);
      var mixed: nat -> int := (k: nat) => offRows(k) + offR(k);
      forall k: nat | k < n
        ensures terms(k) == mixed(k) + offS(k)
      {
        if k != r && k != s {
          DeltaTermGathers(inst, p, r, s, k);
        }
      }
      SumAdd(n, mixed, offS, terms);
      SumAdd(n, offRows, offR, mixed);
      SwappedRowDiff(inst, p, r, s, r);
      SwappedRowDiff(inst, p, r, s, s);
      SumSplit2(n, RowDiffs(inst, p, q), offRows, r, s);
      CostDiffByRows(inst, p, q);
    }
  }
}
