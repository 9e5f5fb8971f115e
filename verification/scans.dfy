/**
  The two pairwise-swap neighbourhood scans, `first_improvement` and
  `best_improvement`. Both walk rows `r` (outer) and partners `s` (inner) in
  increasing order, never use the excluded row as `r`, and keep one
  don't-look bit per position that is cleared at every call and set for a
  row once it has been scanned without finding an improving partner.

  Without don't-look bits the source never binds the bit array, yet it still
  writes to it after a row without improvement; that path is the fault
  `UnboundBits` here.
 */
module Scans {
  import opened Permutations
  import opened CostModel

  datatype Option<T> = None | Some(value: T)

  /** A proposed swap of positions `r` and `s` and its cost change. */
  datatype Move = Move(delta: int, r: nat, s: nat)

  /** Why a strategy call raises instead of returning. */
  datatype Fault =
    | UnboundBits      // the don't-look-bit array is written without having been created
    | EmptyRandomRange // `randint` is asked for a number from an empty range

  /** What a strategy call reports to the search loop: a move, "no move" (`None`), or a raised error. */
  datatype Outcome = Improve(move: Move) | NoMove | Failed(fault: Fault)

  /** All bits cleared, `np.zeros(n)`. */
  function Zeros(n: nat): (bits: seq<bool>)
    ensures |bits| == n && forall x :: 0 <= x < n ==> !bits[x]
  {
    seq(n, _ => false)
  }

  /**
    Whether the bit of partner `s` is set while row `r` is scanned: every
    earlier row except the excluded one has been exhausted by then.
   */
  predicate Skipped(dlb: bool, excluded: int, r: nat, s: nat)
  {
    dlb && s < r && s != excluded
  }

  /** `(r, s)` is an improving pair the scan is allowed to look at. */
  predicate Candidate(inst: Instance, p: seq<nat>, excluded: int, dlb: bool, r: nat, s: nat)
    requires inst.Valid() && InRange(p, inst.n)
  {
    && r < inst.n && s < inst.n
    && r != s && r != excluded
    && !Skipped(dlb, excluded, r, s)
    && Delta(inst, p, r, s) < 0
  }

  /** The only row a scan without don't-look bits can get past: the first one that is not excluded. */
  function LeadRow(r: nat, excluded: int): nat
  {
    if r == excluded then r + 1 else r
  }

  /** The bit array as it stands when row `r` is reached. */
  predicate BitsAt(bits: seq<bool>, n: nat, excluded: int, r: nat)
  {
    |bits| == n && forall x :: 0 <= x < n ==> (bits[x] <==> x < r && x != excluded)
  }

  /** The partner test of both scans at `(r, s)`, in the source's terms. */
  predicate Tried(inst: Instance, p: seq<nat>, dlb: bool, bits: seq<bool>, r: nat, s: nat)
    requires inst.Valid() && InRange(p, inst.n) && |bits| == inst.n && r < inst.n && s < inst.n
  {
    r != s && !(dlb && bits[s]) && Delta(inst, p, r, s) < 0
  }

  lemma TriedIsCandidate(inst: Instance, p: seq<nat>, excluded: int, dlb: bool, bits: seq<bool>, r: nat)
    requires inst.Valid() && InRange(p, inst.n) && r < inst.n && r != excluded
    requires |bits| == inst.n && (dlb ==> BitsAt(bits, inst.n, excluded, r))
    ensures forall s: nat :: s < inst.n ==> (Tried(inst, p, dlb, bits, r, s) <==> Candidate(inst, p, excluded, dlb, r, s))
  {
  }

  /** Setting the bit of an exhausted row gives the bit array as it stands at the next row. */
  lemma BitsAdvance(bits: seq<bool>, n: nat, excluded: int, r: nat)
    requires BitsAt(bits, n, excluded, r) && r < n && r != excluded
    ensures BitsAt(bits[r := true], n, excluded, r + 1)
  {
  }

  // ----- first_improvement -----

  /** The inner loop of `first_improvement` from partner `s` on: the first partner that passes. */
  function FirstInRow(inst: Instance, p: seq<nat>, dlb: bool, bits: seq<bool>, r: nat, s: nat): (res: Option<nat>)
    requires inst.Valid() && InRange(p, inst.n) && |bits| == inst.n && r < inst.n && s <= inst.n
    ensures res.Some? ==> s <= res.value < inst.n && Tried(inst, p, dlb, bits, r, res.value)
    ensures res.Some? ==> forall t: nat :: s <= t < res.value ==> !Tried(inst, p, dlb, bits, r, t)
    ensures res.None? ==> forall t: nat :: s <= t < inst.n ==> !Tried(inst, p, dlb, bits, r, t)
    decreases inst.n - s
  {
    if s == inst.n then None
    else if r != s && !(dlb && bits[s]) && Delta(inst, p, r, s) < 0 then Some(s)
    else FirstInRow(inst, p, dlb, bits, r, s + 1)
  }

  /** The partner `FirstInRow` picks is a candidate and no earlier partner of its row is. */
  lemma FirstOfRowIsFirst(inst: Instance, p: seq<nat>, excluded: int, dlb: bool, bits: seq<bool>, r: nat, s: nat)
    requires inst.Valid() && InRange(p, inst.n) && r < inst.n && r != excluded
    requires |bits| == inst.n && (dlb ==> BitsAt(bits, inst.n, excluded, r))
    requires FirstInRow(inst, p, dlb, bits, r, 0) == Some(s)
    ensures Candidate(inst, p, excluded, dlb, r, s)
    ensures forall s': nat :: s' < s ==> !Candidate(inst, p, excluded, dlb, r, s')
  {
    TriedIsCandidate(inst, p, excluded, dlb, bits, r);
  }

  /** A row in which the inner loop finds nothing has no candidate partner. */
  lemma FirstRowEmpty(inst: Instance, p: seq<nat>, excluded: int, dlb: bool, bits: seq<bool>, r: nat)
    requires inst.Valid() && InRange(p, inst.n) && r < inst.n && r != excluded
    requires |bits| == inst.n && (dlb ==> BitsAt(bits, inst.n, excluded, r))
    requires FirstInRow(inst, p, dlb, bits, r, 0).None?
    ensures forall s': nat :: !Candidate(inst, p, excluded, dlb, r, s')
  {
    TriedIsCandidate(inst, p, excluded, dlb, bits, r);
  }

  /** The outer loop of `first_improvement` from row `r` on. */
  function FirstRows(inst: Instance, p: seq<nat>, excluded: int, dlb: bool, bitsBound: bool, r: nat, bits: seq<bool>): (res: Outcome)
    requires inst.Valid() && InRange(p, inst.n) && r <= inst.n
    requires |bits| == inst.n && (dlb ==> BitsAt(bits, inst.n, excluded, r))
    ensures res.Improve? ==>
      && var m := res.move;
      && r <= m.r
      && Candidate(inst, p, excluded, dlb, m.r, m.s)
      && m.delta == Delta(inst, p, m.r, m.s)
      && (forall r': nat, s': nat :: r <= r' < m.r ==> !Candidate(inst, p, excluded, dlb, r', s'))
      && (forall s': nat :: s' < m.s ==> !Candidate(inst, p, excluded, dlb, m.r, s'))
    decreases inst.n - r
  {
    if r == inst.n then NoMove
    else if r == excluded then FirstRows(inst, p, excluded, dlb, bitsBound, r + 1, bits)
    else
      match FirstInRow(inst, p, dlb, bits, r, 0)
      case Some(s) =>
        FirstOfRowIsFirst(inst, p, excluded, dlb, bits, r, s);
        Improve(Move(Delta(inst, p, r, s), r, s))
      case None =>
        if bitsBound then
          TriedIsCandidate(inst, p, excluded, dlb, bits, r);
          if dlb then BitsAdvance(bits, inst.n, excluded, r); FirstRows(inst, p, excluded, dlb, bitsBound, r + 1, bits[r := true])
          else FirstRows(inst, p, excluded, dlb, bitsBound, r + 1, bits[r := true])
        else Failed(UnboundBits)
  }

  /**
    With don't-look bits and the bit array created, `FirstRows` never faults
    and finds nothing exactly when no later row has a candidate.
   */
  lemma {:induction false} FirstRowsExhausted(inst: Instance, p: seq<nat>, excluded: int, dlb: bool, r: nat, bits: seq<bool>)
    requires inst.Valid() && InRange(p, inst.n) && r <= inst.n
    requires dlb && BitsAt(bits, inst.n, excluded, r)
    ensures !FirstRows(inst, p, excluded, dlb, true, r, bits).Failed?
    ensures FirstRows(inst, p, excluded, dlb, true, r, bits).NoMove?
        <==> forall r': nat, s': nat :: r <= r' ==> !Candidate(inst, p, excluded, dlb, r', s')
    decreases inst.n - r
  {
    var res := FirstRows(inst, p, excluded, dlb, true, r, bits);
    if r < inst.n {
      if r == excluded {
        assert res == FirstRows(inst, p, excluded, dlb, true, r + 1, bits);
        FirstRowsExhausted(inst, p, excluded, dlb, r + 1, bits);
        NoCandidateFromRow(inst, p, excluded, dlb, r);
      } else if FirstInRow(inst, p, dlb, bits, r, 0).None? {
        assert res == FirstRows(inst, p, excluded, dlb, true, r + 1, bits[r := true]);
        FirstRowEmpty(inst, p, excluded, dlb, bits, r);
        FirstRowsExhausted(inst, p, excluded, dlb, r + 1, bits[r := true]);
        NoCandidateFromRow(inst, p, excluded, dlb, r);
      } else {
        assert res.Improve? && Candidate(inst, p, excluded, dlb, res.move.r, res.move.s);
      }
    }
  }

  /**
    Without don't-look bits but with the bit array created, `FirstRows` never
    faults and finds nothing exactly when no later row has a candidate.
   */
  lemma {:induction false} FirstRowsScanAll(inst: Instance, p: seq<nat>, excluded: int, r: nat, bits: seq<bool>)
    requires inst.Valid() && InRange(p, inst.n) && r <= inst.n && |bits| == inst.n
    ensures !FirstRows(inst, p, excluded, false, true, r, bits).Failed?
    ensures FirstRows(inst, p, excluded, false, true, r, bits).NoMove?
        <==> forall r': nat, s': nat :: r <= r' ==> !Candidate(inst, p, excluded, false, r', s')
    decreases inst.n - r
  {
    var res := FirstRows(inst, p, excluded, false, true, r, bits);
    if r < inst.n {
      if r == excluded {
        assert res == FirstRows(inst, p, excluded, false, true, r + 1, bits);
        FirstRowsScanAll(inst, p, excluded, r + 1, bits);
        NoCandidateFromRow(inst, p, excluded, false, r);
      } else if FirstInRow(inst, p, false, bits, r, 0).None? {
        assert res == FirstRows(inst, p, excluded, false, true, r + 1, bits[r := true]);
        FirstRowEmpty(inst, p, excluded, false, bits, r);
        FirstRowsScanAll(inst, p, excluded, r + 1, bits[r := true]);
        NoCandidateFromRow(inst, p, excluded, false, r);
      } else {
        assert res.Improve? && Candidate(inst, p, excluded, false, res.move.r, res.move.s);
      }
    }
  }

  /**
    When the bit array was never created, `FirstRows` decides on the first row that is not
    excluded: a move from that row, or the unbound-bits fault; "no move"
    only when there is no such row.
   */
  lemma {:induction false} FirstRowsWithoutBits(inst: Instance, p: seq<nat>, excluded: int, r: nat, bits: seq<bool>)
    requires inst.Valid() && InRange(p, inst.n) && r <= inst.n && |bits| == inst.n
    ensures var res := FirstRows(inst, p, excluded, false, false, r, bits);
      && (res.Improve? ==> res.move.r == LeadRow(r, excluded))
      && (res.NoMove? <==> LeadRow(r, excluded) >= inst.n)
      && (res.Failed? <==>
            && LeadRow(r, excluded) < inst.n
            && forall s': nat :: !Candidate(inst, p, excluded, false, LeadRow(r, excluded), s'))
      && (res.Failed? ==> res.fault == UnboundBits)
    decreases inst.n - r
  {
    if r < inst.n {
      if r == excluded {
        FirstRowsWithoutBits(inst, p, excluded, r + 1, bits);
      } else {
        TriedIsCandidate(inst, p, excluded, false, bits, r);
      }
    }
  }

  /**
    `first_improvement(except_fac, dlb)`: the first candidate pair in row-major
    order, "no move" when there is none, or the unbound-bits fault without
    don't-look bits once the first scanned row yields nothing.
   */
  function FirstImprovement(inst: Instance, p: seq<nat>, excluded: int, dlb: bool): (res: Outcome)
    requires inst.Valid() && InRange(p, inst.n)
    ensures res.Improve? ==>
      && var m := res.move;
      && Candidate(inst, p, excluded, dlb, m.r, m.s)
      && m.delta == Delta(inst, p, m.r, m.s) && m.delta < 0
      && (forall r': nat, s': nat :: r' < m.r ==> !Candidate(inst, p, excluded, dlb, r', s'))
      && (forall s': nat :: s' < m.s ==> !Candidate(inst, p, excluded, dlb, m.r, s'))
    ensures res.NoMove? <==>
      if dlb then forall r': nat, s': nat :: !Candidate(inst, p, excluded, dlb, r', s')
      else LeadRow(0, excluded) >= inst.n
    ensures res.Failed? <==>
      && !dlb
      && LeadRow(0, excluded) < inst.n
      && forall s': nat :: !Candidate(inst, p, excluded, dlb, LeadRow(0, excluded), s')
    ensures res.Failed? ==> res.fault == UnboundBits
  {
    if dlb then
      FirstRowsExhausted(inst, p, excluded, dlb, 0, Zeros(inst.n));
      FirstRows(inst, p, excluded, dlb, dlb, 0, Zeros(inst.n))
    else
      FirstRowsWithoutBits(inst, p, excluded, 0, Zeros(inst.n));
      FirstRows(inst, p, excluded, dlb, dlb, 0, Zeros(inst.n))
  }

  /**
    `first_improvement` with the bit array always created (it is read only
    when `dlb` is set): a row without improvement passes on to the next row,
    so the scan never faults and reports "no move" only when no candidate
    pair exists at all.
   */
  function FirstImprovementBound(inst: Instance, p: seq<nat>, excluded: int, dlb: bool): (res: Outcome)
    requires inst.Valid() && InRange(p, inst.n)
    ensures !res.Failed?
    ensures res.Improve? ==>
      && var m := res.move;
      && Candidate(inst, p, excluded, dlb, m.r, m.s)
      && m.delta == Delta(inst, p, m.r, m.s) && m.delta < 0
      && (forall r': nat, s': nat :: r' < m.r ==> !Candidate(inst, p, excluded, dlb, r', s'))
      && (forall s': nat :: s' < m.s ==> !Candidate(inst, p, excluded, dlb, m.r, s'))
    ensures res.NoMove? <==> forall r': nat, s': nat :: !Candidate(inst, p, excluded, dlb, r', s')
  {
    if dlb then
      FirstRowsExhausted(inst, p, excluded, dlb, 0, Zeros(inst.n));
      FirstRows(inst, p, excluded, dlb, true, 0, Zeros(inst.n))
    else
      FirstRowsScanAll(inst, p, excluded, 0, Zeros(inst.n));
      FirstRows(inst, p, excluded, dlb, true, 0, Zeros(inst.n))
  }

  // ----- best_improvement -----

  /** `m` is the most improving passing partner of row `r` below `hi`, the earliest one on ties. */
  predicate BestSoFar(inst: Instance, p: seq<nat>, dlb: bool, bits: seq<bool>, r: nat, hi: nat, m: Move)
    requires inst.Valid() && InRange(p, inst.n) && |bits| == inst.n && r < inst.n && hi <= inst.n
  {
    && m.r == r && m.s < hi && Tried(inst, p, dlb, bits, r, m.s)
    && m.delta == Delta(inst, p, r, m.s)
    && (forall t: nat :: t < hi && Tried(inst, p, dlb, bits, r, t) ==> m.delta <= Delta(inst, p, r, t))
    && (forall t: nat :: t < m.s && Tried(inst, p, dlb, bits, r, t) ==> m.delta < Delta(inst, p, r, t))
  }

  /** No partner of row `r` below `hi` passes. */
  predicate NoneSoFar(inst: Instance, p: seq<nat>, dlb: bool, bits: seq<bool>, r: nat, hi: nat)
    requires inst.Valid() && InRange(p, inst.n) && |bits| == inst.n && r < inst.n && hi <= inst.n
  {
    forall t: nat :: t < hi ==> !Tried(inst, p, dlb, bits, r, t)
  }

  /**
    The inner loop of `best_improvement` from partner `s` on. `minDelta` and
    `minResult` are the source's running minimum, which starts at 0 and only
    moves together with the recorded move.
   */
  function BestInRow(
    inst: Instance, p: seq<nat>, dlb: bool, bits: seq<bool>, r: nat, s: nat,
    minDelta: int, minResult: Option<Move>): (res: Option<Move>)
    requires inst.Valid() && InRange(p, inst.n) && |bits| == inst.n && r < inst.n && s <= inst.n
    requires minResult.None? ==> minDelta == 0 && NoneSoFar(inst, p, dlb, bits, r, s)
    requires minResult.Some? ==> minDelta == minResult.value.delta && BestSoFar(inst, p, dlb, bits, r, s, minResult.value)
    ensures res.Some? ==> BestSoFar(inst, p, dlb, bits, r, inst.n, res.value)
    ensures res.None? ==> NoneSoFar(inst, p, dlb, bits, r, inst.n)
    decreases inst.n - s
  {
    if s == inst.n then minResult
    else if r != s && !(dlb && bits[s]) && Delta(inst, p, r, s) < minDelta then
      var delta := Delta(inst, p, r, s);
      BestInRow(inst, p, dlb, bits, r, s + 1, delta, Some(Move(delta, r, s)))
    else
      BestInRow(inst, p, dlb, bits, r, s + 1, minDelta, minResult)
  }

  /** The move `BestInRow` picks is a candidate, the most improving one of its row and the earliest on ties. */
  lemma BestOfRowIsBest(inst: Instance, p: seq<nat>, excluded: int, dlb: bool, bits: seq<bool>, r: nat, m: Move)
    requires inst.Valid() && InRange(p, inst.n) && r < inst.n && r != excluded
    requires |bits| == inst.n && (dlb ==> BitsAt(bits, inst.n, excluded, r))
    requires BestSoFar(inst, p, dlb, bits, r, inst.n, m)
    ensures Candidate(inst, p, excluded, dlb, m.r, m.s)
    ensures forall s': nat :: Candidate(inst, p, excluded, dlb, m.r, s') ==> m.delta <= Delta(inst, p, m.r, s')
    ensures forall s': nat :: s' < m.s && Candidate(inst, p, excluded, dlb, m.r, s') ==> m.delta < Delta(inst, p, m.r, s')
  {
    TriedIsCandidate(inst, p, excluded, dlb, bits, r);
  }

  /** A row in which the inner loop finds nothing has no candidate partner. */
  lemma BestRowEmpty(inst: Instance, p: seq<nat>, excluded: int, dlb: bool, bits: seq<bool>, r: nat)
    requires inst.Valid() && InRange(p, inst.n) && r < inst.n && r != excluded
    requires |bits| == inst.n && (dlb ==> BitsAt(bits, inst.n, excluded, r))
    requires BestInRow(inst, p, dlb, bits, r, 0, 0, None).None?
    ensures forall s': nat :: !Candidate(inst, p, excluded, dlb, r, s')
  {
    TriedIsCandidate(inst, p, excluded, dlb, bits, r);
  }

  /** A move found from row `r + 1` on, past a row without candidates, has no candidate in any row before it from `r` on. */
  lemma RowWithoutCandidate(inst: Instance, p: seq<nat>, excluded: int, dlb: bool, r: nat, res: Outcome)
    requires inst.Valid() && InRange(p, inst.n)
    requires forall s': nat :: !Candidate(inst, p, excluded, dlb, r, s')
    requires res.Improve? ==>
      && r + 1 <= res.move.r
      && forall r': nat, s': nat :: r + 1 <= r' < res.move.r ==> !Candidate(inst, p, excluded, dlb, r', s')
    ensures res.Improve? ==>
      && r <= res.move.r
      && forall r': nat, s': nat :: r <= r' < res.move.r ==> !Candidate(inst, p, excluded, dlb, r', s')
  {
  }

  /**
    The outer loop of `best_improvement` from row `r` on. A row that is
    reached never inherits a recorded move, so the running minimum is
    `(0, None)` at the start of every row.
   */
  function BestRows(inst: Instance, p: seq<nat>, excluded: int, dlb: bool, bitsBound: bool, r: nat, bits: seq<bool>): (res: Outcome)
    requires inst.Valid() && InRange(p, inst.n) && r <= inst.n
    requires |bits| == inst.n && (dlb ==> BitsAt(bits, inst.n, excluded, r))
    ensures res.Improve? ==>
      && var m := res.move;
      && r <= m.r
      && Candidate(inst, p, excluded, dlb, m.r, m.s)
      && m.delta == Delta(inst, p, m.r, m.s)
      && (forall r': nat, s': nat :: r <= r' < m.r ==> !Candidate(inst, p, excluded, dlb, r', s'))
      && (forall s': nat :: Candidate(inst, p, excluded, dlb, m.r, s') ==> m.delta <= Delta(inst, p, m.r, s'))
      && (forall s': nat :: s' < m.s && Candidate(inst, p, excluded, dlb, m.r, s') ==> m.delta < Delta(inst, p, m.r, s'))
    decreases inst.n - r
  {
    if r == inst.n then NoMove
    else if r == excluded then
      var rest := BestRows(inst, p, excluded, dlb, bitsBound, r + 1, bits);
      RowWithoutCandidate(inst, p, excluded, dlb, r, rest);
      rest
    else
      match BestInRow(inst, p, dlb, bits, r, 0, 0, None)
      case Some(m) =>
        BestOfRowIsBest(inst, p, excluded, dlb, bits, r, m);
        Improve(m)
      case None =>
        if bitsBound then
          BestRowEmpty(inst, p, excluded, dlb, bits, r);
          if dlb then
            BitsAdvance(bits, inst.n, excluded, r);
            var rest := BestRows(inst, p, excluded, dlb, bitsBound, r + 1, bits[r := true]);
            RowWithoutCandidate(inst, p, excluded, dlb, r, rest);
            rest
          else
            var rest := BestRows(inst, p, excluded, dlb, bitsBound, r + 1, bits[r := true]);
            RowWithoutCandidate(inst, p, excluded, dlb, r, rest);
            rest
        else Failed(UnboundBits)
  }

  /**
    With don't-look bits and the bit array created, `BestRows` never faults
    and finds nothing exactly when no later row has a candidate.
   */
  lemma {:induction false} BestRowsExhausted(inst: Instance, p: seq<nat>, excluded: int, dlb: bool, r: nat, bits: seq<bool>)
    requires inst.Valid() && InRange(p, inst.n) && r <= inst.n
    requires dlb && BitsAt(bits, inst.n, excluded, r)
    ensures !BestRows(inst, p, excluded, dlb, true, r, bits).Failed?
    ensures BestRows(inst, p, excluded, dlb, true, r, bits).NoMove?
        <==> forall r': nat, s': nat :: r <= r' ==> !Candidate(inst, p, excluded, dlb, r', s')
    decreases inst.n - r
  {
    var res := BestRows(inst, p, excluded, dlb, true, r, bits);
    if r < inst.n {
      if r == excluded {
        assert res == BestRows(inst, p, excluded, dlb, true, r + 1, bits);
        BestRowsExhausted(inst, p, excluded, dlb, r + 1, bits);
        NoCandidateFromRow(inst, p, excluded, dlb, r);
      } else if BestInRow(inst, p, dlb, bits, r, 0, 0, None).None? {
        assert res == BestRows(inst, p, excluded, dlb, true, r + 1, bits[r := true]);
        BestRowEmpty(inst, p, excluded, dlb, bits, r);
        BestRowsExhausted(inst, p, excluded, dlb, r + 1, bits[r := true]);
        NoCandidateFromRow(inst, p, excluded, dlb, r);
      } else {
        assert res.Improve? && Candidate(inst, p, excluded, dlb, res.move.r, res.move.s);
      }
    }
  }

  /**
    Without don't-look bits but with the bit array created, `BestRows` never
    faults and finds nothing exactly when no later row has a candidate.
   */
  lemma {:induction false} BestRowsScanAll(inst: Instance, p: seq<nat>, excluded: int, r: nat, bits: seq<bool>)
    requires inst.Valid() && InRange(p, inst.n) && r <= inst.n && |bits| == inst.n
    ensures !BestRows(inst, p, excluded, false, true, r, bits).Failed?
    ensures BestRows(inst, p, excluded, false, true, r, bits).NoMove?
        <==> forall r': nat, s': nat :: r <= r' ==> !Candidate(inst, p, excluded, false, r', s')
    decreases inst.n - r
  {
    var res := BestRows(inst, p, excluded, false, true, r, bits);
    if r < inst.n {
      if r == excluded {
        assert res == BestRows(inst, p, excluded, false, true, r + 1, bits);
        BestRowsScanAll(inst, p, excluded, r + 1, bits);
        NoCandidateFromRow(inst, p, excluded, false, r);
      } else if BestInRow(inst, p, false, bits, r, 0, 0, None).None? {
        assert res == BestRows(inst, p, excluded, false, true, r + 1, bits[r := true]);
        BestRowEmpty(inst, p, excluded, false, bits, r);
        BestRowsScanAll(inst, p, excluded, r + 1, bits[r := true]);
        NoCandidateFromRow(inst, p, excluded, false, r);
      } else {
        assert res.Improve? && Candidate(inst, p, excluded, false, res.move.r, res.move.s);
      }
    }
  }

  /** A row without candidates adds none to the rows after it. */
  lemma NoCandidateFromRow(inst: Instance, p: seq<nat>, excluded: int, dlb: bool, r: nat)
    requires inst.Valid() && InRange(p, inst.n)
    requires forall s': nat :: !Candidate(inst, p, excluded, dlb, r, s')
    ensures (forall r': nat, s': nat :: r <= r' ==> !Candidate(inst, p, excluded, dlb, r', s'))
        <==> (forall r': nat, s': nat :: r + 1 <= r' ==> !Candidate(inst, p, excluded, dlb, r', s'))
  {
  }

  /**
    When the bit array was never created, `BestRows` decides on the first row that is not
    excluded: a move from that row, or the unbound-bits fault; "no move"
    only when there is no such row.
   */
  lemma {:induction false} BestRowsWithoutBits(inst: Instance, p: seq<nat>, excluded: int, r: nat, bits: seq<bool>)
    requires inst.Valid() && InRange(p, inst.n) && r <= inst.n && |bits| == inst.n
    ensures var res := BestRows(inst, p, excluded, false, false, r, bits);
      && (res.Improve? ==> res.move.r == LeadRow(r, excluded))
      && (res.NoMove? <==> LeadRow(r, excluded) >= inst.n)
      && (res.Failed? <==>
            && LeadRow(r, excluded) < inst.n
            && forall s': nat :: !Candidate(inst, p, excluded, false, LeadRow(r, excluded), s'))
      && (res.Failed? ==> res.fault == UnboundBits)
    decreases inst.n - r
  {
    if r < inst.n {
      if r == excluded {
        BestRowsWithoutBits(inst, p, excluded, r + 1, bits);
      } else {
        TriedIsCandidate(inst, p, excluded, false, bits, r);
      }
    }
  }

  /**
    `best_improvement(except_fac, dlb)`: the first row (in order) that has a
    candidate partner, with its most improving partner, the earliest one on
    ties. It is not the best pair overall.
   */
  function BestImprovement(inst: Instance, p: seq<nat>, excluded: int, dlb: bool): (res: Outcome)
    requires inst.Valid() && InRange(p, inst.n)
    ensures res.Improve? ==>
      && var m := res.move;
      && Candidate(inst, p, excluded, dlb, m.r, m.s)
      && m.delta == Delta(inst, p, m.r, m.s) && m.delta < 0
      && (forall r': nat, s': nat :: r' < m.r ==> !Candidate(inst, p, excluded, dlb, r', s'))
      && (forall s': nat :: Candidate(inst, p, excluded, dlb, m.r, s') ==> m.delta <= Delta(inst, p, m.r, s'))
      && (forall s': nat :: s' < m.s && Candidate(inst, p, excluded, dlb, m.r, s') ==> m.delta < Delta(inst, p, m.r, s'))
    ensures res.NoMove? <==>
      if dlb then forall r': nat, s': nat :: !Candidate(inst, p, excluded, dlb, r', s')
      else LeadRow(0, excluded) >= inst.n
    ensures res.Failed? <==>
      && !dlb
      && LeadRow(0, excluded) < inst.n
      && forall s': nat :: !Candidate(inst, p, excluded, dlb, LeadRow(0, excluded), s')
    ensures res.Failed? ==> res.fault == UnboundBits
  {
    if dlb then
      BestRowsExhausted(inst, p, excluded, dlb, 0, Zeros(inst.n));
      BestRows(inst, p, excluded, dlb, dlb, 0, Zeros(inst.n))
    else
      BestRowsWithoutBits(inst, p, excluded, 0, Zeros(inst.n));
      BestRows(inst, p, excluded, dlb, dlb, 0, Zeros(inst.n))
  }

  /**
    `best_improvement` with the bit array always created: it never faults
    and reports "no move" only when no candidate pair exists at all.
   */
  function BestImprovementBound(inst: Instance, p: seq<nat>, excluded: int, dlb: bool): (res: Outcome)
    requires inst.Valid() && InRange(p, inst.n)
    ensures !res.Failed?
    ensures res.Improve? ==>
      && var m := res.move;
      && Candidate(inst, p, excluded, dlb, m.r, m.s)
      && m.delta == Delta(inst, p, m.r, m.s) && m.delta < 0
      && (forall r': nat, s': nat :: r' < m.r ==> !Candidate(inst, p, excluded, dlb, r', s'))
      && (forall s': nat :: Candidate(inst, p, excluded, dlb, m.r, s') ==> m.delta <= Delta(inst, p, m.r, s'))
      && (forall s': nat :: s' < m.s && Candidate(inst, p, excluded, dlb, m.r, s') ==> m.delta < Delta(inst, p, m.r, s'))
    ensures res.NoMove? <==> forall r': nat, s': nat :: !Candidate(inst, p, excluded, dlb, r', s')
  {
    if dlb then
      BestRowsExhausted(inst, p, excluded, dlb, 0, Zeros(inst.n));
      BestRows(inst, p, excluded, dlb, true, 0, Zeros(inst.n))
    else
      BestRowsScanAll(inst, p, excluded, 0, Zeros(inst.n));
      BestRows(inst, p, excluded, dlb, true, 0, Zeros(inst.n))
  }

  /**
    The don't-look bits and the excluded row lose no improving swap: a pair
    `(r, s)` the scan does not look at has its mirror `(s, r)` looked at, and
    both have the same delta. So when no candidate is left, no swap of two
    positions improves.
   */
  lemma NoCandidateIsLocalOptimum(inst: Instance, p: seq<nat>, excluded: int)
    requires inst.Valid() && InRange(p, inst.n)
    requires forall r: nat, s: nat :: !Candidate(inst, p, excluded, true, r, s)
    ensures forall r: nat, s: nat :: r < inst.n && s < inst.n && r != s ==> Delta(inst, p, r, s) >= 0
  {
    forall r: nat, s: nat | r < inst.n && s < inst.n && r != s
      ensures Delta(inst, p, r, s) >= 0
    {
      if r == excluded || Skipped(true, excluded, r, s) {
        assert !Candidate(inst, p, excluded, true, s, r);
        DeltaSymmetric(inst, p, r, s);
      } else {
        assert !Candidate(inst, p, excluded, true, r, s);
      }
    }
  }

  /**
    Without don't-look bits both scans, as written, fault on a single
    position (a row with no partner at all), where the scans with the bit
    array created report "no move".
   */
  lemma UnboundBitsOnSingleton()
    ensures FirstImprovement(Instance(1, [[0]], [[0]]), [0], -1, false) == Failed(UnboundBits)
    ensures BestImprovement(Instance(1, [[0]], [[0]]), [0], -1, false) == Failed(UnboundBits)
    ensures FirstImprovementBound(Instance(1, [[0]], [[0]]), [0], -1, false) == NoMove
    ensures BestImprovementBound(Instance(1, [[0]], [[0]]), [0], -1, false) == NoMove
  {
    var inst := Instance(1, [[0]], [[0]]);
    assert forall s': nat :: !Candidate(inst, [0], -1, false, 0, s');
    assert forall r': nat, s': nat :: !Candidate(inst, [0], -1, false, r', s');
  }

  /**
    The two scans stop at the same row: they agree on whether there is a
    move and on its row, and the best-improvement move improves at least as
    much as the first-improvement one.
   */
  lemma ScansAgreeOnRow(inst: Instance, p: seq<nat>, excluded: int, dlb: bool)
    requires inst.Valid() && InRange(p, inst.n)
    ensures FirstImprovement(inst, p, excluded, dlb).Improve? <==> BestImprovement(inst, p, excluded, dlb).Improve?
    ensures FirstImprovement(inst, p, excluded, dlb).NoMove? <==> BestImprovement(inst, p, excluded, dlb).NoMove?
    ensures FirstImprovement(inst, p, excluded, dlb).Improve? ==>
      && var first := FirstImprovement(inst, p, excluded, dlb).move;
      && var best := BestImprovement(inst, p, excluded, dlb).move;
      && first.r == best.r && best.delta <= first.delta && first.s <= best.s
  {
    var first := FirstImprovement(inst, p, excluded, dlb);
    var best := BestImprovement(inst, p, excluded, dlb);
    if first.Improve? && best.Improve? {
      var f, b := first.move, best.move;
      assert Candidate(inst, p, excluded, dlb, f.r, f.s);
      assert Candidate(inst, p, excluded, dlb, b.r, b.s);
    }
  }
}
