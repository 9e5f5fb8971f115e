/**
  The driver loop `run`: build the starting array, compute its objective,
  then repeatedly ask the chosen strategy for a move and apply it, until the
  strategy reports "no move"; the answer is `argsort` of the final array.

  The strategy is chosen by a datatype instead of by method name. The pairwise
  scans and the stochastic variant are run by separate methods because their
  loops terminate for different reasons: the pairwise loop because the
  integer objective strictly drops, the stochastic loop only because its
  random draws are a finite input here.
 */
module Search {
  import opened Permutations
  import opened CostModel
  import opened Scans
  import opened SearchState
  import opened Stochastic

  datatype Strategy = FirstImprovementScan | BestImprovementScan | Stochastic2OptTrials

  /** How `run` ends: with the argsort of the final array, by an exception a strategy raised, or out of supplied random draws. */
  datatype RunResult =
    | Finished(assignment: seq<nat>, state: State, excluded: int)
    | Raised(fault: Fault, state: State)
    | OutOfRandomness(state: State)

  /** A stochastic run's result together with the number of strategy calls it made. */
  datatype RunCount = RunCount(result: RunResult, calls: nat)

  /**
    `initial_solution(eye)`: the identity with `eye`, otherwise the random
    permutation the caller drew (`np.random.permutation`).
   */
  function InitialSolution(n: nat, eye: bool, shuffled: seq<nat>): (p: seq<nat>)
    requires !eye ==> IsPermutation(shuffled, n)
    ensures IsPermutation(p, n)
    ensures eye ==> forall i :: 0 <= i < n ==> p[i] == i
    ensures !eye ==> p == shuffled
  {
    if eye then Identity(n) else shuffled
  }

  /** One call of a pairwise scan with the don't-look-bit switch and the excluded row. */
  function PairwiseScan(strategy: Strategy, inst: Instance, p: seq<nat>, excluded: int, dlb: bool): (res: Outcome)
    requires !strategy.Stochastic2OptTrials? && inst.Valid() && InRange(p, inst.n)
    ensures res.Improve? ==>
      && Candidate(inst, p, excluded, dlb, res.move.r, res.move.s)
      && res.move.delta == Delta(inst, p, res.move.r, res.move.s)
    ensures dlb ==> !res.Failed?
    ensures dlb && res.NoMove? ==> forall r: nat, s: nat :: !Candidate(inst, p, excluded, dlb, r, s)
    ensures !dlb && res.NoMove? ==> LeadRow(0, excluded) >= inst.n
  {
    match strategy
    case FirstImprovementScan => FirstImprovement(inst, p, excluded, dlb)
    case BestImprovementScan => BestImprovement(inst, p, excluded, dlb)
  }

  /** No swap of two positions lowers the objective of `q`: a local optimum of the swap neighbourhood. */
  predicate SwapLocalOptimum(inst: Instance, q: seq<nat>)
    requires inst.Valid() && InRange(q, inst.n)
  {
    forall r: nat, s: nat :: r < inst.n && s < inst.n ==> Cost(inst, q) <= Cost(inst, Swap(q, r, s))
  }

  /**
    Whatever the scan and the bit switch, "no move" is reported only at a
    local optimum: with bits, because no candidate is left (the bits and the
    excluded row lose no improving swap); without bits, because there is at
    most one position, and swapping it with itself changes nothing.
   */
  lemma NoMoveIsLocalOptimum(strategy: Strategy, inst: Instance, p: seq<nat>, excluded: int, dlb: bool)
    requires !strategy.Stochastic2OptTrials? && inst.Valid() && Symmetric(inst.D, inst.n)
    requires InRange(p, inst.n)
    requires PairwiseScan(strategy, inst, p, excluded, dlb).NoMove?
    ensures SwapLocalOptimum(inst, p)
  {
    if dlb {
      NoCandidateIsLocalOptimum(inst, p, excluded);
    }
    forall r: nat, s: nat | r < inst.n && s < inst.n
      ensures Cost(inst, p) <= Cost(inst, Swap(p, r, s))
    {
      if r == s {
        SwapSelf(p, r);
      } else {
        DeltaCorrect(inst, p, r, s);
      }
    }
  }

  predicate StrictlyDecreasing(s: seq<int>)
  {
    forall i, j :: 0 <= i < j < |s| ==> s[i] > s[j]
  }

  /** Appending a value below the last one keeps a trajectory suffix strictly decreasing. */
  lemma AppendBelowLast(plot: seq<int>, base: nat, x: int)
    requires base <= |plot| && StrictlyDecreasing(plot[base..])
    requires |plot| > base ==> x < plot[|plot| - 1]
    ensures StrictlyDecreasing((plot + [x])[base..])
  {
    assert (plot + [x])[base..] == plot[base..] + [x];
  }

  /** The loop invariant of the pairwise run survives one improving step. */
  lemma PairwiseStepKeeps(inst: Instance, st: State, m: Move, plotList: seq<int>, bound: int)
    requires inst.Valid() && Symmetric(inst.D, inst.n)
    requires IsPermutation(st.solution, inst.n) && InSync(inst, st) && st.costFun <= bound
    requires |st.plotList| >= |plotList| && st.plotList[..|plotList|] == plotList
    requires StrictlyDecreasing(st.plotList[|plotList|..])
    requires |st.plotList| > |plotList| ==> st.plotList[|st.plotList| - 1] == st.costFun
    requires m.r < inst.n && m.s < inst.n
    requires m.delta == Delta(inst, st.solution, m.r, m.s) && m.delta < 0
    ensures
      && var next := ApplyMove(st, m);
      && IsPermutation(next.solution, inst.n) && InSync(inst, next)
      && -CostFloor(inst) <= next.costFun < st.costFun
      && |next.plotList| >= |plotList| && next.plotList[..|plotList|] == plotList
      && StrictlyDecreasing(next.plotList[|plotList|..])
      && next.plotList[|next.plotList| - 1] == next.costFun
  {
    ImprovingStep(inst, st, m);
    var next := ApplyMove(st, m);
    CostAboveFloor(inst, next.solution);
    AppendBelowLast(st.plotList, |plotList|, next.costFun);
    assert next.plotList[..|plotList|] == plotList by {
      assert next.plotList[..|st.plotList|] == st.plotList;
    }
  }

  /** Putting a value above the first entry in front keeps a sequence strictly decreasing. */
  lemma PrependAbove(x: int, s: seq<int>)
    requires StrictlyDecreasing(s) && (|s| > 0 ==> x > s[0])
    ensures StrictlyDecreasing([x] + s)
  {
    forall i, j | 0 <= i < j < |s| + 1
      ensures ([x] + s)[i] > ([x] + s)[j]
    {
      if i == 0 && j > 1 {
        assert s[0] > s[j - 1];
      }
    }
  }

  /**
    The pairwise `run` loop from state `st` with excluded row `excluded`, as
    a recursive definition: ask the chosen scan for a move; on a move, apply
    it and exclude its row `r` from the next scan; on "no move" finish with
    the `argsort` of the array; on a fault stop with it.
   */
  function Descend(strategy: Strategy, inst: Instance, dlb: bool, st: State, excluded: int): (out: RunResult)
    requires !strategy.Stochastic2OptTrials? && inst.Valid() && Symmetric(inst.D, inst.n)
    requires IsPermutation(st.solution, inst.n) && InSync(inst, st)
    ensures !out.OutOfRandomness?
    ensures dlb ==> out.Finished?
    ensures out.Raised? ==> !dlb && out.fault == UnboundBits
    decreases st.costFun + CostFloor(inst)
  {
    CostAboveFloor(inst, st.solution);
    match PairwiseScan(strategy, inst, st.solution, excluded, dlb)
    case Improve(m) =>
      ImprovingStep(inst, st, m);
      Descend(strategy, inst, dlb, ApplyMove(st, m), m.r)
    case NoMove => Finished(Argsort(st.solution), st, excluded)
    case Failed(fault) => Raised(fault, st)
  }

  /**
    The trajectory from `st` to `fin`: the old entries stay in front, the
    running cost of `st` followed by the appended entries strictly
    decreases, and the last appended entry is the final running cost; an
    empty addition means the state did not change.
   */
  predicate Trail(st: State, fin: State)
  {
    && fin.costFun <= st.costFun
    && |fin.plotList| >= |st.plotList| && fin.plotList[..|st.plotList|] == st.plotList
    && StrictlyDecreasing([st.costFun] + fin.plotList[|st.plotList|..])
    && (|fin.plotList| > |st.plotList| ==> fin.plotList[|fin.plotList| - 1] == fin.costFun)
    && (|fin.plotList| == |st.plotList| ==> fin == st)
  }

  /**
    What the pairwise loop keeps from any state on: the array stays a
    permutation with the running cost as its objective, the trajectory is a
    `Trail`, and a finished run ends on "no move" and answers the `argsort`
    of the final array.
   */
  lemma {:induction false} DescendKeeps(strategy: Strategy, inst: Instance, dlb: bool, st: State, excluded: int)
    requires !strategy.Stochastic2OptTrials? && inst.Valid() && Symmetric(inst.D, inst.n)
    requires IsPermutation(st.solution, inst.n) && InSync(inst, st)
    ensures
      && var out := Descend(strategy, inst, dlb, st, excluded);
      && IsPermutation(out.state.solution, inst.n)
      && InSync(inst, out.state)
      && Trail(st, out.state)
      && (out.Finished? ==>
            && PairwiseScan(strategy, inst, out.state.solution, out.excluded, dlb).NoMove?
            && out.assignment == Argsort(out.state.solution))
    decreases st.costFun + CostFloor(inst)
  {
    CostAboveFloor(inst, st.solution);
    match PairwiseScan(strategy, inst, st.solution, excluded, dlb)
    case Improve(m) =>
      PairwiseStepKeeps(inst, st, m, st.plotList, st.costFun);
      var next := ApplyMove(st, m);
      assert Descend(strategy, inst, dlb, st, excluded) == Descend(strategy, inst, dlb, next, m.r);
      DescendKeeps(strategy, inst, dlb, next, m.r);
      DescendStep(st, next, Descend(strategy, inst, dlb, next, m.r).state);
    case NoMove =>
      assert st.plotList[..|st.plotList|] == st.plotList;
    case Failed(_) =>
      assert st.plotList[..|st.plotList|] == st.plotList;
  }

  /** A pairwise run that finishes ends at a local optimum of the swap neighbourhood. */
  lemma FinishedIsLocalOptimum(strategy: Strategy, inst: Instance, dlb: bool, st: State, excluded: int)
    requires !strategy.Stochastic2OptTrials? && inst.Valid() && Symmetric(inst.D, inst.n)
    requires IsPermutation(st.solution, inst.n) && InSync(inst, st)
    ensures
      && var out := Descend(strategy, inst, dlb, st, excluded);
      && IsPermutation(out.state.solution, inst.n)
      && (out.Finished? ==> SwapLocalOptimum(inst, out.state.solution))
  {
    var out := Descend(strategy, inst, dlb, st, excluded);
    DescendKeeps(strategy, inst, dlb, st, excluded);
    if out.Finished? {
      NoMoveIsLocalOptimum(strategy, inst, out.state.solution, out.excluded, dlb);
    }
  }

  /** A trail from the state after an improving step extends back to the state before it. */
  lemma DescendStep(st: State, next: State, fin: State)
    requires next.plotList == st.plotList + [next.costFun] && next.costFun < st.costFun
    requires Trail(next, fin)
    ensures Trail(st, fin)
  {
    var k := |st.plotList|;
    assert fin.plotList[..k] == st.plotList by {
      assert fin.plotList[..|next.plotList|][..k] == st.plotList;
    }
    assert fin.plotList[k] == next.costFun by {
      assert fin.plotList[..|next.plotList|][k] == next.costFun;
    }
    assert fin.plotList[k..] == [next.costFun] + fin.plotList[k + 1..];
    PrependAbove(st.costFun, fin.plotList[k..]);
  }

  /**
    `run` with a pairwise scan. Every step swaps the two proposed positions,
    adds the proposed delta, appends the new running cost and excludes the
    moved row from the next scan. With a symmetric `D` the running cost is
    always the objective and strictly drops; since no objective value lies
    below `-CostFloor(inst)`, the loop ends, and with don't-look bits it
    ends with "no move", at a local optimum of the swap neighbourhood. The
    result is `Descend` from the start with no excluded row.
   */
  method RunPairwise(inst: Instance, strategy: Strategy, dlb: bool, eye: bool, shuffled: seq<nat>, plotList: seq<int>)
    returns (out: RunResult)
    requires !strategy.Stochastic2OptTrials?
    requires inst.Valid() && Symmetric(inst.D, inst.n)
    requires !eye ==> IsPermutation(shuffled, inst.n)
    ensures
      && var start := InitialSolution(inst.n, eye, shuffled);
      && var first := State(start, Cost(inst, start), plotList);
      && out == Descend(strategy, inst, dlb, first, -1)
      && IsPermutation(out.state.solution, inst.n)
      && InSync(inst, out.state)
      && Trail(first, out.state)
    ensures !out.OutOfRandomness?
    ensures dlb ==> out.Finished?
    ensures out.Raised? ==> !dlb && out.fault == UnboundBits
    ensures out.Finished? ==>
      && PairwiseScan(strategy, inst, out.state.solution, out.excluded, dlb).NoMove?
      && out.assignment == Argsort(out.state.solution)
      && (forall i :: 0 <= i < inst.n ==> out.assignment[out.state.solution[i]] == i)
      && SwapLocalOptimum(inst, out.state.solution)
  {
    var solution := InitialSolution(inst.n, eye, shuffled);
    var costFun := CostFunction(inst, solution);
    var plot := plotList;
    var excluded: int := -1;
    var floor := CostFloor(inst);
    CostAboveFloor(inst, solution);
    ghost var whole := Descend(strategy, inst, dlb, State(solution, costFun, plot), excluded);
    DescendKeeps(strategy, inst, dlb, State(solution, costFun, plot), excluded);
    FinishedIsLocalOptimum(strategy, inst, dlb, State(solution, costFun, plot), excluded);
    while true
      invariant IsPermutation(solution, inst.n) && costFun == Cost(inst, solution)
      invariant costFun >= -floor
      invariant Descend(strategy, inst, dlb, State(solution, costFun, plot), excluded) == whole
      decreases costFun + floor
    {
      var result := PairwiseScan(strategy, inst, solution, excluded, dlb);
      match result {
        case Improve(m) =>
          var st := State(solution, costFun, plot);
          ImprovingStep(inst, st, m);
          var next := ApplyMove(st, m);
          CostAboveFloor(inst, next.solution);
          solution, costFun, plot := next.solution, next.costFun, next.plotList;
          excluded := m.r;
        case NoMove =>
          return Finished(Argsort(solution), State(solution, costFun, plot), excluded);
        case Failed(fault) =>
          return Raised(fault, State(solution, costFun, plot));
      }
    }
  }

  predicate ValidRounds(n: nat, iters: nat, rounds: seq<seq<Trial>>)
  {
    forall k :: 0 <= k < |rounds| ==> |rounds[k]| == iters && (n >= 2 ==> ValidTrials(n, rounds[k]))
  }

  /**
    How many entries `calls` strategy calls of `iters` trials add to the
    trajectory when each is followed by the loop's own append.
   */
  function RoundsLength(calls: nat, iters: nat): nat
  {
    if calls == 0 then 0 else RoundsLength(calls - 1, iters) + iters + 1
  }

  /** Each call adds `iters + 1` entries, so the total is the product. */
  lemma {:induction false} RoundsLengthIsProduct(calls: nat, iters: nat)
    ensures RoundsLength(calls, iters) == calls * (iters + 1)
  {
    if calls > 0 {
      RoundsLengthIsProduct(calls - 1, iters);
    }
  }

  /** What one strategy call of the stochastic run, and the loop's update after it, keep. */
  lemma StochasticRoundKeeps(
    inst: Instance, cur: State, iters: nat, choices: seq<Trial>, plotList: seq<int>, calls: nat, bound: int)
    requires inst.Valid() && IsPermutation(cur.solution, inst.n)
    requires |choices| == iters && (inst.n >= 2 ==> ValidTrials(inst.n, choices))
    requires cur.costFun <= bound
    requires |cur.plotList| == |plotList| + RoundsLength(calls, iters) && cur.plotList[..|plotList|] == plotList
    ensures
      && var call := Stochastic2Opt(inst, cur, iters, choices);
      && var next := call.state;
      && (call.outcome.Improve? ==>
            && inst.n >= 2 && iters > 0
            && var moved := ApplyMove(next, call.outcome.move);
            && IsPermutation(moved.solution, inst.n)
            && moved.costFun <= bound
            && |moved.plotList| == |plotList| + RoundsLength(calls + 1, iters)
            && moved.plotList[..|plotList|] == plotList)
      && (call.outcome.NoMove? ==>
            && IsPermutation(next.solution, inst.n)
            && next.costFun <= bound
            && |next.plotList| + 1 == |plotList| + RoundsLength(calls + 1, iters)
            && next.plotList[..|plotList|] == plotList
            && (iters == 0 ==> next == cur))
  {
    var call := Stochastic2Opt(inst, cur, iters, choices);
    var next := call.state;
    if !call.outcome.Failed? {
      assert next.plotList[..|plotList|] == plotList by {
        assert next.plotList[..|cur.plotList|][..|plotList|] == plotList;
      }
      if call.outcome.Improve? {
        SentinelStep(next);
      }
    }
  }

  /**
    The stochastic `run` loop from state `cur`, as a recursive definition
    over the rounds of draws from `rounds[k]` on: call the strategy on the
    next round; on the sentinel move apply it (a no-op swap, a zero delta
    and one more append), set the excluded row to its `r` and go on; on
    "no move" finish with the `argsort` of the array; on a fault stop with
    it. The second component counts the strategy calls made.
   */
  function StochasticRun(inst: Instance, cur: State, excluded: int, iters: nat, rounds: seq<seq<Trial>>, k: nat): (res: RunCount)
    requires inst.Valid() && IsPermutation(cur.solution, inst.n) && ValidRounds(inst.n, iters, rounds)
    requires k <= |rounds|
    ensures k + res.calls <= |rounds|
    ensures res.result.OutOfRandomness? ==> k + res.calls == |rounds|
    ensures k < |rounds| ==> res.calls >= 1
    decreases |rounds| - k
  {
    if k == |rounds| then RunCount(OutOfRandomness(cur), 0)
    else
      var call := Stochastic2Opt(inst, cur, iters, rounds[k]);
      match call.outcome
      case Improve(m) =>
        SentinelStep(call.state);
        var rest := StochasticRun(inst, ApplyMove(call.state, m), m.r, iters, rounds, k + 1);
        RunCount(rest.result, rest.calls + 1)
      case NoMove => RunCount(Finished(Argsort(call.state.solution), call.state, excluded), 1)
      case Failed(fault) => RunCount(Raised(fault, call.state), 1)
  }

  /**
    What a stochastic run `res` keeps relative to the state `cur` it started
    from: the array stays a permutation, the running cost does not rise, the
    old entries stay in front, the number of appended entries is fixed by
    the calls made, and a finished run answers the `argsort` of its final
    array.
   */
  predicate RunKept(inst: Instance, cur: State, iters: nat, res: RunCount)
  {
    var st := res.result.state;
    && IsPermutation(st.solution, inst.n)
    && st.costFun <= cur.costFun
    && |st.plotList| >= |cur.plotList| && st.plotList[..|cur.plotList|] == cur.plotList
    && (res.result.Finished? ==>
          && |st.plotList| == |cur.plotList| + RoundsLength(res.calls, iters) - 1
          && res.result.assignment == Argsort(st.solution))
    && (res.result.OutOfRandomness? ==> |st.plotList| == |cur.plotList| + RoundsLength(res.calls, iters))
  }

  /** A run from the state after a sentinel step keeps `RunKept` for the state before it, one call more. */
  lemma RunKeptStep(inst: Instance, cur: State, next: State, iters: nat, rest: RunCount, whole: RunCount)
    requires next.costFun <= cur.costFun
    requires |next.plotList| == |cur.plotList| + RoundsLength(1, iters)
    requires next.plotList[..|cur.plotList|] == cur.plotList
    requires RunKept(inst, next, iters, rest)
    requires whole == RunCount(rest.result, rest.calls + 1)
    ensures RunKept(inst, cur, iters, whole)
  {
    var st := rest.result.state;
    assert st.plotList[..|cur.plotList|] == cur.plotList by {
      assert st.plotList[..|next.plotList|][..|cur.plotList|] == cur.plotList;
    }
    assert RoundsLength(rest.calls + 1, iters) == RoundsLength(rest.calls, iters) + iters + 1;
  }

  /** A run that finishes after one call with state `fin` keeps `RunKept` for the state it started from. */
  lemma RunKeptFinish(inst: Instance, cur: State, fin: State, iters: nat, excluded: int)
    requires IsPermutation(fin.solution, inst.n) && fin.costFun <= cur.costFun
    requires |fin.plotList| + 1 == |cur.plotList| + RoundsLength(1, iters)
    requires fin.plotList[..|cur.plotList|] == cur.plotList
    ensures RunKept(inst, cur, iters, RunCount(Finished(Argsort(fin.solution), fin, excluded), 1))
  {
  }

  /** A round that reports the sentinel move leaves a permutation and continues the run with one call more. */
  lemma StochasticRunOnImprove(
    inst: Instance, cur: State, excluded: int, iters: nat, rounds: seq<seq<Trial>>, k: nat)
    requires inst.Valid() && IsPermutation(cur.solution, inst.n) && ValidRounds(inst.n, iters, rounds)
    requires k < |rounds| && Stochastic2Opt(inst, cur, iters, rounds[k]).outcome.Improve?
    ensures
      && var call := Stochastic2Opt(inst, cur, iters, rounds[k]);
      && var next := ApplyMove(call.state, call.outcome.move);
      && IsPermutation(next.solution, inst.n)
      && var rest := StochasticRun(inst, next, call.outcome.move.r, iters, rounds, k + 1);
      && StochasticRun(inst, cur, excluded, iters, rounds, k) == RunCount(rest.result, rest.calls + 1)
  {
    SentinelStep(Stochastic2Opt(inst, cur, iters, rounds[k]).state);
  }

  /** With no rounds of draws left the run stops out of randomness, without a call. */
  lemma StochasticRunAtEnd(inst: Instance, cur: State, excluded: int, iters: nat, rounds: seq<seq<Trial>>)
    requires inst.Valid() && IsPermutation(cur.solution, inst.n) && ValidRounds(inst.n, iters, rounds)
    ensures StochasticRun(inst, cur, excluded, iters, rounds, |rounds|) == RunCount(OutOfRandomness(cur), 0)
  {
  }

  /** A round that reports "no move" finishes the run and a fault stops it, after one call. */
  lemma StochasticRunOnStop(
    inst: Instance, cur: State, excluded: int, iters: nat, rounds: seq<seq<Trial>>, k: nat)
    requires inst.Valid() && IsPermutation(cur.solution, inst.n) && ValidRounds(inst.n, iters, rounds)
    requires k < |rounds| && !Stochastic2Opt(inst, cur, iters, rounds[k]).outcome.Improve?
    ensures
      && var call := Stochastic2Opt(inst, cur, iters, rounds[k]);
      && StochasticRun(inst, cur, excluded, iters, rounds, k) ==
           if call.outcome.NoMove? then RunCount(Finished(Argsort(call.state.solution), call.state, excluded), 1)
           else RunCount(Raised(call.outcome.fault, call.state), 1)
  {
  }

  /**
    After a round that reports the sentinel move and the loop's update, the
    array is a permutation, the running cost is no higher, and the
    trajectory has grown by one round behind its old entries.
   */
  lemma SentinelRoundKeeps(inst: Instance, cur: State, iters: nat, choices: seq<Trial>)
    requires inst.Valid() && IsPermutation(cur.solution, inst.n)
    requires |choices| == iters && (inst.n >= 2 ==> ValidTrials(inst.n, choices))
    requires Stochastic2Opt(inst, cur, iters, choices).outcome.Improve?
    ensures
      && var call := Stochastic2Opt(inst, cur, iters, choices);
      && var next := ApplyMove(call.state, call.outcome.move);
      && IsPermutation(next.solution, inst.n)
      && next.costFun <= cur.costFun
      && |next.plotList| == |cur.plotList| + RoundsLength(1, iters)
      && next.plotList[..|cur.plotList|] == cur.plotList
  {
    var call := Stochastic2Opt(inst, cur, iters, choices);
    var next := ApplyMove(call.state, call.outcome.move);
    SentinelStep(call.state);
    assert next.plotList[..|cur.plotList|] == cur.plotList by {
      assert next.plotList[..|call.state.plotList|] == call.state.plotList;
    }
    assert RoundsLength(1, iters) == iters + 1;
  }

  /** A round that reports the sentinel move passes `RunKept` from the rest of the run back to its start. */
  lemma RunKeptOnImprove(
    inst: Instance, cur: State, excluded: int, iters: nat, rounds: seq<seq<Trial>>, k: nat)
    requires inst.Valid() && IsPermutation(cur.solution, inst.n) && ValidRounds(inst.n, iters, rounds)
    requires k < |rounds| && Stochastic2Opt(inst, cur, iters, rounds[k]).outcome.Improve?
    ensures
      && var call := Stochastic2Opt(inst, cur, iters, rounds[k]);
      && var next := ApplyMove(call.state, call.outcome.move);
      && IsPermutation(next.solution, inst.n)
      && (RunKept(inst, next, iters, StochasticRun(inst, next, call.outcome.move.r, iters, rounds, k + 1)) ==>
            RunKept(inst, cur, iters, StochasticRun(inst, cur, excluded, iters, rounds, k)))
  {
    var call := Stochastic2Opt(inst, cur, iters, rounds[k]);
    var next := ApplyMove(call.state, call.outcome.move);
    SentinelRoundKeeps(inst, cur, iters, rounds[k]);
    StochasticRunOnImprove(inst, cur, excluded, iters, rounds, k);
    var rest := StochasticRun(inst, next, call.outcome.move.r, iters, rounds, k + 1);
    if RunKept(inst, next, iters, rest) {
      RunKeptStep(inst, cur, next, iters, rest, StochasticRun(inst, cur, excluded, iters, rounds, k));
    }
  }

  /** A round that reports "no move" or a fault ends the run, and the run keeps `RunKept`. */
  lemma RunKeptOnStop(
    inst: Instance, cur: State, excluded: int, iters: nat, rounds: seq<seq<Trial>>, k: nat)
    requires inst.Valid() && IsPermutation(cur.solution, inst.n) && ValidRounds(inst.n, iters, rounds)
    requires k < |rounds| && !Stochastic2Opt(inst, cur, iters, rounds[k]).outcome.Improve?
    ensures RunKept(inst, cur, iters, StochasticRun(inst, cur, excluded, iters, rounds, k))
  {
    var call := Stochastic2Opt(inst, cur, iters, rounds[k]);
    assert cur.plotList[..|cur.plotList|] == cur.plotList;
    StochasticRoundKeeps(inst, cur, iters, rounds[k], cur.plotList, 0, cur.costFun);
    StochasticRunOnStop(inst, cur, excluded, iters, rounds, k);
    if call.outcome.NoMove? {
      RunKeptFinish(inst, cur, call.state, iters, excluded);
    }
  }

  /** Every stochastic run keeps `RunKept` relative to the state it starts from. */
  lemma {:induction false} StochasticRunKeeps(
    inst: Instance, cur: State, excluded: int, iters: nat, rounds: seq<seq<Trial>>, k: nat)
    requires inst.Valid() && IsPermutation(cur.solution, inst.n) && ValidRounds(inst.n, iters, rounds)
    requires k <= |rounds|
    ensures RunKept(inst, cur, iters, StochasticRun(inst, cur, excluded, iters, rounds, k))
    decreases |rounds| - k
  {
    if k == |rounds| {
      assert cur.plotList[..|cur.plotList|] == cur.plotList;
      StochasticRunAtEnd(inst, cur, excluded, iters, rounds);
    } else if Stochastic2Opt(inst, cur, iters, rounds[k]).outcome.Improve? {
      var call := Stochastic2Opt(inst, cur, iters, rounds[k]);
      RunKeptOnImprove(inst, cur, excluded, iters, rounds, k);
      StochasticRunKeeps(inst, ApplyMove(call.state, call.outcome.move), call.outcome.move.r, iters, rounds, k + 1);
    } else {
      RunKeptOnStop(inst, cur, excluded, iters, rounds, k);
    }
  }

  /**
    How a stochastic run `res` from round `k` with state `cur` may end: by a
    raise only at the very first call of the run (`EmptyRandomRange`,
    exactly when trials are asked for on fewer than two positions), and
    with no trials by finishing at its first call without touching the
    state.
   */
  predicate RunEnds(n: nat, cur: State, iters: nat, rounds: seq<seq<Trial>>, k: nat, res: RunCount)
  {
    && (res.result.Raised? <==> k == 0 && 0 < |rounds| && 0 < iters && n < 2)
    && (res.result.Raised? ==> res.result.fault == EmptyRandomRange && res.calls == 1)
    && (res.result.Finished? && iters == 0 ==> res.calls == 1 && res.result.state == cur)
  }

  /** A round that reports the sentinel move passes `RunEnds` from the rest of the run back to its start. */
  lemma RunEndsOnImprove(
    inst: Instance, cur: State, excluded: int, iters: nat, rounds: seq<seq<Trial>>, k: nat)
    requires inst.Valid() && IsPermutation(cur.solution, inst.n) && ValidRounds(inst.n, iters, rounds)
    requires k < |rounds| && Stochastic2Opt(inst, cur, iters, rounds[k]).outcome.Improve?
    ensures inst.n >= 2 && iters > 0
    ensures
      && var call := Stochastic2Opt(inst, cur, iters, rounds[k]);
      && var next := ApplyMove(call.state, call.outcome.move);
      && IsPermutation(next.solution, inst.n)
      && (RunEnds(inst.n, next, iters, rounds, k + 1, StochasticRun(inst, next, call.outcome.move.r, iters, rounds, k + 1)) ==>
            RunEnds(inst.n, cur, iters, rounds, k, StochasticRun(inst, cur, excluded, iters, rounds, k)))
  {
    var call := Stochastic2Opt(inst, cur, iters, rounds[k]);
    var next := ApplyMove(call.state, call.outcome.move);
    StochasticRunOnImprove(inst, cur, excluded, iters, rounds, k);
    var rest := StochasticRun(inst, next, call.outcome.move.r, iters, rounds, k + 1);
    var whole := StochasticRun(inst, cur, excluded, iters, rounds, k);
    assert whole.result == rest.result;
  }

  /** A round that reports "no move" or a fault ends the run as `RunEnds` says. */
  lemma RunEndsOnStop(
    inst: Instance, cur: State, excluded: int, iters: nat, rounds: seq<seq<Trial>>, k: nat)
    requires inst.Valid() && IsPermutation(cur.solution, inst.n) && ValidRounds(inst.n, iters, rounds)
    requires k < |rounds| && (k > 0 ==> inst.n >= 2 && iters > 0)
    requires !Stochastic2Opt(inst, cur, iters, rounds[k]).outcome.Improve?
    ensures RunEnds(inst.n, cur, iters, rounds, k, StochasticRun(inst, cur, excluded, iters, rounds, k))
  {
    StochasticRunOnStop(inst, cur, excluded, iters, rounds, k);
  }

  /** How the stochastic loop ends from round `k` on: see `RunEnds`. */
  lemma {:induction false} StochasticRunEnds(
    inst: Instance, cur: State, excluded: int, iters: nat, rounds: seq<seq<Trial>>, k: nat)
    requires inst.Valid() && IsPermutation(cur.solution, inst.n) && ValidRounds(inst.n, iters, rounds)
    requires k <= |rounds| && (k > 0 ==> inst.n >= 2 && iters > 0)
    ensures RunEnds(inst.n, cur, iters, rounds, k, StochasticRun(inst, cur, excluded, iters, rounds, k))
    decreases |rounds| - k
  {
    if k == |rounds| {
      StochasticRunAtEnd(inst, cur, excluded, iters, rounds);
    } else if Stochastic2Opt(inst, cur, iters, rounds[k]).outcome.Improve? {
      var call := Stochastic2Opt(inst, cur, iters, rounds[k]);
      RunEndsOnImprove(inst, cur, excluded, iters, rounds, k);
      StochasticRunEnds(inst, ApplyMove(call.state, call.outcome.move), call.outcome.move.r, iters, rounds, k + 1);
    } else {
      RunEndsOnStop(inst, cur, excluded, iters, rounds, k);
    }
  }

  /**
    One pass of the stochastic loop's body on round `k`: call the strategy;
    on the sentinel move apply it and exclude its row, and the run goes on
    from there with one call more; on "no move" or a fault the run ends
    here after this one call.
   */
  method StochasticCall(inst: Instance, st: State, ex: int, iters: nat, rounds: seq<seq<Trial>>, k: nat)
    returns (done: bool, out: RunResult, next: State, nextEx: int)
    requires inst.Valid() && IsPermutation(st.solution, inst.n) && ValidRounds(inst.n, iters, rounds)
    requires k < |rounds|
    ensures done ==> StochasticRun(inst, st, ex, iters, rounds, k) == RunCount(out, 1)
    ensures !done ==>
      && IsPermutation(next.solution, inst.n)
      && var rest := StochasticRun(inst, next, nextEx, iters, rounds, k + 1);
      && StochasticRun(inst, st, ex, iters, rounds, k) == RunCount(rest.result, rest.calls + 1)
  {
    var call := Stochastic2Opt(inst, st, iters, rounds[k]);
    done, out, next, nextEx := true, OutOfRandomness(st), st, ex;
    match call.outcome {
      case Improve(m) =>
        StochasticRunOnImprove(inst, st, ex, iters, rounds, k);
        done, next, nextEx := false, ApplyMove(call.state, m), m.r;
      case NoMove =>
        StochasticRunOnStop(inst, st, ex, iters, rounds, k);
        out := Finished(Argsort(call.state.solution), call.state, ex);
      case Failed(fault) =>
        StochasticRunOnStop(inst, st, ex, iters, rounds, k);
        out := Raised(fault, call.state);
    }
  }

  /**
    The `while True` loop of `run` with the stochastic variant, from state
    `cur` with excluded row `excluded`; `rounds[k]` holds the draws of the
    `k`-th strategy call. A "moved" report makes the loop swap position 0
    with itself (a no-op), add a zero delta, append the running cost once
    more, exclude row 0 and call the strategy again; the loop ends at the
    first "no move" or fault, or when the draws run out.
   */
  method StochasticLoop(inst: Instance, cur: State, excluded: int, iters: nat, rounds: seq<seq<Trial>>)
    returns (out: RunResult, calls: nat)
    requires inst.Valid() && IsPermutation(cur.solution, inst.n) && ValidRounds(inst.n, iters, rounds)
    ensures RunCount(out, calls) == StochasticRun(inst, cur, excluded, iters, rounds, 0)
  {
    ghost var whole := StochasticRun(inst, cur, excluded, iters, rounds, 0);
    var st, ex := cur, excluded;
    calls := 0;
    while true
      invariant calls <= |rounds|
      invariant IsPermutation(st.solution, inst.n)
      invariant StochasticRun(inst, st, ex, iters, rounds, calls).result == whole.result
      invariant StochasticRun(inst, st, ex, iters, rounds, calls).calls + calls == whole.calls
      decreases |rounds| - calls
    {
      if calls == |rounds| {
        return OutOfRandomness(st), calls;
      }
      var done, res, next, nextEx := StochasticCall(inst, st, ex, iters, rounds, calls);
      calls := calls + 1;
      if done {
        return res, calls;
      }
      st, ex := next, nextEx;
    }
  }

  /**
    `run` with the stochastic variant: start from `initial_solution` and its
    objective, then run the loop with no excluded row. Only the first call
    can raise, and it does exactly when trials are asked for on fewer than
    two positions; with no trials the run finishes at the first call without
    changing anything.
   */
  method RunStochastic(inst: Instance, eye: bool, shuffled: seq<nat>, plotList: seq<int>, iters: nat, rounds: seq<seq<Trial>>)
    returns (out: RunResult, calls: nat)
    requires inst.Valid()
    requires !eye ==> IsPermutation(shuffled, inst.n)
    requires ValidRounds(inst.n, iters, rounds)
    ensures
      && var start := InitialSolution(inst.n, eye, shuffled);
      && var first := State(start, Cost(inst, start), plotList);
      && RunCount(out, calls) == StochasticRun(inst, first, -1, iters, rounds, 0)
      && RunKept(inst, first, iters, RunCount(out, calls))
    ensures calls <= |rounds|
    ensures out.OutOfRandomness? ==> calls == |rounds|
    ensures out.Raised? <==> 0 < |rounds| && 0 < iters && inst.n < 2
    ensures out.Raised? ==> out.fault == EmptyRandomRange && calls == 1
    ensures out.Finished? ==> calls >= 1
    ensures out.Finished? && iters == 0 ==> calls == 1 && out.state.plotList == plotList
  {
    var solution := InitialSolution(inst.n, eye, shuffled);
    var costFun := CostFunction(inst, solution);
    var first := State(solution, costFun, plotList);
    StochasticRunKeeps(inst, first, -1, iters, rounds, 0);
    StochasticRunEnds(inst, first, -1, iters, rounds, 0);
    out, calls := StochasticLoop(inst, first, -1, iters, rounds);
  }
}
