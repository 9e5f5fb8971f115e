/**
  `stochastic_2_opt`: a fixed number of trials, each reversing a random
  segment of the solution array, recomputing the objective from scratch and
  rejecting the trial when the objective got worse.

  The random draws are inputs: trial `k` uses `choices[k]`, the pair `(a, b)`
  of `randint(0, n-1)` and `randint(a+1, n)`.

  The saved solution of a trial is the very array that is then reversed in
  place, so a rejection restores the running cost but not the order: every
  drawn reversal stays applied, accepted or not.
 */
module Stochastic {
  import opened Sums
  import opened Permutations
  import opened CostModel
  import opened Scans
  import opened SearchState

  /** The two random draws of one trial: the inclusive segment `[a, b]` to reverse. */
  datatype Trial = Trial(a: nat, b: nat)

  /** The state after one or more trials, with `flag`: whether the latest trial was accepted. */
  datatype TrialResult = TrialResult(state: State, flag: bool)

  /** What `stochastic_2_opt` reports, with the state its trials leave behind. */
  datatype Proposal = Proposal(outcome: Outcome, state: State)

  /** The draws `randint(0, n-1)` and `randint(a+1, n)` can produce: `0 <= a <= n-2` and `a < b <= n-1`. */
  predicate ValidTrial(n: nat, t: Trial)
  {
    t.a < t.b < n
  }

  predicate ValidTrials(n: nat, choices: seq<Trial>)
  {
    forall k :: 0 <= k < |choices| ==> ValidTrial(n, choices[k])
  }

  /** The array after reversing every drawn segment in turn. */
  function ReverseAll(p: seq<nat>, choices: seq<Trial>): (q: seq<nat>)
    requires ValidTrials(|p|, choices)
    ensures |q| == |p|
    decreases |choices|
  {
    if |choices| == 0 then p
    else ReverseAll(ReverseSegment(p, choices[0].a, choices[0].b), choices[1..])
  }

  lemma {:induction false} ReverseAllPreservesPermutation(p: seq<nat>, n: nat, choices: seq<Trial>)
    requires IsPermutation(p, n) && ValidTrials(n, choices)
    ensures IsPermutation(ReverseAll(p, choices), n)
    decreases |choices|
  {
    if |choices| > 0 {
      var t := choices[0];
      ReverseSegmentPreservesPermutation(p, n, t.a, t.b);
      ReverseAllPreservesPermutation(ReverseSegment(p, t.a, t.b), n, choices[1..]);
    }
  }

  /** The entries of `s` from position `k` on never increase. */
  predicate NonIncreasingFrom(s: seq<int>, k: nat)
  {
    forall i, j :: k <= i < j < |s| ==> s[i] >= s[j]
  }

  lemma NonIncreasingStep(s: seq<int>, k: nat)
    requires k < |s| && NonIncreasingFrom(s, k + 1)
    requires k + 1 < |s| ==> s[k + 1] <= s[k]
    ensures NonIncreasingFrom(s, k)
  {
    forall i, j | k <= i < j < |s|
      ensures s[i] >= s[j]
    {
      if i == k && j > k + 1 {
        assert s[k + 1] >= s[j];
      }
    }
  }

  /**
    One trial as the code is written: record the running cost, reverse the
    segment in place, recompute the objective, and on a strict increase put
    back the previous running cost (the array stays reversed). The flag is
    whether the trial was accepted.
   */
  function TrialStep(inst: Instance, st: State, t: Trial): (res: TrialResult)
    requires inst.Valid() && IsPermutation(st.solution, inst.n) && ValidTrial(inst.n, t)
    ensures IsPermutation(res.state.solution, inst.n)
    ensures res.state.solution == ReverseSegment(st.solution, t.a, t.b)
    ensures res.state.plotList == st.plotList + [st.costFun]
    ensures res.state.costFun <= st.costFun
    ensures res.flag <==> Cost(inst, ReverseSegment(st.solution, t.a, t.b)) <= st.costFun
    ensures res.state.costFun == if res.flag then Cost(inst, res.state.solution) else st.costFun
    ensures res.flag <==> InSync(inst, res.state)
  {
    var prevCost := st.costFun;
    var solution := ReverseSegment(st.solution, t.a, t.b);
    ReverseSegmentPreservesPermutation(st.solution, inst.n, t.a, t.b);
    var newCost := Cost(inst, solution);
    var accepted := !(prevCost < newCost);
    TrialResult(State(solution, if accepted then newCost else prevCost, st.plotList + [prevCost]), accepted)
  }

  /**
    The trial loop from the current state; `flag` is the acceptance of the
    latest trial so far. The result pairs the final state with the final flag.
   */
  function Trials(inst: Instance, st: State, choices: seq<Trial>, flag: bool): (res: TrialResult)
    requires inst.Valid() && IsPermutation(st.solution, inst.n) && ValidTrials(inst.n, choices)
    ensures IsPermutation(res.state.solution, inst.n)
    ensures res.state.solution == ReverseAll(st.solution, choices)
    ensures |choices| == 0 ==> res == TrialResult(st, flag)
    ensures |choices| > 0 ==> (res.flag <==> InSync(inst, res.state))
    decreases |choices|
  {
    if |choices| == 0 then TrialResult(st, flag)
    else
      var step := TrialStep(inst, st, choices[0]);
      Trials(inst, step.state, choices[1..], step.flag)
  }

  /**
    The trajectory the trial loop leaves: one entry per trial appended to
    the old one, the first being the running cost before the loop, and a
    running cost no higher than at the start.
   */
  lemma {:induction false} TrialsTrajectory(inst: Instance, st: State, choices: seq<Trial>, flag: bool)
    requires inst.Valid() && IsPermutation(st.solution, inst.n) && ValidTrials(inst.n, choices)
    ensures
      && var res := Trials(inst, st, choices, flag).state;
      && |res.plotList| == |st.plotList| + |choices|
      && res.plotList[..|st.plotList|] == st.plotList
      && res.costFun <= st.costFun
    decreases |choices|
  {
    if |choices| > 0 {
      var step := TrialStep(inst, st, choices[0]);
      var next := step.state;
      TrialsTrajectory(inst, next, choices[1..], step.flag);
      var res := Trials(inst, next, choices[1..], step.flag).state;
      assert res == Trials(inst, st, choices, flag).state;
      assert res.plotList[..|st.plotList|] == next.plotList[..|st.plotList|];
    }
  }

  /**
    The trial loop ends with its last trial: running all draws is running
    all but the last one and then the last one, flag included.
   */
  lemma {:induction false} TrialsLastTrial(inst: Instance, st: State, choices: seq<Trial>, flag: bool)
    requires inst.Valid() && IsPermutation(st.solution, inst.n) && ValidTrials(inst.n, choices)
    ensures |choices| > 0 ==>
      && var k := |choices| - 1;
      && var before := Trials(inst, st, choices[..k], flag).state;
      && Trials(inst, st, choices, flag) == TrialStep(inst, before, choices[k])
    decreases |choices|
  {
    var k := |choices| - 1;
    if k > 0 {
      var step := TrialStep(inst, st, choices[0]);
      TrialsLastTrial(inst, step.state, choices[1..], step.flag);
      assert choices[1..][..k - 1] == choices[..k][1..];
      assert choices[1..][k - 1] == choices[k];
    }
  }

  /** The first entry the trial loop appends is the running cost it started from. */
  lemma TrialsFirstEntry(inst: Instance, st: State, choices: seq<Trial>, flag: bool)
    requires inst.Valid() && IsPermutation(st.solution, inst.n) && ValidTrials(inst.n, choices)
    requires |choices| > 0
    ensures
      && var res := Trials(inst, st, choices, flag).state;
      && |res.plotList| > |st.plotList|
      && res.plotList[|st.plotList|] == st.costFun
  {
    var step := TrialStep(inst, st, choices[0]);
    var next := step.state;
    TrialsTrajectory(inst, next, choices[1..], step.flag);
    var res := Trials(inst, next, choices[1..], step.flag).state;
    assert res == Trials(inst, st, choices, flag).state;
    var k := |st.plotList|;
    assert next.plotList[k] == st.costFun;
    assert res.plotList[..|next.plotList|][k] == st.costFun;
  }

  /** The trial loop over a non-empty list is its first trial followed by the loop over the rest. */
  lemma TrialsUnfold(inst: Instance, st: State, choices: seq<Trial>, flag: bool)
    requires inst.Valid() && IsPermutation(st.solution, inst.n) && ValidTrials(inst.n, choices)
    requires |choices| > 0
    ensures
      && var step := TrialStep(inst, st, choices[0]);
      && Trials(inst, st, choices, flag) == Trials(inst, step.state, choices[1..], step.flag)
  {
  }

  /** Each trial appends the running cost before it, and those costs never increase. */
  lemma {:induction false} TrialsNonIncreasing(inst: Instance, st: State, choices: seq<Trial>, flag: bool)
    requires inst.Valid() && IsPermutation(st.solution, inst.n) && ValidTrials(inst.n, choices)
    ensures NonIncreasingFrom(Trials(inst, st, choices, flag).state.plotList, |st.plotList|)
    decreases |choices|
  {
    if |choices| > 0 {
      var k := |st.plotList|;
      var step := TrialStep(inst, st, choices[0]);
      var s := Trials(inst, st, choices, flag).state.plotList;
      TrialsUnfold(inst, st, choices, flag);
      assert s == Trials(inst, step.state, choices[1..], step.flag).state.plotList;
      assert |step.state.plotList| == k + 1;
      TrialsNonIncreasing(inst, step.state, choices[1..], step.flag);
      TrialsFirstEntry(inst, st, choices, flag);
      if |choices| > 1 {
        TrialsFirstEntry(inst, step.state, choices[1..], step.flag);
        assert s[k + 1] == step.state.costFun <= st.costFun == s[k];
      }
      NonIncreasingStep(s, k);
    }
  }

  /**
    `stochastic_2_opt(iters)`: runs `iters` trials and reports the sentinel
    move `(delta 0, r 0, s 0)` when the last trial was accepted, "no move"
    otherwise. With fewer than two positions the first draw raises.
   */
  function Stochastic2Opt(inst: Instance, st: State, iters: nat, choices: seq<Trial>): (res: Proposal)
    requires inst.Valid() && IsPermutation(st.solution, inst.n)
    requires |choices| == iters && (inst.n >= 2 ==> ValidTrials(inst.n, choices))
    ensures res.outcome.Failed? <==> iters > 0 && inst.n < 2
    ensures res.outcome.Failed? ==> res.outcome.fault == EmptyRandomRange && res.state == st
    ensures iters == 0 ==> res == Proposal(NoMove, st)
    ensures res.outcome.Improve? ==> res.outcome.move == Move(0, 0, 0)
    ensures !res.outcome.Failed? ==>
      && IsPermutation(res.state.solution, inst.n)
      && res.state.solution == ReverseAll(st.solution, choices)
      && res.state.costFun <= st.costFun
      && |res.state.plotList| == |st.plotList| + iters
      && res.state.plotList[..|st.plotList|] == st.plotList
      && NonIncreasingFrom(res.state.plotList, |st.plotList|)
      && (iters > 0 ==> (res.outcome.Improve? <==> InSync(inst, res.state)))
  {
    if iters > 0 && inst.n < 2 then Proposal(Failed(EmptyRandomRange), st)
    else
      TrialsTrajectory(inst, st, choices, false);
      TrialsNonIncreasing(inst, st, choices, false);
      var TrialResult(next, flag) := Trials(inst, st, choices, false);
      Proposal(if flag then Improve(Move(0, 0, 0)) else NoMove, next)
  }

  /**
    The sentinel move of `stochastic_2_opt` is the source's acceptance test
    on the last trial: it is reported exactly when the last reversal, applied
    to the array the earlier trials left, costs no more than the running
    cost before that trial.
   */
  lemma Stochastic2OptLastTrial(inst: Instance, st: State, iters: nat, choices: seq<Trial>)
    requires inst.Valid() && IsPermutation(st.solution, inst.n)
    requires |choices| == iters && (inst.n >= 2 ==> ValidTrials(inst.n, choices))
    requires iters > 0 && inst.n >= 2
    ensures
      && var res := Stochastic2Opt(inst, st, iters, choices);
      && var before := Trials(inst, st, choices[..iters - 1], false).state;
      && var last := choices[iters - 1];
      && (res.outcome.Improve? <==> Cost(inst, ReverseSegment(before.solution, last.a, last.b)) <= before.costFun)
      && (res.outcome.Improve? <==> Trials(inst, st, choices, false).flag)
  {
    TrialsLastTrial(inst, st, choices, false);
  }

  /**
    One trial as evidently intended: the saved solution is a copy, so a
    rejection puts back the array as it was together with its cost. The
    flag is whether the trial was accepted.
   */
  function TrialStepRestoring(inst: Instance, st: State, t: Trial): (res: TrialResult)
    requires inst.Valid() && IsPermutation(st.solution, inst.n) && ValidTrial(inst.n, t)
    ensures IsPermutation(res.state.solution, inst.n)
    ensures res.flag <==> Cost(inst, ReverseSegment(st.solution, t.a, t.b)) <= st.costFun
    ensures res.state.solution == if res.flag then ReverseSegment(st.solution, t.a, t.b) else st.solution
    ensures res.state.plotList == st.plotList + [st.costFun]
    ensures res.state.costFun <= st.costFun
    ensures InSync(inst, st) ==> InSync(inst, res.state)
  {
    var prevCost := st.costFun;
    var solution := ReverseSegment(st.solution, t.a, t.b);
    ReverseSegmentPreservesPermutation(st.solution, inst.n, t.a, t.b);
    var newCost := Cost(inst, solution);
    if prevCost < newCost then TrialResult(State(st.solution, prevCost, st.plotList + [prevCost]), false)
    else TrialResult(State(solution, newCost, st.plotList + [prevCost]), true)
  }

  /**
    The trial loop with restoring rejections: the running cost never
    increases and, once it agrees with the objective, it keeps agreeing
    through every trial.
   */
  function TrialsRestoring(inst: Instance, st: State, choices: seq<Trial>, flag: bool): (res: TrialResult)
    requires inst.Valid() && IsPermutation(st.solution, inst.n) && ValidTrials(inst.n, choices)
    ensures IsPermutation(res.state.solution, inst.n)
    ensures |res.state.plotList| == |st.plotList| + |choices|
    ensures res.state.plotList[..|st.plotList|] == st.plotList
    ensures res.state.costFun <= st.costFun
    ensures InSync(inst, st) ==> InSync(inst, res.state)
    ensures InSync(inst, st) ==> Cost(inst, res.state.solution) <= Cost(inst, st.solution)
    decreases |choices|
  {
    if |choices| == 0 then TrialResult(st, flag)
    else
      var TrialResult(next, accepted) := TrialStepRestoring(inst, st, choices[0]);
      var res := TrialsRestoring(inst, next, choices[1..], accepted);
      assert res.state.plotList[..|st.plotList|] == st.plotList by {
        assert res.state.plotList[..|next.plotList|][..|st.plotList|] == st.plotList;
      }
      res
  }

  /**
    A rejected trial as written leaves the running cost out of step with the
    array: with `F[0][1] = 1` as the only flow and distances `D[0][1] = 1`,
    `D[0][2] = 3`, `D[1][2] = 5`, reversing all three positions of the
    identity costs 5 instead of 1, so the trial is rejected, the cost goes
    back to 1 and the array stays reversed. The restoring trial keeps both.
   */
  lemma AliasedRejectionDesyncs()
    ensures
      && var inst := DesyncInstance();
      && var st := State([0, 1, 2], 1, []);
      && InSync(inst, st)
      && TrialStep(inst, st, Trial(0, 2)) == TrialResult(State([2, 1, 0], 1, [1]), false)
      && !InSync(inst, TrialStep(inst, st, Trial(0, 2)).state)
      && TrialStepRestoring(inst, st, Trial(0, 2)) == TrialResult(State([0, 1, 2], 1, [1]), false)
  {
    var inst := DesyncInstance();
    var p, q := [0, 1, 2], [2, 1, 0];
    DesyncArrays();
    DesyncCosts();
    var st := State(p, 1, []);
    var res := TrialStep(inst, st, Trial(0, 2));
    assert res.state.solution == q;
    assert res.state.plotList == [1];
    assert res.state.costFun == 1;
    assert !res.flag;
  }

  /** The three-position instance of the rejected-trial example. */
  function DesyncInstance(): Instance
  {
    Instance(3, [[0, 1, 3], [1, 0, 5], [3, 5, 0]], [[0, 1, 0], [0, 0, 0], [0, 0, 0]])
  }

  /** The identity of three positions is a permutation, and reversing all of it gives `[2, 1, 0]`. */
  lemma DesyncArrays()
    ensures IsPermutation([0, 1, 2], 3)
    ensures ReverseSegment([0, 1, 2], 0, 2) == [2, 1, 0]
  {
    var p: seq<nat> := [0, 1, 2];
    assert IsPermutation(p, 3) by { assert forall v: nat :: v < 3 ==> p[v] == v; }
    var q := ReverseSegment(p, 0, 2);
    assert q[0] == 2 && q[1] == 1 && q[2] == 0;
    assert q == [2, 1, 0];
  }

  /** The identity costs 1 on the example instance, its full reversal 5. */
  lemma DesyncCosts()
    ensures DesyncInstance().Valid()
    ensures Cost(DesyncInstance(), [0, 1, 2]) == 1
    ensures Cost(DesyncInstance(), [2, 1, 0]) == 5
  {
    DesyncCostOf([0, 1, 2]);
    DesyncCostOf([2, 1, 0]);
  }

  /** On the example instance only the pair of positions 0 and 1 contributes. */
  lemma DesyncCostOf(p: seq<nat>)
    requires InRange(p, 3)
    ensures Cost(DesyncInstance(), p) == DesyncInstance().D[p[0]][p[1]]
  {
    var inst := DesyncInstance();
    CostOfThree(inst, p);
    assert PairCost(inst, p, 0, 1) == inst.D[p[0]][p[1]];
    assert PairCost(inst, p, 0, 2) == 0;
    assert PairCost(inst, p, 1, 0) == 0;
    assert PairCost(inst, p, 1, 2) == 0;
    assert PairCost(inst, p, 2, 0) == 0;
    assert PairCost(inst, p, 2, 1) == 0;
  }

  /** The objective of three positions, written out pair by pair. */
  lemma CostOfThree(inst: Instance, p: seq<nat>)
    requires inst.Valid() && inst.n == 3 && InRange(p, 3)
    ensures Cost(inst, p) ==
      PairCost(inst, p, 0, 1) + PairCost(inst, p, 0, 2) + PairCost(inst, p, 1, 0)
      + PairCost(inst, p, 1, 2) + PairCost(inst, p, 2, 0) + PairCost(inst, p, 2, 1)
  {
    forall i: nat | i < 3
      ensures RowCost(inst, p, i) == PairCost(inst, p, i, 0) + PairCost(inst, p, i, 1) + PairCost(inst, p, i, 2)
    {
      var f := RowTerms(inst, p, i);
      assert Sum(1, f) == f(0);
      assert Sum(2, f) == f(0) + f(1);
    }
    var g := CostTerms(inst, p);
    assert Sum(1, g) == g(0);
    assert Sum(2, g) == g(0) + g(1);
  }
}
