/**
  The mutable attributes of the search object — the solution array, the
  running cost `cost_fun` and the cost trajectory `plot_list` — and the
  update the search loop performs when a strategy proposes a move.
 */
module SearchState {
  import opened Permutations
  import opened CostModel
  import opened Scans

  datatype State = State(solution: seq<nat>, costFun: int, plotList: seq<int>)

  /** The running cost agrees with the objective of the array it describes. */
  predicate InSync(inst: Instance, st: State)
    requires inst.Valid() && InRange(st.solution, inst.n)
  {
    st.costFun == Cost(inst, st.solution)
  }

  /**
    Applying a proposed move: the entries at positions `r` and `s` trade
    places and every other position keeps its entry, the running cost moves
    by the delta, and the trajectory keeps its old entries and gains the new
    running cost as its last one.
   */
  function ApplyMove(st: State, m: Move): (res: State)
    requires m.r < |st.solution| && m.s < |st.solution|
    ensures |res.solution| == |st.solution|
    ensures res.solution[m.r] == st.solution[m.s] && res.solution[m.s] == st.solution[m.r]
    ensures forall i :: 0 <= i < |st.solution| && i != m.r && i != m.s ==> res.solution[i] == st.solution[i]
    ensures res.costFun - st.costFun == m.delta
    ensures |res.plotList| == |st.plotList| + 1 && res.plotList[..|st.plotList|] == st.plotList
    ensures res.plotList[|st.plotList|] == res.costFun
  {
    var cost := st.costFun + m.delta;
    State(Swap(st.solution, m.r, m.s), cost, st.plotList + [cost])
  }

  /**
    One pairwise step of the search loop with a move a scan proposed: the
    array stays a permutation, the running cost strictly drops and (with a
    symmetric `D`) stays equal to the objective, and the trajectory gains
    exactly the new running cost.
   */
  lemma ImprovingStep(inst: Instance, st: State, m: Move)
    requires inst.Valid() && Symmetric(inst.D, inst.n)
    requires IsPermutation(st.solution, inst.n) && InSync(inst, st)
    requires m.r < inst.n && m.s < inst.n
    requires m.delta == Delta(inst, st.solution, m.r, m.s) && m.delta < 0
    ensures IsPermutation(ApplyMove(st, m).solution, inst.n)
    ensures InSync(inst, ApplyMove(st, m))
    ensures ApplyMove(st, m).costFun < st.costFun
    ensures ApplyMove(st, m).plotList == st.plotList + [ApplyMove(st, m).costFun]
  {
    SwapPreservesPermutation(st.solution, inst.n, m.r, m.s);
    DeltaCorrect(inst, st.solution, m.r, m.s);
  }

  /**
    The sentinel move `(delta 0, r 0, s 0)` of the stochastic variant: the
    swap of position 0 with itself and the zero delta change nothing, and
    the trajectory gains the running cost once more.
   */
  lemma SentinelStep(st: State)
    requires |st.solution| > 0
    ensures ApplyMove(st, Move(0, 0, 0)) == State(st.solution, st.costFun, st.plotList + [st.costFun])
  {
    SwapSelf(st.solution, 0);
  }
}
