# Local search for the Quadratic Assignment Problem, in Dafny

This project models the `LocalSearch` engine of `algorithms/local_search.py`.
The engine improves a permutation `solution` of `n` positions. The QAP
objective it minimises is the sum over `i != j` of
`F[i][j] * D[solution[i]][solution[j]]`. The flow matrix `F` is indexed by
array position and the distance matrix `D` by the stored value.

The model has seven modules, one file each:

- `Sums` (sums.dfy): finite sums and the few rearrangement facts the proofs need.
- `Permutations` (permutations.dfy): solution arrays, the swap, the in-place segment reversal, `argsort`.
- `CostModel` (cost_model.dfy): `cost_function` and `delta_function`, both as loops and as pure definitions. It proves that the closed-form delta is the exact change of the objective when `D` is symmetric, and that every objective value lies above a floor computed from the matrices.
- `Scans` (scans.dfy): `first_improvement` and `best_improvement` with don't-look bits and the excluded row.
- `SearchState` (state.dfy): the search object's mutable triple `(solution, cost_fun, plot_list)` and the update `run` applies after a move.
- `Stochastic` (stochastic.dfy): `stochastic_2_opt`, as written and with a restoring rejection.
- `Search` (search.dfy): the `run` loop, split by strategy family.

The model states what the code does in four places where a reader might
expect something else:

- Without don't-look bits, the scans write to an array that was never created as soon as a row yields nothing. The model calls this fault `UnboundBits`.
- The saved solution is the very array that is then reversed. A rejection restores only the running cost.
- Only a strict increase is rejected: a trial whose reversal costs the same is accepted.
- The flag `stochastic_2_opt` returns reflects only the last trial's acceptance.

The first two are listed under "## Findings" with the behaviour they evidently intend.

Randomness is an input. The shuffled start is a parameter that must be a permutation. The draws of `stochastic_2_opt` are a list of `Trial(a, b)` values with `a < b < n`. The stochastic run takes one such list per strategy call and stops with `OutOfRandomness` when the lists run out.

## Model

| member | source | states |
|---|---|---|
| `CostModel.CostFunction` | algorithms/local_search.py:21-27 | The double loop returns exactly the QAP objective `Cost`: the sum over all ordered pairs `i != j` of `F[i][j] * D[p[i]][p[j]]`. |
| `CostModel.DeltaFunction` | algorithms/local_search.py:29-37 | The loop over third positions `k` returns the closed-form swap delta `Delta`, which `CostModel.DeltaCorrect` relates to the change of the objective. |
| `CostModel.DeltaCorrect` | algorithms/local_search.py:21-37 | With `D` symmetric, the delta for positions `r` and `s` equals the objective after swapping them minus the objective before. This also holds for `r == s`. |
| `CostModel.DeltaSymmetric` | algorithms/local_search.py:29-37 | `delta_function(r, s) == delta_function(s, r)` for every solution and every matrix, symmetric or not. |
| `CostModel.CostAboveFloor` | algorithms/local_search.py:21-27 | No arrangement's objective lies below `-(n * n * max abs F * max abs D)`, whatever the signs of the entries. This lower bound is what makes the pairwise run terminate. |
| `Permutations.Identity` | algorithms/local_search.py:16-18 | `np.arange(n)` is a permutation with `p[i] == i`. |
| `Permutations.Swap` | algorithms/local_search.py:53 | The fancy-index swap exchanges the entries at `r` and `s` and leaves all others unchanged. |
| `Permutations.SwapPreservesPermutation` | algorithms/local_search.py:53 | Swapping two positions of a permutation gives a permutation. |
| `Permutations.ReverseSegment` | algorithms/local_search.py:103-107 | Reversing the inclusive segment `[a, b]` puts `p[a + b - i]` at each `i` inside it and keeps every position outside it. |
| `Permutations.ReverseSegmentPreservesPermutation` | algorithms/local_search.py:103-107 | A segment reversal of a permutation is a permutation. |
| `Permutations.Argsort` | algorithms/local_search.py:58 | For a permutation `p`, `argsort(p)` is a permutation `q` that inverts `p` on both sides: `p[q[k]] == k` and `q[p[i]] == i`. |
| `Permutations.ArgsortRoundTrip` | algorithms/local_search.py:58 | Applying `argsort` twice to a permutation gives back the original array. |
| `Scans.FirstInRow` | algorithms/local_search.py:66-72 | The inner loop returns the first partner `s` that passes the test (`r != s`, bit of `s` clear, delta `< 0`), or nothing, and then no partner passes. |
| `Scans.FirstRows` | algorithms/local_search.py:63-74 | A move from the outer loop is a candidate pair with its exact delta. No earlier row, and no earlier partner in its row, has a candidate. |
| `Scans.FirstRowsExhausted` | algorithms/local_search.py:61-74 | With don't-look bits, the outer loop never faults. It finds nothing exactly when no row from `r` on has a candidate. |
| `Scans.FirstRowsWithoutBits` | algorithms/local_search.py:60-74 | Without don't-look bits, the scan decides at the first non-excluded row. It returns a move from that row, or faults when that row has no candidate. It reports "no move" only when no such row exists. |
| `Scans.FirstImprovement` | algorithms/local_search.py:60-74 | Returns the first candidate in row-major order with its delta `< 0`. It reports "no move" iff (with bits) no candidate exists at all. It faults iff bits are off and the first non-excluded row has no candidate. |
| `Scans.BestInRow` | algorithms/local_search.py:84-91 | The running minimum starts at 0. The inner loop returns the most improving passing partner of the row, the earliest one on ties, or nothing when none passes. |
| `Scans.BestRows` | algorithms/local_search.py:81-96 | A move is a candidate from the first row that has one, with the least delta in that row and no earlier partner of equal delta. |
| `Scans.BestRowsExhausted` | algorithms/local_search.py:79-96 | With don't-look bits, the outer loop never faults. It finds nothing exactly when no row from `r` on has a candidate. |
| `Scans.BestRowsWithoutBits` | algorithms/local_search.py:76-96 | Without don't-look bits, the scan returns a move from the first non-excluded row, faults when that row has no candidate, and reports "no move" only when no such row exists. |
| `Scans.BestImprovement` | algorithms/local_search.py:76-96 | Returns the best partner of the first row with a candidate, not the global best. Its delta is `< 0`, minimal within the row, and the earliest on ties. Its "no move" and fault conditions match `first_improvement`'s. |
| `Scans.ScansAgreeOnRow` | algorithms/local_search.py:60-96 | Both scans agree on whether there is a move and on its row. The best-improvement delta is at most the first-improvement delta, at a partner no earlier. |
| `Scans.FirstImprovementBound` | algorithms/local_search.py:60-74 | With the bit array always created, the first-improvement scan never faults. It reports "no move" iff no candidate pair exists. |
| `Scans.BestImprovementBound` | algorithms/local_search.py:76-96 | With the bit array always created, the best-improvement scan never faults. It reports "no move" iff no candidate pair exists. |
| `Scans.UnboundBitsOnSingleton` | algorithms/local_search.py:60-96 | On one position with bits off, both scans as written raise the unbound-bits fault. The bound versions report "no move". |
| `SearchState.ApplyMove` | algorithms/local_search.py:53-55 | The loop's update after a move: the entries at `r` and `s` trade places and all others stay, the running cost moves by exactly the delta, and the trajectory gains the new running cost behind its old entries. `SearchState.ImprovingStep` and `SearchState.SentinelStep` state what this means for the two kinds of move. |
| `SearchState.ImprovingStep` | algorithms/local_search.py:50-56 | Applying a scan's move keeps the array a permutation and, with `D` symmetric, keeps `cost_fun` equal to the objective. The cost strictly drops and the trajectory gains exactly the new cost. |
| `SearchState.SentinelStep` | algorithms/local_search.py:50-56 | The stochastic variant's sentinel `(0, 0, 0)` leaves array and cost unchanged and appends the running cost once more. |
| `Search.InitialSolution` | algorithms/local_search.py:16-19 | The start is a permutation: the identity with `eye`, otherwise the supplied shuffle. |
| `Search.PairwiseScan` | algorithms/local_search.py:46-49 | Dispatches to the selected scan. A move is a candidate with its exact delta. With bits on there is no fault, and "no move" means no candidate. |
| `Scans.NoCandidateIsLocalOptimum` | algorithms/local_search.py:60-96 | The don't-look bits and the excluded row lose no improving swap: when no pair is left for the scan to try, every swap of two distinct positions has a non-negative delta, because each skipped pair's mirror was tried and has the same delta. |
| `Search.NoMoveIsLocalOptimum` | algorithms/local_search.py:46-58 | With `D` symmetric, a pairwise scan reports "no move" only at a local optimum of the swap neighbourhood, with or without bits. Without bits "no move" happens only on at most one position. |
| `Search.FinishedIsLocalOptimum` | algorithms/local_search.py:45-58 | With `D` symmetric, a pairwise run that finishes leaves an array that no swap of two positions improves. |
| `Search.PairwiseStepKeeps` | algorithms/local_search.py:50-56 | With `D` symmetric, one pairwise step preserves the loop invariant. The array stays a permutation and the cost stays in sync, strictly drops and stays above the floor. The trajectory keeps its prefix, stays strictly decreasing and ends at the running cost. |
| `Search.Descend` | algorithms/local_search.py:39-58 | The pairwise loop as a recursive definition, for `D` symmetric so that the running cost strictly drops: scan with the current excluded row; on a move, swap, add the delta, append and exclude the move's `r` for the next scan; finish with the `argsort` on "no move". It never runs out of draws, always finishes with bits on, and faults only with `UnboundBits` and bits off. |
| `Search.DescendKeeps` | algorithms/local_search.py:50-58 | With `D` symmetric, from any in-sync permutation the loop keeps a permutation whose objective equals the running cost, keeps the old trajectory in front and appends a strictly decreasing run of costs ending at the final cost. A finished run ends where the selected scan reports "no move" and answers the `argsort`. |
| `Search.RunPairwise` | algorithms/local_search.py:39-58 | With `D` symmetric the pairwise `run` terminates and its result is `Search.Descend` from the start with no excluded row, so every step uses the selected scan and excludes the row just moved. Its final array is a permutation whose objective equals `cost_fun`, no more than the start's. It appends a strictly decreasing trajectory ending at `cost_fun`. With bits on it always finishes, with the last scan reporting "no move". A finished run ends at a local optimum: no swap of two positions lowers the final objective. It returns the `argsort` inverse. A fault happens only without bits. |
| `Search.RoundsLengthIsProduct` | algorithms/local_search.py:55 | `calls` strategy calls of `iters` trials, each followed by the loop's own append, add `calls * (iters + 1)` trajectory entries. |
| `Search.StochasticRoundKeeps` | algorithms/local_search.py:46-56 | One stochastic strategy call plus the loop's update keeps the array a permutation and the cost under the starting bound. It grows the trajectory by `iters + 1` when it reports the sentinel move, or by `iters` when it reports no move. A raise is covered by `Search.StochasticRunEnds`. |
| `Search.StochasticRun` | algorithms/local_search.py:39-58 | The stochastic loop as a recursive definition over the rounds of draws: on the sentinel move it applies the move, excludes row 0 and calls again, so the run goes on after a "moved" report. It finishes only at the first "no move", stops at a fault, and runs out of draws only after using every round. |
| `Search.StochasticRunKeeps` | algorithms/local_search.py:46-58 | Every stochastic run keeps a permutation whose running cost never exceeds the start's and keeps the old trajectory in front. A finished run after `c` calls has appended `c * (iters + 1) - 1` entries and answers the `argsort`; a run that runs out of draws after `c` calls has appended `c * (iters + 1)`. |
| `Search.StochasticRunEnds` | algorithms/local_search.py:46-58 | A raise can come only from the first call, exactly when trials are asked for on fewer than two positions, and it is `EmptyRandomRange`. With no trials the run finishes at the first call with the state unchanged. |
| `Search.StochasticCall` | algorithms/local_search.py:46-57 | One iteration of the stochastic loop: the strategy's "no move" or fault ends the run in exactly that one call (finished with the `argsort`, or raised), while a sentinel report yields a permutation and an excluded row from which the rest of `Search.StochasticRun` continues, one call more. |
| `Search.StochasticLoop` | algorithms/local_search.py:45-58 | The `while True` loop of the stochastic `run` returns exactly `Search.StochasticRun` from its state, with the number of strategy calls it made. |
| `Search.RunStochastic` | algorithms/local_search.py:39-58 | The stochastic `run` equals `Search.StochasticRun` from the start with no excluded row: it continues after each sentinel report and finishes at the first "no move". It raises iff there is a call, `iters > 0` and `n < 2`. Otherwise it keeps a permutation whose cost never exceeds the start's. On finishing after `c` calls it has appended `c * (iters + 1) - 1` entries and returns the `argsort`; with `iters == 0` it finishes at once without appending. |
| `Stochastic.ReverseAllPreservesPermutation` | algorithms/local_search.py:100-107 | Reversing any sequence of drawn segments in turn keeps the array a permutation. |
| `Stochastic.TrialStep` | algorithms/local_search.py:101-113 | One trial as written reverses the segment and keeps it, accepted or not. It appends the pre-trial cost. It accepts iff the reversed array costs no more than the running cost; on acceptance the running cost becomes that objective, on rejection it is restored to its old value exactly. It is accepted iff the running cost afterwards equals the objective of the array. |
| `Stochastic.Trials` | algorithms/local_search.py:100-113 | The trial loop leaves the array reversed by every drawn segment in turn, still a permutation. Its final flag is the last trial's acceptance: true iff the running cost matches the final array. |
| `Stochastic.TrialsTrajectory` | algorithms/local_search.py:104-112 | The trial loop appends exactly one entry per trial behind the old trajectory and ends with a running cost no higher than at the start. |
| `Stochastic.TrialsFirstEntry` | algorithms/local_search.py:104-106 | The first appended entry is the running cost before the loop. |
| `Stochastic.TrialsNonIncreasing` | algorithms/local_search.py:104-112 | The entries appended by the trial loop never increase. |
| `Stochastic.TrialsLastTrial` | algorithms/local_search.py:100-113 | Running all draws is running all but the last one and then one more trial, so the loop's final state and flag are those of its last trial. |
| `Stochastic.Stochastic2Opt` | algorithms/local_search.py:98-116 | Faults iff `iters > 0` and `n < 2`. With `iters == 0` it reports "no move" and changes nothing. Otherwise the array is reversed by every draw, the cost does not rise, `iters` non-increasing entries are appended, and it reports the sentinel move iff the last trial left cost and objective in agreement. `Stochastic.Stochastic2OptLastTrial` restates the flag as the acceptance test of the last trial. |
| `Stochastic.Stochastic2OptLastTrial` | algorithms/local_search.py:108-116 | With `iters > 0` and `n >= 2`, the sentinel move is reported iff the last drawn reversal, applied to the array the earlier trials left, costs no more than the running cost before that trial, which is the flag of the trial loop. |
| `Stochastic.TrialStepRestoring` | algorithms/local_search.py:104-113 | With a real copy of the saved solution, a trial is accepted iff the reversed array costs no more. A rejection restores the old array, and cost and objective stay in agreement. |
| `Stochastic.TrialsRestoring` | algorithms/local_search.py:100-113 | With restoring rejections the trial loop keeps a permutation and a non-increasing cost. It preserves agreement between running cost and objective, so the objective itself does not rise. |
| `Stochastic.AliasedRejectionDesyncs` | algorithms/local_search.py:105-112 | On a three-position instance a rejected trial as written leaves cost 1 on an array whose objective is 5. The restoring trial keeps both at 1. |

## Left out

- `plot` (algorithms/local_search.py:118-124) draws with matplotlib. It is user interface only.
- The module-level script and the commented-out example (algorithms/local_search.py:128-163) print results. They are I/O only.
- `np.random.permutation` and `np.random.randint` (algorithms/local_search.py:19, 101-102) become parameters. Their ranges are stated as preconditions: a permutation, and `a < b < n`.
- The method-name dispatch through `getattr` and `deepcopy`, and the substring test on the name (algorithms/local_search.py:40-41, 46), become the `Strategy` datatype.
- Entries are unbounded integers. Floating-point matrices and numpy's fixed-width integer wrap-around are not modelled.
- The search object's fields become the `State` value, and the run returns the final state next to the assignment. The constructor (algorithms/local_search.py:8-14) becomes the `Instance` datatype.
- `Search.PairwiseStepKeeps`: requires a symmetric `D`, for the reason given for `Search.RunPairwise`.
- `Search.Descend`: requires a symmetric `D`, for the reason given for `Search.RunPairwise`.
- `Search.DescendKeeps`: requires a symmetric `D`, for the reason given for `Search.RunPairwise`.
- `Search.NoMoveIsLocalOptimum`: requires a symmetric `D`, for the reason given for `Search.RunPairwise`.
- `Search.FinishedIsLocalOptimum`: requires a symmetric `D`, for the reason given for `Search.RunPairwise`.
- `Search.RunPairwise`: requires a symmetric `D`. With an asymmetric `D` the closed-form delta is not the change of the objective, so the running cost drifts from it. The model does not establish termination in that case.
- `Search.RunStochastic`: ends when the supplied draws run out. The source's loop has no such bound and need not terminate, because equal-cost trials are accepted and the running cost can drift from the array. The model does not claim that cost and objective stay in agreement.

## Findings

| source | as written | input that shows it | evidently intended | confidence | as-written member | corrected member |
|---|---|---|---|---|---|---|
| algorithms/local_search.py:60-74 | `bits` is created only when `dlb` is set, yet `bits[r] = 1` runs after every row without improvement, so `dlb=False` raises as soon as the first scanned row yields nothing | `n = 1`, `D = F = [[0]]`, `except_fac = -1`, `dlb = False` | a row without improvement passes on to the next row, and `None` means no improving pair exists | not executed | `Scans.FirstImprovement`, `Scans.UnboundBitsOnSingleton` | `Scans.FirstImprovementBound` |
| algorithms/local_search.py:76-96 | the same unbound write at the `else` branch of the row loop | `n = 1`, `D = F = [[0]]`, `except_fac = -1`, `dlb = False` | a row without improvement passes on to the next row, and `None` means no improving pair exists | not executed | `Scans.BestImprovement`, `Scans.UnboundBitsOnSingleton` | `Scans.BestImprovementBound` |
| algorithms/local_search.py:105-112 | `prev_solution` names the array that is reversed in place, so a rejection puts back the cost but not the order | `n = 3`, `F[0][1] = 1` and all other flows 0, `D[0][1] = 1`, `D[0][2] = 3`, `D[1][2] = 5` (symmetric), identity start, trial `(a, b) = (0, 2)` | a rejected trial restores the previous array, so the running cost stays the objective | not executed | `Stochastic.TrialStep`, `Stochastic.AliasedRejectionDesyncs` | `Stochastic.TrialStepRestoring`, `Stochastic.TrialsRestoring` |

The driver `Search.RunPairwise` and `Search.RunStochastic` use the as-written
scans and trials, so that the model of `run` matches the code. The corrected
members stand beside them with their properties proved.
