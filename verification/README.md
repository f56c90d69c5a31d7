# s3-2023 metaheuristics in Dafny

A model of the metaheuristic framework of the s3-2023 repository and of the problems solved
with it. The model has three parts.

- **Search algorithms** (`src/api/*.py`). They work against an abstract solution protocol:
  - construction searches: heuristic construction, greedy construction, beam search, GRASP,
    ant system and MAX-MIN ant system;
  - local searches: best improvement, first improvement, random local search, iterated local
    search and simulated annealing;
  - the sampling utilities: the non-repeating linear congruential generator behind `sample`
    and `sample2`, `argmin`, `argmax`, `isclose` and `pairwise`.
- **Problem encodings.**
  - The waste-collection problem of `src/base.py`: the parser of the instance file, the route
    objective, and the solution state.
  - The 3D-printing problem of `src/3dprinting.py`: the parser, feasibility, the objective
    and the lower bound, `copy`, the add moves, and the two enumerations of the local moves
    (segment reversals).
- **Evaluators** (`src/evaluators/*.py`). Each reads an instance and a candidate answer and
  scores it or rejects it:
  - waste collection;
  - 3D printing;
  - candle race;
  - community detection;
  - laptop assembly;
  - campus network.

Conventions used throughout:

- **The solution protocol.** The Python duck-typed protocol becomes a record of total
  functions: `Contract.Builder` for construction and `Contract.Mover` for local search.
  `Contract.Valid` states what the algorithms assume of it: a feasible solution has an
  objective value, and adding an offered component makes the solution strictly smaller, so
  every construction ends. `add` and `step` return the new solution instead of changing it in
  place.
- **Time.** The wall-clock budget is a counter `clock` against a `budget`. Each
  `perf_counter()` check reads the clock once and advances it. The search ends when the budget
  is spent.
- **Randomness.** `random` becomes an `Oracle` (`Contract.Oracle`) that is read by draw
  number. `below(k, n)` is the k-th `randbelow(n)` and `unit(k)` the k-th `random()`. The
  algorithms thread the draw counter through.
- **Exceptions.** A Python exception becomes `Raised(e)` of `Wrappers.Run` (`IndexError`,
  `ValueError`, `TypeError`, `ZeroDivisionError`). `None` becomes `Option`.
- **Numbers.** Floating point is modelled by `real`. `math.isclose` is `Utils.IsClose`, with
  the tolerances of `utils.isclose` (relative 1e-6, absolute 1e-9). Functions the model cannot
  compute (`exp`, `sqrt`, `**`) are parameters.
- **Runs.** Each search loop has a definition of its whole run, built from one pass of the
  loop: `Sa.Walk`, `Ils.Iterated`, `LocalSearch.Descent`, `BestImprovement.Trail` with
  `BestImprovement.Clocked`, `BeamSearch.Rounds`, `Grasp.Repeated`, `AntSystem.Rounds` and
  `Mmas.Iterations`. The methods return the steps they took as ghost results, and their
  contracts say that these steps are that run.
- **Text files.** Text files are already split into integer rows (`Text.Row`, `Text.Block`) or
  into parsed output lines (`Text.Parsed`).

## Model

| member | source | states |
|---|---|---|
| Utils.IsCloseToZero | src/api/utils.py:64-65 | `isclose(x, 0)` holds exactly when abs(x) <= 1e-9: against zero only the absolute tolerance counts |
| Utils.IsCloseReflexiveSymmetric | src/api/utils.py:64-65 | `isclose` is reflexive and symmetric |
| Utils.CloseBetween | src/api/utils.py:64-65 | if d <= x <= y <= 0 and d is close to y, then d is close to x |
| Utils.Argmin | src/api/utils.py:32-33 | `argmin(v)` is the index of the first least element: nothing is below it, and everything before it is strictly greater; there is no index for an empty list |
| Utils.Argmax | src/api/utils.py:29-30 | `argmax(v)` is the index of the first greatest element: nothing is above it, and everything before it is strictly smaller; there is no index for an empty list |
| Utils.OrDefault | src/api/utils.py:35-36 | `or_default(v, default)` is v when v is not None, else `default()` |
| Utils.Pairwise | src/api/utils.py:69-72 | `pairwise(s)` has one pair less than s (none for an empty s), and pair k is (s[k], s[k+1]) |
| Utils.Below | src/api/utils.py:49 | `if x < n: yield x` keeps exactly the iterates below n |
| Utils.CeilLog2Least | src/api/utils.py:44 | 2^ceil(log2 n) is the least power of two that is at least n |
| Utils.Modulus | src/api/utils.py:44 | the modulus `1 << ceil(log2(n))` is at least n |
| Utils.Increment | src/api/utils.py:46 | `randrange(1, m, 2)` gives an odd increment in [1, m) |
| Utils.IncrementReachesAllOdd | src/api/utils.py:46 | every odd increment in [1, m) is drawn by some draw |
| Utils.Start | src/api/utils.py:47 | `randrange(m)` gives a start in [0, m) |
| Utils.OrbitSeq | src/api/utils.py:48-50 | the m iterates of x -> (5x + c) mod m, in order |
| Utils.OrbitIsPermutation | src/api/utils.py:43-50 | with an odd increment and a start in range, the 2^k iterates visit every value of [0, 2^k) exactly once |
| Utils.NonRepeatingLcg | src/api/utils.py:38-52 | `non_repeating_lcg(n)` yields the stream LcgStream names: nothing for n <= 0 and [0] for n = 1. Otherwise it yields the iterates of the generator that are below n, in order. Either way (n >= 1) it yields each of 0..n-1 exactly once |
| Utils.Sample | src/api/utils.py:54-56 | `sample(n)` yields each of 0..n-1 exactly once, and nothing for n <= 0 |
| Utils.DecodeRoundTrip | src/api/utils.py:60-61 | `(v // m, v % m)` recovers (i, j) from v = i*m + j |
| Utils.DecodeInGrid | src/api/utils.py:60-61 | every v in [0, n*m) decodes to a cell (i, j) of the n-by-m grid with v = i*m + j |
| Utils.DecodeGrid | src/api/utils.py:58-62 | decoding a permutation of [0, n*m) gives every cell of the n-by-m grid exactly once |
| Utils.FloorBounds | src/api/utils.py:60-61 | Python's `//` rounds toward minus infinity: for m > 0, v lies in [m*(v//m), m*(v//m) + m), for m < 0 in (m*(v//m) + m, m*(v//m)]; `v % m` takes the sign of m, is smaller than m in magnitude, and v == m*(v//m) + v%m |
| Utils.DecodeInverts | src/api/utils.py:60-61 | for any non-zero m (negative too), `(v // m, v % m)` recovers (i, j) from v = i*m + j when j is a remainder of m (of m's sign, below it in magnitude) |
| Utils.DecodeAll | src/api/utils.py:58-62 | for any non-zero m, decoding a duplicate-free enumeration of [0, n*m) gives distinct pairs, exactly the (i, j) with j a remainder of m and 0 <= i*m + j < n*m |
| Utils.Sample2 | src/api/utils.py:58-62 | `sample2(n, m)` yields Sample2Pairs: (v // m, v % m) for each v of LcgStream(n*m), in that order. It yields nothing when n*m <= 0. For n, m >= 1 it yields each pair (i, j) with 0 <= i < n and 0 <= j < m exactly once. For any n*m >= 1, negative factors included, it yields n*m distinct pairs, exactly the (i, j) with j a remainder of m under Python's `%` and 0 <= i*m + j < n*m |
| FullPeriod.Orbit | src/api/utils.py:50 | every iterate after the start lies in [0, m) |
| FullPeriod.OrbitClosedForm | src/api/utils.py:50 | the t-th iterate of x -> (5x + c) mod m is (5^t x + c(1 + 5 + ... + 5^(t-1))) mod m |
| FullPeriod.NoShortCycle | src/api/utils.py:43-50 | with m = 2^k and c odd, no iterate returns to itself in fewer than m steps |
| FullPeriod.FullPeriodDistinct | src/api/utils.py:43-50 | with m = 2^k and c odd, the first m iterates are pairwise distinct (full period, Hull-Dobell) |
| Text.Row | src/base.py:246-247 | reading past the end of the file gives an empty line |
| Text.Block | src/evaluators/waste_collection.py:28-31 | a block of `count` consecutive lines from `start` (none for count <= 0), line j of it being line start + j |
| Text.At | src/base.py:89 | `m[i][j]` is defined exactly when row i and column j exist, and is then that entry; otherwise it raises IndexError |
| Text.Parsed | src/evaluators/candle_race.py:45-50 | lines that do not parse are skipped, so there are never more values than lines |
| Text.ParsedPrefix | src/evaluators/candle_race.py:45-50 | parsing more lines only extends what was parsed |
| Contract.Below | src/api/grasp.py:63 | the k-th `randbelow(n)` is below n, and is the oracle's answer when that answer is in range |
| Contract.Choice | src/api/grasp.py:63 | `random.choice(xs)` returns an element of xs |
| Contract.ChoiceReaches | src/api/grasp.py:63 | every element of a non-empty list is chosen by the draw that selects its index |
| Incumbent.TrackSnoc | src/api/beam_search.py:74-77 | offering one more candidate applies the update `if bestobj is None or obj < bestobj: best, bestobj = s, obj` once more |
| Incumbent.TrackLeast | src/api/beam_search.py:74-77 | the tracked objective exists iff a start value existed or some candidate was offered. It never exceeds the start value or any offered value |
| Incumbent.TrackFirst | src/api/beam_search.py:74-77 | the incumbent is the start, or the FIRST candidate of least objective, which strictly beat the start and everything offered before it |
| Incumbent.TrackSource | src/api/beam_search.py:74-77 | the incumbent is the start or one of the offered candidates, with its own objective |
| LocalSearch.AcceptsBound | src/api/first_improvement.py:44 | a strictly improving increment (`incr < 0 and not isclose(incr, 0)`) is below -1e-9; an increment RLS accepts (`delta < 0 or isclose(delta, 0.0)`) is at most 1e-9 |
| LocalSearch.FirstIndex | src/api/first_improvement.py:42-47 | the position the enumeration stops at is the first move the rule accepts. No earlier move is accepted, and no position means no move is accepted |
| LocalSearch.FirstIndexAt | src/api/first_improvement.py:42-47 | an accepted position with nothing accepted before it is the one the enumeration stops at |
| LocalSearch.FirstIndexBeyond | src/api/first_improvement.py:42-47 | when none of the first i moves is acceptable, the first acceptable one, if any, comes at i or later, and there is none when i covers all the moves |
| LocalSearch.Rejections | src/api/first_improvement.py:42-49 | an enumeration rejects at most all of its moves, and exactly the moves before the first acceptable one when there is one |
| LocalSearch.ExhaustedIsOptimum | src/api/first_improvement.py:50-51 | when `random_local_moves_wor` lists the same moves as `local_moves`, a full enumeration without an accepted move means that no local move is acceptable (a local optimum), and conversely |
| LocalSearch.DescentAt | src/api/first_improvement.py:41-47 | each applied move is the first acceptable move of its own enumeration |
| LocalSearch.DescentAccepted | src/api/first_improvement.py:41-47 | every applied move is accepted by the rule from the solution it was applied to |
| LocalSearch.AcceptedObjective | src/api/first_improvement.py:44-46 | when `objective_incr_local` agrees with `step`, strict steps lower the objective by more than 1e-9 each (so strictly, when there is one). Lenient steps raise it by at most 1e-9 each |
| LocalSearch.Scan | src/api/first_improvement.py:42-49 | one enumeration either finds no acceptable move, applies the first acceptable one, or stops because the budget is spent. The clock never passes the budget |
| LocalSearch.Descend | src/api/first_improvement.py:38-52 | the result is the solution after the applied moves, each the first acceptable move of its own enumeration, and the clock readings they took fit the budget. The loop stops on a local optimum (an enumeration with nothing acceptable) exactly when that last enumeration fit in the budget; otherwise it stopped because the budget ran out. A zero budget returns the solution unchanged |
| FirstImprovement.FirstImprovement | src/api/first_improvement.py:38-52 | `first_improvement`: a descent of strictly improving moves, each the first acceptable move of its enumeration, within the budget. It stops on an optimum exactly when the last enumeration fit in the budget, and otherwise because the budget ran out. On an optimum no local move improves (when the enumeration is complete). With consistent increments the objective drops by more than 1e-9 per step; a zero budget changes nothing |
| Rls.Rls | src/api/rls.py:38-52 | `rls`: a descent of non-worsening moves, each the first acceptable move of its enumeration, within the budget. It stops on an optimum exactly when the last enumeration fit in the budget, and otherwise because the budget ran out. On an optimum every local move worsens by more than the tolerance. The objective rises by at most 1e-9 per step; a zero budget changes nothing |
| BestImprovement.Deltas | src/api/best_improvement.py:43-44 | the increments of the moves, in `local_moves` order |
| BestImprovement.FarFromZero | src/api/best_improvement.py:45 | an increment below best_incr <= 0 and not close to it is not close to 0 |
| BestImprovement.BestScan | src/api/best_improvement.py:41-47 | best_incr starts at 0 and never rises above it; with no move kept it is 0, and a kept move sits at its own position with a strictly improving increment |
| BestImprovement.BestScanLeast | src/api/best_improvement.py:41-47 | every scanned increment is at least the kept one, or close to it |
| BestImprovement.BestScanNone | src/api/best_improvement.py:41-47 | nothing is kept exactly when no increment is strictly improving |
| BestImprovement.BestScanFirst | src/api/best_improvement.py:41-47 | among equal increments the first is kept |
| BestImprovement.PickedImproves | src/api/best_improvement.py:41-49 | a move a round keeps is a local move of the solution with a strictly improving increment |
| BestImprovement.CompleteScanNone | src/api/best_improvement.py:41-51 | a round that scanned every local move and kept none means that no local move strictly improves: a local optimum |
| BestImprovement.Window | src/api/best_improvement.py:41-49 | a round scans all the local moves, or as many as the clock readings left in the budget allow, whichever is fewer |
| BestImprovement.TrailAt | src/api/best_improvement.py:40-54 | each applied move is the move its round kept; every round but the last scanned all the local moves |
| BestImprovement.TrailAccepted | src/api/best_improvement.py:40-54 | every applied move is strictly improving |
| BestImprovement.Round | src/api/best_improvement.py:41-49 | one round scans the moves in order until the budget is spent (fewer than all only then). The move kept is the BestScan of the scanned increments |
| BestImprovement.Advance | src/api/best_improvement.py:38-54 | one pass of the main loop: a kept move is applied and advances the clock; when nothing is kept the state is unchanged and the scanned window kept nothing. The search ends on an optimum exactly when that window was all of the local moves, and then no local move strictly improves |
| BestImprovement.BestImprovement | src/api/best_improvement.py:38-55 | `best_improvement`: the applied moves are the rounds' kept moves, and each round scanned all the local moves or, cut off by the budget, as many as the clock allowed, its best move being applied all the same. The loop stops on an optimum exactly when the last round scanned every local move and kept none, and then no local move improves; otherwise it stopped because the budget ran out. A local optimum is returned unchanged. With consistent increments the objective drops by more than 1e-9 per step |
| HeuristicConstruction.Heuristic | src/api/heuristic_construction.py:28-33 | the result adds, in order, exactly the components `heuristic_add_move` proposes, until it proposes None. A solution with no proposal is returned unchanged |
| GreedyConstruction.FirstLeast | src/api/greedy_construction.py:39-43 | `min(..., default=None, key=itemgetter(0))` over the defined increments: None iff none is defined; otherwise the first least defined one |
| GreedyConstruction.Increments | src/api/greedy_construction.py:40-41 | `lower_bound_incr_add` of each add move, in `add_moves` order |
| GreedyConstruction.GreedyPick | src/api/greedy_construction.py:39-45 | the component added is an add move whose increment is defined and least, the first such in `add_moves` order. None iff no increment is defined |
| GreedyConstruction.Greedy | src/api/greedy_construction.py:37-48 | `greedy_construction`: each added component is the GreedyPick of the solution built so far, and the result has no pick left |
| Ils.Final | src/api/ils.py:52-57 | `solution if obj < best_obj else best`: never worse than the incumbent, and the working solution only when strictly better |
| Ils.ChainDescends | src/api/ils.py:60-64 | when no incumbent was replaced by a worse one, the last incumbent objective is at most the first |
| Ils.Round | src/api/ils.py:45-67 | one pass of the main loop advances the clock within the budget. A pass that continues keeps the run on Iterated from its new state; a pass that stops because the budget ran out mid-enumeration returns what Iterated returns (Final of the working solution and the incumbent), with the incumbents recorded so far |
| Ils.Ils | src/api/ils.py:41-72 | `ils`: the result is exactly the one Iterated, the step function of the main loop, gives from the start, and the incumbents' objectives are the initial objective followed by the objectives Iterated records. Each incumbent objective is not above the one before it or is close to it; the result is never worse than the last incumbent (so never worse than the initial solution when no replacement was merely close). A zero budget returns the solution |
| Sa.LinearDecay | src/api/sa.py:40-45 | `LinearDecay(init_temp)(t)` is init_temp at t = 1 and 0 at t = 0; with init_temp > 0 it is positive exactly for t > 0 |
| Sa.ExponentialAcceptance | src/api/sa.py:47-55 | 1.0 for a non-worsening move; `exp(-incr / t)` otherwise, which raises ZeroDivisionError exactly when t = 0 |
| Sa.NonWorseningAccepted | src/api/sa.py:82 | a non-worsening move passes `acceptance(incr, t) >= random.random()` for every draw in [0, 1) |
| Sa.Scan | src/api/sa.py:77-89 | the rest of an enumeration from move j never moves the draw count, the clock reading or the move index backwards; how it stops is ScanStops, what it spends is ScanCounts and what it passes over is ScanRejects |
| Sa.ScanStops | src/api/sa.py:77-89 | an enumeration stops at an index n within the moves. Running out of moves finds nothing. An accepted move is move n, with a positive temperature and a passing draw at the reading and draw number reached after the n - j moves before it. Stopping on a move without accepting it means the temperature read there was not positive. An error is the one acceptance raised on move n's increment at that temperature |
| Sa.ScanCounts | src/api/sa.py:77-89 | an enumeration from move j that stopped at index n took one draw per move passed over plus one for an accepted move, and one clock reading per move passed over plus one for the move it stopped at |
| Sa.ScanRejects | src/api/sa.py:78-82 | every move an enumeration passed over was rejected: the temperature at its own clock reading was positive and its acceptance fell below its own draw |
| Sa.Pass | src/api/sa.py:77-89 | one enumeration `for move in solution.random_local_moves_wor()` from s, started at clock reading clock with the next draw, returns exactly the outcome, draw count, clock reading and stopping index that Scan gives for those moves, so ScanStops, ScanCounts and ScanRejects describe it |
| Sa.FollowsPass | src/api/sa.py:76-89 | a pass of the main loop moves the run on: a raising pass ends Walk with that error and no further step; a pass that found nothing leaves the solution as is at the new draw count and clock reading; an accepted move is the next step of Walk, applied to the solution |
| Sa.Visit | src/api/sa.py:83-88 | applying an accepted move extends the trajectory by the stepped solution, and the best stays the first state of least objective: it moves to the new state only on a strict improvement |
| Sa.Round | src/api/sa.py:76-89 | one pass of `while perf_counter() - start < budget` advances the clock and keeps the trajectory and its best. A pass that raised has ended the run as Walk says (its error and the steps so far); otherwise the rest of the run is still Walk from the new state |
| Sa.WalkRaises | src/api/sa.py:82 | an error that ends a run is one that the acceptance function raised for some increment and temperature |
| Sa.Sa | src/api/sa.py:57-90 | `sa`: the moves applied are exactly those of Walk, the step function of the main loop from the start; a run raises exactly when Walk ends in an error, and then with that error, which acceptance raised (WalkRaises). The trajectory is the initial solution followed by each applied step, and the result is its first state of least objective, so never worse than the initial solution. A zero budget returns the solution |
| Grasp.CandidateList | src/api/grasp.py:57 | C lists (increment, component) for every add move, in `add_moves` order; it is undefined (None) exactly when some increment is None |
| Grasp.MinIncr | src/api/grasp.py:59 | cmin is an increment of C and no increment of C is below it |
| Grasp.MaxIncr | src/api/grasp.py:60 | cmax is an increment of C and no increment of C is above it |
| Grasp.MinMaxAttained | src/api/grasp.py:59-60 | cmin and cmax are increments of some member of a non-empty C |
| Grasp.Rcl | src/api/grasp.py:62 | the RCL holds exactly the components of C whose increment is at most thresh: all of C when every increment qualifies, none when none does |
| Grasp.RclFacts | src/api/grasp.py:62 | every component of C whose increment is at most thresh is in the list, every member of the list is such a component, the list is all of C when every increment qualifies and empty when none does |
| Grasp.Comps | src/api/grasp.py:62 | the components of C, in order |
| Grasp.RclKeepsMinimum | src/api/grasp.py:59-62 | for alpha >= 0 every least-increment component is in the RCL, so `random.choice` never sees an empty list |
| Grasp.RclGreedy | src/api/grasp.py:59-62 | with alpha = 0 an increment passes the threshold exactly when it is the least one: the construction is greedy |
| Grasp.RclAll | src/api/grasp.py:59-62 | with alpha = 1 the threshold is cmax and the RCL is every component of C: the construction is uniformly random |
| Grasp.RclEmpty | src/api/grasp.py:59-63 | with alpha < 0 and distinct increments the RCL is empty, so `random.choice` raises IndexError |
| Grasp.ChosenIsMove | src/api/grasp.py:62-64 | a component drawn from the RCL is an add move of the current solution |
| Grasp.PickFacts | src/api/grasp.py:56-64 | a pass of the construction loop ends it exactly when C is empty, raises TypeError exactly when an increment is None, raises IndexError only when alpha < 0, and otherwise picks a member of the restricted candidate list |
| Grasp.PickIs | src/api/grasp.py:59-64 | a pass that finds a non-empty C and a non-empty list picks what `random.choice` draws from the list |
| Grasp.BuiltSnoc | src/api/grasp.py:56-66 | a construction trace extended by the next pass's pick is still a trace |
| Grasp.BuiltPick | src/api/grasp.py:59-66 | a construction trace extended by what `random.choice` draws from the next list is still a trace |
| Grasp.BuiltInRcl | src/api/grasp.py:56-66 | every component a construction added was in the restricted candidate list of the solution it was added to |
| Grasp.FeasiblesSnoc | src/api/grasp.py:64-68 | one more addition records the new solution with its objective exactly when it is feasible |
| Grasp.RepStep | src/api/grasp.py:64-68 | after adding c, the repetition's (b, bobj) is the old pair offered the new solution when that is feasible, and unchanged otherwise |
| Grasp.Repetition | src/api/grasp.py:55-69 | one construction adds RCL members only, and ends when no add move is left. (b, bobj) is the best feasible solution met, starting from the copy's own. It raises only TypeError (a None increment or objective), or IndexError from an empty RCL when alpha < 0 |
| Grasp.EndAsWrittenLosesBest | src/api/grasp.py:70-77 | as written, when a local search returns None for a feasible b, `best` becomes None while `bestobj` keeps a value |
| Grasp.EndKeepsWellFormed | src/api/grasp.py:70-77 | the corrected end of a repetition keeps (best, bestobj) a feasible solution with its objective, or (None, None). It changes them only to a strictly better feasible solution |
| Grasp.OfferOf | src/api/grasp.py:70-77 | the corrected end of a repetition offers at most one solution, and only a feasible one with its objective |
| Grasp.EndOffers | src/api/grasp.py:70-77 | the corrected end of a repetition is the incumbent offered exactly what OfferOf lists |
| Grasp.RepeatedSnoc | src/api/grasp.py:54-78 | a construction that ended because no add move was left extends the completed repetitions by one, with its draws, and extends what was offered by what its corrected end offers |
| Grasp.FailedSnoc | src/api/grasp.py:54-69 | a construction whose next pass raised, after completed repetitions, is a failed run with that error |
| Grasp.Conclude | src/api/grasp.py:70-77 | the corrected end of a repetition: what was offered grows by OfferOf and stays feasible, and the incumbent stays the first least of everything offered |
| Grasp.Grasp | src/api/grasp.py:44-78 | `grasp`, with the corrected end of a repetition named in Findings: the completed repetitions are `budget` constructions, each drawing its components from its restricted candidate list in turn (Repeated), and what is offered to the incumbent is what their corrected ends offer (Offered). Every offered solution is feasible and has its objective; the result is the first of least objective among them, None exactly when none was offered. A raise is TypeError, or IndexError when alpha < 0, and comes from the failing construction (Failed); a zero budget returns None |
| BeamSearch.EntryCands | src/api/beam_search.py:49-52 | the candidates of one beam entry: one per add move, in `add_moves` order, scored by the entry's bound plus the move's increment |
| BeamSearch.Insert | src/api/beam_search.py:57 | one insertion step of the stable sort adds exactly one candidate (what it keeps and where it goes are InsertMultiset, InsertSorted and InsertStable) |
| BeamSearch.ExpandMembers | src/api/beam_search.py:47-53 | every candidate pairs a beam solution with one of its add moves |
| BeamSearch.ExpandEmpty | src/api/beam_search.py:47-53 | there are no candidates exactly when no beam solution has an add move |
| BeamSearch.Candidates | src/api/beam_search.py:47-53 | `candidates(prev)` raises TypeError exactly when a bound or an increment is None (None + number); otherwise it is the expansion of every entry, in order |
| BeamSearch.InsertMultiset | src/api/beam_search.py:57 | inserting into the sorted prefix neither loses nor adds a candidate |
| BeamSearch.InsertSorted | src/api/beam_search.py:57 | inserting into a sorted prefix keeps it sorted by score |
| BeamSearch.InsertStable | src/api/beam_search.py:57 | the inserted candidate goes after every candidate of equal score |
| BeamSearch.SortByScore | src/api/beam_search.py:57 | the sort keeps every candidate (its order, permutation and stability are SortFacts) |
| BeamSearch.SortFacts | src/api/beam_search.py:57 | `candidates.sort(key=itemgetter(0))` is sorted by score, a permutation of the candidates, and stable: the candidates of each score keep their order |
| BeamSearch.SliceLen | src/api/beam_search.py:58 | `candidates[:bw]` keeps the first bw candidates, or all of them; a negative bw drops the last -bw |
| BeamSearch.Evolve | src/api/beam_search.py:55-62 | `evolve(candidates, bw)`: the kept prefix of the sorted candidates, each solution extended by its component and scored by its bound; the new beam is in non-decreasing score order |
| BeamSearch.HeightBounds | src/api/beam_search.py:68-72 | Height exceeds the size of every beam solution, and is the least such bound |
| BeamSearch.EvolveDescends | src/api/beam_search.py:68-72 | when every addition grows a solution within its size bound, each round lowers the beam's height, so `while True` ends |
| BeamSearch.OfferBeam | src/api/beam_search.py:73-78 | offering the new beam adds its feasible members, with their objectives, to what was offered, and (best, bestobj) stays the running minimum of them |
| BeamSearch.RoundsSnoc | src/api/beam_search.py:66-78 | one more round of `while True`: the beams stay a run of evolve over the previous beam's candidates, and the new beam's feasible members are offered after everything offered before |
| BeamSearch.Search | src/api/beam_search.py:64-79 | `beam_search`: the beams are a run of the rounds, from the initial solution's beam, each the evolve of the previous beam's candidates, and the offers are exactly their feasible members in order. It returns exactly when the last beam's candidates are defined and there are none. TypeError is the only error, raised only when a bound or increment of the last beam is None, and never when no bound or increment is None. The result is the first least of the initial solution and every feasible beam member, so it is the initial solution or a strictly better feasible one. The search ends on a beam with no add move left |
| AntSystem.SumSnoc | src/api/ant_system.py:79 | `sum(p)` over one more weight adds that weight |
| AntSystem.Cum | src/api/ant_system.py:80 | the running sums that `random.choices` bisects: one per weight |
| AntSystem.CumSorted | src/api/ant_system.py:80 | with non-negative weights the running sums never decrease |
| AntSystem.BisectRight | src/api/ant_system.py:80 | `bisect_right(a, x, lo, hi)` lies in [lo, hi] |
| AntSystem.BisectSorted | src/api/ant_system.py:80 | on a sorted range, `bisect_right` splits it into the elements <= x and the elements > x |
| AntSystem.Bisect | src/api/ant_system.py:80 | the index `random.choices` picks is a valid index of the weights |
| AntSystem.WeightedIndex | src/api/ant_system.py:80 | `random.choices(cs, p, k=1)[0]` picks a valid index for any draw |
| AntSystem.ScaledBelow | src/api/ant_system.py:80 | `random() * total` lies in [0, total) |
| AntSystem.WeightedIndexInterval | src/api/ant_system.py:79-80 | with non-negative weights and `sum(p) > 0`, `random.choices` picks the index whose cumulative interval holds `random() * total`, so its weight is positive: each index is picked in proportion to its weight |
| AntSystem.BisectInterval | src/api/ant_system.py:80 | bisecting the running sums at x in [0, total) finds the index whose interval [sum before it, sum through it) holds x, and that weight is positive |
| AntSystem.Split | src/api/ant_system.py:65-74 | the split is None exactly when some increment is None. Otherwise every move goes to exactly one of cszero and cs, with one weight per member of cs |
| AntSystem.SplitParts | src/api/ant_system.py:65-74 | cszero holds the moves whose increment is close to 0, and cs the others. Each weight is `tau[k]**alpha * (1/lbincr)**beta` for its move |
| AntSystem.Classify | src/api/ant_system.py:65-74 | the classification loop raises ValueError exactly when some increment is None, and otherwise produces the split |
| AntSystem.AntPick | src/api/ant_system.py:75-84 | no component (the loop breaks) exactly when both lists are empty. A zero-increment move is chosen whenever there is one, and otherwise a member of cs |
| AntSystem.AntPickProportional | src/api/ant_system.py:78-80 | with no zero-increment move and positive total weight, the chosen component is the one `random.choices` selects with the draw, and its weight is positive |
| AntSystem.AntStepPrefersZero | src/api/ant_system.py:65-84 | a chosen component is an add move; it is a zero-increment one whenever one exists |
| AntSystem.AntMove | src/api/ant_system.py:60-84 | one pass raises ValueError only when some add move has a None increment. Otherwise it is the step's choice: an add move, or none only when no add move is left |
| AntSystem.ConstructAnt | src/api/ant_system.py:56-86 | `construct_ant`: one draw per added component, each added component the step's choice at its point of the trail. The result is the solution with them added and no add move left, or ValueError from a None increment |
| AntSystem.TrailSnoc | src/api/ant_system.py:85 | extending a trail by the step's choice gives a trail whose solution is the old one with that component added |
| AntSystem.AntTrace | src/api/ant_system.py:65-85 | along a trail, each added component is the step's choice on the solution built before it, with its own draw |
| AntSystem.AntTrailAt | src/api/ant_system.py:65-85 | the i-th component of a trail is the step's choice at step i |
| AntSystem.Cids | src/api/ant_system.py:156-157 | the component ids of an ant's components, in order |
| AntSystem.DepositedOnlyFeasible | src/api/ant_system.py:153-164 | a component id that no feasible ant uses receives no deposit |
| AntSystem.Reinforce | src/api/ant_system.py:154-162 | one ant's deposit raises ZeroDivisionError exactly when it is feasible, has objective 0 and at least one component. Otherwise each entry grows by 1/obj per occurrence of its id in a feasible ant, and the default is unchanged |
| AntSystem.DepositStep | src/api/ant_system.py:153-162 | after one more ant, each entry is still the evaporated value plus every deposit so far |
| AntSystem.UpdateTrails | src/api/ant_system.py:149-164 | the update raises ZeroDivisionError exactly when a feasible ant with objective 0 has a component. Otherwise every entry, including the default for unseen ids, is evaporated by (1 - rho) and then receives 1/obj for each occurrence of its id in each feasible ant |
| AntSystem.OfferAnt | src/api/ant_system.py:117-127 | an ant replaces (best, bestobj) exactly when it is feasible and strictly beats bestobj (or none exists); feasible ants are recorded with their objectives |
| AntSystem.OfferTwice | src/api/ant_system.py:115-127 | the new ant and then, with a local search, its local-search result are offered to (best, bestobj) in that order; the ant kept is the local-search result, the incumbent stays the first least of everything offered, and it changes only to a strictly better one |
| AntSystem.Ants | src/api/ant_system.py:111-128 | the ants of an iteration: one per built trail, ant i being initial solution i with its trail's components added and then the local search applied |
| AntSystem.Quota | src/api/ant_system.py:112-114 | `if perf_counter() - start >= budget: break`: an iteration builds one ant per initial solution, fewer only when the clock reaches the budget, and never reads past it |
| AntSystem.ColonySnoc | src/api/ant_system.py:112-115 | one more complete construct_ant run from the next initial solution, with the draws after the earlier ants', extends the iteration's trails |
| AntSystem.ColonyOffersSnoc | src/api/ant_system.py:115-127 | one more ant adds its own offers (the ant, then its local-search result) after the earlier ants' |
| AntSystem.AntsSnoc | src/api/ant_system.py:115-128 | `ants.append(ant)` after the local search: one more trail adds its ant at the end |
| AntSystem.GatheredSnoc | src/api/ant_system.py:112-128 | one more completed ant extends the trails, draw count, kept ants and offers of the building loop consistently |
| AntSystem.BuildAnts | src/api/ant_system.py:111-128 | the building loop: the trails are construct_ant runs from the initial solutions in order, one per solution until the clock reaches the budget; the ants are those trails' solutions after the local search; every ant and local-search result is offered in order, the incumbent staying their first least. A raise is ValueError from the ant after the completed ones, whose trail is stuck |
| AntSystem.CarriedSnoc | src/api/ant_system.py:149-162 | an update that did not raise, after an iteration, leaves the table and draw count the next iteration starts from |
| AntSystem.OpensAt | src/api/ant_system.py:107-115 | an iteration started while the clock allowed it, from the table the earlier iterations left, with construct_ant ants, opens the next iteration |
| AntSystem.RoundsSnoc | src/api/ant_system.py:107-128 | one more iteration adds one clock reading for the loop test plus one per ant, and its ants' offers after the earlier ones; its ants become the last ants |
| AntSystem.RoundsGrow | src/api/ant_system.py:107-162 | an iteration that opened after the earlier ones and built its full quota of ants extends the run |
| AntSystem.LastAnts | src/api/ant_system.py:111-128 | the ants of the last iteration, one per trail it built |
| AntSystem.Gather | src/api/ant_system.py:108-128 | the ants of one iteration, from the table and draw count the earlier iterations left: construct_ant runs in order, offered as they come, the clock advancing one reading per ant; the full quota unless construct_ant raised ValueError, whose stuck trail is recorded |
| AntSystem.Begin | src/api/ant_system.py:107-128 | an iteration opens after the earlier ones and builds its ants as Gather says |
| AntSystem.Iteration | src/api/ant_system.py:107-165 | one iteration: its ants and offers as Gather says; then the deposit raises ZeroDivisionError exactly when a feasible ant of objective 0 has a component, and otherwise leaves the table the next iteration starts from. A ValueError is the stuck ant of Halted |
| AntSystem.AntSystemRun | src/api/ant_system.py:88-168 | `ant_system`: the errors are ValueError (construction) and ZeroDivisionError (deposit); a zero budget or no seed solutions returns None. Every offered ant is feasible with its objective, and the result is the first least of them, None exactly when none was offered. A returned run is a sequence of iterations each following the one before (Rounds) that took exactly `budget` clock readings; a ZeroDivisionError is the deposit after the last such iteration; a ValueError is the stuck construction in the iteration after them |
| Pheromone.Fresh | src/api/mmas.py:106 | `defaultdict(lambda: tau0)` stores nothing and reads tau0 for every id |
| Pheromone.Remap | src/api/ant_system.py:149-152 | updating tau0 and then `for k in tau: tau[k] = g(tau[k])` applies the same g to every id, stored or not, and stores no new id |
| Pheromone.Count | src/api/ant_system.py:156 | the number of occurrences of an id in an ant's components is 0 exactly when it does not occur |
| Pheromone.Bump | src/api/ant_system.py:157-161 | one update `tau[cid] = g(tau[cid])` changes that id only, storing it if it was missing, and keeps the default |
| Pheromone.Deposit | src/api/ant_system.py:156-162 | updating once per component applies g to each id as many times as it occurs, and leaves the default and every other id alone |
| Pheromone.RepeatAdd | src/api/ant_system.py:159-161 | adding d once per occurrence adds d times the count |
| Pheromone.AddEach | src/api/ant_system.py:156-162 | Ant System's reinforcement adds d to each id once per occurrence, missing ids starting from tau0 |
| Pheromone.Clamp | src/api/mmas.py:164 | `max(lo, min(hi, x))` lies in [lo, hi] when lo <= hi, and is x when x already does |
| Pheromone.RepeatCapped | src/api/mmas.py:171-176 | applying `min(hi, x + d)` n >= 1 times, with d >= 0, is one capped add of n times d |
| Pheromone.RepeatCappedBounds | src/api/mmas.py:171-176 | a capped reinforcement keeps a trail that starts at most hi between its start and hi |
| Mmas.Limits | src/api/mmas.py:159-160 | (taumax, taumin) = (1/bestobj, taumax/a): TypeError when bestobj is None, ZeroDivisionError when it is 0 or a is 0, else taumax = 1/bestobj |
| Mmas.LimitsOrdered | src/api/mmas.py:159-160 | with a positive best objective and a >= 1, 0 < taumin <= taumax |
| Mmas.Evaporate | src/api/mmas.py:161-164 | tau0 and every stored trail become max(taumin, min(taumax, (1 - rho) x)), and with taumin <= taumax every id then reads in [taumin, taumax] |
| Mmas.CappedDeposit | src/api/mmas.py:171-176 | the capped reinforcement raises ZeroDivisionError exactly when there is a component and obj = 0. Other ids are unchanged. For any non-zero obj, negative included, each used id takes one step x -> min(taumax, x + 1/obj) per occurrence. With obj > 0 that is min(taumax, its trail + count/obj), and a trail at most taumax stays between its old value and taumax |
| Mmas.Objectives | src/api/mmas.py:167 | the ants' objective values, in order |
| Mmas.Reinforcer | src/api/mmas.py:165-187 | no reinforcement exactly when the iteration-best ant is not chosen and there is no global best; otherwise, without the iteration best, it is the global best with bestobj |
| Mmas.IterationBest | src/api/mmas.py:167-169 | the iteration-best ant is the first ant of least objective (`argmin`), with that objective |
| Mmas.ReinforcerPositive | src/api/mmas.py:165-185 | when all the ants and the global best have positive objectives, so does the reinforcing ant |
| Mmas.CappedSteps | src/api/mmas.py:174-176 | with a deposit d >= 0 the per-occurrence capped steps collapse into one capped gain of count times d, and a trail at most taumax stays between its old value and taumax |
| Mmas.Regular | src/api/mmas.py:161-187 | without restart: ZeroDivisionError exactly when the reinforcing ant has a component and objective 0. Otherwise (Regulated) every id the ant does not use reads its evaporated value clamped to [taumin, taumax], and every id it uses takes, from its clamped evaporated value, one step x -> min(taumax, x + 1/obj) per occurrence, whatever the sign of obj. With a positive objective that is min(taumax, clamped evaporated value + count/obj). With taumin <= taumax and a positive objective every id stays in [taumin, taumax] |
| Mmas.Reinit | src/api/mmas.py:193-195 | on restart tau0 and every trail become taumax |
| Mmas.Deposits | src/api/mmas.py:165-185 | the reinforcing ant's component ids and objective; none exactly when there is no reinforcing ant |
| Mmas.RegulatedInBounds | src/api/mmas.py:161-187 | a regular update under limits taumin <= taumax, with a positive reinforcing objective or none, leaves every trail and the default in [taumin, taumax] |
| Mmas.Reinforced | src/api/mmas.py:158-187 | the update without restart: the draw of line 165 chooses the iteration-best or the global-best ant as Reinforcer says and advances the draw count as UseIterationBest says; ZeroDivisionError exactly when that ant has a component and objective 0; otherwise the table is Regulated by that ant's deposits, which fixes every id for any non-zero objective |
| Mmas.Update | src/api/mmas.py:158-195 | the pheromone update of an iteration raises exactly the error UpdateError names: the limits' TypeError (no incumbent) or ZeroDivisionError (bestobj or a is 0) first, then without restart a deposit of objective 0. Otherwise (Updated) a restart sets every id to 1/bestobj and draws nothing, and a regular update is Reinforced's, which fixes every id for any non-zero objective. With positive objectives and a >= 1 every id ends in [taumin, taumax] |
| Mmas.UpdatedInBounds | src/api/mmas.py:158-195 | with a positive incumbent objective, a >= 1 and ants of positive objective, any update that did not raise leaves every trail, and the default, in [taumax/a, 1/bestobj] |
| Mmas.StagnationWindow | src/api/mmas.py:111-135 | ni reaches n exactly when none of the last n iterations improved the incumbent |
| Mmas.RestartLogSnoc | src/api/mmas.py:111-158 | one more iteration resets ni when it improved and increments it otherwise; the update restarts exactly when ni >= nrestart |
| Mmas.StagnationSnoc | src/api/mmas.py:114-134 | `ni += 1` at the start of an iteration and `ni = 0` on every improvement: after one more iteration ni is 0 when it improved the incumbent and one more otherwise |
| Mmas.Kept | src/api/mmas.py:137-138 | `if ant.is_feasible(): ants.append(ant)`: the ants kept for the update are exactly the feasible ones, in order |
| Mmas.Improvements | src/api/mmas.py:123-135 | one entry per iteration, telling whether it changed the incumbent |
| Mmas.ImprovementsSnoc | src/api/mmas.py:112-138 | one more iteration extends the improvement log by whether the incumbent after it differs from the one before it |
| Mmas.IterationsGrow | src/api/mmas.py:112-195 | an iteration that followed the earlier ones (clock within the budget, construct_ant ants from the table and draw count their updates left) and built its full quota of ants extends the run |
| Mmas.Launch | src/api/mmas.py:112-138 | the ants of one iteration from the table and draw count the earlier iterations left: the iteration follows them, its ants and their local-search results are offered in order, the improvement log grows by whether the incumbent changed and ni is the stagnation of that log; the ants passed on are the feasible ones; a raise is ValueError from a stuck construction before the quota was built |
| Mmas.Renew | src/api/mmas.py:137-195 | the update after an iteration raises exactly the error its Fault names, which is TypeError or ZeroDivisionError, and otherwise leaves the table and draw count the next iteration starts from |
| Mmas.Cycle | src/api/mmas.py:112-195 | one iteration: the iteration follows the earlier ones; its offers, improvement and ni are recorded; a return leaves what the next iteration starts from; a ValueError is a stuck construction (Halts), any other error is the Fault of the update after it |
| Mmas.Turn | src/api/mmas.py:112-196 | one pass of the main loop: the offers, the improvement log and the restart log stay those of the iterations so far; a pass that returns advances the clock and keeps the run's state between iterations (Progress); a pass that raises has ended the run as Finished says |
| Mmas.Loop | src/api/mmas.py:112-196 | the main loop from a state between iterations: it stops either with the state after the budget is spent, or with an error that ended the run as Finished says; from a spent budget it runs nothing |
| Mmas.Spent | src/api/mmas.py:112-198 | a run that spent its budget between iterations returns the incumbent of all offers, has taken exactly `budget` clock readings, and its last update did not raise |
| Mmas.Iterate | src/api/mmas.py:104-198 | the main loop from the fresh table (every id at taumax), no incumbent and ni = 0: the errors are ValueError, TypeError and ZeroDivisionError, a zero budget returns None, and the run ended as Finished says |
| Mmas.MmasRun | src/api/mmas.py:87-198 | `mmas`: a = 0 raises ZeroDivisionError at once (line 104). The errors are ValueError (construction), TypeError (no incumbent at the first update) and ZeroDivisionError. A zero budget returns None. The result is the first least of the offered feasible ants, None exactly when none was offered, and the restarts happen exactly at stagnation. Otherwise the run ended as Ended says: a return is a sequence of iterations (Iterations) that took exactly `budget` readings and whose last update did not raise; a ValueError is the stuck construction of the iteration after them; any other error is the Fault of the last update |
| WasteCollection.DirIndex | src/base.py:94 | `int(str(p) + str(c), 2)` is 2p + c, so it lies in [0, 3] |
| WasteCollection.At3 | src/base.py:95-96 | a missing container-to-container entry raises IndexError |
| WasteCollection.Links | src/base.py:91-96 | the links between consecutive containers raise only IndexError |
| WasteCollection.LinksRaised | src/base.py:91-96 | once a link is missing, every longer route is missing one too |
| WasteCollection.RouteCost | src/base.py:85-101 | the route cost (depot leg, links, plant leg) raises only IndexError |
| WasteCollection.LegsStep | src/base.py:86-96 | one more position adds its leg to the running `obj_value` |
| WasteCollection.LegRaised | src/base.py:86-99 | a missing leg at any position makes the whole objective raise IndexError |
| WasteCollection.Objective | src/base.py:76-101 | `objective()`: None while a container is unpicked; otherwise depot[d0][c0] plus each c2c[2 d(i-1) + d(i)][c(i-1)][c(i)] plus plant[d_last][c_last]. An empty route or a missing entry raises IndexError |
| WasteCollection.Layout | src/base.py:239-265 | the parsed instance has two depot rows, two plant rows and four tables of n rows each |
| WasteCollection.BlockSnoc | src/base.py:256-263 | reading one more line of a block appends it |
| WasteCollection.TableStep | src/base.py:256-263 | reading line k appends it to table j exactly when k lies in that table's block |
| WasteCollection.Tables | src/base.py:242-263 | the four tables after the first k lines |
| WasteCollection.TablesStart | src/base.py:242 | the four tables start empty |
| WasteCollection.StartsApart | src/base.py:256-263 | the four blocks of n lines do not overlap |
| WasteCollection.TablesStep | src/base.py:256-263 | a block line is appended to its own table and to no other |
| WasteCollection.HeadStep | src/base.py:248-255 | the four head lines leave the tables alone |
| WasteCollection.TablesDone | src/base.py:245-263 | after all 4 + 4n lines the tables are the blocks for direction indexes 0, 1, 3 and 2, in file order |
| WasteCollection.HeadsRead | src/base.py:248-255 | head line k fills depot row k (k < 2) or plant row k - 2 |
| WasteCollection.HeadsKeep | src/base.py:256-263 | block lines leave the depot and plant rows alone |
| WasteCollection.HeadsDone | src/base.py:248-255 | after the head lines the depot rows are lines 1 and 2 and the plant rows lines 3 and 4 |
| WasteCollection.ReadLine | src/base.py:246-263 | one pass of the loop puts line idx where its position says, keeping the reading invariant |
| WasteCollection.FromRows | src/base.py:234-265 | `from_textio` builds exactly Layout: depot rows from lines 1-2, plant rows from lines 3-4, and blocks of n lines into tables 0, 1, 3, 2 |
| Printing3d.FromNumbers | src/3dprinting.py:196-203 | None exactly when the number count is not a multiple of 3; otherwise n_items is a third of it |
| Printing3d.CidIdentifies | src/3dprinting.py:35-37 | two components have the same cid exactly when they are equal |
| Printing3d.EnumerationsAgree | src/3dprinting.py:93-109 | any two enumerations of all the local moves, each move once, are permutations of each other |
| Printing3d.IncreasingIsDistinct | src/3dprinting.py:93-96 | a strictly increasing list of moves has no repeats |
| Printing3d.Forward | src/3dprinting.py:107-109 | `if j > i: yield LocalMove(i, j)`: a move is yielded exactly when its pair is in the stream with i < j |
| Printing3d.ForwardAppend | src/3dprinting.py:107-109 | the filter keeps stream order: the moves of a concatenation are the first part's moves followed by the second's |
| Printing3d.ForwardDistinct | src/3dprinting.py:107-109 | a stream without repeated pairs yields no repeated move |
| Printing3d.ForwardEnumerates | src/3dprinting.py:106-109 | the forward pairs of sample2(len-1, len-1) are every local move of a path of length len, each once |
| Printing3d.Solution.constructor | src/3dprinting.py:54-64 | the fields are those given |
| Printing3d.Solution.Objective | src/3dprinting.py:79-83 | the objective is defined exactly when the solution is feasible (len(path) == n_items), and is then `cost` |
| Printing3d.Solution.LowerBoundExact | src/3dprinting.py:85-86 | the lower bound is always defined, and equals the objective on a feasible solution |
| Printing3d.Solution.Copy | src/3dprinting.py:69-74 | `copy` returns a new object with the same field values, so later changes to either leave the other alone |
| Printing3d.Solution.AddMoves | src/3dprinting.py:88-91 | while the path is short: one component per unused item, each once; nothing once the path is full |
| Printing3d.Solution.LocalMoves | src/3dprinting.py:93-96 | exactly the moves 0 <= i < j <= len(path) - 2, each once, in lexicographic order |
| Printing3d.Solution.RandomLocalMovesWor | src/3dprinting.py:106-109 | the moves are Forward of the pairs sample2(len-1, len-1) yields, so they come in the sampled order. They are the same moves as `local_moves`, each once |
| Printing3d.KeepForward | src/3dprinting.py:107-109 | the loop over the pairs yields exactly Forward of them |
| WasteCollectionEvaluator.Read | src/evaluators/waste_collection.py:22-32 | the evaluator reads two depot rows, two plant rows and a 2-by-2 array of link tables `[[d00, d01], [d10, d11]]` |
| WasteCollectionEvaluator.LayoutAgrees | src/evaluators/waste_collection.py:28-32 | the evaluator and `Problem.from_textio` (src/base.py:245-263) read the same file into the same tables: `dist[p][c]` is the framework's table of direction index 2p + c |
| WasteCollectionEvaluator.Kept | src/evaluators/waste_collection.py:36-41 | the kept lines are those that parse as two integers, never more than the lines |
| WasteCollectionEvaluator.AllValidSnoc | src/evaluators/waste_collection.py:42-48 | one more kept line keeps all lines valid exactly when it is a valid visit |
| WasteCollectionEvaluator.PathIsKept | src/evaluators/waste_collection.py:36-48 | the route is rejected (None) exactly when some kept line has a direction outside {0, 1} or a container outside [1, n]; otherwise it is the kept lines in order, containers renumbered from 0 |
| WasteCollectionEvaluator.PathRejected | src/evaluators/waste_collection.py:42-47 | once a line is rejected, the whole output is |
| WasteCollectionEvaluator.Hops | src/evaluators/waste_collection.py:54-61 | the links raise only IndexError |
| WasteCollectionEvaluator.Cost | src/evaluators/waste_collection.py:53-63 | the route cost raises only IndexError (an empty route or a missing table entry) |
| WasteCollectionEvaluator.HopsStuck | src/evaluators/waste_collection.py:58-60 | once a link raised or was a closed connection (-1), the outcome no longer changes |
| WasteCollectionEvaluator.ReadPath | src/evaluators/waste_collection.py:34-48 | the loop builds exactly the route Path describes |
| WasteCollectionEvaluator.RouteCost | src/evaluators/waste_collection.py:53-63 | the loop computes exactly the cost Cost describes |
| WasteCollectionEvaluator.Evaluate | src/evaluators/waste_collection.py:21-63 | `evaluate` computes exactly Evaluation: the route, the count check, then the cost |
| WasteCollectionEvaluator.Accepted | src/evaluators/waste_collection.py:42-60 | an accepted route has exactly n kept lines, all valid visits, and uses no link of cost -1 |
| WasteCollectionEvaluator.HopsNoClosedLink | src/evaluators/waste_collection.py:58-61 | when the links sum to a value, none of them is a closed connection |
| WasteCollectionEvaluator.RepeatsAccepted | src/evaluators/waste_collection.py:42-51 | visiting one container twice is not rejected: with n = 2 and zero tables, container 1 twice costs 0 |
| WasteCollectionEvaluator.Lines | src/evaluators/waste_collection.py:36-38 | one output line per visit |
| WasteCollectionEvaluator.Visits | src/evaluators/waste_collection.py:48 | one (container, direction) pair per visit |
| WasteCollectionEvaluator.PathOfRoute | src/evaluators/waste_collection.py:36-48 | the evaluator reads back a route written one "container+1 direction" line per visit, when every container is below n |
| WasteCollectionEvaluator.HopsAreLinks | src/evaluators/waste_collection.py:54-61 | with the same tables and no closed link, the evaluator's links sum to the framework's (src/base.py:91-96) |
| WasteCollectionEvaluator.HopIsLink | src/evaluators/waste_collection.py:57 | with the same tables, the evaluator's link into visit i is the framework's |
| WasteCollectionEvaluator.SumsAgree | src/evaluators/waste_collection.py:53-61 | adding the depot and plant legs first and the links after gives the framework's sum depot + links + plant, or the same exception |
| WasteCollectionEvaluator.CostAgrees | src/evaluators/waste_collection.py:53-63 | with the same tables and no closed link, the evaluator's cost of a route is the framework's route cost (src/base.py:85-101), or the same exception |
| WasteCollectionEvaluator.ObjectiveAgrees | src/evaluators/waste_collection.py:21-63 | for a complete route of n containers below n with no closed link, evaluating its output on the instance file gives the framework's objective on the parsed instance |
| Printing3dEvaluator.Read | src/evaluators/3d_printing.py:21-28 | None exactly when the number count is not a multiple of 3; otherwise the numbers split into p, w and d of n each |
| Printing3dEvaluator.ReadAgrees | src/evaluators/3d_printing.py:21-28 | the evaluator and `Problem.from_textio` (src/3dprinting.py:196-203) accept the same inputs and agree on n |
| Printing3dEvaluator.Jobs | src/evaluators/3d_printing.py:38 | `range(1, n+1)`: the jobs 1..n in order |
| Printing3dEvaluator.CountedTwice | src/evaluators/3d_printing.py:38 | a repeated value is counted at least twice |
| Printing3dEvaluator.PermutationOfJobs | src/evaluators/3d_printing.py:35-40 | `sorted(sol) == sorted(range(1, n+1))` holds exactly when sol has n entries, no repeats, and every entry in [1, n] |
| Printing3dEvaluator.TardinessNonNegative | src/evaluators/3d_printing.py:42-47 | with non-negative weights the weighted tardiness is non-negative |
| Printing3dEvaluator.OnTimeCostsNothing | src/evaluators/3d_printing.py:42-47 | when every job completes by its due date the objective is 0 |
| Printing3dEvaluator.Objective | src/evaluators/3d_printing.py:42-47 | the loop computes the weighted tardiness: the sum of w(j) max(C(j) - d(j), 0) over the jobs in sequence order |
| Printing3dEvaluator.Scored | src/evaluators/3d_printing.py:20-49 | a score is returned exactly when the count is a multiple of 3, the output parses, and it is a permutation of 1..n |
| Printing3dEvaluator.ScoreNonNegative | src/evaluators/3d_printing.py:20-49 | with non-negative weights every score is non-negative |
| Printing3dEvaluator.Evaluate | src/evaluators/3d_printing.py:20-49 | `evaluate` computes exactly Evaluation |
| CandleRaceEvaluator.AbsInt | src/evaluators/candle_race.py:30 | `abs(v)` is v or -v |
| CandleRaceEvaluator.Manhattan | src/evaluators/candle_race.py:29-30 | the Manhattan distance is non-negative, and 0 exactly at the same point |
| CandleRaceEvaluator.ManhattanMetric | src/evaluators/candle_race.py:29-30 | the distance is symmetric and obeys the triangle inequality |
| CandleRaceEvaluator.Burn | src/evaluators/candle_race.py:33 | `max(0, h - b t)`: non-negative, at least h - b t, and one of the two |
| CandleRaceEvaluator.CandleScore | src/evaluators/candle_race.py:32-33 | a candle scores what is left of it when reached, after the distance so far plus the last leg |
| CandleRaceEvaluator.ReadInput | src/evaluators/candle_race.py:35-41 | the nodes are the start (height and burn rate 0) and n - 1 candles; a malformed line raises ValueError |
| CandleRaceEvaluator.Candles | src/evaluators/candle_race.py:39-41 | one node per candle line |
| CandleRaceEvaluator.Read | src/evaluators/candle_race.py:35-41 | the loop reads exactly what ReadInput describes |
| CandleRaceEvaluator.Dist | src/evaluators/candle_race.py:68 | the distance walked is non-negative |
| CandleRaceEvaluator.ScoreNonNegative | src/evaluators/candle_race.py:58-71 | the score is non-negative |
| CandleRaceEvaluator.ScoreAtMostHeights | src/evaluators/candle_race.py:58-71 | with non-negative burn rates the score is at most the summed heights of the visited candles |
| CandleRaceEvaluator.Race | src/evaluators/candle_race.py:58-71 | the loop computes Score: each candle's remaining height when reached, summed in visiting order |
| CandleRaceEvaluator.Scored | src/evaluators/candle_race.py:43-71 | on a readable instance a score is returned exactly when every parsed line names a candle in [1, n) and none repeats; it is then non-negative |
| CandleRaceEvaluator.NothingVisited | src/evaluators/candle_race.py:43-71 | an output with no parsable line scores 0 |
| CandleRaceEvaluator.ReadPath | src/evaluators/candle_race.py:43-56 | the path is the parsed lines, kept exactly when all are in range and distinct |
| CandleRaceEvaluator.Evaluate | src/evaluators/candle_race.py:21-71 | `evaluate` computes exactly Evaluation |
| LaptopAssemblyEvaluator.Sq | src/evaluators/laptop_assembly.py:57 | a square is non-negative |
| LaptopAssemblyEvaluator.Dot | src/evaluators/laptop_assembly.py:29-30 | `sum(a[i] * d[i] for i in range(M))` is defined exactly when both rows have M entries, else IndexError |
| LaptopAssemblyEvaluator.Rates | src/evaluators/laptop_assembly.py:26-31 | the rates r[p] = (a[p] . d) / T, one per part: IndexError for a short row, ZeroDivisionError exactly when T = 0, there is a part, and the first part's row and d have M entries |
| LaptopAssemblyEvaluator.RatesStuck | src/evaluators/laptop_assembly.py:27-31 | once a part raised, the loop's outcome no longer changes |
| LaptopAssemblyEvaluator.ReadInput | src/evaluators/laptop_assembly.py:22-31 | a read instance is well formed, with one row per part |
| LaptopAssemblyEvaluator.Accumulate | src/evaluators/laptop_assembly.py:29-30 | the inner loop computes the dot product |
| LaptopAssemblyEvaluator.Read | src/evaluators/laptop_assembly.py:22-31 | the reading loop computes exactly ReadInput |
| LaptopAssemblyEvaluator.Counts | src/evaluators/laptop_assembly.py:45-51 | dsol[x] is the number of times model x occurs |
| LaptopAssemblyEvaluator.Scan | src/evaluators/laptop_assembly.py:47-54 | the checks raise only IndexError |
| LaptopAssemblyEvaluator.ScanStuck | src/evaluators/laptop_assembly.py:47-54 | once a model is rejected or raises, the outcome no longer changes |
| LaptopAssemblyEvaluator.ScanNext | src/evaluators/laptop_assembly.py:48-54 | one more model is rejected when out of [0, M), raises when its demand is missing, and is rejected when it exceeds its demand |
| LaptopAssemblyEvaluator.ScanPasses | src/evaluators/laptop_assembly.py:47-54 | the checks pass exactly when every model is in [0, M) and no model exceeds its demand |
| LaptopAssemblyEvaluator.ScanModels | src/evaluators/laptop_assembly.py:47-54 | passing the checks means every model is valid and within its demand |
| LaptopAssemblyEvaluator.WithinDemandSnoc | src/evaluators/laptop_assembly.py:51-52 | a model whose new count stays within its demand keeps the sequence within demand |
| LaptopAssemblyEvaluator.WithinDemandPrefix | src/evaluators/laptop_assembly.py:51-52 | a prefix of a sequence within demand is within demand |
| LaptopAssemblyEvaluator.GapIs | src/evaluators/laptop_assembly.py:56-57 | the squared term is (t+1) r[p] minus the parts of type p used so far |
| LaptopAssemblyEvaluator.Deviation | src/evaluators/laptop_assembly.py:55-57 | a sum of squared gaps is non-negative |
| LaptopAssemblyEvaluator.Cost | src/evaluators/laptop_assembly.py:44-57 | J is non-negative |
| LaptopAssemblyEvaluator.SumIncrement | src/evaluators/laptop_assembly.py:51 | `dsol[mod] += 1` adds one to the total |
| LaptopAssemblyEvaluator.CountsTotal | src/evaluators/laptop_assembly.py:45-51 | the counts sum to the number of models |
| LaptopAssemblyEvaluator.ZeroSum | src/evaluators/laptop_assembly.py:45 | all-zero counts sum to 0 |
| LaptopAssemblyEvaluator.Tight | src/evaluators/laptop_assembly.py:40-54 | counts bounded pointwise by the demand and with the same total are the demand |
| LaptopAssemblyEvaluator.SumAtMost | src/evaluators/laptop_assembly.py:52 | pointwise bounded counts have a bounded total |
| LaptopAssemblyEvaluator.Scored | src/evaluators/laptop_assembly.py:21-59 | an accepted sequence scores J >= 0; with M demands, all non-negative, it produces every model exactly as often as demanded |
| LaptopAssemblyEvaluator.Assemble | src/evaluators/laptop_assembly.py:44-59 | the loop raises IndexError when the checks do, returns None when they reject, and otherwise returns the cost of the whole sequence |
| LaptopAssemblyEvaluator.Tally | src/evaluators/laptop_assembly.py:51 | counting one more model keeps dsol the counts of the prefix |
| LaptopAssemblyEvaluator.Deviate | src/evaluators/laptop_assembly.py:55-57 | one pass over the parts extends aux to the column sums and J to the cost of the longer prefix |
| LaptopAssemblyEvaluator.UsePart | src/evaluators/laptop_assembly.py:56-57 | one part: aux[p] gains a[p][mod] and J gains that part's squared gap |
| LaptopAssemblyEvaluator.Evaluate | src/evaluators/laptop_assembly.py:21-59 | `evaluate` computes exactly Evaluation |
| CampusNetworkEvaluator.Coordinates | src/evaluators/campus_network.py:39-41 | one node per coordinate line, n of them (none for n < 0) |
| CampusNetworkEvaluator.ReadInput | src/evaluators/campus_network.py:33-41 | AssertionError exactly when the first line does not have 3 fields; ValueError for any other malformed field. Otherwise n is the first field and there are n nodes |
| CampusNetworkEvaluator.Read | src/evaluators/campus_network.py:33-41 | the reading loop computes exactly ReadInput |
| CampusNetworkEvaluator.Links | src/evaluators/campus_network.py:46-51 | the kept links are the lines that parse as two integers, never more than the lines |
| CampusNetworkEvaluator.LinksPrefix | src/evaluators/campus_network.py:46-51 | reading more lines only extends the links |
| CampusNetworkEvaluator.LinksSnoc | src/evaluators/campus_network.py:46-51 | a line adds its link exactly when it parses as two integers |
| CampusNetworkEvaluator.NoLinks | src/evaluators/campus_network.py:44 | `[[] for _ in range(n)]`: n empty neighbour lists |
| CampusNetworkEvaluator.Adjacency | src/evaluators/campus_network.py:44-59 | one neighbour list per node |
| CampusNetworkEvaluator.AdjacencySnoc | src/evaluators/campus_network.py:58-59 | a link u v appends v-1 to u-1's list and then u-1 to v-1's |
| CampusNetworkEvaluator.AdjacencyRecords | src/evaluators/campus_network.py:44-59 | b is a neighbour of a exactly when some link joins a and b |
| CampusNetworkEvaluator.JoinedSnoc | src/evaluators/campus_network.py:58-59 | a and b are joined by the links exactly when the last link or an earlier one joins them |
| CampusNetworkEvaluator.RecordedAt | src/evaluators/campus_network.py:58-59 | after the two appends, b is a neighbour of a exactly when it was one before or the new link joins them |
| CampusNetworkEvaluator.AdjacencySymmetric | src/evaluators/campus_network.py:58-59 | neighbours are in range, and the relation is symmetric |
| CampusNetworkEvaluator.LineSkipped | src/evaluators/campus_network.py:47-51 | a line that does not parse as two integers is skipped |
| CampusNetworkEvaluator.LineOutOfRange | src/evaluators/campus_network.py:52-57 | a link with an end outside [1, n] makes the output invalid |
| CampusNetworkEvaluator.LineRecorded | src/evaluators/campus_network.py:58-59 | a valid link extends the adjacency by its two appends |
| CampusNetworkEvaluator.BuildAdjacency | src/evaluators/campus_network.py:43-59 | None exactly when some parsed link has an end outside [1, n]; otherwise the neighbour lists of the parsed links |
| CampusNetworkEvaluator.GrewTrans | src/evaluators/campus_network.py:65-78 | the traversal's growth of tree, visited set and stack composes |
| CampusNetworkEvaluator.Reach | src/evaluators/campus_network.py:73-78 | visiting a new node v from u adds the tree link u-v, marks v, pushes it with depth d + eucd, and keeps the traversal invariant |
| CampusNetworkEvaluator.LinksKept | src/evaluators/campus_network.py:67-78 | after one more neighbour, every neighbour so far is the parent or a tree child of u |
| CampusNetworkEvaluator.Expand | src/evaluators/campus_network.py:67-78 | scanning u's neighbours keeps the invariant; the tree gains only links from u and the stack only nodes not visited before. It stops at a revisit (a reached non-parent neighbour whose link is no tree link, or is listed twice), or makes every neighbour of u its parent or a tree child |
| CampusNetworkEvaluator.Visit | src/evaluators/campus_network.py:68-78 | one neighbour v: a cycle exactly when v is not the parent and already visited, and then a revisit; skipped with the state unchanged when v is the parent; otherwise v is marked, pushed with depth d + eucd, the totals grow by d + eucd and eucd, and the tree gains the link u-v |
| CampusNetworkEvaluator.Next | src/evaluators/campus_network.py:67-78 | one entry of the neighbour scan carries the scan's invariant to the next entry |
| CampusNetworkEvaluator.FromU | src/evaluators/campus_network.py:73-78 | during u's scan the tree gains only links from u to entries already scanned, and the stack only nodes not visited before |
| CampusNetworkEvaluator.Pop | src/evaluators/campus_network.py:66 | `q.pop()` takes a visited node with its tree depth and parent off the stack |
| CampusNetworkEvaluator.NeighboursJoined | src/evaluators/campus_network.py:67-78 | after u's scan, every neighbour of u is joined to it in the tree |
| CampusNetworkEvaluator.Finished | src/evaluators/campus_network.py:65-78 | u joins the finished nodes: every visited node is finished or still stacked, and every finished node's neighbours are tree-joined to it |
| CampusNetworkEvaluator.Step | src/evaluators/campus_network.py:65-78 | one iteration of the outer loop: the popped node has no tree children yet; the search invariant is kept (only finished nodes have tree children, no stacked node is finished, no node is stacked twice) or the loop stops at a revisit; a new node is visited or the stack shrinks |
| CampusNetworkEvaluator.Traverse | src/evaluators/campus_network.py:61-82 | IndexError exactly when n = 0. The tree is rooted at node 0, built from listed links. None means a revisit (a non-tree link between visited nodes, or a link listed twice) or some node not reached although nothing more is reachable. Otherwise the tree spans all n nodes with n - 1 links, every listed link joins two nodes of the tree, and (cable, trench) are the tree's summed root depths and link lengths |
| CampusNetworkEvaluator.CostNonNegative | src/evaluators/campus_network.py:84 | with c0, c1 >= 0 the cost `c0 * cable + c1 * trench` is at least (c0 + c1) trench, which is >= 0 |
| CampusNetworkEvaluator.AdjacencyInRange | src/evaluators/campus_network.py:58-59 | every neighbour is a node |
| CampusNetworkEvaluator.Spans | src/evaluators/campus_network.py:61-82 | a traversal that succeeds gives a spanning tree of the listed links |
| CampusNetworkEvaluator.TreeLinksListed | src/evaluators/campus_network.py:67-78 | every tree link is a listed link |
| CampusNetworkEvaluator.ListedLinksInTree | src/evaluators/campus_network.py:67-78 | every listed link joins two nodes that are parent and child in the tree |
| CampusNetworkEvaluator.Evaluate | src/evaluators/campus_network.py:22-84 | `evaluate`: the reading errors first; None for an out-of-range link; IndexError exactly when n <= 0. A returned cost comes with a spanning tree of the listed links and is c0 cable + c1 trench of that tree. Conversely, when the links form a spanning tree and none is listed twice, a cost is returned |
| CampusNetworkEvaluator.ListedOnce | src/evaluators/campus_network.py:58-59 | with no link listed twice, no node appears twice in another node's neighbour list |
| CampusNetworkEvaluator.OnceAfterAppends | src/evaluators/campus_network.py:58-59 | the two appends of one link add b to a's list at most once, and only when the link joins a and b |
| CampusNetworkEvaluator.Oriented | src/evaluators/campus_network.py:61-78 | every link of a traversal tree over the listed links points away from node 0 in any spanning tree of those links |
| CampusNetworkEvaluator.TreeJoinedLink | src/evaluators/campus_network.py:58-59 | two neighbours are joined in any tree that contains every listed link |
| CampusNetworkEvaluator.NoRevisit | src/evaluators/campus_network.py:68-72 | on a spanning tree with no repeated link the traversal meets no revisit, so line 72 is never reached |
| CampusNetworkEvaluator.ReachesAll | src/evaluators/campus_network.py:65-78 | a traversal closed under the neighbour lists reaches every node a spanning tree of the links reaches |
| CampusNetworkEvaluator.SpanningInRange | src/evaluators/campus_network.py:52-57 | the links of a spanning tree name buildings 1..n, so none is rejected as out of range |
| CampusNetworkEvaluator.TreeAccepted | src/evaluators/campus_network.py:61-82 | on a spanning tree with no repeated link the traversal meets no revisit and, once nothing more is reachable, has reached all n nodes (line 80 passes) |
| CampusNetworkTree.RootedSnoc | src/evaluators/campus_network.py:73-78 | adding a link from a reached node to an unreached one keeps the tree rooted at 0 |
| CampusNetworkTree.ReachedCard | src/evaluators/campus_network.py:80 | a rooted tree reaches one node more than it has links |
| CampusNetworkTree.OneParent | src/evaluators/campus_network.py:73-78 | in a rooted tree each node has at most one parent |
| CampusNetworkTree.ChildReached | src/evaluators/campus_network.py:73 | every child is reached |
| CampusNetworkTree.DepthNonNegative | src/evaluators/campus_network.py:74-75 | depths from the root are non-negative |
| CampusNetworkTree.CableCoversTrench | src/evaluators/campus_network.py:76-77 | 0 <= trench <= cable |
| CampusNetworkTree.RootReached | src/evaluators/campus_network.py:62 | the root 0 is always reached |
| CampusNetworkTree.DepthSnoc | src/evaluators/campus_network.py:75 | a new link leaves the depth of every other node unchanged |
| CampusNetworkTree.ShapedSnoc | src/evaluators/campus_network.py:73-78 | reaching a new neighbour keeps the tree's links listed and its reached set the visited set |
| CampusNetworkTree.StacksSnoc | src/evaluators/campus_network.py:78 | the pushed entry records its parent link |
| CampusNetworkTree.TotalsSnoc | src/evaluators/campus_network.py:74-78 | cable and trench gain newd and eucd, and stay the tree's totals |
| CampusNetworkTree.QueueDepthsSnoc | src/evaluators/campus_network.py:78 | stacked depths stay the nodes' tree depths |
| CampusNetworkTree.LengthsSnoc | src/evaluators/campus_network.py:74-77 | a new link's child has depth parent depth + eucd; trench gains eucd and cable the child's depth |
| CampusNetworkTree.Grow | src/evaluators/campus_network.py:73-78 | reaching a new neighbour keeps the traversal invariant |
| CampusNetworkTree.CycleFound | src/evaluators/campus_network.py:68-72 | a visited non-parent neighbour is a revisit: its link is no tree link, or it was already reached from u through an earlier entry of the same list, so it is listed twice |
| CampusNetworkTree.RootNotChild | src/evaluators/campus_network.py:61-62 | the root is never a child |
| CampusNetworkTree.Twice | src/evaluators/campus_network.py:58-59 | an entry at two positions of a neighbour list occurs in it at least twice |
| CampusNetworkTree.ParentOf | src/evaluators/campus_network.py:73-78 | every reached node but the root has a tree link into it from a reached node |
| CampusNetworkTree.NoSelfLoop | src/evaluators/campus_network.py:73-78 | no tree link joins a node to itself |
| CommunityDetectionEvaluator.MatrixRow | src/evaluators/community_detection.py:27-31 | row a of w: the mirrored entries w[j][a] for j < a, then the a-th line |
| CommunityDetectionEvaluator.Matrix | src/evaluators/community_detection.py:23-31 | one row per node |
| CommunityDetectionEvaluator.MatrixSymmetric | src/evaluators/community_detection.py:23-31 | w is square and symmetric, and its upper triangle is the file's triangle |
| CommunityDetectionEvaluator.ReadWeights | src/evaluators/community_detection.py:22-31 | reading raises only ValueError (a malformed number) or AssertionError (a line of the wrong length) |
| CommunityDetectionEvaluator.Read | src/evaluators/community_detection.py:22-31 | the reading loop computes exactly ReadWeights |
| CommunityDetectionEvaluator.Cliques | src/evaluators/community_detection.py:33-41 | the cliques are the lines that parse as integers, never more than the lines |
| CommunityDetectionEvaluator.FlatPrefix | src/evaluators/community_detection.py:42-49 | the nodes checked so far are a prefix of all clique members |
| CommunityDetectionEvaluator.PartitionCovers | src/evaluators/community_detection.py:42-52 | a partition lists each of 1..n exactly once |
| CommunityDetectionEvaluator.Admit | src/evaluators/community_detection.py:42-49 | one clique is admitted exactly when all its members are in [1, n] and new; `nodes` then grows by them |
| CommunityDetectionEvaluator.AdmissiblePrefix | src/evaluators/community_detection.py:42-49 | a prefix of admissible members is admissible |
| CommunityDetectionEvaluator.Check | src/evaluators/community_detection.py:36-52 | the checks pass exactly when the cliques partition 1..n |
| CommunityDetectionEvaluator.RowSumSnoc | src/evaluators/community_detection.py:58-59 | a new member leaves earlier row sums unchanged |
| CommunityDetectionEvaluator.UpperSnoc | src/evaluators/community_detection.py:57-59 | a new member adds its weights to the earlier members |
| CommunityDetectionEvaluator.WeightSnoc | src/evaluators/community_detection.py:56-59 | a new member adds its links to the others and its self-weight |
| CommunityDetectionEvaluator.TotalNonNegative | src/evaluators/community_detection.py:54-62 | with non-negative weights the objective is non-negative |
| CommunityDetectionEvaluator.UpperNonNegative | src/evaluators/community_detection.py:57-59 | with non-negative weights the partial upper sums are non-negative |
| CommunityDetectionEvaluator.RowSumNonNegative | src/evaluators/community_detection.py:58-59 | with non-negative weights the row sums are non-negative |
| CommunityDetectionEvaluator.Objective | src/evaluators/community_detection.py:54-62 | the loop computes Total: for each clique, the weights of all pairs i <= j of its members |
| CommunityDetectionEvaluator.PartitionNodes | src/evaluators/community_detection.py:42-52 | every clique of a partition names nodes only |
| CommunityDetectionEvaluator.Scored | src/evaluators/community_detection.py:21-62 | on a readable instance a score is returned exactly when the parsed cliques list each of 1..n exactly once; with non-negative weights it is non-negative |
| CommunityDetectionEvaluator.Evaluate | src/evaluators/community_detection.py:21-62 | `evaluate` computes exactly Evaluation |

## Left out

- Time: `perf_counter()` is a clock counter that each budget check advances by one tick. Real durations, and the time spent inside the solution's own methods, are not modelled.
- Randomness: `random.seed`, `choice`, `choices`, `random()` and `randrange` read an oracle by draw number. Only where an algorithm depends on the distribution (`random.choices`) is the weighted interval stated. Seeding is not modelled.
- Floating point: numbers are exact reals or unbounded integers. Rounding, `inf`, `nan` and integer-float promotion are not modelled. `exp` (src/api/sa.py:55), `sqrt` (src/evaluators/campus_network.py:31) and `**` (src/api/ant_system.py:74) are parameters, and `ceil(log2(n))` is the least power of two at least n.
- In-place mutation and aliasing: `add`, `step`, `perturb` and the local-search callbacks return new values. The model does not capture that greedy, heuristic construction and the ant constructions return the very object they mutated, nor that GRASP, beam search and the ant systems work on copies so the inputs stay unchanged. `Printing3d.Solution.Copy` is the one place where a copy is modelled on objects.
- The solution protocol and the `local_search` callbacks are parameters with the contract `Contract.Valid`; no concrete problem is plugged into the algorithms.
- Logging and the statistics blocks (src/api/ant_system.py:130-145, src/api/mmas.py:140-154) have no effect on results and are left out, as are the command-line drivers and every `__main__` block.
- File reading: the evaluators and the parsers take already-split rows of integer tokens or parsed output lines. Splitting text and `int`/`float` conversion of single tokens are not modelled.
- src/api/solvers.py only re-exports the algorithms and is not part of this model.
- `lower_bound` of src/base.py (103-138) is not modelled: with at most one unpicked container it takes `min([])`, and otherwise it reads `container_to_plant[2]` of a two-row table, so it always raises. `copy` (64-68, wrong arity), `output` (50-55, int plus string) and the abstract methods (140-223) are not modelled either.
- The unimplemented members of src/3dprinting.py (`add`, `step`, `objective_incr_local`, `lower_bound_incr_add`, `perturb`, `components`, `heuristic_add_move`), `random_local_move` (uses an unimported `random`) and `empty_solution` (wrong arity) are not modelled. The instance keeps only the number of items, as the source does. Line 113 of that file is not valid Python, so the module as written does not import; the model describes the members as they are written.
- WasteCollection.Objective: the Solution fields `picked` and `not_picked` are taken as given; their consistency with the route is not modelled because no implemented member maintains them.
- WasteCollectionEvaluator.ObjectiveAgrees: stated only for routes that use no link of cost -1. On such a link the evaluator returns None while src/base.py adds -1 to the cost.
- CampusNetworkEvaluator.Evaluate: acceptance is proved for spanning trees with no link listed twice, and rejection of every other link set follows from the accepted case. That a link listed twice is always rejected is not stated.
- Grasp.Grasp: the run is built on the corrected end of a repetition described under "## Findings", which offers the local-search result only when it is feasible. The end as written at src/api/grasp.py:70-77, which can leave `best` None with `bestobj` set, is modelled by Grasp.EndAsWrittenLosesBest and not by the run.
- Contract.Mover: `objective` and `objIncr` return numbers, while the protocol's `objective_incr_local` returns an optional value. The local searches `cast` it to a number before use (src/api/first_improvement.py:43, src/api/sa.py:81, src/api/ils.py:48), so a None there is not modelled.
- Mmas.MmasRun: the TypeError of line 159 when no feasible ant was found before the first update is modelled as written.
- AntSystem.AntPick: when the weights sum to at most 0 the uniform `random.choice(cs)` is modelled, but only membership in cs is stated.
- Contract.Below: an oracle answer out of range is clamped to n - 1. A fair `randbelow` never gives one.

## Findings

| source | as written | input that shows it | evidently intended | confidence | as-written member | corrected member |
|---|---|---|---|---|---|---|
| src/api/grasp.py:70-77 | after `b = local_search(b)`, the update `if bestobj is None or bobj < bestobj: best, bestobj = b, bobj` is applied even when the local search returned None (or an infeasible solution, which keeps the construction's bobj) | no incumbent yet, a repetition ending with a feasible b of objective 1.0, and a local search that returns None: `best` becomes None while `bestobj` becomes 1.0, so `grasp` returns None although a feasible solution was found | update the incumbent only with a feasible local-search result, so `best` is None exactly when `bestobj` is None and otherwise a feasible solution with that objective | high (not executed) | Grasp.EndAsWrittenLosesBest | Grasp.EndKeepsWellFormed |
