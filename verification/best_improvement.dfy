/** Best-improvement local search (src/api/best_improvement.py): each round scans local_moves,
    keeping the most negative increment that is below the best so far and not close to it,
    and applies that one move; a round that keeps nothing ends the search.
    Line numbers in the comments below are those of src/api/best_improvement.py. */
module BestImprovement {
  import opened Wrappers
  import opened Contract
  import opened Utils
  import opened LocalSearch

  /** The increments of the moves ms from x, in order. */
  function Deltas<S, M>(mv: Mover<S, M>, x: S, ms: seq<M>): (r: seq<real>)
    ensures |r| == |ms| && forall i :: 0 <= i < |ms| ==> r[i] == mv.objIncr(x, ms[i])
  {
    seq(|ms|, i requires 0 <= i < |ms| => mv.objIncr(x, ms[i]))
  }

  /** A value far from one between it and 0 is far from 0 too. */
  lemma FarFromZero(d: real, x: real)
    requires d <= x <= 0.0 && !IsClose(d, x)
    ensures !IsClose(d, 0.0)
  {
    if IsClose(d, 0.0) {
      CloseBetween(d, x, 0.0);
    }
  }

  /** (best_incr, position of best_move) after scanning the increments ds: best_incr starts at
      0 and takes each increment below it and not close to it (lines 41-47). What is kept is
      a strictly improving increment, at its own position. */
  function BestScan(ds: seq<real>): (r: (real, Option<nat>))
    ensures r.0 <= 0.0
    ensures r.1.None? ==> r.0 == 0.0
    ensures r.1.Some? ==> r.1.value < |ds| && ds[r.1.value] == r.0 && Accepts(Strict, r.0)
    decreases |ds|
  {
    if ds == [] then (0.0, None)
    else
      var p := BestScan(ds[..|ds| - 1]);
      var d := ds[|ds| - 1];
      if d < p.0 && !IsClose(d, p.0) then FarFromZero(d, p.0); (d, Some(|ds| - 1)) else p
  }

  /** Every scanned increment is at least the kept one, or close to it. */
  lemma {:induction false} BestScanLeast(ds: seq<real>)
    ensures forall j :: 0 <= j < |ds| ==> BestScan(ds).0 <= ds[j] || IsClose(ds[j], BestScan(ds).0)
    decreases |ds|
  {
    if ds != [] {
      var q := ds[..|ds| - 1];
      BestScanLeast(q);
      var p := BestScan(q);
      var d := ds[|ds| - 1];
      if d < p.0 && !IsClose(d, p.0) {
        forall j | 0 <= j < |q| ensures d <= ds[j] || IsClose(ds[j], d) {
          assert ds[j] == q[j];
          if ds[j] < d {
            CloseBetween(ds[j], d, p.0);
          }
        }
      } else {
        assert forall j :: 0 <= j < |q| ==> ds[j] == q[j];
      }
    }
  }

  /** Nothing is kept exactly when no increment is strictly improving. */
  lemma BestScanNone(ds: seq<real>)
    ensures BestScan(ds).1.None? <==> forall j :: 0 <= j < |ds| ==> !Accepts(Strict, ds[j])
  {
    BestScanLeast(ds);
  }

  /** Among equal increments the earliest is kept: no increment before the kept one equals it. */
  lemma {:induction false} BestScanFirst(ds: seq<real>)
    requires BestScan(ds).1.Some?
    ensures forall j :: 0 <= j < BestScan(ds).1.value ==> ds[j] != BestScan(ds).0
    decreases |ds|
  {
    var q := ds[..|ds| - 1];
    var p := BestScan(q);
    var d := ds[|ds| - 1];
    if d < p.0 && !IsClose(d, p.0) {
      BestScanLeast(q);
      assert forall j :: 0 <= j < |q| ==> ds[j] == q[j];
    } else {
      BestScanFirst(q);
      assert forall j :: 0 <= j < |q| ==> ds[j] == q[j];
    }
  }

  /** m is the move kept by a round from x that scanned the first n local moves. */
  ghost predicate Picked<S, M>(mv: Mover<S, M>, x: S, n: nat, m: M)
  {
    var ms := mv.localMoves(x);
    n <= |ms| && BestScan(Deltas(mv, x, ms)[..n]).1.Some? && ms[BestScan(Deltas(mv, x, ms)[..n]).1.value] == m
  }

  /** A kept move is a local move that strictly improves. */
  lemma PickedImproves<S, M>(mv: Mover<S, M>, x: S, n: nat, m: M)
    requires Picked(mv, x, n, m)
    ensures m in mv.localMoves(x) && Accepts(Strict, mv.objIncr(x, m))
  {
    var ms := mv.localMoves(x);
    var i := BestScan(Deltas(mv, x, ms)[..n]).1.value;
    assert Deltas(mv, x, ms)[..n][i] == mv.objIncr(x, ms[i]);
  }

  /** A round that scanned every local move and kept none found that none strictly improves. */
  lemma CompleteScanNone<S, M>(mv: Mover<S, M>, x: S)
    requires BestScan(Deltas(mv, x, mv.localMoves(x))[..|mv.localMoves(x)|]).1.None?
    ensures forall m :: m in mv.localMoves(x) ==> !Accepts(Strict, mv.objIncr(x, m))
  {
    var ms := mv.localMoves(x);
    assert Deltas(mv, x, ms)[..|ms|] == Deltas(mv, x, ms);
    BestScanNone(Deltas(mv, x, ms));
    forall m | m in ms ensures !Accepts(Strict, mv.objIncr(x, m)) {
      var j :| 0 <= j < |ms| && ms[j] == m;
    }
  }

  /** The steps are the moves successive rounds keep, round i having scanned scanned[i] moves,
      and every round but the last scanned all the local moves. */
  ghost predicate Trail<S, M>(mv: Mover<S, M>, s: S, steps: seq<M>, scanned: seq<nat>)
    decreases |steps|
  {
    |scanned| == |steps| &&
    (steps == [] ||
     (var p := steps[..|steps| - 1];
      Trail(mv, s, p, scanned[..|p|]) &&
      Picked(mv, StepAll(mv, s, p), scanned[|p|], steps[|p|]) &&
      (p != [] ==> scanned[|p| - 1] == |mv.localMoves(StepAll(mv, s, p[..|p| - 1]))|)))
  }

  /** Trail, read at one position. */
  lemma {:induction false} TrailAt<S, M>(mv: Mover<S, M>, s: S, steps: seq<M>, scanned: seq<nat>, i: nat)
    requires Trail(mv, s, steps, scanned) && i < |steps|
    ensures Picked(mv, StepAll(mv, s, steps[..i]), scanned[i], steps[i])
    ensures i < |steps| - 1 ==> scanned[i] == |mv.localMoves(StepAll(mv, s, steps[..i]))|
    decreases |steps|
  {
    var p := steps[..|steps| - 1];
    if i < |p| {
      assert p[..i] == steps[..i] && p[i] == steps[i] && scanned[..|p|][i] == scanned[i];
      TrailAt(mv, s, p, scanned[..|p|], i);
      if i == |p| - 1 {
        assert p[..|p| - 1] == steps[..i];
      }
    }
  }

  /** Every kept move is strictly improving. */
  lemma {:induction false} TrailAccepted<S, M>(mv: Mover<S, M>, s: S, steps: seq<M>, scanned: seq<nat>)
    requires Trail(mv, s, steps, scanned)
    ensures Accepted(mv, Strict, s, steps)
    decreases |steps|
  {
    if steps != [] {
      var p := steps[..|steps| - 1];
      TrailAccepted(mv, s, p, scanned[..|p|]);
      var x := StepAll(mv, s, p);
      var ms := mv.localMoves(x);
      var i := BestScan(Deltas(mv, x, ms)[..scanned[|p|]]).1.value;
      assert Deltas(mv, x, ms)[..scanned[|p|]][i] == mv.objIncr(x, ms[i]);
    }
  }

  /** The clock readings of rounds that scan every local move: one for the loop test and one
      after each move, for each round that kept one of `steps`. */
  function FullCost<S, M>(mv: Mover<S, M>, s: S, steps: seq<M>): (r: nat)
    ensures r >= |steps|
    decreases |steps|
  {
    if steps == [] then 0
    else
      var p := steps[..|steps| - 1];
      FullCost(mv, s, p) + 1 + |mv.localMoves(StepAll(mv, s, p))|
  }

  /** How many local moves of x a round scans when `spent` readings precede its loop test:
      all of them, or as many as the budget leaves readings for. */
  function Window<S, M>(mv: Mover<S, M>, x: S, spent: nat, budget: nat): (r: nat)
    requires spent < budget
    ensures r <= |mv.localMoves(x)| && r <= budget - spent
    ensures r == |mv.localMoves(x)| || r == budget - spent
  {
    if |mv.localMoves(x)| <= budget - spent then |mv.localMoves(x)| else budget - spent
  }

  /** Every round that kept one of `steps` started within the budget and scanned its window. */
  ghost predicate Clocked<S, M>(mv: Mover<S, M>, s: S, steps: seq<M>, scanned: seq<nat>, budget: nat)
    decreases |steps|
  {
    |scanned| == |steps| &&
    (steps == [] ||
     (var p := steps[..|steps| - 1];
      Clocked(mv, s, p, scanned[..|p|], budget) &&
      FullCost(mv, s, p) < budget &&
      scanned[|p|] == Window(mv, StepAll(mv, s, p), FullCost(mv, s, p), budget)))
  }

  /** One round from x (lines 41-49): scan the local moves, reading the clock after each and
      stopping early when the budget is spent; `n` moves were scanned and `best` is the move
      kept, if any. */
  method Round<S, M>(mv: Mover<S, M>, x: S, clock: nat, budget: nat)
      returns (best: Option<M>, ghost n: nat, clock': nat)
    requires 1 <= clock <= budget
    ensures clock <= clock' <= budget && n <= |mv.localMoves(x)|
    ensures n == Window(mv, x, clock - 1, budget)
    ensures clock' == if clock + |mv.localMoves(x)| <= budget then clock + |mv.localMoves(x)| else budget
    ensures n < |mv.localMoves(x)| ==> clock' == budget
    ensures best.None? <==> BestScan(Deltas(mv, x, mv.localMoves(x))[..n]).1.None?
    ensures best.Some? ==> Picked(mv, x, n, best.value)
  {
    var ms := mv.localMoves(x);
    ghost var ds := Deltas(mv, x, ms);
    var bestIncr := 0.0;
    best, clock', n := None, clock, |ms|;
    ghost var idx: Option<nat> := None;
    for i := 0 to |ms|
      invariant clock' == clock + i <= budget
      invariant (bestIncr, idx) == BestScan(ds[..i])
      invariant best.None? <==> idx.None?
      invariant best.Some? ==> idx.value < |ms| && best.value == ms[idx.value]
    {
      assert ds[..i + 1][..i] == ds[..i];
      var delta := mv.objIncr(x, ms[i]);
      if delta < bestIncr && !IsClose(delta, bestIncr) {
        bestIncr, best, idx := delta, Some(ms[i]), Some(i);
      }
      if clock' >= budget {
        n := i + 1;
        return;
      }
      clock' := clock' + 1;
    }
    assert ds[..|ms|] == ds;
  }

  /** The state of best_improvement between rounds: r is the solution after the kept steps,
      the clock has spent FullCost of them (or the whole budget), their rounds form a Trail
      that is Clocked, a round cut short left the budget spent, and no step was kept from a
      solution none of whose local moves strictly improves. */
  ghost predicate Progressing<S, M>(mv: Mover<S, M>, solution: S, budget: nat, r: S, clock: nat, steps: seq<M>,
                                    scanned: seq<nat>)
  {
    && r == StepAll(mv, solution, steps) && |steps| <= clock <= budget
    && clock == (if FullCost(mv, solution, steps) <= budget then FullCost(mv, solution, steps) else budget)
    && Trail(mv, solution, steps, scanned) && Clocked(mv, solution, steps, scanned, budget)
    && (steps != [] && scanned[|steps| - 1] < |mv.localMoves(StepAll(mv, solution, steps[..|steps| - 1]))| ==>
          clock == budget)
    && ((forall m :: m in mv.localMoves(solution) ==> !Accepts(Strict, mv.objIncr(solution, m))) ==> steps == [])
  }

  /** Lines 40-54 of src/api/best_improvement.py: one pass of the main loop, which reads the
      clock and runs a Round from r. A kept move is applied and recorded; when none is kept
      the search stops, at a local optimum exactly when the round scanned every local move
      within the budget. */
  method Advance<S(!new), M(!new)>(mv: Mover<S, M>, solution: S, budget: nat, r: S, clock: nat,
                                   ghost steps: seq<M>, ghost scanned: seq<nat>)
      returns (best: Option<M>, r': S, clock': nat, ghost steps': seq<M>, ghost scanned': seq<nat>,
               ghost optimum: bool)
    requires clock < budget && Progressing(mv, solution, budget, r, clock, steps, scanned)
    ensures best.Some? ==>
              clock < clock' && Progressing(mv, solution, budget, r', clock', steps', scanned') && !optimum
    ensures best.None? ==> r' == r && steps' == steps && scanned' == scanned
    ensures best.None? ==>
              BestScan(Deltas(mv, r, mv.localMoves(r))[..Window(mv, r, FullCost(mv, solution, steps), budget)]).1.None?
    ensures best.None? ==> (optimum <==> FullCost(mv, solution, steps) + |mv.localMoves(r)| <= budget)
    ensures optimum ==> forall m :: m in mv.localMoves(r) ==> !Accepts(Strict, mv.objIncr(r, m))
  {
    ghost var n;
    best, n, clock' := Round(mv, r, clock + 1, budget);
    r', steps', scanned' := r, steps, scanned;
    ghost var ms := mv.localMoves(r);
    optimum := best.None? && n == |ms|;
    if best.None? {
      if optimum {
        CompleteScanNone(mv, r);
      }
      return;
    }
    PickedImproves(mv, r, n, best.value);
    assert (steps + [best.value])[..|steps|] == steps;
    assert (scanned + [n])[..|steps|] == scanned;
    steps', scanned' := steps + [best.value], scanned + [n];
    r' := mv.step(r, best.value);
  }

  /** best_improvement(solution, budget). `steps` are the moves applied, round i having
      scanned scanned[i] moves; `optimum` tells that the search ended on a complete round that
      kept nothing. Each step is the strictly improving move its round kept; only the last
      round can have been cut short by the budget, and the move it kept so far is applied;
      the search stops only after a round that keeps nothing, or when the budget is spent; a
      local optimum is returned unchanged; and with a consistent objective_incr_local each
      step lowers the objective by more than the absolute tolerance. */
  method BestImprovement<S(!new), M(!new)>(mv: Mover<S, M>, solution: S, budget: nat)
      returns (r: S, ghost steps: seq<M>, ghost scanned: seq<nat>, ghost optimum: bool)
    ensures r == StepAll(mv, solution, steps) && |steps| <= budget
    ensures Trail(mv, solution, steps, scanned) && Clocked(mv, solution, steps, scanned, budget)
    ensures FullCost(mv, solution, steps) < budget ==>
              BestScan(Deltas(mv, r, mv.localMoves(r))[..Window(mv, r, FullCost(mv, solution, steps), budget)]).1.None?
    ensures optimum <==> FullCost(mv, solution, steps) < budget &&
                         FullCost(mv, solution, steps) + |mv.localMoves(r)| <= budget
    ensures optimum ==> forall m :: m in mv.localMoves(r) ==> !Accepts(Strict, mv.objIncr(r, m))
    ensures (forall m :: m in mv.localMoves(solution) ==> !Accepts(Strict, mv.objIncr(solution, m))) ==>
              r == solution && steps == []
    ensures Consistent(mv) ==> mv.objective(r) <= mv.objective(solution) - Times(|steps|, AbsTol)
  {
    r, steps, scanned, optimum := solution, [], [], false;
    var clock := 0;
    while clock < budget
      invariant Progressing(mv, solution, budget, r, clock, steps, scanned) && !optimum
      decreases budget - clock
    {
      var best;
      best, r, clock, steps, scanned, optimum := Advance(mv, solution, budget, r, clock, steps, scanned);
      if best.None? {
        break;
      }
    }
    if Consistent(mv) {
      TrailAccepted(mv, solution, steps, scanned);
      AcceptedObjective(mv, Strict, solution, steps);
    }
  }
}
