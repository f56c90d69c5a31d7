/** Iterated local search (src/api/ils.py): first-improvement descent to a local optimum, which
    replaces the incumbent when it is better or about as good; the working solution (reset to
    the incumbent otherwise) is then perturbed and the descent resumes.
    Line numbers in the comments below are those of src/api/ils.py. */
module Ils {
  import opened Wrappers
  import opened Contract
  import opened Utils
  import opened LocalSearch

  /** Lines 52-57 and 68-72: the working solution when strictly better than the incumbent,
      else the incumbent. */
  function Final<S, M>(mv: Mover<S, M>, s: S, best: S): (r: S)
    ensures r == s || r == best
    ensures mv.objective(r) <= mv.objective(best)
    ensures r == s && r != best ==> mv.objective(s) < mv.objective(best)
  {
    if mv.objective(s) < mv.objective(best) then s else best
  }

  /** Each incumbent objective is below the previous one or close to it. */
  ghost predicate Chain(bests: seq<real>)
  {
    forall i :: 0 < i < |bests| ==> bests[i] < bests[i - 1] || IsClose(bests[i], bests[i - 1])
  }

  /** When no incumbent was replaced by a worse one, the last incumbent objective is at most the
      first. */
  lemma {:induction false} ChainDescends(bests: seq<real>)
    requires |bests| > 0
    requires forall i :: 0 < i < |bests| ==> bests[i] <= bests[i - 1]
    ensures bests[|bests| - 1] <= bests[0]
    decreases |bests|
  {
    if |bests| > 1 {
      ChainDescends(bests[..|bests| - 1]);
    }
  }

  /** The run of ils's main loop from the working solution s and the incumbent best, with draw
      number k and clock reading clock (lines 41-72 of src/api/ils.py). Each pass reads the
      clock once and enumerates the moves of s. A reading past the budget after a rejected
      move ends the run with Final. A strictly improving move is applied. An exhausted
      enumeration is a local optimum: it becomes the incumbent when better than the incumbent
      or close to it, and otherwise the working solution is reset to the incumbent; either way
      the working solution is then perturbed, with the next draw number. The result is the
      returned solution and the objectives of the new incumbents, in order. */
  ghost function Iterated<S, M>(mv: Mover<S, M>, s: S, best: S, k: nat, clock: nat, budget: nat, ks: nat)
      : (r: (S, seq<real>))
    decreases budget - clock
  {
    if clock >= budget then (Final(mv, s, best), [])
    else
      var ms := mv.randomMovesWor(s, k);
      var clock' := clock + 1 + Rejections(mv, Strict, s, k);
      if clock' > budget then (Final(mv, s, best), [])
      else match FirstIndex(mv, Strict, s, ms)
        case Some(i) => Iterated(mv, mv.step(s, ms[i]), best, k + 1, clock', budget, ks)
        case None =>
          var obj := mv.objective(s);
          if obj < mv.objective(best) || IsClose(obj, mv.objective(best)) then
            var w := Iterated(mv, mv.perturb(s, ks, k + 1), s, k + 2, clock', budget, ks);
            (w.0, [obj] + w.1)
          else Iterated(mv, mv.perturb(best, ks, k + 1), best, k + 2, clock', budget, ks)
  }

  /** One pass of the main loop, whose enumeration from s with draw number k, started at clock
      reading clock + 1, ended with o at reading clock', is the first step of Iterated. */
  lemma IteratedPass<S, M>(mv: Mover<S, M>, s: S, best: S, k: nat, clock: nat, budget: nat, ks: nat,
                           o: Outcome<M>, clock': nat)
    requires clock < budget && clock' <= budget
    requires o.Exhausted? ==> FirstIndex(mv, Strict, s, mv.randomMovesWor(s, k)).None?
    requires o.Stepped? ==> Chosen(mv, Strict, s, k, o.m)
    requires !o.Expired? ==> clock' == clock + 1 + Rejections(mv, Strict, s, k)
    requires o.Expired? <==> clock + 1 + Rejections(mv, Strict, s, k) > budget
    ensures o.Expired? ==> Iterated(mv, s, best, k, clock, budget, ks) == (Final(mv, s, best), [])
    ensures o.Stepped? ==>
              Iterated(mv, s, best, k, clock, budget, ks) == Iterated(mv, mv.step(s, o.m), best, k + 1, clock', budget, ks)
    ensures o.Exhausted? && (mv.objective(s) < mv.objective(best) || IsClose(mv.objective(s), mv.objective(best))) ==>
              Iterated(mv, s, best, k, clock, budget, ks) ==
              (var w := Iterated(mv, mv.perturb(s, ks, k + 1), s, k + 2, clock', budget, ks); (w.0, [mv.objective(s)] + w.1))
    ensures o.Exhausted? && !(mv.objective(s) < mv.objective(best) || IsClose(mv.objective(s), mv.objective(best))) ==>
              Iterated(mv, s, best, k, clock, budget, ks) ==
              Iterated(mv, mv.perturb(best, ks, k + 1), best, k + 2, clock', budget, ks)
  {
  }

  /** The state of ils between passes, w being the run from the start: the incumbent
      objectives so far form a Chain from the initial one, the last being the incumbent's, and
      the rest of the run is Iterated from the working solution and incumbent. */
  ghost predicate Searching<S, M>(mv: Mover<S, M>, solution: S, budget: nat, ks: nat, w: (S, seq<real>),
                                  bests: seq<real>, s: S, best: S, bestObj: real, k: nat, clock: nat)
  {
    var rest := Iterated(mv, s, best, k, clock, budget, ks);
    && clock <= budget
    && |bests| > 0 && bests[0] == mv.objective(solution) && Chain(bests)
    && bestObj == mv.objective(best) == bests[|bests| - 1]
    && w.0 == rest.0 && [mv.objective(solution)] + w.1 == bests + rest.1
  }

  /** Lines 44-65 of src/api/ils.py: one pass of the main loop, which enumerates the moves of
      the working solution and applies a strictly improving one, or at a local optimum updates
      the incumbent or resets to it and perturbs, or finds the budget spent (`done`), in which
      case the run's result is Final of the state it leaves. */
  method Round<S, M>(mv: Mover<S, M>, solution: S, budget: nat, ks: nat, s: S, best: S, bestObj: real, k: nat,
                     clock: nat, ghost w: (S, seq<real>), ghost bests: seq<real>)
      returns (done: bool, s': S, best': S, bestObj': real, k': nat, clock': nat, ghost bests': seq<real>)
    requires clock < budget
    requires Searching(mv, solution, budget, ks, w, bests, s, best, bestObj, k, clock)
    ensures clock < clock' <= budget
    ensures !done ==> Searching(mv, solution, budget, ks, w, bests', s', best', bestObj', k', clock')
    ensures done ==> bests' == bests && w == (Final(mv, s', best'), bests[1..])
    ensures done ==> |bests| > 0 && bestObj' == mv.objective(best') == bests[|bests| - 1] && s' == s && best' == best
  {
    var o;
    o, clock' := Scan(mv, Strict, s, k, clock + 1, budget);
    IteratedPass(mv, s, best, k, clock, budget, ks, o, clock');
    ghost var rest := Iterated(mv, s, best, k, clock, budget, ks).1;
    s', best', bestObj', k', bests' := s, best, bestObj, k + 1, bests;
    done := o.Expired?;
    match o {
      case Stepped(m) =>
        s' := mv.step(s, m);
      case Expired =>
        assert [mv.objective(solution)] + w.1 == bests;
      case Exhausted =>
        var obj := mv.objective(s);
        if obj < bestObj || IsClose(obj, bestObj) {
          best', bestObj' := s, obj;
          assert bests + rest == (bests + [obj]) + rest[1..];
          bests' := bests + [obj];
        } else {
          s' := best;
        }
        s' := mv.perturb(s', ks, k');
        k' := k' + 1;
    }
  }

  /** ils(solution, budget, ks). The draw counter numbers the enumerations and the
      perturbations in order. `bests` lists the objectives of the successive incumbents,
      starting from the initial solution's. The result is the incumbent or a strictly better
      working solution, so it is at least as good as the last incumbent, and, when no
      incumbent was replaced by a worse one within the tolerance, as good as the initial
      solution. */
  method Ils<S, M>(mv: Mover<S, M>, solution: S, budget: nat, ks: nat)
      returns (r: S, ghost bests: seq<real>)
    ensures |bests| > 0 && bests[0] == mv.objective(solution)
    ensures Chain(bests)
    ensures mv.objective(r) <= bests[|bests| - 1]
    ensures (forall i :: 0 < i < |bests| ==> bests[i] <= bests[i - 1]) ==> mv.objective(r) <= mv.objective(solution)
    ensures budget == 0 ==> r == solution
    ensures r == Iterated(mv, solution, solution, 0, 0, budget, ks).0
    ensures bests == [mv.objective(solution)] + Iterated(mv, solution, solution, 0, 0, budget, ks).1
  {
    ghost var w := Iterated(mv, solution, solution, 0, 0, budget, ks);
    var best := solution;
    var bestObj := mv.objective(best);
    bests := [bestObj];
    var s := solution;
    var clock := 0;
    var k := 0;
    while clock < budget
      invariant Searching(mv, solution, budget, ks, w, bests, s, best, bestObj, k, clock)
      invariant budget == 0 ==> s == solution && best == solution
      decreases budget - clock
    {
      var done;
      done, s, best, bestObj, k, clock, bests := Round(mv, solution, budget, ks, s, best, bestObj, k, clock, w, bests);
      if done {
        break;
      }
    }
    r := Final(mv, s, best);
    if forall i :: 0 < i < |bests| ==> bests[i] <= bests[i - 1] {
      ChainDescends(bests);
    }
  }
}
