/** What the scan-based local searches (src/api/first_improvement.py, rls.py, ils.py) share:
    one enumeration of random_local_moves_wor stopping at the first acceptable move, the
    trace of moves such enumerations choose, and what accepting them does to the objective. */
module LocalSearch {
  import opened Wrappers
  import opened Contract
  import opened Utils

  /** The acceptance test of a scan: Strict is first improvement's and ILS's
      `incr < 0 and not isclose(incr, 0)`, Lenient is RLS's `delta < 0 or isclose(delta, 0.0)`. */
  datatype Rule = Strict | Lenient

  predicate Accepts(rule: Rule, d: real)
  {
    match rule
    case Strict => d < 0.0 && !IsClose(d, 0.0)
    case Lenient => d < 0.0 || IsClose(d, 0.0)
  }

  /** A strictly improving increment lowers the objective by more than the absolute tolerance;
      an accepted lenient one raises it by at most that tolerance. */
  lemma AcceptsBound(rule: Rule, d: real)
    requires Accepts(rule, d)
    ensures rule == Strict ==> d < -AbsTol
    ensures rule == Lenient ==> d <= AbsTol
  {
    IsCloseToZero(d);
  }

  /** The position of the first move of ms, in order, whose increment from x the rule accepts. */
  function FirstIndex<S, M>(mv: Mover<S, M>, rule: Rule, x: S, ms: seq<M>): (r: Option<nat>)
    ensures r.Some? ==> r.value < |ms| && Accepts(rule, mv.objIncr(x, ms[r.value]))
    ensures r.Some? ==> forall j :: 0 <= j < r.value ==> !Accepts(rule, mv.objIncr(x, ms[j]))
    ensures r.None? ==> forall j :: 0 <= j < |ms| ==> !Accepts(rule, mv.objIncr(x, ms[j]))
    decreases |ms|
  {
    if ms == [] then None
    else if Accepts(rule, mv.objIncr(x, ms[0])) then Some(0)
    else
      var rest := FirstIndex(mv, rule, x, ms[1..]);
      if rest.None? then None else Some(rest.value + 1)
  }

  /** m is the move an enumeration with draw number k picks from x. */
  ghost predicate Chosen<S, M>(mv: Mover<S, M>, rule: Rule, x: S, k: nat, m: M)
  {
    var ms := mv.randomMovesWor(x, k);
    FirstIndex(mv, rule, x, ms).Some? && ms[FirstIndex(mv, rule, x, ms).value] == m
  }

  /** random_local_moves_wor enumerates the same moves as local_moves, in some order. */
  ghost predicate Enumerates<S(!new), M>(mv: Mover<S, M>)
  {
    forall s, k :: multiset(mv.randomMovesWor(s, k)) == multiset(mv.localMoves(s))
  }

  /** Under that contract, a complete enumeration finding no acceptable move means that no
      local move is acceptable, whatever the order. */
  lemma ExhaustedIsOptimum<S(!new), M>(mv: Mover<S, M>, rule: Rule, x: S, k: nat)
    requires Enumerates(mv)
    ensures FirstIndex(mv, rule, x, mv.randomMovesWor(x, k)).None? <==>
            forall m :: m in mv.localMoves(x) ==> !Accepts(rule, mv.objIncr(x, m))
  {
    var ms := mv.randomMovesWor(x, k);
    assert multiset(ms) == multiset(mv.localMoves(x));
    if FirstIndex(mv, rule, x, ms).None? {
      forall m | m in mv.localMoves(x) ensures !Accepts(rule, mv.objIncr(x, m)) {
        assert m in multiset(ms);
        var j :| 0 <= j < |ms| && ms[j] == m;
      }
    } else {
      var i := FirstIndex(mv, rule, x, ms).value;
      assert ms[i] in multiset(mv.localMoves(x));
    }
  }

  /** The moves are accepted in turn: each one's increment, from the solution the earlier ones
      reach, passes the rule. */
  ghost predicate Accepted<S, M>(mv: Mover<S, M>, rule: Rule, s: S, steps: seq<M>)
    decreases |steps|
  {
    steps == [] ||
    (Accepted(mv, rule, s, steps[..|steps| - 1]) &&
     Accepts(rule, mv.objIncr(StepAll(mv, s, steps[..|steps| - 1]), steps[|steps| - 1])))
  }

  /** The moves are the ones successive enumerations choose: move i is the first acceptable
      move of enumeration k0 + i from the solution the earlier moves reach. */
  ghost predicate Descent<S, M>(mv: Mover<S, M>, rule: Rule, s: S, steps: seq<M>, k0: nat)
    decreases |steps|
  {
    steps == [] ||
    (Descent(mv, rule, s, steps[..|steps| - 1], k0) &&
     Chosen(mv, rule, StepAll(mv, s, steps[..|steps| - 1]), k0 + |steps| - 1, steps[|steps| - 1]))
  }

  /** Descent, read at one position. */
  lemma {:induction false} DescentAt<S, M>(mv: Mover<S, M>, rule: Rule, s: S, steps: seq<M>, k0: nat, i: nat)
    requires Descent(mv, rule, s, steps, k0) && i < |steps|
    ensures Chosen(mv, rule, StepAll(mv, s, steps[..i]), k0 + i, steps[i])
    decreases |steps|
  {
    if i < |steps| - 1 {
      var p := steps[..|steps| - 1];
      assert p[..i] == steps[..i] && p[i] == steps[i];
      DescentAt(mv, rule, s, p, k0, i);
    }
  }

  /** Every move a descent chooses is accepted. */
  lemma {:induction false} DescentAccepted<S, M>(mv: Mover<S, M>, rule: Rule, s: S, steps: seq<M>, k0: nat)
    requires Descent(mv, rule, s, steps, k0)
    ensures Accepted(mv, rule, s, steps)
    decreases |steps|
  {
    if steps != [] {
      DescentAccepted(mv, rule, s, steps[..|steps| - 1], k0);
    }
  }

  /** With objective_incr_local consistent with step, strictly improving moves lower the
      objective by more than the absolute tolerance each, and lenient ones raise it by at most
      that tolerance each. */
  lemma {:induction false} AcceptedObjective<S(!new), M(!new)>(mv: Mover<S, M>, rule: Rule, s: S, steps: seq<M>)
    requires Consistent(mv) && Accepted(mv, rule, s, steps)
    ensures rule == Strict ==> mv.objective(StepAll(mv, s, steps)) <= mv.objective(s) - Times(|steps|, AbsTol)
    ensures rule == Strict && steps != [] ==> mv.objective(StepAll(mv, s, steps)) < mv.objective(s)
    ensures rule == Lenient ==> mv.objective(StepAll(mv, s, steps)) <= mv.objective(s) + Times(|steps|, AbsTol)
    decreases |steps|
  {
    if steps != [] {
      var p := steps[..|steps| - 1];
      AcceptedObjective(mv, rule, s, p);
      var x := StepAll(mv, s, p);
      AcceptsBound(rule, mv.objIncr(x, steps[|steps| - 1]));
      assert mv.objective(StepAll(mv, s, steps)) == mv.objective(x) + mv.objIncr(x, steps[|steps| - 1]);
    }
  }

  /** How many moves an enumeration rejects, each followed by a clock reading: those before
      the first acceptable one, or all of them when none is acceptable. */
  function Rejections<S, M>(mv: Mover<S, M>, rule: Rule, x: S, k: nat): (r: nat)
    ensures r <= |mv.randomMovesWor(x, k)|
    ensures FirstIndex(mv, rule, x, mv.randomMovesWor(x, k)).Some? ==>
              r == FirstIndex(mv, rule, x, mv.randomMovesWor(x, k)).value
  {
    var ms := mv.randomMovesWor(x, k);
    match FirstIndex(mv, rule, x, ms)
    case Some(i) => i
    case None => |ms|
  }

  /** The clock readings the enumerations that chose `steps` made: one before each
      enumeration (the loop test) and one after each move it rejected. */
  function Spent<S, M>(mv: Mover<S, M>, rule: Rule, s: S, steps: seq<M>, k0: nat): (r: nat)
    ensures r >= |steps|
    decreases |steps|
  {
    if steps == [] then 0
    else
      var p := steps[..|steps| - 1];
      Spent(mv, rule, s, p, k0) + 1 + Rejections(mv, rule, StepAll(mv, s, p), k0 + |p|)
  }

  /** How one enumeration ended: it chose a move, it ran out of moves, or a clock reading after
      a rejected move found the budget spent. */
  datatype Outcome<M> = Stepped(m: M) | Exhausted | Expired

  /** One enumeration `for move in solution.random_local_moves_wor()` with draw number k: the
      first acceptable move is returned before any clock reading about it; after each
      rejected move the clock is read and a reading past the budget ends the search. */
  method Scan<S, M>(mv: Mover<S, M>, rule: Rule, x: S, k: nat, clock: nat, budget: nat)
      returns (o: Outcome<M>, clock': nat)
    requires clock <= budget
    ensures clock <= clock' <= budget
    ensures o.Exhausted? ==> FirstIndex(mv, rule, x, mv.randomMovesWor(x, k)).None?
    ensures o.Stepped? ==> Chosen(mv, rule, x, k, o.m)
    ensures !o.Expired? ==> clock' == clock + Rejections(mv, rule, x, k)
    ensures o.Expired? <==> clock + Rejections(mv, rule, x, k) > budget
    ensures o.Expired? ==> clock' == budget
  {
    var ms := mv.randomMovesWor(x, k);
    clock' := clock;
    for i := 0 to |ms|
      invariant clock' == clock + i <= budget
      invariant forall j :: 0 <= j < i ==> !Accepts(rule, mv.objIncr(x, ms[j]))
    {
      if Accepts(rule, mv.objIncr(x, ms[i])) {
        FirstIndexAt(mv, rule, x, ms, i);
        return Stepped(ms[i]), clock';
      }
      if clock' >= budget {
        FirstIndexBeyond(mv, rule, x, ms, i);
        return Expired, clock';
      }
      clock' := clock' + 1;
    }
    FirstIndexBeyond(mv, rule, x, ms, |ms|);
    o := Exhausted;
  }

  /** The first acceptable position is the one before which nothing is acceptable. */
  lemma {:induction false} FirstIndexAt<S, M>(mv: Mover<S, M>, rule: Rule, x: S, ms: seq<M>, i: nat)
    requires i < |ms| && Accepts(rule, mv.objIncr(x, ms[i]))
    requires forall j :: 0 <= j < i ==> !Accepts(rule, mv.objIncr(x, ms[j]))
    ensures FirstIndex(mv, rule, x, ms) == Some(i)
    decreases i
  {
    if i > 0 {
      assert forall j :: 0 <= j < i - 1 ==> ms[1..][j] == ms[j + 1];
      FirstIndexAt(mv, rule, x, ms[1..], i - 1);
    }
  }

  /** No acceptable move among the first i: the first acceptable one, if any, comes later. */
  lemma {:induction false} FirstIndexBeyond<S, M>(mv: Mover<S, M>, rule: Rule, x: S, ms: seq<M>, i: nat)
    requires i <= |ms|
    requires forall j :: 0 <= j < i ==> !Accepts(rule, mv.objIncr(x, ms[j]))
    ensures FirstIndex(mv, rule, x, ms).Some? ==> FirstIndex(mv, rule, x, ms).value >= i
    ensures i == |ms| ==> FirstIndex(mv, rule, x, ms).None?
  {
    if FirstIndex(mv, rule, x, ms).Some? {
      var f := FirstIndex(mv, rule, x, ms).value;
      if f < i {
        assert false;
      }
    }
  }

  /** The loop first_improvement and rls share: read the clock, scan one enumeration, apply
      the move it chose, and stop when an enumeration finds nothing (`optimum`) or the budget
      is spent. The steps are the moves successive enumerations choose, and the search stops
      exactly when the next enumeration either fits in the budget and finds nothing, or
      does not fit in it. */
  method Descend<S, M>(mv: Mover<S, M>, rule: Rule, solution: S, budget: nat)
      returns (r: S, ghost steps: seq<M>, ghost optimum: bool)
    ensures r == StepAll(mv, solution, steps) && Spent(mv, rule, solution, steps, 0) <= budget
    ensures Descent(mv, rule, solution, steps, 0)
    ensures optimum ==> FirstIndex(mv, rule, r, mv.randomMovesWor(r, |steps|)).None?
    ensures optimum <==> Spent(mv, rule, solution, steps, 0) + 1 + Rejections(mv, rule, r, |steps|) <= budget
    ensures budget == 0 ==> r == solution && steps == [] && !optimum
  {
    r, steps, optimum := solution, [], false;
    var clock := 0;
    var k := 0;
    while clock < budget
      invariant r == StepAll(mv, solution, steps) && k == |steps|
      invariant clock == Spent(mv, rule, solution, steps, 0) <= budget
      invariant Descent(mv, rule, solution, steps, 0)
      invariant !optimum
      decreases budget - clock
    {
      clock := clock + 1;
      var o;
      o, clock := Scan(mv, rule, r, k, clock, budget);
      if o.Expired? {
        return;
      }
      if o.Exhausted? {
        optimum := true;
        return;
      }
      assert (steps + [o.m])[..|steps|] == steps;
      steps := steps + [o.m];
      r := mv.step(r, o.m);
      k := k + 1;
    }
  }
}
