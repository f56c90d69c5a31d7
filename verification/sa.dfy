/** Simulated annealing (src/api/sa.py): in each random enumeration, the first move whose
    acceptance probability at the current temperature reaches a random draw is applied; a
    temperature at or below zero ends the enumeration; the best solution visited is returned.
    Line numbers in the comments below are those of src/api/sa.py. */
module Sa {
  import opened Wrappers
  import opened Contract
  import opened Utils

  /** LinearDecay(init_temp)(t) = t * init_temp: init_temp at the start of the budget (t = 1),
      0 at its end (t = 0), and positive exactly while t is, for a positive init_temp. */
  function LinearDecay(initTemp: real, t: real): (r: real)
    ensures t == 1.0 ==> r == initTemp
    ensures t == 0.0 ==> r == 0.0
    ensures initTemp > 0.0 ==> (r > 0.0 <==> t > 0.0)
  {
    t * initTemp
  }

  /** ExponentialAcceptance()(incr, t): 1.0 for a non-worsening move, else exp(-incr / t), the
      division raising ZeroDivisionError at t = 0. `exp` is a parameter. */
  function ExponentialAcceptance(exp: real -> real, incr: real, t: real): (r: Run<real>)
    ensures incr <= 0.0 ==> r == Ok(1.0)
    ensures r.Raised? <==> incr > 0.0 && t == 0.0
    ensures r.Raised? ==> r.error == ZeroDivisionError
  {
    if incr <= 0.0 then Ok(1.0)
    else if t == 0.0 then Raised(ZeroDivisionError)
    else Ok(exp(-incr / t))
  }

  /** A non-worsening move passes `acceptance(incr, t) >= random.random()` for every draw in
      [0, 1). */
  lemma NonWorseningAccepted(exp: real -> real, incr: real, t: real, u: real)
    requires incr <= 0.0 && 0.0 <= u < 1.0
    ensures ExponentialAcceptance(exp, incr, t).Ok? && ExponentialAcceptance(exp, incr, t).value >= u
  {
  }

  /** temperature(1 - elapsed / budget) at the clock reading c. */
  function Temp(temperature: real -> real, c: nat, budget: nat): real
    requires budget > 0
  {
    temperature(1.0 - (c as real) / (budget as real))
  }

  /** Move m was considered and rejected with draw number d at clock reading c: the temperature
      was positive and the acceptance fell below the draw. */
  ghost predicate Rejected<S, M>(mv: Mover<S, M>, temperature: real -> real, acceptance: (real, real) -> Run<real>,
                                 rng: Oracle, s: S, m: M, d: nat, c: nat, budget: nat)
    requires budget > 0
  {
    var t := Temp(temperature, c, budget);
    t > 0.0 && acceptance(mv.objIncr(s, m), t).Ok? && acceptance(mv.objIncr(s, m), t).value < rng.unit(d)
  }

  /** Move m was accepted with draw number d at clock reading c: the temperature was positive
      and the acceptance reached the draw. */
  ghost predicate Accepted<S, M>(mv: Mover<S, M>, temperature: real -> real, acceptance: (real, real) -> Run<real>,
                                 rng: Oracle, s: S, m: M, d: nat, c: nat, budget: nat)
    requires budget > 0
  {
    var t := Temp(temperature, c, budget);
    t > 0.0 && acceptance(mv.objIncr(s, m), t).Ok? && acceptance(mv.objIncr(s, m), t).value >= rng.unit(d)
  }

  /** The rest of an enumeration of the moves ms from s, at move j with draw number d and clock
      reading c (lines 77-89 of src/api/sa.py): the temperature is read first, and one at or
      below zero stops the enumeration; then a raising acceptance raises, an acceptance at
      least draw d accepts move j, and otherwise move j is rejected and the next one is tried
      with the next draw and reading. The result is the outcome, the draw number and clock
      reading after it, and the index of the move it stopped at. */
  function Scan<S, M>(mv: Mover<S, M>, s: S, ms: seq<M>, j: nat, d: nat, c: nat, budget: nat,
                      temperature: real -> real, acceptance: (real, real) -> Run<real>,
                      rng: Oracle): (r: (Run<Option<M>>, nat, nat, nat))
    requires budget > 0
    ensures d <= r.1 && c <= r.2 && j <= r.3
    decreases |ms| - j
  {
    if j >= |ms| then (Ok(None), d, c, j)
    else
      var t := Temp(temperature, c, budget);
      if t <= 0.0 then (Ok(None), d, c + 1, j)
      else
        var a := acceptance(mv.objIncr(s, ms[j]), t);
        if a.Raised? then (Raised(a.error), d, c + 1, j)
        else if a.value >= rng.unit(d) then (Ok(Some(ms[j])), d + 1, c + 1, j)
        else Scan(mv, s, ms, j + 1, d + 1, c + 1, budget, temperature, acceptance, rng)
  }

  /** How an enumeration from move j ends, n being the index it stopped at: n = |ms| when the
      moves ran out, and then nothing was accepted; otherwise move n was accepted, or the
      temperature at move n was not positive, or acceptance raised at move n. */
  lemma {:induction false} ScanStops<S, M>(mv: Mover<S, M>, s: S, ms: seq<M>, j: nat, d: nat, c: nat, budget: nat,
                                           temperature: real -> real, acceptance: (real, real) -> Run<real>,
                                           rng: Oracle)
    requires budget > 0 && j <= |ms|
    ensures var r := Scan(mv, s, ms, j, d, c, budget, temperature, acceptance, rng);
            && r.3 <= |ms|
            && (r.3 == |ms| ==> r.0 == Ok(None))
            && (r.0.Ok? && r.0.value.Some? ==>
                  r.3 < |ms| && r.0.value.value == ms[r.3] &&
                  Accepted(mv, temperature, acceptance, rng, s, ms[r.3], d + (r.3 - j), c + (r.3 - j), budget))
            && (r.0 == Ok(None) && r.3 < |ms| ==> Temp(temperature, c + (r.3 - j), budget) <= 0.0)
            && (r.0.Raised? ==>
                  r.3 < |ms| &&
                  acceptance(mv.objIncr(s, ms[r.3]), Temp(temperature, c + (r.3 - j), budget)) == Raised(r.0.error))
    decreases |ms| - j
  {
    if j < |ms| {
      var t := Temp(temperature, c, budget);
      var a := acceptance(mv.objIncr(s, ms[j]), t);
      if t > 0.0 && a.Ok? && a.value < rng.unit(d) {
        ScanStops(mv, s, ms, j + 1, d + 1, c + 1, budget, temperature, acceptance, rng);
      }
    }
  }

  /** An enumeration from move j that stopped at move n took one draw per move it rejected or
      accepted and one clock reading per move it considered. */
  lemma {:induction false} ScanCounts<S, M>(mv: Mover<S, M>, s: S, ms: seq<M>, j: nat, d: nat, c: nat, budget: nat,
                                            temperature: real -> real, acceptance: (real, real) -> Run<real>,
                                            rng: Oracle)
    requires budget > 0 && j <= |ms|
    ensures var r := Scan(mv, s, ms, j, d, c, budget, temperature, acceptance, rng);
            && r.3 <= |ms|
            && r.1 == d + (r.3 - j) + (if r.0.Ok? && r.0.value.Some? then 1 else 0)
            && r.2 == c + (r.3 - j) + (if r.3 < |ms| then 1 else 0)
    decreases |ms| - j
  {
    if j < |ms| {
      var t := Temp(temperature, c, budget);
      var a := acceptance(mv.objIncr(s, ms[j]), t);
      if t > 0.0 && a.Ok? && a.value < rng.unit(d) {
        ScanCounts(mv, s, ms, j + 1, d + 1, c + 1, budget, temperature, acceptance, rng);
      }
    }
  }

  /** Every move an enumeration from move j passed over before the one it stopped at was
      rejected, move i with draw number d + (i - j) at clock reading c + (i - j). */
  lemma {:induction false} ScanRejects<S, M>(mv: Mover<S, M>, s: S, ms: seq<M>, j: nat, d: nat, c: nat, budget: nat,
                                             temperature: real -> real, acceptance: (real, real) -> Run<real>,
                                             rng: Oracle)
    requires budget > 0 && j <= |ms|
    ensures var r := Scan(mv, s, ms, j, d, c, budget, temperature, acceptance, rng);
            forall i :: j <= i < r.3 && i < |ms| ==>
              Rejected(mv, temperature, acceptance, rng, s, ms[i], d + (i - j), c + (i - j), budget)
    decreases |ms| - j
  {
    if j < |ms| {
      var t := Temp(temperature, c, budget);
      var a := acceptance(mv.objIncr(s, ms[j]), t);
      if t > 0.0 && a.Ok? && a.value < rng.unit(d) {
        ScanRejects(mv, s, ms, j + 1, d + 1, c + 1, budget, temperature, acceptance, rng);
      }
    }
  }

  /** One enumeration `for move in solution.random_local_moves_wor()` (lines 77-89 of
      src/api/sa.py) from s, with draw number k for the enumeration and k + 1 + j for the draw
      about move j, and clock reading c + j for its temperature: its outcome, the draw number
      and clock reading after it and the move it stopped at are those Scan describes. */
  method Pass<S, M>(mv: Mover<S, M>, s: S, k: nat, clock: nat, budget: nat,
                    temperature: real -> real, acceptance: (real, real) -> Run<real>, rng: Oracle)
      returns (o: Run<Option<M>>, k': nat, clock': nat, n: nat)
    requires budget > 0
    ensures (o, k', clock', n) == Scan(mv, s, mv.randomMovesWor(s, k), 0, k + 1, clock, budget, temperature, acceptance, rng)
  {
    var ms := mv.randomMovesWor(s, k);
    k', clock', n := k + 1, clock, 0;
    while n < |ms|
      invariant n <= |ms| && clock' == clock + n && k' == k + 1 + n
      invariant Scan(mv, s, ms, 0, k + 1, clock, budget, temperature, acceptance, rng) ==
                Scan(mv, s, ms, n, k', clock', budget, temperature, acceptance, rng)
    {
      var t := Temp(temperature, clock', budget);
      clock' := clock' + 1;
      if t <= 0.0 {
        return Ok(None), k', clock', n;
      }
      var a := acceptance(mv.objIncr(s, ms[n]), t);
      if a.Raised? {
        return Raised(a.error), k', clock', n;
      }
      var u := rng.unit(k');
      k' := k' + 1;
      if a.value >= u {
        return Ok(Some(ms[n])), k', clock', n;
      }
      n := n + 1;
    }
    o := Ok(None);
  }

  /** The run of sa's main loop from solution s with draw number k and clock reading clock: each
      pass of `while perf_counter() - start < budget` reads the clock once and then Scans the
      moves s.randomMovesWor(s, k), applying an accepted one. The result is the error a pass
      raised, if any, and the moves applied in order. */
  ghost function Walk<S, M>(mv: Mover<S, M>, s: S, k: nat, clock: nat, budget: nat, temperature: real -> real,
                            acceptance: (real, real) -> Run<real>, rng: Oracle): (r: (Option<Error>, seq<M>))
    decreases budget - clock
  {
    if clock >= budget then (None, [])
    else
      var p := Scan(mv, s, mv.randomMovesWor(s, k), 0, k + 1, clock + 1, budget, temperature, acceptance, rng);
      if p.0.Raised? then (Some(p.0.error), [])
      else if p.0.value.None? then Walk(mv, s, p.1, p.2, budget, temperature, acceptance, rng)
      else
        var w := Walk(mv, mv.step(s, p.0.value.value), p.1, p.2, budget, temperature, acceptance, rng);
        (w.0, [p.0.value.value] + w.1)
  }

  /** A run that reached solution s, draw number k and clock reading clock after applying
      steps, where w is the run from the start. */
  ghost predicate Follows<S, M>(mv: Mover<S, M>, w: (Option<Error>, seq<M>), steps: seq<M>, s: S, k: nat,
                                clock: nat, budget: nat, temperature: real -> real,
                                acceptance: (real, real) -> Run<real>, rng: Oracle)
  {
    var rest := Walk(mv, s, k, clock, budget, temperature, acceptance, rng);
    w.0 == rest.0 && w.1 == steps + rest.1
  }

  /** A pass that did not raise moves the run on to the state it leaves, one applied step
      further when it accepted a move. */
  lemma FollowsPass<S, M>(mv: Mover<S, M>, w: (Option<Error>, seq<M>), steps: seq<M>, s: S, k: nat,
                          clock: nat, budget: nat, temperature: real -> real,
                          acceptance: (real, real) -> Run<real>, rng: Oracle, p: (Run<Option<M>>, nat, nat, nat))
    requires Follows(mv, w, steps, s, k, clock, budget, temperature, acceptance, rng) && clock < budget
    requires p == Scan(mv, s, mv.randomMovesWor(s, k), 0, k + 1, clock + 1, budget, temperature, acceptance, rng)
    ensures p.0.Raised? ==> w == (Some(p.0.error), steps)
    ensures p.0 == Ok(None) ==> Follows(mv, w, steps, s, p.1, p.2, budget, temperature, acceptance, rng)
    ensures p.0.Ok? && p.0.value.Some? ==>
              Follows(mv, w, steps + [p.0.value.value], mv.step(s, p.0.value.value), p.1, p.2, budget,
                      temperature, acceptance, rng)
  {
    if p.0.Raised? {
      assert steps + [] == steps;
    } else if p.0.value.Some? {
      var rest := Walk(mv, mv.step(s, p.0.value.value), p.1, p.2, budget, temperature, acceptance, rng);
      assert steps + ([p.0.value.value] + rest.1) == (steps + [p.0.value.value]) + rest.1;
    }
  }

  /** The bookkeeping of sa after visiting traj: traj starts at solution and each later entry
      is the previous one after the matching step; best = traj[at] with objective bestObj is the
      first entry of least objective. */
  ghost predicate Tracked<S, M>(mv: Mover<S, M>, solution: S, steps: seq<M>, traj: seq<S>, at: nat, best: S,
                                bestObj: real)
  {
    && |traj| == |steps| + 1 && traj[0] == solution
    && (forall i :: 0 <= i < |steps| ==> traj[i + 1] == mv.step(traj[i], steps[i]))
    && at < |traj| && best == traj[at] && bestObj == mv.objective(best)
    && (forall i :: 0 <= i < |traj| ==> bestObj <= mv.objective(traj[i]))
    && (forall i :: 0 <= i < at ==> mv.objective(traj[i]) > bestObj)
  }

  /** Lines 83-88 of src/api/sa.py: apply the accepted move m to the current solution and
      replace the best only on a strict improvement. */
  method Visit<S, M>(mv: Mover<S, M>, solution: S, s: S, best: S, bestObj: real, m: M, ghost steps: seq<M>,
                     ghost traj: seq<S>, ghost at: nat)
      returns (s': S, best': S, bestObj': real, ghost steps': seq<M>, ghost traj': seq<S>, ghost at': nat)
    requires Tracked(mv, solution, steps, traj, at, best, bestObj) && s == traj[|traj| - 1]
    ensures Tracked(mv, solution, steps', traj', at', best', bestObj') && s' == traj'[|traj'| - 1]
    ensures s' == mv.step(s, m) && steps' == steps + [m] && traj' == traj + [s']
    ensures at' == at || at' == |traj|
  {
    s' := mv.step(s, m);
    steps', traj', at', best', bestObj' := steps + [m], traj + [s'], at, best, bestObj;
    var obj := mv.objective(s');
    if obj < bestObj {
      at', best', bestObj' := |traj|, s', obj;
    }
  }

  /** Lines 76-89 of src/api/sa.py: one pass of the main loop, which reads the clock, enumerates
      the moves of the current solution and applies the one accepted, if any. A pass that does
      not raise moves the run on; one that raises ends it with that error. */
  method Round<S, M>(mv: Mover<S, M>, solution: S, budget: nat, temperature: real -> real,
                     acceptance: (real, real) -> Run<real>, rng: Oracle, s: S, k: nat, clock: nat, best: S,
                     bestObj: real, ghost w: (Option<Error>, seq<M>), ghost steps: seq<M>, ghost traj: seq<S>,
                     ghost at: nat)
      returns (e: Option<Error>, s': S, k': nat, clock': nat, best': S, bestObj': real, ghost steps': seq<M>,
               ghost traj': seq<S>, ghost at': nat)
    requires clock < budget
    requires Tracked(mv, solution, steps, traj, at, best, bestObj) && s == traj[|traj| - 1]
    requires Follows(mv, w, steps, s, k, clock, budget, temperature, acceptance, rng)
    ensures Tracked(mv, solution, steps', traj', at', best', bestObj') && s' == traj'[|traj'| - 1]
    ensures clock < clock'
    ensures e.None? ==> Follows(mv, w, steps', s', k', clock', budget, temperature, acceptance, rng)
    ensures e.Some? ==> w == (e, steps')
  {
    var o, n;
    o, k', clock', n := Pass(mv, s, k, clock + 1, budget, temperature, acceptance, rng);
    FollowsPass(mv, w, steps, s, k, clock, budget, temperature, acceptance, rng, (o, k', clock', n));
    s', best', bestObj', steps', traj', at' := s, best, bestObj, steps, traj, at;
    if o.Raised? {
      e := Some(o.error);
    } else {
      e := None;
      if o.value.Some? {
        s', best', bestObj', steps', traj', at' := Visit(mv, solution, s, best, bestObj, o.value.value, steps, traj, at);
      }
    }
  }

  /** An error that ends a run is one that acceptance raised. */
  lemma {:induction false} WalkRaises<S, M>(mv: Mover<S, M>, s: S, k: nat, clock: nat, budget: nat,
                                            temperature: real -> real, acceptance: (real, real) -> Run<real>,
                                            rng: Oracle)
    ensures var w := Walk(mv, s, k, clock, budget, temperature, acceptance, rng);
            w.0.Some? ==> exists incr, t :: acceptance(incr, t) == Raised(w.0.value)
    decreases budget - clock
  {
    if clock < budget {
      var p := Scan(mv, s, mv.randomMovesWor(s, k), 0, k + 1, clock + 1, budget, temperature, acceptance, rng);
      if p.0.Ok? {
        var s' := if p.0.value.Some? then mv.step(s, p.0.value.value) else s;
        WalkRaises(mv, s', p.1, p.2, budget, temperature, acceptance, rng);
      } else {
        var ms := mv.randomMovesWor(s, k);
        ScanStops(mv, s, ms, 0, k + 1, clock + 1, budget, temperature, acceptance, rng);
        var incr, t := mv.objIncr(s, ms[p.3]), Temp(temperature, clock + 1 + p.3, budget);
        assert acceptance(incr, t) == Raised(p.0.error);
      }
    }
  }

  /** sa(solution, budget, init_temp, seed, temperature, acceptance), with the temperature and
      acceptance schedules as parameters (LinearDecay(init_temp) and ExponentialAcceptance by
      default). `traj` lists the solutions visited, traj[i + 1] being traj[i] after steps[i];
      the result is traj[at], the first of least objective: the best is replaced only on a
      strict improvement, so nothing visited is better and the result is at least as good as
      the initial solution. */
  method Sa<S, M>(mv: Mover<S, M>, solution: S, budget: nat, temperature: real -> real,
                  acceptance: (real, real) -> Run<real>, rng: Oracle)
      returns (r: Run<S>, ghost steps: seq<M>, ghost traj: seq<S>, ghost at: nat)
    ensures |traj| == |steps| + 1 && traj[0] == solution
    ensures forall i :: 0 <= i < |steps| ==> traj[i + 1] == mv.step(traj[i], steps[i])
    ensures r.Raised? ==> exists incr, t :: acceptance(incr, t) == Raised(r.error)
    ensures r.Ok? ==> at < |traj| && r.value == traj[at]
    ensures r.Ok? ==> forall i :: 0 <= i < |traj| ==> mv.objective(r.value) <= mv.objective(traj[i])
    ensures r.Ok? ==> forall i :: 0 <= i < at ==> mv.objective(traj[i]) > mv.objective(r.value)
    ensures r.Ok? ==> mv.objective(r.value) <= mv.objective(solution)
    ensures budget == 0 ==> r == Ok(solution)
    ensures steps == Walk(mv, solution, 0, 0, budget, temperature, acceptance, rng).1
    ensures r.Raised? <==> Walk(mv, solution, 0, 0, budget, temperature, acceptance, rng).0.Some?
    ensures r.Raised? ==> r.error == Walk(mv, solution, 0, 0, budget, temperature, acceptance, rng).0.value
  {
    ghost var w := Walk(mv, solution, 0, 0, budget, temperature, acceptance, rng);
    var best := solution;
    var bestObj := mv.objective(best);
    var s := solution;
    steps, traj, at := [], [solution], 0;
    var clock := 0;
    var k := 0;
    while clock < budget
      invariant Tracked(mv, solution, steps, traj, at, best, bestObj) && s == traj[|traj| - 1]
      invariant budget == 0 ==> best == solution
      invariant Follows(mv, w, steps, s, k, clock, budget, temperature, acceptance, rng)
      decreases budget - clock
    {
      var e;
      e, s, k, clock, best, bestObj, steps, traj, at :=
        Round(mv, solution, budget, temperature, acceptance, rng, s, k, clock, best, bestObj, w, steps, traj, at);
      if e.Some? {
        WalkRaises(mv, solution, 0, 0, budget, temperature, acceptance, rng);
        return Raised(e.value), steps, traj, at;
      }
    }
    r := Ok(best);
  }
}
