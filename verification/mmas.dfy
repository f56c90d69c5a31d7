/** MAX-MIN Ant System (src/api/mmas.py). Ants are built as in Ant System; per iteration the
    trails are evaporated and clamped into [taumin, taumax], then only the components of one ant
    (the iteration-best or the global-best) are reinforced, capped at taumax; after nrestart
    iterations without improvement every trail is reset to taumax instead.
    Line numbers in the comments below are those of src/api/mmas.py. */
module Mmas {
  import opened Wrappers
  import opened Contract
  import opened Incumbent
  import opened Utils
  import opened Pheromone
  import opened AntSystem

  // ------------------------------------------------------------------ trail limits

  /** Lines 159-160 and 191-192: (taumax, taumin) = (1.0 / bestobj, taumax / a). Dividing by
      None raises TypeError, dividing by 0 ZeroDivisionError. */
  function Limits(bestobj: Option<real>, a: real): (r: Run<(real, real)>)
    ensures r.Raised? <==> bestobj.None? || bestobj.value == 0.0 || a == 0.0
    ensures r.Raised? ==> r.error == if bestobj.None? then TypeError else ZeroDivisionError
    ensures r.Ok? ==> r.value.0 == 1.0 / bestobj.value
  {
    if bestobj.None? then Raised(TypeError)
    else if bestobj.value == 0.0 then Raised(ZeroDivisionError)
    else if a == 0.0 then Raised(ZeroDivisionError)
    else Ok((1.0 / bestobj.value, 1.0 / bestobj.value / a))
  }

  /** With a positive best objective and a >= 1 the limits form a non-empty positive range. */
  lemma LimitsOrdered(bestobj: real, a: real)
    requires bestobj > 0.0 && a >= 1.0
    ensures 0.0 < Limits(Some(bestobj), a).value.1 <= Limits(Some(bestobj), a).value.0
  {
    var hi := 1.0 / bestobj;
    assert hi > 0.0;
    assert hi / a <= hi by {
      assert hi / a * a == hi;
    }
  }

  // ------------------------------------------------------------------ pheromone update

  /** Lines 161-164: tau0 and every stored trail become max(taumin, min(taumax, (1 - rho) * x)),
      so every id, stored or not, ends up inside [taumin, taumax]. */
  method Evaporate(tau: Table, taumin: real, taumax: real, rho: real) returns (r: Table)
    requires Wf(tau)
    ensures Wf(r) && r.order == tau.order
    ensures forall k :: Lookup(r, k) == Clamp(taumin, taumax, (1.0 - rho) * Lookup(tau, k))
    ensures forall k :: Lookup(r, k) == Evaporated(taumin, taumax, rho, Lookup(tau, k))
    ensures taumin <= taumax ==> InBounds(r, taumin, taumax)
  {
    r := Remap(tau, x => Evaporated(taumin, taumax, rho, x));
  }

  /** max(taumin, min(taumax, (1 - rho) * x)). */
  function Evaporated(taumin: real, taumax: real, rho: real, x: real): real
  {
    Clamp(taumin, taumax, (1.0 - rho) * x)
  }

  /** min(hi, x + d). */
  function CapStep(hi: real, d: real): real -> real
  {
    x => MinReal(hi, x + d)
  }

  /** Lines 171-176 and 180-185: `tau[cid] = min(taumax, tau[cid] + 1.0 / obj)` for each
      component id, a missing id starting from tau0. The division, evaluated once per
      component, raises ZeroDivisionError when obj is 0 and there is a component. Otherwise,
      whatever the sign of obj, each listed trail takes one capped step min(taumax, x + 1/obj)
      per occurrence. With obj > 0 those steps amount to one capped gain of 1/obj per
      occurrence, and a trail that was at most taumax stays between its old value and taumax. */
  method CappedDeposit(t: Table, cids: seq<int>, taumax: real, obj: real) returns (r: Run<Table>)
    requires Wf(t)
    ensures r.Raised? <==> cids != [] && obj == 0.0
    ensures r.Raised? ==> r.error == ZeroDivisionError
    ensures r.Ok? ==> Wf(r.value) && r.value.default == t.default
    ensures r.Ok? ==> forall k :: k !in cids ==> Lookup(r.value, k) == Lookup(t, k)
    ensures r.Ok? && cids != [] ==> forall k ::
              Lookup(r.value, k) == Repeat(CapStep(taumax, 1.0 / obj), Count(cids, k), Lookup(t, k))
    ensures r.Ok? && obj > 0.0 ==> forall k :: k in cids ==>
              Lookup(r.value, k) == MinReal(taumax, Lookup(t, k) + Times(Count(cids, k), 1.0 / obj))
    ensures r.Ok? && obj > 0.0 ==> forall k :: Lookup(t, k) <= taumax ==>
              Lookup(t, k) <= Lookup(r.value, k) <= taumax
  {
    if cids == [] {
      return Ok(t);
    }
    if obj == 0.0 {
      return Raised(ZeroDivisionError);
    }
    var d := 1.0 / obj;
    var t' := Deposit(t, cids, CapStep(taumax, d));
    if obj > 0.0 {
      CappedSteps(t, t', cids, taumax, d);
    }
    r := Ok(t');
  }

  /** With a non-negative deposit d, the capped steps of each listed id collapse into one
      capped gain of d per occurrence, and a trail that was at most taumax stays between its
      old value and taumax. */
  lemma CappedSteps(t: Table, t': Table, cids: seq<int>, taumax: real, d: real)
    requires d >= 0.0
    requires forall k :: Lookup(t', k) == Repeat(CapStep(taumax, d), Count(cids, k), Lookup(t, k))
    ensures forall k :: k in cids ==> Lookup(t', k) == MinReal(taumax, Lookup(t, k) + Times(Count(cids, k), d))
    ensures forall k :: Lookup(t, k) <= taumax ==> Lookup(t, k) <= Lookup(t', k) <= taumax
  {
    var g := CapStep(taumax, d);
    forall k | k in cids
      ensures Lookup(t', k) == MinReal(taumax, Lookup(t, k) + Times(Count(cids, k), d))
    {
      RepeatCapped(g, taumax, d, Count(cids, k), Lookup(t, k));
    }
    forall k | Lookup(t, k) <= taumax ensures Lookup(t, k) <= Lookup(t', k) <= taumax {
      RepeatCappedBounds(g, taumax, d, Count(cids, k), Lookup(t, k));
    }
  }

  /** The objective values of the ants, in order. */
  function Objectives<S, C>(b: Builder<S, C>, ants: seq<S>): (r: seq<real>)
    requires forall i :: 0 <= i < |ants| ==> b.objective(ants[i]).Some?
    ensures |r| == |ants| && forall i :: 0 <= i < |ants| ==> r[i] == b.objective(ants[i]).value
  {
    seq(|ants|, i requires 0 <= i < |ants| && b.objective(ants[i]).Some? => b.objective(ants[i]).value)
  }

  /** Line 165, `(best is None and len(ants) > 0) or (len(ants) > 0 and random.random() >
      globalratio)`, with the next draw number: random() is drawn only when there are ants and
      a global best. */
  function UseIterationBest<S>(ants: seq<S>, best: Option<S>, globalratio: real, rng: Oracle, k: nat): (bool, nat)
  {
    if ants != [] && best.None? then (true, k)
    else if ants != [] then (rng.unit(k) > globalratio, k + 1)
    else (false, k)
  }

  /** Lines 165-187: the ant whose components are reinforced, with the objective used: the
      iteration-best ant (the first of least objective, lines 167-168) when useIter holds,
      else the global best with bestobj, else none. */
  function Reinforcer<S, C>(b: Builder<S, C>, ants: seq<S>, best: Inc<Option<S>>, useIter: bool): (r: Option<(S, real)>)
    requires forall i :: 0 <= i < |ants| ==> b.objective(ants[i]).Some?
    requires best.sol.Some? <==> best.obj.Some?
    requires useIter ==> ants != []
    ensures r.None? <==> !useIter && best.sol.None?
    ensures r.Some? && !useIter ==> r.value == (best.sol.value, best.obj.value)
  {
    if useIter then
      var objs := Objectives(b, ants);
      var i := Argmin(objs).value;
      Some((ants[i], objs[i]))
    else if best.sol.Some? then Some((best.sol.value, best.obj.value))
    else None
  }

  /** The iteration-best ant is one of the ants, of least objective among them, and the first
      such. */
  lemma IterationBest<S, C>(b: Builder<S, C>, ants: seq<S>, best: Inc<Option<S>>)
    requires forall i :: 0 <= i < |ants| ==> b.objective(ants[i]).Some?
    requires best.sol.Some? <==> best.obj.Some?
    requires ants != []
    ensures exists i :: (0 <= i < |ants| && Reinforcer(b, ants, best, true) == Some((ants[i], b.objective(ants[i]).value)) &&
                         (forall j :: 0 <= j < |ants| ==> b.objective(ants[i]).value <= b.objective(ants[j]).value) &&
                         (forall j :: 0 <= j < i ==> b.objective(ants[i]).value < b.objective(ants[j]).value))
  {
    var objs := Objectives(b, ants);
    var i := Argmin(objs).value;
    assert forall j :: 0 <= j < |ants| ==> objs[j] == b.objective(ants[j]).value;
  }

  /** When the ants and the global best all have positive objectives, so does the
      reinforcing ant. */
  lemma ReinforcerPositive<S, C>(b: Builder<S, C>, ants: seq<S>, best: Inc<Option<S>>, useIter: bool)
    requires forall i :: 0 <= i < |ants| ==> b.objective(ants[i]).Some?
    requires best.sol.Some? <==> best.obj.Some?
    requires useIter ==> ants != []
    ensures (forall i :: 0 <= i < |ants| ==> b.objective(ants[i]).value > 0.0) &&
            (best.obj.Some? ==> best.obj.value > 0.0) && Reinforcer(b, ants, best, useIter).Some? ==>
              Reinforcer(b, ants, best, useIter).value.1 > 0.0
  {
    if useIter {
      IterationBest(b, ants, best);
    }
  }

  /** The table `tau'` that a regular update under limits (taumax, taumin) leaves from `tau`
      with deposits `src`: ids without a deposit are evaporated and clamped, and each deposited
      id x then takes n capped steps min(taumax, y + 1/obj) from its evaporated value, n being
      its number of occurrences; with a positive objective that is min(taumax, evaporated + n/obj). */
  ghost predicate Regulated(tau: Table, src: Option<(seq<int>, real)>, taumin: real, taumax: real, rho: real,
                            tau': Table)
  {
    && (forall x :: (src.None? || x !in src.value.0) ==>
          Lookup(tau', x) == Evaporated(taumin, taumax, rho, Lookup(tau, x)))
    && (src.Some? && src.value.1 != 0.0 ==> forall x :: x in src.value.0 ==>
          Lookup(tau', x) == Repeat(CapStep(taumax, 1.0 / src.value.1), Count(src.value.0, x),
                                    Evaporated(taumin, taumax, rho, Lookup(tau, x))))
    && (src.Some? && src.value.1 > 0.0 ==> forall x :: x in src.value.0 ==>
          Lookup(tau', x) == MinReal(taumax, Evaporated(taumin, taumax, rho, Lookup(tau, x)) +
                                             Times(Count(src.value.0, x), 1.0 / src.value.1)))
  }

  /** Lines 161-187, the update of an iteration without restart: evaporate and clamp, then
      let the reinforcing ant, whose component ids and objective `src` holds, deposit. Every id
      outside them reads its clamped evaporated value; every id among them takes one capped
      step min(taumax, y + 1/obj) per occurrence; with a positive objective every trail ends up in
      [taumin, taumax]. */
  method Regular(tau: Table, src: Option<(seq<int>, real)>, taumin: real, taumax: real, rho: real)
      returns (r: Run<Table>)
    requires Wf(tau)
    ensures r.Raised? <==> src.Some? && src.value.0 != [] && src.value.1 == 0.0
    ensures r.Raised? ==> r.error == ZeroDivisionError
    ensures r.Ok? ==> Wf(r.value)
    ensures r.Ok? ==> Regulated(tau, src, taumin, taumax, rho, r.value)
    ensures r.Ok? && taumin <= taumax && (src.Some? ==> src.value.1 > 0.0) ==> InBounds(r.value, taumin, taumax)
  {
    var t := Evaporate(tau, taumin, taumax, rho);
    if src.None? {
      return Ok(t);
    }
    r := CappedDeposit(t, src.value.0, taumax, src.value.1);
    if r.Ok? {
      assert Regulated(tau, src, taumin, taumax, rho, r.value);
      if taumin <= taumax && src.value.1 > 0.0 {
        RegulatedInBounds(tau, src, taumin, taumax, rho, r.value);
      }
    }
  }

  /** A regular update under limits lo <= hi with a positive reinforcing objective, or none,
      leaves every trail and the default in [lo, hi]. */
  lemma RegulatedInBounds(tau: Table, src: Option<(seq<int>, real)>, lo: real, hi: real, rho: real, tau': Table)
    requires Regulated(tau, src, lo, hi, rho, tau')
    requires lo <= hi && (src.Some? ==> src.value.1 > 0.0)
    ensures InBounds(tau', lo, hi)
  {
    forall x ensures lo <= Lookup(tau', x) <= hi {
      var e := Evaporated(lo, hi, rho, Lookup(tau, x));
      assert lo <= e <= hi;
      if src.Some? && x in src.value.0 {
        TimesNonNegative(Count(src.value.0, x), 1.0 / src.value.1);
      }
    }
  }

  /** Lines 193-195: tau0 and every stored trail become taumax. */
  method Reinit(tau: Table, taumax: real) returns (r: Table)
    requires Wf(tau)
    ensures Wf(r) && r.order == tau.order
    ensures forall k :: Lookup(r, k) == taumax
  {
    r := Remap(tau, x => taumax);
  }

  /** The component ids and objective of the reinforcing ant, if any. */
  function Deposits<S, C>(b: Builder<S, C>, src: Option<(S, real)>): (r: Option<(seq<int>, real)>)
    ensures r.None? <==> src.None?
    ensures r.Some? ==> r.value.1 == src.value.1 && (r.value.0 == [] <==> b.components(src.value.0) == [])
  {
    if src.None? then None else Some((Cids(b, b.components(src.value.0)), src.value.1))
  }

  /** Lines 158-187, an update without restart under limits (taumax, taumin): line 165 picks
      the reinforcing ant `src`, drawing random() only when there are ants and a global best,
      and the update is Regular with its component ids and objective. */
  method Reinforced<S(!new), C(!new)>(b: Builder<S, C>, tau: Table, ants: seq<S>, best: Inc<Option<S>>,
                                      taumin: real, taumax: real, rho: real, globalratio: real,
                                      rng: Oracle, k: nat)
      returns (r: Run<Table>, k': nat, ghost src: Option<(S, real)>)
    requires Wf(tau)
    requires forall i :: 0 <= i < |ants| ==> b.objective(ants[i]).Some?
    requires best.sol.Some? <==> best.obj.Some?
    ensures k' == UseIterationBest(ants, best.sol, globalratio, rng, k).1
    ensures src == Reinforcer(b, ants, best, UseIterationBest(ants, best.sol, globalratio, rng, k).0)
    ensures r.Raised? <==> src.Some? && src.value.1 == 0.0 && b.components(src.value.0) != []
    ensures r.Raised? ==> r.error == ZeroDivisionError
    ensures r.Ok? ==> Wf(r.value)
    ensures r.Ok? ==> Reinforcing(b, tau, ants, best, taumin, taumax, rho, globalratio, rng, k, r.value, k')
    ensures r.Ok? && taumin <= taumax && (src.Some? ==> src.value.1 > 0.0) ==> InBounds(r.value, taumin, taumax)
  {
    var useIter;
    useIter, k' := UseIterationBest(ants, best.sol, globalratio, rng, k).0, UseIterationBest(ants, best.sol, globalratio, rng, k).1;
    var pick := Reinforcer(b, ants, best, useIter);
    src := pick;
    r := Regular(tau, Deposits(b, pick), taumin, taumax, rho);
  }

  /** Lines 158-195: the pheromone update of one iteration. It raises exactly the error
      UpdateError names and otherwise leaves the table and draw count Updated describes; with
      a positive best objective, a >= 1 and ants of positive objective, every trail ends up in
      [taumin, taumax]. */
  method Update<S(!new), C(!new)>(b: Builder<S, C>, tau: Table, ants: seq<S>, best: Inc<Option<S>>,
                                  ni: int, nrestart: int, a: real, rho: real, globalratio: real,
                                  rng: Oracle, k: nat)
      returns (r: Run<Table>, k': nat)
    requires Wf(tau)
    requires forall i :: 0 <= i < |ants| ==> b.objective(ants[i]).Some?
    requires best.sol.Some? <==> best.obj.Some?
    ensures r.Raised? <==> UpdateError(b, ants, best, ni, nrestart, a, globalratio, rng, k).Some?
    ensures r.Raised? ==> r.error == UpdateError(b, ants, best, ni, nrestart, a, globalratio, rng, k).value
    ensures r.Ok? ==> Updated(b, tau, ants, best, ni, nrestart, a, rho, globalratio, rng, k, r.value, k')
    ensures r.Ok? && best.obj.value > 0.0 && a >= 1.0 &&
            (forall i :: 0 <= i < |ants| ==> b.objective(ants[i]).value > 0.0) ==>
              InBounds(r.value, Limits(best.obj, a).value.1, Limits(best.obj, a).value.0)
  {
    var limits := Limits(best.obj, a);
    if limits.Raised? {
      return Raised(limits.error), k;
    }
    var (taumax, taumin) := limits.value;
    if ni < nrestart {
      ghost var src;
      r, k', src := Reinforced(b, tau, ants, best, taumin, taumax, rho, globalratio, rng, k);
    } else {
      var t := Reinit(tau, taumax);
      r, k' := Ok(t), k;
    }
    if r.Ok? && best.obj.value > 0.0 && a >= 1.0 && (forall i :: 0 <= i < |ants| ==> b.objective(ants[i]).value > 0.0) {
      UpdatedInBounds(b, tau, ants, best, ni, nrestart, a, rho, globalratio, rng, k, r.value, k');
    }
  }

  /** The error the update of lines 158-195 raises, if any: the limits' first (TypeError with
      no incumbent, ZeroDivisionError when bestobj or a is 0), then, without a restart, the
      deposit of a reinforcing ant of objective 0 that has a component. */
  ghost function UpdateError<S, C>(b: Builder<S, C>, ants: seq<S>, best: Inc<Option<S>>, ni: int, nrestart: int,
                                   a: real, globalratio: real, rng: Oracle, k: nat): Option<Error>
    requires forall i :: 0 <= i < |ants| ==> b.objective(ants[i]).Some?
    requires best.sol.Some? <==> best.obj.Some?
  {
    if Limits(best.obj, a).Raised? then Some(Limits(best.obj, a).error)
    else if ni >= nrestart then None
    else
      var src := Reinforcer(b, ants, best, UseIterationBest(ants, best.sol, globalratio, rng, k).0);
      if src.Some? && src.value.1 == 0.0 && b.components(src.value.0) != [] then Some(ZeroDivisionError) else None
  }

  /** tau' and k' are the table and draw count after an update of tau that did not raise,
      with (taumax, taumin) from bestobj: on a restart every id reads taumax and nothing is
      drawn; otherwise line 165 draws as UseIterationBest says, the ids the reinforcing ant
      does not use read their clamped evaporated value, and the ids it uses take one capped
      step min(taumax, y + 1/obj) per occurrence. */
  ghost predicate Updated<S, C>(b: Builder<S, C>, tau: Table, ants: seq<S>, best: Inc<Option<S>>, ni: int,
                                nrestart: int, a: real, rho: real, globalratio: real, rng: Oracle, k: nat,
                                tau': Table, k': nat)
    requires forall i :: 0 <= i < |ants| ==> b.objective(ants[i]).Some?
    requires best.sol.Some? <==> best.obj.Some?
  {
    && Limits(best.obj, a).Ok? && Wf(tau')
    && var (hi, lo) := Limits(best.obj, a).value;
       if ni >= nrestart then k' == k && forall x :: Lookup(tau', x) == hi
       else Reinforcing(b, tau, ants, best, lo, hi, rho, globalratio, rng, k, tau', k')
  }

  /** tau' and k' are the table and draw count after an update without restart under the
      limits [lo, hi]: line 165 draws as UseIterationBest says, the ids the reinforcing ant
      does not use read their clamped evaporated value, and the ids it uses take one capped
      step min(hi, y + 1/obj) per occurrence. */
  ghost predicate Reinforcing<S, C>(b: Builder<S, C>, tau: Table, ants: seq<S>, best: Inc<Option<S>>, lo: real,
                                    hi: real, rho: real, globalratio: real, rng: Oracle, k: nat, tau': Table, k': nat)
    requires forall i :: 0 <= i < |ants| ==> b.objective(ants[i]).Some?
    requires best.sol.Some? <==> best.obj.Some?
  {
    var use := UseIterationBest(ants, best.sol, globalratio, rng, k);
    var src := Reinforcer(b, ants, best, use.0);
    && k' == use.1
    && Regulated(tau, Deposits(b, src), lo, hi, rho, tau')
  }

  /** With a positive incumbent objective, a >= 1 and ants of positive objective, an update
      leaves every trail in [taumin, taumax]. */
  lemma UpdatedInBounds<S, C>(b: Builder<S, C>, tau: Table, ants: seq<S>, best: Inc<Option<S>>, ni: int,
                              nrestart: int, a: real, rho: real, globalratio: real, rng: Oracle, k: nat,
                              tau': Table, k': nat)
    requires forall i :: 0 <= i < |ants| ==> b.objective(ants[i]).Some?
    requires best.sol.Some? <==> best.obj.Some?
    requires Updated(b, tau, ants, best, ni, nrestart, a, rho, globalratio, rng, k, tau', k')
    requires best.obj.value > 0.0 && a >= 1.0 && forall i :: 0 <= i < |ants| ==> b.objective(ants[i]).value > 0.0
    ensures InBounds(tau', Limits(best.obj, a).value.1, Limits(best.obj, a).value.0)
  {
    var (hi, lo) := Limits(best.obj, a).value;
    LimitsOrdered(best.obj.value, a);
    if ni < nrestart {
      var use := UseIterationBest(ants, best.sol, globalratio, rng, k);
      var src := Reinforcer(b, ants, best, use.0);
      ReinforcerPositive(b, ants, best, use.0);
      RegulatedInBounds(tau, Deposits(b, src), lo, hi, rho, tau');
    }
  }

  /** n copies of a non-negative d add up to a non-negative sum. */
  lemma {:induction false} TimesNonNegative(n: nat, d: real)
    requires d >= 0.0
    ensures Times(n, d) >= 0.0
  {
    if n > 0 {
      TimesNonNegative(n - 1, d);
    }
  }

  // ------------------------------------------------------------------ stagnation

  /** ni at the end of a run of iterations: `ni += 1` per iteration and `ni = 0` whenever the
      iteration improved the incumbent (log[j] tells whether iteration j did); a restart
      leaves ni alone. */
  function Stagnation(log: seq<bool>): nat
  {
    if log == [] then 0
    else if log[|log| - 1] then 0
    else Stagnation(log[..|log| - 1]) + 1
  }

  /** ni reaches n exactly when none of the last n iterations improved the incumbent. */
  lemma {:induction false} StagnationWindow(log: seq<bool>, n: nat)
    ensures Stagnation(log) >= n <==> n <= |log| && forall j :: |log| - n <= j < |log| ==> !log[j]
  {
    if n > 0 && log != [] {
      var p := log[..|log| - 1];
      StagnationWindow(p, n - 1);
      assert forall j :: 0 <= j < |p| ==> p[j] == log[j];
    }
  }

  /** restarts[j] records whether the update of iteration j was a restart: it was exactly when
      ni, the Stagnation of the log up to and including iteration j, had reached nrestart. */
  ghost predicate RestartLog(log: seq<bool>, restarts: seq<bool>, nrestart: int)
  {
    && |restarts| == |log|
    && forall j :: 0 <= j < |restarts| ==> (restarts[j] <==> Stagnation(log[..j + 1]) >= nrestart)
  }

  /** One more iteration resets ni when it improved the incumbent and increments it otherwise. */
  lemma StagnationSnoc(log: seq<bool>, improved: bool)
    ensures Stagnation(log + [improved]) == if improved then 0 else Stagnation(log) + 1
  {
    assert (log + [improved])[..|log|] == log;
  }

  /** Logging one more iteration and its update keeps the restart log consistent. */
  lemma RestartLogSnoc(log: seq<bool>, restarts: seq<bool>, nrestart: int, improved: bool)
    requires RestartLog(log, restarts, nrestart)
    ensures Stagnation(log + [improved]) == if improved then 0 else Stagnation(log) + 1
    ensures RestartLog(log + [improved], restarts + [Stagnation(log + [improved]) >= nrestart], nrestart)
  {
    var log' := log + [improved];
    StagnationSnoc(log, improved);
    assert log'[..|log'|] == log';
    forall j | 1 <= j <= |restarts| ensures Stagnation(log'[..j]) == Stagnation(log[..j]) {
      assert log'[..j] == log[..j];
    }
  }

  // ------------------------------------------------------------------ iterations

  /** The parameters of mmas: the initial taumax (also tau0), a (taumin = taumax / a), the
      weights alpha and beta, rho, globalratio and nrestart. */
  datatype Config = Config(taumax: real, a: real, w: Params, rho: real, globalratio: real, nrestart: int)

  /** Lines 137-138: the ants an iteration keeps for the update, the feasible ones, in order. */
  function Kept<S(!new), C>(b: Builder<S, C>, ants: seq<S>): (r: seq<S>)
    ensures |r| <= |ants|
    ensures forall i :: 0 <= i < |r| ==> b.isFeasible(r[i])
    ensures forall x :: x in r <==> x in ants && b.isFeasible(x)
    decreases |ants|
  {
    if ants == [] then []
    else
      var p := ants[..|ants| - 1];
      var x := ants[|ants| - 1];
      assert ants == p + [x];
      Kept(b, p) + if b.isFeasible(x) then [x] else []
  }

  /** (best, bestobj) after the iterations `rounds`. */
  ghost function Best<S(!new), C(!new)>(b: Builder<S, C>, ls: Option<S -> S>, solutions: seq<S>,
                                       rounds: seq<Round<C>>): Inc<Option<S>>
    requires Valid(b) && Fits(solutions, rounds)
  {
    Track(Inc(None, None), Offers(b, ls, solutions, rounds))
  }

  /** Entry j tells whether iteration j improved the incumbent. */
  ghost function Improvements<S(!new), C(!new)>(b: Builder<S, C>, ls: Option<S -> S>, solutions: seq<S>,
                                               rounds: seq<Round<C>>): (r: seq<bool>)
    requires Valid(b) && Fits(solutions, rounds)
    ensures |r| == |rounds|
    decreases |rounds|
  {
    if rounds == [] then []
    else
      var p := rounds[..|rounds| - 1];
      Improvements(b, ls, solutions, p) + [Best(b, ls, solutions, rounds) != Best(b, ls, solutions, p)]
  }

  /** One more iteration: its offers extend the incumbent's history and the improvement log. */
  lemma ImprovementsSnoc<S(!new), C(!new)>(b: Builder<S, C>, ls: Option<S -> S>, solutions: seq<S>,
                                           rounds: seq<Round<C>>, rd: Round<C>)
    requires Valid(b) && Fits(solutions, rounds) && |rd.trails| <= |solutions|
    ensures Fits(solutions, rounds + [rd])
    ensures Improvements(b, ls, solutions, rounds + [rd]) ==
            Improvements(b, ls, solutions, rounds) + [Best(b, ls, solutions, rounds + [rd]) != Best(b, ls, solutions, rounds)]
  {
    assert (rounds + [rd])[..|rounds|] == rounds;
  }

  /** The iterations p are followed by an update: the incumbent after them is well formed. */
  ghost predicate Sane<S(!new), C(!new)>(b: Builder<S, C>, ls: Option<S -> S>, solutions: seq<S>, p: seq<Round<C>>)
  {
    && Valid(b) && Fits(solutions, p) && p != []
    && (Best(b, ls, solutions, p).sol.Some? <==> Best(b, ls, solutions, p).obj.Some?)
  }

  /** The error the update after the iterations p raises, if any: that of Update with the
      feasible ants of the last one, the incumbent after them, ni as their improvement log
      leaves it, and the draws from where the last ant stopped. */
  ghost function Fault<S(!new), C(!new)>(b: Builder<S, C>, ls: Option<S -> S>, solutions: seq<S>, cfg: Config,
                                        rng: Oracle, p: seq<Round<C>>): Option<Error>
    requires Sane(b, ls, solutions, p)
  {
    var q := p[|p| - 1];
    UpdateError(b, Kept(b, LastAnts(b, ls, solutions, p)), Best(b, ls, solutions, p),
                Stagnation(Improvements(b, ls, solutions, p)), cfg.nrestart, cfg.a, cfg.globalratio, rng,
                Next(q.k, q.trails))
  }

  /** The table and the draw count an iteration starts from after the iterations p: the
      fresh table with every id at taumax and no draws, or the update after the last of p,
      which did not raise, with the same arguments as in Fault. */
  ghost predicate After<S(!new), C(!new)>(b: Builder<S, C>, ls: Option<S -> S>, solutions: seq<S>, cfg: Config,
                                         rng: Oracle, p: seq<Round<C>>, tau: Table, k: nat)
  {
    if p == [] then tau == Fresh(cfg.taumax) && k == 0
    else
      && Sane(b, ls, solutions, p)
      && Fault(b, ls, solutions, cfg, rng, p).None?
      && var q := p[|p| - 1];
         Updated(b, q.tau, Kept(b, LastAnts(b, ls, solutions, p)), Best(b, ls, solutions, p),
                 Stagnation(Improvements(b, ls, solutions, p)), cfg.nrestart, cfg.a, cfg.rho, cfg.globalratio,
                 rng, Next(q.k, q.trails), tau, k)
  }

  /** Iteration rd follows the iterations p: the clock still allowed it, it starts from what
      they left, and its ants are construct_ant runs. */
  ghost predicate Starts<S(!new), C(!new)>(b: Builder<S, C>, solutions: seq<S>, budget: nat, cfg: Config,
                                          rng: Oracle, ls: Option<S -> S>, p: seq<Round<C>>, rd: Round<C>)
  {
    && Clock(p) < budget
    && Colony(b, solutions, rd.tau, cfg.w, rng, rd.k, rd.trails)
    && After(b, ls, solutions, cfg, rng, p, rd.tau, rd.k)
  }

  /** The iterations of an mmas run, each following the ones before it and building its
      full quota of ants. */
  ghost predicate Iterations<S(!new), C(!new)>(b: Builder<S, C>, solutions: seq<S>, budget: nat, cfg: Config,
                                              rng: Oracle, ls: Option<S -> S>, rounds: seq<Round<C>>)
    decreases |rounds|
  {
    rounds == [] ||
    (var p := rounds[..|rounds| - 1];
     Iterations(b, solutions, budget, cfg, rng, ls, p) && Fills(b, solutions, budget, cfg, rng, ls, p, rounds[|p|]))
  }

  /** Iteration rd followed the iterations p and built its full quota of ants. */
  ghost predicate Fills<S(!new), C(!new)>(b: Builder<S, C>, solutions: seq<S>, budget: nat, cfg: Config,
                                         rng: Oracle, ls: Option<S -> S>, p: seq<Round<C>>, rd: Round<C>)
  {
    Starts(b, solutions, budget, cfg, rng, ls, p, rd) && |rd.trails| == Quota(|solutions|, budget, Clock(p) + 1)
  }

  /** An iteration that followed the iterations p and built its full quota of ants. */
  lemma IterationsGrow<S(!new), C(!new)>(b: Builder<S, C>, solutions: seq<S>, budget: nat, cfg: Config, rng: Oracle,
                                         ls: Option<S -> S>, p: seq<Round<C>>, rd: Round<C>)
    requires Iterations(b, solutions, budget, cfg, rng, ls, p) && Fills(b, solutions, budget, cfg, rng, ls, p, rd)
    ensures Iterations(b, solutions, budget, cfg, rng, ls, p + [rd])
  {
    assert (p + [rd])[..|p|] == p && (p + [rd])[|p|] == rd;
  }

  /** A run raised ValueError in iteration rd after the iterations p: rd followed them and
      the ant after its completed ones, built from the next initial solution, raised along
      stuck. */
  ghost predicate Halts<S(!new), C(!new)>(b: Builder<S, C>, solutions: seq<S>, budget: nat, cfg: Config,
                                         rng: Oracle, ls: Option<S -> S>, p: seq<Round<C>>, rd: Round<C>, stuck: seq<C>)
  {
    && Iterations(b, solutions, budget, cfg, rng, ls, p)
    && Starts(b, solutions, budget, cfg, rng, ls, p, rd)
    && |rd.trails| < Quota(|solutions|, budget, Clock(p) + 1)
    && StuckNext(b, solutions, rd.trails, stuck, rd.tau, cfg.w, rng, Next(rd.k, rd.trails))
  }

  /** Lines 112-138: the ants of iteration rd after the iterations `rounds`, which left the
      table tau and the draw count k; rd follows them. `improved` tells whether the
      incumbent changed, which extends the improvement log. */
  method Launch<S(!new), C(!new)>(b: Builder<S, C>, solutions: seq<S>, budget: nat, clock: nat, cfg: Config,
                                  rng: Oracle, ls: Option<S -> S>, tau: Table, k: nat, best: Inc<Option<S>>,
                                  ni: nat, ghost offered: seq<(Option<S>, real)>, ghost rounds: seq<Round<C>>)
      returns (r: Run<seq<S>>, clock': nat, k': nat, best': Inc<Option<S>>, ni': nat,
               ghost offered': seq<(Option<S>, real)>, improved: bool, ghost rd: Round<C>, ghost stuck: seq<C>)
    requires Valid(b) && Recorded(b, best, offered) && clock == Clock(rounds) < budget
    requires Fits(solutions, rounds) && offered == Offers(b, ls, solutions, rounds)
    requires After(b, ls, solutions, cfg, rng, rounds, tau, k)
    requires ni == Stagnation(Improvements(b, ls, solutions, rounds))
    ensures Recorded(b, best', offered') && rd.tau == tau
    ensures Fits(solutions, rounds + [rd]) && offered' == Offers(b, ls, solutions, rounds + [rd])
    ensures Starts(b, solutions, budget, cfg, rng, ls, rounds, rd)
    ensures Improvements(b, ls, solutions, rounds + [rd]) == Improvements(b, ls, solutions, rounds) + [improved]
    ensures ni' == Stagnation(Improvements(b, ls, solutions, rounds + [rd]))
    ensures r.Ok? ==> Ready(b, ls, solutions, rounds + [rd], tau, r.value, best', ni', k')
    ensures r.Raised? ==> r.error == ValueError
    ensures r.Raised? ==> |rd.trails| < Quota(|solutions|, budget, clock + 1)
    ensures r.Raised? ==> StuckNext(b, solutions, rd.trails, stuck, rd.tau, cfg.w, rng, k')
    ensures r.Ok? ==> |rd.trails| == Quota(|solutions|, budget, clock + 1)
    ensures r.Ok? ==> clock' == Clock(rounds + [rd]) <= budget
    ensures r.Ok? ==> r.value == LastAnts(b, ls, solutions, rounds + [rd])
    ensures k' == Next(rd.k, rd.trails)
  {
    r, clock', k', best', offered', improved, rd, stuck := Gather(b, solutions, budget, clock, cfg.w, rng, ls, tau, k, best, offered, rounds);
    ImprovementsSnoc(b, ls, solutions, rounds, rd);
    StagnationSnoc(Improvements(b, ls, solutions, rounds), improved);
    ni' := if improved then 0 else ni + 1;
    AfterWf(b, ls, solutions, cfg, rng, rounds, tau, k);
  }

  /** The table an iteration starts from is well formed. */
  lemma AfterWf<S(!new), C(!new)>(b: Builder<S, C>, ls: Option<S -> S>, solutions: seq<S>, cfg: Config,
                                  rng: Oracle, p: seq<Round<C>>, tau: Table, k: nat)
    requires After(b, ls, solutions, cfg, rng, p, tau, k)
    ensures Wf(tau)
  {
  }

  /** The update after the iterations p is about to run: the last of them started from tau
      and built the ants, the draws go on from where its last ant stopped, and best and ni
      are as the iterations left them. */
  ghost predicate Ready<S(!new), C(!new)>(b: Builder<S, C>, ls: Option<S -> S>, solutions: seq<S>, p: seq<Round<C>>,
                                         tau: Table, ants: seq<S>, best: Inc<Option<S>>, ni: nat, k: nat)
  {
    && Valid(b) && Fits(solutions, p) && p != []
    && tau == p[|p| - 1].tau && Wf(tau) && k == Next(p[|p| - 1].k, p[|p| - 1].trails)
    && ants == LastAnts(b, ls, solutions, p) && ni == Stagnation(Improvements(b, ls, solutions, p))
    && best == Best(b, ls, solutions, p) && (best.sol.Some? <==> best.obj.Some?)
  }

  /** Lines 137-195: the update after the iterations p, whose last one built the ants and
      started from tau: Update with the feasible ants, the incumbent after p, ni as their
      improvement log leaves it, and the draws from where the last ant stopped. */
  method Renew<S(!new), C(!new)>(b: Builder<S, C>, ls: Option<S -> S>, solutions: seq<S>, cfg: Config, rng: Oracle,
                                 ghost p: seq<Round<C>>, tau: Table, ants: seq<S>, best: Inc<Option<S>>, ni: nat,
                                 k: nat)
      returns (r: Run<Table>, k': nat)
    requires Ready(b, ls, solutions, p, tau, ants, best, ni, k)
    ensures Sane(b, ls, solutions, p)
    ensures r.Raised? <==> Fault(b, ls, solutions, cfg, rng, p).Some?
    ensures r.Raised? ==> r.error == Fault(b, ls, solutions, cfg, rng, p).value
    ensures r.Raised? ==> r.error == TypeError || r.error == ZeroDivisionError
    ensures r.Ok? ==> After(b, ls, solutions, cfg, rng, p, r.value, k')
  {
    var kept := Kept(b, ants);
    FaultIs(b, ls, solutions, cfg, rng, p, tau, ants, best, ni, k);
    r, k' := Update(b, tau, kept, best, ni, cfg.nrestart, cfg.a, cfg.rho, cfg.globalratio, rng, k);
    if r.Ok? {
      AfterIs(b, ls, solutions, cfg, rng, p, tau, ants, best, ni, k, r.value, k');
    }
  }

  /** The error the update after the iterations p raises is that of Update with what they
      left. */
  lemma FaultIs<S(!new), C(!new)>(b: Builder<S, C>, ls: Option<S -> S>, solutions: seq<S>, cfg: Config, rng: Oracle,
                                  p: seq<Round<C>>, tau: Table, ants: seq<S>, best: Inc<Option<S>>, ni: nat, k: nat)
    requires Ready(b, ls, solutions, p, tau, ants, best, ni, k)
    ensures Sane(b, ls, solutions, p)
    ensures forall i :: 0 <= i < |Kept(b, ants)| ==> b.objective(Kept(b, ants)[i]).Some?
    ensures Fault(b, ls, solutions, cfg, rng, p) ==
            UpdateError(b, Kept(b, ants), best, ni, cfg.nrestart, cfg.a, cfg.globalratio, rng, k)
  {
  }

  /** An update after the iterations p that did not raise leaves what the next iteration
      starts from. */
  lemma AfterIs<S(!new), C(!new)>(b: Builder<S, C>, ls: Option<S -> S>, solutions: seq<S>, cfg: Config, rng: Oracle,
                                  p: seq<Round<C>>, tau: Table, ants: seq<S>, best: Inc<Option<S>>, ni: nat, k: nat,
                                  tau': Table, k': nat)
    requires Ready(b, ls, solutions, p, tau, ants, best, ni, k)
    requires forall i :: 0 <= i < |Kept(b, ants)| ==> b.objective(Kept(b, ants)[i]).Some?
    requires UpdateError(b, Kept(b, ants), best, ni, cfg.nrestart, cfg.a, cfg.globalratio, rng, k).None?
    requires Updated(b, tau, Kept(b, ants), best, ni, cfg.nrestart, cfg.a, cfg.rho, cfg.globalratio, rng, k, tau', k')
    ensures After(b, ls, solutions, cfg, rng, p, tau', k')
  {
  }

  /** Lines 112-195: one iteration after the iterations `rounds`, which left the table tau,
      the draw count k and ni. It builds its ants (the iteration rd) and, unless an ant
      raised, updates the table with the feasible ones. */
  method Cycle<S(!new), C(!new)>(b: Builder<S, C>, solutions: seq<S>, budget: nat, clock: nat, cfg: Config,
                                 rng: Oracle, ls: Option<S -> S>, tau: Table, k: nat, best: Inc<Option<S>>,
                                 ni: nat, ghost offered: seq<(Option<S>, real)>, ghost rounds: seq<Round<C>>)
      returns (r: Run<Table>, clock': nat, k': nat, best': Inc<Option<S>>, ni': nat,
               ghost offered': seq<(Option<S>, real)>, improved: bool, ghost rd: Round<C>, ghost stuck: seq<C>)
    requires Valid(b) && Recorded(b, best, offered) && clock == Clock(rounds) < budget
    requires Fits(solutions, rounds) && offered == Offers(b, ls, solutions, rounds)
    requires Iterations(b, solutions, budget, cfg, rng, ls, rounds) && After(b, ls, solutions, cfg, rng, rounds, tau, k)
    requires ni == Stagnation(Improvements(b, ls, solutions, rounds))
    ensures Recorded(b, best', offered')
    ensures Fits(solutions, rounds + [rd]) && offered' == Offers(b, ls, solutions, rounds + [rd])
    ensures Improvements(b, ls, solutions, rounds + [rd]) == Improvements(b, ls, solutions, rounds) + [improved]
    ensures ni' == Stagnation(Improvements(b, ls, solutions, rounds + [rd]))
    ensures r.Raised? ==> r.error == ValueError || r.error == TypeError || r.error == ZeroDivisionError
    ensures r.Ok? ==> clock' == Clock(rounds + [rd]) <= budget
    ensures r.Ok? ==> Iterations(b, solutions, budget, cfg, rng, ls, rounds + [rd])
    ensures r.Ok? ==> After(b, ls, solutions, cfg, rng, rounds + [rd], r.value, k')
    ensures r.Raised? && r.error != ValueError ==>
              && Iterations(b, solutions, budget, cfg, rng, ls, rounds + [rd]) && Sane(b, ls, solutions, rounds + [rd])
              && Fault(b, ls, solutions, cfg, rng, rounds + [rd]) == Some(r.error)
    ensures r == Raised(ValueError) ==> Halts(b, solutions, budget, cfg, rng, ls, rounds, rd, stuck)
  {
    var ants, k2;
    ants, clock', k2, best', ni', offered', improved, rd, stuck :=
      Launch(b, solutions, budget, clock, cfg, rng, ls, tau, k, best, ni, offered, rounds);
    if ants.Raised? {
      return Raised(ants.error), clock', k2, best', ni', offered', improved, rd, stuck;
    }
    IterationsGrow(b, solutions, budget, cfg, rng, ls, rounds, rd);
    r, k' := Renew(b, ls, solutions, cfg, rng, rounds + [rd], tau, ants.value, best', ni', k2);
  }

  /** How a run with the iterations `rounds` ended, e being the error it raised if any: one
      that returns has spent the budget and its last update did not raise; a ValueError
      comes from the ant after the last iteration's completed ones, whose trail is stuck;
      any other error from the update after the last iteration. */
  ghost predicate Ended<S(!new), C(!new)>(b: Builder<S, C>, solutions: seq<S>, budget: nat, cfg: Config, rng: Oracle,
                                         ls: Option<S -> S>, e: Option<Error>, rounds: seq<Round<C>>, stuck: seq<C>)
  {
    if e == Some(ValueError) then
      rounds != [] && Halts(b, solutions, budget, cfg, rng, ls, rounds[..|rounds| - 1], rounds[|rounds| - 1], stuck)
    else
      && Iterations(b, solutions, budget, cfg, rng, ls, rounds)
      && (e.None? ==> Clock(rounds) == budget)
      && (e.Some? || rounds != [] ==> Sane(b, ls, solutions, rounds) && Fault(b, ls, solutions, cfg, rng, rounds) == e)
  }

  /** What a run that ended with r guarantees: the iterations' offers, all feasible, are
      `offered`, a returned solution is their incumbent, `log` and `restarts` record each
      iteration's improvement and restart, and it ended as Ended says. */
  ghost predicate Finished<S(!new), C(!new)>(b: Builder<S, C>, solutions: seq<S>, budget: nat, cfg: Config, rng: Oracle,
                                            ls: Option<S -> S>, r: Run<Option<S>>, offered: seq<(Option<S>, real)>,
                                            log: seq<bool>, restarts: seq<bool>, rounds: seq<Round<C>>, stuck: seq<C>)
  {
    && Valid(b) && Fits(solutions, rounds) && offered == Offers(b, ls, solutions, rounds)
    && (forall i :: 0 <= i < |offered| ==>
          offered[i].0.Some? && b.isFeasible(offered[i].0.value) && b.objective(offered[i].0.value) == Some(offered[i].1))
    && (r.Ok? ==> r.value == Track(Inc(None, None), offered).sol && (r.value.None? <==> offered == []))
    && log == Improvements(b, ls, solutions, rounds) && RestartLog(log, restarts, cfg.nrestart)
    && Ended(b, solutions, budget, cfg, rng, ls, if r.Ok? then None else Some(r.error), rounds, stuck)
  }

  /** The state of an mmas run between iterations, after the iterations `rounds`: the
      clock readings they took, the table and draw count they left, the incumbent over their
      offers, their improvement log, ni and the restart log. */
  ghost predicate Progress<S(!new), C(!new)>(b: Builder<S, C>, solutions: seq<S>, budget: nat, cfg: Config,
                                            rng: Oracle, ls: Option<S -> S>, rounds: seq<Round<C>>, clock: nat,
                                            tau: Table, k: nat, best: Inc<Option<S>>, offered: seq<(Option<S>, real)>,
                                            ni: nat, log: seq<bool>, restarts: seq<bool>)
  {
    && Valid(b) && clock == Clock(rounds) <= budget
    && Fits(solutions, rounds) && offered == Offers(b, ls, solutions, rounds)
    && Iterations(b, solutions, budget, cfg, rng, ls, rounds)
    && After(b, ls, solutions, cfg, rng, rounds, tau, k)
    && Recorded(b, best, offered)
    && log == Improvements(b, ls, solutions, rounds) && ni == Stagnation(log)
    && RestartLog(log, restarts, cfg.nrestart)
  }

  /** Lines 112-196: one pass of the main loop, which also logs whether the iteration improved
      the incumbent and whether its update restarted. */
  method Turn<S(!new), C(!new)>(b: Builder<S, C>, solutions: seq<S>, budget: nat, cfg: Config, rng: Oracle,
                                ls: Option<S -> S>, clock: nat, tau: Table, k: nat, best: Inc<Option<S>>, ni: nat,
                                ghost offered: seq<(Option<S>, real)>, ghost log: seq<bool>,
                                ghost restarts: seq<bool>, ghost rounds: seq<Round<C>>)
      returns (r: Run<Table>, clock': nat, k': nat, best': Inc<Option<S>>, ni': nat,
               ghost offered': seq<(Option<S>, real)>, ghost log': seq<bool>, ghost restarts': seq<bool>,
               ghost rounds': seq<Round<C>>, ghost stuck: seq<C>)
    requires clock < budget
    requires Progress(b, solutions, budget, cfg, rng, ls, rounds, clock, tau, k, best, offered, ni, log, restarts)
    ensures Fits(solutions, rounds') && offered' == Offers(b, ls, solutions, rounds') && Recorded(b, best', offered')
    ensures log' == Improvements(b, ls, solutions, rounds') && RestartLog(log', restarts', cfg.nrestart)
    ensures r.Raised? ==> r.error == ValueError || r.error == TypeError || r.error == ZeroDivisionError
    ensures r.Ok? ==> clock < clock'
    ensures r.Ok? ==> Progress(b, solutions, budget, cfg, rng, ls, rounds', clock', r.value, k', best', offered', ni', log', restarts')
    ensures r.Raised? ==> Finished(b, solutions, budget, cfg, rng, ls, Raised(r.error), offered', log', restarts', rounds', stuck)
  {
    var improved;
    ghost var rd;
    r, clock', k', best', ni', offered', improved, rd, stuck :=
      Cycle(b, solutions, budget, clock, cfg, rng, ls, tau, k, best, ni, offered, rounds);
    RestartLogSnoc(log, restarts, cfg.nrestart, improved);
    log', restarts' := log + [improved], restarts + [ni' >= cfg.nrestart];
    rounds' := rounds + [rd];
    assert rounds'[..|rounds'| - 1] == rounds && rounds'[|rounds'| - 1] == rd;
    if r.Ok? {
      RoundsSnoc(b, solutions, ls, rounds, rd);
    }
  }

  /** Lines 105-198: the main loop of mmas, from the fresh table with every id at taumax, no
      incumbent and ni = 0. It returns after spending the budget, with the incumbent's
      solution, or raises what an iteration raised. */
  method Iterate<S(!new), C(!new)>(b: Builder<S, C>, solutions: seq<S>, budget: nat, cfg: Config, rng: Oracle,
                                   ls: Option<S -> S>)
      returns (r: Run<Option<S>>, ghost offered: seq<(Option<S>, real)>, ghost log: seq<bool>,
               ghost restarts: seq<bool>, ghost rounds: seq<Round<C>>, ghost stuck: seq<C>)
    requires Valid(b)
    ensures r.Raised? ==> r.error == ValueError || r.error == TypeError || r.error == ZeroDivisionError
    ensures budget == 0 ==> r == Ok(None)
    ensures Finished(b, solutions, budget, cfg, rng, ls, r, offered, log, restarts, rounds, stuck)
  {
    var halt, clock, tau, k, best, ni;
    halt, clock, tau, k, best, ni, offered, log, restarts, rounds, stuck :=
      Loop(b, solutions, budget, cfg, rng, ls, 0, Fresh(cfg.taumax), 0, Inc(None, None), 0, [], [], [], []);
    if halt.Some? {
      return Raised(halt.value), offered, log, restarts, rounds, stuck;
    }
    Spent(b, solutions, budget, cfg, rng, ls, rounds, clock, tau, k, best, offered, ni, log, restarts);
    r := Ok(best.sol);
  }

  /** The main loop from a state between iterations: it stops with the state once the budget
      is spent, or with the error an iteration raised. */
  method Loop<S(!new), C(!new)>(b: Builder<S, C>, solutions: seq<S>, budget: nat, cfg: Config, rng: Oracle,
                                ls: Option<S -> S>, clock: nat, tau: Table, k: nat, best: Inc<Option<S>>, ni: nat,
                                ghost offered: seq<(Option<S>, real)>, ghost log: seq<bool>,
                                ghost restarts: seq<bool>, ghost rounds: seq<Round<C>>)
      returns (halt: Option<Error>, clock': nat, tau': Table, k': nat, best': Inc<Option<S>>, ni': nat,
               ghost offered': seq<(Option<S>, real)>, ghost log': seq<bool>, ghost restarts': seq<bool>,
               ghost rounds': seq<Round<C>>, ghost stuck: seq<C>)
    requires Progress(b, solutions, budget, cfg, rng, ls, rounds, clock, tau, k, best, offered, ni, log, restarts)
    ensures halt.Some? ==> halt.value == ValueError || halt.value == TypeError || halt.value == ZeroDivisionError
    ensures halt.Some? ==>
              Finished(b, solutions, budget, cfg, rng, ls, Raised(halt.value), offered', log', restarts', rounds', stuck)
    ensures halt.None? ==>
              budget <= clock' && Progress(b, solutions, budget, cfg, rng, ls, rounds', clock', tau', k', best', offered', ni', log', restarts')
    ensures clock >= budget ==> halt.None? && best' == best
  {
    halt, clock', tau', k', best', ni', offered', log', restarts', rounds', stuck :=
      None, clock, tau, k, best, ni, offered, log, restarts, rounds, [];
    while clock' < budget
      invariant Progress(b, solutions, budget, cfg, rng, ls, rounds', clock', tau', k', best', offered', ni', log', restarts')
      invariant clock >= budget ==> best' == best
      decreases budget - clock'
    {
      var step;
      step, clock', k', best', ni', offered', log', restarts', rounds', stuck :=
        Turn(b, solutions, budget, cfg, rng, ls, clock', tau', k', best', ni', offered', log', restarts', rounds');
      if step.Raised? {
        return Some(step.error), clock', tau', k', best', ni', offered', log', restarts', rounds', stuck;
      }
      tau' := step.value;
    }
  }

  /** A run that spent its budget between iterations has taken exactly budget clock
      readings, its last update did not raise, and the incumbent is the first least of its
      offers, None exactly when nothing was offered. */
  lemma Spent<S(!new), C(!new)>(b: Builder<S, C>, solutions: seq<S>, budget: nat, cfg: Config, rng: Oracle,
                                ls: Option<S -> S>, rounds: seq<Round<C>>, clock: nat, tau: Table, k: nat,
                                best: Inc<Option<S>>, offered: seq<(Option<S>, real)>, ni: nat, log: seq<bool>,
                                restarts: seq<bool>)
    requires Progress(b, solutions, budget, cfg, rng, ls, rounds, clock, tau, k, best, offered, ni, log, restarts)
    requires clock >= budget
    ensures Finished(b, solutions, budget, cfg, rng, ls, Ok(best.sol), offered, log, restarts, rounds, [])
  {
    TrackLeast(Inc(None, None), offered);
  }

  /** mmas(solutions, budget, taumax, a, alpha, beta, rho, globalratio, nrestart,
      local_search). The budget is a number of clock readings; line 104 divides by a before
      anything else. `rounds` are the iterations: each builds its quota of ants by
      construct_ant with the table the previous update left, and `offered` is everything
      they offered to the incumbent, in order. `log[j]` tells whether iteration j improved
      the incumbent and `restarts[j]` whether its update was a restart, which it is exactly
      when ni, the Stagnation of the log so far, had reached nrestart. A run that returns has
      spent the budget and its last update did not raise; a TypeError or ZeroDivisionError
      after a != 0 comes from the update after the last iteration; a ValueError from the ant
      after the last iteration's completed ones, whose trail is `stuck`. */
  method MmasRun<S(!new), C(!new)>(b: Builder<S, C>, solutions: seq<S>, budget: nat, taumax: real,
                                   a: real, w: Params, rho: real, globalratio: real, nrestart: int,
                                   rng: Oracle, ls: Option<S -> S>)
      returns (r: Run<Option<S>>, ghost offered: seq<(Option<S>, real)>, ghost log: seq<bool>,
               ghost restarts: seq<bool>, ghost rounds: seq<Round<C>>, ghost stuck: seq<C>)
    requires Valid(b)
    ensures a == 0.0 ==> r == Raised(ZeroDivisionError) && rounds == []
    ensures r.Raised? ==> r.error == ValueError || r.error == TypeError || r.error == ZeroDivisionError
    ensures a != 0.0 && budget == 0 ==> r == Ok(None)
    ensures Fits(solutions, rounds) && offered == Offers(b, ls, solutions, rounds)
    ensures forall i :: 0 <= i < |offered| ==>
              offered[i].0.Some? && b.isFeasible(offered[i].0.value) &&
              b.objective(offered[i].0.value) == Some(offered[i].1)
    ensures r.Ok? ==> r.value == Track(Inc(None, None), offered).sol
    ensures r.Ok? ==> (r.value.None? <==> offered == [])
    ensures log == Improvements(b, ls, solutions, rounds) && RestartLog(log, restarts, nrestart)
    ensures a != 0.0 ==> Ended(b, solutions, budget, Config(taumax, a, w, rho, globalratio, nrestart), rng, ls,
                               if r.Ok? then None else Some(r.error), rounds, stuck)
  {
    if a == 0.0 {
      offered, log, restarts, rounds, stuck := [], [], [], [], [];
      return Raised(ZeroDivisionError), offered, log, restarts, rounds, stuck;
    }
    r, offered, log, restarts, rounds, stuck := Iterate(b, solutions, budget, Config(taumax, a, w, rho, globalratio, nrestart), rng, ls);
  }
}
