/** Ant System (src/api/ant_system.py): ants built by pheromone-weighted random construction,
    an optional local search per ant, strict-improvement tracking of the best feasible ant, and
    a pheromone update (evaporation, then reinforcement by every feasible ant) per iteration.
    Line numbers in the comments below are those of src/api/ant_system.py. */
module AntSystem {
  import opened Wrappers
  import opened Contract
  import opened Incumbent
  import opened Utils
  import opened Pheromone

  // ------------------------------------------------------------------ weighted random choice

  /** sum(ws), added left to right. */
  function Sum(ws: seq<real>): real
  {
    if ws == [] then 0.0 else Sum(ws[..|ws| - 1]) + ws[|ws| - 1]
  }

  lemma SumSnoc(ws: seq<real>, i: nat)
    requires i < |ws|
    ensures Sum(ws[..i + 1]) == Sum(ws[..i]) + ws[i]
  {
    assert ws[..i + 1][..i] == ws[..i];
  }

  /** list(accumulate(ws)): the running sums. */
  function Cum(ws: seq<real>): (r: seq<real>)
    ensures |r| == |ws|
  {
    seq(|ws|, i requires 0 <= i < |ws| => Sum(ws[..i + 1]))
  }

  /** With non-negative weights the running sums never decrease. */
  lemma {:induction false} CumSorted(ws: seq<real>, i: nat, j: nat)
    requires i <= j < |ws|
    requires forall m :: 0 <= m < |ws| ==> ws[m] >= 0.0
    ensures Cum(ws)[i] <= Cum(ws)[j]
    decreases j - i
  {
    if i < j {
      CumSorted(ws, i, j - 1);
      SumSnoc(ws, j);
    }
  }

  /** bisect.bisect_right(a, x, lo, hi), as the standard library computes it. */
  function BisectRight(a: seq<real>, x: real, lo: nat, hi: nat): (r: nat)
    requires lo <= hi <= |a|
    ensures lo <= r <= hi
    decreases hi - lo
  {
    if lo < hi then
      var mid := (lo + hi) / 2;
      if x < a[mid] then BisectRight(a, x, lo, mid) else BisectRight(a, x, mid + 1, hi)
    else lo
  }

  /** On a sorted range, bisect_right splits it into the entries <= x and those > x. */
  lemma {:induction false} BisectSorted(a: seq<real>, x: real, lo: nat, hi: nat)
    requires lo <= hi <= |a|
    requires forall i, j :: lo <= i <= j < hi ==> a[i] <= a[j]
    ensures forall j :: lo <= j < BisectRight(a, x, lo, hi) ==> a[j] <= x
    ensures forall j :: BisectRight(a, x, lo, hi) <= j < hi ==> x < a[j]
    decreases hi - lo
  {
    if lo < hi {
      var mid := (lo + hi) / 2;
      if x < a[mid] {
        BisectSorted(a, x, lo, mid);
      } else {
        BisectSorted(a, x, mid + 1, hi);
      }
    }
  }

  /** bisect(cum_weights, x, 0, n - 1): the index whose running-sum interval holds x. */
  function Bisect(ws: seq<real>, x: real): (i: nat)
    requires |ws| > 0
    ensures i < |ws|
  {
    BisectRight(Cum(ws), x, 0, |ws| - 1)
  }

  /** The index random.choices(population, ws, k=1) picks with the draw u = random():
      bisect(cum_weights, u * total, 0, n - 1). */
  function WeightedIndex(ws: seq<real>, u: real): (i: nat)
    requires |ws| > 0
    ensures i < |ws|
  {
    Bisect(ws, Scaled(u, Sum(ws)))
  }

  /** The target u * total that random.choices bisects for. */
  function Scaled(u: real, t: real): real
  {
    u * t
  }

  /** A draw u in [0, 1) scales a positive total t to a target in [0, t). */
  lemma ScaledBelow(u: real, t: real) returns (x: real)
    requires 0.0 <= u < 1.0 && t > 0.0
    ensures x == Scaled(u, t) && 0.0 <= x < t
  {
    x := u * t;
    assert t - x == (1.0 - u) * t;
  }

  /** Sampling proportionally to the weights: index i is picked exactly when u * total falls
      in [ws[0] + ... + ws[i-1], ws[0] + ... + ws[i]), an interval of width ws[i]; so an entry
      of weight 0 is never picked. */
  lemma WeightedIndexInterval(ws: seq<real>, u: real) returns (i: nat)
    requires |ws| > 0 && forall m :: 0 <= m < |ws| ==> ws[m] >= 0.0
    requires 0.0 <= u < 1.0 && Sum(ws) > 0.0
    ensures i == WeightedIndex(ws, u)
    ensures Sum(ws[..i]) <= u * Sum(ws) < Sum(ws[..i]) + ws[i] && ws[i] > 0.0
  {
    var x := ScaledBelow(u, Sum(ws));
    WeightedIndexIs(ws, u, x);
    i := BisectInterval(ws, x);
  }

  /** The draw u picks the index bisect gives for its scaled target x. */
  lemma WeightedIndexIs(ws: seq<real>, u: real, x: real)
    requires |ws| > 0 && x == Scaled(u, Sum(ws))
    ensures WeightedIndex(ws, u) == Bisect(ws, x)
  {
  }

  /** bisect over the running sums, for a target x below the total: the index whose interval
      [ws[0] + ... + ws[i-1], ws[0] + ... + ws[i]) holds x. */
  lemma BisectInterval(ws: seq<real>, x: real) returns (i: nat)
    requires |ws| > 0 && forall m :: 0 <= m < |ws| ==> ws[m] >= 0.0
    requires 0.0 <= x < Sum(ws)
    ensures i == Bisect(ws, x)
    ensures Sum(ws[..i]) <= x < Sum(ws[..i]) + ws[i] && ws[i] > 0.0
  {
    var a := Cum(ws);
    var n := |ws|;
    forall i, j | 0 <= i <= j < n - 1 ensures a[i] <= a[j] {
      CumSorted(ws, i, j);
    }
    BisectSorted(a, x, 0, n - 1);
    i := BisectRight(a, x, 0, n - 1);
    SumSnoc(ws, i);
    if i < n - 1 {
      assert x < a[i];
    } else {
      assert ws[..n] == ws;
    }
    if i > 0 {
      assert a[i - 1] <= x;
      assert ws[..i - 1 + 1] == ws[..i];
    }
  }

  // ------------------------------------------------------------------ construct_ant

  /** alpha, beta and the power function `**` the weights are computed with. */
  datatype Params = Params(alpha: real, beta: real, pow: (real, real) -> real)

  /** (tau[k] ** alpha) * ((1.0 / lbincr) ** beta). */
  function Weight(tau: Table, k: int, lbincr: real, w: Params): real
    requires lbincr != 0.0
  {
    w.pow(Lookup(tau, k), w.alpha) * w.pow(1.0 / lbincr, w.beta)
  }

  /** Components whose increment isclose to 0. */
  predicate ZeroIncr<S, C>(b: Builder<S, C>, s: S, c: C)
  {
    b.lbIncr(s, c).Some? && IsClose(b.lbIncr(s, c).value, 0.0)
  }

  /** Components whose increment is defined and not close to 0. */
  predicate OtherIncr<S, C>(b: Builder<S, C>, s: S, c: C)
  {
    b.lbIncr(s, c).Some? && !IsClose(b.lbIncr(s, c).value, 0.0)
  }

  /** The lists cszero, cs and p built by one pass over the add moves. */
  datatype Parts<C> = Parts(zero: seq<C>, rest: seq<C>, weights: seq<real>)

  /** The pass over the moves ms of s: None when an increment is None (ValueError), else the
      zero-increment moves, the other moves and their weights (see SplitParts). */
  function Split<S, C>(b: Builder<S, C>, s: S, ms: seq<C>, tau: Table, w: Params): (r: Option<Parts<C>>)
    ensures r.None? <==> exists i :: 0 <= i < |ms| && b.lbIncr(s, ms[i]).None?
    ensures r.Some? ==> |r.value.zero| + |r.value.rest| == |ms| && |r.value.weights| == |r.value.rest|
  {
    if ms == [] then Some(Parts([], [], []))
    else
      var prefix := ms[..|ms| - 1];
      var c := ms[|ms| - 1];
      var p := Split(b, s, prefix, tau, w);
      var d := b.lbIncr(s, c);
      if p.None? then
        var i :| 0 <= i < |prefix| && b.lbIncr(s, prefix[i]).None?;
        assert ms[i] == prefix[i];
        None
      else if d.None? then None
      else if IsClose(d.value, 0.0) then Some(Parts(p.value.zero + [c], p.value.rest, p.value.weights))
      else Some(Parts(p.value.zero, p.value.rest + [c], p.value.weights + [Weight(tau, b.cid(c), d.value, w)]))
  }

  /** cszero holds exactly the moves of increment close to 0, cs exactly the others, and p the
      weight of each move of cs, position by position. */
  lemma {:induction false} SplitParts<S, C(!new)>(b: Builder<S, C>, s: S, ms: seq<C>, tau: Table, w: Params)
    requires Split(b, s, ms, tau, w).Some?
    ensures var p := Split(b, s, ms, tau, w).value;
            && (forall c :: c in p.zero <==> c in ms && ZeroIncr(b, s, c))
            && (forall c :: c in p.rest <==> c in ms && OtherIncr(b, s, c))
            && (forall i :: 0 <= i < |p.rest| ==>
                  (OtherIncr(b, s, p.rest[i]) &&
                   p.weights[i] == Weight(tau, b.cid(p.rest[i]), b.lbIncr(s, p.rest[i]).value, w)))
  {
    if ms != [] {
      var prefix := ms[..|ms| - 1];
      assert ms == prefix + [ms[|ms| - 1]];
      SplitParts(b, s, prefix, tau, w);
    }
  }

  /** Lines 59-74: the pass over the add moves of s, raising ValueError on an undefined
      increment. */
  method Classify<S, C(!new)>(b: Builder<S, C>, s: S, tau: Table, w: Params) returns (r: Run<Parts<C>>)
    ensures r.Raised? ==> r.error == ValueError
    ensures Split(b, s, b.addMoves(s), tau, w) == if r.Ok? then Some(r.value) else None
  {
    var ms := b.addMoves(s);
    var zero, rest, weights := [], [], [];
    for i := 0 to |ms|
      invariant Split(b, s, ms[..i], tau, w) == Some(Parts(zero, rest, weights))
    {
      assert ms[..i + 1][..i] == ms[..i];
      var c := ms[i];
      var lbincr := b.lbIncr(s, c);
      if lbincr.None? {
        return Raised(ValueError);
      }
      if IsClose(lbincr.value, 0.0) {
        zero := zero + [c];
      } else {
        rest := rest + [c];
        weights := weights + [Weight(tau, b.cid(c), lbincr.value, w)];
      }
    }
    assert ms[..|ms|] == ms;
    r := Ok(Parts(zero, rest, weights));
  }

  /** Lines 75-84: a uniform choice among the zero-increment moves if there is one; else a
      choice weighted by p, or uniform when sum(p) <= 0; None when there is no move. The draw
      is number k of the oracle. */
  function AntPick<C>(p: Parts<C>, rng: Oracle, k: nat): (r: Option<C>)
    requires |p.weights| == |p.rest|
    ensures r.None? <==> p.zero == [] && p.rest == []
    ensures p.zero != [] ==> r.Some? && r.value in p.zero
    ensures p.zero == [] && r.Some? ==> r.value in p.rest
  {
    if |p.zero| > 0 then Some(Choice(rng, k, p.zero))
    else if |p.rest| > 0 then
      if Sum(p.weights) > 0.0 then Some(p.rest[WeightedIndex(p.weights, rng.unit(k))])
      else Some(Choice(rng, k, p.rest))
    else None
  }

  /** Without a zero-increment move and with non-negative weights of positive sum, the pick is
      a move of positive weight whose interval of the running sums holds the scaled draw. */
  lemma AntPickProportional<C>(p: Parts<C>, rng: Oracle, k: nat) returns (i: nat)
    requires |p.weights| == |p.rest| && p.zero == [] && p.rest != []
    requires forall m :: 0 <= m < |p.weights| ==> p.weights[m] >= 0.0
    requires 0.0 <= rng.unit(k) < 1.0 && Sum(p.weights) > 0.0
    ensures i == WeightedIndex(p.weights, rng.unit(k))
    ensures i < |p.rest| && AntPick(p, rng, k) == Some(p.rest[i]) && p.weights[i] > 0.0
  {
    i := WeightedIndexInterval(p.weights, rng.unit(k));
  }

  /** The component construct_ant adds to s with draw number k; None when it raises or stops. */
  ghost function AntStep<S, C>(b: Builder<S, C>, s: S, tau: Table, w: Params, rng: Oracle, k: nat): Option<C>
  {
    var p := Split(b, s, b.addMoves(s), tau, w);
    if p.None? then None else AntPick(p.value, rng, k)
  }

  /** The added component is an add move of s with a defined increment, and it has an
      increment close to 0 whenever some add move does: the zero-increment priority rule. */
  lemma AntStepPrefersZero<S, C(!new)>(b: Builder<S, C>, s: S, tau: Table, w: Params, rng: Oracle, k: nat)
    requires AntStep(b, s, tau, w, rng, k).Some?
    ensures AntStep(b, s, tau, w, rng, k).value in b.addMoves(s)
    ensures OtherIncr(b, s, AntStep(b, s, tau, w, rng, k).value) || ZeroIncr(b, s, AntStep(b, s, tau, w, rng, k).value)
    ensures (exists c :: c in b.addMoves(s) && ZeroIncr(b, s, c)) ==> ZeroIncr(b, s, AntStep(b, s, tau, w, rng, k).value)
  {
    SplitParts(b, s, b.addMoves(s), tau, w);
  }

  /** One pass of construct_ant's loop on s with draw number k: the component to add, None
      when there is no add move, or ValueError. */
  method AntMove<S, C(!new)>(b: Builder<S, C>, s: S, tau: Table, w: Params, rng: Oracle, k: nat)
      returns (r: Run<Option<C>>)
    ensures r.Raised? ==> r.error == ValueError
    ensures r.Raised? ==> exists c :: c in b.addMoves(s) && b.lbIncr(s, c).None?
    ensures r.Raised? <==> Split(b, s, b.addMoves(s), tau, w).None?
    ensures r.Ok? ==> r.value == AntStep(b, s, tau, w, rng, k)
    ensures r.Ok? && r.value.Some? ==> r.value.value in b.addMoves(s)
    ensures r.Ok? && r.value.None? ==> b.addMoves(s) == []
  {
    var parts := Classify(b, s, tau, w);
    if parts.Raised? {
      var i :| 0 <= i < |b.addMoves(s)| && b.lbIncr(s, b.addMoves(s)[i]).None?;
      return Raised(parts.error);
    }
    r := Ok(AntPick(parts.value, rng, k));
    SplitParts(b, s, b.addMoves(s), tau, w);
  }

  /** construct_ant(solution, alpha, beta, tau) with draws from number k0 on: adds the
      component AntStep picks until there is no add move, or raises ValueError. `added` is the
      trail of components added (AntTrace reads it position by position). */
  method ConstructAnt<S(!new), C(!new)>(b: Builder<S, C>, solution: S, tau: Table, w: Params,
                                        rng: Oracle, k0: nat)
      returns (r: Run<S>, k: nat, ghost added: seq<C>)
    requires Valid(b)
    ensures k == k0 + |added|
    ensures AntTrail(b, solution, added, tau, w, rng, k0)
    ensures r.Raised? ==> r.error == ValueError
    ensures r.Raised? ==> exists c :: c in b.addMoves(AddAll(b, solution, added)) &&
                            b.lbIncr(AddAll(b, solution, added), c).None?
    ensures r.Ok? ==> r.value == AddAll(b, solution, added) && b.addMoves(r.value) == []
    ensures r.Raised? ==> Stuck(b, solution, added, tau, w, rng, k0)
    ensures r.Ok? ==> Complete(b, solution, added, tau, w, rng, k0)
  {
    var s := solution;
    added := [];
    k := k0;
    while true
      invariant s == AddAll(b, solution, added) && k == k0 + |added|
      invariant AntTrail(b, solution, added, tau, w, rng, k0)
      decreases b.size(s)
    {
      var move := AntMove(b, s, tau, w, rng, k);
      if move.Raised? {
        return Raised(move.error), k, added;
      }
      if move.value.None? {
        break;
      }
      var c := move.value.value;
      TrailSnoc(b, solution, added, c, tau, w, rng, k0);
      added := added + [c];
      s := b.add(s, c);
      k := k + 1;
    }
    r := Ok(s);
  }

  /** Each component of cs is the one AntStep picks after the ones before it, with draw
      number k0 for the first. */
  ghost predicate AntTrail<S, C>(b: Builder<S, C>, s: S, cs: seq<C>, tau: Table, w: Params, rng: Oracle, k0: nat)
    decreases |cs|
  {
    cs == [] || (AntTrail(b, s, cs[..|cs| - 1], tau, w, rng, k0) &&
                 AntStep(b, AddAll(b, s, cs[..|cs| - 1]), tau, w, rng, k0 + |cs| - 1) == Some(cs[|cs| - 1]))
  }

  /** A trail extended by the component AntStep picks next is still a trail. */
  lemma TrailSnoc<S, C>(b: Builder<S, C>, s: S, cs: seq<C>, c: C, tau: Table, w: Params, rng: Oracle, k0: nat)
    requires AntTrail(b, s, cs, tau, w, rng, k0)
    requires AntStep(b, AddAll(b, s, cs), tau, w, rng, k0 + |cs|) == Some(c)
    ensures AntTrail(b, s, cs + [c], tau, w, rng, k0) && AddAll(b, s, cs + [c]) == b.add(AddAll(b, s, cs), c)
  {
    assert (cs + [c])[..|cs|] == cs;
  }

  /** Reads position i of a trail. */
  lemma {:induction false} AntTrailAt<S, C>(b: Builder<S, C>, s: S, cs: seq<C>, tau: Table, w: Params,
                                            rng: Oracle, k0: nat, i: nat)
    requires AntTrail(b, s, cs, tau, w, rng, k0) && i < |cs|
    ensures AntStep(b, AddAll(b, s, cs[..i]), tau, w, rng, k0 + i) == Some(cs[i])
    decreases |cs|
  {
    var p := cs[..|cs| - 1];
    if i < |p| {
      AntTrailAt(b, s, p, tau, w, rng, k0, i);
      assert p[..i] == cs[..i] && p[i] == cs[i];
    }
  }

  /** Reads a trail position by position. */
  lemma AntTrace<S, C>(b: Builder<S, C>, s: S, cs: seq<C>, tau: Table, w: Params, rng: Oracle, k0: nat)
    requires AntTrail(b, s, cs, tau, w, rng, k0)
    ensures forall i :: 0 <= i < |cs| ==>
              AntStep(b, AddAll(b, s, cs[..i]), tau, w, rng, k0 + i) == Some(cs[i])
  {
    forall i | 0 <= i < |cs| ensures AntStep(b, AddAll(b, s, cs[..i]), tau, w, rng, k0 + i) == Some(cs[i]) {
      AntTrailAt(b, s, cs, tau, w, rng, k0, i);
    }
  }

  // ------------------------------------------------------------------ pheromone update

  /** The ids of a list of components. */
  function Cids<S, C>(b: Builder<S, C>, cs: seq<C>): (r: seq<int>)
    ensures |r| == |cs| && forall i :: 0 <= i < |cs| ==> r[i] == b.cid(cs[i])
  {
    seq(|cs|, i requires 0 <= i < |cs| => b.cid(cs[i]))
  }

  /** What one ant adds to trail k: 1/obj for each occurrence of k among its component ids when
      it is feasible with a non-zero objective; an infeasible ant adds nothing. */
  ghost function AntDeposit<S, C>(b: Builder<S, C>, a: S, k: int): real
  {
    if b.isFeasible(a) && b.objective(a).Some? && b.objective(a).value != 0.0
    then Times(Count(Cids(b, b.components(a)), k), 1.0 / b.objective(a).value)
    else 0.0
  }

  /** What the ants add to trail k, summed over the ants. */
  ghost function Deposited<S, C>(b: Builder<S, C>, ants: seq<S>, k: int): real
  {
    if ants == [] then 0.0
    else Deposited(b, ants[..|ants| - 1], k) + AntDeposit(b, ants[|ants| - 1], k)
  }

  /** A trail no feasible ant has a component of receives nothing. */
  lemma {:induction false} DepositedOnlyFeasible<S, C>(b: Builder<S, C>, ants: seq<S>, k: int)
    requires forall i :: 0 <= i < |ants| && b.isFeasible(ants[i]) ==> k !in Cids(b, b.components(ants[i]))
    ensures Deposited(b, ants, k) == 0.0
  {
    if ants != [] {
      var p := ants[..|ants| - 1];
      assert forall i :: 0 <= i < |p| ==> p[i] == ants[i];
      DepositedOnlyFeasible(b, p, k);
    }
  }

  /** Lines 153-162 for one ant: a feasible ant adds 1/obj to the trail of each of its
      components, once per occurrence; 1/obj, evaluated once per component, raises
      ZeroDivisionError when obj is 0 and the ant has a component. */
  method Reinforce<S(!new), C(!new)>(b: Builder<S, C>, t: Table, ant: S) returns (r: Run<Table>)
    requires Valid(b) && Wf(t)
    ensures r.Raised? <==> b.isFeasible(ant) && b.objective(ant) == Some(0.0) && b.components(ant) != []
    ensures r.Raised? ==> r.error == ZeroDivisionError
    ensures r.Ok? ==> Wf(r.value) && r.value.default == t.default
    ensures r.Ok? ==> forall k :: Lookup(r.value, k) == Lookup(t, k) + AntDeposit(b, ant, k)
  {
    if !b.isFeasible(ant) {
      return Ok(t);
    }
    var obj := b.objective(ant).value;
    var cids := Cids(b, b.components(ant));
    if cids == [] {
      forall k ensures AntDeposit(b, ant, k) == 0.0 {
        assert Count(cids, k) == 0;
      }
      return Ok(t);
    }
    if obj == 0.0 {
      return Raised(ZeroDivisionError);
    }
    var t' := AddEach(t, cids, 1.0 / obj);
    r := Ok(t');
  }

  /** One more ant's deposit extends the sum over the ants before it. */
  lemma DepositStep<S, C>(b: Builder<S, C>, tau: Table, ants: seq<S>, i: nat, rho: real, t: Table, t': Table)
    requires i < |ants|
    requires forall k :: Lookup(t, k) == (1.0 - rho) * Lookup(tau, k) + Deposited(b, ants[..i], k)
    requires forall k :: Lookup(t', k) == Lookup(t, k) + AntDeposit(b, ants[i], k)
    ensures forall k :: Lookup(t', k) == (1.0 - rho) * Lookup(tau, k) + Deposited(b, ants[..i + 1], k)
  {
    assert ants[..i + 1][..i] == ants[..i];
  }

  /** Lines 149-162: evaporate the default and every trail by (1 - rho), then let every ant
      reinforce the trails; the first feasible ant of objective 0 with a component raises
      ZeroDivisionError. */
  method UpdateTrails<S(!new), C(!new)>(b: Builder<S, C>, tau: Table, ants: seq<S>, rho: real)
      returns (r: Run<Table>)
    requires Valid(b) && Wf(tau)
    ensures r.Raised? <==> ZeroObjective(b, ants)
    ensures r.Raised? ==> r.error == ZeroDivisionError
    ensures r.Ok? ==> Decayed(b, ants, rho, tau, r.value)
  {
    var t := Remap(tau, x => (1.0 - rho) * x);
    for i := 0 to |ants|
      invariant Wf(t) && t.default == (1.0 - rho) * tau.default
      invariant forall k :: Lookup(t, k) == (1.0 - rho) * Lookup(tau, k) + Deposited(b, ants[..i], k)
      invariant forall j :: 0 <= j < i ==>
                  !(b.isFeasible(ants[j]) && b.objective(ants[j]) == Some(0.0) && b.components(ants[j]) != [])
    {
      var next := Reinforce(b, t, ants[i]);
      if next.Raised? {
        assert b.isFeasible(ants[i]) && b.objective(ants[i]) == Some(0.0) && b.components(ants[i]) != [];
        return next;
      }
      DepositStep(b, tau, ants, i, rho, t, next.value);
      t := next.value;
    }
    assert ants[..|ants|] == ants;
    r := Ok(t);
  }

  // ------------------------------------------------------------------ the ants of one iteration

  /** best is the incumbent after the offers, in order, of the feasible ants listed with
      their objective values in `offered`. */
  ghost predicate Recorded<S, C>(b: Builder<S, C>, best: Inc<Option<S>>, offered: seq<(Option<S>, real)>)
  {
    && best == Track(Inc(None, None), offered)
    && (best.sol.None? <==> best.obj.None?)
    && forall i :: 0 <= i < |offered| ==>
         offered[i].0.Some? && b.isFeasible(offered[i].0.value) &&
         b.objective(offered[i].0.value) == Some(offered[i].1)
  }

  /** The ant kept: local_search(ant) when there is a local search, else the ant itself. */
  function Searched<S>(ls: Option<S -> S>, a: S): S
  {
    if ls.Some? then ls.value(a) else a
  }

  /** What offering ant a records: a with its objective value, when a is feasible. */
  ghost function FeasibleOffer<S(!new), C(!new)>(b: Builder<S, C>, a: S): seq<(Option<S>, real)>
    requires Valid(b)
  {
    if b.isFeasible(a) then [(Some(a), b.objective(a).value)] else []
  }

  /** What a constructed ant offers, in order: itself, then the local search's result. */
  ghost function AntOffers<S(!new), C(!new)>(b: Builder<S, C>, ls: Option<S -> S>, a: S): seq<(Option<S>, real)>
    requires Valid(b)
  {
    FeasibleOffer(b, a) + (if ls.Some? then FeasibleOffer(b, ls.value(a)) else [])
  }

  /** `if ant.is_feasible() and (bestobj is None or ant.objective() < bestobj)`: a feasible ant
      is offered to the incumbent, an infeasible one is not; `improved` tells whether the
      incumbent changed. */
  method OfferAnt<S(!new), C(!new)>(b: Builder<S, C>, best: Inc<Option<S>>, ghost offered: seq<(Option<S>, real)>, ant: S)
      returns (best': Inc<Option<S>>, ghost offered': seq<(Option<S>, real)>, improved: bool)
    requires Valid(b) && Recorded(b, best, offered)
    ensures Recorded(b, best', offered')
    ensures offered' == offered + FeasibleOffer(b, ant)
    ensures improved <==> b.isFeasible(ant) && Beats(b.objective(ant).value, best.obj)
    ensures best' == if improved then Inc(Some(ant), b.objective(ant)) else best
  {
    best', offered', improved := best, offered, false;
    if b.isFeasible(ant) {
      var obj := b.objective(ant).value;
      TrackSnoc(Inc(None, None), offered, Some(ant), obj);
      offered' := offered + [(Some(ant), obj)];
      if best.obj.None? || obj < best.obj.value {
        best', improved := Inc(Some(ant), Some(obj)), true;
      }
    }
  }

  /** A new ant is offered to the incumbent, then (with a local search) its local-search
      result is; the ant returned is the one kept. `better` tells whether the incumbent
      changed, which it does only to a strictly better objective. */
  method OfferTwice<S(!new), C(!new)>(b: Builder<S, C>, best: Inc<Option<S>>, ghost offered: seq<(Option<S>, real)>,
                                      ant: S, ls: Option<S -> S>)
      returns (best': Inc<Option<S>>, ghost offered': seq<(Option<S>, real)>, ant': S, better: bool)
    requires Valid(b) && Recorded(b, best, offered)
    ensures Recorded(b, best', offered')
    ensures offered' == offered + AntOffers(b, ls, ant)
    ensures ant' == Searched(ls, ant)
    ensures !better ==> best' == best
    ensures better ==> best'.obj.Some? && Beats(best'.obj.value, best.obj)
  {
    best', offered', better := OfferAnt(b, best, offered, ant);
    ant' := ant;
    if ls.Some? {
      ant' := ls.value(ant);
      var again;
      best', offered', again := OfferAnt(b, best', offered', ant');
      better := better || again;
    }
  }

  /** The draw count after ants along these trails, the first starting from draw k: each
      ant draws once per component it adds. */
  function Next<C>(k: nat, trails: seq<seq<C>>): nat
    decreases |trails|
  {
    if trails == [] then k else Next(k, trails[..|trails| - 1]) + |trails[|trails| - 1]|
  }

  /** construct_ant ran from s along cs, with table tau and draws from k on, until no add
      move was left. */
  ghost predicate Complete<S, C>(b: Builder<S, C>, s: S, cs: seq<C>, tau: Table, w: Params, rng: Oracle, k: nat)
  {
    AntTrail(b, s, cs, tau, w, rng, k) && b.addMoves(AddAll(b, s, cs)) == []
  }

  /** construct_ant ran from s along cs and then raised ValueError: the pass over the add
      moves of the solution reached met an undefined increment (see Split). */
  ghost predicate Stuck<S, C>(b: Builder<S, C>, s: S, cs: seq<C>, tau: Table, w: Params, rng: Oracle, k: nat)
  {
    AntTrail(b, s, cs, tau, w, rng, k) && Split(b, AddAll(b, s, cs), b.addMoves(AddAll(b, s, cs)), tau, w).None?
  }

  /** Ant i of an iteration is construct_ant run from solutions[i] along trails[i], with the
      draws that follow those of the ants before it. */
  ghost predicate Colony<S, C>(b: Builder<S, C>, solutions: seq<S>, tau: Table, w: Params, rng: Oracle,
                               k: nat, trails: seq<seq<C>>)
    decreases |trails|
  {
    |trails| <= |solutions| &&
    (trails == [] ||
     (var p := trails[..|trails| - 1];
      Colony(b, solutions, tau, w, rng, k, p) && Complete(b, solutions[|p|], trails[|p|], tau, w, rng, Next(k, p))))
  }

  /** The ants of an iteration, after the local search. */
  function Ants<S, C>(b: Builder<S, C>, ls: Option<S -> S>, solutions: seq<S>, trails: seq<seq<C>>): (r: seq<S>)
    requires |trails| <= |solutions|
    ensures |r| == |trails|
    ensures forall i :: 0 <= i < |trails| ==> r[i] == Searched(ls, AddAll(b, solutions[i], trails[i]))
  {
    seq(|trails|, i requires 0 <= i < |trails| => Searched(ls, AddAll(b, solutions[i], trails[i])))
  }

  /** The offers made while an iteration builds its ants, ant by ant. */
  ghost function ColonyOffers<S(!new), C(!new)>(b: Builder<S, C>, ls: Option<S -> S>, solutions: seq<S>,
                                               trails: seq<seq<C>>): seq<(Option<S>, real)>
    requires Valid(b) && |trails| <= |solutions|
    decreases |trails|
  {
    if trails == [] then []
    else
      var p := trails[..|trails| - 1];
      ColonyOffers(b, ls, solutions, p) + AntOffers(b, ls, AddAll(b, solutions[|p|], trails[|p|]))
  }

  /** The number of ants an iteration builds when the clock reads `clock` as it starts
      building: one per initial solution while clock < budget. Either every initial solution
      gets its ant or the budget is spent. */
  function Quota(n: nat, budget: nat, clock: nat): (r: nat)
    ensures r <= n && (r == n || clock + r >= budget)
    ensures clock <= budget ==> clock + r <= budget
  {
    if budget <= clock then 0 else if budget - clock < n then budget - clock else n
  }

  /** One more complete ant. */
  lemma ColonySnoc<S, C>(b: Builder<S, C>, solutions: seq<S>, tau: Table, w: Params, rng: Oracle, k: nat,
                         trails: seq<seq<C>>, s: S, cs: seq<C>, k': nat)
    requires Colony(b, solutions, tau, w, rng, k, trails) && |trails| < |solutions|
    requires s == solutions[|trails|] && k' == Next(k, trails) && Complete(b, s, cs, tau, w, rng, k')
    ensures Colony(b, solutions, tau, w, rng, k, trails + [cs])
    ensures Next(k, trails + [cs]) == k' + |cs|
  {
    assert (trails + [cs])[..|trails|] == trails;
  }

  /** The ant after the completed ones of a colony, built from the next initial solution
      with the draws from k on, raised along cs. */
  ghost predicate StuckNext<S, C>(b: Builder<S, C>, solutions: seq<S>, trails: seq<seq<C>>, cs: seq<C>, tau: Table,
                                  w: Params, rng: Oracle, k: nat)
  {
    |trails| < |solutions| && Stuck(b, solutions[|trails|], cs, tau, w, rng, k)
  }

  /** One more ant's offers. */
  lemma ColonyOffersSnoc<S(!new), C(!new)>(b: Builder<S, C>, ls: Option<S -> S>, solutions: seq<S>,
                                           trails: seq<seq<C>>, s: S, cs: seq<C>)
    requires Valid(b) && |trails| < |solutions| && s == solutions[|trails|]
    ensures ColonyOffers(b, ls, solutions, trails + [cs]) ==
            ColonyOffers(b, ls, solutions, trails) + AntOffers(b, ls, AddAll(b, s, cs))
  {
    assert (trails + [cs])[..|trails|] == trails;
  }

  /** One more kept ant. */
  lemma AntsSnoc<S, C>(b: Builder<S, C>, ls: Option<S -> S>, solutions: seq<S>, trails: seq<seq<C>>, s: S, cs: seq<C>)
    requires |trails| < |solutions| && s == solutions[|trails|]
    ensures Ants(b, ls, solutions, trails + [cs]) == Ants(b, ls, solutions, trails) + [Searched(ls, AddAll(b, s, cs))]
  {
    var x, y := Ants(b, ls, solutions, trails + [cs]), Ants(b, ls, solutions, trails) + [Searched(ls, AddAll(b, s, cs))];
    forall i | 0 <= i < |x|
      ensures x[i] == y[i]
    {
      assert (trails + [cs])[i] == if i < |trails| then trails[i] else cs;
    }
  }

  lemma Regroup<T>(x: seq<T>, y: seq<T>, z: seq<T>)
    ensures x + (y + z) == (x + y) + z
  {
  }

  /** What BuildAnts holds after the completed ants along `trails`: their draws, their
      trails, the ants kept and the offers made. */
  ghost predicate Gathered<S(!new), C(!new)>(b: Builder<S, C>, ls: Option<S -> S>, solutions: seq<S>, tau: Table,
                                             w: Params, rng: Oracle, k: nat, trails: seq<seq<C>>, k': nat,
                                             ants: seq<S>, offered: seq<(Option<S>, real)>,
                                             offered': seq<(Option<S>, real)>)
  {
    && Valid(b) && |trails| <= |solutions| && k' == Next(k, trails)
    && Colony(b, solutions, tau, w, rng, k, trails) && ants == Ants(b, ls, solutions, trails)
    && offered' == offered + ColonyOffers(b, ls, solutions, trails)
  }

  /** One more completed ant, kept after the local search and offered. */
  lemma GatheredSnoc<S(!new), C(!new)>(b: Builder<S, C>, ls: Option<S -> S>, solutions: seq<S>, tau: Table,
                                       w: Params, rng: Oracle, k: nat, trails: seq<seq<C>>, k': nat,
                                       ants: seq<S>, offered: seq<(Option<S>, real)>,
                                       offered': seq<(Option<S>, real)>,
                                       s: S, cs: seq<C>, k2: nat, ant: S, offered2: seq<(Option<S>, real)>)
    requires Gathered(b, ls, solutions, tau, w, rng, k, trails, k', ants, offered, offered')
    requires |trails| < |solutions| && s == solutions[|trails|]
    requires Complete(b, s, cs, tau, w, rng, k') && k2 == k' + |cs|
    requires ant == Searched(ls, AddAll(b, s, cs)) && offered2 == offered' + AntOffers(b, ls, AddAll(b, s, cs))
    ensures Gathered(b, ls, solutions, tau, w, rng, k, trails + [cs], k2, ants + [ant], offered, offered2)
  {
    ColonySnoc(b, solutions, tau, w, rng, k, trails, s, cs, k');
    ColonyOffersSnoc(b, ls, solutions, trails, s, cs);
    AntsSnoc(b, ls, solutions, trails, s, cs);
    Regroup(offered, ColonyOffers(b, ls, solutions, trails), AntOffers(b, ls, AddAll(b, s, cs)));
  }

  /** Lines 111-128 of src/api/ant_system.py (the same loop builds the ants of
      src/api/mmas.py): one ant per initial solution while the clock allows, each offered to
      the incumbent before and, with a local search, after it. `trails` holds what each
      completed ant added; when construct_ant raises, `stuck` is what the ant that raised
      had added. `improved` tells whether the incumbent changed. */
  method BuildAnts<S(!new), C(!new)>(b: Builder<S, C>, solutions: seq<S>, budget: nat, clock: nat, tau: Table,
                                     w: Params, rng: Oracle, k: nat, ls: Option<S -> S>,
                                     best: Inc<Option<S>>, ghost offered: seq<(Option<S>, real)>)
      returns (r: Run<seq<S>>, clock': nat, k': nat, best': Inc<Option<S>>,
               ghost offered': seq<(Option<S>, real)>, improved: bool,
               ghost trails: seq<seq<C>>, ghost stuck: seq<C>)
    requires Valid(b) && Recorded(b, best, offered) && clock <= budget
    ensures Recorded(b, best', offered')
    ensures Colony(b, solutions, tau, w, rng, k, trails)
    ensures offered' == offered + ColonyOffers(b, ls, solutions, trails)
    ensures !improved ==> best' == best
    ensures improved ==> best'.obj.Some? && Beats(best'.obj.value, best.obj)
    ensures r.Raised? ==>
              && r.error == ValueError && |trails| < Quota(|solutions|, budget, clock)
    ensures k' == Next(k, trails)
    ensures r.Raised? ==> StuckNext(b, solutions, trails, stuck, tau, w, rng, k')
    ensures r.Ok? ==>
              && |trails| == Quota(|solutions|, budget, clock) && clock' == clock + |trails|
              && r.value == Ants(b, ls, solutions, trails)
  {
    clock', k', best', offered', improved := clock, k, best, offered, false;
    trails, stuck := [], [];
    var ants: seq<S> := [];
    r := Ok([]);
    var i := 0;
    while i < |solutions| && clock' < budget
      invariant r == Ok([]) && i <= |solutions| && |trails| == i && clock' == clock + i <= budget
      invariant Gathered(b, ls, solutions, tau, w, rng, k, trails, k', ants, offered, offered')
      invariant Recorded(b, best', offered')
      invariant !improved ==> best' == best
      invariant improved ==> best'.obj.Some? && Beats(best'.obj.value, best.obj)
    {
      clock' := clock' + 1;
      var built, k2;
      ghost var added;
      var s := solutions[i];
      built, k2, added := ConstructAnt(b, s, tau, w, rng, k');
      if built.Raised? {
        stuck := added;
        r := Raised(built.error);
        break;
      }
      var ant, better;
      ghost var before := offered';
      best', offered', ant, better := OfferTwice(b, best', offered', built.value, ls);
      GatheredSnoc(b, ls, solutions, tau, w, rng, k, trails, k', ants, offered, before, s, added, k2, ant, offered');
      improved := improved || better;
      ants := ants + [ant];
      trails := trails + [added];
      k' := k2;
      i := i + 1;
    }
    if r.Ok? {
      r := Ok(ants);
    }
  }

  // ------------------------------------------------------------------ ant_system

  /** One iteration of a run: the table its ants were built with, the draw number it started
      at, and the trails of its completed ants. */
  datatype Round<C> = Round(tau: Table, k: nat, trails: seq<seq<C>>)

  /** The clock readings the iterations take: one to start each, one per ant. */
  function Clock<C>(rounds: seq<Round<C>>): nat
    decreases |rounds|
  {
    if rounds == [] then 0 else Clock(rounds[..|rounds| - 1]) + 1 + |rounds[|rounds| - 1].trails|
  }

  /** No iteration has more ants than there are initial solutions. */
  ghost predicate Fits<S, C>(solutions: seq<S>, rounds: seq<Round<C>>)
  {
    forall j :: 0 <= j < |rounds| ==> |rounds[j].trails| <= |solutions|
  }

  /** Everything offered to the incumbent over the iterations, in order. */
  ghost function Offers<S(!new), C(!new)>(b: Builder<S, C>, ls: Option<S -> S>, solutions: seq<S>,
                                         rounds: seq<Round<C>>): seq<(Option<S>, real)>
    requires Valid(b) && Fits(solutions, rounds)
    decreases |rounds|
  {
    if rounds == [] then []
    else
      var p := rounds[..|rounds| - 1];
      Offers(b, ls, solutions, p) + ColonyOffers(b, ls, solutions, rounds[|p|].trails)
  }

  /** Some feasible ant has objective 0 and a component: the deposit divides by zero. */
  ghost predicate ZeroObjective<S, C>(b: Builder<S, C>, ants: seq<S>)
  {
    exists i :: 0 <= i < |ants| && b.isFeasible(ants[i]) && b.objective(ants[i]) == Some(0.0) && b.components(ants[i]) != []
  }

  /** tau' is tau after UpdateTrails with these ants: every entry evaporated by (1 - rho),
      then reinforced by the feasible ants. */
  ghost predicate Decayed<S, C>(b: Builder<S, C>, ants: seq<S>, rho: real, tau: Table, tau': Table)
  {
    && Wf(tau') && tau'.default == (1.0 - rho) * tau.default
    && forall x :: Lookup(tau', x) == (1.0 - rho) * Lookup(tau, x) + Deposited(b, ants, x)
  }

  /** The table and the draw count an iteration starts from after the iterations p: the
      fresh table and no draws, or the update after the last of p, whose deposit did not
      raise, and the draws from where that one stopped. */
  ghost predicate Carried<S, C>(b: Builder<S, C>, ls: Option<S -> S>, solutions: seq<S>, tau0: real, rho: real,
                                p: seq<Round<C>>, tau: Table, k: nat)
  {
    if p == [] then tau == Fresh(tau0) && k == 0
    else
      var q := p[|p| - 1];
      && |q.trails| <= |solutions|
      && !ZeroObjective(b, Ants(b, ls, solutions, q.trails))
      && Decayed(b, Ants(b, ls, solutions, q.trails), rho, q.tau, tau)
      && k == Next(q.k, q.trails)
  }

  /** The update after one more iteration. */
  lemma CarriedSnoc<S, C>(b: Builder<S, C>, ls: Option<S -> S>, solutions: seq<S>, tau0: real, rho: real,
                          p: seq<Round<C>>, rd: Round<C>, ants: seq<S>, tau': Table, k': nat)
    requires |rd.trails| <= |solutions| && ants == Ants(b, ls, solutions, rd.trails)
    requires !ZeroObjective(b, ants) && Decayed(b, ants, rho, rd.tau, tau') && k' == Next(rd.k, rd.trails)
    ensures Carried(b, ls, solutions, tau0, rho, p + [rd], tau', k')
  {
  }

  /** Iteration rd follows the iterations p: the clock still allowed it, it starts from what
      they carried, and its ants are construct_ant runs. */
  ghost predicate Opens<S, C>(b: Builder<S, C>, solutions: seq<S>, budget: nat, tau0: real, w: Params, rho: real,
                              rng: Oracle, ls: Option<S -> S>, p: seq<Round<C>>, rd: Round<C>)
  {
    && Clock(p) < budget
    && Colony(b, solutions, rd.tau, w, rng, rd.k, rd.trails)
    && Carried(b, ls, solutions, tau0, rho, p, rd.tau, rd.k)
  }

  /** An iteration whose ants are construct_ant runs from what the iterations p carried,
      started while the clock allowed, opens after them. */
  lemma OpensAt<S, C>(b: Builder<S, C>, solutions: seq<S>, budget: nat, tau0: real, w: Params, rho: real,
                      rng: Oracle, ls: Option<S -> S>, p: seq<Round<C>>, rd: Round<C>, clock: nat, tau: Table, k: nat)
    requires clock == Clock(p) < budget && Carried(b, ls, solutions, tau0, rho, p, tau, k)
    requires rd.tau == tau && rd.k == k && Colony(b, solutions, tau, w, rng, k, rd.trails)
    ensures Opens(b, solutions, budget, tau0, w, rho, rng, ls, p, rd)
  {
  }

  /** A run raised ValueError in iteration rd after the iterations p: rd opened after them
      and the ant after its completed ones, built from the next initial solution, raised
      along stuck. */
  ghost predicate Halted<S, C>(b: Builder<S, C>, solutions: seq<S>, budget: nat, tau0: real, w: Params, rho: real,
                               rng: Oracle, ls: Option<S -> S>, p: seq<Round<C>>, rd: Round<C>, stuck: seq<C>)
  {
    && Rounds(b, solutions, budget, tau0, w, rho, rng, ls, p)
    && Opens(b, solutions, budget, tau0, w, rho, rng, ls, p, rd)
    && |rd.trails| < Quota(|solutions|, budget, Clock(p) + 1)
    && StuckNext(b, solutions, rd.trails, stuck, rd.tau, w, rng, Next(rd.k, rd.trails))
  }

  /** Iteration rd opened after the iterations p and built its full quota of ants. */
  ghost predicate Full<S, C>(b: Builder<S, C>, solutions: seq<S>, budget: nat, tau0: real, w: Params, rho: real,
                             rng: Oracle, ls: Option<S -> S>, p: seq<Round<C>>, rd: Round<C>)
  {
    Opens(b, solutions, budget, tau0, w, rho, rng, ls, p, rd) && |rd.trails| == Quota(|solutions|, budget, Clock(p) + 1)
  }

  /** The iterations of an ant_system run, each opened after the ones before it and building
      its full quota of ants. */
  ghost predicate Rounds<S, C>(b: Builder<S, C>, solutions: seq<S>, budget: nat, tau0: real, w: Params, rho: real,
                               rng: Oracle, ls: Option<S -> S>, rounds: seq<Round<C>>)
    decreases |rounds|
  {
    rounds == [] ||
    (var p := rounds[..|rounds| - 1];
     Rounds(b, solutions, budget, tau0, w, rho, rng, ls, p) && Full(b, solutions, budget, tau0, w, rho, rng, ls, p, rounds[|p|]))
  }

  /** One more iteration. */
  lemma RoundsSnoc<S(!new), C(!new)>(b: Builder<S, C>, solutions: seq<S>, ls: Option<S -> S>, rounds: seq<Round<C>>,
                                     rd: Round<C>)
    requires Valid(b) && Fits(solutions, rounds) && |rd.trails| <= |solutions|
    ensures Fits(solutions, rounds + [rd])
    ensures Clock(rounds + [rd]) == Clock(rounds) + 1 + |rd.trails|
    ensures Offers(b, ls, solutions, rounds + [rd]) == Offers(b, ls, solutions, rounds) + ColonyOffers(b, ls, solutions, rd.trails)
    ensures LastAnts(b, ls, solutions, rounds + [rd]) == Ants(b, ls, solutions, rd.trails)
  {
    assert (rounds + [rd])[..|rounds|] == rounds;
  }

  /** An iteration that opened after the iterations p and built its full quota of ants. */
  lemma RoundsGrow<S, C>(b: Builder<S, C>, solutions: seq<S>, budget: nat, tau0: real, w: Params,
                         rho: real, rng: Oracle, ls: Option<S -> S>, p: seq<Round<C>>, rd: Round<C>)
    requires Rounds(b, solutions, budget, tau0, w, rho, rng, ls, p)
    requires Full(b, solutions, budget, tau0, w, rho, rng, ls, p, rd)
    ensures Rounds(b, solutions, budget, tau0, w, rho, rng, ls, p + [rd])
  {
    assert (p + [rd])[..|p|] == p && (p + [rd])[|p|] == rd;
  }

  /** The ants of the last iteration. */
  function LastAnts<S, C>(b: Builder<S, C>, ls: Option<S -> S>, solutions: seq<S>, rounds: seq<Round<C>>): (r: seq<S>)
    requires Fits(solutions, rounds)
    ensures rounds != [] ==> |r| == |rounds[|rounds| - 1].trails|
  {
    if rounds == [] then [] else Ants(b, ls, solutions, rounds[|rounds| - 1].trails)
  }

  /** Lines 108-128 of src/api/ant_system.py (lines 112-138 of src/api/mmas.py build their
      ants the same way): the ants of the iteration rd after the iterations `rounds`, which
      left the table tau and the draw count k. It reads the clock and builds the ants, which
      are construct_ant runs with that table from those draws on. `improved` tells whether
      the incumbent changed. */
  method Gather<S(!new), C(!new)>(b: Builder<S, C>, solutions: seq<S>, budget: nat, clock: nat, w: Params,
                                  rng: Oracle, ls: Option<S -> S>, tau: Table, k: nat, best: Inc<Option<S>>,
                                  ghost offered: seq<(Option<S>, real)>, ghost rounds: seq<Round<C>>)
      returns (r: Run<seq<S>>, clock': nat, k': nat, best': Inc<Option<S>>, ghost offered': seq<(Option<S>, real)>,
               improved: bool, ghost rd: Round<C>, ghost stuck: seq<C>)
    requires Valid(b) && Recorded(b, best, offered) && clock == Clock(rounds) < budget
    requires Fits(solutions, rounds) && offered == Offers(b, ls, solutions, rounds)
    ensures Recorded(b, best', offered')
    ensures rd.tau == tau && rd.k == k && Colony(b, solutions, tau, w, rng, k, rd.trails)
    ensures Fits(solutions, rounds + [rd]) && offered' == Offers(b, ls, solutions, rounds + [rd])
    ensures solutions == [] ==> offered' == offered
    ensures !improved ==> best' == best
    ensures improved ==> best'.obj.Some? && Beats(best'.obj.value, best.obj)
    ensures r.Raised? ==> r.error == ValueError
    ensures r.Raised? ==> |rd.trails| < Quota(|solutions|, budget, clock + 1)
    ensures r.Raised? ==> StuckNext(b, solutions, rd.trails, stuck, rd.tau, w, rng, k')
    ensures r.Ok? ==> |rd.trails| == Quota(|solutions|, budget, clock + 1)
    ensures r.Ok? ==> clock' == Clock(rounds + [rd]) <= budget
    ensures r.Ok? ==> r.value == LastAnts(b, ls, solutions, rounds + [rd])
    ensures k' == Next(rd.k, rd.trails)
  {
    ghost var trails;
    var start := clock + 1;
    r, clock', k', best', offered', improved, trails, stuck :=
      BuildAnts(b, solutions, budget, start, tau, w, rng, k, ls, best, offered);
    rd := Round(tau, k, trails);
    RoundsSnoc(b, solutions, ls, rounds, rd);
  }

  /** Gather for ant_system: the iteration rd opens after the iterations `rounds`, which
      left the table tau and the draw count k. */
  method Begin<S(!new), C(!new)>(b: Builder<S, C>, solutions: seq<S>, budget: nat, clock: nat, tau0: real,
                                 w: Params, rho: real, rng: Oracle, ls: Option<S -> S>, tau: Table, k: nat,
                                 best: Inc<Option<S>>, ghost offered: seq<(Option<S>, real)>,
                                 ghost rounds: seq<Round<C>>)
      returns (r: Run<seq<S>>, clock': nat, k': nat, best': Inc<Option<S>>, ghost offered': seq<(Option<S>, real)>,
               ghost rd: Round<C>, ghost stuck: seq<C>)
    requires Valid(b) && Recorded(b, best, offered) && clock == Clock(rounds) < budget
    requires Fits(solutions, rounds) && offered == Offers(b, ls, solutions, rounds)
    requires Carried(b, ls, solutions, tau0, rho, rounds, tau, k)
    ensures Recorded(b, best', offered') && rd.tau == tau
    ensures Fits(solutions, rounds + [rd]) && offered' == Offers(b, ls, solutions, rounds + [rd])
    ensures solutions == [] ==> offered' == offered
    ensures Opens(b, solutions, budget, tau0, w, rho, rng, ls, rounds, rd)
    ensures r.Raised? ==> r.error == ValueError
    ensures r.Raised? ==> |rd.trails| < Quota(|solutions|, budget, clock + 1)
    ensures r.Raised? ==> StuckNext(b, solutions, rd.trails, stuck, rd.tau, w, rng, k')
    ensures r.Ok? ==> |rd.trails| == Quota(|solutions|, budget, clock + 1)
    ensures r.Ok? ==> clock' == Clock(rounds + [rd]) <= budget
    ensures r.Ok? ==> r.value == LastAnts(b, ls, solutions, rounds + [rd])
    ensures k' == Next(rd.k, rd.trails)
  {
    var improved;
    r, clock', k', best', offered', improved, rd, stuck := Gather(b, solutions, budget, clock, w, rng, ls, tau, k, best, offered, rounds);
    OpensAt(b, solutions, budget, tau0, w, rho, rng, ls, rounds, rd, clock, tau, k);
  }

  /** Lines 108-165 of src/api/ant_system.py: one iteration after the iterations `rounds`,
      which left the table tau and the draw count k. It builds its ants (the iteration rd)
      and, unless an ant raised, updates the table. */
  method Iteration<S(!new), C(!new)>(b: Builder<S, C>, solutions: seq<S>, budget: nat, clock: nat, tau0: real,
                                     w: Params, rho: real, rng: Oracle, ls: Option<S -> S>, tau: Table, k: nat,
                                     best: Inc<Option<S>>, ghost offered: seq<(Option<S>, real)>,
                                     ghost rounds: seq<Round<C>>)
      returns (r: Run<Table>, clock': nat, k': nat, best': Inc<Option<S>>, ghost offered': seq<(Option<S>, real)>,
               ghost rd: Round<C>, ghost stuck: seq<C>)
    requires Valid(b) && Recorded(b, best, offered) && clock == Clock(rounds) < budget
    requires Fits(solutions, rounds) && offered == Offers(b, ls, solutions, rounds)
    requires Rounds(b, solutions, budget, tau0, w, rho, rng, ls, rounds)
    requires Carried(b, ls, solutions, tau0, rho, rounds, tau, k)
    ensures Recorded(b, best', offered')
    ensures r.Ok? ==> clock' == Clock(rounds + [rd]) <= budget
    ensures Fits(solutions, rounds + [rd]) && offered' == Offers(b, ls, solutions, rounds + [rd])
    ensures solutions == [] ==> offered' == offered && r.Ok?
    ensures r.Raised? ==> r.error == ValueError || r.error == ZeroDivisionError
    ensures r.Ok? ==> Rounds(b, solutions, budget, tau0, w, rho, rng, ls, rounds + [rd])
    ensures r.Ok? ==> Carried(b, ls, solutions, tau0, rho, rounds + [rd], r.value, k')
    ensures r == Raised(ZeroDivisionError) ==>
              && Rounds(b, solutions, budget, tau0, w, rho, rng, ls, rounds + [rd])
              && ZeroObjective(b, LastAnts(b, ls, solutions, rounds + [rd]))
    ensures r == Raised(ValueError) ==> Halted(b, solutions, budget, tau0, w, rho, rng, ls, rounds, rd, stuck)
  {
    var ants;
    ants, clock', k', best', offered', rd, stuck :=
      Begin(b, solutions, budget, clock, tau0, w, rho, rng, ls, tau, k, best, offered, rounds);
    if ants.Raised? {
      return Raised(ants.error), clock', k', best', offered', rd, stuck;
    }
    RoundsGrow(b, solutions, budget, tau0, w, rho, rng, ls, rounds, rd);
    r := UpdateTrails(b, tau, ants.value, rho);
    if r.Ok? {
      CarriedSnoc(b, ls, solutions, tau0, rho, rounds, rd, ants.value, r.value, k');
    }
  }

  /** ant_system(solutions, budget, tau0, alpha, beta, rho, local_search). The budget is a
      number of clock readings. `rounds` are the iterations: each builds its quota of ants by
      construct_ant with the table the previous update left, and `offered` is everything they
      offered to the incumbent, in order. A run that returns has spent the budget and its
      last deposit did not raise; a ZeroDivisionError comes from the deposit of the last
      iteration; a ValueError from the ant after the last iteration's completed ones, whose
      trail is `stuck`. */
  method AntSystemRun<S(!new), C(!new)>(b: Builder<S, C>, solutions: seq<S>, budget: nat, tau0: real,
                                        w: Params, rho: real, rng: Oracle, ls: Option<S -> S>)
      returns (r: Run<Option<S>>, ghost offered: seq<(Option<S>, real)>, ghost rounds: seq<Round<C>>,
               ghost stuck: seq<C>)
    requires Valid(b)
    ensures r.Raised? ==> r.error == ValueError || r.error == ZeroDivisionError
    ensures budget == 0 || solutions == [] ==> r == Ok(None)
    ensures Fits(solutions, rounds) && offered == Offers(b, ls, solutions, rounds)
    ensures forall i :: 0 <= i < |offered| ==>
              offered[i].0.Some? && b.isFeasible(offered[i].0.value) &&
              b.objective(offered[i].0.value) == Some(offered[i].1)
    ensures r.Ok? ==> r.value == Track(Inc(None, None), offered).sol
    ensures r.Ok? ==> (r.value.None? <==> offered == [])
    ensures r.Ok? ==> Rounds(b, solutions, budget, tau0, w, rho, rng, ls, rounds) && Clock(rounds) == budget
    ensures r.Ok? ==> !ZeroObjective(b, LastAnts(b, ls, solutions, rounds))
    ensures r == Raised(ZeroDivisionError) ==>
              && Rounds(b, solutions, budget, tau0, w, rho, rng, ls, rounds) && rounds != []
              && ZeroObjective(b, LastAnts(b, ls, solutions, rounds))
    ensures r == Raised(ValueError) ==>
              rounds != [] && Halted(b, solutions, budget, tau0, w, rho, rng, ls, rounds[..|rounds| - 1], rounds[|rounds| - 1], stuck)
  {
    var tau := Fresh(tau0);
    var best: Inc<Option<S>> := Inc(None, None);
    offered, rounds, stuck := [], [], [];
    var clock := 0;
    var k := 0;
    while clock < budget
      invariant clock == Clock(rounds) <= budget
      invariant Fits(solutions, rounds) && offered == Offers(b, ls, solutions, rounds)
      invariant Rounds(b, solutions, budget, tau0, w, rho, rng, ls, rounds)
      invariant Carried(b, ls, solutions, tau0, rho, rounds, tau, k)
      invariant Recorded(b, best, offered)
      invariant solutions == [] ==> offered == []
      decreases budget - clock
    {
      var step;
      ghost var rd;
      ghost var p := rounds;
      step, clock, k, best, offered, rd, stuck :=
        Iteration(b, solutions, budget, clock, tau0, w, rho, rng, ls, tau, k, best, offered, rounds);
      rounds := rounds + [rd];
      if step.Raised? {
        assert rounds[..|rounds| - 1] == p && rounds[|rounds| - 1] == rd;
        return Raised(step.error), offered, rounds, stuck;
      }
      tau := step.value;
    }
    TrackLeast(Inc(None, None), offered);
    r := Ok(best.sol);
  }
}
