/** The abstract Solution protocol the algorithms of src/api are written against, given as
    records of total functions (one record for construction, one for local search), the
    random-number oracle, and the budget clock. */
module Contract {
  import opened Wrappers

  /** The construction side of a Solution: objective, lower_bound, is_feasible, add_moves,
      lower_bound_incr_add, add, heuristic_add_move, components and Component.cid.
      `size` is a measure of how far a solution is from being complete. */
  datatype Builder<!S, !C> = Builder(
    objective: S -> Option<real>,
    lowerBound: S -> Option<real>,
    isFeasible: S -> bool,
    addMoves: S -> seq<C>,
    lbIncr: (S, C) -> Option<real>,
    add: (S, C) -> S,
    heuristicAddMove: S -> Option<C>,
    components: S -> seq<C>,
    cid: C -> int,
    size: S -> nat)

  /** What the algorithms rely on: a feasible solution has an objective value, and adding a
      component that add_moves or heuristic_add_move offered brings the solution closer to
      completion, so every construction ends. */
  ghost predicate Valid<S(!new), C(!new)>(b: Builder<S, C>)
  {
    && (forall s :: b.isFeasible(s) ==> b.objective(s).Some?)
    && (forall s, c :: c in b.addMoves(s) ==> b.size(b.add(s, c)) < b.size(s))
    && (forall s :: b.heuristicAddMove(s).Some? ==>
          b.size(b.add(s, b.heuristicAddMove(s).value)) < b.size(s))
  }

  /** The solution reached from s by adding the components cs in order. */
  function AddAll<S, C>(b: Builder<S, C>, s: S, cs: seq<C>): S
    decreases |cs|
  {
    if cs == [] then s else b.add(AddAll(b, s, cs[..|cs| - 1]), cs[|cs| - 1])
  }

  /** Each component of cs satisfies `ok` in the solution built before it was added, given
      its position in cs. */
  ghost predicate Obeys<S, C>(b: Builder<S, C>, s: S, cs: seq<C>, ok: (S, C, nat) -> bool)
    decreases |cs|
  {
    cs == [] ||
    (Obeys(b, s, cs[..|cs| - 1], ok) && ok(AddAll(b, s, cs[..|cs| - 1]), cs[|cs| - 1], |cs| - 1))
  }

  /** Extending a trace by a component that satisfies `ok` keeps it a trace. */
  lemma ObeysSnoc<S, C>(b: Builder<S, C>, s: S, cs: seq<C>, ok: (S, C, nat) -> bool, c: C)
    requires Obeys(b, s, cs, ok) && ok(AddAll(b, s, cs), c, |cs|)
    ensures Obeys(b, s, cs + [c], ok)
    ensures AddAll(b, s, cs + [c]) == b.add(AddAll(b, s, cs), c)
  {
    assert (cs + [c])[..|cs|] == cs;
  }

  /** A trace, read position by position. */
  lemma {:induction false} ObeysAll<S, C>(b: Builder<S, C>, s: S, cs: seq<C>, ok: (S, C, nat) -> bool)
    requires Obeys(b, s, cs, ok)
    ensures forall i :: 0 <= i < |cs| ==> ok(AddAll(b, s, cs[..i]), cs[i], i)
    decreases |cs|
  {
    if cs != [] {
      var p := cs[..|cs| - 1];
      ObeysAll(b, s, p, ok);
      forall i | 0 <= i < |cs| ensures ok(AddAll(b, s, cs[..i]), cs[i], i) {
        if i < |p| {
          assert cs[..i] == p[..i];
        }
      }
    }
  }

  /** The local-search side of a Solution: objective, local_moves, random_local_moves_wor
      (given the oracle draw that orders it), objective_incr_local, step and perturb. */
  datatype Mover<!S, !M> = Mover(
    objective: S -> real,
    localMoves: S -> seq<M>,
    randomMovesWor: (S, nat) -> seq<M>,
    objIncr: (S, M) -> real,
    step: (S, M) -> S,
    perturb: (S, nat, nat) -> S)

  /** objective_incr_local predicts exactly the change step makes to the objective. */
  ghost predicate Consistent<S(!new), M(!new)>(mv: Mover<S, M>)
  {
    forall s, m :: mv.objective(mv.step(s, m)) == mv.objective(s) + mv.objIncr(s, m)
  }

  /** The solution reached from s by applying the local moves ms in order. */
  function StepAll<S, M>(mv: Mover<S, M>, s: S, ms: seq<M>): S
    decreases |ms|
  {
    if ms == [] then s else mv.step(StepAll(mv, s, ms[..|ms| - 1]), ms[|ms| - 1])
  }

  /** The global `random` module as an oracle: draw number k of randbelow(n) (behind
      randrange and choice) yields below(k, n), draw number k of random() yields unit(k). */
  datatype Oracle = Oracle(below: (nat, nat) -> nat, unit: nat -> real)

  /** randbelow(n) made with draw number k, for n > 0. The standard library's answer is always
      below n; an oracle answer out of range is read as n - 1. */
  function Below(rng: Oracle, k: nat, n: nat): (r: nat)
    requires n > 0
    ensures r < n
    ensures rng.below(k, n) < n ==> r == rng.below(k, n)
  {
    if rng.below(k, n) < n then rng.below(k, n) else n - 1
  }

  /** random.choice(xs) made with draw number k: xs[randbelow(len(xs))]. */
  function Choice<T>(rng: Oracle, k: nat, xs: seq<T>): (r: T)
    requires |xs| > 0
    ensures r in xs
  {
    xs[Below(rng, k, |xs|)]
  }

  /** Every element of a non-empty list is chosen by some draw. */
  lemma ChoiceReaches<T>(rng: Oracle, k: nat, xs: seq<T>, i: nat)
    requires i < |xs| && rng.below(k, |xs|) == i
    ensures Choice(rng, k, xs) == xs[i]
  {
  }
}
