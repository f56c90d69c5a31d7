/** Strict-improvement incumbent tracking, the `if bestobj is None or obj < bestobj` rule
    shared by beam search, GRASP, Ant System, MMAS and simulated annealing. */
module Incumbent {
  import opened Wrappers

  /** The pair (best, bestobj); bestobj is None until a solution has been recorded. */
  datatype Inc<S> = Inc(sol: S, obj: Option<real>)

  /** `bestobj is None or obj < bestobj`. */
  predicate Beats(obj: real, best: Option<real>)
  {
    best.None? || obj < best.value
  }

  /** Offer a candidate with objective value obj to the incumbent. */
  function Offer<S>(b: Inc<S>, s: S, obj: real): Inc<S>
  {
    if Beats(obj, b.obj) then Inc(s, Some(obj)) else b
  }

  /** The incumbent after offering every candidate of `seen`, in order. */
  function Track<S>(b: Inc<S>, seen: seq<(S, real)>): Inc<S>
    decreases |seen|
  {
    if seen == [] then b
    else Offer(Track(b, seen[..|seen| - 1]), seen[|seen| - 1].0, seen[|seen| - 1].1)
  }

  /** Offering one more candidate is one more step of Track. */
  lemma TrackSnoc<S>(b: Inc<S>, seen: seq<(S, real)>, s: S, obj: real)
    ensures Track(b, seen + [(s, obj)]) == Offer(Track(b, seen), s, obj)
  {
    assert (seen + [(s, obj)])[..|seen|] == seen;
  }

  /** The tracked objective exists iff there was one to start with or a candidate was seen,
      never exceeds the starting one, and is at most the objective of every candidate. */
  lemma {:induction false} TrackLeast<S>(b: Inc<S>, seen: seq<(S, real)>)
    ensures Track(b, seen).obj.Some? <==> b.obj.Some? || seen != []
    ensures b.obj.Some? ==> Track(b, seen).obj.value <= b.obj.value
    ensures forall i :: 0 <= i < |seen| ==> Track(b, seen).obj.value <= seen[i].1
    decreases |seen|
  {
    if seen != [] {
      TrackLeast(b, seen[..|seen| - 1]);
    }
  }

  /** The tracked incumbent is the starting one, or the FIRST candidate of least objective,
      which strictly beat the starting one. */
  lemma {:induction false} TrackFirst<S>(b: Inc<S>, seen: seq<(S, real)>)
    ensures Track(b, seen) == b || exists i :: 0 <= i < |seen| && FirstStrictMin(b, seen, i)
    decreases |seen|
  {
    if seen != [] {
      var p := seen[..|seen| - 1];
      var last := seen[|seen| - 1];
      TrackFirst(b, p);
      TrackLeast(b, p);
      if Beats(last.1, Track(b, p).obj) {
        assert FirstStrictMin(b, seen, |seen| - 1);
      } else if Track(b, p) != b {
        var i :| 0 <= i < |p| && FirstStrictMin(b, p, i);
        assert FirstStrictMin(b, seen, i);
      }
    }
  }

  /** Candidate i is recorded: it beats the start and every earlier candidate strictly, and no
      later candidate beats it. */
  ghost predicate FirstStrictMin<S>(b: Inc<S>, seen: seq<(S, real)>, i: int)
    requires 0 <= i < |seen|
  {
    && Track(b, seen) == Inc(seen[i].0, Some(seen[i].1))
    && Beats(seen[i].1, b.obj)
    && (forall j :: 0 <= j < i ==> seen[i].1 < seen[j].1)
    && (forall j :: i < j < |seen| ==> seen[i].1 <= seen[j].1)
  }

  /** The incumbent's solution is the starting one or one of the candidates. */
  lemma TrackSource<S>(b: Inc<S>, seen: seq<(S, real)>)
    ensures Track(b, seen) == b || exists i :: 0 <= i < |seen| && Track(b, seen) == Inc(seen[i].0, Some(seen[i].1))
  {
    TrackFirst(b, seen);
  }
}
