/** Beam search (src/api/beam_search.py): expand every beam entry by every add move, keep the
    bw candidates of least score (stable sort), and track the best feasible solution.
    Line numbers in the comments below are those of src/api/beam_search.py. */
module BeamSearch {
  import opened Wrappers
  import opened Contract
  import opened Incumbent

  /** A beam entry (lb, solution); the bound of the initial entry may be None. */
  datatype Entry<S> = Entry(score: Option<real>, sol: S)

  /** A candidate (lb + lower_bound_incr_add(c), parent solution, c). */
  datatype Cand<S, C> = Cand(score: real, sol: S, comp: C)

  // ------------------------------------------------------------------ candidates

  /** `lb + s.lower_bound_incr_add(c)` can be evaluated for every add move of the entry
      (it raises TypeError when lb or an increment is None). */
  predicate EntryDefined<S, C>(b: Builder<S, C>, e: Entry<S>)
  {
    var ms := b.addMoves(e.sol);
    (ms != [] ==> e.score.Some?) && forall j :: 0 <= j < |ms| ==> b.lbIncr(e.sol, ms[j]).Some?
  }

  ghost predicate Defined<S, C>(b: Builder<S, C>, prev: seq<Entry<S>>)
  {
    forall i :: 0 <= i < |prev| ==> EntryDefined(b, prev[i])
  }

  /** The candidates of one entry, one per add move, in add_moves order. */
  function EntryCands<S, C>(b: Builder<S, C>, e: Entry<S>): (r: seq<Cand<S, C>>)
    requires EntryDefined(b, e)
    ensures |r| == |b.addMoves(e.sol)|
    ensures forall j :: 0 <= j < |r| ==>
              r[j].sol == e.sol && r[j].comp == b.addMoves(e.sol)[j] &&
              r[j].score == e.score.value + b.lbIncr(e.sol, r[j].comp).value
  {
    var ms := b.addMoves(e.sol);
    seq(|ms|, j requires 0 <= j < |ms| => Cand(e.score.value + b.lbIncr(e.sol, ms[j]).value, e.sol, ms[j]))
  }

  /** All candidates of a beam: beam order first, add_moves order second. */
  function Expand<S, C>(b: Builder<S, C>, prev: seq<Entry<S>>): seq<Cand<S, C>>
    requires Defined(b, prev)
  {
    if prev == [] then [] else Expand(b, prev[..|prev| - 1]) + EntryCands(b, prev[|prev| - 1])
  }

  /** Every candidate extends some beam entry by one of that entry's add moves. */
  lemma {:induction false} ExpandMembers<S, C>(b: Builder<S, C>, prev: seq<Entry<S>>)
    requires Defined(b, prev)
    ensures forall x :: x in Expand(b, prev) ==>
              x.comp in b.addMoves(x.sol) && exists i :: 0 <= i < |prev| && prev[i].sol == x.sol
    decreases |prev|
  {
    if prev != [] {
      var p := prev[..|prev| - 1];
      ExpandMembers(b, p);
      forall x | x in Expand(b, prev)
        ensures x.comp in b.addMoves(x.sol) && exists i :: 0 <= i < |prev| && prev[i].sol == x.sol
      {
        if x in Expand(b, p) {
          var i :| 0 <= i < |p| && p[i].sol == x.sol;
          assert prev[i] == p[i];
        } else {
          var es := EntryCands(b, prev[|prev| - 1]);
          var j :| 0 <= j < |es| && es[j] == x;
        }
      }
    }
  }

  /** There is no candidate exactly when no beam entry has an add move. */
  lemma {:induction false} ExpandEmpty<S, C>(b: Builder<S, C>, prev: seq<Entry<S>>)
    requires Defined(b, prev)
    ensures Expand(b, prev) == [] <==> forall i :: 0 <= i < |prev| ==> b.addMoves(prev[i].sol) == []
    decreases |prev|
  {
    if prev != [] {
      var p := prev[..|prev| - 1];
      ExpandEmpty(b, p);
      assert forall i :: 0 <= i < |p| ==> p[i] == prev[i];
    }
  }

  /** candidates(prev). */
  method Candidates<S, C>(b: Builder<S, C>, prev: seq<Entry<S>>) returns (r: Run<seq<Cand<S, C>>>)
    ensures r.Ok? <==> Defined(b, prev)
    ensures r.Ok? ==> r.value == Expand(b, prev)
    ensures r.Raised? ==> r.error == TypeError
  {
    var result := [];
    for i := 0 to |prev|
      invariant Defined(b, prev[..i])
      invariant result == Expand(b, prev[..i])
    {
      if !EntryDefined(b, prev[i]) {
        return Raised(TypeError);
      }
      assert prev[..i + 1][..i] == prev[..i];
      result := result + EntryCands(b, prev[i]);
    }
    assert prev[..|prev|] == prev;
    r := Ok(result);
  }

  // ------------------------------------------------------------------ stable sort by score

  /** Insert x after every entry whose score is at most x's. */
  function Insert<S, C>(t: seq<Cand<S, C>>, x: Cand<S, C>): (r: seq<Cand<S, C>>)
    ensures |r| == |t| + 1
    decreases |t|
  {
    if t == [] || t[|t| - 1].score <= x.score then t + [x]
    else Insert(t[..|t| - 1], x) + [t[|t| - 1]]
  }

  /** list.sort(key=itemgetter(0)): Python's sort is stable, so insertion sort gives the
      same order. */
  function SortByScore<S, C>(s: seq<Cand<S, C>>): (r: seq<Cand<S, C>>)
    ensures |r| == |s|
    decreases |s|
  {
    if s == [] then [] else Insert(SortByScore(s[..|s| - 1]), s[|s| - 1])
  }

  ghost predicate Sorted<S, C>(t: seq<Cand<S, C>>)
  {
    forall i, j :: 0 <= i < j < |t| ==> t[i].score <= t[j].score
  }

  /** The entries of t with score v, in order. */
  function WithScore<S, C>(t: seq<Cand<S, C>>, v: real): seq<Cand<S, C>>
    decreases |t|
  {
    if t == [] then []
    else WithScore(t[..|t| - 1], v) + (if t[|t| - 1].score == v then [t[|t| - 1]] else [])
  }

  lemma {:induction false} WithScoreAppend<S, C>(t: seq<Cand<S, C>>, u: seq<Cand<S, C>>, v: real)
    ensures WithScore(t + u, v) == WithScore(t, v) + WithScore(u, v)
    decreases |u|
  {
    if u == [] {
      assert t + u == t;
    } else {
      var p := u[..|u| - 1];
      WithScoreAppend(t, p, v);
      assert (t + u)[..|t + u| - 1] == t + p;
    }
  }

  lemma {:induction false} InsertMultiset<S, C>(t: seq<Cand<S, C>>, x: Cand<S, C>)
    ensures multiset(Insert(t, x)) == multiset(t) + multiset{x}
    decreases |t|
  {
    if !(t == [] || t[|t| - 1].score <= x.score) {
      var p, last := t[..|t| - 1], t[|t| - 1];
      assert t == p + [last];
      InsertMultiset(p, x);
    }
  }

  lemma {:induction false} InsertSorted<S, C>(t: seq<Cand<S, C>>, x: Cand<S, C>)
    requires Sorted(t)
    ensures Sorted(Insert(t, x))
    decreases |t|
  {
    if !(t == [] || t[|t| - 1].score <= x.score) {
      var p, last := t[..|t| - 1], t[|t| - 1];
      InsertSorted(p, x);
      InsertMultiset(p, x);
      var ip := Insert(p, x);
      forall i, j | 0 <= i < j < |ip| + 1 ensures (ip + [last])[i].score <= (ip + [last])[j].score {
        if j == |ip| {
          var y := ip[i];
          assert y in multiset(ip);
          assert y in p || y == x;
        }
      }
    }
  }

  lemma {:induction false} InsertStable<S, C>(t: seq<Cand<S, C>>, x: Cand<S, C>, v: real)
    ensures WithScore(Insert(t, x), v) == WithScore(t, v) + WithScore([x], v)
    decreases |t|
  {
    if t == [] || t[|t| - 1].score <= x.score {
      WithScoreAppend(t, [x], v);
    } else {
      var p, last := t[..|t| - 1], t[|t| - 1];
      assert WithScore(Insert(p, x), v) == WithScore(p, v) + WithScore([x], v) by {
        InsertStable(p, x, v);
      }
      assert WithScore(Insert(t, x), v) == WithScore(Insert(p, x), v) + WithScore([last], v) by {
        WithScoreAppend(Insert(p, x), [last], v);
      }
      assert WithScore(t, v) == WithScore(p, v) + WithScore([last], v) by {
        assert t == p + [last];
        WithScoreAppend(p, [last], v);
      }
      assert WithScore([x], v) == [] || WithScore([last], v) == [];
    }
  }

  /** The sort yields non-decreasing scores, is a permutation, and keeps candidates of equal
      score in their original order. */
  lemma {:induction false} SortFacts<S, C>(s: seq<Cand<S, C>>)
    ensures Sorted(SortByScore(s))
    ensures multiset(SortByScore(s)) == multiset(s)
    ensures forall v :: WithScore(SortByScore(s), v) == WithScore(s, v)
    decreases |s|
  {
    if s != [] {
      var p := s[..|s| - 1];
      assert s == p + [s[|s| - 1]];
      SortFacts(p);
      InsertSorted(SortByScore(p), s[|s| - 1]);
      InsertMultiset(SortByScore(p), s[|s| - 1]);
      forall v ensures WithScore(SortByScore(s), v) == WithScore(s, v) {
        InsertStable(SortByScore(p), s[|s| - 1], v);
        WithScoreAppend(p, [s[|s| - 1]], v);
      }
    }
  }

  // ------------------------------------------------------------------ evolve

  /** The length of t[:bw] for a list of length n (a negative bw counts from the end). */
  function SliceLen(n: nat, bw: int): (k: nat)
    ensures k <= n
    ensures bw >= 0 ==> k == if bw < n then bw else n
    ensures bw < 0 ==> k == if n + bw > 0 then n + bw else 0
  {
    if bw >= 0 then (if bw < n then bw else n) else if n + bw > 0 then n + bw else 0
  }

  /** nv is what evolve makes of the candidates: the first bw of them by score, in sorted
      order, each kept component added to its parent. */
  ghost predicate Evolved<S, C>(b: Builder<S, C>, candidates: seq<Cand<S, C>>, bw: int, nv: seq<Entry<S>>)
  {
    |nv| == SliceLen(|candidates|, bw) &&
    forall i :: 0 <= i < |nv| ==>
      var x := SortByScore(candidates)[i]; nv[i] == Entry(Some(x.score), b.add(x.sol, x.comp))
  }

  /** evolve(candidates, bw): sort by score, keep candidates[:bw], add each kept component
      to a copy of its parent. */
  method Evolve<S, C>(b: Builder<S, C>, candidates: seq<Cand<S, C>>, bw: int) returns (r: seq<Entry<S>>)
    ensures Evolved(b, candidates, bw, r)
    ensures forall i, j :: 0 <= i < j < |r| ==> r[i].score.Some? && r[i].score.value <= r[j].score.value
  {
    SortFacts(candidates);
    var sorted := SortByScore(candidates);
    var kept := sorted[..SliceLen(|sorted|, bw)];
    r := [];
    for i := 0 to |kept|
      invariant |r| == i
      invariant forall k :: 0 <= k < i ==> r[k] == Entry(Some(kept[k].score), b.add(kept[k].sol, kept[k].comp))
    {
      var x := kept[i];
      r := r + [Entry(Some(x.score), b.add(x.sol, x.comp))];
    }
  }

  // ------------------------------------------------------------------ beam_search

  /** One more than the largest size in the beam; 0 for an empty beam. */
  function Height<S, C>(b: Builder<S, C>, v: seq<Entry<S>>): nat
    decreases |v|
  {
    if v == [] then 0
    else
      var h := Height(b, v[..|v| - 1]);
      var last := b.size(v[|v| - 1].sol) + 1;
      if h < last then last else h
  }

  lemma {:induction false} HeightBounds<S, C>(b: Builder<S, C>, v: seq<Entry<S>>, k: nat)
    ensures forall i :: 0 <= i < |v| ==> b.size(v[i].sol) < Height(b, v)
    ensures (forall i :: 0 <= i < |v| ==> b.size(v[i].sol) < k) ==> Height(b, v) <= k
    decreases |v|
  {
    if v != [] {
      HeightBounds(b, v[..|v| - 1], k);
      assert forall i :: 0 <= i < |v| - 1 ==> v[..|v| - 1][i] == v[i];
    }
  }

  /** The beam after evolve is lower than the beam it was expanded from. */
  lemma EvolveDescends<S(!new), C(!new)>(b: Builder<S, C>, v: seq<Entry<S>>, cands: seq<Cand<S, C>>,
                                        nv: seq<Entry<S>>, bw: int)
    requires Valid(b) && Defined(b, v) && cands == Expand(b, v) && cands != []
    requires Evolved(b, cands, bw, nv)
    ensures Height(b, nv) < Height(b, v)
  {
    ExpandMembers(b, v);
    SortFacts(cands);
    HeightBounds(b, v, 0);
    var k := Height(b, v) - 1;
    forall i | 0 <= i < |nv| ensures b.size(nv[i].sol) < k {
      var x := SortByScore(cands)[i];
      assert x in multiset(SortByScore(cands));
      assert x in cands;
      var j :| 0 <= j < |v| && v[j].sol == x.sol;
    }
    HeightBounds(b, nv, k);
    assert v[0] in v;
  }

  /** The feasible members of a beam, in order, with their objective values. */
  function Feasible<S(!new), C(!new)>(b: Builder<S, C>, v: seq<Entry<S>>): seq<(S, real)>
    requires Valid(b)
  {
    if v == [] then []
    else
      var s := v[|v| - 1].sol;
      Feasible(b, v[..|v| - 1]) + if b.isFeasible(s) then [(s, b.objective(s).value)] else []
  }

  /** Lines 73-78: every feasible member of the new beam, in order, is offered to the
      incumbent (best, bestobj), which stays the record of everything offered since `solution`. */
  method OfferBeam<S(!new), C(!new)>(b: Builder<S, C>, solution: S, v: seq<Entry<S>>, best: S,
                                     bestobj: Option<real>, ghost seen: seq<(S, real)>)
      returns (best': S, bestobj': Option<real>, ghost seen': seq<(S, real)>)
    requires Valid(b)
    requires Inc(best, bestobj) == Track(Inc(solution, b.objective(solution)), seen)
    requires forall i :: 0 <= i < |seen| ==> b.isFeasible(seen[i].0) && b.objective(seen[i].0) == Some(seen[i].1)
    ensures Inc(best', bestobj') == Track(Inc(solution, b.objective(solution)), seen')
    ensures forall i :: 0 <= i < |seen'| ==> b.isFeasible(seen'[i].0) && b.objective(seen'[i].0) == Some(seen'[i].1)
    ensures seen' == seen + Feasible(b, v)
  {
    best', bestobj', seen' := best, bestobj, seen;
    for i := 0 to |v|
      invariant Inc(best', bestobj') == Track(Inc(solution, b.objective(solution)), seen')
      invariant forall i :: 0 <= i < |seen'| ==> b.isFeasible(seen'[i].0) && b.objective(seen'[i].0) == Some(seen'[i].1)
      invariant seen' == seen + Feasible(b, v[..i])
    {
      assert v[..i + 1][..i] == v[..i];
      var s := v[i].sol;
      if b.isFeasible(s) {
        var obj := b.objective(s).value;
        TrackSnoc(Inc(solution, b.objective(solution)), seen', s, obj);
        seen' := seen' + [(s, obj)];
        if bestobj'.None? || obj < bestobj'.value {
          best', bestobj' := s, Some(obj);
        }
      }
    }
    assert v[..|v|] == v;
  }

  /** Each beam but the last has candidates, and the next beam is what evolve makes of them. */
  ghost predicate Rounds<S, C>(b: Builder<S, C>, bw: int, beams: seq<seq<Entry<S>>>)
  {
    forall i :: 0 <= i < |beams| - 1 ==>
      Defined(b, beams[i]) && Expand(b, beams[i]) != [] && Evolved(b, Expand(b, beams[i]), bw, beams[i + 1])
  }

  /** The feasible members of every beam after the first, beam by beam. */
  function Offers<S(!new), C(!new)>(b: Builder<S, C>, beams: seq<seq<Entry<S>>>): seq<(S, real)>
    requires Valid(b)
    decreases |beams|
  {
    if |beams| <= 1 then [] else Offers(b, beams[..|beams| - 1]) + Feasible(b, beams[|beams| - 1])
  }

  /** One more round: the beams stay a run of evolve, and the new beam's feasible members
      are offered after the earlier ones. */
  lemma RoundsSnoc<S(!new), C(!new)>(b: Builder<S, C>, bw: int, beams: seq<seq<Entry<S>>>, nv: seq<Entry<S>>)
    requires Valid(b) && |beams| >= 1 && Rounds(b, bw, beams)
    requires Defined(b, beams[|beams| - 1]) && Expand(b, beams[|beams| - 1]) != []
    requires Evolved(b, Expand(b, beams[|beams| - 1]), bw, nv)
    ensures Rounds(b, bw, beams + [nv])
    ensures Offers(b, beams + [nv]) == Offers(b, beams) + Feasible(b, nv)
  {
    assert (beams + [nv])[..|beams|] == beams;
  }

  /** beam_search(solution, bw). `beams` are the successive beams, from the initial one: each
      next beam is evolve of the candidates of the previous one, and the search stops at the
      first beam without candidates, or raises TypeError at the first beam whose candidates
      cannot be scored. `seen` lists, in order, the feasible members of every new beam, which
      are offered to the incumbent with their objective values. */
  method Search<S(!new), C(!new)>(b: Builder<S, C>, solution: S, bw: int)
      returns (r: Run<S>, ghost seen: seq<(S, real)>, ghost beams: seq<seq<Entry<S>>>)
    requires Valid(b)
    ensures |beams| >= 1 && beams[0] == [Entry(b.lowerBound(solution), solution)]
    ensures Rounds(b, bw, beams) && seen == Offers(b, beams)
    ensures r.Ok? <==> Defined(b, beams[|beams| - 1]) && Expand(b, beams[|beams| - 1]) == []
    ensures r.Raised? ==> r.error == TypeError && !Defined(b, beams[|beams| - 1])
    ensures ((forall s, c :: c in b.addMoves(s) ==> b.lbIncr(s, c).Some?) &&
             (b.addMoves(solution) != [] ==> b.lowerBound(solution).Some?)) ==> r.Ok?
    ensures forall i :: 0 <= i < |seen| ==> b.isFeasible(seen[i].0) && b.objective(seen[i].0) == Some(seen[i].1)
    ensures r.Ok? ==> r.value == Track(Inc(solution, b.objective(solution)), seen).sol
    ensures r.Ok? ==> r.value == solution ||
                      (b.isFeasible(r.value) && Beats(b.objective(r.value).value, b.objective(solution)))
    ensures r.Ok? ==> var last := beams[|beams| - 1]; forall i :: 0 <= i < |last| ==> b.addMoves(last[i].sol) == []
  {
    var best, bestobj := solution, b.objective(solution);
    seen := [];
    var v := [Entry(b.lowerBound(solution), solution)];
    beams := [v];
    ghost var allDefined := (forall s, c :: c in b.addMoves(s) ==> b.lbIncr(s, c).Some?) &&
                            (b.addMoves(solution) != [] ==> b.lowerBound(solution).Some?);
    while true
      invariant Inc(best, bestobj) == Track(Inc(solution, b.objective(solution)), seen)
      invariant forall i :: 0 <= i < |seen| ==> b.isFeasible(seen[i].0) && b.objective(seen[i].0) == Some(seen[i].1)
      invariant |beams| >= 1 && beams[0] == [Entry(b.lowerBound(solution), solution)]
      invariant beams[|beams| - 1] == v && Rounds(b, bw, beams) && seen == Offers(b, beams)
      invariant allDefined ==> forall i :: 0 <= i < |v| ==>
                  v[i].score.Some? || (v[i].sol == solution && v[i].score == b.lowerBound(solution))
      decreases Height(b, v)
    {
      var c := Candidates(b, v);
      if c.Raised? {
        assert !allDefined by {
          if allDefined {
            forall i | 0 <= i < |v| ensures EntryDefined(b, v[i]) {
              var ms := b.addMoves(v[i].sol);
              forall j | 0 <= j < |ms| ensures b.lbIncr(v[i].sol, ms[j]).Some? {
                assert ms[j] in ms;
              }
            }
          }
        }
        return Raised(TypeError), seen, beams;
      }
      if |c.value| == 0 {
        ExpandEmpty(b, v);
        break;
      }
      var nv := Evolve(b, c.value, bw);
      EvolveDescends(b, v, c.value, nv, bw);
      RoundsSnoc(b, bw, beams, nv);
      beams := beams + [nv];
      v := nv;
      best, bestobj, seen := OfferBeam(b, solution, v, best, bestobj, seen);
    }
    r := Ok(best);
    TrackFirst(Inc(solution, b.objective(solution)), seen);
  }
}
