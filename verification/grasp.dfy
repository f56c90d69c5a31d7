/** GRASP (src/api/grasp.py): randomised greedy construction from a restricted candidate list,
    an optional local search, and strict-improvement tracking of the best solution.
    Line numbers in the comments below are those of src/api/grasp.py. */
module Grasp {
  import opened Wrappers
  import opened Contract
  import opened Incumbent

  // ------------------------------------------------------------------ restricted candidate list

  /** C = [(lower_bound_incr_add(c), c) for c in add_moves()]; None when an increment is None
      (the arithmetic on it then raises TypeError). */
  function CandidateList<S, C>(b: Builder<S, C>, s: S): (r: Option<seq<(real, C)>>)
    ensures r.Some? <==> forall i :: 0 <= i < |b.addMoves(s)| ==> b.lbIncr(s, b.addMoves(s)[i]).Some?
    ensures r.Some? ==> |r.value| == |b.addMoves(s)|
    ensures r.Some? ==> forall i :: 0 <= i < |r.value| ==>
              r.value[i] == (b.lbIncr(s, b.addMoves(s)[i]).value, b.addMoves(s)[i])
  {
    var ms := b.addMoves(s);
    if forall i :: 0 <= i < |ms| ==> b.lbIncr(s, ms[i]).Some? then
      Some(seq(|ms|, i requires 0 <= i < |ms| && b.lbIncr(s, ms[i]).Some? => (b.lbIncr(s, ms[i]).value, ms[i])))
    else None
  }

  /** cmin: the least increment of C. */
  function MinIncr<C>(cs: seq<(real, C)>): (m: real)
    requires |cs| > 0
    ensures forall i :: 0 <= i < |cs| ==> m <= cs[i].0
  {
    if |cs| == 1 then cs[0].0
    else
      var p := MinIncr(cs[..|cs| - 1]);
      if cs[|cs| - 1].0 < p then cs[|cs| - 1].0 else p
  }

  /** cmax: the greatest increment of C. */
  function MaxIncr<C>(cs: seq<(real, C)>): (m: real)
    requires |cs| > 0
    ensures forall i :: 0 <= i < |cs| ==> cs[i].0 <= m
  {
    if |cs| == 1 then cs[0].0
    else
      var p := MaxIncr(cs[..|cs| - 1]);
      if p < cs[|cs| - 1].0 then cs[|cs| - 1].0 else p
  }

  /** cmin and cmax are increments of C. */
  lemma {:induction false} MinMaxAttained<C>(cs: seq<(real, C)>)
    requires |cs| > 0
    ensures exists i :: 0 <= i < |cs| && cs[i].0 == MinIncr(cs)
    ensures exists i :: 0 <= i < |cs| && cs[i].0 == MaxIncr(cs)
    decreases |cs|
  {
    var n := |cs| - 1;
    if n == 0 {
      assert cs[0].0 == MinIncr(cs) == MaxIncr(cs);
    } else {
      var p := cs[..n];
      MinMaxAttained(p);
      var i :| 0 <= i < |p| && p[i].0 == MinIncr(p);
      var j :| 0 <= j < |p| && p[j].0 == MaxIncr(p);
      assert cs[i] == p[i] && cs[j] == p[j];
      if cs[n].0 < MinIncr(p) {
        assert cs[n].0 == MinIncr(cs);
      } else {
        assert cs[i].0 == MinIncr(cs);
      }
      if MaxIncr(p) < cs[n].0 {
        assert cs[n].0 == MaxIncr(cs);
      } else {
        assert cs[j].0 == MaxIncr(cs);
      }
    }
  }

  /** thresh = cmin + alpha * (cmax - cmin). */
  function Thresh<C>(cs: seq<(real, C)>, alpha: real): real
    requires |cs| > 0
  {
    MinIncr(cs) + alpha * (MaxIncr(cs) - MinIncr(cs))
  }

  /** The components of C whose increment is at most thresh, in the order of C. */
  function Rcl<C>(cs: seq<(real, C)>, thresh: real): (r: seq<C>)
    ensures |r| <= |cs|
  {
    if cs == [] then []
    else
      var p := Rcl(cs[..|cs| - 1], thresh);
      var last := cs[|cs| - 1];
      if last.0 <= thresh then p + [last.1] else p
  }

  /** The list holds exactly the components whose increment is at most thresh: all of C when
      every increment qualifies, none when none does. */
  lemma {:induction false} RclFacts<C>(cs: seq<(real, C)>, thresh: real)
    ensures forall i :: 0 <= i < |cs| && cs[i].0 <= thresh ==> cs[i].1 in Rcl(cs, thresh)
    ensures forall c :: c in Rcl(cs, thresh) ==> exists i :: 0 <= i < |cs| && cs[i].1 == c && cs[i].0 <= thresh
    ensures (forall i :: 0 <= i < |cs| ==> cs[i].0 <= thresh) ==> Rcl(cs, thresh) == Comps(cs)
    ensures (forall i :: 0 <= i < |cs| ==> thresh < cs[i].0) ==> Rcl(cs, thresh) == []
    decreases |cs|
  {
    if cs != [] {
      RclFacts(cs[..|cs| - 1], thresh);
      assert forall i :: 0 <= i < |cs| - 1 ==> cs[..|cs| - 1][i] == cs[i];
    }
  }

  /** The components of C, in order. */
  function Comps<C>(cs: seq<(real, C)>): (r: seq<C>)
    ensures |r| == |cs| && forall i :: 0 <= i < |cs| ==> r[i] == cs[i].1
  {
    if cs == [] then [] else Comps(cs[..|cs| - 1]) + [cs[|cs| - 1].1]
  }

  /** For alpha >= 0 every least-increment component is in the list, so it is never empty
      and random.choice cannot fail. */
  lemma RclKeepsMinimum<C>(cs: seq<(real, C)>, alpha: real)
    requires |cs| > 0 && alpha >= 0.0
    ensures forall i :: 0 <= i < |cs| && cs[i].0 == MinIncr(cs) ==> cs[i].1 in Rcl(cs, Thresh(cs, alpha))
    ensures |Rcl(cs, Thresh(cs, alpha))| > 0
  {
    var lo, hi := MinIncr(cs), MaxIncr(cs);
    assert lo <= Thresh(cs, alpha) by { MulSign(alpha, hi - lo); }
    RclFacts(cs, Thresh(cs, alpha));
    MinMaxAttained(cs);
    var i :| 0 <= i < |cs| && cs[i].0 == lo;
    assert cs[i].1 in Rcl(cs, Thresh(cs, alpha));
  }

  lemma MulSign(a: real, d: real)
    requires d >= 0.0
    ensures a >= 0.0 ==> a * d >= 0.0
    ensures a < 0.0 && d > 0.0 ==> a * d < 0.0
  {
  }

  /** With alpha = 0 the list holds exactly the least-increment components. */
  lemma RclGreedy<C>(cs: seq<(real, C)>)
    requires |cs| > 0
    ensures forall i :: 0 <= i < |cs| ==> (cs[i].0 <= Thresh(cs, 0.0) <==> cs[i].0 == MinIncr(cs))
  {
  }

  /** With alpha = 1 the list holds every component of C, in order. */
  lemma RclAll<C>(cs: seq<(real, C)>)
    requires |cs| > 0
    ensures Thresh(cs, 1.0) == MaxIncr(cs)
    ensures Rcl(cs, Thresh(cs, 1.0)) == Comps(cs)
  {
    RclFacts(cs, Thresh(cs, 1.0));
  }

  /** With alpha < 0 and distinct increments the list is empty (random.choice raises
      IndexError). */
  lemma RclEmpty<C>(cs: seq<(real, C)>, alpha: real)
    requires |cs| > 0 && alpha < 0.0 && MinIncr(cs) < MaxIncr(cs)
    ensures Rcl(cs, Thresh(cs, alpha)) == []
  {
    MulSign(alpha, MaxIncr(cs) - MinIncr(cs));
    assert Thresh(cs, alpha) < MinIncr(cs);
    RclFacts(cs, Thresh(cs, alpha));
  }

  /** c is in the restricted candidate list of s for this alpha. */
  ghost predicate InRcl<S, C>(b: Builder<S, C>, s: S, alpha: real, c: C)
  {
    var cl := CandidateList(b, s);
    cl.Some? && |cl.value| > 0 && c in Rcl(cl.value, Thresh(cl.value, alpha))
  }

  /** One pass of the inner loop from s with draw number k: the component random.choice
      takes from the restricted candidate list, None when C is empty and the construction
      ends, or the error the pass raises. */
  function Pick<S, C>(b: Builder<S, C>, s: S, alpha: real, rng: Oracle, k: nat): Run<Option<C>>
  {
    var cl := CandidateList(b, s);
    if cl.None? then Raised(TypeError)
    else if |cl.value| == 0 then Ok(None)
    else
      var rcl := Rcl(cl.value, Thresh(cl.value, alpha));
      if |rcl| == 0 then Raised(IndexError) else Ok(Some(Choice(rng, k, rcl)))
  }

  /** A pass ends the construction exactly when C is empty, raises TypeError on an undefined
      increment or IndexError on an empty list (only for alpha < 0), and otherwise picks a
      component of the restricted candidate list. */
  lemma PickFacts<S, C>(b: Builder<S, C>, s: S, alpha: real, rng: Oracle, k: nat)
    ensures var r := Pick(b, s, alpha, rng, k);
            && (r == Ok(None) <==> CandidateList(b, s) == Some([]))
            && (r == Raised(TypeError) <==> CandidateList(b, s).None?)
            && (r.Raised? ==> r.error == TypeError || (r.error == IndexError && alpha < 0.0))
            && (r.Ok? && r.value.Some? ==> InRcl(b, s, alpha, r.value.value))
  {
    var cl := CandidateList(b, s);
    if cl.Some? && |cl.value| > 0 && alpha >= 0.0 {
      RclKeepsMinimum(cl.value, alpha);
    }
  }

  /** The pass that finds a non-empty list picks what random.choice draws from it. */
  lemma PickIs<S, C>(b: Builder<S, C>, s: S, alpha: real, rng: Oracle, k: nat, cs: seq<(real, C)>)
    requires CandidateList(b, s) == Some(cs) && |cs| > 0 && |Rcl(cs, Thresh(cs, alpha))| > 0
    ensures Pick(b, s, alpha, rng, k) == Ok(Some(Choice(rng, k, Rcl(cs, Thresh(cs, alpha)))))
  {
  }

  /** The components are the ones successive passes pick, pass i using draw number k0 + i. */
  ghost predicate Built<S, C>(b: Builder<S, C>, s0: S, alpha: real, rng: Oracle, k0: nat, added: seq<C>)
    decreases |added|
  {
    added == [] ||
    (var p := added[..|added| - 1];
     Built(b, s0, alpha, rng, k0, p) && Pick(b, AddAll(b, s0, p), alpha, rng, k0 + |p|) == Ok(Some(added[|p|])))
  }

  // ------------------------------------------------------------------ one repetition

  /** (s.copy(), s.objective()) if s.is_feasible() else (None, None). */
  function RepStart<S, C>(b: Builder<S, C>, s: S): Inc<Option<S>>
  {
    if b.isFeasible(s) then Inc(Some(s), b.objective(s)) else Inc(None, None)
  }

  /** The feasible snapshots met after each addition, with their objective values. */
  ghost function Feasibles<S(!new), C(!new)>(b: Builder<S, C>, s0: S, added: seq<C>): seq<(Option<S>, real)>
    requires Valid(b)
    decreases |added|
  {
    if added == [] then []
    else
      var s := AddAll(b, s0, added);
      Feasibles(b, s0, added[..|added| - 1]) + (if b.isFeasible(s) then [(Some(s), b.objective(s).value)] else [])
  }

  /** A component drawn from the restricted candidate list is an add move of s. */
  lemma ChosenIsMove<S, C>(b: Builder<S, C>, s: S, alpha: real, c: C)
    requires CandidateList(b, s).Some? && |CandidateList(b, s).value| > 0
    requires c in Rcl(CandidateList(b, s).value, Thresh(CandidateList(b, s).value, alpha))
    ensures c in b.addMoves(s) && InRcl(b, s, alpha, c)
  {
    var cs := CandidateList(b, s).value;
    RclFacts(cs, Thresh(cs, alpha));
    var j :| 0 <= j < |cs| && cs[j].1 == c && cs[j].0 <= Thresh(cs, alpha);
    assert b.addMoves(s)[j] == c;
  }

  lemma FeasiblesSnoc<S(!new), C(!new)>(b: Builder<S, C>, s0: S, added: seq<C>, c: C)
    requires Valid(b)
    ensures var s := AddAll(b, s0, added + [c]);
            Feasibles(b, s0, added + [c]) ==
            Feasibles(b, s0, added) + (if b.isFeasible(s) then [(Some(s), b.objective(s).value)] else [])
  {
    assert (added + [c])[..|added|] == added;
  }

  /** After adding c, the repetition incumbent is the old one offered the new solution if
      it is feasible. */
  lemma RepStep<S(!new), C(!new)>(b: Builder<S, C>, s0: S, added: seq<C>, c: C, rb: Inc<Option<S>>)
    requires Valid(b)
    requires rb == Track(RepStart(b, s0), Feasibles(b, s0, added))
    ensures var s := b.add(AddAll(b, s0, added), c);
            Track(RepStart(b, s0), Feasibles(b, s0, added + [c])) ==
            if b.isFeasible(s) then Offer(rb, Some(s), b.objective(s).value) else rb
  {
    FeasiblesSnoc(b, s0, added, c);
    assert (added + [c])[..|added|] == added;
    var s := b.add(AddAll(b, s0, added), c);
    if b.isFeasible(s) {
      TrackSnoc(RepStart(b, s0), Feasibles(b, s0, added), Some(s), b.objective(s).value);
    } else {
      assert Feasibles(b, s0, added + [c]) == Feasibles(b, s0, added);
    }
  }

  /** A built trace extended by the next pass's pick. */
  lemma BuiltSnoc<S, C>(b: Builder<S, C>, s0: S, alpha: real, rng: Oracle, k0: nat, added: seq<C>, c: C)
    requires Built(b, s0, alpha, rng, k0, added)
    requires Pick(b, AddAll(b, s0, added), alpha, rng, k0 + |added|) == Ok(Some(c))
    ensures Built(b, s0, alpha, rng, k0, added + [c])
  {
    var q := added + [c];
    assert q[..|q| - 1] == added && q[|q| - 1] == c;
  }

  /** A built trace extended by what random.choice draws from the next pass's list. */
  lemma BuiltPick<S, C>(b: Builder<S, C>, s0: S, alpha: real, rng: Oracle, k0: nat, added: seq<C>,
                        s: S, k: nat, cs: seq<(real, C)>, rcl: seq<C>, c: C)
    requires Built(b, s0, alpha, rng, k0, added) && s == AddAll(b, s0, added) && k == k0 + |added|
    requires CandidateList(b, s) == Some(cs) && |cs| > 0
    requires rcl == Rcl(cs, Thresh(cs, alpha)) && |rcl| > 0 && c == Choice(rng, k, rcl)
    ensures Built(b, s0, alpha, rng, k0, added + [c])
  {
    PickIs(b, s, alpha, rng, k, cs);
    BuiltSnoc(b, s0, alpha, rng, k0, added, c);
  }

  /** Every component of a built trace was in the restricted candidate list it was drawn from. */
  lemma {:induction false} BuiltInRcl<S, C>(b: Builder<S, C>, s0: S, alpha: real, rng: Oracle, k0: nat, added: seq<C>)
    requires Built(b, s0, alpha, rng, k0, added)
    ensures forall i :: 0 <= i < |added| ==> InRcl(b, AddAll(b, s0, added[..i]), alpha, added[i])
    decreases |added|
  {
    if added != [] {
      var p := added[..|added| - 1];
      BuiltInRcl(b, s0, alpha, rng, k0, p);
      forall i | 0 <= i < |added| ensures InRcl(b, AddAll(b, s0, added[..i]), alpha, added[i]) {
        if i < |p| {
          assert added[..i] == p[..i];
        } else {
          PickFacts(b, AddAll(b, s0, p), alpha, rng, k0 + |p|);
        }
      }
    }
  }

  /** Lines 55-69: one randomised construction from a copy of solution, tracking the
      repetition incumbent (b, bobj). Draws k0, k0 + 1, ... of the oracle are used: the
      components are the ones successive passes pick, and the construction stops where the
      next pass finds C empty, or raises what that pass raises. */
  method Repetition<S(!new), C(!new)>(b: Builder<S, C>, s0: S, alpha: real, rng: Oracle, k0: nat)
      returns (res: Run<(S, Inc<Option<S>>)>, k: nat, ghost added: seq<C>)
    requires Valid(b)
    ensures res.Raised? ==> res.error == TypeError || (res.error == IndexError && alpha < 0.0)
    ensures res.Ok? ==> res.value.0 == AddAll(b, s0, added) && b.addMoves(res.value.0) == []
    ensures res.Ok? ==> res.value.1 == Track(RepStart(b, s0), Feasibles(b, s0, added))
    ensures forall i :: 0 <= i < |added| ==> InRcl(b, AddAll(b, s0, added[..i]), alpha, added[i])
    ensures Built(b, s0, alpha, rng, k0, added) && k == k0 + |added|
    ensures res.Ok? ==> Pick(b, AddAll(b, s0, added), alpha, rng, k) == Ok(None)
    ensures res.Raised? ==> Pick(b, AddAll(b, s0, added), alpha, rng, k) == Raised(res.error)
  {
    k := k0;
    added := [];
    var s := s0;
    var rb := RepStart(b, s0);
    var cl := CandidateList(b, s);
    while true
      invariant s == AddAll(b, s0, added)
      invariant cl == CandidateList(b, s)
      invariant rb == Track(RepStart(b, s0), Feasibles(b, s0, added))
      invariant Built(b, s0, alpha, rng, k0, added) && k == k0 + |added|
      decreases b.size(s)
    {
      if cl.None? {
        BuiltInRcl(b, s0, alpha, rng, k0, added);
        PickFacts(b, s, alpha, rng, k);
        return Raised(TypeError), k, added;
      }
      var cs := cl.value;
      if |cs| == 0 {
        PickFacts(b, s, alpha, rng, k);
        break;
      }
      var thresh := Thresh(cs, alpha);
      var rcl := Rcl(cs, thresh);
      if |rcl| == 0 {
        if alpha >= 0.0 {
          RclKeepsMinimum(cs, alpha);
          assert false;
        }
        BuiltInRcl(b, s0, alpha, rng, k0, added);
        assert Pick(b, s, alpha, rng, k) == Raised(IndexError);
        return Raised(IndexError), k, added;
      }
      var c := Choice(rng, k, rcl);
      BuiltPick(b, s0, alpha, rng, k0, added, s, k, cs, rcl, c);
      k := k + 1;
      ChosenIsMove(b, s, alpha, c);
      RepStep(b, s0, added, c, rb);
      assert (added + [c])[..|added|] == added;
      added := added + [c];
      s := b.add(s, c);
      if b.isFeasible(s) {
        var obj := b.objective(s).value;
        if rb.obj.None? || obj < rb.obj.value {
          rb := Inc(Some(s), Some(obj));
        }
      }
      cl := CandidateList(b, s);
    }
    BuiltInRcl(b, s0, alpha, rng, k0, added);
    res := Ok((s, rb));
  }

  // ------------------------------------------------------------------ end of a repetition

  /** The incumbent is None with no value, or a feasible solution with its objective. */
  ghost predicate WellFormed<S(!new), C(!new)>(b: Builder<S, C>, best: Inc<Option<S>>)
  {
    (best.sol.None? <==> best.obj.None?) &&
    (best.sol.Some? ==> b.isFeasible(best.sol.value) && b.objective(best.sol.value) == best.obj)
  }

  /** Lines 70-77 as written: the update of (best, bestobj) is not guarded by the
      feasibility test of the local-search result. */
  function EndAsWritten<S, C>(b: Builder<S, C>, best: Inc<Option<S>>, rb: Inc<Option<S>>,
                              ls: Option<S -> Option<S>>): Inc<Option<S>>
  {
    if rb.sol.None? || rb.obj.None? then best
    else
      var bb := if ls.Some? then ls.value(rb.sol.value) else rb.sol;
      var bobj := if bb.Some? && b.isFeasible(bb.value) && b.objective(bb.value).Some? then b.objective(bb.value) else rb.obj;
      if best.obj.None? || bobj.value < best.obj.value then Inc(bb, bobj) else best
  }

  /** As written, a local search that returns None replaces a feasible incumbent by None
      while bestobj keeps a value: grasp then returns None although a feasible solution
      was found, and no later repetition can repair it unless it is strictly better. */
  lemma EndAsWrittenLosesBest<S, C>(b: Builder<S, C>, s: S)
    ensures EndAsWritten(b, Inc(None, None), Inc(Some(s), Some(1.0)), Some(x => None)) == Inc(None, Some(1.0))
  {
  }

  /** Lines 70-77 with the update applied only to a feasible local-search result. */
  function End<S, C>(b: Builder<S, C>, best: Inc<Option<S>>, rb: Inc<Option<S>>,
                     ls: Option<S -> Option<S>>): Inc<Option<S>>
  {
    if rb.sol.None? then best
    else
      var bb := if ls.Some? then ls.value(rb.sol.value) else rb.sol;
      if bb.Some? && b.isFeasible(bb.value) && b.objective(bb.value).Some? then
        Offer(best, bb, b.objective(bb.value).value)
      else best
  }

  /** The corrected update keeps the incumbent well formed, and changes it only to a
      feasible solution with strictly smaller objective. */
  lemma EndKeepsWellFormed<S(!new), C(!new)>(b: Builder<S, C>, best: Inc<Option<S>>, rb: Inc<Option<S>>,
                                             ls: Option<S -> Option<S>>)
    requires WellFormed(b, best)
    ensures WellFormed(b, End(b, best, rb, ls))
    ensures End(b, best, rb, ls) == best ||
            (End(b, best, rb, ls).sol.Some? && Beats(End(b, best, rb, ls).obj.value, best.obj))
  {
  }

  // ------------------------------------------------------------------ grasp

  /** What the corrected end of a repetition offers to the global incumbent: the result of
      the local search (or the repetition's best itself), when it is feasible. */
  function OfferOf<S(!new), C(!new)>(b: Builder<S, C>, ls: Option<S -> Option<S>>, rb: Inc<Option<S>>)
      : (r: seq<(Option<S>, real)>)
    requires Valid(b)
    ensures |r| <= 1
    ensures forall i :: 0 <= i < |r| ==>
              r[i].0.Some? && b.isFeasible(r[i].0.value) && b.objective(r[i].0.value) == Some(r[i].1)
  {
    if rb.sol.None? then []
    else
      var bb := if ls.Some? then ls.value(rb.sol.value) else rb.sol;
      if bb.Some? && b.isFeasible(bb.value) then [(bb, b.objective(bb.value).value)] else []
  }

  /** The corrected end of a repetition is the incumbent offered what OfferOf lists. */
  lemma EndOffers<S(!new), C(!new)>(b: Builder<S, C>, best: Inc<Option<S>>, rb: Inc<Option<S>>,
                                    ls: Option<S -> Option<S>>)
    requires Valid(b)
    ensures End(b, best, rb, ls) == Track(best, OfferOf(b, ls, rb))
  {
    var o := OfferOf(b, ls, rb);
    if o != [] {
      assert o[..0] == [];
    }
  }

  /** A repetition that ended normally: its components are the ones successive passes pick,
      and the pass after the last finds C empty. */
  ghost predicate Completed<S, C>(b: Builder<S, C>, s0: S, alpha: real, rng: Oracle, k0: nat, added: seq<C>)
  {
    Built(b, s0, alpha, rng, k0, added) && Pick(b, AddAll(b, s0, added), alpha, rng, k0 + |added|) == Ok(None)
  }

  /** A repetition that raised: its components are the ones successive passes pick, and the
      pass after the last raised e. */
  ghost predicate Aborted<S, C>(b: Builder<S, C>, s0: S, alpha: real, rng: Oracle, k0: nat, added: seq<C>, e: Error)
  {
    Built(b, s0, alpha, rng, k0, added) && Pick(b, AddAll(b, s0, added), alpha, rng, k0 + |added|) == Raised(e)
  }

  /** The oracle draws the repetitions used: one per component added. */
  function Draws<C>(reps: seq<seq<C>>): nat
    decreases |reps|
  {
    if reps == [] then 0 else Draws(reps[..|reps| - 1]) + |reps[|reps| - 1]|
  }

  /** Every repetition ended normally, each starting at the draw where the previous one stopped. */
  ghost predicate Repeated<S, C>(b: Builder<S, C>, s0: S, alpha: real, rng: Oracle, reps: seq<seq<C>>)
    decreases |reps|
  {
    reps == [] ||
    (var p := reps[..|reps| - 1];
     Repeated(b, s0, alpha, rng, p) && Completed(b, s0, alpha, rng, Draws(p), reps[|p|]))
  }

  /** What the repetitions offered to the global incumbent, repetition by repetition. */
  ghost function Offered<S(!new), C(!new)>(b: Builder<S, C>, ls: Option<S -> Option<S>>, s0: S,
                                          reps: seq<seq<C>>): seq<(Option<S>, real)>
    requires Valid(b)
    decreases |reps|
  {
    if reps == [] then []
    else
      var p := reps[..|reps| - 1];
      Offered(b, ls, s0, p) + OfferOf(b, ls, Track(RepStart(b, s0), Feasibles(b, s0, reps[|p|])))
  }

  /** One more repetition that ended normally. */
  lemma RepeatedSnoc<S(!new), C(!new)>(b: Builder<S, C>, ls: Option<S -> Option<S>>, s0: S, alpha: real,
                                      rng: Oracle, reps: seq<seq<C>>, k0: nat, added: seq<C>, k: nat)
    requires Valid(b) && Repeated(b, s0, alpha, rng, reps) && k0 == Draws(reps)
    requires Built(b, s0, alpha, rng, k0, added) && k == k0 + |added|
    requires Pick(b, AddAll(b, s0, added), alpha, rng, k) == Ok(None)
    ensures Repeated(b, s0, alpha, rng, reps + [added])
    ensures Draws(reps + [added]) == Draws(reps) + |added|
    ensures Offered(b, ls, s0, reps + [added]) ==
            Offered(b, ls, s0, reps) + OfferOf(b, ls, Track(RepStart(b, s0), Feasibles(b, s0, added)))
  {
    assert (reps + [added])[..|reps|] == reps;
  }

  /** The last repetition raised what the pass after its last component raised; the ones
      before it ended normally. */
  ghost predicate Failed<S, C>(b: Builder<S, C>, s0: S, alpha: real, rng: Oracle, reps: seq<seq<C>>, e: Error)
  {
    |reps| >= 1 &&
    var p := reps[..|reps| - 1];
    Repeated(b, s0, alpha, rng, p) && Aborted(b, s0, alpha, rng, Draws(p), reps[|p|], e)
  }

  /** A repetition that raised, after ones that ended normally. */
  lemma FailedSnoc<S, C>(b: Builder<S, C>, s0: S, alpha: real, rng: Oracle, reps: seq<seq<C>>, k0: nat,
                         added: seq<C>, k: nat, e: Error)
    requires Repeated(b, s0, alpha, rng, reps) && k0 == Draws(reps)
    requires Built(b, s0, alpha, rng, k0, added) && k == k0 + |added|
    requires Pick(b, AddAll(b, s0, added), alpha, rng, k) == Raised(e)
    ensures Failed(b, s0, alpha, rng, reps + [added], e)
  {
    assert (reps + [added])[..|reps|] == reps;
  }

  /** Every solution offered is feasible and offered with its objective value. */
  ghost predicate FeasibleOffers<S, C>(b: Builder<S, C>, offered: seq<(Option<S>, real)>)
  {
    forall i :: 0 <= i < |offered| ==>
      offered[i].0.Some? && b.isFeasible(offered[i].0.value) && b.objective(offered[i].0.value) == Some(offered[i].1)
  }

  /** Lines 70-77, corrected: run the local search on the repetition's best (b, bobj) and
      offer the result to the global incumbent when it is feasible. */
  method Conclude<S(!new), C(!new)>(b: Builder<S, C>, ls: Option<S -> Option<S>>, rb: Inc<Option<S>>,
                                    best: Inc<Option<S>>, ghost offered: seq<(Option<S>, real)>)
      returns (best': Inc<Option<S>>, ghost offered': seq<(Option<S>, real)>)
    requires Valid(b) && best == Track(Inc(None, None), offered) && FeasibleOffers(b, offered)
    ensures offered' == offered + OfferOf(b, ls, rb) && FeasibleOffers(b, offered')
    ensures best' == Track(Inc(None, None), offered')
    ensures best' == End(b, best, rb, ls)
  {
    best', offered' := best, offered;
    if rb.sol.Some? {
      var bb := if ls.Some? then ls.value(rb.sol.value) else rb.sol;
      if bb.Some? && b.isFeasible(bb.value) {
        var bobj := b.objective(bb.value).value;
        TrackSnoc(Inc(None, None), offered, bb, bobj);
        offered' := offered + [(bb, bobj)];
        if best.obj.None? || bobj < best.obj.value {
          best' := Inc(bb, Some(bobj));
        }
      }
    }
  }

  /** grasp(solution, budget, alpha, seed, local_search). The budget is a number of clock
      readings, one per repetition: `reps` are the components each repetition added, the
      repetitions running on from one another's oracle draws; every one ends normally and
      there are `budget` of them, or the last one raises. `offered` lists what the corrected
      end of each repetition offers to the global incumbent (see OfferOf and EndOffers). */
  method Grasp<S(!new), C(!new)>(b: Builder<S, C>, solution: S, budget: nat, alpha: real, rng: Oracle,
                               ls: Option<S -> Option<S>>)
      returns (r: Run<Option<S>>, ghost offered: seq<(Option<S>, real)>, ghost reps: seq<seq<C>>)
    requires Valid(b)
    ensures r.Raised? ==> r.error == TypeError || (r.error == IndexError && alpha < 0.0)
    ensures budget == 0 ==> r == Ok(None)
    ensures r.Ok? ==> |reps| == budget && Repeated(b, solution, alpha, rng, reps)
    ensures r.Ok? ==> offered == Offered(b, ls, solution, reps)
    ensures r.Raised? ==> |reps| <= budget && Failed(b, solution, alpha, rng, reps, r.error)
    ensures forall i :: 0 <= i < |offered| ==>
              offered[i].0.Some? && b.isFeasible(offered[i].0.value) &&
              b.objective(offered[i].0.value) == Some(offered[i].1)
    ensures r.Ok? ==> r.value == Track(Inc(None, None), offered).sol
    ensures r.Ok? ==> (r.value.None? <==> offered == [])
    ensures r.Ok? && r.value.Some? ==> b.isFeasible(r.value.value)
  {
    var best: Inc<Option<S>> := Inc(None, None);
    offered, reps := [], [];
    var clock := 0;
    var k := 0;
    while clock < budget
      invariant clock == |reps| <= budget && k == Draws(reps)
      invariant Repeated(b, solution, alpha, rng, reps) && offered == Offered(b, ls, solution, reps)
      invariant best == Track(Inc(None, None), offered)
      invariant WellFormed(b, best)
      invariant FeasibleOffers(b, offered)
      decreases budget - clock
    {
      clock := clock + 1;
      var rep, k';
      ghost var added;
      rep, k', added := Repetition(b, solution, alpha, rng, k);
      if rep.Raised? {
        FailedSnoc(b, solution, alpha, rng, reps, k, added, k', rep.error);
        reps := reps + [added];
        return Raised(rep.error), offered, reps;
      }
      RepeatedSnoc(b, ls, solution, alpha, rng, reps, k, added, k');
      k := k';
      reps := reps + [added];
      ghost var before := best;
      best, offered := Conclude(b, ls, rep.value.1, best, offered);
      EndKeepsWellFormed(b, before, rep.value.1, ls);
    }
    TrackLeast(Inc(None, None), offered);
    r := Ok(best.sol);
  }
}
