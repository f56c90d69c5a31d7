/** Greedy construction (src/api/greedy_construction.py): repeatedly add the component of
    least lower-bound increment until no add move has a defined increment. */
module GreedyConstruction {
  import opened Wrappers
  import opened Contract

  /** The index of the first least defined value, None when every value is None:
      min over the non-None entries with default None, which keeps the first minimum. */
  function FirstLeast(incrs: seq<Option<real>>): (r: Option<nat>)
    ensures r.None? <==> forall i :: 0 <= i < |incrs| ==> incrs[i].None?
    ensures r.Some? ==> r.value < |incrs| && incrs[r.value].Some?
    ensures r.Some? ==> forall i :: 0 <= i < |incrs| && incrs[i].Some? ==>
                          incrs[r.value].value <= incrs[i].value
    ensures r.Some? ==> forall i :: 0 <= i < r.value && incrs[i].Some? ==>
                          incrs[r.value].value < incrs[i].value
  {
    if incrs == [] then None
    else
      var p := FirstLeast(incrs[..|incrs| - 1]);
      var last := incrs[|incrs| - 1];
      if last.Some? && (p.None? || last.value < incrs[p.value].value) then Some(|incrs| - 1)
      else p
  }

  /** lower_bound_incr_add for each add move of s, in add_moves order. */
  function Increments<S, C>(b: Builder<S, C>, s: S, ms: seq<C>): (r: seq<Option<real>>)
    ensures |r| == |ms| && forall i :: 0 <= i < |ms| ==> r[i] == b.lbIncr(s, ms[i])
  {
    seq(|ms|, i requires 0 <= i < |ms| => b.lbIncr(s, ms[i]))
  }

  /** The component greedy_construction adds to s: the first add move of least defined
      increment; None exactly when no add move has a defined increment. */
  function GreedyPick<S, C>(b: Builder<S, C>, s: S): (r: Option<C>)
    ensures r.None? <==> forall c :: c in b.addMoves(s) ==> b.lbIncr(s, c).None?
    ensures r.Some? ==> r.value in b.addMoves(s) && b.lbIncr(s, r.value).Some?
    ensures r.Some? ==> forall c :: c in b.addMoves(s) && b.lbIncr(s, c).Some? ==>
                          b.lbIncr(s, r.value).value <= b.lbIncr(s, c).value
    ensures r.Some? ==> exists i :: 0 <= i < |b.addMoves(s)| && b.addMoves(s)[i] == r.value &&
                          forall j :: 0 <= j < i && b.lbIncr(s, b.addMoves(s)[j]).Some? ==>
                            b.lbIncr(s, r.value).value < b.lbIncr(s, b.addMoves(s)[j]).value
  {
    var ms := b.addMoves(s);
    var incrs := Increments(b, s, ms);
    var i := FirstLeast(incrs);
    if i.None? then
      assert forall c :: c in ms ==> b.lbIncr(s, c).None? by {
        forall c | c in ms ensures b.lbIncr(s, c).None? {
          var k :| 0 <= k < |ms| && ms[k] == c;
          assert incrs[k].None?;
        }
      }
      None
    else
      assert forall c :: c in ms && b.lbIncr(s, c).Some? ==>
               b.lbIncr(s, ms[i.value]).value <= b.lbIncr(s, c).value by {
        forall c | c in ms && b.lbIncr(s, c).Some?
          ensures b.lbIncr(s, ms[i.value]).value <= b.lbIncr(s, c).value
        {
          var k :| 0 <= k < |ms| && ms[k] == c;
          assert incrs[k].Some?;
        }
      }
      Some(ms[i.value])
  }

  /** greedy_construction(solution). `added` lists the components added, in order. */
  method Greedy<S(!new), C(!new)>(b: Builder<S, C>, solution: S) returns (r: S, ghost added: seq<C>)
    requires Valid(b)
    ensures r == AddAll(b, solution, added)
    ensures forall i :: 0 <= i < |added| ==>
              GreedyPick(b, AddAll(b, solution, added[..i])) == Some(added[i])
    ensures GreedyPick(b, r).None?
  {
    ghost var ok := (x, c, i: nat) => GreedyPick(b, x) == Some(c);
    r := solution;
    added := [];
    while true
      invariant r == AddAll(b, solution, added)
      invariant Obeys(b, solution, added, ok)
      decreases b.size(r)
    {
      var best := GreedyPick(b, r);
      if best.None? {
        break;
      }
      var c := best.value;
      ObeysSnoc(b, solution, added, ok, c);
      added := added + [c];
      r := b.add(r, c);
    }
    ObeysAll(b, solution, added, ok);
  }
}
