/** Heuristic construction (src/api/heuristic_construction.py): add the component proposed by
    heuristic_add_move until it proposes none. */
module HeuristicConstruction {
  import opened Wrappers
  import opened Contract

  /** heuristic_construction(solution). `added` lists the components added, in order. */
  method Heuristic<S(!new), C(!new)>(b: Builder<S, C>, solution: S) returns (r: S, ghost added: seq<C>)
    requires Valid(b)
    ensures r == AddAll(b, solution, added)
    ensures forall i :: 0 <= i < |added| ==>
              b.heuristicAddMove(AddAll(b, solution, added[..i])) == Some(added[i])
    ensures b.heuristicAddMove(r).None?
    ensures b.heuristicAddMove(solution).None? ==> r == solution && added == []
  {
    ghost var ok := (x, c, i: nat) => b.heuristicAddMove(x) == Some(c);
    r := solution;
    added := [];
    var c := b.heuristicAddMove(r);
    while c.Some?
      invariant r == AddAll(b, solution, added)
      invariant c == b.heuristicAddMove(r)
      invariant Obeys(b, solution, added, ok)
      decreases b.size(r)
    {
      ObeysSnoc(b, solution, added, ok, c.value);
      added := added + [c.value];
      r := b.add(r, c.value);
      c := b.heuristicAddMove(r);
    }
    ObeysAll(b, solution, added, ok);
    if added != [] {
      assert added[..0] == [];
    }
  }
}
