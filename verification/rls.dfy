/** Random local search (src/api/rls.py): apply the first move of each random enumeration
    that does not worsen the objective beyond the tolerance, and stop at an enumeration whose
    every move worsens it. */
module Rls {
  import opened Wrappers
  import opened Contract
  import opened Utils
  import opened LocalSearch

  /** rls(solution, budget). `steps` are the moves applied and `optimum` tells that the search
      ended on an enumeration whose every move worsens the objective beyond the tolerance.
      Each step is the first acceptable move of its enumeration; the search stops only when
      the next enumeration fits in the budget and finds nothing, or does not fit in it; and with a consistent
      objective_incr_local no step raises the objective by more than the absolute tolerance,
      so the drift is bounded by the number of steps. */
  method Rls<S(!new), M(!new)>(mv: Mover<S, M>, solution: S, budget: nat)
      returns (r: S, ghost steps: seq<M>, ghost optimum: bool)
    ensures r == StepAll(mv, solution, steps) && Spent(mv, Lenient, solution, steps, 0) <= budget
    ensures Descent(mv, Lenient, solution, steps, 0)
    ensures optimum ==> FirstIndex(mv, Lenient, r, mv.randomMovesWor(r, |steps|)).None?
    ensures optimum <==> Spent(mv, Lenient, solution, steps, 0) + 1 + Rejections(mv, Lenient, r, |steps|) <= budget
    ensures optimum && Enumerates(mv) ==>
              forall m :: m in mv.localMoves(r) ==> mv.objIncr(r, m) > 0.0 && !IsClose(mv.objIncr(r, m), 0.0)
    ensures Consistent(mv) ==> mv.objective(r) <= mv.objective(solution) + Times(|steps|, AbsTol)
    ensures budget == 0 ==> r == solution && !optimum
  {
    r, steps, optimum := Descend(mv, Lenient, solution, budget);
    if optimum && Enumerates(mv) {
      ExhaustedIsOptimum(mv, Lenient, r, |steps|);
    }
    if Consistent(mv) {
      DescentAccepted(mv, Lenient, solution, steps, 0);
      AcceptedObjective(mv, Lenient, solution, steps);
    }
  }
}
