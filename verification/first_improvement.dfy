/** First-improvement local search (src/api/first_improvement.py): apply the first strictly
    improving move of each random enumeration, and stop at an enumeration that has none. */
module FirstImprovement {
  import opened Wrappers
  import opened Contract
  import opened Utils
  import opened LocalSearch

  /** first_improvement(solution, budget). `steps` are the moves applied and `optimum` tells
      that the search ended on an enumeration without a strictly improving move. Each step is
      the first strictly improving move of its enumeration; the search stops only when the
      next enumeration fits in the budget and finds nothing, or does not fit in it; at an
      optimum no local move improves (when the enumeration covers local_moves); and with a
      consistent objective_incr_local each step lowers the objective by more than the
      absolute tolerance. */
  method FirstImprovement<S(!new), M(!new)>(mv: Mover<S, M>, solution: S, budget: nat)
      returns (r: S, ghost steps: seq<M>, ghost optimum: bool)
    ensures r == StepAll(mv, solution, steps) && Spent(mv, Strict, solution, steps, 0) <= budget
    ensures Descent(mv, Strict, solution, steps, 0)
    ensures optimum ==> FirstIndex(mv, Strict, r, mv.randomMovesWor(r, |steps|)).None?
    ensures optimum <==> Spent(mv, Strict, solution, steps, 0) + 1 + Rejections(mv, Strict, r, |steps|) <= budget
    ensures optimum && Enumerates(mv) ==>
              forall m :: m in mv.localMoves(r) ==> !Accepts(Strict, mv.objIncr(r, m))
    ensures Consistent(mv) ==> mv.objective(r) <= mv.objective(solution) - Times(|steps|, AbsTol)
    ensures budget == 0 ==> r == solution && !optimum
  {
    r, steps, optimum := Descend(mv, Strict, solution, budget);
    if optimum && Enumerates(mv) {
      ExhaustedIsOptimum(mv, Strict, r, |steps|);
    }
    if Consistent(mv) {
      DescentAccepted(mv, Strict, solution, steps, 0);
      AcceptedObjective(mv, Strict, solution, steps);
    }
  }
}
