/** The single-machine scheduling encoding of the 3D-printing problem (src/3dprinting.py): a
    solution is a partial sequence of items (`path`), the items already placed (`used`) and
    those still to place (`unused`), with the cost kept alongside. Only the members the module
    implements are modelled: feasibility, objective, lower bound, the add and local-move
    enumerations, copy, Component.cid and the instance parser. */
module Printing3d {
  import opened Wrappers
  import opened Utils

  /** The instance: only the number of items is kept. */
  datatype Problem = Problem(nItems: nat)

  /** Problem.from_textio over the integers of the file: the count must be a multiple of 3
      (processing times, weights and due dates, one list each), otherwise None. */
  function FromNumbers(nums: seq<int>): (r: Option<Problem>)
    ensures r.None? <==> |nums| % 3 != 0
    ensures r.Some? ==> 3 * r.value.nItems == |nums|
  {
    if |nums| % 3 != 0 then None else Some(Problem(|nums| / 3))
  }

  /** Adding item k to the sequence. */
  datatype Component = Component(k: int)

  /** Component.cid: the item itself. */
  function Cid(c: Component): int
  {
    c.k
  }

  /** Two components have the same cid exactly when they add the same item, so a table keyed by
      cid keeps one entry per item. */
  lemma CidIdentifies(a: Component, b: Component)
    ensures Cid(a) == Cid(b) <==> a == b
  {
  }

  /** Reversing path[i:j]. */
  datatype LocalMove = LocalMove(i: int, j: int)

  /** The moves `if j > i: yield LocalMove(i, j)` makes of a stream of pairs, in stream order. */
  function Forward(ps: seq<(int, int)>): (ms: seq<LocalMove>)
    ensures forall m :: m in ms <==> (m.i, m.j) in ps && m.i < m.j
  {
    if ps == [] then []
    else
      var p := ps[|ps| - 1];
      Forward(ps[..|ps| - 1]) + (if p.1 > p.0 then [LocalMove(p.0, p.1)] else [])
  }

  /** The loop of random_local_moves_wor over the sampled pairs, yielding LocalMove(i, j)
      for each pair with j > i. */
  method KeepForward(pairs: seq<(int, int)>) returns (ms: seq<LocalMove>)
    ensures ms == Forward(pairs)
  {
    ms := [];
    for t := 0 to |pairs|
      invariant ms == Forward(pairs[..t])
    {
      var (i, j) := pairs[t];
      assert pairs[..t + 1][..t] == pairs[..t];
      if j > i {
        ms := ms + [LocalMove(i, j)];
      }
    }
    assert pairs[..|pairs|] == pairs;
  }

  /** Filtering a stream without repeated pairs yields no repeated move. */
  lemma {:induction false} ForwardDistinct(ps: seq<(int, int)>)
    requires Distinct(ps)
    ensures Distinct(Forward(ps))
  {
    if ps != [] {
      var q := ps[..|ps| - 1];
      var p := ps[|ps| - 1];
      assert Distinct(q);
      ForwardDistinct(q);
      if p.1 > p.0 {
        assert p !in q;
        assert LocalMove(p.0, p.1) !in Forward(q);
      }
    }
  }

  /** The forward pairs of sample2(len - 1, len - 1) are every local move of a path of length
      len, each once. */
  lemma ForwardEnumerates(pairs: seq<(int, int)>, len: nat)
    requires len >= 2 ==> Distinct(pairs) && forall i, j :: (i, j) in pairs <==> 0 <= i < len - 1 && 0 <= j < len - 1
    requires (len - 1) * (len - 1) <= 0 ==> pairs == []
    requires (len - 1) * (len - 1) == 1 ==> len - 1 != 0 && pairs == [Decode(0, len - 1)]
    ensures EnumeratesMoves(Forward(pairs), len)
  {
    if len >= 2 {
      ForwardDistinct(pairs);
    } else if len == 0 {
      assert (len - 1) * (len - 1) == 1;
      assert pairs == [(0, 0)] by { assert Decode(0, -1) == (0, 0); }
      assert pairs[..0] == [];
      assert Forward(pairs) == [];
    }
  }

  /** The filter keeps the order of the stream: the moves of a concatenation are those of
      its first part followed by those of its second. */
  lemma {:induction false} ForwardAppend(ps: seq<(int, int)>, qs: seq<(int, int)>)
    ensures Forward(ps + qs) == Forward(ps) + Forward(qs)
    decreases |qs|
  {
    if qs != [] {
      var q := qs[..|qs| - 1];
      assert (ps + qs)[..|ps + qs| - 1] == ps + q;
      ForwardAppend(ps, q);
    } else {
      assert ps + qs == ps;
    }
  }

  /** The local moves of a path of length len: 0 <= i < j <= len - 2. */
  predicate InRange(m: LocalMove, len: int)
  {
    0 <= m.i < m.j <= len - 2
  }

  /** Lexicographic order on moves. */
  predicate LexLess(a: LocalMove, b: LocalMove)
  {
    a.i < b.i || (a.i == b.i && a.j < b.j)
  }

  /** ms lists every local move of a path of length len exactly once. */
  ghost predicate EnumeratesMoves(ms: seq<LocalMove>, len: int)
  {
    Distinct(ms) && forall m :: m in ms <==> InRange(m, len)
  }

  /** Two enumerations of the local moves are the same moves in some order: this is what makes
      random_local_moves_wor a shuffle of local_moves. */
  lemma EnumerationsAgree(a: seq<LocalMove>, b: seq<LocalMove>, len: int)
    requires EnumeratesMoves(a, len) && EnumeratesMoves(b, len)
    ensures multiset(a) == multiset(b)
  {
    forall x ensures multiset(a)[x] == multiset(b)[x] {
      DistinctCount(a, x);
      DistinctCount(b, x);
    }
  }

  /** A strictly increasing sequence has no duplicates. */
  lemma IncreasingIsDistinct(ms: seq<LocalMove>)
    requires forall a, b :: 0 <= a < b < |ms| ==> LexLess(ms[a], ms[b])
    ensures Distinct(ms)
  {
  }

  class Solution {
    const problem: Problem
    var path: seq<int>
    var used: set<int>
    var unused: set<int>
    var cost: int

    constructor(problem: Problem, path: seq<int>, used: set<int>, unused: set<int>, cost: int)
      ensures this.problem == problem && this.path == path && this.used == used
      ensures this.unused == unused && this.cost == cost
    {
      this.problem := problem;
      this.path := path;
      this.used := used;
      this.unused := unused;
      this.cost := cost;
    }

    /** is_feasible: the sequence holds n_items items. */
    predicate IsFeasible()
      reads this
    {
      |path| == problem.nItems
    }

    /** objective: the cost, defined exactly for a complete sequence. */
    function Objective(): (r: Option<int>)
      reads this
      ensures r.Some? <==> IsFeasible()
      ensures r.Some? ==> r.value == cost
    {
      if |path| == problem.nItems then Some(cost) else None
    }

    /** lower_bound: the cost so far, whether or not the sequence is complete. */
    function LowerBound(): (r: Option<int>)
      reads this
    {
      Some(cost)
    }

    /** The bound is always defined and is exact on a complete sequence. */
    lemma LowerBoundExact()
      ensures LowerBound().Some?
      ensures IsFeasible() ==> LowerBound() == Objective()
    {
    }

    /** copy: a new solution with copies of path, used and unused, so changes to the copy leave
        this one as it was. */
    method Copy() returns (c: Solution)
      ensures fresh(c) && c != this
      ensures c.problem == problem && c.path == path && c.used == used && c.unused == unused && c.cost == cost
    {
      c := new Solution(problem, path, used, unused, cost);
    }

    /** add_moves: one Component(k) per unused item while the sequence is short, in the set's
        iteration order; nothing once it is complete. */
    method AddMoves() returns (ms: seq<Component>)
      ensures |path| < problem.nItems ==> Distinct(ms) && forall c :: c in ms <==> c.k in unused
      ensures |path| < problem.nItems ==> |ms| == |unused|
      ensures |path| >= problem.nItems ==> ms == []
    {
      ms := [];
      if |path| < problem.nItems {
        var rest := unused;
        while rest != {}
          invariant rest <= unused
          invariant forall c :: c in ms <==> c.k in unused && c.k !in rest
          invariant Distinct(ms) && |ms| + |rest| == |unused|
          decreases |rest|
        {
          var k := Pick(rest);
          ms := ms + [Component(k)];
          rest := rest - {k};
        }
      }
    }

    /** local_moves: for i in 0 .. len-3 and j in i+1 .. len-2, LocalMove(i, j). Every local
        move once, in increasing lexicographic order. */
    method LocalMoves() returns (ms: seq<LocalMove>)
      ensures forall m :: m in ms <==> InRange(m, |path|)
      ensures forall a, b :: 0 <= a < b < |ms| ==> LexLess(ms[a], ms[b])
      ensures EnumeratesMoves(ms, |path|)
    {
      var len := |path|;
      ms := [];
      var i := 0;
      while i < len - 2
        invariant 0 <= i && (len >= 2 ==> i <= len - 2)
        invariant forall m :: m in ms <==> InRange(m, len) && m.i < i
        invariant forall a, b :: 0 <= a < b < |ms| ==> LexLess(ms[a], ms[b])
        invariant forall a :: 0 <= a < |ms| ==> ms[a].i < i
        decreases len - 2 - i
      {
        var j := i + 1;
        while j < len - 1
          invariant i + 1 <= j <= len - 1
          invariant forall m :: m in ms <==> InRange(m, len) && (m.i < i || (m.i == i && m.j < j))
          invariant forall a, b :: 0 <= a < b < |ms| ==> LexLess(ms[a], ms[b])
          invariant forall a :: 0 <= a < |ms| ==> LexLess(ms[a], LocalMove(i, j))
          decreases len - 1 - j
        {
          ms := ms + [LocalMove(i, j)];
          j := j + 1;
        }
        i := i + 1;
      }
      IncreasingIsDistinct(ms);
    }

    /** random_local_moves_wor: the pairs (i, j) of sample2(len-1, len-1) with j > i, in the
        sampled order; cDraw and xDraw are the generator's two random draws. Every local move
        once, so it is local_moves in another order. */
    method RandomLocalMovesWor(cDraw: nat, xDraw: nat) returns (ms: seq<LocalMove>)
      ensures ms == Forward(Sample2Pairs(|path| - 1, |path| - 1, cDraw, xDraw))
      ensures EnumeratesMoves(ms, |path|)
    {
      var len := |path|;
      var pairs := Sample2(len - 1, len - 1, cDraw, xDraw);
      ForwardEnumerates(pairs, len);
      ms := KeepForward(pairs);
    }
  }
}
