/** The waste-collection evaluator (src/evaluators/waste_collection.py): it reads the instance,
    reads a route as lines "container direction" (containers numbered from 1), validates it and
    returns its cost, or None for an invalid route. */
module WasteCollectionEvaluator {
  import opened Wrappers
  import opened Text
  import WasteCollection

  type Dir = WasteCollection.Dir

  /** The instance as evaluate reads it: `dist[p][c]` is the table for a link leaving a
      container in direction p and entering the next in direction c. */
  datatype Instance = Instance(
    n: int,
    depot: seq<seq<int>>,
    plant: seq<seq<int>>,
    dist: seq<seq<seq<seq<int>>>>)

  /** Reading the instance from n and the lines after the first: two depot rows, two plant
      rows, then the blocks d00, d01, d11 and d10 of n lines each (none for a negative n);
      dist pairs them as [[d00, d01], [d10, d11]]. */
  function Read(n: int, rows: seq<seq<int>>): (inst: Instance)
    ensures |inst.depot| == 2 && |inst.plant| == 2
    ensures |inst.dist| == 2 && |inst.dist[0]| == 2 && |inst.dist[1]| == 2
  {
    var m := if n < 0 then 0 else n;
    var d00, d01, d11, d10 := Block(rows, 4, m), Block(rows, 4 + m, m), Block(rows, 4 + 2 * m, m), Block(rows, 4 + 3 * m, m);
    Instance(n, [Row(rows, 0), Row(rows, 1)], [Row(rows, 2), Row(rows, 3)], [[d00, d01], [d10, d11]])
  }

  /** The evaluator's tables and the framework's hold the same entries: dist[p][c] is the
      framework's table of direction index 2p + c. */
  ghost predicate SameTables(inst: Instance, pr: WasteCollection.Problem)
  {
    inst.depot == pr.depot && inst.plant == pr.plant &&
    |inst.dist| == 2 && |inst.dist[0]| == 2 && |inst.dist[1]| == 2 && |pr.links| == 4 &&
    forall p: Dir, c: Dir :: inst.dist[p][c] == pr.links[WasteCollection.DirIndex(p, c)]
  }

  /** The framework's parser and the evaluator read the same file into the same tables. */
  lemma LayoutAgrees(n: int, rows: seq<seq<int>>)
    requires n >= 0
    ensures SameTables(Read(n, rows), WasteCollection.Layout(n, rows))
  {
    forall p: Dir, c: Dir
      ensures Read(n, rows).dist[p][c] == WasteCollection.Layout(n, rows).links[WasteCollection.DirIndex(p, c)]
    {
      assert 4 + 3 * n == 4 + 3 * n;
    }
  }

  /** The output lines that parse as exactly two integers, in order; every other line is
      skipped. */
  function Kept(lines: seq<Line>): (r: seq<seq<int>>)
    ensures |r| <= |lines|
    ensures forall i :: 0 <= i < |r| ==> |r[i]| == 2
    decreases |lines|
  {
    if lines == [] then []
    else
      var l := lines[|lines| - 1];
      Kept(lines[..|lines| - 1]) + (if l.Ints? && |l.xs| == 2 then [l.xs] else [])
  }

  /** A kept line names a valid visit: a direction 0 or 1 and a container in [1, n]. */
  predicate ValidVisit(x: seq<int>, n: int)
  {
    |x| == 2 && 0 <= x[1] <= 1 && 1 <= x[0] <= n
  }

  /** The route read from the output, as (container from 0, direction) visits; None as soon as
      a kept line has a direction outside {0, 1} or a container outside [1, n]. */
  function Path(lines: seq<Line>, n: int): (r: Option<seq<(nat, Dir)>>)
    decreases |lines|
  {
    if lines == [] then Some([])
    else
      var p := Path(lines[..|lines| - 1], n);
      var l := lines[|lines| - 1];
      if p.None? then None
      else if !(l.Ints? && |l.xs| == 2) then p
      else if l.xs[1] < 0 || l.xs[1] > 1 then None
      else if l.xs[0] < 1 || l.xs[0] > n then None
      else
        var v: (nat, Dir) := (l.xs[0] - 1, l.xs[1]);
        Some(p.value + [v])
  }

  /** Every kept line is a valid visit. */
  predicate AllValid(ks: seq<seq<int>>, n: int)
  {
    forall i :: 0 <= i < |ks| ==> ValidVisit(ks[i], n)
  }

  lemma AllValidSnoc(ks: seq<seq<int>>, x: seq<int>, n: int)
    ensures AllValid(ks + [x], n) <==> AllValid(ks, n) && ValidVisit(x, n)
  {
    var kx := ks + [x];
    assert forall i :: 0 <= i < |ks| ==> kx[i] == ks[i];
    if !ValidVisit(x, n) {
      assert !ValidVisit(kx[|ks|], n);
    }
    if !AllValid(ks, n) {
      var j :| 0 <= j < |ks| && !ValidVisit(ks[j], n);
      assert !ValidVisit(kx[j], n);
    }
  }

  /** The route is rejected exactly when some kept line is not a valid visit, and otherwise it
      is the kept lines, in order, with containers renumbered from 0. */
  lemma {:induction false} PathIsKept(lines: seq<Line>, n: int)
    ensures Path(lines, n).Some? <==> AllValid(Kept(lines), n)
    ensures Path(lines, n).Some? ==>
              |Path(lines, n).value| == |Kept(lines)| &&
              forall i :: 0 <= i < |Kept(lines)| ==>
                Path(lines, n).value[i] == (Kept(lines)[i][0] - 1, Kept(lines)[i][1])
    decreases |lines|
  {
    if lines != [] {
      var q, l := lines[..|lines| - 1], lines[|lines| - 1];
      PathIsKept(q, n);
      var kq := Kept(q);
      if l.Ints? && |l.xs| == 2 {
        assert Kept(lines) == kq + [l.xs];
        AllValidSnoc(kq, l.xs, n);
        if Path(lines, n).Some? {
          var pq := Path(q, n).value;
          assert Path(lines, n).value == pq + [(l.xs[0] - 1, l.xs[1])];
          forall i | 0 <= i < |Kept(lines)|
            ensures Path(lines, n).value[i] == (Kept(lines)[i][0] - 1, Kept(lines)[i][1])
          {
            if i < |kq| {
              assert Kept(lines)[i] == kq[i];
            }
          }
        }
      } else {
        assert Kept(lines) == kq;
      }
    }
  }

  /** Once a line is rejected, the whole output is. */
  lemma {:induction false} PathRejected(lines: seq<Line>, n: int, i: nat)
    requires i <= |lines| && Path(lines[..i], n).None?
    ensures Path(lines, n).None?
    decreases |lines| - i
  {
    if i < |lines| {
      assert lines[..i + 1][..i] == lines[..i];
      PathRejected(lines, n, i + 1);
    } else {
      assert lines[..i] == lines;
    }
  }

  /** The cost of the link into visit i, or IndexError when the table lacks the entry. */
  function Hop(inst: Instance, path: seq<(nat, Dir)>, i: nat): Run<int>
    requires 1 <= i < |path|
  {
    var prv, nxt := path[i - 1], path[i];
    if prv.1 < |inst.dist| && nxt.1 < |inst.dist[prv.1]| then At(inst.dist[prv.1][nxt.1], prv.0, nxt.0)
    else Raised(IndexError)
  }

  /** The links into visits 1 .. k-1, summed in order; a link of cost -1 (no connection) makes
      the route invalid (None) unless an earlier link was missing from its table. */
  function Hops(inst: Instance, path: seq<(nat, Dir)>, k: nat): (r: Run<Option<int>>)
    requires 1 <= k <= |path|
    ensures r.Raised? ==> r.error == IndexError
  {
    if k == 1 then Ok(Some(0))
    else
      var p := Hops(inst, path, k - 1);
      if p.Raised? || p.value.None? then p
      else
        var h := Hop(inst, path, k - 1);
        if h.Raised? then Raised(h.error)
        else if h.value == -1 then Ok(None)
        else Ok(Some(p.value.value + h.value))
  }

  /** The cost of a route: the depot leg of the first visit and the plant leg of the last, then
      the links in order. An empty route raises IndexError (path[0]). */
  function Cost(inst: Instance, path: seq<(nat, Dir)>): (r: Run<Option<int>>)
    ensures r.Raised? ==> r.error == IndexError
  {
    if path == [] then Raised(IndexError)
    else
      Combined(Plus(At(inst.depot, path[0].1, path[0].0), At(inst.plant, path[|path| - 1].1, path[|path| - 1].0)),
               Hops(inst, path, |path|))
  }

  /** The legs' sum `start` plus the links' sum, or the first exception or missing link. */
  function Combined(start: Run<int>, hops: Run<Option<int>>): Run<Option<int>>
  {
    if start.Raised? then Raised(start.error)
    else match hops
      case Ok(Some(v)) => Ok(Some(start.value + v))
      case other => other
  }

  /** evaluate(inputfile, outputfile), as a result. */
  function Evaluation(n: int, rows: seq<seq<int>>, lines: seq<Line>): Run<Option<int>>
  {
    match Path(lines, n)
    case None => Ok(None)
    case Some(p) => if |p| != n then Ok(None) else Cost(Read(n, rows), p)
  }

  /** Once the links have raised or met a missing connection, the outcome stays. */
  lemma {:induction false} HopsStuck(inst: Instance, path: seq<(nat, Dir)>, k: nat, k': nat)
    requires 1 <= k <= k' <= |path|
    requires Hops(inst, path, k).Raised? || Hops(inst, path, k).value.None?
    ensures Hops(inst, path, k') == Hops(inst, path, k)
    decreases k' - k
  {
    if k < k' {
      HopsStuck(inst, path, k, k' - 1);
    }
  }

  /** The first half of evaluate: the route, built line by line; a kept line with a bad
      direction or container ends it with None. */
  method ReadPath(lines: seq<Line>, n: int) returns (r: Option<seq<(nat, Dir)>>)
    ensures r == Path(lines, n)
  {
    var path: seq<(nat, Dir)> := [];
    for i := 0 to |lines|
      invariant Path(lines[..i], n) == Some(path)
    {
      assert lines[..i + 1][..i] == lines[..i];
      var line := lines[i];
      if !(line.Ints? && |line.xs| == 2) {
        continue;
      }
      var a, b := line.xs[0], line.xs[1];
      if b < 0 || b > 1 {
        PathRejected(lines, n, i + 1);
        return None;
      }
      if a < 1 || a > n {
        PathRejected(lines, n, i + 1);
        return None;
      }
      var v: (nat, Dir) := (a - 1, b);
      path := path + [v];
    }
    assert lines[..|lines|] == lines;
    r := Some(path);
  }

  /** The second half of evaluate: the depot and plant legs, then the links in order. */
  method RouteCost(inst: Instance, path: seq<(nat, Dir)>) returns (r: Run<Option<int>>)
    ensures r == Cost(inst, path)
  {
    if |path| == 0 {
      return Raised(IndexError);
    }
    var first := At(inst.depot, path[0].1, path[0].0);
    var last := At(inst.plant, path[|path| - 1].1, path[|path| - 1].0);
    if first.Raised? || last.Raised? {
      return Raised(IndexError);
    }
    var start := first.value + last.value;
    var d := start;
    for i := 1 to |path|
      invariant Hops(inst, path, i) == Ok(Some(d - start))
    {
      var aux := Hop(inst, path, i);
      if aux.Raised? {
        HopsStuck(inst, path, i + 1, |path|);
        return Raised(IndexError);
      }
      if aux.value == -1 {
        HopsStuck(inst, path, i + 1, |path|);
        return Ok(None);
      }
      d := d + aux.value;
    }
    r := Ok(Some(d));
  }

  /** evaluate: reads the route, checks that it has n visits, and costs it. */
  method Evaluate(n: int, rows: seq<seq<int>>, lines: seq<Line>) returns (r: Run<Option<int>>)
    ensures r == Evaluation(n, rows, lines)
  {
    var inst := Read(n, rows);
    var path := ReadPath(lines, n);
    if path.None? || |path.value| != n {
      return Ok(None);
    }
    r := RouteCost(inst, path.value);
  }

  // ------------------------------------------------------------------ properties

  /** A route is accepted only if it has exactly n visits, all valid, and uses no link of cost
      -1. */
  lemma Accepted(n: int, rows: seq<seq<int>>, lines: seq<Line>)
    requires Evaluation(n, rows, lines).Ok? && Evaluation(n, rows, lines).value.Some?
    ensures |Kept(lines)| == n
    ensures AllValid(Kept(lines), n)
    ensures forall i :: 1 <= i < n ==> Hop(Read(n, rows), Path(lines, n).value, i) != Ok(-1)
  {
    PathIsKept(lines, n);
    var path := Path(lines, n).value;
    forall i | 1 <= i < n ensures Hop(Read(n, rows), path, i) != Ok(-1) {
      HopsNoClosedLink(Read(n, rows), path, n, i);
    }
  }

  /** When the links up to k sum to a value, none of them is a missing connection. */
  lemma {:induction false} HopsNoClosedLink(inst: Instance, path: seq<(nat, Dir)>, k: nat, i: nat)
    requires 1 <= i < k <= |path|
    requires Hops(inst, path, k).Ok? && Hops(inst, path, k).value.Some?
    ensures Hop(inst, path, i) != Ok(-1)
    decreases k
  {
    if i < k - 1 {
      HopsNoClosedLink(inst, path, k - 1, i);
    }
  }

  /** A route that visits a container twice is not rejected for it: with n = 2 and all tables
      zero, visiting container 1 twice in direction 0 costs 0. */
  lemma RepeatsAccepted()
    ensures Evaluation(2, [[0, 0], [0, 0], [0, 0], [0, 0], [0, 0], [0, 0], [0, 0], [0, 0], [0, 0], [0, 0], [0, 0], [0, 0]],
                       [Ints([1, 0]), Ints([1, 0])]) == Ok(Some(0))
  {
    var rows := [[0, 0], [0, 0], [0, 0], [0, 0], [0, 0], [0, 0], [0, 0], [0, 0], [0, 0], [0, 0], [0, 0], [0, 0]];
    var lines := [Ints([1, 0]), Ints([1, 0])];
    var one := [Ints([1, 0])];
    assert lines[..1] == one && one[..0] == [];
    assert Path([], 2) == Some([]);
    var v: (nat, Dir) := (0, 0);
    assert Path(one, 2) == Some([] + [v]);
    assert [] + [v] == [v];
    assert lines[..1] == one;
    var l := lines[1];
    assert l.Ints? && |l.xs| == 2 && !(l.xs[1] < 0 || l.xs[1] > 1) && !(l.xs[0] < 1 || l.xs[0] > 2);
    assert Path(lines, 2) == Some([v] + [v]);
    assert Read(2, rows).dist[0][0] == [[0, 0], [0, 0]];
  }

  // ------------------------------------------------------------------ agreement with the encoding

  /** The output a route of the encoding is written as: one line "container+1 direction" per
      visit. */
  function Lines(cs: seq<nat>, ds: seq<Dir>): (r: seq<Line>)
    requires |cs| == |ds|
    ensures |r| == |cs|
  {
    seq(|cs|, i requires 0 <= i < |cs| => Ints([cs[i] + 1, ds[i]]))
  }

  /** The route's visits, paired. */
  function Visits(cs: seq<nat>, ds: seq<Dir>): (r: seq<(nat, Dir)>)
    requires |cs| == |ds|
    ensures |r| == |cs|
  {
    seq(|cs|, i requires 0 <= i < |cs| => (cs[i], ds[i]))
  }

  /** The evaluator reads back the route it is given when every container is below n. */
  lemma {:induction false} PathOfRoute(cs: seq<nat>, ds: seq<Dir>, n: int)
    requires |cs| == |ds| && forall i :: 0 <= i < |cs| ==> cs[i] < n
    ensures Path(Lines(cs, ds), n) == Some(Visits(cs, ds))
    decreases |cs|
  {
    if cs != [] {
      var k := |cs| - 1;
      assert Lines(cs, ds)[..k] == Lines(cs[..k], ds[..k]);
      assert Visits(cs, ds) == Visits(cs[..k], ds[..k]) + [(cs[k], ds[k])];
      PathOfRoute(cs[..k], ds[..k], n);
    }
  }

  /** No link of the route is a missing connection (-1) in the framework's tables. */
  ghost predicate NoClosedLink(pr: WasteCollection.Problem, cs: seq<nat>, ds: seq<Dir>)
    requires |cs| == |ds|
  {
    forall i :: 1 <= i < |cs| ==> WasteCollection.Link(pr, cs, ds, i) != Ok(-1)
  }

  /** With the same tables, the evaluator's links are the framework's links. */
  lemma {:induction false} HopsAreLinks(inst: Instance, pr: WasteCollection.Problem, cs: seq<nat>, ds: seq<Dir>, k: nat)
    requires SameTables(inst, pr) && |cs| == |ds| && 1 <= k <= |cs|
    requires NoClosedLink(pr, cs, ds)
    ensures var l := WasteCollection.Links(pr, cs, ds, k);
            Hops(inst, Visits(cs, ds), k) == (if l.Ok? then Ok(Some(l.value)) else Raised(l.error))
    decreases k
  {
    if k > 1 {
      HopsAreLinks(inst, pr, cs, ds, k - 1);
      HopIsLink(inst, pr, cs, ds, k - 1);
    }
  }

  /** With the same tables, the evaluator's link into visit i is the framework's. */
  lemma HopIsLink(inst: Instance, pr: WasteCollection.Problem, cs: seq<nat>, ds: seq<Dir>, i: nat)
    requires SameTables(inst, pr) && |cs| == |ds| && 1 <= i < |cs|
    ensures Hop(inst, Visits(cs, ds), i) == WasteCollection.Link(pr, cs, ds, i)
  {
    var p, c := ds[i - 1], ds[i];
    assert Visits(cs, ds)[i - 1] == (cs[i - 1], p) && Visits(cs, ds)[i] == (cs[i], c);
    assert inst.dist[p][c] == pr.links[WasteCollection.DirIndex(p, c)];
  }

  /** With the same tables, the evaluator's cost of a route is the framework's route cost,
      as long as the route uses no link of cost -1. */
  lemma CostAgrees(inst: Instance, pr: WasteCollection.Problem, cs: seq<nat>, ds: seq<Dir>)
    requires SameTables(inst, pr) && |cs| == |ds| >= 1
    requires NoClosedLink(pr, cs, ds)
    ensures Cost(inst, Visits(cs, ds)) ==
            match WasteCollection.RouteCost(pr, cs, ds)
            case Ok(x) => Ok(Some(x))
            case Raised(e) => Raised(e)
  {
    var n, v := |cs|, Visits(cs, ds);
    var dep, pla := At(pr.depot, ds[0], cs[0]), At(pr.plant, ds[n - 1], cs[n - 1]);
    var lk := WasteCollection.Links(pr, cs, ds, n);
    assert Cost(inst, v) == Combined(Plus(dep, pla), Hops(inst, v, n)) by {
      assert v[0] == (cs[0], ds[0]) && v[n - 1] == (cs[n - 1], ds[n - 1]);
    }
    assert Hops(inst, v, n) == (if lk.Ok? then Ok(Some(lk.value)) else Raised(lk.error)) by {
      HopsAreLinks(inst, pr, cs, ds, n);
    }
    assert WasteCollection.RouteCost(pr, cs, ds) == Plus(Plus(dep, lk), pla);
    SumsAgree(dep, pla, lk, Hops(inst, v, n));
  }

  /** The evaluator and the framework agree: a complete route of n containers, written out
      line by line, evaluates to the framework's objective (or the same IndexError), as long as
      it uses no link of cost -1, which only the evaluator rejects. */
  lemma ObjectiveAgrees(n: int, rows: seq<seq<int>>, s: WasteCollection.Solution)
    requires WasteCollection.IsFeasible(s)
    requires |s.containers| == |s.directions| == n && n >= 1
    requires forall i :: 0 <= i < n ==> s.containers[i] < n
    requires NoClosedLink(WasteCollection.Layout(n, rows), s.containers, s.directions)
    ensures Evaluation(n, rows, Lines(s.containers, s.directions)) ==
            WasteCollection.ObjectiveOf(WasteCollection.Layout(n, rows), s)
  {
    var cs, ds := s.containers, s.directions;
    PathOfRoute(cs, ds, n);
    LayoutAgrees(n, rows);
    CostAgrees(Read(n, rows), WasteCollection.Layout(n, rows), cs, ds);
  }

  /** Adding the depot and plant legs first and the links after (the evaluator) or the links
      between them (the framework) gives the same sum, and the same IndexError when one of
      them is missing. */
  lemma SumsAgree(dep: Run<int>, pla: Run<int>, lk: Run<int>, hops: Run<Option<int>>)
    requires dep.Raised? ==> dep.error == IndexError
    requires pla.Raised? ==> pla.error == IndexError
    requires lk.Raised? ==> lk.error == IndexError
    requires hops == (if lk.Ok? then Ok(Some(lk.value)) else Raised(lk.error))
    ensures Combined(Plus(dep, pla), hops) ==
            (match Plus(Plus(dep, lk), pla)
             case Ok(x) => Ok(Some(x))
             case Raised(e) => Raised(e))
  {
  }
}
