/** The candle-race evaluator (src/evaluators/candle_race.py): starting from node 0, the
    runner visits the nodes the output lists, one per line; candle u, burning at rate b from
    height h, scores what is left of it, max(0, h - b * t), when reached after travelling a
    Manhattan distance t.
    Line numbers in the comments below are those of src/evaluators/candle_race.py. */
module CandleRaceEvaluator {
  import opened Wrappers
  import opened Utils
  import opened Text

  datatype Node = Node(x: int, y: int, h: int, b: int)

  /** The instance: n as read from the first line, then the nodes, node 0 being the start. */
  datatype Instance = Instance(n: int, nodes: seq<Node>)

  function AbsInt(v: int): (r: nat)
    ensures r == v || r == -v
  {
    if v < 0 then -v else v
  }

  /** manhattan_distance. */
  function Manhattan(u: Node, v: Node): (r: int)
    ensures r >= 0
    ensures r == 0 <==> u.x == v.x && u.y == v.y
  {
    AbsInt(u.x - v.x) + AbsInt(u.y - v.y)
  }

  /** The distance is symmetric and obeys the triangle inequality. */
  lemma ManhattanMetric(u: Node, v: Node, w: Node)
    ensures Manhattan(u, v) == Manhattan(v, u)
    ensures Manhattan(u, w) <= Manhattan(u, v) + Manhattan(v, w)
  {
  }

  /** What is left of candle u when it is reached at time t (never negative). */
  function Burn(u: Node, t: int): (r: int)
    ensures r >= 0 && r >= u.h - u.b * t
    ensures r == 0 || r == u.h - u.b * t
  {
    if u.h - u.b * t < 0 then 0 else u.h - u.b * t
  }

  /** candle_score(u, d, last): the candle at u, reached from last after d has already been
      travelled. */
  function CandleScore(u: Node, d: int, last: Node): (r: int)
    ensures r == Burn(u, d + Manhattan(last, u))
  {
    var s := u.h - u.b * (d + Manhattan(u, last));
    if 0 < s then s else 0
  }

  // ------------------------------------------------------------------ reading the instance

  /** Lines 35-41: a first line with exactly one integer n, a line with the start's two
      coordinates, then n - 1 lines of four integers x, y, h, b; any other shape raises the
      ValueError of int() or of the unpacking. */
  function ReadInput(rows: seq<seq<int>>): (r: Run<Instance>)
    ensures r.Raised? ==> r.error == ValueError
    ensures r.Ok? ==> |r.value.nodes| == (if r.value.n < 1 then 1 else r.value.n)
    ensures r.Ok? ==> r.value.nodes[0].h == 0 && r.value.nodes[0].b == 0
  {
    if |Row(rows, 0)| != 1 || |Row(rows, 1)| != 2 then Raised(ValueError)
    else
      var n := Row(rows, 0)[0];
      if !(forall i: nat :: 2 <= i <= n ==> |Row(rows, i)| == 4) then Raised(ValueError)
      else
        var start := Node(Row(rows, 1)[0], Row(rows, 1)[1], 0, 0);
        var m := if n < 1 then 0 else n - 1;
        Ok(Instance(n, [start] + Candles(rows, m)))
  }

  /** The m nodes after the start, from input lines 2 .. m + 1. */
  function Candles(rows: seq<seq<int>>, m: nat): (r: seq<Node>)
    requires forall i: nat :: 2 <= i < m + 2 ==> |Row(rows, i)| == 4
    ensures |r| == m
  {
    seq(m, k requires 0 <= k < m => NodeOf(Row(rows, k + 2)))
  }

  function NodeOf(r: seq<int>): Node
    requires |r| == 4
  {
    Node(r[0], r[1], r[2], r[3])
  }

  /** The reading loop of lines 36-41. */
  method Read(rows: seq<seq<int>>) returns (r: Run<Instance>)
    ensures r == ReadInput(rows)
  {
    if |Row(rows, 0)| != 1 || |Row(rows, 1)| != 2 {
      return Raised(ValueError);
    }
    var n := Row(rows, 0)[0];
    var nodes := [Node(Row(rows, 1)[0], Row(rows, 1)[1], 0, 0)];
    var m := if n < 1 then 0 else n - 1;
    for k := 0 to m
      invariant |nodes| == k + 1 && nodes[0] == Node(Row(rows, 1)[0], Row(rows, 1)[1], 0, 0)
      invariant forall i: nat :: 2 <= i < k + 2 ==> |Row(rows, i)| == 4
      invariant nodes == [nodes[0]] + Candles(rows, k)
    {
      var line := Row(rows, k + 2);
      if |line| != 4 {
        return Raised(ValueError);
      }
      assert Candles(rows, k + 1) == Candles(rows, k) + [NodeOf(line)];
      nodes := nodes + [NodeOf(line)];
    }
    return Ok(Instance(n, nodes));
  }

  // ------------------------------------------------------------------ reading the path

  /** Every node of the path is one of 1..n-1 (line 51). */
  predicate Targets(path: seq<int>, n: int)
  {
    forall t :: 0 <= t < |path| ==> 1 <= path[t] < n
  }

  // ------------------------------------------------------------------ the race

  /** Where the runner is after visiting path: node 0 before the first move. */
  function Here(nodes: seq<Node>, path: seq<int>): Node
    requires |nodes| >= 1 && forall t :: 0 <= t < |path| ==> 0 <= path[t] < |nodes|
  {
    if path == [] then nodes[0] else nodes[path[|path| - 1]]
  }

  /** The Manhattan length of the route from node 0 through the nodes of path, in order. */
  function Dist(nodes: seq<Node>, path: seq<int>): (r: int)
    requires |nodes| >= 1 && forall t :: 0 <= t < |path| ==> 0 <= path[t] < |nodes|
    ensures r >= 0
    decreases |path|
  {
    if path == [] then 0
    else
      var p := path[..|path| - 1];
      Dist(nodes, p) + Manhattan(Here(nodes, p), nodes[path[|path| - 1]])
  }

  /** The score of the route: each visited candle scores what is left of it when the runner
      reaches it, the time being the distance travelled so far. */
  function Score(nodes: seq<Node>, path: seq<int>): int
    requires |nodes| >= 1 && forall t :: 0 <= t < |path| ==> 0 <= path[t] < |nodes|
    decreases |path|
  {
    if path == [] then 0
    else Score(nodes, path[..|path| - 1]) + Burn(nodes[path[|path| - 1]], Dist(nodes, path))
  }

  /** The score is never negative. */
  lemma {:induction false} ScoreNonNegative(nodes: seq<Node>, path: seq<int>)
    requires |nodes| >= 1 && forall t :: 0 <= t < |path| ==> 0 <= path[t] < |nodes|
    ensures Score(nodes, path) >= 0
    decreases |path|
  {
    if path != [] {
      ScoreNonNegative(nodes, path[..|path| - 1]);
    }
  }

  /** The heights still to be won: the sum of max(0, h) over the nodes of path. */
  function Heights(nodes: seq<Node>, path: seq<int>): int
    requires |nodes| >= 1 && forall t :: 0 <= t < |path| ==> 0 <= path[t] < |nodes|
    decreases |path|
  {
    if path == [] then 0
    else
      var u := nodes[path[|path| - 1]];
      Heights(nodes, path[..|path| - 1]) + (if u.h < 0 then 0 else u.h)
  }

  /** While candles only burn down (b >= 0), no route scores more than the heights of the
      candles it visits. */
  lemma {:induction false} ScoreAtMostHeights(nodes: seq<Node>, path: seq<int>)
    requires |nodes| >= 1 && forall t :: 0 <= t < |path| ==> 0 <= path[t] < |nodes|
    requires forall k :: 0 <= k < |nodes| ==> nodes[k].b >= 0
    ensures Score(nodes, path) <= Heights(nodes, path)
    decreases |path|
  {
    if path != [] {
      var u := nodes[path[|path| - 1]];
      ScoreAtMostHeights(nodes, path[..|path| - 1]);
      assert u.b * Dist(nodes, path) >= 0;
    }
  }

  /** Lines 58-69: the race loop, keeping the score, the distance travelled, the count of
      candles that scored and the last node visited. */
  method Race(nodes: seq<Node>, path: seq<int>) returns (score: int)
    requires |nodes| >= 1 && forall t :: 0 <= t < |path| ==> 0 <= path[t] < |nodes|
    ensures score == Score(nodes, path)
  {
    score := 0;
    var dist := 0;
    var nonzero := 0;
    var last := nodes[0];
    for i := 0 to |path|
      invariant score == Score(nodes, path[..i]) && dist == Dist(nodes, path[..i])
      invariant last == Here(nodes, path[..i]) && 0 <= nonzero <= i
    {
      assert path[..i + 1][..i] == path[..i];
      var nxt := nodes[path[i]];
      var incr := CandleScore(nxt, dist, last);
      if incr > 0 {
        nonzero := nonzero + 1;
      }
      score := score + incr;
      dist := dist + Manhattan(last, nxt);
      last := nxt;
    }
    assert path[..|path|] == path;
  }

  /** evaluate(inputfile, outputfile) on the integer rows of the input and the lines of the
      output: the ValueError of a malformed input; None when a parsed node is outside 1..n-1
      or a node repeats; otherwise the score of the race. */
  function Evaluation(rows: seq<seq<int>>, lines: seq<Line>): Run<Option<int>>
  {
    match ReadInput(rows)
    case Raised(e) => Raised(e)
    case Ok(inst) =>
      var path := Parsed(lines);
      if !Targets(path, inst.n) then Ok(None)
      else if |Elems(path)| != |path| then Ok(None)
      else Ok(Some(Score(inst.nodes, path)))
  }

  /** A well-formed input scores an output exactly when the parsed nodes are distinct nodes of
      1..n-1; the score is then never negative. */
  lemma Scored(rows: seq<seq<int>>, lines: seq<Line>)
    requires ReadInput(rows).Ok?
    ensures Evaluation(rows, lines).Ok?
    ensures Evaluation(rows, lines).value.Some? <==>
              Targets(Parsed(lines), ReadInput(rows).value.n) && Distinct(Parsed(lines))
    ensures Evaluation(rows, lines).value.Some? ==> Evaluation(rows, lines).value.value >= 0
  {
    var inst := ReadInput(rows).value;
    var path := Parsed(lines);
    CardElems(path);
    if Targets(path, inst.n) {
      ScoreNonNegative(inst.nodes, path);
    }
  }

  /** An output with no node on a line of its own scores 0. */
  lemma NothingVisited(rows: seq<seq<int>>, lines: seq<Line>)
    requires ReadInput(rows).Ok? && Parsed(lines) == []
    ensures Evaluation(rows, lines) == Ok(Some(0))
  {
    assert Elems([]) == {};
  }

  /** Lines 43-56: reading the path, stopping at the first node out of range, then the repeat
      test. */
  method ReadPath(lines: seq<Line>, n: int) returns (r: Option<seq<int>>)
    ensures r.Some? <==> Targets(Parsed(lines), n) && |Elems(Parsed(lines))| == |Parsed(lines)|
    ensures r.Some? ==> r.value == Parsed(lines)
  {
    var path := [];
    for k := 0 to |lines|
      invariant path == Parsed(lines[..k]) && Targets(path, n)
    {
      assert lines[..k + 1][..k] == lines[..k];
      var line := lines[k];
      if line.Ints? && |line.xs| == 1 {
        path := path + [line.xs[0]];
        if path[|path| - 1] >= n || path[|path| - 1] < 1 {
          ParsedPrefix(lines, k + 1);
          assert Parsed(lines)[|path| - 1] == path[|path| - 1];
          return None;
        }
      }
    }
    assert lines[..|lines|] == lines;
    if |set v | v in path| != |path| {
      assert (set v | v in path) == Elems(path);
      return None;
    }
    assert (set v | v in path) == Elems(path);
    return Some(path);
  }

  /** The evaluator on the integer rows of the input and the lines of the output. */
  method Evaluate(rows: seq<seq<int>>, lines: seq<Line>) returns (r: Run<Option<int>>)
    ensures r == Evaluation(rows, lines)
  {
    var read := Read(rows);
    if read.Raised? {
      return Raised(read.error);
    }
    var inst := read.value;
    var path := ReadPath(lines, inst.n);
    if path.None? {
      return Ok(None);
    }
    var score := Race(inst.nodes, path.value);
    return Ok(Some(score));
  }
}
