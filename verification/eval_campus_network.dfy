/** The campus-network evaluator (src/evaluators/campus_network.py): the output file lists the
    cable links of a network over n buildings, which must form a spanning tree rooted at
    building 1; the cost is c0 times the total cable (every building cabled to the root along
    its own path) plus c1 times the total trench (every link dug once).
    Line numbers in the comments below are those of src/evaluators/campus_network.py. */
module CampusNetworkEvaluator {
  import opened Wrappers
  import opened Utils
  import opened Text
  import opened CampusNetworkTree

  /** A token of the input file as int() and float() see it: an integer literal (which both
      accept), another number literal (only float() accepts it) or anything else. */
  datatype Token = IntTok(i: int) | FloatTok(f: real) | Other

  function AsFloat(t: Token): real
    requires !t.Other?
  {
    if t.IntTok? then t.i as real else t.f
  }

  datatype Instance = Instance(n: int, c0: real, c1: real, nodes: seq<Node>)

  /** A node line: exactly two numbers, as `x, y = map(float, ...)` demands. */
  predicate IsPoint(row: seq<Token>)
  {
    |row| == 2 && !row[0].Other? && !row[1].Other?
  }

  function PointOf(row: seq<Token>): Node
    requires IsPoint(row)
  {
    Node(AsFloat(row[0]), AsFloat(row[1]))
  }

  /** Input lines 1..n are node lines (a missing line reads as empty and fails). */
  predicate Points(rows: seq<seq<Token>>, n: int)
  {
    forall l: nat :: 1 <= l <= n ==> IsPoint(Row(rows, l))
  }

  function Coordinates(rows: seq<seq<Token>>, n: int): (r: seq<Node>)
    requires Points(rows, n)
    ensures |r| == (if n < 0 then 0 else n)
    ensures forall j :: 0 <= j < |r| ==> r[j] == PointOf(Row(rows, j + 1))
  {
    if n <= 0 then [] else seq(n, j requires 0 <= j < n => PointOf(Row(rows, j + 1)))
  }

  /** Lines 33-41: the header must hold exactly three values (AssertionError otherwise), the
      first an integer n and the other two the numbers c0 and c1, followed by n node lines;
      any other malformed value raises ValueError. */
  function ReadInput(rows: seq<seq<Token>>): (r: Run<Instance>)
    ensures r == Raised(AssertionError) <==> |Row(rows, 0)| != 3
    ensures r.Raised? ==> r.error == AssertionError || r.error == ValueError
    ensures r.Ok? <==>
              |Row(rows, 0)| == 3 && Row(rows, 0)[0].IntTok? && !Row(rows, 0)[1].Other? &&
              !Row(rows, 0)[2].Other? && Points(rows, Row(rows, 0)[0].i)
    ensures r.Ok? ==> r.value.n == Row(rows, 0)[0].i
    ensures r.Ok? ==> |r.value.nodes| == (if r.value.n < 0 then 0 else r.value.n)
  {
    var header := Row(rows, 0);
    if |header| != 3 then Raised(AssertionError)
    else if !header[0].IntTok? || header[1].Other? || header[2].Other? then Raised(ValueError)
    else if !Points(rows, header[0].i) then Raised(ValueError)
    else Ok(Instance(header[0].i, AsFloat(header[1]), AsFloat(header[2]), Coordinates(rows, header[0].i)))
  }

  /** Lines 33-41 as a loop over the node lines. */
  method Read(rows: seq<seq<Token>>) returns (r: Run<Instance>)
    ensures r == ReadInput(rows)
  {
    var header := Row(rows, 0);
    if |header| != 3 {
      return Raised(AssertionError);
    }
    if !header[0].IntTok? || header[1].Other? || header[2].Other? {
      return Raised(ValueError);
    }
    var n := header[0].i;
    var nodes := [];
    var count := if n < 0 then 0 else n;
    for i := 0 to count
      invariant Points(rows, i)
      invariant nodes == Coordinates(rows, i)
    {
      var row := Row(rows, i + 1);
      if !IsPoint(row) {
        return Raised(ValueError);
      }
      nodes := nodes + [PointOf(row)];
    }
    return Ok(Instance(n, AsFloat(header[1]), AsFloat(header[2]), nodes));
  }

  /** The output lines that are exactly two integers, as the pairs (u, v) they name; every
      other line is skipped (line 48). */
  function Links(lines: seq<Line>): (r: seq<(int, int)>)
    ensures |r| <= |lines|
    decreases |lines|
  {
    if lines == [] then []
    else
      var l := lines[|lines| - 1];
      Links(lines[..|lines| - 1]) + (if l.Ints? && |l.xs| == 2 then [(l.xs[0], l.xs[1])] else [])
  }

  /** Reading more lines only extends the links read. */
  lemma {:induction false} LinksPrefix(lines: seq<Line>, k: nat)
    requires k <= |lines|
    ensures Links(lines[..k]) <= Links(lines)
    decreases |lines|
  {
    if k < |lines| {
      var p := lines[..|lines| - 1];
      assert p[..k] == lines[..k];
      LinksPrefix(p, k);
    } else {
      assert lines[..k] == lines;
    }
  }

  /** One more line adds its link, if it has one. */
  lemma LinksSnoc(lines: seq<Line>, t: nat)
    requires t < |lines|
    ensures var l := lines[t];
            Links(lines[..t + 1]) == Links(lines[..t]) + (if l.Ints? && |l.xs| == 2 then [(l.xs[0], l.xs[1])] else [])
  {
    assert lines[..t + 1][..t] == lines[..t];
  }

  /** Both endpoints of every link are buildings 1..n. */
  predicate InRange(ls: seq<(int, int)>, n: int)
  {
    forall k :: 0 <= k < |ls| ==> 1 <= ls[k].0 <= n && 1 <= ls[k].1 <= n
  }

  /** Line 44: n empty adjacency lists. */
  function NoLinks(n: nat): (con: seq<seq<int>>)
    ensures |con| == n && forall a :: 0 <= a < n ==> con[a] == []
  {
    if n == 0 then [] else NoLinks(n - 1) + [[]]
  }

  /** The adjacency lists `con` after recording the links of ls in order (0-based nodes). */
  function Adjacency(ls: seq<(int, int)>, n: int): (con: seq<seq<int>>)
    requires InRange(ls, n)
    ensures |con| == (if n < 0 then 0 else n)
    decreases |ls|
  {
    if ls == [] then NoLinks(if n < 0 then 0 else n)
    else
      var p := ls[..|ls| - 1];
      assert InRange(p, n);
      var (u, v) := ls[|ls| - 1];
      var c := Adjacency(p, n);
      var c' := c[u - 1 := c[u - 1] + [v - 1]];
      c'[v - 1 := c'[v - 1] + [u - 1]]
  }

  /** Recording one more link appends each endpoint to the other's list. */
  lemma AdjacencySnoc(ls: seq<(int, int)>, n: int, u: int, v: int)
    requires InRange(ls, n) && 1 <= u <= n && 1 <= v <= n
    ensures InRange(ls + [(u, v)], n)
    ensures var c := Adjacency(ls, n);
            var c' := c[u - 1 := c[u - 1] + [v - 1]];
            Adjacency(ls + [(u, v)], n) == c'[v - 1 := c'[v - 1] + [u - 1]]
  {
    assert (ls + [(u, v)])[..|ls|] == ls;
  }

  /** Nodes a and b (0-based) are linked by the output, in either direction. */
  predicate Joined(ls: seq<(int, int)>, a: int, b: int)
  {
    (a + 1, b + 1) in ls || (b + 1, a + 1) in ls
  }

  /** Lines 58-59: b is in a's adjacency list exactly when some link joins a and b; so every
      link is recorded at both of its endpoints. */
  lemma {:induction false} AdjacencyRecords(ls: seq<(int, int)>, n: int, a: int, b: int)
    requires InRange(ls, n) && 0 <= a < n
    ensures b in Adjacency(ls, n)[a] <==> Joined(ls, a, b)
    decreases |ls|
  {
    if ls != [] {
      var p := ls[..|ls| - 1];
      var (u, v) := ls[|ls| - 1];
      assert InRange(p, n);
      AdjacencyRecords(p, n, a, b);
      RecordedAt(Adjacency(p, n), u - 1, v - 1, a, b);
      JoinedSnoc(ls, a, b);
    }
  }

  /** The last link joins a and b, or an earlier one does. */
  lemma JoinedSnoc(ls: seq<(int, int)>, a: int, b: int)
    requires ls != []
    ensures Joined(ls, a, b) <==>
              Joined(ls[..|ls| - 1], a, b) || ls[|ls| - 1] == (a + 1, b + 1) || ls[|ls| - 1] == (b + 1, a + 1)
  {
    assert ls == ls[..|ls| - 1] + [ls[|ls| - 1]];
  }

  /** After recording the link u-v, b is in a's list exactly when it was before or the link
      joins a and b. */
  lemma RecordedAt(c: seq<seq<int>>, u: int, v: int, a: int, b: int)
    requires 0 <= u < |c| && 0 <= v < |c| && 0 <= a < |c|
    ensures var c' := c[u := c[u] + [v]];
            b in c'[v := c'[v] + [u]][a] <==> b in c[a] || (a == u && b == v) || (a == v && b == u)
  {
  }

  /** Every adjacency list names nodes 0..n-1 only, and the lists are symmetric. */
  lemma AdjacencySymmetric(ls: seq<(int, int)>, n: int, a: int, b: int)
    requires InRange(ls, n) && 0 <= a < n
    ensures b in Adjacency(ls, n)[a] ==> 0 <= b < n && a in Adjacency(ls, n)[b]
  {
    AdjacencyRecords(ls, n, a, b);
    if b in Adjacency(ls, n)[a] {
      var k :| 0 <= k < |ls| && (ls[k] == (a + 1, b + 1) || ls[k] == (b + 1, a + 1));
      AdjacencyRecords(ls, n, b, a);
    }
  }

  /** A line that is not two integers adds no link. */
  lemma LineSkipped(lines: seq<Line>, t: nat)
    requires t < |lines| && !(lines[t].Ints? && |lines[t].xs| == 2)
    ensures Links(lines[..t + 1]) == Links(lines[..t])
  {
    LinksSnoc(lines, t);
  }

  /** A link naming a building outside 1..n puts the whole output out of range. */
  lemma LineOutOfRange(lines: seq<Line>, n: int, t: nat)
    requires t < |lines| && lines[t].Ints? && |lines[t].xs| == 2
    requires !(1 <= lines[t].xs[0] <= n && 1 <= lines[t].xs[1] <= n)
    ensures !InRange(Links(lines), n)
  {
    LinksSnoc(lines, t);
    LinksPrefix(lines, t + 1);
    var ls := Links(lines[..t]);
    assert Links(lines)[|ls|] == (lines[t].xs[0], lines[t].xs[1]);
  }

  /** A link within 1..n is recorded at both of its endpoints. */
  lemma LineRecorded(lines: seq<Line>, n: int, t: nat, u: int, v: int)
    requires t < |lines| && lines[t].Ints? && lines[t].xs == [u, v]
    requires InRange(Links(lines[..t]), n) && 1 <= u <= n && 1 <= v <= n
    ensures InRange(Links(lines[..t + 1]), n)
    ensures var c := Adjacency(Links(lines[..t]), n);
            var c' := c[u - 1 := c[u - 1] + [v - 1]];
            Adjacency(Links(lines[..t + 1]), n) == c'[v - 1 := c'[v - 1] + [u - 1]]
  {
    LinksSnoc(lines, t);
    AdjacencySnoc(Links(lines[..t]), n, u, v);
  }

  /** Lines 44-59: the adjacency lists, or None as soon as a link names a building outside
      1..n. */
  method BuildAdjacency(lines: seq<Line>, n: int) returns (r: Option<seq<seq<int>>>)
    ensures r.None? <==> !InRange(Links(lines), n)
    ensures r.Some? ==> InRange(Links(lines), n) && r.value == Adjacency(Links(lines), n)
  {
    var con := NoLinks(if n < 0 then 0 else n);
    for t := 0 to |lines|
      invariant InRange(Links(lines[..t]), n)
      invariant con == Adjacency(Links(lines[..t]), n)
    {
      var l := lines[t];
      if !(l.Ints? && |l.xs| == 2) {
        LineSkipped(lines, t);
        continue;
      }
      var u, v := l.xs[0], l.xs[1];
      if u < 1 || u > n {
        LineOutOfRange(lines, n, t);
        return None;
      }
      if v < 1 || v > n {
        LineOutOfRange(lines, n, t);
        return None;
      }
      LineRecorded(lines, n, t, u, v);
      con := con[u - 1 := con[u - 1] + [v - 1]];
      con := con[v - 1 := con[v - 1] + [u - 1]];
    }
    assert lines[..|lines|] == lines;
    return Some(con);
  }

  /** What one step of the traversal can do to its state: the tree only gains links, the
      reached set only gains nodes, each of them pushed, nothing pushed is lost, and the stack
      only changes when a node is reached. */
  ghost predicate Grew(tree0: seq<Edge>, vis0: set<int>, q0: seq<(int, real, int)>,
                       tree: seq<Edge>, vis: set<int>, q: seq<(int, real, int)>)
  {
    (forall e :: e in tree0 ==> e in tree) &&
    vis0 <= vis && vis - vis0 <= Stacked(q) && Stacked(q0) <= Stacked(q) &&
    |vis| >= |vis0| && (q == q0 || |vis| > |vis0|)
  }

  lemma GrewTrans(tree0: seq<Edge>, vis0: set<int>, q0: seq<(int, real, int)>,
                  tree1: seq<Edge>, vis1: set<int>, q1: seq<(int, real, int)>,
                  tree: seq<Edge>, vis: set<int>, q: seq<(int, real, int)>)
    requires Grew(tree0, vis0, q0, tree1, vis1, q1) && Grew(tree1, vis1, q1, tree, vis, q)
    ensures Grew(tree0, vis0, q0, tree, vis, q)
  {
  }

  /** Lines 73-78: node v, new, is reached from u at path length d: it joins vis, is pushed
      with its own path length, and its link and lengths are added to the tree and the
      totals. */
  method Reach(nodes: seq<Node>, con: seq<seq<int>>, sqrt: real -> real, u: int, d: real, v: int,
               vis0: set<int>, q0: seq<(int, real, int)>, cable0: real, trench0: real, ghost tree0: seq<Edge>)
    returns (vis: set<int>, q: seq<(int, real, int)>, cable: real, trench: real, ghost tree: seq<Edge>)
    requires Explored(nodes, con, sqrt, tree0, vis0, q0, cable0, trench0)
    requires u in vis0 && d == Depth(tree0, nodes, sqrt, u) && v in con[u] && 0 <= v < |con| && v !in vis0
    ensures Explored(nodes, con, sqrt, tree, vis, q, cable, trench)
    ensures tree == tree0 + [Edge(u, v)] && vis == vis0 + {v}
    ensures var eucd := Distance(nodes, sqrt, u, v);
            q == q0 + [(v, d + eucd, u)] && cable == cable0 + (d + eucd) && trench == trench0 + eucd
    ensures Stacked(q) == Stacked(q0) + {v}
    ensures d == Depth(tree, nodes, sqrt, u)
  {
    var eucd := Distance(nodes, sqrt, u, v);
    var newd := d + eucd;
    Grow(nodes, con, sqrt, tree0, vis0, q0, cable0, trench0, u, d, v);
    DepthSnoc(tree0, Edge(u, v), nodes, sqrt, u);
    cable := cable0 + newd;
    trench := trench0 + eucd;
    q := q0 + [(v, newd, u)];
    assert q[..|q| - 1] == q0;
    tree := tree0 + [Edge(u, v)];
    vis := vis0 + {v};
  }

  /** The neighbours already checked stay accounted for while the tree only grows, and so
      does the one just checked. */
  lemma LinksKept(adj: seq<int>, i: nat, p: int, u: int, tree0: seq<Edge>, tree: seq<Edge>, cycle: bool)
    requires i < |adj| && forall j :: 0 <= j < i ==> adj[j] == p || Edge(u, adj[j]) in tree0
    requires forall e :: e in tree0 ==> e in tree
    requires !cycle ==> adj[i] == p || Edge(u, adj[i]) in tree
    ensures !cycle ==> forall j :: 0 <= j < i + 1 ==> adj[j] == p || Edge(u, adj[j]) in tree
  {
  }

  /** While u's list is scanned, the tree gains only links from u, to entries already
      scanned, and the stack gains only nodes that were not reached before. */
  lemma FromU(u: int, adj: seq<int>, i: nat, tree0: seq<Edge>, vis0: set<int>, q0: seq<(int, real, int)>,
              tree1: seq<Edge>, vis1: set<int>, q1: seq<(int, real, int)>, tree: seq<Edge>,
              q: seq<(int, real, int)>, grown: bool)
    requires i < |adj| && vis0 <= vis1
    requires forall e :: e in tree1 ==> e in tree0 || e.parent == u
    requires forall e :: e in q1 ==> e in q0 || e.0 !in vis0
    requires forall b :: Edge(u, b) in tree1 ==> b in adj[..i]
    requires !grown ==> tree == tree1 && q == q1
    requires grown ==> adj[i] !in vis1 && tree == tree1 + [Edge(u, adj[i])] && |q| == |q1| + 1 &&
                       q == q1 + [(adj[i], q[|q1|].1, u)]
    ensures forall e :: e in tree ==> e in tree0 || e.parent == u
    ensures forall e :: e in q ==> e in q0 || e.0 !in vis0
    ensures forall b :: Edge(u, b) in tree ==> b in adj[..i + 1]
  {
    assert adj[..i + 1] == adj[..i] + [adj[i]];
  }

  /** What the scan of u's list keeps after its first i entries: the search state stays
      consistent and only grows; the tree gains only links from u, to entries already scanned;
      the stack gains only nodes not reached before; a cycle stops at a revisit, and otherwise
      every scanned entry is u's parent or a tree child of u. */
  ghost predicate Scanned(nodes: seq<Node>, con: seq<seq<int>>, sqrt: real -> real, u: int, d: real, p: int,
                          i: int, tree0: seq<Edge>, vis0: set<int>, q0: seq<(int, real, int)>,
                          cycle: bool, tree: seq<Edge>, vis: set<int>, q: seq<(int, real, int)>,
                          cable: real, trench: real, wu: int, wv: int)
    requires 0 <= u < |con|
  {
    0 <= i <= |con[u]| &&
    Explored(nodes, con, sqrt, tree, vis, q, cable, trench) &&
    Grew(tree0, vis0, q0, tree, vis, q) &&
    d == Depth(tree, nodes, sqrt, u) && ParentLink(tree, p, u) &&
    (forall e :: e in tree ==> e in tree0 || e.parent == u) &&
    (forall e :: e in q ==> e in q0 || e.0 !in vis0) &&
    (forall b :: Edge(u, b) in tree ==> b in con[u][..i]) &&
    (cycle ==> RevisitAt(tree, con, wu, wv)) &&
    (!cycle ==> forall j :: 0 <= j < i ==> con[u][j] == p || Edge(u, con[u][j]) in tree)
  }

  /** Lines 67-78 for one popped node u with path length d and parent p: every neighbour
      other than p must be new, and is reached from u and pushed; cycle reports the first
      neighbour that was reached already. */
  method Expand(nodes: seq<Node>, con: seq<seq<int>>, sqrt: real -> real, u: int, d: real, p: int,
                vis0: set<int>, q0: seq<(int, real, int)>, cable0: real, trench0: real, ghost tree0: seq<Edge>)
    returns (cycle: bool, vis: set<int>, q: seq<(int, real, int)>, cable: real, trench: real, ghost tree: seq<Edge>,
             ghost wu: int, ghost wv: int)
    requires forall a, b :: 0 <= a < |con| && b in con[a] ==> 0 <= b < |con|
    requires Explored(nodes, con, sqrt, tree0, vis0, q0, cable0, trench0)
    requires u in vis0 && d == Depth(tree0, nodes, sqrt, u) && ParentLink(tree0, p, u)
    requires forall b :: Edge(u, b) !in tree0
    ensures Explored(nodes, con, sqrt, tree, vis, q, cable, trench)
    ensures Grew(tree0, vis0, q0, tree, vis, q)
    ensures forall e :: e in tree ==> e in tree0 || e.parent == u
    ensures forall e :: e in q ==> e in q0 || e.0 !in vis0
    ensures cycle ==> RevisitAt(tree, con, wu, wv)
    ensures !cycle ==> forall b :: b in con[u] ==> b == p || Edge(u, b) in tree
  {
    vis, q, cable, trench, tree := vis0, q0, cable0, trench0, tree0;
    assert 0 <= u < |con|;
    var adj := con[u];
    cycle := false;
    wu, wv := u, u;
    var i := 0;
    while i < |adj| && !cycle
      invariant Scanned(nodes, con, sqrt, u, d, p, i, tree0, vis0, q0, cycle, tree, vis, q, cable, trench, wu, wv)
      decreases |adj| - i
    {
      cycle, vis, q, cable, trench, tree, wv := Next(nodes, con, sqrt, u, d, p, i, tree0, vis0, q0,
                                                     tree, vis, q, cable, trench);
      i := i + 1;
    }
  }

  /** One entry of u's list: Visit, with the scan's bookkeeping carried to the next entry. */
  method Next(nodes: seq<Node>, con: seq<seq<int>>, sqrt: real -> real, u: int, d: real, p: int, i: nat,
              ghost tree0: seq<Edge>, ghost vis0: set<int>, ghost q0: seq<(int, real, int)>,
              ghost tree1: seq<Edge>, vis1: set<int>, q1: seq<(int, real, int)>, cable1: real, trench1: real)
    returns (cycle: bool, vis: set<int>, q: seq<(int, real, int)>, cable: real, trench: real, ghost tree: seq<Edge>,
             ghost wv: int)
    requires forall a, b :: 0 <= a < |con| && b in con[a] ==> 0 <= b < |con|
    requires 0 <= u < |con| && i < |con[u]| && u in vis0
    requires Scanned(nodes, con, sqrt, u, d, p, i, tree0, vis0, q0, false, tree1, vis1, q1, cable1, trench1, u, u)
    ensures Scanned(nodes, con, sqrt, u, d, p, i + 1, tree0, vis0, q0, cycle, tree, vis, q, cable, trench, u, wv)
  {
    var adj := con[u];
    assert adj[i] in con[u];
    cycle, vis, q, cable, trench, tree := Visit(nodes, con, sqrt, u, d, p, adj[i], i, vis1, q1, cable1, trench1, tree1);
    FromU(u, adj, i, tree0, vis0, q0, tree1, vis1, q1, tree, q, !cycle && adj[i] != p);
    GrewTrans(tree0, vis0, q0, tree1, vis1, q1, tree, vis, q);
    LinksKept(adj, i, p, u, tree1, tree, cycle);
    wv := adj[i];
  }

  /** Lines 68-78 for the neighbour v, entry i of the popped node u's list: skipped when it is
      u's parent p, a revisit (cycle) when it was reached already, otherwise reached from u.
      The tree links from u so far come from the entries before i. */
  method Visit(nodes: seq<Node>, con: seq<seq<int>>, sqrt: real -> real, u: int, d: real, p: int, v: int,
               ghost i: nat, vis0: set<int>, q0: seq<(int, real, int)>, cable0: real, trench0: real,
               ghost tree0: seq<Edge>)
    returns (cycle: bool, vis: set<int>, q: seq<(int, real, int)>, cable: real, trench: real, ghost tree: seq<Edge>)
    requires Explored(nodes, con, sqrt, tree0, vis0, q0, cable0, trench0)
    requires u in vis0 && d == Depth(tree0, nodes, sqrt, u) && ParentLink(tree0, p, u)
    requires 0 <= u < |con| && i < |con[u]| && con[u][i] == v && 0 <= v < |con|
    requires forall b :: Edge(u, b) in tree0 ==> b in con[u][..i]
    ensures cycle <==> v != p && v in vis0
    ensures cycle || v == p ==>
              vis == vis0 && q == q0 && cable == cable0 && trench == trench0 && tree == tree0
    ensures !cycle && v != p ==>
              var eucd := Distance(nodes, sqrt, u, v);
              vis == vis0 + {v} && q == q0 + [(v, d + eucd, u)] && cable == cable0 + (d + eucd) &&
              trench == trench0 + eucd && tree == tree0 + [Edge(u, v)]
    ensures Explored(nodes, con, sqrt, tree, vis, q, cable, trench)
    ensures Grew(tree0, vis0, q0, tree, vis, q)
    ensures d == Depth(tree, nodes, sqrt, u) && ParentLink(tree, p, u)
    ensures cycle ==> RevisitAt(tree, con, u, v)
    ensures !cycle ==> v == p || Edge(u, v) in tree
  {
    vis, q, cable, trench, tree := vis0, q0, cable0, trench0, tree0;
    cycle := false;
    if v != p {
      if v in vis {
        if Edge(u, v) in tree {
          var j :| 0 <= j < i && con[u][j] == v;
          Twice(con[u], j, i);
        }
        CycleFound(tree, con, p, u, v);
        return true, vis, q, cable, trench, tree;
      }
      vis, q, cable, trench, tree := Reach(nodes, con, sqrt, u, d, v, vis, q, cable, trench, tree);
      assert tree[|tree0|] == Edge(u, v);
      assert forall e :: e in tree0 ==> e in tree;
    }
  }

  /** Popping the top entry of the stack keeps what the traversal knows, and the popped entry
      names a reached node with its path length and parent. */
  lemma Pop(nodes: seq<Node>, con: seq<seq<int>>, sqrt: real -> real, tree: seq<Edge>, vis: set<int>,
            qs: seq<(int, real, int)>, cable: real, trench: real)
    requires Explored(nodes, con, sqrt, tree, vis, qs, cable, trench) && qs != []
    ensures var q, top := qs[..|qs| - 1], qs[|qs| - 1];
            Explored(nodes, con, sqrt, tree, vis, q, cable, trench) && Stacked(qs) == Stacked(q) + {top.0} &&
            top.0 in vis && top.1 == Depth(tree, nodes, sqrt, top.0) && ParentLink(tree, top.2, top.0) &&
            (forall e :: e in q ==> e in qs && e.0 != top.0)
  {
    assert qs[|qs| - 1] in qs;
    var q := qs[..|qs| - 1];
    forall e | e in q ensures e in qs && e.0 != qs[|qs| - 1].0 {
      var k :| 0 <= k < |q| && q[k] == e;
      assert qs[k] == e;
    }
  }

  /** Once u has been expanded without a cycle, each of its neighbours is joined to it in the
      tree: its parent by the link into u, the others by the links Expand added. */
  lemma NeighboursJoined(con: seq<seq<int>>, tree0: seq<Edge>, tree: seq<Edge>, u: int, p: int)
    requires forall a, b :: 0 <= a < |con| && b in con[a] ==> 0 <= b < |con|
    requires 0 <= u < |con| && ParentLink(tree0, p, u) && forall e :: e in tree0 ==> e in tree
    requires forall b :: b in con[u] ==> b == p || Edge(u, b) in tree
    ensures forall b :: b in con[u] ==> TreeJoined(tree, u, b)
  {
    forall b | b in con[u] ensures TreeJoined(tree, u, b) {
      if b == p {
        assert Edge(p, u) in tree0;
      }
    }
  }

  /** The bookkeeping of the traversal loop after u is expanded: u joins the finished nodes,
      every reached node is finished or still on the stack, and every finished node is joined
      in the tree to all of its neighbours. */
  lemma Finished(con: seq<seq<int>>, done: set<int>, u: int, vis0: set<int>, qs: seq<(int, real, int)>,
                 q0: seq<(int, real, int)>, tree0: seq<Edge>, vis: set<int>, q: seq<(int, real, int)>,
                 tree: seq<Edge>)
    requires u in vis0 && done <= vis0 && forall a :: a in vis0 ==> a in done || a in Stacked(qs)
    requires Stacked(qs) == Stacked(q0) + {u}
    requires Grew(tree0, vis0, q0, tree, vis, q) && forall a :: a in vis ==> 0 <= a < |con|
    requires forall a, b :: a in done && b in con[a] ==> TreeJoined(tree0, a, b)
    requires forall b :: b in con[u] ==> TreeJoined(tree, u, b)
    ensures done + {u} <= vis && forall a :: a in vis ==> a in done + {u} || a in Stacked(q)
    ensures forall a, b :: a in done + {u} && b in con[a] ==> TreeJoined(tree, a, b)
  {
    forall a, b | a in done && b in con[a] ensures TreeJoined(tree, a, b) {
      assert TreeJoined(tree0, a, b);
    }
  }

  /** What the traversal loop keeps: the search state is consistent, every reached node is
      finished or still on the stack, every finished node is joined in the tree to all of its
      neighbours, only finished nodes have tree children, and no stacked node is finished. */
  ghost predicate Searching(nodes: seq<Node>, con: seq<seq<int>>, sqrt: real -> real, tree: seq<Edge>,
                            vis: set<int>, q: seq<(int, real, int)>, cable: real, trench: real, done: set<int>)
  {
    Explored(nodes, con, sqrt, tree, vis, q, cable, trench) && |vis| <= |con| && done <= vis &&
    (forall a :: a in vis ==> a in done || a in Stacked(q)) &&
    (forall a, b :: a in done && b in con[a] ==> TreeJoined(tree, a, b)) &&
    (forall e :: e in tree ==> e.parent in done) && (forall e :: e in q ==> e.0 !in done)
  }

  /** One pass of the loop of lines 66-78: pop the top of the stack and expand it. Either a
      cycle is found, or the search goes on with more nodes reached or a shorter stack. */
  method Step(nodes: seq<Node>, con: seq<seq<int>>, sqrt: real -> real, vis0: set<int>, q0: seq<(int, real, int)>,
              cable0: real, trench0: real, ghost tree0: seq<Edge>, ghost done0: set<int>)
    returns (cycle: bool, vis: set<int>, q: seq<(int, real, int)>, cable: real, trench: real, ghost tree: seq<Edge>,
             ghost wu: int, ghost wv: int, ghost done: set<int>)
    requires forall a, b :: 0 <= a < |con| && b in con[a] ==> 0 <= b < |con|
    requires Searching(nodes, con, sqrt, tree0, vis0, q0, cable0, trench0, done0) && q0 != []
    ensures Explored(nodes, con, sqrt, tree, vis, q, cable, trench)
    ensures cycle ==> RevisitAt(tree, con, wu, wv)
    ensures !cycle ==> Searching(nodes, con, sqrt, tree, vis, q, cable, trench, done)
    ensures |vis| > |vis0| || (|vis| == |vis0| && |q| < |q0|)
  {
    var (u, d, p) := q0[|q0| - 1];
    Pop(nodes, con, sqrt, tree0, vis0, q0, cable0, trench0);
    var popped := q0[..|q0| - 1];
    assert q0[|q0| - 1] in q0;
    cycle, vis, q, cable, trench, tree, wu, wv := Expand(nodes, con, sqrt, u, d, p, vis0, popped, cable0, trench0, tree0);
    done := done0;
    if !cycle {
      SubsetAtMost(vis, Range(|con|));
      NeighboursJoined(con, tree0, tree, u, p);
      Finished(con, done0, u, vis0, q0, popped, tree0, vis, q, tree);
      done := done0 + {u};
    }
  }

  /** Lines 61-82: the stack traversal from node 0. It raises IndexError when there are no
      nodes (con[0] does not exist); it gives None when it reaches an already-reached node
      other than the parent, or when fewer than n nodes are reached; otherwise the tree it
      built spans the n nodes, uses only output links, accounts for every output link, and
      cable and trench are that tree's totals. */
  method Traverse(nodes: seq<Node>, con: seq<seq<int>>, sqrt: real -> real)
    returns (r: Run<Option<(real, real)>>, ghost tree: seq<Edge>, ghost wu: int, ghost wv: int)
    requires |con| == |nodes|
    requires forall a, b :: 0 <= a < |con| && b in con[a] ==> 0 <= b < |con|
    ensures r.Raised? <==> |con| == 0
    ensures r.Raised? ==> r.error == IndexError
    ensures r.Ok? ==> Rooted(tree) && Within(tree, |con|)
    ensures r.Ok? ==> forall k :: 0 <= k < |tree| ==> tree[k].child in con[tree[k].parent]
    ensures r == Ok(None) ==> RevisitAt(tree, con, wu, wv) || (Closed(tree, con) && Reached(tree) != Range(|con|))
    ensures r.Ok? && r.value.Some? ==>
              Reached(tree) == Range(|con|) && |tree| == |con| - 1 &&
              (forall a, b :: 0 <= a < |con| && b in con[a] ==> TreeJoined(tree, a, b)) &&
              r.value.value == (Cable(tree, nodes, sqrt), Trench(tree, nodes, sqrt))
  {
    tree, wu, wv := [], 0, 0;
    if |con| == 0 {
      return Raised(IndexError), tree, wu, wv;
    }
    var n := |con|;
    var q: seq<(int, real, int)> := [(0, 0.0, -1)];
    var vis: set<int> := {0};
    var cable, trench := 0.0, 0.0;
    ghost var done: set<int> := {};
    assert Stacked(q) == {0} by {
      assert q[..0] == [];
    }
    while |q| > 0
      invariant Searching(nodes, con, sqrt, tree, vis, q, cable, trench, done)
      decreases n - |vis|, |q|
    {
      var cycle;
      cycle, vis, q, cable, trench, tree, wu, wv, done := Step(nodes, con, sqrt, vis, q, cable, trench, tree, done);
      if cycle {
        return Ok(None), tree, wu, wv;
      }
    }
    assert forall a :: a in vis ==> a in done;
    if |vis| != n {
      return Ok(None), tree, wu, wv;
    }
    SubsetSameCard(vis, Range(n));
    ReachedCard(tree);
    return Ok(Some((cable, trench))), tree, wu, wv;
  }

  /** Line 84: the cost of a network with the given cable and trench totals. */
  function Cost(inst: Instance, cable: real, trench: real): real
  {
    inst.c0 * cable + inst.c1 * trench
  }

  /** With non-negative prices and distances no network costs less than nothing, and the
      cable price applies to at least the trench length. */
  lemma CostNonNegative(inst: Instance, tree: seq<Edge>, sqrt: real -> real)
    requires Within(tree, |inst.nodes|) && forall x :: sqrt(x) >= 0.0
    requires inst.c0 >= 0.0 && inst.c1 >= 0.0
    ensures Cost(inst, Cable(tree, inst.nodes, sqrt), Trench(tree, inst.nodes, sqrt)) >=
            (inst.c0 + inst.c1) * Trench(tree, inst.nodes, sqrt) >= 0.0
  {
    var cable, trench := Cable(tree, inst.nodes, sqrt), Trench(tree, inst.nodes, sqrt);
    CableCoversTrench(tree, inst.nodes, sqrt);
    assert inst.c0 * cable >= inst.c0 * trench by {
      assert inst.c0 * (cable - trench) >= 0.0;
    }
    assert (inst.c0 + inst.c1) * trench >= 0.0;
  }

  /** The output is a spanning tree of the n buildings rooted at building 1: its links are
      exactly the tree's links, in one direction or the other. */
  ghost predicate SpanningTree(ls: seq<(int, int)>, tree: seq<Edge>, n: int)
  {
    n >= 1 && Rooted(tree) && Within(tree, n) && Reached(tree) == Range(n) && |tree| == n - 1 &&
    AllListed(ls, tree) && AllInTree(ls, tree)
  }

  /** Every link of the tree is a listed link. */
  predicate AllListed(ls: seq<(int, int)>, tree: seq<Edge>)
  {
    forall k :: 0 <= k < |tree| ==> Joined(ls, tree[k].parent, tree[k].child)
  }

  /** Every listed link is a link of the tree, in one direction or the other. */
  predicate AllInTree(ls: seq<(int, int)>, tree: seq<Edge>)
  {
    forall k :: 0 <= k < |ls| ==> TreeJoined(tree, ls[k].0 - 1, ls[k].1 - 1)
  }

  /** Every adjacency entry names a node 0..n-1. */
  lemma AdjacencyInRange(ls: seq<(int, int)>, n: int)
    requires InRange(ls, n)
    ensures forall a, b :: 0 <= a < |Adjacency(ls, n)| && b in Adjacency(ls, n)[a] ==> 0 <= b < |Adjacency(ls, n)|
  {
    forall a, b | 0 <= a < |Adjacency(ls, n)| && b in Adjacency(ls, n)[a] ensures 0 <= b < |Adjacency(ls, n)| {
      AdjacencySymmetric(ls, n, a, b);
    }
  }

  /** A traversal tree that spans the nodes and accounts for every adjacency entry makes the
      output links a spanning tree. */
  lemma Spans(ls: seq<(int, int)>, n: int, tree: seq<Edge>)
    requires InRange(ls, n) && n >= 1
    requires Rooted(tree) && Within(tree, n) && Reached(tree) == Range(n) && |tree| == n - 1
    requires forall k :: 0 <= k < |tree| ==> tree[k].child in Adjacency(ls, n)[tree[k].parent]
    requires forall a, b :: 0 <= a < n && b in Adjacency(ls, n)[a] ==> TreeJoined(tree, a, b)
    ensures SpanningTree(ls, tree, n)
  {
    TreeLinksListed(ls, n, tree);
    ListedLinksInTree(ls, n, tree);
  }

  lemma TreeLinksListed(ls: seq<(int, int)>, n: int, tree: seq<Edge>)
    requires InRange(ls, n) && Within(tree, n)
    requires forall k :: 0 <= k < |tree| ==> tree[k].child in Adjacency(ls, n)[tree[k].parent]
    ensures forall k :: 0 <= k < |tree| ==> Joined(ls, tree[k].parent, tree[k].child)
  {
    forall k | 0 <= k < |tree| ensures Joined(ls, tree[k].parent, tree[k].child) {
      AdjacencyRecords(ls, n, tree[k].parent, tree[k].child);
    }
  }

  lemma ListedLinksInTree(ls: seq<(int, int)>, n: int, tree: seq<Edge>)
    requires InRange(ls, n)
    requires forall a, b :: 0 <= a < n && b in Adjacency(ls, n)[a] ==> TreeJoined(tree, a, b)
    ensures forall k :: 0 <= k < |ls| ==> TreeJoined(tree, ls[k].0 - 1, ls[k].1 - 1)
  {
    forall k | 0 <= k < |ls| ensures TreeJoined(tree, ls[k].0 - 1, ls[k].1 - 1) {
      AdjacencyRecords(ls, n, ls[k].0 - 1, ls[k].1 - 1);
    }
  }

  /** No link is listed twice, in the same or the opposite direction: each link joins two
      nodes that no earlier link joins. */
  predicate Unrepeated(ls: seq<(int, int)>)
    decreases |ls|
  {
    ls == [] ||
    (var p := ls[..|ls| - 1];
     Unrepeated(p) && !Joined(p, ls[|ls| - 1].0 - 1, ls[|ls| - 1].1 - 1))
  }

  /** Without repeated links no node is listed twice among another node's neighbours. */
  lemma {:induction false} ListedOnce(ls: seq<(int, int)>, n: int, a: int, b: int)
    requires InRange(ls, n) && Unrepeated(ls) && 0 <= a < n && a != b
    ensures multiset(Adjacency(ls, n)[a])[b] <= 1
    decreases |ls|
  {
    if ls != [] {
      var p := ls[..|ls| - 1];
      var (u, v) := ls[|ls| - 1];
      assert ls == p + [(u, v)];
      assert InRange(p, n);
      ListedOnce(p, n, a, b);
      AdjacencyRecords(p, n, a, b);
      AdjacencySnoc(p, n, u, v);
      OnceAfterAppends(Adjacency(p, n), u - 1, v - 1, a, b);
    } else {
      assert Adjacency(ls, n)[a] == [];
    }
  }

  /** The two appends of a link u-v add b to a's list at most once, and only when the link
      joins a and b. */
  lemma OnceAfterAppends(c: seq<seq<int>>, u: int, v: int, a: int, b: int)
    requires 0 <= u < |c| && 0 <= v < |c| && 0 <= a < |c| && a != b
    requires multiset(c[a])[b] <= 1
    requires (a == u && b == v) || (a == v && b == u) ==> b !in c[a]
    ensures var c' := c[u := c[u] + [v]];
            multiset(c'[v := c'[v] + [u]][a])[b] <= 1
  {
  }

  /** Every link of a traversal tree over the listed links points away from the root in any
      spanning tree of those links. */
  lemma {:induction false} Oriented(ls: seq<(int, int)>, n: int, tree: seq<Edge>, t: seq<Edge>)
    requires InRange(ls, n) && Rooted(t) && AllInTree(ls, t) && Rooted(tree) && Within(tree, n)
    requires forall k :: 0 <= k < |tree| ==> tree[k].child in Adjacency(ls, n)[tree[k].parent]
    ensures forall e :: e in tree ==> e in t
    decreases |tree|
  {
    if tree != [] {
      var p := tree[..|tree| - 1];
      var e := tree[|tree| - 1];
      assert tree == p + [e];
      assert forall k :: 0 <= k < |p| ==> p[k] == tree[k];
      Oriented(ls, n, p, t);
      var a, b := e.parent, e.child;
      TreeJoinedLink(ls, n, t, a, b);
      if Edge(b, a) in t {
        if a == 0 {
          RootNotChild(t, b);
        } else {
          var x := ParentOf(p, a);
          OneParent(t, x, b, a);
        }
      }
    }
  }

  /** Two nodes the links join are joined in any spanning tree of the links. */
  lemma TreeJoinedLink(ls: seq<(int, int)>, n: int, t: seq<Edge>, a: int, b: int)
    requires InRange(ls, n) && AllInTree(ls, t) && 0 <= a < n && b in Adjacency(ls, n)[a]
    ensures TreeJoined(t, a, b)
  {
    AdjacencyRecords(ls, n, a, b);
    var k :| 0 <= k < |ls| && (ls[k] == (a + 1, b + 1) || ls[k] == (b + 1, a + 1));
    assert TreeJoined(t, ls[k].0 - 1, ls[k].1 - 1);
  }

  /** When the links form a spanning tree and none is repeated, no adjacency entry is a
      revisit of a traversal tree over them. */
  lemma NoRevisit(ls: seq<(int, int)>, n: int, tree: seq<Edge>, t: seq<Edge>, u: int, v: int)
    requires InRange(ls, n) && Unrepeated(ls) && Rooted(t) && AllInTree(ls, t) && Rooted(tree) && Within(tree, n)
    requires forall k :: 0 <= k < |tree| ==> tree[k].child in Adjacency(ls, n)[tree[k].parent]
    ensures !RevisitAt(tree, Adjacency(ls, n), u, v)
  {
    var con := Adjacency(ls, n);
    if 0 <= u < |con| && v in con[u] && u in Reached(tree) && v in Reached(tree) && Edge(v, u) !in tree {
      Oriented(ls, n, tree, t);
      TreeJoinedLink(ls, n, t, u, v);
      if Edge(v, u) in t {
        if u == 0 {
          RootNotChild(t, v);
        } else {
          var x := ParentOf(tree, u);
          OneParent(t, x, v, u);
        }
      } else {
        if v == 0 {
          RootNotChild(t, u);
        } else {
          var y := ParentOf(tree, v);
          OneParent(t, y, u, v);
          NoSelfLoop(t, u);
          ListedOnce(ls, n, u, v);
        }
      }
    }
  }

  /** A traversal tree whose reached nodes are closed under the adjacency lists reaches every
      node a spanning tree of the links reaches. */
  lemma {:induction false} ReachesAll(ls: seq<(int, int)>, n: int, tree: seq<Edge>, t: seq<Edge>)
    requires InRange(ls, n) && Rooted(t) && Within(t, n) && AllListed(ls, t) && Closed(tree, Adjacency(ls, n))
    ensures Reached(t) <= Reached(tree)
    decreases |t|
  {
    if t == [] {
      RootReached(tree);
    } else {
      var p := t[..|t| - 1];
      var e := t[|t| - 1];
      assert forall k :: 0 <= k < |p| ==> p[k] == t[k];
      ReachesAll(ls, n, tree, p);
      AdjacencyRecords(ls, n, e.parent, e.child);
    }
  }

  /** The reached nodes of a tree within 0..n-1 are among them. */
  lemma {:induction false} ReachedWithin(tree: seq<Edge>, n: int)
    requires Within(tree, n) && n >= 1
    ensures Reached(tree) <= Range(n)
    decreases |tree|
  {
    if tree != [] {
      var p := tree[..|tree| - 1];
      assert forall k :: 0 <= k < |p| ==> p[k] == tree[k];
      ReachedWithin(p, n);
    }
  }

  /** The links of a spanning tree name buildings 1..n. */
  lemma SpanningInRange(ls: seq<(int, int)>, n: int)
    ensures (exists t :: SpanningTree(ls, t, n)) ==> InRange(ls, n) && n >= 1
  {
    if t :| SpanningTree(ls, t, n) {
      forall k | 0 <= k < |ls| ensures 1 <= ls[k].0 <= n && 1 <= ls[k].1 <= n {
        assert TreeJoined(t, ls[k].0 - 1, ls[k].1 - 1);
        var e := if Edge(ls[k].0 - 1, ls[k].1 - 1) in t then Edge(ls[k].0 - 1, ls[k].1 - 1)
                 else Edge(ls[k].1 - 1, ls[k].0 - 1);
        var j :| 0 <= j < |t| && t[j] == e;
      }
    }
  }

  /** Lines 61-82 on links that form a spanning tree with no link repeated: a traversal tree
      over them meets no revisit, and once nothing more can be reached it has reached every
      node. */
  lemma TreeAccepted(ls: seq<(int, int)>, n: int, tree: seq<Edge>, u: int, v: int)
    requires InRange(ls, n) && Rooted(tree) && Within(tree, n)
    requires forall k :: 0 <= k < |tree| ==> tree[k].child in Adjacency(ls, n)[tree[k].parent]
    ensures Unrepeated(ls) && (exists t :: SpanningTree(ls, t, n)) ==>
              !RevisitAt(tree, Adjacency(ls, n), u, v) &&
              (Closed(tree, Adjacency(ls, n)) ==> Reached(tree) == Range(n))
  {
    if Unrepeated(ls) && exists t :: SpanningTree(ls, t, n) {
      var t :| SpanningTree(ls, t, n);
      NoRevisit(ls, n, tree, t, u, v);
      if Closed(tree, Adjacency(ls, n)) {
        ReachesAll(ls, n, tree, t);
        ReachedWithin(tree, n);
      }
    }
  }

  /** evaluate(inputfile, outputfile) (lines 22-84) on the tokens of the input file and the
      lines of the output file. The exceptions of the input and the IndexError of an empty
      network propagate; an out-of-range building gives None; an accepted output is a
      spanning tree, scored c0 * cable + c1 * trench over that tree. */
  method Evaluate(rows: seq<seq<Token>>, lines: seq<Line>, sqrt: real -> real)
    returns (r: Run<Option<real>>, ghost tree: seq<Edge>)
    ensures ReadInput(rows).Raised? ==> r == Raised(ReadInput(rows).error)
    ensures ReadInput(rows).Ok? && !InRange(Links(lines), ReadInput(rows).value.n) ==> r == Ok(None)
    ensures ReadInput(rows).Ok? && InRange(Links(lines), ReadInput(rows).value.n) ==>
              (r.Raised? <==> ReadInput(rows).value.n <= 0)
    ensures r.Raised? && ReadInput(rows).Ok? ==> r.error == IndexError
    ensures r.Ok? && r.value.Some? ==>
              var inst := ReadInput(rows).value;
              ReadInput(rows).Ok? && SpanningTree(Links(lines), tree, inst.n) &&
              r.value.value == Cost(inst, Cable(tree, inst.nodes, sqrt), Trench(tree, inst.nodes, sqrt))
    ensures ReadInput(rows).Ok? && Unrepeated(Links(lines)) &&
            (exists t :: SpanningTree(Links(lines), t, ReadInput(rows).value.n)) ==>
              r.Ok? && r.value.Some?
  {
    tree := [];
    var read := Read(rows);
    if read.Raised? {
      return Raised(read.error), tree;
    }
    var inst := read.value;
    SpanningInRange(Links(lines), inst.n);
    var built := BuildAdjacency(lines, inst.n);
    if built.None? {
      return Ok(None), tree;
    }
    var con := built.value;
    ghost var ls := Links(lines);
    AdjacencyInRange(ls, inst.n);
    var t;
    ghost var wu, wv;
    t, tree, wu, wv := Traverse(inst.nodes, con, sqrt);
    if t.Raised? {
      return Raised(t.error), tree;
    }
    TreeAccepted(ls, inst.n, tree, wu, wv);
    if t.value.None? {
      return Ok(None), tree;
    }
    var (cable, trench) := t.value.value;
    Spans(ls, inst.n, tree);
    return Ok(Some(Cost(inst, cable, trench))), tree;
  }
}
