/** The search tree the campus-network evaluator (src/evaluators/campus_network.py) builds
    while it walks the output links from building 1: the links it follows, the nodes they
    reach, the path length of every node to the root, the cable and trench totals, and what
    the stack traversal keeps true of them. Nodes are 0-based here, as in the evaluator's
    adjacency lists.
    Line numbers in the comments below are those of src/evaluators/campus_network.py. */
module CampusNetworkTree {
  /** A building's coordinates. */
  datatype Node = Node(x: real, y: real)

  /** A link of the search tree: child was reached from parent. */
  datatype Edge = Edge(parent: int, child: int)

  /** The nodes a search tree has reached: the root 0 and every child. */
  function Reached(tree: seq<Edge>): set<int>
    decreases |tree|
  {
    if tree == [] then {0} else Reached(tree[..|tree| - 1]) + {tree[|tree| - 1].child}
  }

  /** Each link of the tree leaves a node already reached and reaches a new one. */
  ghost predicate Rooted(tree: seq<Edge>)
    decreases |tree|
  {
    tree == [] ||
    (var p := tree[..|tree| - 1];
     Rooted(p) && tree[|tree| - 1].parent in Reached(p) && tree[|tree| - 1].child !in Reached(p))
  }

  lemma RootedSnoc(tree: seq<Edge>, e: Edge)
    requires Rooted(tree) && e.parent in Reached(tree) && e.child !in Reached(tree)
    ensures Rooted(tree + [e])
  {
    assert (tree + [e])[..|tree|] == tree;
  }

  /** A rooted tree reaches one node more than it has links. */
  lemma {:induction false} ReachedCard(tree: seq<Edge>)
    requires Rooted(tree)
    ensures |Reached(tree)| == |tree| + 1
    decreases |tree|
  {
    if tree != [] {
      ReachedCard(tree[..|tree| - 1]);
    }
  }

  /** A child has exactly one parent in a rooted tree. */
  lemma {:induction false} OneParent(tree: seq<Edge>, a: int, b: int, c: int)
    requires Rooted(tree) && Edge(a, c) in tree && Edge(b, c) in tree
    ensures a == b
    decreases |tree|
  {
    var p := tree[..|tree| - 1];
    var last := tree[|tree| - 1];
    assert tree == p + [last];
    if Edge(a, c) in p && Edge(b, c) in p {
      OneParent(p, a, b, c);
    } else if Edge(a, c) in p || Edge(b, c) in p {
      var e := if Edge(a, c) in p then Edge(a, c) else Edge(b, c);
      var k :| 0 <= k < |p| && p[k] == e;
      ChildReached(p, k);
    }
  }

  /** Every child of a tree is among the nodes it reaches. */
  lemma {:induction false} ChildReached(tree: seq<Edge>, k: int)
    requires 0 <= k < |tree|
    ensures tree[k].child in Reached(tree)
    decreases |tree|
  {
    if k < |tree| - 1 {
      var p := tree[..|tree| - 1];
      ChildReached(p, k);
    }
  }

  /** All tree nodes are among 0..n-1. */
  predicate Within(tree: seq<Edge>, n: int)
  {
    forall k :: 0 <= k < |tree| ==> 0 <= tree[k].parent < n && 0 <= tree[k].child < n
  }

  /** Nodes a and b are joined by a link of the tree, in either direction. */
  predicate TreeJoined(tree: seq<Edge>, a: int, b: int)
  {
    Edge(a, b) in tree || Edge(b, a) in tree
  }

  /** euclidean_distance (lines 28-31); the square root is a parameter. */
  function Distance(nodes: seq<Node>, sqrt: real -> real, a: int, b: int): real
    requires 0 <= a < |nodes| && 0 <= b < |nodes|
  {
    var dx := nodes[a].x - nodes[b].x;
    var dy := nodes[a].y - nodes[b].y;
    sqrt(dx * dx + dy * dy)
  }

  /** The length of the tree path from the root to v (0 when v is not reached). */
  function Depth(tree: seq<Edge>, nodes: seq<Node>, sqrt: real -> real, v: int): real
    requires Within(tree, |nodes|)
    decreases |tree|
  {
    if tree == [] then 0.0
    else
      var e := tree[|tree| - 1];
      var p := tree[..|tree| - 1];
      if e.child == v then Depth(p, nodes, sqrt, e.parent) + Distance(nodes, sqrt, e.parent, e.child)
      else Depth(p, nodes, sqrt, v)
  }

  /** The trench: the total length of the tree's links. */
  function Trench(tree: seq<Edge>, nodes: seq<Node>, sqrt: real -> real): real
    requires Within(tree, |nodes|)
    decreases |tree|
  {
    if tree == [] then 0.0
    else
      var e := tree[|tree| - 1];
      Trench(tree[..|tree| - 1], nodes, sqrt) + Distance(nodes, sqrt, e.parent, e.child)
  }

  /** The cable: the total over the reached nodes of their path length to the root. */
  function Cable(tree: seq<Edge>, nodes: seq<Node>, sqrt: real -> real): real
    requires Within(tree, |nodes|)
    decreases |tree|
  {
    if tree == [] then 0.0
    else Cable(tree[..|tree| - 1], nodes, sqrt) + Depth(tree, nodes, sqrt, tree[|tree| - 1].child)
  }

  /** With non-negative distances no path length is negative. */
  lemma {:induction false} DepthNonNegative(tree: seq<Edge>, nodes: seq<Node>, sqrt: real -> real, v: int)
    requires Within(tree, |nodes|) && forall x :: sqrt(x) >= 0.0
    ensures Depth(tree, nodes, sqrt, v) >= 0.0
    decreases |tree|
  {
    if tree != [] {
      var e := tree[|tree| - 1];
      var p := tree[..|tree| - 1];
      DepthNonNegative(p, nodes, sqrt, e.parent);
      DepthNonNegative(p, nodes, sqrt, v);
    }
  }

  /** Every node is cabled along the trenches to the root, so with non-negative distances the
      cable is never shorter than the trench, and neither is negative. */
  lemma {:induction false} CableCoversTrench(tree: seq<Edge>, nodes: seq<Node>, sqrt: real -> real)
    requires Within(tree, |nodes|) && forall x :: sqrt(x) >= 0.0
    ensures 0.0 <= Trench(tree, nodes, sqrt) <= Cable(tree, nodes, sqrt)
    decreases |tree|
  {
    if tree != [] {
      var e := tree[|tree| - 1];
      var p := tree[..|tree| - 1];
      CableCoversTrench(p, nodes, sqrt);
      DepthNonNegative(p, nodes, sqrt, e.parent);
    }
  }

  /** The nodes on the stack. */
  function Stacked(q: seq<(int, real, int)>): set<int>
    decreases |q|
  {
    if q == [] then {} else Stacked(q[..|q| - 1]) + {q[|q| - 1].0}
  }

  /** The root is always reached. */
  lemma {:induction false} RootReached(tree: seq<Edge>)
    ensures 0 in Reached(tree)
    decreases |tree|
  {
    if tree != [] {
      RootReached(tree[..|tree| - 1]);
    }
  }

  /** Node u, reached in the tree, has a tree link from its parent p (the root has p == -1). */
  ghost predicate ParentLink(tree: seq<Edge>, p: int, u: int)
  {
    (p == -1 && u == 0) || Edge(p, u) in tree
  }

  /** What the traversal keeps: vis is what the tree reaches, every tree link is an adjacency
      entry, every stack entry carries its node's path length and parent, and cable and trench
      are the tree's totals. */
  ghost predicate Explored(nodes: seq<Node>, con: seq<seq<int>>, sqrt: real -> real, tree: seq<Edge>,
                           vis: set<int>, q: seq<(int, real, int)>, cable: real, trench: real)
  {
    |con| == |nodes| && Shaped(con, tree, vis) && Stacks(tree, vis, q) && Totals(nodes, sqrt, tree, q, cable, trench)
  }

  /** vis is what the tree reaches, all among the nodes, and every tree link is an adjacency
      entry between reached nodes. */
  ghost predicate Shaped(con: seq<seq<int>>, tree: seq<Edge>, vis: set<int>)
  {
    vis == Reached(tree) && Rooted(tree) && Within(tree, |con|) &&
    (forall a :: a in vis ==> 0 <= a < |con|) &&
    (forall k :: 0 <= k < |tree| ==>
       tree[k].child in con[tree[k].parent] && tree[k].parent in vis && tree[k].child in vis)
  }

  /** Every stack entry names a reached node and its parent, and no node is stacked twice. */
  ghost predicate Stacks(tree: seq<Edge>, vis: set<int>, q: seq<(int, real, int)>)
  {
    (forall e :: e in q ==> e.0 in vis && ParentLink(tree, e.2, e.0)) &&
    (forall i, j :: 0 <= i < j < |q| ==> q[i].0 != q[j].0)
  }

  /** Every stack entry carries its node's path length, and cable and trench are the tree's
      totals. */
  ghost predicate Totals(nodes: seq<Node>, sqrt: real -> real, tree: seq<Edge>, q: seq<(int, real, int)>,
                         cable: real, trench: real)
  {
    Within(tree, |nodes|) &&
    (forall e :: e in q ==> e.1 == Depth(tree, nodes, sqrt, e.0)) &&
    cable == Cable(tree, nodes, sqrt) && trench == Trench(tree, nodes, sqrt)
  }

  /** Adding a link to a node w other than its child leaves w's path length as it was. */
  lemma DepthSnoc(tree: seq<Edge>, e: Edge, nodes: seq<Node>, sqrt: real -> real, w: int)
    requires Within(tree + [e], |nodes|) && e.child != w
    ensures Within(tree, |nodes|)
    ensures Depth(tree + [e], nodes, sqrt, w) == Depth(tree, nodes, sqrt, w)
  {
    assert (tree + [e])[..|tree|] == tree;
  }

  lemma ShapedSnoc(con: seq<seq<int>>, tree: seq<Edge>, vis: set<int>, u: int, v: int)
    requires Shaped(con, tree, vis)
    requires u in vis && 0 <= u < |con| && v in con[u] && 0 <= v < |con| && v !in vis
    ensures Shaped(con, tree + [Edge(u, v)], vis + {v})
  {
    var t := tree + [Edge(u, v)];
    RootedSnoc(tree, Edge(u, v));
    assert t[..|t| - 1] == tree;
    forall k | 0 <= k < |t|
      ensures t[k].child in con[t[k].parent] && t[k].parent in vis + {v} && t[k].child in vis + {v}
    {
      if k < |tree| {
        assert t[k] == tree[k];
      }
    }
  }

  lemma StacksSnoc(tree: seq<Edge>, vis: set<int>, q: seq<(int, real, int)>, u: int, v: int, d: real)
    requires Stacks(tree, vis, q) && v !in vis
    ensures Stacks(tree + [Edge(u, v)], vis + {v}, q + [(v, d, u)])
  {
    var t := tree + [Edge(u, v)];
    assert t[|tree|] == Edge(u, v);
    var q' := q + [(v, d, u)];
    forall i, j | 0 <= i < j < |q'| ensures q'[i].0 != q'[j].0 {
      assert q'[i] == q[i] && q[i] in q;
      if j < |q| {
        assert q'[j] == q[j];
      }
    }
    forall e | e in q + [(v, d, u)] ensures e.0 in vis + {v} && ParentLink(t, e.2, e.0) {
      if e in q {
        if e.2 != -1 || e.0 != 0 {
          var k :| 0 <= k < |tree| && tree[k] == Edge(e.2, e.0);
          assert t[k] == tree[k];
        }
      }
    }
  }

  lemma TotalsSnoc(nodes: seq<Node>, sqrt: real -> real, tree: seq<Edge>, vis: set<int>, q: seq<(int, real, int)>,
                   cable: real, trench: real, u: int, d: real, v: int)
    requires Totals(nodes, sqrt, tree, q, cable, trench)
    requires forall e :: e in q ==> e.0 in vis
    requires 0 <= u < |nodes| && 0 <= v < |nodes| && u in vis && v !in vis
    requires d == Depth(tree, nodes, sqrt, u)
    ensures var eucd := Distance(nodes, sqrt, u, v);
            Totals(nodes, sqrt, tree + [Edge(u, v)], q + [(v, d + eucd, u)], cable + (d + eucd), trench + eucd)
  {
    var t := tree + [Edge(u, v)];
    var eucd := Distance(nodes, sqrt, u, v);
    QueueDepthsSnoc(nodes, sqrt, tree, vis, q, u, v);
    LengthsSnoc(nodes, sqrt, tree, Edge(u, v));
    assert (q + [(v, d + eucd, u)])[|q|] == (v, d + eucd, u);
  }

  /** Appending a link to a new node leaves the path lengths of the stacked nodes alone. */
  lemma QueueDepthsSnoc(nodes: seq<Node>, sqrt: real -> real, tree: seq<Edge>, vis: set<int>,
                        q: seq<(int, real, int)>, u: int, v: int)
    requires Within(tree, |nodes|) && 0 <= u < |nodes| && 0 <= v < |nodes|
    requires forall e :: e in q ==> e.1 == Depth(tree, nodes, sqrt, e.0)
    requires forall e :: e in q ==> e.0 in vis
    requires v !in vis
    ensures Within(tree + [Edge(u, v)], |nodes|)
    ensures forall e :: e in q ==> e.1 == Depth(tree + [Edge(u, v)], nodes, sqrt, e.0)
  {
    forall e | e in q ensures e.1 == Depth(tree + [Edge(u, v)], nodes, sqrt, e.0) {
      DepthSnoc(tree, Edge(u, v), nodes, sqrt, e.0);
    }
  }

  /** The path length of a node just linked, and the totals after the link. */
  lemma LengthsSnoc(nodes: seq<Node>, sqrt: real -> real, tree: seq<Edge>, e: Edge)
    requires Within(tree, |nodes|) && 0 <= e.parent < |nodes| && 0 <= e.child < |nodes|
    ensures Within(tree + [e], |nodes|)
    ensures Depth(tree + [e], nodes, sqrt, e.child) ==
            Depth(tree, nodes, sqrt, e.parent) + Distance(nodes, sqrt, e.parent, e.child)
    ensures Trench(tree + [e], nodes, sqrt) == Trench(tree, nodes, sqrt) + Distance(nodes, sqrt, e.parent, e.child)
    ensures Cable(tree + [e], nodes, sqrt) == Cable(tree, nodes, sqrt) + Depth(tree + [e], nodes, sqrt, e.child)
  {
    assert (tree + [e])[..|tree|] == tree;
  }


  /** Lines 73-78: reaching the new node v from u keeps what the traversal keeps. */
  lemma Grow(nodes: seq<Node>, con: seq<seq<int>>, sqrt: real -> real, tree: seq<Edge>, vis: set<int>,
             q: seq<(int, real, int)>, cable: real, trench: real, u: int, d: real, v: int)
    requires Explored(nodes, con, sqrt, tree, vis, q, cable, trench)
    requires u in vis && d == Depth(tree, nodes, sqrt, u) && v in con[u] && 0 <= v < |con| && v !in vis
    ensures var eucd := Distance(nodes, sqrt, u, v);
            Explored(nodes, con, sqrt, tree + [Edge(u, v)], vis + {v}, q + [(v, d + eucd, u)],
                     cable + (d + eucd), trench + eucd)
  {
    var eucd := Distance(nodes, sqrt, u, v);
    ShapedSnoc(con, tree, vis, u, v);
    StacksSnoc(tree, vis, q, u, v, d + eucd);
    TotalsSnoc(nodes, sqrt, tree, vis, q, cable, trench, u, d, v);
  }

  /** Line 70: an adjacency entry of u naming a reached node other than u's parent is a
      revisit, provided a tree link from u to v can only come from an earlier entry v of the
      same list. */
  lemma CycleFound(tree: seq<Edge>, con: seq<seq<int>>, p: int, u: int, v: int)
    requires Rooted(tree) && ParentLink(tree, p, u) && v != p
    requires 0 <= u < |con| && v in con[u] && u in Reached(tree) && v in Reached(tree)
    requires Edge(u, v) in tree ==> multiset(con[u])[v] >= 2
    ensures RevisitAt(tree, con, u, v)
  {
    if Edge(v, u) in tree {
      if Edge(p, u) in tree {
        OneParent(tree, v, p, u);
      } else {
        RootNotChild(tree, v);
      }
    }
  }

  /** A value at two positions of a list occurs in it at least twice. */
  lemma Twice(s: seq<int>, j: int, i: int)
    requires 0 <= j < i < |s| && s[j] == s[i]
    ensures multiset(s)[s[i]] >= 2
  {
    assert s == s[..i] + s[i..];
    assert s[j] in s[..i] && s[i] in s[i..];
  }

  /** Every reached node other than the root has a tree link into it from a reached node. */
  lemma {:induction false} ParentOf(tree: seq<Edge>, a: int) returns (x: int)
    requires Rooted(tree) && a in Reached(tree) && a != 0
    ensures Edge(x, a) in tree && x in Reached(tree)
    decreases |tree|
  {
    var p := tree[..|tree| - 1];
    var e := tree[|tree| - 1];
    assert tree == p + [e];
    ReachedGrows(p, e);
    if a == e.child {
      x := e.parent;
    } else {
      x := ParentOf(p, a);
    }
  }

  /** Adding a link only adds its child to the reached nodes. */
  lemma ReachedGrows(p: seq<Edge>, e: Edge)
    ensures Reached(p + [e]) == Reached(p) + {e.child}
  {
    assert (p + [e])[..|p|] == p;
  }

  /** No link of a rooted tree joins a node to itself. */
  lemma {:induction false} NoSelfLoop(tree: seq<Edge>, a: int)
    requires Rooted(tree)
    ensures Edge(a, a) !in tree
    decreases |tree|
  {
    if tree != [] {
      var p := tree[..|tree| - 1];
      var e := tree[|tree| - 1];
      assert tree == p + [e];
      NoSelfLoop(p, a);
    }
  }

  /** The root is nobody's child. */
  lemma {:induction false} RootNotChild(tree: seq<Edge>, v: int)
    requires Rooted(tree)
    ensures Edge(v, 0) !in tree
    decreases |tree|
  {
    if tree != [] {
      var p := tree[..|tree| - 1];
      assert tree == p + [tree[|tree| - 1]];
      RootReached(p);
      RootNotChild(p, v);
    }
  }


  /** The reached nodes are closed under the adjacency lists: nothing more can be reached. */
  ghost predicate Closed(tree: seq<Edge>, con: seq<seq<int>>)
  {
    forall a, b :: 0 <= a < |con| && a in Reached(tree) && b in con[a] ==> b in Reached(tree)
  }

  /** The adjacency entry v of u leads from a reached node back to a reached node that is not
      u's parent in the tree, and either the link u-v is no tree link (the output has a cycle)
      or v is listed twice among u's neighbours (the output repeats a link). */
  ghost predicate RevisitAt(tree: seq<Edge>, con: seq<seq<int>>, u: int, v: int)
  {
    0 <= u < |con| && v in con[u] && u in Reached(tree) && v in Reached(tree) && Edge(v, u) !in tree &&
    (!TreeJoined(tree, u, v) || multiset(con[u])[v] >= 2)
  }

  /** A subset is no larger than its superset. */
  lemma SubsetAtMost(a: set<int>, b: set<int>)
    requires a <= b
    ensures |a| <= |b|
  {
    assert b == a + (b - a);
  }
}
