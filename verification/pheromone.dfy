/** The pheromone table of the ant algorithms (src/api/ant_system.py, src/api/mmas.py): a
    defaultdict from component id to trail, whose default is the current value of `tau0`. */
module Pheromone {
  import opened Utils

  /** The stored trails, their ids in insertion order (the order `for k in tau` visits them),
      and the default a missing id reads as. The defaultdict's factory is `lambda: tau0`, which
      reads the variable tau0 when called, so the default follows every reassignment of tau0. */
  datatype Table = Table(order: seq<int>, trails: map<int, real>, default: real)

  /** A table with no stored trail. */
  function Fresh(tau0: real): (t: Table)
    ensures Wf(t) && forall k :: Lookup(t, k) == tau0
  {
    Table([], map[], tau0)
  }

  /** Each stored id appears once in the insertion order, and only stored ids appear there. */
  ghost predicate Wf(t: Table)
  {
    && (forall i, j :: 0 <= i < j < |t.order| ==> t.order[i] != t.order[j])
    && (forall i :: 0 <= i < |t.order| ==> t.order[i] in t.trails)
    && (forall k :: k in t.trails ==> k in t.order)
  }

  /** tau[k]: the stored trail, or the default for an id not stored yet. */
  function Lookup(t: Table, k: int): real
  {
    if k in t.trails then t.trails[k] else t.default
  }

  /** `tau0 = g(tau0); for k in tau: tau[k] = g(tau[k])`: the same update of the default and of
      every stored trail, so every id, stored or not, reads as g of what it read before. */
  method Remap(t: Table, g: real -> real) returns (r: Table)
    requires Wf(t)
    ensures Wf(r) && r.order == t.order && r.trails.Keys == t.trails.Keys
    ensures r.default == g(t.default)
    ensures forall k :: Lookup(r, k) == g(Lookup(t, k))
  {
    var trails := t.trails;
    for i := 0 to |t.order|
      invariant trails.Keys == t.trails.Keys
      invariant forall j :: 0 <= j < i ==> trails[t.order[j]] == g(t.trails[t.order[j]])
      invariant forall j :: i <= j < |t.order| ==> trails[t.order[j]] == t.trails[t.order[j]]
    {
      var k := t.order[i];
      trails := trails[k := g(trails[k])];
    }
    r := Table(t.order, trails, g(t.default));
    forall k | k in trails ensures trails[k] == g(t.trails[k]) {
      var j :| 0 <= j < |t.order| && t.order[j] == k;
    }
  }

  /** How many times k occurs in s. */
  function Count(s: seq<int>, k: int): (n: nat)
    ensures n <= |s|
    ensures n == 0 <==> k !in s
  {
    if s == [] then 0
    else Count(s[..|s| - 1], k) + (if s[|s| - 1] == k then 1 else 0)
  }

  /** g applied n times to x. */
  function Repeat(g: real -> real, n: nat, x: real): real
  {
    if n == 0 then x else g(Repeat(g, n - 1, x))
  }

  /** `tau[cid] = g(tau[cid])` on a defaultdict: a missing cid is stored as g(tau0). */
  function Bump(t: Table, cid: int, g: real -> real): (r: Table)
    requires Wf(t)
    ensures Wf(r) && r.default == t.default && t.order <= r.order
    ensures forall k :: k in r.trails <==> k in t.trails || k == cid
    ensures forall k :: Lookup(r, k) == if k == cid then g(Lookup(t, k)) else Lookup(t, k)
  {
    if cid !in t.trails then Table(t.order + [cid], t.trails[cid := g(t.default)], t.default)
    else Table(t.order, t.trails[cid := g(t.trails[cid])], t.default)
  }

  /** `for cid in cids: tau[cid] = g(tau[cid])`: each id is updated once per occurrence, the
      default and every other id keep their value, and the updated ids become stored. */
  method Deposit(t: Table, cids: seq<int>, g: real -> real) returns (r: Table)
    requires Wf(t)
    ensures Wf(r) && r.default == t.default
    ensures forall k :: Lookup(r, k) == Repeat(g, Count(cids, k), Lookup(t, k))
    ensures t.order <= r.order && forall k :: k in r.trails <==> k in t.trails || k in cids
  {
    r := t;
    for i := 0 to |cids|
      invariant Wf(r) && r.default == t.default && t.order <= r.order
      invariant forall k :: Lookup(r, k) == Repeat(g, Count(cids[..i], k), Lookup(t, k))
      invariant forall k :: k in r.trails <==> k in t.trails || k in cids[..i]
    {
      assert cids[..i + 1][..i] == cids[..i];
      r := Bump(r, cids[i], g);
    }
    assert cids[..|cids|] == cids;
  }

  /** Ant System's reinforcement: adding d once per occurrence adds d n times. */
  lemma {:induction false} RepeatAdd(g: real -> real, d: real, n: nat, x: real)
    requires forall y :: g(y) == y + d
    ensures Repeat(g, n, x) == x + Times(n, d)
  {
    if n > 0 {
      RepeatAdd(g, d, n - 1, x);
    }
  }

  /** Ant System's reinforcement `for cid in cids: tau[cid] += d` (a missing cid starting from
      tau0): each trail gains d once per occurrence of its id. */
  method AddEach(t: Table, cids: seq<int>, d: real) returns (r: Table)
    requires Wf(t)
    ensures Wf(r) && r.default == t.default
    ensures forall k :: Lookup(r, k) == Lookup(t, k) + Times(Count(cids, k), d)
  {
    var g := x => x + d;
    r := Deposit(t, cids, g);
    forall k ensures Lookup(r, k) == Lookup(t, k) + Times(Count(cids, k), d) {
      RepeatAdd(g, d, Count(cids, k), Lookup(t, k));
    }
  }

  function MinReal(a: real, b: real): real { if a <= b then a else b }

  /** max(lo, min(hi, x)). */
  function Clamp(lo: real, hi: real, x: real): (r: real)
    ensures lo <= hi ==> lo <= r <= hi
    ensures lo <= x <= hi ==> r == x
  {
    MaxReal(lo, MinReal(hi, x))
  }

  /** MMAS's reinforcement min(hi, x + d) with d >= 0, applied n >= 1 times, is one capped add
      of d n times. */
  lemma {:induction false} RepeatCapped(g: real -> real, hi: real, d: real, n: nat, x: real)
    requires forall y :: g(y) == MinReal(hi, y + d)
    requires d >= 0.0 && n >= 1
    ensures Repeat(g, n, x) == MinReal(hi, x + Times(n, d))
  {
    if n > 1 {
      RepeatCapped(g, hi, d, n - 1, x);
      CappedTwice(hi, x + Times(n - 1, d), d);
    }
  }

  lemma CappedTwice(hi: real, y: real, d: real)
    requires d >= 0.0
    ensures MinReal(hi, MinReal(hi, y) + d) == MinReal(hi, y + d)
  {
  }

  /** ... and so keeps a trail that starts in [lo, hi] inside [lo, hi]. */
  lemma {:induction false} RepeatCappedBounds(g: real -> real, hi: real, d: real, n: nat, x: real)
    requires forall y :: g(y) == MinReal(hi, y + d)
    requires d >= 0.0 && x <= hi
    ensures x <= Repeat(g, n, x) <= hi
  {
    if n > 0 {
      RepeatCappedBounds(g, hi, d, n - 1, x);
    }
  }

  /** Every id, stored or not, reads inside [lo, hi]. */
  ghost predicate InBounds(t: Table, lo: real, hi: real)
  {
    forall k :: lo <= Lookup(t, k) <= hi
  }
}
