/** The waste-collection encoding (src/base.py): a route visits containers, each one entered in
    one of two directions, from the depot to the treatment plant. The instance holds the
    depot-to-container and container-to-plant tables (one row per direction) and four
    container-to-container tables, one per pair of consecutive directions. */
module WasteCollection {
  import opened Wrappers
  import opened Text

  /** A direction of travel through a container: 0 or 1. */
  type Dir = d: int | 0 <= d <= 1

  /** Problem: `links[k]` is the container-to-container table of direction index k. */
  datatype Problem = Problem(
    n: int,
    depot: seq<seq<int>>,
    plant: seq<seq<int>>,
    links: seq<seq<seq<int>>>)

  /** Solution: the route (containers and their directions) and the picked / not yet picked
      containers. */
  datatype Solution = Solution(
    containers: seq<nat>,
    directions: seq<Dir>,
    picked: seq<nat>,
    notPicked: seq<nat>)

  /** is_feasible: every container has been picked. */
  predicate IsFeasible(s: Solution)
  {
    |s.notPicked| == 0
  }

  // ------------------------------------------------------------------ direction index

  /** str(d) for a direction. */
  function Digit(d: Dir): char
  {
    if d == 0 then '0' else '1'
  }

  /** The value of a string of binary digits, most significant first; None as soon as some
      character is not a binary digit. */
  function BinaryValue(s: string): Option<nat>
    decreases |s|
  {
    if s == [] then Some(0)
    else
      var p := BinaryValue(s[..|s| - 1]);
      var c := s[|s| - 1];
      if p.None? || (c != '0' && c != '1') then None
      else Some(2 * p.value + (if c == '0' then 0 else 1))
  }

  /** int(s, 2): the empty string and non-binary characters raise ValueError (None here). */
  function ParseBinary(s: string): Option<nat>
  {
    if s == [] then None else BinaryValue(s)
  }

  /** The direction index of a link: the two directions written side by side and read in
      base 2. It is 2 * p + c, so the four pairs of directions get the four indexes 0..3, one
      each. */
  function DirIndex(p: Dir, c: Dir): (r: nat)
    ensures r == 2 * p + c && r <= 3
  {
    var s := [Digit(p), Digit(c)];
    assert s[..1] == [Digit(p)] && [Digit(p)][..0] == [];
    assert BinaryValue([Digit(p)]) == Some(p);
    assert BinaryValue(s) == Some(2 * p + c);
    ParseBinary(s).value
  }

  // ------------------------------------------------------------------ objective

  /** m[k][i][j], or IndexError. */
  function At3(m: seq<seq<seq<int>>>, k: nat, i: nat, j: nat): (r: Run<int>)
    ensures r.Raised? ==> r.error == IndexError
  {
    if k < |m| then At(m[k], i, j) else Raised(IndexError)
  }

  /** The cost of the link into position i of the route. */
  function Link(pr: Problem, cs: seq<nat>, ds: seq<Dir>, i: nat): Run<int>
    requires 1 <= i < |cs| && i < |ds|
  {
    At3(pr.links, DirIndex(ds[i - 1], ds[i]), cs[i - 1], cs[i])
  }

  /** The links into positions 1 .. k-1, summed in route order. */
  function Links(pr: Problem, cs: seq<nat>, ds: seq<Dir>, k: nat): (r: Run<int>)
    requires 1 <= k <= |cs| && k <= |ds|
    ensures r.Raised? ==> r.error == IndexError
  {
    if k == 1 then Ok(0) else Plus(Links(pr, cs, ds, k - 1), Link(pr, cs, ds, k - 1))
  }

  /** Once a link is missing from its table, every longer prefix is missing one too. */
  lemma {:induction false} LinksRaised(pr: Problem, cs: seq<nat>, ds: seq<Dir>, k: nat, k': nat)
    requires 1 <= k <= k' <= |cs| && k' <= |ds|
    requires Links(pr, cs, ds, k).Raised?
    ensures Links(pr, cs, ds, k').Raised?
    decreases k' - k
  {
    if k < k' {
      LinksRaised(pr, cs, ds, k, k' - 1);
    }
  }

  /** The cost of a route: depot to the first container, the links in order, and the last
      container to the plant, each table chosen by the directions. A route with no container,
      or with fewer directions than containers, reads past the end of a list (IndexError), and
      so does any missing table entry. The plant leg uses the last direction of the list. */
  function RouteCost(pr: Problem, cs: seq<nat>, ds: seq<Dir>): (r: Run<int>)
    ensures r.Raised? ==> r.error == IndexError
  {
    if cs == [] || |ds| < |cs| then Raised(IndexError)
    else Plus(Plus(At(pr.depot, ds[0], cs[0]), Links(pr, cs, ds, |cs|)),
              At(pr.plant, ds[|ds| - 1], cs[|cs| - 1]))
  }

  /** The objective as a result: None while some container is not picked, the route cost
      otherwise (or the exception computing it raises). */
  function ObjectiveOf(pr: Problem, s: Solution): Run<Option<int>>
  {
    if |s.notPicked| > 0 then Ok(None)
    else match RouteCost(pr, s.containers, s.directions)
      case Ok(v) => Ok(Some(v))
      case Raised(e) => Raised(e)
  }

  /** The leg into position i of the route: from the depot for the first position, from the
      previous container otherwise. */
  function Leg(pr: Problem, cs: seq<nat>, ds: seq<Dir>, i: nat): Run<int>
    requires i < |cs| && i < |ds|
  {
    if i == 0 then At(pr.depot, ds[0], cs[0]) else Link(pr, cs, ds, i)
  }

  /** The legs into positions 0 .. k-1, summed in route order. */
  function Legs(pr: Problem, cs: seq<nat>, ds: seq<Dir>, k: nat): Run<int>
    requires k <= |cs| && k <= |ds|
  {
    if k == 0 then Ok(0) else Plus(At(pr.depot, ds[0], cs[0]), Links(pr, cs, ds, k))
  }

  /** One more position adds its leg. */
  lemma LegsStep(pr: Problem, cs: seq<nat>, ds: seq<Dir>, i: nat)
    requires 1 <= i <= |cs| && i <= |ds|
    requires Legs(pr, cs, ds, i - 1).Ok? && Leg(pr, cs, ds, i - 1).Ok?
    ensures Legs(pr, cs, ds, i) == Ok(Legs(pr, cs, ds, i - 1).value + Leg(pr, cs, ds, i - 1).value)
  {
    if i > 1 {
      assert Links(pr, cs, ds, i) == Plus(Links(pr, cs, ds, i - 1), Link(pr, cs, ds, i - 1));
    }
  }

  /** A missing leg makes the whole route cost raise IndexError. */
  lemma LegRaised(pr: Problem, cs: seq<nat>, ds: seq<Dir>, i: nat)
    requires i < |cs| && i < |ds| && Leg(pr, cs, ds, i).Raised?
    ensures RouteCost(pr, cs, ds) == Raised(IndexError)
  {
    if i > 0 && |cs| <= |ds| {
      LinksRaised(pr, cs, ds, i + 1, |cs|);
    }
  }

  /** objective(): None when some container is not picked; otherwise it adds, position by
      position, the depot leg (first position) or the link from the previous container, then
      the plant leg of the last container. */
  method Objective(pr: Problem, s: Solution) returns (r: Run<Option<int>>)
    ensures r == ObjectiveOf(pr, s)
  {
    if |s.notPicked| > 0 {
      return Ok(None);
    }
    var cs, ds := s.containers, s.directions;
    var obj := 0;
    for idx := 0 to |cs|
      invariant idx <= |ds| && Legs(pr, cs, ds, idx) == Ok(obj)
    {
      if idx >= |ds| {
        return Raised(IndexError);
      }
      var leg := Leg(pr, cs, ds, idx);
      if leg.Raised? {
        LegRaised(pr, cs, ds, idx);
        return Raised(IndexError);
      }
      LegsStep(pr, cs, ds, idx + 1);
      obj := obj + leg.value;
    }
    if |ds| == 0 || |cs| == 0 {
      return Raised(IndexError);
    }
    var leg := At(pr.plant, ds[|ds| - 1], cs[|cs| - 1]);
    if leg.Raised? {
      return Raised(IndexError);
    }
    r := Ok(Some(obj + leg.value));
  }

  // ------------------------------------------------------------------ parser

  /** The instance from_textio builds from n and the lines after the first: lines 1 and 2 are
      the depot rows of directions 0 and 1, lines 3 and 4 the plant rows, and the next four
      blocks of n lines are the link tables of direction indexes 0, 1, 3 and 2, in that order.
      For a negative n no line is read. */
  function Layout(n: int, rows: seq<seq<int>>): (pr: Problem)
    ensures |pr.depot| == 2 && |pr.plant| == 2 && |pr.links| == 4
    ensures forall k :: 0 <= k < 4 ==> |pr.links[k]| == (if n < 0 then 0 else n)
  {
    if n < 0 then Problem(n, [[], []], [[], []], [[], [], [], []])
    else
      Problem(n, [Row(rows, 0), Row(rows, 1)], [Row(rows, 2), Row(rows, 3)],
              [Block(rows, 4, n), Block(rows, 4 + n, n), Block(rows, 4 + 3 * n, n), Block(rows, 4 + 2 * n, n)])
  }

  /** How many lines of a block starting at line position s have been read after the first
      k lines. */
  function Filled(k: nat, s: nat, n: nat): nat
  {
    if k <= s then 0 else if k - s >= n then n else k - s
  }

  /** The line position where the block of table j starts: the blocks of n lines after the
      four head lines fill tables 0, 1, 3 and 2, in that order. */
  function Start(j: nat, n: nat): nat
  {
    if j == 0 then 4 else if j == 1 then 4 + n else if j == 2 then 4 + 3 * n else 4 + 2 * n
  }

  /** Table j after the first k lines (of 4 + 4n) have been read. */
  function Table(n: nat, rows: seq<seq<int>>, k: nat, j: nat): seq<seq<int>>
  {
    Block(rows, Start(j, n), Filled(k, Start(j, n), n))
  }

  /** Head line i (the depot rows 0 and 1, the plant rows 2 and 3) after the first k lines. */
  function Head(rows: seq<seq<int>>, k: nat, i: nat): seq<int>
  {
    if k > i then Row(rows, i) else []
  }

  lemma BlockSnoc(rows: seq<seq<int>>, s: nat, f: nat)
    ensures Block(rows, s, f + 1) == Block(rows, s, f) + [Row(rows, s + f)]
  {
    assert |Block(rows, s, f + 1)| == |Block(rows, s, f) + [Row(rows, s + f)]|;
  }

  /** Reading line k appends it to table j exactly when k lies within that table's block. */
  lemma TableStep(n: nat, rows: seq<seq<int>>, k: nat, j: nat)
    ensures Table(n, rows, k + 1, j) ==
            if Start(j, n) <= k < Start(j, n) + n then Table(n, rows, k, j) + [Row(rows, k)]
            else Table(n, rows, k, j)
  {
    var s := Start(j, n);
    if s <= k < s + n {
      assert Filled(k, s, n) == k - s && Filled(k + 1, s, n) == k - s + 1;
      BlockSnoc(rows, s, k - s);
    }
  }

  /** The four tables after the first k lines have been read. */
  function Tables(n: nat, rows: seq<seq<int>>, k: nat): (r: seq<seq<seq<int>>>)
    ensures |r| == 4 && forall j :: 0 <= j < 4 ==> r[j] == Table(n, rows, k, j)
  {
    [Table(n, rows, k, 0), Table(n, rows, k, 1), Table(n, rows, k, 2), Table(n, rows, k, 3)]
  }

  /** Before any line is read the tables are empty. */
  lemma TablesStart(n: nat, rows: seq<seq<int>>)
    ensures Tables(n, rows, 0) == [[], [], [], []]
  {
    forall j | 0 <= j < 4 ensures Table(n, rows, 0, j) == [] {
      assert Filled(0, Start(j, n), n) == 0;
    }
  }

  /** The blocks of different tables do not overlap. */
  lemma StartsApart(n: nat, i: nat, j: nat)
    requires i < 4 && j < 4 && i != j
    ensures Start(i, n) + n <= Start(j, n) || Start(j, n) + n <= Start(i, n)
  {
  }

  /** Reading line i - 1 appends it to table t, whose block holds that line, and to no other
      table. */
  lemma TablesStep(n: nat, rows: seq<seq<int>>, i: nat, t: nat)
    requires 1 <= i && t < 4 && Start(t, n) < i <= Start(t, n) + n
    ensures Tables(n, rows, i) == Tables(n, rows, i - 1)[t := Tables(n, rows, i - 1)[t] + [Row(rows, i - 1)]]
  {
    var old_ := Tables(n, rows, i - 1);
    var r := old_[t := old_[t] + [Row(rows, i - 1)]];
    forall j | 0 <= j < 4 ensures r[j] == Table(n, rows, i, j) {
      TableStep(n, rows, i - 1, j);
      if j != t {
        StartsApart(n, j, t);
      }
    }
  }

  /** Reading head line i - 1 leaves the tables as they were. */
  lemma HeadStep(n: nat, rows: seq<seq<int>>, i: nat)
    requires 1 <= i <= 4
    ensures Tables(n, rows, i) == Tables(n, rows, i - 1)
  {
    forall j | 0 <= j < 4 ensures Table(n, rows, i - 1, j) == Table(n, rows, i, j) {
      TableStep(n, rows, i - 1, j);
    }
  }

  /** Once all 4 + 4n lines are read, the tables are the whole blocks. */
  lemma TablesDone(n: nat, rows: seq<seq<int>>)
    ensures Tables(n, rows, 4 + 4 * n) == Layout(n, rows).links
  {
    forall j | 0 <= j < 4 ensures Tables(n, rows, 4 + 4 * n)[j] == Layout(n, rows).links[j] {
      assert Filled(4 + 4 * n, Start(j, n), n) == n;
    }
  }

  /** The depot and plant rows hold what the first k lines put in them. */
  ghost predicate HeadsAt(rows: seq<seq<int>>, k: nat, depot: seq<seq<int>>, plant: seq<seq<int>>)
  {
    |depot| == 2 && |plant| == 2 &&
    depot[0] == Head(rows, k, 0) && depot[1] == Head(rows, k, 1) &&
    plant[0] == Head(rows, k, 2) && plant[1] == Head(rows, k, 3)
  }

  /** Reading head line k (of 0 .. 3) fills the depot row k or the plant row k - 2. */
  lemma HeadsRead(rows: seq<seq<int>>, k: nat, depot: seq<seq<int>>, plant: seq<seq<int>>)
    requires k < 4 && HeadsAt(rows, k, depot, plant)
    ensures k < 2 ==> HeadsAt(rows, k + 1, depot[k := Row(rows, k)], plant)
    ensures k >= 2 ==> HeadsAt(rows, k + 1, depot, plant[k - 2 := Row(rows, k)])
  {
  }

  /** Lines after the four head lines leave the depot and plant rows alone. */
  lemma HeadsKeep(rows: seq<seq<int>>, k: nat, depot: seq<seq<int>>, plant: seq<seq<int>>)
    requires k >= 4 && HeadsAt(rows, k, depot, plant)
    ensures HeadsAt(rows, k + 1, depot, plant)
  {
  }

  /** Once the four head lines are read, the depot and plant rows are those lines. */
  lemma HeadsDone(rows: seq<seq<int>>, k: nat, depot: seq<seq<int>>, plant: seq<seq<int>>)
    requires k >= 4 && HeadsAt(rows, k, depot, plant)
    ensures depot == [Row(rows, 0), Row(rows, 1)] && plant == [Row(rows, 2), Row(rows, 3)]
  {
  }

  /** One pass of from_textio's loop: line idx (of 1 .. 4 + 4n) becomes a depot row, a plant
      row, or the next row of the link table its position selects. */
  method ReadLine(n: nat, rows: seq<seq<int>>, idx: nat, depot: seq<seq<int>>, plant: seq<seq<int>>,
                  links: seq<seq<seq<int>>>)
    returns (depot': seq<seq<int>>, plant': seq<seq<int>>, links': seq<seq<seq<int>>>)
    requires 1 <= idx < 5 + 4 * n
    requires HeadsAt(rows, idx - 1, depot, plant) && links == Tables(n, rows, idx - 1)
    ensures HeadsAt(rows, idx, depot', plant') && links' == Tables(n, rows, idx)
  {
    depot', plant', links' := depot, plant, links;
    var elements := Row(rows, idx - 1);
    if idx < 5 {
      HeadStep(n, rows, idx);
      HeadsRead(rows, idx - 1, depot, plant);
    } else {
      HeadsKeep(rows, idx - 1, depot, plant);
    }
    if idx == 1 {
      depot' := depot[0 := elements];
    } else if idx == 2 {
      depot' := depot[1 := elements];
    } else if idx == 3 {
      plant' := plant[0 := elements];
    } else if idx == 4 {
      plant' := plant[1 := elements];
    } else if idx < n + 5 {
      TablesStep(n, rows, idx, 0);
      links' := links[0 := links[0] + [elements]];
    } else if idx < 2 * n + 5 {
      TablesStep(n, rows, idx, 1);
      links' := links[1 := links[1] + [elements]];
    } else if idx < 3 * n + 5 {
      TablesStep(n, rows, idx, 3);
      links' := links[3 := links[3] + [elements]];
    } else {
      TablesStep(n, rows, idx, 2);
      links' := links[2 := links[2] + [elements]];
    }
  }

  /** from_textio over the lines after the first: reads lines 1 .. 4 + 4n in order and puts
      each where its position selects. */
  method FromRows(n: int, rows: seq<seq<int>>) returns (pr: Problem)
    ensures pr == Layout(n, rows)
  {
    var depot: seq<seq<int>> := [[], []];
    var plant: seq<seq<int>> := [[], []];
    var links: seq<seq<seq<int>>> := [[], [], [], []];
    var idx := 1;
    if n >= 0 {
      TablesStart(n, rows);
    }
    while idx < 5 + 4 * n
      invariant 1 <= idx && (n >= 0 ==> idx <= 5 + 4 * n) && (n < 0 ==> idx == 1)
      invariant n >= 0 ==> links == Tables(n, rows, idx - 1) && HeadsAt(rows, idx - 1, depot, plant)
      invariant n < 0 ==> depot == [[], []] && plant == [[], []] && links == [[], [], [], []]
      decreases 5 + 4 * n - idx
    {
      depot, plant, links := ReadLine(n, rows, idx, depot, plant, links);
      idx := idx + 1;
    }
    if n >= 0 {
      TablesDone(n, rows);
      HeadsDone(rows, 4 + 4 * n, depot, plant);
    }
    pr := Problem(n, depot, plant, links);
  }
}
