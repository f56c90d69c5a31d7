/** The community-detection evaluator (src/evaluators/community_detection.py): the input is n
    and the upper triangle of a symmetric weight matrix, the output lists one community
    (clique) per line, and the objective adds, in every clique, the weights of all its pairs of
    nodes, each node with itself included.
    Line numbers in the comments below are those of src/evaluators/community_detection.py. */
module CommunityDetectionEvaluator {
  import opened Wrappers
  import opened Utils
  import opened Text

  // ------------------------------------------------------------------ the weight matrix

  /** Lines 1 .. k of the input hold n, n - 1, ..., n - k + 1 integers: the upper triangle,
      diagonal included, row by row. */
  predicate Shaped(rows: seq<seq<int>>, n: int, k: int)
  {
    forall l: nat :: 1 <= l <= k ==> |Row(rows, l)| == n - l + 1
  }

  /** w[a][j] as built by lines 27-31: read from the upper triangle, with the row and column
      swapped below the diagonal. */
  function Entry(rows: seq<seq<int>>, n: int, a: nat, j: nat): int
    requires a < n && j < n
    requires Shaped(rows, n, if a < j then a + 1 else j + 1)
  {
    if j < a then Row(rows, j + 1)[a - j] else Row(rows, a + 1)[j - a]
  }

  /** Row a of the matrix. */
  function MatrixRow(rows: seq<seq<int>>, n: int, a: nat): (r: seq<int>)
    requires a < n && Shaped(rows, n, a + 1)
    ensures |r| == n && forall j :: 0 <= j < n ==> r[j] == Entry(rows, n, a, j)
  {
    seq(n, j requires 0 <= j < n => Entry(rows, n, a, j))
  }

  /** The weights as read: n rows, none for n <= 0. */
  function Matrix(rows: seq<seq<int>>, n: int): (w: seq<seq<int>>)
    requires Shaped(rows, n, n)
    ensures |w| == (if n < 0 then 0 else n)
    ensures forall a :: 0 <= a < |w| ==> w[a] == MatrixRow(rows, n, a)
  {
    if n <= 0 then [] else seq(n, a requires 0 <= a < n => MatrixRow(rows, n, a))
  }

  /** The matrix is square and symmetric, and on and above the diagonal it holds the input's
      upper triangle: w[a][j] is entry j - a of input line a + 1. */
  lemma MatrixSymmetric(rows: seq<seq<int>>, n: int)
    requires Shaped(rows, n, n)
    ensures forall a :: 0 <= a < |Matrix(rows, n)| ==> |Matrix(rows, n)[a]| == |Matrix(rows, n)|
    ensures forall a, j :: 0 <= a < n && 0 <= j < n ==> Matrix(rows, n)[a][j] == Matrix(rows, n)[j][a]
    ensures forall a, j :: 0 <= a <= j < n ==> Matrix(rows, n)[a][j] == Row(rows, a + 1)[j - a]
  {
  }

  /** Lines 22-31: n from the first line (ValueError unless it is exactly one integer), then
      line i + 1 must hold n - i integers (AssertionError otherwise). */
  function ReadWeights(rows: seq<seq<int>>): (r: Run<(int, seq<seq<int>>)>)
    ensures r.Raised? ==> r.error == ValueError || r.error == AssertionError
  {
    if |Row(rows, 0)| != 1 then Raised(ValueError)
    else
      var n := Row(rows, 0)[0];
      if !Shaped(rows, n, n) then Raised(AssertionError) else Ok((n, Matrix(rows, n)))
  }

  /** The reading loops of lines 24-31. */
  method Read(rows: seq<seq<int>>) returns (r: Run<(int, seq<seq<int>>)>)
    ensures r == ReadWeights(rows)
  {
    if |Row(rows, 0)| != 1 {
      return Raised(ValueError);
    }
    var n := Row(rows, 0)[0];
    var w: seq<seq<int>> := [];
    var m := if n < 0 then 0 else n;
    for i := 0 to m
      invariant |w| == i && Shaped(rows, n, i)
      invariant forall a :: 0 <= a < i ==> w[a] == MatrixRow(rows, n, a)
    {
      var aux := Row(rows, i + 1);
      if |aux| != n - i {
        return Raised(AssertionError);
      }
      var row := [];
      for j := 0 to i
        invariant |row| == j && forall b :: 0 <= b < j ==> row[b] == Entry(rows, n, i, b)
      {
        row := row + [w[j][i]];
      }
      row := row + aux;
      assert row == MatrixRow(rows, n, i);
      w := w + [row];
    }
    assert w == Matrix(rows, n);
    return Ok((n, w));
  }

  // ------------------------------------------------------------------ the cliques

  /** The cliques of the output, one per line that parses as integers; a line that does not is
      skipped. */
  function Cliques(lines: seq<Line>): (r: seq<seq<int>>)
    ensures |r| <= |lines|
    decreases |lines|
  {
    if lines == [] then []
    else
      var l := lines[|lines| - 1];
      Cliques(lines[..|lines| - 1]) + (if l.Ints? then [l.xs] else [])
  }

  /** All the nodes of the cliques, in order. */
  function Flat(cs: seq<seq<int>>): (r: seq<int>)
    decreases |cs|
  {
    if cs == [] then [] else Flat(cs[..|cs| - 1]) + cs[|cs| - 1]
  }

  /** Every node is one of 1..n. */
  predicate InNodes(c: seq<int>, n: int)
  {
    forall t :: 0 <= t < |c| ==> 1 <= c[t] <= n
  }

  /** Lines 36-52: every node in 1..n, none repeated, and n distinct nodes in all. */
  predicate Partition(cs: seq<seq<int>>, n: int)
  {
    var flat := Flat(cs);
    InNodes(flat, n) && |Elems(flat)| == |flat| && |Elems(flat)| == n
  }

  /** Flat of a longer list of cliques extends it. */
  lemma {:induction false} FlatPrefix(cs: seq<seq<int>>, k: nat, t: nat)
    requires k < |cs| && t <= |cs[k]|
    ensures Flat(cs[..k]) + cs[k][..t] <= Flat(cs)
    decreases |cs|
  {
    var p := cs[..|cs| - 1];
    if k < |p| {
      assert p[..k] == cs[..k] && p[k] == cs[k];
      FlatPrefix(p, k, t);
    } else {
      assert cs[..|cs|] == cs;
    }
  }

  /** An accepted output is a partition of the nodes: every node of 1..n occurs in exactly one
      clique, exactly once. */
  lemma PartitionCovers(cs: seq<seq<int>>, n: int)
    requires Partition(cs, n)
    ensures Distinct(Flat(cs)) && |Flat(cs)| == n
    ensures forall v :: v in Flat(cs) <==> 1 <= v <= n
  {
    var flat := Flat(cs);
    CardElems(flat);
    var shifted := seq(|flat|, t requires 0 <= t < |flat| => flat[t] - 1);
    assert Distinct(shifted);
    Covers(shifted, |flat|);
    forall v | 1 <= v <= n ensures v in flat {
      assert v - 1 in shifted;
      var t :| 0 <= t < |flat| && shifted[t] == v - 1;
      assert flat[t] == v;
    }
  }

  /** Nodes in 1..n, none repeated. */
  ghost predicate Admissible(s: seq<int>, n: int)
  {
    InNodes(s, n) && Distinct(s)
  }

  /** Lines 42-49 for one clique c, the nodes seen so far being `seen`, collected in the set
      `nodes`: stop at the first node out of range or already seen. */
  method Admit(c: seq<int>, n: int, nodes: set<int>, ghost seen: seq<int>) returns (ok: bool, nodes': set<int>)
    requires nodes == Elems(seen) && Admissible(seen, n)
    ensures ok <==> Admissible(seen + c, n)
    ensures ok ==> nodes' == Elems(seen + c)
  {
    nodes' := nodes;
    CardElems(seen);
    for t := 0 to |c|
      invariant nodes' == Elems(seen + c[..t]) && Admissible(seen + c[..t], n)
    {
      var v := c[t];
      ghost var s := seen + c[..t];
      assert seen + c[..t + 1] == s + [v];
      assert (seen + c)[|s|] == v;
      if v > n || v < 1 {
        return false, nodes';
      }
      if v in nodes' {
        ghost var i :| 0 <= i < |s| && s[i] == v;
        assert (seen + c)[i] == v;
        return false, nodes';
      }
      assert Elems(s + [v]) == nodes' + {v};
      nodes' := nodes' + {v};
    }
    assert c[..|c|] == c;
    ok := true;
  }

  /** What is admissible stays so on a prefix. */
  lemma AdmissiblePrefix(s: seq<int>, t: seq<int>, n: int)
    requires s <= t && Admissible(t, n)
    ensures Admissible(s, n)
  {
    assert forall i :: 0 <= i < |s| ==> s[i] == t[i];
  }

  /** Lines 36-52: the cliques one by one, then the count of distinct nodes. */
  method Check(cs: seq<seq<int>>, n: int) returns (ok: bool)
    ensures ok <==> Partition(cs, n)
  {
    CardElems(Flat(cs));
    var nodes: set<int> := {};
    ghost var seen: seq<int> := [];
    for k := 0 to |cs|
      invariant seen == Flat(cs[..k]) && nodes == Elems(seen) && Admissible(seen, n)
    {
      var admitted;
      assert cs[..k + 1][..k] == cs[..k];
      FlatPrefix(cs, k, |cs[k]|);
      assert cs[k][..|cs[k]|] == cs[k];
      admitted, nodes := Admit(cs[k], n, nodes, seen);
      if !admitted {
        if Admissible(Flat(cs), n) {
          AdmissiblePrefix(seen + cs[k], Flat(cs), n);
        }
        return false;
      }
      seen := seen + cs[k];
    }
    assert cs[..|cs|] == cs;
    CardElems(seen);
    ok := |nodes| == n;
  }

  // ------------------------------------------------------------------ the objective

  /** Square n-by-n weights. */
  predicate Square(w: seq<seq<int>>)
  {
    forall a :: 0 <= a < |w| ==> |w[a]| == |w|
  }

  /** The weights w[c[i] - 1][c[j] - 1] for j in lo .. hi - 1. */
  function RowSum(w: seq<seq<int>>, c: seq<int>, i: nat, lo: nat, hi: nat): int
    requires Square(w) && InNodes(c, |w|) && i < |c| && hi <= |c|
    decreases hi
  {
    if hi <= lo then 0 else RowSum(w, c, i, lo, hi - 1) + w[c[i] - 1][c[hi - 1] - 1]
  }

  /** The weights of the pairs i <= j of c with i < k. */
  function Upper(w: seq<seq<int>>, c: seq<int>, k: nat): int
    requires Square(w) && InNodes(c, |w|) && k <= |c|
    decreases k
  {
    if k == 0 then 0 else Upper(w, c, k - 1) + RowSum(w, c, k - 1, k - 1, |c|)
  }

  /** The weight of a clique: every pair of its nodes, each node with itself included. */
  function Weight(w: seq<seq<int>>, c: seq<int>): int
    requires Square(w) && InNodes(c, |w|)
  {
    Upper(w, c, |c|)
  }

  /** The objective: the weights of all the cliques. */
  function Total(w: seq<seq<int>>, cs: seq<seq<int>>): int
    requires Square(w) && forall k :: 0 <= k < |cs| ==> InNodes(cs[k], |w|)
    decreases |cs|
  {
    if cs == [] then 0 else Total(w, cs[..|cs| - 1]) + Weight(w, cs[|cs| - 1])
  }

  /** The links of v to the nodes of c. */
  function Links(w: seq<seq<int>>, c: seq<int>, v: int): int
    requires Square(w) && InNodes(c, |w|) && 1 <= v <= |w|
    decreases |c|
  {
    if c == [] then 0 else Links(w, c[..|c| - 1], v) + w[c[|c| - 1] - 1][v - 1]
  }

  /** A row sum over c + [v] that stops before v is the row sum over c. */
  lemma {:induction false} RowSumSnoc(w: seq<seq<int>>, c: seq<int>, v: int, i: nat, lo: nat, hi: nat)
    requires Square(w) && InNodes(c, |w|) && 1 <= v <= |w| && i < |c| && hi <= |c|
    ensures RowSum(w, c + [v], i, lo, hi) == RowSum(w, c, i, lo, hi)
    decreases hi
  {
    if lo < hi {
      RowSumSnoc(w, c, v, i, lo, hi - 1);
    }
  }

  lemma {:induction false} UpperSnoc(w: seq<seq<int>>, c: seq<int>, v: int, k: nat)
    requires Square(w) && InNodes(c, |w|) && 1 <= v <= |w| && k <= |c|
    ensures Upper(w, c + [v], k) == Upper(w, c, k) + Links(w, c[..k], v)
    decreases k
  {
    if k > 0 {
      UpperSnoc(w, c, v, k - 1);
      RowSumSnoc(w, c, v, k - 1, k - 1, |c|);
      assert c[..k][..k - 1] == c[..k - 1];
    }
  }

  /** Adding node v to a clique adds its links to the nodes already there and its own weight
      w[v][v]. */
  lemma WeightSnoc(w: seq<seq<int>>, c: seq<int>, v: int)
    requires Square(w) && InNodes(c, |w|) && 1 <= v <= |w|
    ensures Weight(w, c + [v]) == Weight(w, c) + Links(w, c, v) + w[v - 1][v - 1]
  {
    var c' := c + [v];
    UpperSnoc(w, c, v, |c|);
    assert c[..|c|] == c;
    assert RowSum(w, c', |c|, |c|, |c| + 1) == w[v - 1][v - 1] by {
      assert RowSum(w, c', |c|, |c|, |c|) == 0;
    }
  }

  /** With non-negative weights the objective is non-negative. */
  lemma {:induction false} TotalNonNegative(w: seq<seq<int>>, cs: seq<seq<int>>)
    requires Square(w) && forall k :: 0 <= k < |cs| ==> InNodes(cs[k], |w|)
    requires forall a, b :: 0 <= a < |w| && 0 <= b < |w| ==> w[a][b] >= 0
    ensures Total(w, cs) >= 0
    decreases |cs|
  {
    if cs != [] {
      TotalNonNegative(w, cs[..|cs| - 1]);
      var c := cs[|cs| - 1];
      forall k: nat | k <= |c| ensures Upper(w, c, k) >= 0 {
        UpperNonNegative(w, c, k);
      }
    }
  }

  lemma {:induction false} UpperNonNegative(w: seq<seq<int>>, c: seq<int>, k: nat)
    requires Square(w) && InNodes(c, |w|) && k <= |c|
    requires forall a, b :: 0 <= a < |w| && 0 <= b < |w| ==> w[a][b] >= 0
    ensures Upper(w, c, k) >= 0
    decreases k
  {
    if k > 0 {
      UpperNonNegative(w, c, k - 1);
      RowSumNonNegative(w, c, k - 1, k - 1, |c|);
    }
  }

  lemma {:induction false} RowSumNonNegative(w: seq<seq<int>>, c: seq<int>, i: nat, lo: nat, hi: nat)
    requires Square(w) && InNodes(c, |w|) && i < |c| && hi <= |c|
    requires forall a, b :: 0 <= a < |w| && 0 <= b < |w| ==> w[a][b] >= 0
    ensures RowSum(w, c, i, lo, hi) >= 0
    decreases hi
  {
    if lo < hi {
      RowSumNonNegative(w, c, i, lo, hi - 1);
    }
  }

  /** Lines 54-60: the objective loops. */
  method Objective(w: seq<seq<int>>, cs: seq<seq<int>>) returns (obj: int)
    requires Square(w) && forall k :: 0 <= k < |cs| ==> InNodes(cs[k], |w|)
    ensures obj == Total(w, cs)
  {
    obj := 0;
    for k := 0 to |cs|
      invariant obj == Total(w, cs[..k])
    {
      assert cs[..k + 1][..k] == cs[..k];
      var c := cs[k];
      var aux := 0;
      for i := 0 to |c|
        invariant aux == Upper(w, c, i)
      {
        var row := 0;
        for j := i to |c|
          invariant row == RowSum(w, c, i, i, j)
        {
          row := row + w[c[i] - 1][c[j] - 1];
        }
        aux := aux + row;
      }
      obj := obj + aux;
    }
    assert cs[..|cs|] == cs;
  }

  /** evaluate(inputfile, outputfile) on the integer rows of the input and the lines of the
      output: the exception of a malformed input; None unless the cliques partition 1..n;
      otherwise the objective. */
  function Evaluation(rows: seq<seq<int>>, lines: seq<Line>): (r: Run<Option<int>>)
  {
    match ReadWeights(rows)
    case Raised(e) => Raised(e)
    case Ok((n, w)) =>
      var cs := Cliques(lines);
      if !Partition(cs, n) then Ok(None)
      else
        MatrixSymmetric(rows, n);
        PartitionNodes(cs, n);
        Ok(Some(Total(w, cs)))
  }

  /** The nodes of an accepted output index the matrix. */
  lemma PartitionNodes(cs: seq<seq<int>>, n: int)
    requires Partition(cs, n)
    ensures forall k :: 0 <= k < |cs| ==> InNodes(cs[k], n)
  {
    forall k, t | 0 <= k < |cs| && 0 <= t < |cs[k]| ensures 1 <= cs[k][t] <= n {
      FlatPrefix(cs, k, t + 1);
      assert cs[k][..t + 1][t] == cs[k][t];
      assert Flat(cs)[|Flat(cs[..k])| + t] == cs[k][t];
    }
  }

  /** Once the input is read, an output is scored exactly when its cliques partition 1..n, and
      with non-negative weights the score is non-negative. */
  lemma Scored(rows: seq<seq<int>>, lines: seq<Line>)
    requires ReadWeights(rows).Ok?
    ensures Evaluation(rows, lines).Ok?
    ensures Evaluation(rows, lines).value.Some? <==>
              (var n := ReadWeights(rows).value.0;
               Distinct(Flat(Cliques(lines))) && |Flat(Cliques(lines))| == n &&
               forall v :: v in Flat(Cliques(lines)) <==> 1 <= v <= n)
    ensures Evaluation(rows, lines).value.Some? &&
            (forall a, b :: 0 <= a < ReadWeights(rows).value.0 && 0 <= b < ReadWeights(rows).value.0 ==>
               ReadWeights(rows).value.1[a][b] >= 0) ==>
            Evaluation(rows, lines).value.value >= 0
  {
    var (n, w) := ReadWeights(rows).value;
    var cs := Cliques(lines);
    var flat := Flat(cs);
    CardElems(flat);
    if Partition(cs, n) {
      PartitionCovers(cs, n);
      MatrixSymmetric(rows, n);
      PartitionNodes(cs, n);
      if forall a, b :: 0 <= a < n && 0 <= b < n ==> w[a][b] >= 0 {
        TotalNonNegative(w, cs);
      }
    } else if Distinct(flat) && |flat| == n && forall v :: v in flat <==> 1 <= v <= n {
      assert InNodes(flat, n) by {
        forall t | 0 <= t < |flat| ensures 1 <= flat[t] <= n {
          assert flat[t] in flat;
        }
      }
      assert false;
    }
  }

  /** The evaluator on the integer rows of the input and the lines of the output. */
  method Evaluate(rows: seq<seq<int>>, lines: seq<Line>) returns (r: Run<Option<int>>)
    ensures r == Evaluation(rows, lines)
  {
    var read := Read(rows);
    if read.Raised? {
      return Raised(read.error);
    }
    var (n, w) := read.value;
    var cs := Cliques(lines);
    var ok := Check(cs, n);
    if !ok {
      return Ok(None);
    }
    MatrixSymmetric(rows, n);
    PartitionNodes(cs, n);
    var obj := Objective(w, cs);
    return Ok(Some(obj));
  }
}
