/** The laptop-assembly evaluator (src/evaluators/laptop_assembly.py): T = sum(d) laptops of M
    models are assembled one after the other, model i being demanded d[i] times, and part p is
    used a[p][i] times by model i. The output lists the model of each laptop in assembly order,
    and the objective J adds, after every laptop and for every part, the square of how far the
    parts used so far are from the ideal steady rate r[p] = sum_i a[p][i] d[i] / T.
    Line numbers in the comments below are those of src/evaluators/laptop_assembly.py. */
module LaptopAssemblyEvaluator {
  import opened Wrappers
  import opened Text

  function Sum(xs: seq<int>): int
    decreases |xs|
  {
    if xs == [] then 0 else Sum(xs[..|xs| - 1]) + xs[|xs| - 1]
  }

  function Sq(x: real): (r: real)
    ensures r >= 0.0
  {
    x * x
  }

  // ------------------------------------------------------------------ reading the instance

  /** sum_{i < m} row[i] * d[i] as lines 29-30 accumulate it, with the IndexError of the first
      i missing from row or from d. */
  function Dot(row: seq<int>, d: seq<int>, m: nat): (r: Run<int>)
    ensures r.Ok? <==> m <= |row| && m <= |d|
    ensures r.Raised? ==> r.error == IndexError
    decreases m
  {
    if m == 0 then Ok(0)
    else
      var s := Dot(row, d, m - 1);
      if s.Raised? then s
      else if m - 1 < |row| && m - 1 < |d| then Ok(s.value + row[m - 1] * d[m - 1])
      else Raised(IndexError)
  }

  /** The rates of parts 0 .. k - 1 (lines 27-31): each divides its Dot by T. The first row
      whose Dot fails raises IndexError, and ZeroDivisionError is raised on the first part when
      T is 0. */
  function Rates(a: seq<seq<int>>, d: seq<int>, m: nat, T: int, k: nat): (r: Run<seq<real>>)
    requires k <= |a|
    ensures r.Ok? ==> |r.value| == k
    ensures r.Ok? <==> (forall p :: 0 <= p < k ==> m <= |a[p]| && m <= |d|) && (k > 0 ==> T != 0)
    ensures r == Raised(ZeroDivisionError) <==> k > 0 && T == 0 && m <= |a[0]| && m <= |d|
    ensures r.Raised? ==> r.error == IndexError || r.error == ZeroDivisionError
    decreases k
  {
    if k == 0 then Ok([])
    else
      var prev := Rates(a, d, m, T, k - 1);
      var s := Dot(a[k - 1], d, m);
      if prev.Raised? then prev
      else if s.Raised? then Raised(s.error)
      else if T == 0 then Raised(ZeroDivisionError)
      else Ok(prev.value + [s.value as real / T as real])
  }

  /** Once a part raises, so do all the longer prefixes. */
  lemma {:induction false} RatesStuck(a: seq<seq<int>>, d: seq<int>, m: nat, T: int, k: nat, k': nat)
    requires k <= k' <= |a| && Rates(a, d, m, T, k).Raised?
    ensures Rates(a, d, m, T, k') == Rates(a, d, m, T, k)
    decreases k' - k
  {
    if k < k' {
      RatesStuck(a, d, m, T, k, k' - 1);
    }
  }

  /** The instance: M models, P parts, demands d summing to T, the usage table a and the rates. */
  datatype Instance = Instance(M: int, P: int, d: seq<int>, T: int, a: seq<seq<int>>, r: seq<real>)

  /** What reading guarantees: one usage row and one rate per part, every row covering the M
      models, and T = sum(d). */
  predicate WellFormed(inst: Instance)
  {
    |inst.a| == |inst.r| && inst.T == Sum(inst.d) &&
    Wide(inst.a, inst.M)
  }

  /** Lines 22-31: M and P from the first line (ValueError unless it holds exactly two
      integers), d from the second, then one line of usages per part. */
  function ReadInput(rows: seq<seq<int>>): (r: Run<Instance>)
    ensures r.Ok? ==> WellFormed(r.value)
    ensures r.Ok? ==> |r.value.a| == (if r.value.P < 0 then 0 else r.value.P)
  {
    if |Row(rows, 0)| != 2 then Raised(ValueError)
    else
      var M, P := Row(rows, 0)[0], Row(rows, 0)[1];
      var d := Row(rows, 1);
      var a := Block(rows, 2, P);
      var m := if M < 0 then 0 else M;
      match Rates(a, d, m, Sum(d), |a|)
      case Raised(e) => Raised(e)
      case Ok(r) => Ok(Instance(M, P, d, Sum(d), a, r))
  }

  /** The inner loop of lines 29-30. */
  method Accumulate(row: seq<int>, d: seq<int>, m: nat) returns (r: Run<int>)
    ensures r == Dot(row, d, m)
  {
    var acc := 0;
    for i := 0 to m
      invariant Dot(row, d, i) == Ok(acc)
    {
      if i >= |row| || i >= |d| {
        return Raised(IndexError);
      }
      acc := acc + row[i] * d[i];
    }
    return Ok(acc);
  }

  /** The reading loops of lines 22-31. */
  method Read(rows: seq<seq<int>>) returns (res: Run<Instance>)
    ensures res == ReadInput(rows)
  {
    if |Row(rows, 0)| != 2 {
      return Raised(ValueError);
    }
    var M, P := Row(rows, 0)[0], Row(rows, 0)[1];
    var d := Row(rows, 1);
    var T := Sum(d);
    ghost var table := Block(rows, 2, P);
    var m := if M < 0 then 0 else M;
    var a: seq<seq<int>> := [];
    var r: seq<real> := [];
    var parts := if P < 0 then 0 else P;
    for p := 0 to parts
      invariant a == table[..p] && Rates(table, d, m, T, p) == Ok(r)
    {
      var row := Row(rows, 2 + p);
      assert row == table[p];
      a := a + [row];
      var acc := Accumulate(row, d, m);
      if acc.Raised? {
        RatesStuck(table, d, m, T, p + 1, |table|);
        return Raised(IndexError);
      }
      if T == 0 {
        RatesStuck(table, d, m, T, p + 1, |table|);
        return Raised(ZeroDivisionError);
      }
      r := r + [acc.value as real / T as real];
    }
    assert a == table;
    return Ok(Instance(M, P, d, T, a, r));
  }

  // ------------------------------------------------------------------ checking the output

  /** How many times each of the models 0 .. m - 1 occurs in u. */
  function Counts(u: seq<int>, m: nat): (c: seq<int>)
    ensures |c| == m && forall x :: 0 <= x < m ==> c[x] == multiset(u)[x]
  {
    seq(m, x requires 0 <= x < m => multiset(u)[x])
  }

  /** The checks of lines 48-54 over the first k laptops: Ok(true) when all pass, Ok(false) at
      the first model out of range or used more than its demand, and the IndexError of d[mod]
      when d is shorter than M. */
  function Scan(u: seq<int>, M: int, d: seq<int>, k: nat): (r: Run<bool>)
    requires k <= |u|
    ensures r.Raised? ==> r.error == IndexError
    decreases k
  {
    if k == 0 then Ok(true)
    else
      var prev := Scan(u, M, d, k - 1);
      var mod := u[k - 1];
      if prev != Ok(true) then prev
      else if mod < 0 || mod >= M then Ok(false)
      else if mod >= |d| then Raised(IndexError)
      else if multiset(u[..k])[mod] > d[mod] then Ok(false)
      else Ok(true)
  }

  /** Once a check fails, the later ones are not made. */
  lemma {:induction false} ScanStuck(u: seq<int>, M: int, d: seq<int>, k: nat, k': nat)
    requires k <= k' <= |u| && Scan(u, M, d, k) != Ok(true)
    ensures Scan(u, M, d, k') == Scan(u, M, d, k)
    decreases k' - k
  {
    if k < k' {
      ScanStuck(u, M, d, k, k' - 1);
    }
  }

  /** The check of laptop t, once those before it have passed. */
  lemma ScanNext(u: seq<int>, M: int, d: seq<int>, t: nat)
    requires t < |u| && Scan(u, M, d, t) == Ok(true) && Models(u[..t], M)
    ensures u[..t + 1] == u[..t] + [u[t]]
    ensures Scan(u, M, d, t + 1) ==
              if u[t] < 0 || u[t] >= M then Ok(false)
              else if u[t] >= |d| then Raised(IndexError)
              else if multiset(u[..t] + [u[t]])[u[t]] > d[u[t]] then Ok(false)
              else Ok(true)
    ensures 0 <= u[t] < M ==> Models(u[..t + 1], M)
  {
    assert u[..t + 1] == u[..t] + [u[t]];
  }

  /** No model is used more often than its demand. */
  ghost predicate WithinDemand(u: seq<int>, d: seq<int>)
  {
    forall t :: 0 <= t < |u| ==> 0 <= u[t] < |d| && multiset(u)[u[t]] <= d[u[t]]
  }

  /** The checks pass exactly when every laptop is one of the models 0 .. M - 1, d covers it,
      and no model is used more often than its demand. */
  lemma {:induction false} ScanPasses(u: seq<int>, M: int, d: seq<int>, k: nat)
    requires k <= |u|
    ensures Scan(u, M, d, k) == Ok(true) <==> Models(u[..k], M) && WithinDemand(u[..k], d)
    decreases k
  {
    if k > 0 {
      ScanPasses(u, M, d, k - 1);
      var q, v := u[..k - 1], u[k - 1];
      assert u[..k] == q + [v];
      if Scan(u, M, d, k) == Ok(true) {
        WithinDemandSnoc(q, v, d);
      } else if Models(u[..k], M) && WithinDemand(u[..k], d) {
        assert Models(q, M) by {
          assert forall t :: 0 <= t < |q| ==> q[t] == u[..k][t];
        }
        WithinDemandPrefix(q, v, d);
      }
    }
  }

  /** When all the checks pass every laptop is one of the models 0 .. M - 1. */
  lemma ScanModels(u: seq<int>, M: int, d: seq<int>)
    requires Scan(u, M, d, |u|) == Ok(true)
    ensures Models(u, M) && WithinDemand(u, d)
  {
    ScanPasses(u, M, d, |u|);
    assert u[..|u|] == u;
  }

  /** Appending a laptop within its demand keeps the others within theirs. */
  lemma WithinDemandSnoc(q: seq<int>, v: int, d: seq<int>)
    requires WithinDemand(q, d) && 0 <= v < |d| && multiset(q + [v])[v] <= d[v]
    ensures WithinDemand(q + [v], d)
  {
    forall t | 0 <= t < |q| + 1 ensures 0 <= (q + [v])[t] < |d| && multiset(q + [v])[(q + [v])[t]] <= d[(q + [v])[t]] {
      if t < |q| {
        assert (q + [v])[t] == q[t];
      }
    }
  }

  /** Within demand after a laptop means within demand before it. */
  lemma WithinDemandPrefix(q: seq<int>, v: int, d: seq<int>)
    requires WithinDemand(q + [v], d)
    ensures WithinDemand(q, d)
  {
    forall t | 0 <= t < |q| ensures 0 <= q[t] < |d| && multiset(q)[q[t]] <= d[q[t]] {
      assert (q + [v])[t] == q[t];
    }
  }

  // ------------------------------------------------------------------ the objective

  /** Every laptop of u is one of the models 0 .. m - 1. */
  predicate Models(u: seq<int>, m: int)
  {
    forall t :: 0 <= t < |u| ==> 0 <= u[t] < m
  }

  /** Every usage row covers the models 0 .. m - 1. */
  predicate Wide(a: seq<seq<int>>, m: int)
  {
    forall p :: 0 <= p < |a| ==> m <= |a[p]|
  }

  /** sum_t row[u[t]]: the parts of one kind used by the laptops of u. */
  function Column(row: seq<int>, u: seq<int>): int
    requires Models(u, |row|)
    decreases |u|
  {
    if u == [] then 0 else Column(row, u[..|u| - 1]) + row[u[|u| - 1]]
  }

  /** After the laptops u, how far part p's actual use is below its ideal use |u| * r[p]. */
  function Gap(r: seq<real>, a: seq<seq<int>>, m: int, u: seq<int>, p: nat): real
    requires p < |r| && p < |a| && Wide(a, m) && Models(u, m)
  {
    (|u| as real) * r[p] - Column(a[p], u) as real
  }

  /** The gap computed from a running column sum that is up to date. */
  lemma GapIs(r: seq<real>, a: seq<seq<int>>, m: int, u: seq<int>, p: nat, used: int)
    requires p < |r| && p < |a| && Wide(a, m) && Models(u, m) && used == Column(a[p], u)
    ensures (|u| as real) * r[p] - used as real == Gap(r, a, m, u, p)
  {
  }

  /** After the laptops u, the squared gaps of parts 0 .. q - 1. */
  function Deviation(r: seq<real>, a: seq<seq<int>>, m: int, u: seq<int>, q: nat): (j: real)
    requires q <= |r| && q <= |a| && Wide(a, m) && Models(u, m)
    ensures j >= 0.0
    decreases q
  {
    if q == 0 then 0.0 else Deviation(r, a, m, u, q - 1) + Sq(Gap(r, a, m, u, q - 1))
  }

  /** J: the deviations after each laptop of the sequence, added up. */
  function Cost(r: seq<real>, a: seq<seq<int>>, m: int, u: seq<int>): (j: real)
    requires |r| == |a| && Wide(a, m) && Models(u, m)
    ensures j >= 0.0
    decreases |u|
  {
    if u == [] then 0.0 else Cost(r, a, m, u[..|u| - 1]) + Deviation(r, a, m, u, |r|)
  }

  /** evaluate(inputfile, outputfile) on the integer rows of the input and the lines of the
      output: the exception of a malformed input; None unless the output lists T models; then
      the checks of Scan; then J. */
  function Evaluation(rows: seq<seq<int>>, lines: seq<Line>): (res: Run<Option<real>>)
  {
    match ReadInput(rows)
    case Raised(e) => Raised(e)
    case Ok(inst) =>
      var u := Parsed(lines);
      if |u| != inst.T then Ok(None)
      else
        match Scan(u, inst.M, inst.d, |u|)
        case Raised(e) => Raised(e)
        case Ok(pass) =>
          if !pass then Ok(None)
          else
            ScanModels(u, inst.M, inst.d);
            Ok(Some(Cost(inst.r, inst.a, inst.M, u)))
  }

  /** Incrementing one count adds one to the total. */
  lemma {:induction false} SumIncrement(c: seq<int>, x: nat)
    requires x < |c|
    ensures Sum(c[x := c[x] + 1]) == Sum(c) + 1
    decreases |c|
  {
    var c' := c[x := c[x] + 1];
    if x < |c| - 1 {
      assert c'[..|c'| - 1] == c[..|c| - 1][x := c[x] + 1];
      SumIncrement(c[..|c| - 1], x);
    } else {
      assert c'[..|c'| - 1] == c[..|c| - 1];
    }
  }

  /** The counts of the models 0 .. m - 1 add up to the number of laptops when every laptop is
      one of them. */
  lemma {:induction false} CountsTotal(u: seq<int>, m: nat)
    requires forall t :: 0 <= t < |u| ==> 0 <= u[t] < m
    ensures Sum(Counts(u, m)) == |u|
    decreases |u|
  {
    if u == [] {
      ZeroSum(Counts(u, m));
    } else {
      var q, v := u[..|u| - 1], u[|u| - 1];
      assert u == q + [v];
      CountsTotal(q, m);
      assert Counts(u, m) == Counts(q, m)[v := Counts(q, m)[v] + 1];
      SumIncrement(Counts(q, m), v);
    }
  }

  lemma {:induction false} ZeroSum(c: seq<int>)
    requires forall x :: 0 <= x < |c| ==> c[x] == 0
    ensures Sum(c) == 0
    decreases |c|
  {
    if c != [] {
      ZeroSum(c[..|c| - 1]);
    }
  }

  /** Entrywise at most, with the same total, means equal. */
  lemma {:induction false} Tight(c: seq<int>, d: seq<int>)
    requires |c| == |d| && Sum(c) == Sum(d)
    requires forall x :: 0 <= x < |c| ==> c[x] <= d[x]
    ensures c == d
    decreases |c|
  {
    if c != [] {
      var n := |c| - 1;
      SumAtMost(c[..n], d[..n]);
      Tight(c[..n], d[..n]);
      assert c == c[..n] + [c[n]] && d == d[..n] + [d[n]];
    }
  }

  lemma {:induction false} SumAtMost(c: seq<int>, d: seq<int>)
    requires |c| == |d| && forall x :: 0 <= x < |c| ==> c[x] <= d[x]
    ensures Sum(c) <= Sum(d)
    decreases |c|
  {
    if c != [] {
      SumAtMost(c[..|c| - 1], d[..|d| - 1]);
    }
  }

  /** A scored output has J >= 0, and when d lists one non-negative demand per model it
      assembles every model exactly as many times as demanded. */
  lemma Scored(rows: seq<seq<int>>, lines: seq<Line>)
    requires ReadInput(rows).Ok? && Evaluation(rows, lines).Ok? && Evaluation(rows, lines).value.Some?
    ensures Evaluation(rows, lines).value.value >= 0.0
    ensures var inst := ReadInput(rows).value;
            |inst.d| == inst.M && (forall x :: 0 <= x < |inst.d| ==> inst.d[x] >= 0) ==>
              Counts(Parsed(lines), |inst.d|) == inst.d
  {
    var inst := ReadInput(rows).value;
    var u := Parsed(lines);
    assert |u| == inst.T && Scan(u, inst.M, inst.d, |u|) == Ok(true);
    ScanModels(u, inst.M, inst.d);
    if |inst.d| == inst.M && (forall x :: 0 <= x < |inst.d| ==> inst.d[x] >= 0) {
      var c := Counts(u, |inst.d|);
      CountsTotal(u, |inst.d|);
      forall x | 0 <= x < |c| ensures c[x] <= inst.d[x] {
        if c[x] > 0 {
          assert x in multiset(u);
          var t :| 0 <= t < |u| && u[t] == x;
        }
      }
      Tight(c, inst.d);
    }
  }

  /** The assembly loop of lines 44-57 over laptops u[t] of a read instance. */
  method Assemble(inst: Instance, u: seq<int>) returns (res: Run<Option<real>>)
    requires WellFormed(inst)
    ensures Scan(u, inst.M, inst.d, |u|).Raised? ==> res == Raised(IndexError)
    ensures Scan(u, inst.M, inst.d, |u|) == Ok(false) ==> res == Ok(None)
    ensures Scan(u, inst.M, inst.d, |u|) == Ok(true) ==>
              Models(u, inst.M) && res == Ok(Some(Cost(inst.r, inst.a, inst.M, u)))
  {
    var m := if inst.M < 0 then 0 else inst.M;
    var J := 0.0;
    var dsol := Counts([], m);
    var aux := seq(|inst.a|, p => 0);
    for t := 0 to |u|
      invariant Scan(u, inst.M, inst.d, t) == Ok(true) && Models(u[..t], inst.M)
      invariant dsol == Counts(u[..t], m)
      invariant J == Cost(inst.r, inst.a, inst.M, u[..t])
      invariant |aux| == |inst.a| && forall p :: 0 <= p < |aux| ==> aux[p] == Column(inst.a[p], u[..t])
    {
      var mod := u[t];
      ScanNext(u, inst.M, inst.d, t);
      assert u[..t + 1][..t] == u[..t];
      if mod < 0 || mod >= inst.M {
        ScanStuck(u, inst.M, inst.d, t + 1, |u|);
        return Ok(None);
      }
      dsol := Tally(u[..t], mod, m, dsol);
      if mod >= |inst.d| {
        ScanStuck(u, inst.M, inst.d, t + 1, |u|);
        return Raised(IndexError);
      }
      if dsol[mod] > inst.d[mod] {
        ScanStuck(u, inst.M, inst.d, t + 1, |u|);
        return Ok(None);
      }
      J, aux := Deviate(inst, u[..t + 1], J, aux);
    }
    assert u[..|u|] == u;
    res := Ok(Some(J));
  }

  /** dsol[mod] += 1 (line 51): the counts of q become those of q + [mod]. */
  method Tally(q: seq<int>, mod: int, m: nat, dsol: seq<int>) returns (dsol': seq<int>)
    requires 0 <= mod < m && dsol == Counts(q, m)
    ensures dsol' == Counts(q + [mod], m)
  {
    dsol' := dsol[mod := dsol[mod] + 1];
    assert forall x :: multiset(q + [mod])[x] == multiset(q)[x] + (if x == mod then 1 else 0);
  }

  /** Lines 55-57 for the laptop that ends the sequence v: every part's running use goes up by
      the new laptop's usage, and J by that laptop's deviation. */
  method Deviate(inst: Instance, v: seq<int>, J: real, aux: seq<int>) returns (J': real, aux': seq<int>)
    requires WellFormed(inst) && v != [] && Models(v, inst.M)
    requires |aux| == |inst.a| && forall p :: 0 <= p < |aux| ==> aux[p] == Column(inst.a[p], v[..|v| - 1])
    requires J == Cost(inst.r, inst.a, inst.M, v[..|v| - 1])
    ensures J' == Cost(inst.r, inst.a, inst.M, v)
    ensures |aux'| == |aux| && forall p :: 0 <= p < |aux| ==> aux'[p] == Column(inst.a[p], v)
  {
    J', aux' := J, aux;
    for p := 0 to |aux|
      invariant |aux'| == |aux|
      invariant forall q :: 0 <= q < p ==> aux'[q] == Column(inst.a[q], v)
      invariant forall q :: p <= q < |aux| ==> aux'[q] == aux[q]
      invariant J' == J + Deviation(inst.r, inst.a, inst.M, v, p)
    {
      J', aux' := UsePart(inst, v, p, J', aux');
    }
  }

  /** Lines 56-57 for part p and the laptop that ends v: aux[p] catches up with the column sum
      over v, and J grows by the squared gap of part p. */
  method UsePart(inst: Instance, v: seq<int>, p: nat, J: real, aux: seq<int>) returns (J': real, aux': seq<int>)
    requires WellFormed(inst) && v != [] && Models(v, inst.M)
    requires p < |aux| == |inst.a| && aux[p] == Column(inst.a[p], v[..|v| - 1])
    ensures aux' == aux[p := Column(inst.a[p], v)]
    ensures J' == J + Sq(Gap(inst.r, inst.a, inst.M, v, p))
  {
    var mod := v[|v| - 1];
    aux' := aux[p := aux[p] + inst.a[p][mod]];
    GapIs(inst.r, inst.a, inst.M, v, p, aux'[p]);
    J' := J + Sq((|v| as real) * inst.r[p] - aux'[p] as real);
  }

  /** The evaluator on the integer rows of the input and the lines of the output. */
  method Evaluate(rows: seq<seq<int>>, lines: seq<Line>) returns (res: Run<Option<real>>)
    ensures res == Evaluation(rows, lines)
  {
    var read := Read(rows);
    if read.Raised? {
      return Raised(read.error);
    }
    var inst := read.value;
    var u := [];
    for k := 0 to |lines|
      invariant u == Parsed(lines[..k])
    {
      assert lines[..k + 1][..k] == lines[..k];
      if lines[k].Ints? && |lines[k].xs| == 1 {
        u := u + [lines[k].xs[0]];
      }
    }
    assert lines[..|lines|] == lines;
    if |u| != inst.T {
      return Ok(None);
    }
    res := Assemble(inst, u);
    if Scan(u, inst.M, inst.d, |u|) == Ok(true) {
      ScanModels(u, inst.M, inst.d);
    }
  }
}
