/** The sampling utility and the small helpers shared by the algorithms (src/api/utils.py). */
module Utils {
  import opened Wrappers
  import opened FullPeriod

  // ------------------------------------------------------------------ isclose

  /** Relative and absolute tolerances used by isclose. */
  const RelTol: real := 0.000001
  const AbsTol: real := 0.000000001

  function Abs(x: real): real { if x < 0.0 then -x else x }

  function MaxReal(a: real, b: real): real { if a < b then b else a }

  /** d added n times to 0.0. */
  function Times(n: nat, d: real): (r: real)
  {
    if n == 0 then 0.0 else Times(n - 1, d) + d
  }

  /** ... which is n * d. */
  lemma {:induction false} TimesProduct(n: nat, d: real)
    ensures Times(n, d) == (n as real) * d
  {
    if n > 0 {
      TimesProduct(n - 1, d);
      assert (n as real) * d == ((n - 1) as real) * d + d;
    }
  }

  /** math.isclose over exact reals: |a - b| <= max(rel_tol * max(|a|, |b|), abs_tol). */
  predicate IsClose(a: real, b: real)
  {
    Abs(a - b) <= MaxReal(RelTol * MaxReal(Abs(a), Abs(b)), AbsTol)
  }

  /** Near zero, only the absolute tolerance matters: isclose(x, 0) iff |x| <= 1e-9. */
  lemma IsCloseToZero(x: real)
    ensures IsClose(x, 0.0) <==> Abs(x) <= AbsTol
  {
    if Abs(x) > AbsTol {
      assert RelTol * Abs(x) < Abs(x);
    }
  }

  lemma IsCloseReflexiveSymmetric(a: real, b: real)
    ensures IsClose(a, a)
    ensures IsClose(a, b) <==> IsClose(b, a)
  {
    assert Abs(a - b) == Abs(b - a);
  }

  /** Among non-positive values, a value close to y is close to anything between it and y. */
  lemma CloseBetween(d: real, x: real, y: real)
    requires d <= x <= y <= 0.0 && IsClose(d, y)
    ensures IsClose(d, x)
  {
    assert MaxReal(Abs(d), Abs(x)) == Abs(d) == MaxReal(Abs(d), Abs(y));
  }

  // ------------------------------------------------------------------ argmin / argmax

  /** Index of the first minimal element, as min(enumerate(v), key=itemgetter(1))[0];
      None stands for the ValueError raised on an empty sequence. */
  function Argmin(v: seq<real>): (r: Option<nat>)
    ensures r.None? <==> |v| == 0
    ensures r.Some? ==> r.value < |v|
    ensures r.Some? ==> forall j :: 0 <= j < |v| ==> v[r.value] <= v[j]
    ensures r.Some? ==> forall j :: 0 <= j < r.value ==> v[r.value] < v[j]
  {
    if |v| == 0 then None
    else
      var prefix := Argmin(v[..|v| - 1]);
      if prefix.None? then Some(0)
      else if v[|v| - 1] < v[prefix.value] then Some(|v| - 1)
      else prefix
  }

  /** Index of the first maximal element, as max(enumerate(v), key=itemgetter(1))[0]. */
  function Argmax(v: seq<real>): (r: Option<nat>)
    ensures r.None? <==> |v| == 0
    ensures r.Some? ==> r.value < |v|
    ensures r.Some? ==> forall j :: 0 <= j < |v| ==> v[j] <= v[r.value]
    ensures r.Some? ==> forall j :: 0 <= j < r.value ==> v[j] < v[r.value]
  {
    if |v| == 0 then None
    else
      var prefix := Argmax(v[..|v| - 1]);
      if prefix.None? then Some(0)
      else if v[prefix.value] < v[|v| - 1] then Some(|v| - 1)
      else prefix
  }

  // ------------------------------------------------------------------ or_default, pairwise

  /** v if v is not None, otherwise the value of the default thunk. */
  function OrDefault<T>(v: Option<T>, default: () -> T): (r: T)
    ensures v.Some? ==> r == v.value
    ensures v.None? ==> r == default()
  {
    match v
    case Some(x) => x
    case None => default()
  }

  /** The consecutive pairs of s, in order. */
  function Pairwise<T>(s: seq<T>): (r: seq<(T, T)>)
    ensures |r| == if |s| == 0 then 0 else |s| - 1
    ensures forall k :: 0 <= k < |r| ==> r[k] == (s[k], s[k + 1])
  {
    if |s| < 2 then [] else [(s[0], s[1])] + Pairwise(s[1..])
  }

  // ------------------------------------------------------------------ sequences as sets

  ghost predicate Distinct<T>(s: seq<T>)
  {
    forall i, j :: 0 <= i < j < |s| ==> s[i] != s[j]
  }

  /** In a duplicate-free sequence every value occurs at most once. */
  lemma {:induction false} DistinctCount<T>(s: seq<T>, x: T)
    requires Distinct(s)
    ensures multiset(s)[x] == (if x in s then 1 else 0)
    decreases |s|
  {
    if s != [] {
      var p := s[..|s| - 1];
      assert s == p + [s[|s| - 1]];
      DistinctCount(p, x);
      assert s[|s| - 1] !in p;
    }
  }

  /** A non-empty set has an element (what `for k in some_set` relies on to make progress). */
  lemma SomeElement<T>(s: set<T>)
    requires s != {}
    ensures exists x :: x in s
  {
    if forall x :: x !in s {
      assert false;
    }
  }

  /** Some element of a non-empty set, in whatever order the set is iterated. */
  method Pick<T>(s: set<T>) returns (x: T)
    requires s != {}
    ensures x in s
  {
    SomeElement(s);
    x :| x in s;
  }

  function Below(s: seq<int>, n: int): (r: seq<int>)
    ensures forall v :: v in r <==> v in s && v < n
  {
    if s == [] then []
    else Below(s[..|s| - 1], n) + (if s[|s| - 1] < n then [s[|s| - 1]] else [])
  }

  lemma {:induction false} BelowDistinct(s: seq<int>, n: int)
    requires Distinct(s)
    ensures Distinct(Below(s, n))
  {
    if s != [] {
      var p := s[..|s| - 1];
      BelowDistinct(p, n);
      assert s[|s| - 1] !in p;
    }
  }

  /** The values 0, 1, ..., m - 1 as a set. */
  function Range(m: nat): (r: set<int>)
    ensures forall v :: v in r <==> 0 <= v < m
    ensures |r| == m
  {
    if m == 0 then {} else Range(m - 1) + {m - 1}
  }

  function Elems(s: seq<int>): set<int>
  {
    set x | x in s
  }

  lemma {:induction false} DistinctCard(s: seq<int>)
    requires Distinct(s)
    ensures |Elems(s)| == |s|
  {
    if s != [] {
      var p := s[..|s| - 1];
      DistinctCard(p);
      assert Elems(s) == Elems(p) + {s[|s| - 1]};
    }
  }

  /** A sequence has as many distinct values as entries exactly when it has no repeats. */
  lemma {:induction false} CardElems(s: seq<int>)
    ensures |Elems(s)| <= |s|
    ensures |Elems(s)| == |s| <==> Distinct(s)
    decreases |s|
  {
    if s != [] {
      var p := s[..|s| - 1];
      var v := s[|s| - 1];
      CardElems(p);
      assert Elems(s) == Elems(p) + {v};
      if v in p {
        assert v in Elems(p);
        var i :| 0 <= i < |p| && p[i] == v;
        assert s[i] == s[|s| - 1];
      } else {
        assert v !in Elems(p);
        if Distinct(p) {
          forall i, j | 0 <= i < j < |s| ensures s[i] != s[j] {
            if j < |p| {
              assert s[i] == p[i] && s[j] == p[j];
            } else {
              assert s[i] == p[i];
            }
          }
        } else {
          var i, j :| 0 <= i < j < |p| && p[i] == p[j];
          assert s[i] == s[j];
        }
      }
    }
  }

  lemma SubsetSameCard(a: set<int>, b: set<int>)
    requires a <= b && |a| == |b|
    ensures a == b
  {
    assert b == a + (b - a);
    assert |b| == |a| + |b - a|;
  }

  /** Pigeonhole: m distinct values drawn from [0, m) cover all of [0, m). */
  lemma Covers(s: seq<int>, m: nat)
    requires |s| == m && Distinct(s)
    requires forall i :: 0 <= i < |s| ==> 0 <= s[i] < m
    ensures forall v :: 0 <= v < m ==> v in s
  {
    DistinctCard(s);
    SubsetSameCard(Elems(s), Range(m));
    forall v | 0 <= v < m ensures v in s {
      assert v in Range(m);
      assert v in Elems(s);
    }
  }

  /** A duplicate-free sequence holding exactly the values of [0, n) has length n. */
  lemma LengthOfRange(s: seq<int>, n: nat)
    requires Distinct(s) && forall v :: v in s <==> 0 <= v < n
    ensures |s| == n
  {
    DistinctCard(s);
    assert Elems(s) == Range(n);
  }

  // ------------------------------------------------------------------ the generator

  /** ceil(log2(n)) for n >= 1, computed exactly. */
  function CeilLog2(n: nat): nat
  {
    if n <= 1 then 0 else 1 + CeilLog2((n + 1) / 2)
  }

  /** 2^CeilLog2(n) is the least power of two that is at least n. */
  lemma {:induction false} CeilLog2Least(n: nat)
    requires n >= 1
    ensures Pow2(CeilLog2(n)) >= n
    ensures CeilLog2(n) > 0 ==> Pow2(CeilLog2(n) - 1) < n
  {
    if n > 1 {
      CeilLog2Least((n + 1) / 2);
    }
  }

  /** The modulus m = 1 << ceil(log2(n)). */
  function Modulus(n: nat): (m: nat)
    requires n >= 1
    ensures m >= n
  {
    CeilLog2Least(n);
    Pow2(CeilLog2(n))
  }

  /** randrange(1, m, 2) for a given oracle draw: an odd increment in [1, m). */
  function Increment(m: nat, draw: nat): (c: int)
    requires m >= 2
    ensures 1 <= c < m && c % 2 == 1
  {
    var c := 1 + 2 * (draw % (m / 2));
    assert c % 2 == 1 by { ModAddMultiple(1, 2, draw % (m / 2)); }
    c
  }

  /** Every odd increment in [1, m) is drawn by some oracle value. */
  lemma IncrementReachesAllOdd(m: nat, c: int)
    requires m >= 2 && 1 <= c < m && c % 2 == 1
    ensures Increment(m, (c - 1) / 2) == c
  {
  }

  /** randrange(m) for a given oracle draw. */
  function Start(m: nat, draw: nat): (x: nat)
    requires m >= 1
    ensures x < m
  {
    draw % m
  }

  /** The first len iterates of the generator. */
  function OrbitSeq(x0: int, c: int, m: nat, len: nat): (r: seq<int>)
    requires m > 0
    ensures |r| == len
    ensures forall t :: 0 <= t < len ==> r[t] == Orbit(x0, c, m, t)
  {
    seq(len, t requires 0 <= t => Orbit(x0, c, m, t))
  }

  /** For an odd increment and a start in range, the m = 2^k iterates visit every value of
      [0, m) exactly once. */
  lemma OrbitIsPermutation(x0: int, c: int, k: nat)
    requires 0 <= x0 < Pow2(k) && c % 2 == 1
    ensures Distinct(OrbitSeq(x0, c, Pow2(k), Pow2(k)))
    ensures forall v :: v in OrbitSeq(x0, c, Pow2(k), Pow2(k)) <==> 0 <= v < Pow2(k)
  {
    var m := Pow2(k);
    var o := OrbitSeq(x0, c, m, m);
    forall i, j | 0 <= i < j < m ensures o[i] != o[j] {
      FullPeriodDistinct(x0, c, k, i, j);
    }
    Covers(o, m);
  }

  /** The stream non_repeating_lcg(n) yields for the draws cDraw and xDraw: nothing for n <= 0,
      0 alone for n = 1, otherwise the iterates of the generator that fall below n, in order. */
  function LcgStream(n: int, cDraw: nat, xDraw: nat): seq<int>
  {
    if n <= 0 then []
    else if n == 1 then [0]
    else Below(OrbitSeq(Start(Modulus(n), xDraw), Increment(Modulus(n), cDraw), Modulus(n), Modulus(n)), n)
  }

  /** non_repeating_lcg(n): pseudorandom sampling of [0, n) without replacement in O(1) space.
      cDraw and xDraw are the two randrange draws. */
  method NonRepeatingLcg(n: int, cDraw: nat, xDraw: nat) returns (out: seq<int>)
    ensures n <= 0 ==> out == []
    ensures n == 1 ==> out == [0]
    ensures n >= 2 ==> out == Below(OrbitSeq(Start(Modulus(n), xDraw), Increment(Modulus(n), cDraw),
                                             Modulus(n), Modulus(n)), n)
    ensures out == LcgStream(n, cDraw, xDraw)
    ensures n >= 1 ==> |out| == n && Distinct(out) && forall v :: v in out <==> 0 <= v < n
  {
    out := [];
    if n > 0 {
      var m := Modulus(n);
      if m > 1 {
        var c := Increment(m, cDraw);
        var x := Start(m, xDraw);
        ghost var x0 := x;
        for i := 0 to m
          invariant x == Orbit(x0, c, m, i)
          invariant out == Below(OrbitSeq(x0, c, m, i), n)
        {
          assert OrbitSeq(x0, c, m, i + 1)[..i] == OrbitSeq(x0, c, m, i);
          if x < n {
            out := out + [x];
          }
          x := (5 * x + c) % m;
        }
        CeilLog2Least(n);
        OrbitIsPermutation(x0, c, CeilLog2(n));
        BelowDistinct(OrbitSeq(x0, c, m, m), n);
        LengthOfRange(out, n);
      } else {
        out := [0];
      }
    }
  }

  /** sample(n): the same stream as non_repeating_lcg(n). */
  method Sample(n: int, cDraw: nat, xDraw: nat) returns (out: seq<int>)
    ensures n <= 0 ==> out == []
    ensures n >= 1 ==> |out| == n && Distinct(out) && forall v :: v in out <==> 0 <= v < n
  {
    out := NonRepeatingLcg(n, cDraw, xDraw);
  }

  /** Python's floor division and modulo (rounding toward minus infinity). */
  function FloorDiv(a: int, b: int): int
    requires b != 0
  {
    // Dafny's division by a positive divisor already rounds down; a / b == (-a) / (-b).
    if b > 0 then a / b else (-a) / (-b)
  }

  function FloorMod(a: int, b: int): int
    requires b != 0
  {
    a - b * FloorDiv(a, b)
  }

  /** The range of Python's `%`: it takes the sign of the divisor. */
  predicate RemainderOf(r: int, b: int)
  {
    if b > 0 then 0 <= r < b else b < r <= 0
  }

  /** Floor division rounds toward minus infinity: a lies in [b*q, b*q + b) for b > 0 and in (b*q + b, b*q] for b < 0. */
  lemma FloorBounds(a: int, b: int)
    requires b != 0
    ensures b > 0 ==> b * FloorDiv(a, b) <= a < b * FloorDiv(a, b) + b
    ensures b < 0 ==> b * FloorDiv(a, b) + b < a <= b * FloorDiv(a, b)
    ensures RemainderOf(FloorMod(a, b), b) && a == b * FloorDiv(a, b) + FloorMod(a, b)
  {
    if b < 0 {
      var q := (-a) / (-b);
      assert -a == (-b) * q + (-a) % (-b);
      assert b * q == -((-b) * q);
    }
  }

  /** The pair a linear index v decodes to in sample2. */
  function Decode(v: int, m: int): (int, int)
    requires m != 0
  {
    (FloorDiv(v, m), FloorMod(v, m))
  }

  /** Division by a positive m is determined by quotient and remainder. */
  lemma DivUnique(a: int, m: int, q: int, r: int)
    requires m > 0 && 0 <= r < m && a == q * m + r
    ensures a / m == q && a % m == r
  {
    var q', r' := a / m, a % m;
    assert m * q - m * q' == m * (q - q');
    SmallMultiple(m, q - q', r' - r);
  }

  /** For any non-zero m, decoding inverts v = i * m + j when j is a remainder of m. */
  lemma DecodeInverts(i: int, j: int, m: int)
    requires m != 0 && RemainderOf(j, m)
    ensures Decode(i * m + j, m) == (i, j)
  {
    if m > 0 {
      DivUnique(i * m + j, m, i, j);
    } else {
      assert -(i * m + j) == i * (-m) + (-j);
      DivUnique(-(i * m + j), -m, i, -j);
    }
  }

  /**
   * Decoding a duplicate-free enumeration of [0, nm) for any non-zero m: the pairs are distinct
   * and are exactly the (i, j) with j a remainder of m and i * m + j in [0, nm).
   */
  lemma DecodeAll(vs: seq<int>, out: seq<(int, int)>, m: int, nm: int)
    requires m != 0
    requires Distinct(vs) && forall v :: v in vs <==> 0 <= v < nm
    requires |out| == |vs| && forall t :: 0 <= t < |out| ==> out[t] == Decode(vs[t], m)
    ensures Distinct(out)
    ensures forall i, j :: (i, j) in out <==> RemainderOf(j, m) && 0 <= i * m + j < nm
  {
    forall t | 0 <= t < |out|
      ensures RemainderOf(out[t].1, m) && vs[t] == out[t].0 * m + out[t].1
    {
      FloorBounds(vs[t], m);
    }
    forall s, t | 0 <= s < t < |out| ensures out[s] != out[t] {
      assert vs[s] != vs[t];
    }
    forall i, j | RemainderOf(j, m) && 0 <= i * m + j < nm ensures (i, j) in out {
      assert i * m + j in vs;
      var t :| 0 <= t < |vs| && vs[t] == i * m + j;
      DecodeInverts(i, j, m);
      assert out[t] == (i, j);
    }
    forall i, j | (i, j) in out ensures RemainderOf(j, m) && 0 <= i * m + j < nm {
      var t :| 0 <= t < |out| && out[t] == (i, j);
      assert vs[t] in vs;
    }
  }

  /** For positive m, decoding inverts v = i * m + j. */
  lemma DecodeRoundTrip(i: int, j: int, m: int)
    requires m > 0 && 0 <= j < m
    ensures Decode(i * m + j, m) == (i, j)
  {
    DivUnique(i * m + j, m, i, j);
  }

  /** For 0 <= v < n * m, decoding gives a cell of the n-by-m grid that encodes back to v. */
  lemma DecodeInGrid(v: int, n: int, m: int)
    requires m > 0 && 0 <= v < n * m
    ensures 0 <= Decode(v, m).0 < n && 0 <= Decode(v, m).1 < m
    ensures v == Decode(v, m).0 * m + Decode(v, m).1
  {
    var q := v / m;
    assert v == m * q + v % m;
    if q >= n {
      MulAtLeast(m, q - n + 1);
      assert m * q == m * (q - n + 1) + m * n - m;
    }
  }

  lemma GridIndexBound(i: int, j: int, n: int, m: int)
    requires m > 0 && 0 <= i < n && 0 <= j < m
    ensures 0 <= i * m + j < n * m
  {
    MulAtLeast(m, n - i);
    assert n * m == i * m + m * (n - i);
    assert i * m >= 0;
  }

  /** Decoding a duplicate-free enumeration of [0, n * m) enumerates the n-by-m grid. */
  lemma DecodeGrid(vs: seq<int>, out: seq<(int, int)>, n: int, m: int, nm: int)
    requires n >= 1 && m >= 1 && nm == n * m
    requires Distinct(vs) && forall v :: v in vs <==> 0 <= v < nm
    requires |out| == |vs| && forall t :: 0 <= t < |out| ==> out[t] == Decode(vs[t], m)
    ensures Distinct(out)
    ensures forall i, j :: (i, j) in out <==> 0 <= i < n && 0 <= j < m
  {
    forall t | 0 <= t < |out|
      ensures 0 <= out[t].0 < n && 0 <= out[t].1 < m && vs[t] == out[t].0 * m + out[t].1
    {
      assert vs[t] in vs;
      DecodeInGrid(vs[t], n, m);
    }
    forall s, t | 0 <= s < t < |out| ensures out[s] != out[t] {
      assert vs[s] != vs[t];
    }
    forall i, j | 0 <= i < n && 0 <= j < m ensures (i, j) in out {
      GridIndexBound(i, j, n, m);
      assert i * m + j in vs;
      var t :| 0 <= t < |vs| && vs[t] == i * m + j;
      DecodeRoundTrip(i, j, m);
      assert out[t] == (i, j);
    }
  }

  /** The pairs sample2(n, m) yields, in order: (v // m, v % m) for each v of the stream of
      non_repeating_lcg(n * m); that stream is empty when m is 0. */
  function Sample2Pairs(n: int, m: int, cDraw: nat, xDraw: nat): seq<(int, int)>
  {
    var vs := LcgStream(n * m, cDraw, xDraw);
    if m == 0 then [] else seq(|vs|, t requires 0 <= t < |vs| => Decode(vs[t], m))
  }

  /** sample2(n, m): the pairs (v // m, v % m) for v drawn from non_repeating_lcg(n * m). */
  method Sample2(n: int, m: int, cDraw: nat, xDraw: nat) returns (out: seq<(int, int)>)
    ensures out == Sample2Pairs(n, m, cDraw, xDraw)
    ensures n * m <= 0 ==> out == []
    ensures n >= 1 && m >= 1 ==> |out| == n * m && Distinct(out)
    ensures n >= 1 && m >= 1 ==> forall i, j :: (i, j) in out <==> 0 <= i < n && 0 <= j < m
    ensures n * m >= 1 ==> |out| == n * m && Distinct(out)
    ensures n * m >= 1 ==> forall i, j :: (i, j) in out <==> RemainderOf(j, m) && 0 <= i * m + j < n * m
    ensures n * m == 1 ==> m != 0 && out == [Decode(0, m)]
  {
    var nm := n * m;
    var vs := NonRepeatingLcg(nm, cDraw, xDraw);
    out := [];
    for k := 0 to |vs|
      invariant |out| == k
      invariant forall t :: 0 <= t < k ==> m != 0 && out[t] == Decode(vs[t], m)
    {
      out := out + [Decode(vs[k], m)];
    }
    if nm >= 1 {
      DecodeAll(vs, out, m, nm);
    }
    if n >= 1 && m >= 1 {
      assert nm >= 1 by { MulAtLeast(m, n); }
      DecodeGrid(vs, out, n, m, nm);
    }
  }
}
