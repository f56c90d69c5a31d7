/** Number theory behind the sampling utility: the generator x -> (5x + c) mod 2^k with c odd
    has full period (Hull and Dobell; Knuth, TAOCP vol. 2, section 3.2.1.2, Theorem A). */
module FullPeriod {

  function Pow2(k: nat): (r: nat)
    ensures r >= 1
  {
    if k == 0 then 1 else 2 * Pow2(k - 1)
  }

  function Pow5(t: nat): (r: nat)
    ensures r >= 1
  {
    if t == 0 then 1 else 5 * Pow5(t - 1)
  }

  /** Geo(t) = 1 + 5 + ... + 5^(t-1). */
  function Geo(t: nat): nat
  {
    if t == 0 then 0 else 5 * Geo(t - 1) + 1
  }

  /** One step of the generator used by the sampling utility (multiplier 5). */
  function Next(x: int, c: int, m: int): int
    requires m > 0
  {
    (5 * x + c) % m
  }

  /** The t-th iterate of Next starting from x0. */
  function Orbit(x0: int, c: int, m: int, t: nat): (r: int)
    requires m > 0
    ensures t > 0 ==> 0 <= r < m
  {
    if t == 0 then x0 else Next(Orbit(x0, c, m, t - 1), c, m)
  }

  // ---------------------------------------------------------------- modular arithmetic helpers

  lemma MulAtLeast(m: int, q: int)
    requires m > 0
    ensures q >= 1 ==> m * q >= m
    ensures q <= -1 ==> m * q <= -m
  {
    if q >= 1 {
      assert m * q == m + m * (q - 1);
    } else if q <= -1 {
      assert m * q == -m + m * (q + 1);
    }
  }

  /** Two numbers in [0, m) whose difference is a multiple of m are equal. */
  lemma SmallMultiple(m: int, q: int, d: int)
    requires m > 0 && d == m * q && -m < d < m
    ensures q == 0 && d == 0
  {
    MulAtLeast(m, q);
  }

  lemma ModOfSmall(y: int, m: int)
    requires 0 <= y < m
    ensures y % m == y
  {
    var q := y / m;
    assert y == m * q + y % m;
    SmallMultiple(m, q, y - y % m);
  }

  lemma ModAddMultiple(y: int, m: int, k: int)
    requires m > 0
    ensures (y + m * k) % m == y % m
  {
    var q1, r1 := y / m, y % m;
    var q2, r2 := (y + m * k) / m, (y + m * k) % m;
    assert y == m * q1 + r1;
    assert y + m * k == m * q2 + r2;
    assert r2 - r1 == m * (q1 + k - q2);
    SmallMultiple(m, q1 + k - q2, r2 - r1);
  }

  lemma ModZeroIsMultiple(a: int, m: int)
    requires m > 0
    ensures a % m == 0 <==> a == m * (a / m)
  {
  }

  lemma MultipleModZero(m: int, q: int)
    requires m > 0
    ensures (m * q) % m == 0
  {
    ModAddMultiple(0, m, q);
  }

  lemma ModOfMod(a: int, x: int, c: int, m: int)
    requires m > 0
    ensures (a * (x % m) + c) % m == (a * x + c) % m
  {
    var q := x / m;
    assert x == m * q + x % m;
    assert a * x + c == (a * (x % m) + c) + m * (a * q);
    ModAddMultiple(a * (x % m) + c, m, a * q);
  }

  /** If (y + z) and y agree modulo m, then z is a multiple of m. */
  lemma CancelMod(y: int, z: int, m: int)
    requires m > 0
    requires (y + z) % m == y % m
    ensures z % m == 0
  {
    var q1 := y / m;
    var q2 := (y + z) / m;
    assert y == m * q1 + y % m;
    assert y + z == m * q2 + (y + z) % m;
    assert z == m * (q2 - q1);
    MultipleModZero(m, q2 - q1);
  }

  // ---------------------------------------------------------------- parity

  lemma OddTimesOdd(a: int, b: int)
    requires a % 2 == 1 && b % 2 == 1
    ensures (a * b) % 2 == 1
  {
    var p, r := a / 2, b / 2;
    assert a == 2 * p + 1 && b == 2 * r + 1;
    assert a * b == 1 + 2 * (2 * p * r + p + r);
    ModAddMultiple(1, 2, 2 * p * r + p + r);
  }

  /** A multiple of 2s is even and its half is a multiple of s. */
  lemma HalveMultiple(x: int, s: int)
    requires s > 0 && x % (2 * s) == 0
    ensures x % 2 == 0 && (x / 2) % s == 0
  {
    var q := x / (2 * s);
    assert x == (2 * s) * q;
    assert x == 2 * (s * q);
    MultipleModZero(2, s * q);
    assert x / 2 == s * q;
    MultipleModZero(s, q);
  }

  lemma DoubleMultiple(u: int, s: int)
    requires s > 0 && u % s == 0
    ensures (2 * u) % (2 * s) == 0
  {
    var q := u / s;
    assert u == s * q;
    assert 2 * u == (2 * s) * q;
    MultipleModZero(2 * s, q);
  }

  lemma HalfProduct(a: int, b: int)
    requires a % 2 == 0
    ensures (a * b) / 2 == (a / 2) * b && (a * b) % 2 == 0
  {
    var h := a / 2;
    assert a * b == 2 * (h * b);
    MultipleModZero(2, h * b);
  }

  /** An odd factor does not help divisibility by a power of two. */
  lemma {:induction false} OddFactor(a: int, b: int, k: nat)
    requires b % 2 == 1
    requires (a * b) % Pow2(k) == 0
    ensures a % Pow2(k) == 0
    decreases k
  {
    if k > 0 {
      var small := Pow2(k - 1);
      HalveMultiple(a * b, small);
      if a % 2 == 1 {
        OddTimesOdd(a, b);
        assert false;
      }
      HalfProduct(a, b);
      OddFactor(a / 2, b, k - 1);
      DoubleMultiple(a / 2, small);
    }
  }

  // ---------------------------------------------------------------- the geometric sum

  lemma {:induction false} GeoParity(t: nat)
    ensures Geo(t) % 2 == t % 2
  {
    if t > 0 {
      GeoParity(t - 1);
      var g := Geo(t - 1);
      assert Geo(t) == (g + 1) + 2 * (2 * g);
      ModAddMultiple(g + 1, 2, 2 * g);
      var k := g / 2 - (t - 1) / 2;
      assert g == 2 * (g / 2) + g % 2 && t - 1 == 2 * ((t - 1) / 2) + (t - 1) % 2;
      assert g + 1 == t + 2 * k;
      ModAddMultiple(t, 2, k);
    }
  }

  lemma {:induction false} Pow5Mod4(t: nat)
    ensures Pow5(t) % 4 == 1
  {
    if t > 0 {
      Pow5Mod4(t - 1);
      assert Pow5(t) == Pow5(t - 1) + 4 * Pow5(t - 1);
      ModAddMultiple(Pow5(t - 1), 4, Pow5(t - 1));
    }
  }

  lemma {:induction false} GeoAdd(u: nat, v: nat)
    ensures Geo(u + v) == Pow5(v) * Geo(u) + Geo(v)
  {
    if v > 0 {
      GeoAdd(u, v - 1);
      assert Geo(u + v) == 5 * Geo(u + v - 1) + 1;
      assert 5 * (Pow5(v - 1) * Geo(u)) == (5 * Pow5(v - 1)) * Geo(u);
    }
  }

  /** Geo(2u) = Geo(u) * 2 * h with h odd. */
  lemma GeoDouble(u: nat) returns (h: int)
    ensures h % 2 == 1
    ensures Geo(2 * u) == Geo(u) * (2 * h)
  {
    GeoAdd(u, u);
    Pow5Mod4(u);
    var w := Pow5(u) / 4;
    assert Pow5(u) == 4 * w + 1;
    h := 2 * w + 1;
    ModAddMultiple(1, 2, w);
    assert 1 + Pow5(u) == 2 * h;
    assert Geo(2 * u) == Geo(u) * (1 + Pow5(u));
  }

  /** The 2-adic valuation of Geo(t) is that of t: 2^k | Geo(t) implies 2^k | t. */
  lemma {:induction false} GeoDivides(t: nat, k: nat)
    requires Geo(t) % Pow2(k) == 0
    ensures t % Pow2(k) == 0
    decreases k
  {
    if k > 0 {
      var small := Pow2(k - 1);
      HalveMultiple(Geo(t), small);
      GeoParity(t);
      var u := t / 2;
      assert t == 2 * u;
      var h := GeoDouble(u);
      assert Geo(t) / 2 == Geo(u) * h by {
        assert Geo(u) * (2 * h) == 2 * (Geo(u) * h);
      }
      OddFactor(Geo(u), h, k - 1);
      GeoDivides(u, k - 1);
      DoubleMultiple(u, small);
    }
  }

  // ---------------------------------------------------------------- the orbit

  /** Closed form of the orbit: x_t = (x0 + Geo(t) * (4 x0 + c)) mod m. */
  lemma ClosedFormStep(x0: int, c: int, g: int, b: int)
    requires b == 4 * x0 + c
    ensures 5 * (x0 + g * b) + c == x0 + (5 * g + 1) * b
  {
    assert (5 * g + 1) * b == 5 * (g * b) + b;
  }

  /** The closed form of the t-th iterate: (x0 + Geo(t) * (4 x0 + c)) mod m. */
  function ClosedForm(x0: int, c: int, m: int, t: nat): int
    requires m > 0
  {
    (x0 + Geo(t) * (4 * x0 + c)) % m
  }

  lemma ClosedFormZero(x0: int, c: int, m: int)
    requires m > 0 && 0 <= x0 < m
    ensures ClosedForm(x0, c, m, 0) == x0
  {
    assert Geo(0) * (4 * x0 + c) == 0;
  }

  lemma ClosedFormSucc(x0: int, c: int, m: int, t: nat)
    requires m > 0 && t > 0
    ensures ClosedForm(x0, c, m, t) == Next(ClosedForm(x0, c, m, t - 1), c, m)
  {
    var b := 4 * x0 + c;
    var g := Geo(t - 1);
    var big := x0 + g * b;
    var y := 5 * big + c;
    var x := x0 + Geo(t) * b;
    assert ClosedForm(x0, c, m, t - 1) == big % m;
    assert ClosedForm(x0, c, m, t) == x % m;
    assert (5 * (big % m) + c) % m == y % m by {
      ModOfMod(5, big, c, m);
    }
    assert x == y by {
      ClosedFormStep(x0, c, g, b);
      assert Geo(t) == 5 * g + 1;
    }
  }

  /** The iterates follow the closed form. */
  lemma {:induction false} OrbitClosedForm(x0: int, c: int, m: int, t: nat)
    requires m > 0 && 0 <= x0 < m
    ensures Orbit(x0, c, m, t) == ClosedForm(x0, c, m, t)
  {
    if t == 0 {
      ClosedFormZero(x0, c, m);
    } else {
      OrbitClosedForm(x0, c, m, t - 1);
      ClosedFormSucc(x0, c, m, t);
    }
  }

  lemma {:induction false} OrbitShift(x0: int, c: int, m: int, i: nat, t: nat)
    requires m > 0
    ensures Orbit(x0, c, m, i + t) == Orbit(Orbit(x0, c, m, i), c, m, t)
  {
    if t > 0 {
      OrbitShift(x0, c, m, i, t - 1);
    }
  }

  lemma SmallMod(t: int, m: int)
    requires 0 < t < m
    ensures t % m != 0
  {
  }

  /** A point the orbit returns to after t steps makes Geo(t) * (4 y + c) a multiple of m. */
  lemma ReturnIsMultiple(y: int, c: int, m: int, t: nat)
    requires m > 0 && 0 <= y < m && Orbit(y, c, m, t) == y
    ensures (Geo(t) * (4 * y + c)) % m == 0
  {
    var z := Geo(t) * (4 * y + c);
    OrbitClosedForm(y, c, m, t);
    ModOfSmall(y, m);
    CancelMod(y, z, m);
  }

  /** No point of the orbit returns to itself in fewer than m = 2^k steps. */
  lemma NoShortCycle(y: int, c: int, k: nat, t: nat)
    requires 0 <= y < Pow2(k) && c % 2 == 1 && 0 < t < Pow2(k)
    ensures Orbit(y, c, Pow2(k), t) != y
  {
    var m := Pow2(k);
    if Orbit(y, c, m, t) == y {
      ReturnIsMultiple(y, c, m, t);
      ModAddMultiple(c, 2, 2 * y);
      assert c + 2 * (2 * y) == 4 * y + c;
      OddFactor(Geo(t), 4 * y + c, k);
      GeoDivides(t, k);
      SmallMod(t, m);
    }
  }

  /** Full period: the first 2^k iterates are pairwise distinct (for x0 in range and c odd). */
  lemma FullPeriodDistinct(x0: int, c: int, k: nat, i: nat, j: nat)
    requires 0 <= x0 < Pow2(k) && c % 2 == 1
    requires i < j < Pow2(k)
    ensures Orbit(x0, c, Pow2(k), i) != Orbit(x0, c, Pow2(k), j)
  {
    var m := Pow2(k);
    var y := Orbit(x0, c, m, i);
    OrbitShift(x0, c, m, i, j - i);
    NoShortCycle(y, c, k, j - i);
  }
}
