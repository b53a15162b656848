/** Integer helpers of patternmatcher/utils.py: Python's floor division and
    remainder, `math.gcd` and the extended Euclidean algorithm. */
module MathUtils {

  function Abs(x: int): nat { if x < 0 then -x else x }

  /** `d` divides `n` (every integer divides 0; 0 divides only 0). */
  ghost predicate Divides(d: int, n: int) {
    exists k :: n == d * k
  }

  /** Python's `a % b`: the remainder has the sign of the divisor
      (Dafny's own `%` is Euclidean and never negative). */
  function FloorMod(a: int, b: int): (r: int)
    requires b != 0
    ensures b > 0 ==> 0 <= r < b
    ensures b < 0 ==> b < r <= 0
  {
    if b > 0 || a % b == 0 then a % b else a % b + b
  }

  /** Python's `a // b`: the quotient rounded towards minus infinity. */
  function FloorDiv(a: int, b: int): (q: int)
    requires b != 0
    ensures a == b * q + FloorMod(a, b)
  {
    if b > 0 || a % b == 0 then a / b else a / b - 1
  }

  /** `math.gcd`: the non-negative greatest common divisor, with gcd(0, 0) == 0. */
  function Gcd(a: int, b: int): nat
    decreases Abs(b)
  {
    if b == 0 then Abs(a) else Gcd(b, a % b)
  }

  lemma DividesMul(d: int, n: int, k: int)
    requires Divides(d, n)
    ensures Divides(d, n * k)
  {
    var m :| n == d * m;
    assert n * k == d * (m * k);
  }

  lemma DividesLinear(d: int, a: int, b: int, x: int, y: int)
    requires Divides(d, a) && Divides(d, b)
    ensures Divides(d, a * x + b * y)
  {
    var m :| a == d * m;
    var n :| b == d * n;
    assert a * x + b * y == d * (m * x + n * y);
  }

  lemma DividesTrans(a: int, b: int, c: int)
    requires Divides(a, b) && Divides(b, c)
    ensures Divides(a, c)
  {
    var m :| b == a * m;
    var n :| c == b * n;
    assert c == a * (m * n);
  }

  lemma DividesRefl(a: int)
    ensures Divides(a, a) && Divides(a, 0) && Divides(1, a) && Divides(a, -a)
  {
    assert a == a * 1;
    assert 0 == a * 0;
    assert a == 1 * a;
    assert -a == a * -1;
  }

  /** A divisor of a non-zero number is no larger than it in absolute value. */
  lemma DividesBound(d: int, n: int)
    requires Divides(d, n) && n != 0
    ensures Abs(d) <= Abs(n)
  {
    var k :| n == d * k;
    assert k != 0;
    AbsMul(d, k);
    MulAtLeast(Abs(d), Abs(k));
  }

  lemma MulAtLeast(a: nat, b: nat)
    requires b >= 1
    ensures a * b >= a
  {
    assert a * b == a * (b - 1) + a;
  }

  lemma AbsMul(a: int, b: int)
    ensures Abs(a * b) == Abs(a) * Abs(b)
  {
  }

  /** Two non-negative numbers that divide each other are equal. */
  lemma DividesAntisym(a: nat, b: nat)
    requires Divides(a, b) && Divides(b, a)
    ensures a == b
  {
    if a == 0 {
      var k :| b == a * k;
    } else if b == 0 {
      var k :| a == b * k;
    } else {
      DividesBound(a, b);
      DividesBound(b, a);
    }
  }

  /** For a positive divisor, divisibility is a zero remainder. */
  lemma DividesIffMod(d: int, n: int)
    requires d > 0
    ensures Divides(d, n) <==> n % d == 0
  {
    if n % d == 0 {
      assert n == d * (n / d);
    }
    if Divides(d, n) {
      var k :| n == d * k;
      ModOfMultiple(d, k);
    }
  }

  lemma ModOfMultiple(d: int, k: int)
    requires d > 0
    ensures (d * k) % d == 0 && (d * k) / d == k
  {
    var q, r := (d * k) / d, (d * k) % d;
    assert d * k == d * q + r;
    assert d * (k - q) == r;
    QuotientUnique(d, k - q, r);
  }

  /** `d * t` lies in `[0, d)` only for `t == 0`. */
  lemma QuotientUnique(d: int, t: int, r: int)
    requires d > 0 && d * t == r && 0 <= r < d
    ensures t == 0 && r == 0
  {
  }

  /** Python's `%` is zero exactly when the divisor divides the dividend. */
  lemma DividesIffFloorMod(d: int, n: int)
    requires d != 0
    ensures Divides(d, n) <==> FloorMod(n, d) == 0
    ensures FloorMod(n, d) == 0 ==> n == d * FloorDiv(n, d)
  {
    if Divides(d, n) {
      var k :| n == d * k;
      var q, r := FloorDiv(n, d), FloorMod(n, d);
      assert d * (k - q) == r;
      if r != 0 {
        assert Divides(d, r);
        DividesBound(d, r);
      }
    }
    if FloorMod(n, d) == 0 {
      assert n == d * FloorDiv(n, d);
    }
  }

  lemma {:induction false} GcdDivides(a: int, b: int)
    ensures Divides(Gcd(a, b), a) && Divides(Gcd(a, b), b)
    decreases Abs(b)
  {
    if b == 0 {
      DividesRefl(Gcd(a, b));
      if a < 0 { DividesRefl(a); assert Divides(-a, a); }
      else { DividesRefl(a); }
    } else {
      GcdDivides(b, a % b);
      var g := Gcd(a, b);
      assert a == b * (a / b) + a % b;
      DividesLinear(g, b, a % b, a / b, 1);
    }
  }

  /** Every common divisor divides the gcd. */
  lemma {:induction false} GcdGreatest(a: int, b: int, c: int)
    requires Divides(c, a) && Divides(c, b)
    ensures Divides(c, Gcd(a, b))
    decreases Abs(b)
  {
    if b == 0 {
      if a < 0 {
        var k :| a == c * k;
        assert -a == c * -k;
      }
    } else {
      assert a % b == a * 1 + b * -(a / b);
      DividesLinear(c, a, b, 1, -(a / b));
      GcdGreatest(b, a % b, c);
    }
  }

  /** The gcd is zero only when both arguments are. */
  lemma GcdPositive(a: int, b: int)
    requires a != 0 || b != 0
    ensures Gcd(a, b) > 0
  {
    GcdDivides(a, b);
    if Gcd(a, b) == 0 {
      var k :| a == 0 * k;
      var m :| b == 0 * m;
    }
  }

  /** The unique non-negative common divisor that every common divisor divides
      is the gcd. */
  lemma GcdUnique(a: int, b: int, g: nat)
    requires Divides(g, a) && Divides(g, b)
    requires forall c :: Divides(c, a) && Divides(c, b) ==> Divides(c, g)
    ensures g == Gcd(a, b)
  {
    GcdDivides(a, b);
    GcdGreatest(a, b, g);
    DividesAntisym(g, Gcd(a, b));
  }

  /** `extended_euclid`: returns `(x, y, d)` with `a*x + b*y == d` where `d`
      divides both `a` and `b`, all in Python's floor arithmetic. */
  function ExtendedEuclid(a: int, b: int): (r: (int, int, int))
    ensures a * r.0 + b * r.1 == r.2
    ensures Divides(r.2, a) && Divides(r.2, b)
    ensures a >= 0 && b >= 0 ==> r.2 >= 0
    decreases Abs(b)
  {
    if b == 0 then
      DividesRefl(a);
      (1, 0, a)
    else
      var m, q := FloorMod(a, b), FloorDiv(a, b);
      var t := ExtendedEuclid(b, m);
      EuclidStep(a, b, q, m, t.0, t.1, t.2);
      (t.1, t.0 - q * t.1, t.2)
  }

  /** One step of the extended Euclidean algorithm keeps Bezout's identity and
      the common divisor. */
  lemma EuclidStep(a: int, b: int, q: int, m: int, x0: int, y0: int, d: int)
    requires a == b * q + m
    requires b * x0 + m * y0 == d
    requires Divides(d, b) && Divides(d, m)
    ensures a * y0 + b * (x0 - q * y0) == d
    ensures Divides(d, a)
  {
    calc {
      a * y0 + b * (x0 - q * y0);
      (b * q + m) * y0 + b * x0 - b * q * y0;
      { assert (b * q + m) * y0 == b * q * y0 + m * y0; }
      b * x0 + m * y0;
    }
    DividesLinear(d, b, m, q, 1);
  }

  lemma DividesAbs(d: int, n: int)
    requires Divides(d, n)
    ensures Divides(Abs(d), n) && Divides(d, Abs(n))
  {
    var k :| n == d * k;
    if d < 0 { assert n == Abs(d) * -k; }
    if n < 0 { assert Abs(n) == d * -k; }
  }

  /** The `d` of `extended_euclid(a, b)` is the gcd up to sign, and exactly the
      gcd when both arguments are non-negative. */
  lemma ExtendedEuclidIsGcd(a: int, b: int)
    ensures Abs(ExtendedEuclid(a, b).2) == Gcd(a, b)
    ensures a >= 0 && b >= 0 ==> ExtendedEuclid(a, b).2 == Gcd(a, b)
  {
    var r := ExtendedEuclid(a, b);
    var d := r.2;
    GcdDivides(a, b);
    var g := Gcd(a, b);
    DividesLinear(g, a, b, r.0, r.1);
    assert Divides(g, d);
    assert Divides(d, g) by { GcdGreatest(a, b, d); }
    DividesAbs(g, d);
    DividesAbs(d, g);
    DividesAntisym(g, Abs(d));
  }

  /** For positive arguments `extended_euclid` returns a minimal pair of
      Bezout coefficients: `|x| <= b/d` and `|y| <= a/d`. */
  lemma {:induction false} ExtendedEuclidMinimal(a: int, b: int)
    requires a > 0 && b > 0
    ensures var r := ExtendedEuclid(a, b);
      r.2 > 0 && Abs(r.0) * r.2 <= b && Abs(r.1) * r.2 <= a
    decreases b
  {
    var r := ExtendedEuclid(a, b);
    ExtendedEuclidIsGcd(a, b);
    GcdPositive(a, b);
    var m, q := FloorMod(a, b), FloorDiv(a, b);
    var t := ExtendedEuclid(b, m);
    assert r == (t.1, t.0 - q * t.1, t.2);
    if m == 0 {
      assert t == (1, 0, b);
      assert q >= 1 by {
        if q <= 0 { MulNonPositive(b, q); }
      }
      MulAtLeast(b, q);
    } else {
      ExtendedEuclidMinimal(b, m);
      assert q >= 0 by {
        if q < 0 { MulMonotone(q, -1, b); }
      }
      MinimalStep(q, m, b, t.0, t.1, t.2);
    }
  }

  lemma MulNonPositive(b: nat, q: int)
    requires q <= 0
    ensures b * q <= 0
  {
    assert b * q == -(b * -q);
  }

  /** The step bound of `ExtendedEuclidMinimal`: the new coefficient
      `x0 - q*y0` stays within `m + q*b`. */
  lemma MinimalStep(q: nat, m: int, b: int, x0: int, y0: int, d: nat)
    requires Abs(x0) * d <= m && Abs(y0) * d <= b
    ensures Abs(x0 - q * y0) * d <= m + q * b
  {
    AbsMul(q, y0);
    assert Abs(x0 - q * y0) <= Abs(x0) + q * Abs(y0);
    assert Abs(x0 - q * y0) * d <= (Abs(x0) + q * Abs(y0)) * d by {
      MulMonotone(Abs(x0 - q * y0), Abs(x0) + q * Abs(y0), d);
    }
    assert (Abs(x0) + q * Abs(y0)) * d == Abs(x0) * d + q * (Abs(y0) * d);
    assert q * (Abs(y0) * d) <= q * b by {
      MulMonotone(Abs(y0) * d, b, q);
    }
  }

  lemma MulMonotone(x: int, y: int, k: nat)
    requires x <= y
    ensures x * k <= y * k && k * x <= k * y
  {
    assert y * k - x * k == (y - x) * k;
  }

  /** `extended_euclid` with Python's floor remainder returns a negative `d`
      for some arguments of mixed sign, although `d` is meant to be
      `gcd(a, b)`: `extended_euclid(4, -6)` gives `d == -2`. */
  lemma AsWrittenNegativeGcd()
    ensures ExtendedEuclid(4, -6).2 == -2 && Gcd(4, -6) == 2
  {
    assert FloorMod(4, -6) == -2 && FloorDiv(4, -6) == -1;
    assert FloorMod(-6, -2) == 0 && FloorDiv(-6, -2) == 3;
    assert ExtendedEuclid(-2, 0) == (1, 0, -2);
    assert ExtendedEuclid(-6, -2) == (0, 1, -2);
    ExtendedEuclidIsGcd(4, -6);
  }

  /** Extended Euclid with `d` equal to `gcd(a, b)` for all arguments: the
      result of `extended_euclid`, negated when its `d` is negative. It
      agrees with `extended_euclid` on non-negative arguments. */
  function ExtendedGcd(a: int, b: int): (r: (int, int, int))
    ensures a * r.0 + b * r.1 == r.2
    ensures r.2 == Gcd(a, b)
    ensures a >= 0 && b >= 0 ==> r == ExtendedEuclid(a, b)
  {
    var e := ExtendedEuclid(a, b);
    ExtendedEuclidIsGcd(a, b);
    if e.2 < 0 then
      NegateBezout(a, b, e.0, e.1, e.2);
      (-e.0, -e.1, -e.2)
    else e
  }

  lemma NegateBezout(a: int, b: int, x: int, y: int, d: int)
    requires a * x + b * y == d
    ensures a * -x + b * -y == -d
  {
    assert a * -x == -(a * x) && b * -y == -(b * y);
  }
}
