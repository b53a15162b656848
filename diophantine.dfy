/** Linear Diophantine equations over the non-negative integers, as solved by
    `base_solution_linear` and `solve_linear_diop` in patternmatcher/utils.py. */
module Diophantine {
  import opened MathUtils
  import opened Sequences

  /** `(x, y)` is a non-negative solution of `a*x + b*y == c`. */
  predicate IsNonNegSolution(a: int, b: int, c: int, x: int, y: int) {
    x >= 0 && y >= 0 && a * x + b * y == c
  }

  /** Dividing the equation by a positive common factor keeps its solutions. */
  lemma NormalisedEquation(a: int, b: int, c: int, d: int, a': int, b': int, c': int, p: int, q: int)
    requires d > 0 && a == d * a' && b == d * b' && c == d * c'
    ensures a * p + b * q == c <==> a' * p + b' * q == c'
  {
    assert a * p + b * q == d * (a' * p + b' * q);
    if a * p + b * q == c {
      CancelLeft(d, a' * p + b' * q, c');
    }
  }

  /** After dividing `a`, `b`, `c` by `gcd(a, b, c)`, a common divisor of the three
      quotients is 1. */
  lemma NormalisedCoprime(a: int, b: int, c: int, d: int, a': int, b': int, c': int, g: int)
    requires a > 0 && d == Gcd(a, Gcd(b, c))
    requires a == d * a' && b == d * b' && c == d * c'
    requires g > 0 && Divides(g, a') && Divides(g, b') && Divides(g, c')
    ensures g == 1
  {
    GcdPositive(a, Gcd(b, c));
    ScaledDivides(d, g, a', a);
    ScaledDivides(d, g, b', b);
    ScaledDivides(d, g, c', c);
    GcdGreatest(b, c, d * g);
    GcdGreatest(a, Gcd(b, c), d * g);
    DividesBound(d * g, d);
    MulBound(d, g);
  }

  lemma ScaledDivides(d: int, g: int, m: int, n: int)
    requires Divides(g, m) && n == d * m
    ensures Divides(d * g, n)
  {
    var i :| m == g * i;
    assert n == (d * g) * i;
  }

  lemma MulBound(d: int, g: int)
    requires d > 0 && g > 0 && Abs(d * g) <= Abs(d)
    ensures g == 1
  {
  }

  /** Two solutions of a normalised equation differ by a multiple of `(b, -a)`. */
  lemma GeneralSolution(a: int, b: int, u: int, v: int, x: int, y: int, p: int, q: int)
    requires a > 0 && b > 0 && a * u + b * v == 1
    requires a * p + b * q == a * x + b * y
    ensures var t := u * (y - q) + v * (p - x); p - x == b * t && y - q == a * t
  {
    var t := u * (y - q) + v * (p - x);
    assert a * (p - x) == b * (y - q);
    calc {
      p - x;
      (p - x) * (a * u + b * v);
      a * (p - x) * u + b * v * (p - x);
      b * (y - q) * u + b * v * (p - x);
      b * t;
    }
    assert b * (a * t) == b * (y - q) by {
      calc {
        b * (a * t);
        a * (b * t);
        a * (p - x);
        b * (y - q);
      }
    }
    CancelLeft(b, a * t, y - q);
  }

  lemma CancelLeft(b: int, m: int, n: int)
    requires b > 0 && b * m == b * n
    ensures m == n
  {
  }

  /** A solution strictly within one step `b` of another is that solution. */
  lemma NeighbouringSolution(a: int, b: int, u: int, v: int, x: int, y: int, p: int, q: int)
    requires a > 0 && b > 0 && a * u + b * v == 1
    requires a * p + b * q == a * x + b * y
    requires x <= p < x + b
    ensures p == x && q == y
  {
    GeneralSolution(a, b, u, v, x, y, p, q);
    var t := u * (y - q) + v * (p - x);
    QuotientUnique(b, t, p - x);
  }

  /** Solutions beyond `(x, y)` in the direction of growing `x` have smaller `y`. */
  lemma LaterSolution(a: int, b: int, u: int, v: int, x: int, y: int, p: int, q: int)
    requires a > 0 && b > 0 && a * u + b * v == 1
    requires a * p + b * q == a * x + b * y
    requires p >= x
    ensures q <= y
    ensures p > x ==> q < y
  {
    GeneralSolution(a, b, u, v, x, y, p, q);
    var t := u * (y - q) + v * (p - x);
    SameSign(b, t, a);
  }

  lemma SameSign(b: int, t: int, a: int)
    requires a > 0 && b > 0 && b * t >= 0
    ensures a * t >= 0 && (b * t > 0 ==> a * t > 0)
  {
  }

  /** The coefficients of Bezout's identity for positive `a`, `b` never share a
      strict sign, so a multiple of them with positive `x` has non-positive `y`. */
  lemma BezoutSigns(a: int, b: int, u: int, v: int, c: int)
    requires a > 0 && b > 0 && a * u + b * v == 1
    requires c * u > 0
    ensures c * v <= 0
  {
  }

  /** Dividing `a*x + b*y == c` by `gcd(a, b, c)` (exact, so Python's `//`
      agrees with Dafny's `/`) keeps positive coefficients and the solutions. */
  lemma Normalise(a: int, b: int, c: int, d: int)
    requires a > 0 && b > 0 && d == Gcd(a, Gcd(b, c))
    ensures d > 0 && a == d * (a / d) && b == d * (b / d) && c == d * (c / d)
    ensures a / d > 0 && b / d > 0
    ensures forall p, q :: IsNonNegSolution(a, b, c, p, q) <==> IsNonNegSolution(a / d, b / d, c / d, p, q)
  {
    GcdOfThreeDivides(a, b, c, d);
    ExactQuotient(d, a);
    ExactQuotient(d, b);
    ExactQuotient(d, c);
    PositiveQuotient(d, a);
    PositiveQuotient(d, b);
    forall p, q ensures a * p + b * q == c <==> (a / d) * p + (b / d) * q == c / d {
      NormalisedEquation(a, b, c, d, a / d, b / d, c / d, p, q);
    }
  }

  lemma GcdOfThreeDivides(a: int, b: int, c: int, d: int)
    requires a > 0 && d == Gcd(a, Gcd(b, c))
    ensures d > 0 && Divides(d, a) && Divides(d, b) && Divides(d, c)
  {
    GcdPositive(a, Gcd(b, c));
    var gbc := Gcd(b, c);
    GcdDivides(a, gbc);
    GcdDivides(b, c);
    DividesTrans(d, gbc, b);
    DividesTrans(d, gbc, c);
  }

  lemma ExactQuotient(d: int, n: int)
    requires d > 0 && Divides(d, n)
    ensures n == d * (n / d)
  {
    DividesIffMod(d, n);
  }

  lemma PositiveQuotient(d: int, n: int)
    requires d > 0 && n > 0 && n == d * (n / d)
    ensures n / d > 0
  {
  }

  /** With positive coefficients, `(0, 0)` is the only solution of `a*x + b*y == 0`. */
  lemma ZeroRhs(a: int, b: int, x: int, y: int)
    requires a > 0 && b > 0 && IsNonNegSolution(a, b, 0, x, y)
    ensures x == 0 && y == 0
  {
  }

  /** `base_solution_linear(c, a, b)`: all non-negative solutions of
      `a*x + b*y == c`, and nothing else. Only positive coefficients are
      modelled: the walk from the base solution stops only when `a > 0` (the
      branch that waits for `y < 0`) or `b > 0` (the one that waits for
      `x < 0`). For other signs the source still returns at once when the
      normalised `c` is `0`, with `(0, 0)`, or is not a multiple of the gcd
      of `a` and `b`, with nothing. The base solution comes from
      `ExtendedGcd`, which is `extended_euclid` for these positive
      arguments. */
  method BaseSolutionLinear(c: int, a: int, b: int) returns (sols: seq<(int, int)>)
    requires a > 0 && b > 0
    ensures forall s :: s in sols ==> IsNonNegSolution(a, b, c, s.0, s.1)
    ensures forall x, y :: IsNonNegSolution(a, b, c, x, y) ==> (x, y) in sols
  {
    var d := Gcd(a, Gcd(b, c));
    Normalise(a, b, c, d);
    var a', b', c' := a / d, b / d, c / d;
    if c' == 0 {
      sols := [(0, 0)];
      forall x, y | IsNonNegSolution(a, b, c, x, y) ensures (x, y) in sols {
        ZeroRhs(a', b', x, y);
      }
      return;
    }
    var e := ExtendedGcd(a', b');
    var x0, y0, d' := e.0, e.1, e.2;
    GcdPositive(a', b');
    DividesIffMod(d', c');
    if c' % d' != 0 {
      // no solution: d' divides every a'*x + b'*y
      sols := [];
      forall x, y | IsNonNegSolution(a, b, c, x, y) ensures false {
        DividesLinear(d', a', b', x, y);
      }
      return;
    }
    NormalisedCoprime(a, b, c, d, a', b', c', d');
    sols := SolutionsOfCoprime(a', b', c', x0, y0);
  }

  /** The enumeration part of `base_solution_linear`, for a normalised equation
      with Bezout coefficients `a*x0 + b*y0 == 1`: walk the solutions
      `(c*x0 + k*b, c*y0 - k*a)` in the direction in which they become
      non-negative and collect every non-negative one. */
  method SolutionsOfCoprime(a: int, b: int, c: int, x0: int, y0: int) returns (sols: seq<(int, int)>)
    requires a > 0 && b > 0 && a * x0 + b * y0 == 1
    ensures forall s :: s in sols ==> IsNonNegSolution(a, b, c, s.0, s.1)
    ensures forall x, y :: IsNonNegSolution(a, b, c, x, y) ==> (x, y) in sols
  {
    var x, y := c * x0, c * y0;
    assert a * x + b * y == c by {
      assert a * x + b * y == c * (a * x0 + b * y0);
    }
    if x <= 0 {
      sols := WalkRight(a, b, c, x0, y0, x, y);
    } else {
      BezoutSigns(a, b, x0, y0, c);
      sols := WalkLeft(a, b, c, x0, y0, x, y);
    }
  }

  /** The branch of `base_solution_linear` for a starting `x <= 0`: step
      `(x + b, y - a)` while `y >= 0`, collecting the points with `x >= 0`. */
  method WalkRight(a: int, b: int, c: int, x0: int, y0: int, x1: int, y1: int) returns (sols: seq<(int, int)>)
    requires a > 0 && b > 0 && a * x0 + b * y0 == 1
    requires a * x1 + b * y1 == c && x1 <= 0
    ensures forall s :: s in sols ==> IsNonNegSolution(a, b, c, s.0, s.1)
    ensures forall p, q :: IsNonNegSolution(a, b, c, p, q) ==> (p, q) in sols
  {
    var x, y := x1, y1;
    sols := [];
    while y >= 0
      invariant a * x + b * y == c
      invariant forall s :: s in sols ==> IsNonNegSolution(a, b, c, s.0, s.1)
      invariant forall p, q :: IsNonNegSolution(a, b, c, p, q) && p < x ==> (p, q) in sols
      decreases y
    {
      if x >= 0 {
        sols := sols + [(x, y)];
      }
      PassRight(a, b, c, x0, y0, x, y, sols);
      LineShift(a, b, x, y, 1);
      x, y := x + b, y - a;
    }
    forall p, q | IsNonNegSolution(a, b, c, p, q) ensures p < x {
      if p >= x {
        LaterSolution(a, b, x0, y0, x, y, p, q);
      }
    }
  }

  /** The branch of `base_solution_linear` for a starting `x > 0`, where then
      `y <= 0`: step `(x - b, y + a)` while `x >= 0`, collecting the points
      with `y >= 0`. */
  method WalkLeft(a: int, b: int, c: int, x0: int, y0: int, x1: int, y1: int) returns (sols: seq<(int, int)>)
    requires a > 0 && b > 0 && a * x0 + b * y0 == 1
    requires a * x1 + b * y1 == c && y1 <= 0
    ensures forall s :: s in sols ==> IsNonNegSolution(a, b, c, s.0, s.1)
    ensures forall p, q :: IsNonNegSolution(a, b, c, p, q) ==> (p, q) in sols
  {
    var x, y := x1, y1;
    sols := [];
    NoneRight(a, b, c, x0, y0, x, y);
    while x >= 0
      invariant a * x + b * y == c
      invariant forall s :: s in sols ==> IsNonNegSolution(a, b, c, s.0, s.1)
      invariant forall p, q :: IsNonNegSolution(a, b, c, p, q) && p > x ==> (p, q) in sols
      decreases x
    {
      if y >= 0 {
        sols := sols + [(x, y)];
      }
      PassLeft(a, b, c, x0, y0, x, y, sols);
      LineShift(a, b, x, y, -1);
      x, y := x - b, y + a;
    }
  }

  /** Moving `k` steps of `(b, -a)` along the line keeps `a*x + b*y`. */
  lemma LineShift(a: int, b: int, x: int, y: int, k: int)
    ensures a * (x + k * b) + b * (y - k * a) == a * x + b * y
  {
  }

  /** One step of `WalkRight` leaves every solution with `p < x + b` collected. */
  lemma PassRight(a: int, b: int, c: int, x0: int, y0: int, x: int, y: int, sols: seq<(int, int)>)
    requires a > 0 && b > 0 && a * x0 + b * y0 == 1 && a * x + b * y == c
    requires forall p, q :: IsNonNegSolution(a, b, c, p, q) && p < x ==> (p, q) in sols
    requires x >= 0 && y >= 0 ==> (x, y) in sols
    ensures forall p, q :: IsNonNegSolution(a, b, c, p, q) && p < x + b ==> (p, q) in sols
  {
    forall p, q | IsNonNegSolution(a, b, c, p, q) && p < x + b ensures (p, q) in sols {
      if p >= x {
        NeighbouringSolution(a, b, x0, y0, x, y, p, q);
      }
    }
  }

  /** One step of `WalkLeft` leaves every solution with `p > x - b` collected. */
  lemma PassLeft(a: int, b: int, c: int, x0: int, y0: int, x: int, y: int, sols: seq<(int, int)>)
    requires a > 0 && b > 0 && a * x0 + b * y0 == 1 && a * x + b * y == c
    requires forall p, q :: IsNonNegSolution(a, b, c, p, q) && p > x ==> (p, q) in sols
    requires x >= 0 && y >= 0 ==> (x, y) in sols
    ensures forall p, q :: IsNonNegSolution(a, b, c, p, q) && p > x - b ==> (p, q) in sols
  {
    forall p, q | IsNonNegSolution(a, b, c, p, q) && p > x - b ensures (p, q) in sols {
      if p <= x {
        NeighbouringSolution(a, b, x0, y0, p, q, x, y);
      }
    }
  }

  /** With `y <= 0`, no non-negative solution lies right of `x`. */
  lemma NoneRight(a: int, b: int, c: int, x0: int, y0: int, x: int, y: int)
    requires a > 0 && b > 0 && a * x0 + b * y0 == 1 && a * x + b * y == c && y <= 0
    ensures forall p, q :: IsNonNegSolution(a, b, c, p, q) ==> p <= x
  {
    forall p, q | IsNonNegSolution(a, b, c, p, q) ensures p <= x {
      if p > x {
        LaterSolution(a, b, x0, y0, x, y, p, q);
      }
    }
  }

  /** `c[0]*x[0] + ... + c[n-1]*x[n-1]`. */
  function Dot(cs: seq<int>, xs: seq<int>): int
    requires |cs| == |xs|
  {
    if cs == [] then 0 else cs[0] * xs[0] + Dot(cs[1..], xs[1..])
  }

  predicate AllNonNeg(xs: seq<int>) {
    forall i :: 0 <= i < |xs| ==> xs[i] >= 0
  }

  predicate AllPositive(cs: seq<int>) {
    forall i :: 0 <= i < |cs| ==> cs[i] > 0
  }

  /** `xs` is a non-negative solution of `cs[0]*x[0] + ... == total`. */
  predicate IsDiopSolution(cs: seq<int>, total: int, xs: seq<int>) {
    |xs| == |cs| && AllNonNeg(xs) && Dot(cs, xs) == total
  }

  /** The gcd of `cs[0], ..., cs[n-1]`, folded from the left as the source does:
      `gcd(cs[0], cs[1])`, then `gcd(g, cs[k])` for every further `k`. */
  function GcdOfAll(cs: seq<int>): nat
    requires |cs| >= 2
  {
    if |cs| == 2 then Gcd(cs[0], cs[1]) else Gcd(GcdOfAll(cs[..|cs| - 1]), cs[|cs| - 1])
  }

  /** The fold is the greatest common divisor of all the numbers. */
  lemma {:induction false} GcdOfAllIsGcd(cs: seq<int>)
    requires |cs| >= 2
    ensures forall i :: 0 <= i < |cs| ==> Divides(GcdOfAll(cs), cs[i])
    ensures forall d :: (forall i :: 0 <= i < |cs| ==> Divides(d, cs[i])) ==> Divides(d, GcdOfAll(cs))
    ensures cs[0] != 0 ==> GcdOfAll(cs) > 0
  {
    var g := GcdOfAll(cs);
    if |cs| == 2 {
      GcdDivides(cs[0], cs[1]);
      forall d | forall i :: 0 <= i < |cs| ==> Divides(d, cs[i]) ensures Divides(d, g) {
        GcdGreatest(cs[0], cs[1], d);
      }
      if cs[0] != 0 { GcdPositive(cs[0], cs[1]); }
    } else {
      var init := cs[..|cs| - 1];
      var last := cs[|cs| - 1];
      GcdOfAllIsGcd(init);
      var h := GcdOfAll(init);
      GcdDivides(h, last);
      forall i | 0 <= i < |cs| ensures Divides(g, cs[i]) {
        if i < |cs| - 1 {
          assert cs[i] == init[i];
          DividesTrans(g, h, cs[i]);
        }
      }
      forall d | forall i :: 0 <= i < |cs| ==> Divides(d, cs[i]) ensures Divides(d, g) {
        assert forall i :: 0 <= i < |init| ==> Divides(d, init[i]) by {
          forall i | 0 <= i < |init| ensures Divides(d, init[i]) {
            assert init[i] == cs[i];
          }
        }
        assert Divides(d, last);
        GcdGreatest(h, last, d);
      }
      if cs[0] != 0 {
        assert init[0] == cs[0];
        GcdPositive(h, last);
      }
    }
  }

  /** The `remainder_gcd` loop of `solve_linear_diop`. */
  method RemainderGcd(cs: seq<int>) returns (g: int)
    requires |cs| >= 2
    ensures g == GcdOfAll(cs)
  {
    g := Gcd(cs[0], cs[1]);
    var k := 2;
    while k < |cs|
      invariant 2 <= k <= |cs|
      invariant g == GcdOfAll(cs[..k])
    {
      assert cs[..k + 1][..k] == cs[..k];
      g := Gcd(g, cs[k]);
      k := k + 1;
    }
    assert cs[..k] == cs;
  }

  /** A common divisor of the coefficients divides every combination of them. */
  lemma {:induction false} DividesDot(d: int, cs: seq<int>, xs: seq<int>)
    requires |cs| == |xs|
    requires forall i :: 0 <= i < |cs| ==> Divides(d, cs[i])
    ensures Divides(d, Dot(cs, xs))
  {
    if cs == [] {
      DividesRefl(d);
    } else {
      DividesDot(d, cs[1..], xs[1..]);
      assert Divides(d, cs[0]);
      DividesLinear(d, cs[0], Dot(cs[1..], xs[1..]), xs[0], 1);
    }
  }

  lemma {:induction false} DotNonNeg(cs: seq<int>, xs: seq<int>)
    requires |cs| == |xs| && AllPositive(cs) && AllNonNeg(xs)
    ensures Dot(cs, xs) >= 0
  {
    if cs != [] {
      DotNonNeg(cs[1..], xs[1..]);
      assert cs[0] > 0 && xs[0] >= 0;
      MulNonNeg(cs[0], xs[0]);
    }
  }

  lemma MulNonNeg(a: int, b: int)
    requires a >= 0 && b >= 0
    ensures a * b >= 0
  {
  }

  lemma CancelNonZero(b: int, m: int, n: int)
    requires b != 0 && b * m == b * n
    ensures m == n
  {
  }

  /** `solve_linear_diop` with a single coefficient: the integer quotient, if
      there is one (here the solution may be negative). */
  method SolveSingle(total: int, c: int) returns (sols: seq<seq<int>>)
    requires c != 0
    ensures forall xs :: xs in sols <==> |xs| == 1 && c * xs[0] == total
  {
    DividesIffFloorMod(c, total);
    if FloorMod(total, c) == 0 {
      var q := FloorDiv(total, c);
      sols := [[q]];
      forall xs: seq<int> | |xs| == 1 && c * xs[0] == total ensures xs in sols {
        CancelNonZero(c, xs[0], q);
        assert xs == [q];
      }
    } else {
      sols := [];
    }
  }

  /** `solve_linear_diop(total, *coeffs)` with the recursive step corrected:
      every non-negative solution, and nothing else. Having found
      `coeffs[0]*x + g*y == total` with `g` the gcd of the remaining
      coefficients, the remaining variables must make up `g*y`, so that is the
      total of the recursive call. As for `BaseSolutionLinear`, two or more
      coefficients are modelled only when all are positive; a single
      coefficient must not be `0`, which the source divides by. */
  method SolveLinearDiop(total: int, coeffs: seq<int>) returns (sols: seq<seq<int>>)
    requires |coeffs| == 1 ==> coeffs[0] != 0
    requires |coeffs| >= 2 ==> AllPositive(coeffs)
    ensures |coeffs| == 0 ==> sols == []
    ensures |coeffs| == 1 ==> forall xs :: xs in sols <==> |xs| == 1 && coeffs[0] * xs[0] == total
    ensures |coeffs| >= 2 ==> forall xs :: xs in sols ==> IsDiopSolution(coeffs, total, xs)
    ensures |coeffs| >= 2 ==> forall xs :: IsDiopSolution(coeffs, total, xs) ==> xs in sols
    decreases |coeffs|
  {
    if |coeffs| == 0 {
      return [];
    }
    if |coeffs| == 1 {
      sols := SolveSingle(total, coeffs[0]);
      return;
    }
    if |coeffs| == 2 {
      var pairs := BaseSolutionLinear(total, coeffs[0], coeffs[1]);
      sols := PairsAsVectors(pairs);
      forall xs | IsDiopSolution(coeffs, total, xs) ensures xs in sols {
        TwoDot(coeffs, xs);
        assert (xs[0], xs[1]) in pairs;
      }
      forall xs | xs in sols ensures IsDiopSolution(coeffs, total, xs) {
        TwoDot(coeffs, xs);
      }
      return;
    }
    var rest := coeffs[1..];
    var g := RemainderGcd(rest);
    GcdOfAllIsGcd(rest);
    var bases := BaseSolutionLinear(total, coeffs[0], g);
    sols := [];
    var i := 0;
    while i < |bases|
      invariant 0 <= i <= |bases|
      invariant forall xs :: xs in sols ==> IsDiopSolution(coeffs, total, xs)
      invariant forall xs :: IsSplitBy(coeffs, g, xs, bases[..i]) ==> xs in sols
    {
      var x, y := bases[i].0, bases[i].1;
      var tails := SolveLinearDiop(g * y, rest);
      ghost var before := sols;
      sols := sols + Prepend(x, tails);
      SplitStep(coeffs, total, g, bases[..i], x, y, tails, before, sols);
      assert bases[..i + 1] == bases[..i] + [(x, y)];
      i := i + 1;
    }
    forall xs | IsDiopSolution(coeffs, total, xs) ensures xs in sols {
      SplitExists(coeffs, total, g, xs, bases);
      assert bases[..i] == bases;
    }
  }

  /** The first variable of `xs` and the gcd-share of the rest form a pair of
      `pairs`. */
  ghost predicate IsSplitBy(coeffs: seq<int>, g: int, xs: seq<int>, pairs: seq<(int, int)>)
    requires |coeffs| >= 1 && g > 0
  {
    |xs| == |coeffs| && AllNonNeg(xs) &&
    exists p :: p in pairs && xs[0] == p.0 && Dot(coeffs[1..], xs[1..]) == g * p.1
  }

  /** Every solution of the whole equation splits into a solution of
      `coeffs[0]*x + g*y == total`. */
  lemma SplitExists(coeffs: seq<int>, total: int, g: int, xs: seq<int>, bases: seq<(int, int)>)
    requires |coeffs| >= 3 && AllPositive(coeffs) && g == GcdOfAll(coeffs[1..])
    requires forall p, q :: IsNonNegSolution(coeffs[0], g, total, p, q) ==> (p, q) in bases
    requires IsDiopSolution(coeffs, total, xs)
    ensures g > 0 && IsSplitBy(coeffs, g, xs, bases)
  {
    var rest := coeffs[1..];
    GcdOfAllIsGcd(rest);
    assert rest[0] == coeffs[1];
    var r := Dot(rest, xs[1..]);
    DividesDot(g, rest, xs[1..]);
    DividesIffMod(g, r);
    assert AllPositive(rest) && AllNonNeg(xs[1..]) by {
      forall k | 0 <= k < |rest| ensures rest[k] > 0 && xs[1..][k] >= 0 {
        assert rest[k] == coeffs[k + 1] && xs[1..][k] == xs[k + 1];
      }
    }
    DotNonNeg(rest, xs[1..]);
    var y := r / g;
    assert r == g * y;
    PositiveQuotientOrZero(g, r);
    assert IsNonNegSolution(coeffs[0], g, total, xs[0], y);
    assert (xs[0], y) in bases;
  }

  lemma PositiveQuotientOrZero(d: int, n: int)
    requires d > 0 && n >= 0 && n == d * (n / d)
    ensures n / d >= 0
  {
  }

  /** One round of the outer loop: the vectors added for the pair `(x, y)` are
      solutions, and they are all the solutions that split by `(x, y)`. */
  lemma SplitStep(coeffs: seq<int>, total: int, g: int, done: seq<(int, int)>, x: int, y: int,
                  tails: seq<seq<int>>, before: seq<seq<int>>, after: seq<seq<int>>)
    requires |coeffs| >= 3 && g > 0
    requires IsNonNegSolution(coeffs[0], g, total, x, y)
    requires forall t :: t in tails ==> IsDiopSolution(coeffs[1..], g * y, t)
    requires forall t :: IsDiopSolution(coeffs[1..], g * y, t) ==> t in tails
    requires forall xs :: xs in before ==> IsDiopSolution(coeffs, total, xs)
    requires forall xs :: IsSplitBy(coeffs, g, xs, done) ==> xs in before
    requires after == before + Prepend(x, tails)
    ensures forall xs :: xs in after ==> IsDiopSolution(coeffs, total, xs)
    ensures forall xs :: IsSplitBy(coeffs, g, xs, done + [(x, y)]) ==> xs in after
  {
    var added := Prepend(x, tails);
    forall xs | xs in added ensures IsDiopSolution(coeffs, total, xs) {
      var k :| 0 <= k < |added| && added[k] == xs;
      var t := tails[k];
      assert xs == [x] + t && xs[1..] == t;
      assert t in tails;
      assert AllNonNeg(xs) by {
        forall m | 0 <= m < |xs| ensures xs[m] >= 0 {
          if m > 0 { assert xs[m] == t[m - 1]; }
        }
      }
    }
    forall xs | IsSplitBy(coeffs, g, xs, done + [(x, y)]) ensures xs in after {
      var p :| p in done + [(x, y)] && xs[0] == p.0 && Dot(coeffs[1..], xs[1..]) == g * p.1;
      if p in done {
        assert IsSplitBy(coeffs, g, xs, done);
      } else {
        assert p == (x, y);
        var t := xs[1..];
        CancelLeft(g, p.1, y);
        assert AllNonNeg(t) by {
          forall m | 0 <= m < |t| ensures t[m] >= 0 { assert t[m] == xs[m + 1]; }
        }
        assert IsDiopSolution(coeffs[1..], g * y, t);
        var k :| 0 <= k < |tails| && tails[k] == t;
        assert added[k] == xs;
      }
    }
  }

  lemma TwoDot(cs: seq<int>, xs: seq<int>)
    requires |cs| == 2 && |xs| == 2
    ensures Dot(cs, xs) == cs[0] * xs[0] + cs[1] * xs[1]
  {
    assert Dot(cs[1..][1..], xs[1..][1..]) == 0;
  }

  /** The pairs of `base_solution_linear` as the two-element tuples that
      `solve_linear_diop` yields. */
  function PairsAsVectors(pairs: seq<(int, int)>): (vs: seq<seq<int>>)
    ensures forall xs :: xs in vs <==> |xs| == 2 && (xs[0], xs[1]) in pairs
  {
    if pairs == [] then []
    else
      var vs := [[pairs[0].0, pairs[0].1]] + PairsAsVectors(pairs[1..]);
      assert forall xs :: |xs| == 2 && (xs[0], xs[1]) in pairs ==> xs in vs by {
        forall xs | |xs| == 2 && (xs[0], xs[1]) in pairs ensures xs in vs {
          if (xs[0], xs[1]) == pairs[0] { assert xs == [pairs[0].0, pairs[0].1]; }
        }
      }
      vs
  }

  /** What the source's recursion actually solves: after `coeffs[0]*x + g*y ==
      total` it asks the remaining variables to make up `y` instead of `g*y`,
      so a vector is produced exactly when this value equals the total. */
  function AsWrittenValue(cs: seq<int>, xs: seq<int>): int
    requires |cs| >= 2 && |xs| == |cs|
  {
    if |cs| == 2 then Dot(cs, xs)
    else cs[0] * xs[0] + GcdOfAll(cs[1..]) * AsWrittenValue(cs[1..], xs[1..])
  }

  predicate IsAsWrittenSolution(cs: seq<int>, total: int, xs: seq<int>)
    requires |cs| >= 2
  {
    |xs| == |cs| && AllNonNeg(xs) && AsWrittenValue(cs, xs) == total
  }

  lemma {:induction false} AsWrittenValueNonNeg(cs: seq<int>, xs: seq<int>)
    requires |cs| >= 2 && |xs| == |cs| && AllPositive(cs) && AllNonNeg(xs)
    ensures AsWrittenValue(cs, xs) >= 0
  {
    if |cs| == 2 {
      DotNonNeg(cs, xs);
    } else {
      assert AllPositive(cs[1..]) && AllNonNeg(xs[1..]) by {
        forall k | 0 <= k < |cs| - 1 ensures cs[1..][k] > 0 && xs[1..][k] >= 0 {
          assert cs[1..][k] == cs[k + 1] && xs[1..][k] == xs[k + 1];
        }
      }
      AsWrittenValueNonNeg(cs[1..], xs[1..]);
      MulNonNeg(cs[0], xs[0]);
      MulNonNeg(GcdOfAll(cs[1..]), AsWrittenValue(cs[1..], xs[1..]));
    }
  }

  /** `solve_linear_diop` exactly as written: with three or more coefficients it
      produces precisely the non-negative vectors whose `AsWrittenValue` is the
      total, which are not the solutions of the equation (see
      `AsWrittenAcceptsNonSolution`). */
  method SolveLinearDiopAsWritten(total: int, coeffs: seq<int>) returns (sols: seq<seq<int>>)
    requires |coeffs| == 1 ==> coeffs[0] != 0
    requires |coeffs| >= 2 ==> AllPositive(coeffs)
    ensures |coeffs| == 0 ==> sols == []
    ensures |coeffs| == 1 ==> forall xs :: xs in sols <==> |xs| == 1 && coeffs[0] * xs[0] == total
    ensures |coeffs| >= 2 ==> forall xs :: xs in sols ==> IsAsWrittenSolution(coeffs, total, xs)
    ensures |coeffs| >= 2 ==> forall xs :: IsAsWrittenSolution(coeffs, total, xs) ==> xs in sols
    decreases |coeffs|
  {
    if |coeffs| == 0 {
      return [];
    }
    if |coeffs| == 1 {
      sols := SolveSingle(total, coeffs[0]);
      return;
    }
    if |coeffs| == 2 {
      var pairs := BaseSolutionLinear(total, coeffs[0], coeffs[1]);
      sols := PairsAsVectors(pairs);
      forall xs | IsAsWrittenSolution(coeffs, total, xs) ensures xs in sols {
        TwoDot(coeffs, xs);
        assert (xs[0], xs[1]) in pairs;
      }
      forall xs | xs in sols ensures IsAsWrittenSolution(coeffs, total, xs) {
        TwoDot(coeffs, xs);
      }
      return;
    }
    var rest := coeffs[1..];
    var g := RemainderGcd(rest);
    GcdOfAllIsGcd(rest);
    var bases := BaseSolutionLinear(total, coeffs[0], g);
    sols := [];
    var i := 0;
    while i < |bases|
      invariant 0 <= i <= |bases|
      invariant forall xs :: xs in sols ==> IsAsWrittenSolution(coeffs, total, xs)
      invariant forall xs :: IsAsWrittenSplitBy(coeffs, xs, bases[..i]) ==> xs in sols
    {
      var x, y := bases[i].0, bases[i].1;
      // the recursive call solves for `y`, where `g * y` was meant
      var tails := SolveLinearDiopAsWritten(y, rest);
      ghost var before := sols;
      sols := sols + Prepend(x, tails);
      AsWrittenSplitStep(coeffs, total, bases[..i], x, y, tails, before, sols);
      assert bases[..i + 1] == bases[..i] + [(x, y)];
      i := i + 1;
    }
    forall xs | IsAsWrittenSolution(coeffs, total, xs) ensures xs in sols {
      AsWrittenSplitExists(coeffs, total, xs, bases);
      assert bases[..i] == bases;
    }
  }

  ghost predicate IsAsWrittenSplitBy(coeffs: seq<int>, xs: seq<int>, pairs: seq<(int, int)>)
    requires |coeffs| >= 3
  {
    |xs| == |coeffs| && AllNonNeg(xs) &&
    exists p :: p in pairs && xs[0] == p.0 && AsWrittenValue(coeffs[1..], xs[1..]) == p.1
  }

  lemma AsWrittenSplitExists(coeffs: seq<int>, total: int, xs: seq<int>, bases: seq<(int, int)>)
    requires |coeffs| >= 3 && AllPositive(coeffs)
    requires forall p, q :: IsNonNegSolution(coeffs[0], GcdOfAll(coeffs[1..]), total, p, q) ==> (p, q) in bases
    requires IsAsWrittenSolution(coeffs, total, xs)
    ensures IsAsWrittenSplitBy(coeffs, xs, bases)
  {
    var rest := coeffs[1..];
    assert AllPositive(rest) && AllNonNeg(xs[1..]) by {
      forall k | 0 <= k < |rest| ensures rest[k] > 0 && xs[1..][k] >= 0 {
        assert rest[k] == coeffs[k + 1] && xs[1..][k] == xs[k + 1];
      }
    }
    AsWrittenValueNonNeg(rest, xs[1..]);
    var y := AsWrittenValue(rest, xs[1..]);
    assert IsNonNegSolution(coeffs[0], GcdOfAll(rest), total, xs[0], y);
    assert (xs[0], y) in bases;
  }

  lemma AsWrittenSplitStep(coeffs: seq<int>, total: int, done: seq<(int, int)>, x: int, y: int,
                           tails: seq<seq<int>>, before: seq<seq<int>>, after: seq<seq<int>>)
    requires |coeffs| >= 3
    requires IsNonNegSolution(coeffs[0], GcdOfAll(coeffs[1..]), total, x, y)
    requires forall t :: t in tails ==> IsAsWrittenSolution(coeffs[1..], y, t)
    requires forall t :: IsAsWrittenSolution(coeffs[1..], y, t) ==> t in tails
    requires forall xs :: xs in before ==> IsAsWrittenSolution(coeffs, total, xs)
    requires forall xs :: IsAsWrittenSplitBy(coeffs, xs, done) ==> xs in before
    requires after == before + Prepend(x, tails)
    ensures forall xs :: xs in after ==> IsAsWrittenSolution(coeffs, total, xs)
    ensures forall xs :: IsAsWrittenSplitBy(coeffs, xs, done + [(x, y)]) ==> xs in after
  {
    var added := Prepend(x, tails);
    forall xs | xs in added ensures IsAsWrittenSolution(coeffs, total, xs) {
      var k :| 0 <= k < |added| && added[k] == xs;
      var t := tails[k];
      assert xs == [x] + t && xs[1..] == t;
      assert t in tails;
      assert AllNonNeg(xs) by {
        forall m | 0 <= m < |xs| ensures xs[m] >= 0 {
          if m > 0 { assert xs[m] == t[m - 1]; }
        }
      }
    }
    forall xs | IsAsWrittenSplitBy(coeffs, xs, done + [(x, y)]) ensures xs in after {
      var p :| p in done + [(x, y)] && xs[0] == p.0 && AsWrittenValue(coeffs[1..], xs[1..]) == p.1;
      if p in done {
        assert IsAsWrittenSplitBy(coeffs, xs, done);
      } else {
        var t := xs[1..];
        assert AllNonNeg(t) by {
          forall m | 0 <= m < |t| ensures t[m] >= 0 { assert t[m] == xs[m + 1]; }
        }
        assert IsAsWrittenSolution(coeffs[1..], y, t);
        var k :| 0 <= k < |tails| && tails[k] == t;
        assert added[k] == xs;
      }
    }
  }

  /** For `total == 5` and coefficients `(1, 2, 2)` the source produces
      `(1, 1, 0)`, whose value `1*1 + 2*1 + 2*0` is 3: the base equation
      `x + 2*y == 5` has the solution `(1, 2)`, and `2*x2 + 2*x3 == 2` (that is,
      `y` rather than `2*y`) has the solution `(1, 0)`. */
  lemma AsWrittenAcceptsNonSolution()
    ensures IsAsWrittenSolution([1, 2, 2], 5, [1, 1, 0])
    ensures !IsDiopSolution([1, 2, 2], 5, [1, 1, 0])
  {
    assert Gcd(2, 2) == 2 by { assert Gcd(2, 0) == 2; }
    assert [1, 2, 2][1..] == [2, 2] && [1, 1, 0][1..] == [1, 0];
    assert GcdOfAll([2, 2]) == 2;
    TwoDot([2, 2], [1, 0]);
    assert AsWrittenValue([2, 2], [1, 0]) == 2;
    assert Dot([1, 2, 2], [1, 1, 0]) == 1 + Dot([2, 2], [1, 0]);
  }
}
