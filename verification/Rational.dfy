/**
 Exact rational arithmetic as the simplex solver does it: numerator and denominator are combined
 after dividing out a common factor, and results are brought to lowest terms.
 */
module Rational {

  ghost predicate Divides(d: int, n: int) {
    exists k :: n == d * k
  }

  lemma DividesBy(d: int, n: int, k: int)
    requires n == d * k
    ensures Divides(d, n)
  {
  }

  lemma DividesSum(d: int, x: int, y: int, q: int)
    requires Divides(d, x) && Divides(d, y)
    ensures Divides(d, x + q * y)
  {
    var i :| x == d * i;
    var j :| y == d * j;
    assert x + q * y == d * (i + q * j) by {
      assert q * (d * j) == d * (q * j);
    }
    DividesBy(d, x + q * y, i + q * j);
  }

  /** The greatest common divisor of two naturals, by Euclid's algorithm. */
  function Euclid(x: nat, y: nat): (g: nat)
    decreases x
  {
    if x == 0 then y else Euclid(y % x, x)
  }

  /** The common divisors of `x` and `y` are exactly the divisors of their greatest common divisor. */
  lemma {:induction false} EuclidDivisors(x: nat, y: nat, d: int)
    ensures Divides(d, Euclid(x, y)) <==> Divides(d, x) && Divides(d, y)
    decreases x
  {
    if x == 0 {
      assert d * 0 == 0;
      DividesBy(d, 0, 0);
    } else {
      EuclidDivisors(y % x, x, d);
      EuclidStep(x, y, d);
    }
  }

  lemma EuclidStep(x: nat, y: nat, d: int)
    requires x > 0
    ensures Divides(d, y % x) && Divides(d, x) <==> Divides(d, x) && Divides(d, y)
  {
    var q, r := y / x, y % x;
    assert y == r + q * x;
    if Divides(d, r) && Divides(d, x) {
      DividesSum(d, r, x, q);
    }
    if Divides(d, y) && Divides(d, x) {
      DividesSum(d, y, x, -q);
      assert r == y + (-q) * x;
    }
  }

  /** Bezout's identity. */
  lemma {:induction false} Bezout(x: nat, y: nat) returns (s: int, t: int)
    ensures s * x + t * y == Euclid(x, y)
    decreases x
  {
    if x == 0 {
      s, t := 0, 1;
    } else {
      var u, w := Bezout(y % x, x);
      var q := y / x;
      s, t := w - u * q, u;
      assert y % x == y - q * x;
      assert u * (y - q * x) + w * x == (w - u * q) * x + u * y;
    }
  }

  function Abs(x: int): nat {
    if x < 0 then -x else x
  }

  /** What the solver's `gcd` returns, sign and zero cases included. */
  function GcdOf(x: int, y: int): int {
    if x == 1 || y == 1 then 1
    else if x == 0 then y
    else if y == 0 then x
    else Euclid(Abs(x), Abs(y))
  }

  lemma DividesAbs(d: int, x: int)
    ensures Divides(d, x) <==> Divides(d, Abs(x))
  {
    if Divides(d, x) {
      var k :| x == d * k;
      DividesBy(d, -x, -k);
    }
    if Divides(d, Abs(x)) {
      var k :| Abs(x) == d * k;
      var n: int := Abs(x);
      assert -n == d * -k;
      assert x == d * k || x == d * -k;
    }
  }

  /** `GcdOf` divides exactly by the common divisors, and is positive unless both are zero or one is negative. */
  lemma GcdDivisors(x: int, y: int, d: int)
    ensures Divides(d, GcdOf(x, y)) <==> Divides(d, x) && Divides(d, y)
    ensures y > 0 ==> GcdOf(x, y) > 0
  {
    if x == 1 || y == 1 {
      if Divides(d, 1) {
        var k :| 1 == d * k;
        assert x == d * (k * x) && y == d * (k * y) by {
          assert d * (k * x) == (d * k) * x && d * (k * y) == (d * k) * y;
        }
        DividesBy(d, x, k * x);
        DividesBy(d, y, k * y);
      }
    } else if x == 0 || y == 0 {
      DividesBy(d, 0, 0);
    } else {
      EuclidDivisors(Abs(x), Abs(y), d);
      DividesAbs(d, x);
      DividesAbs(d, y);
      EuclidPositive(Abs(x), Abs(y));
    }
  }

  lemma {:induction false} EuclidPositive(x: nat, y: nat)
    requires x > 0 || y > 0
    ensures Euclid(x, y) > 0
    decreases x
  {
    if x > 0 {
      EuclidPositive(y % x, x);
    }
  }

  /** The solver's loop: remainders by repeated subtraction when the quotient is small. */
  method Gcd(x0: int, y0: int) returns (g: int)
    ensures g == GcdOf(x0, y0)
  {
    if x0 == 1 || y0 == 1 {
      return 1;
    }
    if x0 == 0 {
      return y0;
    }
    if y0 == 0 {
      return x0;
    }
    var x: nat, y: nat := Abs(x0), Abs(y0);
    if y < x {
      EuclidSwaps(y, x);
      x, y := y, x;
    }
    while x != 0
      invariant Euclid(x, y) == Euclid(Abs(x0), Abs(y0))
      decreases x
    {
      var t := x;
      if y < 4 * x {
        var r: nat := y;
        while r >= x
          invariant r % x == y % x
        {
          SubtractKeepsRemainder(r, x);
          r := r - x;
        }
        RemainderOfSmall(r, x);
        x := r;
      } else {
        x := y % x;
      }
      y := t;
    }
    return y;
  }

  lemma EuclidSwaps(x: nat, y: nat)
    requires x < y
    ensures Euclid(x, y) == Euclid(y, x)
  {
    RemainderOfSmall(x, y);
  }

  lemma RemainderOfSmall(r: nat, x: nat)
    requires r < x
    ensures r % x == r
  {
  }

  lemma SubtractKeepsRemainder(r: nat, x: nat)
    requires r >= x > 0
    ensures (r - x) % x == r % x
  {
    var q, m := r / x, r % x;
    assert r - x == (q - 1) * x + m;
    RemainderUnique(r - x, x, q - 1, m);
  }

  lemma RemainderUnique(r: nat, x: nat, q: int, m: nat)
    requires m < x && r == q * x + m
    ensures r % x == m
  {
    var q', m' := r / x, r % x;
    assert r == q' * x + m';
    assert (q' - q) * x == q' * x - q * x == m - m';
    SmallMultiple(q' - q, x);
  }

  lemma ProductNonNegative(a: int, b: int)
    requires a >= 0 && b >= 0
    ensures a * b >= 0
  {
  }

  lemma ProductAtLeast(k: int, x: int)
    requires k >= 1 && x >= 0
    ensures k * x >= x
  {
    ProductNonNegative(k - 1, x);
    assert k * x == x + (k - 1) * x;
  }

  lemma ProductAtMost(k: int, x: int)
    requires k <= -1 && x >= 0
    ensures k * x <= -x
  {
    ProductNonNegative(-k - 1, x);
    assert k * x == -x - (-k - 1) * x;
  }

  lemma ProductNonPositive(a: int, b: int)
    requires a >= 0 && b <= 0
    ensures a * b <= 0
  {
    ProductNonNegative(a, -b);
    assert a * b == -(a * -b);
  }

  lemma SmallMultiple(k: int, x: int)
    requires -x < k * x < x
    ensures k == 0
  {
    if k > 0 {
      ProductAtLeast(k, x);
    } else if k < 0 {
      ProductAtMost(k, x);
    }
  }

  /** A fraction with positive denominator. */
  datatype Ratio = Ratio(n: int, d: int) {
    predicate Valid() {
      d > 0
    }

    function Val(): real
      requires Valid()
    {
      n as real / d as real
    }
  }

  /** No integer but 1 and -1 divides both parts. */
  ghost predicate Lowest(x: Ratio) {
    x.d > 0 && forall k :: Divides(k, x.n) && Divides(k, x.d) ==> k == 1 || k == -1
  }

  function Normalize(x: Ratio): Ratio
    requires x.Valid()
  {
    GcdPos(x.n, x.d);
    var g := GcdOf(x.n, x.d);
    Ratio(x.n / g, x.d / g)
  }

  lemma GcdPos(x: int, y: int)
    requires y > 0
    ensures GcdOf(x, y) > 0 && x % GcdOf(x, y) == 0 && y % GcdOf(x, y) == 0
  {
    var g := GcdOf(x, y);
    GcdDivisors(x, y, g);
    DividesBy(g, g, 1);
    var i :| x == g * i;
    var j :| y == g * j;
    RemainderZero(g, i);
    RemainderZero(g, j);
  }

  lemma RemainderZero(g: int, i: int)
    requires g > 0
    ensures (g * i) % g == 0 && (g * i) / g == i
  {
    var r, q := (g * i) % g, (g * i) / g;
    assert g * i == g * q + r;
    assert (i - q) * g == r;
    SmallMultiple(i - q, g);
  }

  function Add0(x: Ratio, y: Ratio): Ratio
    requires x.Valid() && y.Valid()
  {
    GcdPos(x.d, y.d);
    var g := GcdOf(x.d, y.d);
    Ratio(x.n * (y.d / g) + y.n * (x.d / g), (x.d / g) * y.d)
  }

  function Sub0(x: Ratio, y: Ratio): Ratio
    requires x.Valid() && y.Valid()
  {
    GcdPos(x.d, y.d);
    var g := GcdOf(x.d, y.d);
    Ratio(x.n * (y.d / g) - y.n * (x.d / g), (x.d / g) * y.d)
  }

  function Mul0(x: Ratio, y: Ratio): Ratio {
    Ratio(x.n * y.n, x.d * y.d)
  }

  function Div0(x: Ratio, y: Ratio): Ratio {
    var z := Ratio(x.n * y.d, x.d * y.n);
    if z.d < 0 then Ratio(-z.n, -z.d) else z
  }

  function Inv(x: Ratio): Ratio {
    if x.n < 0 then Ratio(-x.d, -x.n) else Ratio(x.d, x.n)
  }

  function Neg(x: Ratio): Ratio {
    Ratio(-x.n, x.d)
  }

  lemma {:induction false} RealProduct(a: nat, b: int)
    ensures (a * b) as real == a as real * b as real
  {
    if a > 0 {
      RealProduct(a - 1, b);
      assert a * b == (a - 1) * b + b;
      assert a as real * b as real == (a - 1) as real * b as real + b as real;
    }
  }

  lemma RealMul(a: int, b: int)
    ensures (a * b) as real == a as real * b as real
  {
    if a >= 0 {
      RealProduct(a, b);
    } else {
      RealProduct(-a, b);
      assert a * b == -((-a) * b);
      assert a as real * b as real == -((-a) as real * b as real);
    }
  }

  /** A value is determined by the numerator it gives over the denominator. */
  lemma ValIs(x: Ratio, r: real)
    requires x.Valid() && r * x.d as real == x.n as real
    ensures x.Val() == r
  {
  }

  lemma ValTimesDen(x: Ratio)
    requires x.Valid()
    ensures x.Val() * x.d as real == x.n as real
  {
  }

  lemma ProductPositive(a: int, b: int)
    requires a > 0 && b > 0
    ensures a * b > 0
  {
  }

  lemma QuotientPositive(a: int, g: int)
    requires a > 0 && g > 0 && a % g == 0
    ensures a / g > 0 && a == g * (a / g)
  {
  }

  /** Normalising keeps the value and reaches lowest terms. */
  lemma NormalizeKeeps(x: Ratio)
    requires x.Valid()
    ensures Normalize(x).Valid() && Normalize(x).Val() == x.Val() && Lowest(Normalize(x))
  {
    hide GcdOf, Ratio.Val;
    GcdPos(x.n, x.d);
    var g, z := GcdOf(x.n, x.d), Normalize(x);
    QuotientPositive(x.d, g);
    assert x.n == g * z.n && x.d == g * z.d;
    CommonFactor(x, z, g);
    forall k | Divides(k, z.n) && Divides(k, z.d) ensures k == 1 || k == -1 {
      var i :| z.n == k * i;
      var j :| z.d == k * j;
      NoLargerDivisor(x.n, x.d, k, i, j);
    }
  }

  lemma CommonFactor(x: Ratio, z: Ratio, g: int)
    requires x.Valid() && z.Valid() && x.n == g * z.n && x.d == g * z.d
    ensures z.Val() == x.Val()
  {
    hide Ratio.Val;
    ValTimesDen(z);
    RealMul(g, z.d);
    RealMul(g, z.n);
    assert z.Val() * x.d as real == g as real * (z.Val() * z.d as real);
    ValIs(x, z.Val());
  }

  /** What remains after dividing out the greatest common divisor has no common divisor. */
  lemma NoLargerDivisor(n: int, d: int, k: int, i: int, j: int)
    requires d > 0 && n == GcdOf(n, d) * (k * i) && d == GcdOf(n, d) * (k * j)
    ensures k == 1 || k == -1
  {
    hide GcdOf;
    var g := GcdOf(n, d);
    GcdPos(n, d);
    assert n == (g * k) * i && d == (g * k) * j;
    DividesBy(g * k, n, i);
    DividesBy(g * k, d, j);
    GcdDivisors(n, d, g * k);
    var m :| g == (g * k) * m;
    assert g * (k * m - 1) == 0;
    assert k * m == 1;
    UnitDivisor(k, m);
  }

  lemma NoUnitProduct(k: int, m: int)
    requires k >= 2
    ensures k * m != 1
  {
    if m >= 1 {
      ProductAtLeast(m, k);
      assert k * m == m * k;
    } else {
      ProductNonPositive(k, m);
    }
  }

  lemma UnitDivisor(k: int, m: int)
    requires k * m == 1
    ensures k == 1 || k == -1
  {
    if k >= 2 {
      NoUnitProduct(k, m);
    } else if k <= -2 {
      assert (-k) * (-m) == k * m;
      NoUnitProduct(-k, -m);
    }
  }

  lemma Add0Exact(x: Ratio, y: Ratio)
    requires x.Valid() && y.Valid()
    ensures Add0(x, y).Valid() && Add0(x, y).Val() == x.Val() + y.Val()
    ensures Sub0(x, y).Valid() && Sub0(x, y).Val() == x.Val() - y.Val()
  {
    hide GcdOf;
    GcdPos(x.d, y.d);
    var g := GcdOf(x.d, y.d);
    QuotientPositive(x.d, g);
    QuotientPositive(y.d, g);
    AddParts(x, y, g, x.d / g, y.d / g);
  }

  lemma AddParts(x: Ratio, y: Ratio, g: int, a: int, b: int)
    requires x.Valid() && y.Valid() && a > 0 && x.d == g * a && y.d == g * b
    ensures a * y.d > 0
    ensures Ratio(x.n * b + y.n * a, a * y.d).Val() == x.Val() + y.Val()
    ensures Ratio(x.n * b - y.n * a, a * y.d).Val() == x.Val() - y.Val()
  {
    hide Ratio.Val;
    ProductPositive(a, y.d);
    ValTimesDen(x);
    ValTimesDen(y);
    RealMul(a, y.d);
    RealMul(g, a);
    RealMul(g, b);
    RealMul(x.n, b);
    RealMul(y.n, a);
    Combined(x.Val(), y.Val(), x.n as real, y.n as real, a as real, b as real, g as real, x.d as real, y.d as real);
    ValIs(Ratio(x.n * b + y.n * a, a * y.d), x.Val() + y.Val());
    ValIs(Ratio(x.n * b - y.n * a, a * y.d), x.Val() - y.Val());
  }

  lemma Combined(v: real, w: real, m: real, n: real, a: real, b: real, g: real, c: real, d: real)
    requires v * c == m && w * d == n && c == g * a && d == g * b
    ensures (v + w) * (a * d) == m * b + n * a
    ensures (v - w) * (a * d) == m * b - n * a
  {
    assert v * (a * d) == m * b by {
      assert v * (a * (g * b)) == (v * (g * a)) * b;
    }
    assert w * (a * d) == n * a by {
      assert w * (a * d) == (w * d) * a;
    }
    assert (v + w) * (a * d) == v * (a * d) + w * (a * d);
    assert (v - w) * (a * d) == v * (a * d) - w * (a * d);
  }

  lemma Mul0Exact(x: Ratio, y: Ratio)
    requires x.Valid() && y.Valid()
    ensures Mul0(x, y).Valid() && Mul0(x, y).Val() == x.Val() * y.Val()
  {
    ProductPositive(x.d, y.d);
    ValTimesDen(x);
    ValTimesDen(y);
    RealMul(x.d, y.d);
    RealMul(x.n, y.n);
    assert (x.Val() * y.Val()) * (x.d as real * y.d as real) == (x.Val() * x.d as real) * (y.Val() * y.d as real);
    ValIs(Mul0(x, y), x.Val() * y.Val());
  }

  lemma NegExact(x: Ratio)
    requires x.Valid()
    ensures Neg(x).Valid() && Neg(x).Val() == -x.Val()
  {
    ValTimesDen(x);
    ValIs(Neg(x), -x.Val());
  }

  lemma InvExact(x: Ratio)
    requires x.Valid() && x.n != 0
    ensures Inv(x).Valid() && x.Val() * Inv(x).Val() == 1.0
  {
    ValTimesDen(x);
    ValTimesDen(Inv(x));
    assert Inv(x).Val() * x.n as real == x.d as real;
    InverseProduct(x.Val(), Inv(x).Val(), x.n as real, x.d as real);
  }

  lemma InverseProduct(v: real, w: real, n: real, d: real)
    requires n != 0.0 && v * d == n && w * n == d
    ensures v * w == 1.0
  {
    assert (v * w) * n == v * (w * n);
    assert (v * w - 1.0) * n == 0.0;
  }

  lemma Div0Exact(x: Ratio, y: Ratio)
    requires x.Valid() && y.Valid() && y.n != 0
    ensures Div0(x, y).Valid() && y.Val() != 0.0 && Div0(x, y).Val() == x.Val() / y.Val()
  {
    InvExact(y);
    Mul0Exact(x, Inv(y));
    assert Div0(x, y) == Mul0(x, Inv(y)) by {
      if y.n < 0 {
        ProductPositive(x.d, -y.n);
        assert x.d * y.n == -(x.d * -y.n);
        assert x.n * -y.d == -(x.n * y.d);
      } else {
        ProductPositive(x.d, y.n);
      }
    }
    assert x.Val() * Inv(y).Val() == x.Val() / y.Val();
  }

  /** The solver's operations, with the result normalised. */
  lemma OperationsExact(x: Ratio, y: Ratio)
    requires x.Valid() && y.Valid()
    ensures Add0(x, y).Valid() && Sub0(x, y).Valid() && Mul0(x, y).Valid() && (y.n != 0 ==> Div0(x, y).Valid())
    ensures Lowest(Normalize(Add0(x, y))) && Normalize(Add0(x, y)).Val() == x.Val() + y.Val()
    ensures Lowest(Normalize(Sub0(x, y))) && Normalize(Sub0(x, y)).Val() == x.Val() - y.Val()
    ensures Lowest(Normalize(Mul0(x, y))) && Normalize(Mul0(x, y)).Val() == x.Val() * y.Val()
    ensures y.n != 0 ==>
          y.Val() != 0.0 && Lowest(Normalize(Div0(x, y))) && Normalize(Div0(x, y)).Val() == x.Val() / y.Val()
    ensures Neg(x).Valid() && Neg(x).Val() == -x.Val()
  {
    NegExact(x);
    Add0Exact(x, y);
    Mul0Exact(x, y);
    NormalizeKeeps(Add0(x, y));
    NormalizeKeeps(Sub0(x, y));
    NormalizeKeeps(Mul0(x, y));
    if y.n != 0 {
      Div0Exact(x, y);
      NormalizeKeeps(Div0(x, y));
    }
  }

  /** In lowest terms a value has one representation, so comparing both parts compares values. */
  lemma LowestIsUnique(x: Ratio, y: Ratio)
    requires Lowest(x) && Lowest(y) && x.Val() == y.Val()
    ensures x == y
  {
    ValTimesDen(x);
    ValTimesDen(y);
    RealMul(x.n, y.d);
    RealMul(y.n, x.d);
    assert x.n as real * y.d as real == x.Val() * x.d as real * y.d as real == y.n as real * x.d as real;
    assert x.n * y.d == y.n * x.d;
    DenominatorDivides(x, y);
    DenominatorDivides(y, x);
    MutualDivisors(x.d, y.d);
    assert (x.n - y.n) * x.d == 0;
  }

  /** Being coprime to its numerator, the denominator of `x` divides that of an equal fraction. */
  lemma DenominatorDivides(x: Ratio, y: Ratio)
    requires Lowest(x) && y.d > 0 && x.n * y.d == y.n * x.d
    ensures Divides(x.d, y.d)
  {
    var s, t := Bezout(Abs(x.n), x.d);
    var g := Euclid(Abs(x.n), x.d);
    EuclidDivisors(Abs(x.n), x.d, g);
    DividesBy(g, g, 1);
    DividesAbs(g, x.n);
    EuclidPositive(Abs(x.n), x.d);
    assert g == 1;
    var u := if x.n < 0 then -s else s;
    assert s * Abs(x.n) == u * x.n;
    assert u * x.n + t * x.d == 1;
    assert y.d == x.d * (u * y.n + t * y.d) by {
      assert y.d * (u * x.n + t * x.d) == u * (x.n * y.d) + t * x.d * y.d;
      assert u * (y.n * x.d) + t * x.d * y.d == x.d * (u * y.n + t * y.d);
    }
    DividesBy(x.d, y.d, u * y.n + t * y.d);
  }

  lemma MutualDivisors(a: int, b: int)
    requires a > 0 && b > 0 && Divides(a, b) && Divides(b, a)
    ensures a == b
  {
    var i :| b == a * i;
    var j :| a == b * j;
    if i <= 0 {
      ProductNonPositive(a, i);
    } else if j <= 0 {
      ProductNonPositive(b, j);
    } else {
      ProductAtLeast(i, a);
      ProductAtLeast(j, b);
      assert a * i == i * a && b * j == j * b;
    }
  }
}
