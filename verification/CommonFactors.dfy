/** `gcf`, `lcm` and `reduce_fraction` of rad_util.py on integers of any sign. */
module CommonFactors {

  // ---- Python's integer division and modulo round towards minus infinity ----

  function FloorDiv(a: int, b: int): int
    requires b != 0
  {
    if b > 0 then a / b else (-a) / (-b)
  }

  function FloorMod(a: int, b: int): int
    requires b != 0
  {
    a - b * FloorDiv(a, b)
  }

  /** The remainder takes the divisor's sign and is smaller. */
  lemma FloorModRange(a: int, b: int)
    requires b != 0
    ensures if b > 0 then 0 <= FloorMod(a, b) < b else b < FloorMod(a, b) <= 0
  {
    if b > 0 {
      assert a == b * (a / b) + a % b;
    } else {
      var c := -b;
      assert -a == c * ((-a) / c) + (-a) % c;
      assert b * ((-a) / c) == -(c * ((-a) / c));
    }
  }

  function Abs(x: int): nat {
    if x < 0 then -x else x
  }

  // ---- divisibility ----

  ghost predicate IsProduct(a: int, d: int, k: int) {
    a == d * k
  }

  ghost predicate Divides(d: int, a: int) {
    exists k :: IsProduct(a, d, k)
  }

  /** The greatest common divisor in the order of divisibility; 0 for two zeros. */
  ghost predicate IsGcd(g: int, a: int, b: int) {
    && g >= 0 && Divides(g, a) && Divides(g, b)
    && forall d :: Divides(d, a) && Divides(d, b) ==> Divides(d, g)
  }

  ghost predicate IsLcm(l: int, a: int, b: int) {
    && Divides(a, l) && Divides(b, l)
    && forall m :: Divides(a, m) && Divides(b, m) ==> Divides(l, m)
  }

  ghost predicate IsCombination(r: int, a: int, b: int, x: int, y: int) {
    r == a * x + b * y
  }

  lemma Witness(d: int, k: int)
    ensures Divides(d, d * k)
  {
    assert IsProduct(d * k, d, k);
  }

  lemma DividesNeg(d: int, a: int)
    requires Divides(d, a)
    ensures Divides(d, -a)
  {
    var k :| IsProduct(a, d, k);
    assert d * (-k) == -(d * k);
    assert IsProduct(-a, d, -k);
  }

  lemma DividesCombination(d: int, a: int, b: int, x: int, y: int)
    requires Divides(d, a) && Divides(d, b)
    ensures Divides(d, a * x + b * y)
  {
    var j :| IsProduct(a, d, j);
    var k :| IsProduct(b, d, k);
    var jx, ky := j * x, k * y;
    assert a * x == d * jx by { assert (d * j) * x == d * (j * x); }
    assert b * y == d * ky by { assert (d * k) * y == d * (k * y); }
    assert d * jx + d * ky == d * (jx + ky);
    assert IsProduct(a * x + b * y, d, jx + ky);
  }

  lemma DividesAtMost(d: int, a: int)
    requires Divides(d, a) && a != 0
    ensures Abs(d) <= Abs(a)
  {
    var k :| IsProduct(a, d, k);
    assert k != 0 && d != 0;
    AbsProduct(d, k);
  }

  lemma AbsProduct(d: int, k: int)
    requires k != 0
    ensures Abs(d) <= Abs(d * k)
  {
    var p, q := Abs(d), Abs(k);
    assert p * q == Abs(d * k) by {
      if d < 0 && k < 0 { assert (-d) * (-k) == d * k; }
      else if d < 0 { assert (-d) * k == -(d * k); }
      else if k < 0 { assert d * (-k) == -(d * k); }
    }
    assert p * q >= p by { TimesAtLeast(p, q); }
    if d * k < 0 || d * k >= 0 {}
  }

  lemma TimesAtLeast(p: nat, q: nat)
    requires q >= 1
    ensures p * q >= p
  {
  }

  lemma DividedByZero(a: int)
    ensures Divides(0, a) ==> a == 0
  {
  }

  lemma GcdUnique(g: int, h: int, a: int, b: int)
    requires IsGcd(g, a, b) && IsGcd(h, a, b)
    ensures g == h
  {
    assert Divides(g, h) && Divides(h, g);
    if g != 0 { DividesAtMost(h, g); }
    if h != 0 { DividesAtMost(g, h); }
    DividedByZero(g);
    DividedByZero(h);
  }

  /** The greatest common divisor depends on neither the order nor the signs of its arguments. */
  lemma GcdIgnoresOrderAndSigns(g: int, h: int, a: int, b: int)
    requires IsGcd(g, a, b) && IsGcd(h, Abs(b), Abs(a))
    ensures g == h
  {
    forall d, x | true ensures Divides(d, x) <==> Divides(d, Abs(x)) {
      DividesAbs(d, x);
    }
    GcdUnique(g, h, a, b);
  }

  lemma DividesAbs(d: int, x: int)
    ensures Divides(d, x) <==> Divides(d, Abs(x))
  {
    if Divides(d, x) {
      DividesNeg(d, x);
    }
    if Divides(d, -x) {
      DividesNeg(d, -x);
    }
  }

  /** Among nonzero common divisors, the greatest in the usual order as well. */
  lemma GcdGreatest(g: int, a: int, b: int, d: int)
    requires IsGcd(g, a, b) && (a != 0 || b != 0) && Divides(d, a) && Divides(d, b)
    ensures d <= g
  {
    DividedByZero(a);
    DividedByZero(b);
    if g != 0 {
      DividesAtMost(d, g);
    }
  }

  // ---- Euclid's algorithm ----

  ghost predicate SameDivisors(a: int, b: int, c: int, d: int) {
    forall e :: Divides(e, a) && Divides(e, b) <==> Divides(e, c) && Divides(e, d)
  }

  lemma EuclidStep(r: int, s: int)
    requires s != 0
    ensures SameDivisors(r, s, s, FloorMod(r, s))
  {
    var q := FloorDiv(r, s);
    forall e ensures Divides(e, r) && Divides(e, s) <==> Divides(e, s) && Divides(e, FloorMod(r, s)) {
      if Divides(e, r) && Divides(e, s) {
        DividesCombination(e, r, s, 1, -q);
        assert r * 1 + s * (-q) == FloorMod(r, s);
      }
      if Divides(e, s) && Divides(e, FloorMod(r, s)) {
        DividesCombination(e, s, FloorMod(r, s), q, 1);
        assert s * q + FloorMod(r, s) * 1 == r;
      }
    }
  }

  lemma CombineStep(r: int, s: int, q: int, a: int, b: int, x: int, y: int, u: int, v: int)
    requires IsCombination(r, a, b, x, y) && IsCombination(s, a, b, u, v)
    ensures IsCombination(r - s * q, a, b, x - u * q, y - v * q)
  {
    assert s * q == a * (u * q) + b * (v * q) by {
      assert (a * u + b * v) * q == (a * u) * q + (b * v) * q;
      assert (a * u) * q == a * (u * q);
      assert (b * v) * q == b * (v * q);
    }
    assert a * (x - u * q) == a * x - a * (u * q);
    assert b * (y - v * q) == b * y - b * (v * q);
  }

  /** The greatest common divisor of any two integers, also as a combination of them. */
  method Gcf(a: int, b: int) returns (g: int)
    ensures IsGcd(g, a, b)
    ensures exists x, y :: IsCombination(g, a, b, x, y)
    ensures g == 0 <==> a == 0 && b == 0
  {
    hide *;
    var result := if a > b then a else b;
    var remainder := if a > b then b else a;
    ghost var x, y, u, v := 1, 0, 0, 1;
    if a <= b {
      x, y, u, v := 0, 1, 1, 0;
    }
    EuclidStart(a, b);
    while remainder != 0
      invariant SameDivisors(a, b, result, remainder)
      invariant IsCombination(result, a, b, x, y) && IsCombination(remainder, a, b, u, v)
      invariant result == 0 && remainder == 0 ==> a == 0 && b == 0
      invariant a == 0 && b == 0 ==> result == 0
      decreases Abs(remainder)
    {
      var newRemainder := FloorMod(result, remainder);
      FloorModRange(result, remainder);
      AbsShrinks(remainder, newRemainder);
      EuclidStep(result, remainder);
      SameDivisorsTransitive(a, b, result, remainder, remainder, newRemainder);
      ghost var q := FloorDiv(result, remainder);
      FloorModIs(result, remainder);
      CombineStep(result, remainder, q, a, b, x, y, u, v);
      if a == 0 && b == 0 {
        CombinationOfZeros(remainder, u, v);
      }
      x, y, u, v := u, v, x - u * q, y - v * q;
      result := remainder;
      remainder := newRemainder;
    }
    g := Abs(result);
    CombinationOfAbs(result, a, b, x, y);
    GcdOfLast(a, b, result);
  }

  lemma EuclidStart(a: int, b: int)
    ensures SameDivisors(a, b, a, b) && SameDivisors(a, b, b, a)
    ensures IsCombination(a, a, b, 1, 0) && IsCombination(b, a, b, 0, 1)
  {
  }

  lemma AbsShrinks(r: int, s: int)
    requires r != 0 && if r > 0 then 0 <= s < r else r < s <= 0
    ensures Abs(s) < Abs(r)
  {
  }

  lemma FloorModIs(r: int, s: int)
    requires s != 0
    ensures FloorMod(r, s) == r - s * FloorDiv(r, s)
  {
  }

  lemma SameDivisorsTransitive(a: int, b: int, c: int, d: int, e: int, f: int)
    requires SameDivisors(a, b, c, d) && SameDivisors(c, d, e, f)
    ensures SameDivisors(a, b, e, f)
  {
  }

  lemma CombinationOfZeros(r: int, u: int, v: int)
    ensures IsCombination(r, 0, 0, u, v) ==> r == 0
  {
  }

  lemma CombinationOfAbs(r: int, a: int, b: int, x: int, y: int)
    requires IsCombination(r, a, b, x, y)
    ensures IsCombination(Abs(r), a, b, if r < 0 then -x else x, if r < 0 then -y else y)
    ensures Abs(r) == 0 <==> r == 0
  {
    assert a * (-x) + b * (-y) == -(a * x + b * y);
  }

  lemma GcdOfLast(a: int, b: int, r: int)
    requires SameDivisors(a, b, r, 0)
    ensures IsGcd(Abs(r), a, b)
  {
    Witness(Abs(r), 0);
    Witness(Abs(r), if r < 0 then -1 else 1);
    forall d | Divides(d, a) && Divides(d, b) ensures Divides(d, Abs(r)) {
      DividesNeg(d, r);
    }
    assert Abs(r) * (if r < 0 then -1 else 1) == r;
    assert Divides(Abs(r), r) && Divides(Abs(r), 0);
  }

  lemma ExactDivision(b: int, g: int)
    requires g != 0 && Divides(g, b)
    ensures g * FloorDiv(b, g) == b
  {
    var k :| IsProduct(b, g, k);
    FloorModRange(b, g);
    var m := k - FloorDiv(b, g);
    assert g * m == FloorMod(b, g);
    if m != 0 { AbsProduct(g, m); }
  }

  /** A multiple of `a` and of `b` is a multiple of `a * b1` when `b == g * b1` and `g` combines `a` and `b`. */
  lemma LeastMultiple(a: int, b: int, g: int, b1: int, m: int, x: int, y: int)
    requires g != 0 && b == g * b1 && IsCombination(g, a, b, x, y) && Divides(a, m) && Divides(b, m)
    ensures Divides(a * b1, m)
  {
    hide IsProduct, IsCombination;
    var k :| IsProduct(m, a, k);
    var l :| IsProduct(m, b, l);
    CombinedMultiple(g, a, b, m, x, y, k, l);
    ReduceBy(g, a, b, b1, m, x * l + y * k);
  }

  lemma CombinedMultiple(g: int, a: int, b: int, m: int, x: int, y: int, k: int, l: int)
    requires IsProduct(m, a, k) && IsProduct(m, b, l) && IsCombination(g, a, b, x, y)
    ensures IsProduct(g * m, a * b, x * l + y * k)
  {
    SwapFactors(a, x, b, l);
    SwapFactors(b, y, a, k);
    assert (a * x + b * y) * m == (a * x) * m + (b * y) * m;
    assert (a * b) * (x * l + y * k) == (a * b) * (x * l) + (a * b) * (y * k);
  }

  lemma ReduceBy(g: int, a: int, b: int, b1: int, m: int, t: int)
    requires g != 0 && b == g * b1 && IsProduct(g * m, a * b, t)
    ensures IsProduct(m, a * b1, t)
  {
    var l0 := a * b1;
    assert a * (g * b1) == g * l0;
    assert (g * l0) * t == g * (l0 * t);
    Cancel(g, m, l0 * t);
  }

  lemma SwapFactors(a: int, x: int, b: int, l: int)
    ensures (a * x) * (b * l) == (a * b) * (x * l)
  {
    assert (a * x) * (b * l) == a * (x * (b * l));
    assert x * (b * l) == b * (x * l);
  }

  lemma Cancel(g: int, m: int, n: int)
    requires g != 0 && g * m == g * n
    ensures m == n
  {
    assert g * (m - n) == 0;
  }

  /** The least common multiple up to sign; with `gcf` it multiplies to `a * b`. */
  method Lcm(a: int, b: int) returns (l: int, ghost g: int)
    ensures IsGcd(g, a, b) && g * l == a * b
    ensures IsLcm(l, a, b)
  {
    var denom := Gcf(a, b);
    g := denom;
    if denom == 0 {
      l := 0;
      Witness(0, 0);
      assert forall m :: Divides(0, m) ==> Divides(0, m);
    } else {
      var b1 := FloorDiv(b, denom);
      l := a * b1;
      ExactDivision(b, denom);
      assert denom * (a * b1) == a * (denom * b1);
      ghost var x, y :| IsCombination(denom, a, b, x, y);
      Witness(a, b1);
      MultipleOfSecond(a, b, denom, b1);
      forall m | Divides(a, m) && Divides(b, m) ensures Divides(l, m) {
        LeastMultiple(a, b, denom, b1, m, x, y);
      }
    }
  }

  lemma MultipleOfSecond(a: int, b: int, g: int, b1: int)
    requires Divides(g, a) && b == g * b1
    ensures Divides(b, a * b1)
  {
    var k :| IsProduct(a, g, k);
    assert a * b1 == b * k by { assert (g * k) * b1 == (g * b1) * k; }
    Witness(b, k);
  }

  /** The reduced fraction, or ZeroDivisionError when both parts are zero. */
  datatype Fraction = Fraction(num: int, den: int) | ZeroDivisionError

  /** Same ratio, same signs, coprime parts. */
  method ReduceFraction(num: int, den: int) returns (r: Fraction)
    ensures r.ZeroDivisionError? <==> num == 0 && den == 0
    ensures r.Fraction? ==> num * r.den == den * r.num && IsGcd(1, r.num, r.den)
    ensures r.Fraction? ==> exists g :: g > 0 && IsScaled(num, den, r.num, r.den, g)
  {
    var commonFactor := Gcf(num, den);
    if commonFactor == 0 {
      return ZeroDivisionError;
    }
    var n, d := FloorDiv(num, commonFactor), FloorDiv(den, commonFactor);
    r := Fraction(n, d);
    ExactDivision(num, commonFactor);
    ExactDivision(den, commonFactor);
    assert (commonFactor * n) * d == (commonFactor * d) * n;
    assert IsScaled(num, den, n, d, commonFactor);
    ghost var x, y :| IsCombination(commonFactor, num, den, x, y);
    QuotientsCoprime(commonFactor, n, d, x, y);
  }

  ghost predicate IsScaled(num: int, den: int, n: int, d: int, g: int) {
    num == g * n && den == g * d
  }

  lemma QuotientsCoprime(g: int, n: int, d: int, x: int, y: int)
    requires g != 0 && IsCombination(g, g * n, g * d, x, y)
    ensures IsGcd(1, n, d)
  {
    assert g * (n * x + d * y) == (g * n) * x + (g * d) * y;
    Cancel(g, n * x + d * y, 1);
    Witness(1, n);
    Witness(1, d);
    forall e | Divides(e, n) && Divides(e, d) ensures Divides(e, 1) {
      DividesCombination(e, n, d, x, y);
    }
  }

  /** Reducing a fraction with coprime parts changes nothing, so `reduce_fraction` is idempotent. */
  lemma ReducedIsFixed(n: int, d: int, n': int, d': int, g: int)
    requires IsGcd(1, n, d) && g > 0 && IsScaled(n, d, n', d', g)
    ensures n' == n && d' == d
  {
    Witness(g, n');
    Witness(g, d');
    assert Divides(g, 1);
    DividesAtMost(g, 1);
  }
}
