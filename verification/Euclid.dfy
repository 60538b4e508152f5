/** Greatest common divisors of integers of any sign, and what is built on them. */
module Euclid {
  import opened Wrappers

  /** The remainder has the sign of the divisor. */
  function FloorMod(a: int, b: int): int
    requires b != 0
  {
    if b > 0 then a % b else -((-a) % (-b))
  }

  function Abs(x: int): nat {
    if x < 0 then -x else x
  }

  ghost predicate IsTimes(x: int, d: int, k: int) {
    x == d * k
  }

  ghost predicate Divides(d: int, x: int) {
    exists k: int :: IsTimes(x, d, k)
  }

  ghost predicate IsCombination(x: int, a: int, b: int, s: int, t: int) {
    x == a * s + b * t
  }

  /** Divides both, and every common divisor divides it: so 0 for two zeros, and the greatest one otherwise. */
  ghost predicate IsGcd(g: nat, a: int, b: int) {
    Divides(g, a) && Divides(g, b) && forall d :: Divides(d, a) && Divides(d, b) ==> Divides(d, g)
  }

  // ----- divisibility

  lemma {:induction false} Times(d: int, k: int)
    ensures Divides(d, d * k)
  {
    assert IsTimes(d * k, d, k);
  }

  lemma {:induction false} Distribute(d: int, x: int, y: int)
    ensures d * x + d * y == d * (x + y)
  {
  }

  lemma {:induction false} Associate(a: int, b: int, c: int)
    ensures (a * b) * c == a * (b * c)
  {
  }

  lemma {:induction false} DividesProduct(d: int, x: int, y: int)
    requires Divides(d, x)
    ensures Divides(d, x * y)
  {
    var k :| IsTimes(x, d, k);
    Associate(d, k, y);
    Times(d, k * y);
  }

  lemma {:induction false} DividesSum(d: int, x: int, y: int)
    requires Divides(d, x) && Divides(d, y)
    ensures Divides(d, x + y)
  {
    var j :| IsTimes(x, d, j);
    var k :| IsTimes(y, d, k);
    Distribute(d, j, k);
    Times(d, j + k);
  }

  lemma {:induction false} DividesCombination(d: int, x: int, a: int, b: int, s: int, t: int)
    requires Divides(d, a) && Divides(d, b) && IsCombination(x, a, b, s, t)
    ensures Divides(d, x)
  {
    DividesProduct(d, a, s);
    DividesProduct(d, b, t);
    DividesSum(d, a * s, b * t);
  }

  lemma {:induction false} AbsDivides(x: int, y: int)
    requires Divides(x, y)
    ensures Divides(Abs(x), y)
  {
    var k :| IsTimes(y, x, k);
    if x < 0 {
      assert IsTimes(y, -x, -k);
    }
  }

  // ----- the algorithm

  lemma {:induction false} FloorModIs(a: int, b: int) returns (q: int)
    requires b != 0
    ensures a == b * q + FloorMod(a, b) && Abs(FloorMod(a, b)) < Abs(b)
  {
    if b > 0 {
      q := a / b;
    } else {
      q := (-a) / (-b);
      assert -a == (-b) * q + (-a) % (-b);
    }
  }

  /** Whatever divides the pair at hand divides the two arguments. */
  ghost predicate Covers(x: int, y: int, a: int, b: int) {
    forall d :: Divides(d, x) && Divides(d, y) ==> Divides(d, a) && Divides(d, b)
  }

  lemma {:induction false} CoverStep(x: int, y: int, q: int, r: int, a: int, b: int)
    requires Covers(x, y, a, b) && x == y * q + r
    ensures Covers(y, r, a, b)
  {
    forall d | Divides(d, y) && Divides(d, r) ensures Divides(d, a) && Divides(d, b) {
      DividesProduct(d, y, q);
      DividesSum(d, y * q, r);
    }
  }

  lemma {:induction false} CombineStep(a: int, b: int, x: int, s1: int, t1: int, y: int, s2: int, t2: int, q: int,
                                       r: int)
    requires IsCombination(x, a, b, s1, t1) && IsCombination(y, a, b, s2, t2) && x == y * q + r
    ensures IsCombination(r, a, b, s1 - s2 * q, t1 - t2 * q)
  {
    assert y * q == a * (s2 * q) + b * (t2 * q);
    assert a * (s1 - s2 * q) == a * s1 - a * (s2 * q);
    assert b * (t1 - t2 * q) == b * t1 - b * (t2 * q);
  }

  lemma {:induction false} AbsCombination(x: int, a: int, b: int, s: int, t: int)
    requires IsCombination(x, a, b, s, t)
    ensures exists s', t' :: IsCombination(Abs(x), a, b, s', t')
  {
    if x < 0 {
      assert IsCombination(Abs(x), a, b, -s, -t);
    } else {
      assert IsCombination(Abs(x), a, b, s, t);
    }
  }

  lemma {:induction false} CombinationIsGcd(g: nat, a: int, b: int)
    requires Divides(g, a) && Divides(g, b) && exists s, t :: IsCombination(g, a, b, s, t)
    ensures IsGcd(g, a, b)
  {
    var s, t :| IsCombination(g, a, b, s, t);
    forall d | Divides(d, a) && Divides(d, b) ensures Divides(d, g) {
      DividesCombination(d, g, a, b, s, t);
    }
  }

  /** Terminates for all integers and returns their greatest common divisor, which is a combination of them. */
  method Gcf(a: int, b: int) returns (g: nat)
    ensures IsGcd(g, a, b) && exists s, t :: IsCombination(g, a, b, s, t)
  {
    var result, remainder := if a >= b then a else b, if a >= b then b else a;
    ghost var s1, t1, s2, t2 := 1, 0, 0, 1;
    if a < b {
      s1, t1, s2, t2 := 0, 1, 1, 0;
    }
    while remainder != 0
      invariant Covers(result, remainder, a, b)
      invariant IsCombination(result, a, b, s1, t1) && IsCombination(remainder, a, b, s2, t2)
      decreases Abs(remainder)
    {
      ghost var q := FloorModIs(result, remainder);
      var newRemainder := FloorMod(result, remainder);
      CoverStep(result, remainder, q, newRemainder, a, b);
      CombineStep(a, b, result, s1, t1, remainder, s2, t2, q, newRemainder);
      s1, t1, s2, t2 := s2, t2, s1 - s2 * q, t1 - t2 * q;
      result, remainder := remainder, newRemainder;
    }
    g := Abs(result);
    EndsWithGcd(result, a, b, s1, t1);
  }

  lemma {:induction false} EndsWithGcd(x: int, a: int, b: int, s: int, t: int)
    requires Covers(x, 0, a, b) && IsCombination(x, a, b, s, t)
    ensures IsGcd(Abs(x), a, b) && exists s', t' :: IsCombination(Abs(x), a, b, s', t')
  {
    Times(x, 1);
    Times(x, 0);
    assert Divides(x, a) && Divides(x, b);
    AbsDivides(x, a);
    AbsDivides(x, b);
    AbsCombination(x, a, b, s, t);
    CombinationIsGcd(Abs(x), a, b);
  }

  lemma {:induction false} MultipleSize(d: int, k: int)
    requires d > 0
    ensures (k >= 1 ==> d * k >= d) && (k <= 0 ==> d * k <= 0) && (k <= -1 ==> d * k <= -d)
  {
  }

  lemma {:induction false} ZeroDivides(x: int)
    ensures Divides(0, x) <==> x == 0
  {
    Times(0, 0);
  }

  lemma {:induction false} DivisorIsAtMost(d: int, g: int)
    requires Divides(d, g) && g > 0
    ensures d <= g
  {
    var k :| IsTimes(g, d, k);
    if d > 0 {
      MultipleSize(d, k);
    }
  }

  /** Unless both numbers are zero it is positive and no common divisor is greater. */
  lemma {:induction false} GcdIsGreatest(g: nat, a: int, b: int)
    requires IsGcd(g, a, b)
    ensures g == 0 <==> a == 0 && b == 0
    ensures g > 0 ==> forall d :: Divides(d, a) && Divides(d, b) ==> d <= g
  {
    ZeroDivides(a);
    ZeroDivides(b);
    ZeroDivides(g);
    if g > 0 {
      forall d | Divides(d, a) && Divides(d, b) ensures d <= g {
        DivisorIsAtMost(d, g);
      }
    }
  }

  // ----- the least common multiple

  lemma {:induction false} ExactQuotient(x: int, g: int)
    requires g > 0 && Divides(g, x)
    ensures g * (x / g) == x
  {
    var k :| IsTimes(x, g, k);
    QuotientOf(g, k);
  }

  lemma {:induction false} QuotientOf(g: int, k: int)
    requires g > 0
    ensures (g * k) / g == k
  {
    var q, r := (g * k) / g, (g * k) % g;
    assert g * k == g * q + r;
    assert g * (k - q) == r;
    SmallMultiple(g, k - q);
  }

  lemma {:induction false} SmallMultiple(g: int, d: int)
    requires g > 0 && 0 <= g * d < g
    ensures d == 0
  {
    MultipleSize(g, d);
  }

  /** A common multiple that divides every common multiple; its product with the divisor is that of the two numbers. */
  ghost predicate IsLcm(l: int, g: nat, a: int, b: int) {
    && l * g == a * b && Divides(a, l) && Divides(b, l)
    && forall m :: Divides(a, m) && Divides(b, m) ==> Divides(l, m)
  }

  method Lcm(a: int, b: int) returns (l: int, ghost g: nat)
    ensures IsGcd(g, a, b) && IsLcm(l, g, a, b)
    ensures a == 0 && b == 0 ==> l == 0
    ensures a > 0 && b > 0 ==> l > 0 && forall m :: m > 0 && Divides(a, m) && Divides(b, m) ==> l <= m
  {
    var denom := Gcf(a, b);
    g := denom;
    GcdIsGreatest(denom, a, b);
    if denom == 0 {
      l := 0;
      ZeroIsLcm();
    } else {
      l := a * (b / denom);
      LcmIs(a, b, denom);
      if a > 0 && b > 0 {
        LcmIsLeast(l, denom, a, b);
      }
    }
  }

  lemma {:induction false} ZeroIsLcm()
    ensures IsLcm(0, 0, 0, 0)
  {
    Times(0, 0);
  }

  lemma {:induction false} LcmIs(a: int, b: int, g: nat)
    requires g > 0 && IsGcd(g, a, b) && exists s, t :: IsCombination(g, a, b, s, t)
    ensures IsLcm(a * (b / g), g, a, b)
  {
    var x, y := a / g, b / g;
    ExactQuotient(a, g);
    ExactQuotient(b, g);
    var l := a * y;
    assert l * g == a * b by {
      Associate(a, y, g);
    }
    assert l == b * x by {
      assert l == (g * x) * y && b * x == (g * y) * x;
      assert (g * x) * y == (g * y) * x;
    }
    Times(a, y);
    Times(b, x);
    var s, t :| IsCombination(g, a, b, s, t);
    forall m | Divides(a, m) && Divides(b, m) ensures Divides(l, m) {
      MultipleOfLcm(a, b, g, s, t, l, m);
    }
  }

  lemma {:induction false} MultipleOfLcm(a: int, b: int, g: nat, s: int, t: int, l: int, m: int)
    requires g > 0 && IsCombination(g, a, b, s, t) && l * g == a * b && Divides(a, m) && Divides(b, m)
    ensures Divides(l, m)
  {
    var j :| IsTimes(m, a, j);
    var k :| IsTimes(m, b, k);
    var n := k * s + j * t;
    Regroup(b, k, a, s);
    Regroup(a, j, b, t);
    Distribute(m, a * s, b * t);
    Distribute(a * b, k * s, j * t);
    assert m * g == (a * b) * n;
    Regroup(l, n, g, 1);
    Cancel(m, l * n, g);
    Times(l, n);
  }

  lemma {:induction false} Regroup(a: int, b: int, c: int, d: int)
    ensures (a * b) * (c * d) == (c * a) * (b * d) == (a * c) * (b * d)
  {
  }

  lemma {:induction false} Cancel(x: int, y: int, g: int)
    requires g > 0 && x * g == y * g
    ensures x == y
  {
    assert g * (x - y) == 0;
    SmallMultiple(g, x - y);
  }

  lemma {:induction false} LcmIsLeast(l: int, g: nat, a: int, b: int)
    requires g > 0 && IsLcm(l, g, a, b) && a > 0 && b > 0
    ensures l > 0 && forall m :: m > 0 && Divides(a, m) && Divides(b, m) ==> l <= m
  {
    assert a * b > 0;
    assert l <= 0 ==> l * g <= 0;
    forall m | m > 0 && Divides(a, m) && Divides(b, m) ensures l <= m {
      DivisorIsAtMost(l, m);
    }
  }

  // ----- fractions

  /** Fails on (0, 0) only; otherwise the same ratio, with the same signs, in a pair without a common divisor but 1. */
  method ReduceFraction(numerator: int, denominator: int) returns (r: Option<(int, int)>)
    ensures r.None? <==> numerator == 0 && denominator == 0
    ensures r.Some? ==> IsGcd(1, r.value.0, r.value.1)
    ensures r.Some? ==> exists g: nat :: g > 0 && IsTimes(numerator, g, r.value.0) && IsTimes(denominator, g, r.value.1)
  {
    var g := Gcf(numerator, denominator);
    GcdIsGreatest(g, numerator, denominator);
    if g == 0 {
      return None;
    }
    ReducedIs(numerator, denominator, g);
    return Some((numerator / g, denominator / g));
  }

  lemma {:induction false} ReducedIs(a: int, b: int, g: nat)
    requires g > 0 && IsGcd(g, a, b) && exists s, t :: IsCombination(g, a, b, s, t)
    ensures IsTimes(a, g, a / g) && IsTimes(b, g, b / g) && IsGcd(1, a / g, b / g)
  {
    ExactQuotient(a, g);
    ExactQuotient(b, g);
    var s, t :| IsCombination(g, a, b, s, t);
    var x, y := a / g, b / g;
    assert 1 * g == (x * s + y * t) * g by {
      assert a * s == (x * s) * g && b * t == (y * t) * g;
    }
    Cancel(1, x * s + y * t, g);
    assert IsCombination(1, x, y, s, t);
    assert IsTimes(x, 1, x) && IsTimes(y, 1, y);
    CombinationIsGcd(1, x, y);
  }
}
