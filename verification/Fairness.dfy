/** Byte counters of a group of flows in 64-bit arithmetic, and Jain's fairness index of the group. */
module Fairness {

  const Two64: nat := 0x1_0000_0000_0000_0000

  function Wrap(x: nat): (r: nat)
    ensures r < Two64 && (x < Two64 ==> r == x)
  {
    x % Two64
  }

  // ----- the exact sums

  function Total(s: seq<nat>): nat {
    if s == [] then 0 else Total(s[..|s| - 1]) + s[|s| - 1]
  }

  function Squares(s: seq<nat>): nat {
    if s == [] then 0 else Squares(s[..|s| - 1]) + s[|s| - 1] * s[|s| - 1]
  }

  // ----- the counters

  datatype Event = Received(flow: nat, size: nat) | Reset

  /** The bytes of one flow since the last reset. */
  function SinceReset(events: seq<Event>, flow: nat): nat {
    if events == [] then 0
    else
      var front := SinceReset(events[..|events| - 1], flow);
      match events[|events| - 1]
      case Received(f, size) => if f == flow then front + size else front
      case Reset => 0
  }

  class Flows {
    const bytes: array<nat>
    ghost var events: seq<Event>

    ghost predicate Valid()
      reads this, bytes
    {
      forall i :: 0 <= i < bytes.Length ==> bytes[i] == Wrap(SinceReset(events, i))
    }

    constructor (n: nat)
      ensures Valid() && fresh(bytes) && bytes.Length == n && events == []
    {
      bytes := new nat[n](_ => 0);
      events := [];
    }

    method Sink(index: nat, size: nat)
      requires Valid() && index < bytes.Length
      modifies this, bytes
      ensures Valid() && events == old(events) + [Received(index, size)]
    {
      WrapAdd(SinceReset(events, index), size);
      bytes[index] := Wrap(bytes[index] + size);
      events := events + [Received(index, size)];
    }

    method InitializeCounters()
      requires Valid()
      modifies this, bytes
      ensures Valid() && events == old(events) + [Reset]
    {
      var i := 0;
      while i < bytes.Length
        invariant i <= bytes.Length && events == old(events)
        invariant forall j :: 0 <= j < i ==> bytes[j] == 0
      {
        bytes[i] := 0;
        i := i + 1;
      }
      events := events + [Reset];
    }

    /** The two sides of the quotient, each right modulo 2^64 whatever wraps on the way. */
    method Fairness() returns (numerator: nat, denominator: nat)
      ensures numerator == Wrap(Total(bytes[..]) * Total(bytes[..]))
      ensures denominator == Wrap(bytes.Length * Squares(bytes[..]))
    {
      var sum, sumSquares, i := 0, 0, 0;
      while i < bytes.Length
        invariant i <= bytes.Length
        invariant sum == Wrap(Total(bytes[..i])) && sumSquares == Wrap(Squares(bytes[..i]))
      {
        AddFlow(bytes[..i], bytes[i]);
        assert bytes[..i + 1] == bytes[..i] + [bytes[i]];
        sum := Wrap(sum + bytes[i]);
        sumSquares := Wrap(sumSquares + Wrap(bytes[i] * bytes[i]));
        i := i + 1;
      }
      assert bytes[..i] == bytes[..];
      WrapProducts(Total(bytes[..]), Squares(bytes[..]), bytes.Length);
      numerator := Wrap(sum * sum);
      denominator := Wrap(bytes.Length * sumSquares);
    }
  }

  lemma {:induction false} AddFlow(s: seq<nat>, x: nat)
    ensures Wrap(Wrap(Total(s)) + x) == Wrap(Total(s + [x]))
    ensures Wrap(Wrap(Squares(s)) + Wrap(x * x)) == Wrap(Squares(s + [x]))
  {
    assert (s + [x])[..|s|] == s;
    WrapAdd(Total(s), x);
    WrapAdd(Squares(s), x * x);
    WrapAddRight(Wrap(Squares(s)), x * x);
  }

  lemma {:induction false} WrapProducts(t: nat, q: nat, n: nat)
    ensures Wrap(Wrap(t) * Wrap(t)) == Wrap(t * t) && Wrap(n * Wrap(q)) == Wrap(n * q)
  {
    var w := Wrap(t);
    WrapTimes(t, w);
    WrapTimes(t, t);
    Commute(w, t);
    WrapTimes(q, n);
    Commute(n, Wrap(q));
    Commute(n, q);
  }

  lemma {:induction false} Commute(a: nat, b: nat)
    ensures a * b == b * a
  {
  }

  // ----- arithmetic modulo 2^64

  lemma {:induction false} WrapShift(x: nat, k: nat)
    ensures Wrap(x + k * Two64) == Wrap(x)
  {
    if k > 0 {
      WrapShift(x, k - 1);
      var y := x + (k - 1) * Two64;
      assert x + k * Two64 == y + Two64;
      assert (y + Two64) % Two64 == y % Two64;
    }
  }

  lemma {:induction false} WrapAdd(x: nat, y: nat)
    ensures Wrap(Wrap(x) + y) == Wrap(x + y)
  {
    WrapShift(Wrap(x) + y, x / Two64);
  }

  lemma {:induction false} WrapAddRight(x: nat, y: nat)
    ensures Wrap(x + Wrap(y)) == Wrap(x + y)
  {
    WrapAdd(y, x);
  }

  lemma {:induction false} WrapTimes(x: nat, y: nat)
    ensures Wrap(Wrap(x) * y) == Wrap(x * y)
  {
    var q := x / Two64;
    assert x == Wrap(x) + q * Two64;
    assert x * y == Wrap(x) * y + (q * y) * Two64;
    WrapShift(Wrap(x) * y, q * y);
  }

  // ----- when nothing wraps

  lemma {:induction false} BoundStep(t: nat, q: nat, n: nat, m: nat, x: nat)
    requires t <= n * m && q <= m * t && x <= m
    ensures t + x <= (n + 1) * m && q + x * x <= m * (t + x)
  {
    TimesMono(x, m, x);
  }

  lemma {:induction false} SumsAreBounded(s: seq<nat>, m: nat)
    requires forall i :: 0 <= i < |s| ==> s[i] <= m
    ensures Total(s) <= |s| * m && Squares(s) <= m * Total(s)
  {
    if s != [] {
      var front, x := s[..|s| - 1], s[|s| - 1];
      SumsAreBounded(front, m);
      BoundStep(Total(front), Squares(front), |front|, m, x);
    }
  }

  lemma {:induction false} TimesMono(a: nat, b: nat, c: nat)
    requires a <= b
    ensures a * c <= b * c && c * a <= c * b
  {
  }

  /** A product of a factor below 2^32 with another one. */
  lemma {:induction false} ProductFits(a: nat, b: nat)
    requires a < 0x1_0000_0000 && b < 0x1_0000_0000
    ensures a * b < Two64
  {
    TimesMono(a, 0xFFFF_FFFF, b);
    TimesMono(b, 0xFFFF_FFFF, 0xFFFF_FFFF);
  }

  lemma {:induction false} PrefixesAreSmaller(s: seq<nat>, k: nat)
    requires k <= |s|
    ensures Total(s[..k]) <= Total(s) && Squares(s[..k]) <= Squares(s)
  {
    if k < |s| {
      PrefixesAreSmaller(s[..|s| - 1], k);
      assert s[..|s| - 1][..k] == s[..k];
    } else {
      assert s[..k] == s;
    }
  }

  lemma {:induction false} TermsAreSmaller(s: seq<nat>, i: nat)
    requires i < |s|
    ensures s[i] * s[i] <= Squares(s)
  {
    assert s[..i + 1][..i] == s[..i];
    PrefixesAreSmaller(s, i + 1);
  }

  /** The two products at the end. */
  lemma {:induction false} ProductsFit(s: seq<nat>, m: nat)
    requires (forall i :: 0 <= i < |s| ==> s[i] <= m) && |s| * m < 0x1_0000_0000
    ensures Total(s) < 0x1_0000_0000 && Total(s) * Total(s) < Two64 && |s| * Squares(s) < Two64
  {
    SumsAreBounded(s, m);
    ProductFits(Total(s), Total(s));
    ProductFits(|s| * m, Total(s));
    TimesMono(Squares(s), m * Total(s), |s|);
    Associate(|s|, m, Total(s));
  }

  lemma {:induction false} Associate(a: nat, b: nat, c: nat)
    ensures a * (b * c) == (a * b) * c
  {
  }

  lemma {:induction false} FactorFits(n: nat, q: nat)
    requires n > 0 && n * q < Two64
    ensures q < Two64
  {
    TimesMono(1, n, q);
  }

  /** Short enough counters make every intermediate value exact: all sums on the way, all squares and both products. */
  lemma {:induction false} NothingWraps(s: seq<nat>, m: nat)
    requires (forall i :: 0 <= i < |s| ==> s[i] <= m) && |s| * m < 0x1_0000_0000
    ensures forall k :: 0 <= k <= |s| ==> Total(s[..k]) < Two64 && Squares(s[..k]) < Two64
    ensures forall i :: 0 <= i < |s| ==> s[i] * s[i] < Two64
    ensures Total(s) * Total(s) < Two64 && |s| * Squares(s) < Two64
  {
    ProductsFit(s, m);
    if |s| > 0 {
      FactorFits(|s|, Squares(s));
    }
    forall k | 0 <= k <= |s| ensures Total(s[..k]) < Two64 && Squares(s[..k]) < Two64 {
      PrefixesAreSmaller(s, k);
    }
    forall i | 0 <= i < |s| ensures s[i] * s[i] < Two64 {
      TermsAreSmaller(s, i);
    }
  }

  // ----- the index

  function SquaredDifference(y: nat, x: nat): (r: nat)
    ensures r == (y - x) * (y - x) && (r == 0 <==> y == x)
  {
    (y - x) * (y - x)
  }

  /** How far the flows are from `x`, squared. */
  function Spread(s: seq<nat>, x: nat): nat {
    if s == [] then 0 else Spread(s[..|s| - 1], x) + SquaredDifference(s[|s| - 1], x)
  }

  /** The squared differences of all pairs. */
  function Gap(s: seq<nat>): nat {
    if s == [] then 0 else Gap(s[..|s| - 1]) + Spread(s[..|s| - 1], s[|s| - 1])
  }

  lemma {:induction false} SpreadStep(sp: nat, t: nat, q: nat, n: nat, x: nat, y: nat)
    requires sp + 2 * x * t == q + n * x * x
    ensures sp + (y - x) * (y - x) + 2 * x * (t + y) == (q + y * y) + (n + 1) * x * x
  {
    assert 2 * x * (t + y) == 2 * x * t + 2 * x * y;
    assert (n + 1) * x * x == n * x * x + x * x;
    assert (y - x) * (y - x) + 2 * x * y == y * y + x * x;
  }

  lemma {:induction false} SpreadIs(s: seq<nat>, x: nat)
    ensures Spread(s, x) + 2 * x * Total(s) == Squares(s) + |s| * x * x
  {
    if s != [] {
      var front, y := s[..|s| - 1], s[|s| - 1];
      SpreadIs(front, x);
      SpreadStep(Spread(front, x), Total(front), Squares(front), |front|, x, y);
    }
  }

  lemma {:induction false} GapStep(g: nat, sp: nat, t: nat, q: nat, n: nat, x: nat)
    requires g + t * t == n * q && sp + 2 * x * t == q + n * x * x
    ensures g + sp + (t + x) * (t + x) == (n + 1) * (q + x * x)
  {
    assert (t + x) * (t + x) == t * t + 2 * x * t + x * x;
    assert (n + 1) * (q + x * x) == n * q + q + n * x * x + x * x;
  }

  /** Lagrange's identity. */
  lemma {:induction false} GapIs(s: seq<nat>)
    ensures Gap(s) + Total(s) * Total(s) == |s| * Squares(s)
  {
    if s != [] {
      var front, x := s[..|s| - 1], s[|s| - 1];
      GapIs(front);
      SpreadIs(front, x);
      GapStep(Gap(front), Spread(front, x), Total(front), Squares(front), |front|, x);
    }
  }

  ghost predicate AllEqual(s: seq<nat>) {
    forall i, j :: 0 <= i < j < |s| ==> s[i] == s[j]
  }

  lemma {:induction false} SpreadZeroIff(s: seq<nat>, x: nat)
    ensures Spread(s, x) == 0 <==> forall i :: 0 <= i < |s| ==> s[i] == x
  {
    if s != [] {
      var front := s[..|s| - 1];
      SpreadZeroIff(front, x);
      assert forall i :: 0 <= i < |front| ==> s[i] == front[i];
    }
  }

  lemma {:induction false} GapZeroIff(s: seq<nat>)
    ensures Gap(s) == 0 <==> AllEqual(s)
  {
    if s != [] {
      var front := s[..|s| - 1];
      GapZeroIff(front);
      SpreadZeroIff(front, s[|s| - 1]);
      assert forall i :: 0 <= i < |front| ==> s[i] == front[i];
    }
  }

  ghost predicate OnlyOne(s: seq<nat>) {
    forall i, j :: 0 <= i < j < |s| ==> s[i] == 0 || s[j] == 0
  }

  lemma {:induction false} TotalZeroIff(s: seq<nat>)
    ensures Total(s) == 0 <==> forall i :: 0 <= i < |s| ==> s[i] == 0
    ensures Total(s) == 0 ==> Squares(s) == 0
  {
    if s != [] {
      var front := s[..|s| - 1];
      TotalZeroIff(front);
      assert forall i :: 0 <= i < |front| ==> s[i] == front[i];
    }
  }

  lemma {:induction false} SquareOfTotal(s: seq<nat>)
    ensures Total(s) * Total(s) >= Squares(s)
    ensures Total(s) * Total(s) == Squares(s) <==> OnlyOne(s)
  {
    if s != [] {
      var front, x := s[..|s| - 1], s[|s| - 1];
      SquareOfTotal(front);
      TotalZeroIff(front);
      SquareStep(Total(front), Squares(front), x);
      OnlyOneSnoc(front, x);
      assert front + [x] == s;
    }
  }

  lemma {:induction false} SquareStep(t: nat, q: nat, x: nat)
    requires t * t >= q
    ensures (t + x) * (t + x) >= q + x * x
    ensures (t + x) * (t + x) == q + x * x <==> t * t == q && (t == 0 || x == 0)
  {
    assert (t + x) * (t + x) == t * t + 2 * (t * x) + x * x;
    assert t * x == 0 <==> t == 0 || x == 0;
  }

  lemma {:induction false} OnlyOneSnoc(s: seq<nat>, x: nat)
    ensures OnlyOne(s + [x]) <==> OnlyOne(s) && (x == 0 || forall i :: 0 <= i < |s| ==> s[i] == 0)
  {
    var r := s + [x];
    assert forall i :: 0 <= i < |s| ==> r[i] == s[i];
    if OnlyOne(r) {
      forall i | 0 <= i < |s| ensures x == 0 || s[i] == 0 {
        assert r[i] == 0 || r[|s|] == 0;
      }
      forall i, j | 0 <= i < j < |s| ensures s[i] == 0 || s[j] == 0 {
        assert r[i] == 0 || r[j] == 0;
      }
    }
  }

  function Index(s: seq<nat>): real
    requires |s| * Squares(s) > 0
  {
    (Total(s) * Total(s)) as real / (|s| * Squares(s)) as real
  }

  lemma {:induction false} Quotient(a: nat, b: nat, n: nat)
    requires b > 0 && n > 0 && b <= n * a && a <= b
    ensures 1.0 / n as real <= a as real / b as real <= 1.0
    ensures a as real / b as real == 1.0 <==> a == b
    ensures a as real / b as real == 1.0 / n as real <==> b == n * a
  {
    var x, y, m := a as real, b as real, n as real;
    assert (n * a) as real == m * x;
    Ratios(x, y, m);
  }

  lemma {:induction false} Ratios(x: real, y: real, m: real)
    requires y > 0.0 && m > 0.0 && y <= m * x && x <= y
    ensures 1.0 / m <= x / y <= 1.0
    ensures x / y == 1.0 <==> x == y
    ensures x / y == 1.0 / m <==> y == m * x
  {
    Inverse(x, y);
    Inverse(1.0, m);
    Compare(x / y, 1.0, y);
    AcrossBoth(x / y, 1.0 / m, x, y, m);
    Compare(1.0 / m, x / y, y * m);
  }

  lemma {:induction false} AcrossBoth(q: real, u: real, x: real, y: real, m: real)
    requires q * y == x && u * m == 1.0 && y > 0.0 && m > 0.0
    ensures q * (y * m) == m * x && u * (y * m) == y && y * m > 0.0
  {
    assert q * (y * m) == (q * y) * m;
    assert u * (y * m) == (u * m) * y;
  }

  lemma {:induction false} Inverse(x: real, y: real)
    requires y > 0.0
    ensures x / y * y == x
  {
  }

  lemma {:induction false} Compare(a: real, b: real, k: real)
    requires k > 0.0
    ensures (a <= b <==> a * k <= b * k) && (a == b <==> a * k == b * k)
  {
    assert (b - a) * k == b * k - a * k;
  }

  lemma {:induction false} CancelFactor(n: nat, a: nat, b: nat)
    requires n > 0
    ensures n * a == n * b <==> a == b
  {
    if a < b {
      assert n * b == n * a + n * (b - a);
    } else if b < a {
      assert n * a == n * b + n * (a - b);
    }
  }

  lemma {:induction false} SquareIsPositive(x: nat)
    requires x > 0
    ensures x * x > 0
  {
  }

  /** The index of flows that received anything lies in [1/n, 1]; it is 1 for equal flows and 1/n for a single one. */
  lemma {:induction false} IndexIs(s: seq<nat>)
    requires Total(s) > 0
    ensures |s| * Squares(s) > 0 && 1.0 / |s| as real <= Index(s) <= 1.0
    ensures Index(s) == 1.0 <==> AllEqual(s)
    ensures Index(s) == 1.0 / |s| as real <==> OnlyOne(s)
  {
    GapIs(s);
    GapZeroIff(s);
    SquareOfTotal(s);
    var a, b, n := Total(s) * Total(s), |s| * Squares(s), |s|;
    SquareIsPositive(Total(s));
    TimesMono(Squares(s), a, n);
    Quotient(a, b, n);
    CancelFactor(n, a, Squares(s));
  }

  /** What the method returns, for counters that are short enough, is the exact index with all its properties. */
  lemma {:induction false} ComputedIndexIs(s: seq<nat>, m: nat, numerator: nat, denominator: nat)
    requires (forall i :: 0 <= i < |s| ==> s[i] <= m) && |s| * m < 0x1_0000_0000 && Total(s) > 0
    requires numerator == Wrap(Total(s) * Total(s)) && denominator == Wrap(|s| * Squares(s))
    ensures denominator > 0
    ensures 1.0 / |s| as real <= numerator as real / denominator as real <= 1.0
    ensures numerator as real / denominator as real == 1.0 <==> AllEqual(s)
    ensures numerator as real / denominator as real == 1.0 / |s| as real <==> OnlyOne(s)
  {
    ProductsFit(s, m);
    IndexIs(s);
  }
}
