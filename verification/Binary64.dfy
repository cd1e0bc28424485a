/**
 Rounding to nearest, ties to even, on 53 significant bits (IEEE 754-2019 section
 4.3.1), over the range the price arithmetic stays in. It meets what the price
 theorems assume of a rounding, so they hold of float64.
 */
module Binary64 {
  import opened Floats

  function Pow2(e: int): (p: real)
    ensures p > 0.0
    decreases if e < 0 then -e else e
  {
    if e == 0 then 1.0 else if e > 0 then 2.0 * Pow2(e - 1) else Pow2(e + 1) / 2.0
  }

  lemma Pow2Next(e: int)
    ensures Pow2(e + 1) == 2.0 * Pow2(e)
  {}

  lemma {:induction false} Pow2Grows(e: int, f: int)
    requires e < f
    ensures 2.0 * Pow2(e) <= Pow2(f)
    decreases f - e
  {
    Pow2Next(f - 1);
    if e < f - 1 {
      Pow2Grows(e, f - 1);
    }
  }

  /** x lies between 2^e and 2^(e+1). */
  ghost predicate HasExponent(x: real, e: int) {
    Pow2(e) <= x < Pow2(e + 1)
  }

  /** Counting down from a power above x. */
  lemma {:induction false} ExponentBelow(x: real, lo: int, hi: int) returns (e: int)
    requires lo < hi && Pow2(lo) <= x < Pow2(hi)
    ensures lo <= e < hi && HasExponent(x, e)
    decreases hi - lo
  {
    if Pow2(hi - 1) <= x {
      e := hi - 1;
    } else {
      e := ExponentBelow(x, lo, hi - 1);
    }
  }

  lemma RangeOfPow2()
    ensures Pow2(-24) <= LEAST && GREATEST < Pow2(60)
  {
    assert Pow2(-4) == 1.0 / 16.0;
    assert Pow2(-8) == 1.0 / 256.0;
    assert Pow2(-12) == 1.0 / 4096.0;
    assert Pow2(-16) == 1.0 / 65536.0;
    assert Pow2(-20) == 1.0 / 1048576.0;
    assert Pow2(-24) == 1.0 / 16777216.0;
    assert Pow2(4) == 16.0;
    assert Pow2(8) == 256.0;
    assert Pow2(12) == 4096.0;
    assert Pow2(16) == 65536.0;
    assert Pow2(20) == 1048576.0;
    assert Pow2(24) == 16777216.0;
    assert Pow2(28) == 268435456.0;
    assert Pow2(32) == 4294967296.0;
    assert Pow2(36) == 68719476736.0;
    assert Pow2(40) == 1099511627776.0;
    assert Pow2(44) == 17592186044416.0;
    assert Pow2(48) == 281474976710656.0;
    assert Pow2(52) == 4503599627370496.0;
    assert Pow2(56) == 72057594037927936.0;
    assert Pow2(60) == 1152921504606846976.0;
  }

  lemma ExponentExists(x: real) returns (e: int)
    requires LEAST <= x <= GREATEST
    ensures HasExponent(x, e)
  {
    RangeOfPow2();
    e := ExponentBelow(x, -24, 60);
  }

  lemma ExponentMonotone(x: real, d: int, y: real, e: int)
    requires HasExponent(x, d) && HasExponent(y, e) && x <= y
    ensures d <= e
  {
    Pow2Next(e);
    if e < d {
      Pow2Grows(e, d);
    }
  }

  lemma ExponentUnique(x: real, e: int, f: int)
    requires HasExponent(x, e) && HasExponent(x, f)
    ensures e == f
  {
    ExponentMonotone(x, e, x, f);
    ExponentMonotone(x, f, x, e);
  }

  // --- rounding to a whole number of units ---

  const STEPS: int := 4503599627370496   // 2^52

  function Times(n: int, u: real): real {
    n as real * u
  }

  /** No multiple of u is nearer to x than the n-th, and of two equally near ones the even one is taken. */
  predicate IsNearest(x: real, n: int, u: real) {
    && Times(n, u) - u / 2.0 <= x <= Times(n, u) + u / 2.0
    && (x == Times(n, u) - u / 2.0 || x == Times(n, u) + u / 2.0 ==> n % 2 == 0)
  }

  lemma ProductOrder(a: real, b: real, u: real)
    requires u > 0.0 && a <= b
    ensures a * u <= b * u
  {
    assert (b - a) * u >= 0.0;
  }

  lemma TimesNext(n: int, u: real)
    ensures Times(n + 1, u) == Times(n, u) + u
  {
    assert (n + 1) as real == n as real + 1.0;
  }

  lemma TimesMonotone(n: int, k: int, u: real)
    requires u > 0.0 && n <= k
    ensures Times(n, u) <= Times(k, u)
  {
    ProductOrder(n as real, k as real, u);
  }

  lemma TimesGrows(n: int, k: int, u: real)
    requires u > 0.0 && n <= k
    ensures Times(n, u) <= Times(k, u)
    ensures n < k ==> Times(n, u) + u <= Times(k, u)
    ensures n + 1 < k ==> Times(n, u) + 2.0 * u <= Times(k, u)
  {
    TimesNext(n, u);
    TimesNext(n + 1, u);
    TimesMonotone(n, k, u);
    if n < k {
      TimesMonotone(n + 1, k, u);
    }
    if n + 1 < k {
      TimesMonotone(n + 2, k, u);
    }
  }

  lemma NearestIsMonotone(x: real, n: int, y: real, k: int, u: real)
    requires u > 0.0 && x <= y && IsNearest(x, n, u) && IsNearest(y, k, u)
    ensures n <= k && Times(n, u) <= Times(k, u)
  {
    if n > k {
      TimesGrows(k, n, u);
    } else {
      TimesGrows(n, k, u);
    }
  }

  lemma NearestExists(x: real, u: real) returns (n: int)
    requires u > 0.0
    ensures IsNearest(x, n, u)
  {
    n := (x / u).Floor;
    UnitsBelow(x, u, n);
    TimesNext(n, u);
    var rest := x - Times(n, u);
    if rest > u / 2.0 || (rest == u / 2.0 && n % 2 != 0) {
      n := n + 1;
    }
  }

  lemma UnitsBelow(x: real, u: real, n: int)
    requires u > 0.0 && n == (x / u).Floor
    ensures Times(n, u) <= x <= Times(n, u) + u
  {
    var q := x / u;
    TimesNext(n, u);
    Between(x, u, q, n as real, (n + 1) as real);
  }

  lemma Between(x: real, u: real, q: real, lo: real, hi: real)
    requires u > 0.0 && q == x / u && lo <= q <= hi
    ensures lo * u <= x <= hi * u
  {
    assert q * u == x;
    ProductOrder(lo, q, u);
    ProductOrder(q, hi, u);
  }

  // --- rounding to 53 bits ---

  /** One unit in the last of the 53 places of a number between 2^e and 2^(e+1). */
  function Unit(e: int): (u: real)
    ensures u > 0.0
  {
    Pow2(e) / STEPS as real
  }

  ghost predicate RoundsTo(x: real, e: int, y: real) {
    exists n: int :: IsNearest(x, n, Unit(e)) && y == Times(n, Unit(e))
  }

  /** A float operation on an exact result x in the range. Outside of it nothing is said, but 0 stays 0. */
  ghost predicate IsBinary64(fl: real -> real) {
    && fl(0.0) == 0.0
    && (forall x: real, e: int :: LEAST <= x <= GREATEST && HasExponent(x, e) ==> RoundsTo(x, e, fl(x)))
  }

  lemma CountedNear(x: real, n: int, u: real)
    requires u > 0.0 && Times(STEPS, u) <= x <= Times(2 * STEPS, u) && IsNearest(x, n, u)
    ensures x - x * EPS <= Times(n, u) <= x + x * EPS
    ensures Times(STEPS, u) <= Times(n, u) <= Times(2 * STEPS, u)
  {
    NearestIsMonotone(Times(STEPS, u), STEPS, x, n, u);
    NearestIsMonotone(x, n, Times(2 * STEPS, u), 2 * STEPS, u);
  }

  /** The float between two powers of two is between them, and within 2^-53 of the number. */
  lemma RoundedNear(x: real, e: int, y: real)
    requires HasExponent(x, e) && RoundsTo(x, e, y)
    ensures x - x * EPS <= y <= x + x * EPS
    ensures Pow2(e) <= y <= Pow2(e + 1)
  {
    Pow2Next(e);
    var n := Count(x, e, y);
    CountedNear(x, n, Unit(e));
  }

  lemma Count(x: real, e: int, y: real) returns (n: int)
    requires RoundsTo(x, e, y)
    ensures IsNearest(x, n, Unit(e)) && y == Times(n, Unit(e))
  {
    n :| IsNearest(x, n, Unit(e)) && y == Times(n, Unit(e));
  }

  lemma RoundedMonotone(x: real, d: int, y: real, e: int, x': real, y': real)
    requires HasExponent(x, d) && HasExponent(y, e) && x <= y && RoundsTo(x, d, x') && RoundsTo(y, e, y')
    ensures x' <= y'
  {
    ExponentMonotone(x, d, y, e);
    if d == e {
      var n := Count(x, d, x');
      var k := Count(y, d, y');
      NearestIsMonotone(x, n, y, k, Unit(d));
    } else {
      Pow2Next(d);
      Pow2Grows(d, e);
      RoundedNear(x, d, x');
      RoundedNear(y, e, y');
    }
  }

  lemma TwentyIsExact(y: real)
    requires RoundsTo(20.0, 4, y)
    ensures HasExponent(20.0, 4) && y == 20.0
  {
    assert Pow2(4) == 16.0;
    Pow2Next(4);
    var u := Unit(4);
    var n := Count(20.0, 4, y);
    var whole: int := 5629499534213120;
    assert Times(whole, u) == 20.0;
    NearestIsMonotone(20.0, n, 20.0, whole, u);
    NearestIsMonotone(20.0, whole, 20.0, n, u);
  }

  /** Every float64 rounding to nearest is a rounding as the price theorems assume it. */
  lemma BinaryRoundingQualifies(fl: real -> real)
    requires IsBinary64(fl)
    ensures IsRounding(fl)
  {
    assert Pow2(4) == 16.0;
    Pow2Next(4);
    assert HasExponent(20.0, 4);
    TwentyIsExact(fl(20.0));
    forall x: real | LEAST <= x <= GREATEST
      ensures x - x * EPS <= fl(x) <= x + x * EPS
    {
      var e := ExponentExists(x);
      RoundedNear(x, e, fl(x));
    }
    forall x: real, y: real | LEAST <= x <= y <= GREATEST
      ensures fl(x) <= fl(y)
    {
      var d := ExponentExists(x);
      var e := ExponentExists(y);
      RoundedMonotone(x, d, y, e, fl(x), fl(y));
    }
  }

  /** Rounding to nearest as a function on the range. */
  ghost function Nearest(x: real): real {
    if e: int, n: int :| LEAST <= x <= GREATEST && HasExponent(x, e) && IsNearest(x, n, Unit(e))
    then Times(n, Unit(e)) else 0.0
  }

  /** So there is such a rounding. */
  lemma NearestIsBinary64()
    ensures IsBinary64(Nearest)
  {
    forall x: real, e: int | LEAST <= x <= GREATEST && HasExponent(x, e)
      ensures RoundsTo(x, e, Nearest(x))
    {
      var k := NearestExists(x, Unit(e));
      var f: int, n: int :| HasExponent(x, f) && IsNearest(x, n, Unit(f)) && Nearest(x) == Times(n, Unit(f));
      ExponentUnique(x, e, f);
    }
  }
}
