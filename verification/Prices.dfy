/**
 Price arithmetic in float64 (internal/ingest/normalize.go:64-72, 132-173,
 internal/feedgen/server.go:180-191, internal/feedgen/stream.go:99-104).

 The results hold of every rounding `fl` as described in Floats.
 */
module Prices {
  import opened Wrappers
  import opened CursorCodec
  import opened Floats
  import opened FeedLog

  /** math.Round: half away from zero. */
  function Round(x: real): int {
    if x >= 0.0 then (x + 0.5).Floor else -((0.5 - x).Floor)
  }

  /** The whole number nearest to x; a half goes away from zero. */
  predicate IsNearestCent(x: real, n: int) {
    -0.5 <= x - n as real <= 0.5 && (x - n as real == 0.5 ==> x < 0.0) && (n as real - x == 0.5 ==> x > 0.0)
  }

  lemma RoundIsNearest(x: real)
    ensures forall n :: IsNearestCent(x, n) <==> n == Round(x)
  {}

  // --- the three wire formats ---

  /** The string form, "%d.%02d" of whole and remaining cents. */
  function PriceText(cents: nat): string {
    Decimal(cents / 100) + "." + [Digit(cents % 100 / 10), Digit(cents % 10)]
  }

  /** A numeral scanned so far: its digits as one integer, over a power of ten. */
  datatype Numeral = Numeral(digits: nat, scale: nat, dotted: bool, any: bool)

  /** Digits with at most one point. */
  function ScanNumeral(s: string, n: Numeral): Option<Numeral> {
    if s == "" then (if n.any then Some(n) else None)
    else if '0' <= s[0] <= '9' then
      ScanNumeral(s[1..], Numeral(n.digits * 10 + (s[0] as int - '0' as int),
                                  if n.dotted then n.scale * 10 else n.scale, n.dotted, true))
    else if s[0] == '.' && !n.dotted then ScanNumeral(s[1..], n.(dotted := true))
    else None
  }

  lemma {:induction false} ScanKeepsScale(s: string, n: Numeral)
    requires n.scale > 0
    ensures ScanNumeral(s, n).Some? ==> ScanNumeral(s, n).value.scale > 0
  {
    if s != "" {
      if '0' <= s[0] <= '9' {
        ScanKeepsScale(s[1..], Numeral(n.digits * 10 + (s[0] as int - '0' as int),
                                       if n.dotted then n.scale * 10 else n.scale, n.dotted, true));
      } else if s[0] == '.' && !n.dotted {
        ScanKeepsScale(s[1..], n.(dotted := true));
      }
    }
  }

  /** The exact value of a plain decimal numeral with an optional sign. */
  function NumeralValue(s: string): Option<real> {
    var neg := s != "" && s[0] == '-';
    var digits := if s != "" && (s[0] == '-' || s[0] == '+') then s[1..] else s;
    ScanKeepsScale(digits, Numeral(0, 1, false, false));
    match ScanNumeral(digits, Numeral(0, 1, false, false))
    case None => None
    case Some(n) => var v := n.digits as real / n.scale as real; Some(if neg then -v else v)
  }

  lemma {:induction false} ScanDigitsThen(a: string, b: string, n: Numeral)
    requires a != "" && (forall c :: c in a ==> '0' <= c <= '9') && !n.dotted
    requires ScanUint(a, n.digits).Value?
    ensures ScanNumeral(a + b, n) == ScanNumeral(b, Numeral(ScanUint(a, n.digits).n, n.scale, false, true))
  {
    assert (a + b)[1..] == a[1..] + b && a[0] in a;
    assert forall c :: c in a[1..] ==> c in a;
    if |a| > 1 {
      ScanDigitsThen(a[1..], b, Numeral(n.digits * 10 + (a[0] as int - '0' as int), n.scale, false, true));
    } else {
      assert a[1..] + b == b;
    }
  }

  /** The string form reads back as exactly the price. */
  lemma PriceTextValue(cents: nat)
    requires cents <= MAX_UINT64
    ensures NumeralValue(PriceText(cents)) == Some(cents as real / 100.0)
  {
    PriceTextScans(cents);
  }

  lemma PriceTextScans(cents: nat)
    requires cents <= MAX_UINT64
    ensures ScanNumeral(PriceText(cents), Numeral(0, 1, false, false)) == Some(Numeral(cents, 100, true, true))
    ensures PriceText(cents) != "" && '0' <= PriceText(cents)[0] <= '9'
  {
    var whole := Decimal(cents / 100);
    var t, u := cents % 100 / 10, cents % 10;
    var tail := ['.', Digit(t), Digit(u)];
    ScanDecimal(cents / 100);
    DigitsOfCents(cents);
    assert PriceText(cents) == whole + tail;
    assert whole[0] in whole && (whole + tail)[0] == whole[0];
    ScanDigitsThen(whole, tail, Numeral(0, 1, false, false));
    ScanTwoDigits(cents / 100, t, u);
  }

  lemma DigitsOfCents(cents: nat)
    ensures (cents / 100 * 10 + cents % 100 / 10) * 10 + cents % 10 == cents
    ensures PriceText(cents) == Decimal(cents / 100) + ['.', Digit(cents % 100 / 10), Digit(cents % 10)]
  {}

  lemma ScanTwoDigits(n: nat, t: nat, u: nat)
    requires t < 10 && u < 10
    ensures ScanNumeral(['.', Digit(t), Digit(u)], Numeral(n, 1, false, true))
      == Some(Numeral((n * 10 + t) * 10 + u, 100, true, true))
  {
    var s := ['.', Digit(t), Digit(u)];
    assert s[1..] == [Digit(t), Digit(u)] && s[1..][1..] == [Digit(u)] && s[1..][1..][1..] == "";
    assert Digit(t) as int - '0' as int == t && Digit(u) as int - '0' as int == u;
    var n1 := Numeral(n, 1, true, true);
    var n2 := Numeral(n * 10 + t, 10, true, true);
    var n3 := Numeral((n * 10 + t) * 10 + u, 100, true, true);
    assert ScanNumeral("", n3) == Some(n3);
    assert ScanNumeral([Digit(u)], n2) == ScanNumeral("", n3);
    assert ScanNumeral([Digit(t), Digit(u)], n1) == ScanNumeral([Digit(u)], n2);
    assert ScanNumeral(s, Numeral(n, 1, false, true)) == ScanNumeral([Digit(t), Digit(u)], n1);
  }

  /** A sign in front of an unsigned numeral does what it says. */
  lemma SignedNumeral(s: string)
    requires s == "" || (s[0] != '-' && s[0] != '+')
    ensures var v := NumeralValue(s);
      NumeralValue("+" + s) == v && NumeralValue("-" + s) == if v.None? then None else Some(-v.value)
  {
    assert ("+" + s)[1..] == s && ("-" + s)[1..] == s;
  }

  function ParseFloat(fl: real -> real, s: string): Option<real> {
    match NumeralValue(s)
    case None => None
    case Some(v) => Some(fl(v))
  }

  /** parsePrice on the float and string forms: dollars to cents, rounded. */
  function DollarsToCents(fl: real -> real, dollars: real): int {
    Round(fl(dollars * 100.0))
  }

  lemma NearestCents(fl: real -> real, dollars: real)
    ensures IsNearestCent(fl(dollars * 100.0), DollarsToCents(fl, dollars))
  {
    RoundIsNearest(fl(dollars * 100.0));
  }

  /** Two roundings move c/100 * 100 by less than half a cent. */
  lemma DollarsRoundTrip(fl: real -> real, cents: nat)
    requires IsRounding(fl) && cents <= 0x4_0000_0000_0000
    ensures DollarsToCents(fl, fl(cents as real / 100.0)) == cents
  {
    if cents > 0 {
      var c := cents as real;
      var x := fl(c / 100.0);
      assert c / 100.0 - c / 100.0 * EPS <= x <= c / 100.0 + c / 100.0 * EPS;
      var y := fl(x * 100.0);
      assert x * 100.0 - x * 100.0 * EPS <= y <= x * 100.0 + x * 100.0 * EPS;
      assert c - 0.4 <= y <= c + 0.4;
    }
  }

  /** Cents, float and string forms all carry every price up to 2^50 exactly. */
  lemma WireFormatsAgree(fl: real -> real, cents: nat, token: real)
    requires IsRounding(fl) && cents <= 0x4_0000_0000_0000
    requires fl(token) == fl(cents as real / 100.0)   // a JSON number prints so that it reads back as the same float
    ensures DollarsToCents(fl, fl(token)) == cents
    ensures ParseFloat(fl, PriceText(cents)).Some? && DollarsToCents(fl, ParseFloat(fl, PriceText(cents)).value) == cents
  {
    DollarsRoundTrip(fl, cents);
    PriceTextValue(cents);
  }

  // --- the spike test ---

  const PRICE_MIN_CENTS := 1
  const PRICE_MAX_CENTS := 200_000
  const SPIKE_FACTOR := 20

  predicate InRange(cents: int) {
    PRICE_MIN_CENTS <= cents <= PRICE_MAX_CENTS
  }

  /** The test as the source computes it. */
  function FloatSpikeSuspect(fl: real -> real, held: int, cents: int): bool {
    if held <= 0 then false
    else
      var ratio := fl(cents as real / held as real);
      ratio >= 20.0 || ratio <= fl(1.0 / 20.0)
  }

  /** The same question in whole cents. */
  predicate Suspect(held: int, cents: int) {
    held > 0 && (cents >= SPIKE_FACTOR * held || SPIKE_FACTOR * cents <= held)
  }

  /** Comparing a quotient with a bound is comparing the dividend with the scaled bound. */
  lemma QuotientBounds(c: real, h: real, b: real)
    requires h > 0.0
    ensures c >= b * h ==> c / h >= b
    ensures c <= b * h ==> c / h <= b
  {
    var q := c / h;
    assert q * h == c;
    if q < b {
      assert (b - q) * h > 0.0;
    } else if q > b {
      assert (q - b) * h > 0.0;
    }
  }

  /** A quotient is at least 1/200000 below 20, or not below it at all; likewise above 1/20. */
  lemma RatioGap(held: int, cents: int)
    requires InRange(held) && InRange(cents)
    ensures var q := cents as real / held as real;
      && (cents >= 20 * held ==> q >= 20.0)
      && (cents < 20 * held ==> q <= 20.0 - 1.0 / 200000.0)
      && (20 * cents <= held ==> q <= 1.0 / 20.0)
      && (20 * cents > held ==> q >= 1.0 / 20.0 + 1.0 / 4000000.0)
      && 1.0 / 200000.0 <= q <= 200000.0
  {
    var h, c := held as real, cents as real;
    QuotientBounds(c, h, 20.0);
    QuotientBounds(c, h, 20.0 - 1.0 / 200000.0);
    QuotientBounds(c, h, 1.0 / 20.0);
    QuotientBounds(c, h, 1.0 / 20.0 + 1.0 / 4000000.0);
    QuotientBounds(c, h, 1.0 / 200000.0);
    QuotientBounds(c, h, 200000.0);
    assert cents < 20 * held ==> c <= 20.0 * h - 1.0;
    assert 20 * cents > held ==> 20.0 * c >= h + 1.0;
  }

  /** Rounding never changes the verdict: the float test is the exact one for every pair of valid prices. */
  lemma FloatTestIsExact(fl: real -> real, held: int, cents: int)
    requires IsRounding(fl) && InRange(held) && InRange(cents)
    ensures FloatSpikeSuspect(fl, held, cents) <==> Suspect(held, cents)
  {
    RatioGap(held, cents);
    var q := cents as real / held as real;
    assert q - q * EPS <= fl(q) <= q + q * EPS;
    assert fl(1.0 / 20.0) <= 1.0 / 20.0 + 1.0 / 20.0 * EPS;
    if cents >= 20 * held {
      assert fl(20.0) <= fl(q);
    } else {
      assert q * EPS <= 20.0 * EPS;
    }
    if 20 * cents <= held {
      assert fl(q) <= fl(1.0 / 20.0);
    } else {
      assert (1.0 / 20.0 + 1.0 / 4000000.0) * (1.0 - EPS) <= q * (1.0 - EPS);
    }
  }

  /**
   The 100x unit bug against a held price: it is caught exactly when the true
   price is above 2000 cents, at least a fifth of the held price, or under a
   two-thousandth of it.
   */
  lemma UnitBugCaught(fl: real -> real, held: int, cents: int)
    requires IsRounding(fl) && InRange(held) && cents >= 1
    ensures !InRange(100 * cents) || FloatSpikeSuspect(fl, held, 100 * cents) <==>
      cents > 2000 || held <= 5 * cents || held >= 2000 * cents
  {
    if InRange(100 * cents) {
      FloatTestIsExact(fl, held, 100 * cents);
    }
  }

  /** At exactly 20 dollars the range check alone does not catch the bug: 100 * 2000 is still in range. */
  lemma RangeAloneStartsAbove20Dollars(cents: int)
    requires cents >= 1
    ensures !InRange(100 * cents) <==> cents > 2000
  {}

  lemma ProductBounds(h: real, step: real, p: real)
    requires h >= 0.0 && 0.91 <= step <= 1.09 && p == h * step
    ensures 0.91 * h <= p <= 1.09 * h
  {
    assert (step - 0.91) * h >= 0.0 && (1.09 - step) * h >= 0.0;
  }

  lemma StyledBounds(moved: real)
    ensures var cents := StyledPrice(moved);
      && cents >= 99 && cents % 100 == 99
      && moved - 1.0 <= cents as real
      && (moved >= 0.0 ==> cents as real <= moved + 199.0)
  {}

  lemma FarFromSpike(h: real, moved: real, c: real)
    requires h >= 99.0 && 0.91 * h <= moved <= 1.09 * h
    requires moved - 1.0 <= c <= moved + 199.0
    ensures h < 20.0 * c && c < 20.0 * h
  {}

  lemma MoveIsNotSuspect(held: nat, moved: real)
    requires held >= 99 && 0.91 * held as real <= moved <= 1.09 * held as real
    ensures var cents := StyledPrice(moved); cents >= 99 && cents % 100 == 99 && !Suspect(held, cents)
  {
    StyledBounds(moved);
    FarFromSpike(held as real, moved, StyledPrice(moved) as real);
  }

  lemma StepIsNotSuspect(held: nat, step: real)
    requires held >= 99 && 0.91 <= step <= 1.09
    ensures var cents := MovePrice(held, step); cents >= 99 && cents % 100 == 99 && !Suspect(held, cents)
  {
    ProductBounds(held as real, step, held as real * step);
    MoveIsNotSuspect(held, held as real * step);
  }

  lemma NeitherTestSuspects(fl: real -> real, held: int, cents: int)
    requires IsRounding(fl) && InRange(held) && !Suspect(held, cents)
    ensures InRange(cents) ==> !FloatSpikeSuspect(fl, held, cents)
  {
    if InRange(cents) {
      FloatTestIsExact(fl, held, cents);
    }
  }

  /** One feed move, however its product was rounded, stays far from a spike and keeps the 99-cent form. */
  lemma FeedStepNeverSuspect(fl: real -> real, catalog: seq<Listing>, cur: OfferState, d: Draw)
    requires IsRounding(fl) && 99 <= cur.priceCents <= PRICE_MAX_CENTS && ValidDraw(catalog, d) && !d.flip
    ensures var held, cents := cur.priceCents, MoveOffer(cur, d).priceCents;
      && cents >= 99 && cents % 100 == 99
      && !Suspect(held, cents)
      && (InRange(cents) ==> !FloatSpikeSuspect(fl, held, cents))
  {
    StepIsNotSuspect(cur.priceCents, d.step);
    NeitherTestSuspects(fl, cur.priceCents, MovePrice(cur.priceCents, d.step));
  }
}
