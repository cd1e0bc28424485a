/**
 What a feed puts on the wire (internal/feedgen/server.go:154-228) and that its
 presentation quirks are invisible after normalization.
 */
module FeedWire {
  import opened Floats
  import opened Wrappers
  import opened CursorCodec
  import opened Prices
  import opened Normalization

  datatype PriceFormat = CentsFormat | FloatFormat | StringFormat

  datatype SkuStyle = Canonical | Lower | Dashed

  datatype Mangle = LowerCase | Underscores | TrailingSpace

  datatype MissingField = TitleField | CurrencyField | UpdatedAtField

  /**
   The random choices of one appendItem call. `token` is the exact value of the
   JSON number printed for a float price.
   */
  datatype Quirk = Quirk(
    badPrice: bool, currency: string, staleBy: nat, style: SkuStyle, format: PriceFormat, token: real,
    missing: Option<MissingField>, dupe: Option<Mangle>)

  /** Go prints a float64 so that it reads back as the same float64. */
  predicate TokenReadsBack(fl: real -> real, cents: int, q: Quirk) {
    q.format.FloatFormat? ==> fl(q.token) == fl(cents as real / 100.0)
  }

  /** Quirks of presentation only: the value, its currency and its timestamp are left alone. */
  predicate PresentationOnly(fl: real -> real, cents: int, q: Quirk) {
    && !q.badPrice && q.currency == "USD" && q.staleBy == 0
    && q.missing != Some(UpdatedAtField) && TokenReadsBack(fl, cents, q)
  }

  function Zeros(n: nat): string {
    if n == 0 then "" else Zeros(n - 1) + "0"
  }

  /** "%08d" */
  function Pad8(i: nat): string {
    var d := Decimal(i);
    if |d| < 8 then Zeros(8 - |d|) + d else d
  }

  function ProductSKU(i: nat): string {
    "DS-" + Pad8(i)
  }

  function LowerAll(s: string): string {
    if s == "" then ""
    else
      var c := s[|s| - 1];
      LowerAll(s[..|s| - 1]) + [if 'A' <= c <= 'Z' then (c as int + 32) as char else c]
  }

  function DashesToUnderscores(s: string): string {
    if s == "" then ""
    else DashesToUnderscores(s[..|s| - 1]) + [if s[|s| - 1] == '-' then '_' else s[|s| - 1]]
  }

  /** strings.ReplaceAll(s, "DS-", "DS--") */
  function DoubleDashes(s: string): string
    decreases |s|
  {
    if |s| >= 3 && s[..3] == "DS-" then "DS--" + DoubleDashes(s[3..])
    else if s == "" then ""
    else [s[0]] + DoubleDashes(s[1..])
  }

  function StyleSKU(s: string, style: SkuStyle): string {
    match style
    case Canonical => s
    case Lower => LowerAll(s)
    case Dashed => DoubleDashes(s)
  }

  function MangleSKU(s: string, m: Mangle): string {
    match m
    case LowerCase => LowerAll(s)
    case Underscores => DashesToUnderscores(s)
    case TrailingSpace => s + " "
  }

  /** Descriptive fields of a product. */
  datatype Info = Info(title: string, brand: string, category: string, url: string)

  method AppendItem(items: seq<RawItem>, i: nat, info: Info, cents: nat, inStock: bool, at: int, q: Quirk)
    returns (items': seq<RawItem>)
    ensures items' == items + Serialized(i, info, cents, inStock, at, q)
  {
    var priceCents, stamp := cents, at;
    if q.badPrice {
      priceCents := priceCents * 100;
    }
    stamp := stamp - q.staleBy;
    var item := RawItem(Some(StyleSKU(ProductSKU(i), q.style)), Some(info.title), Some(info.brand), Some(info.category),
                        None, NoPrice, Some(q.currency), Some(inStock), Some(Time(stamp)), Some(info.url));
    match q.format {
      case FloatFormat => item := item.(price := JsonNumber(q.token));
      case StringFormat => item := item.(price := JsonString(PriceText(priceCents)));
      case CentsFormat => item := item.(priceCents := Some(priceCents));
    }
    match q.missing {
      case None =>
      case Some(TitleField) => item := item.(title := None);
      case Some(CurrencyField) => item := item.(currency := None);
      case Some(UpdatedAtField) => item := item.(updatedAt := None);
    }
    items' := items + [item];
    if q.dupe.Some? {
      items' := items' + [item.(sku := Some(MangleSKU(ProductSKU(i), q.dupe.value)))];
    }
  }

  /** The item, and after it possibly a near-duplicate that differs in its SKU only. */
  function Serialized(i: nat, info: Info, cents: nat, inStock: bool, at: int, q: Quirk): seq<RawItem> {
    var c := if q.badPrice then cents * 100 else cents;
    var item := RawItem(
      Some(StyleSKU(ProductSKU(i), q.style)),
      if q.missing == Some(TitleField) then None else Some(info.title), Some(info.brand), Some(info.category),
      if q.format.CentsFormat? then Some(c) else None,
      match q.format
        case CentsFormat => NoPrice
        case FloatFormat => JsonNumber(q.token)
        case StringFormat => JsonString(PriceText(c)),
      if q.missing == Some(CurrencyField) then None else Some(q.currency), Some(inStock),
      if q.missing == Some(UpdatedAtField) then None else Some(Time(at - q.staleBy)), Some(info.url));
    [item] + match q.dupe
             case None => []
             case Some(m) => [item.(sku := Some(MangleSKU(ProductSKU(i), m)))]
  }

  // --- every variant of a SKU has the same key ---

  lemma {:induction false} LowerAllKeepsLetters(s: string)
    ensures Letters(LowerAll(s)) == Letters(s)
  {
    if s != "" {
      LowerAllKeepsLetters(s[..|s| - 1]);
      assert LowerAll(s)[..|LowerAll(s)| - 1] == LowerAll(s[..|s| - 1]);
    }
  }

  lemma {:induction false} UnderscoresKeepLetters(s: string)
    ensures Letters(DashesToUnderscores(s)) == Letters(s)
  {
    if s != "" {
      UnderscoresKeepLetters(s[..|s| - 1]);
      assert DashesToUnderscores(s)[..|DashesToUnderscores(s)| - 1] == DashesToUnderscores(s[..|s| - 1]);
    }
  }

  lemma DashDropped(a: string, b: string)
    requires Letters(a) == Letters(b)
    ensures Letters("DS--" + a) == Letters("DS-" + b)
  {
    LettersJoin("DS--", a);
    LettersJoin("DS-", b);
    assert "DS--"[..3] == "DS-";
  }

  lemma {:induction false} DoubleDashesKeepLetters(s: string)
    ensures Letters(DoubleDashes(s)) == Letters(s)
    decreases |s|
  {
    if |s| >= 3 && s[..3] == "DS-" {
      DoubleDashesKeepLetters(s[3..]);
      DashDropped(DoubleDashes(s[3..]), s[3..]);
      assert s == "DS-" + s[3..];
    } else if s != "" {
      DoubleDashesKeepLetters(s[1..]);
      LettersJoin([s[0]], DoubleDashes(s[1..]));
      LettersJoin([s[0]], s[1..]);
      assert s == [s[0]] + s[1..];
    }
  }

  /** Styling and mangling never change the key, for any SKU text. */
  lemma VariantsCollapse(s: string, style: SkuStyle, m: Mangle)
    ensures Letters(StyleSKU(s, style)) == Letters(s)
    ensures Letters(MangleSKU(s, m)) == Letters(s)
  {
    LowerAllKeepsLetters(s);
    UnderscoresKeepLetters(s);
    DoubleDashesKeepLetters(s);
    LettersJoin(s, " ");
    assert " "[..0] == "";
  }

  // --- the key identifies the product ---

  function Key(i: nat): string {
    "DS" + Pad8(i)
  }

  lemma {:induction false} LettersOfKeys(s: string)
    requires forall c :: c in s ==> IsKey(c)
    ensures Letters(s) == s
  {
    if s != "" {
      LettersOfKeys(s[..|s| - 1]);
      assert s == s[..|s| - 1] + [s[|s| - 1]] && s[|s| - 1] in s;
    }
  }

  lemma {:induction false} ZerosAreDigits(n: nat)
    ensures |Zeros(n)| == n && forall c :: c in Zeros(n) ==> c == '0'
  {
    if n > 0 {
      ZerosAreDigits(n - 1);
    }
  }

  lemma {:induction false} ScanZeros(n: nat, s: string)
    ensures ScanUint(Zeros(n) + s, 0) == ScanUint(s, 0)
  {
    if n == 0 {
      assert Zeros(0) + s == s;
    } else {
      ScanZeros(n - 1, "0" + s);
      assert Zeros(n) + s == Zeros(n - 1) + ("0" + s);
      assert ("0" + s)[1..] == s;
    }
  }

  lemma PadReadsBack(i: nat)
    requires i <= MAX_UINT64
    ensures ScanUint(Pad8(i), 0) == Value(i)
    ensures forall c :: c in Pad8(i) ==> '0' <= c <= '9'
    ensures |Pad8(i)| >= 8
  {
    ScanDecimal(i);
    var d := Decimal(i);
    if |d| < 8 {
      ScanZeros(8 - |d|, d);
      ZerosAreDigits(8 - |d|);
    }
  }

  function Pow10(k: nat): nat {
    if k == 0 then 1 else 10 * Pow10(k - 1)
  }

  lemma {:induction false} DecimalLength(n: nat, k: nat)
    requires k > 0 && n < Pow10(k)
    ensures |Decimal(n)| <= k
  {
    if n >= 10 {
      assert k > 1 by {
        assert Pow10(1) == 10 * Pow10(0);
      }
      DecimalLength(n / 10, k - 1);
    }
  }

  lemma Pow10Of20()
    ensures Pow10(20) == 100_000_000_000_000_000_000
  {
    assert Pow10(4) == 10_000;
    assert Pow10(8) == 100_000_000;
    assert Pow10(12) == 1_000_000_000_000;
    assert Pow10(16) == 10_000_000_000_000_000;
  }

  lemma PadLength(i: nat)
    requires i <= MAX_UINT64
    ensures |Pad8(i)| <= 20
  {
    Pow10Of20();
    DecimalLength(i, 20);
    if |Decimal(i)| < 8 {
      ZerosAreDigits(8 - |Decimal(i)|);
    }
  }

  predicate AllDigits(s: string) {
    forall i :: 0 <= i < |s| ==> '0' <= s[i] <= '9'
  }

  lemma {:induction false} DigitsStay(s: string)
    requires AllDigits(s)
    ensures LowerAll(s) == s && DashesToUnderscores(s) == s
  {
    if s != "" {
      assert s == s[..|s| - 1] + [s[|s| - 1]];
      DigitsStay(s[..|s| - 1]);
    }
  }

  lemma {:induction false} DigitsStaySingle(s: string)
    requires AllDigits(s)
    ensures DoubleDashes(s) == s
  {
    if s != "" {
      assert s == [s[0]] + s[1..];
      assert |s| >= 3 ==> s[..3][0] == s[0];
      DigitsStaySingle(s[1..]);
    }
  }

  lemma {:induction false} VariantsJoin(a: string, b: string)
    ensures LowerAll(a + b) == LowerAll(a) + LowerAll(b)
    ensures DashesToUnderscores(a + b) == DashesToUnderscores(a) + DashesToUnderscores(b)
  {
    if b == "" {
      assert a + b == a;
    } else {
      assert (a + b)[..|a + b| - 1] == a + b[..|b| - 1];
      VariantsJoin(a, b[..|b| - 1]);
    }
  }

  lemma PrefixVariants()
    ensures LowerAll("DS-") == "ds-" && DashesToUnderscores("DS-") == "DS_"
  {
    assert "DS-"[..2] == "DS" && "DS"[..1] == "D" && "D"[..0] == "";
    assert LowerAll("D") == "d" && LowerAll("DS") == "ds";
    assert DashesToUnderscores("D") == "D" && DashesToUnderscores("DS") == "DS";
  }

  lemma Pow10Of8()
    ensures Pow10(8) == 100_000_000
  {
    assert Pow10(4) == 10_000;
  }

  lemma PadWidth(i: nat)
    requires i < 100_000_000
    ensures |Pad8(i)| == 8
  {
    Pow10Of8();
    DecimalLength(i, 8);
    var d := Decimal(i);
    if |d| < 8 {
      ZerosAreDigits(8 - |d|);
    }
  }

  lemma DigitByDigit(s: string)
    requires forall c :: c in s ==> '0' <= c <= '9'
    ensures AllDigits(s)
  {
    assert forall k :: 0 <= k < |s| ==> s[k] in s;
  }

  lemma PrefixedVariants(digits: string)
    requires AllDigits(digits)
    ensures LowerAll("DS-" + digits) == "ds-" + digits && DashesToUnderscores("DS-" + digits) == "DS_" + digits
    ensures DoubleDashes("DS-" + digits) == "DS--" + digits
  {
    DigitsStay(digits);
    DigitsStaySingle(digits);
    VariantsJoin("DS-", digits);
    PrefixVariants();
    assert ("DS-" + digits)[..3] == "DS-" && ("DS-" + digits)[3..] == digits;
  }

  /** The six ways a SKU is printed. */
  lemma VariantsPrinted(i: nat)
    requires i <= MAX_UINT64
    ensures var sku, digits := ProductSKU(i), Pad8(i);
      && sku == "DS-" + digits && |digits| >= 8 && (i < 100_000_000 ==> |digits| == 8)
      && StyleSKU(sku, Canonical) == sku && StyleSKU(sku, Lower) == "ds-" + digits && StyleSKU(sku, Dashed) == "DS--" + digits
      && MangleSKU(sku, LowerCase) == "ds-" + digits && MangleSKU(sku, Underscores) == "DS_" + digits
      && MangleSKU(sku, TrailingSpace) == sku + " "
  {
    PadReadsBack(i);
    if i < 100_000_000 {
      PadWidth(i);
    }
    DigitByDigit(Pad8(i));
    PrefixedVariants(Pad8(i));
  }

  lemma LettersOfPrefix()
    ensures Letters("DS-") == "DS"
  {
    assert "DS-"[..2] == "DS" && "DS"[..1] == "D" && "D"[..0] == "";
  }

  lemma LettersOfProductSKU(i: nat)
    requires i <= MAX_UINT64
    ensures Letters(ProductSKU(i)) == Key(i)
  {
    LettersJoin("DS-", Pad8(i));
    LettersOfPrefix();
    PadReadsBack(i);
    LettersOfKeys(Pad8(i));
  }

  /** Every SKU a feed prints for product i has the key of i, and different products have different keys. */
  lemma KeyIdentifies(i: nat, style: SkuStyle, m: Mangle)
    requires i <= MAX_UINT64
    ensures Letters(StyleSKU(ProductSKU(i), style)) == Key(i)
    ensures Letters(MangleSKU(ProductSKU(i), m)) == Key(i)
  {
    VariantsCollapse(ProductSKU(i), style, m);
    LettersOfProductSKU(i);
  }

  lemma KeyInjective(i: nat, j: nat)
    requires i <= MAX_UINT64 && j <= MAX_UINT64 && Key(i) == Key(j)
    ensures i == j
  {
    assert Key(i)[2..] == Pad8(i) && Key(j)[2..] == Pad8(j);
    PadReadsBack(i);
    PadReadsBack(j);
  }

  // --- normalization sees through the quirks ---

  lemma PriceTextIsTrim(cents: nat)
    requires cents <= MAX_UINT64
    ensures TrimSpace(PriceText(cents)) == PriceText(cents)
  {
    PriceTextScans(cents);
    var s := PriceText(cents);
    assert s[|s| - 1] == Digit(cents % 10);
  }

  lemma KeyAccepted(sku: string, i: nat)
    requires i <= MAX_UINT64 && Letters(sku) == Key(i)
    ensures TrimSpace(sku) != "" && 4 <= |Letters(sku)| <= 64
  {
    PadReadsBack(i);
    PadLength(i);
    TrimKeepsLetters(sku);
  }

  lemma QuirkyPrice(fl: real -> real, raw: RawItem, cents: nat, q: Quirk)
    requires IsRounding(fl) && cents <= 0x4_0000_0000_0000 && TokenReadsBack(fl, cents, q)
    requires raw.priceCents == (if q.format.CentsFormat? then Some(cents) else None)
    requires q.format.FloatFormat? ==> raw.price == JsonNumber(q.token)
    requires q.format.StringFormat? ==> raw.price == JsonString(PriceText(cents))
    ensures ParsePrice(fl, raw) == Ok(cents)
  {
    match q.format
    case CentsFormat =>
    case FloatFormat => DollarsRoundTrip(fl, cents);
    case StringFormat =>
      PriceTextIsTrim(cents);
      WireFormatsAgree(fl, cents, cents as real / 100.0);
  }

  /** The amount on the wire: the unit bug sends a hundred times the price. */
  function Amount(cents: nat, q: Quirk): (c: nat)
    ensures c == if q.badPrice then 100 * cents else cents
  {
    if q.badPrice then cents * 100 else cents
  }

  /** What each quirk does to the item, and that nothing else is touched. */
  lemma QuirksShow(i: nat, info: Info, cents: nat, inStock: bool, at: int, q: Quirk, k: nat)
    requires k < |Serialized(i, info, cents, inStock, at, q)|
    ensures k <= 1 && (k == 1 ==> q.dupe.Some?)
    ensures var raw := Serialized(i, info, cents, inStock, at, q)[k];
      && raw.title == (if q.missing == Some(TitleField) then None else Some(info.title))
      && raw.brand == Some(info.brand) && raw.category == Some(info.category) && raw.url == Some(info.url)
      && raw.inStock == Some(inStock)
      && raw.currency == (if q.missing == Some(CurrencyField) then None else Some(q.currency))
      && raw.updatedAt == (if q.missing == Some(UpdatedAtField) then None else Some(Time(at - q.staleBy)))
      && raw.priceCents == (if q.format.CentsFormat? then Some(Amount(cents, q)) else None)
      && (q.format.FloatFormat? ==> raw.price == JsonNumber(q.token))
      && (q.format.StringFormat? ==> raw.price == JsonString(PriceText(Amount(cents, q))))
      && (i <= MAX_UINT64 ==> raw.sku.Some? && Letters(raw.sku.value) == Key(i))
  {
    if i <= MAX_UINT64 {
      KeyIdentifies(i, q.style, if q.dupe.Some? then q.dupe.value else LowerCase);
    }
  }

  /**
   What becomes of an item under any combination of quirks. A hundredfold price out of
   range, a foreign currency that is not missing and a timestamp too far ahead reject
   it, in this order; otherwise it is taken at the amount sent, at its time less what it
   is stale by, or at the present if that is missing, with its own key, stock and text.
   */
  lemma QuirkOutcome(fl: real -> real, i: nat, info: Info, cents: nat, inStock: bool, at: int, q: Quirk, now: int, k: nat)
    requires IsRounding(fl) && i <= MAX_UINT64 && Amount(cents, q) <= 0x4_0000_0000_0000 && TokenReadsBack(fl, Amount(cents, q), q)
    requires k < |Serialized(i, info, cents, inStock, at, q)|
    ensures var r := Normalize(fl, Serialized(i, info, cents, inStock, at, q)[k], now);
      var sent := if q.badPrice then 100 * cents else cents;
      if sent < 1 || sent > 200_000 then r == Err(PriceOutOfRange)
      else if q.missing != Some(CurrencyField) && q.currency != "USD" then r == Err(UnsupportedCurrency)
      else if q.missing != Some(UpdatedAtField) && at - q.staleBy > now + FIVE_MINUTES then r == Err(FutureTimestamp)
      else
        && r.Ok? && r.value.sku == Key(i) && r.value.cents == sent && r.value.inStock == inStock
        && r.value.at == (if q.missing == Some(UpdatedAtField) then now else at - q.staleBy)
        && r.value.title == (if q.missing == Some(TitleField) then "" else TrimSpace(info.title))
        && r.value.brand == TrimSpace(info.brand) && r.value.category == TrimSpace(info.category) && r.value.url == info.url
  {
    var raw := Serialized(i, info, cents, inStock, at, q)[k];
    QuirksShow(i, info, cents, inStock, at, q, k);
    KeyAccepted(raw.sku.value, i);
    QuirkyPrice(fl, raw, Amount(cents, q), q);
  }

  /**
   Whatever SKU style, price format, near-duplicate or missing title or currency
   the feed throws in, each item it emits for an offer normalizes to that offer:
   the product's key, the exact price, the stock flag, the timestamp and the texts.
   */
  lemma PresentationIsInvisible(fl: real -> real, i: nat, info: Info, cents: nat, inStock: bool, at: int, q: Quirk, now: int, k: nat)
    requires IsRounding(fl) && i <= MAX_UINT64 && InRange(cents) && at <= now + FIVE_MINUTES
    requires PresentationOnly(fl, cents, q) && k < |Serialized(i, info, cents, inStock, at, q)|
    ensures var r := Normalize(fl, Serialized(i, info, cents, inStock, at, q)[k], now);
      && r.Ok? && r.value.sku == Key(i) && r.value.cents == cents && r.value.inStock == inStock && r.value.at == at
      && r.value.title == (if q.missing == Some(TitleField) then "" else TrimSpace(info.title))
      && r.value.brand == TrimSpace(info.brand) && r.value.category == TrimSpace(info.category) && r.value.url == info.url
  {
    QuirkOutcome(fl, i, info, cents, inStock, at, q, now, k);
  }
}
