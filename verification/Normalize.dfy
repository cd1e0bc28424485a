/** Feed items and their validation (internal/ingest/normalize.go). Text is ASCII; see README for what that leaves out. */
module Normalization {
  import opened Wrappers
  import opened Prices

  /** A timestamp field: parsed to logical nanoseconds, or not RFC 3339. */
  datatype Stamp = Time(t: int) | BadTime

  datatype PriceToken = NoPrice | JsonNumber(value: real) | JsonString(s: string) | OtherJson

  /** One feed item. A missing field is None, which differs from a zero value. */
  datatype RawItem = RawItem(
    sku: Option<string>, title: Option<string>, brand: Option<string>, category: Option<string>,
    priceCents: Option<int>, price: PriceToken, currency: Option<string>,
    inStock: Option<bool>, updatedAt: Option<Stamp>, url: Option<string>)

  /** The payload as received; what cannot be parsed at all is kept as text. */
  datatype Payload = Parsed(item: RawItem) | Unparseable(text: string)

  datatype Normalized = Normalized(
    sku: string, title: string, brand: string, category: string,
    cents: int, inStock: bool, at: int, url: string, raw: Payload)

  datatype Reason =
    | MissingSku | BadSku | MissingPrice | BadPriceFormat | PriceOutOfRange
    | UnsupportedCurrency | BadTimestamp | FutureTimestamp
    | UnparseableItem | PriceSpike | NoTitle

  const FIVE_MINUTES: int := 300_000_000_000

  predicate IsSpace(c: char) {
    c == ' ' || c == '\t' || c == '\n' || c == '\r' || c == '\U{0B}' || c == '\U{0C}'
  }

  function TrimLeft(s: string): string {
    if s != "" && IsSpace(s[0]) then TrimLeft(s[1..]) else s
  }

  function TrimRight(s: string): string {
    if s != "" && IsSpace(s[|s| - 1]) then TrimRight(s[..|s| - 1]) else s
  }

  function TrimSpace(s: string): string {
    TrimRight(TrimLeft(s))
  }

  function Upper(c: char): char {
    if 'a' <= c <= 'z' then (c as int - 32) as char else c
  }

  predicate IsKey(c: char) {
    'A' <= c <= 'Z' || '0' <= c <= '9'
  }

  /** The upper-cased letters and digits of a text, in order. */
  function Letters(s: string): string {
    if s == "" then ""
    else Letters(s[..|s| - 1]) + (if IsKey(Upper(s[|s| - 1])) then [Upper(s[|s| - 1])] else "")
  }

  method NormalizeSKU(sku: string) returns (key: string)
    ensures key == Letters(sku)
  {
    var trimmed := TrimSpace(sku);
    key := "";
    for i := 0 to |trimmed|
      invariant key == Letters(trimmed[..i])
    {
      assert trimmed[..i + 1][..i] == trimmed[..i];
      var r := Upper(trimmed[i]);
      if IsKey(r) {
        key := key + [r];
      }
    }
    assert trimmed[..|trimmed|] == trimmed;
    TrimKeepsLetters(sku);
  }

  lemma {:induction false} LettersJoin(a: string, b: string)
    ensures Letters(a + b) == Letters(a) + Letters(b)
  {
    if b == "" {
      assert a + b == a;
    } else {
      assert (a + b)[..|a + b| - 1] == a + b[..|b| - 1];
      LettersJoin(a, b[..|b| - 1]);
    }
  }

  lemma {:induction false} TrimLeftKeepsLetters(s: string)
    ensures Letters(TrimLeft(s)) == Letters(s)
    decreases |s|
  {
    if s != "" && IsSpace(s[0]) {
      LettersJoin([s[0]], s[1..]);
      assert s == [s[0]] + s[1..] && [s[0]][..0] == "";
      TrimLeftKeepsLetters(s[1..]);
    }
  }

  lemma {:induction false} TrimRightKeepsLetters(s: string)
    ensures Letters(TrimRight(s)) == Letters(s)
    decreases |s|
  {
    if s != "" && IsSpace(s[|s| - 1]) {
      TrimRightKeepsLetters(s[..|s| - 1]);
    }
  }

  lemma TrimKeepsLetters(s: string)
    ensures Letters(TrimSpace(s)) == Letters(s)
  {
    TrimLeftKeepsLetters(s);
    TrimRightKeepsLetters(TrimLeft(s));
  }

  function ParsePrice(fl: real -> real, raw: RawItem): Result<int, Reason> {
    match raw.priceCents
    case Some(c) => Ok(c)
    case None =>
      match raw.price
      case NoPrice => Err(MissingPrice)
      case OtherJson => Err(BadPriceFormat)
      case JsonNumber(v) => Ok(DollarsToCents(fl, fl(v)))
      case JsonString(s) =>
        match ParseFloat(fl, TrimSpace(s))
        case None => Err(BadPriceFormat)
        case Some(f) => Ok(DollarsToCents(fl, f))
  }

  function TimeOf(raw: RawItem, now: int): Result<int, Reason> {
    match raw.updatedAt
    case None => Ok(now)
    case Some(BadTime) => Err(BadTimestamp)
    case Some(Time(t)) => if t > now + FIVE_MINUTES then Err(FutureTimestamp) else Ok(t)
  }

  function Trimmed(field: Option<string>): string {
    match field
    case None => ""
    case Some(s) => TrimSpace(s)
  }

  function Normalize(fl: real -> real, raw: RawItem, now: int): Result<Normalized, Reason> {
    if raw.sku.None? || TrimSpace(raw.sku.value) == "" then Err(MissingSku)
    else
      var key := Letters(raw.sku.value);
      if |key| < 4 || |key| > 64 then Err(BadSku)
      else
        match ParsePrice(fl, raw)
        case Err(e) => Err(e)
        case Ok(cents) =>
          if !InRange(cents) then Err(PriceOutOfRange)
          else if raw.currency.Some? && raw.currency.value != "USD" then Err(UnsupportedCurrency)
          else
            match TimeOf(raw, now)
            case Err(e) => Err(e)
            case Ok(at) =>
              Ok(Normalized(key, Trimmed(raw.title), Trimmed(raw.brand), Trimmed(raw.category), cents,
                            raw.inStock.None? || raw.inStock.value, at,
                            if raw.url.Some? then raw.url.value else "", Parsed(raw)))
  }

  /** Where the price of an item comes from: whole cents if given, else a number or a text in dollars, rounded to the nearest cent. */
  lemma PriceSource(fl: real -> real, raw: RawItem)
    ensures raw.priceCents.Some? ==> ParsePrice(fl, raw) == Ok(raw.priceCents.value)
    ensures raw.priceCents.None? && raw.price.NoPrice? ==> ParsePrice(fl, raw) == Err(MissingPrice)
    ensures raw.priceCents.None? && raw.price.OtherJson? ==> ParsePrice(fl, raw) == Err(BadPriceFormat)
    ensures raw.priceCents.None? && raw.price.JsonNumber? ==>
      ParsePrice(fl, raw).Ok? && IsNearestCent(fl(fl(raw.price.value) * 100.0), ParsePrice(fl, raw).value)
    ensures raw.priceCents.None? && raw.price.JsonString? ==>
      var v := NumeralValue(TrimSpace(raw.price.s));
      if v.None? then ParsePrice(fl, raw) == Err(BadPriceFormat)
      else ParsePrice(fl, raw).Ok? && IsNearestCent(fl(fl(v.value) * 100.0), ParsePrice(fl, raw).value)
  {}

  lemma BlankHasNoLetters(s: string)
    requires TrimSpace(s) == ""
    ensures Letters(s) == ""
  {
    TrimKeepsLetters(s);
  }

  /** An item is accepted exactly if each of its fields is acceptable on its own. */
  lemma AcceptedExactly(fl: real -> real, raw: RawItem, now: int)
    ensures Normalize(fl, raw, now).Ok? <==>
      && raw.sku.Some? && 4 <= |Letters(raw.sku.value)| <= 64
      && ParsePrice(fl, raw).Ok? && 1 <= ParsePrice(fl, raw).value <= 200_000
      && (raw.currency.None? || raw.currency.value == "USD")
      && (raw.updatedAt.None? || (raw.updatedAt.value.Time? && raw.updatedAt.value.t <= now + 300_000_000_000))
  {
    if raw.sku.Some? && TrimSpace(raw.sku.value) == "" {
      BlankHasNoLetters(raw.sku.value);
    }
  }

  /** What an accepted item carries on: each value from its own field, with the defaults for missing ones. */
  lemma AcceptedCarries(fl: real -> real, raw: RawItem, now: int)
    requires Normalize(fl, raw, now).Ok?
    ensures var n := Normalize(fl, raw, now).value;
      && n.sku == Letters(raw.sku.value) && ParsePrice(fl, raw) == Ok(n.cents) && n.raw == Parsed(raw)
      && n.at == (if raw.updatedAt.None? then now else raw.updatedAt.value.t)
      && (n.inStock <==> raw.inStock != Some(false))
      && n.url == (if raw.url.None? then "" else raw.url.value)
      && n.title == (if raw.title.None? then "" else TrimSpace(raw.title.value))
      && n.brand == (if raw.brand.None? then "" else TrimSpace(raw.brand.value))
      && n.category == (if raw.category.None? then "" else TrimSpace(raw.category.value))
  {}

  /** A rejection names the first condition that fails, in the order key, price, currency, timestamp. */
  lemma RejectionNamesFirstFailure(fl: real -> real, raw: RawItem, now: int)
    ensures var r, price := Normalize(fl, raw, now), ParsePrice(fl, raw);
      var named := raw.sku.Some? && TrimSpace(raw.sku.value) != "";
      var keyed := named && 4 <= |Letters(raw.sku.value)| <= 64;
      var priced := keyed && price.Ok?;
      var ranged := priced && 1 <= price.value <= 200_000;
      var paid := ranged && (raw.currency.None? || raw.currency.value == "USD");
      var readable := paid && (raw.updatedAt.None? || raw.updatedAt.value.Time?);
      && (r == Err(MissingSku) <==> !named)
      && (r == Err(BadSku) <==> named && !keyed)
      && (keyed && !priced ==> r == Err(price.error))
      && (r == Err(MissingPrice) || r == Err(BadPriceFormat) <==> keyed && !priced)
      && (r == Err(PriceOutOfRange) <==> priced && !ranged)
      && (r == Err(UnsupportedCurrency) <==> ranged && !paid)
      && (r == Err(BadTimestamp) <==> paid && !readable)
      && (r == Err(FutureTimestamp) <==> readable && raw.updatedAt.Some? && raw.updatedAt.value.t > now + 300_000_000_000)
  {}

  lemma {:induction false} TrimLeftExact(s: string) returns (k: nat)
    ensures k <= |s| && TrimLeft(s) == s[k..] && (forall j :: 0 <= j < k ==> IsSpace(s[j]))
    ensures TrimLeft(s) != "" ==> !IsSpace(TrimLeft(s)[0])
    decreases |s|
  {
    k := 0;
    if s != "" && IsSpace(s[0]) {
      var rest := TrimLeftExact(s[1..]);
      k := rest + 1;
      assert forall j :: 0 < j < k ==> s[j] == s[1..][j - 1];
    }
  }

  lemma {:induction false} TrimRightExact(s: string) returns (k: nat)
    ensures k <= |s| && TrimRight(s) == s[..k] && (forall j :: k <= j < |s| ==> IsSpace(s[j]))
    ensures TrimRight(s) != "" ==> !IsSpace(TrimRight(s)[|TrimRight(s)| - 1])
    decreases |s|
  {
    k := |s|;
    if s != "" && IsSpace(s[|s| - 1]) {
      k := TrimRightExact(s[..|s| - 1]);
    } else {
      assert s[..|s|] == s;
    }
  }

  /** Trimming cuts off exactly the spaces at both ends. */
  lemma TrimExact(s: string) returns (lo: nat, hi: nat)
    ensures lo <= hi <= |s| && TrimSpace(s) == s[lo..hi]
    ensures forall j :: 0 <= j < lo || hi <= j < |s| ==> IsSpace(s[j])
    ensures TrimSpace(s) != "" ==> !IsSpace(s[lo]) && !IsSpace(s[hi - 1])
  {
    lo := TrimLeftExact(s);
    var n := TrimRightExact(TrimLeft(s));
    hi := lo + n;
    assert forall j :: lo <= j < |s| ==> s[j] == TrimLeft(s)[j - lo];
  }

  /** Everything accepted is inside the bounds that later stages rely on. */
  lemma AcceptedIsBounded(fl: real -> real, raw: RawItem, now: int)
    requires Normalize(fl, raw, now).Ok?
    ensures var n := Normalize(fl, raw, now).value;
      && InRange(n.cents) && n.at <= now + FIVE_MINUTES && 4 <= |n.sku| <= 64
      && (forall c :: c in n.sku ==> IsKey(c))
  {
    LettersAreKeys(raw.sku.value);
  }

  lemma {:induction false} LettersAreKeys(s: string)
    ensures forall c :: c in Letters(s) ==> IsKey(c)
  {
    if s != "" {
      LettersAreKeys(s[..|s| - 1]);
    }
  }
}
