/** The persisted cursor text (internal/ingest/worker.go:29-43, 210-237). */
module CursorCodec {
  datatype Phase = Catalog | Offers

  datatype CursorState = CursorState(phase: Phase, epoch: nat, catCursor: int, seqNo: nat)

  const FRESH := CursorState(Catalog, 0, 0, 0)

  const MAX_UINT64: nat := 0xFFFF_FFFF_FFFF_FFFF
  const MAX_INT64: int := 0x7FFF_FFFF_FFFF_FFFF

  /** The values the source's field types can hold. */
  predicate FitsWidths(cs: CursorState) {
    cs.epoch <= MAX_UINT64 && cs.seqNo <= MAX_UINT64 && -MAX_INT64 - 1 <= cs.catCursor <= MAX_INT64
  }

  function Digit(d: nat): char
    requires d < 10
  {
    "0123456789"[d]
  }

  /** Decimal text of a natural number, most significant digit first. */
  function Decimal(n: nat): (s: string)
    ensures s != "" && forall c :: c in s ==> '0' <= c <= '9'
  {
    if n < 10 then [Digit(n)] else Decimal(n / 10) + [Digit(n % 10)]
  }

  function SignedDecimal(n: int): string {
    if n < 0 then "-" + Decimal(-n) else Decimal(n)
  }

  /** Fields separated by colons. */
  function Join(parts: seq<string>): string
    requires parts != []
  {
    if |parts| == 1 then parts[0] else parts[0] + ":" + Join(parts[1..])
  }

  function Fields(cs: CursorState): seq<string> {
    match cs.phase
    case Catalog => ["catalog", Decimal(cs.epoch), SignedDecimal(cs.catCursor), Decimal(cs.seqNo)]
    case Offers => ["offers", Decimal(cs.epoch), Decimal(cs.seqNo)]
  }

  function Encode(cs: CursorState): string {
    Join(Fields(cs))
  }

  /** strings.Split on ':'. */
  function Split(s: string): (parts: seq<string>)
    ensures |parts| >= 1
  {
    if s == "" then [""]
    else
      var rest := Split(s[1..]);
      if s[0] == ':' then [""] + rest else [[s[0]] + rest[0]] + rest[1..]
  }

  datatype Parsed = Value(n: nat) | TooLarge | Malformed

  /** strconv.ParseUint in base 10 from left to right; the first problem met decides the error. */
  function ScanUint(s: string, acc: nat): Parsed {
    if s == "" then Value(acc)
    else if !('0' <= s[0] <= '9') then Malformed
    else
      var next := acc * 10 + (s[0] as int - '0' as int);
      if next > MAX_UINT64 then TooLarge else ScanUint(s[1..], next)
  }

  function ScanDigits(s: string): Parsed {
    if s == "" then Malformed else ScanUint(s, 0)
  }

  /** The value ParseUint returns when its error is ignored. */
  function ParseUint(s: string): nat {
    match ScanDigits(s)
    case Value(n) => n
    case TooLarge => MAX_UINT64
    case Malformed => 0
  }

  /** The value Atoi returns when its error is ignored: out of range saturates, malformed is 0. */
  function ParseInt(s: string): int {
    var neg := s != "" && s[0] == '-';
    var digits := if s != "" && (s[0] == '-' || s[0] == '+') then s[1..] else s;
    match ScanDigits(digits)
    case Malformed => 0
    case TooLarge => if neg then -MAX_INT64 - 1 else MAX_INT64
    case Value(n) =>
      if neg then if n > MAX_INT64 + 1 then -MAX_INT64 - 1 else 0 - n
      else if n > MAX_INT64 then MAX_INT64 else n
  }

  function Parse(text: string): CursorState {
    var parts := Split(text);
    if |parts| == 4 && parts[0] == "catalog" then
      CursorState(Catalog, ParseUint(parts[1]), ParseInt(parts[2]), ParseUint(parts[3]))
    else if |parts| == 3 && parts[0] == "offers" then
      CursorState(Offers, ParseUint(parts[1]), 0, ParseUint(parts[2]))
    else FRESH
  }

  lemma {:induction false} ScanAppended(a: string, b: string, acc: nat)
    requires forall c :: c in a ==> '0' <= c <= '9'
    ensures !ScanUint(a, acc).Malformed?
    ensures ScanUint(a + b, acc) == if ScanUint(a, acc).Value? then ScanUint(b, ScanUint(a, acc).n) else TooLarge
  {
    if a == "" {
      assert a + b == b;
    } else {
      assert (a + b)[1..] == a[1..] + b;
      assert a[0] in a && forall c :: c in a[1..] ==> c in a;
      var next := acc * 10 + (a[0] as int - '0' as int);
      if next <= MAX_UINT64 {
        ScanAppended(a[1..], b, next);
      }
    }
  }

  lemma {:induction false} ScanDecimal(n: nat)
    ensures ScanUint(Decimal(n), 0) == if n <= MAX_UINT64 then Value(n) else TooLarge
  {
    if n < 10 {
      assert Decimal(n)[1..] == "";
    } else {
      ScanDecimal(n / 10);
      var last := [Digit(n % 10)];
      ScanAppended(Decimal(n / 10), last, 0);
      assert last[1..] == "";
    }
  }

  /** A printed number reads back as itself, or as the greatest one its field can hold. */
  lemma UintSaturates(n: nat)
    ensures ParseUint(Decimal(n)) == if n <= MAX_UINT64 then n else MAX_UINT64
  {
    ScanDecimal(n);
  }

  /** The same for signed numbers, at both ends. */
  lemma IntSaturates(n: int)
    ensures ParseInt(SignedDecimal(n)) == if n > MAX_INT64 then MAX_INT64 else if n < -MAX_INT64 - 1 then -MAX_INT64 - 1 else n
  {
    ScanDecimal(if n < 0 then -n else n);
    if n < 0 {
      assert SignedDecimal(n)[1..] == Decimal(-n);
    } else {
      assert SignedDecimal(n)[0] in Decimal(n);
    }
  }

  /** A field with a character that is no digit counts as 0, unless the digits before it are already too large. */
  lemma UnreadableNumberIsZero(a: string, c: char, rest: string)
    requires (forall d :: d in a ==> '0' <= d <= '9') && !('0' <= c <= '9')
    ensures ParseUint(a + [c] + rest) == if ScanUint(a, 0).Value? then 0 else MAX_UINT64
  {
    assert a + [c] + rest == a + ([c] + rest);
    ScanAppended(a, [c] + rest, 0);
  }

  lemma {:induction false} SplitAtColon(a: string, b: string)
    requires ':' !in a
    ensures Split(a) == [a]
    ensures Split(a + ":" + b) == [a] + Split(b)
  {
    if a == "" {
      assert (a + ":" + b)[1..] == b;
    } else {
      assert a == [a[0]] + a[1..];
      SplitAtColon(a[1..], b);
      assert (a + ":" + b)[1..] == a[1..] + ":" + b;
    }
  }

  /** Splitting undoes joining as long as no field holds a colon. */
  lemma {:induction false} SplitJoin(parts: seq<string>)
    requires parts != [] && forall k :: 0 <= k < |parts| ==> ':' !in parts[k]
    ensures Split(Join(parts)) == parts
  {
    if |parts| == 1 {
      SplitAtColon(parts[0], "");
    } else {
      var rest := parts[1..];
      assert forall k :: 0 <= k < |rest| ==> rest[k] == parts[k + 1];
      SplitJoin(rest);
      SplitAtColon(parts[0], Join(rest));
      assert parts == [parts[0]] + rest;
    }
  }

  /** The positions a stored text can stand for. */
  predicate Restorable(cs: CursorState) {
    FitsWidths(cs) && (cs.phase == Offers ==> cs.catCursor == 0)
  }

  lemma JoinThree(a: string, b: string, c: string)
    ensures Join([a, b, c]) == a + ":" + b + ":" + c
  {
    var s, t := [a, b, c], [b, c];
    assert s[1..] == t && t[1..] == [c];
    assert Join(t) == b + ":" + c;
    assert a + ":" + (b + ":" + c) == a + ":" + b + ":" + c;
  }

  lemma JoinFour(a: string, b: string, c: string, d: string)
    ensures Join([a, b, c, d]) == a + ":" + b + ":" + c + ":" + d
  {
    JoinThree(b, c, d);
    assert [a, b, c, d][1..] == [b, c, d];
    assert a + ":" + (b + ":" + c + ":" + d) == a + ":" + b + ":" + c + ":" + d;
  }

  /** The text itself. */
  lemma EncodeText(cs: CursorState)
    ensures Encode(cs) ==
      if cs.phase == Catalog
      then "catalog" + ":" + Decimal(cs.epoch) + ":" + SignedDecimal(cs.catCursor) + ":" + Decimal(cs.seqNo)
      else "offers" + ":" + Decimal(cs.epoch) + ":" + Decimal(cs.seqNo)
  {
    JoinFour("catalog", Decimal(cs.epoch), SignedDecimal(cs.catCursor), Decimal(cs.seqNo));
    JoinThree("offers", Decimal(cs.epoch), Decimal(cs.seqNo));
  }

  /**
   Saving and loading gives the position back exactly when a position in the
   offers phase carries no catalog index, which is what ending a sync leaves.
   */
  lemma RoundTrip(cs: CursorState)
    requires FitsWidths(cs)
    ensures Parse(Encode(cs)) == cs <==> (cs.phase == Offers ==> cs.catCursor == 0)
  {
    SplitJoin(Fields(cs));
    UintSaturates(cs.epoch);
    UintSaturates(cs.seqNo);
    IntSaturates(cs.catCursor);
  }

  /** Two positions share a text only if they differ in nothing but an unused catalog index. */
  lemma EncodeInjective(a: CursorState, b: CursorState)
    requires FitsWidths(a) && FitsWidths(b) && Encode(a) == Encode(b)
    ensures a.phase == b.phase && a.epoch == b.epoch && a.seqNo == b.seqNo
    ensures a.phase == Catalog ==> a == b
  {
    SplitJoin(Fields(a));
    SplitJoin(Fields(b));
    UintSaturates(a.epoch);
    UintSaturates(a.seqNo);
    IntSaturates(a.catCursor);
    UintSaturates(b.epoch);
    UintSaturates(b.seqNo);
    IntSaturates(b.catCursor);
  }

  function Colons(s: string): nat {
    if s == "" then 0 else (if s[0] == ':' then 1 else 0) + Colons(s[1..])
  }

  lemma {:induction false} SplitCountsColons(s: string)
    ensures |Split(s)| == Colons(s) + 1
    ensures Split(s)[0] <= s && (|Split(s)| > 1 ==> Split(s)[0] + ":" <= s)
  {
    if s != "" {
      SplitCountsColons(s[1..]);
      assert s == [s[0]] + s[1..];
    }
  }

  /** Text with a foreign tag or the wrong number of fields starts a fresh sync, pre-epoch formats included. */
  lemma ForeignTextStartsFresh(text: string)
    requires !("catalog:" <= text && Colons(text) == 3) && !("offers:" <= text && Colons(text) == 2)
    ensures Parse(text) == FRESH
  {
    SplitCountsColons(text);
    assert "catalog" + ":" == "catalog:" && "offers" + ":" == "offers:";
  }
}
