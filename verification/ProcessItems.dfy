/** What becomes of the items of one page (internal/ingest/worker.go:133-208). */
module ProcessItems {
  import opened Wrappers
  import opened Normalization
  import opened OfferStore
  import opened StoreClass
  import opened BatchReport

  datatype QuarantineRow = QuarantineRow(reason: Reason, raw: Payload)

  datatype PriceEvent = PriceEvent(product: nat, retailer: int, cents: int, inStock: bool, at: int)

  datatype ProcessError = UpsertFailed(fault: Fault) | QuarantineFailed

  function NormalizePayload(fl: real -> real, p: Payload, now: int): Result<Normalized, Reason> {
    match p
    case Unparseable(_) => Err(UnparseableItem)
    case Parsed(item) => Normalize(fl, item, now)
  }

  /** The payloads that normalize, in order, and the quarantine rows of those that do not. */
  function Sift(fl: real -> real, raws: seq<Payload>, now: int): (seq<Normalized>, seq<QuarantineRow>) {
    if raws == [] then ([], [])
    else
      var (good, bad) := Sift(fl, raws[..|raws| - 1], now);
      var p := raws[|raws| - 1];
      match NormalizePayload(fl, p, now)
      case Ok(n) => (good + [n], bad)
      case Err(reason) => (good, bad + [QuarantineRow(reason, p)])
  }

  function SpikeRows(spikes: seq<SpikeReject>): seq<QuarantineRow> {
    seq(|spikes|, i requires 0 <= i < |spikes| => QuarantineRow(PriceSpike, spikes[i].item.raw))
  }

  function NoTitleRows(its: seq<Normalized>): seq<QuarantineRow> {
    seq(|its|, i requires 0 <= i < |its| => QuarantineRow(NoTitle, its[i].raw))
  }

  function EventOf(retailer: int, row: AcceptedRow): PriceEvent {
    PriceEvent(row.product, retailer, row.cents, row.inStock, row.at)
  }

  function Events(retailer: int, rows: seq<AcceptedRow>): seq<PriceEvent> {
    seq(|rows|, i requires 0 <= i < |rows| => EventOf(retailer, rows[i]))
  }

  /**
   Processes a page: sift, upsert, quarantine, and hand back the events for the
   history writer. Normalization sees the time the page was taken up.
   */
  method ProcessPage(store: Store, fl: real -> real, retailer: int, raws: seq<Payload>, now: int, fault: Fault, quarantineOk: bool)
    returns (res: Result<seq<PriceEvent>, ProcessError>, quarantine: seq<QuarantineRow>,
             ghost order: seq<string>, ghost rows: seq<Chosen>)
    requires store.Valid()
    modifies store
    ensures store.Valid()
    ensures res.Ok? ==> (
      var (items, bad) := Sift(fl, raws, now);
      var b := Batch(old(store.offers), old(store.spikes), retailer, Resolved(store.products, BySku(items)), BySku(items));
      && ProductsAfter(old(store.products), store.products, BySku(items))
      && Observed(b, store.offers, store.spikes)
      && Enumerates(order, BySku(items).Keys)
      && multiset(rows) == multiset(b.Outcomes(order).accepted) && ByProduct(rows)
      && quarantine == bad + SpikeRows(b.Outcomes(order).spikes) + NoTitleRows(b.Outcomes(order).noTitle)
      && res.value == Events(retailer, Rows(rows)))
    ensures res.Err? && res.error != QuarantineFailed ==> store.offers == old(store.offers)
  {
    var accepted: seq<Normalized> := [];
    quarantine := [];
    for i := 0 to |raws|
      invariant (accepted, quarantine) == Sift(fl, raws[..i], now)
    {
      assert raws[..i + 1][..i] == raws[..i];
      match raws[i] {
        case Unparseable(_) => quarantine := quarantine + [QuarantineRow(UnparseableItem, raws[i])];
        case Parsed(item) =>
          match Normalize(fl, item, now) {
            case Err(reason) => quarantine := quarantine + [QuarantineRow(reason, raws[i])];
            case Ok(n) => accepted := accepted + [n.(raw := raws[i])];
          }
      }
    }
    assert raws[..|raws|] == raws;
    var r;
    r, order, rows := store.UpsertBatch(retailer, accepted, fault);
    if r.Err? {
      return Err(UpsertFailed(r.error)), quarantine, order, rows;
    }
    quarantine := quarantine + SpikeRows(r.value.spikes) + NoTitleRows(r.value.noTitle);
    if !quarantineOk && quarantine != [] {
      return Err(QuarantineFailed), quarantine, order, rows;
    }
    return Ok(Events(retailer, r.value.accepted)), quarantine, order, rows;
  }

  // --- conservation ---

  // How often payload p occurs among received payloads, items, quarantine rows, spike rejections and rows to write.

  function One(hit: bool): nat {
    if hit then 1 else 0
  }

  function Received(p: Payload, raws: seq<Payload>): nat {
    if raws == [] then 0 else Received(p, raws[..|raws| - 1]) + One(raws[|raws| - 1] == p)
  }

  function Among(p: Payload, its: seq<Normalized>): nat {
    if its == [] then 0 else Among(p, its[..|its| - 1]) + One(its[|its| - 1].raw == p)
  }

  function Quarantined(p: Payload, rows: seq<QuarantineRow>): nat {
    if rows == [] then 0 else Quarantined(p, rows[..|rows| - 1]) + One(rows[|rows| - 1].raw == p)
  }

  function Spiked(p: Payload, spikes: seq<SpikeReject>): nat {
    if spikes == [] then 0 else Spiked(p, spikes[..|spikes| - 1]) + One(spikes[|spikes| - 1].item.raw == p)
  }

  function Written(p: Payload, rows: seq<Chosen>): nat {
    if rows == [] then 0 else Written(p, rows[..|rows| - 1]) + One(rows[|rows| - 1].item.raw == p)
  }

  /** A payload that normalizes stays attached to its item. */
  lemma PayloadKept(fl: real -> real, raw: Payload, now: int)
    ensures var res := NormalizePayload(fl, raw, now); res.Ok? ==> res.value.raw == raw
  {}

  lemma {:induction false} SiftConserves(fl: real -> real, raws: seq<Payload>, now: int, p: Payload)
    ensures var (good, bad) := Sift(fl, raws, now);
      Received(p, raws) == Among(p, good) + Quarantined(p, bad)
  {
    if raws != [] {
      var front, raw := raws[..|raws| - 1], raws[|raws| - 1];
      SiftConserves(fl, front, now, p);
      PayloadKept(fl, raw, now);
      var (good, bad) := Sift(fl, front, now);
      match NormalizePayload(fl, raw, now) {
        case Ok(n) => assert (good + [n])[..|good|] == good;
        case Err(reason) => assert (bad + [QuarantineRow(reason, raw)])[..|bad|] == bad;
      }
    }
  }

  /** The items the in-batch dedupe drops. */
  function Collapsed(items: seq<Normalized>): seq<Normalized> {
    if items == [] then []
    else
      var front, it := items[..|items| - 1], items[|items| - 1];
      var m := BySku(front);
      if it.sku !in m then Collapsed(front)
      else Collapsed(front) + [if it.at > m[it.sku].at then m[it.sku] else it]
  }

  /** Every collapsed item lost to an item of its own SKU that is no older. */
  lemma {:induction false} CollapsedLost(items: seq<Normalized>, it: Normalized)
    requires it in Collapsed(items)
    ensures it.sku in BySku(items) && BySku(items)[it.sku].at >= it.at
  {
    var n := |items| - 1;
    BySkuAppends(items[..n], items[n]);
    assert items == items[..n] + [items[n]];
    if it in Collapsed(items[..n]) {
      CollapsedLost(items[..n], it);
    }
  }

  /** Among the items m keeps for the listed SKUs. */
  function Kept(p: Payload, m: map<string, Normalized>, order: seq<string>): nat
    requires forall sku :: sku in order ==> sku in m
  {
    if order == [] then 0
    else Kept(p, m, order[..|order| - 1]) + One(m[order[|order| - 1]].raw == p)
  }

  lemma OnlyEmptyEnumeratesNothing(order: seq<string>, keys: set<string>)
    requires Enumerates(order, keys)
    ensures order != [] ==> keys != {}
  {
    if order != [] {
      assert order[0] in keys;
    }
  }

  lemma FrontEnumerates(order: seq<string>, keys: set<string>)
    requires Enumerates(order, keys) && order != []
    ensures Enumerates(order[..|order| - 1], keys - {order[|order| - 1]})
    ensures order[|order| - 1] in keys
  {
    assert order == order[..|order| - 1] + [order[|order| - 1]];
  }

  lemma {:induction false} SameKept(p: Payload, m: map<string, Normalized>, m': map<string, Normalized>, order: seq<string>)
    requires forall sku :: sku in order ==> sku in m && sku in m' && m[sku] == m'[sku]
    ensures Kept(p, m, order) == Kept(p, m', order)
  {
    if order != [] {
      assert order[|order| - 1] in order;
      SameKept(p, m, m', order[..|order| - 1]);
    }
  }

  /** Giving one listed key a new item exchanges the old item for it. */
  lemma {:induction false} KeyUpdated(p: Payload, m: map<string, Normalized>, order: seq<string>, keys: set<string>, it: Normalized)
    requires Enumerates(order, keys) && keys <= m.Keys && it.sku in keys
    ensures Kept(p, m[it.sku := it], order) + One(m[it.sku].raw == p) == Kept(p, m, order) + One(it.raw == p)
  {
    var n := |order| - 1;
    FrontEnumerates(order, keys);
    if order[n] == it.sku {
      SameKept(p, m, m[it.sku := it], order[..n]);
    } else {
      KeyUpdated(p, m, order[..n], keys - {order[n]}, it);
    }
  }

  function Without(order: seq<string>, sku: string): seq<string> {
    if order == [] then []
    else if order[|order| - 1] == sku then order[..|order| - 1]
    else Without(order[..|order| - 1], sku) + [order[|order| - 1]]
  }

  lemma {:induction false} WithoutEnumerates(order: seq<string>, keys: set<string>, sku: string)
    requires Enumerates(order, keys) && sku in keys
    ensures Enumerates(Without(order, sku), keys - {sku})
  {
    FrontEnumerates(order, keys);
    var last := order[|order| - 1];
    if last != sku {
      WithoutEnumerates(order[..|order| - 1], keys - {last}, sku);
      assert keys - {last} - {sku} + {last} == keys - {sku};
    }
  }

  /** A new key adds its item to the others. */
  lemma {:induction false} KeyAdded(p: Payload, m: map<string, Normalized>, order: seq<string>, keys: set<string>, it: Normalized)
    requires Enumerates(order, keys) && it.sku in keys && it.sku !in m && keys - {it.sku} <= m.Keys
    ensures forall sku :: sku in Without(order, it.sku) ==> sku in m
    ensures Kept(p, m[it.sku := it], order) == Kept(p, m, Without(order, it.sku)) + One(it.raw == p)
  {
    WithoutEnumerates(order, keys, it.sku);
    FrontEnumerates(order, keys);
    var n := |order| - 1;
    if order[n] == it.sku {
      SameKept(p, m, m[it.sku := it], order[..n]);
    } else {
      KeyAdded(p, m, order[..n], keys - {order[n]}, it);
      assert Without(order, it.sku)[..|Without(order, it.sku)| - 1] == Without(order[..n], it.sku);
    }
  }

  /** The items kept and the items collapsed are together exactly the items that came in. */
  lemma {:induction false} DedupeConserves(items: seq<Normalized>, order: seq<string>, p: Payload)
    requires Enumerates(order, BySku(items).Keys)
    ensures Among(p, items) == Kept(p, BySku(items), order) + Among(p, Collapsed(items))
  {
    if items == [] {
      OnlyEmptyEnumeratesNothing(order, BySku(items).Keys);
    } else {
      var n := |items| - 1;
      var front, it := items[..n], items[n];
      assert items == front + [it];
      BySkuAppends(front, it);
      var m := BySku(front);
      if it.sku !in m {
        KeyAdded(p, m, order, BySku(items).Keys, it);
        WithoutEnumerates(order, BySku(items).Keys, it.sku);
        assert BySku(items).Keys - {it.sku} == m.Keys;
        DedupeConserves(front, Without(order, it.sku), p);
      } else {
        DedupeConserves(front, order, p);
        KeyUpdated(p, m, order, m.Keys, it);
        assert Collapsed(items)[..|Collapsed(items)| - 1] == Collapsed(front);
      }
    }
  }

  lemma WrittenPlus(p: Payload, rows: seq<Chosen>, one: seq<Chosen>)
    requires |one| <= 1
    ensures Written(p, rows + one) == Written(p, rows) + (if one == [] then 0 else One(one[0].item.raw == p))
  {
    if one == [] {
      assert rows + one == rows;
    } else {
      assert (rows + one)[..|rows|] == rows;
    }
  }

  lemma SpikedPlus(p: Payload, spikes: seq<SpikeReject>, one: seq<SpikeReject>)
    requires |one| <= 1
    ensures Spiked(p, spikes + one) == Spiked(p, spikes) + (if one == [] then 0 else One(one[0].item.raw == p))
  {
    if one == [] {
      assert spikes + one == spikes;
    } else {
      assert (spikes + one)[..|spikes|] == spikes;
    }
  }

  lemma AmongPlus(p: Payload, its: seq<Normalized>, one: seq<Normalized>)
    requires |one| <= 1
    ensures Among(p, its + one) == Among(p, its) + (if one == [] then 0 else One(one[0].raw == p))
  {
    if one == [] {
      assert its + one == its;
    } else {
      assert (its + one)[..|its|] == its;
    }
  }

  /** One more item, in exactly one of the three lists. */
  lemma OutcomePlus(p: Payload, o: Outcome, one: Outcome, it: Normalized)
    requires |one.accepted| + |one.spikes| + |one.noTitle| == 1
    requires one.accepted != [] ==> one.accepted[0].item == it
    requires one.spikes != [] ==> one.spikes[0].item == it
    requires one.noTitle != [] ==> one.noTitle[0] == it
    ensures var sum := o.Plus(one);
      Written(p, sum.accepted) + Spiked(p, sum.spikes) + Among(p, sum.noTitle)
      == Written(p, o.accepted) + Spiked(p, o.spikes) + Among(p, o.noTitle) + One(it.raw == p)
  {
    WrittenPlus(p, o.accepted, one.accepted);
    SpikedPlus(p, o.spikes, one.spikes);
    AmongPlus(p, o.noTitle, one.noTitle);
  }

  /** Every SKU of the batch ends in exactly one of: rows to write, spike rejections, unknown without title. */
  lemma {:induction false} OutcomesConserve(b: Batch, order: seq<string>, p: Payload)
    requires forall sku :: sku in order ==> sku in b.bySku
    ensures var o := b.Outcomes(order);
      Kept(p, b.bySku, order) == Written(p, o.accepted) + Spiked(p, o.spikes) + Among(p, o.noTitle)
  {
    if order != [] {
      var n := |order| - 1;
      OutcomesConserve(b, order[..n], p);
      OutcomePlus(p, b.Outcomes(order[..n]), b.OutcomeOf(order[n]), b.bySku[order[n]]);
    }
  }

  lemma RemoveSame<T>(a: seq<T>, b: seq<T>, i: nat)
    requires a != [] && i < |b| && b[i] == a[|a| - 1] && multiset(a) == multiset(b)
    ensures multiset(a[..|a| - 1]) == multiset(b[..i] + b[i + 1..])
  {
    assert a == a[..|a| - 1] + [b[i]];
    assert b == b[..i] + [b[i]] + b[i + 1..];
    assert multiset(a[..|a| - 1]) == multiset(a) - multiset{b[i]};
    assert multiset(b[..i] + b[i + 1..]) == multiset(b) - multiset{b[i]};
  }

  lemma {:induction false} WrittenRemove(p: Payload, b: seq<Chosen>, i: nat)
    requires i < |b|
    ensures Written(p, b) == Written(p, b[..i] + b[i + 1..]) + One(b[i].item.raw == p)
  {
    var n := |b| - 1;
    var rest := b[..i] + b[i + 1..];
    if i == n {
      assert rest == b[..n];
    } else {
      WrittenRemove(p, b[..n], i);
      assert rest[..n - 1] == b[..n][..i] + b[..n][i + 1..];
    }
  }

  /** Sorting rows does not change what is written. */
  lemma {:induction false} WrittenPermute(p: Payload, a: seq<Chosen>, b: seq<Chosen>)
    requires multiset(a) == multiset(b)
    ensures Written(p, a) == Written(p, b)
    decreases |a|
  {
    if a == [] {
      assert |multiset(b)| == 0;
    } else {
      assert a[|a| - 1] in multiset(b);
      var i :| 0 <= i < |b| && b[i] == a[|a| - 1];
      RemoveSame(a, b, i);
      WrittenRemove(p, b, i);
      WrittenPermute(p, a[..|a| - 1], b[..i] + b[i + 1..]);
    }
  }

  lemma {:induction false} QuarantinedJoin(p: Payload, a: seq<QuarantineRow>, b: seq<QuarantineRow>)
    ensures Quarantined(p, a + b) == Quarantined(p, a) + Quarantined(p, b)
  {
    if b == [] {
      assert a + b == a;
    } else {
      QuarantinedJoin(p, a, b[..|b| - 1]);
      assert (a + b)[..|a + b| - 1] == a + b[..|b| - 1];
    }
  }

  lemma {:induction false} SpikeRowsQuarantined(p: Payload, spikes: seq<SpikeReject>)
    ensures Quarantined(p, SpikeRows(spikes)) == Spiked(p, spikes)
  {
    if spikes != [] {
      SpikeRowsQuarantined(p, spikes[..|spikes| - 1]);
      assert SpikeRows(spikes)[..|spikes| - 1] == SpikeRows(spikes[..|spikes| - 1]);
    }
  }

  lemma {:induction false} NoTitleRowsQuarantined(p: Payload, its: seq<Normalized>)
    ensures Quarantined(p, NoTitleRows(its)) == Among(p, its)
  {
    if its != [] {
      NoTitleRowsQuarantined(p, its[..|its| - 1]);
      assert NoTitleRows(its)[..|its| - 1] == NoTitleRows(its[..|its| - 1]);
    }
  }

  /**
   Conservation: on a page that goes through, each payload ends in exactly one of
   the quarantine, the rows written, or the in-batch duplicates, as often as it
   came in, and there is one price event per row written.
   */
  lemma ItemsAreConserved(fl: real -> real, raws: seq<Payload>, now: int, retailer: int, b: Batch,
                          order: seq<string>, rows: seq<Chosen>, quarantine: seq<QuarantineRow>, p: Payload)
    requires b.bySku == BySku(Sift(fl, raws, now).0) && Enumerates(order, b.bySku.Keys)
    requires multiset(rows) == multiset(b.Outcomes(order).accepted)
    requires quarantine == Sift(fl, raws, now).1 + SpikeRows(b.Outcomes(order).spikes) + NoTitleRows(b.Outcomes(order).noTitle)
    ensures Received(p, raws)
      == Quarantined(p, quarantine) + Written(p, rows) + Among(p, Collapsed(Sift(fl, raws, now).0))
    ensures |Events(retailer, Rows(rows))| == |rows|
    ensures forall i :: 0 <= i < |rows| ==>
      var it := rows[i].item;
      Events(retailer, Rows(rows))[i] == PriceEvent(rows[i].product, retailer, it.cents, it.inStock, it.at)
  {
    var (items, bad) := Sift(fl, raws, now);
    var o := b.Outcomes(order);
    SiftConserves(fl, raws, now, p);
    DedupeConserves(items, order, p);
    OutcomesConserve(b, order, p);
    WrittenPermute(p, rows, o.accepted);
    QuarantinedJoin(p, bad, SpikeRows(o.spikes));
    QuarantinedJoin(p, bad + SpikeRows(o.spikes), NoTitleRows(o.noTitle));
    SpikeRowsQuarantined(p, o.spikes);
    NoTitleRowsQuarantined(p, o.noTitle);
  }

  // --- reasons ---

  /** The payload is turned away by validation, for this reason. */
  ghost predicate TurnedAway(fl: real -> real, p: Payload, now: int, reason: Reason) {
    if p.Unparseable? then reason == UnparseableItem else Normalize(fl, p.item, now) == Err(reason)
  }

  lemma {:induction false} SiftExact(fl: real -> real, raws: seq<Payload>, now: int)
    ensures var (good, bad) := Sift(fl, raws, now);
      && (forall q :: q in bad <==> q.raw in raws && TurnedAway(fl, q.raw, now, q.reason))
      && (forall it :: it in good <==> it.raw in raws && it.raw.Parsed? && Normalize(fl, it.raw.item, now) == Ok(it))
  {
    if raws != [] {
      var n := |raws| - 1;
      SiftExact(fl, raws[..n], now);
      assert raws == raws[..n] + [raws[n]];
      PayloadKept(fl, raws[n], now);
    }
  }

  /** Items and rejects keep the order of the page. */
  lemma {:induction false} SiftInOrder(fl: real -> real, raws: seq<Payload>, now: int) returns (kept: seq<nat>, out: seq<nat>)
    ensures var (good, bad) := Sift(fl, raws, now);
      && |kept| == |good| && (forall i :: 0 <= i < |kept| ==> kept[i] < |raws| && raws[kept[i]] == good[i].raw)
      && |out| == |bad| && (forall i :: 0 <= i < |out| ==> out[i] < |raws| && raws[out[i]] == bad[i].raw)
    ensures forall i, j :: 0 <= i < j < |kept| ==> kept[i] < kept[j]
    ensures forall i, j :: 0 <= i < j < |out| ==> out[i] < out[j]
  {
    kept, out := [], [];
    if raws != [] {
      var n := |raws| - 1;
      kept, out := SiftInOrder(fl, raws[..n], now);
      PayloadKept(fl, raws[n], now);
      if NormalizePayload(fl, raws[n], now).Ok? {
        kept := kept + [n];
      } else {
        out := out + [n];
      }
    }
  }

  lemma RowsHaveReasons(spikes: seq<SpikeReject>, its: seq<Normalized>, q: QuarantineRow)
    ensures q in SpikeRows(spikes) <==> q.reason == PriceSpike && exists x :: x in spikes && x.item.raw == q.raw
    ensures q in NoTitleRows(its) <==> q.reason == NoTitle && exists it :: it in its && it.raw == q.raw
  {
    if x :| x in spikes && x.item.raw == q.raw {
      var i :| 0 <= i < |spikes| && spikes[i] == x;
      assert SpikeRows(spikes)[i] == QuarantineRow(PriceSpike, q.raw);
    }
    if it :| it in its && it.raw == q.raw {
      var i :| 0 <= i < |its| && its[i] == it;
      assert NoTitleRows(its)[i] == QuarantineRow(NoTitle, q.raw);
    }
  }

  /**
   Every quarantine row says why: a payload that does not parse or validate carries the
   reason of its own rejection, one whose price is held back is a price spike, and one
   whose SKU has no product has no title. No payload that is turned away, held back or
   left without a product is missing.
   */
  lemma QuarantineReasons(fl: real -> real, raws: seq<Payload>, now: int, b: Batch, order: seq<string>,
                          quarantine: seq<QuarantineRow>, q: QuarantineRow)
    requires b.bySku == BySku(Sift(fl, raws, now).0) && Enumerates(order, b.bySku.Keys)
    requires quarantine == Sift(fl, raws, now).1 + SpikeRows(b.Outcomes(order).spikes) + NoTitleRows(b.Outcomes(order).noTitle)
    ensures q in quarantine <==>
      || (q.raw in raws && TurnedAway(fl, q.raw, now, q.reason))
      || (q.reason == PriceSpike && exists sku :: sku in Back(b, b.bySku.Keys) && b.bySku[sku].raw == q.raw)
      || (q.reason == NoTitle && exists sku :: sku in Unknown(b, b.bySku.Keys) && b.bySku[sku].raw == q.raw)
  {
    var o := b.Outcomes(order);
    SiftExact(fl, raws, now);
    RowsHaveReasons(o.spikes, o.noTitle, q);
    OutcomesExact(b, order);
    assert SkusOf(order) == b.bySku.Keys;
    if sku :| sku in Back(b, b.bySku.Keys) && b.bySku[sku].raw == q.raw {
      assert SpikeOf(b, sku) in o.spikes;
    }
    if sku :| sku in Unknown(b, b.bySku.Keys) && b.bySku[sku].raw == q.raw {
      assert b.bySku[sku] in o.noTitle;
    }
  }
}
