/**
 All catalog writes (internal/ingest/store.go). The class holds the two tables
 it owns in the database next to its in-memory caches; each database statement
 is atomic and may fail, as `fault` says.
 */
module OfferStore {
  import opened Wrappers
  import opened LastWriteWins
  import opened Normalization
  import opened SpikeStreak

  datatype OfferKey = OfferKey(retailer: int, product: nat)

  type Offers = map<OfferKey, OfferRow>
  type Streaks = map<OfferKey, nat>
  type Products = map<string, nat>

  datatype Fault = NoFault | InsertProductsFails | SelectProductsFails | HeldPricesFails | UpsertOffersFails

  datatype AcceptedRow = AcceptedRow(product: nat, cents: int, inStock: bool, at: int)

  datatype SpikeReject = SpikeReject(item: Normalized, held: int)

  datatype UpsertResult = UpsertResult(
    accepted: seq<AcceptedRow>, spikes: seq<SpikeReject>, overrides: nat, staleSkipped: nat, noTitle: seq<Normalized>)

  const NOTHING := UpsertResult([], [], 0, 0, [])

  function Lookup<K, V>(m: map<K, V>, k: K): Option<V> {
    if k in m then Some(m[k]) else None
  }

  function HeldCents(offers: Offers, k: OfferKey): Option<int> {
    if k in offers then Some(offers[k].cents) else None
  }

  function CellAt(offers: Offers, streaks: Streaks, k: OfferKey): Cell {
    Cell(Lookup(offers, k), if k in streaks then streaks[k] else 0)
  }

  // --- in-batch dedupe ---

  function SkuWrites(items: seq<Normalized>): seq<Write<string, Normalized>> {
    seq(|items|, i requires 0 <= i < |items| => Write(items[i].sku, items[i], items[i].at))
  }

  /** The survivors of the in-batch dedupe, by SKU. */
  function BySku(items: seq<Normalized>): (m: map<string, Normalized>)
    ensures forall sku :: sku in m ==> m[sku].sku == sku
  {
    DedupedItems(items);
    map sku | sku in Dedupe(SkuWrites(items)) :: Dedupe(SkuWrites(items))[sku].val
  }

  lemma DedupedItems(items: seq<Normalized>)
    ensures forall sku :: sku in Dedupe(SkuWrites(items)) ==>
      var w := Dedupe(SkuWrites(items))[sku];
      w.key == sku && w.val.sku == sku && w.at == w.val.at && w.val in items
  {
    forall sku | sku in Dedupe(SkuWrites(items))
      ensures var w := Dedupe(SkuWrites(items))[sku];
        w.val.sku == sku && w.at == w.val.at && w.val in items
    {
      var i := DedupeKeepsFirstLatest(SkuWrites(items), sku);
    }
  }

  lemma BySkuAppends(items: seq<Normalized>, it: Normalized)
    ensures BySku(items + [it]) ==
      if it.sku in BySku(items) && it.at <= BySku(items)[it.sku].at then BySku(items) else BySku(items)[it.sku := it]
  {
    DedupedItems(items);
    assert SkuWrites(items + [it])[..|items|] == SkuWrites(items);
  }

  // --- products ---

  ghost predicate Injective(p: Products) {
    forall a, b :: a in p && b in p && p[a] == p[b] ==> a == b
  }

  ghost predicate FreshAbove(p: Products, next: nat) {
    forall sku :: sku in p ==> p[sku] < next
  }

  /** The SKUs a batch may create: untracked so far and carrying a title. */
  predicate Creates(p: Products, bySku: map<string, Normalized>, sku: string) {
    sku in bySku && sku !in p && bySku[sku].title != ""
  }

  /** Products only grow, by exactly the SKUs the batch creates, and ids stay distinct. */
  ghost predicate ProductsAfter(p: Products, p': Products, bySku: map<string, Normalized>) {
    && (forall sku :: sku in p' <==> sku in p || Creates(p, bySku, sku))
    && (forall sku :: sku in p ==> p'[sku] == p[sku])
    && Injective(p')
  }

  /** The ids of the batch's SKUs, for those that have one. */
  function Resolved(p: Products, bySku: map<string, Normalized>): map<string, nat> {
    map sku | sku in bySku && sku in p :: p[sku]
  }

  // --- the effect of a batch ---

  datatype Chosen = Chosen(product: nat, item: Normalized)

  /** A batch after resolution, and the offers and streaks it meets. */
  datatype Batch = Batch(offers: Offers, streaks: Streaks, retailer: int, ids: Products, bySku: map<string, Normalized>) {
    /** Every resolved SKU is in the batch, and no product is met twice. */
    ghost predicate Ok() {
      ids.Keys <= bySku.Keys && Injective(ids)
    }

    function KeyOf(sku: string): OfferKey
      requires sku in ids
    {
      OfferKey(retailer, ids[sku])
    }

    function Cell(sku: string): Cell
      requires sku in ids
    {
      CellAt(offers, streaks, KeyOf(sku))
    }

    function Verdict(sku: string): Verdict
      requires sku in ids && sku in bySku
    {
      Judge(Cell(sku), bySku[sku].cents)
    }

    /** What one SKU contributes to the result: its item, in exactly one of the three lists. */
    function OutcomeOf(sku: string): (o: Outcome)
      requires sku in bySku
      ensures |o.accepted| + |o.spikes| + |o.noTitle| == 1
      ensures o.accepted != [] ==> o.accepted[0].item == bySku[sku]
      ensures o.spikes != [] ==> o.spikes[0].item == bySku[sku]
      ensures o.noTitle != [] ==> o.noTitle[0] == bySku[sku]
    {
      if sku !in ids then Outcome([], [], [bySku[sku]], 0)
      else
        match Verdict(sku)
        case Rejected => Outcome([], [SpikeReject(bySku[sku], Cell(sku).row.value.cents)], [], 0)
        case Overridden => Outcome([Chosen(ids[sku], bySku[sku])], [], [], 1)
        case Plausible => Outcome([Chosen(ids[sku], bySku[sku])], [], [], 0)
    }

    /** What the SKUs contribute, taken in the given order. */
    function Outcomes(order: seq<string>): Outcome
      requires forall sku :: sku in order ==> sku in bySku
    {
      if order == [] then Outcome([], [], [], 0)
      else Outcomes(order[..|order| - 1]).Plus(OutcomeOf(order[|order| - 1]))
    }
  }

  /** Rows to write, spike rejections, items of unknown products without a title, and overrides. */
  datatype Outcome = Outcome(accepted: seq<Chosen>, spikes: seq<SpikeReject>, noTitle: seq<Normalized>, overrides: nat) {
    function Plus(o: Outcome): Outcome {
      Outcome(accepted + o.accepted, spikes + o.spikes, noTitle + o.noTitle, overrides + o.overrides)
    }
  }

  /** `order` lists each key once. */
  ghost predicate Enumerates(order: seq<string>, keys: set<string>) {
    && (forall sku :: sku in order <==> sku in keys)
    && (forall i, j :: 0 <= i < j < |order| ==> order[i] != order[j])
  }

  /** Each resolved SKU makes one observation on its offer; every other offer keeps its row and its streak. */
  ghost predicate Observed(b: Batch, offers': Offers, streaks': Streaks) {
    && (forall sku :: sku in b.ids && sku in b.bySku ==>
          CellAt(offers', streaks', b.KeyOf(sku)) == Observe(b.Cell(sku), b.bySku[sku]))
    && (forall k: OfferKey :: k.retailer != b.retailer || k.product !in b.ids.Values ==>
          CellAt(offers', streaks', k) == CellAt(b.offers, b.streaks, k))
  }

  /** The streak half of `Observed`, with only the SKUs of `done` taken. */
  ghost predicate StreaksAfter(b: Batch, done: set<string>, streaks': Streaks) {
    && (forall sku :: sku in b.ids && sku in b.bySku ==>
          CellAt(b.offers, streaks', b.KeyOf(sku)).streak
            == if sku in done then Observe(b.Cell(sku), b.bySku[sku]).streak else b.Cell(sku).streak)
    && (forall k: OfferKey :: k.retailer != b.retailer || k.product !in b.ids.Values ==>
          CellAt(b.offers, streaks', k).streak == CellAt(b.offers, b.streaks, k).streak)
  }

  /**
   How far a batch got: its observations were made, or only their streaks moved
   because the offers statement failed, or it failed before the spike check.
   */
  datatype Fate = Stored | Lost | Untouched

  ghost predicate Leaves(b: Batch, fate: Fate, offers': Offers, streaks': Streaks) {
    match fate
    case Stored => Observed(b, offers', streaks')
    case Lost => offers' == b.offers && StreaksAfter(b, b.bySku.Keys, streaks')
    case Untouched => offers' == b.offers && streaks' == b.streaks
  }

  function FateOf(res: Result<UpsertResult, Fault>): Fate {
    if res.Ok? then Stored else if res.error == UpsertOffersFails then Lost else Untouched
  }

  // --- the statement ---

  function PutRow(offers: Offers, k: OfferKey, it: Normalized): Offers {
    offers[k := Put(Lookup(offers, k), it)]
  }

  /** The guarded upsert over the listed rows, in list order. */
  function PutAll(offers: Offers, retailer: int, rows: seq<Chosen>): Offers {
    if rows == [] then offers
    else
      var r := rows[|rows| - 1];
      PutRow(PutAll(offers, retailer, rows[..|rows| - 1]), OfferKey(retailer, r.product), r.item)
  }

  predicate Stale(offers: Offers, k: OfferKey, it: Normalized) {
    k in offers && offers[k].at > it.at
  }

  /** Rows the guard skips. */
  function StaleCount(offers: Offers, retailer: int, rows: seq<Chosen>): nat {
    if rows == [] then 0
    else
      var r := rows[|rows| - 1];
      StaleCount(offers, retailer, rows[..|rows| - 1]) + if Stale(offers, OfferKey(retailer, r.product), r.item) then 1 else 0
  }

  ghost predicate DistinctProducts(rows: seq<Chosen>) {
    forall i, j :: 0 <= i < j < |rows| ==> rows[i].product != rows[j].product
  }

  ghost predicate ByProduct(rows: seq<Chosen>) {
    forall i, j :: 0 <= i < j < |rows| ==> rows[i].product < rows[j].product
  }

  /** With distinct products, each listed row is put over what was stored before, and nothing else changes. */
  lemma {:induction false} PutAllAt(offers: Offers, retailer: int, rows: seq<Chosen>, k: OfferKey, i: int)
    requires DistinctProducts(rows)
    requires if 0 <= i < |rows| then k == OfferKey(retailer, rows[i].product)
             else forall c :: c in rows ==> k != OfferKey(retailer, c.product)
    ensures Lookup(PutAll(offers, retailer, rows), k)
      == if 0 <= i < |rows| then Some(Put(Lookup(offers, k), rows[i].item)) else Lookup(offers, k)
  {
    if rows != [] {
      var n := |rows| - 1;
      assert rows[n] in rows && forall c :: c in rows[..n] ==> c in rows;
      if 0 <= i < n {
        assert rows[i].product != rows[n].product;
      } else if i == n {
        forall c | c in rows[..n] ensures k != OfferKey(retailer, c.product) {
          var j :| 0 <= j < n && rows[j] == c;
          assert rows[j].product != rows[n].product;
        }
      }
      PutAllAt(offers, retailer, rows[..n], k, i);
    }
  }

  function RowOf(c: Chosen): AcceptedRow {
    AcceptedRow(c.product, c.item.cents, c.item.inStock, c.item.at)
  }

  function Rows(chosen: seq<Chosen>): seq<AcceptedRow> {
    seq(|chosen|, i requires 0 <= i < |chosen| => RowOf(chosen[i]))
  }

  /** The rows a batch writes are those of its accepted SKUs, one per product. */
  lemma {:induction false} AcceptedExact(b: Batch, order: seq<string>)
    requires b.Ok() && (forall sku :: sku in order ==> sku in b.bySku)
    requires forall i, j :: 0 <= i < j < |order| ==> order[i] != order[j]
    ensures DistinctProducts(b.Outcomes(order).accepted)
    ensures forall c :: c in b.Outcomes(order).accepted <==>
      exists sku :: sku in order && sku in b.ids && !b.Verdict(sku).Rejected? && c == Chosen(b.ids[sku], b.bySku[sku])
  {
    if order != [] {
      var n := |order| - 1;
      AcceptedExact(b, order[..n]);
      var before := b.Outcomes(order[..n]).accepted;
      assert b.Outcomes(order).accepted == before + b.OutcomeOf(order[n]).accepted;
      assert forall sku :: sku in order <==> sku in order[..n] || sku == order[n];
      forall i | 0 <= i < |before| && order[n] in b.ids
        ensures before[i].product != b.ids[order[n]]
      {
        assert before[i] in before;
        var sku :| sku in order[..n] && sku in b.ids && before[i] == Chosen(b.ids[sku], b.bySku[sku]);
        assert sku != order[n];
      }
    }
  }

  lemma AcceptedIff(b: Batch, order: seq<string>, sku: string)
    requires b.Ok() && Enumerates(order, b.bySku.Keys) && sku in b.ids && sku in b.bySku
    ensures Chosen(b.ids[sku], b.bySku[sku]) in b.Outcomes(order).accepted <==> !b.Verdict(sku).Rejected?
  {
    AcceptedExact(b, order);
  }

  /** What a successful batch reports: rows by ascending product, and what became of every SKU it met. */
  ghost predicate Reports(b: Batch, order: seq<string>, rows: seq<Chosen>, res: UpsertResult) {
    && Enumerates(order, b.bySku.Keys)
    && multiset(rows) == multiset(b.Outcomes(order).accepted) && ByProduct(rows)
    && res == UpsertResult(Rows(rows), b.Outcomes(order).spikes, b.Outcomes(order).overrides,
                           StaleCount(b.offers, b.retailer, rows), b.Outcomes(order).noTitle)
  }
}
