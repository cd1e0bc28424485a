/** What the store's batches add up to: per batch against one-at-a-time writes, and over whole runs of batches. */
module BatchHistory {
  import LastWriteWins
  import opened Prices
  import opened Normalization
  import opened SpikeStreak
  import opened OfferStore

  // --- one batch ---

  /** The part of an offer that an update replaces outright. */
  datatype Core = Core(cents: int, url: string, inStock: bool)

  /** The batch's offers by SKU, as a plain last-write-wins table. */
  function View(offers: Offers, retailer: int, ids: Products): map<string, LastWriteWins.Row<Core>> {
    map sku | sku in ids && OfferKey(retailer, ids[sku]) in offers ::
      var o := offers[OfferKey(retailer, ids[sku])];
      LastWriteWins.Row(Core(o.cents, o.url, o.inStock), o.at)
  }

  function CoreWrites(items: seq<Normalized>): seq<LastWriteWins.Write<string, Core>> {
    seq(|items|, i requires 0 <= i < |items| =>
      LastWriteWins.Write(items[i].sku, Core(items[i].cents, items[i].url, items[i].inStock), items[i].at))
  }

  /** Deduping the items and deduping their writes pick the same survivors. */
  lemma SameSurvivor(items: seq<Normalized>, sku: string)
    ensures sku in BySku(items) <==> sku in LastWriteWins.Dedupe(CoreWrites(items))
    ensures sku in BySku(items) ==>
      var it := BySku(items)[sku];
      LastWriteWins.Dedupe(CoreWrites(items))[sku] == LastWriteWins.Write(sku, Core(it.cents, it.url, it.inStock), it.at)
  {
    var i := LastWriteWins.DedupeKeepsFirstLatest(SkuWrites(items), sku);
    var j := LastWriteWins.DedupeKeepsFirstLatest(CoreWrites(items), sku);
    assert forall k :: 0 <= k < |items| ==> SkuWrites(items)[k].key == CoreWrites(items)[k].key;
    if sku in BySku(items) {
      assert LastWriteWins.FirstLatest(CoreWrites(items), sku, i);
      LastWriteWins.FirstLatestUnique(CoreWrites(items), sku, i, j);
    }
  }

  /** With nothing rejected, the store's batch is the deduped guarded batch on every resolved SKU. */
  lemma StoreIsBatch(b: Batch, items: seq<Normalized>, offers': Offers, streaks': Streaks, sku: string)
    requires b.Ok() && b.bySku == BySku(items) && Observed(b, offers', streaks') && sku in b.ids
    requires !b.Verdict(sku).Rejected?
    ensures var t := LastWriteWins.Batch(View(b.offers, b.retailer, b.ids), CoreWrites(items));
      sku in t && sku in View(offers', b.retailer, b.ids) && View(offers', b.retailer, b.ids)[sku] == t[sku]
  {
    SameSurvivor(items, sku);
    assert CellAt(offers', streaks', b.KeyOf(sku)) == Observe(b.Cell(sku), b.bySku[sku]);
  }

  /**
   Dedupe plus sorted guarded upsert leaves each offer's price, stock, URL and
   timestamp as writing the items one by one in arrival order would, provided
   nothing is rejected as a spike and tied timestamps agree.
   */
  lemma BatchRefinesSingleWrites(b: Batch, items: seq<Normalized>, offers': Offers, streaks': Streaks)
    requires b.Ok() && b.bySku == BySku(items) && Observed(b, offers', streaks')
    requires forall sku :: sku in b.ids ==> !b.Verdict(sku).Rejected?
    requires LastWriteWins.TiesAgree(View(b.offers, b.retailer, b.ids), CoreWrites(items))
    ensures forall sku :: sku in b.ids ==>
      var t := LastWriteWins.ApplyAll(View(b.offers, b.retailer, b.ids), CoreWrites(items));
      sku in t && sku in View(offers', b.retailer, b.ids) && View(offers', b.retailer, b.ids)[sku] == t[sku]
  {
    LastWriteWins.BatchRefinesApplyAll(View(b.offers, b.retailer, b.ids), CoreWrites(items));
    forall sku | sku in b.ids
      ensures var t := LastWriteWins.ApplyAll(View(b.offers, b.retailer, b.ids), CoreWrites(items));
        sku in t && sku in View(offers', b.retailer, b.ids) && View(offers', b.retailer, b.ids)[sku] == t[sku]
    {
      StoreIsBatch(b, items, offers', streaks', sku);
    }
  }

  /** No batch, whatever it holds, loses an offer or moves its timestamp back. */
  lemma TimestampsNeverGoBack(b: Batch, offers': Offers, streaks': Streaks, k: OfferKey)
    requires b.Ok() && Observed(b, offers', streaks') && k in b.offers
    ensures k in offers' && offers'[k].at >= b.offers[k].at
  {
    if k.retailer == b.retailer && k.product in b.ids.Values {
      var sku :| sku in b.ids && b.ids[sku] == k.product;
      assert CellAt(offers', streaks', b.KeyOf(sku)) == Observe(b.Cell(sku), b.bySku[sku]);
    } else {
      assert CellAt(offers', streaks', k) == CellAt(b.offers, b.streaks, k);
    }
  }

  /** The offers as a plain last-write-wins table. */
  function CoreTable(offers: Offers): map<OfferKey, LastWriteWins.Row<Core>> {
    map k | k in offers :: LastWriteWins.Row(Core(offers[k].cents, offers[k].url, offers[k].inStock), offers[k].at)
  }

  function RowWrite(retailer: int, c: Chosen): LastWriteWins.Write<OfferKey, Core> {
    LastWriteWins.Write(OfferKey(retailer, c.product), Core(c.item.cents, c.item.url, c.item.inStock), c.item.at)
  }

  function RowWrites(retailer: int, rows: seq<Chosen>): seq<LastWriteWins.Write<OfferKey, Core>> {
    seq(|rows|, i requires 0 <= i < |rows| => RowWrite(retailer, rows[i]))
  }

  lemma PutIsUpsert(offers: Offers, retailer: int, c: Chosen)
    ensures CoreTable(PutRow(offers, OfferKey(retailer, c.product), c.item))
      == LastWriteWins.Upsert(CoreTable(offers), RowWrite(retailer, c))
  {}

  /** The store's statement is the guarded upsert of its rows, one after another. */
  lemma {:induction false} PutAllIsApplyAll(offers: Offers, retailer: int, rows: seq<Chosen>)
    ensures CoreTable(PutAll(offers, retailer, rows)) == LastWriteWins.ApplyAll(CoreTable(offers), RowWrites(retailer, rows))
  {
    if rows != [] {
      var n := |rows| - 1;
      PutAllIsApplyAll(offers, retailer, rows[..n]);
      PutIsUpsert(PutAll(offers, retailer, rows[..n]), retailer, rows[n]);
      assert RowWrites(retailer, rows)[..n] == RowWrites(retailer, rows[..n]);
    }
  }

  /** So, as its products are distinct, its effect is one guarded write per offer, whatever the row order. */
  lemma StatementIsSettled(offers: Offers, retailer: int, rows: seq<Chosen>, d: map<OfferKey, LastWriteWins.Write<OfferKey, Core>>)
    requires DistinctProducts(rows)
    requires forall k :: k in d ==> d[k].key == k && d[k] in RowWrites(retailer, rows)
    requires forall i :: 0 <= i < |rows| ==>
      OfferKey(retailer, rows[i].product) in d && d[OfferKey(retailer, rows[i].product)] == RowWrite(retailer, rows[i])
    ensures CoreTable(PutAll(offers, retailer, rows)) == LastWriteWins.Settle(CoreTable(offers), d)
  {
    PutAllIsApplyAll(offers, retailer, rows);
    LastWriteWins.StatementSettles(CoreTable(offers), RowWrites(retailer, rows), d);
  }

  /**
   What a stored batch does to one resolved offer, column by column: a price held back
   leaves the row, a stale item leaves the row, and any other shows in every column it
   fills.
   */
  lemma BatchColumns(b: Batch, offers': Offers, streaks': Streaks, sku: string)
    requires b.Ok() && Observed(b, offers', streaks') && sku in b.ids
    ensures var it, k := b.bySku[sku], OfferKey(b.retailer, b.ids[sku]);
      var streak := if k in b.streaks then b.streaks[k] else 0;
      var heldBack := k in b.offers && Suspect(b.offers[k].cents, it.cents) && streak + 1 < SPIKE_ACCEPT_AFTER;
      var stale := k in b.offers && b.offers[k].at > it.at;
      && (heldBack || stale ==> k in b.offers && k in offers' && offers'[k] == b.offers[k])
      && (!heldBack && !stale ==> k in offers' && Shows(offers'[k], it, Lookup(b.offers, k)))
      && (if k in streaks' then streaks'[k] else 0) == (if heldBack then streak + 1 else 0)
  {
    assert CellAt(offers', streaks', b.KeyOf(sku)) == Observe(b.Cell(sku), b.bySku[sku]);
    ObservationExact(b.Cell(sku), b.bySku[sku]);
  }

  // --- runs of batches ---

  /**
   One time a batch is tried, how far it got, and whether the process then restarts. A
   page whose batch fails is tried again.
   */
  datatype Attempt = Attempt(b: Batch, fate: Fate, restarts: bool)

  /** What an attempt leaves; a restart clears the streaks, which live in memory. */
  ghost predicate Ends(a: Attempt, offers': Offers, streaks': Streaks) {
    if a.restarts then streaks' == map[] && exists streaks: Streaks :: Leaves(a.b, a.fate, offers', streaks)
    else Leaves(a.b, a.fate, offers', streaks')
  }

  /** Attempts of any retailers, each starting from the offers and streaks the previous one left. */
  ghost predicate Chain(runs: seq<Attempt>) {
    && (forall j :: 0 <= j < |runs| ==> runs[j].b.Ok())
    && (forall j :: 0 <= j < |runs| - 1 ==> Ends(runs[j], runs[j + 1].b.offers, runs[j + 1].b.streaks))
  }

  /** The sighting a batch makes of offer k, if it meets it and gets as far as the spike check. */
  ghost function Sees(b: Batch, fate: Fate, k: OfferKey): seq<Sighting> {
    if fate == Untouched then []
    else if sku :| sku in b.ids && sku in b.bySku && k == OfferKey(b.retailer, b.ids[sku])
    then [Sighting(b.bySku[sku], fate == Stored)] else []
  }

  ghost function Met(a: Attempt, k: OfferKey): seq<Sighting> {
    Sees(a.b, a.fate, k) + if a.restarts then [Restart] else []
  }

  ghost function MetAll(runs: seq<Attempt>, k: OfferKey): seq<Sighting> {
    if runs == [] then [] else MetAll(runs[..|runs| - 1], k) + Met(runs[|runs| - 1], k)
  }

  lemma BatchSights(b: Batch, fate: Fate, offers': Offers, streaks': Streaks, k: OfferKey)
    requires b.Ok() && Leaves(b, fate, offers', streaks')
    ensures CellAt(offers', streaks', k) == SightAll(CellAt(b.offers, b.streaks, k), Sees(b, fate, k))
  {
    var xs := Sees(b, fate, k);
    if sku :| sku in b.ids && sku in b.bySku && k == OfferKey(b.retailer, b.ids[sku]) {
      assert b.KeyOf(sku) == k;
      assert forall s :: s in b.ids && s in b.bySku && k == OfferKey(b.retailer, b.ids[s]) ==> s == sku;
      assert fate != Untouched ==> xs == [Sighting(b.bySku[sku], fate == Stored)] && xs[..0] == [];
    } else {
      assert k.retailer != b.retailer || k.product !in b.ids.Values;
    }
  }

  lemma MetSights(a: Attempt, offers': Offers, streaks': Streaks, k: OfferKey)
    requires a.b.Ok() && Ends(a, offers', streaks')
    ensures CellAt(offers', streaks', k) == SightAll(CellAt(a.b.offers, a.b.streaks, k), Met(a, k))
  {
    var seen := Sees(a.b, a.fate, k);
    if a.restarts {
      var streaks: Streaks :| Leaves(a.b, a.fate, offers', streaks);
      BatchSights(a.b, a.fate, offers', streaks, k);
      assert (seen + [Restart])[..|seen|] == seen;
    } else {
      BatchSights(a.b, a.fate, offers', streaks', k);
      assert seen + [] == seen;
    }
  }

  lemma {:induction false} SightAllJoins(c: Cell, a: seq<Sighting>, b: seq<Sighting>)
    ensures SightAll(c, a + b) == SightAll(SightAll(c, a), b)
  {
    if b == [] {
      assert a + b == a;
    } else {
      SightAllJoins(c, a, b[..|b| - 1]);
      assert (a + b)[..|a + b| - 1] == a + b[..|b| - 1];
    }
  }

  /**
   Over any run of attempts, failed and retried ones included, an offer is exactly
   what its own sightings make of it: other offers, other products and other
   retailers never interfere.
   */
  lemma {:induction false} OffersAreIndependent(runs: seq<Attempt>, k: OfferKey)
    requires runs != [] && Chain(runs)
    ensures var first, last := runs[0].b, runs[|runs| - 1].b;
      CellAt(last.offers, last.streaks, k)
      == SightAll(CellAt(first.offers, first.streaks, k), MetAll(runs[..|runs| - 1], k))
  {
    var n := |runs| - 1;
    if n > 0 {
      var front := runs[..n];
      assert forall j :: 0 <= j < n ==> front[j] == runs[j];
      OffersAreIndependent(front, k);
      assert front[..n - 1] == runs[..n - 1] && runs[..n][..n - 1] == runs[..n - 1];
      assert Ends(runs[n - 1], runs[n - 1 + 1].b.offers, runs[n - 1 + 1].b.streaks);
      MetSights(runs[n - 1], runs[n].b.offers, runs[n].b.streaks, k);
      SightAllJoins(CellAt(runs[0].b.offers, runs[0].b.streaks, k), MetAll(runs[..n - 1], k), Met(runs[n - 1], k));
    }
  }

  /**
   So the streak of every offer counts its consecutive suspect sightings modulo the
   override since the last plausible price or restart, one for each attempt whether or
   not the batch was stored, and its row holds exactly the stored sightings the streak
   rule lets through.
   */
  lemma StreaksOverRuns(runs: seq<Attempt>, k: OfferKey)
    requires runs != [] && Chain(runs) && CellAt(runs[0].b.offers, runs[0].b.streaks, k).streak == 0
    ensures var c := CellAt(runs[0].b.offers, runs[0].b.streaks, k);
      var xs := MetAll(runs[..|runs| - 1], k);
      var last := CellAt(runs[|runs| - 1].b.offers, runs[|runs| - 1].b.streaks, k);
      && last.streak == TrailingRun(SuspectFlags(c, xs)) % SPIKE_ACCEPT_AFTER
      && last.row == PutWritten(c.row, xs, SuspectFlags(c, xs))
  {
    OffersAreIndependent(runs, k);
    StreakCountsConsecutiveSuspects(CellAt(runs[0].b.offers, runs[0].b.streaks, k), MetAll(runs[..|runs| - 1], k));
    OnlyThirdSuspectsAreWritten(CellAt(runs[0].b.offers, runs[0].b.streaks, k), MetAll(runs[..|runs| - 1], k));
  }

  /**
   Column by column: after any such run, price, URL, stock and time are those of the
   last sighting that was stored, let through and not stale, and category and brand the
   last ones named among those, or what was there at the start.
   */
  lemma ColumnsOverRuns(runs: seq<Attempt>, k: OfferKey, last: int, cat: int, brand: int)
    requires runs != [] && Chain(runs) && CellAt(runs[0].b.offers, runs[0].b.streaks, k).streak == 0
    requires var c, xs := CellAt(runs[0].b.offers, runs[0].b.streaks, k), MetAll(runs[..|runs| - 1], k);
      && last >= -1 && (last == -1 || Lands(c, xs, last)) && (forall j :: last < j < |xs| ==> !Lands(c, xs, j))
      && cat >= -1 && (cat == -1 || (Lands(c, xs, cat) && xs[cat].it.category != ""))
      && (forall j :: cat < j < |xs| && Lands(c, xs, j) ==> xs[j].it.category == "")
      && brand >= -1 && (brand == -1 || (Lands(c, xs, brand) && xs[brand].it.brand != ""))
      && (forall j :: brand < j < |xs| && Lands(c, xs, j) ==> xs[j].it.brand == "")
    ensures var xs, first, end := MetAll(runs[..|runs| - 1], k), runs[0].b.offers, runs[|runs| - 1].b.offers;
      if last == -1 then Lookup(end, k) == Lookup(first, k)
      else
        && k in end && end[k].cents == xs[last].it.cents && end[k].url == xs[last].it.url
        && end[k].inStock == xs[last].it.inStock && end[k].at == xs[last].it.at
        && end[k].category == (if cat >= 0 then xs[cat].it.category else if k in first then first[k].category else "")
        && end[k].brand == (if brand >= 0 then xs[brand].it.brand else if k in first then first[k].brand else "")
  {
    var c, xs := CellAt(runs[0].b.offers, runs[0].b.streaks, k), MetAll(runs[..|runs| - 1], k);
    OffersAreIndependent(runs, k);
    RowIsLastLanded(c, xs, last);
    CategoryIsLastNamed(c, xs, cat);
    BrandIsLastNamed(c, xs, brand);
  }

  /**
   While a run of attempts shows an offer only suspect prices, its row changes if and
   only if a third sighting since a restart, retries counted, is stored and not older
   than the row.
   */
  lemma BlipsOverRuns(runs: seq<Attempt>, k: OfferKey)
    requires runs != [] && Chain(runs)
    requires var c := CellAt(runs[0].b.offers, runs[0].b.streaks, k);
      c.streak == 0 && c.row.Some? && AllSuspect(c, MetAll(runs[..|runs| - 1], k))
    ensures var c := CellAt(runs[0].b.offers, runs[0].b.streaks, k);
      var last := CellAt(runs[|runs| - 1].b.offers, runs[|runs| - 1].b.streaks, k);
      last.row == c.row <==> ThirdsFail(c, MetAll(runs[..|runs| - 1], k))
  {
    OffersAreIndependent(runs, k);
    BlipExact(CellAt(runs[0].b.offers, runs[0].b.streaks, k), MetAll(runs[..|runs| - 1], k));
  }

  lemma MetThree(runs: seq<Attempt>, k: OfferKey)
    requires |runs| == 3
    ensures MetAll(runs, k) == Met(runs[0], k) + Met(runs[1], k) + Met(runs[2], k)
  {
    assert runs[..2][..1] == runs[..1] && runs[..1][..0] == [];
    assert MetAll(runs[..1], k) == Met(runs[0], k);
    assert MetAll(runs[..2], k) == Met(runs[0], k) + Met(runs[1], k);
  }

  /** One page with one corrupt item for offer k, tried three times: only the third try is stored, and its price is then held. */
  lemma RetriedPageOverrides(runs: seq<Attempt>, k: OfferKey, a: Normalized)
    requires |runs| == 4 && Chain(runs) && runs[0].fate == runs[1].fate == Lost && runs[2].fate == Stored
    requires forall j :: 0 <= j < 3 ==> Met(runs[j], k) == [Sighting(a, runs[j].fate == Stored)]
    requires var c := CellAt(runs[0].b.offers, runs[0].b.streaks, k);
      c.streak == 0 && IsSuspect(c, a.cents) && a.at >= c.row.value.at
    ensures var last := CellAt(runs[3].b.offers, runs[3].b.streaks, k);
      last.row.Some? && last.row.value.cents == a.cents
  {
    OffersAreIndependent(runs, k);
    MetThree(runs[..3], k);
    RetriesAcceptABlip(CellAt(runs[0].b.offers, runs[0].b.streaks, k), a, false, false);
  }

  lemma AttemptKeepsTime(a: Attempt, offers': Offers, streaks': Streaks, k: OfferKey)
    requires a.b.Ok() && Ends(a, offers', streaks') && k in a.b.offers
    ensures k in offers' && offers'[k].at >= a.b.offers[k].at
  {
    var streaks := streaks';
    if a.restarts {
      streaks :| Leaves(a.b, a.fate, offers', streaks);
    }
    if a.fate == Stored {
      TimestampsNeverGoBack(a.b, offers', streaks, k);
    }
  }

  /** Over any run of attempts, rejections, failures and restarts included, no offer is lost or goes back in time. */
  lemma {:induction false} RunsNeverGoBack(runs: seq<Attempt>, k: OfferKey)
    requires runs != [] && Chain(runs) && k in runs[0].b.offers
    ensures var last := runs[|runs| - 1].b; k in last.offers && last.offers[k].at >= runs[0].b.offers[k].at
  {
    var n := |runs| - 1;
    if n > 0 {
      var front := runs[..n];
      assert forall j :: 0 <= j < n ==> front[j] == runs[j];
      RunsNeverGoBack(front, k);
      assert Ends(runs[n - 1], runs[n - 1 + 1].b.offers, runs[n - 1 + 1].b.streaks);
      AttemptKeepsTime(runs[n - 1], runs[n].b.offers, runs[n].b.streaks, k);
    }
  }
}
