/** The store itself: caches under a mutex, loops over maps, and the statements it sends. */
module StoreClass {
  import opened Wrappers
  import opened Prices
  import opened Normalization
  import opened Ordering
  import opened SpikeStreak
  import opened OfferStore

  class Store {
    // Database tables.
    var products: Products
    var nextId: nat
    var offers: Offers
    // In-memory state.
    var ids: Products
    var spikes: Streaks

    ghost predicate ProductsOk()
      reads this
    {
      && Injective(products) && FreshAbove(products, nextId)
      && (forall sku :: sku in ids ==> sku in products && ids[sku] == products[sku])
    }

    ghost predicate StreaksOk()
      reads this`spikes
    {
      forall k :: k in spikes ==> 0 < spikes[k] < SPIKE_ACCEPT_AFTER
    }

    ghost predicate Valid()
      reads this
    {
      ProductsOk() && StreaksOk()
    }

    constructor ()
      ensures Valid() && products == map[] && offers == map[] && ids == map[] && spikes == map[]
    {
      products, nextId, offers, ids, spikes := map[], 1, map[], map[], map[];
    }

    /** Records one rejection; true when the streak has run long enough to accept instead. */
    method NoteSpike(k: OfferKey) returns (accept: bool)
      requires StreaksOk()
      modifies this`spikes
      ensures StreaksOk()
      ensures accept == (CellAt(offers, old(spikes), k).streak + 1 >= SPIKE_ACCEPT_AFTER)
      ensures CellAt(offers, spikes, k).streak == if accept then 0 else CellAt(offers, old(spikes), k).streak + 1
      ensures forall j :: j != k ==> CellAt(offers, spikes, j) == CellAt(offers, old(spikes), j)
    {
      spikes := spikes[k := (if k in spikes then spikes[k] else 0) + 1];
      if spikes[k] >= SPIKE_ACCEPT_AFTER {
        spikes := spikes - {k};
        return true;
      }
      return false;
    }

    method ClearSpike(k: OfferKey)
      requires StreaksOk()
      modifies this`spikes
      ensures StreaksOk() && CellAt(offers, spikes, k).streak == 0
      ensures forall j :: j != k ==> CellAt(offers, spikes, j) == CellAt(offers, old(spikes), j)
    {
      spikes := spikes - {k};
    }

    method DedupeBatch(items: seq<Normalized>) returns (bySku: map<string, Normalized>)
      ensures bySku == BySku(items)
    {
      bySku := map[];
      for i := 0 to |items|
        invariant bySku == BySku(items[..i])
      {
        var it := items[i];
        assert items[..i + 1] == items[..i] + [it];
        BySkuAppends(items[..i], it);
        if it.sku !in bySku || it.at > bySku[it.sku].at {
          bySku := bySku[it.sku := it];
        }
      }
      assert items[..|items|] == items;
    }

    /** The products statement: new ids in list order, existing rows left alone. */
    method InsertProducts(skus: seq<string>)
      requires ProductsOk()
      modifies this`products, this`nextId
      ensures ProductsOk()
      ensures forall sku :: sku in products <==> sku in old(products) || sku in skus
      ensures forall sku :: sku in old(products) ==> products[sku] == old(products)[sku]
    {
      for i := 0 to |skus|
        invariant ProductsOk()
        invariant forall sku :: sku in products <==> sku in old(products) || sku in skus[..i]
        invariant forall sku :: sku in old(products) ==> products[sku] == old(products)[sku]
      {
        if skus[i] !in products {
          products := products[skus[i] := nextId];
          nextId := nextId + 1;
        }
      }
    }

    /** Splits the batch's SKUs into those with a cached id and the others. */
    method SplitCached(bySku: map<string, Normalized>) returns (out: Products, misses: seq<string>)
      requires ProductsOk()
      ensures forall sku :: sku in out <==> sku in bySku && sku in ids
      ensures forall sku :: sku in out ==> out[sku] == ids[sku]
      ensures forall sku :: sku in misses <==> sku in bySku && sku !in ids
      ensures DistinctKeys((s: string) => s, misses)
    {
      out, misses := map[], [];
      var left := bySku.Keys;
      while left != {}
        invariant left <= bySku.Keys
        invariant forall sku :: sku in out <==> sku in bySku.Keys - left && sku in ids
        invariant forall sku :: sku in out ==> out[sku] == ids[sku]
        invariant forall sku :: sku in misses <==> sku in bySku.Keys - left && sku !in ids
        invariant DistinctKeys((s: string) => s, misses)
        decreases left
      {
        var sku :| sku in left;
        left := left - {sku};
        if sku in ids {
          out := out[sku := ids[sku]];
        } else {
          misses := misses + [sku];
        }
      }
    }

    /** Reads the ids of the missing SKUs back and caches them. */
    method SelectProducts(misses: seq<string>) returns (found: Products)
      requires ProductsOk()
      modifies this`ids
      ensures ProductsOk()
      ensures found == map sku | sku in misses && sku in products :: products[sku]
    {
      found := map sku | sku in misses && sku in products :: products[sku];
      ids := ids + found;
    }

    /** Maps each SKU of the batch to its product, creating the products that can be created. */
    method ResolveProducts(bySku: map<string, Normalized>, fault: Fault)
      returns (res: Result<Products, Fault>, insertOrder: seq<string>)
      requires ProductsOk()
      modifies this`products, this`nextId, this`ids
      ensures ProductsOk()
      ensures Ascending(LessString, insertOrder) && forall sku :: sku in insertOrder ==> sku in bySku
      ensures res.Ok? ==> ProductsAfter(old(products), products, bySku) && res.value == Resolved(products, bySku)
      ensures res.Err? ==> res.error == fault && fault in {InsertProductsFails, SelectProductsFails} && ids == old(ids)
      ensures res.Err? ==> products == old(products) || ProductsAfter(old(products), products, bySku)
    {
      var out, misses := SplitCached(bySku);
      insertOrder := TitledInOrder(misses, bySku);
      CachedAreKnown(products, ids, bySku, misses, insertOrder);
      if misses == [] {
        return Ok(out), insertOrder;
      }
      if insertOrder != [] {
        if fault == InsertProductsFails {
          return Err(fault), insertOrder;
        }
        InsertProducts(insertOrder);
      }
      if fault == SelectProductsFails {
        return Err(fault), insertOrder;
      }
      var found := SelectProducts(misses);
      ResolvedSplits(products, old(ids), bySku, misses, out, found);
      return Ok(out + found), insertOrder;
    }

    method HeldPrices(retailer: int, ids: Products) returns (held: map<nat, int>)
      ensures forall sku :: sku in ids ==> Lookup(held, ids[sku]) == HeldCents(offers, OfferKey(retailer, ids[sku]))
    {
      held := map p | p in ids.Values && OfferKey(retailer, p) in offers :: offers[OfferKey(retailer, p)].cents;
    }

    /** The spike check of one resolved item: rejected, accepted in spite of it, or plausible. */
    method CheckSpike(ghost b: Batch, k: OfferKey, it: Normalized, held: map<nat, int>) returns (v: Verdict)
      requires StreaksOk() && b.Ok() && it.sku in b.ids && it.sku in b.bySku && b.bySku[it.sku] == it && k == b.KeyOf(it.sku)
      requires offers == b.offers && CellAt(offers, spikes, k).streak == b.Cell(it.sku).streak
      requires Lookup(held, k.product) == HeldCents(offers, k)
      modifies this`spikes
      ensures StreaksOk() && v == b.Verdict(it.sku)
      ensures CellAt(offers, spikes, k).streak == Observe(b.Cell(it.sku), it).streak
      ensures forall j :: j != k ==> CellAt(offers, spikes, j) == CellAt(offers, old(spikes), j)
    {
      if k.product in held && Suspect(held[k.product], it.cents) {
        var accept := NoteSpike(k);
        if !accept {
          return Rejected;
        }
        return Overridden;
      }
      ClearSpike(k);
      return Plausible;
    }

    /** One SKU of the batch: unknown, a spike, or a row to write. */
    method JudgeSku(ghost b: Batch, retailer: int, ids: Products, it: Normalized, held: map<nat, int>, ghost done: set<string>)
      returns (o: Outcome)
      requires StreaksOk() && b.Ok() && b.offers == offers && b.retailer == retailer && b.ids == ids
      requires it.sku in b.bySku && b.bySku[it.sku] == it && it.sku !in done && StreaksAfter(b, done, spikes)
      requires it.sku in ids ==> Lookup(held, ids[it.sku]) == HeldCents(offers, OfferKey(retailer, ids[it.sku]))
      modifies this`spikes
      ensures StreaksOk() && o == b.OutcomeOf(it.sku) && StreaksAfter(b, done + {it.sku}, spikes)
    {
      if it.sku !in ids {
        return Outcome([], [], [it], 0);
      }
      var k := OfferKey(retailer, ids[it.sku]);
      var v := CheckSpike(b, k, it, held);
      TakeSku(b, done, it.sku, old(spikes), spikes);
      match v {
        case Rejected => return Outcome([], [SpikeReject(it, held[ids[it.sku]])], [], 0);
        case Overridden => return Outcome([Chosen(ids[it.sku], it)], [], [], 1);
        case Plausible => return Outcome([Chosen(ids[it.sku], it)], [], [], 0);
      }
    }

    /** The loop over the batch; the map is walked in any order. */
    method JudgeBatch(ghost b: Batch, retailer: int, ids: Products, bySku: map<string, Normalized>, held: map<nat, int>)
      returns (o: Outcome, ghost order: seq<string>)
      requires StreaksOk() && b == Batch(offers, spikes, retailer, ids, bySku) && b.Ok()
      requires forall sku :: sku in bySku ==> bySku[sku].sku == sku
      requires forall sku :: sku in ids ==> Lookup(held, ids[sku]) == HeldCents(offers, OfferKey(retailer, ids[sku]))
      modifies this`spikes
      ensures StreaksOk() && Enumerates(order, bySku.Keys) && StreaksAfter(b, bySku.Keys, spikes)
      ensures o == b.Outcomes(order)
    {
      o, order := Outcome([], [], [], 0), [];
      var left := bySku.Keys;
      while left != {}
        invariant StreaksOk() && left <= bySku.Keys
        invariant Enumerates(order, bySku.Keys - left)
        invariant StreaksAfter(b, bySku.Keys - left, spikes) && o == b.Outcomes(order)
        decreases left
      {
        var sku :| sku in left;
        var next := JudgeSku(b, retailer, ids, bySku[sku], held, bySku.Keys - left);
        EnumeratesMore(b, order, bySku.Keys - left, sku);
        assert bySku.Keys - (left - {sku}) == bySku.Keys - left + {sku};
        left := left - {sku};
        o := o.Plus(next);
        order := order + [sku];
      }
    }

    /** The offers statement over rows of distinct products. */
    method UpsertOffers(retailer: int, rows: seq<Chosen>) returns (affected: nat)
      requires DistinctProducts(rows)
      modifies this`offers
      ensures offers == PutAll(old(offers), retailer, rows)
      ensures affected == |rows| - StaleCount(old(offers), retailer, rows)
      ensures forall i :: 0 <= i < |rows| ==> var k := OfferKey(retailer, rows[i].product);
        k in offers && if k in old(offers) && old(offers)[k].at > rows[i].item.at then offers[k] == old(offers)[k]
                       else Shows(offers[k], rows[i].item, Lookup(old(offers), k))
    {
      affected := 0;
      ghost var stored := offers;
      for i := 0 to |rows|
        invariant offers == PutAll(stored, retailer, rows[..i])
        invariant affected == i - StaleCount(stored, retailer, rows[..i])
      {
        assert rows[..i + 1][..i] == rows[..i];
        var k := OfferKey(retailer, rows[i].product);
        forall c | c in rows[..i] ensures k != OfferKey(retailer, c.product) {
          var j :| 0 <= j < i && rows[j] == c;
          assert rows[j].product != rows[i].product;
        }
        PutAllAt(stored, retailer, rows[..i], k, -1);
        if !(k in offers && offers[k].at > rows[i].item.at) {
          affected := affected + 1;
        }
        offers := PutRow(offers, k, rows[i].item);
      }
      assert rows[..|rows|] == rows;
      RowsShow(stored, retailer, rows);
    }

    /** The batch from the spike check on, once its products are known. */
    method ApplyBatch(retailer: int, ids: Products, bySku: map<string, Normalized>, fault: Fault)
      returns (res: Result<UpsertResult, Fault>, ghost order: seq<string>, ghost rows: seq<Chosen>)
      requires StreaksOk() && ids.Keys <= bySku.Keys && Injective(ids)
      requires forall sku :: sku in bySku ==> bySku[sku].sku == sku
      modifies this`offers, this`spikes
      ensures StreaksOk()
      ensures var b := Batch(old(offers), old(spikes), retailer, ids, bySku);
        match res
        case Ok(r) => Observed(b, offers, spikes) && Reports(b, order, rows, r)
        case Err(e) =>
          && e == fault && offers == old(offers)
          && (if fault == HeldPricesFails then spikes == old(spikes)
              else fault == UpsertOffersFails && StreaksAfter(b, bySku.Keys, spikes))
    {
      order, rows := [], [];
      if fault == HeldPricesFails {
        return Err(fault), order, rows;
      }
      var held := HeldPrices(retailer, ids);
      ghost var b := Batch(offers, spikes, retailer, ids, bySku);
      var o: Outcome;
      o, order := JudgeBatch(b, retailer, ids, bySku, held);
      if o.accepted == [] {
        NothingAccepted(b, order, spikes);
        return Ok(UpsertResult([], o.spikes, o.overrides, 0, o.noTitle)), order, rows;
      }
      if fault == UpsertOffersFails {
        return Err(fault), order, rows;
      }
      var r;
      r, rows := WriteAccepted(b, order, retailer, o);
      return Ok(r), order, rows;
    }

    /** Sorts the accepted rows and sends the offers statement. */
    method WriteAccepted(ghost b: Batch, ghost order: seq<string>, retailer: int, o: Outcome)
      returns (r: UpsertResult, ghost rows: seq<Chosen>)
      requires b.Ok() && b.offers == offers && b.retailer == retailer
      requires Enumerates(order, b.bySku.Keys) && StreaksAfter(b, b.bySku.Keys, spikes)
      requires o == b.Outcomes(order)
      modifies this`offers
      ensures Observed(b, offers, spikes) && Reports(b, order, rows, r)
    {
      AcceptedExact(b, order);
      var sorted := SortByProduct(o.accepted);
      rows := sorted;
      SortedRowsObserve(b, order, sorted, spikes);
      assert DistinctProducts(sorted);
      var affected := UpsertOffers(retailer, sorted);
      r := UpsertResult(Rows(sorted), o.spikes, o.overrides, |sorted| - affected, o.noTitle);
    }

    /**
     The whole batch. On success each resolved SKU has made one observation on its
     offer and nothing else has changed; the accepted rows are listed by strictly
     ascending product. A failure never touches the offers, but one of the final
     statement leaves the streaks moved.
     */
    method UpsertBatch(retailer: int, items: seq<Normalized>, fault: Fault)
      returns (res: Result<UpsertResult, Fault>, ghost order: seq<string>, ghost rows: seq<Chosen>)
      requires Valid()
      modifies this
      ensures Valid()
      ensures var b := Batch(old(offers), old(spikes), retailer, Resolved(products, BySku(items)), BySku(items));
        match res
        case Ok(r) =>
          ProductsAfter(old(products), products, BySku(items)) && Observed(b, offers, spikes) && Reports(b, order, rows, r)
        case Err(e) =>
          e == fault && Leaves(b, FateOf(res), offers, spikes)
    {
      order, rows := [], [];
      if |items| == 0 {
        return Ok(NOTHING), order, rows;
      }
      var bySku := DedupeBatch(items);
      var resolved, insertOrder := ResolveProducts(bySku, fault);
      if resolved.Err? {
        return Err(resolved.error), order, rows;
      }
      res, order, rows := ApplyBatch(retailer, resolved.value, bySku, fault);
    }
  }

  lemma RowsShow(offers: Offers, retailer: int, rows: seq<Chosen>)
    requires DistinctProducts(rows)
    ensures forall i :: 0 <= i < |rows| ==> var k, after := OfferKey(retailer, rows[i].product), PutAll(offers, retailer, rows);
      k in after && if k in offers && offers[k].at > rows[i].item.at then after[k] == offers[k]
                    else Shows(after[k], rows[i].item, Lookup(offers, k))
  {
    forall i | 0 <= i < |rows|
      ensures var k, after := OfferKey(retailer, rows[i].product), PutAll(offers, retailer, rows);
        k in after && if k in offers && offers[k].at > rows[i].item.at then after[k] == offers[k]
                      else Shows(after[k], rows[i].item, Lookup(offers, k))
    {
      var k := OfferKey(retailer, rows[i].product);
      PutAllAt(offers, retailer, rows, k, i);
      PutShows(Lookup(offers, k), rows[i].item);
    }
  }

  method SortByProduct(rows: seq<Chosen>) returns (sorted: seq<Chosen>)
    requires DistinctProducts(rows)
    ensures ByProduct(sorted) && multiset(sorted) == multiset(rows)
  {
    OrdersAreStrict();
    var key: Chosen -> int := (c: Chosen) => c.product;
    assert DistinctKeys(key, rows);
    sorted := Sort(LessInt, key, rows);
    assert Sorted(LessInt, key, sorted);
    assert forall i, j :: 0 <= i < j < |sorted| ==> LessInt(key(sorted[i]), key(sorted[j]));
  }

  lemma NothingAccepted(b: Batch, order: seq<string>, streaks: Streaks)
    requires b.Ok() && Enumerates(order, b.bySku.Keys) && StreaksAfter(b, b.bySku.Keys, streaks)
    requires b.Outcomes(order).accepted == []
    ensures Observed(b, b.offers, streaks)
  {
    forall sku | sku in b.ids && sku in b.bySku
      ensures CellAt(b.offers, streaks, b.KeyOf(sku)) == Observe(b.Cell(sku), b.bySku[sku])
    {
      AcceptedIff(b, order, sku);
    }
  }

  /** Writing the accepted rows, in sorted order, completes each offer's observation. */
  lemma SortedRowsObserve(b: Batch, order: seq<string>, rows: seq<Chosen>, streaks: Streaks)
    requires b.Ok() && Enumerates(order, b.bySku.Keys) && StreaksAfter(b, b.bySku.Keys, streaks)
    requires multiset(rows) == multiset(b.Outcomes(order).accepted) && ByProduct(rows)
    ensures Observed(b, PutAll(b.offers, b.retailer, rows), streaks)
  {
    AcceptedExact(b, order);
    SortedMembers(rows, b.Outcomes(order).accepted);
    forall sku | sku in b.ids && sku in b.bySku
      ensures CellAt(PutAll(b.offers, b.retailer, rows), streaks, b.KeyOf(sku)) == Observe(b.Cell(sku), b.bySku[sku])
    {
      ObservedRow(b, order, rows, sku);
    }
    forall k: OfferKey | k.retailer != b.retailer || k.product !in b.ids.Values
      ensures CellAt(PutAll(b.offers, b.retailer, rows), streaks, k) == CellAt(b.offers, b.streaks, k)
    {
      forall c | c in rows ensures k != OfferKey(b.retailer, c.product) {
        var sku :| sku in order && sku in b.ids && c == Chosen(b.ids[sku], b.bySku[sku]);
      }
      PutAllAt(b.offers, b.retailer, rows, k, -1);
    }
  }

  lemma ObservedRow(b: Batch, order: seq<string>, rows: seq<Chosen>, sku: string)
    requires b.Ok() && Enumerates(order, b.bySku.Keys) && sku in b.ids && sku in b.bySku
    requires DistinctProducts(rows)
    requires forall c :: c in rows <==>
      exists s :: s in order && s in b.ids && !b.Verdict(s).Rejected? && c == Chosen(b.ids[s], b.bySku[s])
    ensures Lookup(PutAll(b.offers, b.retailer, rows), b.KeyOf(sku)) == Observe(b.Cell(sku), b.bySku[sku]).row
  {
    if b.Verdict(sku).Rejected? {
      forall c | c in rows ensures b.KeyOf(sku) != OfferKey(b.retailer, c.product) {
        var s :| s in order && s in b.ids && !b.Verdict(s).Rejected? && c == Chosen(b.ids[s], b.bySku[s]);
        assert s != sku;
      }
      PutAllAt(b.offers, b.retailer, rows, b.KeyOf(sku), -1);
    } else {
      assert Chosen(b.ids[sku], b.bySku[sku]) in rows;
      var i :| 0 <= i < |rows| && rows[i] == Chosen(b.ids[sku], b.bySku[sku]);
      PutAllAt(b.offers, b.retailer, rows, b.KeyOf(sku), i);
    }
  }

  lemma EnumeratesMore(b: Batch, order: seq<string>, done: set<string>, sku: string)
    requires Enumerates(order, done) && sku !in done && sku in b.bySku && done <= b.bySku.Keys
    ensures Enumerates(order + [sku], done + {sku})
    ensures b.Outcomes(order + [sku]) == b.Outcomes(order).Plus(b.OutcomeOf(sku))
  {
    assert (order + [sku])[..|order|] == order;
  }

  /** Taking one more SKU of the batch moves only its own offer's streak. */
  lemma TakeSku(b: Batch, done: set<string>, sku: string, before: Streaks, after: Streaks)
    requires b.Ok() && sku in b.ids && sku in b.bySku && sku !in done && StreaksAfter(b, done, before)
    requires CellAt(b.offers, after, b.KeyOf(sku)).streak == Observe(b.Cell(sku), b.bySku[sku]).streak
    requires forall j :: j != b.KeyOf(sku) ==> CellAt(b.offers, after, j) == CellAt(b.offers, before, j)
    ensures StreaksAfter(b, done + {sku}, after)
  {
    forall other | other in b.ids && other in b.bySku
      ensures CellAt(b.offers, after, b.KeyOf(other)).streak
        == if other in done + {sku} then Observe(b.Cell(other), b.bySku[other]).streak else b.Cell(other).streak
    {
      if other != sku {
        assert b.KeyOf(other) != b.KeyOf(sku);
      }
    }
    assert b.ids[sku] in b.ids.Values;
  }

  /** Only uncached titled SKUs are inserted, and of those exactly the unknown ones are new. */
  lemma CachedAreKnown(products: Products, ids: Products, bySku: map<string, Normalized>, misses: seq<string>, titled: seq<string>)
    requires forall sku :: sku in ids ==> sku in products
    requires forall sku :: sku in misses <==> sku in bySku && sku !in ids
    requires forall sku :: sku in titled <==> sku in misses && bySku[sku].title != ""
    ensures forall sku :: sku in products || sku in titled <==> sku in products || Creates(products, bySku, sku)
    ensures misses == [] ==> forall sku :: sku in bySku ==> sku in ids
  {
    if misses == [] {
      forall sku | sku in bySku ensures sku in ids {
        assert sku !in misses;
      }
    }
  }

  lemma ResolvedSplits(products: Products, ids: Products, bySku: map<string, Normalized>, misses: seq<string>, out: Products, found: Products)
    requires forall sku :: sku in ids ==> sku in products && ids[sku] == products[sku]
    requires forall sku :: sku in misses <==> sku in bySku && sku !in ids
    requires forall sku :: sku in out <==> sku in bySku && sku in ids
    requires forall sku :: sku in out ==> out[sku] == ids[sku]
    requires found == map sku | sku in misses && sku in products :: products[sku]
    ensures out + found == Resolved(products, bySku)
  {}

  /** The misses that carry a title, in byte order. */
  method TitledInOrder(misses: seq<string>, bySku: map<string, Normalized>) returns (skus: seq<string>)
    requires DistinctKeys((s: string) => s, misses) && forall sku :: sku in misses ==> sku in bySku
    ensures Ascending(LessString, skus)
    ensures forall sku :: sku in skus <==> sku in misses && bySku[sku].title != ""
  {
    OrdersAreStrict();
    var sorted := Sort(LessString, (s: string) => s, misses);
    SortedMembers(misses, sorted);
    skus := [];
    for i := 0 to |sorted|
      invariant Ascending(LessString, skus)
      invariant forall sku :: sku in skus <==> sku in sorted[..i] && bySku[sku].title != ""
    {
      assert sorted[i] in sorted;
      if bySku[sorted[i]].title != "" {
        forall k | 0 <= k < |skus| ensures LessString(skus[k], sorted[i]) {
          assert skus[k] in skus;
          var j :| 0 <= j < i && sorted[j] == skus[k];
          assert Sorted(LessString, (s: string) => s, sorted);
        }
        skus := skus + [sorted[i]];
      }
    }
    assert sorted[..|sorted|] == sorted;
  }

  lemma SortedMembers<T>(a: seq<T>, b: seq<T>)
    requires multiset(a) == multiset(b)
    ensures forall x :: x in a <==> x in b
  {
    forall x
      ensures x in a <==> x in b
    {
      assert x in a <==> x in multiset(a);
      assert x in b <==> x in multiset(b);
    }
  }
}
