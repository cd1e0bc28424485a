/** What the report of a batch says of each SKU it met (internal/ingest/store.go:80-96, 123-198). */
module BatchReport {
  import opened Prices
  import opened OfferStore
  import opened StoreClass

  /** The price of a resolved SKU is suspect against the one its offer holds. */
  ghost predicate Suspected(b: Batch, sku: string)
    requires sku in b.ids && sku in b.bySku
  {
    var k := OfferKey(b.retailer, b.ids[sku]);
    k in b.offers && Suspect(b.offers[k].cents, b.bySku[sku].cents)
  }

  /** It is, and not for the third time in a row. */
  ghost predicate HeldBack(b: Batch, sku: string)
    requires sku in b.ids && sku in b.bySku
  {
    var k := OfferKey(b.retailer, b.ids[sku]);
    Suspected(b, sku) && (if k in b.streaks then b.streaks[k] else 0) < 2
  }

  ghost function Through(b: Batch, skus: set<string>): set<string>
    requires skus <= b.bySku.Keys
  {
    set sku | sku in skus && sku in b.ids && !HeldBack(b, sku)
  }

  ghost function Back(b: Batch, skus: set<string>): set<string>
    requires skus <= b.bySku.Keys
  {
    set sku | sku in skus && sku in b.ids && HeldBack(b, sku)
  }

  ghost function Overridden(b: Batch, skus: set<string>): set<string>
    requires skus <= b.bySku.Keys
  {
    set sku | sku in skus && sku in b.ids && !HeldBack(b, sku) && Suspected(b, sku)
  }

  ghost function Unknown(b: Batch, skus: set<string>): set<string> {
    set sku | sku in skus && sku !in b.ids
  }

  function ChosenOf(b: Batch, sku: string): Chosen
    requires sku in b.ids && sku in b.bySku
  {
    Chosen(b.ids[sku], b.bySku[sku])
  }

  ghost function SpikeOf(b: Batch, sku: string): SpikeReject
    requires sku in b.ids && sku in b.bySku && HeldBack(b, sku)
  {
    SpikeReject(b.bySku[sku], b.offers[OfferKey(b.retailer, b.ids[sku])].cents)
  }

  /** The lists hold one entry for each SKU that calls for it, and nothing else. */
  ghost predicate ListsOf(b: Batch, skus: set<string>, o: Outcome)
    requires skus <= b.bySku.Keys
  {
    && (forall c :: c in o.accepted <==> exists sku :: sku in Through(b, skus) && c == ChosenOf(b, sku))
    && (forall x :: x in o.spikes <==> exists sku :: sku in Back(b, skus) && x == SpikeOf(b, sku))
    && (forall it :: it in o.noTitle <==> exists sku :: sku in Unknown(b, skus) && it == b.bySku[sku])
  }

  ghost predicate CountsOf(b: Batch, skus: set<string>, o: Outcome)
    requires skus <= b.bySku.Keys
  {
    && |o.accepted| == |Through(b, skus)| && |o.spikes| == |Back(b, skus)| && |o.noTitle| == |Unknown(b, skus)|
    && o.overrides == |Overridden(b, skus)|
  }

  /** One more SKU is in exactly one of the three sets. */
  lemma OneMore(b: Batch, skus: set<string>, sku: string)
    requires skus <= b.bySku.Keys && sku in b.bySku && sku !in skus
    ensures var all := skus + {sku};
      && Unknown(b, all) == (if sku !in b.ids then Unknown(b, skus) + {sku} else Unknown(b, skus))
      && Through(b, all) == (if sku in b.ids && !HeldBack(b, sku) then Through(b, skus) + {sku} else Through(b, skus))
      && Back(b, all) == (if sku in b.ids && HeldBack(b, sku) then Back(b, skus) + {sku} else Back(b, skus))
      && Overridden(b, all)
         == (if sku in b.ids && !HeldBack(b, sku) && Suspected(b, sku) then Overridden(b, skus) + {sku} else Overridden(b, skus))
  {}

  lemma OutcomeOfExact(b: Batch, sku: string)
    requires sku in b.bySku
    ensures b.OutcomeOf(sku) ==
      if sku !in b.ids then Outcome([], [], [b.bySku[sku]], 0)
      else if HeldBack(b, sku) then Outcome([], [SpikeOf(b, sku)], [], 0)
      else Outcome([ChosenOf(b, sku)], [], [], if Suspected(b, sku) then 1 else 0)
  {}

  ghost function SkusOf(order: seq<string>): set<string> {
    set sku | sku in order
  }

  lemma ListsMore(b: Batch, skus: set<string>, o: Outcome, sku: string)
    requires skus <= b.bySku.Keys && sku in b.bySku && sku !in skus && ListsOf(b, skus, o)
    ensures ListsOf(b, skus + {sku}, o.Plus(b.OutcomeOf(sku)))
  {
    OneMore(b, skus, sku);
    OutcomeOfExact(b, sku);
  }

  lemma AddedCounts(s: set<string>, sku: string, hit: bool)
    requires sku !in s
    ensures |if hit then s + {sku} else s| == |s| + if hit then 1 else 0
  {}

  lemma CountsMore(b: Batch, skus: set<string>, o: Outcome, sku: string)
    requires skus <= b.bySku.Keys && sku in b.bySku && sku !in skus && CountsOf(b, skus, o)
    ensures CountsOf(b, skus + {sku}, o.Plus(b.OutcomeOf(sku)))
  {
    OneMore(b, skus, sku);
    OutcomeOfExact(b, sku);
    AddedCounts(Unknown(b, skus), sku, sku !in b.ids);
    AddedCounts(Through(b, skus), sku, sku in b.ids && !HeldBack(b, sku));
    AddedCounts(Back(b, skus), sku, sku in b.ids && HeldBack(b, sku));
    AddedCounts(Overridden(b, skus), sku, sku in b.ids && !HeldBack(b, sku) && Suspected(b, sku));
  }

  lemma {:induction false} OutcomesExact(b: Batch, order: seq<string>)
    requires (forall sku :: sku in order ==> sku in b.bySku) && forall i, j :: 0 <= i < j < |order| ==> order[i] != order[j]
    ensures ListsOf(b, SkusOf(order), b.Outcomes(order)) && CountsOf(b, SkusOf(order), b.Outcomes(order))
  {
    if order != [] {
      var n := |order| - 1;
      OutcomesExact(b, order[..n]);
      assert SkusOf(order) == SkusOf(order[..n]) + {order[n]};
      ListsMore(b, SkusOf(order[..n]), b.Outcomes(order[..n]), order[n]);
      CountsMore(b, SkusOf(order[..n]), b.Outcomes(order[..n]), order[n]);
    }
  }

  /** Positions of accepted rows that the guard skipped because the offer was newer. */
  ghost function StaleRows(offers: Offers, retailer: int, rows: seq<AcceptedRow>): set<nat> {
    set i: nat | i < |rows| && OfferKey(retailer, rows[i].product) in offers
      && offers[OfferKey(retailer, rows[i].product)].at > rows[i].at
  }

  lemma {:induction false} StaleCountIs(offers: Offers, retailer: int, rows: seq<Chosen>)
    ensures StaleCount(offers, retailer, rows) == |StaleRows(offers, retailer, Rows(rows))|
  {
    if rows != [] {
      var n := |rows| - 1;
      StaleCountIs(offers, retailer, rows[..n]);
      var before := StaleRows(offers, retailer, Rows(rows[..n]));
      assert StaleRows(offers, retailer, Rows(rows))
        == if Stale(offers, OfferKey(retailer, rows[n].product), rows[n].item) then before + {n} else before;
    }
  }

  ghost function RowFor(b: Batch, sku: string): AcceptedRow
    requires sku in b.ids && sku in b.bySku
  {
    var it := b.bySku[sku];
    AcceptedRow(b.ids[sku], it.cents, it.inStock, it.at)
  }

  lemma AcceptedRowsExact(b: Batch, order: seq<string>, rows: seq<Chosen>)
    requires Enumerates(order, b.bySku.Keys) && multiset(rows) == multiset(b.Outcomes(order).accepted)
    ensures |rows| == |Through(b, b.bySku.Keys)|
    ensures forall a :: a in Rows(rows) <==> exists sku :: sku in Through(b, b.bySku.Keys) && a == RowFor(b, sku)
  {
    OutcomesExact(b, order);
    assert SkusOf(order) == b.bySku.Keys;
    var accepted := b.Outcomes(order).accepted;
    assert |rows| == |multiset(rows)| == |multiset(accepted)| == |accepted|;
    SortedMembers(rows, accepted);
    forall a ensures a in Rows(rows) <==> exists sku :: sku in Through(b, b.bySku.Keys) && a == RowFor(b, sku) {
      if a in Rows(rows) {
        var i :| 0 <= i < |rows| && Rows(rows)[i] == a;
        assert rows[i] in accepted;
        var sku :| sku in Through(b, b.bySku.Keys) && rows[i] == ChosenOf(b, sku);
        assert a == RowFor(b, sku);
      }
      if sku :| sku in Through(b, b.bySku.Keys) && a == RowFor(b, sku) {
        assert ChosenOf(b, sku) in accepted;
        var i :| 0 <= i < |rows| && rows[i] == ChosenOf(b, sku);
        assert Rows(rows)[i] == a;
      }
    }
  }

  /**
   The report, in terms of the offers and streaks the batch met. Accepted are the SKUs
   with a product whose price is not held back, once each and by ascending product;
   rejected, with the held price, those whose price is; untitled those without a
   product. Overrides are the accepted ones that are suspect, stale the accepted ones
   the guard skipped.
   */
  lemma ReportExact(b: Batch, order: seq<string>, rows: seq<Chosen>, res: UpsertResult)
    requires Reports(b, order, rows, res)
    ensures forall a :: a in res.accepted <==> exists sku :: sku in Through(b, b.bySku.Keys) && a == RowFor(b, sku)
    ensures |res.accepted| == |Through(b, b.bySku.Keys)|
    ensures forall i, j :: 0 <= i < j < |res.accepted| ==> res.accepted[i].product < res.accepted[j].product
    ensures forall x :: x in res.spikes <==> exists sku :: sku in Back(b, b.bySku.Keys) && x == SpikeOf(b, sku)
    ensures |res.spikes| == |Back(b, b.bySku.Keys)|
    ensures forall it :: it in res.noTitle <==> exists sku :: sku in Unknown(b, b.bySku.Keys) && it == b.bySku[sku]
    ensures |res.noTitle| == |Unknown(b, b.bySku.Keys)|
    ensures res.overrides == |Overridden(b, b.bySku.Keys)|
    ensures res.staleSkipped == |StaleRows(b.offers, b.retailer, res.accepted)|
  {
    OutcomesExact(b, order);
    assert SkusOf(order) == b.bySku.Keys;
    AcceptedRowsExact(b, order, rows);
    StaleCountIs(b.offers, b.retailer, rows);
  }

  /** After a resolution, the SKUs without a product are those that were untracked and came without a title. */
  lemma UnknownAreUntitled(before: Products, after: Products, b: Batch, sku: string)
    requires ProductsAfter(before, after, b.bySku) && b.ids == Resolved(after, b.bySku) && sku in b.bySku
    ensures sku in Unknown(b, b.bySku.Keys) <==> sku !in before && b.bySku[sku].title == ""
  {}
}
