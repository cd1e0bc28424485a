/** The feed's two paging handlers (internal/feedgen/server.go:71-118), each as one atomic response. */
module FeedServer {
  import opened Floats
  import opened Wrappers
  import opened LastWriteWins
  import opened FeedLog
  import opened FeedStream
  import opened CatalogPaging
  import opened FeedWire
  import opened Prices
  import opened Normalization
  import opened Pipeline
  import opened Convergence
  import opened TiedReplay

  datatype CatalogResponse = CatalogResponse(items: seq<RawItem>, next: Option<nat>, asOf: nat, epoch: nat)

  datatype OffersResponse = Gone410 | OffersOk(items: seq<RawItem>, next: nat, hasMore: bool, epoch: nat)

  /** When an item is stamped, and its quirks. */
  datatype Choice = Choice(stamp: int, quirk: Quirk)

  function PageLimit(requested: int, max: nat): nat {
    if requested <= 0 || requested > max then max else requested
  }

  function Dupes(choices: seq<Choice>): set<nat> {
    set i | 0 <= i < |choices| && choices[i].quirk.dupe.Some?
  }

  /** What a server knows of its products: listing, description, and this response's choices per product. */
  ghost predicate Matching(catalog: seq<Listing>, infos: seq<Info>, choices: seq<Choice>) {
    |catalog| == |infos| == |choices|
  }

  ghost function ItemsOf(catalog: seq<Listing>, infos: seq<Info>, log: seq<Update>, choices: seq<Choice>, i: nat): seq<RawItem>
    requires Matching(catalog, infos, choices) && i < |catalog|
  {
    if !catalog[i].carried then []
    else
      var cur := StateAt(catalog, log, i);
      Serialized(i, infos[i], cur.priceCents, cur.inStock, choices[i].stamp, choices[i].quirk)
  }

  /** The items a catalog page must hold for the index range [lo, hi). */
  ghost function PageItems(catalog: seq<Listing>, infos: seq<Info>, log: seq<Update>, choices: seq<Choice>, lo: nat, hi: nat): seq<RawItem>
    requires Matching(catalog, infos, choices) && lo <= hi <= |catalog|
  {
    if lo == hi then []
    else PageItems(catalog, infos, log, choices, lo, hi - 1) + ItemsOf(catalog, infos, log, choices, hi - 1)
  }

  method HandleCatalog(st: Stream, infos: seq<Info>, epoch: nat, cursor: int, requested: int, max: nat, choices: seq<Choice>)
    returns (resp: CatalogResponse)
    requires st.Valid() && Matching(st.catalog, infos, choices)
    ensures var limit := PageLimit(requested, max); var d := Dupes(choices);
      resp == CatalogResponse(
        PageItems(st.catalog, infos, st.log, choices, Start(st.catalog, cursor), End(st.catalog, d, cursor, limit)),
        NextCursor(st.catalog, d, cursor, limit), |st.log|, epoch)
  {
    var from := if cursor < 0 then 0 else cursor;
    if from > |st.catalog| {
      from := |st.catalog|;
    }
    var limit := PageLimit(requested, max);
    var items: seq<RawItem> := [];
    var i := from;
    while i < |st.catalog| && |items| < limit
      invariant from <= i <= |st.catalog|
      invariant PageEnd(st.catalog, Dupes(choices), from, limit, from) == PageEnd(st.catalog, Dupes(choices), from, limit, i)
      invariant |items| == ItemCount(st.catalog, Dupes(choices), from, i)
      invariant items == PageItems(st.catalog, infos, st.log, choices, from, i)
    {
      if st.catalog[i].carried {
        var cur := st.Current(i);
        items := AppendItem(items, i, infos[i], cur.priceCents, cur.inStock, choices[i].stamp, choices[i].quirk);
      }
      i := i + 1;
    }
    var seqNo, _, _ := st.Stats();
    return CatalogResponse(items, if i < |st.catalog| then Some(i) else None, seqNo, epoch);
  }

  /** The items a page of the change feed must hold for these updates. */
  function UpdateItems(infos: seq<Info>, us: seq<Update>, quirks: seq<Quirk>): seq<RawItem>
    requires |us| <= |quirks| && forall k :: 0 <= k < |us| ==> us[k].product < |infos|
  {
    if us == [] then []
    else
      var n, u := |us| - 1, us[|us| - 1];
      UpdateItems(infos, us[..n], quirks)
        + Serialized(u.product, infos[u.product], u.offer.priceCents, u.offer.inStock, u.at, quirks[n])
  }

  lemma UpdateItemsNext(infos: seq<Info>, us: seq<Update>, quirks: seq<Quirk>, k: nat)
    requires k < |us| <= |quirks| && forall j :: 0 <= j < |us| ==> us[j].product < |infos|
    ensures var u := us[k];
      UpdateItems(infos, us[..k + 1], quirks)
      == UpdateItems(infos, us[..k], quirks)
           + Serialized(u.product, infos[u.product], u.offer.priceCents, u.offer.inStock, u.at, quirks[k])
  {
    assert us[..k + 1][..k] == us[..k];
  }

  method SerializeUpdates(infos: seq<Info>, us: seq<Update>, quirks: seq<Quirk>, since: nat) returns (items: seq<RawItem>, next: nat)
    requires |us| <= |quirks| && forall k :: 0 <= k < |us| ==> us[k].product < |infos| && us[k].seqNo == since + k + 1
    ensures items == UpdateItems(infos, us, quirks) && next == since + |us|
  {
    items, next := [], since;
    for k := 0 to |us|
      invariant next == since + k && items == UpdateItems(infos, us[..k], quirks)
    {
      UpdateItemsNext(infos, us, quirks, k);
      var u := us[k];
      items := AppendItem(items, u.product, infos[u.product], u.offer.priceCents, u.offer.inStock, u.at, quirks[k]);
      next := u.seqNo;
    }
    assert us[..|us|] == us;
  }

  method HandleOffers(st: Stream, infos: seq<Info>, epoch: nat, since: nat, requested: int, max: nat, quirks: seq<Quirk>)
    returns (resp: OffersResponse)
    requires st.Valid() && |infos| == |st.catalog| && |quirks| >= PageLimit(requested, max)
    ensures resp.Gone410? <==> since > |st.log| || since + MAX_BUFFERED < |st.log|
    ensures resp.OffersOk? ==> (
      var limit := if 0 < requested <= max then requested else max;
      && resp.next == (if since + limit < |st.log| then since + limit else |st.log|)
      && resp.items == UpdateItems(infos, st.log[since..resp.next], quirks)
      && (resp.hasMore <==> resp.next < |st.log|) && resp.epoch == epoch)
  {
    var answer := st.UpdatesSince(since, PageLimit(requested, max));
    if answer.Gone? {
      return Gone410;
    }
    var items, next := ServeWindow(st, infos, answer.updates, quirks, since);
    return OffersOk(items, next, answer.hasMore, epoch);
  }

  method ServeWindow(st: Stream, infos: seq<Info>, us: seq<Update>, quirks: seq<Quirk>, since: nat)
    returns (items: seq<RawItem>, next: nat)
    requires st.Valid() && |infos| == |st.catalog| && |us| <= |quirks|
    requires since + |us| <= |st.log| && us == st.log[since..since + |us|]
    ensures next == since + |us|
    ensures (forall k :: since <= k < next ==> st.log[k].product < |infos|) && items == UpdateItems(infos, us, quirks)
  {
    assert forall k :: 0 <= k < |us| ==> us[k] == st.log[since + k];
    items, next := SerializeUpdates(infos, us, quirks, since);
  }

  // --- a page with presentation quirks only is a page of current offers ---

  ghost predicate Represents(n: Normalized, w: OfferWrite) {
    n.sku == Key(w.key) && n.cents == w.val.priceCents && n.inStock == w.val.inStock && n.at == w.at
  }

  ghost function WritesOf(catalog: seq<Listing>, log: seq<Update>, choices: seq<Choice>, i: nat): seq<OfferWrite>
    requires |catalog| == |choices| && i < |catalog|
  {
    if !catalog[i].carried then []
    else
      var w := Write(i, StateAt(catalog, log, i), choices[i].stamp);
      if choices[i].quirk.dupe.Some? then [w, w] else [w]
  }

  ghost function PageWrites(catalog: seq<Listing>, log: seq<Update>, choices: seq<Choice>, lo: nat, hi: nat): seq<OfferWrite>
    requires |catalog| == |choices| && lo <= hi <= |catalog|
  {
    if lo == hi then [] else PageWrites(catalog, log, choices, lo, hi - 1) + WritesOf(catalog, log, choices, hi - 1)
  }

  ghost predicate IsListing(catalog: seq<Listing>, log: seq<Update>, choices: seq<Choice>, w: OfferWrite)
    requires |catalog| == |choices|
  {
    w.key < |catalog| && catalog[w.key].carried && w.val == StateAt(catalog, log, w.key) && w.at == choices[w.key].stamp
  }

  lemma {:induction false} PageWritesExact(catalog: seq<Listing>, log: seq<Update>, choices: seq<Choice>, lo: nat, hi: nat)
    requires |catalog| == |choices| && lo <= hi <= |catalog|
    ensures forall w :: w in PageWrites(catalog, log, choices, lo, hi) <==>
      lo <= w.key < hi && IsListing(catalog, log, choices, w)
  {
    if lo < hi {
      PageWritesExact(catalog, log, choices, lo, hi - 1);
      assert forall w :: w in WritesOf(catalog, log, choices, hi - 1) <==>
        w.key == hi - 1 && IsListing(catalog, log, choices, w);
    }
  }

  lemma PageWritesListCurrent(catalog: seq<Listing>, log: seq<Update>, choices: seq<Choice>, lo: nat, hi: nat, t0: int, t1: int)
    requires |catalog| == |choices| && lo <= hi <= |catalog|
    requires forall i :: lo <= i < hi && catalog[i].carried ==> t0 <= choices[i].stamp <= t1
    ensures ListsCurrent(catalog, log, lo, hi, PageWrites(catalog, log, choices, lo, hi), t0, t1)
  {
    PageWritesExact(catalog, log, choices, lo, hi);
    var ws := PageWrites(catalog, log, choices, lo, hi);
    forall i | lo <= i < hi && catalog[i].carried
      ensures exists w :: w in ws && w.key == i
    {
      var w := Write(i, StateAt(catalog, log, i), choices[i].stamp);
      assert IsListing(catalog, log, choices, w);
      assert w in ws;
    }
  }

  /** For the carried products of the range, the feed's choices leave values alone and prices and stamps are acceptable. */
  ghost predicate PresentationPage(fl: real -> real, catalog: seq<Listing>, log: seq<Update>, choices: seq<Choice>, lo: nat, hi: nat, now: int)
    requires |catalog| == |choices| && lo <= hi <= |catalog|
  {
    forall i :: lo <= i < hi && catalog[i].carried ==>
      var cents := StateAt(catalog, log, i).priceCents;
      InRange(cents) && PresentationOnly(fl, cents, choices[i].quirk) && choices[i].stamp <= now + FIVE_MINUTES
  }

  ghost predicate Pairwise<T, U>(rel: (T, U) -> bool, a: seq<T>, b: seq<U>) {
    |a| == |b| && forall k :: 0 <= k < |a| ==> rel(a[k], b[k])
  }

  lemma PairwiseJoin<T, U>(rel: (T, U) -> bool, a: seq<T>, b: seq<T>, v: seq<U>, w: seq<U>)
    requires Pairwise(rel, a, v) && Pairwise(rel, b, w)
    ensures Pairwise(rel, a + b, v + w)
  {}

  /** The relation between an item and the write it normalizes to. */
  ghost function Decodes(fl: real -> real, now: int): (RawItem, OfferWrite) -> bool {
    (raw: RawItem, w: OfferWrite) => Normalize(fl, raw, now).Ok? && Represents(Normalize(fl, raw, now).value, w)
  }

  lemma ItemDecodes(fl: real -> real, catalog: seq<Listing>, infos: seq<Info>, log: seq<Update>, choices: seq<Choice>, i: nat, now: int)
    requires Matching(catalog, infos, choices) && i < |catalog| <= 0x7FFF_FFFF_FFFF_FFFF
    requires IsRounding(fl) && PresentationPage(fl, catalog, log, choices, i, i + 1, now)
    ensures Pairwise(Decodes(fl, now), ItemsOf(catalog, infos, log, choices, i), WritesOf(catalog, log, choices, i))
  {
    var cur := StateAt(catalog, log, i);
    forall k | 0 <= k < |ItemsOf(catalog, infos, log, choices, i)|
      ensures Decodes(fl, now)(ItemsOf(catalog, infos, log, choices, i)[k], WritesOf(catalog, log, choices, i)[k])
    {
      PresentationIsInvisible(fl, i, infos[i], cur.priceCents, cur.inStock, choices[i].stamp, choices[i].quirk, now, k);
    }
  }

  /**
   End to end: the items of a catalog page normalize, one for one, to writes that
   list the feed's current offers, which is what convergence assumes of a page.
   */
  lemma {:induction false} CatalogPageDecodes(fl: real -> real, catalog: seq<Listing>, infos: seq<Info>, log: seq<Update>,
                                              choices: seq<Choice>, lo: nat, hi: nat, now: int)
    requires Matching(catalog, infos, choices) && lo <= hi <= |catalog| <= 0x7FFF_FFFF_FFFF_FFFF
    requires IsRounding(fl) && PresentationPage(fl, catalog, log, choices, lo, hi, now)
    ensures Pairwise(Decodes(fl, now), PageItems(catalog, infos, log, choices, lo, hi), PageWrites(catalog, log, choices, lo, hi))
  {
    if lo < hi {
      CatalogPageDecodes(fl, catalog, infos, log, choices, lo, hi - 1, now);
      ItemDecodes(fl, catalog, infos, log, choices, hi - 1, now);
      PairwiseJoin(Decodes(fl, now),
                   PageItems(catalog, infos, log, choices, lo, hi - 1), ItemsOf(catalog, infos, log, choices, hi - 1),
                   PageWrites(catalog, log, choices, lo, hi - 1), WritesOf(catalog, log, choices, hi - 1));
    }
  }

  /** A page holds the number of items its scan counted, so `PageShape` bounds it. */
  lemma {:induction false} PageItemCount(catalog: seq<Listing>, infos: seq<Info>, log: seq<Update>, choices: seq<Choice>, lo: nat, hi: nat)
    requires Matching(catalog, infos, choices) && lo <= hi <= |catalog|
    ensures |PageItems(catalog, infos, log, choices, lo, hi)| == ItemCount(catalog, Dupes(choices), lo, hi)
  {
    if lo < hi {
      PageItemCount(catalog, infos, log, choices, lo, hi - 1);
    }
  }

  lemma PageIsFull(catalog: seq<Listing>, infos: seq<Info>, log: seq<Update>, choices: seq<Choice>, lo: nat, hi: nat, limit: nat)
    requires Matching(catalog, infos, choices) && lo <= |catalog| && hi == PageEnd(catalog, Dupes(choices), lo, limit, lo)
    ensures hi < |catalog| ==> |PageItems(catalog, infos, log, choices, lo, hi)| >= limit
    ensures lo < hi ==> |PageItems(catalog, infos, log, choices, lo, hi - 1)| < limit
  {
    PageEndStops(catalog, Dupes(choices), lo, limit, lo);
    PageItemCount(catalog, infos, log, choices, lo, hi);
    if lo < hi {
      PageItemCount(catalog, infos, log, choices, lo, hi - 1);
    }
  }

  /**
   The range a page covers: from the cursor, a negative one counting as 0, to the index
   where its limit is first reached, or to the end of the catalog, in which case there is
   no next cursor.
   */
  lemma PageRangeExact(catalog: seq<Listing>, infos: seq<Info>, log: seq<Update>, choices: seq<Choice>,
                       cursor: int, requested: int, max: nat)
    requires Matching(catalog, infos, choices)
    ensures var limit, d := PageLimit(requested, max), Dupes(choices);
      var lo, hi := Start(catalog, cursor), End(catalog, d, cursor, limit);
      && limit == (if 0 < requested <= max then requested else max)
      && lo == (if cursor < 0 then 0 else if cursor > |catalog| then |catalog| else cursor)
      && NextCursor(catalog, d, cursor, limit) == (if hi == |catalog| then None else Some(hi))
      && (lo < hi ==> |PageItems(catalog, infos, log, choices, lo, hi - 1)| < limit)
      && (hi < |catalog| ==> |PageItems(catalog, infos, log, choices, lo, hi)| >= limit)
  {
    var limit := PageLimit(requested, max);
    PageIsFull(catalog, infos, log, choices, Start(catalog, cursor), End(catalog, Dupes(choices), cursor, limit), limit);
  }

  // --- the same for a page of the change feed ---

  ghost function WritesOfUpdate(u: Update, q: Quirk): seq<OfferWrite> {
    if q.dupe.Some? then [WriteOf(u), WriteOf(u)] else [WriteOf(u)]
  }

  ghost function UpdateWrites(us: seq<Update>, quirks: seq<Quirk>): seq<OfferWrite>
    requires |us| <= |quirks|
  {
    if us == [] then []
    else UpdateWrites(us[..|us| - 1], quirks) + WritesOfUpdate(us[|us| - 1], quirks[|us| - 1])
  }

  /** The feed's choices leave values alone, prices are in the accepted range and timestamps not in the future. */
  ghost predicate PresentationUpdates(fl: real -> real, us: seq<Update>, quirks: seq<Quirk>, now: int) {
    |us| <= |quirks| && forall k :: 0 <= k < |us| ==>
      && InRange(us[k].offer.priceCents) && PresentationOnly(fl, us[k].offer.priceCents, quirks[k])
      && us[k].at <= now + FIVE_MINUTES
  }

  lemma UpdateDecodes(fl: real -> real, info: Info, u: Update, q: Quirk, now: int)
    requires IsRounding(fl) && u.product <= 0x7FFF_FFFF_FFFF_FFFF && u.at <= now + FIVE_MINUTES
    requires InRange(u.offer.priceCents) && PresentationOnly(fl, u.offer.priceCents, q)
    ensures Pairwise(Decodes(fl, now),
                     Serialized(u.product, info, u.offer.priceCents, u.offer.inStock, u.at, q), WritesOfUpdate(u, q))
  {
    var items := Serialized(u.product, info, u.offer.priceCents, u.offer.inStock, u.at, q);
    forall k | 0 <= k < |items|
      ensures Decodes(fl, now)(items[k], WritesOfUpdate(u, q)[k])
    {
      PresentationIsInvisible(fl, u.product, info, u.offer.priceCents, u.offer.inStock, u.at, q, now, k);
    }
  }

  /**
   End to end for the change feed: the items of a page normalize, one for one, to
   writes that replay its updates in order, which is what convergence assumes of such a
   page.
   */
  lemma {:induction false} OffersPageDecodes(fl: real -> real, infos: seq<Info>, us: seq<Update>, quirks: seq<Quirk>, now: int)
    requires IsRounding(fl) && PresentationUpdates(fl, us, quirks, now)
    requires |infos| <= 0x7FFF_FFFF_FFFF_FFFF && forall k :: 0 <= k < |us| ==> us[k].product < |infos|
    ensures Pairwise(Decodes(fl, now), UpdateItems(infos, us, quirks), UpdateWrites(us, quirks))
    ensures InOrder(us, UpdateWrites(us, quirks)) && Replays(us, UpdateWrites(us, quirks))
  {
    if us != [] {
      var n, u := |us| - 1, us[|us| - 1];
      OffersPageDecodes(fl, infos, us[..n], quirks, now);
      UpdateDecodes(fl, infos[u.product], u, quirks[n], now);
      PairwiseJoin(Decodes(fl, now),
                   UpdateItems(infos, us[..n], quirks),
                   Serialized(u.product, infos[u.product], u.offer.priceCents, u.offer.inStock, u.at, quirks[n]),
                   UpdateWrites(us[..n], quirks), WritesOfUpdate(u, quirks[n]));
      InOrderMore(us, UpdateWrites(us[..n], quirks), quirks[n]);
    }
    InOrderReplays(us, UpdateWrites(us, quirks));
  }

  lemma InOrderMore(us: seq<Update>, ws: seq<OfferWrite>, q: Quirk)
    requires us != [] && InOrder(us[..|us| - 1], ws)
    ensures InOrder(us, ws + WritesOfUpdate(us[|us| - 1], q))
  {
    var w := WriteOf(us[|us| - 1]);
    if q.dupe.Some? {
      assert (ws + [w, w])[..|ws|] == ws;
    } else {
      assert (ws + [w])[..|ws|] == ws;
    }
  }
}
