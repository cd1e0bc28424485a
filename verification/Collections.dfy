/**
 The early-stopping collection walk against full aggregation
 (internal/api/collections.go:76-188).
 */
module Collections {
  datatype StoredOffer = StoredOffer(product: nat, cents: int, inStock: bool, category: string, brand: string, title: string)

  /** MaxPriceCents 0, and an empty category or brand, mean no limit. */
  datatype Rules = Rules(category: string, brand: string, maxPriceCents: int, minOffers: int)

  datatype Item = Item(product: nat, best: int, title: string, offerCount: nat)

  const COLLECTION_SIZE: nat := 100
  const SCAN_CAP: nat := 2500
  const NO_PRICE_LIMIT: int := 0x100_0000_0000

  predicate Matches(r: Rules, o: StoredOffer) {
    && o.inStock && o.cents <= (if r.maxPriceCents == 0 then NO_PRICE_LIMIT else r.maxPriceCents)
    && (r.category == "" || o.category == r.category)
    && (r.brand == "" || o.brand == r.brand)
  }

  /** The matching offers in ascending price order; the database is free to order equal prices as it likes. */
  ghost predicate PriceWalk(offers: seq<StoredOffer>, r: Rules, walk: seq<StoredOffer>) {
    && (forall o :: o in walk <==> o in offers && Matches(r, o))
    && (forall i, j :: 0 <= i < j < |walk| ==> walk[i].cents <= walk[j].cents)
  }

  /** count(*) of a product's offers, in stock or not. */
  function OfferCount(offers: seq<StoredOffer>, product: nat): nat {
    if offers == [] then 0
    else OfferCount(offers[..|offers| - 1], product) + if offers[|offers| - 1].product == product then 1 else 0
  }

  // --- full aggregation ---

  ghost predicate Appears(rows: seq<StoredOffer>, product: nat) {
    exists i :: 0 <= i < |rows| && rows[i].product == product
  }

  /** One row per product: its first one. */
  ghost function FirstRows(rows: seq<StoredOffer>): seq<StoredOffer> {
    if rows == [] then []
    else
      var front, last := rows[..|rows| - 1], rows[|rows| - 1];
      if Appears(front, last.product) then FirstRows(front) else FirstRows(front) + [last]
  }

  predicate Keeps(r: Rules, it: Item) {
    r.minOffers <= 1 || it.offerCount >= r.minOffers
  }

  function Filter(r: Rules, its: seq<Item>): seq<Item> {
    if its == [] then []
    else Filter(r, its[..|its| - 1]) + if Keeps(r, its[|its| - 1]) then [its[|its| - 1]] else []
  }

  function ItemOf(offers: seq<StoredOffer>, o: StoredOffer): Item {
    Item(o.product, o.cents, o.title, OfferCount(offers, o.product))
  }

  function ItemsOf(offers: seq<StoredOffer>, rows: seq<StoredOffer>): seq<Item> {
    seq(|rows|, i requires 0 <= i < |rows| => ItemOf(offers, rows[i]))
  }

  function Take(n: nat, its: seq<Item>): seq<Item> {
    if |its| <= n then its else its[..n]
  }

  /** Group by product, keep the first row of each, drop those with too few offers, take a page. */
  ghost function Reference(offers: seq<StoredOffer>, r: Rules, walk: seq<StoredOffer>): seq<Item> {
    Take(COLLECTION_SIZE, Filter(r, ItemsOf(offers, FirstRows(walk))))
  }

  lemma AppearsInMore(rows: seq<StoredOffer>, last: StoredOffer, product: nat)
    ensures Appears(rows + [last], product) <==> Appears(rows, product) || last.product == product
  {
    if Appears(rows, product) {
      var i :| 0 <= i < |rows| && rows[i].product == product;
      assert (rows + [last])[i].product == product;
    }
    if last.product == product {
      assert (rows + [last])[|rows|].product == product;
    }
  }

  /** `FirstRows` groups: it has the same products, each once. */
  lemma {:induction false} FirstRowsGroup(rows: seq<StoredOffer>, product: nat)
    ensures Appears(rows, product) <==> Appears(FirstRows(rows), product)
    ensures forall i, j :: 0 <= i < j < |FirstRows(rows)| ==> FirstRows(rows)[i].product != FirstRows(rows)[j].product
  {
    if rows != [] {
      var front, last := rows[..|rows| - 1], rows[|rows| - 1];
      FirstRowsGroup(front, product);
      FirstRowsGroup(front, last.product);
      assert rows == front + [last];
      AppearsInMore(front, last, product);
      AppearsInMore(FirstRows(front), last, product);
    }
  }

  /** Each row of the grouping is the first one of its product. */
  lemma {:induction false} FirstRowIsFirst(rows: seq<StoredOffer>, i: nat) returns (j: nat)
    requires i < |FirstRows(rows)|
    ensures j < |rows| && rows[j] == FirstRows(rows)[i]
    ensures forall k :: 0 <= k < j ==> rows[k].product != rows[j].product
  {
    var front, last := rows[..|rows| - 1], rows[|rows| - 1];
    if i < |FirstRows(front)| {
      j := FirstRowIsFirst(front, i);
    } else {
      j := |rows| - 1;
      forall k | 0 <= k < j ensures rows[k].product != last.product {
        assert front[k] == rows[k];
      }
    }
  }

  /** In a price walk the first row of a product carries its least matching price, wherever the walk is cut later. */
  lemma BestIsLeast(offers: seq<StoredOffer>, r: Rules, walk: seq<StoredOffer>, i: nat)
    requires PriceWalk(offers, r, walk) && i < |FirstRows(walk)|
    ensures var row := FirstRows(walk)[i];
      && row in offers && Matches(r, row)
      && forall o :: o in offers && Matches(r, o) && o.product == row.product ==> row.cents <= o.cents
  {
    var j := FirstRowIsFirst(walk, i);
    assert walk[j] in walk;
    forall o | o in offers && Matches(r, o) && o.product == walk[j].product
      ensures walk[j].cents <= o.cents
    {
      assert o in walk;
      var k :| 0 <= k < |walk| && walk[k] == o;
    }
  }

  lemma {:induction false} FirstRowsPrefix(rows: seq<StoredOffer>, n: nat)
    requires n <= |rows|
    ensures FirstRows(rows[..n]) <= FirstRows(rows)
  {
    if n == |rows| {
      assert rows[..n] == rows;
    } else {
      assert rows[..|rows| - 1][..n] == rows[..n];
      FirstRowsPrefix(rows[..|rows| - 1], n);
    }
  }

  lemma {:induction false} FilterPrefix(r: Rules, its: seq<Item>, n: nat)
    requires n <= |its|
    ensures Filter(r, its[..n]) <= Filter(r, its)
  {
    if n == |its| {
      assert its[..n] == its;
    } else {
      assert its[..|its| - 1][..n] == its[..n];
      FilterPrefix(r, its[..|its| - 1], n);
    }
  }

  lemma {:induction false} FilterKeepsAll(r: Rules, its: seq<Item>)
    requires r.minOffers <= 1
    ensures Filter(r, its) == its
  {
    if its != [] {
      FilterKeepsAll(r, its[..|its| - 1]);
      assert its == its[..|its| - 1] + [its[|its| - 1]];
    }
  }

  // --- the walk ---

  /** How many distinct products the walk collects before it stops. */
  function Target(r: Rules): nat {
    if r.minOffers > 1 then SCAN_CAP else COLLECTION_SIZE
  }

  /** What the walk returns for the rows it scans. */
  ghost function Walked(offers: seq<StoredOffer>, r: Rules, rows: seq<StoredOffer>): seq<Item> {
    Take(COLLECTION_SIZE, Filter(r, Take(Target(r), ItemsOf(offers, FirstRows(rows)))))
  }

  function Capped(walk: seq<StoredOffer>): seq<StoredOffer> {
    if |walk| <= SCAN_CAP then walk else walk[..SCAN_CAP]
  }

  lemma {:induction false} FirstRowsShort(rows: seq<StoredOffer>)
    ensures |FirstRows(rows)| <= |rows|
  {
    if rows != [] {
      FirstRowsShort(rows[..|rows| - 1]);
    }
  }

  lemma TakePrefix(n: nat, a: seq<Item>, b: seq<Item>)
    requires a <= b
    ensures Take(n, a) <= Take(n, b)
  {
    if |a| <= n < |b| {
      assert a == b[..|a|] && b[..n][..|a|] == b[..|a|];
    } else if n < |a| {
      assert a[..n] == b[..n];
    }
  }

  /** Filtering what the walk collected gives the same first page as filtering every group it saw. */
  lemma TargetSuffices(offers: seq<StoredOffer>, r: Rules, rows: seq<StoredOffer>)
    requires |rows| <= SCAN_CAP
    ensures Walked(offers, r, rows) == Take(COLLECTION_SIZE, Filter(r, ItemsOf(offers, FirstRows(rows))))
  {
    FirstRowsShort(rows);
    if r.minOffers <= 1 {
      FilterKeepsAll(r, ItemsOf(offers, FirstRows(rows)));
      FilterKeepsAll(r, Take(COLLECTION_SIZE, ItemsOf(offers, FirstRows(rows))));
    }
  }

  /**
   The capped, early-stopping walk returns a prefix of the full aggregation, and
   all of it when the matching rows fit the cap or the page comes out full.
   */
  lemma WalkRefinesAggregation(offers: seq<StoredOffer>, r: Rules, walk: seq<StoredOffer>)
    ensures Walked(offers, r, Capped(walk)) <= Reference(offers, r, walk)
    ensures |walk| <= SCAN_CAP || |Walked(offers, r, Capped(walk))| == COLLECTION_SIZE ==>
      Walked(offers, r, Capped(walk)) == Reference(offers, r, walk)
  {
    var rows := Capped(walk);
    var some, all := ItemsOf(offers, FirstRows(rows)), ItemsOf(offers, FirstRows(walk));
    TargetSuffices(offers, r, rows);
    FirstRowsPrefix(walk, |rows|);
    assert rows == walk[..|rows|];
    assert some == all[..|some|];
    FilterPrefix(r, all, |some|);
    TakePrefix(COLLECTION_SIZE, Filter(r, some), Filter(r, all));
  }

  // --- what a page holds, in terms of the offers alone ---

  /** An offer the rules ask for. */
  ghost predicate Wanted(r: Rules, o: StoredOffer) {
    && o.inStock && (r.maxPriceCents == 0 ==> o.cents <= NO_PRICE_LIMIT) && (r.maxPriceCents != 0 ==> o.cents <= r.maxPriceCents)
    && (r.category != "" ==> o.category == r.category) && (r.brand != "" ==> o.brand == r.brand)
  }

  /** The offers of a product, in stock or not, at any price. */
  ghost function OffersOf(offers: seq<StoredOffer>, product: nat): set<nat> {
    set k: nat | k < |offers| && offers[k].product == product
  }

  lemma {:induction false} OfferCountIs(offers: seq<StoredOffer>, product: nat)
    ensures OfferCount(offers, product) == |OffersOf(offers, product)|
  {
    if offers != [] {
      var n := |offers| - 1;
      OfferCountIs(offers[..n], product);
      var rest := OffersOf(offers[..n], product);
      assert OffersOf(offers, product) == if offers[n].product == product then rest + {n} else rest;
    }
  }

  /** The item stands for its product: its cheapest wanted offer, that offer's title, and the number of its offers, which is enough. */
  ghost predicate IsItem(offers: seq<StoredOffer>, r: Rules, it: Item) {
    && (exists o :: o in offers && Wanted(r, o) && o.product == it.product && it.best == o.cents && it.title == o.title)
    && (forall o :: o in offers && Wanted(r, o) && o.product == it.product ==> it.best <= o.cents)
    && it.offerCount == |OffersOf(offers, it.product)| && (r.minOffers <= 1 || it.offerCount >= r.minOffers)
  }

  /** Distinct products by ascending price. */
  ghost predicate ByPrice(its: seq<Item>) {
    forall i, j :: 0 <= i < j < |its| ==> its[i].product != its[j].product && its[i].best <= its[j].best
  }

  /** True items of distinct products by ascending price, no more than a page of them. */
  ghost predicate IsPage(offers: seq<StoredOffer>, r: Rules, page: seq<Item>) {
    |page| <= COLLECTION_SIZE && ByPrice(page) && forall i :: 0 <= i < |page| ==> IsItem(offers, r, page[i])
  }

  /**
   Nothing is missing: a product with a wanted offer and enough offers is on the page,
   or the page is full and no item on it costs more.
   */
  ghost predicate IsComplete(offers: seq<StoredOffer>, r: Rules, page: seq<Item>) {
    forall o :: o in offers && Wanted(r, o) && (r.minOffers <= 1 || |OffersOf(offers, o.product)| >= r.minOffers) ==>
      (exists i :: 0 <= i < |page| && page[i].product == o.product)
      || (|page| == COLLECTION_SIZE && forall i :: 0 <= i < |page| ==> page[i].best <= o.cents)
  }

  /** `kept` is what `all` holds at the positions `from`, in order. */
  ghost predicate Picks<T>(from: seq<nat>, all: seq<T>, kept: seq<T>) {
    && |from| == |kept|
    && (forall i :: 0 <= i < |from| ==> from[i] < |all| && all[from[i]] == kept[i])
    && (forall i, j :: 0 <= i < j < |from| ==> from[i] < from[j])
  }

  lemma PicksMore<T>(from: seq<nat>, all: seq<T>, kept: seq<T>, x: T)
    requires Picks(from, all, kept)
    ensures Picks(from, all + [x], kept) && Picks(from + [|all|], all + [x], kept + [x])
  {}

  ghost predicate PicksKept(r: Rules, its: seq<Item>, from: seq<nat>) {
    forall k: nat :: k < |its| ==> (k in from <==> Keeps(r, its[k]))
  }

  lemma KeptMore(r: Rules, its: seq<Item>, from: seq<nat>, it: Item)
    requires PicksKept(r, its, from) && forall i :: 0 <= i < |from| ==> from[i] < |its|
    ensures PicksKept(r, its + [it], if Keeps(r, it) then from + [|its|] else from)
  {
    var all, more := its + [it], if Keeps(r, it) then from + [|its|] else from;
    forall k: nat | k < |all| ensures k in more <==> Keeps(r, all[k]) {
      assert k < |its| ==> all[k] == its[k];
      assert k in from ==> k < |its|;
    }
  }

  /** The filter keeps exactly the items with enough offers, in order. */
  lemma {:induction false} FilterExact(r: Rules, its: seq<Item>) returns (from: seq<nat>)
    ensures Picks(from, its, Filter(r, its)) && PicksKept(r, its, from)
  {
    from := [];
    if its != [] {
      var n := |its| - 1;
      from := FilterExact(r, its[..n]);
      assert its == its[..n] + [its[n]];
      PicksMore(from, its[..n], Filter(r, its[..n]), its[n]);
      KeptMore(r, its[..n], from, its[n]);
      if Keeps(r, its[n]) {
        from := from + [n];
      }
    }
  }

  /** The grouping keeps the order of the walk. */
  lemma {:induction false} FirstRowsInOrder(rows: seq<StoredOffer>) returns (from: seq<nat>)
    ensures Picks(from, rows, FirstRows(rows))
  {
    from := [];
    if rows != [] {
      var n := |rows| - 1;
      from := FirstRowsInOrder(rows[..n]);
      assert rows == rows[..n] + [rows[n]];
      PicksMore(from, rows[..n], FirstRows(rows[..n]), rows[n]);
      if !Appears(rows[..n], rows[n].product) {
        from := from + [n];
      }
    }
  }

  lemma GroupIsItem(offers: seq<StoredOffer>, r: Rules, walk: seq<StoredOffer>, k: nat)
    requires PriceWalk(offers, r, walk) && k < |FirstRows(walk)|
    requires Keeps(r, ItemOf(offers, FirstRows(walk)[k]))
    ensures IsItem(offers, r, ItemOf(offers, FirstRows(walk)[k]))
  {
    var row := FirstRows(walk)[k];
    BestIsLeast(offers, r, walk, k);
    OfferCountIs(offers, row.product);
    assert forall o :: Wanted(r, o) <==> Matches(r, o);
  }

  /** What passes the filter has distinct products and ascending prices. */
  lemma FilteredAscend(offers: seq<StoredOffer>, r: Rules, walk: seq<StoredOffer>)
    requires PriceWalk(offers, r, walk)
    ensures ByPrice(Filter(r, ItemsOf(offers, FirstRows(walk))))
  {
    var groups := FirstRows(walk);
    var from := FilterExact(r, ItemsOf(offers, groups));
    var rows := FirstRowsInOrder(walk);
    FirstRowsGroup(walk, 0);
    forall i, j | 0 <= i < j < |from|
      ensures groups[from[i]].product != groups[from[j]].product && groups[from[i]].cents <= groups[from[j]].cents
    {
      assert from[i] < from[j] && rows[from[i]] < rows[from[j]];
    }
  }

  lemma TakeByPrice(n: nat, its: seq<Item>)
    requires ByPrice(its)
    ensures ByPrice(Take(n, its)) && |Take(n, its)| <= n
  {}

  lemma ReferenceItems(offers: seq<StoredOffer>, r: Rules, walk: seq<StoredOffer>, i: nat)
    requires PriceWalk(offers, r, walk) && i < |Reference(offers, r, walk)|
    ensures IsItem(offers, r, Reference(offers, r, walk)[i])
  {
    var all := ItemsOf(offers, FirstRows(walk));
    var from := FilterExact(r, all);
    assert Reference(offers, r, walk)[i] == all[from[i]] && from[i] in from;
    GroupIsItem(offers, r, walk, from[i]);
  }

  /** The full aggregation is such a page. */
  lemma ReferenceIsPage(offers: seq<StoredOffer>, r: Rules, walk: seq<StoredOffer>)
    requires PriceWalk(offers, r, walk)
    ensures IsPage(offers, r, Reference(offers, r, walk))
  {
    var page := Reference(offers, r, walk);
    forall i | 0 <= i < |page| ensures IsItem(offers, r, page[i]) {
      ReferenceItems(offers, r, walk, i);
    }
    FilteredAscend(offers, r, walk);
    TakeByPrice(COLLECTION_SIZE, Filter(r, ItemsOf(offers, FirstRows(walk))));
  }

  /** A page that is the start of another is one too. */
  lemma PrefixIsPage(offers: seq<StoredOffer>, r: Rules, page: seq<Item>, whole: seq<Item>)
    requires IsPage(offers, r, whole) && page <= whole
    ensures IsPage(offers, r, page)
  {}

  /** And it is complete. */
  lemma ReferenceIsComplete(offers: seq<StoredOffer>, r: Rules, walk: seq<StoredOffer>)
    requires PriceWalk(offers, r, walk)
    ensures IsComplete(offers, r, Reference(offers, r, walk))
  {
    var all := ItemsOf(offers, FirstRows(walk));
    var page := Reference(offers, r, walk);
    forall o | o in offers && Wanted(r, o) && (r.minOffers <= 1 || |OffersOf(offers, o.product)| >= r.minOffers)
      ensures (exists i :: 0 <= i < |page| && page[i].product == o.product)
        || (|page| == COLLECTION_SIZE && forall i :: 0 <= i < |page| ==> page[i].best <= o.cents)
    {
      var i := WantedIsFiltered(offers, r, walk, o);
      if i < |page| {
        assert page[i] == Filter(r, all)[i];
      } else {
        FilteredAscend(offers, r, walk);
        assert forall j :: 0 <= j < |page| ==> page[j] == Filter(r, all)[j];
      }
    }
  }

  lemma WantedIsFiltered(offers: seq<StoredOffer>, r: Rules, walk: seq<StoredOffer>, o: StoredOffer) returns (i: nat)
    requires PriceWalk(offers, r, walk) && o in offers && Wanted(r, o)
    requires r.minOffers <= 1 || |OffersOf(offers, o.product)| >= r.minOffers
    ensures var kept := Filter(r, ItemsOf(offers, FirstRows(walk)));
      i < |kept| && kept[i].product == o.product && kept[i].best <= o.cents
  {
    var groups := FirstRows(walk);
    assert o in walk;
    var w :| 0 <= w < |walk| && walk[w] == o;
    assert Appears(walk, o.product);
    FirstRowsGroup(walk, o.product);
    var k :| 0 <= k < |groups| && groups[k].product == o.product;
    BestIsLeast(offers, r, walk, k);
    OfferCountIs(offers, o.product);
    var all := ItemsOf(offers, groups);
    var from := FilterExact(r, all);
    assert all[k].offerCount == OfferCount(offers, o.product);
    assert k in from;
    i :| 0 <= i < |from| && from[i] == k;
  }
}
