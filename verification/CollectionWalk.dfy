/** loadCollection as the source runs it: one walk, counts written back by index, a filter in place. */
module CollectionWalk {
  import opened Collections

  function Bare(o: StoredOffer): Item {
    Item(o.product, o.cents, o.title, 0)
  }

  ghost predicate HoldsBare(items: seq<Item>, rows: seq<StoredOffer>) {
    |items| <= |rows| && forall k :: 0 <= k < |items| ==> items[k] == Bare(rows[k])
  }

  /** The index map: exactly the products collected, each pointing at its own item. */
  ghost predicate Indexes(seen: map<nat, nat>, items: seq<Item>) {
    && (forall k :: 0 <= k < |items| ==> items[k].product in seen && seen[items[k].product] == k)
    && (forall p :: p in seen ==> seen[p] < |items| && items[seen[p]].product == p)
  }

  /** Walks the rows in price order and stops at `target` products. */
  method CollectProducts(rows: seq<StoredOffer>, target: nat) returns (items: array<Item>, n: nat, seen: map<nat, nat>)
    ensures fresh(items) && n <= items.Length
    ensures n == (if |FirstRows(rows)| <= target then |FirstRows(rows)| else target)
    ensures HoldsBare(items[..n], FirstRows(rows)) && Indexes(seen, items[..n])
  {
    items := new Item[|rows|];
    n, seen := 0, map[];
    ghost var got: seq<Item> := [];
    var i := 0;
    while i < |rows|
      invariant 0 <= i <= |rows| && n <= i && n <= target && items[..n] == got
      invariant Collected(rows[..i], got, seen)
    {
      ScanRow(rows, i, got, seen);
      if rows[i].product !in seen {
        if n == target {
          StopsEarly(rows, i + 1, got);
          return;
        }
        seen := seen[rows[i].product := n];
        AddItem(items, n, rows[i]);
        n := n + 1;
        got := got + [Bare(rows[i])];
      }
      i := i + 1;
    }
    assert rows[..|rows|] == rows;
  }

  method AddItem(items: array<Item>, n: nat, row: StoredOffer)
    requires n < items.Length
    modifies items
    ensures items[..n + 1] == old(items[..n]) + [Bare(row)]
  {
    items[n] := Bare(row);
  }

  ghost predicate Collected(rows: seq<StoredOffer>, got: seq<Item>, seen: map<nat, nat>) {
    |got| == |FirstRows(rows)| && HoldsBare(got, FirstRows(rows)) && Indexes(seen, got)
  }

  lemma StopsEarly(rows: seq<StoredOffer>, i: nat, got: seq<Item>)
    requires i <= |rows| && |got| < |FirstRows(rows[..i])| && HoldsBare(got, FirstRows(rows[..i]))
    ensures |got| < |FirstRows(rows)| && HoldsBare(got, FirstRows(rows))
  {
    FirstRowsPrefix(rows, i);
  }

  /** What scanning row i does to the grouping, the collected items and the index map. */
  lemma ScanRow(rows: seq<StoredOffer>, i: nat, got: seq<Item>, seen: map<nat, nat>)
    requires i < |rows| && Collected(rows[..i], got, seen)
    ensures rows[i].product in seen ==> Collected(rows[..i + 1], got, seen)
    ensures rows[i].product !in seen ==> (
      && |got| < |FirstRows(rows[..i + 1])| && HoldsBare(got, FirstRows(rows[..i + 1]))
      && Collected(rows[..i + 1], got + [Bare(rows[i])], seen[rows[i].product := |got|]))
  {
    assert rows[..i + 1][..i] == rows[..i];
    SeenMeansAppears(rows[..i], got, seen, rows[i].product);
  }

  lemma SeenMeansAppears(rows: seq<StoredOffer>, items: seq<Item>, seen: map<nat, nat>, p: nat)
    requires HoldsBare(items, FirstRows(rows)) && |items| == |FirstRows(rows)| && Indexes(seen, items)
    ensures p in seen <==> Appears(rows, p)
  {
    FirstRowsGroup(rows, p);
    if Appears(FirstRows(rows), p) {
      var k :| 0 <= k < |FirstRows(rows)| && FirstRows(rows)[k].product == p;
      assert items[k].product == p;
    }
    if p in seen {
      assert FirstRows(rows)[seen[p]].product == p;
    }
  }

  /** Writes each product's offer count into its own item; the counts arrive in any order. */
  method FillCounts(offers: seq<StoredOffer>, items: array<Item>, n: nat, seen: map<nat, nat>)
    requires n <= items.Length && Indexes(seen, items[..n])
    modifies items
    ensures forall k :: 0 <= k < n ==> items[k] == old(items[k]).(offerCount := OfferCount(offers, old(items[k]).product))
  {
    var left := seen.Keys;
    while left != {}
      invariant left <= seen.Keys
      invariant forall k :: 0 <= k < n ==>
        items[k] == if old(items[k]).product in left then old(items[k])
                    else old(items[k]).(offerCount := OfferCount(offers, old(items[k]).product))
      decreases left
    {
      var id :| id in left;
      left := left - {id};
      assert old(items[..n])[seen[id]].product == id;
      forall k | 0 <= k < n && k != seen[id] ensures old(items[k]).product != id {
        assert old(items[..n])[k].product == old(items[k]).product;
      }
      items[seen[id]] := items[seen[id]].(offerCount := OfferCount(offers, id));
    }
    forall k | 0 <= k < n ensures old(items[k]).product !in left {}
  }

  /** The `items[:0]` filter: kept items are moved to the front of the same storage. */
  method FilterInPlace(r: Rules, items: array<Item>, n: nat) returns (kept: nat)
    requires n <= items.Length && r.minOffers > 1
    modifies items
    ensures kept <= n && items[..kept] == Filter(r, old(items[..n]))
    ensures forall k :: 0 <= k < kept ==> items[k].offerCount >= r.minOffers
    ensures forall k :: 0 <= k < n && old(items[k]).offerCount >= r.minOffers ==> old(items[k]) in items[..kept]
  {
    var from := FilterExact(r, items[..n]);
    kept := 0;
    ghost var before := items[..n];
    assert before[..0] == [];
    for i := 0 to n
      invariant kept <= i
      invariant items[..kept] == Filter(r, before[..i])
      invariant forall k :: i <= k < n ==> items[k] == before[k]
    {
      assert before[..i + 1][..i] == before[..i];
      var it := items[i];
      if it.offerCount >= r.minOffers {
        ghost var front := items[..kept];
        items[kept] := it;
        kept := kept + 1;
        assert items[..kept] == front + [it];
      }
    }
    assert before[..n] == before;
    forall k | 0 <= k < kept ensures items[k].offerCount >= r.minOffers {
      assert items[..kept][k] == before[from[k]] && from[k] in from;
    }
    forall k | 0 <= k < n && before[k].offerCount >= r.minOffers ensures before[k] in items[..kept] {
      var i :| 0 <= i < |from| && from[i] == k;
      assert items[..kept][i] == before[k];
    }
  }

  lemma CountsFilled(offers: seq<StoredOffer>, rows: seq<StoredOffer>, target: nat, bare: seq<Item>, counted: seq<Item>)
    requires HoldsBare(bare, rows) && |bare| == (if |rows| <= target then |rows| else target) && |counted| == |bare|
    requires forall k :: 0 <= k < |bare| ==> counted[k] == bare[k].(offerCount := OfferCount(offers, bare[k].product))
    ensures counted == Take(target, ItemsOf(offers, rows))
  {}

  method LoadCollection(offers: seq<StoredOffer>, r: Rules, walk: seq<StoredOffer>) returns (page: seq<Item>)
    ensures page == Walked(offers, r, Capped(walk))
    ensures PriceWalk(offers, r, walk) ==> IsPage(offers, r, page)
    ensures PriceWalk(offers, r, walk) && (|walk| <= SCAN_CAP || |page| == COLLECTION_SIZE) ==> IsComplete(offers, r, page)
  {
    if PriceWalk(offers, r, walk) {
      WalkIsPage(offers, r, walk);
    }
    var rows := Capped(walk);
    var items, n, seen := CollectProducts(rows, Target(r));
    ghost var bare := items[..n];
    FillCounts(offers, items, n, seen);
    CountsFilled(offers, FirstRows(rows), Target(r), bare, items[..n]);
    if r.minOffers > 1 {
      n := FilterInPlace(r, items, n);
    } else {
      FilterKeepsAll(r, items[..n]);
    }
    if n > COLLECTION_SIZE {
      n := COLLECTION_SIZE;
    }
    page := items[..n];
  }

  /**
   The page, whatever the cap and the early stop left out, holds true items only:
   distinct products by ascending price, each with the least price of all its wanted
   offers, beyond the scan cap too, its true offer count, and enough offers. Unless the
   scan cap cut the walk short of a full page, no product is missing.
   */
  lemma WalkIsPage(offers: seq<StoredOffer>, r: Rules, walk: seq<StoredOffer>)
    requires PriceWalk(offers, r, walk)
    ensures var page := Walked(offers, r, Capped(walk));
      IsPage(offers, r, page) && (|walk| <= SCAN_CAP || |page| == COLLECTION_SIZE ==> IsComplete(offers, r, page))
  {
    WalkRefinesAggregation(offers, r, walk);
    ReferenceIsPage(offers, r, walk);
    ReferenceIsComplete(offers, r, walk);
    PrefixIsPage(offers, r, Walked(offers, r, Capped(walk)), Reference(offers, r, walk));
  }
}
