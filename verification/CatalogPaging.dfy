/** The catalog scan of one page, and the walk that follows next_cursor (internal/feedgen/server.go:73-97). */
module CatalogPaging {
  import opened Wrappers
  import opened FeedLog

  /** How many items product i puts on a page: a near-duplicate may trail the real one. */
  function Copies(catalog: seq<Listing>, dupes: set<nat>, i: nat): nat
    requires i < |catalog|
  {
    if !catalog[i].carried then 0 else if i in dupes then 2 else 1
  }

  function ItemCount(catalog: seq<Listing>, dupes: set<nat>, lo: nat, hi: nat): nat
    requires lo <= hi <= |catalog|
  {
    if lo == hi then 0 else ItemCount(catalog, dupes, lo, hi - 1) + Copies(catalog, dupes, hi - 1)
  }

  /** Where the scan stops that starts at `lo`, stands at `i` and still takes items while it has fewer than `limit`. */
  function PageEnd(catalog: seq<Listing>, dupes: set<nat>, lo: nat, limit: nat, i: nat): (end: nat)
    requires lo <= i <= |catalog|
    ensures i <= end <= |catalog|
    decreases |catalog| - i
  {
    if i < |catalog| && ItemCount(catalog, dupes, lo, i) < limit then PageEnd(catalog, dupes, lo, limit, i + 1) else i
  }

  /** The index a request starts from: a negative cursor is clamped, one past the end finds nothing. */
  function Start(catalog: seq<Listing>, cursor: int): nat {
    if cursor < 0 then 0 else if cursor > |catalog| then |catalog| else cursor
  }

  function End(catalog: seq<Listing>, dupes: set<nat>, cursor: int, limit: nat): (end: nat)
    ensures Start(catalog, cursor) <= end <= |catalog|
  {
    PageEnd(catalog, dupes, Start(catalog, cursor), limit, Start(catalog, cursor))
  }

  function NextCursor(catalog: seq<Listing>, dupes: set<nat>, cursor: int, limit: nat): Option<nat> {
    var end := End(catalog, dupes, cursor, limit);
    if end < |catalog| then Some(end) else None
  }

  /** The carried products with index in [lo, hi), in order. */
  function Carried(catalog: seq<Listing>, lo: nat, hi: nat): seq<nat>
    requires lo <= hi <= |catalog|
  {
    if lo == hi then []
    else Carried(catalog, lo, hi - 1) + (if catalog[hi - 1].carried then [hi - 1] else [])
  }

  ghost predicate Increasing(c: seq<nat>) {
    forall j, k :: 0 <= j < k < |c| ==> c[j] < c[k]
  }

  /** `Carried` lists each carried index of the range exactly once, in increasing order, and nothing else. */
  lemma {:induction false} CarriedExact(catalog: seq<Listing>, lo: nat, hi: nat)
    requires lo <= hi <= |catalog|
    ensures forall i :: i in Carried(catalog, lo, hi) <==> lo <= i < hi && catalog[i].carried
    ensures Increasing(Carried(catalog, lo, hi))
  {
    if lo < hi {
      CarriedExact(catalog, lo, hi - 1);
      var before := Carried(catalog, lo, hi - 1);
      assert forall k :: 0 <= k < |before| ==> before[k] in before;
    }
  }

  lemma {:induction false} CarriedJoins(catalog: seq<Listing>, lo: nat, mid: nat, hi: nat)
    requires lo <= mid <= hi <= |catalog|
    ensures Carried(catalog, lo, mid) + Carried(catalog, mid, hi) == Carried(catalog, lo, hi)
  {
    if mid < hi {
      CarriedJoins(catalog, lo, mid, hi - 1);
    }
  }

  lemma {:induction false} PageEndBounded(catalog: seq<Listing>, dupes: set<nat>, lo: nat, limit: nat, i: nat)
    requires lo <= i <= |catalog|
    requires ItemCount(catalog, dupes, lo, i) <= limit + 1
    ensures ItemCount(catalog, dupes, lo, PageEnd(catalog, dupes, lo, limit, i)) <= limit + 1
    ensures PageEnd(catalog, dupes, lo, limit, i) == |catalog| ||
      ItemCount(catalog, dupes, lo, PageEnd(catalog, dupes, lo, limit, i)) >= limit
    decreases |catalog| - i
  {
    if i < |catalog| && ItemCount(catalog, dupes, lo, i) < limit {
      PageEndBounded(catalog, dupes, lo, limit, i + 1);
    }
  }

  /** The scan goes on only while the page is short: without its last index it was. */
  lemma {:induction false} PageEndStops(catalog: seq<Listing>, dupes: set<nat>, lo: nat, limit: nat, i: nat)
    requires lo <= i <= |catalog| && (lo < i ==> ItemCount(catalog, dupes, lo, i - 1) < limit)
    ensures var end := PageEnd(catalog, dupes, lo, limit, i);
      && (lo < end ==> ItemCount(catalog, dupes, lo, end - 1) < limit)
      && (end < |catalog| ==> ItemCount(catalog, dupes, lo, end) >= limit)
    decreases |catalog| - i
  {
    if i < |catalog| && ItemCount(catalog, dupes, lo, i) < limit {
      PageEndStops(catalog, dupes, lo, limit, i + 1);
    }
  }

  /**
   One page: at most one item over the limit, full unless the catalog ended, and
   a next_cursor that is strictly past the request. So next_cursor is never 0,
   and a cursor of 0 can only mean a first page.
   */
  lemma PageShape(catalog: seq<Listing>, dupes: set<nat>, cursor: int, limit: nat)
    requires limit > 0
    ensures var start, end := Start(catalog, cursor), End(catalog, dupes, cursor, limit);
      && ItemCount(catalog, dupes, start, end) <= limit + 1
      && (NextCursor(catalog, dupes, cursor, limit).Some? ==> ItemCount(catalog, dupes, start, end) >= limit)
      && (NextCursor(catalog, dupes, cursor, limit).Some? ==>
            NextCursor(catalog, dupes, cursor, limit).value > start >= 0)
  {
    var start := Start(catalog, cursor);
    PageEndBounded(catalog, dupes, start, limit, start);
  }

  /** One request of a walk: its limit and the near-duplicates the feed happened to add. */
  datatype Request = Request(limit: nat, dupes: set<nat>)

  /** The pages fetched so far by a consumer that follows next_cursor from 0. */
  datatype Walked = Walked(listed: seq<nat>, next: Option<nat>, pages: nat)

  function Walk(catalog: seq<Listing>, requests: seq<Request>): Walked {
    if requests == [] then Walked([], Some(0), 0)
    else
      var n := |requests| - 1;
      var w := Walk(catalog, requests[..n]);
      match w.next
      case None => w
      case Some(cursor) =>
        var r := requests[n];
        var start, end := Start(catalog, cursor), End(catalog, r.dupes, cursor, r.limit);
        Walked(w.listed + Carried(catalog, start, end),
               NextCursor(catalog, r.dupes, cursor, r.limit), w.pages + 1)
  }

  /**
   Whatever limits are asked for and whatever duplicates appear, the pages list
   each carried product exactly once and in order up to next_cursor, and the walk
   ends after at most one page per product (one page for an empty catalog).
   */
  lemma {:induction false} WalkCoversCatalog(catalog: seq<Listing>, requests: seq<Request>)
    requires forall k :: 0 <= k < |requests| ==> requests[k].limit > 0
    ensures var w := Walk(catalog, requests);
      && (w.next.None? ==> w.listed == Carried(catalog, 0, |catalog|))
      && (w.next.Some? ==>
            && w.next.value <= |catalog|
            && w.listed == Carried(catalog, 0, w.next.value)
            && w.pages == |requests| <= w.next.value
            && (w.pages > 0 ==> w.next.value < |catalog|))
      && (|requests| > 0 && |requests| >= |catalog| ==> w.next.None?)
  {
    if requests != [] {
      var n := |requests| - 1;
      WalkCoversCatalog(catalog, requests[..n]);
      var w := Walk(catalog, requests[..n]);
      if w.next.Some? {
        var r := requests[n];
        PageShape(catalog, r.dupes, w.next.value, r.limit);
        CarriedJoins(catalog, 0, w.next.value, End(catalog, r.dupes, w.next.value, r.limit));
      }
    }
  }
}
