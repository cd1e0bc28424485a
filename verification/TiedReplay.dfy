/**
 What one page of the change feed does to one row when timestamps may tie. One tick
 stamps all its updates alike (internal/feedgen/stream.go:85) and may draw a product
 twice; of tied items in one batch the dedupe keeps the first (internal/ingest/
 store.go:110-116), while the feed's current offer is the last.
 */
module TiedReplay {
  import opened Wrappers
  import opened LastWriteWins
  import opened FeedLog
  import opened Pipeline
  import opened Convergence

  /** Timestamps do not go back, product by product. */
  ghost predicate SortedPerProduct(log: seq<Update>) {
    forall j, k :: 0 <= j < k < |log| && log[j].product == log[k].product ==> log[j].at <= log[k].at
  }

  /** The writes of a page of updates, in the feed's order, each perhaps with its near-duplicate. */
  ghost predicate InOrder(us: seq<Update>, ws: seq<OfferWrite>) {
    if us == [] then ws == []
    else
      var w, m, n := WriteOf(us[|us| - 1]), |us| - 1, |ws|;
      && n > 0 && ws[n - 1] == w
      && (InOrder(us[..m], ws[..n - 1]) || (n > 1 && ws[n - 2] == w && InOrder(us[..m], ws[..n - 2])))
  }

  lemma {:induction false} InOrderReplays(us: seq<Update>, ws: seq<OfferWrite>)
    requires InOrder(us, ws)
    ensures Replays(us, ws)
  {
    if us != [] {
      var m, n := |us| - 1, |ws|;
      var front := if InOrder(us[..m], ws[..n - 1]) then ws[..n - 1] else ws[..n - 2];
      InOrderReplays(us[..m], front);
      forall w | w in ws ensures exists k :: 0 <= k < |us| && w == WriteOf(us[k]) {
        if w in front {
          var k :| 0 <= k < m && w == WriteOf(us[..m][k]);
          assert w == WriteOf(us[k]);
        } else {
          assert w == WriteOf(us[m]);
        }
      }
      forall k | 0 <= k < |us| ensures WriteOf(us[k]) in ws {
        if k < m {
          assert WriteOf(us[..m][k]) in front;
        }
      }
    }
  }

  /** The last update of product i in [lo, hi), if there is one. */
  function LastIn(log: seq<Update>, i: nat, lo: nat, hi: nat): (k: Option<nat>)
    requires lo <= hi <= |log|
    ensures k.Some? ==> lo <= k.value < hi && log[k.value].product == i
    ensures forall j :: lo <= j < hi && (k.None? || j > k.value) ==> log[j].product != i
  {
    if lo == hi then None
    else if log[hi - 1].product == i then Some(hi - 1)
    else LastIn(log, i, lo, hi - 1)
  }

  /** The first update of product i from lo on that ties with update k. */
  function FirstTied(log: seq<Update>, i: nat, lo: nat, k: nat): (j: nat)
    requires lo <= k < |log| && log[k].product == i
    ensures lo <= j <= k && log[j].product == i && log[j].at == log[k].at
    ensures forall m :: lo <= m < j ==> !(log[m].product == i && log[m].at == log[k].at)
    decreases k - lo
  {
    if log[lo].product == i && log[lo].at == log[k].at then lo else FirstTied(log, i, lo + 1, k)
  }

  lemma DedupeAgain<K, V>(ws: seq<Write<K, V>>, w: Write<K, V>)
    ensures Dedupe(ws + [w]) ==
      (if w.key !in Dedupe(ws) || w.at > Dedupe(ws)[w.key].at then Dedupe(ws)[w.key := w] else Dedupe(ws))
    ensures Dedupe(ws + [w] + [w]) == Dedupe(ws + [w])
  {
    assert (ws + [w])[..|ws|] == ws;
    assert (ws + [w] + [w])[..|ws| + 1] == ws + [w];
  }

  /** Dedupe over a page without its last update decides what the whole page leaves. */
  lemma DedupeLast(us: seq<Update>, ws: seq<OfferWrite>) returns (front: seq<OfferWrite>)
    requires us != [] && InOrder(us, ws)
    ensures var w := WriteOf(us[|us| - 1]);
      && InOrder(us[..|us| - 1], front)
      && Dedupe(ws) == (if w.key !in Dedupe(front) || w.at > Dedupe(front)[w.key].at then Dedupe(front)[w.key := w] else Dedupe(front))
  {
    var w, m, n := WriteOf(us[|us| - 1]), |us| - 1, |ws|;
    if InOrder(us[..m], ws[..n - 1]) {
      front := ws[..n - 1];
      assert ws == front + [w];
    } else {
      front := ws[..n - 2];
      assert ws == front + [w] + [w];
    }
    DedupeAgain(front, w);
  }

  lemma TiedMore(log: seq<Update>, i: nat, lo: nat, hi: nat)
    requires lo < hi <= |log| && SortedPerProduct(log) && log[hi - 1].product == i
    ensures var k := LastIn(log, i, lo, hi - 1);
      FirstTied(log, i, lo, hi - 1) ==
      if k.Some? && log[k.value].at == log[hi - 1].at then FirstTied(log, i, lo, k.value) else hi - 1
  {}

  /** Of a page's updates to product i, the dedupe keeps the first that ties with the last. */
  lemma {:induction false} DedupeInOrder(log: seq<Update>, ws: seq<OfferWrite>, i: nat, lo: nat, hi: nat)
    requires lo <= hi <= |log| && SortedPerProduct(log) && InOrder(log[lo..hi], ws)
    ensures i in Dedupe(ws) <==> LastIn(log, i, lo, hi).Some?
    ensures i in Dedupe(ws) ==> Dedupe(ws)[i] == WriteOf(log[FirstTied(log, i, lo, LastIn(log, i, lo, hi).value)])
    decreases hi
  {
    if lo < hi {
      var us := log[lo..hi];
      var front := DedupeLast(us, ws);
      assert us[..|us| - 1] == log[lo..hi - 1] && us[|us| - 1] == log[hi - 1];
      DedupeInOrder(log, front, i, lo, hi - 1);
      if log[hi - 1].product == i {
        TiedMore(log, i, lo, hi);
      }
    }
  }

  /** So the page leaves the row if it is newer, and else that update. */
  lemma RowAfterPage(log: seq<Update>, t: Table, ws: seq<OfferWrite>, i: nat, lo: nat, hi: nat)
    requires lo <= hi <= |log| && SortedPerProduct(log) && InOrder(log[lo..hi], ws) && i in t
    ensures i in Batch(t, ws)
    ensures Batch(t, ws)[i] ==
      var k := LastIn(log, i, lo, hi);
      if k.None? || t[i].at > log[k.value].at then t[i]
      else Row(log[FirstTied(log, i, lo, k.value)].offer, log[k.value].at)
  {
    DedupeInOrder(log, ws, i, lo, hi);
  }
}
