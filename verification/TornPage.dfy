/**
 A catalog response that is not atomic (internal/feedgen/server.go:82-91): each
 item is read under its own lock and stamped after the lock is released, and the
 change-feed position is read only after the last item. This module says what that
 does to one row; SplitResponse says what it does to whole runs.
 */
module TornPage {
  import opened Wrappers
  import opened LastWriteWins
  import opened FeedLog
  import opened Pipeline
  import opened Convergence
  import opened TiedReplay

  /**
   A listing of product i, read at log length q, missed update k for good: k is the
   product's last update below n, it came after the read, it shows something else,
   and it is never replayed because it lies below the pin m, or replayed in vain
   because it is older than the listing's stamp.
   */
  ghost predicate Missed(log: seq<Update>, i: nat, r: Row<OfferState>, q: nat, m: nat, n: nat, k: nat) {
    && q <= k < n <= |log| && log[k].product == i
    && (forall j :: k < j < n ==> log[j].product != i)
    && (k < m || log[k].at < r.at)
    && log[k].offer != r.val
  }

  /**
   A page that starts at position m shows update k in vain: k is the product's last
   update below n and not older than the listing, but the page holds earlier updates of
   the product with the same timestamp, and the first of them shows something else.
   */
  ghost predicate Confused(log: seq<Update>, i: nat, r: Row<OfferState>, m: nat, n: nat, k: nat) {
    && m <= k < n <= |log| && log[k].product == i
    && (forall j :: k < j < n ==> log[j].product != i)
    && log[k].at >= r.at
    && log[FirstTied(log, i, m, k)].offer != log[k].offer
  }

  lemma LastDecides(log: seq<Update>, i: nat, r: Row<OfferState>, q: nat, m: nat, n: nat, k: nat)
    requires k < n <= |log| && log[k].product == i && forall j :: k < j < n ==> log[j].product != i
    ensures (exists j :: Missed(log, i, r, q, m, n, j)) <==>
      q <= k && (k < m || log[k].at < r.at) && log[k].offer != r.val
    ensures (exists j :: Confused(log, i, r, m, n, j)) <==>
      m <= k && log[k].at >= r.at && log[FirstTied(log, i, m, k)].offer != log[k].offer
  {
    if q <= k && (k < m || log[k].at < r.at) && log[k].offer != r.val {
      assert Missed(log, i, r, q, m, n, k);
    }
    if m <= k && log[k].at >= r.at && log[FirstTied(log, i, m, k)].offer != log[k].offer {
      assert Confused(log, i, r, m, n, k);
    }
  }

  lemma LastInIs(log: seq<Update>, i: nat, m: nat, n: nat, k: nat)
    requires m <= n <= |log| && k < n && log[k].product == i && forall j :: k < j < n ==> log[j].product != i
    ensures LastIn(log, i, m, n) == if m <= k then Some(k) else None
  {}

  /**
   Product i was listed at log length q with stamp t[i].at, before or after the pin
   m, and the worker has replayed everything from m to n as one page. The row then
   shows the current offer exactly if the listing missed no update for good and the
   page did not confuse tied ones. Nothing is assumed of when the updates fell
   relative to the stamp.
   */
  lemma TornListingHeals(catalog: seq<Listing>, log: seq<Update>, t: Table, ws: seq<OfferWrite>, i: nat, q: nat, m: nat, n: nat)
    requires i < |catalog| && q <= n <= |log| && m <= n && SortedPerProduct(log)
    requires i in t && t[i].val == StateAt(catalog, log[..q], i)
    requires InOrder(log[m..n], ws)
    ensures i in Batch(t, ws)
    ensures Batch(t, ws)[i].val == StateAt(catalog, log[..n], i) <==>
      !(exists k :: Missed(log, i, t[i], q, m, n, k)) && !(exists k :: Confused(log, i, t[i], m, n, k))
  {
    RowAfterPage(log, t, ws, i, m, n);
    var k := LastUpdate(log, i, 0, n);
    if k == -1 {
      StateUnmoved(catalog, log, i, q, n);
    } else {
      StateAfterUpdate(catalog, log, i, k, n);
      if k < q {
        StateAfterUpdate(catalog, log, i, k, q);
      }
      LastDecides(log, i, t[i], q, m, n, k);
      LastInIs(log, i, m, n, k);
    }
  }
}
