/**
 Snapshot plus replay converges: once a worker has caught up, its table shows
 the feed's current offers, although the catalog pages were read at different
 moments and replay writes older updates over newer listings.

 What is assumed of a run is in `Clean`: a clock that does not go back, strictly
 increasing timestamps per product, and pages that carry the feed's own values.
 Interleavings, restarts, crashes, failed pages and failed saves stay arbitrary,
 and so does the table at the start.
 */
module Convergence {
  import opened LastWriteWins
  import opened FeedLog
  import opened CatalogPaging
  import opened CursorCodec
  import opened WorkerLoop
  import opened Pipeline
  import opened NoGap

  ghost predicate StrictPerProduct(log: seq<Update>) {
    forall j, k :: 0 <= j < k < |log| && log[j].product == log[k].product ==> log[j].at < log[k].at
  }

  ghost predicate LogBy(log: seq<Update>, clock: int) {
    forall k :: 0 <= k < |log| ==> log[k].at <= clock
  }

  /** A page of current listings: each carried product of the range, near-duplicates included, stamped in [t0, t1]. */
  ghost predicate ListsCurrent(catalog: seq<Listing>, log: seq<Update>, lo: nat, hi: nat, ws: seq<OfferWrite>, t0: int, t1: int) {
    && (forall w :: w in ws ==>
          && lo <= w.key < hi && w.key < |catalog| && catalog[w.key].carried
          && w.val == StateAt(catalog, log, w.key) && t0 <= w.at <= t1)
    && (forall v, w :: v in ws && w in ws && v.key == w.key ==> v == w)
    && (forall i :: lo <= i < hi && i < |catalog| && catalog[i].carried ==> exists w :: w in ws && w.key == i)
  }

  function WriteOf(u: Update): OfferWrite {
    Write(u.product, u.offer, u.at)
  }

  /** A page of updates, near-duplicates included. */
  ghost predicate Replays(us: seq<Update>, ws: seq<OfferWrite>) {
    && (forall w :: w in ws ==> exists k :: 0 <= k < |us| && w == WriteOf(us[k]))
    && (forall k :: 0 <= k < |us| ==> WriteOf(us[k]) in ws)
  }

  ghost predicate Clean(s: State, step: Step)
    requires s.epoch in s.logs
  {
    Enabled(s, step) ==>
      match step
      case Tick(now, draws) => now >= s.clock && StrictPerProduct(Ticked(s.catalog, s.Log(), now, draws))
      case Restart(now, _) => now >= s.clock
      case ServeCatalog(now, r, ws, _) =>
        var p := CatalogPage(s, r, ws);
        now >= s.clock && ListsCurrent(s.catalog, s.Log(), p.from, p.end, ws, s.clock, now)
      case ServeOffers(limit, ws, _) =>
        var a := Since(s.Log(), s.cs.seqNo, limit);
        a.Window? ==> Replays(a.updates, ws)
      case Process(table, processed, _) =>
        table == Batch(s.table, s.page.value.writes) || (!processed && table == s.table)
      case Crash(_) => true
  }

  ghost predicate CleanRun(s: State, steps: seq<Step>)
    requires s.epoch in s.logs
  {
    steps == [] ||
    (CleanRun(s, steps[..|steps| - 1]) && Clean(Exec(s, steps[..|steps| - 1]), steps[|steps| - 1]))
  }

  /**
   The value and timestamp are those of product i at log position q: all its
   updates before q are no newer, all from q on are no older.
   */
  ghost predicate ReadAt(catalog: seq<Listing>, log: seq<Update>, i: nat, r: Row<OfferState>, q: nat) {
    && i < |catalog| && q <= |log|
    && r.val == StateAt(catalog, log[..q], i)
    && (forall k :: 0 <= k < q && log[k].product == i ==> log[k].at <= r.at)
    && (forall k :: q <= k < |log| && log[k].product == i ==> log[k].at >= r.at)
  }

  ghost predicate Covers(catalog: seq<Listing>, log: seq<Update>, i: nat, t: Table, p: nat) {
    i in t && exists q :: p <= q <= |log| && ReadAt(catalog, log, i, t[i], q)
  }

  /** For every product a cursor of this instance claims, the table is at least as recent as the cursor. */
  ghost predicate Fresh(s: State, c: CursorState)
    requires s.epoch in s.logs
  {
    Positioned(c) && c.epoch == s.epoch ==>
      forall i :: 0 <= i < Bound(s.catalog, c) && i < |s.catalog| && s.catalog[i].carried ==>
        Covers(s.catalog, s.Log(), i, s.table, c.seqNo)
  }

  /** What holds of the page in hand. */
  ghost predicate PageClean(s: State, p: Page)
    requires s.epoch in s.logs && p.epoch in s.logs
  {
    var saved := Parse(s.saved);
    && (forall w :: w in p.writes ==> w.at <= s.clock)
    && (p.epoch != s.epoch && Positioned(saved) ==> saved.epoch != s.epoch)
    && match p.body
       case Listed(_, asOf) =>
         && (forall w, k :: w in p.writes && k in s.table ==> s.table[k].at <= w.at)
         && (forall v, w :: v in p.writes && w in p.writes && v.key == w.key ==> v == w)
         && (forall i :: p.from <= i < p.end && i < |s.catalog| && s.catalog[i].carried ==> exists w :: w in p.writes && w.key == i)
         && (p.epoch == s.epoch ==>
               && (forall w :: w in p.writes ==> ReadAt(s.catalog, s.Log(), w.key, Row(w.val, w.at), asOf))
               && (Positioned(saved) && saved.epoch == s.epoch ==> saved.seqNo <= asOf))
       case Replayed(upto, _, _) =>
         p.from <= upto <= |s.logs[p.epoch]| && Replays(s.logs[p.epoch][p.from..upto], p.writes)
  }

  ghost predicate CleanInv(s: State) {
    && Inv(s)
    && RowsBy(s.table, s.clock) && LogBy(s.Log(), s.clock) && StrictPerProduct(s.Log())
    && Fresh(s, s.cs) && Fresh(s, Parse(s.saved))
    && (s.page.Some? ==> PageClean(s, s.page.value))
  }

  // --- what one write does to one row ---

  lemma ReadAtGrows(catalog: seq<Listing>, log: seq<Update>, log': seq<Update>, i: nat, r: Row<OfferState>, q: nat)
    requires ReadAt(catalog, log, i, r, q) && |log| <= |log'| && log'[..|log|] == log
    requires forall k :: |log| <= k < |log'| ==> log'[k].at >= r.at
    ensures ReadAt(catalog, log', i, r, q)
  {
    assert log'[..q] == log[..q];
    assert forall k :: 0 <= k < |log| ==> log'[k] == log[k];
  }

  /** A row stays a true reading when the log position it is credited with moves past other products' updates. */
  lemma ReadAtMoves(catalog: seq<Listing>, log: seq<Update>, i: nat, r: Row<OfferState>, q: nat, q': nat)
    requires ReadAt(catalog, log, i, r, q) && q <= q' <= |log|
    requires forall k :: q <= k < q' ==> log[k].product != i
    ensures ReadAt(catalog, log, i, r, q')
  {
    StateUnmoved(catalog, log, i, q, q');
  }

  /** The last update of product i in [lo, hi), if there is one. */
  lemma LastUpdate(log: seq<Update>, i: nat, lo: nat, hi: nat) returns (k: int)
    requires lo <= hi <= |log|
    ensures k == -1 || lo <= k < hi
    ensures k != -1 ==> log[k].product == i
    ensures forall j :: lo <= j < hi && j > k ==> log[j].product != i
  {
    k := hi - 1;
    while k >= lo && log[k].product != i
      invariant lo - 1 <= k < hi
      invariant forall j :: lo <= j < hi && j > k ==> log[j].product != i
    {
      k := k - 1;
    }
    if k < lo {
      k := -1;
    }
  }

  /** What the batch does to the row of product i, in terms of the writes to i. */
  lemma BatchRow(t: Table, ws: seq<OfferWrite>, i: nat) returns (w: OfferWrite)
    ensures (exists v :: v in ws && v.key == i) ==> (
      && w in ws && w.key == i
      && (forall v :: v in ws && v.key == i ==> v.at <= w.at)
      && i in Batch(t, ws)
      && Batch(t, ws)[i] == if Newer(t, w) then t[i] else Row(w.val, w.at))
    ensures !(exists v :: v in ws && v.key == i) ==>
      (i in Batch(t, ws) <==> i in t) && (i in t ==> Batch(t, ws)[i] == t[i])
  {
    var n := DedupeKeepsFirstLatest(ws, i);
    if n != -1 {
      w := ws[n];
    } else {
      w := Write(i, OfferState(0, false), 0);
    }
  }

  /** An update is a true reading of its product from its own position to the next one's. */
  lemma UpdateReads(catalog: seq<Listing>, log: seq<Update>, i: nat, k: nat, hi: nat)
    requires i < |catalog| && k < hi <= |log| && log[k].product == i && StrictPerProduct(log)
    requires forall j :: k < j < hi ==> log[j].product != i
    ensures ReadAt(catalog, log, i, Row(log[k].offer, log[k].at), hi)
  {
    StateAfterUpdate(catalog, log, i, k, hi);
  }

  /** A row read after update k that is no newer than update k is update k. */
  lemma RowIsUpdate(catalog: seq<Listing>, log: seq<Update>, i: nat, r: Row<OfferState>, k: nat, q: nat)
    requires ReadAt(catalog, log, i, r, q) && k < q && log[k].product == i && StrictPerProduct(log)
    requires r.at <= log[k].at
    ensures r == Row(log[k].offer, log[k].at)
  {
    StateAfterUpdate(catalog, log, i, k, q);
  }

  /** The newest write a page of updates has for product i is the window's last update of i. */
  lemma NewestReplayed(log: seq<Update>, ws: seq<OfferWrite>, w: OfferWrite, i: nat, lo: nat, hi: nat, k: nat)
    requires lo <= k < hi <= |log| && StrictPerProduct(log) && Replays(log[lo..hi], ws)
    requires log[k].product == i && forall j :: k < j < hi ==> log[j].product != i
    requires w in ws && w.key == i && forall v :: v in ws && v.key == i ==> v.at <= w.at
    ensures w == WriteOf(log[k])
  {
    var us := log[lo..hi];
    var j :| 0 <= j < |us| && w == WriteOf(us[j]);
    assert us[j] == log[lo + j] && us[k - lo] == log[k];
    assert WriteOf(us[k - lo]) in ws;
  }

  lemma NothingReplayed(log: seq<Update>, ws: seq<OfferWrite>, i: nat, lo: nat, hi: nat)
    requires lo <= hi <= |log| && Replays(log[lo..hi], ws)
    requires forall j :: lo <= j < hi ==> log[j].product != i
    ensures !exists v :: v in ws && v.key == i
  {
    forall v | v in ws ensures v.key != i {
      var us := log[lo..hi];
      var j :| 0 <= j < |us| && v == WriteOf(us[j]);
      assert us[j] == log[lo + j];
    }
  }

  /** Replaying a window of the log over a row never loses ground, and catches the row up if it had reached the window. */
  lemma ReplayRow(catalog: seq<Listing>, log: seq<Update>, t: Table, ws: seq<OfferWrite>, i: nat, lo: nat, hi: nat, q: nat)
    returns (q': nat)
    requires lo <= hi <= |log| && StrictPerProduct(log)
    requires Replays(log[lo..hi], ws)
    requires i in t && ReadAt(catalog, log, i, t[i], q)
    ensures i in Batch(t, ws) && q <= q' && (q >= lo ==> q' >= hi)
    ensures ReadAt(catalog, log, i, Batch(t, ws)[i], q')
  {
    var k := LastUpdate(log, i, lo, hi);
    var w := BatchRow(t, ws, i);
    q' := if lo <= q < hi then hi else q;
    if k == -1 {
      NothingReplayed(log, ws, i, lo, hi);
      ReadAtMoves(catalog, log, i, t[i], q, q');
    } else {
      assert log[lo..hi][k - lo] == log[k];
      assert WriteOf(log[lo..hi][k - lo]) in ws;
      NewestReplayed(log, ws, w, i, lo, hi, k);
      if q <= k {
        q' := hi;
        UpdateReads(catalog, log, i, k, hi);
      } else {
        if !Newer(t, w) {
          RowIsUpdate(catalog, log, i, t[i], k, q);
        }
        ReadAtMoves(catalog, log, i, t[i], q, q');
      }
    }
  }

  lemma ReplayCovers(s: State, ws: seq<OfferWrite>, i: nat, lo: nat, hi: nat, p: nat)
    requires s.epoch in s.logs && lo <= hi <= |s.Log()| && StrictPerProduct(s.Log()) && Replays(s.Log()[lo..hi], ws)
    requires Covers(s.catalog, s.Log(), i, s.table, p)
    ensures Covers(s.catalog, s.Log(), i, Batch(s.table, ws), p)
    ensures p >= lo ==> Covers(s.catalog, s.Log(), i, Batch(s.table, ws), hi)
  {
    var q :| p <= q <= |s.Log()| && ReadAt(s.catalog, s.Log(), i, s.table[i], q);
    var q' := ReplayRow(s.catalog, s.Log(), s.table, ws, i, lo, hi, q);
  }

  lemma ListingCovers(s: State, page: Page, i: nat, p: nat)
    requires s.epoch in s.logs && page.epoch == s.epoch && page.body.Listed? && PageClean(s, page)
    requires p <= page.body.asOf <= |s.Log()|
    requires Covers(s.catalog, s.Log(), i, s.table, p) || exists w :: w in page.writes && w.key == i
    ensures Covers(s.catalog, s.Log(), i, Batch(s.table, page.writes), p)
  {
    var w := BatchRow(s.table, page.writes, i);
    if exists v :: v in page.writes && v.key == i {
      assert !Newer(s.table, w);
      assert ReadAt(s.catalog, s.Log(), w.key, Row(w.val, w.at), page.body.asOf);
    }
  }

  lemma BatchBy(t: Table, ws: seq<OfferWrite>, clock: int)
    requires RowsBy(t, clock) && forall w :: w in ws ==> w.at <= clock
    ensures RowsBy(Batch(t, ws), clock)
  {
    forall k | k in Batch(t, ws) ensures Batch(t, ws)[k].at <= clock {
      var w := BatchRow(t, ws, k);
    }
  }

  // --- the steps ---

  lemma TickKeepsFresh(s: State, s': State, c: CursorState)
    requires s.epoch in s.logs && s'.epoch == s.epoch && s.epoch in s'.logs
    requires s'.catalog == s.catalog && s'.table == s.table
    requires |s.Log()| <= |s'.Log()| && s'.Log()[..|s.Log()|] == s.Log()
    requires RowsBy(s.table, s.clock) && forall k :: |s.Log()| <= k < |s'.Log()| ==> s'.Log()[k].at >= s.clock
    requires Fresh(s, c)
    ensures Fresh(s', c)
  {
    if Positioned(c) && c.epoch == s.epoch {
      forall i | 0 <= i < Bound(s.catalog, c) && i < |s.catalog| && s.catalog[i].carried
        ensures Covers(s.catalog, s'.Log(), i, s.table, c.seqNo)
      {
        assert Covers(s.catalog, s.Log(), i, s.table, c.seqNo);
        var q :| c.seqNo <= q <= |s.Log()| && ReadAt(s.catalog, s.Log(), i, s.table[i], q);
        ReadAtGrows(s.catalog, s.Log(), s'.Log(), i, s.table[i], q);
      }
    }
  }

  lemma TickKeepsPage(s: State, s': State, p: Page)
    requires Extends(s, s') && s.epoch in s.logs && s'.epoch == s.epoch && p.epoch in s.logs
    requires s'.table == s.table && s'.saved == s.saved && s'.clock >= s.clock
    requires forall k :: |s.Log()| <= k < |s'.Log()| ==> s'.Log()[k].at >= s.clock
    requires PageClean(s, p)
    ensures PageClean(s', p)
  {
    match p.body
    case Listed(_, asOf) =>
      if p.epoch == s.epoch {
        forall w | w in p.writes
          ensures ReadAt(s.catalog, s'.Log(), w.key, Row(w.val, w.at), asOf)
        {
          ReadAtGrows(s.catalog, s.Log(), s'.Log(), w.key, Row(w.val, w.at), asOf);
        }
      }
    case Replayed(upto, _, _) =>
      var l, l' := s.logs[p.epoch], s'.logs[p.epoch];
      assert l'[..|l|] == l;
      assert l'[p.from..upto] == l[p.from..upto];
  }

  lemma TickIsClean(s: State, now: int, draws: seq<Draw>)
    requires CleanInv(s) && Enabled(s, Tick(now, draws)) && Clean(s, Tick(now, draws))
    ensures CleanInv(TickFeed(s, now, draws))
  {
    var s' := TickFeed(s, now, draws);
    TickKeepsInv(s, now, draws);
    TickKeepsFresh(s, s', s.cs);
    TickKeepsFresh(s, s', Parse(s.saved));
    if s.page.Some? {
      TickKeepsPage(s, s', s.page.value);
    }
    assert forall k :: 0 <= k < |s.Log()| ==> s'.Log()[k] == s.Log()[k];
  }

  lemma RestartIsClean(s: State, now: int, e: nat)
    requires CleanInv(s) && now >= s.clock && e !in s.logs && e <= MAX_UINT64
    ensures CleanInv(RestartFeed(s, now, e))
  {
    BystanderKeepsInv(s, RestartFeed(s, now, e));
  }

  lemma StartOverIsClean(s: State, saveOk: bool)
    requires CleanInv(s)
    ensures CleanInv(StartOver(s, saveOk))
  {
    StartOverKeepsInv(s, saveOk);
    RoundTrip(FRESH);
  }

  lemma ArriveIsClean(s: State, p: Page, saveOk: bool)
    requires CleanInv(s) && s.page.None? && p.epoch == s.epoch && Inv(Arrive(s, p, saveOk))
    requires s.cs.phase == Catalog <==> p.body.Listed?
    requires !(p.body.Replayed? && p.body.empty) ==> PageClean(s, p)
    ensures CleanInv(Arrive(s, p, saveOk))
  {
    StartOverIsClean(s, saveOk);
  }

  lemma CatalogPageIsClean(s: State, now: int, r: Request, ws: seq<OfferWrite>)
    requires CleanInv(s) && now >= s.clock
    requires var p := CatalogPage(s, r, ws); ListsCurrent(s.catalog, s.Log(), p.from, p.end, ws, s.clock, now)
    ensures PageClean(s.(clock := now), CatalogPage(s, r, ws))
  {
    assert s.Log()[..|s.Log()|] == s.Log();
  }

  lemma FetchCatalogIsClean(s: State, now: int, r: Request, ws: seq<OfferWrite>, saveOk: bool)
    requires CleanInv(s) && s.page.None? && s.cs.phase == Catalog && r.limit > 0 && now >= s.clock
    requires var p := CatalogPage(s, r, ws); ListsCurrent(s.catalog, s.Log(), p.from, p.end, ws, s.clock, now)
    ensures CleanInv(FetchCatalog(s, now, r, ws, saveOk))
  {
    ServeCatalogKeepsInv(s, now, r, ws, saveOk);
    BystanderKeepsInv(s, s.(clock := now));
    CatalogPageIsClean(s, now, r, ws);
    ArriveIsClean(s.(clock := now), CatalogPage(s, r, ws), saveOk);
  }

  lemma ReplaysBy(log: seq<Update>, from: nat, us: seq<Update>, ws: seq<OfferWrite>, clock: int)
    requires from + |us| <= |log| && us == log[from..from + |us|] && LogBy(log, clock) && Replays(us, ws)
    ensures forall w :: w in ws ==> w.at <= clock
  {
    forall w | w in ws ensures w.at <= clock {
      var k :| 0 <= k < |us| && w == WriteOf(us[k]);
      assert us[k] == log[from + k];
    }
  }

  lemma ReplayIsClean(s: State, p: Page)
    requires s.epoch in s.logs && p.epoch == s.epoch && p.body.Replayed? && p.from <= p.body.upto <= |s.Log()|
    requires Replays(s.Log()[p.from..p.body.upto], p.writes) && forall w :: w in p.writes ==> w.at <= s.clock
    ensures PageClean(s, p)
  {}

  lemma OffersPageIsClean(s: State, us: seq<Update>, more: bool, ws: seq<OfferWrite>)
    requires CleanInv(s) && s.cs.seqNo + |us| <= |s.Log()| && us == s.Log()[s.cs.seqNo..s.cs.seqNo + |us|]
    requires Replays(us, ws)
    ensures PageClean(s, OffersPage(s, us, more, ws))
  {
    ReplaysBy(s.Log(), s.cs.seqNo, us, ws, s.clock);
    ReplayIsClean(s, OffersPage(s, us, more, ws));
  }

  lemma FetchOffersIsClean(s: State, limit: nat, ws: seq<OfferWrite>, saveOk: bool)
    requires CleanInv(s) && s.page.None? && s.cs.phase == Offers && limit > 0
    requires var a := Since(s.Log(), s.cs.seqNo, limit); a.Window? ==> Replays(a.updates, ws)
    ensures CleanInv(FetchOffers(s, limit, ws, saveOk))
  {
    ServeOffersKeepsInv(s, limit, ws, saveOk);
    match Since(s.Log(), s.cs.seqNo, limit)
    case Gone =>
      StartOverIsClean(s, saveOk);
    case Window(us, more) =>
      OffersPageIsClean(s, us, more, ws);
      ArriveIsClean(s, OffersPage(s, us, more, ws), saveOk);
  }

  /** Applying the page in hand keeps every claim, and makes good the claim of the advanced cursor. */
  lemma WriteKeepsFresh(s: State, c: CursorState)
    requires CleanInv(s) && s.page.Some? && Fresh(s, c)
    requires c == s.cs || c == Parse(s.saved)
    ensures Fresh(s.(table := Batch(s.table, s.page.value.writes)), c)
  {
    var p := s.page.value;
    if Positioned(c) && c.epoch == s.epoch {
      forall i | 0 <= i < Bound(s.catalog, c) && i < |s.catalog| && s.catalog[i].carried
        ensures Covers(s.catalog, s.Log(), i, Batch(s.table, p.writes), c.seqNo)
      {
        assert Covers(s.catalog, s.Log(), i, s.table, c.seqNo);
        match p.body
        case Listed(_, _) => ListingCovers(s, p, i, c.seqNo);
        case Replayed(upto, _, _) => ReplayCovers(s, p.writes, i, p.from, upto, c.seqNo);
      }
    }
  }

  lemma WriteIsClean(s: State)
    requires CleanInv(s) && s.page.Some?
    ensures var s' := s.(table := Batch(s.table, s.page.value.writes));
      && Inv(s') && RowsBy(s'.table, s'.clock) && Fresh(s', s.cs) && Fresh(s', Parse(s.saved))
  {
    BystanderKeepsInv(s, s.(table := Batch(s.table, s.page.value.writes)));
    BatchBy(s.table, s.page.value.writes, s.clock);
    WriteKeepsFresh(s, s.cs);
    WriteKeepsFresh(s, Parse(s.saved));
  }

  lemma AdvanceIsFresh(s: State)
    requires CleanInv(s) && s.page.Some?
    ensures Fresh(s.(table := Batch(s.table, s.page.value.writes)), Advance(s.cs, s.page.value.body))
  {
    var p := s.page.value;
    var c := Advance(s.cs, p.body);
    if c.epoch == s.epoch {
      forall i | 0 <= i < Bound(s.catalog, c) && i < |s.catalog| && s.catalog[i].carried
        ensures Covers(s.catalog, s.Log(), i, Batch(s.table, p.writes), c.seqNo)
      {
        match p.body
        case Listed(_, _) =>
          if i < p.from {
            assert Covers(s.catalog, s.Log(), i, s.table, s.cs.seqNo);
          }
          ListingCovers(s, p, i, s.cs.seqNo);
        case Replayed(upto, _, _) =>
          assert Covers(s.catalog, s.Log(), i, s.table, s.cs.seqNo);
          ReplayCovers(s, p.writes, i, p.from, upto, s.cs.seqNo);
      }
    }
  }

  lemma ProcessIsClean(s: State, table: Table, processed: bool, saveOk: bool)
    requires CleanInv(s) && s.page.Some?
    requires table == Batch(s.table, s.page.value.writes) || (!processed && table == s.table)
    ensures CleanInv(ProcessPage(s, table, processed, saveOk))
  {
    ProcessKeepsInv(s, table, processed, saveOk);
    WriteIsClean(s);
    if processed {
      AdvanceIsFresh(s);
      var c := Advance(s.cs, s.page.value.body);
      assert Accounted(ProcessPage(s, table, processed, saveOk), c, s.pin);
      RoundTrip(c);
    }
  }

  lemma CrashIsClean(s: State, loadOk: bool)
    requires CleanInv(s)
    ensures CleanInv(Resume(s, loadOk))
  {
    CrashKeepsInv(s, loadOk);
  }

  lemma StepIsClean(s: State, step: Step)
    requires CleanInv(s) && Clean(s, step)
    ensures CleanInv(Do(s, step))
  {
    if Enabled(s, step) {
      match step
      case Tick(now, draws) => TickIsClean(s, now, draws);
      case Restart(now, e) => RestartIsClean(s, now, e);
      case ServeCatalog(now, r, ws, saveOk) => FetchCatalogIsClean(s, now, r, ws, saveOk);
      case ServeOffers(limit, ws, saveOk) => FetchOffersIsClean(s, limit, ws, saveOk);
      case Process(table, processed, saveOk) => ProcessIsClean(s, table, processed, saveOk);
      case Crash(loadOk) => CrashIsClean(s, loadOk);
    }
  }

  lemma {:induction false} RunIsClean(s: State, steps: seq<Step>)
    requires Init(s) && CleanRun(s, steps)
    ensures CleanInv(Exec(s, steps))
  {
    if steps != [] {
      RunIsClean(s, steps[..|steps| - 1]);
      StepIsClean(Exec(s, steps[..|steps| - 1]), steps[|steps| - 1]);
    }
  }

  ghost predicate CaughtUp(s: State)
    requires s.epoch in s.logs
  {
    s.cs.phase == Offers && s.cs.epoch == s.epoch && s.cs.seqNo == |s.Log()|
  }

  ghost predicate ShowsCurrentOffers(s: State)
    requires s.epoch in s.logs
  {
    forall i :: 0 <= i < |s.catalog| && s.catalog[i].carried ==>
      i in s.table && s.table[i].val == StateAt(s.catalog, s.Log(), i)
  }

  lemma CaughtUpShowsCurrent(s: State)
    requires CleanInv(s) && CaughtUp(s)
    ensures ShowsCurrentOffers(s)
  {
    forall i | 0 <= i < |s.catalog| && s.catalog[i].carried
      ensures i in s.table && s.table[i].val == StateAt(s.catalog, s.Log(), i)
    {
      assert Covers(s.catalog, s.Log(), i, s.table, s.cs.seqNo);
      assert s.Log()[..|s.Log()|] == s.Log();
    }
  }

  /**
   Main result: at the end of any clean run, a worker that is past its sync, in
   the running instance and at the head of its log holds exactly the feed's
   current offer for every carried product.
   */
  lemma SnapshotPlusReplayConverges(s0: State, steps: seq<Step>)
    requires Init(s0) && CleanRun(s0, steps)
    ensures CaughtUp(Exec(s0, steps)) ==> ShowsCurrentOffers(Exec(s0, steps))
  {
    RunIsClean(s0, steps);
    if CaughtUp(Exec(s0, steps)) {
      CaughtUpShowsCurrent(Exec(s0, steps));
    }
  }
}
