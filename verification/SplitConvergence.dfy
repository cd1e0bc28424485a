/**
 What a run with split responses skips, which rows it leaves wrong, and why. The
 clock does not go back and items carry the values that were read. Ticks may fall
 anywhere inside a response, and one tick may update a product more than once.
 */
module SplitConvergence {
  import opened Wrappers
  import opened LastWriteWins
  import opened FeedLog
  import opened CatalogPaging
  import opened CursorCodec
  import opened WorkerLoop
  import opened Pipeline
  import opened NoGap
  import opened Convergence
  import opened TiedReplay
  import opened TornPage
  import opened SplitResponse

  /** A page carries exactly the listed entries, near-duplicates included. */
  ghost predicate Carries(es: map<nat, Entry>, ws: seq<OfferWrite>) {
    && (forall w :: w in ws ==> w.key in es && w == Write(w.key, es[w.key].val, es[w.key].at))
    && (forall i :: i in es ==> Write(i, es[i].val, es[i].at) in ws)
  }

  /** As `Clean`, but with tied timestamps allowed: the clock does not go back, and pages of updates keep the feed's order. */
  ghost predicate CleanOther(s: State, step: Step)
    requires s.epoch in s.logs
  {
    Enabled(s, step) ==>
      match step
      case Tick(now, _) => now >= s.clock
      case Restart(now, _) => now >= s.clock
      case ServeOffers(limit, ws, _) =>
        var a := Since(s.Log(), s.cs.seqNo, limit);
        a.Window? ==> InOrder(a.updates, ws)
      case Process(table, processed, _) =>
        table == Batch(s.table, s.page.value.writes) || (!processed && table == s.table)
      case _ => true
  }

  ghost predicate CleanSplit(f: Split, x: SplitStep)
    requires f.s.epoch in f.s.logs
  {
    match x
    case Other(step) => CleanOther(f.s, step)
    case Stamp(now) => now >= f.s.clock
    case Close(now, writes, _) => now >= f.s.clock && (f.open.Some? ==> Carries(f.open.value.entries, writes))
    case _ => true
  }

  ghost predicate CleanSplitRun(f: Split, xs: seq<SplitStep>)
    requires f.s.epoch in f.s.logs
  {
    xs == [] ||
    (CleanSplitRun(f, xs[..|xs| - 1]) && CleanSplit(ExecSplit(f, xs[..|xs| - 1]), xs[|xs| - 1]))
  }

  ghost predicate InitSplit(f: Split) {
    Init(f.s) && f.open.None? && f.last == map[]
  }

  // --- what is kept ---

  /** The entry shows product i as it was at its read position, and is stamped after everything before that. */
  ghost predicate EntryOk(s: State, i: nat, e: Entry)
    requires s.epoch in s.logs
  {
    && i < |s.catalog| && s.catalog[i].carried && e.read <= |s.Log()| && e.val == StateAt(s.catalog, s.Log()[..e.read], i)
    && e.at <= s.clock
    && (forall k :: 0 <= k < e.read && s.Log()[k].product == i ==> s.Log()[k].at <= e.at)
  }

  /** The cursor claims a position in the running instance. */
  predicate Current(s: State, c: CursorState) {
    Positioned(c) && c.epoch == s.epoch
  }

  // Below, `disk` is the stored position; SplitInv takes it from the stored text.

  /** Log length n is at or past every position claimed in the running instance. */
  predicate Ahead(s: State, disk: CursorState, n: nat) {
    (Current(s, s.cs) ==> s.cs.seqNo <= n) && (Current(s, disk) ==> disk.seqNo <= n)
  }

  /** The entries list the range: each carried product once, read past the cursors and stamped past all rows. */
  ghost predicate EntriesOk(s: State, disk: CursorState, es: map<nat, Entry>, lo: nat, hi: nat)
    requires s.epoch in s.logs
  {
    && (forall i :: i in es ==> lo <= i < hi && EntryOk(s, i, es[i]) && Ahead(s, disk, es[i].read) && RowsBy(s.table, es[i].at))
    && (forall i :: lo <= i < hi && i < |s.catalog| && s.catalog[i].carried ==> i in es)
  }

  ghost predicate OpenOk(f: Split, disk: CursorState)
    requires f.s.epoch in f.s.logs
  {
    f.open.Some? ==>
      var s, r := f.s, f.open.value;
      && s.page.None? && s.cs.phase == Catalog && r.request.limit > 0
      && Start(s.catalog, s.cs.catCursor) <= r.next <= ScanEnd(s, r)
      && EntriesOk(s, disk, r.entries, Start(s.catalog, s.cs.catCursor), r.next)
      && (r.half.Some? ==>
            && r.next < ScanEnd(s, r) && s.catalog[r.next].carried && r.half.value.read <= |s.Log()|
            && r.half.value.val == StateAt(s.catalog, s.Log()[..r.half.value.read], r.next)
            && Ahead(s, disk, r.half.value.read))
  }

  /** Entries of a response that closed at log length n: read before, and older than everything after. */
  ghost predicate ClosedAt(s: State, es: map<nat, Entry>, n: nat)
    requires s.epoch in s.logs
  {
    forall i :: i in es ==> es[i].read <= n && forall k :: n <= k < |s.Log()| ==> s.Log()[k].at >= es[i].at
  }

  ghost predicate PageOk(f: Split, disk: CursorState)
    requires f.s.epoch in f.s.logs
  {
    f.s.page.Some? ==>
      var s, p := f.s, f.s.page.value;
      && p.epoch in s.logs && p.epoch == s.cs.epoch && (forall w :: w in p.writes ==> w.at <= s.clock)
      && (p.epoch != s.epoch ==> f.last == map[])
      && match p.body
         case Listed(next, asOf) =>
           && s.cs.phase == Catalog && p.from == Start(s.catalog, s.cs.catCursor) <= p.end <= |s.catalog|
           && next == (if p.end < |s.catalog| then Some(p.end) else None)
           && (p.epoch == s.epoch ==>
             && EntriesOk(s, disk, f.entries, p.from, p.end) && ClosedAt(s, f.entries, asOf) && Carries(f.entries, p.writes)
             && asOf <= |s.Log()| && Ahead(s, disk, asOf) && (s.cs.catCursor == 0 ==> s.pin == s.cs.seqNo == asOf))
         case Replayed(upto, _, _) =>
           && s.cs.phase == Offers && p.from == s.cs.seqNo <= upto == p.end <= |s.logs[p.epoch]|
           && InOrder(s.logs[p.epoch][p.from..upto], p.writes)
  }

  /** The row is the listing, newer than all updates replayed since, or what the last page that took effect made of it. */
  ghost predicate RowIs(log: seq<Update>, i: nat, x: Shown, r: Row<OfferState>) {
    && (forall k :: k in x.replayed ==> k < |log|)
    && (forall k :: k in x.replayed && log[k].product == i ==> log[k].at <= r.at)
    && match x.source
       case None =>
         r == Row(x.entry.val, x.entry.at) && forall k :: k in x.replayed && log[k].product == i ==> log[k].at < x.entry.at
       case Some(src) =>
         && src.from <= src.last < |log| && src.last in x.replayed && log[src.last].product == i
         && log[src.last].at >= x.entry.at
         && r == Row(log[FirstTied(log, i, src.from, src.last)].offer, log[src.last].at)
  }

  ghost predicate ShownOk(s: State, i: nat, x: Shown)
    requires s.epoch in s.logs
  {
    && EntryOk(s, i, x.entry) && x.entry.read <= x.closed <= |s.Log()|
    && (forall k :: x.closed <= k < |s.Log()| ==> s.Log()[k].at >= x.entry.at)
    && i in s.table && RowIs(s.Log(), i, x, s.table[i])
  }

  ghost predicate LastOk(f: Split)
    requires f.s.epoch in f.s.logs
  {
    forall i :: i in f.last ==> ShownOk(f.s, i, f.last[i])
  }

  /** Of the replayed updates below n that tie with update `last`, none is later. */
  ghost predicate LatestBelow(log: seq<Update>, i: nat, replayed: set<nat>, n: nat, last: nat)
    requires n <= |log| && last < |log|
  {
    forall k :: 0 <= k < n && log[k].product == i && k in replayed && log[k].at == log[last].at ==> k <= last
  }

  /**
   What a cursor with this pin may claim of product i: it has been listed, and of the
   product's updates below the cursor those replayed since are the ones past the pin,
   from the first replayed on without a gap. No tied one of them is later than the last
   that took effect.
   */
  ghost predicate Backed(s: State, i: nat, x: Shown, c: CursorState, pin: nat)
    requires s.epoch in s.logs && c.seqNo <= |s.Log()|
  {
    && pin <= x.closed
    && (forall k :: 0 <= k < c.seqNo && s.Log()[k].product == i && k in x.replayed ==> k >= pin)
    && (forall k :: pin <= k < c.seqNo && s.Log()[k].product == i ==> k in x.replayed || k < x.entry.read)
    && (forall j, k :: j in x.replayed && j < k < c.seqNo && s.Log()[k].product == i ==> k in x.replayed)
    && (x.source.Some? && x.source.value.last < |s.Log()| ==> LatestBelow(s.Log(), i, x.replayed, c.seqNo, x.source.value.last))
  }

  ghost predicate ClaimOk(f: Split, c: CursorState, pin: nat)
    requires f.s.epoch in f.s.logs
  {
    Current(f.s, c) ==>
      && pin <= c.seqNo <= |f.s.Log()|
      && forall i :: 0 <= i < Bound(f.s.catalog, c) && i < |f.s.catalog| && f.s.catalog[i].carried ==>
           i in f.last && Backed(f.s, i, f.last[i], c, pin)
  }

  /** The stored position never leads the one in memory. */
  ghost predicate LagOk(s: State, disk: CursorState) {
    Current(s, s.cs) && Current(s, disk) ==> disk.seqNo <= s.cs.seqNo
  }

  ghost predicate FeedOk(s: State) {
    s.epoch in s.logs && RowsBy(s.table, s.clock) && LogBy(s.Log(), s.clock) && SortedPerProduct(s.Log())
  }

  ghost predicate SplitAt(f: Split, disk: CursorState) {
    && FeedOk(f.s) && OpenOk(f, disk) && PageOk(f, disk) && LastOk(f) && LagOk(f.s, disk)
    && ClaimOk(f, f.s.cs, f.s.pin) && ClaimOk(f, disk, f.s.savedPin)
  }

  ghost predicate SplitInv(f: Split) {
    Inv(f.s) && SplitAt(f, Parse(f.s.saved))
  }

  // --- the feed moves on ---

  /** Only the log of the running instance and the clock have moved, and no update is older than the old clock. */
  ghost predicate Grew(s: State, s': State)
    requires s.epoch in s.logs
  {
    && s' == s.(clock := s'.clock, logs := s'.logs) && s'.clock >= s.clock && Extends(s, s')
    && forall k :: |s.Log()| <= k < |s'.Log()| ==> s'.Log()[k].at >= s.clock
  }

  lemma EntryGrows(s: State, s': State, i: nat, e: Entry)
    requires s.epoch in s.logs && Grew(s, s') && EntryOk(s, i, e)
    ensures EntryOk(s', i, e)
  {
    assert s'.Log()[..|s.Log()|] == s.Log();
    assert s'.Log()[..e.read] == s.Log()[..e.read];
    assert forall k :: 0 <= k < e.read ==> s'.Log()[k] == s.Log()[k];
  }

  lemma EntriesGrow(s: State, s': State, disk: CursorState, es: map<nat, Entry>, lo: nat, hi: nat)
    requires s.epoch in s.logs && Grew(s, s') && EntriesOk(s, disk, es, lo, hi)
    ensures EntriesOk(s', disk, es, lo, hi)
  {
    forall i | i in es ensures EntryOk(s', i, es[i]) {
      EntryGrows(s, s', i, es[i]);
    }
  }

  lemma ShownGrows(s: State, s': State, i: nat, x: Shown)
    requires s.epoch in s.logs && Grew(s, s') && ShownOk(s, i, x)
    ensures ShownOk(s', i, x)
  {
    EntryGrows(s, s', i, x.entry);
    assert s'.Log()[..|s.Log()|] == s.Log();
    assert forall k :: 0 <= k < |s.Log()| ==> s'.Log()[k] == s.Log()[k];
  }

  lemma OpenGrows(f: Split, disk: CursorState, s': State)
    requires f.s.epoch in f.s.logs && Grew(f.s, s') && OpenOk(f, disk)
    ensures OpenOk(f.(s := s'), disk)
  {
    if f.open.Some? {
      var r := f.open.value;
      EntriesGrow(f.s, s', disk, r.entries, Start(f.s.catalog, f.s.cs.catCursor), r.next);
      if r.half.Some? {
        assert s'.Log()[..|f.s.Log()|] == f.s.Log();
        assert s'.Log()[..r.half.value.read] == f.s.Log()[..r.half.value.read];
      }
    }
  }

  lemma ClosedGrows(s: State, s': State, es: map<nat, Entry>, n: nat)
    requires s.epoch in s.logs && Grew(s, s') && ClosedAt(s, es, n) && forall i :: i in es ==> es[i].at <= s.clock
    ensures ClosedAt(s', es, n)
  {
    assert s'.Log()[..|s.Log()|] == s.Log();
    forall i, k | i in es && n <= k < |s'.Log()| ensures s'.Log()[k].at >= es[i].at {
      if k < |s.Log()| {
        assert s'.Log()[k] == s.Log()[k];
      }
    }
  }

  lemma SliceOfPrefix(l: seq<Update>, l': seq<Update>, lo: nat, hi: nat)
    requires |l| <= |l'| && l'[..|l|] == l && lo <= hi <= |l|
    ensures l'[lo..hi] == l[lo..hi]
  {
    assert forall k :: lo <= k < hi ==> l'[k] == l'[..|l|][k];
  }

  lemma PageGrows(f: Split, disk: CursorState, s': State)
    requires f.s.epoch in f.s.logs && Grew(f.s, s') && PageOk(f, disk)
    ensures PageOk(f.(s := s'), disk)
  {
    if f.s.page.Some? {
      var p := f.s.page.value;
      var l, l' := f.s.logs[p.epoch], s'.logs[p.epoch];
      assert l'[..|l|] == l;
      match p.body
      case Listed(_, asOf) =>
        if p.epoch == f.s.epoch {
          EntriesGrow(f.s, s', disk, f.entries, p.from, p.end);
          ClosedGrows(f.s, s', f.entries, asOf);
        }
      case Replayed(upto, _, _) =>
        SliceOfPrefix(l, l', p.from, upto);
    }
  }

  lemma ClaimGrows(f: Split, s': State, c: CursorState, pin: nat)
    requires f.s.epoch in f.s.logs && Grew(f.s, s') && ClaimOk(f, c, pin)
    ensures ClaimOk(f.(s := s'), c, pin)
  {
    assert s'.Log()[..|f.s.Log()|] == f.s.Log();
    assert forall k :: 0 <= k < |f.s.Log()| ==> s'.Log()[k] == f.s.Log()[k];
    if Current(f.s, c) {
      forall i | 0 <= i < Bound(f.s.catalog, c) && i < |f.s.catalog| && f.s.catalog[i].carried
        ensures i in f.last && Backed(s', i, f.last[i], c, pin)
      {
        assert Backed(f.s, i, f.last[i], c, pin);
      }
    }
  }

  lemma GrowthKeepsSplit(f: Split, disk: CursorState, s': State)
    requires SplitAt(f, disk) && Grew(f.s, s') && FeedOk(s')
    ensures SplitAt(f.(s := s'), disk)
  {
    OpenGrows(f, disk, s');
    PageGrows(f, disk, s');
    forall i | i in f.last ensures ShownOk(s', i, f.last[i]) {
      ShownGrows(f.s, s', i, f.last[i]);
    }
    ClaimGrows(f, s', f.s.cs, f.s.pin);
    ClaimGrows(f, s', disk, f.s.savedPin);
  }

  lemma TickGrows(s: State, now: int, draws: seq<Draw>)
    requires FeedOk(s) && Enabled(s, Tick(now, draws)) && now >= s.clock
    ensures Grew(s, TickFeed(s, now, draws)) && FeedOk(TickFeed(s, now, draws))
  {
    var s' := TickFeed(s, now, draws);
    assert s'.Log()[..|s.Log()|] == s.Log();
    assert forall k :: 0 <= k < |s.Log()| ==> s'.Log()[k] == s.Log()[k];
  }

  lemma TickKeepsSplit(f: Split, disk: CursorState, now: int, draws: seq<Draw>)
    requires SplitAt(f, disk) && Enabled(f.s, Tick(now, draws)) && now >= f.s.clock
    ensures SplitAt(f.(s := TickFeed(f.s, now, draws)), disk)
  {
    TickGrows(f.s, now, draws);
    GrowthKeepsSplit(f, disk, TickFeed(f.s, now, draws));
  }

  lemma RestartKeepsSplit(f: Split, disk: CursorState, now: int, e: nat)
    requires SplitAt(f, disk) && now >= f.s.clock && e !in f.s.logs
    requires (Positioned(f.s.cs) ==> f.s.cs.epoch in f.s.logs) && (Positioned(disk) ==> disk.epoch in f.s.logs)
    ensures SplitAt(Split(RestartFeed(f.s, now, e), None, f.entries, map[]), disk)
  {}

  // --- the worker drops what it has ---

  lemma ClaimMoves(f: Split, f': Split, c: CursorState, pin: nat)
    requires f.s.epoch in f.s.logs && ClaimOk(f, c, pin)
    requires f'.s.epoch == f.s.epoch && f'.s.logs == f.s.logs && f'.s.catalog == f.s.catalog && f'.last == f.last
    ensures ClaimOk(f', c, pin)
  {
    if Current(f.s, c) {
      forall i | 0 <= i < Bound(f.s.catalog, c) && i < |f.s.catalog| && f.s.catalog[i].carried
        ensures i in f.last && Backed(f'.s, i, f.last[i], c, pin)
      {
        assert Backed(f.s, i, f.last[i], c, pin);
      }
    }
  }

  lemma LastMoves(f: Split, f': Split)
    requires f.s.epoch in f.s.logs && LastOk(f) && f'.last == f.last
    requires f'.s.epoch == f.s.epoch && f'.s.logs == f.s.logs && f'.s.catalog == f.s.catalog
    requires f'.s.table == f.s.table && f'.s.clock == f.s.clock
    ensures LastOk(f')
  {
    forall i | i in f.last ensures ShownOk(f'.s, i, f.last[i]) {
      assert ShownOk(f.s, i, f.last[i]);
    }
  }

  /** The position in memory, and perhaps the one on disk, is replaced by the stored one or by none. */
  lemma DropKeepsSplit(f: Split, disk: CursorState, f': Split, disk': CursorState)
    requires SplitAt(f, disk) && f'.open.None? && f'.last == f.last
    requires f'.s == f.s.(cs := f'.s.cs, saved := f'.s.saved, pin := f'.s.pin, savedPin := f'.s.savedPin, page := None)
    requires f'.s.cs == FRESH || (f'.s.cs == disk == disk' && f'.s.pin == f.s.savedPin)
    requires disk' == FRESH || (disk' == disk && f'.s.savedPin == f.s.savedPin)
    ensures SplitAt(f', disk')
  {
    LastMoves(f, f');
    ClaimMoves(f, f', disk, f.s.savedPin);
  }

  // --- the response ---

  /** Only the response under way has changed. */
  lemma ResponseMoves(f: Split, disk: CursorState, f': Split)
    requires SplitAt(f, disk) && f' == f.(open := f'.open) && OpenOk(f', disk)
    ensures SplitAt(f', disk)
  {}

  lemma OpenKeepsSplit(f: Split, disk: CursorState, request: Request)
    requires SplitAt(f, disk)
    ensures SplitAt(DoSplit(f, Open(request)), disk)
  {}

  lemma ReadKeepsSplit(f: Split, disk: CursorState)
    requires SplitAt(f, disk) && f.open.Some?
    ensures SplitAt(DoRead(f, f.open.value), disk)
  {
    assert f.s.Log()[..|f.s.Log()|] == f.s.Log();
    ResponseMoves(f, disk, DoRead(f, f.open.value));
  }

  lemma StampedEntry(s: State, disk: CursorState, r: Response, lo: nat)
    requires FeedOk(s) && r.half.Some? && r.next < |s.catalog| && s.catalog[r.next].carried
    requires EntriesOk(s, disk, r.entries, lo, r.next) && lo <= r.next
    requires r.half.value.read <= |s.Log()| && r.half.value.val == StateAt(s.catalog, s.Log()[..r.half.value.read], r.next)
    requires Ahead(s, disk, r.half.value.read)
    ensures EntriesOk(s, disk, r.entries[r.next := Entry(r.half.value.read, r.half.value.val, s.clock)], lo, r.next + 1)
  {}

  lemma StampMoves(f: Split, disk: CursorState)
    requires SplitAt(f, disk) && f.open.Some? && f.open.value.half.Some?
    ensures SplitAt(f.(open := Some(Stamped(f.open.value, f.s.clock))), disk)
  {
    StampedEntry(f.s, disk, f.open.value, Start(f.s.catalog, f.s.cs.catCursor));
    ResponseMoves(f, disk, f.(open := Some(Stamped(f.open.value, f.s.clock))));
  }

  lemma StampIsTick(s: State, now: int)
    requires FeedOk(s) && |s.Log()| < MAX_UINT64
    ensures Enabled(s, Tick(now, [])) && Do(s, Tick(now, [])) == TickFeed(s, now, [])
  {}

  lemma StampKeepsSplit(f: Split, disk: CursorState, now: int)
    requires SplitAt(f, disk) && |f.s.Log()| < MAX_UINT64 && f.open.Some? && f.open.value.half.Some? && now >= f.s.clock
    ensures SplitAt(DoStamp(f, f.open.value, now), disk)
  {
    StampIsTick(f.s, now);
    TickKeepsSplit(f, disk, now, []);
    StampMoves(f.(s := TickFeed(f.s, now, [])), disk);
  }

  lemma EntriesMove(s: State, s': State, disk: CursorState, es: map<nat, Entry>, lo: nat, hi: nat)
    requires s.epoch in s.logs && EntriesOk(s, disk, es, lo, hi) && s' == s.(cs := s'.cs, pin := s'.pin, page := s'.page)
    requires s'.cs == s.cs || !Positioned(s'.cs)
    ensures EntriesOk(s', disk, es, lo, hi)
  {
    forall i | i in es ensures EntryOk(s', i, es[i]) {
      assert EntryOk(s, i, es[i]);
    }
  }

  /** The closed response is in hand: its entries were read before the pin, and stamped before now. */
  lemma ClosedPage(s: State, s': State, disk: CursorState, page: Page, f': Split, lo: nat, hi: nat)
    requires s.epoch in s.logs && f'.s == s' && page.epoch == s.epoch && page.from == lo && page.end == hi
    requires EntriesOk(s, disk, f'.entries, lo, hi) && Carries(f'.entries, page.writes) && Ahead(s, disk, |s.Log()|)
    requires page.body == Listed(if hi < |s.catalog| then Some(hi) else None, |s.Log()|)
    requires s.cs.phase == Catalog && lo == Start(s.catalog, s.cs.catCursor) <= hi <= |s.catalog| && s'.cs.epoch == s.epoch
    requires s' == s.(cs := s'.cs, pin := s'.pin, page := Some(page))
    requires if s.cs.catCursor == 0
             then s'.cs.phase == Catalog && s'.cs.catCursor == 0 && s'.pin == s'.cs.seqNo == |s.Log()|
             else s'.cs == s.cs && s'.pin == s.pin
    ensures PageOk(f', disk)
  {
    EntriesMove(s, s', disk, f'.entries, lo, hi);
  }

  /** A page that has arrived moves at most an unclaimed position. */
  lemma ArrivalKeepsClaims(f: Split, disk: CursorState, f': Split)
    requires SplitAt(f, disk) && f'.open.None? && f'.last == f.last
    requires f'.s == f.s.(cs := f'.s.cs, pin := f'.s.pin, page := f'.s.page) && PageOk(f', disk)
    requires (f'.s.cs == f.s.cs && f'.s.pin == f.s.pin) || !Positioned(f'.s.cs)
    ensures SplitAt(f', disk)
  {
    LastMoves(f, f');
    ClaimMoves(f, f', f.s.cs, f.s.pin);
    ClaimMoves(f, f', disk, f.s.savedPin);
  }

  /** A catalog page of the running instance, with the entries of the open response, reaches the worker. */
  lemma ListingArrives(f: Split, disk: CursorState, page: Page, f': Split)
    requires SplitAt(f, disk) && f.open.Some? && f'.open.None? && f'.last == f.last && f'.entries == f.open.value.entries
    requires page.epoch == f.s.epoch && Carries(f.open.value.entries, page.writes)
    requires page.from == Start(f.s.catalog, f.s.cs.catCursor) && page.end == f.open.value.next
    requires page.body == Listed(if page.end < |f.s.catalog| then Some(page.end) else None, |f.s.Log()|)
    requires if f.s.cs.catCursor == 0
             then f'.s == f.s.(cs := f.s.cs.(epoch := page.epoch, seqNo := page.body.asOf), pin := page.body.asOf, page := Some(page))
             else f.s.cs.epoch == page.epoch && f'.s == f.s.(page := Some(page))
    ensures SplitAt(f', disk)
  {
    ClosedPage(f.s, f'.s, disk, page, f', page.from, page.end);
    ArrivalKeepsClaims(f, disk, f');
  }

  lemma ReplayedPage(s: State, disk: CursorState, f': Split, page: Page)
    requires s.epoch in s.logs && LogBy(s.Log(), s.clock) && f'.s == s.(page := Some(page)) && page.epoch == s.epoch
    requires page.body.Replayed? && page.from == s.cs.seqNo <= page.body.upto == page.end <= |s.Log()|
    requires s.cs.phase == Offers && s.cs.epoch == s.epoch
    requires InOrder(s.Log()[page.from..page.end], page.writes)
    ensures PageOk(f', disk)
  {
    var us := s.Log()[page.from..page.end];
    InOrderReplays(us, page.writes);
    forall w | w in page.writes ensures w.at <= s.clock {
      var k :| 0 <= k < |us| && w == WriteOf(us[k]);
      assert us[k] == s.Log()[page.from + k];
    }
  }

  /** A page of updates of the running instance reaches the worker. */
  lemma UpdatesArrive(f: Split, disk: CursorState, page: Page)
    requires SplitAt(f, disk) && f.s.page.None? && f.s.cs.phase == Offers && f.s.cs.epoch == f.s.epoch
    requires page.epoch == f.s.epoch && page.body.Replayed?
    requires page.from == f.s.cs.seqNo <= page.body.upto == page.end <= |f.s.Log()|
    requires InOrder(f.s.Log()[page.from..page.end], page.writes)
    ensures SplitAt(f.(s := f.s.(page := Some(page))), disk)
  {
    ReplayedPage(f.s, disk, f.(s := f.s.(page := Some(page))), page);
    ArrivalKeepsClaims(f, disk, f.(s := f.s.(page := Some(page))));
  }

  // --- a page is written ---

  /** The page in hand has been upserted and recorded. */
  ghost function Wrote(f: Split): Split
    requires f.s.page.Some? && f.s.epoch in f.s.logs
  {
    var table := Batch(f.s.table, f.s.page.value.writes);
    f.(s := f.s.(table := table), last := Noted(f, table))
  }

  lemma EntryWritten(s: State, es: map<nat, Entry>, ws: seq<OfferWrite>, i: nat, asOf: nat)
    requires s.epoch in s.logs && i in es && Carries(es, ws) && EntryOk(s, i, es[i]) && RowsBy(s.table, es[i].at)
    requires es[i].read <= asOf <= |s.Log()| && forall k :: asOf <= k < |s.Log()| ==> s.Log()[k].at >= es[i].at
    ensures ShownOk(s.(table := Batch(s.table, ws)), i, Shown(es[i], asOf, {}, None))
  {
    var w := BatchRow(s.table, ws, i);
    assert Write(i, es[i].val, es[i].at) in ws;
    assert w == Write(i, es[i].val, es[i].at);
  }

  lemma OtherRowKept(s: State, es: map<nat, Entry>, ws: seq<OfferWrite>, i: nat, x: Shown)
    requires s.epoch in s.logs && i !in es && Carries(es, ws) && ShownOk(s, i, x)
    ensures ShownOk(s.(table := Batch(s.table, ws)), i, x)
  {
    var w := BatchRow(s.table, ws, i);
  }

  /** Replaying a page over a row: the newer of the two wins, ties go to the page, and inside the page to the first. */
  lemma RowReplayed(log: seq<Update>, t: Table, ws: seq<OfferWrite>, i: nat, x: Shown, lo: nat, hi: nat)
    requires lo <= hi <= |log| && SortedPerProduct(log) && InOrder(log[lo..hi], ws)
    requires i in t && RowIs(log, i, x, t[i])
    ensures i in Batch(t, ws) && RowIs(log, i, Replay(log, t, i, x, lo, hi), Batch(t, ws)[i])
  {
    RowAfterPage(log, t, ws, i, lo, hi);
    var k := LastIn(log, i, lo, hi);
    if k.Some? {
      assert forall j :: lo <= j < hi && log[j].product == i ==> log[j].at <= log[k.value].at;
      if t[i].at <= log[k.value].at {
        assert t[i].at >= x.entry.at;
      }
    }
  }

  lemma ShownReplayed(s: State, ws: seq<OfferWrite>, i: nat, x: Shown, lo: nat, hi: nat)
    requires s.epoch in s.logs && lo <= hi <= |s.Log()| && SortedPerProduct(s.Log()) && InOrder(s.Log()[lo..hi], ws)
    requires ShownOk(s, i, x)
    ensures ShownOk(s.(table := Batch(s.table, ws)), i, Replay(s.Log(), s.table, i, x, lo, hi))
  {
    RowReplayed(s.Log(), s.table, ws, i, x, lo, hi);
  }

  lemma WroteLast(f: Split, disk: CursorState)
    requires SplitAt(f, disk) && f.s.page.Some?
    ensures LastOk(Wrote(f)) && FeedOk(Wrote(f).s)
  {
    var s, p := f.s, f.s.page.value;
    BatchBy(s.table, p.writes, s.clock);
    forall i | i in Wrote(f).last ensures ShownOk(Wrote(f).s, i, Wrote(f).last[i]) {
      match p.body
      case Listed(_, asOf) =>
        if i in f.entries {
          EntryWritten(s, f.entries, p.writes, i, asOf);
        } else {
          OtherRowKept(s, f.entries, p.writes, i, f.last[i]);
        }
      case Replayed(upto, _, _) =>
        ShownReplayed(s, p.writes, i, f.last[i], p.from, upto);
    }
  }

  /** A page replayed at or past the cursor adds nothing to its claim. */
  lemma BackedReplay(s: State, i: nat, x: Shown, c: CursorState, pin: nat, lo: nat, hi: nat)
    requires s.epoch in s.logs && c.seqNo <= |s.Log()| && Backed(s, i, x, c, pin) && c.seqNo <= lo
    ensures Backed(s, i, Replay(s.Log(), s.table, i, x, lo, hi), c, pin)
  {}

  /** A page replayed from the cursor on extends its claim to the end of the page. */
  lemma BackedAdvance(s: State, i: nat, x: Shown, c: CursorState, c': CursorState, pin: nat)
    requires FeedOk(s) && pin <= c.seqNo <= c'.seqNo <= |s.Log()| && Backed(s, i, x, c, pin) && ShownOk(s, i, x)
    ensures Backed(s, i, Replay(s.Log(), s.table, i, x, c.seqNo, c'.seqNo), c', pin)
  {
    var log, x' := s.Log(), Replay(s.Log(), s.table, i, x, c.seqNo, c'.seqNo);
    forall k | x'.source.Some? && 0 <= k < c'.seqNo && log[k].product == i && k in x'.replayed
               && log[k].at == log[x'.source.value.last].at
      ensures k <= x'.source.value.last
    {
      var last := LastIn(log, i, c.seqNo, c'.seqNo);
      if x'.source == x.source && k >= c.seqNo {
        assert log[k].at <= log[last.value].at;
      }
    }
  }

  /** A new listing backs a cursor it was read past, or that has not moved from its pin. */
  lemma BackedListing(s: State, i: nat, e: Entry, asOf: nat, c: CursorState, pin: nat)
    requires s.epoch in s.logs && c.seqNo <= |s.Log()| && pin <= asOf && (c.seqNo <= e.read || pin >= c.seqNo)
    ensures Backed(s, i, Shown(e, asOf, {}, None), c, pin)
  {}

  lemma WroteBacked(f: Split, disk: CursorState, c: CursorState, pin: nat, i: nat)
    requires f.s.epoch in f.s.logs && PageOk(f, disk) && LagOk(f.s, disk) && f.s.page.Some?
    requires (c == f.s.cs || c == disk) && Current(f.s, c) && pin <= c.seqNo <= |f.s.Log()|
    requires i in f.last && Backed(f.s, i, f.last[i], c, pin)
    ensures i in Wrote(f).last && Backed(f.s, i, Wrote(f).last[i], c, pin)
  {
    var p := f.s.page.value;
    if p.epoch == f.s.epoch {
      if p.body.Replayed? {
        BackedReplay(f.s, i, f.last[i], c, pin, p.from, p.end);
      } else if i in f.entries {
        assert Ahead(f.s, disk, f.entries[i].read);
        BackedListing(f.s, i, f.entries[i], p.body.asOf, c, pin);
      }
    }
  }

  /** A cursor's claims survive the writing of a page. */
  lemma WroteClaims(f: Split, disk: CursorState, c: CursorState, pin: nat)
    requires SplitAt(f, disk) && f.s.page.Some? && ClaimOk(f, c, pin)
    requires c == f.s.cs || c == disk
    ensures ClaimOk(Wrote(f), c, pin)
  {
    if Current(f.s, c) {
      forall i | 0 <= i < Bound(f.s.catalog, c) && i < |f.s.catalog| && f.s.catalog[i].carried
        ensures i in Wrote(f).last && Backed(f.s, i, Wrote(f).last[i], c, pin)
      {
        WroteBacked(f, disk, c, pin, i);
      }
      BackedIgnoresTable(f, Wrote(f), c, pin);
    }
  }

  lemma BackedIgnoresTable(f: Split, w: Split, c: CursorState, pin: nat)
    requires f.s.epoch in f.s.logs && w.s == f.s.(table := w.s.table) && pin <= c.seqNo <= |f.s.Log()|
    requires forall i :: 0 <= i < Bound(f.s.catalog, c) && i < |f.s.catalog| && f.s.catalog[i].carried ==>
      i in w.last && Backed(f.s, i, w.last[i], c, pin)
    ensures ClaimOk(w, c, pin)
  {
    forall i | 0 <= i < Bound(f.s.catalog, c) && i < |f.s.catalog| && f.s.catalog[i].carried
      ensures Backed(w.s, i, w.last[i], c, pin)
    {
      assert Backed(f.s, i, w.last[i], c, pin);
    }
  }

  /** The position a worker advances to after a listing is backed by what has been written. */
  lemma ListingAdvances(f: Split, disk: CursorState)
    requires f.s.epoch in f.s.logs && PageOk(f, disk) && LagOk(f.s, disk) && ClaimOk(f, f.s.cs, f.s.pin)
    requires f.s.page.Some? && f.s.page.value.body.Listed? && f.s.cs.catCursor >= 0
    ensures ClaimOk(Wrote(f), Advance(f.s.cs, f.s.page.value.body), f.s.pin)
  {
    var p := f.s.page.value;
    var c := Advance(f.s.cs, p.body);
    if Current(f.s, c) {
      forall i | 0 <= i < Bound(f.s.catalog, c) && i < |f.s.catalog| && f.s.catalog[i].carried
        ensures i in Wrote(f).last && Backed(f.s, i, Wrote(f).last[i], c, f.s.pin)
      {
        if i < p.from {
          WroteBacked(f, disk, f.s.cs, f.s.pin, i);
        } else {
          assert Ahead(f.s, disk, f.entries[i].read);
          BackedListing(f.s, i, f.entries[i], p.body.asOf, c, f.s.pin);
        }
      }
      BackedIgnoresTable(f, Wrote(f), c, f.s.pin);
    }
  }

  lemma ReplayAdvances(f: Split, disk: CursorState)
    requires SplitAt(f, disk) && f.s.page.Some? && f.s.page.value.body.Replayed?
    ensures ClaimOk(Wrote(f), Advance(f.s.cs, f.s.page.value.body), f.s.pin)
  {
    var c := Advance(f.s.cs, f.s.page.value.body);
    if Current(f.s, c) {
      forall i | 0 <= i < Bound(f.s.catalog, c) && i < |f.s.catalog| && f.s.catalog[i].carried
        ensures i in Wrote(f).last && Backed(f.s, i, Wrote(f).last[i], c, f.s.pin)
      {
        assert ShownOk(f.s, i, f.last[i]);
        BackedAdvance(f.s, i, f.last[i], f.s.cs, c, f.s.pin);
      }
      BackedIgnoresTable(f, Wrote(f), c, f.s.pin);
    }
  }

  /** The page is let go of, unfinished; its writes may or may not have happened. */
  lemma FailureKeepsSplit(f: Split, disk: CursorState, table: Table)
    requires SplitAt(f, disk) && f.s.page.Some?
    requires table == Batch(f.s.table, f.s.page.value.writes) || table == f.s.table
    ensures SplitAt(Split(f.s.(table := table, page := None), f.open, f.entries, Noted(f, table)), disk)
  {
    var f' := Split(f.s.(table := table, page := None), f.open, f.entries, Noted(f, table));
    if table == Batch(f.s.table, f.s.page.value.writes) {
      WroteLast(f, disk);
      WroteClaims(f, disk, f.s.cs, f.s.pin);
      WroteClaims(f, disk, disk, f.s.savedPin);
      LastMoves(Wrote(f), f');
      ClaimMoves(Wrote(f), f', f.s.cs, f.s.pin);
      ClaimMoves(Wrote(f), f', disk, f.s.savedPin);
    } else {
      LastMoves(f, f');
      ClaimMoves(f, f', f.s.cs, f.s.pin);
      ClaimMoves(f, f', disk, f.s.savedPin);
    }
  }

  /** The page is done: the position advances, and is saved or not. */
  lemma SuccessKeepsSplit(f: Split, disk: CursorState, f': Split, disk': CursorState)
    requires SplitAt(f, disk) && f.s.page.Some? && f.s.cs.catCursor >= 0
    requires f' == Wrote(f).(s := f'.s)
    requires f'.s == Wrote(f).s.(cs := Advance(f.s.cs, f.s.page.value.body), page := None,
                                 saved := f'.s.saved, savedPin := f'.s.savedPin, handed := f'.s.handed, listed := f'.s.listed)
    requires (disk' == f'.s.cs && f'.s.savedPin == f.s.pin) || (disk' == disk && f'.s.savedPin == f.s.savedPin)
    ensures SplitAt(f', disk')
  {
    WroteLast(f, disk);
    LastMoves(Wrote(f), f');
    if f.s.page.value.body.Listed? {
      ListingAdvances(f, disk);
    } else {
      ReplayAdvances(f, disk);
    }
    ClaimMoves(Wrote(f), f', f'.s.cs, f.s.pin);
    WroteClaims(f, disk, disk, f.s.savedPin);
    ClaimMoves(Wrote(f), f', disk, f.s.savedPin);
  }

  // --- the steps ---

  lemma StartOverKeepsSplit(f: Split, disk: CursorState, f': Split, saveOk: bool)
    requires SplitAt(f, disk) && disk == Parse(f.s.saved)
    requires f'.s == StartOver(f.s, saveOk) && f'.open.None? && f'.last == f.last
    ensures SplitAt(f', Parse(f'.s.saved))
  {
    RoundTrip(FRESH);
    DropKeepsSplit(f, disk, f', Parse(f'.s.saved));
  }

  lemma ServeOffersKeepsSplit(f: Split, limit: nat, writes: seq<OfferWrite>, saveOk: bool)
    requires SplitAt(f, Parse(f.s.saved)) && f.s.page.None? && f.s.cs.phase == Offers && limit > 0
    requires var a := Since(f.s.Log(), f.s.cs.seqNo, limit); a.Window? ==> InOrder(a.updates, writes)
    ensures var f' := f.(s := FetchOffers(f.s, limit, writes, saveOk)); SplitAt(f', Parse(f'.s.saved))
  {
    var disk, s' := Parse(f.s.saved), FetchOffers(f.s, limit, writes, saveOk);
    match Since(f.s.Log(), f.s.cs.seqNo, limit)
    case Gone =>
      StartOverKeepsSplit(f, disk, f.(s := s'), saveOk);
    case Window(us, more) =>
      if f.s.cs.epoch != f.s.epoch {
        StartOverKeepsSplit(f, disk, f.(s := s'), saveOk);
      } else if us != [] {
        UpdatesArrive(f, disk, OffersPage(f.s, us, more, writes));
      }
  }

  lemma CloseKeepsSplit(f: Split, now: int, writes: seq<OfferWrite>, saveOk: bool)
    requires SplitAt(f, Parse(f.s.saved)) && f.open.Some? && now >= f.s.clock && Carries(f.open.value.entries, writes)
    requires f.open.value.half.None? && f.open.value.next == ScanEnd(f.s, f.open.value)
    ensures var f' := DoClose(f, f.open.value, now, writes, saveOk); SplitAt(f', Parse(f'.s.saved))
  {
    var r, disk, s1 := f.open.value, Parse(f.s.saved), f.s.(clock := now);
    var page, f' := CatalogPage(f.s, r.request, writes), DoClose(f, r, now, writes, saveOk);
    GrowthKeepsSplit(f, disk, s1);
    assert f'.s == Arrive(s1, page, saveOk);
    if f.s.cs.catCursor != 0 && f.s.cs.epoch != f.s.epoch {
      StartOverKeepsSplit(f.(s := s1), disk, f', saveOk);
    } else {
      ListingArrives(f.(s := s1), disk, page, f');
    }
  }

  lemma ProcessKeepsSplit(f: Split, table: Table, processed: bool, saveOk: bool)
    requires SplitInv(f) && f.s.page.Some?
    requires table == Batch(f.s.table, f.s.page.value.writes) || (!processed && table == f.s.table)
    requires Inv(ProcessPage(f.s, table, processed, saveOk))
    ensures var f' := Split(ProcessPage(f.s, table, processed, saveOk), f.open, f.entries, Noted(f, table));
      SplitAt(f', Parse(f'.s.saved))
  {
    var f' := Split(ProcessPage(f.s, table, processed, saveOk), f.open, f.entries, Noted(f, table));
    if processed {
      RoundTrip(f'.s.cs);
      SuccessKeepsSplit(f, Parse(f.s.saved), f', Parse(f'.s.saved));
    } else {
      FailureKeepsSplit(f, Parse(f.s.saved), table);
    }
  }

  lemma OtherKeepsSplit(f: Split, step: Step)
    requires SplitInv(f) && !step.ServeCatalog? && Enabled(f.s, step) && CleanOther(f.s, step)
    ensures var f' := DoOther(f, step); SplitAt(f', Parse(f'.s.saved))
  {
    var disk := Parse(f.s.saved);
    match step
    case Tick(now, draws) => TickKeepsSplit(f, disk, now, draws);
    case Restart(now, e) => RestartKeepsSplit(f, disk, now, e);
    case ServeOffers(limit, writes, saveOk) => ServeOffersKeepsSplit(f, limit, writes, saveOk);
    case Process(table, processed, saveOk) =>
      StepKeepsInv(f.s, step);
      ProcessKeepsSplit(f, table, processed, saveOk);
    case Crash(loadOk) => DropKeepsSplit(f, disk, DoOther(f, step), disk);
  }

  lemma StepKeepsSplit(f: Split, x: SplitStep)
    requires SplitInv(f) && CleanSplit(f, x)
    ensures SplitInv(DoSplit(f, x))
  {
    SplitStepKeepsInv(f, x);
    SplitStepKeepsRest(f, x);
  }

  lemma SplitStepKeepsInv(f: Split, x: SplitStep)
    requires Inv(f.s)
    ensures Inv(DoSplit(f, x).s)
  {
    StepIsPlain(f, x);
    if Plain(f, x) != [] {
      StepKeepsInv(f.s, Plain(f, x)[0]);
    }
  }

  lemma StampStepKeeps(f: Split, now: int)
    requires SplitInv(f) && f.open.Some? && now >= f.s.clock
    ensures var f' := DoStamp(f, f.open.value, now); SplitAt(f', Parse(f'.s.saved))
  {
    if f.open.value.half.Some? {
      StampIsTick(f.s, now);
      StampKeepsSplit(f, Parse(f.s.saved), now);
    }
  }

  lemma CloseStepKeeps(f: Split, now: int, writes: seq<OfferWrite>, saveOk: bool)
    requires SplitInv(f) && f.open.Some? && now >= f.s.clock && Carries(f.open.value.entries, writes)
    ensures var f' := DoClose(f, f.open.value, now, writes, saveOk); SplitAt(f', Parse(f'.s.saved))
  {
    if f.open.value.half.None? && f.open.value.next == ScanEnd(f.s, f.open.value) {
      CloseKeepsSplit(f, now, writes, saveOk);
    }
  }

  lemma ResponseStepKeeps(f: Split, x: SplitStep)
    requires SplitInv(f) && f.open.Some? && CleanSplit(f, x) && (x.Stamp? || x.Close?)
    ensures SplitAt(DoSplit(f, x), Parse(DoSplit(f, x).s.saved))
  {
    if x.Stamp? {
      StampStepKeeps(f, x.now);
    } else {
      CloseStepKeeps(f, x.now, x.writes, x.saveOk);
    }
  }

  lemma SplitStepKeepsRest(f: Split, x: SplitStep)
    requires SplitInv(f) && CleanSplit(f, x)
    ensures SplitAt(DoSplit(f, x), Parse(DoSplit(f, x).s.saved))
  {
    if x.Other? {
      if !x.step.ServeCatalog? && Enabled(f.s, x.step) {
        OtherKeepsSplit(f, x.step);
      }
    } else if x.Open? {
      OpenKeepsSplit(f, Parse(f.s.saved), x.request);
    } else if x.Abort? {
      ResponseMoves(f, Parse(f.s.saved), f.(open := None));
    } else if f.open.Some? {
      if x.Read? {
        ReadKeepsSplit(f, Parse(f.s.saved));
      } else {
        ResponseStepKeeps(f, x);
      }
    }
  }

  lemma {:induction false} SplitRunKeeps(f: Split, xs: seq<SplitStep>)
    requires InitSplit(f) && CleanSplitRun(f, xs)
    ensures SplitInv(ExecSplit(f, xs))
  {
    if xs != [] {
      SplitRunKeeps(f, xs[..|xs| - 1]);
      StepKeepsSplit(ExecSplit(f, xs[..|xs| - 1]), xs[|xs| - 1]);
    }
  }

  // --- what is skipped ---

  /**
   For the position in memory and the one on disk alike: each update below the
   position, of a product the position claims, has been replayed since the product's
   last listing, or the listing shows it, or it fell between the product's read and the
   pin. In that last case nobody has it: this is the only way an update is skipped.
   */
  lemma SplitSkipsOnlyBeforePin(f0: Split, xs: seq<SplitStep>, onDisk: bool, i: nat, k: nat)
    requires InitSplit(f0) && CleanSplitRun(f0, xs)
    requires var s := ExecSplit(f0, xs).s; var c := if onDisk then Parse(s.saved) else s.cs;
      && Current(s, c) && i < Bound(s.catalog, c) && i < |s.catalog| && s.catalog[i].carried
      && k < c.seqNo && (k < |s.Log()| ==> s.Log()[k].product == i)
    ensures var f := ExecSplit(f0, xs); var pin := if onDisk then f.s.savedPin else f.s.pin;
      && i in f.last
      && (k in f.last[i].replayed || k < f.last[i].entry.read
          || f.last[i].entry.read <= k < pin <= f.last[i].closed)
  {
    SplitRunKeeps(f0, xs);
    var f := ExecSplit(f0, xs);
    var c, pin := if onDisk then Parse(f.s.saved) else f.s.cs, if onDisk then f.s.savedPin else f.s.pin;
    ClaimSkips(f, c, pin, i, k);
  }

  lemma ClaimSkips(f: Split, c: CursorState, pin: nat, i: nat, k: nat)
    requires f.s.epoch in f.s.logs && ClaimOk(f, c, pin) && Current(f.s, c)
    requires i < Bound(f.s.catalog, c) && i < |f.s.catalog| && f.s.catalog[i].carried
    requires k < c.seqNo && (k < |f.s.Log()| ==> f.s.Log()[k].product == i)
    ensures i in f.last
    ensures k in f.last[i].replayed || k < f.last[i].entry.read || f.last[i].entry.read <= k < pin <= f.last[i].closed
  {
    assert Backed(f.s, i, f.last[i], c, pin);
  }

  /** The step writes a page of the running instance's change feed that holds log position k. */
  ghost predicate Writes(f: Split, x: SplitStep, k: nat) {
    x.Other? && x.step.Process? && f.s.page.Some?
    && var p := f.s.page.value;
       p.body.Replayed? && p.epoch == f.s.epoch && p.from <= k < p.end && x.step.table == Batch(f.s.table, p.writes)
  }

  ghost predicate WrittenAt(f0: Split, xs: seq<SplitStep>, j: int, epoch: nat, k: nat)
    requires f0.s.epoch in f0.s.logs
  {
    0 <= j < |xs| && ExecSplit(f0, xs[..j]).s.epoch == epoch && Writes(ExecSplit(f0, xs[..j]), xs[j], k)
  }

  lemma NotedReplays(f: Split, table: Table, i: nat, k: nat)
    requires f.s.epoch in f.s.logs && f.s.page.Some?
    requires i in Noted(f, table) && k in Noted(f, table)[i].replayed
    ensures (i in f.last && k in f.last[i].replayed) || (
      var p := f.s.page.value;
      p.body.Replayed? && p.epoch == f.s.epoch && p.from <= k < p.end && table == Batch(f.s.table, p.writes))
  {}

  lemma StepReplays(f: Split, x: SplitStep, i: nat, k: nat)
    requires f.s.epoch in f.s.logs
    requires i in DoSplit(f, x).last && k in DoSplit(f, x).last[i].replayed
    ensures f.s.epoch == DoSplit(f, x).s.epoch && ((i in f.last && k in f.last[i].replayed) || Writes(f, x, k))
  {
    if x.Other? && x.step.Process? && f.s.page.Some? {
      NotedReplays(f, x.step.table, i, k);
    }
  }

  /** Only updates whose page was really written by the running instance's log count as replayed. */
  lemma {:induction false} ReplayedWasWritten(f0: Split, xs: seq<SplitStep>, i: nat, k: nat) returns (j: nat)
    requires InitSplit(f0)
    requires i in ExecSplit(f0, xs).last && k in ExecSplit(f0, xs).last[i].replayed
    ensures WrittenAt(f0, xs, j, ExecSplit(f0, xs).s.epoch, k)
  {
    var n := |xs| - 1;
    var f := ExecSplit(f0, xs[..n]);
    StepReplays(f, xs[n], i, k);
    if i in f.last && k in f.last[i].replayed {
      j := ReplayedWasWritten(f0, xs[..n], i, k);
      assert xs[..n][..j] == xs[..j];
    } else {
      j := n;
    }
  }

  // --- which rows are wrong ---

  /** The last listing of product i missed update k for good. */
  ghost predicate Misses(f: Split, i: nat, k: nat)
    requires f.s.epoch in f.s.logs && i in f.last
  {
    var e := f.last[i].entry;
    Missed(f.s.Log(), i, Row(e.val, e.at), e.read, f.s.pin, |f.s.Log()|, k)
  }

  /**
   The last page of updates that took effect on row i holds, before the product's last
   update, others with the same timestamp, and the first of them shows something else.
   */
  ghost predicate Confuses(f: Split, i: nat)
    requires f.s.epoch in f.s.logs && i in f.last
  {
    var e, src := f.last[i].entry, f.last[i].source;
    src.Some? && Confused(f.s.Log(), i, Row(e.val, e.at), src.value.from, |f.s.Log()|, src.value.last)
  }

  /** At the head, the last page that took effect is the one that last replayed the product's last update. */
  lemma SourceIsLatest(log: seq<Update>, i: nat, x: Shown, r: Row<OfferState>, k: nat)
    requires SortedPerProduct(log) && RowIs(log, i, x, r) && x.source.Some?
    requires forall j, m :: j in x.replayed && j < m < |log| && log[m].product == i ==> m in x.replayed
    requires LatestBelow(log, i, x.replayed, |log|, x.source.value.last)
    requires k < |log| && log[k].product == i && forall j :: k < j < |log| ==> log[j].product != i
    ensures k == x.source.value.last
  {
    var last := x.source.value.last;
    assert last <= k && k in x.replayed;
    assert log[k].at <= r.at == log[last].at;
  }

  lemma LastRowExact(log: seq<Update>, i: nat, x: Shown, r: Row<OfferState>, pin: nat, k: nat)
    requires SortedPerProduct(log) && RowIs(log, i, x, r)
    requires k < |log| && log[k].product == i && forall j :: k < j < |log| ==> log[j].product != i
    requires forall j :: 0 <= j < |log| && log[j].product == i && j in x.replayed ==> j >= pin
    requires forall j :: pin <= j < |log| && log[j].product == i ==> j in x.replayed || j < x.entry.read
    requires forall j, m :: j in x.replayed && j < m < |log| && log[m].product == i ==> m in x.replayed
    requires x.source.Some? ==> LatestBelow(log, i, x.replayed, |log|, x.source.value.last)
    requires k < x.entry.read ==> x.entry.val == log[k].offer
    ensures x.source.Some? ==> x.source.value.last == k
    ensures r.val == log[k].offer <==>
      !(exists j :: Missed(log, i, Row(x.entry.val, x.entry.at), x.entry.read, pin, |log|, j))
      && !(x.source.Some? && Confused(log, i, Row(x.entry.val, x.entry.at), x.source.value.from, |log|, k))
  {
    var listed := Row(x.entry.val, x.entry.at);
    LastDecides(log, i, listed, x.entry.read, pin, |log|, k);
    if x.source.Some? {
      SourceIsLatest(log, i, x, r, k);
    }
  }

  lemma ShownRowExact(s: State, i: nat, x: Shown, c: CursorState, pin: nat)
    requires s.epoch in s.logs && ShownOk(s, i, x) && SortedPerProduct(s.Log())
    requires c.seqNo == |s.Log()| && Backed(s, i, x, c, pin)
    ensures x.source.Some? ==> LastUpdateIs(s.Log(), i, x.source.value.last)
    ensures s.table[i].val == StateAt(s.catalog, s.Log(), i) <==>
      !(exists k :: Missed(s.Log(), i, Row(x.entry.val, x.entry.at), x.entry.read, pin, |s.Log()|, k))
      && !(x.source.Some? && Confused(s.Log(), i, Row(x.entry.val, x.entry.at), x.source.value.from, |s.Log()|, x.source.value.last))
  {
    var log, n := s.Log(), |s.Log()|;
    var k := LastUpdate(log, i, 0, n);
    assert log[..n] == log;
    if k == -1 {
      StateUnmoved(s.catalog, log, i, x.entry.read, n);
    } else {
      StateAfterUpdate(s.catalog, log, i, k, n);
      if k < x.entry.read {
        StateAfterUpdate(s.catalog, log, i, k, x.entry.read);
      }
      LastRowExact(log, i, x, s.table[i], pin, k);
    }
  }

  ghost predicate LastUpdateIs(log: seq<Update>, i: nat, k: nat) {
    k < |log| && log[k].product == i && forall j :: k < j < |log| ==> log[j].product != i
  }

  /**
   The row of product i shows the feed's current offer if and only if the product's
   last listing missed no update for good and no page confused tied ones; a missed
   update always fell inside the response that listed the product.
   */
  ghost predicate ExactAt(f: Split, i: nat)
    requires f.s.epoch in f.s.logs && i < |f.s.catalog|
  {
    && i in f.last && i in f.s.table
    && (f.s.table[i].val == StateAt(f.s.catalog, f.s.Log(), i) <==> !(exists k: nat :: Misses(f, i, k)) && !Confuses(f, i))
    && (forall k: nat :: Misses(f, i, k) ==> f.last[i].entry.read <= k < f.last[i].closed)
    && (f.last[i].source.Some? ==> LastUpdateIs(f.s.Log(), i, f.last[i].source.value.last))
  }

  /** An update is only ever missed if it fell inside the response that listed its product. */
  lemma MissedInsideResponse(f: Split, i: nat, k: nat)
    requires f.s.epoch in f.s.logs && i in f.last && ShownOk(f.s, i, f.last[i]) && f.s.pin <= f.last[i].closed && Misses(f, i, k)
    ensures f.last[i].entry.read <= k < f.last[i].closed
  {}

  lemma CaughtUpIsExact(f: Split, disk: CursorState, i: nat)
    requires SplitAt(f, disk) && CaughtUp(f.s) && i < |f.s.catalog| && f.s.catalog[i].carried
    ensures ExactAt(f, i)
  {
    assert Backed(f.s, i, f.last[i], f.s.cs, f.s.pin);
    assert ShownOk(f.s, i, f.last[i]);
    ShownRowExact(f.s, i, f.last[i], f.s.cs, f.s.pin);
    var log, e := f.s.Log(), f.last[i].entry;
    assert forall k: nat :: Misses(f, i, k) <==> Missed(log, i, Row(e.val, e.at), e.read, f.s.pin, |log|, k);
    forall k: nat | Misses(f, i, k) ensures e.read <= k < f.last[i].closed {
      MissedInsideResponse(f, i, k);
    }
  }

  ghost predicate ExactEverywhere(f: Split)
    requires f.s.epoch in f.s.logs
  {
    forall i: nat :: i < |f.s.catalog| && f.s.catalog[i].carried ==> ExactAt(f, i)
  }

  /**
   Main result: at the head of the log, after any run with ticks, restarts and crashes
   anywhere inside the responses and any ties, `ExactAt` holds of every carried product.
   */
  lemma SplitRunsExact(f0: Split, xs: seq<SplitStep>)
    requires InitSplit(f0) && CleanSplitRun(f0, xs) && CaughtUp(ExecSplit(f0, xs).s)
    ensures ExactEverywhere(ExecSplit(f0, xs))
  {
    SplitRunKeeps(f0, xs);
    AllExact(ExecSplit(f0, xs));
  }

  lemma AllExact(f: Split)
    requires SplitInv(f) && CaughtUp(f.s)
    ensures ExactEverywhere(f)
  {
    forall i: nat | i < |f.s.catalog| && f.s.catalog[i].carried ensures ExactAt(f, i) {
      CaughtUpIsExact(f, Parse(f.s.saved), i);
    }
  }

  /** No listed product was updated between its read and the end of its response. */
  ghost predicate QuietListings(f: Split)
    requires f.s.epoch in f.s.logs
  {
    forall i, k :: i in f.last && f.last[i].entry.read <= k < f.last[i].closed && k < |f.s.Log()| ==> f.s.Log()[k].product != i
  }

  lemma StrictIsUnconfused(log: seq<Update>, i: nat, lo: nat, k: nat)
    requires StrictPerProduct(log) && lo <= k < |log| && log[k].product == i
    ensures FirstTied(log, i, lo, k) == k
  {}

  lemma QuietShowsCurrent(f: Split)
    requires f.s.epoch in f.s.logs && QuietListings(f) && ExactEverywhere(f) && StrictPerProduct(f.s.Log())
    ensures ShowsCurrentOffers(f.s)
  {
    forall i: nat | i < |f.s.catalog| && f.s.catalog[i].carried
      ensures i in f.s.table && f.s.table[i].val == StateAt(f.s.catalog, f.s.Log(), i)
    {
      assert ExactAt(f, i);
      forall k: nat ensures !Misses(f, i, k) {
        assert k < |f.s.Log()| && f.s.Log()[k].product == i ==> !(f.last[i].entry.read <= k < f.last[i].closed);
      }
      if f.last[i].source.Some? && f.last[i].source.value.from <= f.last[i].source.value.last {
        StrictIsUnconfused(f.s.Log(), i, f.last[i].source.value.from, f.last[i].source.value.last);
      }
    }
  }

  /**
   So responses need not be atomic: where no tick updates a product twice, ticks inside
   a response do no harm as long as they leave the products already read alone.
   */
  lemma QuietListingsConverge(f0: Split, xs: seq<SplitStep>)
    requires InitSplit(f0) && CleanSplitRun(f0, xs) && CaughtUp(ExecSplit(f0, xs).s)
    requires QuietListings(ExecSplit(f0, xs)) && StrictPerProduct(ExecSplit(f0, xs).s.Log())
    ensures ShowsCurrentOffers(ExecSplit(f0, xs).s)
  {
    SplitRunsExact(f0, xs);
    QuietShowsCurrent(ExecSplit(f0, xs));
  }
}
