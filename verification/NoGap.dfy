/**
 No update is skipped, as far as positions go. This holds of every run: nothing is
 assumed about the clock, the timestamps, the content of the items or what is written.
 A catalog response counts as one reading of the feed, made when it closed;
 SplitConvergence says what is left when its products are read one by one.
 */
module NoGap {
  import opened Wrappers
  import opened FeedLog
  import opened CatalogPaging
  import opened CursorCodec
  import opened WorkerLoop
  import opened Pipeline

  /** The cursor claims a position in some instance's log, rather than an unpinned start. */
  predicate Positioned(c: CursorState) {
    c.phase == Offers || c.catCursor > 0
  }

  /** Products the cursor claims to have listed: all of them once the sync is over. */
  function Bound(catalog: seq<Listing>, c: CursorState): int {
    if c.phase == Offers then |catalog| else c.catCursor
  }

  /** Every carried product below the bound was listed by this instance, at or after the pin. */
  ghost predicate ListedUpTo(s: State, epoch: nat, pin: nat, bound: int)
    requires epoch in s.logs
  {
    forall i :: 0 <= i < bound && i < |s.catalog| && s.catalog[i].carried ==>
      exists m :: pin <= m <= |s.logs[epoch]| && (epoch, i, m) in s.listed
  }

  ghost predicate HandedFrom(s: State, epoch: nat, lo: nat, hi: nat) {
    forall k :: lo <= k < hi ==> (epoch, k) in s.handed
  }

  /** The position is one instance's own, and everything from its pin up to it has been handed over. */
  ghost predicate Accounted(s: State, c: CursorState, pin: nat) {
    && FitsWidths(c) && c.catCursor >= 0 && (c.phase == Offers ==> c.catCursor == 0)
    && (Positioned(c) ==>
          && c.epoch in s.logs
          && pin <= c.seqNo <= |s.logs[c.epoch]|
          && HandedFrom(s, c.epoch, pin, c.seqNo)
          && ListedUpTo(s, c.epoch, pin, Bound(s.catalog, c)))
  }

  /** The page in hand continues exactly where the cursor stands, in the cursor's own instance. */
  ghost predicate PageFits(s: State, p: Page) {
    && p.epoch in s.logs && p.epoch == s.cs.epoch && p.from <= p.end
    && s.pin <= s.cs.seqNo <= |s.logs[p.epoch]|
    && match p.body
       case Listed(next, asOf) =>
         && s.cs.phase == Catalog && p.from == Start(s.catalog, s.cs.catCursor) && p.end <= |s.catalog|
         && next == (if p.end < |s.catalog| then Some(p.end) else None)
         && (p.end < |s.catalog| ==> p.from < p.end)
         && s.cs.seqNo <= asOf <= |s.logs[p.epoch]|
         && HandedFrom(s, p.epoch, s.pin, s.cs.seqNo)
       case Replayed(upto, _, _) =>
         s.cs.phase == Offers && p.from == s.cs.seqNo && p.end == upto <= |s.logs[p.epoch]|
  }

  ghost predicate LogsOk(s: State) {
    && |s.catalog| <= MAX_INT64
    && s.epoch in s.logs
    && (forall e :: e in s.logs ==> e <= MAX_UINT64 && |s.logs[e]| < MAX_UINT64 && Numbered(s.catalog, s.logs[e]))
  }

  ghost predicate Inv(s: State) {
    && LogsOk(s)
    && Accounted(s, s.cs, s.pin)
    && Accounted(s, Parse(s.saved), s.savedPin)
    && (s.page.Some? ==> PageFits(s, s.page.value))
  }

  /** Nothing recorded is ever lost or rewritten: logs only grow, and so does the history. */
  ghost predicate Extends(s: State, s': State) {
    && s'.catalog == s.catalog
    && s.handed <= s'.handed && s.listed <= s'.listed
    && (forall e :: e in s.logs ==> e in s'.logs && |s.logs[e]| <= |s'.logs[e]| && s'.logs[e][..|s.logs[e]|] == s.logs[e])
  }

  lemma AccountedPersists(s: State, s': State, c: CursorState, pin: nat)
    requires Extends(s, s') && Accounted(s, c, pin)
    ensures Accounted(s', c, pin)
  {
    if Positioned(c) {
      forall i | 0 <= i < Bound(s.catalog, c) && i < |s.catalog| && s.catalog[i].carried
        ensures exists m :: pin <= m <= |s'.logs[c.epoch]| && (c.epoch, i, m) in s'.listed
      {
        var m :| pin <= m <= |s.logs[c.epoch]| && (c.epoch, i, m) in s.listed;
        assert (c.epoch, i, m) in s'.listed;
      }
    }
  }

  lemma SaveKeepsInv(s: State, s': State, c: CursorState, pin: nat, saveOk: bool)
    requires Accounted(s', c, pin) && Accounted(s', Parse(s.saved), s.savedPin)
    ensures Accounted(s', Parse(Saved(s.saved, c, saveOk)), if saveOk then pin else s.savedPin)
  {
    RoundTrip(c);
  }

  /** Steps that leave the worker alone, or only drop its page. */
  lemma BystanderKeepsInv(s: State, s': State)
    requires Inv(s) && Extends(s, s') && LogsOk(s')
    requires s'.cs == s.cs && s'.saved == s.saved && s'.pin == s.pin && s'.savedPin == s.savedPin
    requires s'.page == s.page || s'.page == None
    ensures Inv(s')
  {
    AccountedPersists(s, s', s.cs, s.pin);
    AccountedPersists(s, s', Parse(s.saved), s.savedPin);
  }

  lemma FreshAccounted(s: State)
    ensures Accounted(s, FRESH, 0)
  {}

  lemma StartOverKeepsInv(s: State, saveOk: bool)
    requires Inv(s)
    ensures Inv(StartOver(s, saveOk))
  {
    var s' := StartOver(s, saveOk);
    AccountedPersists(s, s', Parse(s.saved), s.savedPin);
    FreshAccounted(s');
    SaveKeepsInv(s, s', FRESH, 0, saveOk);
  }

  lemma ServeCatalogKeepsInv(s: State, now: int, r: Request, writes: seq<OfferWrite>, saveOk: bool)
    requires Inv(s) && s.page.None? && s.cs.phase == Catalog && r.limit > 0
    ensures Inv(FetchCatalog(s, now, r, writes, saveOk))
  {
    var s1 := s.(clock := now);
    BystanderKeepsInv(s, s1);
    var page := CatalogPage(s, r, writes);
    var s' := Arrive(s1, page, saveOk);
    PageShape(s.catalog, r.dupes, s.cs.catCursor, r.limit);
    if Receive(s.cs, page.epoch, page.body).Err? {
      StartOverKeepsInv(s1, saveOk);
    } else {
      assert Extends(s, s');
      AccountedPersists(s, s', Parse(s.saved), s.savedPin);
      AccountedPersists(s, s', s.cs, s.pin);
    }
  }

  lemma ServeOffersKeepsInv(s: State, limit: nat, writes: seq<OfferWrite>, saveOk: bool)
    requires Inv(s) && s.page.None? && s.cs.phase == Offers && limit > 0
    ensures Inv(FetchOffers(s, limit, writes, saveOk))
  {
    match Since(s.Log(), s.cs.seqNo, limit)
    case Gone =>
      StartOverKeepsInv(s, saveOk);
    case Window(us, more) =>
      var page := OffersPage(s, us, more, writes);
      var s' := Arrive(s, page, saveOk);
      if Receive(s.cs, page.epoch, page.body).Err? {
        StartOverKeepsInv(s, saveOk);
      } else {
        AccountedPersists(s, s', Parse(s.saved), s.savedPin);
        AccountedPersists(s, s', s.cs, s.pin);
      }
  }

  lemma FinishKeepsInv(s: State, saveOk: bool)
    requires Inv(s) && s.page.Some?
    ensures Inv(Finish(s, s.page.value, saveOk))
  {
    var p := s.page.value;
    var s' := Finish(s, p, saveOk);
    assert Extends(s, s');
    AccountedPersists(s, s', Parse(s.saved), s.savedPin);
    forall i | 0 <= i < Bound(s.catalog, s'.cs) && i < |s.catalog| && s.catalog[i].carried
      ensures exists m :: s.pin <= m <= |s'.logs[p.epoch]| && (p.epoch, i, m) in s'.listed
    {
      if p.body.Listed? && p.from <= i {
        assert (p.epoch, i, p.body.asOf) in s'.listed;
      } else {
        var m :| s.pin <= m <= |s.logs[p.epoch]| && (p.epoch, i, m) in s.listed;
        assert (p.epoch, i, m) in s'.listed;
      }
    }
    assert HandedFrom(s', p.epoch, s.pin, s'.cs.seqNo);
    assert Accounted(s', s'.cs, s.pin);
    SaveKeepsInv(s, s', s'.cs, s.pin, saveOk);
  }

  lemma TickKeepsInv(s: State, now: int, draws: seq<Draw>)
    requires Inv(s) && Enabled(s, Tick(now, draws))
    ensures Inv(TickFeed(s, now, draws))
  {
    BystanderKeepsInv(s, TickFeed(s, now, draws));
  }

  lemma CrashKeepsInv(s: State, loadOk: bool)
    requires Inv(s)
    ensures Inv(Resume(s, loadOk))
  {
    var s' := Resume(s, loadOk);
    AccountedPersists(s, s', Parse(s.saved), s.savedPin);
    FreshAccounted(s');
  }

  lemma ProcessKeepsInv(s: State, table: Table, processed: bool, saveOk: bool)
    requires Inv(s) && s.page.Some?
    ensures Inv(ProcessPage(s, table, processed, saveOk))
  {
    var s1 := s.(table := table);
    BystanderKeepsInv(s, s1);
    if processed {
      FinishKeepsInv(s1, saveOk);
    } else {
      BystanderKeepsInv(s, ProcessPage(s, table, processed, saveOk));
    }
  }

  lemma StepKeepsInv(s: State, step: Step)
    requires Inv(s)
    ensures Inv(Do(s, step))
  {
    if Enabled(s, step) {
      match step
      case Tick(now, draws) => TickKeepsInv(s, now, draws);
      case Restart(now, e) => BystanderKeepsInv(s, RestartFeed(s, now, e));
      case ServeCatalog(now, r, writes, saveOk) => ServeCatalogKeepsInv(s, now, r, writes, saveOk);
      case ServeOffers(limit, writes, saveOk) => ServeOffersKeepsInv(s, limit, writes, saveOk);
      case Process(table, processed, saveOk) => ProcessKeepsInv(s, table, processed, saveOk);
      case Crash(loadOk) => CrashKeepsInv(s, loadOk);
    }
  }

  lemma {:induction false} RunKeepsInv(s: State, steps: seq<Step>)
    requires Init(s)
    ensures Inv(Exec(s, steps))
  {
    if steps != [] {
      RunKeepsInv(s, steps[..|steps| - 1]);
      StepKeepsInv(Exec(s, steps[..|steps| - 1]), steps[|steps| - 1]);
    }
  }

  /**
   In every reachable state, for the position in memory and the one on disk
   alike: each update below the position, of a product the position claims, was
   either handed over itself or lies before the close of a catalog listing of its
   product, from the same instance, that was handed over. And no sequence number of
   one instance is ever read as a position in another.
   */
  lemma NoUpdateSkipped(s0: State, steps: seq<Step>, onDisk: bool, i: nat, k: nat)
    requires Init(s0)
    requires var s := Exec(s0, steps); var c := if onDisk then Parse(s.saved) else s.cs;
      && Positioned(c) && i < Bound(s.catalog, c) && i < |s.catalog| && k < c.seqNo
      && (c.epoch in s.logs ==> k < |s.logs[c.epoch]| ==> s.logs[c.epoch][k].product == i)
    ensures var s := Exec(s0, steps); var c := if onDisk then Parse(s.saved) else s.cs;
      && c.epoch in s.logs && c.seqNo <= |s.logs[c.epoch]|
      && ((c.epoch, k) in s.handed || exists m :: k < m <= |s.logs[c.epoch]| && (c.epoch, i, m) in s.listed)
  {
    RunKeepsInv(s0, steps);
    var s := Exec(s0, steps);
    var c, pin := if onDisk then Parse(s.saved) else s.cs, if onDisk then s.savedPin else s.pin;
    assert Accounted(s, c, pin);
    if k < pin {
      assert s.catalog[s.logs[c.epoch][k].product].carried;
      var m :| pin <= m <= |s.logs[c.epoch]| && (c.epoch, i, m) in s.listed;
    }
  }

  /**
   A request of the change feed restarts the sync exactly when the position is
   unusable: its instance is gone or it has aged out of the buffer. Otherwise the
   worker keeps its position and holds the very next stretch of its own
   instance's log, or nothing if it is already at the head.
   */
  lemma UnusableMeansFresh(s: State, limit: nat, writes: seq<OfferWrite>, saveOk: bool)
    requires Inv(s) && s.page.None? && s.cs.phase == Offers && limit > 0
    ensures var s' := FetchOffers(s, limit, writes, saveOk);
      && (s'.cs == FRESH <==> s.cs.epoch != s.epoch || s.cs.seqNo < Horizon(|s.Log()|))
      && (s'.cs == FRESH ==> s'.page.None? && (saveOk ==> Parse(s'.saved) == FRESH))
      && (s'.cs != FRESH ==>
            && s'.cs == s.cs && s'.saved == s.saved
            && (s'.page.None? <==> s.cs.seqNo == |s.Log()|)
            && (s'.page.Some? ==>
                  && s'.page.value.epoch == s.epoch && s'.page.value.from == s.cs.seqNo
                  && s'.page.value.end == (if s.cs.seqNo + limit < |s.Log()| then s.cs.seqNo + limit else |s.Log()|)))
  {
    RoundTrip(FRESH);
  }

  // --- the record means what it says ---

  /** The step finishes a page of the change feed that holds position k of instance e's log. */
  ghost predicate HandsOver(s: State, step: Step, e: nat, k: nat) {
    step.Process? && step.processed && s.page.Some?
    && s.page.value.body.Replayed? && s.page.value.epoch == e && s.page.value.from <= k < s.page.value.end
  }

  /** The step finishes a catalog page of instance e, closed at log length m, that lists product i. */
  ghost predicate Lists(s: State, step: Step, e: nat, i: nat, m: nat) {
    step.Process? && step.processed && s.page.Some?
    && s.page.value.body.Listed? && s.page.value.body.asOf == m && s.page.value.epoch == e
    && s.page.value.from <= i < s.page.value.end && i < |s.catalog| && s.catalog[i].carried
  }

  lemma StepRecords(s: State, step: Step, e: nat, i: nat, m: nat)
    requires s.epoch in s.logs
    ensures (e, i) in Do(s, step).handed <==> (e, i) in s.handed || HandsOver(s, step, e, i)
    ensures (e, i, m) in Do(s, step).listed <==> (e, i, m) in s.listed || Lists(s, step, e, i, m)
  {}

  ghost predicate HandedAt(s0: State, steps: seq<Step>, j: int, e: nat, k: nat)
    requires s0.epoch in s0.logs
  {
    0 <= j < |steps| && HandsOver(Exec(s0, steps[..j]), steps[j], e, k)
  }

  ghost predicate ListedAt(s0: State, steps: seq<Step>, j: int, e: nat, i: nat, m: nat)
    requires s0.epoch in s0.logs
  {
    0 <= j < |steps| && Lists(Exec(s0, steps[..j]), steps[j], e, i, m)
  }

  lemma AtBefore(s0: State, steps: seq<Step>, j: int, e: nat, i: nat, m: nat)
    requires s0.epoch in s0.logs && steps != []
    ensures var n := |steps| - 1;
      && (HandedAt(s0, steps, j, e, i) <==>
            HandedAt(s0, steps[..n], j, e, i) || (j == n && HandsOver(Exec(s0, steps[..n]), steps[n], e, i)))
      && (ListedAt(s0, steps, j, e, i, m) <==>
            ListedAt(s0, steps[..n], j, e, i, m) || (j == n && Lists(Exec(s0, steps[..n]), steps[n], e, i, m)))
  {
    var n := |steps| - 1;
    if 0 <= j < n {
      assert steps[..n][..j] == steps[..j];
    }
  }

  /**
   `handed` and `listed` hold exactly what pages that were processed successfully held:
   nothing is counted that was not handed over, and nothing handed over is forgotten.
   */
  lemma {:induction false} RecordIsExact(s0: State, steps: seq<Step>, e: nat, i: nat, m: nat)
    requires Init(s0)
    ensures (e, i) in Exec(s0, steps).handed <==> exists j :: HandedAt(s0, steps, j, e, i)
    ensures (e, i, m) in Exec(s0, steps).listed <==> exists j :: ListedAt(s0, steps, j, e, i, m)
  {
    if steps != [] {
      var n := |steps| - 1;
      RecordIsExact(s0, steps[..n], e, i, m);
      StepRecords(Exec(s0, steps[..n]), steps[n], e, i, m);
      forall j
        ensures HandedAt(s0, steps, j, e, i) <==>
          HandedAt(s0, steps[..n], j, e, i) || (j == n && HandsOver(Exec(s0, steps[..n]), steps[n], e, i))
        ensures ListedAt(s0, steps, j, e, i, m) <==>
          ListedAt(s0, steps[..n], j, e, i, m) || (j == n && Lists(Exec(s0, steps[..n]), steps[n], e, i, m))
      {
        AtBefore(s0, steps, j, e, i, m);
      }
      assert HandedAt(s0, steps, n, e, i) <==> HandsOver(Exec(s0, steps[..n]), steps[n], e, i);
      assert ListedAt(s0, steps, n, e, i, m) <==> Lists(Exec(s0, steps[..n]), steps[n], e, i, m);
    }
  }
}
