/**
 The feed, one worker and its two durable records as one protocol.

 A run is any sequence of steps: the feed ticks or restarts, a page is served,
 the page in hand is processed or fails, the position is saved or its save
 fails, the worker crashes and resumes from whatever was stored. A step that is
 not enabled leaves the state alone, so every step sequence is a run.
 */
module Pipeline {
  import opened Wrappers
  import opened LastWriteWins
  import opened FeedLog
  import opened CatalogPaging
  import opened CursorCodec
  import opened WorkerLoop

  type OfferWrite = Write<nat, OfferState>
  type Table = map<nat, Row<OfferState>>

  /** A page the worker holds but has not finished with. */
  datatype Page = Page(epoch: nat, from: nat, end: nat, body: Body, writes: seq<OfferWrite>)

  datatype State = State(
    catalog: seq<Listing>,
    logs: map<nat, seq<Update>>,       // the log of every feed instance so far, by epoch
    epoch: nat,                        // the running instance
    clock: int,
    table: Table,                      // this retailer's offers
    cs: CursorState,                   // the position in memory
    saved: string,                     // the position on disk
    page: Option<Page>,
    // History: what has been handed to processItems and succeeded.
    handed: set<(nat, nat)>,           // (epoch, position in its log)
    listed: set<(nat, nat, nat)>,      // (epoch, product, log length when the catalog response closed)
    pin: nat,                          // the log length pinned by the sync behind `cs`
    savedPin: nat)                     // the same for `saved`
  {
    ghost function Log(): seq<Update>
      requires epoch in logs
    {
      logs[epoch]
    }
  }

  datatype Step =
    | Tick(now: int, draws: seq<Draw>)
    | Restart(now: int, newEpoch: nat)
    | ServeCatalog(now: int, request: Request, writes: seq<OfferWrite>, saveOk: bool)
    | ServeOffers(limit: nat, writes: seq<OfferWrite>, saveOk: bool)
    | Process(table: Table, processed: bool, saveOk: bool)
    | Crash(loadOk: bool)

  ghost predicate Enabled(s: State, step: Step)
    requires s.epoch in s.logs
  {
    match step
    case Tick(_, draws) =>
      (forall d :: d in draws ==> ValidDraw(s.catalog, d)) && |s.Log()| + |draws| < MAX_UINT64
    case Restart(_, e) => e !in s.logs && e <= MAX_UINT64
    case ServeCatalog(_, r, _, _) => s.page.None? && s.cs.phase == Catalog && r.limit > 0
    case ServeOffers(limit, _, _) => s.page.None? && s.cs.phase == Offers && limit > 0
    case Process(_, _, _) => s.page.Some?
    case Crash(_) => true
  }

  /** The position is unusable: start a full resync. */
  function StartOver(s: State, saveOk: bool): State {
    var p := Resync(s.saved, saveOk);
    s.(cs := p.cs, saved := p.saved, page := None, pin := 0, savedPin := if saveOk then 0 else s.savedPin)
  }

  /** A page has arrived: pin, refuse, or keep it for processing. */
  function Arrive(s: State, page: Page, saveOk: bool): State {
    match Receive(s.cs, page.epoch, page.body)
    case Err(_) => StartOver(s, saveOk)
    case Ok(cs) =>
      if page.body.Replayed? && page.body.empty then s
      else if page.body.Listed? && s.cs.catCursor == 0 then s.(cs := cs, pin := page.body.asOf, page := Some(page))
      else s.(cs := cs, page := Some(page))
  }

  function CatalogPage(s: State, r: Request, writes: seq<OfferWrite>): Page
    requires s.epoch in s.logs
  {
    var from, end := Start(s.catalog, s.cs.catCursor), End(s.catalog, r.dupes, s.cs.catCursor, r.limit);
    Page(s.epoch, from, end,
         Listed(NextCursor(s.catalog, r.dupes, s.cs.catCursor, r.limit), |s.logs[s.epoch]|), writes)
  }

  function OffersPage(s: State, us: seq<Update>, hasMore: bool, writes: seq<OfferWrite>): Page {
    var upto := s.cs.seqNo + |us|;
    Page(s.epoch, s.cs.seqNo, upto, Replayed(upto, us == [], hasMore), writes)
  }

  /** Record that a page's items went through. */
  ghost function Remember(s: State, p: Page): State {
    match p.body
    case Listed(_, asOf) =>
      s.(listed := s.listed + set i | p.from <= i < p.end && i < |s.catalog| && s.catalog[i].carried :: (p.epoch, i, asOf))
    case Replayed(_, _, _) =>
      s.(handed := s.handed + set k | p.from <= k < p.end :: (p.epoch, k))
  }

  ghost function Finish(s: State, p: Page, saveOk: bool): State {
    var cs := Advance(s.cs, p.body);
    Remember(s, p).(cs := cs, saved := Saved(s.saved, cs, saveOk), page := None,
                    savedPin := if saveOk then s.pin else s.savedPin)
  }

  ghost function TickFeed(s: State, now: int, draws: seq<Draw>): State
    requires s.epoch in s.logs && forall d :: d in draws ==> ValidDraw(s.catalog, d)
  {
    s.(clock := now, logs := s.logs[s.epoch := Ticked(s.catalog, s.Log(), now, draws)])
  }

  function RestartFeed(s: State, now: int, e: nat): State {
    s.(clock := now, epoch := e, logs := s.logs[e := []])
  }

  function FetchCatalog(s: State, now: int, r: Request, writes: seq<OfferWrite>, saveOk: bool): State
    requires s.epoch in s.logs
  {
    Arrive(s.(clock := now), CatalogPage(s, r, writes), saveOk)
  }

  function FetchOffers(s: State, limit: nat, writes: seq<OfferWrite>, saveOk: bool): State
    requires s.epoch in s.logs
  {
    match Since(s.logs[s.epoch], s.cs.seqNo, limit)
    case Gone => StartOver(s, saveOk)
    case Window(us, more) => Arrive(s, OffersPage(s, us, more, writes), saveOk)
  }

  ghost function ProcessPage(s: State, table: Table, processed: bool, saveOk: bool): State
    requires s.page.Some?
  {
    if processed then Finish(s.(table := table), s.page.value, saveOk) else s.(table := table, page := None)
  }

  function Resume(s: State, loadOk: bool): State {
    s.(cs := if loadOk then Parse(s.saved) else FRESH, pin := if loadOk then s.savedPin else 0, page := None)
  }

  ghost function Do(s: State, step: Step): (s': State)
    requires s.epoch in s.logs
    ensures s'.epoch in s'.logs
  {
    if !Enabled(s, step) then s
    else
      match step
      case Tick(now, draws) => TickFeed(s, now, draws)
      case Restart(now, e) => RestartFeed(s, now, e)
      case ServeCatalog(now, r, writes, saveOk) => FetchCatalog(s, now, r, writes, saveOk)
      case ServeOffers(limit, writes, saveOk) => FetchOffers(s, limit, writes, saveOk)
      case Process(table, processed, saveOk) => ProcessPage(s, table, processed, saveOk)
      case Crash(loadOk) => Resume(s, loadOk)
  }

  ghost function Exec(s: State, steps: seq<Step>): (s': State)
    requires s.epoch in s.logs
    ensures s'.epoch in s'.logs
  {
    if steps == [] then s else Do(Exec(s, steps[..|steps| - 1]), steps[|steps| - 1])
  }

  /** A system that has not synced yet: the stored text, if any, is not a position. */
  ghost predicate Init(s: State) {
    && |s.catalog| <= MAX_INT64
    && s.logs == map[s.epoch := []] && s.epoch <= MAX_UINT64
    && s.cs == FRESH && Parse(s.saved) == FRESH
    && s.page.None? && s.handed == {} && s.listed == {} && s.pin == 0 && s.savedPin == 0
    && RowsBy(s.table, s.clock)
  }

  /** No row claims to be from after `clock`. */
  ghost predicate RowsBy(t: Table, clock: int) {
    forall k :: k in t ==> t[k].at <= clock
  }
}
