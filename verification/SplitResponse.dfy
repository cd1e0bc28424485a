/**
 The protocol with catalog responses taken apart (internal/feedgen/server.go:73-97):
 the scan opens, each product is read under its own lock, stamped after the lock is
 released, and the position is read when the scan ends. The feed may tick or restart
 in between, and the worker may crash.

 Every run of this machine is a run of Pipeline, but Pipeline records a listing as
 made when its response closed, while each product was read earlier. SplitConvergence
 says what that leaves of the no-skip and convergence results.
 */
module SplitResponse {
  import opened Wrappers
  import opened LastWriteWins
  import opened FeedLog
  import opened CatalogPaging
  import opened CursorCodec
  import opened Pipeline
  import opened TiedReplay

  /** A listed product: the log length at which it was read, what it showed, and its stamp. */
  datatype Entry = Entry(read: nat, val: OfferState, at: int)

  /** A product that has been read but not stamped. */
  datatype Half = Half(read: nat, val: OfferState)

  /** A response under way: the product the scan has come to, and what it has listed. */
  datatype Response = Response(request: Request, next: nat, half: Option<Half>, entries: map<nat, Entry>)

  /** A page of updates that reached a row: where it starts, and its last update of the product. */
  datatype Source = Source(from: nat, last: nat)

  /**
   The last listing of a product that was written: its entry, the log length when its
   response closed, the log positions replayed since, and the last page of updates
   that took effect since, if any did.
   */
  datatype Shown = Shown(entry: Entry, closed: nat, replayed: set<nat>, source: Option<Source>)

  datatype Split = Split(
    s: State,
    open: Option<Response>,
    entries: map<nat, Entry>,    // of the catalog page in hand
    last: map<nat, Shown>)       // by product, for the running instance

  datatype SplitStep =
    | Other(step: Step)          // any step but ServeCatalog
    | Open(request: Request)
    | Read
    | Stamp(now: int)
    | Close(now: int, writes: seq<OfferWrite>, saveOk: bool)
    | Abort                      // the response is lost on its way

  function ScanEnd(s: State, r: Response): nat {
    End(s.catalog, r.request.dupes, s.cs.catCursor, r.request.limit)
  }

  ghost function Log(f: Split): seq<Update>
    requires f.s.epoch in f.s.logs
  {
    f.s.logs[f.s.epoch]
  }

  /** The log positions in [lo, hi). */
  function Stretch(lo: nat, hi: nat): (ks: set<nat>)
    ensures forall k :: k in ks <==> lo <= k < hi
    decreases hi
  {
    if hi <= lo then {} else Stretch(lo, hi - 1) + {hi - 1}
  }

  /** The source of row i after the page [lo, hi): the page, unless it has nothing of the product or the row is newer. */
  ghost function SourceAfter(log: seq<Update>, t: Table, i: nat, x: Shown, lo: nat, hi: nat): Option<Source> {
    if !(lo <= hi <= |log|) then x.source
    else
      var k := LastIn(log, i, lo, hi);
      if k.None? || (i in t && t[i].at > log[k.value].at) then x.source else Some(Source(lo, k.value))
  }

  ghost function Replay(log: seq<Update>, t: Table, i: nat, x: Shown, lo: nat, hi: nat): Shown {
    x.(replayed := x.replayed + Stretch(lo, hi), source := SourceAfter(log, t, i, x, lo, hi))
  }

  /** What a processed page adds to the record, if it was written and comes from the running instance. */
  ghost function Noted(f: Split, table: Table): map<nat, Shown>
    requires f.s.page.Some? && f.s.epoch in f.s.logs
  {
    var p := f.s.page.value;
    if p.epoch != f.s.epoch || table != Batch(f.s.table, p.writes) then f.last
    else
      match p.body
      case Listed(_, asOf) => f.last + map i | i in f.entries :: Shown(f.entries[i], asOf, {}, None)
      case Replayed(_, _, _) =>
        map i | i in f.last :: Replay(Log(f), f.s.table, i, f.last[i], p.from, p.end)
  }

  ghost function DoOther(f: Split, step: Step): (f': Split)
    requires f.s.epoch in f.s.logs
    ensures f'.s.epoch in f'.s.logs
  {
    if step.ServeCatalog? || !Enabled(f.s, step) then f
    else
      var s' := Do(f.s, step);
      match step
      case Process(table, _, _) => Split(s', f.open, f.entries, Noted(f, table))
      case Restart(_, _) => Split(s', None, f.entries, map[])
      case Crash(_) => Split(s', None, f.entries, f.last)
      case _ => f.(s := s')
  }

  ghost function DoRead(f: Split, r: Response): Split
    requires f.s.epoch in f.s.logs
  {
    if r.half.Some? || r.next >= ScanEnd(f.s, r) then f
    else if !f.s.catalog[r.next].carried then f.(open := Some(r.(next := r.next + 1)))
    else f.(open := Some(r.(half := Some(Half(|Log(f)|, StateAt(f.s.catalog, Log(f), r.next))))))
  }

  /** The response after the product it has read is stamped. */
  function Stamped(r: Response, now: int): Response
    requires r.half.Some?
  {
    r.(next := r.next + 1, half := None, entries := r.entries[r.next := Entry(r.half.value.read, r.half.value.val, now)])
  }

  ghost function DoStamp(f: Split, r: Response, now: int): (f': Split)
    requires f.s.epoch in f.s.logs
    ensures f'.s.epoch in f'.s.logs
  {
    if r.half.None? then f else f.(s := Do(f.s, Tick(now, [])), open := Some(Stamped(r, now)))
  }

  ghost function DoClose(f: Split, r: Response, now: int, writes: seq<OfferWrite>, saveOk: bool): (f': Split)
    requires f.s.epoch in f.s.logs
    ensures f'.s.epoch in f'.s.logs
  {
    if r.half.Some? || r.next != ScanEnd(f.s, r) then f
    else Split(Do(f.s, ServeCatalog(now, r.request, writes, saveOk)), None, r.entries, f.last)
  }

  ghost function DoSplit(f: Split, x: SplitStep): (f': Split)
    requires f.s.epoch in f.s.logs
    ensures f'.s.epoch in f'.s.logs
  {
    match x
    case Other(step) => DoOther(f, step)
    case Open(request) =>
      if f.open.Some? || f.s.page.Some? || f.s.cs.phase != Catalog || request.limit == 0 then f
      else f.(open := Some(Response(request, Start(f.s.catalog, f.s.cs.catCursor), None, map[])))
    case Read => if f.open.None? then f else DoRead(f, f.open.value)
    case Stamp(now) => if f.open.None? then f else DoStamp(f, f.open.value, now)
    case Close(now, writes, saveOk) => if f.open.None? then f else DoClose(f, f.open.value, now, writes, saveOk)
    case Abort => f.(open := None)
  }

  ghost function ExecSplit(f: Split, xs: seq<SplitStep>): (f': Split)
    requires f.s.epoch in f.s.logs
    ensures f'.s.epoch in f'.s.logs
  {
    if xs == [] then f else DoSplit(ExecSplit(f, xs[..|xs| - 1]), xs[|xs| - 1])
  }

  // --- a refinement of the protocol ---

  ghost function Plain(f: Split, x: SplitStep): seq<Step>
    requires f.s.epoch in f.s.logs
  {
    match x
    case Other(step) => if step.ServeCatalog? then [] else [step]
    case Stamp(now) => if f.open.Some? && f.open.value.half.Some? then [Tick(now, [])] else []
    case Close(now, writes, saveOk) =>
      if f.open.Some? && f.open.value.half.None? && f.open.value.next == ScanEnd(f.s, f.open.value)
      then [ServeCatalog(now, f.open.value.request, writes, saveOk)] else []
    case _ => []
  }

  lemma StepIsPlain(f: Split, x: SplitStep)
    requires f.s.epoch in f.s.logs
    ensures var steps := Plain(f, x);
      |steps| <= 1 && DoSplit(f, x).s == if steps == [] then f.s else Do(f.s, steps[0])
  {}

  /** A run with split responses is, step by step, a run of the protocol; only what a listing shows differs. */
  lemma {:induction false} SplitIsPipeline(f: Split, xs: seq<SplitStep>) returns (steps: seq<Step>)
    requires f.s.epoch in f.s.logs
    ensures ExecSplit(f, xs).s == Exec(f.s, steps)
  {
    if xs == [] {
      steps := [];
    } else {
      var n := |xs| - 1;
      var before := SplitIsPipeline(f, xs[..n]);
      var more := Plain(ExecSplit(f, xs[..n]), xs[n]);
      StepIsPlain(ExecSplit(f, xs[..n]), xs[n]);
      steps := before + more;
      if more == [] {
        assert steps == before;
      } else {
        assert steps[..|steps| - 1] == before && steps[|steps| - 1] == more[0];
      }
    }
  }
}
