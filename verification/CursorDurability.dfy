/**
 A stored cursor never runs ahead of the price history (internal/ingest/worker.go:
 184-208, chwriter.go:19-23): any number of workers share one writer, and the
 process may crash at any point.

 A position is represented by what it stands for: the accepted observations of
 all pages at or below it. An observation is named by the process life in which
 it was enqueued and its enqueue number there.
 */
module CursorDurability {
  import opened HistoryWriter
  import opened Waiters

  type Observation = (nat, int)

  datatype Phase = Idle | Waiting(batch: set<Observation>, wm: nat)

  /** One worker: what its cursor covers in memory and on disk, and the batch it waits for. */
  datatype Seat = Seat(covers: set<Observation>, stored: set<Observation>, phase: Phase)

  datatype System<E> = System(w: Writer<E>, life: nat, past: set<Observation>, seats: seq<Seat>)

  datatype Event<E> =
    | Flush(a: Action<E>)                // the flusher's sections; Add is done by workers only
    | Submit(id: nat, evs: seq<E>)       // a page's accepted rows enter the writer
    | Commit(id: nat, saveOk: bool)      // the wait is over: the cursor advances and is saved, or its save fails
    | Abandon(id: nat)                   // the wait is cancelled: the cursor stays
    | StartOver(id: nat, saveOk: bool)   // full resync
    | Crash

  function Named(life: nat, numbers: set<int>): set<Observation> {
    set n | n in numbers :: (life, n)
  }

  /** Everything written or counted as dropped, in this life or an earlier one. */
  function Durable<E>(s: System<E>): set<Observation> {
    s.past + Named(s.life, Settled(s.w))
  }

  function Reseat<E>(s: System<E>, id: nat, seat: Seat): System<E>
    requires id < |s.seats|
  {
    s.(seats := s.seats[id := seat])
  }

  function Step<E>(s: System<E>, e: Event<E>): System<E> {
    match e
    case Flush(a) => if a.Add? then s else s.(w := Act(s.w, a))
    case Submit(id, evs) =>
      if id >= |s.seats| || !s.seats[id].phase.Idle? then s
      else
        var w := Enqueue(s.w, evs);
        var batch := Named(s.life, Span(s.w.enqSeq, s.w.enqSeq + |evs|));
        Reseat(s.(w := w), id, s.seats[id].(phase := Waiting(batch, w.enqSeq)))
    case Commit(id, saveOk) =>
      if id >= |s.seats| || !s.seats[id].phase.Waiting? then s
      else
        var x := s.seats[id];
        if s.w.flushedSeq < x.phase.wm && x.phase.batch != {} then s
        else
          var covers := x.covers + x.phase.batch;
          Reseat(s, id, Seat(covers, if saveOk then covers else x.stored, Idle))
    case Abandon(id) =>
      if id >= |s.seats| then s else Reseat(s, id, s.seats[id].(phase := Idle))
    case StartOver(id, saveOk) =>
      if id >= |s.seats| then s else Reseat(s, id, Seat({}, if saveOk then {} else s.seats[id].stored, Idle))
    case Crash =>
      System(Empty(s.w.maxPending), s.life + 1, Durable(s),
             seq(|s.seats|, k requires 0 <= k < |s.seats| => Seat(s.seats[k].stored, s.seats[k].stored, Idle)))
  }

  function Run<E>(s: System<E>, events: seq<Event<E>>): System<E> {
    if events == [] then s else Step(Run(s, events[..|events| - 1]), events[|events| - 1])
  }

  function Start<E>(maxPending: nat, workers: nat): System<E> {
    System(Empty(maxPending), 0, {}, seq(workers, _ => Seat({}, {}, Idle)))
  }

  /** The commit of this seat goes ahead: its wait is over, or it had nothing to wait for. */
  predicate Releases<E>(s: System<E>, id: nat) {
    id < |s.seats| && s.seats[id].phase.Waiting?
    && (s.w.flushedSeq >= s.seats[id].phase.wm || s.seats[id].phase.batch == {})
  }

  /** No row of the batch this seat waits for is in the open flight. */
  predicate ClearOfFlight<E>(s: System<E>, id: nat)
    requires id < |s.seats| && s.seats[id].phase.Waiting?
  {
    forall o :: o in s.seats[id].phase.batch ==> o.1 !in Numbers(s.w.flight)
  }

  /** No wait ever ends while a row it waited for is still in flight. */
  ghost predicate ClearCommits<E>(s: System<E>, events: seq<Event<E>>) {
    forall k :: 0 <= k < |events| && events[k].Commit? && Releases(Run(s, events[..k]), events[k].id) ==>
      ClearOfFlight(Run(s, events[..k]), events[k].id)
  }

  /** The overflow branch was never taken while a flight was open. */
  ghost predicate Calm<E>(s: System<E>, events: seq<Event<E>>) {
    forall k :: 0 <= k <= |events| ==> MidFlightDrops(Run(s, events[..k]).w) == 0
  }

  /** Everything at or below every cursor, in memory and on disk, is written or counted as dropped. */
  ghost predicate CursorsDurable<E>(s: System<E>) {
    forall id :: 0 <= id < |s.seats| ==> s.seats[id].covers <= Durable(s) && s.seats[id].stored <= Durable(s)
  }

  ghost predicate SeatOk<E>(s: System<E>, x: Seat) {
    && x.covers <= Durable(s) && x.stored <= Durable(s)
    && (x.phase.Waiting? ==>
          && x.phase.wm <= s.w.enqSeq
          && forall o :: o in x.phase.batch ==> o.0 == s.life && 0 <= o.1 < x.phase.wm)
  }

  ghost predicate SystemOk<E>(s: System<E>) {
    && Shape(s.w) && (forall o :: o in s.past ==> o.0 < s.life)
    && forall id :: 0 <= id < |s.seats| ==> SeatOk(s, s.seats[id])
  }

  lemma SettledGrows<E>(w: Writer<E>, a: Action<E>)
    ensures Settled(w) <= Settled(Act(w, a))
  {}

  lemma SeatKept<E>(s: System<E>, s': System<E>, x: Seat)
    requires SeatOk(s, x) && Durable(s) <= Durable(s')
    requires s'.life == s.life && s'.w.enqSeq >= s.w.enqSeq
    ensures SeatOk(s', x)
  {}

  /** A step of the writer itself disturbs no seat. */
  lemma WriterStep<E>(s: System<E>, a: Action<E>)
    requires SystemOk(s)
    ensures SystemOk(s.(w := Act(s.w, a)))
  {
    ActKeepsShape(s.w, a);
    SettledGrows(s.w, a);
    var s' := s.(w := Act(s.w, a));
    forall id | 0 <= id < |s.seats| ensures SeatOk(s', s.seats[id]) {
      SeatKept(s, s', s.seats[id]);
    }
  }

  lemma SubmitKeepsSystem<E>(s: System<E>, id: nat, evs: seq<E>)
    requires SystemOk(s)
    ensures SystemOk(Step(s, Submit(id, evs)))
  {
    WriterStep(s, Add(evs));
    ActKeepsShape(s.w, Add(evs));
  }

  /** Of the rows below a released watermark, those in the open flight and no others are not durable. */
  lemma DurableUnlessInFlight<E>(s: System<E>, n: nat)
    requires SystemOk(s) && n < s.w.flushedSeq
    ensures (s.life, n) in Durable(s) <==> n !in Numbers(s.w.flight)
  {
    NumbersSpan(s.w.flight, FlightStart(s.w), s.w.history);
    assert n in Span(FlightStart(s.w), FlightStart(s.w) + |s.w.flight|) <==> n !in Settled(s.w);
    assert (s.life, n) in Named(s.life, Settled(s.w)) <==> n in Settled(s.w);
  }

  /** A commit keeps all cursors durable exactly if the batch it commits is clear of the open flight. */
  lemma CommitExact<E>(s: System<E>, id: nat, saveOk: bool)
    requires SystemOk(s) && Releases(s, id)
    ensures SystemOk(Step(s, Commit(id, saveOk))) <==> ClearOfFlight(s, id)
    ensures CursorsDurable(Step(s, Commit(id, saveOk))) <==> ClearOfFlight(s, id)
  {
    var x := s.seats[id];
    var s' := Step(s, Commit(id, saveOk));
    forall o | o in x.phase.batch
      ensures o in Durable(s) <==> o.1 !in Numbers(s.w.flight)
    {
      DurableUnlessInFlight(s, o.1);
    }
    assert Durable(s') == Durable(s) && s'.seats[id].covers == x.covers + x.phase.batch;
    assert x.phase.batch <= Durable(s) <==> ClearOfFlight(s, id);
    assert forall v :: 0 <= v < |s.seats| && v != id ==> s'.seats[v] == s.seats[v];
  }

  /**
   A commit adds its batch to the cursor, and one whose save succeeds survives a crash:
   the worker resumes with all it had committed, and nothing that was durable is lost.
   */
  lemma CommitSurvivesCrash<E>(s: System<E>, id: nat, saveOk: bool)
    requires Releases(s, id)
    ensures var s1 := Step(s, Commit(id, saveOk)); var s2 := Step(s1, Crash); var x := s.seats[id];
      && id < |s1.seats| && s1.seats[id].covers == x.covers + x.phase.batch && s1.seats[id].phase.Idle?
      && id < |s2.seats| && s2.seats[id].covers == (if saveOk then x.covers + x.phase.batch else x.stored)
      && s2.seats[id].stored == s2.seats[id].covers && Durable(s2) == Durable(s)
  {
    assert Settled(Empty<E>(s.w.maxPending)) == {};
  }

  /** A cursor in memory moves only by a commit that goes ahead, a resync or a crash; a cancelled wait leaves it. */
  lemma OnlyCommitsMove<E>(s: System<E>, e: Event<E>, id: nat)
    requires id < |s.seats| && !e.Crash? && !(e.Commit? && e.id == id && Releases(s, id)) && !(e.StartOver? && e.id == id)
    ensures id < |Step(s, e).seats| && Step(s, e).seats[id].covers == s.seats[id].covers
    ensures Step(s, e).seats[id].stored == s.seats[id].stored
    ensures e.Abandon? && e.id == id ==> Step(s, e).seats[id].phase.Idle?
  {}

  /** The event ends with this seat's cursor saved: after a commit that goes ahead, or a resync. */
  predicate Saves<E>(s: System<E>, e: Event<E>, id: nat) {
    id < |s.seats| && ((e.Commit? && e.id == id && e.saveOk && Releases(s, id)) || (e.StartOver? && e.id == id && e.saveOk))
  }

  lemma SavesOrKeeps<E>(s: System<E>, e: Event<E>, id: nat)
    requires id < |s.seats|
    ensures id < |Step(s, e).seats|
    ensures Step(s, e).seats[id].stored == if Saves(s, e, id) then Step(s, e).seats[id].covers else s.seats[id].stored
    ensures e.StartOver? && e.id == id ==> Step(s, e).seats[id].covers == {}
  {}

  /** The last event that saved this seat's cursor was event k. */
  ghost predicate LastSaved<E>(s: System<E>, events: seq<Event<E>>, id: nat, k: nat) {
    k < |events|
    && var n := |events| - 1;
       if k == n then Saves(Run(s, events[..n]), events[n], id)
       else LastSaved(s, events[..n], id, k) && !Saves(Run(s, events[..n]), events[n], id)
  }

  /** Over every run, what a cursor on disk covers is what the cursor in memory covered right after its last save. */
  lemma {:induction false} StoredIsLastSaved<E>(s: System<E>, events: seq<Event<E>>, id: nat, k: nat)
    requires id < |s.seats| && LastSaved(s, events, id, k)
    ensures id < |Run(s, events).seats| && id < |Run(s, events[..k + 1]).seats|
    ensures Run(s, events).seats[id].stored == Run(s, events[..k + 1]).seats[id].covers
  {
    var n := |events| - 1;
    var before := Run(s, events[..n]);
    if k < n {
      StoredIsLastSaved(s, events[..n], id, k);
      assert events[..n][..k + 1] == events[..k + 1];
    } else {
      assert events[..k + 1] == events;
    }
    SavesOrKeeps(before, events[n], id);
  }

  lemma CrashKeepsSystem<E>(s: System<E>)
    requires SystemOk(s)
    ensures SystemOk(Step(s, Crash))
  {}

  lemma StepKeepsSystem<E>(s: System<E>, e: Event<E>)
    requires SystemOk(s)
    requires e.Commit? && Releases(s, e.id) ==> ClearOfFlight(s, e.id)
    ensures SystemOk(Step(s, e))
  {
    match e
    case Flush(a) => WriterStep(s, a);
    case Submit(id, evs) => SubmitKeepsSystem(s, id, evs);
    case Commit(id, saveOk) =>
      if Releases(s, id) {
        CommitExact(s, id, saveOk);
      }
    case Crash => CrashKeepsSystem(s);
    case _ =>
  }

  lemma ClearBefore<E>(s: System<E>, events: seq<Event<E>>, n: nat)
    requires ClearCommits(s, events) && n <= |events|
    ensures ClearCommits(s, events[..n])
  {
    forall k | 0 <= k < n && events[k].Commit? && Releases(Run(s, events[..n][..k]), events[k].id)
      ensures ClearOfFlight(Run(s, events[..n][..k]), events[k].id)
    {
      assert events[..n][..k] == events[..k];
    }
  }

  /**
   With any number of workers, in any interleaving with flushes, failures,
   drops, cancelled waits, failed saves, resyncs and crashes: if no wait ends
   while its own rows are in flight, every observation at or below every cursor has
   been written or counted as dropped.
   */
  lemma {:induction false} StoredCursorsAreDurable<E>(maxPending: nat, workers: nat, events: seq<Event<E>>)
    requires ClearCommits(Start<E>(maxPending, workers), events)
    ensures var s := Run(Start<E>(maxPending, workers), events); SystemOk(s) && CursorsDurable(s)
  {
    if events != [] {
      var n := |events| - 1;
      ClearBefore(Start<E>(maxPending, workers), events, n);
      StoredCursorsAreDurable<E>(maxPending, workers, events[..n]);
      StepKeepsSystem(Run(Start<E>(maxPending, workers), events[..n]), events[n]);
    }
  }

  ghost predicate AlwaysDurable<E>(s: System<E>, events: seq<Event<E>>) {
    forall k :: 0 <= k <= |events| ==> CursorsDurable(Run(s, events[..k]))
  }

  lemma AlwaysBefore<E>(s: System<E>, events: seq<Event<E>>, n: nat)
    requires AlwaysDurable(s, events) && n <= |events|
    ensures AlwaysDurable(s, events[..n]) && CursorsDurable(Run(s, events[..n]))
  {
    forall k | 0 <= k <= n ensures CursorsDurable(Run(s, events[..n][..k])) {
      assert events[..n][..k] == events[..k];
    }
  }

  lemma ClearAppends<E>(s: System<E>, events: seq<Event<E>>)
    requires events != [] && ClearCommits(s, events[..|events| - 1])
    requires var n, before := |events| - 1, Run(s, events[..|events| - 1]);
      events[n].Commit? && Releases(before, events[n].id) ==> ClearOfFlight(before, events[n].id)
    ensures ClearCommits(s, events)
  {
    var n := |events| - 1;
    forall k | 0 <= k < |events| && events[k].Commit? && Releases(Run(s, events[..k]), events[k].id)
      ensures ClearOfFlight(Run(s, events[..k]), events[k].id)
    {
      if k < n {
        assert events[..n][..k] == events[..k] && events[..n][k] == events[k];
      }
    }
  }

  lemma {:induction false} DurableMeansClear<E>(maxPending: nat, workers: nat, events: seq<Event<E>>)
    requires AlwaysDurable(Start<E>(maxPending, workers), events)
    ensures ClearCommits(Start<E>(maxPending, workers), events)
  {
    if events != [] {
      var s0, n := Start<E>(maxPending, workers), |events| - 1;
      AlwaysBefore(s0, events, n);
      DurableMeansClear<E>(maxPending, workers, events[..n]);
      StoredCursorsAreDurable<E>(maxPending, workers, events[..n]);
      AlwaysBefore(s0, events, |events|);
      assert events[..|events|] == events;
      var before := Run(s0, events[..n]);
      if events[n].Commit? && Releases(before, events[n].id) {
        CommitExact(before, events[n].id, events[n].saveOk);
      }
      ClearAppends(s0, events);
    }
  }

  /** The exact condition, over every run: cursors stay durable throughout if and only if every commit is clear of the flight. */
  lemma CursorsDurableExactly<E>(maxPending: nat, workers: nat, events: seq<Event<E>>)
    ensures AlwaysDurable(Start<E>(maxPending, workers), events) <==> ClearCommits(Start<E>(maxPending, workers), events)
  {
    var s0 := Start<E>(maxPending, workers);
    if ClearCommits(s0, events) {
      forall k | 0 <= k <= |events| ensures CursorsDurable(Run(s0, events[..k])) {
        ClearBefore(s0, events, k);
        StoredCursorsAreDurable<E>(maxPending, workers, events[..k]);
      }
    }
    if AlwaysDurable(s0, events) {
      DurableMeansClear<E>(maxPending, workers, events);
    }
  }

  lemma CalmBefore<E>(s: System<E>, events: seq<Event<E>>, n: nat)
    requires Calm(s, events) && n <= |events|
    ensures Calm(s, events[..n]) && MidFlightDrops(Run(s, events[..n]).w) == 0
  {
    forall k | 0 <= k <= n ensures MidFlightDrops(Run(s, events[..n][..k]).w) == 0 {
      assert events[..n][..k] == events[..k];
    }
  }

  /** In particular it is enough that no row is ever dropped while a flight is open. */
  lemma {:induction false} CalmIsClear<E>(maxPending: nat, workers: nat, events: seq<Event<E>>)
    requires Calm(Start<E>(maxPending, workers), events)
    ensures ClearCommits(Start<E>(maxPending, workers), events)
  {
    if events != [] {
      var s0, n := Start<E>(maxPending, workers), |events| - 1;
      CalmBefore(s0, events, n);
      CalmIsClear<E>(maxPending, workers, events[..n]);
      StoredCursorsAreDurable<E>(maxPending, workers, events[..n]);
      var before := Run(s0, events[..n]);
      if events[n].Commit? && Releases(before, events[n].id) {
        CalmCommit(before, events[n].id);
      }
      ClearAppends(s0, events);
    }
  }

  lemma CalmCommit<E>(s: System<E>, id: nat)
    requires SystemOk(s) && MidFlightDrops(s.w) == 0 && Releases(s, id)
    ensures ClearOfFlight(s, id)
  {
    NumbersSpan(s.w.flight, FlightStart(s.w), s.w.history);
    assert SeatOk(s, s.seats[id]);
  }

  lemma RunAppends<E>(s: System<E>, events: seq<Event<E>>, e: Event<E>)
    ensures Run(s, events + [e]) == Step(Run(s, events), e)
  {
    assert (events + [e])[..|events|] == events;
  }

  /** Cap 1, row 0 in flight, two more rows added: the counter passes row 0. */
  lemma CounterPassesFlight<E>(a: E, b: E, c: E)
    ensures var w := Enqueue(TakeOff(Enqueue(Empty(1), [a])), [b, c]);
      w.flushedSeq == 1 && w.written == {} && 0 !in w.dropped
  {
    var w1 := Enqueue(Empty(1), [a]);
    assert w1.rows == [Tagged(0, a)];
    assert Tag([b, c], 1) == [Tagged(1, b), Tagged(2, c)];
  }

  /** The condition matters: here a cursor is stored although its row is lost when the process crashes. */
  lemma MidFlightDropLosesARow<E>(a: E, b: E, c: E)
    ensures var events := [Submit(0, [a])] + [Flush(Begin)] + [Submit(1, [b, c])] + [Commit(0, true)] + [Crash];
      var s := Run(Start(1, 2), events);
      |s.seats| == 2 && (0, 0) in s.seats[0].stored && (0, 0) !in Durable(s)
  {
    var s0: System<E> := Start(1, 2);
    var e0: Event<E> := Submit(0, [a]);
    RunAppends(s0, [], e0);
    assert [] + [e0] == [e0];
    RunAppends(s0, [e0], Flush(Begin));
    RunAppends(s0, [e0] + [Flush(Begin)], Submit(1, [b, c]));
    RunAppends(s0, [e0] + [Flush(Begin)] + [Submit(1, [b, c])], Commit(0, true));
    RunAppends(s0, [e0] + [Flush(Begin)] + [Submit(1, [b, c])] + [Commit(0, true)], Crash);
    CounterPassesFlight(a, b, c);
    var s1 := Step(s0, e0);
    var s3 := Step(Step(s1, Flush(Begin)), Submit(1, [b, c]));
    assert (0, 0) in s1.seats[0].phase.batch;
    assert (0, 0) !in Durable(s3);
    var s4 := Step(s3, Commit(0, true));
    assert (0, 0) in s4.seats[0].stored && Durable(s4) == Durable(s3);
  }
}
