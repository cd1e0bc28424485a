/**
 The buffered history writer (internal/ingest/chwriter.go): many producers, one
 flusher, and one pair of counters that stands for "what has landed".

 `flush` is split at its two critical sections, so producers may add rows while
 a flight is open. Each row is tagged with its enqueue number, and the sets
 `written` and `dropped` record what really became of it; the counters are
 compared with those records.
 */
module HistoryWriter {
  datatype Tagged<+E> = Tagged(n: nat, ev: E)

  datatype Writer<E> = Writer(
    maxPending: nat,
    rows: seq<Tagged<E>>,
    flight: seq<Tagged<E>>,     // rows handed to the open insert; empty when none is open
    enqSeq: nat,
    flushedSeq: nat,
    gen: nat,                   // how often the notify channel has been closed and replaced
    written: set<nat>,
    dropped: set<nat>,
    history: seq<E>)            // every row ever enqueued

  function Numbers<E>(rows: seq<Tagged<E>>): set<nat> {
    set k | 0 <= k < |rows| :: rows[k].n
  }

  function Tag<E>(evs: seq<E>, from: nat): seq<Tagged<E>> {
    seq(|evs|, k requires 0 <= k < |evs| => Tagged(from + k, evs[k]))
  }

  function Untag<E>(rows: seq<Tagged<E>>): seq<E> {
    seq(|rows|, k requires 0 <= k < |rows| => rows[k].ev)
  }

  function Empty<E>(maxPending: nat): Writer<E> {
    Writer(maxPending, [], [], 0, 0, 0, {}, {}, [])
  }

  function DropOverflow<E>(w: Writer<E>): Writer<E> {
    if |w.rows| <= w.maxPending then w
    else
      var over := |w.rows| - w.maxPending;
      w.(rows := w.rows[over..], flushedSeq := w.flushedSeq + over, gen := w.gen + 1,
         dropped := w.dropped + Numbers(w.rows[..over]))
  }

  function Append<E>(w: Writer<E>, evs: seq<E>): Writer<E> {
    w.(rows := w.rows + Tag(evs, w.enqSeq), enqSeq := w.enqSeq + |evs|, history := w.history + evs)
  }

  function Enqueue<E>(w: Writer<E>, evs: seq<E>): Writer<E> {
    DropOverflow(Append(w, evs))
  }

  /** The first critical section of flush: take everything buffered. */
  function TakeOff<E>(w: Writer<E>): Writer<E> {
    if w.flight != [] then w else w.(flight := w.rows, rows := [])
  }

  /** The insert succeeded. */
  function Land<E>(w: Writer<E>): Writer<E> {
    if w.flight == [] then w
    else w.(flight := [], flushedSeq := w.flushedSeq + |w.flight|, gen := w.gen + 1,
            written := w.written + Numbers(w.flight))
  }

  /** The insert failed: requeue at the front, then enforce the cap. */
  function Requeue<E>(w: Writer<E>): Writer<E> {
    if w.flight == [] then w else DropOverflow(Restore(w))
  }

  function Restore<E>(w: Writer<E>): Writer<E> {
    w.(rows := w.flight + w.rows, flight := [])
  }

  lemma UntagJoins<E>(a: seq<Tagged<E>>, b: seq<Tagged<E>>, evs: seq<E>, from: nat)
    ensures Untag(a + b) == Untag(a) + Untag(b)
    ensures Untag(Tag(evs, from)) == evs
  {}

  lemma AppendUntags<E>(w: Writer<E>, evs: seq<E>)
    ensures Untag(Append(w, evs).rows) == Untag(w.rows) + evs && Append(w, evs).enqSeq == w.enqSeq + |evs|
    ensures Append(w, evs).flight == w.flight && Append(w, evs).flushedSeq == w.flushedSeq
    ensures Append(w, evs).gen == w.gen && Append(w, evs).maxPending == w.maxPending
  {
    UntagJoins(w.rows, Tag(evs, w.enqSeq), evs, w.enqSeq);
  }

  datatype Action<E> = Add(evs: seq<E>) | Begin | Succeed | Fail

  function Act<E>(w: Writer<E>, a: Action<E>): Writer<E> {
    match a
    case Add(evs) => Enqueue(w, evs)
    case Begin => TakeOff(w)
    case Succeed => Land(w)
    case Fail => Requeue(w)
  }

  function ActAll<E>(w: Writer<E>, actions: seq<Action<E>>): Writer<E> {
    if actions == [] then w else Act(ActAll(w, actions[..|actions| - 1]), actions[|actions| - 1])
  }

  // --- the shape of the settled set ---

  /** Where the open flight starts; with no flight, the counter itself. */
  function FlightStart<E>(w: Writer<E>): nat {
    if w.flight == [] then w.flushedSeq else w.flight[0].n
  }

  /** Rows dropped while the flight has been open. */
  function MidFlightDrops<E>(w: Writer<E>): int {
    w.flushedSeq - FlightStart(w)
  }

  ghost predicate Consecutive<E>(rows: seq<Tagged<E>>, from: int, history: seq<E>) {
    forall k :: 0 <= k < |rows| ==>
      rows[k].n == from + k && rows[k].n < |history| && rows[k].ev == history[rows[k].n]
  }

  /** The enqueue numbers in [lo, hi). */
  function Span(lo: int, hi: int): (s: set<int>)
    ensures forall n :: n in s <==> lo <= n < hi
    decreases hi - lo
  {
    if hi <= lo then {} else Span(lo, hi - 1) + {hi - 1}
  }

  function Settled<E>(w: Writer<E>): set<int> {
    w.written + w.dropped
  }

  /** The counters and buffers fit together, and drops during a flight only happen at a full buffer. */
  ghost predicate Buffered<E>(w: Writer<E>) {
    && w.enqSeq == |w.history| == w.flushedSeq + |w.rows| + |w.flight|
    && FlightStart(w) <= w.flushedSeq
    && Consecutive(w.flight, FlightStart(w), w.history)
    && Consecutive(w.rows, w.enqSeq - |w.rows|, w.history)
    && |w.rows| <= w.maxPending && |w.flight| <= w.maxPending
    && (MidFlightDrops(w) > 0 ==> |w.rows| == w.maxPending)
  }

  /**
   What is settled: the prefix before the flight and, behind the flight, the rows
   dropped since it took off. No row is both written and dropped.
   */
  ghost predicate Shape<E>(w: Writer<E>) {
    Buffered(w) && GapOnly(w)
  }

  ghost predicate GapOnly<E>(w: Writer<E>) {
    && w.written !! w.dropped
    && Settled(w) == Span(0, FlightStart(w)) + Span(FlightStart(w) + |w.flight|, w.flushedSeq + |w.flight|)
  }

  lemma NumbersSpan<E>(rows: seq<Tagged<E>>, from: int, history: seq<E>)
    requires Consecutive(rows, from, history)
    ensures Numbers(rows) == Span(from, from + |rows|)
  {
    forall n | from <= n < from + |rows|
      ensures n in Numbers(rows)
    {
      assert rows[n - from].n == n;
    }
  }

  lemma SpansJoin(lo: int, mid: int, hi: int)
    requires lo <= mid <= hi
    ensures Span(lo, mid) + Span(mid, hi) == Span(lo, hi)
    ensures Span(lo, mid) !! Span(mid, hi)
  {}

  lemma GapExtends(settled: set<int>, start: int, width: int, top: int, over: nat)
    requires 0 <= start <= start + width <= top && settled == Span(0, start) + Span(start + width, top)
    ensures settled + Span(top, top + over) == Span(0, start) + Span(start + width, top + over)
    ensures settled !! Span(top, top + over)
  {
    SpansJoin(start + width, top, top + over);
  }

  lemma DropsBehindFlight<E>(w: Writer<E>, w': Writer<E>, over: nat)
    requires GapOnly(w) && FlightStart(w) <= w.flushedSeq
    requires w'.flight == w.flight && w'.flushedSeq == w.flushedSeq + over
    requires w'.written == w.written
    requires w'.dropped == w.dropped + Span(w.flushedSeq + |w.flight|, w.flushedSeq + |w.flight| + over)
    ensures GapOnly(w')
  {
    GapExtends(Settled(w), FlightStart(w), |w.flight|, w.flushedSeq + |w.flight|, over);
    assert Settled(w') == Settled(w) + Span(w.flushedSeq + |w.flight|, w.flushedSeq + |w.flight| + over);
    SpansJoin(0, w.flushedSeq, w.flushedSeq + over);
  }

  /** As `Shape`, before the cap is enforced. */
  ghost predicate Overfull<E>(w: Writer<E>) {
    && GapOnly(w)
    && w.enqSeq == |w.history| == w.flushedSeq + |w.rows| + |w.flight|
    && FlightStart(w) <= w.flushedSeq
    && Consecutive(w.flight, FlightStart(w), w.history)
    && Consecutive(w.rows, w.enqSeq - |w.rows|, w.history)
    && |w.flight| <= w.maxPending
    && (MidFlightDrops(w) > 0 ==> |w.rows| >= w.maxPending)
  }

  /** Trimming the oldest rows to the cap gives back the shape. */
  lemma OverflowRestoresShape<E>(w: Writer<E>)
    requires Overfull(w)
    ensures Shape(DropOverflow(w))
  {
    if |w.rows| > w.maxPending {
      var over := |w.rows| - w.maxPending;
      NumbersSpan(w.rows[..over], w.enqSeq - |w.rows|, w.history);
      DropsBehindFlight(w, DropOverflow(w), over);
    }
  }

  lemma EnqueueKeepsShape<E>(w: Writer<E>, evs: seq<E>)
    requires Shape(w)
    ensures Shape(Enqueue(w, evs))
  {
    OverflowRestoresShape(Append(w, evs));
  }

  lemma TakeOffKeepsShape<E>(w: Writer<E>)
    requires Shape(w)
    ensures Shape(TakeOff(w))
  {}

  lemma LandKeepsShape<E>(w: Writer<E>)
    requires Shape(w)
    ensures Shape(Land(w))
  {
    NumbersSpan(w.flight, FlightStart(w), w.history);
  }

  /** With drops behind it, a requeued flight is exactly the overflow: it is dropped whole and the gap closes. */
  lemma RequeueDropsFlight<E>(w: Writer<E>)
    requires Shape(w) && w.flight != [] && MidFlightDrops(w) > 0
    ensures Shape(Requeue(w)) && Requeue(w).rows == w.rows && Requeue(w).dropped == w.dropped + Numbers(w.flight)
  {
    var rows := w.flight + w.rows;
    assert rows[..|w.flight|] == w.flight && rows[|w.flight|..] == w.rows;
    NumbersSpan(w.flight, FlightStart(w), w.history);
  }

  /** Without drops behind it, a failed flight goes back in front as if it had never taken off. */
  lemma RequeueRestores<E>(w: Writer<E>)
    requires Shape(w) && w.flight != [] && MidFlightDrops(w) == 0
    ensures Shape(Requeue(w))
  {
    assert Consecutive(w.flight + w.rows, w.flushedSeq, w.history);
    OverflowRestoresShape(Restore(w));
  }

  lemma RequeueKeepsShape<E>(w: Writer<E>)
    requires Shape(w)
    ensures Shape(Requeue(w))
  {
    if w.flight != [] {
      if MidFlightDrops(w) > 0 {
        RequeueDropsFlight(w);
      } else {
        RequeueRestores(w);
      }
    }
  }

  /** In every interleaving the counters and the settled set have the shape above. */
  lemma {:induction false} SettledSetShape<E>(maxPending: nat, actions: seq<Action<E>>)
    ensures Shape(ActAll(Empty(maxPending), actions))
  {
    if actions != [] {
      var w := ActAll(Empty<E>(maxPending), actions[..|actions| - 1]);
      SettledSetShape(maxPending, actions[..|actions| - 1]);
      match actions[|actions| - 1]
      case Add(evs) => EnqueueKeepsShape(w, evs);
      case Begin => TakeOffKeepsShape(w);
      case Succeed => LandKeepsShape(w);
      case Fail => RequeueKeepsShape(w);
    }
  }

  /** Either ending of a flight leaves a plain prefix; after mid-flight drops both endings leave the same counters and buffer. */
  lemma EitherEndingClosesTheGap<E>(w: Writer<E>)
    requires Shape(w) && w.flight != []
    ensures Settled(Land(w)) == Span(0, Land(w).flushedSeq)
    ensures Settled(Requeue(w)) == Span(0, Requeue(w).flushedSeq)
    ensures MidFlightDrops(w) > 0 ==>
      Requeue(w).rows == Land(w).rows == w.rows && Requeue(w).flushedSeq == Land(w).flushedSeq
  {
    LandKeepsShape(w);
    RequeueKeepsShape(w);
    if MidFlightDrops(w) > 0 {
      RequeueDropsFlight(w);
    }
  }

  /**
   What a released waiter may rely on. Its rows have all been written or dropped
   exactly when no flight is open or its rows precede the flight: overflow during
   a flight moves the counter past rows that are still in the air.
   */
  lemma ReleasedMeansSettled<E>(w: Writer<E>, wm: nat)
    requires Shape(w) && wm <= w.flushedSeq
    ensures Span(0, wm) <= Settled(w) <==> w.flight == [] || wm <= FlightStart(w)
  {
    if w.flight != [] && wm > FlightStart(w) {
      assert FlightStart(w) in Span(0, wm) && FlightStart(w) !in Settled(w);
    }
  }

  /** Without a drop inside the open flight, the counter never runs ahead of what is settled. */
  lemma NoMidFlightDropMeansSettled<E>(w: Writer<E>, wm: nat)
    requires Shape(w) && wm <= w.flushedSeq && MidFlightDrops(w) == 0
    ensures Span(0, wm) <= Settled(w)
  {}

  /** A run that releases a waiter whose only row is still in flight: cap 1, one row in flight, two more added. */
  lemma OverflowReleasesEarly()
    ensures var w := ActAll(Empty(1), [Add(["a"]), Begin, Add(["b", "c"])]);
      w.flushedSeq >= 1 && 0 !in Settled(w)
  {
    var add, begin, more := Add(["a"]), Begin, Add(["b", "c"]);
    var w1 := Enqueue(Empty(1), ["a"]);
    assert [add, begin, more][..2] == [add, begin] && [add, begin][..1] == [add];
    assert ActAll(Empty(1), [add]) == w1;
    assert TakeOff(w1).flight == [Tagged(0, "a")];
    SettledSetShape(1, [add, begin, more]);
  }

  // --- what is lost ---

  /** How many rows the action pushes over the cap. */
  function Excess<E>(w: Writer<E>, a: Action<E>): nat {
    var kept := match a
      case Add(evs) => |w.rows| + |evs|
      case Fail => |w.flight| + |w.rows|
      case _ => 0;
    if kept > w.maxPending then kept - w.maxPending else 0
  }

  /** The number of the oldest row the action leaves in the buffer or pushes out of it. */
  function Oldest<E>(w: Writer<E>, a: Action<E>): nat {
    if a.Fail? && w.flight != [] then w.flight[0].n else w.flushedSeq + |w.flight|
  }

  lemma OverflowDropsOldest<E>(w: Writer<E>)
    requires Overfull(w)
    ensures var over := if |w.rows| > w.maxPending then |w.rows| - w.maxPending else 0;
      && DropOverflow(w).dropped == w.dropped + Span(w.enqSeq - |w.rows|, w.enqSeq - |w.rows| + over)
      && DropOverflow(w).written == w.written
  {
    if |w.rows| > w.maxPending {
      NumbersSpan(w.rows[..|w.rows| - w.maxPending], w.enqSeq - |w.rows|, w.history);
    }
  }

  /** Back in front of the buffer, the flight is consecutive with it, or is just what is pushed out again. */
  lemma FailDropsOldest<E>(w: Writer<E>)
    requires Shape(w) && w.flight != []
    ensures Requeue(w).dropped == w.dropped + Span(w.flight[0].n, w.flight[0].n + Excess(w, Fail)) && Requeue(w).written == w.written
  {
    if MidFlightDrops(w) > 0 {
      RequeueDropsFlight(w);
      NumbersSpan(w.flight, FlightStart(w), w.history);
    } else {
      assert Consecutive(w.flight + w.rows, w.flushedSeq, w.history);
      OverflowDropsOldest(Restore(w));
    }
  }

  lemma AddDropsOldest<E>(w: Writer<E>, evs: seq<E>)
    requires Shape(w)
    ensures Enqueue(w, evs).written == w.written
    ensures Enqueue(w, evs).dropped
      == w.dropped + Span(w.flushedSeq + |w.flight|, w.flushedSeq + |w.flight| + Excess(w, Add(evs)))
  {
    OverflowDropsOldest(Append(w, evs));
  }

  /** An action writes exactly the flight that lands, and drops exactly the oldest rows over the cap. */
  lemma StepSettles<E>(w: Writer<E>, a: Action<E>)
    requires Shape(w)
    ensures Act(w, a).written == if a.Succeed? then w.written + Span(FlightStart(w), FlightStart(w) + |w.flight|) else w.written
    ensures Act(w, a).dropped == w.dropped + Span(Oldest(w, a), Oldest(w, a) + Excess(w, a))
  {
    match a
    case Add(evs) => AddDropsOldest(w, evs);
    case Begin =>
    case Succeed => NumbersSpan(w.flight, FlightStart(w), w.history);
    case Fail =>
      if w.flight != [] {
        FailDropsOldest(w);
      }
  }

  /** The counters never go back, and a channel is closed exactly when the counter moves. */
  lemma ActKeepsShape<E>(w: Writer<E>, a: Action<E>)
    requires Shape(w)
    ensures var w' := Act(w, a);
      && Shape(w') && w'.enqSeq >= w.enqSeq && w'.flushedSeq >= w.flushedSeq
      && w'.gen == w.gen + (if w'.flushedSeq > w.flushedSeq then 1 else 0)
  {
    match a
    case Add(evs) => EnqueueKeepsShape(w, evs);
    case Begin => TakeOffKeepsShape(w);
    case Succeed => LandKeepsShape(w);
    case Fail => RequeueKeepsShape(w);
  }

  /** No action so far has pushed the buffer over the cap. */
  ghost predicate Roomy<E>(w: Writer<E>, actions: seq<Action<E>>) {
    actions == []
    || (Roomy(w, actions[..|actions| - 1]) && Excess(ActAll(w, actions[..|actions| - 1]), actions[|actions| - 1]) == 0)
  }

  lemma StepLoses<E>(w: Writer<E>, a: Action<E>)
    requires Shape(w)
    ensures Act(w, a).dropped == {} <==> w.dropped == {} && Excess(w, a) == 0
    ensures FlightStart(w) == w.flushedSeq && Excess(w, a) == 0 ==> FlightStart(Act(w, a)) == Act(w, a).flushedSeq
  {
    StepSettles(w, a);
    ActKeepsShape(w, a);
    if Excess(w, a) > 0 {
      assert Oldest(w, a) in Act(w, a).dropped;
    }
  }

  /**
   Over every run a row is lost if and only if some action pushes the buffer over the
   cap: failed inserts alone lose nothing. Without a loss, what the counter covers has
   been written, all of it and nothing else.
   */
  lemma {:induction false} LostExactly<E>(maxPending: nat, actions: seq<Action<E>>)
    ensures var w := ActAll(Empty<E>(maxPending), actions);
      && (w.dropped == {} <==> Roomy(Empty<E>(maxPending), actions))
      && (w.dropped == {} ==> FlightStart(w) == w.flushedSeq && forall n: int :: n in w.written <==> 0 <= n < w.flushedSeq)
  {
    var w := ActAll(Empty<E>(maxPending), actions);
    if actions != [] {
      var n := |actions| - 1;
      LostExactly(maxPending, actions[..n]);
      SettledSetShape(maxPending, actions[..n]);
      StepLoses(ActAll(Empty<E>(maxPending), actions[..n]), actions[n]);
    }
    SettledSetShape(maxPending, actions);
    if w.dropped == {} {
      assert Settled(w) == w.written;
    }
  }

  // --- progress ---

  /** Actions that do not end a flight. */
  predicate KeepsFlight<E>(a: Action<E>) {
    a.Add? || a.Begin?
  }

  lemma {:induction false} FlightStaysOpen<E>(w: Writer<E>, actions: seq<Action<E>>)
    requires Shape(w) && w.flight != []
    requires forall k :: 0 <= k < |actions| ==> KeepsFlight(actions[k])
    ensures var w' := ActAll(w, actions);
      Shape(w') && w'.flight == w.flight && w'.flushedSeq >= w.flushedSeq && w'.enqSeq >= w.enqSeq && w'.gen >= w.gen
  {
    if actions != [] {
      var before := ActAll(w, actions[..|actions| - 1]);
      FlightStaysOpen(w, actions[..|actions| - 1]);
      match actions[|actions| - 1]
      case Add(evs) => EnqueueKeepsShape(before, evs);
      case Begin =>
    }
  }

  /**
   A flush that takes off after a watermark was issued, and succeeds, brings the
   counter to the watermark, whatever is added or dropped meanwhile.
   */
  lemma FlushReachesWatermark<E>(w: Writer<E>, wm: nat, actions: seq<Action<E>>)
    requires Shape(w) && w.flight == [] && wm <= w.enqSeq
    requires forall k :: 0 <= k < |actions| ==> KeepsFlight(actions[k])
    ensures w.rows == [] ==> w.flushedSeq >= wm
    ensures w.rows != [] ==> Land(ActAll(TakeOff(w), actions)).flushedSeq >= wm
  {
    if w.rows != [] {
      TakeOffKeepsShape(w);
      FlightStaysOpen(TakeOff(w), actions);
    }
  }
}
