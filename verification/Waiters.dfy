/**
 WaitFlushed under every interleaving (internal/ingest/chwriter.go:79-97): any
 number of waiters, each with its own watermark, beside producers and flushes.
 */
module Waiters {
  import opened HistoryWriter

  /** A waiter about to look at the counter, blocked on a channel generation, or done. */
  datatype Wait = Looking(wm: nat) | Blocked(wm: nat, gen: nat) | Released(wm: nat) | Cancelled

  datatype Scene<E> = Scene(w: Writer<E>, waits: seq<Wait>)

  datatype Move<E> =
    | Write(a: Action<E>)
    | AddAndWait(evs: seq<E>)     // a worker adds a batch and starts waiting for its watermark
    | Look(id: nat)               // check under the lock, and take the channel if not there yet
    | Wake(id: nat)               // the channel taken earlier has been closed
    | Cancel(id: nat)

  function Next<E>(s: Scene<E>, m: Move<E>): Scene<E> {
    match m
    case Write(a) => s.(w := Act(s.w, a))
    case AddAndWait(evs) =>
      var w := Enqueue(s.w, evs);
      Scene(w, s.waits + [Looking(w.enqSeq)])
    case Look(id) =>
      if id < |s.waits| && s.waits[id].Looking? then
        var wm := s.waits[id].wm;
        s.(waits := s.waits[id := if s.w.flushedSeq >= wm then Released(wm) else Blocked(wm, s.w.gen)])
      else s
    case Wake(id) =>
      if id < |s.waits| && s.waits[id].Blocked? && s.waits[id].gen != s.w.gen then
        s.(waits := s.waits[id := Looking(s.waits[id].wm)])
      else s
    case Cancel(id) =>
      if id < |s.waits| && !s.waits[id].Released? then s.(waits := s.waits[id := Cancelled]) else s
  }

  function Play<E>(s: Scene<E>, moves: seq<Move<E>>): Scene<E> {
    if moves == [] then s else Next(Play(s, moves[..|moves| - 1]), moves[|moves| - 1])
  }

  /** What may be said of one waiter. */
  ghost predicate WaitOk<E>(w: Writer<E>, x: Wait) {
    match x
    case Looking(wm) => wm <= w.enqSeq
    case Blocked(wm, gen) => wm <= w.enqSeq && gen <= w.gen && (gen == w.gen ==> w.flushedSeq < wm)
    case Released(wm) => wm <= w.flushedSeq
    case Cancelled => true
  }

  ghost predicate SceneOk<E>(s: Scene<E>) {
    Shape(s.w) && forall id :: 0 <= id < |s.waits| ==> WaitOk(s.w, s.waits[id])
  }

  lemma WriteKeepsScene<E>(s: Scene<E>, a: Action<E>)
    requires SceneOk(s)
    ensures SceneOk(s.(w := Act(s.w, a))) && Act(s.w, a).enqSeq >= s.w.enqSeq
  {
    ActKeepsShape(s.w, a);
    forall id | 0 <= id < |s.waits| ensures WaitOk(Act(s.w, a), s.waits[id]) {
      assert WaitOk(s.w, s.waits[id]);
    }
  }

  lemma NextKeepsScene<E>(s: Scene<E>, m: Move<E>)
    requires SceneOk(s)
    ensures SceneOk(Next(s, m)) && Next(s, m).w.enqSeq >= s.w.enqSeq
  {
    match m
    case Write(a) => WriteKeepsScene(s, a);
    case AddAndWait(evs) => WriteKeepsScene(s, Add(evs));
    case _ =>
  }

  lemma {:induction false} PlayKeepsScene<E>(s: Scene<E>, moves: seq<Move<E>>)
    requires SceneOk(s)
    ensures SceneOk(Play(s, moves)) && Play(s, moves).w.enqSeq >= s.w.enqSeq
  {
    if moves != [] {
      PlayKeepsScene(s, moves[..|moves| - 1]);
      NextKeepsScene(Play(s, moves[..|moves| - 1]), moves[|moves| - 1]);
    }
  }

  /**
   No lost wakeup: in every reachable scene a waiter blocked on the current
   channel is rightly blocked, and something is buffered or in flight that will
   close the channel; every other blocked waiter can wake at once.
   */
  lemma NoLostWakeup<E>(maxPending: nat, moves: seq<Move<E>>, id: nat)
    requires var s := Play(Scene(Empty(maxPending), []), moves); id < |s.waits| && s.waits[id].Blocked?
    ensures var s := Play(Scene(Empty(maxPending), []), moves); var x := s.waits[id];
      if x.gen == s.w.gen then s.w.flushedSeq < x.wm && (s.w.rows != [] || s.w.flight != [])
      else Next(s, Wake(id)).waits[id] == Looking(x.wm)
  {
    PlayKeepsScene(Scene(Empty(maxPending), []), moves);
  }

  /**
   A worker waits for all it has added, and only with the counter past it is it
   released: then its rows are written or dropped, unless a flight is still open.
   */
  lemma ReleasedWithOwnRows<E>(s: Scene<E>, evs: seq<E>, moves: seq<Move<E>>)
    requires SceneOk(s)
    requires var s' := Play(Next(s, AddAndWait(evs)), moves);
      |s.waits| < |s'.waits| && s'.waits[|s.waits|].Released? && s'.w.flight == []
    ensures var s' := Play(Next(s, AddAndWait(evs)), moves);
      forall n :: s.w.enqSeq <= n < s.w.enqSeq + |evs| ==> n in Settled(s'.w)
  {
    var s1 := Next(s, AddAndWait(evs));
    NextKeepsScene(s, AddAndWait(evs));
    PlayKeepsScene(s1, moves);
    WatermarkStays(s1, moves, |s.waits|, s1.w.enqSeq);
    ReleasedMeansSettled(Play(s1, moves).w, s1.w.enqSeq);
  }

  /** A wait keeps its watermark until it is released or cancelled. */
  lemma {:induction false} WatermarkStays<E>(s: Scene<E>, moves: seq<Move<E>>, id: nat, wm: nat)
    requires id < |s.waits| && !s.waits[id].Cancelled? && s.waits[id].wm == wm
    ensures id < |Play(s, moves).waits|
    ensures Play(s, moves).waits[id].Cancelled? || Play(s, moves).waits[id].wm == wm
  {
    if moves != [] {
      WatermarkStays(s, moves[..|moves| - 1], id, wm);
    }
  }

  /** Moves that do not end a flight. */
  predicate Quiet<E>(m: Move<E>) {
    m.Write? ==> KeepsFlight(m.a)
  }

  lemma {:induction false} QuietKeepsFlight<E>(s: Scene<E>, moves: seq<Move<E>>)
    requires SceneOk(s) && s.w.flight != []
    requires forall k :: 0 <= k < |moves| ==> Quiet(moves[k])
    ensures Play(s, moves).w.flight == s.w.flight && SceneOk(Play(s, moves))
    ensures Play(s, moves).w.flushedSeq >= s.w.flushedSeq
  {
    PlayKeepsScene(s, moves);
    if moves != [] {
      QuietKeepsFlight(s, moves[..|moves| - 1]);
      var before := Play(s, moves[..|moves| - 1]);
      match moves[|moves| - 1]
      case Write(a) => ActKeepsShape(before.w, a);
      case AddAndWait(evs) => ActKeepsShape(before.w, Add(evs));
      case _ =>
    }
  }

  /**
   Progress: once a flush that takes off after a watermark was issued succeeds,
   no waiter at or below that watermark can stay blocked. It wakes, looks, and is
   released, whatever was added, dropped or cancelled meanwhile.
   */
  lemma FlushReleasesWaiters<E>(s: Scene<E>, moves: seq<Move<E>>, id: nat)
    requires SceneOk(s) && s.w.flight == [] && s.w.rows != []
    requires forall k :: 0 <= k < |moves| ==> Quiet(moves[k])
    requires var done := Next(Play(Next(s, Write(Begin)), moves), Write(Succeed));
      id < |done.waits| && (done.waits[id].Blocked? || done.waits[id].Looking?) && done.waits[id].wm <= s.w.enqSeq
    ensures var done := Next(Play(Next(s, Write(Begin)), moves), Write(Succeed));
      Next(Next(done, Wake(id)), Look(id)).waits[id] == Released(done.waits[id].wm)
  {
    var open := Next(s, Write(Begin));
    NextKeepsScene(s, Write(Begin));
    QuietKeepsFlight(open, moves);
    NextKeepsScene(Play(open, moves), Write(Succeed));
  }
}
