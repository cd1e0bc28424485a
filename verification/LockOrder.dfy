/**
 Concurrent batch statements and their row locks (internal/ingest/store.go:154-156,
 220-247). A statement takes its locks in the order its rows are listed and
 releases them all when it commits.
 */
module LockOrder {
  import opened Ordering

  datatype Session<L> = Session(locks: seq<L>, taken: nat, done: bool)

  type Sessions<L> = seq<Session<L>>

  ghost predicate WellFormed<L(!new)>(lt: (L, L) -> bool, ss: Sessions<L>) {
    forall w :: 0 <= w < |ss| ==> ss[w].taken <= |ss[w].locks| && Ascending(lt, ss[w].locks)
  }

  predicate Holds<L(==)>(x: Session<L>, l: L) {
    !x.done && x.taken <= |x.locks| && l in x.locks[..x.taken]
  }

  /** The session has taken all its locks and may commit, or nobody else holds its next one. */
  ghost predicate CanStep<L>(ss: Sessions<L>, w: int) {
    && 0 <= w < |ss| && !ss[w].done && ss[w].taken <= |ss[w].locks|
    && (ss[w].taken < |ss[w].locks| ==>
          forall v :: 0 <= v < |ss| && v != w ==> !Holds(ss[v], ss[w].locks[ss[w].taken]))
  }

  function Step<L>(ss: Sessions<L>, w: nat): Sessions<L>
    requires w < |ss|
  {
    if ss[w].taken < |ss[w].locks| then ss[w := ss[w].(taken := ss[w].taken + 1)] else ss[w := ss[w].(done := true)]
  }

  /** No lock is ever held by two sessions. */
  ghost predicate Exclusive<L(!new)>(ss: Sessions<L>) {
    forall v, w, l :: 0 <= v < w < |ss| ==> !(Holds(ss[v], l) && Holds(ss[w], l))
  }

  lemma StepKeepsExclusion<L(!new)>(lt: (L, L) -> bool, ss: Sessions<L>, w: int)
    requires WellFormed(lt, ss) && Exclusive(ss) && CanStep(ss, w)
    ensures WellFormed(lt, Step(ss, w)) && Exclusive(Step(ss, w))
  {
    var ss' := Step(ss, w);
    forall v, u, l | 0 <= v < u < |ss|
      ensures !(Holds(ss'[v], l) && Holds(ss'[u], l))
    {
      assert !(Holds(ss[v], l) && Holds(ss[u], l));
    }
  }

  /** A blocked session: unfinished, and its next lock is held by another. */
  ghost predicate Blocked<L>(ss: Sessions<L>, w: int) {
    && 0 <= w < |ss| && !ss[w].done && ss[w].taken < |ss[w].locks|
    && exists v :: 0 <= v < |ss| && v != w && Holds(ss[v], ss[w].locks[ss[w].taken])
  }

  function Wants<L>(ss: Sessions<L>, w: int): L
    requires 0 <= w < |ss| && ss[w].taken < |ss[w].locks|
  {
    ss[w].locks[ss[w].taken]
  }

  /** Among the first n sessions, a blocked one that waits for the greatest lock. */
  lemma {:induction false} GreatestWaiter<L(!new)>(lt: (L, L) -> bool, ss: Sessions<L>, n: nat, some: int) returns (w: int)
    requires StrictOrder(lt) && n <= |ss|
    requires 0 <= some < n && Blocked(ss, some)
    ensures 0 <= w < n && Blocked(ss, w)
    ensures forall v :: 0 <= v < n && Blocked(ss, v) ==> !lt(Wants(ss, w), Wants(ss, v))
  {
    if n - 1 == some && forall v :: 0 <= v < n - 1 ==> !Blocked(ss, v) {
      w := some;
    } else {
      var other := some;
      if n - 1 == some {
        other :| 0 <= other < n - 1 && Blocked(ss, other);
      }
      w := GreatestWaiter(lt, ss, n - 1, other);
      if Blocked(ss, n - 1) && lt(Wants(ss, w), Wants(ss, n - 1)) {
        w := n - 1;
      }
    }
  }

  /** Whoever holds the greatest lock waited for wants something greater still, so it is not blocked. */
  lemma HolderCanStep<L(!new)>(lt: (L, L) -> bool, ss: Sessions<L>, m: int, h: int)
    requires StrictOrder(lt) && WellFormed(lt, ss) && Blocked(ss, m)
    requires forall v :: 0 <= v < |ss| && Blocked(ss, v) ==> !lt(Wants(ss, m), Wants(ss, v))
    requires 0 <= h < |ss| && Holds(ss[h], Wants(ss, m))
    ensures CanStep(ss, h)
  {
    if ss[h].taken < |ss[h].locks| {
      var k :| 0 <= k < ss[h].taken && ss[h].locks[k] == Wants(ss, m);
      assert lt(Wants(ss, m), Wants(ss, h));
    }
  }

  /**
   Deadlock freedom for any number of sessions: if every statement lists its
   locks in one common order, then whenever a session is unfinished, some session
   can step.
   */
  lemma OrderedLockingNeverDeadlocks<L(!new)>(lt: (L, L) -> bool, ss: Sessions<L>, some: int) returns (w: int)
    requires StrictOrder(lt) && WellFormed(lt, ss)
    requires 0 <= some < |ss| && !ss[some].done
    ensures CanStep(ss, w)
  {
    if CanStep(ss, some) {
      w := some;
    } else {
      assert Blocked(ss, some);
      var m := GreatestWaiter(lt, ss, |ss|, some);
      w :| 0 <= w < |ss| && w != m && Holds(ss[w], Wants(ss, m));
      HolderCanStep(lt, ss, m, w);
    }
  }

  function Work<L>(ss: Sessions<L>): nat {
    if ss == [] then 0
    else
      var x := ss[|ss| - 1];
      Work(ss[..|ss| - 1])
        + (if x.done then 0 else if x.taken <= |x.locks| then |x.locks| - x.taken + 1 else 1)
  }

  lemma {:induction false} StepDoesWork<L>(ss: Sessions<L>, w: nat)
    requires w < |ss| && !ss[w].done && ss[w].taken <= |ss[w].locks|
    ensures Work(Step(ss, w)) == Work(ss) - 1
  {
    var n := |ss| - 1;
    if w < n {
      StepDoesWork(ss[..n], w);
      assert Step(ss, w)[..n] == Step(ss[..n], w);
    } else {
      assert Step(ss, w)[..n] == ss[..n];
    }
  }

  /** The sessions after these steps. */
  function Play<L>(ss: Sessions<L>, sched: seq<nat>): (end: Sessions<L>)
    requires forall k :: 0 <= k < |sched| ==> sched[k] < |ss|
    ensures |end| == |ss|
    ensures forall w :: 0 <= w < |ss| ==> end[w].locks == ss[w].locks
  {
    if sched == [] then ss else Step(Play(ss, sched[..|sched| - 1]), sched[|sched| - 1])
  }

  /** A schedule the lock table allows: each step is enabled where it is taken. */
  ghost predicate Legal<L>(ss: Sessions<L>, sched: seq<nat>) {
    && (forall k :: 0 <= k < |sched| ==> sched[k] < |ss|)
    && (forall k :: 0 <= k < |sched| ==> CanStep(Play(ss, sched[..k]), sched[k]))
  }

  ghost predicate AllDone<L>(ss: Sessions<L>) {
    forall w :: 0 <= w < |ss| ==> ss[w].done
  }

  lemma LegalBefore<L>(ss: Sessions<L>, sched: seq<nat>, n: nat)
    requires Legal(ss, sched) && n <= |sched|
    ensures Legal(ss, sched[..n])
  {
    forall k | 0 <= k < n ensures CanStep(Play(ss, sched[..n][..k]), sched[..n][k]) {
      assert sched[..n][..k] == sched[..k];
    }
  }

  lemma LegalExtends<L>(ss: Sessions<L>, sched: seq<nat>, w: nat)
    requires Legal(ss, sched) && CanStep(Play(ss, sched), w)
    ensures Legal(ss, sched + [w]) && Play(ss, sched + [w]) == Step(Play(ss, sched), w)
  {
    assert (sched + [w])[..|sched|] == sched;
    forall k | 0 <= k < |sched| + 1 ensures CanStep(Play(ss, (sched + [w])[..k]), (sched + [w])[k]) {
      assert k < |sched| ==> (sched + [w])[..k] == sched[..k];
    }
  }

  /** On every legal schedule no lock is ever shared, and each step does one unit of work. */
  lemma {:induction false} LegalKeepsExclusion<L(!new)>(lt: (L, L) -> bool, ss: Sessions<L>, sched: seq<nat>)
    requires WellFormed(lt, ss) && Exclusive(ss) && Legal(ss, sched)
    ensures var end := Play(ss, sched);
      WellFormed(lt, end) && Exclusive(end) && Work(end) == Work(ss) - |sched|
  {
    if sched != [] {
      var n := |sched| - 1;
      LegalBefore(ss, sched, n);
      LegalKeepsExclusion(lt, ss, sched[..n]);
      StepKeepsExclusion(lt, Play(ss, sched[..n]), sched[n]);
      StepDoesWork(Play(ss, sched[..n]), sched[n]);
    }
  }

  lemma {:induction false} NoWorkMeansDone<L>(ss: Sessions<L>)
    ensures Work(ss) == 0 <==> AllDone(ss)
  {
    if ss != [] {
      var n := |ss| - 1;
      NoWorkMeansDone(ss[..n]);
      assert AllDone(ss) <==> AllDone(ss[..n]) && ss[n].done;
    }
  }

  /**
   However the steps are scheduled: a legal schedule has at most `Work` steps, and
   the point where nothing can step any more is the point where it has exactly that
   many, which is the point where every session has committed.
   */
  lemma EveryScheduleCompletes<L(!new)>(lt: (L, L) -> bool, ss: Sessions<L>, sched: seq<nat>)
    requires StrictOrder(lt) && WellFormed(lt, ss) && Exclusive(ss) && Legal(ss, sched)
    ensures forall k :: 0 <= k <= |sched| ==> WellFormed(lt, Play(ss, sched[..k])) && Exclusive(Play(ss, sched[..k]))
    ensures |sched| <= Work(ss)
    ensures |sched| == Work(ss) <==> AllDone(Play(ss, sched))
    ensures AllDone(Play(ss, sched)) <==> forall w :: !CanStep(Play(ss, sched), w)
  {
    forall k | 0 <= k <= |sched|
      ensures WellFormed(lt, Play(ss, sched[..k])) && Exclusive(Play(ss, sched[..k]))
    {
      LegalBefore(ss, sched, k);
      LegalKeepsExclusion(lt, ss, sched[..k]);
    }
    var end := Play(ss, sched);
    LegalKeepsExclusion(lt, ss, sched);
    NoWorkMeansDone(end);
    if some :| 0 <= some < |end| && !end[some].done {
      var w := OrderedLockingNeverDeadlocks(lt, end, some);
    }
  }

  /** And any legal schedule can be continued to that point. */
  lemma {:induction false} AllStatementsComplete<L(!new)>(lt: (L, L) -> bool, ss: Sessions<L>, sched: seq<nat>) returns (full: seq<nat>)
    requires StrictOrder(lt) && WellFormed(lt, ss) && Exclusive(ss) && Legal(ss, sched)
    ensures sched <= full && Legal(ss, full) && |full| == Work(ss) && AllDone(Play(ss, full))
    decreases Work(ss) - |sched|
  {
    EveryScheduleCompletes(lt, ss, sched);
    var end := Play(ss, sched);
    if some :| 0 <= some < |end| && !end[some].done {
      LegalKeepsExclusion(lt, ss, sched);
      var w := OrderedLockingNeverDeadlocks(lt, end, some);
      LegalExtends(ss, sched, w);
      full := AllStatementsComplete(lt, ss, sched + [w]);
    } else {
      full := sched;
    }
  }

  /** The order matters: two statements that list the same two rows in opposite orders can block each other for good. */
  lemma OppositeOrdersDeadlock()
    ensures var ss := [Session([1, 2], 1, false), Session([2, 1], 1, false)];
      Exclusive(ss) && !CanStep(ss, 0) && !CanStep(ss, 1)
  {
    var ss := [Session([1, 2], 1, false), Session([2, 1], 1, false)];
    assert ss[0].locks[..1] == [1] && ss[1].locks[..1] == [2];
    assert Holds(ss[0], 1) && Holds(ss[1], 2);
  }
}
