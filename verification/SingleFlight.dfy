/**
 Request coalescing in the read-through cache (internal/api/cache.go:41-68), with
 any number of concurrent requests. Each action is one step between which other
 requests may run: the cache lookup, the critical section on entry, the fill, the
 removal from `inflight`, the close of the channel, and a follower's receive. A
 fill may also panic, which the HTTP server recovers from; nothing after the fill
 is then done.
 */
module SingleFlight {
  import opened Wrappers

  /** One fill in progress or past. `closes` counts how often its channel has been closed. */
  datatype Flight<K, R> = Flight(key: K, leader: nat, result: Option<R>, closes: nat)

  /** The state the cache guards: every flight ever started, and which are registered. */
  datatype Board<K(==), R> = Board(flights: seq<Flight<K, R>>, inflight: map<K, nat>)

  /** How a request came by its answer: from the cache, as leader of a flight, or as its follower. */
  datatype Source = FromCache | Led(f: nat) | Followed(f: nat)

  datatype Progress<R> =
    | Missed
    | Filling(f: nat)
    | Filled(f: nat)
    | Panicked(f: nat)
    | Removed(f: nat)
    | Waiting(f: nat)
    | Answered(result: R, source: Source)
    | GaveUp

  datatype Request<K, R> = Request(key: K, at: Progress<R>)

  datatype State<K(==), R> = State(board: Board<K, R>, requests: seq<Request<K, R>>)

  datatype Action<K, R> =
    | Arrive(key: K, cached: Option<R>)
    | Enter(r: nat)
    | Fill(r: nat, result: R)
    | Panic(r: nat)
    | Remove(r: nat)
    | Close(r: nat)
    | Receive(r: nat)
    | Cancel(r: nat)

  /** The critical section on entry: join the registered flight, or register a new one. */
  function Join<K, R>(b: Board<K, R>, key: K, r: nat): (Board<K, R>, Progress<R>) {
    if key in b.inflight then (b, Waiting(b.inflight[key]))
    else
      var f := |b.flights|;
      (Board(b.flights + [Flight(key, r, None, 0)], b.inflight[key := f]), Filling(f))
  }

  function SetResult<K, R>(b: Board<K, R>, f: nat, result: R): Board<K, R> {
    if f < |b.flights| then b.(flights := b.flights[f := b.flights[f].(result := Some(result))]) else b
  }

  function Unregister<K, R>(b: Board<K, R>, key: K): Board<K, R> {
    b.(inflight := b.inflight - {key})
  }

  function CloseFlight<K, R>(b: Board<K, R>, f: nat): Board<K, R> {
    if f < |b.flights| then b.(flights := b.flights[f := b.flights[f].(closes := b.flights[f].closes + 1)]) else b
  }

  function Moved<K, R>(s: State<K, R>, b: Board<K, R>, r: nat, at: Progress<R>): State<K, R>
    requires r < |s.requests|
  {
    State(b, s.requests[r := s.requests[r].(at := at)])
  }

  function Step<K, R>(s: State<K, R>, a: Action<K, R>): State<K, R> {
    if !a.Arrive? && a.r >= |s.requests| then s
    else
      match a
      case Arrive(key, cached) =>
        s.(requests := s.requests
             + [Request(key, if cached.Some? then Answered(cached.value, FromCache) else Missed)])
      case Enter(r) =>
        if !s.requests[r].at.Missed? then s
        else
          var (b, at) := Join(s.board, s.requests[r].key, r);
          Moved(s, b, r, at)
      case Fill(r, result) =>
        if !s.requests[r].at.Filling? then s
        else Moved(s, SetResult(s.board, s.requests[r].at.f, result), r, Filled(s.requests[r].at.f))
      case Panic(r) =>
        if !s.requests[r].at.Filling? then s
        else Moved(s, s.board, r, Panicked(s.requests[r].at.f))
      case Remove(r) =>
        if !s.requests[r].at.Filled? then s
        else Moved(s, Unregister(s.board, s.requests[r].key), r, Removed(s.requests[r].at.f))
      case Close(r) =>
        if !s.requests[r].at.Removed? then s
        else
          var f := s.requests[r].at.f;
          if f < |s.board.flights| && s.board.flights[f].result.Some? then
            Moved(s, CloseFlight(s.board, f), r, Answered(s.board.flights[f].result.value, Led(f)))
          else s
      case Receive(r) =>
        if !s.requests[r].at.Waiting? then s
        else
          var f := s.requests[r].at.f;
          if f < |s.board.flights| && s.board.flights[f].closes > 0 && s.board.flights[f].result.Some? then
            Moved(s, s.board, r, Answered(s.board.flights[f].result.value, Followed(f)))
          else s
      case Cancel(r) =>
        if s.requests[r].at.Waiting? then Moved(s, s.board, r, GaveUp) else s
  }

  function Run<K, R>(s: State<K, R>, actions: seq<Action<K, R>>): State<K, R> {
    if actions == [] then s else Step(Run(s, actions[..|actions| - 1]), actions[|actions| - 1])
  }

  function Start<K, R>(): State<K, R> {
    State(Board([], map[]), [])
  }

  /** What holds of request r, given its progress. */
  ghost predicate RequestOk<K, R>(s: State<K, R>, r: nat)
    requires r < |s.requests|
  {
    var b, q := s.board, s.requests[r];
    match q.at
    case Missed => true
    case Filling(f) =>
      f < |b.flights| && b.flights[f] == Flight(q.key, r, None, 0) && q.key in b.inflight && b.inflight[q.key] == f
    case Panicked(f) =>
      f < |b.flights| && b.flights[f] == Flight(q.key, r, None, 0) && q.key in b.inflight && b.inflight[q.key] == f
    case Filled(f) =>
      && f < |b.flights| && b.flights[f].key == q.key && b.flights[f].leader == r
      && b.flights[f].result.Some? && b.flights[f].closes == 0 && q.key in b.inflight && b.inflight[q.key] == f
    case Removed(f) =>
      && f < |b.flights| && b.flights[f].key == q.key && b.flights[f].leader == r
      && b.flights[f].result.Some? && b.flights[f].closes == 0
    case Waiting(f) => f < |b.flights| && b.flights[f].key == q.key && b.flights[f].leader != r
    case Answered(result, Led(f)) =>
      && f < |b.flights| && b.flights[f].leader == r && b.flights[f].result == Some(result) && b.flights[f].closes == 1
    case Answered(result, Followed(f)) =>
      && f < |b.flights| && b.flights[f].key == q.key && b.flights[f].leader != r
      && b.flights[f].result == Some(result) && b.flights[f].closes == 1
    case Answered(_, FromCache) => true
    case GaveUp => true
  }

  /** Each flight is with its leader: filling, filled, removed, closed and answered, or stuck in a panic. */
  ghost predicate FlightOk<K, R>(s: State<K, R>, f: nat)
    requires f < |s.board.flights|
  {
    var x := s.board.flights[f];
    && x.leader < |s.requests|
    && var at := s.requests[x.leader].at;
       (at == Filling(f) || at == Filled(f) || at == Panicked(f) || at == Removed(f)
        || (at.Answered? && at.source == Led(f)))
  }

  /** Its leader has registered the flight and not yet removed it. */
  predicate Holds<R(==)>(at: Progress<R>, f: nat) {
    at == Filling(f) || at == Filled(f) || at == Panicked(f)
  }

  ghost predicate RegistryOk<K, R>(s: State<K, R>) {
    forall key :: key in s.board.inflight ==>
      var f := s.board.inflight[key];
      && f < |s.board.flights| && s.board.flights[f].key == key && s.board.flights[f].leader < |s.requests|
      && Holds(s.requests[s.board.flights[f].leader].at, f)
  }

  ghost predicate Inv<K, R>(s: State<K, R>) {
    && (forall r :: 0 <= r < |s.requests| ==> RequestOk(s, r))
    && (forall f :: 0 <= f < |s.board.flights| ==> FlightOk(s, f))
    && RegistryOk(s)
  }

  /** A closed flight has been closed once, and its leader has its result. */
  lemma ClosedOnce<K, R>(s: State<K, R>, f: nat)
    requires Inv(s) && f < |s.board.flights| && s.board.flights[f].closes > 0
    ensures s.board.flights[f].closes == 1 && s.board.flights[f].result.Some?
    ensures var x := s.board.flights[f];
      x.leader < |s.requests| && s.requests[x.leader].at == Answered(x.result.value, Led(f))
  {
    assert FlightOk(s, f);
    assert RequestOk(s, s.board.flights[f].leader);
  }

  /** A step of one request leaves what holds of every other request alone. */
  lemma OtherRequestKept<K, R>(s: State<K, R>, a: Action<K, R>, r: nat)
    requires Inv(s) && r < |s.requests| && (a.Arrive? || a.r != r)
    ensures RequestOk(Step(s, a), r)
  {
    assert RequestOk(s, r);
    if !a.Arrive? && a.r < |s.requests| {
      assert RequestOk(s, a.r);
    }
  }

  lemma OwnRequestKept<K, R>(s: State<K, R>, a: Action<K, R>)
    requires Inv(s) && !a.Arrive? && a.r < |s.requests|
    ensures RequestOk(Step(s, a), a.r)
  {
    assert RequestOk(s, a.r);
    if a.Enter? && s.requests[a.r].at.Missed? && s.requests[a.r].key in s.board.inflight {
      assert FlightOk(s, s.board.inflight[s.requests[a.r].key]);
    }
    if a.Receive? && s.requests[a.r].at.Waiting? && s.board.flights[s.requests[a.r].at.f].closes > 0 {
      ClosedOnce(s, s.requests[a.r].at.f);
    }
  }

  lemma RequestsKept<K, R>(s: State<K, R>, a: Action<K, R>)
    requires Inv(s)
    ensures forall r :: 0 <= r < |Step(s, a).requests| ==> RequestOk(Step(s, a), r)
  {
    forall r | 0 <= r < |Step(s, a).requests|
      ensures RequestOk(Step(s, a), r)
    {
      if r < |s.requests| && (a.Arrive? || a.r != r) {
        OtherRequestKept(s, a, r);
      } else if !a.Arrive? {
        OwnRequestKept(s, a);
      }
    }
  }

  lemma FlightsKept<K, R>(s: State<K, R>, a: Action<K, R>)
    requires Inv(s)
    ensures forall f :: 0 <= f < |Step(s, a).board.flights| ==> FlightOk(Step(s, a), f)
  {
    var s' := Step(s, a);
    forall f | 0 <= f < |s'.board.flights|
      ensures FlightOk(s', f)
    {
      if f < |s.board.flights| {
        assert FlightOk(s, f);
      }
      if !a.Arrive? && a.r < |s.requests| {
        assert RequestOk(s, a.r);
      }
    }
  }

  lemma RegistryKept<K, R>(s: State<K, R>, a: Action<K, R>)
    requires Inv(s)
    ensures RegistryOk(Step(s, a))
  {
    if !a.Arrive? && a.r < |s.requests| {
      assert RequestOk(s, a.r);
    }
  }

  lemma StepKeepsInv<K, R>(s: State<K, R>, a: Action<K, R>)
    requires Inv(s)
    ensures Inv(Step(s, a))
  {
    RequestsKept(s, a);
    FlightsKept(s, a);
    RegistryKept(s, a);
  }

  lemma {:induction false} RunKeepsInv<K, R>(actions: seq<Action<K, R>>)
    ensures Inv(Run(Start<K, R>(), actions))
  {
    if actions != [] {
      RunKeepsInv<K, R>(actions[..|actions| - 1]);
      StepKeepsInv(Run(Start<K, R>(), actions[..|actions| - 1]), actions[|actions| - 1]);
    }
  }

  /** In every reachable state at most one fill per key is running. */
  lemma OneFillPerKey<K, R>(actions: seq<Action<K, R>>, a: nat, b: nat)
    requires var s := Run(Start<K, R>(), actions);
      && a < |s.requests| && b < |s.requests|
      && s.requests[a].at.Filling? && s.requests[b].at.Filling? && s.requests[a].key == s.requests[b].key
    ensures a == b
  {
    RunKeepsInv(actions);
    var s := Run(Start<K, R>(), actions);
    assert RequestOk(s, a) && RequestOk(s, b);
  }

  /** `inflight` holds exactly the flights whose leader has registered and not yet removed them. */
  lemma InflightIsExact<K, R>(actions: seq<Action<K, R>>, key: K, f: nat)
    ensures var s := Run(Start<K, R>(), actions);
      (key in s.board.inflight && s.board.inflight[key] == f) <==>
      (f < |s.board.flights| && s.board.flights[f].key == key
       && exists r :: 0 <= r < |s.requests| && s.requests[r].key == key && Holds(s.requests[r].at, f))
  {
    RunKeepsInv(actions);
    var s := Run(Start<K, R>(), actions);
    if key in s.board.inflight && s.board.inflight[key] == f {
      assert RequestOk(s, s.board.flights[f].leader);
    }
    if r :| 0 <= r < |s.requests| && s.requests[r].key == key && Holds(s.requests[r].at, f) {
      assert RequestOk(s, r);
    }
  }

  /**
   Every follower that is answered has exactly its leader's result, for its own
   key, and the leader has been answered with it too; the channel was closed once,
   after the result was set.
   */
  lemma FollowersGetTheLeadersResult<K, R>(actions: seq<Action<K, R>>, r: nat)
    requires var s := Run(Start<K, R>(), actions);
      r < |s.requests| && s.requests[r].at.Answered? && s.requests[r].at.source.Followed?
    ensures var s := Run(Start<K, R>(), actions);
      var f := s.requests[r].at.source.f;
      && f < |s.board.flights| && s.board.flights[f].key == s.requests[r].key && s.board.flights[f].closes == 1
      && s.board.flights[f].leader < |s.requests| && s.board.flights[f].leader != r
      && s.requests[s.board.flights[f].leader].at == Answered(s.requests[r].at.result, Led(f))
  {
    RunKeepsInv(actions);
    var s := Run(Start<K, R>(), actions);
    assert RequestOk(s, r);
    ClosedOnce(s, s.requests[r].at.source.f);
  }

  /**
   While a follower waits, either the channel is closed and it can receive, or its
   leader has a step to take that brings the close nearer, or the fill has panicked.
   That last case is the only way to get stuck, and it is for good.
   */
  lemma WaitersAreServed<K, R>(actions: seq<Action<K, R>>, r: nat, result: R)
    requires var s := Run(Start<K, R>(), actions); r < |s.requests| && s.requests[r].at.Waiting?
    ensures var s := Run(Start<K, R>(), actions);
      var f := s.requests[r].at.f;
      && f < |s.board.flights|
      && var l := s.board.flights[f].leader;
         && l < |s.requests|
         && Step(s, Cancel(r)) == State(s.board, s.requests[r := s.requests[r].(at := GaveUp)])
         && (s.board.flights[f].closes == 1 ==> Step(s, Receive(r)).requests[r].at.Answered?)
         && (s.board.flights[f].closes == 0 ==>
               match s.requests[l].at
               case Filling(_) => Step(s, Fill(l, result)).requests[l].at == Filled(f)
               case Filled(_) => Step(s, Remove(l)).requests[l].at == Removed(f)
               case Removed(_) => Step(s, Close(l)).board.flights[f].closes == 1
               case Panicked(g) => g == f
               case _ => false)
  {
    RunKeepsInv(actions);
    var s := Run(Start<K, R>(), actions);
    assert RequestOk(s, r);
    var f := s.requests[r].at.f;
    assert FlightOk(s, f);
    assert RequestOk(s, s.board.flights[f].leader);
  }

  /** Request l's fill has panicked: its flight is registered and open, and nobody fills its key. */
  ghost predicate Wedged<K, R>(s: State<K, R>, l: nat) {
    && l < |s.requests| && s.requests[l].at.Panicked?
    && var f, key := s.requests[l].at.f, s.requests[l].key;
       && f < |s.board.flights| && s.board.flights[f].closes == 0
       && key in s.board.inflight && s.board.inflight[key] == f
       && forall r :: 0 <= r < |s.requests| && s.requests[r].key == key ==> !s.requests[r].at.Filling?
  }

  lemma PanickedIsWedged<K, R>(s: State<K, R>, l: nat)
    requires Inv(s) && l < |s.requests| && s.requests[l].at.Panicked?
    ensures Wedged(s, l)
  {
    assert RequestOk(s, l);
    forall r | 0 <= r < |s.requests| && s.requests[r].key == s.requests[l].key
      ensures !s.requests[r].at.Filling?
    {
      assert RequestOk(s, r);
    }
  }

  lemma StepKeepsRequest<K, R>(s: State<K, R>, a: Action<K, R>, r: nat)
    requires r < |s.requests|
    ensures r < |Step(s, a).requests|
    ensures s.requests[r].at.Panicked? || s.requests[r].at.GaveUp? ==> Step(s, a).requests[r] == s.requests[r]
    ensures s.requests[r].at.Waiting? && s.requests[r].at.f < |s.board.flights| && s.board.flights[s.requests[r].at.f].closes == 0 ==>
      Step(s, a).requests[r] == s.requests[r] || Step(s, a).requests[r].at == GaveUp
  {}

  /**
   A panicked fill wedges its key: whatever happens afterwards, its flight stays
   registered and open, nobody fills that key again, and a follower of the flight can
   only go on waiting or give up.
   */
  lemma {:induction false} PanicWedgesKey<K, R>(s: State<K, R>, actions: seq<Action<K, R>>, l: nat)
    requires Inv(s) && l < |s.requests| && s.requests[l].at.Panicked?
    ensures var s' := Run(s, actions);
      && Inv(s') && |s.requests| <= |s'.requests| && Wedged(s', l) && s'.requests[l] == s.requests[l]
      && forall r :: 0 <= r < |s.requests| && s.requests[r].at == Waiting(s.requests[l].at.f) ==>
           s'.requests[r].at in {Waiting(s.requests[l].at.f), GaveUp}
  {
    if actions == [] {
      PanickedIsWedged(s, l);
    } else {
      var n := |actions| - 1;
      PanicWedgesKey(s, actions[..n], l);
      StepKeepsWedge(s, Run(s, actions[..n]), actions[n], l);
    }
  }

  lemma StepKeepsWedge<K, R>(s0: State<K, R>, s: State<K, R>, a: Action<K, R>, l: nat)
    requires Inv(s) && Wedged(s, l) && |s0.requests| <= |s.requests|
    requires forall r :: 0 <= r < |s0.requests| && s0.requests[r].at == Waiting(s.requests[l].at.f) ==>
      s.requests[r].at in {Waiting(s.requests[l].at.f), GaveUp}
    ensures var s' := Step(s, a);
      && Inv(s') && |s0.requests| <= |s'.requests| && Wedged(s', l) && s'.requests[l] == s.requests[l]
      && forall r :: 0 <= r < |s0.requests| && s0.requests[r].at == Waiting(s.requests[l].at.f) ==>
           s'.requests[r].at in {Waiting(s.requests[l].at.f), GaveUp}
  {
    StepKeepsInv(s, a);
    StepKeepsRequest(s, a, l);
    PanickedIsWedged(Step(s, a), l);
    forall r | 0 <= r < |s0.requests| && s0.requests[r].at == Waiting(s.requests[l].at.f)
      ensures Step(s, a).requests[r].at in {Waiting(s.requests[l].at.f), GaveUp}
    {
      StepKeepsRequest(s, a, r);
    }
  }

  lemma RunAppends<K, R>(s: State<K, R>, actions: seq<Action<K, R>>, a: Action<K, R>)
    ensures Run(s, actions + [a]) == Step(Run(s, actions), a)
  {
    assert (actions + [a])[..|actions|] == actions;
  }

  /** A run that gets there: one request whose fill panics, and one that waits for it. */
  lemma PanicRun<K, R>(key: K)
    ensures var s := Run(Start<K, R>(), [Arrive(key, None)] + [Enter(0)] + [Panic(0)] + [Arrive(key, None)] + [Enter(1)]);
      s.requests == [Request(key, Panicked(0)), Request(key, Waiting(0))] && Inv(s) && Wedged(s, 0)
  {
    var s0 := Start<K, R>();
    var arrive: Action<K, R> := Arrive(key, None);
    var a := [arrive] + [Enter(0)];
    var b := a + [Panic(0)] + [arrive];
    assert [] + [arrive] == [arrive];
    RunAppends(s0, [], arrive);
    RunAppends(s0, [arrive], Enter(0));
    RunAppends(s0, a, Panic(0));
    RunAppends(s0, a + [Panic(0)], arrive);
    RunAppends(s0, b, Enter(1));
    RunKeepsInv(b + [Enter(1)]);
    PanickedIsWedged(Run(s0, b + [Enter(1)]), 0);
  }
}
