/**
 One feed instance (internal/feedgen/stream.go): the ever-growing sequence of
 updates it has emitted, and what the feed promises about it.

 The feed itself keeps only a capped suffix of the log and an overlay of
 diverged offers. Everything it answers is stated here over the whole log.
 */
module FeedLog {
  import opened Floats
  import opened Wrappers

  datatype OfferState = OfferState(priceCents: nat, inStock: bool)

  /** What the deterministic universe says of a product at this retailer. */
  datatype Listing = Listing(carried: bool, base: OfferState)

  datatype Update = Update(seqNo: nat, product: nat, offer: OfferState, at: int)

  datatype Status = Active | Degraded | Dead

  const MAX_BUFFERED: nat := 200_000

  const PICK_TRIES: nat := 32

  /**
   The random choices behind one update: 32 candidate products, and a stock flip or
   a price factor. The factor is the effective one, the float product over the price,
   so its range allows for the rounding of the drawn factor and of the product.
   */
  datatype Draw = Draw(tries: seq<nat>, flip: bool, step: real)

  predicate ValidDraw(catalog: seq<Listing>, d: Draw) {
    && |d.tries| == PICK_TRIES
    && (forall k :: 0 <= k < PICK_TRIES ==> d.tries[k] < |catalog|)
    && 0.92 - 2.0 * EPS <= d.step <= 1.08 + 4.0 * EPS
  }

  ghost predicate Numbered(catalog: seq<Listing>, log: seq<Update>) {
    forall k :: 0 <= k < |log| ==>
      log[k].seqNo == k + 1 && log[k].product < |catalog| && catalog[log[k].product].carried
  }

  /** The state of product i after the whole log: its last update, or its base. */
  ghost function StateAt(catalog: seq<Listing>, log: seq<Update>, i: nat): OfferState
    requires i < |catalog|
  {
    if log == [] then catalog[i].base
    else if log[|log| - 1].product == i then log[|log| - 1].offer
    else StateAt(catalog, log[..|log| - 1], i)
  }

  /** The overlay of diverged offers after the whole log. */
  ghost function Overlay(log: seq<Update>): map<nat, OfferState> {
    if log == [] then map[]
    else Overlay(log[..|log| - 1])[log[|log| - 1].product := log[|log| - 1].offer]
  }

  /** Looking a product up in the overlay, with the base behind it, gives its current state. */
  lemma {:induction false} OverlayIsCurrent(catalog: seq<Listing>, log: seq<Update>, i: nat)
    requires i < |catalog|
    ensures StateAt(catalog, log, i) == if i in Overlay(log) then Overlay(log)[i] else catalog[i].base
  {
    if log != [] {
      OverlayIsCurrent(catalog, log[..|log| - 1], i);
    }
  }

  /** Updates of other products leave a product's state alone. */
  lemma {:induction false} StateUnmoved(catalog: seq<Listing>, log: seq<Update>, i: nat, q: nat, r: nat)
    requires i < |catalog| && q <= r <= |log|
    requires forall k :: q <= k < r ==> log[k].product != i
    ensures StateAt(catalog, log[..q], i) == StateAt(catalog, log[..r], i)
    decreases r
  {
    if q < r {
      assert log[..r][..r - 1] == log[..r - 1];
      StateUnmoved(catalog, log, i, q, r - 1);
    }
  }

  /** A product that was updated shows its last update. */
  lemma StateAfterUpdate(catalog: seq<Listing>, log: seq<Update>, i: nat, k: nat, hi: nat)
    requires i < |catalog| && k < hi <= |log| && log[k].product == i
    requires forall j :: k < j < hi ==> log[j].product != i
    ensures StateAt(catalog, log[..hi], i) == log[k].offer
  {
    assert log[..k + 1][k] == log[k];
    StateUnmoved(catalog, log, i, k + 1, hi);
  }

  /** One that was not shows its base. */
  lemma StateOfUntouched(catalog: seq<Listing>, log: seq<Update>, i: nat)
    requires i < |catalog| && forall k :: 0 <= k < |log| ==> log[k].product != i
    ensures StateAt(catalog, log, i) == catalog[i].base
  {
    assert log[..0] == [] && log[..|log|] == log;
    StateUnmoved(catalog, log, i, 0, |log|);
  }

  /** The overlay holds the products that were updated. */
  lemma {:induction false} OverlayKeys(log: seq<Update>)
    ensures Overlay(log).Keys == set k | 0 <= k < |log| :: log[k].product
  {
    if log != [] {
      var n := |log| - 1;
      OverlayKeys(log[..n]);
      assert log == log[..n] + [log[n]];
    }
  }

  /**
   A moved price: never below 99 cents, always ending in 99. The source
   truncates toward zero; for a negative product both that and the floor fall
   under the 99-cent minimum.
   */
  function StyledPrice(moved: real): (cents: nat)
    ensures cents >= 99
  {
    var cents := if moved.Floor < 99 then 99 else moved.Floor;
    cents - cents % 100 + 99
  }

  function MovePrice(cents: nat, step: real): nat {
    StyledPrice(cents as real * step)
  }

  function MoveOffer(cur: OfferState, d: Draw): OfferState {
    if d.flip then cur.(inStock := !cur.inStock)
    else cur.(priceCents := MovePrice(cur.priceCents, d.step))
  }

  lemma StyledEndsIn99(moved: real)
    ensures var cents := StyledPrice(moved);
      && cents % 100 == 99 && (moved < 99.0 ==> cents == 99)
      && (moved >= 99.0 ==> (cents - 99) as real <= moved < (cents + 1) as real)
  {}

  /**
   An update changes exactly one thing: a flip turns the stock around, any other draw
   moves the price to the 99-cent end of the hundred that the moved amount falls in, or
   to 99 cents.
   */
  lemma MoveChangesOneThing(cur: OfferState, d: Draw, moved: real)
    requires moved == cur.priceCents as real * d.step
    ensures var o := MoveOffer(cur, d);
      && (d.flip ==> o.inStock != cur.inStock && o.priceCents == cur.priceCents)
      && (!d.flip ==> o.inStock == cur.inStock && o.priceCents % 100 == 99)
      && (!d.flip && moved < 99.0 ==> o.priceCents == 99)
      && (!d.flip && moved >= 99.0 ==> (o.priceCents - 99) as real <= moved < (o.priceCents + 1) as real)
  {
    StyledEndsIn99(moved);
  }

  /** The first carried candidate, if any of the 32 is carried. */
  function Pick(catalog: seq<Listing>, tries: seq<nat>): (p: Option<nat>)
    requires forall k :: 0 <= k < |tries| ==> tries[k] < |catalog|
    ensures p.Some? ==> p.value < |catalog| && catalog[p.value].carried && p.value in tries
    ensures p.None? <==> forall k :: 0 <= k < |tries| ==> !catalog[tries[k]].carried
  {
    if tries == [] then None
    else if catalog[tries[0]].carried then Some(tries[0])
    else Pick(catalog, tries[1..])
  }

  /** It is the first one: every candidate before it is not carried. */
  lemma {:induction false} PickIsFirst(catalog: seq<Listing>, tries: seq<nat>) returns (k: nat)
    requires (forall j :: 0 <= j < |tries| ==> tries[j] < |catalog|) && Pick(catalog, tries).Some?
    ensures k < |tries| && tries[k] == Pick(catalog, tries).value && catalog[tries[k]].carried
    ensures forall j :: 0 <= j < k ==> !catalog[tries[j]].carried
  {
    if catalog[tries[0]].carried {
      k := 0;
    } else {
      var rest := PickIsFirst(catalog, tries[1..]);
      k := rest + 1;
      forall j | 0 <= j < k ensures !catalog[tries[j]].carried {
        assert j > 0 ==> tries[j] == tries[1..][j - 1];
      }
    }
  }

  /** The log after one draw: the picked offer's update, or nothing if no candidate is carried. */
  ghost function Drawn(catalog: seq<Listing>, log: seq<Update>, now: int, d: Draw): seq<Update>
    requires ValidDraw(catalog, d)
  {
    match Pick(catalog, d.tries)
    case None => log
    case Some(i) => log + [Update(|log| + 1, i, MoveOffer(StateAt(catalog, log, i), d), now)]
  }

  lemma NumberedAppends(catalog: seq<Listing>, log: seq<Update>, u: Update)
    requires Numbered(catalog, log)
    requires u.seqNo == |log| + 1 && u.product < |catalog| && catalog[u.product].carried
    ensures Numbered(catalog, log + [u])
  {}

  lemma OverlayAppends(log: seq<Update>, u: Update)
    ensures Overlay(log + [u]) == Overlay(log)[u.product := u.offer]
  {
    assert (log + [u])[..|log|] == log;
  }

  lemma SuffixAppends<T>(s: seq<T>, from: nat, x: T)
    requires from <= |s|
    ensures (s + [x])[from..] == s[from..] + [x]
  {}

  /** The log after a tick that makes these draws at time `now`. */
  ghost function Ticked(catalog: seq<Listing>, log: seq<Update>, now: int, draws: seq<Draw>): (log': seq<Update>)
    requires forall d :: d in draws ==> ValidDraw(catalog, d)
    ensures |log| <= |log'| <= |log| + |draws| && log'[..|log|] == log
    ensures Numbered(catalog, log) ==> Numbered(catalog, log')
    ensures forall k :: |log| <= k < |log'| ==> log'[k].at == now
  {
    if draws == [] then log
    else
      var n := |draws| - 1;
      assert ValidDraw(catalog, draws[n]);
      Drawn(catalog, Ticked(catalog, log, now, draws[..n]), now, draws[n])
  }

  /** Update k of a tick belongs to one draw: it changes the first carried candidate as that draw says, and nothing else. */
  lemma {:induction false} TickedMoves(catalog: seq<Listing>, log: seq<Update>, now: int, draws: seq<Draw>, k: nat) returns (n: nat)
    requires forall d :: d in draws ==> ValidDraw(catalog, d)
    requires |log| <= k < |Ticked(catalog, log, now, draws)|
    ensures n < |draws| && ValidDraw(catalog, draws[n]) && (forall d :: d in draws[..n] ==> ValidDraw(catalog, d))
    ensures |Ticked(catalog, log, now, draws[..n])| == k
    ensures var after := Ticked(catalog, log, now, draws); var u := after[k];
      && Pick(catalog, draws[n].tries) == Some(u.product) && u.product < |catalog| && u.seqNo == k + 1
      && u.offer == MoveOffer(StateAt(catalog, after[..k], u.product), draws[n])
  {
    var m := |draws| - 1;
    assert ValidDraw(catalog, draws[m]);
    var before := Ticked(catalog, log, now, draws[..m]);
    if k < |before| {
      n := TickedMoves(catalog, log, now, draws[..m], k);
      assert draws[..m][..n] == draws[..n];
      assert Ticked(catalog, log, now, draws)[..k] == before[..k];
    } else {
      n := m;
      assert Ticked(catalog, log, now, draws)[..k] == before;
    }
  }

  /** The oldest position still in the buffer. */
  function Horizon(n: nat): nat {
    if n <= MAX_BUFFERED then 0 else n - MAX_BUFFERED
  }

  /** What a request for updates after position `since` must be answered. */
  datatype Answer = Gone | Window(updates: seq<Update>, hasMore: bool)

  function Since(log: seq<Update>, since: nat, limit: nat): Answer {
    if since > |log| || since < Horizon(|log|) then Gone
    else
      var end := if since + limit < |log| then since + limit else |log|;
      Window(log[since..end], end < |log|)
  }

  /** Any two moments of one instance: the later log extends the earlier one. */
  ghost predicate Growing(logs: seq<seq<Update>>) {
    forall j, k :: 0 <= j <= k < |logs| ==> |logs[j]| <= |logs[k]| && logs[k][..|logs[j]|] == logs[j]
  }

  /** A consumer that keeps paging: request k sees logs[k], asks for limits[k], and stops at `Gone`. */
  datatype Drained = Drained(got: seq<Update>, next: nat, gone: bool)

  function Drain(logs: seq<seq<Update>>, limits: seq<nat>, since: nat): Drained
    requires |logs| == |limits|
  {
    if logs == [] then Drained([], since, false)
    else
      var n := |logs| - 1;
      var before := Drain(logs[..n], limits[..n], since);
      if before.gone then before
      else
        match Since(logs[n], before.next, limits[n])
        case Gone => before.(gone := true)
        case Window(us, _) => Drained(before.got + us, before.next + |us|, false)
  }

  lemma WindowExtends(prev: seq<Update>, last: seq<Update>, since: nat, next: nat, limit: nat)
    requires since <= next <= |prev| <= |last| && last[..|prev|] == prev
    ensures prev[since..next] == last[since..next]
    ensures Since(last, next, limit).Window? ==>
      var us := Since(last, next, limit).updates;
      next + |us| <= |last| && last[since..next] + us == last[since..next + |us|]
  {
    assert forall k :: since <= k < next ==> prev[k] == last[..|prev|][k];
  }

  /**
   Paging with any limits, whatever ticks fall in between, yields exactly the
   stretch of the log it claims to have covered: no gap and no repeat.
   */
  lemma {:induction false} DrainIsGapless(logs: seq<seq<Update>>, limits: seq<nat>, since: nat)
    requires |logs| == |limits| > 0 && Growing(logs) && since <= |logs[0]|
    ensures var d := Drain(logs, limits, since);
      && since <= d.next <= |logs[|logs| - 1]|
      && d.got == logs[|logs| - 1][since..d.next]
  {
    var n := |logs| - 1;
    var before := Drain(logs[..n], limits[..n], since);
    if n == 0 {
      WindowExtends(logs[0], logs[0], since, since, limits[0]);
    } else {
      assert logs[..n][n - 1] == logs[n - 1];
      DrainIsGapless(logs[..n], limits[..n], since);
      assert |logs[n - 1]| <= |logs[n]| && logs[n][..|logs[n - 1]|] == logs[n - 1];
      WindowExtends(logs[n - 1], logs[n], since, before.next, limits[n]);
    }
  }

  /**
   Against a feed that has gone quiet, a consumer whose position is still
   usable reaches the head: every positive limit makes progress, so one request
   per missing update is always enough.
   */
  lemma {:induction false} DrainReachesHead(log: seq<Update>, limits: seq<nat>, since: nat)
    requires Horizon(|log|) <= since <= |log|
    requires forall k :: 0 <= k < |limits| ==> limits[k] > 0
    ensures var d := Drain(seq(|limits|, _ => log), limits, since);
      && !d.gone
      && d.next >= (if since + |limits| < |log| then since + |limits| else |log|)
      && d.next <= |log|
  {
    if limits != [] {
      var n := |limits| - 1;
      DrainReachesHead(log, limits[..n], since);
      assert seq(|limits|, _ => log)[..n] == seq(n, _ => log);
    }
  }
}
