/**
 A worker that is left alone catches up: once the feed is quiet and requests and
 writes succeed, every round brings it nearer, from any reachable state, stale
 instance and aged-out position included.
 */
module CatchUp {
  import opened LastWriteWins
  import opened FeedLog
  import opened CatalogPaging
  import opened CursorCodec
  import opened WorkerLoop
  import opened Pipeline
  import opened NoGap
  import opened Convergence

  /** What one round is free to choose: time, limit and near-duplicates, what is written, whether the save succeeds. */
  datatype Round = Round(now: int, request: Request, writes: seq<OfferWrite>, table: Table, saveOk: bool)

  function Fetch(s: State, r: Round): State
    requires s.epoch in s.logs
  {
    if s.cs.phase == Catalog then FetchCatalog(s, r.now, r.request, r.writes, r.saveOk)
    else FetchOffers(s, r.request.limit, r.writes, r.saveOk)
  }

  /** One turn of the loop: fetch a page and, if there is one, process it. */
  ghost function Turned(s: State, r: Round): (s': State)
    requires s.epoch in s.logs
    ensures s'.epoch == s.epoch && s'.logs == s.logs && s'.catalog == s.catalog && s'.page.None?
  {
    var s1 := Fetch(s, r);
    if s1.page.Some? then ProcessPage(s1, r.table, true, r.saveOk) else s1
  }

  ghost function TurnedAll(s: State, rounds: seq<Round>): (s': State)
    requires s.epoch in s.logs
    ensures s'.epoch == s.epoch && s'.logs == s.logs && s'.catalog == s.catalog
  {
    if rounds == [] then s else Turned(TurnedAll(s, rounds[..|rounds| - 1]), rounds[|rounds| - 1])
  }

  /** Rounds a sync needs that starts over: one per product, and one even for an empty catalog. */
  function FreshRounds(s: State): nat {
    if s.catalog == [] then 1 else |s.catalog|
  }

  /** Rounds that remain after a sync that pinned position p. */
  function ReplayRounds(s: State, epoch: nat, p: nat): nat
    requires s.epoch in s.logs
  {
    if epoch != s.epoch || p > |s.logs[s.epoch]| || p < Horizon(|s.logs[s.epoch]|) then 1 + FreshRounds(s)
    else |s.logs[s.epoch]| - p
  }

  function Rank(s: State): nat
    requires s.epoch in s.logs
  {
    if s.cs.phase == Offers then ReplayRounds(s, s.cs.epoch, s.cs.seqNo)
    else if s.cs.catCursor <= 0 then FreshRounds(s)
    else if s.cs.epoch != s.epoch then 1 + FreshRounds(s)
    else (if s.cs.catCursor < |s.catalog| then |s.catalog| - s.cs.catCursor else 1)
         + ReplayRounds(s, s.cs.epoch, s.cs.seqNo)
  }

  lemma TurnKeepsInv(s: State, r: Round)
    requires Inv(s) && s.page.None? && r.request.limit > 0
    ensures Inv(Turned(s, r))
  {
    if s.cs.phase == Catalog {
      ServeCatalogKeepsInv(s, r.now, r.request, r.writes, r.saveOk);
    } else {
      ServeOffersKeepsInv(s, r.request.limit, r.writes, r.saveOk);
    }
    var s1 := Fetch(s, r);
    if s1.page.Some? {
      ProcessKeepsInv(s1, r.table, true, r.saveOk);
    }
  }

  /** A catalog round lists further products, ends the sync, or drops a position of another instance. */
  lemma CatalogTurnAdvances(s: State, r: Round)
    requires s.epoch in s.logs && s.page.None? && r.request.limit > 0
    requires s.cs.phase == Catalog && s.cs.catCursor >= 0
    ensures Rank(Turned(s, r)) < Rank(s)
  {
    PageShape(s.catalog, r.request.dupes, s.cs.catCursor, r.request.limit);
  }

  /** A replay round moves forward, or drops an unusable position; at the head it changes nothing. */
  lemma OffersTurnAdvances(s: State, r: Round)
    requires s.epoch in s.logs && s.page.None? && r.request.limit > 0 && s.cs.phase == Offers
    ensures if Rank(s) == 0 then Turned(s, r) == s else Rank(Turned(s, r)) < Rank(s)
  {}

  /** After `Rank(s)` rounds, whatever their limits, duplicates and failed saves, the worker has caught up. */
  lemma {:induction false} LeftAloneItCatchesUp(s: State, rounds: seq<Round>)
    requires Inv(s) && s.page.None?
    requires forall k :: 0 <= k < |rounds| ==> rounds[k].request.limit > 0
    ensures var s' := TurnedAll(s, rounds);
      && Inv(s') && s'.page.None?
      && Rank(s') <= (if |rounds| < Rank(s) then Rank(s) - |rounds| else 0)
      && (|rounds| >= Rank(s) ==> CaughtUp(s'))
  {
    if rounds != [] {
      var n := |rounds| - 1;
      LeftAloneItCatchesUp(s, rounds[..n]);
      var s1 := TurnedAll(s, rounds[..n]);
      TurnKeepsInv(s1, rounds[n]);
      if s1.cs.phase == Catalog {
        CatalogTurnAdvances(s1, rounds[n]);
      } else {
        OffersTurnAdvances(s1, rounds[n]);
      }
    }
  }

  /** A round whose page carries the feed's own values and whose table is the guarded upsert of it. */
  ghost predicate CleanRound(s: State, r: Round)
    requires s.epoch in s.logs
  {
    && r.request.limit > 0
    && (if s.cs.phase == Catalog then Clean(s, ServeCatalog(r.now, r.request, r.writes, r.saveOk))
        else Clean(s, ServeOffers(r.request.limit, r.writes, r.saveOk)))
    && r.table == Batch(s.table, r.writes)
  }

  ghost predicate CleanRounds(s: State, rounds: seq<Round>)
    requires s.epoch in s.logs
  {
    forall k :: 0 <= k < |rounds| ==> CleanRound(TurnedAll(s, rounds[..k]), rounds[k])
  }

  lemma FetchIsClean(s: State, r: Round)
    requires CleanInv(s) && s.page.None? && CleanRound(s, r)
    ensures CleanInv(Fetch(s, r))
  {
    if s.cs.phase == Catalog {
      FetchCatalogIsClean(s, r.now, r.request, r.writes, r.saveOk);
    } else {
      FetchOffersIsClean(s, r.request.limit, r.writes, r.saveOk);
    }
  }

  lemma FetchedPage(s: State, r: Round)
    requires s.epoch in s.logs && s.page.None?
    ensures var s1 := Fetch(s, r); s1.table == s.table && (s1.page.Some? ==> s1.page.value.writes == r.writes)
  {}

  lemma TurnIsClean(s: State, r: Round)
    requires CleanInv(s) && s.page.None? && CleanRound(s, r)
    ensures CleanInv(Turned(s, r))
  {
    FetchIsClean(s, r);
    FetchedPage(s, r);
    if Fetch(s, r).page.Some? {
      ProcessIsClean(Fetch(s, r), r.table, true, r.saveOk);
    }
  }

  /**
   So a worker that is left alone converges: from any state of the convergence
   invariant, after `Rank(s)` clean rounds or more its table shows the feed's current
   offers.
   */
  lemma {:induction false} LeftAloneItConverges(s: State, rounds: seq<Round>)
    requires CleanInv(s) && s.page.None? && CleanRounds(s, rounds)
    ensures var s' := TurnedAll(s, rounds);
      && CleanInv(s') && s'.page.None?
      && (|rounds| >= Rank(s) ==> CaughtUp(s') && ShowsCurrentOffers(s'))
  {
    if rounds != [] {
      var n := |rounds| - 1;
      forall k | 0 <= k < n ensures CleanRound(TurnedAll(s, rounds[..n][..k]), rounds[..n][k]) {
        assert rounds[..n][..k] == rounds[..k];
      }
      LeftAloneItConverges(s, rounds[..n]);
      TurnIsClean(TurnedAll(s, rounds[..n]), rounds[n]);
    }
    LeftAloneItCatchesUp(s, rounds);
    if CaughtUp(TurnedAll(s, rounds)) {
      CaughtUpShowsCurrent(TurnedAll(s, rounds));
    }
  }

  /** What the worker's HTTP request is answered in this round. */
  function ReplyTo(s: State, r: Round): Reply
    requires s.epoch in s.logs
  {
    if s.cs.phase == Catalog then Served(s.epoch, CatalogPage(s, r.request, r.writes).body)
    else
      match Since(s.logs[s.epoch], s.cs.seqNo, r.request.limit)
      case Gone => Expired
      case Window(us, more) => Served(s.epoch, OffersPage(s, us, more, r.writes).body)
  }

  /** A round of the protocol moves the position exactly as one turn of the worker's loop does. */
  lemma RoundIsTurn(s: State, r: Round)
    requires s.epoch in s.logs && s.page.None?
    ensures var s' := Turned(s, r);
      Position(s'.cs, s'.saved) == Turn(Position(s.cs, s.saved), ReplyTo(s, r), true, r.saveOk)
  {}

  /**
   The worker rests after a processed page of the change feed exactly when the page
   took it to the head of the log it was answered from; any backlog is fetched at once.
   */
  lemma IdleMeansHead(s: State, r: Round)
    requires Inv(s) && s.page.None? && s.cs.phase == Offers && r.request.limit > 0
    requires s.cs.epoch == s.epoch && s.cs.seqNo + MAX_BUFFERED >= |s.Log()|
    ensures var reply := ReplyTo(s, r);
      && reply.Served? && reply.body.Replayed?
      && (reply.body.empty || !reply.body.hasMore <==> Turned(s, r).cs.seqNo == |s.Log()|)
      && (reply.body.empty <==> s.cs.seqNo == |s.Log()|)
  {}
}
