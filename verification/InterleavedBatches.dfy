/**
 Batches of several workers on one store, interleaved (internal/ingest/store.go:
 104-198). Each retailer has one worker. A batch reads the held prices, judges its
 SKUs one by one against the shared streaks, and sends its statement; steps of other
 workers may fall between any two of these.
 */
module InterleavedBatches {
  import opened Prices
  import opened Normalization
  import opened SpikeStreak
  import opened OfferStore
  import opened StoreClass
  import opened BatchHistory

  /** A batch under way: the held prices it read, the SKUs judged so far and the rows accepted. */
  datatype Work = Work(ids: Products, bySku: map<string, Normalized>, held: map<nat, int>, done: seq<string>, accepted: seq<Chosen>)

  /** The shared tables, and each retailer's batch under way. */
  datatype Shared = Shared(offers: Offers, streaks: Streaks, work: map<int, Work>)

  datatype Act =
    | ReadHeld(retailer: int, ids: Products, bySku: map<string, Normalized>)
    | JudgeOne(retailer: int, sku: string)
    | Send(retailer: int, rows: seq<Chosen>, ok: bool)

  function HeldAt(offers: Offers, retailer: int, ids: Products): map<nat, int> {
    map p | p in ids.Values && OfferKey(retailer, p) in offers :: offers[OfferKey(retailer, p)].cents
  }

  function Judged(s: Shared, r: int, sku: string): Shared
    requires r in s.work && sku in s.work[r].bySku
  {
    var w := s.work[r];
    if sku !in w.ids then s.(work := s.work[r := w.(done := w.done + [sku])])
    else
      var p, it := w.ids[sku], w.bySku[sku];
      var k := OfferKey(r, p);
      var streak := if k in s.streaks then s.streaks[k] else 0;
      if p in w.held && Suspect(w.held[p], it.cents) && streak + 1 < SPIKE_ACCEPT_AFTER
      then Shared(s.offers, s.streaks[k := streak + 1], s.work[r := w.(done := w.done + [sku])])
      else Shared(s.offers, s.streaks - {k}, s.work[r := w.(done := w.done + [sku], accepted := w.accepted + [Chosen(p, it)])])
  }

  /** The statement carries the accepted rows in product order. */
  ghost predicate Sendable(w: Work, rows: seq<Chosen>) {
    (forall sku :: sku in w.bySku ==> sku in w.done) && multiset(rows) == multiset(w.accepted) && ByProduct(rows)
  }

  ghost function Step(s: Shared, a: Act): Shared {
    match a
    case ReadHeld(r, ids, bySku) =>
      if r in s.work then s else s.(work := s.work[r := Work(ids, bySku, HeldAt(s.offers, r, ids), [], [])])
    case JudgeOne(r, sku) =>
      if r in s.work && sku in s.work[r].bySku && sku !in s.work[r].done then Judged(s, r, sku) else s
    case Send(r, rows, ok) =>
      if r in s.work && Sendable(s.work[r], rows)
      then Shared(if ok then PutAll(s.offers, r, rows) else s.offers, s.streaks, s.work - {r}) else s
  }

  ghost function Run(s: Shared, acts: seq<Act>): Shared {
    if acts == [] then s else Step(Run(s, acts[..|acts| - 1]), acts[|acts| - 1])
  }

  /** The acts of one retailer's worker. */
  function Only(acts: seq<Act>, r: int): seq<Act> {
    if acts == [] then []
    else Only(acts[..|acts| - 1], r) + if acts[|acts| - 1].retailer == r then [acts[|acts| - 1]] else []
  }

  /** What retailer r's worker can see of the store. */
  ghost predicate SameFor(s: Shared, t: Shared, r: int) {
    && (forall p: nat :: CellAt(s.offers, s.streaks, OfferKey(r, p)) == CellAt(t.offers, t.streaks, OfferKey(r, p)))
    && (r in s.work <==> r in t.work) && (r in s.work ==> s.work[r] == t.work[r])
  }

  // --- no interference ---

  lemma {:induction false} PutAllElsewhere(offers: Offers, retailer: int, rows: seq<Chosen>, k: OfferKey)
    requires k.retailer != retailer
    ensures Lookup(PutAll(offers, retailer, rows), k) == Lookup(offers, k)
  {
    if rows != [] {
      PutAllElsewhere(offers, retailer, rows[..|rows| - 1], k);
    }
  }

  lemma OthersDoNotInterfere(s: Shared, a: Act, r: int)
    requires a.retailer != r
    ensures SameFor(Step(s, a), s, r)
  {
    forall p: nat
      ensures CellAt(Step(s, a).offers, Step(s, a).streaks, OfferKey(r, p)) == CellAt(s.offers, s.streaks, OfferKey(r, p))
    {
      if a.Send? {
        PutAllElsewhere(s.offers, a.retailer, a.rows, OfferKey(r, p));
      }
    }
  }

  lemma {:induction false} PutAllSame(offers: Offers, offers': Offers, r: int, rows: seq<Chosen>, p: nat)
    requires forall q: nat :: Lookup(offers, OfferKey(r, q)) == Lookup(offers', OfferKey(r, q))
    ensures Lookup(PutAll(offers, r, rows), OfferKey(r, p)) == Lookup(PutAll(offers', r, rows), OfferKey(r, p))
  {
    if rows != [] {
      var n := |rows| - 1;
      PutAllSame(offers, offers', r, rows[..n], p);
      PutAllSame(offers, offers', r, rows[..n], rows[n].product);
    }
  }

  lemma SameRows(s: Shared, t: Shared, r: int)
    requires SameFor(s, t, r)
    ensures forall q: nat :: Lookup(s.offers, OfferKey(r, q)) == Lookup(t.offers, OfferKey(r, q))
  {
    forall q: nat ensures Lookup(s.offers, OfferKey(r, q)) == Lookup(t.offers, OfferKey(r, q)) {
      assert CellAt(s.offers, s.streaks, OfferKey(r, q)) == CellAt(t.offers, t.streaks, OfferKey(r, q));
    }
  }

  lemma SameHeld(s: Shared, t: Shared, r: int, ids: Products)
    requires SameFor(s, t, r)
    ensures HeldAt(s.offers, r, ids) == HeldAt(t.offers, r, ids)
  {
    SameRows(s, t, r);
    forall p: nat ensures p in HeldAt(s.offers, r, ids) <==> p in HeldAt(t.offers, r, ids)
      ensures p in HeldAt(s.offers, r, ids) ==> HeldAt(s.offers, r, ids)[p] == HeldAt(t.offers, r, ids)[p]
    {
      assert Lookup(s.offers, OfferKey(r, p)) == Lookup(t.offers, OfferKey(r, p));
    }
  }

  lemma OwnJudgeSame(s: Shared, t: Shared, r: int, sku: string)
    requires SameFor(s, t, r)
    ensures SameFor(Step(s, JudgeOne(r, sku)), Step(t, JudgeOne(r, sku)), r)
  {
    if r in s.work && sku in s.work[r].bySku && sku in s.work[r].ids {
      var k := OfferKey(r, s.work[r].ids[sku]);
      assert CellAt(s.offers, s.streaks, k) == CellAt(t.offers, t.streaks, k);
    }
  }

  /** A worker's step depends on, and does, only what its retailer can see. */
  lemma OwnStepSame(s: Shared, t: Shared, a: Act)
    requires SameFor(s, t, a.retailer)
    ensures SameFor(Step(s, a), Step(t, a), a.retailer)
  {
    var r := a.retailer;
    match a
    case ReadHeld(_, ids, _) => SameHeld(s, t, r, ids);
    case JudgeOne(_, sku) =>
      OwnJudgeSame(s, t, r, sku);
    case Send(_, rows, _) =>
      SameRows(s, t, r);
      forall p: nat
        ensures CellAt(Step(s, a).offers, Step(s, a).streaks, OfferKey(r, p)) == CellAt(Step(t, a).offers, Step(t, a).streaks, OfferKey(r, p))
      {
        assert CellAt(s.offers, s.streaks, OfferKey(r, p)) == CellAt(t.offers, t.streaks, OfferKey(r, p));
        PutAllSame(s.offers, t.offers, r, rows, p);
      }
  }

  /** In any interleaving, retailer r's worker sees what it would see if it ran alone. */
  lemma {:induction false} InterleavingIsInvisible(s: Shared, acts: seq<Act>, r: int)
    ensures SameFor(Run(s, acts), Run(s, Only(acts, r)), r)
  {
    if acts != [] {
      var n := |acts| - 1;
      var own := Only(acts[..n], r);
      InterleavingIsInvisible(s, acts[..n], r);
      if acts[n].retailer == r {
        OwnStepSame(Run(s, acts[..n]), Run(s, own), acts[n]);
        assert (own + [acts[n]])[..|own|] == own;
      } else {
        OthersDoNotInterfere(Run(s, acts[..n]), acts[n], r);
        assert Only(acts, r) == own;
      }
    }
  }

  // --- a batch that runs alone is atomic ---

  function Judges(r: int, order: seq<string>): seq<Act> {
    seq(|order|, i requires 0 <= i < |order| => JudgeOne(r, order[i]))
  }

  function Members(order: seq<string>): set<string> {
    set sku | sku in order
  }

  lemma RunAppends(s: Shared, acts: seq<Act>, a: Act)
    ensures Run(s, acts + [a]) == Step(Run(s, acts), a)
  {
    assert (acts + [a])[..|acts|] == acts;
  }

  /** After judging the SKUs of `done`, their streaks have moved and their rows are collected. */
  ghost predicate Reached(b: Batch, t: Shared, done: seq<string>)
    requires forall sku :: sku in done ==> sku in b.bySku
  {
    && t.offers == b.offers && b.retailer in t.work
    && t.work[b.retailer] == Work(b.ids, b.bySku, HeldAt(b.offers, b.retailer, b.ids), done, b.Outcomes(done).accepted)
    && StreaksAfter(b, Members(done), t.streaks)
  }

  /** One SKU against the held price and the streak: exactly the verdict of the batch, on its own offer's streak only. */
  lemma JudgeIsVerdict(b: Batch, t: Shared, sku: string)
    requires sku in b.bySku && sku in b.ids && b.retailer in t.work && t.work[b.retailer].ids == b.ids
    requires t.work[b.retailer].bySku == b.bySku && t.work[b.retailer].held == HeldAt(b.offers, b.retailer, b.ids)
    requires CellAt(b.offers, t.streaks, b.KeyOf(sku)).streak == b.Cell(sku).streak
    ensures var t' := Judged(t, b.retailer, sku);
      && CellAt(b.offers, t'.streaks, b.KeyOf(sku)).streak == Observe(b.Cell(sku), b.bySku[sku]).streak
      && (forall j :: j != b.KeyOf(sku) ==> CellAt(b.offers, t'.streaks, j) == CellAt(b.offers, t.streaks, j))
      && t'.work[b.retailer].accepted == t.work[b.retailer].accepted + b.OutcomeOf(sku).accepted
  {
    assert b.ids[sku] in b.ids.Values;
  }

  lemma JudgeMovesStreaks(b: Batch, t: Shared, done: seq<string>, sku: string)
    requires b.Ok() && sku in b.bySku && sku !in done && (forall x :: x in done ==> x in b.bySku)
    requires Reached(b, t, done)
    ensures StreaksAfter(b, Members(done) + {sku}, Judged(t, b.retailer, sku).streaks)
  {
    if sku in b.ids {
      JudgeIsVerdict(b, t, sku);
      TakeSku(b, Members(done), sku, t.streaks, Judged(t, b.retailer, sku).streaks);
    }
  }

  lemma JudgeCollects(b: Batch, t: Shared, done: seq<string>, sku: string)
    requires b.Ok() && sku in b.bySku && sku !in done && (forall x :: x in done ==> x in b.bySku)
    requires Reached(b, t, done)
    ensures var w := Judged(t, b.retailer, sku).work[b.retailer];
      w == t.work[b.retailer].(done := done + [sku], accepted := b.Outcomes(done).accepted + b.OutcomeOf(sku).accepted)
  {
    if sku in b.ids {
      JudgeIsVerdict(b, t, sku);
    }
  }

  lemma OutcomesMore(b: Batch, done: seq<string>, sku: string)
    requires sku in b.bySku && forall x :: x in done ==> x in b.bySku
    ensures b.Outcomes(done + [sku]).accepted == b.Outcomes(done).accepted + b.OutcomeOf(sku).accepted
    ensures Members(done + [sku]) == Members(done) + {sku}
  {
    assert (done + [sku])[..|done|] == done;
  }

  lemma JudgeReaches(b: Batch, t: Shared, done: seq<string>, sku: string)
    requires b.Ok() && sku in b.bySku && sku !in done && (forall x :: x in done ==> x in b.bySku)
    requires Reached(b, t, done)
    ensures Reached(b, Step(t, JudgeOne(b.retailer, sku)), done + [sku])
  {
    JudgeMovesStreaks(b, t, done, sku);
    JudgeCollects(b, t, done, sku);
    OutcomesMore(b, done, sku);
    assert Step(t, JudgeOne(b.retailer, sku)) == Judged(t, b.retailer, sku);
  }

  lemma {:induction false} JudgesReach(b: Batch, s: Shared, done: seq<string>)
    requires b.Ok() && b.offers == s.offers && b.streaks == s.streaks && b.retailer !in s.work
    requires (forall sku :: sku in done ==> sku in b.bySku) && forall i, j :: 0 <= i < j < |done| ==> done[i] != done[j]
    ensures Reached(b, Run(s, [ReadHeld(b.retailer, b.ids, b.bySku)] + Judges(b.retailer, done)), done)
  {
    var read := [ReadHeld(b.retailer, b.ids, b.bySku)];
    if done == [] {
      assert read + Judges(b.retailer, done) == [] + read;
      RunAppends(s, [], read[0]);
    } else {
      var n := |done| - 1;
      JudgesReach(b, s, done[..n]);
      assert done == done[..n] + [done[n]];
      assert read + Judges(b.retailer, done) == read + Judges(b.retailer, done[..n]) + [JudgeOne(b.retailer, done[n])];
      RunAppends(s, read + Judges(b.retailer, done[..n]), JudgeOne(b.retailer, done[n]));
      JudgeReaches(b, Run(s, read + Judges(b.retailer, done[..n])), done[..n], done[n]);
    }
  }

  /** The steps of one batch, its SKUs taken in any order. */
  function BatchActs(b: Batch, order: seq<string>, rows: seq<Chosen>, ok: bool): seq<Act> {
    [ReadHeld(b.retailer, b.ids, b.bySku)] + Judges(b.retailer, order) + [Send(b.retailer, rows, ok)]
  }

  /** Alone, a batch that gets as far as its statement is one atomic attempt. */
  lemma AloneIsAtomic(b: Batch, s: Shared, order: seq<string>, rows: seq<Chosen>, ok: bool)
    requires b.Ok() && b.offers == s.offers && b.streaks == s.streaks && b.retailer !in s.work
    requires Enumerates(order, b.bySku.Keys) && multiset(rows) == multiset(b.Outcomes(order).accepted) && ByProduct(rows)
    ensures var t := Run(s, BatchActs(b, order, rows, ok));
      Leaves(b, if ok then Stored else Lost, t.offers, t.streaks) && b.retailer !in t.work
  {
    var judged := [ReadHeld(b.retailer, b.ids, b.bySku)] + Judges(b.retailer, order);
    JudgesReach(b, s, order);
    RunAppends(s, judged, Send(b.retailer, rows, ok));
    assert Members(order) == b.bySku.Keys;
    if ok {
      SortedRowsObserve(b, order, rows, Run(s, judged).streaks);
    }
  }

  /**
   Whatever other workers do in between, a batch moves every offer of its retailer
   exactly as one atomic attempt would: what it sights is let through, held back or
   lost by its own offer's row and streak alone.
   */
  lemma InterleavedBatchIsAtomic(b: Batch, s: Shared, acts: seq<Act>, order: seq<string>, rows: seq<Chosen>, ok: bool, p: nat)
    requires b.Ok() && b.offers == s.offers && b.streaks == s.streaks && b.retailer !in s.work
    requires Enumerates(order, b.bySku.Keys) && multiset(rows) == multiset(b.Outcomes(order).accepted) && ByProduct(rows)
    requires Only(acts, b.retailer) == BatchActs(b, order, rows, ok)
    ensures var t, k := Run(s, acts), OfferKey(b.retailer, p);
      CellAt(t.offers, t.streaks, k)
      == SightAll(CellAt(s.offers, s.streaks, k), Sees(b, if ok then Stored else Lost, k))
  {
    InterleavingIsInvisible(s, acts, b.retailer);
    AloneIsAtomic(b, s, order, rows, ok);
    var alone := Run(s, BatchActs(b, order, rows, ok));
    BatchSights(b, if ok then Stored else Lost, alone.offers, alone.streaks, OfferKey(b.retailer, p));
  }
}
