/**
 Three runs that leave a wrong offer at the head of the log: an update between a
 product's listing and the pin, an update between a product's read and its stamp, and
 one tick that updates a product twice. In all of them the worker is up to date by
 every sign it can see.
 */
module MissedUpdates {
  import opened Wrappers
  import opened LastWriteWins
  import opened FeedLog
  import opened CatalogPaging
  import opened CursorCodec
  import opened WorkerLoop
  import opened Pipeline
  import opened Convergence
  import opened TiedReplay
  import opened SplitResponse
  import opened SplitConvergence

  ghost predicate Reaches(f0: Split, xs: seq<SplitStep>, f: Split)
    requires f0.s.epoch in f0.s.logs
  {
    CleanSplitRun(f0, xs) && ExecSplit(f0, xs) == f
  }

  lemma Then(f0: Split, xs: seq<SplitStep>, f: Split, x: SplitStep, f': Split)
    requires f0.s.epoch in f0.s.logs && f.s.epoch in f.s.logs
    requires Reaches(f0, xs, f) && CleanSplit(f, x) && f' == DoSplit(f, x)
    ensures Reaches(f0, xs + [x], f')
  {
    assert (xs + [x])[..|xs|] == xs;
  }

  const ONE := Request(1, {})

  /** With a limit of one and no near-duplicates, a page from a carried product holds just that product. */
  lemma OneProduct(catalog: seq<Listing>, i: nat)
    requires i < |catalog| && catalog[i].carried
    ensures Start(catalog, i) == i && End(catalog, {}, i, 1) == i + 1
  {
    assert ItemCount(catalog, {}, i, i) == 0;
    assert ItemCount(catalog, {}, i, i + 1) == 1;
    assert PageEnd(catalog, {}, i, 1, i) == PageEnd(catalog, {}, i, 1, i + 1) == i + 1;
  }

  /** The worker is between pages of its sync, at product i. */
  ghost predicate Between(f: Split, i: nat) {
    && f.s.epoch in f.s.logs && |f.s.Log()| < 1000 && f.open.None? && f.s.page.None?
    && f.s.cs.phase == Catalog && f.s.cs.catCursor == i < |f.s.catalog| && f.s.catalog[i].carried
    && (i > 0 ==> f.s.cs.epoch == f.s.epoch)
  }

  /** When the feed ticks inside the response, and what it draws. */
  datatype Gap = Gap(now: int, draws: seq<Draw>)

  ghost predicate GapOk(s: State, g: Gap)
    requires s.epoch in s.logs
  {
    && g.now >= s.clock && |g.draws| < 1000 && |s.Log()| < 1000
    && (forall d :: d in g.draws ==> ValidDraw(s.catalog, d))
  }

  /** Product i has been read and not yet stamped, and the feed has then ticked. */
  lemma ReadAndTick(f0: Split, xs: seq<SplitStep>, f: Split, i: nat, g: Gap) returns (ys: seq<SplitStep>, f': Split)
    requires f0.s.epoch in f0.s.logs && Between(f, i) && Reaches(f0, xs, f) && GapOk(f.s, g)
    ensures Reaches(f0, ys, f')
    ensures f'.s == TickFeed(f.s, g.now, g.draws) && f'.last == f.last
    ensures f'.open == Some(Response(ONE, i, Some(Half(|f.s.Log()|, StateAt(f.s.catalog, f.s.Log(), i))), map[]))
  {
    OneProduct(f.s.catalog, i);
    var f1 := f.(open := Some(Response(ONE, i, None, map[])));
    Then(f0, xs, f, Open(ONE), f1);
    var f2 := f.(open := Some(Response(ONE, i, Some(Half(|f.s.Log()|, StateAt(f.s.catalog, f.s.Log(), i))), map[])));
    Then(f0, xs + [Open(ONE)], f1, Read, f2);
    f' := f2.(s := TickFeed(f.s, g.now, g.draws));
    Then(f0, xs + [Open(ONE)] + [Read], f2, Other(Tick(g.now, g.draws)), f');
    ys := xs + [Open(ONE)] + [Read] + [Other(Tick(g.now, g.draws))];
  }

  /** It has been stamped at time `now`, and the feed has ticked again. */
  lemma StampAndTick(f0: Split, xs: seq<SplitStep>, f: Split, i: nat, h: Half, now: int, g: Gap) returns (ys: seq<SplitStep>, f': Split)
    requires f0.s.epoch in f0.s.logs && f.s.epoch in f.s.logs && Reaches(f0, xs, f)
    requires f.open == Some(Response(ONE, i, Some(h), map[]))
    requires now >= f.s.clock && GapOk(f.s.(clock := now), g)
    ensures Reaches(f0, ys, f')
    ensures f'.s == TickFeed(f.s, g.now, g.draws) && f'.last == f.last
    ensures f'.open == Some(Response(ONE, i + 1, None, map[i := Entry(h.read, h.val, now)]))
  {
    var open := Some(Response(ONE, i + 1, None, map[i := Entry(h.read, h.val, now)]));
    TickNothing(f.s, now);
    var f1 := f.(s := f.s.(clock := now), open := open);
    Then(f0, xs, f, Stamp(now), f1);
    f' := f1.(s := TickFeed(f1.s, g.now, g.draws));
    Then(f0, xs + [Stamp(now)], f1, Other(Tick(g.now, g.draws)), f');
    ys := xs + [Stamp(now)] + [Other(Tick(g.now, g.draws))];
  }

  lemma EmptyTick(s: State, now: int)
    requires s.epoch in s.logs
    ensures TickFeed(s, now, []) == s.(clock := now)
  {
    assert s.logs[s.epoch := s.Log()] == s.logs;
  }

  lemma WrongRow(s: State, i: nat)
    requires s.epoch in s.logs && i < |s.catalog| && s.catalog[i].carried
    requires i in s.table && s.table[i].val != StateAt(s.catalog, s.Log(), i)
    ensures !ShowsCurrentOffers(s)
  {}

  lemma TickNothing(s: State, now: int)
    requires s.epoch in s.logs && |s.Log()| < 1000
    ensures Do(s, Tick(now, [])) == s.(clock := now)
  {
    EmptyTick(s, now);
  }

  /** The position after the page of product i: at the next product, or past the sync. */
  function After(s: State, i: nat, head: nat): CursorState {
    var pinned := if i == 0 then s.cs.(epoch := s.epoch, seqNo := head) else s.cs;
    if i + 1 < |s.catalog| then pinned.(catCursor := i + 1) else pinned.(phase := Offers, catCursor := 0)
  }

  /** The page of product i, and the state in which the worker holds it. */
  ghost function Closing(s: State, i: nat, e: Entry): Page
    requires s.epoch in s.logs
  {
    Page(s.epoch, i, i + 1, Listed(if i + 1 < |s.catalog| then Some(i + 1) else None, |s.Log()|), [Write(i, e.val, e.at)])
  }

  ghost function Holding(f: Split, i: nat, e: Entry): Split
    requires f.s.epoch in f.s.logs
  {
    var p := Closing(f.s, i, e);
    Split(if i == 0 then f.s.(cs := f.s.cs.(epoch := f.s.epoch, seqNo := p.body.asOf), pin := p.body.asOf, page := Some(p))
          else f.s.(page := Some(p)),
          None, map[i := e], f.last)
  }

  lemma CloseOne(f: Split, i: nat, e: Entry)
    requires f.s.epoch in f.s.logs && f.s.page.None?
    requires f.s.cs.phase == Catalog && f.s.cs.catCursor == i < |f.s.catalog| && f.s.catalog[i].carried
    requires i > 0 ==> f.s.cs.epoch == f.s.epoch
    requires f.open == Some(Response(ONE, i + 1, None, map[i := e]))
    ensures var x := Close(f.s.clock, [Write(i, e.val, e.at)], true);
      CleanSplit(f, x) && DoSplit(f, x) == Holding(f, i, e)
  {
    OneProduct(f.s.catalog, i);
    assert CatalogPage(f.s, ONE, [Write(i, e.val, e.at)]) == Closing(f.s, i, e);
  }

  /** The response closes, and its page is processed. */
  lemma CloseAndProcess(f0: Split, xs: seq<SplitStep>, f: Split, i: nat, e: Entry) returns (ys: seq<SplitStep>, f': Split)
    requires f0.s.epoch in f0.s.logs && f.s.epoch in f.s.logs && Reaches(f0, xs, f) && f.s.page.None?
    requires f.s.cs.phase == Catalog && f.s.cs.catCursor == i < |f.s.catalog| && f.s.catalog[i].carried
    requires i > 0 ==> f.s.cs.epoch == f.s.epoch
    requires f.open == Some(Response(ONE, i + 1, None, map[i := e]))
    ensures Reaches(f0, ys, f') && f'.open.None? && f'.s.page.None?
    ensures f'.s.catalog == f.s.catalog && f'.s.epoch == f.s.epoch && f'.s.logs == f.s.logs && f'.s.clock == f.s.clock
    ensures f'.s.table == Batch(f.s.table, [Write(i, e.val, e.at)]) && f'.s.cs == After(f.s, i, |f.s.Log()|)
  {
    var close := Close(f.s.clock, [Write(i, e.val, e.at)], true);
    var f1 := Holding(f, i, e);
    CloseOne(f, i, e);
    Then(f0, xs, f, close, f1);
    ys, f' := ProcessOne(f0, xs + [close], f1);
  }

  lemma ProcessOne(f0: Split, xs: seq<SplitStep>, f: Split) returns (ys: seq<SplitStep>, f': Split)
    requires f0.s.epoch in f0.s.logs && f.s.epoch in f.s.logs && Reaches(f0, xs, f) && f.s.page.Some?
    ensures Reaches(f0, ys, f') && f'.open == f.open && f'.s.page.None?
    ensures f'.s.catalog == f.s.catalog && f'.s.epoch == f.s.epoch && f'.s.logs == f.s.logs && f'.s.clock == f.s.clock
    ensures f'.s.table == Batch(f.s.table, f.s.page.value.writes) && f'.s.cs == Advance(f.s.cs, f.s.page.value.body)
  {
    var process := Other(Process(Batch(f.s.table, f.s.page.value.writes), true, true));
    f' := DoSplit(f, process);
    Then(f0, xs, f, process, f');
    ys := xs + [process];
  }

  /** A whole page of one product, with one tick between its read and its stamp and one before the end. */
  lemma PageOfOne(f0: Split, xs: seq<SplitStep>, f: Split, i: nat, g: Gap, now: int, h: Gap) returns (ys: seq<SplitStep>, f': Split)
    requires f0.s.epoch in f0.s.logs && Between(f, i) && Reaches(f0, xs, f) && GapOk(f.s, g)
    requires now >= g.now && GapOk(TickFeed(f.s, g.now, g.draws).(clock := now), h)
    ensures Reaches(f0, ys, f') && f'.open.None? && f'.s.page.None?
    ensures f'.s.catalog == f.s.catalog && f'.s.epoch == f.s.epoch && f'.s.epoch in f'.s.logs && f'.s.clock == h.now
    ensures f'.s.Log() == Ticked(f.s.catalog, Ticked(f.s.catalog, f.s.Log(), g.now, g.draws), h.now, h.draws)
    ensures f'.s.table == Batch(f.s.table, [Write(i, StateAt(f.s.catalog, f.s.Log(), i), now)])
    ensures f'.s.cs == After(f.s, i, |f'.s.Log()|)
  {
    var half := Half(|f.s.Log()|, StateAt(f.s.catalog, f.s.Log(), i));
    var f1, f2;
    ys, f1 := ReadAndTick(f0, xs, f, i, g);
    ys, f2 := StampAndTick(f0, ys, f1, i, half, now, h);
    ys, f' := CloseAndProcess(f0, ys, f2, i, Entry(half.read, half.val, now));
  }

  // --- the two runs ---

  /** A feed of n products with the same base offer, before anything has happened. */
  ghost function Untouched(n: nat, base: OfferState): (f: Split)
    ensures f.s.epoch in f.s.logs
  {
    Split(State(seq(n, _ => Listing(true, base)), map[0 := []], 0, 0, map[], FRESH, "", None, {}, {}, 0, 0), None, map[], map[])
  }

  lemma UntouchedIsInitial(n: nat, base: OfferState)
    requires n <= 1000
    ensures InitSplit(Untouched(n, base)) && Reaches(Untouched(n, base), [], Untouched(n, base))
  {
    ForeignTextStartsFresh("");
  }

  /** One tick that flips the stock of product i. */
  function Flip(i: nat): Draw {
    Draw(seq(PICK_TRIES, _ => i), true, 1.0)
  }

  lemma FlipTicks(catalog: seq<Listing>, i: nat, now: int)
    requires i < |catalog| && catalog[i].carried
    ensures ValidDraw(catalog, Flip(i))
    ensures Ticked(catalog, [], now, [Flip(i)]) ==
      [Update(1, i, catalog[i].base.(inStock := !catalog[i].base.inStock), now)]
  {
    var d := Flip(i);
    assert d.tries[0] == i;
    assert Pick(catalog, d.tries) == Some(i);
    assert [d][..0] == [];
    assert Ticked(catalog, [], now, []) == [];
  }

  lemma OneUpdate(catalog: seq<Listing>, u: Update)
    requires u.product < |catalog|
    ensures StateAt(catalog, [u], u.product) == u.offer
  {}

  lemma OneWrite(t: Table, w: OfferWrite)
    ensures Batch(t, [w]) == if Newer(t, w) then t else t[w.key := Row(w.val, w.at)]
  {
    assert [w][..0] == [];
    assert Dedupe<nat, OfferState>([]) == map[];
    assert Dedupe([w]) == map[w.key := w];
  }

  /** A first page of one product, updated after it was listed and before the pin was taken. */
  lemma TornPinRun(base: OfferState) returns (xs: seq<SplitStep>)
    ensures InitSplit(Untouched(1, base)) && CleanSplitRun(Untouched(1, base), xs)
    ensures var s := ExecSplit(Untouched(1, base), xs).s; CaughtUp(s) && !ShowsCurrentOffers(s)
  {
    var f0, f := Untouched(1, base), Untouched(1, base);
    var u := Update(1, 0, base.(inStock := !base.inStock), 2);
    UntouchedIsInitial(1, base);
    FlipTicks(f0.s.catalog, 0, 2);
    OneUpdate(f0.s.catalog, u);
    EmptyTick(f0.s, 0);
    xs, f := PageOfOne(f0, [], f0, 0, Gap(0, []), 1, Gap(2, [Flip(0)]));
    OneWrite(map[], Write(0, base, 1));
    assert f.s.Log() == [u] && f.s.table == map[0 := Row(base, 1)];
    WrongRow(f.s, 0);
  }

  /**
   Two products, one page each. The second is updated after it was read and before it
   was stamped: the update lies above the pin and is replayed, but is older than the
   row's stamp.
   */
  lemma StampRaceRun(base: OfferState) returns (xs: seq<SplitStep>)
    ensures InitSplit(Untouched(2, base)) && CleanSplitRun(Untouched(2, base), xs)
    ensures var s := ExecSplit(Untouched(2, base), xs).s; CaughtUp(s) && !ShowsCurrentOffers(s)
  {
    var f0, f1, f2 := Untouched(2, base), Untouched(2, base), Untouched(2, base);
    var u := Update(1, 1, base.(inStock := !base.inStock), 5);
    xs, f1 := FirstOfTwo(base);
    FlipTicks(f0.s.catalog, 1, 5);
    OneUpdate(f0.s.catalog, u);
    xs, f2 := PageOfOne(f0, xs, f1, 1, Gap(5, [Flip(1)]), 6, Gap(6, []));
    OneWrite(f1.s.table, Write(1, base, 6));
    xs := ReplayInVain(f0, xs, f2, u);
  }

  /** The first product is listed before anything happens. */
  lemma FirstOfTwo(base: OfferState) returns (xs: seq<SplitStep>, f: Split)
    ensures InitSplit(Untouched(2, base)) && Reaches(Untouched(2, base), xs, f) && Between(f, 1)
    ensures f.s.catalog == Untouched(2, base).s.catalog && f.s.Log() == [] && f.s.clock == 1
    ensures f.s.cs == CursorState(Catalog, f.s.epoch, 1, 0) && f.s.table == map[0 := Row(base, 1)]
  {
    var f0 := Untouched(2, base);
    UntouchedIsInitial(2, base);
    EmptyTick(f0.s, 0);
    xs, f := PageOfOne(f0, [], f0, 0, Gap(0, []), 1, Gap(1, []));
    OneWrite(map[], Write(0, base, 1));
  }

  /** A page of updates is served and written; the worker is at the head. */
  lemma ReplayPage(f0: Split, xs: seq<SplitStep>, f: Split, ws: seq<OfferWrite>) returns (ys: seq<SplitStep>, f': Split)
    requires f0.s.epoch in f0.s.logs && f.s.epoch in f.s.logs && Reaches(f0, xs, f) && f.open.None? && f.s.page.None?
    requires f.s.cs.phase == Offers && f.s.cs.epoch == f.s.epoch && f.s.cs.seqNo == 0
    requires 0 < |f.s.Log()| <= 10 && InOrder(f.s.Log(), ws)
    ensures Reaches(f0, ys, f') && f'.s.epoch == f.s.epoch && f'.s.logs == f.s.logs && f'.s.catalog == f.s.catalog
    ensures f'.s.table == Batch(f.s.table, ws) && CaughtUp(f'.s)
  {
    var n := |f.s.Log()|;
    var page := Page(f.s.epoch, 0, n, Replayed(n, false, false), ws);
    var serve, f1 := Other(ServeOffers(10, ws, true)), f.(s := f.s.(page := Some(page)));
    ServeAll(f, ws, page);
    Then(f0, xs, f, serve, f1);
    ys, f' := ProcessOne(f0, xs + [serve], f1);
  }

  lemma ServeAll(f: Split, ws: seq<OfferWrite>, page: Page)
    requires f.s.epoch in f.s.logs && f.s.page.None? && 0 < |f.s.Log()| <= 10 && InOrder(f.s.Log(), ws)
    requires f.s.cs.phase == Offers && f.s.cs.epoch == f.s.epoch && f.s.cs.seqNo == 0
    requires page == Page(f.s.epoch, 0, |f.s.Log()|, Replayed(|f.s.Log()|, false, false), ws)
    ensures var x := Other(ServeOffers(10, ws, true));
      CleanSplit(f, x) && DoSplit(f, x) == f.(s := f.s.(page := Some(page)))
  {
    var us := f.s.Log();
    assert us[0..|us|] == us;
    assert Since(us, 0, 10) == Window(us, false);
  }

  /** The update is replayed, and the guard skips it. */
  lemma ReplayInVain(f0: Split, xs: seq<SplitStep>, f: Split, u: Update) returns (ys: seq<SplitStep>)
    requires f0.s.epoch in f0.s.logs && f.s.epoch in f.s.logs && Reaches(f0, xs, f) && f.open.None? && f.s.page.None?
    requires f.s.cs.phase == Offers && f.s.cs.epoch == f.s.epoch && f.s.cs.seqNo == 0 && f.s.Log() == [u]
    requires u.product < |f.s.catalog| && f.s.catalog[u.product].carried
    requires u.product in f.s.table && f.s.table[u.product].at > u.at && f.s.table[u.product].val != u.offer
    ensures CleanSplitRun(f0, ys)
    ensures var s := ExecSplit(f0, ys).s; CaughtUp(s) && !ShowsCurrentOffers(s)
  {
    var f';
    assert [u][..0] == [] && [WriteOf(u)][..0] == [];
    assert InOrder([u], [WriteOf(u)]);
    ys, f' := ReplayPage(f0, xs, f, [WriteOf(u)]);
    OneUpdate(f.s.catalog, u);
    OneWrite(f.s.table, WriteOf(u));
    WrongRow(f'.s, u.product);
  }

  // --- ties ---

  /** One tick that flips the stock of product i twice: the offer is back where it was. */
  lemma TwoFlips(catalog: seq<Listing>, i: nat, now: int) returns (u: Update, v: Update)
    requires i < |catalog| && catalog[i].carried
    ensures var base := catalog[i].base;
      u == Update(1, i, base.(inStock := !base.inStock), now) && v == Update(2, i, base, now)
    ensures ValidDraw(catalog, Flip(i)) && Ticked(catalog, [], now, [Flip(i), Flip(i)]) == [u, v]
    ensures StateAt(catalog, [u, v], i) == v.offer
  {
    var base := catalog[i].base;
    u, v := Update(1, i, base.(inStock := !base.inStock), now), Update(2, i, base, now);
    FlipTicks(catalog, i, now);
    OneUpdate(catalog, u);
    var ds := [Flip(i), Flip(i)];
    assert ds[..1] == [Flip(i)];
    assert Pick(catalog, Flip(i).tries) == Some(i) by {
      assert Flip(i).tries[0] == i;
    }
    assert [u] + [v] == [u, v];
  }

  lemma TwoInOrder(u: Update, v: Update)
    ensures InOrder([u, v], [WriteOf(u), WriteOf(v)])
  {
    assert [u, v][..1] == [u] && [WriteOf(u), WriteOf(v)][..1] == [WriteOf(u)];
    assert [u][..0] == [] && [WriteOf(u)][..0] == [];
    assert InOrder([u], [WriteOf(u)]);
  }

  lemma FirstOfTied(t: Table, v: OfferWrite, w: OfferWrite)
    requires v.key == w.key && v.at == w.at && v.key in t && t[v.key].at <= v.at
    ensures Batch(t, [v, w]) == t[v.key := Row(v.val, v.at)]
  {
    OneWrite(t, v);
    assert [v, w][..1] == [v] && [v][..0] == [];
    assert Dedupe<nat, OfferState>([]) == map[];
    assert Dedupe([v]) == map[v.key := v];
  }

  /**
   One product, listed before anything happens, then updated twice by one tick. Both
   updates come in one page, the dedupe keeps the first, and the feed's current offer is
   the second.
   */
  lemma TiedTickRun(base: OfferState) returns (xs: seq<SplitStep>)
    ensures InitSplit(Untouched(1, base)) && CleanSplitRun(Untouched(1, base), xs)
    ensures var s := ExecSplit(Untouched(1, base), xs).s; CaughtUp(s) && !ShowsCurrentOffers(s)
  {
    var f0, f, f2 := Untouched(1, base), Untouched(1, base), Untouched(1, base);
    UntouchedIsInitial(1, base);
    EmptyTick(f0.s, 0);
    xs, f := PageOfOne(f0, [], f0, 0, Gap(0, []), 1, Gap(1, []));
    OneWrite(map[], Write(0, base, 1));
    var u, v := TwoFlips(f.s.catalog, 0, 5);
    var tick, f1 := Other(Tick(5, [Flip(0), Flip(0)])), f.(s := TickFeed(f.s, 5, [Flip(0), Flip(0)]));
    Then(f0, xs, f, tick, f1);
    TwoInOrder(u, v);
    xs, f2 := ReplayPage(f0, xs + [tick], f1, [WriteOf(u), WriteOf(v)]);
    FirstOfTied(f1.s.table, WriteOf(u), WriteOf(v));
    WrongRow(f2.s, 0);
  }
}
