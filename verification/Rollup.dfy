/**
 The daily price rollup (db/clickhouse/001_init.sql:18-30): min, max and the
 price at the latest timestamp, per product, retailer and day. A crash replays
 pages, so events may be inserted again, in any order.
 */
module Rollup {
  /** One inserted price event; `at` is in milliseconds, the precision of the table. */
  datatype PriceEvent = PriceEvent(product: nat, retailer: nat, cents: int, at: int)

  const DAY: int := 86_400_000

  datatype Group = Group(product: nat, retailer: nat, day: int)

  function GroupOf(e: PriceEvent): Group {
    Group(e.product, e.retailer, e.at / DAY)
  }

  /** Two events share a group exactly if they are of one product and retailer and fall on one UTC day. */
  lemma GroupsAreDays(a: PriceEvent, b: PriceEvent)
    ensures GroupOf(a) == GroupOf(b) <==>
      && a.product == b.product && a.retailer == b.retailer
      && exists day: int :: day * 86_400_000 <= a.at < (day + 1) * 86_400_000 && day * 86_400_000 <= b.at < (day + 1) * 86_400_000
  {
    var day := a.at / DAY;
    assert day * 86_400_000 <= a.at < (day + 1) * 86_400_000;
  }

  /** The aggregate states of one group. Of tied timestamps, the first event inserted keeps the last price. */
  datatype Aggregate = Aggregate(min: int, max: int, last: int, lastAt: int)

  function Absorb(a: Aggregate, e: PriceEvent): Aggregate {
    Aggregate(if e.cents < a.min then e.cents else a.min,
              if e.cents > a.max then e.cents else a.max,
              if e.at > a.lastAt then e.cents else a.last,
              if e.at > a.lastAt then e.at else a.lastAt)
  }

  function Roll(es: seq<PriceEvent>): map<Group, Aggregate> {
    if es == [] then map[]
    else
      var m, e := Roll(es[..|es| - 1]), es[|es| - 1];
      var g := GroupOf(e);
      m[g := if g in m then Absorb(m[g], e) else Aggregate(e.cents, e.cents, e.cents, e.at)]
  }

  /** The aggregate is the true minimum, maximum and a price at the latest timestamp of the group. */
  ghost predicate Describes(es: seq<PriceEvent>, g: Group, a: Aggregate) {
    && (forall e :: e in es && GroupOf(e) == g ==> a.min <= e.cents <= a.max && e.at <= a.lastAt)
    && (exists e :: e in es && GroupOf(e) == g && e.cents == a.min)
    && (exists e :: e in es && GroupOf(e) == g && e.cents == a.max)
    && (exists e :: e in es && GroupOf(e) == g && e.cents == a.last && e.at == a.lastAt)
  }

  lemma AbsorbDescribes(es: seq<PriceEvent>, g: Group, a: Aggregate, e: PriceEvent)
    requires Describes(es, g, a) && GroupOf(e) == g
    ensures Describes(es + [e], g, Absorb(a, e))
  {
    var lo :| lo in es && GroupOf(lo) == g && lo.cents == a.min;
    var hi :| hi in es && GroupOf(hi) == g && hi.cents == a.max;
    var last :| last in es && GroupOf(last) == g && last.cents == a.last && last.at == a.lastAt;
    assert lo in es + [e] && hi in es + [e] && last in es + [e] && e in es + [e];
  }

  lemma {:induction false} RollDescribes(es: seq<PriceEvent>, g: Group)
    ensures g in Roll(es) <==> exists e :: e in es && GroupOf(e) == g
    ensures g in Roll(es) ==> Describes(es, g, Roll(es)[g])
  {
    if es != [] {
      var front, e := es[..|es| - 1], es[|es| - 1];
      RollDescribes(front, g);
      assert es == front + [e];
      if GroupOf(e) == g {
        if g in Roll(front) {
          AbsorbDescribes(front, g, Roll(front)[g], e);
        } else {
          assert e in es;
          assert forall x :: x in es && GroupOf(x) == g ==> x == e;
        }
      } else if g in Roll(front) {
        var a := Roll(front)[g];
        var lo :| lo in front && GroupOf(lo) == g && lo.cents == a.min;
        var hi :| hi in front && GroupOf(hi) == g && hi.cents == a.max;
        var last :| last in front && GroupOf(last) == g && last.cents == a.last && last.at == a.lastAt;
        assert lo in es && hi in es && last in es;
      }
    }
  }

  ghost predicate SameEvents(xs: seq<PriceEvent>, ys: seq<PriceEvent>) {
    forall e :: e in xs <==> e in ys
  }

  ghost predicate Latest(es: seq<PriceEvent>, e: PriceEvent) {
    e in es && forall x :: x in es && GroupOf(x) == GroupOf(e) ==> x.at <= e.at
  }

  /** No group has two different prices at its latest timestamp. */
  ghost predicate LatestAgree(es: seq<PriceEvent>) {
    forall a, b :: Latest(es, a) && Latest(es, b) && GroupOf(a) == GroupOf(b) ==> a.cents == b.cents
  }

  lemma DescribesUnique(xs: seq<PriceEvent>, ys: seq<PriceEvent>, g: Group, a: Aggregate, b: Aggregate)
    requires Describes(xs, g, a) && Describes(ys, g, b) && SameEvents(xs, ys) && LatestAgree(xs)
    ensures a == b
  {
    var la :| la in xs && GroupOf(la) == g && la.cents == a.last && la.at == a.lastAt;
    var lb :| lb in ys && GroupOf(lb) == g && lb.cents == b.last && lb.at == b.lastAt;
    assert lb in xs && la in ys;
    assert Latest(xs, la) && Latest(xs, lb);
  }

  lemma {:induction false} FirstLatestWins(a: PriceEvent, es: seq<PriceEvent>)
    requires forall x :: x in es && GroupOf(x) == GroupOf(a) ==> x.at <= a.at
    ensures GroupOf(a) in Roll([a] + es)
    ensures Roll([a] + es)[GroupOf(a)].last == a.cents && Roll([a] + es)[GroupOf(a)].lastAt == a.at
  {
    if es == [] {
      assert [a] + es == [a] && [a][..0] == [];
    } else {
      var front := es[..|es| - 1];
      assert forall x :: x in front ==> x in es;
      FirstLatestWins(a, front);
      assert ([a] + es)[..|es|] == [a] + front;
      assert es[|es| - 1] in es;
    }
  }

  lemma AgreementMeansHarmless(xs: seq<PriceEvent>, ys: seq<PriceEvent>)
    requires LatestAgree(xs) && SameEvents(xs, ys)
    ensures Roll(ys) == Roll(xs)
  {
    forall g
      ensures g in Roll(xs) <==> g in Roll(ys)
      ensures g in Roll(xs) ==> Roll(xs)[g] == Roll(ys)[g]
    {
      RollDescribes(xs, g);
      RollDescribes(ys, g);
      if g in Roll(xs) {
        DescribesUnique(xs, ys, g, Roll(xs)[g], Roll(ys)[g]);
      }
    }
  }

  lemma TwoLatestPricesShow(xs: seq<PriceEvent>, a: PriceEvent, b: PriceEvent)
    requires Latest(xs, a) && Latest(xs, b) && GroupOf(a) == GroupOf(b) && a.cents != b.cents
    ensures SameEvents(xs, [a] + xs) && SameEvents(xs, [b] + xs) && Roll([a] + xs) != Roll([b] + xs)
  {
    FirstLatestWins(a, xs);
    FirstLatestWins(b, xs);
  }

  /**
   Re-inserting events that are already there, in whatever order, leaves the
   rollup unchanged exactly when no group's latest timestamp carries two prices.
   */
  lemma ReplaysAreHarmless(xs: seq<PriceEvent>)
    ensures (forall ys :: SameEvents(xs, ys) ==> Roll(ys) == Roll(xs)) <==> LatestAgree(xs)
  {
    if LatestAgree(xs) {
      forall ys | SameEvents(xs, ys)
        ensures Roll(ys) == Roll(xs)
      {
        AgreementMeansHarmless(xs, ys);
      }
    } else {
      var a, b :| Latest(xs, a) && Latest(xs, b) && GroupOf(a) == GroupOf(b) && a.cents != b.cents;
      TwoLatestPricesShow(xs, a, b);
    }
  }

  /** Two prices at one timestamp: inserting the second one first once more changes the day's last price. */
  lemma TiedPricesDiverge()
    ensures var a, b := PriceEvent(1, 1, 100, 5), PriceEvent(1, 1, 200, 5);
      && SameEvents([a, b], [b] + [a, b])
      && Roll([a, b])[Group(1, 1, 0)].last == 100 && Roll([b] + [a, b])[Group(1, 1, 0)].last == 200
  {
    var a, b := PriceEvent(1, 1, 100, 5), PriceEvent(1, 1, 200, 5);
    assert [a, b] == [a] + [b];
    FirstLatestWins(a, [b]);
    FirstLatestWins(b, [a, b]);
    assert GroupOf(a) == GroupOf(b) == Group(1, 1, 0);
  }

  // --- partial states ---

  /** Merging two partial states of a group; of tied timestamps the first one's price stays. */
  function Merge(a: Aggregate, b: Aggregate): Aggregate {
    Aggregate(if b.min < a.min then b.min else a.min,
              if b.max > a.max then b.max else a.max,
              if b.lastAt > a.lastAt then b.last else a.last,
              if b.lastAt > a.lastAt then b.lastAt else a.lastAt)
  }

  function MergeParts(m: map<Group, Aggregate>, n: map<Group, Aggregate>): map<Group, Aggregate> {
    map g | g in m.Keys + n.Keys ::
      if g !in n then m[g] else if g !in m then n[g] else Merge(m[g], n[g])
  }

  lemma MergeAbsorbs(a: Aggregate, b: Aggregate, e: PriceEvent)
    ensures Absorb(Merge(a, b), e) == Merge(a, Absorb(b, e))
    ensures Absorb(a, e) == Merge(a, Aggregate(e.cents, e.cents, e.cents, e.at))
  {}

  /** The table may keep several partial states per group and merge them later: the result is the rollup of all events. */
  lemma {:induction false} PartsMerge(xs: seq<PriceEvent>, ys: seq<PriceEvent>)
    ensures MergeParts(Roll(xs), Roll(ys)) == Roll(xs + ys)
  {
    if ys == [] {
      assert xs + ys == xs;
    } else {
      var n := |ys| - 1;
      var front, e := ys[..n], ys[n];
      var g := GroupOf(e);
      PartsMerge(xs, front);
      assert (xs + ys)[..|xs + ys| - 1] == xs + front;
      forall h | h in Roll(xs + ys)
        ensures h in MergeParts(Roll(xs), Roll(ys)) && MergeParts(Roll(xs), Roll(ys))[h] == Roll(xs + ys)[h]
      {
        if h == g && g in Roll(xs) {
          if g in Roll(front) {
            MergeAbsorbs(Roll(xs)[g], Roll(front)[g], e);
          } else {
            MergeAbsorbs(Roll(xs)[g], Roll(xs)[g], e);
          }
        }
      }
    }
  }
}
