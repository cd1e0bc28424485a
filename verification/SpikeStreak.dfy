/**
 One offer under observation (internal/ingest/store.go:32-63, 133-150, 180-192):
 its row, and the streak of consecutive suspect prices.
 */
module SpikeStreak {
  import opened Wrappers
  import opened Prices
  import opened Normalization

  const SPIKE_ACCEPT_AFTER: nat := 3

  datatype OfferRow = OfferRow(cents: int, url: string, inStock: bool, at: int, category: string, brand: string)

  /** What is known of one (retailer, product): the stored row and the in-memory streak (absent is 0). */
  datatype Cell = Cell(row: Option<OfferRow>, streak: nat)

  datatype Verdict = Rejected | Overridden | Plausible

  predicate IsSuspect(c: Cell, cents: int) {
    c.row.Some? && Suspect(c.row.value.cents, cents)
  }

  function Judge(c: Cell, cents: int): Verdict {
    if !IsSuspect(c, cents) then Plausible
    else if c.streak + 1 >= SPIKE_ACCEPT_AFTER then Overridden
    else Rejected
  }

  /** The guarded upsert of one row: an update without category or brand keeps the stored one. */
  function Put(row: Option<OfferRow>, it: Normalized): OfferRow {
    if row.Some? && row.value.at > it.at then row.value
    else
      OfferRow(it.cents, it.url, it.inStock, it.at,
               if it.category == "" && row.Some? then row.value.category else it.category,
               if it.brand == "" && row.Some? then row.value.brand else it.brand)
  }

  /** One observation that reaches the offer. */
  function Observe(c: Cell, it: Normalized): Cell {
    match Judge(c, it.cents)
    case Rejected => c.(streak := c.streak + 1)
    case Overridden => Cell(Some(Put(c.row, it)), 0)
    case Plausible => Cell(Some(Put(c.row, it)), 0)
  }

  /**
   One time a page with this offer is taken up: what it shows, and whether the
   offers statement went through. A page that fails is taken up again. In between the
   process may restart.
   */
  datatype Sighting = Sighting(it: Normalized, stored: bool) | Restart

  /** The streak moves before the statement is sent; the row changes only if it succeeds. A restart forgets the streak. */
  function Sight(c: Cell, x: Sighting): Cell {
    match x
    case Sighting(it, stored) =>
      var after := Observe(c, it);
      if stored then after else c.(streak := after.streak)
    case Restart => c.(streak := 0)
  }

  function SightAll(c: Cell, xs: seq<Sighting>): Cell {
    if xs == [] then c else Sight(SightAll(c, xs[..|xs| - 1]), xs[|xs| - 1])
  }

  predicate Suspicious(c: Cell, x: Sighting) {
    x.Sighting? && IsSuspect(c, x.it.cents)
  }

  /** Which sightings of a run were suspect when they were made; a restart is not. */
  function SuspectFlags(c: Cell, xs: seq<Sighting>): (flags: seq<bool>)
    ensures |flags| == |xs|
  {
    if xs == [] then []
    else SuspectFlags(c, xs[..|xs| - 1]) + [Suspicious(SightAll(c, xs[..|xs| - 1]), xs[|xs| - 1])]
  }

  /** How many flags at the end of the sequence are true. */
  function TrailingRun(flags: seq<bool>): nat {
    if flags == [] || !flags[|flags| - 1] then 0 else 1 + TrailingRun(flags[..|flags| - 1])
  }

  /** A sighting is let through unless it is the first or second of each three consecutive suspects. */
  predicate LetThrough(flags: seq<bool>, k: nat)
    requires k < |flags|
  {
    TrailingRun(flags[..k + 1]) % SPIKE_ACCEPT_AFTER == 0
  }

  lemma SightMovesStreak(c: Cell, x: Sighting)
    requires c.streak < SPIKE_ACCEPT_AFTER
    ensures Sight(c, x).streak == if Suspicious(c, x) then (c.streak + 1) % SPIKE_ACCEPT_AFTER else 0
  {}

  /**
   The streak counts consecutive suspect sightings, stored or not, since the last
   plausible price, override or restart, and so stays below three.
   */
  lemma {:induction false} StreakCountsConsecutiveSuspects(c: Cell, xs: seq<Sighting>)
    requires c.streak == 0
    ensures SightAll(c, xs).streak == TrailingRun(SuspectFlags(c, xs)) % SPIKE_ACCEPT_AFTER
    ensures SightAll(c, xs).streak < SPIKE_ACCEPT_AFTER
  {
    if xs != [] {
      var n := |xs| - 1;
      StreakCountsConsecutiveSuspects(c, xs[..n]);
      SightMovesStreak(SightAll(c, xs[..n]), xs[n]);
      var flags := SuspectFlags(c, xs);
      assert flags[..n] == SuspectFlags(c, xs[..n]);
    }
  }

  /** The rows an offer goes through: the guarded puts of the sightings let through and stored. */
  function PutWritten(row: Option<OfferRow>, xs: seq<Sighting>, flags: seq<bool>): Option<OfferRow>
    requires |flags| == |xs|
  {
    if xs == [] then row
    else
      var n := |xs| - 1;
      var before := PutWritten(row, xs[..n], flags[..n]);
      if LetThrough(flags, n) && xs[n].Sighting? && xs[n].stored then Some(Put(before, xs[n].it)) else before
  }

  lemma {:induction false} OnlyThirdSuspectsAreWritten(c: Cell, xs: seq<Sighting>)
    requires c.streak == 0
    ensures SightAll(c, xs).row == PutWritten(c.row, xs, SuspectFlags(c, xs))
  {
    if xs != [] {
      var n := |xs| - 1;
      var flags := SuspectFlags(c, xs);
      assert flags[..n] == SuspectFlags(c, xs[..n]) && flags[..n + 1] == flags;
      OnlyThirdSuspectsAreWritten(c, xs[..n]);
      StreakCountsConsecutiveSuspects(c, xs[..n]);
      StreakCountsConsecutiveSuspects(c, xs);
    }
  }

  // --- what the columns hold ---

  /** The row shows the item in every column; an empty category or brand keeps what the old row had, if there was one. */
  ghost predicate Shows(row: OfferRow, it: Normalized, was: Option<OfferRow>) {
    && row.cents == it.cents && row.url == it.url && row.inStock == it.inStock && row.at == it.at
    && (it.category != "" ==> row.category == it.category)
    && (it.category == "" ==> row.category == if was.Some? then was.value.category else "")
    && (it.brand != "" ==> row.brand == it.brand)
    && (it.brand == "" ==> row.brand == if was.Some? then was.value.brand else "")
  }

  lemma PutShows(row: Option<OfferRow>, it: Normalized)
    ensures if row.Some? && row.value.at > it.at then Put(row, it) == row.value else Shows(Put(row, it), it, row)
  {}

  /**
   One observation, in full. A price suspect against the held one is held back the first
   and second time in a row; any other is let through, clears the streak, and shows in
   the row unless the row is newer.
   */
  lemma ObservationExact(c: Cell, it: Normalized)
    ensures var c' := Observe(c, it);
      var heldBack := c.row.Some? && Suspect(c.row.value.cents, it.cents) && c.streak + 1 < SPIKE_ACCEPT_AFTER;
      && (heldBack ==> c'.row == c.row && c'.streak == c.streak + 1)
      && (!heldBack ==> c'.streak == 0 && c'.row.Some?)
      && (!heldBack && c.row.Some? && c.row.value.at > it.at ==> c'.row == c.row)
      && (!heldBack && (c.row.None? || c.row.value.at <= it.at) ==> Shows(c'.row.value, it, c.row))
  {}

  /** Sighting k of a run reaches the row: it is stored, let through and not older than the row it meets. */
  ghost predicate Lands(c: Cell, xs: seq<Sighting>, k: int) {
    && 0 <= k < |xs| && xs[k].Sighting? && xs[k].stored && LetThrough(SuspectFlags(c, xs[..k + 1]), k)
    && var row := SightAll(c, xs[..k]).row; (row.None? || row.value.at <= xs[k].it.at)
  }

  lemma LandsBefore(c: Cell, xs: seq<Sighting>, n: nat, k: int)
    requires 0 <= k < n <= |xs|
    ensures Lands(c, xs[..n], k) <==> Lands(c, xs, k)
  {
    assert xs[..n][..k] == xs[..k] && xs[..n][..k + 1] == xs[..k + 1];
  }

  lemma LastLands(c: Cell, xs: seq<Sighting>)
    requires c.streak == 0 && xs != []
    ensures var n, before, after := |xs| - 1, SightAll(c, xs[..|xs| - 1]), SightAll(c, xs);
      if Lands(c, xs, n) then after.row.Some? && Shows(after.row.value, xs[n].it, before.row) else after.row == before.row
  {
    var n := |xs| - 1;
    assert xs[..n + 1] == xs;
    StreakCountsConsecutiveSuspects(c, xs);
    StreakCountsConsecutiveSuspects(c, xs[..n]);
    var flags := SuspectFlags(c, xs);
    assert flags[..n] == SuspectFlags(c, xs[..n]) && flags[..n + 1] == flags;
    if xs[n].Sighting? {
      ObservationExact(SightAll(c, xs[..n]), xs[n].it);
    }
  }

  /** Over any run, price, URL, stock and time of the row are those of the last sighting that reached it. */
  lemma {:induction false} RowIsLastLanded(c: Cell, xs: seq<Sighting>, k: int)
    requires c.streak == 0 && forall j :: k < j < |xs| ==> !Lands(c, xs, j)
    requires k == -1 || Lands(c, xs, k)
    ensures k == -1 ==> SightAll(c, xs).row == c.row
    ensures k >= 0 ==> SightAll(c, xs).row == SightAll(c, xs[..k + 1]).row && SightAll(c, xs).row.Some?
    ensures k >= 0 ==> var row, it := SightAll(c, xs).row.value, xs[k].it;
      row.cents == it.cents && row.url == it.url && row.inStock == it.inStock && row.at == it.at
  {
    if xs != [] {
      var n := |xs| - 1;
      LastLands(c, xs);
      if k < n {
        forall j | k < j < n ensures !Lands(c, xs[..n], j) {
          LandsBefore(c, xs, n, j);
        }
        if k >= 0 {
          LandsBefore(c, xs, n, k);
          assert xs[..n][..k + 1] == xs[..k + 1];
        }
        RowIsLastLanded(c, xs[..n], k);
      } else {
        assert xs[..k + 1] == xs;
      }
    }
  }

  /** And its category is the last one that is not empty among them, or the one it had. */
  lemma {:induction false} CategoryIsLastNamed(c: Cell, xs: seq<Sighting>, k: int)
    requires c.streak == 0 && forall j :: k < j < |xs| && Lands(c, xs, j) ==> xs[j].it.category == ""
    requires k == -1 || (Lands(c, xs, k) && xs[k].it.category != "")
    ensures var row := SightAll(c, xs).row;
      && (c.row.Some? ==> row.Some?)
      && (k == -1 && row.Some? ==> row.value.category == if c.row.Some? then c.row.value.category else "")
      && (k >= 0 ==> row.Some? && row.value.category == xs[k].it.category)
  {
    if xs != [] {
      var n := |xs| - 1;
      LastLands(c, xs);
      if k < n {
        forall j | k < j < n && Lands(c, xs[..n], j) ensures xs[..n][j].it.category == "" {
          LandsBefore(c, xs, n, j);
        }
        if k >= 0 {
          LandsBefore(c, xs, n, k);
        }
        CategoryIsLastNamed(c, xs[..n], k);
      }
    }
  }

  /** The same for its brand. */
  lemma {:induction false} BrandIsLastNamed(c: Cell, xs: seq<Sighting>, k: int)
    requires c.streak == 0 && forall j :: k < j < |xs| && Lands(c, xs, j) ==> xs[j].it.brand == ""
    requires k == -1 || (Lands(c, xs, k) && xs[k].it.brand != "")
    ensures var row := SightAll(c, xs).row;
      && (c.row.Some? ==> row.Some?)
      && (k == -1 && row.Some? ==> row.value.brand == if c.row.Some? then c.row.value.brand else "")
      && (k >= 0 ==> row.Some? && row.value.brand == xs[k].it.brand)
  {
    if xs != [] {
      var n := |xs| - 1;
      LastLands(c, xs);
      if k < n {
        forall j | k < j < n && Lands(c, xs[..n], j) ensures xs[..n][j].it.brand == "" {
          LandsBefore(c, xs, n, j);
        }
        if k >= 0 {
          LandsBefore(c, xs, n, k);
        }
        BrandIsLastNamed(c, xs[..n], k);
      }
    }
  }

  // --- blips ---

  /** Every price sighted is suspect against the held one; restarts may fall in between. */
  ghost predicate AllSuspect(c: Cell, xs: seq<Sighting>) {
    forall j :: 0 <= j < |xs| && xs[j].Sighting? ==> IsSuspect(c, xs[j].it.cents)
  }

  /** How many sightings were made since the last restart. */
  function SinceRestart(xs: seq<Sighting>): nat {
    if xs == [] || xs[|xs| - 1].Restart? then 0 else 1 + SinceRestart(xs[..|xs| - 1])
  }

  lemma {:induction false} SinceRestartCounts(xs: seq<Sighting>)
    ensures SinceRestart(xs) <= |xs|
    ensures (forall j :: 0 <= j < |xs| ==> xs[j].Sighting?) ==> SinceRestart(xs) == |xs|
  {
    if xs != [] {
      SinceRestartCounts(xs[..|xs| - 1]);
    }
  }

  /** The sighting would override the held price, as the third, sixth and so on since a restart, and is stored and not older. */
  predicate Overrides(row: OfferRow, before: seq<Sighting>, x: Sighting) {
    SinceRestart(before) % SPIKE_ACCEPT_AFTER == 2 && x.Sighting? && x.stored && x.it.at >= row.at
  }

  /** Every third sighting since a restart is lost, or older than the row. */
  ghost predicate ThirdsFail(c: Cell, xs: seq<Sighting>)
    requires c.row.Some?
  {
    forall j :: 0 <= j < |xs| ==> !Overrides(c.row.value, xs[..j], xs[j])
  }

  lemma SightOfSuspect(c: Cell, k: nat, x: Sighting)
    requires c.row.Some? && k < SPIKE_ACCEPT_AFTER && x.Sighting? && IsSuspect(c, x.it.cents)
    ensures var c' := Sight(Cell(c.row, k), x);
      if k == 2 && x.stored && x.it.at >= c.row.value.at then c'.row.Some? && c'.row.value.cents == x.it.cents
      else c' == Cell(c.row, (k + 1) % SPIKE_ACCEPT_AFTER)
  {}

  lemma SightKeepsOrTakes(c: Cell, x: Sighting)
    requires c.row.Some?
    ensures var c' := Sight(c, x);
      c'.row.Some? && (c'.row.value.cents == c.row.value.cents || (x.Sighting? && c'.row.value.cents == x.it.cents))
  {}

  lemma ThirdsFailMore(c: Cell, xs: seq<Sighting>)
    requires c.row.Some? && xs != []
    ensures var n := |xs| - 1;
      ThirdsFail(c, xs) <==> ThirdsFail(c, xs[..n]) && !Overrides(c.row.value, xs[..n], xs[n])
  {
    var n := |xs| - 1;
    assert forall j :: 0 <= j < n ==> xs[..n][j] == xs[j] && xs[..n][..j] == xs[..j];
  }

  lemma {:induction false} SuspectRun(c: Cell, xs: seq<Sighting>)
    requires c.streak == 0 && c.row.Some? && AllSuspect(c, xs)
    ensures var c' := SightAll(c, xs);
      if ThirdsFail(c, xs) then c' == Cell(c.row, SinceRestart(xs) % SPIKE_ACCEPT_AFTER)
      else c'.row.Some? && Suspect(c.row.value.cents, c'.row.value.cents)
  {
    if xs != [] {
      var n := |xs| - 1;
      SuspectRun(c, xs[..n]);
      ThirdsFailMore(c, xs);
      if !ThirdsFail(c, xs[..n]) {
        SightKeepsOrTakes(SightAll(c, xs[..n]), xs[n]);
      } else if xs[n].Sighting? {
        SightOfSuspect(c, SinceRestart(xs[..n]) % SPIKE_ACCEPT_AFTER, xs[n]);
      }
    }
  }

  /**
   A run of prices that are all suspect against the held one changes the row if and
   only if some third sighting since a restart is stored and not older than the row.
   */
  lemma BlipExact(c: Cell, xs: seq<Sighting>)
    requires c.streak == 0 && c.row.Some? && AllSuspect(c, xs)
    ensures SightAll(c, xs).row == c.row <==> ThirdsFail(c, xs)
  {
    SuspectRun(c, xs);
  }

  function Sightings(its: seq<Normalized>, fates: seq<bool>): seq<Sighting>
    requires |its| == |fates|
  {
    seq(|its|, i requires 0 <= i < |its| => Sighting(its[i], fates[i]))
  }

  /** The items of distinct pages, the k-th page taken up tries[k] times. */
  function TakenUp(items: seq<Normalized>, tries: seq<nat>): seq<Normalized>
    requires |items| == |tries|
  {
    if items == [] then []
    else TakenUp(items[..|items| - 1], tries[..|items| - 1]) + seq(tries[|items| - 1], _ => items[|items| - 1])
  }

  function Sum(tries: seq<nat>): nat {
    if tries == [] then 0 else Sum(tries[..|tries| - 1]) + tries[|tries| - 1]
  }

  lemma {:induction false} TakenUpCounts(items: seq<Normalized>, tries: seq<nat>)
    requires |items| == |tries|
    ensures |TakenUp(items, tries)| == Sum(tries)
    ensures forall it :: it in TakenUp(items, tries) ==> it in items
  {
    if items != [] {
      TakenUpCounts(items[..|items| - 1], tries[..|items| - 1]);
    }
  }

  /** Whatever becomes of each attempt, these items leave the row alone. */
  ghost predicate Harmless(c: Cell, its: seq<Normalized>) {
    forall fates: seq<bool> :: |fates| == |its| ==> SightAll(c, Sightings(its, fates)).row == c.row
  }

  lemma FewThirdsFail(c: Cell, xs: seq<Sighting>)
    requires c.row.Some? && |xs| < SPIKE_ACCEPT_AFTER
    ensures ThirdsFail(c, xs)
  {
    forall j | 0 <= j < |xs| ensures !Overrides(c.row.value, xs[..j], xs[j]) {
      SinceRestartCounts(xs[..j]);
    }
  }

  lemma ThirdOverrides(c: Cell, its: seq<Normalized>, fates: seq<bool>)
    requires c.row.Some? && SPIKE_ACCEPT_AFTER <= |its| == |fates| && fates[2] && its[2].at >= c.row.value.at
    ensures !ThirdsFail(c, Sightings(its, fates))
  {
    var xs := Sightings(its, fates);
    SinceRestartCounts(xs[..2]);
    assert Overrides(c.row.value, xs[..2], xs[2]);
  }

  lemma HarmlessExactly(c: Cell, its: seq<Normalized>)
    requires c.streak == 0 && c.row.Some?
    requires forall j :: 0 <= j < |its| ==> IsSuspect(c, its[j].cents) && its[j].at >= c.row.value.at
    ensures Harmless(c, its) <==> |its| < SPIKE_ACCEPT_AFTER
  {
    if |its| < SPIKE_ACCEPT_AFTER {
      forall fates: seq<bool> | |fates| == |its|
        ensures SightAll(c, Sightings(its, fates)).row == c.row
      {
        FewThirdsFail(c, Sightings(its, fates));
        BlipExact(c, Sightings(its, fates));
      }
    } else {
      var fates := seq(|its|, _ => true);
      ThirdOverrides(c, its, fates);
      BlipExact(c, Sightings(its, fates));
    }
  }

  /**
   "A feed bug is a blip" holds exactly within a budget of attempts: wrong prices
   from distinct pages leave the offer alone, whatever becomes of each attempt, if
   and only if the pages are taken up fewer than three times in all.
   */
  lemma BlipWithinRetries(c: Cell, items: seq<Normalized>, tries: seq<nat>)
    requires |items| == |tries| && c.streak == 0 && c.row.Some?
    requires forall k :: 0 <= k < |items| ==> IsSuspect(c, items[k].cents) && items[k].at >= c.row.value.at
    ensures Harmless(c, TakenUp(items, tries)) <==> Sum(tries) < SPIKE_ACCEPT_AFTER
  {
    var its := TakenUp(items, tries);
    TakenUpCounts(items, tries);
    assert forall j :: 0 <= j < |its| ==> its[j] in its && its[j] in items;
    HarmlessExactly(c, its);
  }

  /** A blip within the budget leaves no trace once a plausible price follows. */
  lemma BlipLeavesNoTrace(c: Cell, xs: seq<Sighting>, x: Sighting)
    requires c.streak == 0 && c.row.Some? && AllSuspect(c, xs) && |xs| < SPIKE_ACCEPT_AFTER
    requires x.Sighting? && !IsSuspect(c, x.it.cents)
    ensures Sight(SightAll(c, xs), x) == Sight(c, x)
  {
    FewThirdsFail(c, xs);
    SuspectRun(c, xs);
  }

  /**
   The failing input: one corrupt item of one page, whose first two attempts fail
   after the spike check or are rejected by it, is the held price after the third.
   */
  lemma RetriesAcceptABlip(c: Cell, a: Normalized, first: bool, second: bool)
    requires c.streak == 0 && IsSuspect(c, a.cents) && a.at >= c.row.value.at
    ensures var c' := SightAll(c, [Sighting(a, first)] + [Sighting(a, second)] + [Sighting(a, true)]);
      c'.row.Some? && c'.row.value.cents == a.cents && c'.streak == 0
  {
    var x, y, z := Sighting(a, first), Sighting(a, second), Sighting(a, true);
    var xs := [x] + [y];
    assert xs[..1] == [x];
    FewThirdsFail(c, xs);
    SuspectRun(c, xs);
    SinceRestartCounts(xs);
    assert (xs + [z])[..2] == xs;
    SightOfSuspect(c, 2, z);
  }

  /**
   No first observation wedges an offer: from any row and any streak, three or more
   stored observations of one valid price, none older than the row or the one
   before, end with that price held.
   */
  lemma {:induction false} PersistentPriceIsAccepted(c: Cell, cents: int, xs: seq<Sighting>)
    requires c.streak < SPIKE_ACCEPT_AFTER && InRange(cents) && xs != []
    requires forall j :: 0 <= j < |xs| ==> xs[j].Sighting? && xs[j].stored && xs[j].it.cents == cents
    requires forall j :: 0 < j < |xs| ==> xs[j - 1].it.at <= xs[j].it.at
    requires c.row.Some? ==> c.row.value.at <= xs[0].it.at
    ensures var c' := SightAll(c, xs);
      && (|xs| >= SPIKE_ACCEPT_AFTER ==> c'.row.Some? && c'.row.value.cents == cents && c'.streak == 0)
      && (c'.row.Some? ==> c'.row.value.at <= xs[|xs| - 1].it.at)
      && ((c'.row.Some? && c'.row.value.cents == cents && c'.streak == 0)
          || (c' == c.(streak := c.streak + |xs|) && c'.streak < SPIKE_ACCEPT_AFTER && IsSuspect(c, cents)))
  {
    var n := |xs| - 1;
    if n == 0 {
      assert xs[..0] == [];
    } else {
      PersistentPriceIsAccepted(c, cents, xs[..n]);
    }
  }
}
