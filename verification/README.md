# Dealstream ingestion: a verified model

Dealstream polls simulated retailer feeds, keeps a catalog of offers in Postgres
and a price history in ClickHouse, and serves reads through a cache. This project
models the ingestion pipeline as a distributed protocol and proves what it
promises across process boundaries: nothing the feed emits is skipped, the offers
converge, stored cursors never run ahead of the history, and the fast paths agree
with the simple ones they replace. Three smaller cores are included: the
collection walk, the request-coalescing cache and the price arithmetic.

`dafny verify dfyconfig.toml` checks everything.

## How the model is laid out

| file | models |
|---|---|
| FeedLog, FeedStream | a feed instance: the growing log, and the capped buffer and overlay that stand for it |
| CatalogPaging, FeedServer, FeedWire | the paging handlers, the wire items and their quirks |
| CursorCodec, WorkerLoop | the stored cursor text, one turn of the worker loop |
| Pipeline | feed, worker, table and stored cursor as one state machine |
| NoGap, Convergence, CatchUp, Resumption | what holds of all its runs |
| TiedReplay, TornPage, SplitResponse, SplitConvergence, MissedUpdates | the same protocol with catalog responses taken apart and timestamps that may tie: what is skipped, and exactly which rows are left wrong |
| LastWriteWins, SpikeStreak, OfferStore, Store, BatchHistory, BatchReport, InterleavedBatches, ProductRaces | the batch upsert and its report, the spike streak, and runs of batches, retried and interleaved ones included |
| ProcessItems | what becomes of each item of a page |
| Ordering, LockOrder, StatementLocks | sorted statements and their row locks |
| HistoryWriter, CHWriter, Waiters, CursorDurability, Rollup | the buffered history writer, its waiters, cursors that wait on it, the daily rollup |
| Floats, Prices, Binary64, Normalize | float and integer price arithmetic, float64 rounding to nearest, item validation |
| Collections, CollectionWalk | the early-stopping collection walk against full aggregation |
| SingleFlight, Cache | concurrent requests on one cache key |

State machines are total: a step that is not enabled changes nothing, so every
sequence of steps is a run and the theorems quantify over all of them. Objects
whose methods update fields are classes; each method is tied to a function of the
old state, and the lemmas are about those functions. Random draws, clocks,
network and database failures are parameters.

## Where the code does not do what it or its comments say

Each of these is proved, with the exact condition under which the promise holds.

- `WaitFlushed` promises that every row at or below the watermark has been
  written or dropped. Overflow while a flush is in flight moves the counter past
  rows that are still in the air, so a waiter can be released early
  (`HistoryWriter.ReleasedMeansSettled`, `HistoryWriter.OverflowReleasesEarly`),
  and a crash then loses a row that a stored cursor covers
  (`CursorDurability.MidFlightDropLosesARow`). Over every run, cursors stay backed
  by durable rows if and only if no wait ends while a row of its own batch is in
  the open flight (`CursorDurability.CursorsDurableExactly`); it is enough that no
  row is dropped during a flight (`CursorDurability.CalmIsClear`).
- Updates that land during a catalog sync are said to be replayed, not lost. A
  response reads each product under its own lock, stamps it after the lock is
  released, and reads the position last. An update between a product's read and
  the pin of the first page is never replayed (`MissedUpdates.TornPinRun`): this is
  the only way an update is skipped (`SplitConvergence.SplitSkipsOnlyBeforePin`). An
  update between a product's read and its stamp, on any page, is replayed in vain,
  because the listing's stamp is newer and the guard skips it
  (`MissedUpdates.StampRaceRun`). In both cases the row stays wrong until the
  product's next update. Ticks that leave the products already read alone do no harm
  (`SplitConvergence.QuietListingsConverge`).
- One tick stamps all its updates alike and may draw a product twice. If both come
  in one page, the dedupe keeps the first and the feed's current offer is the second
  (`MissedUpdates.TiedTickRun`), until the product's next update.
- These are all the ways a worker at the head can hold a wrong offer: over every run,
  a row is current if and only if its last listing missed no update and the page that
  last replayed the product's last update does not begin its tied updates with a
  different offer (`SplitConvergence.SplitRunsExact`).
- In-batch dedupe keeps the first of two items with equal timestamps, while the
  table guard would let the second win. The batch path equals one-at-a-time
  writes exactly when tied timestamps agree (`LastWriteWins.BatchRefinesApplyAll`,
  `LastWriteWins.TiedBatchDiverges`).
- The range check is said to catch the 100x unit bug "from $20 up". It starts
  above $20.00: 2000 cents times 100 is still in range
  (`Prices.RangeAloneStartsAbove20Dollars`, `Prices.UnitBugCaught`).
- The rollup's aggregates are called insensitive to replayed duplicates. They are
  exactly when no group has two prices at its latest timestamp
  (`Rollup.ReplaysAreHarmless`, `Rollup.TiedPricesDiverge`).
- "A real feed bug is a blip, a persistent spike is the truth": the streak moves
  before the offers statement is sent, so it counts attempts at a page, not
  observations. One corrupt item on a page that fails twice is the held price after
  the third attempt (`SpikeStreak.RetriesAcceptABlip`,
  `BatchHistory.RetriedPageOverrides`). Wrong prices leave the offer alone, whatever
  becomes of the attempts, if and only if their pages are taken up fewer than three
  times in all (`SpikeStreak.BlipWithinRetries`).
- Followers of a cache fill are said to get the leader's result or retry. A fill
  that panics never removes its flight nor closes its channel: the key is wedged for
  good (`SingleFlight.PanicWedgesKey`, `SingleFlight.PanicRun`), and that is the only way to get stuck
  (`SingleFlight.WaitersAreServed`).

## Model

| member | source | states |
|---|---|---|
| `Convergence.SnapshotPlusReplayConverges` | internal/ingest/worker.go:82-131 | after any clean run of ticks, feed restarts, served, failed and processed pages, lost saves and crashes, a worker at the head of the running instance holds the feed's current offer for every carried product, from any initial table |
| `Convergence.CaughtUpShowsCurrent` | internal/ingest/worker.go:126 | the invariant kept by every clean step already gives the current offers once the position is the head |
| `Convergence.RunIsClean` | internal/ingest/worker.go:44-80 | every state of a clean run satisfies the convergence invariant: for the position in memory and on disk, each claimed row is a true reading of the log at or after that position |
| `Convergence.ReplayRow` | internal/ingest/store.go:180-192 | replaying a stretch of older updates over a newer listing never loses ground and catches the row up with the end of the stretch |
| `Convergence.AdvanceIsFresh` | internal/ingest/worker.go:98-106 | the position a worker advances to after a page is backed by the table the page left |
| `NoGap.NoUpdateSkipped` | internal/ingest/worker.go:44-131 | with each catalog response one reading of the feed at its close: in every reachable state and for the stored position too, each update below the position was handed over or precedes the close of a listing of its product in the same instance |
| `NoGap.RunKeepsInv` | internal/ingest/worker.go:29-43 | epoch and sequence of every position come from one instance, everything from the pin to the position was handed over, and a page in hand continues exactly there |
| `NoGap.RecordIsExact` | internal/ingest/worker.go:82-131 | over every run, the record of what was handed over and listed holds exactly the log positions and products of the pages that were processed successfully |
| `NoGap.UnusableMeansFresh` | internal/ingest/worker.go:66-70 | a change-feed request restarts the sync exactly when the instance is gone or the position aged out; otherwise the page is the very next stretch |
| `Resumption.CrashResumesAtLastSave` | internal/ingest/worker.go:44-50 | over every run, a crash with a good load resumes exactly at the position of the last successful save, with the table and the record intact |
| `Resumption.StoredIsLastSave` | internal/ingest/worker.go:210-220 | in every reachable state the stored text stands for the position right after the last successful save, of an advance or of a fresh start |
| `Resumption.CrashStartsAfresh` | internal/ingest/worker.go:45-49 | the worker starts afresh only without any save so far or when the text cannot be loaded |
| `Resumption.CrashAfterSaveLosesNothing` | internal/ingest/worker.go:107-109 | a crash right after a page was processed and saved leaves the position at the end of that page |
| `CatchUp.LeftAloneItCatchesUp` | internal/ingest/worker.go:53-79 | from any reachable state, with a quiet feed and successful rounds of any limits, a computable number of rounds always reaches the head, stale instances and aged-out positions included |
| `CatchUp.LeftAloneItConverges` | internal/ingest/worker.go:53-131 | from any state of the convergence invariant, that number of clean rounds ends with the feed's current offers in the table |
| `CatchUp.RoundIsTurn` | internal/ingest/worker.go:53-79 | the protocol's round moves the position exactly as one turn of the worker's loop |
| `CatchUp.IdleMeansHead` | internal/ingest/worker.go:120-131 | the worker rests after a page of the change feed exactly when that page took it to the head of the log it was answered from |
| `TiedReplay.RowAfterPage` | internal/ingest/store.go:110-116 | a page of updates in the feed's order leaves a row alone if it is newer, and else writes the first update that ties with the product's last |
| `TornPage.TornListingHeals` | internal/feedgen/server.go:88-91 | a product listed at any log length, with any stamp, before or after the pin, and then replayed in one page, is current exactly if the listing missed no update (the last one, with a different offer, after the read, and below the pin or older than the stamp) and the page's first update tied with the last one shows the same offer |
| `SplitResponse.SplitIsPipeline` | internal/feedgen/server.go:73-97 | a run with responses taken apart into read, stamp and close steps moves positions, logs and table as a run of the protocol does |
| `SplitConvergence.SplitSkipsOnlyBeforePin` | internal/ingest/worker.go:88-96 | with products read one by one, for both positions: each update below the position has been replayed since its product's last listing, or the listing shows it, or it fell between the product's read and the pin |
| `SplitConvergence.ReplayedWasWritten` | internal/ingest/worker.go:121-131 | an update counts as replayed only if a page of the running instance that held it was written |
| `SplitConvergence.SplitRunsExact` | internal/feedgen/server.go:88-91 | after any such run, with ticks, restarts and crashes inside the responses and any ties, a row at the head is current if and only if the product's last listing missed no update and the page that last replayed its last update does not begin its tied updates with a different offer; a missed update fell inside the response that listed the product |
| `SplitConvergence.SplitRunKeeps` | internal/ingest/worker.go:82-131 | every state of such a run: each row is its last listing or what the last page that took effect made of it, and for both positions the updates replayed are exactly those past the pin |
| `SplitConvergence.RowReplayed` | internal/ingest/store.go:180-192 | replaying a page over a listed row keeps the newer of the two, ties to the page and inside it to the first |
| `SplitConvergence.QuietListingsConverge` | internal/ingest/worker.go:88-91 | where no tick updates a product twice, responses need not be atomic: it is enough that no product is updated between its read and the end of its response |
| `MissedUpdates.TornPinRun` | internal/feedgen/server.go:88-91 | a run of one product, updated between its listing and the pin, that ends at the head with the old offer |
| `MissedUpdates.StampRaceRun` | internal/feedgen/server.go:88-89 | a run of two products, the second updated between its read and its stamp, that replays the update and still ends at the head with the old offer |
| `MissedUpdates.TiedTickRun` | internal/feedgen/stream.go:85 | a run of one product, updated twice by one tick, that replays both updates and ends at the head with the first |
| `WorkerLoop.Worker.CatalogStep` | internal/ingest/worker.go:82-109 | pins on the first page, refuses another instance exactly then, advances only after processing, ends the sync on a missing next cursor; a successful save makes the text read back as the new position |
| `WorkerLoop.Worker.OffersStep` | internal/ingest/worker.go:111-131 | refuses another instance before anything else, advances only after processing, is idle exactly when nothing is left; a successful save makes the text read back as the new position |
| `WorkerLoop.Worker.SaveCursor` | internal/ingest/worker.go:210-220 | stores `catalog:<epoch>:<index>:<seq>` or `offers:<epoch>:<seq>`, which reads back as the position, or leaves the old text if the save fails |
| `WorkerLoop.Worker.RunOnce` | internal/ingest/worker.go:53-79 | one loop turn, field by field: a fresh start exactly for an unusable position, the page's next position exactly after processing, and a stored text that reads back as it exactly after a successful save |
| `WorkerLoop.Worker.constructor` | internal/ingest/worker.go:45-49 | resumes from the stored text, or afresh when it cannot be loaded |
| `CursorCodec.RoundTrip` | internal/ingest/worker.go:210-237 | a stored position reads back as itself exactly when an offers position carries no catalog index |
| `CursorCodec.EncodeText` | internal/ingest/worker.go:210-216 | the text of a position, field by field |
| `CursorCodec.UintSaturates` | internal/ingest/worker.go:226-232 | a printed number reads back as itself, or as the greatest one its field holds |
| `CursorCodec.IntSaturates` | internal/ingest/worker.go:227 | the same for the signed index, at both ends |
| `CursorCodec.UnreadableNumberIsZero` | internal/ingest/worker.go:226-232 | a field with a character that is no digit counts as 0 unless its digits were too large already |
| `CursorCodec.EncodeInjective` | internal/ingest/worker.go:210-216 | two positions share a text only if they differ in nothing but an unused catalog index |
| `CursorCodec.ForeignTextStartsFresh` | internal/ingest/worker.go:222-237 | a foreign tag or the wrong number of fields, pre-epoch formats included, starts a fresh sync |
| `FeedStream.Stream.Tick` | internal/feedgen/stream.go:79-114 | the log grows by the draws' updates, the buffer stays its last entries up to the cap and the overlay its current state; a dead feed emits nothing |
| `FeedStream.Stream.PickCarried` | internal/feedgen/stream.go:116-124 | the first carried candidate |
| `FeedStream.Stream.Current` | internal/feedgen/stream.go:127-134 | a product that was updated shows its last update, any other its base |
| `FeedStream.Stream.UpdatesSince` | internal/feedgen/stream.go:141-160 | gone exactly if past the head or more than the cap behind it; otherwise the next entries of the whole log, as many as the limit allows, and has_more exactly if some remain |
| `FeedStream.Stream.Stats` | internal/feedgen/stream.go:174-178 | the head, the number of buffered entries and of products updated so far |
| `FeedLog.Pick` | internal/feedgen/stream.go:116-124 | a carried candidate if there is one, none otherwise |
| `FeedLog.PickIsFirst` | internal/feedgen/stream.go:116-124 | it is the first carried candidate |
| `FeedLog.Ticked` | internal/feedgen/stream.go:85-110 | a tick only appends, numbers its updates onward and stamps them alike, however the moved prices were rounded |
| `FeedLog.TickedMoves` | internal/feedgen/stream.go:85-110 | each update of a tick belongs to one draw, in order: it moves the first carried candidate from its state at that point of the log |
| `FeedLog.MoveChangesOneThing` | internal/feedgen/stream.go:95-105 | an update either turns the stock around or moves the price to the 99-cent end of the hundred the moved amount falls in, at least 99 cents, and leaves the other alone |
| `FeedLog.OverlayIsCurrent` | internal/feedgen/stream.go:127-134 | overlay with base behind it equals the last update or base of the whole log |
| `FeedLog.StateAfterUpdate` | internal/feedgen/stream.go:127-134 | a product that was updated shows its last update |
| `FeedLog.DrainIsGapless` | internal/feedgen/stream.go:136-160 | paging with any limits and any ticks in between yields the log without gap or repeat until gone |
| `FeedLog.DrainReachesHead` | internal/feedgen/stream.go:136-160 | against a quiet feed a usable position with positive limits reaches the head and never goes gone |
| `CatalogPaging.WalkCoversCatalog` | internal/feedgen/server.go:73-97 | following next_cursor with any limits lists each carried product once and in order, and ends after at most one page per product |
| `CatalogPaging.PageShape` | internal/feedgen/server.go:82-95 | at most one item over the limit, full unless the catalog ended, and a next cursor past the request, so never 0 |
| `CatalogPaging.CarriedExact` | internal/feedgen/server.go:84-87 | the listing is exactly the carried indices of the range, strictly increasing |
| `FeedServer.HandleCatalog` | internal/feedgen/server.go:73-97 | the response holds the items of the scanned range at the current log, the next cursor, the head and the epoch |
| `FeedServer.PageRangeExact` | internal/feedgen/server.go:74-95 | the range runs from the cursor, a negative one counting as 0, to the index where the limit, capped as configured, is first reached, or to the end, and then without a next cursor |
| `FeedServer.HandleOffers` | internal/feedgen/server.go:102-118 | 410 exactly if the position is past the head or more than the cap behind; else the items of the next stretch up to the limit, the position after it, and has_more exactly if that is not the head |
| `FeedServer.PageItemCount` | internal/feedgen/server.go:82-90 | a page holds as many items as its scan counted, near-duplicates included |
| `FeedServer.CatalogPageDecodes` | internal/feedgen/server.go:82-90 | with presentation quirks only on its own carried products, the items of a page normalize one for one to the feed's current offers |
| `FeedServer.PageWritesListCurrent` | internal/feedgen/server.go:88-89 | those offers form a page as the convergence theorem assumes it |
| `FeedServer.OffersPageDecodes` | internal/feedgen/server.go:112-117 | with presentation quirks only, the items of a change-feed page normalize one for one to writes that replay exactly its updates in order, as convergence assumes |
| `FeedWire.AppendItem` | internal/feedgen/server.go:154-206 | appends the item with the chosen quirks and, if any, one near-duplicate that differs in its SKU only |
| `FeedWire.VariantsCollapse` | internal/feedgen/server.go:208-228 | no style or mangling of any SKU text changes its key |
| `FeedWire.KeyIdentifies` | internal/ingest/normalize.go:142-153 | every SKU printed for a product has that product's key |
| `FeedWire.VariantsPrinted` | internal/feedgen/server.go:208-228 | the six texts under which a SKU is printed |
| `FeedWire.KeyInjective` | internal/feedgen/universe.go:94 | different products have different keys |
| `FeedWire.PresentationIsInvisible` | internal/ingest/normalize.go:74-130 | every item emitted with presentation quirks normalizes to the offer's key, exact price, stock flag, timestamp, title, brand, category and URL |
| `FeedWire.QuirkOutcome` | internal/feedgen/server.go:154-206 | what becomes of an item under any combination of quirks: the unit bug out of range, a foreign currency or a time too far ahead reject it in this order, otherwise it is taken at the amount sent, at its time less the staleness or at the present |
| `FeedWire.QuirksShow` | internal/feedgen/server.go:158-203 | what each quirk does to each field of the item and of its near-duplicate, and that nothing else is touched |
| `Normalization.NormalizeSKU` | internal/ingest/normalize.go:144-153 | the key is the upper-cased letters and digits, so trimming does not matter |
| `Normalization.AcceptedIsBounded` | internal/ingest/normalize.go:79-109 | an accepted item has a price in range, a key of legal length and characters, and no future timestamp |
| `Normalization.AcceptedExactly` | internal/ingest/normalize.go:74-109 | an item is accepted if and only if its key has 4 to 64 characters, its price is readable and in range, its currency absent or USD, and its timestamp absent or readable and at most five minutes ahead |
| `Normalization.AcceptedCarries` | internal/ingest/normalize.go:98-129 | an accepted item carries each value from its own field, trimmed where it is text, with the present for a missing timestamp and in stock for a missing flag |
| `Normalization.RejectionNamesFirstFailure` | internal/ingest/normalize.go:74-109 | each reason is given exactly when its condition is the first that fails |
| `Normalization.PriceSource` | internal/ingest/normalize.go:155-173 | whole cents win over dollars; a dollar number or text is rounded to the nearest cent |
| `Normalization.TrimExact` | internal/ingest/normalize.go:117-126 | trimming cuts off exactly the spaces at both ends |
| `Prices.WireFormatsAgree` | internal/ingest/normalize.go:155-173 | float and string forms both carry every price up to 2^50 cents exactly through the roundings |
| `Prices.DollarsRoundTrip` | internal/feedgen/server.go:185-186 | two float roundings of c/100 times 100 round back to c |
| `Prices.PriceTextValue` | internal/feedgen/server.go:187-188 | the string form denotes exactly the price |
| `Prices.RoundIsNearest` | internal/ingest/normalize.go:172 | rounding gives the nearest whole cent, halves away from zero |
| `Prices.SignedNumeral` | internal/ingest/normalize.go:168 | a sign in front of a number does what it says |
| `Prices.FloatTestIsExact` | internal/ingest/normalize.go:134-140 | for every pair of valid prices the float spike test equals the exact integer test |
| `Prices.UnitBugCaught` | internal/ingest/normalize.go:60-72 | range and spike test catch the 100x bug exactly for prices above 2000 cents, at least a fifth of the held price, or under a two-thousandth of it |
| `Prices.RangeAloneStartsAbove20Dollars` | internal/ingest/normalize.go:60-63 | the range check alone catches it exactly above 2000 cents |
| `Prices.FeedStepNeverSuspect` | internal/feedgen/stream.go:99-104 | one feed move of any valid draw from any price of at least 99 cents keeps the 99-cent form and is never a spike, however the product was rounded |
| `Binary64.BinaryRoundingQualifies` | internal/ingest/normalize.go:134-140 | every rounding to the nearest 53-bit float, ties to even, has the error bound and monotonicity that the price theorems assume |
| `Binary64.NearestIsBinary64` | internal/ingest/normalize.go:134-140 | there is such a rounding, so the price theorems hold of float64 |
| `LastWriteWins.BatchRefinesApplyAll` | internal/ingest/store.go:110-116 | dedupe and one guarded statement equal one-at-a-time writes exactly when tied timestamps agree |
| `LastWriteWins.DistinctTimesSuffice` | internal/ingest/store.go:110-116 | distinct timestamps per key are enough |
| `LastWriteWins.DedupeKeepsFirstLatest` | internal/ingest/store.go:110-116 | dedupe keeps every key, with the first of its newest items |
| `LastWriteWins.ApplyAllKeepsLastLatest` | internal/ingest/store.go:185-192 | one-at-a-time guarded writes end with the last of the newest items, unless the row was newer |
| `LastWriteWins.StatementSettles` | internal/ingest/store.go:180-192 | over distinct keys the order of the guarded writes does not affect their result |
| `LastWriteWins.TiedBatchDiverges` | internal/ingest/store.go:113 | two tied items for which the two paths differ |
| `LastWriteWins.TimestampsNeverDecrease` | internal/ingest/store.go:192 | over any run of batches no row is lost or goes back in time |
| `StoreClass.Store.UpsertBatch` | internal/ingest/store.go:104-199 | each resolved SKU makes one observation on its offer and nothing else changes; rows ascend by product and every SKU is reported once; a failure leaves the offers alone |
| `StoreClass.Store.JudgeBatch` | internal/ingest/store.go:128-150 | whatever the map order, each SKU gets the verdict its offer had before the batch, and only its own streak moves |
| `StoreClass.Store.UpsertOffers` | internal/ingest/store.go:158-197 | the guarded statement over distinct products: a row that is newer stays, any other shows the item in each column, an empty category or brand keeping the old one; and how many rows it affects |
| `StoreClass.Store.ResolveProducts` | internal/ingest/store.go:204-269 | exactly the unknown titled SKUs become products with new distinct ids, inserted in byte order, and the result maps every SKU that has a product |
| `StoreClass.Store.NoteSpike` | internal/ingest/store.go:45-57 | one more rejection on this offer only, accepted and reset at the third |
| `StoreClass.Store.ClearSpike` | internal/ingest/store.go:59-63 | resets this offer's streak only |
| `BatchHistory.StoreIsBatch` | internal/ingest/store.go:110-192 | without a rejection, the store's effect on an offer is the deduped guarded batch |
| `BatchHistory.BatchColumns` | internal/ingest/store.go:133-192 | what a stored batch does to a resolved offer, column by column: a price held back or a stale item leaves the row, any other shows in every column it fills; and its streak |
| `BatchHistory.ColumnsOverRuns` | internal/ingest/store.go:178-192 | after any run of attempts, price, URL, stock and time are those of the last sighting stored, let through and not stale, category and brand the last ones named among those, or what was there |
| `BatchReport.ReportExact` | internal/ingest/store.go:80-96 | the report lists once each the SKUs let through by ascending product, those held back with the held price and those without a product, and counts the overrides and the stale rows |
| `BatchReport.UnknownAreUntitled` | internal/ingest/store.go:128-131 | the SKUs without a product are those untracked before that came without a title |
| `BatchHistory.StatementIsSettled` | internal/ingest/store.go:156-192 | the store's statement over distinct products is one guarded write per offer, whatever the row order |
| `BatchHistory.BatchRefinesSingleWrites` | internal/ingest/store.go:110-198 | without rejections and with agreeing ties, price, stock, URL and timestamp end as if the items had been written one by one |
| `BatchHistory.TimestampsNeverGoBack` | internal/ingest/store.go:180-192 | no batch, rejections included, loses an offer or moves its timestamp back |
| `BatchHistory.RunsNeverGoBack` | internal/ingest/store.go:180-192 | over any run of attempts, rejections, failures and restarts included, no offer is lost or goes back in time |
| `BatchHistory.OffersAreIndependent` | internal/ingest/store.go:40-63 | over any run of batches, failed and retried ones and process restarts included, an offer is what its own sightings make of it; other products and retailers never interfere |
| `BatchHistory.StreaksOverRuns` | internal/ingest/store.go:32-63 | after any such run the streak is the number of consecutive suspect sightings modulo the override since the last plausible price or restart, one for each attempt stored or not, and the row holds exactly the stored sightings let through |
| `BatchHistory.BlipsOverRuns` | internal/ingest/store.go:133-150 | while a run shows an offer only suspect prices, its row changes if and only if a third sighting since a restart, retries counted, is stored and not older than the row |
| `BatchHistory.RetriedPageOverrides` | internal/ingest/store.go:141-194 | a page whose batch is lost twice and stored on the third try makes its corrupt item the held price |
| `InterleavedBatches.InterleavingIsInvisible` | internal/ingest/store.go:40-63 | in any interleaving of the workers' reads, judgements and statements, each retailer's rows, streaks and batch are what its own steps alone would leave |
| `InterleavedBatches.InterleavedBatchIsAtomic` | internal/ingest/store.go:123-194 | so a batch, with any steps of other workers in between, moves every offer of its retailer exactly as one atomic attempt |
| `ProductRaces.AllWorkersAgree` | internal/ingest/store.go:204-269 | over any interleaving of the workers' lookups, inserts, selects and publications, the cache never disagrees with the table and holds what every worker has resolved, all workers map a SKU to the same id and different SKUs to different ids, and every titled SKU has one |
| `ProductRaces.SelectFindsAll` | internal/ingest/store.go:242-267 | a worker that selects ends with the id of every SKU of its batch that the table has, titled or not |
| `ProductRaces.IdsNeverChange` | internal/ingest/store.go:230-240 | an id once in the table stays, restarts of the process included |
| `SpikeStreak.StreakCountsConsecutiveSuspects` | internal/ingest/store.go:32-57 | the counter is the length of the trailing run of suspect sightings, stored or not, since the last restart, modulo three, so below three |
| `SpikeStreak.OnlyThirdSuspectsAreWritten` | internal/ingest/store.go:133-150 | exactly the stored sightings that are plausible or every third consecutive suspect reach the row |
| `SpikeStreak.ObservationExact` | internal/ingest/store.go:133-150 | one observation: held back the first and second time in a row it is suspect, otherwise it clears the streak and shows in the row unless the row is newer |
| `SpikeStreak.RowIsLastLanded` | internal/ingest/store.go:180-192 | over any run of sightings, price, URL, stock and time are those of the last one that reached the row |
| `SpikeStreak.CategoryIsLastNamed` | internal/ingest/store.go:178-191 | and the category is the last non-empty one among them, or the original |
| `SpikeStreak.BrandIsLastNamed` | internal/ingest/store.go:178-191 | the same for the brand |
| `SpikeStreak.BlipExact` | internal/ingest/store.go:32-38 | a run of suspect prices changes the row if and only if some third sighting since a restart is stored and not older than the row |
| `SpikeStreak.BlipWithinRetries` | internal/ingest/store.go:32-38 | wrong prices of distinct pages are harmless, whatever becomes of each attempt, if and only if the pages are taken up fewer than three times in all |
| `SpikeStreak.BlipLeavesNoTrace` | internal/ingest/store.go:59-63 | after such a blip the next plausible price finds the offer as if the blip had not been |
| `SpikeStreak.RetriesAcceptABlip` | internal/ingest/store.go:141-194 | one corrupt item, sighted three times because two attempts failed, is held |
| `SpikeStreak.PersistentPriceIsAccepted` | internal/ingest/store.go:32-38 | from any row and streak, three or more stored observations of one price end with it held |
| `ProcessItems.ProcessPage` | internal/ingest/worker.go:133-208 | quarantine is the rejects, the spikes and the untitled in order, and the events are those of the accepted rows |
| `ProcessItems.ItemsAreConserved` | internal/ingest/worker.go:133-208 | each payload ends in exactly one of quarantine, rows written or collapsed duplicates, as often as it came in; one event per row |
| `ProcessItems.QuarantineReasons` | internal/ingest/worker.go:140-169 | a payload is quarantined with a reason if and only if validation rejects it for that reason, or its price is held back, or its SKU has no product |
| `ProcessItems.SiftExact` | internal/ingest/worker.go:139-156 | accepted are exactly the payloads that validate and rejected, with the reason, exactly the others |
| `ProcessItems.SiftInOrder` | internal/ingest/worker.go:139-156 | items and rejects keep the order of the page |
| `ProcessItems.CollapsedLost` | internal/ingest/store.go:110-116 | a collapsed duplicate lost to an item of its own SKU that is no older |
| `LockOrder.OrderedLockingNeverDeadlocks` | internal/ingest/store.go:154-156 | if every statement lists its locks in one order, some unfinished session can always step, for any number of sessions |
| `LockOrder.EveryScheduleCompletes` | internal/ingest/store.go:154-156 | on every schedule of enabled steps no lock is ever shared, and the schedule can go no further exactly when it has done all the work, which is when every statement has committed |
| `LockOrder.AllStatementsComplete` | internal/ingest/store.go:154-156 | any schedule of enabled steps so far extends to one of exactly the remaining work that commits every statement |
| `LockOrder.OppositeOrdersDeadlock` | internal/ingest/store.go:154-156 | two statements in opposite orders can block each other for good |
| `StatementLocks.StoreStatementsNeverDeadlock` | internal/ingest/store.go:220-247 | product inserts in SKU order and offer upserts in product order are such statements |
| `StatementLocks.StoreStatementsComplete` | internal/ingest/store.go:220-247 | from the moment they are sent, the store's statements never share a lock and stop only when all have committed |
| `StatementLocks.LocksAreRows` | internal/ingest/store.go:178-192 | a statement locks exactly the rows it writes |
| `Ordering.LessStringDecides` | internal/ingest/store.go:220 | SKUs are ordered by the first byte in which they differ, a proper prefix first |
| `HistoryWriter.SettledSetShape` | internal/ingest/chwriter.go:64-77 | in every interleaving the counters add up, and what is written or dropped is a prefix, then the open flight as a gap, then the rows dropped meanwhile, with the buffer at its cap |
| `HistoryWriter.LostExactly` | internal/ingest/chwriter.go:139-169 | over every run a row is lost if and only if some action pushes the buffer over its cap; otherwise exactly what the counter covers is written, failed inserts notwithstanding |
| `HistoryWriter.StepSettles` | internal/ingest/chwriter.go:127-169 | an action writes exactly the flight that lands and drops exactly the oldest rows over the cap |
| `HistoryWriter.ActKeepsShape` | internal/ingest/chwriter.go:171-177 | the counters never go back, and a channel is closed exactly when the counter moves |
| `HistoryWriter.EitherEndingClosesTheGap` | internal/ingest/chwriter.go:139-157 | success and failure both leave a plain prefix, and after mid-flight drops the same counters and buffer |
| `HistoryWriter.ReleasedMeansSettled` | internal/ingest/chwriter.go:79-97 | a released watermark is settled exactly if no flight is open or it precedes the flight |
| `HistoryWriter.NoMidFlightDropMeansSettled` | internal/ingest/chwriter.go:19-23 | without a drop inside the open flight a released watermark is always settled |
| `HistoryWriter.OverflowReleasesEarly` | internal/ingest/chwriter.go:162-169 | a run that releases a waiter whose row is still in flight |
| `HistoryWriter.FlushReachesWatermark` | internal/ingest/chwriter.go:127-157 | a flush that takes off after a watermark was issued and succeeds reaches it, whatever is added meanwhile |
| `CHWriterClass.CHWriter.Add` | internal/ingest/chwriter.go:64-77 | the queue is its latest rows up to the cap, the counter moves by those dropped and the channel is closed if any was, the watermark is the new enqueue count, a full batch asks for a flush |
| `CHWriterClass.CHWriter.CheckFlushed` | internal/ingest/chwriter.go:81-97 | released exactly at the counter, otherwise the channel to wait on and a flush asked for |
| `CHWriterClass.CHWriter.FlushBegin` | internal/ingest/chwriter.go:127-134 | everything buffered takes off |
| `CHWriterClass.CHWriter.FlushEnd` | internal/ingest/chwriter.go:136-157 | success advances the counter by the flight and wakes; failure puts the flight back in front and keeps the latest rows up to the cap |
| `CHWriterClass.CHWriter.DropOverflowLocked` | internal/ingest/chwriter.go:162-172 | trims the oldest rows to the cap, counts them as handled and wakes |
| `Waiters.NoLostWakeup` | internal/ingest/chwriter.go:81-97 | a waiter on the current channel is rightly blocked and work is pending; any other blocked waiter can wake |
| `Waiters.FlushReleasesWaiters` | internal/ingest/chwriter.go:127-177 | after a later successful flush every waiter at or below its watermark wakes, looks and is released |
| `Waiters.ReleasedWithOwnRows` | internal/ingest/worker.go:206-207 | a worker that has added rows and is released, with no flight open, has all of them written or dropped |
| `CursorDurability.StoredCursorsAreDurable` | internal/ingest/worker.go:201-208 | with any number of workers and any crashes, if no wait ends while a row of its own batch is in flight, everything at or below every cursor, stored or in memory, is written or counted as dropped |
| `CursorDurability.CursorsDurableExactly` | internal/ingest/chwriter.go:19-23 | over every run, cursors stay durable throughout if and only if every commit is clear of the open flight |
| `CursorDurability.CommitExact` | internal/ingest/chwriter.go:81-97 | a commit that goes ahead keeps the cursors durable exactly if its batch shares no row with the open flight |
| `CursorDurability.CommitSurvivesCrash` | internal/ingest/worker.go:201-208 | a commit adds its batch to the cursor, and one whose save succeeds is what a crashed worker resumes with; nothing durable is lost by the crash |
| `CursorDurability.StoredIsLastSaved` | internal/ingest/worker.go:201-208 | over every run, what a cursor on disk covers is what it covered in memory right after its last successful save |
| `CursorDurability.OnlyCommitsMove` | internal/ingest/worker.go:206-208 | a cursor moves only by a commit that goes ahead, a resync or a crash; a cancelled wait leaves it |
| `CursorDurability.CalmIsClear` | internal/ingest/chwriter.go:162-169 | it is enough that no row is dropped while a flight is open |
| `CursorDurability.MidFlightDropLosesARow` | internal/ingest/chwriter.go:162-169 | a run with such a drop whose stored cursor covers a lost row |
| `Rollup.ReplaysAreHarmless` | db/clickhouse/001_init.sql:18-30 | inserting the same events again in any order leaves the rollup unchanged exactly when no group has two prices at its latest timestamp |
| `Rollup.TiedPricesDiverge` | db/clickhouse/001_init.sql:18-30 | two prices at one timestamp: a replay changes the last price |
| `Rollup.RollDescribes` | db/clickhouse/001_init.sql:22-30 | each group holds its true minimum, maximum and a price at its latest timestamp |
| `Rollup.GroupsAreDays` | db/clickhouse/001_init.sql:18-30 | two events share a group exactly if they are of one product and retailer and fall on one day |
| `Rollup.PartsMerge` | db/clickhouse/001_init.sql:18-30 | merging the partial states of two sets of inserts gives the rollup of all of them |
| `Collections.WalkRefinesAggregation` | internal/api/collections.go:122-187 | the capped early-stopping walk returns a prefix of the full aggregation, and all of it when the rows fit the cap or the page is full |
| `Collections.BestIsLeast` | internal/api/collections.go:76-80 | the first row of a product in price order carries its least matching price |
| `Collections.FirstRowsGroup` | internal/api/collections.go:126-145 | the walk's rows have the same products as the offers, each once |
| `CollectionWalk.LoadCollection` | internal/api/collections.go:84-188 | the loops, index map and in-place filter compute the specified page, which is a true and, unless the scan cap cut it short, complete one |
| `CollectionWalk.CollectProducts` | internal/api/collections.go:122-145 | the first rows of the first products up to the target, and an index map that points at them |
| `CollectionWalk.FillCounts` | internal/api/collections.go:150-173 | each item gets its own product's count, in whatever order they arrive |
| `CollectionWalk.FilterInPlace` | internal/api/collections.go:175-183 | moving kept items to the front of the same storage keeps exactly those with enough offers |
| `CollectionWalk.WalkIsPage` | internal/api/collections.go:76-188 | the page has distinct products by ascending price, each in stock and within the rules at the least price of all its offers, beyond the scan cap too, with its true offer count, at least min_offers; unless the cap cut the walk short of a full page, a product that qualifies is on it or the page is full and costs no more |
| `Collections.ReferenceIsComplete` | internal/api/collections.go:122-187 | the full aggregation misses no qualifying product |
| `SingleFlight.OneFillPerKey` | internal/api/cache.go:48-62 | at most one fill per key is running |
| `SingleFlight.InflightIsExact` | internal/api/cache.go:49-65 | `inflight` holds exactly the flights registered and not yet removed by their leader, those of panicked fills included |
| `SingleFlight.FollowersGetTheLeadersResult` | internal/api/cache.go:49-67 | an answered follower has exactly its leader's result, set before the channel was closed, once |
| `SingleFlight.WaitersAreServed` | internal/api/cache.go:51-67 | a waiting follower can receive, or its leader has a step that brings the close nearer, or the fill has panicked |
| `SingleFlight.PanicWedgesKey` | internal/api/cache.go:62-66 | after a fill panics its flight stays registered and open whatever happens, nobody fills the key again, and its followers can only wait or give up |
| `SingleFlight.PanicRun` | internal/api/cache.go:62-66 | a run from the start whose fill panics and whose second request waits on it |
| `CacheClass.Cache.Enter` | internal/api/cache.go:48-60 | joins the key's registered flight or registers a new one |
| `CacheClass.Cache.GetOrFill` | internal/api/cache.go:41-68 | a hit touches nothing, a registered flight is joined, a miss publishes once and leaves no registration behind, and a panic leaves one |

## Left out

- Ordinary SQL, ClickHouse, Redis, HTTP and JSON behaviour: tables are maps, a statement is atomic and either happens or fails.
- Wall-clock time, tickers, poll intervals, backoff durations and context deadlines: time is a logical clock, cancellation is a step.
- Universe generation: which products are carried and their base prices are arbitrary inputs.
- `Convergence.SnapshotPlusReplayConverges`: assumes atomic responses, a clock that does not go back, strictly increasing timestamps per product, and that no item is rejected; what happens without atomic responses and with tied timestamps is in SplitConvergence. Products stand for their keys, which `FeedWire.KeyInjective` justifies.
- `CatchUp.LeftAloneItCatchesUp`: bounds the rounds of an undisturbed worker; fairness against an endlessly ticking feed is not stated.
- `BatchHistory.BatchRefinesSingleWrites`: leaves out category and brand, because an item that lacks them keeps the stored ones and dedupe may drop the item that had them.
- `CursorCodec.Parse`: texts are sequences of characters, and cursors longer than any 64-bit field only matter through saturation.
- `Normalization.Normalize`: text is ASCII, so Unicode upper-casing and spaces are not covered; attributes are not carried along.
- `Prices.ParseFloat`: plain decimals with a sign; exponents, hexadecimal, infinities and NaN are rejected here although the source would parse them.
- RFC 3339 parsing: a timestamp field is a logical time or unreadable.
- Counters of 64 bits in the history writer do not wrap; the enqueue count is unbounded.
- The title, brand, category and attributes of a product row: of products only the id is modelled.
- Row reads that fail half way through a result set, and locks taken through foreign keys.
- `LockOrder.AllStatementsComplete`: any step that is enabled may come next; the database's own lock queue is not modelled.
- `SplitConvergence.SplitRunsExact`: assumes a clock that does not go back and that no item is rejected.
- `NoGap.NoUpdateSkipped`: takes a catalog response as one reading of the feed; what holds when its products are read one by one is `SplitConvergence.SplitSkipsOnlyBeforePin`.
- `InterleavedBatches.InterleavedBatchIsAtomic`: takes the batch's product ids as given; how workers come by the same ids is in ProductRaces.
- Search, deals and similar products: ranking, medians and vector search happen inside the database.
- Showcase pages, metrics, configuration and migrations: presentation and plumbing around the pipeline.
- Health and index handlers and `clamp`: they report or bound single values and touch no state.
