# Satsbook verification model

Satsbook tracks a bitcoin holding: it imports exchange rows, reads a Lightning node and watched
wallets, computes capital gains, exports transactions to Monarch Money and checks its licence
against a server. This project models the parts where a mistake is quiet and expensive, and proves
what they promise over every input, every run and every failure they are built to survive.

Programs that change state step by step are classes and methods with loops (`Match`,
`DefaultChecker.Verify`, `Database.Sync`, `RateLimiter.Allow`, ...). Each is proved equal to a
function of its inputs or old state, and the theorems are about that function: over whole runs,
against an independent reference, or as exact conditions. The rules the functions are built from (what
is a cent, a purchase, a refusal, a duplicate, a long-term holding) are pinned by theorems that
write them out in numbers, columns and literal texts and do not use the functions' own helpers.

| files | what they cover |
|---|---|
| `Sums.dfy`, `CostBasis.dfy` | the lot matcher, sorted and drained in place |
| `Draining.dfy`, `Optimality.dfy`, `CostBasisTheorems.dfy`, `MinCut.dfy` | conservation, optimality against every feasible assignment, FIFO and LIFO as the two extremes, independence of method and ties |
| `LifoStack.dfy`, `FifoClosedForm.dfy`, `Causality.dfy`, `LiveEntries.dfy`, `Ties.dfy` | LIFO as a stack machine, FIFO as interval overlaps, closed years never change, entries of no size leave no trace, exactly when equal dates show |
| `Harvest.dfy`, `EventFacts.dfy` | tax-loss harvesting and Form 8949 totals, against the matcher; events and candidates in plain numbers |
| `MonarchNotes.dfy`, `MonarchExport.dfy` | at-most-once export and completeness of a cycle |
| `LicenseServer.dfy`, `LicenseChecker.dfy` | the licence table, the client's cache and grace period |
| `Forwarding.dfy` | exactly-once ingestion of forwarding events |
| `Imports.dfy` | `btc_lots` as an index of `exchange_imports` |
| `Snapshots.dfy` | live and backfilled portfolio snapshots |
| `GapScan.dfy` | the batched gap-limit scan |
| `RateLimiter.dfy` | the sliding-window limiter |
| `AutoTag.dfy` | channel transactions tagged as transfers beside the user's notes |

Satoshis and times are integers, dollars are reals. An unstable sort is any sorted permutation:
`Match` returns the sorted inputs it used as ghost results, and its contract says no more of them
than that they are date-ordered permutations; the body of `SortOn` only shows that one exists.

## Where the code says something else than its promise

- A request takes time. The client counts the grace period from when it reads the answer, not from
  when the server gave it, so a paid tier may outlive the grace period by the delay of one request.
  `PaidTierIsRecent` proves the bound with that delay; `GraceAloneExactly` proves that over all runs
  the grace period alone is a bound if and only if the delay is zero.
- `fallbackToCache` has a comment saying that the token's own expiry does not count within the grace
  period. The code downgrades on an expired token. `OfflineKeepsTier` follows the code and
  `KeptToTheEnd` gives the exact condition under which the tier lasts the whole grace period.
- A note is read back from after its last `"] "`. An id that contains one is never recognised again:
  `ParseInvertsNotes` and `ReexportIsRecognised` are equivalences. Nor is it only its own problem: the
  note of row `x] y` reads as row `y`, which is then reported synced without ever being created
  (`SuffixImpersonates`). `CreatedUnlessImpersonated` gives the exact condition.
- Two forwarding events of the same second, channels and outgoing amount share a key; the second is
  dropped with its fee. When fees are positive, the totals are the node's own if and only if the keys
  are distinct (`FeesCountedOnce`, over every run).
- The table of forwarding events is closed before the cursor's second (`PastIsClosed`): an event the
  node logs with an earlier date is never fetched, unless its key is there already
  (`LoggingKeepsConsistent`).
- A refusal whose cache write fails is forgotten at the next outage: the client is then back on the
  cached tier while the old row carries it (`RefusalThenOutage`).
- An import keeps `btc_lots` an index of `exchange_imports` if and only if the row agrees with the
  lot already kept (`RowKeepsIndex`). For rows that keep their date and amount, at any price, the
  index is lost exactly by a row that drops the price of the row it replaces
  (`IndexBrokenExactlyByDrop`, and `LotsIndexImports` over every run).
- Equal dates: the total matched does not depend on how they are sorted
  (`TiesAndMethodDoNotMatter`), but the events do. How lots are sorted shows exactly when two lots of
  positive size share a date (`OrderShowsExactlyForLiveTies`); how disposals are sorted shows exactly
  when two of positive size share a date and differ in size, proceeds or origin
  (`DisposalOrderShowsExactly`).
- A note edit can take a transfer mark away: clearing a note deletes the row, mark and all.
  `MarkSurvivesExactly` says over every run when a mark is there.
- A run of auto-tagging takes a text of the user's own for its label when it is one of the two
  labels: it is replaced exactly when the transaction is confirmed, opens or closes a channel, and
  deserves the other label (`RunChangesTextExactly`).
- A deletion webhook that arrives before its checkout is lost, and the licence the checkout then
  makes stays valid (`DeletionBeforeCheckoutIsLost`). `CancelledExactly` says over every sequence of
  deliveries when a licence is cancelled.

## Model

| member | source | states |
|---|---|---|
| `CostBasis.Match` | internal/tax/costbasis.go:70-147 | fails exactly for an unknown method; otherwise the events and unmatched total are those of `Run` over some date-sorted permutation of the inputs |
| `CostBasis.CandidateLots` | internal/tax/costbasis.go:151-167 | the open lots acquired on or before the disposal, oldest first for FIFO and newest first for LIFO |
| `CostBasis.DrainInPlace` | internal/tax/costbasis.go:96-139 | draining one disposal in the array leaves the lots, events and remainder of the functional drain, and touches nothing but `RemainSat` |
| `CostBasis.Consume` | internal/tax/costbasis.go:115-138 | one event carries basis, proceeds, gain and term of its lot and disposal, and lowers that lot only |
| `CostBasis.ReverseInPlace` | internal/tax/costbasis.go:159-164 | the swapping loop is reversal |
| `CostBasis.RunFillsInRange` | internal/tax/costbasis.go:106-139 | every event is positive and names a lot and a disposal of the input |
| `Draining.EligibleIsPrefix` | internal/tax/costbasis.go:151-157 | the lots eligible for a disposal are exactly a prefix of the date-sorted lots |
| `Draining.OrderIsWalk` | internal/tax/costbasis.go:151-167 | building and reversing the candidate list is walking that prefix up or down over its open lots |
| `Draining.DrainConserves` | internal/tax/costbasis.go:106-139 | in any order, what the events take is what the lots lose, and no positive lot is overdrawn |
| `Draining.WalkUpTakesOldest` | internal/tax/costbasis.go:106-139 | FIFO empties every initial range of the eligible lots before touching a later one |
| `Draining.WalkDownTakesNewest` | internal/tax/costbasis.go:106-167 | LIFO empties every final range of the eligible lots before touching an earlier one |
| `Optimality.LifoTakesBestSuffix` | internal/tax/costbasis.go:94-167 | for every cut k, LIFO takes from lots k and later exactly the most that can be taken from them |
| `Optimality.FifoTakesOldest` | internal/tax/costbasis.go:94-167 | for every cut k, FIFO takes from the k oldest lots all it matched, up to what they hold |
| `Optimality.BothMatchBest` | internal/tax/costbasis.go:94-144 | both methods match the total given by G_j = min(G_{j-1} + d_j, eligible supply) |
| `Optimality.MatchedPlusUnmatched` | internal/tax/costbasis.go:94-144 | matched plus unmatched is the total disposed |
| `Optimality.NoAssignmentBeatsBest` | internal/tax/costbasis.go:70-147 | no assignment respecting lot sizes, disposal sizes and dates takes more from lots k and later, after any number of disposals |
| `CostBasisTheorems.EventsTakeWhatLotsLose` | internal/tax/costbasis.go:94-144 | over whole runs and every cut, event amounts equal what the lots lost; remaining satoshis stay between zero (or a negative lot's amount) and the amount |
| `CostBasisTheorems.LotConserved` | internal/tax/costbasis.go:82-139 | per lot, consumed plus `RemainSat` is the amount |
| `CostBasisTheorems.MethodIndependence` | internal/tax/costbasis.go:70-147 | FIFO and LIFO leave the same unmatched amount and match the same total after every disposal |
| `CostBasisTheorems.MatcherIsOptimal` | internal/tax/costbasis.go:70-147 | no feasible assignment matches more than the matcher, after any number of disposals |
| `CostBasisTheorems.MatcherIsFeasible` | internal/tax/costbasis.go:94-144 | the matcher's own events are a feasible assignment, and its totals for every number of disposals and every cut are what the events say, so the optimum and both extremes are attained |
| `CostBasisTheorems.Extremes` | internal/tax/costbasis.go:94-167 | among feasible assignments matching the same total, FIFO takes most and LIFO least from the k oldest lots, for every k and after any number of disposals |
| `CostBasisTheorems.FillsRespectDates` | internal/tax/costbasis.go:149-157 | every event's lot was acquired on or before its disposal |
| `CostBasisTheorems.EventCountBound` | internal/tax/costbasis.go:94-144 | events plus lots still open number at most lots plus disposals |
| `EventFacts.EventsTakeShares` | internal/tax/costbasis.go:115-134 | every event is of a lot and a disposal of positive size and carries their id, dates and origin; its basis is to the lot's price, and its proceeds to the disposal's, as its satoshis are to theirs; gain is their difference; long-term exactly when held for more than 31 536 000 seconds |
| `EventFacts.ProceedsAreSplit` | internal/tax/costbasis.go:98-121 | the events of a disposal together book its proceeds in the proportion in which it was matched |
| `EventFacts.FullProceeds` | internal/tax/costbasis.go:98-121 | all of its proceeds, and no more, when it was matched in full |
| `EventFacts.NothingUnmatched` | internal/tax/costbasis.go:106-143 | with nothing unmatched, every disposal is matched in full, under any method |
| `EventFacts.NoProceedsLost` | internal/tax/costbasis.go:96-144 | with nothing unmatched, the events book exactly what the disposals of positive size brought |
| `MinCut.MatchedIsMinCut` | internal/tax/costbasis.go:70-147 | the matched total is the least, over all times T, of supply acquired by T plus demand after T, read off the unsorted input |
| `MinCut.TiesAndMethodDoNotMatter` | internal/tax/costbasis.go:75-92 | matched and unmatched totals do not depend on the method nor on how equal dates are sorted |
| `LifoStack.PopIsDrain` | internal/tax/costbasis.go:106-167 | popping a stack of open lots is draining the reversed candidate list |
| `LifoStack.LifoIsStackMachine` | internal/tax/costbasis.go:96-167 | pushing lots and popping on disposals in date order gives the same events in the same order, and the stack is what is left |
| `FifoClosedForm.DrainYieldsOverlaps` | internal/tax/costbasis.go:106-139 | one FIFO drain yields the non-empty overlaps of the lots' intervals with the disposal's |
| `FifoClosedForm.FifoIsClosedForm` | internal/tax/costbasis.go:96-157 | the FIFO events are exactly the non-empty overlaps of lot and disposal prefix-sum intervals, in order |
| `Causality.RunAgrees` | internal/tax/costbasis.go:104-139 | lots dated after T change no fill of the disposals dated by T, for any method |
| `Causality.EventsUpToAre` | internal/tax/costbasis.go:87-144 | the events disposed of by T are the events of the disposals dated by T alone |
| `LiveEntries.ClosedYearsIgnoreDeadEntries` | internal/tax/costbasis.go:70-147 | with distinct dates up to T among entries of positive size, adding anything dated after T leaves the events disposed of by T identical and in order, however both inputs are sorted |
| `LiveEntries.DeadLotsDoNotMatter` | internal/tax/costbasis.go:111-113 | lots of zero or negative size, such as Swan withdrawals, leave no trace in the events, wherever they stand |
| `LiveEntries.LiveDisposalsDecide` | internal/tax/costbasis.go:106-109 | disposals of zero or negative size leave no trace in the events |
| `Ties.AnyLotTieChangesEvents` | internal/tax/costbasis.go:78-80 | in any sort of any lots, for every method, exchanging two lots of one date, positive size and different ids changes the events of some disposal of that date |
| `Ties.AnyDisposalTieChangesEvents` | internal/tax/costbasis.go:90-92 | in any sort of any disposals, exchanging two of one date and positive size that differ in size, proceeds or origin changes the events of some lot |
| `Ties.OrderShowsExactlyForLiveTies` | internal/tax/costbasis.go:75-80 | for unique lot ids, how lots are sorted never shows in any events if and only if no two lots of positive size share a date |
| `Ties.DisposalOrderShowsExactly` | internal/tax/costbasis.go:87-92 | how disposals are sorted never shows in any events if and only if any two of positive size and one date have the same size, proceeds and origin |
| `Ties.WithoutTiesSortsAgree` | internal/tax/costbasis.go:75-92 | with neither kind of tie, any two sorts of both inputs give the same events |
| `Harvesting.Harvest` | internal/tax/harvest.go:33-109 | refuses exactly unknown methods; otherwise candidates, losses, year-to-date gain and warnings are those of the matcher's events |
| `Harvesting.ConsumedPerLot` | internal/tax/harvest.go:39-43 | the map holds, for every lot id, the sum of its events' amounts |
| `Harvesting.YearToDate` | internal/tax/harvest.go:45-52 | the gain of exactly the events from the start of the year to the given day |
| `Harvesting.FindRecentBuy` | internal/tax/harvest.go:54-63 | true exactly when some lot was acquired in the 30 days before |
| `Harvesting.FindCandidates` | internal/tax/harvest.go:73-101 | the open lots worth less than they cost, in input order, and the sum of their losses |
| `Harvesting.HarvestSeesMatcher` | internal/tax/harvest.go:39-77 | with unique lot ids, the remaining satoshis recomputed from events are the matcher's own |
| `Harvesting.BasisConserved` | internal/tax/harvest.go:73-81 | consumed plus remaining cost basis is the price paid, for every lot of non-zero size |
| `Harvesting.OpenIsBoughtLessMatched` | internal/tax/harvest.go:73-77 | over the input as given, the satoshis found open are those bought less those matched |
| `Harvesting.OpenTotalMethodIndependent` | internal/tax/harvest.go:73-77 | the satoshis found open over the input are the same for either method and any two ways of sorting |
| `EventFacts.CandidatesAreWorth` | internal/tax/harvest.go:73-98 | every candidate is an open lot whose satoshis, at the price of a coin, are worth less than they cost, and describes it in share, value and term |
| `EventFacts.WorthAreCandidates` | internal/tax/harvest.go:73-98 | every such lot is a candidate |
| `EventFacts.LossIsMarketLessCost` | internal/tax/harvest.go:81-100 | the total loss is what the candidates are worth less what they cost |
| `EventFacts.SpansAddUp` | internal/tax/harvest.go:45-52 | gains of adjacent spans add up, each event counting in exactly one |
| `EventFacts.WholeSpan` | internal/tax/harvest.go:45-52 | a span that holds all events realises all their gains, one that holds none realises nothing |
| `Harvesting.Summarize` | internal/tax/form8949.go:90-109 | sums of proceeds, basis and gain per term; counts add up to the events; total gain is short-term plus long-term, and proceeds minus basis for balanced events |
| `Harvesting.MatcherEventsBalanced` | internal/tax/costbasis.go:120-134 | every event of the matcher has gain equal to proceeds minus basis |
| `EventFacts.OneTerm` | internal/tax/form8949.go:99-105 | events all of one term make up that term's gain and count, and nothing of the other's |
| `MonarchNotes.ParseInvertsNotes` | internal/monarch/sync.go:492-494 | reading a note gives back the id it was written for if and only if the id has no `"] "` in it |
| `MonarchExport.FetchExistingSourceIDs` | internal/monarch/sync.go:420-455 | the ids read from the notes, the last transaction winning; nothing when the query failed |
| `MonarchExport.ExistingFinds` | internal/monarch/sync.go:420-455 | an id is reported as existing exactly when some listed transaction's note reads as it, and under that transaction's id |
| `MonarchExport.LastOneWins` | internal/monarch/sync.go:437-446 | of several transactions that read as an id, the last listed is reported |
| `MonarchExport.SyncTransactions` | internal/monarch/sync.go:339-416 | the batch, whatever becomes of each create, leaves the account, the synced map and the counters of `Export` |
| `MonarchExport.OneRowExactly` | internal/monarch/sync.go:369-411 | a row within a cent of zero on both sides is skipped and unreported; any other is reported under the transaction already known, or a create with its type and id in the note is sent, and reported when it succeeds |
| `MonarchExport.SyncedExactly` | internal/monarch/sync.go:369-411 | the ids reported synced are exactly those of rows of a cent or more, either way, that the dedup query knew or whose create succeeded |
| `MonarchExport.CountersExactly` | internal/monarch/sync.go:369-411 | created counts the accepted creates, errors those that reported failure, skipped all other rows |
| `MonarchExport.BatchKeepsAtMostOnce` | internal/monarch/sync.go:365-415 | a batch whose dedup answer lists the row, if it was there, adds no second copy of a readable id, whatever the other ids and whatever each create reports |
| `MonarchExport.AtMostOnceExport` | internal/monarch/sync.go:339-416 | over every run of batches, crashes, lost replies and stale lists, each row with a readable id has at most one Monarch transaction, whatever the other ids |
| `MonarchExport.ReexportIsRecognised` | internal/monarch/sync.go:420-455 | exporting a row twice leaves one copy if and only if its id has no `"] "` in it |
| `MonarchExport.ExportCopies` | internal/monarch/sync.go:369-411 | exactly what a batch does to the copies of any row: none is added if the dedup query knew it, otherwise one for each create that reaches Monarch, reported or not |
| `MonarchExport.SecondCopyExactly` | internal/monarch/sync.go:376-411 | a row held once is still held once after a batch if and only if the dedup query knew it or no create for it got through |
| `MonarchExport.FailedDedupDuplicates` | internal/monarch/sync.go:420-433 | after a failed dedup query, every create that gets through adds a copy, for any account and batch |
| `MonarchExport.BatchAccounts` | internal/monarch/sync.go:365-415 | created plus skipped plus errors is the batch length; without errors every row of at least 0.01 or at most -0.01 dollars is reported synced |
| `MonarchExport.SyncedAreInMonarch` | internal/monarch/sync.go:365-415 | every id reported as synced names a transaction Monarch holds whose note reads as that id |
| `MonarchExport.SyncedWereMade` | internal/monarch/sync.go:365-415 | that transaction was created for that row, when no note in the account reads as an id it was not written for |
| `MonarchExport.RunMakesNoImpostors` | internal/monarch/sync.go:492-494 | over every run of readable ids there is no such note, unless somebody else writes one |
| `MonarchExport.CreatedUnlessImpersonated` | internal/monarch/sync.go:378-415 | a row not yet in Monarch is always reported synced, and is created if and only if no note there already reads as its id |
| `MonarchExport.SuffixImpersonates` | internal/monarch/sync.go:444-446 | after row `x] y` is exported, the readable row `y` is reported synced under its transaction and never created |
| `MonarchExport.SyncTable.MarkTransactionSynced` | internal/db/queries.go:1682-1687 | a first mark is kept for good; later marks of the same row are ignored |
| `MonarchExport.SyncTable.MarkAll` | internal/syncer/syncer.go:324-328 | every synced row whose mark did not fail is marked, earlier marks win, in whatever order the map is walked |
| `MonarchExport.UnsyncedIs` | internal/db/queries.go:1631-1679 | a row is listed exactly when it is of a chosen type and source and not marked |
| `MonarchExport.SyncMonarchTransactions` | internal/syncer/syncer.go:284-331 | one cycle lists, exports and marks |
| `MonarchExport.CycleIsComplete` | internal/syncer/syncer.go:297-330 | after a cycle without create or mark errors only rows of less than 0.01 and more than -0.01 dollars remain unsynced for the chosen filters, and every new mark names a transaction whose note reads as the row's id, created for that row if there were no impostors |
| `LicenseServer.Lookup` | internal/licensedb/store.go:101-107 | finds a row with the key exactly when there is one |
| `LicenseServer.LookupBySubscription` | internal/licensedb/store.go:110-116 | finds a row with the subscription exactly when there is one |
| `LicenseServer.Store.Create` | internal/licensedb/store.go:140-182 | adds an active licence unless the key is taken, in which case nothing changes |
| `LicenseServer.Store.Revoke` | internal/licensedb/store.go:185-195 | cancels the rows of the key and nothing else; fails exactly when there is none |
| `LicenseServer.Store.Upgrade` | internal/licensedb/store.go:198-208 | changes the tier of the key's rows and nothing else, cancelled rows staying cancelled; fails exactly when there is none |
| `LicenseServer.Store.HandleCheckoutCompleted` | cmd/licenseserver/main.go:368-414 | picks the tier from metadata, price or subscription, and creates at most one licence per subscription |
| `LicenseServer.Store.HandleSubscriptionDeleted` | cmd/licenseserver/main.go:416-436 | revokes the subscription's licence, if any |
| `LicenseServer.Store.HandleSubscriptionUpdated` | cmd/licenseserver/main.go:438-468 | changes the tier when the new one is known and different |
| `LicenseServer.HandleKeeps` | cmd/licenseserver/main.go:368-468 | every webhook and command keeps keys unique, subscriptions single, and cancelled rows cancelled |
| `LicenseServer.CancelledForGood` | cmd/licenseserver/main.go:368-468 | no sequence of webhooks and commands makes a cancelled licence active again |
| `LicenseServer.OneLicensePerSubscription` | cmd/licenseserver/main.go:368-414 | over every sequence of deliveries, repeats included, a subscription has at most one licence |
| `LicenseServer.CancelledIsInvalid` | cmd/licenseserver/main.go:130-175 | the validate endpoint refuses a cancelled key |
| `LicenseServer.ValidateExactly` | cmd/licenseserver/main.go:130-175 | the endpoint grants exactly the keys with an active, unexpired row, at that row's tier, with a token for that key and tier that lasts 2 592 000 seconds |
| `LicenseServer.CheckoutExactly` | cmd/licenseserver/main.go:368-414 | a checkout for a new subscription adds one active licence without expiry, of the tier named, else of the price or the metadata, else "pro" |
| `LicenseServer.UpdateExactly` | cmd/licenseserver/main.go:438-468 | an update gives the subscription's licence the tier of the price, else of the metadata, else the one it had, and touches nothing else |
| `LicenseServer.DeletionExactly` | cmd/licenseserver/main.go:416-436 | a deletion cancels the subscription's licence and touches nothing else |
| `LicenseServer.CommandsExactly` | cmd/licenseserver/main.go:177-241 | revoke and upgrade touch the rows of their key alone; create adds one active licence unless the key is taken |
| `LicenseServer.CancelledExactly` | cmd/licenseserver/main.go:416-436 | after every sequence of webhooks and commands, a licence is cancelled if and only if, after it was created, its subscription's deletion or a revoke command for its key was delivered |
| `LicenseServer.DeletionBeforeCheckoutIsLost` | cmd/licenseserver/main.go:368-436 | a deletion delivered before the checkout changes nothing, and the checkout's licence stays valid |
| `LicenseChecker.DefaultChecker.SetKeyAndVerify` | internal/license/checker.go:110-113 | a new key is verified as if it had always been the key |
| `LicenseChecker.DefaultChecker.Verify` | internal/license/checker.go:126-157 | key, tier and cache after any answer, network failure or store failure |
| `LicenseChecker.DefaultChecker.FallbackToCache` | internal/license/checker.go:220-276 | the cached token's tier within the grace period and for the same key; otherwise free |
| `LicenseChecker.RefusalEndsTier` | internal/license/checker.go:191-193 | an explicit refusal makes the tier free at once and, if the write succeeds, leaves a row without a token |
| `LicenseChecker.RefusalLasts` | internal/license/checker.go:126-276 | over every run, after a refusal that was written the tier stays free, whatever fails and whichever key is set, until the server grants the key then set |
| `LicenseChecker.RefusalThenOutage` | internal/license/checker.go:146-148 | after a refusal and then an outage the cached tier is back exactly when the refusal could not be written and the old row still carries the client |
| `LicenseChecker.GrantGivesTier` | internal/license/checker.go:134-150 | a signed, live grant of this key and a known tier gives that tier and caches its token until the grace period ends |
| `LicenseChecker.OutageFallsBack` | internal/license/checker.go:220-276 | any other answer is an outage: the cached token's tier exactly while the row is readable, of this key, signed, live and within grace, and free otherwise |
| `LicenseChecker.CacheAlwaysJustified` | internal/license/checker.go:126-157 | over every run, a cached token was granted by the server for that key at most one request before the row was written |
| `LicenseChecker.PaidTierIsRecent` | internal/license/checker.go:126-276 | after any verification, a paid tier was held at the server, for that key and tier, within the grace period plus one request's delay |
| `LicenseChecker.GraceAloneExactly` | internal/license/checker.go:126-276 | over all histories and runs, the grace period alone bounds staleness if and only if the delay is zero |
| `LicenseChecker.RevocationReaches` | internal/license/checker.go:220-276 | a cancelled key is on the free tier at every verification after the grace period and one delay, despite network and store failures |
| `LicenseChecker.SuccessIsCached` | internal/license/checker.go:134-150 | a stored answer for a valid licence leaves the row the offline results start from |
| `LicenseChecker.OfflineKeepsTier` | internal/license/checker.go:220-276 | however often it verifies without a usable answer, with store failures anywhere, the client has the cached tier exactly when the last read succeeds, the grace period lasts and the token is live |
| `LicenseChecker.KeptToTheEnd` | internal/license/token.go:91-93 | the token is live for the whole grace period if and only if it outlives it |
| `LicenseChecker.DefaultGraceIsKept` | cmd/licenseserver/main.go:130-175 | the server's 30-day token outlives every grace period that ends a second before it |
| `Forwarding.ForwardingHistory` | internal/lnd/client.go:219-257 | pages add up to the whole window as of the last call, while the log grows |
| `Forwarding.SyncTx.InsertForwardingEvents` | internal/db/store.go:124-141 | inserts in order, ignoring keys already present |
| `Forwarding.Database.Sync` | internal/syncer/syncer.go:429-475 | a cycle commits the window from the cursor and the new cursor together, as the run's own step does, or changes nothing |
| `Forwarding.PagedReadIsRead` | internal/lnd/client.go:219-257 | the paged read returns every event logged before it from the window's start up to, not including, its end second |
| `Forwarding.InsertedFacts` | internal/db/db.go:105-106 | insertion keeps keys distinct, loses no row, invents none and covers every event's key |
| `Forwarding.ExactlyOnceForwarding` | internal/syncer/syncer.go:429-475 | over every run with aborts anywhere, the table has distinct keys, only logged events, and every one from the first window to the cursor's second |
| `Forwarding.ExactlyOnceByColumn` | internal/db/db.go:105-106 | over every run, no two rows agree in timestamp, both channels and outgoing amount, every row is a logged event, and every logged event of the covered seconds has a row that agrees in all four |
| `Forwarding.BatchByColumn` | internal/db/store.go:124-141 | after a batch, a row agrees with an event in the four columns exactly when one did before or an event of the batch does |
| `Forwarding.LoggingKeepsConsistent` | internal/syncer/syncer.go:436-442 | a logged event breaks that if and only if it is dated before the last window's end second and its key is not in the table |
| `Forwarding.PastIsClosed` | internal/syncer/syncer.go:436-471 | over every run, late entries or not, no later cycle adds or removes a key dated before the cursor's second |
| `Forwarding.FeesCountedOnce` | internal/syncer/syncer.go:429-475 | over every run, fee totals up to the cursor's second equal the node's own when no two events agree in the four columns, never exceed them when no fee is negative, and for positive fees equal them if and only if no two agree |
| `Imports.Database.Import` | internal/db/queries.go:375-470 | one import, as a transaction: tables and summary of the row rule, or nothing at all |
| `Imports.RowExactly` | internal/db/queries.go:375-780 | what one row does to both tables and to each counter, with the purchase types, amounts and prices of each source written out: a lot exactly for a purchase of a positive amount with a cost basis or else a dollar amount, and at Swan for deposits and negative withdrawals at price zero |
| `Imports.NewPurchasesAreNewLots` | internal/db/queries.go:434-461 | the new purchases reported are the lots a batch added, all of them for Strike, River and Coinbase |
| `Imports.OnlyRowsMakeLots` | internal/db/queries.go:424-462 | no lot is lost by an import, and none appears that no row of the batch makes |
| `Imports.RowsGetTheirLots` | internal/db/queries.go:403-462 | every row of a batch that makes a lot, and was not kept before, has it afterwards |
| `Imports.FreshImportExactly` | internal/db/queries.go:375-780 | into empty tables, the lots are exactly those of the rows that make one |
| `Imports.Database.ClearExchangeSource` | internal/db/queries.go:907-945 | removes and counts exactly the source's rows and lots |
| `Imports.RowKeepsIndex` | internal/db/queries.go:403-462 | importing a row keeps the lots the image of the imports if and only if the row agrees with the lot kept for its id |
| `Imports.IndexBrokenExactlyByDrop` | internal/db/queries.go:424-461 | a row that keeps its date and amount, at any price, breaks the index if and only if it drops the price of the row it replaces |
| `Imports.LotsIndexImports` | internal/db/queries.go:375-780 | over every run of imports and clears of all sources, with prices free to change, the lots are the image of the imports exactly while no kept row has lost its price, so always when no import drops one |
| `Imports.ClearKeepsIndex` | internal/db/queries.go:907-945 | clearing a source keeps the lots of the others the image of their imports |
| `Imports.ImportsHoldLatest` | internal/db/queries.go:403-422 | after any import into any tables, each key holds its last row of the batch, or what it held |
| `Imports.IndexIsUnique` | internal/db/queries.go:424-462 | the imports determine the lots |
| `Imports.OrderMattersExactly` | internal/db/queries.go:403-462 | two rows may be imported in either order into any tables if and only if they are equal, or have different keys and do not give one id different lots |
| `Imports.RowOrderDoesNotMatter` | internal/db/queries.go:375-470 | such rows give the same tables in every order |
| `Imports.BatchOrderDoesNotMatter` | internal/db/queries.go:375-470 | overlapping batches of such rows give the same tables in either order, whatever older versions are kept |
| `Imports.AgreeingBatchesAreOrderFree` | internal/db/queries.go:375-470 | rows that fit one lot per id, none in two versions, are such rows |
| `Imports.ReimportReportsDuplicates` | internal/db/queries.go:403-407 | into any tables, importing the same rows again reports only duplicates if and only if no key has two versions in the batch; then it changes nothing |
| `Imports.ImportIsLocal` | internal/db/queries.go:375-780 | an import reads and writes only its own source |
| `Imports.ClearThenReimport` | internal/db/queries.go:907-945 | clearing and importing again equals a fresh import and leaves other sources alone |
| `Snapshots.Database.BackfillPortfolioSnapshots` | internal/db/queries.go:1272-1377 | rebuilds the marked rows from imports and wallet balances and counts them |
| `Snapshots.Database.PortfolioSnapshots` | internal/db/queries.go:1222-1253 | one point per day after the cutoff, oldest first, from the row with the largest id |
| `Snapshots.RunKeepsValid` | internal/db/queries.go:1279-1371 | over every interleaving, ids grow down the table and no marked row follows a live row of its day |
| `Snapshots.LiveRowsOnlyGrow` | internal/db/queries.go:1279-1284 | live rows are never removed, changed or reordered |
| `Snapshots.LiveTakesPrecedence` | internal/db/queries.go:1222-1236 | a day with a live row shows its last live row, though the query picks only the largest id |
| `Snapshots.LastLiveIsShown` | internal/db/queries.go:1222-1236 | over every run, that point carries the row's own total and price |
| `Snapshots.BackfillExactly` | internal/db/queries.go:1286-1369 | after a backfill a day without a live row shows, at price zero, the sum of all imports dated by then plus the wallet's latest balance by then, exactly when some import or balance is of that day |
| `Snapshots.OnlyMarkedGo` | internal/db/queries.go:1279-1284 | a backfill removes the rows with price -1 and no others |
| `Snapshots.BackfillShows` | internal/db/queries.go:1272-1377 | after a backfill each day shows its last live row, else the cumulative total if there is data that day, else nothing |
| `Snapshots.BackfillAgainShowsSame` | internal/db/queries.go:1268-1271 | a repeated backfill shows the same point for every day |
| `Snapshots.BackfillAgainListsSameDays` | internal/db/queries.go:1268-1271 | a repeated backfill lists the same days for every cutoff |
| `GapScan.DeriveAddresses` | internal/wallet/derive.go:66-93 | the consecutive addresses asked for, or failure when one of them cannot be derived |
| `GapScan.ScanBranch` | internal/wallet/scanner.go:103-157 | for every batch size, the result of the one-at-a-time scan, asking the same addresses once each and in order; no derived address is left unasked on success; a failing scan asks an initial part of them |
| `GapScan.BatchReaches` | internal/wallet/scanner.go:103-157 | a batch never derives an address the one-at-a-time scan would not reach |
| `GapScan.ScanXpub` | internal/wallet/scanner.go:72-85 | the sum of both branches, failing when either fails |
| `GapScan.ScanStopsAtFirstGap` | internal/wallet/scanner.go:9-20 | the scan ends at the first index behind which lie `gapLimit` empty addresses, or at the 500th, with all funds and used addresses below it |
| `GapScan.HigherLimitFindsMore` | internal/wallet/scanner.go:103-157 | raising the gap limit never lowers balance, use count or reach |
| `RateLimiting.RateLimiter.Allow` | internal/apikey/apikey.go:52-75 | in-place compaction keeps exactly the times within the minute; accepts when fewer than the limit remain |
| `RateLimiting.KeepsWhatMatters` | internal/apikey/apikey.go:52-75 | what is kept for a key is, for every later instant, as good as all its accepted times |
| `RateLimiting.RefusedExactlyWhenFull` | internal/apikey/apikey.go:66-72 | a call is refused exactly when 100 calls of its key were accepted in the 60 seconds that end with it |
| `RateLimiting.AtMostLimitPerMinute` | internal/apikey/apikey.go:52-75 | in every run with a clock that does not run back, every half-open minute holds at most 100 accepted calls per key |
| `AutoTag.Database.AutoTagChannelTransfers` | internal/db/queries.go:2073-2126 | opens are tagged first, then closes that are not opens; returns the rows affected |
| `AutoTag.Database.UpsertChannels` | internal/db/store.go:144-169 | the reports are merged in order, blank or zero fields keeping the known ones |
| `AutoTag.ReportExactly` | internal/db/store.go:149-161 | what one report leaves of every column, and that it touches no other channel |
| `AutoTag.TagsChannelTransactions` | internal/db/queries.go:2073-2126 | after a run every confirmed transaction that opens or closes a channel is a transfer, open beating close, user text kept; every other row is as it was |
| `AutoTag.RunExactly` | internal/db/queries.go:2073-2126 | the same with the channel points, confirmations and labels written out |
| `AutoTag.CountIsRowsAltered` | internal/db/queries.go:2090-2125 | the count returned is the number of rows the run made different, none counted twice |
| `AutoTag.SecondRunIsIdle` | internal/db/queries.go:2086-2119 | an immediate second run changes nothing and returns 0 |
| `AutoTag.TextIsTextAfter` | internal/db/queries.go:2073-2140 | over every interleaving, the text of a transaction is what the user last wrote, relabelled by each run that found a channel transaction with no text or a mere label |
| `AutoTag.UserTextSurvives` | internal/db/queries.go:2073-2140 | over every interleaving of runs, toggles, edits and syncs, a text that is not one of the labels is what the user last wrote; nothing else invents one |
| `AutoTag.TrimExactly` | internal/db/queries.go:1616-1626 | the text kept is the note without the space around it |
| `AutoTag.RunChangesTextExactly` | internal/db/queries.go:2086-2119 | a run changes a text if and only if the transaction is confirmed and opens or closes a channel, and the text is blank or a label other than the one it deserves |
| `AutoTag.MarkSurvivesExactly` | internal/db/queries.go:1616-1626 | over every interleaving, a transaction is marked as a transfer if and only if a toggle or a run marked it and no toggle and no clearing of its note unmarked it since |
| `AutoTag.BlankReportsForgetNothing` | internal/db/store.go:153-160 | later reports that leave a channel's point or closing transaction blank do not forget them |

## Left out

- Floating-point rounding: dollars are reals, so sums and divisions are exact; `int64` and `uint32` widths are not modelled.
- HTTP handlers, HTML and SVG rendering, configuration, and the transport to LND, Electrum, Stripe and Monarch: I/O around the cores.
- Cryptography, JSON, base58 and key derivation: a signed token can only come from the server, and an address is an index whose derivation and balance are given.
- CSV and date parsing: imports start from parsed rows. The composite external ids River and Coinbase rows get are taken as given, so rows that share second, type and amount share an id.
- Calendar arithmetic: the start of the year, the wash-sale cutoff and the days of timestamps are parameters; `DaysUntilYearEnd` is not modelled.
- Row ids, import times and the other descriptive columns of the tables.
- Monarch account and category setup, merchants and holdings: they depend on the remote service.
- `MonarchExport.AtMostOnceExport`: assumes, for the row in question, that the dedup query succeeds and lists what was created for it (the code asks for at most 10000 rows), that its id has no `"] "`, and that its notes are not rewritten by hand; a create whose effect only appears after the next dedup query is outside it.
- `LicenseServer.Store.HandleCheckoutCompleted`: a subscription that cannot be fetched makes the handler fail; that is modelled as no change. Deliveries come one at a time; a failed subscription lookup is not modelled.
- `LicenseChecker.PaidTierIsRecent`: assumes that the client's clock does not run back and that server and client read one clock.
- `LicenseChecker.DefaultChecker.Verify`: concurrent calls of `Verify` are not modelled, nor the in-place update of the stored row while another call reads it.
- `Forwarding.ExactlyOnceForwarding`: assumes that what the node logs is dated no earlier than the end second of the last committed window; `Forwarding.PastIsClosed` shows what becomes of it otherwise.
- `Forwarding.ForwardingHistory`: the node's offset of the last event is taken to be the number of events returned so far.
- `Snapshots.Database.PortfolioSnapshots`: the text comparison of a stored time with the RFC 3339 cutoff drops the whole cutoff day, so the cutoff is a day; the per-source details stored beside live rows are not modelled.
- `Snapshots.Database.BackfillPortfolioSnapshots`: a failure in mid-run rolls back and is not modelled as a step; imported amounts are whole satoshis, so the rounding of their sum is not modelled.
- `AutoTag.Database.AutoTagChannelTransfers`: each of its two statements is one step on the table, without the time column; the run in which the second statement fails is not modelled.
- `GapScan.ScanBranch`: cancellation of the context is one of the ways a query can fail; its bounds assume a positive batch size, as the constant is.
- Invoice, payment, on-chain and wallet-balance cursors: their correctness depends on offsets the node returns for empty pages.
- Alerts, Telegram, price cache, tier ordering, pagination arithmetic, settings and wallet maintenance: they would only add easy members.
