# Verified model of the pivot engine's caches, totals, unnesting, filters and export jobs

This project models the parts of the repository in which state, ordering or encoding decide whether a result is
right, and proves what they are for. `dafny verify dfyconfig.toml` checks all of it (Dafny 4.11).

- **Server concurrency.** `QueryBudgets` runs any number of requests through a semaphore and a bounded queue, one
  suspension point at a time, with any number of cancellations. `ResultCache` is the in-memory level of the query
  cache, `SqliteStore` the second level, and `SingleFlight` interleaves lookups, loads and background refreshes over
  both; `FlightOutcomes` says how every request ends, by what the loaders and the second level did in the schedule.
  `Recency` is the eviction rule they share with the client.
- **Client caches.** `TupleCache` and `CellCache` are the paged caches of axis tuples and cells; `ClientCache` holds
  what they share. One keeps recency in an insertion-ordered map, the other in time stamps; both meet one
  specification, and both agree with the uncached source. `TupleLookup` says which tuples and counts an evicting tuple
  cache still delivers. `CellNumbering` numbers and enumerates cells, and says when numbers collide or change.
- **Sessions.** `CellRuns` says what a cache of numbered cells returns over runs of calls, and exactly when that is right.
  `CellSession` puts it together with the tuple sets that count the axes: sequences of `getCells` calls from empty caches
  on, with changing ranges, measures and limits. `CellQuery` is the same on objects, `CellMixups` the sessions that go
  wrong.
- **Totals.** `GroupingSets` generates grouping sets, `GroupingIds` the ids that tell their rows apart, from SQL's
  GROUPING_ID over 32-bit recombination to decoding, `CellJoin` the join that finds a cell's row, `TotalsOrder` the
  ORDER BY that puts totals next to their details.
- **Unnesting.** `Unnesting` builds the chain of stages for nested data; `UnnestingMeaning` says exactly when that
  succeeds and proves that the chain means what the items ask for; `UnnestingRows` proves that it makes one row for
  each choice of an element per array. `UnnestingNumbers` has the same for chains that begin with row numbers.
- **Filters.** `FilterSql` prints filter conditions and reads them back with a grammar; `FilterMeaning` evaluates them
  under three-valued logic; `RangeBounds` says which upper bound a lower bound is paired with.
- **Export jobs.** `ExportStore` is the job table, `ExportJobs` the interleaved service calls, `ExportPaging` the
  listing by cursors.

Classes hold the fields that the source updates in place, and each of their methods is specified by a function of the
old contents; the laws are proved about those functions. Interleaved code is a state machine whose steps are the code
between two suspension points, or between two calls of the store, and whose theorems hold for every schedule.
`Options` and `Sets` hold shared definitions. The engine and the clock are parameters: a query is an oracle or a list
of facts, JSON text is rendered by a given function, a time is an argument.

Where the code does something else than its comments say or its users expect, the model follows the code, and a theorem
says exactly when it matters:

- A request cancelled while its successful acquire is being settled keeps its slot for ever, although the cleanup is
  described as safe from leaks (`SlotLostIffCancelledWhileSettling`, `CancelledSettleLeaksASlot`).
- Not Between drops NULL rows, unlike Exclude and Not Like (`RangesPartitionIff`, `RangesLoseNulls`), and a second NULL
  literal makes Exclude and Not Like drop rows (`OppositesPartitionIff`, `SecondNullLosesRows`).
- Lower and upper bounds of ranges are kept in two objects, each keyed by its own text, and are paired by position.
  JavaScript lists integer-like keys first, equal upper bounds share a key, and disabled lower bounds are skipped on one
  side only. So bounds are mispaired, or the second of two ranges fails, even if all ranges are enabled
  (`RangesPairIffRanksAgree` for any ranges, `AllEnabledPairIffSameOrder`, `SameOrderPairsIffEnabledFirst`; inputs in
  `OrderMispairs`, `SharedUpperBoundFails`, `DisabledRangeMispairs`).
- Grouping ids are combined with 32-bit operators, so 32 totals items are too many (`GrandTotalNeedsAllBits`).
- A totals item that repeats an expression spoils the id of its own grouping set (`IdsAreOnesIffTotalsAreNew`).
- `sortDirection` and `orderByExpression` are assigned undeclared inside a class body, which is strict mode
  (`src/DataSet/SqlQueryGenerator.js:624` and `:628`). As written, every query with a totals item therefore ends with a
  ReferenceError. Here only, the model does not follow the code: it takes the two names as locals, and the theorems about
  totals are about the generator with that repaired.
- A path that ends, or goes on with a plain step, where another item unnests makes the generator fail, depending on the
  order of the items (`FailsIffExposed` for the order given, `EveryOrderSucceedsIffCompatible` for all of them; inputs in
  `OrderDecides`, `ShieldedClashSucceeds`).
- The stage after the row numbers repeats the filters on columns that the stage before may not export
  (`RepeatedFiltersResolveIff`, `FilterNextToRowNumberFails`).
- Different cells can get the same number while an axis after the first has not been counted: exactly when the offered
  tuples of later axes need more numbers than the counted axes among them leave between two tuples of an earlier axis
  (`NumbersDifferIffApart`, `TwoAxesCollideIff`; inputs in `LaterColumnsCollide` and, without harm, `UncountedAxisMayFit`).
- Loading the start of an axis whose count is known takes the count from the last column of the result, which is not
  selected as a count (`CountAlwaysRightIff`; a run in `ReadTwiceReadsTheColumn`).
- A tuple that was evicted is loaded again together with a page of tuples behind it, and is read only after the limits
  were enforced, so it may be gone again. The cell is then queried without it and answered for other tuples than its own.
  A single tuple is found again exactly if all rows loaded along with it fit the limits (`TupleFor`,
  `FirstIsKeptIffAllFit`, `AlwaysFoundIffRoomy`; `SmallCacheLosesTuples` for limits below the page size), and a call from
  an empty cache is right for every engine exactly if each of its lookups finds its tuples (`RightIffAllFound`).
- Cells are cached under numbers that depend on the counts, and stay cached when a count changes. A cell numbered before
  is then served for the cell that has its number now, in two ways: an axis after the first is counted only after cells
  were cached (`CountingMixesUpCells`), or its count is taken from the last column (`RecountingMixesUpCells`). Which cell
  it is taken for is exact for any two states of the counts (`FoundForAnotherIff`, `KeepsNumberIff`,
  `CountingColumnsKeepsIff`). Runs of calls are right exactly if no number stands for different cells in them
  (`RunsAreRightIff`), as when the factors of the axes after the first stay the same (`SteadySessionIsRight`). It is
  enough that the first request reads every axis from its start and that the limits hold all tuples
  (`DependableSessionIsRight`).
- If no tuple is found for any cell to query, as beyond the end of an axis that is not counted, a cell without tuples is
  queried and cached under number 0, and later served for the first cell (`BeyondSpoilsOrigin`).

## Model

| member | source | states |
|---|---|---|
| `QueryBudgets.QueryBudget.Admit` | server/query_budget.py:81-91 | a request is turned away exactly if a queue depth is set, all slots are taken and the queue is full; otherwise it is counted as waiting |
| `QueryBudgets.QueryBudget.AcquirePermit` | server/query_budget.py:92-95 | a permit is taken exactly if one is free, and nothing else changes |
| `QueryBudgets.QueryBudget.FinalizeAcquire` | server/query_budget.py:52-62 | one waiting request less, and one active request more if a permit was obtained |
| `QueryBudgets.QueryBudget.ReleaseSlot` | server/query_budget.py:64-75 | one active request less and one permit more |
| `QueryBudgets.CountersMatchTasks` | server/query_budget.py:39-102 | in every interleaving with any number of cancellations, free permits plus permit holders make up the limit, and `waiting` and `active` count exactly the tasks that owe them |
| `QueryBudgets.ClampsNeverBite` | server/query_budget.py:60-72 | whoever settles or releases is still counted, so neither `max(0, ...)` ever changes a result |
| `QueryBudgets.LoadStaysBounded` | server/query_budget.py:82-91 | active plus waiting requests never exceed slots plus queue depth, apart from active counts that a second cancellation kept from being taken back |
| `QueryBudgets.IdleIffNothingLost` | server/query_budget.py:77-102 | once all requests are over, permits and counters are back at their start exactly if no request ended in a losing phase |
| `QueryBudgets.SlotLostIffCancelledWhileSettling` | server/query_budget.py:92-102 | with at most one cancellation, a finished request still holds its slot exactly if it was cancelled after obtaining the permit and before its body |
| `QueryBudgets.IdleIffNoneHit` | server/query_budget.py:92-102 | with at most one cancellation each, everything returns to the start exactly if no request was cancelled there |
| `QueryBudgets.CancelledSettleLeaksASlot` | server/query_budget.py:92-102 | a schedule of one request, cancelled once, that leaves the only slot taken for ever |
| `QueryBudgets.StuckMeansEverySlotLost` | server/query_budget.py:92-95 | requests can wait for ever only if every slot has been lost |
| `QueryBudgets.TurnedAwayIffFull` | server/query_budget.py:81-91 | in every interleaving an arriving request is turned away exactly if a queue depth is set, the requests running and waiting take all slots, and as many wait as the depth; otherwise it waits |
| `QueryBudgets.GoesOnIffSlotFree` | server/query_budget.py:92-95 | a waiting request goes on exactly if fewer requests hold a slot than there are |
| `QueryBudgets.UncancelledRuns` | server/query_budget.py:77-102 | a request that is never cancelled is turned away, or its body runs; it loses nothing |
| `QueryBudgets.TurnsAdvance` | server/query_budget.py:77-102 | every turn brings a request nearer to its end, unless it is over or waits while all slots are held |
| `Recency.SurvivorsAreLongest` | src/DataSet/TupleSet.js:337-351 | evicting the least recent entry while the rest does not fit keeps the longest recent run that fits, or nothing |
| `Recency.LongestIsUnique` | src/DataSet/TupleSet.js:337-351 | no other result meets that specification |
| `Recency.LastSurvives` | server/cache.py:166-172 | the most recent entry is never evicted if it fits on its own |
| `ResultCache.QueryResultCache.EvictIfNeeded` | server/cache.py:166-172 | keeps the longest recent run within a positive byte limit, with exact byte, entry and eviction counts |
| `ResultCache.QueryResultCache.GetL1` | server/cache.py:174-201 | a fresh value, a stale value, or nothing, by the two ends of the entry; a hit becomes the most recent entry, an entry past both ends is dropped; all statistics stay exact |
| `ResultCache.QueryResultCache.StoreL1` | server/cache.py:203-221 | a store that answers true leaves its own key as the most recent entry and the cache within its limit; one that answers false changes nothing |
| `ResultCache.LookupFacts` | server/cache.py:182-201 | a lookup removes nothing but an expired entry of its own key |
| `ResultCache.LookupAnswers` | server/cache.py:182-201 | an entry is answered as fresh up to its end, then as stale up to the end of its stale window, and becomes the most recent one; after that it is a miss and goes; no other entry moves |
| `ResultCache.StoredFacts` | server/cache.py:206-221 | an admitted store keeps its own entry together with the longest recent run that fits, and invents nothing |
| `ResultCache.StoreEnters` | server/cache.py:206-221 | a store that neither cap refuses replaces its predecessor as the most recent entry, and of the others the longest recent run that fits stays; one that a cap refuses changes nothing |
| `ResultCache.NewestSurvives` | server/cache.py:216-221 | eviction after a store never reaches the entry just stored |
| `SingleFlight.InflightAlwaysExact` | server/cache.py:260-287 | in every interleaving of requests and background refreshes a key is in the inflight map exactly while its owner is between insertion and its final pop |
| `SingleFlight.OneLoaderPerKey` | server/cache.py:336-346 | no two loaders of one key ever run together |
| `SingleFlight.FuturesAlwaysExact` | server/cache.py:338-388 | every future is pending exactly while its owner loads or stores, is settled once, and is what its waiters wait for |
| `SingleFlight.WaitersGetTheOwnersOutcome` | server/cache.py:348-388 | a waiter ends with the value or the exception of the owner it joined, under the same key |
| `SingleFlight.WaitersAreServed` | server/cache.py:348-388 | a waiter's future is settled, and then its next step ends it, or its owner is still at work |
| `SingleFlight.AlwaysSound` | server/cache.py:247-388 | in every reachable state both levels, all futures and all answers hold only values that loaders produced under the same key, within the stated lifetimes |
| `SingleFlight.AnswersAreGenuine` | server/cache.py:309-388 | an answer was produced by a loader under its key; a cached one not marked stale was within its time to live, one marked stale past it by less than the stale window |
| `SingleFlight.PromotionNeverExtends` | server/cache.py:223-236 | freshness always ends at the time of some store plus its time to live, also after promotion from the second level, and the first level stays within its byte limit |
| `FlightOutcomes.OwnersEndAsTheirLoader` | server/cache.py:358-388 | in every schedule a request that ran its loader ends with the loader's value, not stale, exactly if the loader returned one and the second level did not fail while it was stored; it raises on its own account exactly if the loader raised or the second level failed; and it ends otherwise exactly if it ran no loader |
| `FlightOutcomes.WaitersEndAsTheLoader` | server/cache.py:348-356 | whoever raises for a task, its loader raised or the second level failed for it; whoever answers from a task answers with what its loader returned; and both are of one key |
| `FlightOutcomes.FirstLevelAnswers` | server/cache.py:309-328 | in every schedule a fresh first-level value is the answer, a stale one will be, and anything else sends the request to the second level; which entries stay, and in which order, is exact |
| `FlightOutcomes.StaleIsAnswered` | server/cache.py:317-328 | a stale value is answered at once, and a refresh starts with it unless the key is being loaded |
| `FlightOutcomes.SecondLevelAnswers` | server/cache.py:330-337 | a row of the second level is the answer until it expires, and enters the first level with the lifetime it has left; no other case answers |
| `FlightOutcomes.OneJoinsOrLoads` | server/cache.py:338-356 | a request joins the load of its key that is on its way, or becomes it; a refresh gives up instead of joining |
| `FlightOutcomes.LoadIsStored` | server/cache.py:358-373 | a loaded value enters the first level exactly if the load was slow or in the background, its time to live is positive and neither cap refuses it, and the second level with it unless that fails |
| `FlightOutcomes.OtherTurnsStoreNothing` | server/cache.py:260-388 | no other turn of a task touches either level |
| `FlightOutcomes.TurnsAdvance` | server/cache.py:309-388 | every turn brings a task further, unless it is done or waits for a load of its key that is on its way |
| `FlightOutcomes.AnswersWereLoaded` | server/cache.py:309-388 | whatever source an answer names, some loader of its key returned that value in the schedule |
| `FlightOutcomes.StoredByTasks` | server/cache.py:247-258 | the recorded stores are exactly those that tasks made in the schedule |
| `SqliteStore.SQLiteCacheStore.Get` | server/cache_store_sqlite.py:84-109 | an unexpired row is returned with its access time renewed, an expired one is deleted and missed, and the hit and miss counts follow |
| `SqliteStore.SQLiteCacheStore.Set` | server/cache_store_sqlite.py:111-124 | the row replaces that of its key and leaves all others, then a run of evictions ends within the limit or with an empty table |
| `SqliteStore.SQLiteCacheStore.PruneExpired` | server/cache_store_sqlite.py:126-133 | exactly the expired rows go, and their number is reported |
| `SqliteStore.SQLiteCacheStore.EnforceMaxBytes` | server/cache_store_sqlite.py:140-159 | the running total equals the sum of the rows throughout, each eviction takes an oldest row of a table over the limit, and the loop ends within the limit or empty |
| `SqliteStore.EvictionStopsInTime` | server/cache_store_sqlite.py:147-158 | evictions account for every byte and do not go on once the table is within the limit |
| `SqliteStore.EvictionConserves` | server/cache_store_sqlite.py:147-158 | kept and evicted rows together are the rows there were |
| `SqliteStore.EvictionTakesTheOldest` | server/cache_store_sqlite.py:148-156 | no evicted row was used after one that is kept |
| `ClientCache.JsonSizeIsLength` | src/DataSet/TupleSet.js:287-335 | braces, entries and separators add up to the length of the JSON text of the whole object |
| `TupleCache.TupleSet.TouchTuple` | src/DataSet/TupleSet.js:264-268 | the tuple becomes the last of the insertion-ordered map, all else is unchanged |
| `TupleCache.TupleSet.RemoveTuple` | src/DataSet/TupleSet.js:270-278 | the tuple leaves values, sizes, total and order together |
| `TupleCache.TupleSet.StoreTuple` | src/DataSet/TupleSet.js:293-302 | value and size are replaced and the total follows |
| `TupleCache.TupleSet.EnforceCacheLimits` | src/DataSet/TupleSet.js:337-351 | the loop computes the specified eviction and keeps the cache consistent |
| `TupleCache.TupleSet.GetTupleSync` | src/DataSet/TupleSet.js:380-386 | reads a cached tuple and makes it the most recent one |
| `TupleCache.TupleSet.LoadTuples` | src/DataSet/TupleSet.js:395-450 | stores and touches every row at its index, then enforces the limits; the count changes only for offset 0, and there comes from the caller, from an empty result, or from the last column |
| `TupleCache.TupleSet.ScanPage` | src/DataSet/TupleSet.js:575-599 | finds the cached part of a page and the first and last tuple missing from it |
| `TupleCache.TupleSet.ExecuteAxisQuery` | src/DataSet/TupleSet.js:503-555 | loads a range of the uncached axis result; the cache keeps agreeing with it |
| `TupleCache.TupleSet.GetTuples` | src/DataSet/TupleSet.js:570-614 | a page holds the tuples of the uncached axis from its offset to the end of the request, of the known count or of the axis, whichever is first; what is fetched, what is kept of it and the count are exact; a hole appears only where the limits evicted what was just loaded; a cached page changes nothing |
| `TupleCache.ToFetchIsMissing` | src/DataSet/TupleSet.js:571-611 | nothing is fetched exactly if the whole page is cached; otherwise the range from the first missing tuple to the last, or a page size if that is longer, the last missing tuple ends the page and a counted axis goes on |
| `TupleLookup.Call` | src/DataSet/TupleSet.js:570-614 | a call of the object is a step of the runs |
| `TupleLookup.CountAlwaysRightIff` | src/DataSet/TupleSet.js:411-425 | the count is right after all runs of calls, under whatever limits, exactly if the axis is empty or the last selected column of its first row holds the count |
| `TupleLookup.ReadTwiceReadsTheColumn` | src/DataSet/TupleSet.js:411-425 | reading the start of an axis twice under limits that keep nothing takes the count from that column |
| `TupleLookup.FirstIsKeptIffAllFit` | src/DataSet/TupleSet.js:440-449 | of rows just loaded the first is still cached exactly if all of them fit the limits together |
| `TupleLookup.TupleFor` | src/DataSet/CellSet.js:750-763 | the tuple of a cell is found exactly if it is cached, or exists below the count and the rows loaded along with it fit the limits; what is found is the tuple of the axis |
| `TupleLookup.AlwaysFoundIffRoomy` | src/DataSet/CellSet.js:750-763 | every tuple is found, whatever is cached and whether or not the axis was counted, exactly if the limits have room for each page of it |
| `TupleLookup.SmallCacheLosesTuples` | src/DataSet/TupleSet.js:605-612 | with room for fewer tuples than a page, an evicted tuple a page before the end of the axis is not found again |
| `TupleLookup.TuplesForCell` | src/DataSet/CellSet.js:741-771 | the tuples of a cell, axis by axis, and exactly what looking them up leaves of the tuple sets |
| `TupleLookup.AmpleKeepsAll` | src/DataSet/TupleSet.js:337-351 | limits that all tuples of an axis fit never evict any |
| `TupleLookup.SettledStays` | src/DataSet/TupleSet.js:411-425 | the count of an axis read from its start stays right under limits that hold all its tuples, or if its last column holds the count |
| `TupleCache.ReportedSizeIsJsonLength` | src/DataSet/TupleSet.js:328-335 | the reported size is the length of the JSON object that holds all live tuples |
| `TupleCache.EnforcedKeepsTheLongestRecentRun` | src/DataSet/TupleSet.js:337-351 | survivors are the longest recently touched run within both limits, or nothing, unchanged and in order |
| `TupleCache.LoadedAgrees` | src/DataSet/TupleSet.js:426-448 | loading a fetched range keeps every cached tuple equal to the uncached one and fills the range |
| `CellCache.CellSet.TouchCell` | src/DataSet/CellSet.js:66-69 | the cell gets a time stamp above all others |
| `CellCache.CellSet.RemoveCell` | src/DataSet/CellSet.js:71-84 | the cell leaves values, stamps and sizes, with the last-entry case of the size |
| `CellCache.CellSet.UpdateCellCacheSize` | src/DataSet/CellSet.js:121-138 | the incremental size follows an insert or update, with the first-entry case |
| `CellCache.CellSet.OldestCell` | src/DataSet/CellSet.js:146-153 | the scan finds a least time stamp, or that there is none |
| `CellCache.CellSet.EvictOldest` | src/DataSet/CellSet.js:146-158 | what the scan finds is the first cell of the recency order |
| `CellCache.CellSet.EnforceCacheLimits` | src/DataSet/CellSet.js:140-160 | scanning for minima computes the eviction along the recency order |
| `CellCache.CellSet.MergeRows` | src/DataSet/CellSet.js:616-650 | fetched measures are merged into cached cells, which keep the measures they had |
| `CellCache.CellSet.ExtractCells` | src/DataSet/CellSet.js:616-650 | the returned cells are the merged ones whether or not they stay cached; what stays cached is the longest recent run of all cells within the limits, those of the result being the most recent |
| `CellCache.CellSet.CheckCell` | src/DataSet/CellSet.js:713-740 | a cell is served from the cache exactly if it holds every requested measure; otherwise exactly the measures from its first missing one on are to be fetched |
| `CellCache.CellSet.Split` | src/DataSet/CellSet.js:710-775 | requested cells are divided into those the cache can answer and those to query |
| `CellCache.CellSet.FetchCells` | src/DataSet/CellSet.js:777-790 | a query for some measures of some cells returns exactly those cells, extended by the answers to those measures |
| `CellCache.MergingCompletes` | src/DataSet/CellSet.js:616-650 | merging a query's rows extends exactly the cells asked for, each by exactly the measures fetched |
| `CellCache.CellSet.GetCells` | src/DataSet/CellSet.js:706-793 | complete cells come from the cache, the others are queried as far as tuples were sent for them, or as number 0 if none were, for exactly the measures that some cell lacks from its first missing one on; the returned cells are exact, and so is what the limits leave cached |
| `CellCache.AnsweredIsComplete` | src/DataSet/CellSet.js:715-731 | what is fetched for the cells that lack a measure completes every one of them |
| `CellRuns.CallIsRight` | src/DataSet/CellSet.js:680-793 | on a cache whose cells are right for the tuples that their names stand for, a call that finds the tuples of the cells to query returns every cell with every measure as the engine gives it for the cell's own tuples, and leaves a right cache, whatever is evicted |
| `CellRuns.RightIffAllFound` | src/DataSet/CellSet.js:706-775 | from an empty cache, the result is right for every engine exactly if each lookup found all tuples of its cell when it was made |
| `CellRuns.RunsAreRightIff` | src/DataSet/CellSet.js:706-793 | all runs of calls that look up given cells under given counts, for whatever measures and evictions, are right for every engine exactly if no number stands for two cells with different tuples, in one call or in different ones |
| `CellSession.SteadySessionIsRight` | src/DataSet/CellSet.js:652-793 | every call of a session from empty caches is right, whatever measures, ranges, limits and evictions, as long as the counts of the axes after the first give the same factors whenever a cell is numbered, coordinates exist under them, and the tuples of the cells to query are found |
| `CellSession.DependableSessionIsRight` | src/DataSet/CellSet.js:652-793 | which holds if the first request reads every axis from its start, and the limits hold all tuples of each axis; or each page of an axis whose last column happens to hold its count |
| `CellSession.DependableSessionIsWhole` | src/DataSet/CellSet.js:225-272 | every call of such a session looks up, and so returns, exactly the cells of the tuples that its ranges stand for, an axis without items having the one coordinate 0 |
| `CellSession.ServedIsFound` | src/DataSet/CellSet.js:741-771 | a call finds all tuples if each axis serves those asked of it: they are cached, or there is room for its pages and the count stays right |
| `CellMixups.CountingMixesUpCells` | src/DataSet/CellSet.js:178-199 | a session of two calls, before and after the columns are counted, in which cell (0, 2) gets the value of cell (1, 1) |
| `CellMixups.RecountingMixesUpCells` | src/DataSet/TupleSet.js:411-425 | a session of three calls, in which the count is taken from the last column after an eviction, and cell (1, 0) gets the value of cell (0, 2) |
| `CellMixups.BeyondSpoilsOrigin` | src/DataSet/CellSet.js:772-793 | a session of two calls, the first of which asks beyond the end of an axis that is not counted: the first row gets the value of a cell without tuples |
| `CellQuery.EnsureTuplesReady` | src/DataSet/CellSet.js:652-677 | the tuples of each range are loaded on axes with items |
| `CellQuery.LookUp` | src/DataSet/CellSet.js:710-771 | one turn of the loop: the number of the cell by the counts at that time, whether the cache can answer it, and the tuples found otherwise |
| `CellQuery.LookUpAll` | src/DataSet/CellSet.js:706-775 | the loop over the cells, and the tuples to query by |
| `CellQuery.GetCells` | src/DataSet/CellSet.js:680-793 | a call is exactly a step of a session; it looks up exactly the cells that its ranges stand for, and returns with every measure each of them that the cache answers or whose tuples are found |
| `CellQuery.QueryCells` | src/DataSet/CellSet.js:690-793 | what the call returns, what it caches as far as that is not evicted, and what it leaves of the tuple sets and their counts |
| `CellQuery.StepAnswersAll` | src/DataSet/CellSet.js:706-793 | every step of a session with measures looks up and returns those cells; nothing is returned under the number of no cell, but for cell 0 of a query without tuples |
| `CellCache.WriteKeepsConsistent` | src/DataSet/CellSet.js:121-138 | inserts and updates keep the size exact and all maps on the same keys |
| `CellCache.TouchKeepsConsistent` | src/DataSet/CellSet.js:66-69 | touching a cell keeps time stamps and recency order in step |
| `CellCache.RemoveFirstKeepsConsistent` | src/DataSet/CellSet.js:71-84 | so does removing the oldest cell |
| `CellCache.IncrementalSizeIsJsonLength` | src/DataSet/CellSet.js:71-138 | the incremental size is the length of the JSON object that holds all live cells |
| `CellCache.EnforcedKeepsTheLongestRecentRun` | src/DataSet/CellSet.js:140-160 | the time stamp scan meets the same specification as the tuple cache: the longest recent run within both limits |
| `CellNumbering.GetCellIndex` | src/DataSet/CellSet.js:178-199 | the nested loops compute the mixed-radix number of the coordinates, countless axes left out |
| `CellNumbering.GetTupleRanges` | src/DataSet/CellSet.js:225-272 | the recursion collects exactly the enumeration that the next two rows determine |
| `CellNumbering.EnumeratedExactly` | src/DataSet/CellSet.js:234-264 | a cell is enumerated exactly if it has one coordinate per axis, each from the start of its range on and below its end, or 0 for the range from 0 to 0, and below the count if that is known and not zero; an axis without items and count has the coordinate 0 only, a counted empty axis with items none |
| `CellNumbering.EnumeratedInOrder` | src/DataSet/CellSet.js:266-272 | cells come in the order of their coordinates, the last axis running fastest, and none comes twice |
| `CellNumbering.CollectRanges` | src/DataSet/CellSet.js:225-272 | one level of the recursion pushes the enumeration of the remaining axes behind the given prefix |
| `CellNumbering.DecodeUndoesIndex` | src/DataSet/CellSet.js:178-199 | the coordinates of an existing cell can be recovered from its number |
| `CellNumbering.IndexUndoesDecode` | src/DataSet/CellSet.js:178-199 | every number below the number of cells belongs to an existing cell |
| `CellNumbering.NumbersAreUnique` | src/DataSet/CellSet.js:178-199 | two existing cells share a number only if they are the same |
| `CellNumbering.EnumerationClimbs` | src/DataSet/CellSet.js:225-272 | on any ranges the enumerated cells have strictly climbing numbers |
| `CellNumbering.FullRangesCountUp` | src/DataSet/CellSet.js:178-272 | on full ranges the n-th enumerated cell has number n, and all numbers are used; empty axes count as one |
| `CellNumbering.NumbersDifferIffApart` | src/DataSet/CellSet.js:178-272 | for all axes and ranges the enumerated cells have different numbers exactly if some axis offers none, or between two tuples of an axis that offers two there is room for all numbers that the later axes use up |
| `CellNumbering.CountedAxesAreApart` | src/DataSet/CellSet.js:178-272 | there always is if the axes after the first are counted or without items |
| `CellNumbering.TwoAxesCollideIff` | src/DataSet/CellSet.js:178-272 | on two axes numbers collide exactly if the second has items but no count, and both offer two tuples or more |
| `CellNumbering.UncountedAxisMayFit` | src/DataSet/CellSet.js:178-272 | two rows by one of five tuples by three tuples of an uncounted axis: no numbers collide |
| `CellNumbering.AllKeepNumbersIff` | src/DataSet/CellSet.js:178-199 | under two states of the counts all cells have the same numbers exactly if the counts of the axes after the first give the same factors |
| `CellNumbering.KeepsNumberIff` | src/DataSet/CellSet.js:178-199 | once more axes are counted, a cell keeps its number exactly if it is at 0 on every axis before a factor that changed |
| `CellNumbering.CountingColumnsKeepsIff` | src/DataSet/CellSet.js:178-199 | once the columns are counted, cell (r, c) keeps its number exactly if r is 0 or there is one column |
| `CellNumbering.FoundForAnotherIff` | src/DataSet/CellSet.js:178-199 | for any two states of the counts, a cell cached under the one is found for another cell under the other exactly if its number then stands for coordinates that are not its own |
| `CellNumbering.LaterColumnsCollide` | src/DataSet/CellSet.js:188-195 | two rows by columns 1 and 2 before the columns are counted: cells (0, 2) and (1, 1) share a number |
| `CellNumbering.RemoteNumbersAgree` | src/DataSet/CellSet.js:537-575 | row times column count plus column, used for remote results, is the same number exactly if the row is 0 or the count is not negative |
| `GroupingSets.CollectItems` | src/DataSet/SqlQueryGenerator.js:496-550 | the loop collects, per axis, the expressions and the prefixes before totals items, and over both axes the grouping id arguments and order terms; what these say of a query is stated by GenerateGroupBy and GenerateOrderBy |
| `GroupingSets.GenerateGroupBy` | src/DataSet/SqlQueryGenerator.js:558-639 | without totals a plain GROUP BY of the expressions of all rows items and then all columns items, index by index, and no clause exactly if there are none; with totals one grouping set for each level of rows with each level of columns, each once and index by index, and ids over the totals items, rows first; the two names that lines 624 and 628 assign undeclared are taken as locals |
| `CellJoin.OneGroupIffSameItems` | src/DataSet/SqlQueryGenerator.js:633-639 | without totals two facts are of one group exactly if they agree on the expression of every rows and columns item |
| `GroupingSets.TotalsSetsArePrefixes` | src/DataSet/SqlQueryGenerator.js:527-545 | the totals sets of an axis are exactly the prefixes that end before a totals item |
| `GroupingSets.AxisSetsAreLevels` | src/DataSet/SqlQueryGenerator.js:562-586 | an axis is grouped at exactly its levels: each totals item, and all its items |
| `GroupingSets.SetsAreAllLevels` | src/DataSet/SqlQueryGenerator.js:588-603 | the query groups by every level of the rows with every level of the columns, and by nothing else |
| `GroupingIds.LevelIdIsOnes` | src/DataSet/SqlQueryGenerator.js:527-545 | each grouping set of an axis has an id of the form 2^p - 1, p counting its rolled-up totals items |
| `GroupingIds.IdsAreOnesIffTotalsAreNew` | src/DataSet/SqlQueryGenerator.js:536-545 | that holds for all sets of an axis exactly if no totals item repeats an expression from earlier on the axis |
| `GroupingIds.RepeatedTotalsSpoilId` | src/DataSet/SqlQueryGenerator.js:536-545 | a totals item that repeats an expression lacks its own bit in the set made for it |
| `GroupingIds.GetTotalsItemsIndices` | src/PivotTableUi/PivotTableUiUtils.js:26-35 | the positions of the totals items, last first, or nothing for an empty axis |
| `GroupingIds.IsTotalsMember` | src/PivotTableUi/PivotTableUiUtils.js:49-65 | the loop returns the item of the most significant set bit, or Infinity |
| `GroupingIds.TopBitFacts` | src/PivotTableUi/PivotTableUiUtils.js:59-64 | what the loop stops at is the most significant set bit, and it stops at none only if none is set |
| `GroupingIds.LevelDecodes` | src/PivotTableUi/PivotTableUiUtils.js:49-65 | decoding the id of a grouping set gives the totals item it was made for, and Infinity for the full set |
| `GroupingIds.LevelIdsDiffer` | src/DataSet/SqlQueryGenerator.js:616-620 | different levels of an axis have different ids |
| `GroupingIds.CombineGroupingIds` | src/DataSet/CellSet.js:288-312 | the loop of 32-bit shifts and ors over the axes |
| `GroupingIds.CombinedIsExactBelow31Bits` | src/DataSet/CellSet.js:294-300 | for any axes, the combined id is the ids side by side exactly if those stay below 2^31 |
| `GroupingIds.CrossId` | src/DataSet/SqlQueryGenerator.js:616-620 | GROUPING_ID over rows then columns is the ids of both axes side by side |
| `GroupingIds.CellIdIsGroupingId` | src/DataSet/CellSet.js:287-315 | a cell is sent the id the engine computes exactly if that id is below 2^31, as it is with up to 31 totals items |
| `GroupingIds.GrandTotalNeedsAllBits` | src/DataSet/CellSet.js:287-315 | the grand total gets its right id exactly if there are at most 31 totals items |
| `GroupingIds.CrossIdsDiffer` | src/DataSet/SqlQueryGenerator.js:588-620 | the ids of all grouping sets of the cross product differ |
| `CellJoin.AtMostOneRowAnswers` | src/DataSet/CellSet.js:498-524 | the null-safe join on values and id matches at most one aggregated row, even with real NULLs in the data |
| `CellJoin.AnswerIsTheGroup` | src/DataSet/CellSet.js:287-524 | with up to 31 totals items the row that matches a row tuple and a column tuple is exactly the group the two describe |
| `TotalsOrder.ReplacePlaceholders` | src/DataSet/SqlQueryGenerator.js:624-631 | searching for each placeholder replaces the one of the right totals item, even if expressions repeat; the two undeclared names are taken as locals |
| `TotalsOrder.GenerateOrderBy` | src/DataSet/SqlQueryGenerator.js:521-549 | a result sorted by the terms has, within each group, the rows that do not roll the next item up in the direction of that item and their NULLs where the item asks for them; and if no totals item repeats an expression, groups are contiguous and totals stand aside |
| `TotalsOrder.SortedInDirection` | src/DataSet/SqlQueryGenerator.js:521-549 | of two rows of a group on the first items, neither rolling up the next one, the first has the larger number exactly if that item descends, and a NULL comes first exactly if the item puts NULLs first; with totals or without |
| `TotalsOrder.MixedStep` | src/DataSet/SqlQueryGenerator.js:629-630 | the first placeholder found is that of the next totals item |
| `TotalsOrder.TiedIffSameGroup` | src/DataSet/SqlQueryGenerator.js:521-549 | rows tie on the terms of the first items exactly if they belong to the same group at that depth |
| `TotalsOrder.GroupsAreContiguous` | src/DataSet/SqlQueryGenerator.js:521-549 | in a result sorted by the generated terms the rows of every prefix group are contiguous |
| `TotalsOrder.TotalsStandAside` | src/DataSet/SqlQueryGenerator.js:622-631 | a group's totals row comes after all its details, or before them, at every level at once |
| `Unnesting.RunStage` | src/DataSet/SqlQueryGenerator.js:298-453 | one pass over the items of a stage, with the TypeError on an item that has no unnesting element where the stage unnests |
| `Unnesting.UnnestAll` | src/DataSet/SqlQueryGenerator.js:295-455 | the loop builds the chain of stages, and ends |
| `Unnesting.ConvertRowNumbers` | src/DataSet/SqlQueryGenerator.js:276-285 | all row number items become references to the numbered column; what the stages make of them is stated by the next row |
| `Unnesting.GetUnnestingStages` | src/DataSet/SqlQueryGenerator.js:252-455 | in a chain, with row numbers or without, there is one final item per item; a row number item ends as the numbered column, without derivation and otherwise as it was, every other item ends asking for the same with nothing to unnest; the first stage takes the row numbers of all items and every later stage carries them; every column that a stage refers to is exported by the stage before it |
| `Unnesting.RunShrinks` | src/DataSet/SqlQueryGenerator.js:408-440 | every stage that unnests leaves fewer unnesting elements in the paths |
| `Unnesting.RunItems` | src/DataSet/SqlQueryGenerator.js:315-442 | stages map items one to one in order, leaving an item alone or moving it past the unnested array |
| `Unnesting.FinalItemsAnswer` | src/DataSet/SqlQueryGenerator.js:469-474 | the final item at an index answers the original item at that index, with nothing left to unnest and no unnesting derivation |
| `Unnesting.RunExports` | src/DataSet/SqlQueryGenerator.js:660-691 | what an item of the next stage refers to is in this stage's select list |
| `Unnesting.NothingUnneeded` | src/DataSet/SqlQueryGenerator.js:660-691 | a stage carries only items that go on as they are, unnests one array at most, and exports only what some item of the next stage refers to |
| `Unnesting.StagesResolve` | src/DataSet/SqlQueryGenerator.js:295-455 | every column a stage refers to is exported by the stage before it |
| `Unnesting.RowNumberStageResolves` | src/DataSet/SqlQueryGenerator.js:276-293 | so is what the stage after the row numbers refers to |
| `Unnesting.RepeatedFiltersResolveIff` | src/DataSet/SqlQueryGenerator.js:287-292 | the filters repeated on the row number stage find their columns exactly if each is also the column of an item |
| `Unnesting.FilterNextToRowNumberFails` | src/DataSet/SqlQueryGenerator.js:287-292 | a filter on a column next to nothing but a row number does not |
| `UnnestingMeaning.FailureIsClash` | src/DataSet/SqlQueryGenerator.js:389-416 | a stage fails only if two items clash: one unnests where the other goes on, or ends, with a plain step |
| `UnnestingMeaning.CompatibleSucceeds` | src/DataSet/SqlQueryGenerator.js:295-455 | items that do not clash are unnested |
| `UnnestingMeaning.FailsIffExposed` | src/DataSet/SqlQueryGenerator.js:295-455 | for items in the order given, building the chain fails exactly if a later item clashes with an earlier one and no item before both unnests an array beyond the clash together with the later one |
| `UnnestingMeaning.EveryOrderSucceedsIffCompatible` | src/DataSet/SqlQueryGenerator.js:295-455 | the chain can be built for every order of the items exactly if no two of them clash |
| `UnnestingMeaning.OrderDecides` | src/DataSet/SqlQueryGenerator.js:389-416 | two clashing items fail in one order and not in the other |
| `UnnestingMeaning.ShieldedClashSucceeds` | src/DataSet/SqlQueryGenerator.js:389-416 | a clash with an earlier item does no harm behind an item that takes the later one past it |
| `UnnestingMeaning.EveryArrayOnce` | src/DataSet/SqlQueryGenerator.js:328-387 | no array is unnested by two stages, so rows are not multiplied twice |
| `UnnestingMeaning.ChainKeepsMeaning` | src/DataSet/SqlQueryGenerator.js:295-474 | in every row fed to the final stage an item reads what the original item means in the table's row, for the elements chosen by the stages |
| `UnnestingRows.RowsAreChoices` | src/DataSet/SqlQueryGenerator.js:660-691 | the rows that the stages make of a row, one stage after the other, are one for each choice of an element per stage, in order |
| `UnnestingRows.ChoicesExist` | src/DataSet/SqlQueryGenerator.js:660-691 | the choices are those of an element that exists, at every stage |
| `UnnestingRows.ChoicesDiffer` | src/DataSet/SqlQueryGenerator.js:660-691 | no choice is made twice |
| `UnnestingRows.ChainIsTheProduct` | src/DataSet/SqlQueryGenerator.js:295-474 | and in the n-th of these rows every item reads what it asks for under the n-th choice |
| `UnnestingRows.EveryRowSurvives` | src/AttributeUi/AttributeRegistry.js:486-497 | an empty or missing array counts as one NULL, so no row of the table is lost |
| `UnnestingNumbers.AllStagesFailIffExposed` | src/DataSet/SqlQueryGenerator.js:252-455 | with row numbers or without, the generator fails exactly if some clash is exposed |
| `UnnestingNumbers.AllStagesUnnestOnce` | src/DataSet/SqlQueryGenerator.js:252-455 | with row numbers or without, no array is unnested by two stages |
| `UnnestingNumbers.AllStagesKeepMeaning` | src/DataSet/SqlQueryGenerator.js:252-474 | in every row that the chain makes of the n-th row of the table, a row number item reads n and every other item what it asks for in that row |
| `UnnestingNumbers.AllStagesAreTheProduct` | src/DataSet/SqlQueryGenerator.js:252-474 | the n-th row of the table becomes one row for each choice of an element per stage, in each of which every item reads what it asks for |
| `FilterSql.GetFilterConditionSql` | src/QueryModel/QueryAxisItem.js:363-541 | the text is the print of the condition that the filter stands for, or nothing without enabled values |
| `FilterSql.EqualitySql` | src/QueryModel/QueryAxisItem.js:402-426 | the text of an in or not-in list, with its parentheses and its NULL condition |
| `FilterSql.TestsSql` | src/QueryModel/QueryAxisItem.js:429-505 | the text of like and between lists in both polarities |
| `FilterSql.DisjRoundTrip` | src/QueryModel/QueryAxisItem.js:396-540 | every condition, printed, is read back as it was meant by a grammar in which AND binds tighter than OR |
| `FilterSql.GetConditionForFilterItems` | src/DataSet/SqlQueryGenerator.js:112-154 | filters without enabled values are culled, the others joined by AND; the text is empty exactly if none is left |
| `FilterSql.JoinedConditionsParse` | src/DataSet/SqlQueryGenerator.js:119-154 | the joined text is read as the conjunction of the separate conditions: the printed parentheses suffice |
| `RangeBounds.ExtractValuesFromOptions` | src/FilterUi/FilterUi.js:590-598 | options assigned one after the other: each key stands where it was first inserted and holds what was assigned last |
| `RangeBounds.ExtractLiterals` | src/QueryModel/QueryAxisItem.js:322-351 | the n-th enabled lower bound is paired with the n-th upper bound of all, in the orders in which the two objects list their keys; a TypeError if there is no such upper bound |
| `RangeBounds.ListedSorted` | src/QueryModel/QueryAxisItem.js:329-339 | an object lists every key inserted once: array indices ascending, then the others by first insertion |
| `RangeBounds.RangesPairIffRanksAgree` | src/QueryModel/QueryAxisItem.js:329-351 | for any ranges and any disabled lower bounds the ranges tested are the enabled ranges entered, whatever the literals, exactly if each enabled range has as many enabled lower bounds listed before its own as upper bounds before its own |
| `RangeBounds.AllEnabledPairIffSameOrder` | src/QueryModel/QueryAxisItem.js:329-351 | with all ranges enabled, exactly if both objects keep the ranges apart and list them in the same order |
| `RangeBounds.SameOrderPairsIffEnabledFirst` | src/QueryModel/QueryAxisItem.js:329-351 | with the same order on both sides, exactly if no disabled lower bound is listed before an enabled one |
| `RangeBounds.OrderMispairs` | src/QueryModel/QueryAxisItem.js:338-347 | -5 to 0 and 7 to 10 are paired as 7 to 0 and -5 to 10 if both are enabled, and rightly if only the first one is |
| `RangeBounds.SharedUpperBoundFails` | src/QueryModel/QueryAxisItem.js:338-347 | 1 to 10 and 2 to 10, both enabled, fail on the missing second upper bound |
| `RangeBounds.DisabledRangeMispairs` | src/QueryModel/QueryAxisItem.js:338-347 | with 1 to 2 disabled, 3 to 4 is paired with 2 |
| `FilterMeaning.PositiveFilterKeepsListed` | src/QueryModel/QueryAxisItem.js:412-505 | in, like and between are TRUE exactly for the listed values, NULL among them if it is listed |
| `FilterMeaning.NegativeFilterKeeps` | src/QueryModel/QueryAxisItem.js:402-505 | the negative filters are TRUE for the values not listed, save those with an undecided test; not between is never TRUE for NULL |
| `FilterMeaning.OppositesPartitionIff` | src/QueryModel/QueryAxisItem.js:402-475 | exclude is the opposite of include, and not like of like, exactly as long as NULL is listed at most once or the value is listed |
| `FilterMeaning.SecondNullLosesRows` | src/QueryModel/QueryAxisItem.js:367-399 | with NULL listed twice and nothing else, exclude and not like keep no row |
| `FilterMeaning.RangesPartitionIff` | src/QueryModel/QueryAxisItem.js:478-505 | not between is the opposite of between exactly for listed values and for values that are not NULL and decided by all bounds |
| `FilterMeaning.RangesLoseNulls` | src/QueryModel/QueryAxisItem.js:478-505 | a NULL is neither between two numbers nor not between them |
| `FilterMeaning.WhereKeepsWhatAllFiltersKeep` | src/DataSet/SqlQueryGenerator.js:713-723 | the WHERE clause, parsed, keeps exactly the rows that every filter keeps |
| `ExportStore.ExportJobStore.CreateIfCapacity` | server/export_store.py:132-173 | a pending job is added exactly if active jobs are below the cap and the id is new |
| `ExportStore.ExportJobStore.ClaimPending` | server/export_store.py:175-186 | true exactly for a pending job, which is then processing |
| `ExportStore.ExportJobStore.UpdateStatus` | server/export_store.py:197-262 | the transition table decides; given columns are set, others kept; completing sets the time of completion |
| `ExportStore.AllowedGoesForward` | server/export_store.py:35-42 | a transition is allowed exactly if it goes forward, completes only a job in process and cancels only an active one |
| `ExportStore.ExportJobStore.CountActive` | server/export_store.py:264-270 | the number of pending and processing jobs |
| `ExportStore.ExportJobStore.FindStale` | server/export_store.py:272-278 | exactly the active jobs |
| `ExportStore.ExportJobStore.FindExpired` | server/export_store.py:280-289 | exactly the complete and failed jobs created before the cutoff |
| `ExportStore.ExportJobStore.Delete` | server/export_store.py:291-298 | the row goes, and the answer says whether there was one |
| `ExportJobs.ActiveJobsWithinCap` | server/export_service.py:93-111 | in every interleaving of submit, process, delete, cleanup and recovery, active jobs never exceed the cap |
| `ExportJobs.ClaimedOnceChangedThrice` | server/export_service.py:113-127 | no job is claimed twice, and none changes its status more than three times |
| `ExportJobs.OneWorkerPerJob` | server/export_service.py:113-241 | no two workers are past the claim of the same job |
| `ExportJobs.CompleteJobsHaveFiles` | server/export_service.py:215-222 | a complete job has its file path, download address and time of completion |
| `ExportJobs.StatusesOnlyClimb` | server/export_service.py:259-329 | from any point of any run on statuses only climb, cancelled and expired jobs stay so, deleted jobs do not return, and no active job is deleted before its status changed |
| `ExportJobs.ProcessingHasWorker` | server/export_service.py:113-241 | however the calls interleave, a job in process has a worker at work on it, so a worker that ends leaves its job complete, failed, expired, cancelled or deleted |
| `ExportJobs.WorkerFinishes` | server/export_service.py:113-241 | a worker that nothing interrupts completes its job with what it wrote, or fails it with the reason |
| `ExportJobs.DeleterFinishes` | server/export_service.py:302-314 | a call to delete that nothing interrupts cancels an active job and removes any other |
| `ExportJobs.SweepExpiresAll` | server/export_service.py:259-270 | a sweep that nothing interrupts expires exactly the complete and failed jobs past their time to live, and leaves none |
| `ExportJobs.RestartFailsAll` | server/export_service.py:316-329 | a restart that nothing interrupts fails exactly the active jobs, and leaves none |
| `ExportPaging.List` | server/export_store.py:300-330 | jobs below the cursor, newest first, as many as asked for or else all; none left out is newer than one of them |
| `ExportPaging.ListExports` | server/export_service.py:287-300 | a full page of the newest jobs below the cursor; there is a next cursor exactly if older jobs are left, and it is the last job shown |
| `ExportPaging.OrderedFacts` | server/export_store.py:320-326 | the order by creation time and id is strict and loses no job |
| `ExportPaging.CrawlDescends` | server/export_service.py:272-300 | following cursors goes down strictly across all pages |
| `ExportPaging.CrawlIsSound` | server/export_service.py:287-300 | every job on a page was in the table when the page was asked for |
| `ExportPaging.EveryLastingJobOnce` | server/export_service.py:272-300 | whatever is added or deleted between requests, a finished crawl visits every job that was there throughout exactly once, newest first |
| `ExportPaging.PagesAreTheWholeList` | server/export_service.py:272-300 | paging through a table that does not change gives, for every limit, the list that one query without a limit gives |

## Left out

- The user interface: rendering, dialogs, drag and drop, menus, translations, page state.
- The engines: DuckDB and SQLite are tables, oracles and orders as far as the generated text relies on them; storage,
  transactions and errors of the engine are not modelled, except that the second cache level may fail on a store.
- Real clocks: the cache uses a monotonic clock for one level and wall-clock time for the other; the model has one clock
  that never goes back. A step between two suspension points takes no time.
- Cancelling a task of the query cache: an owner's future is then never settled. The cache theorems are about runs
  without cancellation; the query budget theorems allow any number of them.
- `run_with_budget`, timeouts, disconnect polling, cache keys, pickling, per-endpoint statistics, settings and defaults.
- Two calls of `getCells` or `getTuples` running at the same time on one cache; every call here runs to its end.
- Clearing the caches: a session begins with empty tuple sets and an empty cell set. Clearing one of them alone is not
  modelled, nor are changes of the query in between.
- The loop of `getCells` over the cells runs twice in the model, once for tuples and once for cells, as neither reads what
  the other changes. Cells are properties of an object in the source; a natural number for each name stands for them.
- Looking up the returned cells in the pivot table, which numbers them once more, by the counts after the call.
- CellRuns.RunsAreRightIff: is about runs whose lookups find their tuples; that a lookup does is exact on its own
  (`TupleLookup.TupleFor`). The counts that a session comes by are taken as they are there; `CellSession` computes them,
  and has sufficient conditions for them to stay the same.
- Remote tuples and the remote query adapter, apart from the numbers of remote cells. RemoteQueryAdapter is not part of
  this model.
- Values of tuples and cells are rendered by a given function; that JSON text depends on the value alone is taken for
  granted, and so are numbers in place of values of ordered types.
- Captions: two items with the same caption share one column of the select list in the source, and captions that look
  like integers are reordered; here every item has its own column.
- CellJoin.AnswerIsTheGroup: asks that the axes share no expression and that no totals item repeats one; how the query
  model keeps items apart is not part of this model.
- CellJoin.Aggregated: has no row if there are no facts, where SQL gives one row for the empty grouping set.
- Where an item asks for no order of its NULLs, the default of the query or of the engine stands in its place.
- The rows of a cells query come in the order of the cells asked for; another order would change which of them count as
  more recent, nothing else.
- The bit `1 << n` of an ORDER BY term is an unbounded number here; the engine may refuse it for n of 31 and more.
- Names of unnested columns are trees here; in the source they are joined with dots, so a column whose own name looks
  like such a join would collide. Types of columns are left out.
- Filters inside unnested data are placed on stages by `transformFilterItems`, which is not modelled; neither are
  sampling clauses.
- Array filters (`hasany`, `hasall` and their negations), collations and casts: they change no parenthesis and no NULL
  rule of the modelled kinds. Filter values are numbers, patterns are any relation between numbers.
- Filter values outside `RangeBounds` are lists, in the order in which the source lists their keys.
- Toggling, sorting and rendering range bounds in the filter dialog: `RangeBounds` starts from the pairs entered.
- Export files: writing is one step that succeeds or fails. A job that is cancelled between the check after writing and
  the final update leaves its file behind; nothing is claimed about that. Job ids are taken to be fresh.
- ExportJobs.StatusesOnlyClimb: says nothing about calls that end early; a cleanup that meets a job expired by another
  cleanup in between is refused by the table and ends with an error.
- Listing with a status filter, and the encoding of cursors. The router admits limits from 1 to 100; a limit below 1 is
  not modelled.
- String building and validation on the server: routers, configuration and the SQL builders of the service.
