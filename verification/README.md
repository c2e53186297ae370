# GEMP: a verified model

GEMP, the Green Energy Monitoring Platform, decides which public building of a portfolio gets
which retrofit. It stores every meter reading in a signed chain, lets an operator check that
nothing was altered, solves the allocation of a budget, and shows the result on a map and in
charts. This project models the parts of it that are easy to get wrong and proves what they
keep, for all inputs, all runs and all interleavings. `dafny verify dfyconfig.toml` checks it.

| file | what it models |
|---|---|
| `LineSimplification.dfy` | recursive line simplification: its error bound, and why a finer pass before a coarser one is absorbed |
| `Selection.dfy` | the capped greedy choice of buildings, its optimality, and the quotas per group |
| `Preference.dfy` | which buildings that choice prefers, said without its passes |
| `SolverSlots.dfy` | the two-level limit on concurrent solves, over every interleaving of threads |
| `ContextCache.dfy` | the cached optimizer context, and the candidate set beside it, against refits, recomputation and resets |
| `JobSlot.dfy` | the exclusive slot for maintenance jobs |
| `Rounding.dfy`, `HashChain.dfy` | the canonical form, the signature chain, its walk, the checkpoint test, the seeder |
| `Ingester.dfy` | the bounded queue and the write path that numbers, signs and stores readings, with its failures |
| `StoredReadings.dfy` | what the stored rows say, and what the counters count |
| `ChainVerifier.dfy` | the integrity report, and the verifier reading while the ingester writes |
| `Gesture.dfy` | panning and pinching the map |
| `Thinning.dfy`, `Charts.dfy` | thinned tables, the point under the pointer, and where a line breaks |
| `Dashboard.dfy` | the daily alert trend and the thinned series |
| `SecurityGate.dfy` | the verdict over scanner findings and accepted exceptions |
| `Expansion.dfy` | how the options of a portfolio are made, and what greedy may count on |
| `Pruning.dfy`, `Optimum.dfy` | dominance pruning, and the optimum it keeps |
| `Baselines.dfy`, `Upgrades.dfy`, `EqualSplit.dfy` | the three heuristics: what they keep, and what pruning does to each |
| `SwapOrder.dfy` | why the upgrades end alike on all the options and on the kept ones |
| `Sorting.dfy`, `Sets.dfy`, `Wrappers.dfy` | a stable sort, the size of a set, the optional value, for all of them |

How it is built. Code that computes is a function. Code that updates fields is a class whose
methods are proved equal to a function of the old state; code that loops is a method proved
equal to a function. The theorems are lemmas about those functions. A protocol is a state, a
step datatype and `Apply`; a step that cannot be taken changes nothing, so a theorem about
every sequence of steps is a theorem about every interleaving.

Assumptions. Signatures are symbolic: two are equal only if key, predecessor and payload are,
which idealises HMAC-SHA256. Amounts, coordinates and distances are exact reals, and line
simplification compares squares. Steps of a protocol are the critical sections of the program
and its single reads and writes of shared variables. Identifiers and keys of dictionaries
compare as values; where the program compares by identity, an `id` field stands for it. Ids of
buildings, and of interventions, are pairwise different, and no id of an intervention contains
a plus sign, which separates them in the key of an option.

Where the code and its own documentation part ways, the code is followed:

- `get_context` reads its global twice outside the lock and can return None to its caller
  (`ContextCache.FastPathCanReturnNothing`); the exact condition is `FastPathReturnsContextIff`.
- The cached context is said to stay paired with the candidate set that is written for it. The
  set is written after the lock is released, and two recomputations, or one nightly refit, can
  leave the two apart (`RecomputationsCanUnpair`, `RefitCanUnpair`); `PairedIff` says exactly
  when they are together.
- A recomputation is said to make the next request reflect a change. One that built before the
  change publishes the older context after it (`RecomputationCanPublishStale`), and the refit
  that runs in its own process resets nothing; `FreshAfterOutsideRefitIff` says exactly when the
  cache is as new as that refit.
- An edit below the fourth decimal of a power, or inside one second, is invisible to the chain,
  and every row has one (`HashChain.EveryRowHasUnseenEdit`); every other edit is found where it
  was made (`EditUnseenIff`, `EditedRowVerdict`). Seconds are cut toward zero, so the two around
  the epoch count as one (`LargeEditIsSeen`).
- The hint to check the key is given whenever the first row does not begin a chain
  (`ChainVerifier.KeyHintIff`), so also when the oldest rows were deleted. The hint that the
  tail was deleted says that the walk is clean; it is given whenever the first row is in order
  and the test against the anchor fails (`TailHintIff`), so also when the walk breaks later and
  nothing was deleted (`TailHintWithoutDeletion`).
- The comparison of the anchor file with the database copy is read as evidence of tampering,
  and differs without any (`RoundBetweenTheReads`, `SameSecondDisagrees`). Exactly when, over
  every run, is `CopiesMatchIff` with `RisesIff` and `LevelIff`.
- A failed flush is said to leave the batch in the queue. A batch put back on a full queue
  pushes out the newest readings uncounted, and a second write that raises, on the path that
  isolates unknown buildings, loses its batch (`Ingester.NothingMissingIff`).
- The counter of discarded readings also counts messages with a bad field that meet a full
  queue, and discard nothing (`Ingester.OverflowExactIff`).
- A commit whose confirmation is lost leaves memory behind the table unless nothing was stored
  (`Ingester.LostConfirmationHealthyIff`), and the next new reading forks its chain
  (`LostConfirmationForks`). The retry in between is harmless for a batch in time order
  (`RetryDropsAllIff`, `InOrderIsNeverLate`). Over any run a chain is intact exactly when no
  write stored rows signed after a head that was not the table's (`ChainStaysIff`), and the
  verifier sees it when one did (`ChainVerifier.ForkIsReported`).
- Greedy is said to be unaffected by pruning because a dominating option is at least as dense.
  Two options of a building that are equally dense change the result when pruning puts the
  cheaper one first (`Baselines.TieChangesGreedy`), and the program makes such portfolios
  (`Expansion.PortfolioCanTie`). For every portfolio it makes, the result is unaffected exactly
  when no funded option has a cheaper one as dense at its building
  (`Expansion.PortfolioUnchangedIff`); conditions to check beforehand are `GroupedUnchanged` and
  `UnchangedAtEveryBudgetIff`. The reason given also fails for an option that costs nothing
  (`FreeOptionChangesGreedy`), but `expand_building` drops those
  (src/gemp/domain/candidates.py:81-83), so only a hand-made one can meet a solver. For the
  equal split the value is unaffected, the cost can fall. The upgrades that may follow greedy
  take other swaps on the pruned list, and end in the same place whenever greedy does
  (`SwapOrder.UpgradeUnchanged`), but not always otherwise (`UpgradeCanDiffer`).
- A count of zero makes `spread` return every candidate, so a group whose share rounds to zero
  contributes its whole pool (`Selection.GroupContribution`); the final choice is still exact.

## Model

| member | source | states |
|---|---|---|
| LineSimplification.Simplify | scripts/fetch_osm_context.py:153-183 | the recursive procedure computes the simplified line, for every tolerance of at least 0; it terminates |
| LineSimplification.FindWorst | scripts/fetch_osm_context.py:169-178 | the inner loop finds the first of the points furthest from the chord, and position 0 when none is off it |
| LineSimplification.FootOfPerpendicular | scripts/fetch_osm_context.py:172-176 | the distance formula, in both branches, is attained at a point of the line through the ends |
| LineSimplification.NoPointIsCloser | scripts/fetch_osm_context.py:172-176 | no point of that line is closer than the formula says |
| LineSimplification.DistSqToLine | scripts/fetch_osm_context.py:172-176 | so the formula is the distance to the line: the least over its points, and attained |
| LineSimplification.ErrorBound | scripts/fetch_osm_context.py:162-183 | the result is the input read at strictly increasing indices that keep both ends, and every dropped point is within the tolerance of the line through the two kept points around it |
| LineSimplification.NearIsDropped | scripts/fetch_osm_context.py:180-181 | a line of three points or more whose whole interior is within the tolerance of the line through its ends comes back as the two ends |
| LineSimplification.FarIsKept | scripts/fetch_osm_context.py:180-183 | otherwise the first of the points furthest from that line is kept, and the result is that of the part before it and that of the part after it, joined there |
| LineSimplification.CoarserPassAbsorbs | scripts/fetch_osm_context.py:153-183 | simplifying at a finer tolerance and then at a coarser one equals simplifying the original at the coarser one; equal tolerances give idempotence |
| LineSimplification.NegativeToleranceSplitsAtZero | scripts/fetch_osm_context.py:169-183 | with a tolerance below 0 no slice passes the test, and the second recursive call receives its own input exactly when the whole interior lies on the chord |
| LineSimplification.NegativeToleranceEndsIff | scripts/fetch_osm_context.py:153-183 | so at a negative tolerance the recursion ends exactly for the lines from which a tolerance of zero drops no point |
| LineSimplification.WorstIsFirst | scripts/fetch_osm_context.py:169-178 | the strict comparison keeps the first of the worst points, for any distance |
| LineSimplification.CutMeans | scripts/fetch_osm_context.py:180-183 | a slice is left whole only when none of its interior is past the limit, and otherwise is cut at its first worst point |
| LineSimplification.SimplifiedIsPick | scripts/fetch_osm_context.py:162-183 | the concatenation without the seam is the input read at the kept indices |
| LineSimplification.KeptWithin | scripts/fetch_osm_context.py:180-183 | every index between two kept neighbours is off their chord by at most the limit |
| LineSimplification.WorstSurvives | scripts/fetch_osm_context.py:169-183 | after the two halves are simplified the worst point of the whole is still the split point, now at the seam |
| LineSimplification.CutSurvives | scripts/fetch_osm_context.py:180-183 | a coarse pass cuts the finely simplified run where it cuts the original, or leaves both whole |
| LineSimplification.Absorption | scripts/fetch_osm_context.py:153-183 | the absorption law for any non-negative distance to a chord |
| Selection.SpreadOut | scripts/fetch_osm_buildings.py:265-283 | the two loops with the counting dictionary and the early return compute the greedy choice followed by the skipped candidates |
| Selection.SpreadExact | scripts/fetch_osm_buildings.py:251-283 | exactly min(count, n) pairwise different candidates; all of them when the count is 0 or less |
| Selection.Exchange | scripts/fetch_osm_buildings.py:268-275 | a selection that respects the cap can swap a candidate the first pass skipped for one it took in the same cell |
| Selection.GreedyIsLargest | scripts/fetch_osm_buildings.py:268-275 | no selection that respects the cap is larger than the first pass |
| Selection.CappedWheneverPossible | scripts/fetch_osm_buildings.py:260-283 | the result respects the cap if and only if some selection of its size does |
| Selection.BestOnEveryPrefix | scripts/fetch_osm_buildings.py:260-275 | from every prefix of the candidates the first pass takes at least as many as any cap-respecting selection of at most count |
| Preference.SpreadMeans | scripts/fetch_osm_buildings.py:265-283 | the order of both passes: the candidates with fewer than three of their cell listed before them precede the others, each kind in the order of the list, and with a candidate every one preferred to it is taken, before it |
| Preference.SameCellIsClose | scripts/fetch_osm_buildings.py:269-269 | two places of one cell are less than 0.006 degrees apart either way, less than 0.003 on one side of the equator and of the zero meridian |
| Preference.CloseIsSameCell | scripts/fetch_osm_buildings.py:269-269 | and places between the same multiples of 0.003 degrees are in one cell |
| Selection.LargestIsPermutation | scripts/fetch_osm_buildings.py:348-349 | sorting a group keeps its members, each as often as before |
| Selection.LargestIsSorted | scripts/fetch_osm_buildings.py:348-349 | and orders them by decreasing area, those of equal area as they were |
| Selection.GroupContribution | scripts/fetch_osm_buildings.py:353-356 | a group contributes min(share, pool) of its members, and its whole pool when the share is 0 or less |
| Selection.Choose | scripts/fetch_osm_buildings.py:338-362 | the loops over groups, quotas and the top-up compute the choice for the rounded shares |
| Selection.ChooseExact | scripts/fetch_osm_buildings.py:338-362 | exactly min(count, n) pairwise different usable buildings, for any shares whatever |
| Preference.SharesAreNear | scripts/fetch_osm_buildings.py:351-355 | the share of a group is within one half of its quota of the count |
| Preference.ChosenByQuota | scripts/fetch_osm_buildings.py:352-356 | position by position: where the quota of a group is being filled the choice has a building of that group, and a larger one of the group is left out only if three others of its cell, each as large at least, are taken |
| Preference.ChosenByTopUp | scripts/fetch_osm_buildings.py:358-362 | past the quotas a larger building of whatever group is left out only for that reason |
| Preference.QuotaIsMet | scripts/fetch_osm_buildings.py:352-362 | each group whose quota is filled within the count has at least the smaller of share and size in the choice |
| SolverSlots.LimitsFor | src/gemp/api/main.py:394-402 | the machine limit is half of the processors, at least 1 and at most 4, and the account limit half of that, at least 1 |
| SolverSlots.EveryRun | src/gemp/api/main.py:407-443 | in every interleaving free permits plus holders equal the limit, each stored count is the number of that account's threads between increment and decrement and within its limit, and no zero is stored |
| SolverSlots.DefaultsNeverUsed | src/gemp/api/main.py:422-443 | a decrement always finds its account stored with at least 1, and a release never exceeds the bounded semaphore |
| SolverSlots.EnterMeans | src/gemp/api/main.py:411-420 | a thread is counted in if and only if its account is below its limit; the count rises by one, and no other thread, account or permit is touched |
| SolverSlots.AcquireMeans | src/gemp/api/main.py:422-422 | it gets a permit if and only if fewer than all are held, and nothing else changes |
| SolverSlots.UncountMeans | src/gemp/api/main.py:423-443 | counting out takes the thread out and exactly one off its account, and touches no other thread, account or permit |
| SolverSlots.SolveRestores | src/gemp/api/main.py:407-443 | a whole solve with a free permit leaves the state as it was |
| SolverSlots.RefusalRestores | src/gemp/api/main.py:422-433 | so does a pass that is refused a permit |
| SolverSlots.LeavesAlone | src/gemp/api/main.py:422-443 | the remaining steps of a thread take it out and no other with it |
| SolverSlots.EverybodyCanLeave | src/gemp/api/main.py:407-443 | from every reachable state the remaining steps of the threads inside lead back to the initial state |
| SolverSlots.Quiescent | src/gemp/api/main.py:424-443 | with no thread inside, the dictionary is empty and every permit is back |
| SolverSlots.NoAccountHoldsMoreThanHalf | src/gemp/api/main.py:397-402 | with two slots or more no account ever occupies more than half of them |
| SolverSlots.RefusedOnlyWhenFull | src/gemp/api/main.py:422-433 | a thread is refused a permit if and only if all permits are held by others |
| SolverSlots.Slots.Reserve | src/gemp/api/main.py:411-420 | the first critical section, with the count it reports |
| SolverSlots.Slots.TryAcquire | src/gemp/api/main.py:422-422 | the non-blocking acquire succeeds if and only if fewer than the limit hold a permit |
| SolverSlots.Slots.GiveBack | src/gemp/api/main.py:436-437 | the release |
| SolverSlots.Slots.CountOut | src/gemp/api/main.py:423-428 | either decrementing critical section |
| ContextCache.EveryRunIsSane | src/gemp/api/main.py:92-109 | in every interleaving the lock has one owner, nothing is built from a version that does not exist, and a context about to be stored is not older than the one it replaces |
| ContextCache.BuildsAreCurrent | src/gemp/api/main.py:97-103 | over any run, what a thread builds after a commit is not older than that commit, be it a request, a recomputation or the set of a refit |
| ContextCache.RefitSetHasRefit | src/gemp/scheduler.py:42-52 | the candidate set a refit writes is never older than the version that refit committed |
| ContextCache.AtLeastForever | src/gemp/api/main.py:97-109 | once nothing cached or about to be cached is older than a version, nothing ever is again |
| ContextCache.FreshAfterRefit | src/gemp/scheduler.py:42-52 | after the nightly refit has written version v, written the candidate set and reset the cache, no context cached in any continuation is older than v |
| ContextCache.NeverBackwards | src/gemp/api/main.py:92-109 | versions stored in the cache never go backwards, resets in between or not |
| ContextCache.LockedPathReturnsContext | src/gemp/api/main.py:97-103 | the locked path always returns a context |
| ContextCache.EmptyIffResetLast | src/gemp/api/main.py:101-109 | starting from a cached context, the cache is empty if and only if some reset took effect and nothing was stored after it |
| ContextCache.FastPathReturnsContextIff | src/gemp/api/main.py:95-96 | the fast path, which reads the global twice, returns a context if and only if no reset slipped in between without a store after it |
| ContextCache.FastPathCanReturnNothing | src/gemp/api/main.py:95-96 | a run of three threads in which get_context returns None |
| ContextCache.FrozenWithoutReset | src/gemp/api/main.py:95-103 | without a reset or a recomputation the cached context never changes |
| ContextCache.OutsideRefitStaysStale | src/gemp/api/jobs.py:51-53 | after the refit that runs in its own process the cached context is older than the data as long as there are only readers and other commits |
| ContextCache.FreshAfterOutsideRefitIff | src/gemp/api/jobs.py:51-53 | over any run after it, a context that is cached is as new as that commit if and only if since then the cache has been reset, or filled from data at least that new |
| ContextCache.RecomputationCanPublishStale | src/gemp/api/main.py:892-895 | a run in which a recomputation that built before the commit publishes after it, and at rest the older context is cached |
| ContextCache.Process.SeesContext | src/gemp/api/main.py:95-95 | the first read of the global |
| ContextCache.Process.ReturnUnlocked | src/gemp/api/main.py:96-96 | the second read, whose value goes to the caller |
| ContextCache.Process.BuildIfMissing | src/gemp/api/main.py:97-103 | the body of the locked path is that sequence of steps and returns a context |
| ContextCache.Process.ResetContext | src/gemp/api/main.py:106-109 | the reset |
| ContextCache.Process.PublishRebuilt | src/gemp/api/main.py:892-895 | the end of the recomputation's critical section never replaces a newer context by an older one |
| ContextCache.Process.MaterialiseCandidates | src/gemp/repository.py:164-185 | the candidate set is written after the lock was released |
| ContextCache.PairedIff | src/gemp/api/main.py:885-897 | once the candidate set has been written for the last time, by a recomputation or by the nightly refit, it is of the version w that was written; a context cached at the end is paired with it if and only if nothing newer than w was cached then or stored since, and w was |
| ContextCache.RecomputationsCanUnpair | src/gemp/api/main.py:892-897 | a run of two recomputations after which, with everything at rest, the cached context and the candidate set are of different versions |
| ContextCache.RefitCanUnpair | src/gemp/scheduler.py:42-52 | and a run of one nightly refit and a request after it that ends the same way |
| ContextCache.NoSetYet | src/gemp/repository.py:164-185 | before anybody has written it there is no candidate set to be paired with |
| JobSlot.EveryRun | src/gemp/api/jobs.py:84-168 | in every interleaving the entries agree with the accepted jobs: running exactly for the one unfinished job, idle exactly when never started, failed exactly with an error text |
| JobSlot.OneAtATime | src/gemp/api/jobs.py:158-163 | at most one kind is running, and it is the kind of the one unfinished job |
| JobSlot.RefusalNamesTheJobInTheWay | src/gemp/api/jobs.py:151-161 | a start is refused if and only if some accepted job has not made its terminal write; it changes nothing and reports that job |
| JobSlot.ExactlyOneTerminalWrite | src/gemp/api/jobs.py:131-148 | every accepted start makes exactly one terminal write, or is still unfinished |
| JobSlot.StartWrites | src/gemp/api/jobs.py:151-168 | an accepted start writes its user and its time, clears the result of the job before, and leaves every other entry alone |
| JobSlot.FinishWrites | src/gemp/api/jobs.py:116-148 | the terminal write keeps user and start time and adds, for each of the ways the command can end, its status, time, summary and error text |
| JobSlot.CanAlwaysEnd | src/gemp/api/jobs.py:84-168 | from every reachable state the unfinished job can be brought to its end, after which the slot is free for every kind |
| JobSlot.HeldUntilWritten | src/gemp/api/jobs.py:151-168 | only the terminal write frees the slot: until then, thread started or not, every start is refused and no entry changes |
| JobSlot.Registry.FindRunning | src/gemp/api/jobs.py:108-113 | the walk over the dictionary finds the kind of the unfinished job |
| JobSlot.Registry.StartJob | src/gemp/api/jobs.py:158-168 | accepted with the new entry of this kind, or refused with the entry of the job in the way |
| JobSlot.Registry.WriteOutcome | src/gemp/api/jobs.py:116-148 | the terminal write; done exactly when the subprocess exited with 0 |
| Rounding.RoundMonotone | src/gemp/optimize/ilp.py:59-60 | rounding to whole units keeps the order of the amounts |
| Rounding.RoundMeans | src/gemp/optimize/ilp.py:59-60 | the nearest whole number, of two equally near ones the even |
| HashChain.VerifyChain | src/gemp/ingest/integrity.py:140-180 | the loop computes the walk from any start signature and expected first number |
| HashChain.WalkAcceptsIff | src/gemp/ingest/integrity.py:154-180 | the walk is clean if and only if every row continues its predecessor in number and signature, the first from the genesis value |
| HashChain.WalkReportsFirstBreak | src/gemp/ingest/integrity.py:157-175 | a broken chain is reported at the first row that does not continue its predecessor, with the reason its numbering gives |
| HashChain.BreakNamesRow | src/gemp/ingest/integrity.py:157-180 | the report of a break names a row by place, time and number and counts the rows before it as checked; without a break all rows are |
| HashChain.NumberedFromZero | src/gemp/seed.py:75-84 | on a chain row i carries the number i |
| HashChain.SeedBuilding | src/gemp/seed.py:73-100 | the seeding loop builds a chain with every field as given, each stored power within 0.00005 of the series, and anchors its last row; an empty series has no row to anchor |
| HashChain.ReplacedRowVerdict | src/gemp/ingest/integrity.py:154-178 | replacing row i > 0 by any row, re-signed or not, stays unnoticed if and only if it carries the number i, a valid signature on its predecessor and, unless last, the old signature |
| HashChain.ReplacedFirstRowVerdict | src/gemp/ingest/integrity.py:140-178 | the first row is never told which number to carry: alone in the table any row signed on the genesis value passes, with others behind it only its old signature does |
| HashChain.EditedRowVerdict | src/gemp/ingest/integrity.py:78-96 | editing the data of a row and leaving its signature is unseen if the canonical form is unchanged and otherwise is reported at that very row |
| HashChain.EditUnseenIff | src/gemp/ingest/integrity.py:78-96 | of an edit to the time and the reading of any row of a chain the walk sees exactly what changes the whole second or the printed reading |
| HashChain.PrintedIsNear | src/gemp/ingest/integrity.py:87-89 | the printed digits are those of the power to the fourth decimal, and its sign |
| HashChain.LargeEditIsSeen | src/gemp/ingest/integrity.py:78-96 | an edit that moves the power by more than 0.0001, or the time by a second or more, is reported at that row as modified; two times across the epoch must be two seconds apart |
| HashChain.AcrossTheEpoch | src/gemp/ingest/integrity.py:87-89 | a move of 1.8 seconds across the epoch is not seen |
| HashChain.FieldEditIsSeen | src/gemp/ingest/integrity.py:78-96 | an edit of the building, the source or the number, with whatever else, is reported at that row |
| HashChain.EveryRowHasUnseenEdit | src/gemp/ingest/integrity.py:87-89 | every row of every chain has an edit, in both fields at once, that the walk does not see |
| HashChain.DeletionVerdict | src/gemp/ingest/integrity.py:154-180 | after deleting any set of rows what remains is accepted if and only if it is a prefix; otherwise the break is at the first row out of place, "modified" when the head is gone and "deleted" at a later gap |
| HashChain.HeadPinsHistory | src/gemp/ingest/integrity.py:123-125 | two clean chains with the same head signature have the same signed content back to the genesis value |
| HashChain.WrongKeyFailsAtOnce | src/gemp/services.py:249-255 | with a different key the very first row fails as "modified" |
| HashChain.TruncationNeedsTheAnchor | src/gemp/ingest/integrity.py:183-213 | every non-empty proper prefix of a chain walks clean, and every proper prefix fails against the recorded head as a deletion |
| HashChain.CheckpointOnChain | src/gemp/ingest/integrity.py:183-226 | on a chain the test asks for the anchored number of rows and compares signatures only when the anchored row is the last |
| HashChain.TamperEvidence | src/gemp/services.py:184-190 | however the table was altered, if its last signature was really issued, a clean walk and a passed checkpoint test mean it is, in everything signed, a prefix of the history that reaches the anchored row |
| Ingester.HeadDecides | src/gemp/ingest/consumer.py:367-373 | while the store is healthy the timestamp of the head alone decides what is a duplicate |
| Ingester.NextRowExtends | src/gemp/ingest/consumer.py:375-380 | a reading numbered and signed after a head that matches the table extends the chain of its building and leaves every other building alone |
| Ingester.SignBatchAgrees | src/gemp/ingest/consumer.py:347-380 | after any prefix of a batch, with its rows stored and its heads applied, the store would be healthy and every reading is a row or a counted duplicate |
| Ingester.CommittedWrite | src/gemp/ingest/consumer.py:340-345 | a committed write keeps every chain intact and in step with the memory, only appends, and turns each reading into one stored row or one duplicate |
| StoredReadings.AddedRowsCarry | src/gemp/ingest/consumer.py:375-380 | whatever the write and however it ends, each row it adds has the building, time, power and source of a reading of the batch |
| StoredReadings.CommittedReadings | src/gemp/ingest/consumer.py:367-384 | after a commit each reading of the batch is such a row, unless a stored row of its building is at least as new |
| StoredReadings.WrittenIsStored | src/gemp/ingest/consumer.py:382-417 | what a write reports as written is the number of rows the table has gained |
| Ingester.NothingDiscarded | src/gemp/ingest/consumer.py:328-338 | nothing that was numbered is discarded by the conflict clause |
| Ingester.FailedWriteLeavesNoTrace | src/gemp/ingest/consumer.py:340-345 | a refused write, or one that fails before its commit, leaves the table and every head as they were |
| Ingester.RetrySignsTheSame | src/gemp/ingest/consumer.py:237-243 | trying the same batch again signs exactly the same rows |
| Ingester.ForkIff | src/gemp/ingest/consumer.py:360-380 | storing the row signed after an arbitrary head gives an intact chain if and only if that head was the head of the table |
| Ingester.LostConfirmationHealthyIff | src/gemp/ingest/consumer.py:340-345 | under a lost confirmation memory and table agree afterwards if and only if the batch had nothing to store or nothing the database accepts; a restart brings them together |
| Ingester.LostConfirmationForks | src/gemp/ingest/consumer.py:367-384 | otherwise the next new reading of such a building, once written, leaves a table that is no chain, wherever the order by number puts its row |
| Ingester.RetryDropsAllIff | src/gemp/ingest/consumer.py:237-245 | the retry after a lost confirmation drops the whole batch, and moves neither table nor head, if and only if no reading of it had come behind a newer one |
| Ingester.InOrderIsNeverLate | src/gemp/ingest/consumer.py:367-370 | in a batch whose readings are in time order building by building no reading has |
| Ingester.ResumeIsHealthy | src/gemp/ingest/consumer.py:185-206 | reloading the heads from an intact table continues every chain where it ended |
| Ingester.FlushConserves | src/gemp/ingest/consumer.py:210-320 | what a flush takes from the queue, and what comes in meanwhile, is written, counted as duplicate, rejected or lost, or in the queue, except for an exactly stated remainder; the queue never exceeds its bound |
| Ingester.RunConserves | src/gemp/ingest/consumer.py:154-320 | over any run of messages, flushes and restarts every reading that came in is waiting or counted once, but for the exactly stated wrong counts, remainders and what restarts forget |
| StoredReadings.RunStoresReadings | src/gemp/ingest/consumer.py:154-384 | over any run, lost confirmations and restarts included, each row added carries unchanged a reading that waited at the start or came in during the run |
| StoredReadings.RunCountsRows | src/gemp/ingest/consumer.py:210-320 | over any run without restarts and lost confirmations the counter of written readings rises by the number of rows the table gains |
| StoredReadings.UnreadableAreCounted | src/gemp/ingest/consumer.py:154-176 | the counter of malformed messages rises by the number of messages that carry no reading |
| StoredReadings.QueueKeepsNewest | src/gemp/ingest/consumer.py:156-176 | the queue holds the end of what it held followed by what came in, all of it unless it is full |
| StoredReadings.FailedFlushQueue | src/gemp/ingest/consumer.py:236-243 | after a failed write the batch is back in front of what waited, cut at the bound of the queue |
| StoredReadings.KnownAreStored | src/gemp/ingest/consumer.py:265-320 | when the foreign key refuses a batch the readings of unknown buildings are counted as rejected, and every other one is stored as it came unless a stored row is at least as new |
| Ingester.OverflowExactIff | src/gemp/ingest/consumer.py:156-176 | the counter of discarded readings rises by what left the queue if and only if no message with a bad field meets a full queue |
| Ingester.NothingMissingIff | src/gemp/ingest/consumer.py:233-243 | no reading goes missing uncounted if and only if a failed batch fits back and the second write of the isolating path neither raises nor finds only duplicates |
| Ingester.FailedFlushOnlyWaits | src/gemp/ingest/consumer.py:236-243 | a failed write with room in the queue leaves queue, order, table and heads as they were, and the counters as the messages left them |
| Ingester.UnknownBuildingsDoNotBlock | src/gemp/ingest/consumer.py:220-235 | readings for unknown buildings are rejected, exactly those, and the others are written or are duplicates |
| Ingester.FlushKeepsHealthy | src/gemp/ingest/consumer.py:210-263 | every flush that is not told a lie about a commit keeps every chain intact and only appends |
| Ingester.RunKeepsHealthy | src/gemp/ingest/consumer.py:340-345 | and so does every run of messages, flushes and restarts without such a lie |
| Ingester.WriteLinks | src/gemp/ingest/consumer.py:340-384 | with lost confirmations before it or in it, one write leaves the table of a building a chain if and only if it stores none of its rows signed after a head that was not the head of the table |
| Ingester.ChainStaysIff | src/gemp/ingest/consumer.py:340-384 | over any run, lost confirmations and restarts included, the table of a building is a chain at the end if and only if no write of the run did that |
| Ingester.ForkRepeatsNumber | src/gemp/ingest/consumer.py:375-380 | a write that does puts two rows of one number into the table |
| Ingester.Process.constructor | src/gemp/ingest/consumer.py:185-206 | starts with an empty queue and the heads loaded from the table |
| Ingester.Process.OnMessage | src/gemp/ingest/consumer.py:154-176 | a message that does not parse is counted; one that does counts a loss at the bound, and then is queued in place of the oldest or, with a bad field, counted as malformed with nothing discarded |
| Ingester.Process.Write | src/gemp/ingest/consumer.py:347-417 | the signing loop, the insert and the late update of the heads compute the write |
| Ingester.Process.TakeBatch | src/gemp/ingest/consumer.py:214-216 | the oldest readings, up to the batch size, leave the queue in order |
| Ingester.Process.Flush | src/gemp/ingest/consumer.py:210-263 | the flush, with messages arriving while the batch is away |
| Ingester.Process.WriteWithoutUnknown | src/gemp/ingest/consumer.py:265-320 | the retry without the readings the portfolio cannot accept, with its counters |
| ChainVerifier.TailIsEnough | src/gemp/ingest/anchor.py:95-106 | reading only the end of an ordered file finds the same newest number as reading all of it |
| ChainVerifier.ScanIsFirst | src/gemp/ingest/anchor.py:74-85 | of the lines of a building with its largest number the first is taken |
| ChainVerifier.MatchIff | src/gemp/services.py:218-223 | the two copies match if and only if both are there and agree in number and signature; on an intact chain the anchor vouches for, a mismatch is what the hint names, and there is no hint without one |
| ChainVerifier.FileStaysOrdered | src/gemp/ingest/consumer.py:469-477 | in every run the file stays ordered for the building, appends in flight included |
| ChainVerifier.EmptiedTableIsBroken | src/gemp/services.py:229-245 | an empty table with an anchor is reported broken |
| ChainVerifier.WrongKeyIsNamed | src/gemp/services.py:249-260 | a verifier with the wrong key is told to check the key |
| ChainVerifier.KeyHintIff | src/gemp/services.py:256-290 | the hint to check the key is given if and only if the first row is not signed on the genesis value under the verifier's key |
| ChainVerifier.TailHintIff | src/gemp/services.py:277-296 | the hint that the tail was deleted is given if and only if the first row is so signed, there is an anchor, and the rows fail its test |
| ChainVerifier.TailHintWithoutDeletion | src/gemp/services.py:277-296 | so it is also given when the last row was replaced, with nothing deleted and a walk that is not clean |
| ChainVerifier.MissingHeadAlsoNamesTheKey | src/gemp/services.py:256-290 | so it is also given, with the right key, when the oldest rows were deleted |
| ChainVerifier.ReportVouches | src/gemp/services.py:225-276 | a report with a clean walk and a passed checkpoint test vouches for the history up to the anchored row |
| ChainVerifier.EveryRunIsSound | src/gemp/ingest/consumer.py:441-477 | in every run every anchor line and stored checkpoint describes a row that is in the table, and what the verifier has read stays true |
| ChainVerifier.SeededIsSound | src/gemp/seed.py:92-114 | a freshly seeded building with the ingester started on it is a sound beginning |
| ChainVerifier.RestartCatchesUp | src/gemp/ingest/consumer.py:185-206 | a restart puts memory at the end of the chain and loses nothing but the lines of a round not yet written |
| ChainVerifier.GivenCheckpoint | src/gemp/services.py:196-227 | a checkpoint the caller gives in full stands in for the anchor and the copies are not compared; given in part it counts for nothing as soon as there is an anchor |
| ChainVerifier.NoFalseAlarm | src/gemp/services.py:196-227 | with nobody tampering, whatever the interleaving of commits, confirmed or not, appends and restarts with the three reads, the walk is clean, the checkpoint test does not fail and no hint speaks of a key or of deletion, unless a write forks the chain |
| ChainVerifier.ForkIsReported | src/gemp/services.py:225-276 | after a fork every report on the building is that of a broken chain, in whatever order rows of one number are read |
| ChainVerifier.CopiesMatchIff | src/gemp/services.py:211-223 | over any run: where file and table are level for the building when the file is read, the copies match if and only if no round committed between the two reads raised the database's number; with the table ahead they never match, with the file ahead exactly when rounds between brought them level |
| ChainVerifier.RisesIff | src/gemp/ingest/consumer.py:453-466 | over any steps the newest number in the database never falls, and rises if and only if a round among them has a newer head to record in a second not yet taken |
| ChainVerifier.LevelIff | src/gemp/ingest/consumer.py:459-477 | file and table are level at the end of a run as the last round that records the building, or the last restart, left them: level unless the second was taken and the table behind, or lines the table has were dropped |
| ChainVerifier.RowsFirstFalseAlarm | src/gemp/services.py:196-202 | with the rows read first, a flush and a checkpoint in the window make any building be reported as truncated |
| ChainVerifier.RoundBetweenTheReads | src/gemp/services.py:218-223 | with the program's own order, a checkpoint committed after the file was read makes the copies disagree |
| ChainVerifier.SameSecondDisagrees | src/gemp/ingest/consumer.py:453-477 | a second checkpoint within one second is dropped by the database and kept by the file, so the copies disagree with nothing in motion |
| Gesture.ScaleAnchors | web/js/map.js:998-1006 | the point zoomed about stays where it is, also when a limit stops the zoom, and the zoom is within its limits |
| Gesture.ViewFromAnchor | web/js/map.js:1003-1005 | a view is determined by its zoom and the map point under one screen point |
| Gesture.ZoomAndBackIff | web/js/map.js:998-1006 | zooming by f and by 1/f about one point restores the view if and only if the first zoom was not stopped by a limit, or went from one limit to the other |
| Gesture.Run | web/js/map.js:810-917 | every run of events keeps the zoom within its limits, the pan, the pinch and the number of pointers in agreement, and what they remember true |
| Gesture.DownAndUpKeepView | web/js/map.js:850-916 | fingers going down or up never move the view |
| Gesture.MoveAnchors | web/js/map.js:867-898 | a moving finger keeps the map point under the finger, or under the midpoint of the first two, where it was |
| Gesture.PhaseAnchors | web/js/map.js:867-898 | the same over a whole phase of moves, whether or not the zoom is stopped on the way |
| Gesture.OneFingerDrags | web/js/map.js:884-897 | in page coordinates: one finger drags the point of the map under it, and does not zoom |
| Gesture.TwoFingersPinch | web/js/map.js:867-882 | two fingers carry the point of the map half way between them, and the zoom changes as their distance does, between 0.4 and 24 |
| Gesture.ThirdFingerSteersNothing | web/js/map.js:813-827 | a third finger moves neither the view nor the gesture |
| Gesture.PinchesCompose | web/js/map.js:872-881 | two pinch steps, the first of them not stopped by a limit, are one |
| Gesture.PinchAndBackIff | web/js/map.js:872-881 | pinching out and back restores the view if and only if the zoom was not stopped, or went from one limit to the other |
| Gesture.PhaseComposes | web/js/map.js:867-888 | over a pinch phase in which no step is stopped the final view depends only on the first and last finger positions |
| Gesture.PhaseZoom | web/js/map.js:867-888 | and its zoom is scaled by the last distance over the first |
| Gesture.GroundStaysUnderMarks | web/js/map.js:963-968 | the photograph never slides under the marks |
| Gesture.PanZoom.RebaseFingers | web/js/map.js:838-848 | the gesture starts again from where the fingers are |
| Gesture.PanZoom.PointerDown | web/js/map.js:850-856 | a finger going down; another mouse button is ignored |
| Gesture.PanZoom.ZoomTo | web/js/map.js:998-1006 | the three assignments keep the point zoomed about, the middle of the drawing by default |
| Gesture.PanZoom.PointerMove | web/js/map.js:867-898 | a finger moving |
| Gesture.PanZoom.PointerUp | web/js/map.js:905-917 | a finger leaving, by release or by cancellation |
| Thinning.EveryNthMeans | web/js/charts.js:578-582 | the k-th row kept is the one at k strides, and they run to the end |
| Thinning.Thin | web/js/charts.js:578-582 | short lists are shown whole; longer ones are cut to at most 60 rows and never below 31, from the first row on |
| Thinning.TableBounds | web/js/charts.js:576-582 | those bounds for every length |
| Charts.NearestPoint | web/js/charts.js:337-345 | the closest of any sorted points wherever the pointer is; of two equally near values the earlier |
| Charts.BarUnder | web/js/charts.js:331-334 | the bar the pointer is over, and beyond either end the bar at that end |
| Charts.SortedMeans | web/js/charts.js:732-734 | the sorted steps are ordered and none is lost |
| Charts.FewBreaks | web/js/charts.js:731-741 | of n steps at most n - n/2 - 1 are breaks, and the typical step is positive |
| Charts.BoundReached | web/js/charts.js:731-741 | the bound on the breaks is reached for every number of steps |
| Charts.CadenceDecides | web/js/charts.js:728-736 | while more than half of the steps are one cadence it is the typical step, however many and long the holes are |
| Charts.RegularSeriesBreaks | web/js/charts.js:731-745 | where more than half of the steps are one cadence the line breaks exactly at the steps of more than 2.5 cadences: it is drawn through one missing reading and broken at two |
| Charts.DrawLine | web/js/charts.js:738-745 | every own point is in the path once, in time order, and the path moves exactly at the start and at the steps that are too long |
| Charts.PiecesOf | web/js/charts.js:738-745 | a series of two points or more is drawn in at most half as many pieces as it has points |
| Charts.EvenlySpacedIsOnePiece | web/js/charts.js:738-745 | an evenly spaced series is drawn in one piece |
| Dashboard.Downsample | src/gemp/api/dashboard_routes.py:344-357 | every n-th row without the empty ones; at most 799 points however long the series, and all of them below 800 rows |
| Dashboard.MeasuredMeans | src/gemp/api/dashboard_routes.py:344-357 | exactly the rows that hold a value are left, each as often as it was |
| Dashboard.MeasuredAt | src/gemp/api/dashboard_routes.py:344-357 | in their order |
| Dashboard.DownsampleBounds | src/gemp/api/dashboard_routes.py:352-355 | from 800 rows on at most 600 survive the stride, and never fewer than 400 of 400 or more; the maximum of 799 is reached at 799 rows and at no other number |
| Dashboard.AnomaliesDaily | src/gemp/api/dashboard_routes.py:149-192 | days + 1 consecutive days ending on the newest reading's, each with the counters of its alerts; nothing without readings |
| Dashboard.TallyMeans | src/gemp/api/dashboard_routes.py:165-171 | exactly what stands under every name, also when a severity is called "total" or "open" |
| Dashboard.DailyTotals | src/gemp/api/dashboard_routes.py:159-191 | the totals of the emitted days add up to the alerts neither older than the cutoff nor dated after the newest reading's day |
| Dashboard.SeveritiesAddUp | src/gemp/api/dashboard_routes.py:165-171 | the severities of a day add up to its total and its open alerts are at most that many, unless a severity is called "total" or "open" |
| SecurityGate.Judge | scripts/security_gate.py:258-291 | the loops compute the verdict |
| SecurityGate.SetAside | scripts/security_gate.py:266-267 | suppressed findings are set aside in order |
| SecurityGate.Match | scripts/security_gate.py:269-275 | each finding blocks or is excused by the first valid entry that covers it, and is noted on it |
| SecurityGate.FirstCover | scripts/security_gate.py:270-270 | the first valid entry that covers the finding |
| SecurityGate.PassesIff | scripts/security_gate.py:258-291 | the build passes if and only if no exception has expired and every finding is suppressed or covered |
| SecurityGate.CoversIff | scripts/security_gate.py:269-275 | an entry covers a finding exactly when it names its tool and rule and its path scope, if any, is somewhere in the path |
| SecurityGate.PassesInFullIff | scripts/security_gate.py:258-291 | the verdict from dates, names and paths alone: no exception past its last day, and every finding suppressed or named by an exception in whose scope it is |
| SecurityGate.ExpiredAreListed | scripts/security_gate.py:258-258 | the exceptions listed as expired are those past their last day, each as often as given |
| SecurityGate.ExcusedMeans | scripts/security_gate.py:269-275 | each excused finding is listed with a valid entry that covers it, and no entry above that one does |
| SecurityGate.OrderIrrelevant | scripts/security_gate.py:258-291 | the exit code does not change when findings or entries are permuted |
| SecurityGate.FindingsOnlyHurt | scripts/security_gate.py:269-291 | more findings never turn a failure into a pass |
| SecurityGate.NoneLost | scripts/security_gate.py:266-275 | every finding ends in exactly one of the three lists |
| SecurityGate.CoverAfterDeletion | scripts/security_gate.py:269-275 | deleting entries other than the one that excuses a finding leaves it excused by that entry |
| SecurityGate.UnusedCanGo | scripts/security_gate.py:277-291 | deleting every entry reported unused changes nothing else in the verdict and leaves nothing unused |
| Sorting.SortOrdered | src/gemp/optimize/prune.py:48-48 | the sort orders the elements, for any total comparison |
| Sorting.SortMembers | src/gemp/optimize/prune.py:48-48 | and keeps them, each as often as before |
| Sorting.SortIsStable | src/gemp/optimize/baselines.py:49-49 | elements that may stand either way keep their order |
| Pruning.Prune | src/gemp/optimize/prune.py:41-56 | the grouping loop and the frontier loop compute the pruned list |
| Pruning.Group | src/gemp/optimize/prune.py:41-43 | the buildings in order of first appearance, each with its options in order |
| Pruning.KeepFrontier | src/gemp/optimize/prune.py:47-54 | each option worth more than everything kept before it is appended |
| Pruning.FrontierRises | src/gemp/optimize/prune.py:47-54 | what is kept at a building is strictly dearer and strictly better from one option to the next |
| Pruning.PrunedMeans | src/gemp/optimize/prune.py:37-56 | nothing is invented, and an option is kept exactly when it is on its building's frontier |
| Pruning.KeptDominator | src/gemp/optimize/prune.py:3-8 | every option is dominated by one that is kept, and by an earlier one when the two are alike |
| Pruning.KeptAreIncomparable | src/gemp/optimize/prune.py:37-38 | no kept option dominates another |
| Pruning.KeptByCost | src/gemp/optimize/prune.py:47-54 | the kept options of a building stand in order of their cost |
| Pruning.GroupsKeepOrder | src/gemp/optimize/prune.py:41-56 | in a list grouped by building pruning never reverses two options of different buildings |
| Optimum.OptimumSurvives | src/gemp/optimize/prune.py:3-8 | whatever can be chosen among all options under budget, one per building and district cap, something no dearer and no worse can be chosen among the kept ones, in exact and in whole units |
| Optimum.OverspendIsSmall | src/gemp/optimize/ilp.py:59-61 | what the whole-unit budget constraint admits costs, counted exactly, at most half a unit per option and for the budget more than the budget |
| Optimum.OverspendHappens | src/gemp/optimize/ilp.py:59-61 | and it can cost more than the budget |
| Baselines.DensityPass | src/gemp/optimize/baselines.py:49-73 | the loop computes first fit over the density order |
| Baselines.DenserMeans | src/gemp/optimize/objective.py:52-62 | of two options that cost something the denser is worth more for the money |
| Baselines.TakenIff | src/gemp/optimize/baselines.py:56-73 | option by option, densest first: it is taken if and only if it is worth something, its building has nothing, and budget and cap allow it beside the picks that come from the options before it |
| Baselines.GreedyIsSound | src/gemp/optimize/baselines.py:56-73 | greedy never overspends, funds a building once, respects every cap and funds only what is worth something; its counters agree with its picks |
| Baselines.VisitedBlocks | src/gemp/optimize/prune.py:20-21 | once an option of worth was visited, nothing dearer at its building is ever funded |
| Baselines.SpareMakesNoDifference | src/gemp/optimize/prune.py:20-21 | leaving out options that are worthless or come after one that blocks them changes no funding |
| Baselines.DominatorIsDenserIff | src/gemp/optimize/prune.py:20-21 | a dominating option is at least as dense as one of worth if and only if it has a price or neither has |
| Baselines.GreedyUnchangedIff | src/gemp/optimize/prune.py:17-21 | for options of which nothing of worth is free, and of which pruning reverses no equally dense two of different buildings, it leaves greedy's result as it was, pick for pick, if and only if no funded option has a cheaper one as dense at its building |
| Baselines.GreedyUnchanged | src/gemp/optimize/prune.py:17-21 | in particular when pruning reverses no equally dense two at all |
| Baselines.GroupedUnchanged | src/gemp/optimize/prune.py:17-21 | for a list grouped by building, under any budget and cap, when of two equally dense options of a building the dearer always comes after one no dearer |
| Baselines.CheaperTiesFirst | src/gemp/optimize/prune.py:17-21 | which is so when a cheaper option is listed before a dearer one as dense |
| Baselines.UnchangedAtEveryBudgetIff | src/gemp/optimize/prune.py:17-21 | for one building that condition is exact: its result is unchanged at every budget if and only if it holds |
| Baselines.FreeOptionChangesGreedy | src/gemp/optimize/objective.py:60-61 | a hand-made option that costs nothing is counted as least dense, so greedy funds the option it dominates, and after pruning the better one |
| Baselines.TieChangesGreedy | src/gemp/optimize/prune.py:20-21 | of two equally dense options of a building greedy funds the one listed first, and after pruning the cheaper one, which achieves less |
| Expansion.ExpandBuilding | src/gemp/domain/candidates.py:58-110 | the loops over sizes and combinations make the options of a building |
| Expansion.ExpandPortfolio | src/gemp/domain/candidates.py:113-123 | and the loop over the buildings the portfolio |
| Expansion.UpToMeans | src/gemp/domain/candidates.py:69-72 | every combination of one to the largest size is tried, once |
| Expansion.CompatibleIff | src/gemp/domain/candidates.py:40-48 | a combination is compatible if and only if no two members name the same exclusive group |
| Expansion.PortfolioOffers | src/gemp/domain/candidates.py:58-123 | a portfolio has exactly the options made by the combinations of catalogue interventions that all apply to a building of it, are compatible and few enough, save something and cost something, with that price, worth, building and district |
| Expansion.PortfolioMeans | src/gemp/domain/candidates.py:79-123 | in a portfolio no option repeats, nothing is free, and the options of a building stand together and in its district |
| Expansion.PortfolioUnchangedIff | src/gemp/optimize/prune.py:17-21 | so for every portfolio the program makes greedy after pruning funds what it funds without, under any budget and cap, if and only if no funded option has a cheaper one as dense at its building |
| Expansion.PortfolioCanTie | src/gemp/domain/candidates.py:69-110 | and there are portfolios for which it does not: two interventions in the order of the catalogue, the dearer first and as dense |
| Upgrades.GreedyUpgrade | src/gemp/optimize/baselines.py:133-178 | first fit and then the loop of best swaps |
| Upgrades.FindBest | src/gemp/optimize/baselines.py:142-168 | the nested loops find the first legal swap with the highest ratio |
| Upgrades.BestMoveMeans | src/gemp/optimize/baselines.py:149-168 | the swap is legal and none is above it; none is reported only when none is legal |
| Upgrades.AboveMeans | src/gemp/optimize/baselines.py:158-168 | of two swaps that cost more the one above gains more for the extra money; one that costs no more is above all that do |
| Upgrades.LegalIff | src/gemp/optimize/baselines.py:149-165 | a swap is legal if and only if the picks with the option at its building keep the budget and the caps and are worth more |
| Upgrades.SwapIsWith | src/gemp/optimize/baselines.py:173-178 | and making it gives those picks |
| Upgrades.SwapKeeps | src/gemp/optimize/baselines.py:173-178 | a legal swap keeps the books and the three constraints and adds its gain, which is positive |
| Upgrades.UpgradeKeeps | src/gemp/optimize/baselines.py:141-178 | the upgrade never breaks a constraint and never ends with less than it began with |
| Upgrades.UpgradeSettles | src/gemp/optimize/baselines.py:104-107 | the moves end by themselves, after at most as many as there are options that improve on the start |
| Upgrades.NoSwapLeft | src/gemp/optimize/baselines.py:104-178 | where at most 10,000 options improve on what greedy funds the result respects every constraint, is worth at least what greedy achieves, and no gainful affordable swap is left |
| Upgrades.NoBetterNeighbour | src/gemp/optimize/baselines.py:104-178 | so no option, put at its building in place of what is there, gives an allowed choice worth more |
| Upgrades.DominatorIsNoWorse | src/gemp/optimize/prune.py:3-8 | wherever a swap is legal a swap to an option that dominates it is legal too, and its ratio is no lower |
| Upgrades.BestRatioSurvives | src/gemp/optimize/baselines.py:142-168 | so from any funding pruning leaves the ratio of the best swap as it was, and leaves a swap to be found exactly when there was one |
| SwapOrder.GreedySteep | src/gemp/optimize/baselines.py:49-73 | after first fit whatever is better than what its building holds costs more |
| SwapOrder.SteepStays | src/gemp/optimize/baselines.py:142-178 | and it stays so after every best swap |
| SwapOrder.BestIsKept | src/gemp/optimize/baselines.py:142-168 | so the best swap among all options is one that pruning keeps |
| SwapOrder.SameBuildings | src/gemp/optimize/prune.py:41-56 | pruning keeps every building, in its place |
| SwapOrder.PassesThrough | src/gemp/optimize/baselines.py:142-178 | on the kept options, taking any of the swaps that may come first ends where the run itself ends |
| SwapOrder.SettlesAlike | src/gemp/optimize/baselines.py:133-178 | so the swaps on all options and on the kept ones settle on the same result, though those on the way can differ |
| SwapOrder.UpgradeUnchanged | src/gemp/optimize/baselines.py:133-178 | pruning leaves the result of greedy_upgrade as it was wherever it leaves that of greedy, unless the program stops at its cap on the moves |
| SwapOrder.PortfolioUpgradeUnchanged | src/gemp/optimize/baselines.py:133-178 | for every portfolio the program makes, wherever no option that greedy funds has a cheaper one as dense at its building |
| SwapOrder.UpgradeCanDiffer | src/gemp/optimize/prune.py:17-21 | where greedy is affected the upgrade can end elsewhere too: three options, of which it funds one, and after pruning the other two |
| EqualSplit.Allocate | src/gemp/optimize/baselines.py:207-240 | the loop over the buildings and the capped pass compute the split |
| EqualSplit.UnderCap | src/gemp/optimize/baselines.py:233-240 | the counting loop keeps what the cap of each district still admits |
| EqualSplit.MostValuableIsFirst | src/gemp/optimize/baselines.py:231-231 | of equally valuable options the one listed first is picked |
| EqualSplit.CappedPrefers | src/gemp/optimize/baselines.py:233-240 | what the cap keeps of a district is worth at least what it turns away |
| EqualSplit.SplitMeans | src/gemp/optimize/baselines.py:207-240 | no building gets two options and none costs more than an equal share, so together they stay within the budget; caps hold; a building with an affordable option of worth gets one worth at least as much unless a district at its cap turned it away |
| EqualSplit.SplitUnchanged | src/gemp/optimize/prune.py:22-23 | pruning leaves the split as it was in everything but cost: the same buildings in the same order, each with an option worth the same and no dearer |

## Left out

- Baselines.GreedyUnchangedIff: for a hand-made list in which pruning reverses equally dense options of different buildings nothing is said; no portfolio the program makes is such a list.
- Baselines.GroupedUnchanged: one direction, for all buildings together; the converse, `UnchangedAtEveryBudgetIff`, is for a building by itself, since in a portfolio another building may take the money first.
- Upgrades.NoSwapLeft: when more than 10,000 options improve on what greedy funds only `UpgradeKeeps` holds, because the program then may stop at its cap on moves.
- SwapOrder.UpgradeUnchanged: one direction; where greedy is affected the upgrades end elsewhere (`UpgradeCanDiffer`) or may meet again, and when they do is not characterised. Nor is a run that stops at the cap on the moves.
- ContextCache.PairedIff: the deletion and insertion of a candidate set are one step, so two such transactions in flight at once are not modelled.
- ChainVerifier.NoFalseAlarm: excludes a write that forks the chain of the building, which is a true alarm (`ForkIsReported`); `Ingester.ChainStaysIff` says which writes do.
- Dashboard.SeveritiesAddUp: assumes no severity called "total" or "open"; `TallyMeans` says exactly what happens then.
- Charts.BarUnder: assumes a plot of positive width, which the layout of the chart provides.
- JobSlot.EveryRun: the creation of the worker thread and the terminal write itself succeed; a job whose thread never starts holds the slot, as `HeldUntilWritten` says.
- Floating point: rounding of sums, ratios, coordinates and costs; NaN and infinities.
- HMAC-SHA256, JSON and byte encodings; rows with a missing field or a missing signature, which raise in the program.
- The anchor file is a sequence of whole lines: half-written lines, the byte position of the tail read and directories are not modelled.
- Database failures other than a refused foreign key, a failure before the commit and a lost confirmation; isolation levels; the context read by `from_db` is one version.
- The streaming detector and the webhook inside the write path, and the scores they produce.
- Logging, notifications and the counters that only feed messages.
- The wheel and the keyboard in the middle of a drag, which change the view without refreshing what the drag remembers; a map element that moves while fingers are down.
- Drawing: the SVG markup, the deferred render after a pinch, tick marks, the area under a line, and rounding of coordinates to two decimals.
- CP-SAT itself: the model states the constraints it is given and what pruning preserves of them, not the search or its time limit.
- The physics and prices behind an option, which are parameters of `Expansion`, and the error it raises for an impossible saving; life-cycle costing, forecasting, accounts, mail, tile and map fetching, migrations and configuration.
- Reading of SARIF and pip-audit reports, the Markdown summary and the loading of the allowlist; the date is one value for the whole verdict.
- A negative count given to `choose`, and buildings without the fields it sorts by.
