# Replicache subscriptions and their surroundings, verified

This project models the logic of Replicache, the client-side storage layer of a sync engine, and of a few components
that live next to it, and proves what they promise their users.

**The subscription engine** is the main part. A client registers queries (functions that read the local database) and
watchers (callbacks that are handed the changes under a key prefix). After a commit the engine does not re-run
everything: it records which keys and scans each query read, compares them with the diffs of the commit, and re-runs
what matches. The project follows this chain from end to end.

- `Keys`, `Entries`, `IndexKeys`: strings and their order, sorted listings of a map, and the encoding of index keys.
- `ScanOptions`, `Scan`: scan options, the key a scan starts reading from, the scan iterator, and what a scan means.
- `Diffs`: versions of the stored data and the diffs between them.
- `ScanMatching`, `IndexMatching`: the matcher that decides whether a changed key can influence a recorded scan, and
  exactly when it is right.
- `Transactions`, `TrueAnswers`: adaptive query bodies, the transaction object that records what they read, and what they
  are told.
- `BinarySearch`, `Watch`: the shared binary search, and the watcher's prefix filter built on it.
- `Subscriptions`, `SubscriptionRuns`, `WatcherRuns`, `SubscriptionsManager`: the manager as a state machine over its
  uninterrupted sections, the invariants of all its runs, and the object whose methods are those sections.
- `DeliveredValues`: exactly which values a query's callback gets.
- `CallbackOrder`, `CompletionOrder`, `OutOfOrderRuns`: exactly when a watcher is right in whatever order diffs are fired,
  batches run and callbacks called, and runs that go wrong.
- `StaleQueries`: for every kind of scan that the matcher does not support, a run in which a query goes stale.
- `Overlay`: a scan over stored data overlaid with pending writes and deletions.

**The surroundings** are separate small systems: the Datadog log sink (`LogSink`, `LogContents`), the push/pull
connection loop (`ConnectionLoop`, `RequestReasons`), the process scheduler (`ProcessScheduler`, `ThrottleDistance`,
`SchedulerProgress`), recovery of other client groups' mutations (`MutationRecovery`), deep freezing of JSON graphs
(`FrozenJson`), deleted-client lists (`DeletedClients`), the search for a sustainable write rate (`PointSearch`) and the
hash generator (`HashGenerator`).

## Main results

- *The cache agrees with re-running everything.* In every run of add, initial run, commit, fire, run, callback, remove,
  clear and abort steps, with diffs fired in any order, whenever nothing is under way the last delivered value of every
  registered query stands for its body on the current data (`QueriesAreCurrent`). It rests on `DependenciesSuffice`, by
  induction over a body's adaptive and possibly interleaved reads, which rests on `ScanSound`. Its condition on the
  scans of a body is exact: queries over a scan are current in all runs if and only if the matcher supports the scan's
  options (`SupportIsNeeded`). What a callback gets over a whole run is exactly the changes among the results of its runs,
  in version order (`DeliveredExactly`).
- *Bodies are told the truth.* Every run of a body, however it interleaves its reads, has the one list of answers that
  agrees with the data, and records exactly what it asked for (`RunIsTrue`, `OneTrueLog`).
- *The matcher, exactly.* `MatcherSoundIff` says for which options it never misses a change, and `MatcherExactIff` for
  which options of a drained plain scan a match always means a different result; `IndexMatcherExactIff` is the same for
  index scans. All conditions can be read off the options.
- *Watchers.* `FilterReliableIff` says which watchers' prefix filter is right for every diff, and `MatchesIff` when a
  watcher is called. `WatcherIsCurrent` says that replaying what a watcher was handed gives the watched part of the data
  after every run in order. From an arbitrary state, `EveryOrderIff` gives the exact condition under which every order of
  firing, running and calling back what is under way ends right, and `EveryClauseIsNeeded` shows that no clause of the
  order can be dropped.
- *The log sink* conserves the log in every interleaving of logging and sending (`LogIsConserved`), and `FlushEndsIff`
  says exactly when its flush loop ends. Every request carries what was logged (`RequestsCarryTheLog`) and is as large as
  it can be (`BatchIsMaximal`).
- *The connection loop* strands nobody and answers within a bounded number of its own steps (`NoCallerIsStranded`,
  `CallersAreAnswered`), and starts no request without a reason of its own (`NoRequestWithoutReason`).
- *The scheduler* never overlaps runs under a discipline of its callers, which cannot be weakened
  (`NeverConcurrentAndThrottled`, `DisciplineIsNeeded`); it keeps the throttle distance between starts if `run()` is
  called only when no run is unfinished, which cannot be weakened either (`StartsKeepThrottle`, `PatienceIsNeeded`). It
  settles every promise within a bounded number of steps (`PromisesAreSettled`, `SchedulerProgress.NeverStuck`).
- *Mutation recovery* visits the groups in the order of the map read last, does for each what one recovery does, and
  leaves those that succeed acknowledged (`RecoverFromPerdag`, `RecoveredGroupsAreAcked`).
- *Deep freezing* succeeds exactly if nothing that is not JSON can be reached outside the memo, and what an exception
  can leave wrong in the memo is characterised exactly (`DeepFreeze`). The check for frozen graphs answers according to
  what it comes to first (`IsDeepFrozen`).

## Where the code does less than it says

Each of these is proved, with a concrete input or an exact condition.

- A plain scan with a limit of zero or less returns everything, but the matcher ignores all changes to it. An index scan
  whose start has a primary part is matched by comparing primary keys regardless of the secondary key, and an exclusive
  start with an empty primary part skips a whole secondary key. `MatcherSoundIff` gives the exact set of such options,
  and for each of them there is a run in which a query goes stale (`SupportIsNeeded`).
- Without a prefix or a start the matcher accepts every key, also beyond the limit of a limited scan, and the key that an
  exclusive start skips (`MatcherExactIff`). For an index scan with a limit it always accepts keys beyond it
  (`IndexMatcherExactIff`).
- The binary search is documented to return the first element at or above the one sought. That holds for all haystacks
  only if at most one element equals the one sought (`DocumentedIff`). Every index watcher whose prefix can be a secondary
  key therefore loses changes (`FilterReliableIff`, `IndexFilterLoses`).
- A refresh commits, then waits for the persistent store, and only then fires its diffs; a mutation in between fires its
  later diffs first. Batches that run on the same version may call back in either order. A commit made while nobody is
  subscribed computes no diffs, although earlier diffs may still be fired to a later subscription. In each case a watcher
  that applies what it is handed can end up with deleted data (`EveryClauseIsNeeded`, and exactly when in `EveryOrderIff`).
  Queries are not affected.
- The scheduler is documented never to run the process concurrently. It does when `schedule()` is called while a task
  whose promise an immediate run took over is still waiting, and the promise of that call can then never be
  settled (`RunsCanOverlap`, `DisciplineIsNeeded`).
- The scheduler is documented to run the process at most once every `throttleMs`. An immediate run restarts the throttle
  when it is requested, not when it starts. If it is requested while another run is unfinished it waits, and a scheduled
  run can start in the same instant (`StartsKeepThrottle`, `PatienceIsNeeded`).
- `deepFreeze` has a check for cycles that is never reached, because an object joins the memo before it; an exception
  leaves objects in the memo that are not deeply frozen (`DeepFreeze`, `ThrowBreaksMemo`).
- A log message that is too long even after its content has been replaced stops all progress of the queue, and with
  enough messages behind it the flush loop never ends (`ProgressIff`, `NeverFittingHeadBlocks`, `FlushEndsIff`).
- Mutation recovery takes a client whose mutation number and acknowledgement are both zero for one with unconfirmed
  mutations, and so comes back to its group (`RecoveredGroupIsAckd`, `ClientWithoutMutationsComesBack`).
- The hash counter shows only its last ten digits, so hashes repeat after 2^50 calls, and it stops counting at 2^53
  (`HashesEqualIff`, `HashesGetStuck`).

## Model

| member | source | states |
|---|---|---|
| Keys.PrefixClassEnds | packages/replicache/src/scan-iterator.ts:188-190 | the strings with a prefix form an interval: after the first later string without it, no string has it, so a scan may stop there |
| IndexKeys.EncodeDecode | packages/replicache/src/db/index.ts:111-173 | decoding inverts encoding of index keys, and only encodings decode |
| IndexKeys.EncodingPreservesOrder | packages/replicache/src/db/index.ts:101-119 | encoded keys are ordered by secondary key, then primary key, and are equal only for equal pairs |
| IndexKeys.ScanKeyOrder | packages/replicache/src/db/index.ts:121-155 | the scan key without a primary part is at most exactly the entries whose secondary key is at or after it |
| ScanOptions.IndexScanReadsBoth | packages/replicache/src/scan-iterator.ts:362-381 | the encoded start key of an index scan is at most exactly the entries at or after both the prefix and the start |
| ScanOptions.FromKeysAgree | packages/replicache/src/scan-iterator.ts:335-381 | the encoded start key and the pair handed to custom backends start at the same entry of every index |
| Scan.PlainReadsBoth | packages/replicache/src/transactions.ts:376-388 | a plain scan reads exactly the keys at or after both the prefix and the start |
| Scan.ReadKeyInRange | packages/replicache/src/scan-iterator.ts:187-205 | a key that is read is in range if and only if it has the prefix and is not the skipped start |
| Scan.NothingAfter | packages/replicache/src/scan-iterator.ts:188-190 | after the first read key without the prefix nothing more is in range, for plain and index scans |
| Scan.ScanIterator | packages/replicache/src/scan-iterator.ts:169-237 | the iterator yields the first `limit` entries in key order that have the prefix and lie after the start, and reports the last key when the limit stops a plain scan |
| Scan.LimitKept | packages/replicache/src/scan-options.ts:13-34 | at most `limit` entries come back for a positive limit; any other limit returns everything in range |
| Diffs.DiffOf | packages/replicache/src/sync/diff.ts:23-34 | a diff lists exactly the changed keys, sorted, each with what happened to it; the maps' diff function is assumed to compute this |
| ScanMatching.PlainMatches | packages/replicache/src/subscriptions.ts:563-593 | for a usable limit and a prefix or start, the matcher accepts exactly the keys in range that are not past the recorded limit key; without both it accepts every key |
| ScanMatching.IndexInRangeMatches | packages/replicache/src/subscriptions.ts:595-634 | every key that a supported index scan can yield is accepted |
| ScanMatching.LimitedAgree | packages/replicache/src/subscriptions.ts:636-646 | two maps that agree up to the limit key give a limited scan the same entries and limit key |
| ScanMatching.ScanSound | packages/replicache/src/subscriptions.ts:545-646 | if no changed key matches what was recorded, the scan yields the same entries and limit key on the changed data |
| ScanMatching.PlainUnsound | packages/replicache/src/subscriptions.ts:564-567 | for every unsupported plain scan there is a change that the matcher ignores and the scan shows |
| ScanMatching.IndexUnsound | packages/replicache/src/subscriptions.ts:617-631 | for every unsupported index scan there is a value whose addition, with its index entry, the matcher ignores and the scan shows |
| ScanMatching.MatcherSoundIff | packages/replicache/src/subscriptions.ts:545-646 | the matcher never misses a change that matters if and only if the options are supported |
| ScanMatching.ScanExact | packages/replicache/src/subscriptions.ts:563-593 | for a drained plain scan with a prefix or a start and a usable limit, a matching change means that the entries really differ |
| ScanMatching.WholeScanExact | packages/replicache/src/subscriptions.ts:569-573 | a scan of everything without a limit differs after every change |
| ScanMatching.LimitedScanInexact | packages/replicache/src/subscriptions.ts:569-573 | a limited scan without prefix and start matches a change beyond its limit that it does not show |
| ScanMatching.MatcherExactIff | packages/replicache/src/subscriptions.ts:563-593 | matches of a drained plain scan always matter if and only if it has a prefix or a start, or neither a limit nor a skipped key, or a limit with which nothing ever matches |
| IndexMatching.IndexMatches | packages/replicache/src/subscriptions.ts:595-634 | for a supported index scan the matcher accepts exactly the keys in its range, and those that it skips when it starts after an empty secondary key |
| IndexMatching.MatchedIndexKeyInRange | packages/replicache/src/subscriptions.ts:612-634 | whatever it accepts for an index scan, supported or not, is in range or skipped in that way |
| IndexMatching.IndexMatcherExactIff | packages/replicache/src/subscriptions.ts:595-634 | matches of an index scan always matter if and only if it does not start after an empty secondary key and has no limit that can cut anything off |
| Transactions.DependenciesSuffice | packages/replicache/src/transactions.ts:197-269 | if nothing that changed matches what one run recorded, the body makes the same reads, records the same and has the same outcome on the changed data |
| Transactions.RunsAgree | packages/replicache/src/transactions.ts:218-260 | the same from any point of a run, by induction over the reads |
| Transactions.RunKeepsRecords | packages/replicache/src/transactions.ts:249-268 | a finished run keeps every record made on the way; at most limit keys of open scans are filled in |
| Transactions.RecordKeepsWellRecorded | packages/replicache/src/transactions.ts:252-259 | every open scan's record holds its options, and its limit key exactly once the scan was drained |
| Transactions.SubscriptionTransactionWrapper.constructor | packages/replicache/src/transactions.ts:197-204 | a new transaction has recorded nothing |
| Transactions.SubscriptionTransactionWrapper.Get | packages/replicache/src/transactions.ts:224-228 | records the key and answers with its value if and only if the data has the key |
| Transactions.SubscriptionTransactionWrapper.Has | packages/replicache/src/transactions.ts:230-233 | records the key and answers true if and only if the data has it |
| Transactions.SubscriptionTransactionWrapper.IsEmpty | packages/replicache/src/transactions.ts:218-222 | records a scan of everything and answers true if and only if the data has no entry |
| Transactions.SubscriptionTransactionWrapper.Scan | packages/replicache/src/transactions.ts:249-260 | records the options of the scan, without a limit key |
| Transactions.SubscriptionTransactionWrapper.OpenStream | packages/replicache/src/transactions.ts:360-374 | the opened scan yields the declarative scan of the named map, or fails for an unknown index or an unencodable key |
| Transactions.SubscriptionTransactionWrapper.NextEntry | packages/replicache/src/transactions.ts:257-259 | the n-th request gets the n-th entry of the declarative scan, later ones the end, and the first one to a scan that fails an error; a drained scan's limit key goes into its record |
| Transactions.SubscriptionTransactionWrapper.Invoke | packages/replicache/src/subscriptions.ts:90-96 | a run of the body against the object has the outcome and dependencies of the specification |
| TrueAnswers.RunIsTrue | packages/replicache/src/transactions.ts:218-268 | a run of any body is told the truth about the data at every read, ends as the body does after these answers, and records exactly the keys it asked for and, in order, the scans it made with the limit keys of those it drained |
| TrueAnswers.OneTrueLog | packages/replicache/src/transactions.ts:218-268 | only one list of answers is true of the data, so the data determines the run |
| TrueAnswers.GetReturnsTheValue | packages/replicache/src/transactions.ts:224-228 | a body that returns what `get` tells it returns the stored value, or that there is none |
| TrueAnswers.HasReturnsPresence | packages/replicache/src/transactions.ts:230-233 | a body that returns what `has` tells it returns whether the data has the key |
| TrueAnswers.IsEmptyReturnsEmptiness | packages/replicache/src/transactions.ts:218-222 | a body that returns what `isEmpty` tells it returns whether the data has no key |
| BinarySearch.Search | packages/shared/src/binary-search.ts:14-30 | the loop computes the position that the lemmas below are about |
| BinarySearch.SearchFinds | packages/shared/src/binary-search.ts:14-30 | an element equal to the sought one is found if there is one, otherwise the first greater one |
| BinarySearch.DocumentedIff | packages/shared/src/binary-search.ts:1-30 | for all sizes: every ordered haystack with a given number of elements equal to the sought one is searched as documented, to the first element at or above it, if and only if that number is at most one |
| BinarySearch.MiddleBlock | packages/shared/src/binary-search.ts:19-21 | for every size and every number of equal elements from two on there is a haystack in which an equal element before the result is missed |
| Watch.FilterReliableIff | packages/replicache/src/subscriptions.ts:249-291 | the filter hands on all entries with the prefix, in order, for every diff, if and only if the watcher has no index or its prefix contains the separator that no secondary key contains |
| Watch.PlainFilterExact | packages/replicache/src/subscriptions.ts:251-263 | a watcher without an index keeps all entries with the prefix |
| Watch.IndexFilterLoses | packages/replicache/src/subscriptions.ts:270-277 | every index watcher whose prefix can be a secondary key loses the first of two entries added with that key |
| Watch.MatchesIff | packages/replicache/src/subscriptions.ts:659-684 | a watcher matches a diff if and only if some changed key has the prefix, an empty one included, and then its filter is not empty; for index watchers too |
| Watch.RegularCallbackExact | packages/replicache/src/subscriptions.ts:246-300 | a watcher is called for a diff exactly if some changed key has the prefix, with its filter of the diff, which for a plain watcher is the whole prefix filter |
| Watch.InitialCallbackExact | packages/replicache/src/subscriptions.ts:227-249 | the initial callback of a plain watcher with initial values gets every entry under its prefix, as an addition |
| Watch.WatchSubscription.constructor | packages/replicache/src/subscriptions.ts:198-203 | missing options default to an empty prefix, no index and no initial values |
| Watch.WatchSubscription.Invoke | packages/replicache/src/subscriptions.ts:215-291 | an initial run returns the filtered additions if and only if initial values were asked for; a regular one the filtered diff if and only if it is not empty |
| Watch.WatchSubscription.KeepPrefix | packages/replicache/src/subscriptions.ts:249-263 | the loop collects the run of entries with the prefix from where the search lands |
| Watch.WatchSubscription.OnData | packages/replicache/src/subscriptions.ts:209-213 | the callback gets exactly the results that are not undefined |
| Watch.ReplayEffect | packages/replicache/src/subscriptions.ts:176-184 | replaying what a watcher was handed gives each key the last value it was given |
| Watch.DiffEffect | packages/replicache/src/sync/diff.ts:23-34 | applying a diff takes every changed key to its new value and touches no other |
| SubscriptionRuns.StepKeepsQueries | packages/replicache/src/subscriptions.ts:396-486 | every step, firing the diffs of commits in any order, keeps every query waiting for a run or fresh, and its last result delivered or on its way |
| SubscriptionRuns.CommitCovers | packages/replicache/src/db/write.ts:215-283 | the diffs computed at a commit cover everything that a registered query recorded |
| SubscriptionRuns.NotMatchedNothingMatches | packages/replicache/src/subscriptions.ts:98-106 | if a fired diff does not match a query, nothing that it recorded changed |
| SubscriptionRuns.UnmatchedStaysFresh | packages/replicache/src/subscriptions.ts:412-415 | a query that any fired diff does not match stays fresh: nothing it recorded changed in that commit |
| SubscriptionRuns.MatchedHasChanged | packages/replicache/src/subscriptions.ts:98-106 | a query that computed diffs match has a reason to run again: a key it read has changed, or one that a recorded scan depends on |
| SubscriptionRuns.SameRunSince | packages/replicache/src/subscriptions.ts:98-106 | when all diffs have been fired, a fresh query would have had the same run on every version since its last |
| SubscriptionRuns.CallbacksSettle | packages/replicache/src/subscriptions.ts:116-124 | callbacks in version order leave the last result delivered or still to come |
| SubscriptionRuns.ReachableInv | packages/replicache/src/subscriptions.ts:378-500 | the invariant holds in every reachable state |
| SubscriptionRuns.QueriesAreCurrent | packages/replicache/src/subscriptions.ts:98-124 | whenever nothing is under way, every registered query's last delivered value stands for its body on the current data |
| SubscriptionRuns.DeliveredValueIsCurrent | packages/replicache/src/subscriptions.ts:116-124 | for a reflexive `isEqual` that value is equal to the body's result |
| SubscriptionRuns.RequestsHaveReasons | packages/replicache/src/subscriptions.ts:412-429 | a step requests at most one batch, before an abort only: for exactly the registered subscriptions that match the fired diffs, or those added since |
| SubscriptionRuns.NothingRequestedAfterAbort | packages/replicache/src/subscriptions.ts:422-424 | after an abort no batch is requested any more, in every run |
| DeliveredValues.CallbackDelivers | packages/replicache/src/subscriptions.ts:116-124 | the callback of a run that threw delivers nothing and keeps the last value; that of one that returned delivers the result unless it is equal to the last one delivered |
| DeliveredValues.VersionsAreOrdered | packages/replicache/src/subscriptions.ts:431-448 | the versions of the runs called back for a subscription never go back |
| DeliveredValues.DeliveredExactly | packages/replicache/src/subscriptions.ts:90-124 | over every run of the engine, a query's callback has got exactly the changes among the results of its runs that were called back, in version order |
| DeliveredValues.DeliveredAreResults | packages/replicache/src/subscriptions.ts:116-124 | every delivered value was returned by the body on some version, no two neighbours are equal for the query, and nothing is delivered exactly if all runs called back threw |
| DeliveredValues.WatcherInvocation | packages/replicache/src/subscriptions.ts:209-291 | what one invocation of a watcher hands over: nothing if the initial scan fails or no initial values were asked for |
| StaleQueries.DrainRun | packages/replicache/src/transactions.ts:249-260 | a body that reads a scan to its end returns its entries and records the scan with its limit key |
| StaleQueries.SupportIsNeeded | packages/replicache/src/subscriptions.ts:545-646 | a query that returns the entries of a scan is current whenever nothing is under way, in every run, if and only if the matcher supports the scan's options |
| WatcherRuns.StepKeepsWatcher | packages/replicache/src/subscriptions.ts:396-469 | every in-order step keeps the combined effect of what a watcher was and will be handed right for every key |
| WatcherRuns.RunEffect | packages/replicache/src/subscriptions.ts:227-263 | a regular run hands over what was requested, an initial one the whole watched part |
| WatcherRuns.InOrderInv | packages/replicache/src/subscriptions.ts:378-500 | the watcher invariant holds after every in-order run |
| WatcherRuns.WatcherIsCurrent | packages/replicache/src/subscriptions.ts:171-184 | whenever nothing is under way after an in-order run, replaying a plain watcher's diffs gives exactly the current data under its prefix |
| CallbackOrder.CallFirst | packages/replicache/src/subscriptions.ts:451-469 | if the latest batches agree about a key, calling back any permitted one first changes nothing about the key |
| CallbackOrder.HasLastWord | packages/replicache/src/subscriptions.ts:417-469 | every batch of the greatest version that touches a key can be the last to do so |
| CompletionOrder.FireKeepsWork | packages/replicache/src/subscriptions.ts:412-429 | firing any diff moves it into the queue, or drops it if it has nothing for the watcher: the versions and diffs still to be handed on stay the same |
| CompletionOrder.RunKeepsWork | packages/replicache/src/subscriptions.ts:431-446 | so they do when any queued batch runs, on the current version |
| CompletionOrder.OutcomeStays | packages/replicache/src/subscriptions.ts:412-469 | if the latest work agrees about a key, every sequence of firing, running and calling back keeps the key's outcome in the present order |
| CompletionOrder.EveryOrderIff | packages/replicache/src/subscriptions.ts:405-469 | from every reachable state, whatever is under way, every order of firing, running and calling back all that is under way leaves the watcher right if and only if the present order does and for each key all work of the greatest version touching it does the same to it |
| CompletionOrder.EveryCallbackOrderIff | packages/replicache/src/subscriptions.ts:417-469 | the special case with nothing left to fire or to run: the order of callbacks does not matter if and only if the latest finished batches agree about every key |
| CompletionOrder.InOrderSoFar | packages/replicache/src/subscriptions.ts:171-184 | after every run in order so far, whatever is under way, the outcome in the present order is right once the initial run has run |
| OutOfOrderRuns.EveryClauseIsNeeded | packages/replicache/src/persist/refresh.ts:239-296 | for each clause of the order of a run there is a run that keeps all others and ends with a replay that has a deleted key; for firing it is a refresh overtaken by a mutation |
| SubscriptionsManager.SubscriptionsManager.Add | packages/replicache/src/subscriptions.ts:396-403 | registers and queues the subscription; the first pending one schedules the initial run |
| SubscriptionsManager.SubscriptionsManager.StartInitialRun | packages/replicache/src/subscriptions.ts:471-486 | requests one initial run for exactly the pending subscriptions, and none after an abort |
| SubscriptionsManager.SubscriptionsManager.Fire | packages/replicache/src/subscriptions.ts:412-415 | for the diffs of any commit, requests one run of exactly the registered subscriptions that match them, and none after an abort |
| SubscriptionsManager.SubscriptionsManager.FireSubscriptions | packages/replicache/src/subscriptions.ts:417-429 | requests nothing after an abort or for no subscriptions |
| SubscriptionsManager.SubscriptionsManager.RunBatch | packages/replicache/src/subscriptions.ts:431-446 | runs every subscription of a batch on one snapshot and replaces its dependencies, whatever its outcome |
| SubscriptionsManager.SubscriptionsManager.InvokeOne | packages/replicache/src/subscriptions.ts:434-444 | one invocation through a recording transaction has the result and dependencies of the specification |
| SubscriptionsManager.SubscriptionsManager.CallCallbacks | packages/replicache/src/subscriptions.ts:451-469 | delivers every result of the batch; what reaches a query's callback is in `DeliveredValues.CallbackDelivers` |
| SubscriptionsManager.SubscriptionsManager.Remove | packages/replicache/src/subscriptions.ts:401-402 | for all diffs, exactly the removed subscription is no longer matched |
| SubscriptionsManager.SubscriptionsManager.Clear | packages/replicache/src/subscriptions.ts:405-410 | nothing is matched by any diffs any more, and commits compute no diffs |
| SubscriptionsManager.SubscriptionsManager.ShouldComputeDiffsForIndex | packages/replicache/src/subscriptions.ts:492-499 | an index's diff is wanted if and only if a registered subscription uses the index |
| SubscriptionsManager.SubscriptionsManager.GenerateDiffs | packages/replicache/src/db/write.ts:227-283 | the loop computes the non-empty diffs of the primary map and of exactly the indexes that some registered subscription uses, and none without subscriptions |
| SubscriptionsManager.SubscriptionsManager.Perform | packages/replicache/src/subscriptions.ts:396-500 | in every reachable state each step of the specification is the method of the same name, and leads the object and the work around it to the specified state |
| SubscriptionsManager.SubscriptionsManager.Drive | packages/replicache/src/subscriptions.ts:378-500 | the object, driven through any possible sequence of steps, goes through the states of the specification, so that all results about runs are about it |
| Overlay.MergeIterables | packages/replicache/src/merge-async-iterables.ts:16-66 | merging two sorted lists gives the sorted list of the overlay's entries and of those of the base that it does not replace |
| Overlay.FilterDeleted | packages/replicache/src/filter-async-iterable.ts:10-19 | filtering keeps exactly the entries that are not deletions, in order |
| Overlay.OverlayFrom | packages/replicache/src/scan-iterator.ts:271-299 | merging the two scans from a key and dropping deletions is the scan of the overlaid map from that key |
| Overlay.MakeScanResult | packages/replicache/src/scan-iterator.ts:301-333 | a scan over a merging backend is the scan of the overlaid map, for all plain options |
| LogSink.BodyFits | packages/datadog/src/datadog-log-sink.ts:89-119 | every request body is within the size limit and has at most 1000 entries |
| LogSink.ProgressIff | packages/datadog/src/datadog-log-sink.ts:101-110 | a request carries something if and only if the first message, replaced if too long, fits |
| LogSink.StepKeepsBlocked | packages/datadog/src/datadog-log-sink.ts:88-191 | with a message that never fits at the front, no step makes progress, and a request that is built is empty |
| LogSink.NeverFittingHeadBlocks | packages/datadog/src/datadog-log-sink.ts:101-192 | however much is logged and sent afterwards, and whatever the responses, nothing is retired, the message stays at the front, no failure is counted, and the flush loop's condition to go on stays true |
| LogSink.DropsExactlyTheExhausted | packages/datadog/src/datadog-log-sink.ts:172-191 | dropping the first N drops exactly the sent messages that have now failed three times, and keeps retry counts non-increasing |
| LogSink.LogIsConserved | packages/datadog/src/datadog-log-sink.ts:61-191 | in every interleaving of logging and sending the log is the retired messages followed by the queue; each retired message was accepted once or given up after exactly three failures |
| LogContents.RequestSaysWhatWasLogged | packages/datadog/src/datadog-log-sink.ts:93-117 | a request carries, in order, the text of each message of the batch with its current delay; only a text that is too long is replaced, and no other message changes |
| LogContents.BatchIsMaximal | packages/datadog/src/datadog-log-sink.ts:107-116 | a batch ends only at the end of the queue, at 1000 entries, or at a message with which the body would be too long |
| LogContents.ContentsAreKept | packages/datadog/src/datadog-log-sink.ts:61-191 | in every run, each queued message has the date at which it was logged, and its content unless that once made its text too long |
| LogContents.RequestsCarryTheLog | packages/datadog/src/datadog-log-sink.ts:61-191 | in every run, the i-th entry of the next request is the text of the i-th message of the log after the retired ones, with its date, delay and number of failures |
| LogSink.SendUsesBudget | packages/datadog/src/datadog-log-sink.ts:169-191 | every request that carries something brings the queue closer to empty, accepted or not |
| LogSink.DatadogLogSink.constructor | packages/datadog/src/datadog-log-sink.ts:29-59 | the queue starts empty |
| LogSink.DatadogLogSink.Log | packages/datadog/src/datadog-log-sink.ts:61-69 | appends the message; an error or the 250th message forces a flush |
| LogSink.DatadogLogSink.Prepare | packages/datadog/src/datadog-log-sink.ts:89-117 | the loop collects the entries of the batch, updating in place exactly the messages it looks at |
| LogSink.DatadogLogSink.Settle | packages/datadog/src/datadog-log-sink.ts:169-191 | removes an accepted batch; otherwise counts the failure and drops the exhausted messages |
| LogSink.FlushEndsIff | packages/datadog/src/datadog-log-sink.ts:82-198 | if each queued message always or never fits once replaced and no more is logged, the loop ends, for all responses, if and only if no message that never fits has 249 or more messages behind it |
| LogSink.DatadogLogSink.Flush | packages/datadog/src/datadog-log-sink.ts:82-198 | whenever it ends, the loop stops after the first round that leaves fewer than 250 messages, within a bound on its requests, and sends nothing only for an empty queue |
| ConnectionLoop.StepKeepsInv | packages/replicache/src/connection-loop.ts:92-250 | every step keeps the counts, the answers and the promise that nobody is stranded |
| ConnectionLoop.NoCallerIsStranded | packages/replicache/src/connection-loop.ts:92-122 | at most `maxConnections` requests are in flight; a waiting caller implies that a send is on its way; after closing everyone is answered or will get the close error |
| ConnectionLoop.NeverStuck | packages/replicache/src/connection-loop.ts:141-207 | while a caller waits, some step of the loop or network other than the watchdog's is possible |
| ConnectionLoop.StepBringsCloser | packages/replicache/src/connection-loop.ts:141-250 | every step of the loop or network brings the answer closer, and no step of a caller moves it away |
| ConnectionLoop.CallersAreAnswered | packages/replicache/src/connection-loop.ts:105-250 | every waiting caller is answered within a bounded number of steps of the loop and network |
| RequestReasons.RequestsNeedReasons | packages/replicache/src/connection-loop.ts:141-250 | from any state, a run starts at most as many requests as were due and as there are immediate calls, calls that become visible, failures and alarms of the watchdog before closing |
| RequestReasons.NoRequestWithoutReason | packages/replicache/src/connection-loop.ts:105-250 | so it does from the start |
| RequestReasons.AsleepIff | packages/replicache/src/connection-loop.ts:141-156 | nothing is due to the open loop exactly if it sleeps, and then only the watchdog can wake it |
| RequestReasons.SleepsUntilReason | packages/replicache/src/connection-loop.ts:244-247 | a sleeping loop starts nothing, however many requests succeed, until there is a reason |
| RequestReasons.ClosedStartsNothing | packages/replicache/src/connection-loop.ts:92-98 | a closed loop stays closed and starts no request, in every run |
| RequestReasons.ClosedLoopEnds | packages/replicache/src/connection-loop.ts:146-205 | the next wakeup of a closed loop ends it |
| ConnectionLoop.Loop.constructor | packages/replicache/src/connection-loop.ts:81-90 | a new loop waits for a send, and its invariant holds |
| ConnectionLoop.Loop.Drive | packages/replicache/src/connection-loop.ts:92-250 | in every interleaving of callers, timers and responses the object goes through the states of the specification, and all of them keep the invariant |
| ConnectionLoop.Loop.SendCall | packages/replicache/src/connection-loop.ts:105-117 | after closing nothing changes; otherwise an immediate call waits for its answer and a send is on its way, and nobody else's waiting changes |
| ConnectionLoop.Loop.Visible | packages/replicache/src/connection-loop.ts:113-119 | the call waits and a send is on its way, or, after closing, it has the close error |
| ConnectionLoop.Loop.Answered | packages/replicache/src/connection-loop.ts:119-121 | a caller leaves with the answer of a request that completed while it waited, or with the close error; nobody else's waiting changes |
| ConnectionLoop.Loop.CloseLoop | packages/replicache/src/connection-loop.ts:92-98 | afterwards nobody waits: those who did have the close error, and earlier answers stay |
| ConnectionLoop.Loop.PendingOver | packages/replicache/src/connection-loop.ts:148-156 | the open loop is on its way to a send and closer to it |
| ConnectionLoop.Loop.DebounceOver | packages/replicache/src/connection-loop.ts:158-169 | the loop waits for a connection only if all are really in use, and goes on only if one is free; it is closer to a send |
| ConnectionLoop.Loop.ConnectionFound | packages/replicache/src/connection-loop.ts:168-170 | a connection is really free, and the loop is closer to a send |
| ConnectionLoop.Loop.DelayOver | packages/replicache/src/connection-loop.ts:198-218 | one more request is in flight, and never more than allowed |
| ConnectionLoop.Loop.SendReturned | packages/replicache/src/connection-loop.ts:220-247 | everybody who waited has the outcome of this request, a connection is free, and another send is on its way after a failure, but none is asked for by a success; after closing no answer changes |
| ProcessScheduler.NeverConcurrentAndThrottled | packages/replicache/src/process-scheduler.ts:18-28 | in disciplined runs the process never runs concurrently, starts in the order requested, and a scheduled run starts at least the throttle time after every earlier run restarted the throttle, which an immediate run does when it is requested |
| ThrottleDistance.StartDistance | packages/replicache/src/process-scheduler.ts:118-153 | in disciplined runs a scheduled run starts at least the throttle time after every earlier start, less the time that an earlier immediate run waited for its start |
| ThrottleDistance.StartsKeepThrottle | packages/replicache/src/process-scheduler.ts:18-28 | if besides `run()` is called only when no run is unfinished, and starts before time passes, scheduled runs start at least the throttle time after every earlier start |
| ThrottleDistance.PatienceIsNeeded | packages/replicache/src/process-scheduler.ts:105-127 | after any such run, calling `run()` while a run is unfinished can be followed by steps, disciplined again, after which the immediate run and a later scheduled one start in the same instant |
| SchedulerProgress.ThrottleEndsOnTime | packages/replicache/src/process-scheduler.ts:118-145 | in every run the throttle lasts exactly its length from the last restart, and no task waits for anything later |
| SchedulerProgress.SettledAfterRunning | packages/replicache/src/process-scheduler.ts:56-75 | in every run, a promise that a run has settled was settled after its process had been called and had ended |
| SchedulerProgress.StepBringsCloser | packages/replicache/src/process-scheduler.ts:90-160 | every step of a process, and of a task while the promise is scheduled, brings a promise closer to being settled, and no other step moves it away |
| SchedulerProgress.PromisesAreSettled | packages/replicache/src/process-scheduler.ts:56-75 | in disciplined runs every `schedule()` promise is settled within a bounded number of such steps, whatever is called meanwhile |
| SchedulerProgress.NeverStuck | packages/replicache/src/process-scheduler.ts:128-160 | while a promise is not settled, such a step is possible, now or as soon as the throttle has passed |
| ProcessScheduler.PromisesAreKept | packages/replicache/src/process-scheduler.ts:18-28 | in disciplined runs every `schedule()` promise is settled by a run requested after the call or by aborting, or is still held for a run to come |
| ProcessScheduler.NothingStartsAfterAbort | packages/replicache/src/process-scheduler.ts:43-54 | after an abort no process starts and no promise is given out, in every run |
| ProcessScheduler.ScheduleOnlyIsDisciplined | packages/replicache/src/process-scheduler.ts:66-75 | without immediate runs every run is disciplined |
| ProcessScheduler.RunsCanOverlap | packages/replicache/src/process-scheduler.ts:90-153 | a concrete undisciplined run has two process runs active at once |
| ProcessScheduler.LostStaysLost | packages/replicache/src/process-scheduler.ts:133-160 | a promise that is neither settled nor held stays so under every step |
| ProcessScheduler.DisciplineIsNeeded | packages/replicache/src/process-scheduler.ts:133-160 | after any disciplined run an undisciplined `schedule()` can be followed by two active process runs, after which nothing that follows settles the promise it returned |
| ProcessScheduler.StepLosesNothing | packages/replicache/src/process-scheduler.ts:90-160 | every step settles an unsettled promise or leaves it held |
| ProcessScheduler.Scheduler.constructor | packages/replicache/src/process-scheduler.ts:29-55 | a new scheduler has nothing scheduled or running, and its invariant holds |
| ProcessScheduler.Scheduler.Drive | packages/replicache/src/process-scheduler.ts:29-160 | in every interleaving of calls, timers and processes the object goes through the states of the specification, and if the calls are disciplined its invariant holds |
| ProcessScheduler.Scheduler.ScheduleCall | packages/replicache/src/process-scheduler.ts:66-75 | the promise returned is not settled, is held for a run to come, and no run so far was requested for it; a scheduled promise is joined without a new task; after an abort nothing changes |
| ProcessScheduler.Scheduler.RunCall | packages/replicache/src/process-scheduler.ts:90-126 | the promise taken over is still held, now by a run requested after all calls that got it, and is not scheduled any more |
| ProcessScheduler.Scheduler.RunTask | packages/replicache/src/process-scheduler.ts:105-117 | a process that starts is the only one running; if it does not start, the promise taken over is settled |
| ProcessScheduler.Scheduler.AbortEvent | packages/replicache/src/process-scheduler.ts:43-54 | afterwards every promise is settled, except those that unfinished immediate runs have taken over |
| ProcessScheduler.Scheduler.RunPromiseAwaited | packages/replicache/src/process-scheduler.ts:133-141 | if a promise is scheduled, no process is running, and the task waits until the throttle time after every run has passed |
| ProcessScheduler.Scheduler.ThrottlePromiseAwaited | packages/replicache/src/process-scheduler.ts:141-145 | the task goes on exactly if a promise is scheduled; then no process is running and the throttle time after every run has passed |
| ProcessScheduler.Scheduler.RequestIdleAwaited | packages/replicache/src/process-scheduler.ts:145-153 | a process that starts is the only one running, and starts at least the throttle time after every earlier run restarted the throttle |
| ProcessScheduler.Scheduler.ProcessEnded | packages/replicache/src/process-scheduler.ts:119-160 | the run settles the promise it was handed, unless an abort has done so, and no other |
| MutationRecovery.MergeTakesTheLarger | packages/replicache/src/mutation-recovery.ts:490-513 | updating acknowledgements takes the larger value and forgets none |
| MutationRecovery.RecoveredGroupIsAckd | packages/replicache/src/mutation-recovery.ts:307-322 | after a recovery the group is not recovered again if and only if every client's mutations are confirmed by an acknowledgement that is not zero |
| MutationRecovery.ClientWithoutMutationsComesBack | packages/replicache/src/mutation-recovery.ts:310-318 | a group with one client that has made no mutations and has no acknowledgement is recovered again and again |
| MutationRecovery.UpdatedAcks | packages/replicache/src/mutation-recovery.ts:482-516 | after the final transaction the group has the larger acknowledgement for every client, and nothing else has changed |
| MutationRecovery.DisabledGroup | packages/replicache/src/persist/client-groups.ts:237-251 | disabling an existing group disables it and changes nothing else |
| MutationRecovery.Perdag.Disable | packages/replicache/src/persist/client-groups.ts:237-251 | disables one group of another client, if it exists, and changes nothing else |
| MutationRecovery.Perdag.UpdateAcks | packages/replicache/src/mutation-recovery.ts:482-516 | the final transaction raises the acknowledgements of one group to the larger ones and changes nothing else; it writes only if one rises |
| MutationRecovery.ReplacingIsOk | packages/replicache/src/mutation-recovery.ts:507-515 | replacing one group's record leaves every other record and the set of groups as they are |
| MutationRecovery.RecoverClientGroup | packages/replicache/src/mutation-recovery.ts:276-524 | succeeds exactly if there is something to recover and push and pull succeed; then the acknowledgements are raised, the group is disabled exactly if the server will not take it, and otherwise nothing changes; never touches the own group |
| MutationRecovery.RecoverFromPerdag | packages/replicache/src/mutation-recovery.ts:203-231 | terminates and visits no group twice; every visit is a recovery of the first unvisited group in the map read last, from the map as the visit before left it, and the map changes in no other way; on normal exit every group of that map has been visited |
| MutationRecovery.RecoveredGroupsAreAcked | packages/replicache/src/mutation-recovery.ts:203-231 | every visited group that had mutations to recover, and for which push and pull succeeded, has afterwards at least the reported acknowledgements, and still has them at the end if others keep what they find |
| FrozenJson.MemoIsDeeplyFrozen | packages/replicache/src/frozen-json.ts:32-36 | everything reachable from a member of a valid memo is frozen |
| FrozenJson.DeepFreezeInternal | packages/replicache/src/frozen-json.ts:54-94 | one visit freezes exactly what joins the memo, and keeps the memo valid, or fails at a position, leaving at most the objects on the way to it wrong in the memo |
| FrozenJson.FreezeChildren | packages/replicache/src/frozen-json.ts:96-114 | visits the children in order; undefined is skipped in an object and fails in an array |
| FrozenJson.DeepFreeze | packages/replicache/src/frozen-json.ts:43-114 | on any finite graph, cyclic or not: a normal return leaves everything reachable frozen and the memo valid, and it returns normally if and only if nothing that is not JSON can be reached outside the memo; after an exception the memo is valid if and only if it has all children of the objects on the way to the failure, what joined it was reached before, and all children before the way have joined it |
| FrozenJson.OnlyExceptionsDecide | packages/replicache/src/frozen-json.ts:32-36 | a memo in which only some objects can be wrong is valid if and only if it has all their children |
| FrozenJson.IsDeepFrozenInternal | packages/replicache/src/frozen-json.ts:156-207 | every visit that does not answer yes answers with the first position, in visiting order and outside the memo, of an object that is not frozen, or of something that is not JSON or closes a cycle |
| FrozenJson.IsDeepFrozen | packages/replicache/src/frozen-json.ts:156-207 | it throws if and only if something that is not JSON, or a cycle, comes before every object that is not frozen, and answers no if and only if such an object comes first; with a valid memo the answer is yes only if everything reachable is frozen, and the memo stays valid in all cases; what joins it was reached before the reason, and all children before the way to it have joined |
| FrozenJson.ThrowBreaksMemo | packages/replicache/src/frozen-json.ts:73-75 | after an exception an array is taken for deeply frozen although an object in it is not |
| DeletedClients.NormalizeDeletedClients | packages/replicache/src/deleted-clients.ts:43-49 | the result is strictly sorted and has the same members, for any input |
| DeletedClients.MergeDeletedClients | packages/replicache/src/deleted-clients.ts:51-73 | the result is the strictly sorted union of arbitrary lists |
| DeletedClients.RemoveFromDeletedClients | packages/replicache/src/deleted-clients.ts:75-96 | the result is the strictly sorted difference of arbitrary lists |
| DeletedClients.MergeLaws | packages/replicache/src/deleted-clients.ts:51-73 | merging is commutative, associative and idempotent |
| DeletedClients.RemoveAfterMerge | packages/replicache/src/deleted-clients.ts:75-96 | removing what was merged in is the same as removing it from the original |
| PointSearch.RunRate | apps/zero-throughput/src/sweep.ts:223-250 | a rate passes exactly if all repetitions pass; the sweep stops exactly if the first repetition that does not pass is an error and errors are to stop it |
| PointSearch.RunPointSearch | apps/zero-throughput/src/sweep.ts:208-271 | every rate tried is the middle of the bounds that the outcomes before it leave; the search throws exactly if the last rate tried does, and otherwise ends with the steps or the rates; with a monotone outcome and enough steps, as with the defaults, the result is the largest passing rate, or none exactly if none passes |
| HashGenerator.SliceIsLastDigits | packages/replicache/src/hash.ts:60-62 | converting, slicing and padding gives exactly the last digits in base 32 |
| HashGenerator.Generator.constructor | packages/replicache/src/hash.ts:71-73 | the random part is not drawn before the first call |
| HashGenerator.Generator.NewHash | packages/replicache/src/hash.ts:75-86 | every hash is the random part, drawn once, followed by the counter, 22 characters in all |
| HashGenerator.HashesIncrease | packages/replicache/src/hash.ts:64-87 | the first 2^50 hashes are strictly increasing, and so distinct |
| HashGenerator.HashesEqualIff | packages/replicache/src/hash.ts:64-87 | while the counter counts, two hashes are equal if and only if their numbers are congruent modulo 2^50 |
| HashGenerator.HashesGetStuck | packages/replicache/src/hash.ts:84-84 | once the counter has reached 2^53 all further hashes are the same |

## Left out

- The B-tree, the DAG store, commits, rebasing, and push and pull themselves. Assumed of them: a map is iterated in key
  order from a given key; the diff of two maps is exact; commits exclude each other and runs of bodies; index definitions
  do not change during a session; and callbacks of a run on a later version do not precede those of a run on an earlier one.
- Query bodies make at most `bound` reads, for any `bound`; a body that reads beyond it is taken to throw.
- Reading the result of one scan twice, closing a transaction while it is in use, and lone surrogates in keys.
- Builds without indexes (`DISABLE_REPLICACHE_INDEXES`).
- Subscriptions are values in a map of the manager, so aliasing of subscription objects between managers is not modelled;
  their error and done callbacks are not either.
- A refresh whose last write to the persistent store fails never fires the diffs of its commit, so its run never gets
  to a state in which nothing is under way.
- WatcherRuns.WatcherIsCurrent: only for plain watchers, because an index watcher can lose changes, and only for runs in
  order, because others can end wrong; `CompletionOrder.EveryOrderIff` is the exact condition for all orders of what is
  under way.
- BinarySearch.Search: the halving shift is on unbounded numbers, without the 32-bit range of JavaScript's shift.
- LogSink.DatadogLogSink.Flush: for messages that always or never fit once replaced; a message whose replacement fits
  only for some lengths, delays and counts is left to `ProgressIff`.
- LogSink: timers, request URLs, console output and the escaping of log arguments. Message lengths come from an arbitrary
  function from messages to strings.
- ConnectionLoop: the lengths of delays, which decide when a step happens and not whether; watchdog and visibility are
  steps that may happen at any time. `maxConnections` is at least one and does not change. A request that throws a value
  which JavaScript takes for false counts as one that reports failure.
- ProcessScheduler: an exception of the process ends a run like a normal return; a process that calls the scheduler
  synchronously while it is being started is not modelled.
- MutationRecovery: the loop over databases, and everything but the outcome of push and pull. An exception anywhere in a
  recovery counts as a failed recovery.
- FrozenJson: the primitive cases are one, and release builds, which skip freezing, are not modelled.
- DeletedClients: storing, reading and confirming the lists.
- PointSearch: running the benchmark, the log of attempts, and the output files.
- HashGenerator: the source of random numbers and the generator used by tests.
- `compareCookies`, the query language, and everything that is I/O, configuration or user interface.
