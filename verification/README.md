# Verified models of osquery's stateful cores

osquery keeps a good deal of state across queries, crashes and restarts: stored
events with a cursor per query, previous results turned into a differential log,
marks naming the query being executed, queues of distributed requests. This
project models those parts in Dafny and proves what they are for.
`dafny verify dfyconfig.toml` checks everything.

Where the original changes things in place, the model is a class or a method with
loops. Each such method is proved equal to a function of the whole state (or to
a property stated outright), and the theorems over runs are about that function.

| module | part of osquery |
|---|---|
| `Basics` | notions shared by several modules |
| `Text` | padded event keys and the byte order in which stored keys are scanned |
| `EventIndex` | the in-memory index from event time to event ids, and the rows it indexes |
| `EventStore` | each event operation as a function of the whole state |
| `EventSubscriber` | the event subscriber as a class, proved equal to `EventStore` |
| `EventRuns` | every run of batches, queries, schedule changes and restarts, with history |
| `EventEffects` | which rows each operation leaves stored and which a query yields, in rows and times |
| `EventLimits` | runs outside the hypotheses, exact conditions, crashes inside an operation |
| `QueryDiff` | the differential result stream and its consumer |
| `DenylistFormat`, `ScheduleDenylist` | the stored denylist, and the schedule's crash protocol |
| `Distributed` | the distributed queue, its running marks and its results |
| `Handshake` | interrupt and pause of a service, as interleaved steps |
| `CString`, `ShellTokens`, `Csv` | the shell's quoting printers and their readers |
| `PreAggregation` | the numeric monitoring cache |
| `ConfigDepth` | the depth check of the configuration document |
| `SchedulerDrift` | the scheduler's drift arithmetic |

## Assumptions

- Calls are sequential (except in `Handshake`), and database and serialisation
  calls succeed. Database keys are structured values, except where their text
  matters (event keys, the stored denylist).
- Event ids stay below 10^10, which is exactly as far as padded keys sort by id
  (`Text.KeyOrderExact`).
- Event times do not decrease from batch to batch, only where a statement asks
  for it (`EventRuns.InOrderExecution`).
- A query name reads one event subscriber, since a cursor is stored by name only.
- The clock does not go backwards in the two crash protocols. Scheduled times stay
  below 2^63. The hash of a distributed query is injective, so marks are kept by
  query text.
- In executions of an event subscriber the process dies between operations, and the
  configuration changes only at a restart. A crash in the middle of an eviction is
  covered by `EventLimits.CrashInEvictionKeepsInv`, one between yielding rows and
  saving the position by `EventLimits.CrashBeforeSavingRepeats` (those still stored
  are given again), one between the two writes of the position by
  `EventLimits.TornPositionLosesNothing`.
- A logged run of a scheduled query stores and logs its result. Crashes in between
  are covered by `QueryDiff.CrashKeepsReplayIff`.
- Which bytes are printable is an arbitrary parameter of the printers.

## What the proofs turned up

- Restoring the denylist trims every field and drops empty ones, so a colon-free
  name is not enough: a list survives a restart if and only if every name is also
  non-empty and has no surrounding white space
  (`DenylistFormat.SurvivesRestoreIffClean`). A culprit with another name is started
  again after the next restart (`ScheduleDenylist.UncleanIsForgotten`,
  `ScheduleDenylist.AnyMarkIsReached`).
- The schedule clears the executing mark before it saves the denylist; a crash
  between the two forgets the culprit (`ScheduleDenylist.CrashDuringBootForgets`;
  `ScheduleDenylist.CulpritHeldIff` is the exact condition).
- A restart at exactly the expiry second drops the entry, while a running process
  still refuses the query in that second, so the guarantee is strict
  (`ScheduleDenylist.ExpirySecondDiffers`).
- An expired running mark is not renewed when its query runs again
  (`Distributed.StaleMarkIsNotRenewed`; `Distributed.HeldBackIffFresh` is the exact
  condition for a crash to be held back).
- The subtraction of the expiry window is unsigned. With a clock below the window
  it wraps and drops every bucket but the newest
  (`EventStore.ExpiryRespectsWindow` is the exact condition). The query-driven
  expiry then loses events (`EventLimits.WrappedExpiryLosesEvent`;
  `EventRuns.QueryExpiryLosesNothing` is the exact condition).
- `<` and `<=` on the event time never narrow a scan, because the upper bound
  starts at 0 (`EventStore.UpperBoundsIgnored`), and a negative operand of `>` or
  `>=` wraps to a huge lower bound (`EventStore.ConstrainedQueryIsComplete`
  is the exact condition).
- `time = 0` does not narrow a scan either: both bounds become 0, and 0 means unbounded
  (`EventEffects.PlainQueryYieldsIff`).
- Without nondecreasing event times an id can be given out twice
  (`EventLimits.OutOfOrderReusesId`; `EventLimits.EvictionRemembersLastId` is the
  exact condition), and a row can be yielded twice to one query
  (`EventLimits.OutOfOrderGivesTwice`; `EventLimits.RepeatsIff` is the exact
  condition).
- The shell's `resolve_backslashes` steps over the terminator of a string that ends
  with a dangling backslash. In a meta-command this pulls the next argument into
  the buffer of the first one and loses it, or reads beyond the line
  (`ShellTokens.DanglingBackslashLosesArgument`, `CString.LeavesBufferIffOdd`;
  `ShellTokens.StaysInsideIff` and `CString.ResolvableIffEven` are the exact
  conditions).
- A differential that is stored and not logged when the process dies is lost until the
  next epoch or a result it reconciles with (`QueryDiff.CrashBeforeLogLoses`;
  `QueryDiff.CrashKeepsReplayIff` is the exact condition).
- The stored query text goes stale exactly when text and epoch change in the same
  run (`QueryDiff.SqlIsCurrent`).

## Model

| member | source | states |
|---|---|---|
| `EventRuns.ExactlyOnce` | osquery-patch-5.18.1/osquery/events/eventsubscriberplugin.cpp:258-292 | In every execution with nondecreasing event times, across batches, queries, expiry, overflow and restarts, an optimised run of a query gives it exactly the rows still stored that it was not given before, and after it no row has been given twice |
| `EventRuns.NeverTwice` | osquery-patch-5.18.1/osquery/events/eventsubscriberplugin.cpp:346-396 | In every world of every such execution the rows given to a query have strictly increasing ids and are rows that were stored, so none comes twice |
| `EventRuns.QueryExpiryLosesNothing` | osquery-patch-5.18.1/osquery/events/eventsubscriberplugin.cpp:264-291 | In every execution with nondecreasing times and a positive query count, what the expiry at the end of a query removes has already been given to a tracked query, if and only if nothing is dropped or the query has passed the last dropped bucket; with times and window in the signed range, if and only if the oldest recorded position is 0 or not below the window, or not every query has run, or there are fewer than two buckets, or the query has passed all buckets but the newest |
| `EventRuns.WrappedExpiryDropsAll` | osquery-patch-5.18.1/osquery/events/eventsubscriberplugin.cpp:600-624 | With the oldest position positive and below the window, the unsigned subtraction wraps and every bucket but the newest is dropped |
| `EventLimits.WrappedExpiryLosesEvent` | osquery-patch-5.18.1/osquery/events/eventsubscriberplugin.cpp:600-624 | An in-order execution in which that expiry removes an event the tracked query was never given |
| `EventRuns.IdsNeverReused` | osquery-patch-5.18.1/osquery/events/eventsubscriberplugin.cpp:398-441 | In every such execution, across restarts, every id stored at one time is at every later time at or below the id counter, is not among the ids of the next batch and still names the same event; every saved cursor id is at or below the counter too |
| `EventLimits.EvictionRemembersLastId` | osquery-patch-5.18.1/osquery/events/eventsubscriberplugin.cpp:421-497 | In any sound store, whatever the time order, an eviction followed by a rebuild remembers the last id if and only if it is 1, or is stored with an event later than the last evicted bucket |
| `EventLimits.OutOfOrderReusesId` | osquery-patch-5.18.1/osquery/events/eventsubscriberplugin.cpp:609-624 | An execution from an empty database, with one event time going back, at whose end id 2 names another event than before |
| `EventLimits.OptimizedYieldsIff` | osquery-patch-5.18.1/osquery/events/eventsubscriberplugin.cpp:258-292 | In any time order an optimised run yields a stored row if and only if its id is above the saved one and its time at most one second before the saved one |
| `EventLimits.RepeatsIff` | osquery-patch-5.18.1/osquery/events/eventsubscriberplugin.cpp:258-292 | In any time order, two runs of a named query with nothing stored in between both yield a row if and only if its id is above the saved one and the last one of the newest bucket, and its time at most one second before both |
| `EventLimits.OutOfOrderGivesTwice` | osquery-patch-5.18.1/osquery/events/eventsubscriberplugin.cpp:258-292 | An execution from an empty database, with one event time going back, in which two runs of one query both yield the same row |
| `EventLimits.CrashInEvictionKeepsInv` | osquery-patch-5.18.1/osquery/events/eventsubscriberplugin.cpp:626-640 | After any number of deletions of an eviction, a process that dies and the one that rebuilds the index from what is left keep the invariant behind exactly-once delivery and fresh ids |
| `EventLimits.CrashBeforeSavingRepeats` | osquery-patch-5.18.1/osquery/events/eventsubscriberplugin.cpp:275-285 | A crash after rows are yielded and before the position is saved: after the restart the next run yields exactly those of them that the restart's expiry and overflow handling left stored |
| `EventLimits.TornPositionLosesNothing` | osquery-patch-5.18.1/osquery/events/eventsubscriberplugin.cpp:346-362 | A crash between the two writes of a position, new time with old id: with times in order the next run yields every row after the torn scan, and of that scan's rows again exactly those at most one second before its end |
| `EventRuns.IndexAlwaysAgrees` | osquery-patch-5.18.1/osquery/events/eventsubscriberplugin.cpp:408-501 | In every world of every execution, whatever the time order, index and stored rows agree and any ordered key scan rebuilds the very same index |
| `EventRuns.IndexStaysBounded` | osquery-patch-5.18.1/osquery/events/eventsubscriberplugin.cpp:171-196 | In every world of every execution the index holds at most events_max + 255 buckets, for the positive events_max in force |
| `EventRuns.CheckpointIsCrossing` | osquery-patch-5.18.1/osquery/events/eventsubscriberplugin.cpp:185-196 | The clean-up test of addBatch fires exactly when the running row count crosses a multiple of 256 |
| `EventRuns.ExecutionIsSound` | osquery-patch-5.18.1/osquery/events/eventsubscriberplugin.cpp:785-793 | In every world of every execution, the configuration changing at any restart, index and rows agree, every stored id was generated, and the index is within the amortised limit |
| `EventRuns.ExecutionGoesOn` | osquery-patch-5.18.1/osquery/events/eventsubscriberplugin.cpp:785-793 | An execution can be continued by any operation the environment allows, so the statements about executions leave no run out |
| `EventRuns.StepKeepsSound` | osquery-patch-5.18.1/osquery/events/eventsubscriberplugin.cpp:111-199 | Each operation keeps index, rows and id counter sound and the bucket limit, in any time order |
| `EventRuns.StepKeepsInv` | osquery-patch-5.18.1/osquery/events/eventsubscriberplugin.cpp:258-292 | Each operation of an in-order run keeps the invariant tying history, stored rows, cursors, delivered rows and recorded query positions together |
| `EventRuns.ReachableInv` | osquery-patch-5.18.1/osquery/events/eventsubscriberplugin.cpp:258-292 | That invariant holds in every world of every in-order execution |
| `EventRuns.EvictKeepsNewest` | osquery-patch-5.18.1/osquery/events/eventsubscriberplugin.cpp:609-640 | Dropping leading buckets but the newest leaves the newest part of the history, never nothing of it |
| `EventRuns.OptimizedRows` | osquery-patch-5.18.1/osquery/events/eventsubscriberplugin.cpp:258-292 | The scan from the cursor time minus one yields exactly the stored rows with an id above the saved one, in id order |
| `EventRuns.OptimizedCursor` | osquery-patch-5.18.1/osquery/events/eventsubscriberplugin.cpp:346-396 | An optimised scan moves the cursor to the newest stored event and never backwards, and touches no other cursor |
| `EventRuns.RebuildSound` | osquery-patch-5.18.1/osquery/events/eventsubscriberplugin.cpp:408-501 | A rebuild gives back the index and a last id at or above every stored id |
| `EventIndex.AddKeepsAgreement` | osquery-patch-5.18.1/osquery/events/eventsubscriberplugin.cpp:124-183 | Storing fresh rows of one time and appending their ids to its bucket keeps agreement of index and rows |
| `EventIndex.DropKeepsAgreement` | osquery-patch-5.18.1/osquery/events/eventsubscriberplugin.cpp:527-568 | Dropping leading buckets together with the rows they name keeps agreement |
| `EventIndex.DroppedIds` | osquery-patch-5.18.1/osquery/events/eventsubscriberplugin.cpp:609-640 | The ids in the dropped buckets are exactly the stored ids with a time up to the last dropped bucket |
| `EventIndex.AgreeingIndexUnique` | osquery-patch-5.18.1/osquery/events/eventsubscriberplugin.cpp:408-501 | The rows determine the index: two indexes agreeing with the same rows are equal |
| `EventIndex.RebuildAgrees` | osquery-patch-5.18.1/osquery/events/eventsubscriberplugin.cpp:408-501 | Visiting the stored keys in key order builds an index that agrees with the rows |
| `EventIndex.RebuildIsIdentity` | osquery-patch-5.18.1/osquery/events/eventsubscriberplugin.cpp:408-501 | Rebuilding from a key scan gives back the same index |
| `EventIndex.ScanRefinesFilter` | osquery-patch-5.18.1/osquery/events/eventsubscriberplugin.cpp:648-735 | The bucket scan yields exactly the stored rows with start <= time <= stop (0 meaning unbounded) and id above the cursor, in time-then-id order |
| `EventStore.ExpiryIsExact` | osquery-patch-5.18.1/osquery/events/eventsubscriberplugin.cpp:586-625 | Which buckets an expiry drops, in terms of their times, the window and the clock; never the newest |
| `EventStore.ExpiryRespectsWindow` | osquery-patch-5.18.1/osquery/events/eventsubscriberplugin.cpp:600-624 | Expiry leaves alone everything younger than the window if and only if the clock has passed one window, is 0, or at most one bucket exists; otherwise the unsigned subtraction wraps |
| `EventStore.OverflowCount` | osquery-patch-5.18.1/osquery/events/eventsubscriberplugin.cpp:511-535 | Overflow leaves the smaller of the bucket count and the maximum, nothing when the maximum is 0 |
| `EventStore.NewRows` | osquery-patch-5.18.1/osquery/events/eventsubscriberplugin.cpp:124-154 | The rows of a batch get consecutive ids after the last one, with the time and data of the batch in order |
| `EventStore.ParseIndex` | osquery-patch-5.18.1/osquery/events/eventsubscriberplugin.cpp:430-441 | A key the subscriber wrote parses to its id, for every 64-bit id |
| `EventEffects.ParseNumerals` | osquery-patch-5.18.1/osquery/events/eventsubscriberplugin.cpp:430-441 | What digits, with or without a sign, parse to: their number, cut at the greatest 64-bit number, negated modulo 2^64 after a minus |
| `EventEffects.ParseRejects` | osquery-patch-5.18.1/osquery/events/eventsubscriberplugin.cpp:430-441 | A key suffix that does not end in a digit parses to no id |
| `EventEffects.ParseSkipsWhite` | osquery-patch-5.18.1/osquery/events/eventsubscriberplugin.cpp:430-441 | White space before a number is skipped |
| `EventEffects.ParseStopsAtNul` | osquery-patch-5.18.1/osquery/events/eventsubscriberplugin.cpp:430-441 | A key suffix is read up to its first NUL |
| `EventStore.BoundsExact` | osquery-patch-5.18.1/osquery/events/eventsubscriberplugin.cpp:294-323 | For a time meeting all constraints, exactly when it lies within the bounds genTable computes |
| `EventStore.UpperBoundsIgnored` | osquery-patch-5.18.1/osquery/events/eventsubscriberplugin.cpp:294-323 | Without an equality the upper bound of a scan is always 0, unbounded, whatever `<` and `<=` ask |
| `EventStore.ConstrainedQueryIsComplete` | osquery-patch-5.18.1/osquery/events/eventsubscriberplugin.cpp:294-323 | A stored row meeting every time constraint is yielded if and only if there is an equality or no lower bound with a negative operand wraps |
| `EventEffects.PlainQueryYieldsIff` | osquery-patch-5.18.1/osquery/events/eventsubscriberplugin.cpp:294-323 | Exactly which rows a query yields that has time constraints or runs without optimisation: with an equality the stored rows of the first equality's time (all of them when that is 0), without one the stored rows that meet every lower bound, negative operands read as unsigned |
| `EventEffects.QueryRecords` | osquery-patch-5.18.1/osquery/events/eventsubscriberplugin.cpp:258-285 | What a query does to positions: an optimised run records one second before its saved time and saves time and last id of the newest bucket, unless unnamed or that bucket lies before its start; any other query changes no position |
| `EventEffects.QueryKeepsExactly` | osquery-patch-5.18.1/osquery/events/eventsubscriberplugin.cpp:245-291 | Exactly which buckets and rows are left after a query: all of them until every scheduled query has run, then all but those out of the larger window before the oldest recorded position, or before the clock when no query is counted; never without the newest |
| `EventEffects.SmallBatchOnlyAdds` | osquery-patch-5.18.1/osquery/events/eventsubscriberplugin.cpp:111-183 | A batch that does not cross a multiple of 256 rows adds its rows, with the given time or the clock and consecutive ids, and changes nothing else |
| `EventEffects.CheckpointKeepsExactly` | osquery-patch-5.18.1/osquery/events/eventsubscriberplugin.cpp:185-196 | A batch that crosses a multiple of 256 rows leaves exactly the buckets within the limit that the expiry of the larger window then leaves, and exactly their rows |
| `EventEffects.CheckpointExpires` | osquery-patch-5.18.1/osquery/events/eventsubscriberplugin.cpp:192-196 | After such a batch at most one bucket is left, or the oldest bucket is within the larger window |
| `EventEffects.RestartKeepsExactly` | osquery-patch-5.18.1/osquery/events/eventsubscriberplugin.cpp:785-793 | A restart leaves exactly the buckets that the expiry of the configured window leaves and that are within the limit, and exactly their rows; it keeps saved positions and forgets recorded ones |
| `EventEffects.WindowIsLarger` | osquery-patch-5.18.1/osquery/events/eventsubscriberplugin.cpp:233-239 | The expiry window is the larger one of the configured and the requested |
| `EventEffects.NoWindowNoExpiry` | osquery-patch-5.18.1/osquery/events/eventsubscriberplugin.cpp:586-592 | Nothing expires without a window or without a clock |
| `EventEffects.ScheduleChanges` | osquery-patch-5.18.1/osquery/events/eventsubscriberplugin.cpp:221-243 | A new schedule forgets recorded positions and sets the query count; a new requested window replaces the old one; nothing else changes |
| `EventSubscriber.Subscriber.constructor` | osquery-patch-5.18.1/osquery/events/eventsubscriberplugin.h:185-192 | A new process keeps only the database |
| `EventSubscriber.Subscriber.AddBatch` | osquery-patch-5.18.1/osquery/events/eventsubscriberplugin.cpp:111-199 | The in-place operation equals the state function the run theorems are about; succeeds on non-empty batches only |
| `EventSubscriber.Subscriber.NumberRows` | osquery-patch-5.18.1/osquery/events/eventsubscriberplugin.cpp:124-154 | The numbering loop gives the batch the ids and rows of the specification and advances the id counter |
| `EventSubscriber.Subscriber.DeleteRows` | osquery-patch-5.18.1/osquery/events/eventsubscriberplugin.cpp:626-640 | The deletion loops remove exactly the rows named by the given buckets |
| `EventSubscriber.Subscriber.RemoveOverflowingEventBatches` | osquery-patch-5.18.1/osquery/events/eventsubscriberplugin.cpp:511-584 | In-place overflow handling equals its state function |
| `EventSubscriber.Subscriber.ExpireEventBatches` | osquery-patch-5.18.1/osquery/events/eventsubscriberplugin.cpp:586-646 | In-place expiry equals its state function |
| `EventSubscriber.Subscriber.CollectIds` | osquery-patch-5.18.1/osquery/events/eventsubscriberplugin.cpp:648-714 | The walk between lower_bound and upper_bound collects the ids the naive filter selects and ends at the last bucket in range |
| `EventSubscriber.Subscriber.ScanRows` | osquery-patch-5.18.1/osquery/events/eventsubscriberplugin.cpp:648-752 | The range scan returns the rows of the selected ids and the end of the scan |
| `EventSubscriber.Subscriber.GenerateRows` | osquery-patch-5.18.1/osquery/events/eventsubscriberplugin.cpp:258-292 | In-place query (cursor, recorded position, scan, expiry) equals its state function and rows |
| `EventSubscriber.Subscriber.GenTable` | osquery-patch-5.18.1/osquery/events/eventsubscriberplugin.cpp:294-323 | The constraint loop with its early exit equals the state function of a constrained query |
| `EventSubscriber.Subscriber.GenerateEventDataIndex` | osquery-patch-5.18.1/osquery/events/eventsubscriberplugin.cpp:408-501 | The key-scan loop rebuilds the index from the readable rows, sets the last id to the greatest id any key parses to, unreadable rows included, and deletes keys that are no numbers or hold unreadable rows |
| `EventSubscriber.Subscriber.VisitKeys` | osquery-patch-5.18.1/osquery/events/eventsubscriberplugin.cpp:424-480 | The loop over scanned keys: greatest parsed id, index of the readable rows, keys to delete |
| `EventSubscriber.Subscriber.SetUp` | osquery-patch-5.18.1/osquery/events/eventsubscriberplugin.cpp:785-793 | Rebuild, expiry and overflow in this order; on a database without junk this is the restart function of the run theorems |
| `Text.KeyOrderIsIdOrder` | osquery-patch-5.18.1/osquery/events/eventsubscriberplugin.cpp:338-344 | Below 10^10 the byte order of padded keys is the numeric order of ids |
| `Text.KeyOrderExact` | osquery-patch-5.18.1/osquery/events/eventsubscriberplugin.cpp:338-344 | The padded keys of all ids below n sort by id if and only if n is at most 10^10 |
| `Text.KeyOrderBreaksAtLimit` | osquery-patch-5.18.1/osquery/events/eventsubscriberplugin.cpp:338-344 | At 10^10 it no longer is |
| `Text.ValueToIndex` | osquery-patch-5.18.1/osquery/events/eventsubscriberplugin.cpp:338-344 | Parsing a padded key gives back the id |
| `Text.ScanKeys` | osquery-patch-5.18.1/osquery/database/ephemeral.cpp:181-201 | A scan returns the keys with the prefix in ascending byte order, the first max of them when max is positive |
| `QueryDiff.ReplayRebuildsResults` | osquery-patch-5.18.1/osquery/core/query.cpp:163-214 | After any sequence of runs of any queries, results, epochs and texts, a consumer that resets on counter 0 and otherwise subtracts removed and adds added rows holds every query's current result, which is also what is stored |
| `QueryDiff.CountersHaveNoGap` | osquery-patch-5.18.1/osquery/core/query.cpp:45-65 | Logged counters within one epoch are 0, 1, 2, ... and return to 0 exactly on a first run or an epoch change |
| `QueryDiff.RunsInStep` | osquery-patch-5.18.1/osquery/dispatcher/scheduler.cpp:161-203 | After any sequence of runs the stored results, epochs and counters are those of the last logged items |
| `QueryDiff.ReplayWithoutRemovals` | osquery-patch-5.18.1/osquery/dispatcher/scheduler.cpp:161-203 | Without reported removals the consumer follows a run if and only if the run resets the stream or loses no row |
| `QueryDiff.EmitWithoutRemovals` | osquery-patch-5.18.1/osquery/dispatcher/scheduler.cpp:176-195 | Without reported removals a run logs something if and only if it resets the stream, adds a row, or changes a stored result that has no counter yet; name, epoch, counter and added rows are those it would log otherwise |
| `QueryDiff.CountersAscend` | osquery-patch-5.18.1/osquery/core/query.cpp:45-65 | With any mix of reported and unreported removals, counters logged for a query strictly ascend within an epoch and restart at 0 on a first run and on a change of epoch |
| `QueryDiff.OthersUntouched` | osquery-patch-5.18.1/osquery/core/query.cpp:163-214 | A run leaves results, epochs, counters and texts of other queries alone |
| `QueryDiff.CrashKeepsReplayIff` | osquery-patch-5.18.1/osquery/dispatcher/scheduler.cpp:161-203 | A process that dies after any of the four writes of a run and before logging: the consumer follows the next run of the query if and only if the result was not yet written, or did not change, or the next run resets the stream, or every row the consumer has otherwise than the database is one it lacks and the new result has none of |
| `QueryDiff.FollowsIff` | osquery-patch-5.18.1/osquery/core/query.cpp:163-214 | The same for any view and any database |
| `QueryDiff.CrashBeforeLogLoses` | osquery-patch-5.18.1/osquery/dispatcher/scheduler.cpp:161-203 | A change stored and not logged is lost: repeating the run logs nothing and the consumer stays behind |
| `QueryDiff.FirstResultWithoutEpoch` | osquery-patch-5.18.1/osquery/core/query.cpp:35-43 | A first result written without its epoch counts as one of epoch 0 |
| `QueryDiff.SqlIsCurrent` | osquery-patch-5.18.1/osquery/core/query.cpp:112-131 | The stored text is the one that ran, except exactly when a known query changed its text and epoch in the same run |
| `QueryDiff.MissingTextIsEmpty` | osquery-patch-5.18.1/osquery/core/query.cpp:106-131 | A known query without a stored text counts as one with an empty text |
| `QueryDiff.Diff` | osquery-patch-5.18.1/osquery/core/sql/diff_results.cpp:53-70 | The row-by-row comparison returns current minus previous and previous minus current as multisets |
| `QueryDiff.QueryStore.GetQueryStatus` | osquery-patch-5.18.1/osquery/core/query.cpp:112-131 | Decides a new epoch and a new text, and saves the text, as specified |
| `QueryDiff.QueryStore.IncrementCounter` | osquery-patch-5.18.1/osquery/core/query.cpp:45-65 | Next counter, stored under the query's name; a reset without all records starts at 1 |
| `QueryDiff.QueryStore.AddNewResults` | osquery-patch-5.18.1/osquery/core/query.cpp:163-214 | Stored state, added and removed rows and counter as specified |
| `QueryDiff.QueryStore.LaunchQuery` | osquery-patch-5.18.1/osquery/dispatcher/scheduler.cpp:161-203 | The logged item, and an empty differential only at a reset |
| `DenylistFormat.CleanNamesRestore` | osquery-patch-5.18.1/osquery/config/config.cpp:321-349 | Saving and restoring a denylist of clean names gives the entries that have not expired |
| `DenylistFormat.SurvivesRestoreIffClean` | osquery-patch-5.18.1/osquery/config/config.cpp:321-349 | A denylist survives save and restore if and only if every name is non-empty, colon-free and without surrounding white space |
| `DenylistFormat.RestoredNames` | osquery-patch-5.18.1/osquery/utils/conversions/split.cpp:16-28 | No restored name contains a colon or surrounding white space, whatever the stored content |
| `DenylistFormat.EmptyNameLosesAll` | osquery-patch-5.18.1/osquery/config/config.cpp:321-338 | One empty name in the list makes the restore return nothing |
| `DenylistFormat.EncodeIs` | osquery-patch-5.18.1/osquery/config/config.cpp:340-349 | The stored form: name, colon, expiry, joined by colons |
| `DenylistFormat.ExpiryReads` | osquery-patch-5.18.1/osquery/config/config.cpp:332-336 | An expiry field of digits with or without a sign reads as its number, and as 0 when too large |
| `DenylistFormat.NoNumberReadsZero` | osquery-patch-5.18.1/osquery/config/config.cpp:332-336 | A field that does not start as a number reads as 0 |
| `DenylistFormat.WhiteIsTrimmed` | osquery-patch-5.18.1/osquery/utils/conversions/split.cpp:16-28 | White space around a field is dropped |
| `ScheduleDenylist.CutOffQueryIsHeldBack` | osquery-patch-5.18.1/osquery/config/config.cpp:351-371 | End to end: in any run from a fresh database in which every other name that gets denylisted is clean, a query whose process died while executing it, with the watchdog on at the restart and the denylist enforced for it, is not started strictly before restart plus 86400 by any continuation with any further crashes and restarts, if and only if its name is clean or the list on disk already held it that long |
| `ScheduleDenylist.CulpritIsHeldBack` | osquery-patch-5.18.1/osquery/config/config.cpp:351-371 | The same from any good state in which a restart has found a clean culprit |
| `ScheduleDenylist.CulpritHeldIff` | osquery-patch-5.18.1/osquery/config/config.cpp:351-371 | From any good state with any mark on disk: no continuation starts the culprit within a day of the restart, if and only if the restart runs to its end with the watchdog on and the culprit's name is clean (non-empty, colon-free, no surrounding white space), or the list on disk already denied it that long |
| `ScheduleDenylist.UncleanIsForgotten` | osquery-patch-5.18.1/osquery/config/config.cpp:321-371 | A denylisted name that is not clean is gone at the next restart, and that process starts the query at once |
| `ScheduleDenylist.AnyMarkIsReached` | osquery-patch-5.18.1/osquery/config/config.cpp:1175-1184 | A run from a fresh database leaves any non-empty name, clean or not, as the mark on disk |
| `ScheduleDenylist.CrashNamesCulprit` | osquery-patch-5.18.1/osquery/config/config.cpp:351-371 | A query marked as executing at a crash is the culprit the next process finds, however late |
| `ScheduleDenylist.CrashDuringBootForgets` | osquery-patch-5.18.1/osquery/config/config.cpp:359-369 | From any good state: after a crash between clearing the mark and saving the denylist, the next process starts the culprit at once if and only if the list on disk does not hold it |
| `ScheduleDenylist.ExpirySecondDiffers` | osquery-patch-5.18.1/osquery/config/config.cpp:321-338 | For every clean name and expiry: in the second it expires, a process that comes up starts the query and one already up refuses it |
| `ScheduleDenylist.StepKeepsGood` | osquery-patch-5.18.1/osquery/config/config.cpp:453-526 | Every step that denylists only clean names keeps the lists on disk and in memory storable; names that are only offered or executed may be anything |
| `ScheduleDenylist.StepKeepsHeld` | osquery-patch-5.18.1/osquery/config/config.cpp:481-526 | Every step before the expiry keeps a held query held on disk and in memory and does not start it |
| `ScheduleDenylist.HeldRuns` | osquery-patch-5.18.1/osquery/config/config.cpp:481-526 | A held query is started in no run before its time |
| `ScheduleDenylist.ListedStartsIff` | osquery-patch-5.18.1/osquery/config/config.cpp:453-526 | A running process starts a listed query if and only if its time is past or the denylist is not enforced for it, and then takes it off the list in memory and on disk; it starts an unlisted query always; a query offered and not launched leaves no mark |
| `ScheduleDenylist.FinishClearsMark` | osquery-patch-5.18.1/osquery/config/config.cpp:1167-1173 | A query that finishes clears its mark unless a resource limit was hit, and nothing else changes |
| `ScheduleDenylist.Schedule.constructor` | osquery-patch-5.18.1/osquery/config/config.cpp:351-371 | The boot of a process equals the protocol's boot steps |
| `ScheduleDenylist.Schedule.RestoreDenylist` | osquery-patch-5.18.1/osquery/config/config.cpp:321-338 | The token loop equals the restore function of the round-trip lemmas |
| `ScheduleDenylist.Schedule.SaveDenylist` | osquery-patch-5.18.1/osquery/config/config.cpp:340-349 | The save loop writes the stored form the round-trip lemmas read |
| `ScheduleDenylist.Schedule.OfferQuery` | osquery-patch-5.18.1/osquery/config/config.cpp:481-526 | Calls back exactly when the caller wants denylisted queries, or the query is unlisted, exempt or past its time; an exempt or past entry is removed and the list saved, otherwise both lists stay; equals the protocol step |
| `ScheduleDenylist.Schedule.RecordQueryStart` | osquery-patch-5.18.1/osquery/config/config.cpp:1175-1184 | Sets mark and timestamp; on an admitted query this completes the launching step of the protocol |
| `ScheduleDenylist.Schedule.RecordQueryPerformance` | osquery-patch-5.18.1/osquery/config/config.cpp:1167-1173 | Clears the executing mark unless a limit was hit |
| `Distributed.CrashedQueryIsHeldBack` | osquery-patch-5.18.1/osquery/distributed/distributed.cpp:200-253 | A query started with a fresh mark at time t whose process dies is not executed again in any continuation until the clock exceeds t plus the denylist duration |
| `Distributed.HeldBackIffFresh` | osquery-patch-5.18.1/osquery/distributed/distributed.cpp:200-253 | A query that is executed and whose process dies is not executed again in any continuation until the clock exceeds its start plus the denylist duration, if and only if its mark was fresh or the process lived that long |
| `Distributed.MarkHoldsBack` | osquery-patch-5.18.1/osquery/distributed/distributed.cpp:200-253 | A mark nobody works on holds its query back through crashes, restarts and cleanups until it expires |
| `Distributed.StaleMarkIsNotRenewed` | osquery-patch-5.18.1/osquery/distributed/distributed.cpp:200-214 | Running again under an expired mark does not renew it, so a crash then is not held back |
| `Distributed.RunsConserve` | osquery-patch-5.18.1/osquery/distributed/distributed.cpp:150-198 | In every crash-free run each popped request is, counted once, written, waiting in the results or in hand, and at the end of the queue nothing is pending |
| `Distributed.ServiceConserves` | osquery-patch-5.18.1/osquery/distributed/distributed.cpp:150-198 | The account holds in every crash-free run of a process, from its start on any database |
| `Distributed.StepConserves` | osquery-patch-5.18.1/osquery/distributed/distributed.cpp:150-198 | Each crash-free step keeps that account |
| `Distributed.ResultsStayUntilWritten` | osquery-patch-5.18.1/osquery/distributed/distributed.cpp:255-278 | Results leave memory only by a successful write, all of them together |
| `Distributed.LoopIsARun` | osquery-patch-5.18.1/osquery/distributed/distributed.cpp:154-198 | The runQueries loop over the scanned keys is a crash-free run of the protocol with the same marks and results |
| `Distributed.EachAnsweredOnce` | osquery-patch-5.18.1/osquery/distributed/distributed.cpp:154-198 | Every pending request gets exactly one result, in key order |
| `Distributed.AnswersAre` | osquery-patch-5.18.1/osquery/distributed/distributed.cpp:154-198 | With the clock not going backwards, each request is refused exactly when its query was marked before the loop and the mark has not expired, and otherwise answered with what the query returned |
| `Distributed.MarksAre` | osquery-patch-5.18.1/osquery/distributed/distributed.cpp:154-227 | After the loop exactly the marks are left whose query was not executed in it |
| `Distributed.CleanupRemovesExpired` | osquery-patch-5.18.1/osquery/distributed/distributed.cpp:229-253 | Cleaning up removes exactly the marks whose time is past |
| `Distributed.CrashKeepsDatabase` | osquery-patch-5.18.1/osquery/distributed/distributed.cpp:154-253 | A crash loses the results in memory and keeps pending requests and marks |
| `Distributed.Service.PopRequest` | osquery-patch-5.18.1/osquery/distributed/distributed.cpp:364-371 | The request read and its key removed; an absent key gives an empty query |
| `Distributed.Service.CheckAndSetAsRunning` | osquery-patch-5.18.1/osquery/distributed/distributed.cpp:200-214 | Refuses exactly on an unexpired mark; sets a mark only when there is none |
| `Distributed.Service.RunOne` | osquery-patch-5.18.1/osquery/distributed/distributed.cpp:157-196 | One request: refused with its mark kept while the mark has not expired, else answered with the output and its mark removed |
| `Distributed.Service.RunKeys` | osquery-patch-5.18.1/osquery/distributed/distributed.cpp:154-198 | The loop treats every scanned key in turn and empties those keys |
| `Distributed.Service.RunQueries` | osquery-patch-5.18.1/osquery/distributed/distributed.cpp:154-198 | Nothing is pending on return; sent plus kept results are the old ones followed by one per request |
| `Distributed.Service.FlushCompleted` | osquery-patch-5.18.1/osquery/distributed/distributed.cpp:255-286 | All results are sent, or all kept |
| `Distributed.Service.CleanupExpiredRunningQueries` | osquery-patch-5.18.1/osquery/distributed/distributed.cpp:229-253 | Exactly the expired marks are removed |
| `Handshake.NoLostWakeUp` | osquery-patch-5.18.1/osquery/dispatcher/dispatcher.cpp:20-41 | In every interleaving, once the winning interrupt has returned, the flag is set, stop has run exactly once, and no pause, earlier or later, is waiting or about to wait |
| `Handshake.StepKeepsInv` | osquery-patch-5.18.1/osquery/dispatcher/dispatcher.cpp:20-41 | Every atomic step keeps the invariant: one winner, lock ownership, a pending notification for every waiting pause, the stop count |
| `Handshake.StopsAtMostOnce` | osquery-patch-5.18.1/osquery/dispatcher/dispatcher.cpp:20-30 | At most one call ever runs stop |
| `Handshake.PauseWaits` | osquery-patch-5.18.1/osquery/dispatcher/dispatcher.cpp:36-41 | A pause leaves only when it reads the flag as set, or after it waited and was woken by its timeout or by a notification |
| `Handshake.UninterruptedPauseWaits` | osquery-patch-5.18.1/osquery/dispatcher/dispatcher.cpp:36-41 | In every run without a winning interrupt a pause that holds the lock goes to wait, gives up the lock, and can leave by its timeout |
| `CString.OutputCString` | osquery-patch-5.18.1/osquery/devtools/shell.cpp:451-477 | The printing loop writes the quoted form the round-trip lemmas read |
| `CString.EscapeShape` | osquery-patch-5.18.1/osquery/devtools/shell.cpp:451-477 | Two bytes for the five named bytes, four for other unprintable ones, the byte itself otherwise; no tab or line end is printed |
| `CString.PlainIsPrintedAsIs` | osquery-patch-5.18.1/osquery/devtools/shell.cpp:451-477 | A string of printable bytes without quote or backslash is printed as it is, between quotes |
| `CString.ResolveUndoesEscape` | osquery-patch-5.18.1/osquery/devtools/shell.cpp:1049-1078 | Undoing the escapes of a printed string gives the string, for every string and every classification of printable bytes |
| `CString.ResolveOne` | osquery-patch-5.18.1/osquery/devtools/shell.cpp:1049-1078 | Each printed byte, octal escapes included, resolves to itself whatever follows it |
| `CString.ReadEscape` | osquery-patch-5.18.1/osquery/devtools/shell.cpp:1054-1074 | The escape at any index, a terminator after the backslash included: its byte and length |
| `CString.EscapeMeans` | osquery-patch-5.18.1/osquery/devtools/shell.cpp:1054-1074 | What each escape denotes: the three letters, one to three octal digits cut to a byte, any other byte itself |
| `CString.ResolveBackslashes` | osquery-patch-5.18.1/osquery/devtools/shell.cpp:1049-1078 | The in-place loop on any buffer: whether reading stays in the buffer, and then the whole buffer it leaves |
| `CString.SweepInsideIff` | osquery-patch-5.18.1/osquery/devtools/shell.cpp:1049-1078 | The loop stops at the terminator of its string, with the escapes undone, if and only if no backslash dangles; otherwise it passes the terminator or leaves the buffer |
| `CString.ResolvableIffEven` | osquery-patch-5.18.1/osquery/devtools/shell.cpp:1049-1078 | No backslash dangles if and only if the string ends with an even number of backslashes |
| `CString.LeavesBufferIffOdd` | osquery-patch-5.18.1/osquery/devtools/shell.cpp:1049-1078 | On a string at the end of its buffer the loop reads beyond the buffer if and only if the string ends with an odd number of backslashes |
| `ShellTokens.FindsClosingQuote` | osquery-patch-5.18.1/osquery/devtools/shell.cpp:1357-1391 | In a printed string followed by anything, the scan for the closing quote stops at the one the printer wrote |
| `ShellTokens.PrintedArgumentsReadBack` | osquery-patch-5.18.1/osquery/devtools/shell.cpp:1357-1391 | Any list of NUL-free strings, printed and cut into arguments, comes back unchanged |
| `ShellTokens.PrintedLineIsCut` | osquery-patch-5.18.1/osquery/devtools/shell.cpp:1357-1391 | Strings printed after a command word and cut in place stand in the line unchanged, whatever follows the line in memory |
| `ShellTokens.SingleQuotedIsLiteral` | osquery-patch-5.18.1/osquery/devtools/shell.cpp:1364-1380 | Text in single quotes, closed or up to the end of the line, is one argument as it stands |
| `ShellTokens.LeadingBlank` | osquery-patch-5.18.1/osquery/devtools/shell.cpp:1358-1360 | White space before an argument, of any of the six kinds, changes nothing |
| `ShellTokens.Tokenize` | osquery-patch-5.18.1/osquery/devtools/shell.cpp:1357-1391 | The in-place loop on any terminated line leaves exactly the bytes and argument positions of the buffer-level specification, at most fifty, or reports that reading left the buffer |
| `ShellTokens.StaysInsideIff` | osquery-patch-5.18.1/osquery/devtools/shell.cpp:1357-1391 | Undoing escapes stays inside every argument of a line if and only if no argument that is unescaped has a dangling backslash |
| `ShellTokens.ArgumentInsideIff` | osquery-patch-5.18.1/osquery/devtools/shell.cpp:1360-1390 | An argument is kept apart if and only if it is single-quoted or ends with an even number of backslashes |
| `ShellTokens.CutsWhatIsMeant` | osquery-patch-5.18.1/osquery/devtools/shell.cpp:1357-1391 | A line without dangling backslashes is cut into exactly the arguments it means, each standing terminated in the buffer |
| `ShellTokens.DanglingBackslashLosesArgument` | osquery-patch-5.18.1/osquery/devtools/shell.cpp:1357-1391 | On the line `.a\ b` the second argument is lost |
| `ShellTokens.FindQuote` | osquery-patch-5.18.1/osquery/devtools/shell.cpp:1364-1373 | The closing quote search equals its specification |
| `ShellTokens.TakeArgument` | osquery-patch-5.18.1/osquery/devtools/shell.cpp:1360-1390 | Cutting one argument, whatever it ends with, is one turn of that specification |
| `Csv.TableReadsBack` | osquery-patch-5.18.1/osquery/devtools/shell.cpp:724-741 | For every table of non-empty rows and every single-byte separator other than a double quote, CR, LF or NUL, a reader by section 2 of RFC 4180 gets back exactly the rows written |
| `Csv.ReadsRecord` | osquery-patch-5.18.1/osquery/devtools/shell.cpp:724-741 | One record reads back, whatever follows it |
| `Csv.ReadsField` | osquery-patch-5.18.1/osquery/devtools/shell.cpp:483-533 | One field reads back, quoted or not, empty included |
| `Csv.OutputField` | osquery-patch-5.18.1/osquery/devtools/shell.cpp:502-533 | The field writer, with its restart of the scan at the first byte that needs quoting, writes the field text |
| `Csv.QuotesOnlyWhenNeeded` | osquery-patch-5.18.1/osquery/devtools/shell.cpp:483-533 | A field is written as it is if and only if it is not empty and has only visible ASCII bytes other than both quotes and the separator |
| `Csv.OutputRecord` | osquery-patch-5.18.1/osquery/devtools/shell.cpp:724-741 | The record loop writes the record text |
| `PreAggregation.NothingIsLost` | osquery-patch-5.18.1/osquery/numeric_monitoring/pre_aggregation_cache.cpp:74-93 | For every sequence of additions and takings, per path, taken and cached points together have the sum, minimum and maximum of all points added, and points of other kinds are kept one for one |
| `PreAggregation.LatestIsKept` | osquery-patch-5.18.1/osquery/numeric_monitoring/pre_aggregation_cache.cpp:28-72 | For every sequence of operations, path and kind, the latest time among points taken and cached is the latest time added |
| `PreAggregation.AddConserves` | osquery-patch-5.18.1/osquery/numeric_monitoring/pre_aggregation_cache.cpp:74-86 | One addition adds exactly the point's own share to the total of its path and kind |
| `PreAggregation.AddKeepsOthers` | osquery-patch-5.18.1/osquery/numeric_monitoring/pre_aggregation_cache.cpp:74-86 | A point that does not aggregate is kept as one more; no other is lost |
| `PreAggregation.AddKeepsIndex` | osquery-patch-5.18.1/osquery/numeric_monitoring/pre_aggregation_cache.cpp:74-86 | The index keeps naming the last cached point of every path |
| `PreAggregation.AggregatesInPlace` | osquery-patch-5.18.1/osquery/numeric_monitoring/pre_aggregation_cache.cpp:74-86 | A point goes into the last point of its path if and only if that has the same kind and the kind is a sum, minimum or maximum; otherwise it is appended |
| `PreAggregation.Replay` | osquery-patch-5.18.1/osquery/numeric_monitoring/pre_aggregation_cache.cpp:74-93 | The index names the last cached points after every sequence of operations |
| `PreAggregation.PreAggregationCache.TryToAggregate` | osquery-patch-5.18.1/osquery/numeric_monitoring/pre_aggregation_cache.cpp:28-72 | The point after the attempt, whose time moves even when the attempt fails, and whether it succeeded |
| `PreAggregation.PreAggregationCache.AddPoint` | osquery-patch-5.18.1/osquery/numeric_monitoring/pre_aggregation_cache.cpp:74-86 | The in-place addition equals the specification and keeps the index |
| `PreAggregation.PreAggregationCache.TakePoints` | osquery-patch-5.18.1/osquery/numeric_monitoring/pre_aggregation_cache.cpp:88-93 | Everything cached is returned and the cache is empty |
| `ConfigDepth.ValidateConfig` | osquery-patch-5.18.1/osquery/config/config.cpp:680-725 | The queue loop terminates and succeeds if and only if the root is an object of recursive height at most 32, scalars counted as a level |
| `ConfigDepth.NextLevelIsLower` | osquery-patch-5.18.1/osquery/config/config.cpp:694-716 | Replacing a level by all its children lowers the greatest height by exactly one |
| `ConfigDepth.ExpandLevel` | osquery-patch-5.18.1/osquery/config/config.cpp:695-712 | The inner loop replaces a level by its children, in order |
| `SchedulerDrift.DriftAccounts` | osquery-patch-5.18.1/osquery/dispatcher/scheduler.cpp:213-225 | After n steps with exact pauses, elapsed time is n intervals plus current drift plus all drift given up, and the drift lies between 0 and its maximum |
| `SchedulerDrift.DriftIsKept` | osquery-patch-5.18.1/osquery/dispatcher/scheduler.cpp:213-225 | Drift within the limit is kept, drift beyond it given up entirely, spare time pays it back and is paused away |
| `SchedulerDrift.Scheduler.CalculateTimeDriftAndMaybePause` | osquery-patch-5.18.1/osquery/dispatcher/scheduler.cpp:213-225 | The in-place update moves any account with this drift as the step of the accounting law does, pause included |

## Left out

- RocksDB, JSON serialisation, hashing, SQL execution, Thrift and TLS: replaced by maps, values and parameters.
- The ephemeral database beyond its ordered key scan: get, put and remove are map operations used directly.
- EventSubscriber.Subscriber.GenerateEventDataIndex: a readable row under a key other than its own padded id is not modelled; every key holds its own row or none that can be read.
- Rows that become unreadable while a process runs: executions have none.
- `Query::addNewEvents`: another reset rule, not part of the replay claim.
- `Config::purge` and the clash of a query name with another name plus suffix.
- Discovery queries when distributed work is accepted, and the performance record of distributed queries.
- PreAggregation.NothingIsLost: integers are unbounded. Which point carries a time is claimed only for the latest one, since a point that fails to aggregate has already moved the earlier point's time.
- SchedulerDrift.DriftAccounts: pauses are exact; a pause cut short or overrun is not modelled.
- Handshake.NoLostWakeUp: one pausing thread, as every service has; the progress of the scheduler of the operating system is not modelled.
- Csv.TableReadsBack: the header row is written like any row; NULL fields, printed as the configured null text, and separators of more than one byte are not modelled.
- ConfigDepth.ValidateConfig: member names are dropped, since they play no part in the depth.
- `PathSet` search, splay values, the carver, registry, watchdog limits, flags, logging and the rest of the shell.
