# Mass undelete: a verified model of `RestoreManager`

`mass_undelete.py` restores the soft-deleted paths of an Azure Data Lake
container. The work is done by a `RestoreManager` object, which:

- lists the deleted paths and sorts them by depth;
- cuts the sorted list into batches and restores every item of a batch
  concurrently, under a concurrency ceiling;
- records each outcome in counters and in a sliding window of recent
  failures;
- runs a background controller loop that halves the ceiling when more than a
  tenth of the recent failures are server-side (5xx or throttling) errors, and
  raises it by a fifth once such errors have stopped.

The command line validates the storage URI and the container name first.
The constructor then picks a credential: a named key built from the account
name in the URI, or the ambient identity.

This project models that logic in Dafny and proves what it promises. Time is
a parameter `now: real`, read once per step. The result of each restore call
is an input, either success or the text of the raised exception.

Modules, one file each:

- `Wrappers` (`wrappers.dfy`): `Option` and `Result`.
- `Text` (`text.dfy`): substring search, `split`/`join` on one character, and
  decimal digits, with their round trips.
- `ErrorWindow` (`window.dfy`): the bounded deque of `(time, is_5xx)` events.
  It covers eviction, the error rate and appending with `maxlen` 100.
- `Classify` (`classify.dfy`): `is_5xx_error` and the "already exists" test.
  Together they give the four-way outcome taxonomy of one restore.
- `Controller` (`controller.dfy`): one tick of `adjust_concurrency` as a
  transition on values, with its bounds, its direction, and its behaviour over
  many ticks.
- `Bookkeeping` (`bookkeeping.dfy`): the state change `restore_item` makes,
  and a batch of such changes.
- `Manager` (`manager.dfy`): the `RestoreManager` class itself. Its fields
  are updated in place by methods that are proved against the value-level
  transitions above.
- `Batching` (`batching.dfy`): depth, the stable sort by depth, the batch
  size and the slicing into batches.
- `Elapsed` (`elapsed.dfy`): `format_elapsed_time` and a parser that reads
  its output back.
- `Endpoint` (`endpoint.dfy`): the URI and container-name validators, the
  account name cut out of the URI, and the choice of credential.

Behaviour of the code worth noting, which the model follows:

- Recovery multiplies the ceiling by 1.2 and truncates with `int(...)`. It
  does not round up. From 10 the ceiling therefore climbs 12, 14, 16, 19, …
  and needs 24 quiet ticks to reach 600.
- `last_adjustment` is set on every tick that is not skipped, whether or not
  the ceiling changed. It is not set only on a change.
- The URI pattern fixes the domain to `core.windows.net`, and the service to
  `blob` or `dfs`.
- The error rate's denominator is the length of the window after eviction.
  The window holds only failures (successes are never appended), so the rate
  is the share of server-side failures among recent failures, not among all
  requests.

## Model

| member | source | states |
|---|---|---|
| Manager.RestoreManager.constructor | mass_undelete.py:24-45 | Zero counts, an empty window, ceiling 100, last adjustment at construction time, no server error yet (time 0); the ceiling is within [10, 600] |
| Manager.RestoreManager.ErrorRate | mass_undelete.py:64-76 | The loop pops stale front entries until the window is `Evict` of the old one; the result is `Rate` of what is left, 0.0 for an empty window, and lies in [0, 1]; a time-ordered window stays time-ordered and keeps no entry older than 10 s |
| Manager.RestoreManager.AdjustmentTick | mass_undelete.py:80-111 | Updates window, ceiling and adjustment time in place exactly as the value-level `Tick` does, and keeps the ceiling within [10, 600] and the window within 100 entries |
| Manager.RestoreManager.AdjustConcurrency | mass_undelete.py:78-111 | The loop over wake-up times ends in the state `Ticks` gives, with the bounds kept at every step |
| Manager.RestoreManager.RestoreItem | mass_undelete.py:113-137 | Returns true exactly for a success; the counters, window and last error time change as `Record` says; bounds kept; a time-ordered window of events no later than now stays so |
| Manager.RestoreManager.ProcessBatch | mass_undelete.py:139-160 | After a batch, restored count grows by the batch's successes and failed count by its non-conflict failures; the state is `RecordBatch` of the old one |
| ErrorWindow.Evict | mass_undelete.py:67-68 | Eviction never lengthens the window |
| ErrorWindow.EvictSuffix | mass_undelete.py:67-68 | Eviction keeps a suffix of the window, everything dropped was stale, and the new front (if any) is fresh |
| ErrorWindow.RecentServerErrors | mass_undelete.py:74-75 | The count of fresh server-side failures is at most the window length |
| ErrorWindow.Rate | mass_undelete.py:70-76 | The error rate always lies in [0, 1] |
| ErrorWindow.Push | mass_undelete.py:132 | Appending grows the window by one until it holds 100 entries, then keeps it at 100 |
| ErrorWindow.PushContents | mass_undelete.py:132 | The new event is last, behind the newest entries already held (the oldest falls off when full) |
| ErrorWindow.RecentServerErrorsPositive | mass_undelete.py:74-75 | The fresh server-error count is positive iff the window holds a fresh server-side failure |
| ErrorWindow.RatePositiveIff | mass_undelete.py:70-76 | The rate is positive iff the window holds a fresh server-side failure |
| ErrorWindow.StaleEventNotCounted | mass_undelete.py:74-75 | A stale entry anywhere in the window adds nothing to the count |
| ErrorWindow.EvictedWindowIsFresh | mass_undelete.py:67-68 | In a chronological window, no stale entry survives eviction |
| ErrorWindow.FreshCountIsServerErrorCount | mass_undelete.py:74-76 | Once every entry is fresh, the count is the plain number of server-side failures |
| ErrorWindow.EvictLater | mass_undelete.py:67-68 | Evicting at t1 and then at t2 >= t1, with nothing appended in between, equals evicting at t2 alone |
| ErrorWindow.EvictStalePrefix | mass_undelete.py:67-68 | Eviction passes over any prefix of entries that are stale |
| ErrorWindow.EvictPushEvict | mass_undelete.py:67-76 | A read of the rate (an eviction at t1) followed by an append and a later eviction at t2 >= t1 leaves the same window as the append and the eviction at t2 alone: the display reads of `process_batch` do not change what the next read sees |
| ErrorWindow.PushAtNow | mass_undelete.py:130-132 | Appending an event recorded now to a time-ordered window of events no later than now keeps it time-ordered and no later than now |
| ErrorWindow.PushKeepsChronological | mass_undelete.py:130-132 | Appending an event no older than the newest keeps the window in time order |
| ErrorWindow.EvictKeepsChronological | mass_undelete.py:67-68 | Eviction keeps the window in time order |
| Classify.AnyPatternInIff | mass_undelete.py:62 | `any(p in text for p in patterns)` holds iff some pattern occurs in the text |
| Classify.IsServerErrorIff | mass_undelete.py:53-62 | A text is a 5xx error iff one of the six patterns occurs in it at some position |
| Classify.Kind | mass_undelete.py:113-134 | Success iff the call returned; conflict iff the text has "BlobAlreadyExists"; server failure iff no conflict marker and a 5xx pattern |
| Classify.AnyPatternIn | mass_undelete.py:62 | `any(pattern in text for pattern in patterns)`; its meaning is stated by `Classify.AnyPatternInIff` |
| Classify.IsServerError | mass_undelete.py:53-62 | `is_5xx_error`; holds iff one of the six patterns occurs in the text, as `Classify.IsServerErrorIff` states |
| Classify.IsConflict | mass_undelete.py:127 | `"BlobAlreadyExists" in error_str`; `Classify.Kind` states that it takes priority over the 5xx test |
| Classify.ServerFailureKind | mass_undelete.py:127-131 | A text carrying any one of the six 5xx patterns and not the conflict marker is classified server-side |
| Classify.ServerErrorExample | mass_undelete.py:57 | "503 Service Unavailable" is a server-side failure |
| Classify.ConflictExample | mass_undelete.py:127 | A conflict text is benign even when it also carries a 5xx pattern |
| Controller.Backoff | mass_undelete.py:91-94 | The backed-off ceiling is half the old one rounded down, or the minimum 10 when that is below 10 |
| Controller.Recover | mass_undelete.py:102-105 | The recovered ceiling is six fifths of the old one truncated, or the maximum 600 when that is above 600 |
| Controller.ChooseStep | mass_undelete.py:90-100 | Decrease iff the rate exceeds 0.1; increase iff not, more than 5 s since the last server error and below the maximum |
| Controller.NextCeiling | mass_undelete.py:90-109 | Bounds [10, 600] are kept; a decrease never raises and strictly lowers above the minimum; a recovery never lowers and strictly raises below the maximum; otherwise unchanged |
| Controller.NextCeilingMonotone | mass_undelete.py:90-109 | A higher ceiling never leads to a lower next ceiling |
| Controller.BackoffTicksMonotone | mass_undelete.py:90-97 | Repeated back-offs preserve order between ceilings |
| Controller.RecoveryTicksMonotone | mass_undelete.py:100-108 | Repeated recoveries preserve order between ceilings |
| Controller.BackoffTicksInBounds | mass_undelete.py:90-97 | Any number of back-offs stays within [10, 600] |
| Controller.RecoveryTicksInBounds | mass_undelete.py:100-108 | Any number of recoveries stays within [10, 600] |
| Controller.BackoffAtMinimum | mass_undelete.py:91-95 | At the minimum, back-off leaves the ceiling there |
| Controller.RecoveryAtMaximum | mass_undelete.py:100 | At the maximum, no recovery happens |
| Controller.BackoffFromMaximum | mass_undelete.py:91-94 | From 600, six back-offs reach 10 |
| Controller.RecoveryFromMinimum | mass_undelete.py:102-105 | From 10, 24 recoveries reach 600 |
| Controller.BackoffReachesMinimum | mass_undelete.py:90-97 | Under sustained errors the ceiling reaches 10 within six ticks from anywhere in bounds, and stays there |
| Controller.RecoveryReachesMaximum | mass_undelete.py:100-108 | Once errors stop, the ceiling reaches 600 within 24 ticks from anywhere in bounds, and stays there |
| Controller.TickSkips | mass_undelete.py:84-85 | Within a second of the last adjustment a tick changes nothing |
| Controller.TickAdjusts | mass_undelete.py:87-111 | Otherwise a tick evicts the window, moves the ceiling as `NextCeiling` says, and records the adjustment time |
| Controller.TickKeepsValid | mass_undelete.py:80-111 | A tick keeps the ceiling within [10, 600] and the window within 100 entries, and never moves the adjustment time back |
| Controller.TicksKeepValid | mass_undelete.py:79-111 | Any sequence of ticks keeps those bounds |
| Controller.DebouncedTick | mass_undelete.py:84-111 | A second tick less than a second after one that adjusted changes nothing |
| Controller.TickBacksOff | mass_undelete.py:90-97 | Above the threshold the ceiling backs off, whatever the time since the last error |
| Controller.TickRecovers | mass_undelete.py:100-108 | With the rate at or below 0.1, more than 5 s since the last server error and below the maximum, the ceiling strictly rises to `Recover` of the old one |
| Controller.QuietTickRecovers | mass_undelete.py:100-108 | In particular a window without any fresh server error recovers in that case |
| Controller.Tick | mass_undelete.py:80-111 | One pass of the loop body; its behaviour is stated by `TickSkips`, `TickAdjusts`, `TickKeepsValid`, `TickBacksOff`, `TickRecovers` and `DebouncedTick` |
| Controller.Ticks | mass_undelete.py:79-111 | The loop over wake-up times; `TicksKeepValid` states that it keeps the bounds |
| Bookkeeping.Record | mass_undelete.py:122-134 | The bookkeeping of one outcome; stated by `RecordByKind`, `RecordBounds` and `RecordKeepsChronological` |
| Bookkeeping.RecordKeepsChronological | mass_undelete.py:128-134 | Recording an outcome at time now keeps a time-ordered window of events no later than now so |
| Bookkeeping.RecordBatch | mass_undelete.py:139-155 | Recording a batch; stated by `RecordBatchCounts` and `RecordBatchBounded` |
| Bookkeeping.RecordByKind | mass_undelete.py:122-134 | Success only counts a restore; a conflict changes nothing; every other failure is counted and appended; only a server failure moves the last error time |
| Bookkeeping.RecordBounds | mass_undelete.py:122-134 | Counters never decrease, grow by at most one together, and the window stays within 100 |
| Bookkeeping.RecordBatchCounts | mass_undelete.py:139-147 | After a batch, restored grows by its successes, failed by its server and other failures; conflicts are not counted |
| Bookkeeping.RecordBatchBounded | mass_undelete.py:139-155 | A batch keeps the window within 100 entries |
| Batching.Depth | mass_undelete.py:178 | `len(path.split('/'))` is the number of '/' plus one |
| Batching.MakeItems | mass_undelete.py:174-179 | One item per listed path, with its path, deletion id and depth |
| Batching.Insert | mass_undelete.py:185 | Inserting into a sorted list keeps it sorted and grows it by one |
| Batching.InsertPermutation | mass_undelete.py:185 | Inserting adds exactly the new item |
| Batching.SortByDepth | mass_undelete.py:185 | The result is sorted by depth and as long as the input |
| Batching.SortByDepthPermutation | mass_undelete.py:185 | The sort is a permutation of its input |
| Batching.SortByDepthStable | mass_undelete.py:185 | Items of equal depth keep their listing order |
| Batching.BatchSize | mass_undelete.py:189 | The batch size lies in [10, 1000]: it is 10 below 30 items, 1000 from 3003 items on, and `n // 3` in between |
| Batching.Chunk | mass_undelete.py:190-191 | The slices concatenate back to the list, are non-empty, at most the batch size, all but the last full, and there are ceil(n / k) of them |
| Batching.FallbackUnreachable | mass_undelete.py:193-194 | A non-empty list always yields at least one slice, so the fallback never fires |
| Batching.PlanBatches | mass_undelete.py:189-194 | Batch size, slicing and fallback; stated by `FallbackUnreachable` and `PlanRestoreCorrect` |
| Batching.PlanRestore | mass_undelete.py:172-194 | The whole plan; stated by `PlanRestoreCorrect` and `PlanRestoreEmpty` |
| Batching.PlanRestoreCorrect | mass_undelete.py:172-194 | Every listed path is planned exactly once, shallower first, equal depths in listing order, in full batches except possibly the last |
| Batching.PlanRestoreEmpty | mass_undelete.py:181-183 | An empty listing plans nothing |
| Batching.SortExample | mass_undelete.py:185 | Depths 2, 1, 1 are ordered 1, 1, 2 with the two top-level paths in listing order |
| Batching.ThirtyItemsExample | mass_undelete.py:189-191 | Thirty items make three batches of ten |
| Elapsed.Pad2 | mass_undelete.py:51 | `{n:02d}` is at least two characters, exactly two digits for 0 <= n < 100 |
| Elapsed.Pad2RoundTrip | mass_undelete.py:51 | Each padded field reads back as its value, negatives included |
| Elapsed.ElapsedFields | mass_undelete.py:48-50 | hours*3600 + minutes*60 + secs is the whole number of seconds, with minutes and secs in [0, 60) |
| Elapsed.FormatElapsed | mass_undelete.py:47-51 | The text ends in `MM:SS` digit pairs after a colon-separated hours field |
| Elapsed.FormatElapsedRoundTrip | mass_undelete.py:47-51 | Reading the clock text back gives the floor of the seconds: only the fraction is lost |
| Elapsed.FormatElapsedExample | mass_undelete.py:47-51 | 3725.7 seconds format as "01:02:05" |
| Endpoint.ValidateContainerNameAsWritten | mass_undelete.py:244-258 | As Python runs it: length refused first, and accepted iff length 3..63, the `$`-anchored pattern matches (a final newline allowed) and no hyphen at either end |
| Endpoint.ValidateContainerName | mass_undelete.py:244-258 | Accepts exactly the well-formed names and returns them unchanged; reports length first, then illegal characters, then hyphens |
| Endpoint.ContainerValidatorsAgree | mass_undelete.py:250 | Both container validators agree on every name not ending in a newline |
| Endpoint.ContainerTrailingNewline | mass_undelete.py:250 | The validator as written accepts a well-formed name plus "\n", the corrected one refuses it |
| Endpoint.ContainerTrailingNewlineExample | mass_undelete.py:250 | "abc\n" is accepted as written and refused when corrected |
| Endpoint.ParseSound | mass_undelete.py:236 | What the URI parser reads is a well-formed endpoint whose text is the input |
| Endpoint.ParseUriText | mass_undelete.py:236 | Every well-formed endpoint is read back from its text |
| Endpoint.ValidateStorageUriAsWritten | mass_undelete.py:234-242 | As Python runs it: accepted, unchanged, iff the text is an endpoint, possibly followed by one newline |
| Endpoint.ValidateStorageUri | mass_undelete.py:234-242 | Accepts, unchanged, exactly the texts of endpoints `https://<[a-z0-9]{3,24}>.(blob\|dfs).core.windows.net` |
| Endpoint.UriValidatorsAgree | mass_undelete.py:236-237 | Both URI validators agree on every URI not ending in a newline |
| Endpoint.UriTrailingNewline | mass_undelete.py:236-237 | The validator as written accepts an endpoint plus "\n", the corrected one refuses it |
| Endpoint.AfterScheme | mass_undelete.py:20 | `split('//')[1]` is missing (Python raises) iff the URI has no "//" |
| Endpoint.AccountName | mass_undelete.py:20 | The extracted account name is missing iff there is no "//", and holds no '.' |
| Endpoint.AccountNameOfUri | mass_undelete.py:20 | The account name cut out of a valid endpoint is its account |
| Endpoint.ChooseCredential | mass_undelete.py:19-23 | Ambient credential iff no key or an empty one; a named key pairs the given key with the account from the URI; raises only for a non-empty key and no "//" |
| Endpoint.AccountNameWithTail | mass_undelete.py:20 | The account name of an endpoint followed by any text without '/' (a final newline, say) is still its account |
| Endpoint.AcceptedEndpoint | mass_undelete.py:234-242 | Names an endpoint iff the validator as written accepts the URI |
| Endpoint.AcceptedAccountName | mass_undelete.py:20 | A URI the validator as written accepts is its endpoint's text, possibly followed by a newline, and yields that endpoint's account |
| Endpoint.Configure | mass_undelete.py:281-287 | The command line as written: succeeds, keeping URI and container, iff both validators as written accept |
| Endpoint.ConfigureCredential | mass_undelete.py:19-23 | Once both validators as written accept, configuration succeeds: the constructor never raises, and a non-empty key is paired with the account of the endpoint the URI names |
| Endpoint.ConfigureStrict | mass_undelete.py:281-287 | The same with the corrected validators: succeeds iff both accept |
| Endpoint.ConfigureAgree | mass_undelete.py:281-287 | The two configurations agree on every URI and container name without a final newline |
| Endpoint.ConfigureTrailingNewline | mass_undelete.py:236-237 | As written, an endpoint followed by a newline configures a manager for that endpoint's account; the strict configuration refuses it |
| Text.Contains | mass_undelete.py:127 | Python's `in` on strings; its meaning is stated by `Text.ContainsIffOccurs` |
| Text.Find | mass_undelete.py:127 | The index found is the first occurrence, or -1 when there is none |
| Text.ContainsIffOccurs | mass_undelete.py:62 | Python's `in` on strings holds iff the pattern occurs at some position |
| Text.Split | mass_undelete.py:178 | `split` on one character gives one more piece than separators, none containing it |
| Text.JoinSplit | mass_undelete.py:178 | Joining the pieces of a split gives the string back |
| Text.SplitHead | mass_undelete.py:20 | The first piece of `a + "." + b`, for `a` without '.', is `a` |
| Text.DecimalRoundTrip | mass_undelete.py:51 | The decimal text of a number reads back as that number |

## Left out

- The Azure SDK calls (`DataLakeServiceClient`, `list_deleted_paths`, `_undelete_path`) and the credential classes are not modelled. The listing and each restore's result are inputs, and a credential is a datatype.
- The asyncio machinery is not modelled: the semaphore and its replacement on resize, `create_task`/`as_completed`, `run_in_executor`, the threading lock and the cancellation of the controller task. The ceiling is a plain integer, and restores complete one at a time in an order given as input.
- The `while True` loop and its one-second sleep are not modelled. `AdjustConcurrency` runs the tick over a given finite sequence of wake-up times.
- Each clock read is one `now: real` parameter. Where the source reads the clock twice in one step, the model uses one value.
- ProcessBatch: reads the error rate after every completion. The source does so only when the progress bar's start time differs from the clock, which the model does not have.
- Display code is not modelled: tqdm, every `print`, and the throughput, speed and ETA figures.
- Float behaviour is not modelled. The factors 0.5 and 1.2 are exact integer arithmetic (`c / 2`, `c * 6 / 5`), and the rate is an exact `real`. Float rounding of `c * 1.2` is not modelled.
- argparse and the `re` engine are not modelled. The two patterns are written out as predicates, including the newline that Python's `$` accepts.
- The error messages of the validators are kept, but not the `ArgumentTypeError` exception that carries them.
- `success_window` is not modelled: it is never used.
- `run` and the summary printed at the end of `run_async` are not modelled.

## Findings

`Endpoint.Configure` models the command line as written, so it accepts the
inputs of both findings and builds a manager from them. `Endpoint.ConfigureStrict`
composes the corrected validators.

| source | as written | input that shows it | evidently intended | confidence | as-written member | corrected member |
|---|---|---|---|---|---|---|
| mass_undelete.py:250 | `re.match(r"^[a-z0-9-]+$", name)`: `$` also matches before a final newline, so a name ending in "\n" passes | `"abc\n"` is accepted | only `[a-z0-9-]` characters, up to the true end of the name | not executed | Endpoint.ValidateContainerNameAsWritten (with Endpoint.ContainerTrailingNewline) | Endpoint.ValidateContainerName |
| mass_undelete.py:236-237 | `re.match` with the endpoint pattern ending in `$` also accepts an endpoint followed by a newline | `"https://acct.dfs.core.windows.net\n"` is accepted | exactly the endpoint text, with nothing after `.net` | not executed | Endpoint.ValidateStorageUriAsWritten (with Endpoint.UriTrailingNewline and Endpoint.ConfigureTrailingNewline) | Endpoint.ValidateStorageUri (with Endpoint.ConfigureStrict) |
