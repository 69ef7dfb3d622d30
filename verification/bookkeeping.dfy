/** What `RestoreManager.restore_item` records once the restore call has
    returned, and what `process_batch` does with a batch of completions. */
module Bookkeeping {
  import opened Classify
  import opened ErrorWindow

  /** The state `restore_item` updates: `restored_count`, `failed_count`,
      `error_window` and `last_error_time`. */
  datatype Tally = Tally(restored: nat, failed: nat, window: seq<Event>, lastErrorTime: real)

  /** The bookkeeping of `restore_item` for the result of one restore call
      finishing at time `now`. */
  function Record(t: Tally, r: RestoreResult, now: real): Tally {
    match r
    case Restored => t.(restored := t.restored + 1)
    case Failed(m) =>
      if IsConflict(m) then t
      else
        var is5xx := IsServerError(m);
        t.(failed := t.failed + 1,
           window := Push(t.window, Event(now, is5xx)),
           lastErrorTime := if is5xx then now else t.lastErrorTime)
  }

  /** The effect of one outcome, by its kind in the error taxonomy: a success
      only counts a restore; a conflict changes nothing; every other failure
      is counted and enters the window, and only a server-side one moves the
      time of the last error. */
  lemma RecordByKind(t: Tally, r: RestoreResult, now: real)
    ensures var u := Record(t, r, now);
      match Kind(r)
      case Success => u == t.(restored := t.restored + 1)
      case Conflict => u == t
      case ServerFailure =>
        u.restored == t.restored && u.failed == t.failed + 1 &&
        u.window == Push(t.window, Event(now, true)) && u.lastErrorTime == now
      case OtherFailure =>
        u.restored == t.restored && u.failed == t.failed + 1 &&
        u.window == Push(t.window, Event(now, false)) && u.lastErrorTime == t.lastErrorTime
  {
  }

  /** Counters never go down, each outcome is counted at most once, and the
      window stays within its capacity. */
  lemma RecordBounds(t: Tally, r: RestoreResult, now: real)
    requires |t.window| <= Capacity
    ensures var u := Record(t, r, now);
      u.restored >= t.restored && u.failed >= t.failed &&
      u.restored + u.failed <= t.restored + t.failed + 1 &&
      |u.window| <= Capacity
  {
  }

  /** Recording outcomes at the current time keeps the window in time
      order. */
  lemma RecordKeepsChronological(t: Tally, r: RestoreResult, now: real)
    requires Chronological(t.window) && NotAfter(t.window, now)
    ensures Chronological(Record(t, r, now).window) && NotAfter(Record(t, r, now).window, now)
  {
    if r.Failed? && !IsConflict(r.message) {
      PushAtNow(t.window, IsServerError(r.message), now);
    }
  }

  /** One completed restore inside a batch: its result and the time it
      finished. */
  datatype Completion = Completion(result: RestoreResult, time: real)

  /** `process_batch` over its completions in the order they finish: each
      one is recorded by `restore_item`, then the progress display reads the
      error rate, which evicts stale entries from the window. */
  function RecordBatch(t: Tally, cs: seq<Completion>): Tally
    decreases |cs|
  {
    if cs == [] then t
    else
      var u := Record(t, cs[0].result, cs[0].time);
      RecordBatch(u.(window := Evict(u.window, cs[0].time)), cs[1..])
  }

  /** Number of completions of the given kind. */
  function CountKind(cs: seq<Completion>, k: OutcomeKind): nat {
    if cs == [] then 0 else (if Kind(cs[0].result) == k then 1 else 0) + CountKind(cs[1..], k)
  }

  /** After a batch, the restores counted are exactly its successes and the
      failures counted exactly its server-side and other failures; conflicts
      are not counted at all. */
  lemma {:induction false} RecordBatchCounts(t: Tally, cs: seq<Completion>)
    ensures RecordBatch(t, cs).restored == t.restored + CountKind(cs, Success)
    ensures RecordBatch(t, cs).failed == t.failed + CountKind(cs, ServerFailure) + CountKind(cs, OtherFailure)
    decreases |cs|
  {
    if cs != [] {
      var u := Record(t, cs[0].result, cs[0].time);
      RecordByKind(t, cs[0].result, cs[0].time);
      RecordBatchCounts(u.(window := Evict(u.window, cs[0].time)), cs[1..]);
    }
  }

  /** A batch keeps the window within its capacity. */
  lemma {:induction false} RecordBatchBounded(t: Tally, cs: seq<Completion>)
    requires |t.window| <= Capacity
    ensures |RecordBatch(t, cs).window| <= Capacity
    decreases |cs|
  {
    if cs != [] {
      var u := Record(t, cs[0].result, cs[0].time);
      RecordBounds(t, cs[0].result, cs[0].time);
      RecordBatchBounded(u.(window := Evict(u.window, cs[0].time)), cs[1..]);
    }
  }
}
