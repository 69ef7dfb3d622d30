/** `RestoreManager` itself: the object whose fields the controller loop and
    the restore workers update in place. Each method is proved against the
    value-level transition it performs (`Controller.Tick`,
    `Bookkeeping.Record`, `Bookkeeping.RecordBatch`). */
module Manager {
  import opened Classify
  import opened ErrorWindow
  import opened Controller
  import opened Bookkeeping

  class RestoreManager {
    var restoredCount: nat
    var failedCount: nat
    var errorWindow: seq<Event>
    var currentConcurrency: nat
    var lastAdjustment: real
    var lastErrorTime: real

    /** The ceiling stays within its bounds and the window within its
        capacity. */
    ghost predicate Valid()
      reads this
    {
      ControlValid(Control())
    }

    /** The fields a controller tick reads and writes. */
    function Control(): ControlState
      reads this
    {
      ControlState(errorWindow, currentConcurrency, lastAdjustment)
    }

    /** The fields `restore_item` reads and writes. */
    function Counts(): Tally
      reads this
    {
      Tally(restoredCount, failedCount, errorWindow, lastErrorTime)
    }

    /** `__init__` at time `now`, leaving out the credential and the
        semaphore: no restores, no failures, an empty window, the initial
        ceiling, last adjustment now and no server error yet (time 0). */
    constructor (now: real)
      ensures Valid()
      ensures restoredCount == 0 && failedCount == 0 && errorWindow == []
      ensures currentConcurrency == InitialConcurrency
      ensures lastAdjustment == now && lastErrorTime == 0.0
    {
      restoredCount, failedCount := 0, 0;
      errorWindow := [];
      currentConcurrency := InitialConcurrency;
      lastAdjustment := now;
      lastErrorTime := 0.0;
    }

    /** `get_error_rate` at time `now`: pops stale entries off the front of
        the window, then returns the share of fresh server-side failures. */
    method ErrorRate(now: real) returns (rate: real)
      modifies this`errorWindow
      ensures errorWindow == Evict(old(errorWindow), now)
      ensures rate == Rate(errorWindow, now) && 0.0 <= rate <= 1.0
      ensures Chronological(old(errorWindow)) ==>
        Chronological(errorWindow) && forall i :: 0 <= i < |errorWindow| ==> !Stale(errorWindow[i], now)
    {
      if Chronological(errorWindow) {
        EvictKeepsChronological(errorWindow, now);
        EvictedWindowIsFresh(errorWindow, now);
      }
      while |errorWindow| > 0 && Stale(errorWindow[0], now)
        invariant Evict(errorWindow, now) == Evict(old(errorWindow), now)
        decreases |errorWindow|
      {
        errorWindow := errorWindow[1..];
      }
      if |errorWindow| == 0 {
        return 0.0;
      }
      var recent := RecentServerErrors(errorWindow, now);
      rate := recent as real / |errorWindow| as real;
    }

    /** One pass of the `adjust_concurrency` loop, woken at time `now`: skip
        within a second of the last adjustment; otherwise read the error
        rate, back off above the threshold or recover once the last server
        error is old enough (writing the ceiling only when it changes), and
        record the adjustment time. */
    method AdjustmentTick(now: real)
      requires Valid()
      modifies this`errorWindow, this`currentConcurrency, this`lastAdjustment
      ensures Valid()
      ensures Control() == Tick(old(Control()), now, lastErrorTime)
    {
      ghost var before := Control();
      if now - lastAdjustment < AdjustInterval {
        TickSkips(before, now, lastErrorTime);
        return;
      }
      var errorRate := ErrorRate(now);
      var sinceError := now - lastErrorTime;
      if errorRate > BackoffThreshold {
        var newConcurrency := Backoff(currentConcurrency);
        if newConcurrency != currentConcurrency {
          currentConcurrency := newConcurrency;
        }
      } else if sinceError > RecoveryInterval && currentConcurrency < MaxConcurrency {
        var newConcurrency := Recover(currentConcurrency);
        if newConcurrency != currentConcurrency {
          currentConcurrency := newConcurrency;
        }
      }
      lastAdjustment := now;
      TickAdjusts(before, now, lastErrorTime);
      TickKeepsValid(before, now, lastErrorTime);
    }

    /** The `adjust_concurrency` loop over the times it wakes up at, with no
        restore finishing in between. */
    method AdjustConcurrency(times: seq<real>)
      requires Valid()
      modifies this`errorWindow, this`currentConcurrency, this`lastAdjustment
      ensures Valid()
      ensures Control() == Ticks(old(Control()), times, lastErrorTime)
    {
      for i := 0 to |times|
        invariant Valid()
        invariant Ticks(old(Control()), times, lastErrorTime) == Ticks(Control(), times[i..], lastErrorTime)
      {
        assert times[i..][1..] == times[i + 1..];
        AdjustmentTick(times[i]);
      }
    }

    /** `restore_item` once the restore call has returned `result` at time
        `now`: true exactly for a successful restore. */
    method RestoreItem(result: RestoreResult, now: real) returns (ok: bool)
      requires Valid()
      modifies this`restoredCount, this`failedCount, this`errorWindow, this`lastErrorTime
      ensures Valid()
      ensures ok <==> result.Restored?
      ensures Counts() == Record(old(Counts()), result, now)
      ensures Chronological(old(errorWindow)) && NotAfter(old(errorWindow), now) ==>
        Chronological(errorWindow) && NotAfter(errorWindow, now)
    {
      if Chronological(errorWindow) && NotAfter(errorWindow, now) {
        RecordKeepsChronological(Counts(), result, now);
      }
      match result
      case Restored =>
        restoredCount := restoredCount + 1;
        return true;
      case Failed(errorText) =>
        if !IsConflict(errorText) {
          failedCount := failedCount + 1;
          var is5xx := IsServerError(errorText);
          errorWindow := Push(errorWindow, Event(now, is5xx));
          if is5xx {
            lastErrorTime := now;
          }
        }
        return false;
    }

    /** `process_batch` with the batch's completions in the order they
        finish: each is recorded, then the progress display reads the error
        rate. */
    method ProcessBatch(completions: seq<Completion>)
      requires Valid()
      modifies this`restoredCount, this`failedCount, this`errorWindow, this`lastErrorTime
      ensures Valid()
      ensures Counts() == RecordBatch(old(Counts()), completions)
      ensures restoredCount == old(restoredCount) + CountKind(completions, Success)
      ensures failedCount == old(failedCount) + CountKind(completions, ServerFailure) + CountKind(completions, OtherFailure)
    {
      for i := 0 to |completions|
        invariant Valid()
        invariant RecordBatch(old(Counts()), completions) == RecordBatch(Counts(), completions[i..])
      {
        assert completions[i..][1..] == completions[i + 1..];
        var _ := RestoreItem(completions[i].result, completions[i].time);
        var _ := ErrorRate(completions[i].time);
      }
      RecordBatchCounts(old(Counts()), completions);
    }
  }
}
