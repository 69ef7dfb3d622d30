/** The sliding error window of `RestoreManager`: a deque of
    `(timestamp, is_5xx)` pairs, bounded to 100 entries, whose stale front
    entries are evicted when the error rate is read. */
module ErrorWindow {

  /** One recorded failure: when it happened and whether it was server-side. */
  datatype Event = Event(time: real, isServerError: bool)

  /** `window_duration`, in seconds. */
  const WindowDuration: real := 10.0

  /** `maxlen` of the deque. */
  const Capacity: nat := 100

  /** An event is stale at `now` once it is more than `WindowDuration` old. */
  predicate Stale(e: Event, now: real) {
    now - e.time > WindowDuration
  }

  /** No entry of the window is later than `now`. */
  predicate NotAfter(w: seq<Event>, now: real) {
    forall i :: 0 <= i < |w| ==> w[i].time <= now
  }

  /** Timestamps never decrease from the front of the window to its back. */
  predicate Chronological(w: seq<Event>) {
    forall i, j :: 0 <= i < j < |w| ==> w[i].time <= w[j].time
  }

  /** The `popleft` loop of `get_error_rate`: drops front entries while the
      front one is stale. */
  function Evict(w: seq<Event>, now: real): (r: seq<Event>)
    ensures |r| <= |w|
    decreases |w|
  {
    if |w| > 0 && Stale(w[0], now) then Evict(w[1..], now) else w
  }

  /** What eviction leaves is the longest suffix of the window whose front
      is fresh and before which everything is stale. */
  lemma {:induction false} EvictSuffix(w: seq<Event>, now: real)
    ensures var r := Evict(w, now);
      r == w[|w| - |r|..] &&
      (r != [] ==> !Stale(r[0], now)) &&
      forall i :: 0 <= i < |w| - |r| ==> Stale(w[i], now)
    decreases |w|
  {
    if |w| > 0 && Stale(w[0], now) {
      EvictSuffix(w[1..], now);
      var r := Evict(w[1..], now);
      assert forall i :: 1 <= i < |w| - |r| ==> w[i] == w[1..][i - 1];
    }
  }

  /** `sum(1 for t, is_5xx in window if is_5xx and now - t <= duration)`. */
  function RecentServerErrors(w: seq<Event>, now: real): (n: nat)
    ensures n <= |w|
  {
    if w == [] then 0
    else (if w[0].isServerError && !Stale(w[0], now) then 1 else 0) + RecentServerErrors(w[1..], now)
  }

  /** The value `get_error_rate` returns for an already evicted window:
      0.0 for an empty window, else the share of fresh server-side failures
      among all entries. */
  function Rate(w: seq<Event>, now: real): (r: real)
    ensures 0.0 <= r <= 1.0
  {
    if w == [] then 0.0 else RecentServerErrors(w, now) as real / |w| as real
  }

  /** `error_window.append(e)` on a deque with `maxlen` 100: the event goes at
      the back and, when the deque is full, the oldest entry falls off. */
  function Push(w: seq<Event>, e: Event): (r: seq<Event>)
    ensures |r| == if |w| < Capacity then |w| + 1 else Capacity
  {
    var s := w + [e];
    if |s| > Capacity then s[|s| - Capacity..] else s
  }

  /** The pushed event is the newest entry, behind the newest entries the
      window already held. */
  lemma PushContents(w: seq<Event>, e: Event)
    ensures var r := Push(w, e);
      r[|r| - 1] == e && r[..|r| - 1] == w[|w| - (|r| - 1)..]
  {
  }

  /** The rate is positive exactly when the window holds a fresh server-side
      failure. */
  lemma {:induction false} RecentServerErrorsPositive(w: seq<Event>, now: real)
    ensures RecentServerErrors(w, now) > 0 <==>
      exists i :: 0 <= i < |w| && w[i].isServerError && !Stale(w[i], now)
  {
    if w != [] {
      RecentServerErrorsPositive(w[1..], now);
      if exists i :: 0 <= i < |w| && w[i].isServerError && !Stale(w[i], now) {
        var i :| 0 <= i < |w| && w[i].isServerError && !Stale(w[i], now);
        if i > 0 {
          assert w[1..][i - 1] == w[i];
        }
      }
      if exists i :: 0 <= i < |w[1..]| && w[1..][i].isServerError && !Stale(w[1..][i], now) {
        var i :| 0 <= i < |w[1..]| && w[1..][i].isServerError && !Stale(w[1..][i], now);
        assert w[i + 1] == w[1..][i];
      }
    }
  }

  lemma RatePositiveIff(w: seq<Event>, now: real)
    ensures Rate(w, now) > 0.0 <==>
      exists i :: 0 <= i < |w| && w[i].isServerError && !Stale(w[i], now)
  {
    RecentServerErrorsPositive(w, now);
  }

  /** A stale event never adds to the count, wherever it sits in the window. */
  lemma {:induction false} StaleEventNotCounted(w1: seq<Event>, e: Event, w2: seq<Event>, now: real)
    requires Stale(e, now)
    ensures RecentServerErrors(w1 + [e] + w2, now) == RecentServerErrors(w1 + w2, now)
  {
    if w1 == [] {
      var s := [e] + w2;
      assert w1 + [e] + w2 == s && w1 + w2 == w2;
      assert s[0] == e && s[1..] == w2;
    } else {
      StaleEventNotCounted(w1[1..], e, w2, now);
      assert (w1 + [e] + w2)[1..] == w1[1..] + [e] + w2;
      assert (w1 + w2)[1..] == w1[1..] + w2;
    }
  }

  /** In a chronological window, eviction leaves only fresh events: an event
      recorded at `t0` is gone from the window once it is queried after
      `t0 + WindowDuration`. */
  lemma EvictedWindowIsFresh(w: seq<Event>, now: real)
    requires Chronological(w)
    ensures forall i :: 0 <= i < |Evict(w, now)| ==> !Stale(Evict(w, now)[i], now)
  {
    var r := Evict(w, now);
    EvictSuffix(w, now);
    forall i | 0 <= i < |r| ensures !Stale(r[i], now) {
      assert r[0] == w[|w| - |r|] && r[i] == w[|w| - |r| + i];
    }
  }

  /** Number of server-side failures in the window, fresh or not. */
  function ServerErrors(w: seq<Event>): nat {
    if w == [] then 0 else (if w[0].isServerError then 1 else 0) + ServerErrors(w[1..])
  }

  /** Once every entry is fresh (a chronological window after eviction), the
      rate is the plain share of server-side failures. */
  lemma {:induction false} FreshCountIsServerErrorCount(w: seq<Event>, now: real)
    requires forall i :: 0 <= i < |w| ==> !Stale(w[i], now)
    ensures RecentServerErrors(w, now) == ServerErrors(w)
  {
    if w != [] {
      assert forall i :: 0 <= i < |w| - 1 ==> w[1..][i] == w[i + 1];
      FreshCountIsServerErrorCount(w[1..], now);
    }
  }

  /** Evicting earlier and then again later is the same as evicting once
      later: the extra reads of the rate for display do not change what the
      controller sees. */
  lemma {:induction false} EvictLater(w: seq<Event>, t1: real, t2: real)
    requires t1 <= t2
    ensures Evict(Evict(w, t1), t2) == Evict(w, t2)
    decreases |w|
  {
    if |w| > 0 && Stale(w[0], t1) {
      EvictLater(w[1..], t1, t2);
    }
  }

  /** Eviction passes over any prefix of stale entries. */
  lemma {:induction false} EvictStalePrefix(s: seq<Event>, j: nat, now: real)
    requires j <= |s|
    requires forall i :: 0 <= i < j ==> Stale(s[i], now)
    ensures Evict(s, now) == Evict(s[j..], now)
    decreases j
  {
    if j > 0 {
      assert Stale(s[0], now);
      EvictStalePrefix(s[1..], j - 1, now);
      assert s[1..][j - 1..] == s[j..];
    }
  }

  /** A read of the error rate between two appends changes nothing that a
      later read sees: evicting at `t1`, appending, and evicting at `t2 >= t1`
      leaves the same window as appending and evicting at `t2` alone. The
      extra reads made for display therefore do not change what the
      controller sees. */
  lemma EvictPushEvict(w: seq<Event>, e: Event, t1: real, t2: real)
    requires t1 <= t2 && |w| <= Capacity
    ensures Evict(Push(Evict(w, t1), e), t2) == Evict(Push(w, e), t2)
  {
    var v := Evict(w, t1);
    var k := |w| - |v|;
    EvictSuffix(w, t1);
    if k > 0 {
      assert forall i :: 0 <= i < k ==> Stale(w[i], t1);
      PushAfterStalePrefix(w, e, k, t2);
    } else {
      assert v == w;
    }
  }

  /** Dropping a prefix that is stale at `t2` before appending leaves the
      same window at `t2` as appending to the whole window. */
  lemma PushAfterStalePrefix(w: seq<Event>, e: Event, k: nat, t2: real)
    requires 0 < k <= |w| <= Capacity
    requires forall i :: 0 <= i < k ==> Stale(w[i], t2)
    ensures Evict(Push(w[k..], e), t2) == Evict(Push(w, e), t2)
  {
    var all := w + [e];
    assert w[k..] + [e] == all[k..];
    assert Push(w[k..], e) == all[k..];
    var d := if |all| > Capacity then 1 else 0;
    assert Push(w, e) == all[d..];
    forall i | 0 <= i < k - d ensures Stale(all[d..][i], t2) {
      assert all[d..][i] == all[i + d] == w[i + d];
    }
    EvictStalePrefix(all[d..], k - d, t2);
    assert all[d..][k - d..] == all[k..];
  }

  /** Appending an event no older than the newest keeps the window
      chronological. */
  lemma PushKeepsChronological(w: seq<Event>, e: Event)
    requires Chronological(w)
    requires forall i :: 0 <= i < |w| ==> w[i].time <= e.time
    ensures Chronological(Push(w, e))
  {
    var s := w + [e];
    assert Chronological(s);
  }

  /** Appending an event recorded at `now` to a window of events no later
      than `now` keeps it in time order and no later than `now`. */
  lemma PushAtNow(w: seq<Event>, b: bool, now: real)
    requires Chronological(w) && NotAfter(w, now)
    ensures Chronological(Push(w, Event(now, b))) && NotAfter(Push(w, Event(now, b)), now)
  {
    var e := Event(now, b);
    PushKeepsChronological(w, e);
    var s := w + [e];
    forall i | 0 <= i < |Push(w, e)| ensures Push(w, e)[i].time <= now {
      if |s| > Capacity {
        assert Push(w, e)[i] == s[i + |s| - Capacity];
      } else {
        assert Push(w, e)[i] == s[i];
      }
    }
  }

  /** Eviction keeps the window chronological. */
  lemma EvictKeepsChronological(w: seq<Event>, now: real)
    requires Chronological(w)
    ensures Chronological(Evict(w, now))
  {
    var r := Evict(w, now);
    EvictSuffix(w, now);
    SuffixChronological(w, |w| - |r|);
  }

  lemma SuffixChronological(w: seq<Event>, k: nat)
    requires Chronological(w) && k <= |w|
    ensures Chronological(w[k..])
  {
    forall i, j | 0 <= i < j < |w| - k ensures w[k..][i].time <= w[k..][j].time {
      assert w[k..][i] == w[k + i] && w[k..][j] == w[k + j];
    }
  }
}
