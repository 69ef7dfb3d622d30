/** The arithmetic of one tick of `RestoreManager.adjust_concurrency`:
    multiplicative decrease when more than a tenth of the window is
    server-side failures, multiplicative increase after a quiet recovery
    interval, and the bounds the ceiling never leaves. */
module Controller {
  import opened ErrorWindow

  /** `min_concurrency`, `max_concurrency` and `initial_concurrency`. */
  const MinConcurrency: nat := 10
  const MaxConcurrency: nat := 600
  const InitialConcurrency: nat := 100

  /** A tick is skipped when less than this many seconds have passed since
      the last adjustment. */
  const AdjustInterval: real := 1.0

  /** `recovery_interval`, in seconds. */
  const RecoveryInterval: real := 5.0

  /** Error rates above this trigger a decrease. */
  const BackoffThreshold: real := 0.1

  predicate InBounds(c: int) {
    MinConcurrency <= c <= MaxConcurrency
  }

  /** `max(int(c * backoff_factor), min_concurrency)` with backoff factor 0.5:
      half the ceiling, rounded down, but never below the minimum. */
  function Backoff(c: nat): (r: nat)
    ensures (r == MinConcurrency && c <= 2 * MinConcurrency + 1) ||
            (r > MinConcurrency && 2 * r <= c <= 2 * r + 1)
  {
    if c / 2 < MinConcurrency then MinConcurrency else c / 2
  }

  /** `min(int(c * recovery_factor), max_concurrency)` with recovery factor
      1.2: six fifths of the ceiling, truncated, but never above the maximum. */
  function Recover(c: nat): (r: nat)
    ensures (r == MaxConcurrency && 6 * c >= 5 * MaxConcurrency) ||
            (r < MaxConcurrency && 5 * r <= 6 * c < 5 * r + 5)
  {
    if c * 6 / 5 > MaxConcurrency then MaxConcurrency else c * 6 / 5
  }

  /** What a tick that is not skipped does to the ceiling. */
  datatype Step = Decrease | Increase | Hold

  /** The branch `adjust_concurrency` takes: a decrease when the error rate
      exceeds the threshold, whatever the time since the last error; an
      increase after more than the recovery interval without a server-side
      error while below the maximum; otherwise nothing. */
  function ChooseStep(rate: real, sinceError: real, c: nat): (s: Step)
    ensures s == Decrease <==> rate > BackoffThreshold
    ensures s == Increase <==> rate <= BackoffThreshold && sinceError > RecoveryInterval && c < MaxConcurrency
  {
    if rate > BackoffThreshold then Decrease
    else if sinceError > RecoveryInterval && c < MaxConcurrency then Increase
    else Hold
  }

  /** The ceiling after a tick that is not skipped. A decrease never raises
      it and lowers it whenever it is above the minimum; an increase never
      lowers it and raises it whenever it is below the maximum; and it stays
      within the bounds. */
  function NextCeiling(c: nat, rate: real, sinceError: real): (r: nat)
    ensures InBounds(c) ==> InBounds(r)
    ensures InBounds(c) && rate > BackoffThreshold ==>
      r <= c && (r == c <==> c == MinConcurrency)
    ensures InBounds(c) && rate <= BackoffThreshold && sinceError > RecoveryInterval ==>
      r >= c && (r == c <==> c == MaxConcurrency)
    ensures rate <= BackoffThreshold && sinceError <= RecoveryInterval ==> r == c
  {
    match ChooseStep(rate, sinceError, c)
    case Decrease => Backoff(c)
    case Increase => Recover(c)
    case Hold => c
  }

  /** For a fixed error rate and time since the last error, a higher ceiling
      never leads to a lower one. */
  lemma NextCeilingMonotone(c: nat, d: nat, rate: real, sinceError: real)
    requires c <= d
    ensures NextCeiling(c, rate, sinceError) <= NextCeiling(d, rate, sinceError)
  {
  }

  /** The ceiling after `k` consecutive ticks that each see an error rate
      above the threshold. */
  function BackoffTicks(c: nat, k: nat): nat
    decreases k
  {
    if k == 0 then c else BackoffTicks(NextCeiling(c, 1.0, 0.0), k - 1)
  }

  /** The ceiling after `k` consecutive ticks with no errors in the window and
      the last server-side error longer than the recovery interval ago. */
  function RecoveryTicks(c: nat, k: nat): nat
    decreases k
  {
    if k == 0 then c else RecoveryTicks(NextCeiling(c, 0.0, RecoveryInterval + 1.0), k - 1)
  }

  lemma {:induction false} BackoffTicksMonotone(c: nat, d: nat, k: nat)
    requires c <= d
    ensures BackoffTicks(c, k) <= BackoffTicks(d, k)
    decreases k
  {
    if k > 0 {
      NextCeilingMonotone(c, d, 1.0, 0.0);
      BackoffTicksMonotone(NextCeiling(c, 1.0, 0.0), NextCeiling(d, 1.0, 0.0), k - 1);
    }
  }

  lemma {:induction false} RecoveryTicksMonotone(c: nat, d: nat, k: nat)
    requires c <= d
    ensures RecoveryTicks(c, k) <= RecoveryTicks(d, k)
    decreases k
  {
    if k > 0 {
      NextCeilingMonotone(c, d, 0.0, RecoveryInterval + 1.0);
      RecoveryTicksMonotone(NextCeiling(c, 0.0, RecoveryInterval + 1.0), NextCeiling(d, 0.0, RecoveryInterval + 1.0), k - 1);
    }
  }

  lemma {:induction false} BackoffTicksInBounds(c: nat, k: nat)
    requires InBounds(c)
    ensures InBounds(BackoffTicks(c, k))
    decreases k
  {
    if k > 0 {
      BackoffTicksInBounds(NextCeiling(c, 1.0, 0.0), k - 1);
    }
  }

  lemma {:induction false} RecoveryTicksInBounds(c: nat, k: nat)
    requires InBounds(c)
    ensures InBounds(RecoveryTicks(c, k))
    decreases k
  {
    if k > 0 {
      RecoveryTicksInBounds(NextCeiling(c, 0.0, RecoveryInterval + 1.0), k - 1);
    }
  }

  /** At the minimum, further high-error ticks leave the ceiling there. */
  lemma {:induction false} BackoffAtMinimum(k: nat)
    ensures BackoffTicks(MinConcurrency, k) == MinConcurrency
    decreases k
  {
    if k > 0 {
      BackoffAtMinimum(k - 1);
    }
  }

  /** At the maximum, further quiet ticks leave the ceiling there. */
  lemma {:induction false} RecoveryAtMaximum(k: nat)
    ensures RecoveryTicks(MaxConcurrency, k) == MaxConcurrency
    decreases k
  {
    if k > 0 {
      RecoveryAtMaximum(k - 1);
    }
  }

  /** From the maximum, six high-error ticks go 300, 150, 75, 37, 18, 10. */
  lemma BackoffFromMaximum(k: nat)
    ensures BackoffTicks(MaxConcurrency, k + 6) == BackoffTicks(MinConcurrency, k)
  {
    assert BackoffTicks(600, k + 6) == BackoffTicks(300, k + 5);
    assert BackoffTicks(300, k + 5) == BackoffTicks(150, k + 4);
    assert BackoffTicks(150, k + 4) == BackoffTicks(75, k + 3);
    assert BackoffTicks(75, k + 3) == BackoffTicks(37, k + 2);
    assert BackoffTicks(37, k + 2) == BackoffTicks(18, k + 1);
    assert BackoffTicks(18, k + 1) == BackoffTicks(10, k + 0);
  }

  /** One quiet tick from below the maximum multiplies by six fifths. */
  lemma RecoveryTick(c: nat, k: nat)
    requires c < MaxConcurrency
    ensures RecoveryTicks(c, k + 1) == RecoveryTicks(Recover(c), k)
  {
  }

  /** From the minimum, 24 quiet ticks go 12, 14, 16, 19, 22, 26, 31, 37,
      44, 52, 62, 74, 88, 105, 126, 151, 181, 217, 260, 312, 374, 448, 537
      and 600. */
  lemma RecoveryFromMinimum(k: nat)
    ensures RecoveryTicks(MinConcurrency, k + 24) == RecoveryTicks(MaxConcurrency, k)
  {
    RecoveryFirstLeg(k + 16);
    RecoverySecondLeg(k + 8);
    RecoveryThirdLeg(k);
  }

  /** Quiet ticks 1 to 8 from the minimum: 12, 14, 16, 19, 22, 26, 31, 37. */
  lemma RecoveryFirstLeg(k: nat)
    ensures RecoveryTicks(10, k + 8) == RecoveryTicks(37, k)
  {
    RecoveryTick(10, k + 7); assert Recover(10) == 12;
    RecoveryTick(12, k + 6); assert Recover(12) == 14;
    RecoveryTick(14, k + 5); assert Recover(14) == 16;
    RecoveryTick(16, k + 4); assert Recover(16) == 19;
    RecoveryTick(19, k + 3); assert Recover(19) == 22;
    RecoveryTick(22, k + 2); assert Recover(22) == 26;
    RecoveryTick(26, k + 1); assert Recover(26) == 31;
    RecoveryTick(31, k + 0); assert Recover(31) == 37;
  }

  /** Quiet ticks 9 to 16: 44, 52, 62, 74, 88, 105, 126, 151. */
  lemma RecoverySecondLeg(k: nat)
    ensures RecoveryTicks(37, k + 8) == RecoveryTicks(151, k)
  {
    RecoveryTick(37, k + 7); assert Recover(37) == 44;
    RecoveryTick(44, k + 6); assert Recover(44) == 52;
    RecoveryTick(52, k + 5); assert Recover(52) == 62;
    RecoveryTick(62, k + 4); assert Recover(62) == 74;
    RecoveryTick(74, k + 3); assert Recover(74) == 88;
    RecoveryTick(88, k + 2); assert Recover(88) == 105;
    RecoveryTick(105, k + 1); assert Recover(105) == 126;
    RecoveryTick(126, k + 0); assert Recover(126) == 151;
  }

  /** Quiet ticks 17 to 24: 181, 217, 260, 312, 374, 448, 537, 600. */
  lemma RecoveryThirdLeg(k: nat)
    ensures RecoveryTicks(151, k + 8) == RecoveryTicks(600, k)
  {
    RecoveryTick(151, k + 7); assert Recover(151) == 181;
    RecoveryTick(181, k + 6); assert Recover(181) == 217;
    RecoveryTick(217, k + 5); assert Recover(217) == 260;
    RecoveryTick(260, k + 4); assert Recover(260) == 312;
    RecoveryTick(312, k + 3); assert Recover(312) == 374;
    RecoveryTick(374, k + 2); assert Recover(374) == 448;
    RecoveryTick(448, k + 1); assert Recover(448) == 537;
    RecoveryTick(537, k + 0); assert Recover(537) == 600;
  }

  /** Under a sustained burst of server-side errors the ceiling reaches the
      minimum within six ticks, from anywhere within the bounds, and stays
      there. */
  lemma BackoffReachesMinimum(c: nat, k: nat)
    requires InBounds(c) && k >= 6
    ensures BackoffTicks(c, k) == MinConcurrency
  {
    BackoffTicksMonotone(c, MaxConcurrency, k);
    BackoffTicksInBounds(c, k);
    BackoffFromMaximum(k - 6);
    BackoffAtMinimum(k - 6);
  }

  /** Once errors stop, the ceiling climbs back to the maximum within 24
      quiet ticks, from anywhere within the bounds, and stays there. */
  lemma RecoveryReachesMaximum(c: nat, k: nat)
    requires InBounds(c) && k >= 24
    ensures RecoveryTicks(c, k) == MaxConcurrency
  {
    RecoveryTicksMonotone(MinConcurrency, c, k);
    RecoveryTicksInBounds(c, k);
    RecoveryFromMinimum(k - 24);
    RecoveryAtMaximum(k - 24);
  }

  /** The part of `RestoreManager` a tick reads and writes: the error window
      (evicted by `get_error_rate`), `current_concurrency` and
      `last_adjustment`. */
  datatype ControlState = ControlState(window: seq<Event>, ceiling: nat, lastAdjustment: real)

  predicate ControlValid(s: ControlState) {
    InBounds(s.ceiling) && |s.window| <= Capacity
  }

  /** One pass of the body of the `while True` loop of `adjust_concurrency`
      at time `now`: skipped within `AdjustInterval` of the last adjustment;
      otherwise the window is evicted, the ceiling moves as `NextCeiling`
      says and the adjustment time becomes `now`. */
  function Tick(s: ControlState, now: real, lastErrorTime: real): ControlState {
    if now - s.lastAdjustment < AdjustInterval then s
    else
      var w := Evict(s.window, now);
      ControlState(w, NextCeiling(s.ceiling, Rate(w, now), now - lastErrorTime), now)
  }

  /** The controller loop over a sequence of wake-up times. */
  function Ticks(s: ControlState, times: seq<real>, lastErrorTime: real): ControlState
    decreases |times|
  {
    if times == [] then s else Ticks(Tick(s, times[0], lastErrorTime), times[1..], lastErrorTime)
  }

  lemma TickSkips(s: ControlState, now: real, lastErrorTime: real)
    requires now - s.lastAdjustment < AdjustInterval
    ensures Tick(s, now, lastErrorTime) == s
  {
  }

  lemma TickAdjusts(s: ControlState, now: real, lastErrorTime: real)
    requires now - s.lastAdjustment >= AdjustInterval
    ensures var w := Evict(s.window, now);
      Tick(s, now, lastErrorTime) == ControlState(w, NextCeiling(s.ceiling, Rate(w, now), now - lastErrorTime), now)
  {
  }

  /** A tick keeps the ceiling within its bounds and the window within its
      capacity, and never moves the adjustment time backwards. */
  lemma TickKeepsValid(s: ControlState, now: real, lastErrorTime: real)
    requires ControlValid(s)
    ensures ControlValid(Tick(s, now, lastErrorTime))
    ensures Tick(s, now, lastErrorTime).lastAdjustment >= s.lastAdjustment
  {
  }

  /** After any sequence of controller ticks the ceiling is still within
      `[MinConcurrency, MaxConcurrency]`. */
  lemma {:induction false} TicksKeepValid(s: ControlState, times: seq<real>, lastErrorTime: real)
    requires ControlValid(s)
    ensures ControlValid(Ticks(s, times, lastErrorTime))
    decreases |times|
  {
    if times != [] {
      TickKeepsValid(s, times[0], lastErrorTime);
      TicksKeepValid(Tick(s, times[0], lastErrorTime), times[1..], lastErrorTime);
    }
  }

  /** The ceiling changes at most once per adjustment interval: a second tick
      less than `AdjustInterval` after one that adjusted changes nothing. */
  lemma DebouncedTick(s: ControlState, t1: real, t2: real, lastErrorTime: real)
    requires t1 - s.lastAdjustment >= AdjustInterval
    requires t2 - t1 < AdjustInterval
    ensures Tick(Tick(s, t1, lastErrorTime), t2, lastErrorTime) == Tick(s, t1, lastErrorTime)
  {
  }

  /** A tick that sees an error rate above the threshold halves the ceiling
      (down to the minimum), whatever the time since the last error. */
  lemma TickBacksOff(s: ControlState, now: real, lastErrorTime: real)
    requires now - s.lastAdjustment >= AdjustInterval
    requires Rate(Evict(s.window, now), now) > BackoffThreshold
    ensures Tick(s, now, lastErrorTime).ceiling == Backoff(s.ceiling)
  {
    TickAdjusts(s, now, lastErrorTime);
  }

  /** A tick that sees an error rate at or below the threshold, more than
      the recovery interval after the last server-side error, raises a
      ceiling below the maximum by a fifth (up to the maximum). */
  lemma TickRecovers(s: ControlState, now: real, lastErrorTime: real)
    requires ControlValid(s) && now - s.lastAdjustment >= AdjustInterval
    requires Rate(Evict(s.window, now), now) <= BackoffThreshold
    requires now - lastErrorTime > RecoveryInterval && s.ceiling < MaxConcurrency
    ensures Tick(s, now, lastErrorTime).ceiling == Recover(s.ceiling) > s.ceiling
  {
    TickAdjusts(s, now, lastErrorTime);
  }

  /** In particular a tick recovers when the window holds no fresh
      server-side failure at all. */
  lemma QuietTickRecovers(s: ControlState, now: real, lastErrorTime: real)
    requires ControlValid(s) && now - s.lastAdjustment >= AdjustInterval
    requires var w := Evict(s.window, now);
      forall i :: 0 <= i < |w| ==> !(w[i].isServerError && !Stale(w[i], now))
    requires now - lastErrorTime > RecoveryInterval && s.ceiling < MaxConcurrency
    ensures Tick(s, now, lastErrorTime).ceiling == Recover(s.ceiling)
  {
    RatePositiveIff(Evict(s.window, now), now);
    TickRecovers(s, now, lastErrorTime);
  }
}
