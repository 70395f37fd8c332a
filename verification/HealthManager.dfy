/**
 Recovery backoff, the scheduling gate and the jittered scheduler
 (internal/health/manager.go, internal/health/scheduler.go).

 Durations are nanoseconds as unbounded integers; the multiplier is a real number and
 each product is truncated, as the conversion to time.Duration does.
 */
module HealthManager {
  import opened Base
  import opened Config
  import opened HealthStatus
  import opened WorkerPool

  const MILLISECOND: int := 1_000_000

  function Grow(delay: int, multiplier: real): int {
    (delay as real * multiplier).Floor
  }

  /** A growth step is the product, cut to whole nanoseconds. */
  lemma GrowTruncates(delay: int, multiplier: real)
    requires delay >= 0 && multiplier >= 0.0
    ensures Grow(delay, multiplier) as real <= delay as real * multiplier < (Grow(delay, multiplier) + 1) as real
  {
  }

  /** Consecutive failures beyond the one that made the backend unhealthy. */
  function FailuresAfterEjection(failures: nat, t: ThresholdConfig): nat {
    if failures > ToUint32(t.unhealthy) then failures - ToUint32(t.unhealthy) else 0
  }

  /** The delay after `k` growth steps, as the loop computes it. */
  function Delay(delay: int, maximum: int, multiplier: real, k: nat): int
    decreases k
  {
    if k == 0 then if delay > maximum then maximum else delay
    else
      var next := Grow(delay, multiplier);
      if next >= maximum || next <= delay then maximum else Delay(next, maximum, multiplier, k - 1)
  }

  function RecoveryDelay(failures: nat, t: ThresholdConfig, b: BackoffConfig): int {
    Delay(b.initialMs * MILLISECOND, b.maxMs * MILLISECOND, b.multiplier, FailuresAfterEjection(failures, t))
  }

  method RecoveryBackoff(status: Status, h: HealthCheckConfig) returns (d: int)
    ensures d == RecoveryDelay(status.failures, h.thresholds, h.backoff)
  {
    var delay := h.backoff.initialMs * MILLISECOND;
    var maximum := h.backoff.maxMs * MILLISECOND;
    var failuresAfterEjection := 0;
    var threshold := ToUint32(h.thresholds.unhealthy);
    if status.failures > threshold {
      failuresAfterEjection := status.failures - threshold;
    }
    for i := 0 to failuresAfterEjection
      invariant Delay(delay, maximum, h.backoff.multiplier, failuresAfterEjection - i)
                == RecoveryDelay(status.failures, h.thresholds, h.backoff)
    {
      var next := Grow(delay, h.backoff.multiplier);
      if next >= maximum || next <= delay {
        return maximum;
      }
      delay := next;
    }
    if delay > maximum {
      return maximum;
    }
    return delay;
  }

  // ----- The ideal: repeated truncated multiplication, capped

  function Iterate(delay: int, multiplier: real, k: nat): int
    decreases k
  {
    if k == 0 then delay else Iterate(Grow(delay, multiplier), multiplier, k - 1)
  }

  function Min(a: int, b: int): int {
    if a <= b then a else b
  }

  /** A multiplier so close to 1 that truncation swallows the growth of the initial delay. */
  predicate Stuck(delay: int, multiplier: real) {
    delay as real * multiplier < delay as real + 1.0
  }

  lemma GrowIsStuck(delay: int, multiplier: real)
    requires multiplier >= 1.0 && delay > 0
    ensures Grow(delay, multiplier) >= delay
    ensures Grow(delay, multiplier) == delay <==> Stuck(delay, multiplier)
  {
    var product := delay as real * multiplier;
    assert product >= delay as real;
  }

  /** Once the delay grows, it keeps growing. */
  lemma GrowthContinues(delay: int, larger: int, multiplier: real)
    requires multiplier >= 1.0 && 0 < delay <= larger && !Stuck(delay, multiplier)
    ensures !Stuck(larger, multiplier) && Grow(larger, multiplier) > larger
  {
    var m := multiplier - 1.0;
    assert delay as real * m >= 1.0;
    assert (larger - delay) as real * m >= 0.0;
    assert larger as real * m == delay as real * m + (larger - delay) as real * m;
    GrowIsStuck(larger, multiplier);
  }

  lemma {:induction false} IterateGrows(delay: int, multiplier: real, k: nat)
    requires multiplier >= 1.0 && delay > 0 && !Stuck(delay, multiplier)
    ensures Iterate(delay, multiplier, k) >= delay + k
    decreases k
  {
    if k > 0 {
      GrowIsStuck(delay, multiplier);
      GrowthContinues(delay, Grow(delay, multiplier), multiplier);
      IterateGrows(Grow(delay, multiplier), multiplier, k - 1);
    }
  }

  /** While it grows, the loop computes the ideal. */
  lemma {:induction false} DelayIsIdeal(delay: int, maximum: int, multiplier: real, k: nat)
    requires multiplier >= 1.0 && 0 < delay <= maximum && !Stuck(delay, multiplier)
    ensures Delay(delay, maximum, multiplier, k) == Min(maximum, Iterate(delay, multiplier, k))
    decreases k
  {
    if k > 0 {
      var next := Grow(delay, multiplier);
      GrowthContinues(delay, delay, multiplier);
      GrowthContinues(delay, next, multiplier);
      IterateGrows(next, multiplier, k - 1);
      if next < maximum {
        DelayIsIdeal(next, maximum, multiplier, k - 1);
      }
    }
  }

  lemma DelayWhenStuck(delay: int, maximum: int, multiplier: real, k: nat)
    requires multiplier >= 1.0 && 0 < delay <= maximum && Stuck(delay, multiplier)
    ensures Delay(delay, maximum, multiplier, k) == if k == 0 then delay else maximum
    ensures Iterate(delay, multiplier, k) == delay
    decreases k
  {
    GrowIsStuck(delay, multiplier);
    if k > 0 {
      DelayWhenStuck(delay, maximum, multiplier, k - 1);
    }
  }

  /**
   The backoff equals the capped ideal for every number of failures exactly when the first
   growth step survives truncation (or there is nothing to grow into).  Multiplier 1 fails
   it: one failure past the threshold already waits the maximum.
   */
  lemma BackoffIsIdealExactly(delay: int, maximum: int, multiplier: real)
    requires multiplier >= 1.0 && 0 < delay <= maximum
    ensures (forall k: nat :: Delay(delay, maximum, multiplier, k) == Min(maximum, Iterate(delay, multiplier, k)))
            <==> !Stuck(delay, multiplier) || delay == maximum
  {
    hide Delay, Iterate, Stuck;
    if !Stuck(delay, multiplier) {
      forall k: nat ensures Delay(delay, maximum, multiplier, k) == Min(maximum, Iterate(delay, multiplier, k)) {
        DelayIsIdeal(delay, maximum, multiplier, k);
      }
    } else {
      forall k: nat
        ensures Delay(delay, maximum, multiplier, k) == if k == 0 then delay else maximum
        ensures Iterate(delay, multiplier, k) == delay
      {
        DelayWhenStuck(delay, maximum, multiplier, k);
      }
      if delay == maximum {
        assert forall k: nat :: Delay(delay, maximum, multiplier, k) == Min(maximum, Iterate(delay, multiplier, k));
      } else {
        assert Delay(delay, maximum, multiplier, 1) != Min(maximum, Iterate(delay, multiplier, 1));
      }
    }
  }

  function Pow(m: nat, k: nat): nat {
    if k == 0 then 1 else m * Pow(m, k - 1)
  }

  lemma PowerAndMinimum(m: nat, k: nat, a: int, b: int)
    ensures Pow(m, 0) == 1 && Pow(m, k + 1) == m * Pow(m, k)
    ensures Min(a, b) <= a && Min(a, b) <= b && (Min(a, b) == a || Min(a, b) == b)
  {
  }

  lemma {:induction false} IterateIsPower(delay: int, m: nat, k: nat)
    ensures Iterate(delay, m as real, k) == delay * Pow(m, k)
    decreases k
  {
    if k > 0 {
      assert Grow(delay, m as real) == delay * m;
      IterateIsPower(delay * m, m, k - 1);
      assert delay * m * Pow(m, k - 1) == delay * (m * Pow(m, k - 1));
    }
  }

  /** For a whole multiplier of at least 2: exactly min(max, initial * m^k). */
  lemma {:induction false} BackoffIsGeometric(failures: nat, t: ThresholdConfig, b: BackoffConfig, m: nat)
    requires ValidBackoff(b) && b.enabled && b.multiplier == m as real && m >= 2
    ensures RecoveryDelay(failures, t, b) ==
            Min(b.maxMs * MILLISECOND, b.initialMs * MILLISECOND * Pow(m, FailuresAfterEjection(failures, t)))
  {
    var delay := b.initialMs * MILLISECOND;
    assert delay as real * b.multiplier >= delay as real * 2.0;
    DelayIsIdeal(delay, b.maxMs * MILLISECOND, b.multiplier, FailuresAfterEjection(failures, t));
    IterateIsPower(delay, m, FailuresAfterEjection(failures, t));
  }

  lemma {:induction false} DelayBounds(delay: int, maximum: int, multiplier: real, k: nat)
    requires 0 < delay <= maximum
    ensures delay <= Delay(delay, maximum, multiplier, k) <= maximum
    ensures Delay(delay, maximum, multiplier, k) <= Delay(delay, maximum, multiplier, k + 1)
    decreases k
  {
    var next := Grow(delay, multiplier);
    if k > 0 && delay < next < maximum {
      DelayBounds(next, maximum, multiplier, k - 1);
    }
  }

  /** With valid settings the delay stays within its bounds and never shrinks as failures accumulate. */
  lemma BackoffBoundsAndMonotone(failures: nat, t: ThresholdConfig, b: BackoffConfig)
    requires ValidBackoff(b) && b.enabled
    ensures b.initialMs * MILLISECOND <= RecoveryDelay(failures, t, b) <= b.maxMs * MILLISECOND
    ensures RecoveryDelay(failures, t, b) <= RecoveryDelay(failures + 1, t, b)
  {
    DelayBounds(b.initialMs * MILLISECOND, b.maxMs * MILLISECOND, b.multiplier, FailuresAfterEjection(failures, t));
  }

  /**
   The counter the backoff reads is the failure run modulo 2^32, so over true run lengths
   the delay can shrink only at the step that wraps the counter to zero.
   */
  lemma BackoffAlongRun(run: nat, t: ThresholdConfig, b: BackoffConfig)
    requires ValidBackoff(b) && b.enabled
    ensures (run + 1) % WRAP != 0 ==> RecoveryDelay(run % WRAP, t, b) <= RecoveryDelay((run + 1) % WRAP, t, b)
    ensures (run + 1) % WRAP == 0 ==> RecoveryDelay((run + 1) % WRAP, t, b) == b.initialMs * MILLISECOND
  {
    NextWrapped(run);
    hide RecoveryDelay, ValidBackoff;
    if (run + 1) % WRAP == 0 {
      NoFailuresNoGrowth(t, b);
    } else {
      BackoffBoundsAndMonotone(run % WRAP, t, b);
    }
  }

  lemma NextWrapped(run: nat)
    ensures (run + 1) % WRAP == if run % WRAP == WRAP - 1 then 0 else run % WRAP + 1
  {
  }

  lemma NoFailuresNoGrowth(t: ThresholdConfig, b: BackoffConfig)
    requires ValidBackoff(b) && b.enabled
    ensures RecoveryDelay(0, t, b) == b.initialMs * MILLISECOND
  {
  }

  // ----- The scheduling gate

  function ShouldScheduleProbe(s: Status, h: HealthCheckConfig, now: int): bool {
    if !h.backoff.enabled || s.health != Unhealthy then true
    else if s.lastHealthCheck.None? then true
    else !(now < s.lastHealthCheck.value + RecoveryDelay(s.failures, h.thresholds, h.backoff))
  }

  /** Until the first delay after the last check is over, the gate is closed for an unhealthy backend. */
  lemma GateIsClosed(s: Status, h: HealthCheckConfig, now: int)
    requires h.backoff.enabled && ValidBackoff(h.backoff)
    ensures s.health == Unhealthy && s.lastHealthCheck.Some? && now < s.lastHealthCheck.value + h.backoff.initialMs * 1_000_000 ==>
              !ShouldScheduleProbe(s, h, now)
  {
    BackoffBoundsAndMonotone(s.failures, h.thresholds, h.backoff);
    hide RecoveryDelay;
  }

  /** The delay before the next pass; `draw` is the random value in [0, 2 * jitter]. */
  function NextDelay(interval: int, jitter: int, draw: int): int {
    if jitter <= 0 then interval else interval + (draw - jitter)
  }

  /** With a valid schedule every delay is strictly positive and within the jitter of the interval. */
  lemma NextDelayBounds(s: ScheduleConfig, draw: int)
    requires ValidSchedule(s) && 0 <= draw < 2 * (s.jitterMs * MILLISECOND) + 1
    ensures var d := NextDelay(s.intervalMs * MILLISECOND, s.jitterMs * MILLISECOND, draw);
            && 0 < d && (s.intervalMs - s.jitterMs) * MILLISECOND <= d <= (s.intervalMs + s.jitterMs) * MILLISECOND
            && d == (s.intervalMs - s.jitterMs) * 1_000_000 + draw
  {
  }

  /** Pass times produced by the scheduler: each pass waits one jittered delay after the previous one. */
  ghost predicate Passes(times: seq<int>, s: ScheduleConfig) {
    forall i :: 0 < i < |times| ==>
      exists draw :: 0 <= draw < 2 * (s.jitterMs * MILLISECOND) + 1 &&
        times[i] == times[i - 1] + NextDelay(s.intervalMs * MILLISECOND, s.jitterMs * MILLISECOND, draw)
  }

  lemma PassesAdvance(times: seq<int>, s: ScheduleConfig, i: nat)
    requires ValidSchedule(s) && Passes(times, s) && 0 < i < |times|
    ensures times[i - 1] < times[i] <= times[i - 1] + (s.intervalMs + s.jitterMs) * MILLISECOND
  {
    var draw :| 0 <= draw < 2 * (s.jitterMs * MILLISECOND) + 1 &&
      times[i] == times[i - 1] + NextDelay(s.intervalMs * MILLISECOND, s.jitterMs * MILLISECOND, draw);
    NextDelayBounds(s, draw);
  }

  /** The first pass at or after `deadline` comes within one maximal delay of it. */
  lemma {:induction false} PassAfterDeadline(times: seq<int>, s: ScheduleConfig, deadline: int) returns (i: nat)
    requires ValidSchedule(s) && Passes(times, s)
    requires times != [] && times[0] <= deadline <= times[|times| - 1]
    ensures i < |times| && deadline <= times[i] <= deadline + (s.intervalMs + s.jitterMs) * MILLISECOND
  {
    i := 0;
    while times[i] < deadline
      invariant i < |times| && times[i] <= deadline + (s.intervalMs + s.jitterMs) * MILLISECOND
      decreases |times| - i
    {
      i := i + 1;
      PassesAdvance(times, s, i);
    }
  }

  /**
   No starvation.  A backend was checked actively at `check` and is then observed only
   passively: before pass `i` it has seen the results `seen[i]`.  Whatever they are, some
   pass no later than MaxMs + interval + jitter after the check finds the gate open.
   */
  lemma NoStarvation(h: HealthCheckConfig, text: Text, s: Status, check: int, seen: seq<seq<Outcome>>, times: seq<int>)
    requires h.enabled && h.backoff.enabled && ValidHealthCheck(text, h) && s.lastHealthCheck == Some(check)
    requires |seen| == |times| && forall i, k :: 0 <= i < |seen| && 0 <= k < |seen[i]| ==> !seen[i][k].active
    requires Passes(times, h.schedule) && times != []
    requires times[0] <= check + h.backoff.maxMs * MILLISECOND <= times[|times| - 1]
    ensures exists i :: 0 <= i < |times| &&
              times[i] <= check + (h.backoff.maxMs + h.schedule.intervalMs + h.schedule.jitterMs) * MILLISECOND &&
              ShouldScheduleProbe(AppliedAll(s, seen[i], h.thresholds), h, times[i])
  {
    var i := PassAfterDeadline(times, h.schedule, check + h.backoff.maxMs * MILLISECOND);
    var now := AppliedAll(s, seen[i], h.thresholds);
    PassiveKeepsCheckTime(s, seen[i], h.thresholds);
    BackoffBoundsAndMonotone(now.failures, h.thresholds, h.backoff);
    assert ShouldScheduleProbe(now, h, times[i]);
  }

  // ----- One pass of the scheduling loop

  /** The backends a pass submits: enabled, with a status, and past their gate. */
  predicate Due(b: Option<BackendConfig>, statuses: map<string, Status>, h: HealthCheckConfig, now: int) {
    b.Some? && b.value.enabled && b.value.id in statuses && ShouldScheduleProbe(statuses[b.value.id], h, now)
  }

  /**
   A pass during which nobody else moves the pool; `choices` are those of select.  Unless
   the pool is shutting down, every due backend is then pending or the queue is full; in
   any case what was pending or queued stays, and nothing that is not due was submitted.
   */
  method SchedulingPass(backends: seq<Option<BackendConfig>>, statuses: map<string, Status>, h: HealthCheckConfig,
                        now: int, pool: BoundedWorkerPool, choices: seq<bool>)
    requires pool.mu == Free && |choices| == |backends|
    modifies pool
    ensures pool.mu == Free && pool.stopped == old(pool.stopped) && pool.ctxDone == old(pool.ctxDone)
    ensures old(pool.pending) <= pool.pending && old(pool.jobs) <= pool.jobs
    ensures !pool.stopped && !pool.ctxDone ==>
              forall i :: 0 <= i < |backends| && Due(backends[i], statuses, h, now) && backends[i].value.id != "" ==>
                backends[i].value.id in pool.pending || |pool.jobs| >= pool.queueSize
    ensures forall id :: id in pool.pending && id !in old(pool.pending) ==>
              exists i :: 0 <= i < |backends| && Due(backends[i], statuses, h, now) && backends[i].value.id == id
    // An unhealthy backend is not submitted before its first delay is over.
    ensures h.backoff.enabled && ValidBackoff(h.backoff) ==>
              forall id :: id in pool.pending && id !in old(pool.pending) ==>
                id in statuses && !(statuses[id].health == Unhealthy && statuses[id].lastHealthCheck.Some? &&
                                    now < statuses[id].lastHealthCheck.value + h.backoff.initialMs * 1_000_000)
  {
    forall id | h.backoff.enabled && ValidBackoff(h.backoff) && id in statuses {
      GateIsClosed(statuses[id], h, now);
    }
    for k := 0 to |backends|
      invariant pool.mu == Free && pool.stopped == old(pool.stopped) && pool.ctxDone == old(pool.ctxDone)
      invariant old(pool.pending) <= pool.pending && old(pool.jobs) <= pool.jobs
      invariant !pool.stopped && !pool.ctxDone ==>
                  forall i :: 0 <= i < k && Due(backends[i], statuses, h, now) && backends[i].value.id != "" ==>
                    backends[i].value.id in pool.pending || |pool.jobs| >= pool.queueSize
      invariant forall id :: id in pool.pending && id !in old(pool.pending) ==>
                  exists i :: 0 <= i < k && Due(backends[i], statuses, h, now) && backends[i].value.id == id
    {
      hide ShouldScheduleProbe, Run;
      if !Due(backends[k], statuses, h, now) {
        continue;
      }
      ghost var before := pool.View();
      var w := pool.Receiver();
      var ok := pool.Submit(backends[k].value.id, choices[k], w);
      assert ok ==> pool.pending == before.pending + {backends[k].value.id} && before.jobs <= pool.jobs;
      assert !ok ==> pool.pending == before.pending && pool.jobs == before.jobs;
    }
  }
}
