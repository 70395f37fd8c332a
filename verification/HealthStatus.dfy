/**
 The threshold state machine of a backend's health
 (BackendStatus in internal/proxy/runtime/runtime.go).

 The consecutive-result counters are unsigned 32-bit and wrap around.  `Kind` is the
 declarative specification of the health state over a whole history of results.
 */
module HealthStatus {
  import opened Base
  import opened Config

  const WRAP: nat := 0x1_0000_0000

  datatype Health = Unknown | Healthy | Unhealthy

  /** Go's conversion of an int32 threshold to uint32. */
  function ToUint32(x: int): nat {
    x % WRAP
  }

  /** Increment of a uint32 counter. */
  function Bump(n: nat): nat {
    (n + 1) % WRAP
  }

  lemma BumpWraps(n: nat)
    ensures Bump(n % WRAP) == (n + 1) % WRAP
    ensures n + 1 < WRAP ==> Bump(n) == n + 1
  {
  }

  /** Times are nanoseconds; None is the zero time. */
  datatype Status = Status(
    health: Health,
    failures: nat,
    successes: nat,
    lastError: string,
    lastHealthCheck: Option<int>,
    lastStateChange: Option<int>)

  const FRESH: Status := Status(Unknown, 0, 0, "", None, None)

  /** One probe result (`active`) or passive observation of a proxied request. */
  datatype Outcome = Outcome(healthy: bool, error: Option<string>, at: int, active: bool)

  function Applied(s: Status, o: Outcome, t: ThresholdConfig): Status {
    var checked := if o.active then s.(lastHealthCheck := Some(o.at)) else s;
    var counted :=
      if o.healthy then
        var n := Bump(s.successes);
        checked.(failures := 0, successes := n, lastError := "",
                 health := if n >= ToUint32(t.healthy) then Healthy else s.health)
      else
        var n := Bump(s.failures);
        checked.(successes := 0, failures := n, lastError := if o.error.Some? then o.error.value else s.lastError,
                 health := if n >= ToUint32(t.unhealthy) then Unhealthy else s.health);
    if counted.health != s.health then counted.(lastStateChange := Some(o.at)) else counted
  }

  function MarkedHealthy(s: Status): Status {
    s.(health := Healthy, failures := 0, successes := 0, lastError := "")
  }

  function AppliedAll(s: Status, h: seq<Outcome>, t: ThresholdConfig): Status {
    if h == [] then s else Applied(AppliedAll(s, h[..|h| - 1], t), h[|h| - 1], t)
  }

  // ----- The specification

  /** What validation demands of thresholds, within the range of an int32. */
  predicate ValidThresholds(t: ThresholdConfig) {
    1 <= t.healthy < 0x8000_0000 && 1 <= t.unhealthy < 0x8000_0000
  }

  /** Length of the run of equal results that ends the history. */
  function TrailingRun(h: seq<Outcome>): nat {
    if h == [] then 0
    else if |h| > 1 && h[|h| - 2].healthy == h[|h| - 1].healthy then TrailingRun(h[..|h| - 1]) + 1
    else 1
  }

  function Threshold(t: ThresholdConfig, healthy: bool): int {
    if healthy then t.healthy else t.unhealthy
  }

  function KindOf(healthy: bool): Health {
    if healthy then Healthy else Unhealthy
  }

  /** At index `i`, the run in progress has reached the threshold of its kind. */
  predicate Reached(h: seq<Outcome>, t: ThresholdConfig, i: nat)
    requires i < |h|
  {
    TrailingRun(h[..i + 1]) >= Threshold(t, h[i].healthy)
  }

  /** `state` is the kind of the most recent run that reached its threshold, or `base` if none did. */
  ghost predicate Kind(base: Health, h: seq<Outcome>, t: ThresholdConfig, state: Health) {
    || ((forall i: nat :: i < |h| ==> !Reached(h, t, i)) && state == base)
    || (exists i: nat :: i < |h| && Reached(h, t, i) && state == KindOf(h[i].healthy) &&
          forall j: nat :: i < j < |h| ==> !Reached(h, t, j))
  }

  /** A status that has just been created, reset or marked healthy. */
  predicate Settled(s: Status) {
    s.failures == 0 && s.successes == 0
  }

  lemma {:induction false} CountersAreRuns(s: Status, h: seq<Outcome>, t: ThresholdConfig)
    requires Settled(s)
    ensures h == [] ==> Settled(AppliedAll(s, h, t))
    ensures h != [] && h[|h| - 1].healthy ==>
              AppliedAll(s, h, t).successes == TrailingRun(h) % WRAP && AppliedAll(s, h, t).failures == 0
    ensures h != [] && !h[|h| - 1].healthy ==>
              AppliedAll(s, h, t).failures == TrailingRun(h) % WRAP && AppliedAll(s, h, t).successes == 0
  {
    hide Bump, ToUint32;
    if h != [] {
      var front := h[..|h| - 1];
      CountersAreRuns(s, front, t);
      BumpWraps(TrailingRun(front));
      BumpWraps(0);
    }
  }

  /** A run that has reached its threshold, at its end or before, has decided the state. */
  lemma {:induction false} LongRunDecides(s: Status, h: seq<Outcome>, t: ThresholdConfig)
    requires Settled(s) && ValidThresholds(t) && h != []
    requires TrailingRun(h) >= Threshold(t, h[|h| - 1].healthy)
    ensures AppliedAll(s, h, t).health == KindOf(h[|h| - 1].healthy)
  {
    CountersAreRuns(s, h, t);
    hide Bump;
    if TrailingRun(h) == Threshold(t, h[|h| - 1].healthy) {
      assert TrailingRun(h) % WRAP == TrailingRun(h);
    } else {
      LongRunDecides(s, h[..|h| - 1], t);
    }
  }

  /** A result that leaves its run short of the threshold changes nothing. */
  lemma {:induction false} ShortRunKeeps(s: Status, h: seq<Outcome>, t: ThresholdConfig)
    requires Settled(s) && ValidThresholds(t) && h != []
    requires TrailingRun(h) < Threshold(t, h[|h| - 1].healthy)
    ensures AppliedAll(s, h, t).health == AppliedAll(s, h[..|h| - 1], t).health
  {
    hide Applied, TrailingRun;
    CountersAreRuns(s, h, t);
    AppliedHealth(AppliedAll(s, h[..|h| - 1], t), h[|h| - 1], t);
  }

  lemma AppliedHealth(s: Status, o: Outcome, t: ThresholdConfig)
    requires ValidThresholds(t)
    ensures var r := Applied(s, o, t);
            r.health == if (if o.healthy then r.successes else r.failures) >= Threshold(t, o.healthy)
                        then KindOf(o.healthy) else s.health
  {
    hide Bump;
  }

  lemma ReachedInPrefix(h: seq<Outcome>, t: ThresholdConfig, i: nat)
    requires i < |h| - 1
    ensures Reached(h[..|h| - 1], t, i) == Reached(h, t, i)
  {
    assert h[..|h| - 1][..i + 1] == h[..i + 1];
  }

  /**
   For every history since creation, Reset or MarkHealthy, the health state is the kind of
   the most recent run that reached its threshold; wrap-around of the counters never shows.
   */
  lemma {:induction false} HealthIsKind(s: Status, h: seq<Outcome>, t: ThresholdConfig)
    requires Settled(s) && ValidThresholds(t)
    ensures Kind(s.health, h, t, AppliedAll(s, h, t).health)
  {
    if h != [] {
      var n := |h| - 1;
      var front := h[..n];
      HealthIsKind(s, front, t);
      forall i: nat | i < n ensures Reached(front, t, i) == Reached(h, t, i) {
        ReachedInPrefix(h, t, i);
      }
      assert h[..n + 1] == h;
      if Reached(h, t, n) {
        LongRunDecides(s, h, t);
      } else {
        ShortRunKeeps(s, h, t);
        hide AppliedAll, Applied;
        KindExtends(s.health, h, t, AppliedAll(s, front, t).health);
      }
    }
  }

  lemma {:induction false} KindExtends(base: Health, h: seq<Outcome>, t: ThresholdConfig, state: Health)
    requires h != [] && Kind(base, h[..|h| - 1], t, state) && !Reached(h, t, |h| - 1)
    requires forall i: nat :: i < |h| - 1 ==> Reached(h[..|h| - 1], t, i) == Reached(h, t, i)
    ensures Kind(base, h, t, state)
  {
    hide Reached;
    var n := |h| - 1;
    var front := h[..n];
    if !(forall i: nat :: i < n ==> !Reached(front, t, i)) {
      var i: nat :| i < n && Reached(front, t, i) && state == KindOf(front[i].healthy) &&
                    forall j: nat :: i < j < n ==> !Reached(front, t, j);
      assert Reached(h, t, i) && h[i] == front[i];
      assert forall j: nat :: i < j < |h| ==> !Reached(h, t, j);
    }
  }

  /** Once a result has been applied, a status is never again what it was when created. */
  lemma NeverFreshAgain(h: seq<Outcome>, t: ThresholdConfig)
    requires ValidThresholds(t)
    ensures AppliedAll(FRESH, h, t) == FRESH <==> h == []
  {
    if h != [] {
      CountersAreRuns(FRESH, h, t);
      if TrailingRun(h) % WRAP == 0 {
        LongRunDecides(FRESH, h, t);
      }
    }
    hide Applied;
  }

  /** The specification determines the state. */
  lemma KindIsUnique(base: Health, h: seq<Outcome>, t: ThresholdConfig, a: Health, b: Health)
    requires Kind(base, h, t, a) && Kind(base, h, t, b)
    ensures a == b
  {
  }

  // ----- Hysteresis

  /** How many results of `h` change the health state to the kind given by `healthy`. */
  function Flips(s: Status, h: seq<Outcome>, t: ThresholdConfig, healthy: bool): nat {
    if h == [] then 0 else
      var before := AppliedAll(s, h[..|h| - 1], t);
      Flips(s, h[..|h| - 1], t, healthy)
      + if Applied(before, h[|h| - 1], t).health != before.health && h[|h| - 1].healthy == healthy then 1 else 0
  }

  /** Results of the run under way that could still count towards a flip. */
  function Progress(s: Status): nat {
    (if s.health == Healthy then 0 else s.successes) + if s.health == Unhealthy then 0 else s.failures
  }

  /** At most one counter is nonzero, and a run counting towards a flip is short of its threshold. */
  predicate Counting(s: Status, t: ThresholdConfig) {
    && (s.successes == 0 || s.failures == 0)
    && (s.health != Healthy ==> s.successes < t.healthy)
    && (s.health != Unhealthy ==> s.failures < t.unhealthy)
  }

  lemma StepSpendsProgress(s: Status, o: Outcome, t: ThresholdConfig)
    requires Counting(s, t) && ValidThresholds(t)
    ensures Counting(Applied(s, o, t), t)
    ensures (if Applied(s, o, t).health != s.health then Threshold(t, o.healthy) else 0) + Progress(Applied(s, o, t))
            <= Progress(s) + 1
    ensures Applied(s, o, t).health != s.health ==> Applied(s, o, t).health == KindOf(o.healthy)
  {
    BumpWraps(s.successes);
    BumpWraps(s.failures);
    hide Bump;
  }

  /**
   Every flip to healthy is paid for by `healthy` results and every flip to unhealthy by
   `unhealthy` results: from any status, only the progress already made can be used twice.
   */
  lemma {:induction false} HysteresisBudget(s: Status, h: seq<Outcome>, t: ThresholdConfig)
    requires Counting(s, t) && ValidThresholds(t)
    ensures Counting(AppliedAll(s, h, t), t)
    ensures t.healthy * Flips(s, h, t, true) + t.unhealthy * Flips(s, h, t, false) + Progress(AppliedAll(s, h, t))
            <= |h| + Progress(s)
  {
    hide Applied, Progress, Counting;
    if h != [] {
      var front, last := h[..|h| - 1], h[|h| - 1];
      HysteresisBudget(s, front, t);
      StepSpendsProgress(AppliedAll(s, front, t), last, t);
      Distribute(t.healthy, Flips(s, front, t, true));
      Distribute(t.unhealthy, Flips(s, front, t, false));
    }
  }

  lemma Distribute(a: int, b: int)
    ensures a * (b + 1) == a * b + a
  {
  }

  /** Since creation, Reset or MarkHealthy: flips cost their thresholds in full. */
  lemma {:induction false} HysteresisSinceReset(s: Status, h: seq<Outcome>, t: ThresholdConfig)
    requires Settled(s) && ValidThresholds(t)
    ensures t.healthy * Flips(s, h, t, true) + t.unhealthy * Flips(s, h, t, false) <= |h|
  {
    HysteresisBudget(s, h, t);
    hide Flips;
  }

  /** Passive observations never move the time of the last active check. */
  lemma {:induction false} PassiveKeepsCheckTime(s: Status, h: seq<Outcome>, t: ThresholdConfig)
    requires forall i :: 0 <= i < |h| ==> !h[i].active
    ensures AppliedAll(s, h, t).lastHealthCheck == s.lastHealthCheck
  {
    if h != [] {
      PassiveKeepsCheckTime(s, h[..|h| - 1], t);
    }
  }

  // ----- The mutable status

  class BackendStatus {
    var healthState: Health
    var consecutiveFailures: nat
    var consecutiveSuccess: nat
    var lastError: string
    var lastHealthCheck: Option<int>
    var lastStateChange: Option<int>

    function View(): Status
      reads this
    {
      Status(healthState, consecutiveFailures, consecutiveSuccess, lastError, lastHealthCheck, lastStateChange)
    }

    constructor ()
      ensures View() == FRESH
    {
      healthState, consecutiveFailures, consecutiveSuccess := Unknown, 0, 0;
      lastError, lastHealthCheck, lastStateChange := "", None, None;
    }

    /** `changed` is reported exactly when the health state flips. */
    method ApplyResult(o: Outcome, t: ThresholdConfig) returns (changed: bool)
      modifies this
      ensures View() == Applied(old(View()), o, t)
      ensures changed <==> healthState != old(healthState)
      ensures lastHealthCheck == if o.active then Some(o.at) else old(lastHealthCheck)
      ensures lastStateChange == if changed then Some(o.at) else old(lastStateChange)
    {
      var previous := healthState;
      if o.active {
        lastHealthCheck := Some(o.at);
      }
      if o.healthy {
        consecutiveFailures := 0;
        consecutiveSuccess := Bump(consecutiveSuccess);
        lastError := "";
        if consecutiveSuccess >= ToUint32(t.healthy) {
          healthState := Healthy;
        }
      } else {
        consecutiveSuccess := 0;
        consecutiveFailures := Bump(consecutiveFailures);
        if o.error.Some? {
          lastError := o.error.value;
        }
        if consecutiveFailures >= ToUint32(t.unhealthy) {
          healthState := Unhealthy;
        }
      }
      if previous != healthState {
        lastStateChange := Some(o.at);
        return true;
      }
      return false;
    }

    method Reset()
      modifies this
      ensures View() == FRESH
      ensures healthState == Unknown && consecutiveFailures == 0 && consecutiveSuccess == 0
      ensures lastError == "" && lastHealthCheck == None && lastStateChange == None
    {
      healthState := Unknown;
      consecutiveFailures := 0;
      consecutiveSuccess := 0;
      lastError := "";
      lastHealthCheck := None;
      lastStateChange := None;
    }

    method MarkHealthy()
      modifies this
      ensures View() == MarkedHealthy(old(View()))
      ensures healthState == Healthy && consecutiveFailures == 0 && consecutiveSuccess == 0 && lastError == ""
      ensures lastHealthCheck == old(lastHealthCheck) && lastStateChange == old(lastStateChange)
    {
      healthState := Healthy;
      consecutiveFailures := 0;
      consecutiveSuccess := 0;
      lastError := "";
    }
  }
}
