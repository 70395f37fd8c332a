/**
 What a status records of the results applied to it (applyResult in
 internal/proxy/runtime/runtime.go), told by the results alone.
 */
module HealthHistory {
  import opened Base
  import opened Config
  import opened HealthStatus

  // ----- The last check

  lemma AppliedCheck(s: Status, o: Outcome, t: ThresholdConfig)
    ensures Applied(s, o, t).lastHealthCheck == if o.active then Some(o.at) else s.lastHealthCheck
  {
  }

  /**
   The time of the last check is that of the last active result.  Without one it is what it
   was (`HealthStatus.PassiveKeepsCheckTime`).
   */
  lemma {:induction false} LastCheckIsLastActive(s: Status, h: seq<Outcome>, t: ThresholdConfig, i: nat)
    requires i < |h| && h[i].active && forall j :: i < j < |h| ==> !h[j].active
    ensures AppliedAll(s, h, t).lastHealthCheck == Some(h[i].at)
  {
    hide Applied;
    var n := |h| - 1;
    AppliedCheck(AppliedAll(s, h[..n], t), h[n], t);
    if i < n {
      LastCheckIsLastActive(s, h[..n], t, i);
    }
  }

  // ----- The last error

  lemma AppliedError(s: Status, o: Outcome, t: ThresholdConfig)
    ensures Applied(s, o, t).lastError == if o.healthy then "" else if o.error.Some? then o.error.value else s.lastError
  {
  }

  /** A failure that reports no error. */
  predicate Silent(o: Outcome) {
    !o.healthy && o.error.None?
  }

  /** The error is the last one reported, or none if a healthy result has come since. */
  lemma {:induction false} LastErrorIsLastReported(s: Status, h: seq<Outcome>, t: ThresholdConfig, i: nat)
    requires i < |h| && !Silent(h[i]) && forall j :: i < j < |h| ==> Silent(h[j])
    ensures AppliedAll(s, h, t).lastError == if h[i].healthy then "" else h[i].error.value
  {
    hide Applied;
    var n := |h| - 1;
    AppliedError(AppliedAll(s, h[..n], t), h[n], t);
    if i < n {
      LastErrorIsLastReported(s, h[..n], t, i);
    }
  }

  lemma {:induction false} SilentKeepsError(s: Status, h: seq<Outcome>, t: ThresholdConfig)
    requires forall j :: 0 <= j < |h| ==> Silent(h[j])
    ensures AppliedAll(s, h, t).lastError == s.lastError
  {
    hide Applied;
    if h != [] {
      AppliedError(AppliedAll(s, h[..|h| - 1], t), h[|h| - 1], t);
      SilentKeepsError(s, h[..|h| - 1], t);
    }
  }

  // ----- The last change

  /** The kind of the last run to have reached its threshold, or `base`. */
  function Decided(base: Health, h: seq<Outcome>, t: ThresholdConfig): Health {
    if h == [] then base
    else if TrailingRun(h) >= Threshold(t, h[|h| - 1].healthy) then KindOf(h[|h| - 1].healthy)
    else Decided(base, h[..|h| - 1], t)
  }

  lemma {:induction false} HealthIsDecided(s: Status, h: seq<Outcome>, t: ThresholdConfig)
    requires Settled(s) && ValidThresholds(t)
    ensures AppliedAll(s, h, t).health == Decided(s.health, h, t)
  {
    hide Applied;
    if h != [] {
      HealthIsDecided(s, h[..|h| - 1], t);
      if TrailingRun(h) >= Threshold(t, h[|h| - 1].healthy) {
        LongRunDecides(s, h, t);
      } else {
        ShortRunKeeps(s, h, t);
      }
    }
  }

  /** The result at index `i` decides otherwise than the results before it. */
  predicate FlipsAt(base: Health, h: seq<Outcome>, t: ThresholdConfig, i: nat)
    requires i < |h|
  {
    Decided(base, h[..i + 1], t) != Decided(base, h[..i], t)
  }

  lemma FlipsInPrefix(base: Health, h: seq<Outcome>, t: ThresholdConfig, n: nat, i: nat)
    requires i < n <= |h|
    ensures FlipsAt(base, h[..n], t, i) == FlipsAt(base, h, t, i)
  {
    assert h[..n][..i] == h[..i] && h[..n][..i + 1] == h[..i + 1];
  }

  lemma LastChangeStep(s: Status, h: seq<Outcome>, t: ThresholdConfig)
    requires Settled(s) && ValidThresholds(t) && h != []
    ensures AppliedAll(s, h, t).lastStateChange ==
            if FlipsAt(s.health, h, t, |h| - 1) then Some(h[|h| - 1].at) else AppliedAll(s, h[..|h| - 1], t).lastStateChange
  {
    hide Decided;
    var n := |h| - 1;
    HealthIsDecided(s, h, t);
    HealthIsDecided(s, h[..n], t);
    assert h[..n + 1] == h;
    AppliedChange(AppliedAll(s, h[..n], t), h[n], t);
    hide Applied;
  }

  lemma AppliedChange(s: Status, o: Outcome, t: ThresholdConfig)
    ensures Applied(s, o, t).lastStateChange == if Applied(s, o, t).health != s.health then Some(o.at) else s.lastStateChange
  {
  }

  /** The time of the last change is that of the last result that decided otherwise. */
  lemma {:induction false} LastChangeIsLastFlip(s: Status, h: seq<Outcome>, t: ThresholdConfig, i: nat)
    requires Settled(s) && ValidThresholds(t)
    requires i < |h| && FlipsAt(s.health, h, t, i) && forall j :: i < j < |h| ==> !FlipsAt(s.health, h, t, j)
    ensures AppliedAll(s, h, t).lastStateChange == Some(h[i].at)
  {
    hide AppliedAll, FlipsAt;
    var n := |h| - 1;
    LastChangeStep(s, h, t);
    if i < n {
      forall j | i <= j < n ensures FlipsAt(s.health, h[..n], t, j) == FlipsAt(s.health, h, t, j) {
        FlipsInPrefix(s.health, h, t, n, j);
      }
      LastChangeIsLastFlip(s, h[..n], t, i);
    }
  }

  lemma {:induction false} NoFlipKeepsChange(s: Status, h: seq<Outcome>, t: ThresholdConfig)
    requires Settled(s) && ValidThresholds(t)
    requires forall j :: 0 <= j < |h| ==> !FlipsAt(s.health, h, t, j)
    ensures AppliedAll(s, h, t).lastStateChange == s.lastStateChange
  {
    hide FlipsAt, Applied;
    if h != [] {
      var n := |h| - 1;
      LastChangeStep(s, h, t);
      forall j | 0 <= j < n ensures !FlipsAt(s.health, h[..n], t, j) {
        FlipsInPrefix(s.health, h, t, n, j);
      }
      NoFlipKeepsChange(s, h[..n], t);
    }
  }
}
