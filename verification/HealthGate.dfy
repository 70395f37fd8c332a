/**
 Exactly when the scheduling gate of an unhealthy backend opens, and how far apart its
 probes are over a run (shouldScheduleProbe, recoveryBackoff and the scheduling pass in
 internal/health/manager.go).
 */
module HealthGate {
  import opened Base
  import opened Config
  import opened HealthStatus
  import opened HealthManager
  import HealthHistory

  /** The thresholds fit an int32. */
  predicate InRange(t: ThresholdConfig) {
    0 <= t.unhealthy < 0x8000_0000
  }

  /** For a whole multiplier, the gate opens exactly min(max, initial * m^k) after the last check. */
  lemma GateOpensExactly(s: Status, h: HealthCheckConfig, m: nat, now: int)
    requires ValidBackoff(h.backoff) && InRange(h.thresholds) && h.backoff.multiplier == m as real && m >= 2
    ensures ShouldScheduleProbe(s, h, now) <==>
            || !h.backoff.enabled || s.health != Unhealthy || s.lastHealthCheck.None?
            || var k := if s.failures > h.thresholds.unhealthy then s.failures - h.thresholds.unhealthy else 0;
               now >= s.lastHealthCheck.value + Min(h.backoff.maxMs * 1_000_000, h.backoff.initialMs * 1_000_000 * Pow(m, k))
  {
    if h.backoff.enabled {
      BackoffIsGeometric(s.failures, h.thresholds, h.backoff, m);
      assert ToUint32(h.thresholds.unhealthy) == h.thresholds.unhealthy;
      hide RecoveryDelay, Pow, Min;
    }
  }

  /**
   Told by the results alone: a backend that `n` failures in a row have left unhealthy, and
   whose last active result is that at index `i`, is due exactly if it is enabled and
   min(max, initial * m^k) has passed since, k being the failures past the threshold.
   */
  lemma DueExactly(b: BackendConfig, statuses: map<string, Status>, h: HealthCheckConfig, m: nat, now: int,
                   start: Status, results: seq<Outcome>, i: nat)
    requires ValidBackoff(h.backoff) && h.backoff.enabled && h.backoff.multiplier == m as real && m >= 2
    requires ValidThresholds(h.thresholds) && Settled(start)
    requires b.id in statuses && statuses[b.id] == AppliedAll(start, results, h.thresholds)
    requires results != [] && !results[|results| - 1].healthy && TrailingRun(results) >= h.thresholds.unhealthy
    requires i < |results| && results[i].active && forall j :: i < j < |results| ==> !results[j].active
    ensures var n := TrailingRun(results) % 0x1_0000_0000;
            var k := if n > h.thresholds.unhealthy then n - h.thresholds.unhealthy else 0;
            Due(Some(b), statuses, h, now) <==>
            b.enabled && now >= results[i].at + Min(h.backoff.maxMs * 1_000_000, h.backoff.initialMs * 1_000_000 * Pow(m, k))
  {
    hide AppliedAll, Applied, ShouldScheduleProbe, Pow, Min;
    CountersAreRuns(start, results, h.thresholds);
    LongRunDecides(start, results, h.thresholds);
    HealthHistory.LastCheckIsLastActive(start, results, h.thresholds, i);
    GateOpensExactly(statuses[b.id], h, m, now);
  }

  // ----- Over a run

  /**
   What one backend lives through up to and including one pass: passive results, the pass,
   and the result of the probe if the pass makes one.
   */
  datatype Turn = Turn(seen: seq<Outcome>, pass: int, result: Outcome)

  predicate Proper(turn: Turn) {
    turn.result.active && turn.pass <= turn.result.at && forall k :: 0 <= k < |turn.seen| ==> !turn.seen[k].active
  }

  function AtPass(s: Status, turn: Turn, h: HealthCheckConfig): Status {
    AppliedAll(s, turn.seen, h.thresholds)
  }

  predicate Probed(s: Status, turn: Turn, h: HealthCheckConfig) {
    ShouldScheduleProbe(AtPass(s, turn, h), h, turn.pass)
  }

  function AfterTurn(s: Status, turn: Turn, h: HealthCheckConfig): Status {
    if Probed(s, turn, h) then Applied(AtPass(s, turn, h), turn.result, h.thresholds) else AtPass(s, turn, h)
  }

  function AfterTurns(s: Status, turns: seq<Turn>, h: HealthCheckConfig): Status {
    if turns == [] then s else AfterTurn(AfterTurns(s, turns[..|turns| - 1], h), turns[|turns| - 1], h)
  }

  /** From the probe at turn `i` to the next one, the last check is that of turn `i`. */
  lemma {:induction false} CheckSinceProbe(s: Status, turns: seq<Turn>, h: HealthCheckConfig, i: nat, j: nat)
    requires i < j <= |turns| && (forall k :: 0 <= k < |turns| ==> Proper(turns[k]))
    requires Probed(AfterTurns(s, turns[..i], h), turns[i], h)
    requires forall k :: i < k < j ==> !Probed(AfterTurns(s, turns[..k], h), turns[k], h)
    ensures AfterTurns(s, turns[..j], h).lastHealthCheck == Some(turns[i].result.at)
  {
    hide Applied, AppliedAll, Probed;
    var n := j - 1;
    assert turns[..j][..n] == turns[..n];
    assert Proper(turns[n]);
    if n == i {
      HealthHistory.AppliedCheck(AtPass(AfterTurns(s, turns[..n], h), turns[n], h), turns[n].result, h.thresholds);
    } else {
      CheckSinceProbe(s, turns, h, i, n);
      PassiveKeepsCheckTime(AfterTurns(s, turns[..n], h), turns[n].seen, h.thresholds);
    }
  }

  /**
   Consecutive probes of a backend that is unhealthy at the second one are at least the
   initial delay apart, whatever passes and passive results come in between.
   */
  lemma ProbesAreSpaced(s: Status, turns: seq<Turn>, h: HealthCheckConfig, i: nat, j: nat)
    requires h.backoff.enabled && ValidBackoff(h.backoff)
    requires i < j < |turns| && (forall k :: 0 <= k < |turns| ==> Proper(turns[k]))
    requires Probed(AfterTurns(s, turns[..i], h), turns[i], h) && Probed(AfterTurns(s, turns[..j], h), turns[j], h)
    requires forall k :: i < k < j ==> !Probed(AfterTurns(s, turns[..k], h), turns[k], h)
    requires AtPass(AfterTurns(s, turns[..j], h), turns[j], h).health == Unhealthy
    ensures turns[j].pass >= turns[i].result.at + h.backoff.initialMs * 1_000_000 >= turns[i].pass + h.backoff.initialMs * 1_000_000
  {
    hide Applied, AppliedAll, ShouldScheduleProbe, AfterTurns;
    CheckSinceProbe(s, turns, h, i, j);
    assert Proper(turns[i]) && Proper(turns[j]);
    PassiveKeepsCheckTime(AfterTurns(s, turns[..j], h), turns[j].seen, h.thresholds);
    GateIsClosed(AtPass(AfterTurns(s, turns[..j], h), turns[j], h), h, turns[j].pass);
  }
}
