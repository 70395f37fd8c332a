/**
 Filling in defaults (internal/config/defaults.go).  `Complete` says what it means for a
 configuration to need no default; ApplyDefaults makes a configuration complete and
 leaves a complete one alone.
 */
module Defaults {
  import opened Config

  const DEFAULT_POLICY: SecurityPolicy := SecurityPolicy("default", RateLimitingConfig(false, 0, 0, 0))

  function OrInt(x: int, default: int): int {
    if x == 0 then default else x
  }

  function OrString(x: string, default: string): string {
    if x == "" then default else x
  }

  function WithDefaultPolicy(ps: seq<SecurityPolicy>): seq<SecurityPolicy> {
    if exists i :: 0 <= i < |ps| && ps[i].id == "default" then ps else [DEFAULT_POLICY] + ps
  }

  function DefaultedHost(vh: VirtualHost): VirtualHost {
    vh.(securityPolicyID := OrString(vh.securityPolicyID, "default"))
  }

  function DefaultedHosts(vhs: seq<VirtualHost>): (r: seq<VirtualHost>)
    ensures |r| == |vhs|
    ensures forall i :: 0 <= i < |vhs| ==> r[i] == DefaultedHost(vhs[i])
  {
    seq(|vhs|, i requires 0 <= i < |vhs| => DefaultedHost(vhs[i]))
  }

  function DefaultedProbe(p: ProbeConfig): ProbeConfig {
    ProbeConfig(OrString(p.kind, "http"), OrString(p.path, "/health"), OrString(p.httpMethod, "GET"),
                OrInt(p.timeoutMs, 1000), if p.successCodes == [] then [200] else p.successCodes)
  }

  function DefaultedTransport(t: TransportConfig): TransportConfig {
    TransportConfig(OrInt(t.maxIdleConns, 100), OrInt(t.maxIdleConnsPerHost, 4),
                    OrInt(t.maxConnsPerHost, 16), OrInt(t.keepAliveMs, 30000))
  }

  function DefaultedTimeouts(t: TimeoutsConfig): TimeoutsConfig {
    TimeoutsConfig(OrInt(t.connectMs, 5000), OrInt(t.responseMs, 30000),
                   OrInt(t.keepAliveMs, 300000), OrInt(t.idleConnMs, 90000))
  }

  function DefaultedHealth(h: HealthCheckConfig): HealthCheckConfig {
    h.(probe := DefaultedProbe(h.probe),
       schedule := h.schedule.(intervalMs := OrInt(h.schedule.intervalMs, 3000)),
       concurrency := ConcurrencyConfig(OrInt(h.concurrency.workers, 16), OrInt(h.concurrency.queueSize, 64)),
       thresholds := ThresholdConfig(OrInt(h.thresholds.healthy, 3), OrInt(h.thresholds.unhealthy, 3)),
       backoff := h.backoff.(
         initialMs := OrInt(h.backoff.initialMs, 5000), maxMs := OrInt(h.backoff.maxMs, 30000),
         multiplier := if h.backoff.multiplier == 0.0 then 2.0 else h.backoff.multiplier),
       transport := DefaultedTransport(h.transport))
  }

  function Defaulted(c: FullConfig): FullConfig {
    c.(server := ServerConfig(OrInt(c.server.proxyPort, 8080), OrInt(c.server.adminGrpcPort, 50051)),
       strategy := OrString(c.strategy, "least-connections"),
       policies := WithDefaultPolicy(c.policies),
       virtualHosts := DefaultedHosts(c.virtualHosts),
       healthCheck := DefaultedHealth(c.healthCheck),
       timeouts := DefaultedTimeouts(c.timeouts),
       logging := c.logging.(level := OrString(c.logging.level, "info"), bufferSize := OrInt(c.logging.bufferSize, 4096)))
  }

  // ----- Completeness

  predicate CompleteHealth(h: HealthCheckConfig) {
    && h.probe.kind != "" && h.probe.path != "" && h.probe.httpMethod != "" && h.probe.timeoutMs != 0
    && h.probe.successCodes != []
    && h.schedule.intervalMs != 0
    && h.concurrency.workers != 0 && h.concurrency.queueSize != 0
    && h.thresholds.healthy != 0 && h.thresholds.unhealthy != 0
    && h.backoff.initialMs != 0 && h.backoff.maxMs != 0 && h.backoff.multiplier != 0.0
    && h.transport.maxIdleConns != 0 && h.transport.maxIdleConnsPerHost != 0
    && h.transport.maxConnsPerHost != 0 && h.transport.keepAliveMs != 0
  }

  /** No field that has a default is left zero, and the default policy exists. */
  predicate Complete(c: FullConfig) {
    && c.server.proxyPort != 0 && c.server.adminGrpcPort != 0
    && c.strategy != ""
    && (exists i :: 0 <= i < |c.policies| && c.policies[i].id == "default")
    && (forall i :: 0 <= i < |c.virtualHosts| ==> c.virtualHosts[i].securityPolicyID != "")
    && CompleteHealth(c.healthCheck)
    && c.timeouts.connectMs != 0 && c.timeouts.responseMs != 0
    && c.timeouts.keepAliveMs != 0 && c.timeouts.idleConnMs != 0
    && c.logging.level != "" && c.logging.bufferSize != 0
  }

  lemma DefaultedIsComplete(c: FullConfig)
    ensures Complete(Defaulted(c))
  {
    var ps := WithDefaultPolicy(c.policies);
    assert exists i :: 0 <= i < |ps| && ps[i].id == "default" by {
      if !(exists i :: 0 <= i < |c.policies| && c.policies[i].id == "default") {
        assert ps[0] == DEFAULT_POLICY;
      }
    }
  }

  predicate Kept<T(==)>(before: T, after: T, zero: T) {
    before != zero ==> after == before
  }

  /** Defaulting replaces zero fields and nothing else. */
  predicate HealthFieldsKept(h: HealthCheckConfig, r: HealthCheckConfig) {
    && r.enabled == h.enabled && r.passiveEnabled == h.passiveEnabled
    && Kept(h.probe.kind, r.probe.kind, "") && Kept(h.probe.path, r.probe.path, "")
    && Kept(h.probe.httpMethod, r.probe.httpMethod, "") && Kept(h.probe.timeoutMs, r.probe.timeoutMs, 0)
    && Kept(h.probe.successCodes, r.probe.successCodes, [])
    && Kept(h.schedule.intervalMs, r.schedule.intervalMs, 0) && r.schedule.jitterMs == h.schedule.jitterMs
    && Kept(h.concurrency.workers, r.concurrency.workers, 0) && Kept(h.concurrency.queueSize, r.concurrency.queueSize, 0)
    && Kept(h.thresholds.healthy, r.thresholds.healthy, 0) && Kept(h.thresholds.unhealthy, r.thresholds.unhealthy, 0)
    && r.backoff.enabled == h.backoff.enabled && Kept(h.backoff.initialMs, r.backoff.initialMs, 0)
    && Kept(h.backoff.maxMs, r.backoff.maxMs, 0) && Kept(h.backoff.multiplier, r.backoff.multiplier, 0.0)
    && Kept(h.transport.maxIdleConns, r.transport.maxIdleConns, 0)
    && Kept(h.transport.maxIdleConnsPerHost, r.transport.maxIdleConnsPerHost, 0)
    && Kept(h.transport.maxConnsPerHost, r.transport.maxConnsPerHost, 0)
    && Kept(h.transport.keepAliveMs, r.transport.keepAliveMs, 0)
  }

  lemma DefaultedHealthFacts(h: HealthCheckConfig)
    ensures CompleteHealth(DefaultedHealth(h)) && HealthFieldsKept(h, DefaultedHealth(h))
    ensures CompleteHealth(h) <==> DefaultedHealth(h) == h
  {
  }

  /** Health settings with every field left empty. */
  function EmptyHealth(enabled: bool, backoff: bool, passive: bool): HealthCheckConfig {
    HealthCheckConfig(enabled, ProbeConfig("", "", "", 0, []), ScheduleConfig(0, 0), ConcurrencyConfig(0, 0), ThresholdConfig(0, 0),
                      BackoffConfig(backoff, 0, 0, 0.0), TransportConfig(0, 0, 0, 0), passive)
  }

  /** Left empty, the health settings get values that validation accepts. */
  lemma EmptyHealthDefaultsToValid(text: Text, enabled: bool, backoff: bool, passive: bool)
    requires text.equalFold("http", "http")
    ensures ValidHealthCheck(text, DefaultedHealth(EmptyHealth(enabled, backoff, passive)))
  {
    var p := DefaultedHealth(EmptyHealth(enabled, backoff, passive)).probe;
    assert p.path[..1] == "/";
  }

  /** The values that fields left empty get. */
  lemma DefaultValues(c: FullConfig, backoff: bool)
    requires c.server == ServerConfig(0, 0) && c.strategy == "" && c.timeouts == TimeoutsConfig(0, 0, 0, 0)
    requires c.logging.level == "" && c.logging.bufferSize == 0 && c.policies == [] && c.healthCheck == EmptyHealth(true, backoff, true)
    ensures var d := Defaulted(c);
            && d.server == ServerConfig(8080, 50051) && d.strategy == "least-connections"
            && d.timeouts == TimeoutsConfig(5000, 30000, 300000, 90000)
            && d.logging == c.logging.(level := "info", bufferSize := 4096)
            && d.policies == [SecurityPolicy("default", RateLimitingConfig(false, 0, 0, 0))]
            && d.healthCheck == HealthCheckConfig(true, ProbeConfig("http", "/health", "GET", 1000, [200]), ScheduleConfig(3000, 0),
                 ConcurrencyConfig(16, 64), ThresholdConfig(3, 3), BackoffConfig(backoff, 5000, 30000, 2.0),
                 TransportConfig(100, 4, 16, 30000), true)
            && d.backends == c.backends && ValidTimeouts(d.timeouts) && ValidPort(d.server.proxyPort) && ValidPort(d.server.adminGrpcPort)
  {
  }

  /** A missing default policy is put in front; the other policies, and the hosts, keep their order. */
  lemma DefaultedLists(c: FullConfig)
    ensures var d := Defaulted(c);
            && (if exists i :: 0 <= i < |c.policies| && c.policies[i].id == "default" then d.policies == c.policies
                else |d.policies| == |c.policies| + 1 && d.policies[0] == SecurityPolicy("default", RateLimitingConfig(false, 0, 0, 0)) &&
                     d.policies[1..] == c.policies)
            && |d.virtualHosts| == |c.virtualHosts|
            && forall i :: 0 <= i < |c.virtualHosts| ==>
                 d.virtualHosts[i] == c.virtualHosts[i].(securityPolicyID :=
                   if c.virtualHosts[i].securityPolicyID == "" then "default" else c.virtualHosts[i].securityPolicyID)
  {
    hide DefaultedHealth, DefaultedTimeouts;
  }

  /** Exactly the complete configurations are left alone. */
  lemma CompleteIsFixed(c: FullConfig)
    ensures Complete(c) <==> Defaulted(c) == c
  {
    if Complete(c) {
      assert DefaultedHosts(c.virtualHosts) == c.virtualHosts;
    }
    DefaultedIsComplete(c);
  }

  lemma DefaultingIsIdempotent(c: FullConfig)
    ensures Defaulted(Defaulted(c)) == Defaulted(c)
  {
    DefaultedIsComplete(c);
    CompleteIsFixed(Defaulted(c));
  }

  // ----- The defaulting pass itself

  method EnsureDefaultSecurityPolicy(policies: seq<SecurityPolicy>) returns (r: seq<SecurityPolicy>)
    ensures r == WithDefaultPolicy(policies)
  {
    for i := 0 to |policies|
      invariant forall k :: 0 <= k < i ==> policies[k].id != "default"
    {
      if policies[i].id == "default" {
        return policies;
      }
    }
    return [DEFAULT_POLICY] + policies;
  }

  method ApplyProbeDefaults(p: ProbeConfig) returns (r: ProbeConfig)
    ensures r == DefaultedProbe(p)
  {
    var kind := p.kind;
    if kind == "" { kind := "http"; }
    var path := p.path;
    if path == "" { path := "/health"; }
    var httpMethod := p.httpMethod;
    if httpMethod == "" { httpMethod := "GET"; }
    var timeoutMs := p.timeoutMs;
    if timeoutMs == 0 { timeoutMs := 1000; }
    var successCodes := p.successCodes;
    if successCodes == [] { successCodes := [200]; }
    r := ProbeConfig(kind, path, httpMethod, timeoutMs, successCodes);
  }

  method ApplyTransportDefaults(t: TransportConfig) returns (r: TransportConfig)
    ensures r == DefaultedTransport(t)
  {
    var idle := t.maxIdleConns;
    if idle == 0 { idle := 100; }
    var idlePerHost := t.maxIdleConnsPerHost;
    if idlePerHost == 0 { idlePerHost := 4; }
    var perHost := t.maxConnsPerHost;
    if perHost == 0 { perHost := 16; }
    var keepAliveMs := t.keepAliveMs;
    if keepAliveMs == 0 { keepAliveMs := 30000; }
    r := TransportConfig(idle, idlePerHost, perHost, keepAliveMs);
  }

  /** No field with a default is left zero, and fields that are set, like those without a default, are kept. */
  method ApplyHealthChecksDefaults(h: HealthCheckConfig) returns (r: HealthCheckConfig)
    ensures r == DefaultedHealth(h)
    ensures CompleteHealth(r) && HealthFieldsKept(h, r)
    ensures CompleteHealth(h) ==> r == h
  {
    DefaultedHealthFacts(h);
    var probe := ApplyProbeDefaults(h.probe);
    var intervalMs := h.schedule.intervalMs;
    if intervalMs == 0 { intervalMs := 3000; }
    var workers := h.concurrency.workers;
    if workers == 0 { workers := 16; }
    var queueSize := h.concurrency.queueSize;
    if queueSize == 0 { queueSize := 64; }
    var healthy := h.thresholds.healthy;
    if healthy == 0 { healthy := 3; }
    var unhealthy := h.thresholds.unhealthy;
    if unhealthy == 0 { unhealthy := 3; }
    var initialMs := h.backoff.initialMs;
    if initialMs == 0 { initialMs := 5000; }
    var maxMs := h.backoff.maxMs;
    if maxMs == 0 { maxMs := 30000; }
    var multiplier := h.backoff.multiplier;
    if multiplier == 0.0 { multiplier := 2.0; }
    var transport := ApplyTransportDefaults(h.transport);
    hide DefaultedProbe, DefaultedTransport;
    r := h.(probe := probe, schedule := h.schedule.(intervalMs := intervalMs),
            concurrency := ConcurrencyConfig(workers, queueSize), thresholds := ThresholdConfig(healthy, unhealthy),
            backoff := h.backoff.(initialMs := initialMs, maxMs := maxMs, multiplier := multiplier),
            transport := transport);
  }

  method ApplyTimeoutDefaults(t: TimeoutsConfig) returns (r: TimeoutsConfig)
    ensures r == DefaultedTimeouts(t)
  {
    var connectMs := t.connectMs;
    if connectMs == 0 { connectMs := 5000; }
    var responseMs := t.responseMs;
    if responseMs == 0 { responseMs := 30000; }
    var keepAliveMs := t.keepAliveMs;
    if keepAliveMs == 0 { keepAliveMs := 300000; }
    var idleConnMs := t.idleConnMs;
    if idleConnMs == 0 { idleConnMs := 90000; }
    r := TimeoutsConfig(connectMs, responseMs, keepAliveMs, idleConnMs);
  }

  method ApplyHostDefaults(vhs: seq<VirtualHost>) returns (hosts: seq<VirtualHost>)
    ensures hosts == DefaultedHosts(vhs)
  {
    hosts := vhs;
    for i := 0 to |hosts|
      invariant |hosts| == |vhs|
      invariant forall k :: 0 <= k < i ==> hosts[k] == DefaultedHost(vhs[k])
      invariant forall k :: i <= k < |hosts| ==> hosts[k] == vhs[k]
    {
      if hosts[i].securityPolicyID == "" {
        hosts := hosts[i := hosts[i].(securityPolicyID := "default")];
      }
    }
  }

  method ApplyDefaults(c: FullConfig) returns (r: FullConfig)
    ensures r == Defaulted(c)
    ensures Complete(r)
    ensures Complete(c) ==> r == c
  {
    hide DefaultedProbe, DefaultedTransport, DefaultedTimeouts, DefaultedHosts, DefaultedHealth, WithDefaultPolicy;
    var proxyPort := c.server.proxyPort;
    if proxyPort == 0 { proxyPort := 8080; }
    var adminGrpcPort := c.server.adminGrpcPort;
    if adminGrpcPort == 0 { adminGrpcPort := 50051; }
    var strategy := c.strategy;
    if strategy == "" { strategy := "least-connections"; }
    var policies := EnsureDefaultSecurityPolicy(c.policies);
    var hosts := ApplyHostDefaults(c.virtualHosts);
    var health := ApplyHealthChecksDefaults(c.healthCheck);
    var timeouts := ApplyTimeoutDefaults(c.timeouts);
    var level := c.logging.level;
    if level == "" { level := "info"; }
    var bufferSize := c.logging.bufferSize;
    if bufferSize == 0 { bufferSize := 4096; }
    r := c.(server := ServerConfig(proxyPort, adminGrpcPort), strategy := strategy, policies := policies,
            virtualHosts := hosts, healthCheck := health, timeouts := timeouts,
            logging := c.logging.(level := level, bufferSize := bufferSize));
    DefaultedIsComplete(c);
    CompleteIsFixed(c);
    hide Complete;
  }
}
