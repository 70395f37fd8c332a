/**
 The configuration records (internal/config/types.go) and the declarative meaning of
 "valid configuration" that the validator is measured against.

 Backends are optional because the decoded JSON array may contain nulls.
 */
module Config {
  import opened Base

  datatype ServerConfig = ServerConfig(proxyPort: int, adminGrpcPort: int)

  datatype BackendConfig = BackendConfig(id: string, url: string, weight: int, enabled: bool)

  datatype TimeoutsConfig = TimeoutsConfig(connectMs: int, responseMs: int, keepAliveMs: int, idleConnMs: int)

  datatype RateLimitingConfig = RateLimitingConfig(enabled: bool, ratePerIP: int, burst: int, windowSec: int)

  datatype SecurityPolicy = SecurityPolicy(id: string, rateLimiting: RateLimitingConfig)

  datatype PathRoute = PathRoute(path: string, backendIDs: seq<string>, stripPrefix: bool)

  datatype VirtualHost = VirtualHost(
    domain: string, backendIDs: seq<string>, securityPolicyID: string, pathRoutes: seq<PathRoute>)

  datatype LoggingConfig = LoggingConfig(enabled: bool, level: string, async: bool, bufferSize: int)

  datatype ProbeConfig = ProbeConfig(kind: string, path: string, httpMethod: string, timeoutMs: int, successCodes: seq<int>)

  datatype ScheduleConfig = ScheduleConfig(intervalMs: int, jitterMs: int)

  datatype ConcurrencyConfig = ConcurrencyConfig(workers: int, queueSize: int)

  datatype ThresholdConfig = ThresholdConfig(healthy: int, unhealthy: int)

  datatype BackoffConfig = BackoffConfig(enabled: bool, initialMs: int, maxMs: int, multiplier: real)

  datatype TransportConfig = TransportConfig(
    maxIdleConns: int, maxIdleConnsPerHost: int, maxConnsPerHost: int, keepAliveMs: int)

  datatype HealthCheckConfig = HealthCheckConfig(
    enabled: bool, probe: ProbeConfig, schedule: ScheduleConfig, concurrency: ConcurrencyConfig,
    thresholds: ThresholdConfig, backoff: BackoffConfig, transport: TransportConfig, passiveEnabled: bool)

  datatype FullConfig = FullConfig(
    server: ServerConfig, strategy: string, backends: seq<Option<BackendConfig>>, healthCheck: HealthCheckConfig,
    timeouts: TimeoutsConfig, policies: seq<SecurityPolicy>, virtualHosts: seq<VirtualHost>, logging: LoggingConfig)

  /** Result of url.Parse, or Malformed when it fails. */
  datatype ParsedUrl = Malformed | Parsed(scheme: string, host: string)

  /** The library functions on text that the validator relies on and the model leaves open. */
  datatype Text = Text(parseUrl: string -> ParsedUrl, toLower: string -> string, equalFold: (string, string) -> bool)

  predicate HasPrefix(s: string, prefix: string) {
    prefix <= s
  }

  const MAX_HEALTH_WORKERS := 1024
  const MIN_HEALTH_INTERVAL_MS := 100
  const MAX_HEALTH_INTERVAL_MS := 3600000
  const MAX_HEALTH_TIMEOUT_MS := 60000

  // ----- Declarative validity

  predicate ValidUrl(text: Text, url: string) {
    && url != "" && !HasPrefix(url, "env:")
    && text.parseUrl(url).Parsed? && text.parseUrl(url).host != ""
    && text.parseUrl(url).scheme in {"http", "https"}
  }

  predicate ValidBackend(text: Text, b: BackendConfig) {
    b.id != "" && ValidUrl(text, b.url) && b.weight > 0
  }

  predicate ValidBackendEntry(text: Text, b: Option<BackendConfig>) {
    b.Some? && ValidBackend(text, b.value)
  }

  /** No two of the backends share an id or a URL. */
  predicate DistinctBackends(bs: seq<Option<BackendConfig>>)
    requires forall i :: 0 <= i < |bs| ==> bs[i].Some?
  {
    forall i, j :: 0 <= i < j < |bs| ==> bs[i].value.id != bs[j].value.id && bs[i].value.url != bs[j].value.url
  }

  predicate SomeEnabled(bs: seq<Option<BackendConfig>>) {
    exists i :: 0 <= i < |bs| && bs[i].Some? && bs[i].value.enabled
  }

  predicate ValidBackends(text: Text, bs: seq<Option<BackendConfig>>) {
    && (forall i :: 0 <= i < |bs| ==> ValidBackendEntry(text, bs[i]))
    && DistinctBackends(bs)
    && SomeEnabled(bs)
  }

  predicate ValidPolicy(p: SecurityPolicy) {
    p.id != "" && (p.rateLimiting.enabled ==>
      p.rateLimiting.ratePerIP > 0 && p.rateLimiting.burst > 0 && p.rateLimiting.windowSec > 0)
  }

  predicate ValidPolicies(ps: seq<SecurityPolicy>) {
    && (forall i :: 0 <= i < |ps| ==> ValidPolicy(ps[i]))
    && (forall i, j :: 0 <= i < j < |ps| ==> ps[i].id != ps[j].id)
  }

  /** The ids of the configured backends. */
  function BackendIds(bs: seq<Option<BackendConfig>>): set<string> {
    if bs == [] then {}
    else BackendIds(bs[..|bs| - 1]) + if bs[|bs| - 1].Some? then {bs[|bs| - 1].value.id} else {}
  }

  function BackendUrls(bs: seq<Option<BackendConfig>>): set<string> {
    if bs == [] then {}
    else BackendUrls(bs[..|bs| - 1]) + if bs[|bs| - 1].Some? then {bs[|bs| - 1].value.url} else {}
  }

  function PolicyIds(ps: seq<SecurityPolicy>): set<string> {
    if ps == [] then {} else PolicyIds(ps[..|ps| - 1]) + {ps[|ps| - 1].id}
  }

  lemma {:induction false} BackendIdsMember(bs: seq<Option<BackendConfig>>, id: string)
    ensures id in BackendIds(bs) <==> exists i :: 0 <= i < |bs| && bs[i].Some? && bs[i].value.id == id
  {
    if bs != [] {
      var n := |bs| - 1;
      BackendIdsMember(bs[..n], id);
      if i :| 0 <= i < n && bs[..n][i].Some? && bs[..n][i].value.id == id {
        assert bs[i].value.id == id;
      }
      if i :| 0 <= i < |bs| && bs[i].Some? && bs[i].value.id == id {
        assert i < n ==> bs[..n][i].value.id == id;
      }
    }
  }

  lemma {:induction false} BackendUrlsMember(bs: seq<Option<BackendConfig>>, url: string)
    ensures url in BackendUrls(bs) <==> exists i :: 0 <= i < |bs| && bs[i].Some? && bs[i].value.url == url
  {
    if bs != [] {
      var n := |bs| - 1;
      BackendUrlsMember(bs[..n], url);
      if i :| 0 <= i < n && bs[..n][i].Some? && bs[..n][i].value.url == url {
        assert bs[i].value.url == url;
      }
      if i :| 0 <= i < |bs| && bs[i].Some? && bs[i].value.url == url {
        assert i < n ==> bs[..n][i].value.url == url;
      }
    }
  }

  lemma {:induction false} PolicyIdsMember(ps: seq<SecurityPolicy>, id: string)
    ensures id in PolicyIds(ps) <==> exists i :: 0 <= i < |ps| && ps[i].id == id
  {
    if ps != [] {
      var n := |ps| - 1;
      PolicyIdsMember(ps[..n], id);
      if i :| 0 <= i < n && ps[..n][i].id == id {
        assert ps[i].id == id;
      }
      if i :| 0 <= i < |ps| && ps[i].id == id {
        assert i < n ==> ps[..n][i].id == id;
      }
    }
  }

  predicate AllIn(xs: seq<string>, ids: set<string>) {
    forall i :: 0 <= i < |xs| ==> xs[i] in ids
  }

  predicate ValidRoute(r: PathRoute, vh: VirtualHost, ids: set<string>) {
    && HasPrefix(r.path, "/")
    && (r.backendIDs != [] || vh.backendIDs != [])
    && AllIn(r.backendIDs, ids)
  }

  predicate ValidVirtualHost(vh: VirtualHost, ids: set<string>, policyIds: set<string>) {
    && vh.domain != ""
    && (vh.backendIDs != [] || vh.pathRoutes != [])
    && vh.securityPolicyID in policyIds
    && AllIn(vh.backendIDs, ids)
    && (forall j :: 0 <= j < |vh.pathRoutes| ==> ValidRoute(vh.pathRoutes[j], vh, ids))
  }

  predicate DistinctDomains(vhs: seq<VirtualHost>) {
    forall i, j :: 0 <= i < j < |vhs| ==> vhs[i].domain != vhs[j].domain
  }

  predicate ValidVirtualHosts(vhs: seq<VirtualHost>, ids: set<string>, policyIds: set<string>) {
    && (forall i :: 0 <= i < |vhs| ==> ValidVirtualHost(vhs[i], ids, policyIds))
    && DistinctDomains(vhs)
  }

  predicate ValidPort(port: int) {
    1 <= port <= 65535
  }

  predicate ValidLogging(text: Text, l: LoggingConfig) {
    l.bufferSize >= 0 && (l.level != "" ==> text.toLower(l.level) in {"debug", "info", "warn", "error"})
  }

  predicate ValidTimeouts(t: TimeoutsConfig) {
    t.connectMs > 0 && t.responseMs > 0 && t.keepAliveMs > 0 && t.idleConnMs > 0
  }

  predicate ValidProbe(text: Text, p: ProbeConfig) {
    && p.kind != "" && text.equalFold(p.kind, "http")
    && HasPrefix(p.path, "/")
    && p.httpMethod != ""
    && 0 < p.timeoutMs <= MAX_HEALTH_TIMEOUT_MS
    && p.successCodes != []
    && (forall i :: 0 <= i < |p.successCodes| ==> 100 <= p.successCodes[i] <= 599)
  }

  predicate ValidSchedule(s: ScheduleConfig) {
    MIN_HEALTH_INTERVAL_MS <= s.intervalMs <= MAX_HEALTH_INTERVAL_MS && 0 <= s.jitterMs < s.intervalMs
  }

  predicate ValidBackoff(b: BackoffConfig) {
    b.enabled ==> 0 < b.initialMs <= b.maxMs && b.multiplier >= 1.0
  }

  predicate ValidTransport(t: TransportConfig) {
    t.maxIdleConns >= 1 && t.maxIdleConnsPerHost >= 1 && t.maxConnsPerHost >= 1 && t.keepAliveMs > 0
  }

  /** A disabled health check is valid whatever else it says. */
  predicate ValidHealthCheck(text: Text, h: HealthCheckConfig) {
    h.enabled ==>
      && ValidProbe(text, h.probe)
      && ValidSchedule(h.schedule)
      && 1 <= h.concurrency.workers <= MAX_HEALTH_WORKERS && h.concurrency.workers <= h.concurrency.queueSize
      && h.thresholds.healthy >= 1 && h.thresholds.unhealthy >= 1
      && ValidBackoff(h.backoff)
      && ValidTransport(h.transport)
  }

  predicate ValidConfig(text: Text, c: FullConfig) {
    && ValidPort(c.server.proxyPort) && ValidPort(c.server.adminGrpcPort)
    && ValidBackends(text, c.backends)
    && ValidLogging(text, c.logging)
    && c.strategy in {"least-connections", "adaptive"}
    && ValidHealthCheck(text, c.healthCheck)
    && ValidTimeouts(c.timeouts)
    && ValidPolicies(c.policies)
    && ValidVirtualHosts(c.virtualHosts, BackendIds(c.backends), PolicyIds(c.policies))
  }
}
