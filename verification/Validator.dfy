/**
 The validator (internal/config/validator.go): loops that fill the id, URL, policy and
 domain sets and stop at the first violation, proved to accept exactly `ValidConfig`.
 */
module Validator {
  import opened Base
  import opened Config

  /** The reasons for which a configuration is refused; indices point at the offending entry. */
  datatype Violation =
    | ProxyPort | AdminGrpcPort | NoBackends | NoneEnabled | Logging | Strategy | HealthCheck(check: string) | Timeouts
    | NilBackend(i: nat) | EmptyBackendId(i: nat) | BackendUrl(i: nat) | DuplicateBackendId(i: nat)
    | DuplicateBackendUrl(i: nat) | BackendWeight(i: nat)
    | EmptyPolicyId(i: nat) | DuplicatePolicyId(i: nat) | RateLimits(i: nat)
    | EmptyDomain(i: nat) | DuplicateDomain(i: nat) | NoTargets(i: nat) | UnknownPolicy(i: nat) | UnknownBackend(i: nat)
    | RoutePath(i: nat, j: nat) | RouteTargets(i: nat, j: nat) | RouteUnknownBackend(i: nat, j: nat)

  /** What a reported violation says about the configuration. */
  ghost predicate Violates(text: Text, c: FullConfig, v: Violation) {
    match v
    case ProxyPort => !ValidPort(c.server.proxyPort)
    case AdminGrpcPort => !ValidPort(c.server.adminGrpcPort)
    case Logging => !ValidLogging(text, c.logging)
    case Strategy => c.strategy !in {"least-connections", "adaptive"}
    case HealthCheck(_) => !ValidHealthCheck(text, c.healthCheck)
    case Timeouts => !ValidTimeouts(c.timeouts)
    case _ =>
      || BackendViolates(text, c.backends, v)
      || PolicyViolates(c.policies, v)
      || HostViolates(c.virtualHosts, BackendIds(c.backends), PolicyIds(c.policies), v)
  }

  ghost predicate BackendViolates(text: Text, bs: seq<Option<BackendConfig>>, v: Violation) {
    match v
    case NoBackends => bs == []
    case NoneEnabled => !SomeEnabled(bs)
    case NilBackend(i) => i < |bs| && bs[i].None?
    case EmptyBackendId(i) => i < |bs| && bs[i].Some? && bs[i].value.id == ""
    case BackendUrl(i) => i < |bs| && bs[i].Some? && !ValidUrl(text, bs[i].value.url)
    case DuplicateBackendId(i) =>
      i < |bs| && bs[i].Some? && exists j :: 0 <= j < i && bs[j].Some? && bs[j].value.id == bs[i].value.id
    case DuplicateBackendUrl(i) =>
      i < |bs| && bs[i].Some? && exists j :: 0 <= j < i && bs[j].Some? && bs[j].value.url == bs[i].value.url
    case BackendWeight(i) => i < |bs| && bs[i].Some? && bs[i].value.weight <= 0
    case _ => false
  }

  ghost predicate PolicyViolates(ps: seq<SecurityPolicy>, v: Violation) {
    match v
    case EmptyPolicyId(i) => i < |ps| && ps[i].id == ""
    case DuplicatePolicyId(i) => i < |ps| && exists j :: 0 <= j < i && ps[j].id == ps[i].id
    case RateLimits(i) => i < |ps| && !ValidPolicy(ps[i])
    case _ => false
  }

  ghost predicate HostViolates(vhs: seq<VirtualHost>, ids: set<string>, policyIds: set<string>, v: Violation) {
    match v
    case EmptyDomain(i) => i < |vhs| && vhs[i].domain == ""
    case DuplicateDomain(i) => i < |vhs| && exists j :: 0 <= j < i && vhs[j].domain == vhs[i].domain
    case NoTargets(i) => i < |vhs| && vhs[i].backendIDs == [] && vhs[i].pathRoutes == []
    case UnknownPolicy(i) => i < |vhs| && vhs[i].securityPolicyID !in policyIds
    case UnknownBackend(i) => i < |vhs| && !AllIn(vhs[i].backendIDs, ids)
    case RoutePath(i, j) => i < |vhs| && j < |vhs[i].pathRoutes| && !HasPrefix(vhs[i].pathRoutes[j].path, "/")
    case RouteTargets(i, j) =>
      i < |vhs| && j < |vhs[i].pathRoutes| && vhs[i].pathRoutes[j].backendIDs == [] && vhs[i].backendIDs == []
    case RouteUnknownBackend(i, j) =>
      i < |vhs| && j < |vhs[i].pathRoutes| && !AllIn(vhs[i].pathRoutes[j].backendIDs, ids)
    case _ => false
  }

  lemma BackendViolationRefutes(text: Text, bs: seq<Option<BackendConfig>>, v: Violation)
    requires ValidBackends(text, bs)
    ensures !BackendViolates(text, bs, v)
  {
    hide ValidUrl;
    forall i: nat | i < |bs| ensures bs[i].Some? && ValidBackend(text, bs[i].value) {
      assert ValidBackendEntry(text, bs[i]);
    }
  }

  lemma PolicyViolationRefutes(ps: seq<SecurityPolicy>, v: Violation)
    requires ValidPolicies(ps)
    ensures !PolicyViolates(ps, v)
  {
    match v
    case EmptyPolicyId(i) => if i < |ps| { assert ValidPolicy(ps[i]); }
    case _ =>
  }

  lemma HostViolationRefutes(vhs: seq<VirtualHost>, ids: set<string>, policyIds: set<string>, v: Violation)
    requires ValidVirtualHosts(vhs, ids, policyIds)
    ensures !HostViolates(vhs, ids, policyIds, v)
  {
    forall i: nat, j: nat | i < |vhs| && j < |vhs[i].pathRoutes| ensures ValidRoute(vhs[i].pathRoutes[j], vhs[i], ids) {
      assert ValidVirtualHost(vhs[i], ids, policyIds);
    }
  }

  /** A reported violation is a real one: no valid configuration exhibits it. */
  lemma ViolationRefutes(text: Text, c: FullConfig, v: Violation)
    requires ValidConfig(text, c)
    ensures !Violates(text, c, v)
  {
    BackendViolationRefutes(text, c.backends, v);
    PolicyViolationRefutes(c.policies, v);
    HostViolationRefutes(c.virtualHosts, BackendIds(c.backends), PolicyIds(c.policies), v);
    hide BackendViolates, PolicyViolates, HostViolates;
  }

  /** validateHealthCheckConfig: the first failing check, in the order the code makes them. */
  function HealthCheckError(text: Text, h: HealthCheckConfig): (e: Option<string>)
    ensures e.None? <==> ValidHealthCheck(text, h)
  {
    if !h.enabled then None
    else if h.probe.kind == "" then Some("probe type empty")
    else if !text.equalFold(h.probe.kind, "http") then Some("probe type")
    else if h.probe.path == "" then Some("probe path empty")
    else if !HasPrefix(h.probe.path, "/") then Some("probe path")
    else if h.probe.httpMethod == "" then Some("probe method")
    else if h.probe.timeoutMs <= 0 then Some("probe timeout")
    else if h.probe.timeoutMs > MAX_HEALTH_TIMEOUT_MS then Some("probe timeout limit")
    else if h.schedule.intervalMs < MIN_HEALTH_INTERVAL_MS then Some("interval too short")
    else if h.schedule.intervalMs > MAX_HEALTH_INTERVAL_MS then Some("interval too long")
    else if h.schedule.jitterMs < 0 then Some("negative jitter")
    else if h.schedule.jitterMs >= h.schedule.intervalMs then Some("jitter")
    else if h.concurrency.workers < 1 then Some("workers")
    else if h.concurrency.workers > MAX_HEALTH_WORKERS then Some("workers limit")
    else if h.concurrency.queueSize < h.concurrency.workers then Some("queue size")
    else if h.thresholds.healthy < 1 then Some("healthy threshold")
    else if h.thresholds.unhealthy < 1 then Some("unhealthy threshold")
    else if h.probe.successCodes == [] then Some("success codes empty")
    else if exists i :: 0 <= i < |h.probe.successCodes| && !(100 <= h.probe.successCodes[i] <= 599) then Some("success code")
    else if h.backoff.enabled && h.backoff.initialMs <= 0 then Some("backoff initial")
    else if h.backoff.enabled && h.backoff.maxMs < h.backoff.initialMs then Some("backoff max")
    else if h.backoff.enabled && h.backoff.multiplier < 1.0 then Some("backoff multiplier")
    else if h.transport.maxIdleConns < 1 then Some("max idle connections")
    else if h.transport.maxIdleConnsPerHost < 1 then Some("max idle connections per host")
    else if h.transport.maxConnsPerHost < 1 then Some("max connections per host")
    else if h.transport.keepAliveMs <= 0 then Some("keep alive")
    else None
  }

  /** The backends seen so far are fine and the loop variables describe them. */
  ghost predicate BackendsSoFar(text: Text, bs: seq<Option<BackendConfig>>, ids: set<string>, urls: set<string>, enabled: nat) {
    && (forall k :: 0 <= k < |bs| ==> ValidBackendEntry(text, bs[k]))
    && DistinctBackends(bs)
    && ids == BackendIds(bs) && urls == BackendUrls(bs)
    && (enabled > 0 <==> SomeEnabled(bs))
  }

  lemma NextBackend(text: Text, bs: seq<Option<BackendConfig>>, b: BackendConfig, ids: set<string>, urls: set<string>, enabled: nat)
    requires BackendsSoFar(text, bs, ids, urls, enabled)
    requires ValidBackend(text, b) && b.id !in ids && b.url !in urls
    ensures BackendsSoFar(text, bs + [Some(b)], ids + {b.id}, urls + {b.url}, if b.enabled then enabled + 1 else enabled)
  {
    var all := bs + [Some(b)];
    assert all[..|bs|] == bs && all[|bs|] == Some(b);
    NextEnabled(bs, b);
    forall k | 0 <= k < |bs| ensures all[k].value.id != b.id && all[k].value.url != b.url {
      assert all[k] == bs[k] && ValidBackendEntry(text, bs[k]);
      BackendIdsMember(bs, bs[k].value.id);
      BackendUrlsMember(bs, bs[k].value.url);
    }
    assert DistinctBackends(all);
  }

  lemma NextEnabled(bs: seq<Option<BackendConfig>>, b: BackendConfig)
    ensures SomeEnabled(bs + [Some(b)]) <==> SomeEnabled(bs) || b.enabled
  {
    var all := bs + [Some(b)];
    assert all[|bs|] == Some(b);
    if i :| 0 <= i < |bs| && bs[i].Some? && bs[i].value.enabled {
      assert all[i] == bs[i];
    }
  }

  /** The checks on one backend, against the ids and URLs of its predecessors. */
  method CheckBackend(text: Text, c: FullConfig, i: nat, ids: set<string>, urls: set<string>) returns (r: Option<Violation>)
    requires i < |c.backends| && ids == BackendIds(c.backends[..i]) && urls == BackendUrls(c.backends[..i])
    ensures r.Some? ==> Violates(text, c, r.value)
    ensures r.None? ==> ValidBackendEntry(text, c.backends[i]) &&
                        c.backends[i].value.id !in ids && c.backends[i].value.url !in urls
  {
    hide BackendIds, BackendUrls, PolicyIds;
    if c.backends[i].None? {
      return Some(NilBackend(i));
    }
    var b := c.backends[i].value;
    if b.id == "" {
      return Some(EmptyBackendId(i));
    }
    if b.url == "" || HasPrefix(b.url, "env:") {
      return Some(BackendUrl(i));
    }
    var parsed := text.parseUrl(b.url);
    if parsed.Malformed? || parsed.scheme == "" || parsed.host == "" {
      return Some(BackendUrl(i));
    }
    if parsed.scheme != "http" && parsed.scheme != "https" {
      return Some(BackendUrl(i));
    }
    if b.id in ids {
      BackendIdsMember(c.backends[..i], b.id);
      return Some(DuplicateBackendId(i));
    }
    if b.url in urls {
      BackendUrlsMember(c.backends[..i], b.url);
      return Some(DuplicateBackendUrl(i));
    }
    if b.weight <= 0 {
      return Some(BackendWeight(i));
    }
    return None;
  }

  /** The backend loop: fills the id and URL sets and counts enabled backends. */
  method ValidateBackends(text: Text, c: FullConfig) returns (r: Option<Violation>, ids: set<string>)
    ensures r.Some? ==> Violates(text, c, r.value)
    ensures r.None? ==> ValidBackends(text, c.backends) && ids == BackendIds(c.backends)
  {
    var bs := c.backends;
    ids := {};
    if bs == [] {
      return Some(NoBackends), ids;
    }
    var urls := {};
    var enabled := 0;
    for i := 0 to |bs|
      invariant BackendsSoFar(text, bs[..i], ids, urls, enabled)
    {
      r := CheckBackend(text, c, i, ids, urls);
      if r.Some? {
        return;
      }
      var b := bs[i].value;
      NextBackend(text, bs[..i], b, ids, urls, enabled);
      assert bs[..i + 1] == bs[..i] + [Some(b)];
      ids, urls := ids + {b.id}, urls + {b.url};
      if b.enabled {
        enabled := enabled + 1;
      }
      hide BackendsSoFar;
    }
    assert bs[..|bs|] == bs;
    if enabled == 0 {
      return Some(NoneEnabled), ids;
    }
    return None, ids;
  }

  /** The policy loop. */
  method ValidatePolicies(text: Text, c: FullConfig) returns (r: Option<Violation>, ids: set<string>)
    ensures r.Some? ==> Violates(text, c, r.value)
    ensures r.None? ==> ValidPolicies(c.policies) && ids == PolicyIds(c.policies)
  {
    var ps := c.policies;
    ids := {};
    for i := 0 to |ps|
      invariant ValidPolicies(ps[..i])
      invariant ids == PolicyIds(ps[..i])
    {
      var p := ps[i];
      if p.id == "" {
        return Some(EmptyPolicyId(i)), ids;
      }
      if p.id in ids {
        PolicyIdsMember(ps[..i], p.id);
        return Some(DuplicatePolicyId(i)), ids;
      }
      if p.rateLimiting.enabled {
        if p.rateLimiting.ratePerIP <= 0 {
          return Some(RateLimits(i)), ids;
        }
        if p.rateLimiting.burst <= 0 {
          return Some(RateLimits(i)), ids;
        }
        if p.rateLimiting.windowSec <= 0 {
          return Some(RateLimits(i)), ids;
        }
      }
      forall k | 0 <= k < i ensures ps[k].id != p.id {
        assert ps[..i][k] == ps[k];
        PolicyIdsMember(ps[..i], ps[k].id);
      }
      ids := ids + {p.id};
      assert ps[..i + 1][..i] == ps[..i];
    }
    assert ps[..|ps|] == ps;
    return None, ids;
  }

  /** The virtual-host loop with its two inner loops. */
  method ValidateVirtualHosts(text: Text, c: FullConfig, ids: set<string>, policyIds: set<string>)
    returns (r: Option<Violation>)
    requires ids == BackendIds(c.backends) && policyIds == PolicyIds(c.policies)
    ensures r.Some? ==> Violates(text, c, r.value)
    ensures r.None? ==> ValidVirtualHosts(c.virtualHosts, ids, policyIds)
  {
    hide BackendIds, PolicyIds;
    var vhs := c.virtualHosts;
    var domains := {};
    for i := 0 to |vhs|
      invariant forall k :: 0 <= k < i ==> ValidVirtualHost(vhs[k], ids, policyIds)
      invariant DistinctDomains(vhs[..i])
      invariant domains == set k | 0 <= k < i :: vhs[k].domain
    {
      var vh := vhs[i];
      if vh.domain == "" {
        return Some(EmptyDomain(i));
      }
      if vh.domain in domains {
        return Some(DuplicateDomain(i));
      }
      domains := domains + {vh.domain};
      if vh.backendIDs == [] && vh.pathRoutes == [] {
        return Some(NoTargets(i));
      }
      if vh.securityPolicyID !in policyIds {
        return Some(UnknownPolicy(i));
      }
      for k := 0 to |vh.backendIDs|
        invariant AllIn(vh.backendIDs[..k], ids)
      {
        if vh.backendIDs[k] !in ids {
          return Some(UnknownBackend(i));
        }
      }
      assert vh.backendIDs[..|vh.backendIDs|] == vh.backendIDs;
      var e := ValidateRoutes(text, c, i, ids);
      if e.Some? {
        return e;
      }
      assert vhs[..i + 1] == vhs[..i] + [vh];
    }
    assert vhs[..|vhs|] == vhs;
    return None;
  }

  method ValidateRoutes(text: Text, c: FullConfig, i: nat, ids: set<string>) returns (r: Option<Violation>)
    requires i < |c.virtualHosts| && ids == BackendIds(c.backends)
    ensures r.Some? ==> Violates(text, c, r.value)
    ensures r.None? ==> forall j :: 0 <= j < |c.virtualHosts[i].pathRoutes| ==>
                          ValidRoute(c.virtualHosts[i].pathRoutes[j], c.virtualHosts[i], ids)
  {
    hide BackendIds;
    var vh := c.virtualHosts[i];
    for j := 0 to |vh.pathRoutes|
      invariant forall k :: 0 <= k < j ==> ValidRoute(vh.pathRoutes[k], vh, ids)
    {
      var route := vh.pathRoutes[j];
      if route.path == "" {
        return Some(RoutePath(i, j));
      }
      if !HasPrefix(route.path, "/") {
        return Some(RoutePath(i, j));
      }
      if route.backendIDs == [] && vh.backendIDs == [] {
        return Some(RouteTargets(i, j));
      }
      for k := 0 to |route.backendIDs|
        invariant AllIn(route.backendIDs[..k], ids)
      {
        if route.backendIDs[k] !in ids {
          return Some(RouteUnknownBackend(i, j));
        }
      }
      assert route.backendIDs[..|route.backendIDs|] == route.backendIDs;
    }
    return None;
  }

  /** Accepts exactly the valid configurations, and reports only real violations. */
  method Validate(text: Text, c: FullConfig) returns (r: Option<Violation>)
    ensures r.None? <==> ValidConfig(text, c)
    ensures r.Some? ==> Violates(text, c, r.value)
  {
    hide ValidBackends, ValidVirtualHosts, ValidPolicies;
    r := FirstViolation(text, c);
    if r.Some? && ValidConfig(text, c) {
      ViolationRefutes(text, c, r.value);
    }
  }

  method FirstViolation(text: Text, c: FullConfig) returns (r: Option<Violation>)
    ensures r.None? ==> ValidConfig(text, c)
    ensures r.Some? ==> Violates(text, c, r.value)
  {
    hide ValidBackends, ValidVirtualHosts, ValidPolicies, ValidHealthCheck, BackendIds, PolicyIds;
    if c.server.proxyPort < 1 || c.server.proxyPort > 65535 {
      return Some(ProxyPort);
    }
    if c.server.adminGrpcPort < 1 || c.server.adminGrpcPort > 65535 {
      return Some(AdminGrpcPort);
    }
    var ids, policyIds;
    r, ids := ValidateBackends(text, c);
    if r.Some? {
      return;
    }
    if c.logging.bufferSize < 0 {
      return Some(Logging);
    }
    if c.logging.level != "" {
      if text.toLower(c.logging.level) !in {"debug", "info", "warn", "error"} {
        return Some(Logging);
      }
    }
    if c.strategy !in {"least-connections", "adaptive"} {
      return Some(Strategy);
    }
    var e := HealthCheckError(text, c.healthCheck);
    if e.Some? {
      return Some(HealthCheck(e.value));
    }
    if c.timeouts.connectMs <= 0 || c.timeouts.responseMs <= 0 || c.timeouts.keepAliveMs <= 0 || c.timeouts.idleConnMs <= 0 {
      return Some(Timeouts);
    }
    r, policyIds := ValidatePolicies(text, c);
    if r.Some? {
      return;
    }
    r := ValidateVirtualHosts(text, c, ids, policyIds);
  }

  /** Where the bounds lie. */
  lemma Edges(text: Text, h: HealthCheckConfig)
    requires h.enabled && ValidHealthCheck(text, h)
    ensures ValidPort(1) && ValidPort(65535) && !ValidPort(0) && !ValidPort(65536)
    ensures ValidHealthCheck(text, h.(concurrency := ConcurrencyConfig(1024, 1024))) && ValidHealthCheck(text, h.(concurrency := ConcurrencyConfig(1, 1)))
    ensures !ValidHealthCheck(text, h.(concurrency := ConcurrencyConfig(1025, 1025))) && !ValidHealthCheck(text, h.(concurrency := ConcurrencyConfig(2, 1)))
    ensures !ValidHealthCheck(text, h.(concurrency := ConcurrencyConfig(0, 1)))
    ensures ValidHealthCheck(text, h.(schedule := ScheduleConfig(100, 99))) && ValidHealthCheck(text, h.(schedule := ScheduleConfig(3600000, 0)))
    ensures !ValidHealthCheck(text, h.(schedule := ScheduleConfig(99, 0))) && !ValidHealthCheck(text, h.(schedule := ScheduleConfig(3600001, 0)))
    ensures !ValidHealthCheck(text, h.(schedule := ScheduleConfig(100, 100))) && !ValidHealthCheck(text, h.(schedule := ScheduleConfig(100, -1)))
    ensures ValidHealthCheck(text, h.(thresholds := ThresholdConfig(1, 1)))
    ensures !ValidHealthCheck(text, h.(thresholds := ThresholdConfig(0, 1))) && !ValidHealthCheck(text, h.(thresholds := ThresholdConfig(1, 0)))
    ensures ValidHealthCheck(text, h.(probe := h.probe.(timeoutMs := 60000))) && ValidHealthCheck(text, h.(probe := h.probe.(timeoutMs := 1)))
    ensures !ValidHealthCheck(text, h.(probe := h.probe.(timeoutMs := 60001))) && !ValidHealthCheck(text, h.(probe := h.probe.(timeoutMs := 0)))
    ensures ValidHealthCheck(text, h.(probe := h.probe.(successCodes := [100, 599])))
    ensures !ValidHealthCheck(text, h.(probe := h.probe.(successCodes := [99]))) && !ValidHealthCheck(text, h.(probe := h.probe.(successCodes := [600])))
    ensures ValidHealthCheck(text, h.(backoff := BackoffConfig(true, 1, 1, 1.0)))
    ensures !ValidHealthCheck(text, h.(backoff := BackoffConfig(true, 0, 1, 1.0))) && !ValidHealthCheck(text, h.(backoff := BackoffConfig(true, 2, 1, 1.0)))
    ensures !ValidHealthCheck(text, h.(backoff := BackoffConfig(true, 1, 1, 0.5)))
  {
    assert [99][0] == 99 && [600][0] == 600;
  }

  lemma MoreEdges(text: Text, url: string)
    requires text.parseUrl(url) == Parsed("http", "host") && url != "" && !HasPrefix(url, "env:")
    ensures ValidBackend(text, BackendConfig("a", url, 1, false)) && !ValidBackend(text, BackendConfig("a", url, 0, true))
    ensures !ValidBackend(text, BackendConfig("", url, 1, true)) && !ValidBackend(text, BackendConfig("a", "", 1, true))
    ensures ValidTimeouts(TimeoutsConfig(1, 1, 1, 1)) && !ValidTimeouts(TimeoutsConfig(0, 1, 1, 1)) && !ValidTimeouts(TimeoutsConfig(1, 0, 1, 1))
    ensures !ValidTimeouts(TimeoutsConfig(1, 1, 0, 1)) && !ValidTimeouts(TimeoutsConfig(1, 1, 1, 0))
    ensures ValidPolicy(SecurityPolicy("p", RateLimitingConfig(true, 1, 1, 1))) && ValidPolicy(SecurityPolicy("p", RateLimitingConfig(false, 0, 0, 0)))
    ensures !ValidPolicy(SecurityPolicy("p", RateLimitingConfig(true, 0, 1, 1))) && !ValidPolicy(SecurityPolicy("p", RateLimitingConfig(true, 1, 0, 1)))
    ensures !ValidPolicy(SecurityPolicy("p", RateLimitingConfig(true, 1, 1, 0))) && !ValidPolicy(SecurityPolicy("", RateLimitingConfig(false, 0, 0, 0)))
    ensures ValidLogging(text, LoggingConfig(true, "", true, 0)) && !ValidLogging(text, LoggingConfig(true, "", true, -1))
    ensures ValidTransport(TransportConfig(1, 1, 1, 1)) && !ValidTransport(TransportConfig(0, 1, 1, 1)) && !ValidTransport(TransportConfig(1, 1, 1, 0))
    ensures !ValidTransport(TransportConfig(1, 0, 1, 1)) && !ValidTransport(TransportConfig(1, 1, 0, 1))
  {
  }
}
