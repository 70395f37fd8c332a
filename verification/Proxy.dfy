/**
 Serving one request (internal/proxy/handler/proxy.go): building the candidate list, the
 retry loop with its in-place filtering, and the handler that combines them with routing.

 The load balancer and the upstream are inputs: functions of the candidates or backend and
 of the attempt number.
 */
module Proxy {
  import opened Base
  import opened Config
  import opened Snapshots
  import opened Routing
  import opened ServiceModel

  // ----- Filtering in place

  function WithoutBackend(bs: seq<BackendConfig>, id: string): seq<BackendConfig> {
    if bs == [] then []
    else WithoutBackend(bs[..|bs| - 1], id) + if bs[|bs| - 1].id == id then [] else [bs[|bs| - 1]]
  }

  lemma {:induction false} WithoutBackendMember(bs: seq<BackendConfig>, id: string, b: BackendConfig)
    ensures b in WithoutBackend(bs, id) <==> b in bs && b.id != id
    ensures |WithoutBackend(bs, id)| <= |bs|
  {
    if bs != [] {
      WithoutBackendMember(bs[..|bs| - 1], id, b);
      assert bs == bs[..|bs| - 1] + [bs[|bs| - 1]];
    }
  }

  lemma {:induction false} WithoutBackendShrinks(bs: seq<BackendConfig>, b: BackendConfig)
    requires b in bs
    ensures |WithoutBackend(bs, b.id)| < |bs|
  {
    var n := |bs| - 1;
    WithoutBackendMember(bs[..n], b.id, b);
    if bs[n].id != b.id {
      assert bs == bs[..n] + [bs[n]];
      WithoutBackendShrinks(bs[..n], b);
    }
  }

  /** Compacts the first `n` elements over themselves and returns the new length. */
  method FilterOutBackend(backends: array<BackendConfig>, n: nat, targetID: string) returns (m: nat)
    requires n <= backends.Length
    modifies backends
    ensures m <= n
    ensures backends[..m] == WithoutBackend(old(backends[..n]), targetID)
    ensures backends[n..] == old(backends[n..])
  {
    m := 0;
    for i := 0 to n
      invariant m <= i
      invariant backends[..m] == WithoutBackend(old(backends[..i]), targetID)
      invariant backends[m..] == old(backends[m..])
    {
      assert old(backends[..i + 1])[..i] == old(backends[..i]);
      assert backends[i] == old(backends[i]);
      if backends[i].id != targetID {
        ghost var before := backends[..m];
        backends[m] := backends[i];
        m := m + 1;
        assert backends[..m] == before + [old(backends[i])];
      }
    }
    assert backends[n..] == backends[m..][n - m..];
  }

  // ----- The retry loop

  datatype Choice = Chosen(backend: BackendConfig) | NoBackend | NilBackend

  type Balancer = (seq<BackendConfig>, nat) -> Choice

  type Upstream = (BackendConfig, nat) -> bool

  datatype Outcome =
    | Served(backend: BackendConfig)
    | UpstreamFailed(failed: BackendConfig)
    | SelectionFailed(choice: Choice, last: Option<BackendConfig>)
    | Nothing

  /** A balancer picks one of the candidates it is given. */
  ghost predicate Picks(lb: Balancer) {
    forall bs, n {:trigger lb(bs, n)} :: lb(bs, n).Chosen? ==> lb(bs, n).backend in bs
  }

  predicate IsRetryable(httpMethod: string, bodyReplayable: bool) {
    httpMethod in {"GET", "HEAD", "OPTIONS", "TRACE"} || bodyReplayable
  }

  /**
   What comes of the attempts on `bs`, and the backends tried: one attempt, and after its
   failure a second one on another backend if the request may be repeated and one is left.
   */
  function Attempted(bs: seq<BackendConfig>, retryable: bool, lb: Balancer, upstream: Upstream): (Outcome, seq<BackendConfig>) {
    if bs == [] then (Nothing, [])
    else
      var first := lb(bs, 0);
      if !first.Chosen? then (SelectionFailed(first, None), [])
      else
        var b := first.backend;
        var rest := WithoutBackend(bs, b.id);
        if upstream(b, 0) then (Served(b), [b])
        else if !retryable || rest == [] then (UpstreamFailed(b), [b])
        else
          var second := lb(rest, 1);
          if !second.Chosen? then (SelectionFailed(second, Some(b)), [b])
          else (if upstream(second.backend, 1) then Served(second.backend) else UpstreamFailed(second.backend), [b, second.backend])
  }

  /** At most two attempts, on different backends of the list; giving up early means nothing else was left. */
  lemma AttemptsAreFew(bs: seq<BackendConfig>, retryable: bool, lb: Balancer, upstream: Upstream)
    requires Picks(lb)
    ensures var (r, attempts) := Attempted(bs, retryable, lb, upstream);
            && |attempts| <= 2 && (!retryable ==> |attempts| <= 1)
            && (forall i :: 0 <= i < |attempts| ==> attempts[i] in bs)
            && (|attempts| == 2 ==> attempts[0].id != attempts[1].id && !upstream(attempts[0], 0))
            && (r.UpstreamFailed? && |attempts| == 1 && retryable ==> forall b :: b in bs ==> b.id == attempts[0].id)
            && (r.Served? <==> exists i :: 0 <= i < |attempts| && upstream(attempts[i], i))
  {
    if bs != [] && lb(bs, 0).Chosen? {
      var b := lb(bs, 0).backend;
      var (r, attempts) := Attempted(bs, retryable, lb, upstream);
      forall x ensures x in WithoutBackend(bs, b.id) <==> x in bs && x.id != b.id {
        WithoutBackendMember(bs, b.id, x);
      }
      hide WithoutBackend;
      assert r.Served? ==> upstream(attempts[|attempts| - 1], |attempts| - 1);
    }
  }

  /** `rest` lists, in the order of `bs`, exactly its elements with another id, those at the indices `at`. */
  ghost predicate IsWithout(bs: seq<BackendConfig>, id: string, rest: seq<BackendConfig>, at: seq<nat>) {
    && |at| == |rest|
    && (forall k :: 0 <= k < |at| ==> at[k] < |bs| && rest[k] == bs[at[k]] && bs[at[k]].id != id)
    && (forall j, k :: 0 <= j < k < |at| ==> at[j] < at[k])
    && (forall i: nat :: i < |bs| && bs[i].id != id ==> i in at)
  }

  lemma {:induction false} WithoutBackendIsWithout(bs: seq<BackendConfig>, id: string) returns (at: seq<nat>)
    ensures IsWithout(bs, id, WithoutBackend(bs, id), at)
  {
    if bs == [] {
      at := [];
    } else {
      var n := |bs| - 1;
      var front := WithoutBackendIsWithout(bs[..n], id);
      OneMore(bs, id, WithoutBackend(bs[..n], id), front);
      at := if bs[n].id != id then front + [n] else front;
      hide IsWithout;
    }
  }

  lemma OneMore(bs: seq<BackendConfig>, id: string, rest: seq<BackendConfig>, at: seq<nat>)
    requires bs != [] && IsWithout(bs[..|bs| - 1], id, rest, at)
    ensures var n := |bs| - 1;
            if bs[n].id == id then IsWithout(bs, id, rest, at) else IsWithout(bs, id, rest + [bs[n]], at + [n])
  {
    var n := |bs| - 1;
    forall i: nat | i < n && bs[i].id != id ensures i in at {
      assert bs[..n][i].id != id;
    }
    assert forall k :: 0 <= k < |at| ==> bs[..n][at[k]] == bs[at[k]];
  }

  /**
   What the attempts come to, told by what the balancer and the upstream answer.  After a
   failed first attempt of a request that may be repeated, the balancer is offered the other
   backends, if there are any, and its choice is contacted.  Selection fails exactly if the
   balancer, offered some backends, chooses none, and its answer is reported.
   */
  lemma AttemptsExactly(bs: seq<BackendConfig>, retryable: bool, lb: Balancer, upstream: Upstream)
    returns (rest: seq<BackendConfig>, at: seq<nat>)
    requires bs != []
    ensures var first := lb(bs, 0);
            var (r, attempts) := Attempted(bs, retryable, lb, upstream);
            if !first.Chosen? then r.SelectionFailed? && r.choice == first && attempts == []
            else
              var b := first.backend;
              && IsWithout(bs, b.id, rest, at)
              && (upstream(b, 0) ==> r == Served(b) && attempts == [b])
              && (!upstream(b, 0) && (!retryable || rest == []) ==> r == UpstreamFailed(b) && attempts == [b])
              && (!upstream(b, 0) && retryable && rest != [] ==>
                    var second := lb(rest, 1);
                    if !second.Chosen? then r.SelectionFailed? && r.choice == second && attempts == [b]
                    else attempts == [b, second.backend] &&
                         r == if upstream(second.backend, 1) then Served(second.backend) else UpstreamFailed(second.backend))
  {
    rest, at := [], [];
    if lb(bs, 0).Chosen? {
      rest := WithoutBackend(bs, lb(bs, 0).backend.id);
      at := WithoutBackendIsWithout(bs, lb(bs, 0).backend.id);
    }
    hide WithoutBackend;
  }

  /**
   With a balancer that chooses from any list it is offered, a request that may be repeated
   is sent to a second backend whenever the first fails and one with another id is left, and
   is served exactly if that one answers; selection never fails.
   */
  lemma RetriesWheneverPossible(bs: seq<BackendConfig>, lb: Balancer, upstream: Upstream)
    requires bs != [] && Picks(lb) && forall cs, n {:trigger lb(cs, n)} :: cs != [] ==> lb(cs, n).Chosen?
    ensures var (r, attempts) := Attempted(bs, true, lb, upstream);
            && !r.SelectionFailed? && attempts != [] && attempts[0] in bs
            && (!upstream(attempts[0], 0) && (exists b :: b in bs && b.id != attempts[0].id) ==>
                  && |attempts| == 2 && attempts[1] in bs && attempts[1].id != attempts[0].id
                  && (r.Served? <==> upstream(attempts[1], 1)))
  {
    var b := lb(bs, 0).backend;
    forall x ensures x in WithoutBackend(bs, b.id) <==> x in bs && x.id != b.id {
      WithoutBackendMember(bs, b.id, x);
    }
    hide WithoutBackend;
  }

  /** A request with one of the four safe methods may be repeated, any other exactly if its body can be sent again. */
  lemma RetryableExactly(httpMethod: string, bodyReplayable: bool)
    ensures IsRetryable(httpMethod, true)
    ensures IsRetryable(httpMethod, false) <==>
            httpMethod == "GET" || httpMethod == "HEAD" || httpMethod == "OPTIONS" || httpMethod == "TRACE"
  {
  }

  /** The loop, on a copy of the caller's candidates, makes exactly those attempts. */
  method ExecuteProxyRequest(backends: array<BackendConfig>, retryable: bool, lb: Balancer, upstream: Upstream)
    returns (r: Outcome, attempts: seq<BackendConfig>)
    requires Picks(lb)
    ensures (r, attempts) == Attempted(backends[..], retryable, lb, upstream)
    ensures |attempts| <= 2 && (!retryable ==> |attempts| <= 1)
    ensures forall i :: 0 <= i < |attempts| ==> attempts[i] in backends[..]
    ensures |attempts| == 2 ==> attempts[0].id != attempts[1].id && !upstream(attempts[0], 0)
    ensures r.UpstreamFailed? && |attempts| == 1 && retryable ==> forall b :: b in backends[..] ==> b.id == attempts[0].id
  {
    hide WithoutBackend, IsRetryable;
    AttemptsAreFew(backends[..], retryable, lb, upstream);
    var candidates := new BackendConfig[backends.Length](k requires 0 <= k < backends.Length reads backends => backends[k]);
    var n := candidates.Length;
    assert candidates[..n] == backends[..];
    attempts := [];
    r := Nothing;
    while n > 0
      invariant 0 <= n <= candidates.Length && fresh(candidates)
      invariant |attempts| <= 1
      invariant attempts == [] ==> r == Nothing && n == candidates.Length == backends.Length && candidates[..n] == backends[..]
      invariant |attempts| == 1 ==>
                  retryable && r == UpstreamFailed(attempts[0]) && !upstream(attempts[0], 0) &&
                  backends[..] != [] && lb(backends[..], 0) == Chosen(attempts[0]) &&
                  candidates[..n] == WithoutBackend(backends[..], attempts[0].id)
      decreases n
    {
      ghost var given := candidates[..n];
      assert given != [] && given == if attempts == [] then backends[..] else WithoutBackend(backends[..], attempts[0].id);
      assert attempts == [] || attempts == [attempts[0]];
      var choice := lb(candidates[..n], |attempts|);
      var lastBackend := if attempts == [] then None else Some(attempts[|attempts| - 1]);
      if choice.NoBackend? {
        return SelectionFailed(choice, lastBackend), attempts;
      }
      if choice.NilBackend? {
        return SelectionFailed(choice, lastBackend), attempts;
      }
      var backend := choice.backend;
      var attempt := |attempts|;
      attempts := attempts + [backend];
      assert attempts == if attempt == 0 then [backend] else [attempts[0], backend];
      if upstream(backend, attempt) {
        return Served(backend), attempts;
      }
      r := UpstreamFailed(backend);
      if !retryable || attempt > 0 {
        break;
      }
      WithoutBackendShrinks(given, backend);
      n := FilterOutBackend(candidates, n, backend.id);
    }
    assert n == 0 ==> candidates[..n] == [];
    assert |attempts| == 1 ==> attempts == [attempts[0]];
  }

  // ----- The handler

  /** The targets that are configured, enabled and active, in order and with repetitions. */
  function Candidates(s: Snapshot, active: map<string, bool>, targets: seq<string>): seq<BackendConfig> {
    if targets == [] then []
    else
      var id := targets[|targets| - 1];
      Candidates(s, active, targets[..|targets| - 1]) +
      if id in s.backendsById && s.backendsById[id].enabled && s.backendsById[id].id in active && active[s.backendsById[id].id]
      then [s.backendsById[id]] else []
  }

  lemma {:induction false} CandidatesMember(s: Snapshot, active: map<string, bool>, targets: seq<string>, b: BackendConfig)
    ensures b in Candidates(s, active, targets) <==>
            b.enabled && b.id in active && active[b.id] &&
            exists id :: id in targets && id in s.backendsById && s.backendsById[id] == b
  {
    if targets != [] {
      var n := |targets| - 1;
      CandidatesMember(s, active, targets[..n], b);
      assert targets == targets[..n] + [targets[n]];
      assert forall id :: id in targets <==> id in targets[..n] || id == targets[n];
    }
  }

  /** Candidates are collected target by target, in order and with repetitions. */
  lemma {:induction false} CandidatesInOrder(s: Snapshot, active: map<string, bool>, a: seq<string>, b: seq<string>)
    ensures Candidates(s, active, a + b) == Candidates(s, active, a) + Candidates(s, active, b)
    ensures |Candidates(s, active, b)| <= |b|
  {
    if b == [] {
      assert a + b == a;
    } else {
      var n := |b| - 1;
      CandidatesInOrder(s, active, a, b[..n]);
      assert (a + b)[..|a| + n] == a + b[..n];
      var id := b[n];
      var last := if id in s.backendsById && s.backendsById[id].enabled && s.backendsById[id].id in active && active[s.backendsById[id].id]
                  then [s.backendsById[id]] else [];
      assert Candidates(s, active, a + b) == Candidates(s, active, a + b[..n]) + last;
      assert Candidates(s, active, b) == Candidates(s, active, b[..n]) + last;
      hide Candidates;
      assert (Candidates(s, active, a) + Candidates(s, active, b[..n])) + last ==
             Candidates(s, active, a) + (Candidates(s, active, b[..n]) + last);
    }
  }

  method BuildCandidates(s: Snapshot, active: map<string, bool>, targets: seq<string>) returns (bs: seq<BackendConfig>)
    ensures bs == Candidates(s, active, targets)
  {
    bs := [];
    for i := 0 to |targets|
      invariant bs == Candidates(s, active, targets[..i])
    {
      assert targets[..i + 1][..i] == targets[..i];
      var id := targets[i];
      if id !in s.backendsById || !s.backendsById[id].enabled {
        continue;
      }
      var b := s.backendsById[id];
      if b.id in active && active[b.id] {
        bs := bs + [b];
      }
    }
    assert targets[..|targets|] == targets;
  }

  datatype Response =
    | Upgrade501 | UnknownHost403 | NoActive503 | NoAvailable503 | BadGateway502
    | Proxied(backend: BackendConfig, upstreamPath: string)

  /**
   One request against one loaded state.  Each refusal has its exact condition; a request
   refused before selection contacts nobody; every backend contacted is an enabled backend
   of the configuration, active when the request was routed, and a target of the route.
   */
  method ProxyHandler(text: Text, c: FullConfig, active: map<string, bool>, host: string, path: string,
                      upgrade: bool, httpMethod: string, bodyReplayable: bool, lb: Balancer, upstream: Upstream)
    returns (response: Response, attempts: seq<BackendConfig>)
    requires ValidConfig(text, c) && Picks(lb)
    ensures response.Upgrade501? <==> upgrade
    ensures response.UnknownHost403? <==> !upgrade && TargetsFor(c, HostName(host), path) == []
    ensures response.NoActive503? <==>
              !upgrade && TargetsFor(c, HostName(host), path) != [] && Routed(c, active, host, path) == []
    ensures var bs := Routed(c, active, host, path);
            var (outcome, tried) := Attempted(bs, IsRetryable(httpMethod, bodyReplayable), lb, upstream);
            && attempts == (if upgrade then [] else tried)
            && (response.NoAvailable503? <==> !upgrade && outcome.SelectionFailed? && outcome.choice.NoBackend?)
            && (response.BadGateway502? <==>
                  !upgrade && (outcome.UpstreamFailed? || (outcome.SelectionFailed? && outcome.choice.NilBackend?)))
            && (response.Proxied? <==> !upgrade && outcome.Served?)
            && (response.Proxied? ==> response == Proxied(outcome.backend, UpstreamPath(c, HostName(host), path)))
    ensures response.Upgrade501? || response.UnknownHost403? || response.NoActive503? ==> attempts == []
    ensures |attempts| <= 2 && (!IsRetryable(httpMethod, bodyReplayable) ==> |attempts| <= 1)
    ensures |attempts| == 2 ==> attempts[0].id != attempts[1].id
    ensures forall i :: 0 <= i < |attempts| ==>
              attempts[i].enabled && attempts[i].id in active && active[attempts[i].id] &&
              Some(attempts[i]) in c.backends && attempts[i].id in TargetsFor(c, HostName(host), path)
  {
    hide ValidConfig, PathRouteMatches, HostName, UpstreamPath, TargetsFor, Candidates, SnapshotOf, StripRoutePrefix;
    NoTargetsNoCandidates(SnapshotOf(c), active);
    attempts := [];
    var name := HostName(host);
    var route := RouteRequest(c, name, path);
    RouteMeaning(c, name, path, route);
    if upgrade {
      return Upgrade501, [];
    }
    if route.vhost.None? || route.targets == [] {
      return UnknownHost403, [];
    }
    var snapshot := BuildSnapshot(c);
    var candidates := BuildCandidates(snapshot, active, route.targets);
    if candidates == [] {
      return NoActive503, [];
    }
    var backends := new BackendConfig[|candidates|](k requires 0 <= k < |candidates| => candidates[k]);
    assert backends[..] == candidates;
    var outcome;
    outcome, attempts := ExecuteProxyRequest(backends, IsRetryable(httpMethod, bodyReplayable), lb, upstream);
    forall i | 0 <= i < |attempts|
      ensures attempts[i].enabled && attempts[i].id in active && active[attempts[i].id] &&
              Some(attempts[i]) in c.backends && attempts[i].id in TargetsFor(c, HostName(host), path)
    {
      CandidateIsConfigured(text, c, active, route.targets, attempts[i]);
    }
    if outcome.Served? {
      var upstreamPath := path;
      if route.route.Some? && route.route.value.stripPrefix {
        upstreamPath := StripRoutePrefix(path, route.route.value.path);
      }
      return Proxied(outcome.backend, upstreamPath), attempts;
    }
    if outcome.SelectionFailed? && outcome.choice.NoBackend? {
      return NoAvailable503, attempts;
    }
    return BadGateway502, attempts;
  }

  /** The candidates for a request: the active targets of its route. */
  function Routed(c: FullConfig, active: map<string, bool>, host: string, path: string): seq<BackendConfig> {
    Candidates(SnapshotOf(c), active, TargetsFor(c, HostName(host), path))
  }

  lemma NoTargetsNoCandidates(s: Snapshot, active: map<string, bool>)
    ensures Candidates(s, active, []) == []
  {
  }

  /** The backend ids a request for this host and path is routed to; none for an unknown host. */
  function TargetsFor(c: FullConfig, host: string, path: string): seq<string> {
    var i := IndexOfHost(c.virtualHosts, host);
    if i == |c.virtualHosts| then [] else Targets(c.virtualHosts[i], c.virtualHosts[i].pathRoutes, path)
  }

  /** The path sent upstream. */
  function UpstreamPath(c: FullConfig, host: string, path: string): string {
    var i := IndexOfHost(c.virtualHosts, host);
    if i == |c.virtualHosts| then path
    else
      var routes := c.virtualHosts[i].pathRoutes;
      var b := Best(routes, path);
      if b.Some? && routes[b.value].stripPrefix then StripRoutePrefix(path, routes[b.value].path) else path
  }

  /**
   The path sent upstream is the request's own, unless the chosen route strips its prefix;
   then it is the rest of the path, rooted.
   */
  lemma UpstreamPathExactly(c: FullConfig, host: string, path: string, vh: VirtualHost, route: PathRoute)
    ensures IndexOfHost(c.virtualHosts, host) == |c.virtualHosts| ==> UpstreamPath(c, host, path) == path
    ensures IndexOfHost(c.virtualHosts, host) < |c.virtualHosts| && vh == c.virtualHosts[IndexOfHost(c.virtualHosts, host)] ==>
              && (ChosenRoute(vh.pathRoutes, path).None? ==> UpstreamPath(c, host, path) == path)
              && (ChosenRoute(vh.pathRoutes, path) == Some(route) && !route.stripPrefix ==> UpstreamPath(c, host, path) == path)
              && (ChosenRoute(vh.pathRoutes, path) == Some(route) && route.stripPrefix && route.path != "/" ==>
                    if path == route.path then UpstreamPath(c, host, path) == "/"
                    else route.path + UpstreamPath(c, host, path) == path)
  {
    hide IndexOfHost, StripRoutePrefix;
    if IndexOfHost(c.virtualHosts, host) < |c.virtualHosts| && vh == c.virtualHosts[IndexOfHost(c.virtualHosts, host)] &&
       ChosenRoute(vh.pathRoutes, path) == Some(route) && route.path != "/" {
      BestIsLongest(vh.pathRoutes, path);
      hide Best, PathRouteMatches;
      StripRejoins(path, route.path);
    }
  }

  /** A known host's requests go to the backends of the chosen route, if it has any; an unknown host's to none. */
  lemma TargetsForExactly(c: FullConfig, host: string, path: string, vh: VirtualHost)
    ensures (forall i :: 0 <= i < |c.virtualHosts| ==> c.virtualHosts[i].domain != host) ==> TargetsFor(c, host, path) == []
    ensures DistinctDomains(c.virtualHosts) && vh in c.virtualHosts && vh.domain == host ==>
              var route := ChosenRoute(vh.pathRoutes, path);
              && (route.None? ==> TargetsFor(c, host, path) == vh.backendIDs)
              && (route.Some? && route.value.backendIDs != [] ==> TargetsFor(c, host, path) == route.value.backendIDs)
  {
    if DistinctDomains(c.virtualHosts) && vh in c.virtualHosts && vh.domain == host {
      var i :| 0 <= i < |c.virtualHosts| && c.virtualHosts[i] == vh;
      assert IndexOfHost(c.virtualHosts, host) == i;
      hide IndexOfHost;
      TargetsOrigin(vh, vh.pathRoutes, path);
      BestIsLongest(vh.pathRoutes, path);
      if ChosenRoute(vh.pathRoutes, path).Some? && ChosenRoute(vh.pathRoutes, path).value.backendIDs != [] {
        TargetsOfChosen(vh, vh.pathRoutes, path);
      }
      hide Best, Targets, PathRouteMatches;
    }
  }

  lemma RouteMeaning(c: FullConfig, host: string, path: string, r: Route)
    requires var i := IndexOfHost(c.virtualHosts, host);
             if i == |c.virtualHosts| then r == Route(None, None, [])
             else var vh := c.virtualHosts[i];
                  && r.vhost == Some(vh)
                  && r.route == ChosenRoute(vh.pathRoutes, path)
                  && r.targets == Targets(vh, vh.pathRoutes, path)
    ensures r.targets == TargetsFor(c, host, path) && (r.vhost.None? ==> r.targets == [])
    ensures UpstreamPath(c, host, path) ==
            if r.route.Some? && r.route.value.stripPrefix then StripRoutePrefix(path, r.route.value.path) else path
  {
  }

  lemma CandidateIsConfigured(text: Text, c: FullConfig, active: map<string, bool>, targets: seq<string>, b: BackendConfig)
    requires ValidConfig(text, c) && b in Candidates(SnapshotOf(c), active, targets)
    ensures b.enabled && b.id in active && active[b.id] && Some(b) in c.backends && b.id in targets
  {
    CandidatesMember(SnapshotOf(c), active, targets, b);
    var id :| id in targets && id in BackendIndex(c.backends) && BackendIndex(c.backends)[id] == b;
    forall i | 0 <= i < |c.backends| ensures c.backends[i].Some? {
      assert ValidBackendEntry(text, c.backends[i]);
    }
    BackendIndexIsExact(c.backends, id);
    hide ValidVirtualHosts, ValidPolicies, ValidBackend, BackendIndex;
    var i :| 0 <= i < |c.backends| && c.backends[i].value.id == id;
    assert c.backends[i] == Some(b);
  }
}
