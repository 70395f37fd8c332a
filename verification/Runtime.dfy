/**
 The runtime object (internal/proxy/runtime/runtime.go) and the registry of status objects
 (internal/proxy/runtime/backend_registry.go), run without interruption;
 `RuntimeModel` interleaves the steps.
 */
module Runtimes {
  import opened Base
  import opened Config
  import opened Defaults
  import opened Snapshots
  import opened HealthStatus
  import opened Metrics
  import opened Services
  import ServiceModel
  import ServiceExact
  import RuntimeModel

  class BackendRegistry {
    var statuses: map<string, BackendStatus>

    constructor ()
      ensures statuses == map[]
    {
      statuses := map[];
    }

    method Get(id: string) returns (s: BackendStatus?)
      ensures s == null <==> id !in statuses
      ensures s != null ==> s == statuses[id]
    {
      s := null;
      if id in statuses {
        s := statuses[id];
      }
    }

    /** Known ids keep their object, new ids get a fresh one, and the rest are forgotten. */
    method Reconcile(backends: seq<Option<BackendConfig>>) returns (next: map<string, BackendStatus>)
      modifies this
      ensures statuses == next && next.Keys == BackendIds(backends)
      ensures forall id :: id in next ==>
                if id in old(statuses) then next[id] == old(statuses)[id]
                else fresh(next[id]) && next[id].View() == FRESH
      ensures forall i, j :: i in next && j in next && i != j && i !in old(statuses) ==> next[i] != next[j]
    {
      next := map[];
      for k := 0 to |backends|
        invariant statuses == old(statuses)
        invariant next.Keys == BackendIds(backends[..k])
        invariant forall id :: id in next ==>
                    if id in old(statuses) then next[id] == old(statuses)[id]
                    else fresh(next[id]) && next[id].View() == FRESH
        invariant forall i, j :: i in next && j in next && i != j && i !in old(statuses) ==> next[i] != next[j]
      {
        assert backends[..k + 1][..k] == backends[..k];
        if backends[k].None? {
          continue;
        }
        var id := backends[k].value.id;
        if id in statuses {
          next := next[id := statuses[id]];
          continue;
        }
        var status := new BackendStatus();
        next := next[id := status];
      }
      assert backends[..|backends|] == backends;
      statuses := next;
    }
  }

  /** The client for upstream requests, built for some timeouts; its transport is not part of this model. */
  class HttpClient {
    const timeouts: TimeoutsConfig

    constructor (timeouts: TimeoutsConfig)
      ensures this.timeouts == timeouts
    {
      this.timeouts := timeouts;
    }
  }

  /** The balancer chosen for some strategy. */
  class LoadBalancer {
    const strategy: string

    constructor (strategy: string)
      ensures this.strategy == strategy
    {
      this.strategy := strategy;
    }
  }

  /** Immutable once published; the status objects themselves are shared and change. */
  datatype RuntimeState = RuntimeState(
    snapshot: Snapshot, statuses: map<string, BackendStatus>, client: HttpClient, balancer: LoadBalancer)

  /** The client and the balancer are those the configuration asks for. */
  predicate Fits(state: RuntimeState) {
    state.client.timeouts == state.snapshot.raw.timeouts && state.balancer.strategy == state.snapshot.raw.strategy
  }

  /** No two ids share a status object. */
  ghost predicate Injective(statuses: map<string, BackendStatus>) {
    forall i, j :: i in statuses && j in statuses && i != j ==> statuses[i] != statuses[j]
  }

  /** Some backend with this id is enabled. */
  predicate EnabledId(bs: seq<Option<BackendConfig>>, id: string) {
    exists i :: 0 <= i < |bs| && bs[i].Some? && bs[i].value.enabled && bs[i].value.id == id
  }

  /** What building a state makes of a status: enabled backends are healthy when checking is disabled. */
  ghost function Built(c: FullConfig, id: string, before: Status): Status {
    if !c.healthCheck.enabled && EnabledId(c.backends, id) then MarkedHealthy(before) else before
  }

  lemma BuiltExactly(c: FullConfig)
    ensures !c.healthCheck.enabled ==>
              forall b :: Some(b) in c.backends && b.enabled ==>
                b.id in BackendIds(c.backends) && forall before :: Built(c, b.id, before).health == Healthy
    ensures c.healthCheck.enabled ==> forall id, before :: Built(c, id, before) == before
  {
    forall b | Some(b) in c.backends && b.enabled ensures b.id in BackendIds(c.backends) && EnabledId(c.backends, b.id) {
      var i :| 0 <= i < |c.backends| && c.backends[i] == Some(b);
      BackendIdsMember(c.backends, b.id);
    }
    hide BackendIds, EnabledId;
  }

  class Runtime {
    const service: Service
    const metrics: BackendMetricsManager
    const registry: BackendRegistry
    var state: RuntimeState

    /** What readers may rely on between any two steps: the URLs of the state they can load have metrics. */
    ghost predicate Observable()
      reads this, metrics
    {
      metrics.Valid() && BackendUrls(state.snapshot.raw.backends) <= metrics.backends.Keys
    }

    /** Between updates: the published state is the service's, and its URLs have metrics. */
    ghost predicate Valid()
      reads this, service, metrics, registry
    {
      && service.Valid() && Observable()
      && state.snapshot == service.snapshot && Fits(state)
      && state.statuses == registry.statuses
      && state.statuses.Keys == BackendIds(service.current.backends)
      && Injective(state.statuses)
    }

    // ----- The steps of an update that readers can observe; each one keeps Observable

    method RegisterUrl(url: string)
      requires Observable()
      modifies metrics
      ensures Observable() && metrics.backends.Keys == old(metrics.backends).Keys + {url}
      ensures forall u :: u in old(metrics.backends) ==> metrics.backends[u] == old(metrics.backends)[u]
    {
      metrics.Register(url);
    }

    /** A state may be published only once its URLs are registered. */
    method SwapState(next: RuntimeState) returns (previous: RuntimeState)
      requires Observable() && BackendUrls(next.snapshot.raw.backends) <= metrics.backends.Keys
      modifies this
      ensures Observable() && previous == old(state) && state == next
    {
      previous := state;
      state := next;
    }

    /** Readers can rely on the metrics as long as no published backend has a deregistered URL. */
    method DeregisterUrl(url: string)
      requires metrics.Valid()
      modifies metrics
      ensures metrics.Valid() && metrics.backends == old(metrics.backends) - {url}
      ensures Observable() <==> old(Observable()) && url !in BackendUrls(state.snapshot.raw.backends)
    {
      metrics.Deregister(url);
    }

    method RegisterBackendMetrics(bs: seq<Option<BackendConfig>>)
      requires Observable()
      modifies metrics
      ensures Observable()
      ensures metrics.backends.Keys == old(metrics.backends).Keys + BackendUrls(bs)
      ensures forall u :: u in old(metrics.backends) ==> metrics.backends[u] == old(metrics.backends)[u]
    {
      for i := 0 to |bs|
        invariant Observable()
        invariant metrics.backends.Keys == old(metrics.backends).Keys + BackendUrls(bs[..i])
        invariant forall u :: u in old(metrics.backends) ==> metrics.backends[u] == old(metrics.backends)[u]
      {
        assert bs[..i + 1][..i] == bs[..i];
        if bs[i].Some? {
          RegisterUrl(bs[i].value.url);
        }
      }
      assert bs[..|bs|] == bs;
    }

    /** Exactly if no id that is gone leaves its URL to a published backend, readers can rely on the metrics at every step. */
    method DeregisterRemovedBackendMetrics(previous: FullConfig)
      requires Observable() && state.snapshot == SnapshotOf(state.snapshot.raw)
      modifies metrics
      ensures metrics.Valid() && metrics.backends ==
              old(metrics.backends) - RuntimeModel.RemovedUrls(previous.backends, BackendIds(state.snapshot.raw.backends))
      ensures Observable() <==> RuntimeModel.SafeRemoval(previous, state.snapshot.raw)
    {
      var bs := previous.backends;
      IndexKeys(state.snapshot.raw.backends);
      RuntimeModel.RegistrationKeptExactly(metrics.backends.Keys, previous, state.snapshot.raw);
      hide BackendIds, BackendIndex, BackendUrls, RuntimeModel.SafeRemoval, RuntimeModel.RemovedUrls;
      RemovedNone(BackendIds(state.snapshot.raw.backends));
      for i := 0 to |bs|
        invariant metrics.Valid()
        invariant metrics.backends ==
                  old(metrics.backends) - RuntimeModel.RemovedUrls(bs[..i], BackendIds(state.snapshot.raw.backends))
        invariant RuntimeModel.SafeRemoval(previous, state.snapshot.raw) ==> Observable()
      {
        RemovedNext(bs, i, BackendIds(state.snapshot.raw.backends));
        if bs[i].Some? && bs[i].value.id !in state.snapshot.backendsById {
          SafeUrl(previous, state.snapshot.raw, i);
          DeregisterUrl(bs[i].value.url);
        }
      }
      assert bs[..|bs|] == bs;
      assert old(metrics.backends).Keys + BackendUrls(state.snapshot.raw.backends) == old(metrics.backends).Keys;
    }

    constructor Init(service: Service, metrics: BackendMetricsManager, registry: BackendRegistry, state: RuntimeState)
      ensures this.service == service && this.metrics == metrics && this.registry == registry && this.state == state
    {
      this.service, this.metrics, this.registry, this.state := service, metrics, registry, state;
    }

    /** Null when the file does not load. */
    static method NewRuntime(text: Text, file: FullConfig) returns (rt: Runtime?)
      ensures rt == null <==> ServiceModel.Load(text, file).None?
      ensures rt != null ==> rt.Valid() && rt.metrics.backends.Keys == BackendUrls(rt.service.current.backends)
      ensures rt != null ==> forall id :: id in rt.state.statuses ==>
                rt.state.statuses[id].View() == Built(rt.service.current, id, FRESH)
    {
      hide ServiceModel.Sound, ValidConfig, BackendIds, BackendUrls, EnabledId, ServiceModel.Load;
      var service := Service.NewService(text, file);
      if service == null {
        return null;
      }
      var metrics := new BackendMetricsManager();
      var registry := new BackendRegistry();
      RegisterAll(metrics, service.current.backends);
      var statuses := registry.Reconcile(service.current.backends);
      var state := BuildRuntimeState(None, service.snapshot, statuses);
      rt := new Runtime.Init(service, metrics, registry, state);
    }

    /** The update of one operation, from the service to the published state. */
    method ApplyUpdate(op: ServiceModel.Op, saveOk: bool) returns (err: Option<ServiceModel.Error>)
      requires Valid() && !op.Replace?
      modifies this, service, metrics, registry, set id | id in registry.statuses :: registry.statuses[id]
      ensures Valid()
      ensures (service.View(), err) == ServiceModel.Step(service.text, old(service.View()), op, saveOk)
      ensures service.current.healthCheck == old(service.current.healthCheck)
      // A refused update leaves everything as it was.
      ensures err.Some? ==>
                state == old(state) && metrics.backends == old(metrics.backends) &&
                forall id :: id in old(state.statuses) ==> state.statuses[id].View() == old(state.statuses[id].View())
      // Known ids keep their status, new ids get a fresh one; with checking disabled enabled backends are healthy.
      ensures forall id :: id in state.statuses ==>
                if id in old(state.statuses) then state.statuses[id] == old(state.statuses)[id] else fresh(state.statuses[id])
      ensures err.None? ==> forall id :: id in state.statuses ==>
                state.statuses[id].View() ==
                Built(service.current, id, if id in old(state.statuses) then old(state.statuses[id].View()) else FRESH)
      ensures err.None? && !service.current.healthCheck.enabled ==>
                forall b :: Some(b) in service.current.backends && b.enabled ==>
                  b.id in state.statuses && state.statuses[b.id].healthState == Healthy
      ensures err.None? && service.current.healthCheck.enabled ==>
                forall id :: id in state.statuses ==>
                  state.statuses[id].View() == if id in old(state.statuses) then old(state.statuses[id].View()) else FRESH
      ensures forall id :: id in old(state.statuses) && id !in state.statuses ==>
                old(state.statuses)[id].View() == old(state.statuses[id].View())
      // Registration moves on by exactly the difference, and registered URLs keep their counters.
      ensures err.None? ==>
                metrics.backends.Keys ==
                RuntimeModel.MetricsAfter(old(metrics.backends).Keys, old(service.current), service.current)
      ensures forall u :: u in old(metrics.backends) && u in metrics.backends ==> metrics.backends[u] == old(metrics.backends)[u]
      // The client and the balancer are kept exactly if their settings are.
      ensures state.client == old(state).client <==> service.current.timeouts == old(state.snapshot.raw.timeouts)
      ensures state.balancer == old(state).balancer <==> service.current.strategy == old(state.snapshot.raw.strategy)
    {
      hide ServiceModel.Sound, ValidConfig, Complete, ServiceModel.Step, BackendIds, BackendUrls, RuntimeModel.SafeRemoval,
        RuntimeModel.MetricsAfter, Built;
      RuntimeModel.MutationKeepsHealthConfig(service.text, service.View(), op, saveOk);
      SafeStep(service.text, service.View(), op, saveOk);
      ServiceModel.StepKeepsSound(service.text, service.View(), op, saveOk);
      err := service.Perform(op, saveOk);
      if err.None? {
        PublishCurrent();
        BuiltExactly(service.current);
      }
    }

    /** The rest of applyUpdate: statuses, metrics, swap, metrics again. */
    method PublishCurrent()
      requires service.Valid() && Observable() && state.statuses == registry.statuses && Injective(state.statuses) && Fits(state)
      requires RuntimeModel.SafeRemoval(state.snapshot.raw, service.current)
      modifies this, metrics, registry, set id | id in registry.statuses :: registry.statuses[id]
      ensures Valid()
      ensures forall id :: id in state.statuses ==>
                if id in old(state.statuses) then state.statuses[id] == old(state.statuses)[id] else fresh(state.statuses[id])
      ensures forall id :: id in state.statuses ==>
                state.statuses[id].View() ==
                Built(service.current, id, if id in old(state.statuses) then old(state.statuses[id].View()) else FRESH)
      ensures forall id :: id in old(state.statuses) && id !in state.statuses ==>
                old(state.statuses)[id].View() == old(state.statuses[id].View())
      ensures metrics.backends.Keys ==
              RuntimeModel.MetricsAfter(old(metrics.backends).Keys, old(state.snapshot.raw), service.current)
      ensures forall u :: u in old(metrics.backends) && u in metrics.backends ==> metrics.backends[u] == old(metrics.backends)[u]
      // The client and the balancer are kept exactly if their settings are.
      ensures state.client == old(state).client <==> service.current.timeouts == old(state.snapshot.raw.timeouts)
      ensures state.balancer == old(state).balancer <==> service.current.strategy == old(state.snapshot.raw.strategy)
    {
      hide ServiceModel.Sound, ValidConfig, BackendIds, BackendUrls, RuntimeModel.SafeRemoval, RuntimeModel.RemovedUrls, EnabledId;
      var snapshot := service.snapshot;
      var bs := snapshot.raw.backends;
      var statuses := registry.Reconcile(bs);
      var next := BuildRuntimeState(Some(state), snapshot, statuses);
      RegisterBackendMetrics(bs);
      var previous := SwapState(next);
      DeregisterRemovedBackendMetrics(previous.snapshot.raw);
    }

    /**
     On completion, if the backend was re-enabled or its URL changed, its status has been
     reset for a new round of checks, or marked healthy when checking is disabled.
     */
    method UpdateBackend(id: string, url: string, weight: int, enabled: bool, saveOk: bool)
      returns (err: Option<ServiceModel.Error>)
      requires Valid()
      modifies this, service, metrics, registry, set i | i in registry.statuses :: registry.statuses[i]
      ensures Valid()
      ensures (service.View(), err) ==
              ServiceModel.Step(service.text, old(service.View()), ServiceModel.UpdateBackend(id, url, weight, enabled), saveOk)
      ensures err.Some? ==>
                state == old(state) && metrics.backends == old(metrics.backends) &&
                forall i :: i in old(state.statuses) ==> state.statuses[i].View() == old(state.statuses[i].View())
      ensures err.None? ==> id in old(state.statuses) && state.statuses == old(state.statuses)
      ensures err.None? ==> forall i :: i in old(state.statuses) ==>
                state.statuses[i].View() ==
                var built := Built(service.current, i, old(state.statuses[i].View()));
                var before := ServiceModel.Lookup(old(service.current), id);
                if i == id && enabled && before.Some? && (!before.value.enabled || (url != "" && url != before.value.url))
                then if service.current.healthCheck.enabled then FRESH else MarkedHealthy(built)
                else built
    {
      hide ServiceModel.Sound, ValidConfig, Complete, Defaulted, BackendUrls, BackendIds, Built, EnabledId,
        RuntimeModel.MetricsAfter, RuntimeModel.SafeRemoval, ServiceModel.IndexOfBackend, Fits;
      var previous := service.GetBackend(id);
      UpdateOutcome(service.text, service.View(), id, url, weight, enabled, saveOk);
      err := ApplyUpdate(ServiceModel.UpdateBackend(id, url, weight, enabled), saveOk);
      if err.Some? {
        return;
      }
      var backend := service.GetBackend(id);
      if backend.None? {
        return;
      }
      var shouldRecheck := backend.value.enabled &&
        (previous.None? || !previous.value.enabled || previous.value.url != backend.value.url);
      if shouldRecheck {
        if id in state.statuses {
          if state.snapshot.raw.healthCheck.enabled {
            state.statuses[id].Reset();
          } else {
            state.statuses[id].MarkHealthy();
          }
        }
      }
    }
  }

  /** What GetBackend returns before and after an accepted update. */
  lemma UpdateOutcome(text: Text, s: ServiceModel.State, id: string, url: string, weight: int, enabled: bool, saveOk: bool)
    requires ServiceModel.Sound(text, s)
    ensures var op := ServiceModel.UpdateBackend(id, url, weight, enabled);
            var i := ServiceModel.IndexOfBackend(s.current.backends, id);
            var n := ServiceModel.Step(text, s, op, saveOk).0.current;
            ServiceModel.Step(text, s, op, saveOk).1.None? ==>
              i < |s.current.backends| && id in BackendIds(n.backends) && BackendIds(n.backends) == BackendIds(s.current.backends) &&
              ServiceModel.IndexOfBackend(n.backends, id) == i && i < |n.backends| &&
              n.backends[i] == Some(ServiceModel.Updated(s.current.backends[i].value, url, weight, enabled))
  {
    var op := ServiceModel.UpdateBackend(id, url, weight, enabled);
    RuntimeModel.MutationKeepsHealthConfig(text, s, op, saveOk);
    if ServiceModel.Step(text, s, op, saveOk).1.None? {
      var n := ServiceModel.Step(text, s, op, saveOk).0.current;
      var i := ServiceModel.IndexOfBackend(s.current.backends, id);
      hide ValidConfig, Complete, ServiceModel.Sound, ServiceModel.Step;
      var j := ServiceModel.IndexOfBackend(n.backends, id);
      assert n.backends[i].value.id == id;
      assert forall k :: 0 <= k < i ==> n.backends[k] == s.current.backends[k];
      assert j == i;
      BackendIdsMember(n.backends, id);
      ServiceExact.ReplaceIds(s.current.backends, i, n.backends[i].value);
    }
  }

  lemma SafeStep(text: Text, s: ServiceModel.State, op: ServiceModel.Op, saveOk: bool)
    requires ServiceModel.Sound(text, s) && !op.Replace?
    ensures ServiceModel.Step(text, s, op, saveOk).1.None? ==>
              RuntimeModel.SafeRemoval(s.current, ServiceModel.Step(text, s, op, saveOk).0.current)
  {
    RuntimeModel.MutationKeepsHealthConfig(text, s, op, saveOk);
    if ServiceModel.Step(text, s, op, saveOk).1.None? {
      RuntimeModel.OperationsRemoveSafely(text, s.current, op);
    }
    hide ValidConfig, Complete, ServiceModel.Step;
  }

  /**
   The state to publish: the previous client and balancer if their settings are the same,
   new ones otherwise; enabled backends are marked healthy when checking is disabled.
   */
  method BuildRuntimeState(previous: Option<RuntimeState>, snapshot: Snapshot, statuses: map<string, BackendStatus>)
    returns (next: RuntimeState)
    requires Injective(statuses) && (previous.Some? ==> Fits(previous.value))
    modifies set id | id in statuses :: statuses[id]
    ensures next.snapshot == snapshot && next.statuses == statuses && Fits(next)
    ensures if previous.Some? && previous.value.snapshot.raw.timeouts == snapshot.raw.timeouts
            then next.client == previous.value.client else fresh(next.client)
    ensures if previous.Some? && previous.value.snapshot.raw.strategy == snapshot.raw.strategy
            then next.balancer == previous.value.balancer else fresh(next.balancer)
    ensures forall id :: id in statuses ==> statuses[id].View() == Built(snapshot.raw, id, old(statuses[id].View()))
  {
    var client, balancer;
    if previous.None? || previous.value.snapshot.raw.timeouts != snapshot.raw.timeouts {
      client := new HttpClient(snapshot.raw.timeouts);
    } else {
      client := previous.value.client;
    }
    if previous.None? || previous.value.snapshot.raw.strategy != snapshot.raw.strategy {
      balancer := new LoadBalancer(snapshot.raw.strategy);
    } else {
      balancer := previous.value.balancer;
    }
    if !snapshot.raw.healthCheck.enabled {
      MarkEnabledHealthy(snapshot.raw.backends, statuses);
    }
    next := RuntimeState(snapshot, statuses, client, balancer);
  }

  /** buildRuntimeState, when checking is disabled: exactly the statuses of enabled backends change. */
  method MarkEnabledHealthy(bs: seq<Option<BackendConfig>>, statuses: map<string, BackendStatus>)
    requires Injective(statuses)
    modifies set id | id in statuses :: statuses[id]
    ensures forall id :: id in statuses ==>
              statuses[id].View() == if EnabledId(bs, id) then MarkedHealthy(old(statuses[id].View())) else old(statuses[id].View())
  {
    for i := 0 to |bs|
      invariant forall id :: id in statuses ==>
                  statuses[id].View() ==
                  if EnabledId(bs[..i], id) then MarkedHealthy(old(statuses[id].View())) else old(statuses[id].View())
    {
      EnabledNext(bs, i);
      hide EnabledId;
      if bs[i].Some? && bs[i].value.enabled && bs[i].value.id in statuses {
        statuses[bs[i].value.id].MarkHealthy();
      }
    }
    assert bs[..|bs|] == bs;
  }

  lemma EnabledNext(bs: seq<Option<BackendConfig>>, i: nat)
    requires i < |bs|
    ensures forall id :: EnabledId(bs[..i + 1], id) <==>
              EnabledId(bs[..i], id) || (bs[i].Some? && bs[i].value.enabled && bs[i].value.id == id)
  {
    forall id
      ensures EnabledId(bs[..i + 1], id) <==>
              EnabledId(bs[..i], id) || (bs[i].Some? && bs[i].value.enabled && bs[i].value.id == id)
    {
      assert bs[..i + 1][i] == bs[i];
      if EnabledId(bs[..i], id) {
        var k :| 0 <= k < i && bs[..i][k].Some? && bs[..i][k].value.enabled && bs[..i][k].value.id == id;
        assert bs[..i + 1][k] == bs[..i][k];
      }
      if EnabledId(bs[..i + 1], id) {
        var k :| 0 <= k <= i && bs[..i + 1][k].Some? && bs[..i + 1][k].value.enabled && bs[..i + 1][k].value.id == id;
        assert k < i ==> bs[..i][k] == bs[..i + 1][k];
      }
    }
  }

  lemma RemovedNext(bs: seq<Option<BackendConfig>>, i: nat, ids: set<string>)
    requires i < |bs|
    ensures RuntimeModel.RemovedUrls(bs[..i + 1], ids) ==
            RuntimeModel.RemovedUrls(bs[..i], ids) + if bs[i].Some? && bs[i].value.id !in ids then {bs[i].value.url} else {}
  {
    assert bs[..i + 1][..i] == bs[..i];
  }

  lemma RemovedNone(ids: set<string>)
    ensures RuntimeModel.RemovedUrls([], ids) == {}
  {
  }

  lemma SafeUrl(prev: FullConfig, next: FullConfig, i: nat)
    requires i < |prev.backends| && prev.backends[i].Some? && prev.backends[i].value.id !in BackendIds(next.backends)
    ensures RuntimeModel.SafeRemoval(prev, next) ==> prev.backends[i].value.url !in BackendUrls(next.backends)
  {
  }

  method RegisterAll(metrics: BackendMetricsManager, bs: seq<Option<BackendConfig>>)
    requires metrics.Valid()
    modifies metrics
    ensures metrics.Valid()
    ensures metrics.backends.Keys == old(metrics.backends).Keys + BackendUrls(bs)
    ensures forall u :: u in old(metrics.backends) ==> metrics.backends[u] == old(metrics.backends)[u]
  {
    for i := 0 to |bs|
      invariant metrics.Valid()
      invariant metrics.backends.Keys == old(metrics.backends).Keys + BackendUrls(bs[..i])
      invariant forall u :: u in old(metrics.backends) ==> metrics.backends[u] == old(metrics.backends)[u]
    {
      assert bs[..i + 1][..i] == bs[..i];
      if bs[i].Some? {
        metrics.Register(bs[i].value.url);
      }
    }
    assert bs[..|bs|] == bs;
  }

  lemma {:induction false} IndexKeys(bs: seq<Option<BackendConfig>>)
    ensures BackendIndex(bs).Keys == BackendIds(bs)
  {
    if bs != [] {
      IndexKeys(bs[..|bs| - 1]);
    }
  }
}
