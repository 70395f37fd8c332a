/**
 The configuration service object (internal/config/service.go).  Each operation edits a
 copy of the current configuration with the loops of the code and publishes it; its
 contract is the corresponding step of the value model.
 */
module Services {
  import opened Base
  import opened Config
  import opened Defaults
  import opened Snapshots
  import opened ServiceModel
  import Validator

  /** Compacts the slice in place; the tail beyond the result is left as it was. */
  method RemoveString(items: array<string>, target: string) returns (n: nat)
    modifies items
    ensures n <= items.Length
    ensures items[..n] == Without(old(items[..]), target)
    ensures items[n..] == old(items[n..])
  {
    n := 0;
    for i := 0 to items.Length
      invariant n <= i
      invariant items[..n] == Without(old(items[..i]), target)
      invariant items[n..] == old(items[n..])
    {
      assert old(items[..i + 1])[..i] == old(items[..i]);
      assert items[i] == old(items[i]);
      if items[i] != target {
        ghost var before := items[..n];
        items[n] := items[i];
        n := n + 1;
        assert items[..n] == before + [old(items[i])];
      }
    }
    assert old(items[..items.Length]) == old(items[..]);
  }

  /** `removeString` applied to the backend list of a host or route. */
  method RemoveFromList(xs: seq<string>, target: string) returns (r: seq<string>)
    ensures r == Without(xs, target)
  {
    var items := new string[|xs|](k requires 0 <= k < |xs| => xs[k]);
    assert items[..] == xs;
    var n := RemoveString(items, target);
    r := items[..n];
  }

  method RemoveFromHost(vh: VirtualHost, id: string) returns (r: VirtualHost)
    ensures r == WithoutInHost(vh, id)
  {
    var ids := RemoveFromList(vh.backendIDs, id);
    var routes := vh.pathRoutes;
    for j := 0 to |routes|
      invariant |routes| == |vh.pathRoutes|
      invariant forall k :: 0 <= k < j ==> routes[k] == WithoutInRoute(vh.pathRoutes[k], id)
      invariant forall k :: j <= k < |routes| ==> routes[k] == vh.pathRoutes[k]
    {
      var kept := RemoveFromList(routes[j].backendIDs, id);
      routes := routes[j := routes[j].(backendIDs := kept)];
    }
    r := vh.(backendIDs := ids, pathRoutes := routes);
    assert routes == WithoutInHost(vh, id).pathRoutes;
  }

  method RemoveFromHosts(vhs: seq<VirtualHost>, id: string) returns (hosts: seq<VirtualHost>)
    ensures hosts == WithoutInHosts(vhs, id)
  {
    hosts := vhs;
    for h := 0 to |hosts|
      invariant |hosts| == |vhs|
      invariant forall k :: 0 <= k < h ==> hosts[k] == WithoutInHost(vhs[k], id)
      invariant forall k :: h <= k < |hosts| ==> hosts[k] == vhs[k]
    {
      var vh := RemoveFromHost(hosts[h], id);
      hosts := hosts[h := vh];
    }
  }

  class Service {
    const text: Text
    var current: FullConfig
    var snapshot: Snapshot
    var file: FullConfig

    ghost function View(): State
      reads this
    {
      State(current, file)
    }

    /** The snapshot indexes the current configuration, which is valid and is what the file would load as. */
    ghost predicate Valid()
      reads this
    {
      snapshot == SnapshotOf(current) && Sound(text, View())
    }

    constructor Init(text: Text, file: FullConfig, current: FullConfig, snapshot: Snapshot)
      ensures this.text == text && this.file == file && this.current == current && this.snapshot == snapshot
    {
      this.text, this.file, this.current, this.snapshot := text, file, current, snapshot;
    }

    /** Null when the file does not hold a configuration that is valid after defaulting. */
    static method NewService(text: Text, file: FullConfig) returns (s: Service?)
      ensures s == null <==> Load(text, file).None?
      ensures s != null ==> fresh(s) && s.Valid() && s.text == text && s.View() == State(Load(text, file).value, file)
    {
      var cfg := ApplyDefaults(file);
      var violation := Validator.Validate(text, cfg);
      if violation.Some? {
        return null;
      }
      var snap := BuildSnapshot(cfg);
      s := new Service.Init(text, file, cfg, snap);
    }

    method ApplyLocked(next: FullConfig, saveOk: bool) returns (err: Option<Error>)
      requires Valid()
      modifies this
      ensures Valid() && (View(), err) == Publish(text, old(View()), next, saveOk)
      ensures err.Some? ==> snapshot == old(snapshot)
    {
      hide ValidConfig, Complete, Defaulted;
      DefaultingIsIdempotent(next);
      var cfg := ApplyDefaults(next);
      var violation := Validator.Validate(text, cfg);
      if violation.Some? {
        return Some(Rejected);
      }
      if !saveOk {
        return Some(SaveFailed);
      }
      file := cfg;
      current := cfg;
      snapshot := BuildSnapshot(cfg);
      return None;
    }

    method GetBackend(id: string) returns (b: Option<BackendConfig>)
      ensures b == Lookup(current, id)
    {
      var i := FindBackend(current.backends, id);
      return if i < |current.backends| then current.backends[i] else None;
    }

    method AddBackend(backend: BackendConfig, saveOk: bool) returns (err: Option<Error>)
      requires Valid()
      modifies this
      ensures Valid() && (View(), err) == Step(text, old(View()), ServiceModel.AddBackend(backend), saveOk)
    {
      hide Sound, Publish;
      if backend.id == "" || backend.url == "" {
        return Some(EmptyArgument);
      }
      var bs := current.backends;
      for i := 0 to |bs|
        invariant forall k :: 0 <= k < i && bs[k].Some? ==> bs[k].value.id != backend.id && bs[k].value.url != backend.url
      {
        if bs[i].Some? && (bs[i].value.id == backend.id || bs[i].value.url == backend.url) {
          return Some(AlreadyExists);
        }
      }
      err := ApplyLocked(current.(backends := bs + [Some(backend)]), saveOk);
    }

    method UpdateBackend(id: string, url: string, weight: int, enabled: bool, saveOk: bool) returns (err: Option<Error>)
      requires Valid()
      modifies this
      ensures Valid() && (View(), err) == Step(text, old(View()), ServiceModel.UpdateBackend(id, url, weight, enabled), saveOk)
    {
      hide Sound, Publish;
      if id == "" {
        return Some(EmptyArgument);
      }
      var i := FindBackend(current.backends, id);
      if i == |current.backends| {
        return Some(NotFound);
      }
      var b := current.backends[i].value;
      if url != "" {
        b := b.(url := url);
      }
      b := b.(weight := weight, enabled := enabled);
      err := ApplyLocked(current.(backends := current.backends[i := Some(b)]), saveOk);
    }

    method RemoveBackend(id: string, saveOk: bool) returns (err: Option<Error>)
      requires Valid()
      modifies this
      ensures Valid() && (View(), err) == Step(text, old(View()), ServiceModel.RemoveBackend(id), saveOk)
    {
      hide Sound, Publish;
      if id == "" {
        return Some(EmptyArgument);
      }
      var i := FindBackend(current.backends, id);
      if i == |current.backends| {
        return Some(NotFound);
      }
      var hosts := RemoveFromHosts(current.virtualHosts, id);
      err := ApplyLocked(current.(backends := RemoveAt(current.backends, i), virtualHosts := hosts), saveOk);
    }

    method AddVirtualHost(vhost: VirtualHost, saveOk: bool) returns (err: Option<Error>)
      requires Valid()
      modifies this
      ensures Valid() && (View(), err) == Step(text, old(View()), ServiceModel.AddVirtualHost(vhost), saveOk)
    {
      hide Sound, Publish;
      if vhost.domain == "" {
        return Some(EmptyArgument);
      }
      var i := FindHost(current.virtualHosts, vhost.domain);
      if i < |current.virtualHosts| {
        return Some(AlreadyExists);
      }
      var vh := vhost;
      if vh.securityPolicyID == "" {
        vh := vh.(securityPolicyID := "default");
      }
      err := ApplyLocked(current.(virtualHosts := current.virtualHosts + [vh]), saveOk);
    }

    method UpdateVirtualHost(domain: string, vhost: VirtualHost, saveOk: bool) returns (err: Option<Error>)
      requires Valid()
      modifies this
      ensures Valid() && (View(), err) == Step(text, old(View()), ServiceModel.UpdateVirtualHost(domain, vhost), saveOk)
    {
      hide Sound, Publish;
      if domain == "" {
        return Some(EmptyArgument);
      }
      var i := FindHost(current.virtualHosts, domain);
      if i == |current.virtualHosts| {
        return Some(NotFound);
      }
      var vh := vhost;
      if vh.securityPolicyID == "" {
        vh := vh.(securityPolicyID := current.virtualHosts[i].securityPolicyID);
      }
      if vh.securityPolicyID == "" {
        vh := vh.(securityPolicyID := "default");
      }
      vh := vh.(domain := domain);
      err := ApplyLocked(current.(virtualHosts := current.virtualHosts[i := vh]), saveOk);
    }

    method RemoveVirtualHost(domain: string, saveOk: bool) returns (err: Option<Error>)
      requires Valid()
      modifies this
      ensures Valid() && (View(), err) == Step(text, old(View()), ServiceModel.RemoveVirtualHost(domain), saveOk)
    {
      hide Sound, Publish;
      if domain == "" {
        return Some(EmptyArgument);
      }
      var i := FindHost(current.virtualHosts, domain);
      if i == |current.virtualHosts| {
        return Some(NotFound);
      }
      err := ApplyLocked(current.(virtualHosts := RemoveAt(current.virtualHosts, i)), saveOk);
    }

    method UpdateServer(proxyPort: int, adminGrpcPort: int, saveOk: bool) returns (err: Option<Error>)
      requires Valid()
      modifies this
      ensures Valid() && (View(), err) == Step(text, old(View()), ServiceModel.UpdateServer(proxyPort, adminGrpcPort), saveOk)
    {
      hide Sound, Publish;
      var server := current.server;
      if proxyPort != 0 {
        server := server.(proxyPort := proxyPort);
      }
      if adminGrpcPort != 0 {
        server := server.(adminGrpcPort := adminGrpcPort);
      }
      err := ApplyLocked(current.(server := server), saveOk);
    }

    method SetVirtualHostSecurityPolicy(domain: string, policyID: string, saveOk: bool) returns (err: Option<Error>)
      requires Valid()
      modifies this
      ensures Valid() && (View(), err) == Step(text, old(View()), ServiceModel.SetVirtualHostSecurityPolicy(domain, policyID), saveOk)
    {
      hide Sound, Publish;
      if domain == "" || policyID == "" {
        return Some(EmptyArgument);
      }
      var i := FindHost(current.virtualHosts, domain);
      if i == |current.virtualHosts| {
        return Some(NotFound);
      }
      var vh := current.virtualHosts[i].(securityPolicyID := policyID);
      err := ApplyLocked(current.(virtualHosts := current.virtualHosts[i := vh]), saveOk);
    }

    method UpsertPolicy(policy: SecurityPolicy, saveOk: bool) returns (err: Option<Error>)
      requires Valid()
      modifies this
      ensures Valid() && (View(), err) == Step(text, old(View()), ServiceModel.UpsertPolicy(policy), saveOk)
    {
      hide Sound, Publish;
      if policy.id == "" {
        return Some(EmptyArgument);
      }
      var i := FindPolicy(current.policies, policy.id);
      if i < |current.policies| {
        err := ApplyLocked(current.(policies := current.policies[i := policy]), saveOk);
      } else {
        err := ApplyLocked(current.(policies := current.policies + [policy]), saveOk);
      }
    }

    method UpdateLoadBalancer(strategy: string, saveOk: bool) returns (err: Option<Error>)
      requires Valid()
      modifies this
      ensures Valid() && (View(), err) == Step(text, old(View()), ServiceModel.UpdateLoadBalancer(strategy), saveOk)
    {
      hide Sound, Publish;
      if strategy == "" {
        return Some(EmptyArgument);
      }
      err := ApplyLocked(current.(strategy := strategy), saveOk);
    }

    /** None is a nil configuration. */
    method Replace(config: Option<FullConfig>, saveOk: bool) returns (err: Option<Error>)
      requires Valid()
      modifies this
      ensures Valid()
      ensures config.None? ==> View() == old(View()) && snapshot == old(snapshot) && err == Some(EmptyArgument)
      ensures config.Some? ==> (View(), err) == Step(text, old(View()), ServiceModel.Replace(config.value), saveOk)
    {
      hide Sound, Publish;
      if config.None? {
        return Some(EmptyArgument);
      }
      err := ApplyLocked(config.value, saveOk);
    }

    /** Any one operation. */
    method Perform(op: Op, saveOk: bool) returns (err: Option<Error>)
      requires Valid()
      modifies this
      ensures Valid() && (View(), err) == Step(text, old(View()), op, saveOk)
    {
      hide Sound, Step;
      match op {
        case AddBackend(b) => err := AddBackend(b, saveOk);
        case UpdateBackend(id, url, weight, enabled) => err := UpdateBackend(id, url, weight, enabled, saveOk);
        case RemoveBackend(id) => err := RemoveBackend(id, saveOk);
        case AddVirtualHost(vh) => err := AddVirtualHost(vh, saveOk);
        case UpdateVirtualHost(domain, vh) => err := UpdateVirtualHost(domain, vh, saveOk);
        case RemoveVirtualHost(domain) => err := RemoveVirtualHost(domain, saveOk);
        case UpdateServer(p, g) => err := UpdateServer(p, g, saveOk);
        case SetVirtualHostSecurityPolicy(domain, policyID) => err := SetVirtualHostSecurityPolicy(domain, policyID, saveOk);
        case UpsertPolicy(policy) => err := UpsertPolicy(policy, saveOk);
        case UpdateLoadBalancer(strategy) => err := UpdateLoadBalancer(strategy, saveOk);
        case Replace(config) => err := Replace(Some(config), saveOk);
      }
    }
  }

  method FindBackend(bs: seq<Option<BackendConfig>>, id: string) returns (i: nat)
    ensures i == IndexOfBackend(bs, id)
  {
    for k := 0 to |bs|
      invariant forall j :: 0 <= j < k ==> bs[j].None? || bs[j].value.id != id
    {
      if bs[k].Some? && bs[k].value.id == id {
        return k;
      }
    }
    return |bs|;
  }

  method FindHost(vhs: seq<VirtualHost>, domain: string) returns (i: nat)
    ensures i == IndexOfHost(vhs, domain)
  {
    for k := 0 to |vhs|
      invariant forall j :: 0 <= j < k ==> vhs[j].domain != domain
    {
      if vhs[k].domain == domain {
        return k;
      }
    }
    return |vhs|;
  }

  method FindPolicy(ps: seq<SecurityPolicy>, id: string) returns (i: nat)
    ensures i == IndexOfPolicy(ps, id)
  {
    for k := 0 to |ps|
      invariant forall j :: 0 <= j < k ==> ps[j].id != id
    {
      if ps[k].id == id {
        return k;
      }
    }
    return |ps|;
  }
}
