/**
 Exactly which operations a service with a valid configuration accepts, and what an
 accepted removal leaves behind (internal/config/service.go, internal/config/validator.go).
 */
module ServiceExact {
  import opened Base
  import opened Config
  import opened Defaults
  import opened ServiceModel
  import opened Validator

  /** The operation goes through, provided the file can be written. */
  predicate Succeeds(text: Text, c: FullConfig, op: Op) {
    Mutated(op, c).Ok? && ValidConfig(text, Defaulted(Mutated(op, c).value))
  }

  /** Some id other than `id` remains in the list. */
  predicate KeepsOther(xs: seq<string>, id: string) {
    exists k :: 0 <= k < |xs| && xs[k] != id
  }

  /** Losing `id` leaves the host a default backend, or routes that all keep backends of their own. */
  predicate HostSurvives(vh: VirtualHost, id: string) {
    KeepsOther(vh.backendIDs, id) ||
    (vh.pathRoutes != [] && forall j :: 0 <= j < |vh.pathRoutes| ==> KeepsOther(vh.pathRoutes[j].backendIDs, id))
  }

  predicate OtherEnabled(bs: seq<Option<BackendConfig>>, id: string) {
    exists k :: 0 <= k < |bs| && bs[k].Some? && bs[k].value.enabled && bs[k].value.id != id
  }

  predicate UrlFreeFor(bs: seq<Option<BackendConfig>>, url: string, id: string) {
    forall k :: 0 <= k < |bs| && bs[k].Some? && bs[k].value.url == url ==> bs[k].value.id == id
  }

  predicate HasDomain(vhs: seq<VirtualHost>, domain: string) {
    exists i :: 0 <= i < |vhs| && vhs[i].domain == domain
  }

  /** What a caller can check beforehand, operation by operation. */
  predicate Acceptable(text: Text, c: FullConfig, op: Op) {
    match op
    case AddBackend(b) =>
      ValidBackend(text, b) && b.id !in BackendIds(c.backends) && b.url !in BackendUrls(c.backends)
    case UpdateBackend(id, url, weight, enabled) =>
      && id in BackendIds(c.backends) && weight > 0
      && (url == "" || (ValidUrl(text, url) && UrlFreeFor(c.backends, url, id)))
      && (enabled || OtherEnabled(c.backends, id))
    case RemoveBackend(id) =>
      && id in BackendIds(c.backends) && OtherEnabled(c.backends, id)
      && (forall i :: 0 <= i < |c.virtualHosts| ==> HostSurvives(c.virtualHosts[i], id))
    case AddVirtualHost(vh) =>
      && !HasDomain(c.virtualHosts, vh.domain)
      && ValidVirtualHost(DefaultedHost(vh), BackendIds(c.backends), PolicyIds(c.policies))
    case UpdateVirtualHost(domain, vh) =>
      && HasDomain(c.virtualHosts, domain)
      && ValidVirtualHost(HostUpdate(domain, vh, c.virtualHosts[IndexOfHost(c.virtualHosts, domain)]),
                          BackendIds(c.backends), PolicyIds(c.policies))
    case RemoveVirtualHost(domain) => HasDomain(c.virtualHosts, domain)
    case UpdateServer(p, g) => (p == 0 || ValidPort(p)) && (g == 0 || ValidPort(g))
    case SetVirtualHostSecurityPolicy(domain, policyID) =>
      HasDomain(c.virtualHosts, domain) && policyID in PolicyIds(c.policies)
    case UpsertPolicy(policy) => ValidPolicy(policy)
    case UpdateLoadBalancer(strategy) => strategy in {"least-connections", "adaptive"}
    case Replace(config) => ValidConfig(text, Defaulted(config))
  }

  // ----- Lists of backends

  lemma BackendsAreSome(text: Text, bs: seq<Option<BackendConfig>>)
    requires ValidBackends(text, bs)
    ensures forall i :: 0 <= i < |bs| ==> bs[i].Some? && ValidBackend(text, bs[i].value)
  {
    forall i | 0 <= i < |bs| ensures bs[i].Some? && ValidBackend(text, bs[i].value) {
      assert ValidBackendEntry(text, bs[i]);
    }
  }

  lemma IdsOfAppend(bs: seq<Option<BackendConfig>>, b: BackendConfig)
    ensures BackendIds(bs + [Some(b)]) == BackendIds(bs) + {b.id}
    ensures BackendUrls(bs + [Some(b)]) == BackendUrls(bs) + {b.url}
  {
    assert (bs + [Some(b)])[..|bs|] == bs;
  }

  predicate AllSome(bs: seq<Option<BackendConfig>>) {
    forall i :: 0 <= i < |bs| ==> bs[i].Some?
  }

  /** Neither the id nor the URL of `b` is taken by a backend of the list. */
  predicate Fresh(bs: seq<Option<BackendConfig>>, b: BackendConfig)
    requires AllSome(bs)
  {
    forall i :: 0 <= i < |bs| ==> bs[i].value.id != b.id && bs[i].value.url != b.url
  }

  lemma FreshIsAbsent(bs: seq<Option<BackendConfig>>, b: BackendConfig)
    requires AllSome(bs)
    ensures Fresh(bs, b) <==> b.id !in BackendIds(bs) && b.url !in BackendUrls(bs)
  {
    BackendIdsMember(bs, b.id);
    BackendUrlsMember(bs, b.url);
    hide BackendIds, BackendUrls;
  }

  lemma DistinctAppend(bs: seq<Option<BackendConfig>>, b: BackendConfig)
    requires AllSome(bs) && DistinctBackends(bs)
    ensures DistinctBackends(bs + [Some(b)]) <==> Fresh(bs, b)
  {
    var all := bs + [Some(b)];
    assert all[|bs|] == Some(b) && forall i :: 0 <= i < |bs| ==> all[i] == bs[i];
    forall i | 0 <= i < |bs|
      ensures DistinctBackends(all) ==> bs[i].value.id != b.id && bs[i].value.url != b.url
    {
      assert all[i] == bs[i];
    }
  }

  lemma AppendEnabled(bs: seq<Option<BackendConfig>>, b: Option<BackendConfig>)
    requires SomeEnabled(bs)
    ensures SomeEnabled(bs + [b])
  {
    var i :| 0 <= i < |bs| && bs[i].Some? && bs[i].value.enabled;
    assert (bs + [b])[i] == bs[i];
  }

  lemma AppendValid(text: Text, bs: seq<Option<BackendConfig>>, b: BackendConfig)
    requires ValidBackends(text, bs)
    ensures ValidBackends(text, bs + [Some(b)]) <==>
            ValidBackend(text, b) && b.id !in BackendIds(bs) && b.url !in BackendUrls(bs)
  {
    var all := bs + [Some(b)];
    BackendsAreSome(text, bs);
    FreshIsAbsent(bs, b);
    DistinctAppend(bs, b);
    AppendEnabled(bs, Some(b));
    assert all[|bs|] == Some(b) && forall i :: 0 <= i < |bs| ==> all[i] == bs[i];
    assert (forall i :: 0 <= i < |all| ==> ValidBackendEntry(text, all[i])) <==> ValidBackendEntry(text, all[|bs|]);
    hide BackendIds, BackendUrls, ValidBackend, DistinctBackends, SomeEnabled;
  }

  lemma ReplaceIds(bs: seq<Option<BackendConfig>>, i: nat, b: BackendConfig)
    requires i < |bs| && bs[i].Some? && bs[i].value.id == b.id
    ensures BackendIds(bs[i := Some(b)]) == BackendIds(bs)
  {
    var all := bs[i := Some(b)];
    forall id ensures id in BackendIds(all) <==> id in BackendIds(bs) {
      BackendIdsMember(all, id);
      BackendIdsMember(bs, id);
      assert forall k :: 0 <= k < |bs| ==> (all[k].Some? <==> bs[k].Some?) && (bs[k].Some? ==> all[k].value.id == bs[k].value.id);
    }
  }

  lemma DistinctReplace(bs: seq<Option<BackendConfig>>, i: nat, b: BackendConfig)
    requires AllSome(bs) && DistinctBackends(bs) && i < |bs| && bs[i].value.id == b.id
    ensures DistinctBackends(bs[i := Some(b)]) <==> UrlFreeFor(bs, b.url, b.id)
  {
    var all := bs[i := Some(b)];
    assert all[i] == Some(b) && forall k :: 0 <= k < |bs| && k != i ==> all[k] == bs[k] && bs[k].value.id != b.id;
    forall k | 0 <= k < |bs|
      ensures DistinctBackends(all) && bs[k].value.url == b.url ==> bs[k].value.id == b.id
    {
      assert k != i ==> all[k].value.url == bs[k].value.url;
    }
  }

  lemma ReplaceValid(text: Text, bs: seq<Option<BackendConfig>>, i: nat, b: BackendConfig)
    requires ValidBackends(text, bs) && i < |bs| && bs[i].Some? && bs[i].value.id == b.id
    ensures ValidBackends(text, bs[i := Some(b)]) <==>
            b.weight > 0 && ValidUrl(text, b.url) && UrlFreeFor(bs, b.url, b.id) && (b.enabled || OtherEnabled(bs, b.id))
  {
    var all := bs[i := Some(b)];
    BackendsAreSome(text, bs);
    DistinctReplace(bs, i, b);
    ReplaceEnabled(text, bs, i, b);
    assert all[i] == Some(b) && forall k :: 0 <= k < |bs| && k != i ==> all[k] == bs[k];
    assert (forall k :: 0 <= k < |all| ==> ValidBackendEntry(text, all[k])) <==> ValidBackendEntry(text, all[i]);
    hide ValidUrl, DistinctBackends, SomeEnabled, OtherEnabled, UrlFreeFor;
  }

  lemma ReplaceEnabled(text: Text, bs: seq<Option<BackendConfig>>, i: nat, b: BackendConfig)
    requires ValidBackends(text, bs) && i < |bs| && bs[i].Some? && bs[i].value.id == b.id
    ensures SomeEnabled(bs[i := Some(b)]) <==> b.enabled || OtherEnabled(bs, b.id)
  {
    var all := bs[i := Some(b)];
    BackendsAreSome(text, bs);
    if k :| 0 <= k < |bs| && bs[k].Some? && bs[k].value.enabled && bs[k].value.id != b.id {
      assert all[k] == bs[k];
    }
    if k :| 0 <= k < |all| && all[k].Some? && all[k].value.enabled {
      assert k == i || (all[k] == bs[k] && bs[k].value.id != b.id);
    }
    assert all[i] == Some(b);
  }

  lemma RemoveIds(text: Text, bs: seq<Option<BackendConfig>>, i: nat)
    requires ValidBackends(text, bs) && i < |bs|
    ensures bs[i].Some? && BackendIds(RemoveAt(bs, i)) == BackendIds(bs) - {bs[i].value.id}
  {
    BackendsAreSome(text, bs);
    forall id ensures id in BackendIds(RemoveAt(bs, i)) <==> id in BackendIds(bs) && id != bs[i].value.id {
      RemoveId(bs, i, id);
    }
  }

  predicate HasId(bs: seq<Option<BackendConfig>>, id: string) {
    exists k :: 0 <= k < |bs| && bs[k].Some? && bs[k].value.id == id
  }

  lemma RemoveHasId(bs: seq<Option<BackendConfig>>, i: nat, id: string)
    requires AllSome(bs) && DistinctBackends(bs) && i < |bs|
    ensures HasId(RemoveAt(bs, i), id) <==> HasId(bs, id) && id != bs[i].value.id
  {
    var rest := RemoveAt(bs, i);
    if HasId(bs, id) && id != bs[i].value.id {
      var k :| 0 <= k < |bs| && bs[k].Some? && bs[k].value.id == id;
      assert rest[if k < i then k else k - 1] == bs[k];
    }
    if HasId(rest, id) {
      var k :| 0 <= k < |rest| && rest[k].Some? && rest[k].value.id == id;
      assert bs[if k < i then k else k + 1] == rest[k];
    }
  }

  lemma RemoveId(bs: seq<Option<BackendConfig>>, i: nat, id: string)
    requires AllSome(bs) && DistinctBackends(bs) && i < |bs|
    ensures id in BackendIds(RemoveAt(bs, i)) <==> id in BackendIds(bs) && id != bs[i].value.id
  {
    BackendIdsMember(RemoveAt(bs, i), id);
    BackendIdsMember(bs, id);
    RemoveHasId(bs, i, id);
    hide BackendIds, RemoveAt, DistinctBackends, AllSome;
  }

  lemma RemoveValid(text: Text, bs: seq<Option<BackendConfig>>, i: nat)
    requires ValidBackends(text, bs) && i < |bs|
    ensures bs[i].Some? && (ValidBackends(text, RemoveAt(bs, i)) <==> OtherEnabled(bs, bs[i].value.id))
  {
    var rest := RemoveAt(bs, i);
    BackendsAreSome(text, bs);
    hide ValidBackend;
    assert forall k :: 0 <= k < |rest| ==> rest[k] == bs[if k < i then k else k + 1];
    assert SomeEnabled(rest) <==> OtherEnabled(bs, bs[i].value.id) by {
      if k :| 0 <= k < |bs| && bs[k].Some? && bs[k].value.enabled && bs[k].value.id != bs[i].value.id {
        assert rest[if k < i then k else k - 1] == bs[k];
      }
    }
    assert forall k :: 0 <= k < |rest| ==> ValidBackendEntry(text, rest[k]);
    assert DistinctBackends(rest);
  }

  // ----- Lists of virtual hosts

  lemma HostsKeepValid(vhs: seq<VirtualHost>, ids: set<string>, ids': set<string>, policies: set<string>, policies': set<string>)
    requires ValidVirtualHosts(vhs, ids, policies) && ids <= ids' && policies <= policies'
    ensures ValidVirtualHosts(vhs, ids', policies')
  {
    forall i | 0 <= i < |vhs| ensures ValidVirtualHost(vhs[i], ids', policies') {
      assert ValidVirtualHost(vhs[i], ids, policies);
      forall j | 0 <= j < |vhs[i].pathRoutes| ensures ValidRoute(vhs[i].pathRoutes[j], vhs[i], ids') {
        assert ValidRoute(vhs[i].pathRoutes[j], vhs[i], ids);
      }
    }
  }

  lemma DistinctDomainsAppend(vhs: seq<VirtualHost>, vh: VirtualHost)
    requires DistinctDomains(vhs)
    ensures DistinctDomains(vhs + [vh]) <==> !HasDomain(vhs, vh.domain)
  {
    var all := vhs + [vh];
    assert all[|vhs|] == vh && forall i :: 0 <= i < |vhs| ==> all[i] == vhs[i];
    forall i | 0 <= i < |vhs| ensures DistinctDomains(all) ==> vhs[i].domain != vh.domain {
      assert all[i] == vhs[i];
    }
  }

  lemma HostsAppend(vhs: seq<VirtualHost>, vh: VirtualHost, ids: set<string>, policies: set<string>)
    requires ValidVirtualHosts(vhs, ids, policies)
    ensures ValidVirtualHosts(vhs + [vh], ids, policies) <==>
            ValidVirtualHost(vh, ids, policies) && !HasDomain(vhs, vh.domain)
  {
    var all := vhs + [vh];
    DistinctDomainsAppend(vhs, vh);
    assert all[|vhs|] == vh && forall i :: 0 <= i < |vhs| ==> all[i] == vhs[i];
    hide ValidVirtualHost, DistinctDomains, HasDomain;
    assert (forall i :: 0 <= i < |all| ==> ValidVirtualHost(all[i], ids, policies)) <==> ValidVirtualHost(all[|vhs|], ids, policies);
  }

  lemma HostsReplace(vhs: seq<VirtualHost>, i: nat, vh: VirtualHost, ids: set<string>, policies: set<string>)
    requires ValidVirtualHosts(vhs, ids, policies) && i < |vhs| && vh.domain == vhs[i].domain
    ensures ValidVirtualHosts(vhs[i := vh], ids, policies) <==> ValidVirtualHost(vh, ids, policies)
  {
    var all := vhs[i := vh];
    hide ValidVirtualHost;
    assert forall k :: 0 <= k < |vhs| ==> all[k].domain == vhs[k].domain;
    assert all[i] == vh && forall k :: 0 <= k < |vhs| && k != i ==> all[k] == vhs[k];
    assert (forall k :: 0 <= k < |all| ==> ValidVirtualHost(all[k], ids, policies)) <==> ValidVirtualHost(all[i], ids, policies);
  }

  lemma HostsRemove(vhs: seq<VirtualHost>, i: nat, ids: set<string>, policies: set<string>)
    requires ValidVirtualHosts(vhs, ids, policies) && i < |vhs|
    ensures ValidVirtualHosts(RemoveAt(vhs, i), ids, policies)
  {
    var rest := RemoveAt(vhs, i);
    hide ValidVirtualHost;
    assert forall k :: 0 <= k < |rest| ==> rest[k] == vhs[if k < i then k else k + 1];
  }

  // ----- Cascading removal

  lemma {:induction false} WithoutEmpty(xs: seq<string>, id: string)
    ensures Without(xs, id) != [] <==> KeepsOther(xs, id)
  {
    if xs != [] {
      var front := xs[..|xs| - 1];
      WithoutEmpty(front, id);
      if k :| 0 <= k < |xs| && xs[k] != id && k < |front| {
        assert front[k] == xs[k];
      }
      if k :| 0 <= k < |front| && front[k] != id {
        assert xs[k] != id;
      }
    }
  }

  lemma WithoutAllIn(xs: seq<string>, id: string, ids: set<string>)
    requires AllIn(xs, ids)
    ensures AllIn(Without(xs, id), ids - {id})
  {
    var ys := Without(xs, id);
    forall k | 0 <= k < |ys| ensures ys[k] in ids - {id} {
      WithoutMember(xs, id, ys[k]);
    }
  }

  lemma RouteWithout(r: PathRoute, vh: VirtualHost, id: string, ids: set<string>)
    requires ValidRoute(r, vh, ids)
    ensures ValidRoute(WithoutInRoute(r, id), WithoutInHost(vh, id), ids - {id}) <==>
            KeepsOther(r.backendIDs, id) || KeepsOther(vh.backendIDs, id)
  {
    WithoutEmpty(r.backendIDs, id);
    WithoutEmpty(vh.backendIDs, id);
    WithoutAllIn(r.backendIDs, id, ids);
    hide Without, KeepsOther;
  }

  lemma HostWithout(vh: VirtualHost, id: string, ids: set<string>, policies: set<string>)
    requires ValidVirtualHost(vh, ids, policies)
    ensures ValidVirtualHost(WithoutInHost(vh, id), ids - {id}, policies) <==> HostSurvives(vh, id)
  {
    var vh' := WithoutInHost(vh, id);
    WithoutEmpty(vh.backendIDs, id);
    WithoutAllIn(vh.backendIDs, id, ids);
    forall j | 0 <= j < |vh.pathRoutes|
      ensures ValidRoute(vh'.pathRoutes[j], vh', ids - {id}) <==>
              KeepsOther(vh.pathRoutes[j].backendIDs, id) || KeepsOther(vh.backendIDs, id)
    {
      RouteWithout(vh.pathRoutes[j], vh, id, ids);
    }
    hide Without, KeepsOther, ValidRoute;
    assert (forall j :: 0 <= j < |vh'.pathRoutes| ==> ValidRoute(vh'.pathRoutes[j], vh', ids - {id})) <==>
           (forall j :: 0 <= j < |vh.pathRoutes| ==> KeepsOther(vh.pathRoutes[j].backendIDs, id) || KeepsOther(vh.backendIDs, id));
  }

  lemma HostsWithout(vhs: seq<VirtualHost>, id: string, ids: set<string>, policies: set<string>)
    requires ValidVirtualHosts(vhs, ids, policies)
    ensures ValidVirtualHosts(WithoutInHosts(vhs, id), ids - {id}, policies) <==>
            forall i :: 0 <= i < |vhs| ==> HostSurvives(vhs[i], id)
  {
    var vhs' := WithoutInHosts(vhs, id);
    forall i | 0 <= i < |vhs|
      ensures ValidVirtualHost(vhs'[i], ids - {id}, policies) <==> HostSurvives(vhs[i], id)
    {
      HostWithout(vhs[i], id, ids, policies);
    }
    assert DistinctDomains(vhs') by {
      assert forall i :: 0 <= i < |vhs| ==> vhs'[i].domain == vhs[i].domain;
    }
    hide ValidVirtualHost, HostSurvives, DistinctDomains;
  }

  // ----- Policies

  lemma PolicyReplace(ps: seq<SecurityPolicy>, i: nat, p: SecurityPolicy)
    requires ValidPolicies(ps) && i < |ps| && p.id == ps[i].id
    ensures ValidPolicies(ps[i := p]) <==> ValidPolicy(p)
    ensures PolicyIds(ps[i := p]) == PolicyIds(ps)
  {
    var all := ps[i := p];
    assert forall k :: 0 <= k < |ps| ==> all[k].id == ps[k].id;
    assert all[i] == p && forall k :: 0 <= k < |ps| && k != i ==> all[k] == ps[k];
    assert (forall k :: 0 <= k < |all| ==> ValidPolicy(all[k])) <==> ValidPolicy(all[i]);
    forall id ensures id in PolicyIds(all) <==> id in PolicyIds(ps) {
      PolicyIdsMember(all, id);
      PolicyIdsMember(ps, id);
      hide PolicyIds;
    }
  }

  lemma PolicyAppend(ps: seq<SecurityPolicy>, p: SecurityPolicy)
    requires ValidPolicies(ps) && forall k :: 0 <= k < |ps| ==> ps[k].id != p.id
    ensures ValidPolicies(ps + [p]) <==> ValidPolicy(p)
    ensures PolicyIds(ps + [p]) == PolicyIds(ps) + {p.id}
  {
    var all := ps + [p];
    assert all[..|ps|] == ps;
    assert all[|ps|] == p && forall k :: 0 <= k < |ps| ==> all[k] == ps[k];
    assert (forall k :: 0 <= k < |all| ==> ValidPolicy(all[k])) <==> ValidPolicy(all[|ps|]);
  }

  // ----- Exactness

  lemma MutatedIsComplete(op: Op, c: FullConfig)
    requires Complete(c) && !op.Replace? && Mutated(op, c).Ok?
    ensures Complete(Mutated(op, c).value)
  {
    hide CompleteHealth, IndexOfBackend, IndexOfHost, IndexOfPolicy, Updated, BackendIds;
    var n := Mutated(op, c).value;
    match op {
      case UpsertPolicy(p) =>
        var d :| 0 <= d < |c.policies| && c.policies[d].id == "default";
        assert n.policies[d].id == "default";
      case RemoveVirtualHost(domain) =>
        assert forall k :: 0 <= k < |n.virtualHosts| ==> n.virtualHosts[k] in c.virtualHosts;
      case RemoveBackend(id) =>
        assert forall k :: 0 <= k < |n.virtualHosts| ==> n.virtualHosts[k].securityPolicyID == c.virtualHosts[k].securityPolicyID;
      case _ =>
    }
  }

  lemma IndexOfBackendFinds(bs: seq<Option<BackendConfig>>, id: string)
    ensures id in BackendIds(bs) <==> IndexOfBackend(bs, id) < |bs|
  {
    BackendIdsMember(bs, id);
  }

  lemma AddBackendExact(text: Text, c: FullConfig, b: BackendConfig)
    requires ValidConfig(text, c)
    ensures Mutated(AddBackend(b), c).Ok? && ValidConfig(text, Mutated(AddBackend(b), c).value) <==>
            Acceptable(text, c, AddBackend(b))
  {
    BackendsAreSome(text, c.backends);
    FreshIsAbsent(c.backends, b);
    AppendValid(text, c.backends, b);
    IdsOfAppend(c.backends, b);
    HostsKeepValid(c.virtualHosts, BackendIds(c.backends), BackendIds(c.backends) + {b.id}, PolicyIds(c.policies), PolicyIds(c.policies));
    hide BackendIds, BackendUrls, PolicyIds, ValidBackends, ValidVirtualHosts, ValidPolicies, ValidHealthCheck;
  }

  lemma UpdateBackendExact(text: Text, c: FullConfig, id: string, url: string, weight: int, enabled: bool)
    requires ValidConfig(text, c)
    ensures var op := UpdateBackend(id, url, weight, enabled);
            Mutated(op, c).Ok? && ValidConfig(text, Mutated(op, c).value) <==> Acceptable(text, c, op)
  {
    var i := IndexOfBackend(c.backends, id);
    IndexOfBackendFinds(c.backends, id);
    BackendsAreSome(text, c.backends);
    if i < |c.backends| {
      var b := Updated(c.backends[i].value, url, weight, enabled);
      ReplaceValid(text, c.backends, i, b);
      ReplaceIds(c.backends, i, b);
      OwnUrlIsFree(c.backends, i);
    }
    hide BackendIds, PolicyIds, ValidBackends, ValidVirtualHosts, ValidPolicies, ValidHealthCheck, ValidUrl, UrlFreeFor, OtherEnabled;
  }

  lemma OwnUrlIsFree(bs: seq<Option<BackendConfig>>, i: nat)
    requires AllSome(bs) && DistinctBackends(bs) && i < |bs|
    ensures UrlFreeFor(bs, bs[i].value.url, bs[i].value.id)
  {
  }

  lemma RemoveBackendExact(text: Text, c: FullConfig, id: string)
    requires ValidConfig(text, c)
    ensures Mutated(RemoveBackend(id), c).Ok? && ValidConfig(text, Mutated(RemoveBackend(id), c).value) <==>
            Acceptable(text, c, RemoveBackend(id))
  {
    var i := IndexOfBackend(c.backends, id);
    IndexOfBackendFinds(c.backends, id);
    BackendsAreSome(text, c.backends);
    if i < |c.backends| {
      RemoveIds(text, c.backends, i);
      RemoveValid(text, c.backends, i);
      HostsWithout(c.virtualHosts, id, BackendIds(c.backends), PolicyIds(c.policies));
    }
    hide BackendIds, PolicyIds, ValidBackends, ValidVirtualHosts, ValidPolicies, ValidHealthCheck, HostSurvives, OtherEnabled, RemoveAt;
  }

  lemma NoEmptyPolicyId(ps: seq<SecurityPolicy>)
    requires ValidPolicies(ps)
    ensures "" !in PolicyIds(ps)
  {
    PolicyIdsMember(ps, "");
    assert forall k :: 0 <= k < |ps| ==> ValidPolicy(ps[k]);
  }

  lemma HostOpExact(text: Text, c: FullConfig, op: Op)
    requires ValidConfig(text, c)
    requires op.AddVirtualHost? || op.UpdateVirtualHost? || op.RemoveVirtualHost? || op.SetVirtualHostSecurityPolicy?
    ensures Mutated(op, c).Ok? && ValidConfig(text, Mutated(op, c).value) <==> Acceptable(text, c, op)
  {
    hide BackendIds, PolicyIds, ValidBackends, ValidPolicies, ValidHealthCheck;
    var vhs, ids, policies := c.virtualHosts, BackendIds(c.backends), PolicyIds(c.policies);
    var i := IndexOfHost(vhs, if op.AddVirtualHost? then op.vhost.domain else op.domain);
    NoEmptyPolicyId(c.policies);
    if i < |vhs| {
      assert ValidVirtualHost(vhs[i], ids, policies);
      HostsRemove(vhs, i, ids, policies);
    }
    match op {
      case AddVirtualHost(vh) => HostsAppend(vhs, DefaultedHost(vh), ids, policies);
      case UpdateVirtualHost(domain, vh) =>
        if i < |vhs| {
          HostsReplace(vhs, i, HostUpdate(domain, vh, vhs[i]), ids, policies);
        }
      case SetVirtualHostSecurityPolicy(_, policyID) =>
        if i < |vhs| {
          HostsReplace(vhs, i, vhs[i].(securityPolicyID := policyID), ids, policies);
          SamePolicyCheck(vhs[i], policyID, ids, policies);
        }
      case _ =>
    }
    hide ValidVirtualHost, ValidVirtualHosts;
  }

  lemma SamePolicyCheck(vh: VirtualHost, policyID: string, ids: set<string>, policies: set<string>)
    requires ValidVirtualHost(vh, ids, policies)
    ensures ValidVirtualHost(vh.(securityPolicyID := policyID), ids, policies) <==> policyID in policies
  {
    var vh' := vh.(securityPolicyID := policyID);
    assert forall j :: 0 <= j < |vh.pathRoutes| ==> ValidRoute(vh.pathRoutes[j], vh, ids) == ValidRoute(vh.pathRoutes[j], vh', ids);
  }

  lemma UpsertPolicyExact(text: Text, c: FullConfig, policy: SecurityPolicy)
    requires ValidConfig(text, c)
    ensures Mutated(UpsertPolicy(policy), c).Ok? && ValidConfig(text, Mutated(UpsertPolicy(policy), c).value) <==>
            Acceptable(text, c, UpsertPolicy(policy))
  {
    hide BackendIds, PolicyIds, ValidBackends, ValidPolicies, ValidHealthCheck, ValidVirtualHosts, IndexOfPolicy;
    var i := IndexOfPolicy(c.policies, policy.id);
    var ids := BackendIds(c.backends);
    if i < |c.policies| {
      PolicyReplace(c.policies, i, policy);
    } else {
      PolicyAppend(c.policies, policy);
      HostsKeepValid(c.virtualHosts, ids, ids, PolicyIds(c.policies), PolicyIds(c.policies) + {policy.id});
    }
  }

  /**
   From a valid, complete configuration and absent I/O failure, an operation succeeds
   exactly when its acceptability condition holds.
   */
  lemma AcceptsExactly(text: Text, c: FullConfig, op: Op)
    requires ValidConfig(text, c) && Complete(c)
    ensures Succeeds(text, c, op) <==> Acceptable(text, c, op)
  {
    hide ValidBackends, ValidPolicies, ValidHealthCheck, ValidVirtualHosts, Complete;
    if Mutated(op, c).Ok? && !op.Replace? {
      MutatedIsComplete(op, c);
      CompleteIsFixed(Mutated(op, c).value);
    }
    match op {
      case AddBackend(b) => AddBackendExact(text, c, b);
      case UpdateBackend(id, url, weight, enabled) => UpdateBackendExact(text, c, id, url, weight, enabled);
      case RemoveBackend(id) => RemoveBackendExact(text, c, id);
      case UpsertPolicy(policy) => UpsertPolicyExact(text, c, policy);
      case UpdateServer(_, _) =>
      case UpdateLoadBalancer(_) =>
      case Replace(_) =>
      case _ => HostOpExact(text, c, op);
    }
  }

  /** The hosts before and after a removal: the same, except that every list is without the id. */
  ghost predicate OnlyListsShrink(before: VirtualHost, after: VirtualHost, id: string) {
    && after == before.(backendIDs := after.backendIDs, pathRoutes := after.pathRoutes)
    && after.backendIDs == Without(before.backendIDs, id)
    && |after.pathRoutes| == |before.pathRoutes|
    && forall j :: 0 <= j < |before.pathRoutes| ==>
         && after.pathRoutes[j] == before.pathRoutes[j].(backendIDs := after.pathRoutes[j].backendIDs)
         && after.pathRoutes[j].backendIDs == Without(before.pathRoutes[j].backendIDs, id)
  }

  /**
   What an accepted removal leaves: the other backends in order, the same hosts and routes
   with the id taken out of their lists, and nothing else changed.
   */
  lemma RemovalLeaves(text: Text, c: FullConfig, id: string)
    requires ValidConfig(text, c) && Mutated(RemoveBackend(id), c).Ok?
    ensures var n := Mutated(RemoveBackend(id), c).value;
            && n == c.(backends := n.backends, virtualHosts := n.virtualHosts)
            && (forall x :: x in n.backends <==> x in c.backends && x.Some? && x.value.id != id)
            && (exists i :: 0 <= i < |c.backends| && c.backends[i].Some? && c.backends[i].value.id == id &&
                            n.backends == RemoveAt(c.backends, i))
            && |n.virtualHosts| == |c.virtualHosts|
            && (forall i :: 0 <= i < |c.virtualHosts| ==> OnlyListsShrink(c.virtualHosts[i], n.virtualHosts[i], id))
  {
    hide ValidVirtualHosts, ValidPolicies, ValidHealthCheck, SomeEnabled, Without;
    var n := Mutated(RemoveBackend(id), c).value;
    BackendsAreSome(text, c.backends);
    var i := IndexOfBackend(c.backends, id);
    assert n.backends == RemoveAt(c.backends, i);
    forall x ensures x in n.backends <==> x in c.backends && x.Some? && x.value.id != id {
      RemoveMember(c.backends, i, x);
    }
  }

  /** `Without` works element by element, so it keeps the order of the others. */
  lemma {:induction false} WithoutKeepsOrder(xs: seq<string>, ys: seq<string>, id: string)
    ensures Without(xs + ys, id) == Without(xs, id) + Without(ys, id)
  {
    if ys == [] {
      assert xs + ys == xs;
    } else {
      var n := |ys| - 1;
      WithoutKeepsOrder(xs, ys[..n], id);
      assert (xs + ys)[..|xs| + n] == xs + ys[..n];
      var last := if ys[n] == id then [] else [ys[n]];
      assert Without(xs + ys, id) == Without(xs + ys[..n], id) + last;
      assert Without(ys, id) == Without(ys[..n], id) + last;
      hide Without;
      assert (Without(xs, id) + Without(ys[..n], id)) + last == Without(xs, id) + (Without(ys[..n], id) + last);
    }
  }

  /** And it keeps how often each of them occurs. */
  lemma {:induction false} WithoutKeepsCounts(xs: seq<string>, id: string, x: string)
    ensures multiset(Without(xs, id))[x] == if x == id then 0 else multiset(xs)[x]
  {
    if xs != [] {
      WithoutKeepsCounts(xs[..|xs| - 1], id, x);
      assert xs == xs[..|xs| - 1] + [xs[|xs| - 1]];
    }
  }

  lemma RemoveMember(bs: seq<Option<BackendConfig>>, i: nat, x: Option<BackendConfig>)
    requires AllSome(bs) && DistinctBackends(bs) && i < |bs|
    ensures x in RemoveAt(bs, i) <==> x in bs && x.Some? && x.value.id != bs[i].value.id
  {
    var rest := RemoveAt(bs, i);
    if x in bs && x.Some? && x.value.id != bs[i].value.id {
      var k :| 0 <= k < |bs| && bs[k] == x;
      assert rest[if k < i then k else k - 1] == x;
    }
    if x in rest {
      var k :| 0 <= k < |rest| && rest[k] == x;
      assert bs[if k < i then k else k + 1] == x;
    }
  }

  /** Whatever refuses a removal, it is never a dangling reference or a duplicate. */
  lemma RemovalNeverDangles(text: Text, c: FullConfig, id: string, v: Violation)
    requires ValidConfig(text, c) && Mutated(RemoveBackend(id), c).Ok?
    requires Violates(text, Mutated(RemoveBackend(id), c).value, v)
    ensures v.NoBackends? || v.NoneEnabled? || v.NoTargets? || v.RouteTargets?
  {
    var i := IndexOfBackend(c.backends, id);
    hide BackendIds, PolicyIds, ValidHealthCheck, ValidLogging, ValidPolicies, ValidVirtualHosts, ValidBackends,
      BackendViolates, PolicyViolates, HostViolates, RemoveAt;
    RemoveIds(text, c.backends, i);
    PolicyViolationRefutes(c.policies, v);
    if BackendViolates(text, RemoveAt(c.backends, i), v) {
      BackendsWithoutViolate(text, c.backends, i, v);
    } else if HostViolates(WithoutInHosts(c.virtualHosts, id), BackendIds(c.backends) - {id}, PolicyIds(c.policies), v) {
      HostsWithoutViolate(c.virtualHosts, id, BackendIds(c.backends), PolicyIds(c.policies), v);
    }
  }

  lemma BackendsWithoutViolate(text: Text, bs: seq<Option<BackendConfig>>, i: nat, v: Violation)
    requires ValidBackends(text, bs) && i < |bs|
    requires BackendViolates(text, RemoveAt(bs, i), v)
    ensures v.NoBackends? || v.NoneEnabled?
  {
    BackendsAreSome(text, bs);
    var rest := RemoveAt(bs, i);
    hide ValidUrl, SomeEnabled;
    assert forall k :: 0 <= k < |rest| ==> rest[k] == bs[if k < i then k else k + 1];
    assert DistinctBackends(rest);
  }

  lemma HostsWithoutViolate(vhs: seq<VirtualHost>, id: string, ids: set<string>, policies: set<string>, v: Violation)
    requires ValidVirtualHosts(vhs, ids, policies)
    requires HostViolates(WithoutInHosts(vhs, id), ids - {id}, policies, v)
    ensures v.NoTargets? || v.RouteTargets?
  {
    var vhs' := WithoutInHosts(vhs, id);
    forall i | 0 <= i < |vhs|
      ensures vhs[i].domain != "" && vhs[i].securityPolicyID in policies && AllIn(vhs'[i].backendIDs, ids - {id})
    {
      assert ValidVirtualHost(vhs[i], ids, policies);
      WithoutAllIn(vhs[i].backendIDs, id, ids);
    }
    forall i, j | 0 <= i < |vhs| && 0 <= j < |vhs[i].pathRoutes|
      ensures HasPrefix(vhs'[i].pathRoutes[j].path, "/") && AllIn(vhs'[i].pathRoutes[j].backendIDs, ids - {id})
    {
      assert ValidVirtualHost(vhs[i], ids, policies);
      assert ValidRoute(vhs[i].pathRoutes[j], vhs[i], ids);
      WithoutAllIn(vhs[i].pathRoutes[j].backendIDs, id, ids);
    }
    hide Without, ValidVirtualHost, ValidRoute;
  }
}
