/**
 What an accepted operation of the configuration service leaves, field by field
 (internal/config/service.go), and exactly when it is accepted.
 */
module ServiceEffects {
  import opened Base
  import opened Config
  import opened Defaults
  import opened ServiceModel
  import opened ServiceExact

  /** The list differs from before at index `i` only. */
  ghost predicate OnlyAt<T(!new)>(before: seq<T>, after: seq<T>, i: nat) {
    i < |before| == |after| && forall k :: 0 <= k < |before| && k != i ==> after[k] == before[k]
  }

  /** The list is as before without the element at index `i`. */
  ghost predicate Removed<T(!new)>(before: seq<T>, after: seq<T>, i: nat) {
    && i < |before| == |after| + 1
    && forall k :: 0 <= k < |after| ==> after[k] == before[if k < i then k else k + 1]
  }

  ghost predicate BackendAt(c: FullConfig, id: string, i: nat) {
    i < |c.backends| && c.backends[i].Some? && c.backends[i].value.id == id
  }

  ghost predicate HostAt(c: FullConfig, domain: string, i: nat) {
    i < |c.virtualHosts| && c.virtualHosts[i].domain == domain
  }

  ghost predicate Added(c: FullConfig, n: FullConfig, b: BackendConfig) {
    && n == c.(backends := n.backends)
    && |n.backends| == |c.backends| + 1 && n.backends[|c.backends|] == Some(b)
    && (forall k :: 0 <= k < |c.backends| ==> n.backends[k] == c.backends[k])
    && (forall k: nat :: BackendAt(n, b.id, k) ==> n.backends[k] == Some(b))
  }

  ghost predicate Changed(c: FullConfig, n: FullConfig, id: string, url: string, weight: int, enabled: bool, i: nat) {
    && n == c.(backends := n.backends) && BackendAt(c, id, i) && OnlyAt(c.backends, n.backends, i)
    && n.backends[i] == Some(BackendConfig(id, if url == "" then c.backends[i].value.url else url, weight, enabled))
  }

  ghost predicate TakenOut(c: FullConfig, n: FullConfig, id: string, i: nat) {
    && n == c.(backends := n.backends, virtualHosts := n.virtualHosts)
    && BackendAt(c, id, i) && Removed(c.backends, n.backends, i) && (forall k: nat :: !BackendAt(n, id, k))
    && |n.virtualHosts| == |c.virtualHosts|
    && forall h :: 0 <= h < |c.virtualHosts| ==> OnlyListsShrink(c.virtualHosts[h], n.virtualHosts[h], id)
  }

  ghost predicate HostAdded(c: FullConfig, n: FullConfig, vh: VirtualHost) {
    && n == c.(virtualHosts := n.virtualHosts)
    && |n.virtualHosts| == |c.virtualHosts| + 1 && (forall k :: 0 <= k < |c.virtualHosts| ==> n.virtualHosts[k] == c.virtualHosts[k])
    && n.virtualHosts[|c.virtualHosts|] ==
       VirtualHost(vh.domain, vh.backendIDs, if vh.securityPolicyID == "" then "default" else vh.securityPolicyID, vh.pathRoutes)
  }

  ghost predicate HostChanged(c: FullConfig, n: FullConfig, domain: string, vh: VirtualHost, i: nat) {
    && n == c.(virtualHosts := n.virtualHosts) && HostAt(c, domain, i) && OnlyAt(c.virtualHosts, n.virtualHosts, i)
    && n.virtualHosts[i] ==
       VirtualHost(domain, vh.backendIDs,
                   if vh.securityPolicyID == "" then c.virtualHosts[i].securityPolicyID else vh.securityPolicyID, vh.pathRoutes)
  }

  ghost predicate PolicyUpserted(c: FullConfig, n: FullConfig, p: SecurityPolicy) {
    && n == c.(policies := n.policies)
    && if exists i :: 0 <= i < |c.policies| && c.policies[i].id == p.id
       then exists i :: 0 <= i < |c.policies| && c.policies[i].id == p.id && OnlyAt(c.policies, n.policies, i) && n.policies[i] == p
       else n.policies == c.policies + [p]
  }

  /** What the accepted operation leaves of `c`. */
  ghost predicate Effect(op: Op, c: FullConfig, n: FullConfig) {
    match op
    case AddBackend(b) => Added(c, n, b)
    case UpdateBackend(id, url, weight, enabled) => exists i: nat :: Changed(c, n, id, url, weight, enabled, i)
    case RemoveBackend(id) => exists i: nat :: TakenOut(c, n, id, i)
    case AddVirtualHost(vh) => HostAdded(c, n, vh)
    case UpdateVirtualHost(domain, vh) => exists i: nat :: HostChanged(c, n, domain, vh, i)
    case RemoveVirtualHost(domain) =>
      n == c.(virtualHosts := n.virtualHosts) && exists i: nat :: HostAt(c, domain, i) && Removed(c.virtualHosts, n.virtualHosts, i)
    case UpdateServer(proxyPort, adminGrpcPort) =>
      && n == c.(server := n.server)
      && n.server.proxyPort == (if proxyPort == 0 then c.server.proxyPort else proxyPort)
      && n.server.adminGrpcPort == (if adminGrpcPort == 0 then c.server.adminGrpcPort else adminGrpcPort)
    case SetVirtualHostSecurityPolicy(domain, policyID) =>
      && n == c.(virtualHosts := n.virtualHosts)
      && exists i: nat :: HostAt(c, domain, i) && OnlyAt(c.virtualHosts, n.virtualHosts, i) &&
           n.virtualHosts[i] == c.virtualHosts[i].(securityPolicyID := policyID)
    case UpsertPolicy(policy) => PolicyUpserted(c, n, policy)
    case UpdateLoadBalancer(strategy) => n == c.(strategy := strategy)
    case Replace(config) => n == Defaulted(config)
  }

  lemma AddEffect(text: Text, c: FullConfig, b: BackendConfig)
    requires ValidConfig(text, c) && Mutated(AddBackend(b), c).Ok?
    ensures Added(c, Mutated(AddBackend(b), c).value, b)
  {
    hide ValidConfig;
    assert forall k :: 0 <= k < |c.backends| && c.backends[k].Some? ==> c.backends[k].value.id != b.id;
  }

  lemma UpdateEffect(c: FullConfig, id: string, url: string, weight: int, enabled: bool)
    requires Mutated(UpdateBackend(id, url, weight, enabled), c).Ok?
    ensures Changed(c, Mutated(UpdateBackend(id, url, weight, enabled), c).value, id, url, weight, enabled, IndexOfBackend(c.backends, id))
  {
  }

  lemma RemoveEffect(text: Text, c: FullConfig, id: string)
    requires ValidConfig(text, c) && Mutated(RemoveBackend(id), c).Ok?
    ensures TakenOut(c, Mutated(RemoveBackend(id), c).value, id, IndexOfBackend(c.backends, id))
  {
    hide ValidConfig, IndexOfBackend, OnlyListsShrink, Without;
    var i := IndexOfBackend(c.backends, id);
    var n := Mutated(RemoveBackend(id), c).value;
    RemovalLeaves(text, c, id);
    assert n.backends == RemoveAt(c.backends, i);
    hide Mutated;
    forall k: nat ensures !BackendAt(n, id, k) {
      assert k < |n.backends| ==> n.backends[k] in n.backends;
    }
    RemovedAt(c.backends, i);
  }

  lemma RemovedAt<T(!new)>(xs: seq<T>, i: nat)
    requires i < |xs|
    ensures Removed(xs, RemoveAt(xs, i), i)
  {
  }

  lemma HostEffect(c: FullConfig, op: Op)
    requires Complete(c) && Mutated(op, c).Ok?
    requires op.AddVirtualHost? || op.UpdateVirtualHost? || op.RemoveVirtualHost? || op.SetVirtualHostSecurityPolicy?
    ensures Effect(op, c, Mutated(op, c).value)
  {
    hide IndexOfBackend, CompleteHealth, WithoutInHosts, IndexOfPolicy;
    var n := Mutated(op, c).value;
    match op {
      case UpdateVirtualHost(domain, vh) =>
        var i := IndexOfHost(c.virtualHosts, domain);
        assert c.virtualHosts[i].securityPolicyID != "";
        assert HostChanged(c, n, domain, vh, i);
      case RemoveVirtualHost(domain) =>
        var i := IndexOfHost(c.virtualHosts, domain);
        assert HostAt(c, domain, i) && Removed(c.virtualHosts, n.virtualHosts, i);
      case SetVirtualHostSecurityPolicy(domain, policyID) =>
        var i := IndexOfHost(c.virtualHosts, domain);
        assert HostAt(c, domain, i) && OnlyAt(c.virtualHosts, n.virtualHosts, i);
      case _ =>
    }
  }

  lemma PolicyEffect(c: FullConfig, p: SecurityPolicy)
    requires Mutated(UpsertPolicy(p), c).Ok?
    ensures PolicyUpserted(c, Mutated(UpsertPolicy(p), c).value, p)
  {
    var i := IndexOfPolicy(c.policies, p.id);
    var n := Mutated(UpsertPolicy(p), c).value;
    if i < |c.policies| {
      assert OnlyAt(c.policies, n.policies, i) && n.policies[i] == p;
    }
  }

  lemma MutatedHasEffect(text: Text, c: FullConfig, op: Op)
    requires ValidConfig(text, c) && Complete(c) && Mutated(op, c).Ok? && !op.Replace?
    ensures Effect(op, c, Mutated(op, c).value)
  {
    hide ValidConfig, Complete, Added, Changed, TakenOut, HostAdded, HostChanged, PolicyUpserted, IndexOfBackend, IndexOfHost, IndexOfPolicy,
      WithoutInHosts, RemoveAt;
    match op {
      case AddBackend(b) => AddEffect(text, c, b);
      case UpdateBackend(id, url, weight, enabled) => UpdateEffect(c, id, url, weight, enabled);
      case RemoveBackend(id) => RemoveEffect(text, c, id);
      case UpsertPolicy(policy) => PolicyEffect(c, policy);
      case UpdateServer(_, _) =>
      case UpdateLoadBalancer(_) =>
      case Replace(_) =>
      case _ => HostEffect(c, op);
    }
  }

  /** An accepted operation has its effect, on the configuration and on the file alike, and no other. */
  lemma AcceptedHasEffect(text: Text, s: State, op: Op, saveOk: bool)
    requires Sound(text, s) && Step(text, s, op, saveOk).1.None?
    ensures Effect(op, s.current, Step(text, s, op, saveOk).0.current)
    ensures Step(text, s, op, saveOk).0.file == Step(text, s, op, saveOk).0.current
  {
    hide Effect, Mutated, ValidConfig, Complete, Defaulted;
    if !op.Replace? {
      MutatedHasEffect(text, s.current, op);
      MutatedIsComplete(op, s.current);
      CompleteIsFixed(Mutated(op, s.current).value);
    } else {
      ReplaceEffect(op, s.current);
    }
  }

  lemma ReplaceEffect(op: Op, c: FullConfig)
    requires op.Replace?
    ensures Mutated(op, c).Ok? && Effect(op, c, Defaulted(Mutated(op, c).value))
  {
    hide Defaulted;
  }

  /** The service accepts an operation exactly if its condition holds and the file can be written. */
  lemma StepAcceptsExactly(text: Text, s: State, op: Op, saveOk: bool)
    requires Sound(text, s)
    ensures Step(text, s, op, saveOk).1.None? <==> saveOk && Acceptable(text, s.current, op)
    ensures Step(text, s, op, saveOk).1 == Some(SaveFailed) <==> !saveOk && Acceptable(text, s.current, op)
  {
    AcceptsExactly(text, s.current, op);
    NoSaveError(op, s.current);
    hide Mutated, ValidConfig, Complete, Defaulted, Acceptable;
  }

  lemma NoSaveError(op: Op, c: FullConfig)
    ensures Mutated(op, c).Err? ==> Mutated(op, c).error != SaveFailed
  {
  }

  /** In a valid configuration a backend is found under an id exactly if it is configured with that id. */
  lemma LookupExactly(text: Text, c: FullConfig, id: string, b: BackendConfig)
    requires ValidConfig(text, c)
    ensures Lookup(c, id) == Some(b) <==> Some(b) in c.backends && b.id == id
  {
    BackendsAreSome(text, c.backends);
    hide ValidVirtualHosts, ValidPolicies, ValidHealthCheck;
    if Some(b) in c.backends && b.id == id {
      var i :| 0 <= i < |c.backends| && c.backends[i] == Some(b);
      assert IndexOfBackend(c.backends, id) == i;
    }
    hide IndexOfBackend;
  }
}
