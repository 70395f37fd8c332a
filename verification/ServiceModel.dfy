/**
 The configuration service on values (internal/config/service.go): what each operation
 does to the current configuration and to the persisted file, exactly when it is
 accepted, and what every run of operations keeps.

 The clone taken before a mutation is deep, so a configuration is a value here (`Isolation`
 has the memory); whether the save succeeds is an input of every step.
 */
module ServiceModel {
  import opened Base
  import opened Config
  import opened Defaults

  datatype Error = EmptyArgument | AlreadyExists | NotFound | Rejected | SaveFailed

  datatype Op =
    | AddBackend(backend: BackendConfig)
    | UpdateBackend(id: string, url: string, weight: int, enabled: bool)
    | RemoveBackend(id: string)
    | AddVirtualHost(vhost: VirtualHost)
    | UpdateVirtualHost(domain: string, vhost: VirtualHost)
    | RemoveVirtualHost(domain: string)
    | UpdateServer(proxyPort: int, adminGrpcPort: int)
    | SetVirtualHostSecurityPolicy(domain: string, policyID: string)
    | UpsertPolicy(policy: SecurityPolicy)
    | UpdateLoadBalancer(strategy: string)
    | Replace(config: FullConfig)

  // ----- Searching and removing

  /** Index of the first backend with this id, or the length of the list. */
  function IndexOfBackend(bs: seq<Option<BackendConfig>>, id: string): (i: nat)
    ensures i <= |bs|
    ensures i < |bs| ==> bs[i].Some? && bs[i].value.id == id
    ensures forall k :: 0 <= k < i ==> bs[k].None? || bs[k].value.id != id
  {
    if bs == [] || (bs[0].Some? && bs[0].value.id == id) then 0
    else IndexOfBackend(bs[1..], id) + 1
  }

  function IndexOfHost(vhs: seq<VirtualHost>, domain: string): (i: nat)
    ensures i <= |vhs|
    ensures i < |vhs| ==> vhs[i].domain == domain
    ensures forall k :: 0 <= k < i ==> vhs[k].domain != domain
  {
    if vhs == [] || vhs[0].domain == domain then 0 else IndexOfHost(vhs[1..], domain) + 1
  }

  function IndexOfPolicy(ps: seq<SecurityPolicy>, id: string): (i: nat)
    ensures i <= |ps|
    ensures i < |ps| ==> ps[i].id == id
    ensures forall k :: 0 <= k < i ==> ps[k].id != id
  {
    if ps == [] || ps[0].id == id then 0 else IndexOfPolicy(ps[1..], id) + 1
  }

  /** What GetBackend returns: the first backend with this id. */
  function Lookup(c: FullConfig, id: string): Option<BackendConfig> {
    var i := IndexOfBackend(c.backends, id);
    if i < |c.backends| then c.backends[i] else None
  }

  /** `xs` without the occurrences of `target`, in order. */
  function Without(xs: seq<string>, target: string): seq<string> {
    if xs == [] then []
    else Without(xs[..|xs| - 1], target) + if xs[|xs| - 1] == target then [] else [xs[|xs| - 1]]
  }

  lemma {:induction false} WithoutMember(xs: seq<string>, target: string, x: string)
    ensures x in Without(xs, target) <==> x in xs && x != target
  {
    if xs != [] {
      WithoutMember(xs[..|xs| - 1], target, x);
      assert xs == xs[..|xs| - 1] + [xs[|xs| - 1]];
    }
  }

  function RemoveAt<T>(xs: seq<T>, i: nat): seq<T>
    requires i < |xs|
  {
    xs[..i] + xs[i + 1..]
  }

  function WithoutInRoute(r: PathRoute, id: string): PathRoute {
    r.(backendIDs := Without(r.backendIDs, id))
  }

  function WithoutInHost(vh: VirtualHost, id: string): VirtualHost {
    vh.(backendIDs := Without(vh.backendIDs, id),
        pathRoutes := seq(|vh.pathRoutes|, j requires 0 <= j < |vh.pathRoutes| => WithoutInRoute(vh.pathRoutes[j], id)))
  }

  function WithoutInHosts(vhs: seq<VirtualHost>, id: string): (r: seq<VirtualHost>)
    ensures |r| == |vhs| && forall i :: 0 <= i < |vhs| ==> r[i] == WithoutInHost(vhs[i], id)
  {
    seq(|vhs|, i requires 0 <= i < |vhs| => WithoutInHost(vhs[i], id))
  }

  // ----- The operations

  function Updated(b: BackendConfig, url: string, weight: int, enabled: bool): BackendConfig {
    b.(url := if url != "" then url else b.url, weight := weight, enabled := enabled)
  }

  /** The edit an operation makes to its copy of the configuration, before defaulting and validation. */
  function Mutated(op: Op, c: FullConfig): Result<FullConfig, Error> {
    match op
    case AddBackend(b) =>
      if b.id == "" || b.url == "" then Err(EmptyArgument)
      else if exists i :: 0 <= i < |c.backends| && c.backends[i].Some? &&
                          (c.backends[i].value.id == b.id || c.backends[i].value.url == b.url)
      then Err(AlreadyExists)
      else Ok(c.(backends := c.backends + [Some(b)]))
    case UpdateBackend(id, url, weight, enabled) =>
      var i := IndexOfBackend(c.backends, id);
      if id == "" then Err(EmptyArgument)
      else if i == |c.backends| then Err(NotFound)
      else Ok(c.(backends := c.backends[i := Some(Updated(c.backends[i].value, url, weight, enabled))]))
    case RemoveBackend(id) =>
      var i := IndexOfBackend(c.backends, id);
      if id == "" then Err(EmptyArgument)
      else if i == |c.backends| then Err(NotFound)
      else Ok(c.(backends := RemoveAt(c.backends, i), virtualHosts := WithoutInHosts(c.virtualHosts, id)))
    case AddVirtualHost(vh) =>
      if vh.domain == "" then Err(EmptyArgument)
      else if IndexOfHost(c.virtualHosts, vh.domain) < |c.virtualHosts| then Err(AlreadyExists)
      else Ok(c.(virtualHosts := c.virtualHosts + [DefaultedHost(vh)]))
    case UpdateVirtualHost(domain, vh) =>
      var i := IndexOfHost(c.virtualHosts, domain);
      if domain == "" then Err(EmptyArgument)
      else if i == |c.virtualHosts| then Err(NotFound)
      else Ok(c.(virtualHosts := c.virtualHosts[i := HostUpdate(domain, vh, c.virtualHosts[i])]))
    case RemoveVirtualHost(domain) =>
      var i := IndexOfHost(c.virtualHosts, domain);
      if domain == "" then Err(EmptyArgument)
      else if i == |c.virtualHosts| then Err(NotFound)
      else Ok(c.(virtualHosts := RemoveAt(c.virtualHosts, i)))
    case UpdateServer(proxyPort, adminGrpcPort) =>
      Ok(c.(server := ServerConfig(if proxyPort != 0 then proxyPort else c.server.proxyPort,
                                   if adminGrpcPort != 0 then adminGrpcPort else c.server.adminGrpcPort)))
    case SetVirtualHostSecurityPolicy(domain, policyID) =>
      var i := IndexOfHost(c.virtualHosts, domain);
      if domain == "" || policyID == "" then Err(EmptyArgument)
      else if i == |c.virtualHosts| then Err(NotFound)
      else Ok(c.(virtualHosts := c.virtualHosts[i := c.virtualHosts[i].(securityPolicyID := policyID)]))
    case UpsertPolicy(policy) =>
      var i := IndexOfPolicy(c.policies, policy.id);
      if policy.id == "" then Err(EmptyArgument)
      else if i < |c.policies| then Ok(c.(policies := c.policies[i := policy]))
      else Ok(c.(policies := c.policies + [policy]))
    case UpdateLoadBalancer(strategy) =>
      if strategy == "" then Err(EmptyArgument) else Ok(c.(strategy := strategy))
    case Replace(config) => Ok(config)
  }

  /** UpdateBackend starts the checks over, from what it read of the backend before and after its update. */
  predicate ShouldRecheck(previous: Option<BackendConfig>, backend: Option<BackendConfig>) {
    backend.Some? && backend.value.enabled &&
    (previous.None? || !previous.value.enabled || previous.value.url != backend.value.url)
  }

  /** An omitted policy keeps the one in force. */
  function HostUpdate(domain: string, vh: VirtualHost, existing: VirtualHost): VirtualHost {
    var policy := if vh.securityPolicyID != "" then vh.securityPolicyID else existing.securityPolicyID;
    vh.(domain := domain, securityPolicyID := OrString(policy, "default"))
  }

  datatype State = State(current: FullConfig, file: FullConfig)

  /** Mutate, default, validate, save, publish. */
  function Step(text: Text, s: State, op: Op, saveOk: bool): (State, Option<Error>) {
    match Mutated(op, s.current)
    case Err(e) => (s, Some(e))
    case Ok(n) => Publish(text, s, n, saveOk)
  }

  function Publish(text: Text, s: State, n: FullConfig, saveOk: bool): (State, Option<Error>) {
    var next := Defaulted(n);
    if !ValidConfig(text, next) then (s, Some(Rejected))
    else if !saveOk then (s, Some(SaveFailed))
    else (State(next, next), None)
  }

  /** Loading a file: decode, default, validate. */
  function Load(text: Text, file: FullConfig): Option<FullConfig> {
    if ValidConfig(text, Defaulted(file)) then Some(Defaulted(file)) else None
  }

  function Run(text: Text, s: State, ops: seq<(Op, bool)>): State {
    if ops == [] then s
    else Step(text, Run(text, s, ops[..|ops| - 1]), ops[|ops| - 1].0, ops[|ops| - 1].1).0
  }

  // ----- What every run keeps

  /** The current configuration is valid and complete, and restarting would load exactly it. */
  ghost predicate Sound(text: Text, s: State) {
    ValidConfig(text, s.current) && Complete(s.current) && Load(text, s.file) == Some(s.current)
  }

  /** A service that starts at all starts sound. */
  lemma StartIsSound(text: Text, file: FullConfig)
    requires Load(text, file).Some?
    ensures Sound(text, State(Load(text, file).value, file))
  {
    DefaultedIsComplete(file);
  }

  lemma StepKeepsSound(text: Text, s: State, op: Op, saveOk: bool)
    requires Sound(text, s)
    ensures Sound(text, Step(text, s, op, saveOk).0)
    ensures Step(text, s, op, saveOk).1.Some? ==> Step(text, s, op, saveOk).0 == s
  {
    hide ValidConfig, Complete;
    if Mutated(op, s.current).Ok? {
      var n := Mutated(op, s.current).value;
      DefaultedIsComplete(n);
      DefaultingIsIdempotent(n);
    }
  }

  /**
   Restart equivalence: at every point of every run, loading the persisted file succeeds
   and yields the configuration in memory, which is valid.
   */
  lemma {:induction false} RestartEquivalence(text: Text, file: FullConfig, ops: seq<(Op, bool)>)
    requires Load(text, file).Some?
    ensures var s := Run(text, State(Load(text, file).value, file), ops);
            ValidConfig(text, s.current) && Load(text, s.file) == Some(s.current) && Complete(s.current)
  {
    var start := State(Load(text, file).value, file);
    if ops == [] {
      StartIsSound(text, file);
    } else {
      RestartEquivalence(text, file, ops[..|ops| - 1]);
      StepKeepsSound(text, Run(text, start, ops[..|ops| - 1]), ops[|ops| - 1].0, ops[|ops| - 1].1);
    }
  }
}
