/**
 Publication of runtime state (applyUpdate, UpdateBackend and NewRuntime in
 internal/proxy/runtime/runtime.go, Reconcile in internal/proxy/runtime/backend_registry.go)
 as a state machine.

 One update at a time goes through mutate, reconcile, mark healthy, register metrics, swap
 and deregister metrics, one status or URL per step.  Between any two steps requests load
 a published state, health results arrive for states loaded earlier, and the completions
 of earlier UpdateBackend calls reset or mark statuses.

 Status objects are named by their index in `objects`, which only grows.
 */
module RuntimeModel {
  import opened Base
  import opened Config
  import opened Defaults
  import opened ServiceModel
  import opened HealthStatus
  import ServiceExact
  import LeastConnections

  /** A status object and the backend id it was created for. */
  datatype Object = Object(owner: string, status: Status)

  /** An immutable runtime state: a configuration and the status object of each backend id. */
  datatype Published = Published(config: FullConfig, statuses: map<string, nat>)

  datatype Phase =
    | Idle
    | Committed
    | Marking(next: Published, i: nat)
    | Registering(next: Published, i: nat)
    | Deregistering(prev: Published, i: nat)

  type Update = op: Op | op.UpdateBackend? witness UpdateBackend("", "", 0, false)

  /**
   How far an UpdateBackend call has come: it has read the backend once; its change has been
   published, when `since` states had been; it has read the backend again and is to look at
   the status; it has returned.
   */
  datatype Call =
    | Entered(op: Update, previous: Option<BackendConfig>)
    | Changed(op: Update, previous: Option<BackendConfig>, since: nat)
    | Due(op: Update, since: nat)
    | Returned

  /**
   `history` lists every state published so far; its last element is the current one.
   `updating` is the call whose update is under way, if it is the update of a call.
   */
  datatype System = System(
    service: State,
    registry: map<string, nat>,
    objects: seq<Object>,
    metrics: set<string>,
    history: seq<Published>,
    phase: Phase,
    updating: Option<nat>,
    calls: seq<Call>)

  datatype Event =
    | Enter(update: Update)
    | Mutate(op: Op, saveOk: bool, call: Option<nat>)
    | Reconcile
    | Mark
    | Register
    | Swap
    | DeregisterOne
    | Finish
    | ReadAgain(j: nat)
    | Recheck(j: nat, k: nat)
    | HealthResult(k: nat, id: string, outcome: Outcome)

  function Current(s: System): Published
    requires s.history != []
  {
    s.history[|s.history| - 1]
  }

  /** The new status map, and the ids for which objects were created, in order. */
  function Reconciled(known: map<string, nat>, base: nat, bs: seq<Option<BackendConfig>>): (map<string, nat>, seq<string>) {
    if bs == [] then (map[], [])
    else
      var (m, created) := Reconciled(known, base, bs[..|bs| - 1]);
      match bs[|bs| - 1]
      case None => (m, created)
      case Some(b) =>
        if b.id in known then (m[b.id := known[b.id]], created)
        else (m[b.id := base + |created|], created + [b.id])
  }

  function NewObjects(ids: seq<string>): (objects: seq<Object>)
    ensures |objects| == |ids| && forall i :: 0 <= i < |ids| ==> objects[i] == Object(ids[i], FRESH)
  {
    seq(|ids|, i requires 0 <= i < |ids| => Object(ids[i], FRESH))
  }

  function SetStatus(objects: seq<Object>, r: nat, status: Status): seq<Object> {
    if r < |objects| then objects[r := objects[r].(status := status)] else objects
  }

  function StatusAt(objects: seq<Object>, r: nat): Status {
    if r < |objects| then objects[r].status else FRESH
  }

  /** MarkHealthy on the status of one backend, if it is enabled. */
  function MarkOne(objects: seq<Object>, p: Published, b: Option<BackendConfig>): seq<Object> {
    if b.Some? && b.value.enabled && b.value.id in p.statuses
    then SetStatus(objects, p.statuses[b.value.id], MarkedHealthy(StatusAt(objects, p.statuses[b.value.id])))
    else objects
  }

  function MarkAll(objects: seq<Object>, p: Published, bs: seq<Option<BackendConfig>>): seq<Object> {
    if bs == [] then objects else MarkOne(MarkAll(objects, p, bs[..|bs| - 1]), p, bs[|bs| - 1])
  }

  /** The call whose update has been published goes on. */
  function AfterUpdate(calls: seq<Call>, updating: Option<nat>, since: nat): seq<Call> {
    if updating.Some? && updating.value < |calls| && calls[updating.value].Entered?
    then calls[updating.value := Changed(calls[updating.value].op, calls[updating.value].previous, since)]
    else calls
  }

  /** The call compares its two reads. */
  function AfterReads(call: Call, backend: Option<BackendConfig>): Call
    requires call.Changed?
  {
    if ShouldRecheck(call.previous, backend) then Due(call.op, call.since) else Returned
  }

  /** A backend that was enabled or moved starts over. */
  function Rechecked(objects: seq<Object>, p: Published, r: nat): seq<Object> {
    SetStatus(objects, r, if p.config.healthCheck.enabled then FRESH else MarkedHealthy(StatusAt(objects, r)))
  }

  predicate Enabled(s: System, e: Event) {
    s.history != [] &&
    match e
    case Enter(_) => true
    // Of the operations, only UpdateBackend does more than the update.
    case Mutate(op, _, j) =>
      && s.phase.Idle? && !op.Replace? && (op.UpdateBackend? <==> j.Some?)
      && (j.Some? ==> j.value < |s.calls| && s.calls[j.value].Entered? && s.calls[j.value].op == op)
    case Reconcile => s.phase.Committed?
    case Mark => s.phase.Marking?
    case Register => s.phase.Registering? && s.phase.i < |s.phase.next.config.backends|
    case Swap => s.phase.Registering? && s.phase.i >= |s.phase.next.config.backends|
    case DeregisterOne => s.phase.Deregistering? && s.phase.i < |s.phase.prev.config.backends|
    case Finish => s.phase.Deregistering? && s.phase.i >= |s.phase.prev.config.backends|
    case ReadAgain(j) => j < |s.calls| && s.calls[j].Changed?
    // The completion of an UpdateBackend call, on the state it loads after its own update.
    case Recheck(j, k) => j < |s.calls| && s.calls[j].Due? && s.calls[j].since <= k + 1 <= |s.history|
    // Every path that applies a result first checks the health configuration it loaded.
    case HealthResult(k, id, _) =>
      k < |s.history| && id in s.history[k].statuses && s.history[k].config.healthCheck.enabled
  }

  function Next(text: Text, s: System, e: Event): System
    requires Enabled(s, e)
  {
    match e
    case Enter(op) => s.(calls := s.calls + [Entered(op, Lookup(s.service.current, op.id))])
    case Mutate(op, saveOk, j) =>
      var (service, err) := Step(text, s.service, op, saveOk);
      if err.Some? then (if j.Some? then s.(calls := s.calls[j.value := Returned]) else s)
      else s.(service := service, phase := Committed, updating := j)
    case Reconcile =>
      var (statuses, created) := Reconciled(s.registry, |s.objects|, s.service.current.backends);
      s.(registry := statuses, objects := s.objects + NewObjects(created),
         phase := Marking(Published(s.service.current, statuses), 0))
    case Mark =>
      var next, i := s.phase.next, s.phase.i;
      if next.config.healthCheck.enabled || i >= |next.config.backends| then s.(phase := Registering(next, 0))
      else s.(objects := MarkOne(s.objects, next, next.config.backends[i]), phase := Marking(next, i + 1))
    case Register =>
      var b := s.phase.next.config.backends[s.phase.i];
      s.(metrics := s.metrics + (if b.Some? then {b.value.url} else {}),
         phase := Registering(s.phase.next, s.phase.i + 1))
    case Swap => s.(history := s.history + [s.phase.next], phase := Deregistering(Current(s), 0))
    case DeregisterOne =>
      var b := s.phase.prev.config.backends[s.phase.i];
      var gone := b.Some? && b.value.id !in BackendIds(Current(s).config.backends);
      s.(metrics := s.metrics - (if gone then {b.value.url} else {}),
         phase := Deregistering(s.phase.prev, s.phase.i + 1))
    case Finish => s.(phase := Idle, updating := None, calls := AfterUpdate(s.calls, s.updating, |s.history|))
    case ReadAgain(j) => s.(calls := s.calls[j := AfterReads(s.calls[j], Lookup(s.service.current, s.calls[j].op.id))])
    case Recheck(j, k) =>
      var id := s.calls[j].op.id;
      s.(calls := s.calls[j := Returned],
         objects := if id in s.history[k].statuses then Rechecked(s.objects, s.history[k], s.history[k].statuses[id]) else s.objects)
    case HealthResult(k, id, outcome) =>
      var r := s.history[k].statuses[id];
      s.(objects := SetStatus(s.objects, r, Applied(StatusAt(s.objects, r), outcome, s.history[k].config.healthCheck.thresholds)))
  }

  /** NewRuntime: register every URL, create the statuses, mark them if checking is disabled, publish. */
  function Start(c: FullConfig, file: FullConfig): System {
    var (statuses, created) := Reconciled(map[], 0, c.backends);
    var first := Published(c, statuses);
    var objects := if c.healthCheck.enabled then NewObjects(created) else MarkAll(NewObjects(created), first, c.backends);
    System(State(c, file), statuses, objects, BackendUrls(c.backends), [first], Idle, None, [])
  }

  /** `events` is an interleaving that takes the runtime from `s` to `s'`. */
  predicate Run(text: Text, s: System, events: seq<Event>, s': System)
    decreases |events|
  {
    if events == [] then s == s' else Enabled(s, events[0]) && Run(text, Next(text, s, events[0]), events[1..], s')
  }

  // ----- Reconciliation

  lemma {:induction false} ReconciledFacts(known: map<string, nat>, base: nat, bs: seq<Option<BackendConfig>>)
    ensures Reconciled(known, base, bs).0.Keys == BackendIds(bs)
    ensures forall id :: id in Reconciled(known, base, bs).0 ==>
              if id in known then Reconciled(known, base, bs).0[id] == known[id]
              else base <= Reconciled(known, base, bs).0[id] < base + |Reconciled(known, base, bs).1| &&
                   Reconciled(known, base, bs).1[Reconciled(known, base, bs).0[id] - base] == id
  {
    if bs != [] {
      ReconciledFacts(known, base, bs[..|bs| - 1]);
    }
  }

  // ----- Structure: what the published states look like

  /** A published state: valid, with exactly one status object per backend id, owned by that id. */
  ghost predicate WellFormed(text: Text, p: Published, objects: seq<Object>) {
    && ValidConfig(text, p.config)
    && p.statuses.Keys == BackendIds(p.config.backends)
    && (forall id :: id in p.statuses ==> p.statuses[id] < |objects| && objects[p.statuses[id]].owner == id)
  }

  /** The state being prepared or, outside an update, the current one. */
  function Newest(s: System): Published
    requires s.history != []
  {
    if s.phase.Marking? || s.phase.Registering? then s.phase.next else Current(s)
  }

  ghost predicate Structured(text: Text, s: System) {
    && s.history != []
    && Sound(text, s.service)
    && (forall k :: 0 <= k < |s.history| ==>
          WellFormed(text, s.history[k], s.objects) && s.history[k].config.healthCheck == s.service.current.healthCheck)
    && WellFormed(text, Newest(s), s.objects)
    && (!s.phase.Committed? ==> Newest(s).config == s.service.current)
    && s.registry == Newest(s).statuses
  }

  lemma WellFormedGrows(text: Text, p: Published, objects: seq<Object>, more: seq<Object>)
    requires WellFormed(text, p, objects)
    requires |objects| <= |more| && forall r :: 0 <= r < |objects| ==> more[r].owner == objects[r].owner
    ensures WellFormed(text, p, more)
  {
  }

  /** No runtime operation touches the health configuration. */
  lemma MutationKeepsHealthConfig(text: Text, s: State, op: Op, saveOk: bool)
    requires Sound(text, s) && !op.Replace?
    ensures Step(text, s, op, saveOk).0.current.healthCheck == s.current.healthCheck
    ensures Step(text, s, op, saveOk).1.None? ==>
              Mutated(op, s.current) == Ok(Step(text, s, op, saveOk).0.current)
  {
    hide ValidConfig, Complete, Mutated, Defaulted;
    if Mutated(op, s.current).Ok? {
      ServiceExact.MutatedIsComplete(op, s.current);
      CompleteIsFixed(Mutated(op, s.current).value);
      HealthUntouched(op, s.current);
    }
  }

  lemma HealthUntouched(op: Op, c: FullConfig)
    requires !op.Replace? && Mutated(op, c).Ok?
    ensures Mutated(op, c).value.healthCheck == c.healthCheck
  {
    hide IndexOfBackend, IndexOfHost, IndexOfPolicy, RemoveAt, WithoutInHosts, HostUpdate, Updated;
  }

  /** No step shrinks the object table or changes an owner, so published states stay well formed. */
  lemma ObjectsOnlyGrow(text: Text, s: System, e: Event)
    requires Enabled(s, e)
    ensures |s.objects| <= |Next(text, s, e).objects|
    ensures forall r :: 0 <= r < |s.objects| ==> Next(text, s, e).objects[r].owner == s.objects[r].owner
  {
  }

  lemma ReconcileIsWellFormed(text: Text, known: map<string, nat>, objects: seq<Object>, c: FullConfig)
    requires ValidConfig(text, c)
    requires forall id :: id in known ==> known[id] < |objects| && objects[known[id]].owner == id
    ensures var (statuses, created) := Reconciled(known, |objects|, c.backends);
            WellFormed(text, Published(c, statuses), objects + NewObjects(created))
  {
    hide Reconciled, BackendIds, ValidConfig;
    ReconciledFacts(known, |objects|, c.backends);
    var (statuses, created) := Reconciled(known, |objects|, c.backends);
    var more := objects + NewObjects(created);
    assert |more| == |objects| + |created|;
    forall id | id in statuses ensures statuses[id] < |more| && more[statuses[id]].owner == id {
      if id !in known {
        assert more[statuses[id]] == NewObjects(created)[statuses[id] - |objects|];
      }
    }
  }

  lemma StepKeepsStructured(text: Text, s: System, e: Event)
    requires Structured(text, s) && Enabled(s, e)
    ensures Structured(text, Next(text, s, e))
  {
    hide ValidConfig, Sound, Step, BackendIds, BackendUrls, Reconciled, MarkOne, Applied, SetStatus;
    var s' := Next(text, s, e);
    ObjectsOnlyGrow(text, s, e);
    match e {
      case Mutate(op, saveOk, _) =>
        MutationKeepsHealthConfig(text, s.service, op, saveOk);
        StepKeepsSound(text, s.service, op, saveOk);
      case Reconcile =>
        SoundIsValid(text, s.service);
        ReconcileIsWellFormed(text, s.registry, s.objects, s.service.current);
      case _ =>
    }
    forall k | 0 <= k < |s.history| ensures WellFormed(text, s.history[k], s'.objects) {
      WellFormedGrows(text, s.history[k], s.objects, s'.objects);
    }
    if !e.Reconcile? {
      WellFormedGrows(text, Newest(s), s.objects, s'.objects);
    }
    hide WellFormed;
  }

  lemma SoundIsValid(text: Text, s: State)
    requires Sound(text, s)
    ensures ValidConfig(text, s.current) && Complete(s.current)
  {
  }

  // ----- Metrics registration

  /** No backend that disappears leaves its URL to another backend. */
  ghost predicate SafeRemoval(prev: FullConfig, next: FullConfig) {
    forall i :: 0 <= i < |prev.backends| && prev.backends[i].Some? && prev.backends[i].value.id !in BackendIds(next.backends)
      ==> prev.backends[i].value.url !in BackendUrls(next.backends)
  }

  lemma IdsAfter(c: FullConfig, op: Op)
    requires !op.Replace? && !op.RemoveBackend? && Mutated(op, c).Ok?
    ensures BackendIds(c.backends) <= BackendIds(Mutated(op, c).value.backends)
  {
    match op
    case AddBackend(a) => ServiceExact.IdsOfAppend(c.backends, a);
    case UpdateBackend(id, url, weight, enabled) =>
      var j := IndexOfBackend(c.backends, id);
      ServiceExact.ReplaceIds(c.backends, j, Updated(c.backends[j].value, url, weight, enabled));
    case _ =>
  }

  /** Each runtime operation changes at most one backend, and URLs are unique. */
  lemma OperationsRemoveSafely(text: Text, c: FullConfig, op: Op)
    requires ValidConfig(text, c) && !op.Replace? && Mutated(op, c).Ok?
    ensures SafeRemoval(c, Mutated(op, c).value)
  {
    var n := Mutated(op, c).value;
    ServiceExact.BackendsAreSome(text, c.backends);
    if op.RemoveBackend? {
      var j := IndexOfBackend(c.backends, op.id);
      ServiceExact.RemoveIds(text, c.backends, j);
      RemovedUrlIsGone(c.backends, j);
    } else {
      IdsAfter(c, op);
    }
    hide Mutated, ValidConfig, BackendIds, BackendUrls, RemoveAt;
    forall i | 0 <= i < |c.backends| && c.backends[i].value.id !in BackendIds(n.backends)
      ensures c.backends[i].value.url !in BackendUrls(n.backends)
    {
      BackendIdsMember(c.backends, c.backends[i].value.id);
      if op.RemoveBackend? {
        SameIdSameUrl(c.backends, i, IndexOfBackend(c.backends, op.id));
      }
    }
  }

  lemma SameIdSameUrl(bs: seq<Option<BackendConfig>>, i: nat, j: nat)
    requires ServiceExact.AllSome(bs) && DistinctBackends(bs) && i < |bs| && j < |bs|
    ensures bs[i].value.id == bs[j].value.id ==> i == j
  {
  }

  lemma RemovedUrlIsGone(bs: seq<Option<BackendConfig>>, j: nat)
    requires ServiceExact.AllSome(bs) && DistinctBackends(bs) && j < |bs|
    ensures bs[j].value.url !in BackendUrls(RemoveAt(bs, j))
  {
    var rest := RemoveAt(bs, j);
    BackendUrlsMember(rest, bs[j].value.url);
    assert forall k :: 0 <= k < |rest| ==> rest[k] == bs[if k < j then k else k + 1];
    hide BackendUrls;
  }

  /** Where the registration of metrics stands in each phase. */
  ghost predicate Registered(s: System) {
    && s.history != []
    && BackendUrls(Current(s).config.backends) <= s.metrics
    && match s.phase
       case Idle => true
       case Committed => SafeRemoval(Current(s).config, s.service.current)
       case Marking(next, _) => SafeRemoval(Current(s).config, next.config)
       case Registering(next, i) =>
         SafeRemoval(Current(s).config, next.config) && i <= |next.config.backends| &&
         BackendUrls(next.config.backends[..i]) <= s.metrics
       case Deregistering(prev, i) => SafeRemoval(prev.config, Current(s).config)
  }

  lemma StepKeepsRegistered(text: Text, s: System, e: Event)
    requires Structured(text, s) && Registered(s) && Enabled(s, e)
    ensures Registered(Next(text, s, e))
  {
    hide ValidConfig, WellFormed, Sound, Step, BackendIds, Reconciled, MarkOne, Applied, SafeRemoval;
    match e {
      case Mutate(op, saveOk, _) =>
        hide BackendUrls;
        SoundIsValid(text, s.service);
        MutationKeepsHealthConfig(text, s.service, op, saveOk);
        if Step(text, s.service, op, saveOk).1.None? {
          OperationsRemoveSafely(text, s.service.current, op);
        }
      case Register =>
        var bs, i := s.phase.next.config.backends, s.phase.i;
        assert bs[..i + 1][..i] == bs[..i];
        assert BackendUrls(bs[..i + 1]) == BackendUrls(bs[..i]) + if bs[i].Some? then {bs[i].value.url} else {};
        hide BackendUrls;
      case Swap =>
        var bs := s.phase.next.config.backends;
        assert bs[..|bs|] == bs;
        hide BackendUrls;
      case DeregisterOne =>
        hide BackendUrls;
        RemovalSpares(s.phase.prev.config, Current(s).config, s.phase.i);
      case _ => hide BackendUrls;
    }
  }

  lemma RemovalSpares(prev: FullConfig, next: FullConfig, i: nat)
    requires SafeRemoval(prev, next) && i < |prev.backends|
    ensures prev.backends[i].Some? && prev.backends[i].value.id !in BackendIds(next.backends) ==>
              prev.backends[i].value.url !in BackendUrls(next.backends)
  {
  }

  // ----- Identity of status objects

  /** `next` continues `earlier`: ids of the last state keep their object, all others get one never used before. */
  ghost predicate Continues(earlier: seq<Published>, next: Published)
    requires earlier != []
  {
    var last := earlier[|earlier| - 1];
    forall id :: id in next.statuses ==>
      if id in last.statuses then next.statuses[id] == last.statuses[id]
      else forall j :: 0 <= j < |earlier| && id in earlier[j].statuses ==> earlier[j].statuses[id] != next.statuses[id]
  }

  ghost predicate Linked(s: System) {
    && s.history != []
    && (forall k :: 0 < k < |s.history| ==> Continues(s.history[..k], s.history[k]))
    && (s.phase.Marking? || s.phase.Registering? ==> Continues(s.history, s.phase.next))
  }

  lemma ReconcileContinues(text: Text, s: System)
    requires Structured(text, s) && s.phase.Committed?
    ensures Continues(s.history, Published(s.service.current, Reconciled(s.registry, |s.objects|, s.service.current.backends).0))
  {
    hide Reconciled, BackendIds, BackendUrls, Sound, WellFormed;
    ReconciledFacts(s.registry, |s.objects|, s.service.current.backends);
    forall j, id | 0 <= j < |s.history| && id in s.history[j].statuses ensures s.history[j].statuses[id] < |s.objects| {
      StatusesAllocated(text, s.history[j], s.objects);
    }
  }

  lemma StatusesAllocated(text: Text, p: Published, objects: seq<Object>)
    requires WellFormed(text, p, objects)
    ensures forall id :: id in p.statuses ==> p.statuses[id] < |objects|
  {
    hide ValidConfig;
  }

  lemma StepKeepsLinked(text: Text, s: System, e: Event)
    requires Structured(text, s) && Linked(s) && Enabled(s, e)
    ensures Linked(Next(text, s, e))
  {
    hide Structured, WellFormed, Continues, Step, MarkOne, SetStatus, Applied, BackendIds, BackendUrls, Reconciled;
    match e {
      case Reconcile =>
        ReconcileContinues(text, s);
      case Swap =>
        var h := s.history + [s.phase.next];
        assert h[..|s.history|] == s.history;
        assert forall k :: 0 < k < |s.history| ==> h[..k] == s.history[..k];
      case _ =>
    }
  }

  /** `id` is configured in every state published from `j` to `k`. */
  ghost predicate Uninterrupted(history: seq<Published>, id: string, j: nat, k: nat)
    requires j <= k < |history|
  {
    forall m :: j <= m <= k ==> id in history[m].statuses
  }

  lemma {:induction false} IdentityOverHistory(history: seq<Published>, id: string, j: nat, k: nat)
    requires forall m :: 0 < m < |history| ==> Continues(history[..m], history[m])
    requires j <= k < |history| && id in history[j].statuses && id in history[k].statuses
    ensures history[j].statuses[id] == history[k].statuses[id] <==> Uninterrupted(history, id, j, k)
    decreases k - j
  {
    if j < k {
      var earlier := history[..k];
      assert Continues(earlier, history[k]);
      assert earlier[|earlier| - 1] == history[k - 1] && earlier[j] == history[j];
      if id in history[k - 1].statuses {
        IdentityOverHistory(history, id, j, k - 1);
      }
    }
  }

  // ----- Health checking disabled

  /** Every enabled backend among the first `n` of `p` has a healthy status. */
  ghost predicate AllActive(p: Published, objects: seq<Object>, n: nat) {
    forall i :: 0 <= i < n && i < |p.config.backends| && p.config.backends[i].Some? && p.config.backends[i].value.enabled &&
      p.config.backends[i].value.id in p.statuses
      ==> StatusAt(objects, p.statuses[p.config.backends[i].value.id]).health == Healthy
  }

  ghost predicate Available(s: System) {
    s.service.current.healthCheck.enabled ||
    (&& (forall k :: 0 <= k < |s.history| ==> AllActive(s.history[k], s.objects, |s.history[k].config.backends|))
     && (s.phase.Marking? ==> AllActive(s.phase.next, s.objects, s.phase.i))
     && (s.phase.Registering? ==> AllActive(s.phase.next, s.objects, |s.phase.next.config.backends|)))
  }

  /** Healthy statuses stay healthy. */
  ghost predicate HealthOnlyImproves(objects: seq<Object>, more: seq<Object>) {
    |objects| <= |more| && forall r :: 0 <= r < |objects| && objects[r].status.health == Healthy ==> more[r].status.health == Healthy
  }

  lemma ActiveStays(p: Published, objects: seq<Object>, more: seq<Object>, n: nat)
    requires AllActive(p, objects, n) && HealthOnlyImproves(objects, more)
    ensures AllActive(p, more, n)
  {
    forall r: nat ensures StatusAt(objects, r).health == Healthy ==> StatusAt(more, r).health == Healthy {}
  }

  lemma StepOnlyImproves(text: Text, s: System, e: Event)
    requires Structured(text, s) && Enabled(s, e) && !s.service.current.healthCheck.enabled
    ensures HealthOnlyImproves(s.objects, Next(text, s, e).objects)
  {
    hide ValidConfig, WellFormed, Sound, Step, BackendIds, Reconciled, Applied;
  }

  lemma MarkOneActivates(p: Published, objects: seq<Object>, n: nat)
    requires n < |p.config.backends| && AllActive(p, objects, n)
    requires forall id :: id in p.statuses ==> p.statuses[id] < |objects|
    ensures AllActive(p, MarkOne(objects, p, p.config.backends[n]), n + 1)
    ensures HealthOnlyImproves(objects, MarkOne(objects, p, p.config.backends[n]))
    ensures |MarkOne(objects, p, p.config.backends[n])| == |objects|
  {
    ActiveStays(p, objects, MarkOne(objects, p, p.config.backends[n]), n);
  }

  lemma AvailableStays(s: System, more: seq<Object>)
    requires Available(s) && HealthOnlyImproves(s.objects, more)
    ensures Available(s.(objects := more))
  {
    hide AllActive, HealthOnlyImproves;
    if !s.service.current.healthCheck.enabled {
      forall k | 0 <= k < |s.history| ensures AllActive(s.history[k], more, |s.history[k].config.backends|) {
        ActiveStays(s.history[k], s.objects, more, |s.history[k].config.backends|);
      }
      if s.phase.Marking? {
        ActiveStays(s.phase.next, s.objects, more, s.phase.i);
      }
      if s.phase.Registering? {
        ActiveStays(s.phase.next, s.objects, more, |s.phase.next.config.backends|);
      }
    }
  }

  lemma MarkKeepsAvailable(text: Text, s: System)
    requires Structured(text, s) && Available(s) && s.phase.Marking?
    ensures Available(Next(text, s, Mark))
  {
    var next, i := s.phase.next, s.phase.i;
    if !s.service.current.healthCheck.enabled {
      assert next.config.healthCheck == s.service.current.healthCheck;
      hide ValidConfig, Sound, BackendIds, MarkOne;
      if i < |next.config.backends| {
        var more := MarkOne(s.objects, next, next.config.backends[i]);
        MarkOneActivates(next, s.objects, i);
        AvailableStays(s, more);
        hide AllActive;
      } else {
        assert AllActive(next, s.objects, |next.config.backends|);
        hide AllActive;
      }
    }
  }

  /** An event that publishes and prepares nothing. */
  lemma QuietKeepsAvailable(s: System, s': System)
    requires Available(s) && HealthOnlyImproves(s.objects, s'.objects)
    requires s'.history == s.history && s'.service.current.healthCheck == s.service.current.healthCheck
    requires s'.phase.Marking? ==> s'.phase == s.phase
    requires s'.phase.Registering? ==> s.phase.Registering? && s'.phase.next == s.phase.next
    ensures Available(s')
  {
    AvailableStays(s, s'.objects);
    hide AllActive, HealthOnlyImproves;
  }

  lemma SwapKeepsAvailable(text: Text, s: System)
    requires Available(s) && Enabled(s, Swap)
    ensures Available(Next(text, s, Swap))
  {
    hide AllActive;
  }

  lemma ReconcileKeepsAvailable(text: Text, s: System)
    requires Available(s) && Enabled(s, Reconcile)
    requires HealthOnlyImproves(s.objects, Next(text, s, Reconcile).objects)
    ensures Available(Next(text, s, Reconcile))
  {
    var s' := Next(text, s, Reconcile);
    AvailableStays(s, s'.objects);
    NothingMarked(s'.phase.next, s'.objects);
    hide AllActive, Reconciled, HealthOnlyImproves;
  }

  lemma StepKeepsAvailable(text: Text, s: System, e: Event)
    requires Structured(text, s) && Available(s) && Enabled(s, e)
    ensures Available(Next(text, s, e))
  {
    hide Next, Structured, Sound, AllActive, HealthOnlyImproves;
    HealthConfigKept(text, s, e);
    if !s.service.current.healthCheck.enabled {
      NoResults(text, s, e);
      StepOnlyImproves(text, s, e);
      if e.Mark? {
        MarkKeepsAvailable(text, s);
      } else if e.Swap? {
        SwapKeepsAvailable(text, s);
      } else if e.Reconcile? {
        ReconcileKeepsAvailable(text, s);
      } else {
        hide Available;
        QuietStep(text, s, e);
        QuietKeepsAvailable(s, Next(text, s, e));
      }
    }
  }

  /** With checking disabled no result is applied. */
  lemma NoResults(text: Text, s: System, e: Event)
    requires Structured(text, s) && Enabled(s, e) && !s.service.current.healthCheck.enabled
    ensures !e.HealthResult?
  {
    hide WellFormed, Sound;
  }

  lemma QuietStep(text: Text, s: System, e: Event)
    requires Enabled(s, e) && !e.Mark? && !e.Swap? && !e.Reconcile? && !e.HealthResult?
    ensures var s' := Next(text, s, e);
            && s'.history == s.history
            && (s'.phase.Marking? ==> s'.phase == s.phase)
            && (s'.phase.Registering? ==> s.phase.Registering? && s'.phase.next == s.phase.next)
  {
    hide Step, BackendIds, Rechecked;
  }

  lemma NothingMarked(p: Published, objects: seq<Object>)
    ensures AllActive(p, objects, 0)
  {
  }

  lemma HealthConfigKept(text: Text, s: System, e: Event)
    requires Structured(text, s) && Enabled(s, e)
    ensures Next(text, s, e).service.current.healthCheck == s.service.current.healthCheck
    ensures Newest(s).config.healthCheck == s.service.current.healthCheck || s.phase.Committed?
  {
    if e.Mutate? {
      hide ValidConfig, WellFormed, Step, Reconciled, MarkOne, Applied, SetStatus;
      MutationKeepsHealthConfig(text, s.service, e.op, e.saveOk);
    }
    hide ValidConfig, WellFormed, Sound, Step, BackendIds, BackendUrls, Reconciled, MarkOne, Applied, SetStatus;
  }

  // ----- Every run

  ghost predicate Inv(text: Text, s: System) {
    Structured(text, s) && Registered(s) && Linked(s) && Available(s)
  }

  lemma {:induction false} MarkAllActivates(p: Published, objects: seq<Object>, bs: seq<Option<BackendConfig>>)
    requires bs <= p.config.backends
    requires forall id :: id in p.statuses ==> p.statuses[id] < |objects|
    ensures |MarkAll(objects, p, bs)| == |objects|
    ensures forall r :: 0 <= r < |objects| ==> MarkAll(objects, p, bs)[r].owner == objects[r].owner
    ensures AllActive(p, MarkAll(objects, p, bs), |bs|)
  {
    if bs != [] {
      var n := |bs| - 1;
      MarkAllActivates(p, objects, bs[..n]);
      MarkOneActivates(p, MarkAll(objects, p, bs[..n]), n);
      assert p.config.backends[n] == bs[n];
    }
  }

  lemma StartIsStructured(text: Text, c: FullConfig, file: FullConfig)
    requires ValidConfig(text, c)
    ensures var s := Start(c, file);
            && |s.history| == 1 && s.history[0].config == c && s.registry == s.history[0].statuses
            && WellFormed(text, s.history[0], s.objects)
            && (!c.healthCheck.enabled ==> AllActive(s.history[0], s.objects, |c.backends|))
  {
    ReconcileIsWellFormed(text, map[], [], c);
    hide ValidConfig, Reconciled, MarkAll, BackendUrls, BackendIds;
    var first := Published(c, Reconciled(map[], 0, c.backends).0);
    var objects := NewObjects(Reconciled(map[], 0, c.backends).1);
    assert [] + objects == objects;
    assert WellFormed(text, first, objects);
    if !c.healthCheck.enabled {
      MarkAllActivates(first, objects, c.backends);
      WellFormedGrows(text, first, objects, MarkAll(objects, first, c.backends));
    }
    hide WellFormed, AllActive;
  }

  lemma StartIsInv(text: Text, c: FullConfig, file: FullConfig)
    requires Load(text, file) == Some(c)
    ensures Inv(text, Start(c, file))
  {
    hide ValidConfig, Sound, BackendUrls, BackendIds, WellFormed, AllActive, Load, Reconciled, MarkAll, Complete;
    StartIsSound(text, file);
    SoundIsValid(text, State(c, file));
    StartIsStructured(text, c, file);
    var s := Start(c, file);
    assert s.service == State(c, file) && s.metrics == BackendUrls(c.backends) && s.phase == Idle;
    hide Start;
  }

  lemma StepKeepsInv(text: Text, s: System, e: Event)
    requires Inv(text, s) && Enabled(s, e)
    ensures Inv(text, Next(text, s, e))
  {
    hide Structured, Registered, Linked, Available, Next;
    StepKeepsStructured(text, s, e);
    StepKeepsRegistered(text, s, e);
    StepKeepsLinked(text, s, e);
    StepKeepsAvailable(text, s, e);
  }

  lemma {:induction false} RunKeepsInv(text: Text, s: System, events: seq<Event>, s': System)
    requires Inv(text, s) && Run(text, s, events, s')
    ensures Inv(text, s')
    decreases |events|
  {
    hide Structured, Registered, Linked, Available, Next;
    if events != [] {
      StepKeepsInv(text, s, events[0]);
      RunKeepsInv(text, Next(text, s, events[0]), events[1..], s');
    }
  }

  /** A reachable system: started from a loadable file and run under some interleaving. */
  ghost predicate Reachable(text: Text, file: FullConfig, events: seq<Event>, s: System) {
    Load(text, file).Some? && Run(text, Start(Load(text, file).value, file), events, s)
  }

  lemma ReachableInv(text: Text, file: FullConfig, events: seq<Event>, s: System)
    requires Reachable(text, file, events, s)
    ensures Inv(text, s)
  {
    StartIsInv(text, Load(text, file).value, file);
    RunKeepsInv(text, Start(Load(text, file).value, file), events, s);
  }

  /**
   At every step of every interleaving, every backend URL of the currently published state
   has its metrics registered.
   */
  lemma PublishedUrlsAreRegistered(text: Text, file: FullConfig, events: seq<Event>, s: System)
    requires Reachable(text, file, events, s)
    ensures s.history != [] && BackendUrls(Current(s).config.backends) <= s.metrics
  {
    hide Structured, Available, Run, Start, Load, BackendUrls, SafeRemoval;
    ReachableInv(text, file, events, s);
  }

  predicate InCurrent(s: System, b: BackendConfig) {
    s.history != [] && Some(b) in Current(s).config.backends
  }

  /**
   Hence least-connections never runs out: enabled candidates that belong to the published
   state when the loop reads their counters, each at its own step of the run, are eligible.
   */
  lemma LeastConnectionsAlwaysChooses(text: Text, file: FullConfig, events: seq<seq<Event>>, at: seq<System>,
                                      candidates: seq<BackendConfig>, readings: seq<Option<nat>>)
    requires |events| == |at| == |readings| == |candidates|
    requires forall j :: 0 <= j < |candidates| ==>
               && Reachable(text, file, events[j], at[j]) && candidates[j].enabled && InCurrent(at[j], candidates[j])
               && (readings[j].Some? <==> candidates[j].url in at[j].metrics)
    ensures forall j :: 0 <= j < |candidates| ==> LeastConnections.Eligible(candidates, readings, j)
  {
    hide Run, Start, Load, BackendUrls, Reachable;
    forall j | 0 <= j < |candidates| ensures LeastConnections.Eligible(candidates, readings, j) {
      PublishedUrlsAreRegistered(text, file, events[j], at[j]);
      var bs := Current(at[j]).config.backends;
      assert InCurrent(at[j], candidates[j]);
      var i :| 0 <= i < |bs| && bs[i] == Some(candidates[j]);
      BackendUrlsMember(bs, candidates[j].url);
    }
  }

  /**
   Snapshot isolation: whatever state a request has loaded, now or earlier, is a valid
   configuration with a status object for exactly its backend ids, each created for that id.
   */
  lemma LoadedStatesAreConsistent(text: Text, file: FullConfig, events: seq<Event>, s: System, k: nat)
    requires Reachable(text, file, events, s) && k < |s.history|
    ensures ValidConfig(text, s.history[k].config)
    ensures s.history[k].statuses.Keys == BackendIds(s.history[k].config.backends)
    ensures forall id :: id in s.history[k].statuses ==>
              s.history[k].statuses[id] < |s.objects| && s.objects[s.history[k].statuses[id]].owner == id
  {
    ReachableInv(text, file, events, s);
    hide Run, ValidConfig, BackendIds, Registered, Linked, Available;
    assert WellFormed(text, s.history[k], s.objects);
  }

  /**
   An id has the same status object in two published states exactly if it was configured
   in all the states published in between; an id that was removed and added again gets a
   new object.
   */
  lemma StatusIdentity(text: Text, file: FullConfig, events: seq<Event>, s: System, id: string, j: nat, k: nat)
    requires Reachable(text, file, events, s)
    requires j <= k < |s.history| && id in s.history[j].statuses && id in s.history[k].statuses
    ensures s.history[j].statuses[id] == s.history[k].statuses[id] <==> Uninterrupted(s.history, id, j, k)
  {
    ReachableInv(text, file, events, s);
    hide Run, Structured, Registered, Available, Continues;
    IdentityOverHistory(s.history, id, j, k);
  }

  /**
   With health checking disabled in the loaded configuration, every enabled backend of
   every published state is active at every step of every run.
   */
  lemma DisabledCheckingKeepsAllActive(text: Text, file: FullConfig, events: seq<Event>, s: System, k: nat, i: nat)
    requires Reachable(text, file, events, s) && !Load(text, file).value.healthCheck.enabled
    requires k < |s.history| && i < |s.history[k].config.backends|
    ensures var b := s.history[k].config.backends[i];
            b.Some? && b.value.id in s.history[k].statuses &&
            (b.value.enabled ==> StatusAt(s.objects, s.history[k].statuses[b.value.id]).health == Healthy)
  {
    hide Run, Registered, Linked, Sound, BackendIds, Start;
    ReachableInv(text, file, events, s);
    HealthConfigOfReachable(text, file, events, s);
    assert WellFormed(text, s.history[k], s.objects);
    assert ValidBackendEntry(text, s.history[k].config.backends[i]);
    hide ValidConfig;
    BackendIdsMember(s.history[k].config.backends, s.history[k].config.backends[i].value.id);
  }

  lemma {:induction false} HealthConfigOfRun(text: Text, s: System, events: seq<Event>, s': System)
    requires Inv(text, s) && Run(text, s, events, s')
    ensures s'.service.current.healthCheck == s.service.current.healthCheck
    decreases |events|
  {
    if events != [] {
      HealthConfigKept(text, s, events[0]);
      StepKeepsInv(text, s, events[0]);
      hide Inv, Next;
      HealthConfigOfRun(text, Next(text, s, events[0]), events[1..], s');
    }
  }

  // ----- One whole update, and exactly when it keeps the registration

  /** The ids that disappear, with the URLs they had. */
  function RemovedUrls(prev: seq<Option<BackendConfig>>, ids: set<string>): set<string> {
    if prev == [] then {}
    else
      var b := prev[|prev| - 1];
      RemovedUrls(prev[..|prev| - 1], ids) + if b.Some? && b.value.id !in ids then {b.value.url} else {}
  }

  lemma {:induction false} RemovedUrlsMember(prev: seq<Option<BackendConfig>>, ids: set<string>, url: string)
    ensures url in RemovedUrls(prev, ids) <==>
            exists i :: 0 <= i < |prev| && prev[i].Some? && prev[i].value.id !in ids && prev[i].value.url == url
  {
    if prev != [] {
      var n := |prev| - 1;
      RemovedUrlsMember(prev[..n], ids, url);
      assert forall i :: 0 <= i < n ==> prev[..n][i] == prev[i];
    }
  }

  /** The registered URLs after publishing `next` over `prev`. */
  function MetricsAfter(metrics: set<string>, prev: FullConfig, next: FullConfig): set<string> {
    metrics + BackendUrls(next.backends) - RemovedUrls(prev.backends, BackendIds(next.backends))
  }

  /**
   For an arbitrary next configuration, such as Replace could install, publication keeps
   every published URL registered exactly if no removed id hands its URL to another id.
   */
  lemma RegistrationKeptExactly(metrics: set<string>, prev: FullConfig, next: FullConfig)
    ensures BackendUrls(next.backends) <= MetricsAfter(metrics, prev, next) <==> SafeRemoval(prev, next)
  {
    var ids, urls := BackendIds(next.backends), BackendUrls(next.backends);
    var removed := RemovedUrls(prev.backends, ids);
    forall url ensures url in removed <==>
        exists i :: 0 <= i < |prev.backends| && prev.backends[i].Some? && prev.backends[i].value.id !in ids && prev.backends[i].value.url == url
    {
      RemovedUrlsMember(prev.backends, ids, url);
    }
    hide BackendIds, BackendUrls, RemovedUrls;
    if urls <= MetricsAfter(metrics, prev, next) {
      forall i | 0 <= i < |prev.backends| && prev.backends[i].Some? && prev.backends[i].value.id !in ids
        ensures prev.backends[i].value.url !in urls
      {
        assert prev.backends[i].value.url in removed;
      }
    }
  }

  /** Replacing the owner of a URL breaks it: the published URL loses its metrics. */
  lemma ReplaceCanLoseMetrics(c: FullConfig)
    ensures var prev := c.(backends := [Some(BackendConfig("a", "http://u", 1, true))]);
            var next := c.(backends := [Some(BackendConfig("b", "http://u", 1, true))]);
            "http://u" in BackendUrls(next.backends) && "http://u" !in MetricsAfter({"http://u"}, prev, next)
  {
    var a, b := Some(BackendConfig("a", "http://u", 1, true)), Some(BackendConfig("b", "http://u", 1, true));
    OneBackend(a.value, {"b"});
    OneBackend(b.value, {"b"});
    hide BackendIds, BackendUrls, RemovedUrls;
  }

  /**
   Whatever was registered before, the registered URLs are the published ones after the
   publication exactly if, in addition, every other registered URL went with its id.
   `UrlAccounting` says which these are over a whole run.
   */
  lemma RegistrationEqualsExactly(metrics: set<string>, prev: FullConfig, next: FullConfig)
    ensures MetricsAfter(metrics, prev, next) == BackendUrls(next.backends) <==>
            SafeRemoval(prev, next) &&
            metrics - BackendUrls(next.backends) <= RemovedUrls(prev.backends, BackendIds(next.backends))
  {
    RegistrationKeptExactly(metrics, prev, next);
    hide BackendIds, BackendUrls, RemovedUrls, SafeRemoval;
  }

  /** An update removes no id, so publication deregisters nothing. */
  lemma NothingDeregistered(c: FullConfig, n: FullConfig)
    requires BackendIds(c.backends) <= BackendIds(n.backends)
    ensures RemovedUrls(c.backends, BackendIds(n.backends)) == {}
  {
    forall u ensures u !in RemovedUrls(c.backends, BackendIds(n.backends)) {
      RemovedUrlsMember(c.backends, BackendIds(n.backends), u);
      forall i | 0 <= i < |c.backends| && c.backends[i].Some? ensures c.backends[i].value.id in BackendIds(n.backends) {
        BackendIdsMember(c.backends, c.backends[i].value.id);
      }
      hide BackendIds, RemovedUrls;
    }
  }

  /**
   A changed URL stays registered: after an accepted update of a backend, the registered
   URLs are the published ones if and only if they were before and the URL did not change.
   */
  lemma ChangedUrlStaysRegistered(text: Text, metrics: set<string>, c: FullConfig, id: string, url: string, weight: int, enabled: bool)
    requires ValidConfig(text, c) && Mutated(UpdateBackend(id, url, weight, enabled), c).Ok?
    requires ValidConfig(text, Mutated(UpdateBackend(id, url, weight, enabled), c).value)
    requires BackendUrls(c.backends) <= metrics
    ensures var n := Mutated(UpdateBackend(id, url, weight, enabled), c).value;
            var before := c.backends[IndexOfBackend(c.backends, id)].value.url;
            && metrics <= MetricsAfter(metrics, c, n) && before in metrics
            && (before in BackendUrls(n.backends) <==> url == "" || url == before)
            && (MetricsAfter(metrics, c, n) == BackendUrls(n.backends) <==>
                  (url == "" || url == before) && metrics == BackendUrls(c.backends))
  {
    hide ValidConfig, IndexOfBackend, BackendIds, BackendUrls, RemovedUrls;
    var i := IndexOfBackend(c.backends, id);
    var n := Mutated(UpdateBackend(id, url, weight, enabled), c).value;
    var before := c.backends[i].value.url;
    IdsAfter(c, UpdateBackend(id, url, weight, enabled));
    NothingDeregistered(c, n);
    SomeAndDistinct(text, c);
    BackendUrlsMember(c.backends, before);
    SetUrl(c.backends, i, n.backends[i].value);
    SomeAndDistinct(text, n);
    FreeUrl(c.backends, n.backends, i, url);
  }

  lemma SomeAndDistinct(text: Text, c: FullConfig)
    requires ValidConfig(text, c)
    ensures ServiceExact.AllSome(c.backends) && DistinctBackends(c.backends)
  {
    ServiceExact.BackendsAreSome(text, c.backends);
  }

  /** The new list still publishes the old URL exactly if the backend kept it. */
  lemma FreeUrl(bs: seq<Option<BackendConfig>>, next: seq<Option<BackendConfig>>, i: nat, url: string)
    requires ServiceExact.AllSome(bs) && DistinctBackends(bs) && i < |bs|
    requires |next| == |bs| && next == bs[i := next[i]] && next[i].Some?
    requires next[i].value.url == if url != "" then url else bs[i].value.url
    ensures bs[i].value.url in BackendUrls(next) <==> url == "" || url == bs[i].value.url
  {
    SetUrl(bs, i, next[i].value);
    hide BackendUrls;
  }

  /** Setting a backend keeps every other URL. */
  lemma SetUrl(bs: seq<Option<BackendConfig>>, i: nat, b: BackendConfig)
    requires ServiceExact.AllSome(bs) && DistinctBackends(bs) && i < |bs|
    ensures BackendUrls(bs[i := Some(b)]) == BackendUrls(bs) - {bs[i].value.url} + {b.url}
  {
    var next := bs[i := Some(b)];
    forall u ensures u in BackendUrls(next) <==> u in BackendUrls(bs) - {bs[i].value.url} + {b.url} {
      BackendUrlsMember(bs, u);
      BackendUrlsMember(next, u);
      hide BackendUrls;
      if u in BackendUrls(bs) && u != bs[i].value.url {
        var k :| 0 <= k < |bs| && bs[k].value.url == u;
        assert next[k].value.url == u;
      }
      assert next[i].value.url == b.url;
    }
  }

  /** At an input: the old URL is registered and no longer published, also after a second update that leaves the URL alone. */
  lemma ChangedUrlAtInput(c: FullConfig)
    requires c.backends == [Some(BackendConfig("a", "http://u", 1, true))]
    ensures var first := Mutated(UpdateBackend("a", "http://v", 1, true), c);
            && first.Ok?
            && var second := Mutated(UpdateBackend("a", "", 2, true), first.value);
               var metrics := MetricsAfter(BackendUrls(c.backends), c, first.value);
               && second.Ok?
               && "http://u" in metrics && "http://u" !in BackendUrls(first.value.backends)
               && "http://u" in MetricsAfter(metrics, first.value, second.value) && "http://u" !in BackendUrls(second.value.backends)
  {
    var a, b := Some(BackendConfig("a", "http://u", 1, true)), Some(BackendConfig("a", "http://v", 1, true));
    var d := Some(BackendConfig("a", "http://v", 2, true));
    var first := Mutated(UpdateBackend("a", "http://v", 1, true), c);
    assert first.value.backends == [b];
    assert Mutated(UpdateBackend("a", "", 2, true), first.value).value.backends == [d];
    OneBackend(a.value, {"a"});
    OneBackend(b.value, {"a"});
    OneBackend(d.value, {"a"});
    hide Mutated, BackendIds, BackendUrls, RemovedUrls;
  }

  lemma OneBackend(b: BackendConfig, ids: set<string>)
    ensures BackendIds([Some(b)]) == {b.id} && BackendUrls([Some(b)]) == {b.url}
    ensures RemovedUrls([Some(b)], ids) == if b.id in ids then {} else {b.url}
  {
    assert [Some(b)][..0] == [];
    assert BackendIds([Some(b)][..0]) == {} && BackendUrls([Some(b)][..0]) == {} && RemovedUrls([Some(b)][..0], ids) == {};
  }

  // ----- Statuses under interleaving

  /** The results that `events` apply to status object `r`, in order. */
  function OutcomesFor(text: Text, s: System, events: seq<Event>, s': System, r: nat): seq<Outcome>
    requires Run(text, s, events, s')
    decreases |events|
  {
    if events == [] then []
    else
      (if Applies(s, events[0], r) then [events[0].outcome] else []) +
      OutcomesFor(text, Next(text, s, events[0]), events[1..], s', r)
  }

  /** No UpdateBackend call resets status object `r`. */
  predicate NoRecheck(text: Text, s: System, events: seq<Event>, s': System, r: nat)
    requires Run(text, s, events, s')
    decreases |events|
  {
    events == [] ||
    (!Rechecks(s, events[0], r) && NoRecheck(text, Next(text, s, events[0]), events[1..], s', r))
  }

  /** The event completes an UpdateBackend call by starting the checks of object `r` over. */
  predicate Rechecks(s: System, e: Event, r: nat)
    requires Enabled(s, e)
  {
    e.Recheck? && s.calls[e.j].op.id in s.history[e.k].statuses && s.history[e.k].statuses[s.calls[e.j].op.id] == r
  }

  /** The event applies a result to object `r`. */
  predicate Applies(s: System, e: Event, r: nat)
    requires Enabled(s, e)
  {
    e.HealthResult? && s.history[e.k].statuses[e.id] == r
  }

  lemma StatusOverStep(text: Text, s: System, e: Event, r: nat)
    requires Structured(text, s) && Enabled(s, e) && s.service.current.healthCheck.enabled && r < |s.objects|
    ensures StatusAt(Next(text, s, e).objects, r) ==
            if Rechecks(s, e, r) then FRESH
            else if Applies(s, e, r)
            then Applied(StatusAt(s.objects, r), e.outcome, s.service.current.healthCheck.thresholds)
            else StatusAt(s.objects, r)
  {
    hide ValidConfig, Sound, WellFormed, Step, BackendIds, Applied, Reconciled;
  }

  lemma {:induction false} AppliedFirst(s: Status, o: Outcome, h: seq<Outcome>, t: ThresholdConfig)
    ensures AppliedAll(s, [o] + h, t) == AppliedAll(Applied(s, o, t), h, t)
  {
    hide Applied;
    if h == [] {
      assert [o] + h == [o] && [o][..0] == [];
    } else {
      AppliedFirst(s, o, h[..|h| - 1], t);
      assert ([o] + h)[..|h|] == [o] + h[..|h| - 1];
    }
  }

  lemma {:induction false} StatusOverRun(text: Text, s: System, events: seq<Event>, s': System, r: nat)
    requires Inv(text, s) && Run(text, s, events, s') && s.service.current.healthCheck.enabled
    requires r < |s.objects| && NoRecheck(text, s, events, s', r)
    ensures r < |s'.objects|
    ensures StatusAt(s'.objects, r) ==
            AppliedAll(StatusAt(s.objects, r), OutcomesFor(text, s, events, s', r), s.service.current.healthCheck.thresholds)
    decreases |events|
  {
    hide Structured, Registered, Linked, Available, Next, Applied, StatusAt;
    if events != [] {
      var next := Next(text, s, events[0]);
      StepKeepsInv(text, s, events[0]);
      HealthConfigKept(text, s, events[0]);
      ObjectsOnlyGrow(text, s, events[0]);
      StatusOverStep(text, s, events[0], r);
      StatusOverRun(text, next, events[1..], s', r);
      var rest := OutcomesFor(text, next, events[1..], s', r);
      if Applies(s, events[0], r) {
        AppliedFirst(StatusAt(s.objects, r), events[0].outcome, rest, s.service.current.healthCheck.thresholds);
      } else {
        assert [] + rest == rest;
      }
    }
  }

  /**
   Resets under interleaving, with checking enabled: a call that goes on to the reset (see
   `UpdateRuns` for when it does) leaves the status it finds fresh; from then on it is what
   the results applied since make of a fresh status, whatever states those results were
   obtained for, and it is fresh exactly if there was none (until the next reset of it).
   */
  lemma FreshExactlyUntilResult(text: Text, file: FullConfig, before: seq<Event>, s: System, e: Event,
                                after: seq<Event>, s': System, r: nat)
    requires Reachable(text, file, before, s) && Load(text, file).value.healthCheck.enabled
    requires ValidThresholds(Load(text, file).value.healthCheck.thresholds)
    requires Enabled(s, e) && Rechecks(s, e, r)
    requires Run(text, Next(text, s, e), after, s') && NoRecheck(text, Next(text, s, e), after, s', r)
    ensures var next, t := Next(text, s, e), Load(text, file).value.healthCheck.thresholds;
            && StatusAt(next.objects, r) == FRESH
            && StatusAt(s'.objects, r) == AppliedAll(FRESH, OutcomesFor(text, next, after, s', r), t)
            && (StatusAt(s'.objects, r) == FRESH <==> OutcomesFor(text, next, after, s', r) == [])
  {
    hide Run, Start, Next, Structured, Registered, Linked, Available, StatusAt, Sound, Applied, Rechecks;
    var next, t := Next(text, s, e), Load(text, file).value.healthCheck.thresholds;
    ReachableInv(text, file, before, s);
    HealthConfigOfReachable(text, file, before, s);
    RecheckedObject(text, s, e, r);
    StepKeepsInv(text, s, e);
    HealthConfigKept(text, s, e);
    ObjectsOnlyGrow(text, s, e);
    StatusOverStep(text, s, e, r);
    StatusOverRun(text, next, after, s', r);
    NeverFreshAgain(OutcomesFor(text, next, after, s', r), t);
  }

  lemma RecheckedObject(text: Text, s: System, e: Event, r: nat)
    requires Structured(text, s) && Enabled(s, e) && Rechecks(s, e, r)
    ensures r < |s.objects|
  {
    hide ValidConfig, Sound, WellFormed;
    StatusesAllocated(text, s.history[e.k], s.objects);
  }

  lemma HealthConfigOfReachable(text: Text, file: FullConfig, events: seq<Event>, s: System)
    requires Reachable(text, file, events, s)
    ensures s.service.current.healthCheck == Load(text, file).value.healthCheck
  {
    hide Inv, Run, Reconciled, MarkAll, BackendUrls, Load;
    var c := Load(text, file).value;
    StartIsInv(text, c, file);
    HealthConfigOfRun(text, Start(c, file), events, s);
  }
}
