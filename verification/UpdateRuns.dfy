/**
 UpdateBackend calls over runs (UpdateBackend and applyUpdate in
 internal/proxy/runtime/runtime.go): when a call resets the status, given what other calls
 do between its two reads of the backend, and that it publishes the change before.
 */
module UpdateRuns {
  import opened Base
  import opened Config
  import opened RuntimeModel
  import HealthStatus
  import ServiceModel

  lemma {:induction false} RunConcat(text: Text, s: System, a: seq<Event>, mid: System, b: seq<Event>, s': System)
    requires Run(text, s, a, mid) && Run(text, mid, b, s')
    ensures Run(text, s, a + b, s')
    decreases |a|
  {
    hide Next, Enabled;
    if a == [] {
      assert a + b == b;
    } else {
      RunConcat(text, Next(text, s, a[0]), a[1..], mid, b, s');
      assert (a + b)[1..] == a[1..] + b;
    }
  }

  lemma RunOne(text: Text, s: System, e: Event)
    requires Enabled(s, e)
    ensures Run(text, s, [e], Next(text, s, e))
  {
    hide Next, Enabled;
    assert Run(text, Next(text, s, e), [e][1..], Next(text, s, e));
  }

  /** Registering what is left to register. */
  lemma {:induction false} RegisterRest(text: Text, s: System) returns (events: seq<Event>, s': System)
    requires s.history != [] && s.phase.Registering? && s.phase.i <= |s.phase.next.config.backends|
    ensures Run(text, s, events, s')
    ensures s' == s.(metrics := s'.metrics, phase := Registering(s.phase.next, |s.phase.next.config.backends|))
    decreases |s.phase.next.config.backends| - s.phase.i
  {
    hide Run;
    if s.phase.i == |s.phase.next.config.backends| {
      events, s' := [], s;
      RunNone(text, s);
    } else {
      var next := Next(text, s, Register);
      RunOne(text, s, Register);
      var rest;
      rest, s' := RegisterRest(text, next);
      events := [Register] + rest;
      RunConcat(text, s, [Register], next, rest, s');
    }
  }

  lemma {:induction false} DeregisterRest(text: Text, s: System) returns (events: seq<Event>, s': System)
    requires s.history != [] && s.phase.Deregistering? && s.phase.i <= |s.phase.prev.config.backends|
    ensures Run(text, s, events, s')
    ensures s' == s.(metrics := s'.metrics, phase := Deregistering(s.phase.prev, |s.phase.prev.config.backends|))
    decreases |s.phase.prev.config.backends| - s.phase.i
  {
    hide Run;
    if s.phase.i == |s.phase.prev.config.backends| {
      events, s' := [], s;
      RunNone(text, s);
    } else {
      var next := Next(text, s, DeregisterOne);
      RunOne(text, s, DeregisterOne);
      hide BackendIds;
      var rest;
      rest, s' := DeregisterRest(text, next);
      events := [DeregisterOne] + rest;
      RunConcat(text, s, [DeregisterOne], next, rest, s');
    }
  }

  lemma RunNone(text: Text, s: System)
    ensures Run(text, s, [], s)
  {
  }

  // ----- When a call resets the status

  /** What becomes of a call: it goes on with the same operation and the same first read, or is past them. */
  ghost predicate Follows(a: Call, b: Call) {
    && (b.Entered? ==> a == b)
    && (b.Changed? ==> a == b || (a.Entered? && a.op == b.op && a.previous == b.previous))
    && (b.Due? ==> !a.Returned? && a.op == b.op)
  }

  lemma CallOverStep(text: Text, s: System, e: Event, j: nat)
    requires Enabled(s, e) && j < |s.calls|
    ensures var s' := Next(text, s, e); j < |s'.calls| && Follows(s.calls[j], s'.calls[j])
  {
    hide ServiceModel.Step, ServiceModel.Lookup, Reconciled, BackendIds, HealthStatus.Applied;
  }

  lemma {:induction false} CallOverRun(text: Text, s: System, events: seq<Event>, s': System, j: nat)
    requires Run(text, s, events, s') && j < |s.calls|
    ensures j < |s'.calls| && Follows(s.calls[j], s'.calls[j])
    decreases |events|
  {
    hide Next, Enabled;
    if events != [] {
      CallOverStep(text, s, events[0], j);
      CallOverRun(text, Next(text, s, events[0]), events[1..], s', j);
    }
  }

  /** The second read of call `j` takes it on to the reset; otherwise the call returns. */
  predicate GoesOn(text: Text, s: System, j: nat)
    requires Enabled(s, ReadAgain(j))
  {
    Next(text, s, ReadAgain(j)).calls[j].Due?
  }

  /**
   In every interleaving a call goes on to the reset if and only if the backend it read
   after its update is enabled and, compared with the one it read when it was entered, was
   enabled or moved.
   */
  lemma ResetsExactlyByReads(text: Text, s: System, op: Update, events: seq<Event>, s': System)
    requires s.history != []
    requires Run(text, Next(text, s, Enter(op)), events, s') && Enabled(s', ReadAgain(|s.calls|))
    ensures var first, second := ServiceModel.Lookup(s.service.current, op.id), ServiceModel.Lookup(s'.service.current, op.id);
            GoesOn(text, s', |s.calls|) <==>
            second.Some? && second.value.enabled &&
            (first.None? || !first.value.enabled || first.value.url != second.value.url)
    ensures !GoesOn(text, s', |s.calls|) ==>
            Next(text, s', ReadAgain(|s.calls|)) == s'.(calls := s'.calls[|s.calls| := Returned])
  {
    hide Run, ServiceModel.Lookup;
    CallOverRun(text, Next(text, s, Enter(op)), events, s', |s.calls|);
  }

  /** The operation can change what is found under `id`. */
  predicate Touches(op: ServiceModel.Op, id: string) {
    (op.AddBackend? && op.backend.id == id) || ((op.UpdateBackend? || op.RemoveBackend?) && op.id == id)
  }

  lemma UntouchedLookup(op: ServiceModel.Op, c: FullConfig, id: string)
    requires !op.Replace? && !Touches(op, id) && ServiceModel.Mutated(op, c).Ok?
    ensures ServiceModel.Lookup(ServiceModel.Mutated(op, c).value, id) == ServiceModel.Lookup(c, id)
  {
    hide ServiceModel.IndexOfBackend, ServiceModel.IndexOfHost, ServiceModel.IndexOfPolicy, ServiceModel.WithoutInHosts,
      ServiceModel.HostUpdate, ServiceModel.RemoveAt, ServiceModel.Lookup;
    match op {
      case AddBackend(b) =>
        AppendedElsewhere(c, Some(b), id);
      case UpdateBackend(other, url, weight, enabled) =>
        var j := ServiceModel.IndexOfBackend(c.backends, other);
        ReplacedElsewhere(c, j, Some(ServiceModel.Updated(c.backends[j].value, url, weight, enabled)), id);
      case RemoveBackend(other) =>
        RemovedElsewhere(c, ServiceModel.IndexOfBackend(c.backends, other), id);
        SameBackends(c.(backends := ServiceModel.RemoveAt(c.backends, ServiceModel.IndexOfBackend(c.backends, other))),
                     ServiceModel.Mutated(op, c).value, id);
      case Replace(_) =>
      case _ => SameBackends(c, ServiceModel.Mutated(op, c).value, id);
    }
  }

  lemma SameBackends(c: FullConfig, n: FullConfig, id: string)
    requires n.backends == c.backends
    ensures ServiceModel.Lookup(n, id) == ServiceModel.Lookup(c, id)
  {
  }

  lemma AppendedElsewhere(c: FullConfig, b: Option<BackendConfig>, id: string)
    requires b.Some? && b.value.id != id
    ensures ServiceModel.Lookup(c.(backends := c.backends + [b]), id) == ServiceModel.Lookup(c, id)
  {
    var i := ServiceModel.IndexOfBackend(c.backends, id);
    IndexIs(c.backends + [b], id, if i < |c.backends| then i else |c.backends| + 1);
    hide ServiceModel.IndexOfBackend;
  }

  lemma ReplacedElsewhere(c: FullConfig, j: nat, b: Option<BackendConfig>, id: string)
    requires j < |c.backends| && c.backends[j].Some? && b.Some? && c.backends[j].value.id == b.value.id != id
    ensures ServiceModel.Lookup(c.(backends := c.backends[j := b]), id) == ServiceModel.Lookup(c, id)
  {
    IndexIs(c.backends[j := b], id, ServiceModel.IndexOfBackend(c.backends, id));
    hide ServiceModel.IndexOfBackend;
  }

  lemma RemovedElsewhere(c: FullConfig, j: nat, id: string)
    requires j < |c.backends| && c.backends[j].Some? && c.backends[j].value.id != id
    ensures ServiceModel.Lookup(c.(backends := ServiceModel.RemoveAt(c.backends, j)), id) == ServiceModel.Lookup(c, id)
  {
    var i := ServiceModel.IndexOfBackend(c.backends, id);
    IndexIs(ServiceModel.RemoveAt(c.backends, j), id, if i < j then i else i - 1);
    hide ServiceModel.IndexOfBackend;
  }

  lemma IndexIs(bs: seq<Option<BackendConfig>>, id: string, i: nat)
    requires i <= |bs| && (i < |bs| ==> bs[i].Some? && bs[i].value.id == id)
    requires forall k :: 0 <= k < i ==> bs[k].None? || bs[k].value.id != id
    ensures ServiceModel.IndexOfBackend(bs, id) == i
  {
  }

  lemma LookupAfterUpdate(op: Update, c: FullConfig)
    requires ServiceModel.Mutated(op, c).Ok?
    ensures ServiceModel.Lookup(c, op.id).Some?
    ensures ServiceModel.Lookup(ServiceModel.Mutated(op, c).value, op.id) ==
            Some(ServiceModel.Updated(ServiceModel.Lookup(c, op.id).value, op.url, op.weight, op.enabled))
  {
    var i := ServiceModel.IndexOfBackend(c.backends, op.id);
    IndexIs(ServiceModel.Mutated(op, c).value.backends, op.id, i);
  }

  /** The event applies an operation that can change what is found under `id`. */
  predicate Disturbs(text: Text, s: System, e: Event, id: string) {
    e.Mutate? && Touches(e.op, id) && ServiceModel.Step(text, s.service, e.op, e.saveOk).1.None?
  }

  /** No operation on `id` is accepted. */
  predicate Quiet(text: Text, s: System, events: seq<Event>, s': System, id: string)
    requires Run(text, s, events, s')
    decreases |events|
  {
    events == [] || (!Disturbs(text, s, events[0], id) && Quiet(text, Next(text, s, events[0]), events[1..], s', id))
  }

  lemma QuietStep(text: Text, s: System, e: Event, id: string)
    requires Structured(text, s) && Enabled(s, e) && !Disturbs(text, s, e, id)
    ensures ServiceModel.Lookup(Next(text, s, e).service.current, id) == ServiceModel.Lookup(s.service.current, id)
  {
    hide ServiceModel.Sound, WellFormed, ServiceModel.Lookup, ServiceModel.Step, Reconciled, BackendIds, HealthStatus.Applied;
    if e.Mutate? && ServiceModel.Step(text, s.service, e.op, e.saveOk).1.None? {
      MutationKeepsHealthConfig(text, s.service, e.op, e.saveOk);
      UntouchedLookup(e.op, s.service.current, id);
    }
  }

  lemma {:induction false} QuietRun(text: Text, s: System, events: seq<Event>, s': System, id: string)
    requires Inv(text, s) && Run(text, s, events, s') && Quiet(text, s, events, s', id)
    ensures Inv(text, s') && ServiceModel.Lookup(s'.service.current, id) == ServiceModel.Lookup(s.service.current, id)
    decreases |events|
  {
    hide Next, Enabled, Structured, Registered, Linked, Available, ServiceModel.Lookup, Disturbs;
    if events != [] {
      QuietStep(text, s, events[0], id);
      StepKeepsInv(text, s, events[0]);
      QuietRun(text, Next(text, s, events[0]), events[1..], s', id);
    }
  }

  /** Call `j` is applied at `mid`, and no other operation on its backend is accepted from `s` to `s'`. */
  ghost predicate QuietCall(text: Text, s: System, j: nat, op: Update, saveOk: bool, a: seq<Event>, mid: System, b: seq<Event>, s': System) {
    var e := Mutate(op, saveOk, Some(j));
    && Run(text, s, a, mid) && Quiet(text, s, a, mid, op.id)
    && Enabled(mid, e) && ServiceModel.Step(text, mid.service, op, saveOk).1.None?
    && Run(text, Next(text, mid, e), b, s') && Quiet(text, Next(text, mid, e), b, s', op.id)
  }

  /**
   If no other operation on the backend is accepted between the two reads of a call, it
   goes on to the reset exactly if its update enables a backend that was disabled or moves
   an enabled one; whatever else happens in between.
   */
  lemma ResetsExactlyWhenMoved(text: Text, file: FullConfig, before: seq<Event>, s: System, op: Update, saveOk: bool,
                               a: seq<Event>, mid: System, b: seq<Event>, s': System)
    requires Reachable(text, file, before, s) && s.history != []
    requires QuietCall(text, Next(text, s, Enter(op)), |s.calls|, op, saveOk, a, mid, b, s') && Enabled(s', ReadAgain(|s.calls|))
    ensures var before := ServiceModel.Lookup(s.service.current, op.id);
            && before.Some?
            && (GoesOn(text, s', |s.calls|) <==>
                  op.enabled && (!before.value.enabled || (op.url != "" && op.url != before.value.url)))
  {
    hide Run, Quiet, Structured, Registered, Linked, Available, ServiceModel.Step, Reconciled, ServiceModel.Lookup, ServiceModel.Sound, GoesOn;
    var e := Mutate(op, saveOk, Some(|s.calls|));
    var entered := Next(text, s, Enter(op));
    var own := Next(text, mid, e);
    ReachableInv(text, file, before, s);
    StepKeepsInv(text, s, Enter(op));
    QuietRun(text, entered, a, mid, op.id);
    StepKeepsInv(text, mid, e);
    QuietRun(text, own, b, s', op.id);
    OwnUpdate(text, mid, op, saveOk);
    RunOne(text, mid, e);
    RunConcat(text, entered, a, mid, [e], own);
    RunConcat(text, entered, a + [e], own, b, s');
    ResetsExactlyByReads(text, s, op, a + [e] + b, s');
  }

  lemma OwnUpdate(text: Text, s: System, op: Update, saveOk: bool)
    requires Structured(text, s) && ServiceModel.Step(text, s.service, op, saveOk).1.None?
    ensures var before := ServiceModel.Lookup(s.service.current, op.id);
            && before.Some?
            && ServiceModel.Lookup(ServiceModel.Step(text, s.service, op, saveOk).0.current, op.id) ==
               Some(ServiceModel.Updated(before.value, op.url, op.weight, op.enabled))
  {
    hide ServiceModel.Sound, WellFormed, ServiceModel.Lookup, ServiceModel.Step, ServiceModel.Mutated;
    MutationKeepsHealthConfig(text, s.service, op, saveOk);
    LookupAfterUpdate(op, s.service.current);
  }

  // ----- One call, from its entry to its second read

  /** The state after mutation, reconciliation and the (skipped) marking of an accepted operation. */
  function Prepared(s: System, service: ServiceModel.State, j: nat): System {
    var (statuses, created) := Reconciled(s.registry, |s.objects|, service.current.backends);
    s.(service := service, updating := Some(j), registry := statuses, objects := s.objects + NewObjects(created),
       phase := Registering(Published(service.current, statuses), 0))
  }

  lemma PrepareRun(text: Text, s: System, j: nat) returns (events: seq<Event>)
    requires s.history != [] && s.phase.Idle? && j < |s.calls| && s.calls[j].Entered?
    requires ServiceModel.Step(text, s.service, s.calls[j].op, true).1.None?
    requires ServiceModel.Step(text, s.service, s.calls[j].op, true).0.current.healthCheck.enabled
    ensures Run(text, s, events, Prepared(s, ServiceModel.Step(text, s.service, s.calls[j].op, true).0, j))
  {
    hide ServiceModel.Step, Reconciled, Run;
    var e := Mutate(s.calls[j].op, true, Some(j));
    var s1 := Next(text, s, e);
    var s2 := Next(text, s1, Reconcile);
    RunOne(text, s, e);
    RunOne(text, s1, Reconcile);
    RunOne(text, s2, Mark);
    RunConcat(text, s, [e], s1, [Reconcile], s2);
    RunConcat(text, s, [e] + [Reconcile], s2, [Mark], Next(text, s2, Mark));
    events := [e] + [Reconcile] + [Mark];
  }

  /** The known statuses are as they were. */
  lemma PreparedKeepsStatus(s: System, service: ServiceModel.State, j: nat, id: string)
    requires id in s.registry && s.registry[id] < |s.objects| && id in BackendIds(service.current.backends)
    ensures var p := Prepared(s, service, j);
            && p.history == s.history && p.calls == s.calls && p.updating == Some(j) && p.service == service
            && p.phase == Registering(Published(service.current, p.registry), 0)
            && id in p.registry && p.registry[id] == s.registry[id]
            && StatusAt(p.objects, s.registry[id]) == StatusAt(s.objects, s.registry[id])
  {
    ReconciledFacts(s.registry, |s.objects|, service.current.backends);
    hide Reconciled, BackendIds;
  }

  /** The id of an accepted update is configured before and after. */
  lemma UpdatedIsConfigured(text: Text, s: System, op: Update)
    requires Structured(text, s) && s.phase.Idle? && ServiceModel.Step(text, s.service, op, true).1.None?
    ensures s.history != [] && Current(s).config == s.service.current && s.registry == Current(s).statuses
    ensures op.id in s.registry && s.registry[op.id] < |s.objects|
    ensures var n := ServiceModel.Step(text, s.service, op, true).0.current;
            op.id in BackendIds(n.backends) && n.healthCheck == s.service.current.healthCheck
  {
    hide ValidConfig, ServiceModel.Sound, ServiceModel.Step, BackendIds, ServiceModel.Mutated;
    MutationKeepsHealthConfig(text, s.service, op, true);
    OwnUpdate(text, s, op, true);
    var n := ServiceModel.Step(text, s.service, op, true).0.current;
    Configured(s.service.current, op.id);
    Configured(n, op.id);
    assert WellFormed(text, Current(s), s.objects);
  }

  lemma Configured(c: FullConfig, id: string)
    requires ServiceModel.Lookup(c, id).Some?
    ensures id in BackendIds(c.backends)
  {
    BackendIdsMember(c.backends, id);
  }

  /** `p` has published the update of `s` with the same status object for the backend. */
  ghost predicate OnlyUpdated(s: System, p: System, op: Update) {
    && s.history != [] && p.history != [] && op.id in Current(s).statuses && op.id in Current(p).statuses
    && Current(p).statuses[op.id] == Current(s).statuses[op.id]
    && var before := ServiceModel.Lookup(Current(s).config, op.id);
       && before.Some?
       && ServiceModel.Lookup(Current(p).config, op.id) == Some(ServiceModel.Updated(before.value, op.url, op.weight, op.enabled))
  }

  /** It is the one state published since, and the status is as it was. */
  ghost predicate OnlyPublished(s: System, p: System, op: Update) {
    && OnlyUpdated(s, p, op) && |p.history| == |s.history| + 1 && s.history <= p.history
    && StatusAt(p.objects, Current(s).statuses[op.id]) == StatusAt(s.objects, Current(s).statuses[op.id])
  }

  /** The update of call `j`, step by step: first it is published, then the call goes on. */
  lemma ApplyCall(text: Text, s: System, j: nat)
    returns (events: seq<Event>, published: System, rest: seq<Event>, finished: System)
    requires Structured(text, s) && s.phase.Idle? && s.service.current.healthCheck.enabled
    requires j < |s.calls| && s.calls[j].Entered? && ServiceModel.Step(text, s.service, s.calls[j].op, true).1.None?
    ensures var op := s.calls[j].op;
            && Run(text, s, events, published) && OnlyPublished(s, published, op) && published.calls == s.calls
            && Run(text, published, rest, finished) && OnlyPublished(s, finished, op)
            && finished.history == published.history != [] && finished.phase.Idle?
            && finished.service == ServiceModel.Step(text, s.service, op, true).0
            && finished.calls == s.calls[j := Changed(op, s.calls[j].previous, |finished.history|)]
  {
    hide Run, Structured, Next, Enabled, ServiceModel.Step, Reconciled, BackendIds, Prepared, OnlyPublished, ServiceModel.Lookup;
    var op := s.calls[j].op;
    UpdatedIsConfigured(text, s, op);
    OwnUpdate(text, s, op, true);
    var service := ServiceModel.Step(text, s.service, op, true).0;
    var prepared := Prepared(s, service, j);
    PreparedKeepsStatus(s, service, j, op.id);
    var first := PrepareRun(text, s, j);
    var second, registered := RegisterRest(text, prepared);
    RunConcat(text, s, first, prepared, second, registered);
    published := Swapped(registered);
    SwapRun(text, registered);
    RunConcat(text, s, first + second, registered, [Swap], published);
    events := first + second + [Swap];
    var third, deregistered := DeregisterRest(text, published);
    finished := Finished(deregistered);
    FinishRun(text, deregistered);
    RunConcat(text, published, third, deregistered, [Finish], finished);
    rest := third + [Finish];
    SwappedPublishes(s, registered, op);
    StillPublished(s, published, finished, op);
  }

  lemma SwappedPublishes(s: System, p: System, op: Update)
    requires s.history != [] && p.history == s.history && p.phase.Registering?
    requires op.id in Current(s).statuses && op.id in p.phase.next.statuses
    requires p.phase.next.statuses[op.id] == Current(s).statuses[op.id]
    requires StatusAt(p.objects, Current(s).statuses[op.id]) == StatusAt(s.objects, Current(s).statuses[op.id])
    requires var before := ServiceModel.Lookup(Current(s).config, op.id);
             && before.Some?
             && ServiceModel.Lookup(p.phase.next.config, op.id) == Some(ServiceModel.Updated(before.value, op.url, op.weight, op.enabled))
    ensures OnlyPublished(s, Swapped(p), op)
  {
    hide ServiceModel.Lookup, ServiceModel.Updated, StatusAt;
  }

  lemma StillPublished(s: System, p: System, p': System, op: Update)
    requires OnlyPublished(s, p, op) && p'.history == p.history && p'.objects == p.objects
    ensures OnlyPublished(s, p', op)
  {
    hide ServiceModel.Lookup, ServiceModel.Updated, StatusAt;
  }

  function Swapped(s: System): System
    requires s.history != [] && s.phase.Registering?
  {
    s.(history := s.history + [s.phase.next], phase := Deregistering(Current(s), 0))
  }

  lemma SwapRun(text: Text, s: System)
    requires s.history != [] && s.phase.Registering? && s.phase.i >= |s.phase.next.config.backends|
    ensures Run(text, s, [Swap], Swapped(s))
  {
    RunOne(text, s, Swap);
    hide Run;
  }

  function Finished(s: System): System {
    s.(phase := Idle, updating := None, calls := AfterUpdate(s.calls, s.updating, |s.history|))
  }

  lemma FinishRun(text: Text, s: System)
    requires s.history != [] && s.phase.Deregistering? && s.phase.i >= |s.phase.prev.config.backends|
    ensures Run(text, s, [Finish], Finished(s))
  {
    RunOne(text, s, Finish);
    hide Run;
  }

  /** Call `j` may now look at the status, on the current state. */
  predicate MayReset(s: System, j: nat) {
    && s.history != [] && j < |s.calls| && s.calls[j].Due? && s.calls[j].op.id in Current(s).statuses
    && Enabled(s, Recheck(j, |s.history| - 1))
    && Rechecks(s, Recheck(j, |s.history| - 1), Current(s).statuses[s.calls[j].op.id])
  }

  /**
   The new URL is published while the status still is what the results for the old one have
   made of it: from every reachable idle state, with checking enabled, an accepted update of
   a backend runs to a state that has published it with the old status, and on to one, with
   the old status still, in which the reset is due if the backend was enabled or moved; if
   it was not, the call has returned.
   */
  lemma PublishesBeforeReset(text: Text, file: FullConfig, before: seq<Event>, s: System, op: Update)
    returns (events: seq<Event>, published: System, rest: seq<Event>, finished: System)
    requires Reachable(text, file, before, s) && s.phase.Idle? && s.service.current.healthCheck.enabled
    requires ServiceModel.Step(text, s.service, op, true).1.None?
    ensures Run(text, s, events, published) && OnlyPublished(s, published, op)
    ensures published.calls == s.calls + [Entered(op, ServiceModel.Lookup(s.service.current, op.id))]
    ensures Run(text, published, rest, finished) && OnlyPublished(s, finished, op) && |finished.calls| == |s.calls| + 1
    ensures var first := ServiceModel.Lookup(s.service.current, op.id);
            && first.Some?
            && if op.enabled && (!first.value.enabled || (op.url != "" && op.url != first.value.url))
               then MayReset(finished, |s.calls|) else finished.calls[|s.calls|] == Returned
  {
    hide Run, Structured, Registered, Linked, Available, ServiceModel.Step, ServiceModel.Lookup, ServiceModel.Sound, OnlyPublished, StatusAt,
      Reconciled, HealthStatus.Applied, MayReset;
    var j := |s.calls|;
    ReachableInv(text, file, before, s);
    InvHistory(text, s);
    var entered := Next(text, s, Enter(op));
    StepKeepsInv(text, s, Enter(op));
    OwnUpdate(text, s, op, true);
    var first, second, changed;
    first, published, second, changed := ApplyCall(text, entered, j);
    RunOne(text, s, Enter(op));
    RunConcat(text, s, [Enter(op)], entered, first, published);
    events := [Enter(op)] + first;
    RunOne(text, changed, ReadAgain(j));
    finished := Next(text, changed, ReadAgain(j));
    RunConcat(text, published, second, changed, [ReadAgain(j)], finished);
    rest := second + [ReadAgain(j)];
    SameSystem(s, entered, published, op);
    SameSystem(s, entered, changed, op);
    StillPublished(s, changed, finished, op);
    if finished.calls[j].Due? {
      DueMayReset(s, finished, j, op);
    }
  }

  lemma InvHistory(text: Text, s: System)
    requires Inv(text, s)
    ensures s.history != []
  {
    hide Registered, Linked, Available;
  }

  lemma SameSystem(s: System, t: System, p: System, op: Update)
    requires t == s.(calls := t.calls) && OnlyPublished(t, p, op)
    ensures OnlyPublished(s, p, op)
  {
    hide ServiceModel.Lookup, ServiceModel.Updated, StatusAt;
  }

  lemma DueMayReset(s: System, p: System, j: nat, op: Update)
    requires OnlyPublished(s, p, op) && j < |p.calls| && p.calls[j] == Due(op, |p.history|)
    ensures MayReset(p, j)
  {
    hide ServiceModel.Lookup, ServiceModel.Updated, StatusAt;
  }

  // ----- Results for another URL

  lemma ResultIsApplied(text: Text, s: System, id: string, outcome: HealthStatus.Outcome)
    requires Structured(text, s) && s.phase.Idle? && s.service.current.healthCheck.enabled && id in Current(s).statuses
    ensures var e := HealthResult(|s.history| - 1, id, outcome);
            var r := Current(s).statuses[id];
            && Enabled(s, e) && r < |s.objects| && Next(text, s, e) == s.(objects := Next(text, s, e).objects)
            && StatusAt(Next(text, s, e).objects, r) ==
               HealthStatus.Applied(StatusAt(s.objects, r), outcome, s.service.current.healthCheck.thresholds)
  {
    hide ServiceModel.Sound, WellFormed, HealthStatus.Applied;
    StatusesAllocated(text, Current(s), s.objects);
  }

  /** At a first result: it was obtained for the old URL, and the new one is published with it. */
  lemma OldResultUnderNewUrl(text: Text, file: FullConfig, before: seq<Event>, s: System, op: Update, outcome: HealthStatus.Outcome)
    returns (events: seq<Event>, published: System)
    requires Reachable(text, file, before, s) && s.phase.Idle? && s.service.current.healthCheck.enabled
    requires HealthStatus.ValidThresholds(s.service.current.healthCheck.thresholds)
    requires ServiceModel.Step(text, s.service, op, true).1.None?
    requires s.history != [] && op.id in Current(s).statuses && StatusAt(s.objects, Current(s).statuses[op.id]) == HealthStatus.FRESH
    ensures Run(text, s, events, published) && OnlyUpdated(s, published, op)
    ensures var r := Current(s).statuses[op.id];
            && StatusAt(published.objects, r) == HealthStatus.Applied(HealthStatus.FRESH, outcome, s.service.current.healthCheck.thresholds)
            && StatusAt(published.objects, r) != HealthStatus.FRESH
  {
    hide Run, Registered, Linked, Available, ServiceModel.Step, HealthStatus.Applied, OnlyPublished, BackendIds, ServiceModel.Sound, WellFormed;
    var r, t := Current(s).statuses[op.id], s.service.current.healthCheck.thresholds;
    var e := HealthResult(|s.history| - 1, op.id, outcome);
    ReachableInv(text, file, before, s);
    ResultIsApplied(text, s, op.id, outcome);
    hide Structured, Next, StatusAt;
    var next := Next(text, s, e);
    RunOne(text, s, e);
    RunConcat(text, Start(ServiceModel.Load(text, file).value, file), before, s, [e], next);
    var rest, published', more, finished := PublishesBeforeReset(text, file, before + [e], next, op);
    RunConcat(text, s, [e], next, rest, published');
    events, published := [e] + rest, published';
    StillOnlyUpdated(s, next, published, op);
    assert HealthStatus.AppliedAll(HealthStatus.FRESH, [outcome], t) == HealthStatus.Applied(HealthStatus.FRESH, outcome, t) by {
      assert [outcome][..0] == [];
    }
    HealthStatus.NeverFreshAgain([outcome], t);
  }

  lemma StillOnlyUpdated(s: System, next: System, p: System, op: Update)
    requires next.history == s.history && OnlyPublished(next, p, op)
    ensures OnlyUpdated(s, p, op)
    ensures StatusAt(p.objects, Current(s).statuses[op.id]) == StatusAt(next.objects, Current(s).statuses[op.id])
  {
    hide ServiceModel.Lookup, ServiceModel.Updated, StatusAt;
  }

  /** Two calls on one backend that are entered at `s`: one moves it away, the other back to where it was. */
  ghost predicate AwayAndBack(text: Text, s: System, away: Update, back: Update) {
    var b := ServiceModel.Lookup(s.service.current, away.id);
    && s.phase.Idle? && s.service.current.healthCheck.enabled
    && b.Some? && b.value.enabled && away.id == back.id && away.enabled && back.enabled
    && away.url !in {"", b.value.url} && back.url == b.value.url != ""
    && ServiceModel.Step(text, s.service, away, true).1.None?
    && ServiceModel.Step(text, ServiceModel.Step(text, s.service, away, true).0, back, true).1.None?
  }

  /** Both calls are entered, the first one is applied, and a result for the new URL arrives. */
  lemma MovedAway(text: Text, s: System, away: Update, back: Update, outcome: HealthStatus.Outcome)
    returns (events: seq<Event>, moved: System)
    requires Inv(text, s) && s.history != [] && AwayAndBack(text, s, away, back)
    ensures Run(text, s, events, moved) && Inv(text, moved) && OnlyUpdated(s, moved, away) && moved.phase.Idle?
    ensures var first := ServiceModel.Lookup(s.service.current, away.id);
            moved.calls == s.calls + [Changed(away, first, |moved.history|), Entered(back, first)]
    ensures moved.service == ServiceModel.Step(text, s.service, away, true).0
    ensures moved.service.current.healthCheck == s.service.current.healthCheck
    ensures |moved.history| == |s.history| + 1 && s.history <= moved.history
    ensures HealthResult(|s.history|, away.id, outcome) in events
    ensures var r := Current(s).statuses[away.id];
            StatusAt(moved.objects, r) == HealthStatus.Applied(StatusAt(s.objects, r), outcome, s.service.current.healthCheck.thresholds)
  {
    hide Run, Structured, Registered, Linked, Available, ServiceModel.Step, ServiceModel.Lookup, HealthStatus.Applied, StatusAt,
      OnlyPublished, Reconciled, BackendIds;
    var j := |s.calls|;
    var s1 := Next(text, s, Enter(away));
    var s2 := Next(text, s1, Enter(back));
    StepKeepsInv(text, s, Enter(away));
    StepKeepsInv(text, s1, Enter(back));
    RunOne(text, s, Enter(away));
    RunOne(text, s1, Enter(back));
    RunConcat(text, s, [Enter(away)], s1, [Enter(back)], s2);
    hide Next, Enabled;
    var f, p, g, changed := ApplyCall(text, s2, j);
    RunConcat(text, s2, f, p, g, changed);
    RunKeepsInv(text, s2, f + g, changed);
    HealthConfigOfRun(text, s2, f + g, changed);
    SameSystem(s, s2, changed, away);
    PublishedIds(s, changed, away);
    ResultIsApplied(text, changed, away.id, outcome);
    var e := HealthResult(|changed.history| - 1, away.id, outcome);
    moved := Next(text, changed, e);
    StepKeepsInv(text, changed, e);
    RunOne(text, changed, e);
    RunConcat(text, s2, f + g, changed, [e], moved);
    RunConcat(text, s, [Enter(away)] + [Enter(back)], s2, f + g + [e], moved);
    events := [Enter(away)] + [Enter(back)] + (f + g + [e]);
    StillUpdated(s, changed, moved, away);
  }

  /** What a publication says about the status of the backend. */
  lemma PublishedIds(s: System, p: System, op: Update)
    requires OnlyPublished(s, p, op)
    ensures OnlyUpdated(s, p, op) && s.history != [] && |p.history| == |s.history| + 1 && s.history <= p.history
    ensures op.id in Current(s).statuses && op.id in Current(p).statuses && Current(p).statuses[op.id] == Current(s).statuses[op.id]
    ensures StatusAt(p.objects, Current(s).statuses[op.id]) == StatusAt(s.objects, Current(s).statuses[op.id])
  {
    hide ServiceModel.Lookup, ServiceModel.Updated, StatusAt;
  }

  lemma StillUpdated(s: System, p: System, p': System, op: Update)
    requires OnlyUpdated(s, p, op) && p'.history == p.history
    ensures OnlyUpdated(s, p', op)
  {
    hide ServiceModel.Lookup, ServiceModel.Updated;
  }

  /**
   Two calls that both read the backend before either is applied, one moving it away and the
   other back: whatever result arrives for the other URL in between, both calls return
   without a reset, and the result stands under the URL it was not obtained for.
   */
  lemma BackAndForthNeverResets(text: Text, file: FullConfig, before: seq<Event>, s: System, away: Update, back: Update,
                                outcome: HealthStatus.Outcome)
    returns (events: seq<Event>, s': System)
    requires Reachable(text, file, before, s) && s.history != [] && AwayAndBack(text, s, away, back)
    ensures Run(text, s, events, s') && s'.calls == s.calls + [Returned, Returned]
    ensures |s'.history| == |s.history| + 2 && s.history <= s'.history && HealthResult(|s.history|, away.id, outcome) in events
    ensures var other, now := ServiceModel.Lookup(s'.history[|s.history|].config, away.id), ServiceModel.Lookup(Current(s').config, away.id);
            other.Some? && other.value.url == away.url && now.Some? && now.value.url == back.url
    ensures away.id in Current(s).statuses && away.id in Current(s').statuses && Current(s').statuses[away.id] == Current(s).statuses[away.id]
    ensures var r := Current(s).statuses[away.id];
            StatusAt(s'.objects, r) == HealthStatus.Applied(StatusAt(s.objects, r), outcome, s.service.current.healthCheck.thresholds)
  {
    hide Run, Structured, Registered, Linked, Available, ServiceModel.Step, ServiceModel.Lookup, HealthStatus.Applied, StatusAt,
      OnlyPublished, Reconciled, BackendIds, OnlyUpdated;
    ReachableInv(text, file, before, s);
    var j := |s.calls|;
    var a, moved := MovedAway(text, s, away, back, outcome);
    var f, p, g, changed := ApplyCall(text, moved, j + 1);
    RunConcat(text, moved, f, p, g, changed);
    OwnUpdate(text, s, away, true);
    OwnUpdate(text, moved, back, true);
    var b, last := BothReturn(text, changed, j);
    RunConcat(text, moved, f + g, changed, b, last);
    RunConcat(text, s, a, moved, f + g + b, last);
    events, s' := a + (f + g + b), last;
    PublishedIds(moved, changed, back);
    UpdatedTwice(s, moved, changed, away, back);
  }

  /** Neither call sees a change. */
  lemma BothReturn(text: Text, s: System, j: nat) returns (events: seq<Event>, s': System)
    requires s.history != [] && j + 1 < |s.calls| && s.calls[j].Changed? && s.calls[j + 1].Changed?
    requires forall k :: j <= k <= j + 1 ==>
               !ServiceModel.ShouldRecheck(s.calls[k].previous, ServiceModel.Lookup(s.service.current, s.calls[k].op.id))
    ensures Run(text, s, events, s') && s' == s.(calls := s.calls[j := Returned][j + 1 := Returned])
  {
    hide Run, ServiceModel.Lookup, ServiceModel.ShouldRecheck;
    var s1 := Next(text, s, ReadAgain(j));
    s' := Next(text, s1, ReadAgain(j + 1));
    RunOne(text, s, ReadAgain(j));
    RunOne(text, s1, ReadAgain(j + 1));
    RunConcat(text, s, [ReadAgain(j)], s1, [ReadAgain(j + 1)], s');
    events := [ReadAgain(j)] + [ReadAgain(j + 1)];
  }

  lemma UpdatedTwice(s: System, m: System, p: System, away: Update, back: Update)
    requires OnlyUpdated(s, m, away) && OnlyUpdated(m, p, back) && away.id == back.id && away.url != "" && back.url != ""
    requires |m.history| == |s.history| + 1 && m.history <= p.history
    ensures var other, now := ServiceModel.Lookup(p.history[|s.history|].config, away.id), ServiceModel.Lookup(Current(p).config, away.id);
            other.Some? && other.value.url == away.url && now.Some? && now.value.url == back.url
    ensures away.id in Current(s).statuses && away.id in Current(p).statuses && Current(p).statuses[away.id] == Current(s).statuses[away.id]
  {
    hide ServiceModel.Lookup;
    assert p.history[|s.history|] == Current(m);
  }
}
