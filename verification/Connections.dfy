/**
 Lock-free accounting of active connections (internal/metrics/metrics.go,
 internal/metrics/backend.go, and the bracket around one attempt in
 internal/proxy/handler/proxy.go) as interleaved atomic operations.

 A metrics object is named by its index in `counters`; the registry maps URLs to objects.
 Each request looks its object up once to increment and once more to decrement, and the
 decrement is a compare-and-swap loop with a guard at zero.
 */
module Connections {
  import opened Base
  import opened Metrics

  type Positive = n: nat | n > 0 witness 1

  datatype Request =
    | Idle
    | IncFound(url: string, bm: Option<nat>)              // looked up, before the add
    | InFlight(url: string)                               // between increment and deferred decrement
    | DecFound(url: string, bm: Option<nat>)              // looked up again, about to load
    | DecLoaded(url: string, obj: nat, seen: Positive)        // loaded, before the compare-and-swap

  datatype System = System(registered: map<string, nat>, counters: seq<nat>, requests: seq<Request>)

  datatype Step =
    | Register(url: string) | Deregister(url: string)
    | IncGet(t: nat, url: string) | IncAdd(t: nat)
    | DecGet(t: nat) | DecLoad(t: nat) | DecCas(t: nat)

  predicate Enabled(s: System, e: Step) {
    match e
    case Register(_) => true
    case Deregister(_) => true
    case IncGet(t, _) => t < |s.requests| && s.requests[t].Idle?
    case IncAdd(t) => t < |s.requests| && s.requests[t].IncFound?
    case DecGet(t) => t < |s.requests| && s.requests[t].InFlight?
    case DecLoad(t) => t < |s.requests| && s.requests[t].DecFound?
    case DecCas(t) => t < |s.requests| && s.requests[t].DecLoaded?
  }

  function Get(s: System, url: string): Option<nat> {
    if url in s.registered then Some(s.registered[url]) else None
  }

  function CounterAt(s: System, obj: nat): nat {
    if obj < |s.counters| then s.counters[obj] else 0
  }

  function SetCounter(s: System, obj: nat, value: nat): seq<nat> {
    if obj < |s.counters| then s.counters[obj := value] else s.counters
  }

  function Next(s: System, e: Step): System
    requires Enabled(s, e)
  {
    match e
    case Register(url) =>
      if url in s.registered then s
      else s.(registered := s.registered[url := |s.counters|], counters := s.counters + [0])
    case Deregister(url) => s.(registered := s.registered - {url})
    case IncGet(t, url) => s.(requests := s.requests[t := IncFound(url, Get(s, url))])
    case IncAdd(t) =>
      var r := s.requests[t];
      s.(requests := s.requests[t := InFlight(r.url)],
         counters := if r.bm.Some? then SetCounter(s, r.bm.value, (CounterAt(s, r.bm.value) + 1) % UINT64) else s.counters)
    case DecGet(t) => s.(requests := s.requests[t := DecFound(s.requests[t].url, Get(s, s.requests[t].url))])
    case DecLoad(t) =>
      var r := s.requests[t];
      s.(requests := s.requests[t :=
           if r.bm.None? || CounterAt(s, r.bm.value) == 0 then Idle
           else DecLoaded(r.url, r.bm.value, CounterAt(s, r.bm.value))])
    case DecCas(t) =>
      var r := s.requests[t];
      if CounterAt(s, r.obj) == r.seen
      then s.(requests := s.requests[t := Idle], counters := SetCounter(s, r.obj, r.seen - 1))
      else s.(requests := s.requests[t := DecFound(r.url, Some(r.obj))])
  }

  predicate Run(s: System, steps: seq<Step>, s': System)
    decreases |steps|
  {
    if steps == [] then s == s' else Enabled(s, steps[0]) && Run(Next(s, steps[0]), steps[1..], s')
  }

  // ----- Counting

  /** The request has been counted in and not yet counted out. */
  predicate Open(r: Request, url: string) {
    !r.Idle? && !r.IncFound? && r.url == url
  }

  ghost function OpenRequests(rs: seq<Request>, url: string): nat {
    if rs == [] then 0 else OpenRequests(rs[..|rs| - 1], url) + if Open(rs[|rs| - 1], url) then 1 else 0
  }

  lemma {:induction false} UpdateOpen(rs: seq<Request>, t: nat, r: Request, url: string)
    requires t < |rs|
    ensures OpenRequests(rs[t := r], url) + (if Open(rs[t], url) then 1 else 0)
            == OpenRequests(rs, url) + if Open(r, url) then 1 else 0
    ensures OpenRequests(rs, url) <= |rs|
    ensures Open(rs[t], url) ==> OpenRequests(rs, url) > 0
  {
    var n := |rs| - 1;
    if t < n {
      UpdateOpen(rs[..n], t, r, url);
      assert rs[t := r][..n] == rs[..n][t := r];
    } else {
      assert rs[t := r][..n] == rs[..n];
      OpenBounded(rs[..n], url);
    }
  }

  lemma {:induction false} OpenBounded(rs: seq<Request>, url: string)
    ensures OpenRequests(rs, url) <= |rs|
  {
    if rs != [] {
      OpenBounded(rs[..|rs| - 1], url);
    }
  }

  // ----- The invariant of one registered URL

  /** The object a request has looked up, if it is holding one. */
  function Handle(r: Request): Option<nat> {
    match r
    case IncFound(_, bm) => bm
    case DecFound(_, bm) => bm
    case DecLoaded(_, obj, _) => Some(obj)
    case _ => None
  }

  /** A request holds `obj` exactly if it is working on `url`. */
  predicate Tracks(r: Request, url: string, obj: nat) {
    r.IncFound? || r.DecFound? || r.DecLoaded? ==> (Handle(r) == Some(obj) <==> r.url == url)
  }

  /** `url` is registered with object `obj`, whose counter is the number of open requests. */
  ghost predicate Accurate(s: System, url: string, obj: nat) {
    && |s.requests| < UINT64
    && url in s.registered && s.registered[url] == obj && obj < |s.counters|
    && (forall v :: v in s.registered ==> s.registered[v] < |s.counters| && (v != url ==> s.registered[v] != obj))
    && (forall t :: 0 <= t < |s.requests| ==> Tracks(s.requests[t], url, obj))
    && s.counters[obj] == OpenRequests(s.requests, url)
  }

  lemma StepKeepsAccurate(s: System, e: Step, url: string, obj: nat)
    requires Accurate(s, url, obj) && Enabled(s, e) && e != Deregister(url)
    ensures Accurate(Next(s, e), url, obj)
  {
    hide OpenRequests;
    var s' := Next(s, e);
    OpenBounded(s.requests, url);
    match e {
      case Register(_) =>
      case Deregister(_) =>
      case _ =>
        UpdateOpen(s.requests, e.t, s'.requests[e.t], url);
        OpenBounded(s'.requests, url);
        assert Tracks(s.requests[e.t], url, obj);
    }
  }

  /** The zero guard is never taken: a decrement of `url` always finds a positive counter. */
  lemma GuardNeverTaken(s: System, t: nat, url: string, obj: nat)
    requires Accurate(s, url, obj) && Enabled(s, DecLoad(t)) && s.requests[t].url == url
    ensures s.requests[t].bm == Some(obj) && CounterAt(s, obj) > 0
    ensures Next(s, DecLoad(t)).requests[t].DecLoaded?
  {
    UpdateOpen(s.requests, t, s.requests[t], url);
    assert Tracks(s.requests[t], url, obj);
  }

  /**
   While a URL stays registered, in every interleaving of lookups, atomic adds and
   compare-and-swap retries, its counter is the number of requests between their increment
   and the completion of their decrement; whatever happens to other URLs does not matter.
   */
  lemma {:induction false} CounterIsAccurate(s: System, steps: seq<Step>, s': System, url: string, obj: nat)
    requires Accurate(s, url, obj) && Run(s, steps, s')
    requires forall i :: 0 <= i < |steps| ==> steps[i] != Deregister(url)
    ensures Accurate(s', url, obj)
    decreases |steps|
  {
    if steps != [] {
      StepKeepsAccurate(s, steps[0], url, obj);
      CounterIsAccurate(Next(s, steps[0]), steps[1..], s', url, obj);
    }
  }

  /** Registered objects and objects held by requests exist. */
  ghost predicate InRange(s: System) {
    && (forall v :: v in s.registered ==> s.registered[v] < |s.counters|)
    && (forall t :: 0 <= t < |s.requests| && Handle(s.requests[t]).Some? ==> Handle(s.requests[t]).value < |s.counters|)
  }

  lemma {:induction false} RunKeepsInRange(s: System, steps: seq<Step>, s': System)
    requires InRange(s) && Run(s, steps, s')
    ensures InRange(s') && |s'.requests| == |s.requests|
    decreases |steps|
  {
    if steps != [] {
      assert InRange(Next(s, steps[0])) by {
        hide Run;
      }
      RunKeepsInRange(Next(s, steps[0]), steps[1..], s');
    }
  }

  /** Some request is anywhere between looking up `url` and having been counted out of it. */
  ghost predicate Involved(s: System, url: string) {
    exists t :: 0 <= t < |s.requests| && !s.requests[t].Idle? && s.requests[t].url == url
  }

  predicate Keeps(steps: seq<Step>, url: string) {
    Deregister(url) !in steps
  }

  /** From the moment `url` is registered until it is deregistered, its counter is always right. */
  ghost predicate AccurateFromRegistration(s: System, url: string) {
    forall steps, s' :: Run(Next(s, Register(url)), steps, s') && Keeps(steps, url) ==>
      CounterAt(s', |s.counters|) == OpenRequests(s'.requests, url)
  }

  /** Registering a URL no request is working on starts an accurate counter. */
  lemma RegistrationIsAccurate(s: System, url: string)
    requires |s.requests| < UINT64 && url !in s.registered && InRange(s) && !Involved(s, url)
    ensures Accurate(Next(s, Register(url)), url, |s.counters|)
  {
    NoneOpen(s.requests, url);
  }

  /**
   After a registration the counter is right in every interleaving if and only if no
   request was involved with the URL when it was registered.
   */
  lemma RegistrationIsAccurateExactly(s: System, url: string)
    requires |s.requests| < UINT64 && url !in s.registered && InRange(s)
    ensures AccurateFromRegistration(s, url) <==> !Involved(s, url)
  {
    var start := Next(s, Register(url));
    if Involved(s, url) {
      var t :| 0 <= t < |s.requests| && !s.requests[t].Idle? && s.requests[t].url == url;
      var steps, s' := LateRequest(s, url, t);
    } else {
      RegistrationIsAccurate(s, url);
      forall steps, s' | Run(start, steps, s') && Keeps(steps, url)
        ensures CounterAt(s', |s.counters|) == OpenRequests(s'.requests, url)
      {
        assert forall i :: 0 <= i < |steps| ==> steps[i] in steps;
        hide Run;
        CounterIsAccurate(start, steps, s', url, |s.counters|);
      }
    }
  }

  /** A request involved before the registration is never counted in by the new counter. */
  lemma LateRequest(s: System, url: string, t: nat) returns (steps: seq<Step>, s': System)
    requires url !in s.registered && InRange(s) && t < |s.requests| && !s.requests[t].Idle? && s.requests[t].url == url
    ensures Run(Next(s, Register(url)), steps, s') && Keeps(steps, url)
    ensures CounterAt(s', |s.counters|) == 0 && OpenRequests(s'.requests, url) > 0
  {
    var start := Next(s, Register(url));
    if s.requests[t].IncFound? {
      steps, s' := [IncAdd(t)], Next(start, IncAdd(t));
      assert Run(Next(start, IncAdd(t)), steps[1..], s');
    } else {
      steps, s' := [], start;
    }
    UpdateOpen(s'.requests, t, s'.requests[t], url);
  }

  lemma {:induction false} NoneOpen(rs: seq<Request>, url: string)
    requires forall t :: 0 <= t < |rs| ==> !Open(rs[t], url)
    ensures OpenRequests(rs, url) == 0
  {
    if rs != [] {
      NoneOpen(rs[..|rs| - 1], url);
    }
  }

  /** The step completes an increment or a decrement of `obj`. */
  predicate Completes(s: System, e: Step, obj: nat)
    requires Enabled(s, e)
  {
    || (e.IncAdd? && s.requests[e.t].bm == Some(obj))
    || (e.DecCas? && s.requests[e.t].obj == obj && CounterAt(s, obj) == s.requests[e.t].seen)
  }

  function Completions(s: System, steps: seq<Step>, s': System, obj: nat): nat
    requires Run(s, steps, s')
    decreases |steps|
  {
    if steps == [] then 0
    else (if Completes(s, steps[0], obj) then 1 else 0) + Completions(Next(s, steps[0]), steps[1..], s', obj)
  }

  /**
   Lock freedom: if the compare-and-swap of request `t` fails, then since its load some
   request has completed an increment or a decrement of the same object.
   */
  lemma {:induction false} RetryMeansProgress(s: System, steps: seq<Step>, s': System, t: nat)
    requires Run(s, steps, s') && t < |s'.requests| && s'.requests[t].DecLoaded?
    requires s'.requests[t].obj < |s.counters| && CounterAt(s, s'.requests[t].obj) == s'.requests[t].seen
    ensures Next(s', DecCas(t)).requests[t].DecFound? ==> Completions(s, steps, s', s'.requests[t].obj) > 0
  {
    CounterMoves(s, steps, s', s'.requests[t].obj);
  }

  lemma {:induction false} CounterMoves(s: System, steps: seq<Step>, s': System, obj: nat)
    requires Run(s, steps, s') && obj < |s.counters|
    ensures CounterAt(s', obj) != CounterAt(s, obj) ==> Completions(s, steps, s', obj) > 0
    decreases |steps|
  {
    if steps != [] {
      CounterMoves(Next(s, steps[0]), steps[1..], s', obj);
    }
  }

  /** A request that is in flight while its URL is removed and added again. */
  const SPANNING: seq<Step> :=
    [Register("u"), IncGet(0, "u"), IncAdd(0), Deregister("u"), Register("u"),
     IncGet(1, "u"), IncAdd(1), DecGet(0), DecLoad(0), DecCas(0)]

  const SPANNING_STATES: seq<System> := [
    System(map[], [], [Idle, Idle]),
    System(map["u" := 0], [0], [Idle, Idle]),
    System(map["u" := 0], [0], [IncFound("u", Some(0)), Idle]),
    System(map["u" := 0], [1], [InFlight("u"), Idle]),
    System(map[], [1], [InFlight("u"), Idle]),
    System(map["u" := 1], [1, 0], [InFlight("u"), Idle]),
    System(map["u" := 1], [1, 0], [InFlight("u"), IncFound("u", Some(1))]),
    System(map["u" := 1], [1, 1], [InFlight("u"), InFlight("u")]),
    System(map["u" := 1], [1, 1], [DecFound("u", Some(1)), InFlight("u")]),
    System(map["u" := 1], [1, 1], [DecLoaded("u", 1, 1), InFlight("u")]),
    System(map["u" := 1], [1, 0], [Idle, InFlight("u")])]

  predicate SpanningStep(i: nat)
    requires i < 10
  {
    Enabled(SPANNING_STATES[i], SPANNING[i]) && Next(SPANNING_STATES[i], SPANNING[i]) == SPANNING_STATES[i + 1]
  }

  lemma SpanningSteps()
    ensures SpanningStep(0) && SpanningStep(1) && SpanningStep(2) && SpanningStep(3) && SpanningStep(4)
  {
    assert Next(SPANNING_STATES[3], Deregister("u")).registered == map[];
  }

  lemma SpanningStepsContinued()
    ensures SpanningStep(5) && SpanningStep(6) && SpanningStep(7) && SpanningStep(8) && SpanningStep(9)
  {
  }

  /**
   At an input, over a whole run: a request that spans a removal and re-addition of its URL
   takes its decrement out of the new object, which then reports no connection while one is open.
   */
  lemma {:induction false} ReregistrationLosesCount() returns (s: System)
    ensures Run(System(map[], [], [Idle, Idle]), SPANNING, s)
    ensures s.requests == [Idle, InFlight("u")] && OpenRequests(s.requests, "u") == 1
    ensures "u" in s.registered && CounterAt(s, s.registered["u"]) == 0
  {
    s := SPANNING_STATES[10];
    assert OpenRequests(s.requests, "u") == 1 by {
      assert s.requests[..1] == [Idle] && [Idle][..0] == [];
    }
    SpanningRun(0);
    assert SPANNING[0..] == SPANNING;
    hide Run, Next;
  }

  lemma SpanningStepAt(i: nat)
    requires i < 10
    ensures SpanningStep(i)
  {
    hide SpanningStep;
    if i < 5 {
      SpanningSteps();
    } else {
      SpanningStepsContinued();
    }
  }

  lemma {:induction false} SpanningRun(i: nat)
    requires i <= 10
    ensures Run(SPANNING_STATES[i], SPANNING[i..], SPANNING_STATES[10])
    decreases 10 - i
  {
    if i < 10 {
      SpanningStepAt(i);
      SpanningRun(i + 1);
      assert SPANNING[i..][1..] == SPANNING[i + 1..];
      RunCons(SPANNING_STATES[i], SPANNING[i..], SPANNING_STATES[i + 1], SPANNING_STATES[10]);
    }
  }

  lemma RunCons(s: System, steps: seq<Step>, next: System, last: System)
    requires steps != [] && Enabled(s, steps[0]) && Next(s, steps[0]) == next && Run(next, steps[1..], last)
    ensures Run(s, steps, last)
  {
  }
}
