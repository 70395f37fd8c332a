/**
 Isolation of published states: updates share memory with the readers of earlier states,
 and run one write at a time between their reads (update and applyLocked in
 internal/config/service.go, Reconcile in internal/proxy/runtime/backend_registry.go,
 applyUpdate in internal/proxy/runtime/runtime.go).

 `clones` says whether an update works on a clone and a new map, as the code does, or on
 what is published; the latter shows what the copies are for.
 */
module Isolation {
  import opened Base
  import opened Config
  import opened Defaults
  import opened ServiceModel
  import opened Memory
  import opened Edits
  import opened EditProofs
  import RuntimeModel

  /** What a request loads: the addresses of a configuration and of a status map. */
  datatype Ref = Ref(root: nat, statuses: nat)

  datatype Phase =
    | Ready
    | Editing(op: Op, root: nat, writes: seq<Write>)
    | Defaulting(op: Op, root: nat, writes: seq<Write>)
    | Committed
    | Filling(statuses: nat, base: nat, i: nat)
    | Reconciled(statuses: nat)

  /**
   `mark` is the memory at the last point where everything in use was finished; `objects`
   counts the status objects, which are not part of this memory.
   */
  datatype System = System(
    heap: Heap, mark: Heap, current: nat, registry: nat, objects: nat, history: seq<Ref>, phase: Phase)

  datatype Event =
    | Begin(op: Op, room: bool)
    | WriteOne
    | Settle
    | Save(saveOk: bool)
    | NewMap
    | Fill
    | Install
    | Swap

  predicate Enabled(s: System, e: Event) {
    && s.current < |s.heap.roots| && s.registry < |s.heap.statuses|
    && match e
       case Begin(op, _) => s.phase.Ready? && !op.Replace?
       case WriteOne => (s.phase.Editing? || s.phase.Defaulting?) && s.phase.writes != []
       case Settle => s.phase.Editing? && s.phase.writes == [] && s.phase.root < |s.heap.roots|
       case Save(_) => s.phase.Defaulting? && s.phase.writes == [] && s.phase.root < |s.heap.roots|
       case NewMap => s.phase.Committed?
       case Fill => s.phase.Filling? && s.phase.i < |View(s.heap, s.current).backends| && s.phase.statuses < |s.heap.statuses|
       case Install => s.phase.Filling? && s.phase.i >= |View(s.heap, s.current).backends|
       case Swap => s.phase.Reconciled?
  }

  function Entered(m: map<string, nat>, id: string, status: nat): map<string, nat> {
    m[id := status]
  }

  /** The status of one backend is entered: the known object, or a new one. */
  function FillOne(s: System): System
    requires Enabled(s, Fill)
  {
    var m := s.phase.statuses;
    var next := Filling(m, s.phase.base, s.phase.i + 1);
    match View(s.heap, s.current).backends[s.phase.i]
    case None => s.(phase := next)
    case Some(b) =>
      var known := s.heap.statuses[s.registry];
      var status: nat := if b.id in known then known[b.id] else s.objects;
      s.(heap := s.heap.(statuses := s.heap.statuses[m := Entered(s.heap.statuses[m], b.id, status)]),
         objects := if b.id in known then s.objects else s.objects + 1, phase := next)
  }

  /** The mutator starts on a clone, or is refused. */
  function Begun(clones: bool, s: System, op: Op, room: bool): System
    requires s.current < |s.heap.roots|
  {
    var (h, root) := if clones then Clone(s.heap, s.current) else (s.heap, s.current);
    if root < |h.roots| && Mutated(op, View(h, root)).Ok?
    then s.(heap := h, mark := s.heap, phase := Editing(op, root, EditOf(op, h, root, room)))
    else s.(heap := h, mark := s.heap)
  }

  function Written(s: System): System
    requires Enabled(s, WriteOne)
  {
    var rest := s.phase.writes[1..];
    s.(heap := Apply(s.heap, s.phase.writes[0]),
       phase := if s.phase.Editing? then Editing(s.phase.op, s.phase.root, rest) else Defaulting(s.phase.op, s.phase.root, rest))
  }

  /** Validated and saved, the configuration becomes the service's; otherwise it is dropped. */
  function Saved(text: Text, s: System, saveOk: bool): System
    requires Enabled(s, Save(saveOk))
  {
    if ValidConfig(text, View(s.heap, s.phase.root)) && saveOk
    then s.(current := s.phase.root, mark := s.heap, phase := Committed)
    else s.(mark := s.heap, phase := Ready)
  }

  function MapStarted(clones: bool, s: System): System {
    if clones
    then s.(heap := s.heap.(statuses := s.heap.statuses + [map[]]), mark := s.heap, phase := Filling(|s.heap.statuses|, s.objects, 0))
    else s.(mark := s.heap, phase := Filling(s.registry, s.objects, 0))
  }

  function Next(text: Text, clones: bool, s: System, e: Event): System
    requires Enabled(s, e)
  {
    match e
    case Begin(op, room) => Begun(clones, s, op, room)
    case WriteOne => Written(s)
    case Settle => s.(phase := Defaulting(s.phase.op, s.phase.root, DefaultWrites(s.heap, s.phase.root)))
    case Save(saveOk) => Saved(text, s, saveOk)
    case NewMap => MapStarted(clones, s)
    case Fill => FillOne(s)
    case Install => s.(registry := s.phase.statuses, mark := s.heap, phase := Reconciled(s.phase.statuses))
    case Swap => s.(history := s.history + [Ref(s.current, s.phase.statuses)], phase := Ready)
  }

  /** `events` takes the system from `s` to `s'`. */
  predicate Run(text: Text, clones: bool, s: System, events: seq<Event>, s': System)
    decreases |events|
  {
    if events == [] then s == s' else Enabled(s, events[0]) && Run(text, clones, Next(text, clones, s, events[0]), events[1..], s')
  }

  const EMPTY: Heap := Heap([], [], [], [], [], [], [], [])

  /** A runtime that has loaded `c` and published it. */
  function Start(c: FullConfig): System {
    var (h, root) := Alloc(EMPTY, c);
    var (statuses, created) := RuntimeModel.Reconciled(map[], 0, c.backends);
    var heap := h.(statuses := [statuses]);
    System(heap, heap, root, 0, |created|, [Ref(root, 0)], Ready)
  }

  // ----- The invariant

  /** What the service, the registry and readers refer to is allocated. */
  ghost predicate InUse(h: Heap, current: nat, registry: nat, history: seq<Ref>) {
    && InHeap(h, current) && registry < |h.statuses|
    && forall k :: 0 <= k < |history| ==> InHeap(h, history[k].root) && history[k].statuses < |h.statuses|
  }

  /** Everything readers, the service and the registry can reach was finished at `mark` and has not been touched since. */
  ghost predicate Settled(s: System) {
    Extends(s.mark, s.heap) && InUse(s.mark, s.current, s.registry, s.history)
  }

  /** The pending writes stay clear of memory in use, and lead to what the operation means. */
  ghost predicate OnTarget(h: Heap, mark: Heap, current: nat, op: Op, root: nat, writes: seq<Write>, defaulted: bool) {
    && InHeap(h, current) && !op.Replace? && Mutated(op, View(h, current)).Ok?
    && var n := Mutated(op, View(h, current)).value;
       Achieves(h, writes, root, if defaulted then Defaulted(n) else n, mark)
  }

  /** The map being filled is new, and holds what the backends before `i` lead to. */
  ghost predicate PartlyFilled(h: Heap, mark: Heap, current: nat, registry: nat, objects: nat, m: nat, base: nat, i: nat) {
    && InHeap(h, current) && |mark.statuses| <= m < |h.statuses| && registry < |mark.statuses| && registry < |h.statuses|
    && i <= |View(h, current).backends|
    && var (statuses, created) := RuntimeModel.Reconciled(h.statuses[registry], base, View(h, current).backends[..i]);
       h.statuses[m] == statuses && objects == base + |created|
  }

  ghost predicate OnCourse(s: System) {
    match s.phase
    case Editing(op, root, writes) => OnTarget(s.heap, s.mark, s.current, op, root, writes, false)
    case Defaulting(op, root, writes) => OnTarget(s.heap, s.mark, s.current, op, root, writes, true)
    case Filling(m, base, i) => PartlyFilled(s.heap, s.mark, s.current, s.registry, s.objects, m, base, i)
    case Reconciled(m) => m < |s.mark.statuses|
    case _ => true
  }

  ghost predicate Inv(s: System) {
    Settled(s) && OnCourse(s)
  }

  lemma StartIsInv(c: FullConfig)
    ensures Inv(Start(c)) && View(Start(c).heap, Start(c).current) == c
  {
    hide Alloc, RuntimeModel.Reconciled, RootIn, View, OnTarget, PartlyFilled;
    var (h, root) := Alloc(EMPTY, c);
    AllocIsSeparate(EMPTY, c);
    assert InHeap(h, root);
    hide Separated, InHeap;
    StatusesAside(h, Start(c).heap, root);
    ExtendsItself(Start(c).heap);
    hide Extends;
  }

  /** The status maps are no part of a configuration. */
  lemma StatusesAside(h: Heap, g: Heap, r: nat)
    requires g == h.(statuses := g.statuses) && InHeap(h, r)
    ensures InHeap(g, r) && View(g, r) == View(h, r)
  {
    var c := View(h, r);
    PartsAreView(h, r, c);
    PartsAreView(g, r, c);
    HostsReadStable(h, g, h.hosts[h.roots[r].hosts.address][..h.roots[r].hosts.len], c.virtualHosts);
    BackendsReadStable(h, g, h.pointers[h.roots[r].backends.address][..h.roots[r].backends.len], c.backends);
    hide HostsRead, BackendsRead, View, InHeap;
  }

  // ----- Every step keeps it

  /** What was finished at `mark` is not written. */
  ghost predicate Untouched(s: System, s': System) {
    Extends(s.mark, s'.heap) && s.history <= s'.history
  }

  lemma BeginKeepsInv(s: System, op: Op, room: bool)
    requires Inv(s) && Enabled(s, Begin(op, room))
    ensures Untouched(s, Begun(true, s, op, room)) && Inv(Begun(true, s, op, room))
  {
    hide View, InHeap, Separated, Extends, RootIn, Own, Mutated, EditOf, Achieves, PartlyFilled, Alloc;
    var (h, root) := Alloc(s.heap, View(s.heap, s.current));
    InUseStays(s, s.heap);
    CloneFacts(s.heap, s.current);
    ExtendsTwice(s.mark, s.heap, h);
    if Mutated(op, View(h, root)).Ok? {
      EditIsMutation(op, h, root, s.heap, room);
    }
  }

  lemma CloneFacts(h: Heap, r: nat)
    requires InHeap(h, r)
    ensures var (g, root) := Alloc(h, View(h, r));
            && Extends(h, g) && root < |g.roots| && Own(g, root, h) && View(g, root) == View(h, r)
            && InHeap(g, r) && View(g, r) == View(h, r)
  {
    var (g, root) := Alloc(h, View(h, r));
    AllocIsSeparate(h, View(h, r));
    hide Alloc, View, Separated, InHeap;
    OwnClone(h, g, root);
    ViewStable(h, g, r);
  }

  lemma ExtendsTwice(a: Heap, b: Heap, c: Heap)
    requires Extends(a, b) && Extends(b, c)
    ensures Extends(a, c)
  {
  }

  lemma ExtendsItself(h: Heap)
    ensures Extends(h, h)
  {
  }

  lemma OwnClone(mark: Heap, h: Heap, r: nat)
    requires r == |mark.roots| < |h.roots| && Separated(h, h.roots[r], mark)
    ensures Own(h, r, mark)
  {
  }

  /** Whatever is in use at the mark is in use now, and reads the same. */
  lemma InUseStays(s: System, h: Heap)
    requires Settled(s) && Extends(s.mark, h)
    ensures InUse(h, s.current, s.registry, s.history)
    ensures View(h, s.current) == View(s.mark, s.current)
    ensures forall k :: 0 <= k < |s.history| ==>
              View(h, s.history[k].root) == View(s.mark, s.history[k].root) &&
              h.statuses[s.history[k].statuses] == s.mark.statuses[s.history[k].statuses]
  {
    ViewStable(s.mark, h, s.current);
    forall k | 0 <= k < |s.history|
      ensures InHeap(h, s.history[k].root) && View(h, s.history[k].root) == View(s.mark, s.history[k].root)
    {
      ViewStable(s.mark, h, s.history[k].root);
    }
    hide View, InHeap;
  }

  lemma WriteOnTarget(h: Heap, mark: Heap, current: nat, op: Op, root: nat, ws: seq<Write>, defaulted: bool)
    requires Extends(mark, h) && InHeap(mark, current) && OnTarget(h, mark, current, op, root, ws, defaulted) && ws != []
    ensures Extends(mark, Apply(h, ws[0])) && OnTarget(Apply(h, ws[0]), mark, current, op, root, ws[1..], defaulted)
  {
    WriteExtends(mark, h, ws[0]);
    ViewStable(mark, h, current);
    ViewStable(mark, Apply(h, ws[0]), current);
    assert AllAbove(ws[1..], mark);
    assert ApplyAll(h, ws) == ApplyAll(Apply(h, ws[0]), ws[1..]);
    hide Apply, ApplyAll, AllAbove, View, InHeap, Parts, Top, Mutated, Defaulted, Extends;
  }

  lemma WriteKeepsInv(s: System)
    requires Inv(s) && Enabled(s, WriteOne)
    ensures Untouched(s, Written(s)) && Inv(Written(s))
  {
    hide View, InHeap, OnTarget, Extends, PartlyFilled, EditOf, DefaultWrites;
    WriteOnTarget(s.heap, s.mark, s.current, s.phase.op, s.phase.root, s.phase.writes, s.phase.Defaulting?);
    hide Apply;
  }

  lemma SettleOnTarget(h: Heap, mark: Heap, current: nat, op: Op, root: nat)
    requires Extends(mark, h) && OnTarget(h, mark, current, op, root, [], false)
    ensures root < |h.roots| && OnTarget(h, mark, current, op, root, DefaultWrites(h, root), true)
  {
    assert ApplyAll(h, []) == h;
    hide ApplyAll, AllAbove, View, InHeap, Mutated, Defaulted, DefaultWrites, Extends;
    assert root < |h.roots|;
    hide Parts, Top;
    DefaultEdit(h, root, Mutated(op, View(h, current)).value, mark);
    hide Achieves;
  }

  lemma SettleKeepsInv(text: Text, s: System)
    requires Inv(s) && Enabled(s, Settle)
    ensures Untouched(s, Next(text, true, s, Settle)) && Inv(Next(text, true, s, Settle))
  {
    hide View, InHeap, OnTarget, Extends, PartlyFilled, EditOf, DefaultWrites;
    SettleOnTarget(s.heap, s.mark, s.current, s.phase.op, s.phase.root);
  }

  /** With no write pending, what was aimed at is there. */
  lemma TargetReached(h: Heap, mark: Heap, current: nat, op: Op, root: nat)
    requires OnTarget(h, mark, current, op, root, [], true)
    ensures InHeap(h, root) && Mutated(op, View(h, current)).Ok? && View(h, root) == Defaulted(Mutated(op, View(h, current)).value)
  {
    assert ApplyAll(h, []) == h;
    hide ApplyAll, AllAbove, Mutated, Defaulted;
    PartsAreView(h, root, Defaulted(Mutated(op, View(h, current)).value));
    hide Parts, View, InHeap;
  }

  lemma SaveKeepsInv(text: Text, s: System, saveOk: bool)
    requires Inv(s) && Enabled(s, Save(saveOk))
    ensures Untouched(s, Saved(text, s, saveOk)) && Inv(Saved(text, s, saveOk))
  {
    hide ValidConfig, View, InHeap, OnTarget, PartlyFilled, Extends, Mutated, Defaulted;
    InUseStays(s, s.heap);
    ExtendsItself(s.heap);
    TargetReached(s.heap, s.mark, s.current, s.phase.op, s.phase.root);
  }

  /** A new map changes nothing else. */
  lemma NewMapKeepsInv(s: System)
    requires Inv(s) && Enabled(s, NewMap)
    ensures Untouched(s, MapStarted(true, s)) && Inv(MapStarted(true, s))
  {
    hide View, InHeap, OnTarget;
    var s' := MapStarted(true, s);
    InUseStays(s, s.heap);
    ViewStable(s.heap, s'.heap, s.current);
  }

  lemma MapKeepsInv(text: Text, s: System, e: Event)
    requires Inv(s) && Enabled(s, e) && (e == Install || e == Swap)
    ensures Untouched(s, Next(text, true, s, e)) && Inv(Next(text, true, s, e))
  {
    hide View, InHeap, OnTarget, Extends, PartlyFilled, Begun, Written, Saved, MapStarted, FillOne, DefaultWrites;
    InUseStays(s, s.heap);
    ExtendsItself(s.heap);
    if e.Install? {
      FilledMap(s);
    }
  }

  lemma FilledMap(s: System)
    requires OnCourse(s) && s.phase.Filling?
    ensures s.phase.statuses < |s.heap.statuses|
  {
    hide View, InHeap;
  }

  lemma FillKeepsInv(s: System)
    requires Inv(s) && Enabled(s, Fill)
    ensures Untouched(s, FillOne(s)) && Inv(FillOne(s))
  {
    hide View, InHeap, OnTarget;
    var s' := FillOne(s);
    InUseStays(s, s.heap);
    assert Extends(s.mark, s'.heap);
    InUseStays(s, s'.heap);
    hide Extends, InUse;
    var bs, i := View(s.heap, s.current).backends, s.phase.i;
    assert bs[..i + 1][..i] == bs[..i] && bs[..i + 1][i] == bs[i];
  }

  lemma StepKeepsInv(text: Text, s: System, e: Event)
    requires Inv(s) && Enabled(s, e)
    ensures Untouched(s, Next(text, true, s, e)) && Inv(Next(text, true, s, e))
  {
    hide Inv, Untouched, Begun, Written, Saved, MapStarted, FillOne, DefaultWrites;
    match e {
      case Begin(op, room) => BeginKeepsInv(s, op, room);
      case WriteOne => WriteKeepsInv(s);
      case Settle => hide Next; SettleKeepsInv(text, s);
      case Save(saveOk) => SaveKeepsInv(text, s, saveOk);
      case NewMap => NewMapKeepsInv(s);
      case Fill => FillKeepsInv(s);
      case _ => hide Next; MapKeepsInv(text, s, e);
    }
  }

  // ----- Every run

  lemma {:induction false} RunKeepsInv(text: Text, s: System, events: seq<Event>, s': System)
    requires Inv(s) && Run(text, true, s, events, s')
    ensures Inv(s')
    decreases |events|
  {
    hide Inv, Next, Enabled;
    if events != [] {
      StepKeepsInv(text, s, events[0]);
      RunKeepsInv(text, Next(text, true, s, events[0]), events[1..], s');
    }
  }

  lemma {:induction false} UnchangedOverRun(text: Text, s: System, events: seq<Event>, s': System, k: nat)
    requires Inv(s) && Run(text, true, s, events, s') && k < |s.history|
    ensures k < |s'.history| && s'.history[k] == s.history[k]
    ensures var p := s.history[k];
            && p.root < |s.heap.roots| && p.root < |s'.heap.roots| && View(s'.heap, p.root) == View(s.heap, p.root)
            && p.statuses < |s.heap.statuses| && p.statuses < |s'.heap.statuses|
            && s'.heap.statuses[p.statuses] == s.heap.statuses[p.statuses]
    decreases |events|
  {
    InUseStays(s, s.heap);
    hide View, InHeap, Next, Enabled;
    if events != [] {
      var next := Next(text, true, s, events[0]);
      StepKeepsInv(text, s, events[0]);
      InUseStays(s, next.heap);
      UnchangedOverRun(text, next, events[1..], s', k);
    }
  }

  /**
   Isolation: in every run, with a step for every write, the configuration and the status
   map of a published state read the same ever after.
   */
  lemma PublishedNeverChanges(text: Text, c: FullConfig, before: seq<Event>, s: System, after: seq<Event>, s': System, k: nat)
    requires Run(text, true, Start(c), before, s) && Run(text, true, s, after, s') && k < |s.history|
    ensures k < |s'.history| && s'.history[k] == s.history[k]
    ensures var p := s.history[k];
            && p.root < |s.heap.roots| && p.root < |s'.heap.roots| && View(s'.heap, p.root) == View(s.heap, p.root)
            && p.statuses < |s.heap.statuses| && p.statuses < |s'.heap.statuses|
            && s'.heap.statuses[p.statuses] == s.heap.statuses[p.statuses]
  {
    hide View, Inv, Run, Start;
    StartIsInv(c);
    RunKeepsInv(text, Start(c), before, s);
    UnchangedOverRun(text, s, after, s', k);
  }

  /** Saving an edited clone is the step of the value model. */
  lemma SaveIsStep(text: Text, s: System, saveOk: bool, file: FullConfig)
    requires Inv(s) && Enabled(s, Save(saveOk))
    ensures var s' := Next(text, true, s, Save(saveOk));
            && s'.current < |s'.heap.roots|
            && View(s'.heap, s'.current) == Step(text, State(View(s.heap, s.current), file), s.phase.op, saveOk).0.current
            && (s'.phase.Committed? <==> Step(text, State(View(s.heap, s.current), file), s.phase.op, saveOk).1.None?)
  {
    hide ValidConfig, View, InHeap, OnTarget, Settled, EditOf, DefaultWrites, Mutated, Defaulted;
    TargetReached(s.heap, s.mark, s.current, s.phase.op, s.phase.root);
  }

  /** The map that is installed is the reconciled one. */
  lemma InstallIsReconciled(text: Text, s: System)
    requires Inv(s) && Enabled(s, Install)
    ensures s.phase.statuses < |s.heap.statuses|
    ensures s.heap.statuses[s.phase.statuses] ==
            RuntimeModel.Reconciled(s.heap.statuses[s.registry], s.phase.base, View(s.heap, s.current).backends).0
  {
    hide View, InHeap, RuntimeModel.Reconciled, Settled, OnTarget;
    var bs := View(s.heap, s.current).backends;
    assert bs[..|bs|] == bs;
  }

  // ----- What the copies are for

  /** The writes of a phase, one after the other. */
  lemma {:induction false} RunWrites(text: Text, clones: bool, s: System) returns (events: seq<Event>, s': System)
    requires s.phase.Editing? && s.current < |s.heap.roots| && s.registry < |s.heap.statuses|
    ensures Run(text, clones, s, events, s')
    ensures s' == s.(heap := ApplyAll(s.heap, s.phase.writes), phase := Editing(s.phase.op, s.phase.root, []))
    decreases |s.phase.writes|
  {
    if s.phase.writes == [] {
      events, s' := [], s;
    } else {
      var next := Next(text, clones, s, WriteOne);
      RootsStay(s.heap, s.phase.writes[0]);
      var rest;
      rest, s' := RunWrites(text, clones, next);
      events := [WriteOne] + rest;
      assert events[1..] == rest;
      hide Apply, ApplyAll, Next;
    }
  }

  lemma RootsStay(h: Heap, w: Write)
    ensures |Apply(h, w).roots| == |h.roots| && Apply(h, w).statuses == h.statuses
  {
    hide AllocHost;
    if w.NewHost? {
      AllocHostFacts(h, w.i, w.vh, h);
    }
  }

  /**
   Without the clone, the mutator writes to the configuration that requests are reading:
   unless the operation changes nothing, the published state changes before the update
   has been validated or saved.
   */
  lemma WithoutCloneExactly(text: Text, s: System, op: Op, room: bool, k: nat) returns (events: seq<Event>, s': System)
    requires Enabled(s, Begin(op, room)) && Own(s.heap, s.current, EMPTY) && Mutated(op, View(s.heap, s.current)).Ok?
    requires k < |s.history| && s.history[k].root == s.current
    ensures Run(text, false, s, events, s') && s'.history == s.history && s.current < |s'.heap.roots|
    ensures View(s'.heap, s.history[k].root) == Mutated(op, View(s.heap, s.current)).value
    ensures View(s'.heap, s.history[k].root) != View(s.heap, s.history[k].root) <==>
            Mutated(op, View(s.heap, s.current)) != Ok(View(s.heap, s.current))
  {
    var next := Next(text, false, s, Begin(op, room));
    EditIsMutation(op, s.heap, s.current, EMPTY, room);
    var rest;
    rest, s' := RunWrites(text, false, next);
    events := [Begin(op, room)] + rest;
    assert events[1..] == rest;
    PartsAreView(s'.heap, s.current, Mutated(op, View(s.heap, s.current)).value);
    hide View, Mutated, EditOf, ApplyAll, Parts, Own, Next, InHeap;
  }

  /** At an input: a published configuration turns to the other balancer under its readers. */
  lemma WithoutCloneAtInput(text: Text, c: FullConfig) returns (events: seq<Event>, s': System)
    requires c.strategy == "least-connections"
    ensures Run(text, false, Start(c), events, s') && s'.history == Start(c).history
    ensures View(Start(c).heap, 0) == c && 0 < |s'.heap.roots| && View(s'.heap, 0) == c.(strategy := "adaptive")
  {
    var s := Start(c);
    var (h, root) := Alloc(EMPTY, c);
    AllocIsSeparate(EMPTY, c);
    hide Alloc, RuntimeModel.Reconciled;
    StatusesAside(h, s.heap, root);
    SeparateAside(h, s.heap, root);
    hide View, Own, Separated, InHeap;
    events, s' := WithoutCloneExactly(text, s, UpdateLoadBalancer("adaptive"), false, 0);
  }

  lemma SeparateAside(h: Heap, g: Heap, r: nat)
    requires g == h.(statuses := g.statuses) && r < |h.roots| && Separated(h, h.roots[r], EMPTY)
    ensures Own(g, r, EMPTY)
  {
    var cells := h.hosts[h.roots[r].hosts.address][..h.roots[r].hosts.len];
    var tags :| Tagged(h, cells, tags, EMPTY);
    TagsStay(h, g, cells, tags, EMPTY);
    StatusesAside(h, g, r);
    hide View, HostIn;
  }

  /** Entering the remaining backends into the map the registry already has. */
  lemma {:induction false} FillRest(text: Text, s: System) returns (events: seq<Event>, s': System)
    requires s.phase.Filling? && s.phase.statuses == s.registry < |s.heap.statuses| && InHeap(s.heap, s.current)
    requires s.phase.i <= |View(s.heap, s.current).backends|
    ensures Run(text, false, s, events, s') && s'.history == s.history && s'.phase.Filling?
    ensures s'.heap == s.heap.(statuses := s'.heap.statuses) && s.registry < |s'.heap.statuses|
    ensures var bs, m, m' := View(s.heap, s.current).backends, s.heap.statuses[s.registry], s'.heap.statuses[s.registry];
            && (forall id :: id in m ==> id in m' && m'[id] == m[id])
            && (forall k :: s.phase.i <= k < |bs| && bs[k].Some? ==> bs[k].value.id in m')
            && ((forall k :: s.phase.i <= k < |bs| && bs[k].Some? ==> bs[k].value.id in m) ==> m' == m)
    decreases |View(s.heap, s.current).backends| - s.phase.i
  {
    hide View, InHeap, Run, Next;
    InHeapRoot(s.heap, s.current);
    if s.phase.i == |View(s.heap, s.current).backends| {
      events, s' := [], s;
      RunNothing(text, false, s);
    } else {
      var next := FillOne(s);
      StatusesAside(s.heap, next.heap, s.current);
      var rest;
      rest, s' := FillRest(text, next);
      events := [Fill] + rest;
      assert events[1..] == rest;
      NextFills(text, s);
      hide FillOne;
      RunFirst(text, false, s, events, s');
    }
  }

  lemma NextFills(text: Text, s: System)
    requires Enabled(s, Fill)
    ensures Next(text, false, s, Fill) == FillOne(s)
  {
    hide FillOne;
  }

  lemma RunNothing(text: Text, clones: bool, s: System)
    ensures Run(text, clones, s, [], s)
  {
  }

  lemma InHeapRoot(h: Heap, r: nat)
    requires InHeap(h, r)
    ensures r < |h.roots|
  {
  }

  lemma RunFirst(text: Text, clones: bool, s: System, events: seq<Event>, s': System)
    requires events != [] && Enabled(s, events[0]) && Run(text, clones, Next(text, clones, s, events[0]), events[1..], s')
    ensures Run(text, clones, s, events, s')
  {
  }

  /**
   Without a new map, reconciliation writes to the map that requests are reading: it
   changes under them, before the new state is published, exactly if a backend is new.
   */
  lemma SharedMapExactly(text: Text, s: System, k: nat) returns (events: seq<Event>, s': System)
    requires s.phase.Committed? && InHeap(s.heap, s.current) && s.registry < |s.heap.statuses|
    requires k < |s.history| && s.history[k].statuses == s.registry
    ensures Run(text, false, s, events, s') && s'.history == s.history && s.registry < |s'.heap.statuses|
    ensures s'.heap.statuses[s.history[k].statuses] != s.heap.statuses[s.history[k].statuses] <==>
            !(BackendIds(View(s.heap, s.current).backends) <= s.heap.statuses[s.registry].Keys)
  {
    hide View, InHeap, Run;
    InHeapRoot(s.heap, s.current);
    var next := MapStarted(false, s);
    var rest;
    rest, s' := FillRest(text, next);
    events := [NewMap] + rest;
    assert events[1..] == rest;
    RunFirst(text, false, s, events, s');
    var bs := View(s.heap, s.current).backends;
    forall id ensures id in BackendIds(bs) <==> exists i :: 0 <= i < |bs| && bs[i].Some? && bs[i].value.id == id {
      BackendIdsMember(bs, id);
    }
  }
}
