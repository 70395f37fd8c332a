/**
 The bounded, coalescing worker pool of the health checker (internal/health/worker.go)
 as a protocol: every mutex section, channel operation, context event and wait-group
 operation is a step of its own, and any enabled step may come next.

 The logs `accepted`, `started` and `completed` record the backend ids that Submit
 accepted, that workers dequeued and that `complete` released, in order.
 */
module WorkerPool {

  datatype Worker =
    | Checking                // about to test ctx.Err()
    | Selecting               // blocked in the select
    | Running(id: string)     // inside the probe function
    | Finishing(id: string)   // probe returned, `complete` not done yet
    | Exited

  /** Who holds the pool's mutex across several steps. */
  datatype Lock = Free | HeldByStart | HeldBySubmit(id: string)

  datatype StartPhase = StartNotCalled | StartEntered | Spawning | StartDone

  datatype StopPhase = StopNotCalled | StopEntered | StopMarked | StopCancelled | StopReturned

  datatype Pool = Pool(
    count: nat, queueSize: nat,
    stopped: bool, ctxDone: bool, waitGroup: int,
    pending: set<string>, jobs: seq<string>,
    lock: Lock, start: StartPhase, stop: StopPhase,
    workers: seq<Worker>,
    accepted: seq<string>, started: seq<string>, completed: seq<string>)

  function NewPool(count: nat, queueSize: nat): Pool {
    Pool(count, queueSize, false, false, 0, {}, [], Free, StartNotCalled, StopNotCalled, [], [], [], [])
  }

  datatype Step =
    | ParentCancel
    | StartEnter | StartLock | Spawn | StartUnlock
    | StopEnter | StopMark | StopCancel | StopReturn
    | SubmitRefuse(id: string) | SubmitAdmit(id: string)
    | SubmitSend | SubmitHandOff(w: nat) | SubmitCancelled | SubmitFull
    | WorkerCheck(w: nat) | WorkerQuit(w: nat) | WorkerTake(w: nat)
    | WorkerReturn(w: nat) | WorkerComplete(w: nat)

  predicate WorkerIs(p: Pool, w: nat, kind: Worker) {
    w < |p.workers| && p.workers[w] == kind
  }

  /** Some worker is waiting to receive a job. */
  predicate SomeWaiting(p: Pool) {
    exists w :: 0 <= w < |p.workers| && p.workers[w] == Selecting
  }

  predicate Enabled(p: Pool, s: Step) {
    match s
    case ParentCancel => true
    // startOnce lets one caller in; the others wait for it.
    case StartEnter => p.start == StartNotCalled
    case StartLock => p.start == StartEntered && p.lock == Free
    case Spawn => p.start == Spawning && |p.workers| < p.count
    case StartUnlock => p.start == Spawning && |p.workers| == p.count
    case StopEnter => p.stop == StopNotCalled
    case StopMark => p.stop == StopEntered && p.lock == Free
    case StopCancel => p.stop == StopMarked
    case StopReturn => p.stop == StopCancelled && p.waitGroup == 0
    case SubmitRefuse(id) => id == "" || (p.lock == Free && (p.stopped || id in p.pending))
    case SubmitAdmit(id) => id != "" && p.lock == Free && !p.stopped && id !in p.pending
    // The select picks any ready case, and the default only when none is ready.
    case SubmitSend => p.lock.HeldBySubmit? && |p.jobs| < p.queueSize
    case SubmitHandOff(w) => p.lock.HeldBySubmit? && p.jobs == [] && WorkerIs(p, w, Selecting)
    case SubmitCancelled => p.lock.HeldBySubmit? && p.ctxDone
    case SubmitFull => p.lock.HeldBySubmit? && !p.ctxDone && |p.jobs| == p.queueSize && !(p.jobs == [] && SomeWaiting(p))
    case WorkerCheck(w) => WorkerIs(p, w, Checking)
    case WorkerQuit(w) => WorkerIs(p, w, Selecting) && p.ctxDone
    case WorkerTake(w) => WorkerIs(p, w, Selecting) && p.jobs != []
    case WorkerReturn(w) => w < |p.workers| && p.workers[w].Running?
    case WorkerComplete(w) => w < |p.workers| && p.workers[w].Finishing? && p.lock == Free
  }

  function SetWorker(p: Pool, w: nat, state: Worker): Pool
    requires w < |p.workers|
  {
    p.(workers := p.workers[w := state])
  }

  function Next(p: Pool, s: Step): Pool
    requires Enabled(p, s)
  {
    match s
    case ParentCancel => p.(ctxDone := true)
    case StartEnter => p.(start := StartEntered)
    case StartLock => if p.stopped then p.(start := StartDone) else p.(start := Spawning, lock := HeldByStart)
    case Spawn => p.(waitGroup := p.waitGroup + 1, workers := p.workers + [Checking])
    case StartUnlock => p.(start := StartDone, lock := Free)
    case StopEnter => p.(stop := StopEntered)
    case StopMark => p.(stop := StopMarked, stopped := true)
    case StopCancel => p.(stop := StopCancelled, ctxDone := true)
    case StopReturn => p.(stop := StopReturned)
    case SubmitRefuse(_) => p
    case SubmitAdmit(id) => p.(lock := HeldBySubmit(id), pending := p.pending + {id})
    case SubmitSend => p.(lock := Free, jobs := p.jobs + [p.lock.id], accepted := p.accepted + [p.lock.id])
    case SubmitHandOff(w) =>
      SetWorker(p, w, Running(p.lock.id))
        .(lock := Free, accepted := p.accepted + [p.lock.id], started := p.started + [p.lock.id])
    case SubmitCancelled => p.(lock := Free, pending := p.pending - {p.lock.id})
    case SubmitFull => p.(lock := Free, pending := p.pending - {p.lock.id})
    case WorkerCheck(w) => if p.ctxDone then Exit(p, w) else SetWorker(p, w, Selecting)
    case WorkerQuit(w) => Exit(p, w)
    case WorkerTake(w) =>
      SetWorker(p, w, Running(p.jobs[0])).(jobs := p.jobs[1..], started := p.started + [p.jobs[0]])
    case WorkerReturn(w) => SetWorker(p, w, Finishing(p.workers[w].id))
    case WorkerComplete(w) =>
      SetWorker(p, w, Checking)
        .(pending := p.pending - {p.workers[w].id}, completed := p.completed + [p.workers[w].id])
  }

  function Exit(p: Pool, w: nat): Pool
    requires w < |p.workers|
  {
    SetWorker(p, w, Exited).(waitGroup := p.waitGroup - 1)
  }

  /** `steps` is an interleaving that takes the pool from `p` to `q`. */
  predicate Run(p: Pool, steps: seq<Step>, q: Pool)
    decreases |steps|
  {
    if steps == [] then p == q else Enabled(p, steps[0]) && Run(Next(p, steps[0]), steps[1..], q)
  }

  // ----- Counting

  /** How often `id` occurs in `xs`. */
  ghost function Count(xs: seq<string>, id: string): nat {
    if xs == [] then 0 else Count(xs[..|xs| - 1], id) + if xs[|xs| - 1] == id then 1 else 0
  }

  lemma CountAppend(xs: seq<string>, x: string, id: string)
    ensures Count(xs + [x], id) == Count(xs, id) + if x == id then 1 else 0
  {
    assert (xs + [x])[..|xs|] == xs;
  }

  lemma {:induction false} CountTail(xs: seq<string>, id: string)
    requires xs != []
    ensures Count(xs, id) == Count(xs[1..], id) + if xs[0] == id then 1 else 0
  {
    var n := |xs| - 1;
    if n > 0 {
      CountTail(xs[..n], id);
      assert xs[..n][1..] == xs[1..][..n - 1];
    }
  }

  predicate Holds(w: Worker, id: string) {
    (w.Running? || w.Finishing?) && w.id == id
  }

  /** How many workers are holding a job for `id`. */
  ghost function Holders(ws: seq<Worker>, id: string): nat {
    if ws == [] then 0 else Holders(ws[..|ws| - 1], id) + if Holds(ws[|ws| - 1], id) then 1 else 0
  }

  /** How many workers have not exited. */
  ghost function Live(ws: seq<Worker>): nat {
    if ws == [] then 0 else Live(ws[..|ws| - 1]) + if ws[|ws| - 1].Exited? then 0 else 1
  }

  lemma {:induction false} UpdateHolders(ws: seq<Worker>, w: nat, state: Worker, id: string)
    requires w < |ws|
    ensures Holders(ws[w := state], id) + (if Holds(ws[w], id) then 1 else 0)
            == Holders(ws, id) + if Holds(state, id) then 1 else 0
  {
    var n := |ws| - 1;
    if w < n {
      UpdateHolders(ws[..n], w, state, id);
      assert ws[w := state][..n] == ws[..n][w := state];
    } else {
      assert ws[w := state][..n] == ws[..n];
    }
  }

  lemma {:induction false} UpdateLive(ws: seq<Worker>, w: nat, state: Worker)
    requires w < |ws|
    ensures Live(ws[w := state]) + (if ws[w].Exited? then 0 else 1) == Live(ws) + if state.Exited? then 0 else 1
  {
    var n := |ws| - 1;
    if w < n {
      UpdateLive(ws[..n], w, state);
      assert ws[w := state][..n] == ws[..n][w := state];
    } else {
      assert ws[w := state][..n] == ws[..n];
    }
  }

  lemma AddIdleWorker(ws: seq<Worker>)
    ensures Live(ws + [Checking]) == Live(ws) + 1
    ensures forall id :: Holders(ws + [Checking], id) == Holders(ws, id)
  {
    assert (ws + [Checking])[..|ws|] == ws;
  }

  lemma {:induction false} NoneLive(ws: seq<Worker>)
    ensures Live(ws) == 0 <==> forall w :: 0 <= w < |ws| ==> ws[w] == Exited
  {
    if ws != [] {
      NoneLive(ws[..|ws| - 1]);
    }
  }

  // ----- The invariant

  /** `id` is pending exactly if it is queued, held by a worker or being submitted, and only once. */
  ghost predicate PendingExactly(p: Pool, id: string) {
    (if id in p.pending then 1 else 0) ==
    Count(p.jobs, id) + Holders(p.workers, id) + if p.lock == HeldBySubmit(id) then 1 else 0
  }

  /** Every dequeued job for `id` has been completed or is still held. */
  ghost predicate NoneLost(p: Pool, id: string) {
    Count(p.started, id) == Count(p.completed, id) + Holders(p.workers, id)
  }

  /** What every interleaving keeps: nothing is lost, duplicated or reordered, and both bounds hold. */
  ghost predicate Conserved(p: Pool) {
    && (forall id :: PendingExactly(p, id) && NoneLost(p, id))
    && p.accepted == p.started + p.jobs
    && |p.jobs| <= p.queueSize
    && |p.workers| <= p.count
  }

  /** How far Start and Stop have come, and what that implies. */
  ghost predicate Phased(p: Pool) {
    && p.waitGroup == Live(p.workers)
    && (p.lock == HeldByStart <==> p.start == Spawning)
    && (p.start in {StartNotCalled, StartEntered} ==> p.workers == [])
    && (p.stopped <==> p.stop !in {StopNotCalled, StopEntered})
    && (p.stopped ==> p.lock == Free)
    && (p.stop in {StopCancelled, StopReturned} ==> p.ctxDone)
    && (p.stop == StopReturned ==> p.waitGroup == 0)
  }

  ghost predicate Inv(p: Pool) {
    Conserved(p) && Phased(p)
  }

  predicate MovesWorker(s: Step) {
    s.SubmitHandOff? || s.WorkerCheck? || s.WorkerQuit? || s.WorkerTake? || s.WorkerReturn? || s.WorkerComplete?
  }

  lemma WorkerStepKeepsPhased(p: Pool, s: Step)
    requires Phased(p) && Enabled(p, s) && (s == Spawn || MovesWorker(s))
    ensures Phased(Next(p, s))
  {
    hide Live;
    if s == Spawn {
      AddIdleWorker(p.workers);
    } else {
      UpdateLive(p.workers, s.w, Next(p, s).workers[s.w]);
      NoneLive(p.workers);
    }
  }

  lemma StepKeepsPhased(p: Pool, s: Step)
    requires Phased(p) && Enabled(p, s)
    ensures Phased(Next(p, s))
  {
    if s == Spawn || MovesWorker(s) {
      hide Phased, Next, Enabled;
      WorkerStepKeepsPhased(p, s);
    } else {
      hide Live;
    }
  }

  /** The bookkeeping of one id over one step. */
  lemma StepKeepsId(p: Pool, s: Step, id: string)
    requires Enabled(p, s) && (p.lock == HeldByStart <==> p.start == Spawning)
    requires PendingExactly(p, id) && NoneLost(p, id)
    ensures PendingExactly(Next(p, s), id) && NoneLost(Next(p, s), id)
  {
    hide Count, Holders, Live;
    var q := Next(p, s);
    if s == Spawn {
      AddIdleWorker(p.workers);
    } else if MovesWorker(s) {
      UpdateHolders(p.workers, s.w, q.workers[s.w], id);
    }
    match s {
      case SubmitSend => CountAppend(p.jobs, p.lock.id, id);
      case SubmitHandOff(_) => CountAppend(p.started, p.lock.id, id);
      case WorkerTake(_) => CountAppend(p.started, p.jobs[0], id); CountTail(p.jobs, id);
      case WorkerComplete(w) => CountAppend(p.completed, p.workers[w].id, id);
      case _ =>
    }
  }

  /** Jobs start in the order they were accepted, and the queue and the workers stay within bounds. */
  lemma StepKeepsBounds(p: Pool, s: Step)
    requires Enabled(p, s) && p.accepted == p.started + p.jobs && |p.jobs| <= p.queueSize && |p.workers| <= p.count
    ensures var q := Next(p, s); q.accepted == q.started + q.jobs && |q.jobs| <= q.queueSize && |q.workers| <= q.count
  {
  }

  lemma StepKeepsInv(p: Pool, s: Step)
    requires Inv(p) && Enabled(p, s)
    ensures Inv(Next(p, s))
  {
    hide PendingExactly, NoneLost, Next, Enabled;
    StepKeepsPhased(p, s);
    StepKeepsBounds(p, s);
    forall id ensures PendingExactly(Next(p, s), id) && NoneLost(Next(p, s), id) {
      StepKeepsId(p, s, id);
    }
  }

  lemma {:induction false} RunKeepsInv(p: Pool, steps: seq<Step>, q: Pool)
    requires Inv(p) && Run(p, steps, q)
    ensures Inv(q) && q.count == p.count && q.queueSize == p.queueSize
    decreases |steps|
  {
    if steps != [] {
      StepKeepsInv(p, steps[0]);
      RunKeepsInv(Next(p, steps[0]), steps[1..], q);
    }
  }

  lemma {:induction false} CountIsMembership(xs: seq<string>, id: string)
    ensures Count(xs, id) > 0 <==> id in xs
  {
    if xs != [] {
      CountIsMembership(xs[..|xs| - 1], id);
      assert xs == xs[..|xs| - 1] + [xs[|xs| - 1]];
    }
  }

  lemma {:induction false} HoldersIsExistence(ws: seq<Worker>, id: string)
    ensures Holders(ws, id) > 0 <==> exists w :: 0 <= w < |ws| && Holds(ws[w], id)
  {
    if ws != [] {
      HoldersIsExistence(ws[..|ws| - 1], id);
    }
  }

  /**
   In every interleaving, the queue and the set of workers stay within their bounds,
   jobs start in the order they were accepted, and for every id: it is pending exactly
   while it is queued, held or being submitted, at most one job for it exists at a time,
   and its accepted jobs are those queued, held and completed.
   */
  lemma PoolConservation(count: nat, queueSize: nat, steps: seq<Step>, p: Pool, id: string)
    requires Run(NewPool(count, queueSize), steps, p)
    ensures |p.jobs| <= queueSize && |p.workers| <= count
    ensures p.accepted == p.started + p.jobs
    ensures id in p.pending <==> id in p.jobs || (exists w :: 0 <= w < |p.workers| && Holds(p.workers[w], id))
                                 || p.lock == HeldBySubmit(id)
    ensures Count(p.jobs, id) + Holders(p.workers, id) <= 1
    ensures Count(p.accepted, id) == Count(p.jobs, id) + Holders(p.workers, id) + Count(p.completed, id)
  {
    assert forall i :: PendingExactly(NewPool(count, queueSize), i) && NoneLost(NewPool(count, queueSize), i);
    RunKeepsInv(NewPool(count, queueSize), steps, p);
    assert PendingExactly(p, id) && NoneLost(p, id);
    CountIsMembership(p.jobs, id);
    HoldersIsExistence(p.workers, id);
    CountConcat(p.started, p.jobs, id);
  }

  lemma {:induction false} CountConcat(xs: seq<string>, ys: seq<string>, id: string)
    ensures Count(xs + ys, id) == Count(xs, id) + Count(ys, id)
  {
    if ys == [] {
      assert xs + ys == xs;
    } else {
      var n := |ys| - 1;
      CountConcat(xs, ys[..n], id);
      assert (xs + ys)[..|xs| + n] == xs + ys[..n];
    }
  }

  // ----- Stopping

  /** Once Stop has marked the pool, no step accepts a job or spawns a worker. */
  lemma StepAfterMark(p: Pool, s: Step)
    requires Inv(p) && p.stopped && Enabled(p, s)
    ensures Next(p, s).stopped && Next(p, s).accepted == p.accepted
    ensures |Next(p, s).workers| == |p.workers|
    ensures p.stop == StopReturned ==>
              Next(p, s).stop == StopReturned && Next(p, s).started == p.started && Next(p, s).workers == p.workers
    ensures !s.SubmitAdmit? && !s.SubmitSend? && !s.SubmitHandOff?
  {
    if p.stop == StopReturned {
      NoneLive(p.workers);
    }
  }

  lemma {:induction false} NothingAfterStop(p: Pool, steps: seq<Step>, q: Pool)
    requires Inv(p) && p.stop == StopReturned && Run(p, steps, q)
    ensures q.stop == StopReturned && q.accepted == p.accepted && q.started == p.started
    ensures forall w :: 0 <= w < |q.workers| ==> q.workers[w] == Exited
    ensures forall i :: 0 <= i < |steps| ==> !steps[i].SubmitAdmit?
    decreases |steps|
  {
    NoneLive(p.workers);
    if steps != [] {
      StepAfterMark(p, steps[0]);
      StepKeepsInv(p, steps[0]);
      NothingAfterStop(Next(p, steps[0]), steps[1..], q);
    }
  }

  /**
   Once Stop has returned, whatever Start, Submit and the workers were doing: no job is
   running, none ever starts, no Submit is ever accepted, and what was accepted but not
   completed is still in the queue.
   */
  lemma StopIsFinal(count: nat, queueSize: nat, before: seq<Step>, p: Pool, after: seq<Step>, q: Pool)
    requires Run(NewPool(count, queueSize), before, p) && p.stop == StopReturned
    requires Run(p, after, q)
    ensures forall w :: 0 <= w < |q.workers| ==> q.workers[w] == Exited
    ensures q.started == p.started && q.accepted == p.accepted && q.jobs == p.jobs
    ensures forall i :: 0 <= i < |after| ==> !after[i].SubmitAdmit?
    ensures forall id :: Count(q.started, id) == Count(q.completed, id)
  {
    assert forall i :: PendingExactly(NewPool(count, queueSize), i) && NoneLost(NewPool(count, queueSize), i);
    RunKeepsInv(NewPool(count, queueSize), before, p);
    NothingAfterStop(p, after, q);
    RunKeepsInv(p, after, q);
    forall id ensures Count(q.started, id) == Count(q.completed, id) {
      assert NoneLost(q, id);
      HoldersIsExistence(q.workers, id);
    }
    assert p.jobs == p.accepted[|p.started|..] && q.jobs == q.accepted[|q.started|..];
  }

  /** The steps a worker, or Stop itself, takes on its own: what wg.Wait is waiting for. */
  predicate PoolStep(s: Step) {
    s.WorkerCheck? || s.WorkerQuit? || s.WorkerTake? || s.WorkerReturn? || s.WorkerComplete? || s.StopReturn?
  }

  ghost function Rank(w: Worker): nat {
    match w
    case Running(_) => 4
    case Finishing(_) => 3
    case Checking => 2
    case Selecting => 2
    case Exited => 0
  }

  ghost function Ranks(ws: seq<Worker>): nat {
    if ws == [] then 0 else Ranks(ws[..|ws| - 1]) + Rank(ws[|ws| - 1])
  }

  lemma {:induction false} UpdateRanks(ws: seq<Worker>, w: nat, state: Worker)
    requires w < |ws|
    ensures Ranks(ws[w := state]) + Rank(ws[w]) == Ranks(ws) + Rank(state)
  {
    var n := |ws| - 1;
    if w < n {
      UpdateRanks(ws[..n], w, state);
      assert ws[w := state][..n] == ws[..n][w := state];
    } else {
      assert ws[w := state][..n] == ws[..n];
    }
  }

  /** Bounds the pool's own remaining steps once Stop has cancelled the context. */
  ghost function Remaining(p: Pool): nat {
    3 * |p.jobs| + Ranks(p.workers) + if p.stop == StopReturned then 0 else 1
  }

  /** A waiting Stop is never stuck: some worker can move, or Stop can return. */
  lemma StopIsNeverStuck(p: Pool)
    requires Inv(p) && p.stop == StopCancelled
    ensures exists s :: PoolStep(s) && Enabled(p, s)
  {
    NoneLive(p.workers);
    if p.waitGroup == 0 {
      assert Enabled(p, StopReturn) && PoolStep(StopReturn);
    } else {
      var w: nat :| w < |p.workers| && p.workers[w] != Exited;
      var s := match p.workers[w]
        case Checking => WorkerCheck(w)
        case Selecting => WorkerQuit(w)
        case Running(_) => WorkerReturn(w)
        case _ => WorkerComplete(w);
      assert PoolStep(s) && Enabled(p, s);
    }
  }

  /** The steps that let go of the mutex, and those Stop takes up to the cancellation. */
  predicate ReleaseStep(s: Step) {
    s.Spawn? || s.StartUnlock? || s.SubmitSend? || s.SubmitHandOff? || s.SubmitCancelled? || s.SubmitFull?
  }

  /** How many more steps the holder of the mutex takes. */
  ghost function Holding(p: Pool): int {
    match p.lock
    case Free => 0
    case HeldByStart => p.count - |p.workers| + 1
    case HeldBySubmit(_) => 1
  }

  /**
   A Stop that has not cancelled yet is not stuck either: it can go on, or whoever holds the
   mutex can, and holds it for a bounded number of its own steps.
   */
  lemma StopGetsThrough(p: Pool)
    requires Inv(p) && p.stop in {StopEntered, StopMarked}
    ensures Enabled(p, StopMark) || Enabled(p, StopCancel) || exists s :: ReleaseStep(s) && Enabled(p, s)
    ensures forall s :: ReleaseStep(s) && Enabled(p, s) ==> 0 <= Holding(Next(p, s)) < Holding(p)
  {
    forall s | ReleaseStep(s) && Enabled(p, s) ensures 0 <= Holding(Next(p, s)) < Holding(p) {
      ReleaseShrinks(p, s);
    }
    if p.lock != Free {
      var s := HolderMoves(p);
    }
    hide Conserved, Next, Holding, ReleaseStep;
  }

  lemma ReleaseShrinks(p: Pool, s: Step)
    requires Inv(p) && ReleaseStep(s) && Enabled(p, s)
    ensures 0 <= Holding(Next(p, s)) < Holding(p)
  {
    hide Conserved, Live;
    ConservedBounds(p);
  }

  lemma HolderMoves(p: Pool) returns (s: Step)
    requires Inv(p) && p.lock != Free
    ensures ReleaseStep(s) && Enabled(p, s)
  {
    hide Conserved, Live;
    ConservedBounds(p);
    if p.lock == HeldByStart {
      s := if |p.workers| < p.count then Spawn else StartUnlock;
    } else {
      s := if p.ctxDone then SubmitCancelled else if |p.jobs| < p.queueSize then SubmitSend else SubmitFull;
      if s == SubmitFull && p.jobs == [] && SomeWaiting(p) {
        var w :| 0 <= w < |p.workers| && p.workers[w] == Selecting;
        s := SubmitHandOff(w);
      }
    }
  }

  lemma ConservedBounds(p: Pool)
    requires Conserved(p)
    ensures |p.jobs| <= p.queueSize && |p.workers| <= p.count
  {
  }

  /** No step of anybody else keeps the mutex held for longer. */
  lemma HoldingOnlyShrinks(p: Pool, s: Step)
    requires Inv(p) && Enabled(p, s) && p.lock != Free
    ensures Holding(Next(p, s)) <= Holding(p)
  {
    hide Conserved, Live;
  }

  lemma StepAfterCancel(p: Pool, s: Step)
    requires Inv(p) && p.stop in {StopCancelled, StopReturned} && Enabled(p, s)
    ensures Next(p, s).stop in {StopCancelled, StopReturned}
    ensures if PoolStep(s) then Remaining(Next(p, s)) < Remaining(p) else Remaining(Next(p, s)) == Remaining(p)
  {
    if MovesWorker(s) {
      UpdateRanks(p.workers, s.w, Next(p, s).workers[s.w]);
      NoneLive(p.workers);
    }
  }

  ghost function PoolSteps(steps: seq<Step>): nat {
    if steps == [] then 0 else (if PoolStep(steps[0]) then 1 else 0) + PoolSteps(steps[1..])
  }

  /**
   Stop terminates under every schedule: after the context is cancelled, the workers can
   take only a bounded number of further steps, however select chooses and whatever other
   callers do, and until Stop has returned one of those steps is always possible.
   */
  lemma {:induction false} StopTerminates(p: Pool, steps: seq<Step>, q: Pool)
    requires Inv(p) && p.stop in {StopCancelled, StopReturned}
    requires Run(p, steps, q)
    ensures PoolSteps(steps) + Remaining(q) <= Remaining(p)
    ensures q.stop == StopReturned || exists s :: PoolStep(s) && Enabled(q, s)
    decreases |steps|
  {
    if steps == [] {
      if p.stop == StopCancelled {
        StopIsNeverStuck(p);
      }
    } else {
      StepAfterCancel(p, steps[0]);
      StepKeepsInv(p, steps[0]);
      StopTerminates(Next(p, steps[0]), steps[1..], q);
    }
  }

  // ----- The mutable pool

  lemma {:induction false} RunSnoc(p: Pool, steps: seq<Step>, q: Pool, s: Step)
    requires Run(p, steps, q) && Enabled(q, s)
    ensures Run(p, steps + [s], Next(q, s))
    decreases |steps|
  {
    if steps == [] {
      assert (steps + [s])[1..] == [];
    } else {
      RunSnoc(Next(p, steps[0]), steps[1..], q, s);
      assert (steps + [s])[1..] == steps[1..] + [s];
    }
  }

  lemma RunNothing(p: Pool)
    ensures Run(p, [], p)
  {
  }

  lemma StartTakesLock(p: Pool)
    requires p.start == StartNotCalled && p.lock == Free
    ensures Run(p, [StartEnter, StartLock],
                if p.stopped then p.(start := StartDone) else p.(start := Spawning, lock := HeldByStart))
  {
    assert Run(Next(p, StartEnter), [StartLock], Next(Next(p, StartEnter), StartLock));
  }

  lemma RunSpawn(p: Pool, steps: seq<Step>, q: Pool)
    requires Run(p, steps, q) && q.start == Spawning && |q.workers| < q.count
    ensures Run(p, steps + [Spawn], q.(waitGroup := q.waitGroup + 1, workers := q.workers + [Checking]))
  {
    RunSnoc(p, steps, q, Spawn);
  }

  lemma RunStartUnlock(p: Pool, steps: seq<Step>, q: Pool)
    requires Run(p, steps, q) && q.start == Spawning && |q.workers| == q.count
    ensures Run(p, steps + [StartUnlock], q.(start := StartDone, lock := Free))
  {
    RunSnoc(p, steps, q, StartUnlock);
  }

  lemma AdmitAndSend(p: Pool, id: string)
    requires Enabled(p, SubmitAdmit(id)) && |p.jobs| < p.queueSize
    ensures Run(p, [SubmitAdmit(id), SubmitSend],
                p.(pending := p.pending + {id}, jobs := p.jobs + [id], accepted := p.accepted + [id]))
  {
    RunTwo(p, SubmitAdmit(id), SubmitSend);
  }

  lemma AdmitAndHandOff(p: Pool, id: string, w: nat)
    requires Enabled(p, SubmitAdmit(id)) && HandsOff(p, w)
    ensures Run(p, [SubmitAdmit(id), SubmitHandOff(w)],
                p.(pending := p.pending + {id}, workers := p.workers[w := Running(id)],
                   accepted := p.accepted + [id], started := p.started + [id]))
  {
    RunTwo(p, SubmitAdmit(id), SubmitHandOff(w));
  }

  lemma RunTwo(p: Pool, s: Step, t: Step)
    requires Enabled(p, s) && Enabled(Next(p, s), t)
    ensures Run(p, [s, t], Next(Next(p, s), t))
  {
    hide Next, Enabled;
    assert Run(Next(p, s), [t], Next(Next(p, s), t));
  }

  /** The channel has no job, and worker `w` waits for one: a sender hands its job over. */
  predicate HandsOff(p: Pool, w: nat) {
    p.jobs == [] && WorkerIs(p, w, Selecting)
  }

  /**
   The pool object.  Its methods are the mutex sections of the code run without
   interruption; each is a run of the protocol above, which also interleaves them.
   */
  class BoundedWorkerPool {
    const count: nat
    const queueSize: nat
    var mu: Lock
    var stopped: bool
    var ctxDone: bool
    var waitGroup: int
    var pending: set<string>
    var jobs: seq<string>
    var startOnce: StartPhase
    var stopOnce: StopPhase
    var workers: seq<Worker>
    ghost var accepted: seq<string>
    ghost var started: seq<string>
    ghost var completed: seq<string>

    ghost function View(): Pool
      reads this
    {
      Pool(count, queueSize, stopped, ctxDone, waitGroup, pending, jobs, mu, startOnce, stopOnce, workers,
           accepted, started, completed)
    }

    constructor (count: nat, queueSize: nat)
      ensures View() == NewPool(count, queueSize)
    {
      this.count, this.queueSize := count, queueSize;
      mu, stopped, ctxDone, waitGroup, pending, jobs := Free, false, false, 0, {}, [];
      startOnce, stopOnce, workers := StartNotCalled, StopNotCalled, [];
      accepted, started, completed := [], [], [];
    }

    /** Spawns `count` workers on the first call, unless the pool is already stopped. */
    method Start() returns (ghost trace: seq<Step>)
      requires mu == Free && (startOnce == StartNotCalled ==> workers == [])
      requires startOnce in {StartNotCalled, StartDone}
      modifies this
      ensures mu == Free && startOnce == StartDone && Run(old(View()), trace, View())
      ensures if old(startOnce) == StartNotCalled && !old(stopped)
              then workers == seq(count, _ => Checking) && waitGroup == old(waitGroup) + count
              else workers == old(workers) && waitGroup == old(waitGroup)
      ensures pending == old(pending) && jobs == old(jobs) && stopped == old(stopped) && ctxDone == old(ctxDone)
    {
      hide Run, Next;
      trace := [];
      if startOnce != StartNotCalled {
        RunNothing(View());
        return;
      }
      StartTakesLock(View());
      trace := [StartEnter, StartLock];
      startOnce := StartEntered;
      if stopped {
        startOnce := StartDone;
        return;
      }
      mu, startOnce := HeldByStart, Spawning;
      for i := 0 to count
        invariant View() == old(View()).(start := Spawning, lock := HeldByStart, workers := seq(i, _ => Checking),
                                         waitGroup := old(waitGroup) + i)
        invariant Run(old(View()), trace, View())
      {
        RunSpawn(old(View()), trace, View());
        trace := trace + [Spawn];
        waitGroup := waitGroup + 1;
        workers := workers + [Checking];
      }
      RunStartUnlock(old(View()), trace, View());
      trace := trace + [StartUnlock];
      mu, startOnce := Free, StartDone;
    }

    /** What Stop does before it waits: refuse new work, then cancel the context. */
    method BeginStop()
      requires mu == Free && stopOnce == StopNotCalled
      modifies this
      ensures stopped && ctxDone
      ensures View() == old(View()).(stopped := true, ctxDone := true, stop := StopCancelled)
      ensures Run(old(View()), [StopEnter, StopMark, StopCancel], View())
    {
      stopped := true;
      ctxDone := true;
      stopOnce := StopCancelled;
      assert Run(Next(Next(old(View()), StopEnter), StopMark), [StopCancel], View());
      assert Run(Next(old(View()), StopEnter), [StopMark, StopCancel], View());
    }

    /**
     `doneFirst` is the choice select makes when both the context and the channel are ready,
     and `w` the receiver it picks if workers are waiting.  A refused Submit leaves no trace;
     an accepted one marks the id pending and hands the job to the receiver or queues it.
     */
    method Submit(id: string, doneFirst: bool, w: nat) returns (ok: bool)
      requires mu == Free
      requires (exists v :: WorkerIs(View(), v, Selecting)) ==> WorkerIs(View(), w, Selecting)
      modifies this
      ensures ok <==>
                && id != "" && !stopped && id !in old(pending) && !(ctxDone && doneFirst)
                && (|old(jobs)| < queueSize || (old(jobs) == [] && old(WorkerIs(View(), w, Selecting))))
      ensures ok && !HandsOff(old(View()), w) ==>
                && View() == old(View()).(pending := old(pending) + {id}, jobs := old(jobs) + [id], accepted := old(accepted) + [id])
                && Run(old(View()), [SubmitAdmit(id), SubmitSend], View())
      ensures ok && HandsOff(old(View()), w) ==>
                && View() == old(View()).(pending := old(pending) + {id}, workers := old(workers)[w := Running(id)],
                                          accepted := old(accepted) + [id], started := old(started) + [id])
                && Run(old(View()), [SubmitAdmit(id), SubmitHandOff(w)], View())
      ensures !ok ==> View() == old(View())
    {
      hide Run, Next;
      if id == "" {
        return false;
      }
      if stopped {
        return false;
      }
      if id in pending {
        return false;
      }
      pending := pending + {id};
      var handsOff := jobs == [] && w < |workers| && workers[w] == Selecting;
      if ctxDone && (doneFirst || (|jobs| >= queueSize && !handsOff)) {
        pending := pending - {id};
        assert pending == old(pending);
        return false;
      }
      if handsOff {
        workers := workers[w := Running(id)];
        accepted := accepted + [id];
        started := started + [id];
        AdmitAndHandOff(old(View()), id, w);
        return true;
      }
      if |jobs| < queueSize {
        jobs := jobs + [id];
        accepted := accepted + [id];
        AdmitAndSend(old(View()), id);
        return true;
      }
      pending := pending - {id};
      assert pending == old(pending);
      return false;
    }

    /** A waiting worker, if there is one. */
    method Receiver() returns (w: nat)
      ensures (exists v :: WorkerIs(View(), v, Selecting)) ==> WorkerIs(View(), w, Selecting)
    {
      for k := 0 to |workers|
        invariant forall v :: 0 <= v < k ==> workers[v] != Selecting
      {
        if workers[k] == Selecting {
          return k;
        }
      }
      return |workers|;
    }

    /** The end of one turn of a worker's loop. */
    method Complete(w: nat)
      requires Enabled(View(), WorkerComplete(w))
      modifies this
      ensures View() == Next(old(View()), WorkerComplete(w))
      ensures old(Inv(View())) ==> Inv(View()) && old(workers)[w].id !in pending
    {
      var id := workers[w].id;
      if Inv(View()) {
        StepKeepsInv(View(), WorkerComplete(w));
      }
      pending := pending - {id};
      completed := completed + [id];
      workers := workers[w := Checking];
    }
  }
}
