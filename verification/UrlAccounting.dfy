/**
 Which URLs are registered over whole runs (applyUpdate and the registration of metrics in
 internal/proxy/runtime/runtime.go): the published ones, and those that an update left
 behind by moving a backend to another URL.
 */
module UrlAccounting {
  import opened Config
  import opened RuntimeModel
  import ServiceModel
  import HealthStatus

  function Urls(p: Published): set<string> {
    BackendUrls(p.config.backends)
  }

  /** The URLs of the ids that are gone in the next state. */
  function Gone(prev: Published, next: Published): set<string> {
    RemovedUrls(prev.config.backends, BackendIds(next.config.backends))
  }

  /** State `k` was the last to publish `url`, and its owner was kept by the next one. */
  ghost predicate LeftAt(history: seq<Published>, k: nat, url: string) {
    && k + 1 < |history| && url in Urls(history[k]) && url !in Gone(history[k], history[k + 1])
    && forall j :: k < j < |history| ==> url !in Urls(history[j])
  }

  /** An update dropped `url` without removing its owner, and no later state has taken it again. */
  ghost predicate LeftBehind(history: seq<Published>, url: string) {
    exists k: nat :: LeftAt(history, k, url)
  }

  ghost predicate Expected(history: seq<Published>, url: string)
    requires history != []
  {
    url in Urls(history[|history| - 1]) || LeftBehind(history, url)
  }

  /** What is registered in each phase. */
  ghost predicate Accounted(s: System) {
    && s.history != []
    && match s.phase
       case Registering(next, i) =>
         && i <= |next.config.backends|
         && forall u :: u in s.metrics <==> Expected(s.history, u) || u in BackendUrls(next.config.backends[..i])
       case Deregistering(prev, i) =>
         var n := |s.history| - 1;
         && n > 0 && prev == s.history[n - 1] && i <= |prev.config.backends|
         && forall u :: u in s.metrics <==>
              (Expected(s.history[..n], u) || u in Urls(s.history[n])) &&
              u !in RemovedUrls(prev.config.backends[..i], BackendIds(s.history[n].config.backends))
       case _ => forall u :: u in s.metrics <==> Expected(s.history, u)
  }

  /** The URLs of removed ids were published before, and are not published any more. */
  lemma GoneIsDropped(prev: Published, next: Published, url: string)
    requires SafeRemoval(prev.config, next.config) && url in Gone(prev, next)
    ensures url in Urls(prev) && url !in Urls(next)
  {
    RemovedUrlsMember(prev.config.backends, BackendIds(next.config.backends), url);
    BackendUrlsMember(prev.config.backends, url);
    hide BackendUrls, BackendIds, RemovedUrls;
  }

  /** One publication: registration and deregistration keep exactly the expected URLs. */
  lemma ExpectedNext(front: seq<Published>, next: Published, url: string)
    requires front != [] && SafeRemoval(front[|front| - 1].config, next.config)
    ensures Expected(front + [next], url) <==>
            (Expected(front, url) || url in Urls(next)) && url !in Gone(front[|front| - 1], next)
  {
    hide Urls, Gone, SafeRemoval;
    var n := |front| - 1;
    var history := front + [next];
    if url in Gone(front[n], next) {
      GoneIsDropped(front[n], next, url);
    }
    if LeftBehind(history, url) {
      var k: nat :| LeftAt(history, k, url);
      if k < n {
        assert forall j :: k < j < |front| ==> history[j] == front[j];
        assert LeftAt(front, k, url);
        assert url !in Urls(history[n]);
      }
    }
    if Expected(front, url) && url !in Urls(next) && url !in Gone(front[n], next) {
      if url in Urls(front[n]) {
        assert LeftAt(history, n, url);
      } else {
        var k: nat :| LeftAt(front, k, url);
        assert LeftAt(history, k, url);
      }
    }
  }

  lemma RegisterKeepsAccounted(text: Text, s: System)
    requires Accounted(s) && Enabled(s, Register)
    ensures Accounted(Next(text, s, Register))
  {
    hide Expected;
    var bs, i := s.phase.next.config.backends, s.phase.i;
    assert bs[..i + 1][..i] == bs[..i];
    assert BackendUrls(bs[..i + 1]) == BackendUrls(bs[..i]) + if bs[i].Some? then {bs[i].value.url} else {};
    hide BackendUrls;
  }

  lemma SwapKeepsAccounted(text: Text, s: System)
    requires Accounted(s) && Enabled(s, Swap)
    ensures Accounted(Next(text, s, Swap))
  {
    hide Expected, BackendUrls, BackendIds;
    var next := s.phase.next;
    assert next.config.backends[..|next.config.backends|] == next.config.backends;
    assert (s.history + [next])[..|s.history|] == s.history;
    assert Current(s).config.backends[..0] == [];
  }

  lemma DeregisterKeepsAccounted(text: Text, s: System)
    requires Accounted(s) && Enabled(s, DeregisterOne)
    ensures Accounted(Next(text, s, DeregisterOne))
  {
    hide Expected, BackendUrls, BackendIds;
    var bs, i, ids := s.phase.prev.config.backends, s.phase.i, BackendIds(Current(s).config.backends);
    assert bs[..i + 1][..i] == bs[..i];
    assert RemovedUrls(bs[..i + 1], ids) == RemovedUrls(bs[..i], ids) + if bs[i].Some? && bs[i].value.id !in ids then {bs[i].value.url} else {};
    hide RemovedUrls;
  }

  lemma FinishKeepsAccounted(text: Text, s: System)
    requires Registered(s) && Accounted(s) && Enabled(s, Finish)
    ensures Accounted(Next(text, s, Finish))
  {
    hide Expected, BackendUrls, BackendIds, RemovedUrls, SafeRemoval;
    var n := |s.history| - 1;
    var bs := s.phase.prev.config.backends;
    assert bs[..|bs|] == bs && s.history == s.history[..n] + [s.history[n]];
    forall u ensures u in s.metrics <==> Expected(s.history, u) {
      ExpectedNext(s.history[..n], s.history[n], u);
    }
  }

  lemma OthersKeepAccounted(text: Text, s: System, e: Event)
    requires Accounted(s) && Enabled(s, e) && !e.Register? && !e.Swap? && !e.DeregisterOne? && !e.Finish?
    ensures Accounted(Next(text, s, e))
  {
    hide ServiceModel.Step, Reconciled, MarkOne, HealthStatus.Applied, SetStatus, Expected, BackendIds, RemovedUrls;
    if e.Mark? {
      assert s.phase.next.config.backends[..0] == [];
    } else {
      hide BackendUrls;
    }
  }

  lemma StepKeepsAccounted(text: Text, s: System, e: Event)
    requires Registered(s) && Accounted(s) && Enabled(s, e)
    ensures Accounted(Next(text, s, e))
  {
    hide Next, Enabled, Registered, Accounted;
    match e {
      case Register => RegisterKeepsAccounted(text, s);
      case Swap => SwapKeepsAccounted(text, s);
      case DeregisterOne => DeregisterKeepsAccounted(text, s);
      case Finish => FinishKeepsAccounted(text, s);
      case _ => OthersKeepAccounted(text, s, e);
    }
  }

  lemma {:induction false} RunKeepsAccounted(text: Text, s: System, events: seq<Event>, s': System)
    requires Inv(text, s) && Accounted(s) && Run(text, s, events, s')
    ensures Accounted(s')
    decreases |events|
  {
    hide Structured, Registered, Linked, Available, Next, Accounted;
    if events != [] {
      StepKeepsAccounted(text, s, events[0]);
      StepKeepsInv(text, s, events[0]);
      RunKeepsAccounted(text, Next(text, s, events[0]), events[1..], s');
    }
  }

  lemma StartIsAccounted(c: FullConfig, file: FullConfig)
    ensures Accounted(Start(c, file))
  {
    hide Reconciled, MarkAll, BackendUrls;
  }

  lemma ReachableAccounted(text: Text, file: FullConfig, events: seq<Event>, s: System)
    requires Reachable(text, file, events, s)
    ensures Accounted(s)
  {
    hide Inv, Start, Run, ServiceModel.Load, Accounted;
    var c := ServiceModel.Load(text, file).value;
    StartIsInv(text, c, file);
    StartIsAccounted(c, file);
    RunKeepsAccounted(text, Start(c, file), events, s);
  }

  /**
   In every reachable state, whenever no update is publishing, the registered URLs are the
   published ones and those an update left behind; so the two are equal exactly if no
   update has left behind a URL that is still unclaimed.
   */
  lemma RegisteredUrlsExactly(text: Text, file: FullConfig, events: seq<Event>, s: System)
    requires Reachable(text, file, events, s) && !s.phase.Registering? && !s.phase.Deregistering?
    ensures s.history != []
    ensures forall u :: u in s.metrics <==> u in BackendUrls(Current(s).config.backends) || LeftBehind(s.history, u)
    ensures s.metrics == BackendUrls(Current(s).config.backends) <==> forall u :: !LeftBehind(s.history, u)
  {
    hide Reachable, BackendUrls, Gone;
    ReachableAccounted(text, file, events, s);
    forall u | LeftBehind(s.history, u) ensures u !in Urls(Current(s)) {
      var k: nat :| LeftAt(s.history, k, u);
    }
  }
}
