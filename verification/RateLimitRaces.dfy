/**
 Allow in its two parts (getBucket and the section under the bucket's lock in
 internal/ratelimit/ratelimit.go), which a sweep can come between: a caller may then take
 from a bucket that is no longer in the table.

 Buckets are named by their index in `buckets`; `held` maps a caller to the bucket it has
 looked up and not used yet.
 */
module RateLimitRaces {
  import opened RateLimit

  datatype Handle = Handle(key: string, bucket: nat)

  datatype System = System(rate: real, capacity: real, buckets: seq<Bucket>, table: map<string, nat>, held: map<nat, Handle>)

  datatype Call = Lookup(t: nat, key: string, at: real) | Take(t: nat, at: real) | Evict(key: string, at: real)

  predicate Enabled(s: System, e: Call) {
    match e
    case Lookup(t, _, _) => t !in s.held
    case Take(t, _) => t in s.held && s.held[t].bucket < |s.buckets|
    case Evict(_, _) => true
  }

  /** The next state, and whether a call was granted. */
  function After(s: System, e: Call): (System, bool)
    requires Enabled(s, e)
  {
    match e
    case Lookup(t, key, at) =>
      if key in s.table then (s.(held := s.held[t := Handle(key, s.table[key])]), false)
      else (s.(buckets := s.buckets + [Bucket(s.capacity, s.capacity, s.rate, at)],
               table := s.table[key := |s.buckets|], held := s.held[t := Handle(key, |s.buckets|)]), false)
    case Take(t, at) =>
      var (b, ok) := Taken(s.buckets[s.held[t].bucket], at);
      (s.(buckets := s.buckets[s.held[t].bucket := b], held := s.held - {t}), ok)
    // A sweep visits one bucket after the other; takes can come between two visits, and here lookups too.
    case Evict(key, at) =>
      if key in s.table && s.table[key] < |s.buckets| && at - s.buckets[s.table[key]].lastCheck > IDLE_TTL
      then (s.(table := s.table - {key}), false) else (s, false)
  }

  /** The call takes from a bucket that has been evicted since it was looked up. */
  predicate Late(s: System, e: Call) {
    e.Take? && e.t in s.held && !(s.held[e.t].key in s.table && s.table[s.held[e.t].key] == s.held[e.t].bucket)
  }

  predicate TakesFor(s: System, e: Call, key: string) {
    e.Take? && e.t in s.held && s.held[e.t].key == key
  }

  /** `es` can be run from `s`, and the clock never goes backwards, starting from `now`. */
  predicate Runs(s: System, es: seq<Call>, now: real)
    decreases |es|
  {
    es == [] || (Enabled(s, es[0]) && now <= es[0].at && Runs(After(s, es[0]).0, es[1..], es[0].at))
  }

  /** How many calls for `key` are granted in the window (from, to]. */
  function GrantedIn(s: System, es: seq<Call>, now: real, key: string, from: real, to: real): nat
    requires Runs(s, es, now)
    decreases |es|
  {
    if es == [] then 0 else
      (if TakesFor(s, es[0], key) && After(s, es[0]).1 && from < es[0].at <= to then 1 else 0)
      + GrantedIn(After(s, es[0]).0, es[1..], es[0].at, key, from, to)
  }

  /** How many of the calls for `key` in the window are late. */
  function LateIn(s: System, es: seq<Call>, now: real, key: string, from: real, to: real): nat
    requires Runs(s, es, now)
    decreases |es|
  {
    if es == [] then 0 else
      (if TakesFor(s, es[0], key) && Late(s, es[0]) && from < es[0].at <= to then 1 else 0)
      + LateIn(After(s, es[0]).0, es[1..], es[0].at, key, from, to)
  }

  // ----- The table as a limiter

  function TableOf(s: System): Limiter {
    Limiter(s.rate, s.capacity, map key | key in s.table && s.table[key] < |s.buckets| :: s.buckets[s.table[key]])
  }

  ghost predicate Inv(s: System, now: real) {
    && s.rate >= 0.0 && s.capacity >= 0.0
    && (forall i :: 0 <= i < |s.buckets| ==> GoodBucket(TableOf(s), s.buckets[i], now))
    && (forall key :: key in s.table ==> s.table[key] < |s.buckets|)
    && (forall j, k :: j in s.table && k in s.table && j != k ==> s.table[j] != s.table[k])
    && (forall t :: t in s.held ==> s.held[t].bucket < |s.buckets|)
    && (forall t, k :: t in s.held && k in s.table && s.table[k] == s.held[t].bucket ==> k == s.held[t].key)
  }

  lemma InvIsGood(s: System, now: real)
    requires Inv(s, now)
    ensures Good(TableOf(s), now)
  {
  }

  lemma StepKeepsInv(s: System, e: Call, now: real)
    requires Inv(s, now) && Enabled(s, e) && now <= e.at
    ensures Inv(After(s, e).0, e.at)
  {
    hide Gain;
    if e.Take? {
      TakenIsGood(TableOf(s), s.buckets[s.held[e.t].bucket], now, e.at);
      hide Taken;
    }
  }

  lemma TakenIsGood(l: Limiter, b: Bucket, now: real, at: real)
    requires GoodBucket(l, b, now) && now <= at && l.rate >= 0.0
    ensures GoodBucket(l, Taken(b, at).0, at)
  {
    SplitGain(l.rate, b.lastCheck, at, at);
    hide Gain;
  }

  /** Looking a bucket up changes no level. */
  lemma LookupKeepsLevel(s: System, e: Call, now: real, key: string)
    requires Inv(s, now) && e.Lookup? && Enabled(s, e) && now <= e.at
    ensures Level(TableOf(After(s, e).0), key, e.at) == Level(TableOf(s), key, e.at)
  {
    SplitGain(s.rate, e.at, e.at, e.at);
    hide Gain;
  }

  /** A take is an access to the table, unless it is late: then the table does not notice. */
  lemma TakeInTable(s: System, e: Call, now: real)
    requires Inv(s, now) && e.Take? && Enabled(s, e)
    ensures var s', ok := After(s, e).0, After(s, e).1;
            if Late(s, e) then TableOf(s') == TableOf(s) else (TableOf(s'), ok) == AllowStep(TableOf(s), s.held[e.t].key, e.at)
  {
    hide Taken;
    var s' := After(s, e).0;
    if Late(s, e) {
      assert forall k :: k in s.table ==> s.table[k] != s.held[e.t].bucket;
      assert TableOf(s').buckets == TableOf(s).buckets;
    } else {
      assert TableOf(s').buckets == AllowStep(TableOf(s), s.held[e.t].key, e.at).0.buckets;
    }
  }

  /** Evicting one bucket changes no level when buckets refill within the idle time. */
  lemma EvictKeepsLevel(s: System, key: string, at: real, now: real, other: string)
    requires Inv(s, now) && now <= at && s.capacity <= Gain(IDLE_TTL, s.rate)
    ensures Level(TableOf(After(s, Evict(key, at)).0), other, at) == Level(TableOf(s), other, at)
  {
    InvIsGood(s, now);
    hide Good;
    GoodLater(TableOf(s), now, at);
    SweepKeepsLevel(TableOf(s), key, at);
    hide Gain, Refilled;
    var s' := After(s, Evict(key, at)).0;
    if other == key {
      assert BucketFor(TableOf(s'), key, at) == BucketFor(TableOf(s), key, at) ||
             BucketFor(TableOf(s'), key, at) == BucketFor(SweepStep(TableOf(s), at), key, at);
    } else {
      assert BucketFor(TableOf(s'), other, at) == BucketFor(TableOf(s), other, at);
    }
  }

  lemma StepSpends(s: System, e: Call, key: string, now: real)
    requires Inv(s, now) && Enabled(s, e) && now <= e.at && s.capacity <= Gain(IDLE_TTL, s.rate)
    ensures Level(TableOf(After(s, e).0), key, e.at)
            + (if TakesFor(s, e, key) && After(s, e).1 && !Late(s, e) then 1.0 else 0.0)
            <= Level(TableOf(s), key, now) + Gain(e.at - now, s.rate)
  {
    hide Gain, Level, Taken, Good, AllowStep;
    InvIsGood(s, now);
    LevelGrows(TableOf(s), key, now, e.at);
    GoodLater(TableOf(s), now, e.at);
    match e {
      case Lookup(_, _, _) => LookupKeepsLevel(s, e, now, key);
      case Evict(other, at) => EvictKeepsLevel(s, other, at, now, key);
      case Take(t, at) =>
        TakeInTable(s, e, now);
        AllowSpendsLevel(TableOf(s), s.held[t].key, at, key);
    }
  }

  lemma LevelGrows(l: Limiter, key: string, now: real, later: real)
    requires Good(l, now) && now <= later
    ensures Level(l, key, later) <= Level(l, key, now) + Gain(later - now, l.rate)
  {
    hide Gain;
    LevelGrown(l, key, now, later);
  }

  lemma {:induction false} NoneAfter(s: System, es: seq<Call>, key: string, now: real, from: real, to: real)
    requires Runs(s, es, now) && (es == [] || es[0].at > to)
    ensures GrantedIn(s, es, now, key, from, to) == 0
    decreases |es|
  {
    if es != [] {
      hide After;
      NoneAfter(After(s, es[0]).0, es[1..], key, es[0].at, from, to);
    }
  }

  lemma {:induction false} GrantedWithin(s: System, es: seq<Call>, key: string, now: real, from: real, to: real)
    requires Inv(s, now) && Runs(s, es, now) && now <= to && s.capacity <= Gain(IDLE_TTL, s.rate)
    ensures GrantedIn(s, es, now, key, from, to) as real
            <= Level(TableOf(s), key, now) + Gain(to - now, s.rate) + LateIn(s, es, now, key, from, to) as real
    decreases |es|
  {
    hide Gain, Level, After, Inv, Late, TakesFor;
    InvLevel(s, key, now);
    SplitGain(s.rate, now, now, to);
    if es == [] || es[0].at > to {
      NoneAfter(s, es, key, now, from, to);
    } else {
      var next := After(s, es[0]).0;
      StepKeepsInv(s, es[0], now);
      SameRates(s, es[0]);
      StepSpends(s, es[0], key, now);
      GrantedWithin(next, es[1..], key, es[0].at, from, to);
      SplitGain(s.rate, now, es[0].at, to);
    }
  }

  lemma SameRates(s: System, e: Call)
    requires Enabled(s, e)
    ensures After(s, e).0.rate == s.rate && After(s, e).0.capacity == s.capacity
  {
  }

  lemma InvLevel(s: System, key: string, now: real)
    requires Inv(s, now)
    ensures 0.0 <= Level(TableOf(s), key, now) <= s.capacity && s.rate >= 0.0
  {
    hide Level, Good;
    InvIsGood(s, now);
    GoodLater(TableOf(s), now, now);
  }

  lemma {:induction false} RacingWindow(s: System, es: seq<Call>, key: string, now: real, from: real, to: real)
    requires Inv(s, now) && Runs(s, es, now) && from <= to && s.capacity <= Gain(IDLE_TTL, s.rate)
    ensures GrantedIn(s, es, now, key, from, to) as real
            <= s.capacity + Gain(to - from, s.rate) + LateIn(s, es, now, key, from, to) as real
    decreases |es|
  {
    hide Gain, Level, After, Inv, Late, TakesFor;
    InvLevel(s, key, now);
    SplitGain(s.rate, from, from, to);
    if es == [] {
    } else if es[0].at <= from {
      StepKeepsInv(s, es[0], now);
      SameRates(s, es[0]);
      RacingWindow(After(s, es[0]).0, es[1..], key, es[0].at, from, to);
    } else if to < now {
      NoneAfter(s, es, key, now, from, to);
    } else if now <= from {
      RacingBoundFrom(s, es, key, now, from, to);
    } else {
      GrantedWithin(s, es, key, now, from, to);
      SplitGain(s.rate, from, now, to);
    }
  }

  /**
   Whatever sweeps come between the two parts of a call, a window (from, to] grants a key at
   most capacity + rate * (to - from) calls and one for every late call.
   */
  lemma RacingBound(s: System, es: seq<Call>, key: string, now: real, from: real, to: real)
    requires Inv(s, now) && Runs(s, es, now) && from <= to && s.capacity <= 600.0 * s.rate
    ensures GrantedIn(s, es, now, key, from, to) as real
            <= s.capacity + s.rate * (to - from) + LateIn(s, es, now, key, from, to) as real
  {
    GainIs(IDLE_TTL, s.rate);
    GainIs(to - from, s.rate);
    hide Gain, GrantedIn, LateIn, Inv;
    RacingWindow(s, es, key, now, from, to);
  }

  /** The run starts inside or before the window and its first call is inside. */
  lemma RacingBoundFrom(s: System, es: seq<Call>, key: string, now: real, from: real, to: real)
    requires Inv(s, now) && Runs(s, es, now) && now <= from <= to && s.capacity <= Gain(IDLE_TTL, s.rate)
    requires es != [] && from < es[0].at
    ensures GrantedIn(s, es, now, key, from, to) as real
            <= s.capacity + Gain(to - from, s.rate) + LateIn(s, es, now, key, from, to) as real
  {
    InvLater(s, now, from);
    assert Runs(s, es, from);
    SameCounts(s, es, key, now, from, to);
    hide Gain, Level, After, Inv;
    InvLevel(s, key, from);
    GrantedWithin(s, es, key, from, from, to);
  }

  lemma InvLater(s: System, now: real, later: real)
    requires Inv(s, now) && now <= later
    ensures Inv(s, later)
  {
  }

  lemma SameCounts(s: System, es: seq<Call>, key: string, now: real, from: real, to: real)
    requires Runs(s, es, now) && Runs(s, es, from)
    ensures GrantedIn(s, es, now, key, from, to) == GrantedIn(s, es, from, key, from, to)
    ensures LateIn(s, es, now, key, from, to) == LateIn(s, es, from, key, from, to)
  {
    hide After;
  }

  // ----- Exactly when the atomic bound survives the races

  function Fresh(rate: real, capacity: real): System {
    System(rate, capacity, [], map[], map[])
  }

  /** The promise of the atomic limiter, over every racing run from a fresh limiter and every window. */
  ghost predicate BoundsEveryRace(rate: real, capacity: nat) {
    forall es: seq<Call>, now: real, key: string, from: real, to: real
      {:trigger BoundedRace(Fresh(rate, capacity as real), es, now, key, from, to)} ::
      BoundedRace(Fresh(rate, capacity as real), es, now, key, from, to)
  }

  ghost predicate BoundedRace(s: System, es: seq<Call>, now: real, key: string, from: real, to: real) {
    Runs(s, es, now) && from <= to ==>
      GrantedIn(s, es, now, key, from, to) as real <= s.capacity + s.rate * (to - from)
  }

  /** Caller 0 holds an evicted full bucket, and the bucket in the table has `n` tokens. */
  function Evicted(rate: real, capacity: real, n: nat): System {
    System(rate, capacity, [Bucket(capacity, capacity, rate, 0.0), Bucket(n as real, capacity, rate, 601.0)],
           map["ip" := 1], map[0 := Handle("ip", 0)])
  }

  /** Caller 1 takes the `n` tokens of the bucket in the table, then caller 0 takes from its own. */
  function Drain(n: nat): seq<Call> {
    if n == 0 then [Take(0, 601.0)] else [Lookup(1, "ip", 601.0)] + ([Take(1, 601.0)] + Drain(n - 1))
  }

  /** At the same instant nothing is refilled. */
  lemma FullRefill(rate: real, capacity: real, tokens: real)
    requires 1.0 <= tokens <= capacity
    ensures Taken(Bucket(tokens, capacity, rate, 601.0), 601.0) == (Bucket(tokens - 1.0, capacity, rate, 601.0), true)
  {
  }

  lemma LookupThenTake(rate: real, capacity: real, n: nat)
    requires 0 < n && n as real <= capacity
    ensures var s := Evicted(rate, capacity, n);
            && Enabled(s, Lookup(1, "ip", 601.0))
            && var looked := After(s, Lookup(1, "ip", 601.0)).0;
               && Enabled(looked, Take(1, 601.0)) && TakesFor(looked, Take(1, 601.0), "ip")
               && After(looked, Take(1, 601.0)) == (Evicted(rate, capacity, n - 1), true)
  {
    var looked := After(Evicted(rate, capacity, n), Lookup(1, "ip", 601.0)).0;
    assert looked.held - {1} == map[0 := Handle("ip", 0)];
    FullRefill(rate, capacity, n as real);
    hide Taken;
    assert After(looked, Take(1, 601.0)).0.buckets == Evicted(rate, capacity, n - 1).buckets;
  }

  lemma LateTake(rate: real, capacity: real, n: nat)
    requires rate >= 0.0 && 1.0 <= capacity
    ensures var s := Evicted(rate, capacity, n);
            Enabled(s, Take(0, 601.0)) && TakesFor(s, Take(0, 601.0), "ip") && After(s, Take(0, 601.0)).1
  {
    assert Gain(601.0, rate) >= 0.0;
    hide Gain;
  }

  lemma {:induction false} DrainIsGranted(rate: real, capacity: real, n: nat, from: real)
    requires rate >= 0.0 && 1.0 <= capacity && n as real <= capacity && from < 601.0
    ensures Runs(Evicted(rate, capacity, n), Drain(n), 601.0)
    ensures GrantedIn(Evicted(rate, capacity, n), Drain(n), 601.0, "ip", from, 601.0) == n + 1
  {
    hide After, Enabled, TakesFor, Runs, GrantedIn, Evicted;
    var s := Evicted(rate, capacity, n);
    if n == 0 {
      LateTake(rate, capacity, n);
      NoCalls(After(s, Take(0, 601.0)).0, 601.0, from, 601.0);
      FirstCall(s, Take(0, 601.0), After(s, Take(0, 601.0)).0, [], 601.0, "ip", from, 601.0);
      assert [Take(0, 601.0)] + [] == Drain(0);
    } else {
      LookupThenTake(rate, capacity, n);
      DrainIsGranted(rate, capacity, n - 1, from);
      var looked := After(s, Lookup(1, "ip", 601.0)).0;
      FirstCall(looked, Take(1, 601.0), Evicted(rate, capacity, n - 1), Drain(n - 1), 601.0, "ip", from, 601.0);
      FirstCall(s, Lookup(1, "ip", 601.0), looked, [Take(1, 601.0)] + Drain(n - 1), 601.0, "ip", from, 601.0);
      LookupsAreNotGranted(s);
    }
  }

  lemma NoCalls(s: System, now: real, from: real, to: real)
    ensures Runs(s, [], now) && GrantedIn(s, [], now, "ip", from, to) == 0
  {
  }

  lemma LookupsAreNotGranted(s: System)
    ensures !TakesFor(s, Lookup(1, "ip", 601.0), "ip") && !TakesFor(s, Lookup(0, "ip", 0.0), "ip") && !TakesFor(s, Evict("ip", 601.0), "ip")
  {
  }

  /** Look up, be evicted, and let another caller drain the new bucket first. */
  function Race(capacity: nat): seq<Call> {
    [Lookup(0, "ip", 0.0)] + ([Evict("ip", 601.0)] + Drain(capacity))
  }

  /** The new bucket is the one the first lookup after the eviction makes. */
  lemma RaceStart(rate: real, capacity: real, n: nat)
    requires n as real == capacity
    ensures var empty := Fresh(rate, capacity);
            && Enabled(empty, Lookup(0, "ip", 0.0))
            && var looked := After(empty, Lookup(0, "ip", 0.0)).0;
               && Enabled(looked, Evict("ip", 601.0))
               && var evicted := After(looked, Evict("ip", 601.0)).0;
                  && Enabled(evicted, Lookup(1, "ip", 601.0))
                  && After(evicted, Lookup(1, "ip", 601.0)).0 == After(Evicted(rate, capacity, n), Lookup(1, "ip", 601.0)).0
  {
    var looked := After(Fresh(rate, capacity), Lookup(0, "ip", 0.0)).0;
    assert After(looked, Evict("ip", 601.0)).0.table == map[];
  }

  /** For every rate and every capacity of at least one, one call more than the capacity is granted at one instant. */
  lemma RaceIsGranted(rate: real, capacity: nat, from: real)
    requires rate >= 0.0 && capacity > 0 && 0.0 <= from < 601.0
    ensures Runs(Fresh(rate, capacity as real), Race(capacity), 0.0)
    ensures GrantedIn(Fresh(rate, capacity as real), Race(capacity), 0.0, "ip", from, 601.0) == capacity + 1
  {
    hide After, Enabled, TakesFor, Runs, GrantedIn, Evicted, Fresh;
    var empty := Fresh(rate, capacity as real);
    RaceStart(rate, capacity as real, capacity);
    var looked := After(empty, Lookup(0, "ip", 0.0)).0;
    var evicted := After(looked, Evict("ip", 601.0)).0;
    var again := After(evicted, Lookup(1, "ip", 601.0)).0;
    DrainIsGranted(rate, capacity as real, capacity, from);
    var rest := [Take(1, 601.0)] + Drain(capacity - 1);
    assert Drain(capacity) == [Lookup(1, "ip", 601.0)] + rest;
    AfterFirst(Evicted(rate, capacity as real, capacity), Lookup(1, "ip", 601.0), rest, 601.0, from, 601.0);
    FirstCall(evicted, Lookup(1, "ip", 601.0), again, rest, 601.0, "ip", from, 601.0);
    FirstCall(looked, Evict("ip", 601.0), evicted, Drain(capacity), 0.0, "ip", from, 601.0);
    FirstCall(empty, Lookup(0, "ip", 0.0), looked, [Evict("ip", 601.0)] + Drain(capacity), 0.0, "ip", from, 601.0);
    LookupsAreNotGranted(evicted);
    LookupsAreNotGranted(looked);
    LookupsAreNotGranted(empty);
    LookupsAreNotGranted(Evicted(rate, capacity as real, capacity));
  }

  lemma AfterFirst(s: System, e: Call, rest: seq<Call>, now: real, from: real, to: real)
    requires Runs(s, [e] + rest, now)
    ensures Enabled(s, e) && Runs(After(s, e).0, rest, e.at)
    ensures GrantedIn(s, [e] + rest, now, "ip", from, to) ==
            (if TakesFor(s, e, "ip") && After(s, e).1 && from < e.at <= to then 1 else 0) +
            GrantedIn(After(s, e).0, rest, e.at, "ip", from, to)
  {
    hide After;
    assert ([e] + rest)[1..] == rest;
  }

  /** A window so short that less than one token is refilled in it. */
  lemma ShortWindow(rate: real) returns (from: real)
    requires rate >= 0.0
    ensures 0.0 <= from < 601.0 && Gain(601.0 - from, rate) < 1.0
  {
    var length := 1.0 / (rate + 1.0);
    from := 601.0 - length;
    assert length * (rate + 1.0) == 1.0;
    assert length * (rate + 1.0) == length * rate + length;
    assert 0.0 < length <= 1.0 && length * rate < 1.0;
  }

  /** Without capacity nothing is ever granted. */
  lemma {:induction false} NothingGranted(s: System, es: seq<Call>, now: real, key: string, from: real, to: real)
    requires Inv(s, now) && Runs(s, es, now) && s.capacity < 1.0
    ensures GrantedIn(s, es, now, key, from, to) == 0
    decreases |es|
  {
    hide After, Inv;
    if es != [] {
      StepKeepsInv(s, es[0], now);
      SameRates(s, es[0]);
      RefusedWithoutCapacity(s, es[0], now);
      NothingGranted(After(s, es[0]).0, es[1..], es[0].at, key, from, to);
    }
  }

  lemma RefusedWithoutCapacity(s: System, e: Call, now: real)
    requires Inv(s, now) && Enabled(s, e) && s.capacity < 1.0
    ensures !After(s, e).1
  {
    hide Gain;
  }

  /** With sweeps in the middle of calls, the bound of the atomic limiter holds for every run if and only if nothing is ever granted. */
  lemma RacingBoundIsExact(rate: real, capacity: nat)
    requires rate >= 0.0
    ensures BoundsEveryRace(rate, capacity) <==> capacity == 0
  {
    hide Runs, GrantedIn, Gain, Race, Inv;
    var empty := Fresh(rate, capacity as real);
    if capacity == 0 {
      forall es, now, key, from, to ensures BoundedRace(empty, es, now, key, from, to) {
        if Runs(empty, es, now) && from <= to {
          FreshIsInv(rate, capacity as real, now);
          NothingGranted(empty, es, now, key, from, to);
          GainIsPositive(rate, to - from);
          GainIs(to - from, rate);
        }
      }
    } else {
      var from := ShortWindow(rate);
      GainIs(601.0 - from, rate);
      RaceIsGranted(rate, capacity, from);
      assert !BoundedRace(empty, Race(capacity), 0.0, "ip", from, 601.0);
    }
  }

  lemma FreshIsInv(rate: real, capacity: real, now: real)
    requires rate >= 0.0 && capacity >= 0.0
    ensures Inv(Fresh(rate, capacity), now)
  {
  }

  lemma GainIsPositive(rate: real, elapsed: real)
    requires rate >= 0.0 && elapsed >= 0.0
    ensures Gain(elapsed, rate) >= 0.0
  {
  }

  // ----- The race, at an input

  /** Putting one more call in front of a run. */
  lemma FirstCall(s: System, e: Call, next: System, rest: seq<Call>, now: real, key: string, from: real, to: real)
    requires Enabled(s, e) && now <= e.at && After(s, e).0 == next && Runs(next, rest, e.at)
    ensures Runs(s, [e] + rest, now)
    ensures GrantedIn(s, [e] + rest, now, key, from, to) ==
            (if TakesFor(s, e, key) && After(s, e).1 && from < e.at <= to then 1 else 0) +
            GrantedIn(next, rest, e.at, key, from, to)
  {
    hide After;
    assert ([e] + rest)[1..] == rest;
  }

  /** One token of capacity, refilled every second; `buckets` with these fillings and times. */
  function Small(buckets: seq<(real, real)>, table: map<string, nat>, held: map<nat, Handle>): System {
    System(1.0, 1.0, seq(|buckets|, i requires 0 <= i < |buckets| => Bucket(buckets[i].0, 1.0, 1.0, buckets[i].1)), table, held)
  }

  /** The bucket is looked up by caller 0 when it has been idle for more than ten minutes, and evicted. */
  lemma LookedUpAndEvicted()
    ensures var held: map<nat, Handle> := map[0 := Handle("ip", 0)];
            && Enabled(Small([], map[], map[]), Lookup(0, "ip", 0.0))
            && After(Small([], map[], map[]), Lookup(0, "ip", 0.0)).0 == Small([(1.0, 0.0)], map["ip" := 0], held)
            && Enabled(Small([(1.0, 0.0)], map["ip" := 0], held), Take(0, 0.0))
            && After(Small([(1.0, 0.0)], map["ip" := 0], held), Take(0, 0.0)).0 == Small([(0.0, 0.0)], map["ip" := 0], map[])
            && After(Small([(0.0, 0.0)], map["ip" := 0], map[]), Lookup(0, "ip", 601.0)).0 == Small([(0.0, 0.0)], map["ip" := 0], held)
            && After(Small([(0.0, 0.0)], map["ip" := 0], held), Evict("ip", 601.0)).0 == Small([(0.0, 0.0)], map[], held)
  {
    var held: map<nat, Handle> := map[0 := Handle("ip", 0)];
    assert held - {0} == map[];
    assert After(Small([(0.0, 0.0)], map["ip" := 0], held), Evict("ip", 601.0)).0.table == map[];
  }

  /** A new bucket is made for caller 1 and drained; then caller 0 takes from the old one. */
  lemma BothTake()
    ensures var held: map<nat, Handle> := map[0 := Handle("ip", 0)];
            var s := Small([(0.0, 0.0)], map[], held);
            var s1 := After(s, Lookup(1, "ip", 601.0)).0;
            && Enabled(s1, Take(1, 601.0)) && TakesFor(s1, Take(1, 601.0), "ip") && After(s1, Take(1, 601.0)).1
            && var s2 := After(s1, Take(1, 601.0)).0;
               Enabled(s2, Take(0, 601.0)) && TakesFor(s2, Take(0, 601.0), "ip") && After(s2, Take(0, 601.0)).1
  {
  }

  /**
   A call that looked its bucket up before the sweep and takes from it afterwards is the
   second one granted within a quarter of a second, though the bucket refills in time.
   */
  lemma LateCallBreaksBound() returns (s: System, es: seq<Call>)
    ensures s.capacity <= 600.0 * s.rate && Inv(s, 0.0) && Runs(s, es, 0.0)
    ensures GrantedIn(s, es, 0.0, "ip", 600.75, 601.0) as real > s.capacity + s.rate * (601.0 - 600.75)
  {
    var held: map<nat, Handle> := map[0 := Handle("ip", 0)];
    s := Small([], map[], map[]);
    LookedUpAndEvicted();
    AlwaysEnabled(Small([(0.0, 0.0)], map["ip" := 0], held), Small([(0.0, 0.0)], map["ip" := 0], map[]));
    assert s.capacity == 1.0 && s.rate == 1.0;
    SmallIsGood();
    hide After, TakesFor, Enabled, Inv, Small, Runs, GrantedIn;
    var evicted := Small([(0.0, 0.0)], map[], held);
    var last := RaceTail(evicted);
    var looked, idle, first := Small([(0.0, 0.0)], map["ip" := 0], held), Small([(0.0, 0.0)], map["ip" := 0], map[]), Small([(1.0, 0.0)], map["ip" := 0], held);
    FirstCall(looked, Evict("ip", 601.0), evicted, last, 601.0, "ip", 600.75, 601.0);
    var es1 := [Evict("ip", 601.0)] + last;
    FirstCall(idle, Lookup(0, "ip", 601.0), looked, es1, 0.0, "ip", 600.75, 601.0);
    var es2 := [Lookup(0, "ip", 601.0)] + es1;
    FirstCall(first, Take(0, 0.0), idle, es2, 0.0, "ip", 600.75, 601.0);
    var es3 := [Take(0, 0.0)] + es2;
    FirstCall(s, Lookup(0, "ip", 0.0), first, es3, 0.0, "ip", 600.75, 601.0);
    es := [Lookup(0, "ip", 0.0)] + es3;
  }

  lemma SmallIsGood()
    ensures Inv(Small([], map[], map[]), 0.0)
  {
  }

  lemma AlwaysEnabled(s: System, free: System)
    ensures Enabled(s, Evict("ip", 601.0)) && (0 !in free.held ==> Enabled(free, Lookup(0, "ip", 601.0)))
  {
  }

  lemma RaceTail(s: System) returns (es: seq<Call>)
    requires s == Small([(0.0, 0.0)], map[], map[0 := Handle("ip", 0)])
    ensures Runs(s, es, 601.0) && GrantedIn(s, es, 601.0, "ip", 600.75, 601.0) >= 2
  {
    BothTake();
    assert Enabled(s, Lookup(1, "ip", 601.0));
    hide Small, Taken;
    var s1 := After(s, Lookup(1, "ip", 601.0)).0;
    var s2 := After(s1, Take(1, 601.0)).0;
    var s3 := After(s2, Take(0, 601.0)).0;
    hide After, TakesFor, Enabled;
    FirstCall(s2, Take(0, 601.0), s3, [], 601.0, "ip", 600.75, 601.0);
    FirstCall(s1, Take(1, 601.0), s2, [Take(0, 601.0)] + [], 601.0, "ip", 600.75, 601.0);
    FirstCall(s, Lookup(1, "ip", 601.0), s1, [Take(1, 601.0)] + ([Take(0, 601.0)] + []), 601.0, "ip", 600.75, 601.0);
    es := [Lookup(1, "ip", 601.0)] + ([Take(1, 601.0)] + ([Take(0, 601.0)] + []));
  }
}
