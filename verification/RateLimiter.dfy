/**
 Token-bucket rate limiter with lazy refill and idle eviction
 (internal/ratelimit/ratelimit.go).

 Time is a real number of seconds, supplied by the caller; every operation is one
 atomic step.  The first half is the value specification and the theorems about
 whole runs; the second half is the mutable limiter, proved against it.
 */
module RateLimit {

  /** Buckets idle for strictly longer than this many seconds are evicted. */
  const IDLE_TTL: real := 600.0

  datatype Bucket = Bucket(tokens: real, capacity: real, rate: real, lastCheck: real)

  /** Tokens added by a refill after `elapsed` seconds. */
  function Gain(elapsed: real, rate: real): real {
    elapsed * rate
  }

  lemma GainIs(elapsed: real, rate: real)
    ensures Gain(elapsed, rate) == rate * elapsed
  {
  }

  /** The tokens a bucket holds once it has been refilled up to `now`. */
  function Refilled(b: Bucket, now: real): real {
    var tokens := b.tokens + Gain(now - b.lastCheck, b.rate);
    if tokens > b.capacity then b.capacity else tokens
  }

  /** One access to a bucket: refill, then spend a token if there is one. */
  function Taken(b: Bucket, now: real): (Bucket, bool) {
    var tokens := Refilled(b, now);
    if tokens >= 1.0
    then (b.(tokens := tokens - 1.0, lastCheck := now), true)
    else (b.(tokens := tokens, lastCheck := now), false)
  }

  datatype Limiter = Limiter(rate: real, capacity: real, buckets: map<string, Bucket>)

  function NewLimiter(rate: real, capacity: real): Limiter {
    Limiter(rate, capacity, map[])
  }

  /** The bucket an access to `key` works on: the stored one, or a full new one. */
  function BucketFor(l: Limiter, key: string, now: real): Bucket {
    if key in l.buckets then l.buckets[key] else Bucket(l.capacity, l.capacity, l.rate, now)
  }

  function AllowStep(l: Limiter, key: string, now: real): (Limiter, bool) {
    var (b, ok) := Taken(BucketFor(l, key, now), now);
    (l.(buckets := l.buckets[key := b]), ok)
  }

  /** One tick of the cleanup loop. */
  function SweepStep(l: Limiter, now: real): Limiter {
    l.(buckets := map key | key in l.buckets && now - l.buckets[key].lastCheck <= IDLE_TTL :: l.buckets[key])
  }

  /** A sweep that has not visited the keys in `todo` yet. */
  ghost function SweptExcept(l: Limiter, now: real, todo: set<string>): Limiter {
    l.(buckets := map key | key in l.buckets && (key in todo || now - l.buckets[key].lastCheck <= IDLE_TTL) :: l.buckets[key])
  }

  lemma SweepAll(l: Limiter, now: real)
    ensures SweptExcept(l, now, l.buckets.Keys) == l
    ensures SweptExcept(l, now, {}) == SweepStep(l, now)
  {
    assert SweptExcept(l, now, l.buckets.Keys).buckets == l.buckets;
  }

  /** A tick keeps exactly the buckets used within the last ten minutes. */
  lemma SweepKeeps(l: Limiter, now: real)
    ensures forall key :: key in SweepStep(l, now).buckets <==> key in l.buckets && now - l.buckets[key].lastCheck <= 600.0
  {
  }

  lemma SweepOne(l: Limiter, now: real, todo: set<string>, key: string, before: Limiter, after: Limiter)
    requires key in l.buckets && key !in todo
    requires before == SweptExcept(l, now, todo + {key})
    requires after == before.(buckets := after.buckets)
    requires now - l.buckets[key].lastCheck > IDLE_TTL ==> after.buckets == before.buckets - {key}
    requires now - l.buckets[key].lastCheck <= IDLE_TTL ==> after == before
    ensures after == SweptExcept(l, now, todo)
  {
    assert after.buckets == SweptExcept(l, now, todo).buckets;
  }

  datatype Event = Allow(key: string, at: real) | Sweep(at: real)

  function Step(l: Limiter, e: Event): (Limiter, bool) {
    match e
    case Allow(key, at) => AllowStep(l, key, at)
    case Sweep(at) => (SweepStep(l, at), false)
  }

  /** The clock never goes backwards, starting from `now`. */
  predicate Chronological(now: real, es: seq<Event>)
    decreases |es|
  {
    es == [] || (now <= es[0].at && Chronological(es[0].at, es[1..]))
  }

  /** How many calls for `key` with a time stamp in the window (from, to] a run grants. */
  function Granted(l: Limiter, es: seq<Event>, key: string, from: real, to: real): nat
    decreases |es|
  {
    if es == [] then 0 else
      var (l', ok) := Step(l, es[0]);
      (if ok && es[0] == Allow(key, es[0].at) && from < es[0].at <= to then 1 else 0)
      + Granted(l', es[1..], key, from, to)
  }

  /** The answers a run gives to its `Allow` events, in order. */
  function Answers(l: Limiter, es: seq<Event>): seq<bool>
    decreases |es|
  {
    if es == [] then [] else
      var (l', ok) := Step(l, es[0]);
      (if es[0].Allow? then [ok] else []) + Answers(l', es[1..])
  }

  /** The same run with the cleanup loop switched off. */
  function WithoutSweeps(es: seq<Event>): seq<Event> {
    if es == [] then []
    else (if es[0].Allow? then [es[0]] else []) + WithoutSweeps(es[1..])
  }

  // ----- What every reachable limiter satisfies

  ghost predicate GoodBucket(l: Limiter, b: Bucket, now: real) {
    b.rate == l.rate && b.capacity == l.capacity && 0.0 <= b.tokens <= b.capacity && b.lastCheck <= now
  }

  ghost predicate Good(l: Limiter, now: real) {
    l.rate >= 0.0 && l.capacity >= 0.0 &&
    forall key :: key in l.buckets ==> GoodBucket(l, l.buckets[key], now)
  }

  /** The tokens available to `key` at `now`; a key without a bucket has a full one. */
  ghost function Level(l: Limiter, key: string, now: real): real {
    Refilled(BucketFor(l, key, now), now)
  }

  lemma StepKeepsGood(l: Limiter, e: Event, now: real)
    requires Good(l, now) && now <= e.at
    ensures Good(Step(l, e).0, e.at)
    ensures Step(l, e).0.rate == l.rate && Step(l, e).0.capacity == l.capacity
  {
    hide Gain;
    if e.Allow? {
      LevelInRange(l, e.key, now, e.at);
    }
  }

  lemma LevelGrown(l: Limiter, key: string, now: real, later: real)
    requires Good(l, now) && now <= later
    ensures Level(l, key, later) ==
            var grown := Level(l, key, now) + Gain(later - now, l.rate);
            if grown > l.capacity then l.capacity else grown
  {
    hide Gain;
    var b := BucketFor(l, key, now);
    SplitGain(b.rate, b.lastCheck, now, later);
  }

  /** A level known at `now` determines the level at every later time. */
  lemma LevelLater(l: Limiter, key: string, now: real, later: real)
    requires Good(l, now) && now <= later
    ensures Level(l, key, later) ==
            var grown := Level(l, key, now) + l.rate * (later - now);
            if grown > l.capacity then l.capacity else grown
  {
    hide Level, Good, Gain;
    var refilled := l.rate * (later - now);
    assert Gain(later - now, l.rate) == refilled by {
      GainIs(later - now, l.rate);
    }
    LevelGrown(l, key, now, later);
  }

  /** An access grants exactly when the level is at least one token, and costs one token. */
  lemma AllowSpendsLevel(l: Limiter, key: string, now: real, other: string)
    requires Good(l, now)
    ensures AllowStep(l, key, now).1 <==> Level(l, key, now) >= 1.0
    ensures Level(AllowStep(l, key, now).0, other, now) ==
            if other == key && AllowStep(l, key, now).1 then Level(l, other, now) - 1.0
            else Level(l, other, now)
  {
    hide Gain;
    SplitGain(l.rate, now, now, now);
  }

  /** Eviction is invisible: a bucket idle that long has refilled to the brim anyway. */
  lemma SweepKeepsLevel(l: Limiter, key: string, now: real)
    requires Good(l, now) && l.capacity <= Gain(IDLE_TTL, l.rate)
    ensures Level(SweepStep(l, now), key, now) == Level(l, key, now)
  {
    hide Gain;
    if key in l.buckets && now - l.buckets[key].lastCheck > IDLE_TTL {
      var b := l.buckets[key];
      SplitGain(b.rate, b.lastCheck, b.lastCheck + IDLE_TTL, now);
      SplitGain(l.rate, now, now, now);
    }
  }

  // ----- The window bound

  /** One event: what it grants to `key` comes out of the level at its time. */
  lemma StepSpendsLevel(l: Limiter, e: Event, key: string, now: real)
    requires Good(l, now) && now <= e.at && (e.Allow? || l.capacity <= Gain(IDLE_TTL, l.rate))
    ensures Level(Step(l, e).0, key, e.at) + (if Step(l, e).1 && e == Allow(key, e.at) then 1.0 else 0.0)
            <= Level(l, key, now) + Gain(e.at - now, l.rate)
  {
    hide Gain;
    LevelGrown(l, key, now, e.at);
    GoodLater(l, now, e.at);
    match e {
      case Allow(k, at) => AllowSpendsLevel(l, k, at, key);
      case Sweep(at) => SweepKeepsLevel(l, key, at);
    }
  }

  lemma SplitGain(rate: real, a: real, b: real, c: real)
    requires rate >= 0.0 && a <= b <= c
    ensures 0.0 <= Gain(b - a, rate) && 0.0 <= Gain(c - b, rate)
    ensures Gain(c - a, rate) == Gain(c - b, rate) + Gain(b - a, rate)
    ensures a == b ==> Gain(b - a, rate) == 0.0
    ensures b == c ==> Gain(c - b, rate) == 0.0
  {
  }

  /** From any point on, a key is granted at most its level plus what the refill adds. */
  predicate NoSweeps(es: seq<Event>) {
    forall i :: 0 <= i < |es| ==> es[i].Allow?
  }

  lemma {:induction false} GrantedWithinLevel(l: Limiter, es: seq<Event>, key: string, now: real, from: real, to: real)
    requires Good(l, now) && Chronological(now, es) && now <= to
    requires NoSweeps(es) || l.capacity <= Gain(IDLE_TTL, l.rate)
    ensures Granted(l, es, key, from, to) as real <= Level(l, key, now) + Gain(to - now, l.rate)
    decreases |es|
  {
    hide Gain, Level, Step;
    if es == [] || es[0].at > to {
      NothingGrantedAfter(l, es, key, now, from, to);
      GoodLater(l, now, now);
      SplitGain(l.rate, now, now, to);
    } else {
      StepKeepsGood(l, es[0], now);
      GrantedWithinLevel(Step(l, es[0]).0, es[1..], key, es[0].at, from, to);
      StepSpendsLevel(l, es[0], key, now);
      SplitGain(l.rate, now, es[0].at, to);
    }
  }

  lemma GoodLater(l: Limiter, now: real, later: real)
    requires Good(l, now) && now <= later
    ensures Good(l, later)
    ensures forall key :: 0.0 <= Level(l, key, later) <= l.capacity
  {
    forall key ensures 0.0 <= Level(l, key, later) <= l.capacity {
      LevelInRange(l, key, now, later);
    }
  }

  lemma LevelInRange(l: Limiter, key: string, now: real, later: real)
    requires Good(l, now) && now <= later
    ensures 0.0 <= Level(l, key, later) <= l.capacity
  {
    hide Gain;
    var b := BucketFor(l, key, later);
    SplitGain(b.rate, b.lastCheck, later, later);
  }

  lemma {:induction false} NothingGrantedAfter(l: Limiter, es: seq<Event>, key: string, now: real, from: real, to: real)
    requires Chronological(now, es) && (es == [] || es[0].at > to)
    ensures Granted(l, es, key, from, to) == 0
    decreases |es|
  {
    if es != [] {
      NothingGrantedAfter(Step(l, es[0]).0, es[1..], key, es[0].at, from, to);
    }
  }

  lemma {:induction false} GrantedInWindow(l: Limiter, es: seq<Event>, key: string, now: real, from: real, to: real)
    requires Good(l, now) && Chronological(now, es) && from <= to
    requires l.capacity <= Gain(IDLE_TTL, l.rate)
    ensures Granted(l, es, key, from, to) as real <= l.capacity + Gain(to - from, l.rate)
    decreases |es|
  {
    hide Gain, Level, Step;
    SplitGain(l.rate, from, from, to);
    if es == [] {
    } else if es[0].at <= from {
      StepKeepsGood(l, es[0], now);
      GrantedInWindow(Step(l, es[0]).0, es[1..], key, es[0].at, from, to);
    } else if to < now {
      NothingGrantedAfter(l, es, key, now, from, to);
    } else {
      var mid := if from < now then now else from;
      GoodLater(l, now, mid);
      GrantedWithinLevel(l, es, key, mid, from, to);
      SplitGain(l.rate, from, mid, to);
    }
  }

  /**
   For every run and every window (from, to], a key is granted at most
   capacity + rate * (to - from) calls, whatever the cleanup loop evicts in between.
   */
  lemma WindowBound(l: Limiter, es: seq<Event>, key: string, now: real, from: real, to: real)
    requires Good(l, now) && Chronological(now, es) && from <= to
    requires l.capacity <= 600.0 * l.rate
    ensures Granted(l, es, key, from, to) as real <= l.capacity + l.rate * (to - from)
  {
    GainIs(IDLE_TTL, l.rate);
    GainIs(to - from, l.rate);
    hide Gain, Granted, Good;
    GrantedInWindow(l, es, key, now, from, to);
  }

  // ----- Eviction is unobservable

  /** Two limiters no key can tell apart from `now` on. */
  ghost predicate Alike(l: Limiter, m: Limiter, now: real) {
    Good(l, now) && Good(m, now) && l.rate == m.rate && l.capacity == m.capacity &&
    forall key :: Level(l, key, now) == Level(m, key, now)
  }

  lemma AlikeLater(l: Limiter, m: Limiter, now: real, later: real)
    requires Alike(l, m, now) && now <= later
    ensures Alike(l, m, later)
  {
    GoodLater(l, now, later);
    GoodLater(m, now, later);
    forall key ensures Level(l, key, later) == Level(m, key, later) {
      LevelGrown(l, key, now, later);
      LevelGrown(m, key, now, later);
    }
  }

  lemma AllowKeepsAlike(l: Limiter, m: Limiter, key: string, now: real)
    requires Alike(l, m, now)
    ensures AllowStep(l, key, now).1 == AllowStep(m, key, now).1
    ensures Alike(AllowStep(l, key, now).0, AllowStep(m, key, now).0, now)
  {
    var l', m' := AllowStep(l, key, now).0, AllowStep(m, key, now).0;
    StepKeepsGood(l, Allow(key, now), now);
    StepKeepsGood(m, Allow(key, now), now);
    AllowSpendsLevel(l, key, now, key);
    AllowSpendsLevel(m, key, now, key);
    forall other ensures Level(l', other, now) == Level(m', other, now) {
      AllowSpendsLevel(l, key, now, other);
      AllowSpendsLevel(m, key, now, other);
    }
  }

  lemma SweepKeepsAlike(l: Limiter, m: Limiter, now: real)
    requires Alike(l, m, now) && l.capacity <= Gain(IDLE_TTL, l.rate)
    ensures Alike(SweepStep(l, now), m, now)
  {
    StepKeepsGood(l, Sweep(now), now);
    forall key ensures Level(SweepStep(l, now), key, now) == Level(m, key, now) {
      SweepKeepsLevel(l, key, now);
    }
  }

  lemma {:induction false} AlikeAnswersAlike(l: Limiter, m: Limiter, es: seq<Event>, now: real)
    requires Alike(l, m, now) && Chronological(now, es) && l.capacity <= Gain(IDLE_TTL, l.rate)
    ensures Answers(l, es) == Answers(m, WithoutSweeps(es))
    decreases |es|
  {
    if es != [] {
      var e := es[0];
      AlikeLater(l, m, now, e.at);
      StepKeepsGood(l, e, now);
      match e {
        case Allow(key, at) =>
          AllowKeepsAlike(l, m, key, at);
          AlikeAnswersAlike(Step(l, e).0, Step(m, e).0, es[1..], at);
          assert WithoutSweeps(es) == [e] + WithoutSweeps(es[1..]);
          assert WithoutSweeps(es)[1..] == WithoutSweeps(es[1..]);
        case Sweep(at) =>
          SweepKeepsAlike(l, m, at);
          AlikeAnswersAlike(Step(l, e).0, m, es[1..], at);
          assert WithoutSweeps(es) == WithoutSweeps(es[1..]);
      }
    }
  }

  /** Every call gets the answer it would get from a limiter that never evicts anything. */
  lemma EvictionIsInvisible(rate: real, capacity: real, es: seq<Event>, now: real)
    requires rate >= 0.0 && capacity >= 0.0 && Chronological(now, es)
    requires capacity <= 600.0 * rate
    ensures Answers(NewLimiter(rate, capacity), es) ==
            Answers(NewLimiter(rate, capacity), WithoutSweeps(es))
  {
    var l := NewLimiter(rate, capacity);
    GainIs(IDLE_TTL, rate);
    AlikeAnswersAlike(l, l, es, now);
  }

  // ----- The condition is exact

  /** The promise of the limiter, for a fresh limiter and over every run and window. */
  ghost predicate BoundsEveryWindow(rate: real, capacity: nat) {
    forall es: seq<Event>, key: string, from: real, to: real
      {:trigger Granted(NewLimiter(rate, capacity as real), es, key, from, to)} ::
      es != [] && Chronological(es[0].at, es) && from <= to ==>
        Granted(NewLimiter(rate, capacity as real), es, key, from, to) as real
          <= capacity as real + rate * (to - from)
  }

  /** `n` calls for `key` at the same instant. */
  function Burst(key: string, at: real, n: nat): seq<Event> {
    if n == 0 then [] else [Allow(key, at)] + Burst(key, at, n - 1)
  }

  lemma {:induction false} BurstIsChronological(key: string, at: real, n: nat, tail: seq<Event>)
    requires Chronological(at, tail)
    ensures Chronological(at, Burst(key, at, n) + tail)
  {
    if n == 0 {
      assert Burst(key, at, n) + tail == tail;
    } else {
      BurstIsChronological(key, at, n - 1, tail);
      assert (Burst(key, at, n) + tail)[1..] == Burst(key, at, n - 1) + tail;
    }
  }

  /** A level of `n` tokens grants a burst of `n` calls; the bucket was then last checked at `at`. */
  lemma {:induction false} BurstIsGranted(l: Limiter, key: string, at: real, n: nat, tail: seq<Event>, from: real, to: real)
    returns (m: Limiter)
    requires Good(l, at) && Level(l, key, at) == n as real && from < at <= to
    requires n == 0 ==> key in l.buckets && l.buckets[key].lastCheck == at
    ensures Good(m, at) && m.rate == l.rate && m.capacity == l.capacity
    ensures key in m.buckets && m.buckets[key].lastCheck == at
    ensures Granted(l, Burst(key, at, n) + tail, key, from, to) == n + Granted(m, tail, key, from, to)
    decreases n
  {
    var es := Burst(key, at, n) + tail;
    if n == 0 {
      assert es == tail;
      m := l;
    } else {
      assert es[0] == Allow(key, at) && es[1..] == Burst(key, at, n - 1) + tail;
      StepKeepsGood(l, es[0], at);
      AllowSpendsLevel(l, key, at, key);
      m := BurstIsGranted(Step(l, es[0]).0, key, at, n - 1, tail, from, to);
    }
  }

  /** Drain the bucket, wait out the idle time, let it be evicted, and drain the new one. */
  function DoubleBurst(key: string, at: real, later: real, n: nat): seq<Event> {
    Burst(key, at, n) + ([Sweep(later)] + (Burst(key, later, n) + []))
  }

  lemma DoubleBurstIsChronological(key: string, at: real, later: real, n: nat)
    requires at <= later
    ensures Chronological(at, DoubleBurst(key, at, later, n))
  {
    var second := Burst(key, later, n) + [];
    var tail := [Sweep(later)] + second;
    BurstIsChronological(key, later, n, []);
    assert tail[1..] == second;
    BurstIsChronological(key, at, n, tail);
  }

  lemma EvictedBucketIsFull(m: Limiter, key: string, at: real, later: real)
    requires Good(m, at) && key in m.buckets && m.buckets[key].lastCheck == at && later - at > IDLE_TTL
    ensures Good(SweepStep(m, later), later)
    ensures Level(SweepStep(m, later), key, later) == m.capacity
  {
    StepKeepsGood(m, Sweep(later), at);
    SplitGain(m.rate, later, later, later);
  }

  lemma DoubleBurstIsGranted(rate: real, capacity: nat, at: real, later: real, from: real)
    requires rate >= 0.0 && capacity > 0 && from < at && later - at > IDLE_TTL
    ensures Granted(NewLimiter(rate, capacity as real), DoubleBurst("ip", at, later, capacity), "ip", from, later)
            == 2 * capacity
  {
    var l := NewLimiter(rate, capacity as real);
    var second := Burst("ip", later, capacity) + [];
    var tail := [Sweep(later)] + second;
    LevelGrown(l, "ip", at, at);
    var m := BurstIsGranted(l, "ip", at, capacity, tail, from, later);
    hide Level, Good, AllowStep;
    EvictedBucketIsFull(m, "ip", at, later);
    var end := BurstIsGranted(SweepStep(m, later), "ip", later, capacity, [], from, later);
    assert tail[0] == Sweep(later) && tail[1..] == second;
    assert Granted(m, tail, "ip", from, later) == Granted(SweepStep(m, later), second, "ip", from, later);
  }

  /** A wait just over the idle time over which a slow bucket still does not refill. */
  lemma ShortWait(rate: real, capacity: real) returns (x: real)
    requires rate >= 0.0 && capacity > Gain(IDLE_TTL, rate)
    ensures x > 0.0 && Gain(IDLE_TTL + x + x, rate) < capacity
  {
    var slack := capacity - IDLE_TTL * rate;
    x := slack / (2.0 * rate + 1.0);
    assert x * (2.0 * rate + 1.0) == slack;
    assert (IDLE_TTL + x + x) * rate == IDLE_TTL * rate + slack - x;
  }

  /** When a bucket cannot refill within the idle time, this run breaks the bound. */
  lemma SlowRefillBreaksBound(rate: real, capacity: nat)
    returns (es: seq<Event>, from: real, to: real)
    requires rate >= 0.0 && capacity as real > 600.0 * rate
    ensures es != [] && Chronological(es[0].at, es) && from <= to
    ensures Granted(NewLimiter(rate, capacity as real), es, "ip", from, to) as real
            > capacity as real + rate * (to - from)
  {
    GainIs(IDLE_TTL, rate);
    SplitGain(rate, 0.0, 0.0, IDLE_TTL);
    hide Gain, Granted, Level, Good, Step;
    var x := ShortWait(rate, capacity as real);
    es, from, to := DoubleBurst("ip", 0.0, IDLE_TTL + x, capacity), -x, IDLE_TTL + x;
    DoubleBurstIsChronological("ip", 0.0, to, capacity);
    DoubleBurstIsGranted(rate, capacity, 0.0, to, from);
    assert es[0] == Allow("ip", 0.0);
    assert to - from == IDLE_TTL + x + x;
    GainIs(to - from, rate);
  }

  /**
   The bound holds for every run exactly when a bucket refills completely within the
   idle time; otherwise evicting a drained bucket hands its owner a second burst.
   */
  lemma WindowBoundIsExact(rate: real, capacity: nat)
    requires rate >= 0.0
    ensures BoundsEveryWindow(rate, capacity) <==> capacity as real <= 600.0 * rate
  {
    var l := NewLimiter(rate, capacity as real);
    hide Granted;
    if capacity as real <= 600.0 * rate {
      forall es: seq<Event>, key, from, to | es != [] && Chronological(es[0].at, es) && from <= to
        ensures Granted(l, es, key, from, to) as real <= capacity as real + rate * (to - from)
      {
        WindowBound(l, es, key, es[0].at, from, to);
      }
    } else {
      var es, from, to := SlowRefillBreaksBound(rate, capacity);
      assert !(Granted(l, es, "ip", from, to) as real <= capacity as real + rate * (to - from));
    }
  }

  // ----- How fast a drained key is served again

  /** The limiter a run ends in. */
  function After(l: Limiter, es: seq<Event>): Limiter
    decreases |es|
  {
    if es == [] then l else After(Step(l, es[0]).0, es[1..])
  }

  lemma {:induction false} AnswersConcat(l: Limiter, a: seq<Event>, b: seq<Event>)
    ensures Answers(l, a + b) == Answers(l, a) + Answers(After(l, a), b)
    decreases |a|
  {
    if a == [] {
      assert a + b == b;
    } else {
      hide Step;
      AnswersConcat(Step(l, a[0]).0, a[1..], b);
      assert (a + b)[1..] == a[1..] + b;
    }
  }

  /** The `i`-th call of a burst is granted exactly if the level covers it. */
  function BurstAnswers(n: nat, level: real): seq<bool> {
    seq(n, i => (i + 1) as real <= level)
  }

  lemma {:induction false} BurstIsAnswered(l: Limiter, key: string, at: real, n: nat)
    requires Good(l, at)
    ensures Answers(l, Burst(key, at, n)) == BurstAnswers(n, Level(l, key, at))
    ensures Good(After(l, Burst(key, at, n)), at)
    ensures After(l, Burst(key, at, n)).rate == l.rate && After(l, Burst(key, at, n)).capacity == l.capacity
    ensures n as real <= Level(l, key, at) ==> Level(After(l, Burst(key, at, n)), key, at) == Level(l, key, at) - n as real
    decreases n
  {
    hide Level, Good, Step;
    if n > 0 {
      var e := Allow(key, at);
      AllowIsStep(l, key, at);
      StepKeepsGood(l, e, at);
      AllowSpendsLevel(l, key, at, key);
      var l' := Step(l, e).0;
      assert Burst(key, at, n)[1..] == Burst(key, at, n - 1);
      BurstIsAnswered(l', key, at, n - 1);
      NextAnswers(n, Level(l, key, at));
    }
  }

  lemma AllowIsStep(l: Limiter, key: string, at: real)
    ensures Step(l, Allow(key, at)) == AllowStep(l, key, at)
  {
  }

  lemma NextAnswers(n: nat, level: real)
    requires n > 0
    ensures BurstAnswers(n, level) == [level >= 1.0] + BurstAnswers(n - 1, if level >= 1.0 then level - 1.0 else level)
  {
    var rest := BurstAnswers(n - 1, if level >= 1.0 then level - 1.0 else level);
    assert forall i :: 0 <= i < n - 1 ==> BurstAnswers(n, level)[i + 1] == rest[i];
  }

  /**
   A key that has used up its capacity at `t0` and is used again at `t`: of the calls then,
   exactly as many are granted as tokens have come in at the configured rate, up to the
   capacity.
   */
  lemma DrainedKeyIsServedExactly(rate: real, capacity: nat, key: string, t0: real, t: real, n: nat)
    requires rate >= 0.0 && t0 <= t
    ensures var answers := Answers(NewLimiter(rate, capacity as real), Burst(key, t0, capacity) + Burst(key, t, n));
            && |answers| == capacity + n
            && (forall i :: 0 <= i < capacity ==> answers[i])
            && (forall i :: capacity <= i < capacity + n ==>
                  (answers[i] <==> i < 2 * capacity && (i + 1 - capacity) as real <= (t - t0) * rate))
  {
    hide Level, Good, Step, Answers, After, BurstAnswers;
    var l := NewLimiter(rate, capacity as real);
    var m := After(l, Burst(key, t0, capacity));
    NewLimiterLevel(rate, capacity as real, key, t0);
    BurstIsAnswered(l, key, t0, capacity);
    AnswersConcat(l, Burst(key, t0, capacity), Burst(key, t, n));
    ServedAfterDrain(m, capacity, key, t0, t, n);
    AllAnswered(capacity);
  }

  lemma AllAnswered(n: nat)
    ensures var answers := BurstAnswers(n, n as real);
            |answers| == n && forall i :: 0 <= i < n ==> answers[i]
  {
  }

  lemma ServedAfterDrain(m: Limiter, capacity: nat, key: string, t0: real, t: real, n: nat)
    requires Good(m, t0) && t0 <= t && m.capacity == capacity as real && Level(m, key, t0) == 0.0
    ensures var answers := Answers(m, Burst(key, t, n));
            |answers| == n && forall i :: 0 <= i < n ==> (answers[i] <==> i < capacity && (i + 1) as real <= (t - t0) * m.rate)
  {
    hide Level, Good, Step, Answers, After, BurstAnswers;
    LevelLater(m, key, t0, t);
    GoodLater(m, t0, t);
    BurstIsAnswered(m, key, t, n);
    CappedAnswers(n, capacity, m.rate * (t - t0));
  }

  lemma CappedAnswers(n: nat, capacity: nat, refilled: real)
    ensures var answers := BurstAnswers(n, if refilled > capacity as real then capacity as real else refilled);
            |answers| == n && forall i :: 0 <= i < n ==> (answers[i] <==> i < capacity && (i + 1) as real <= refilled)
  {
  }

  // ----- Exactly when eviction shows

  /** No caller can tell the limiter from one whose cleanup loop is switched off. */
  ghost predicate NeverNoticed(rate: real, capacity: nat) {
    forall es: seq<Event> :: es != [] && Chronological(es[0].at, es) ==>
      Answers(NewLimiter(rate, capacity as real), es) == Answers(NewLimiter(rate, capacity as real), WithoutSweeps(es))
  }

  ghost function CountTrue(bs: seq<bool>): nat {
    if bs == [] then 0 else (if bs[0] then 1 else 0) + CountTrue(bs[1..])
  }

  /** All calls are for `key`, in the window (from, to]. */
  predicate AllFor(es: seq<Event>, key: string, from: real, to: real) {
    forall i :: 0 <= i < |es| && es[i].Allow? ==> es[i].key == key && from < es[i].at <= to
  }

  lemma {:induction false} GrantedAreAnswers(l: Limiter, es: seq<Event>, key: string, from: real, to: real)
    requires AllFor(es, key, from, to)
    ensures Granted(l, es, key, from, to) == CountTrue(Answers(l, es))
    decreases |es|
  {
    if es != [] {
      hide Step;
      var (l', ok) := Step(l, es[0]);
      GrantedAreAnswers(l', es[1..], key, from, to);
      var rest := Answers(l', es[1..]);
      if es[0].Allow? {
        assert ([ok] + rest)[1..] == rest;
      } else {
        SweepAnswersNothing(l, es[0].at);
        assert [] + rest == rest;
      }
    }
  }

  lemma SweepAnswersNothing(l: Limiter, at: real)
    ensures !Step(l, Sweep(at)).1
  {
  }

  lemma {:induction false} WithoutSweepsKeeps(es: seq<Event>, now: real, key: string, from: real, to: real)
    requires Chronological(now, es) && AllFor(es, key, from, to)
    ensures NoSweeps(WithoutSweeps(es)) && AllFor(WithoutSweeps(es), key, from, to) && Chronological(now, WithoutSweeps(es))
  {
    if es != [] {
      WithoutSweepsKeeps(es[1..], es[0].at, key, from, to);
      var rest := WithoutSweeps(es[1..]);
      if es[0].Allow? {
        assert ([es[0]] + rest)[1..] == rest;
      } else {
        assert [] + rest == rest;
        EarlierStart(rest, now, es[0].at);
      }
    }
  }

  lemma EarlierStart(es: seq<Event>, now: real, later: real)
    requires now <= later && Chronological(later, es)
    ensures Chronological(now, es)
  {
  }

  lemma {:induction false} BurstFor(key: string, at: real, n: nat, from: real, to: real)
    requires from < at <= to
    ensures AllFor(Burst(key, at, n), key, from, to)
  {
    if n > 0 {
      BurstFor(key, at, n - 1, from, to);
    }
  }

  /** A bucket that is too slow is noticed when it is evicted: the second burst is granted in full. */
  lemma SlowRefillIsNoticed(rate: real, capacity: nat) returns (es: seq<Event>)
    requires rate >= 0.0 && capacity as real > 600.0 * rate
    ensures es != [] && Chronological(es[0].at, es)
    ensures Answers(NewLimiter(rate, capacity as real), es) != Answers(NewLimiter(rate, capacity as real), WithoutSweeps(es))
  {
    GainIs(IDLE_TTL, rate);
    SplitGain(rate, 0.0, 0.0, IDLE_TTL);
    var l := NewLimiter(rate, capacity as real);
    hide Gain, Granted, Good, Step, Answers, Level, Burst;
    var x := ShortWait(rate, capacity as real);
    var to := IDLE_TTL + x;
    es := DoubleBurst("ip", 0.0, to, capacity);
    DoubleBurstIsChronological("ip", 0.0, to, capacity);
    DoubleBurstIsGranted(rate, capacity, 0.0, to, -x);
    BurstFor("ip", 0.0, capacity, -x, to);
    BurstFor("ip", to, capacity, -x, to);
    DoubleBurstFor("ip", 0.0, to, capacity, -x);
    WithoutSweepsKeeps(es, 0.0, "ip", -x, to);
    NewLimiterLevel(rate, capacity as real, "ip", 0.0);
    GrantedWithinLevel(l, WithoutSweeps(es), "ip", 0.0, -x, to);
    GrantedAreAnswers(l, es, "ip", -x, to);
    GrantedAreAnswers(l, WithoutSweeps(es), "ip", -x, to);
    GainGrows(rate, to - 0.0, IDLE_TTL + x + x);
  }

  lemma DoubleBurstFor(key: string, at: real, later: real, n: nat, from: real)
    requires from < at <= later && AllFor(Burst(key, at, n), key, from, later) && AllFor(Burst(key, later, n), key, from, later)
    ensures AllFor(DoubleBurst(key, at, later, n), key, from, later)
  {
    hide Burst;
  }

  lemma NewLimiterLevel(rate: real, capacity: real, key: string, now: real)
    requires rate >= 0.0 && capacity >= 0.0
    ensures Good(NewLimiter(rate, capacity), now) && Level(NewLimiter(rate, capacity), key, now) == capacity
  {
    SplitGain(rate, now, now, now);
  }

  lemma GainGrows(rate: real, short: real, long: real)
    requires rate >= 0.0 && 0.0 <= short <= long
    ensures Gain(short, rate) <= Gain(long, rate)
  {
  }

  /** Eviction is unobservable if and only if a bucket refills completely within the idle time. */
  lemma EvictionIsInvisibleExactly(rate: real, capacity: nat)
    requires rate >= 0.0
    ensures NeverNoticed(rate, capacity) <==> capacity as real <= 600.0 * rate
  {
    hide Answers, WithoutSweeps, Gain;
    if capacity as real <= 600.0 * rate {
      forall es: seq<Event> | es != [] && Chronological(es[0].at, es)
        ensures Answers(NewLimiter(rate, capacity as real), es) == Answers(NewLimiter(rate, capacity as real), WithoutSweeps(es))
      {
        EvictionIsInvisible(rate, capacity as real, es, es[0].at);
      }
    } else {
      var es := SlowRefillIsNoticed(rate, capacity);
    }
  }

  // ----- The mutable limiter

  class TokenBucket {
    var tokens: real
    const capacity: real
    const rate: real
    var lastCheck: real

    ghost function View(): Bucket
      reads this
    {
      Bucket(tokens, capacity, rate, lastCheck)
    }

    constructor (rate: real, capacity: real, now: real)
      ensures View() == Bucket(capacity, capacity, rate, now)
    {
      this.tokens, this.capacity, this.rate, this.lastCheck := capacity, capacity, rate, now;
    }

    /** The part of Allow that runs under the bucket's lock. */
    method Take(now: real) returns (ok: bool)
      modifies this
      ensures (View(), ok) == Taken(old(View()), now)
    {
      var elapsed := now - lastCheck;
      lastCheck := now;
      var refilled := elapsed * rate;
      GainIs(elapsed, rate);
      hide Gain;
      tokens := tokens + refilled;
      if tokens > capacity {
        tokens := capacity;
      }
      if tokens >= 1.0 {
        tokens := tokens - 1.0;
        return true;
      }
      return false;
    }
  }

  class RateLimiter {
    var limits: map<string, TokenBucket>
    const defaultRate: real
    const defaultCapacity: real

    /** No two keys share a bucket object. */
    ghost predicate Valid()
      reads this
    {
      forall j, k :: j in limits && k in limits && j != k ==> limits[j] != limits[k]
    }

    ghost function View(): Limiter
      reads this, set key | key in limits :: limits[key]
    {
      Limiter(defaultRate, defaultCapacity, map key | key in limits :: limits[key].View())
    }

    constructor (rate: real, capacity: real)
      ensures Valid() && View() == NewLimiter(rate, capacity)
    {
      limits := map[];
      defaultRate, defaultCapacity := rate, capacity;
    }

    method GetBucket(ip: string, now: real) returns (b: TokenBucket)
      requires Valid()
      modifies this
      ensures Valid() && ip in limits && limits[ip] == b
      ensures old(ip in limits) ==> limits == old(limits)
      ensures !old(ip in limits) ==> fresh(b) && limits == old(limits)[ip := b]
      ensures !old(ip in limits) ==>
                b.tokens == b.capacity == defaultCapacity && b.rate == defaultRate && b.lastCheck == now
      ensures b.View() == BucketFor(old(View()), ip, now)
    {
      if ip in limits {
        return limits[ip];
      }
      b := new TokenBucket(defaultRate, defaultCapacity, now);
      limits := limits[ip := b];
    }

    method Allow(ip: string, now: real) returns (ok: bool)
      requires Valid()
      modifies this, set key | key in limits :: limits[key]
      ensures Valid()
      ensures (View(), ok) == AllowStep(old(View()), ip, now)
    {
      var b := GetBucket(ip, now);
      ok := b.Take(now);
      assert View().buckets == AllowStep(old(View()), ip, now).0.buckets;
    }

    /** The body of the cleanup loop for one key. */
    method EvictIfIdle(key: string, now: real)
      requires Valid() && key in limits
      modifies this
      ensures Valid() && limits.Keys + {key} == old(limits).Keys
      ensures forall k :: k in limits ==> limits[k] == old(limits)[k]
      ensures View() == if now - old(View()).buckets[key].lastCheck > 600.0
                        then old(View()).(buckets := old(View()).buckets - {key})
                        else old(View())
    {
      if now - limits[key].lastCheck > IDLE_TTL {
        limits := limits - {key};
        assert View().buckets == old(View()).buckets - {key};
      }
    }

    /** One tick of the cleanup loop: visit every key once, in no particular order. */
    method Cleanup(now: real)
      requires Valid()
      modifies this
      ensures Valid()
      ensures View() == SweepStep(old(View()), now)
      ensures limits.Keys == set key | key in old(limits) && now - old(limits[key].lastCheck) <= 600.0
      ensures forall key :: key in limits ==> limits[key] == old(limits)[key]
    {
      SweepAll(View(), now);
      SweepKeeps(View(), now);
      assert View().buckets.Keys == limits.Keys;
      hide SweepStep, SweptExcept;
      var todo := limits.Keys;
      while todo != {}
        invariant Valid() && todo <= limits.Keys <= old(limits).Keys
        invariant forall key :: key in limits ==> limits[key] == old(limits)[key]
        invariant View() == SweptExcept(old(View()), now, todo)
        decreases todo
      {
        var key :| key in todo;
        assert todo - {key} + {key} == todo;
        todo := todo - {key};
        ghost var before := View();
        EvictIfIdle(key, now);
        SweepOne(old(View()), now, todo, key, before, View());
      }
      assert View().buckets.Keys == limits.Keys;
      assert forall key :: key in old(limits) ==> old(View()).buckets[key].lastCheck == old(limits[key].lastCheck);
    }
  }
}
