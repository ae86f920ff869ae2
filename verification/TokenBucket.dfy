/**
  The rate limiter's bucket script (`gateway/limits.py`) over exact reals: what
  it lets through, what its idle expiry may drop, and what a refusal's
  Retry-After is worth.
*/
module TokenBucket {
  import opened Prelude

  datatype Config = Config(capacity: real, refill: real)

  /** `HMGET tokens updated`. */
  datatype Bucket = Bucket(tokens: real, updated: real)

  datatype Reply = Reply(allowed: bool, tokens: real, retryAfter: real)

  function Min(a: real, b: real): real { if a <= b then a else b }

  /** Settings refuse anything below one; a burst below the rate is refused too, which nothing here needs. */
  predicate Usable(c: Config) { c.capacity >= 1.0 && c.refill > 0.0 }

  function Earned(c: Config, span: real): real { span * c.refill }

  /** The bucket as the script finds it, topped up to `now`. A clock that goes back is ignored. */
  function Refilled(c: Config, stored: Option<Bucket>, now: real): Bucket {
    match stored
    case None => Bucket(c.capacity, now)
    case Some(b) =>
      if now > b.updated then Bucket(Min(c.capacity, b.tokens + Earned(c, now - b.updated)), now) else b
  }

  function Probe(c: Config, stored: Option<Bucket>, now: real): (Bucket, Reply)
    requires c.refill > 0.0
  {
    var b := Refilled(c, stored, now);
    if b.tokens >= 1.0 then (Bucket(b.tokens - 1.0, b.updated), Reply(true, b.tokens - 1.0, 0.0))
    else (b, Reply(false, b.tokens, (1.0 - b.tokens) / c.refill))
  }

  /** `_BUCKET_SCRIPT`, statement by statement. */
  method RunScript(c: Config, stored: Option<Bucket>, now: real) returns (saved: Bucket, reply: Reply)
    requires c.refill > 0.0
    ensures (saved, reply) == Probe(c, stored, now)
  {
    var tokens, updated := c.capacity, now;
    if stored.Some? {
      tokens, updated := stored.value.tokens, stored.value.updated;
    }
    var elapsed := now - updated;
    if elapsed > 0.0 {
      tokens := Min(c.capacity, tokens + Earned(c, elapsed));
      updated := now;
    }
    var allowed, retryAfter := false, 0.0;
    if tokens >= 1.0 {
      allowed := true;
      tokens := tokens - 1.0;
    } else {
      retryAfter := (1.0 - tokens) / c.refill;
    }
    saved := Bucket(tokens, updated);
    reply := Reply(allowed, tokens, retryAfter);
  }

  /* ------------------------------------------------------------------ */
  /* The exact law                                                        */
  /* ------------------------------------------------------------------ */

  /** The bucket after these checks, one caller, nothing dropped. */
  function After(c: Config, times: seq<real>): Option<Bucket>
    requires c.refill > 0.0
  {
    if times == [] then None
    else var n := |times| - 1; Some(Probe(c, After(c, times[..n]), times[n]).0)
  }

  /** The time the bucket believes at check `n`: the latest it has been told. */
  function Clock(times: seq<real>, n: nat): real
    requires n < |times|
  {
    if n == 0 then times[0] else if times[n] > Clock(times, n - 1) then times[n] else Clock(times, n - 1)
  }

  function Available(c: Config, times: seq<real>, n: nat): real
    requires n < |times| && c.refill > 0.0
  {
    Refilled(c, After(c, times[..n]), times[n]).tokens
  }

  predicate Admits(c: Config, times: seq<real>, n: nat)
    requires n < |times| && c.refill > 0.0
  {
    Probe(c, After(c, times[..n]), times[n]).1.allowed
  }

  function Spent(c: Config, times: seq<real>, n: nat): real
    requires n < |times| && c.refill > 0.0
  {
    if Admits(c, times, n) then 1.0 else 0.0
  }

  /** How many of the checks `i`, ..., `n - 1` were admitted. */
  function Admitted(c: Config, times: seq<real>, i: nat, n: nat): nat
    requires i <= n <= |times| && c.refill > 0.0
  {
    if i == n then 0 else Admitted(c, times, i, n - 1) + (if Admits(c, times, n - 1) then 1 else 0)
  }

  /** What the window opened by check `i` still allows at check `n`. */
  function Budget(c: Config, times: seq<real>, i: nat, n: nat): real
    requires i <= n < |times| && c.refill > 0.0
  {
    c.capacity + Earned(c, Clock(times, n) - Clock(times, i)) - Admitted(c, times, i, n) as real
  }

  lemma {:induction false} ClockKeepsTime(c: Config, times: seq<real>, n: nat)
    requires n < |times| && c.refill > 0.0
    ensures After(c, times[..n + 1]).value.updated == Clock(times, n)
  {
    assert times[..n + 1][..n] == times[..n];
    if n > 0 { ClockKeepsTime(c, times, n - 1); }
  }

  lemma NothingEarned(c: Config)
    ensures Earned(c, 0.0) == 0.0
  {
  }

  lemma AvailableSteps(c: Config, times: seq<real>, n: nat)
    requires 0 < n < |times| && Usable(c)
    requires Available(c, times, n - 1) <= c.capacity
    ensures Available(c, times, n)
            == Min(c.capacity, Available(c, times, n - 1) - Spent(c, times, n - 1)
                               + Earned(c, Clock(times, n) - Clock(times, n - 1)))
  {
    assert times[..n][..n - 1] == times[..n - 1];
    ClockKeepsTime(c, times, n - 1);
    NothingEarned(c);
    assert After(c, times[..n]).value.tokens == Available(c, times, n - 1) - Spent(c, times, n - 1);
  }

  lemma BudgetSteps(c: Config, times: seq<real>, i: nat, n: nat)
    requires i < n < |times| && c.refill > 0.0
    ensures Budget(c, times, i, n)
            == Budget(c, times, i, n - 1) - Spent(c, times, n - 1) + Earned(c, Clock(times, n) - Clock(times, n - 1))
  {
    EarnedAdds(c, Clock(times, n - 1) - Clock(times, i), Clock(times, n) - Clock(times, n - 1));
  }

  lemma EarnedAdds(c: Config, x: real, y: real)
    ensures Earned(c, x + y) == Earned(c, x) + Earned(c, y)
  {
  }

  ghost predicate Tightest(c: Config, times: seq<real>, i: nat, n: nat) {
    i <= n < |times| && c.refill > 0.0 && Available(c, times, n) == Budget(c, times, i, n)
  }

  /** The tokens before a check are the smallest budget any window leaves it. */
  lemma {:induction false} BucketLaw(c: Config, times: seq<real>, n: nat)
    requires n < |times| && Usable(c)
    ensures forall i :: 0 <= i <= n ==> Available(c, times, n) <= Budget(c, times, i, n)
    ensures exists i: nat :: Tightest(c, times, i, n)
    ensures 0.0 <= Available(c, times, n) <= c.capacity
  {
    if n == 0 {
      assert times[..0] == [];
      assert Tightest(c, times, 0, 0);
    } else {
      BucketLaw(c, times, n - 1);
      AvailableSteps(c, times, n);
      ClockGoesForward(times, n);
      Scale(c, Clock(times, n) - Clock(times, n - 1));
      NothingEarned(c);
      assert Budget(c, times, n, n) == c.capacity;
      forall i | 0 <= i <= n ensures Available(c, times, n) <= Budget(c, times, i, n) {
        if i < n { BudgetSteps(c, times, i, n); }
      }
      var k: nat :| Tightest(c, times, k, n - 1);
      BudgetSteps(c, times, k, n);
      assert Tightest(c, times, k, n) || Tightest(c, times, n, n);
    }
  }

  lemma ClockGoesForward(times: seq<real>, n: nat)
    requires 0 < n < |times|
    ensures Clock(times, n - 1) <= Clock(times, n)
  {
  }

  lemma Scale(c: Config, x: real)
    requires x >= 0.0 && c.refill > 0.0
    ensures Earned(c, x) >= 0.0
  {
  }

  /** Admitting check `n` would put more through the window since `i` than the window allows. */
  predicate Overdraws(c: Config, times: seq<real>, i: nat, n: nat)
    requires n < |times| && c.refill > 0.0
  {
    i <= n && Admitted(c, times, i, n) as real + 1.0 > c.capacity + Earned(c, Clock(times, n) - Clock(times, i))
  }

  /** A check is refused exactly when some window could not take it. */
  lemma RefusedIffSomeWindowIsFull(c: Config, times: seq<real>, n: nat)
    requires n < |times| && Usable(c)
    ensures !Admits(c, times, n) <==> exists i: nat :: Overdraws(c, times, i, n)
  {
    BucketLaw(c, times, n);
    var k: nat :| Tightest(c, times, k, n);
    if !Admits(c, times, n) { assert Overdraws(c, times, k, n); }
    if i: nat :| Overdraws(c, times, i, n) { assert Available(c, times, n) <= Budget(c, times, i, n); }
  }

  /** No window, from any check to any later one, admits more than its capacity plus its refill. */
  lemma EveryWindowIsBounded(c: Config, times: seq<real>, i: nat, n: nat)
    requires i <= n < |times| && Usable(c)
    ensures Admitted(c, times, i, n + 1) as real <= c.capacity + Earned(c, Clock(times, n) - Clock(times, i))
  {
    BucketLaw(c, times, n);
    assert Available(c, times, n) <= Budget(c, times, i, n);
    assert Admitted(c, times, i, n + 1) == Admitted(c, times, i, n) + (if Admits(c, times, n) then 1 else 0);
  }

  predicate Nondecreasing(times: seq<real>) { forall i, j :: 0 <= i < j < |times| ==> times[i] <= times[j] }

  lemma {:induction false} SteadyClock(times: seq<real>, n: nat)
    requires n < |times| && Nondecreasing(times)
    ensures Clock(times, n) == times[n]
  {
    if n > 0 { SteadyClock(times, n - 1); }
  }

  /* ------------------------------------------------------------------ */
  /* Expiry                                                               */
  /* ------------------------------------------------------------------ */

  /** A key and when Redis may drop it. */
  datatype Stored = Stored(bucket: Bucket, deadline: real)

  datatype Event = Check(key: string, now: real) | Expire(key: string, now: real)

  function Max(a: real, b: real): real { if a >= b then a else b }

  /** Python's `int`. */
  function Trunc(x: real): int { if x >= 0.0 then x.Floor else -((-x).Floor) }

  function IdleTtl(c: Config): int
    requires c.capacity >= 0.0
  {
    var n := Trunc(c.capacity / Max(c.refill, 0.000000001)) + 1;
    if n > 1 then n else 1
  }

  function Found(redis: map<string, Stored>, key: string): Option<Bucket> {
    if key in redis then Some(redis[key].bucket) else None
  }

  /** Redis drops a key only once its deadline has come, and may be late. */
  function Serve(c: Config, ttl: int, redis: map<string, Stored>, e: Event): (map<string, Stored>, Option<Reply>)
    requires c.refill > 0.0
  {
    match e
    case Check(key, now) =>
      var (saved, reply) := Probe(c, Found(redis, key), now);
      (redis[key := Stored(saved, now + ttl as real)], Some(reply))
    case Expire(key, now) =>
      (if key in redis && redis[key].deadline <= now then redis - {key} else redis, None)
  }

  /** The same service on a store that keeps every bucket for ever. */
  function ServeKept(c: Config, kept: map<string, Bucket>, e: Event): (map<string, Bucket>, Option<Reply>)
    requires c.refill > 0.0
  {
    match e
    case Check(key, now) =>
      var (saved, reply) := Probe(c, if key in kept then Some(kept[key]) else None, now);
      (kept[key := saved], Some(reply))
    case Expire(_, _) => (kept, None)
  }

  function RedisAfter(c: Config, ttl: int, events: seq<Event>): map<string, Stored>
    requires c.refill > 0.0
  {
    if events == [] then map[]
    else var n := |events| - 1; Serve(c, ttl, RedisAfter(c, ttl, events[..n]), events[n]).0
  }

  function KeptAfter(c: Config, events: seq<Event>): map<string, Bucket>
    requires c.refill > 0.0
  {
    if events == [] then map[]
    else var n := |events| - 1; ServeKept(c, KeptAfter(c, events[..n]), events[n]).0
  }

  /** One clock that does not go back. */
  predicate InOrder(events: seq<Event>) { forall i, j :: 0 <= i < j < |events| ==> events[i].now <= events[j].now }

  /** The two stores hold one bucket, or the dropped one has been idle long enough to be full. */
  predicate Alike(c: Config, ttl: int, redis: map<string, Stored>, kept: map<string, Bucket>, now: real, key: string) {
    if key !in kept then key !in redis
    else
      && kept[key].tokens >= 0.0 && kept[key].updated <= now
      && if key in redis then redis[key] == Stored(kept[key], kept[key].updated + ttl as real)
         else kept[key].updated + ttl as real <= now
  }

  ghost predicate AllAlike(c: Config, ttl: int, redis: map<string, Stored>, kept: map<string, Bucket>, now: real) {
    forall key {:trigger Alike(c, ttl, redis, kept, now, key)} :: Alike(c, ttl, redis, kept, now, key)
  }

  lemma TtlRefills(c: Config)
    requires Usable(c) && c.refill >= 0.000000001
    ensures Earned(c, IdleTtl(c) as real) >= c.capacity && IdleTtl(c) >= 1
  {
    var idle := c.capacity / c.refill;
    assert Earned(c, idle) == c.capacity;
    assert IdleTtl(c) as real >= idle;
    EarnedAdds(c, idle, IdleTtl(c) as real - idle);
    Scale(c, IdleTtl(c) as real - idle);
  }

  /** A bucket idle for the TTL is full again: as if it had never been. */
  lemma IdleIsFull(c: Config, b: Bucket, now: real)
    requires Usable(c) && c.refill >= 0.000000001 && b.tokens >= 0.0 && b.updated + IdleTtl(c) as real <= now
    ensures Probe(c, Some(b), now) == Probe(c, None, now)
  {
    TtlRefills(c);
    var spare := now - b.updated - IdleTtl(c) as real;
    EarnedAdds(c, IdleTtl(c) as real, spare);
    Scale(c, spare);
  }

  lemma ServeKeepsAlike(c: Config, redis: map<string, Stored>, kept: map<string, Bucket>, now: real, e: Event)
    requires Usable(c) && c.refill >= 0.000000001 && now <= e.now
    requires AllAlike(c, IdleTtl(c), redis, kept, now)
    ensures Serve(c, IdleTtl(c), redis, e).1 == ServeKept(c, kept, e).1
    ensures AllAlike(c, IdleTtl(c), Serve(c, IdleTtl(c), redis, e).0, ServeKept(c, kept, e).0, e.now)
  {
    var ttl := IdleTtl(c);
    assert Alike(c, ttl, redis, kept, now, e.key);
    if e.Check? && e.key in kept {
      if e.key !in redis { IdleIsFull(c, kept[e.key], e.now); }
      Scale(c, e.now - kept[e.key].updated);
    }
    forall key ensures Alike(c, ttl, Serve(c, ttl, redis, e).0, ServeKept(c, kept, e).0, e.now, key) {
      assert Alike(c, ttl, redis, kept, now, key);
    }
  }

  lemma {:induction false} StoresStayAlike(c: Config, events: seq<Event>, now: real)
    requires Usable(c) && c.refill >= 0.000000001 && InOrder(events)
    requires events != [] ==> events[|events| - 1].now <= now
    ensures AllAlike(c, IdleTtl(c), RedisAfter(c, IdleTtl(c), events), KeptAfter(c, events), now)
    decreases |events|
  {
    if events != [] {
      var n := |events| - 1;
      var last := events[n].now;
      StoresStayAlike(c, events[..n], last);
      ServeKeepsAlike(c, RedisAfter(c, IdleTtl(c), events[..n]), KeptAfter(c, events[..n]), last, events[n]);
      forall key ensures Alike(c, IdleTtl(c), RedisAfter(c, IdleTtl(c), events), KeptAfter(c, events), now, key) {
        assert Alike(c, IdleTtl(c), RedisAfter(c, IdleTtl(c), events), KeptAfter(c, events), last, key);
      }
    }
  }

  /** One caller's checks, in order. */
  function OwnTimes(events: seq<Event>, key: string): seq<real> {
    if events == [] then []
    else
      var n := |events| - 1;
      OwnTimes(events[..n], key) + (if events[n].Check? && events[n].key == key then [events[n].now] else [])
  }

  lemma {:induction false} KeptIsOwnHistory(c: Config, events: seq<Event>, key: string)
    requires c.refill > 0.0
    ensures After(c, OwnTimes(events, key))
            == if key in KeptAfter(c, events) then Some(KeptAfter(c, events)[key]) else None
  {
    if events != [] {
      var n := |events| - 1;
      KeptIsOwnHistory(c, events[..n], key);
      var own := OwnTimes(events[..n], key);
      assert own + [] == own && (own + [events[n].now])[..|own|] == own;
    }
  }

  /** What settings allow: at least one a minute, a burst of at least one. */
  function FromSettings(perMinute: int, burst: int): Config { Config(burst as real, perMinute as real / 60.0) }

  /**
    Whatever Redis drops, and however late, and however many callers share it:
    each check is answered as the caller's own uninterrupted history answers it.
  */
  lemma ExpiryIsUnobservable(perMinute: int, burst: int, events: seq<Event>, key: string, now: real)
    requires perMinute >= 1 && burst >= 1 && InOrder(events + [Event.Check(key, now)])
    ensures var c := FromSettings(perMinute, burst);
            Serve(c, IdleTtl(c), RedisAfter(c, IdleTtl(c), events), Event.Check(key, now)).1
            == Some(Probe(c, After(c, OwnTimes(events, key)), now).1)
  {
    var c := FromSettings(perMinute, burst);
    assert c.refill >= 1.0 / 60.0;
    var all := events + [Event.Check(key, now)];
    assert forall i :: 0 <= i < |events| ==> events[i] == all[i];
    assert all[|events|].now == now;
    StoresStayAlike(c, events, now);
    ServeKeepsAlike(c, RedisAfter(c, IdleTtl(c), events), KeptAfter(c, events), now, Event.Check(key, now));
    KeptIsOwnHistory(c, events, key);
  }

  /* ------------------------------------------------------------------ */
  /* Refusals                                                             */
  /* ------------------------------------------------------------------ */

  predicate Refused(c: Config, b: Bucket, now: real)
    requires c.refill > 0.0
  {
    !Probe(c, Some(b), now).1.allowed
  }

  /** A refused check leaves the next one, at any later time, exactly as it would have been. */
  lemma RefusedProbeIsInert(c: Config, b: Bucket, now: real, later: real)
    requires Usable(c) && b.updated <= now <= later && Refused(c, b, now)
    ensures Probe(c, Some(Probe(c, Some(b), now).0), later) == Probe(c, Some(b), later)
  {
    EarnedAdds(c, now - b.updated, later - now);
    Scale(c, later - now);
    NothingEarned(c);
  }

  function ProbedAll(c: Config, b: Bucket, times: seq<real>): Bucket
    requires c.refill > 0.0
    decreases |times|
  {
    if times == [] then b else ProbedAll(c, Probe(c, Some(b), times[0]).0, times[1..])
  }

  predicate AllRefused(c: Config, b: Bucket, times: seq<real>)
    requires c.refill > 0.0
    decreases |times|
  {
    times == [] || (Refused(c, b, times[0]) && AllRefused(c, Probe(c, Some(b), times[0]).0, times[1..]))
  }

  predicate Ordered(from: real, times: seq<real>, to: real)
    decreases |times|
  {
    if times == [] then from <= to else from <= times[0] && Ordered(times[0], times[1..], to)
  }

  lemma {:induction false} RefusedProbesAreInert(c: Config, b: Bucket, times: seq<real>, later: real)
    requires Usable(c) && AllRefused(c, b, times) && Ordered(b.updated, times, later)
    ensures Probe(c, Some(ProbedAll(c, b, times)), later) == Probe(c, Some(b), later)
    decreases |times|
  {
    if times != [] {
      var next := Probe(c, Some(b), times[0]).0;
      OrderedSpan(times[0], times[1..], later);
      RefusedProbeIsInert(c, b, times[0], later);
      RefusedProbesAreInert(c, next, times[1..], later);
    }
  }

  lemma {:induction false} OrderedSpan(from: real, times: seq<real>, to: real)
    requires Ordered(from, times, to)
    ensures from <= to
    decreases |times|
  {
    if times != [] { OrderedSpan(times[0], times[1..], to); }
  }

  /** The wait a refusal reports is the whole wait and no more. */
  lemma RetryAfterIsExact(c: Config, b: Bucket, now: real, later: real)
    requires Usable(c) && b.updated <= now <= later && Refused(c, b, now)
    ensures Refused(c, b, later) <==> later - now < Probe(c, Some(b), now).1.retryAfter
  {
    var short := 1.0 - Probe(c, Some(b), now).1.tokens;
    RefusedProbeIsInert(c, b, now, later);
    NothingEarned(c);
    Divide(c, later - now, short);
  }

  lemma Divide(c: Config, x: real, short: real)
    requires c.refill > 0.0
    ensures x < short / c.refill <==> Earned(c, x) < short
  {
    var y := short / c.refill;
    assert Earned(c, y) == short;
    EarnedAdds(c, x, y - x);
    if x < y { Grow(c, y - x); } else { Scale(c, x - y); EarnedAdds(c, y, x - y); }
  }

  lemma Grow(c: Config, x: real)
    requires x > 0.0 && c.refill > 0.0
    ensures Earned(c, x) > 0.0
  {
  }

  function Ceil(x: real): int { -((-x).Floor) }

  /** The header: whole seconds, rounded up, at least one. */
  function RetryAfterHeader(r: Reply): int { if Ceil(r.retryAfter) > 1 then Ceil(r.retryAfter) else 1 }

  /**
    A caller that waits what the header says is admitted, even if it kept
    knocking in between.
  */
  lemma WaitingTheHeaderIsEnough(c: Config, b: Bucket, now: real, knocks: seq<real>, later: real)
    requires Usable(c) && b.updated <= now && Refused(c, b, now)
    requires AllRefused(c, Probe(c, Some(b), now).0, knocks) && Ordered(now, knocks, later)
    requires later >= now + RetryAfterHeader(Probe(c, Some(b), now).1) as real
    ensures !Refused(c, ProbedAll(c, Probe(c, Some(b), now).0, knocks), later)
  {
    var refused := Probe(c, Some(b), now);
    RetryAfterIsExact(c, b, now, later);
    RefusedProbeIsInert(c, b, now, later);
    RefusedProbesAreInert(c, refused.0, knocks, later);
  }

  /* ---- the limiter ------------------------------------------------------- */

  datatype Decision = Decision(allowed: bool, remaining: int, retryAfter: real)

  class Limiter {
    const config: Config
    const idleTtl: int
    var redis: map<string, Stored>

    predicate Valid() { Usable(config) && idleTtl == IdleTtl(config) }

    constructor (perMinute: int, burst: int)
      requires perMinute >= 1 && burst >= 1
      ensures Valid() && config == FromSettings(perMinute, burst) && redis == map[]
    {
      var c := FromSettings(perMinute, burst);
      assert c.refill >= 1.0 / 60.0;
      config, idleTtl, redis := c, IdleTtl(c), map[];
    }

    method Check(key: string, now: real) returns (d: Decision)
      requires Valid()
      modifies this
      ensures redis == Serve(config, idleTtl, old(redis), Event.Check(key, now)).0
      ensures var reply := Serve(config, idleTtl, old(redis), Event.Check(key, now)).1.value;
              d == Decision(reply.allowed, Trunc(reply.tokens), reply.retryAfter)
    {
      var saved, reply := RunScript(config, Found(redis, key), now);
      redis := redis[key := Stored(saved, now + idleTtl as real)];
      d := Decision(reply.allowed, Trunc(reply.tokens), reply.retryAfter);
    }
  }
}
