/**
 The token-bucket rate limiter of the API gateway. Clients own one bucket each; a background
 task prunes buckets that were idle for more than two refill intervals.
 */
module RateLimiter {

  /** What is left in a bucket and when it was last refilled. */
  datatype Bucket = Bucket(tokens: real, lastRefill: real)

  type Buckets = map<string, Bucket>

  /** Tokens per interval, and the interval. */
  datatype Limits = Limits(max: real, interval: real)

  predicate ValidLimits(l: Limits) {
    l.interval > 0.0
  }

  // ---------- the rules ----------

  /** Tokens that trickle in over `elapsed`. */
  function Trickle(l: Limits, elapsed: real): real
    requires ValidLimits(l)
  {
    (elapsed / l.interval) * l.max
  }

  lemma TrickleForm(l: Limits, elapsed: real)
    requires ValidLimits(l)
    ensures Trickle(l, elapsed) == l.max * elapsed / l.interval
  {
  }

  lemma TrickleNonNegative(l: Limits, elapsed: real)
    requires ValidLimits(l) && l.max >= 0.0 && elapsed >= 0.0
    ensures Trickle(l, elapsed) >= 0.0
  {
  }

  function Refilled(l: Limits, b: Bucket, now: real): real
    requires ValidLimits(l)
  {
    var tokens := b.tokens + Trickle(l, now - b.lastRefill);
    if tokens > l.max then l.max else tokens
  }

  function Allowed(l: Limits, m: Buckets, key: string, now: real): bool
    requires ValidLimits(l)
  {
    key in m ==> Refilled(l, m[key], now) >= 1.0
  }

  function AfterRequest(l: Limits, m: Buckets, key: string, now: real): Buckets
    requires ValidLimits(l)
  {
    if key !in m then m[key := Bucket(l.max - 1.0, now)]
    else
      var tokens := Refilled(l, m[key], now);
      m[key := Bucket(if tokens < 1.0 then tokens else tokens - 1.0, now)]
  }

  /** The verdict and the new balance, in the terms a client counts in. */
  lemma RequestForm(l: Limits, m: Buckets, key: string, now: real)
    requires ValidLimits(l)
    ensures key !in m ==>
      Allowed(l, m, key, now) && AfterRequest(l, m, key, now) == m[key := Bucket(l.max - 1.0, now)]
    ensures key in m ==>
      var full := m[key].tokens + l.max * (now - m[key].lastRefill) / l.interval;
      var ok := full >= 1.0 && l.max >= 1.0;
      && Allowed(l, m, key, now) == ok
      && AfterRequest(l, m, key, now) ==
           m[key := Bucket((if full > l.max then l.max else full) - (if ok then 1.0 else 0.0), now)]
  {
    if key in m {
      var elapsed := now - m[key].lastRefill;
      TrickleForm(l, elapsed);
      assert Trickle(l, now - m[key].lastRefill) == l.max * (now - m[key].lastRefill) / l.interval;
    }
  }

  predicate Stale(l: Limits, b: Bucket, now: real) {
    b.lastRefill < now - 2.0 * l.interval
  }

  function AfterPrune(l: Limits, m: Buckets, now: real): Buckets {
    map key | key in m && !Stale(l, m[key], now) :: m[key]
  }

  // ---------- the limiter object ----------

  class Limiter {
    const limits: Limits
    var buckets: Buckets

    constructor (maxRequests: int, interval: real)
      ensures limits == Limits(maxRequests as real, interval) && buckets == map[]
      ensures ValidLimits(limits) <==> interval > 0.0
    {
      limits := Limits(maxRequests as real, interval);
      buckets := map[];
    }

    method Allow(key: string, now: real) returns (ok: bool)
      requires ValidLimits(limits)
      modifies this`buckets
      ensures ok == Allowed(limits, old(buckets), key, now)
      ensures buckets == AfterRequest(limits, old(buckets), key, now)
      ensures key !in old(buckets) ==> ok && buckets == old(buckets)[key := Bucket(limits.max - 1.0, now)]
      ensures key in old(buckets) ==>
        var b := old(buckets)[key];
        var full := b.tokens + limits.max * (now - b.lastRefill) / limits.interval;
        && (ok <==> full >= 1.0 && limits.max >= 1.0)
        && buckets == old(buckets)[key := Bucket((if full > limits.max then limits.max else full)
                                                 - (if ok then 1.0 else 0.0), now)]
    {
      RequestForm(limits, buckets, key, now);
      if key !in buckets {
        buckets := buckets[key := Bucket(limits.max - 1.0, now)];
        return true;
      }
      var bucket := buckets[key];
      var elapsed := now - bucket.lastRefill;
      bucket := Bucket(bucket.tokens + (elapsed / limits.interval) * limits.max, now);
      if bucket.tokens > limits.max {
        bucket := bucket.(tokens := limits.max);
      }
      if bucket.tokens < 1.0 {
        buckets := buckets[key := bucket];
        return false;
      }
      buckets := buckets[key := bucket.(tokens := bucket.tokens - 1.0)];
      return true;
    }

    method PruneStaleEntries(now: real)
      modifies this`buckets
      ensures buckets == AfterPrune(limits, old(buckets), now)
      ensures forall key :: key in buckets <==>
        key in old(buckets) && now - old(buckets)[key].lastRefill <= 2.0 * limits.interval
      ensures forall key :: key in buckets ==> buckets[key] == old(buckets)[key]
    {
      var threshold := now - 2.0 * limits.interval;
      var todo := buckets.Keys;
      while todo != {}
        invariant todo <= old(buckets).Keys && buckets.Keys <= old(buckets).Keys
        invariant forall key :: key in todo ==> key in buckets
        invariant forall key :: key in buckets ==> buckets[key] == old(buckets)[key]
        invariant forall key :: key in old(buckets) && key !in todo ==>
          (key in buckets <==> !Stale(limits, old(buckets)[key], now))
        decreases todo
      {
        var key :| key in todo;
        if buckets[key].lastRefill < threshold {
          buckets := buckets - {key};
        }
        todo := todo - {key};
      }
    }
  }

  // ---------- runs ----------

  datatype Event = Request(key: string, time: real) | Prune(time: real)

  /** The clock never runs backwards. */
  ghost predicate Clocked(evs: seq<Event>) {
    forall i, j :: 0 <= i <= j < |evs| ==> evs[i].time <= evs[j].time
  }

  /** The buckets after the first n events, with or without acting on prune events. */
  function After(l: Limits, evs: seq<Event>, pruning: bool, n: nat): Buckets
    requires ValidLimits(l) && n <= |evs|
  {
    if n == 0 then map[]
    else
      var m := After(l, evs, pruning, n - 1);
      match evs[n - 1]
      case Request(key, time) => AfterRequest(l, m, key, time)
      case Prune(time) => if pruning then AfterPrune(l, m, time) else m
  }

  /** Event n is a request and is let through. */
  predicate Passes(l: Limits, evs: seq<Event>, pruning: bool, n: nat)
    requires ValidLimits(l) && n < |evs|
  {
    evs[n].Request? && Allowed(l, After(l, evs, pruning, n), evs[n].key, evs[n].time)
  }

  // ---------- arithmetic of refilling ----------

  lemma TrickleAdds(l: Limits, a: real, b: real)
    requires ValidLimits(l)
    ensures Trickle(l, a + b) == Trickle(l, a) + Trickle(l, b)
  {
    assert (a + b) / l.interval == a / l.interval + b / l.interval;
  }

  lemma QuotaForm(l: Limits, elapsed: real)
    requires ValidLimits(l)
    ensures Quota(l, elapsed) == l.max + Trickle(l, elapsed)
  {
  }

  /** Two idle intervals fill any bucket. */
  lemma StaleIsFull(l: Limits, b: Bucket, now: real)
    requires ValidLimits(l) && l.max >= 0.0 && b.tokens >= 0.0 && Stale(l, b, now)
    ensures Refilled(l, b, now) == l.max
  {
    var x := (now - b.lastRefill) / l.interval;
    assert x * l.interval == now - b.lastRefill;
    assert x >= 1.0;
    assert x * l.max >= 1.0 * l.max;
  }

  // ---------- pruning is invisible ----------

  /** No bucket is overdrawn or dated in the future. */
  ghost predicate Sound(l: Limits, m: Buckets, now: real) {
    forall key :: key in m ==> 0.0 <= m[key].tokens && m[key].lastRefill <= now
  }

  /** The pruned buckets are the others minus some that have been idle long enough to be full. */
  ghost predicate Agrees(l: Limits, pruned: Buckets, plain: Buckets, now: real) {
    && Sound(l, plain, now)
    && (forall key :: key in pruned ==> key in plain && pruned[key] == plain[key])
    && (forall key :: key in plain && key !in pruned ==> Stale(l, plain[key], now))
  }

  lemma RequestAgrees(l: Limits, pruned: Buckets, plain: Buckets, key: string, now: real)
    requires ValidLimits(l) && l.max >= 1.0 && Agrees(l, pruned, plain, now)
    ensures Allowed(l, pruned, key, now) == Allowed(l, plain, key, now)
    ensures Agrees(l, AfterRequest(l, pruned, key, now), AfterRequest(l, plain, key, now), now)
  {
    if key in plain {
      if key !in pruned {
        StaleIsFull(l, plain[key], now);
      }
    }
  }

  lemma {:induction false} RunsAgree(l: Limits, evs: seq<Event>, n: nat, now: real)
    requires ValidLimits(l) && l.max >= 1.0 && Clocked(evs) && n <= |evs|
    requires n > 0 ==> evs[n - 1].time <= now
    ensures Agrees(l, After(l, evs, true, n), After(l, evs, false, n), now)
  {
    if n > 0 {
      var t := evs[n - 1].time;
      RunsAgree(l, evs, n - 1, t);
      if evs[n - 1].Request? {
        RequestAgrees(l, After(l, evs, true, n - 1), After(l, evs, false, n - 1), evs[n - 1].key, t);
      }
    }
  }

  /** Every request gets the answer it would get from a limiter that never prunes. */
  lemma PruningInvisible(l: Limits, evs: seq<Event>, n: nat)
    requires ValidLimits(l) && l.max >= 1.0 && Clocked(evs) && n < |evs|
    ensures Passes(l, evs, true, n) <==> Passes(l, evs, false, n)
  {
    RunsAgree(l, evs, n, evs[n].time);
    if evs[n].Request? {
      RequestAgrees(l, After(l, evs, true, n), After(l, evs, false, n), evs[n].key, evs[n].time);
    }
  }

  ghost predicate NeverNoticed(l: Limits)
    requires ValidLimits(l)
  {
    forall evs, n :: Clocked(evs) && 0 <= n < |evs| ==> (Passes(l, evs, true, n) <==> Passes(l, evs, false, n))
  }

  /** A limiter for less than one request per interval lets a client back in by forgetting it. */
  lemma ForgottenClient(l: Limits)
    requires ValidLimits(l) && l.max < 1.0
    ensures !NeverNoticed(l)
  {
    var t := 3.0 * l.interval;
    var evs := [Request("a", 0.0), Prune(t), Request("a", t)];
    assert After(l, evs, true, 0) == map[] && After(l, evs, false, 0) == map[];
    assert After(l, evs, false, 1) == map["a" := Bucket(l.max - 1.0, 0.0)];
    assert After(l, evs, true, 1) == map["a" := Bucket(l.max - 1.0, 0.0)];
    assert After(l, evs, true, 2) == map[];
    assert After(l, evs, false, 2) == After(l, evs, false, 1);
    assert Clocked(evs);
    assert Passes(l, evs, true, 2) && !Passes(l, evs, false, 2);
  }

  lemma PruningInvisibleIff(l: Limits)
    requires ValidLimits(l)
    ensures NeverNoticed(l) <==> l.max >= 1.0
  {
    if l.max >= 1.0 {
      forall evs, n | Clocked(evs) && 0 <= n < |evs|
        ensures Passes(l, evs, true, n) <==> Passes(l, evs, false, n)
      {
        PruningInvisible(l, evs, n);
      }
    } else {
      ForgottenClient(l);
    }
  }

  // ---------- how many requests pass in a window ----------

  /** What the client could spend at once at time `now`. */
  ghost function Available(l: Limits, m: Buckets, key: string, now: real): real
    requires ValidLimits(l)
  {
    if key in m then Refilled(l, m[key], now) else l.max
  }

  /** Requests of `key` that pass among events i to j - 1. */
  ghost function Passed(l: Limits, evs: seq<Event>, key: string, i: nat, j: nat): nat
    requires ValidLimits(l) && i <= j <= |evs|
    decreases j
  {
    if i == j then 0
    else
      Passed(l, evs, key, i, j - 1) + if Passes(l, evs, true, j - 1) && evs[j - 1].key == key then 1 else 0
  }

  lemma AvailableGrows(l: Limits, m: Buckets, key: string, now: real, later: real)
    requires ValidLimits(l) && l.max >= 1.0 && now <= later && Sound(l, m, now)
    ensures 0.0 <= Available(l, m, key, now) <= l.max
    ensures Available(l, m, key, later) <= Available(l, m, key, now) + Trickle(l, later - now)
  {
    if key in m {
      var b := m[key];
      TrickleAdds(l, now - b.lastRefill, later - now);
    }
  }

  /** A request costs exactly what it lets through; pruning costs nothing. */
  lemma EventCost(l: Limits, m: Buckets, e: Event, key: string)
    requires ValidLimits(l) && l.max >= 1.0 && Sound(l, m, e.time)
    ensures e.Request? ==>
      Available(l, AfterRequest(l, m, e.key, e.time), key, e.time)
      == Available(l, m, key, e.time) - if e.key == key && Allowed(l, m, key, e.time) then 1.0 else 0.0
    ensures e.Prune? ==> Available(l, AfterPrune(l, m, e.time), key, e.time) == Available(l, m, key, e.time)
    ensures e.Request? ==> Sound(l, AfterRequest(l, m, e.key, e.time), e.time)
    ensures e.Prune? ==> Sound(l, AfterPrune(l, m, e.time), e.time)
  {
    assert Trickle(l, 0.0) == 0.0;
    if e.Prune? && key in m && Stale(l, m[key], e.time) {
      StaleIsFull(l, m[key], e.time);
    }
  }

  lemma {:induction false} RunSound(l: Limits, evs: seq<Event>, n: nat, now: real)
    requires ValidLimits(l) && l.max >= 1.0 && Clocked(evs) && n <= |evs|
    requires n > 0 ==> evs[n - 1].time <= now
    ensures Sound(l, After(l, evs, true, n), now)
  {
    if n > 0 {
      RunSound(l, evs, n - 1, evs[n - 1].time);
      EventCost(l, After(l, evs, true, n - 1), evs[n - 1], "");
    }
  }

  /** Every request that passes is paid for with one token. */
  lemma PassCosts(l: Limits, evs: seq<Event>, key: string, i: nat, j: nat)
    requires ValidLimits(l) && l.max >= 1.0 && Clocked(evs) && i < j <= |evs|
    ensures Passed(l, evs, key, i, j) as real + Available(l, After(l, evs, true, j), key, evs[j - 1].time)
         == Passed(l, evs, key, i, j - 1) as real + Available(l, After(l, evs, true, j - 1), key, evs[j - 1].time)
  {
    RunSound(l, evs, j - 1, evs[j - 1].time);
    EventCost(l, After(l, evs, true, j - 1), evs[j - 1], key);
  }

  lemma {:induction false} WindowBudget(l: Limits, evs: seq<Event>, key: string, i: nat, j: nat)
    requires ValidLimits(l) && l.max >= 1.0 && Clocked(evs) && i < j <= |evs|
    ensures Passed(l, evs, key, i, j) as real + Available(l, After(l, evs, true, j), key, evs[j - 1].time)
         <= l.max + Trickle(l, evs[j - 1].time - evs[i].time)
    decreases j
  {
    var before, t := After(l, evs, true, j - 1), evs[j - 1].time;
    RunSound(l, evs, j - 1, t);
    PassCosts(l, evs, key, i, j);
    if i + 1 == j {
      assert Trickle(l, 0.0) == 0.0;
      AvailableGrows(l, before, key, t, t);
    } else {
      var t0 := evs[j - 2].time;
      WindowBudget(l, evs, key, i, j - 1);
      RunSound(l, evs, j - 1, t0);
      AvailableGrows(l, before, key, t0, t);
      TrickleAdds(l, t0 - evs[i].time, t - t0);
    }
  }

  /** One full bucket plus the share of `elapsed`. */
  ghost function Quota(l: Limits, elapsed: real): real
    requires ValidLimits(l)
  {
    l.max + l.max * elapsed / l.interval
  }

  ghost predicate WindowBounded(l: Limits, evs: seq<Event>, key: string, i: nat, j: nat)
    requires ValidLimits(l) && i < j <= |evs|
  {
    Passed(l, evs, key, i, j) as real <= Quota(l, evs[j - 1].time - evs[i].time)
  }

  lemma PassedWithinTrickle(l: Limits, evs: seq<Event>, key: string, i: nat, j: nat)
    requires ValidLimits(l) && l.max >= 1.0 && Clocked(evs) && i < j <= |evs|
    ensures Passed(l, evs, key, i, j) as real <= l.max + Trickle(l, evs[j - 1].time - evs[i].time)
  {
    var t := evs[j - 1].time;
    WindowBudget(l, evs, key, i, j);
    assert Available(l, After(l, evs, true, j), key, t) >= 0.0 by {
      RunSound(l, evs, j, t);
      AvailableGrows(l, After(l, evs, true, j), key, t, t);
    }
  }

  /** In any window, at most one full bucket plus the trickle of that window passes. */
  lemma WindowBound(l: Limits, evs: seq<Event>, key: string, i: nat, j: nat)
    requires ValidLimits(l) && l.max >= 1.0 && Clocked(evs) && i < j <= |evs|
    ensures WindowBounded(l, evs, key, i, j)
  {
    PassedWithinTrickle(l, evs, key, i, j);
    QuotaForm(l, evs[j - 1].time - evs[i].time);
  }

  lemma WindowBoundIff(l: Limits)
    requires ValidLimits(l)
    ensures (forall evs, key, i, j :: Clocked(evs) && 0 <= i < j <= |evs| ==> WindowBounded(l, evs, key, i, j)) <==>
      l.max >= 1.0
  {
    if l.max >= 1.0 {
      forall evs, key, i, j | Clocked(evs) && 0 <= i < j <= |evs|
        ensures WindowBounded(l, evs, key, i, j)
      {
        WindowBound(l, evs, key, i, j);
      }
    } else {
      var evs := [Request("a", 0.0)];
      assert Clocked(evs);
      assert After(l, evs, true, 0) == map[];
      assert Passes(l, evs, true, 0);
      assert Passed(l, evs, "a", 0, 0) == 0;
      assert Passed(l, evs, "a", 0, 1) == 1;
      assert !WindowBounded(l, evs, "a", 0, 1);
    }
  }

  // ---------- the bound is attained ----------

  function Burst(key: string, time: real, n: nat): seq<Event> {
    seq(n, _ => Request(key, time))
  }

  lemma {:induction false} BurstState(l: Limits, key: string, time: real, n: nat, k: nat)
    requires ValidLimits(l) && 1 <= k <= n && n as real <= l.max
    ensures After(l, Burst(key, time, n), true, k) == map[key := Bucket(l.max - k as real, time)]
    ensures Passed(l, Burst(key, time, n), key, 0, k) == k
  {
    var evs := Burst(key, time, n);
    assert evs[k - 1] == Request(key, time);
    assert After(l, evs, true, 0) == map[] && Passed(l, evs, key, 0, 0) == 0;
    if k > 1 {
      BurstState(l, key, time, n, k - 1);
      assert Trickle(l, 0.0) == 0.0;
      assert Refilled(l, Bucket(l.max - (k - 1) as real, time), time) == l.max - (k - 1) as real;
    }
  }

  /** A new client can spend its whole bucket at one instant: the quota of an empty window is reached. */
  lemma WholeBucketPasses(l: Limits, key: string, time: real, n: nat)
    requires ValidLimits(l) && 1 <= n && n as real == l.max
    ensures Clocked(Burst(key, time, n))
    ensures Passed(l, Burst(key, time, n), key, 0, n) as real == Quota(l, 0.0)
  {
    BurstState(l, key, time, n, n);
    assert l.max * 0.0 / l.interval == 0.0;
  }

  /** How the bucket fills again: after a burst that emptied it, the next token is there after interval/max. */
  lemma RefillAfterBurst(l: Limits, key: string, t0: real, n: nat, t: real)
    requires ValidLimits(l) && 1 <= n && n as real == l.max && t0 <= t
    ensures var evs := Burst(key, t0, n) + [Request(key, t)];
            Passes(l, evs, true, n) <==> (t - t0) * l.max >= l.interval
  {
    var burst := Burst(key, t0, n);
    var evs := burst + [Request(key, t)];
    BurstState(l, key, t0, n, n);
    SamePrefix(l, burst, evs, n);
    assert After(l, evs, true, n) == map[key := Bucket(0.0, t0)];
    assert evs[n] == Request(key, t);
    NextToken(l, Bucket(0.0, t0), t);
  }

  lemma AtLeastOne(x: real, y: real)
    requires y > 0.0
    ensures x / y >= 1.0 <==> x >= y
  {
  }

  lemma NextToken(l: Limits, b: Bucket, now: real)
    requires ValidLimits(l) && l.max >= 1.0
    ensures b.tokens == 0.0 ==> (Refilled(l, b, now) >= 1.0 <==> (now - b.lastRefill) * l.max >= l.interval)
    ensures b.tokens >= 0.0 && (now - b.lastRefill) * l.max >= l.interval ==> Refilled(l, b, now) >= 1.0
  {
    TrickleForm(l, now - b.lastRefill);
    AtLeastOne(l.max * (now - b.lastRefill), l.interval);
  }

  lemma {:induction false} SamePrefix(l: Limits, a: seq<Event>, b: seq<Event>, n: nat)
    requires ValidLimits(l) && n <= |a| && a <= b
    ensures After(l, a, true, n) == After(l, b, true, n)
  {
    if n > 0 {
      SamePrefix(l, a, b, n - 1);
    }
  }

  /** Any two requests of the key are at least interval/max apart. */
  ghost predicate Spaced(l: Limits, evs: seq<Event>, key: string) {
    forall i, j :: 0 <= i < j < |evs| && Asks(evs[i], key) && Asks(evs[j], key) ==>
      (evs[j].time - evs[i].time) * l.max >= l.interval
  }

  predicate Asks(e: Event, key: string) {
    e.Request? && e.key == key
  }

  /** The key's bucket, if there is one, dates from its last request and is not overdrawn. */
  ghost predicate Solvent(evs: seq<Event>, m: Buckets, key: string, n: nat)
    requires n <= |evs|
  {
    key in m ==> m[key].tokens >= 0.0 && exists i :: 0 <= i < n && evs[i] == Request(key, m[key].lastRefill)
  }

  lemma {:induction false} StaysSolvent(l: Limits, evs: seq<Event>, key: string, n: nat)
    requires ValidLimits(l) && l.max >= 1.0 && Clocked(evs) && n <= |evs|
    ensures Solvent(evs, After(l, evs, true, n), key, n)
  {
    if n > 0 {
      StaysSolvent(l, evs, key, n - 1);
      RunSound(l, evs, n - 1, evs[n - 1].time);
      NextSolvent(l, evs, After(l, evs, true, n - 1), key, n - 1);
    }
  }

  lemma NextSolvent(l: Limits, evs: seq<Event>, m: Buckets, key: string, n: nat)
    requires ValidLimits(l) && l.max >= 1.0 && n < |evs| && Solvent(evs, m, key, n) && Sound(l, m, evs[n].time)
    ensures evs[n].Request? ==> Solvent(evs, AfterRequest(l, m, evs[n].key, evs[n].time), key, n + 1)
    ensures evs[n].Prune? ==> Solvent(evs, AfterPrune(l, m, evs[n].time), key, n + 1)
  {
    if Asks(evs[n], key) {
      assert evs[n] == Request(key, evs[n].time);
      if key in m {
        TrickleNonNegative(l, evs[n].time - m[key].lastRefill);
      }
    }
  }

  /** The promised rate is granted: a client that keeps interval/max between its requests is never refused. */
  lemma SteadyClientPasses(l: Limits, evs: seq<Event>, key: string, n: nat)
    requires ValidLimits(l) && l.max >= 1.0 && Clocked(evs) && Spaced(l, evs, key)
    requires n < |evs| && Asks(evs[n], key)
    ensures Passes(l, evs, true, n)
  {
    StaysSolvent(l, evs, key, n);
    SolventPasses(l, evs, After(l, evs, true, n), key, n);
  }

  lemma SolventPasses(l: Limits, evs: seq<Event>, m: Buckets, key: string, n: nat)
    requires ValidLimits(l) && l.max >= 1.0 && Spaced(l, evs, key)
    requires n < |evs| && Asks(evs[n], key) && Solvent(evs, m, key, n)
    ensures Allowed(l, m, key, evs[n].time)
  {
    if key in m {
      var i :| 0 <= i < n && evs[i] == Request(key, m[key].lastRefill);
      assert Asks(evs[i], key);
      NextToken(l, m[key], evs[n].time);
    }
  }
}
