/** The Redis-backed rate limiter (src/common/throttler-storage.ts). */
module Throttler {
  import opened Common
  import opened Redis
  import opened Text

  /** One `increment` call as the guard makes it; `ttl` and `blockDuration` are in milliseconds. */
  datatype Call = Call(at: nat, name: string, key: string, ttl: nat, limit: nat, blockDuration: nat)

  datatype Record = Record(totalHits: nat, timeToExpire: nat, isBlocked: bool, timeToBlockExpire: nat)

  type Store = map<string, Entry<nat>>

  function FullKey(name: string, key: string): string { "throttler:" + name + ":" + key }

  function BlockKey(name: string, key: string): string { FullKey(name, key) + ":blocked" }

  function CeilSeconds(ms: nat): (seconds: nat)
    ensures ms <= 1000 * seconds < ms + 1000
  {
    (ms + 999) / 1000
  }

  function Max0(x: int): nat { if x < 0 then 0 else x }

  /** Counters and flags always carry an expiry; a counter that exists has counted at least one hit. */
  predicate Valid(store: Store) {
    forall k <- store :: store[k].value >= 1 && store[k].expiry.Some?
  }

  /** What the store holds for one tracker: its hit counter and its block flag, expired or not. */
  datatype Tracker = Tracker(counter: Option<Entry<nat>>, flag: Option<Entry<nat>>)

  predicate LiveOption(e: Option<Entry<nat>>, now: nat) {
    e.Some? && Live(e.value, now)
  }

  function Raw(store: Store, name: string, key: string): Tracker {
    var full, block := FullKey(name, key), BlockKey(name, key);
    Tracker(if full in store then Some(store[full]) else None,
            if block in store then Some(store[block]) else None)
  }

  /** The seconds a new block lasts: the window when no block duration is configured. */
  function BlockSeconds(c: Call): (seconds: nat)
    ensures var ms := if c.blockDuration == 0 then c.ttl else c.blockDuration;
            ms <= 1000 * seconds < ms + 1000
  {
    if c.blockDuration == 0 then CeilSeconds(c.ttl) else CeilSeconds(c.blockDuration)
  }

  /** The hit counter after a call that is not turned away by the block flag. */
  function Counted(t: Tracker, c: Call): Entry<nat> {
    if LiveOption(t.counter, c.at) then Entry(t.counter.value.value + 1, t.counter.value.expiry)
    else Entry(1, Some(c.at + 1000 * CeilSeconds(c.ttl)))
  }

  function After(t: Tracker, c: Call): Tracker {
    if LiveOption(t.flag, c.at) then t
    else
      var counter := Counted(t, c);
      Tracker(Some(counter),
              if counter.value > c.limit && BlockSeconds(c) > 0 then Some(Entry(1, Some(c.at + 1000 * BlockSeconds(c))))
              else t.flag)
  }

  predicate Refused(t: Tracker, c: Call) {
    LiveOption(t.flag, c.at) || Counted(t, c).value > c.limit
  }

  /** The script ends in an error: Redis refuses a block of 0 seconds. */
  predicate Fails(t: Tracker, c: Call) {
    !LiveOption(t.flag, c.at) && Counted(t, c).value > c.limit && BlockSeconds(c) == 0
  }

  /** Milliseconds until an expiry, in the whole seconds Redis reports. */
  function SecondsLeft(e: Entry<nat>, now: nat): nat {
    if e.expiry.None? then 0 else Max0((e.expiry.value - now + 500) / 1000)
  }

  /** The answer to a call. */
  function Reply(t: Tracker, c: Call): (r: Record)
    ensures r.isBlocked <==> Refused(t, c)
  {
    if LiveOption(t.flag, c.at) then
      Record(if LiveOption(t.counter, c.at) then t.counter.value.value else 0,
             CeilSeconds(c.ttl), true, SecondsLeft(t.flag.value, c.at))
    else
      var counter := Counted(t, c);
      var over := counter.value > c.limit;
      Record(counter.value, SecondsLeft(counter, c.at), over, if over then BlockSeconds(c) else 0)
  }

  function Put(store: Store, name: string, key: string, t: Tracker): Store {
    var s := if t.counter.Some? then store[FullKey(name, key) := t.counter.value] else store;
    if t.flag.Some? then s[BlockKey(name, key) := t.flag.value] else s
  }

  function Eval(store: Store, c: Call): Store {
    Put(store, c.name, c.key, After(Raw(store, c.name, c.key), c))
  }

  class RedisThrottlerStorage {
    var redis: Store

    constructor ()
      ensures redis == map[]
    {
      redis := map[];
    }

    /** INCR, EXPIRE of a new counter, and TTL. */
    method CountHit(c: Call) returns (hits: nat, remaining: nat)
      requires Valid(redis)
      modifies this
      ensures var counter := Counted(Raw(old(redis), c.name, c.key), c);
              && redis == old(redis)[FullKey(c.name, c.key) := counter]
              && hits == counter.value && remaining == SecondsLeft(counter, c.at)
    {
      var fullKey := FullKey(c.name, c.key);
      // INCR keeps the expiry of a counter that still exists and creates one without expiry otherwise.
      hits := Get(redis, fullKey, c.at).GetOr(0) + 1;
      redis := redis[fullKey := Entry(hits, if Exists(redis, fullKey, c.at) then redis[fullKey].expiry else None)];
      if hits == 1 {
        redis := redis[fullKey := Entry(hits, Some(c.at + 1000 * CeilSeconds(c.ttl)))];
      }
      remaining := Max0(Ttl(redis, fullKey, c.at));
    }

    /** The Lua script, command by command, and the record built from its reply. */
    method Increment(c: Call) returns (r: Result<Record, string>)
      requires Valid(redis)
      modifies this
      ensures Valid(redis) && redis == Eval(old(redis), c)
      ensures r.Err? <==> Fails(Raw(old(redis), c.name, c.key), c)
      ensures r.Ok? ==> r.value == Reply(Raw(old(redis), c.name, c.key), c)
    {
      var fullKey, blockKey := FullKey(c.name, c.key), BlockKey(c.name, c.key);
      var ttlS, blockS := CeilSeconds(c.ttl), CeilSeconds(c.blockDuration);
      if Exists(redis, blockKey, c.at) {
        var bttl := Max0(Ttl(redis, blockKey, c.at));
        return Ok(Record(Get(redis, fullKey, c.at).GetOr(0), ttlS, true, bttl));
      }
      var hits, remaining := CountHit(c);
      if hits > c.limit {
        if blockS <= 0 {
          blockS := ttlS;
        }
        if blockS == 0 {
          return Err("ERR invalid expire time in 'setex' command");
        }
        redis := SetEx(redis, blockKey, 1, blockS, c.at);
        return Ok(Record(hits, remaining, true, blockS));
      }
      return Ok(Record(hits, remaining, false, 0));
    }
  }

  // ---------------------------------------------------------------- trackers do not interfere

  lemma FullKeySegments(name: string, key: string)
    requires NoColon(name) && NoColon(key)
    ensures SplitColon(FullKey(name, key)) == ["throttler", name, key]
    ensures SplitColon(BlockKey(name, key)) == ["throttler", name, key, "blocked"]
  {
    ThreeSegments("throttler", name, key);
    FourSegments("throttler", name, key, "blocked");
    assert FullKey(name, key) == "throttler" + ":" + name + ":" + key;
    assert BlockKey(name, key) == "throttler" + ":" + name + ":" + key + ":" + "blocked";
  }

  predicate Own(c: Call, name: string, key: string) {
    c.name == name && c.key == key
  }

  /** Trackers as the guard names them: the throttler's name and a digest, neither with a colon. */
  predicate ColonFree(calls: seq<Call>) {
    forall c <- calls :: NoColon(c.name) && NoColon(c.key)
  }

  lemma TrackerStep(store: Store, c: Call, name: string, key: string)
    requires NoColon(name) && NoColon(key) && NoColon(c.name) && NoColon(c.key)
    ensures Raw(Eval(store, c), name, key)
         == if Own(c, name, key) then After(Raw(store, name, key), c) else Raw(store, name, key)
  {
    FullKeySegments(name, key);
    FullKeySegments(c.name, c.key);
    assert |SplitColon(FullKey(name, key))| != |SplitColon(BlockKey(c.name, c.key))|;
    assert |SplitColon(BlockKey(name, key))| != |SplitColon(FullKey(c.name, c.key))|;
    if !Own(c, name, key) {
      var full, full' := SplitColon(FullKey(name, key)), SplitColon(FullKey(c.name, c.key));
      assert full[1] != full'[1] || full[2] != full'[2];
      var block, block' := SplitColon(BlockKey(name, key)), SplitColon(BlockKey(c.name, c.key));
      assert block[1] != block'[1] || block[2] != block'[2];
    }
  }

  // ---------------------------------------------------------------- runs

  predicate Ordered(calls: seq<Call>, from: nat) {
    && (forall c <- calls :: from <= c.at)
    && forall i, j :: 0 <= i < j < |calls| ==> calls[i].at <= calls[j].at
  }

  /**
   * The calls of a run, in time order from `from` on. Every call for the tracker uses the same window
   * and the same limit; block durations, and the calls of other trackers, are arbitrary.
   */
  predicate Workload(calls: seq<Call>, from: nat, name: string, key: string, seconds: nat, limit: nat) {
    && Ordered(calls, from)
    && ColonFree(calls)
    && forall c <- calls :: Own(c, name, key) ==> CeilSeconds(c.ttl) == seconds && c.limit == limit
  }

  lemma WorkloadTail(calls: seq<Call>, from: nat, name: string, key: string, seconds: nat, limit: nat)
    requires calls != [] && Workload(calls, from, name, key, seconds, limit)
    ensures Workload(calls[1..], calls[0].at, name, key, seconds, limit)
    ensures from <= calls[0].at && NoColon(calls[0].name) && NoColon(calls[0].key)
    ensures Own(calls[0], name, key) ==> CeilSeconds(calls[0].ttl) == seconds && calls[0].limit == limit
  {
    assert calls[0] in calls;
  }

  function RunCalls(store: Store, calls: seq<Call>): Store
    decreases |calls|
  {
    if calls == [] then store else RunCalls(Eval(store, calls[0]), calls[1..])
  }

  /** How many calls of the tracker are let through at times within [lo, hi] during the run. */
  function Admitted(store: Store, calls: seq<Call>, name: string, key: string, lo: nat, hi: nat): nat
    decreases |calls|
  {
    if calls == [] then 0
    else
      var c := calls[0];
      (if Own(c, name, key) && lo <= c.at <= hi && !Refused(Raw(store, name, key), c) then 1 else 0)
      + Admitted(Eval(store, c), calls[1..], name, key, lo, hi)
  }

  function CeilDiv(a: nat, b: nat): nat
    requires b > 0
  {
    (a + b - 1) / b
  }

  /** How many windows of `window` milliseconds can begin at or after `first` and no later than `hi`. */
  function Windows(first: nat, hi: nat, window: nat): nat
    requires window > 0
  {
    if hi < first then 0 else (hi - first) / window + 1
  }

  /** The hits still to be admitted up to `hi`: what is left of the open window, then full windows. */
  function Budget(t: Tracker, now: nat, hi: nat, window: nat, limit: nat): nat
    requires window > 0
  {
    if hi < now then 0
    else if LiveOption(t.counter, now) && t.counter.value.expiry.Some? then
      Max0(limit - t.counter.value.value) + limit * Windows(t.counter.value.expiry.value, hi, window)
    else limit * Windows(now, hi, window)
  }

  predicate ValidTracker(t: Tracker) {
    && (t.counter.Some? ==> t.counter.value.value >= 1 && t.counter.value.expiry.Some?)
    && (t.flag.Some? ==> t.flag.value.expiry.Some?)
  }

  lemma WindowsMonotone(a: nat, b: nat, hi: nat, window: nat)
    requires window > 0 && a <= b
    ensures Windows(b, hi, window) <= Windows(a, hi, window)
  {
    if b <= hi {
      DivMonotone(hi - b, hi - a, window);
    }
  }

  lemma MulMonotone(k: nat, x: nat, y: nat)
    requires x <= y
    ensures k * x <= k * y
  {
  }

  lemma DivUnique(x: nat, d: nat, q: nat, r: nat)
    requires d > 0 && x == d * q + r && r < d
    ensures x / d == q
  {
    assert x == d * (x / d) + x % d;
    if x / d < q {
      MulMonotone(d, x / d + 1, q);
    } else if q < x / d {
      MulMonotone(d, q + 1, x / d);
    }
  }

  lemma DivMonotone(x: nat, y: nat, d: nat)
    requires d > 0 && x <= y
    ensures x / d <= y / d
  {
    assert x == d * (x / d) + x % d;
    assert y == d * (y / d) + y % d;
    if y / d < x / d {
      MulMonotone(d, y / d + 1, x / d);
    }
  }

  /** Opening a window uses up one of the windows still to come. */
  lemma WindowsStep(first: nat, hi: nat, window: nat)
    requires window > 0 && first <= hi
    ensures Windows(first, hi, window) == 1 + Windows(first + window, hi, window)
  {
    if first + window <= hi {
      DivStep(hi - first - window, window);
    } else {
      DivSmall(hi - first, window);
    }
  }

  lemma DivStep(x: nat, d: nat)
    requires d > 0
    ensures (x + d) / d == x / d + 1
  {
    assert x + d == d * (x / d + 1) + x % d;
    DivUnique(x + d, d, x / d + 1, x % d);
  }

  lemma DivSmall(x: nat, d: nat)
    requires x < d
    ensures x / d == 0
  {
    DivUnique(x, d, 0, x);
  }

  /** Letting time pass never enlarges the budget. */
  lemma BudgetAges(t: Tracker, now: nat, later: nat, hi: nat, window: nat, limit: nat)
    requires window > 0 && now <= later && ValidTracker(t)
    ensures Budget(t, later, hi, window, limit) <= Budget(t, now, hi, window, limit)
  {
    if hi < later {
    } else if LiveOption(t.counter, now) {
      if !LiveOption(t.counter, later) {
        WindowsMonotone(t.counter.value.expiry.value, later, hi, window);
        MulMonotone(limit, Windows(later, hi, window), Windows(t.counter.value.expiry.value, hi, window));
      }
    } else {
      WindowsMonotone(now, later, hi, window);
      MulMonotone(limit, Windows(later, hi, window), Windows(now, hi, window));
    }
  }

  /** An admitted call spends one unit of the budget; a refused call never adds to it. */
  lemma BudgetSpent(t: Tracker, c: Call, hi: nat)
    requires ValidTracker(t) && c.ttl > 0
    ensures ValidTracker(After(t, c))
    ensures var w := 1000 * CeilSeconds(c.ttl);
            && w > 0
            && Budget(After(t, c), c.at, hi, w, c.limit) + (if c.at <= hi && !Refused(t, c) then 1 else 0)
               <= Budget(t, c.at, hi, w, c.limit)
  {
    var w := 1000 * CeilSeconds(c.ttl);
    if !LiveOption(t.flag, c.at) && !LiveOption(t.counter, c.at) {
      if c.at <= hi {
        WindowsStep(c.at, hi, w);
        assert c.limit * Windows(c.at, hi, w) == c.limit + c.limit * Windows(c.at + w, hi, w);
      }
    }
  }

  lemma {:induction false} AdmittedWithinBudget(
    store: Store, calls: seq<Call>, name: string, key: string, from: nat, lo: nat, hi: nat, seconds: nat, limit: nat)
    requires seconds > 0 && NoColon(name) && NoColon(key)
    requires ValidTracker(Raw(store, name, key))
    requires Workload(calls, from, name, key, seconds, limit)
    ensures Admitted(store, calls, name, key, lo, hi) <= Budget(Raw(store, name, key), from, hi, 1000 * seconds, limit)
    decreases |calls|
  {
    if calls != [] {
      var c, t := calls[0], Raw(store, name, key);
      WorkloadTail(calls, from, name, key, seconds, limit);
      TrackerStep(store, c, name, key);
      BudgetAges(t, from, c.at, hi, 1000 * seconds, limit);
      if Own(c, name, key) {
        BudgetSpent(t, c, hi);
      }
      AdmittedWithinBudget(Eval(store, c), calls[1..], name, key, c.at, lo, hi, seconds, limit);
    }
  }

  lemma BudgetBound(t: Tracker, now: nat, length: nat, window: nat, limit: nat)
    requires window > 0 && ValidTracker(t)
    ensures Budget(t, now, now + length, window, limit) <= limit * (CeilDiv(length, window) + 1)
  {
    var hi, n := now + length, CeilDiv(length, window);
    if LiveOption(t.counter, now) {
      var x := t.counter.value.expiry.value;
      if x <= hi {
        DivMonotone(hi - x, length - 1, window);
        DivStep(length - 1, window);
      }
      assert Windows(x, hi, window) <= n;
      MulMonotone(limit, Windows(x, hi, window), n);
      assert limit * (n + 1) == limit + limit * n;
    } else {
      DivMonotone(length, length + window - 1, window);
      assert Windows(now, hi, window) <= n + 1;
      MulMonotone(limit, Windows(now, hi, window), n + 1);
    }
  }

  /**
   * The rate bound: over any run, calls of other trackers interleaved, and whatever block durations
   * are used, at most limit * (ceil(length / ttl) + 1) calls of a tracker are let through in any
   * closed interval of `length` milliseconds.
   */
  lemma {:induction false} AdmissionBound(
    store: Store, calls: seq<Call>, name: string, key: string, from: nat, lo: nat, length: nat, seconds: nat, limit: nat)
    requires seconds > 0 && NoColon(name) && NoColon(key)
    requires ValidTracker(Raw(store, name, key))
    requires Workload(calls, from, name, key, seconds, limit)
    ensures Admitted(store, calls, name, key, lo, lo + length) <= limit * (CeilDiv(length, 1000 * seconds) + 1)
    decreases |calls|
  {
    if calls == [] {
    } else if calls[0].at < lo {
      var c := calls[0];
      WorkloadTail(calls, from, name, key, seconds, limit);
      TrackerStep(store, c, name, key);
      if Own(c, name, key) {
        BudgetSpent(Raw(store, name, key), c, lo);
      }
      AdmissionBound(Eval(store, c), calls[1..], name, key, c.at, lo, length, seconds, limit);
    } else {
      AdmittedWithinBudget(store, calls, name, key, lo, lo, lo + length, seconds, limit);
      BudgetBound(Raw(store, name, key), lo, length, 1000 * seconds, limit);
    }
  }

  /** In particular no window of the configured length admits more than twice the limit. */
  lemma AtMostTwiceTheLimit(
    store: Store, calls: seq<Call>, name: string, key: string, from: nat, lo: nat, seconds: nat, limit: nat)
    requires seconds > 0 && NoColon(name) && NoColon(key)
    requires ValidTracker(Raw(store, name, key))
    requires Workload(calls, from, name, key, seconds, limit)
    ensures Admitted(store, calls, name, key, lo, lo + 1000 * seconds) <= 2 * limit
  {
    var w := 1000 * seconds;
    AdmissionBound(store, calls, name, key, from, lo, w, seconds, limit);
    DivStep(w - 1, w);
    DivSmall(w - 1, w);
    assert CeilDiv(w, w) == 1;
  }

  // ---------------------------------------------------------------- blocks

  /** While the block flag lives, the tracker's calls are refused and leave its keys as they are. */
  lemma {:induction false} HeldWhileBlocked(
    store: Store, calls: seq<Call>, name: string, key: string, end: nat, lo: nat, hi: nat)
    requires NoColon(name) && NoColon(key) && ColonFree(calls)
    requires Raw(store, name, key).flag == Some(Entry(1, Some(end)))
    requires forall c <- calls :: Own(c, name, key) ==> c.at < end
    ensures Admitted(store, calls, name, key, lo, hi) == 0
    ensures Raw(RunCalls(store, calls), name, key) == Raw(store, name, key)
    decreases |calls|
  {
    if calls != [] {
      assert calls[0] in calls;
      TrackerStep(store, calls[0], name, key);
      HeldWhileBlocked(Eval(store, calls[0]), calls[1..], name, key, end, lo, hi);
    }
  }

  predicate CounterEndsBy(t: Tracker, time: nat) {
    ValidTracker(t) && (t.counter.Some? ==> t.counter.value.expiry.value <= time)
  }

  /** A counter never outlives one window from the latest call. */
  lemma {:induction false} CounterWithinWindow(
    store: Store, calls: seq<Call>, name: string, key: string, from: nat, now: nat, seconds: nat, limit: nat)
    requires seconds > 0 && NoColon(name) && NoColon(key)
    requires Workload(calls, from, name, key, seconds, limit)
    requires from <= now && forall c <- calls :: c.at <= now
    requires CounterEndsBy(Raw(store, name, key), from + 1000 * seconds)
    ensures CounterEndsBy(Raw(RunCalls(store, calls), name, key), now + 1000 * seconds)
    decreases |calls|
  {
    if calls != [] {
      WorkloadTail(calls, from, name, key, seconds, limit);
      assert calls[0] in calls;
      TrackerStep(store, calls[0], name, key);
      CounterWithinWindow(Eval(store, calls[0]), calls[1..], name, key, calls[0].at, now, seconds, limit);
    }
  }

  /** What the first call after a block meets, given when the counter was due to expire. */
  lemma AfterTheBlock(t: Tracker, first: Call, next: Call, seconds: nat, limit: nat)
    requires CounterEndsBy(t, first.at + 1000 * seconds)
    requires Refused(t, first) && !LiveOption(t.flag, first.at)
    requires seconds > 0 && CeilSeconds(first.ttl) == seconds == CeilSeconds(next.ttl)
    requires first.limit == limit == next.limit
    requires next.at >= first.at + 1000 * BlockSeconds(first)
    ensures var t' := After(t, first);
            && t'.flag == Some(Entry(1, Some(first.at + 1000 * BlockSeconds(first))))
            && t'.counter.Some? && t'.counter.value.expiry.Some?
            && (Refused(t', next) <==> limit == 0 || next.at < t'.counter.value.expiry.value)
            && (limit >= 1 && BlockSeconds(first) >= seconds
                ==> !Refused(t', next) && Reply(t', next).totalHits == 1)
  {
  }

  /**
   * A block that starts at `first` refuses every call of the tracker until it ends and freezes the
   * tracker meanwhile. The next call is let through exactly when the hit counter has expired too,
   * which a block of at least one window (or the default block) guarantees; it then counts as hit 1.
   */
  lemma BlockHonoured(
    store: Store, before: seq<Call>, first: Call, between: seq<Call>, next: Call,
    name: string, key: string, seconds: nat, limit: nat, lo: nat, hi: nat)
    requires seconds > 0 && NoColon(name) && NoColon(key)
    requires CounterEndsBy(Raw(store, name, key), 1000 * seconds)
    requires Workload(before, 0, name, key, seconds, limit) && forall c <- before :: c.at <= first.at
    requires Own(first, name, key) && CeilSeconds(first.ttl) == seconds && first.limit == limit
    requires Own(next, name, key) && CeilSeconds(next.ttl) == seconds && next.limit == limit
    requires var t := Raw(RunCalls(store, before), name, key);
             Refused(t, first) && !LiveOption(t.flag, first.at)
    requires ColonFree(between)
    requires var end := first.at + 1000 * BlockSeconds(first);
             next.at >= end && forall c <- between :: Own(c, name, key) ==> c.at < end
    ensures var s1 := Eval(RunCalls(store, before), first);
            var t := Raw(s1, name, key);
            && Admitted(s1, between, name, key, lo, hi) == 0
            && Raw(RunCalls(s1, between), name, key) == t
            && t.counter.Some? && t.counter.value.expiry.Some?
            && (Refused(t, next) <==> limit == 0 || next.at < t.counter.value.expiry.value)
            && (limit >= 1 && (first.blockDuration == 0 || CeilSeconds(first.blockDuration) >= seconds)
                ==> !Refused(t, next) && Reply(t, next).totalHits == 1)
  {
    CounterWithinWindow(store, before, name, key, 0, first.at, seconds, limit);
    var s0 := RunCalls(store, before);
    TrackerStep(s0, first, name, key);
    AfterTheBlock(Raw(s0, name, key), first, next, seconds, limit);
    HeldWhileBlocked(Eval(s0, first), between, name, key, first.at + 1000 * BlockSeconds(first), lo, hi);
  }

  /** A direct call that asks for a window and a block of 0 seconds fails as soon as the limit is exceeded. */
  lemma ZeroWindowFails(at: nat, name: string, key: string)
    ensures Fails(Raw(map[], name, key), Call(at, name, key, 0, 0, 0))
  {
  }

  /** Positive windows, which are all that the application configures, never make the script fail. */
  lemma PositiveWindowNeverFails(t: Tracker, c: Call)
    requires c.ttl > 0
    ensures !Fails(t, c)
  {
  }
}
