/**
 The in-process sliding-window limiter of apps/server/src/security/rate-limiter.ts. Times are whole
 milliseconds; each operation takes the reading of Date.now() it makes, and `disabled` is whether
 RATE_LIMIT_DISABLED is set at that moment.
 */
module RateLimiting {

  datatype RateLimitResult = RateLimitResult(allowed: bool, limit: int, remaining: int, resetAt: int)

  /** `timestamps.filter((ts) => ts > windowStart)` */
  function Active(times: seq<int>, now: int, windowMs: int): (r: seq<int>)
    ensures |r| <= |times|
    ensures forall x :: x in r <==> x in times && x > now - windowMs
  {
    if times == [] then []
    else
      var n := |times| - 1;
      assert times == times[..n] + [times[n]];
      Active(times[..n], now, windowMs) + if times[n] > now - windowMs then [times[n]] else []
  }

  function Max(a: int, b: int): (r: int) {
    if a >= b then a else b
  }

  /** `Math.ceil(ms / 1000)` */
  function CeilSeconds(ms: int): (r: int)
    ensures 1000 * (r - 1) < ms <= 1000 * r
  {
    -((-ms) / 1000)
  }

  /** `second` is the first whole second not before the instant `ms`. */
  predicate IsSecondOf(second: int, ms: int) {
    1000 * (second - 1) < ms <= 1000 * second
  }

  /** What `check` answers for the recorded times of a key. */
  function CheckTimes(times: seq<int>, now: int, windowMs: int, maxRequests: int): (r: RateLimitResult) {
    var timestamps := Active(times, now, windowMs);
    var count := |timestamps|;
    var allowed := count < maxRequests;
    var oldest := if timestamps == [] then now else timestamps[0];
    RateLimitResult(allowed, maxRequests, Max(0, maxRequests - count - if allowed then 1 else 0),
                    CeilSeconds(oldest + windowMs))
  }

  /** The Retry-After seconds that `tooManyRequests` sends. */
  function RetryAfter(result: RateLimitResult, now: int): (r: int) {
    Max(0, result.resetAt - now / 1000)
  }

  type Store = map<string, seq<int>>

  function Times(store: Store, key: string): (r: seq<int>) {
    if key in store then store[key] else []
  }

  function Consumed(store: Store, key: string, now: int, windowMs: int): (r: Store) {
    store[key := Active(Times(store, key), now, windowMs) + [now]]
  }

  function Cleaned(store: Store, now: int, windowMs: int): (r: Store) {
    map key | key in store && Active(store[key], now, windowMs) != [] :: Active(store[key], now, windowMs)
  }

  class RateLimiter {
    const windowMs: int
    const maxRequests: int
    var store: Store

    constructor (windowMs: int, maxRequests: int)
      ensures this.windowMs == windowMs && this.maxRequests == maxRequests && store == map[]
    {
      this.windowMs := windowMs;
      this.maxRequests := maxRequests;
      store := map[];
    }

    /** Does not record the request. */
    method Check(key: string, now: int, disabled: bool) returns (result: RateLimitResult)
      ensures disabled ==> result == RateLimitResult(true, maxRequests, maxRequests, 0)
      ensures !disabled ==> result == CheckTimes(Times(store, key), now, windowMs, maxRequests)
      ensures !disabled ==>
                var timestamps := Active(Times(store, key), now, windowMs);
                && result.limit == maxRequests
                && (result.allowed <==> |timestamps| < maxRequests)
                && (result.allowed ==> result.remaining == maxRequests - |timestamps| - 1)
                && (!result.allowed ==> result.remaining == 0)
                && IsSecondOf(result.resetAt, (if timestamps == [] then now else timestamps[0]) + windowMs)
    {
      if disabled {
        return RateLimitResult(true, maxRequests, maxRequests, 0);
      }
      var timestamps := Active(Times(store, key), now, windowMs);
      var count := |timestamps|;
      var allowed := count < maxRequests;
      var remaining := Max(0, maxRequests - count - if allowed then 1 else 0);
      var oldest := now;
      if count > 0 {
        oldest := timestamps[0];
      }
      return RateLimitResult(allowed, maxRequests, remaining, CeilSeconds(oldest + windowMs));
    }

    method Consume(key: string, now: int, disabled: bool)
      modifies this
      ensures store == if disabled then old(store) else Consumed(old(store), key, now, windowMs)
    {
      if disabled {
        return;
      }
      var timestamps := Active(Times(store, key), now, windowMs);
      timestamps := timestamps + [now];
      store := store[key := timestamps];
    }

    method Cleanup(now: int)
      modifies this
      ensures store == Cleaned(old(store), now, windowMs)
    {
      var keys := store.Keys;
      while keys != {}
        invariant keys <= old(store).Keys
        invariant forall k :: k in keys ==> k in store && store[k] == old(store)[k]
        invariant forall k :: k in store ==> k in old(store)
        invariant forall k :: k in old(store) && k !in keys ==>
                    if Active(old(store)[k], now, windowMs) == [] then k !in store
                    else k in store && store[k] == Active(old(store)[k], now, windowMs)
        decreases |keys|
      {
        var key :| key in keys;
        keys := keys - {key};
        var active := Active(store[key], now, windowMs);
        if active == [] {
          store := store - {key};
        } else {
          store := store[key := active];
        }
      }
    }

    method Reset()
      modifies this
      ensures store == map[]
    {
      store := map[];
    }
  }

  // ---------- Runs ----------

  /** The operations that change the store, with their clock readings. */
  datatype Op = Consume(key: string, now: int) | Cleanup(now: int)

  function StoreAfter(ops: seq<Op>, windowMs: int): (r: Store) {
    if ops == [] then map[]
    else
      var store := StoreAfter(ops[..|ops| - 1], windowMs);
      match ops[|ops| - 1]
      case Consume(key, now) => Consumed(store, key, now, windowMs)
      case Cleanup(now) => Cleaned(store, now, windowMs)
  }

  /** Every consumed request of the key, never pruned. */
  function History(ops: seq<Op>, key: string): (r: seq<int>) {
    if ops == [] then []
    else
      var last := ops[|ops| - 1];
      History(ops[..|ops| - 1], key) + if last.Consume? && last.key == key then [last.now] else []
  }

  /** The clock does not run backwards, and `now` is not before the last reading. */
  ghost predicate ClockUpTo(ops: seq<Op>, now: int) {
    ops == [] || (ops[|ops| - 1].now <= now && ClockUpTo(ops[..|ops| - 1], ops[|ops| - 1].now))
  }

  // ---------- The pruned store agrees with the full history ----------

  lemma {:induction false} ActiveConcat(a: seq<int>, b: seq<int>, now: int, windowMs: int)
    ensures Active(a + b, now, windowMs) == Active(a, now, windowMs) + Active(b, now, windowMs)
    decreases |b|
  {
    if b == [] {
      assert a + b == a;
    } else {
      var n := |b| - 1;
      ActiveConcat(a, b[..n], now, windowMs);
      assert (a + b)[..|a + b| - 1] == a + b[..n];
    }
  }

  /** What an earlier filter drops, a later one drops too. */
  lemma {:induction false} ActiveTwice(times: seq<int>, earlier: int, now: int, windowMs: int)
    requires earlier <= now
    ensures Active(Active(times, earlier, windowMs), now, windowMs) == Active(times, now, windowMs)
  {
    if times == [] {
    } else {
      var n := |times| - 1;
      ActiveTwice(times[..n], earlier, now, windowMs);
      var last := if times[n] > earlier - windowMs then [times[n]] else [];
      ActiveConcat(Active(times[..n], earlier, windowMs), last, now, windowMs);
    }
  }

  lemma ActiveConsumed(store: Store, key: string, other: string, at: int, now: int, windowMs: int)
    requires at <= now
    ensures Active(Times(Consumed(store, key, at, windowMs), other), now, windowMs) ==
            Active(Times(store, other) + if key == other then [at] else [], now, windowMs)
  {
    var times := Times(store, other);
    if key == other {
      ActiveConcat(Active(times, at, windowMs), [at], now, windowMs);
      ActiveTwice(times, at, now, windowMs);
      ActiveConcat(times, [at], now, windowMs);
    } else {
      assert times + [] == times;
    }
  }

  lemma ActiveCleaned(store: Store, key: string, at: int, now: int, windowMs: int)
    requires at <= now
    ensures Active(Times(Cleaned(store, at, windowMs), key), now, windowMs) == Active(Times(store, key), now, windowMs)
  {
    ActiveTwice(Times(store, key), at, now, windowMs);
  }

  lemma {:induction false} ActiveAgrees(ops: seq<Op>, key: string, now: int, windowMs: int)
    requires ClockUpTo(ops, now)
    ensures Active(Times(StoreAfter(ops, windowMs), key), now, windowMs) == Active(History(ops, key), now, windowMs)
  {
    if ops == [] {
    } else {
      var before, last := ops[..|ops| - 1], ops[|ops| - 1];
      ClockLater(before, last.now, now);
      ActiveAgrees(before, key, now, windowMs);
      var store := StoreAfter(before, windowMs);
      match last {
        case Consume(consumed, at) =>
          ActiveConsumed(store, consumed, key, at, now, windowMs);
          var more := if consumed == key then [at] else [];
          ActiveConcat(Times(store, key), more, now, windowMs);
          ActiveConcat(History(before, key), more, now, windowMs);
        case Cleanup(at) =>
          ActiveCleaned(store, key, at, now, windowMs);
          assert History(before, key) + [] == History(before, key);
      }
    }
  }

  lemma ClockLater(ops: seq<Op>, now: int, later: int)
    requires ClockUpTo(ops, now) && now <= later
    ensures ClockUpTo(ops, later)
  {
  }

  /** `check` on the pruned store answers what it would answer on the full history of the key. */
  lemma PrunedStoreAgrees(ops: seq<Op>, key: string, now: int, windowMs: int, maxRequests: int)
    requires ClockUpTo(ops, now)
    ensures CheckTimes(Times(StoreAfter(ops, windowMs), key), now, windowMs, maxRequests) ==
            CheckTimes(History(ops, key), now, windowMs, maxRequests)
  {
    ActiveAgrees(ops, key, now, windowMs);
  }

  // ---------- No interval holds more than the limit ----------

  /**
   Every consume directly follows a check that allowed it: the check reads the clock between the
   operation before and the consume.
   */
  ghost predicate Disciplined(ops: seq<Op>, windowMs: int, maxRequests: int) {
    ops != [] ==>
      var before, last := ops[..|ops| - 1], ops[|ops| - 1];
      && Disciplined(before, windowMs, maxRequests)
      && (last.Consume? ==>
            exists checkedAt :: ClockUpTo(before, checkedAt) && checkedAt <= last.now &&
              CheckTimes(Times(StoreAfter(before, windowMs), last.key), checkedAt, windowMs, maxRequests).allowed)
  }

  /** How many of the times lie in (t - windowMs, t]. */
  function InWindow(times: seq<int>, t: int, windowMs: int): (n: nat) {
    if times == [] then 0
    else
      var m := |times| - 1;
      InWindow(times[..m], t, windowMs) + if t - windowMs < times[m] <= t then 1 else 0
  }

  lemma InWindowMore(times: seq<int>, x: int, t: int, windowMs: int)
    ensures InWindow(times + [x], t, windowMs) == InWindow(times, t, windowMs) + if t - windowMs < x <= t then 1 else 0
  {
  }

  lemma {:induction false} WindowIsActive(times: seq<int>, t: int, windowMs: int)
    requires forall x :: x in times ==> x <= t
    ensures InWindow(times, t, windowMs) == |Active(times, t, windowMs)|
  {
    if times == [] {
    } else {
      var n := |times| - 1;
      forall x | x in times[..n]
        ensures x <= t
      {
        assert x in times;
      }
      assert times[n] in times;
      WindowIsActive(times[..n], t, windowMs);
    }
  }

  lemma {:induction false} ActiveShrinks(times: seq<int>, now: int, later: int, windowMs: int)
    requires now <= later
    ensures |Active(times, later, windowMs)| <= |Active(times, now, windowMs)|
  {
    if times == [] {
    } else {
      ActiveShrinks(times[..|times| - 1], now, later, windowMs);
    }
  }

  lemma {:induction false} HistoryUpTo(ops: seq<Op>, key: string, now: int)
    requires ClockUpTo(ops, now)
    ensures forall x :: x in History(ops, key) ==> x <= now
    ensures forall i, j :: 0 <= i < j < |History(ops, key)| ==> History(ops, key)[i] <= History(ops, key)[j]
  {
    if ops == [] {
    } else {
      var before, last := ops[..|ops| - 1], ops[|ops| - 1];
      HistoryUpTo(before, key, last.now);
      var earlier, all := History(before, key), History(ops, key);
      forall i, j | 0 <= i < j < |all|
        ensures all[i] <= all[j]
      {
        assert all[i] in earlier;
      }
    }
  }

  /** When a consume is allowed, it still fits its own window. */
  lemma AllowedFits(before: seq<Op>, key: string, checkedAt: int, now: int, windowMs: int, maxRequests: int)
    requires ClockUpTo(before, checkedAt) && checkedAt <= now
    requires CheckTimes(Times(StoreAfter(before, windowMs), key), checkedAt, windowMs, maxRequests).allowed
    ensures |Active(History(before, key), now, windowMs)| < maxRequests
  {
    ActiveAgrees(before, key, checkedAt, windowMs);
    ActiveShrinks(History(before, key), checkedAt, now, windowMs);
  }

  /** Every interval (t - windowMs, t] holds at most the allowed number of requests of a key. */
  lemma {:induction false} NoWindowOverflows(ops: seq<Op>, key: string, clock: int, t: int, windowMs: int, maxRequests: int)
    requires ClockUpTo(ops, clock) && Disciplined(ops, windowMs, maxRequests)
    ensures InWindow(History(ops, key), t, windowMs) <= Max(0, maxRequests)
  {
    if ops == [] {
    } else {
      var before, last := ops[..|ops| - 1], ops[|ops| - 1];
      NoWindowOverflows(before, key, last.now, t, windowMs, maxRequests);
      InWindowMore(History(before, key), last.now, t, windowMs);
      assert History(before, key) + [] == History(before, key);
      if last.Consume? && last.key == key && t - windowMs < last.now <= t {
        var checkedAt :| ClockUpTo(before, checkedAt) && checkedAt <= last.now &&
          CheckTimes(Times(StoreAfter(before, windowMs), key), checkedAt, windowMs, maxRequests).allowed;
        AllowedFits(before, key, checkedAt, t, windowMs, maxRequests);
        HistoryUpTo(before, key, last.now);
        WindowIsActive(History(before, key), t, windowMs);
      }
    }
  }

  /**
   `remaining` of an allowed check is the capacity left once the request is consumed; if the clock
   moves on before the consume, at least that much is left.
   */
  lemma RemainingIsCapacityLeft(before: seq<Op>, key: string, checkedAt: int, now: int, windowMs: int, maxRequests: int)
    requires ClockUpTo(before, checkedAt) && checkedAt <= now
    requires CheckTimes(Times(StoreAfter(before, windowMs), key), checkedAt, windowMs, maxRequests).allowed
    ensures var remaining := CheckTimes(Times(StoreAfter(before, windowMs), key), checkedAt, windowMs, maxRequests).remaining;
            var left := maxRequests - |Active(History(before + [Consume(key, now)], key), now, windowMs)|;
            && 0 <= remaining <= left
            && (now == checkedAt && windowMs > 0 ==> remaining == left)
  {
    var after := before + [Consume(key, now)];
    assert after[..|after| - 1] == before;
    assert History(after, key) == History(before, key) + [now];
    ActiveAgrees(before, key, checkedAt, windowMs);
    ActiveShrinks(History(before, key), checkedAt, now, windowMs);
    assert (History(before, key) + [now])[..|History(before, key)|] == History(before, key);
  }

  // ---------- When a denied key is allowed again ----------

  /** A full window stays full until its oldest request leaves it. */
  lemma {:induction false} WindowEmptiesWithOldest(times: seq<int>, now: int, later: int, windowMs: int)
    requires now <= later && forall i, j :: 0 <= i < j < |times| ==> times[i] <= times[j]
    requires Active(times, now, windowMs) != []
    ensures |Active(times, later, windowMs)| == |Active(times, now, windowMs)| <==>
            later < Active(times, now, windowMs)[0] + windowMs
  {
    var n := |times| - 1;
    ActiveShrinks(times[..n], now, later, windowMs);
    if Active(times[..n], now, windowMs) != [] {
      WindowEmptiesWithOldest(times[..n], now, later, windowMs);
      assert Active(times[..n], now, windowMs)[0] in times[..n];
      assert Active(times[..n], now, windowMs)[0] <= times[n];
    } else {
      assert Active(times[..n], later, windowMs) == [];
    }
  }

  ghost predicate NoConsumeOf(ops: seq<Op>, key: string) {
    forall i :: 0 <= i < |ops| ==> !(ops[i].Consume? && ops[i].key == key)
  }

  lemma {:induction false} HistoryWithout(ops: seq<Op>, more: seq<Op>, key: string)
    requires NoConsumeOf(more, key)
    ensures History(ops + more, key) == History(ops, key)
    decreases |more|
  {
    if more == [] {
      assert ops + more == ops;
    } else {
      var n := |more| - 1;
      assert (ops + more)[..|ops + more| - 1] == ops + more[..n];
      HistoryWithout(ops, more[..n], key);
    }
  }

  /**
   A denied key with no further consumes stays denied exactly until its oldest request in the window
   is windowMs old, whatever else happens to the store. `resetAt` is the first whole second at which it
   is allowed. Whoever waits the Retry-After seconds of an answer sent at `answeredAt` is allowed
   (section 10.2.3 of RFC 9110); a second less, counted from the second of the answer, is too short.
   */
  lemma DeniedUntilOldestLeaves(ops: seq<Op>, more: seq<Op>, key: string, now: int, later: int, answeredAt: int,
                                windowMs: int, maxRequests: int)
    requires ClockUpTo(ops, now) && Disciplined(ops, windowMs, maxRequests) && maxRequests >= 1
    requires NoConsumeOf(more, key) && ClockUpTo(ops + more, later)
    requires now <= answeredAt && now <= later
    requires !CheckTimes(Times(StoreAfter(ops, windowMs), key), now, windowMs, maxRequests).allowed
    ensures var result := CheckTimes(Times(StoreAfter(ops, windowMs), key), now, windowMs, maxRequests);
            var timestamps := Active(Times(StoreAfter(ops, windowMs), key), now, windowMs);
            var allowedLater := CheckTimes(Times(StoreAfter(ops + more, windowMs), key), later, windowMs, maxRequests).allowed;
            var wait := RetryAfter(result, answeredAt);
            && timestamps != [] && result.remaining == 0
            && (allowedLater <==> later >= timestamps[0] + windowMs)
            && IsSecondOf(result.resetAt, timestamps[0] + windowMs)
            && (later >= 1000 * result.resetAt ==> allowedLater)
            && (later <= 1000 * (result.resetAt - 1) ==> !allowedLater)
            && wait >= 0
            && (later >= answeredAt + 1000 * wait ==> allowedLater)
            && (wait > 0 && later <= 1000 * (answeredAt / 1000 + wait - 1) ==> !allowedLater)
            && (wait == 0 <==> answeredAt >= 1000 * result.resetAt)
  {
    var times := History(ops, key);
    ActiveAgrees(ops, key, now, windowMs);
    ActiveAgrees(ops + more, key, later, windowMs);
    HistoryWithout(ops, more, key);
    HistoryUpTo(ops, key, now);
    WindowIsActive(times, now, windowMs);
    NoWindowOverflows(ops, key, now, now, windowMs, maxRequests);
    WindowEmptiesWithOldest(times, now, later, windowMs);
    ActiveShrinks(times, now, later, windowMs);
  }
}
