/**
 The sliding-window limits on requests and on tokens, rate_limiter.py, over the shared store.

 One check reads the clock four times: `now` for the window itself, then inside the store when it reads the sorted
 set, when it adds to it, and when it sets the expiry.
 */
module RateLimits {
  import opened Prelude
  import opened TtlStore

  datatype Readings = Readings(now: real, range: real, add: real, expire: real)

  /** Requests weigh one each; for tokens the member's tag is the number of tokens. */
  datatype Meter = Requests | Tokens

  datatype Decision = Decision(allowed: bool, retryAfter: int)

  /** Time written in a member, or the start of the window for a member that carries none. */
  function StampOf(m: Member, otherwise: real): real {
    match m
    case Stamped(at, _) => at
    case Label(_) => otherwise
  }

  function Spent(members: seq<Member>): int {
    if members == [] then 0 else
      var n := |members| - 1;
      Spent(members[..n]) + match members[n] case Stamped(_, tag) => tag case Label(_) => 0
  }

  function Load(meter: Meter, members: seq<Member>): int {
    match meter
    case Requests => |members|
    case Tokens => Spent(members)
  }

  function RetryAfter(members: seq<Member>, window: int, now: real): int {
    if members == [] then 1
    else Max(ToInt((StampOf(members[0], now - window as real) + window as real) - now) + 1, 1)
  }

  /** Prune, read what is left, and refuse, or record the new entry and renew the key's expiry. */
  function WindowCheck(meter: Meter, d: Data, key: string, weight: int, tag: int, limit: int, window: int, r: Readings)
    : (Data, Decision)
  {
    var start := r.now - window as real;
    var d1 := ZRemRangeByScore(d, key, 0.0, start).0;
    var (d2, members) := ZRangeByScore(d1, key, start, r.now, r.range);
    if Load(meter, members) + weight > limit then (d2, Decision(false, RetryAfter(members, window, r.now)))
    else
      var d3 := ZAdd(d2, key, [(Stamped(r.now, tag), r.now)], r.add).0;
      (Expire(d3, key, window + 10, r.expire).0, Decision(true, 0))
  }

  class RateLimiter {
    const store: InMemoryStore

    constructor (store: InMemoryStore)
      ensures this.store == store
    {
      this.store := store;
    }

    method SlidingWindowCheck(key: string, limit: int, window: int, task: int, r: Readings) returns (v: Decision)
      modifies store
      ensures (store.data, v) == WindowCheck(Requests, old(store.data), key, 1, task, limit, window, r)
    {
      hide ZAdd, ZRangeByScore, ZRemRangeByScore, Expire, Spent, ToInt;
      var windowStart := r.now - window as real;
      var _ := store.RemoveByScore(key, 0.0, windowStart);
      var members := store.RangeByScore(key, windowStart, r.now, r.range);
      var currentCount := |members|;
      if currentCount >= limit {
        if members != [] {
          var oldest := StampOf(members[0], windowStart);
          var retryAfter := ToInt((oldest + window as real) - r.now) + 1;
          return Decision(false, Max(retryAfter, 1));
        }
        return Decision(false, 1);
      }
      var _ := store.AddRanked(key, [(Stamped(r.now, task), r.now)], r.add);
      var _ := store.SetExpiry(key, window + 10, r.expire);
      v := Decision(true, 0);
    }

    method TotalTokens(members: seq<Member>) returns (total: int)
      ensures total == Spent(members)
    {
      total := 0;
      var i := 0;
      while i < |members|
        invariant 0 <= i <= |members| && total == Spent(members[..i])
      {
        assert members[..i+1][..i] == members[..i];
        match members[i] {
          case Stamped(_, tokens) => total := total + tokens;
          case Label(_) =>
        }
        i := i + 1;
      }
      assert members[..i] == members;
    }

    method TokenWindowCheck(key: string, tokensUsed: int, limitTpm: int, window: int, r: Readings) returns (v: Decision)
      modifies store
      ensures (store.data, v) == WindowCheck(Tokens, old(store.data), key, tokensUsed, tokensUsed, limitTpm, window, r)
    {
      hide ZAdd, ZRangeByScore, ZRemRangeByScore, Expire, Spent, ToInt;
      var windowStart := r.now - window as real;
      var _ := store.RemoveByScore(key, 0.0, windowStart);
      var members := store.RangeByScore(key, windowStart, r.now, r.range);
      var total := TotalTokens(members);
      if total + tokensUsed > limitTpm {
        if members != [] {
          var oldest := StampOf(members[0], windowStart);
          var retryAfter := ToInt((oldest + window as real) - r.now) + 1;
          return Decision(false, Max(retryAfter, 1));
        }
        return Decision(false, 1);
      }
      var _ := store.AddRanked(key, [(Stamped(r.now, tokensUsed), r.now)], r.add);
      var _ := store.SetExpiry(key, window + 10, r.expire);
      v := Decision(true, 0);
    }
  }
}
