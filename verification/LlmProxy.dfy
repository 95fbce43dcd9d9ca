/**
 The dispatcher as the program runs it: `_chat_with_retry` over shared, mutable pools and breakers.  It is proved
 equal, step by step and in the end, to the specification in Dispatch.dfy.
 */
module LlmProxy {
  import opened Prelude
  import opened CircuitBreakers
  import opened KeyPools
  import opened Dispatch

  class LLMProxy {
    const keyPool: KeyPoolManager
    const cb: CircuitBreakerManager
    const strategy: Strategy
    const maxRetries: int
    const fallbackChain: seq<string>

    constructor (keyPool: KeyPoolManager, cb: CircuitBreakerManager, strategy: Strategy, maxRetries: int,
                 fallbackChain: seq<string>)
      ensures this.keyPool == keyPool && this.cb == cb
      ensures Cfg() == Config(strategy, maxRetries, cb.Lim()) && this.fallbackChain == fallbackChain
    {
      this.keyPool, this.cb := keyPool, cb;
      this.strategy, this.maxRetries, this.fallbackChain := strategy, maxRetries, fallbackChain;
    }

    ghost function Cfg(): Config {
      Config(strategy, maxRetries, cb.Lim())
    }

    ghost predicate Valid()
      reads keyPool, cb
    {
      keyPool.Valid() && cb.Valid()
    }

    ghost function View(): World
      reads keyPool, keyPool.pools.Values, cb, cb.breakers.Values
    {
      World(keyPool.View(), cb.View())
    }

    method PickKey(pool: ApiKeyPool, prov: string, m: Moment) returns (r: Option<(string, nat)>)
      requires Valid() && prov in keyPool.pools && keyPool.pools[prov] == pool
      modifies pool
      ensures Valid()
      ensures var (q, picked) := NextKey(PoolOf(old(View()), prov), strategy, m.pick, m.choice);
              && View() == PutPool(old(View()), prov, q)
              && match picked
                 case None => r == None
                 case Some(i) => i < |q.keys| && r == Some((q.keys[i].plaintext, i))
    {
      hide NextKey;
      r := pool.GetNextKey(strategy, m.pick, m.choice);
      keyPool.OnePoolChanged(prov);
    }

    method AskBreaker(prov: string, key: nat, now: real) returns (ok: bool)
      requires Valid()
      modifies cb, cb.breakers.Values
      ensures Valid()
      ensures forall b :: b in cb.breakers.Values ==> b in old(cb.breakers.Values) || fresh(b)
      ensures var b := BreakerOf(old(View()), prov, key);
              ok == Admits(b, cb.Lim(), now) && View() == PutBreaker(old(View()), prov, key, Observe(b, cb.Lim(), now))
    {
      hide Admits, Observe;
      ok := cb.IsAvailable(prov, key, now);
      assert keyPool.View() == old(keyPool.View());
    }

    method NoteSuccess(pool: ApiKeyPool, prov: string, key: nat, now: real)
      requires Valid() && prov in keyPool.pools && keyPool.pools[prov] == pool
      modifies pool, cb, cb.breakers.Values
      ensures Valid()
      ensures forall b :: b in cb.breakers.Values ==> b in old(cb.breakers.Values) || fresh(b)
      ensures var w := PutPool(old(View()), prov, MarkSuccess(PoolOf(old(View()), prov), key, now));
              View() == PutBreaker(w, prov, key, Succeed(BreakerOf(w, prov, key)))
    {
      hide MarkSuccess, Succeed;
      pool.RecordSuccess(key, now);
      keyPool.OnePoolChanged(prov);
      label Pooled:
      assert cb.View() == old(cb.View());
      cb.RecordSuccess(prov, key);
      assert keyPool.View() == old@Pooled(keyPool.View());
    }

    method NoteFailure(pool: ApiKeyPool, prov: string, key: nat, now: real, opening: real)
      requires Valid() && prov in keyPool.pools && keyPool.pools[prov] == pool
      modifies pool, cb, cb.breakers.Values
      ensures Valid()
      ensures forall b :: b in cb.breakers.Values ==> b in old(cb.breakers.Values) || fresh(b)
      ensures var w := PutPool(old(View()), prov, MarkError(PoolOf(old(View()), prov), key, ERROR_THRESHOLD));
              View() == PutBreaker(w, prov, key, Fail(BreakerOf(w, prov, key), cb.Lim(), now, opening))
    {
      hide MarkError, Fail;
      pool.RecordError(key, ERROR_THRESHOLD);
      keyPool.OnePoolChanged(prov);
      label Pooled:
      assert cb.View() == old(cb.View());
      cb.RecordFailure(prov, key, now, opening);
      assert keyPool.View() == old@Pooled(keyPool.View());
    }

    method NoteRateLimit(pool: ApiKeyPool, prov: string, key: nat, seconds: int, now: real)
      requires Valid() && prov in keyPool.pools && keyPool.pools[prov] == pool
      modifies pool
      ensures Valid()
      ensures View() == PutPool(old(View()), prov, MarkRateLimited(PoolOf(old(View()), prov), key, seconds, now))
    {
      hide MarkRateLimited;
      pool.RecordRateLimited(key, seconds, now);
      keyPool.OnePoolChanged(prov);
      assert cb.View() == old(cb.View());
    }

    /** What the adapter's reply does to the pool and the breaker of the key that was called. */
    method HandleReply(pool: ApiKeyPool, prov: string, key: nat, m: Moment)
      requires Valid() && prov in keyPool.pools && keyPool.pools[prov] == pool
      modifies pool, cb, cb.breakers.Values
      ensures Valid()
      ensures forall b :: b in cb.breakers.Values ==> b in old(cb.breakers.Values) || fresh(b)
      ensures View() == Settle(Cfg(), old(View()), prov, key, m)
    {
      hide MarkSuccess, MarkError, MarkRateLimited, Fail, Succeed, View, PutPool, PutBreaker, PoolOf, BreakerOf;
      ghost var w := View();
      SettleCases(Cfg(), w, prov, key, m);
      match m.reply
      case Body(_) =>
        NoteSuccess(pool, prov, key, m.settle);
      case Raised(status, retryAfter) =>
        if status == 429 {
          NoteRateLimit(pool, prov, key, BackoffSeconds(retryAfter), m.settle);
        } else {
          NoteFailure(pool, prov, key, m.note, m.opening);
        }
    }

    /** One turn of the retry loop, up to what it decides. */
    method TakeTurn(pool: ApiKeyPool, prov: string, m: Moment) returns (asked: Asked)
      requires Valid() && prov in keyPool.pools && keyPool.pools[prov] == pool
      modifies pool, cb, cb.breakers.Values
      ensures Valid()
      ensures forall b :: b in cb.breakers.Values ==> b in old(cb.breakers.Values) || fresh(b)
      ensures (View(), asked) == Attempt(Cfg(), old(View()), prov, m)
    {
      hide NextKey, Settle, View, Observe, Admits;
      var r := PickKey(pool, prov, m);
      if r == None {
        return NoKey;
      }
      var key := r.value.1;
      var ok := AskBreaker(prov, key, m.ask);
      if !ok {
        return Blocked(key);
      }
      HandleReply(pool, prov, key, m);
      return Through(key);
    }

    /** The retry loop on one provider; `t` is the trail of the request so far. */
    method TryProvider(pool: ApiKeyPool, prov: string, place: nat, env: nat -> Moment, start: nat, ghost t: Trail)
      returns (v: Verdict, next: nat, slept: nat, ghost u: Trail)
      requires Valid() && prov in keyPool.pools && keyPool.pools[prov] == pool
      requires View() == t.world && start == t.next && t.verdict == Pending
      modifies pool, cb, cb.breakers.Values
      ensures Valid()
      ensures forall b :: b in cb.breakers.Values ==> b in old(cb.breakers.Values) || fresh(b)
      ensures u == Retry(Cfg(), env, prov, place, 0, t)
      ensures View() == u.world && next == u.next && v == u.verdict && t.slept + slept == u.slept
    {
      hide Attempt, View;
      u := t;
      v, next, slept := Pending, start, 0;
      ghost var end := Retry(Cfg(), env, prov, place, 0, t);
      var attempt := 0;
      while attempt < maxRetries
        invariant 0 <= attempt
        invariant Valid() && View() == u.world && next == u.next && t.slept + slept == u.slept
        invariant u.verdict == Pending && v == Pending
        invariant forall b :: b in cb.breakers.Values ==> b in old(cb.breakers.Values) || fresh(b)
        invariant Retry(Cfg(), env, prov, place, attempt, u) == end
        decreases maxRetries - attempt
      {
        var m := env(next);
        var asked := TakeTurn(pool, prov, m);
        next := next + 1;
        u := Extend(Cfg(), u, Turn(prov, place, attempt, m));
        if asked.NoKey? {
          return;
        }
        if asked.Through? {
          match KindOf(m.reply) {
            case Good =>
              v := Answered(m.reply.text);
              return;
            case ClientError =>
              v := Refused(prov, m.reply.status);
              return;
            case Limited =>
            case ServerError =>
              if attempt < maxRetries - 1 {
                slept := slept + Pause(attempt);
              }
          }
        }
        attempt := attempt + 1;
      }
    }

    /** `_chat_with_retry`: returns the response or the error raised, and the seconds slept on the way. */
    method ChatWithRetry(provider: string, env: nat -> Moment, start: nat) returns (out: Outcome, slept: nat)
      requires Valid()
      modifies keyPool, keyPool.pools.Values, cb, cb.breakers.Values
      ensures Valid()
      ensures var t := Serve(Cfg(), env, ProvidersToTry(provider, fallbackChain), old(View()), start);
              View() == t.world && out == OutcomeOf(t, provider) && slept == t.slept
    {
      hide Attempt, Retry, View, WithPool, Conclude;
      var providers := CollectProviders(provider);
      slept := 0;
      ghost var t := Start(View(), start);
      ghost var end := Serve(Cfg(), env, providers, View(), start);
      var next := start;
      var place := 0;
      while place < |providers|
        invariant 0 <= place <= |providers|
        invariant Valid() && View() == t.world && next == t.next && slept == t.slept && t.verdict == Pending
        invariant forall p :: p in keyPool.pools.Values ==> p in old(keyPool.pools.Values) || fresh(p)
        invariant forall b :: b in cb.breakers.Values ==> b in old(cb.breakers.Values) || fresh(b)
        invariant Walk(Cfg(), env, providers, place, t) == end
      {
        var prov := providers[place];
        var pool := EnterPool(prov);
        t := t.(world := WithPool(t.world, prov));
        var v, pause;
        ghost var u;
        v, next, pause, u := TryProvider(pool, prov, place, env, next, t);
        slept := slept + pause;
        t := u;
        if v != Pending {
          out := Conclude(v, provider);
          return;
        }
        place := place + 1;
      }
      out := Conclude(Pending, provider);
    }

    method EnterPool(prov: string) returns (pool: ApiKeyPool)
      requires Valid()
      modifies keyPool
      ensures Valid() && prov in keyPool.pools && keyPool.pools[prov] == pool
      ensures keyPool.pools.Values == old(keyPool.pools.Values) + {pool}
      ensures pool in old(keyPool.pools.Values) || fresh(pool)
      ensures View() == WithPool(old(View()), prov)
    {
      pool := keyPool.GetPool(prov);
      assert cb.View() == old(cb.View());
    }

    /** The requested provider, then each fallback not yet listed. */
    method CollectProviders(provider: string) returns (providers: seq<string>)
      ensures providers == ProvidersToTry(provider, fallbackChain)
    {
      providers := [provider];
      var i := 0;
      while i < |fallbackChain|
        invariant 0 <= i <= |fallbackChain|
        invariant providers == ProvidersToTry(provider, fallbackChain[..i])
      {
        var fb := fallbackChain[i];
        assert fallbackChain[..i+1][..i] == fallbackChain[..i];
        if fb != provider && fb !in providers {
          providers := providers + [fb];
        }
        i := i + 1;
      }
      assert fallbackChain[..i] == fallbackChain;
    }
  }

  /** `Settle` with its intermediate world named. */
  lemma SettleCases(cfg: Config, w: World, prov: string, key: nat, m: Moment)
    ensures KindOf(m.reply) == Good ==>
              var v := PutPool(w, prov, MarkSuccess(PoolOf(w, prov), key, m.settle));
              Settle(cfg, w, prov, key, m) == PutBreaker(v, prov, key, Succeed(BreakerOf(v, prov, key)))
    ensures KindOf(m.reply) == Limited ==>
              Settle(cfg, w, prov, key, m) ==
              PutPool(w, prov, MarkRateLimited(PoolOf(w, prov), key, BackoffSeconds(m.reply.retryAfter), m.settle))
    ensures KindOf(m.reply) in {ClientError, ServerError} ==>
              var v := PutPool(w, prov, MarkError(PoolOf(w, prov), key, ERROR_THRESHOLD));
              Settle(cfg, w, prov, key, m) ==
              PutBreaker(v, prov, key, Fail(BreakerOf(v, prov, key), cfg.limits, m.note, m.opening))
  {
    hide MarkSuccess, MarkError, MarkRateLimited, Fail, Succeed;
  }

  /** Where `s` first occurs in `xs`, or its length. */
  function FirstAt(xs: seq<string>, s: string): (i: nat)
    ensures i <= |xs|
    ensures i < |xs| ==> xs[i] == s
    ensures s !in xs[..i]
    ensures s in xs ==> i < |xs|
  {
    if xs == [] then 0 else if xs[0] == s then 0 else 1 + FirstAt(xs[1..], s)
  }

  lemma {:induction false} FirstAtGrows(xs: seq<string>, x: string, s: string)
    ensures FirstAt(xs + [x], s) == if s in xs then FirstAt(xs, s) else if x == s then |xs| else |xs| + 1
  {
    if xs == [] {
      assert [] + [x] == [x];
    } else if xs[0] != s {
      FirstAtGrows(xs[1..], x, s);
      assert (xs + [x])[1..] == xs[1..] + [x];
      assert xs == [xs[0]] + xs[1..];
    }
  }

  /** After the requested provider, the fallbacks are tried in the order in which the chain first names them. */
  lemma {:induction false} FallbacksInChainOrder(provider: string, fallbacks: seq<string>, i: nat, j: nat)
    requires 1 <= i < j < |ProvidersToTry(provider, fallbacks)|
    ensures var r := ProvidersToTry(provider, fallbacks);
            FirstAt(fallbacks, r[i]) < FirstAt(fallbacks, r[j]) < |fallbacks|
  {
    var r := ProvidersToTry(provider, fallbacks);
    assert r[i] in r && r[j] in r && r[i] != provider && r[j] != provider;
    if fallbacks != [] {
      var n := |fallbacks| - 1;
      var init, fb := fallbacks[..n], fallbacks[n];
      assert fallbacks == init + [fb];
      var q := ProvidersToTry(provider, init);
      assert q[..] <= r;
      assert r[i] in q && r[i] != provider;
      FirstAtGrows(init, fb, r[i]);
      FirstAtGrows(init, fb, r[j]);
      if j < |q| {
        assert r[j] in q;
        FallbacksInChainOrder(provider, init, i, j);
      }
    }
  }
}
