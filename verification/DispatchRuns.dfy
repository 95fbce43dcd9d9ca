/**
 What holds of every run of attempts, whichever requests made them and in whatever order of providers:
 calls are guarded, a rate-limited key is left alone until its back-off ends, every call is accounted for
 once, and every breaker is exactly the breaker of its own call history.
 */
module DispatchRuns {
  import opened CircuitBreakers
  import opened KeyPools
  import opened Dispatch
  import BreakerHistory

  predicate InOrder(m: Moment) {
    m.pick <= m.ask <= m.settle <= m.note <= m.opening
  }

  /** Within a turn and from turn to turn the clock never goes backwards. */
  ghost predicate OnTime(turns: seq<Turn>) {
    && (forall i {:trigger turns[i]} :: 0 <= i < |turns| ==>
          InOrder(turns[i].moment))
    && (forall i, j :: 0 <= i < j < |turns| ==> turns[i].moment.opening <= turns[j].moment.pick)
  }

  lemma AfterStep(cfg: Config, w: World, turns: seq<Turn>, n: nat)
    requires n < |turns|
    ensures After(cfg, w, turns[..n+1]) ==
            Attempt(cfg, After(cfg, w, turns[..n]), turns[n].prov, turns[n].moment).0
  {
    var upto := turns[..n+1];
    assert upto[..|upto|-1] == turns[..n];
  }

  // ----- One attempt, seen from one pool and from one breaker -----

  function SettledPool(pool: Pool, key: nat, m: Moment): Pool {
    match KindOf(m.reply)
    case Good => MarkSuccess(pool, key, m.settle)
    case Limited => MarkRateLimited(pool, key, BackoffSeconds(m.reply.retryAfter), m.settle)
    case ClientError => MarkError(pool, key, ERROR_THRESHOLD)
    case ServerError => MarkError(pool, key, ERROR_THRESHOLD)
  }

  function PoolAfter(cfg: Config, pool: Pool, m: Moment, asked: Asked): Pool {
    var q := NextKey(pool, cfg.strategy, m.pick, m.choice).0;
    if asked.Through? then SettledPool(q, asked.key, m) else q
  }

  lemma SettleOnPools(cfg: Config, w: World, at: string, key: nat, m: Moment, prov: string)
    ensures PoolOf(Settle(cfg, w, at, key, m), prov) ==
            if prov == at then SettledPool(PoolOf(w, at), key, m) else PoolOf(w, prov)
  {
    hide Fail, MarkError, MarkSuccess, MarkRateLimited;
  }

  lemma AskOnPools(cfg: Config, w: World, at: string, m: Moment, prov: string)
    ensures PoolOf(Ask(cfg, w, at, m).0, prov) ==
            if prov == at then NextKey(PoolOf(w, at), cfg.strategy, m.pick, m.choice).0 else PoolOf(w, prov)
  {
    hide NextKey;
  }

  lemma AttemptOnPools(cfg: Config, w: World, at: string, m: Moment, prov: string)
    ensures var (v, asked) := Attempt(cfg, w, at, m);
            PoolOf(v, prov) == if prov == at then PoolAfter(cfg, PoolOf(w, at), m, asked) else PoolOf(w, prov)
  {
    hide Ask, Settle, SettledPool, NextKey;
    AskOnPools(cfg, w, at, m, prov);
    var (w1, asked) := Ask(cfg, w, at, m);
    if asked.Through? {
      SettleOnPools(cfg, w1, at, asked.key, m, prov);
    }
  }

  lemma AttemptPicks(cfg: Config, w: World, at: string, m: Moment)
    ensures var asked := Attempt(cfg, w, at, m).1;
            !asked.NoKey? ==> asked.key in Usable(PoolOf(w, at), m.pick)
  {
  }

  /** Picking changes neither keys nor any back-off entry still standing. */
  lemma PickKeeps(cfg: Config, pool: Pool, m: Moment)
    ensures var q := NextKey(pool, cfg.strategy, m.pick, m.choice).0;
            q.keys == pool.keys
            && forall k :: k in pool.backoff && m.pick < pool.backoff[k] ==> k in q.backoff && q.backoff[k] == pool.backoff[k]
  {
  }

  // ----- Guards -----

  /** Every adapter call uses a key that is in the pool, healthy, not backed off, and admitted by its breaker. */
  lemma CallsAreGuarded(cfg: Config, w: World, turns: seq<Turn>, i: nat)
    requires i < |turns| && Calls(cfg, w, turns, i)
    ensures var v := After(cfg, w, turns[..i]);
            var t := turns[i];
            var key := Found(cfg, w, turns, i).key;
            && key < |PoolOf(v, t.prov).keys|
            && PoolOf(v, t.prov).keys[key].healthy
            && !BackedOff(PoolOf(v, t.prov), key, t.moment.pick)
            && Admits(BreakerOf(v, t.prov, key), cfg.limits, t.moment.ask)
  {
    var p := PoolOf(After(cfg, w, turns[..i]), turns[i].prov);
    var key := Found(cfg, w, turns, i).key;
    assert key in Usable(p, turns[i].moment.pick);
  }

  lemma FoundNothing(cfg: Config, w: World, turns: seq<Turn>, i: nat)
    requires i < |turns|
    ensures Found(cfg, w, turns, i).NoKey? <==>
            Usable(PoolOf(After(cfg, w, turns[..i]), turns[i].prov), turns[i].moment.pick) == []
  {
  }

  /** No key of the pool is both healthy and free of back-off. */
  ghost predicate NoneReady(pool: Pool, now: real) {
    forall k: nat :: k < |pool.keys| ==> !pool.keys[k].healthy || BackedOff(pool, k, now)
  }

  /** A turn finds no key exactly when every key of the provider is unhealthy or backed off. */
  lemma NoKeyExactly(cfg: Config, w: World, turns: seq<Turn>, i: nat)
    requires i < |turns|
    ensures Found(cfg, w, turns, i).NoKey? <==>
            NoneReady(PoolOf(After(cfg, w, turns[..i]), turns[i].prov), turns[i].moment.pick)
  {
    hide Found, After, Usable, NoneReady;
    FoundNothing(cfg, w, turns, i);
    NothingUsable(PoolOf(After(cfg, w, turns[..i]), turns[i].prov), turns[i].moment.pick);
  }

  lemma NothingUsable(pool: Pool, now: real)
    ensures Usable(pool, now) == [] <==> NoneReady(pool, now)
  {
    var us := Usable(pool, now);
    if us == [] {
      forall k: nat | k < |pool.keys| ensures !pool.keys[k].healthy || BackedOff(pool, k, now) {
        assert k !in us;
      }
    } else {
      var k := us[0];
      assert k in us;
      assert pool.keys[k].healthy && !BackedOff(pool, k, now);
    }
  }

  // ----- Back-off -----

  /** When the back-off recorded for a 429 reply ends. */
  function BackoffEnd(m: Moment): real
    requires KindOf(m.reply) == Limited
  {
    m.settle + BackoffSeconds(m.reply.retryAfter) as real
  }

  ghost predicate Standing(w: World, prov: string, key: nat, until: real) {
    key in PoolOf(w, prov).backoff && PoolOf(w, prov).backoff[key] == until
  }

  /** Some turn after `i` and before `n` came at or after `until`. */
  ghost predicate Reached(turns: seq<Turn>, i: nat, n: nat, until: real)
    requires n <= |turns|
  {
    exists l :: i < l < n && turns[l].moment.pick >= until
  }

  lemma SettledBackoff(pool: Pool, called: nat, m: Moment, key: nat)
    requires called != key && key in pool.backoff
    ensures key in SettledPool(pool, called, m).backoff
    ensures SettledPool(pool, called, m).backoff[key] == pool.backoff[key]
  {
  }

  lemma StandingBackoffKept(cfg: Config, w: World, at: string, m: Moment, prov: string, key: nat, until: real)
    requires Standing(w, prov, key, until) && (m.pick < until || at != prov)
    ensures Standing(Attempt(cfg, w, at, m).0, prov, key, until)
    ensures at == prov ==> Attempt(cfg, w, at, m).1 != Through(key)
  {
    hide Attempt, NextKey, SettledPool;
    AttemptOnPools(cfg, w, at, m, prov);
    AttemptPicks(cfg, w, at, m);
    PickKeeps(cfg, PoolOf(w, at), m);
    var asked := Attempt(cfg, w, at, m).1;
    if at == prov && asked.Through? {
      assert asked.key != key;
      SettledBackoff(NextKey(PoolOf(w, at), cfg.strategy, m.pick, m.choice).0, asked.key, m, key);
    }
  }

  lemma LimitedCallBacksOff(cfg: Config, w: World, prov: string, m: Moment, key: nat)
    requires Attempt(cfg, w, prov, m).1 == Through(key) && KindOf(m.reply) == Limited
    ensures Standing(Attempt(cfg, w, prov, m).0, prov, key, BackoffEnd(m))
  {
    AttemptOnPools(cfg, w, prov, m, prov);
  }

  lemma BackoffNext(cfg: Config, v: World, turns: seq<Turn>, i: nat, k: nat, prov: string, key: nat, until: real)
    requires i < k < |turns|
    requires Standing(v, prov, key, until) || Reached(turns, i, k, until)
    ensures Standing(Attempt(cfg, v, turns[k].prov, turns[k].moment).0, prov, key, until)
            || Reached(turns, i, k + 1, until)
  {
    if Reached(turns, i, k, until) {
      var l :| i < l < k && turns[l].moment.pick >= until;
    } else if turns[k].moment.pick < until {
      StandingBackoffKept(cfg, v, turns[k].prov, turns[k].moment, prov, key, until);
    }
  }

  /** A recorded back-off stays in place until some turn comes at or after its end. */
  lemma {:induction false} BackoffStands(cfg: Config, w: World, turns: seq<Turn>, i: nat, n: nat,
                                         prov: string, key: nat, until: real)
    requires i < n <= |turns|
    requires Standing(After(cfg, w, turns[..i+1]), prov, key, until)
    ensures Standing(After(cfg, w, turns[..n]), prov, key, until) || Reached(turns, i, n, until)
  {
    hide Attempt;
    if n > i + 1 {
      BackoffStands(cfg, w, turns, i, n - 1, prov, key, until);
      BackoffNext(cfg, After(cfg, w, turns[..n-1]), turns, i, n - 1, prov, key, until);
      AfterStep(cfg, w, turns, n - 1);
    }
  }

  /** A key that answered 429 is not called again before its back-off ends, across any number of later requests. */
  lemma RateLimitedKeyRests(cfg: Config, w: World, turns: seq<Turn>, i: nat, j: nat, prov: string, key: nat)
    requires OnTime(turns) && i < j < |turns|
    requires CallsKey(cfg, w, turns, i, prov, key) && KindOf(turns[i].moment.reply) == Limited
    requires CallsKey(cfg, w, turns, j, prov, key)
    ensures turns[j].moment.pick >= BackoffEnd(turns[i].moment)
  {
    var until := BackoffEnd(turns[i].moment);
    LimitedCallBacksOff(cfg, After(cfg, w, turns[..i]), prov, turns[i].moment, key);
    AfterStep(cfg, w, turns, i);
    BackoffStands(cfg, w, turns, i, j, prov, key, until);
    if Reached(turns, i, j, until) {
      var l :| i < l < j && turns[l].moment.pick >= until;
      assert turns[l].moment.pick <= turns[l].moment.opening <= turns[j].moment.pick;
    } else if turns[j].moment.pick < until {
      StandingBackoffKept(cfg, After(cfg, w, turns[..j]), prov, turns[j].moment, prov, key, until);
    }
  }

  // ----- Accounting -----

  /** The calls on one key answered in one of the given ways. */
  function Count(cfg: Config, w: World, turns: seq<Turn>, prov: string, key: nat, kinds: set<Kind>): nat {
    if turns == [] then 0 else
      var n := |turns| - 1;
      Count(cfg, w, turns[..n], prov, key, kinds) +
      if CallsKey(cfg, w, turns, n, prov, key) && KindOf(turns[n].moment.reply) in kinds then 1 else 0
  }

  const FAILURES := {ClientError, ServerError}
  const ALL_KINDS := {Good, Limited, ClientError, ServerError}

  /** The counters of one key before and after something that may have been a call on it. */
  ghost predicate Accounted(was: Pool, now: Pool, key: nat, called: bool, kind: Kind)
    requires key < |was.keys|
  {
    && |now.keys| == |was.keys|
    && now.keys[key].usage == was.keys[key].usage + (if called && kind == Good then 1 else 0)
    && now.keys[key].errors == was.keys[key].errors + (if called && kind in FAILURES then 1 else 0)
  }

  lemma SettledPoolAccounts(pool: Pool, called: nat, m: Moment, key: nat)
    requires key < |pool.keys| && called < |pool.keys|
    ensures Accounted(pool, SettledPool(pool, called, m), key, called == key, KindOf(m.reply))
  {
  }

  lemma AttemptAccounts(cfg: Config, w: World, at: string, m: Moment, prov: string, key: nat)
    requires key < |PoolOf(w, prov).keys|
    ensures var (v, asked) := Attempt(cfg, w, at, m);
            Accounted(PoolOf(w, prov), PoolOf(v, prov), key, at == prov && asked == Through(key), KindOf(m.reply))
  {
    AttemptOnPools(cfg, w, at, m, prov);
    AttemptPicks(cfg, w, at, m);
    PickKeeps(cfg, PoolOf(w, at), m);
    var asked := Attempt(cfg, w, at, m).1;
    if at == prov && asked.Through? {
      SettledPoolAccounts(NextKey(PoolOf(w, at), cfg.strategy, m.pick, m.choice).0, asked.key, m, key);
    }
  }

  /**
   Conservation, key by key: a key's usage count grows by its successful calls, its error count by its failed
   calls, and the calls made on it are those two plus the rate-limited ones.
   */
  lemma {:induction false} CallsAreConserved(cfg: Config, w: World, turns: seq<Turn>, prov: string, key: nat)
    requires key < |PoolOf(w, prov).keys|
    ensures var was, now := PoolOf(w, prov), PoolOf(After(cfg, w, turns), prov);
            && |now.keys| == |was.keys|
            && now.keys[key].usage == was.keys[key].usage + Count(cfg, w, turns, prov, key, {Good})
            && now.keys[key].errors == was.keys[key].errors + Count(cfg, w, turns, prov, key, FAILURES)
            && Count(cfg, w, turns, prov, key, ALL_KINDS) ==
               (now.keys[key].usage - was.keys[key].usage) + (now.keys[key].errors - was.keys[key].errors)
               + Count(cfg, w, turns, prov, key, {Limited})
  {
    if turns != [] {
      var n := |turns| - 1;
      CallsAreConserved(cfg, w, turns[..n], prov, key);
      AttemptAccounts(cfg, After(cfg, w, turns[..n]), turns[n].prov, turns[n].moment, prov, key);
    }
  }

  // ----- Totals -----

  function Used(keys: seq<Entry>): nat {
    if keys == [] then 0 else Used(keys[..|keys|-1]) + keys[|keys|-1].usage
  }

  function Erred(keys: seq<Entry>): nat {
    if keys == [] then 0 else Erred(keys[..|keys|-1]) + keys[|keys|-1].errors
  }

  /** All uses counted on the keys of these providers. */
  function UsedIn(w: World, provs: seq<string>): nat {
    if provs == [] then 0 else UsedIn(w, provs[..|provs|-1]) + Used(PoolOf(w, provs[|provs|-1]).keys)
  }

  function ErredIn(w: World, provs: seq<string>): nat {
    if provs == [] then 0 else ErredIn(w, provs[..|provs|-1]) + Erred(PoolOf(w, provs[|provs|-1]).keys)
  }

  /** The calls of the run, on any key, answered in one of the given ways. */
  function CountAll(cfg: Config, w: World, turns: seq<Turn>, kinds: set<Kind>): nat {
    if turns == [] then 0 else
      var n := |turns| - 1;
      CountAll(cfg, w, turns[..n], kinds) +
      if Calls(cfg, w, turns, n) && KindOf(turns[n].moment.reply) in kinds then 1 else 0
  }

  /** When one key at most has moved, the totals move with it. */
  lemma {:induction false} KeyTotals(xs: seq<Entry>, ys: seq<Entry>, n: nat, called: nat, used: bool, erred: bool)
    requires n <= |xs| == |ys|
    requires forall k :: 0 <= k < n ==>
               && ys[k].usage == xs[k].usage + (if k == called && used then 1 else 0)
               && ys[k].errors == xs[k].errors + (if k == called && erred then 1 else 0)
    ensures Used(ys[..n]) == Used(xs[..n]) + (if called < n && used then 1 else 0)
    ensures Erred(ys[..n]) == Erred(xs[..n]) + (if called < n && erred then 1 else 0)
  {
    if n > 0 {
      KeyTotals(xs, ys, n - 1, called, used, erred);
      assert xs[..n][..n-1] == xs[..n-1] && ys[..n][..n-1] == ys[..n-1];
    }
  }

  lemma ProviderTotals(cfg: Config, w: World, at: string, m: Moment, prov: string)
    ensures var (v, asked) := Attempt(cfg, w, at, m);
            var was, now := PoolOf(w, prov).keys, PoolOf(v, prov).keys;
            var called := at == prov && asked.Through?;
            && Used(now) == Used(was) + (if called && KindOf(m.reply) == Good then 1 else 0)
            && Erred(now) == Erred(was) + (if called && KindOf(m.reply) in FAILURES then 1 else 0)
  {
    hide Attempt, PoolOf, KindOf;
    var (v, asked) := Attempt(cfg, w, at, m);
    var was, now := PoolOf(w, prov).keys, PoolOf(v, prov).keys;
    var called := at == prov && asked.Through?;
    var key := if asked.Through? then asked.key else 0;
    SameNumberOfKeys(cfg, w, at, m, prov);
    CalledKeyIsInPool(cfg, w, at, m);
    var used, erred := called && KindOf(m.reply) == Good, called && KindOf(m.reply) in FAILURES;
    forall k | 0 <= k < |was|
      ensures now[k].usage == was[k].usage + (if k == key && used then 1 else 0)
      ensures now[k].errors == was[k].errors + (if k == key && erred then 1 else 0)
    {
      AttemptAccounts(cfg, w, at, m, prov, k);
    }
    KeyTotals(was, now, |was|, key, used, erred);
    assert was[..|was|] == was && now[..|was|] == now;
  }

  lemma SameNumberOfKeys(cfg: Config, w: World, at: string, m: Moment, prov: string)
    ensures |PoolOf(Attempt(cfg, w, at, m).0, prov).keys| == |PoolOf(w, prov).keys|
  {
    AttemptOnPools(cfg, w, at, m, prov);
    PickKeeps(cfg, PoolOf(w, at), m);
  }

  lemma CalledKeyIsInPool(cfg: Config, w: World, at: string, m: Moment)
    ensures var asked := Attempt(cfg, w, at, m).1; asked.Through? ==> asked.key < |PoolOf(w, at).keys|
  {
    hide Attempt;
    AttemptPicks(cfg, w, at, m);
  }

  lemma {:induction false} ChainTotals(cfg: Config, w: World, at: string, m: Moment, provs: seq<string>)
    requires forall a, b :: 0 <= a < b < |provs| ==> provs[a] != provs[b]
    ensures var (v, asked) := Attempt(cfg, w, at, m);
            var called := at in provs && asked.Through?;
            && UsedIn(v, provs) == UsedIn(w, provs) + (if called && KindOf(m.reply) == Good then 1 else 0)
            && ErredIn(v, provs) == ErredIn(w, provs) + (if called && KindOf(m.reply) in FAILURES then 1 else 0)
  {
    hide Attempt, PoolOf, KindOf, Used, Erred;
    if provs != [] {
      var n := |provs| - 1;
      ChainTotals(cfg, w, at, m, provs[..n]);
      ProviderTotals(cfg, w, at, m, provs[n]);
      assert provs == provs[..n] + [provs[n]];
      assert provs[n] !in provs[..n];
    }
  }

  /**
   Conservation over all keys: what the usage counts of the providers called grow by in all are the successful calls,
   what their error counts grow by are the failed ones, and all calls are those two and the rate-limited ones.
   */
  lemma {:induction false} TotalsAreConserved(cfg: Config, w: World, turns: seq<Turn>, provs: seq<string>)
    requires forall a, b :: 0 <= a < b < |provs| ==> provs[a] != provs[b]
    requires forall i :: 0 <= i < |turns| ==> turns[i].prov in provs
    ensures var v := After(cfg, w, turns);
            && UsedIn(v, provs) == UsedIn(w, provs) + CountAll(cfg, w, turns, {Good})
            && ErredIn(v, provs) == ErredIn(w, provs) + CountAll(cfg, w, turns, FAILURES)
            && CountAll(cfg, w, turns, ALL_KINDS) ==
               (UsedIn(v, provs) - UsedIn(w, provs)) + (ErredIn(v, provs) - ErredIn(w, provs))
               + CountAll(cfg, w, turns, {Limited})
  {
    hide Attempt, UsedIn, ErredIn;
    if turns != [] {
      var n := |turns| - 1;
      TotalsAreConserved(cfg, w, turns[..n], provs);
      ChainTotals(cfg, After(cfg, w, turns[..n]), turns[n].prov, turns[n].moment, provs);
    }
  }

  // ----- Breakers -----

  function TurnEvents(asked: Asked, m: Moment, key: nat): seq<BreakerHistory.Event> {
    match asked
    case NoKey => []
    case Blocked(k) => if k == key then [BreakerHistory.Asked(m.ask)] else []
    case Through(k) =>
      if k != key then []
      else
        match KindOf(m.reply)
        case Good => [BreakerHistory.Asked(m.ask), BreakerHistory.Succeeded]
        case Limited => [BreakerHistory.Asked(m.ask)]
        case ClientError => [BreakerHistory.Asked(m.ask), BreakerHistory.Failed(m.note, m.opening)]
        case ServerError => [BreakerHistory.Asked(m.ask), BreakerHistory.Failed(m.note, m.opening)]
  }

  /** What the run did to the breaker of one key: when it was asked, and how each call on the key ended. */
  function EventsOn(cfg: Config, w: World, turns: seq<Turn>, prov: string, key: nat): seq<BreakerHistory.Event> {
    if turns == [] then [] else
      var n := |turns| - 1;
      EventsOn(cfg, w, turns[..n], prov, key) +
      if turns[n].prov == prov then TurnEvents(Found(cfg, w, turns, n), turns[n].moment, key) else []
  }

  lemma AskOnBreakers(cfg: Config, w: World, at: string, m: Moment, prov: string, key: nat)
    ensures var (v, asked) := Ask(cfg, w, at, m);
            BreakerOf(v, prov, key) ==
            if at == prov && !asked.NoKey? && asked.key == key then Observe(BreakerOf(w, prov, key), cfg.limits, m.ask)
            else BreakerOf(w, prov, key)
  {
    hide NextKey, Observe, Admits;
  }

  lemma SettleOnBreakers(cfg: Config, w: World, at: string, called: nat, m: Moment, prov: string, key: nat)
    ensures BreakerOf(Settle(cfg, w, at, called, m), prov, key) ==
            if at == prov && called == key then
              match KindOf(m.reply)
              case Good => Succeed(BreakerOf(w, prov, key))
              case Limited => BreakerOf(w, prov, key)
              case ClientError => Fail(BreakerOf(w, prov, key), cfg.limits, m.note, m.opening)
              case ServerError => Fail(BreakerOf(w, prov, key), cfg.limits, m.note, m.opening)
            else BreakerOf(w, prov, key)
  {
    hide Fail, Succeed, MarkError, MarkSuccess, MarkRateLimited;
  }

  lemma AttemptPlays(cfg: Config, w: World, at: string, m: Moment, prov: string, key: nat)
    ensures var (v, asked) := Attempt(cfg, w, at, m);
            BreakerOf(v, prov, key) ==
            BreakerHistory.PlayFrom(BreakerOf(w, prov, key), cfg.limits,
                                    if at == prov then TurnEvents(asked, m, key) else [])
  {
    hide Ask, Settle, Observe, Fail, Succeed;
    var (w1, asked) := Ask(cfg, w, at, m);
    AskOnBreakers(cfg, w, at, m, prov, key);
    if asked.Through? {
      SettleOnBreakers(cfg, w1, at, asked.key, m, prov, key);
    }
    var es := if at == prov then TurnEvents(asked, m, key) else [];
    var b := BreakerOf(w, prov, key);
    if |es| == 1 {
      PlayOne(b, cfg.limits, es[0]);
    } else if |es| == 2 {
      PlayTwo(b, cfg.limits, es[0], es[1]);
    }
  }

  lemma PlayOne(b: Breaker, lim: Limits, e: BreakerHistory.Event)
    ensures BreakerHistory.PlayFrom(b, lim, [e]) == BreakerHistory.Step(b, lim, e)
    ensures BreakerHistory.FailedIn([e]) == if e.Failed? then 1 else 0
  {
    assert [e][..0] == [];
  }

  lemma PlayTwo(b: Breaker, lim: Limits, e: BreakerHistory.Event, f: BreakerHistory.Event)
    ensures BreakerHistory.PlayFrom(b, lim, [e, f]) == BreakerHistory.Step(BreakerHistory.Step(b, lim, e), lim, f)
    ensures BreakerHistory.FailedIn([e, f]) == (if e.Failed? then 1 else 0) + (if f.Failed? then 1 else 0)
  {
    assert [e, f][..1] == [e];
    PlayOne(b, lim, e);
  }

  lemma TurnFailures(asked: Asked, m: Moment, key: nat)
    ensures BreakerHistory.FailedIn(TurnEvents(asked, m, key)) ==
            if asked == Through(key) && KindOf(m.reply) in FAILURES then 1 else 0
  {
    var es := TurnEvents(asked, m, key);
    if |es| == 1 {
      PlayOne(FRESH, Limits(1, 0), es[0]);
    } else if |es| == 2 {
      PlayTwo(FRESH, Limits(1, 0), es[0], es[1]);
    }
  }

  /** Each non-429 failure reaches that key's breaker once, each success once, a 429 not at all. */
  lemma {:induction false} BreakersFollowTheirCalls(cfg: Config, w: World, turns: seq<Turn>, prov: string, key: nat)
    ensures BreakerOf(After(cfg, w, turns), prov, key) ==
            BreakerHistory.PlayFrom(BreakerOf(w, prov, key), cfg.limits, EventsOn(cfg, w, turns, prov, key))
    ensures BreakerHistory.FailedIn(EventsOn(cfg, w, turns, prov, key)) == Count(cfg, w, turns, prov, key, FAILURES)
  {
    hide Attempt, TurnEvents, BreakerOf, KindOf;
    if turns != [] {
      var n := |turns| - 1;
      BreakersFollowTheirCalls(cfg, w, turns[..n], prov, key);
      AttemptPlays(cfg, After(cfg, w, turns[..n]), turns[n].prov, turns[n].moment, prov, key);
      var xs := EventsOn(cfg, w, turns[..n], prov, key);
      var ys := if turns[n].prov == prov then TurnEvents(Found(cfg, w, turns, n), turns[n].moment, key) else [];
      BreakerHistory.PlayConcat(BreakerOf(w, prov, key), cfg.limits, xs, ys);
      FailedInConcat(xs, ys);
      TurnFailures(Found(cfg, w, turns, n), turns[n].moment, key);
    }
  }

  lemma {:induction false} FailedInConcat(xs: seq<BreakerHistory.Event>, ys: seq<BreakerHistory.Event>)
    ensures BreakerHistory.FailedIn(xs + ys) == BreakerHistory.FailedIn(xs) + BreakerHistory.FailedIn(ys)
    decreases |ys|
  {
    if ys == [] {
      assert xs + ys == xs;
    } else {
      assert (xs + ys)[..|xs + ys|-1] == xs + ys[..|ys|-1];
      FailedInConcat(xs, ys[..|ys|-1]);
    }
  }

  lemma MonotoneConcat(xs: seq<BreakerHistory.Event>, ys: seq<BreakerHistory.Event>, mid: real, now: real)
    requires BreakerHistory.Monotone(xs, mid) && BreakerHistory.Monotone(ys, now) && mid <= now
    requires forall i :: 0 <= i < |ys| && BreakerHistory.Timed(ys[i]) ==> mid <= BreakerHistory.StartOf(ys[i])
    ensures BreakerHistory.Monotone(xs + ys, now)
  {
  }

  lemma NoEventsOnTime(now: real)
    ensures BreakerHistory.Monotone([], now)
  {
  }

  lemma TurnEventsOnTime(asked: Asked, m: Moment, key: nat, now: real)
    requires InOrder(m) && m.opening <= now
    ensures BreakerHistory.Monotone(TurnEvents(asked, m, key), now)
    ensures forall i :: 0 <= i < |TurnEvents(asked, m, key)| && BreakerHistory.Timed(TurnEvents(asked, m, key)[i]) ==>
              m.pick <= BreakerHistory.StartOf(TurnEvents(asked, m, key)[i])
  {
  }

  lemma {:induction false} EventsOnTime(cfg: Config, w: World, turns: seq<Turn>, prov: string, key: nat, now: real)
    requires OnTime(turns) && (turns != [] ==> turns[|turns|-1].moment.opening <= now)
    ensures BreakerHistory.Monotone(EventsOn(cfg, w, turns, prov, key), now)
  {
    hide Found, After, TurnEvents, BreakerHistory.Monotone;
    if turns == [] {
      NoEventsOnTime(now);
    } else {
      var n := |turns| - 1;
      var m := turns[n].moment;
      assert n > 0 ==> turns[n-1].moment.opening <= m.pick;
      EventsOnTime(cfg, w, turns[..n], prov, key, m.pick);
      var ys := if turns[n].prov == prov then TurnEvents(Found(cfg, w, turns, n), m, key) else [];
      TurnEventsOnTime(Found(cfg, w, turns, n), m, key, now);
      NoEventsOnTime(now);
      MonotoneConcat(EventsOn(cfg, w, turns[..n], prov, key), ys, m.pick, now);
    }
  }

  /**
   The breaker guard in terms of history alone.  Starting from fresh breakers, a call is made on a key only if
   fewer than the threshold of its calls have failed since its count was last cleared, or the recovery timeout
   has passed since the last failed call.
   */
  lemma CallsRespectRecovery(cfg: Config, w: World, turns: seq<Turn>, i: nat, c: nat)
    requires cfg.limits.threshold >= 1 && OnTime(turns)
    requires i < |turns| && Calls(cfg, w, turns, i)
    requires BreakerOf(w, turns[i].prov, Found(cfg, w, turns, i).key) == FRESH
    requires BreakerHistory.LastClear(cfg.limits,
               EventsOn(cfg, w, turns[..i], turns[i].prov, Found(cfg, w, turns, i).key), c)
    ensures var es := EventsOn(cfg, w, turns[..i], turns[i].prov, Found(cfg, w, turns, i).key);
            || BreakerHistory.FailedIn(es[c..]) < cfg.limits.threshold
            || turns[i].moment.ask - BreakerHistory.LastOpening(es) >= cfg.limits.recovery as real
  {
    hide Attempt, EventsOn, Admits;
    var prov, key, now := turns[i].prov, Found(cfg, w, turns, i).key, turns[i].moment.ask;
    if i > 0 {
      assert turns[i-1].moment.opening <= turns[i].moment.pick;
    }
    EventsOnTime(cfg, w, turns[..i], prov, key, now);
    BreakersFollowTheirCalls(cfg, w, turns[..i], prov, key);
    CallsAreGuarded(cfg, w, turns, i);
    BreakerHistory.AvailableExactly(cfg.limits, EventsOn(cfg, w, turns[..i], prov, key), c, now);
  }
}
