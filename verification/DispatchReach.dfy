/**
 When the retry loop reaches an adapter call on a provider: exactly when one of the keys it is going to pick, out of
 those usable by then, has a breaker that lets it through.  Under round robin that is so whenever a stretch of attempts
 goes once round the usable keys.
 */
module DispatchReach {
  import opened Prelude
  import opened CircuitBreakers
  import opened KeyPools
  import opened PoolFairness
  import opened Dispatch
  import opened DispatchRequest

  predicate AnyCall(cfg: Config, w: World, turns: seq<Turn>) {
    exists i :: 0 <= i < |turns| && Calls(cfg, w, turns, i)
  }

  lemma AnyCallFirst(cfg: Config, w: World, turn: Turn, rest: seq<Turn>)
    ensures var (v, asked) := Attempt(cfg, w, turn.prov, turn.moment);
            AnyCall(cfg, w, [turn] + rest) <==> asked.Through? || AnyCall(cfg, v, rest)
  {
    hide Attempt;
    var (v, asked) := Attempt(cfg, w, turn.prov, turn.moment);
    var all := [turn] + rest;
    assert all[..0] == [] && Found(cfg, w, all, 0) == asked;
    assert After(cfg, w, [turn]) == v by {
      assert [turn][..0] == [];
    }
    forall i | 0 <= i < |rest| ensures Found(cfg, w, all, i + 1) == Found(cfg, v, rest, i) {
      assert all[..i+1] == [turn] + rest[..i];
      AfterConcat(cfg, w, [turn], rest[..i]);
    }
    if AnyCall(cfg, w, all) && !asked.Through? {
      var i :| 0 <= i < |all| && Calls(cfg, w, all, i);
      assert Calls(cfg, v, rest, i - 1);
    }
    if asked.Through? {
      assert Calls(cfg, w, all, 0);
    } else if AnyCall(cfg, v, rest) {
      var i :| 0 <= i < |rest| && Calls(cfg, v, rest, i);
      assert Calls(cfg, w, all, i + 1);
    }
  }

  /** The `j`-th moment from `next` on. */
  function Nth(env: nat -> Moment, next: nat, j: nat): Moment {
    env(next + j)
  }

  /** The key the `j`-th attempt from now picks out of the usable keys `us`, if none before it made a call. */
  function PickOf(cfg: Config, pool: Pool, us: seq<nat>, j: nat, m: Moment): nat
    requires us != [] && forall a :: 0 <= a < |us| ==> us[a] < |pool.keys|
  {
    match cfg.strategy
    case Random => us[m.choice % |us|]
    case LeastUsed => LeastUsedOf(pool.keys, us)
    case RoundRobin => us[(pool.counter + j) % |us|]
  }

  lemma UsableInRange(pool: Pool, now: real)
    ensures forall a :: 0 <= a < |Usable(pool, now)| ==> Usable(pool, now)[a] < |pool.keys|
  {
  }

  /** The `j`-th pick finds a key, and that key's breaker lets it through when asked. */
  ghost predicate PickAdmitted(cfg: Config, w: World, prov: string, j: nat, m: Moment) {
    var pool := PoolOf(w, prov);
    var us := Usable(pool, m.pick);
    UsableInRange(pool, m.pick);
    us != [] && Admits(BreakerOf(w, prov, PickOf(cfg, pool, us, j, m)), cfg.limits, m.ask)
  }

  /** The next `j + 1` picks all find a usable key. */
  ghost predicate KeysUpTo(pool: Pool, env: nat -> Moment, next: nat, j: nat) {
    forall i: nat :: i <= j ==> Usable(pool, Nth(env, next, i).pick) != []
  }

  /** One of the next `n` picks is admitted, and no pick before it ends the loop for want of a key. */
  ghost predicate SomePickAdmitted(cfg: Config, w: World, prov: string, env: nat -> Moment, next: nat, n: int) {
    exists j: nat :: j < n && KeysUpTo(PoolOf(w, prov), env, next, j) && PickAdmitted(cfg, w, prov, j, Nth(env, next, j))
  }

  lemma NextKeyPicks(cfg: Config, pool: Pool, us: seq<nat>, m: Moment)
    requires us != [] && Usable(pool, m.pick) == us && forall a :: 0 <= a < |us| ==> us[a] < |pool.keys|
    ensures var (q, picked) := NextKey(pool, cfg.strategy, m.pick, m.choice);
            && picked == Some(PickOf(cfg, pool, us, 0, m))
            && q.keys == pool.keys
            && q.counter == pool.counter + (if cfg.strategy.RoundRobin? then 1 else 0)
            && forall u :: m.pick <= u ==> Usable(q, u) == Usable(pool, u)
  {
    hide LeastUsedOf;
    var q := NextKey(pool, cfg.strategy, m.pick, m.choice).0;
    forall u | m.pick <= u ensures Usable(q, u) == Usable(pool, u) {
      SweepKeepsUsable(pool, m.pick, u, |pool.keys|);
      UsableIgnoresCounter(Sweep(pool, m.pick), pool.counter + 1, u, |pool.keys|);
    }
  }

  /** What a blocked attempt leaves: the same keys, usable at the same later moments, and the rotation one further. */
  ghost predicate Turned(cfg: Config, p: Pool, q: Pool, from: real) {
    && q.keys == p.keys
    && q.counter == p.counter + (if cfg.strategy.RoundRobin? then 1 else 0)
    && (forall u :: from <= u ==> Usable(q, u) == Usable(p, u))
  }

  /** A blocked attempt changes neither the breakers nor who is usable; only the rotation moves on. */
  lemma BlockedAttempt(cfg: Config, w: World, prov: string, m: Moment)
    ensures var (v, asked) := Attempt(cfg, w, prov, m);
            && (asked.NoKey? <==> Usable(PoolOf(w, prov), m.pick) == [])
            && (asked.Through? <==> PickAdmitted(cfg, w, prov, 0, m))
            && (asked.Blocked? ==> Turned(cfg, PoolOf(w, prov), PoolOf(v, prov), m.pick)
                                   && forall k :: BreakerOf(v, prov, k) == BreakerOf(w, prov, k))
  {
    hide NextKey, Settle, PickOf, Usable;
    var pool := PoolOf(w, prov);
    UsableInRange(pool, m.pick);
    if Usable(pool, m.pick) != [] {
      NextKeyPicks(cfg, pool, Usable(pool, m.pick), m);
    } else {
      NothingToPick(cfg, pool, m);
    }
  }

  lemma NothingToPick(cfg: Config, pool: Pool, m: Moment)
    ensures Usable(pool, m.pick) == [] ==> NextKey(pool, cfg.strategy, m.pick, m.choice).1 == None
  {
  }

  lemma PickOfShifts(cfg: Config, p: Pool, q: Pool, us: seq<nat>, j: nat, m: Moment)
    requires us != [] && forall a :: 0 <= a < |us| ==> us[a] < |p.keys|
    requires q.keys == p.keys && q.counter == p.counter + (if cfg.strategy.RoundRobin? then 1 else 0)
    ensures PickOf(cfg, q, us, j, m) == PickOf(cfg, p, us, j + 1, m)
  {
  }

  /** A pick after a blocked attempt is the pick one further on before it. */
  lemma PickShifts(cfg: Config, w: World, v: World, prov: string, from: real, j: nat, m: Moment)
    requires Turned(cfg, PoolOf(w, prov), PoolOf(v, prov), from) && from <= m.pick
    requires forall k :: BreakerOf(v, prov, k) == BreakerOf(w, prov, k)
    ensures PickAdmitted(cfg, v, prov, j, m) <==> PickAdmitted(cfg, w, prov, j + 1, m)
  {
    hide Usable, PickOf, PoolOf, BreakerOf, Admits;
    var us := Usable(PoolOf(w, prov), m.pick);
    UsableInRange(PoolOf(w, prov), m.pick);
    if us != [] {
      PickOfShifts(cfg, PoolOf(w, prov), PoolOf(v, prov), us, j, m);
    }
  }

  lemma KeysShift(p: Pool, q: Pool, env: nat -> Moment, next: nat, n: int, j: nat)
    requires j + 1 < n && Forward(env, next, n)
    requires forall u :: Nth(env, next, 0).pick <= u ==> Usable(q, u) == Usable(p, u)
    requires Usable(p, Nth(env, next, 0).pick) != []
    ensures KeysUpTo(q, env, next + 1, j) <==> KeysUpTo(p, env, next, j + 1)
  {
    hide Usable;
    var after := next + 1;
    forall i: nat | i <= j ensures Usable(q, Nth(env, after, i).pick) == Usable(p, Nth(env, next, i + 1).pick) {
      assert Nth(env, after, i) == Nth(env, next, i + 1);
    }
    if KeysUpTo(q, env, after, j) {
      forall i: nat | i <= j + 1 ensures Usable(p, Nth(env, next, i).pick) != [] {
        if i > 0 {
          assert Usable(q, Nth(env, after, i - 1).pick) != [];
        }
      }
    }
  }

  lemma ForwardShifts(env: nat -> Moment, next: nat, n: int)
    requires Forward(env, next, n)
    ensures Forward(env, next + 1, n - 1)
  {
    var after := next + 1;
    forall i: nat, j: nat | i <= j < n - 1
      ensures Nth(env, after, i).pick <= Nth(env, after, j).pick && Nth(env, after, i).ask <= Nth(env, after, j).ask
    {
      assert Nth(env, after, i) == Nth(env, next, i + 1) && Nth(env, after, j) == Nth(env, next, j + 1);
    }
  }

  /** After a blocked attempt, the picks still to come are the old ones less the first. */
  lemma PicksStillToCome(cfg: Config, w: World, v: World, prov: string, env: nat -> Moment, next: nat, n: int)
    requires n > 0 && Forward(env, next, n) && Usable(PoolOf(w, prov), env(next).pick) != []
    requires Turned(cfg, PoolOf(w, prov), PoolOf(v, prov), env(next).pick)
    requires forall k :: BreakerOf(v, prov, k) == BreakerOf(w, prov, k)
    ensures SomePickAdmitted(cfg, w, prov, env, next, n) <==>
            PickAdmitted(cfg, w, prov, 0, env(next)) || SomePickAdmitted(cfg, v, prov, env, next + 1, n - 1)
  {
    hide Usable, PoolOf, BreakerOf, Admits, PickAdmitted, KeysUpTo;
    var p, q := PoolOf(w, prov), PoolOf(v, prov);
    assert Nth(env, next, 0) == env(next);
    var after := next + 1;
    forall j: nat | j < n - 1
      ensures KeysUpTo(q, env, after, j) <==> KeysUpTo(p, env, next, j + 1)
      ensures PickAdmitted(cfg, v, prov, j, Nth(env, after, j)) <==>
              PickAdmitted(cfg, w, prov, j + 1, Nth(env, next, j + 1))
    {
      assert Nth(env, after, j) == Nth(env, next, j + 1);
      assert Nth(env, next, 0).pick <= Nth(env, next, j + 1).pick;
      KeysShift(p, q, env, next, n, j);
      PickShifts(cfg, w, v, prov, env(next).pick, j, Nth(env, after, j));
    }
    if SomePickAdmitted(cfg, w, prov, env, next, n) {
      var j: nat :| j < n && KeysUpTo(p, env, next, j) && PickAdmitted(cfg, w, prov, j, Nth(env, next, j));
      if j > 0 {
        var i := j - 1;
        assert KeysUpTo(q, env, after, i) && PickAdmitted(cfg, v, prov, i, Nth(env, after, i));
      }
    }
    if SomePickAdmitted(cfg, v, prov, env, after, n - 1) {
      var j: nat :| j < n - 1 && KeysUpTo(q, env, after, j) && PickAdmitted(cfg, v, prov, j, Nth(env, after, j));
      var i := j + 1;
      assert KeysUpTo(p, env, next, i) && PickAdmitted(cfg, w, prov, i, Nth(env, next, i));
    }
    if PickAdmitted(cfg, w, prov, 0, env(next)) {
      FirstKey(p, env, next);
      assert KeysUpTo(p, env, next, 0) && PickAdmitted(cfg, w, prov, 0, Nth(env, next, 0));
    }
  }

  lemma FirstKey(p: Pool, env: nat -> Moment, next: nat)
    requires Usable(p, env(next).pick) != []
    ensures KeysUpTo(p, env, next, 0)
  {
    hide Usable;
  }

  lemma NoKeyNoPick(cfg: Config, w: World, prov: string, env: nat -> Moment, next: nat, n: int)
    requires Usable(PoolOf(w, prov), env(next).pick) == []
    ensures !SomePickAdmitted(cfg, w, prov, env, next, n)
  {
    hide Usable;
    assert Nth(env, next, 0) == env(next);
  }

  lemma {:induction false} RetryAppends(cfg: Config, env: nat -> Moment, prov: string, place: nat, attempt: nat, t: Trail)
    ensures t.turns <= Retry(cfg, env, prov, place, attempt, t).turns
    decreases cfg.maxRetries - attempt
  {
    hide Attempt;
    if attempt < cfg.maxRetries {
      RetryAppends(cfg, env, prov, place, attempt + 1, Extend(cfg, t, Turn(prov, place, attempt, env(t.next))));
    }
  }

  /** The turns the retry loop adds to a trail. */
  function NewTurns(cfg: Config, env: nat -> Moment, prov: string, place: nat, attempt: nat, t: Trail): seq<Turn> {
    RetryAppends(cfg, env, prov, place, attempt, t);
    Retry(cfg, env, prov, place, attempt, t).turns[|t.turns|..]
  }

  lemma NewTurnsStep(cfg: Config, env: nat -> Moment, prov: string, place: nat, attempt: nat, t: Trail)
    requires attempt < cfg.maxRetries
    ensures var turn := Turn(prov, place, attempt, env(t.next));
            var u := Extend(cfg, t, turn);
            NewTurns(cfg, env, prov, place, attempt, t) ==
            [turn] + if Attempt(cfg, t.world, prov, turn.moment).1.NoKey? || u.verdict != Pending then []
                     else NewTurns(cfg, env, prov, place, attempt + 1, u)
  {
    hide Attempt, VerdictOf, PauseAfter;
    var u := Extend(cfg, t, Turn(prov, place, attempt, env(t.next)));
    RetryAppends(cfg, env, prov, place, attempt + 1, u);
  }

  /** Picks only move forward in time from moment `next` on, and so do the questions to the breakers. */
  ghost predicate Forward(env: nat -> Moment, next: nat, n: int) {
    forall i: nat, j: nat :: i <= j < n ==>
      Nth(env, next, i).pick <= Nth(env, next, j).pick && Nth(env, next, i).ask <= Nth(env, next, j).ask
  }

  /**
   The loop makes a call on the provider if and only if one of the keys it picks, one per attempt out of those usable
   by then, has a breaker that lets it through when asked, and no attempt before it finds the provider without keys.
   */
  lemma {:induction false} CallMadeExactly(cfg: Config, env: nat -> Moment, prov: string, place: nat, attempt: nat,
                                           t: Trail)
    requires t.verdict == Pending && Forward(env, t.next, cfg.maxRetries - attempt)
    ensures AnyCall(cfg, t.world, NewTurns(cfg, env, prov, place, attempt, t)) <==>
            SomePickAdmitted(cfg, t.world, prov, env, t.next, cfg.maxRetries - attempt)
    decreases cfg.maxRetries - attempt
  {
    hide Attempt, PickAdmitted, SomePickAdmitted, Turned, Usable, Calls, PoolOf, BreakerOf, NewTurns, AnyCall, Forward;
    var n := cfg.maxRetries - attempt;
    if attempt >= cfg.maxRetries {
      NoTurnsLeft(cfg, env, prov, place, attempt, t);
    } else {
      var turn := Turn(prov, place, attempt, env(t.next));
      var m := turn.moment;
      NewTurnsStep(cfg, env, prov, place, attempt, t);
      BlockedAttempt(cfg, t.world, prov, m);
      var u := Extend(cfg, t, turn);
      var asked := Attempt(cfg, t.world, prov, m).1;
      var rest := if asked.NoKey? || u.verdict != Pending then [] else NewTurns(cfg, env, prov, place, attempt + 1, u);
      AnyCallFirst(cfg, t.world, turn, rest);
      if asked.NoKey? {
        NoKeyNoPick(cfg, t.world, prov, env, t.next, n);
        NoCallInNothing(cfg, u.world);
      } else if asked.Blocked? {
        PicksStillToCome(cfg, t.world, u.world, prov, env, t.next, n);
        ForwardShifts(env, t.next, n);
        CallMadeExactly(cfg, env, prov, place, attempt + 1, u);
      } else {
        ThroughIsAdmitted(cfg, t.world, prov, env, t.next, n);
      }
    }
  }

  lemma NoCallInNothing(cfg: Config, w: World)
    ensures !AnyCall(cfg, w, [])
  {
  }

  lemma ThroughIsAdmitted(cfg: Config, w: World, prov: string, env: nat -> Moment, next: nat, n: int)
    requires n > 0 && PickAdmitted(cfg, w, prov, 0, env(next))
    ensures SomePickAdmitted(cfg, w, prov, env, next, n)
  {
    hide Usable, PickOf, Admits;
    FirstKey(PoolOf(w, prov), env, next);
    assert KeysUpTo(PoolOf(w, prov), env, next, 0) && PickAdmitted(cfg, w, prov, 0, Nth(env, next, 0));
  }

  lemma NoTurnsLeft(cfg: Config, env: nat -> Moment, prov: string, place: nat, attempt: nat, t: Trail)
    requires attempt >= cfg.maxRetries
    ensures !AnyCall(cfg, t.world, NewTurns(cfg, env, prov, place, attempt, t))
    ensures !SomePickAdmitted(cfg, t.world, prov, env, t.next, cfg.maxRetries - attempt)
  {
    hide PickAdmitted, KeysUpTo;
  }

  // ----- Usable keys over time -----

  lemma DropLast(xs: seq<nat>, ys: seq<nat>, last: nat)
    ensures xs + [last] == ys + [last] ==> xs == ys
  {
    if xs + [last] == ys + [last] {
      assert xs == (xs + [last])[..|xs + [last]| - 1] == (ys + [last])[..|ys + [last]| - 1] == ys;
    }
  }

  /** Keys come back when their back-off ends; none goes away by waiting. */
  lemma {:induction false} UsableBetween(p: Pool, a: real, b: real, c: real, n: nat)
    requires n <= |p.keys| && a <= b <= c && UsableBelow(p, n, a) == UsableBelow(p, n, c)
    ensures UsableBelow(p, n, b) == UsableBelow(p, n, a)
  {
    if n > 0 {
      assert n - 1 in UsableBelow(p, n, a) <==> IsUsable(p, n - 1, a);
      assert n - 1 in UsableBelow(p, n, c) <==> IsUsable(p, n - 1, c);
      var x, y := UsableBelow(p, n - 1, a), UsableBelow(p, n - 1, c);
      assert x + [] == x && y + [] == y;
      DropLast(x, y, n - 1);
      UsableBetween(p, a, b, c, n - 1);
    }
  }

  lemma StillUsable(p: Pool, a: real, b: real)
    requires a <= b && Usable(p, a) != []
    ensures Usable(p, b) != []
  {
    var k := Usable(p, a)[0];
    assert k in Usable(p, a);
    assert IsUsable(p, k, b);
    assert k in Usable(p, b);
  }

  /** A key usable at the first pick is enough for every later pick to find one. */
  lemma FirstPickDecides(p: Pool, env: nat -> Moment, next: nat, n: int, j: nat)
    requires j < n && Forward(env, next, n) && Usable(p, Nth(env, next, 0).pick) != []
    ensures KeysUpTo(p, env, next, j)
  {
    hide Usable;
    forall i: nat | i <= j ensures Usable(p, Nth(env, next, i).pick) != [] {
      StillUsable(p, Nth(env, next, 0).pick, Nth(env, next, i).pick);
    }
  }

  // ----- Round robin -----

  /** Any |us| attempts in a row that see the same usable keys ask each of them, from any counter. */
  lemma StretchMeets(cfg: Config, w: World, prov: string, env: nat -> Moment, next: nat, n: int, a: nat, good: nat)
    returns (j: nat)
    requires cfg.strategy == RoundRobin && Forward(env, next, n)
    requires var us := Usable(PoolOf(w, prov), Nth(env, next, a).pick);
             && good in us && a + |us| <= n && Usable(PoolOf(w, prov), Nth(env, next, a + |us| - 1).pick) == us
             && Admits(BreakerOf(w, prov, good), cfg.limits, Nth(env, next, a).ask)
    ensures a <= j < n && PickAdmitted(cfg, w, prov, j, Nth(env, next, j))
  {
    hide Usable;
    var pool := PoolOf(w, prov);
    var first := Nth(env, next, a);
    var us := Usable(pool, first.pick);
    var last := a + |us| - 1;
    var r: nat :| r < |us| && us[r] == good;
    var i := Reaches(pool.counter + a, |us|, r);
    j := a + i;
    assert first.pick <= Nth(env, next, j).pick <= Nth(env, next, last).pick && first.ask <= Nth(env, next, j).ask;
    SameUsable(pool, first.pick, Nth(env, next, j).pick, Nth(env, next, last).pick);
    UsableInRange(pool, first.pick);
    assert (pool.counter + j) % |us| == r;
    assert PickOf(cfg, pool, us, j, Nth(env, next, j)) == good;
  }

  lemma SameUsable(p: Pool, a: real, b: real, c: real)
    requires a <= b <= c && Usable(p, a) == Usable(p, c)
    ensures Usable(p, b) == Usable(p, a)
  {
    UsableBetween(p, a, b, c, |p.keys|);
  }

  /**
   Reachability: under round robin, from any counter, if the loop has as many attempts in a row as there are usable
   keys during which no back-off ends, and one of those keys has a breaker that is not OPEN, the loop makes a call.
   */
  lemma RoundRobinReaches(cfg: Config, env: nat -> Moment, prov: string, place: nat, t: Trail, a: nat, good: nat)
    requires cfg.strategy == RoundRobin && t.verdict == Pending && Forward(env, t.next, cfg.maxRetries)
    requires Usable(PoolOf(t.world, prov), Nth(env, t.next, 0).pick) != []
    requires var pool := PoolOf(t.world, prov);
             var us := Usable(pool, Nth(env, t.next, a).pick);
             && good in us && a + |us| <= cfg.maxRetries && Usable(pool, Nth(env, t.next, a + |us| - 1).pick) == us
             && Admits(BreakerOf(t.world, prov, good), cfg.limits, Nth(env, t.next, a).ask)
    ensures AnyCall(cfg, t.world, NewTurns(cfg, env, prov, place, 0, t))
  {
    hide AnyCall, NewTurns, Usable, PickAdmitted, KeysUpTo, Forward;
    var j := StretchMeets(cfg, t.world, prov, env, t.next, cfg.maxRetries, a, good);
    FirstPickDecides(PoolOf(t.world, prov), env, t.next, cfg.maxRetries, j);
    CallMadeExactly(cfg, env, prov, place, 0, t);
  }

  /** From counter `c`, one of the next `retries` picks out of `k` keys is the one at position `r`. */
  ghost predicate Meets(c: nat, retries: nat, k: nat, r: nat)
    requires 0 < k
  {
    exists x: nat :: c <= x < c + retries && x % k == r
  }

  /**
   With a single good key among `k` usable ones, the picks of `retries` attempts meet it from every counter if and
   only if k <= retries.
   */
  lemma EveryCounterMeetsExactly(k: nat, r: nat, retries: nat)
    requires r < k
    ensures (forall c: nat :: Meets(c, retries, k, r)) <==> k <= retries
  {
    if k <= retries {
      forall c: nat ensures Meets(c, retries, k, r) {
        var j := Reaches(c, k, r);
        assert c <= c + j < c + retries && (c + j) % k == r;
      }
    } else {
      if Meets(r + 1, retries, k, r) {
        var x: nat :| r + 1 <= x < r + 1 + retries && x % k == r;
        if x < k {
          DivUnique(x, k, 0, x);
        } else {
          DivUnique(x, k, 1, x - k);
        }
      }
      assert !Meets(r + 1, retries, k, r);
    }
  }

  /** The world with the rotation of one provider's pool set to `c`. */
  function TurnedTo(w: World, prov: string, c: nat): World {
    PutPool(w, prov, PoolOf(w, prov).(counter := c))
  }

  /** The usable keys are `us` at each of the next `n` picks. */
  ghost predicate Steady(pool: Pool, us: seq<nat>, env: nat -> Moment, next: nat, n: int) {
    && us != [] && (n > 0 ==> forall a :: 0 <= a < |us| ==> us[a] < |pool.keys|)
    && forall j: nat :: j < n ==> Usable(pool, Nth(env, next, j).pick) == us
  }

  /** Of the usable keys, `good` and no other is admitted whenever it is asked. */
  ghost predicate OnlyGood(cfg: Config, w: World, prov: string, us: seq<nat>, good: nat,
                           env: nat -> Moment, next: nat, n: int)
  {
    forall k, j: nat :: k in us && j < n ==>
      (Admits(BreakerOf(w, prov, k), cfg.limits, Nth(env, next, j).ask) <==> k == good)
  }

  lemma SteadyAt(pool: Pool, us: seq<nat>, env: nat -> Moment, next: nat, n: int, c: nat, j: nat)
    requires Steady(pool, us, env, next, n) && j < n
    ensures Usable(pool.(counter := c), Nth(env, next, j).pick) == us
  {
    UsableIgnoresCounter(pool, c, Nth(env, next, j).pick, |pool.keys|);
  }

  lemma TurnedMeets(cfg: Config, w: World, prov: string, us: seq<nat>, r: nat, env: nat -> Moment, next: nat, n: nat, c: nat)
    requires cfg.strategy == RoundRobin && Steady(PoolOf(w, prov), us, env, next, n) && Forward(env, next, n)
    requires r < |us| && OnlyGood(cfg, w, prov, us, us[r], env, next, n)
    requires forall i, j :: 0 <= i < j < |us| ==> us[i] != us[j]
    ensures SomePickAdmitted(cfg, TurnedTo(w, prov, c), prov, env, next, n) <==> Meets(c, n, |us|, r)
  {
    hide Usable, Admits;
    var v := TurnedTo(w, prov, c);
    var pool := PoolOf(v, prov);
    assert pool == PoolOf(w, prov).(counter := c) && forall k :: BreakerOf(v, prov, k) == BreakerOf(w, prov, k);
    forall j: nat | j < n
      ensures KeysUpTo(pool, env, next, j)
      ensures PickAdmitted(cfg, v, prov, j, Nth(env, next, j)) <==> (c + j) % |us| == r
    {
      forall i: nat | i <= j ensures Usable(pool, Nth(env, next, i).pick) != [] {
        SteadyAt(PoolOf(w, prov), us, env, next, n, c, i);
      }
      SteadyAt(PoolOf(w, prov), us, env, next, n, c, j);
      var pick := (c + j) % |us|;
      assert PickOf(cfg, pool, us, j, Nth(env, next, j)) == us[pick] && us[pick] in us;
    }
    if SomePickAdmitted(cfg, v, prov, env, next, n) {
      var j: nat :| j < n && KeysUpTo(pool, env, next, j) && PickAdmitted(cfg, v, prov, j, Nth(env, next, j));
      var x := c + j;
      assert c <= x < c + n && x % |us| == r;
    }
    if Meets(c, n, |us|, r) {
      var x: nat :| c <= x < c + n && x % |us| == r;
      var j := x - c;
      assert KeysUpTo(pool, env, next, j) && PickAdmitted(cfg, v, prov, j, Nth(env, next, j));
    }
  }

  /**
   The number of attempts that takes is exact: while the usable keys stay the same and one of them alone is admitted,
   the loop makes a call from every counter if and only if there are no more usable keys than attempts.
   */
  lemma RoundRobinReachesExactly(cfg: Config, env: nat -> Moment, prov: string, place: nat, t: Trail, us: seq<nat>, r: nat)
    requires cfg.strategy == RoundRobin && t.verdict == Pending && cfg.maxRetries >= 1
    requires Forward(env, t.next, cfg.maxRetries) && Steady(PoolOf(t.world, prov), us, env, t.next, cfg.maxRetries)
    requires r < |us| && OnlyGood(cfg, t.world, prov, us, us[r], env, t.next, cfg.maxRetries)
    ensures (forall c: nat :: var u := t.(world := TurnedTo(t.world, prov, c));
                              AnyCall(cfg, u.world, NewTurns(cfg, env, prov, place, 0, u)))
            <==> |us| <= cfg.maxRetries
  {
    hide AnyCall, NewTurns, SomePickAdmitted, Steady, OnlyGood, Meets, Forward, TurnedTo;
    UsableAscends(PoolOf(t.world, prov), us, env, t.next, cfg.maxRetries);
    forall c: nat
      ensures var u := t.(world := TurnedTo(t.world, prov, c));
              AnyCall(cfg, u.world, NewTurns(cfg, env, prov, place, 0, u)) <==> Meets(c, cfg.maxRetries, |us|, r)
    {
      CallMadeExactly(cfg, env, prov, place, 0, t.(world := TurnedTo(t.world, prov, c)));
      TurnedMeets(cfg, t.world, prov, us, r, env, t.next, cfg.maxRetries, c);
    }
    EveryCounterMeetsExactly(|us|, r, cfg.maxRetries);
  }

  lemma UsableAscends(pool: Pool, us: seq<nat>, env: nat -> Moment, next: nat, n: nat)
    requires n >= 1 && Steady(pool, us, env, next, n)
    ensures forall i, j :: 0 <= i < j < |us| ==> us[i] < us[j]
  {
    assert Usable(pool, Nth(env, next, 0).pick) == us;
  }

  // ----- The other strategies do not rotate -----

  /** Under least-used, every attempt asks the same key, so one OPEN breaker can hide all the other keys. */
  lemma LeastUsedAsksOneKey(cfg: Config, env: nat -> Moment, prov: string, place: nat, t: Trail, us: seq<nat>)
    requires cfg.strategy == LeastUsed && t.verdict == Pending && cfg.maxRetries >= 1
    requires Forward(env, t.next, cfg.maxRetries) && Steady(PoolOf(t.world, prov), us, env, t.next, cfg.maxRetries)
    ensures AnyCall(cfg, t.world, NewTurns(cfg, env, prov, place, 0, t)) <==>
            exists j: nat :: j < cfg.maxRetries &&
              Admits(BreakerOf(t.world, prov, LeastUsedOf(PoolOf(t.world, prov).keys, us)), cfg.limits,
                     Nth(env, t.next, j).ask)
  {
    hide AnyCall, NewTurns, Usable, Admits, LeastUsedOf, Forward;
    CallMadeExactly(cfg, env, prov, place, 0, t);
    var pool := PoolOf(t.world, prov);
    var b := BreakerOf(t.world, prov, LeastUsedOf(pool.keys, us));
    assert forall j: nat :: j < cfg.maxRetries ==>
      KeysUpTo(pool, env, t.next, j) &&
      (PickAdmitted(cfg, t.world, prov, j, Nth(env, t.next, j)) <==> Admits(b, cfg.limits, Nth(env, t.next, j).ask));
    if j: nat :| j < cfg.maxRetries && Admits(b, cfg.limits, Nth(env, t.next, j).ask) {
      assert KeysUpTo(pool, env, t.next, j) && PickAdmitted(cfg, t.world, prov, j, Nth(env, t.next, j));
    }
  }

  // ----- Why no back-off may end during the loop -----

  function IdleKey(): Entry {
    NewEntry("key", None)
  }

  /** Three healthy keys; the middle one is backed off until time 10. */
  function ThreeKeys(counter: nat, backoff: map<int, real>): Pool {
    Pool([IdleKey(), IdleKey(), IdleKey()], counter, backoff)
  }

  /** The breakers of the first two keys have been OPEN since time 0, the third is fresh. */
  function TwoOpen(pool: Pool): World {
    var open := Breaker(Open, 5, 0.0, 0.0);
    World(map["p" := pool], map[("p", 0) := open, ("p", 1) := open])
  }

  lemma UsableStep(p: Pool, n: nat, now: real)
    requires n < |p.keys|
    ensures UsableBelow(p, n + 1, now) == UsableBelow(p, n, now) + if IsUsable(p, n, now) then [n] else []
  {
  }

  lemma UsableOfThree(p: Pool, now: real)
    requires |p.keys| == 3 && p.keys[0].healthy && p.keys[1].healthy && p.keys[2].healthy
    requires 0 !in p.backoff && 2 !in p.backoff
    ensures Usable(p, now) == if BackedOff(p, 1, now) then [0, 2] else [0, 1, 2]
  {
    UsableStep(p, 0, now);
    UsableStep(p, 1, now);
    UsableStep(p, 2, now);
    hide UsableBelow;
    var middle := if BackedOff(p, 1, now) then [] else [1];
    assert UsableBelow(p, 0, now) == [] by { UsableOfNone(p, now); }
    assert Usable(p, now) == [] + [0] + middle + [2];
  }

  lemma UsableOfNone(p: Pool, now: real)
    ensures UsableBelow(p, 0, now) == []
  {
  }

  /**
   If a back-off ends during the loop, as many attempts as there were usable keys are not enough: two usable keys, two
   attempts, the second key good at both, and still no call, because a third key joins the rotation between the picks
   and takes the second turn.
   */
  lemma MissedWhenBackoffEnds(cfg: Config, env: nat -> Moment)
    requires cfg == Config(RoundRobin, 2, Limits(5, 60))
    requires env(0).pick == env(0).ask == 0.0 && env(1).pick == env(1).ask == 10.0
    ensures var w := TwoOpen(ThreeKeys(0, map[1 := 10.0]));
            && Usable(PoolOf(w, "p"), env(0).pick) == [0, 2]
            && Admits(BreakerOf(w, "p", 2), cfg.limits, env(0).ask) && Admits(BreakerOf(w, "p", 2), cfg.limits, env(1).ask)
            && !AnyCall(cfg, w, NewTurns(cfg, env, "p", 0, 0, Start(w, 0)))
  {
    hide AnyCall, NewTurns, Usable, PickAdmitted, KeysUpTo, PickOf;
    var w := TwoOpen(ThreeKeys(0, map[1 := 10.0]));
    UsableOfThree(PoolOf(w, "p"), 0.0);
    UsableOfThree(PoolOf(w, "p"), 10.0);
    assert Nth(env, 0, 0) == env(0) && Nth(env, 0, 1) == env(1);
    CallMadeExactly(cfg, env, "p", 0, 0, Start(w, 0));
    NotAdmitted(cfg, w, "p", [0, 2], 0, env(0), 0);
    NotAdmitted(cfg, w, "p", [0, 1, 2], 1, env(1), 1);
  }

  lemma NotAdmitted(cfg: Config, w: World, prov: string, us: seq<nat>, j: nat, m: Moment, key: nat)
    requires cfg.strategy == RoundRobin && us != [] && Usable(PoolOf(w, prov), m.pick) == us
    requires us[(PoolOf(w, prov).counter + j) % |us|] == key
    requires !Admits(BreakerOf(w, prov, key), cfg.limits, m.ask)
    ensures !PickAdmitted(cfg, w, prov, j, m)
  {
    hide Usable, PoolOf, BreakerOf, Admits;
    UsableInRange(PoolOf(w, prov), m.pick);
  }
}
