/**
 The failover dispatcher, llm_proxy.py: one request walks a chain of providers, retries on each, and drives
 the key pools and the circuit breakers.

 Everything the outside world contributes to one attempt is a `Moment`: the clock readings, the random
 choice, and the adapter's reply.  An attempt on a provider is a pure function of the world and the moment;
 a run is a fold of attempts, in any order and by any number of requests handled one at a time.
 */
module Dispatch {
  import opened Prelude
  import opened CircuitBreakers
  import opened KeyPools

  /** What the adapter call does: return a body, or raise with a status code (0 when it carries none). */
  datatype Reply = Body(text: string) | Raised(status: int, retryAfter: Option<real>)

  datatype Moment = Moment(pick: real, ask: real, settle: real, note: real, opening: real, choice: nat, reply: Reply)

  datatype World = World(pools: map<string, Pool>, breakers: map<(string, int), Breaker>)

  datatype Config = Config(strategy: Strategy, maxRetries: int, limits: Limits)

  /** The four ways the dispatcher treats a reply. */
  datatype Kind = Good | Limited | ClientError | ServerError

  function KindOf(r: Reply): Kind {
    match r
    case Body(_) => Good
    case Raised(status, _) =>
      if status == 429 then Limited
      else if status != 0 && 400 <= status < 500 then ClientError
      else ServerError
  }

  /** The seconds a 429 asks for, cut to whole ones, or a minute when it names none or zero. */
  function BackoffSeconds(retryAfter: Option<real>): int {
    match retryAfter
    case None => 60
    case Some(s) => if s == 0.0 then 60 else ToInt(s)
  }

  function PoolOf(w: World, prov: string): Pool {
    PoolAt(w.pools, prov)
  }

  function BreakerOf(w: World, prov: string, key: int): Breaker {
    Lookup(w.breakers, prov, key)
  }

  function PutPool(w: World, prov: string, p: Pool): World {
    w.(pools := w.pools[prov := p])
  }

  function PutBreaker(w: World, prov: string, key: int, b: Breaker): World {
    w.(breakers := w.breakers[(prov, key) := b])
  }

  /** Pools and breakers come into being empty and fresh when first looked up. */
  function WithPool(w: World, prov: string): World {
    PutPool(w, prov, PoolOf(w, prov))
  }

  /** First half of an attempt, up to the adapter call: pick a key, then ask its breaker. */
  datatype Asked = NoKey | Blocked(key: nat) | Through(key: nat)

  function Ask(cfg: Config, w: World, prov: string, m: Moment): (World, Asked) {
    var (pool, picked) := NextKey(PoolOf(w, prov), cfg.strategy, m.pick, m.choice);
    var w1 := PutPool(w, prov, pool);
    match picked
    case None => (w1, NoKey)
    case Some(key) =>
      var b := BreakerOf(w, prov, key);
      (PutBreaker(w1, prov, key, Observe(b, cfg.limits, m.ask)),
       if Admits(b, cfg.limits, m.ask) then Through(key) else Blocked(key))
  }

  /** Second half: what the adapter's reply does to the pool and to the breaker. */
  function Settle(cfg: Config, w: World, prov: string, key: nat, m: Moment): World {
    var pool := PoolOf(w, prov);
    var b := BreakerOf(w, prov, key);
    match KindOf(m.reply)
    case Good =>
      PutBreaker(PutPool(w, prov, MarkSuccess(pool, key, m.settle)), prov, key, Succeed(b))
    case Limited =>
      PutPool(w, prov, MarkRateLimited(pool, key, BackoffSeconds(m.reply.retryAfter), m.settle))
    case ClientError =>
      PutBreaker(PutPool(w, prov, MarkError(pool, key, ERROR_THRESHOLD)), prov, key,
                 Fail(b, cfg.limits, m.note, m.opening))
    case ServerError =>
      PutBreaker(PutPool(w, prov, MarkError(pool, key, ERROR_THRESHOLD)), prov, key,
                 Fail(b, cfg.limits, m.note, m.opening))
  }

  function Attempt(cfg: Config, w: World, prov: string, m: Moment): (World, Asked) {
    var (w1, asked) := Ask(cfg, w, prov, m);
    match asked
    case Through(key) => (Settle(cfg, w1, prov, key, m), asked)
    case Blocked(_) => (w1, asked)
    case NoKey => (w1, asked)
  }

  // ----- Runs of attempts -----

  /** One turn of the retry loop: provider (and its place in the chain), attempt number, outside input. */
  datatype Turn = Turn(prov: string, place: nat, attempt: nat, moment: Moment)

  function After(cfg: Config, w: World, turns: seq<Turn>): World {
    if turns == [] then w else
      var last := turns[|turns|-1];
      Attempt(cfg, After(cfg, w, turns[..|turns|-1]), last.prov, last.moment).0
  }

  /** What turn `i` of the run found. */
  function Found(cfg: Config, w: World, turns: seq<Turn>, i: nat): Asked
    requires i < |turns|
  {
    Attempt(cfg, After(cfg, w, turns[..i]), turns[i].prov, turns[i].moment).1
  }

  /** Turn `i` makes an adapter call. */
  predicate Calls(cfg: Config, w: World, turns: seq<Turn>, i: nat)
    requires i < |turns|
  {
    Found(cfg, w, turns, i).Through?
  }

  predicate CallsKey(cfg: Config, w: World, turns: seq<Turn>, i: nat, prov: string, key: nat)
    requires i < |turns|
  {
    turns[i].prov == prov && Found(cfg, w, turns, i) == Through(key)
  }

  /** Two worlds nothing can tell apart: an absent pool is an empty one, an absent breaker a fresh one. */
  ghost predicate Agree(v: World, w: World) {
    && (forall p :: PoolOf(v, p) == PoolOf(w, p))
    && (forall p, k :: BreakerOf(v, p, k) == BreakerOf(w, p, k))
  }

  lemma PutsAgree(v: World, w: World, prov: string, key: int, p: Pool, b: Breaker)
    requires Agree(v, w)
    ensures Agree(PutPool(v, prov, p), PutPool(w, prov, p))
    ensures Agree(PutBreaker(v, prov, key, b), PutBreaker(w, prov, key, b))
    ensures Agree(PutBreaker(PutPool(v, prov, p), prov, key, b), PutBreaker(PutPool(w, prov, p), prov, key, b))
  {
    var v1, w1 := PutPool(v, prov, p), PutPool(w, prov, p);
    var v2, w2 := PutBreaker(v1, prov, key, b), PutBreaker(w1, prov, key, b);
    var v3, w3 := PutBreaker(v, prov, key, b), PutBreaker(w, prov, key, b);
    forall q
      ensures PoolOf(v1, q) == PoolOf(w1, q) && PoolOf(v2, q) == PoolOf(w2, q) && PoolOf(v3, q) == PoolOf(w3, q)
    {
      assert PoolOf(v, q) == PoolOf(w, q);
    }
    forall q, k
      ensures BreakerOf(v1, q, k) == BreakerOf(w1, q, k)
      ensures BreakerOf(v2, q, k) == BreakerOf(w2, q, k) && BreakerOf(v3, q, k) == BreakerOf(w3, q, k)
    {
      assert BreakerOf(v, q, k) == BreakerOf(w, q, k);
    }
  }

  lemma AskRespectsAgree(cfg: Config, v: World, w: World, prov: string, m: Moment)
    requires Agree(v, w)
    ensures Agree(Ask(cfg, v, prov, m).0, Ask(cfg, w, prov, m).0)
    ensures Ask(cfg, v, prov, m).1 == Ask(cfg, w, prov, m).1
  {
    var (pool, picked) := NextKey(PoolOf(w, prov), cfg.strategy, m.pick, m.choice);
    var key := if picked.Some? then picked.value else 0;
    PutsAgree(v, w, prov, key, pool, Observe(BreakerOf(w, prov, key), cfg.limits, m.ask));
  }

  lemma SettleRespectsAgree(cfg: Config, v: World, w: World, prov: string, key: nat, m: Moment)
    requires Agree(v, w)
    ensures Agree(Settle(cfg, v, prov, key, m), Settle(cfg, w, prov, key, m))
  {
    var pool, b := PoolOf(w, prov), BreakerOf(w, prov, key);
    match KindOf(m.reply)
    case Good => PutsAgree(v, w, prov, key, MarkSuccess(pool, key, m.settle), Succeed(b));
    case Limited =>
      PutsAgree(v, w, prov, key, MarkRateLimited(pool, key, BackoffSeconds(m.reply.retryAfter), m.settle), b);
    case ClientError =>
      PutsAgree(v, w, prov, key, MarkError(pool, key, ERROR_THRESHOLD), Fail(b, cfg.limits, m.note, m.opening));
    case ServerError =>
      PutsAgree(v, w, prov, key, MarkError(pool, key, ERROR_THRESHOLD), Fail(b, cfg.limits, m.note, m.opening));
  }

  lemma AttemptRespectsAgree(cfg: Config, v: World, w: World, prov: string, m: Moment)
    requires Agree(v, w)
    ensures Agree(Attempt(cfg, v, prov, m).0, Attempt(cfg, w, prov, m).0)
    ensures Attempt(cfg, v, prov, m).1 == Attempt(cfg, w, prov, m).1
  {
    AskRespectsAgree(cfg, v, w, prov, m);
    var asked := Ask(cfg, w, prov, m).1;
    if asked.Through? {
      SettleRespectsAgree(cfg, Ask(cfg, v, prov, m).0, Ask(cfg, w, prov, m).0, prov, asked.key, m);
    }
  }

  lemma WithPoolAgrees(w: World, prov: string)
    ensures Agree(WithPool(w, prov), w)
  {
  }

  // ----- One request -----

  datatype Verdict = Pending | Answered(text: string) | Refused(provider: string, status: int)

  /** What a request returns or raises in the end. */
  datatype Outcome = Response(text: string) | ProviderError(provider: string, status: int)

  /** A request under way: the world, the next unused moment, the turns taken, seconds slept, the verdict. */
  datatype Trail = Trail(world: World, next: nat, turns: seq<Turn>, slept: nat, verdict: Verdict)

  function Pow2(n: nat): (r: nat)
    ensures r >= 1
  {
    if n == 0 then 1 else 2 * Pow2(n - 1)
  }

  /** Seconds slept after a failing attempt. */
  function Pause(attempt: nat): nat {
    Min(Pow2(attempt), 10)
  }

  function PauseAfter(cfg: Config, asked: Asked, attempt: nat, m: Moment): nat {
    if asked.Through? && KindOf(m.reply) == ServerError && attempt < cfg.maxRetries - 1 then Pause(attempt) else 0
  }

  function VerdictOf(asked: Asked, prov: string, m: Moment): Verdict {
    if !asked.Through? then Pending
    else
      match KindOf(m.reply)
      case Good => Answered(m.reply.text)
      case ClientError => Refused(prov, m.reply.status)
      case Limited => Pending
      case ServerError => Pending
  }

  function Extend(cfg: Config, t: Trail, turn: Turn): Trail {
    var (w, asked) := Attempt(cfg, t.world, turn.prov, turn.moment);
    Trail(w, t.next + 1, t.turns + [turn], t.slept + PauseAfter(cfg, asked, turn.attempt, turn.moment),
          VerdictOf(asked, turn.prov, turn.moment))
  }

  /** The retry loop on one provider, from the given attempt on. */
  function Retry(cfg: Config, env: nat -> Moment, prov: string, place: nat, attempt: nat, t: Trail): Trail
    decreases cfg.maxRetries - attempt
  {
    if attempt >= cfg.maxRetries then t else
      var turn := Turn(prov, place, attempt, env(t.next));
      var u := Extend(cfg, t, turn);
      if Attempt(cfg, t.world, prov, turn.moment).1.NoKey? || u.verdict != Pending then u
      else Retry(cfg, env, prov, place, attempt + 1, u)
  }

  /** The loop over the chain of providers. */
  function Walk(cfg: Config, env: nat -> Moment, provs: seq<string>, place: nat, t: Trail): Trail
    requires place <= |provs|
    decreases |provs| - place
  {
    if place == |provs| then t else
      var u := Retry(cfg, env, provs[place], place, 0, t.(world := WithPool(t.world, provs[place])));
      if u.verdict != Pending then u else Walk(cfg, env, provs, place + 1, u)
  }

  /** The requested provider first, then the configured fallbacks, each once. */
  function ProvidersToTry(provider: string, fallbacks: seq<string>): (r: seq<string>)
    ensures |r| >= 1 && r[0] == provider
    ensures forall a, b :: 0 <= a < b < |r| ==> r[a] != r[b]
    ensures forall p :: p in r <==> p == provider || p in fallbacks
  {
    if fallbacks == [] then [provider] else
      var r := ProvidersToTry(provider, fallbacks[..|fallbacks|-1]);
      var fb := fallbacks[|fallbacks|-1];
      assert fallbacks == fallbacks[..|fallbacks|-1] + [fb];
      if fb != provider && fb !in r then r + [fb] else r
  }

  function Start(w: World, next: nat): Trail {
    Trail(w, next, [], 0, Pending)
  }

  function Serve(cfg: Config, env: nat -> Moment, provs: seq<string>, w: World, next: nat): Trail {
    Walk(cfg, env, provs, 0, Start(w, next))
  }

  function Conclude(v: Verdict, provider: string): Outcome {
    match v
    case Answered(text) => Response(text)
    case Refused(prov, status) => ProviderError(prov, status)
    case Pending => ProviderError(provider, 503)
  }

  function OutcomeOf(t: Trail, provider: string): Outcome {
    Conclude(t.verdict, provider)
  }
}
