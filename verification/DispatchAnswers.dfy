/**
 What a request answers, said of the provider's replies and their status codes: which reply ends it and how, which make
 it go on, how long it sleeps in between, and what each reply leaves on the key that was called.
 */
module DispatchAnswers {
  import opened Prelude
  import opened CircuitBreakers
  import opened KeyPools
  import opened Dispatch
  import opened DispatchRuns
  import opened DispatchRequest

  /** Too many requests. */
  predicate IsRateLimit(r: Reply) {
    r.Raised? && r.status == 429
  }

  /** The provider blames the request. */
  predicate IsClientFault(r: Reply) {
    r.Raised? && 400 <= r.status < 500 && r.status != 429
  }

  /** The provider, or the way to it, is to blame; 0 when no status is known. */
  predicate IsProviderFault(r: Reply) {
    r.Raised? && (r.status < 400 || r.status >= 500)
  }

  lemma KindsByStatus(r: Reply)
    ensures KindOf(r) == Good <==> r.Body?
    ensures KindOf(r) == Limited <==> IsRateLimit(r)
    ensures KindOf(r) == ClientError <==> IsClientFault(r)
    ensures KindOf(r) == ServerError <==> IsProviderFault(r)
  {
  }

  // ----- The answer -----

  /** The request ended with a call, and this was its reply. */
  ghost predicate EndedWith(cfg: Config, w: World, turns: seq<Turn>, prov: string, r: Reply) {
    && turns != [] && Calls(cfg, w, turns, |turns| - 1)
    && turns[|turns|-1].prov == prov && turns[|turns|-1].moment.reply == r
  }

  /** The request ended with a call that returned this body. */
  ghost predicate EndedInBody(cfg: Config, w: World, turns: seq<Turn>, text: string) {
    exists p :: EndedWith(cfg, w, turns, p, Body(text))
  }

  /** The request ended with a call that raised this client error. */
  ghost predicate EndedInClientFault(cfg: Config, w: World, turns: seq<Turn>, prov: string, status: int) {
    exists r :: EndedWith(cfg, w, turns, prov, r) && IsClientFault(r) && r.status == status
  }

  lemma VerdictByReply(asked: Asked, prov: string, m: Moment)
    ensures var v := VerdictOf(asked, prov, m);
            && (v == Pending <==> !asked.Through? || IsRateLimit(m.reply) || IsProviderFault(m.reply))
            && (forall text :: v == Answered(text) <==> asked.Through? && m.reply == Body(text))
            && (forall p, s :: v == Refused(p, s) <==>
                  asked.Through? && p == prov && IsClientFault(m.reply) && m.reply.status == s)
  {
    KindsByStatus(m.reply);
  }

  lemma VerdictOfRequest(cfg: Config, w: World, t: Trail)
    requires Sound(cfg, w, t)
    ensures forall text :: t.verdict == Answered(text) <==> EndedInBody(cfg, w, t.turns, text)
    ensures forall p, s :: t.verdict == Refused(p, s) <==> EndedInClientFault(cfg, w, t.turns, p, s)
    ensures t.verdict == Pending <==>
            forall i :: 0 <= i < |t.turns| && Calls(cfg, w, t.turns, i) ==>
              IsRateLimit(t.turns[i].moment.reply) || IsProviderFault(t.turns[i].moment.reply)
    ensures forall i :: 0 <= i < |t.turns| - 1 && Calls(cfg, w, t.turns, i) ==>
              IsRateLimit(t.turns[i].moment.reply) || IsProviderFault(t.turns[i].moment.reply)
  {
    hide Attempt, VerdictOf, After;
    var n := |t.turns| - 1;
    forall i | 0 <= i <= n
      ensures VerdictAt(cfg, w, t.turns, i) == Pending <==> (Calls(cfg, w, t.turns, i) ==>
                IsRateLimit(t.turns[i].moment.reply) || IsProviderFault(t.turns[i].moment.reply))
    {
      VerdictByReply(Found(cfg, w, t.turns, i), t.turns[i].prov, t.turns[i].moment);
    }
    if n >= 0 {
      var last := t.turns[n];
      VerdictByReply(Found(cfg, w, t.turns, n), last.prov, last.moment);
      assert VerdictAt(cfg, w, t.turns, n) == t.verdict;
      forall text
        ensures t.verdict == Answered(text) <==> EndedInBody(cfg, w, t.turns, text)
      {
        if t.verdict == Answered(text) {
          assert EndedWith(cfg, w, t.turns, last.prov, Body(text));
        }
      }
      forall p, s
        ensures t.verdict == Refused(p, s) <==> EndedInClientFault(cfg, w, t.turns, p, s)
      {
        if t.verdict == Refused(p, s) {
          assert EndedWith(cfg, w, t.turns, p, last.moment.reply);
        }
      }
    }
  }

  /**
   The answer of a request, in terms of the replies alone.  A response is the body its last call returned; a provider's
   error is the client error its last call raised; and it is 503 exactly when every call was rate-limited or failed on the
   provider's side.  No call before the last returned a body or raised a client error, and nothing else is answered.
   */
  lemma AnswerExactly(cfg: Config, env: nat -> Moment, provs: seq<string>, w: World, next: nat, provider: string)
    ensures var t := Serve(cfg, env, provs, w, next);
            var out := OutcomeOf(t, provider);
            && (forall text :: out == Response(text) <==> EndedInBody(cfg, w, t.turns, text))
            && (forall p, s :: out == ProviderError(p, s) && 400 <= s < 500 <==> EndedInClientFault(cfg, w, t.turns, p, s))
            && (out == ProviderError(provider, 503) <==>
                  forall i :: 0 <= i < |t.turns| && Calls(cfg, w, t.turns, i) ==>
                    IsRateLimit(t.turns[i].moment.reply) || IsProviderFault(t.turns[i].moment.reply))
            && (forall i :: 0 <= i < |t.turns| - 1 && Calls(cfg, w, t.turns, i) ==>
                  IsRateLimit(t.turns[i].moment.reply) || IsProviderFault(t.turns[i].moment.reply))
            && (out.Response? || 400 <= out.status < 500 || out == ProviderError(provider, 503))
  {
    hide Serve, Sound, Shaped, Persistent, Calls, EndedInBody, EndedInClientFault;
    ServeIsLegal(cfg, env, provs, w, next);
    var t := Serve(cfg, env, provs, w, next);
    VerdictOfRequest(cfg, w, t);
    forall p, s | EndedInClientFault(cfg, w, t.turns, p, s) ensures 400 <= s < 500 {
      FaultsAreInRange(cfg, w, t.turns, p, s);
    }
    if t.verdict.Refused? {
      assert EndedInClientFault(cfg, w, t.turns, t.verdict.provider, t.verdict.status);
    }
  }

  lemma FaultsAreInRange(cfg: Config, w: World, turns: seq<Turn>, prov: string, status: int)
    requires EndedInClientFault(cfg, w, turns, prov, status)
    ensures 400 <= status < 500 && status != 429
  {
  }

  /**
   A call that was rate-limited or failed on the provider's side is not the end: unless it was the last attempt on the
   last provider another turn follows, on the same provider while attempts are left, else on the next one.
   */
  lemma FaultsAreRetried(cfg: Config, env: nat -> Moment, provs: seq<string>, w: World, next: nat, i: nat)
    requires var turns := Serve(cfg, env, provs, w, next).turns;
             && i < |turns| && Calls(cfg, w, turns, i)
             && (IsRateLimit(turns[i].moment.reply) || IsProviderFault(turns[i].moment.reply))
    ensures var turns := Serve(cfg, env, provs, w, next).turns;
            && (i + 1 == |turns| <==> turns[i].place == |provs| - 1 && turns[i].attempt == cfg.maxRetries - 1)
            && (i + 1 < |turns| ==>
                  if turns[i].attempt < cfg.maxRetries - 1
                  then turns[i+1].place == turns[i].place && turns[i+1].attempt == turns[i].attempt + 1
                  else turns[i+1].place == turns[i].place + 1 && turns[i+1].attempt == 0)
  {
    hide Serve, Attempt, After, Sound;
    ServeIsLegal(cfg, env, provs, w, next);
    var t := Serve(cfg, env, provs, w, next);
    var turns := t.turns;
    assert turns[i].attempt < cfg.maxRetries && turns[i].place < |provs|;
    if i + 1 < |turns| {
      var j := i + 1;
      assert Follows(turns[i], turns[j]);
      assert turns[j].place != turns[i].place <==> Leaves(cfg, w, turns, i);
      assert turns[j].place < |provs|;
    } else {
      LastIsPending(cfg, w, t);
      ProvidersAreExhausted(cfg, env, provs, w, next);
      assert !Found(cfg, w, turns, i).NoKey?;
    }
  }

  lemma LastIsPending(cfg: Config, w: World, t: Trail)
    requires Sound(cfg, w, t) && t.turns != []
    requires Calls(cfg, w, t.turns, |t.turns| - 1) ==>
             var r := t.turns[|t.turns|-1].moment.reply; IsRateLimit(r) || IsProviderFault(r)
    ensures t.verdict == Pending
  {
    hide Attempt, VerdictOf, After;
    var n := |t.turns| - 1;
    VerdictByReply(Found(cfg, w, t.turns, n), t.turns[n].prov, t.turns[n].moment);
  }

  // ----- The time slept -----

  /** The pause after each attempt doubles from one second to eight, and is ten seconds from then on. */
  function SecondsAfter(attempt: nat): nat {
    if attempt == 0 then 1 else if attempt == 1 then 2 else if attempt == 2 then 4 else if attempt == 3 then 8 else 10
  }

  lemma {:induction false} LargePowers(n: nat)
    requires n >= 4
    ensures Pow2(n) >= 16
  {
    if n > 4 {
      LargePowers(n - 1);
    } else {
      SmallPowers();
    }
  }

  lemma SmallPowers()
    ensures Pow2(0) == 1 && Pow2(1) == 2 && Pow2(2) == 4 && Pow2(3) == 8 && Pow2(4) == 16
  {
    assert Pow2(2) == 2 * Pow2(1);
    assert Pow2(3) == 2 * Pow2(2);
    assert Pow2(4) == 2 * Pow2(3);
  }

  lemma PauseByValue(attempt: nat)
    ensures Pause(attempt) == SecondsAfter(attempt)
  {
    SmallPowers();
    if attempt >= 4 {
      LargePowers(attempt);
    }
  }

  /** Seconds slept by a run: after each call that failed on the provider's side, except a provider's last attempt. */
  function SleptAfterFaults(cfg: Config, w: World, turns: seq<Turn>): nat {
    if turns == [] then 0 else
      var n := |turns| - 1;
      SleptAfterFaults(cfg, w, turns[..n]) +
      if Calls(cfg, w, turns, n) && IsProviderFault(turns[n].moment.reply) && turns[n].attempt + 1 < cfg.maxRetries
      then SecondsAfter(turns[n].attempt) else 0
  }

  lemma {:induction false} SleptByFaults(cfg: Config, w: World, turns: seq<Turn>)
    ensures SleptIn(cfg, w, turns) == SleptAfterFaults(cfg, w, turns)
  {
    hide Attempt, Pause, SecondsAfter;
    if turns != [] {
      var n := |turns| - 1;
      SleptByFaults(cfg, w, turns[..n]);
      KindsByStatus(turns[n].moment.reply);
      PauseByValue(turns[n].attempt);
    }
  }

  /** What a provider can cost at most: the pauses after all but the last of its attempts. */
  function MostSeconds(retries: int): nat {
    if retries <= 1 then 0 else if retries == 2 then 1 else if retries == 3 then 3 else if retries == 4 then 7
    else 15 + 10 * (retries - 5)
  }

  lemma {:induction false} BudgetByValue(retries: int)
    ensures PauseBudget(retries) == MostSeconds(retries)
    decreases retries
  {
    hide Pause;
    if retries > 1 {
      BudgetByValue(retries - 1);
      PauseByValue(retries - 2);
    }
  }

  /** The time slept is known from the replies, and bounded by the number of providers and attempts. */
  lemma SleepExactly(cfg: Config, env: nat -> Moment, provs: seq<string>, w: World, next: nat)
    ensures var t := Serve(cfg, env, provs, w, next);
            && t.slept == SleptAfterFaults(cfg, w, t.turns)
            && t.slept <= |provs| * MostSeconds(cfg.maxRetries)
  {
    hide Serve, After, SleptIn, SleptAfterFaults, PauseBudget, MostSeconds;
    ServeIsLegal(cfg, env, provs, w, next);
    RequestIsBounded(cfg, env, provs, w, next);
    SleptByFaults(cfg, w, Serve(cfg, env, provs, w, next).turns);
    BudgetByValue(cfg.maxRetries);
  }

  // ----- What a reply leaves behind -----

  /** Whole seconds, cut toward zero. */
  predicate CutTo(seconds: int, time: real) {
    if time >= 0.0 then seconds as real <= time < (seconds + 1) as real
    else (seconds - 1) as real < time <= seconds as real
  }

  /** A 429 asks for a minute unless it names a time other than zero. */
  lemma BackoffByValue(retryAfter: Option<real>)
    ensures retryAfter == None || retryAfter == Some(0.0) ==> BackoffSeconds(retryAfter) == 60
    ensures retryAfter.Some? && retryAfter.value != 0.0 ==> CutTo(BackoffSeconds(retryAfter), retryAfter.value)
  {
  }

  /** Every entry of the pool but one, and everything else in it, is unchanged. */
  ghost predicate OnlyKeyMoves(p: Pool, q: Pool, key: nat) {
    && |q.keys| == |p.keys| && q.counter == p.counter
    && (forall k :: 0 <= k < |p.keys| && k != key ==> q.keys[k] == p.keys[k])
    && (forall k :: k != key ==> (k in q.backoff <==> k in p.backoff) && (k in p.backoff ==> q.backoff[k] == p.backoff[k]))
  }

  /** What the called key counts after a reply. */
  ghost predicate KeyCounts(e: Entry, f: Entry, m: Moment) {
    && f.plaintext == e.plaintext && f.dbId == e.dbId
    && f.usage == e.usage + (if m.reply.Body? then 1 else 0)
    && f.lastUsed == (if m.reply.Body? then Some(m.settle) else e.lastUsed)
    && f.errors == e.errors + (if IsClientFault(m.reply) || IsProviderFault(m.reply) then 1 else 0)
    && (f.healthy <==> m.reply.Body? || (e.healthy && (IsRateLimit(m.reply) || f.errors < 10)))
  }

  /**
   What a reply leaves on the key called: a body counts as a use and makes the key healthy, a 429 sets a back-off and
   nothing else, any other error counts as one and from the tenth on makes the key unhealthy.  No other key and no other
   provider's pool is touched.
   */
  lemma ReplyOnPool(cfg: Config, w: World, prov: string, key: nat, m: Moment)
    requires key < |PoolOf(w, prov).keys|
    ensures var v := Settle(cfg, w, prov, key, m);
            var p, q := PoolOf(w, prov), PoolOf(v, prov);
            && OnlyKeyMoves(p, q, key) && KeyCounts(p.keys[key], q.keys[key], m)
            && (forall other :: other != prov ==> PoolOf(v, other) == PoolOf(w, other))
            && (if IsRateLimit(m.reply) then
                  key in q.backoff && q.backoff[key] == m.settle + BackoffSeconds(m.reply.retryAfter) as real
                else q.backoff == p.backoff)
  {
    hide BackoffSeconds, Fail, Succeed;
    KindsByStatus(m.reply);
    forall other | other != prov ensures PoolOf(Settle(cfg, w, prov, key, m), other) == PoolOf(w, other) {
      SettleOnPools(cfg, w, prov, key, m, other);
    }
  }

  /** And on its breaker: a body is a success, a 429 nothing, any other error a failure; no other breaker is touched. */
  lemma ReplyOnBreaker(cfg: Config, w: World, prov: string, key: nat, m: Moment, other: string, k: nat)
    ensures var b, c := BreakerOf(w, other, k), BreakerOf(Settle(cfg, w, prov, key, m), other, k);
            if (other, k) != (prov, key) || IsRateLimit(m.reply) then c == b
            else if m.reply.Body? then c == Succeed(b)
            else c == Fail(b, cfg.limits, m.note, m.opening)
  {
    hide Fail, Succeed;
    KindsByStatus(m.reply);
    SettleOnBreakers(cfg, w, prov, key, m, other, k);
  }

  /** A key that answered 429 at some call of a run is not called again for as many seconds as the reply asked for. */
  lemma RestByValue(cfg: Config, w: World, turns: seq<Turn>, i: nat, j: nat, prov: string, key: nat)
    requires OnTime(turns) && i < j < |turns|
    requires CallsKey(cfg, w, turns, i, prov, key) && IsRateLimit(turns[i].moment.reply)
    requires CallsKey(cfg, w, turns, j, prov, key)
    ensures var asked := turns[i].moment.reply.retryAfter;
            var rest := turns[j].moment.pick - turns[i].moment.settle;
            if asked == None || asked == Some(0.0) then rest >= 60.0
            else exists seconds :: CutTo(seconds, asked.value) && rest >= seconds as real
  {
    hide CallsKey, OnTime, BackoffSeconds, CutTo;
    KindsByStatus(turns[i].moment.reply);
    RateLimitedKeyRests(cfg, w, turns, i, j, prov, key);
    BackoffByValue(turns[i].moment.reply.retryAfter);
  }
}
