/**
 What holds of one request: the providers are tried in chain order with no going back, the number of calls and
 the time slept are bounded, nothing follows a success or a client error, 503 means that neither occurred, and
 the usage counts move exactly when an answer is returned.
 */
module DispatchRequest {
  import opened Prelude
  import opened Dispatch
  import opened DispatchRuns

  // ----- The shape of a request's turns -----

  predicate Follows(prev: Turn, turn: Turn) {
    || (turn.place == prev.place && turn.attempt == prev.attempt + 1)
    || (turn.place == prev.place + 1 && turn.attempt == 0)
  }

  /** Turn by turn: the next attempt on the same provider, or the first attempt on the next one. */
  ghost predicate Ordered(turns: seq<Turn>) {
    && (turns != [] ==> turns[0].place == 0 && turns[0].attempt == 0)
    && (forall i, j :: 0 <= i < j < |turns| && j == i + 1 ==> Follows(turns[i], turns[j]))
  }

  ghost predicate OnChain(cfg: Config, provs: seq<string>, turns: seq<Turn>) {
    forall i :: 0 <= i < |turns| ==>
      turns[i].place < |provs| && turns[i].prov == provs[turns[i].place] && turns[i].attempt < cfg.maxRetries
  }

  function VerdictAt(cfg: Config, w: World, turns: seq<Turn>, i: nat): Verdict
    requires i < |turns|
  {
    VerdictOf(Found(cfg, w, turns, i), turns[i].prov, turns[i].moment)
  }

  function SleptIn(cfg: Config, w: World, turns: seq<Turn>): nat {
    if turns == [] then 0 else
      var n := |turns| - 1;
      SleptIn(cfg, w, turns[..n]) + PauseAfter(cfg, Found(cfg, w, turns, n), turns[n].attempt, turns[n].moment)
  }

  ghost predicate Undecided(cfg: Config, w: World, turns: seq<Turn>, n: nat)
    requires n <= |turns|
  {
    forall i :: 0 <= i < n ==> VerdictAt(cfg, w, turns, i) == Pending
  }

  ghost predicate FromEnv(env: nat -> Moment, next: nat, turns: seq<Turn>) {
    forall i :: 0 <= i < |turns| ==> turns[i].moment == env(next + i)
  }

  /** The turns are those of a request, fed by consecutive moments. */
  ghost predicate Shaped(cfg: Config, env: nat -> Moment, provs: seq<string>, next: nat, t: Trail) {
    t.next == next + |t.turns| && FromEnv(env, next, t.turns) && Ordered(t.turns) && OnChain(cfg, provs, t.turns)
  }

  /** The world, the time slept and the verdict are what the turns lead to. */
  ghost predicate Sound(cfg: Config, w: World, t: Trail) {
    && Agree(t.world, After(cfg, w, t.turns))
    && t.slept == SleptIn(cfg, w, t.turns)
    && (if t.verdict == Pending then Undecided(cfg, w, t.turns, |t.turns|)
        else
          && t.turns != [] && Undecided(cfg, w, t.turns, |t.turns| - 1)
          && t.verdict == VerdictAt(cfg, w, t.turns, |t.turns| - 1))
  }

  /** Turn `i` is the last one its provider gets: it found no key, or was the last attempt. */
  predicate Leaves(cfg: Config, w: World, turns: seq<Turn>, i: nat)
    requires i < |turns|
  {
    Found(cfg, w, turns, i).NoKey? || turns[i].attempt == cfg.maxRetries - 1
  }

  /** The request moves on to the next provider exactly after such a turn. */
  ghost predicate Persistent(cfg: Config, w: World, turns: seq<Turn>) {
    forall i, j :: 0 <= i < j < |turns| && j == i + 1 ==>
      (turns[j].place != turns[i].place <==> Leaves(cfg, w, turns, i))
  }

  /** A trail is a legal request, finished or under way, that started in world `w` at moment `next`. */
  ghost predicate Legal(cfg: Config, env: nat -> Moment, provs: seq<string>, w: World, next: nat, t: Trail) {
    Shaped(cfg, env, provs, next, t) && Sound(cfg, w, t) && Persistent(cfg, w, t.turns)
  }

  /** A turn fits after a trail when it is the next attempt, or the first one on the next provider. */
  ghost predicate Fits(cfg: Config, provs: seq<string>, turns: seq<Turn>, turn: Turn) {
    && turn.place < |provs| && turn.prov == provs[turn.place] && turn.attempt < cfg.maxRetries
    && if turns == [] then turn.place == 0 && turn.attempt == 0 else Follows(turns[|turns|-1], turn)
  }

  lemma PrefixFinds(cfg: Config, w: World, turns: seq<Turn>, turn: Turn)
    ensures (turns + [turn])[..|turns|] == turns
    ensures forall i :: 0 <= i < |turns| ==>
              VerdictAt(cfg, w, turns + [turn], i) == VerdictAt(cfg, w, turns, i)
  {
    forall i | 0 <= i < |turns| ensures VerdictAt(cfg, w, turns + [turn], i) == VerdictAt(cfg, w, turns, i) {
      assert (turns + [turn])[..i] == turns[..i];
    }
  }

  lemma ExtendRuns(cfg: Config, w: World, t: Trail, turn: Turn)
    requires Agree(t.world, After(cfg, w, t.turns)) && t.slept == SleptIn(cfg, w, t.turns)
    ensures var u := Extend(cfg, t, turn);
            && Agree(u.world, After(cfg, w, u.turns))
            && u.slept == SleptIn(cfg, w, u.turns)
            && u.verdict == VerdictAt(cfg, w, u.turns, |t.turns|)
            && Found(cfg, w, u.turns, |t.turns|) == Attempt(cfg, t.world, turn.prov, turn.moment).1
  {
    PrefixFinds(cfg, w, t.turns, turn);
    AttemptRespectsAgree(cfg, t.world, After(cfg, w, t.turns), turn.prov, turn.moment);
  }

  lemma ExtendIsShaped(cfg: Config, env: nat -> Moment, provs: seq<string>, next: nat, t: Trail, turn: Turn, u: Trail)
    requires Shaped(cfg, env, provs, next, t) && Fits(cfg, provs, t.turns, turn) && turn.moment == env(t.next)
    requires u.turns == t.turns + [turn] && u.next == t.next + 1
    ensures Shaped(cfg, env, provs, next, u)
  {
  }

  lemma ExtendIsSound(cfg: Config, w: World, t: Trail, turn: Turn)
    requires Sound(cfg, w, t) && t.verdict == Pending
    ensures Sound(cfg, w, Extend(cfg, t, turn))
  {
    ExtendRuns(cfg, w, t, turn);
    PrefixFinds(cfg, w, t.turns, turn);
  }

  lemma ExtendIsPersistent(cfg: Config, w: World, turns: seq<Turn>, turn: Turn)
    requires Persistent(cfg, w, turns)
    requires turns != [] ==> (turn.place != turns[|turns|-1].place <==> Leaves(cfg, w, turns, |turns| - 1))
    ensures Persistent(cfg, w, turns + [turn])
  {
    hide Attempt;
    var all := turns + [turn];
    forall i, j | 0 <= i < j < |all| && j == i + 1
      ensures all[j].place != all[i].place <==> Leaves(cfg, w, all, i)
    {
      assert all[..i] == turns[..i];
      assert Leaves(cfg, w, all, i) == Leaves(cfg, w, turns, i);
    }
  }

  lemma ExtendIsLegal(cfg: Config, env: nat -> Moment, provs: seq<string>, w: World, next: nat, t: Trail, turn: Turn)
    requires Legal(cfg, env, provs, w, next, t) && t.verdict == Pending
    requires Fits(cfg, provs, t.turns, turn) && turn.moment == env(t.next)
    requires t.turns != [] ==> (turn.place != t.turns[|t.turns|-1].place <==> Leaves(cfg, w, t.turns, |t.turns| - 1))
    ensures Legal(cfg, env, provs, w, next, Extend(cfg, t, turn))
  {
    hide Attempt, Found, Sound, Shaped, Persistent;
    ExtendIsShaped(cfg, env, provs, next, t, turn, Extend(cfg, t, turn));
    ExtendIsSound(cfg, w, t, turn);
    ExtendIsPersistent(cfg, w, t.turns, turn);
  }

  /** Where the loops stand: about to take attempt `attempt` at place `place`. */
  ghost predicate At(cfg: Config, w: World, turns: seq<Turn>, place: nat, attempt: nat) {
    if attempt > 0 then
      && turns != [] && turns[|turns|-1].place == place && turns[|turns|-1].attempt == attempt - 1
      && (Leaves(cfg, w, turns, |turns| - 1) <==> attempt >= cfg.maxRetries)
    else if place == 0 then turns == []
    else
      || cfg.maxRetries <= 0
      || (turns != [] && turns[|turns|-1].place == place - 1 && Leaves(cfg, w, turns, |turns| - 1))
  }

  lemma RetryStepIsLegal(cfg: Config, env: nat -> Moment, provs: seq<string>, w: World, next: nat,
                         place: nat, attempt: nat, t: Trail, turn: Turn)
    requires Legal(cfg, env, provs, w, next, t) && t.verdict == Pending
    requires place < |provs| && At(cfg, w, t.turns, place, attempt) && attempt < cfg.maxRetries
    requires turn == Turn(provs[place], place, attempt, env(t.next))
    ensures Legal(cfg, env, provs, w, next, Extend(cfg, t, turn))
    ensures var found := Attempt(cfg, t.world, turn.prov, turn.moment).1;
            if found.NoKey? then At(cfg, w, Extend(cfg, t, turn).turns, place + 1, 0)
            else At(cfg, w, Extend(cfg, t, turn).turns, place, attempt + 1)
  {
    hide Attempt, Found;
    ExtendIsLegal(cfg, env, provs, w, next, t, turn);
    ExtendRuns(cfg, w, t, turn);
    LastTurn(cfg, w, t, turn);
  }

  lemma LastTurn(cfg: Config, w: World, t: Trail, turn: Turn)
    requires Agree(t.world, After(cfg, w, t.turns)) && t.slept == SleptIn(cfg, w, t.turns)
    ensures var u := Extend(cfg, t, turn);
            && u.turns == t.turns + [turn]
            && (Leaves(cfg, w, u.turns, |t.turns|) <==>
                Attempt(cfg, t.world, turn.prov, turn.moment).1.NoKey? || turn.attempt == cfg.maxRetries - 1)
  {
    hide Attempt;
    ExtendRuns(cfg, w, t, turn);
  }

  /** Where the retry loop stops while the request is undecided: the next place comes. */
  lemma {:induction false} RetryIsLegal(cfg: Config, env: nat -> Moment, provs: seq<string>, w: World, next: nat,
                                        place: nat, attempt: nat, t: Trail) returns (u: Trail)
    requires Legal(cfg, env, provs, w, next, t) && t.verdict == Pending
    requires place < |provs| && At(cfg, w, t.turns, place, attempt)
    ensures u == Retry(cfg, env, provs[place], place, attempt, t)
    ensures Legal(cfg, env, provs, w, next, u)
    ensures u.verdict == Pending ==> At(cfg, w, u.turns, place + 1, 0)
    decreases cfg.maxRetries - attempt
  {
    hide Attempt, Extend, Found, Legal;
    u := t;
    if attempt < cfg.maxRetries {
      var turn := Turn(provs[place], place, attempt, env(t.next));
      RetryStepIsLegal(cfg, env, provs, w, next, place, attempt, t, turn);
      u := Extend(cfg, t, turn);
      if !(Attempt(cfg, t.world, provs[place], turn.moment).1.NoKey? || u.verdict != Pending) {
        u := RetryIsLegal(cfg, env, provs, w, next, place, attempt + 1, u);
      }
    }
  }

  lemma WithPoolIsLegal(cfg: Config, env: nat -> Moment, provs: seq<string>, w: World, next: nat, t: Trail, prov: string)
    requires Legal(cfg, env, provs, w, next, t)
    ensures Legal(cfg, env, provs, w, next, t.(world := WithPool(t.world, prov)))
  {
    WithPoolAgrees(t.world, prov);
  }

  lemma {:induction false} WalkIsLegal(cfg: Config, env: nat -> Moment, provs: seq<string>, w: World, next: nat,
                                       place: nat, t: Trail) returns (u: Trail)
    requires Legal(cfg, env, provs, w, next, t) && t.verdict == Pending
    requires place <= |provs| && At(cfg, w, t.turns, place, 0)
    ensures u == Walk(cfg, env, provs, place, t)
    ensures Legal(cfg, env, provs, w, next, u)
    ensures u.verdict == Pending ==> At(cfg, w, u.turns, |provs|, 0)
    decreases |provs| - place
  {
    hide Extend, Attempt, Found, Legal, Retry, At;
    u := t;
    if place < |provs| {
      var t0 := t.(world := WithPool(t.world, provs[place]));
      WithPoolIsLegal(cfg, env, provs, w, next, t, provs[place]);
      u := RetryIsLegal(cfg, env, provs, w, next, place, 0, t0);
      if u.verdict == Pending {
        u := WalkIsLegal(cfg, env, provs, w, next, place + 1, u);
      }
    }
  }

  lemma StartIsLegal(cfg: Config, env: nat -> Moment, provs: seq<string>, w: World, next: nat)
    ensures Legal(cfg, env, provs, w, next, Start(w, next)) && At(cfg, w, Start(w, next).turns, 0, 0)
  {
  }

  /** Every request is legal: it is a run of attempts, so every theorem about runs applies to it. */
  lemma ServeIsLegal(cfg: Config, env: nat -> Moment, provs: seq<string>, w: World, next: nat)
    ensures Legal(cfg, env, provs, w, next, Serve(cfg, env, provs, w, next))
    ensures Serve(cfg, env, provs, w, next).verdict == Pending ==>
              At(cfg, w, Serve(cfg, env, provs, w, next).turns, |provs|, 0)
  {
    hide Walk, Legal, At;
    StartIsLegal(cfg, env, provs, w, next);
    var u := WalkIsLegal(cfg, env, provs, w, next, 0, Start(w, next));
  }

  // ----- Order and finality -----

  lemma {:induction false} PlacesGrow(turns: seq<Turn>, i: nat, j: nat)
    requires Ordered(turns) && i <= j < |turns|
    ensures turns[i].place <= turns[j].place
    ensures turns[i].place == turns[j].place ==> turns[j].attempt == turns[i].attempt + (j - i)
  {
    if i < j {
      PlacesGrow(turns, i, j - 1);
    }
  }

  /**
   Providers are called in chain order with no going back, attempts on one provider are consecutive, and nothing
   follows a success or a client error.
   */
  lemma CallsAreOrdered(cfg: Config, env: nat -> Moment, provs: seq<string>, w: World, next: nat, i: nat, j: nat)
    requires forall a, b :: 0 <= a < b < |provs| ==> provs[a] != provs[b]
    requires i < j < |Serve(cfg, env, provs, w, next).turns|
    ensures var turns := Serve(cfg, env, provs, w, next).turns;
            && turns[i].place <= turns[j].place < |provs|
            && turns[i].prov == provs[turns[i].place] && turns[j].prov == provs[turns[j].place]
            && (turns[i].prov == turns[j].prov ==> turns[j].attempt == turns[i].attempt + (j - i))
            && (Calls(cfg, w, turns, i) ==> KindOf(turns[i].moment.reply) in {Limited, ServerError})
  {
    hide Attempt, Serve, After;
    ServeIsLegal(cfg, env, provs, w, next);
    var turns := Serve(cfg, env, provs, w, next).turns;
    PlacesGrow(turns, i, j);
    assert VerdictAt(cfg, w, turns, i) == Pending;
  }

  /**
   A provider is given up exactly when it has no usable key left or its attempts are used up, and a request fails
   only after that has happened to the last provider of the chain.
   */
  lemma ProvidersAreExhausted(cfg: Config, env: nat -> Moment, provs: seq<string>, w: World, next: nat)
    requires cfg.maxRetries >= 1 && provs != []
    ensures var t := Serve(cfg, env, provs, w, next);
            && (forall i, j :: 0 <= i < j < |t.turns| && j == i + 1 ==>
                  (t.turns[j].place == t.turns[i].place + 1 <==>
                   Found(cfg, w, t.turns, i).NoKey? || t.turns[i].attempt == cfg.maxRetries - 1))
            && (t.verdict == Pending ==>
                  && t.turns != [] && t.turns[|t.turns|-1].place == |provs| - 1
                  && (Found(cfg, w, t.turns, |t.turns| - 1).NoKey? || t.turns[|t.turns|-1].attempt == cfg.maxRetries - 1))
  {
    hide Attempt, Serve, Found, Sound;
    ServeIsLegal(cfg, env, provs, w, next);
    var turns := Serve(cfg, env, provs, w, next).turns;
    assert forall i, j :: 0 <= i < j < |turns| && j == i + 1 ==> Follows(turns[i], turns[j]);
  }

  /** 503 is raised exactly when no call was answered by a success or a client error. */
  lemma ExhaustedExactly(cfg: Config, env: nat -> Moment, provs: seq<string>, w: World, next: nat)
    ensures var t := Serve(cfg, env, provs, w, next);
            t.verdict == Pending <==>
            forall i :: 0 <= i < |t.turns| && Calls(cfg, w, t.turns, i) ==>
              KindOf(t.turns[i].moment.reply) !in {Good, ClientError}
  {
    ServeIsLegal(cfg, env, provs, w, next);
    var t := Serve(cfg, env, provs, w, next);
    if t.verdict == Pending {
      forall i | 0 <= i < |t.turns| && Calls(cfg, w, t.turns, i)
        ensures KindOf(t.turns[i].moment.reply) !in {Good, ClientError}
      {
        assert VerdictAt(cfg, w, t.turns, i) == Pending;
      }
    } else {
      assert VerdictAt(cfg, w, t.turns, |t.turns| - 1) != Pending;
      assert Calls(cfg, w, t.turns, |t.turns| - 1);
    }
  }

  // ----- Bounds -----

  function TurnsAt(turns: seq<Turn>, place: nat): nat {
    if turns == [] then 0 else TurnsAt(turns[..|turns|-1], place) + if turns[|turns|-1].place == place then 1 else 0
  }

  lemma {:induction false} TurnsAtBound(cfg: Config, provs: seq<string>, turns: seq<Turn>, place: nat)
    requires Ordered(turns) && OnChain(cfg, provs, turns) && turns != []
    ensures var last := turns[|turns|-1];
            TurnsAt(turns, place) <=
            if last.place == place then last.attempt + 1 else if last.place > place then cfg.maxRetries else 0
  {
    var n := |turns| - 1;
    if n > 0 {
      TurnsAtBound(cfg, provs, turns[..n], place);
    } else {
      assert turns[..0] == [];
    }
  }

  lemma MulStep(a: nat, m: int)
    ensures (a + 1) * m == a * m + m
  {
  }

  lemma MulMono(a: int, b: int, m: int)
    requires a <= b && 0 <= m
    ensures a * m <= b * m
  {
  }

  lemma {:induction false} TurnCountBound(cfg: Config, provs: seq<string>, turns: seq<Turn>)
    requires Ordered(turns) && OnChain(cfg, provs, turns) && turns != []
    ensures |turns| <= turns[|turns|-1].place * cfg.maxRetries + turns[|turns|-1].attempt + 1
  {
    var n := |turns| - 1;
    if n > 0 {
      TurnCountBound(cfg, provs, turns[..n]);
      MulStep(turns[n-1].place, cfg.maxRetries);
    }
  }

  /** Back-off seconds a provider can cost: the pauses after all but the last of `retries` attempts. */
  function PauseBudget(retries: int): nat {
    if retries <= 1 then 0 else PauseBudget(retries - 1) + Pause(retries - 2)
  }

  lemma {:induction false} BudgetGrows(a: int, b: int)
    requires a <= b
    ensures PauseBudget(a) <= PauseBudget(b)
    decreases b - a
  {
    if a < b {
      BudgetGrows(a, b - 1);
    }
  }

  lemma PauseFits(cfg: Config, asked: Asked, attempt: nat, m: Moment)
    requires attempt < cfg.maxRetries
    ensures PauseBudget(Min(attempt + 1, cfg.maxRetries)) + PauseAfter(cfg, asked, attempt, m)
            <= PauseBudget(Min(attempt + 2, cfg.maxRetries))
  {
  }

  lemma NextPlaceBudget(cfg: Config, prev: Turn, last: Turn)
    requires last.attempt < cfg.maxRetries
    requires Follows(prev, last)
    ensures prev.place * PauseBudget(cfg.maxRetries) + PauseBudget(Min(prev.attempt + 2, cfg.maxRetries))
            <= last.place * PauseBudget(cfg.maxRetries) + PauseBudget(Min(last.attempt + 1, cfg.maxRetries))
  {
    if last.place != prev.place {
      BudgetGrows(Min(prev.attempt + 2, cfg.maxRetries), cfg.maxRetries);
      MulStep(prev.place, PauseBudget(cfg.maxRetries));
    }
  }

  lemma {:induction false} SleepBoundAt(cfg: Config, provs: seq<string>, w: World, turns: seq<Turn>)
    requires Ordered(turns) && OnChain(cfg, provs, turns) && turns != []
    ensures SleptIn(cfg, w, turns) <= turns[|turns|-1].place * PauseBudget(cfg.maxRetries)
                                      + PauseBudget(Min(turns[|turns|-1].attempt + 2, cfg.maxRetries))
  {
    hide Found;
    hide PauseAfter;
    var n := |turns| - 1;
    PauseFits(cfg, Found(cfg, w, turns, n), turns[n].attempt, turns[n].moment);
    if n == 0 {
      assert turns[..0] == [];
    } else {
      SleepBoundAt(cfg, provs, w, turns[..n]);
      NextPlaceBudget(cfg, turns[n-1], turns[n]);
    }
  }

  /**
   A request always ends, after at most `maxRetries` turns on each provider and `maxRetries` times the number of
   providers in all, having slept no longer than the providers' pause budgets together.
   */
  lemma RequestIsBounded(cfg: Config, env: nat -> Moment, provs: seq<string>, w: World, next: nat)
    ensures var t := Serve(cfg, env, provs, w, next);
            && (forall place :: TurnsAt(t.turns, place) <= Max(cfg.maxRetries, 0))
            && |t.turns| <= |provs| * Max(cfg.maxRetries, 0)
            && t.slept <= |provs| * PauseBudget(cfg.maxRetries)
  {
    ServeIsLegal(cfg, env, provs, w, next);
    BoundsOfLegal(cfg, provs, w, Serve(cfg, env, provs, w, next).turns);
  }

  lemma TurnsBound(cfg: Config, provs: seq<string>, turns: seq<Turn>)
    requires Ordered(turns) && OnChain(cfg, provs, turns) && turns != []
    ensures |turns| <= |provs| * cfg.maxRetries
  {
    var last := turns[|turns|-1];
    TurnCountBound(cfg, provs, turns);
    MulStep(last.place, cfg.maxRetries);
    MulMono(last.place + 1, |provs|, cfg.maxRetries);
  }

  lemma BoundsOfLegal(cfg: Config, provs: seq<string>, w: World, turns: seq<Turn>)
    requires Ordered(turns) && OnChain(cfg, provs, turns)
    ensures forall place :: TurnsAt(turns, place) <= Max(cfg.maxRetries, 0)
    ensures |turns| <= |provs| * Max(cfg.maxRetries, 0)
    ensures SleptIn(cfg, w, turns) <= |provs| * PauseBudget(cfg.maxRetries)
  {
    hide Found;
    if turns == [] {
      assert SleptIn(cfg, w, turns) == 0;
      assert 0 <= |provs| * PauseBudget(cfg.maxRetries);
    } else {
      forall place: nat ensures TurnsAt(turns, place) <= Max(cfg.maxRetries, 0) {
        TurnsAtBound(cfg, provs, turns, place);
      }
      assert cfg.maxRetries > 0;
      TurnsBound(cfg, provs, turns);
      SleepBound(cfg, provs, w, turns);
    }
  }

  lemma SleepBound(cfg: Config, provs: seq<string>, w: World, turns: seq<Turn>)
    requires Ordered(turns) && OnChain(cfg, provs, turns) && turns != []
    ensures SleptIn(cfg, w, turns) <= |provs| * PauseBudget(cfg.maxRetries)
  {
    hide SleptIn;
    var last := turns[|turns|-1];
    SleepBoundAt(cfg, provs, w, turns);
    BudgetGrows(Min(last.attempt + 2, cfg.maxRetries), cfg.maxRetries);
    MulStep(last.place, PauseBudget(cfg.maxRetries));
    MulMono(last.place + 1, |provs|, PauseBudget(cfg.maxRetries));
  }

  // ----- The ledger of one request -----

  lemma {:induction false} NoSuccessWhilePending(cfg: Config, w: World, turns: seq<Turn>, prov: string, key: nat)
    requires Undecided(cfg, w, turns, |turns|)
    ensures Count(cfg, w, turns, prov, key, {Good}) == 0
  {
    if turns != [] {
      var n := |turns| - 1;
      forall i | 0 <= i < n ensures VerdictAt(cfg, w, turns[..n], i) == Pending {
        assert turns[..n][..i] == turns[..i];
        assert VerdictAt(cfg, w, turns, i) == Pending;
      }
      NoSuccessWhilePending(cfg, w, turns[..n], prov, key);
      assert VerdictAt(cfg, w, turns, n) == Pending;
    }
  }

  /** The request was answered by this key. */
  ghost predicate AnsweredBy(cfg: Config, w: World, t: Trail, prov: string, key: nat) {
    t.verdict.Answered? && t.turns != [] && CallsKey(cfg, w, t.turns, |t.turns| - 1, prov, key)
  }

  lemma UndecidedPrefix(cfg: Config, w: World, turns: seq<Turn>, n: nat)
    requires n <= |turns| && Undecided(cfg, w, turns, n)
    ensures Undecided(cfg, w, turns[..n], n)
  {
    hide Attempt;
    forall i | 0 <= i < n ensures VerdictAt(cfg, w, turns[..n], i) == Pending {
      assert turns[..n][..i] == turns[..i];
      assert VerdictAt(cfg, w, turns, i) == Pending;
    }
  }

  /** A legal request has one success at most: its last turn, when it is answered. */
  lemma SuccessesOfRequest(cfg: Config, w: World, t: Trail, prov: string, key: nat)
    requires Sound(cfg, w, t)
    ensures Count(cfg, w, t.turns, prov, key, {Good}) == if AnsweredBy(cfg, w, t, prov, key) then 1 else 0
  {
    hide Attempt, After;
    if t.verdict == Pending {
      NoSuccessWhilePending(cfg, w, t.turns, prov, key);
    } else {
      var n := |t.turns| - 1;
      UndecidedPrefix(cfg, w, t.turns, n);
      NoSuccessWhilePending(cfg, w, t.turns[..n], prov, key);
    }
  }

  lemma ChainKept(cfg: Config, w: World, turns: seq<Turn>, prov: string, n: nat)
    requires n <= |turns|
    ensures |PoolOf(After(cfg, w, turns[..n]), prov).keys| == |PoolOf(w, prov).keys|
    decreases n
  {
    hide Attempt;
    if n > 0 {
      ChainKept(cfg, w, turns, prov, n - 1);
      AfterStep(cfg, w, turns, n - 1);
      SameNumberOfKeys(cfg, After(cfg, w, turns[..n-1]), turns[n-1].prov, turns[n-1].moment, prov);
    }
  }

  /** A response is returned exactly when some key in a pool answered. */
  lemma ResponseHasKey(cfg: Config, w: World, t: Trail)
    requires Sound(cfg, w, t)
    ensures t.verdict.Answered? <==>
            exists prov, key: nat :: key < |PoolOf(w, prov).keys| && AnsweredBy(cfg, w, t, prov, key)
  {
    hide Attempt, After, PoolOf;
    if t.verdict.Answered? {
      var n := |t.turns| - 1;
      assert VerdictAt(cfg, w, t.turns, n).Answered?;
      var prov, key := t.turns[n].prov, Found(cfg, w, t.turns, n).key;
      ChainKept(cfg, w, t.turns, prov, n);
      CalledKeyIsInPool(cfg, After(cfg, w, t.turns[..n]), prov, t.turns[n].moment);
      assert AnsweredBy(cfg, w, t, prov, key);
    }
  }

  lemma {:induction false} UsedAgrees(v: World, w: World, provs: seq<string>)
    requires Agree(v, w)
    ensures UsedIn(v, provs) == UsedIn(w, provs) && ErredIn(v, provs) == ErredIn(w, provs)
  {
    hide Used, Erred;
    if provs != [] {
      UsedAgrees(v, w, provs[..|provs|-1]);
    }
  }

  lemma {:induction false} NoGoodWhilePending(cfg: Config, w: World, turns: seq<Turn>)
    requires Undecided(cfg, w, turns, |turns|)
    ensures CountAll(cfg, w, turns, {Good}) == 0
  {
    hide Attempt;
    if turns != [] {
      var n := |turns| - 1;
      UndecidedPrefix(cfg, w, turns, n);
      NoGoodWhilePending(cfg, w, turns[..n]);
      assert VerdictAt(cfg, w, turns, n) == Pending;
    }
  }

  lemma GoodCallsOfRequest(cfg: Config, w: World, t: Trail)
    requires Sound(cfg, w, t)
    ensures CountAll(cfg, w, t.turns, {Good}) == if t.verdict.Answered? then 1 else 0
  {
    hide Attempt, After;
    if t.verdict == Pending {
      NoGoodWhilePending(cfg, w, t.turns);
    } else {
      var n := |t.turns| - 1;
      UndecidedPrefix(cfg, w, t.turns, n);
      NoGoodWhilePending(cfg, w, t.turns[..n]);
    }
  }

  /**
   The ledger over all keys of the providers tried: the usage counts together rise by one exactly when a response is
   returned, and the calls made are the rise in usage, the rise in errors and the 429s.
   */
  lemma TotalsOfRequest(cfg: Config, env: nat -> Moment, provs: seq<string>, w: World, next: nat)
    requires forall a, b :: 0 <= a < b < |provs| ==> provs[a] != provs[b]
    ensures var t := Serve(cfg, env, provs, w, next);
            && UsedIn(t.world, provs) == UsedIn(w, provs) + (if t.verdict.Answered? then 1 else 0)
            && CountAll(cfg, w, t.turns, ALL_KINDS) ==
               (UsedIn(t.world, provs) - UsedIn(w, provs)) + (ErredIn(t.world, provs) - ErredIn(w, provs))
               + CountAll(cfg, w, t.turns, {Limited})
  {
    hide Serve, Attempt, After, UsedIn, ErredIn, CountAll;
    ServeIsLegal(cfg, env, provs, w, next);
    var t := Serve(cfg, env, provs, w, next);
    TotalsAreConserved(cfg, w, t.turns, provs);
    UsedAgrees(t.world, After(cfg, w, t.turns), provs);
    GoodCallsOfRequest(cfg, w, t);
  }

  /**
   The ledger: the calls made on a key are its usage increase, its error increase and its 429s together, and
   the only usage count that moves is that of the key whose answer is returned, by one; there is such a key exactly
   when a response is returned.
   */
  lemma LedgerOfRequest(cfg: Config, env: nat -> Moment, provs: seq<string>, w: World, next: nat, prov: string, key: nat)
    requires key < |PoolOf(w, prov).keys|
    ensures var t := Serve(cfg, env, provs, w, next);
            var was, now := PoolOf(w, prov).keys, PoolOf(t.world, prov).keys;
            && |now| == |was|
            && now[key].usage == was[key].usage + (if AnsweredBy(cfg, w, t, prov, key) then 1 else 0)
            && (t.verdict.Answered? <==> exists p, k: nat :: k < |PoolOf(w, p).keys| && AnsweredBy(cfg, w, t, p, k))
            && Count(cfg, w, t.turns, prov, key, ALL_KINDS) ==
               (now[key].usage - was[key].usage) + (now[key].errors - was[key].errors)
               + Count(cfg, w, t.turns, prov, key, {Limited})
  {
    hide Serve, Count, After, AnsweredBy;
    ServeIsLegal(cfg, env, provs, w, next);
    var t := Serve(cfg, env, provs, w, next);
    CallsAreConserved(cfg, w, t.turns, prov, key);
    SuccessesOfRequest(cfg, w, t, prov, key);
    ResponseHasKey(cfg, w, t);
  }

  // ----- Requests one after another -----

  datatype Day = Day(world: World, next: nat, turns: seq<Turn>)

  /** Requests handled one at a time, each given by its chain of providers. */
  function ServeAll(cfg: Config, env: nat -> Moment, requests: seq<seq<string>>, w: World, next: nat): Day {
    if requests == [] then Day(w, next, []) else
      var n := |requests| - 1;
      var d := ServeAll(cfg, env, requests[..n], w, next);
      var t := Serve(cfg, env, requests[n], d.world, d.next);
      Day(t.world, t.next, d.turns + t.turns)
  }

  lemma {:induction false} AfterConcat(cfg: Config, w: World, xs: seq<Turn>, ys: seq<Turn>)
    ensures After(cfg, w, xs + ys) == After(cfg, After(cfg, w, xs), ys)
    decreases |ys|
  {
    if ys == [] {
      assert xs + ys == xs;
    } else {
      assert (xs + ys)[..|xs + ys|-1] == xs + ys[..|ys|-1];
      AfterConcat(cfg, w, xs, ys[..|ys|-1]);
    }
  }

  lemma {:induction false} AfterRespectsAgree(cfg: Config, v: World, w: World, turns: seq<Turn>)
    requires Agree(v, w)
    ensures Agree(After(cfg, v, turns), After(cfg, w, turns))
  {
    if turns != [] {
      var n := |turns| - 1;
      AfterRespectsAgree(cfg, v, w, turns[..n]);
      AttemptRespectsAgree(cfg, After(cfg, v, turns[..n]), After(cfg, w, turns[..n]), turns[n].prov, turns[n].moment);
    }
  }

  lemma AgreeTransitive(u: World, v: World, w: World)
    requires Agree(u, v) && Agree(v, w)
    ensures Agree(u, w)
  {
  }

  lemma ServeRuns(cfg: Config, env: nat -> Moment, provs: seq<string>, w: World, next: nat) returns (t: Trail)
    ensures t == Serve(cfg, env, provs, w, next)
    ensures Agree(t.world, After(cfg, w, t.turns)) && t.next == next + |t.turns| && FromEnv(env, next, t.turns)
  {
    ServeIsLegal(cfg, env, provs, w, next);
    t := Serve(cfg, env, provs, w, next);
  }

  /** Any number of requests handled one at a time is one run of attempts fed by consecutive moments. */
  lemma {:induction false} RequestsAreOneRun(cfg: Config, env: nat -> Moment, requests: seq<seq<string>>, w: World,
                                             next: nat) returns (d: Day)
    ensures d == ServeAll(cfg, env, requests, w, next)
    ensures Agree(d.world, After(cfg, w, d.turns))
    ensures d.next == next + |d.turns| && FromEnv(env, next, d.turns)
  {
    hide Serve, Legal, Attempt, PoolOf, BreakerOf;
    if requests == [] {
      d := Day(w, next, []);
    } else {
      var n := |requests| - 1;
      var e := RequestsAreOneRun(cfg, env, requests[..n], w, next);
      var t := ServeRuns(cfg, env, requests[n], e.world, e.next);
      d := Day(t.world, t.next, e.turns + t.turns);
      FromEnvJoin(env, next, e.turns, t.turns);
      RunsJoin(cfg, w, e.world, e.turns, t.turns, t.world);
    }
  }

  lemma FromEnvJoin(env: nat -> Moment, next: nat, xs: seq<Turn>, ys: seq<Turn>)
    requires FromEnv(env, next, xs) && FromEnv(env, next + |xs|, ys)
    ensures FromEnv(env, next, xs + ys)
  {
  }

  lemma RunsJoin(cfg: Config, w: World, v: World, xs: seq<Turn>, ys: seq<Turn>, u: World)
    requires Agree(v, After(cfg, w, xs)) && Agree(u, After(cfg, v, ys))
    ensures Agree(u, After(cfg, w, xs + ys))
  {
    AfterRespectsAgree(cfg, v, After(cfg, w, xs), ys);
    AfterConcat(cfg, w, xs, ys);
    AgreeTransitive(u, After(cfg, v, ys), After(cfg, After(cfg, w, xs), ys));
  }

  /** The clock never goes backwards, within a moment or from one to the next. */
  ghost predicate ClockForward(env: nat -> Moment) {
    && (forall i: nat :: InOrder(env(i)))
    && (forall i: nat, j: nat :: i < j ==> env(i).opening <= env(j).pick)
  }

  /** Across requests handled one at a time, a key that answered 429 is not called again before its back-off ends. */
  lemma RateLimitedKeyRestsAcrossRequests(cfg: Config, env: nat -> Moment, requests: seq<seq<string>>, w: World,
                                          next: nat, i: nat, j: nat, prov: string, key: nat)
    requires ClockForward(env)
    requires i < j < |ServeAll(cfg, env, requests, w, next).turns|
    requires var turns := ServeAll(cfg, env, requests, w, next).turns;
             && CallsKey(cfg, w, turns, i, prov, key) && KindOf(turns[i].moment.reply) == Limited
             && CallsKey(cfg, w, turns, j, prov, key)
    ensures var turns := ServeAll(cfg, env, requests, w, next).turns;
            turns[j].moment.pick >= BackoffEnd(turns[i].moment)
  {
    hide CallsKey, ServeAll;
    var d := RequestsAreOneRun(cfg, env, requests, w, next);
    forall k | 0 <= k < |d.turns| ensures InOrder(d.turns[k].moment) {
      assert d.turns[k].moment == env(next + k);
    }
    forall k, l | 0 <= k < l < |d.turns| ensures d.turns[k].moment.opening <= d.turns[l].moment.pick {
      assert d.turns[k].moment == env(next + k) && d.turns[l].moment == env(next + l);
    }
    assert OnTime(d.turns);
    RateLimitedKeyRests(cfg, w, d.turns, i, j, prov, key);
  }
}
