/**
 Requests handled concurrently.  Between starting an adapter call and handling its reply a task waits, and any
 other task may move.  An attempt therefore splits into two steps, `Begin` and `Finish`, and a run is any
 interleaving of such steps by any number of tasks.
 */
module Interleaving {
  import opened Prelude
  import opened CircuitBreakers
  import opened KeyPools
  import opened Dispatch
  import opened DispatchRuns

  datatype Event = Begin(task: nat, prov: string, moment: Moment) | Finish(task: nat, moment: Moment)

  /** The shared world, and for each task waiting for a reply the provider and key it is calling. */
  datatype Hub = Hub(world: World, waiting: map<nat, (string, nat)>)

  function Move(cfg: Config, h: Hub, e: Event): Hub {
    match e
    case Begin(task, prov, m) =>
      if task in h.waiting then h
      else
        var (w, asked) := Ask(cfg, h.world, prov, m);
        Hub(w, if asked.Through? then h.waiting[task := (prov, asked.key)] else h.waiting)
    case Finish(task, m) =>
      if task !in h.waiting then h
      else
        var (prov, key) := h.waiting[task];
        Hub(Settle(cfg, h.world, prov, key, m), h.waiting - {task})
  }

  function Run(cfg: Config, h: Hub, es: seq<Event>): Hub {
    if es == [] then h else Move(cfg, Run(cfg, h, es[..|es|-1]), es[|es|-1])
  }

  /** Event `e` in hub `h` starts an adapter call on this key. */
  predicate Starts(cfg: Config, h: Hub, e: Event, prov: string, key: nat) {
    e.Begin? && e.task !in h.waiting && e.prov == prov && Ask(cfg, h.world, prov, e.moment).1 == Through(key)
  }

  /** Event `e` in hub `h` handles a reply of one of the given kinds to a call on this key. */
  predicate Ends(h: Hub, e: Event, prov: string, key: nat, kinds: set<Kind>) {
    e.Finish? && e.task in h.waiting && h.waiting[e.task] == (prov, key) && KindOf(e.moment.reply) in kinds
  }

  function Started(cfg: Config, h: Hub, es: seq<Event>, prov: string, key: nat): nat {
    if es == [] then 0 else
      var n := |es| - 1;
      Started(cfg, h, es[..n], prov, key) + if Starts(cfg, Run(cfg, h, es[..n]), es[n], prov, key) then 1 else 0
  }

  function Ended(cfg: Config, h: Hub, es: seq<Event>, prov: string, key: nat, kinds: set<Kind>): nat {
    if es == [] then 0 else
      var n := |es| - 1;
      Ended(cfg, h, es[..n], prov, key, kinds) + if Ends(Run(cfg, h, es[..n]), es[n], prov, key, kinds) then 1 else 0
  }

  function OnKey(h: Hub, prov: string, key: nat): set<nat> {
    set t | t in h.waiting && h.waiting[t] == (prov, key)
  }

  /** Every call under way is on a key of the pool. */
  ghost predicate Valid(h: Hub) {
    forall t :: t in h.waiting ==> h.waiting[t].1 < |PoolOf(h.world, h.waiting[t].0).keys|
  }

  lemma AskKeepsKeys(cfg: Config, w: World, at: string, m: Moment, prov: string)
    ensures PoolOf(Ask(cfg, w, at, m).0, prov).keys == PoolOf(w, prov).keys
    ensures var asked := Ask(cfg, w, at, m).1; asked.Through? ==> asked.key < |PoolOf(w, at).keys|
  {
    hide NextKey;
    AskOnPools(cfg, w, at, m, prov);
    PickKeeps(cfg, PoolOf(w, at), m);
    PickInRange(PoolOf(w, at), cfg.strategy, m);
  }

  lemma PickInRange(p: Pool, strategy: Strategy, m: Moment)
    ensures var picked := NextKey(p, strategy, m.pick, m.choice).1; picked.Some? ==> picked.value < |p.keys|
  {
  }

  lemma SettleAccounts(cfg: Config, w: World, at: string, called: nat, m: Moment, prov: string, key: nat)
    requires key < |PoolOf(w, prov).keys| && called < |PoolOf(w, at).keys|
    ensures Accounted(PoolOf(w, prov), PoolOf(Settle(cfg, w, at, called, m), prov), key,
                      at == prov && called == key, KindOf(m.reply))
  {
    hide Settle, SettledPool;
    SettleOnPools(cfg, w, at, called, m, prov);
    if at == prov {
      SettledPoolAccounts(PoolOf(w, at), called, m, key);
    }
  }

  lemma SettleKeepsSize(cfg: Config, w: World, at: string, called: nat, m: Moment, prov: string)
    ensures |PoolOf(Settle(cfg, w, at, called, m), prov).keys| == |PoolOf(w, prov).keys|
  {
    hide Settle;
    SettleOnPools(cfg, w, at, called, m, prov);
  }

  lemma MoveKeepsValid(cfg: Config, h: Hub, e: Event)
    requires Valid(h)
    ensures Valid(Move(cfg, h, e))
    ensures forall prov :: |PoolOf(Move(cfg, h, e).world, prov).keys| == |PoolOf(h.world, prov).keys|
  {
    hide Ask, Settle;
    forall prov ensures |PoolOf(Move(cfg, h, e).world, prov).keys| == |PoolOf(h.world, prov).keys| {
      match e
      case Begin(task, at, m) =>
        AskKeepsKeys(cfg, h.world, at, m, prov);
      case Finish(task, m) =>
        if task in h.waiting {
          SettleKeepsSize(cfg, h.world, h.waiting[task].0, h.waiting[task].1, m, prov);
        }
    }
    if e.Begin? {
      AskKeepsKeys(cfg, h.world, e.prov, e.moment, e.prov);
    }
  }

  lemma MoveCounts(cfg: Config, h: Hub, e: Event, prov: string, key: nat)
    requires Valid(h) && key < |PoolOf(h.world, prov).keys|
    ensures var was, now := PoolOf(h.world, prov).keys, PoolOf(Move(cfg, h, e).world, prov).keys;
            && |now| == |was|
            && now[key].usage == was[key].usage + (if Ends(h, e, prov, key, {Good}) then 1 else 0)
            && now[key].errors == was[key].errors + (if Ends(h, e, prov, key, FAILURES) then 1 else 0)
  {
    hide Ask, Settle, KindOf, PoolOf;
    match e {
      case Begin(task, at, m) =>
        AskKeepsKeys(cfg, h.world, at, m, prov);
      case Finish(task, m) =>
        if task in h.waiting {
          SettleAccounts(cfg, h.world, h.waiting[task].0, h.waiting[task].1, m, prov, key);
        }
    }
  }

  lemma EveryKindListed(k: Kind)
    ensures k in ALL_KINDS
  {
  }

  /** Who is waiting on a key after a step. */
  lemma OnKeyAfter(cfg: Config, h: Hub, e: Event, prov: string, key: nat)
    ensures OnKey(Move(cfg, h, e), prov, key) ==
            match e
            case Begin(task, _, _) =>
              if Starts(cfg, h, e, prov, key) then OnKey(h, prov, key) + {task} else OnKey(h, prov, key)
            case Finish(task, _) => OnKey(h, prov, key) - {task}
  {
    hide Ask, Settle;
  }

  lemma MoveWaits(cfg: Config, h: Hub, e: Event, prov: string, key: nat)
    ensures |OnKey(Move(cfg, h, e), prov, key)| == |OnKey(h, prov, key)|
            + (if Starts(cfg, h, e, prov, key) then 1 else 0) - (if Ends(h, e, prov, key, ALL_KINDS) then 1 else 0)
  {
    hide Ask, Move, KindOf;
    OnKeyAfter(cfg, h, e, prov, key);
    EveryKindListed(KindOf(e.moment.reply));
  }

  /**
   Conservation in every interleaving: the calls started on a key are its usage increase, its error increase, its
   429s, and the change in the calls still under way on it.
   */
  lemma {:induction false} CallsAreConserved(cfg: Config, h: Hub, es: seq<Event>, prov: string, key: nat)
    requires Valid(h) && key < |PoolOf(h.world, prov).keys|
    ensures var g := Run(cfg, h, es);
            var was, now := PoolOf(h.world, prov).keys, PoolOf(g.world, prov).keys;
            && Valid(g)
            && |now| == |was|
            && now[key].usage == was[key].usage + Ended(cfg, h, es, prov, key, {Good})
            && now[key].errors == was[key].errors + Ended(cfg, h, es, prov, key, FAILURES)
            && Started(cfg, h, es, prov, key) ==
               (now[key].usage - was[key].usage) + (now[key].errors - was[key].errors)
               + Ended(cfg, h, es, prov, key, {Limited}) + (|OnKey(g, prov, key)| - |OnKey(h, prov, key)|)
  {
    hide Move, Starts;
    if es != [] {
      var n := |es| - 1;
      CallsAreConserved(cfg, h, es[..n], prov, key);
      var g := Run(cfg, h, es[..n]);
      MoveKeepsValid(cfg, g, es[n]);
      MoveCounts(cfg, g, es[n], prov, key);
      MoveWaits(cfg, g, es[n], prov, key);
    }
  }

  // ----- Back-off under concurrency -----

  /** No step of the run is earlier than `until`, as far as picking a key goes. */
  ghost predicate PicksBefore(es: seq<Event>, until: real) {
    forall i :: 0 <= i < |es| && es[i].Begin? ==> es[i].moment.pick < until
  }

  lemma MoveKeepsRest(cfg: Config, h: Hub, e: Event, prov: string, key: nat, until: real)
    requires Standing(h.world, prov, key, until) && OnKey(h, prov, key) == {}
    requires e.Begin? ==> e.moment.pick < until
    ensures Standing(Move(cfg, h, e).world, prov, key, until) && OnKey(Move(cfg, h, e), prov, key) == {}
    ensures !Starts(cfg, h, e, prov, key)
  {
    hide Ask, Settle, NextKey, SettledPool;
    match e {
      case Begin(task, at, m) =>
        AskOnPools(cfg, h.world, at, m, prov);
        PickKeeps(cfg, PoolOf(h.world, at), m);
        AskAvoidsBackedOff(cfg, h.world, at, m);
        assert !(at == prov && Ask(cfg, h.world, at, m).1 == Through(key));
      case Finish(task, m) =>
        if task in h.waiting {
          var (at, called) := h.waiting[task];
          assert task !in OnKey(h, prov, key);
          SettleOnPools(cfg, h.world, at, called, m, prov);
          if at == prov {
            SettledBackoff(PoolOf(h.world, at), called, m, key);
          }
        }
    }
  }

  lemma AskAvoidsBackedOff(cfg: Config, w: World, at: string, m: Moment)
    ensures var asked := Ask(cfg, w, at, m).1; asked.Through? ==> !BackedOff(PoolOf(w, at), asked.key, m.pick)
  {
    var picked := NextKey(PoolOf(w, at), cfg.strategy, m.pick, m.choice).1;
    assert picked.Some? ==> picked.value in Usable(PoolOf(w, at), m.pick);
  }

  /**
   When a 429 arrives and no other call on the key is under way, no interleaving starts a call on it before the
   back-off ends.
   */
  lemma {:induction false} RestedKeyIsLeftAlone(cfg: Config, h: Hub, es: seq<Event>, prov: string, key: nat, until: real)
    requires Standing(h.world, prov, key, until) && OnKey(h, prov, key) == {}
    requires PicksBefore(es, until)
    ensures Standing(Run(cfg, h, es).world, prov, key, until) && OnKey(Run(cfg, h, es), prov, key) == {}
    ensures Started(cfg, h, es, prov, key) == 0
  {
    hide Move, Starts;
    if es != [] {
      var n := |es| - 1;
      RestedKeyIsLeftAlone(cfg, h, es[..n], prov, key, until);
      MoveKeepsRest(cfg, Run(cfg, h, es[..n]), es[n], prov, key, until);
    }
  }

  /** A 429 that arrives at `at` and asks for a minute. */
  function MinuteReply(at: real): Moment {
    Moment(at, at, at, at, at, 0, Raised(429, None))
  }

  lemma FinishOverwrites(cfg: Config, h: Hub, task: nat, m: Moment, prov: string, key: nat)
    requires task in OnKey(h, prov, key) && KindOf(m.reply) == Limited
    ensures Standing(Move(cfg, h, Finish(task, m)).world, prov, key, BackoffEnd(m))
  {
    hide Settle;
    SettleOnPools(cfg, h.world, prov, key, m, prov);
  }

  /**
   The condition is exact: a recorded back-off keeps its end in every interleaving that comes before it, if and only if
   no call on the key is under way.  One that is can be answered 429 too, and then its own end replaces the other.
   */
  lemma BackoffStandsExactly(cfg: Config, h: Hub, prov: string, key: nat, until: real)
    requires Standing(h.world, prov, key, until)
    ensures (forall es :: PicksBefore(es, until) ==> Standing(Run(cfg, h, es).world, prov, key, until))
            <==> OnKey(h, prov, key) == {}
  {
    hide Run, Standing;
    if OnKey(h, prov, key) == {} {
      forall es | PicksBefore(es, until) ensures Standing(Run(cfg, h, es).world, prov, key, until) {
        RestedKeyIsLeftAlone(cfg, h, es, prov, key, until);
      }
    } else {
      var task :| task in OnKey(h, prov, key);
      var e := Finish(task, MinuteReply(until - 61.0));
      RunOne(cfg, h, e);
      FinishOverwrites(cfg, h, task, e.moment, prov, key);
      OneEnd(Run(cfg, h, [e]).world, prov, key, until, until - 1.0);
      assert PicksBefore([e], until);
    }
  }

  lemma OneEnd(w: World, prov: string, key: nat, a: real, b: real)
    requires a != b && Standing(w, prov, key, b)
    ensures !Standing(w, prov, key, a)
  {
  }

  // ----- What holds whatever else is under way -----

  /** Keys are picked at times that never go backwards. */
  ghost predicate PicksForward(es: seq<Event>) {
    forall i, j :: 0 <= i < j < |es| && es[i].Begin? && es[j].Begin? ==> es[i].moment.pick <= es[j].moment.pick
  }

  /** Event `i` is the latest before `n` to handle a 429 on this key. */
  ghost predicate LatestLimited(cfg: Config, h: Hub, es: seq<Event>, i: nat, n: nat, prov: string, key: nat)
    requires i < n <= |es|
  {
    && Ends(Run(cfg, h, es[..i]), es[i], prov, key, {Limited})
    && forall l :: i < l < n ==> !Ends(Run(cfg, h, es[..l]), es[l], prov, key, {Limited})
  }

  ghost predicate PickedFrom(es: seq<Event>, i: nat, n: nat, until: real)
    requires n <= |es|
  {
    exists l :: i < l < n && es[l].Begin? && es[l].moment.pick >= until
  }

  lemma RunStep(cfg: Config, h: Hub, es: seq<Event>, n: nat)
    requires n < |es|
    ensures Run(cfg, h, es[..n+1]) == Move(cfg, Run(cfg, h, es[..n]), es[n])
  {
    hide Move;
    var upto := es[..n+1];
    assert upto[..|upto|-1] == es[..n];
  }

  /** Only picking at or after its end, or another 429 on the key, touches a back-off. */
  lemma MoveKeepsBackoff(cfg: Config, h: Hub, e: Event, prov: string, key: nat, until: real)
    requires Standing(h.world, prov, key, until)
    requires e.Begin? ==> e.moment.pick < until
    requires !Ends(h, e, prov, key, {Limited})
    ensures Standing(Move(cfg, h, e).world, prov, key, until) && !Starts(cfg, h, e, prov, key)
  {
    hide Ask, Settle, NextKey;
    match e {
      case Begin(task, at, m) =>
        AskOnPools(cfg, h.world, at, m, prov);
        PickKeeps(cfg, PoolOf(h.world, at), m);
        AskAvoidsBackedOff(cfg, h.world, at, m);
        assert !(at == prov && Ask(cfg, h.world, at, m).1 == Through(key));
      case Finish(task, m) =>
        if task in h.waiting {
          SettleOnPools(cfg, h.world, h.waiting[task].0, h.waiting[task].1, m, prov);
        }
    }
  }

  lemma {:induction false} LatestBackoffStands(cfg: Config, h: Hub, es: seq<Event>, i: nat, n: nat, prov: string, key: nat)
    requires i < n <= |es| && LatestLimited(cfg, h, es, i, n, prov, key)
    ensures KindOf(es[i].moment.reply) == Limited
    ensures Standing(Run(cfg, h, es[..n]).world, prov, key, BackoffEnd(es[i].moment))
            || PickedFrom(es, i, n, BackoffEnd(es[i].moment))
  {
    hide Move, Run;
    var until := BackoffEnd(es[i].moment);
    RunStep(cfg, h, es, n - 1);
    if n == i + 1 {
      var g := Run(cfg, h, es[..i]);
      FinishOverwrites(cfg, g, es[i].task, es[i].moment, prov, key);
    } else {
      LatestBackoffStands(cfg, h, es, i, n - 1, prov, key);
      if PickedFrom(es, i, n - 1, until) {
        var l :| i < l < n - 1 && es[l].Begin? && es[l].moment.pick >= until;
      } else if !(es[n-1].Begin? && es[n-1].moment.pick >= until) {
        MoveKeepsBackoff(cfg, Run(cfg, h, es[..n-1]), es[n-1], prov, key, until);
      }
    }
  }

  /**
   In every interleaving, whatever else is under way, no call starts on a key before the end recorded by the latest 429
   handled on it.
   */
  lemma LatestBackoffIsKept(cfg: Config, h: Hub, es: seq<Event>, i: nat, n: nat, prov: string, key: nat)
    requires PicksForward(es) && i < n < |es| && LatestLimited(cfg, h, es, i, n, prov, key)
    requires Starts(cfg, Run(cfg, h, es[..n]), es[n], prov, key)
    ensures KindOf(es[i].moment.reply) == Limited && es[n].moment.pick >= BackoffEnd(es[i].moment)
  {
    hide Run, Ask, LatestLimited;
    LatestBackoffStands(cfg, h, es, i, n, prov, key);
    var until := BackoffEnd(es[i].moment);
    if PickedFrom(es, i, n, until) {
      var l :| i < l < n && es[l].Begin? && es[l].moment.pick >= until;
    } else if es[n].moment.pick < until {
      MoveKeepsBackoff(cfg, Run(cfg, h, es[..n]), es[n], prov, key, until);
    }
  }

  // ----- How the latest 429 can come sooner -----

  /** Nobody is calling, and the provider has one key, never used. */
  function Idle(prov: string): Hub {
    Hub(World(map[prov := Pool([NewEntry("key", None)], 0, map[])], map[]), map[])
  }

  lemma OneKeyUsable(p: Pool, now: real)
    requires |p.keys| == 1 && p.keys[0].healthy && !BackedOff(p, 0, now)
    ensures Usable(p, now) == [0]
  {
    assert UsableBelow(p, 0, now) == [];
    assert [] + [0] == [0];
  }

  /** With one usable key and a fresh breaker, beginning is calling. */
  lemma BeginCalls(cfg: Config, h: Hub, task: nat, prov: string, m: Moment)
    requires task !in h.waiting && BreakerOf(h.world, prov, 0) == FRESH
    requires var p := PoolOf(h.world, prov); |p.keys| == 1 && p.keys[0].healthy && !BackedOff(p, 0, m.pick)
    ensures Starts(cfg, h, Begin(task, prov, m), prov, 0)
    ensures var g := Move(cfg, h, Begin(task, prov, m));
            && g.waiting == h.waiting[task := (prov, 0)]
            && PoolOf(g.world, prov).keys == PoolOf(h.world, prov).keys
            && PoolOf(g.world, prov).backoff.Keys <= PoolOf(h.world, prov).backoff.Keys
            && BreakerOf(g.world, prov, 0) == FRESH
  {
    hide Usable, Sweep, LeastUsedOf;
    var p := PoolOf(h.world, prov);
    OneKeyUsable(p, m.pick);
    OnlyOneToPick(cfg, p, m);
    SweepDrops(p, m.pick);
  }

  lemma OnlyOneToPick(cfg: Config, p: Pool, m: Moment)
    requires Usable(p, m.pick) == [0]
    ensures NextKey(p, cfg.strategy, m.pick, m.choice).1 == Some(0)
  {
    assert 0 in Usable(p, m.pick);
  }

  lemma SweepDrops(p: Pool, now: real)
    ensures Sweep(p, now).keys == p.keys && Sweep(p, now).backoff.Keys <= p.backoff.Keys
  {
  }

  /**
   The end of an earlier 429 is not kept: two tasks start a call on the same key, the first reply asks for 100 seconds,
   the second for 1, and a third task starts a call on the key two seconds after the first reply.
   */
  lemma SecondReplyShortensBackoff(cfg: Config, prov: string, a: Moment, b: Moment, long: Moment, short: Moment, c: Moment)
    requires KindOf(long.reply) == Limited && BackoffSeconds(long.reply.retryAfter) == 100 && long.settle == 0.0
    requires KindOf(short.reply) == Limited && BackoffSeconds(short.reply.retryAfter) == 1 && short.settle == 1.0
    requires c.pick == 2.0
    ensures var es := [Begin(1, prov, a), Begin(2, prov, b), Finish(1, long), Finish(2, short)];
            && OnKey(Run(cfg, Idle(prov), es[..2]), prov, 0) == {1, 2}
            && Standing(Run(cfg, Idle(prov), es[..3]).world, prov, 0, 100.0)
            && Standing(Run(cfg, Idle(prov), es).world, prov, 0, 2.0)
            && Starts(cfg, Run(cfg, Idle(prov), es), Begin(3, prov, c), prov, 0)
  {
    hide Run, Move, Starts, NextKey;
    var es := [Begin(1, prov, a), Begin(2, prov, b), Finish(1, long), Finish(2, short)];
    var h0 := Idle(prov);
    RunNone(cfg, h0);
    assert es[..0] == [] && es[..4] == es;
    RunStep(cfg, h0, es, 0);
    RunStep(cfg, h0, es, 1);
    RunStep(cfg, h0, es, 2);
    RunStep(cfg, h0, es, 3);
    BeginCalls(cfg, h0, 1, prov, a);
    var h1 := Move(cfg, h0, es[0]);
    BeginCalls(cfg, h1, 2, prov, b);
    var h2 := Move(cfg, h1, es[1]);
    LimitedReply(cfg, h2, 1, long, prov);
    var h3 := Move(cfg, h2, es[2]);
    LimitedReply(cfg, h3, 2, short, prov);
    var h4 := Move(cfg, h3, es[3]);
    BeginCalls(cfg, h4, 3, prov, c);
  }

  lemma LimitedReply(cfg: Config, h: Hub, task: nat, m: Moment, prov: string)
    requires task in h.waiting && h.waiting[task] == (prov, 0) && KindOf(m.reply) == Limited
    ensures var g := Move(cfg, h, Finish(task, m));
            && g.waiting == h.waiting - {task}
            && Standing(g.world, prov, 0, BackoffEnd(m))
            && PoolOf(g.world, prov).keys == PoolOf(h.world, prov).keys
            && BreakerOf(g.world, prov, 0) == BreakerOf(h.world, prov, 0)
  {
  }

  lemma RunNone(cfg: Config, h: Hub)
    ensures Run(cfg, h, []) == h
  {
  }

  lemma RunOne(cfg: Config, h: Hub, e: Event)
    ensures Run(cfg, h, [e]) == Move(cfg, h, e)
  {
    hide Move;
    assert [e][..0] == [];
  }
}
