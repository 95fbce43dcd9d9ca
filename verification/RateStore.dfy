/**
 A window check as four operations on the store, and when its last one finds the key expired: the one place where the
 checks depend on the store's being lazy.
 */
module RateStore {
  import opened TtlStore
  import opened StoreRefinement
  import opened RateLimits
  import opened RateWindow

  /** What an admitted check does to the store, in order. */
  function CheckCalls(key: string, tag: int, window: int, r: Readings): seq<Call> {
    var start := r.now - window as real;
    [Call(OpZRemRange(key, 0.0, start), r.now),
     Call(OpZRange(key, start, r.now), r.range),
     Call(OpZAdd(key, [(Stamped(r.now, tag), r.now)]), r.add),
     Call(OpExpire(key, window + 10), r.expire)]
  }

  predicate InOrder(r: Readings) {
    r.now <= r.range <= r.add <= r.expire
  }

  lemma LazyRunStep(d: Data, calls: seq<Call>, n: nat)
    requires n < |calls|
    ensures LazyRun(d, calls[..n+1]) == Step(LazyRun(d, calls[..n]), calls[n].op, calls[n].at).0
    ensures EagerRun(d, calls[..n+1]) == EagerStep(EagerRun(d, calls[..n]), calls[n].op, calls[n].at).0
  {
    hide Step, EagerStep;
    assert calls[..n+1][..n] == calls[..n];
  }

  /** The store before the `expire` of an admitted check. */
  function BeforeExpire(d: Data, key: string, tag: int, window: int, r: Readings): Data {
    var start := r.now - window as real;
    var d1 := ZRemRangeByScore(d, key, 0.0, start).0;
    ZAdd(Drop(d1, key, r.range), key, [(Stamped(r.now, tag), r.now)], r.add).0
  }

  lemma NoCalls(d: Data, calls: seq<Call>)
    ensures LazyRun(d, calls[..0]) == d
  {
  }

  lemma FirstThree(d: Data, key: string, tag: int, window: int, r: Readings)
    ensures LazyRun(d, CheckCalls(key, tag, window, r)[..3]) == BeforeExpire(d, key, tag, window, r)
  {
    hide Step, LazyRun, ZAdd, ZRemRangeByScore, Drop;
    var calls := CheckCalls(key, tag, window, r);
    NoCalls(d, calls);
    LazyRunStep(d, calls, 0);
    LazyRunStep(d, calls, 1);
    LazyRunStep(d, calls, 2);
    StepsOfCheck(d, key, tag, window, r);
    var d1 := ZRemRangeByScore(d, key, 0.0, r.now - window as real).0;
    StepsOfCheck(d1, key, tag, window, r);
    StepsOfCheck(Drop(d1, key, r.range), key, tag, window, r);
  }

  lemma StepsOfCheck(d: Data, key: string, tag: int, window: int, r: Readings)
    ensures var calls := CheckCalls(key, tag, window, r);
            && Step(d, calls[0].op, calls[0].at).0 == ZRemRangeByScore(d, key, 0.0, r.now - window as real).0
            && Step(d, calls[1].op, calls[1].at).0 == Drop(d, key, r.range)
            && Step(d, calls[2].op, calls[2].at).0 == ZAdd(d, key, [(Stamped(r.now, tag), r.now)], r.add).0
            && Step(d, calls[3].op, calls[3].at).0 == Expire(d, key, window + 10, r.expire).0
  {
    hide ZAdd, ZRemRangeByScore, SortByScore, MembersWithin, Drop, Expire;
  }

  /** An admitted check is that run. */
  lemma AdmissionIsRun(meter: Meter, d: Data, key: string, weight: int, tag: int, limit: int, window: int, r: Readings)
    requires WindowCheck(meter, d, key, weight, tag, limit, window, r).1.allowed
    ensures WindowCheck(meter, d, key, weight, tag, limit, window, r).0 == LazyRun(d, CheckCalls(key, tag, window, r))
  {
    hide ZAdd, ZRemRangeByScore, Load, LazyRun;
    var calls := CheckCalls(key, tag, window, r);
    FirstThree(d, key, tag, window, r);
    LazyRunStep(d, calls, 3);
    assert calls[..4] == calls;
  }

  /** The key's time to live runs out between the reading that adds the entry and the one that renews it. */
  predicate RunsOut(d: Data, key: string, r: Readings) {
    Live(d, key, r.add) && Dead(d, key, r.expire)
  }

  lemma ExpireFindsDead(d: Data, key: string, tag: int, window: int, r: Readings)
    requires InOrder(r)
    ensures Dead(BeforeExpire(d, key, tag, window, r), key, r.expire) <==> RunsOut(d, key, r)
  {
    hide ZPutAll, Outside;
  }

  lemma OnlyOneExpire(d: Data, key: string, tag: int, window: int, r: Readings)
    ensures var calls := CheckCalls(key, tag, window, r);
            Respected(d, calls) <==> !Dead(LazyRun(d, calls[..3]), key, r.expire)
    ensures Respected(d, CheckCalls(key, tag, window, r)[..3])
  {
    hide LazyRun, Dead;
    var calls := CheckCalls(key, tag, window, r);
    assert calls[3].op.OpExpire? && !calls[0].op.OpExpire? && !calls[1].op.OpExpire? && !calls[2].op.OpExpire?;
    if Respected(d, calls) {
      assert Respects(LazyRun(d, calls[..3]), calls[3].op, calls[3].at);
    }
  }

  /**
   An admitted check treats the lazy and the eager store alike if and only if the key's time to live does not run out
   between its last two clock readings.
   */
  lemma AdmissionAgreesExactly(d: Data, key: string, tag: int, window: int, r: Readings)
    requires InOrder(r) && window >= 0
    ensures var calls := CheckCalls(key, tag, window, r);
            && (Respected(d, calls) <==> !RunsOut(d, key, r))
            && (Purge(LazyRun(d, calls), r.expire) == Purge(EagerRun(d, calls), r.expire) <==> !RunsOut(d, key, r))
  {
    hide Step, Purge, LazyRun, EagerRun, BeforeExpire, RunsOut, Dead;
    var calls := CheckCalls(key, tag, window, r);
    var init := calls[..3];
    FirstThree(d, key, tag, window, r);
    ExpireFindsDead(d, key, tag, window, r);
    OnlyOneExpire(d, key, tag, window, r);
    LiveContentsAgree(d, init, r.expire);
    LazyRunStep(d, calls, 3);
    assert calls[..4] == calls;
    ExpireAgreesExactly(LazyRun(d, init), key, window + 10, r.expire);
  }

  /** Two requests, the second just after the first has left the window, its last two readings on either side of the end. */
  function LateRun(first: int, second: int): seq<Event> {
    [Check(first, 1, Readings(0.0, 0.0, 0.0, 0.0)), Check(second, 1, Readings(61.0, 69.0, 70.0, 70.5))]
  }

  /** It can: both requests of this proper run are admitted, and the second one's `expire` finds the key expired. */
  lemma KeyRunsOutInsideCheck(key: string, limit: nat, d: Data, first: int, second: int)
    requires key !in d && limit >= 1
    ensures var es := LateRun(first, second);
            && Proper(Requests, key, es)
            && |Play(Requests, key, limit, 60, d, es).hist| == 2
            && RunsOut(Play(Requests, key, limit, 60, d, es[..1]).data, key, es[1].r)
  {
    hide WindowCheck, Proper, Within;
    var es := LateRun(first, second);
    assert Proper(Requests, key, es) by { LateRunIsProper(key, first, second); }
    assert es[..1][..0] == [] && [] + [es[0]] == es[..1] && es[..1] + [es[1]] == es;
    RunPrefixProper(key, es, 1);
    AdmittedExactly(Requests, key, limit, 60, d, [], es[0]);
    EmptyWithin(-60.0, 0.0);
    var log := Play(Requests, key, limit, 60, d, es[..1]);
    AdmissionSetsExpiry(Requests, d, key, 1, first, limit, 60, es[0].r);
    AdmittedExactly(Requests, key, limit, 60, d, es[..1], es[1]);
    assert log.hist == [Admission(0.0, first, 1)];
    WithinNone(log.hist, 1.0, 61.0);
  }

  lemma LateRunIsProper(key: string, first: int, second: int)
    ensures Proper(Requests, key, LateRun(first, second))
  {
  }

  lemma RunPrefixProper(key: string, es: seq<Event>, n: nat)
    requires n <= |es| && Proper(Requests, key, es)
    ensures Proper(Requests, key, es[..n])
  {
    RunPrefix(Requests, key, es, SLACK, n);
  }

  lemma EmptyWithin(lo: real, hi: real)
    ensures Within([], lo, hi) == 0
  {
  }
}
