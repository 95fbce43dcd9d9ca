/**
 What the ten seconds of slack in a window's time to live are for: the bound holds over all runs whose checks add their
 entry within `slack` seconds of their start exactly when the slack is at most ten.
 */
module RateStall {
  import opened Prelude
  import opened TtlStore
  import opened RateLimits
  import opened RateWindow
  import opened RateRepeats

  /** Distinct entries, and checks within the given slack. */
  ghost predicate ProperWithin(meter: Meter, key: string, es: seq<Event>, slack: real) {
    Timely(meter, key, es, slack) && DistinctChecks(es)
  }

  lemma LessSlack(meter: Meter, key: string, es: seq<Event>, slack: real)
    requires slack <= SLACK && ProperWithin(meter, key, es, slack)
    ensures Proper(meter, key, es)
  {
  }

  // ----- As much as the limit allows, in the first instant -----

  const AT_ZERO := Readings(0.0, 0.0, 0.0, 0.0)

  /** For requests one check each, for tokens a single one. */
  function Burst(meter: Meter, limit: nat): seq<Event> {
    match meter
    case Requests => seq(limit, i => Check(i, 1, AT_ZERO))
    case Tokens => [Check(limit, limit, AT_ZERO)]
  }

  function BurstEntries(meter: Meter, limit: nat): seq<Admission> {
    match meter
    case Requests => seq(limit, i => Admission(0.0, i, 1))
    case Tokens => [Admission(0.0, limit, limit)]
  }

  lemma BurstStep(n: nat)
    ensures Burst(Requests, n + 1) == Burst(Requests, n) + [Check(n, 1, AT_ZERO)]
    ensures BurstEntries(Requests, n + 1) == BurstEntries(Requests, n) + [Admission(0.0, n, 1)]
  {
  }

  lemma {:induction false} BurstWithin(n: nat, lo: real, hi: real)
    requires lo < 0.0 <= hi
    ensures Within(BurstEntries(Requests, n), lo, hi) == n
  {
    if n > 0 {
      BurstWithin(n - 1, lo, hi);
      BurstStep(n - 1);
      WithinStep(BurstEntries(Requests, n - 1), Admission(0.0, n - 1, 1), lo, hi);
    }
  }

  lemma BurstWeighsLimit(meter: Meter, limit: nat, lo: real, hi: real)
    requires lo < 0.0 <= hi
    ensures Within(BurstEntries(meter, limit), lo, hi) == limit
  {
    match meter
    case Requests => BurstWithin(limit, lo, hi);
    case Tokens =>
      WithinStep([], Admission(0.0, limit, limit), lo, hi);
      assert [] + [Admission(0.0, limit, limit)] == BurstEntries(Tokens, limit);
  }

  lemma BurstIsProper(meter: Meter, key: string, limit: nat, slack: real)
    requires slack >= 0.0
    ensures ProperWithin(meter, key, Burst(meter, limit), slack)
  {
  }

  lemma {:induction false} RequestsAdmitted(key: string, n: nat, limit: nat, window: int, d: Data)
    requires key !in d && window >= 1 && n <= limit
    ensures Play(Requests, key, limit, window, d, Burst(Requests, n)).hist == BurstEntries(Requests, n)
  {
    hide WindowCheck, Proper, Within;
    if n > 0 {
      RequestsAdmitted(key, n - 1, limit, window, d);
      BurstStep(n - 1);
      assert Burst(Requests, n)[..n-1] == Burst(Requests, n - 1);
      BurstIsProper(Requests, key, n, SLACK);
      LessSlack(Requests, key, Burst(Requests, n), SLACK);
      AdmittedExactly(Requests, key, limit, window, d, Burst(Requests, n - 1), Check(n - 1, 1, AT_ZERO));
      BurstWithin(n - 1, -(window as real), 0.0);
    }
  }

  lemma TokensAdmitted(key: string, limit: nat, window: int, d: Data)
    requires key !in d && window >= 1
    ensures Play(Tokens, key, limit, window, d, Burst(Tokens, limit)).hist == BurstEntries(Tokens, limit)
  {
    hide WindowCheck, Proper, Within, ProperWithin;
    var e := Check(limit, limit, AT_ZERO);
    assert [e][..0] == [] && [] + [e] == [e];
    BurstIsProper(Tokens, key, limit, SLACK);
    LessSlack(Tokens, key, [e], SLACK);
    AdmittedExactly(Tokens, key, limit, window, d, [], e);
    NothingWithin(window);
  }

  /** All of it is admitted. */
  lemma BurstAdmitted(meter: Meter, key: string, limit: nat, window: int, d: Data)
    requires key !in d && window >= 1
    ensures Play(meter, key, limit, window, d, Burst(meter, limit)).hist == BurstEntries(meter, limit)
  {
    hide *;
    match meter
    case Requests => RequestsAdmitted(key, limit, limit, window, d);
    case Tokens => TokensAdmitted(key, limit, window, d);
  }

  lemma NothingWithin(window: int)
    ensures InWindow([], window, 0.0) == 0
  {
  }

  // ----- The check that stalls -----

  /** A check that finds the key expired when it reads the set sees nothing of what was admitted. */
  lemma ExpiredKeyAdmits(meter: Meter, d: Data, key: string, weight: int, tag: int, limit: int, window: int, r: Readings)
    requires Dead(d, key, r.range)
    ensures WindowCheck(meter, d, key, weight, tag, limit, window, r).1.allowed <==> weight <= limit
  {
    hide Outside, ZAdd, Expire, SortByScore, MembersWithin;
    assert Load(meter, []) == 0;
  }

  lemma BurstExpiry(meter: Meter, key: string, limit: nat, window: int, d: Data)
    requires key !in d && window >= 1 && limit >= 1
    ensures var e := Play(meter, key, limit, window, d, Burst(meter, limit)).data;
            key in e && e[key].expires == Some((window + 10) as real)
  {
    hide WindowCheck, Within;
    var es := Burst(meter, limit);
    var n := |es| - 1;
    BurstAdmitted(meter, key, limit, window, d);
    var prev := Play(meter, key, limit, window, d, es[..n]);
    match meter {
      case Requests =>
        BurstStep(n);
        assert es[..n] == Burst(Requests, n);
        RequestsAdmitted(key, n, limit, window, d);
      case Tokens =>
        assert es[..n] == [];
    }
    assert |prev.hist| < |Play(meter, key, limit, window, d, es).hist|;
    AdmissionSetsExpiry(meter, prev.data, key, es[n].weight, es[n].tag, limit, window, es[n].r);
  }

  /** Half of what the slack exceeds ten seconds by, and less than a second. */
  function Margin(slack: real): real {
    if slack < 11.0 then (slack - 10.0) / 2.0 else 0.5
  }

  /** Just before the burst leaves the window it starts, and only then it stalls, past the key's time to live. */
  function Stalled(window: int, slack: real): Event {
    var start := window as real - Margin(slack);
    Check(1, 1, Readings(start, start + slack, start + slack, start + slack))
  }

  lemma BurstAndStallIsProper(meter: Meter, key: string, limit: nat, window: int, slack: real)
    requires slack > 10.0 && window >= 1 && limit >= 1
    ensures ProperWithin(meter, key, Burst(meter, limit) + [Stalled(window, slack)], slack)
  {
  }

  /** Such a run admits one more than the limit within a window. */
  lemma StallExceeds(meter: Meter, key: string, limit: nat, window: int, d: Data, slack: real)
    requires key !in d && window >= 1 && limit >= 1 && slack > 10.0
    ensures var es := Burst(meter, limit) + [Stalled(window, slack)];
            var hist := Play(meter, key, limit, window, d, es).hist;
            && ProperWithin(meter, key, es, slack)
            && InWindow(hist, window, Stalled(window, slack).r.now) == limit + 1
            && !Bounded(hist, window, limit)
  {
    hide WindowCheck, Within, ProperWithin, Burst, BurstEntries;
    var burst, e := Burst(meter, limit), Stalled(window, slack);
    var es := burst + [e];
    var log := Play(meter, key, limit, window, d, burst);
    BurstAndStallIsProper(meter, key, limit, window, slack);
    assert es[..|es|-1] == burst;
    BurstAdmitted(meter, key, limit, window, d);
    BurstExpiry(meter, key, limit, window, d);
    ExpiredKeyAdmits(meter, log.data, key, 1, 1, limit, window, e.r);
    BurstWeighsLimit(meter, limit, e.r.now - window as real, e.r.now);
    WithinStep(log.hist, EntryOf(e), e.r.now - window as real, e.r.now);
  }

  /** The slack of ten seconds is exact, for either meter, any positive limit and any window. */
  lemma SlackIsExact(meter: Meter, key: string, limit: int, window: int, d: Data, slack: real)
    requires key !in d && window >= 1 && limit >= 1
    ensures (forall es :: ProperWithin(meter, key, es, slack) ==>
               Bounded(Play(meter, key, limit, window, d, es).hist, window, limit))
            <==> slack <= SLACK
  {
    hide Play, ProperWithin, InWindow;
    if slack <= SLACK {
      forall es | ProperWithin(meter, key, es, slack)
        ensures Bounded(Play(meter, key, limit, window, d, es).hist, window, limit)
      {
        LessSlack(meter, key, es, slack);
        forall t: real ensures InWindow(Play(meter, key, limit, window, d, es).hist, window, t) <= Max(limit, 0) {
          WindowNeverExceedsLimit(meter, key, limit, window, d, es, t);
        }
      }
    } else {
      StallExceeds(meter, key, limit, window, d, slack);
    }
  }
}
