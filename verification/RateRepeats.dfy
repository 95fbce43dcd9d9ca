/**
 What equal entries do to the window: two checks that write the same member in the same instant leave one entry, so the
 sorted set only counts the first.  The bound then holds of the entries without repetitions, and of the admissions
 themselves exactly when the limit is at most one.
 */
module RateRepeats {
  import opened TtlStore
  import opened RateLimits
  import opened RateWindow

  /** Over any run of prompt checks, one is admitted exactly when the entries in the window, repetitions apart, leave room. */
  lemma AdmittedByEntries(meter: Meter, key: string, limit: int, window: int, d: Data, es: seq<Event>, e: Event)
    requires key !in d && window >= 1 && Timely(meter, key, es + [e], SLACK) && e.Check?
    ensures var log := Play(meter, key, limit, window, d, es);
            WindowCheck(meter, log.data, key, e.weight, e.tag, limit, window, e.r).1.allowed <==>
            InWindow(Core(log.hist), window, e.r.now) + e.weight <= limit
  {
    hide Play, Timely, Bounded, WindowCheck, Tracks, Core;
    var log := Play(meter, key, limit, window, d, es);
    var core := Core(log.hist);
    var cut := CheckAfterTimelyRun(meter, key, limit, window, d, es, e);
    TracksFacts(log.data, key, core, cut, window, e.r.now);
    WeighedBefore(meter, core, EntryOf(e));
    var d2 := CheckDecides(meter, log.data, key, core, cut, window, limit, e.r.now, e.r, e.tag, e.weight);
    InWindowIsTotal(core, cut, window, e.r.now);
  }

  lemma WithinStep(hist: seq<Admission>, a: Admission, lo: real, hi: real)
    ensures Within(hist + [a], lo, hi) == Within(hist, lo, hi) + if lo < a.at <= hi then a.weight else 0
  {
    assert (hist + [a])[..|hist|] == hist;
  }

  lemma {:induction false} WithinHas(hist: seq<Admission>, a: Admission, lo: real, hi: real)
    requires a in hist && lo < a.at <= hi
    ensures Within(hist, lo, hi) >= a.weight
  {
    var n := |hist| - 1;
    if hist[n] != a {
      WithinHas(hist[..n], a, lo, hi);
    }
  }

  // ----- A limit of at most one -----

  /** Under a limit of at most one, a repeated admission weighs nothing. */
  lemma RepeatIsWeightless(meter: Meter, key: string, limit: int, window: int, d: Data, es: seq<Event>, e: Event)
    requires key !in d && window >= 1 && limit <= 1 && Timely(meter, key, es + [e], SLACK) && e.Check?
    requires var log := Play(meter, key, limit, window, d, es);
             && EntryOf(e) in Core(log.hist)
             && WindowCheck(meter, log.data, key, e.weight, e.tag, limit, window, e.r).1.allowed
    ensures e.weight == 0
  {
    hide Play, Timely, WindowCheck, Core, Within;
    AdmittedByEntries(meter, key, limit, window, d, es, e);
    WithinHas(Core(Play(meter, key, limit, window, d, es).hist), EntryOf(e), e.r.now - window as real, e.r.now);
  }

  lemma {:induction false} SameWithoutRepeats(meter: Meter, key: string, limit: int, window: int, d: Data, es: seq<Event>,
                                              lo: real, hi: real)
    requires key !in d && window >= 1 && limit <= 1 && Timely(meter, key, es, SLACK)
    ensures var hist := Play(meter, key, limit, window, d, es).hist; Within(hist, lo, hi) == Within(Core(hist), lo, hi)
  {
    hide WindowCheck, Timely, Core, Within;
    if es == [] {
      CoreOfNothing();
    } else {
      var n := |es| - 1;
      var prev := Play(meter, key, limit, window, d, es[..n]);
      RunPrefix(meter, key, es, SLACK, n);
      SameWithoutRepeats(meter, key, limit, window, d, es[..n], lo, hi);
      if es[n].Check? {
        var a := EntryOf(es[n]);
        assert es[..n] + [es[n]] == es;
        CoreStep(prev.hist, a);
        WithinStep(prev.hist, a, lo, hi);
        WithinStep(Core(prev.hist), a, lo, hi);
        if a in Core(prev.hist)
           && WindowCheck(meter, prev.data, key, a.weight, a.tag, limit, window, es[n].r).1.allowed {
          RepeatIsWeightless(meter, key, limit, window, d, es[..n], es[n]);
        }
      }
    }
  }

  lemma CoreOfNothing()
    ensures Core([]) == []
  {
  }

  lemma BoundedBelowTwo(meter: Meter, key: string, limit: int, window: int, d: Data, es: seq<Event>)
    requires key !in d && window >= 1 && limit <= 1 && Timely(meter, key, es, SLACK)
    ensures Bounded(Play(meter, key, limit, window, d, es).hist, window, limit)
  {
    hide Play, Timely, Core, Within, Bounded, Tracks;
    var now := 0.0;
    if es != [] {
      RunTimes(meter, key, es, SLACK, |es| - 1);
      now := EndOf(es[|es|-1]);
    }
    var _ := RunKeeps(meter, key, limit, window, d, es, now);
    var hist := Play(meter, key, limit, window, d, es).hist;
    forall t: real ensures InWindow(hist, window, t) == InWindow(Core(hist), window, t) {
      SameWithoutRepeats(meter, key, limit, window, d, es, t - window as real, t);
    }
    BoundedAlike(Core(hist), hist, window, limit);
  }

  lemma BoundedAlike(xs: seq<Admission>, ys: seq<Admission>, window: int, limit: int)
    requires Bounded(xs, window, limit) && forall t: real :: InWindow(ys, window, t) == InWindow(xs, window, t)
    ensures Bounded(ys, window, limit)
  {
    hide InWindow;
  }

  // ----- A limit of two or more -----

  /** The same check of weight one, `n` times over in the first instant. */
  function Repeated(n: nat): seq<Event> {
    seq(n, _ => Check(1, 1, Readings(0.0, 0.0, 0.0, 0.0)))
  }

  function Entries(n: nat): seq<Admission> {
    seq(n, _ => Admission(0.0, 1, 1))
  }

  lemma EntriesStep(n: nat)
    ensures Entries(n + 1) == Entries(n) + [Admission(0.0, 1, 1)]
    ensures Repeated(n + 1) == Repeated(n) + [Check(1, 1, Readings(0.0, 0.0, 0.0, 0.0))]
  {
  }

  lemma {:induction false} CoreOfEntries(n: nat)
    ensures Core(Entries(n)) == if n == 0 then [] else [Admission(0.0, 1, 1)]
  {
    if n > 0 {
      CoreOfEntries(n - 1);
      EntriesStep(n - 1);
      CoreStep(Entries(n - 1), Admission(0.0, 1, 1));
    }
  }

  lemma {:induction false} WithinEntries(n: nat, lo: real)
    requires lo < 0.0
    ensures Within(Entries(n), lo, 0.0) == n
  {
    if n > 0 {
      WithinEntries(n - 1, lo);
      EntriesStep(n - 1);
      WithinStep(Entries(n - 1), Admission(0.0, 1, 1), lo, 0.0);
    }
  }

  lemma OneEntryWithin(n: nat, window: int)
    requires window >= 1
    ensures InWindow(Core(Entries(n)), window, 0.0) <= 1
  {
    CoreOfEntries(n);
    WithinStep([], Admission(0.0, 1, 1), -(window as real), 0.0);
    assert [] + [Admission(0.0, 1, 1)] == [Admission(0.0, 1, 1)];
  }

  lemma RepeatedIsTimely(meter: Meter, key: string, n: nat)
    ensures Timely(meter, key, Repeated(n), SLACK)
  {
  }

  /** However often it is repeated, under a limit of two or more it is admitted each time. */
  lemma {:induction false} AllRepeatsAdmitted(meter: Meter, key: string, limit: int, window: int, d: Data, n: nat)
    requires key !in d && window >= 1 && limit >= 2
    ensures Play(meter, key, limit, window, d, Repeated(n)).hist == Entries(n)
  {
    hide WindowCheck, Timely, InWindow, Core;
    if n > 0 {
      var e := Check(1, 1, Readings(0.0, 0.0, 0.0, 0.0));
      AllRepeatsAdmitted(meter, key, limit, window, d, n - 1);
      EntriesStep(n - 1);
      assert Repeated(n)[..n-1] == Repeated(n - 1);
      RepeatedIsTimely(meter, key, n);
      AdmittedByEntries(meter, key, limit, window, d, Repeated(n - 1), e);
      OneEntryWithin(n - 1, window);
    }
  }

  /** One more repetition than the limit allows. */
  lemma RepeatsExceed(meter: Meter, key: string, limit: int, window: int, d: Data)
    requires key !in d && window >= 1 && limit >= 2
    ensures Timely(meter, key, Repeated(limit + 1), SLACK)
    ensures InWindow(Play(meter, key, limit, window, d, Repeated(limit + 1)).hist, window, 0.0) == limit + 1
    ensures !Bounded(Play(meter, key, limit, window, d, Repeated(limit + 1)).hist, window, limit)
  {
    hide Play, Timely, Within;
    RepeatedIsTimely(meter, key, limit + 1);
    AllRepeatsAdmitted(meter, key, limit, window, d, limit + 1);
    WithinEntries(limit + 1, -(window as real));
  }

  /**
   Without the assumption that entries are distinct, every run of prompt checks keeps the bound if and only if the limit
   is at most one.
   */
  lemma RepeatsKeepBoundExactly(meter: Meter, key: string, limit: int, window: int, d: Data)
    requires key !in d && window >= 1
    ensures (forall es :: Timely(meter, key, es, SLACK) ==>
               Bounded(Play(meter, key, limit, window, d, es).hist, window, limit))
            <==> limit <= 1
  {
    hide Play, Timely, Bounded;
    if limit <= 1 {
      forall es | Timely(meter, key, es, SLACK) ensures Bounded(Play(meter, key, limit, window, d, es).hist, window, limit) {
        BoundedBelowTwo(meter, key, limit, window, d, es);
      }
    } else {
      RepeatsExceed(meter, key, limit, window, d);
    }
  }
}
