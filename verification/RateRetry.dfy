/**
 When a refused request may come back, over runs: what the `retryAfter` of a refusal says, and what becomes of a retry
 when nothing has been admitted in between.
 */
module RateRetry {
  import opened Prelude
  import opened TtlStore
  import opened RateLimits
  import opened RateWindow

  /** How a later moment sees the same history: only entries that have left the window are gone. */
  lemma OldestLater(hist: seq<Admission>, window: int, now: real, then': real)
    requires Ascending(hist) && now <= then'
    ensures var c, c2 := Oldest(hist, 0, window, now), Oldest(hist, 0, window, then');
            c <= c2 && (c < |hist| ==> (c2 == c <==> then' < hist[c].at + window as real))
  {
  }

  lemma {:induction false} OldestFromStart(hist: seq<Admission>, low: nat, cut: nat, window: int, now: real)
    requires low <= cut <= |hist| && forall i :: low <= i < cut ==> hist[i].at <= now - window as real
    ensures Oldest(hist, low, window, now) == Oldest(hist, cut, window, now)
    decreases cut - low
  {
  }

  /** Whether anything admitted is still in the window. */
  predicate SomeLeft(hist: seq<Admission>, window: int, now: real) {
    Oldest(hist, 0, window, now) < |hist|
  }

  /** How long until the oldest entry in the window leaves it. */
  function Wait(hist: seq<Admission>, window: int, now: real): real
    requires SomeLeft(hist, window, now)
  {
    hist[Oldest(hist, 0, window, now)].at + window as real - now
  }

  /** `retry` is the least whole number of seconds strictly greater than `wait`. */
  predicate LeastAbove(retry: int, wait: real) {
    (retry - 1) as real <= wait < retry as real
  }

  lemma LeastWholeAfter(wait: real)
    requires wait > 0.0
    ensures LeastAbove(Max(ToInt(wait) + 1, 1), wait)
  {
  }

  lemma RetryAfterNames(hist: seq<Admission>, c: nat, window: int, now: real)
    requires c <= |hist|
    ensures RetryAfter(Names(hist[c..]), window, now) ==
            if c == |hist| then 1 else Max(ToInt(hist[c].at + window as real - now) + 1, 1)
  {
    if c < |hist| {
      assert Names(hist[c..])[0] == Stamped(hist[c].at, hist[c].tag);
    }
  }

  lemma {:induction false} SpentConcat(xs: seq<Member>, ys: seq<Member>)
    ensures Spent(xs + ys) == Spent(xs) + Spent(ys)
    decreases |ys|
  {
    if ys == [] {
      assert xs + ys == xs;
    } else {
      assert (xs + ys)[..|xs + ys|-1] == xs + ys[..|ys|-1];
      SpentConcat(xs, ys[..|ys|-1]);
    }
  }

  /** A member in which no number can be read is a request but no token, and at the head it makes the answer one second. */
  lemma UnreadableMembers(xs: seq<Member>, text: string, ys: seq<Member>, window: int, now: real)
    ensures Load(Tokens, xs + [Label(text)] + ys) == Load(Tokens, xs + ys)
    ensures Load(Requests, xs + [Label(text)] + ys) == Load(Requests, xs + ys) + 1
    ensures RetryAfter([Label(text)] + ys, window, now) == 1
  {
    SpentConcat(xs + [Label(text)], ys);
    SpentConcat(xs, [Label(text)]);
    SpentConcat(xs, ys);
    assert [Label(text)][..0] == [];
  }

  lemma HistoryBefore(meter: Meter, key: string, limit: int, window: int, d: Data, es: seq<Event>, e: Event)
    requires key !in d && window >= 0 && Proper(meter, key, es + [e]) && e.Check?
    ensures var hist := Play(meter, key, limit, window, d, es).hist;
            && Ascending(hist) && Weighed(meter, hist) && Bounded(hist, window, limit)
            && (forall i :: 0 <= i < |hist| ==> hist[i].at <= e.r.now)
            && WeighsOne(meter, e)
  {
    hide Play, Proper, Tracks, Bounded;
    var log := Play(meter, key, limit, window, d, es);
    var cut := CheckAfterRun(meter, key, limit, window, d, es, e);
    TracksFacts(log.data, key, log.hist, cut, window, e.r.now);
    WeighedBefore(meter, log.hist, EntryOf(e));
  }

  /**
   A refusal, after any run: the window is too full for the check, and `retryAfter` is the least whole number of seconds
   strictly greater than the wait until the oldest entry leaves the window, or 1 when nothing is in it.  For requests
   under a positive limit something always is.
   */
  lemma RefusalAfterRun(meter: Meter, key: string, limit: int, window: int, d: Data, es: seq<Event>, e: Event)
    requires key !in d && window >= 0 && Proper(meter, key, es + [e]) && e.Check?
    requires var log := Play(meter, key, limit, window, d, es);
             !WindowCheck(meter, log.data, key, e.weight, e.tag, limit, window, e.r).1.allowed
    ensures var log := Play(meter, key, limit, window, d, es);
            var retry := WindowCheck(meter, log.data, key, e.weight, e.tag, limit, window, e.r).1.retryAfter;
            && InWindow(log.hist, window, e.r.now) + e.weight > limit
            && (if SomeLeft(log.hist, window, e.r.now) then
                  Wait(log.hist, window, e.r.now) > 0.0 && LeastAbove(retry, Wait(log.hist, window, e.r.now))
                else retry == 1)
            && (meter.Requests? && limit >= 1 ==> SomeLeft(log.hist, window, e.r.now))
  {
    hide Play, Proper, WindowCheck, Tracks, Bounded, RetryAfter;
    var log := Play(meter, key, limit, window, d, es);
    var hist := log.hist;
    var cut := CheckAfterRun(meter, key, limit, window, d, es, e);
    TracksFacts(log.data, key, hist, cut, window, e.r.now);
    CheckStep(meter, log.data, key, hist, cut, window, limit, e.r.now, e.r, e.tag, e.weight);
    OldestFromStart(hist, 0, cut, window, e.r.now);
    var c := Oldest(hist, 0, window, e.r.now);
    InWindowIsTotal(hist, 0, window, e.r.now);
    RetryAfterNames(hist, c, window, e.r.now);
    if c < |hist| {
      LeastWholeAfter(Wait(hist, window, e.r.now));
    } else {
      assert hist[c..] == [];
    }
  }

  /** A retry sees the history of the refusal, when nothing has been admitted in between. */
  lemma RetryDecides(meter: Meter, key: string, limit: int, window: int, d: Data, es: seq<Event>, refused: Event,
                     between: seq<Event>, retry: Event)
    requires key !in d && window >= 0 && refused.Check? && retry.Check?
    requires Proper(meter, key, es + [refused] + between + [retry])
    requires Play(meter, key, limit, window, d, es + [refused] + between).hist == Play(meter, key, limit, window, d, es).hist
    ensures Proper(meter, key, es + [refused]) && refused.r.now <= retry.r.now
    ensures WindowCheck(meter, Play(meter, key, limit, window, d, es + [refused] + between).data, key, retry.weight,
                        retry.tag, limit, window, retry.r).1.allowed
            <==> InWindow(Play(meter, key, limit, window, d, es).hist, window, retry.r.now) + retry.weight <= limit
  {
    hide Play, WindowCheck, InWindow, Timely, DistinctChecks;
    var all := es + [refused] + between + [retry];
    var n := |es|;
    assert all[..n+1] == es + [refused];
    RunPrefix(meter, key, all, SLACK, n + 1);
    RefusedFirst(meter, key, all, n, |all| - 1);
    AdmittedExactly(meter, key, limit, window, d, es + [refused] + between, retry);
  }

  lemma RefusedFirst(meter: Meter, key: string, es: seq<Event>, i: nat, j: nat)
    requires i < j < |es| && Timely(meter, key, es, SLACK)
    ensures StartOf(es[i]) <= StartOf(es[j])
  {
  }

  lemma CountFrom(hist: seq<Admission>, c: nat)
    requires c <= |hist| && Weighed(Requests, hist)
    ensures Total(hist[c..]) == |hist| - c
  {
    WeighedSuffix(Requests, hist, c);
    TotalIsLength(hist[c..]);
  }

  /**
   Requests: after any run, a refusal that returned `retryAfter`, and any further events with no admission among them,
   a retry is admitted exactly when the wait of the refusal is over.  So one at least `retryAfter` seconds later is
   admitted, and one while the oldest entry is still in the window is refused.
   */
  lemma RetryAfterRun(key: string, limit: int, window: int, d: Data, es: seq<Event>, refused: Event,
                      between: seq<Event>, retry: Event)
    requires key !in d && limit >= 1 && window >= 0 && refused.Check? && retry.Check?
    requires Proper(Requests, key, es + [refused] + between + [retry])
    requires var log := Play(Requests, key, limit, window, d, es);
             && !WindowCheck(Requests, log.data, key, refused.weight, refused.tag, limit, window, refused.r).1.allowed
             && Play(Requests, key, limit, window, d, es + [refused] + between).hist == log.hist
    ensures var log := Play(Requests, key, limit, window, d, es);
            var later := Play(Requests, key, limit, window, d, es + [refused] + between);
            var retryAfter := WindowCheck(Requests, log.data, key, refused.weight, refused.tag, limit, window, refused.r).1.retryAfter;
            var allowed := WindowCheck(Requests, later.data, key, retry.weight, retry.tag, limit, window, retry.r).1.allowed;
            && SomeLeft(log.hist, window, refused.r.now)
            && LeastAbove(retryAfter, Wait(log.hist, window, refused.r.now))
            && (allowed <==> retry.r.now - refused.r.now >= Wait(log.hist, window, refused.r.now))
            && (retry.r.now - refused.r.now >= retryAfter as real ==> allowed)
  {
    hide Play, Proper, WindowCheck, Bounded, InWindow;
    var hist := Play(Requests, key, limit, window, d, es).hist;
    RetryDecides(Requests, key, limit, window, d, es, refused, between, retry);
    RefusalAfterRun(Requests, key, limit, window, d, es, refused);
    HistoryBefore(Requests, key, limit, window, d, es, refused);
    HistoryBefore(Requests, key, limit, window, d, es + [refused] + between, retry);
    FullWindowOpens(hist, limit, window, refused.r.now, retry.r.now);
  }

  /** A window that is full has room for one more exactly from the moment its oldest entry leaves. */
  lemma FullWindowOpens(hist: seq<Admission>, limit: int, window: int, now: real, then': real)
    requires Ascending(hist) && Weighed(Requests, hist) && Bounded(hist, window, limit) && limit >= 1 && now <= then'
    requires forall i :: 0 <= i < |hist| ==> hist[i].at <= now
    requires SomeLeft(hist, window, now) && InWindow(hist, window, now) + 1 > limit
    ensures InWindow(hist, window, then') + 1 <= limit <==> then' - now >= Wait(hist, window, now)
  {
    hide InWindow;
    var c, c2 := Oldest(hist, 0, window, now), Oldest(hist, 0, window, then');
    InWindowIsTotal(hist, 0, window, now);
    InWindowIsTotal(hist, 0, window, then');
    CountFrom(hist, c);
    CountFrom(hist, c2);
    OldestLater(hist, window, now, then');
    assert InWindow(hist, window, now) <= Max(limit, 0);
  }

  /**
   Tokens: after any run, a refusal, and further events with no admission among them, a retry is admitted exactly when
   what is still in the window leaves room for it.  While the oldest entry is in the window, no retry for as many tokens
   is; once it has left, one is only if enough went with it.
   */
  lemma TokenRetryAfterRun(key: string, limit: int, window: int, d: Data, es: seq<Event>, refused: Event,
                           between: seq<Event>, retry: Event)
    requires key !in d && window >= 0 && refused.Check? && retry.Check?
    requires Proper(Tokens, key, es + [refused] + between + [retry])
    requires var log := Play(Tokens, key, limit, window, d, es);
             && !WindowCheck(Tokens, log.data, key, refused.weight, refused.tag, limit, window, refused.r).1.allowed
             && Play(Tokens, key, limit, window, d, es + [refused] + between).hist == log.hist
    ensures var log := Play(Tokens, key, limit, window, d, es);
            var later := Play(Tokens, key, limit, window, d, es + [refused] + between);
            var allowed := WindowCheck(Tokens, later.data, key, retry.weight, retry.tag, limit, window, retry.r).1.allowed;
            && (allowed <==> InWindow(log.hist, window, retry.r.now) + retry.weight <= limit)
            && (allowed && retry.weight >= refused.weight ==>
                  && SomeLeft(log.hist, window, refused.r.now)
                  && retry.r.now - refused.r.now >= Wait(log.hist, window, refused.r.now))
  {
    hide Play, Proper, WindowCheck, Bounded, InWindow;
    var hist := Play(Tokens, key, limit, window, d, es).hist;
    RetryDecides(Tokens, key, limit, window, d, es, refused, between, retry);
    RefusalAfterRun(Tokens, key, limit, window, d, es, refused);
    HistoryBefore(Tokens, key, limit, window, d, es, refused);
    HistoryBefore(Tokens, key, limit, window, d, es + [refused] + between, retry);
    InWindowIsTotal(hist, 0, window, refused.r.now);
    InWindowIsTotal(hist, 0, window, retry.r.now);
    OldestLater(hist, window, refused.r.now, retry.r.now);
  }
}
