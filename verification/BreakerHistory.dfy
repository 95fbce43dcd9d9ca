/**
 What a circuit breaker's state means in terms of the calls made on it, over every run.

 A run is any sequence of calls on one breaker that starts from a fresh one.  The reference notions
 (`FailedIn`, `LastFailure`, `Clears`) are read off the sequence of calls itself.
 */
module BreakerHistory {
  import opened Prelude
  import opened CircuitBreakers

  datatype Event =
    | Asked(at: real)
    | Succeeded
    | Failed(at: real, opening: real)
    | WasReset

  function Step(b: Breaker, lim: Limits, e: Event): Breaker {
    match e
    case Asked(at) => Observe(b, lim, at)
    case Succeeded => Succeed(b)
    case Failed(at, opening) => Fail(b, lim, at, opening)
    case WasReset => Reset(b)
  }

  function PlayFrom(b: Breaker, lim: Limits, es: seq<Event>): Breaker {
    if es == [] then b else Step(PlayFrom(b, lim, es[..|es|-1]), lim, es[|es|-1])
  }

  function Play(lim: Limits, es: seq<Event>): Breaker {
    PlayFrom(FRESH, lim, es)
  }

  // ----- Reference notions on histories -----

  function FailedIn(es: seq<Event>): nat {
    if es == [] then 0 else FailedIn(es[..|es|-1]) + if es[|es|-1].Failed? then 1 else 0
  }

  /** Time of the last recorded failure, 0.0 when there is none. */
  function LastFailure(es: seq<Event>): real {
    if es == [] then 0.0
    else if es[|es|-1].Failed? then es[|es|-1].at
    else LastFailure(es[..|es|-1])
  }

  /** The second clock reading of the last recorded failure, 0.0 when there is none. */
  function LastOpening(es: seq<Event>): real {
    if es == [] then 0.0
    else if es[|es|-1].Failed? then es[|es|-1].opening
    else LastOpening(es[..|es|-1])
  }

  /** Event `i` clears the failure count: a reset, or a success recorded while the breaker is not OPEN. */
  predicate Clears(lim: Limits, es: seq<Event>, i: nat)
    requires i < |es|
  {
    es[i].WasReset? || (es[i].Succeeded? && Play(lim, es[..i]).phase != Open)
  }

  /** `c` is the position just after the last clearing event, or 0 when there is none. */
  ghost predicate LastClear(lim: Limits, es: seq<Event>, c: nat) {
    && c <= |es|
    && (c == 0 || Clears(lim, es, c - 1))
    && forall i :: c <= i < |es| ==> !Clears(lim, es, i)
  }

  function StartOf(e: Event): real {
    match e
    case Asked(at) => at
    case Failed(at, _) => at
    case Succeeded => 0.0
    case WasReset => 0.0
  }

  function EndOf(e: Event): real {
    match e
    case Asked(at) => at
    case Failed(_, opening) => opening
    case Succeeded => 0.0
    case WasReset => 0.0
  }

  predicate Timed(e: Event) {
    e.Asked? || e.Failed?
  }

  /** Clock readings never go backwards and all come before `now`. */
  ghost predicate Monotone(es: seq<Event>, now: real) {
    && (forall i, j :: 0 <= i < j < |es| && Timed(es[i]) && Timed(es[j]) ==> EndOf(es[i]) <= StartOf(es[j]))
    && (forall i :: 0 <= i < |es| && Timed(es[i]) ==> StartOf(es[i]) <= EndOf(es[i]) <= now)
  }

  // ----- Theorems -----

  lemma {:induction false} PlayConcat(b: Breaker, lim: Limits, xs: seq<Event>, ys: seq<Event>)
    ensures PlayFrom(b, lim, xs + ys) == PlayFrom(PlayFrom(b, lim, xs), lim, ys)
    decreases |ys|
  {
    if ys == [] {
      assert xs + ys == xs;
    } else {
      var init := ys[..|ys|-1];
      assert (xs + ys)[..|xs + ys|-1] == xs + init;
      PlayConcat(b, lim, xs, init);
    }
  }

  /** The raw state is CLOSED if and only if fewer failures than the threshold are counted. */
  lemma {:induction false} ClosedIffBelowThreshold(lim: Limits, es: seq<Event>)
    requires lim.threshold >= 1
    ensures Play(lim, es).phase == Closed <==> Play(lim, es).failures < lim.threshold
  {
    if es != [] {
      ClosedIffBelowThreshold(lim, es[..|es|-1]);
    }
  }

  /** A positive threshold is exactly what the invariant needs: the fresh breaker already breaks it otherwise. */
  lemma ClosedIffBelowThresholdExactly(lim: Limits)
    ensures (forall es :: Play(lim, es).phase == Closed <==> Play(lim, es).failures < lim.threshold)
            <==> lim.threshold >= 1
  {
    if lim.threshold >= 1 {
      forall es ensures Play(lim, es).phase == Closed <==> Play(lim, es).failures < lim.threshold {
        ClosedIffBelowThreshold(lim, es);
      }
    } else {
      assert Play(lim, []) == FRESH;
    }
  }

  /** The failure count is the number of failures recorded after the last clearing event. */
  lemma {:induction false} FailuresSinceLastClear(lim: Limits, es: seq<Event>, c: nat)
    requires LastClear(lim, es, c)
    ensures Play(lim, es).failures == FailedIn(es[c..])
  {
    if es != [] {
      var n := |es| - 1;
      var init := es[..n];
      assert forall i :: 0 <= i <= n ==> init[..i] == es[..i];
      if c == |es| {
        assert Clears(lim, es, n);
      } else {
        assert forall i | 0 <= i < n :: Clears(lim, init, i) == Clears(lim, es, i);
        FailuresSinceLastClear(lim, init, c);
        assert es[c..][..|es[c..]|-1] == init[c..];
        assert !Clears(lim, es, n);
      }
    }
  }

  /** A manual reset leaves a breaker as a fresh one, except for the time of its last failure. */
  lemma ResetIsFresh(lim: Limits, es: seq<Event>)
    requires lim.threshold >= 1
    ensures Play(lim, es + [WasReset]) == FRESH.(lastFailure := LastFailure(es))
  {
    assert (es + [WasReset])[..|es|] == es;
    OpenedAtIsLastFailure(lim, es);
  }

  /** Every history has exactly one such position, so the count above is determined by the history. */
  lemma {:induction false} LastClearExists(lim: Limits, es: seq<Event>) returns (c: nat)
    ensures LastClear(lim, es, c)
    ensures forall d: nat :: LastClear(lim, es, d) ==> d == c
  {
    if es == [] {
      c := 0;
    } else {
      var n := |es| - 1;
      var init := es[..n];
      assert forall i :: 0 <= i <= n ==> init[..i] == es[..i];
      assert forall i | 0 <= i < n :: Clears(lim, init, i) == Clears(lim, es, i);
      if Clears(lim, es, n) {
        c := |es|;
      } else {
        c := LastClearExists(lim, init);
      }
    }
    assert forall d: nat :: LastClear(lim, es, d) && d > 0 ==> Clears(lim, es, d - 1);
  }

  /** Whenever the breaker is not CLOSED, it was opened by the last recorded failure. */
  lemma {:induction false} OpenedAtIsLastFailure(lim: Limits, es: seq<Event>)
    requires lim.threshold >= 1
    ensures Play(lim, es).phase != Closed ==> Play(lim, es).openedAt == LastOpening(es)
    ensures Play(lim, es).lastFailure == LastFailure(es)
  {
    if es != [] {
      OpenedAtIsLastFailure(lim, es[..|es|-1]);
      ClosedIffBelowThreshold(lim, es[..|es|-1]);
    }
  }

  lemma {:induction false} HalfOpenHasWaited(lim: Limits, es: seq<Event>, now: real)
    requires lim.threshold >= 1 && Monotone(es, now)
    requires Play(lim, es).phase == HalfOpen
    ensures now - LastOpening(es) >= lim.recovery as real
  {
    if es != [] {
      var init := es[..|es|-1];
      OpenedAtIsLastFailure(lim, init);
      OpenedAtIsLastFailure(lim, es);
      if Play(lim, init).phase == HalfOpen && !es[|es|-1].Failed? {
        HalfOpenHasWaited(lim, init, now);
      }
    }
  }

  /**
   Availability, read off the history: a request may pass exactly when fewer than `threshold` failures have
   been counted since the last clearing event, or at least the recovery timeout has passed since the last
   failure was recorded.  No breaker state is mentioned on the right.
   */
  lemma {:induction false} AvailableExactly(lim: Limits, es: seq<Event>, c: nat, now: real)
    requires lim.threshold >= 1 && Monotone(es, now) && LastClear(lim, es, c)
    ensures Admits(Play(lim, es), lim, now)
            <==> FailedIn(es[c..]) < lim.threshold || now - LastOpening(es) >= lim.recovery as real
  {
    FailuresSinceLastClear(lim, es, c);
    ClosedIffBelowThreshold(lim, es);
    OpenedAtIsLastFailure(lim, es);
    if Play(lim, es).phase == HalfOpen {
      HalfOpenHasWaited(lim, es, now);
    }
  }

  /**
   After a trip, and whatever follows except a manual reset, the breaker first answers True no sooner than
   the recovery timeout after the failure that tripped it.
   */
  lemma {:induction false} TripHolds(lim: Limits, before: seq<Event>, after: seq<Event>, now: real)
    requires lim.threshold >= 1 && Monotone(before + after, now)
    requires Play(lim, before).phase == Open
    requires forall i :: 0 <= i < |after| ==> !after[i].WasReset?
    ensures Admits(Play(lim, before + after), lim, now) ==> now - LastOpening(before) >= lim.recovery as real
  {
    TrippedUntil(lim, before, after, now);
    OpenedAtIsLastFailure(lim, before + after);
  }

  lemma {:induction false} TrippedUntil(lim: Limits, before: seq<Event>, after: seq<Event>, now: real)
    requires lim.threshold >= 1 && Monotone(before + after, now)
    requires Play(lim, before).phase == Open
    requires forall i :: 0 <= i < |after| ==> !after[i].WasReset?
    ensures now - LastOpening(before) >= lim.recovery as real
            || (Play(lim, before + after).phase == Open && LastOpening(before + after) >= LastOpening(before))
    decreases |after|
  {
    hide Monotone;
    var all := before + after;
    if after == [] {
      assert all == before;
    } else {
      var init := after[..|after|-1];
      assert all == (before + init) + [after[|after|-1]];
      MonotoneBefore(before + init, after[|after|-1], now);
      TrippedUntil(lim, before, init, now);
      TrippedStep(lim, before + init, after[|after|-1], now);
    }
  }

  lemma MonotoneBefore(es: seq<Event>, e: Event, now: real)
    requires Monotone(es + [e], now)
    ensures Monotone(es, now)
  {
    var all := es + [e];
    assert forall i :: 0 <= i < |es| ==> all[i] == es[i];
  }

  /** While a breaker is OPEN, nothing but a question after the timeout ends that, and failures open it again, later. */
  lemma TrippedStep(lim: Limits, es: seq<Event>, e: Event, now: real)
    requires lim.threshold >= 1 && Monotone(es + [e], now) && !e.WasReset?
    ensures Play(lim, es).phase == Open ==>
              || now - LastOpening(es) >= lim.recovery as real
              || (Play(lim, es + [e]).phase == Open && LastOpening(es + [e]) >= LastOpening(es))
  {
    var all := es + [e];
    assert all[..|es|] == es && all[|es|] == e;
    OpenedAtIsLastFailure(lim, es);
    if e.Failed? && Play(lim, es).phase == Open {
      hide Play;
      OpenFailsOpen(lim, es, e);
      NotClosedHasFailed(lim, es);
      LastFailureIsEvent(es);
      var i :| 0 <= i < |es| && es[i] == Failed(LastFailure(es), LastOpening(es));
      assert all[i] == es[i] && Timed(all[i]) && Timed(all[|es|]);
      assert EndOf(all[i]) <= StartOf(all[|es|]) <= EndOf(all[|es|]);
    }
  }

  lemma OpenFailsOpen(lim: Limits, es: seq<Event>, e: Event)
    requires lim.threshold >= 1 && e.Failed? && Play(lim, es).phase == Open
    ensures Play(lim, es + [e]).phase == Open && LastOpening(es + [e]) == e.opening
  {
    assert (es + [e])[..|es|] == es;
    ClosedIffBelowThreshold(lim, es);
  }

  lemma {:induction false} NotClosedHasFailed(lim: Limits, es: seq<Event>)
    ensures Play(lim, es).phase != Closed ==> FailedIn(es) > 0
  {
    if es != [] {
      NotClosedHasFailed(lim, es[..|es|-1]);
    }
  }

  lemma {:induction false} LastFailureIsEvent(es: seq<Event>)
    ensures FailedIn(es) == 0 ==> LastFailure(es) == 0.0 && LastOpening(es) == 0.0
    ensures FailedIn(es) > 0 ==> exists i :: 0 <= i < |es| && es[i] == Failed(LastFailure(es), LastOpening(es))
  {
    if es != [] && !es[|es|-1].Failed? {
      LastFailureIsEvent(es[..|es|-1]);
      if FailedIn(es) > 0 {
        var init := es[..|es|-1];
        var i :| 0 <= i < |init| && init[i] == Failed(LastFailure(init), LastOpening(init));
        assert es[i] == Failed(LastFailure(es), LastOpening(es));
      }
    } else if es != [] {
      assert es[|es|-1] == Failed(LastFailure(es), LastOpening(es));
    }
  }

  // ----- Half-open -----

  /** As many failures at time 0 as the threshold asks for, then a question once the timeout has passed. */
  function Tripped(lim: Limits): seq<Event> {
    seq(Max(lim.threshold, 1), _ => Failed(0.0, 0.0))
  }

  function TrippedAndAsked(lim: Limits): seq<Event> {
    Tripped(lim) + [Asked(Max(lim.recovery, 0) as real)]
  }

  lemma {:induction false} FailuresTrip(lim: Limits, n: nat)
    requires 1 <= n <= Max(lim.threshold, 1)
    ensures var b := Play(lim, Tripped(lim)[..n]);
            && b.failures == n && b.openedAt == 0.0
            && b.phase == if n >= lim.threshold then Open else Closed
  {
    var es := Tripped(lim);
    assert es[..n][..n-1] == es[..n-1];
    if n > 1 {
      FailuresTrip(lim, n - 1);
    } else {
      assert Play(lim, es[..0]) == FRESH;
    }
  }

  /** HALF_OPEN is reached by a run of the breaker, whatever its limits. */
  lemma HalfOpenIsReached(lim: Limits)
    ensures var es := TrippedAndAsked(lim);
            Play(lim, es).phase == HalfOpen && Monotone(es, Max(lim.recovery, 0) as real)
  {
    var es := TrippedAndAsked(lim);
    FailuresTrip(lim, Max(lim.threshold, 1));
    assert Tripped(lim)[..Max(lim.threshold, 1)] == Tripped(lim);
    assert es[..|es|-1] == Tripped(lim);
  }

  /**
   A half-open breaker lets any number of requests through, not one: however often it is asked, and whatever successes
   and resets are recorded, it keeps answering True at every time until a failure is recorded.
   */
  lemma {:induction false} HalfOpenAdmitsAll(lim: Limits, es: seq<Event>, more: seq<Event>, now: real)
    requires Play(lim, es).phase == HalfOpen
    requires forall i :: 0 <= i < |more| ==> !more[i].Failed?
    ensures Play(lim, es + more).phase != Open && Admits(Play(lim, es + more), lim, now)
    ensures (forall i :: 0 <= i < |more| ==> more[i].Asked?) ==> Play(lim, es + more) == Play(lim, es)
  {
    if more == [] {
      assert es + more == es;
    } else {
      var n := |more| - 1;
      assert (es + more)[..|es + more|-1] == es + more[..n];
      HalfOpenAdmitsAll(lim, es, more[..n], now);
    }
  }

  /** Which next event takes a half-open breaker's admission away: a failure, for as long as the recovery timeout. */
  lemma HalfOpenEndsExactly(lim: Limits, es: seq<Event>, e: Event, now: real)
    requires Play(lim, es).phase == HalfOpen
    ensures !Admits(Play(lim, es + [e]), lim, now) <==> e.Failed? && now - e.opening < lim.recovery as real
  {
    assert (es + [e])[..|es|] == es;
  }
}
