/**
 What the sliding window guarantees over runs: no window ever holds more admitted weight than the limit, and a
 refused request's retry_after is exact.

 A run is any sequence of checks on one key, mixed with any operations by others on other keys of the same store.
 */
module RateWindow {
  import opened Prelude
  import opened TtlStore
  import opened StoreRefinement
  import opened RateLimits

  datatype Admission = Admission(at: real, tag: int, weight: nat)

  // ----- Sums over admissions -----

  function Total(hist: seq<Admission>): nat {
    if hist == [] then 0 else Total(hist[..|hist|-1]) + hist[|hist|-1].weight
  }

  /** Requests weigh one each. */
  lemma {:induction false} TotalIsLength(hist: seq<Admission>)
    requires Weighed(Requests, hist)
    ensures Total(hist) == |hist|
  {
    if hist != [] {
      TotalIsLength(hist[..|hist|-1]);
    }
  }

  /** Weight admitted in the half-open window (lo, hi]. */
  function Within(hist: seq<Admission>, lo: real, hi: real): nat {
    if hist == [] then 0 else
      var last := hist[|hist|-1];
      Within(hist[..|hist|-1], lo, hi) + if lo < last.at <= hi then last.weight else 0
  }

  ghost predicate Ascending(hist: seq<Admission>) {
    forall i, j :: 0 <= i < j < |hist| ==> hist[i].at <= hist[j].at
  }

  ghost predicate Distinct(hist: seq<Admission>) {
    forall i, j :: 0 <= i < j < |hist| ==> hist[i].at != hist[j].at || hist[i].tag != hist[j].tag
  }

  /** The history a meter keeps: weight one for requests, the tag for tokens. */
  ghost predicate Weighed(meter: Meter, hist: seq<Admission>) {
    forall i :: 0 <= i < |hist| ==> if meter.Requests? then hist[i].weight == 1 else hist[i].tag == hist[i].weight
  }

  lemma {:induction false} WithinLate(hist: seq<Admission>, cut: nat, lo: real, hi: real)
    requires cut <= |hist| && forall i :: 0 <= i < cut ==> hist[i].at <= lo
    ensures Within(hist, lo, hi) <= Total(hist[cut..])
  {
    if hist != [] {
      var n := |hist| - 1;
      if cut <= n {
        WithinLate(hist[..n], cut, lo, hi);
        assert hist[cut..][..|hist[cut..]|-1] == hist[..n][cut..];
      } else {
        WithinNone(hist, lo, hi);
      }
    }
  }

  lemma {:induction false} WithinNone(hist: seq<Admission>, lo: real, hi: real)
    requires forall i :: 0 <= i < |hist| ==> hist[i].at <= lo
    ensures Within(hist, lo, hi) == 0
  {
    if hist != [] {
      WithinNone(hist[..|hist|-1], lo, hi);
    }
  }

  lemma {:induction false} WithinAll(hist: seq<Admission>, cut: nat, lo: real, hi: real)
    requires cut <= |hist| && forall i :: cut <= i < |hist| ==> lo < hist[i].at <= hi
    ensures Within(hist, lo, hi) >= Total(hist[cut..])
  {
    if cut < |hist| {
      var n := |hist| - 1;
      WithinAll(hist[..n], cut, lo, hi);
      assert hist[cut..][..|hist[cut..]|-1] == hist[..n][cut..];
    }
  }

  /** Weight admitted in the window of `window` seconds that ends at `t`. */
  function InWindow(hist: seq<Admission>, window: int, t: real): nat {
    Within(hist, t - window as real, t)
  }

  /** The bound itself: every window (t - window, t] holds at most `limit`. */
  ghost predicate Bounded(hist: seq<Admission>, window: int, limit: int) {
    forall t: real :: InWindow(hist, window, t) <= Max(limit, 0)
  }

  /** The history without repetitions: of equal entries, which the sorted set cannot tell apart, only the first. */
  function Core(hist: seq<Admission>): seq<Admission> {
    if hist == [] then [] else
      var n := |hist| - 1;
      var c := Core(hist[..n]);
      if hist[n] in c then c else c + [hist[n]]
  }

  lemma CoreStep(hist: seq<Admission>, a: Admission)
    ensures Core(hist + [a]) == if a in Core(hist) then Core(hist) else Core(hist) + [a]
  {
    assert (hist + [a])[..|hist|] == hist;
  }

  // ----- The sorted set as a record of the history -----

  function Items(hist: seq<Admission>): seq<(Member, real)> {
    seq(|hist|, i requires 0 <= i < |hist| => (Stamped(hist[i].at, hist[i].tag), hist[i].at))
  }

  function Names(hist: seq<Admission>): seq<Member> {
    seq(|hist|, i requires 0 <= i < |hist| => Stamped(hist[i].at, hist[i].tag))
  }

  lemma {:induction false} SortKeepsItems(hist: seq<Admission>)
    requires Ascending(hist)
    ensures SortByScore(Items(hist)) == Items(hist)
  {
    if hist != [] {
      var n := |hist| - 1;
      SortKeepsItems(hist[..n]);
      assert Items(hist)[..n] == Items(hist[..n]);
      assert Items(hist) == Items(hist[..n]) + [Items(hist)[n]];
    }
  }

  lemma {:induction false} RangeNames(hist: seq<Admission>, lo: real, hi: real)
    requires forall i :: 0 <= i < |hist| ==> lo <= hist[i].at <= hi
    ensures MembersWithin(Items(hist), lo, hi) == Names(hist)
  {
    if hist != [] {
      var n := |hist| - 1;
      RangeNames(hist[..n], lo, hi);
      assert Items(hist)[..n] == Items(hist[..n]);
      assert Names(hist) == Names(hist[..n]) + [Names(hist)[n]];
    }
  }

  lemma {:induction false} LoadIsTotal(meter: Meter, hist: seq<Admission>)
    requires Weighed(meter, hist)
    ensures Load(meter, Names(hist)) == Total(hist)
  {
    if hist != [] {
      var n := |hist| - 1;
      LoadIsTotal(meter, hist[..n]);
      assert Names(hist)[..n] == Names(hist[..n]);
    }
  }

  /** The first position from `cut` on whose time is after `x`. */
  function FirstAfter(hist: seq<Admission>, cut: nat, x: real): (c: nat)
    requires cut <= |hist|
    ensures cut <= c <= |hist|
    ensures forall i :: cut <= i < c ==> hist[i].at <= x
    ensures c < |hist| ==> hist[c].at > x
    decreases |hist| - cut
  {
    if cut == |hist| || hist[cut].at > x then cut else FirstAfter(hist, cut + 1, x)
  }

  lemma {:induction false} OutsideAll(hist: seq<Admission>, x: real)
    requires forall i :: 0 <= i < |hist| ==> hist[i].at > x
    ensures Outside(Items(hist), 0.0, x) == Items(hist)
  {
    if hist != [] {
      var n := |hist| - 1;
      OutsideAll(hist[..n], x);
      assert Items(hist)[..n] == Items(hist[..n]);
      assert Items(hist) == Items(hist[..n]) + [Items(hist)[n]];
    }
  }

  lemma {:induction false} OutsideConcat(xs: seq<(Member, real)>, ys: seq<(Member, real)>, lo: real, hi: real)
    ensures Outside(xs + ys, lo, hi) == Outside(xs, lo, hi) + Outside(ys, lo, hi)
    decreases |ys|
  {
    if ys == [] {
      assert xs + ys == xs;
    } else {
      var n := |ys| - 1;
      assert (xs + ys)[..|xs + ys|-1] == xs + ys[..n];
      OutsideConcat(xs, ys[..n], lo, hi);
    }
  }

  lemma {:induction false} OutsideNone(hist: seq<Admission>, x: real)
    requires forall i :: 0 <= i < |hist| ==> 0.0 <= hist[i].at <= x
    ensures Outside(Items(hist), 0.0, x) == []
  {
    if hist != [] {
      var n := |hist| - 1;
      OutsideNone(hist[..n], x);
      assert Items(hist)[..n] == Items(hist[..n]);
    }
  }

  lemma ItemsSplit(hist: seq<Admission>, cut: nat, c: nat)
    requires cut <= c <= |hist|
    ensures Items(hist[cut..]) == Items(hist[cut..c]) + Items(hist[c..])
  {
  }

  lemma PruneDrops(hist: seq<Admission>, cut: nat, x: real)
    requires cut <= |hist| && Ascending(hist) && forall i :: 0 <= i < |hist| ==> hist[i].at >= 0.0
    ensures Outside(Items(hist[cut..]), 0.0, x) == Items(hist[FirstAfter(hist, cut, x)..])
  {
    hide Outside, Items;
    var c := FirstAfter(hist, cut, x);
    ItemsSplit(hist, cut, c);
    OutsideConcat(Items(hist[cut..c]), Items(hist[c..]), 0.0, x);
    OutsideNone(hist[cut..c], x);
    OutsideAll(hist[c..], x);
    assert [] + Items(hist[c..]) == Items(hist[c..]);
  }

  // ----- The invariant -----

  /**
   The sorted set holds exactly the admissions from position `cut` on; those before it had left the window by the
   time `last` of the latest check.  The key does not expire while its latest admission may still count.
   */
  ghost predicate Tracks(d: Data, key: string, hist: seq<Admission>, cut: nat, window: int, last: real) {
    && cut <= |hist| && Ascending(hist) && Distinct(hist)
    && (forall i :: 0 <= i < |hist| ==> 0.0 <= hist[i].at <= last)
    && (forall i :: 0 <= i < cut ==> hist[i].at <= last - window as real)
    && (if key in d then
          && d[key].value == Ranked(Items(hist[cut..]))
          && hist != []
          && d[key].expires.Some?
          && d[key].expires.value >= hist[|hist|-1].at + (window + 10) as real
        else cut == |hist|)
  }

  /** The clock only moves forward during a check, which adds its entry at most `slack` seconds after it started. */
  predicate PromptWithin(r: Readings, slack: real) {
    0.0 <= r.now <= r.range <= r.add <= r.expire && r.add <= r.now + slack
  }

  /** The slack that the key's time to live leaves. */
  const SLACK := 10.0

  predicate Prompt(r: Readings) {
    PromptWithin(r, SLACK)
  }

  function Oldest(hist: seq<Admission>, cut: nat, window: int, now: real): nat
    requires cut <= |hist|
  {
    FirstAfter(hist, cut, now - window as real)
  }

  lemma PruneTracks(d: Data, key: string, hist: seq<Admission>, cut: nat, window: int, last: real, now: real)
    requires Tracks(d, key, hist, cut, window, last) && last <= now && 0.0 <= now && window >= 0
    ensures Tracks(ZRemRangeByScore(d, key, 0.0, now - window as real).0, key, hist,
                   Oldest(hist, cut, window, now), window, now)
  {
    hide Outside, Items, Distinct;
    PruneDrops(hist, cut, now - window as real);
  }

  /** When the key has expired, nothing in its set can still count. */
  lemma ExpiredIsEmpty(d: Data, key: string, hist: seq<Admission>, cut: nat, window: int, now: real, at: real)
    requires Tracks(d, key, hist, cut, window, now) && window >= 0
    requires cut == Oldest(hist, cut, window, now) && at <= now + 10.0
    requires !Live(d, key, at)
    ensures cut == |hist|
  {
    assert forall i :: 0 <= i < |hist| ==> hist[i].at <= hist[|hist|-1].at;
  }

  /** What the check reads is exactly the admissions still in the window. */
  lemma CheckReads(d: Data, key: string, hist: seq<Admission>, cut: nat, window: int, r: Readings)
    requires Tracks(d, key, hist, cut, window, r.now) && window >= 0 && Prompt(r)
    requires cut == Oldest(hist, cut, window, r.now)
    ensures ZRangeByScore(d, key, r.now - window as real, r.now, r.range).1 == Names(hist[cut..])
    ensures Tracks(Drop(d, key, r.range), key, hist, cut, window, r.now)
  {
    hide SortByScore, MembersWithin;
    if Live(d, key, r.range) {
      assert Ascending(hist[cut..]);
      SortKeepsItems(hist[cut..]);
      RangeNames(hist[cut..], r.now - window as real, r.now);
    } else {
      ExpiredIsEmpty(d, key, hist, cut, window, r.now, r.range);
    }
  }

  lemma NewMemberLast(hist: seq<Admission>, m: Member)
    requires m !in Names(hist)
    ensures PlaceOf(Items(hist), m) == |hist|
  {
    assert forall i :: 0 <= i < |hist| ==> Items(hist)[i].0 == Names(hist)[i];
  }

  lemma FreshName(hist: seq<Admission>, cut: nat, a: Admission)
    requires cut <= |hist| && Distinct(hist + [a])
    ensures Stamped(a.at, a.tag) !in Names(hist[cut..])
  {
    var all := hist + [a];
    assert all[|hist|] == a;
    assert forall i :: 0 <= i < |hist| - cut ==> Names(hist[cut..])[i] == Stamped(all[cut + i].at, all[cut + i].tag);
  }

  lemma AddTracks(d: Data, key: string, hist: seq<Admission>, cut: nat, window: int, r: Readings, a: Admission)
    requires Tracks(d, key, hist, cut, window, r.now) && window >= 0 && Prompt(r)
    requires cut == Oldest(hist, cut, window, r.now)
    requires a.at == r.now && Distinct(hist + [a])
    ensures var d3 := ZAdd(d, key, [(Stamped(r.now, a.tag), r.now)], r.add).0;
            Tracks(Expire(d3, key, window + 10, r.expire).0, key, hist + [a], cut, window, r.now)
  {
    var x := (Stamped(r.now, a.tag), r.now);
    var e := RankedAt(d, key, r.add);
    if !Live(d, key, r.add) {
      ExpiredIsEmpty(d, key, hist, cut, window, r.now, r.add);
      assert Items(hist[cut..]) == [];
    }
    assert e.value.zs == Items(hist[cut..]);
    FreshName(hist, cut, a);
    NewMemberLast(hist[cut..], x.0);
    assert [x][..0] == [];
    assert ZPutAll(e.value.zs, [x]) == e.value.zs + [x];
    assert (hist + [a])[cut..] == hist[cut..] + [a];
    assert Items(hist[cut..] + [a]) == Items(hist[cut..]) + [x];
  }

  /** An entry that is there already is written over by itself. */
  lemma AddAgainTracks(d: Data, key: string, hist: seq<Admission>, cut: nat, window: int, r: Readings, a: Admission)
    requires Tracks(d, key, hist, cut, window, r.now) && window >= 1 && Prompt(r)
    requires cut == Oldest(hist, cut, window, r.now)
    requires a.at == r.now && a in hist
    ensures a in hist[cut..]
    ensures var d3 := ZAdd(d, key, [(Stamped(r.now, a.tag), r.now)], r.add).0;
            Tracks(Expire(d3, key, window + 10, r.expire).0, key, hist, cut, window, r.now)
  {
    var i :| 0 <= i < |hist| && hist[i] == a;
    assert hist[cut..][i - cut] == a;
    if !Live(d, key, r.add) {
      ExpiredIsEmpty(d, key, hist, cut, window, r.now, r.add);
    }
    var zs := Items(hist[cut..]);
    var x := (Stamped(r.now, a.tag), r.now);
    assert zs[i - cut] == x;
    assert RankedAt(d, key, r.add).value.zs == zs;
    assert ZPut(zs, x.0, x.1) == zs;
    assert [x][..0] == [];
    assert ZPutAll(zs, [x]) == zs;
  }

  /** The history after a check. */
  function Admitted(hist: seq<Admission>, v: Decision, r: Readings, tag: int, weight: nat): seq<Admission> {
    if v.allowed then hist + [Admission(r.now, tag, weight)] else hist
  }

  /** A check decides by the entries in the window, and what it has read is still the record. */
  lemma CheckDecides(meter: Meter, d: Data, key: string, hist: seq<Admission>, cut: nat, window: int, limit: int,
                     last: real, r: Readings, tag: int, weight: nat) returns (d2: Data)
    requires Tracks(d, key, hist, cut, window, last) && last <= r.now && Prompt(r) && window >= 0
    requires Weighed(meter, hist)
    ensures var c := Oldest(hist, cut, window, r.now);
            var (e, v) := WindowCheck(meter, d, key, weight, tag, limit, window, r);
            && (v.allowed <==> Total(hist[c..]) + weight <= limit)
            && (!v.allowed ==> v.retryAfter == RetryAfter(Names(hist[c..]), window, r.now))
            && Tracks(d2, key, hist, c, window, r.now)
            && e == if v.allowed
                    then Expire(ZAdd(d2, key, [(Stamped(r.now, tag), r.now)], r.add).0, key, window + 10, r.expire).0
                    else d2
  {
    hide ZAdd, Expire, RetryAfter, Load, Tracks;
    TracksFacts(d, key, hist, cut, window, last);
    var c := Oldest(hist, cut, window, r.now);
    var d1 := ZRemRangeByScore(d, key, 0.0, r.now - window as real).0;
    PruneTracks(d, key, hist, cut, window, last, r.now);
    OldestStays(hist, cut, window, r.now);
    CheckReads(d1, key, hist, c, window, r);
    WeighedSuffix(meter, hist, c);
    LoadIsTotal(meter, hist[c..]);
    d2 := Drop(d1, key, r.range);
  }

  /** One check with a new entry: it decides by the admissions in the window, and keeps the record. */
  lemma CheckStep(meter: Meter, d: Data, key: string, hist: seq<Admission>, cut: nat, window: int, limit: int,
                  last: real, r: Readings, tag: int, weight: nat)
    requires Tracks(d, key, hist, cut, window, last) && last <= r.now && Prompt(r) && window >= 0
    requires var a := Admission(r.now, tag, weight); Distinct(hist + [a]) && Weighed(meter, hist + [a])
    ensures var c := Oldest(hist, cut, window, r.now);
            var (e, v) := WindowCheck(meter, d, key, weight, tag, limit, window, r);
            && (v.allowed <==> Total(hist[c..]) + weight <= limit)
            && (!v.allowed ==> v.retryAfter == RetryAfter(Names(hist[c..]), window, r.now))
            && Tracks(e, key, Admitted(hist, v, r, tag, weight), c, window, r.now)
  {
    hide ZAdd, Expire, RetryAfter, Tracks, WindowCheck;
    TracksFacts(d, key, hist, cut, window, last);
    WeighedBefore(meter, hist, Admission(r.now, tag, weight));
    var d2 := CheckDecides(meter, d, key, hist, cut, window, limit, last, r, tag, weight);
    OldestStays(hist, cut, window, r.now);
    AddTracks(d2, key, hist, Oldest(hist, cut, window, r.now), window, r, Admission(r.now, tag, weight));
  }

  /** One check with an entry that the record has already: admitted or not, the record stays as it is. */
  lemma CheckAgain(meter: Meter, d: Data, key: string, hist: seq<Admission>, cut: nat, window: int, limit: int,
                   last: real, r: Readings, tag: int, weight: nat)
    requires Tracks(d, key, hist, cut, window, last) && last <= r.now && Prompt(r) && window >= 1
    requires Weighed(meter, hist) && Admission(r.now, tag, weight) in hist
    ensures var c := Oldest(hist, cut, window, r.now);
            var (e, v) := WindowCheck(meter, d, key, weight, tag, limit, window, r);
            && (v.allowed <==> Total(hist[c..]) + weight <= limit)
            && Tracks(e, key, hist, c, window, r.now)
            && Admission(r.now, tag, weight) in hist[c..]
  {
    hide ZAdd, Expire, RetryAfter, Tracks, WindowCheck;
    TracksFacts(d, key, hist, cut, window, last);
    var d2 := CheckDecides(meter, d, key, hist, cut, window, limit, last, r, tag, weight);
    OldestStays(hist, cut, window, r.now);
    AddAgainTracks(d2, key, hist, Oldest(hist, cut, window, r.now), window, r, Admission(r.now, tag, weight));
  }

  lemma WeighedBefore(meter: Meter, hist: seq<Admission>, a: Admission)
    requires Weighed(meter, hist + [a])
    ensures Weighed(meter, hist)
  {
    assert forall i :: 0 <= i < |hist| ==> (hist + [a])[i] == hist[i];
  }

  /** After an admission the key expires `window + 10` seconds after its expiry was set. */
  lemma AdmissionSetsExpiry(meter: Meter, d: Data, key: string, weight: int, tag: int, limit: int, window: int, r: Readings)
    requires WindowCheck(meter, d, key, weight, tag, limit, window, r).1.allowed
    ensures var e := WindowCheck(meter, d, key, weight, tag, limit, window, r).0;
            key in e && e[key].expires == Some(r.expire + (window + 10) as real)
  {
    hide ZRangeByScore, ZRemRangeByScore, ZPutAll, Load;
  }

  lemma OldestStays(hist: seq<Admission>, cut: nat, window: int, now: real)
    requires cut <= |hist|
    ensures Oldest(hist, Oldest(hist, cut, window, now), window, now) == Oldest(hist, cut, window, now)
  {
  }

  lemma WeighedSuffix(meter: Meter, hist: seq<Admission>, c: nat)
    requires Weighed(meter, hist) && c <= |hist|
    ensures Weighed(meter, hist[c..])
  {
  }

  /** An admitted request keeps every window within the limit. */
  lemma AdmissionKeepsBound(hist: seq<Admission>, cut: nat, window: int, limit: int, a: Admission)
    requires Bounded(hist, window, limit) && cut <= |hist|
    requires forall i :: 0 <= i < cut ==> hist[i].at <= a.at - window as real
    requires Total(hist[cut..]) + a.weight <= limit
    ensures Bounded(hist + [a], window, limit)
  {
    var all := hist + [a];
    assert all[..|hist|] == hist;
    forall t: real ensures InWindow(all, window, t) <= Max(limit, 0) {
      assert InWindow(hist, window, t) <= Max(limit, 0);
      if a.at <= t {
        WithinLate(hist, cut, t - window as real, t);
      }
    }
  }

  // ----- Runs -----

  datatype Event = Check(tag: int, weight: nat, r: Readings) | Other(op: Op, at: real)

  datatype Log = Log(data: Data, hist: seq<Admission>)

  function Play(meter: Meter, key: string, limit: int, window: int, d: Data, es: seq<Event>): Log {
    if es == [] then Log(d, []) else
      var n := |es| - 1;
      var log := Play(meter, key, limit, window, d, es[..n]);
      match es[n]
      case Check(tag, weight, r) =>
        var (e, v) := WindowCheck(meter, log.data, key, weight, tag, limit, window, r);
        Log(e, Admitted(log.hist, v, r, tag, weight))
      case Other(op, at) => Log(Step(log.data, op, at).0, log.hist)
  }

  /** Someone else's operation: on another key, or a listing of all keys. */
  predicate Elsewhere(op: Op, key: string) {
    op.OpKeys? || (!op.OpFlush? && op.key != key)
  }

  function StartOf(e: Event): real {
    match e
    case Check(_, _, r) => r.now
    case Other(_, at) => at
  }

  function EndOf(e: Event): real {
    match e
    case Check(_, _, r) => r.expire
    case Other(_, at) => at
  }

  /** One operation after another in time, checks within the given slack, weighed by the meter, all else on other keys. */
  ghost predicate Timely(meter: Meter, key: string, es: seq<Event>, slack: real) {
    && (forall i :: 0 <= i < |es| ==> 0.0 <= StartOf(es[i]) <= EndOf(es[i]))
    && (forall i, j :: 0 <= i < j < |es| ==> EndOf(es[i]) <= StartOf(es[j]))
    && (forall i :: 0 <= i < |es| && es[i].Check? ==> PromptWithin(es[i].r, slack) && WeighsOne(meter, es[i]))
    && (forall i :: 0 <= i < |es| && es[i].Other? ==> Elsewhere(es[i].op, key))
  }

  /** No two checks of the run write the same member. */
  ghost predicate DistinctChecks(es: seq<Event>) {
    forall i, j :: 0 <= i < j < |es| && es[i].Check? && es[j].Check? ==>
      es[i].r.now != es[j].r.now || es[i].tag != es[j].tag
  }

  /** The runs for which the bound holds: prompt checks with distinct entries. */
  ghost predicate Proper(meter: Meter, key: string, es: seq<Event>) {
    Timely(meter, key, es, SLACK) && DistinctChecks(es)
  }

  predicate WeighsOne(meter: Meter, e: Event)
    requires e.Check?
  {
    if meter.Requests? then e.weight == 1 else e.tag == e.weight
  }

  lemma OtherKeepsKey(d: Data, op: Op, at: real, key: string)
    requires Elsewhere(op, key)
    ensures var e := Step(d, op, at).0;
            if key in e then key in d && e[key] == d[key] else key !in d || Past(d[key], at)
  {
  }

  lemma OtherTracks(d: Data, op: Op, at: real, key: string, hist: seq<Admission>, cut: nat, window: int, last: real)
    returns (c: nat)
    requires Tracks(d, key, hist, cut, window, last) && last <= at && Elsewhere(op, key) && window >= 0
    ensures Tracks(Step(d, op, at).0, key, hist, c, window, at)
  {
    hide Step;
    OtherKeepsKey(d, op, at, key);
    c := if key in Step(d, op, at).0 then cut else |hist|;
  }

  /** Where the admissions of a run come from. */
  ghost predicate FromChecks(hist: seq<Admission>, es: seq<Event>) {
    forall k :: 0 <= k < |hist| ==> CameFrom(hist[k], es)
  }

  ghost predicate CameFrom(a: Admission, es: seq<Event>) {
    exists i :: 0 <= i < |es| && es[i].Check? && a == EntryOf(es[i])
  }

  function EntryOf(e: Event): Admission
    requires e.Check?
  {
    Admission(e.r.now, e.tag, e.weight)
  }

  lemma NewEntry(meter: Meter, key: string, es: seq<Event>, hist: seq<Admission>)
    requires es != [] && Timely(meter, key, es, SLACK) && es[|es|-1].Check?
    requires FromChecks(hist, es[..|es|-1]) && Distinct(hist)
    ensures var a := EntryOf(es[|es|-1]);
            && Weighed(meter, hist + [a]) && FromChecks(hist + [a], es) && FromChecks(hist, es)
            && (a !in hist ==> Distinct(hist + [a]))
            && (DistinctChecks(es) ==> a !in hist)
  {
  }

  lemma RunPrefix(meter: Meter, key: string, es: seq<Event>, slack: real, n: nat)
    requires n <= |es| && Timely(meter, key, es, slack)
    ensures Timely(meter, key, es[..n], slack)
    ensures DistinctChecks(es) ==> DistinctChecks(es[..n])
  {
  }

  lemma RunTimes(meter: Meter, key: string, es: seq<Event>, slack: real, n: nat)
    requires n < |es| && Timely(meter, key, es, slack)
    ensures 0.0 <= StartOf(es[n]) <= EndOf(es[n])
    ensures n > 0 ==> EndOf(es[n-1]) <= StartOf(es[n])
    ensures es[n].Check? ==> PromptWithin(es[n].r, slack) && WeighsOne(meter, es[n])
    ensures es[n].Other? ==> Elsewhere(es[n].op, key)
  {
  }

  /**
   Over every run of prompt checks the sorted set is the record of the admissions, repetitions apart, and those keep the
   bound.  With distinct entries there are no repetitions.
   */
  lemma {:induction false} RunKeeps(meter: Meter, key: string, limit: int, window: int, d: Data, es: seq<Event>, now: real)
    returns (cut: nat)
    requires key !in d && window >= 0 && Timely(meter, key, es, SLACK) && (window >= 1 || DistinctChecks(es))
    requires 0.0 <= now && (es != [] ==> EndOf(es[|es|-1]) <= now)
    ensures var log := Play(meter, key, limit, window, d, es);
            && Tracks(log.data, key, Core(log.hist), cut, window, now)
            && Bounded(Core(log.hist), window, limit) && FromChecks(Core(log.hist), es)
            && (DistinctChecks(es) ==> Core(log.hist) == log.hist)
  {
    hide WindowCheck, Step, Timely, DistinctChecks, Tracks, Bounded, FromChecks, Core;
    if es == [] {
      cut := 0;
      NothingYet(d, key, window, limit, now);
    } else {
      var n := |es| - 1;
      var e := es[n];
      var prev := Play(meter, key, limit, window, d, es[..n]);
      RunPrefix(meter, key, es, SLACK, n);
      RunTimes(meter, key, es, SLACK, n);
      var last := StartOf(e);
      cut := RunKeeps(meter, key, limit, window, d, es[..n], last);
      match e {
        case Other(op, at) =>
          cut := OtherTracks(prev.data, op, at, key, Core(prev.hist), cut, window, last);
          TracksLater(Step(prev.data, op, at).0, key, Core(prev.hist), cut, window, at, now);
          MoreEvents(Core(prev.hist), es);
        case Check(tag, weight, r) =>
          cut := RunStep(meter, key, limit, window, prev, es, cut, now);
      }
    }
  }

  lemma RunStep(meter: Meter, key: string, limit: int, window: int, prev: Log, es: seq<Event>, cut: nat, now: real)
    returns (c: nat)
    requires es != [] && Timely(meter, key, es, SLACK) && es[|es|-1].Check? && Prompt(es[|es|-1].r)
    requires window >= 0 && (window >= 1 || DistinctChecks(es))
    requires Tracks(prev.data, key, Core(prev.hist), cut, window, es[|es|-1].r.now) && es[|es|-1].r.now <= now
    requires Bounded(Core(prev.hist), window, limit) && FromChecks(Core(prev.hist), es[..|es|-1])
    requires DistinctChecks(es) ==> Core(prev.hist) == prev.hist
    ensures var e := es[|es|-1];
            var (f, v) := WindowCheck(meter, prev.data, key, e.weight, e.tag, limit, window, e.r);
            var hist := Admitted(prev.hist, v, e.r, e.tag, e.weight);
            && Tracks(f, key, Core(hist), c, window, now) && Bounded(Core(hist), window, limit)
            && FromChecks(Core(hist), es) && (DistinctChecks(es) ==> Core(hist) == hist)
  {
    hide WindowCheck, Timely, DistinctChecks, Tracks, Bounded, FromChecks, Core;
    var e := es[|es|-1];
    var a := EntryOf(e);
    var core := Core(prev.hist);
    TracksFacts(prev.data, key, core, cut, window, e.r.now);
    NewEntry(meter, key, es, core);
    WeighedBefore(meter, core, a);
    CoreStep(prev.hist, a);
    c := Oldest(core, cut, window, e.r.now);
    var (f, v) := WindowCheck(meter, prev.data, key, e.weight, e.tag, limit, window, e.r);
    if a in core {
      CheckAgain(meter, prev.data, key, core, cut, window, limit, e.r.now, e.r, e.tag, e.weight);
      TracksLater(f, key, core, c, window, e.r.now, now);
    } else {
      CheckStep(meter, prev.data, key, core, cut, window, limit, e.r.now, e.r, e.tag, e.weight);
      TracksLater(f, key, Admitted(core, v, e.r, e.tag, e.weight), c, window, e.r.now, now);
      if v.allowed {
        AdmissionKeepsBound(core, c, window, limit, a);
      }
    }
  }

  lemma TracksFacts(d: Data, key: string, hist: seq<Admission>, cut: nat, window: int, last: real)
    requires Tracks(d, key, hist, cut, window, last)
    ensures cut <= |hist| && Distinct(hist) && Ascending(hist)
    ensures forall i :: 0 <= i < cut ==> hist[i].at <= last - window as real
    ensures forall i :: 0 <= i < |hist| ==> 0.0 <= hist[i].at <= last
  {
  }

  lemma TracksLater(d: Data, key: string, hist: seq<Admission>, cut: nat, window: int, last: real, now: real)
    requires Tracks(d, key, hist, cut, window, last) && last <= now
    ensures Tracks(d, key, hist, cut, window, now)
  {
  }

  lemma NothingYet(d: Data, key: string, window: int, limit: int, now: real)
    requires key !in d
    ensures Core([]) == [] && Tracks(d, key, [], 0, window, now) && Bounded([], window, limit) && FromChecks([], [])
  {
  }

  lemma MoreEvents(hist: seq<Admission>, es: seq<Event>)
    requires es != [] && FromChecks(hist, es[..|es|-1])
    ensures FromChecks(hist, es)
  {
  }

  /**
   The limit is never exceeded: in every run, every half-open window of `window` seconds holds admitted weight at
   most the limit, whether the meter counts requests or tokens.
   */
  lemma WindowNeverExceedsLimit(meter: Meter, key: string, limit: int, window: int, d: Data, es: seq<Event>, t: real)
    requires key !in d && window >= 0 && Proper(meter, key, es)
    ensures InWindow(Play(meter, key, limit, window, d, es).hist, window, t) <= Max(limit, 0)
  {
    hide Timely, DistinctChecks, Core;
    var now := 0.0;
    if es != [] {
      RunTimes(meter, key, es, SLACK, |es| - 1);
      now := EndOf(es[|es|-1]);
    }
    var _ := RunKeeps(meter, key, limit, window, d, es, now);
  }

  /** Where a check after a run stands. */
  lemma CheckAfterTimelyRun(meter: Meter, key: string, limit: int, window: int, d: Data, es: seq<Event>, e: Event)
    returns (cut: nat)
    requires key !in d && window >= 0 && Timely(meter, key, es + [e], SLACK) && e.Check?
    requires window >= 1 || DistinctChecks(es + [e])
    ensures var log := Play(meter, key, limit, window, d, es);
            && Tracks(log.data, key, Core(log.hist), cut, window, e.r.now) && Bounded(Core(log.hist), window, limit)
            && Weighed(meter, Core(log.hist) + [EntryOf(e)]) && Prompt(e.r) && WeighsOne(meter, e)
            && (DistinctChecks(es + [e]) ==> Core(log.hist) == log.hist && Distinct(log.hist + [EntryOf(e)]))
  {
    hide Play, Timely, DistinctChecks, Tracks, Bounded, Core;
    var all := es + [e];
    assert all[..|all|-1] == es;
    RunPrefix(meter, key, all, SLACK, |es|);
    assert all[..|es|] == es;
    RunTimes(meter, key, all, SLACK, |es|);
    assert es != [] ==> all[|es|-1] == es[|es|-1];
    cut := RunKeeps(meter, key, limit, window, d, es, e.r.now);
    var log := Play(meter, key, limit, window, d, es);
    TracksFacts(log.data, key, Core(log.hist), cut, window, e.r.now);
    NewEntry(meter, key, all, Core(log.hist));
  }

  lemma CheckAfterRun(meter: Meter, key: string, limit: int, window: int, d: Data, es: seq<Event>, e: Event)
    returns (cut: nat)
    requires key !in d && window >= 0 && Proper(meter, key, es + [e]) && e.Check?
    ensures var log := Play(meter, key, limit, window, d, es);
            && Tracks(log.data, key, log.hist, cut, window, e.r.now) && Bounded(log.hist, window, limit)
            && Distinct(log.hist + [EntryOf(e)]) && Weighed(meter, log.hist + [EntryOf(e)]) && Prompt(e.r)
            && WeighsOne(meter, e)
  {
    hide Play, Timely, DistinctChecks, Tracks, Bounded, Core;
    cut := CheckAfterTimelyRun(meter, key, limit, window, d, es, e);
  }

  /** The weight in the window is the weight of what has not left it. */
  lemma InWindowIsTotal(hist: seq<Admission>, cut: nat, window: int, now: real)
    requires cut <= |hist| && Ascending(hist)
    requires forall i :: 0 <= i < cut ==> hist[i].at <= now - window as real
    requires forall i :: 0 <= i < |hist| ==> hist[i].at <= now
    ensures InWindow(hist, window, now) == Total(hist[Oldest(hist, cut, window, now)..])
  {
    var c := Oldest(hist, cut, window, now);
    WithinLate(hist, c, now - window as real, now);
    forall i | c <= i < |hist| ensures now - window as real < hist[i].at <= now {
      assert hist[c].at <= hist[i].at;
    }
    WithinAll(hist, c, now - window as real, now);
  }

  /**
   Nor is a request refused without need: after any run, a check is admitted exactly when the weight admitted in the
   window that ends now, plus its own, fits the limit.
   */
  lemma AdmittedExactly(meter: Meter, key: string, limit: int, window: int, d: Data, es: seq<Event>, e: Event)
    requires key !in d && window >= 0 && Proper(meter, key, es + [e]) && e.Check?
    ensures var log := Play(meter, key, limit, window, d, es);
            WindowCheck(meter, log.data, key, e.weight, e.tag, limit, window, e.r).1.allowed <==>
            InWindow(log.hist, window, e.r.now) + e.weight <= limit
  {
    hide Play, Timely, DistinctChecks, Bounded, WindowCheck, Tracks;
    var log := Play(meter, key, limit, window, d, es);
    var cut := CheckAfterRun(meter, key, limit, window, d, es, e);
    TracksFacts(log.data, key, log.hist, cut, window, e.r.now);
    CheckStep(meter, log.data, key, log.hist, cut, window, limit, e.r.now, e.r, e.tag, e.weight);
    InWindowIsTotal(log.hist, cut, window, e.r.now);
  }
}
