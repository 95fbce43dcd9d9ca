/**
 The ban on addresses with too many failed logins, security.py: per address, the times of recent 401 answers and, once
 there are enough of them, the end of a ban.  In this file requests are handled one at a time; IpBanOverlap.dfy lets them
 overlap.
 */
module IpBan {
  import opened Prelude
  import opened RateLimits
  import opened RateWindow

  datatype Guard = Guard(failures: map<string, seq<real>>, bans: map<string, real>)

  datatype Limits = Limits(threshold: int, duration: int)

  function FailuresOf(g: Guard, ip: string): seq<real> {
    if ip in g.failures then g.failures[ip] else []
  }

  /** A ban until 0.0 reads as no ban. */
  predicate HasBan(g: Guard, ip: string) {
    ip in g.bans && g.bans[ip] != 0.0
  }

  datatype Admittance = Banned(retryAfter: int) | LetIn

  /** Before the request is handled; the clock is read at `now`, and again at `again`. */
  function Admit(g: Guard, ip: string, now: real, again: real): (Guard, Admittance) {
    if HasBan(g, ip) && now < g.bans[ip] then (g, Banned(ToInt(g.bans[ip] - again)))
    else if HasBan(g, ip) && again >= g.bans[ip] then (Guard(g.failures - {ip}, g.bans - {ip}), LetIn)
    else (g, LetIn)
  }

  function Recent(times: seq<real>, now: real, window: int): seq<real> {
    if times == [] then [] else
      var n := |times| - 1;
      Recent(times[..n], now, window) + if now - times[n] < window as real then [times[n]] else []
  }

  /** After the request: a 401 on a login path is recorded, and may start a ban. */
  function Record(g: Guard, lim: Limits, ip: string, now: real): Guard {
    var times := Recent(FailuresOf(g, ip), now, lim.duration) + [now];
    Guard(g.failures[ip := times],
          if |times| >= lim.threshold then g.bans[ip := now + lim.duration as real] else g.bans)
  }

  function Unban(g: Guard, ip: string): (Guard, bool) {
    (Guard(g.failures - {ip}, g.bans - {ip}), ip in g.bans)
  }

  /** One request; `refused` says that it is answered 401 on a login path. */
  datatype Request = Request(ip: string, refused: bool, now: real, again: real, after: real)

  function Handle(g: Guard, lim: Limits, q: Request): (Guard, Admittance) {
    var (h, a) := Admit(g, q.ip, q.now, q.again);
    (if a.LetIn? && q.refused then Record(h, lim, q.ip, q.after) else h, a)
  }

  class BruteForceProtection {
    const threshold: int
    const banDuration: int
    var ipFailures: map<string, seq<real>>
    var ipBans: map<string, real>

    ghost function View(): Guard
      reads this
    {
      Guard(ipFailures, ipBans)
    }

    constructor (threshold: int, banDuration: int)
      ensures View() == Guard(map[], map[])
      ensures this.threshold == threshold && this.banDuration == banDuration
    {
      this.threshold, this.banDuration := threshold, banDuration;
      ipFailures, ipBans := map[], map[];
    }

    method Dispatch(q: Request) returns (a: Admittance)
      modifies this
      ensures (View(), a) == Handle(old(View()), Limits(threshold, banDuration), q)
    {
      if q.ip in ipBans {
        var banUntil := ipBans[q.ip];
        if banUntil != 0.0 && q.now < banUntil {
          return Banned(ToInt(banUntil - q.again));
        } else if banUntil != 0.0 && q.again >= banUntil {
          ipBans := ipBans - {q.ip};
          ipFailures := ipFailures - {q.ip};
        }
      }
      if q.refused {
        RecordFailure(q.ip, q.after);
      }
      a := LetIn;
    }

    method RecordFailure(ip: string, now: real)
      modifies this
      ensures View() == Record(old(View()), Limits(threshold, banDuration), ip, now)
    {
      var times := if ip in ipFailures then ipFailures[ip] else [];
      var kept: seq<real> := [];
      var i := 0;
      while i < |times|
        invariant 0 <= i <= |times| && kept == Recent(times[..i], now, banDuration)
        invariant View() == old(View())
      {
        assert times[..i+1][..i] == times[..i];
        if now - times[i] < banDuration as real {
          kept := kept + [times[i]];
        }
        i := i + 1;
      }
      assert times[..i] == times;
      kept := kept + [now];
      ipFailures := ipFailures[ip := kept];
      if |kept| >= threshold {
        ipBans := ipBans[ip := now + banDuration as real];
      }
    }

    method UnbanIp(ip: string) returns (removed: bool)
      modifies this
      ensures (View(), removed) == Unban(old(View()), ip)
    {
      removed := ip in ipBans;
      ipBans := ipBans - {ip};
      ipFailures := ipFailures - {ip};
    }
  }

  // ----- Runs -----

  /** The guard, and every 401 recorded for one address, each of weight one. */
  datatype Watch = Watch(guard: Guard, hist: seq<Admission>)

  function Play(lim: Limits, ip: string, qs: seq<Request>): Watch {
    if qs == [] then Watch(Guard(map[], map[]), []) else
      var n := |qs| - 1;
      Next(lim, ip, Play(lim, ip, qs[..n]), qs[n])
  }

  function Next(lim: Limits, ip: string, log: Watch, q: Request): Watch {
    var (g, a) := Handle(log.guard, lim, q);
    Watch(g, if q.ip == ip && a.LetIn? && q.refused then log.hist + [Admission(q.after, 0, 1)] else log.hist)
  }

  /** Requests of all addresses, handled one at a time; the clock counts seconds since 1970. */
  ghost predicate OneAtATime(qs: seq<Request>) {
    && (forall i :: 0 <= i < |qs| ==> 0.0 < qs[i].now <= qs[i].again <= qs[i].after)
    && (forall i, j :: 0 <= i < j < |qs| ==> qs[i].after <= qs[j].now)
  }

  function Times(hist: seq<Admission>): seq<real> {
    seq(|hist|, i requires 0 <= i < |hist| => hist[i].at)
  }

  /** The failure list is the recorded 401s from `cut` on, and reaches the threshold only under a ban. */
  ghost predicate Inv(lim: Limits, ip: string, log: Watch, cut: nat, last: real) {
    && cut <= |log.hist| && Ascending(log.hist) && Weighed(Requests, log.hist)
    && FailuresOf(log.guard, ip) == Times(log.hist[cut..])
    && (forall i :: 0 <= i < |log.hist| ==> 0.0 < log.hist[i].at <= last)
    && (forall i :: 0 <= i < cut ==> log.hist[i].at <= last - lim.duration as real)
    && |log.hist| - cut <= lim.threshold
    && (if ip in log.guard.bans then
          && log.hist != [] && |log.hist| - cut == lim.threshold
          && log.guard.bans[ip] == log.hist[|log.hist|-1].at + lim.duration as real
        else |log.hist| - cut < lim.threshold)
    && Bounded(log.hist, lim.duration, lim.threshold)
  }

  lemma {:induction false} RecentConcat(xs: seq<real>, ys: seq<real>, now: real, window: int)
    ensures Recent(xs + ys, now, window) == Recent(xs, now, window) + Recent(ys, now, window)
    decreases |ys|
  {
    if ys == [] {
      assert xs + ys == xs;
    } else {
      assert (xs + ys)[..|xs + ys|-1] == xs + ys[..|ys|-1];
      RecentConcat(xs, ys[..|ys|-1], now, window);
    }
  }

  lemma {:induction false} RecentAll(times: seq<real>, now: real, window: int)
    requires forall i :: 0 <= i < |times| ==> now - times[i] < window as real
    ensures Recent(times, now, window) == times
  {
    if times != [] {
      RecentAll(times[..|times|-1], now, window);
    }
  }

  lemma {:induction false} RecentNone(times: seq<real>, now: real, window: int)
    requires forall i :: 0 <= i < |times| ==> now - times[i] >= window as real
    ensures Recent(times, now, window) == []
  {
    if times != [] {
      RecentNone(times[..|times|-1], now, window);
    }
  }

  lemma RecentIsSuffix(hist: seq<Admission>, cut: nat, now: real, window: int)
    requires Ascending(hist) && cut <= |hist|
    ensures Recent(Times(hist[cut..]), now, window) == Times(hist[FirstAfter(hist, cut, now - window as real)..])
  {
    hide Recent;
    var c := FirstAfter(hist, cut, now - window as real);
    var old', young := Times(hist[cut..c]), Times(hist[c..]);
    assert Times(hist[cut..]) == old' + young;
    RecentConcat(old', young, now, window);
    RecentNone(old', now, window);
    assert forall i :: c <= i < |hist| ==> hist[c].at <= hist[i].at;
    RecentAll(young, now, window);
    assert [] + young == young;
  }

  lemma AdmitKeeps(lim: Limits, ip: string, log: Watch, cut: nat, last: real, q: Request) returns (c: nat)
    requires lim.threshold >= 1 && lim.duration >= 0 && Inv(lim, ip, log, cut, last)
    requires q.ip == ip && last <= q.now <= q.again <= q.after
    ensures var (g, a) := Admit(log.guard, ip, q.now, q.again);
            Inv(lim, ip, Watch(g, log.hist), c, q.again) && (a.LetIn? ==> ip !in g.bans)
  {
    hide Bounded;
    c := cut;
    if HasBan(log.guard, ip) && q.again >= log.guard.bans[ip] && q.now >= log.guard.bans[ip] {
      c := |log.hist|;
      forall i | 0 <= i < c ensures log.hist[i].at <= q.again - lim.duration as real {
        assert log.hist[i].at <= log.hist[|log.hist|-1].at;
      }
    }
  }

  /** What the record leaves: the failures still recent and the new one. */
  lemma RecordedList(lim: Limits, ip: string, g: Guard, hist: seq<Admission>, cut: nat, now: real)
    requires cut <= |hist| && Ascending(hist) && FailuresOf(g, ip) == Times(hist[cut..])
    ensures var c := FirstAfter(hist, cut, now - lim.duration as real);
            && FailuresOf(Record(g, lim, ip, now), ip) == Times((hist + [Admission(now, 0, 1)])[c..])
            && |Recent(FailuresOf(g, ip), now, lim.duration)| == |hist| - c
  {
    hide Recent;
    var a := Admission(now, 0, 1);
    var c := FirstAfter(hist, cut, now - lim.duration as real);
    RecentIsSuffix(hist, cut, now, lim.duration);
    assert (hist + [a])[c..] == hist[c..] + [a];
    assert Times(hist[c..] + [a]) == Times(hist[c..]) + [now];
  }

  lemma RecordKeeps(lim: Limits, ip: string, log: Watch, cut: nat, last: real, now: real) returns (c: nat)
    requires lim.threshold >= 1 && lim.duration >= 0 && Inv(lim, ip, log, cut, last) && last <= now && 0.0 < now
    requires ip !in log.guard.bans
    ensures Inv(lim, ip, Watch(Record(log.guard, lim, ip, now), log.hist + [Admission(now, 0, 1)]), c, now)
  {
    hide Bounded, Weighed, Recent, Record, Times, FailuresOf;
    var a := Admission(now, 0, 1);
    c := FirstAfter(log.hist, cut, now - lim.duration as real);
    RecordedList(lim, ip, log.guard, log.hist, cut, now);
    WeighedOne(log.hist, a);
    WindowLimited(lim, log.hist, c, a);
    BanAgrees(log.guard, lim, ip, now, |log.hist| - c + 1);
  }

  lemma WindowLimited(lim: Limits, hist: seq<Admission>, c: nat, a: Admission)
    requires c <= |hist| && |hist| - c < lim.threshold && a.weight == 1
    requires Weighed(Requests, hist + [a]) && Bounded(hist, lim.duration, lim.threshold)
    requires forall i :: 0 <= i < c ==> hist[i].at <= a.at - lim.duration as real
    ensures Bounded(hist + [a], lim.duration, lim.threshold)
  {
    hide Bounded;
    WeighedBefore(Requests, hist, a);
    WeighedSuffix(Requests, hist, c);
    TotalIsLength(hist[c..]);
    AdmissionKeepsBound(hist, c, lim.duration, lim.threshold, a);
  }

  lemma BanAgrees(g: Guard, lim: Limits, ip: string, now: real, n: nat)
    requires n == |Recent(FailuresOf(g, ip), now, lim.duration)| + 1
    ensures var h := Record(g, lim, ip, now);
            if n >= lim.threshold then ip in h.bans && h.bans[ip] == now + lim.duration as real
            else h.bans == g.bans
  {
  }

  lemma WeighedOne(hist: seq<Admission>, a: Admission)
    requires Weighed(Requests, hist) && a.weight == 1
    ensures Weighed(Requests, hist + [a])
  {
  }

  lemma LaterKeeps(lim: Limits, ip: string, log: Watch, cut: nat, last: real, now: real)
    requires Inv(lim, ip, log, cut, last) && last <= now
    ensures Inv(lim, ip, log, cut, now)
  {
  }

  /** Requests from other addresses leave this one's failures and ban alone. */
  lemma OtherAddress(lim: Limits, ip: string, g: Guard, q: Request)
    requires q.ip != ip
    ensures var h := Handle(g, lim, q).0;
            && FailuresOf(h, ip) == FailuresOf(g, ip)
            && (ip in h.bans <==> ip in g.bans) && (ip in g.bans ==> h.bans[ip] == g.bans[ip])
  {
  }

  lemma NextKeeps(lim: Limits, ip: string, log: Watch, cut: nat, last: real, q: Request) returns (c: nat)
    requires lim.threshold >= 1 && lim.duration >= 0 && Inv(lim, ip, log, cut, last)
    requires last <= q.now <= q.again <= q.after && 0.0 < q.now
    ensures Inv(lim, ip, Next(lim, ip, log, q), c, q.after)
  {
    hide Admit, Record;
    if q.ip != ip {
      OtherAddress(lim, ip, log.guard, q);
      c := cut;
      LaterKeeps(lim, ip, log, cut, last, q.after);
    } else {
      c := AdmitKeeps(lim, ip, log, cut, last, q);
      var (g, a) := Admit(log.guard, q.ip, q.now, q.again);
      if a.LetIn? && q.refused {
        c := RecordKeeps(lim, ip, Watch(g, log.hist), c, q.again, q.after);
      } else {
        LaterKeeps(lim, ip, Watch(g, log.hist), c, q.again, q.after);
      }
    }
  }

  lemma {:induction false} RunKeeps(lim: Limits, ip: string, qs: seq<Request>) returns (cut: nat)
    requires lim.threshold >= 1 && lim.duration >= 0 && OneAtATime(qs)
    ensures Inv(lim, ip, Play(lim, ip, qs), cut, if qs == [] then 0.0 else qs[|qs|-1].after)
  {
    hide Next, Inv;
    if qs == [] {
      cut := 0;
      NothingYet(lim, ip);
    } else {
      var n := |qs| - 1;
      assert OneAtATime(qs[..n]);
      cut := RunKeeps(lim, ip, qs[..n]);
      assert n > 0 ==> qs[n-1].after <= qs[n].now;
      cut := NextKeeps(lim, ip, Play(lim, ip, qs[..n]), cut, if n == 0 then 0.0 else qs[n-1].after, qs[n]);
    }
  }

  lemma NothingYet(lim: Limits, ip: string)
    requires lim.threshold >= 1
    ensures Inv(lim, ip, Watch(Guard(map[], map[]), []), 0, 0.0)
  {
  }

  // ----- Theorems -----

  /** A failure list never grows past the threshold. */
  lemma FailureListBounded(lim: Limits, ip: string, qs: seq<Request>)
    requires lim.threshold >= 1 && lim.duration >= 0 && OneAtATime(qs)
    ensures |FailuresOf(Play(lim, ip, qs).guard, ip)| <= lim.threshold
  {
    hide Bounded;
    var cut := RunKeeps(lim, ip, qs);
  }

  /** Every half-open window as long as a ban holds at most `threshold` recorded 401s from one address. */
  lemma WindowHoldsAtMostThreshold(lim: Limits, ip: string, qs: seq<Request>, t: real)
    requires lim.threshold >= 1 && lim.duration >= 0 && OneAtATime(qs)
    ensures InWindow(Play(lim, ip, qs).hist, lim.duration, t) <= lim.threshold
  {
    var cut := RunKeeps(lim, ip, qs);
    assert InWindow(Play(lim, ip, qs).hist, lim.duration, t) <= Max(lim.threshold, 0);
  }

  /** From the 401 that reaches the threshold on, the address is turned away until a whole ban has passed. */
  lemma FullListIsTurnedAway(lim: Limits, ip: string, qs: seq<Request>, now: real, again: real)
    requires lim.threshold >= 1 && lim.duration >= 0 && OneAtATime(qs)
    requires |FailuresOf(Play(lim, ip, qs).guard, ip)| >= lim.threshold
    requires (if qs == [] then 0.0 else qs[|qs|-1].after) <= now <= again
    ensures var log := Play(lim, ip, qs);
            && log.hist != []
            && (Admit(log.guard, ip, now, again).1.Banned? <==> now < log.hist[|log.hist|-1].at + lim.duration as real)
  {
    hide Bounded;
    var cut := RunKeeps(lim, ip, qs);
  }

  /**
   Who is turned away, after any run: exactly an address with a full list whose last recorded 401 is not yet a whole ban
   ago, and the seconds it is told are the whole ones left until then.
   */
  lemma TurnedAwayExactly(lim: Limits, ip: string, qs: seq<Request>, now: real, again: real)
    requires lim.threshold >= 1 && lim.duration >= 0 && OneAtATime(qs)
    requires (if qs == [] then 0.0 else qs[|qs|-1].after) <= now <= again
    ensures var log := Play(lim, ip, qs);
            var a := Admit(log.guard, ip, now, again).1;
            && (|FailuresOf(log.guard, ip)| >= lim.threshold ==> log.hist != [])
            && (a.Banned? <==> |FailuresOf(log.guard, ip)| >= lim.threshold
                               && now < log.hist[|log.hist|-1].at + lim.duration as real)
            && (a.Banned? ==>
                  var left := log.hist[|log.hist|-1].at + lim.duration as real - again;
                  left >= 0.0 ==> a.retryAfter as real <= left < (a.retryAfter + 1) as real)
  {
    hide Bounded;
    var cut := RunKeeps(lim, ip, qs);
  }

  /** An unbanned address is let in at once with no failures against it, and no other address is touched. */
  lemma UnbannedIsLetIn(g: Guard, ip: string, now: real, again: real, other: string)
    ensures var (h, removed) := Unban(g, ip);
            && (removed <==> ip in g.bans)
            && Admit(h, ip, now, again) == (h, LetIn) && FailuresOf(h, ip) == []
            && (other != ip ==> FailuresOf(h, other) == FailuresOf(g, other)
                                && Admit(h, other, now, again).1 == Admit(g, other, now, again).1)
  {
  }

  /** A threshold of at least one is exactly what the list bound needs. */
  lemma FailureListBoundedExactly(lim: Limits, ip: string)
    requires lim.duration >= 0
    ensures (forall qs :: OneAtATime(qs) ==> |FailuresOf(Play(lim, ip, qs).guard, ip)| <= lim.threshold)
            <==> lim.threshold >= 1
  {
    if lim.threshold >= 1 {
      forall qs | OneAtATime(qs) ensures |FailuresOf(Play(lim, ip, qs).guard, ip)| <= lim.threshold {
        FailureListBounded(lim, ip, qs);
      }
    } else {
      var q := Request(ip, true, 1.0, 1.0, 1.0);
      assert [q][..0] == [];
      assert OneAtATime([q]);
      assert |FailuresOf(Play(lim, ip, [q]).guard, ip)| == 1;
    }
  }
}
