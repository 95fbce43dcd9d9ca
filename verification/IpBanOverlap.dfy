/**
 Overlapping requests from one address, security.py.  Between the ban check and the look at the answer a request waits
 for its handler, and others may move.  A request is therefore two steps, `Enter` and `Leave`, and a run is any
 interleaving of the steps of any number of requests.
 */
module IpBanOverlap {
  import opened IpBan

  datatype Event = Enter(addr: string, now: real, again: real) | Leave(addr: string, refused: bool, after: real)

  /** The guard, and the addresses of the requests let in and not yet answered. */
  datatype Gate = Gate(guard: Guard, inside: multiset<string>)

  function Move(lim: Limits, w: Gate, e: Event): Gate {
    match e
    case Enter(addr, now, again) =>
      var (g, a) := Admit(w.guard, addr, now, again);
      Gate(g, if a.LetIn? then w.inside + multiset{addr} else w.inside)
    case Leave(addr, refused, after) =>
      if addr !in w.inside then w
      else Gate(if refused then Record(w.guard, lim, addr, after) else w.guard, w.inside - multiset{addr})
  }

  function Run(lim: Limits, es: seq<Event>): Gate {
    if es == [] then Gate(Guard(map[], map[]), multiset{}) else Move(lim, Run(lim, es[..|es|-1]), es[|es|-1])
  }

  /** With nothing in between, the two steps are the request as a whole. */
  lemma StepsMakeRequest(lim: Limits, w: Gate, q: Request)
    ensures var v := Move(lim, w, Enter(q.ip, q.now, q.again));
            var (g, a) := Handle(w.guard, lim, q);
            if a.LetIn? then Move(lim, v, Leave(q.ip, q.refused, q.after)) == Gate(g, w.inside) else v == Gate(g, w.inside)
  {
    hide Record;
    assert w.inside + multiset{q.ip} - multiset{q.ip} == w.inside;
  }

  function StartOf(e: Event): real {
    match e
    case Enter(_, now, _) => now
    case Leave(_, _, after) => after
  }

  function EndOf(e: Event): real {
    match e
    case Enter(_, _, again) => again
    case Leave(_, _, after) => after
  }

  /** One step after another; the clock counts seconds since 1970. */
  ghost predicate Proper(es: seq<Event>) {
    && (forall i :: 0 <= i < |es| ==> 0.0 < StartOf(es[i]) <= EndOf(es[i]))
    && (forall i, j :: 0 <= i < j < |es| ==> EndOf(es[i]) <= StartOf(es[j]))
  }

  /** At no time are more than `m` requests from the address under way. */
  ghost predicate AtMost(lim: Limits, ip: string, es: seq<Event>, m: nat) {
    forall n: nat :: n <= |es| ==> Run(lim, es[..n]).inside[ip] <= m
  }

  function Listed(lim: Limits, ip: string, es: seq<Event>): nat {
    |FailuresOf(Run(lim, es).guard, ip)|
  }

  // ----- The bound -----

  /** What is listed and what may still be is within the bound, and without a ban the list is below the threshold. */
  ghost predicate Inv(lim: Limits, ip: string, w: Gate, m: nat) {
    && |FailuresOf(w.guard, ip)| + w.inside[ip] <= lim.threshold - 1 + m
    && w.inside[ip] <= m
    && (if ip in w.guard.bans then w.guard.bans[ip] > 0.0 else |FailuresOf(w.guard, ip)| < lim.threshold)
  }

  lemma EnterKeeps(lim: Limits, ip: string, w: Gate, m: nat, addr: string, now: real, again: real)
    requires lim.threshold >= 1 && Inv(lim, ip, w, m) && now <= again
    requires Move(lim, w, Enter(addr, now, again)).inside[ip] <= m
    ensures Inv(lim, ip, Move(lim, w, Enter(addr, now, again)), m)
  {
  }

  lemma {:induction false} RecentLength(times: seq<real>, now: real, window: int)
    ensures |Recent(times, now, window)| <= |times|
  {
    if times != [] {
      RecentLength(times[..|times|-1], now, window);
    }
  }

  lemma LeaveKeeps(lim: Limits, ip: string, w: Gate, m: nat, addr: string, refused: bool, after: real)
    requires lim.threshold >= 1 && lim.duration >= 0 && Inv(lim, ip, w, m) && after > 0.0
    ensures Inv(lim, ip, Move(lim, w, Leave(addr, refused, after)), m)
  {
    hide Recent;
    RecentLength(FailuresOf(w.guard, ip), after, lim.duration);
  }

  lemma StepFacts(lim: Limits, ip: string, es: seq<Event>, m: nat)
    requires es != [] && Proper(es) && AtMost(lim, ip, es, m)
    ensures var n := |es| - 1;
            && Proper(es[..n]) && AtMost(lim, ip, es[..n], m)
            && 0.0 < StartOf(es[n]) <= EndOf(es[n])
            && Run(lim, es).inside[ip] <= m
  {
    hide Run;
    var n := |es| - 1;
    assert es[..|es|] == es;
    forall k: nat | k <= n ensures Run(lim, es[..n][..k]).inside[ip] <= m {
      assert es[..n][..k] == es[..k];
    }
  }

  lemma {:induction false} RunKeeps(lim: Limits, ip: string, es: seq<Event>, m: nat)
    requires lim.threshold >= 1 && lim.duration >= 0 && Proper(es) && AtMost(lim, ip, es, m)
    ensures Inv(lim, ip, Run(lim, es), m)
  {
    hide Move, Proper, AtMost;
    if es != [] {
      var n := |es| - 1;
      StepFacts(lim, ip, es, m);
      RunKeeps(lim, ip, es[..n], m);
      var w := Run(lim, es[..n]);
      match es[n] {
        case Enter(addr, now, again) => EnterKeeps(lim, ip, w, m, addr, now, again);
        case Leave(addr, refused, after) => LeaveKeeps(lim, ip, w, m, addr, refused, after);
      }
    }
  }

  /** With at most `m` requests from an address under way together, its list holds fewer than the threshold and `m`. */
  lemma ListBoundedByOverlap(lim: Limits, ip: string, es: seq<Event>, m: nat)
    requires lim.threshold >= 1 && lim.duration >= 0 && Proper(es) && AtMost(lim, ip, es, m)
    ensures Listed(lim, ip, es) <= lim.threshold - 1 + m
  {
    hide Run, Proper, AtMost;
    RunKeeps(lim, ip, es, m);
  }

  // ----- The bound is reached -----

  /** One failure after another up to one below the threshold, then `m` requests that all enter before the first leaves. */
  function Rush(ip: string, before: nat, m: nat): seq<Event> {
    seq(2 * before + 2 * m, i =>
      if (if i < 2 * before then i % 2 == 0 else i < 2 * before + m) then Enter(ip, 1.0, 1.0) else Leave(ip, true, 1.0))
  }

  /** `n` failures listed at time 1, `k` requests under way. */
  ghost predicate Stands(lim: Limits, ip: string, w: Gate, n: nat, k: nat) {
    && FailuresOf(w.guard, ip) == seq(n, _ => 1.0)
    && w.inside[ip] == k
    && (n < lim.threshold ==> ip !in w.guard.bans)
  }

  lemma RushEnters(lim: Limits, ip: string, w: Gate, n: nat, k: nat)
    requires Stands(lim, ip, w, n, k) && n < lim.threshold
    ensures Stands(lim, ip, Move(lim, w, Enter(ip, 1.0, 1.0)), n, k + 1)
  {
  }

  lemma RushLeaves(lim: Limits, ip: string, w: Gate, n: nat, k: nat)
    requires lim.duration >= 1 && Stands(lim, ip, w, n, k + 1)
    ensures Stands(lim, ip, Move(lim, w, Leave(ip, true, 1.0)), n + 1, k)
  {
    hide Recent;
    RecentAll(FailuresOf(w.guard, ip), 1.0, lim.duration);
    assert seq(n, _ => 1.0) + [1.0] == seq(n + 1, _ => 1.0);
  }

  /** How many are listed, and how many are inside, after `i` steps of the rush. */
  function ListedBy(i: nat, before: nat, m: nat): nat {
    if i <= 2 * before then i / 2 else if i <= 2 * before + m then before else i - before - m
  }

  function InsideBy(i: nat, before: nat, m: nat): nat
    requires i <= 2 * before + 2 * m
  {
    if i <= 2 * before then i % 2 else if i <= 2 * before + m then i - 2 * before else 2 * before + 2 * m - i
  }

  lemma RushCounts(ip: string, before: nat, m: nat, i: nat)
    requires m >= 1 && i < 2 * before + 2 * m
    ensures match Rush(ip, before, m)[i]
            case Enter(a, s, t) =>
              && a == ip && s == t == 1.0 && ListedBy(i, before, m) <= before
              && ListedBy(i + 1, before, m) == ListedBy(i, before, m)
              && InsideBy(i + 1, before, m) == InsideBy(i, before, m) + 1
            case Leave(a, refused, t) =>
              && a == ip && refused && t == 1.0
              && ListedBy(i + 1, before, m) == ListedBy(i, before, m) + 1
              && InsideBy(i + 1, before, m) == InsideBy(i, before, m) - 1
  {
  }

  lemma {:induction false} RushStands(lim: Limits, ip: string, m: nat, i: nat)
    requires lim.threshold >= 1 && lim.duration >= 1 && m >= 1
    requires var before := lim.threshold - 1; i <= 2 * before + 2 * m
    ensures var before := lim.threshold - 1;
            Stands(lim, ip, Run(lim, Rush(ip, before, m)[..i]), ListedBy(i, before, m), InsideBy(i, before, m))
  {
    hide Move, Stands;
    var before := lim.threshold - 1;
    if i == 0 {
      RushBegins(lim, ip);
    } else {
      RushStands(lim, ip, m, i - 1);
      RushCounts(ip, before, m, i - 1);
      RushNext(lim, ip, Rush(ip, before, m), i, ListedBy(i - 1, before, m), InsideBy(i - 1, before, m));
    }
  }

  lemma RushNext(lim: Limits, ip: string, es: seq<Event>, i: nat, n: nat, k: nat)
    requires lim.duration >= 1 && 1 <= i <= |es| && Stands(lim, ip, Run(lim, es[..i-1]), n, k)
    requires es[i-1] == Enter(ip, 1.0, 1.0) || (es[i-1] == Leave(ip, true, 1.0) && k > 0)
    requires es[i-1].Enter? ==> n < lim.threshold
    ensures if es[i-1].Enter? then Stands(lim, ip, Run(lim, es[..i]), n, k + 1)
            else Stands(lim, ip, Run(lim, es[..i]), n + 1, k - 1)
  {
    hide Move, Stands;
    assert es[..i][..i-1] == es[..i-1];
    var w := Run(lim, es[..i-1]);
    if es[i-1].Enter? {
      RushEnters(lim, ip, w, n, k);
    } else {
      RushLeaves(lim, ip, w, n, k - 1);
    }
  }

  lemma RushBegins(lim: Limits, ip: string)
    ensures Stands(lim, ip, Gate(Guard(map[], map[]), multiset{}), 0, 0)
  {
  }

  lemma RushIsProper(lim: Limits, ip: string, m: nat)
    requires lim.threshold >= 1 && lim.duration >= 1 && m >= 1
    ensures var es := Rush(ip, lim.threshold - 1, m);
            Proper(es) && AtMost(lim, ip, es, m) && Listed(lim, ip, es) == lim.threshold - 1 + m
  {
    hide Move;
    var before := lim.threshold - 1;
    var es := Rush(ip, before, m);
    forall n: nat | n <= |es| ensures Run(lim, es[..n]).inside[ip] <= m {
      RushStands(lim, ip, m, n);
    }
    RushStands(lim, ip, m, |es|);
    assert es[..|es|] == es;
  }

  /** No smaller bound will do: over all runs with at most `m` requests under way it is the least. */
  lemma OverlapBoundExactly(lim: Limits, ip: string, m: nat, bound: int)
    requires lim.threshold >= 1 && lim.duration >= 1 && m >= 1
    ensures (forall es :: Proper(es) && AtMost(lim, ip, es, m) ==> Listed(lim, ip, es) <= bound)
            <==> bound >= lim.threshold - 1 + m
  {
    hide Proper, AtMost, Listed, Rush;
    if bound >= lim.threshold - 1 + m {
      forall es | Proper(es) && AtMost(lim, ip, es, m) ensures Listed(lim, ip, es) <= bound {
        ListBoundedByOverlap(lim, ip, es, m);
      }
    } else {
      RushIsProper(lim, ip, m);
    }
  }

  /** The threshold bounds the list over all runs if and only if requests from one address do not overlap. */
  lemma ThresholdHoldsExactly(lim: Limits, ip: string, m: nat)
    requires lim.threshold >= 1 && lim.duration >= 1
    ensures (forall es :: Proper(es) && AtMost(lim, ip, es, m) ==> Listed(lim, ip, es) <= lim.threshold) <==> m <= 1
  {
    hide Proper, AtMost, Listed;
    if m == 0 {
      forall es | Proper(es) && AtMost(lim, ip, es, m) ensures Listed(lim, ip, es) <= lim.threshold {
        ListBoundedByOverlap(lim, ip, es, m);
      }
    } else {
      OverlapBoundExactly(lim, ip, m, lim.threshold);
    }
  }
}
