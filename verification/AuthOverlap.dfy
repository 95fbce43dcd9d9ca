/**
 Overlapping login attempts, auth.py.  Between the lock check and what follows it an attempt waits for the
 database, and other attempts may move.  An attempt is therefore two steps, `Look` and `Settle`, and a run is any
 interleaving of the steps of any number of attempts of any users.
 */
module AuthOverlap {
  import opened Prelude
  import opened TtlStore
  import opened StoreRefinement
  import opened AuthLockout

  datatype Event = Look(who: string, at: real) | Settle(who: string, valid: bool, r: Readings) | Other(op: Op, at: real)

  /** The store, and the users of the attempts that have passed the lock check and not yet settled. */
  datatype Ward = Ward(data: Data, inside: multiset<string>)

  function Move(w: Ward, e: Event): Ward {
    match e
    case Look(who, at) =>
      var (d, lock) := GetValue(w.data, LockKey(who), at);
      Ward(d, if Truthy(lock) then w.inside else w.inside + multiset{who})
    case Settle(who, valid, r) =>
      if who !in w.inside then w
      else Ward(if valid then DeleteKey(w.data, FailKey(who)).0 else RecordFailure(w.data, who, r),
                w.inside - multiset{who})
    case Other(op, at) => Ward(Step(w.data, op, at).0, w.inside)
  }

  function Run(d: Data, es: seq<Event>): Ward {
    if es == [] then Ward(d, multiset{}) else Move(Run(d, es[..|es|-1]), es[|es|-1])
  }

  /** With nothing in between, the two steps are the attempt as a whole. */
  lemma StepsMakeAttempt(who: string, d: Data, others: multiset<string>, valid: bool, r: Readings)
    ensures var w := Move(Ward(d, others), Look(who, r.check));
            var (e, out) := Authenticate(d, who, valid, r);
            if out.LockedOut? then w == Ward(e, others)
            else w.inside == others + multiset{who} && Move(w, Settle(who, valid, r)) == Ward(e, others)
  {
    hide RecordFailure;
    assert others + multiset{who} - multiset{who} == others;
  }

  function StartOf(e: Event): real {
    match e
    case Look(_, at) => at
    case Settle(_, _, r) => r.count
    case Other(_, at) => at
  }

  function EndOf(e: Event): real {
    match e
    case Look(_, at) => at
    case Settle(_, _, r) => r.lock
    case Other(_, at) => at
  }

  /** One step after another, the clock only moving forward, and all else on other keys. */
  ghost predicate Proper(user: string, es: seq<Event>) {
    && (forall i :: 0 <= i < |es| ==>
          (es[i].Settle? ==> Forward(es[i].r)) && (es[i].Other? ==> Elsewhere(es[i].op, user)))
    && (forall i, j :: 0 <= i < j < |es| ==> EndOf(es[i]) <= StartOf(es[j]))
  }

  /** At no time are more than `m` attempts of the user under way. */
  ghost predicate AtMost(user: string, d: Data, es: seq<Event>, m: nat) {
    forall n: nat :: n <= |es| ==> Run(d, es[..n]).inside[user] <= m
  }

  // ----- The bound -----

  /** Whatever is counted and whatever may still be counted is within the bound, and five are covered by a lock. */
  ghost predicate Inv(user: string, w: Ward, m: nat, now: real) {
    && Covered(w.data, user, now)
    && (FailKey(user) in w.data ==>
          && w.data[FailKey(user)].value.Number? && w.data[FailKey(user)].expires.Some?
          && CountIn(w.data, user) <= MAX_FAILURES - 1 + m)
    && (Live(w.data, FailKey(user), now) ==> CountIn(w.data, user) + w.inside[user] <= MAX_FAILURES - 1 + m)
    && w.inside[user] <= m
  }

  lemma LaterKeeps(user: string, w: Ward, m: nat, last: real, now: real)
    requires Inv(user, w, m, last) && last <= now
    ensures Inv(user, w, m, now)
  {
  }

  lemma LookKeeps(user: string, w: Ward, m: nat, at: real)
    requires Inv(user, w, m, at) && Move(w, Look(user, at)).inside[user] <= m
    ensures Inv(user, Move(w, Look(user, at)), m, at)
  {
    KeysDiffer(user, user);
  }

  /** A step of another user's attempt touches nothing of this one's. */
  lemma OtherUserKeeps(user: string, w: Ward, m: nat, e: Event, now: real)
    requires Inv(user, w, m, now) && !e.Other? && e.who != user
    ensures Inv(user, Move(w, e), m, now)
  {
    hide Move, Inv;
    StepsAreSeparate(user, w, e, FailKey(user));
    StepsAreSeparate(user, w, e, LockKey(user));
    SameEntriesKeep(user, w, Move(w, e), m, now);
  }

  lemma StepsAreSeparate(user: string, w: Ward, e: Event, key: string)
    requires !e.Other? && e.who != user && (key == FailKey(user) || key == LockKey(user))
    ensures var v := Move(w, e);
            && (key in v.data <==> key in w.data) && (key in v.data ==> v.data[key] == w.data[key])
            && v.inside[user] == w.inside[user]
  {
    hide FailKey, LockKey;
    KeysDiffer(user, e.who);
    KeysDiffer(e.who, user);
    UsersDiffer(user, e.who);
  }

  /** The invariant of a user only reads that user's entries and number of attempts. */
  lemma SameEntriesKeep(user: string, w: Ward, v: Ward, m: nat, now: real)
    requires Inv(user, w, m, now) && v.inside[user] == w.inside[user]
    requires FailKey(user) in v.data <==> FailKey(user) in w.data
    requires LockKey(user) in v.data <==> LockKey(user) in w.data
    requires FailKey(user) in v.data ==> v.data[FailKey(user)] == w.data[FailKey(user)]
    requires LockKey(user) in v.data ==> v.data[LockKey(user)] == w.data[LockKey(user)]
    ensures Inv(user, v, m, now)
  {
    hide FailKey, LockKey;
  }

  lemma SettleKeeps(user: string, w: Ward, m: nat, valid: bool, r: Readings)
    requires Inv(user, w, m, r.count) && Forward(r)
    ensures Inv(user, Move(w, Settle(user, valid, r)), m, r.lock)
  {
    KeysDiffer(user, user);
    if w.inside[user] == 0 {
      LaterKeeps(user, w, m, r.count, r.lock);
    } else if !valid {
      var n := if Live(w.data, FailKey(user), r.count) then CountIn(w.data, user) + 1 else 1;
      var f := RecordFailure(w.data, user, r);
      assert Increment(w.data, FailKey(user), 1, r.count).1 == Ok(n);
      assert FailKey(user) in f && f[FailKey(user)] == Entry(Number(n), Some(r.expire + LOCK_SECONDS as real));
    }
  }

  lemma OtherKeeps(user: string, w: Ward, m: nat, op: Op, at: real)
    requires Inv(user, w, m, at) && Elsewhere(op, user)
    ensures Inv(user, Move(w, Event.Other(op, at)), m, at)
  {
    hide Step;
    ElsewhereKeeps(w.data, op, at, user, FailKey(user));
    ElsewhereKeeps(w.data, op, at, user, LockKey(user));
  }

  lemma StepFacts(user: string, d: Data, es: seq<Event>, m: nat)
    requires es != [] && Proper(user, es) && AtMost(user, d, es, m)
    ensures var n := |es| - 1;
            && Proper(user, es[..n]) && AtMost(user, d, es[..n], m)
            && (n > 0 ==> EndOf(es[n-1]) <= StartOf(es[n]))
            && (es[n].Settle? ==> Forward(es[n].r)) && (es[n].Other? ==> Elsewhere(es[n].op, user))
            && Run(d, es).inside[user] <= m
  {
    hide Run;
    var n := |es| - 1;
    assert es[..|es|] == es;
    forall k: nat | k <= n ensures Run(d, es[..n][..k]).inside[user] <= m {
      assert es[..n][..k] == es[..k];
    }
  }

  lemma {:induction false} RunKeeps(user: string, d: Data, es: seq<Event>, m: nat, now: real)
    requires FailKey(user) !in d && LockKey(user) !in d && Proper(user, es) && AtMost(user, d, es, m)
    requires es != [] ==> EndOf(es[|es|-1]) <= now
    ensures Inv(user, Run(d, es), m, now)
  {
    hide Move, Inv, Proper, AtMost;
    if es == [] {
      NothingYet(user, d, m, now);
    } else {
      var n := |es| - 1;
      StepFacts(user, d, es, m);
      RunKeeps(user, d, es[..n], m, StartOf(es[n]));
      var w := Run(d, es[..n]);
      match es[n] {
        case Look(who, at) =>
          if who == user {
            LookKeeps(user, w, m, at);
          } else {
            OtherUserKeeps(user, w, m, es[n], at);
          }
        case Settle(who, valid, r) =>
          if who == user {
            SettleKeeps(user, w, m, valid, r);
          } else {
            OtherUserKeeps(user, w, m, es[n], r.count);
            LaterKeeps(user, Move(w, es[n]), m, r.count, r.lock);
          }
        case Other(op, at) => OtherKeeps(user, w, m, op, at);
      }
      LaterKeeps(user, Move(w, es[n]), m, EndOf(es[n]), now);
    }
  }

  lemma NothingYet(user: string, d: Data, m: nat, now: real)
    requires FailKey(user) !in d && LockKey(user) !in d
    ensures Inv(user, Ward(d, multiset{}), m, now)
  {
  }

  /** With at most `m` attempts of a user under way together, the counter is at most four and `m`. */
  lemma CounterBoundedByOverlap(user: string, d: Data, es: seq<Event>, m: nat)
    requires FailKey(user) !in d && LockKey(user) !in d && Proper(user, es) && AtMost(user, d, es, m)
    ensures CountIn(Run(d, es).data, user) <= 4 + m
  {
    hide Run, Proper, AtMost;
    RunKeeps(user, d, es, m, if es == [] then 0.0 else EndOf(es[|es|-1]));
  }

  // ----- The bound is reached -----

  const AT_ZERO := Readings(0.0, 0.0, 0.0, 0.0)

  /** Four failures one after another, then `m` attempts that all look before the first of them fails. */
  function Rush(user: string, m: nat): seq<Event> {
    seq(8 + 2 * m, i => if (if i < 8 then i % 2 == 0 else i < 8 + m) then Look(user, 0.0) else Settle(user, false, AT_ZERO))
  }

  /** `n` failures counted at time 0, `k` attempts under way. */
  ghost predicate Stands(user: string, w: Ward, n: nat, k: nat) {
    && w.inside[user] == k
    && (if n == 0 then FailKey(user) !in w.data
        else FailKey(user) in w.data && w.data[FailKey(user)] == Entry(Number(n), Some(LOCK_SECONDS as real)))
    && (n < MAX_FAILURES ==> LockKey(user) !in w.data)
  }

  lemma RushLooks(user: string, w: Ward, n: nat, k: nat)
    requires Stands(user, w, n, k) && n < MAX_FAILURES
    ensures Stands(user, Move(w, Look(user, 0.0)), n, k + 1)
  {
    KeysDiffer(user, user);
  }

  lemma RushFails(user: string, w: Ward, n: nat, k: nat)
    requires Stands(user, w, n, k + 1)
    ensures Stands(user, Move(w, Settle(user, false, AT_ZERO)), n + 1, k)
  {
    KeysDiffer(user, user);
  }

  /** How many have been counted, and how many are under way, after `i` steps of the rush. */
  function CountedBy(i: nat, m: nat): nat {
    if i <= 8 then i / 2 else if i <= 8 + m then 4 else i - 4 - m
  }

  function UnderWayBy(i: nat, m: nat): nat
    requires i <= 8 + 2 * m
  {
    if i <= 8 then i % 2 else if i <= 8 + m then i - 8 else 8 + 2 * m - i
  }

  lemma RushCounts(user: string, m: nat, i: nat)
    requires m >= 1 && i < 8 + 2 * m
    ensures if Rush(user, m)[i] == Look(user, 0.0) then
              && CountedBy(i, m) < MAX_FAILURES && CountedBy(i + 1, m) == CountedBy(i, m)
              && UnderWayBy(i + 1, m) == UnderWayBy(i, m) + 1
            else
              && Rush(user, m)[i] == Settle(user, false, AT_ZERO) && CountedBy(i + 1, m) == CountedBy(i, m) + 1
              && UnderWayBy(i + 1, m) == UnderWayBy(i, m) - 1
  {
  }

  lemma {:induction false} RushStands(user: string, d: Data, m: nat, i: nat)
    requires FailKey(user) !in d && LockKey(user) !in d && m >= 1 && i <= 8 + 2 * m
    ensures Stands(user, Run(d, Rush(user, m)[..i]), CountedBy(i, m), UnderWayBy(i, m))
  {
    hide Move, Stands, FailKey, LockKey;
    if i == 0 {
      RushBegins(user, d);
    } else {
      RushStands(user, d, m, i - 1);
      RushCounts(user, m, i - 1);
      RushNext(user, d, Rush(user, m), i, CountedBy(i - 1, m), UnderWayBy(i - 1, m));
    }
  }

  lemma RushNext(user: string, d: Data, es: seq<Event>, i: nat, n: nat, k: nat)
    requires 1 <= i <= |es| && Stands(user, Run(d, es[..i-1]), n, k)
    requires (es[i-1] == Look(user, 0.0) && n < MAX_FAILURES) || (es[i-1] == Settle(user, false, AT_ZERO) && k > 0)
    ensures if es[i-1].Look? then Stands(user, Run(d, es[..i]), n, k + 1)
            else Stands(user, Run(d, es[..i]), n + 1, k - 1)
  {
    hide Move, Stands;
    assert es[..i][..i-1] == es[..i-1];
    var w := Run(d, es[..i-1]);
    if es[i-1].Look? {
      RushLooks(user, w, n, k);
    } else {
      RushFails(user, w, n, k - 1);
    }
  }

  lemma RushBegins(user: string, d: Data)
    requires FailKey(user) !in d && LockKey(user) !in d
    ensures Stands(user, Ward(d, multiset{}), 0, 0)
  {
  }

  lemma RushIsProper(user: string, d: Data, m: nat)
    requires FailKey(user) !in d && LockKey(user) !in d && m >= 1
    ensures Proper(user, Rush(user, m)) && AtMost(user, d, Rush(user, m), m)
    ensures CountIn(Run(d, Rush(user, m)).data, user) == 4 + m
  {
    hide Move;
    forall n: nat | n <= |Rush(user, m)| ensures Run(d, Rush(user, m)[..n]).inside[user] <= m {
      RushStands(user, d, m, n);
    }
    RushStands(user, d, m, 8 + 2 * m);
    assert Rush(user, m)[..8 + 2 * m] == Rush(user, m);
  }

  /** No smaller bound will do: over all runs with at most `m` attempts under way, four and `m` is the least. */
  lemma OverlapBoundExactly(user: string, d: Data, m: nat, bound: int)
    requires FailKey(user) !in d && LockKey(user) !in d && m >= 1
    ensures (forall es :: Proper(user, es) && AtMost(user, d, es, m) ==> CountIn(Run(d, es).data, user) <= bound)
            <==> bound >= 4 + m
  {
    hide Proper, AtMost, Run, Rush;
    if bound >= 4 + m {
      forall es | Proper(user, es) && AtMost(user, d, es, m) ensures CountIn(Run(d, es).data, user) <= bound {
        CounterBoundedByOverlap(user, d, es, m);
      }
    } else {
      RushIsProper(user, d, m);
    }
  }

  /** The lockout's own bound of five holds over all runs if and only if attempts of one user do not overlap. */
  lemma FiveHoldsExactly(user: string, d: Data, m: nat)
    requires FailKey(user) !in d && LockKey(user) !in d
    ensures (forall es :: Proper(user, es) && AtMost(user, d, es, m) ==>
               CountIn(Run(d, es).data, user) <= 5)
            <==> m <= 1
  {
    hide Proper, AtMost, Run;
    if m == 0 {
      forall es | Proper(user, es) && AtMost(user, d, es, m)
        ensures CountIn(Run(d, es).data, user) <= 5
      {
        CounterBoundedByOverlap(user, d, es, m);
      }
    } else {
      OverlapBoundExactly(user, d, m, 5);
    }
  }
}
