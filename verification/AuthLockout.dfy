/**
 The account lockout of local authentication, auth.py: a failure counter and a lock per user name, both kept in the
 shared store.  In this file attempts are atomic: no other attempt on the same user comes between the lock check and its
 end.  AuthOverlap.dfy lets them overlap.
 */
module AuthLockout {
  import opened Prelude
  import opened TtlStore
  import opened StoreRefinement

  const MAX_FAILURES := 5
  const LOCK_SECONDS := 900

  function FailKey(user: string): string {
    "auth_failures:" + user
  }

  function LockKey(user: string): string {
    "auth_lockout:" + user
  }

  lemma KeysDiffer(user: string, other: string)
    ensures FailKey(user) != LockKey(other)
  {
    assert FailKey(user)[5] == 'f' && LockKey(other)[5] == 'l';
  }

  lemma UsersDiffer(user: string, other: string)
    requires user != other
    ensures FailKey(user) != FailKey(other) && LockKey(user) != LockKey(other)
  {
    assert FailKey(user)[14..] == user && FailKey(other)[14..] == other;
    assert LockKey(user)[13..] == user && LockKey(other)[13..] == other;
  }

  /** Python truth of what `get_value` returns. */
  predicate Truthy(v: Option<Value>) {
    v.Some? && v.value !in {Text(""), Members({}), Ranked([])}
  }

  /** The clock readings of one attempt: lock check, counter increment, its expiry, the lock. */
  datatype Readings = Readings(check: real, count: real, expire: real, lock: real)

  predicate Forward(r: Readings) {
    r.check <= r.count <= r.expire <= r.lock
  }

  /** `_record_auth_failure`; a counter that is not a number raises, and then nothing more happens. */
  function RecordFailure(d: Data, user: string, r: Readings): Data {
    var (d1, count) := Increment(d, FailKey(user), 1, r.count);
    match count
    case Err(_) => d1
    case Ok(n) =>
      var d2 := Expire(d1, FailKey(user), LOCK_SECONDS, r.expire).0;
      if n >= MAX_FAILURES then SetWithTtl(d2, LockKey(user), Number(1), LOCK_SECONDS, r.lock) else d2
  }

  datatype Outcome = LockedOut | Failed | Succeeded

  /** `valid`: the user exists, is active, and the password verifies. */
  function Authenticate(d: Data, user: string, valid: bool, r: Readings): (Data, Outcome) {
    var (d0, lock) := GetValue(d, LockKey(user), r.check);
    if Truthy(lock) then (d0, LockedOut)
    else if !valid then (RecordFailure(d0, user, r), Failed)
    else (DeleteKey(d0, FailKey(user)).0, Succeeded)
  }

  /** What locks a user out: a live entry under that user's lock key, unless it is empty. */
  lemma LockedByEntry(d: Data, user: string, valid: bool, r: Readings)
    ensures Authenticate(d, user, valid, r).1 == LockedOut <==>
            Live(d, LockKey(user), r.check) && !IsEmpty(d[LockKey(user)].value)
  {
  }

  predicate IsEmpty(v: Value) {
    match v
    case Text(s) => s == ""
    case Number(_) => false
    case Members(ms) => ms == {}
    case Ranked(zs) => zs == []
  }

  class Authenticator {
    const store: InMemoryStore

    constructor (store: InMemoryStore)
      ensures this.store == store
    {
      this.store := store;
    }

    method RecordAuthFailure(user: string, r: Readings)
      modifies store
      ensures store.data == RecordFailure(old(store.data), user, r)
    {
      var count := store.Bump(FailKey(user), 1, r.count);
      if count.Err? {
        return;
      }
      var _ := store.SetExpiry(FailKey(user), LOCK_SECONDS, r.expire);
      if count.value >= MAX_FAILURES {
        store.PutWithTtl(LockKey(user), Number(1), LOCK_SECONDS, r.lock);
      }
    }

    method LocalAuthenticate(user: string, valid: bool, r: Readings) returns (out: Outcome)
      modifies store
      ensures (store.data, out) == Authenticate(old(store.data), user, valid, r)
    {
      var locked := store.Get(LockKey(user), r.check);
      if Truthy(locked) {
        return LockedOut;
      }
      if !valid {
        RecordAuthFailure(user, r);
        return Failed;
      }
      var _ := store.Delete(FailKey(user));
      out := Succeeded;
    }
  }

  // ----- Runs -----

  /** Attempts of any user, and anything else done to the store. */
  datatype Event = Attempt(who: string, valid: bool, r: Readings) | Other(op: Op, at: real)

  /** What an attempt that got past the lock came to: a failure counted, or a success checked, at that time. */
  datatype Mark = Failure(at: real) | Success(at: real)

  /**
   The store; the marks of one user's attempts so far; and when a lock was set on that user, at each failure that left the
   counter at five or more.
   */
  datatype Log = Log(data: Data, marks: seq<Mark>, locks: seq<real>)

  function Play(user: string, d: Data, es: seq<Event>): Log {
    if es == [] then Log(d, [], []) else
      var n := |es| - 1;
      Next(user, Play(user, d, es[..n]), es[n])
  }

  function Next(user: string, log: Log, e: Event): Log {
    match e
    case Attempt(who, valid, r) =>
      var (d, out) := Authenticate(log.data, who, valid, r);
      if who != user then Log(d, log.marks, log.locks)
      else
        (match out
         case LockedOut => Log(d, log.marks, log.locks)
         case Failed =>
           Log(d, log.marks + [Failure(r.count)], if CountIn(d, user) >= 5 then log.locks + [r.lock] else log.locks)
         case Succeeded => Log(d, log.marks + [Success(r.check)], log.locks))
    case Other(op, at) => Log(Step(log.data, op, at).0, log.marks, log.locks)
  }

  /** Anything but the two keys of this user, and no flush. */
  predicate Elsewhere(op: Op, user: string) {
    op.OpKeys? || (!op.OpFlush? && op.key != FailKey(user) && op.key != LockKey(user))
  }

  function StartOf(e: Event): real {
    match e
    case Attempt(_, _, r) => r.check
    case Other(_, at) => at
  }

  function EndOf(e: Event): real {
    match e
    case Attempt(_, _, r) => r.lock
    case Other(_, at) => at
  }

  /** One event after another, the clock only moving forward. */
  ghost predicate Proper(user: string, es: seq<Event>) {
    && (forall i :: 0 <= i < |es| ==>
          (es[i].Attempt? ==> Forward(es[i].r)) && (es[i].Other? ==> Elsewhere(es[i].op, user)))
    && (forall i, j :: 0 <= i < j < |es| ==> EndOf(es[i]) <= StartOf(es[j]))
  }

  // ----- The invariant -----

  /** The counter's value, when its key is in the dictionary. */
  function CountIn(d: Data, user: string): int {
    if FailKey(user) in d && d[FailKey(user)].value.Number? then d[FailKey(user)].value.n else 0
  }

  /** The marks from `k` on are failures. */
  ghost predicate OnlyFailures(marks: seq<Mark>, k: nat) {
    forall i :: k <= i < |marks| ==> marks[i].Failure?
  }

  /**
   The counter was written no earlier than `LOCK_SECONDS` before it expires, and counts the failures since the last
   success that are no older than that.
   */
  ghost predicate Counter(d: Data, user: string, marks: seq<Mark>, now: real) {
    if FailKey(user) in d then
      && d[FailKey(user)].value.Number? && 1 <= CountIn(d, user) <= MAX_FAILURES
      && d[FailKey(user)].expires.Some?
      && marks != [] && marks[|marks|-1].Failure?
      && d[FailKey(user)].expires.value >= marks[|marks|-1].at + LOCK_SECONDS as real
      && CountCovers(marks, CountIn(d, user))
    else marks == [] || marks[|marks|-1].Success? || now > marks[|marks|-1].at + LOCK_SECONDS as real
  }

  ghost predicate CountCovers(marks: seq<Mark>, n: int)
    requires marks != []
  {
    forall k :: 0 <= k < |marks| && OnlyFailures(marks, k) && marks[|marks|-1].at - marks[k].at <= LOCK_SECONDS as real ==>
      n >= |marks| - k
  }

  /** A counter at the maximum is covered by a lock that outlives it. */
  ghost predicate Covered(d: Data, user: string, now: real) {
    && (LockKey(user) in d ==> Truthy(Some(d[LockKey(user)].value)))
    && (FailKey(user) in d && CountIn(d, user) >= MAX_FAILURES && d[FailKey(user)].expires.Some?
        && now <= d[FailKey(user)].expires.value ==>
          && LockKey(user) in d && d[LockKey(user)].expires.Some?
          && d[LockKey(user)].expires.value >= d[FailKey(user)].expires.value)
  }

  /** No six failures in a row, without a success in between, fall within `LOCK_SECONDS`. */
  ghost predicate Spread(marks: seq<Mark>) {
    forall k, l :: 0 <= k && l == k + MAX_FAILURES && l < |marks| && OnlyFailures(marks[..l+1], k) ==>
      marks[l].at - marks[k].at > LOCK_SECONDS as real
  }

  ghost predicate Ascending(marks: seq<Mark>, now: real) {
    && (forall i, j :: 0 <= i < j < |marks| ==> marks[i].at <= marks[j].at)
    && (forall i :: 0 <= i < |marks| ==> marks[i].at <= now)
  }

  ghost predicate Inv(user: string, log: Log, now: real) {
    && Counter(log.data, user, log.marks, now) && Covered(log.data, user, now)
    && Spread(log.marks) && Ascending(log.marks, now) && LockStands(log.data, user, log.locks, now)
  }

  /** The lock is the latest one set, until it expires. */
  ghost predicate LockStands(d: Data, user: string, locks: seq<real>, now: real) {
    if LockKey(user) in d then
      locks != [] && d[LockKey(user)].expires == Some(locks[|locks|-1] + LOCK_SECONDS as real)
    else locks == [] || now > locks[|locks|-1] + LOCK_SECONDS as real
  }

  lemma OtherKeeps(user: string, log: Log, op: Op, last: real, at: real)
    requires Inv(user, log, last) && last <= at && Elsewhere(op, user)
    ensures Inv(user, Next(user, log, Other(op, at)), at)
  {
    hide Step;
    ElsewhereKeeps(log.data, op, at, user, FailKey(user));
    ElsewhereKeeps(log.data, op, at, user, LockKey(user));
  }

  lemma ElsewhereKeeps(d: Data, op: Op, at: real, user: string, key: string)
    requires Elsewhere(op, user) && (key == FailKey(user) || key == LockKey(user))
    ensures var e := Step(d, op, at).0;
            if key in e then key in d && e[key] == d[key] else key !in d || Past(d[key], at)
  {
  }

  lemma LaterKeeps(user: string, log: Log, last: real, now: real)
    requires Inv(user, log, last) && last <= now
    ensures Inv(user, log, now)
  {
  }

  /** Reading the lock removes it only once it, and so the counter at the maximum, has expired. */
  lemma CheckKeeps(user: string, log: Log, now: real)
    requires Inv(user, log, now)
    ensures Inv(user, Log(Drop(log.data, LockKey(user), now), log.marks, log.locks), now)
  {
    KeysDiffer(user, user);
  }

  /** An attempt that gets past the lock finds the counter below the maximum, or expired. */
  lemma NotLockedMeansBelow(user: string, log: Log, now: real, later: real)
    requires Inv(user, log, now) && now <= later && !Truthy(GetValue(log.data, LockKey(user), now).1)
    ensures Live(log.data, FailKey(user), later) ==> CountIn(log.data, user) < MAX_FAILURES
  {
  }

  lemma FailureKeeps(user: string, log: Log, now: real, r: Readings)
    requires Inv(user, log, now) && Forward(r) && now == r.check
    requires Live(log.data, FailKey(user), r.count) ==> CountIn(log.data, user) < MAX_FAILURES
    ensures var d := RecordFailure(log.data, user, r);
            Inv(user, Log(d, log.marks + [Failure(r.count)],
                          if CountIn(d, user) >= 5 then log.locks + [r.lock] else log.locks), r.lock)
  {
    hide Spread, CountCovers, FailKey, LockKey;
    KeysDiffer(user, user);
    var d := log.data;
    var s := log.marks + [Failure(r.count)];
    var f := RecordFailure(d, user, r);
    var n := if Live(d, FailKey(user), r.count) then CountIn(d, user) + 1 else 1;
    assert Increment(d, FailKey(user), 1, r.count).1 == Ok(n);
    assert FailKey(user) in f && f[FailKey(user)] == Entry(Number(n), Some(r.expire + LOCK_SECONDS as real));
    FailureIsCovered(user, log, now, r.count, n);
    FailureIsSpread(log.marks, r.count, n);
  }

  lemma FailureIsCovered(user: string, log: Log, now: real, at: real, n: int)
    requires Inv(user, log, now) && now <= at
    requires n == if Live(log.data, FailKey(user), at) then CountIn(log.data, user) + 1 else 1
    ensures CountCovers(log.marks + [Failure(at)], n)
  {
    hide Spread;
    var s := log.marks + [Failure(at)];
    forall k | 0 <= k < |s| && OnlyFailures(s, k) && at - s[k].at <= LOCK_SECONDS as real ensures n >= |s| - k {
      if k < |log.marks| {
        assert OnlyFailures(log.marks, k) by {
          assert forall i :: k <= i < |log.marks| ==> log.marks[i] == s[i];
        }
        assert s[|log.marks|-1].Failure?;
      }
    }
  }

  lemma FailureIsSpread(marks: seq<Mark>, at: real, n: int)
    requires Spread(marks) && n <= MAX_FAILURES && CountCovers(marks + [Failure(at)], n)
    ensures Spread(marks + [Failure(at)])
  {
    var s := marks + [Failure(at)];
    SpreadBefore(marks, Failure(at));
    var l := |marks|;
    var k := l - MAX_FAILURES;
    if k >= 0 && OnlyFailures(s[..l+1], k) {
      assert s[..l+1] == s;
    }
  }

  /** Only six in a row that end with the new mark can break it. */
  lemma SpreadBefore(marks: seq<Mark>, m: Mark)
    requires Spread(marks)
    ensures var s := marks + [m];
            forall k, l :: 0 <= k && l == k + MAX_FAILURES && l < |marks| && OnlyFailures(s[..l+1], k) ==>
              s[l].at - s[k].at > LOCK_SECONDS as real
  {
    var s := marks + [m];
    forall k, l | 0 <= k && l == k + MAX_FAILURES && l < |marks| && OnlyFailures(s[..l+1], k)
      ensures s[l].at - s[k].at > LOCK_SECONDS as real
    {
      assert s[..l+1] == marks[..l+1];
    }
  }

  /** An attempt of another user touches nothing of this one's. */
  lemma OtherUserKeeps(user: string, log: Log, who: string, valid: bool, r: Readings)
    requires Inv(user, log, r.check) && Forward(r) && who != user
    ensures Inv(user, Next(user, log, Attempt(who, valid, r)), r.lock)
  {
    hide Authenticate, Inv;
    UsersAreSeparate(log.data, user, who, valid, r);
    LaterKeeps(user, log, r.check, r.lock);
    SameEntriesKeep(user, log, Authenticate(log.data, who, valid, r).0, r.lock);
  }

  /** The invariant of a user only reads that user's two entries. */
  lemma SameEntriesKeep(user: string, log: Log, e: Data, now: real)
    requires Inv(user, log, now)
    requires forall key :: key == FailKey(user) || key == LockKey(user) ==>
               (key in e <==> key in log.data) && (key in e ==> e[key] == log.data[key])
    ensures Inv(user, Log(e, log.marks, log.locks), now)
  {
    assert FailKey(user) in e <==> FailKey(user) in log.data;
    assert LockKey(user) in e <==> LockKey(user) in log.data;
  }

  /**
   Users are separate: whatever another user's attempt comes to, this user's counter and lock are as they were, and so is
   what any attempt of this user will come to.
   */
  lemma UsersAreSeparate(d: Data, user: string, who: string, valid: bool, r: Readings)
    requires who != user
    ensures var e := Authenticate(d, who, valid, r).0;
            && (forall key :: key == FailKey(user) || key == LockKey(user) ==>
                  (key in e <==> key in d) && (key in e ==> e[key] == d[key]))
            && CountIn(e, user) == CountIn(d, user)
            && (forall v, q: Readings :: Authenticate(e, user, v, q).1 == Authenticate(d, user, v, q).1)
  {
    KeysDiffer(user, who);
    KeysDiffer(who, user);
    UsersDiffer(user, who);
  }

  lemma AttemptKeeps(user: string, log: Log, valid: bool, r: Readings, last: real)
    requires Inv(user, log, last) && Forward(r) && last <= r.check
    ensures Inv(user, Next(user, log, Attempt(user, valid, r)), r.lock)
  {
    hide RecordFailure, Inv;
    LaterKeeps(user, log, last, r.check);
    CheckKeeps(user, log, r.check);
    var checked := Log(Drop(log.data, LockKey(user), r.check), log.marks, log.locks);
    match Authenticate(log.data, user, valid, r).1 {
      case LockedOut =>
        LaterKeeps(user, checked, r.check, r.lock);
      case Failed =>
        NotLockedMeansBelow(user, log, r.check, r.count);
        DropSame(user, log.data, r.check, r.count);
        FailureKeeps(user, checked, r.check, r);
      case Succeeded =>
        SuccessKeeps(user, checked, r.check);
        LaterKeeps(user, Next(user, log, Attempt(user, valid, r)), r.check, r.lock);
    }
  }

  lemma DropSame(user: string, d: Data, now: real, later: real)
    ensures var e := Drop(d, LockKey(user), now);
            Live(e, FailKey(user), later) == Live(d, FailKey(user), later) && CountIn(e, user) == CountIn(d, user)
  {
    KeysDiffer(user, user);
  }

  lemma SuccessIsSpread(marks: seq<Mark>, at: real)
    requires Spread(marks)
    ensures Spread(marks + [Success(at)])
  {
    SpreadBefore(marks, Success(at));
    var s := marks + [Success(at)];
    var l := |marks|;
    assert s[..l+1] == s && s[l].Success?;
  }

  lemma SuccessKeeps(user: string, log: Log, at: real)
    requires Inv(user, log, at)
    ensures Inv(user, Log(DeleteKey(log.data, FailKey(user)).0, log.marks + [Success(at)], log.locks), at)
  {
    hide Spread, CountCovers, FailKey, LockKey;
    KeysDiffer(user, user);
    SuccessIsSpread(log.marks, at);
  }

  lemma {:induction false} RunKeeps(user: string, d: Data, es: seq<Event>, now: real)
    requires FailKey(user) !in d && LockKey(user) !in d && Proper(user, es)
    requires es != [] ==> EndOf(es[|es|-1]) <= now
    ensures Inv(user, Play(user, d, es), now)
  {
    hide Next, Inv;
    if es == [] {
      NothingYet(user, d, now);
    } else {
      var n := |es| - 1;
      assert Proper(user, es[..n]);
      RunKeeps(user, d, es[..n], StartOf(es[n]));
      var log := Play(user, d, es[..n]);
      match es[n] {
        case Other(op, at) => OtherKeeps(user, log, op, at, at);
        case Attempt(who, valid, r) =>
          if who == user {
            AttemptKeeps(user, log, valid, r, r.check);
          } else {
            OtherUserKeeps(user, log, who, valid, r);
          }
      }
      LaterKeeps(user, Next(user, log, es[n]), EndOf(es[n]), now);
    }
  }

  lemma NothingYet(user: string, d: Data, now: real)
    requires FailKey(user) !in d && LockKey(user) !in d
    ensures Inv(user, Log(d, [], []), now)
  {
  }

  // ----- Theorems -----

  /** The counter never exceeds five. */
  lemma CounterNeverExceedsFive(user: string, d: Data, es: seq<Event>)
    requires FailKey(user) !in d && LockKey(user) !in d && Proper(user, es)
    ensures CountIn(Play(user, d, es).data, user) <= 5
  {
    RunKeeps(user, d, es, if es == [] then 0.0 else EndOf(es[|es|-1]));
  }

  /** While a counter at five has not expired, a lock is in place that expires no earlier. */
  lemma LockOutlivesCounter(user: string, d: Data, es: seq<Event>, now: real)
    requires FailKey(user) !in d && LockKey(user) !in d && Proper(user, es)
    requires es != [] ==> EndOf(es[|es|-1]) <= now
    requires var log := Play(user, d, es);
             Live(log.data, FailKey(user), now) && CountIn(log.data, user) == 5
    ensures var e := Play(user, d, es).data;
            && Live(e, LockKey(user), now) && e[FailKey(user)].expires.Some? && e[LockKey(user)].expires.Some?
            && e[LockKey(user)].expires.value >= e[FailKey(user)].expires.value
    ensures forall valid, r: Readings :: r.check == now ==>
              Authenticate(Play(user, d, es).data, user, valid, r).1 == LockedOut
  {
    RunKeeps(user, d, es, now);
  }

  /**
   When a lock ends: an attempt is locked out exactly up to 900 seconds after the latest lock was set on its user.  Any
   other is decided by the password, and a right one clears the counter.
   */
  lemma LockedOutExactly(user: string, d: Data, es: seq<Event>, valid: bool, r: Readings)
    requires FailKey(user) !in d && LockKey(user) !in d && Proper(user, es)
    requires es != [] ==> EndOf(es[|es|-1]) <= r.check
    ensures var log := Play(user, d, es);
            var (e, out) := Authenticate(log.data, user, valid, r);
            && (out == LockedOut <==> log.locks != [] && r.check <= log.locks[|log.locks|-1] + 900.0)
            && (out == Succeeded <==> out != LockedOut && valid)
            && (out == Failed <==> out != LockedOut && !valid)
            && (out == Succeeded ==> FailKey(user) !in e)
  {
    hide Play, Counter, Spread, Ascending, RecordFailure;
    RunKeeps(user, d, es, r.check);
  }

  predicate InSpan(at: real, s: real) {
    s <= at <= s + 900.0
  }

  /** The failures counted in the closed window of 900 seconds from `s`. */
  function CountedIn(marks: seq<Mark>, s: real): nat {
    if marks == [] then 0 else
      var last := marks[|marks|-1];
      CountedIn(marks[..|marks|-1], s) + if last.Failure? && InSpan(last.at, s) then 1 else 0
  }

  /** No attempt succeeded in that window. */
  ghost predicate NoSuccessIn(marks: seq<Mark>, s: real) {
    forall i :: 0 <= i < |marks| && marks[i].Success? ==> !InSpan(marks[i].at, s)
  }

  lemma {:induction false} CountedAtMost(marks: seq<Mark>, s: real, now: real)
    requires Spread(marks) && Ascending(marks, now) && NoSuccessIn(marks, s)
    ensures CountedIn(marks, s) <= MAX_FAILURES
    ensures forall k :: 0 <= k < |marks| && marks[k].at < s ==> CountedIn(marks, s) <= |marks| - 1 - k
  {
    hide Spread;
    if marks != [] {
      var n := |marks| - 1;
      var init := marks[..n];
      SpreadPrefix(marks, n);
      CountedAtMost(init, s, now);
      CountedBelowLength(init, s);
      forall k | 0 <= k < |marks| && marks[k].at < s ensures CountedIn(marks, s) <= |marks| - 1 - k {
        if k < n {
          assert init[k] == marks[k];
        }
      }
      if InSpan(marks[n].at, s) && marks[n].Failure? && n >= MAX_FAILURES {
        var i := SixthIsEarly(marks, s, now);
        assert init[i] == marks[i];
      }
    }
  }

  /** Of six marks in a row that end in the window, one comes before it. */
  lemma SixthIsEarly(marks: seq<Mark>, s: real, now: real) returns (i: nat)
    requires Spread(marks) && Ascending(marks, now) && NoSuccessIn(marks, s) && |marks| > MAX_FAILURES
    requires InSpan(marks[|marks|-1].at, s) && marks[|marks|-1].Failure?
    ensures |marks| - 1 - MAX_FAILURES <= i < |marks| - 1 && marks[i].at < s
  {
    var n := |marks| - 1;
    i := n - MAX_FAILURES;
    assert marks[..n+1] == marks;
    if !OnlyFailures(marks, i) {
      i :| n - MAX_FAILURES <= i < |marks| && !marks[i].Failure?;
    }
  }

  lemma SpreadPrefix(marks: seq<Mark>, n: nat)
    requires n <= |marks| && Spread(marks)
    ensures Spread(marks[..n])
  {
    var init := marks[..n];
    forall k, l | 0 <= k && l == k + MAX_FAILURES && l < n && OnlyFailures(init[..l+1], k)
      ensures init[l].at - init[k].at > LOCK_SECONDS as real
    {
      assert init[..l+1] == marks[..l+1];
    }
  }

  lemma {:induction false} CountedBelowLength(marks: seq<Mark>, s: real)
    ensures CountedIn(marks, s) <= |marks|
  {
    if marks != [] {
      CountedBelowLength(marks[..|marks|-1], s);
    }
  }

  /** In every run, every closed window of 900 seconds with no success in it holds at most five counted failures. */
  lemma WindowHoldsAtMostFive(user: string, d: Data, es: seq<Event>, s: real)
    requires FailKey(user) !in d && LockKey(user) !in d && Proper(user, es)
    requires NoSuccessIn(Play(user, d, es).marks, s)
    ensures CountedIn(Play(user, d, es).marks, s) <= 5
  {
    hide Play, Spread, Counter, Covered, Ascending, NoSuccessIn, CountedIn;
    var now := if es == [] then 0.0 else EndOf(es[|es|-1]);
    RunKeeps(user, d, es, now);
    CountedAtMost(Play(user, d, es).marks, s, now);
  }
}
