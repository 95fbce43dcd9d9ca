/**
 Lazy expiry refines eager expiry: the lazy store and one that drops keys the moment they expire answer every query of a
 run alike exactly when no `expire` of the run is given an expired key, and then they hold the same live contents.  An
 `expire` that directly follows a write can still be, when the key's time runs out between the two clock readings.
 */
module StoreRefinement {
  import opened Prelude
  import opened TtlStore

  datatype Op =
    | OpSet(key: string, value: Value, ttl: int)
    | OpGet(key: string)
    | OpDelete(key: string)
    | OpIncrement(key: string, amount: int)
    | OpKeys(matches: string -> bool)
    | OpTtl(key: string, again: real)
    | OpExists(key: string)
    | OpSetAdd(key: string, members: seq<Member>)
    | OpSetMembers(key: string)
    | OpSetRemove(key: string, members: seq<Member>)
    | OpZAdd(key: string, mapping: seq<(Member, real)>)
    | OpZRange(key: string, lo: real, hi: real)
    | OpZRemRange(key: string, lo: real, hi: real)
    | OpExpire(key: string, ttl: int)
    | OpFlush

  datatype Answer =
    | Nothing
    | Found(value: Option<Value>)
    | Flag(yes: bool)
    | Counted(n: int)
    | Counter(count: Result<int, Error>)
    | KeySet(keys: set<string>)
    | Remaining(seconds: Option<int>)
    | MemberSet(ms: set<Member>)
    | MemberList(list: seq<Member>)

  /** One operation of the lazy store. */
  function Step(d: Data, op: Op, now: real): (Data, Answer) {
    match op
    case OpSet(k, v, ttl) => (SetWithTtl(d, k, v, ttl, now), Nothing)
    case OpGet(k) => var (e, r) := GetValue(d, k, now); (e, Found(r))
    case OpDelete(k) => var (e, r) := DeleteKey(d, k); (e, Flag(r))
    case OpIncrement(k, amount) => var (e, r) := Increment(d, k, amount, now); (e, Counter(r))
    case OpKeys(matches) => var (e, r) := AllKeys(d, matches, now); (e, KeySet(r))
    case OpTtl(k, again) => var (e, r) := TtlRemaining(d, k, now, again); (e, Remaining(r))
    case OpExists(k) => var (e, r) := Exists(d, k, now); (e, Flag(r))
    case OpSetAdd(k, ms) => var (e, r) := SetAdd(d, k, ms, now); (e, Counted(r))
    case OpSetMembers(k) => var (e, r) := SetMembers(d, k, now); (e, MemberSet(r))
    case OpSetRemove(k, ms) => var (e, r) := SetRemove(d, k, ms); (e, Counted(r))
    case OpZAdd(k, m) => var (e, r) := ZAdd(d, k, m, now); (e, Counted(r))
    case OpZRange(k, lo, hi) => var (e, r) := ZRangeByScore(d, k, lo, hi, now); (e, MemberList(r))
    case OpZRemRange(k, lo, hi) => var (e, r) := ZRemRangeByScore(d, k, lo, hi); (e, Counted(r))
    case OpExpire(k, ttl) => var (e, r) := Expire(d, k, ttl, now); (e, Flag(r))
    case OpFlush => (map[], Nothing)
  }

  /** The eager store first drops everything that has expired. */
  function EagerStep(d: Data, op: Op, now: real): (Data, Answer) {
    Step(Purge(d, now), op, now)
  }

  /** The three removals report how much they removed, which counts what had expired; every other answer is a query. */
  predicate IsQuery(op: Op) {
    !op.OpDelete? && !op.OpSetRemove? && !op.OpZRemRange?
  }

  /** `expire` is only given keys that have not expired. */
  predicate Respects(d: Data, op: Op, now: real) {
    op.OpExpire? ==> !Dead(d, op.key, now)
  }

  lemma PurgeTwice(d: Data, s: real, t: real)
    requires s <= t
    ensures Purge(Purge(d, s), t) == Purge(d, t)
  {
  }

  lemma PurgeUpdate(d: Data, k: string, e: Entry, now: real)
    ensures Purge(d[k := e], now) == if Past(e, now) then Purge(d, now) - {k} else Purge(d, now)[k := e]
    ensures Purge(Purge(d, now)[k := e], now) == Purge(d[k := e], now)
  {
  }

  lemma PurgeRemove(d: Data, k: string, now: real)
    ensures Purge(d - {k}, now) == Purge(d, now) - {k}
    ensures Purge(Drop(d, k, now), now) == Purge(d, now)
  {
  }

  lemma PurgeKeepsLive(d: Data, k: string, now: real)
    ensures Live(d, k, now) <==> k in Purge(d, now)
    ensures Live(Purge(d, now), k, now) <==> Live(d, k, now)
    ensures Live(d, k, now) ==> Purge(d, now)[k] == d[k]
    ensures Purge(Purge(d, now), now) == Purge(d, now)
  {
  }

  /** Expired keys make no difference to any operation on keys, whichever way the operation treats them. */
  lemma StepIgnoresDead(d: Data, op: Op, now: real)
    requires Respects(d, op, now)
    ensures Purge(Step(d, op, now).0, now) == Purge(EagerStep(d, op, now).0, now)
    ensures IsQuery(op) ==> Step(d, op, now).1 == EagerStep(d, op, now).1
  {
    hide Purge;
    var p := Purge(d, now);
    if !op.OpKeys? && !op.OpFlush? {
      var k := op.key;
      PurgeKeepsLive(d, k, now);
      PurgeRemove(d, k, now);
      PurgeRemove(p, k, now);
      match op {
        case OpSet(_, v, ttl) =>
          PurgeUpdate(d, k, Entry(v, if ttl > 0 then Some(now + ttl as real) else None), now);
        case OpIncrement(_, amount) =>
          WriteIgnoresDead(d, k, Step(d, op, now).0[k], now);
        case OpSetAdd(_, ms) =>
          WriteIgnoresDead(d, k, Step(d, op, now).0[k], now);
        case OpZAdd(_, m) =>
          WriteIgnoresDead(d, k, Step(d, op, now).0[k], now);
        case OpSetRemove(_, ms) =>
          if k in d { EditIgnoresDead(d, k, Step(d, op, now).0[k], now); }
        case OpZRemRange(_, lo, hi) =>
          if k in d { EditIgnoresDead(d, k, Step(d, op, now).0[k], now); }
        case OpExpire(_, ttl) =>
          if k in d { EditIgnoresDead(d, k, Step(d, op, now).0[k], now); }
        case OpGet(_) =>
        case OpDelete(_) =>
        case OpTtl(_, _) =>
        case OpExists(_) =>
        case OpSetMembers(_) =>
        case OpZRange(_, _, _) =>
      }
    } else {
      PurgeKeepsLive(d, "", now);
    }
  }

  lemma WriteIgnoresDead(d: Data, k: string, e: Entry, now: real)
    ensures Purge(d[k := e], now) == Purge(Purge(d, now)[k := e], now)
  {
    PurgeUpdate(d, k, e, now);
  }

  lemma EditIgnoresDead(d: Data, k: string, e: Entry, now: real)
    requires k in d
    ensures Live(d, k, now) ==> Purge(d[k := e], now) == Purge(Purge(d, now)[k := e], now)
    ensures !Live(d, k, now) && Past(e, now) ==> Purge(d[k := e], now) == Purge(d, now)
  {
    PurgeUpdate(d, k, e, now);
  }

  /** The one operation that can tell: expiring an expired key revives it, unless the new expiry is past already. */
  lemma ExpireAgreesExactly(d: Data, k: string, ttl: int, now: real)
    ensures Purge(Step(d, OpExpire(k, ttl), now).0, now) == Purge(EagerStep(d, OpExpire(k, ttl), now).0, now)
            <==> !(Dead(d, k, now) && ttl >= 0)
  {
    var op := OpExpire(k, ttl);
    if !Dead(d, k, now) {
      StepIgnoresDead(d, op, now);
    } else {
      PurgeKeepsLive(d, k, now);
      PurgeUpdate(d, k, d[k].(expires := Some(now + ttl as real)), now);
      assert k in Purge(Step(d, op, now).0, now) <==> ttl >= 0;
    }
  }

  // ----- Runs -----

  datatype Call = Call(op: Op, at: real)

  function LazyRun(d: Data, calls: seq<Call>): Data {
    if calls == [] then d else
      var c := calls[|calls|-1];
      Step(LazyRun(d, calls[..|calls|-1]), c.op, c.at).0
  }

  function EagerRun(d: Data, calls: seq<Call>): Data {
    if calls == [] then d else
      var c := calls[|calls|-1];
      EagerStep(EagerRun(d, calls[..|calls|-1]), c.op, c.at).0
  }

  ghost predicate Monotone(calls: seq<Call>) {
    forall i, j :: 0 <= i < j < |calls| ==> calls[i].at <= calls[j].at
  }

  /** `op` is a write that leaves its key live at that instant. */
  predicate IsWrite(op: Op) {
    op.OpSet? || op.OpIncrement? || op.OpSetAdd? || op.OpZAdd?
  }

  /** Every `expire` directly follows a write to the same key, with no time passing in between. */
  ghost predicate ExpireFollowsWrite(calls: seq<Call>) {
    forall j :: 0 <= j < |calls| && calls[j].op.OpExpire? ==> j > 0 && Paired(calls[j-1], calls[j])
  }

  predicate Paired(write: Call, expire: Call) {
    expire.op.OpExpire? && IsWrite(write.op) && write.op.key == expire.op.key && write.at == expire.at
  }

  lemma WriteLeavesLive(d: Data, op: Op, now: real)
    requires IsWrite(op)
    ensures !Dead(Step(d, op, now).0, op.key, now)
  {
  }

  /** No `expire` of the run is given an expired key. */
  ghost predicate Respected(d: Data, calls: seq<Call>) {
    forall j :: 0 <= j < |calls| ==> Respects(LazyRun(d, calls[..j]), calls[j].op, calls[j].at)
  }

  lemma WritesAreRespected(d: Data, calls: seq<Call>)
    requires ExpireFollowsWrite(calls)
    ensures Respected(d, calls)
  {
    hide Step;
    forall j | 0 <= j < |calls| ensures Respects(LazyRun(d, calls[..j]), calls[j].op, calls[j].at) {
      if calls[j].op.OpExpire? {
        var init := calls[..j];
        assert Paired(calls[j-1], calls[j]) && init[|init|-1] == calls[j-1];
        WriteLeavesLive(LazyRun(d, init[..|init|-1]), calls[j-1].op, calls[j-1].at);
      }
    }
  }

  lemma PrefixFits(d: Data, calls: seq<Call>, n: nat)
    requires n <= |calls| && Monotone(calls) && Respected(d, calls)
    ensures Monotone(calls[..n]) && Respected(d, calls[..n])
  {
    hide Step, Respects;
    forall j | 0 <= j < n ensures Respects(LazyRun(d, calls[..n][..j]), calls[..n][j].op, calls[..n][j].at) {
      assert calls[..n][..j] == calls[..j];
    }
  }

  lemma {:induction false} LiveContentsAgree(d: Data, calls: seq<Call>, now: real)
    requires Monotone(calls) && Respected(d, calls) && (calls != [] ==> calls[|calls|-1].at <= now)
    ensures Purge(LazyRun(d, calls), now) == Purge(EagerRun(d, calls), now)
  {
    hide Step, Purge, Respects;
    if calls != [] {
      var n := |calls| - 1;
      var c := calls[n];
      var init := calls[..n];
      PrefixFits(d, calls, n);
      assert init != [] ==> init[|init|-1].at <= c.at;
      LiveContentsAgree(d, init, c.at);
      var l, e := LazyRun(d, init), EagerRun(d, init);
      assert EagerStep(e, c.op, c.at) == EagerStep(l, c.op, c.at);
      assert Respects(l, calls[n].op, calls[n].at);
      StepIgnoresDead(l, c.op, c.at);
      PurgeTwice(Step(l, c.op, c.at).0, c.at, now);
      PurgeTwice(EagerStep(l, c.op, c.at).0, c.at, now);
    }
  }

  lemma QueryAgrees(d: Data, calls: seq<Call>, i: nat)
    requires Monotone(calls) && Respected(d, calls)
    requires i < |calls| && IsQuery(calls[i].op)
    ensures Step(LazyRun(d, calls[..i]), calls[i].op, calls[i].at).1 ==
            EagerStep(EagerRun(d, calls[..i]), calls[i].op, calls[i].at).1
  {
    hide Step, Purge, Respects;
    var c := calls[i];
    var init := calls[..i];
    PrefixFits(d, calls, i);
    assert init != [] ==> init[|init|-1].at <= c.at;
    LiveContentsAgree(d, init, c.at);
    assert Respects(LazyRun(d, init), c.op, c.at);
    StepIgnoresDead(LazyRun(d, init), c.op, c.at);
  }

  /**
   Refinement: over every run in which no `expire` is given an expired key, the two stores agree on the live contents at
   any later time, and every query along the way gets the same answer from both.
   */
  lemma LazyRefinesEager(d: Data, calls: seq<Call>, now: real)
    requires Monotone(calls) && Respected(d, calls) && (calls != [] ==> calls[|calls|-1].at <= now)
    ensures Purge(LazyRun(d, calls), now) == Purge(EagerRun(d, calls), now)
    ensures QueriesAgree(d, calls)
  {
    hide Step, Purge, Respects;
    LiveContentsAgree(d, calls, now);
    forall i | 0 <= i < |calls| && IsQuery(calls[i].op) ensures SameAnswer(d, calls, i) {
      QueryAgrees(d, calls, i);
    }
  }

  predicate SameAnswer(d: Data, calls: seq<Call>, i: nat)
    requires i < |calls|
  {
    Step(LazyRun(d, calls[..i]), calls[i].op, calls[i].at).1 ==
    EagerStep(EagerRun(d, calls[..i]), calls[i].op, calls[i].at).1
  }

  /** Every query of the run gets the same answer from both stores. */
  ghost predicate QueriesAgree(d: Data, calls: seq<Call>) {
    forall i :: 0 <= i < |calls| && IsQuery(calls[i].op) ==> SameAnswer(d, calls, i)
  }

  lemma QueriesAgreeBefore(d: Data, calls: seq<Call>, n: nat)
    requires n <= |calls| && Monotone(calls) && QueriesAgree(d, calls)
    ensures Monotone(calls[..n]) && QueriesAgree(d, calls[..n])
  {
    hide Step, IsQuery;
    forall i | 0 <= i < n && IsQuery(calls[..n][i].op) ensures SameAnswer(d, calls[..n], i) {
      assert calls[..n][..i] == calls[..i];
      assert SameAnswer(d, calls, i);
    }
  }

  /** An `expire` on an expired key is answered differently by stores that agree on the live contents. */
  lemma ExpireTells(l: Data, e: Data, op: Op, now: real)
    requires Purge(l, now) == Purge(e, now) && !Respects(l, op, now)
    ensures IsQuery(op) && Step(l, op, now).1 != EagerStep(e, op, now).1
  {
    PurgeKeepsLive(l, op.key, now);
  }

  lemma {:induction false} AgreementIsRespect(d: Data, calls: seq<Call>)
    requires Monotone(calls) && QueriesAgree(d, calls)
    ensures Respected(d, calls)
  {
    hide Step, Purge, Respects, IsQuery;
    if calls != [] {
      var n := |calls| - 1;
      var c := calls[n];
      var init := calls[..n];
      QueriesAgreeBefore(d, calls, n);
      AgreementIsRespect(d, init);
      assert init != [] ==> init[|init|-1].at <= c.at;
      LiveContentsAgree(d, init, c.at);
      var l, e := LazyRun(d, init), EagerRun(d, init);
      assert IsQuery(c.op) ==> SameAnswer(d, calls, n);
      if !Respects(l, c.op, c.at) {
        ExpireTells(l, e, c.op, c.at);
        assert false;
      }
      forall j | 0 <= j < |calls| ensures Respects(LazyRun(d, calls[..j]), calls[j].op, calls[j].at) {
        if j < n {
          assert init[..j] == calls[..j] && Respects(LazyRun(d, init[..j]), init[j].op, init[j].at);
        }
      }
    }
  }

  /** The condition is exact: the stores answer alike throughout if and only if no `expire` is given an expired key. */
  lemma LazyRefinesEagerExactly(d: Data, calls: seq<Call>)
    requires Monotone(calls)
    ensures QueriesAgree(d, calls) <==> Respected(d, calls)
  {
    hide Step, Purge, Respects;
    if Respected(d, calls) {
      LazyRefinesEager(d, calls, if calls == [] then 0.0 else calls[|calls|-1].at);
    }
    if QueriesAgree(d, calls) {
      AgreementIsRespect(d, calls);
    }
  }

  /** So they do over every run in which each `expire` follows a write to its key in the same instant. */
  lemma LazyRefinesEagerAfterWrites(d: Data, calls: seq<Call>, now: real)
    requires Monotone(calls) && ExpireFollowsWrite(calls) && (calls != [] ==> calls[|calls|-1].at <= now)
    ensures Purge(LazyRun(d, calls), now) == Purge(EagerRun(d, calls), now) && QueriesAgree(d, calls)
  {
    hide Step, Purge, Respects;
    WritesAreRespected(d, calls);
    LazyRefinesEager(d, calls, now);
  }

  /**
   When time does pass between a write and the `expire` that follows it, what the latter finds: a value just set has
   expired if its own time to live is over by then, and any other write leaves a key that was live, and keeps its expiry,
   expired if that has come.
   */
  lemma WrittenKeyExpiresExactly(d: Data, op: Op, at: real, later: real)
    requires IsWrite(op) && at <= later
    ensures Dead(Step(d, op, at).0, op.key, later) <==>
            if op.OpSet? then op.ttl > 0 && at + op.ttl as real < later
            else Live(d, op.key, at) && Dead(d, op.key, later)
  {
  }
}
