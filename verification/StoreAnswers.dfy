/**
 What the store answers about sets, sorted sets and keys, said by membership and counting, and over runs of operations
 on other keys.
 */
module StoreAnswers {
  import opened Prelude
  import opened TtlStore
  import opened StoreRefinement
  import opened StoreLaws

  /** A run on other keys that ends by `later`. */
  ghost predicate Quiet(calls: seq<Call>, key: string, later: real) {
    Spares(calls, key) && Monotone(calls) && (calls != [] ==> calls[|calls|-1].at <= later)
  }

  /** After such a run a key is as it was, or gone because it has expired. */
  lemma StillThere(d: Data, calls: seq<Call>, key: string, later: real)
    requires Quiet(calls, key, later) && key in d
    ensures var e := LazyRun(d, calls);
            && (Live(e, key, later) <==> Live(d, key, later))
            && (Live(d, key, later) ==> e[key] == d[key])
  {
    SparedRun(d, calls, key, later);
  }

  // ----- Sets -----

  /**
   Adding to a set: from then on until the set's expiry, which stays what it was, exactly the earlier and the added
   members are in it.  A set that was not there, or had expired, begins with the added members and no expiry.
   */
  lemma AddedMembersStay(d: Data, key: string, more: seq<Member>, now: real, calls: seq<Call>, later: real)
    requires Quiet(calls, key, later) && now <= later
    ensures var before := SetMembers(d, key, now).1;
            var (e, added) := SetAdd(d, key, more, now);
            var after := SetMembers(LazyRun(e, calls), key, later).1;
            && added == |more|
            && key in e && e[key].expires == (if Live(d, key, now) then d[key].expires else None)
            && (!Live(d, key, now) ==> before == {})
            && (forall x :: x in after <==> !Past(e[key], later) && (x in before || x in more))
  {
    StillThere(SetAdd(d, key, more, now).0, calls, key, later);
  }

  /** The members among `ms` that are named, each once. */
  function Named(ms: set<Member>, members: seq<Member>): set<Member> {
    set x | x in ms && x in members
  }

  lemma {:induction false} RemovedAreNamed(ms: set<Member>, members: seq<Member>)
    ensures RemovedCount(ms, members) == |Named(ms, members)|
  {
    if members == [] {
      assert Named(ms, members) == {};
    } else {
      var n := |members| - 1;
      var x := members[n];
      RemovedAreNamed(ms, members[..n]);
      assert members == members[..n] + [x];
      if x in ms && x !in members[..n] {
        assert Named(ms, members) == Named(ms, members[..n]) + {x};
      } else {
        assert Named(ms, members) == Named(ms, members[..n]);
      }
    }
  }

  /**
   Removing from a set: exactly the named members go, the expiry stays, and the count is how many different ones were
   there.  A key that holds no set is left alone.
   */
  lemma RemovedMembersGo(d: Data, key: string, members: seq<Member>, calls: seq<Call>, later: real)
    requires Quiet(calls, key, later)
    ensures var (e, removed) := SetRemove(d, key, members);
            if key in d && d[key].value.Members? then
              && key in e && e[key].expires == d[key].expires
              && removed == |Named(d[key].value.ms, members)|
              && forall x :: x in SetMembers(LazyRun(e, calls), key, later).1 <==>
                   x in SetMembers(d, key, later).1 && x !in members
            else e == d && removed == 0
  {
    if key in d && d[key].value.Members? {
      RemovedAreNamed(d[key].value.ms, members);
      StillThere(SetRemove(d, key, members).0, calls, key, later);
    }
  }

  // ----- Sorted sets -----

  /** A dictionary has each member once. */
  ghost predicate OncePerMember(zs: seq<(Member, real)>) {
    forall i, j :: 0 <= i < j < |zs| ==> zs[i].0 != zs[j].0
  }

  predicate Scored(zs: seq<(Member, real)>, m: Member) {
    exists i :: 0 <= i < |zs| && zs[i].0 == m
  }

  /** The members of `more` that `zs` does not have. */
  function NewMembers(zs: seq<(Member, real)>, more: seq<(Member, real)>): set<Member> {
    set x | x in more && !Scored(zs, x.0) :: x.0
  }

  lemma PutExactly(zs: seq<(Member, real)>, m: Member, score: real)
    requires OncePerMember(zs)
    ensures var r := ZPut(zs, m, score);
            && OncePerMember(r)
            && |r| == |zs| + (if Scored(zs, m) then 0 else 1)
            && (forall x :: x in r <==> x == (m, score) || (x in zs && x.0 != m))
            && (forall i :: 0 <= i < |zs| ==> r[i].0 == zs[i].0)
  {
    var r := ZPut(zs, m, score);
    var i := PlaceOf(zs, m);
    assert i < |zs| <==> Scored(zs, m);
    assert r[i] == (m, score);
    forall x | x in zs && x.0 != m ensures x in r {
      var j :| 0 <= j < |zs| && zs[j] == x;
      assert r[j] == x;
    }
  }

  lemma ScoredByMembership(zs: seq<(Member, real)>, m: Member)
    ensures Scored(zs, m) <==> exists x :: x in zs && x.0 == m
  {
    if x :| x in zs && x.0 == m {
      var i :| 0 <= i < |zs| && zs[i] == x;
      assert zs[i].0 == m;
    }
  }

  /** Each named member has its new score, every other its old one, and old members keep their places. */
  ghost predicate Merged(zs: seq<(Member, real)>, more: seq<(Member, real)>, r: seq<(Member, real)>) {
    && OncePerMember(r)
    && (forall x :: x in r <==> x in more || (x in zs && !Scored(more, x.0)))
    && |zs| <= |r| && (forall i :: 0 <= i < |zs| ==> r[i].0 == zs[i].0)
  }

  lemma MergedScores(zs: seq<(Member, real)>, more: seq<(Member, real)>, r: seq<(Member, real)>, m: Member)
    requires Merged(zs, more, r)
    ensures Scored(r, m) <==> Scored(zs, m) || Scored(more, m)
  {
    ScoredByMembership(r, m);
    ScoredByMembership(zs, m);
    ScoredByMembership(more, m);
  }

  lemma ScoredWithLast(init: seq<(Member, real)>, last: (Member, real), m: Member)
    ensures Scored(init + [last], m) <==> Scored(init, m) || last.0 == m
  {
    ScoredByMembership(init + [last], m);
    ScoredByMembership(init, m);
  }

  lemma MergedNext(zs: seq<(Member, real)>, init: seq<(Member, real)>, last: (Member, real), r: seq<(Member, real)>)
    requires Merged(zs, init, r) && !Scored(init, last.0)
    ensures Merged(zs, init + [last], ZPut(r, last.0, last.1))
  {
    hide ZPut, Scored;
    PutExactly(r, last.0, last.1);
    var s := ZPut(r, last.0, last.1);
    forall x ensures x in s <==> x in init + [last] || (x in zs && !Scored(init + [last], x.0)) {
      ScoredWithLast(init, last, x.0);
      if x in init && x.0 == last.0 {
        ScoredByMembership(init, x.0);
        assert false;
      }
    }
  }

  lemma {:induction false} PutAllExactly(zs: seq<(Member, real)>, more: seq<(Member, real)>)
    requires OncePerMember(zs) && OncePerMember(more)
    ensures Merged(zs, more, ZPutAll(zs, more))
    ensures ZNew(zs, more) == |NewMembers(zs, more)|
  {
    hide ZPut, Merged, OncePerMember, Scored;
    if more == [] {
      NothingMerged(zs);
      assert NewMembers(zs, more) == {};
    } else {
      var n := |more| - 1;
      var init := more[..n];
      assert more == init + [more[n]];
      OnceBefore(init, more[n]);
      PutAllExactly(zs, init);
      MergedNext(zs, init, more[n], ZPutAll(zs, init));
      NewWithLast(zs, init, more[n]);
      MergedScores(zs, init, ZPutAll(zs, init), more[n].0);
      PlacedIsScored(ZPutAll(zs, init), more[n].0);
    }
  }

  lemma PlacedIsScored(zs: seq<(Member, real)>, m: Member)
    ensures PlaceOf(zs, m) < |zs| <==> Scored(zs, m)
  {
    if PlaceOf(zs, m) < |zs| {
      assert zs[PlaceOf(zs, m)].0 == m;
    }
  }

  lemma NothingMerged(zs: seq<(Member, real)>)
    requires OncePerMember(zs)
    ensures Merged(zs, [], zs)
  {
  }

  lemma OnceBefore(init: seq<(Member, real)>, last: (Member, real))
    requires OncePerMember(init + [last])
    ensures OncePerMember(init) && !Scored(init, last.0)
  {
    LastIsNew(init, last);
    var more := init + [last];
    assert forall i :: 0 <= i < |init| ==> more[i] == init[i];
  }

  lemma LastIsNew(init: seq<(Member, real)>, last: (Member, real))
    requires OncePerMember(init + [last])
    ensures !Scored(init, last.0)
  {
    var more := init + [last];
    assert forall i :: 0 <= i < |init| ==> more[i] == init[i];
    assert more[|init|] == last;
  }

  lemma NewWithLast(zs: seq<(Member, real)>, init: seq<(Member, real)>, last: (Member, real))
    requires !Scored(init, last.0)
    ensures |NewMembers(zs, init + [last])| == |NewMembers(zs, init)| + (if Scored(zs, last.0) then 0 else 1)
  {
    var more := init + [last];
    assert last in more;
    forall x | x in init ensures x.0 != last.0 {
      var i :| 0 <= i < |init| && init[i] == x;
    }
    if Scored(zs, last.0) {
      assert NewMembers(zs, more) == NewMembers(zs, init);
    } else {
      assert NewMembers(zs, more) == NewMembers(zs, init) + {last.0};
      assert last.0 !in NewMembers(zs, init);
    }
  }

  /**
   Adding to a sorted set: until its expiry, which stays what it was, a range lists exactly the entries just given and
   those of the earlier ones whose member was not named, and the count is how many members are new.
   */
  lemma RankedMembersStay(d: Data, key: string, more: seq<(Member, real)>, now: real)
    requires OncePerMember(more)
    requires Live(d, key, now) && d[key].value.Ranked? ==> OncePerMember(d[key].value.zs)
    ensures var before := if Live(d, key, now) && d[key].value.Ranked? then d[key].value.zs else [];
            var (e, added) := ZAdd(d, key, more, now);
            && key in e && e[key].value.Ranked? && OncePerMember(e[key].value.zs)
            && e[key].expires == (if Live(d, key, now) then d[key].expires else None)
            && added == |NewMembers(before, more)|
            && (forall x :: x in e[key].value.zs <==> x in more || (x in before && !Scored(more, x.0)))
  {
    hide ZPutAll, ZNew, Scored;
    PutAllExactly(if Live(d, key, now) && d[key].value.Ranked? then d[key].value.zs else [], more);
  }

  // ----- Keys -----

  /** `seconds` is what is left of `time` in whole seconds. */
  predicate WholeSeconds(seconds: int, time: real) {
    seconds as real <= time < (seconds + 1) as real
  }

  /**
   After a write and any run on other keys, existence, the list of keys and the seconds left say the same: there until
   the time to live is over, and not afterwards.
   */
  lemma WrittenKeyIsReported(d: Data, key: string, v: Value, ttl: int, now: real, calls: seq<Call>, later: real,
                             again: real, matches: string -> bool)
    requires Quiet(calls, key, later) && now <= later <= again
    ensures var e := LazyRun(SetWithTtl(d, key, v, ttl, now), calls);
            var there := ttl <= 0 || later <= now + ttl as real;
            var left := TtlRemaining(e, key, later, again).1;
            && (Exists(e, key, later).1 <==> there)
            && (key in AllKeys(e, matches, later).1 <==> there && matches(key))
            && (left == None <==> !there)
            && (there && ttl <= 0 ==> left == Some(-1))
            && (there && ttl > 0 && again <= now + ttl as real ==>
                  left.Some? && WholeSeconds(left.value, now + ttl as real - again))
            && (there && ttl > 0 && again > now + ttl as real ==> left == Some(0))
  {
    StillThere(SetWithTtl(d, key, v, ttl, now), calls, key, later);
  }

  /** A deleted key is gone for every question, every other key is as it was, and the answer is whether it was there. */
  lemma DeletedKeyIsGone(d: Data, key: string, now: real, matches: string -> bool)
    ensures var (e, was) := DeleteKey(d, key);
            && (was <==> key in d)
            && GetValue(e, key, now).1 == None && !Exists(e, key, now).1 && key !in AllKeys(e, matches, now).1
            && (forall k :: k != key ==> (k in e <==> k in d) && (k in d ==> e[k] == d[k]))
  {
  }

  /** An increment of something that is not a number raises and changes nothing. */
  lemma OnlyNumbersIncrement(d: Data, key: string, amount: int, now: real)
    ensures Increment(d, key, amount, now).1.Err? <==> Live(d, key, now) && !d[key].value.Number?
    ensures Increment(d, key, amount, now).1.Err? ==> Increment(d, key, amount, now).0 == d
  {
  }

  /**
   A new expiry, whether or not the key had one: from then on, over any run on other keys, the value is read back exactly
   until then, and the answer is whether there is such a key.
   */
  lemma NewExpiryHolds(d: Data, key: string, ttl: int, now: real, calls: seq<Call>, later: real)
    requires Quiet(calls, key, later) && now <= later
    ensures var (e, was) := Expire(d, key, ttl, now);
            && (was <==> key in d) && (!was ==> e == d)
            && (was ==> GetValue(LazyRun(e, calls), key, later).1 ==
                        if later <= now + ttl as real then Some(d[key].value) else None)
  {
    if key in d {
      StillThere(Expire(d, key, ttl, now).0, calls, key, later);
    }
  }
}
