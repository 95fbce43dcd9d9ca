/**
 The in-memory key-value store with time-to-live, redis_client.py: values, counters, sets and sorted sets, all in
 one dictionary, expired lazily.

 Each operation is specified by a function from the dictionary and one clock reading to the new dictionary and the
 answer; class `InMemoryStore` updates its dictionary in place and is proved equal to these functions.
 */
module TtlStore {
  import opened Prelude

  /** A member string: "{time}:{tag}", or one from which neither a time nor a number of tokens can be read. */
  datatype Member = Stamped(at: real, tag: int) | Label(text: string)

  /** A stored string is a `Number` when Python's int() reads it, a `Text` when it does not. */
  datatype Value = Text(s: string) | Number(n: int) | Members(ms: set<Member>) | Ranked(zs: seq<(Member, real)>)

  datatype Entry = Entry(value: Value, expires: Option<real>)

  type Data = map<string, Entry>

  datatype Error = ValueError

  // ----- Expiry -----

  predicate Past(e: Entry, now: real) {
    e.expires.Some? && now > e.expires.value
  }

  predicate Dead(d: Data, k: string, now: real) {
    k in d && Past(d[k], now)
  }

  predicate Live(d: Data, k: string, now: real) {
    k in d && !Past(d[k], now)
  }

  /** Asking whether a key has expired removes it when it has. */
  function Drop(d: Data, k: string, now: real): Data {
    if Dead(d, k, now) then d - {k} else d
  }

  /** The dictionary without its expired keys. */
  function Purge(d: Data, now: real): Data {
    map k | k in d && !Past(d[k], now) :: d[k]
  }

  // ----- Plain values and counters -----

  function SetWithTtl(d: Data, k: string, v: Value, ttl: int, now: real): Data {
    d[k := Entry(v, if ttl > 0 then Some(now + ttl as real) else None)]
  }

  function GetValue(d: Data, k: string, now: real): (Data, Option<Value>) {
    (Drop(d, k, now), if Live(d, k, now) then Some(d[k].value) else None)
  }

  function DeleteKey(d: Data, k: string): (Data, bool) {
    (d - {k}, k in d)
  }

  /** A counter that is absent or expired starts again, without an expiry; a live one keeps its own. */
  function Increment(d: Data, k: string, amount: int, now: real): (Data, Result<int, Error>) {
    if !Live(d, k, now) then (d[k := Entry(Number(amount), None)], Ok(amount))
    else if d[k].value.Number? then
      (d[k := d[k].(value := Number(d[k].value.n + amount))], Ok(d[k].value.n + amount))
    else (d, Err(ValueError))
  }

  /** The live keys that match a pattern. */
  function AllKeys(d: Data, matches: string -> bool, now: real): (Data, set<string>) {
    (Purge(d, now), set k | k in Purge(d, now) && matches(k))
  }

  /** None: no such key; -1: no expiry.  What remains is computed from a second clock reading. */
  function TtlRemaining(d: Data, k: string, now: real, again: real): (Data, Option<int>) {
    (Drop(d, k, now),
     if !Live(d, k, now) then None
     else if d[k].expires == None then Some(-1)
     else Some(Max(ToInt(d[k].expires.value - again), 0)))
  }

  function Exists(d: Data, k: string, now: real): (Data, bool) {
    (Drop(d, k, now), Live(d, k, now))
  }

  /** Sets a new expiry on any key present, expired or not. */
  function Expire(d: Data, k: string, ttl: int, now: real): (Data, bool) {
    if k in d then (d[k := d[k].(expires := Some(now + ttl as real))], true) else (d, false)
  }

  // ----- Sets -----

  function ToSet<T>(xs: seq<T>): set<T> {
    set x | x in xs
  }

  function SetAdd(d: Data, k: string, members: seq<Member>, now: real): (Data, int) {
    var e := if Live(d, k, now) then d[k] else Entry(Members({}), None);
    var was := if e.value.Members? then e.value.ms else {};
    (d[k := Entry(Members(was + ToSet(members)), e.expires)], |members|)
  }

  function SetMembers(d: Data, k: string, now: real): (Data, set<Member>) {
    (Drop(d, k, now), if Live(d, k, now) && d[k].value.Members? then d[k].value.ms else {})
  }

  /** How many of `members`, taken one after another, are found in `ms`. */
  function RemovedCount(ms: set<Member>, members: seq<Member>): int {
    if members == [] then 0 else
      var n := |members| - 1;
      RemovedCount(ms, members[..n]) + if members[n] in ms && members[n] !in members[..n] then 1 else 0
  }

  /** No expiry check: an expired set is edited in place. */
  function SetRemove(d: Data, k: string, members: seq<Member>): (Data, int) {
    if k in d && d[k].value.Members?
    then (d[k := d[k].(value := Members(d[k].value.ms - ToSet(members)))], RemovedCount(d[k].value.ms, members))
    else (d, 0)
  }

  // ----- Sorted sets, kept in insertion order -----

  function PlaceOf(zs: seq<(Member, real)>, m: Member): (i: nat)
    ensures i <= |zs| && (i < |zs| ==> zs[i].0 == m)
    ensures forall j :: 0 <= j < i ==> zs[j].0 != m
  {
    if zs == [] || zs[0].0 == m then 0 else 1 + PlaceOf(zs[1..], m)
  }

  /** A dictionary update: an old member keeps its place, a new one goes to the end. */
  function ZPut(zs: seq<(Member, real)>, m: Member, score: real): seq<(Member, real)> {
    var i := PlaceOf(zs, m);
    if i < |zs| then zs[i := (m, score)] else zs + [(m, score)]
  }

  function ZPutAll(zs: seq<(Member, real)>, more: seq<(Member, real)>): seq<(Member, real)> {
    if more == [] then zs else
      var n := |more| - 1;
      ZPut(ZPutAll(zs, more[..n]), more[n].0, more[n].1)
  }

  function ZNew(zs: seq<(Member, real)>, more: seq<(Member, real)>): int {
    if more == [] then 0 else
      var n := |more| - 1;
      ZNew(zs, more[..n]) + if PlaceOf(ZPutAll(zs, more[..n]), more[n].0) < |ZPutAll(zs, more[..n])| then 0 else 1
  }

  function RankedAt(d: Data, k: string, now: real): Entry {
    if Live(d, k, now) then (if d[k].value.Ranked? then d[k] else d[k].(value := Ranked([])))
    else Entry(Ranked([]), None)
  }

  function ZAdd(d: Data, k: string, more: seq<(Member, real)>, now: real): (Data, int) {
    var e := RankedAt(d, k, now);
    (d[k := Entry(Ranked(ZPutAll(e.value.zs, more)), e.expires)], ZNew(e.value.zs, more))
  }

  /** Insertion that keeps equal scores in order of arrival. */
  function InsertByScore(sorted: seq<(Member, real)>, x: (Member, real)): seq<(Member, real)> {
    if sorted == [] then [x]
    else
      var n := |sorted| - 1;
      if sorted[n].1 <= x.1 then sorted + [x] else InsertByScore(sorted[..n], x) + [sorted[n]]
  }

  /** Python's stable `sorted` by score. */
  function SortByScore(zs: seq<(Member, real)>): seq<(Member, real)> {
    if zs == [] then [] else InsertByScore(SortByScore(zs[..|zs|-1]), zs[|zs|-1])
  }

  function MembersWithin(zs: seq<(Member, real)>, lo: real, hi: real): seq<Member> {
    if zs == [] then [] else
      var n := |zs| - 1;
      MembersWithin(zs[..n], lo, hi) + if lo <= zs[n].1 <= hi then [zs[n].0] else []
  }

  function Outside(zs: seq<(Member, real)>, lo: real, hi: real): seq<(Member, real)> {
    if zs == [] then [] else
      var n := |zs| - 1;
      Outside(zs[..n], lo, hi) + if lo <= zs[n].1 <= hi then [] else [zs[n]]
  }

  function ZRangeByScore(d: Data, k: string, lo: real, hi: real, now: real): (Data, seq<Member>) {
    (Drop(d, k, now),
     if Live(d, k, now) && d[k].value.Ranked? then MembersWithin(SortByScore(d[k].value.zs), lo, hi) else [])
  }

  /** No expiry check: an expired sorted set is pruned in place. */
  function ZRemRangeByScore(d: Data, k: string, lo: real, hi: real): (Data, int) {
    if k in d && d[k].value.Ranked?
    then
      var kept := Outside(d[k].value.zs, lo, hi);
      (d[k := d[k].(value := Ranked(kept))], |d[k].value.zs| - |kept|)
    else (d, 0)
  }

  /** Writing a key forgets whatever the key held, expired or not. */
  lemma Overwrites(d: Data, k: string, e: Entry, f: Entry, now: real)
    ensures Drop(d, k, now)[k := e] == d[k := e]
    ensures Drop(d, k, now)[k := f][k := e] == d[k := e]
  {
  }

  // ----- The store -----

  class InMemoryStore {
    var data: Data

    constructor ()
      ensures data == map[]
    {
      data := map[];
    }

    /** Absent counts as expired. */
    method IsExpired(key: string, now: real) returns (yes: bool)
      modifies this
      ensures data == Drop(old(data), key, now) && yes == !Live(old(data), key, now)
    {
      if key !in data {
        return true;
      }
      var e := data[key];
      if e.expires.Some? && now > e.expires.value {
        data := data - {key};
        return true;
      }
      return false;
    }

    method PutWithTtl(key: string, value: Value, ttlSeconds: int, now: real)
      modifies this
      ensures data == SetWithTtl(old(data), key, value, ttlSeconds, now)
    {
      var expiresAt := if ttlSeconds > 0 then Some(now + ttlSeconds as real) else None;
      data := data[key := Entry(value, expiresAt)];
    }

    method Get(key: string, now: real) returns (r: Option<Value>)
      modifies this
      ensures (data, r) == GetValue(old(data), key, now)
    {
      var gone := IsExpired(key, now);
      r := if gone then None else Some(data[key].value);
    }

    method Delete(key: string) returns (was: bool)
      modifies this
      ensures (data, was) == DeleteKey(old(data), key)
    {
      was := key in data;
      data := data - {key};
    }

    method Bump(key: string, amount: int, now: real) returns (r: Result<int, Error>)
      modifies this
      ensures (data, r) == Increment(old(data), key, amount, now)
    {
      var gone := IsExpired(key, now);
      if gone {
        Overwrites(old(data), key, Entry(Number(amount), None), Entry(Number(amount), None), now);
        data := data[key := Entry(Number(amount), None)];
        return Ok(amount);
      }
      var e := data[key];
      if !e.value.Number? {
        return Err(ValueError);
      }
      var fresh' := e.value.n + amount;
      data := data[key := Entry(Number(fresh'), e.expires)];
      r := Ok(fresh');
    }

    method Keys(matches: string -> bool, now: real) returns (r: set<string>)
      modifies this
      ensures (data, r) == AllKeys(old(data), matches, now)
    {
      var expired := set k | k in data && Past(data[k], now);
      data := data - expired;
      assert data == Purge(old(data), now);
      r := set k | k in data && matches(k);
    }

    method Ttl(key: string, now: real, again: real) returns (r: Option<int>)
      modifies this
      ensures (data, r) == TtlRemaining(old(data), key, now, again)
    {
      var gone := IsExpired(key, now);
      if gone {
        return None;
      }
      var e := data[key];
      if e.expires == None {
        return Some(-1);
      }
      r := Some(Max(ToInt(e.expires.value - again), 0));
    }

    method Has(key: string, now: real) returns (r: bool)
      modifies this
      ensures (data, r) == Exists(old(data), key, now)
    {
      var gone := IsExpired(key, now);
      r := !gone;
    }

    method SetExpiry(key: string, ttlSeconds: int, now: real) returns (r: bool)
      modifies this
      ensures (data, r) == Expire(old(data), key, ttlSeconds, now)
    {
      if key !in data {
        return false;
      }
      data := data[key := Entry(data[key].value, Some(now + ttlSeconds as real))];
      r := true;
    }

    method AddMembers(key: string, members: seq<Member>, now: real) returns (added: int)
      modifies this
      ensures (data, added) == SetAdd(old(data), key, members, now)
    {
      var gone := IsExpired(key, now);
      if gone {
        data := data[key := Entry(Members({}), None)];
      }
      var e := data[key];
      var current := if e.value.Members? then e.value.ms else {};
      Overwrites(old(data), key, Entry(Members(current + ToSet(members)), e.expires), e, now);
      data := data[key := Entry(Members(current + ToSet(members)), e.expires)];
      added := |members|;
    }

    method MembersOf(key: string, now: real) returns (r: set<Member>)
      modifies this
      ensures (data, r) == SetMembers(old(data), key, now)
    {
      var gone := IsExpired(key, now);
      r := if !gone && data[key].value.Members? then data[key].value.ms else {};
    }

    method RemoveMembers(key: string, members: seq<Member>) returns (removed: int)
      modifies this
      ensures (data, removed) == SetRemove(old(data), key, members)
    {
      if key !in data || !data[key].value.Members? {
        return 0;
      }
      var current := data[key].value.ms;
      removed := 0;
      var i := 0;
      while i < |members|
        invariant 0 <= i <= |members|
        invariant current == old(data)[key].value.ms - ToSet(members[..i])
        invariant removed == RemovedCount(old(data)[key].value.ms, members[..i])
        invariant data == old(data)
      {
        assert members[..i+1][..i] == members[..i];
        if members[i] in current {
          current := current - {members[i]};
          removed := removed + 1;
        }
        i := i + 1;
      }
      assert members[..i] == members;
      data := data[key := Entry(Members(current), data[key].expires)];
    }

    method AddRanked(key: string, mapping: seq<(Member, real)>, now: real) returns (added: int)
      modifies this
      ensures (data, added) == ZAdd(old(data), key, mapping, now)
    {
      var gone := IsExpired(key, now);
      if gone {
        data := data[key := Entry(Ranked([]), None)];
      }
      var e := data[key];
      var start := if e.value.Ranked? then e.value.zs else [];
      var zset := start;
      added := 0;
      ghost var kept := data;
      var i := 0;
      while i < |mapping|
        invariant 0 <= i <= |mapping|
        invariant zset == ZPutAll(start, mapping[..i]) && added == ZNew(start, mapping[..i])
        invariant data == kept
      {
        assert mapping[..i+1][..i] == mapping[..i];
        var (member, score) := mapping[i];
        if PlaceOf(zset, member) == |zset| {
          added := added + 1;
        }
        zset := ZPut(zset, member, score);
        i := i + 1;
      }
      assert mapping[..i] == mapping;
      Overwrites(old(data), key, Entry(Ranked(zset), e.expires), e, now);
      data := data[key := Entry(Ranked(zset), e.expires)];
    }

    method RangeByScore(key: string, minScore: real, maxScore: real, now: real) returns (r: seq<Member>)
      modifies this
      ensures (data, r) == ZRangeByScore(old(data), key, minScore, maxScore, now)
    {
      var gone := IsExpired(key, now);
      if gone || !data[key].value.Ranked? {
        return [];
      }
      r := MembersWithin(SortByScore(data[key].value.zs), minScore, maxScore);
    }

    method RemoveByScore(key: string, minScore: real, maxScore: real) returns (removed: int)
      modifies this
      ensures (data, removed) == ZRemRangeByScore(old(data), key, minScore, maxScore)
    {
      if key !in data || !data[key].value.Ranked? {
        return 0;
      }
      var zset := data[key].value.zs;
      var kept: seq<(Member, real)> := [];
      var i := 0;
      while i < |zset|
        invariant 0 <= i <= |zset|
        invariant kept == Outside(zset[..i], minScore, maxScore)
        invariant data == old(data)
      {
        assert zset[..i+1][..i] == zset[..i];
        if !(minScore <= zset[i].1 <= maxScore) {
          kept := kept + [zset[i]];
        }
        i := i + 1;
      }
      assert zset[..i] == zset;
      data := data[key := Entry(Ranked(kept), data[key].expires)];
      removed := |zset| - |kept|;
    }

    method FlushDb()
      modifies this
      ensures data == map[]
    {
      data := map[];
    }
  }
}
