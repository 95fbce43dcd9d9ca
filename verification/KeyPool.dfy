/**
 The pool of API keys of one provider, key_pool.py: health, back-off and rotation.

 `Pool` is the abstract state and the functions on it specify the methods of class `ApiKeyPool`.
 */
module KeyPools {
  import opened Prelude

  datatype Entry = Entry(plaintext: string, dbId: Option<string>, usage: nat, errors: nat, healthy: bool,
                         lastUsed: Option<real>)

  datatype Pool = Pool(keys: seq<Entry>, counter: nat, backoff: map<int, real>)

  /** Every strategy name the configuration may hold other than the first two means round robin. */
  datatype Strategy = Random | LeastUsed | RoundRobin

  const EMPTY_POOL := Pool([], 0, map[])
  const ERROR_THRESHOLD := 10

  predicate BackedOff(p: Pool, i: int, now: real) {
    i in p.backoff && now < p.backoff[i]
  }

  predicate IsUsable(p: Pool, i: nat, now: real)
    requires i < |p.keys|
  {
    p.keys[i].healthy && !BackedOff(p, i, now)
  }

  /** The usable indices below `n`, in pool order. */
  function UsableBelow(p: Pool, n: nat, now: real): (us: seq<nat>)
    requires n <= |p.keys|
    ensures forall i: nat :: i in us <==> i < n && IsUsable(p, i, now)
    ensures forall a :: 0 <= a < |us| ==> us[a] < n
    ensures forall a, b :: 0 <= a < b < |us| ==> us[a] < us[b]
  {
    if n == 0 then [] else
      UsableBelow(p, n - 1, now) + if IsUsable(p, n - 1, now) then [n - 1] else []
  }

  function Usable(p: Pool, now: real): seq<nat> {
    UsableBelow(p, |p.keys|, now)
  }

  /** A healthy key's back-off entry whose time has come; looking at the key drops it. */
  predicate Lapsed(p: Pool, i: int, now: real) {
    0 <= i < |p.keys| && p.keys[i].healthy && i in p.backoff && now >= p.backoff[i]
  }

  /** The back-off entries left once the keys below `n` have been looked at. */
  function LeftBelow(p: Pool, n: nat, now: real): map<int, real> {
    map i | i in p.backoff && !(i < n && Lapsed(p, i, now)) :: p.backoff[i]
  }

  function Sweep(p: Pool, now: real): Pool {
    p.(backoff := LeftBelow(p, |p.keys|, now))
  }

  lemma LookAtNext(p: Pool, n: nat, now: real)
    requires n < |p.keys|
    ensures LeftBelow(p, n + 1, now) ==
            if Lapsed(p, n, now) then LeftBelow(p, n, now) - {n} else LeftBelow(p, n, now)
    ensures n in LeftBelow(p, n, now) <==> n in p.backoff
    ensures n in p.backoff ==> LeftBelow(p, n, now)[n] == p.backoff[n]
  {
  }

  /** The position of the first of `us` with the least usage count, as Python's `min` finds it. */
  function LeastUsedAt(keys: seq<Entry>, us: seq<nat>): (b: nat)
    requires us != [] && forall a :: 0 <= a < |us| ==> us[a] < |keys|
    ensures b < |us|
    ensures forall a :: 0 <= a < |us| ==> keys[us[b]].usage <= keys[us[a]].usage
    ensures forall a :: 0 <= a < b ==> keys[us[b]].usage < keys[us[a]].usage
  {
    var n := |us| - 1;
    if n == 0 then 0
    else
      var b := LeastUsedAt(keys, us[..n]);
      if keys[us[n]].usage < keys[us[b]].usage then n else b
  }

  function LeastUsedOf(keys: seq<Entry>, us: seq<nat>): nat
    requires us != [] && forall a :: 0 <= a < |us| ==> us[a] < |keys|
  {
    us[LeastUsedAt(keys, us)]
  }

  /** `choice` stands for the random number generator. */
  function NextKey(p: Pool, strategy: Strategy, now: real, choice: nat): (Pool, Option<nat>) {
    var us := Usable(p, now);
    var q := Sweep(p, now);
    if us == [] then (q, None)
    else
      match strategy
      case Random => (q, Some(us[choice % |us|]))
      case LeastUsed => (q, Some(LeastUsedOf(p.keys, us)))
      case RoundRobin => (q.(counter := p.counter + 1), Some(us[p.counter % |us|]))
  }

  function MarkError(p: Pool, i: int, threshold: int): Pool {
    if 0 <= i < |p.keys| then
      var e := p.keys[i].(errors := p.keys[i].errors + 1);
      p.(keys := p.keys[i := if e.errors >= threshold then e.(healthy := false) else e])
    else p
  }

  function MarkSuccess(p: Pool, i: int, now: real): Pool {
    if 0 <= i < |p.keys| then
      p.(keys := p.keys[i := p.keys[i].(usage := p.keys[i].usage + 1, healthy := true, lastUsed := Some(now))])
    else p
  }

  function MarkRateLimited(p: Pool, i: int, seconds: int, now: real): Pool {
    p.(backoff := p.backoff[i := now + seconds as real])
  }

  function NewEntry(plaintext: string, dbId: Option<string>): Entry {
    Entry(plaintext, dbId, 0, 0, true, None)
  }

  function AddKey(p: Pool, plaintext: string, dbId: Option<string>): Pool {
    p.(keys := p.keys + [NewEntry(plaintext, dbId)])
  }

  class ApiKeyPool {
    const provider: string
    var keys: seq<Entry>
    var counter: nat
    var backoff: map<int, real>

    ghost function View(): Pool
      reads this
    {
      Pool(keys, counter, backoff)
    }

    constructor (provider: string)
      ensures View() == EMPTY_POOL && this.provider == provider
    {
      this.provider := provider;
      keys, counter, backoff := [], 0, map[];
    }

    /** Asking about a lapsed entry removes it. */
    method IsBackedOff(index: int, now: real) returns (yes: bool)
      modifies `backoff
      ensures yes == BackedOff(old(View()), index, now)
      ensures backoff == if index in old(backoff) && now >= old(backoff)[index]
                         then old(backoff) - {index} else old(backoff)
    {
      if index !in backoff {
        return false;
      }
      if now >= backoff[index] {
        backoff := backoff - {index};
        return false;
      }
      return true;
    }

    /** The list of usable keys; looking for them drops the lapsed back-off entries on the way. */
    method CollectUsable(now: real) returns (healthy: seq<nat>)
      modifies `backoff
      ensures View() == Sweep(old(View()), now)
      ensures healthy == Usable(old(View()), now)
    {
      ghost var was := View();
      healthy := [];
      var i := 0;
      while i < |keys|
        invariant 0 <= i <= |keys|
        invariant healthy == UsableBelow(was, i, now)
        invariant backoff == LeftBelow(was, i, now)
      {
        LookAtNext(was, i, now);
        if keys[i].healthy {
          var out := IsBackedOff(i, now);
          if !out {
            healthy := healthy + [i];
          }
        }
        i := i + 1;
      }
    }

    method GetNextKey(strategy: Strategy, now: real, choice: nat) returns (r: Option<(string, nat)>)
      modifies this
      ensures View() == NextKey(old(View()), strategy, now, choice).0
      ensures var picked := NextKey(old(View()), strategy, now, choice).1;
              match picked
              case None => r == None
              case Some(i) => i < |keys| && r == Some((keys[i].plaintext, i))
    {
      if keys == [] {
        assert Sweep(View(), now) == View();
        return None;
      }
      var healthy := CollectUsable(now);
      if healthy == [] {
        return None;
      }
      var idx: nat;
      match strategy {
        case Random =>
          idx := healthy[choice % |healthy|];
        case LeastUsed =>
          idx := LeastUsedOf(keys, healthy);
        case RoundRobin =>
          idx := healthy[counter % |healthy|];
          counter := counter + 1;
      }
      r := Some((keys[idx].plaintext, idx));
    }

    method RecordError(index: int, threshold: int)
      modifies this
      ensures View() == MarkError(old(View()), index, threshold)
    {
      if 0 <= index < |keys| {
        keys := keys[index := keys[index].(errors := keys[index].errors + 1)];
        if keys[index].errors >= threshold {
          keys := keys[index := keys[index].(healthy := false)];
        }
      }
    }

    method RecordSuccess(index: int, now: real)
      modifies this
      ensures View() == MarkSuccess(old(View()), index, now)
    {
      if 0 <= index < |keys| {
        keys := keys[index := keys[index].(usage := keys[index].usage + 1)];
        keys := keys[index := keys[index].(healthy := true)];
        keys := keys[index := keys[index].(lastUsed := Some(now))];
      }
    }

    method RecordRateLimited(index: int, retryAfterSeconds: int, now: real)
      modifies this
      ensures View() == MarkRateLimited(old(View()), index, retryAfterSeconds, now)
    {
      backoff := backoff[index := now + retryAfterSeconds as real];
    }

    method Add(plaintext: string, dbId: Option<string>)
      modifies this
      ensures View() == AddKey(old(View()), plaintext, dbId)
    {
      keys := keys + [NewEntry(plaintext, dbId)];
    }
  }

  function PoolAt(m: map<string, Pool>, provider: string): Pool {
    if provider in m then m[provider] else EMPTY_POOL
  }

  /** The pools of all providers, created empty on first use. */
  class KeyPoolManager {
    var pools: map<string, ApiKeyPool>

    ghost predicate Valid()
      reads this
    {
      forall a, b :: a in pools && b in pools && a != b ==> pools[a] != pools[b]
    }

    ghost function View(): map<string, Pool>
      reads this, pools.Values
    {
      map a | a in pools :: pools[a].View()
    }

    constructor ()
      ensures Valid() && View() == map[] && pools == map[]
    {
      pools := map[];
    }

    /** When only one pool has changed, only that entry of the view has. */
    twostate lemma OnePoolChanged(provider: string)
      requires Valid() && unchanged(this) && provider in pools
      requires forall a :: a in pools && a != provider ==> unchanged(pools[a])
      ensures View() == old(View())[provider := pools[provider].View()]
    {
      forall a | a in pools && a != provider ensures pools[a].View() == old(pools[a].View()) {
        assert unchanged(pools[a]);
      }
    }

    method GetPool(provider: string) returns (p: ApiKeyPool)
      requires Valid()
      modifies this
      ensures Valid()
      ensures provider in pools && pools[provider] == p
      ensures View() == old(View())[provider := PoolAt(old(View()), provider)]
      ensures p in old(pools.Values) || fresh(p)
      ensures pools.Values == old(pools.Values) + {p}
    {
      if provider !in pools {
        p := new ApiKeyPool(provider);
        var was := pools;
        pools := pools[provider := p];
        assert pools.Values == was.Values + {p} by {
          forall c | c in was.Values ensures c in pools.Values {
            var a :| a in was && was[a] == c;
            assert pools[a] == c;
          }
          assert pools[provider] == p;
        }
      }
      p := pools[provider];
    }
  }
}
