/** What rotation through a pool guarantees over runs of picks. */
module PoolFairness {
  import opened Prelude
  import opened KeyPools

  // ----- Counting in residue classes -----

  /** How many of the `n` numbers c, c+1, ..., c+n-1 leave remainder `r` modulo `k`. */
  function Hits(c: nat, n: nat, k: nat, r: nat): nat
    requires 0 < k
  {
    if n == 0 then 0 else Hits(c, n - 1, k, r) + if (c + n - 1) % k == r then 1 else 0
  }

  /** The number of x < m with x % k == r, in closed form. */
  function Below(m: nat, k: nat, r: nat): nat
    requires r < k
  {
    (m + (k - 1 - r)) / k
  }

  lemma DivStep(a: nat, k: nat)
    requires 0 < k
    ensures (a + 1) / k == a / k + if (a + 1) % k == 0 then 1 else 0
  {
    var q, s := a / k, a % k;
    assert a == k * q + s;
    if s == k - 1 {
      assert a + 1 == k * (q + 1);
      DivUnique(a + 1, k, q + 1, 0);
    } else {
      DivUnique(a + 1, k, q, s + 1);
    }
  }

  lemma DivUnique(a: int, k: nat, q: int, s: nat)
    requires 0 < k && s < k && a == k * q + s
    ensures a / k == q && a % k == s
  {
    var d := a / k - q;
    assert k * d == s - a % k by {
      assert a == k * (a / k) + a % k;
      assert k * (a / k) - k * q == k * d;
    }
    assert d >= 1 ==> k * d >= k;
    assert d <= -1 ==> k * d <= -1 * k;
  }

  lemma BelowStep(m: nat, k: nat, r: nat)
    requires r < k
    ensures Below(m + 1, k, r) == Below(m, k, r) + if m % k == r then 1 else 0
  {
    var a := m + (k - 1 - r);
    DivStep(a, k);
    var q, s := m / k, m % k;
    assert m == k * q + s;
    if s < r {
      DivUnique(a + 1, k, q, s + k - r);
    } else {
      assert a + 1 == k * (q + 1) + (s - r);
      DivUnique(a + 1, k, q + 1, s - r);
    }
  }

  lemma {:induction false} HitsClosedForm(c: nat, n: nat, k: nat, r: nat)
    requires r < k
    ensures Hits(c, n, k, r) == Below(c + n, k, r) - Below(c, k, r)
  {
    if n > 0 {
      HitsClosedForm(c, n - 1, k, r);
      BelowStep(c + n - 1, k, r);
    }
  }

  lemma DivOfSum(a: nat, n: nat, k: nat)
    requires 0 < k
    ensures (a + n) / k == a / k + n / k + if a % k + n % k >= k then 1 else 0
  {
    var qa, sa, qn, sn := a / k, a % k, n / k, n % k;
    assert a == k * qa + sa && n == k * qn + sn;
    if sa + sn < k {
      assert a + n == k * (qa + qn) + (sa + sn);
      DivUnique(a + n, k, qa + qn, sa + sn);
    } else {
      assert a + n == k * (qa + qn + 1) + (sa + sn - k);
      DivUnique(a + n, k, qa + qn + 1, sa + sn - k);
    }
  }

  lemma DivSpread(a: nat, n: nat, k: nat)
    requires 0 < k
    ensures n / k <= (a + n) / k - a / k <= (n + k - 1) / k
  {
    DivOfSum(a, n, k);
    DivOfSum(n, k - 1, k);
    DivUnique(k - 1, k, 0, k - 1);
  }

  /** Any k consecutive counter values hit every remainder. */
  lemma Reaches(c: nat, k: nat, r: nat) returns (j: nat)
    requires r < k
    ensures j < k && (c + j) % k == r
  {
    var q, s := c / k, c % k;
    assert c == k * q + s;
    if s <= r {
      j := r - s;
      DivUnique(c + j, k, q, r);
    } else {
      j := k - s + r;
      assert c + j == k * (q + 1) + r;
      DivUnique(c + j, k, q + 1, r);
    }
  }

  /** Of any n consecutive numbers, floor(n/k) or ceil(n/k) leave a given remainder. */
  lemma HitsSpread(c: nat, n: nat, k: nat, r: nat)
    requires r < k
    ensures n / k <= Hits(c, n, k, r) <= (n + k - 1) / k
  {
    hide Hits;
    HitsClosedForm(c, n, k, r);
    var a := c + (k - 1 - r);
    assert a + n == c + n + (k - 1 - r);
    DivSpread(a, n, k);
  }

  lemma NoHits(c: nat, k: nat, r: nat)
    requires r < k
    ensures Hits(c, 0, k, r) == 0
  {
  }

  // ----- Who is usable -----

  /** Dropping lapsed entries at one moment changes nothing at a moment with the same usable keys. */
  lemma SweepKeepsUsable(p: Pool, t: real, u: real, n: nat)
    requires n <= |p.keys|
    requires t <= u || Usable(p, t) == Usable(p, u)
    ensures UsableBelow(Sweep(p, t), n, u) == UsableBelow(p, n, u)
  {
  }

  /** The counter plays no part in which keys are usable. */
  lemma {:induction false} UsableIgnoresCounter(p: Pool, c: nat, now: real, n: nat)
    requires n <= |p.keys|
    ensures UsableBelow(p.(counter := c), n, now) == UsableBelow(p, n, now)
  {
    if n > 0 {
      UsableIgnoresCounter(p, c, now, n - 1);
    }
  }

  // ----- Runs of operations -----

  datatype PoolOp =
    | Get(strategy: Strategy, at: real, choice: nat)
    | Erred(index: int)
    | Worked(index: int, at: real)
    | Limited(index: int, seconds: int, at: real)
    | Added(plaintext: string, dbId: Option<string>)

  function Apply(p: Pool, op: PoolOp): Pool {
    match op
    case Get(strategy, at, choice) => NextKey(p, strategy, at, choice).0
    case Erred(i) => MarkError(p, i, ERROR_THRESHOLD)
    case Worked(i, at) => MarkSuccess(p, i, at)
    case Limited(i, s, at) => MarkRateLimited(p, i, s, at)
    case Added(k, id) => AddKey(p, k, id)
  }

  /** The picks of a run, in order. */
  function PicksIn(p: Pool, ops: seq<PoolOp>): seq<Option<nat>>
    decreases |ops|
  {
    if ops == [] then [] else
      (match ops[0]
       case Get(strategy, at, choice) => [NextKey(p, strategy, at, choice).1]
       case Erred(_) => []
       case Worked(_, _) => []
       case Limited(_, _, _) => []
       case Added(_, _) => []) + PicksIn(Apply(p, ops[0]), ops[1..])
  }

  /** Every pick of the run is by round robin and sees the usable keys `us`, whatever is marked or added in between. */
  predicate SameAtEveryGet(p: Pool, ops: seq<PoolOp>, us: seq<nat>)
    decreases |ops|
  {
    ops == [] ||
    (&& (ops[0].Get? ==> ops[0].strategy == RoundRobin && Usable(p, ops[0].at) == us)
     && SameAtEveryGet(Apply(p, ops[0]), ops[1..], us))
  }

  function Occurrences(picks: seq<Option<nat>>, key: nat): nat {
    if picks == [] then 0 else
      Occurrences(picks[..|picks|-1], key) + if picks[|picks|-1] == Some(key) then 1 else 0
  }

  lemma NextPickRotates(p: Pool, t: real, choice: nat, us: seq<nat>)
    requires us != [] && Usable(p, t) == us
    ensures var (q, picked) := NextKey(p, RoundRobin, t, choice);
            picked == Some(us[p.counter % |us|]) && q.counter == p.counter + 1
  {
  }

  /** Only picking moves the counter. */
  lemma MarksKeepCounter(p: Pool, op: PoolOp)
    requires !op.Get?
    ensures Apply(p, op).counter == p.counter
  {
  }

  /** The picks go round `us` from counter `c`. */
  ghost predicate GoRound(picks: seq<Option<nat>>, us: seq<nat>, c: nat)
    requires us != []
  {
    forall j :: 0 <= j < |picks| ==> picks[j] == Some(us[(c + j) % |us|])
  }

  lemma GoRoundFurther(first: Option<nat>, picks: seq<Option<nat>>, us: seq<nat>, c: nat)
    requires us != [] && first == Some(us[c % |us|]) && GoRound(picks, us, c + 1)
    ensures GoRound([first] + picks, us, c)
  {
    var all := [first] + picks;
    forall j | 0 <= j < |all| ensures all[j] == Some(us[(c + j) % |us|]) {
      if j > 0 {
        assert all[j] == picks[j - 1];
        assert (c + 1) + (j - 1) == c + j;
      }
    }
  }

  lemma {:induction false} PicksRotate(p: Pool, ops: seq<PoolOp>, us: seq<nat>)
    requires us != [] && SameAtEveryGet(p, ops, us)
    ensures GoRound(PicksIn(p, ops), us, p.counter)
    decreases |ops|
  {
    hide NextKey, Usable, GoRound, Apply;
    if ops == [] {
      NoPicks(us, p.counter);
    } else {
      var q := Apply(p, ops[0]);
      PicksRotate(q, ops[1..], us);
      var rest := PicksIn(q, ops[1..]);
      if ops[0].Get? {
        PickApplies(p, ops[0]);
        NextPickRotates(p, ops[0].at, ops[0].choice, us);
        GoRoundFurther(NextKey(p, RoundRobin, ops[0].at, ops[0].choice).1, rest, us, p.counter);
      } else {
        MarksKeepCounter(p, ops[0]);
        assert [] + rest == rest;
      }
    }
  }

  lemma PickApplies(p: Pool, op: PoolOp)
    requires op.Get?
    ensures Apply(p, op) == NextKey(p, op.strategy, op.at, op.choice).0
  {
    hide NextKey;
  }

  lemma NoPicks(us: seq<nat>, c: nat)
    requires us != []
    ensures GoRound([], us, c)
  {
  }

  lemma {:induction false} OccurrencesAreHits(picks: seq<Option<nat>>, us: seq<nat>, c: nat, r: nat)
    requires r < |us| && forall a, b :: 0 <= a < b < |us| ==> us[a] < us[b]
    requires GoRound(picks, us, c)
    ensures Occurrences(picks, us[r]) == Hits(c, |picks|, |us|, r)
  {
    if picks != [] {
      OccurrencesAreHits(picks[..|picks|-1], us, c, r);
      var pos := (c + |picks| - 1) % |us|;
      assert picks[|picks|-1] == Some(us[pos]);
    }
  }

  /** What a pick has seen is in pool order. */
  lemma {:induction false} SeenAscends(p: Pool, ops: seq<PoolOp>, us: seq<nat>)
    requires SameAtEveryGet(p, ops, us) && PicksIn(p, ops) != []
    ensures forall a, b :: 0 <= a < b < |us| ==> us[a] < us[b]
    decreases |ops|
  {
    hide NextKey, Apply;
    if !ops[0].Get? {
      SeenAscends(Apply(p, ops[0]), ops[1..], us);
    }
  }

  /**
   Fairness: over any run of operations, marks and new keys included, whose picks all see the same k usable keys, n picks
   give each of these keys floor(n/k) or ceil(n/k) picks, from any counter value.
   */
  lemma RoundRobinIsFair(p: Pool, ops: seq<PoolOp>, us: seq<nat>, r: nat)
    requires r < |us| && SameAtEveryGet(p, ops, us)
    ensures var picks := PicksIn(p, ops);
            |picks| / |us| <= Occurrences(picks, us[r]) <= (|picks| + |us| - 1) / |us|
  {
    hide Hits, PicksIn, SameAtEveryGet, GoRound;
    var picks := PicksIn(p, ops);
    HitsSpread(p.counter, |picks|, |us|, r);
    if picks == [] {
      NoHits(p.counter, |us|, r);
    } else {
      SeenAscends(p, ops, us);
      PicksRotate(p, ops, us);
      OccurrencesAreHits(picks, us, p.counter, r);
    }
  }

  // ----- Health over runs -----

  function ApplyAll(ops: seq<PoolOp>): Pool {
    if ops == [] then EMPTY_POOL else Apply(ApplyAll(ops[..|ops|-1]), ops[|ops|-1])
  }

  /** The last mark made on key `i` since it was added is an error. */
  function LastMarkIsError(ops: seq<PoolOp>, i: nat): bool {
    if ops == [] then false else
      var n := |ops| - 1;
      match ops[n]
      case Erred(j) => if i == j then i < |ApplyAll(ops[..n]).keys| else LastMarkIsError(ops[..n], i)
      case Worked(j, _) => if i == j then false else LastMarkIsError(ops[..n], i)
      case Added(_, _) => i < |ApplyAll(ops[..n]).keys| && LastMarkIsError(ops[..n], i)
      case Get(_, _, _) => LastMarkIsError(ops[..n], i)
      case Limited(_, _, _) => LastMarkIsError(ops[..n], i)
  }

  /** How often key `i` has been marked as erring since it was added; successes do not clear the count. */
  function ErrorMarks(ops: seq<PoolOp>, i: nat): nat {
    if ops == [] then 0 else
      var n := |ops| - 1;
      ErrorMarks(ops[..n], i) + if ops[n] == Erred(i) && i < |ApplyAll(ops[..n]).keys| then 1 else 0
  }

  /**
   Health, in every run: a key is unhealthy exactly when it has been marked as erring at least ten times in all and
   the last mark on it is an error.
   */
  lemma {:induction false} UnhealthyExactly(ops: seq<PoolOp>, i: nat)
    requires i < |ApplyAll(ops).keys|
    ensures ApplyAll(ops).keys[i].errors == ErrorMarks(ops, i)
    ensures !ApplyAll(ops).keys[i].healthy <==> ErrorMarks(ops, i) >= ERROR_THRESHOLD && LastMarkIsError(ops, i)
  {
    hide NextKey;
    if ops != [] {
      var n := |ops| - 1;
      var prev := ApplyAll(ops[..n]);
      PickKeepsKeys(prev, ops[n]);
      if i < |prev.keys| {
        UnhealthyExactly(ops[..n], i);
      } else {
        NotYetAdded(ops[..n], i);
      }
    }
  }

  lemma PickKeepsKeys(p: Pool, op: PoolOp)
    ensures op.Get? ==> Apply(p, op).keys == p.keys
  {
  }

  lemma {:induction false} NotYetAdded(ops: seq<PoolOp>, i: nat)
    requires i >= |ApplyAll(ops).keys|
    ensures ErrorMarks(ops, i) == 0 && !LastMarkIsError(ops, i)
  {
    hide NextKey;
    if ops != [] {
      PickKeepsKeys(ApplyAll(ops[..|ops|-1]), ops[|ops|-1]);
      NotYetAdded(ops[..|ops|-1], i);
    }
  }

  // ----- One pick -----

  /** The back-off of a key lasts. */
  predicate Resting(p: Pool, i: int, now: real) {
    i in p.backoff && now < p.backoff[i]
  }

  /**
   What one pick comes to, whatever the strategy: none exactly when every key is unhealthy or resting, else one that is
   neither, least-used the first of least usage; keys are left alone, round robin's counter moves by one with the pick,
   and the back-off entries of healthy keys whose time has come are dropped.
   */
  lemma PickExactly(p: Pool, strategy: Strategy, now: real, choice: nat)
    ensures var (q, picked) := NextKey(p, strategy, now, choice);
            && (picked == None <==> forall i :: 0 <= i < |p.keys| ==> !p.keys[i].healthy || Resting(p, i, now))
            && (picked.Some? ==>
                  var i := picked.value;
                  && i < |p.keys| && p.keys[i].healthy && !Resting(p, i, now)
                  && (strategy.LeastUsed? ==>
                        forall j :: 0 <= j < |p.keys| && p.keys[j].healthy && !Resting(p, j, now) ==>
                          p.keys[i].usage < p.keys[j].usage || (p.keys[i].usage == p.keys[j].usage && i <= j)))
            && q.keys == p.keys
            && q.counter == (if strategy.RoundRobin? && picked.Some? then p.counter + 1 else p.counter)
            && (forall k :: k in q.backoff <==>
                  k in p.backoff && (0 <= k < |p.keys| && p.keys[k].healthy ==> now < p.backoff[k]))
            && (forall k :: k in q.backoff ==> q.backoff[k] == p.backoff[k])
  {
    hide LeastUsedOf;
    var us := Usable(p, now);
    assert forall i: nat :: i in us <==> i < |p.keys| && IsUsable(p, i, now);
    if us == [] {
      forall i | 0 <= i < |p.keys| ensures !p.keys[i].healthy || Resting(p, i, now) {
        assert i !in us;
      }
    } else {
      LeastUsedIsFirst(p, now);
      var i := NextKey(p, strategy, now, choice).1.value;
      assert i in us;
    }
  }

  lemma LeastUsedIsFirst(p: Pool, now: real)
    requires Usable(p, now) != []
    ensures forall a :: 0 <= a < |Usable(p, now)| ==> Usable(p, now)[a] < |p.keys|
    ensures var i := LeastUsedOf(p.keys, Usable(p, now));
            && i in Usable(p, now)
            && forall j :: 0 <= j < |p.keys| && p.keys[j].healthy && !Resting(p, j, now) ==>
                 p.keys[i].usage < p.keys[j].usage || (p.keys[i].usage == p.keys[j].usage && i <= j)
  {
    var us := Usable(p, now);
    var b := LeastUsedAt(p.keys, us);
    forall j | 0 <= j < |p.keys| && p.keys[j].healthy && !Resting(p, j, now)
      ensures p.keys[us[b]].usage < p.keys[j].usage || (p.keys[us[b]].usage == p.keys[j].usage && us[b] <= j)
    {
      assert IsUsable(p, j, now);
      assert j in us;
      var a :| 0 <= a < |us| && us[a] == j;
      assert a < b ==> p.keys[us[b]].usage < p.keys[us[a]].usage;
    }
  }

  /** Under random choice every key that is healthy and not resting is picked, by exactly one of the first choices. */
  lemma RandomReachesAll(p: Pool, now: real, i: nat)
    requires i < |p.keys| && p.keys[i].healthy && !Resting(p, i, now)
    ensures exists c: nat :: c < |Usable(p, now)| && NextKey(p, Random, now, c).1 == Some(i)
    ensures forall c: nat, d: nat :: c < d < |Usable(p, now)| ==>
              NextKey(p, Random, now, c).1 != NextKey(p, Random, now, d).1
  {
    hide NextKey, Usable;
    var us := Usable(p, now);
    UsableIsListed(p, now, i);
    forall c: nat | c < |us| ensures NextKey(p, Random, now, c).1 == Some(us[c]) {
      RandomPicks(p, now, c);
    }
    var c :| 0 <= c < |us| && us[c] == i;
    assert NextKey(p, Random, now, c).1 == Some(i);
  }

  lemma RandomPicks(p: Pool, now: real, c: nat)
    requires c < |Usable(p, now)|
    ensures NextKey(p, Random, now, c).1 == Some(Usable(p, now)[c])
  {
    hide Usable;
    DivUnique(c, |Usable(p, now)|, 0, c);
  }

  lemma UsableIsListed(p: Pool, now: real, i: nat)
    requires i < |p.keys| && p.keys[i].healthy && !Resting(p, i, now)
    ensures i in Usable(p, now)
    ensures forall a, b :: 0 <= a < b < |Usable(p, now)| ==> Usable(p, now)[a] != Usable(p, now)[b]
  {
    assert IsUsable(p, i, now);
  }

  // ----- What a pool holds -----

  /** The keys added, in order. */
  function AddedIn(ops: seq<PoolOp>): seq<(string, Option<string>)> {
    if ops == [] then [] else
      var n := |ops| - 1;
      AddedIn(ops[..n]) + if ops[n].Added? then [(ops[n].plaintext, ops[n].dbId)] else []
  }

  /** How often key `i` has been marked as used since it was added. */
  function UseMarks(ops: seq<PoolOp>, i: nat): nat {
    if ops == [] then 0 else
      var n := |ops| - 1;
      UseMarks(ops[..n], i) + if ops[n].Worked? && ops[n].index == i && i < |AddedIn(ops[..n])| then 1 else 0
  }

  /** When it was last marked so. */
  function LastUse(ops: seq<PoolOp>, i: nat): Option<real> {
    if ops == [] then None else
      var n := |ops| - 1;
      if ops[n].Worked? && ops[n].index == i && i < |AddedIn(ops[..n])| then Some(ops[n].at) else LastUse(ops[..n], i)
  }

  /** When the back-off set by the latest 429 on index `i` ends. */
  function LastRest(ops: seq<PoolOp>, i: int): Option<real> {
    if ops == [] then None else
      var n := |ops| - 1;
      if ops[n].Limited? && ops[n].index == i then Some(ops[n].at + ops[n].seconds as real) else LastRest(ops[..n], i)
  }

  /**
   Over every run a pool holds exactly the keys added, in order, each with the secret it was added with, its number of
   successes and the time of the last one.
   */
  lemma {:induction false} KeysAreAsAdded(ops: seq<PoolOp>)
    ensures |ApplyAll(ops).keys| == |AddedIn(ops)|
    ensures forall i: nat :: i < |AddedIn(ops)| ==>
              var e := ApplyAll(ops).keys[i];
              && (e.plaintext, e.dbId) == AddedIn(ops)[i] && e.usage == UseMarks(ops, i) && e.lastUsed == LastUse(ops, i)
  {
    hide NextKey;
    if ops != [] {
      var n := |ops| - 1;
      KeysAreAsAdded(ops[..n]);
      PickKeepsKeys(ApplyAll(ops[..n]), ops[n]);
      if ops[n].Added? {
        NotYetUsed(ops[..n], |AddedIn(ops[..n])|);
      }
    }
  }

  lemma {:induction false} NotYetUsed(ops: seq<PoolOp>, i: nat)
    requires i >= |AddedIn(ops)|
    ensures UseMarks(ops, i) == 0 && LastUse(ops, i) == None
  {
    if ops != [] {
      NotYetUsed(ops[..|ops|-1], i);
    }
  }

  /** Any back-off a pool holds is the one set by the latest 429 on its index. */
  lemma {:induction false} BackoffIsLatest(ops: seq<PoolOp>, i: int)
    ensures i in ApplyAll(ops).backoff ==> LastRest(ops, i) == Some(ApplyAll(ops).backoff[i])
  {
    if ops != [] {
      var n := |ops| - 1;
      BackoffIsLatest(ops[..n], i);
      if ops[n].Get? {
        PickExactly(ApplyAll(ops[..n]), ops[n].strategy, ops[n].at, ops[n].choice);
      }
    }
  }
}
