/** What single store operations mean to each other: values last until they expire, and ranges are exact and sorted. */
module StoreLaws {
  import opened Prelude
  import opened TtlStore
  import opened StoreRefinement

  // ----- A value lasts exactly as long as its time to live -----

  /** No operation of the run names this key, and none clears the store. */
  ghost predicate Spares(calls: seq<Call>, key: string) {
    forall i :: 0 <= i < |calls| ==> calls[i].op.OpKeys? || (!calls[i].op.OpFlush? && calls[i].op.key != key)
  }

  lemma SparedStep(d: Data, op: Op, at: real, key: string)
    requires op.OpKeys? || (!op.OpFlush? && op.key != key)
    ensures var e := Step(d, op, at).0;
            if key in e then key in d && e[key] == d[key] else key !in d || Past(d[key], at)
  {
  }

  lemma {:induction false} SparedRun(d: Data, calls: seq<Call>, key: string, later: real)
    requires Spares(calls, key) && Monotone(calls) && (calls != [] ==> calls[|calls|-1].at <= later)
    requires key in d
    ensures var e := LazyRun(d, calls); if key in e then e[key] == d[key] else Past(d[key], later)
  {
    hide Step;
    if calls != [] {
      var n := |calls| - 1;
      assert n > 0 ==> calls[n-1].at <= calls[n].at;
      SparedRun(d, calls[..n], key, calls[n].at);
      SparedStep(LazyRun(d, calls[..n]), calls[n].op, calls[n].at, key);
    }
  }

  /** After a write and any run of operations on other keys, the value is read back exactly until it expires. */
  lemma ReadsBackUntilExpiry(d: Data, key: string, v: Value, ttl: int, now: real, calls: seq<Call>, later: real)
    requires Spares(calls, key) && Monotone(calls) && now <= later && (calls != [] ==> calls[|calls|-1].at <= later)
    ensures GetValue(LazyRun(SetWithTtl(d, key, v, ttl, now), calls), key, later).1 ==
            if ttl <= 0 || later <= now + ttl as real then Some(v) else None
  {
    SparedRun(SetWithTtl(d, key, v, ttl, now), calls, key, later);
  }

  /**
   A counter incremented again later, after any run on other keys, goes on from its value and keeps its expiry; once
   expired, it starts afresh and has none.
   */
  lemma IncrementsAddUntilExpiry(d: Data, key: string, n: int, ttl: int, now: real, calls: seq<Call>, amount: int, later: real)
    requires Spares(calls, key) && Monotone(calls) && now <= later && (calls != [] ==> calls[|calls|-1].at <= later)
    ensures var w := SetWithTtl(d, key, Number(n), ttl, now);
            var (e, r) := Increment(LazyRun(w, calls), key, amount, later);
            var alive := ttl <= 0 || later <= now + ttl as real;
            && key in e && r == Ok(if alive then n + amount else amount)
            && e[key] == Entry(Number(if alive then n + amount else amount), if alive then w[key].expires else None)
  {
    hide LazyRun;
    SparedRun(SetWithTtl(d, key, Number(n), ttl, now), calls, key, later);
  }

  // ----- Ranges of a sorted set -----

  ghost predicate Sorted(zs: seq<(Member, real)>) {
    forall i, j :: 0 <= i < j < |zs| ==> zs[i].1 <= zs[j].1
  }

  lemma {:induction false} InsertKeepsAll(zs: seq<(Member, real)>, x: (Member, real))
    ensures multiset(InsertByScore(zs, x)) == multiset(zs) + multiset{x}
  {
    if zs != [] {
      var n := |zs| - 1;
      assert zs == zs[..n] + [zs[n]];
      InsertKeepsAll(zs[..n], x);
    }
  }

  ghost predicate AtMost(zs: seq<(Member, real)>, score: real) {
    forall i :: 0 <= i < |zs| ==> zs[i].1 <= score
  }

  lemma {:induction false} InsertAtMost(zs: seq<(Member, real)>, x: (Member, real), score: real)
    requires AtMost(zs, score) && x.1 <= score
    ensures AtMost(InsertByScore(zs, x), score)
  {
    if zs != [] {
      InsertAtMost(zs[..|zs|-1], x, score);
    }
  }

  lemma {:induction false} InsertIsSorted(zs: seq<(Member, real)>, x: (Member, real))
    requires Sorted(zs)
    ensures Sorted(InsertByScore(zs, x))
  {
    if zs != [] {
      var n := |zs| - 1;
      if zs[n].1 > x.1 {
        InsertIsSorted(zs[..n], x);
        InsertAtMost(zs[..n], x, zs[n].1);
      }
    }
  }

  /** Sorting by score yields the same entries in score order. */
  lemma {:induction false} SortIsSorted(zs: seq<(Member, real)>)
    ensures Sorted(SortByScore(zs)) && multiset(SortByScore(zs)) == multiset(zs)
  {
    if zs != [] {
      var n := |zs| - 1;
      assert zs == zs[..n] + [zs[n]];
      SortIsSorted(zs[..n]);
      InsertIsSorted(SortByScore(zs[..n]), zs[n]);
      InsertKeepsAll(SortByScore(zs[..n]), zs[n]);
    }
  }

  /** The scores of the entries a range lists, in the order listed. */
  function ScoresWithin(zs: seq<(Member, real)>, lo: real, hi: real): seq<(Member, real)> {
    if zs == [] then [] else
      var n := |zs| - 1;
      ScoresWithin(zs[..n], lo, hi) + if lo <= zs[n].1 <= hi then [zs[n]] else []
  }

  lemma {:induction false} WithinIsFiltered(zs: seq<(Member, real)>, lo: real, hi: real)
    ensures var s := ScoresWithin(zs, lo, hi); var r := MembersWithin(zs, lo, hi);
            && |r| == |s| && (forall i :: 0 <= i < |r| ==> r[i] == s[i].0)
            && forall x :: x in s <==> x in zs && lo <= x.1 <= hi
    ensures Sorted(zs) ==> Sorted(ScoresWithin(zs, lo, hi))
  {
    if zs != [] {
      var n := |zs| - 1;
      WithinIsFiltered(zs[..n], lo, hi);
      assert zs == zs[..n] + [zs[n]];
      var s := ScoresWithin(zs[..n], lo, hi);
      forall i | 0 <= i < |s| ensures Sorted(zs) ==> s[i].1 <= zs[n].1 {
        assert s[i] in s;
        assert s[i] in zs[..n];
      }
    }
  }

  /** A range query lists exactly the members whose score is in range, in order of score. */
  lemma RangeIsExactAndSorted(d: Data, key: string, lo: real, hi: real, now: real)
    requires Live(d, key, now) && d[key].value.Ranked?
    ensures var s := ScoresWithin(SortByScore(d[key].value.zs), lo, hi);
            var r := ZRangeByScore(d, key, lo, hi, now).1;
            && Sorted(s) && |r| == |s| && (forall i :: 0 <= i < |r| ==> r[i] == s[i].0)
            && forall x :: x in s <==> x in d[key].value.zs && lo <= x.1 <= hi
  {
    var zs := d[key].value.zs;
    var sorted := SortByScore(zs);
    SortIsSorted(zs);
    WithinIsFiltered(sorted, lo, hi);
    assert forall x :: x in sorted <==> x in multiset(sorted);
    assert forall x :: x in zs <==> x in multiset(zs);
  }

  lemma {:induction false} OutsideIsComplement(zs: seq<(Member, real)>, lo: real, hi: real)
    ensures multiset(zs) == multiset(Outside(zs, lo, hi)) + multiset(ScoresWithin(zs, lo, hi))
  {
    if zs != [] {
      var n := |zs| - 1;
      assert zs == zs[..n] + [zs[n]];
      OutsideIsComplement(zs[..n], lo, hi);
    }
  }

  lemma {:induction false} NothingLeftInRange(zs: seq<(Member, real)>, lo: real, hi: real)
    ensures ScoresWithin(Outside(zs, lo, hi), lo, hi) == []
  {
    if zs != [] {
      var n := |zs| - 1;
      NothingLeftInRange(zs[..n], lo, hi);
      var kept := Outside(zs[..n], lo, hi);
      assert (kept + [zs[n]])[..|kept|] == kept;
      assert kept + [] == kept;
    }
  }

  /** Removing a range removes exactly what the range lists, and reports how much that was. */
  lemma RemovalIsExact(d: Data, key: string, lo: real, hi: real)
    requires key in d && d[key].value.Ranked?
    ensures var (e, n) := ZRemRangeByScore(d, key, lo, hi);
            var gone := ScoresWithin(d[key].value.zs, lo, hi);
            && key in e && e[key].value.Ranked? && e[key].expires == d[key].expires
            && multiset(d[key].value.zs) == multiset(e[key].value.zs) + multiset(gone)
            && n == |gone| && ScoresWithin(e[key].value.zs, lo, hi) == []
  {
    var zs := d[key].value.zs;
    OutsideIsComplement(zs, lo, hi);
    NothingLeftInRange(zs, lo, hi);
    assert |multiset(zs)| == |zs|;
    assert |multiset(Outside(zs, lo, hi))| == |Outside(zs, lo, hi)|;
    assert |multiset(ScoresWithin(zs, lo, hi))| == |ScoresWithin(zs, lo, hi)|;
  }
}
