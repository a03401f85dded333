/** Folding the per-domain results into the version table: `Counter(results)`, its
    `most_common()` ordering, and the loop that drops the entry for unreachable
    servers (main.py, lines 156-162). */
module Aggregate {
  import opened Wrappers
  import opened Dict

  // ---------------------------------------------------------------------------
  // Counter(results)

  /** The counting step of `Counter`: one more occurrence of `k`. */
  function Bump<K(==)>(t: seq<(K, nat)>, k: K): seq<(K, nat)>
  {
    var i := IndexOf(t, k);
    if i < |t| then t[i := (k, t[i].1 + 1)] else t + [(k, 1)]
  }

  /** `Counter(s)` as its items: each element with its number of occurrences. */
  function Tally<K(==)>(s: seq<K>): seq<(K, nat)>
  {
    if s == [] then [] else Bump(Tally(s[..|s| - 1]), s[|s| - 1])
  }

  /** The distinct elements of `s`, each at the place it first occurs. */
  function Dedup<K(==)>(s: seq<K>): (r: seq<K>)
    ensures forall i :: 0 <= i < |s| ==> s[i] in r
    ensures forall i :: 0 <= i < |r| ==> r[i] in s
    ensures forall i, j :: 0 <= i < j < |r| ==> r[i] != r[j]
  {
    if s == [] then []
    else
      var p := Dedup(s[..|s| - 1]);
      assert forall i :: 0 <= i < |s| - 1 ==> s[i] in s[..|s| - 1] && s[i] in p;
      if s[|s| - 1] in s[..|s| - 1] then p else p + [s[|s| - 1]]
  }

  /** Counter lists its keys in the order they are first seen. */
  lemma {:induction false} TallyKeys<K>(s: seq<K>)
    ensures Keys(Tally(s)) == Dedup(s)
  {
    if s != [] {
      var p, x := s[..|s| - 1], s[|s| - 1];
      TallyKeys(p);
      var t := Tally(p);
      IndexOfMember(t, x);
      if x in p {
        assert x in Dedup(p);
        assert Keys(Bump(t, x)) == Keys(t);
      } else {
        assert Keys(Bump(t, x)) == Keys(t) + [x];
      }
    }
  }

  /** Counter never repeats a key. */
  lemma TallyDistinct<K>(s: seq<K>)
    ensures DistinctKeys(Tally(s))
  {
    TallyKeys(s);
    var t := Tally(s);
    assert forall i :: 0 <= i < |t| ==> t[i].0 == Dedup(s)[i];
  }

  /** Counter counts every occurrence. */
  lemma {:induction false} TallyCounts<K>(s: seq<K>)
    ensures forall i :: 0 <= i < |Tally(s)| ==> Tally(s)[i].1 == multiset(s)[Tally(s)[i].0]
  {
    if s != [] {
      var p, x := s[..|s| - 1], s[|s| - 1];
      assert s == p + [x];
      TallyCounts(p);
      TallyKeys(p);
      TallyDistinct(p);
      BumpCounts(Tally(p), p, x);
    }
  }

  /** One more occurrence of `x` raises its count, or adds it with count 1. */
  lemma BumpCounts<K>(t: seq<(K, nat)>, p: seq<K>, x: K)
    requires DistinctKeys(t) && Keys(t) == Dedup(p)
    requires forall i :: 0 <= i < |t| ==> t[i].1 == multiset(p)[t[i].0]
    ensures forall i :: 0 <= i < |Bump(t, x)| ==> Bump(t, x)[i].1 == multiset(p + [x])[Bump(t, x)[i].0]
  {
    assert multiset(p + [x]) == multiset(p) + multiset{x};
    var i := IndexOf(t, x);
    if i < |t| {
      BumpExisting(t, multiset(p), x, i, Bump(t, x));
    } else {
      IndexOfMember(t, x);
      assert x !in Dedup(p);
      BumpNew(t, multiset(p), x);
    }
  }

  lemma BumpExisting<K>(t: seq<(K, nat)>, m: multiset<K>, x: K, i: nat, u: seq<(K, nat)>)
    requires DistinctKeys(t) && i < |t| && t[i].0 == x
    requires forall j :: 0 <= j < |t| ==> t[j].1 == m[t[j].0]
    requires u == t[i := (x, t[i].1 + 1)]
    ensures forall j :: 0 <= j < |u| ==> u[j].1 == (m + multiset{x})[u[j].0]
  {
    forall j | 0 <= j < |t| && j != i ensures t[j].0 != x {
      assert t[j].0 != t[i].0;
    }
  }

  lemma BumpNew<K>(t: seq<(K, nat)>, m: multiset<K>, x: K)
    requires m[x] == 0
    requires forall j :: 0 <= j < |t| ==> t[j].1 == m[t[j].0] && t[j].0 != x
    ensures forall j :: 0 <= j < |t| + 1 ==>
      (t + [(x, 1)])[j].1 == (m + multiset{x})[(t + [(x, 1)])[j].0]
  {
  }

  // ---------------------------------------------------------------------------
  // most_common(): sorted(items, key=count, reverse=True), a stable sort

  /** Counts never increase along the sequence. */
  ghost predicate NonIncreasing<K>(t: seq<(K, nat)>)
  {
    forall i, j :: 0 <= i < j < |t| ==> t[i].1 >= t[j].1
  }

  /** The entries with count `c`, in their order in `t`. */
  function WithCount<K>(t: seq<(K, nat)>, c: nat): seq<(K, nat)>
  {
    if t == [] then []
    else WithCount(t[..|t| - 1], c) + (if t[|t| - 1].1 == c then [t[|t| - 1]] else [])
  }

  lemma {:induction false} WithCountConcat<K>(a: seq<(K, nat)>, b: seq<(K, nat)>, c: nat)
    ensures WithCount(a + b, c) == WithCount(a, c) + WithCount(b, c)
    decreases |b|
  {
    if b == [] {
      assert a + b == a;
    } else {
      assert (a + b)[..|a + b| - 1] == a + b[..|b| - 1];
      WithCountConcat(a, b[..|b| - 1], c);
    }
  }

  lemma {:induction false} WithCountNone<K>(t: seq<(K, nat)>, c: nat)
    requires forall i :: 0 <= i < |t| ==> t[i].1 < c
    ensures WithCount(t, c) == []
  {
    if t != [] {
      WithCountNone(t[..|t| - 1], c);
    }
  }

  /** Places `e` after every entry whose count is at least its own. */
  function InsertByCount<K>(t: seq<(K, nat)>, e: (K, nat)): (r: seq<(K, nat)>)
    ensures r != [] && (r[0] == e || (t != [] && r[0] == t[0]))
  {
    if t == [] then [e]
    else if t[0].1 >= e.1 then [t[0]] + InsertByCount(t[1..], e)
    else [e] + t
  }

  lemma {:induction false} InsertPermutes<K>(t: seq<(K, nat)>, e: (K, nat))
    ensures multiset(InsertByCount(t, e)) == multiset(t) + multiset{e}
  {
    if t != [] && t[0].1 >= e.1 {
      InsertPermutes(t[1..], e);
      assert t == [t[0]] + t[1..];
    }
  }

  /** A non-increasing sequence stays so without its head, which bounds every count. */
  lemma NonIncreasingTail<K>(t: seq<(K, nat)>)
    requires NonIncreasing(t) && t != []
    ensures NonIncreasing(t[1..])
    ensures forall i :: 0 <= i < |t| ==> t[i].1 <= t[0].1
  {
    assert forall i :: 0 <= i < |t| - 1 ==> t[1..][i] == t[i + 1];
  }

  /** An entry whose count bounds every count in front of a non-increasing sequence. */
  lemma NonIncreasingCons<K>(e: (K, nat), t: seq<(K, nat)>)
    requires NonIncreasing(t)
    requires t == [] || e.1 >= t[0].1
    ensures NonIncreasing([e] + t)
  {
    if t != [] {
      NonIncreasingTail(t);
    }
    var u := [e] + t;
    forall i, j | 0 <= i < j < |u| ensures u[i].1 >= u[j].1 {
      assert u[j] == t[j - 1];
      if i > 0 {
        assert u[i] == t[i - 1];
      }
    }
  }

  lemma {:induction false} InsertSorted<K>(t: seq<(K, nat)>, e: (K, nat))
    requires NonIncreasing(t)
    ensures NonIncreasing(InsertByCount(t, e))
    decreases |t|
  {
    if t == [] {
    } else if t[0].1 >= e.1 {
      NonIncreasingTail(t);
      InsertSorted(t[1..], e);
      var rest := InsertByCount(t[1..], e);
      assert rest[0] == e || rest[0] == t[1..][0];
      NonIncreasingCons(t[0], rest);
    } else {
      NonIncreasingCons(e, t);
    }
  }

  /** The stable descending sort that `most_common()` performs. */
  function SortByCount<K>(t: seq<(K, nat)>): seq<(K, nat)>
  {
    if t == [] then [] else InsertByCount(SortByCount(t[..|t| - 1]), t[|t| - 1])
  }

  /** `most_common()` lists every item of the counter once. */
  lemma {:induction false} SortPermutes<K>(t: seq<(K, nat)>)
    ensures multiset(SortByCount(t)) == multiset(t)
  {
    if t != [] {
      SortPermutes(t[..|t| - 1]);
      InsertPermutes(SortByCount(t[..|t| - 1]), t[|t| - 1]);
      assert t == t[..|t| - 1] + [t[|t| - 1]];
    }
  }

  /** `most_common()` lists the items from the highest count to the lowest. */
  lemma {:induction false} SortSorted<K>(t: seq<(K, nat)>)
    ensures NonIncreasing(SortByCount(t))
  {
    if t != [] {
      SortSorted(t[..|t| - 1]);
      InsertSorted(SortByCount(t[..|t| - 1]), t[|t| - 1]);
    }
  }

  /** Inserting keeps the entries of each count in their previous order, `e` last. */
  lemma {:induction false} InsertStable<K>(t: seq<(K, nat)>, e: (K, nat), c: nat)
    requires NonIncreasing(t)
    ensures WithCount(InsertByCount(t, e), c) == WithCount(t, c) + WithCount([e], c)
    decreases |t|, 1
  {
    if t == [] {
      assert [e] == [] + [e];
    } else if t[0].1 >= e.1 {
      InsertStableBehind(t, e, c);
    } else {
      InsertStableAhead(t, e, c);
    }
  }

  lemma {:induction false} InsertStableBehind<K>(t: seq<(K, nat)>, e: (K, nat), c: nat)
    requires NonIncreasing(t) && t != [] && t[0].1 >= e.1
    ensures WithCount(InsertByCount(t, e), c) == WithCount(t, c) + WithCount([e], c)
    decreases |t|, 0
  {
    var rest := InsertByCount(t[1..], e);
    NonIncreasingTail(t);
    InsertStable(t[1..], e, c);
    assert InsertByCount(t, e) == [t[0]] + rest;
    WithCountConcat([t[0]], rest, c);
    assert t == [t[0]] + t[1..];
    WithCountConcat([t[0]], t[1..], c);
  }

  lemma InsertStableAhead<K>(t: seq<(K, nat)>, e: (K, nat), c: nat)
    requires NonIncreasing(t) && t != [] && t[0].1 < e.1
    ensures WithCount(InsertByCount(t, e), c) == WithCount(t, c) + WithCount([e], c)
  {
    WithCountConcat([e], t, c);
    if e.1 == c {
      NonIncreasingTail(t);
      WithCountNone(t, c);
    }
  }

  /** Sorting never reorders two entries of equal count. */
  lemma {:induction false} SortStable<K>(t: seq<(K, nat)>, c: nat)
    ensures WithCount(SortByCount(t), c) == WithCount(t, c)
  {
    if t != [] {
      var p := t[..|t| - 1];
      SortStable(p, c);
      SortSorted(p);
      InsertStable(SortByCount(p), t[|t| - 1], c);
      WithCountConcat(p, [t[|t| - 1]], c);
      assert t == p + [t[|t| - 1]];
    }
  }

  /** `most_common()` of `Counter(s)`. */
  function MostCommon<K(==)>(s: seq<K>): seq<(K, nat)>
  {
    SortByCount(Tally(s))
  }

  lemma KeysFromMultiset<K>(a: seq<(K, nat)>, b: seq<(K, nat)>)
    requires multiset(a) == multiset(b)
    ensures forall k :: k in Keys(a) <==> k in Keys(b)
  {
    forall k ensures k in Keys(a) ==> k in Keys(b) {
      if k in Keys(a) {
        var i :| 0 <= i < |a| && Keys(a)[i] == k;
        assert a[i] in multiset(b);
        var j :| 0 <= j < |b| && b[j] == a[i];
        assert Keys(b)[j] == k;
      }
    }
    forall k ensures k in Keys(b) ==> k in Keys(a) {
      if k in Keys(b) {
        var j :| 0 <= j < |b| && Keys(b)[j] == k;
        assert b[j] in multiset(a);
        var i :| 0 <= i < |a| && a[i] == b[j];
        assert Keys(a)[i] == k;
      }
    }
  }

  /** A key not among the keys of a dictionary can go in front of it. */
  lemma DistinctCons<K>(x: (K, nat), t: seq<(K, nat)>)
    requires DistinctKeys(t)
    requires forall i :: 0 <= i < |t| ==> t[i].0 != x.0
    ensures DistinctKeys([x] + t)
  {
    var u := [x] + t;
    forall i, j | 0 <= i < j < |u| ensures u[i].0 != u[j].0 {
      assert u[j] == t[j - 1];
      if i > 0 {
        assert u[i] == t[i - 1];
      }
    }
  }

  /** Inserting an entry with a new key keeps the keys distinct. */
  lemma {:induction false} InsertDistinct<K>(t: seq<(K, nat)>, e: (K, nat))
    requires DistinctKeys(t)
    requires forall i :: 0 <= i < |t| ==> t[i].0 != e.0
    ensures DistinctKeys(InsertByCount(t, e))
    decreases |t|
  {
    if t == [] {
    } else if t[0].1 >= e.1 {
      var tail := t[1..];
      assert forall i :: 0 <= i < |tail| ==> tail[i] == t[i + 1];
      InsertDistinct(tail, e);
      var rest := InsertByCount(tail, e);
      InsertPermutes(tail, e);
      forall i | 0 <= i < |rest| ensures rest[i].0 != t[0].0 {
        assert rest[i] in multiset(rest);
        if rest[i] != e {
          assert rest[i] in multiset(tail);
          var j :| 0 <= j < |tail| && tail[j] == rest[i];
          assert t[j + 1] == rest[i];
        }
      }
      DistinctCons(t[0], rest);
    } else {
      DistinctCons(e, t);
    }
  }

  lemma {:induction false} SortDistinct<K>(t: seq<(K, nat)>)
    requires DistinctKeys(t)
    ensures DistinctKeys(SortByCount(t))
  {
    if t != [] {
      var p := t[..|t| - 1];
      var e := t[|t| - 1];
      SortDistinct(p);
      var sorted := SortByCount(p);
      SortPermutes(p);
      forall i | 0 <= i < |sorted| ensures sorted[i].0 != e.0 {
        assert sorted[i] in multiset(p);
        var j :| 0 <= j < |p| && p[j] == sorted[i];
        assert t[j] == p[j];
      }
      InsertDistinct(sorted, e);
    }
  }

  // ---------------------------------------------------------------------------
  // Dropping the None entry

  /** The entries whose key is not `None`, unwrapped, in order. */
  function Present<K>(t: seq<(Option<K>, nat)>): seq<(K, nat)>
  {
    if t == [] then []
    else
      var x := t[|t| - 1];
      Present(t[..|t| - 1]) + if x.0.Some? then [(x.0.value, x.1)] else []
  }

  lemma {:induction false} PresentConcat<K>(a: seq<(Option<K>, nat)>, b: seq<(Option<K>, nat)>)
    ensures Present(a + b) == Present(a) + Present(b)
    decreases |b|
  {
    if b == [] {
      assert a + b == a;
    } else {
      assert (a + b)[..|a + b| - 1] == a + b[..|b| - 1];
      PresentConcat(a, b[..|b| - 1]);
    }
  }

  /** An entry survives exactly when its key was a `Some`. */
  lemma {:induction false} PresentMembers<K>(t: seq<(Option<K>, nat)>)
    ensures forall i :: 0 <= i < |Present(t)| ==> (Some(Present(t)[i].0), Present(t)[i].1) in t
    ensures forall j :: 0 <= j < |t| && t[j].0.Some? ==> (t[j].0.value, t[j].1) in Present(t)
  {
    if t != [] {
      var p, x := t[..|t| - 1], t[|t| - 1];
      PresentMembers(p);
      assert t == p + [x];
      var tail := if x.0.Some? then [(x.0.value, x.1)] else [];
      assert Present(t) == Present(p) + tail;
      forall i | 0 <= i < |Present(t)| ensures (Some(Present(t)[i].0), Present(t)[i].1) in t {
        if i < |Present(p)| {
          assert Present(t)[i] == Present(p)[i];
        }
      }
      forall j | 0 <= j < |t| && t[j].0.Some? ensures (t[j].0.value, t[j].1) in Present(t) {
        if j < |p| {
          assert t[j] == p[j];
        }
      }
    }
  }

  lemma PresentKeys<K>(t: seq<(Option<K>, nat)>)
    ensures forall k :: k in Keys(Present(t)) <==> Some(k) in Keys(t)
  {
    PresentMembers(t);
    forall k ensures k in Keys(Present(t)) <==> Some(k) in Keys(t) {
      if k in Keys(Present(t)) {
        var i :| 0 <= i < |Present(t)| && Keys(Present(t))[i] == k;
        assert (Some(k), Present(t)[i].1) in t;
        var j :| 0 <= j < |t| && t[j] == (Some(k), Present(t)[i].1);
        assert Keys(t)[j] == Some(k);
      }
      if Some(k) in Keys(t) {
        var j :| 0 <= j < |t| && Keys(t)[j] == Some(k);
        assert (k, t[j].1) in Present(t);
        var i :| 0 <= i < |Present(t)| && Present(t)[i] == (k, t[j].1);
        assert Keys(Present(t))[i] == k;
      }
    }
  }

  lemma {:induction false} PresentDistinct<K>(t: seq<(Option<K>, nat)>)
    requires DistinctKeys(t)
    ensures DistinctKeys(Present(t))
  {
    if t != [] {
      var p, x := t[..|t| - 1], t[|t| - 1];
      PresentDistinct(p);
      if x.0.Some? {
        PresentKeys(p);
        assert x.0 !in Keys(p) by {
          forall i | 0 <= i < |p| ensures Keys(p)[i] != x.0 {
            assert t[i].0 != t[|t| - 1].0;
          }
        }
        assert x.0.value !in Keys(Present(p));
        forall i | 0 <= i < |Present(p)| ensures Present(p)[i].0 != x.0.value {
          assert Keys(Present(p))[i] == Present(p)[i].0;
        }
      }
    }
  }

  lemma {:induction false} PresentNonIncreasing<K>(t: seq<(Option<K>, nat)>)
    requires NonIncreasing(t)
    ensures NonIncreasing(Present(t))
  {
    if t != [] {
      var p, x := t[..|t| - 1], t[|t| - 1];
      assert NonIncreasing(p);
      PresentNonIncreasing(p);
      PresentMembers(p);
      forall i | 0 <= i < |Present(p)| ensures Present(p)[i].1 >= x.1 {
        var y := Present(p)[i];
        assert (Some(y.0), y.1) in p;
        var j :| 0 <= j < |p| && p[j] == (Some(y.0), y.1);
        assert t[j] == p[j];
      }
    }
  }

  lemma {:induction false} PresentWithCount<K>(t: seq<(Option<K>, nat)>, c: nat)
    ensures WithCount(Present(t), c) == Present(WithCount(t, c))
  {
    if t != [] {
      var p, x := t[..|t| - 1], t[|t| - 1];
      PresentWithCount(p, c);
      WithCountConcat(Present(p), if x.0.Some? then [(x.0.value, x.1)] else [], c);
      PresentConcat(WithCount(p, c), if x.1 == c then [x] else []);
    }
  }

  /** Sum of the counts that survive the `None` filter. */
  function PresentTotal<K>(t: seq<(Option<K>, nat)>): nat
  {
    Total(Present(t))
  }

  lemma {:induction false} InsertPresentTotal<K>(t: seq<(Option<K>, nat)>, e: (Option<K>, nat))
    ensures PresentTotal(InsertByCount(t, e)) == PresentTotal(t) + PresentTotal([e])
    decreases |t|
  {
    if t == [] {
      assert [e] == [] + [e];
    } else if t[0].1 >= e.1 {
      InsertPresentTotal(t[1..], e);
      PresentConcat([t[0]], InsertByCount(t[1..], e));
      TotalConcat(Present([t[0]]), Present(InsertByCount(t[1..], e)));
      assert t == [t[0]] + t[1..];
      PresentConcat([t[0]], t[1..]);
      TotalConcat(Present([t[0]]), Present(t[1..]));
    } else {
      PresentConcat([e], t);
      TotalConcat(Present([e]), Present(t));
    }
  }

  /** What one more entry adds to the surviving total. */
  lemma PresentTotalSnoc<K>(p: seq<(Option<K>, nat)>, x: (Option<K>, nat))
    ensures PresentTotal(p + [x]) == PresentTotal(p) + if x.0.Some? then x.1 else 0
  {
    assert (p + [x])[..|p|] == p;
    var tail := if x.0.Some? then [(x.0.value, x.1)] else [];
    assert Present(p + [x]) == Present(p) + tail;
    TotalConcat(Present(p), tail);
  }

  lemma {:induction false} SortPresentTotal<K>(t: seq<(Option<K>, nat)>)
    ensures PresentTotal(SortByCount(t)) == PresentTotal(t)
  {
    if t != [] {
      var p, x := t[..|t| - 1], t[|t| - 1];
      SortPresentTotal(p);
      InsertPresentTotal(SortByCount(p), x);
      PresentTotalSnoc(p, x);
      assert PresentTotal([x]) == if x.0.Some? then x.1 else 0 by {
        PresentTotalSnoc([], x);
        assert [] + [x] == [x];
      }
      assert t == p + [x];
    }
  }

  /** Replacing one entry's count changes the surviving total by the difference. */
  lemma {:induction false} UpdatePresentTotal<K>(t: seq<(Option<K>, nat)>, i: nat, n: nat)
    requires i < |t|
    ensures PresentTotal(t[i := (t[i].0, n)]) + (if t[i].0.Some? then t[i].1 else 0)
         == PresentTotal(t) + (if t[i].0.Some? then n else 0)
  {
    var p, x, u := t[..|t| - 1], t[|t| - 1], t[i := (t[i].0, n)];
    assert t == p + [x];
    if i == |t| - 1 {
      assert u == p + [(x.0, n)];
      PresentTotalSnoc(p, x);
      PresentTotalSnoc(p, (x.0, n));
    } else {
      assert u == p[i := (p[i].0, n)] + [x];
      UpdatePresentTotal(p, i, n);
      PresentTotalSnoc(p, x);
      PresentTotalSnoc(p[i := (p[i].0, n)], x);
    }
  }

  /** One more result adds one to the surviving total, unless it is `None`. */
  lemma BumpPresentTotal<K>(t: seq<(Option<K>, nat)>, x: Option<K>)
    ensures PresentTotal(Bump(t, x)) == PresentTotal(t) + if x.Some? then 1 else 0
  {
    var i := IndexOf(t, x);
    if i < |t| {
      UpdatePresentTotal(t, i, t[i].1 + 1);
    } else {
      PresentTotalSnoc(t, (x, 1));
    }
  }

  /** The counts of present results add up to the number of results that are not `None`. */
  lemma {:induction false} TallyPresentTotal<K>(s: seq<Option<K>>)
    ensures PresentTotal(Tally(s)) == |s| - multiset(s)[None]
  {
    if s != [] {
      var p, x := s[..|s| - 1], s[|s| - 1];
      assert s == p + [x];
      assert multiset(s) == multiset(p) + multiset{x};
      TallyPresentTotal(p);
      BumpPresentTotal(Tally(p), x);
    }
  }

  // ---------------------------------------------------------------------------
  // The loop of main.py, lines 159-162

  /** What the loop knows after copying the first `i` entries. */
  ghost predicate Copied(entries: seq<(Option<string>, nat)>, i: nat, versions: seq<(string, nat)>)
    requires i <= |entries|
  {
    && DistinctKeys(versions)
    && (forall k :: k in Keys(versions) <==> Some(k) in Keys(entries[..i]))
    && (DistinctKeys(entries) ==> versions == Present(entries[..i]))
  }

  /** Copying a present entry keeps the keys distinct and the key sets equal. */
  lemma CopyKeys(done: seq<(Option<string>, nat)>, k: string, c: nat, versions: seq<(string, nat)>)
    requires DistinctKeys(versions)
    requires forall k' :: k' in Keys(versions) <==> Some(k') in Keys(done)
    ensures DistinctKeys(Put(versions, k, c))
    ensures forall k' :: k' in Keys(Put(versions, k, c)) <==> Some(k') in Keys(done + [(Some(k), c)])
  {
    assert Keys(done + [(Some(k), c)]) == Keys(done) + [Some(k)];
  }

  /** Skipping the `None` entry changes neither the keys nor the surviving entries. */
  lemma SkipKeys(done: seq<(Option<string>, nat)>, c: nat)
    ensures forall k' :: Some(k') in Keys(done + [(None, c)]) <==> Some(k') in Keys(done)
    ensures Present(done + [(None, c)]) == Present(done)
  {
    assert Keys(done + [(None, c)]) == Keys(done) + [None];
    assert (done + [(None, c)])[..|done|] == done;
  }

  /** Copying a present entry with a new key appends it to the surviving entries. */
  lemma CopyPresent(done: seq<(Option<string>, nat)>, k: string, c: nat, versions: seq<(string, nat)>)
    requires versions == Present(done)
    requires forall k' :: k' in Keys(versions) <==> Some(k') in Keys(done)
    requires forall j :: 0 <= j < |done| ==> done[j].0 != Some(k)
    ensures Put(versions, k, c) == Present(done + [(Some(k), c)])
  {
    assert (done + [(Some(k), c)])[..|done|] == done;
    assert Some(k) !in Keys(done) by {
      forall j | 0 <= j < |done| ensures Keys(done)[j] != Some(k) {
        assert Keys(done)[j] == done[j].0;
      }
    }
    assert k !in Keys(versions);
  }

  /** In a dictionary's items, no earlier entry has the key of entry `i`. */
  lemma EarlierKeys<K>(t: seq<(K, nat)>, i: nat)
    requires i < |t| && DistinctKeys(t)
    ensures forall j :: 0 <= j < |t[..i]| ==> t[..i][j].0 != t[i].0
  {
    forall j | 0 <= j < |t[..i]| ensures t[..i][j].0 != t[i].0 {
      assert t[..i][j] == t[j];
    }
  }

  /** A turn of the loop that copies a present entry keeps what the loop knows. */
  lemma CopyStep(entries: seq<(Option<string>, nat)>, i: nat, versions: seq<(string, nat)>)
    requires i < |entries| && entries[i].0.Some? && Copied(entries, i, versions)
    ensures Copied(entries, i + 1, Put(versions, entries[i].0.value, entries[i].1))
  {
    var done, k, c := entries[..i], entries[i].0.value, entries[i].1;
    var next := Put(versions, k, c);
    assert entries[..i + 1] == done + [(Some(k), c)];
    CopyKeys(done, k, c, versions);
    if DistinctKeys(entries) {
      EarlierKeys(entries, i);
      CopyPresent(done, k, c, versions);
      assert next == Present(entries[..i + 1]);
    }
  }

  /** A turn of the loop that skips the `None` entry keeps what the loop knows. */
  lemma SkipStep(entries: seq<(Option<string>, nat)>, i: nat, versions: seq<(string, nat)>)
    requires i < |entries| && entries[i].0.None? && Copied(entries, i, versions)
    ensures Copied(entries, i + 1, versions)
  {
    var done, c := entries[..i], entries[i].1;
    assert entries[..i + 1] == done + [(None, c)];
    SkipKeys(done, c);
  }

  /** After the last entry, the loop has copied the whole input. */
  lemma CopiedAll(entries: seq<(Option<string>, nat)>, versions: seq<(string, nat)>)
    requires Copied(entries, |entries|, versions)
    ensures DistinctKeys(versions)
    ensures forall k :: k in Keys(versions) <==> Some(k) in Keys(entries)
    ensures DistinctKeys(entries) ==> versions == Present(entries)
  {
    assert entries[..|entries|] == entries;
  }

  /** Copies every entry whose version is not `None` into a fresh dictionary. */
  method DropAbsent(entries: seq<(Option<string>, nat)>) returns (versions: seq<(string, nat)>)
    ensures DistinctKeys(versions)
    ensures forall k :: k in Keys(versions) <==> Some(k) in Keys(entries)
    ensures DistinctKeys(entries) ==> versions == Present(entries)
  {
    versions := [];
    var i := 0;
    while i < |entries|
      invariant 0 <= i <= |entries|
      invariant Copied(entries, i, versions)
    {
      var (version, count) := entries[i];
      if version.Some? {
        CopyStep(entries, i, versions);
        versions := Put(versions, version.value, count);
      } else {
        SkipStep(entries, i, versions);
      }
      i := i + 1;
    }
    CopiedAll(entries, versions);
  }

  // ---------------------------------------------------------------------------
  // What the finished table says about the results

  /** The table of `results` as main.py builds it. */
  function Table(results: seq<Option<string>>): seq<(string, nat)>
  {
    Present(MostCommon(results))
  }

  /** Each version appears once, and exactly the versions some domain reported appear. */
  lemma TableKeys(results: seq<Option<string>>)
    ensures DistinctKeys(Table(results))
    ensures forall v :: v in Keys(Table(results)) <==> Some(v) in results
  {
    TallyKeys(results);
    TallyDistinct(results);
    SortDistinct(Tally(results));
    PresentDistinct(MostCommon(results));
    SortPermutes(Tally(results));
    KeysFromMultiset(MostCommon(results), Tally(results));
    PresentKeys(MostCommon(results));
  }

  /** Each count is the number of domains that reported that version. */
  lemma TableCounts(results: seq<Option<string>>)
    ensures forall i :: 0 <= i < |Table(results)| ==>
      Table(results)[i].1 == multiset(results)[Some(Table(results)[i].0)]
  {
    var t := Tally(results);
    TallyCounts(results);
    PresentMembers(MostCommon(results));
    SortPermutes(t);
    forall i | 0 <= i < |Table(results)|
      ensures Table(results)[i].1 == multiset(results)[Some(Table(results)[i].0)]
    {
      var (v, n) := Table(results)[i];
      assert (v, n) in Table(results);
      assert (Some(v), n) in multiset(MostCommon(results));
      var j :| 0 <= j < |t| && t[j] == (Some(v), n);
    }
  }

  /** Versions are listed from most to least common. */
  lemma TableOrder(results: seq<Option<string>>)
    ensures NonIncreasing(Table(results))
  {
    SortSorted(Tally(results));
    PresentNonIncreasing(MostCommon(results));
  }

  /** Versions with the same count keep the order in which they were first reported. */
  lemma TableTies(results: seq<Option<string>>, c: nat)
    ensures WithCount(Table(results), c) == Present(WithCount(Tally(results), c))
    ensures Keys(Tally(results)) == Dedup(results)
  {
    PresentWithCount(MostCommon(results), c);
    SortStable(Tally(results), c);
    TallyKeys(results);
  }

  /** The counts add up to the number of domains that answered, which is at most the
      number of domains and equal to it exactly when none failed. */
  lemma TableTotal(results: seq<Option<string>>)
    ensures Total(Table(results)) == |results| - multiset(results)[None]
    ensures Total(Table(results)) <= |results|
    ensures Total(Table(results)) == |results| <==> forall i :: 0 <= i < |results| ==> results[i].Some?
  {
    SortPresentTotal(Tally(results));
    TallyPresentTotal(results);
    if multiset(results)[None] == 0 {
      forall i | 0 <= i < |results| ensures results[i].Some? {
        assert results[i] in multiset(results);
      }
    } else {
      assert None in results;
    }
  }
}
