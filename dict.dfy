/** Python's insertion-ordered `dict` with counts as values, as the list of its items
    in iteration order. Both `collections.Counter` and the script's `versions` table
    are dictionaries of this kind. */
module Dict {
  import opened Wrappers

  /** The keys in iteration order: `list(d.keys())`. */
  function Keys<K>(t: seq<(K, nat)>): (r: seq<K>)
    ensures |r| == |t|
    ensures forall i :: 0 <= i < |t| ==> r[i] == t[i].0
  {
    if t == [] then [] else Keys(t[..|t| - 1]) + [t[|t| - 1].0]
  }

  /** No key occurs twice: true of every dictionary's items. */
  ghost predicate DistinctKeys<K>(t: seq<(K, nat)>)
  {
    forall i, j :: 0 <= i < j < |t| ==> t[i].0 != t[j].0
  }

  /** Position of key `k`, or `|t|` when it is absent. */
  function IndexOf<K(==)>(t: seq<(K, nat)>, k: K): (i: nat)
    ensures i <= |t|
    ensures i < |t| ==> t[i].0 == k
    ensures forall j :: 0 <= j < i ==> t[j].0 != k
  {
    if t == [] then 0
    else if t[0].0 == k then 0
    else 1 + IndexOf(t[1..], k)
  }

  lemma {:induction false} IndexOfMember<K>(t: seq<(K, nat)>, k: K)
    ensures IndexOf(t, k) < |t| <==> k in Keys(t)
  {
    if IndexOf(t, k) == |t| {
      assert forall j :: 0 <= j < |t| ==> Keys(t)[j] != k;
    } else {
      assert Keys(t)[IndexOf(t, k)] == k;
    }
  }

  /** `d.get(k)`. */
  function Lookup<K(==)>(t: seq<(K, nat)>, k: K): (r: Option<nat>)
    ensures r.Some? <==> k in Keys(t)
  {
    var i := IndexOf(t, k);
    if i < |t| then Some(t[i].1) else None
  }

  /** `d[k] = v`: a present key keeps its place and takes the new value; a new key
      goes last. */
  function Put<K(==,!new)>(t: seq<(K, nat)>, k: K, v: nat): (r: seq<(K, nat)>)
    ensures DistinctKeys(t) ==> DistinctKeys(r)
    ensures forall k' :: k' in Keys(r) <==> k' in Keys(t) || k' == k
    ensures Lookup(r, k) == Some(v)
    ensures forall k' :: k' != k ==> Lookup(r, k') == Lookup(t, k')
    ensures k !in Keys(t) ==> r == t + [(k, v)]
    ensures k in Keys(t) ==> Keys(r) == Keys(t)
  {
    var i := IndexOf(t, k);
    if i < |t| then
      ReplaceFacts(t, i, k, v);
      t[i := (k, v)]
    else
      AppendFacts(t, k, v);
      t + [(k, v)]
  }

  lemma ReplaceFacts<K(!new)>(t: seq<(K, nat)>, i: nat, k: K, v: nat)
    requires i == IndexOf(t, k) < |t|
    ensures DistinctKeys(t) ==> DistinctKeys(t[i := (k, v)])
    ensures forall k' :: k' in Keys(t[i := (k, v)]) <==> k' in Keys(t) || k' == k
    ensures Lookup(t[i := (k, v)], k) == Some(v)
    ensures forall k' :: k' != k ==> Lookup(t[i := (k, v)], k') == Lookup(t, k')
    ensures k in Keys(t)
  {
    var r := t[i := (k, v)];
    assert Keys(r) == Keys(t);
    forall k' ensures IndexOf(r, k') == IndexOf(t, k') {
      SameKeysSameIndex(t, r, k');
    }
    assert Keys(t)[i] == k;
  }

  lemma AppendFacts<K(!new)>(t: seq<(K, nat)>, k: K, v: nat)
    requires IndexOf(t, k) == |t|
    ensures DistinctKeys(t) ==> DistinctKeys(t + [(k, v)])
    ensures forall k' :: k' in Keys(t + [(k, v)]) <==> k' in Keys(t) || k' == k
    ensures Lookup(t + [(k, v)], k) == Some(v)
    ensures forall k' :: k' != k ==> Lookup(t + [(k, v)], k') == Lookup(t, k')
    ensures k !in Keys(t)
  {
    AppendKeys(t, k, v);
    AppendLookup(t, k, v);
  }

  lemma AppendKeys<K>(t: seq<(K, nat)>, k: K, v: nat)
    requires IndexOf(t, k) == |t|
    ensures DistinctKeys(t) ==> DistinctKeys(t + [(k, v)])
    ensures Keys(t + [(k, v)]) == Keys(t) + [k]
    ensures k !in Keys(t)
  {
    IndexOfMember(t, k);
    KeysSnoc(t, (k, v));
    if DistinctKeys(t) {
      AppendDistinct(t, (k, v));
    }
  }

  lemma KeysSnoc<K>(t: seq<(K, nat)>, x: (K, nat))
    ensures Keys(t + [x]) == Keys(t) + [x.0]
  {
    assert (t + [x])[..|t|] == t;
  }

  lemma AppendDistinct<K>(t: seq<(K, nat)>, x: (K, nat))
    requires DistinctKeys(t)
    requires forall j :: 0 <= j < |t| ==> t[j].0 != x.0
    ensures DistinctKeys(t + [x])
  {
    var u := t + [x];
    forall i, j | 0 <= i < j < |u| ensures u[i].0 != u[j].0 {
      if j < |t| {
        assert u[i] == t[i] && u[j] == t[j];
      } else {
        assert u[i] == t[i] && u[j] == x;
      }
    }
  }

  lemma AppendLookup<K(!new)>(t: seq<(K, nat)>, k: K, v: nat)
    requires IndexOf(t, k) == |t|
    ensures forall k' :: Lookup(t + [(k, v)], k') == if k' == k then Some(v) else Lookup(t, k')
  {
    forall k' ensures Lookup(t + [(k, v)], k') == if k' == k then Some(v) else Lookup(t, k') {
      AppendIndex(t, (k, v), k');
    }
  }

  lemma {:induction false} SameKeysSameIndex<K>(t: seq<(K, nat)>, r: seq<(K, nat)>, k: K)
    requires |t| == |r|
    requires forall j :: 0 <= j < |t| ==> t[j].0 == r[j].0
    ensures IndexOf(r, k) == IndexOf(t, k)
  {
    if t != [] && t[0].0 != k {
      SameKeysSameIndex(t[1..], r[1..], k);
    }
  }

  lemma {:induction false} AppendIndex<K>(t: seq<(K, nat)>, x: (K, nat), k: K)
    ensures IndexOf(t + [x], k) ==
      if IndexOf(t, k) < |t| then IndexOf(t, k) else if x.0 == k then |t| else |t| + 1
  {
    if t != [] {
      assert (t + [x])[1..] == t[1..] + [x];
      AppendIndex(t[1..], x, k);
    }
  }

  /** `sum(d.values())`, accumulated front to back. */
  function Total<K>(t: seq<(K, nat)>): nat
  {
    if t == [] then 0 else Total(t[..|t| - 1]) + t[|t| - 1].1
  }

  lemma {:induction false} TotalConcat<K>(a: seq<(K, nat)>, b: seq<(K, nat)>)
    ensures Total(a + b) == Total(a) + Total(b)
    decreases |b|
  {
    if b != [] {
      assert (a + b)[..|a + b| - 1] == a + b[..|b| - 1];
      assert (a + b)[|a + b| - 1] == b[|b| - 1];
      TotalConcat(a, b[..|b| - 1]);
    } else {
      assert a + b == a;
    }
  }

  /** The running total over one more entry. */
  lemma TotalStep<K>(t: seq<(K, nat)>, i: nat)
    requires i < |t|
    ensures Total(t[..i + 1]) == Total(t[..i]) + t[i].1
  {
    assert t[..i + 1][..i] == t[..i];
  }
}
