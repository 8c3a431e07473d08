/** Merging two lists of keyed items: an item whose key is known is combined in place, any other is appended. */
module KeyedMerge {
  import opened Sequences

  /** The position of the first item with key `k`; `|s|` if there is none. */
  function Find<K(==), V>(s: seq<V>, key: V -> K, k: K): (i: nat)
    ensures i <= |s|
    ensures forall j :: 0 <= j < i ==> key(s[j]) != k
    ensures i < |s| ==> key(s[i]) == k
  {
    if s == [] then 0 else if key(s[0]) == k then 0 else 1 + Find(s[1..], key, k)
  }

  function Lookup<K(==), V>(s: seq<V>, key: V -> K, k: K): Option<V> {
    var i := Find(s, key, k);
    if i < |s| then Some(s[i]) else None
  }

  function MergeOne<K(==), V>(d: seq<V>, v: V, key: V -> K, combine: (V, V) -> V): seq<V> {
    var i := Find(d, key, key(v));
    if i < |d| then d[i := combine(d[i], v)] else d + [v]
  }

  function Merge<K(==), V>(d: seq<V>, s: seq<V>, key: V -> K, combine: (V, V) -> V): seq<V> {
    if s == [] then d else MergeOne(Merge(d, s[..|s| - 1], key, combine), s[|s| - 1], key, combine)
  }

  ghost predicate UniqueKeys<K, V>(s: seq<V>, key: V -> K) {
    forall i, j :: 0 <= i < j < |s| ==> key(s[i]) != key(s[j])
  }

  ghost predicate KeepsKey<K(!new), V(!new)>(key: V -> K, combine: (V, V) -> V) {
    forall a, b {:trigger combine(a, b)} :: key(a) == key(b) ==> key(combine(a, b)) == key(a)
  }

  function Combined<V>(a: Option<V>, b: Option<V>, combine: (V, V) -> V): Option<V> {
    if b.None? then a else if a.None? then b else Some(combine(a.value, b.value))
  }

  /** The first match is the only place a key can be found. */
  lemma {:induction false} FindUnique<K, V>(s: seq<V>, key: V -> K, i: nat)
    requires UniqueKeys(s, key) && i < |s|
    ensures Find(s, key, key(s[i])) == i
  {
  }

  lemma {:induction false} MergeOneLookup<K(!new), V(!new)>(d: seq<V>, v: V, key: V -> K, combine: (V, V) -> V, k: K)
    requires UniqueKeys(d, key) && KeepsKey(key, combine)
    ensures UniqueKeys(MergeOne(d, v, key, combine), key)
    ensures Lookup(MergeOne(d, v, key, combine), key, k) == if k
      == key(v) then Combined(Lookup(d, key, k), Some(v), combine) else Lookup(d, key, k)
  {
    var r := MergeOne(d, v, key, combine);
    var i := Find(d, key, key(v));
    if i < |d| {
      assert key(r[i]) == key(d[i]);
      assert forall j :: 0 <= j < |r| ==> key(r[j]) == key(d[j]);
    } else {
      assert r == d + [v];
    }
    var p := Find(d, key, k);
    if p < |d| {
      FindUnique(r, key, p);
    } else if k == key(v) {
      FindUnique(r, key, |d|);
    }
  }

  /** Looking a key up in the merge: both items combined, or whichever there is. */
  lemma {:induction false} MergeLookup<K(!new), V(!new)>(d: seq<V>, s: seq<V>, key: V -> K, combine: (V, V) -> V, k: K)
    requires UniqueKeys(d, key) && UniqueKeys(s, key) && KeepsKey(key, combine)
    ensures UniqueKeys(Merge(d, s, key, combine), key)
    ensures Lookup(Merge(d, s, key, combine), key, k) == Combined(Lookup(d, key, k), Lookup(s, key, k), combine)
  {
    if s != [] {
      var front, v := s[..|s| - 1], s[|s| - 1];
      MergeLookup(d, front, key, combine, k);
      MergeOneLookup(Merge(d, front, key, combine), v, key, combine, k);
      LookupSnoc(front, v, key, k);
      assert s == front + [v];
    }
  }

  lemma {:induction false} LookupSnoc<K, V>(front: seq<V>, v: V, key: V -> K, k: K)
    requires UniqueKeys(front + [v], key)
    ensures Lookup(front + [v], key, k) == if k == key(v) then Some(v) else Lookup(front, key, k)
    ensures k == key(v) ==> Lookup(front, key, k) == None
  {
    var s := front + [v];
    if k == key(v) {
      FindUnique(s, key, |front|);
      assert s[|front|] == v;
      assert forall j :: 0 <= j < |front| ==> s[j] == front[j] && key(front[j]) != key(v);
    } else {
      var p := Find(front, key, k);
      if p < |front| {
        assert s[p] == front[p];
        FindUnique(s, key, p);
      } else {
        assert forall j :: 0 <= j < |s| ==> key(s[j]) != k;
      }
    }
  }
}
