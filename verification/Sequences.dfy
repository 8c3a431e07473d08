/** Sequence vocabulary shared by the models. */
module Sequences {

  datatype Option<+T> = None | Some(value: T)

  predicate HasSuffix<T(==)>(s: seq<T>, suffix: seq<T>) {
    |suffix| <= |s| && s[|s| - |suffix|..] == suffix
  }

  /** The texts with `sep` between them. */
  function Join(parts: seq<string>, sep: string): string {
    if parts == [] then "" else if |parts| == 1 then parts[0] else parts[0] + sep + Join(parts[1..], sep)
  }

  /** The concatenation of a sequence of sequences. */
  function Flatten<T>(ss: seq<seq<T>>): seq<T> {
    if ss == [] then [] else ss[0] + Flatten(ss[1..])
  }

  lemma {:induction false} FlattenSnoc<T>(ss: seq<seq<T>>, s: seq<T>)
    ensures Flatten(ss + [s]) == Flatten(ss) + s
  {
    if ss == [] {
      assert ss + [s] == [s];
      assert Flatten([s]) == s + Flatten<T>([]);
    } else {
      assert (ss + [s])[1..] == ss[1..] + [s];
      FlattenSnoc(ss[1..], s);
    }
  }

  lemma {:induction false} FlattenConcat<T>(a: seq<seq<T>>, b: seq<seq<T>>)
    ensures Flatten(a + b) == Flatten(a) + Flatten(b)
  {
    if a == [] {
      assert a + b == b;
    } else {
      assert (a + b)[1..] == a[1..] + b;
      FlattenConcat(a[1..], b);
    }
  }

  lemma {:induction false} Regroup<T>(a: seq<T>, b: seq<T>, c: seq<T>)
    ensures a + (b + c) == (a + b) + c
  {
  }

  lemma {:induction false} ConsConcat<T>(a: seq<T>, x: seq<T>)
    requires a != []
    ensures a + x == [a[0]] + (a[1..] + x) && a == [a[0]] + a[1..]
  {
  }

  ghost predicate Distinct<T>(s: seq<T>) {
    forall i, j :: 0 <= i < j < |s| ==> s[i] != s[j]
  }

  /** A sequence without repeats over a finite set is no longer than the set. */
  lemma {:induction false} Pigeonhole<T>(s: seq<T>, universe: set<T>)
    requires Distinct(s)
    requires forall x :: x in s ==> x in universe
    ensures |s| <= |universe|
  {
    if s != [] {
      var rest := s[1..];
      forall x | x in rest ensures x in universe - {s[0]} {
        var i :| 0 <= i < |rest| && rest[i] == x;
        assert s[i + 1] == x;
      }
      Pigeonhole(rest, universe - {s[0]});
      assert s[0] in s;
    }
  }

  lemma {:induction false} SubsetSize<T>(a: set<T>, b: set<T>)
    requires a <= b
    ensures |a| <= |b|
  {
    assert b == a + (b - a);
  }

  // ---------------------------------------------------------------- sorting

  ghost predicate Descending<T>(s: seq<T>, key: T -> int) {
    forall i, j :: 0 <= i < j < |s| ==> key(s[i]) >= key(s[j])
  }

  /** Where `e` goes in a descending sequence. */
  function Place<T>(e: T, s: seq<T>, key: T -> int): (k: nat)
    requires Descending(s, key)
    ensures k <= |s|
    ensures forall i :: 0 <= i < k ==> key(s[i]) > key(e)
    ensures forall i :: k <= i < |s| ==> key(s[i]) <= key(e)
  {
    if s == [] || key(s[0]) <= key(e) then 0
    else
      assert Descending(s[1..], key);
      1 + Place(e, s[1..], key)
  }

  lemma {:induction false} PlacedDescending<T>(e: T, s: seq<T>, key: T -> int, k: nat)
    requires Descending(s, key) && k <= |s|
    requires forall i :: 0 <= i < k ==> key(s[i]) > key(e)
    requires forall i :: k <= i < |s| ==> key(s[i]) <= key(e)
    ensures Descending(s[..k] + [e] + s[k..], key)
  {
    var r := s[..k] + [e] + s[k..];
    forall i, j | 0 <= i < j < |r| ensures key(r[i]) >= key(r[j]) {
      PlacedAt(e, s, k, i);
      PlacedAt(e, s, k, j);
    }
  }

  lemma {:induction false} PlacedAt<T>(e: T, s: seq<T>, k: nat, i: nat)
    requires k <= |s| && i <= |s|
    ensures (s[..k] + [e] + s[k..])[i] == if i < k then s[i] else if i == k then e else s[i - 1]
  {
  }

  lemma {:induction false} PlacedMultiset<T>(e: T, s: seq<T>, k: nat)
    requires k <= |s|
    ensures multiset(s[..k] + [e] + s[k..]) == multiset{e} + multiset(s)
  {
    assert s == s[..k] + s[k..];
  }

  /** A stand-in for `sort.Slice`: callers rely on the contract only, not on the order of equal keys. */
  function SortDescending<T>(s: seq<T>, key: T -> int): (r: seq<T>)
    ensures Descending(r, key) && multiset(r) == multiset(s) && |r| == |s|
  {
    if s == [] then []
    else
      var t := SortDescending(s[1..], key);
      var k := Place(s[0], t, key);
      PlacedDescending(s[0], t, key, k);
      PlacedMultiset(s[0], t, k);
      assert s == [s[0]] + s[1..];
      t[..k] + [s[0]] + t[k..]
  }

  lemma {:induction false} DistinctCounts<T>(s: seq<T>)
    ensures Distinct(s) <==> forall x :: multiset(s)[x] <= 1
  {
    if s != [] {
      var t := s[1..];
      assert s == [s[0]] + t;
      DistinctCounts(t);
      assert forall x :: multiset(s)[x] == multiset(t)[x] + if x == s[0] then 1 else 0;
      assert s[0] in t <==> multiset(t)[s[0]] > 0;
      if Distinct(s) {
        assert Distinct(t) by { assert forall i :: 0 <= i < |t| ==> t[i] == s[i + 1]; }
        assert s[0] !in t;
      } else {
        var i, j :| 0 <= i < j < |s| && s[i] == s[j];
        if i == 0 {
          assert t[j - 1] == s[0];
          assert multiset(s)[s[0]] > 1;
        } else {
          assert t[i - 1] == t[j - 1];
          var x :| multiset(t)[x] > 1;
          assert multiset(s)[x] > 1;
        }
      }
    }
  }

  lemma {:induction false} PermutationDistinct<T>(a: seq<T>, b: seq<T>)
    requires Distinct(a) && multiset(a) == multiset(b)
    ensures Distinct(b)
  {
    DistinctCounts(a);
    DistinctCounts(b);
  }
}
