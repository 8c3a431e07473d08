/**
 What nested includes make of the files' values. An included file is merged as a whole, so a value that
 replaced another inside it no longer replaces what the including file said before.
 */
module IncludeNesting {
  import opened Sequences
  import opened Includes

  // ---------------------------------------------------------------- terms

  /** What the files say at one place, grouped as they are merged. */
  datatype Term = Nothing | Said(v: Value) | Cat(l: Term, r: Term)

  function Leaves(t: Term): seq<Value> {
    match t
    case Nothing => []
    case Said(v) => [v]
    case Cat(l, r) => Leaves(l) + Leaves(r)
  }

  /** The value the groups make. */
  function Meaning(t: Term): Option<Value> {
    match t
    case Nothing => None
    case Said(v) => Some(v)
    case Cat(l, r) => Met(Meaning(l), Meaning(r))
  }

  /** The value the same values make one after the other. */
  function Fold(vs: seq<Value>): Option<Value> {
    if vs == [] then None else Met(Fold(vs[..|vs| - 1]), Some(vs[|vs| - 1]))
  }

  function Last(vs: seq<Value>): Value
    requires vs != []
  {
    vs[|vs| - 1]
  }

  /** Without the groups that a later one replaces. */
  function Live(t: Term): Term {
    match t
    case Nothing => t
    case Said(_) => t
    case Cat(l, r) =>
      if Leaves(r) == [] then Live(l)
      else if Leaves(l) == [] || !Joins(Last(Leaves(l)), Last(Leaves(r))) then Live(r)
      else Cat(Live(l), Live(r))
  }

  /** All values join, or there is only one. */
  predicate OneKind(vs: seq<Value>) {
    vs == [] || (|vs| == 1 && IsLeaf(vs[0])) || forall i :: 0 <= i < |vs| ==> Joins(vs[i], Last(vs))
  }

  lemma {:induction false} LastOfCat(a: seq<Value>, b: seq<Value>)
    ensures b != [] ==> Last(a + b) == Last(b)
    ensures b == [] ==> a + b == a
  {
  }

  lemma {:induction false} OneKindCat(a: seq<Value>, b: seq<Value>)
    requires OneKind(a) && OneKind(b) && a != [] && b != [] && Joins(Last(a), Last(b))
    ensures OneKind(a + b)
  {
    var s := a + b;
    assert Last(s) == Last(b) && Joins(Last(a), Last(a));
    forall i | 0 <= i < |s| ensures Joins(s[i], Last(s)) {
      if i < |a| {
        assert s[i] == a[i] && Joins(a[i], Last(a));
      } else {
        assert s[i] == b[i - |a|];
      }
    }
  }

  lemma {:induction false} LiveLeaves(t: Term)
    ensures OneKind(Leaves(Live(t))) && |Leaves(Live(t))| <= |Leaves(t)|
    ensures Leaves(t) == [] <==> Leaves(Live(t)) == []
    ensures Leaves(t) != [] ==> Last(Leaves(Live(t))) == Last(Leaves(t))
  {
    match t
    case Nothing =>
    case Said(v) =>
    case Cat(l, r) =>
      LiveLeaves(l);
      LiveLeaves(r);
      LastOfCat(Leaves(l), Leaves(r));
      if Leaves(r) != [] && Leaves(l) != [] && Joins(Last(Leaves(l)), Last(Leaves(r))) {
        OneKindCat(Leaves(Live(l)), Leaves(Live(r)));
      }
  }

  /** The value has the kind of the last value said, and dropping what is replaced changes nothing. */
  lemma {:induction false} LiveMeaning(t: Term)
    ensures Meaning(Live(t)) == Meaning(t)
    ensures Meaning(t).Some? <==> Leaves(t) != []
    ensures Leaves(t) != [] ==> HasKindOf(Meaning(t).value, Last(Leaves(t)))
  {
    match t
    case Nothing =>
    case Said(v) =>
    case Cat(l, r) =>
      LiveMeaning(l);
      LiveMeaning(r);
      LastOfCat(Leaves(l), Leaves(r));
  }

  /** A list or a mapping as the other is, or the very value. */
  predicate HasKindOf(v: Value, w: Value) {
    if IsLeaf(w) then v == w else Joins(v, w)
  }

  // ---------------------------------------------------------------- the end of a sequence

  /** How many values at the end have joined since the last one that replaced all before it. */
  function Joined(vs: seq<Value>): (n: nat)
    ensures n <= |vs| && (vs != [] ==> n > 0)
  {
    if vs == [] then 0
    else if |vs| == 1 || !Joins(vs[|vs| - 2], vs[|vs| - 1]) then 1
    else 1 + Joined(vs[..|vs| - 1])
  }

  function LastN(vs: seq<Value>, n: nat): seq<Value> {
    if n >= |vs| then vs else vs[|vs| - n..]
  }

  function Min(a: nat, b: nat): nat {
    if a < b then a else b
  }

  lemma {:induction false} LastNSnoc(vs: seq<Value>, n: nat)
    requires vs != []
    ensures LastN(vs, n + 1) == LastN(vs[..|vs| - 1], n) + [Last(vs)]
  {
    assert vs == vs[..|vs| - 1] + [Last(vs)];
  }

  lemma {:induction false} FoldKind(vs: seq<Value>)
    requires vs != []
    ensures Fold(vs).Some? && HasKindOf(Fold(vs).value, Last(vs))
  {
    if |vs| > 1 {
      FoldKind(vs[..|vs| - 1]);
    }
  }

  lemma {:induction false} FoldSnoc(s: seq<Value>, w: Value)
    ensures Fold(s + [w]) == Met(Fold(s), Some(w))
  {
    assert (s + [w])[..|s|] == s;
  }

  /** A value that replaces all before it counts alone. */
  lemma {:induction false} FoldReplaced(vs: seq<Value>)
    requires vs != [] && (|vs| == 1 || !Joins(vs[|vs| - 2], vs[|vs| - 1]))
    ensures Fold(vs) == Some(Last(vs)) == Fold([Last(vs)])
  {
    FoldSnoc([], Last(vs));
    assert [] + [Last(vs)] == [Last(vs)];
    if |vs| > 1 {
      FoldKind(vs[..|vs| - 1]);
    }
  }

  lemma {:induction false} JoinedFront(vs: seq<Value>)
    requires |vs| > 1 && Joins(vs[|vs| - 2], vs[|vs| - 1])
    ensures LastN(vs, Joined(vs)) == LastN(vs[..|vs| - 1], Joined(vs[..|vs| - 1])) + [Last(vs)]
  {
    LastNSnoc(vs, Joined(vs[..|vs| - 1]));
  }

  lemma {:induction false} JoinedAlone(vs: seq<Value>)
    requires vs != [] && (|vs| == 1 || !Joins(vs[|vs| - 2], vs[|vs| - 1]))
    ensures LastN(vs, Joined(vs)) == [Last(vs)]
  {
  }

  /** Only the values that have joined since the last replacement count. */
  lemma {:induction false} FoldJoined(vs: seq<Value>)
    ensures Fold(LastN(vs, Joined(vs))) == Fold(vs)
  {
    if vs != [] {
      if |vs| == 1 || !Joins(vs[|vs| - 2], vs[|vs| - 1]) {
        FoldReplaced(vs);
        JoinedAlone(vs);
      } else {
        var front := vs[..|vs| - 1];
        FoldJoined(front);
        JoinedFront(vs);
        FoldSnoc(LastN(front, Joined(front)), Last(vs));
      }
    }
  }

  lemma {:induction false} LastOfLastN(vs: seq<Value>, n: nat)
    requires vs != [] && n > 0
    ensures LastN(vs, n) != [] && Last(LastN(vs, n)) == Last(vs)
  {
  }

  lemma {:induction false} JoinedOneKind(vs: seq<Value>)
    ensures OneKind(LastN(vs, Joined(vs)))
  {
    if vs != [] {
      if |vs| == 1 || !Joins(vs[|vs| - 2], vs[|vs| - 1]) {
        JoinedAlone(vs);
      } else {
        var front := vs[..|vs| - 1];
        JoinedOneKind(front);
        JoinedFront(vs);
        LastOfLastN(front, Joined(front));
        OneKindCat(LastN(front, Joined(front)), [Last(vs)]);
      }
    }
  }

  lemma {:induction false} JoinedOfLast(vs: seq<Value>, n: nat)
    requires n <= |vs|
    ensures Joined(LastN(vs, n)) == Min(n, Joined(vs))
    decreases n
  {
    if n > 1 {
      var front, s := vs[..|vs| - 1], LastN(vs, n);
      LastNSnoc(vs, n - 1);
      assert s[..|s| - 1] == LastN(front, n - 1) && s[|s| - 1] == Last(vs) && s[|s| - 2] == vs[|vs| - 2];
      JoinedOfLast(front, n - 1);
    }
  }

  // ---------------------------------------------------------------- what is live ends in what has joined

  lemma {:induction false} JoinedCat(a: seq<Value>, b: seq<Value>)
    requires b != []
    ensures Joined(a + b) == if Joined(b) < |b| then Joined(b)
      else if a != [] && Joins(Last(a), b[0]) then |b| + Joined(a) else |b|
    decreases |b|
  {
    var s := a + b;
    if |b| == 1 {
      assert s[..|s| - 1] == a;
    } else {
      assert s[..|s| - 1] == a + b[..|b| - 1] && s[|s| - 2] == b[|b| - 2];
      JoinedCat(a, b[..|b| - 1]);
    }
  }

  lemma {:induction false} JoinedAll(b: seq<Value>)
    requires b != [] && Joined(b) == |b|
    ensures |b| == 1 || forall i :: 0 <= i < |b| ==> Joins(b[i], Last(b))
    decreases |b|
  {
    if |b| > 1 {
      JoinedAll(b[..|b| - 1]);
    }
  }

  predicate IsEnd(a: seq<Value>, b: seq<Value>) {
    |a| <= |b| && b[|b| - |a|..] == a
  }

  lemma {:induction false} LiveEnds(t: Term)
    ensures IsEnd(JoinedEnd(Leaves(t)), Leaves(Live(t)))
  {
    LiveLeaves(t);
    match t
    case Nothing =>
    case Said(v) =>
    case Cat(l, r) =>
      LiveEnds(l);
      LiveEnds(r);
      LiveLeaves(l);
      LiveLeaves(r);
      var a, b := Leaves(l), Leaves(r);
      LastOfCat(a, b);
      if b != [] {
        CatEnds(a, b, Leaves(Live(l)), Leaves(Live(r)));
      }
  }

  lemma {:induction false} EndOfCat(x: seq<Value>, a: seq<Value>, b: seq<Value>)
    ensures IsEnd(x, b) ==> IsEnd(x, a + b)
    ensures IsEnd(x, a) ==> IsEnd(x + b, a + b)
  {
    if IsEnd(x, b) {
      assert (a + b)[|a + b| - |x|..] == b[|b| - |x|..];
    }
    if IsEnd(x, a) {
      assert (a + b)[|a + b| - |x + b|..] == a[|a| - |x|..] + b;
    }
  }

  lemma {:induction false} LastNCat(a: seq<Value>, b: seq<Value>, n: nat)
    ensures n <= |b| ==> LastN(a + b, n) == LastN(b, n)
    ensures n <= |a| ==> LastN(a + b, |b| + n) == LastN(a, n) + b
  {
  }

  lemma {:induction false} WholeEnd(b: seq<Value>, lb: seq<Value>)
    requires IsEnd(b, lb) && |lb| <= |b|
    ensures lb == b
  {
  }

  /** What has joined at the end of a sequence. */
  function JoinedEnd(vs: seq<Value>): seq<Value> {
    LastN(vs, Joined(vs))
  }

  lemma {:induction false} JoinedEndCat(a: seq<Value>, b: seq<Value>)
    requires b != []
    ensures JoinedEnd(a + b) == if Joined(b) < |b| then JoinedEnd(b)
      else if a != [] && Joins(Last(a), Last(b)) then JoinedEnd(a) + b else b
  {
    JoinedCat(a, b);
    if Joined(b) < |b| {
      LastNCat(a, b, Joined(b));
    } else {
      JoinedAll(b);
      FirstKind(b);
      if a != [] && Joins(Last(a), Last(b)) {
        LastNCat(a, b, Joined(a));
      } else {
        LastNCat(a, b, |b|);
      }
    }
  }

  lemma {:induction false} FirstKind(b: seq<Value>)
    requires b != [] && (|b| == 1 || forall i :: 0 <= i < |b| ==> Joins(b[i], Last(b)))
    ensures forall v :: Joins(v, b[0]) <==> Joins(v, Last(b))
  {
    assert |b| > 1 ==> Joins(b[0], Last(b));
  }

  lemma {:induction false} CatEnds(a: seq<Value>, b: seq<Value>, la: seq<Value>, lb: seq<Value>)
    requires b != [] && IsEnd(JoinedEnd(a), la) && IsEnd(JoinedEnd(b), lb) && |lb| <= |b|
    ensures IsEnd(JoinedEnd(a + b), if a == [] || !Joins(Last(a), Last(b)) then lb else la + lb)
  {
    JoinedEndCat(a, b);
    if Joined(b) < |b| {
      EndOfCat(JoinedEnd(b), la, lb);
    } else {
      assert JoinedEnd(b) == b;
      WholeEnd(b, lb);
      EndOfCat(JoinedEnd(a), la, b);
    }
  }

  // ---------------------------------------------------------------- one key further down

  predicate HasKey(v: Value, k: string) {
    v.Mapping? && k in v.entries
  }

  function Under(t: Term, k: string): Term {
    match t
    case Nothing => Nothing
    case Said(v) => if HasKey(v, k) then Said(v.entries[k]) else Nothing
    case Cat(l, r) => Cat(Under(l, k), Under(r, k))
  }

  function AllUnder(vs: seq<Value>, k: string): seq<Value> {
    if vs == [] then []
    else AllUnder(vs[..|vs| - 1], k) + (if HasKey(Last(vs), k) then [Last(vs).entries[k]] else [])
  }

  lemma {:induction false} AllUnderCat(a: seq<Value>, b: seq<Value>, k: string)
    ensures AllUnder(a + b, k) == AllUnder(a, k) + AllUnder(b, k)
    decreases |b|
  {
    if b == [] {
      assert a + b == a;
    } else {
      assert (a + b)[..|a + b| - 1] == a + b[..|b| - 1];
      AllUnderCat(a, b[..|b| - 1], k);
    }
  }

  lemma {:induction false} LeavesUnder(t: Term, k: string)
    ensures Leaves(Under(t, k)) == AllUnder(Leaves(t), k)
  {
    match t
    case Nothing =>
    case Said(v) =>
      assert [v][..0] == [];
    case Cat(l, r) =>
      LeavesUnder(l, k);
      LeavesUnder(r, k);
      AllUnderCat(Leaves(l), Leaves(r), k);
  }

  predicate AllMappings(vs: seq<Value>) {
    forall i :: 0 <= i < |vs| ==> vs[i].Mapping?
  }

  /** What a value has at a key. */
  function ValueAt(v: Option<Value>, k: string): Option<Value> {
    if v.Some? && v.value.Mapping? then At(v.value.entries, k) else None
  }

  lemma {:induction false} MetUnder(a: Option<Value>, b: Option<Value>, k: string)
    requires (a.Some? ==> a.value.Mapping?) && (b.Some? ==> b.value.Mapping?)
    ensures ValueAt(Met(a, b), k) == Met(ValueAt(a, k), ValueAt(b, k)) && (Met(a, b).Some? ==> Met(a, b).value.Mapping?)
  {
    if a.Some? && b.Some? {
      MergeAt(a.value.entries, b.value.entries, k);
    }
  }

  lemma {:induction false} MeaningUnder(t: Term, k: string)
    requires AllMappings(Leaves(t))
    ensures Meaning(Under(t, k)) == ValueAt(Meaning(t), k) && (Meaning(t).Some? ==> Meaning(t).value.Mapping?)
  {
    match t
    case Nothing =>
    case Said(v) =>
      assert Leaves(t)[0] == v;
    case Cat(l, r) =>
      MappingsCat(Leaves(l), Leaves(r));
      MeaningUnder(l, k);
      MeaningUnder(r, k);
      MetUnder(Meaning(l), Meaning(r), k);
  }

  lemma {:induction false} MappingsCat(a: seq<Value>, b: seq<Value>)
    requires AllMappings(a + b)
    ensures AllMappings(a) && AllMappings(b)
  {
    forall i | 0 <= i < |a| ensures a[i].Mapping? {
      assert (a + b)[i] == a[i];
    }
    forall i | 0 <= i < |b| ensures b[i].Mapping? {
      assert (a + b)[|a| + i] == b[i];
    }
  }

  /** What is under a key, the last value apart. */
  lemma {:induction false} FoldUnderLast(front: seq<Value>, w: Value, k: string)
    requires w.Mapping?
    ensures Fold(AllUnder(front + [w], k)) == Met(Fold(AllUnder(front, k)), ValueAt(Some(w), k))
  {
    assert (front + [w])[..|front|] == front;
    if k in w.entries {
      FoldSnoc(AllUnder(front, k), w.entries[k]);
    } else {
      assert AllUnder(front, k) + [] == AllUnder(front, k);
    }
  }

  lemma {:induction false} FoldUnder(vs: seq<Value>, k: string)
    requires AllMappings(vs)
    ensures Fold(AllUnder(vs, k)) == ValueAt(Fold(vs), k) && (Fold(vs).Some? ==> Fold(vs).value.Mapping?)
  {
    if vs != [] {
      var front, w := vs[..|vs| - 1], Last(vs);
      assert vs == front + [w];
      FoldUnder(front, k);
      FoldUnderLast(front, w, k);
      FoldSnoc(front, w);
      MetUnder(Fold(front), Some(w), k);
    }
  }

  // ---------------------------------------------------------------- nested and flat

  /** Of the last `n` values, those joined at the end. */
  function Kept(vs: seq<Value>, n: nat): seq<Value> {
    LastN(vs, Min(n, Joined(vs)))
  }

  function Front(live: seq<Value>, m: nat): seq<Value> {
    if m <= |live| then live[..|live| - m] else []
  }

  /** The live values that come before the last `n`, or before one that replaced all before it. */
  function Carried(t: Term, n: nat): seq<Value> {
    Front(Leaves(Live(t)), |Kept(Leaves(t), n)|)
  }

  predicate OnlyEmptyLists(vs: seq<Value>) {
    forall i :: 0 <= i < |vs| ==> vs[i] == List([])
  }

  /** Nothing is carried into nothing, and into a list only empty lists are. */
  predicate CarriesNothing(t: Term, n: nat) {
    Leaves(t) != [] ==> n > 0 && (Last(Leaves(t)).List? ==> OnlyEmptyLists(Carried(t, n)))
  }

  function Down(t: Term, k: string): Term {
    Under(Live(t), k)
  }

  function DownCount(t: Term, n: nat, k: string): nat {
    |AllUnder(Kept(Leaves(t), n), k)|
  }

  /** The same at a path: `t` with the groups that are replaced dropped at each key. */
  predicate CarriesNothingAt(t: Term, n: nat, path: seq<string>)
    decreases |path|
  {
    if path == [] then CarriesNothing(t, n)
    else CarriesNothingAt(Down(t, path[0]), DownCount(t, n, path[0]), path[1..])
  }

  /** No group carries anything past a replacement in it, at any path. */
  ghost predicate NothingCarried(t: Term, n: nat) {
    forall path :: CarriesNothingAt(t, n, path)
  }

  /** The groups make what the last `n` values make one after the other. */
  predicate Same(t: Term, n: nat) {
    Meaning(t) == Fold(LastN(Leaves(t), n))
  }

  lemma {:induction false} LastNTwice(vs: seq<Value>, n: nat, m: nat)
    requires m <= n <= |vs|
    ensures LastN(LastN(vs, n), m) == LastN(vs, m) && |LastN(vs, m)| == m
  {
  }

  lemma {:induction false} EndSplits(x: seq<Value>, live: seq<Value>, m: nat)
    requires IsEnd(x, live) && m <= |x|
    ensures live == Front(live, m) + LastN(x, m)
  {
    assert LastN(x, m) == live[|live| - m..];
  }

  /** The last `n` values make what is kept of them makes. */
  lemma {:induction false} FlatSide(vs: seq<Value>, n: nat)
    requires n <= |vs|
    ensures Fold(LastN(vs, n)) == Fold(Kept(vs, n)) && OneKind(Kept(vs, n))
    ensures n > 0 ==> Kept(vs, n) != [] && Last(Kept(vs, n)) == Last(vs)
  {
    JoinedOfLast(vs, n);
    FoldJoined(LastN(vs, n));
    JoinedOneKind(LastN(vs, n));
    LastNTwice(vs, n, Min(n, Joined(vs)));
  }

  lemma {:induction false} KeptEnds(vs: seq<Value>, live: seq<Value>, n: nat)
    requires n <= |vs| && IsEnd(JoinedEnd(vs), live)
    ensures live == Front(live, |Kept(vs, n)|) + Kept(vs, n)
  {
    var m := Min(n, Joined(vs));
    LastNTwice(vs, Joined(vs), m);
    EndSplits(JoinedEnd(vs), live, m);
  }

  /** What is live is what is carried and what is kept. */
  lemma {:induction false} NestedSide(t: Term, n: nat)
    requires n <= |Leaves(t)|
    ensures Leaves(Live(t)) == Carried(t, n) + Kept(Leaves(t), n)
  {
    LiveEnds(t);
    KeptEnds(Leaves(t), Leaves(Live(t)), n);
  }

  // ---------------------------------------------------------------- lists

  function ItemsOf(vs: seq<Value>): seq<Value> {
    if vs == [] then []
    else ItemsOf(vs[..|vs| - 1]) + (if Last(vs).List? then Last(vs).items else [])
  }

  lemma {:induction false} ItemsCat(a: seq<Value>, b: seq<Value>)
    ensures ItemsOf(a + b) == ItemsOf(a) + ItemsOf(b)
    decreases |b|
  {
    if b == [] {
      assert a + b == a;
    } else {
      assert (a + b)[..|a + b| - 1] == a + b[..|b| - 1];
      ItemsCat(a, b[..|b| - 1]);
    }
  }

  predicate AllLists(vs: seq<Value>) {
    forall i :: 0 <= i < |vs| ==> vs[i].List?
  }

  lemma {:induction false} ListsCat(a: seq<Value>, b: seq<Value>)
    requires AllLists(a + b)
    ensures AllLists(a) && AllLists(b)
  {
    forall i | 0 <= i < |a| ensures a[i].List? {
      assert (a + b)[i] == a[i];
    }
    forall i | 0 <= i < |b| ensures b[i].List? {
      assert (a + b)[|a| + i] == b[i];
    }
  }

  lemma {:induction false} ItemsOfOne(v: Value)
    ensures ItemsOf([v]) == if v.List? then v.items else []
  {
    assert [v][..0] == [];
  }

  /** The list that lists make together, if there are any. */
  function ListOf(vs: seq<Value>): Option<Value> {
    if vs == [] then None else Some(List(ItemsOf(vs)))
  }

  lemma {:induction false} ListOfCat(a: seq<Value>, b: seq<Value>)
    ensures Met(ListOf(a), ListOf(b)) == ListOf(a + b)
  {
    ItemsCat(a, b);
    if a == [] {
      assert a + b == b;
    } else if b == [] {
      assert a + b == a;
    }
  }

  /** Lists grouped in any way make one list. */
  lemma {:induction false} ListMeaning(t: Term)
    requires AllLists(Leaves(t))
    ensures Meaning(t) == ListOf(Leaves(t))
  {
    match t
    case Nothing =>
    case Said(v) =>
      assert Leaves(t)[0] == v;
      ItemsOfOne(v);
    case Cat(l, r) =>
      ListsCat(Leaves(l), Leaves(r));
      ListMeaning(l);
      ListMeaning(r);
      ListOfCat(Leaves(l), Leaves(r));
  }

  lemma {:induction false} ListFold(vs: seq<Value>)
    requires AllLists(vs) && vs != []
    ensures Fold(vs) == Some(List(ItemsOf(vs)))
  {
    if |vs| == 1 {
      assert vs == [vs[0]];
      ItemsOfOne(vs[0]);
    } else {
      ListFold(vs[..|vs| - 1]);
    }
  }

  lemma {:induction false} NoItems(vs: seq<Value>)
    requires AllLists(vs)
    ensures ItemsOf(vs) == [] <==> OnlyEmptyLists(vs)
  {
    if vs != [] {
      var front := vs[..|vs| - 1];
      NoItems(front);
      assert OnlyEmptyLists(vs) <==> OnlyEmptyLists(front) && Last(vs) == List([]) by {
        if OnlyEmptyLists(vs) {
          assert Last(vs) == List([]);
        }
      }
    }
  }

  // ---------------------------------------------------------------- when nesting makes no difference

  lemma {:induction false} KindOfAll(vs: seq<Value>)
    requires OneKind(vs) && vs != []
    ensures Last(vs).List? ==> AllLists(vs)
    ensures Last(vs).Mapping? ==> AllMappings(vs)
    ensures IsLeaf(Last(vs)) ==> vs == [Last(vs)]
  {
  }

  lemma {:induction false} SameLists(t: Term, n: nat)
    requires 0 < n <= |Leaves(t)| && Last(Leaves(t)).List?
    ensures Same(t, n) <==> OnlyEmptyLists(Carried(t, n))
  {
    var vs, live := Leaves(t), Leaves(Live(t));
    var kept, carried := Kept(vs, n), Carried(t, n);
    FlatSide(vs, n);
    NestedSide(t, n);
    LiveLeaves(t);
    LiveMeaning(t);
    KindOfAll(live);
    ListMeaning(Live(t));
    ListsCat(carried, kept);
    ListFold(kept);
    ItemsCat(carried, kept);
    NoItems(carried);
    NoPrefix(ItemsOf(carried), ItemsOf(kept));
  }

  lemma {:induction false} NoPrefix(a: seq<Value>, b: seq<Value>)
    ensures a + b == b <==> a == []
  {
    if a + b == b {
      assert |a + b| == |b|;
    }
  }

  lemma {:induction false} SameLeaf(t: Term, n: nat)
    requires 0 < n <= |Leaves(t)| && IsLeaf(Last(Leaves(t)))
    ensures Same(t, n)
  {
    var vs := Leaves(t);
    LiveMeaning(t);
    FoldKind(LastN(vs, n));
  }

  /** One key further down both sides are those of the term there. */
  lemma {:induction false} SameDown(t: Term, n: nat, k: string)
    requires n <= |Leaves(t)|
    ensures DownCount(t, n, k) <= |Leaves(Down(t, k))|
    ensures LastN(Leaves(Down(t, k)), DownCount(t, n, k)) == AllUnder(Kept(Leaves(t), n), k)
  {
    NestedSide(t, n);
    LeavesUnder(Live(t), k);
    EndUnder(Carried(t, n), Kept(Leaves(t), n), k);
  }

  lemma {:induction false} EndUnder(carried: seq<Value>, kept: seq<Value>, k: string)
    ensures |AllUnder(kept, k)| <= |AllUnder(carried + kept, k)|
    ensures LastN(AllUnder(carried + kept, k), |AllUnder(kept, k)|) == AllUnder(kept, k)
  {
    AllUnderCat(carried, kept, k);
    LastNCat(AllUnder(carried, k), AllUnder(kept, k), |AllUnder(kept, k)|);
  }

  lemma {:induction false} SameMappings(t: Term, n: nat, k: string)
    requires 0 < n <= |Leaves(t)| && Last(Leaves(t)).Mapping?
    ensures Meaning(t).Some? && Meaning(t).value.Mapping?
    ensures Fold(LastN(Leaves(t), n)).Some? && Fold(LastN(Leaves(t), n)).value.Mapping?
    ensures Meaning(Down(t, k)) == At(Meaning(t).value.entries, k)
    ensures Same(Down(t, k), DownCount(t, n, k)) <==>
      At(Meaning(t).value.entries, k) == At(Fold(LastN(Leaves(t), n)).value.entries, k)
  {
    var vs, live := Leaves(t), Leaves(Live(t));
    LiveLeaves(t);
    LiveMeaning(t);
    KindOfAll(live);
    MeaningUnder(Live(t), k);
    FlatSide(vs, n);
    KindOfAll(Kept(vs, n));
    FoldUnder(Kept(vs, n), k);
    SameDown(t, n, k);
    FoldKind(LastN(vs, n));
  }

  lemma {:induction false} NothingDown(t: Term, n: nat, k: string)
    requires n <= |Leaves(t)| && (Leaves(t) == [] || !Last(Leaves(t)).Mapping?)
    ensures Leaves(Down(t, k)) == [] && DownCount(t, n, k) == 0
  {
    LiveLeaves(t);
    LeavesUnder(Live(t), k);
    if Leaves(t) != [] {
      KindOfAll(Leaves(Live(t)));
      NoneUnder(Leaves(Live(t)), k);
    }
    SameDown(t, n, k);
  }

  lemma {:induction false} NoneUnder(vs: seq<Value>, k: string)
    requires forall i :: 0 <= i < |vs| ==> !vs[i].Mapping?
    ensures AllUnder(vs, k) == []
  {
    if vs != [] {
      NoneUnder(vs[..|vs| - 1], k);
    }
  }

  /** If the groups make no difference, nothing is carried anywhere. */
  lemma {:induction false} SameCarriesNothing(t: Term, n: nat, path: seq<string>)
    requires n <= |Leaves(t)| && Same(t, n)
    ensures CarriesNothingAt(t, n, path)
    decreases |path|
  {
    LiveMeaning(t);
    if path == [] {
      if Leaves(t) != [] && n > 0 && Last(Leaves(t)).List? {
        SameLists(t, n);
      }
    } else {
      var k := path[0];
      SameDown(t, n, k);
      if Leaves(t) == [] || !Last(Leaves(t)).Mapping? {
        NothingDown(t, n, k);
        LiveMeaning(Down(t, k));
      } else {
        SameMappings(t, n, k);
      }
      SameCarriesNothing(Down(t, k), DownCount(t, n, k), path[1..]);
    }
  }

  ghost predicate SameUnder(t: Term, n: nat, k: string) {
    Same(Down(t, k), DownCount(t, n, k))
  }

  /** Mappings are the same when they are the same at every key. */
  lemma {:induction false} SameByKey(t: Term, n: nat)
    requires 0 < n <= |Leaves(t)| && Last(Leaves(t)).Mapping?
    requires forall k :: SameUnder(t, n, k)
    ensures Same(t, n)
  {
    SameMappings(t, n, "");
    var v, f := Meaning(t).value, Fold(LastN(Leaves(t), n)).value;
    forall k ensures At(v.entries, k) == At(f.entries, k) {
      assert SameUnder(t, n, k);
      SameMappings(t, n, k);
    }
    SameDocs(v.entries, f.entries);
  }

  lemma {:induction false} NothingSame(t: Term, n: nat)
    requires n <= |Leaves(t)| && Meaning(t) == None
    ensures Same(t, n)
  {
    LiveMeaning(t);
    assert LastN(Leaves(t), n) == [];
  }

  /** And the other way round. */
  lemma {:induction false} CarriesNothingSame(t: Term, n: nat, v: Value)
    requires n <= |Leaves(t)| && Meaning(t) == Some(v) && NothingCarried(t, n)
    ensures Same(t, n)
    decreases v
  {
    LiveMeaning(t);
    assert CarriesNothingAt(t, n, []);
    if Last(Leaves(t)).List? {
      SameLists(t, n);
    } else if IsLeaf(Last(Leaves(t))) {
      SameLeaf(t, n);
    } else {
      forall k ensures SameUnder(t, n, k) {
        SameMappings(t, n, k);
        SameDown(t, n, k);
        NothingBelow(t, n, k);
        if k in v.entries {
          CarriesNothingSame(Down(t, k), DownCount(t, n, k), v.entries[k]);
        } else {
          NothingSame(Down(t, k), DownCount(t, n, k));
        }
      }
      SameByKey(t, n);
    }
  }

  lemma {:induction false} NothingBelow(t: Term, n: nat, k: string)
    requires NothingCarried(t, n)
    ensures NothingCarried(Down(t, k), DownCount(t, n, k))
  {
    forall path ensures CarriesNothingAt(Down(t, k), DownCount(t, n, k), path) {
      BelowPath(t, n, k, path);
    }
  }

  lemma {:induction false} BelowPath(t: Term, n: nat, k: string, path: seq<string>)
    ensures CarriesNothingAt(t, n, [k] + path) == CarriesNothingAt(Down(t, k), DownCount(t, n, k), path)
  {
    assert ([k] + path)[0] == k && ([k] + path)[1..] == path;
  }

  /** The groups make no difference exactly when nothing is carried at any path. */
  lemma {:induction false} SameExactly(t: Term, n: nat)
    requires n <= |Leaves(t)|
    ensures Same(t, n) <==> NothingCarried(t, n)
  {
    LiveMeaning(t);
    if Same(t, n) {
      forall path ensures CarriesNothingAt(t, n, path) {
        SameCarriesNothing(t, n, path);
      }
    } else if Meaning(t).None? {
      NothingSame(t, n);
    } else if NothingCarried(t, n) {
      CarriesNothingSame(t, n, Meaning(t).value);
    }
  }

  // ---------------------------------------------------------------- the term of a configuration

  /** How the documents are grouped when `p` is expanded. */
  function TermOf(files: map<Path, File>, p: Path, busy: set<Path>): Term
    requires Closed(files) && p in files
    decreases files.Keys - busy, 0
  {
    if p in busy then Nothing
    else TermList(files, Said(Mapping(OwnDoc(files, p))), Included(files, p), busy + {p})
  }

  function TermList(files: map<Path, File>, acc: Term, paths: seq<Path>, busy: set<Path>): Term
    requires Closed(files) && Readable(files, paths)
    decreases files.Keys - busy, |paths|
  {
    if paths == [] then acc else TermList(files, Cat(acc, TermOf(files, paths[0], busy)), paths[1..], busy)
  }

  function Docs(files: map<Path, File>, order: seq<Path>): (vs: seq<Value>)
    ensures |vs| == |order| && forall i :: 0 <= i < |vs| ==> vs[i] == Mapping(OwnDoc(files, order[i]))
  {
    seq(|order|, i requires 0 <= i < |order| => Mapping(OwnDoc(files, order[i])))
  }

  lemma {:induction false} DocsCat(files: map<Path, File>, a: seq<Path>, b: seq<Path>)
    ensures Docs(files, a + b) == Docs(files, a) + Docs(files, b)
  {
  }

  /** Its values are the files' documents in reading order. */
  lemma {:induction false} TermLeaves(files: map<Path, File>, p: Path, busy: set<Path>)
    requires Closed(files) && p in files
    ensures Leaves(TermOf(files, p, busy)) == Docs(files, Order(files, p, busy))
    decreases files.Keys - busy, 0
  {
    if p !in busy {
      TermListLeaves(files, Said(Mapping(OwnDoc(files, p))), [p], Included(files, p), busy + {p});
    }
  }

  lemma {:induction false} CatLeaves(files: map<Path, File>, l: Term, r: Term, a: seq<Path>, b: seq<Path>)
    requires Leaves(l) == Docs(files, a) && Leaves(r) == Docs(files, b)
    ensures Leaves(Cat(l, r)) == Docs(files, a + b)
  {
    DocsCat(files, a, b);
  }

  lemma {:induction false} TermListLeaves(files: map<Path, File>, acc: Term, read: seq<Path>, paths: seq<Path>,
      busy: set<Path>)
    requires Closed(files) && Readable(files, paths) && Leaves(acc) == Docs(files, read)
    ensures Leaves(TermList(files, acc, paths, busy)) == Docs(files, read + OrderList(files, paths, busy))
    decreases files.Keys - busy, |paths|
  {
    if paths == [] {
      assert read + [] == read;
    } else {
      var first, rest := Order(files, paths[0], busy), OrderList(files, paths[1..], busy);
      TermLeaves(files, paths[0], busy);
      CatLeaves(files, acc, TermOf(files, paths[0], busy), read, first);
      TermListLeaves(files, Cat(acc, TermOf(files, paths[0], busy)), read + first, paths[1..], busy);
      Regroup(read, first, rest);
    }
  }

  /** And it makes the expanded document. */
  lemma {:induction false} TermMeaning(files: map<Path, File>, p: Path, busy: set<Path>)
    requires Closed(files) && p in files && Expand(files, p, busy).Some?
    ensures Meaning(TermOf(files, p, busy)) == Some(Mapping(Plain(Expand(files, p, busy).value)))
    decreases files.Keys - busy, 0
  {
    if HasIncludes(files[p]) {
      TermListMeaning(files, Said(Mapping(OwnDoc(files, p))), files[p].root, files[p].paths, busy + {p});
      var root := ExpandList(files, files[p].root, files[p].paths, busy + {p}).value;
      assert Plain(Plain(root)) == Plain(root);
    }
  }

  lemma {:induction false} TermListMeaning(files: map<Path, File>, acc: Term, root: Doc, paths: seq<Path>,
      busy: set<Path>)
    requires Closed(files) && Readable(files, paths) && ExpandList(files, root, paths, busy).Some?
    requires Meaning(acc) == Some(Mapping(Plain(root)))
    ensures Meaning(TermList(files, acc, paths, busy))
      == Some(Mapping(Plain(ExpandList(files, root, paths, busy).value)))
    decreases files.Keys - busy, |paths|
  {
    if paths != [] {
      var doc := Expand(files, paths[0], busy).value;
      TermMeaning(files, paths[0], busy);
      MergePlain(root, doc);
      TermListMeaning(files, Cat(acc, TermOf(files, paths[0], busy)), Merge(root, doc), paths[1..], busy);
    }
  }

  lemma {:induction false} FlatIsFold(files: map<Path, File>, order: seq<Path>)
    requires order != []
    ensures Fold(Docs(files, order)) == Some(Mapping(Flat(files, order)))
  {
    var front := order[..|order| - 1];
    assert Docs(files, order)[..|order| - 1] == Docs(files, front);
    if front == [] {
      MergeNothing(OwnDoc(files, order[0]));
    } else {
      FlatIsFold(files, front);
    }
  }

  // ---------------------------------------------------------------- expanding and merging flat

  /**
   Expanding is merging the files flat, in reading order, exactly when no include carries anything past a replacement
   in it.
   */
  lemma {:induction false} ExpandIsFlatExactly(files: map<Path, File>, p: Path, busy: set<Path>)
    requires Closed(files) && p in files && Expand(files, p, busy).Some?
    ensures Plain(Expand(files, p, busy).value) == Flat(files, Order(files, p, busy)) <==>
      NothingCarried(TermOf(files, p, busy), |Order(files, p, busy)|)
  {
    var t, order := TermOf(files, p, busy), Order(files, p, busy);
    TermLeaves(files, p, busy);
    TermMeaning(files, p, busy);
    FlatIsFold(files, order);
    SameExactly(t, |order|);
  }

  ghost predicate AllAgreed(vs: seq<Value>) {
    forall i, j :: 0 <= i < |vs| && 0 <= j < |vs| ==> Agree(vs[i], vs[j])
  }

  lemma {:induction false} AgreedUnder(vs: seq<Value>, k: string, j: nat) returns (i: nat)
    requires j < |AllUnder(vs, k)|
    ensures i < |vs| && vs[i].Mapping? && k in vs[i].entries && AllUnder(vs, k)[j] == vs[i].entries[k]
  {
    var front := AllUnder(vs[..|vs| - 1], k);
    if j < |front| {
      i := AgreedUnder(vs[..|vs| - 1], k, j);
    } else {
      i := |vs| - 1;
    }
  }

  lemma {:induction false} AllAgreedUnder(vs: seq<Value>, k: string)
    requires AllAgreed(vs)
    ensures AllAgreed(AllUnder(vs, k))
  {
    var us := AllUnder(vs, k);
    forall i, j | 0 <= i < |us| && 0 <= j < |us| ensures Agree(us[i], us[j]) {
      var a := AgreedUnder(vs, k, i);
      var b := AgreedUnder(vs, k, j);
      assert Agree(vs[a], vs[b]);
    }
  }

  /** Values that agree and can join have all joined. */
  lemma {:induction false} AgreedJoin(vs: seq<Value>)
    requires AllAgreed(vs) && vs != [] && !IsLeaf(Last(vs))
    ensures Joined(vs) == |vs|
  {
    if |vs| > 1 {
      var front := vs[..|vs| - 1];
      assert Agree(vs[|vs| - 2], Last(vs));
      forall i, j | 0 <= i < |front| && 0 <= j < |front| ensures Agree(front[i], front[j]) {
        assert Agree(vs[i], vs[j]);
      }
      AgreedJoin(front);
    }
  }

  lemma {:induction false} AgreedCarriesNothing(t: Term, path: seq<string>)
    requires AllAgreed(Leaves(t))
    ensures CarriesNothingAt(t, |Leaves(t)|, path)
    decreases |path|
  {
    var vs, n := Leaves(t), |Leaves(t)|;
    if path == [] {
      if vs != [] && Last(vs).List? {
        AgreedLive(t);
      }
    } else if vs == [] || !Last(vs).Mapping? {
      NothingDown(t, n, path[0]);
      AgreedCarriesNothing(Down(t, path[0]), path[1..]);
    } else {
      AgreedLive(t);
      LeavesUnder(Live(t), path[0]);
      AllAgreedUnder(vs, path[0]);
      AgreedCarriesNothing(Down(t, path[0]), path[1..]);
    }
  }

  lemma {:induction false} AgreedLive(t: Term)
    requires AllAgreed(Leaves(t)) && Leaves(t) != [] && !IsLeaf(Last(Leaves(t)))
    ensures Leaves(Live(t)) == Leaves(t) == Kept(Leaves(t), |Leaves(t)|) && Carried(t, |Leaves(t)|) == []
  {
    AgreedJoin(Leaves(t));
    AllJoinedLive(t);
  }

  lemma {:induction false} AllKept(vs: seq<Value>)
    requires Joined(vs) == |vs|
    ensures JoinedEnd(vs) == vs == Kept(vs, |vs|) && Front(vs, |vs|) == []
  {
  }

  /** Values that have all joined are all live. */
  lemma {:induction false} AllJoinedLive(t: Term)
    requires Joined(Leaves(t)) == |Leaves(t)|
    ensures Leaves(Live(t)) == Leaves(t) == Kept(Leaves(t), |Leaves(t)|) && Carried(t, |Leaves(t)|) == []
  {
    AllKept(Leaves(t));
    LiveEnds(t);
    LiveLeaves(t);
    WholeEnd(Leaves(t), Leaves(Live(t)));
  }

  /** No two files disagree on what is a mapping, a list or a scalar. */
  ghost predicate AllAgree(files: map<Path, File>) {
    forall p, q {:trigger files[p], files[q]} :: p in files && q in files ==>
      Agree(Mapping(OwnDoc(files, p)), Mapping(OwnDoc(files, q)))
  }

  lemma {:induction false} OrderListed(files: map<Path, File>, p: Path, busy: set<Path>)
    requires Closed(files) && p in files
    ensures forall i :: 0 <= i < |Order(files, p, busy)| ==> Order(files, p, busy)[i] in files
    decreases files.Keys - busy, 0
  {
    if p !in busy {
      OrderListListed(files, Included(files, p), busy + {p});
    }
  }

  lemma {:induction false} OrderListListed(files: map<Path, File>, paths: seq<Path>, busy: set<Path>)
    requires Closed(files) && Readable(files, paths)
    ensures forall i :: 0 <= i < |OrderList(files, paths, busy)| ==> OrderList(files, paths, busy)[i] in files
    decreases files.Keys - busy, |paths|
  {
    if paths != [] {
      OrderListed(files, paths[0], busy);
      OrderListListed(files, paths[1..], busy);
    }
  }

  /** So it is when the files agree. */
  lemma {:induction false} ExpandIsFlat(files: map<Path, File>, p: Path, busy: set<Path>)
    requires Closed(files) && p in files && Expand(files, p, busy).Some? && AllAgree(files)
    ensures Plain(Expand(files, p, busy).value) == Flat(files, Order(files, p, busy))
  {
    var t, order := TermOf(files, p, busy), Order(files, p, busy);
    TermLeaves(files, p, busy);
    OrderListed(files, p, busy);
    forall i, j | 0 <= i < |order| && 0 <= j < |order| ensures Agree(Leaves(t)[i], Leaves(t)[j]) {
      assert files[order[i]] == files[order[i]] && files[order[j]] == files[order[j]];
    }
    forall path ensures CarriesNothingAt(t, |order|, path) {
      AgreedCarriesNothing(t, path);
    }
    ExpandIsFlatExactly(files, p, busy);
  }

  // ---------------------------------------------------------------- what an expanded configuration holds

  /** What the files say at a path, without the groups that are replaced on the way. */
  function TermAt(t: Term, path: seq<string>): Term
    decreases |path|
  {
    if path == [] then t else TermAt(Down(t, path[0]), path[1..])
  }

  lemma {:induction false} MeaningDown(t: Term, k: string)
    ensures Meaning(Down(t, k)) == ValueAt(Meaning(t), k)
  {
    LiveMeaning(t);
    LiveLeaves(t);
    if Leaves(t) == [] || !Last(Leaves(t)).Mapping? {
      NothingDown(t, 0, k);
      LiveMeaning(Down(t, k));
    } else {
      KindOfAll(Leaves(Live(t)));
      MeaningUnder(Live(t), k);
    }
  }

  lemma {:induction false} MeaningAt(t: Term, v: Value, path: seq<string>)
    requires Meaning(t) == Some(v)
    ensures Meaning(TermAt(t, path)) == Get(v, path)
    decreases |path|
  {
    if path != [] {
      MeaningDown(t, path[0]);
      if v.Mapping? && path[0] in v.entries {
        MeaningAt(Down(t, path[0]), v.entries[path[0]], path[1..]);
      } else {
        NothingAt(Down(t, path[0]), path[1..]);
      }
    }
  }

  lemma {:induction false} NothingAt(t: Term, path: seq<string>)
    requires Meaning(t) == None
    ensures Meaning(TermAt(t, path)) == None
    decreases |path|
  {
    if path != [] {
      MeaningDown(t, path[0]);
      NothingAt(Down(t, path[0]), path[1..]);
    }
  }

  /**
   What the live values make: the last one, if it is a scalar; all of them joined, if they are lists; a mapping of all.
   */
  predicate Makes(t: Term, v: Option<Value>) {
    if Leaves(t) == [] then v == None
    else if Last(Leaves(t)).List? then v == Some(List(ItemsOf(Leaves(Live(t)))))
    else if Last(Leaves(t)).Mapping? then v.Some? && v.value.Mapping?
    else v == Some(Last(Leaves(t)))
  }

  lemma {:induction false} MeaningMakes(t: Term)
    ensures Makes(t, Meaning(t))
  {
    LiveMeaning(t);
    LiveLeaves(t);
    if Leaves(t) != [] && Last(Leaves(t)).List? {
      KindOfAll(Leaves(Live(t)));
      ListMeaning(Live(t));
    }
  }

  /** At every path the expanded configuration has what the live values there make. */
  lemma {:induction false} ExpandedAt(files: map<Path, File>, p: Path, busy: set<Path>, path: seq<string>)
    requires Closed(files) && p in files && Expand(files, p, busy).Some?
    ensures Makes(TermAt(TermOf(files, p, busy), path), Get(Mapping(Plain(Expand(files, p, busy).value)), path))
  {
    TermMeaning(files, p, busy);
    MeaningAt(TermOf(files, p, busy), Mapping(Plain(Expand(files, p, busy).value)), path);
    MeaningMakes(TermAt(TermOf(files, p, busy), path));
  }

  /** At a top-level key: all values the files say there, in reading order. */
  lemma {:induction false} ExpandedKey(files: map<Path, File>, p: Path, busy: set<Path>, k: string)
    requires Closed(files) && p in files && Expand(files, p, busy).Some? && k != "include"
    ensures var t := Down(TermOf(files, p, busy), k);
      Leaves(t) == SaidAt(files, Order(files, p, busy), k) && Makes(t, At(Expand(files, p, busy).value, k))
  {
    var t, order := TermOf(files, p, busy), Order(files, p, busy);
    TermLeaves(files, p, busy);
    TermMeaning(files, p, busy);
    MeaningDown(t, k);
    MeaningMakes(Down(t, k));
    MappingsAllJoin(Leaves(t));
    AllJoinedLive(t);
    LeavesUnder(Live(t), k);
  }

  lemma {:induction false} MappingsAllJoin(vs: seq<Value>)
    requires AllMappings(vs)
    ensures Joined(vs) == |vs|
  {
    if |vs| > 1 {
      MappingsAllJoin(vs[..|vs| - 1]);
    }
  }

  /** `i` is the last file of `order` that says anything at `k`. */
  ghost predicate LastToSay(files: map<Path, File>, order: seq<Path>, k: string, i: int) {
    0 <= i < |order| && Own(files, order[i], k).Some? && forall j :: i < j < |order| ==> Own(files, order[j], k).None?
  }

  function Listed(v: Option<Value>): seq<Value> {
    if v.Some? then [v.value] else []
  }

  /** What all files of `order` say at `k`. */
  function SaidAt(files: map<Path, File>, order: seq<Path>, k: string): seq<Value> {
    AllUnder(Docs(files, order), k)
  }

  lemma {:induction false} SaidSnoc(files: map<Path, File>, order: seq<Path>, k: string)
    requires order != [] && k != "include"
    ensures SaidAt(files, order, k) == SaidAt(files, order[..|order| - 1],
      k) + Listed(Own(files, order[|order| - 1], k))
  {
    assert Docs(files, order)[..|order| - 1] == Docs(files, order[..|order| - 1]);
  }

  lemma {:induction false} LastSaid(files: map<Path, File>, order: seq<Path>, k: string, i: int)
    requires k != "include" && LastToSay(files, order, k, i)
    ensures SaidAt(files, order, k) != [] && Some(Last(SaidAt(files, order, k))) == Own(files, order[i], k)
  {
    SaidSnoc(files, order, k);
    if i < |order| - 1 {
      assert Own(files, order[|order| - 1], k).None?;
      LastSaid(files, order[..|order| - 1], k, i);
    }
  }

  /** A scalar said last at a key is what the expanded configuration has there, whatever other files say. */
  lemma {:induction false} LaterScalarWins(files: map<Path, File>, p: Path, busy: set<Path>, k: string, i: int)
    requires Closed(files) && p in files && Expand(files, p, busy).Some? && k != "include"
    requires LastToSay(files, Order(files, p, busy), k, i) && IsLeaf(Own(files, Order(files, p, busy)[i], k).value)
    ensures At(Expand(files, p, busy).value, k) == Own(files, Order(files, p, busy)[i], k)
  {
    ExpandedKey(files, p, busy, k);
    LastSaid(files, Order(files, p, busy), k, i);
  }

  function Items(v: Option<Value>): seq<Value> {
    if v.Some? && v.value.List? then v.value.items else []
  }

  function OwnItems(files: map<Path, File>, order: seq<Path>, k: string): seq<Value> {
    if order == [] then []
    else OwnItems(files, order[..|order| - 1], k) + Items(Own(files, order[|order| - 1], k))
  }

  /** No file read says anything but a list at the key. */
  ghost predicate OnlyLists(files: map<Path, File>, order: seq<Path>, k: string) {
    forall i :: 0 <= i < |order| && Own(files, order[i], k).Some? ==> Own(files, order[i], k).value.List?
  }

  lemma {:induction false} ListsSaid(files: map<Path, File>, order: seq<Path>, k: string)
    requires k != "include" && OnlyLists(files, order, k)
    ensures AllLists(SaidAt(files, order, k)) && ItemsOf(SaidAt(files, order, k)) == OwnItems(files, order, k)
  {
    if order != [] {
      var front, own := order[..|order| - 1], Own(files, order[|order| - 1], k);
      SaidSnoc(files, order, k);
      ListsSaid(files, front, k);
      ItemsCat(SaidAt(files, front, k), Listed(own));
      if own.Some? {
        ItemsOfOne(own.value);
      }
    }
  }

  lemma {:induction false} ListsAllJoin(vs: seq<Value>)
    requires AllLists(vs)
    ensures Joined(vs) == |vs|
  {
    if |vs| > 1 {
      ListsAllJoin(vs[..|vs| - 1]);
    }
  }

  /** The list at a key is the files' own lists, joined in the order the files are read. */
  lemma {:induction false} ListsAreJoined(files: map<Path, File>, p: Path, busy: set<Path>, k: string)
    requires Closed(files) && p in files && Expand(files, p, busy).Some? && k != "include"
    requires OnlyLists(files, Order(files, p, busy), k)
    ensures Items(At(Expand(files, p, busy).value, k)) == OwnItems(files, Order(files, p, busy), k)
  {
    var order, t := Order(files, p, busy), Down(TermOf(files, p, busy), k);
    ExpandedKey(files, p, busy, k);
    ListsSaid(files, order, k);
    ListsAllJoin(Leaves(t));
    AllJoinedLive(t);
  }

  // ---------------------------------------------------------------- an include graph that is not flat

  /** `files` has three files in a row that say a list, a scalar and a list at "jobs". */
  ghost predicate ThreeInARow(files: map<Path, File>, x: Value, s: string, y: Value) {
    && files.Keys == {"a", "b", "c"}
    && files["a"] == File(map["include" := Scalar("b"), "jobs" := List([x])], ["b"])
    && files["b"] == File(map["include" := Scalar("c"), "jobs" := Scalar(s)], ["c"])
    && files["c"] == File(map["jobs" := List([y])], [])
  }

  lemma {:induction false} SomeThreeFiles(x: Value, s: string, y: Value) returns (files: map<Path, File>)
    ensures ThreeInARow(files, x, s, y) && Closed(files)
  {
    files := map["a" := File(map["include" := Scalar("b"), "jobs" := List([x])], ["b"]),
                 "b" := File(map["include" := Scalar("c"), "jobs" := Scalar(s)], ["c"]),
                 "c" := File(map["jobs" := List([y])], [])];
  }

  /** Values that do not associate come out differently nested and flat. */
  lemma {:induction false} NestingMatters(files: map<Path, File>, x: Value, s: string, y: Value)
    requires Closed(files) && ThreeInARow(files, x, s, y)
    ensures Expand(files, "a", {}).Some? && At(Expand(files, "a", {}).value, "jobs") == Some(List([x, y]))
    ensures Order(files, "a", {}) == ["a", "b", "c"] && At(Flat(files, ["a", "b", "c"]), "jobs") == Some(List([y]))
  {
    ExpandLast(files, x, s, y);
    ExpandMiddle(files, x, s, y);
    OneInclude(files, "a", "b", {});
    var root, doc := files["a"].root, Expand(files, "b", {"a"}).value;
    MergeAt(root, doc, "jobs");
    assert [x] + [y] == [x, y];
    FlatThree(files, x, s, y);
  }

  /** A file with one include. */
  lemma {:induction false} OneInclude(files: map<Path, File>, p: Path, q: Path, busy: set<Path>)
    requires Closed(files) && p in files && q in files && HasIncludes(files[p]) && files[p].paths == [q] && p !in busy
    requires Expand(files, q, busy + {p}).Some?
    ensures Expand(files, p, busy) == Some(Plain(Merge(files[p].root, Expand(files, q, busy + {p}).value)))
    ensures Order(files, p, busy) == [p] + Order(files, q, busy + {p})
  {
    var paths := files[p].paths;
    assert paths[0] == q && paths[1..] == [];
    var root := Merge(files[p].root, Expand(files, q, busy + {p}).value);
    assert ExpandList(files, root, paths[1..], busy + {p}) == Some(root);
    assert OrderList(files, paths[1..], busy + {p}) == [];
    assert Order(files, q, busy + {p}) + [] == Order(files, q, busy + {p});
  }

  lemma {:induction false} ExpandLast(files: map<Path, File>, x: Value, s: string, y: Value)
    requires Closed(files) && ThreeInARow(files, x, s, y)
    ensures Expand(files, "c", {"a", "b"}) == Some(files["c"].root) && Order(files, "c", {"a", "b"}) == ["c"]
  {
    assert OrderList(files, [], {"a", "b", "c"}) == [];
    assert !HasIncludes(files["c"]);
    assert {"a", "b"} + {"c"} == {"a", "b", "c"};
  }

  lemma {:induction false} ExpandMiddle(files: map<Path, File>, x: Value, s: string, y: Value)
    requires Closed(files) && ThreeInARow(files, x, s, y)
    ensures Expand(files, "b", {"a"}).Some? && At(Expand(files, "b", {"a"}).value, "jobs") == Some(List([y]))
    ensures Order(files, "b", {"a"}) == ["b", "c"] && {} + {"a"} == {"a"}
  {
    ExpandLast(files, x, s, y);
    assert {"a"} + {"b"} == {"a", "b"};
    OneInclude(files, "b", "c", {"a"});
    MergeAt(files["b"].root, files["c"].root, "jobs");
  }

  lemma {:induction false} FlatThree(files: map<Path, File>, x: Value, s: string, y: Value)
    requires ThreeInARow(files, x, s, y)
    ensures At(Flat(files, ["a", "b", "c"]), "jobs") == Some(List([y]))
  {
    assert ["a", "b", "c"][..2] == ["a", "b"] && ["a", "b"][..1] == ["a"];
    MergeAt(Flat(files, ["a"]), OwnDoc(files, "b"), "jobs");
    MergeAt(Flat(files, ["a", "b"]), OwnDoc(files, "c"), "jobs");
  }
}
