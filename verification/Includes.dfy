/** Configuration includes: files that pull in other files, merged key by key, with circular includes reported. */
module Includes {
  import opened Sequences

  type Path = string

  datatype Value = Null | Scalar(text: string) | List(items: seq<Value>) | Mapping(entries: map<string, Value>)

  type Doc = map<string, Value>

  // ---------------------------------------------------------------- merging

  function MergeValue(dst: Value, src: Value): (r: Value)
    ensures dst.Mapping? && src.Mapping? ==> r.Mapping?
    decreases src
  {
    if dst.Mapping? && src.Mapping? then
      var d, s := dst.entries, src.entries;
      Mapping(map k | k in d.Keys + s.Keys ::
        if k !in s then d[k] else if k !in d then s[k] else MergeValue(d[k], s[k]))
    else if dst.List? && src.List? then List(dst.items + src.items)
    else src
  }

  /** What merging the document `src` into `dst` leaves in `dst`. */
  function Merge(dst: Doc, src: Doc): Doc {
    MergeValue(Mapping(dst), Mapping(src)).entries
  }

  lemma {:induction false} MergedKey(dst: Doc, src: Doc, k: string)
    requires k in src
    ensures Merge(dst, src).Keys == dst.Keys + src.Keys
    ensures Merge(dst, src)[k] == (if k in dst then MergeValue(dst[k], src[k]) else src[k])
  {
  }

  /** The keys of `src` come in any order, each changing `dst` in place. */
  method MergeYAML(dst: Doc, src: Doc) returns (r: Doc)
    ensures r == Merge(dst, src)
    decreases Mapping(src)
  {
    r := dst;
    var todo := src.Keys;
    while todo != {}
      invariant todo <= src.Keys
      invariant r.Keys == dst.Keys + (src.Keys - todo)
      invariant forall k :: k in r.Keys ==> r[k] == (if k in src.Keys - todo then Merge(dst, src)[k] else dst[k])
      decreases todo
    {
      var k :| k in todo;
      MergedKey(dst, src, k);
      if k !in r {
        r := r[k := src[k]];
      } else if r[k].Mapping? && src[k].Mapping? {
        assert src[k] == Mapping(src[k].entries);
        var inner := MergeYAML(r[k].entries, src[k].entries);
        r := r[k := Mapping(inner)];
      } else if r[k].List? && src[k].List? {
        r := r[k := List(r[k].items + src[k].items)];
      } else if r[k] != src[k] {
        r := r[k := src[k]];
      }
      todo := todo - {k};
    }
  }

  // ---------------------------------------------------------------- what a merged document holds

  /** The value found by following `path`, one key at a time. */
  function Get(v: Value, path: seq<string>): Option<Value>
    decreases |path|
  {
    if path == [] then Some(v)
    else if v.Mapping? && path[0] in v.entries then Get(v.entries[path[0]], path[1..])
    else None
  }

  /** On the way along `path`, `v` has something other than a mapping. */
  predicate Blocks(v: Value, path: seq<string>)
    decreases |path|
  {
    path != [] && (!v.Mapping? || (path[0] in v.entries && Blocks(v.entries[path[0]], path[1..])))
  }

  /** Two values met at one place: lists joined, mappings merged, otherwise the later one. */
  function Met(a: Option<Value>, b: Option<Value>): Option<Value> {
    if a.None? then b else if b.None? then a else Some(MergeValue(a.value, b.value))
  }

  /**
   At every path, the merged value is what the two values at that path make, unless the later document cuts the path
   off.
   */
  lemma {:induction false} MergedAt(dst: Value, src: Value, path: seq<string>)
    ensures Get(MergeValue(dst, src), path) == (if Blocks(src, path) then None else Met(Get(dst, path), Get(src, path)))
    decreases |path|
  {
    if path != [] && src.Mapping? && dst.Mapping? && path[0] in src.entries {
      if path[0] in dst.entries {
        MergedAt(dst.entries[path[0]], src.entries[path[0]], path[1..]);
      } else {
        BlockedIsAbsent(src.entries[path[0]], path[1..]);
      }
    } else if path != [] && src.Mapping? && !dst.Mapping? {
      BlockedIsAbsent(src, path);
    }
  }

  lemma {:induction false} BlockedIsAbsent(v: Value, path: seq<string>)
    ensures Blocks(v, path) ==> Get(v, path) == None
    decreases |path|
  {
    if path != [] && v.Mapping? && path[0] in v.entries {
      BlockedIsAbsent(v.entries[path[0]], path[1..]);
    }
  }

  // ---------------------------------------------------------------- expanding

  /** A parsed file, and the paths its include entry resolves to. */
  datatype File = File(root: Doc, paths: seq<Path>)

  predicate HasIncludes(f: File) {
    "include" in f.root && f.root["include"] != Null
  }

  function Included(files: map<Path, File>, p: Path): seq<Path>
    requires p in files
  {
    if HasIncludes(files[p]) then files[p].paths else []
  }

  /** Every file an include names can be read. */
  predicate Readable(files: map<Path, File>, paths: seq<Path>) {
    forall i :: 0 <= i < |paths| ==> paths[i] in files
  }

  predicate Closed(files: map<Path, File>) {
    forall p :: p in files ==> Readable(files, Included(files, p))
  }

  /** The expanded document of `p`, `busy` being the files whose expansion is under way; None for a circular include. */
  function Expand(files: map<Path, File>, p: Path, busy: set<Path>): Option<Doc>
    requires Closed(files) && p in files
    decreases files.Keys - busy, 0
  {
    if p in busy then None
    else if !HasIncludes(files[p]) then Some(files[p].root)
    else
      match ExpandList(files, files[p].root, files[p].paths, busy + {p})
      case None => None
      case Some(root) => Some(root - {"include"})
  }

  function ExpandList(files: map<Path, File>, root: Doc, paths: seq<Path>, busy: set<Path>): Option<Doc>
    requires Closed(files) && Readable(files, paths)
    decreases files.Keys - busy, |paths|
  {
    if paths == [] then Some(root)
    else
      match Expand(files, paths[0], busy)
      case None => None
      case Some(doc) => ExpandList(files, Merge(root, doc), paths[1..], busy)
  }

  class Loader {
    const files: map<Path, File>
    var inProgress: set<Path>

    constructor (files: map<Path, File>)
      ensures this.files == files && inProgress == {}
    {
      this.files := files;
      inProgress := {};
    }

    /** Ends on every include graph; whatever the outcome, the files under way are those under way before. */
    method ExpandIncludes(p: Path) returns (r: Option<Doc>)
      requires Closed(files) && p in files
      modifies this
      ensures r == Expand(files, p, old(inProgress))
      ensures inProgress == old(inProgress)
      decreases files.Keys - inProgress
    {
      if p in inProgress {
        return None;
      }
      ghost var busy := inProgress;
      inProgress := inProgress + {p};
      var root := files[p].root;
      if !HasIncludes(files[p]) {
        inProgress := inProgress - {p};
        return Some(root);
      }
      var paths := files[p].paths;
      var i := 0;
      while i < |paths|
        invariant 0 <= i <= |paths| && inProgress == busy + {p}
        invariant ExpandList(files, root, paths[i..], busy + {p}) == ExpandList(files, files[p].root, paths, busy + {p})
      {
        var doc := ExpandIncludes(paths[i]);
        if doc.None? {
          inProgress := inProgress - {p};
          return None;
        }
        root := MergeYAML(root, doc.value);
        i := i + 1;
      }
      inProgress := inProgress - {p};
      r := Some(root - {"include"});
    }
  }

  // ---------------------------------------------------------------- circular includes

  /** Following includes from file to file. */
  predicate IsWalk(files: map<Path, File>, w: seq<Path>) {
    && w != [] && w[0] in files
    && (|w| == 1 || (w[1] in Included(files, w[0]) && IsWalk(files, w[1..])))
  }

  ghost predicate WalkFrom(files: map<Path, File>, p: Path, w: seq<Path>) {
    IsWalk(files, w) && w[0] == p
  }

  /** Some walk from `p` comes back to a file it has been to. */
  ghost predicate ReachesCycle(files: map<Path, File>, p: Path) {
    exists w :: WalkFrom(files, p, w) && !Distinct(w)
  }

  /** No walk from a file that expands meets a file under way or comes back to itself. */
  lemma {:induction false} ExpandedIsAcyclic(files: map<Path, File>, p: Path, busy: set<Path>, w: seq<Path>)
    requires Closed(files) && p in files && Expand(files, p, busy).Some? && WalkFrom(files, p, w)
    ensures Distinct(w) && forall i :: 0 <= i < |w| ==> w[i] !in busy
    decreases |w|
  {
    if |w| > 1 {
      WalkTail(files, w);
      ListExpanded(files, files[p].root, files[p].paths, busy + {p}, w[1]);
      ExpandedIsAcyclic(files, w[1], busy + {p}, w[1..]);
      StillDistinct(p, w[1..], busy);
    }
  }

  lemma {:induction false} WalkTail(files: map<Path, File>, w: seq<Path>)
    requires IsWalk(files, w) && |w| > 1
    ensures w[1] in Included(files, w[0]) && WalkFrom(files, w[1], w[1..]) && w == [w[0]] + w[1..]
  {
  }

  lemma {:induction false} StillDistinct(p: Path, rest: seq<Path>, busy: set<Path>)
    requires Distinct(rest) && p !in busy && forall i :: 0 <= i < |rest| ==> rest[i] !in busy + {p}
    ensures Distinct([p] + rest) && forall i :: 0 <= i < |[p] + rest| ==> ([p] + rest)[i] !in busy
  {
  }

  lemma {:induction false} ListExpanded(files: map<Path, File>, root: Doc, paths: seq<Path>, busy: set<Path>, p: Path)
    requires Closed(files) && Readable(files, paths) && ExpandList(files, root, paths, busy).Some? && p in paths
    ensures p in files && Expand(files, p, busy).Some?
    decreases |paths|
  {
    if p != paths[0] {
      ListExpanded(files, Merge(root, Expand(files, paths[0], busy).value), paths[1..], busy, p);
    }
  }

  /** A reported file has a walk that ends in a file under way or in a file the walk has been to. */
  lemma {:induction false} ReportedHasWalk(files: map<Path, File>, p: Path, busy: set<Path>) returns (w: seq<Path>)
    requires Closed(files) && p in files && Expand(files, p, busy).None?
    ensures WalkFrom(files, p, w) && (w[|w| - 1] in busy || !Distinct(w))
    decreases files.Keys - busy, 0
  {
    if p in busy {
      w := [p];
    } else {
      var q := ListReported(files, files[p].root, files[p].paths, busy + {p});
      var rest := ReportedHasWalk(files, q, busy + {p});
      w := [p] + rest;
      assert w[1..] == rest;
      Prepended(p, rest, busy);
    }
  }

  lemma {:induction false} Prepended(p: Path, rest: seq<Path>, busy: set<Path>)
    requires rest != [] && (rest[|rest| - 1] in busy + {p} || !Distinct(rest))
    ensures ([p] + rest)[|rest|] in busy || !Distinct([p] + rest)
  {
    var w := [p] + rest;
    if !Distinct(rest) {
      var i, j :| 0 <= i < j < |rest| && rest[i] == rest[j];
      assert w[i + 1] == w[j + 1];
    } else {
      assert w[|rest|] == rest[|rest| - 1] && w[0] == p;
    }
  }

  lemma {:induction false} ListReported(files: map<Path, File>, root: Doc, paths: seq<Path>, busy: set<Path>)
    returns (q: Path)
    requires Closed(files) && Readable(files, paths) && ExpandList(files, root, paths, busy).None?
    ensures q in paths && q in files && Expand(files, q, busy).None?
    decreases |paths|
  {
    q := paths[0];
    if Expand(files, q, busy).Some? {
      q := ListReported(files, Merge(root, Expand(files, q, busy).value), paths[1..], busy);
    }
  }

  /**
   A configuration is reported as circular exactly when a cycle can be reached from it; files included twice are fine.
   */
  lemma {:induction false} CircularIffCycle(files: map<Path, File>, p: Path)
    requires Closed(files) && p in files
    ensures Expand(files, p, {}).None? <==> ReachesCycle(files, p)
  {
    if Expand(files, p, {}).None? {
      var w := ReportedHasWalk(files, p, {});
      assert WalkFrom(files, p, w) && !Distinct(w);
    } else {
      forall w | WalkFrom(files, p, w) ensures Distinct(w) {
        ExpandedIsAcyclic(files, p, {}, w);
      }
    }
  }

  // ---------------------------------------------------------------- what an expanded configuration holds

  /** Wherever it is included, a file contributes the same document. */
  lemma {:induction false} SameEverywhere(files: map<Path, File>, p: Path, busy: set<Path>)
    requires Closed(files) && p in files && Expand(files, p, busy).Some?
    ensures Expand(files, p, busy) == Expand(files, p, {})
    decreases files.Keys - busy, 0
  {
    SameUnder(files, p, busy, {});
  }

  lemma {:induction false} SameUnder(files: map<Path, File>, p: Path, busy: set<Path>, fewer: set<Path>)
    requires Closed(files) && p in files && Expand(files, p, busy).Some? && fewer <= busy
    ensures Expand(files, p, fewer) == Expand(files, p, busy)
    decreases files.Keys - busy, 0
  {
    if HasIncludes(files[p]) {
      SameListUnder(files, files[p].root, files[p].paths, busy + {p}, fewer + {p});
    }
  }

  lemma {:induction false} SameListUnder(files: map<Path, File>, root: Doc, paths: seq<Path>, busy: set<Path>,
      fewer: set<Path>)
    requires Closed(files) && Readable(files, paths) && ExpandList(files, root, paths, busy).Some? && fewer <= busy
    ensures ExpandList(files, root, paths, fewer) == ExpandList(files, root, paths, busy)
    decreases files.Keys - busy, |paths|
  {
    if paths != [] {
      SameUnder(files, paths[0], busy, fewer);
      SameListUnder(files, Merge(root, Expand(files, paths[0], busy).value), paths[1..], busy, fewer);
    }
  }

  /** The files in the order they are read, a file as often as it is included. */
  function Order(files: map<Path, File>, p: Path, busy: set<Path>): seq<Path>
    requires Closed(files) && p in files
    decreases files.Keys - busy, 0
  {
    if p in busy then [] else [p] + OrderList(files, Included(files, p), busy + {p})
  }

  function OrderList(files: map<Path, File>, paths: seq<Path>, busy: set<Path>): seq<Path>
    requires Closed(files) && Readable(files, paths)
    decreases files.Keys - busy, |paths|
  {
    if paths == [] then [] else Order(files, paths[0], busy) + OrderList(files, paths[1..], busy)
  }

  /** What one file says at a key. */
  function Own(files: map<Path, File>, p: Path, k: string): Option<Value> {
    if p in files && k in files[p].root then Some(files[p].root[k]) else None
  }

  function At(doc: Doc, k: string): Option<Value> {
    if k in doc then Some(doc[k]) else None
  }

  ghost predicate Says(files: map<Path, File>, order: seq<Path>, k: string) {
    exists q :: q in order && Own(files, q, k).Some?
  }

  lemma {:induction false} SaysConcat(files: map<Path, File>, a: seq<Path>, b: seq<Path>, k: string)
    ensures Says(files, a + b, k) <==> Says(files, a, k) || Says(files, b, k)
  {
    if q :| q in a && Own(files, q, k).Some? {
      assert q in a + b;
    }
    if q :| q in b && Own(files, q, k).Some? {
      assert q in a + b;
    }
  }

  /** An expanded configuration has exactly the keys its files have. */
  lemma {:induction false} KeysKept(files: map<Path, File>, p: Path, busy: set<Path>, k: string)
    requires Closed(files) && p in files && Expand(files, p, busy).Some? && k != "include"
    ensures k in Expand(files, p, busy).value <==> Says(files, Order(files, p, busy), k)
    decreases files.Keys - busy, 0
  {
    var rest := OrderList(files, Included(files, p), busy + {p});
    SaysConcat(files, [p], rest, k);
    assert Says(files, [p], k) <==> k in files[p].root by {
      assert p in [p];
    }
    if HasIncludes(files[p]) {
      KeysKeptList(files, files[p].root, files[p].paths, busy + {p}, k);
    } else {
      assert !Says(files, [], k);
    }
  }

  lemma {:induction false} KeysKeptList(files: map<Path, File>, root: Doc, paths: seq<Path>, busy: set<Path>, k: string)
    requires Closed(files) && Readable(files, paths) && ExpandList(files, root, paths, busy).Some? && k != "include"
    ensures k in ExpandList(files, root, paths, busy).value <==>
      k in root || Says(files, OrderList(files, paths, busy), k)
    decreases files.Keys - busy, |paths|
  {
    if paths != [] {
      var doc := Expand(files, paths[0], busy).value;
      KeysKept(files, paths[0], busy, k);
      MergeAt(root, doc, k);
      KeysKeptList(files, Merge(root, doc), paths[1..], busy, k);
      SaysConcat(files, Order(files, paths[0], busy), OrderList(files, paths[1..], busy), k);
    }
  }

  lemma {:induction false} MergeAt(dst: Doc, src: Doc, k: string)
    ensures At(Merge(dst, src), k) == Met(At(dst, k), At(src, k))
  {
    if k in src {
      MergedKey(dst, src, k);
    }
  }

  lemma {:induction false} SameDocs(a: Doc, b: Doc)
    requires forall k :: At(a, k) == At(b, k)
    ensures a == b
  {
    forall k ensures k in a <==> k in b {
      assert At(a, k) == At(b, k);
    }
    forall k | k in a ensures a[k] == b[k] {
      assert At(a, k) == At(b, k);
    }
  }

  // ---------------------------------------------------------------- merging three documents

  predicate IsLeaf(v: Value) {
    v.Null? || v.Scalar?
  }

  /** Two lists or two mappings; of any other two values the later one replaces the earlier. */
  predicate Joins(a: Value, b: Value) {
    (a.List? && b.List?) || (a.Mapping? && b.Mapping?)
  }

  /** The value three documents make at a key. */
  lemma {:induction false} MergedThree(x: Doc, y: Doc, z: Doc, k: string)
    ensures At(Merge(Merge(x, y), z), k) == Met(Met(At(x, k), At(y, k)), At(z, k))
    ensures At(Merge(x, Merge(y, z)), k) == Met(At(x, k), Met(At(y, k), At(z, k)))
  {
    MergeAt(x, y, k);
    MergeAt(Merge(x, y), z, k);
    MergeAt(y, z, k);
    MergeAt(x, Merge(y, z), k);
  }

  /**
   Mappings: so it is at each key all three have. Otherwise: where the last value would join the first but
   the one between replaces it, the first adds nothing to the last.
   */
  ghost predicate Assoc(a: Value, b: Value, c: Value)
    decreases a
  {
    if a.Mapping? && b.Mapping? && c.Mapping? then
      forall k :: k in a.entries && k in b.entries && k in c.entries ==> Assoc(a.entries[k], b.entries[k], c.entries[k])
    else Joins(a, c) && !Joins(a, b) ==> MergeValue(a, c) == c
  }

  /** The two ways to merge three values in order come to the same. */
  predicate Associate(a: Value, b: Value, c: Value) {
    MergeValue(MergeValue(a, b), c) == MergeValue(a, MergeValue(b, c))
  }

  lemma {:induction false} AssociatesExactly(a: Value, b: Value, c: Value)
    ensures Associate(a, b, c) <==> Assoc(a, b, c)
    decreases a
  {
    if a.Mapping? && b.Mapping? && c.Mapping? {
      var x, y, z := a.entries, b.entries, c.entries;
      forall k | k in x && k in y && k in z ensures Associate(x[k], y[k], z[k]) <==> Assoc(x[k], y[k], z[k]) {
        AssociatesExactly(x[k], y[k], z[k]);
      }
      AssociatesByKey(x, y, z);
    } else if a.List? && b.List? && c.List? {
      assert (a.items + b.items) + c.items == a.items + (b.items + c.items);
    }
  }

  lemma {:induction false} AssociatesByKey(x: Doc, y: Doc, z: Doc)
    ensures Associate(Mapping(x), Mapping(y), Mapping(z)) <==>
      forall k :: k in x && k in y && k in z ==> Associate(x[k], y[k], z[k])
  {
    var l, r := Merge(Merge(x, y), z), Merge(x, Merge(y, z));
    forall k ensures At(l, k) == At(r, k) <==> (k in x && k in y && k in z ==> Associate(x[k], y[k], z[k])) {
      MergedThree(x, y, z, k);
    }
    if forall k :: k in x && k in y && k in z ==> Associate(x[k], y[k], z[k]) {
      SameDocs(l, r);
    }
  }

  /** Wherever both values say something, both say a mapping, both a list, or both a scalar. */
  ghost predicate Agree(a: Value, b: Value)
    decreases a
  {
    || (a.Mapping? && b.Mapping? && forall k :: k in a.entries && k in b.entries ==> Agree(a.entries[k], b.entries[k]))
    || (a.List? && b.List?)
    || (IsLeaf(a) && IsLeaf(b))
  }

  lemma {:induction false} AgreedAssoc(a: Value, b: Value, c: Value)
    requires Agree(a, b) && Agree(a, c) && Agree(b, c)
    ensures Assoc(a, b, c)
    decreases a
  {
    if a.Mapping? {
      forall k | k in a.entries && k in b.entries && k in c.entries
        ensures Assoc(a.entries[k], b.entries[k], c.entries[k])
      {
        AgreedAssoc(a.entries[k], b.entries[k], c.entries[k]);
      }
    }
  }

  /** Among others, values that agree associate. */
  lemma {:induction false} MergeAssociates(a: Value, b: Value, c: Value)
    requires Agree(a, b) && Agree(a, c) && Agree(b, c)
    ensures Associate(a, b, c)
  {
    AgreedAssoc(a, b, c);
    AssociatesExactly(a, b, c);
  }

  // ---------------------------------------------------------------- the files merged flat

  /** A document without its include entry. */
  function Plain(doc: Doc): Doc {
    doc - {"include"}
  }

  lemma {:induction false} MergePlain(dst: Doc, src: Doc)
    ensures Plain(Merge(dst, src)) == Merge(Plain(dst), Plain(src))
  {
    forall k ensures At(Plain(Merge(dst, src)), k) == At(Merge(Plain(dst), Plain(src)), k) {
      MergeAt(dst, src, k);
      MergeAt(Plain(dst), Plain(src), k);
    }
    SameDocs(Plain(Merge(dst, src)), Merge(Plain(dst), Plain(src)));
  }

  function OwnDoc(files: map<Path, File>, p: Path): Doc {
    if p in files then Plain(files[p].root) else map[]
  }

  /** The documents of `order`, merged one after the other. */
  function Flat(files: map<Path, File>, order: seq<Path>): Doc {
    if order == [] then map[] else Merge(Flat(files, order[..|order| - 1]), OwnDoc(files, order[|order| - 1]))
  }

  lemma {:induction false} MergeNothing(doc: Doc)
    ensures Merge(doc, map[]) == doc && Merge(map[], doc) == doc
  {
    forall k ensures At(Merge(doc, map[]), k) == At(doc, k) == At(Merge(map[], doc), k) {
      MergeAt(doc, map[], k);
      MergeAt(map[], doc, k);
    }
    SameDocs(Merge(doc, map[]), doc);
    SameDocs(Merge(map[], doc), doc);
  }
}
