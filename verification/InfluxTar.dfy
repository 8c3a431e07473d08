/** Merging the tar files of a chain of physical backups: one manifest and the files it names in each. */
module InfluxTar {
  import opened Decimals
  import opened Sequences
  import opened KeyedMerge
  import opened InfluxMerge

  type Bytes = seq<bv8>

  datatype TarFile = TarFile(name: string, data: Bytes)

  datatype Tar = Tar(manifest: Manifest, files: seq<TarFile>)

  datatype Merged = Merged(manifest: Manifest, files: map<string, Bytes>)

  function FileKey(f: TarFile): string { f.name }

  /** The first file of that name in a tar, as the second pass reads it. */
  function FileIn(t: Tar, name: string): Option<TarFile> {
    Lookup(t.files, FileKey, name)
  }

  function Manifests(tars: seq<Tar>): (ms: seq<Manifest>)
    ensures |ms| == |tars| && forall i :: 0 <= i < |tars| ==> ms[i] == tars[i].manifest
  {
    seq(|tars|, i requires 0 <= i < |tars| => tars[i].manifest)
  }

  predicate HasFile(t: Tar, name: string) {
    FileIn(t, name).Some?
  }

  /** The last of the first `n` tars that has a file of that name; -1 if none does. */
  function LastTar(tars: seq<Tar>, n: nat, name: string): (i: int)
    requires n <= |tars|
    ensures -1 <= i < n
    ensures i >= 0 ==> HasFile(tars[i], name)
    ensures forall j :: i < j < n ==> !HasFile(tars[j], name)
  {
    if n == 0 then -1 else if HasFile(tars[n - 1], name) then n - 1 else LastTar(tars, n - 1, name)
  }

  ghost predicate Latest(tars: seq<Tar>, n: nat, byPath: map<string, nat>)
    requires n <= |tars|
  {
    forall name :: if name in byPath then byPath[name] == LastTar(tars, n, name) else LastTar(tars, n, name) == -1
  }

  function NamesOf(files: seq<TarFile>): set<string> {
    set f | f in files :: f.name
  }

  lemma {:induction false} NamedIsFound(t: Tar, name: string)
    ensures HasFile(t, name) <==> name in NamesOf(t.files)
  {
    FoundIsMember(t.files, FileKey, name);
    if name in NamesOf(t.files) {
      var f :| f in t.files && f.name == name;
    }
  }

  /** One tar of the first pass: its names now point to it. */
  method IndexTar(files: seq<TarFile>, n: nat, byPath: map<string, nat>) returns (byPath': map<string, nat>)
    ensures byPath'.Keys == byPath.Keys + NamesOf(files)
    ensures forall name :: name in byPath' ==> byPath'[name] == if name in NamesOf(files) then n else byPath[name]
  {
    byPath' := byPath;
    for k := 0 to |files|
      invariant byPath'.Keys == byPath.Keys + NamesOf(files[..k])
      invariant forall name :: name in byPath' ==>
        byPath'[name] == if name in NamesOf(files[..k]) then n else byPath[name]
    {
      assert files[..k + 1] == files[..k] + [files[k]];
      assert NamesOf(files[..k + 1]) == NamesOf(files[..k]) + {files[k].name};
      byPath' := byPath'[files[k].name := n];
    }
    assert files[..|files|] == files;
  }

  method IndexTars(tars: seq<Tar>) returns (byPath: map<string, nat>)
    ensures Latest(tars, |tars|, byPath)
  {
    byPath := map[];
    for n := 0 to |tars|
      invariant Latest(tars, n, byPath)
    {
      forall name ensures HasFile(tars[n], name) <==> name in NamesOf(tars[n].files) { NamedIsFound(tars[n], name); }
      byPath := IndexTar(tars[n].files, n, byPath);
    }
  }

  /** The second pass: each name's file, read from the tar the index gives. */
  method ReadFiles(tars: seq<Tar>, byPath: map<string, nat>) returns (files: map<string, Bytes>)
    requires Latest(tars, |tars|, byPath)
    ensures files.Keys == byPath.Keys
    ensures forall name :: name in files ==> FileIn(tars[byPath[name]], name) == Some(TarFile(name, files[name]))
  {
    forall name | name in byPath
      ensures byPath[name] < |tars| && HasFile(tars[byPath[name]], name)
      ensures FileIn(tars[byPath[name]], name).value.name == name
    {
      FoundIsMember(tars[byPath[name]].files, FileKey, name);
    }
    files := map name | name in byPath :: FileIn(tars[byPath[name]], name).value.data;
  }

  /** The merged manifest, and each name's file from the last tar that has it. */
  ghost predicate IsMergeOf(tars: seq<Tar>, byPath: map<string, nat>, m: Merged) {
    && Latest(tars, |tars|, byPath) && m.manifest == MergeAll(Manifests(tars)) && m.files.Keys == byPath.Keys
    && forall name :: name in m.files ==> FileIn(tars[byPath[name]], name) == Some(TarFile(name, m.files[name]))
  }

  method MergeTars(tars: seq<Tar>) returns (r: Result<Merged>, ghost byPath: map<string, nat>)
    ensures r.Ok? <==> tars != [] && FirstBad(Manifests(tars)) == |tars|
    ensures r.Ok? ==> IsMergeOf(tars, byPath, r.value)
  {
    var index := IndexTars(tars);
    byPath := index;
    var merged := MergeSets(Manifests(tars));
    match merged
    case NoManifest => r := NoManifest;
    case BadVersion(v) => r := BadVersion(v);
    case Ok(m) =>
      var files := ReadFiles(tars, index);
      r := Ok(Merged(m, files));
  }

  /** If the tar's manifest has the shard, the tar has the shard's file. */
  ghost predicate CompleteAt(t: Tar, path: Path) {
    ShardAt(t.manifest, path).Some? ==> HasFile(t, ShardAt(t.manifest, path).value.file)
  }

  /** Each tar has the files its manifest names. */
  ghost predicate Complete(tars: seq<Tar>) {
    forall i, path {:trigger CompleteAt(tars[i], path)} :: 0 <= i < |tars| ==> CompleteAt(tars[i], path)
  }

  ghost predicate OwnNameAt(a: Tar, b: Tar, path: Path) {
    ShardAt(a.manifest, path).Some? && HasFile(b, ShardAt(a.manifest, path).value.file) ==>
      ShardAt(b.manifest, path).Some?
  }

  /** A later tar has a file of the same name as a shard's only when it has that shard again. */
  ghost predicate OwnNames(tars: seq<Tar>) {
    forall i, j, path {:trigger OwnNameAt(tars[i], tars[j], path)} :: 0 <= i < j < |tars| ==>
      OwnNameAt(tars[i], tars[j], path)
  }

  /**
   A shard's file in the merged tar is the one of the last backup that has the shard exactly when no later tar has a
   file of that name.
   */
  lemma {:induction false} ShardFileExactly(tars: seq<Tar>, byPath: map<string, nat>, path: Path)
    requires Latest(tars, |tars|, byPath) && Complete(tars)
    requires forall i :: 0 <= i < |tars| ==> Good(tars[i].manifest)
    requires ShardAt(MergeAll(Manifests(tars)), path).Some?
    ensures var i := LastHolder(Manifests(tars), path);
            var file := ShardAt(MergeAll(Manifests(tars)), path).value.file;
            file in byPath && (byPath[file] == i <==> forall j :: i < j < |tars| ==> !HasFile(tars[j], file))
  {
    var ms := Manifests(tars);
    LastManifestWins(ms, path);
    var i := LastHolder(ms, path);
    assert CompleteAt(tars[i], path);
  }

  /**
   Every shard of the merged manifest names a file of the merged tar, with the bytes of the last backup that has the
   shard.
   */
  lemma {:induction false} ShardFilesSurvive(tars: seq<Tar>, byPath: map<string, nat>, path: Path)
    requires Latest(tars, |tars|, byPath) && Complete(tars) && OwnNames(tars)
    requires forall i :: 0 <= i < |tars| ==> Good(tars[i].manifest)
    requires ShardAt(MergeAll(Manifests(tars)), path).Some?
    ensures var i := LastHolder(Manifests(tars), path);
            var file := ShardAt(MergeAll(Manifests(tars)), path).value.file;
            file in byPath && byPath[file] == i
  {
    var ms := Manifests(tars);
    LastManifestWins(ms, path);
    ShardFileExactly(tars, byPath, path);
    var i := LastHolder(ms, path);
    forall j | i < j < |tars| ensures !HasFile(tars[j], ShardAt(tars[i].manifest, path).value.file) {
      assert ShardAt(ms[j], path).None?;
      NoLaterFile(tars, i, j, path);
    }
  }

  lemma {:induction false} NoLaterFile(tars: seq<Tar>, i: nat, j: nat, path: Path)
    requires i < j < |tars| && OwnNames(tars) && ShardAt(tars[i].manifest, path).Some?
    requires ShardAt(tars[j].manifest, path).None?
    ensures !HasFile(tars[j], ShardAt(tars[i].manifest, path).value.file)
  {
    assert OwnNameAt(tars[i], tars[j], path);
  }

  // ---------------------------------------------------------------- the names backups give their files

  function IntText(n: int): string {
    if n < 0 then "-" + Decimal(-n) else Decimal(n)
  }

  /** The name of a shard's file in the backup called `base`; the server may answer with compressed data. */
  function ShardFile(base: string, id: int, gz: bool): string {
    base + "." + IntText(id) + (if gz then ".tar.gz" else ".tar")
  }

  lemma {:induction false} IntTextTellsApart(m: int, n: int)
    requires IntText(m) == IntText(n)
    ensures m == n
  {
    SignShows(m);
    SignShows(n);
  }

  lemma {:induction false} SignShows(n: int)
    ensures IntText(n) != "" && (IntText(n)[0] == '-' <==> n < 0)
    ensures n < 0 ==> DecimalValue(IntText(n)[1..]) == -n
    ensures n >= 0 ==> DecimalValue(IntText(n)) == n
  {
    if n < 0 {
      assert IntText(n)[1..] == Decimal(-n);
    }
  }

  lemma {:induction false} NoDot(n: int)
    ensures '.' !in IntText(n)
  {
  }

  lemma {:induction false} LastDot(a: string, s: string, b: string, t: string)
    requires a + "." + s == b + "." + t && '.' !in s && '.' !in t
    ensures a == b && s == t
  {
    var x, y := a + "." + s, b + "." + t;
    assert x[|a|] == '.' && y[|b|] == '.';
    assert y[|a|] == '.' && x[|b|] == '.';
    assert x[..|a|] == a && y[..|b|] == b;
    assert x[|a| + 1..] == s && y[|b| + 1..] == t;
  }

  lemma {:induction false} EndTellsCompression(x: string, gz: bool, y: string, gz': bool)
    requires x + (if gz then ".tar.gz" else ".tar") == y + (if gz' then ".tar.gz" else ".tar")
    ensures gz == gz' && x == y
  {
    var s, t := x + (if gz then ".tar.gz" else ".tar"), y + (if gz' then ".tar.gz" else ".tar");
    assert s[|s| - 1] == (if gz then 'z' else 'r') && t[|t| - 1] == (if gz' then 'z' else 'r');
    assert s[..|x|] == x && t[..|y|] == y;
  }

  /** A shard's file name tells the backup, the shard and whether the data is compressed. */
  lemma {:induction false} FileNamesTellApart(base: string, id: int, gz: bool, base': string, id': int, gz': bool)
    requires ShardFile(base, id, gz) == ShardFile(base', id', gz')
    ensures base == base' && id == id' && gz == gz'
  {
    EndTellsCompression(base + "." + IntText(id), gz, base' + "." + IntText(id'), gz');
    NoDot(id);
    NoDot(id');
    LastDot(base, IntText(id), base', IntText(id'));
    IntTextTellsApart(id, id');
  }

  /** The shard's file carries the backup's name and its own, compressed or not. */
  ghost predicate NamedAt(t: Tar, base: string, path: Path) {
    ShardAt(t.manifest, path).Some? ==> IsShardFile(ShardAt(t.manifest, path).value.file, base, path.shard)
  }

  ghost predicate HasShard(m: Manifest, path: Path, id: int) {
    path.shard == id && ShardAt(m, path).Some?
  }

  ghost predicate IsShardFile(name: string, base: string, id: int) {
    exists gz :: name == ShardFile(base, id, gz)
  }

  ghost predicate FromManifest(t: Tar, base: string, name: string, b: string, id: int) {
    HasFile(t, name) && IsShardFile(name, b, id) ==>
      exists path: Path :: HasShard(t.manifest, path, path.shard) && IsShardFile(name, base, path.shard)
  }

  /**
   Files are named after the backup and the shard, and a file named like a shard's is that of a shard of the manifest.
   */
  ghost predicate Named(t: Tar, base: string) {
    && (forall path {:trigger NamedAt(t, base, path)} :: NamedAt(t, base, path))
    && (forall name, b, id {:trigger FromManifest(t, base, name, b, id)} :: FromManifest(t, base, name, b, id))
  }

  /** So a file named after a shard is there only with the shard. */
  lemma {:induction false} FileMeansShard(t: Tar, base: string, b: string, id: int, gz: bool) returns (path: Path)
    requires Named(t, base) && HasFile(t, ShardFile(b, id, gz))
    ensures HasShard(t.manifest, path, id)
  {
    var name := ShardFile(b, id, gz);
    assert IsShardFile(name, b, id) && FromManifest(t, base, name, b, id);
    path :| HasShard(t.manifest, path, path.shard) && IsShardFile(name, base, path.shard);
    var gz' :| name == ShardFile(base, path.shard, gz');
    FileNamesTellApart(b, id, gz, base, path.shard, gz');
  }

  ghost predicate OnePathAt(a: Tar, b: Tar, p: Path, q: Path) {
    ShardAt(a.manifest, p).Some? && HasShard(b.manifest, q, p.shard) ==> p == q
  }

  /** A shard is never found in another group, policy or bucket. */
  ghost predicate OnePath(tars: seq<Tar>) {
    forall i, j, p, q {:trigger OnePathAt(tars[i], tars[j], p, q)} :: 0 <= i < |tars| && 0 <= j < |tars| ==>
      OnePathAt(tars[i], tars[j], p, q)
  }

  /** The names the backups use keep a later tar from replacing an older shard's file. */
  lemma {:induction false} NamesAreOwn(tars: seq<Tar>, bases: seq<string>)
    requires |bases| == |tars| && OnePath(tars)
    requires forall i :: 0 <= i < |tars| ==> Named(tars[i], bases[i])
    ensures OwnNames(tars)
  {
    forall i, j, path | 0 <= i < j < |tars| ensures OwnNameAt(tars[i], tars[j], path) {
      assert NamedAt(tars[i], bases[i], path);
      if ShardAt(tars[i].manifest, path).Some? && HasFile(tars[j], ShardAt(tars[i].manifest, path).value.file) {
        var gz :| ShardAt(tars[i].manifest, path).value.file == ShardFile(bases[i], path.shard, gz);
        var q := FileMeansShard(tars[j], bases[j], bases[i], path.shard, gz);
        assert OnePathAt(tars[i], tars[j], path, q);
      }
    }
  }
}
