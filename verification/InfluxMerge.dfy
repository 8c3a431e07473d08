/**
 Merging InfluxDB physical backups: the manifests nest buckets, retention policies, shard
 groups and shards, and a later manifest overrides an earlier one shard by shard.
 */
module InfluxMerge {
  import opened Sequences
  import opened KeyedMerge

  const MANIFEST_VERSION := 2

  datatype Shard = Shard(id: int, file: string)

  /** `start` and `end` are None when the server left the time unset. */
  datatype Group = Group(id: int, start: Option<int>, end: Option<int>, shards: seq<Shard>)

  datatype Policy = Policy(name: string, groups: seq<Group>)

  datatype Bucket = Bucket(org: string, name: string, policies: seq<Policy>)

  /** `kv` is the file name of the metadata snapshot, "" when there is none. */
  datatype Manifest = Manifest(version: int, kv: string, sql: Option<string>, buckets: seq<Bucket>)

  function ShardKey(s: Shard): int { s.id }

  function GroupKey(g: Group): int { g.id }

  function PolicyKey(p: Policy): string { p.name }

  function BucketKey(b: Bucket): string { b.org + "/" + b.name }

  function Later(a: Shard, b: Shard): Shard { b }

  function MergeGroup(a: Group, b: Group): Group {
    a.(shards := Merge(a.shards, b.shards, ShardKey, Later))
  }

  function MergePolicy(a: Policy, b: Policy): Policy {
    a.(groups := Merge(a.groups, b.groups, GroupKey, MergeGroup))
  }

  function MergeBuckets(a: Bucket, b: Bucket): Bucket {
    a.(policies := Merge(a.policies, b.policies, PolicyKey, MergePolicy))
  }

  // ---------------------------------------------------------------- the nested loops

  /** The innermost loop: a known shard is overwritten, any other appended. */
  method MergeShardLists(dst: seq<Shard>, src: seq<Shard>) returns (r: seq<Shard>)
    ensures r == Merge(dst, src, ShardKey, Later)
  {
    r := dst;
    for n := 0 to |src|
      invariant r == Merge(dst, src[..n], ShardKey, Later)
    {
      assert src[..n + 1][..n] == src[..n];
      var i := FindIndex(r, ShardKey, src[n].id);
      if i < |r| {
        r := r[i := src[n]];
      } else {
        r := r + [src[n]];
      }
    }
    assert src[..|src|] == src;
  }

  method MergeGroupLists(dst: seq<Group>, src: seq<Group>) returns (r: seq<Group>)
    ensures r == Merge(dst, src, GroupKey, MergeGroup)
  {
    r := dst;
    for n := 0 to |src|
      invariant r == Merge(dst, src[..n], GroupKey, MergeGroup)
    {
      assert src[..n + 1][..n] == src[..n];
      var i := FindIndex(r, GroupKey, src[n].id);
      if i == |r| {
        r := r + [src[n]];
        continue;
      }
      var shards := MergeShardLists(r[i].shards, src[n].shards);
      r := r[i := r[i].(shards := shards)];
    }
    assert src[..|src|] == src;
  }

  method MergeBucket(dst: Bucket, src: Bucket) returns (r: Bucket)
    ensures r == MergeBuckets(dst, src)
  {
    var policies := dst.policies;
    for n := 0 to |src.policies|
      invariant policies == Merge(dst.policies, src.policies[..n], PolicyKey, MergePolicy)
    {
      assert src.policies[..n + 1][..n] == src.policies[..n];
      var i := FindIndex(policies, PolicyKey, src.policies[n].name);
      if i == |policies| {
        policies := policies + [src.policies[n]];
        continue;
      }
      var groups := MergeGroupLists(policies[i].groups, src.policies[n].groups);
      policies := policies[i := policies[i].(groups := groups)];
    }
    assert src.policies[..|src.policies|] == src.policies;
    r := dst.(policies := policies);
  }

  method FindIndex<K(==), V>(s: seq<V>, key: V -> K, k: K) returns (i: nat)
    ensures i == Find(s, key, k)
  {
    i := 0;
    while i < |s|
      invariant 0 <= i <= |s|
      invariant forall j :: 0 <= j < i ==> key(s[j]) != k
    {
      if key(s[i]) == k {
        return;
      }
      i := i + 1;
    }
  }

  // ---------------------------------------------------------------- merging manifests

  datatype Result<T> = Ok(value: T) | NoManifest | BadVersion(version: int)

  function FirstKv(a: string, b: string): string {
    if a == "" then b else a
  }

  function FirstSql(a: Option<string>, b: Option<string>): Option<string> {
    if a.None? then b else a
  }

  /**
   A manifest merged into what has been collected so far; the metadata snapshots stay those of the first that has them.
   */
  function MergeManifest(a: Manifest, b: Manifest): Manifest {
    Manifest(a.version, FirstKv(a.kv, b.kv), FirstSql(a.sql, b.sql),
      Merge(a.buckets, b.buckets, BucketKey, MergeBuckets))
  }

  const EMPTY := Manifest(MANIFEST_VERSION, "", None, [])

  function MergeAll(ms: seq<Manifest>): Manifest {
    if ms == [] then EMPTY else MergeManifest(MergeAll(ms[..|ms| - 1]), ms[|ms| - 1])
  }

  /** The position of the first manifest of another version; `|ms|` if there is none. */
  function FirstBad(ms: seq<Manifest>): (i: nat)
    ensures i <= |ms|
  {
    if ms == [] then 0 else if ms[0].version != MANIFEST_VERSION then 0 else 1 + FirstBad(ms[1..])
  }

  /** The map and the order list together hold the merged buckets. */
  ghost predicate Holds(buckets: map<string, Bucket>, order: seq<string>, merged: seq<Bucket>) {
    && |order| == |merged|
    && (forall i :: 0 <= i < |order| ==>
      order[i] in buckets && buckets[order[i]] == merged[i] && BucketKey(merged[i]) == order[i])
    && (forall i, j :: 0 <= i < j < |order| ==> order[i] != order[j])
    && (forall k :: k in buckets ==> k in order)
  }

  lemma {:induction false} HoldsFinds(buckets: map<string, Bucket>, order: seq<string>, merged: seq<Bucket>,
      key: string)
    requires Holds(buckets, order, merged)
    ensures var i := Find(merged, BucketKey, key);
      if key in buckets then i < |merged| && order[i] == key else i == |merged|
  {
    if key in buckets {
      var p :| 0 <= p < |order| && order[p] == key;
      assert BucketKey(merged[p]) == key;
    }
  }

  lemma {:induction false} HoldsAppend(buckets: map<string, Bucket>, order: seq<string>, merged: seq<Bucket>, b: Bucket)
    requires Holds(buckets, order, merged) && BucketKey(b) !in buckets
    ensures Holds(buckets[BucketKey(b) := b], order + [BucketKey(b)], merged + [b])
  {
  }

  lemma {:induction false} HoldsUpdate(buckets: map<string, Bucket>, order: seq<string>, merged: seq<Bucket>, i: nat,
      b: Bucket)
    requires Holds(buckets, order, merged) && i < |order| && BucketKey(b) == order[i]
    ensures Holds(buckets[order[i] := b], order, merged[i := b])
  {
  }

  /** One bucket entry: looked up in the map, merged in place or appended to the order. */
  method AddBucket(buckets: map<string, Bucket>, order: seq<string>, b: Bucket, ghost merged: seq<Bucket>)
    returns (buckets': map<string, Bucket>, order': seq<string>)
    requires Holds(buckets, order, merged)
    ensures Holds(buckets', order', MergeOne(merged, b, BucketKey, MergeBuckets))
  {
    var key := BucketKey(b);
    HoldsFinds(buckets, order, merged, key);
    if key !in buckets {
      HoldsAppend(buckets, order, merged, b);
      buckets', order' := buckets[key := b], order + [key];
    } else {
      var dst := MergeBucket(buckets[key], b);
      HoldsUpdate(buckets, order, merged, Find(merged, BucketKey, key), dst);
      buckets', order' := buckets[key := dst], order;
    }
  }

  method AddManifest(buckets: map<string, Bucket>, order: seq<string>, m: Manifest, ghost merged: seq<Bucket>)
    returns (buckets': map<string, Bucket>, order': seq<string>)
    requires Holds(buckets, order, merged)
    ensures Holds(buckets', order', Merge(merged, m.buckets, BucketKey, MergeBuckets))
  {
    buckets', order' := buckets, order;
    for n := 0 to |m.buckets|
      invariant Holds(buckets', order', Merge(merged, m.buckets[..n], BucketKey, MergeBuckets))
    {
      assert m.buckets[..n + 1][..n] == m.buckets[..n];
      buckets', order' := AddBucket(buckets', order', m.buckets[n],
        Merge(merged, m.buckets[..n], BucketKey, MergeBuckets));
    }
    assert m.buckets[..|m.buckets|] == m.buckets;
  }

  method MergeSets(ms: seq<Manifest>) returns (r: Result<Manifest>)
    ensures ms == [] ==> r == NoManifest
    ensures ms != [] && FirstBad(ms) < |ms| ==> r == BadVersion(ms[FirstBad(ms)].version)
    ensures ms != [] && FirstBad(ms) == |ms| ==> r == Ok(MergeAll(ms))
  {
    if ms == [] {
      return NoManifest;
    }
    var kv, sql := "", None;
    var buckets: map<string, Bucket>, order: seq<string> := map[], [];
    var i := 0;
    assert ms[0..] == ms;
    while i < |ms|
      invariant 0 <= i <= |ms|
      invariant kv == MergeAll(ms[..i]).kv && sql == MergeAll(ms[..i]).sql
      invariant Holds(buckets, order, MergeAll(ms[..i]).buckets)
      invariant FirstBad(ms) == i + FirstBad(ms[i..])
    {
      assert ms[i..][0] == ms[i] && ms[i..][1..] == ms[i + 1..];
      assert ms[..i + 1][..i] == ms[..i];
      if ms[i].version != MANIFEST_VERSION {
        return BadVersion(ms[i].version);
      }
      if kv == "" {
        kv := ms[i].kv;
      }
      if sql == None {
        sql := ms[i].sql;
      }
      buckets, order := AddManifest(buckets, order, ms[i], MergeAll(ms[..i]).buckets);
      i := i + 1;
    }
    assert ms[..i] == ms;
    var list := seq(|order|, n requires 0 <= n < |order| && order[n] in buckets => buckets[order[n]]);
    assert list == MergeAll(ms).buckets;
    MergedVersion(ms);
    r := Ok(Manifest(MANIFEST_VERSION, kv, sql, list));
  }

  lemma {:induction false} MergedVersion(ms: seq<Manifest>)
    ensures MergeAll(ms).version == MANIFEST_VERSION
  {
    if ms != [] {
      MergedVersion(ms[..|ms| - 1]);
    }
  }

  // ---------------------------------------------------------------- last writer wins

  /** Where a shard sits in a manifest. */
  datatype Path = Path(bucket: string, policy: string, group: int, shard: int)

  function ShardIn(g: Option<Group>, path: Path): Option<Shard> {
    if g.None? then None else Lookup(g.value.shards, ShardKey, path.shard)
  }

  function GroupIn(p: Option<Policy>, path: Path): Option<Group> {
    if p.None? then None else Lookup(p.value.groups, GroupKey, path.group)
  }

  function PolicyIn(b: Option<Bucket>, path: Path): Option<Policy> {
    if b.None? then None else Lookup(b.value.policies, PolicyKey, path.policy)
  }

  function GroupAt(m: Manifest, path: Path): Option<Group> {
    GroupIn(PolicyIn(Lookup(m.buckets, BucketKey, path.bucket), path), path)
  }

  function ShardAt(m: Manifest, path: Path): Option<Shard> {
    ShardIn(GroupAt(m, path), path)
  }

  ghost predicate GoodGroup(g: Group) {
    UniqueKeys(g.shards, ShardKey)
  }

  ghost predicate GoodPolicy(p: Policy) {
    UniqueKeys(p.groups, GroupKey) && forall g :: g in p.groups ==> GoodGroup(g)
  }

  ghost predicate GoodBucket(b: Bucket) {
    UniqueKeys(b.policies, PolicyKey) && forall p :: p in b.policies ==> GoodPolicy(p)
  }

  /** No key occurs twice at any level. */
  ghost predicate Good(m: Manifest) {
    UniqueKeys(m.buckets, BucketKey) && forall b :: b in m.buckets ==> GoodBucket(b)
  }

  function Override(a: Option<Shard>, b: Option<Shard>): Option<Shard> {
    if b.Some? then b else a
  }

  lemma {:induction false} FoundIsMember<K(!new), V(!new)>(s: seq<V>, key: V -> K, k: K)
    ensures Lookup(s, key, k).Some? ==> Lookup(s, key, k).value in s && key(Lookup(s, key, k).value) == k
  {
  }

  /** Every item of a merge is found under its own key. */
  lemma {:induction false} MemberIsFound<K(!new), V(!new)>(s: seq<V>, key: V -> K, v: V)
    requires UniqueKeys(s, key) && v in s
    ensures Lookup(s, key, key(v)) == Some(v)
  {
    var i :| 0 <= i < |s| && s[i] == v;
    FindUnique(s, key, i);
  }

  // Each level in turn: what is found after a merge combines what was found before it.

  lemma {:induction false} GroupMerge(x: Option<Group>, y: Option<Group>, path: Path)
    requires (x.Some? ==> GoodGroup(x.value)) && (y.Some? ==> GoodGroup(y.value))
    ensures var g := Combined(x, y, MergeGroup);
      && (g.Some? ==> GoodGroup(g.value))
      && ShardIn(g, path) == Override(ShardIn(x, path), ShardIn(y, path))
  {
    if x.Some? && y.Some? {
      MergeLookup(x.value.shards, y.value.shards, ShardKey, Later, path.shard);
    }
  }

  lemma {:induction false} GroupsMerge(a: Policy, b: Policy, path: Path)
    requires GoodPolicy(a) && GoodPolicy(b)
    ensures var p := MergePolicy(a, b);
      && UniqueKeys(p.groups, GroupKey)
      && GroupIn(Some(p), path) == Combined(GroupIn(Some(a), path), GroupIn(Some(b), path), MergeGroup)
      && (GroupIn(Some(p), path).Some? ==> GoodGroup(GroupIn(Some(p), path).value))
      && ShardIn(GroupIn(Some(p), path), path)
        == Override(ShardIn(GroupIn(Some(a), path), path), ShardIn(GroupIn(Some(b), path), path))
  {
    MergeLookup(a.groups, b.groups, GroupKey, MergeGroup, path.group);
    FoundIsMember(a.groups, GroupKey, path.group);
    FoundIsMember(b.groups, GroupKey, path.group);
    GroupMerge(GroupIn(Some(a), path), GroupIn(Some(b), path), path);
  }

  lemma {:induction false} PolicyMerge(x: Option<Policy>, y: Option<Policy>, path: Path)
    requires (x.Some? ==> GoodPolicy(x.value)) && (y.Some? ==> GoodPolicy(y.value))
    ensures var p := Combined(x, y, MergePolicy);
      && (p.Some? ==> GoodPolicy(p.value))
      && (GroupIn(p, path) == Combined(GroupIn(x, path), GroupIn(y, path), MergeGroup))
      && ShardIn(GroupIn(p, path), path) == Override(ShardIn(GroupIn(x, path), path), ShardIn(GroupIn(y, path), path))
  {
    if x.Some? && y.Some? {
      var p := MergePolicy(x.value, y.value);
      GroupsMerge(x.value, y.value, path);
      forall g | g in p.groups ensures GoodGroup(g) {
        MemberIsFound(p.groups, GroupKey, g);
        GroupsMerge(x.value, y.value, path.(group := g.id));
      }
    }
  }

  lemma {:induction false} BucketMerge(x: Option<Bucket>, y: Option<Bucket>, path: Path)
    requires (x.Some? ==> GoodBucket(x.value)) && (y.Some? ==> GoodBucket(y.value))
    ensures var b := Combined(x, y, MergeBuckets);
      && (b.Some? ==> GoodBucket(b.value))
      && (GroupIn(PolicyIn(b, path), path)
        == Combined(GroupIn(PolicyIn(x, path), path), GroupIn(PolicyIn(y, path), path), MergeGroup))
      && ShardIn(GroupIn(PolicyIn(b, path), path), path)
         == Override(ShardIn(GroupIn(PolicyIn(x, path), path), path), ShardIn(GroupIn(PolicyIn(y, path), path), path))
  {
    if x.Some? && y.Some? {
      var b := MergeBuckets(x.value, y.value);
      PoliciesMerge(x.value, y.value, path);
      forall p | p in b.policies ensures GoodPolicy(p) {
        MemberIsFound(b.policies, PolicyKey, p);
        PoliciesMerge(x.value, y.value, path.(policy := p.name));
      }
    }
  }

  lemma {:induction false} PoliciesMerge(a: Bucket, b: Bucket, path: Path)
    requires GoodBucket(a) && GoodBucket(b)
    ensures var r := MergeBuckets(a, b);
      && UniqueKeys(r.policies, PolicyKey)
      && PolicyIn(Some(r), path) == Combined(PolicyIn(Some(a), path), PolicyIn(Some(b), path), MergePolicy)
      && (PolicyIn(Some(r), path).Some? ==> GoodPolicy(PolicyIn(Some(r), path).value))
      && GroupIn(PolicyIn(Some(r), path), path)
        == Combined(GroupIn(PolicyIn(Some(a), path), path), GroupIn(PolicyIn(Some(b), path), path), MergeGroup)
      && ShardIn(GroupIn(PolicyIn(Some(r), path), path), path)
         == Override(ShardIn(GroupIn(PolicyIn(Some(a), path), path), path),
           ShardIn(GroupIn(PolicyIn(Some(b), path), path), path))
  {
    MergeLookup(a.policies, b.policies, PolicyKey, MergePolicy, path.policy);
    FoundIsMember(a.policies, PolicyKey, path.policy);
    FoundIsMember(b.policies, PolicyKey, path.policy);
    PolicyMerge(PolicyIn(Some(a), path), PolicyIn(Some(b), path), path);
  }

  /** Merging two manifests is overriding one map of shards by another; groups are united, and no key is doubled. */
  lemma {:induction false} ManifestMerge(a: Manifest, b: Manifest, path: Path)
    requires Good(a) && Good(b)
    ensures ShardAt(MergeManifest(a, b), path) == Override(ShardAt(a, path), ShardAt(b, path))
    ensures GroupAt(MergeManifest(a, b), path) == Combined(GroupAt(a, path), GroupAt(b, path), MergeGroup)
  {
    MergeLookup(a.buckets, b.buckets, BucketKey, MergeBuckets, path.bucket);
    FoundIsMember(a.buckets, BucketKey, path.bucket);
    FoundIsMember(b.buckets, BucketKey, path.bucket);
    BucketMerge(Lookup(a.buckets, BucketKey, path.bucket), Lookup(b.buckets, BucketKey, path.bucket), path);
  }

  lemma {:induction false} ManifestMergeGood(a: Manifest, b: Manifest)
    requires Good(a) && Good(b)
    ensures Good(MergeManifest(a, b))
  {
    var r := MergeManifest(a, b);
    MergeLookup(a.buckets, b.buckets, BucketKey, MergeBuckets, "");
    forall k | k in r.buckets ensures GoodBucket(k) {
      var key := BucketKey(k);
      MergeLookup(a.buckets, b.buckets, BucketKey, MergeBuckets, key);
      MemberIsFound(r.buckets, BucketKey, k);
      FoundIsMember(a.buckets, BucketKey, key);
      FoundIsMember(b.buckets, BucketKey, key);
      BucketMerge(Lookup(a.buckets, BucketKey, key), Lookup(b.buckets, BucketKey, key), Path(key, "", 0, 0));
    }
  }

  /** The position of the last manifest that holds a shard; -1 if none does. */
  function LastHolder(ms: seq<Manifest>, path: Path): (i: int)
    ensures -1 <= i < |ms|
    ensures i >= 0 ==> ShardAt(ms[i], path).Some?
    ensures forall j :: i < j < |ms| ==> ShardAt(ms[j], path).None?
  {
    if ms == [] then -1
    else if ShardAt(ms[|ms| - 1], path).Some? then |ms| - 1
    else
      var i := LastHolder(ms[..|ms| - 1], path);
      assert forall j :: 0 <= j < |ms| - 1 ==> ms[..|ms| - 1][j] == ms[j];
      i
  }

  /** The merge of any number of manifests holds, for every shard, the entry of the last manifest that has it. */
  lemma {:induction false} LastManifestWins(ms: seq<Manifest>, path: Path)
    requires forall i :: 0 <= i < |ms| ==> Good(ms[i])
    ensures Good(MergeAll(ms))
    ensures var i := LastHolder(ms, path); ShardAt(MergeAll(ms), path) == if i < 0 then None else ShardAt(ms[i], path)
  {
    if ms != [] {
      var front, m := ms[..|ms| - 1], ms[|ms| - 1];
      LastManifestWins(front, path);
      ManifestMerge(MergeAll(front), m, path);
      ManifestMergeGood(MergeAll(front), m);
    }
  }

  /** No group is dropped, not even one without shards. */
  lemma {:induction false} GroupsSurvive(ms: seq<Manifest>, path: Path, i: nat)
    requires forall j :: 0 <= j < |ms| ==> Good(ms[j])
    requires i < |ms| && GroupAt(ms[i], path).Some?
    ensures GroupAt(MergeAll(ms), path).Some?
  {
    var front, m := ms[..|ms| - 1], ms[|ms| - 1];
    LastManifestWins(front, path);
    ManifestMerge(MergeAll(front), m, path);
    if i < |front| {
      GroupsSurvive(front, path, i);
    }
  }

  // ---------------------------------------------------------------- bucket keys

  /** Names without a slash in the organisation keep buckets apart. */
  lemma {:induction false} KeysTellBucketsApart(a: Bucket, b: Bucket)
    requires '/' !in a.org && '/' !in b.org && BucketKey(a) == BucketKey(b)
    ensures a.org == b.org && a.name == b.name
  {
    var k := BucketKey(a);
    assert k[|a.org|] == '/' && k[|b.org|] == '/';
    assert forall i :: 0 <= i < |a.org| ==> k[i] == a.org[i] && a.org[i] in a.org;
    assert forall i :: 0 <= i < |b.org| ==> k[i] == b.org[i] && b.org[i] in b.org;
    assert a.org == k[..|a.org|] && b.org == k[..|b.org|];
    assert a.name == k[|a.org| + 1..] && b.name == k[|b.org| + 1..];
  }

  /**
   Two different buckets share a key exactly when one organisation's name goes on past a slash into the other's bucket
   name.
   */
  lemma {:induction false} SharedKeys(a: Bucket, b: Bucket)
    requires |a.org| < |b.org|
    ensures BucketKey(a) == BucketKey(b) <==>
      exists part: string :: b.org == a.org + "/" + part && a.name == part + "/" + b.name
  {
    if BucketKey(a) == BucketKey(b) {
      var k := BucketKey(b);
      var part := b.org[|a.org| + 1..];
      assert b.org == k[..|b.org|] && a.org == k[..|a.org|] && k[|a.org|] == '/';
      assert b.org == a.org + "/" + part;
      assert a.name == k[|a.org| + 1..] == part + "/" + b.name;
    }
    if part: string :| b.org == a.org + "/" + part && a.name == part + "/" + b.name {
      assert BucketKey(a) == a.org + "/" + (part + "/" + b.name) == (a.org + "/" + part) + "/" + b.name;
    }
  }
}
