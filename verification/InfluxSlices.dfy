/**
 Physical slices: a slice downloads only the shard groups its time range can have touched, and
 a full backup followed by slices merges to what a fresh full backup would hold.
 */
module InfluxSlices {
  import opened Sequences
  import opened KeyedMerge
  import opened InfluxMerge
  import opened InfluxTar

  /** Two minutes, in nanoseconds. */
  const OVERLAP := 120_000_000_000

  /** The bounds of a slice; a full backup has none. */
  datatype Range = Everything | Between(cutoff: int, upper: int)

  /** `since` and `end` are None when absent or unreadable. */
  function SliceCutoff(since: Option<int>, end: Option<int>, now: int): Range {
    if since.None? then Everything
    else Between(since.value - OVERLAP, if end.Some? then end.value else now)
  }

  predicate Skipped(r: Range, g: Group) {
    && r.Between?
    && ((g.end.Some? && g.end.value <= r.cutoff) || (g.start.Some? && g.start.value > r.upper))
  }

  /** What the backup records of a group; `gone` are the shards the server answers 404 for. */
  function Recorded(r: Range, g: Group, gone: set<int>): Group {
    g.(shards := if Skipped(r, g) then [] else Present(g.shards, gone))
  }

  function Present(shards: seq<Shard>, gone: set<int>): seq<Shard> {
    if shards == [] then []
    else
      var front, s := Present(shards[..|shards| - 1], gone), shards[|shards| - 1];
      if s.id in gone then front else front + [s]
  }

  function RecordedGroups(r: Range, groups: seq<Group>, gone: set<int>): (gs: seq<Group>)
    ensures |gs| == |groups| && forall i :: 0 <= i < |groups| ==> gs[i] == Recorded(r, groups[i], gone)
  {
    seq(|groups|, i requires 0 <= i < |groups| => Recorded(r, groups[i], gone))
  }

  function RecordedPolicies(r: Range, ps: seq<Policy>, gone: set<int>): (qs: seq<Policy>)
    ensures |qs| == |ps|
    ensures forall i :: 0 <= i < |ps| ==> qs[i] == ps[i].(groups := RecordedGroups(r, ps[i].groups, gone))
  {
    seq(|ps|, i requires 0 <= i < |ps| => ps[i].(groups := RecordedGroups(r, ps[i].groups, gone)))
  }

  function RecordedBuckets(r: Range, bs: seq<Bucket>, gone: set<int>): (cs: seq<Bucket>)
    ensures |cs| == |bs|
    ensures forall i :: 0 <= i < |bs| ==> cs[i] == bs[i].(policies := RecordedPolicies(r, bs[i].policies, gone))
  {
    seq(|bs|, i requires 0 <= i < |bs| => bs[i].(policies := RecordedPolicies(r, bs[i].policies, gone)))
  }

  function Backup(r: Range, server: Manifest, gone: set<int>): Manifest {
    server.(buckets := RecordedBuckets(r, server.buckets, gone))
  }

  // ---------------------------------------------------------------- the download loops

  method DownloadGroup(r: Range, g: Group, gone: set<int>) returns (out: Group, skipped: bool)
    ensures out == Recorded(r, g, gone)
    ensures skipped == Skipped(r, g)
  {
    out := g.(shards := []);
    if r.Between? && g.end.Some? && !(g.end.value > r.cutoff) {
      return out, true;
    }
    if r.Between? && g.start.Some? && g.start.value > r.upper {
      return out, true;
    }
    skipped := false;
    for k := 0 to |g.shards|
      invariant out == g.(shards := Present(g.shards[..k], gone))
    {
      assert g.shards[..k + 1][..k] == g.shards[..k];
      if g.shards[k].id !in gone {
        out := out.(shards := out.shards + [g.shards[k]]);
      }
    }
    assert g.shards[..|g.shards|] == g.shards;
  }

  function SkippedGroups(r: Range, groups: seq<Group>): nat {
    if groups == [] then 0 else SkippedGroups(r, groups[..|groups| - 1]) + if Skipped(r,
      groups[|groups| - 1]) then 1 else 0
  }

  method DownloadPolicy(r: Range, p: Policy, gone: set<int>) returns (out: Policy, skipped: nat)
    ensures out == p.(groups := RecordedGroups(r, p.groups, gone))
    ensures skipped == SkippedGroups(r, p.groups)
  {
    var groups := [];
    skipped := 0;
    for k := 0 to |p.groups|
      invariant groups == RecordedGroups(r, p.groups[..k], gone)
      invariant skipped == SkippedGroups(r, p.groups[..k])
    {
      assert p.groups[..k + 1][..k] == p.groups[..k];
      var g, s := DownloadGroup(r, p.groups[k], gone);
      groups := groups + [g];
      if s {
        skipped := skipped + 1;
      }
    }
    assert p.groups[..|p.groups|] == p.groups;
    out := p.(groups := groups);
  }

  method DownloadBucket(r: Range, b: Bucket, gone: set<int>) returns (out: Bucket)
    ensures out == b.(policies := RecordedPolicies(r, b.policies, gone))
  {
    var policies := [];
    for k := 0 to |b.policies|
      invariant policies == RecordedPolicies(r, b.policies[..k], gone)
    {
      var p, s := DownloadPolicy(r, b.policies[k], gone);
      policies := policies + [p];
    }
    assert b.policies[..|b.policies|] == b.policies;
    out := b.(policies := policies);
  }

  // ---------------------------------------------------------------- what a backup holds

  /** The item found in a list whose items were changed but kept their keys is the changed item. */
  lemma {:induction false} LookupChanged<K(!new), V(!new)>(s: seq<V>, t: seq<V>, key: V -> K, k: K)
    requires |t| == |s| && forall i :: 0 <= i < |s| ==> key(t[i]) == key(s[i])
    ensures Lookup(s, key, k).None? <==> Lookup(t, key, k).None?
    ensures Find(s, key, k) == Find(t, key, k)
  {
  }

  lemma {:induction false} RecordedAt(r: Range, server: Manifest, gone: set<int>, path: Path)
    ensures GroupAt(server, path).None? <==> GroupAt(Backup(r, server, gone), path).None?
    ensures GroupAt(server, path).Some? ==>
      GroupAt(Backup(r, server, gone), path).value == Recorded(r, GroupAt(server, path).value, gone)
  {
    var bs, cs := server.buckets, RecordedBuckets(r, server.buckets, gone);
    LookupChanged(bs, cs, BucketKey, path.bucket);
    var i := Find(bs, BucketKey, path.bucket);
    if i < |bs| {
      var ps, qs := bs[i].policies, cs[i].policies;
      LookupChanged(ps, qs, PolicyKey, path.policy);
      var j := Find(ps, PolicyKey, path.policy);
      if j < |ps| {
        LookupChanged(ps[j].groups, qs[j].groups, GroupKey, path.group);
      }
    }
  }

  lemma {:induction false} FindSnoc(s: seq<Shard>, v: Shard, id: int)
    ensures Lookup(s + [v], ShardKey, id) ==
      if Lookup(s, ShardKey, id).Some? then Lookup(s, ShardKey, id) else if v.id == id then Some(v) else None
  {
    if s == [] {
      assert s + [v] == [v] && [v][1..] == [];
    } else if s[0].id != id {
      assert (s + [v])[1..] == s[1..] + [v];
      FindSnoc(s[1..], v, id);
    }
  }

  /** The shards downloaded are those listed, without the ones that are gone. */
  lemma {:induction false} PresentAt(shards: seq<Shard>, gone: set<int>, id: int)
    ensures Lookup(Present(shards, gone), ShardKey, id) == if id in gone then None else Lookup(shards, ShardKey, id)
  {
    if shards != [] {
      var front, s := shards[..|shards| - 1], shards[|shards| - 1];
      assert shards == front + [s];
      PresentAt(front, gone, id);
      FindSnoc(front, s, id);
      FindSnoc(Present(front, gone), s, id);
    }
  }

  lemma {:induction false} PresentGood(shards: seq<Shard>, gone: set<int>)
    requires UniqueKeys(shards, ShardKey)
    ensures UniqueKeys(Present(shards, gone), ShardKey)
    ensures forall s :: s in Present(shards, gone) ==> s in shards
  {
    if shards != [] {
      var front, s := shards[..|shards| - 1], shards[|shards| - 1];
      PresentGood(front, gone);
      forall x | x in Present(front, gone) ensures x.id != s.id {
        var i :| 0 <= i < |front| && front[i] == x;
        assert shards[i] == x;
      }
    }
  }

  /** A backup holds a shard of the server exactly when its group is not skipped and the shard is not gone. */
  lemma {:induction false} BackupHolds(r: Range, server: Manifest, gone: set<int>, path: Path)
    ensures ShardAt(Backup(r, server, gone), path)
         == if path.shard in gone || (GroupAt(server, path).Some? && Skipped(r, GroupAt(server, path).value)) then None
            else ShardAt(server, path)
  {
    RecordedAt(r, server, gone, path);
    if GroupAt(server, path).Some? {
      PresentAt(GroupAt(server, path).value.shards, gone, path.shard);
    }
  }

  lemma {:induction false} BackupGood(r: Range, server: Manifest, gone: set<int>)
    requires Good(server)
    ensures Good(Backup(r, server, gone))
  {
    var cs := RecordedBuckets(r, server.buckets, gone);
    forall c | c in cs ensures GoodBucket(c) {
      var i :| 0 <= i < |cs| && cs[i] == c;
      assert server.buckets[i] in server.buckets;
      BucketGood(r, server.buckets[i], gone);
    }
  }

  lemma {:induction false} BucketGood(r: Range, b: Bucket, gone: set<int>)
    requires GoodBucket(b)
    ensures GoodBucket(b.(policies := RecordedPolicies(r, b.policies, gone)))
  {
    var qs := RecordedPolicies(r, b.policies, gone);
    forall q | q in qs ensures GoodPolicy(q) {
      var i :| 0 <= i < |qs| && qs[i] == q;
      assert b.policies[i] in b.policies;
      PolicyGood(r, b.policies[i], gone);
    }
  }

  lemma {:induction false} PolicyGood(r: Range, p: Policy, gone: set<int>)
    requires GoodPolicy(p)
    ensures GoodPolicy(p.(groups := RecordedGroups(r, p.groups, gone)))
  {
    var gs := RecordedGroups(r, p.groups, gone);
    forall g | g in gs ensures GoodGroup(g) {
      var i :| 0 <= i < |gs| && gs[i] == g;
      assert p.groups[i] in p.groups;
      PresentGood(p.groups[i].shards, gone);
    }
  }

  // ---------------------------------------------------------------- full and slices

  /**
   The server when a backup is taken: its listing, with the file name the backup gives each shard, the
   listed shards that are gone when they are asked for, and the shards' bytes.
   */
  datatype Snapshot = Snapshot(listing: Manifest, gone: set<int>, data: Path -> Bytes)

  predicate Has(s: Snapshot, path: Path) {
    ShardAt(s.listing, path).Some? && path.shard !in s.gone
  }

  /** The bytes the server has for a shard. */
  function Held(s: Snapshot, path: Path): Option<Bytes> {
    if Has(s, path) then Some(s.data(path)) else None
  }

  /** A backup with this range downloads the shard. */
  predicate Records(r: Range, s: Snapshot, path: Path) {
    Has(s, path) && !Skipped(r, GroupAt(s.listing, path).value)
  }

  ghost predicate StoredAt(t: Tar, s: Snapshot, path: Path) {
    ShardAt(t.manifest, path).Some? ==>
      FileIn(t, ShardAt(t.manifest, path).value.file)
        == Some(TarFile(ShardAt(t.manifest, path).value.file, s.data(path)))
  }

  /** The tar of a backup: the manifest of what was downloaded, and the bytes under the names it gives. */
  ghost predicate TarOf(t: Tar, r: Range, s: Snapshot) {
    && Good(s.listing) && t.manifest == Backup(r, s.listing, s.gone)
    && forall path {:trigger StoredAt(t, s, path)} :: StoredAt(t, s, path)
  }

  /** Tar `i` is snapshot `i` of the server taken with range `i`. */
  ghost predicate Backups(ranges: seq<Range>, snaps: seq<Snapshot>, tars: seq<Tar>) {
    && |ranges| == |snaps| == |tars| && OwnNames(tars)
    && forall i :: 0 <= i < |tars| ==> TarOf(tars[i], ranges[i], snaps[i])
  }

  /** The bytes a restore of the merged tar gives a shard. */
  function Content(m: Merged, path: Path): Option<Bytes> {
    var shard := ShardAt(m.manifest, path);
    if shard.Some? && shard.value.file in m.files then Some(m.files[shard.value.file]) else None
  }

  /** The last backup that downloads the shard; -1 if none does. */
  function LastRecording(ranges: seq<Range>, snaps: seq<Snapshot>, path: Path): (i: int)
    requires |ranges| == |snaps|
    ensures -1 <= i < |snaps|
    ensures i >= 0 ==> Records(ranges[i], snaps[i], path)
    ensures forall j :: i < j < |snaps| ==> !Records(ranges[j], snaps[j], path)
  {
    LastRecordingIn(ranges, snaps, path, |snaps|)
  }

  function LastRecordingIn(ranges: seq<Range>, snaps: seq<Snapshot>, path: Path, n: nat): (i: int)
    requires |ranges| == |snaps| && n <= |snaps|
    ensures -1 <= i < n
    ensures i >= 0 ==> Records(ranges[i], snaps[i], path)
    ensures forall j :: i < j < n ==> !Records(ranges[j], snaps[j], path)
  {
    if n == 0 then -1
    else if Records(ranges[n - 1], snaps[n - 1], path) then n - 1
    else LastRecordingIn(ranges, snaps, path, n - 1)
  }

  lemma {:induction false} TarHolds(t: Tar, r: Range, s: Snapshot, path: Path)
    requires TarOf(t, r, s)
    ensures ShardAt(t.manifest, path).Some? <==> Records(r, s, path)
    ensures CompleteAt(t, path)
  {
    BackupHolds(r, s.listing, s.gone, path);
    assert StoredAt(t, s, path);
  }

  lemma {:induction false} BackupsComplete(ranges: seq<Range>, snaps: seq<Snapshot>, tars: seq<Tar>)
    requires Backups(ranges, snaps, tars)
    ensures Complete(tars) && forall i :: 0 <= i < |tars| ==> Good(tars[i].manifest)
  {
    forall i | 0 <= i < |tars| ensures Good(tars[i].manifest) {
      BackupGood(ranges[i], snaps[i].listing, snaps[i].gone);
    }
    forall i, path | 0 <= i < |tars| ensures CompleteAt(tars[i], path) {
      TarHolds(tars[i], ranges[i], snaps[i], path);
    }
  }

  lemma {:induction false} HolderRecords(ranges: seq<Range>, snaps: seq<Snapshot>, tars: seq<Tar>, path: Path)
    requires Backups(ranges, snaps, tars)
    ensures LastHolder(Manifests(tars), path) == LastRecording(ranges, snaps, path)
  {
    var ms := Manifests(tars);
    forall i | 0 <= i < |tars| ensures ShardAt(ms[i], path).Some? <==> Records(ranges[i], snaps[i], path) {
      TarHolds(tars[i], ranges[i], snaps[i], path);
    }
  }

  /** Whatever the ranges, the merged tar has for every shard the bytes of the last backup that downloaded it. */
  lemma {:induction false} MergedContent(ranges: seq<Range>, snaps: seq<Snapshot>, tars: seq<Tar>,
      byPath: map<string, nat>, m: Merged, path: Path)
    requires Backups(ranges, snaps, tars) && IsMergeOf(tars, byPath, m)
    ensures var i := LastRecording(ranges, snaps, path);
      Content(m, path) == if i < 0 then None else Held(snaps[i], path)
  {
    var ms := Manifests(tars);
    BackupsComplete(ranges, snaps, tars);
    HolderRecords(ranges, snaps, tars, path);
    LastManifestWins(ms, path);
    var i := LastRecording(ranges, snaps, path);
    if i >= 0 {
      ShardFilesSurvive(tars, byPath, path);
      assert StoredAt(tars[i], snaps[i], path);
    }
  }

  /**
   So for a whole chain the merge is right about a shard exactly when its last download had the bytes the server has at
   the end.
   */
  lemma {:induction false} ChainExactly(ranges: seq<Range>, snaps: seq<Snapshot>, tars: seq<Tar>,
      byPath: map<string, nat>, m: Merged, path: Path)
    requires Backups(ranges, snaps, tars) && IsMergeOf(tars, byPath, m) && snaps != []
    ensures var i, last := LastRecording(ranges, snaps, path), Held(snaps[|snaps| - 1], path);
      Content(m, path) == last <==> if i < 0 then last == None else Held(snaps[i], path) == last
  {
    MergedContent(ranges, snaps, tars, byPath, m, path);
  }

  /**
   After a full backup and one slice: where the shard's bytes are unchanged or the slice downloaded it, and only there.
   */
  lemma {:induction false} OneSliceExactly(ranges: seq<Range>, snaps: seq<Snapshot>, tars: seq<Tar>,
      byPath: map<string, nat>, m: Merged, path: Path)
    requires Backups(ranges, snaps, tars) && IsMergeOf(tars, byPath, m) && |snaps| == 2 && ranges[0] == Everything
    ensures Content(m, path) == Held(snaps[1], path) <==>
      Held(snaps[1], path) == Held(snaps[0], path) || Records(ranges[1], snaps[1], path)
  {
    MergedContent(ranges, snaps, tars, byPath, m, path);
    assert Records(ranges[0], snaps[0], path) <==> Held(snaps[0], path).Some?;
  }

  /** Between two snapshots a shard whose bytes change is downloaded, and none goes away. */
  ghost predicate Covers(r: Range, before: Snapshot, after: Snapshot) {
    forall path {:trigger Held(after, path)} :: Held(after, path) != Held(before, path) ==> Records(r, after, path)
  }

  ghost predicate IsChain(ranges: seq<Range>, snaps: seq<Snapshot>) {
    && 0 < |ranges| == |snaps| && ranges[0] == Everything
    && forall i :: 0 < i < |snaps| ==> Covers(ranges[i], snaps[i - 1], snaps[i])
  }

  lemma {:induction false} UnchangedSince(ranges: seq<Range>, snaps: seq<Snapshot>, path: Path, i: nat, j: nat)
    requires IsChain(ranges, snaps) && i <= j < |snaps|
    requires forall k :: i < k <= j ==> !Records(ranges[k], snaps[k], path)
    ensures Held(snaps[j], path) == Held(snaps[i], path)
    decreases j
  {
    if i < j {
      assert Covers(ranges[j], snaps[j - 1], snaps[j]);
      UnchangedSince(ranges, snaps, path, i, j - 1);
    }
  }

  /** A full backup and slices that cover the changes merge to the bytes a fresh full backup would have at the end. */
  lemma {:induction false} SlicesEqualFull(ranges: seq<Range>, snaps: seq<Snapshot>, tars: seq<Tar>,
      byPath: map<string, nat>, m: Merged, path: Path)
    requires Backups(ranges, snaps, tars) && IsMergeOf(tars, byPath, m) && IsChain(ranges, snaps)
    ensures Content(m, path) == Held(snaps[|snaps| - 1], path)
  {
    MergedContent(ranges, snaps, tars, byPath, m, path);
    var i := LastRecording(ranges, snaps, path);
    if i < 0 {
      assert !Records(ranges[0], snaps[0], path);
      UnchangedSince(ranges, snaps, path, 0, |snaps| - 1);
    } else {
      UnchangedSince(ranges, snaps, path, i, |snaps| - 1);
    }
  }

  /** Merging the tars of a chain restores every shard to what the server had when the last backup was taken. */
  method MergeChain(tars: seq<Tar>, ghost ranges: seq<Range>, ghost snaps: seq<Snapshot>) returns (r: Result<Merged>)
    requires Backups(ranges, snaps, tars) && IsChain(ranges, snaps)
    ensures r.Ok? <==> FirstBad(Manifests(tars)) == |tars|
    ensures r.Ok? ==> forall path :: Content(r.value, path) == Held(snaps[|snaps| - 1], path)
  {
    ghost var byPath;
    r, byPath := MergeTars(tars);
    if r.Ok? {
      forall path ensures Content(r.value, path) == Held(snaps[|snaps| - 1], path) {
        SlicesEqualFull(ranges, snaps, tars, byPath, r.value, path);
      }
    }
  }

  // ---------------------------------------------------------------- when slices cover the changes

  predicate InGroup(g: Group, t: int) {
    (g.start.Some? ==> g.start.value <= t) && (g.end.Some? ==> t < g.end.value)
  }

  /**
   Points arrive no more than the overlap late: a shard that changed after the previous
   backup ended took a point whose time lies in its group, at most OVERLAP before that end.
   */
  ghost predicate Timely(before: Snapshot, after: Snapshot, prevEnd: int, upper: int) {
    forall path {:trigger Held(after, path)} :: Held(after, path) != Held(before, path) ==>
      && Held(after, path).Some?
      && exists t: int :: InGroup(GroupAt(after.listing, path).value, t) && prevEnd - OVERLAP <= t <= upper
  }

  /** Then a slice that starts no later than the previous backup ended covers every change. */
  lemma {:induction false} TimelyChangesAreCovered(before: Snapshot, after: Snapshot, since: int, end: Option<int>,
      now: int, prevEnd: int)
    requires since <= prevEnd
    requires Timely(before, after, prevEnd, if end.Some? then end.value else now)
    ensures Covers(SliceCutoff(Some(since), end, now), before, after)
  {
    var r := SliceCutoff(Some(since), end, now);
    forall path {:trigger Held(after, path)} | Held(after, path) != Held(before, path) ensures Records(r, after, path) {
      var t: int :| InGroup(GroupAt(after.listing, path).value, t) && prevEnd - OVERLAP <= t <= r.upper;
    }
  }
}
