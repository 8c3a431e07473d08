/**
 Backups, prunes and restores as one state machine over the stored backups of one name prefix.

 Every stored backup has its sidecar, names follow the default template
 `<prefix><strategy token>-<rest>`, and each upload gets a modification time later than
 everything stored. A backup and a prune do not overlap.
 */
module BackupChain {
  import opened Sequences
  import opened Retention

  /** A stored backup: the storage's modification time and the sidecar fields the chain logic reads. */
  datatype Stored = Stored(modTime: nat, timestamp: nat, strategy: Strategy, base: string)

  type Store = map<string, Stored>

  datatype Config = Config(prefix: string, fullEvery: int)

  datatype Entry = Entry(path: string, modTime: nat)

  // ---------------------------------------------------------------- names and listings

  function TrimSuffix(s: string, suffix: string): string {
    if HasSuffix(s, suffix) then s[..|s| - |suffix|] else s
  }

  function Token(strategy: Strategy): string {
    match strategy
    case Full => "full"
    case Incremental => "incr"
    case Differential => "diff"
  }

  ghost predicate NameFor(cfg: Config, strategy: Strategy, name: string) {
    && cfg.prefix + Token(strategy) + "-" <= name
    && !HasSuffix(name, ".json")
  }

  ghost predicate WellNamed(cfg: Config, st: Store) {
    forall n :: n in st ==> NameFor(cfg, st[n].strategy, n)
  }

  ghost predicate DistinctTimes(st: Store) {
    && (forall n :: n in st ==> st[n].modTime > 0)
    && (forall m, n :: m in st && n in st && m != n ==> st[m].modTime != st[n].modTime)
  }

  predicate Eligible(e: Entry, prefix: string) {
    !HasSuffix(e.path, ".json") && prefix <= e.path
  }

  /** `entries` lists the store in any order: each backup once, and sidecar files besides. */
  ghost predicate Lists(entries: seq<Entry>, st: Store) {
    && (forall i :: 0 <= i < |entries| && !HasSuffix(entries[i].path, ".json") ==>
          entries[i].path in st && entries[i].modTime == st[entries[i].path].modTime)
    && (forall n :: n in st ==> exists i :: 0 <= i < |entries| && entries[i].path == n)
    && (forall i, j :: 0 <= i < j < |entries| && !HasSuffix(entries[i].path, ".json") ==>
          entries[i].path != entries[j].path)
  }

  ghost predicate IsNewest(st: Store, name: string) {
    name in st && forall n :: n in st ==> st[n].modTime <= st[name].modTime
  }

  ghost predicate IsNewestFull(st: Store, name: string) {
    && name in st && st[name].strategy == Full
    && forall n :: n in st && st[n].strategy == Full ==> st[n].modTime <= st[name].modTime
  }

  ghost predicate HasFull(st: Store) {
    exists n :: n in st && st[n].strategy == Full
  }

  lemma {:induction false} TokenPrefix(cfg: Config, strategy: Strategy, name: string)
    requires NameFor(cfg, strategy, name)
    ensures cfg.prefix <= name
    ensures cfg.prefix + "full-" <= name <==> strategy == Full
  {
    var p := |cfg.prefix|;
    var stem := cfg.prefix + Token(strategy) + "-";
    assert name[..|stem|] == stem;
    assert name[p] == stem[p] == Token(strategy)[0];
    if cfg.prefix + "full-" <= name {
      assert name[p] == (cfg.prefix + "full-")[p] == 'f';
    }
  }

  /** The newest eligible path: the loop both parent searches run. */
  method LatestWithPrefix(entries: seq<Entry>, prefix: string) returns (latest: string)
    ensures (forall i :: 0 <= i < |entries| ==> !Eligible(entries[i], prefix)) ==> latest == ""
    ensures (exists i :: 0 <= i < |entries| && Eligible(entries[i], prefix)) ==>
      exists k :: 0 <= k < |entries| && Eligible(entries[k], prefix) && entries[k].path == latest
               && forall i :: 0 <= i < |entries| && Eligible(entries[i], prefix) ==>
                 entries[i].modTime <= entries[k].modTime
  {
    latest := "";
    var latestTS := 0;
    ghost var k := -1;
    var i := 0;
    while i < |entries|
      invariant 0 <= i <= |entries|
      invariant k == -1 ==> latest == "" && latestTS == 0 && forall j :: 0 <= j < i ==> !Eligible(entries[j], prefix)
      invariant k != -1 ==>
        0 <= k < i && Eligible(entries[k], prefix) && entries[k].path == latest && entries[k].modTime == latestTS
      invariant forall j :: 0 <= j < i && Eligible(entries[j], prefix) ==> entries[j].modTime <= latestTS
    {
      if Eligible(entries[i], prefix) && entries[i].modTime >= latestTS {
        latest, latestTS, k := entries[i].path, entries[i].modTime, i;
      }
      i := i + 1;
    }
  }

  method FindLastChainParent(cfg: Config, entries: seq<Entry>, ghost st: Store) returns (latest: string)
    requires Lists(entries, st) && WellNamed(cfg, st)
    ensures st == map[] ==> latest == ""
    ensures st != map[] ==> IsNewest(st, latest)
  {
    latest := LatestWithPrefix(entries, cfg.prefix);
    forall n | n in st ensures cfg.prefix <= n { TokenPrefix(cfg, st[n].strategy, n); }
    if st != map[] {
      var n :| n in st;
    }
  }

  method FindLastFullBackup(cfg: Config, entries: seq<Entry>, ghost st: Store) returns (latest: string)
    requires Lists(entries, st) && WellNamed(cfg, st)
    ensures !HasFull(st) ==> latest == ""
    ensures HasFull(st) ==> IsNewestFull(st, latest)
  {
    latest := LatestWithPrefix(entries, cfg.prefix + "full-");
    forall n | n in st
      ensures cfg.prefix + "full-" <= n <==> st[n].strategy == Full
    {
      TokenPrefix(cfg, st[n].strategy, n);
    }
  }

  // ---------------------------------------------------------------- when a chain is reset

  /** The backups that are not full and come after `f`. */
  ghost function NonFullAfter(st: Store, f: string): set<string>
    requires f in st
  {
    set n | n in st && st[n].strategy != Full && st[n].modTime > st[f].modTime
  }

  datatype ChainInfo = ChainInfo(depth: nat, lastFull: nat)

  /** `sorted` is the store's backups, newest first. */
  ghost predicate ListsNewestFirst(sorted: seq<Entry>, st: Store) {
    && Distinct(sorted) && Descending(sorted, (e: Entry) => e.modTime)
    && forall e :: e in sorted <==> e.path in st && e.modTime == st[e.path].modTime
  }

  /** Walks the backups newest first up to the last full one, counting those passed. */
  method CountBack(sorted: seq<Entry>, st: Store) returns (chain: ChainInfo)
    requires ListsNewestFirst(sorted, st) && DistinctTimes(st)
    ensures !HasFull(st) ==> chain.lastFull == 0
    ensures forall f :: IsNewestFull(st, f) ==> chain == ChainInfo(|NonFullAfter(st, f)|, st[f].modTime)
  {
    chain := ChainInfo(0, 0);
    var i := 0;
    while i < |sorted|
      invariant 0 <= i <= |sorted|
      invariant chain == ChainInfo(i, 0)
      invariant forall j :: 0 <= j < i ==> sorted[j].path in st && st[sorted[j].path].strategy != Full
    {
      assert sorted[i] in sorted;
      var sidecar := st[sorted[i].path];
      if sidecar.strategy == Full {
        chain := chain.(lastFull := sorted[i].modTime);
        FirstFullIsNewest(st, sorted, i);
        return;
      }
      chain := chain.(depth := chain.depth + 1);
      i := i + 1;
    }
    forall n | n in st ensures st[n].strategy != Full {
      assert Entry(n, st[n].modTime) in sorted;
    }
  }

  lemma {:induction false} SortedLists(all: seq<Entry>, sorted: seq<Entry>, st: Store)
    requires Distinct(all) && forall e :: e in all <==> e.path in st && e.modTime == st[e.path].modTime
    requires multiset(all) == multiset(sorted) && Descending(sorted, (e: Entry) => e.modTime)
    ensures ListsNewestFirst(sorted, st)
  {
    PermutationDistinct(all, sorted);
    forall e ensures e in sorted <==> e in all {
      assert e in sorted <==> e in multiset(sorted);
      assert e in all <==> e in multiset(all);
    }
  }

  method ListOurs(entries: seq<Entry>, prefix: string) returns (all: seq<Entry>)
    ensures all == Ours(entries, prefix)
  {
    all := [];
    var i := 0;
    while i < |entries|
      invariant 0 <= i <= |entries|
      invariant all == Ours(entries[..i], prefix)
    {
      assert entries[..i + 1][..i] == entries[..i];
      if Eligible(entries[i], prefix) {
        all := all + [entries[i]];
      }
      i := i + 1;
    }
    assert entries[..i] == entries;
  }

  method ReadChainInfo(cfg: Config, entries: seq<Entry>, st: Store) returns (chain: ChainInfo)
    requires Lists(entries, st) && WellNamed(cfg, st) && DistinctTimes(st)
    ensures !HasFull(st) ==> chain.lastFull == 0
    ensures forall f :: IsNewestFull(st, f) ==> chain == ChainInfo(|NonFullAfter(st, f)|, st[f].modTime)
  {
    var all := ListOurs(entries, cfg.prefix);
    OursAre(entries, cfg.prefix, st, cfg);
    var sorted := SortDescending(all, (e: Entry) => e.modTime);
    SortedLists(all, sorted, st);
    chain := CountBack(sorted, st);
  }

  function Ours(entries: seq<Entry>, prefix: string): seq<Entry> {
    if entries == [] then []
    else
      var e := entries[|entries| - 1];
      Ours(entries[..|entries| - 1], prefix) + if Eligible(e, prefix) then [e] else []
  }

  lemma {:induction false} OursMembers(entries: seq<Entry>, prefix: string)
    requires forall i, j :: 0 <= i < j < |entries| && Eligible(entries[i], prefix) ==>
      entries[i].path != entries[j].path
    ensures forall e :: e in Ours(entries, prefix) <==> e in entries && Eligible(e, prefix)
    ensures Distinct(Ours(entries, prefix))
  {
    if entries != [] {
      var front := entries[..|entries| - 1];
      assert entries == front + [entries[|entries| - 1]];
      OursMembers(front, prefix);
    }
  }

  lemma {:induction false} OursAre(entries: seq<Entry>, prefix: string, st: Store, cfg: Config)
    requires Lists(entries, st) && WellNamed(cfg, st) && prefix == cfg.prefix
    ensures Distinct(Ours(entries, prefix))
    ensures forall e :: e in Ours(entries, prefix) <==> e.path in st && e.modTime == st[e.path].modTime
  {
    OursMembers(entries, prefix);
    forall n | n in st ensures prefix <= n { TokenPrefix(cfg, st[n].strategy, n); }
  }

  lemma {:induction false} FirstFullIsNewest(st: Store, sorted: seq<Entry>, i: nat)
    requires ListsNewestFirst(sorted, st) && DistinctTimes(st)
    requires i < |sorted| && sorted[i].path in st && st[sorted[i].path].strategy == Full
    requires forall j :: 0 <= j < i ==> sorted[j].path in st && st[sorted[j].path].strategy != Full
    ensures forall f :: IsNewestFull(st, f) ==> f == sorted[i].path
    ensures |NonFullAfter(st, sorted[i].path)| == i
  {
    var key := (e: Entry) => e.modTime;
    var f := sorted[i].path;
    assert sorted[i] in sorted;
    forall n | n in st && st[n].strategy == Full ensures st[n].modTime <= st[f].modTime {
      assert Entry(n, st[n].modTime) in sorted;
      var j :| 0 <= j < |sorted| && sorted[j] == Entry(n, st[n].modTime);
      assert i < j ==> key(sorted[i]) >= key(sorted[j]);
    }
    var passed := seq(i, j requires 0 <= j < i => sorted[j].path);
    forall n | n in NonFullAfter(st, f) ensures n in passed {
      assert Entry(n, st[n].modTime) in sorted;
      var j :| 0 <= j < |sorted| && sorted[j] == Entry(n, st[n].modTime);
      assert key(sorted[i]) >= key(sorted[j]) || j < i;
      assert passed[j] == n;
    }
    forall j | 0 <= j < i ensures passed[j] in NonFullAfter(st, f) {
      assert sorted[j] in sorted && key(sorted[j]) >= key(sorted[i]);
    }
    forall a, b | 0 <= a < b < i ensures passed[a] != passed[b] {
      assert sorted[a] in sorted && sorted[b] in sorted && sorted[a] != sorted[b];
    }
    DistinctSize(passed, NonFullAfter(st, f));
  }

  lemma {:induction false} DistinctSize<T>(s: seq<T>, members: set<T>)
    requires Distinct(s) && forall x :: x in s <==> x in members
    ensures |members| == |s|
  {
    if s == [] {
      assert members == {};
    } else {
      assert s == [s[0]] + s[1..];
      DistinctSize(s[1..], members - {s[0]});
    }
  }

  ghost predicate ResetsChain(cfg: Config, st: Store) {
    || !HasFull(st)
    || exists f :: IsNewestFull(st, f) && cfg.fullEvery > 0 && |NonFullAfter(st, f)| >= cfg.fullEvery
  }

  function ShouldResetChain(cfg: Config, chain: ChainInfo): bool {
    chain.lastFull == 0 || (cfg.fullEvery > 0 && chain.depth >= cfg.fullEvery)
  }

  /**
   The strategy a run ends up with. `supported`: the engine and edition can do increments;
   `anchored`: a position to continue from was found, or none is needed.
   */
  ghost function Decide(cfg: Config, st: Store, requested: Strategy, supported: bool, anchored: bool): Strategy {
    if requested == Full || !supported || ResetsChain(cfg, st) || !anchored then Full else requested
  }

  ghost predicate IsParent(st: Store, strategy: Strategy, base: string) {
    match strategy
    case Full => base == ""
    case Differential => IsNewestFull(st, base)
    case Incremental => IsNewest(st, base)
  }

  lemma {:induction false} SomeNewestFull(st: Store) returns (f: string)
    requires HasFull(st)
    ensures IsNewestFull(st, f)
    decreases |st|
  {
    f :| f in st && st[f].strategy == Full;
    var rest := map n | n in st && n != f :: st[n];
    assert rest.Keys == st.Keys - {f};
    if HasFull(rest) {
      var g := SomeNewestFull(rest);
      forall n | n in st && st[n].strategy == Full ensures n == f || st[n].modTime <= st[g].modTime {
        assert n != f ==> n in rest;
      }
      if st[g].modTime > st[f].modTime {
        f := g;
      }
    } else {
      forall n | n in st && st[n].strategy == Full ensures n == f {
        assert n != f ==> n in rest;
      }
    }
  }

  /** The decisions of one run: which strategy, and which stored backup it builds on. */
  method PlanBackup(cfg: Config, entries: seq<Entry>, st: Store, requested: Strategy, supported: bool, anchored: bool)
    returns (strategy: Strategy, base: string)
    requires Lists(entries, st) && WellNamed(cfg, st) && DistinctTimes(st)
    ensures strategy == Decide(cfg, st, requested, supported, anchored)
    ensures IsParent(st, strategy, base)
  {
    strategy, base := requested, "";
    if strategy != Full && !supported {
      strategy := Full;
    }
    if strategy != Full {
      var chain := ReadChainInfo(cfg, entries, st);
      if HasFull(st) {
        var f := SomeNewestFull(st);
        assert forall g :: IsNewestFull(st, g) ==> g == f;
      }
      if ShouldResetChain(cfg, chain) {
        strategy := Full;
      }
    }
    if strategy != Full && !anchored {
      strategy := Full;
    }
    if strategy == Differential {
      base := FindLastFullBackup(cfg, entries, st);
    } else if strategy == Incremental {
      base := FindLastChainParent(cfg, entries, st);
    }
  }

  // ---------------------------------------------------------------- the state machine

  datatype Event =
    | Backup(requested: Strategy, supported: bool, anchored: bool,
             name: string, modTime: nat, timestamp: nat, base: string)
    | Prune(policy: Policy, now: int, listing: seq<BackupEntry>, failed: set<string>)

  ghost predicate BackupStep(cfg: Config, st: Store, ev: Event, st': Store)
    requires ev.Backup?
  {
    var strategy := Decide(cfg, st, ev.requested, ev.supported, ev.anchored);
    && ev.name !in st && NameFor(cfg, strategy, ev.name)
    && ev.modTime > 0 && (forall n :: n in st ==> st[n].modTime < ev.modTime)
    && IsParent(st, strategy, ev.base)
    && st' == st[ev.name := Stored(ev.modTime, ev.timestamp, strategy, ev.base)]
  }

  function EntryOf(name: string, b: Stored): BackupEntry {
    BackupEntry(name, b.timestamp, b.strategy, b.base)
  }

  /** `listing` is the store as retention reads it, sorted by sidecar timestamp. */
  ghost predicate IsListing(st: Store, listing: seq<BackupEntry>) {
    && DistinctNames(listing) && NewestFirst(listing)
    && (forall b :: b in listing ==> b.fileName in st && b == EntryOf(b.fileName, st[b.fileName]))
    && (forall n :: n in st ==> exists b :: b in listing && b.fileName == n)
  }

  /** A prune goes on past deletions that fail, so any part of what retention names may stay, here with its sidecar. */
  ghost predicate PruneStep(st: Store, ev: Event, st': Store)
    requires ev.Prune?
  {
    && IsListing(st, ev.listing)
    && var named := Others(ev.listing, Survivors(ev.listing, ev.policy, ev.now));
      st' == map n | n in st && (n in ev.failed || n !in named) :: st[n]
  }

  ghost predicate Next(cfg: Config, st: Store, ev: Event, st': Store) {
    match ev
    case Backup(_, _, _, _, _, _, _) => BackupStep(cfg, st, ev, st')
    case Prune(_, _, _, _) => PruneStep(st, ev, st')
  }

  /** A sequence of events from an empty store, each with the store it leaves. */
  datatype Run = Start | Then(before: Run, event: Event, after: Store)

  function Final(run: Run): Store {
    match run
    case Start => map[]
    case Then(_, _, after) => after
  }

  ghost predicate IsRun(cfg: Config, run: Run) {
    match run
    case Start => true
    case Then(before, event, after) => IsRun(cfg, before) && Next(cfg, Final(before), event, after)
  }

  // ---------------------------------------------------------------- what every run keeps

  ghost predicate LinkedAt(st: Store, n: string)
    requires n in st
  {
    if st[n].strategy == Full then st[n].base == ""
    else st[n].base in st && st[st[n].base].modTime < st[n].modTime
  }

  /** Each backup that is not full has its base stored, and older than itself. */
  ghost predicate Linked(st: Store) {
    forall n {:trigger LinkedAt(st, n)} :: n in st ==> LinkedAt(st, n)
  }

  /** The backup restored, then its base, and so on: oldest first. */
  ghost function Chain(st: Store, n: string): seq<string>
    requires Linked(st) && n in st
    decreases st[n].modTime
  {
    assert LinkedAt(st, n);
    if st[n].strategy == Full then [n] else Chain(st, st[n].base) + [n]
  }

  ghost function Root(st: Store, n: string): string
    requires Linked(st) && n in st
    decreases st[n].modTime
  {
    assert LinkedAt(st, n);
    if st[n].strategy == Full then n else Root(st, st[n].base)
  }

  ghost predicate RootedAt(st: Store, n: string)
    requires Linked(st) && n in st
  {
    && Root(st, n) in st
    && forall f :: f in st && st[f].strategy == Full && st[f].modTime <= st[n].modTime ==>
      st[f].modTime <= st[Root(st, n)].modTime
  }

  /** The root is the newest stored full backup that is not after `n`. */
  ghost predicate Rooted(st: Store)
    requires Linked(st)
  {
    forall n {:trigger RootedAt(st, n)} :: n in st ==> RootedAt(st, n)
  }

  /** The stored backups that need `f` as their full backup. */
  ghost function Hanging(st: Store, f: string): set<string>
    requires Linked(st)
  {
    set n | n in st && st[n].strategy != Full && Root(st, n) == f
  }

  ghost predicate Inv(cfg: Config, st: Store) {
    && WellNamed(cfg, st) && DistinctTimes(st) && Linked(st) && Rooted(st)
    && (cfg.fullEvery > 0 ==> forall f :: |Hanging(st, f)| <= cfg.fullEvery)
  }

  lemma {:induction false} RootFacts(st: Store, n: string)
    requires Linked(st) && n in st
    ensures Root(st, n) in st && st[Root(st, n)].strategy == Full && st[Root(st, n)].modTime <= st[n].modTime
    decreases st[n].modTime
  {
    assert LinkedAt(st, n);
    if st[n].strategy != Full {
      RootFacts(st, st[n].base);
    }
  }

  ghost predicate SubStore(a: Store, b: Store) {
    forall n :: n in a ==> n in b && a[n] == b[n]
  }

  lemma {:induction false} RootStable(a: Store, b: Store, n: string)
    requires Linked(a) && Linked(b) && SubStore(a, b) && n in a
    ensures Root(a, n) == Root(b, n) && Chain(a, n) == Chain(b, n)
    decreases a[n].modTime
  {
    assert LinkedAt(a, n) && LinkedAt(b, n);
    if a[n].strategy != Full {
      RootStable(a, b, a[n].base);
    }
  }

  /** The parent a run picks hangs off the newest full backup. */
  lemma {:induction false} ParentRoot(st: Store, strategy: Strategy, base: string, f: string)
    requires Linked(st) && Rooted(st) && DistinctTimes(st)
    requires strategy != Full && IsParent(st, strategy, base) && IsNewestFull(st, f)
    ensures Root(st, base) == f
  {
    RootFacts(st, base);
    assert RootedAt(st, base);
    assert st[Root(st, base)].modTime == st[f].modTime;
  }

  /** `st'` is `st` with one more backup, later than all the others and properly parented. */
  ghost predicate Extends(st: Store, name: string, added: Stored, st': Store) {
    && name !in st && st' == st[name := added]
    && (forall n :: n in st ==> st[n].modTime < added.modTime)
    && IsParent(st, added.strategy, added.base)
  }

  lemma {:induction false} ExtendLinked(st: Store, name: string, added: Stored, st': Store)
    requires Linked(st) && Extends(st, name, added, st')
    ensures Linked(st') && SubStore(st, st')
  {
    forall n | n in st' ensures LinkedAt(st', n) {
      assert n in st ==> LinkedAt(st, n);
    }
  }

  /** The backups of `st` have the same roots in `st'`. */
  ghost predicate SameRoots(st: Store, st': Store)
    requires Linked(st) && Linked(st') && SubStore(st, st')
  {
    forall n {:trigger Root(st', n)} :: n in st ==> Root(st', n) == Root(st, n) && Root(st, n) in st
  }

  lemma {:induction false} RootsStay(st: Store, st': Store)
    requires Linked(st) && Linked(st') && SubStore(st, st')
    ensures SameRoots(st, st')
  {
    forall n | n in st
      ensures Root(st', n) == Root(st, n) && Root(st, n) in st
    {
      RootStable(st, st', n); RootFacts(st, n);
    }
  }

  /** A new increment hangs off the newest full backup. */
  lemma {:induction false} NewRoot(st: Store, name: string, added: Stored, st': Store) returns (f: string)
    requires Linked(st) && Rooted(st) && DistinctTimes(st) && Extends(st, name, added, st') && Linked(st')
    requires added.strategy != Full
    ensures IsNewestFull(st, f) && Root(st', name) == f
  {
    RootFacts(st, added.base);
    f := SomeNewestFull(st);
    ParentRoot(st, added.strategy, added.base, f);
    RootStable(st, st', added.base);
    assert LinkedAt(st', name);
  }

  lemma {:induction false} ExtendRootedAt(st: Store, name: string, st': Store, n: string)
    requires Linked(st) && Linked(st') && name !in st && SubStore(st, st') && st'.Keys == st.Keys + {name}
    requires SameRoots(st, st')
    requires n in st && RootedAt(st, n) && st[n].modTime < st'[name].modTime
    ensures RootedAt(st', n)
  {
    assert Root(st', n) == Root(st, n);
  }

  lemma {:induction false} ExtendRooted(st: Store, name: string, added: Stored, st': Store)
    requires Linked(st) && Rooted(st) && DistinctTimes(st) && Extends(st, name, added, st') && Linked(st')
    ensures Rooted(st')
  {
    RootsStay(st, st');
    forall n | n in st' ensures RootedAt(st', n) {
      if n in st {
        assert RootedAt(st, n);
        ExtendRootedAt(st, name, st', n);
      } else if added.strategy != Full {
        var f := NewRoot(st, name, added, st');
      } else {
        assert Root(st', name) == name;
      }
    }
  }

  lemma {:induction false} ExtendHanging(st: Store, name: string, st': Store, f: string)
    requires Linked(st) && Linked(st') && name !in st && SubStore(st, st') && st'.Keys == st.Keys + {name}
    requires SameRoots(st, st')
    ensures var hangs := st'[name].strategy != Full && Root(st', name) == f;
      Hanging(st', f) == Hanging(st, f) + if hangs then {name} else {}
  {
  }

  lemma {:induction false} HangingAfter(st: Store, f: string)
    requires Linked(st) && f in st && st[f].strategy == Full
    ensures |Hanging(st, f)| <= |NonFullAfter(st, f)|
  {
    forall n | n in Hanging(st, f) ensures n in NonFullAfter(st, f) {
      RootFacts(st, n);
      assert LinkedAt(st, n);
      RootFacts(st, st[n].base);
    }
    SubsetSize(Hanging(st, f), NonFullAfter(st, f));
  }

  /** With `full_every` set a run adds an increment only below the limit. */
  lemma {:induction false} ExtendBound(fullEvery: nat, st: Store, name: string, added: Stored, st': Store, f: string)
    requires Linked(st) && Rooted(st) && DistinctTimes(st) && Extends(st, name, added, st') && Linked(st')
    requires |Hanging(st, f)| <= fullEvery
    requires added.strategy != Full && IsNewestFull(st, f) ==> |NonFullAfter(st, f)| < fullEvery
    ensures |Hanging(st', f)| <= fullEvery
  {
    RootsStay(st, st');
    ExtendHanging(st, name, st', f);
    if added.strategy != Full && Root(st', name) == f {
      var g := NewRoot(st, name, added, st');
      HangingAfter(st, f);
    }
  }

  lemma {:induction false} BackupExtends(cfg: Config, st: Store, ev: Event, st': Store)
    requires ev.Backup? && BackupStep(cfg, st, ev, st')
    ensures ev.name in st' && Extends(st, ev.name, st'[ev.name], st')
    ensures WellNamed(cfg, st) ==> WellNamed(cfg, st')
    ensures DistinctTimes(st) ==> DistinctTimes(st')
    ensures st'[ev.name].strategy != Full && cfg.fullEvery > 0 ==>
              forall g :: IsNewestFull(st, g) ==> |NonFullAfter(st, g)| < cfg.fullEvery
  {
  }

  lemma {:induction false} BackupKeepsInv(cfg: Config, st: Store, ev: Event, st': Store)
    requires Inv(cfg, st) && ev.Backup? && BackupStep(cfg, st, ev, st')
    ensures Inv(cfg, st')
  {
    BackupExtends(cfg, st, ev, st');
    var added := st'[ev.name];
    ExtendLinked(st, ev.name, added, st');
    ExtendRooted(st, ev.name, added, st');
    if cfg.fullEvery > 0 {
      forall f ensures |Hanging(st', f)| <= cfg.fullEvery { ExtendBound(cfg.fullEvery, st, ev.name, added, st', f); }
    }
  }

  /** A prune leaves every survivor's base in place. */
  lemma {:induction false} PruneKeepsBases(st: Store, ev: Event, st': Store, n: string)
    requires Linked(st) && ev.Prune? && PruneStep(st, ev, st')
    requires n in st && st[n].strategy != Full && "" !in st
    ensures st[n].base in st'
  {
    var base := st[n].base;
    assert LinkedAt(st, n);
    var b :| b in ev.listing && b.fileName == n;
    var p :| p in ev.listing && p.fileName == base;
    var i :| 0 <= i < |ev.listing| && ev.listing[i] == p;
    assert Needed(ev.listing, base) by {
      assert Steps(ev.listing, b.base, 0) == base;
    }
    NeverDeleted(ev.listing, ev.policy, ev.now, i);
  }

  lemma {:induction false} ShrinkRooted(st: Store, st': Store)
    requires Linked(st) && Rooted(st) && Linked(st') && SubStore(st', st)
    ensures Rooted(st')
    ensures forall f :: |Hanging(st', f)| <= |Hanging(st, f)|
  {
    forall n | n in st' ensures Root(st', n) == Root(st, n) && RootedAt(st', n) {
      RootStable(st', st, n);
      RootFacts(st', n);
      assert RootedAt(st, n);
    }
    forall f ensures |Hanging(st', f)| <= |Hanging(st, f)| {
      SubsetSize(Hanging(st', f), Hanging(st, f));
    }
  }

  lemma {:induction false} PruneKeepsInv(cfg: Config, st: Store, ev: Event, st': Store)
    requires Inv(cfg, st) && ev.Prune? && PruneStep(st, ev, st')
    ensures Inv(cfg, st')
  {
    assert "" !in st;
    assert SubStore(st', st);
    forall n | n in st' ensures LinkedAt(st', n) {
      assert LinkedAt(st, n);
      if st'[n].strategy != Full {
        PruneKeepsBases(st, ev, st', n);
      }
    }
    ShrinkRooted(st, st');
  }

  lemma {:induction false} NextKeepsInv(cfg: Config, st: Store, ev: Event, st': Store)
    requires Inv(cfg, st) && Next(cfg, st, ev, st')
    ensures Inv(cfg, st')
  {
    match ev {
      case Backup(_, _, _, _, _, _, _) =>
        BackupKeepsInv(cfg, st, ev, st');
      case Prune(_, _, _, _) =>
        PruneKeepsInv(cfg, st, ev, st');
    }
  }

  /** No sequence of backups and prunes strands a stored backup. */
  lemma {:induction false} RunsKeepInv(cfg: Config, run: Run)
    requires IsRun(cfg, run)
    ensures Inv(cfg, Final(run))
  {
    if run.Then? {
      RunsKeepInv(cfg, run.before);
      NextKeepsInv(cfg, Final(run.before), run.event, run.after);
    }
  }

  // ---------------------------------------------------------------- restore

  const MAX_WALK := 64

  /** The base the restore command reads for `cur`; `basePath` overrides it for the file asked for. */
  function BaseOf(st: Store, filePath: string, basePath: string, cur: string): string {
    var base := if cur == filePath && basePath != "" then basePath else if cur in st then st[cur].base else "";
    TrimSuffix(base, ".json")
  }

  /** The ancestors of `cur`, oldest first, following at most `steps` links. */
  function Walk(st: Store, filePath: string, basePath: string, cur: string, steps: nat): seq<string>
    decreases steps
  {
    if steps == 0 then []
    else
      var base := BaseOf(st, filePath, basePath, cur);
      if base == "" || base == cur then [] else Walk(st, filePath, basePath, base, steps - 1) + [base]
  }

  function RestoreOrder(st: Store, filePath: string, basePath: string, limit: nat): seq<string> {
    Walk(st, filePath, basePath, filePath, limit) + [filePath]
  }

  method ResolveUpTo(st: Store, filePath: string, basePath: string, limit: nat) returns (order: seq<string>)
    ensures order == RestoreOrder(st, filePath, basePath, limit)
  {
    order := [filePath];
    var cur := filePath;
    for i := 0 to limit
      invariant Walk(st, filePath, basePath, cur, limit - i) + order == RestoreOrder(st, filePath, basePath, limit)
    {
      var base := BaseOf(st, filePath, basePath, cur);
      if base == "" || base == cur {
        break;
      }
      assert Walk(st, filePath, basePath, cur, limit - i) + order
          == Walk(st, filePath, basePath, base, limit - i - 1) + ([base] + order);
      order := [base] + order;
      cur := base;
    }
  }

  method ResolveChain(st: Store, filePath: string, basePath: string) returns (order: seq<string>)
    ensures order == RestoreOrder(st, filePath, basePath, MAX_WALK)
  {
    order := ResolveUpTo(st, filePath, basePath, MAX_WALK);
  }

  /** The links of a chain: it starts at a full backup, ends at `n`, and each member builds on the one before. */
  ghost predicate IsChainOf(st: Store, n: string, chain: seq<string>) {
    && |chain| > 0 && (forall i :: 0 <= i < |chain| ==> chain[i] in st)
    && st[chain[0]].strategy == Full && chain[|chain| - 1] == n
    && forall i :: 0 < i < |chain| ==> st[chain[i]].strategy != Full && st[chain[i]].base == chain[i - 1]
  }

  lemma {:induction false} ChainFacts(st: Store, n: string)
    requires Linked(st) && n in st
    ensures IsChainOf(st, n, Chain(st, n)) && Distinct(Chain(st, n))
    ensures Chain(st, n)[0] == Root(st, n)
    ensures forall i :: 0 <= i < |Chain(st, n)| ==> st[Chain(st, n)[i]].modTime <= st[n].modTime
    ensures forall i :: 0 < i < |Chain(st, n)| ==> Chain(st, n)[i] in Hanging(st, Root(st, n))
    decreases st[n].modTime
  {
    assert LinkedAt(st, n);
    if st[n].strategy != Full {
      ChainFacts(st, st[n].base);
    }
  }

  lemma {:induction false} ChainLength(st: Store, n: string)
    requires Linked(st) && n in st
    ensures |Chain(st, n)| <= |Hanging(st, Root(st, n))| + 1
  {
    ChainFacts(st, n);
    var rest := Chain(st, n)[1..];
    assert forall i :: 0 <= i < |rest| ==> rest[i] == Chain(st, n)[i + 1];
    Pigeonhole(rest, Hanging(st, Root(st, n)));
  }

  function LastOf<T>(s: seq<T>, k: nat): seq<T> {
    if |s| <= k then s else s[|s| - k..]
  }

  lemma {:induction false} LastSnoc<T>(s: seq<T>, x: T, k: nat)
    ensures LastOf(s + [x], k + 1) == LastOf(s, k) + [x]
  {
  }

  /** Without an override the walk reads each sidecar's own base. */
  ghost predicate ReadsSidecars(st: Store, file: string) {
    forall n {:trigger BaseOf(st, file, "", n)} :: n in st ==>
      BaseOf(st, file, "", n) == st[n].base && st[n].base != n && (st[n].base == "" <==> st[n].strategy == Full)
  }

  lemma {:induction false} StoredNamesReadBack(cfg: Config, st: Store, file: string)
    requires Linked(st) && WellNamed(cfg, st)
    ensures ReadsSidecars(st, file)
  {
    forall n | n in st
      ensures BaseOf(st, file, "", n) == st[n].base && st[n].base != n && (st[n].base == "" <==> st[n].strategy == Full)
    {
      assert LinkedAt(st, n);
      if st[n].strategy != Full {
        assert NameFor(cfg, st[st[n].base].strategy, st[n].base);
      }
    }
  }

  /** The walk collects the newest part of the chain that its step limit allows. */
  lemma {:induction false} WalkFollowsChain(st: Store, file: string, n: string, steps: nat)
    requires Linked(st) && ReadsSidecars(st, file) && n in st
    ensures Walk(st, file, "", n, steps) + [n] == LastOf(Chain(st, n), steps + 1)
    decreases steps
  {
    assert LinkedAt(st, n);
    if steps == 0 {
      ChainFacts(st, n);
    } else if st[n].strategy == Full {
      assert BaseOf(st, file, "", n) == "";
    } else {
      var base := st[n].base;
      assert BaseOf(st, file, "", n) == base;
      WalkFollowsChain(st, file, base, steps - 1);
      LastSnoc(Chain(st, base), n, steps);
    }
  }

  /**
   With a walk of at most `limit` links a restore replays the whole chain exactly when the
   chain has at most `limit + 1` members; of a longer one it loses the full backup.
   */
  lemma {:induction false} RestoreIsWhole(cfg: Config, st: Store, n: string, limit: nat)
    requires Inv(cfg, st) && n in st
    ensures RestoreOrder(st, n, "", limit) == LastOf(Chain(st, n), limit + 1)
    ensures |Chain(st, n)| <= limit + 1 <==> RestoreOrder(st, n, "", limit) == Chain(st, n)
    ensures |Chain(st, n)| <= limit + 1 <==> IsChainOf(st, n, RestoreOrder(st, n, "", limit))
  {
    StoredNamesReadBack(cfg, st, n);
    WalkFollowsChain(st, n, n, limit);
    ChainFacts(st, n);
    if |Chain(st, n)| > limit + 1 {
      assert RestoreOrder(st, n, "", limit)[0] == Chain(st, n)[|Chain(st, n)| - limit - 1];
    }
  }

  /**
   After any run with `full_every` set and within the walk limit, restoring any stored backup replays its whole chain.
   */
  lemma {:induction false} RestoreAfterAnyRun(cfg: Config, run: Run, n: string, limit: nat)
    requires IsRun(cfg, run) && n in Final(run)
    requires 1 <= cfg.fullEvery <= limit
    ensures IsChainOf(Final(run), n, RestoreOrder(Final(run), n, "", limit))
    ensures Distinct(RestoreOrder(Final(run), n, "", limit))
    ensures |RestoreOrder(Final(run), n, "", limit)| <= cfg.fullEvery + 1
  {
    var st := Final(run);
    RunsKeepInv(cfg, run);
    ChainLength(st, n);
    ChainFacts(st, n);
    RestoreIsWhole(cfg, st, n, limit);
  }

  // ---------------------------------------------------------------- sidecars lost

  /** The store as it reads when the sidecars of `torn` are gone: no base is known for them. */
  function Torn(st: Store, torn: set<string>): Store {
    map n | n in st :: if n in torn then st[n].(base := "") else st[n]
  }

  ghost predicate AllRestorable(st: Store, limit: nat) {
    forall n {:trigger RestoreOrder(st, n, "", limit)} :: n in st ==> IsChainOf(st, n, RestoreOrder(st, n, "", limit))
  }

  lemma {:induction false} InvRestorable(cfg: Config, st: Store, limit: nat)
    requires Inv(cfg, st) && 1 <= cfg.fullEvery <= limit
    ensures AllRestorable(st, limit)
  {
    forall n | n in st ensures IsChainOf(st, n, RestoreOrder(st, n, "", limit)) {
      ChainLength(st, n);
      RestoreIsWhole(cfg, st, n, limit);
    }
  }

  /** Without its sidecar a backup restores alone. */
  lemma {:induction false} TornAlone(st: Store, torn: set<string>, n: string, limit: nat)
    requires n in st && n in torn
    ensures RestoreOrder(Torn(st, torn), n, "", limit) == [n]
  {
    var read := Torn(st, torn);
    assert BaseOf(read, n, "", n) == "";
    assert Walk(read, n, "", n, limit) == [];
  }

  ghost predicate OnlyFullsTorn(st: Store, torn: set<string>) {
    forall n :: n in torn && n in st ==> st[n].strategy == Full
  }

  lemma {:induction false} FullsLoseNothing(st: Store, torn: set<string>)
    requires Linked(st) && OnlyFullsTorn(st, torn)
    ensures Torn(st, torn) == st
  {
    forall n | n in st ensures Torn(st, torn)[n] == st[n] {
      assert LinkedAt(st, n);
    }
  }

  lemma {:induction false} TornIncrement(st: Store, torn: set<string>, n: string, limit: nat)
    requires n in torn && n in st && st[n].strategy != Full
    ensures !AllRestorable(Torn(st, torn), limit)
  {
    TornAlone(st, torn, n, limit);
    var read := Torn(st, torn);
    assert n in read && !IsChainOf(read, n, RestoreOrder(read, n, "", limit));
  }

  /** Every backup of a sound store can be restored exactly when no increment has lost its sidecar. */
  lemma {:induction false} TornExactly(cfg: Config, st: Store, torn: set<string>, limit: nat)
    requires Inv(cfg, st) && 1 <= cfg.fullEvery <= limit
    ensures AllRestorable(Torn(st, torn), limit) <==> OnlyFullsTorn(st, torn)
  {
    if OnlyFullsTorn(st, torn) {
      FullsLoseNothing(st, torn);
      InvRestorable(cfg, st, limit);
    } else {
      var n :| n in torn && n in st && st[n].strategy != Full;
      TornIncrement(st, torn, n, limit);
    }
  }

  /**
   A prune deletes a sidecar even after deleting its backup failed. Every backup left can still be restored
   exactly when no increment has lost its sidecar that way.
   */
  lemma {:induction false} TornPrune(cfg: Config, st: Store, ev: Event, kept: Store, torn: set<string>, limit: nat)
    requires Inv(cfg, st) && 1 <= cfg.fullEvery <= limit
    requires ev.Prune? && PruneStep(st, ev, kept) && torn <= ev.failed
    ensures AllRestorable(Torn(kept, torn), limit) <==> OnlyFullsTorn(kept, torn)
  {
    PruneKeepsInv(cfg, st, ev, kept);
    TornExactly(cfg, kept, torn, limit);
  }

  /**
   An increment built on such a backup, which the next run takes for its parent if it is the newest, cannot be restored
   either.
   */
  lemma {:induction false} TornParent(cfg: Config, st: Store, torn: set<string>, n: string, name: string, added: Stored,
      limit: nat)
    requires WellNamed(cfg, st) && n in st && n in torn && st[n].strategy != Full && limit > 1
    requires Extends(Torn(st, torn), name, added, Torn(st, torn)[name := added]) && added.strategy == Incremental
    requires added.base == n
    ensures var after := Torn(st, torn)[name := added];
      RestoreOrder(after, name, "", limit) == [n, name] && !IsChainOf(after, name, RestoreOrder(after, name, "", limit))
  {
    var after := Torn(st, torn)[name := added];
    assert BaseOf(after, name, "", name) == n && n != name;
    assert BaseOf(after, name, "", n) == "";
    assert Walk(after, name, "", n, limit - 1) == [];
    assert Walk(after, name, "", name, limit) == [] + [n];
    assert [] + [n] + [name] == [n, name];
  }

  // ---------------------------------------------------------------- the limit is needed

  /** A name longer than every name used before it. */
  function FreshName(cfg: Config, strategy: Strategy, i: nat): (name: string)
    ensures |name| == |cfg.prefix| + 6 + i
    ensures NameFor(cfg, strategy, name)
  {
    var name := cfg.prefix + Token(strategy) + "-" + seq(i + 1, _ => 'x');
    assert name[|name| - 1] == 'x';
    name
  }

  /** A store of `k` backups that are all one chain, ending in `n`. */
  ghost predicate OneChain(cfg: Config, st: Store, n: string, k: nat) {
    && Inv(cfg, st) && IsNewest(st, n) && HasFull(st) && |st| == k && |Chain(st, n)| == k
    && forall m :: m in st ==> |m| < |cfg.prefix| + 6 + k
  }

  function Increment(cfg: Config, st: Store, n: string, k: nat): Event
    requires n in st
  {
    Backup(Incremental, true, true, FreshName(cfg, Incremental, k), st[n].modTime + 1, 0, n)
  }

  function Incremented(cfg: Config, st: Store, n: string, k: nat): Store
    requires n in st
  {
    st[FreshName(cfg, Incremental, k) := Stored(st[n].modTime + 1, 0, Incremental, n)]
  }

  /** One more increment stays within `full_every`. */
  predicate Permits(cfg: Config, k: nat) {
    cfg.fullEvery <= 0 || k <= cfg.fullEvery
  }

  lemma {:induction false} NoReset(cfg: Config, st: Store, k: nat)
    requires HasFull(st) && |st| == k && Permits(cfg, k)
    ensures !ResetsChain(cfg, st)
  {
    forall f | IsNewestFull(st, f) ensures |NonFullAfter(st, f)| < k {
      SubsetSize(NonFullAfter(st, f), st.Keys - {f});
    }
  }

  lemma {:induction false} IncrementAllowed(cfg: Config, st: Store, n: string, k: nat)
    ensures OneChain(cfg, st, n, k) && Permits(cfg, k) ==>
      BackupStep(cfg, st, Increment(cfg, st, n, k), Incremented(cfg, st, n, k))
  {
    if OneChain(cfg, st, n, k) && Permits(cfg, k) {
      NoReset(cfg, st, k);
    }
  }

  lemma {:induction false} IncrementExtends(cfg: Config, st: Store, n: string, k: nat)
    ensures OneChain(cfg, st, n, k) && Inv(cfg, Incremented(cfg, st, n, k)) ==>
              OneChain(cfg, Incremented(cfg, st, n, k), FreshName(cfg, Incremental, k), k + 1)
  {
    if OneChain(cfg, st, n, k) && Inv(cfg, Incremented(cfg, st, n, k)) {
      var st', n' := Incremented(cfg, st, n, k), FreshName(cfg, Incremental, k);
      assert n' !in st;
      assert LinkedAt(st', n');
      assert Chain(st', n') == Chain(st', n) + [n'];
      RootStable(st, st', n);
      var f :| f in st && st[f].strategy == Full;
      assert f in st' && st'[f].strategy == Full;
    }
  }

  /** A store that is one chain can grow by one increment, and is one chain again. */
  lemma {:induction false} ChainGrows(cfg: Config, st: Store, n: string, k: nat)
    ensures OneChain(cfg, st, n, k) && Permits(cfg, k) ==>
      && Next(cfg, st, Increment(cfg, st, n, k), Incremented(cfg, st, n, k))
      && OneChain(cfg, Incremented(cfg, st, n, k), FreshName(cfg, Incremental, k), k + 1)
  {
    if OneChain(cfg, st, n, k) && Permits(cfg, k) {
      IncrementAllowed(cfg, st, n, k);
      BackupKeepsInv(cfg, st, Increment(cfg, st, n, k), Incremented(cfg, st, n, k));
      IncrementExtends(cfg, st, n, k);
    }
  }

  lemma {:induction false} FirstFull(cfg: Config) returns (run: Run, n: string)
    ensures IsRun(cfg, run) && OneChain(cfg, Final(run), n, 1)
  {
    n := FreshName(cfg, Full, 0);
    var st: Store := map[n := Stored(1, 0, Full, "")];
    run := Then(Start, Backup(Full, true, true, n, 1, 0, ""), st);
    assert BackupStep(cfg, map[], run.event, st);
    RunsKeepInv(cfg, run);
    assert LinkedAt(st, n);
    assert st[n].strategy == Full;
  }

  /** A run of `k` backups that form one chain. */
  lemma {:induction false} LongRun(cfg: Config, k: nat) returns (run: Run, n: string)
    requires k > 0 && (cfg.fullEvery <= 0 || k <= cfg.fullEvery + 1)
    ensures IsRun(cfg, run) && OneChain(cfg, Final(run), n, k)
  {
    if k == 1 {
      run, n := FirstFull(cfg);
    } else {
      run, n := LongRun(cfg, k - 1);
      var st := Final(run);
      ChainGrows(cfg, st, n, k - 1);
      run, n := Then(run, Increment(cfg, st, n, k - 1), Incremented(cfg, st, n, k - 1)),
        FreshName(cfg, Incremental, k - 1);
    }
  }

  /** With `full_every` unset or above the walk limit some run ends in a backup whose restore misses its full backup. */
  lemma {:induction false} LongChainsLoseTheirRoot(cfg: Config, limit: nat) returns (run: Run, n: string)
    requires cfg.fullEvery <= 0 || cfg.fullEvery > limit
    ensures IsRun(cfg, run) && n in Final(run)
    ensures !IsChainOf(Final(run), n, RestoreOrder(Final(run), n, "", limit))
  {
    run, n := LongRun(cfg, limit + 2);
    RestoreIsWhole(cfg, Final(run), n, limit);
  }
}
