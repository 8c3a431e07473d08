/**
 Pruning: which stored backups a retention policy keeps.

 Times are integers counted from Go's zero time, so 0 is "no timestamp". The order
 `sort.Slice` leaves among equal timestamps is unspecified; everything here holds for
 every order it may choose.
 */
module Retention {
  import opened Sequences

  datatype Strategy = Full | Incremental | Differential

  datatype BackupEntry = BackupEntry(fileName: string, timestamp: nat, strategy: Strategy, base: string)

  /** One GFS tier: how many periods it keeps, and the period a timestamp falls in. */
  datatype Tier = Tier(quota: int, period: nat -> int)

  datatype Policy = Policy(last: int, within: int, tiers: seq<Tier>)

  ghost predicate NewestFirst(s: seq<BackupEntry>) {
    forall i, j :: 0 <= i < j < |s| ==> s[i].timestamp >= s[j].timestamp
  }

  ghost predicate DistinctNames(s: seq<BackupEntry>) {
    forall i, j :: 0 <= i < j < |s| ==> s[i].fileName != s[j].fileName
  }

  function Names(s: seq<BackupEntry>): (r: set<string>)
    ensures forall b :: b in s ==> b.fileName in r
  {
    set b | b in s :: b.fileName
  }

  // ---------------------------------------------------------------- chain dependencies

  /** The Base of the first listed entry called `name`; "" ends a walk, as does a name not listed. */
  function Step(backups: seq<BackupEntry>, name: string): string {
    if name == "" || backups == [] then ""
    else if backups[0].fileName == name then backups[0].base
    else Step(backups[1..], name)
  }

  /** `k` Base steps from `name`. */
  ghost function Steps(backups: seq<BackupEntry>, name: string, k: nat): string {
    if k == 0 then name else Step(backups, Steps(backups, name, k - 1))
  }

  /** `x` is reached by one or more Base steps from some listed entry that is not a full backup. */
  ghost predicate Needed(backups: seq<BackupEntry>, x: string) {
    x != "" && exists b, k: nat :: b in backups && b.strategy != Full && Steps(backups, b.base, k) == x
  }

  lemma {:induction false} StepIsListedBase(backups: seq<BackupEntry>, name: string)
    requires Step(backups, name) != ""
    ensures exists b :: b in backups && b.base == Step(backups, name)
  {
    if backups[0].fileName == name {
      assert backups[0] in backups;
    } else {
      StepIsListedBase(backups[1..], name);
      var b :| b in backups[1..] && b.base == Step(backups[1..], name);
      assert b in backups;
    }
  }

  /** The Base of the first entry called `base`, as the inner search loop finds it. */
  method FindBase(backups: seq<BackupEntry>, base: string) returns (found: bool, next: string)
    requires base != ""
    ensures next == Step(backups, base)
    ensures found <==> exists b :: b in backups && b.fileName == base
    ensures !found ==> next == ""
  {
    found, next := false, "";
    var i := 0;
    assert backups[0..] == backups;
    while i < |backups|
      invariant 0 <= i <= |backups|
      invariant !found && next == ""
      invariant Step(backups, base) == Step(backups[i..], base)
      invariant forall j :: 0 <= j < i ==> backups[j].fileName != base
    {
      if backups[i].fileName == base {
        return true, backups[i].base;
      }
      assert backups[i..][1..] == backups[i + 1..];
      i := i + 1;
    }
  }

  ghost predicate ClosedUpTo(backups: seq<BackupEntry>, needed: set<string>, frontier: string) {
    forall x :: x in needed ==>
      var y := Step(backups, x); y == "" || y in needed || y == frontier
  }

  /**
   The names some stored backup depends on. Stopping at a name that is already needed
   loses nothing, whatever cycles or dangling links the Base fields form.
   */
  method ChainDependencies(backups: seq<BackupEntry>) returns (needed: set<string>)
    ensures forall x :: x in needed <==> Needed(backups, x)
  {
    needed := {};
    ghost var universe := set b | b in backups :: b.base;
    var i := 0;
    while i < |backups|
      invariant 0 <= i <= |backups|
      invariant needed <= universe
      invariant forall x :: x in needed ==> Needed(backups, x)
      invariant ClosedUpTo(backups, needed, "")
      invariant forall j :: 0 <= j < i && backups[j].strategy != Full ==>
        backups[j].base == "" || backups[j].base in needed
    {
      var b := backups[i];
      if b.strategy != Full {
        var base := b.base;
        ghost var k: nat := 0;
        while base != ""
          invariant base == Steps(backups, b.base, k)
          invariant base == "" || base in universe
          invariant needed <= universe
          invariant forall x :: x in needed ==> Needed(backups, x)
          invariant ClosedUpTo(backups, needed, base)
          invariant b.base == "" || b.base in needed || b.base == base
          invariant forall j :: 0 <= j < i && backups[j].strategy != Full ==>
            backups[j].base == "" || backups[j].base in needed
          decreases universe - needed, base != ""
        {
          if base in needed {
            break;
          }
          assert Needed(backups, base);
          needed := needed + {base};
          var found, next := FindBase(backups, base);
          if !found {
            break;
          }
          if next != "" {
            StepIsListedBase(backups, base);
          }
          base, k := next, k + 1;
        }
      }
      i := i + 1;
    }
    forall x | Needed(backups, x) ensures x in needed {
      var b, k: nat :| b in backups && b.strategy != Full && Steps(backups, b.base, k) == x;
      ClosedCollectsWalk(backups, needed, b.base, k);
    }
  }

  lemma {:induction false} ClosedCollectsWalk(backups: seq<BackupEntry>, needed: set<string>, start: string, k: nat)
    requires ClosedUpTo(backups, needed, "")
    requires start == "" || start in needed
    ensures Steps(backups, start, k) == "" || Steps(backups, start, k) in needed
  {
    if k > 0 {
      ClosedCollectsWalk(backups, needed, start, k - 1);
    }
  }

  // ---------------------------------------------------------------- GFS tiers

  /** The periods of the unkept entries listed before position `i`. */
  ghost function PeriodsBefore(s: seq<BackupEntry>, kept: set<string>, tier: Tier, i: nat): set<int>
    requires i <= |s|
  {
    if i == 0 then {}
    else if s[i - 1].fileName in kept then PeriodsBefore(s, kept, tier, i - 1)
    else PeriodsBefore(s, kept, tier, i - 1) + {tier.period(s[i - 1].timestamp)}
  }

  /** How many periods those are, counted at the first entry of each. */
  ghost function PeriodCount(s: seq<BackupEntry>, kept: set<string>, tier: Tier, i: nat): nat
    requires i <= |s|
  {
    if i == 0 then 0
    else
      var period := tier.period(s[i - 1].timestamp);
      var isNew := s[i - 1].fileName !in kept && period !in PeriodsBefore(s, kept, tier, i - 1);
      PeriodCount(s, kept, tier, i - 1) + if isNew then 1 else 0
  }

  lemma {:induction false} PeriodCounts(s: seq<BackupEntry>, kept: set<string>, tier: Tier, i: nat)
    requires i <= |s|
    ensures PeriodCount(s, kept, tier, i) == |PeriodsBefore(s, kept, tier, i)|
  {
    if i > 0 {
      PeriodCounts(s, kept, tier, i - 1);
      var before, period := PeriodsBefore(s, kept, tier, i - 1), tier.period(s[i - 1].timestamp);
      Grow(before, PeriodsBefore(s, kept, tier, i), period, s[i - 1].fileName !in kept && period !in before);
    }
  }

  /**
   The tier picks entry `i`: it is not kept yet, no unkept entry before it shares its
   period, and fewer than `quota` periods come before its own.
   */
  ghost predicate TierPick(s: seq<BackupEntry>, kept: set<string>, tier: Tier, i: nat)
    requires i < |s|
  {
    && s[i].fileName !in kept
    && tier.period(s[i].timestamp) !in PeriodsBefore(s, kept, tier, i)
    && PeriodCount(s, kept, tier, i) < tier.quota
  }

  /** The names picked from position `i` on. */
  ghost function Picked(s: seq<BackupEntry>, kept: set<string>, tier: Tier, i: nat): set<string>
    requires i <= |s|
    decreases |s| - i
  {
    if i == |s| then {}
    else if TierPick(s, kept, tier, i) then {s[i].fileName} + Picked(s, kept, tier, i + 1)
    else Picked(s, kept, tier, i + 1)
  }

  lemma {:induction false} PickedAreListed(s: seq<BackupEntry>, kept: set<string>, tier: Tier, i: nat, x: string)
    returns (j: nat)
    requires i <= |s| && x in Picked(s, kept, tier, i)
    ensures i <= j < |s| && s[j].fileName == x && TierPick(s, kept, tier, j)
    decreases |s| - i
  {
    j := i;
    if !TierPick(s, kept, tier, i) || s[i].fileName != x {
      j := PickedAreListed(s, kept, tier, i + 1, x);
    }
  }

  lemma {:induction false} PeriodsGrow(s: seq<BackupEntry>, kept: set<string>, tier: Tier, i: nat, j: nat)
    requires i <= j <= |s|
    ensures PeriodsBefore(s, kept, tier, i) <= PeriodsBefore(s, kept, tier, j)
    ensures PeriodCount(s, kept, tier, i) <= PeriodCount(s, kept, tier, j)
    ensures i < j && s[i].fileName !in kept ==> tier.period(s[i].timestamp) in PeriodsBefore(s, kept, tier, j)
    decreases j
  {
    if i < j {
      PeriodsGrow(s, kept, tier, i, j - 1);
    }
  }

  ghost function AfterTier(s: seq<BackupEntry>, kept: set<string>, tier: Tier): set<string> {
    kept + Picked(s, kept, tier, 0)
  }

  /** What the pass over the entries from `i` on adds to `kept`, with the periods seen so far. */
  function TierPass(s: seq<BackupEntry>, kept: set<string>, tier: Tier, i: nat, seen: set<int>): set<string>
    requires i <= |s|
    decreases |s| - i
  {
    if i == |s| then {}
    else
      var k := tier.period(s[i].timestamp);
      if s[i].fileName !in kept && |seen| < tier.quota && k !in seen
      then {s[i].fileName} + TierPass(s, kept, tier, i + 1, seen + {k})
      else TierPass(s, kept, tier, i + 1, seen)
  }

  method ApplyTier(s: seq<BackupEntry>, tier: Tier, kept: set<string>) returns (kept': set<string>)
    requires DistinctNames(s)
    ensures kept' == AfterTier(s, kept, tier)
  {
    kept' := kept;
    if tier.quota <= 0 {
      NoQuota(s, kept, tier, 0);
      return;
    }
    TierPassPicks(s, kept, tier, 0, {});
    var seen: set<int> := {};
    var i := 0;
    while i < |s|
      invariant 0 <= i <= |s|
      invariant forall j :: i <= j < |s| ==> (s[j].fileName in kept' <==> s[j].fileName in kept)
      invariant kept' + TierPass(s, kept, tier, i, seen) == kept + TierPass(s, kept, tier, 0, {})
    {
      var b := s[i];
      if b.fileName !in kept' {
        var k := tier.period(b.timestamp);
        if |seen| < tier.quota && k !in seen {
          kept', seen := kept' + {b.fileName}, seen + {k};
        }
      }
      i := i + 1;
    }
  }

  lemma {:induction false} NoQuota(s: seq<BackupEntry>, kept: set<string>, tier: Tier, i: nat)
    requires tier.quota <= 0 && i <= |s|
    ensures Picked(s, kept, tier, i) == {}
    decreases |s| - i
  {
    if i < |s| {
      NoQuota(s, kept, tier, i + 1);
    }
  }

  /** `seen` holds the periods passed so far, until it is full. */
  ghost predicate TierSeen(s: seq<BackupEntry>, kept: set<string>, tier: Tier, i: nat, seen: set<int>)
    requires i <= |s|
  {
    && |seen| <= tier.quota
    && if |seen| < tier.quota then seen == PeriodsBefore(s, kept, tier, i)
      else PeriodCount(s, kept, tier, i) >= tier.quota
  }

  lemma {:induction false} TierSeenStep(s: seq<BackupEntry>, kept: set<string>, tier: Tier, i: nat, seen: set<int>)
    requires i < |s| && TierSeen(s, kept, tier, i, seen)
    ensures var k := tier.period(s[i].timestamp);
            if s[i].fileName !in kept && |seen| < tier.quota && k !in seen
            then TierPick(s, kept, tier, i) && TierSeen(s, kept, tier, i + 1, seen + {k})
            else !TierPick(s, kept, tier, i) && TierSeen(s, kept, tier, i + 1, seen)
  {
    PeriodCounts(s, kept, tier, i);
    PeriodCounts(s, kept, tier, i + 1);
    var k := tier.period(s[i].timestamp);
    if |seen| < tier.quota {
      Grow(seen, if k in seen then seen else seen + {k}, k, k !in seen);
    }
  }

  /** The pass keeps exactly the picks. */
  lemma {:induction false} TierPassPicks(s: seq<BackupEntry>, kept: set<string>, tier: Tier, i: nat, seen: set<int>)
    requires i <= |s| && tier.quota > 0 && TierSeen(s, kept, tier, i, seen)
    ensures TierPass(s, kept, tier, i, seen) == Picked(s, kept, tier, i)
    decreases |s| - i
  {
    if i < |s| {
      TierSeenStep(s, kept, tier, i, seen);
      var k := tier.period(s[i].timestamp);
      if s[i].fileName !in kept && |seen| < tier.quota && k !in seen {
        TierPassPicks(s, kept, tier, i + 1, seen + {k});
      } else {
        TierPassPicks(s, kept, tier, i + 1, seen);
      }
    }
  }

  function Min(a: int, b: int): int {
    if a < b then a else b
  }

  function Quota(tier: Tier): nat {
    if tier.quota < 0 then 0 else tier.quota
  }

  /** A tier keeps one entry for each period with an unkept entry, up to its quota. */
  lemma {:induction false} TierQuota(s: seq<BackupEntry>, kept: set<string>, tier: Tier)
    requires DistinctNames(s)
    ensures |Picked(s, kept, tier, 0)| == Min(Quota(tier), |PeriodsBefore(s, kept, tier, |s|)|)
  {
    PeriodCounts(s, kept, tier, |s|);
    QuotaFrom(s, kept, tier, 0);
  }

  lemma {:induction false} QuotaFrom(s: seq<BackupEntry>, kept: set<string>, tier: Tier, i: nat)
    requires i <= |s| && DistinctNames(s)
    ensures |Picked(s, kept, tier, i)| + Min(Quota(tier), PeriodCount(s, kept, tier, i))
      == Min(Quota(tier), PeriodCount(s, kept, tier, |s|))
    decreases |s| - i
  {
    if i < |s| {
      QuotaFrom(s, kept, tier, i + 1);
      var rest := Picked(s, kept, tier, i + 1);
      if s[i].fileName in rest {
        var j := PickedAreListed(s, kept, tier, i + 1, s[i].fileName);
      }
      Grow(rest, Picked(s, kept, tier, i), s[i].fileName, TierPick(s, kept, tier, i));
    }
  }

  lemma {:induction false} Grow<T>(a: set<T>, b: set<T>, x: T, more: bool)
    requires more ==> x !in a
    requires b == if more then a + {x} else a
    ensures |b| == |a| + if more then 1 else 0
  {
  }

  /**
   The picks are the newest unkept entries of distinct periods, and no skipped period is more recent than a picked one.
   */
  lemma {:induction false} TierPicksNewest(s: seq<BackupEntry>, kept: set<string>, tier: Tier, i: nat, j: nat)
    requires NewestFirst(s) && i < |s| && j < |s|
    requires TierPick(s, kept, tier, i) && s[j].fileName !in kept && i != j
    ensures tier.period(s[i].timestamp) == tier.period(s[j].timestamp) ==>
              !TierPick(s, kept, tier, j) && s[i].timestamp >= s[j].timestamp
    ensures s[j].timestamp > s[i].timestamp ==>
              exists p: nat {:trigger TierPick(s, kept, tier, p)} ::
                p <= j && TierPick(s, kept, tier, p) && tier.period(s[p].timestamp) == tier.period(s[j].timestamp)
  {
    if i < j {
      PeriodsGrow(s, kept, tier, i, j);
    } else {
      PeriodsGrow(s, kept, tier, j, i);
      var p := FirstOfPeriod(s, kept, tier, j, j);
      PeriodsGrow(s, kept, tier, p, i);
      assert TierPick(s, kept, tier, p);
    }
  }

  lemma {:induction false} FirstOfPeriod(s: seq<BackupEntry>, kept: set<string>, tier: Tier, j: nat, i: nat)
    returns (p: nat)
    requires i <= j < |s| && s[j].fileName !in kept
    requires i == j || tier.period(s[j].timestamp) in PeriodsBefore(s, kept, tier, i + 1)
    ensures p <= j && s[p].fileName !in kept
    ensures tier.period(s[p].timestamp) == tier.period(s[j].timestamp)
    ensures tier.period(s[p].timestamp) !in PeriodsBefore(s, kept, tier, p)
    decreases i
  {
    if tier.period(s[j].timestamp) in PeriodsBefore(s, kept, tier, i) {
      p := FirstOfPeriod(s, kept, tier, j, i - 1);
    } else {
      p := i;
    }
  }

  // ---------------------------------------------------------------- the whole policy

  ghost function NeededNames(s: seq<BackupEntry>): set<string> {
    set b | b in s && Needed(s, b.fileName) :: b.fileName
  }

  /** Entries that carry a timestamp no older than `within` before `now`. */
  function InWindow(s: seq<BackupEntry>, within: int, now: int): set<string> {
    set b | b in s && within > 0 && b.timestamp != 0 && b.timestamp >= now - within :: b.fileName
  }

  function Newest(s: seq<BackupEntry>, last: int): set<string> {
    set i | 0 <= i < |s| && i < last :: s[i].fileName
  }

  ghost function AfterTiers(s: seq<BackupEntry>, kept: set<string>, tiers: seq<Tier>): set<string>
    decreases |tiers|
  {
    if tiers == [] then kept else AfterTiers(s, AfterTier(s, kept, tiers[0]), tiers[1..])
  }

  /** The names the policy keeps of a listing sorted newest first. */
  ghost function Survivors(s: seq<BackupEntry>, policy: Policy, now: int): set<string> {
    AfterTiers(s, NeededNames(s) + InWindow(s, policy.within, now) + Newest(s, policy.last), policy.tiers)
  }

  /** The names of the entries outside `kept`, in listing order. */
  function Others(s: seq<BackupEntry>, kept: set<string>): seq<string> {
    if s == [] then []
    else (if s[0].fileName in kept then [] else [s[0].fileName]) + Others(s[1..], kept)
  }

  method KeepWindow(s: seq<BackupEntry>, within: int, now: int, kept: set<string>) returns (kept': set<string>)
    ensures kept' == kept + InWindow(s, within, now)
  {
    kept' := kept;
    if within > 0 {
      var cutoff := now - within;
      var i := 0;
      while i < |s|
        invariant 0 <= i <= |s|
        invariant kept' == kept + InWindow(s[..i], within, now)
      {
        assert s[..i + 1] == s[..i] + [s[i]];
        if s[i].timestamp != 0 && s[i].timestamp >= cutoff {
          kept' := kept' + {s[i].fileName};
        }
        i := i + 1;
      }
      assert s[..i] == s;
    }
  }

  method KeepLast(s: seq<BackupEntry>, last: int, kept: set<string>) returns (kept': set<string>)
    ensures kept' == kept + Newest(s, last)
  {
    kept' := kept;
    if last > 0 {
      var count := 0;
      while count < |s|
        invariant 0 <= count <= |s| && count <= last
        invariant kept' == kept + Newest(s, count)
        decreases |s| - count
      {
        if count >= last {
          break;
        }
        kept' := kept' + {s[count].fileName};
        count := count + 1;
      }
    }
  }

  method KeepTiers(s: seq<BackupEntry>, tiers: seq<Tier>, kept: set<string>) returns (kept': set<string>)
    requires DistinctNames(s)
    ensures kept' == AfterTiers(s, kept, tiers)
  {
    kept' := kept;
    var i := 0;
    assert tiers[0..] == tiers;
    while i < |tiers|
      invariant 0 <= i <= |tiers|
      invariant AfterTiers(s, kept', tiers[i..]) == AfterTiers(s, kept, tiers)
    {
      assert tiers[i..][0] == tiers[i] && tiers[i..][1..] == tiers[i + 1..];
      kept' := ApplyTier(s, tiers[i], kept');
      i := i + 1;
    }
  }

  /** Without a licence for tiers their quotas are dropped. */
  function Licensed(policy: Policy, tiersAllowed: bool): Policy {
    if tiersAllowed then policy else policy.(tiers := [])
  }

  lemma {:induction false} SortedNamesDistinct(a: seq<BackupEntry>, b: seq<BackupEntry>)
    requires DistinctNames(a) && multiset(a) == multiset(b)
    ensures DistinctNames(b)
  {
    PermutationDistinct(a, b);
    forall i, j | 0 <= i < j < |b| ensures b[i].fileName != b[j].fileName {
      assert b[i] in multiset(b) && b[j] in multiset(b);
      assert b[i] in a && b[j] in a;
    }
  }

  /** Sorts the listing in place and names what to delete, newest first. */
  method ApplyRetentionAt(backups: array<BackupEntry>, policy: Policy, tiersAllowed: bool, now: int)
    returns (toDelete: seq<string>)
    requires DistinctNames(backups[..])
    modifies backups
    ensures multiset(backups[..]) == old(multiset(backups[..]))
    ensures NewestFirst(backups[..]) && DistinctNames(backups[..])
    ensures toDelete == Others(backups[..], Survivors(backups[..], Licensed(policy, tiersAllowed), now))
  {
    var s := SortDescending(backups[..], (b: BackupEntry) => b.timestamp);
    SortedNamesDistinct(backups[..], s);
    forall i | 0 <= i < |s| {
      backups[i] := s[i];
    }
    assert backups[..] == s;
    var needed := ChainDependencies(s);
    var kept := set b | b in s && b.fileName in needed :: b.fileName;
    assert kept == NeededNames(s);
    kept := KeepWindow(s, policy.within, now, kept);
    kept := KeepLast(s, policy.last, kept);
    kept := KeepTiers(s, Licensed(policy, tiersAllowed).tiers, kept);
    toDelete := Others(s, kept);
  }

  // ---------------------------------------------------------------- what the policy guarantees

  /** A listed entry is deleted exactly when it does not survive. */
  lemma {:induction false} DeletesTheRest(s: seq<BackupEntry>, kept: set<string>, x: string)
    ensures x in Others(s, kept) <==> x in Names(s) && x !in kept
  {
    if s != [] {
      DeletesTheRest(s[1..], kept, x);
      assert s == [s[0]] + s[1..];
      assert Names(s) == {s[0].fileName} + Names(s[1..]);
    }
  }

  lemma {:induction false} TiersKeep(s: seq<BackupEntry>, kept: set<string>, tiers: seq<Tier>)
    ensures kept <= AfterTiers(s, kept, tiers)
    ensures AfterTiers(s, kept, tiers) <= kept + Names(s)
    decreases |tiers|
  {
    if tiers != [] {
      TiersKeep(s, AfterTier(s, kept, tiers[0]), tiers[1..]);
      forall x | x in Picked(s, kept, tiers[0], 0)
        ensures x in Names(s)
      {
        var j := PickedAreListed(s, kept, tiers[0], 0, x);
      }
    }
  }

  /** The other entries at or after entry `i`. */
  ghost function AtOrAfter(s: seq<BackupEntry>, i: nat): set<nat>
    requires i < |s|
  {
    set j: nat | j < |s| && j != i && s[j].timestamp >= s[i].timestamp
  }

  /**
   Never deleted: an ancestor of any listed backup that is not full, a backup inside the
   window, a backup with fewer than `last` others at or after it.
   */
  lemma {:induction false} NeverDeleted(s: seq<BackupEntry>, policy: Policy, now: int, i: nat)
    requires NewestFirst(s) && i < |s|
    requires
      || Needed(s, s[i].fileName)
      || (s[i].timestamp != 0 && 0 < policy.within && s[i].timestamp >= now - policy.within)
      || |AtOrAfter(s, i)| < policy.last
    ensures s[i].fileName !in Others(s, Survivors(s, policy, now))
  {
    var direct := NeededNames(s) + InWindow(s, policy.within, now) + Newest(s, policy.last);
    TiersKeep(s, direct, policy.tiers);
    DeletesTheRest(s, Survivors(s, policy, now), s[i].fileName);
    if |AtOrAfter(s, i)| < policy.last {
      var earlier := seq(i, j requires 0 <= j < i => j as nat);
      Pigeonhole(earlier, AtOrAfter(s, i));
      assert s[i].fileName in Newest(s, policy.last);
    }
  }

  function Quotas(tiers: seq<Tier>): nat {
    if tiers == [] then 0 else Quota(tiers[0]) + Quotas(tiers[1..])
  }

  lemma {:induction false} TiersBound(s: seq<BackupEntry>, kept: set<string>, tiers: seq<Tier>)
    requires DistinctNames(s)
    ensures |AfterTiers(s, kept, tiers)| <= |kept| + Quotas(tiers)
    decreases |tiers|
  {
    if tiers != [] {
      TierQuota(s, kept, tiers[0]);
      TiersBound(s, AfterTier(s, kept, tiers[0]), tiers[1..]);
    }
  }

  lemma {:induction false} NewestSize(s: seq<BackupEntry>, last: nat)
    ensures |Newest(s, last)| <= last
  {
    if last == 0 {
      assert Newest(s, 0) == {};
    } else {
      NewestSize(s, last - 1);
      assert Newest(s, last) == Newest(s, last - 1) + if last <= |s| then {s[last - 1].fileName} else {};
    }
  }

  /** How many backups a prune can leave behind. */
  lemma {:induction false} SurvivorBound(s: seq<BackupEntry>, policy: Policy, now: int)
    requires DistinctNames(s)
    ensures Survivors(s, policy, now) <= Names(s)
    ensures var last := if policy.last < 0 then 0 else policy.last;
      |Survivors(s, policy, now)|
      <= |NeededNames(s)| + |InWindow(s, policy.within, now)| + last + Quotas(policy.tiers)
  {
    var direct := NeededNames(s) + InWindow(s, policy.within, now) + Newest(s, policy.last);
    TiersKeep(s, direct, policy.tiers);
    TiersBound(s, direct, policy.tiers);
    if policy.last < 0 {
      assert Newest(s, policy.last) == {};
    } else {
      NewestSize(s, policy.last);
    }
  }
}
