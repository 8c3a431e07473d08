/**
 Interval schedules anchored at clock times: the next slot after now, and the slots missed
 since the previous run. Times are nanoseconds on a clock without time-zone shifts.
 */
module AnchoredGrid {
  import opened Remainders
  import opened Sequences

  const SECOND := 1_000_000_000
  const MINUTE := 60_000_000_000
  const DAY := 86_400_000_000_000

  /** Go's remainder, which truncates toward zero. */
  function Rem(x: int, y: int): int
    requires y > 0
  {
    if x >= 0 then x % y else -((-x) % y)
  }

  function DayStart(t: int): int {
    t - t % DAY
  }

  /** The instant of a clock time, in minutes after midnight, on the day of `t`. */
  function Epoch(t: int, anchor: nat): int {
    DayStart(t) + anchor * MINUTE
  }

  predicate OnGrid(epoch: int, step: int, g: int)
    requires step > 0
  {
    (g - epoch) % step == 0
  }

  /** `g` is a slot of some anchor, the anchors taken on the day of `t`. */
  predicate IsSlot(anchors: seq<nat>, t: int, step: int, g: int)
    requires step > 0
  {
    exists i :: 0 <= i < |anchors| && OnGrid(Epoch(t, anchors[i]), step, g)
  }

  // ---------------------------------------------------------------- remainders

  /** The program's adjusted remainder is the distance back to the last slot at or before `x`. */
  lemma {:induction false} AdjustedRem(x: int, step: int)
    requires step > 0
    ensures (if Rem(x, step) < 0 then Rem(x, step) + step else Rem(x, step)) == x % step
  {
    if x < 0 {
      var q, r := (-x) / step, (-x) % step;
      assert -x == step * q + r;
      assert step * q == q * step;
      if r == 0 {
        assert x == (-q) * step + 0;
        RemainderUnique(x, step, -q, 0);
      } else {
        assert (-q - 1) * step == -(q * step) - step;
        RemainderUnique(x, step, -q - 1, step - r);
      }
    }
  }

  /** The next slot of one grid strictly after `now`. */
  lemma {:induction false} NextOnGrid(epoch: int, step: int, now: int)
    requires step > 0
    ensures var d := step - (now - epoch) % step; 0 < d <= step && OnGrid(epoch, step, now + d)
    ensures forall g :: now < g < now + (step - (now - epoch) % step) ==> !OnGrid(epoch, step, g)
  {
    var x := now - epoch;
    var q, r := x / step, x % step;
    assert x == q * step + r by { assert x == step * q + r; }
    assert (q + 1) * step == q * step + step;
    RemainderUnique(x + (step - r), step, q + 1, 0);
    assert now + (step - r) - epoch == x + (step - r);
    forall g | now < g < now + (step - r) ensures !OnGrid(epoch, step, g) {
      RemainderUnique(g - epoch, step, q, g - epoch - q * step);
    }
  }

  lemma {:induction false} GridPeriod(epoch: int, step: int, g: int)
    requires step > 0 && OnGrid(epoch, step, g)
    ensures OnGrid(epoch, step, g + step)
    ensures forall h :: g < h < g + step ==> !OnGrid(epoch, step, h)
  {
    NextOnGrid(epoch, step, g);
  }

  // ---------------------------------------------------------------- the next slot

  method NextAnchoredDuration(anchors: seq<nat>, intervalMin: int, now: int) returns (best: int)
    ensures anchors == [] || intervalMin <= 0 ==> best == 0
    ensures anchors != [] && intervalMin > 0 ==>
      var step := intervalMin * MINUTE;
      && 0 < best <= step && IsSlot(anchors, now, step, now + best)
      && forall g :: now < g < now + best ==> !IsSlot(anchors, now, step, g)
  {
    if |anchors| == 0 || intervalMin <= 0 {
      return 0;
    }
    var step := intervalMin * MINUTE;
    best := 0;
    var i := 0;
    while i < |anchors|
      invariant 0 <= i <= |anchors|
      invariant i == 0 ==> best == 0
      invariant i > 0 ==> 0 < best <= step && IsSlot(anchors, now, step, now + best)
      invariant forall j, g :: 0 <= j < i && now < g < now + best ==> !OnGrid(Epoch(now, anchors[j]), step, g)
    {
      var epoch := Epoch(now, anchors[i]);
      var rem := Rem(now - epoch, step);
      if rem < 0 {
        rem := rem + step;
      }
      AdjustedRem(now - epoch, step);
      NextOnGrid(epoch, step, now);
      var d;
      if rem == 0 {
        d := step;
      } else {
        d := step - rem;
      }
      assert OnGrid(Epoch(now, anchors[i]), step, now + d);
      if best == 0 || d < best {
        best := d;
      }
      i := i + 1;
    }
  }

  // ---------------------------------------------------------------- missed slots

  /** The slots strictly between `lo` and `hi`. */
  ghost function Slots(anchors: seq<nat>, t: int, step: int, lo: int, hi: int): set<int>
    requires step > 0
  {
    set g | lo < g < hi && IsSlot(anchors, t, step, g)
  }

  ghost function GridPoints(epoch: int, step: int, lo: int, hi: int): set<int>
    requires step > 0
  {
    set g | lo < g < hi && OnGrid(epoch, step, g)
  }

  lemma {:induction false} SlotsSnoc(anchors: seq<nat>, i: nat, t: int, step: int, lo: int, hi: int)
    requires step > 0 && i < |anchors|
    ensures Slots(anchors[..i + 1], t, step, lo, hi)
      == Slots(anchors[..i], t, step, lo, hi) + GridPoints(Epoch(t, anchors[i]), step, lo, hi)
  {
    var a, b := anchors[..i], anchors[..i + 1];
    assert b == a + [anchors[i]];
    forall g ensures IsSlot(b, t, step, g) <==> IsSlot(a, t, step, g) || OnGrid(Epoch(t, anchors[i]), step, g) {
      if IsSlot(a, t, step, g) {
        var k :| 0 <= k < |a| && OnGrid(Epoch(t, a[k]), step, g);
        assert b[k] == a[k];
      }
      assert b[i] == anchors[i];
    }
  }

  lemma {:induction false} PointsGrow(epoch: int, step: int, lo: int, g: int)
    requires step > 0 && lo < g && OnGrid(epoch, step, g)
    ensures GridPoints(epoch, step, lo, g + step) == GridPoints(epoch, step, lo, g) + {g}
  {
    GridPeriod(epoch, step, g);
  }

  lemma {:induction false} WholeMinute(n: int)
    ensures n * MINUTE % SECOND == 0
  {
  }

  lemma {:induction false} MinuteProduct(n: int, k: int)
    ensures (n * MINUTE) * k == (n * k) * MINUTE
  {
  }

  lemma {:induction false} GridMultiple(epoch: int, step: int, g: int) returns (k: int)
    requires step > 0 && OnGrid(epoch, step, g)
    ensures g == epoch + step * k
  {
    k := (g - epoch) / step;
  }

  /** Slots fall on whole minutes, so whole seconds tell them apart. */
  lemma {:induction false} SlotOnMinute(t: int, anchor: nat, intervalMin: int, g: int)
    requires intervalMin > 0 && OnGrid(Epoch(t, anchor), intervalMin * MINUTE, g)
    ensures g % SECOND == 0
  {
    var k := GridMultiple(Epoch(t, anchor), intervalMin * MINUTE, g);
    MinuteProduct(intervalMin, k);
    var days := t / DAY;
    assert DayStart(t) == days * 1440 * MINUTE;
    var n := intervalMin * k;
    WholeMinute(days * 1440 + anchor + n);
  }

  ghost predicate GridOnSeconds(epoch: int, step: int)
    requires step > 0
  {
    forall g :: OnGrid(epoch, step, g) ==> g % SECOND == 0
  }

  lemma {:induction false} SlotsOnSeconds(t: int, anchor: nat, intervalMin: int)
    requires intervalMin > 0
    ensures GridOnSeconds(Epoch(t, anchor), intervalMin * MINUTE)
  {
    forall g | OnGrid(Epoch(t, anchor), intervalMin * MINUTE, g) ensures g % SECOND == 0 {
      SlotOnMinute(t, anchor, intervalMin, g);
    }
  }

  ghost predicate NoSlots(epoch: int, step: int, lo: int, hi: int)
    requires step > 0
  {
    forall h :: lo <= h < hi ==> !OnGrid(epoch, step, h)
  }

  ghost predicate WholeSeconds(pts: set<int>) {
    forall p :: p in pts ==> p % SECOND == 0
  }

  ghost function Seconds(pts: set<int>): set<int> {
    set p | p in pts :: p / SECOND
  }

  lemma {:induction false} SecondsTellApart(pts: set<int>, g: int)
    requires WholeSeconds(pts) && g % SECOND == 0
    ensures g / SECOND in Seconds(pts) <==> g in pts
  {
  }

  ghost predicate SamplesOf(samples: seq<int>, pts: set<int>) {
    && |samples| == (if |pts| < 3 then |pts| else 3)
    && Distinct(samples) && forall x :: x in samples ==> x in pts
  }

  /** What the loops have found when they have been through the slots `pts`. */
  ghost predicate Counted(seen: set<int>, count: nat, samples: seq<int>, pts: set<int>) {
    WholeSeconds(pts) && seen == Seconds(pts) && count == |pts| && SamplesOf(samples, pts)
  }

  /** One slot: counted unless another anchor's grid has counted it already; the first three are kept as samples. */
  method CountSlot(g: int, seen: set<int>, count: nat, samples: seq<int>, ghost pts: set<int>)
    returns (seen': set<int>, count': nat, samples': seq<int>)
    requires Counted(seen, count, samples, pts) && g % SECOND == 0
    ensures Counted(seen', count', samples', pts + {g})
  {
    seen', count', samples' := seen, count, samples;
    SecondsTellApart(pts, g);
    if g / SECOND in seen {
      assert pts + {g} == pts;
      return;
    }
    assert Seconds(pts + {g}) == Seconds(pts) + {g / SECOND};
    seen', count' := seen + {g / SECOND}, count + 1;
    if |samples| < 3 {
      samples' := samples + [g];
    }
  }

  /** Counts the distinct slots strictly between the previous run and `end`. */
  method MissedGridPoints(anchors: seq<nat>, intervalMin: int, prev: int, end: int)
    returns (count: nat, samples: seq<int>)
    ensures |anchors| == 0 || intervalMin <= 0 || end <= prev ==> count == 0 && samples == []
    ensures |anchors| > 0 && intervalMin > 0 && end > prev ==>
      && count == |Slots(anchors, prev, intervalMin * MINUTE, prev, end)|
      && SamplesOf(samples, Slots(anchors, prev, intervalMin * MINUTE, prev, end))
  {
    count, samples := 0, [];
    if |anchors| == 0 || intervalMin <= 0 || !(end > prev) {
      return;
    }
    var step := intervalMin * MINUTE;
    var seen: set<int> := {};
    var i := 0;
    assert Slots(anchors[..0], prev, step, prev, end) == {};
    assert Seconds({}) == {};
    while i < |anchors|
      invariant 0 <= i <= |anchors|
      invariant Counted(seen, count, samples, Slots(anchors[..i], prev, step, prev, end))
    {
      ghost var before := Slots(anchors[..i], prev, step, prev, end);
      seen, count, samples := CountGrid(anchors[i], intervalMin, prev, end, seen, count, samples, before);
      SlotsSnoc(anchors, i, prev, step, prev, end);
      i := i + 1;
    }
    assert anchors[..i] == anchors;
  }

  /** The first slot of a grid after the previous run. */
  method FirstSlot(epoch: int, step: int, prev: int) returns (g: int)
    requires step > 0
    ensures g > prev && OnGrid(epoch, step, g) && NoSlots(epoch, step, prev + 1, g)
  {
    var rem := Rem(prev - epoch, step);
    if rem < 0 {
      rem := rem + step;
    }
    AdjustedRem(prev - epoch, step);
    NextOnGrid(epoch, step, prev);
    g := prev + (step - rem);
  }

  /** The slots of one anchor. */
  method CountGrid(anchor: nat, intervalMin: int, prev: int, end: int, seen: set<int>, count: nat, samples: seq<int>,
      ghost before: set<int>)
    returns (seen': set<int>, count': nat, samples': seq<int>)
    requires intervalMin > 0 && end > prev
    requires Counted(seen, count, samples, before)
    ensures Counted(seen', count', samples', before + GridPoints(Epoch(prev, anchor), intervalMin * MINUTE, prev, end))
  {
    var step := intervalMin * MINUTE;
    var epoch := Epoch(prev, anchor);
    SlotsOnSeconds(prev, anchor, intervalMin);
    var first := FirstSlot(epoch, step, prev);
    seen', count', samples' := CountFrom(epoch, step, first, prev, end, seen, count, samples, before);
  }

  /** The inner loop, from the first slot after `prev`. */
  method CountFrom(epoch: int, step: int, first: int, prev: int, end: int, seen: set<int>, count: nat,
      samples: seq<int>, ghost before: set<int>)
    returns (seen': set<int>, count': nat, samples': seq<int>)
    requires step > 0 && end > prev && GridOnSeconds(epoch, step)
    requires first > prev && OnGrid(epoch, step, first) && NoSlots(epoch, step, prev + 1, first)
    requires Counted(seen, count, samples, before)
    ensures Counted(seen', count', samples', before + GridPoints(epoch, step, prev, end))
  {
    seen', count', samples' := seen, count, samples;
    var g := first;
    ghost var pts := before;
    while g < end
      invariant g > prev && OnGrid(epoch, step, g)
      invariant pts == before + GridPoints(epoch, step, prev, g)
      invariant Counted(seen', count', samples', pts)
      invariant NoSlots(epoch, step, end, g)
      decreases end - g
    {
      seen', count', samples' := CountSlot(g, seen', count', samples', pts);
      PointsGrow(epoch, step, prev, g);
      pts := pts + {g};
      GridPeriod(epoch, step, g);
      g := g + step;
    }
    assert GridPoints(epoch, step, prev, g) == GridPoints(epoch, step, prev, end);
  }

  // ---------------------------------------------------------------- daily times

  /** A list of clock times as the configuration leaves it: sorted minutes after midnight. */
  predicate ClockTimes(times: seq<nat>) {
    && (forall i :: 0 <= i < |times| ==> times[i] < 1440)
    && forall i, j :: 0 <= i < j < |times| ==> times[i] <= times[j]
  }

  /** A day holds each clock time once, and the next day holds it again. */
  lemma {:induction false} DailySlots(now: int, m: nat, g: int)
    requires m < 1440
    ensures OnGrid(Epoch(now, m), DAY, g) && now < g ==>
      g >= Epoch(now, m) + (if m > (now - DayStart(now)) / MINUTE then 0 else DAY)
    ensures m > (now - DayStart(now)) / MINUTE <==> Epoch(now, m) > now
    ensures OnGrid(Epoch(now, m), DAY, Epoch(now, m)) && OnGrid(Epoch(now, m), DAY, Epoch(now, m) + DAY)
    ensures Epoch(now, m) + DAY > now
  {
    var e, k := Epoch(now, m), (g - Epoch(now, m)) / DAY;
    if OnGrid(e, DAY, g) && now < g {
      assert g == e + k * DAY;
    }
  }

  /** The least instant after `now` at which one of the listed clock times comes round. */
  method NextListed(times: seq<nat>, now: int) returns (next: Option<int>)
    requires ClockTimes(times)
    ensures next.None? <==> times == []
    ensures next.Some? ==> next.value > now && IsSlot(times, now, DAY, next.value)
    ensures next.Some? ==> forall g :: now < g < next.value ==> !IsSlot(times, now, DAY, g)
  {
    if |times| == 0 {
      return None;
    }
    var cur := (now - DayStart(now)) / MINUTE;
    var i := 0;
    while i < |times|
      invariant 0 <= i <= |times|
      invariant forall j :: 0 <= j < i ==> times[j] <= cur
    {
      if times[i] > cur {
        next := Some(Epoch(now, times[i]));
        EarlierTimes(times, now, i, next.value);
        return;
      }
      i := i + 1;
    }
    next := Some(Epoch(now, times[0]) + DAY);
    EarlierTimes(times, now, 0, next.value);
  }

  lemma {:induction false} EarlierTimes(times: seq<nat>, now: int, i: nat, next: int)
    requires ClockTimes(times) && i < |times|
    requires var cur := (now - DayStart(now)) / MINUTE;
      || (next == Epoch(now, times[i]) && times[i] > cur && forall j :: 0 <= j < i ==> times[j] <= cur)
      || (next == Epoch(now, times[i]) + DAY && i == 0 && forall j :: 0 <= j < |times| ==> times[j] <= cur)
    ensures next > now && IsSlot(times, now, DAY, next)
    ensures forall g :: now < g < next ==> !IsSlot(times, now, DAY, g)
  {
    DailySlots(now, times[i], next);
    forall g | now < g < next ensures !IsSlot(times, now, DAY, g) {
      forall j | 0 <= j < |times| ensures !OnGrid(Epoch(now, times[j]), DAY, g) {
        DailySlots(now, times[j], g);
        TimesInOrder(times, now, i, j);
      }
    }
  }

  lemma {:induction false} TimesInOrder(times: seq<nat>, now: int, i: nat, j: nat)
    requires ClockTimes(times) && i < |times| && j < |times|
    ensures i <= j ==> Epoch(now, times[i]) <= Epoch(now, times[j])
    ensures Epoch(now, times[i]) < Epoch(now, times[j]) + DAY
  {
  }

  // ---------------------------------------------------------------- one grid or two

  /** Anchors taken on two days give the same grid exactly when the step divides the time between the days' starts. */
  lemma {:induction false} SameGrid(t: int, u: int, anchor: nat, step: int)
    requires step > 0
    ensures (DayStart(u) - DayStart(t)) % step == 0 <==>
      forall g :: OnGrid(Epoch(t, anchor), step, g) <==> OnGrid(Epoch(u, anchor), step, g)
  {
    var d := DayStart(u) - DayStart(t);
    assert Epoch(u, anchor) == Epoch(t, anchor) + d;
    if d % step == 0 {
      forall g ensures OnGrid(Epoch(t, anchor), step, g) <==> OnGrid(Epoch(u, anchor), step, g) {
        ShiftedRemainder(g - Epoch(u, anchor), d, step);
      }
    } else {
      var g := Epoch(u, anchor);
      assert OnGrid(Epoch(u, anchor), step, g) by { RemainderUnique(0, step, 0, 0); }
      assert g - Epoch(t, anchor) == d;
      assert !OnGrid(Epoch(t, anchor), step, g);
    }
  }

  /** Where in a step the anchors fall. */
  function Residues(anchors: seq<nat>, step: int): set<int>
    requires step > 0
  {
    set i | 0 <= i < |anchors| :: anchors[i] * MINUTE % step
  }

  lemma {:induction false} ResidueRange(anchors: seq<nat>, step: int, r: int)
    requires step > 0 && r in Residues(anchors, step)
    ensures 0 <= r < step && r % step == r
  {
    RemainderUnique(r, step, 0, r);
  }

  predicate Lands(residues: set<int>, step: int, d: int, r: int)
    requires step > 0
  {
    (r + d) % step in residues
  }

  /** Moved by `d`, each residue lands on a residue. */
  ghost predicate Closed(residues: set<int>, step: int, d: int)
    requires step > 0
  {
    forall r {:trigger Lands(residues, step, d, r)} :: r in residues ==> Lands(residues, step, d, r)
  }

  lemma {:induction false} SlotResidue(anchors: seq<nat>, t: int, step: int, g: int)
    requires step > 0
    ensures IsSlot(anchors, t, step, g) <==> (g - DayStart(t)) % step in Residues(anchors, step)
  {
    var x := g - DayStart(t);
    forall i | 0 <= i < |anchors|
      ensures OnGrid(Epoch(t, anchors[i]), step, g) <==> x % step == anchors[i] * MINUTE % step
    {
      SameRemainder(x, anchors[i] * MINUTE, step);
      assert g - Epoch(t, anchors[i]) == x - anchors[i] * MINUTE;
    }
  }

  lemma {:induction false} ClosedTimes(residues: set<int>, step: int, d: int, k: nat, r: int)
    requires step > 0 && Closed(residues, step, d) && r in residues && r % step == r
    ensures (r + k * d) % step in residues
    decreases k
  {
    if k > 0 {
      ClosedTimes(residues, step, d, k - 1, r);
      var x := r + (k - 1) * d;
      assert Lands(residues, step, d, x % step);
      RemainderOfSum(x, d, step);
      assert x + d == r + k * d;
    }
  }

  lemma {:induction false} BackByRound(r: int, step: int, d: int)
    requires step > 0
    ensures (r + (step - 1) * d) % step == (r + -d) % step
  {
    assert (step - 1) * d == d * step - d;
    RemainderUnique(d * step, step, d, 0);
    ShiftedRemainder(r - d, d * step, step);
  }

  /** Going round often enough is going back. */
  lemma {:induction false} ClosedBack(residues: set<int>, step: int, d: int)
    requires step > 0 && Closed(residues, step, d) && forall r :: r in residues ==> 0 <= r < step
    ensures Closed(residues, step, -d)
  {
    forall r | r in residues ensures Lands(residues, step, -d, r) {
      RemainderUnique(r, step, 0, r);
      ClosedTimes(residues, step, d, step - 1, r);
      BackByRound(r, step, d);
    }
  }

  lemma {:induction false} MovedSlot(anchors: seq<nat>, t: int, u: int, step: int, g: int)
    requires step > 0 && Closed(Residues(anchors, step), step, DayStart(u) - DayStart(t)) && IsSlot(anchors, u, step, g)
    ensures IsSlot(anchors, t, step, g)
  {
    SlotResidue(anchors, u, step, g);
    SlotResidue(anchors, t, step, g);
    var r, d := (g - DayStart(u)) % step, DayStart(u) - DayStart(t);
    assert Lands(Residues(anchors, step), step, d, r);
    RemainderOfSum(g - DayStart(u), d, step);
    assert g - DayStart(u) + d == g - DayStart(t);
  }

  lemma {:induction false} SameSlotsLand(anchors: seq<nat>, t: int, u: int, step: int, r: int)
    requires step > 0 && r in Residues(anchors, step)
    requires forall g :: IsSlot(anchors, u, step, g) ==> IsSlot(anchors, t, step, g)
    ensures Lands(Residues(anchors, step), step, DayStart(u) - DayStart(t), r)
  {
    var g := DayStart(u) + r;
    ResidueRange(anchors, step, r);
    SlotResidue(anchors, u, step, g);
    SlotResidue(anchors, t, step, g);
    assert g - DayStart(t) == r + (DayStart(u) - DayStart(t));
  }

  lemma {:induction false} ClosedSlots(anchors: seq<nat>, t: int, u: int, step: int)
    requires step > 0 && Closed(Residues(anchors, step), step, DayStart(u) - DayStart(t))
    ensures forall g :: IsSlot(anchors, t, step, g) <==> IsSlot(anchors, u, step, g)
  {
    var residues, d := Residues(anchors, step), DayStart(u) - DayStart(t);
    forall r | r in residues ensures 0 <= r < step {
      ResidueRange(anchors, step, r);
    }
    ClosedBack(residues, step, d);
    assert -d == DayStart(t) - DayStart(u);
    forall g ensures IsSlot(anchors, t, step, g) <==> IsSlot(anchors, u, step, g) {
      if IsSlot(anchors, u, step, g) {
        MovedSlot(anchors, t, u, step, g);
      }
      if IsSlot(anchors, t, step, g) {
        MovedSlot(anchors, u, t, step, g);
      }
    }
  }

  /**
   Anchors taken on two days have the same slots exactly when moving them from day to day puts each on the grid of one
   of them.
   */
  lemma {:induction false} SameSlots(anchors: seq<nat>, t: int, u: int, step: int)
    requires step > 0
    ensures (forall g :: IsSlot(anchors, t, step, g) <==> IsSlot(anchors, u, step, g))
       <==> Closed(Residues(anchors, step), step, DayStart(u) - DayStart(t))
  {
    var residues, d := Residues(anchors, step), DayStart(u) - DayStart(t);
    if Closed(residues, step, d) {
      ClosedSlots(anchors, t, u, step);
    }
    if forall g :: IsSlot(anchors, t, step, g) <==> IsSlot(anchors, u, step, g) {
      forall r | r in residues ensures Lands(residues, step, d, r) {
        SameSlotsLand(anchors, t, u, step, r);
      }
    }
  }

  lemma {:induction false} DividingStepCloses(anchors: seq<nat>, step: int, d: int)
    requires step > 0 && d % step == 0
    ensures Closed(Residues(anchors, step), step, d)
  {
    var residues := Residues(anchors, step);
    forall r | r in residues ensures Lands(residues, step, d, r) {
      ResidueRange(anchors, step, r);
      ShiftedRemainder(r, d, step);
    }
  }

  lemma {:induction false} EvenResidues(anchors: seq<nat>)
    requires anchors == [0, 480]
    ensures Residues(anchors, 960 * MINUTE) == {0, 480 * MINUTE}
  {
    assert anchors[0] * MINUTE % (960 * MINUTE) == 0;
    assert anchors[1] * MINUTE % (960 * MINUTE) == 480 * MINUTE;
  }

  /** The step need not divide the day: 00:00 and 08:00 every sixteen hours have the same slots every day. */
  lemma {:induction false} EvenAnchors()
    ensures Closed(Residues([0, 480], 960 * MINUTE), 960 * MINUTE, DAY) && DAY % (960 * MINUTE) != 0
  {
    EvenResidues([0, 480]);
    var residues := {0, 480 * MINUTE};
    assert Lands(residues, 960 * MINUTE, DAY, 0) && Lands(residues, 960 * MINUTE, DAY, 480 * MINUTE);
  }

  /** A step that divides the day makes every day's grid the same. */
  lemma {:induction false} WholeDaySteps(t: int, u: int, step: int)
    requires step > 0 && DAY % step == 0
    ensures (DayStart(u) - DayStart(t)) % step == 0
  {
    var n, k := u / DAY - t / DAY, DAY / step;
    assert DayStart(u) - DayStart(t) == n * DAY;
    assert DAY == step * k;
    assert n * (step * k) == (n * k) * step;
    RemainderUnique(DayStart(u) - DayStart(t), step, n * k, 0);
  }

  /** The slots of the previous run's day and of today's are the same, in any window. */
  lemma {:induction false} SameWindow(anchors: seq<nat>, prev: int, now: int, step: int, end: int)
    requires step > 0 && Closed(Residues(anchors, step), step, DayStart(now) - DayStart(prev))
    ensures Slots(anchors, prev, step, prev, end) == Slots(anchors, now, step, prev, end)
  {
    SameSlots(anchors, prev, now, step);
  }

  /** All slots before the next one are past or due now. */
  ghost predicate PastOrDue(slots: set<int>, prev: int, now: int) {
    forall g {:trigger g in slots} :: g in slots ==> prev < g <= now
  }

  /**
   What the scheduler reports before it waits for the next slot: when the days share their slots, the
   number of today's slots that lie strictly between the previous run and the next one.
   */
  method ReportMissed(anchors: seq<nat>, intervalMin: int, prev: int, now: int)
    returns (wait: int, missed: nat, samples: seq<int>)
    requires anchors != [] && intervalMin > 0
    ensures var step := intervalMin * MINUTE; 0 < wait <= step && IsSlot(anchors, now, step, now + wait)
    ensures var step := intervalMin * MINUTE; var slots := Slots(anchors, now, step, prev, now + wait);
      && PastOrDue(slots, prev, now)
      && (Closed(Residues(anchors, step), step, DayStart(now) - DayStart(prev)) ==>
        missed == |slots| && SamplesOf(samples, slots))
  {
    wait := NextAnchoredDuration(anchors, intervalMin, now);
    missed, samples := MissedGridPoints(anchors, intervalMin, prev, now + wait);
    ghost var step := intervalMin * MINUTE;
    if Closed(Residues(anchors, step), step, DayStart(now) - DayStart(prev)) {
      SameWindow(anchors, prev, now, step, now + wait);
    }
    if now + wait <= prev {
      assert Slots(anchors, now, step, prev, now + wait) == {};
    }
  }
}
