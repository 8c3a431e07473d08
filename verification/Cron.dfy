/** Cron expressions: what the validator accepts, what the two matchers make of it, and when a schedule next fires. */
module Cron {
  import opened AnchoredGrid
  import opened Decimals
  import opened Remainders
  import opened Sequences

  // ---------------------------------------------------------------- text

  const MAX_INT := 0x7fff_ffff_ffff_ffff

  /** Go's Atoi on a 64-bit machine. */
  function Atoi(s: string): Option<int> {
    if AllDigits(s) then (if DecimalValue(s) <= MAX_INT then Some(DecimalValue(s)) else None)
    else if s != "" && s[0] in {'+', '-'} && AllDigits(s[1..]) then
      var n: int := DecimalValue(s[1..]);
      if s[0] == '+' then (if n <= MAX_INT then Some(n) else None)
      else if n <= MAX_INT + 1 then Some(-n) else None
    else None
  }

  /** The text before and after the first `c`. */
  function Cut(s: string, c: char): (r: (string, string))
    requires c in s
    ensures s == r.0 + [c] + r.1 && c !in r.0
  {
    if s[0] == c then
      assert s == [] + [c] + s[1..];
      ("", s[1..])
    else
      var r := Cut(s[1..], c);
      assert s == [s[0]] + s[1..];
      ([s[0]] + r.0, r.1)
  }

  function Split(s: string, c: char): (parts: seq<string>)
    ensures |parts| > 0
    ensures forall i :: 0 <= i < |parts| ==> c !in parts[i] && |parts[i]| <= |s| && (c in s ==> |parts[i]| < |s|)
    ensures forall i, x :: 0 <= i < |parts| && x in parts[i] ==> x in s
    decreases |s|
  {
    if c in s then [Cut(s, c).0] + Split(Cut(s, c).1, c) else [s]
  }

  // ---------------------------------------------------------------- matching one field

  predicate HasQuote(s: string) {
    '"' in s || '\'' in s
  }

  /** The scheduler's matcher. */
  predicate FieldMatch(field: string, val: int, min: int)
    decreases |field|
  {
    if field == "*" then true
    else if HasQuote(field) then false
    else if ',' in field then
      var parts := Split(field, ',');
      exists i :: 0 <= i < |parts| && FieldMatch(parts[i], val, min)
    else if '/' in field then
      var (base, every) := Cut(field, '/');
      var step := Atoi(every);
      if step.None? || step.value <= 0 then false
      else if base == "*" then (val - min) % step.value == 0
      else
        var start := Atoi(base);
        start.Some? && val >= start.value && (val - start.value) % step.value == 0
    else if '-' in field then
      var a, b := Atoi(Cut(field, '-').0), Atoi(Cut(field, '-').1);
      a.Some? && b.Some? && val >= a.value && val <= b.value
    else
      var n := Atoi(field);
      n.Some? && val == n.value
  }

  /** The two numbers of a range. */
  function ParseRange(s: string): Option<(int, int)> {
    if '-' !in s then None
    else
      var (lo, hi) := Cut(s, '-');
      if Atoi(lo).None? || Atoi(hi).None? then None else Some((Atoi(lo).value, Atoi(hi).value))
  }

  /** The configuration's matcher. */
  predicate CronFieldMatch(field: string, val: int, min: int)
    decreases |field|
  {
    if field == "*" then true
    else if ',' in field then
      var parts := Split(field, ',');
      exists i :: 0 <= i < |parts| && CronFieldMatch(parts[i], val, min)
    else if '/' in field then
      var (base, every) := Cut(field, '/');
      var step := Atoi(every);
      if step.None? || step.value <= 0 then false
      else if base == "*" then (val - min) % step.value == 0
      else
        var start := Atoi(base);
        start.Some? && val >= start.value && (val - start.value) % step.value == 0
    else if '-' in field then
      var range := ParseRange(field);
      range.Some? && val >= range.value.0 && val <= range.value.1
    else
      var n := Atoi(field);
      n.Some? && val == n.value
  }

  /** The two matchers differ in one thing: the scheduler rejects a field with a quote in it. */
  lemma {:induction false} MatchersAgree(field: string, val: int, min: int)
    ensures FieldMatch(field, val, min) <==> CronFieldMatch(field, val, min) && !HasQuote(field)
    decreases |field|
  {
    if ',' in field && !HasQuote(field) {
      ListsAgree(field, val, min);
    }
  }

  lemma {:induction false} ListsAgree(field: string, val: int, min: int)
    requires ',' in field && !HasQuote(field)
    ensures FieldMatch(field, val, min) <==> CronFieldMatch(field, val, min)
    decreases |field|, 0
  {
    var parts := Split(field, ',');
    forall i | 0 <= i < |parts| ensures FieldMatch(parts[i], val, min) <==> CronFieldMatch(parts[i], val, min) {
      MatchersAgree(parts[i], val, min);
      assert !HasQuote(parts[i]);
    }
  }

  // ---------------------------------------------------------------- validation

  predicate ValidChar(c: char) {
    IsDigit(c) || c in {'*', ',', '-', '/'}
  }

  predicate ValidAtom(atom: string, min: int, max: int) {
    if '/' in atom then
      var (base, every) := Cut(atom, '/');
      && every != "" && Atoi(every).Some? && Atoi(every).value > 0
      && (base == "*" || (Atoi(base).Some? && min <= Atoi(base).value <= max))
    else if '-' in atom then
      var range := ParseRange(atom);
      range.Some? && min <= range.value.0 <= range.value.1 <= max
    else Atoi(atom).Some? && min <= Atoi(atom).value <= max
  }

  predicate ValidList(atoms: seq<string>, min: int, max: int) {
    forall i :: 0 <= i < |atoms| ==> atoms[i] != "" && ValidAtom(atoms[i], min, max)
  }

  predicate ValidField(field: string, min: int, max: int) {
    && field != "" && (forall i :: 0 <= i < |field| ==> ValidChar(field[i]))
    && (field == "*" || if ',' in field then ValidList(Split(field, ','), min, max) else ValidAtom(field, min, max))
  }

  lemma {:induction false} ZeroRemainder(step: int)
    requires step > 0
    ensures 0 % step == 0
  {
  }

  /** Without commas and quotes a field is one atom. */
  predicate IsAtom(s: string) {
    ',' !in s && !HasQuote(s) && s != "*"
  }

  lemma {:induction false} StepMatchable(atom: string, min: int, max: int) returns (val: int)
    requires IsAtom(atom) && '/' in atom && ValidAtom(atom, min, max) && min <= max
    ensures min <= val <= max && FieldMatch(atom, val, min)
  {
    var (base, every) := Cut(atom, '/');
    val := if base == "*" then min else Atoi(base).value;
    ZeroRemainder(Atoi(every).value);
    assert val - min == 0 || base != "*";
  }

  lemma {:induction false} AtomMatchable(atom: string, min: int, max: int) returns (val: int)
    requires ',' !in atom && !HasQuote(atom) && ValidAtom(atom, min, max) && min <= max
    ensures min <= val <= max && FieldMatch(atom, val, min)
  {
    if '/' in atom {
      val := StepMatchable(atom, min, max);
    } else if '-' in atom {
      val := ParseRange(atom).value.0;
    } else {
      val := Atoi(atom).value;
    }
  }

  /** Every accepted field is matched by some value in range, by both matchers. */
  lemma {:induction false} AcceptedIsMatchable(field: string, min: int, max: int) returns (val: int)
    requires ValidField(field, min, max) && min <= max
    ensures min <= val <= max && FieldMatch(field, val, min) && CronFieldMatch(field, val, min)
  {
    NoQuotes(field, min, max);
    if field == "*" {
      val := min;
    } else if ',' in field {
      var parts := Split(field, ',');
      assert !HasQuote(parts[0]);
      val := AtomMatchable(parts[0], min, max);
    } else {
      val := AtomMatchable(field, min, max);
    }
    MatchersAgree(field, val, min);
  }

  lemma {:induction false} NoQuotes(field: string, min: int, max: int)
    requires ValidField(field, min, max)
    ensures !HasQuote(field)
  {
  }

  /** On accepted fields the two matchers agree. */
  lemma {:induction false} AcceptedAgree(field: string, val: int, min: int, max: int)
    requires ValidField(field, min, max)
    ensures FieldMatch(field, val, min) <==> CronFieldMatch(field, val, min)
  {
    NoQuotes(field, min, max);
    MatchersAgree(field, val, min);
  }

  // ---------------------------------------------------------------- the next firing

  const HORIZON := 525600
  const WEEK := 10080

  /** The day of the month and the month of a minute, left to the calendar. */
  datatype Calendar = Calendar(day: nat -> int, month: nat -> int)

  /** Minutes are counted from midnight of Thursday 1 January 1970. */
  function MinuteOf(m: nat): int { m % 60 }

  function HourOf(m: nat): int { m / 60 % 24 }

  function WeekdayOf(m: nat): int { (m / 1440 + 4) % 7 }

  predicate CronMatch(cal: Calendar, fields: seq<string>, m: nat) {
    && |fields| == 5
    && FieldMatch(fields[0], MinuteOf(m), 0)
    && FieldMatch(fields[1], HourOf(m), 0)
    && FieldMatch(fields[2], cal.day(m), 1)
    && FieldMatch(fields[3], cal.month(m), 1)
    && FieldMatch(fields[4], WeekdayOf(m), 0)
  }

  /** What the configuration accepts. */
  predicate ValidCron(fields: seq<string>) {
    && |fields| == 5
    && ValidField(fields[0], 0, 59)
    && ValidField(fields[1], 0, 23)
    && ValidField(fields[2], 1, 31)
    && ValidField(fields[3], 1, 12)
    && ValidField(fields[4], 0, 6)
  }

  predicate AnyDate(fields: seq<string>) {
    |fields| == 5 && fields[2] == "*" && fields[3] == "*"
  }

  lemma {:induction false} MinuteMark(now: nat, m: nat)
    requires now / MINUTE < m
    ensures now < m * MINUTE && m * MINUTE % MINUTE == 0 && m * MINUTE / MINUTE == m
  {
  }

  /** No minute after `lo` and before `hi` is due. */
  ghost predicate NoneDue(due: nat -> bool, lo: int, hi: int) {
    forall m: nat :: lo < m < hi ==> !due(m)
  }

  /**
   The search loop, for any set of due minutes: the distance to the first one after `now`, or 0 if none is within the
   horizon.
   */
  method FirstDue(due: nat -> bool, now: nat) returns (d: int)
    ensures d != 0 ==>
      d > 0 && (now + d) % MINUTE == 0 && due((now + d) / MINUTE) && NoneDue(due, now / MINUTE, (now + d) / MINUTE)
    ensures d == 0 <==> NoneDue(due, now / MINUTE, now / MINUTE + HORIZON + 1)
  {
    var first := now / MINUTE + 1;
    var next := first;
    var i := 0;
    while i < HORIZON
      invariant 0 <= i <= HORIZON && next == first + i
      invariant NoneDue(due, now / MINUTE, next)
    {
      if due(next) {
        d := next * MINUTE - now;
        MinuteMark(now, next);
        return;
      }
      next := next + 1;
      i := i + 1;
    }
    d := 0;
  }

  /** A due minute within the horizon bounds the distance found. */
  lemma {:induction false} FoundBy(due: nat -> bool, now: nat, d: int, m: nat)
    requires now / MINUTE < m <= now / MINUTE + HORIZON && due(m)
    requires d != 0 ==> d > 0 && (now + d) % MINUTE == 0 && NoneDue(due, now / MINUTE, (now + d) / MINUTE)
    requires d == 0 <==> NoneDue(due, now / MINUTE, now / MINUTE + HORIZON + 1)
    ensures 0 < d && now + d <= m * MINUTE
  {
  }

  ghost predicate NoneMatch(cal: Calendar, fields: seq<string>, lo: int, hi: int) {
    forall m: nat :: lo < m < hi ==> !CronMatch(cal, fields, m)
  }

  lemma {:induction false} NoneDueMatch(cal: Calendar, fields: seq<string>, due: nat -> bool, lo: int, hi: int)
    requires forall m: nat :: due(m) <==> CronMatch(cal, fields, m)
    ensures NoneDue(due, lo, hi) <==> NoneMatch(cal, fields, lo, hi)
  {
  }

  /** How long from `now` to the next matching minute; 0 when none of the next 525600 matches. */
  method NextCronAt(cal: Calendar, fields: seq<string>, now: nat) returns (d: int)
    ensures d != 0 ==> d > 0 && (now + d) % MINUTE == 0 && CronMatch(cal, fields, (now + d) / MINUTE)
    ensures d != 0 ==> NoneMatch(cal, fields, now / MINUTE, (now + d) / MINUTE)
    ensures d == 0 <==> NoneMatch(cal, fields, now / MINUTE, now / MINUTE + HORIZON + 1)
    ensures ValidCron(fields) && AnyDate(fields) ==> 0 < d <= WEEK * MINUTE
  {
    var due := (m: nat) => CronMatch(cal, fields, m);
    d := FirstDue(due, now);
    NoneDueMatch(cal, fields, due, now / MINUTE, (now + d) / MINUTE);
    NoneDueMatch(cal, fields, due, now / MINUTE, now / MINUTE + HORIZON + 1);
    if ValidCron(fields) && AnyDate(fields) {
      FoundWithinAWeek(cal, fields, due, now, d);
    }
  }

  lemma {:induction false} FoundWithinAWeek(cal: Calendar, fields: seq<string>, due: nat -> bool, now: nat, d: int)
    requires ValidCron(fields) && AnyDate(fields) && forall m: nat :: due(m) <==> CronMatch(cal, fields, m)
    requires d != 0 ==> d > 0 && (now + d) % MINUTE == 0 && NoneDue(due, now / MINUTE, (now + d) / MINUTE)
    requires d == 0 <==> NoneDue(due, now / MINUTE, now / MINUTE + HORIZON + 1)
    ensures 0 < d <= WEEK * MINUTE
  {
    var m := FiresWithinAWeek(cal, fields, now);
    FoundBy(due, now, d, m);
  }

  /** A week has a minute for every weekday, hour and minute of the hour. */
  lemma {:induction false} MinuteInWeek(n: nat, minute: nat, hour: nat, weekday: nat) returns (m: nat)
    requires minute < 60 && hour < 24 && weekday < 7
    ensures n < m <= n + WEEK
    ensures MinuteOf(m) == minute && HourOf(m) == hour && WeekdayOf(m) == weekday
  {
    var day := if weekday < 4 then weekday + 3 else weekday - 4;
    var target := (day * 24 + hour) * 60 + minute;
    var k := (n - target) / WEEK + 1;
    var x := target + k * WEEK;
    assert n < x <= n + WEEK;
    m := x;
    ClockAt(m, k * 7 + day, hour, minute);
    RemainderUnique(k * 7 + day + 4, 7, if weekday < 4 then k + 1 else k, weekday);
  }

  /** The clock shows what the minute is made of. */
  lemma {:induction false} ClockAt(m: nat, days: int, hour: nat, minute: nat)
    requires m == (days * 24 + hour) * 60 + minute && hour < 24 && minute < 60
    ensures MinuteOf(m) == minute && HourOf(m) == hour && m / 1440 == days
  {
    RemainderUnique(m, 60, days * 24 + hour, minute);
    RemainderUnique(days * 24 + hour, 24, days, hour);
    RemainderUnique(m, 1440, days, hour * 60 + minute);
  }

  /** An accepted expression with day and month free fires within seven days. */
  lemma {:induction false} FiresWithinAWeek(cal: Calendar, fields: seq<string>, now: nat) returns (m: nat)
    requires ValidCron(fields) && AnyDate(fields)
    ensures now < m * MINUTE <= now + WEEK * MINUTE && CronMatch(cal, fields, m)
    ensures now / MINUTE < m <= now / MINUTE + HORIZON
  {
    var minute := AcceptedIsMatchable(fields[0], 0, 59);
    var hour := AcceptedIsMatchable(fields[1], 0, 23);
    var weekday := AcceptedIsMatchable(fields[4], 0, 6);
    m := MinuteInWeek(now / MINUTE, minute, hour, weekday);
  }
}
