/**
 What a written cron field means: values, ranges and steps joined by commas, told apart from the text that spells them.
 */
module CronFields {
  import opened Sequences
  import opened Cron
  import opened Decimals

  datatype Atom =
    | One(n: nat)
    | Range(lo: nat, hi: nat)
    | Every(step: nat)
    | From(start: nat, step: nat)

  function Text(a: Atom): string {
    match a
    case One(n) => Decimal(n)
    case Range(lo, hi) => Decimal(lo) + "-" + Decimal(hi)
    case Every(step) => "*/" + Decimal(step)
    case From(start, step) => Decimal(start) + "/" + Decimal(step)
  }

  /** The values an atom stands for, `min` being the least value of its field. */
  predicate Denotes(a: Atom, val: int, min: int) {
    match a
    case One(n) => val == n
    case Range(lo, hi) => lo <= val <= hi
    case Every(step) => step > 0 && (val - min) % step == 0
    case From(start, step) => step > 0 && val >= start && (val - start) % step == 0
  }

  predicate InBounds(a: Atom, min: int, max: int) {
    match a
    case One(n) => min <= n <= max
    case Range(lo, hi) => min <= lo <= hi <= max
    case Every(step) => step > 0
    case From(start, step) => step > 0 && min <= start <= max
  }

  /** The numbers of the atom fit the machine's integers. */
  predicate Fits(a: Atom) {
    match a
    case One(n) => n <= MAX_INT
    case Range(lo, hi) => lo <= MAX_INT && hi <= MAX_INT
    case Every(step) => step <= MAX_INT
    case From(start, step) => start <= MAX_INT && step <= MAX_INT
  }

  lemma {:induction false} CutAt(a: string, c: char, b: string)
    requires c !in a
    ensures Cut(a + [c] + b, c) == (a, b)
  {
    var s := a + [c] + b;
    if a == "" {
      assert s[1..] == b;
    } else {
      assert s[0] == a[0] && s[1..] == a[1..] + [c] + b;
      CutAt(a[1..], c, b);
      assert a == [a[0]] + a[1..];
    }
  }

  /** The two sides of the separator come back. */
  lemma {:induction false} CutDecimal(n: nat, c: char, m: nat)
    requires !IsDigit(c) && n <= MAX_INT && m <= MAX_INT
    ensures Cut(Decimal(n) + [c] + Decimal(m), c) == (Decimal(n), Decimal(m))
    ensures Atoi(Decimal(n)) == Some(n) && Atoi(Decimal(m)) == Some(m) && Decimal(n) != "*"
    ensures forall x :: x in Decimal(n) + [c] + Decimal(m) ==> IsDigit(x) || x == c
  {
    DigitsHold(Decimal(n), c);
    CutAt(Decimal(n), c, Decimal(m));
  }

  ghost predicate AtomText(s: string) {
    forall i :: 0 <= i < |s| ==> ValidChar(s[i]) && s[i] != ','
  }

  lemma {:induction false} AtomTextConcat(a: string, b: string)
    requires AtomText(a) && AtomText(b)
    ensures AtomText(a + b)
  {
  }

  lemma {:induction false} AtomTexts(a: Atom)
    ensures AtomText(Text(a))
  {
    match a {
      case One(n) =>
      case Range(lo, hi) =>
        AtomTextConcat(Decimal(lo), "-");
        AtomTextConcat(Decimal(lo) + "-", Decimal(hi));
      case Every(step) =>
        AtomTextConcat("*/", Decimal(step));
      case From(start, step) =>
        AtomTextConcat(Decimal(start), "/");
        AtomTextConcat(Decimal(start) + "/", Decimal(step));
    }
  }

  lemma {:induction false} NotStar(a: Atom)
    ensures Text(a) != "" && Text(a) != "*"
  {
    assert |"*"| == 1 && "*"[0] == '*' && !IsDigit('*');
  }

  /** Atoms are spelt with digits, stars, dashes and slashes. */
  lemma {:induction false} AtomChars(a: Atom)
    ensures Text(a) != "" && IsAtom(Text(a))
    ensures forall i :: 0 <= i < |Text(a)| ==> ValidChar(Text(a)[i])
  {
    AtomTexts(a);
    NotStar(a);
  }

  /** The matcher gives a written atom its meaning, and the validator accepts it exactly when it is in bounds. */
  lemma {:induction false} AtomMeaning(a: Atom, val: int, min: int, max: int)
    requires Fits(a)
    ensures FieldMatch(Text(a), val, min) <==> Denotes(a, val, min)
    ensures ValidAtom(Text(a), min, max) <==> InBounds(a, min, max)
  {
    AtomChars(a);
    match a {
      case One(n) => OneMeaning(n, val, min, max);
      case Range(lo, hi) => CutDecimal(lo, '-', hi);
      case Every(step) => EveryMeaning(step, val, min, max);
      case From(start, step) => CutDecimal(start, '/', step);
    }
  }

  lemma {:induction false} OneMeaning(n: nat, val: int, min: int, max: int)
    requires n <= MAX_INT
    ensures FieldMatch(Text(One(n)), val, min) <==> val == n
    ensures ValidAtom(Text(One(n)), min, max) <==> min <= n <= max
  {
    AtomChars(One(n));
    DigitsHold(Decimal(n), '/');
    DigitsHold(Decimal(n), '-');
  }

  lemma {:induction false} EveryMeaning(step: nat, val: int, min: int, max: int)
    requires step <= MAX_INT
    ensures FieldMatch(Text(Every(step)), val, min) <==> step > 0 && (val - min) % step == 0
    ensures ValidAtom(Text(Every(step)), min, max) <==> step > 0
  {
    AtomChars(Every(step));
    assert "*/" + Decimal(step) == "*" + ['/'] + Decimal(step);
    CutAt("*", '/', Decimal(step));
  }

  // ---------------------------------------------------------------- lists

  function Texts(atoms: seq<Atom>): (r: seq<string>)
    ensures |r| == |atoms| && forall i :: 0 <= i < |r| ==> r[i] == Text(atoms[i])
  {
    seq(|atoms|, i requires 0 <= i < |atoms| => Text(atoms[i]))
  }

  lemma {:induction false} SplitJoin(parts: seq<string>)
    requires |parts| > 0 && forall i :: 0 <= i < |parts| ==> ',' !in parts[i]
    ensures Split(Join(parts, ","), ',') == parts
    ensures ',' in Join(parts, ",") <==> |parts| > 1
  {
    if |parts| == 1 {
      assert parts == [parts[0]];
    } else {
      SplitJoin(parts[1..]);
      CutAt(parts[0], ',', Join(parts[1..], ","));
      assert parts == [parts[0]] + parts[1..];
      assert Join(parts, ",")[|parts[0]|] == ',';
    }
  }

  lemma {:induction false} JoinChars(parts: seq<string>)
    requires |parts| > 0
    requires forall i, j :: 0 <= i < |parts| && 0 <= j < |parts[i]| ==> ValidChar(parts[i][j])
    ensures forall j :: 0 <= j < |Join(parts, ",")| ==> ValidChar(Join(parts, ",")[j])
    ensures |parts[0]| <= |Join(parts, ",")|
  {
    if |parts| > 1 {
      JoinChars(parts[1..]);
    }
  }

  /** A field written as a list of atoms. */
  function FieldText(atoms: seq<Atom>): string
    requires |atoms| > 0
  {
    Join(Texts(atoms), ",")
  }

  lemma {:induction false} FieldParts(atoms: seq<Atom>)
    requires |atoms| > 0
    ensures Split(FieldText(atoms), ',') == Texts(atoms)
    ensures ',' in FieldText(atoms) <==> |atoms| > 1
    ensures FieldText(atoms) != "" && FieldText(atoms) != "*" && !HasQuote(FieldText(atoms))
    ensures forall j :: 0 <= j < |FieldText(atoms)| ==> ValidChar(FieldText(atoms)[j])
    ensures |atoms| == 1 ==> FieldText(atoms) == Text(atoms[0])
  {
    var parts := Texts(atoms);
    forall i | 0 <= i < |parts|
      ensures ',' !in parts[i] && forall j :: 0 <= j < |parts[i]| ==> ValidChar(parts[i][j])
    {
      AtomChars(atoms[i]);
    }
    AtomChars(atoms[0]);
    SplitJoin(parts);
    JoinChars(parts);
  }

  /** A written list matches exactly the values its atoms stand for, in both matchers. */
  lemma {:induction false} FieldMeaning(atoms: seq<Atom>, val: int, min: int)
    requires |atoms| > 0 && forall i :: 0 <= i < |atoms| ==> Fits(atoms[i])
    ensures FieldMatch(FieldText(atoms), val, min) <==> exists i :: 0 <= i < |atoms| && Denotes(atoms[i], val, min)
    ensures CronFieldMatch(FieldText(atoms), val, min) <==> FieldMatch(FieldText(atoms), val, min)
  {
    var field, parts := FieldText(atoms), Texts(atoms);
    FieldParts(atoms);
    MatchersAgree(field, val, min);
    forall i | 0 <= i < |atoms| ensures FieldMatch(parts[i], val, min) <==> Denotes(atoms[i], val, min) {
      AtomMeaning(atoms[i], val, min, min);
    }
    if |atoms| > 1 {
      assert FieldMatch(field, val, min) <==> exists i :: 0 <= i < |parts| && FieldMatch(parts[i], val, min);
    } else {
      assert Denotes(atoms[0], val, min) <==> FieldMatch(field, val, min);
    }
  }

  ghost predicate AllInBounds(atoms: seq<Atom>, min: int, max: int) {
    forall i :: 0 <= i < |atoms| ==> InBounds(atoms[i], min, max)
  }

  lemma {:induction false} ListAccepted(atoms: seq<Atom>, min: int, max: int)
    requires forall i :: 0 <= i < |atoms| ==> Fits(atoms[i])
    ensures ValidList(Texts(atoms), min, max) <==> AllInBounds(atoms, min, max)
  {
    var parts := Texts(atoms);
    forall i | 0 <= i < |atoms|
      ensures parts[i] != "" && (ValidAtom(parts[i], min, max) <==> InBounds(atoms[i], min, max))
    {
      AtomMeaning(atoms[i], min, min, max);
      AtomChars(atoms[i]);
    }
  }

  /** The validator accepts a written list exactly when every atom is in bounds. */
  lemma {:induction false} FieldAccepted(atoms: seq<Atom>, min: int, max: int)
    requires |atoms| > 0 && forall i :: 0 <= i < |atoms| ==> Fits(atoms[i])
    ensures ValidField(FieldText(atoms), min, max) <==> AllInBounds(atoms, min, max)
  {
    FieldParts(atoms);
    ListAccepted(atoms, min, max);
    if |atoms| == 1 {
      AtomMeaning(atoms[0], min, min, max);
    }
  }
}
