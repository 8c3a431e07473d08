/**
 Retargeting a statement to another database on restore. Texts are byte strings here (a
 character is a byte); `up` is Go's ToUpper on them and `edit` the regular-expression
 replacements, of which nothing is assumed.
 */
module SqlRewrite {
  import opened Sequences

  predicate IsAscii(s: string) {
    forall i :: 0 <= i < |s| ==> s[i] < '\U{80}'
  }

  function AsciiUpperChar(c: char): char {
    if 'a' <= c <= 'z' then c - 'a' + 'A' else c
  }

  function AsciiUpper(s: string): (r: string)
    ensures |r| == |s| && forall i :: 0 <= i < |s| ==> r[i] == AsciiUpperChar(s[i])
  {
    seq(|s|, i requires 0 <= i < |s| => AsciiUpperChar(s[i]))
  }

  /** Upper case works on each side of ASCII text alone and keeps the ASCII text's length. */
  ghost predicate UpperLaw(up: string -> string) {
    && up("") == ""
    && forall a: string, b: string, c: string :: IsAscii(b) && b != "" ==>
      up(a + b + c) == up(a) + AsciiUpper(b) + up(c)
  }

  predicate IsWordChar(c: char) {
    c == '_' || c == '$' || 'a' <= c <= 'z' || 'A' <= c <= 'Z' || '0' <= c <= '9'
  }

  // ---------------------------------------------------------------- the end of an INSERT's head

  /** The word VALUES stands at `i`, not inside a longer word. */
  predicate ValuesAt(upper: string, i: nat) {
    && i + 6 <= |upper| && upper[i..i + 6] == "VALUES"
    && (i > 0 ==> !IsWordChar(upper[i - 1]))
    && (i + 6 < |upper| ==> !IsWordChar(upper[i + 6]))
  }

  /** The first such position from `i` on, or -1. */
  function FirstValues(upper: string, i: nat): int
    decreases |upper| - i
  {
    if i + 6 > |upper| then -1 else if ValuesAt(upper, i) then i else FirstValues(upper, i + 1)
  }

  method InsertHeaderEnd(up: string -> string, stmt: string) returns (idx: int)
    ensures idx == FirstValues(up(stmt), 0)
  {
    var upper := up(stmt);
    var i := 0;
    while i + 6 <= |upper|
      invariant 0 <= i
      invariant FirstValues(upper, i) == FirstValues(upper, 0)
    {
      if upper[i..i + 6] != "VALUES" {
        i := i + 1;
        continue;
      }
      if i > 0 && IsWordChar(upper[i - 1]) {
        i := i + 1;
        continue;
      }
      if i + 6 < |upper| && IsWordChar(upper[i + 6]) {
        i := i + 1;
        continue;
      }
      return i;
    }
    return -1;
  }

  lemma {:induction false} FirstIsFirst(upper: string, i: nat, p: nat)
    requires i <= p && ValuesAt(upper, p)
    ensures i <= FirstValues(upper, i) <= p && ValuesAt(upper, FirstValues(upper, i))
    decreases p - i
  {
    if !ValuesAt(upper, i) {
      FirstIsFirst(upper, i + 1, p);
    }
  }

  // ---------------------------------------------------------------- is it an INSERT

  predicate IsBlank(c: char) {
    c in {' ', '\t', '\r', '\n'}
  }

  function TrimBlanks(s: string): (r: string)
    ensures |r| <= |s|
  {
    if s != "" && IsBlank(s[0]) then TrimBlanks(s[1..]) else s
  }

  /** The text after the first `sub`, if there is one. */
  function After(s: string, sub: string): (r: Option<string>)
    requires sub != ""
    ensures r.Some? ==> |r.value| < |s|
  {
    if |s| < |sub| then None
    else if sub <= s then Some(s[|sub|..])
    else After(s[1..], sub)
  }

  predicate StartsInsert(up: string -> string, t: string) {
    |t| >= 6 && up(t[..6]) == "INSERT" && (|t| == 6 || !IsWordChar(t[6]))
  }

  /** The first word after blanks and comments is INSERT. */
  predicate IsInsert(up: string -> string, s: string)
    decreases |s|
  {
    var t := TrimBlanks(s);
    if "--" <= t || "#" <= t then
      var rest := After(t, "\n");
      rest.Some? && IsInsert(up, rest.value)
    else if "/*" <= t then
      var rest := After(t[2..], "*/");
      rest.Some? && IsInsert(up, rest.value)
    else StartsInsert(up, t)
  }

  /** The dumper's batches are recognised, and so are they after the comment lines it writes before them. */
  lemma {:induction false} InsertRecognised(up: string -> string, rest: string)
    requires UpperLaw(up) && rest != "" && !IsWordChar(rest[0])
    ensures IsInsert(up, "INSERT" + rest)
  {
    var t := "INSERT" + rest;
    assert t[0] == 'I' && t[..6] == "INSERT" && t[6] == rest[0];
    AsciiHead(up, "INSERT");
    assert AsciiUpper("INSERT") == "INSERT";
  }

  lemma {:induction false} CommentSkipped(up: string -> string, comment: string, s: string)
    requires '\n' !in comment
    ensures IsInsert(up, "--" + comment + "\n" + s) == IsInsert(up, s)
  {
    var t := "--" + comment + "\n" + s;
    assert t[0] == '-' && t[1] == '-' && "--" <= t;
    assert TrimBlanks(t) == t;
    assert t == ("--" + comment) + ("\n" + s);
    AfterNewline("--" + comment, s);
  }

  lemma {:induction false} AfterNewline(a: string, s: string)
    requires '\n' !in a
    ensures After(a + ("\n" + s), "\n") == Some(s)
  {
    var t := a + ("\n" + s);
    if a == "" {
      assert t == "\n" + s && t[1..] == s && "\n" <= t;
    } else {
      assert t[0] == a[0] != '\n' && t[1..] == a[1..] + ("\n" + s);
      AfterNewline(a[1..], s);
    }
  }

  method IsInsertStmt(up: string -> string, stmt: string) returns (r: bool)
    ensures r == IsInsert(up, stmt)
  {
    var s := stmt;
    while true
      invariant IsInsert(up, s) == IsInsert(up, stmt)
      decreases |s|
    {
      var t := TrimBlanks(s);
      if "--" <= t || "#" <= t {
        var rest := After(t, "\n");
        if rest.None? {
          return false;
        }
        s := rest.value;
        continue;
      }
      if "/*" <= t {
        var rest := After(t[2..], "*/");
        if rest.None? {
          return false;
        }
        s := rest.value;
        continue;
      }
      return StartsInsert(up, t);
    }
  }

  // ---------------------------------------------------------------- the rewrite

  /** Cutting the text where its upper-case form has VALUES can miss the end of the text; the program then panics. */
  datatype Outcome = Text(text: string) | OutOfRange

  /** `edit` retargets names and `strip` removes DEFINER clauses; an INSERT is edited only before its VALUES. */
  function Rewrite(up: string -> string, edit: string -> string, strip: string -> string, stmt: string,
      target: string): Outcome {
    var idx := FirstValues(up(stmt), 0);
    if !IsInsert(up, stmt) then Text(strip(if target != "" then edit(stmt) else stmt))
    else if target == "" then Text(stmt)
    else if idx < 0 then Text(edit(stmt))
    else if idx > |stmt| then OutOfRange
    else Text(edit(stmt[..idx]) + stmt[idx..])
  }

  method RewriteStatement(up: string -> string, edit: string -> string, strip: string -> string, stmt: string,
      target: string)
    returns (r: Outcome)
    ensures r == Rewrite(up, edit, strip, stmt, target)
  {
    var isInsert := IsInsertStmt(up, stmt);
    var scope, tail := stmt, "";
    if isInsert && target != "" {
      var idx := InsertHeaderEnd(up, stmt);
      if idx >= 0 {
        if idx > |stmt| {
          return OutOfRange;
        }
        scope, tail := stmt[..idx], stmt[idx..];
      }
    }
    if target != "" {
      scope := edit(scope);
    }
    if !isInsert {
      scope := strip(scope);
    }
    assert tail == "" ==> scope + tail == scope;
    r := Text(scope + tail);
  }

  // ---------------------------------------------------------------- what an INSERT keeps

  /** A statement cut at its VALUES keyword: `head` before it, `rest` after it. */
  ghost predicate CutAtValues(head: string, keyword: string, rest: string) {
    && |keyword| == 6 && IsAscii(keyword) && AsciiUpper(keyword) == "VALUES"
    && rest != "" && rest[0] < '\U{80}' && !IsWordChar(rest[0])
  }

  lemma {:induction false} UpperOfCut(up: string -> string, head: string, keyword: string, rest: string)
    requires UpperLaw(up) && CutAtValues(head, keyword, rest)
    ensures exists t :: up(head + keyword + rest) == up(head) + "VALUES" + [rest[0]] + t
  {
    var x := [rest[0]];
    assert rest == "" + x + rest[1..];
    assert up(rest) == up("") + AsciiUpper(x) + up(rest[1..]);
    assert AsciiUpper(x) == x;
    assert up(head + keyword + rest) == up(head) + AsciiUpper(keyword) + up(rest);
    assert up(head) + "VALUES" + ("" + x + up(rest[1..])) == up(head) + "VALUES" + x + up(rest[1..]);
  }

  /** The keyword is found where upper-casing the head puts it, or there is an earlier VALUES. */
  lemma {:induction false} FoundByKeyword(up: string -> string, head: string, keyword: string, rest: string)
    requires UpperLaw(up) && CutAtValues(head, keyword, rest)
    requires up(head) == "" || !IsWordChar(up(head)[|up(head)| - 1])
    ensures 0 <= FirstValues(up(head + keyword + rest), 0) <= |up(head)|
  {
    var upper := up(head + keyword + rest);
    UpperOfCut(up, head, keyword, rest);
    var t :| upper == up(head) + "VALUES" + [rest[0]] + t;
    var p := |up(head)|;
    assert upper[p..p + 6] == "VALUES" && upper[p + 6] == rest[0];
    assert p > 0 ==> upper[p - 1] == up(head)[p - 1];
    FirstIsFirst(upper, 0, p);
  }

  lemma {:induction false} CutInHead(head: string, keyword: string, rest: string, k: nat, edited: string)
    requires k <= |head|
    ensures (head + keyword + rest)[..k] == head[..k]
    ensures edited + (head + keyword + rest)[k..] == edited + head[k..] + keyword + rest
    ensures head + keyword + rest == head[..k] + head[k..] + keyword + rest
  {
    assert head == head[..k] + head[k..];
    assert (head + keyword + rest)[k..] == head[k..] + keyword + rest;
    assert edited + (head[k..] + keyword + rest) == edited + head[k..] + keyword + rest;
  }

  /**
   An INSERT whose head is ASCII keeps everything from VALUES on, whatever `edit` does and whatever the values are.
   */
  lemma {:induction false} ValuesSurvive(up: string -> string, edit: string -> string, strip: string -> string,
      head: string, keyword: string, rest: string, target: string)
    returns (k: nat)
    requires UpperLaw(up) && CutAtValues(head, keyword, rest) && IsInsert(up, head + keyword + rest)
    requires IsAscii(head) && (head == "" || !IsWordChar(head[|head| - 1]))
    ensures k <= |head|
    ensures Rewrite(up, edit, strip, head + keyword + rest, target)
         == Text((if target == "" then head[..k] else edit(head[..k])) + head[k..] + keyword + rest)
  {
    var stmt := head + keyword + rest;
    AsciiHead(up, head);
    FoundByKeyword(up, head, keyword, rest);
    k := FirstValues(up(stmt), 0);
    CutInHead(head, keyword, rest, k, edit(head[..k]));
  }

  lemma {:induction false} AsciiHead(up: string -> string, head: string)
    requires UpperLaw(up) && IsAscii(head)
    ensures up(head) == AsciiUpper(head)
  {
    if head != "" {
      assert "" + head + "" == head;
      assert up("" + head + "") == up("") + AsciiUpper(head) + up("");
      assert "" + AsciiUpper(head) + "" == AsciiUpper(head);
    }
  }

  // ---------------------------------------------------------------- when an INSERT keeps its values

  /** The retargeted statement still ends in the VALUES keyword and all that follows it. */
  ghost predicate KeepsValues(r: Outcome, keyword: string, rest: string) {
    r.Text? && HasSuffix(r.text, keyword + rest)
  }

  lemma {:induction false} CutPastHead(head: string, keyword: string, rest: string, k: nat)
    requires |head| < k <= |head + keyword + rest|
    ensures !HasSuffix((head + keyword + rest)[k..], keyword + rest)
  {
  }

  /** `k` is where the program cuts the INSERT `stmt` before it edits the part in front. */
  ghost predicate CutsAt(up: string -> string, stmt: string, target: string, k: int) {
    IsInsert(up, stmt) && target != "" && 0 <= k == FirstValues(up(stmt), 0)
  }

  lemma {:induction false} KeptInHead(up: string -> string, edit: string -> string, strip: string -> string,
      head: string, keyword: string, rest: string, target: string, k: nat)
    requires CutsAt(up, head + keyword + rest, target, k) && k <= |head|
    ensures KeepsValues(Rewrite(up, edit, strip, head + keyword + rest, target), keyword, rest)
  {
    CutInHead(head, keyword, rest, k, edit(head[..k]));
    EndsInTail(edit(head[..k]) + head[k..], keyword, rest);
  }

  lemma {:induction false} EndsInTail(a: string, keyword: string, rest: string)
    ensures HasSuffix(a + keyword + rest, keyword + rest)
  {
    assert a + keyword + rest == a + (keyword + rest);
  }

  lemma {:induction false} LostPastHead(up: string -> string, strip: string -> string, head: string, keyword: string,
      rest: string, target: string, k: nat)
    requires CutsAt(up, head + keyword + rest, target, k) && k > |head|
    ensures exists edit :: !KeepsValues(Rewrite(up, edit, strip, head + keyword + rest, target), keyword, rest)
  {
    var stmt := head + keyword + rest;
    var erase: string -> string := x => "";
    if k <= |stmt| {
      CutPastHead(head, keyword, rest, k);
      assert erase(stmt[..k]) + stmt[k..] == stmt[k..];
    }
    assert !KeepsValues(Rewrite(up, erase, strip, stmt, target), keyword, rest);
  }

  /**
   Retargeting an INSERT with any head: where the cut falls decides whether the program panics, what
   `edit` is given, and whether the values survive every `edit`.
   */
  lemma {:induction false} CutDecides(up: string -> string, strip: string -> string, head: string, keyword: string,
      rest: string, target: string, k: nat)
    requires CutsAt(up, head + keyword + rest, target, k)
    ensures var stmt := head + keyword + rest;
      && (forall edit :: Rewrite(up, edit, strip, stmt, target) == OutOfRange <==> k > |stmt|)
      && (forall edit :: k <= |stmt| ==> Rewrite(up, edit, strip, stmt, target) == Text(edit(stmt[..k]) + stmt[k..]))
      && ((forall edit :: KeepsValues(Rewrite(up, edit, strip, stmt, target), keyword, rest)) <==> k <= |head|)
  {
    if k <= |head| {
      forall edit ensures KeepsValues(Rewrite(up, edit, strip, head + keyword + rest, target), keyword, rest) {
        KeptInHead(up, edit, strip, head, keyword, rest, target, k);
      }
    } else {
      LostPastHead(up, strip, head, keyword, rest, target, k);
    }
  }

  /** With no VALUES earlier the cut falls where upper-casing puts the end of the head. */
  lemma {:induction false} CutAtUpperHead(up: string -> string, head: string, keyword: string, rest: string)
    requires UpperLaw(up) && CutAtValues(head, keyword, rest)
    requires up(head) == "" || !IsWordChar(up(head)[|up(head)| - 1])
    requires forall i: nat :: i < |up(head)| ==> !ValuesAt(up(head + keyword + rest), i)
    ensures FirstValues(up(head + keyword + rest), 0) == |up(head)|
  {
    FoundByKeyword(up, head, keyword, rest);
    var upper := up(head + keyword + rest);
    UpperOfCut(up, head, keyword, rest);
    var t :| upper == up(head) + "VALUES" + [rest[0]] + t;
    var p := |up(head)|;
    assert upper[p..p + 6] == "VALUES" && upper[p + 6] == rest[0];
    assert p > 0 ==> upper[p - 1] == up(head)[p - 1];
    FirstIsFirst(upper, 0, p);
  }

  /**
   So the length of the upper-cased head decides: no longer than the head, the values survive every
   `edit`; longer, some `edit` reaches them; longer than the whole statement, the program panics.
   */
  lemma {:induction false} LengthDecides(up: string -> string, strip: string -> string, head: string, keyword: string,
      rest: string, target: string)
    requires UpperLaw(up) && CutAtValues(head, keyword, rest) && IsInsert(up, head + keyword + rest) && target != ""
    requires up(head) == "" || !IsWordChar(up(head)[|up(head)| - 1])
    requires forall i: nat :: i < |up(head)| ==> !ValuesAt(up(head + keyword + rest), i)
    ensures var stmt := head + keyword + rest; var k := |up(head)|;
      && (forall edit :: Rewrite(up, edit, strip, stmt, target) == OutOfRange <==> k > |head| + 6 + |rest|)
      && (forall edit :: k <= |head| ==>
        Rewrite(up, edit, strip, stmt, target) == Text(edit(head[..k]) + head[k..] + keyword + rest))
      && ((forall edit :: KeepsValues(Rewrite(up, edit, strip, stmt, target), keyword, rest)) <==> k <= |head|)
  {
    CutAtUpperHead(up, head, keyword, rest);
    CutDecides(up, strip, head, keyword, rest, target, |up(head)|);
    if |up(head)| <= |head| {
      forall edit: string -> string
        ensures Rewrite(up, edit, strip, head + keyword + rest, target)
             == Text(edit(head[..|up(head)|]) + head[|up(head)|..] + keyword + rest)
      {
        CutInHead(head, keyword, rest, |up(head)|, edit(head[..|up(head)|]));
      }
    }
  }

  // ---------------------------------------------------------------- a table name that panics

  /** U+0250 in UTF-8, and its upper case U+2C6F, which takes a byte more. */
  const TURNED_A := ['\U{C9}', '\U{90}']
  const TURNED_CAPITAL := ['\U{E2}', '\U{B1}', '\U{AF}']

  predicate StartsTurned(s: string) {
    |s| > 1 && s[0] == '\U{C9}' && s[1] == '\U{90}'
  }

  /** Upper case of texts made of ASCII characters and that letter. */
  function Turned(s: string): string {
    if s == "" then ""
    else if StartsTurned(s) then TURNED_CAPITAL + Turned(s[2..])
    else [AsciiUpperChar(s[0])] + Turned(s[1..])
  }

  lemma {:induction false} TurnedLetter(x: string)
    ensures Turned(TURNED_A + x) == TURNED_CAPITAL + Turned(x)
  {
    var s := TURNED_A + x;
    assert StartsTurned(s) && s[2..] == x;
  }

  lemma {:induction false} TurnedOther(c: char, x: string)
    requires !StartsTurned([c] + x)
    ensures Turned([c] + x) == [AsciiUpperChar(c)] + Turned(x)
  {
    var s := [c] + x;
    assert s[0] == c && s[1..] == x;
  }

  lemma {:induction false} AsciiUpperCons(b: string)
    requires b != ""
    ensures AsciiUpper(b) == [AsciiUpperChar(b[0])] + AsciiUpper(b[1..])
  {
  }

  lemma {:induction false} TurnedPrepend(x: char, t: string, up: string, c: string)
    requires x < '\U{80}' && Turned(t) == up + Turned(c)
    ensures Turned([x] + t) == ([AsciiUpperChar(x)] + up) + Turned(c)
  {
    TurnedOther(x, t);
    Regroup([AsciiUpperChar(x)], up, Turned(c));
  }

  lemma {:induction false} AsciiUpperNone(c: string)
    ensures AsciiUpper("") + c == c && "" + c == c
  {
    assert AsciiUpper("") == "";
  }

  lemma {:induction false} TurnedAscii(b: string, c: string)
    requires IsAscii(b)
    ensures Turned(b + c) == AsciiUpper(b) + Turned(c)
    decreases |b|
  {
    if b == "" {
      AsciiUpperNone(c);
      AsciiUpperNone(Turned(c));
    } else {
      TurnedAscii(b[1..], c);
      TurnedPrepend(b[0], b[1..] + c, AsciiUpper(b[1..]), c);
      ConsConcat(b, c);
      AsciiUpperCons(b);
    }
  }

  /** ASCII text keeps the letter from straddling what is before it and what is after it. */
  lemma {:induction false} TurnedConcat(a: string, x: string)
    requires x == "" || x[0] < '\U{80}'
    ensures Turned(a + x) == Turned(a) + Turned(x)
    decreases |a|
  {
    if a == "" {
      assert a + x == x;
      assert "" + Turned(x) == Turned(x);
    } else if StartsTurned(a) {
      var rest := a[2..];
      assert a == TURNED_A + rest && a + x == TURNED_A + (rest + x);
      TurnedConcat(rest, x);
      TurnedLetter(rest);
      TurnedLetter(rest + x);
      Regroup(TURNED_CAPITAL, Turned(rest), Turned(x));
    } else {
      var rest := a[1..];
      assert a == [a[0]] + rest && a + x == [a[0]] + (rest + x);
      TurnedConcat(rest, x);
      TurnedOther(a[0], rest);
      NotStraddling(a, x);
      TurnedOther(a[0], rest + x);
      Regroup([AsciiUpperChar(a[0])], Turned(rest), Turned(x));
    }
  }

  lemma {:induction false} NotStraddling(a: string, x: string)
    requires a != "" && !StartsTurned(a) && (x == "" || x[0] < '\U{80}')
    ensures !StartsTurned([a[0]] + (a[1..] + x))
  {
    var s := [a[0]] + (a[1..] + x);
    assert |a| > 1 ==> s[1] == a[1];
    assert |a| == 1 && x != "" ==> s[1] == x[0];
  }

  lemma {:induction false} TurnedUpperLaw()
    ensures UpperLaw(Turned)
  {
    forall a: string, b: string, c: string | IsAscii(b) && b != ""
      ensures Turned(a + b + c) == Turned(a) + AsciiUpper(b) + Turned(c)
    {
      Regroup(a, b, c);
      assert (b + c)[0] == b[0];
      TurnedConcat(a, b + c);
      TurnedAscii(b, c);
      Regroup(Turned(a), AsciiUpper(b), Turned(c));
    }
  }

  function Repeat(s: string, n: nat): string {
    if n == 0 then "" else s + Repeat(s, n - 1)
  }

  lemma {:induction false} TurnedName(n: nat)
    ensures Turned(Repeat(TURNED_A, n)) == Repeat(TURNED_CAPITAL, n)
  {
    if n > 0 {
      TurnedName(n - 1);
      TurnedLetter(Repeat(TURNED_A, n - 1));
    }
  }

  lemma {:induction false} NameLengths(n: nat)
    ensures |Repeat(TURNED_A, n)| == 2 * n && |Repeat(TURNED_CAPITAL, n)| == 3 * n
  {
    if n > 0 {
      NameLengths(n - 1);
    }
  }

  lemma {:induction false} NoVInName(n: nat)
    ensures 'V' !in Repeat(TURNED_CAPITAL, n)
  {
    if n > 0 {
      NoVInName(n - 1);
      assert 'V' !in TURNED_CAPITAL;
      NoVInBoth(TURNED_CAPITAL, Repeat(TURNED_CAPITAL, n - 1));
    }
  }

  lemma {:induction false} NoVInBoth(a: string, b: string)
    requires 'V' !in a && 'V' !in b
    ensures 'V' !in a + b
  {
  }

  /** The head of a batch for the table named by `n` of these letters. */
  function TurnedHead(n: nat): string {
    "INSERT INTO `" + Repeat(TURNED_A, n) + "` (`id`) "
  }

  lemma {:induction false} HeadEndUpper()
    ensures AsciiUpper("` (`id`) ") == "` (`ID`) "
  {
  }

  lemma {:induction false} TurnedEnd(c: string)
    requires c == "` (`id`) "
    ensures Turned(c) == "` (`ID`) "
  {
    TurnedAll(c);
    HeadEndUpper();
  }

  lemma {:induction false} HeadStartUpper()
    ensures AsciiUpper("INSERT INTO `") == "INSERT INTO `"
  {
  }

  lemma {:induction false} TurnedAll(b: string)
    requires IsAscii(b)
    ensures Turned(b) == AsciiUpper(b)
  {
    TurnedAscii(b, "");
    assert b + "" == b && AsciiUpper(b) + "" == AsciiUpper(b);
  }

  lemma {:induction false} TurnedParts(a: string, b: string, c: string)
    requires IsAscii(a) && c != "" && c[0] < '\U{80}'
    ensures Turned(a + b + c) == AsciiUpper(a) + Turned(b) + Turned(c)
  {
    Regroup(a, b, c);
    TurnedAscii(a, b + c);
    TurnedConcat(b, c);
    Regroup(AsciiUpper(a), Turned(b), Turned(c));
  }

  lemma {:induction false} TurnedHeadUpper(n: nat)
    ensures Turned(TurnedHead(n)) == "INSERT INTO `" + Repeat(TURNED_CAPITAL, n) + "` (`ID`) "
  {
    var c := "` (`id`) ";
    TurnedParts("INSERT INTO `", Repeat(TURNED_A, n), c);
    HeadStartUpper();
    TurnedName(n);
    TurnedEnd(c);
  }

  lemma {:induction false} NoneBefore(head: string, tail: string, i: nat)
    requires 'V' !in head && i < |head|
    ensures !ValuesAt(head + tail, i)
  {
    var upper := head + tail;
    assert upper[i] == head[i] && head[i] in head;
    assert i + 6 <= |upper| ==> upper[i..i + 6][0] == upper[i];
  }

  lemma {:induction false} NoVInHead(n: nat)
    ensures 'V' !in Turned(TurnedHead(n))
  {
    TurnedHeadUpper(n);
    NoVInName(n);
    NoVInBoth("INSERT INTO `", Repeat(TURNED_CAPITAL, n));
    NoVInBoth("INSERT INTO `" + Repeat(TURNED_CAPITAL, n), "` (`ID`) ");
  }

  /** In such a statement the first VALUES is the keyword. */
  lemma {:induction false} TurnedNoneBefore(n: nat, rest: string)
    ensures var head := TurnedHead(n); forall i: nat :: i < |Turned(head)| ==>
      !ValuesAt(Turned(head + "VALUES" + rest), i)
  {
    var head := TurnedHead(n);
    NoVInHead(n);
    var x := "VALUES" + rest;
    Regroup(head, "VALUES", rest);
    TurnedConcat(head, x);
    forall i: nat | i < |Turned(head)| ensures !ValuesAt(Turned(head + "VALUES" + rest), i) {
      NoneBefore(Turned(head), Turned(x), i);
    }
  }

  lemma {:induction false} ValuesKeyword(rest: string)
    requires rest != "" && rest[0] < '\U{80}' && !IsWordChar(rest[0])
    ensures forall head :: CutAtValues(head, "VALUES", rest)
  {
    assert AsciiUpper("VALUES") == "VALUES";
  }

  /**
   Retargeting an INSERT into such a table panics exactly when the name has more letters than there are bytes from
   VALUES on.
   */
  lemma {:induction false} LongNamePanics(n: nat, rest: string, edit: string -> string, strip: string -> string,
      target: string)
    requires rest != "" && rest[0] < '\U{80}' && !IsWordChar(rest[0]) && target != ""
    ensures Rewrite(Turned, edit, strip, TurnedHead(n) + "VALUES" + rest, target) == OutOfRange <==> n > 6 + |rest|
  {
    TurnedUpperLaw();
    TurnedIsInsert(n, rest);
    TurnedNoneBefore(n, rest);
    TurnedLengths(n);
    ValuesKeyword(rest);
    LengthDecides(Turned, strip, TurnedHead(n), "VALUES", rest, target);
  }

  lemma {:induction false} TurnedLengths(n: nat)
    ensures var upper := Turned(TurnedHead(n));
      upper != "" && !IsWordChar(upper[|upper| - 1]) && |upper| == |TurnedHead(n)| + n
  {
    TurnedHeadUpper(n);
    NameLengths(n);
  }

  lemma {:induction false} TurnedIsInsert(n: nat, rest: string)
    ensures IsInsert(Turned, TurnedHead(n) + "VALUES" + rest)
  {
    var tail := " INTO `" + Repeat(TURNED_A, n) + "` (`id`) " + "VALUES" + rest;
    assert TurnedHead(n) + "VALUES" + rest == "INSERT" + tail;
    TurnedUpperLaw();
    InsertRecognised(Turned, tail);
  }

  /** A row of one number in a table whose name is as long as names may be. */
  lemma {:induction false} OneRowPanics(edit: string -> string, strip: string -> string)
    ensures Rewrite(Turned, edit, strip, TurnedHead(64) + "VALUES" + "\n(1)", "copy") == OutOfRange
  {
    LongNamePanics(64, "\n(1)", edit, strip, "copy");
  }
}
