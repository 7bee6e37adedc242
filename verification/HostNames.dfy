/**
 Host names as the server accepts them: the patterns of `bitrix/forms.py`,
 `handlers/render.py` and `web/src/middleware.ts` transcribed as regular expressions, with
 Python's `$` matching before a final newline and JavaScript's only at the end, and the
 grammar they stand for. Text is ASCII.
 */
module HostNames {
  import opened Texts

  // ------------------------------------------------------------------ regular expressions

  datatype Re =
    | Class(members: string)
    | Cat(first: Re, second: Re)
    | Maybe(inner: Re)
    | Star(inner: Re)
    | Upto(members: string, most: nat)

  /** The whole of `s` matches. */
  ghost predicate Matches(r: Re, s: string)
    decreases r, |s|
  {
    match r
    case Class(members) => |s| == 1 && s[0] in members
    case Cat(first, second) => exists k :: 0 <= k <= |s| && Matches(first, s[..k]) && Matches(second, s[k..])
    case Maybe(inner) => s == "" || Matches(inner, s)
    case Star(inner) => s == "" || exists k :: 0 < k <= |s| && Matches(inner, s[..k]) && Matches(r, s[k..])
    case Upto(members, most) => |s| <= most && forall i :: 0 <= i < |s| ==> s[i] in members
  }

  lemma {:induction false} CatSplits(first: Re, second: Re, s: string) returns (a: string, b: string)
    requires Matches(Cat(first, second), s)
    ensures s == a + b && Matches(first, a) && Matches(second, b)
  {
    var k :| 0 <= k <= |s| && Matches(first, s[..k]) && Matches(second, s[k..]);
    a, b := s[..k], s[k..];
  }

  lemma {:induction false} CatJoins(first: Re, second: Re, a: string, b: string)
    requires Matches(first, a) && Matches(second, b)
    ensures Matches(Cat(first, second), a + b)
  {
    assert (a + b)[..|a|] == a && (a + b)[|a|..] == b;
  }

  lemma {:induction false} StarSplits(inner: Re, s: string) returns (a: string, b: string)
    requires Matches(Star(inner), s) && s != ""
    ensures s == a + b && a != "" && Matches(inner, a) && Matches(Star(inner), b)
  {
    var k :| 0 < k <= |s| && Matches(inner, s[..k]) && Matches(Star(inner), s[k..]);
    a, b := s[..k], s[k..];
  }

  lemma {:induction false} StarJoins(inner: Re, a: string, b: string)
    requires a != "" && Matches(inner, a) && Matches(Star(inner), b)
    ensures Matches(Star(inner), a + b)
  {
    assert (a + b)[..|a|] == a && (a + b)[|a|..] == b;
  }

  const NEWLINE: char := '\n'

  predicate EndsLine(s: string) {
    s != "" && s[|s| - 1] == NEWLINE
  }

  function DropNewline(s: string): string {
    if EndsLine(s) then s[..|s| - 1] else s
  }

  /** `re.match` of `^r$`: `$` also holds just before a final newline. */
  ghost predicate PyMatches(r: Re, s: string) {
    Matches(r, s) || (EndsLine(s) && Matches(r, s[..|s| - 1]))
  }

  /** `(?=.{1,253}$)` at the front, in Python. */
  predicate PyWithin253(s: string) {
    || (1 <= |s| <= 253 && NEWLINE !in s)
    || (EndsLine(s) && 1 <= |s| - 1 <= 253 && NEWLINE !in s[..|s| - 1])
  }

  /** The same lookahead in JavaScript, where `.` excludes every line terminator. */
  predicate JsWithin253(s: string) {
    1 <= |s| <= 253 && forall c :: c in s ==> c != NEWLINE && c != '\r' && c != '\U{2028}' && c != '\U{2029}'
  }

  const LOWER: string := "abcdefghijklmnopqrstuvwxyz"
  const UPPER: string := "ABCDEFGHIJKLMNOPQRSTUVWXYZ"
  const DIGITS: string := "0123456789"

  /** `X(?:[X-]{0,61}X)?` for the class `X` of letters and digits. */
  function LabelRe(letters: string): Re {
    Cat(Class(letters), Maybe(Cat(Upto(letters + "-", 61), Class(letters))))
  }

  /** `LABEL(?:\.LABEL)*`. */
  function HostRe(letters: string): Re {
    Cat(LabelRe(letters), Star(Cat(Class("."), LabelRe(letters))))
  }

  /** `[A-Za-z0-9]` of the two Python patterns; `[a-z0-9]` of the TypeScript one. */
  const PY_LETTERS: string := UPPER + LOWER + DIGITS
  const JS_LETTERS: string := LOWER + DIGITS

  // ------------------------------------------------------------------ ports

  /** `rpartition(":")`: index of the last colon. */
  function LastColon(s: string): (i: int)
    ensures -1 <= i < |s|
    ensures i >= 0 ==> s[i] == ':'
    ensures forall k :: i < k < |s| ==> s[k] != ':'
  {
    if s == "" then -1
    else if s[|s| - 1] == ':' then |s| - 1
    else LastColon(s[..|s| - 1])
  }

  // ------------------------------------------------------------------ what a host is

  predicate LetDig(c: char) {
    'a' <= c <= 'z' || Digit(c)
  }

  /** RFC 1123 section 2.1: letters, digits and hyphens, 63 at most, no hyphen at either end. */
  predicate Label(s: string) {
    && 1 <= |s| <= 63
    && LetDig(s[0]) && LetDig(s[|s| - 1])
    && forall i :: 0 <= i < |s| ==> LetDig(s[i]) || s[i] == '-'
  }

  predicate Labels(s: string) {
    forall part :: part in Split(s, '.') ==> Label(part)
  }

  predicate Hostname(s: string) {
    |s| <= 253 && Labels(s)
  }

  predicate Port(s: string) {
    AllDigits(s) && |s| <= 5 && 1 <= Decimal(s) <= 65535
  }

  /** `host` or `host:port`, in lower case. */
  predicate Authority(s: string) {
    if ':' in s then
      var i := LastColon(s);
      Hostname(s[..i]) && Port(s[i + 1..])
    else Hostname(s)
  }

  // ------------------------------------------------------------------ character classes

  predicate Lowered(s: string) {
    forall i :: 0 <= i < |s| ==> !('A' <= s[i] <= 'Z')
  }

  lemma {:induction false} LowerIsLowered(s: string)
    ensures Lowered(Lower(s)) && Lower(Lower(s)) == Lower(s)
  {
  }

  /** `letters` is one of the two classes, seen on lower-case text. */
  ghost predicate IsLetters(letters: string) {
    forall c :: !('A' <= c <= 'Z') ==> (c in letters <==> LetDig(c))
  }

  lemma {:induction false} RangeMember(members: string, first: char, c: char)
    requires forall i :: 0 <= i < |members| ==> members[i] as int == first as int + i
    ensures c in members <==> first as int <= c as int < first as int + |members|
  {
    if first as int <= c as int < first as int + |members| {
      assert members[c as int - first as int] == c;
    }
  }

  lemma {:induction false} LettersAre()
    ensures IsLetters(PY_LETTERS) && IsLetters(JS_LETTERS)
  {
    forall c: char ensures !('A' <= c <= 'Z') ==> (c in PY_LETTERS <==> LetDig(c)) && (c in JS_LETTERS <==> LetDig(c)) {
      RangeMember(LOWER, 'a', c);
      RangeMember(UPPER, 'A', c);
      RangeMember(DIGITS, '0', c);
    }
  }

  // ------------------------------------------------------------------ one label

  lemma {:induction false} LabelMatches(letters: string, s: string)
    requires IsLetters(letters) && Lowered(s)
    ensures Matches(LabelRe(letters), s) <==> Label(s)
  {
    if Label(s) {
      LabelIsMatched(letters, s);
    }
    if Matches(LabelRe(letters), s) {
      MatchedIsLabel(letters, s);
    }
  }

  lemma {:induction false} LabelIsMatched(letters: string, s: string)
    requires IsLetters(letters) && Lowered(s) && Label(s)
    ensures Matches(LabelRe(letters), s)
  {
    var first, rest := s[..1], s[1..];
    assert first == [s[0]] && Matches(Class(letters), first);
    if rest != "" {
      var k := |rest| - 1;
      var mid := Upto(letters + "-", 61);
      assert Matches(mid, rest[..k]) by {
        forall i | 0 <= i < k ensures rest[..k][i] in letters + "-" {
          assert rest[i] == s[i + 1];
        }
      }
      assert rest[k..] == [s[|s| - 1]] && Matches(Class(letters), rest[k..]);
      assert Matches(Cat(mid, Class(letters)), rest);
    }
    assert Matches(Maybe(Cat(Upto(letters + "-", 61), Class(letters))), rest);
  }

  lemma {:induction false} MatchedIsLabel(letters: string, s: string)
    requires IsLetters(letters) && Lowered(s) && Matches(LabelRe(letters), s)
    ensures Label(s)
  {
    var end := Cat(Upto(letters + "-", 61), Class(letters));
    var first, rest := CatSplits(Class(letters), Maybe(end), s);
    LoweredParts(first, rest);
    MatchedPieces(letters, first, rest);
  }

  lemma {:induction false} LoweredParts(a: string, b: string)
    requires Lowered(a + b)
    ensures Lowered(a) && Lowered(b)
  {
    assert forall i :: 0 <= i < |a| ==> a[i] == (a + b)[i];
    assert forall i :: 0 <= i < |b| ==> b[i] == (a + b)[|a| + i];
  }

  lemma {:induction false} MatchedPieces(letters: string, first: string, rest: string)
    requires IsLetters(letters) && Lowered(first) && Lowered(rest) && Matches(Class(letters), first)
    requires Matches(Maybe(Cat(Upto(letters + "-", 61), Class(letters))), rest)
    ensures Label(first + rest)
  {
    if rest != "" {
      MatchedIsEnd(letters, rest);
    }
    LabelFrom(first[0], rest);
    assert first == [first[0]];
  }

  lemma {:induction false} LabelFrom(first: char, rest: string)
    requires LetDig(first) && |rest| <= 62 && (rest != "" ==> LetDig(rest[|rest| - 1]))
    requires forall i :: 0 <= i < |rest| ==> LetDig(rest[i]) || rest[i] == '-'
    ensures Label([first] + rest)
  {
  }

  lemma {:induction false} MatchedIsEnd(letters: string, s: string)
    requires IsLetters(letters) && Lowered(s) && Matches(Cat(Upto(letters + "-", 61), Class(letters)), s)
    ensures 1 <= |s| <= 62 && LetDig(s[|s| - 1]) && forall i :: 0 <= i < |s| ==> LetDig(s[i]) || s[i] == '-'
  {
    var j :| 0 <= j <= |s| && Matches(Upto(letters + "-", 61), s[..j]) && Matches(Class(letters), s[j..]);
    assert s[j..][0] == s[|s| - 1];
    forall i | 0 <= i < j ensures LetDig(s[i]) || s[i] == '-' {
      assert s[..j][i] == s[i];
    }
  }

  // ------------------------------------------------------------------ a host

  lemma {:induction false} LabelHasNoDot(s: string)
    requires Label(s)
    ensures '.' !in s && NEWLINE !in s && ':' !in s
  {
  }

  /** The dotted tail: nothing, or a dot and a list of labels. */
  predicate Tail(s: string) {
    s == "" || (s[0] == '.' && Labels(s[1..]))
  }

  lemma {:induction false} LabelsSplit(s: string, t: string)
    requires '.' !in s && (t == "" || t[0] == '.')
    ensures Labels(s + t) <==> Label(s) && Tail(t)
  {
    if t == "" {
      assert s + t == s;
      FindNone(s, '.');
    } else {
      assert s + t == s + ['.'] + t[1..];
      FindIn(s, '.', t[1..]);
      assert (s + t)[..|s|] == s && (s + t)[|s| + 1..] == t[1..];
      assert Split(s + t, '.') == [s] + Split(t[1..], '.');
      assert forall part :: part in Split(s + t, '.') <==> part == s || part in Split(t[1..], '.');
    }
  }

  function DotLabel(letters: string): Re {
    Cat(Class("."), LabelRe(letters))
  }

  lemma {:induction false} TailMatches(letters: string, s: string)
    requires IsLetters(letters) && Lowered(s)
    ensures Matches(Star(DotLabel(letters)), s) <==> Tail(s)
  {
    if Matches(Star(DotLabel(letters)), s) {
      MatchedIsTail(letters, s);
    }
    if Tail(s) {
      TailIsMatched(letters, s);
    }
  }

  lemma {:induction false} MatchedIsTail(letters: string, s: string)
    requires IsLetters(letters) && Lowered(s) && Matches(Star(DotLabel(letters)), s)
    ensures Tail(s)
    decreases |s|
  {
    if s != "" {
      var first, rest := StarSplits(DotLabel(letters), s);
      LoweredParts(first, rest);
      MatchedIsTail(letters, rest);
      MatchedIsDotLabel(letters, first);
      TailCons(first[1..], rest);
      assert s == "." + (first[1..] + rest);
    }
  }

  lemma {:induction false} TailIsMatched(letters: string, s: string)
    requires IsLetters(letters) && Lowered(s) && Tail(s)
    ensures Matches(Star(DotLabel(letters)), s)
    decreases |s|
  {
    if s != "" {
      var part, rest := TailSplits(s);
      LoweredParts("." + part, rest);
      TailIsMatched(letters, rest);
      DotLabelIsMatched(letters, "." + part, part);
      StarJoins(DotLabel(letters), "." + part, rest);
    }
  }

  lemma {:induction false} TailSplits(s: string) returns (part: string, rest: string)
    requires Tail(s) && s != ""
    ensures s == "." + part + rest && Label(part) && Tail(rest)
  {
    var n := Find(s[1..], '.');
    part, rest := s[1..][..n], s[1..][n..];
    assert s[1..] == part + rest;
    LabelsSplit(part, rest);
  }

  lemma {:induction false} TailCons(part: string, rest: string)
    requires Label(part) && Tail(rest)
    ensures Tail("." + (part + rest))
  {
    LabelHasNoDot(part);
    LabelsSplit(part, rest);
    assert ("." + (part + rest))[1..] == part + rest;
  }

  lemma {:induction false} MatchedIsDotLabel(letters: string, s: string)
    requires IsLetters(letters) && Lowered(s) && Matches(DotLabel(letters), s)
    ensures s != "" && s[0] == '.' && Label(s[1..])
  {
    var k :| 0 <= k <= |s| && Matches(Class("."), s[..k]) && Matches(LabelRe(letters), s[k..]);
    assert s[..k][0] == s[0];
    LabelMatches(letters, s[k..]);
  }

  lemma {:induction false} DotLabelIsMatched(letters: string, s: string, part: string)
    requires IsLetters(letters) && Lowered(s) && s == "." + part && Label(part)
    ensures Matches(DotLabel(letters), s)
  {
    assert s[..1] == "." && s[1..] == part;
    assert Matches(Class("."), s[..1]);
    assert forall i :: 0 <= i < |part| ==> part[i] == s[i + 1];
    LabelMatches(letters, part);
  }

  /** On lower-case text either host pattern accepts exactly the dot-joined labels. */
  lemma {:induction false} HostMatches(letters: string, s: string)
    requires IsLetters(letters) && Lowered(s)
    ensures Matches(HostRe(letters), s) <==> Labels(s)
  {
    if Matches(HostRe(letters), s) {
      MatchedIsHost(letters, s);
    }
    if Labels(s) {
      HostIsMatched(letters, s);
    }
  }

  lemma {:induction false} HostIsMatched(letters: string, s: string)
    requires IsLetters(letters) && Lowered(s) && Labels(s)
    ensures Matches(HostRe(letters), s)
  {
    var k := Find(s, '.');
    var part, rest := s[..k], s[k..];
    assert s == part + rest;
    LabelsSplit(part, rest);
    LoweredParts(part, rest);
    LabelMatches(letters, part);
    TailMatches(letters, rest);
    CatJoins(LabelRe(letters), Star(DotLabel(letters)), part, rest);
  }

  lemma {:induction false} MatchedIsHost(letters: string, s: string)
    requires IsLetters(letters) && Lowered(s) && Matches(HostRe(letters), s)
    ensures Labels(s)
  {
    var part, rest := CatSplits(LabelRe(letters), Star(DotLabel(letters)), s);
    LoweredParts(part, rest);
    LabelMatches(letters, part);
    TailMatches(letters, rest);
    LabelHasNoDot(part);
    LabelsSplit(part, rest);
  }

  // ------------------------------------------------------------------ the Python `$`

  lemma {:induction false} PartsWithin(s: string, c: char)
    ensures forall part, x :: part in Split(s, c) && x in part ==> x in s
    decreases |s|
  {
    var i := Find(s, c);
    if i < |s| {
      PartsWithin(s[i + 1..], c);
    }
  }

  lemma {:induction false} PyPart(s: string)
    requires Lowered(s)
    ensures PyMatches(LabelRe(PY_LETTERS), s) <==> Label(DropNewline(s))
  {
    LettersAre();
    LabelMatches(PY_LETTERS, s);
    if EndsLine(s) {
      LabelMatches(PY_LETTERS, s[..|s| - 1]);
    }
  }

  lemma {:induction false} LabelsHaveNoNewline(s: string)
    requires Labels(s)
    ensures NEWLINE !in s && ':' !in s
    decreases |s|
  {
    var k := Find(s, '.');
    var head, tail := s[..k], s[k..];
    assert s == head + tail;
    LabelsSplit(head, tail);
    LabelHasNoDot(head);
    if tail != "" {
      LabelsHaveNoNewline(tail[1..]);
      assert tail == "." + tail[1..];
    }
  }

  lemma {:induction false} PyHost(s: string)
    requires Lowered(s)
    ensures PyWithin253(s) && PyMatches(HostRe(PY_LETTERS), s) <==> Hostname(DropNewline(s))
  {
    LettersAre();
    HostMatches(PY_LETTERS, s);
    if Labels(s) {
      LabelsHaveNoNewline(s);
    }
    if EndsLine(s) {
      HostMatches(PY_LETTERS, s[..|s| - 1]);
    }
    if Labels(DropNewline(s)) {
      LabelsHaveNoNewline(DropNewline(s));
      LabelsAreNotEmpty(DropNewline(s));
    }
  }

  lemma {:induction false} LabelsAreNotEmpty(s: string)
    requires Labels(s)
    ensures s != ""
  {
    var first := Split(s, '.')[0];
    assert first == s[..Find(s, '.')] && first in Split(s, '.');
    assert Label(first);
  }

  lemma {:induction false} JsHost(s: string)
    requires Lowered(s)
    ensures JsWithin253(s) && Matches(HostRe(JS_LETTERS), s) <==> Hostname(s)
  {
    LettersAre();
    HostMatches(JS_LETTERS, s);
    if Labels(s) {
      LabelsAreNotEmpty(s);
      LabelsAreAscii(s);
    }
  }

  lemma {:induction false} LabelsAreAscii(s: string)
    requires Labels(s)
    ensures forall x :: x in s ==> LetDig(x) || x == '-' || x == '.'
    decreases |s|
  {
    var k := Find(s, '.');
    var head, tail := s[..k], s[k..];
    assert s == head + tail;
    LabelsSplit(head, tail);
    if tail != "" {
      LabelsAreAscii(tail[1..]);
      assert tail == "." + tail[1..];
    }
  }
}
