/**
 The parameter scanner of `security/redact.py`: `redact_text` rewrites the value of every
 credential-bearing `name=value` inside a string. The scan is modelled as `re.sub` runs it
 and read back as a sequence of pieces, over ASCII text.
 */
module TextRedaction {
  import opened Texts

  const REDACTED: string := "[redacted]"

  /** The alternatives of `_SENSITIVE_PARAM_RE`, in order. */
  const NAMES: seq<string> := [
    "auth", "token", "access_token", "refresh_token", "refresh_id", "auth_id", "application_token",
    "client_secret", "client_id", "password", "secret"
  ]

  /** `\w`, on either side of a `\b`. */
  predicate Word(c: char) {
    'a' <= c <= 'z' || 'A' <= c <= 'Z' || '0' <= c <= '9' || c == '_'
  }

  /** `[^&\s"'<>#]`. */
  predicate ValueChar(c: char) {
    !IsSpace(c) && c != '&' && c != '\"' && c != '\'' && c != '<' && c != '>' && c != '#'
  }

  predicate ValueText(s: string) {
    forall i :: 0 <= i < |s| ==> ValueChar(s[i])
  }

  predicate WordText(s: string) {
    forall i :: 0 <= i < |s| ==> Word(s[i])
  }

  // ------------------------------------------------------------------ matching one parameter

  /** `name=` stands at the front of `s`, in any case. */
  predicate Named(s: string, name: string) {
    |name| < |s| && Lower(s[..|name|]) == name && s[|name|] == '='
  }

  /** Length of the first alternative that matches at the front, or 0. */
  function NameLength(s: string, names: seq<string>): nat {
    if names == [] then 0
    else if Named(s, names[0]) then |names[0]|
    else NameLength(s, names[1..])
  }

  /** A match at the front of `s`, given the character before it. */
  function Match(afterWord: bool, s: string): nat {
    if afterWord then 0 else NameLength(s, NAMES)
  }

  /** The greedy value run. */
  function ValueRun(s: string): (n: nat)
    ensures n <= |s| && ValueText(s[..n])
    ensures n < |s| ==> !ValueChar(s[n])
  {
    if s == "" || !ValueChar(s[0]) then 0
    else
      var n := ValueRun(s[1..]);
      assert s[..n + 1] == [s[0]] + s[1..][..n];
      n + 1
  }

  lemma {:induction false} NameLengthIs(s: string, names: seq<string>)
    requires forall k :: 0 <= k < |names| ==> names[k] != "" && WordText(names[k])
    ensures var n := NameLength(s, names);
            if n == 0 then forall name :: name in names ==> !Named(s, name)
            else n < |s| && s[n] == '=' && WordText(s[..n]) && Lower(s[..n]) in names
  {
    if names != [] && !Named(s, names[0]) {
      NameLengthIs(s, names[1..]);
    } else if names != [] {
      var n := |names[0]|;
      assert WordText(s[..n]) by {
        forall i | 0 <= i < n ensures Word(s[..n][i]) {
          assert Word(names[0][i]) && Lower(s[..n])[i] == LowerChar(s[i]);
        }
      }
    }
  }

  lemma {:induction false} MatchIs(afterWord: bool, s: string)
    ensures var n := Match(afterWord, s);
            if n == 0 then !afterWord ==> forall name :: name in NAMES ==> !Named(s, name)
            else !afterWord && n < |s| && s[n] == '=' && WordText(s[..n]) && Lower(s[..n]) in NAMES
    ensures forall k :: 0 <= k < Match(afterWord, s) && k < |s| ==> Word(s[k])
  {
    assert forall k :: 0 <= k < |NAMES| ==> NAMES[k] != "" && WordText(NAMES[k]);
    NameLengthIs(s, NAMES);
    forall k | 0 <= k < NameLength(s, NAMES) && k < |s| ensures Word(s[k]) {
      assert s[k] == s[..NameLength(s, NAMES)][k];
    }
  }

  // ------------------------------------------------------------------ the scan

  datatype Piece =
    | Plain(c: char)
    | Param(name: string, value: string)

  datatype Step = Step(piece: Piece, afterWord: bool, rest: string)

  /** One turn of the scan: a match of the expression, or one character left alone. */
  function Next(afterWord: bool, s: string): (step: Step)
    requires s != ""
    ensures |step.rest| < |s|
  {
    var n := Match(afterWord, s);
    if n == 0 then Step(Plain(s[0]), Word(s[0]), s[1..])
    else
      MatchIs(afterWord, s);
      var tail := s[n + 1..];
      var v := ValueRun(tail);
      Step(Param(s[..n], tail[..v]), EndsInWord(tail[..v]), tail[v..])
  }

  /** Whether the text matched so far ends in a word character; `=` is none. */
  predicate EndsInWord(value: string) {
    value != "" && Word(value[|value| - 1])
  }

  /** What `finditer` sees: the leftmost non-overlapping matches, and every character between them. */
  function Parse(afterWord: bool, s: string): seq<Piece>
    decreases |s|
  {
    if s == "" then []
    else
      var step := Next(afterWord, s);
      [step.piece] + Parse(step.afterWord, step.rest)
  }

  /** `re.sub` with the replacement `name=[redacted]`. */
  function Sub(afterWord: bool, s: string): string
    decreases |s|
  {
    if s == "" then ""
    else
      var step := Next(afterWord, s);
      match step.piece
      case Plain(c) => [c] + Sub(step.afterWord, step.rest)
      case Param(name, _) => name + "=" + REDACTED + Sub(step.afterWord, step.rest)
  }

  /** `search(...) is not None`. */
  predicate Searches(afterWord: bool, s: string)
    decreases |s|
  {
    s != "" && (Match(afterWord, s) != 0 || Searches(Word(s[0]), s[1..]))
  }

  /** `redact_text`, with its two early returns. */
  function RedactText(s: string): string {
    if '=' !in s then s
    else if !Searches(false, s) then s
    else Sub(false, s)
  }

  function Write(p: Piece): string {
    match p
    case Plain(c) => [c]
    case Param(name, value) => name + "=" + value
  }

  function WriteAll(ps: seq<Piece>): string {
    if ps == [] then "" else Write(ps[0]) + WriteAll(ps[1..])
  }

  function Blank(p: Piece): Piece {
    match p
    case Plain(_) => p
    case Param(name, _) => Param(name, REDACTED)
  }

  function BlankAll(ps: seq<Piece>): (qs: seq<Piece>)
    ensures |qs| == |ps|
  {
    if ps == [] then [] else [Blank(ps[0])] + BlankAll(ps[1..])
  }

  /** Equal up to the credential values, all of them over the value alphabet. */
  predicate SamePiece(p: Piece, q: Piece) {
    match p
    case Plain(c) => q == p
    case Param(name, value) => q.Param? && q.name == name && ValueText(value) && ValueText(q.value)
  }

  predicate SameShape(ps: seq<Piece>, qs: seq<Piece>) {
    |ps| == |qs| && (ps != [] ==> SamePiece(ps[0], qs[0]) && SameShape(ps[1..], qs[1..]))
  }

  // ------------------------------------------------------------------ the early returns change nothing

  lemma {:induction false} NoMatchNoSub(afterWord: bool, s: string)
    ensures !Searches(afterWord, s) ==> Sub(afterWord, s) == s
    decreases |s|
  {
    if s != "" && Match(afterWord, s) == 0 {
      NoMatchNoSub(Word(s[0]), s[1..]);
    }
  }

  lemma {:induction false} NoEqualsNoMatch(afterWord: bool, s: string)
    requires '=' !in s
    ensures !Searches(afterWord, s)
    decreases |s|
  {
    if s != "" {
      MatchIs(afterWord, s);
      assert Match(afterWord, s) == 0;
      NoEqualsNoMatch(Word(s[0]), s[1..]);
    }
  }

  lemma {:induction false} RedactIsSub(s: string)
    ensures RedactText(s) == Sub(false, s)
  {
    NoMatchNoSub(false, s);
    if '=' !in s {
      NoEqualsNoMatch(false, s);
    }
  }

  // ------------------------------------------------------------------ pieces

  predicate Stops(rest: string) {
    rest == "" || !ValueChar(rest[0])
  }

  lemma {:induction false} NextIs(afterWord: bool, s: string)
    requires s != ""
    ensures var step := Next(afterWord, s);
            && s == Write(step.piece) + step.rest
            && match step.piece
               case Plain(c) => Match(afterWord, s) == 0 && step.afterWord == Word(c)
               case Param(name, value) =>
                 && |name| == Match(afterWord, s) && !afterWord && name != "" && WordText(name)
                 && ValueText(value) && Stops(step.rest) && step.afterWord == EndsInWord(value)
  {
    MatchIs(afterWord, s);
    var n := Match(afterWord, s);
    if n > 0 {
      CutParam(s, n);
    }
  }

  lemma {:induction false} CutParam(s: string, n: nat)
    requires n < |s| && s[n] == '='
    ensures var v := ValueRun(s[n + 1..]); s == s[..n] + "=" + s[n + 1..][..v] + s[n + 1..][v..]
  {
  }

  lemma {:induction false} ParseStep(afterWord: bool, s: string)
    requires s != ""
    ensures var step := Next(afterWord, s);
            && Parse(afterWord, s) != []
            && Parse(afterWord, s)[0] == step.piece
            && Parse(afterWord, s)[1..] == Parse(step.afterWord, step.rest)
  {
  }

  lemma {:induction false} BlankAllStep(p: Piece, ps: seq<Piece>)
    ensures BlankAll([p] + ps) == [Blank(p)] + BlankAll(ps)
    ensures WriteAll([p] + ps) == Write(p) + WriteAll(ps)
  {
    assert ([p] + ps)[1..] == ps;
  }

  /** Nothing is lost by the parse, and the substitution is the parse with blank values. */
  lemma {:induction false} ParseWrites(afterWord: bool, s: string)
    ensures WriteAll(Parse(afterWord, s)) == s
    ensures WriteAll(BlankAll(Parse(afterWord, s))) == Sub(afterWord, s)
    decreases |s|
  {
    if s != "" {
      var step := Next(afterWord, s);
      NextIs(afterWord, s);
      ParseWrites(step.afterWord, step.rest);
      var tail := Parse(step.afterWord, step.rest);
      BlankAllStep(step.piece, tail);
      BlankAllStep(Blank(step.piece), BlankAll(tail));
    }
  }

  /** Text up to the first `=`, that one included: all that a name match looks at. */
  function UpToEquals(s: string): string {
    if s == "" then "" else if s[0] == '=' then "=" else [s[0]] + UpToEquals(s[1..])
  }

  lemma {:induction false} NamedTail(s: string, name: string)
    requires name != "" && '=' !in name
    ensures Named(s, name) <==> s != "" && LowerChar(s[0]) == name[0] && Named(s[1..], name[1..])
  {
    if |name| < |s| {
      assert Lower(s[..|name|])[0] == LowerChar(s[0]);
      assert Lower(s[..|name|])[1..] == Lower(s[1..][..|name| - 1]);
      assert name == [name[0]] + name[1..];
      assert Lower(s[..|name|]) == [LowerChar(s[0])] + Lower(s[1..][..|name| - 1]);
    }
  }

  lemma {:induction false} NamedLooksUpToEquals(s: string, t: string, name: string)
    requires '=' !in name && UpToEquals(s) == UpToEquals(t)
    ensures Named(s, name) == Named(t, name)
    decreases |name|
  {
    assert s == "" <==> t == "";
    if s != "" {
      assert s[0] == UpToEquals(s)[0] == UpToEquals(t)[0] == t[0];
      if name != "" {
        NamedTail(s, name);
        NamedTail(t, name);
        if s[0] != '=' {
          assert UpToEquals(s)[1..] == UpToEquals(s[1..]) && UpToEquals(t)[1..] == UpToEquals(t[1..]);
          NamedLooksUpToEquals(s[1..], t[1..], name[1..]);
        } else {
          assert name[0] != '=';
        }
      }
    }
  }

  lemma {:induction false} NameLengthLooksUpToEquals(s: string, t: string, names: seq<string>)
    requires (forall name :: name in names ==> '=' !in name) && UpToEquals(s) == UpToEquals(t)
    ensures NameLength(s, names) == NameLength(t, names)
  {
    if names != [] {
      NamedLooksUpToEquals(s, t, names[0]);
      NameLengthLooksUpToEquals(s, t, names[1..]);
    }
  }

  lemma {:induction false} UpToEqualsOfParam(name: string, value: string)
    requires '=' !in name
    ensures UpToEquals(name + "=" + value) == name + "="
  {
    if name != "" {
      assert (name + "=" + value)[1..] == name[1..] + "=" + value;
      UpToEqualsOfParam(name[1..], value);
    }
  }

  predicate NamesHaveNoEquals(ps: seq<Piece>) {
    forall p :: p in ps && p.Param? ==> '=' !in p.name
  }

  lemma {:induction false} UpToEqualsOfShape(ps: seq<Piece>, qs: seq<Piece>)
    requires SameShape(ps, qs) && NamesHaveNoEquals(ps)
    ensures UpToEquals(WriteAll(ps)) == UpToEquals(WriteAll(qs))
  {
    if ps != [] {
      assert ps[0] in ps;
      match ps[0]
      case Plain(c) =>
        UpToEqualsOfShape(ps[1..], qs[1..]);
        assert WriteAll(ps)[1..] == WriteAll(ps[1..]) && WriteAll(qs)[1..] == WriteAll(qs[1..]);
      case Param(name, value) =>
        assert WriteAll(ps) == name + "=" + (value + WriteAll(ps[1..]));
        assert WriteAll(qs) == name + "=" + (qs[0].value + WriteAll(qs[1..]));
        UpToEqualsOfParam(name, value + WriteAll(ps[1..]));
        UpToEqualsOfParam(name, qs[0].value + WriteAll(qs[1..]));
    }
  }

  lemma {:induction false} ParseNames(afterWord: bool, s: string)
    ensures NamesHaveNoEquals(Parse(afterWord, s))
    decreases |s|
  {
    if s != "" {
      var step := Next(afterWord, s);
      NextIs(afterWord, s);
      ParseNames(step.afterWord, step.rest);
    }
  }

  /** A value ends at a character that starts no name, so what the value was does not matter to the scan after it. */
  lemma {:induction false} ParseAfterValue(a: bool, b: bool, s: string)
    requires Stops(s)
    ensures Parse(a, s) == Parse(b, s)
  {
    if s != "" {
      MatchIs(a, s);
      MatchIs(b, s);
      assert !Word(s[0]) && Match(a, s) == 0 && Match(b, s) == 0;
    }
  }

  lemma {:induction false} ValueRunOf(value: string, rest: string)
    requires ValueText(value) && Stops(rest)
    ensures ValueRun(value + rest) == |value|
  {
    if value == "" {
      assert value + rest == rest;
    } else {
      assert (value + rest)[1..] == value[1..] + rest;
      ValueRunOf(value[1..], rest);
    }
  }

  /** The two shapes start with the same character, unless they start with a parameter. */
  lemma {:induction false} FirstOfShape(ps: seq<Piece>, qs: seq<Piece>)
    requires SameShape(ps, qs)
    ensures Stops(WriteAll(ps)) ==> Stops(WriteAll(qs))
  {
    if ps != [] && ps[0].Param? {
      var name := ps[0].name;
      if name == "" {
        assert WriteAll(ps)[0] == '=';
      } else {
        assert WriteAll(ps)[0] == name[0] && WriteAll(qs)[0] == name[0];
      }
    }
  }

  /** Rewriting credential values never moves, adds or hides a match. */
  lemma {:induction false} ParseKeepsShape(afterWord: bool, s: string, qs: seq<Piece>)
    requires SameShape(Parse(afterWord, s), qs)
    ensures Parse(afterWord, WriteAll(qs)) == qs
    decreases |s|
  {
    if s != "" {
      var step := Next(afterWord, s);
      ParseStep(afterWord, s);
      ParseKeepsShape(step.afterWord, step.rest, qs[1..]);
      SameMatch(afterWord, s, qs);
      match step.piece
      case Plain(c) => PlainKeepsShape(afterWord, s, qs);
      case Param(_, _) =>
        NextIs(afterWord, s);
        ParseWrites(step.afterWord, step.rest);
        FirstOfShape(Parse(step.afterWord, step.rest), qs[1..]);
        var name, value, after := step.piece.name, qs[0].value, WriteAll(qs[1..]);
        assert WriteAll(qs) == name + "=" + value + after;
        ParamKeepsShape(afterWord, step.afterWord, name, value, after);
        assert qs == [qs[0]] + qs[1..];
    }
  }

  lemma {:induction false} SameMatch(afterWord: bool, s: string, qs: seq<Piece>)
    requires SameShape(Parse(afterWord, s), qs)
    ensures Match(afterWord, s) == Match(afterWord, WriteAll(qs))
  {
    ParseWrites(afterWord, s);
    ParseNames(afterWord, s);
    UpToEqualsOfShape(Parse(afterWord, s), qs);
    NamesArePlain();
    NameLengthLooksUpToEquals(s, WriteAll(qs), NAMES);
  }

  lemma {:induction false} NamesArePlain()
    ensures forall name :: name in NAMES ==> '=' !in name
  {
    forall name | name in NAMES ensures '=' !in name {
      var k :| 0 <= k < |NAMES| && NAMES[k] == name;
    }
  }

  lemma {:induction false} PlainKeepsShape(afterWord: bool, s: string, qs: seq<Piece>)
    requires s != "" && qs != [] && Next(afterWord, s).piece == qs[0] == Plain(s[0])
    requires Parse(Next(afterWord, s).afterWord, WriteAll(qs[1..])) == qs[1..]
    requires Match(afterWord, WriteAll(qs)) == Match(afterWord, s)
    ensures Parse(afterWord, WriteAll(qs)) == qs
  {
    NextIs(afterWord, s);
    var t := WriteAll(qs);
    assert t[0] == s[0] && t[1..] == WriteAll(qs[1..]);
    assert Next(afterWord, t) == Step(qs[0], Word(s[0]), WriteAll(qs[1..]));
    assert qs == [qs[0]] + qs[1..];
  }

  lemma {:induction false} ParamKeepsShape(afterWord: bool, last: bool, name: string, value: string, after: string)
    requires ValueText(value) && Stops(after) && name != ""
    requires Match(afterWord, name + "=" + value + after) == |name|
    ensures Parse(afterWord, name + "=" + value + after) == [Param(name, value)] + Parse(last, after)
  {
    NextOfParam(afterWord, name, value, after);
    ParseAfterValue(last, EndsInWord(value), after);
  }

  lemma {:induction false} NextOfParam(afterWord: bool, name: string, value: string, after: string)
    requires ValueText(value) && Stops(after) && name != ""
    requires Match(afterWord, name + "=" + value + after) == |name|
    ensures Next(afterWord, name + "=" + value + after) == Step(Param(name, value), EndsInWord(value), after)
  {
    var t := name + "=" + value + after;
    ValueRunOf(value, after);
    assert t[..|name|] == name && t[|name| + 1..] == value + after;
    assert (value + after)[..|value|] == value && (value + after)[|value|..] == after;
  }

  // ------------------------------------------------------------------ the theorems

  lemma {:induction false} ShapeOfParse(afterWord: bool, s: string)
    ensures SameShape(Parse(afterWord, s), Parse(afterWord, s))
    ensures SameShape(Parse(afterWord, s), BlankAll(Parse(afterWord, s)))
  {
    ParseIsSelfShaped(afterWord, s);
    ShapeOfBlank(Parse(afterWord, s));
  }

  lemma {:induction false} ParseIsSelfShaped(afterWord: bool, s: string)
    ensures SameShape(Parse(afterWord, s), Parse(afterWord, s))
    decreases |s|
  {
    if s != "" {
      var step := Next(afterWord, s);
      NextIs(afterWord, s);
      ParseIsSelfShaped(step.afterWord, step.rest);
      var tail := Parse(step.afterWord, step.rest);
      SameShapeStep(step.piece, step.piece, tail, tail);
    }
  }

  lemma {:induction false} ShapeOfBlank(ps: seq<Piece>)
    requires SameShape(ps, ps)
    ensures SameShape(ps, BlankAll(ps))
  {
    if ps != [] {
      ShapeOfBlank(ps[1..]);
      SameShapeStep(ps[0], Blank(ps[0]), ps[1..], BlankAll(ps[1..]));
      assert ps == [ps[0]] + ps[1..];
    }
  }

  lemma {:induction false} SameShapeStep(p: Piece, q: Piece, ps: seq<Piece>, qs: seq<Piece>)
    requires SamePiece(p, q) && SameShape(ps, qs)
    ensures SameShape([p] + ps, [q] + qs)
  {
    assert ([p] + ps)[1..] == ps && ([q] + qs)[1..] == qs;
  }

  lemma {:induction false} BlankDecides(ps: seq<Piece>, qs: seq<Piece>)
    requires SameShape(ps, ps) && SameShape(qs, qs)
    ensures BlankAll(ps) == BlankAll(qs) <==> SameShape(ps, qs)
  {
    if |ps| == |qs| && ps != [] {
      BlankDecides(ps[1..], qs[1..]);
      assert BlankAll(ps)[0] == Blank(ps[0]) && BlankAll(qs)[0] == Blank(qs[0]);
      assert BlankAll(ps)[1..] == BlankAll(ps[1..]) && BlankAll(qs)[1..] == BlankAll(qs[1..]);
    }
  }

  lemma {:induction false} ParseOfRedacted(s: string)
    ensures Parse(false, RedactText(s)) == BlankAll(Parse(false, s))
  {
    RedactIsSub(s);
    ShapeOfParse(false, s);
    ParseWrites(false, s);
    ParseKeepsShape(false, s, BlankAll(Parse(false, s)));
  }

  /** Two strings redact alike exactly when they differ only in credential values. */
  lemma {:induction false} RedactsAlikeIffSameShape(s: string, t: string)
    ensures RedactText(s) == RedactText(t) <==> SameShape(Parse(false, s), Parse(false, t))
  {
    ParseOfRedacted(s);
    ParseOfRedacted(t);
    ShapeOfParse(false, s);
    ShapeOfParse(false, t);
    BlankDecides(Parse(false, s), Parse(false, t));
    RedactIsSub(s);
    RedactIsSub(t);
    ParseWrites(false, s);
    ParseWrites(false, t);
  }

  /** Replacing matched values by any others leaves the output unchanged. */
  lemma {:induction false} RedactIgnoresValues(s: string, qs: seq<Piece>)
    requires SameShape(Parse(false, s), qs)
    ensures RedactText(WriteAll(qs)) == RedactText(s)
  {
    ParseKeepsShape(false, s, qs);
    RedactsAlikeIffSameShape(s, WriteAll(qs));
  }

  lemma {:induction false} RedactTextIdempotent(s: string)
    ensures RedactText(RedactText(s)) == RedactText(s)
  {
    ShapeOfParse(false, s);
    ParseWrites(false, s);
    RedactIsSub(s);
    RedactIgnoresValues(s, BlankAll(Parse(false, s)));
  }

  // ------------------------------------------------------------------ no match of the output holds anything else

  /** The expression matches at `i`: a word boundary, a name, an equals sign. */
  ghost predicate MatchesAt(afterWord: bool, s: string, i: nat) {
    i < |s| && Match(if i == 0 then afterWord else Word(s[i - 1]), s[i..]) != 0
  }

  /** The value captured by a match at `i`. */
  ghost function ValueAt(afterWord: bool, s: string, i: nat): string
    requires MatchesAt(afterWord, s, i)
  {
    var before := if i == 0 then afterWord else Word(s[i - 1]);
    MatchIs(before, s[i..]);
    var rest := s[i..][Match(before, s[i..]) + 1..];
    rest[..ValueRun(rest)]
  }

  /** No match starts inside `name=[redacted]`, past its first character. */
  lemma {:induction false} RedactedIsInert(name: string, after: string, i: nat)
    requires WordText(name) && 0 < i < |name| + 1 + |REDACTED|
    ensures var s := name + "=" + REDACTED + after; Match(Word(s[i - 1]), s[i..]) == 0
  {
    var s := name + "=" + REDACTED + after;
    if i < |name| {
      assert Word(s[i - 1]);
    } else {
      BracketBlocks(s, |name| + |REDACTED|, i);
    }
  }

  /** Between an `=` and the next `]` there is no name to match. */
  lemma {:induction false} BracketBlocks(s: string, close: nat, i: nat)
    requires 0 < i <= close < |s| && s[close] == ']'
    requires forall k :: i < k <= close ==> s[k] != '='
    ensures Match(Word(s[i - 1]), s[i..]) == 0
  {
    var t := s[i..];
    assert t[close - i] == ']' && forall k :: 0 < k <= close - i ==> t[k] != '=';
    MatchIs(Word(s[i - 1]), t);
  }

  lemma {:induction false} BlankedStep(p: Piece, ps: seq<Piece>)
    requires [p] + ps == BlankAll([p] + ps)
    ensures p == Blank(p) && ps == BlankAll(ps)
  {
    BlankAllStep(p, ps);
    assert ([p] + ps)[0] == p && ([p] + ps)[1..] == ps;
    assert ([Blank(p)] + BlankAll(ps))[1..] == BlankAll(ps);
  }

  lemma {:induction false} OnlyRedactedValues(afterWord: bool, s: string, i: nat)
    requires MatchesAt(afterWord, s, i) && Parse(afterWord, s) == BlankAll(Parse(afterWord, s))
    ensures ValueAt(afterWord, s, i) == REDACTED
    decreases |s|
  {
    var step := Next(afterWord, s);
    NextIs(afterWord, s);
    BlankedStep(step.piece, Parse(step.afterWord, step.rest));
    var used := |Write(step.piece)|;
    if i == 0 {
      ValueAtFront(afterWord, s);
    } else if i >= used {
      LastOfPiece(step.piece);
      LaterMatch(afterWord, Write(step.piece), step.afterWord, step.rest, i);
      OnlyRedactedValues(step.afterWord, step.rest, i - used);
    } else {
      RedactedIsInert(step.piece.name, step.rest, i);
    }
  }

  lemma {:induction false} ValueAtFront(afterWord: bool, s: string)
    requires MatchesAt(afterWord, s, 0)
    ensures Next(afterWord, s).piece.Param? && ValueAt(afterWord, s, 0) == Next(afterWord, s).piece.value
  {
    assert s[0..] == s;
  }

  lemma {:induction false} LaterMatch(afterWord: bool, head: string, last: bool, rest: string, i: nat)
    requires head != "" && last == Word(head[|head| - 1]) && i >= |head|
    requires MatchesAt(afterWord, head + rest, i)
    ensures MatchesAt(last, rest, i - |head|)
    ensures ValueAt(afterWord, head + rest, i) == ValueAt(last, rest, i - |head|)
  {
    assert (head + rest)[i..] == rest[i - |head|..];
    assert (head + rest)[i - 1] == if i == |head| then head[|head| - 1] else rest[i - |head| - 1];
  }

  lemma {:induction false} LastOfPiece(p: Piece)
    ensures Write(p) != ""
    ensures Word(Write(p)[|Write(p)| - 1]) == match p case Plain(c) => Word(c) case Param(_, value) => EndsInWord(value)
  {
  }

  /** However the output is searched, every credential parameter found in it has the value `[redacted]`. */
  lemma {:induction false} NothingLeaks(s: string, i: nat)
    requires MatchesAt(false, RedactText(s), i)
    ensures ValueAt(false, RedactText(s), i) == REDACTED
  {
    ParseOfRedacted(s);
    RedactTextIdempotent(s);
    ParseOfRedacted(RedactText(s));
    OnlyRedactedValues(false, RedactText(s), i);
  }
}
