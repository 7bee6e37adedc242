/**
 What the redactors do, said apart from the scanner and the walk: which text is replaced, and
 what stands where in a redacted payload.
 */
module RedactionLaws {
  import opened Wrappers
  import opened Texts
  import opened TextRedaction
  import opened TreeRedaction

  // ------------------------------------------------------------------ text

  /** The parameters that carry a credential, in any case. */
  predicate Listed(name: string) {
    Lower(name) in {
      "auth", "token", "access_token", "refresh_token", "refresh_id", "auth_id", "application_token",
      "client_secret", "client_id", "password", "secret"
    }
  }

  /** The characters a value ends at. */
  predicate Stopper(c: char) {
    IsSpace(c) || c in {'&', '\"', '\'', '<', '>', '#'}
  }

  /** A name starts after `before`: at the start, or after neither letter, digit nor underscore. */
  predicate Boundary(before: string) {
    before != "" ==>
      var c := LowerChar(before[|before| - 1]);
      !('a' <= c <= 'z') && !('0' <= c <= '9') && c != '_'
  }

  predicate Value(s: string) {
    forall i :: 0 <= i < |s| ==> !Stopper(s[i])
  }

  predicate Ends(s: string) {
    s == "" || Stopper(s[0])
  }

  lemma {:induction false} ListedIs(name: string)
    ensures Listed(name) <==> Lower(name) in NAMES
    ensures Listed(name) ==> name != "" && WordText(name) && '=' !in name
  {
    if Lower(name) in NAMES {
      var k :| 0 <= k < |NAMES| && NAMES[k] == Lower(name);
      ListedNames(k);
      forall i | 0 <= i < |name| ensures Word(name[i]) && name[i] != '=' {
        assert Lower(name)[i] == LowerChar(name[i]) == NAMES[k][i];
      }
    }
    if Listed(name) {
      ListedIn(Lower(name));
    }
  }

  lemma {:induction false} ListedNames(k: nat)
    requires k < |NAMES|
    ensures NAMES[k] != "" && WordText(NAMES[k]) && '=' !in NAMES[k]
    ensures NAMES[k] in {
      "auth", "token", "access_token", "refresh_token", "refresh_id", "auth_id", "application_token",
      "client_secret", "client_id", "password", "secret"
    }
  {
  }

  lemma {:induction false} ListedIn(lower: string)
    requires lower in {
      "auth", "token", "access_token", "refresh_token", "refresh_id", "auth_id", "application_token",
      "client_secret", "client_id", "password", "secret"
    }
    ensures lower in NAMES
  {
    assert NAMES[0] == "auth" && NAMES[1] == "token" && NAMES[2] == "access_token" && NAMES[3] == "refresh_token";
    assert NAMES[4] == "refresh_id" && NAMES[5] == "auth_id" && NAMES[6] == "application_token";
    assert NAMES[7] == "client_secret" && NAMES[8] == "client_id" && NAMES[9] == "password" && NAMES[10] == "secret";
  }

  /** Before the first `=` a name can only match right up to it. */
  lemma {:induction false} MatchAtEquals(afterWord: bool, name: string, rest: string)
    requires '=' !in name
    ensures Match(afterWord, name + "=" + rest) == if !afterWord && Listed(name) then |name| else 0
  {
    var s, n := name + "=" + rest, Match(afterWord, name + "=" + rest);
    ListedIs(name);
    MatchIs(afterWord, s);
    assert s[..|name|] == name && s[|name|] == '=';
    if n != 0 {
      forall i | 0 <= i < n ensures s[i] != '=' {
        assert s[i] == s[..n][i];
      }
      MatchEndsAtEquals(name, rest, n);
    } else if !afterWord && Listed(name) {
      assert Named(s, Lower(name));
    }
  }

  lemma {:induction false} MatchEndsAtEquals(name: string, rest: string, n: nat)
    requires '=' !in name
    requires var s := name + "=" + rest; n < |s| && s[n] == '=' && forall i :: 0 <= i < n ==> s[i] != '='
    ensures n == |name|
  {
    var s := name + "=" + rest;
    assert s[|name|] == '=';
    forall i | 0 <= i < |name| ensures s[i] != '=' {
      assert s[i] == name[i];
    }
  }

  lemma {:induction false} SubStep(afterWord: bool, s: string)
    requires s != "" && Match(afterWord, s) == 0
    ensures Sub(afterWord, s) == [s[0]] + Sub(Word(s[0]), s[1..])
  {
  }

  /** No listed name stands right before the end of the text. */
  predicate NoneEnds(afterWord: bool, text: string) {
    forall k :: 0 <= k <= |text| && Listed(text[k..]) ==> if k == 0 then afterWord else Word(text[k - 1])
  }

  lemma {:induction false} NoneEndsTail(afterWord: bool, c: char, tail: string)
    requires NoneEnds(afterWord, [c] + tail)
    ensures Listed([c] + tail) ==> afterWord
    ensures NoneEnds(Word(c), tail)
  {
    var text := [c] + tail;
    assert text[0..] == text;
    forall k | 0 <= k <= |tail| && Listed(tail[k..]) ensures if k == 0 then Word(c) else Word(tail[k - 1]) {
      assert text[k + 1..] == tail[k..];
    }
  }

  lemma {:induction false} Glue(text: string, middle: string, rest: string, s: string)
    requires text != "" && s == text + middle + rest
    ensures s != "" && s[0] == text[0] && s[1..] == text[1..] + middle + rest
    ensures [text[0]] + (text[1..] + middle + rest) == s
  {
  }

  lemma {:induction false} SubPlain(afterWord: bool, text: string, rest: string)
    requires '=' !in text && NoneEnds(afterWord, text)
    ensures Sub(afterWord, text + "=" + rest) == text + "=" + Sub(false, rest)
    decreases |text|
  {
    var s, done := text + "=" + rest, Sub(false, rest);
    MatchAtEquals(afterWord, text, rest);
    if text == "" {
      ListedIs(text);
      assert s[0] == '=' && s[1..] == rest;
      SubStep(afterWord, s);
    } else {
      assert text == [text[0]] + text[1..];
      NoneEndsTail(afterWord, text[0], text[1..]);
      SubPlain(Word(text[0]), text[1..], rest);
      Glue(text, "=", rest, s);
      Glue(text, "=", done, text + "=" + done);
      SubStep(afterWord, s);
    }
  }

  lemma {:induction false} SubAfterValue(a: bool, b: bool, s: string)
    requires Stops(s)
    ensures Sub(a, s) == Sub(b, s)
  {
    ParseAfterValue(a, b, s);
    ParseWrites(a, s);
    ParseWrites(b, s);
  }

  lemma {:induction false} SubOfParam(name: string, value: string, rest: string)
    requires Listed(name) && ValueText(value) && Stops(rest)
    ensures Sub(false, name + "=" + value + rest) == name + "=" + REDACTED + Sub(false, rest)
  {
    ListedIs(name);
    assert name + "=" + (value + rest) == name + "=" + value + rest;
    MatchAtEquals(false, name, value + rest);
    NextOfParam(false, name, value, rest);
    SubAfterValue(EndsInWord(value), false, rest);
  }

  lemma {:induction false} GlueTail(text: string, t: string, out: string)
    requires text != ""
    ensures (text + t)[0] == text[0] && (text + t)[1..] == text[1..] + t
    ensures [text[0]] + (text[1..] + out) == text + out
  {
  }

  /** Text that ends at a word boundary goes through up to the first `=`. */
  lemma {:induction false} SubUpTo(afterWord: bool, text: string, t: string, name: string, rest: string)
    requires '=' !in text && '=' !in name && t == name + "=" + rest
    requires if text == "" then !afterWord else !Word(text[|text| - 1])
    ensures Sub(afterWord, text + t) == text + Sub(false, t)
    decreases |text|
  {
    if text == "" {
      assert text + t == t;
    } else {
      NoMatchAcross(afterWord, text, t, name, rest);
      SubUpTo(Word(text[0]), text[1..], t, name, rest);
      GlueTail(text, t, Sub(false, t));
      SubStep(afterWord, text + t);
    }
  }

  lemma {:induction false} NoMatchAcross(afterWord: bool, text: string, t: string, name: string, rest: string)
    requires text != "" && !Word(text[|text| - 1]) && '=' !in text && '=' !in name && t == name + "=" + rest
    ensures Match(afterWord, text + t) == 0
  {
    assert text + t == (text + name) + "=" + rest;
    MatchAtEquals(afterWord, text + name, rest);
    ListedIs(text + name);
    assert (text + name)[|text| - 1] == text[|text| - 1];
  }

  // ------------------------------------------------------------------ the equations of the substitution

  /** The first `=` after this text ends no listed name. */
  ghost predicate NoName(text: string) {
    '=' !in text && forall k :: 0 <= k <= |text| && Boundary(text[..k]) ==> !Listed(text[k..])
  }

  /** The first `=` after this text ends this listed name, and has this value. */
  predicate Credential(text: string, name: string, value: string, rest: string) {
    '=' !in text && Boundary(text) && Listed(name) && Value(value) && Ends(rest)
  }

  /** The laws of `redact_text`: what it leaves alone, what goes through, what is replaced. */
  ghost predicate Redacts(f: string -> string) {
    && (forall s :: '=' !in s ==> f(s) == s)
    && (forall text, rest :: NoName(text) ==> f(text + "=" + rest) == text + "=" + f(rest))
    && (forall text, name, value, rest :: Credential(text, name, value, rest) ==>
          f(text + (name + "=" + value + rest)) == text + (name + "=" + "[redacted]" + f(rest)))
  }

  lemma {:induction false} RedactNoEquals(s: string)
    requires '=' !in s
    ensures RedactText(s) == s
  {
  }

  lemma {:induction false} RedactPlain(text: string, rest: string)
    requires NoName(text)
    ensures RedactText(text + "=" + rest) == text + "=" + RedactText(rest)
  {
    RedactIsSub(text + "=" + rest);
    RedactIsSub(rest);
    NoneEndsIs(text);
    SubPlain(false, text, rest);
  }

  lemma {:induction false} NoneEndsIs(text: string)
    requires forall k :: 0 <= k <= |text| && Boundary(text[..k]) ==> !Listed(text[k..])
    ensures NoneEnds(false, text)
  {
    forall k | 0 <= k <= |text| && Listed(text[k..]) ensures if k == 0 then false else Word(text[k - 1]) {
      BoundaryIs(text[..k]);
    }
  }

  lemma {:induction false} BoundaryIs(before: string)
    ensures Boundary(before) <==> before == "" || !Word(before[|before| - 1])
  {
  }

  lemma {:induction false} RedactParam(text: string, name: string, value: string, rest: string)
    requires Credential(text, name, value, rest)
    ensures RedactText(text + (name + "=" + value + rest)) == text + (name + "=" + "[redacted]" + RedactText(rest))
  {
    var t := name + "=" + value + rest;
    ListedIs(name);
    BoundaryIs(text);
    RedactIsSub(text + t);
    RedactIsSub(rest);
    ValueIs(value, rest);
    ParamIsBlanked(text, t, name, value, rest);
  }

  lemma {:induction false} ParamIsBlanked(text: string, t: string, name: string, value: string, rest: string)
    requires '=' !in text && '=' !in name && (text == "" || !Word(text[|text| - 1])) && Listed(name)
    requires ValueText(value) && Stops(rest) && t == name + "=" + value + rest
    ensures Sub(false, text + t) == text + (name + "=" + REDACTED + Sub(false, rest))
  {
    ParamGoes(text, t, name, value, rest);
    SubOfParam(name, value, rest);
  }

  lemma {:induction false} ValueIs(value: string, rest: string)
    ensures Value(value) <==> ValueText(value)
    ensures Ends(rest) <==> Stops(rest)
  {
    forall c: char ensures Stopper(c) <==> !ValueChar(c) {
    }
  }

  lemma {:induction false} ParamGoes(text: string, t: string, name: string, value: string, rest: string)
    requires '=' !in text && '=' !in name && (text == "" || !Word(text[|text| - 1])) && Listed(name)
    requires ValueText(value) && Stops(rest) && t == name + "=" + value + rest
    ensures Sub(false, text + t) == text + Sub(false, t)
  {
    assert t == name + "=" + (value + rest);
    SubUpTo(false, text, t, name, value + rest);
  }

  /** Every text is one of the three kinds. */
  lemma {:induction false} LawsCover(s: string) returns (text: string, name: string, value: string, rest: string)
    requires '=' in s
    ensures |rest| < |s|
    ensures if name == "" then NoName(text) && s == text + "=" + rest
            else Credential(text, name, value, rest) && s == text + (name + "=" + value + rest)
  {
    var i := Find(s, '=');
    text, name, value, rest := s[..i], "", "", s[i + 1..];
    if !NoName(text) {
      var k: nat :| k <= i && Boundary(text[..k]) && Listed(text[k..]);
      assert s[..i][..k] == s[..k] && s[..i][k..] == s[k..i];
      text, name := s[..k], s[k..i];
      value, rest := CutValue(s[i + 1..]);
      ListedIs(name);
      CutIsWhole(s, i, k, value, rest);
    }
  }

  lemma {:induction false} CutIsWhole(s: string, i: nat, k: nat, value: string, rest: string)
    requires k <= i < |s| && s[i] == '=' && s[i + 1..] == value + rest
    ensures s == s[..k] + (s[k..i] + "=" + value + rest)
    ensures |rest| < |s|
  {
    assert s == s[..k] + s[k..i] + [s[i]] + s[i + 1..];
  }

  lemma {:induction false} CutValue(tail: string) returns (value: string, rest: string)
    ensures tail == value + rest && Value(value) && Ends(rest)
  {
    var v := ValueRun(tail);
    value, rest := tail[..v], tail[v..];
    ValueIs(value, rest);
  }

  /** `redact_text` obeys the laws. */
  lemma {:induction false} RedactTextRedacts()
    ensures Redacts(RedactText)
  {
    forall s | '=' !in s ensures RedactText(s) == s {
      RedactNoEquals(s);
    }
    forall text, rest | NoName(text) ensures RedactText(text + "=" + rest) == text + "=" + RedactText(rest) {
      RedactPlain(text, rest);
    }
    forall text, name, value, rest | Credential(text, name, value, rest)
      ensures RedactText(text + (name + "=" + value + rest)) == text + (name + "=" + "[redacted]" + RedactText(rest))
    {
      RedactParam(text, name, value, rest);
    }
  }

  /** No other function obeys the laws. */
  lemma {:induction false} RedactTextIsThat(f: string -> string, s: string)
    requires Redacts(f)
    ensures f(s) == RedactText(s)
    decreases |s|
  {
    if '=' in s {
      var text, name, value, rest := LawsCover(s);
      RedactTextIsThat(f, rest);
      if name == "" {
        RedactPlain(text, rest);
      } else {
        RedactParam(text, name, value, rest);
      }
    }
  }

  /** However the output is searched, after a listed name and its `=` stands `[redacted]`, and there the value ends. */
  lemma {:induction false} NoListedValueLeaks(s: string, before: string, name: string, after: string)
    requires RedactText(s) == before + name + "=" + after && Boundary(before) && Listed(name)
    ensures |after| >= 10 && after[..10] == "[redacted]" && Ends(after[10..])
  {
    var out, i := RedactText(s), |before|;
    ListedIs(name);
    assert out[i..] == name + "=" + after;
    MatchAtEquals(false, name, after);
    assert i > 0 ==> out[i - 1] == before[i - 1];
    assert MatchesAt(false, out, i);
    NothingLeaks(s, i);
    assert out[i..][|name| + 1..] == after;
    assert after[..ValueRun(after)] == REDACTED;
  }

  // ------------------------------------------------------------------ payloads

  /** A key with a listed word anywhere in it, in any case. */
  ghost predicate Secret(key: string) {
    exists i, j :: 0 <= i <= j <= |key| && SecretWord(Lower(key[i..j]))
  }

  predicate SecretWord(word: string) {
    word in {"token", "secret", "auth", "password", "client_id", "refresh_id", "app_sid", "sessid"}
  }

  lemma {:induction false} SecretWordsAreThose(word: string)
    ensures SecretWord(word) <==> word in KEY_WORDS
  {
    if SecretWord(word) {
      assert KEY_WORDS[0] == "token" && KEY_WORDS[1] == "secret" && KEY_WORDS[2] == "auth";
      assert KEY_WORDS[3] == "password" && KEY_WORDS[4] == "client_id" && KEY_WORDS[5] == "refresh_id";
      assert KEY_WORDS[6] == "app_sid" && KEY_WORDS[7] == "sessid";
    }
  }

  lemma {:induction false} SecretIsSensitive(key: string)
    ensures Secret(key) <==> Sensitive(key)
  {
    if Secret(key) {
      var i, j :| 0 <= i <= j <= |key| && SecretWord(Lower(key[i..j]));
      SecretWordsAreThose(Lower(key[i..j]));
      var k :| 0 <= k < |KEY_WORDS| && KEY_WORDS[k] == Lower(key[i..j]);
      LowerOfPart(key, i, j);
      assert WordAt(Lower(key), KEY_WORDS[k], i);
      assert HasWord(Lower(key), KEY_WORDS[k]);
    }
    if Sensitive(key) {
      var k :| 0 <= k < |KEY_WORDS| && HasWord(Lower(key), KEY_WORDS[k]);
      SensitiveIsSecret(key, KEY_WORDS[k]);
    }
  }

  lemma {:induction false} SensitiveIsSecret(key: string, word: string)
    requires word in KEY_WORDS && HasWord(Lower(key), word)
    ensures Secret(key)
  {
    var i :| 0 <= i <= |Lower(key)| && WordAt(Lower(key), word, i);
    LowerOfPart(key, i, i + |word|);
    SecretWordsAreThose(word);
    assert SecretWord(Lower(key[i..i + |word|]));
  }

  lemma {:induction false} LowerOfPart(s: string, i: nat, j: nat)
    requires i <= j <= |s|
    ensures Lower(s)[i..j] == Lower(s[i..j])
  {
  }

  function Children(c: Cell): (values: seq<Obj>) {
    match c
    case Mapping(items) => seq(|items|, i requires 0 <= i < |items| => items[i].value)
    case Listing(values, _) => values
  }

  ghost predicate Hidden(c: Cell, i: nat) {
    c.Mapping? && i < |c.items| && Secret(c.items[i].key)
  }

  /**
   A way down from `os[0]`: each object but the last is a container, met for the first time,
   and the next one is its child at `path[k]`, not under a secret key.
   */
  ghost predicate Way(heap: Heap, os: seq<Obj>, path: seq<nat>) {
    && |os| == |path| + 1
    && (forall k :: 0 <= k < |path| ==> WayStep(heap, os[k], path[k], os[k + 1]))
    && (forall j, k :: 0 <= j < k < |path| ==> os[j] != os[k])
  }

  ghost predicate WayStep(heap: Heap, o: Obj, i: nat, child: Obj) {
    && o.Ref? && i < |Children(heap(o.id))| && !Hidden(heap(o.id), i)
    && child == Children(heap(o.id))[i]
  }

  /** What the copy holds at the end of a way. */
  function Pick(out: Out, path: seq<nat>): Option<Out> {
    if path == [] then Some(out)
    else if (out.OutMap? || out.OutList?) && path[0] < |out.outs| then Pick(out.outs[path[0]], path[1..])
    else None
  }

  /** The copy of an object met with `room` levels left, below the containers `above`. */
  ghost predicate Copied(heap: Heap, above: set<Id>, o: Obj, room: nat, out: Out) {
    if room == 0 then out == OutText("[truncated]")
    else
      match o
      case Atom(text) => out == OutAtom(text)
      case Text(text) => out == OutText(RedactText(text))
      case Bytes(_) => out == OutText("[redacted]")
      case Other(text) => out == (if RedactText(text) == text then Kept(text) else OutText(RedactText(text)))
      case Ref(id) => if id in above then out == OutText("[truncated]") else CellCopied(heap(id), out)
  }

  /** The same container, with the same keys, and every secret replaced. */
  ghost predicate CellCopied(c: Cell, out: Out) {
    match c
    case Mapping(items) =>
      && out.OutMap? && |out.keys| == |out.outs| == |items|
      && forall i :: 0 <= i < |items| ==>
           out.keys[i] == items[i].key && (Secret(items[i].key) ==> out.outs[i] == OutText("[redacted]"))
    case Listing(values, kind) => out.OutList? && out.kind == kind && |out.outs| == |values|
  }

  lemma {:induction false} KeysAt(items: seq<Item>, i: nat)
    requires i < |items|
    ensures Keys(items)[i] == items[i].key
  {
    if i > 0 {
      KeysAt(items[1..], i - 1);
    }
  }

  lemma {:induction false} ItemsAt(heap: Heap, items: seq<Item>, depth: nat, seen: set<Id>, i: nat)
    requires depth > 0 && i < |items|
    ensures WalkItems(heap, items, depth, seen)[i]
         == if Secret(items[i].key) then OutText("[redacted]") else Walk(heap, items[i].value, depth - 1, seen)
  {
    SecretIsSensitive(items[i].key);
    if i > 0 {
      ItemsAt(heap, items[1..], depth, seen, i - 1);
    }
  }

  lemma {:induction false} ValuesAt(heap: Heap, values: seq<Obj>, depth: nat, seen: set<Id>, i: nat)
    requires depth > 0 && i < |values|
    ensures WalkValues(heap, values, depth, seen)[i] == Walk(heap, values[i], depth - 1, seen)
  {
    if i > 0 {
      ValuesAt(heap, values[1..], depth, seen, i - 1);
    }
  }

  lemma {:induction false} WalkCopies(heap: Heap, o: Obj, depth: nat, seen: set<Id>)
    ensures Copied(heap, seen, o, depth, Walk(heap, o, depth, seen))
  {
    if depth > 0 && o.Ref? && o.id !in seen && heap(o.id).Mapping? {
      var items := heap(o.id).items;
      forall i | 0 <= i < |items|
        ensures Keys(items)[i] == items[i].key
        ensures Secret(items[i].key) ==> WalkItems(heap, items, depth, seen + {o.id})[i] == OutText("[redacted]")
      {
        KeysAt(items, i);
        ItemsAt(heap, items, depth, seen + {o.id}, i);
      }
    }
  }

  lemma {:induction false} WalkStep(heap: Heap, o: Obj, i: nat, child: Obj, depth: nat, seen: set<Id>)
    requires depth > 0 && WayStep(heap, o, i, child) && o.id !in seen
    ensures var out := Walk(heap, o, depth, seen);
            && (out.OutMap? || out.OutList?) && i < |out.outs|
            && out.outs[i] == Walk(heap, child, depth - 1, seen + {o.id})
  {
    match heap(o.id)
    case Mapping(items) => ItemsAt(heap, items, depth, seen + {o.id}, i);
    case Listing(values, _) => ValuesAt(heap, values, depth, seen + {o.id}, i);
  }

  ghost function Above(os: seq<Obj>): set<Id> {
    set o | o in os && o.Ref? :: o.id
  }

  lemma {:induction false} WalkAlong(heap: Heap, os: seq<Obj>, path: seq<nat>, depth: nat, seen: set<Id>)
    requires Way(heap, os, path) && |path| <= depth
    requires forall k :: 0 <= k < |path| ==> os[k].Ref? && os[k].id !in seen
    ensures Pick(Walk(heap, os[0], depth, seen), path)
         == Some(Walk(heap, os[|path|], depth - |path|, seen + Above(os[..|path|])))
    decreases |path|
  {
    if path == [] {
      assert os[..0] == [] && seen + Above([]) == seen;
    } else {
      var o := os[0];
      WalkStep(heap, o, path[0], os[1], depth, seen);
      WayTail(heap, os, path);
      forall k | 0 <= k < |path| - 1 ensures os[1..][k].Ref? && os[1..][k].id !in seen + {o.id} {
        assert os[0] != os[k + 1];
      }
      WalkAlong(heap, os[1..], path[1..], depth - 1, seen + {o.id});
      AboveStep(os, |path|, seen);
    }
  }

  lemma {:induction false} WayTail(heap: Heap, os: seq<Obj>, path: seq<nat>)
    requires Way(heap, os, path) && path != []
    ensures Way(heap, os[1..], path[1..])
  {
    forall k | 0 <= k < |path| - 1 ensures WayStep(heap, os[1..][k], path[1..][k], os[1..][k + 1]) {
      assert WayStep(heap, os[k + 1], path[k + 1], os[k + 2]);
    }
  }

  lemma {:induction false} AboveStep(os: seq<Obj>, n: nat, seen: set<Id>)
    requires 0 < n <= |os| && os[0].Ref?
    ensures seen + Above(os[..n]) == seen + {os[0].id} + Above(os[1..][..n - 1])
  {
    assert os[..n] == [os[0]] + os[1..][..n - 1];
  }

  /** What stands at the end of every way down a payload, in its redacted copy. */
  lemma {:induction false} WhatStands(heap: Heap, os: seq<Obj>, path: seq<nat>)
    requires Way(heap, os, path) && |path| <= 12
    ensures var out := Pick(Redact(heap, os[0]), path);
            out.Some? && Copied(heap, Above(os[..|path|]), os[|path|], 12 - |path|, out.value)
  {
    forall k | 0 <= k < |path| ensures os[k].Ref? {
      assert WayStep(heap, os[k], path[k], os[k + 1]);
    }
    WalkAlong(heap, os, path, MAX_DEPTH, {});
    assert {} + Above(os[..|path|]) == Above(os[..|path|]);
    WalkCopies(heap, os[|path|], 12 - |path|, Above(os[..|path|]));
  }
}
