/**
 The PHP-array wire format in both directions: the flattening encoder of
 `bitrix/client.py` and the bracket parser of `bitrix/forms.py`.
 */
module PhpArrays {
  import opened Wrappers

  /** A parameter as a caller passes it; a mapping is an ordered list of distinct keys. */
  datatype Value =
    | Null
    | Flag(b: bool)
    | Number(n: int)
    | Text(s: string)
    | Rendered(s: string) // float, Decimal, UUID, date: by its own string form
    | Mapping(entries: seq<Entry>)
    | Listing(items: seq<Value>)

  datatype Entry = Entry(key: string, value: Value)

  type Pair = (string, string)

  datatype EncodeError = TooDeep(at: string)

  const MAX_PARAM_DEPTH: nat := 8
  const MAX_BRACKET_DEPTH: nat := 8

  // ------------------------------------------------------------------ numbers as text

  function Digits(n: nat): (s: string)
    ensures |s| > 0
    ensures forall i :: 0 <= i < |s| ==> '0' <= s[i] <= '9'
  {
    if n < 10 then [DigitChar(n)] else Digits(n / 10) + [DigitChar(n % 10)]
  }

  function DigitChar(n: nat): (c: char)
    requires n < 10
    ensures '0' <= c <= '9'
    ensures c as int == '0' as int + n
  {
    ('0' as int + n) as char
  }

  lemma {:induction false} DigitsInjective(m: nat, n: nat)
    requires Digits(m) == Digits(n)
    ensures m == n
    decreases m
  {
    var a, b := Digits(m), Digits(n);
    assert a[|a| - 1] == b[|b| - 1];
    if m < 10 || n < 10 {
    } else {
      assert Digits(m / 10) == a[..|a| - 1];
      assert Digits(n / 10) == b[..|b| - 1];
      DigitsInjective(m / 10, n / 10);
    }
  }

  function Scalar(v: Value): string
    requires v.Flag? || v.Number? || v.Text? || v.Rendered?
  {
    match v
    case Flag(b) => if b then "1" else "0"
    case Number(n) => if n < 0 then "-" + Digits(-n) else Digits(n)
    case Text(s) => s
    case Rendered(s) => s
  }

  // ------------------------------------------------------------------ the encoder

  function Encode(prefix: string, v: Value, depth: int): Result<seq<Pair>, EncodeError>
    decreases v, 1
  {
    if v.Null? then Success([])
    else if depth <= 0 then Failure(TooDeep(prefix))
    else if v.Mapping? then EncodeEntries(prefix, v.entries, depth - 1)
    else if v.Listing? then EncodeItems(prefix, v.items, 0, depth - 1)
    else Success([(prefix, Scalar(v))])
  }

  function EncodeEntries(prefix: string, entries: seq<Entry>, depth: int): Result<seq<Pair>, EncodeError>
    decreases entries, 0
  {
    if entries == [] then Success([])
    else
      var head :- Encode(prefix + "[" + entries[0].key + "]", entries[0].value, depth);
      var tail :- EncodeEntries(prefix, entries[1..], depth);
      Success(head + tail)
  }

  function EncodeItems(prefix: string, items: seq<Value>, index: nat, depth: int): Result<seq<Pair>, EncodeError>
    decreases items, 0
  {
    if items == [] then Success([])
    else
      var head :- Encode(prefix + "[" + Digits(index) + "]", items[0], depth);
      var tail :- EncodeItems(prefix, items[1..], index + 1, depth);
      Success(head + tail)
  }

  function QueryPairs(params: seq<Entry>): Result<seq<Pair>, EncodeError>
  {
    if params == [] then Success([])
    else
      var head :- Encode(params[0].key, params[0].value, MAX_PARAM_DEPTH);
      var tail :- QueryPairs(params[1..]);
      Success(head + tail)
  }

  // ------------------------------------------------------------------ bracket names

  predicate IsBracket(c: char) {
    c == '[' || c == ']'
  }

  predicate BracketFree(s: string) {
    forall i :: 0 <= i < |s| ==> !IsBracket(s[i])
  }

  /** A name segment that survives the wire: not empty, no bracket in it. */
  predicate Segment(s: string) {
    s != "" && BracketFree(s)
  }

  function Render(base: string, path: seq<string>): string
    decreases |path|
  {
    if path == [] then base else Render(base + "[" + path[0] + "]", path[1..])
  }

  /** Length of the longest bracket-free prefix. */
  function Run(s: string): (n: nat)
    ensures n <= |s|
    ensures BracketFree(s[..n])
    ensures n < |s| ==> IsBracket(s[n])
  {
    if s == "" || IsBracket(s[0]) then 0
    else
      var n := Run(s[1..]);
      assert s[..n + 1] == [s[0]] + s[1..][..n];
      n + 1
  }

  /** All of `s` as a sequence of bracketed segments. */
  function Segments(s: string): Option<seq<string>>
  {
    if s == "" then Some([])
    else if s[0] != '[' then None
    else
      var n := Run(s[1..]);
      if n + 1 == |s| || s[n + 1] != ']' then None
      else match Segments(s[n + 2..])
        case None => None
        case Some(rest) => Some([s[1..n + 1]] + rest)
  }

  function SplitName(key: string): Option<(string, seq<string>)>
  {
    var n := Run(key);
    if n == 0 then None
    else match Segments(key[n..])
      case None => None
      case Some(segments) => if segments == [] then None else Some((key[..n], segments))
  }

  /** `_BRACKET_KEY_RE.match`: its `$` also matches before one final newline. */
  function BracketMatch(key: string): Option<(string, seq<string>)>
  {
    if key != "" && key[|key| - 1] == '\n' then SplitName(key[..|key| - 1]) else SplitName(key)
  }

  // ------------------------------------------------------------------ the decoder

  datatype Node = Leaf(text: string) | Dict(items: map<string, Node>)

  type Tree = map<string, Node>

  datatype FormError =
    | TooManyFields
    | FieldNameTooLong
    | BodyTooLarge
    | KeyTooDeep(key: string)

  function NameIn(segment: string, node: Tree): string {
    if segment != "" then segment else Digits(|node|)
  }

  function ChildOf(node: Tree, name: string): Tree {
    if name in node && node[name].Dict? then node[name].items else map[]
  }

  /** The walk of one bracketed key: every missing or scalar container is replaced by a dict. */
  function Put(node: Tree, path: seq<string>, text: string): Tree
    requires path != []
    decreases |path|
  {
    var name := NameIn(path[0], node);
    if |path| == 1 then node[name := Leaf(text)]
    else node[name := Dict(Put(ChildOf(node, name), path[1..], text))]
  }

  function ExpandOne(root: Tree, pair: Pair): Result<Tree, FormError>
  {
    match BracketMatch(pair.0)
    case None => Success(root[pair.0 := Leaf(pair.1)])
    case Some((base, segments)) =>
      if |segments| + 1 > MAX_BRACKET_DEPTH then Failure(KeyTooDeep(pair.0))
      else Success(Put(root, [base] + segments, pair.1))
  }

  function Expand(root: Tree, pairs: seq<Pair>): Result<Tree, FormError>
    decreases |pairs|
  {
    if pairs == [] then Success(root)
    else
      var next :- ExpandOne(root, pairs[0]);
      Expand(next, pairs[1..])
  }

  // ------------------------------------------------------------------ body size

  const MAX_BODY_BYTES: nat := 64 * 1024
  const MAX_FORM_KEYS: nat := 512
  const MAX_KEY_LENGTH: nat := 256

  function Utf8Width(c: char): nat {
    if c as int < 0x80 then 1 else if c as int < 0x800 then 2 else if c as int < 0x10000 then 3 else 4
  }

  function Utf8Length(s: string): nat {
    if s == "" then 0 else Utf8Width(s[0]) + Utf8Length(s[1..])
  }

  function BodyBytes(form: seq<Pair>): nat {
    if form == [] then 0
    else Utf8Length(form[0].0) + Utf8Length(form[0].1) + 2 + BodyBytes(form[1..])
  }

  predicate WithinLimits(form: seq<Pair>) {
    && |form| <= 512
    && (forall i :: 0 <= i < |form| ==> |form[i].0| <= 256)
    && BodyBytes(form) <= 65536
  }

  /** `_check_body_size` from a running total: the first violation met wins. */
  function CheckFrom(form: seq<Pair>, total: nat): Result<(), FormError> {
    if form == [] then Success(())
    else if |form[0].0| > MAX_KEY_LENGTH then Failure(FieldNameTooLong)
    else
      var sum := total + Utf8Length(form[0].0) + Utf8Length(form[0].1) + 2;
      if sum > MAX_BODY_BYTES then Failure(BodyTooLarge) else CheckFrom(form[1..], sum)
  }

  function CheckBody(form: seq<Pair>): Result<(), FormError> {
    if |form| > MAX_FORM_KEYS then Failure(TooManyFields) else CheckFrom(form, 0)
  }

  function ExpandBracketKeys(form: seq<Pair>): Result<Tree, FormError> {
    var _ :- CheckBody(form);
    Expand(map[], form)
  }

  lemma {:induction false} CheckFromAccepts(form: seq<Pair>, total: nat)
    requires total <= MAX_BODY_BYTES
    ensures CheckFrom(form, total).Success? <==>
            (forall i :: 0 <= i < |form| ==> |form[i].0| <= MAX_KEY_LENGTH) && total + BodyBytes(form) <= MAX_BODY_BYTES
  {
    if form != [] {
      var sum := total + Utf8Length(form[0].0) + Utf8Length(form[0].1) + 2;
      if sum <= MAX_BODY_BYTES {
        CheckFromAccepts(form[1..], sum);
      }
      assert forall i :: 1 <= i < |form| ==> form[i] == form[1..][i - 1];
    }
  }

  /** The running check accepts exactly the bodies inside all three limits. */
  lemma {:induction false} CheckBodyAccepts(form: seq<Pair>)
    ensures CheckBody(form).Success? <==> WithinLimits(form)
  {
    CheckFromAccepts(form, 0);
  }

  // ------------------------------------------------------------------ as the program runs them

  /** The list `_encode_into` appends to. */
  class PairList {
    var items: seq<Pair>

    constructor ()
      ensures items == []
    {
      items := [];
    }
  }

  type Encoding = Result<seq<Pair>, EncodeError>

  /** The list grew by exactly the encoding, or the call failed with its error. */
  ghost predicate Appended(before: seq<Pair>, after: seq<Pair>, r: Result<(), EncodeError>, encoding: Encoding) {
    match encoding
    case Success(pairs) => r.Success? && after == before + pairs
    case Failure(e) => r == Failure(e)
  }

  /** The list so far and the encoding of the unread rest make up the encoding of the whole. */
  ghost predicate Pending(before: seq<Pair>, now: seq<Pair>, whole: Encoding, rest: Encoding) {
    match rest
    case Success(pairs) => whole.Success? && now + pairs == before + whole.value
    case Failure(e) => whole == Failure(e)
  }

  function Join(head: Encoding, tail: Encoding): Encoding {
    if head.Failure? then head else if tail.Failure? then tail else Success(head.value + tail.value)
  }

  lemma {:induction false} PendingStep(before: seq<Pair>, now: seq<Pair>, after: seq<Pair>, r: Result<(), EncodeError>,
                    whole: Encoding, head: Encoding, tail: Encoding)
    requires Pending(before, now, whole, Join(head, tail)) && Appended(now, after, r, head)
    ensures if r.Success? then Pending(before, after, whole, tail) else whole == Failure(r.error)
  {
    if r.Success? && tail.Success? {
      assert now + (head.value + tail.value) == after + tail.value;
    }
  }

  method EncodeInto(out: PairList, prefix: string, v: Value, depth: int) returns (r: Result<(), EncodeError>)
    modifies out
    ensures Appended(old(out.items), out.items, r, Encode(prefix, v, depth))
    decreases v, 1
  {
    if v.Null? {
      return Success(());
    }
    if depth <= 0 {
      return Failure(TooDeep(prefix));
    }
    if v.Mapping? {
      r := EncodeMappingInto(out, prefix, v.entries, depth - 1);
    } else if v.Listing? {
      r := EncodeListingInto(out, prefix, v.items, depth - 1);
    } else {
      out.items := out.items + [(prefix, Scalar(v))];
      return Success(());
    }
  }

  method EncodeMappingInto(out: PairList, prefix: string, entries: seq<Entry>, depth: int)
    returns (r: Result<(), EncodeError>)
    modifies out
    ensures Appended(old(out.items), out.items, r, EncodeEntries(prefix, entries, depth))
    decreases entries, 0
  {
    assert entries[0..] == entries;
    for i := 0 to |entries|
      invariant Pending(old(out.items), out.items, EncodeEntries(prefix, entries, depth),
                        EncodeEntries(prefix, entries[i..], depth))
    {
      assert entries[i..][1..] == entries[i + 1..];
      ghost var now := out.items;
      var step := EncodeInto(out, prefix + "[" + entries[i].key + "]", entries[i].value, depth);
      PendingStep(old(out.items), now, out.items, step, EncodeEntries(prefix, entries, depth),
                  Encode(prefix + "[" + entries[i].key + "]", entries[i].value, depth),
                  EncodeEntries(prefix, entries[i + 1..], depth));
      if step.Failure? {
        return step;
      }
    }
    return Success(());
  }

  method EncodeListingInto(out: PairList, prefix: string, items: seq<Value>, depth: int)
    returns (r: Result<(), EncodeError>)
    modifies out
    ensures Appended(old(out.items), out.items, r, EncodeItems(prefix, items, 0, depth))
    decreases items, 0
  {
    assert items[0..] == items;
    for index := 0 to |items|
      invariant Pending(old(out.items), out.items, EncodeItems(prefix, items, 0, depth),
                        EncodeItems(prefix, items[index..], index, depth))
    {
      assert items[index..][1..] == items[index + 1..];
      ghost var now := out.items;
      var step := EncodeInto(out, prefix + "[" + Digits(index) + "]", items[index], depth);
      PendingStep(old(out.items), now, out.items, step, EncodeItems(prefix, items, 0, depth),
                  Encode(prefix + "[" + Digits(index) + "]", items[index], depth),
                  EncodeItems(prefix, items[index + 1..], index + 1, depth));
      if step.Failure? {
        return step;
      }
    }
    return Success(());
  }

  method PhpQueryPairs(params: seq<Entry>) returns (r: Encoding)
    ensures r == QueryPairs(params)
  {
    var out := new PairList();
    assert params[0..] == params;
    for i := 0 to |params|
      invariant Pending([], out.items, QueryPairs(params), QueryPairs(params[i..]))
    {
      assert params[i..][1..] == params[i + 1..];
      ghost var now := out.items;
      var step := EncodeInto(out, params[i].key, params[i].value, MAX_PARAM_DEPTH);
      PendingStep([], now, out.items, step, QueryPairs(params),
                  Encode(params[i].key, params[i].value, MAX_PARAM_DEPTH), QueryPairs(params[i + 1..]));
      if step.Failure? {
        return Failure(step.error);
      }
    }
    ghost var whole := QueryPairs(params).value;
    assert out.items + [] == out.items && [] + whole == whole;
    return Success(out.items);
  }

  method CheckBodySize(form: seq<Pair>) returns (r: Result<(), FormError>)
    ensures r == CheckBody(form)
    ensures r.Success? <==> WithinLimits(form)
  {
    CheckBodyAccepts(form);
    if |form| > MAX_FORM_KEYS {
      return Failure(TooManyFields);
    }
    var total: nat := 0;
    assert form[0..] == form;
    for i := 0 to |form|
      invariant CheckBody(form) == CheckFrom(form[i..], total)
    {
      if |form[i].0| > MAX_KEY_LENGTH {
        return Failure(FieldNameTooLong);
      }
      assert form[i..][1..] == form[i + 1..];
      total := total + Utf8Length(form[i].0) + Utf8Length(form[i].1) + 2;
      if total > MAX_BODY_BYTES {
        return Failure(BodyTooLarge);
      }
    }
    return Success(());
  }

  method ExpandForm(form: seq<Pair>) returns (r: Result<Tree, FormError>)
    ensures r == ExpandBracketKeys(form)
  {
    assert form[0..] == form;
    var checked := CheckBodySize(form);
    if checked.Failure? {
      return Failure(checked.error);
    }
    var root: Tree := map[];
    for i := 0 to |form|
      invariant Expand(map[], form) == Expand(root, form[i..])
    {
      assert form[i..][1..] == form[i + 1..];
      var match_ := BracketMatch(form[i].0);
      if match_.None? {
        root := root[form[i].0 := Leaf(form[i].1)];
      } else {
        var (base, segments) := match_.value;
        if |segments| + 1 > MAX_BRACKET_DEPTH {
          return Failure(KeyTooDeep(form[i].0));
        }
        root := Put(root, [base] + segments, form[i].1);
      }
    }
    return Success(root);
  }
}
