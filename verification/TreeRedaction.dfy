/**
 The recursive walk of `security/redact.py`. Containers are cells of a heap, so a payload
 may share structure or contain itself, and `seen` is a set of identities as in the source.
 Mapping keys are strings.
 */
module TreeRedaction {
  import opened Texts
  import opened TextRedaction

  const TRUNCATED: string := "[truncated]"

  const MAX_DEPTH: nat := 12

  const KEY_WORDS: seq<string> := [
    "token", "secret", "auth", "password", "client_id", "refresh_id", "app_sid", "sessid"
  ]

  type Id = nat

  /** An object: `Atom` is `None`, a bool or a number; `Other` anything `str()` is applied to. */
  datatype Obj =
    | Atom(text: string)
    | Text(text: string)
    | Bytes(content: string)
    | Other(text: string)
    | Ref(id: Id)

  datatype Item = Item(key: string, value: Obj)

  datatype Kind = AList | ATuple

  datatype Cell =
    | Mapping(items: seq<Item>)
    | Listing(values: seq<Obj>, kind: Kind)

  type Heap = Id -> Cell

  /** The redacted copy; `Kept` hands an original object back. */
  datatype Out =
    | OutAtom(text: string)
    | OutText(text: string)
    | Kept(text: string)
    | OutMap(keys: seq<string>, outs: seq<Out>)
    | OutList(outs: seq<Out>, kind: Kind)

  /** `re.search` for one word. */
  predicate HasWord(s: string, word: string) {
    exists i :: 0 <= i <= |s| && WordAt(s, word, i)
  }

  predicate WordAt(s: string, word: string, i: nat) {
    i + |word| <= |s| && s[i..i + |word|] == word
  }

  predicate Sensitive(key: string) {
    exists i :: 0 <= i < |KEY_WORDS| && HasWord(Lower(key), KEY_WORDS[i])
  }

  // ------------------------------------------------------------------ the walk

  function Walk(heap: Heap, v: Obj, depth: nat, seen: set<Id>): Out
    decreases depth, 1, 0
  {
    if depth == 0 then OutText(TRUNCATED)
    else
      match v
      case Atom(text) => OutAtom(text)
      case Text(text) => OutText(RedactText(text))
      case Bytes(_) => OutText(REDACTED)
      case Other(text) => if RedactText(text) == text then Kept(text) else OutText(RedactText(text))
      case Ref(id) =>
        if id in seen then OutText(TRUNCATED)
        else
          match heap(id)
          case Mapping(items) => OutMap(Keys(items), WalkItems(heap, items, depth, seen + {id}))
          case Listing(values, kind) => OutList(WalkValues(heap, values, depth, seen + {id}), kind)
  }

  function Keys(items: seq<Item>): (keys: seq<string>)
    ensures |keys| == |items|
  {
    if items == [] then [] else [items[0].key] + Keys(items[1..])
  }

  function WalkItems(heap: Heap, items: seq<Item>, depth: nat, seen: set<Id>): (outs: seq<Out>)
    requires depth > 0
    ensures |outs| == |items|
    decreases depth, 0, |items|
  {
    if items == [] then []
    else
      [if Sensitive(items[0].key) then OutText(REDACTED) else Walk(heap, items[0].value, depth - 1, seen)]
      + WalkItems(heap, items[1..], depth, seen)
  }

  function WalkValues(heap: Heap, values: seq<Obj>, depth: nat, seen: set<Id>): (outs: seq<Out>)
    requires depth > 0
    ensures |outs| == |values|
    decreases depth, 0, |values|
  {
    if values == [] then [] else [Walk(heap, values[0], depth - 1, seen)] + WalkValues(heap, values[1..], depth, seen)
  }

  function Redact(heap: Heap, v: Obj): Out {
    Walk(heap, v, MAX_DEPTH, {})
  }

  // ------------------------------------------------------------------ what the output is

  /** Nesting of containers. */
  function Height(out: Out): nat {
    match out
    case OutMap(_, outs) => 1 + HeightOf(outs)
    case OutList(outs, _) => 1 + HeightOf(outs)
    case _ => 0
  }

  function HeightOf(outs: seq<Out>): nat {
    if outs == [] then 0
    else
      var head, tail := Height(outs[0]), HeightOf(outs[1..]);
      if head > tail then head else tail
  }

  /**
   A tree of `depth` levels with nothing left to redact: every string is its own
   redaction, every object kept has a clean string form, and every value under a
   sensitive key is the placeholder.
   */
  predicate Settled(out: Out, depth: nat)
    decreases out, 1, 0
  {
    if depth == 0 then out == OutText(TRUNCATED)
    else
      match out
      case OutAtom(_) => true
      case OutText(text) => RedactText(text) == text
      case Kept(text) => RedactText(text) == text
      case OutMap(keys, outs) => |keys| == |outs| && SettledItems(keys, outs, depth)
      case OutList(outs, _) => SettledAll(outs, depth)
  }

  predicate SettledItems(keys: seq<string>, outs: seq<Out>, depth: nat)
    requires depth > 0 && |keys| == |outs|
    decreases outs, 0, |outs|
  {
    outs != [] ==>
      && (if Sensitive(keys[0]) then outs[0] == OutText(REDACTED) else Settled(outs[0], depth - 1))
      && SettledItems(keys[1..], outs[1..], depth)
  }

  predicate SettledAll(outs: seq<Out>, depth: nat)
    requires depth > 0
    decreases outs, 0, |outs|
  {
    outs != [] ==> Settled(outs[0], depth - 1) && SettledAll(outs[1..], depth)
  }

  lemma {:induction false} PlaceholdersAreClean()
    ensures RedactText(REDACTED) == REDACTED && RedactText(TRUNCATED) == TRUNCATED
  {
    NoParamIsClean(REDACTED);
    NoParamIsClean(TRUNCATED);
  }

  lemma {:induction false} NoParamIsClean(s: string)
    requires forall i :: 0 <= i < |s| ==> s[i] != '='
    ensures RedactText(s) == s
  {
  }

  /** The walk settles any payload, cyclic ones included. */
  lemma {:induction false} WalkSettles(heap: Heap, v: Obj, depth: nat, seen: set<Id>)
    ensures Settled(Walk(heap, v, depth, seen), depth)
    decreases depth, 1, 0
  {
    PlaceholdersAreClean();
    if depth > 0 {
      match v
      case Text(text) => RedactTextIdempotent(text);
      case Other(text) => RedactTextIdempotent(text);
      case Ref(id) =>
        if id !in seen {
          match heap(id)
          case Mapping(items) => WalkItemsSettles(heap, items, depth, seen + {id});
          case Listing(values, _) => WalkValuesSettles(heap, values, depth, seen + {id});
        }
      case _ =>
    }
  }

  lemma {:induction false} WalkItemsSettles(heap: Heap, items: seq<Item>, depth: nat, seen: set<Id>)
    requires depth > 0
    ensures SettledItems(Keys(items), WalkItems(heap, items, depth, seen), depth)
    decreases depth, 0, |items|
  {
    if items != [] {
      var key, rest := items[0].key, items[1..];
      WalkSettles(heap, items[0].value, depth - 1, seen);
      WalkItemsSettles(heap, rest, depth, seen);
      var out := if Sensitive(key) then OutText(REDACTED) else Walk(heap, items[0].value, depth - 1, seen);
      SettledItemsCons(key, Keys(rest), out, WalkItems(heap, rest, depth, seen), depth);
    }
  }

  lemma {:induction false} SettledItemsCons(key: string, keys: seq<string>, out: Out, outs: seq<Out>, depth: nat)
    requires depth > 0 && |keys| == |outs| && SettledItems(keys, outs, depth)
    requires if Sensitive(key) then out == OutText(REDACTED) else Settled(out, depth - 1)
    ensures SettledItems([key] + keys, [out] + outs, depth)
  {
    assert ([key] + keys)[1..] == keys && ([out] + outs)[1..] == outs;
  }

  lemma {:induction false} WalkValuesSettles(heap: Heap, values: seq<Obj>, depth: nat, seen: set<Id>)
    requires depth > 0
    ensures SettledAll(WalkValues(heap, values, depth, seen), depth)
    decreases depth, 0, |values|
  {
    if values != [] {
      WalkSettles(heap, values[0], depth - 1, seen);
      WalkValuesSettles(heap, values[1..], depth, seen);
      assert WalkValues(heap, values, depth, seen)[1..] == WalkValues(heap, values[1..], depth, seen);
    }
  }

  /** A settled tree is no higher than its depth. */
  lemma {:induction false} SettledIsBounded(out: Out, depth: nat)
    requires Settled(out, depth)
    ensures Height(out) <= depth
    decreases out, 1, 0
  {
    if depth > 0 {
      match out
      case OutMap(keys, outs) => SettledItemsBounded(keys, outs, depth);
      case OutList(outs, _) => SettledAllBounded(outs, depth);
      case _ =>
    }
  }

  lemma {:induction false} SettledItemsBounded(keys: seq<string>, outs: seq<Out>, depth: nat)
    requires depth > 0 && |keys| == |outs| && SettledItems(keys, outs, depth)
    ensures HeightOf(outs) <= depth - 1
    decreases outs, 0, |outs|
  {
    if outs != [] {
      if !Sensitive(keys[0]) {
        SettledIsBounded(outs[0], depth - 1);
      }
      SettledItemsBounded(keys[1..], outs[1..], depth);
    }
  }

  lemma {:induction false} SettledAllBounded(outs: seq<Out>, depth: nat)
    requires depth > 0 && SettledAll(outs, depth)
    ensures HeightOf(outs) <= depth - 1
    decreases outs, 0, |outs|
  {
    if outs != [] {
      SettledIsBounded(outs[0], depth - 1);
      SettledAllBounded(outs[1..], depth);
    }
  }

  // ------------------------------------------------------------------ idempotence

  /** `v` is an object that, unfolded, is the tree `out`. */
  ghost predicate Represents(heap: Heap, v: Obj, out: Out)
    decreases out, 1, 0
  {
    match out
    case OutAtom(text) => v == Atom(text)
    case OutText(text) => v == Text(text)
    case Kept(text) => v == Other(text)
    case OutMap(keys, outs) =>
      && v.Ref? && heap(v.id).Mapping? && Keys(heap(v.id).items) == keys
      && |outs| == |heap(v.id).items| && RepresentsItems(heap, heap(v.id).items, outs)
    case OutList(outs, kind) =>
      && v.Ref? && heap(v.id).Listing? && heap(v.id).kind == kind
      && |outs| == |heap(v.id).values| && RepresentsAll(heap, heap(v.id).values, outs)
  }

  ghost predicate RepresentsItems(heap: Heap, items: seq<Item>, outs: seq<Out>)
    requires |outs| == |items|
    decreases outs, 0, |outs|
  {
    outs != [] ==> Represents(heap, items[0].value, outs[0]) && RepresentsItems(heap, items[1..], outs[1..])
  }

  ghost predicate RepresentsAll(heap: Heap, values: seq<Obj>, outs: seq<Out>)
    requires |outs| == |values|
    decreases outs, 0, |outs|
  {
    outs != [] ==> Represents(heap, values[0], outs[0]) && RepresentsAll(heap, values[1..], outs[1..])
  }

  /** An object unfolds to one tree at most. */
  lemma {:induction false} RepresentsOne(heap: Heap, v: Obj, a: Out, b: Out)
    requires Represents(heap, v, a) && Represents(heap, v, b)
    ensures a == b
    decreases a, 1, 0
  {
    match a
    case OutMap(_, outs) => RepresentsOneItems(heap, heap(v.id).items, outs, b.outs);
    case OutList(outs, _) => RepresentsOneAll(heap, heap(v.id).values, outs, b.outs);
    case _ =>
  }

  lemma {:induction false} RepresentsOneItems(heap: Heap, items: seq<Item>, a: seq<Out>, b: seq<Out>)
    requires |a| == |b| == |items| && RepresentsItems(heap, items, a) && RepresentsItems(heap, items, b)
    ensures a == b
    decreases a, 0, |a|
  {
    if a != [] {
      RepresentsOne(heap, items[0].value, a[0], b[0]);
      RepresentsOneItems(heap, items[1..], a[1..], b[1..]);
      assert a == [a[0]] + a[1..] && b == [b[0]] + b[1..];
    }
  }

  lemma {:induction false} RepresentsOneAll(heap: Heap, values: seq<Obj>, a: seq<Out>, b: seq<Out>)
    requires |a| == |b| == |values| && RepresentsAll(heap, values, a) && RepresentsAll(heap, values, b)
    ensures a == b
    decreases a, 0, |a|
  {
    if a != [] {
      RepresentsOne(heap, values[0], a[0], b[0]);
      RepresentsOneAll(heap, values[1..], a[1..], b[1..]);
      assert a == [a[0]] + a[1..] && b == [b[0]] + b[1..];
    }
  }

  /** The containers on the path unfold to strictly higher trees than anything below them. */
  ghost predicate Above(heap: Heap, seen: map<Id, Out>, height: nat) {
    forall id :: id in seen ==> Represents(heap, Ref(id), seen[id]) && Height(seen[id]) > height
  }

  lemma {:induction false} NotSeen(heap: Heap, id: Id, out: Out, seen: map<Id, Out>)
    requires Represents(heap, Ref(id), out) && Above(heap, seen, Height(out))
    ensures id !in seen
  {
    if id in seen {
      RepresentsOne(heap, Ref(id), out, seen[id]);
    }
  }

  lemma {:induction false} SettledStays(heap: Heap, v: Obj, out: Out, depth: nat, seen: map<Id, Out>)
    requires Settled(out, depth) && Represents(heap, v, out) && Above(heap, seen, Height(out))
    ensures Walk(heap, v, depth, seen.Keys) == out
    decreases out, 1, 0
  {
    if depth > 0 {
      match out
      case OutMap(keys, outs) =>
        NotSeen(heap, v.id, out, seen);
        var inner := seen[v.id := out];
        assert inner.Keys == seen.Keys + {v.id};
        SettledStaysItems(heap, heap(v.id).items, outs, depth, inner);
      case OutList(outs, _) =>
        NotSeen(heap, v.id, out, seen);
        var inner := seen[v.id := out];
        assert inner.Keys == seen.Keys + {v.id};
        SettledStaysAll(heap, heap(v.id).values, outs, depth, inner);
      case _ =>
    }
  }

  lemma {:induction false} SettledStaysItems(heap: Heap, items: seq<Item>, outs: seq<Out>, depth: nat,
                                             seen: map<Id, Out>)
    requires depth > 0 && |items| == |outs| && SettledItems(Keys(items), outs, depth)
    requires RepresentsItems(heap, items, outs) && Above(heap, seen, HeightOf(outs))
    ensures WalkItems(heap, items, depth, seen.Keys) == outs
    decreases outs, 0, |outs|
  {
    if outs != [] {
      assert Keys(items)[1..] == Keys(items[1..]);
      if !Sensitive(items[0].key) {
        SettledStays(heap, items[0].value, outs[0], depth - 1, seen);
      }
      SettledStaysItems(heap, items[1..], outs[1..], depth, seen);
      assert outs == [outs[0]] + outs[1..];
    }
  }

  lemma {:induction false} SettledStaysAll(heap: Heap, values: seq<Obj>, outs: seq<Out>, depth: nat, seen: map<Id, Out>)
    requires depth > 0 && |values| == |outs| && SettledAll(outs, depth)
    requires RepresentsAll(heap, values, outs) && Above(heap, seen, HeightOf(outs))
    ensures WalkValues(heap, values, depth, seen.Keys) == outs
    decreases outs, 0, |outs|
  {
    if outs != [] {
      SettledStays(heap, values[0], outs[0], depth - 1, seen);
      SettledStaysAll(heap, values[1..], outs[1..], depth, seen);
      assert outs == [outs[0]] + outs[1..];
    }
  }

  /** `redact(redact(x)) == redact(x)`, wherever the copy is laid out in memory, and the copy is at most 12 deep. */
  lemma {:induction false} RedactIdempotent(heap: Heap, v: Obj, copies: Heap, copy: Obj)
    requires Represents(copies, copy, Redact(heap, v))
    ensures Redact(copies, copy) == Redact(heap, v)
    ensures Height(Redact(heap, v)) <= 12
  {
    var out := Redact(heap, v);
    WalkSettles(heap, v, MAX_DEPTH, {});
    SettledIsBounded(out, MAX_DEPTH);
    var none: map<Id, Out> := map[];
    assert none.Keys == {};
    SettledStays(copies, copy, out, MAX_DEPTH, none);
  }

  // ------------------------------------------------------------------ non-interference

  /** The same object up to credential values, byte contents and the renaming of identities. */
  ghost predicate Alike(v: Obj, w: Obj, names: map<Id, Id>) {
    match v
    case Atom(_) => w == v
    case Text(text) => w.Text? && SameShape(Parse(false, text), Parse(false, w.text))
    case Bytes(_) => w.Bytes?
    case Other(text) => w == v || (w.Other? && RedactText(text) != text && RedactText(w.text) != w.text
                                   && SameShape(Parse(false, text), Parse(false, w.text)))
    case Ref(id) => id in names && w == Ref(names[id])
  }

  ghost predicate AlikeItems(a: seq<Item>, b: seq<Item>, names: map<Id, Id>) {
    && |a| == |b|
    && forall i :: 0 <= i < |a| ==>
          a[i].key == b[i].key && (Sensitive(a[i].key) || Alike(a[i].value, b[i].value, names))
  }

  ghost predicate AlikeValues(a: seq<Obj>, b: seq<Obj>, names: map<Id, Id>) {
    |a| == |b| && forall i :: 0 <= i < |a| ==> Alike(a[i], b[i], names)
  }

  ghost predicate AlikeCells(a: Cell, b: Cell, names: map<Id, Id>) {
    match a
    case Mapping(items) => b.Mapping? && AlikeItems(items, b.items, names)
    case Listing(values, kind) => b.Listing? && b.kind == kind && AlikeValues(values, b.values, names)
  }

  /** `names` renames containers one to one, and every container it names looks the same outside secrets. */
  ghost predicate AlikeHeaps(g: Heap, h: Heap, names: map<Id, Id>) {
    && (forall i, j :: i in names && j in names && names[i] == names[j] ==> i == j)
    && (forall i :: i in names ==> AlikeCells(g(i), h(names[i]), names))
  }

  ghost predicate SameSeen(s: set<Id>, t: set<Id>, names: map<Id, Id>) {
    forall i :: i in names ==> (i in s <==> names[i] in t)
  }

  lemma {:induction false} WalkIgnoresSecrets(g: Heap, h: Heap, v: Obj, w: Obj, names: map<Id, Id>, depth: nat,
                                              s: set<Id>, t: set<Id>)
    requires AlikeHeaps(g, h, names) && Alike(v, w, names) && SameSeen(s, t, names)
    ensures Walk(g, v, depth, s) == Walk(h, w, depth, t)
    decreases depth, 1, 0
  {
    if depth > 0 {
      match v
      case Text(text) => RedactsAlikeIffSameShape(text, w.text);
      case Other(text) => RedactsAlikeIffSameShape(text, w.text);
      case Ref(id) =>
        if id !in s {
          assert AlikeCells(g(id), h(names[id]), names);
          assert SameSeen(s + {id}, t + {names[id]}, names);
          match g(id)
          case Mapping(items) =>
            WalkItemsIgnoresSecrets(g, h, items, h(w.id).items, names, depth, s + {id}, t + {w.id});
          case Listing(values, _) =>
            WalkValuesIgnoresSecrets(g, h, values, h(w.id).values, names, depth, s + {id}, t + {w.id});
        }
      case _ =>
    }
  }

  lemma {:induction false} WalkItemsIgnoresSecrets(g: Heap, h: Heap, a: seq<Item>, b: seq<Item>, names: map<Id, Id>,
                                                   depth: nat, s: set<Id>, t: set<Id>)
    requires depth > 0 && AlikeHeaps(g, h, names) && AlikeItems(a, b, names) && SameSeen(s, t, names)
    ensures Keys(a) == Keys(b) && WalkItems(g, a, depth, s) == WalkItems(h, b, depth, t)
    decreases depth, 0, |a|
  {
    if a != [] {
      if !Sensitive(a[0].key) {
        WalkIgnoresSecrets(g, h, a[0].value, b[0].value, names, depth - 1, s, t);
      }
      WalkItemsIgnoresSecrets(g, h, a[1..], b[1..], names, depth, s, t);
    }
  }

  lemma {:induction false} WalkValuesIgnoresSecrets(g: Heap, h: Heap, a: seq<Obj>, b: seq<Obj>, names: map<Id, Id>,
                                                    depth: nat, s: set<Id>, t: set<Id>)
    requires depth > 0 && AlikeHeaps(g, h, names) && AlikeValues(a, b, names) && SameSeen(s, t, names)
    ensures WalkValues(g, a, depth, s) == WalkValues(h, b, depth, t)
    decreases depth, 0, |a|
  {
    if a != [] {
      WalkIgnoresSecrets(g, h, a[0], b[0], names, depth - 1, s, t);
      WalkValuesIgnoresSecrets(g, h, a[1..], b[1..], names, depth, s, t);
    }
  }

  /** Payloads that differ only below sensitive keys, inside bytes or in credential values redact alike. */
  lemma {:induction false} RedactIgnoresSecrets(g: Heap, h: Heap, v: Obj, w: Obj, names: map<Id, Id>)
    requires AlikeHeaps(g, h, names) && Alike(v, w, names)
    ensures Redact(g, v) == Redact(h, w)
  {
    WalkIgnoresSecrets(g, h, v, w, names, MAX_DEPTH, {}, {});
  }
}
