/**
 What the texts on the wire mean. The leaves of the parameters are listed with their keys and
 values, and the texts are read back by readers that know nothing of the encoder: `1` and `0`
 as a flag, an optional minus and decimal digits as a number, a text as itself.
 */
module PhpLeaves {
  import opened Wrappers
  import opened Texts
  import opened PhpArrays
  import opened PhpRoundTrip
  import Percent

  // ------------------------------------------------------------------ readers

  function ReadFlag(text: string): Option<bool> {
    if text == "1" then Some(true) else if text == "0" then Some(false) else None
  }

  function ReadNumber(text: string): Option<int> {
    if AllDigits(text) then Some(Decimal(text))
    else if text != "" && text[0] == '-' && AllDigits(text[1..]) then Some(0 - Decimal(text[1..]))
    else None
  }

  /** The text reads back as the value. */
  predicate Means(text: string, v: Value) {
    match v
    case Flag(b) => ReadFlag(text) == Some(b)
    case Number(n) => ReadNumber(text) == Some(n)
    case Text(s) => text == s
    case Rendered(s) => text == s
    case _ => false
  }

  /** Decimal digits, the most significant first, without leading zeros. */
  lemma {:induction false} DigitsRead(n: nat)
    ensures AllDigits(Digits(n)) && Decimal(Digits(n)) == n
    ensures |Digits(n)| > 1 ==> Digits(n)[0] != '0'
  {
    var s := Digits(n);
    if n < 10 {
      assert s[..0] == "";
    } else {
      DigitsRead(n / 10);
      assert s[..|s| - 1] == Digits(n / 10) && s[|s| - 1] == DigitChar(n % 10);
      LeadingDigit(n / 10);
    }
  }

  lemma {:induction false} LeadingDigit(n: nat)
    requires n > 0
    ensures Digits(n)[0] != '0'
  {
    if n >= 10 {
      LeadingDigit(n / 10);
    }
  }

  lemma {:induction false} ScalarMeans(v: Value)
    requires v.Flag? || v.Number? || v.Text? || v.Rendered?
    ensures Means(Scalar(v), v)
  {
    if v.Number? {
      DigitsRead(if v.n < 0 then -v.n else v.n);
      if v.n < 0 {
        assert Scalar(v)[1..] == Digits(-v.n);
      }
    }
  }

  // ------------------------------------------------------------------ leaves

  /** A step of a path: a mapping's key, or a position in a list. */
  datatype Key = Name(s: string) | Index(i: nat)

  predicate KeyReads(segment: string, key: Key) {
    match key
    case Name(s) => segment == s
    case Index(i) => AllDigits(segment) && Decimal(segment) == i
  }

  predicate PathReads(path: seq<string>, keys: seq<Key>) {
    |path| == |keys| && forall i :: 0 <= i < |path| ==> KeyReads(path[i], keys[i])
  }

  datatype LeafAt = LeafAt(keys: seq<Key>, value: Value)

  /** The scalars of a value, each with the keys leading to it, in order; a null is none. */
  function Leaves(v: Value): seq<LeafAt>
    decreases v, 1
  {
    match v
    case Null => []
    case Mapping(entries) => LeavesOf(entries)
    case Listing(items) => LeavesOfItems(items, 0)
    case _ => [LeafAt([], v)]
  }

  function LeavesOf(entries: seq<Entry>): seq<LeafAt>
    decreases entries, 0
  {
    if entries == [] then []
    else Below(Name(entries[0].key), Leaves(entries[0].value)) + LeavesOf(entries[1..])
  }

  function LeavesOfItems(items: seq<Value>, index: nat): seq<LeafAt>
    decreases items, 0
  {
    if items == [] then [] else Below(Index(index), Leaves(items[0])) + LeavesOfItems(items[1..], index + 1)
  }

  function Below(key: Key, leaves: seq<LeafAt>): (r: seq<LeafAt>)
    ensures |r| == |leaves|
    ensures forall i :: 0 <= i < |r| ==> r[i] == LeafAt([key] + leaves[i].keys, leaves[i].value)
  {
    seq(|leaves|, i requires 0 <= i < |leaves| => LeafAt([key] + leaves[i].keys, leaves[i].value))
  }

  predicate SpotIs(spot: Spot, leaf: LeafAt) {
    PathReads(spot.path, leaf.keys) && Means(spot.text, leaf.value)
  }

  predicate SpotsAre(spots: seq<Spot>, leaves: seq<LeafAt>) {
    |spots| == |leaves| && forall i :: 0 <= i < |spots| ==> SpotIs(spots[i], leaves[i])
  }

  lemma {:induction false} SpotsAreConcat(a: seq<Spot>, b: seq<Spot>, x: seq<LeafAt>, y: seq<LeafAt>)
    requires SpotsAre(a, x) && SpotsAre(b, y)
    ensures SpotsAre(a + b, x + y)
  {
  }

  lemma {:induction false} SpotsAreBelow(segment: string, key: Key, spots: seq<Spot>, leaves: seq<LeafAt>)
    requires KeyReads(segment, key) && SpotsAre(spots, leaves)
    ensures SpotsAre(Under(segment, spots), Below(key, leaves))
  {
    forall i | 0 <= i < |spots| ensures SpotIs(Under(segment, spots)[i], Below(key, leaves)[i]) {
      assert SpotIs(spots[i], leaves[i]);
    }
  }

  lemma {:induction false} SpotsOfValue(v: Value)
    ensures SpotsAre(Spots(Shape(v)), Leaves(v))
    decreases v, 1
  {
    match v
    case Null =>
    case Mapping(entries) => SpotsOfEntries(entries);
    case Listing(items) => SpotsOfItems(items, 0);
    case _ => SpotOfScalar(v);
  }

  lemma {:induction false} SpotOfScalar(v: Value)
    requires v.Flag? || v.Number? || v.Text? || v.Rendered?
    ensures SpotsAre(Spots(Shape(v)), Leaves(v))
  {
    ScalarMeans(v);
    assert Spots(Shape(v)) == [Spot([], Scalar(v))];
    assert Leaves(v) == [LeafAt([], v)];
  }

  lemma {:induction false} SpotsOfEntries(entries: seq<Entry>)
    ensures SpotsAre(SpotsOf(ShapeEntries(entries)), LeavesOf(entries))
    decreases entries, 0
  {
    if entries != [] {
      var key, head := entries[0].key, entries[0].value;
      SpotsOfValue(head);
      SpotsOfEntries(entries[1..]);
      SpotsAreBelow(key, Name(key), Spots(Shape(head)), Leaves(head));
      assert ShapeEntries(entries)[1..] == ShapeEntries(entries[1..]);
      SpotsAreConcat(Under(key, Spots(Shape(head))), SpotsOf(ShapeEntries(entries[1..])),
                     Below(Name(key), Leaves(head)), LeavesOf(entries[1..]));
    }
  }

  lemma {:induction false} SpotsOfItems(items: seq<Value>, index: nat)
    ensures SpotsAre(SpotsOf(ShapeItems(items, index)), LeavesOfItems(items, index))
    decreases items, 0
  {
    if items != [] {
      var key, head := Digits(index), items[0];
      SpotsOfValue(head);
      SpotsOfItems(items[1..], index + 1);
      DigitsRead(index);
      SpotsAreBelow(key, Index(index), Spots(Shape(head)), Leaves(head));
      assert ShapeItems(items, index)[1..] == ShapeItems(items[1..], index + 1);
      SpotsAreConcat(Under(key, Spots(Shape(head))), SpotsOf(ShapeItems(items[1..], index + 1)),
                     Below(Index(index), Leaves(head)), LeavesOfItems(items[1..], index + 1));
    }
  }

  // ------------------------------------------------------------------ the pairs, and the tree they decode to

  /** The pair is the leaf: `base[key]...` under names that read as its keys, and a text that reads as its value. */
  ghost predicate PairIs(pair: Pair, leaf: LeafAt) {
    exists path: seq<string> :: path != [] && pair.0 == Render(path[0], path[1..]) && SpotIs(Spot(path, pair.1), leaf)
  }

  /** The encoder sends one pair for each leaf, in order, and each reads back as the leaf's value. */
  lemma {:induction false} PairsMeanLeaves(params: seq<Entry>)
    requires QueryPairs(params).Success?
    ensures |QueryPairs(params).value| == |LeavesOf(params)|
    ensures forall i :: 0 <= i < |LeavesOf(params)| ==> PairIs(QueryPairs(params).value[i], LeavesOf(params)[i])
  {
    var spots := SpotsOf(ShapeEntries(params));
    QueryPairsWire(params);
    SpotsOfEntries(params);
    forall i | 0 <= i < |spots| ensures PairIs(QueryPairs(params).value[i], LeavesOf(params)[i]) {
      assert SpotIs(spots[i], LeavesOf(params)[i]);
      var path := spots[i].path;
      assert Wire(spots)[i] == (Render(path[0], path[1..]), spots[i].text);
      assert Spot(path, spots[i].text) == spots[i];
    }
  }

  /** Everything the image holds is a leaf of the parameters. */
  lemma {:induction false} HeldIsSpot(cs: seq<Child>, path: seq<string>, text: string)
    requires Holds(ImageOf(cs), path, text)
    ensures Spot(path, text) in SpotsOf(cs)
    decreases cs
  {
    var key, p := cs[0].key, cs[0].param;
    var head := Under(key, Spots(p));
    assert path == [path[0]] + path[1..];
    if path[0] == key && Image(p).Some? {
      match p
      case Atom(t) => assert head[0] == Spot([key] + [], t);
      case Branch(children) =>
        HeldIsSpot(children, path[1..], text);
        var i :| 0 <= i < |SpotsOf(children)| && SpotsOf(children)[i] == Spot(path[1..], text);
        assert head[i] == Spot([key] + path[1..], text);
    } else {
      HeldIsSpot(cs[1..], path, text);
    }
  }

  /** The tree holds the leaf: under names that read as its keys, a text that reads as its value. */
  ghost predicate TreeHolds(tree: Tree, leaf: LeafAt) {
    exists path, text :: Holds(tree, path, text) && SpotIs(Spot(path, text), leaf)
  }

  /** What the tree holds at this path is one of the leaves. */
  ghost predicate IsLeaf(leaves: seq<LeafAt>, path: seq<string>, text: string) {
    exists i :: 0 <= i < |leaves| && SpotIs(Spot(path, text), leaves[i])
  }

  /**
   The law of the codec with its types. Whatever the encoder accepts and the wire carries
   decodes to a tree that holds every leaf, each reading back as the value that was sent, and
   nothing else.
   */
  lemma {:induction false} TypedRoundTrip(params: seq<Entry>)
    requires DistinctEntries(params) && QueryPairs(params).Success? && AllLeavesCarried(params)
    ensures Expand(map[], QueryPairs(params).value).Success?
    ensures var tree, leaves := Expand(map[], QueryPairs(params).value).value, LeavesOf(params);
            && (forall i :: 0 <= i < |leaves| ==> TreeHolds(tree, leaves[i]))
            && (forall path, text :: Holds(tree, path, text) ==> IsLeaf(leaves, path, text))
  {
    var cs, leaves := ShapeEntries(params), LeavesOf(params);
    var spots := SpotsOf(cs);
    RoundTripIffCarried(params);
    ShapeEntriesDistinct(params);
    SpotsOfEntries(params);
    forall i | 0 <= i < |leaves| ensures TreeHolds(ImageOf(cs), leaves[i]) {
      SpotInImage(cs, i);
      assert SpotIs(Spot(spots[i].path, spots[i].text), leaves[i]);
    }
    forall path, text | Holds(ImageOf(cs), path, text) ensures IsLeaf(leaves, path, text) {
      HeldIsSpot(cs, path, text);
      var i :| 0 <= i < |spots| && spots[i] == Spot(path, text);
      assert SpotIs(spots[i], leaves[i]);
    }
  }

  // ------------------------------------------------------------------ sizes, and names without a key

  /** The bytes counted against the body limit are those of the UTF-8 text. */
  lemma {:induction false} LengthIsUtf8(s: string)
    ensures Utf8Length(s) == |Percent.Utf8(s)|
  {
    if s != "" {
      LengthIsUtf8(s[1..]);
    }
  }

  function Appends(base: string, texts: seq<string>): (pairs: seq<Pair>)
    ensures |pairs| == |texts| && forall i :: 0 <= i < |pairs| ==> pairs[i] == (base + "[]", texts[i])
  {
    seq(|texts|, i requires 0 <= i < |texts| => (base + "[]", texts[i]))
  }

  /** The dict holds these texts, each under its position. */
  ghost predicate Numbered(items: Tree, texts: seq<string>) {
    |items| == |texts| && HoldsAll(items, texts) && HoldsOnly(items, |texts|)
  }

  ghost predicate HoldsAll(items: Tree, texts: seq<string>) {
    forall i :: 0 <= i < |texts| ==> Digits(i) in items && items[Digits(i)] == Leaf(texts[i])
  }

  ghost predicate HoldsOnly(items: Tree, n: nat) {
    forall name :: name in items ==> IsPosition(name, n)
  }

  ghost predicate IsPosition(name: string, n: nat) {
    exists i :: 0 <= i < n && name == Digits(i)
  }

  lemma {:induction false} NextIsNew(items: Tree, n: nat)
    requires HoldsOnly(items, n)
    ensures Digits(n) !in items
  {
    if Digits(n) in items {
      assert IsPosition(Digits(n), n);
      var i :| 0 <= i < n && Digits(n) == Digits(i);
      DigitsInjective(n, i);
    }
  }

  lemma {:induction false} HoldsOnlyNext(items: Tree, n: nat, name: string, leaf: Node)
    requires HoldsOnly(items, n) && name == Digits(n)
    ensures HoldsOnly(items[name := leaf], n + 1)
  {
    var next := items[name := leaf];
    forall other | other in next ensures IsPosition(other, n + 1) {
      if other != name {
        assert IsPosition(other, n);
        var i :| 0 <= i < n && other == Digits(i);
        assert 0 <= i < n + 1;
      }
    }
  }

  lemma {:induction false} HoldsAllNext(items: Tree, texts: seq<string>, name: string, text: string)
    requires HoldsAll(items, texts) && name == Digits(|texts|) && name !in items
    ensures HoldsAll(items[name := Leaf(text)], texts + [text])
  {
  }

  lemma {:induction false} OneMore(items: Tree, name: string, leaf: Node)
    requires name !in items
    ensures |items[name := leaf]| == |items| + 1
  {
    var next := items[name := leaf];
    assert next.Keys == items.Keys + {name} && |next| == |next.Keys| && |items| == |items.Keys|;
  }

  lemma {:induction false} NumberedNext(items: Tree, texts: seq<string>, text: string)
    requires Numbered(items, texts)
    ensures Numbered(items[Digits(|items|) := Leaf(text)], texts + [text])
  {
    var name := Digits(|texts|);
    NextIsNew(items, |texts|);
    OneMore(items, name, Leaf(text));
    HoldsAllNext(items, texts, name, text);
    HoldsOnlyNext(items, |texts|, name, Leaf(text));
  }

  /** The dict built by numbering the texts one after the other. */
  function Numbering(texts: seq<string>): Tree {
    if texts == [] then map[]
    else
      var last := |texts| - 1;
      Numbering(texts[..last])[Digits(last) := Leaf(texts[last])]
  }

  lemma {:induction false} NumberingIs(texts: seq<string>)
    ensures Numbered(Numbering(texts), texts)
  {
    if texts != [] {
      var last := |texts| - 1;
      NumberingIs(texts[..last]);
      NumberedNext(Numbering(texts[..last]), texts[..last], texts[last]);
      assert texts[..last] + [texts[last]] == texts;
    }
  }

  /** The form so far: nothing, or one dict under the base. */
  function Gathered(base: string, items: Tree): Tree {
    if items == map[] then map[] else map[base := Dict(items)]
  }

  lemma {:induction false} PutLast(base: string, items: Tree, text: string)
    requires base != ""
    ensures Put(Gathered(base, items), [base] + [""], text) == map[base := Dict(items[Digits(|items|) := Leaf(text)])]
  {
    var root, inner := Gathered(base, items), Put(items, [""], text);
    assert inner == items[Digits(|items|) := Leaf(text)];
    assert ChildOf(root, base) == items;
    assert ([base] + [""])[1..] == [""];
    assert root[base := Dict(inner)] == map[base := Dict(inner)];
  }

  lemma {:induction false} AppendOne(base: string, items: Tree, text: string)
    requires Segment(base)
    ensures ExpandOne(Gathered(base, items), (base + "[]", text))
         == Success(Gathered(base, items[Digits(|items|) := Leaf(text)]))
  {
    assert Digits(|items|) in items[Digits(|items|) := Leaf(text)];
    BracketMatchRendered(base, [""]);
    assert Render(base, [""]) == base + "[" + "" + "]" == base + "[]";
    PutLast(base, items, text);
  }

  lemma {:induction false} ExpandLast(root: Tree, pairs: seq<Pair>, last: Pair)
    requires Expand(root, pairs).Success?
    ensures Expand(root, pairs + [last]) == ExpandOne(Expand(root, pairs).value, last)
    decreases |pairs|
  {
    if pairs == [] {
      assert [] + [last] == [last];
      var next := ExpandOne(root, last);
      assert next.Success? ==> Expand(next.value, [last][1..]) == Success(next.value);
    } else {
      assert (pairs + [last])[1..] == pairs[1..] + [last];
      ExpandLast(ExpandOne(root, pairs[0]).value, pairs[1..], last);
    }
  }

  lemma {:induction false} AppendsGather(base: string, texts: seq<string>)
    requires Segment(base)
    ensures Expand(map[], Appends(base, texts)) == Success(Gathered(base, Numbering(texts)))
    decreases |texts|
  {
    if texts == [] {
      assert Appends(base, texts) == [];
    } else {
      var last := |texts| - 1;
      AppendsGather(base, texts[..last]);
      AppendLast(base, texts[..last], texts[last]);
      AppendsSplit(base, texts);
      ExpandLast(map[], Appends(base, texts[..last]), (base + "[]", texts[last]));
    }
  }

  lemma {:induction false} AppendsSplit(base: string, texts: seq<string>)
    requires texts != []
    ensures var last := |texts| - 1;
            Appends(base, texts) == Appends(base, texts[..last]) + [(base + "[]", texts[last])]
  {
  }

  lemma {:induction false} AppendLast(base: string, front: seq<string>, text: string)
    requires Segment(base)
    ensures ExpandOne(Gathered(base, Numbering(front)), (base + "[]", text))
         == Success(Gathered(base, Numbering(front)[Digits(|front|) := Leaf(text)]))
  {
    NumberingIs(front);
    AppendOne(base, Numbering(front), text);
  }

  /** A name with an empty segment, sent again and again, gathers the texts under 0, 1, 2, ... in order. */
  lemma {:induction false} AppendsNumber(base: string, texts: seq<string>)
    requires Segment(base) && texts != []
    ensures var r := Expand(map[], Appends(base, texts));
            && r.Success? && r.value.Keys == {base} && r.value[base].Dict? && Numbered(r.value[base].items, texts)
  {
    AppendsGather(base, texts);
    NumberingIs(texts);
    assert Numbering(texts) != map[];
  }
}
