/**
 The bracket parser undoes the encoder. Both directions are compared through
 `Param`, the shape PHP sees: nulls absent, lists turned into index-keyed maps.
 */
module PhpRoundTrip {
  import opened Wrappers
  import opened PhpArrays

  datatype Param = Absent | Atom(text: string) | Branch(children: seq<Child>)

  datatype Child = Child(key: string, param: Param)

  function Shape(v: Value): Param
    decreases v, 1
  {
    match v
    case Null => Absent
    case Mapping(entries) => Branch(ShapeEntries(entries))
    case Listing(items) => Branch(ShapeItems(items, 0))
    case Flag(_) => Atom(Scalar(v))
    case Number(_) => Atom(Scalar(v))
    case Text(_) => Atom(Scalar(v))
    case Rendered(_) => Atom(Scalar(v))
  }

  function ShapeEntries(entries: seq<Entry>): (cs: seq<Child>)
    ensures |cs| == |entries|
    ensures forall i :: 0 <= i < |cs| ==> cs[i].key == entries[i].key
    decreases entries, 0
  {
    if entries == [] then []
    else [Child(entries[0].key, Shape(entries[0].value))] + ShapeEntries(entries[1..])
  }

  function ShapeItems(items: seq<Value>, index: nat): (cs: seq<Child>)
    ensures |cs| == |items|
    ensures forall i :: 0 <= i < |cs| ==> cs[i].key == Digits(index + i)
    decreases items, 0
  {
    if items == [] then []
    else [Child(Digits(index), Shape(items[0]))] + ShapeItems(items[1..], index + 1)
  }

  /** What a decoder may find at this parameter: nothing when every leaf below is null. */
  function Image(p: Param): Option<Node>
    decreases p, 1
  {
    match p
    case Absent => None
    case Atom(text) => Some(Node.Leaf(text))
    case Branch(children) =>
      var items := ImageOf(children);
      if items == map[] then None else Some(Dict(items))
  }

  function ImageOf(cs: seq<Child>): (tree: Tree)
    ensures forall k :: k in tree ==> exists i :: 0 <= i < |cs| && cs[i].key == k
    decreases cs, 0
  {
    if cs == [] then map[]
    else
      var rest := ImageOf(cs[1..]);
      match Image(cs[0].param)
      case None => rest
      case Some(node) => rest[cs[0].key := node]
  }

  // ------------------------------------------------------------------ well-formed parameters

  predicate KeysDiffer(cs: seq<Child>) {
    forall i, j :: 0 <= i < j < |cs| ==> cs[i].key != cs[j].key
  }

  predicate EntriesDiffer(entries: seq<Entry>) {
    forall i, j :: 0 <= i < j < |entries| ==> entries[i].key != entries[j].key
  }

  /** Every key is a name segment, and the keys of one mapping are distinct. */
  predicate Proper(v: Value)
    decreases v, 1
  {
    match v
    case Mapping(entries) => ProperEntries(entries)
    case Listing(items) => forall i :: 0 <= i < |items| ==> Proper(items[i])
    case _ => true
  }

  predicate ProperEntries(entries: seq<Entry>)
    decreases entries, 0
  {
    && (forall i :: 0 <= i < |entries| ==> Segment(entries[i].key) && Proper(entries[i].value))
    && EntriesDiffer(entries)
  }

  predicate ProperParam(p: Param)
    decreases p, 2
  {
    p.Branch? ==> ProperChildren(p.children)
  }

  predicate ProperChildren(cs: seq<Child>)
    decreases cs, 1
  {
    && EachProper(cs)
    && KeysDiffer(cs)
  }

  predicate EachProper(cs: seq<Child>)
    decreases cs, 0
  {
    forall i :: 0 <= i < |cs| ==> Segment(cs[i].key) && ProperParam(cs[i].param)
  }

  lemma {:induction false} ShapeIsProper(v: Value)
    requires Proper(v)
    ensures ProperParam(Shape(v))
    decreases v, 1
  {
    match v
    case Mapping(entries) => ShapeEntriesProper(entries);
    case Listing(items) =>
      ShapeItemsProper(items, 0);
      IndexKeysDiffer(items);
      assert ProperChildren(ShapeItems(items, 0));
    case _ =>
  }

  lemma {:induction false} ShapeEntriesProper(entries: seq<Entry>)
    requires ProperEntries(entries)
    ensures ProperChildren(ShapeEntries(entries))
    decreases entries, 0
  {
    if entries != [] {
      assert entries[0] in entries;
      ShapeIsProper(entries[0].value);
      ShapeEntriesProper(entries[1..]);
    }
  }

  lemma {:induction false} ShapeItemsProper(items: seq<Value>, index: nat)
    requires forall i :: 0 <= i < |items| ==> Proper(items[i])
    ensures EachProper(ShapeItems(items, index))
    decreases items, 0
  {
    if items != [] {
      ShapeIsProper(items[0]);
      ShapeItemsProper(items[1..], index + 1);
      assert ShapeItems(items, index)[1..] == ShapeItems(items[1..], index + 1);
    }
  }

  // ------------------------------------------------------------------ distinct keys, whatever they are

  /** The keys of every mapping are distinct: all that a dict promises of them. */
  predicate DistinctKeys(v: Value)
    decreases v, 1
  {
    match v
    case Mapping(entries) => DistinctEntries(entries)
    case Listing(items) => forall i :: 0 <= i < |items| ==> DistinctKeys(items[i])
    case _ => true
  }

  predicate DistinctEntries(entries: seq<Entry>)
    decreases entries, 0
  {
    && (forall i :: 0 <= i < |entries| ==> DistinctKeys(entries[i].value))
    && EntriesDiffer(entries)
  }

  predicate DistinctParam(p: Param)
    decreases p, 2
  {
    p.Branch? ==> DistinctChildren(p.children)
  }

  predicate DistinctChildren(cs: seq<Child>)
    decreases cs, 1
  {
    EachDistinct(cs) && KeysDiffer(cs)
  }

  predicate EachDistinct(cs: seq<Child>)
    decreases cs, 0
  {
    forall i :: 0 <= i < |cs| ==> DistinctParam(cs[i].param)
  }

  lemma {:induction false} ShapeIsDistinct(v: Value)
    requires DistinctKeys(v)
    ensures DistinctParam(Shape(v))
    decreases v, 1
  {
    match v
    case Mapping(entries) => ShapeEntriesDistinct(entries);
    case Listing(items) =>
      ShapeItemsDistinct(items, 0);
      IndexKeysDiffer(items);
      assert DistinctChildren(ShapeItems(items, 0));
    case _ =>
  }

  lemma {:induction false} IndexKeysDiffer(items: seq<Value>)
    ensures KeysDiffer(ShapeItems(items, 0))
  {
    var cs := ShapeItems(items, 0);
    forall i, j | 0 <= i < j < |cs| ensures cs[i].key != cs[j].key {
      if Digits(i) == Digits(j) {
        DigitsInjective(i, j);
      }
    }
  }

  lemma {:induction false} ShapeEntriesDistinct(entries: seq<Entry>)
    requires DistinctEntries(entries)
    ensures DistinctChildren(ShapeEntries(entries))
    decreases entries, 0
  {
    if entries != [] {
      assert entries[0] in entries;
      ShapeIsDistinct(entries[0].value);
      ShapeEntriesDistinct(entries[1..]);
    }
  }

  lemma {:induction false} ShapeItemsDistinct(items: seq<Value>, index: nat)
    requires forall i :: 0 <= i < |items| ==> DistinctKeys(items[i])
    ensures EachDistinct(ShapeItems(items, index))
    decreases items, 0
  {
    if items != [] {
      ShapeIsDistinct(items[0]);
      ShapeItemsDistinct(items[1..], index + 1);
      assert ShapeItems(items, index)[1..] == ShapeItems(items[1..], index + 1);
    }
  }

  lemma {:induction false} ProperIsDistinct(v: Value)
    requires Proper(v)
    ensures DistinctKeys(v)
    decreases v, 1
  {
    match v
    case Mapping(entries) => ProperEntriesDistinct(entries);
    case Listing(items) =>
      forall i | 0 <= i < |items| ensures DistinctKeys(items[i]) {
        ProperIsDistinct(items[i]);
      }
    case _ =>
  }

  lemma {:induction false} ProperEntriesDistinct(entries: seq<Entry>)
    requires ProperEntries(entries)
    ensures DistinctEntries(entries)
    decreases entries, 0
  {
    forall i | 0 <= i < |entries| ensures DistinctKeys(entries[i].value) {
      ProperIsDistinct(entries[i].value);
    }
  }

  // ------------------------------------------------------------------ the encoder's output

  /** A leaf of a parameter: the bracket segments leading to it, and its text. */
  datatype Spot = Spot(path: seq<string>, text: string)

  function Spots(p: Param): seq<Spot>
    decreases p, 1
  {
    match p
    case Absent => []
    case Atom(text) => [Spot([], text)]
    case Branch(children) => SpotsOf(children)
  }

  function SpotsOf(cs: seq<Child>): (spots: seq<Spot>)
    ensures forall i :: 0 <= i < |spots| ==> spots[i].path != []
    decreases cs, 0
  {
    if cs == [] then [] else Under(cs[0].key, Spots(cs[0].param)) + SpotsOf(cs[1..])
  }

  function Under(key: string, spots: seq<Spot>): (r: seq<Spot>)
    ensures |r| == |spots|
    ensures forall i :: 0 <= i < |r| ==> r[i] == Spot([key] + spots[i].path, spots[i].text)
  {
    seq(|spots|, i requires 0 <= i < |spots| => Spot([key] + spots[i].path, spots[i].text))
  }

  function Print(prefix: string, spots: seq<Spot>): (pairs: seq<Pair>)
    ensures |pairs| == |spots|
    ensures forall i :: 0 <= i < |pairs| ==> pairs[i] == (Render(prefix, spots[i].path), spots[i].text)
  {
    seq(|spots|, i requires 0 <= i < |spots| => (Render(prefix, spots[i].path), spots[i].text))
  }

  /** Levels the encoder must descend; it counts an empty container, never a null. */
  function Height(p: Param): nat
    decreases p, 1
  {
    match p
    case Absent => 0
    case Atom(_) => 1
    case Branch(children) => 1 + HeightOf(children)
  }

  function HeightOf(cs: seq<Child>): nat
    decreases cs, 0
  {
    if cs == [] then 0
    else
      var h, rest := Height(cs[0].param), HeightOf(cs[1..]);
      if h > rest then h else rest
  }

  lemma {:induction false} PrintUnder(prefix: string, key: string, spots: seq<Spot>)
    ensures Print(prefix, Under(key, spots)) == Print(prefix + "[" + key + "]", spots)
  {
    forall i | 0 <= i < |spots|
      ensures Render(prefix, [key] + spots[i].path) == Render(prefix + "[" + key + "]", spots[i].path)
    {
      assert ([key] + spots[i].path)[1..] == spots[i].path;
    }
  }

  lemma {:induction false} PrintConcat(prefix: string, a: seq<Spot>, b: seq<Spot>)
    ensures Print(prefix, a + b) == Print(prefix, a) + Print(prefix, b)
  {
  }

  /** The encoder accepts exactly the values it can descend, and then prints their leaves. */
  lemma {:induction false} EncodePrints(prefix: string, v: Value, depth: nat)
    ensures Encode(prefix, v, depth).Success? <==> Height(Shape(v)) <= depth
    ensures Height(Shape(v)) <= depth ==> Encode(prefix, v, depth).value == Print(prefix, Spots(Shape(v)))
    decreases v, 1
  {
    if depth > 0 {
      match v
      case Mapping(entries) => EncodeEntriesPrints(prefix, entries, depth - 1);
      case Listing(items) => EncodeItemsPrints(prefix, items, 0, depth - 1);
      case _ =>
    }
  }

  lemma {:induction false} EncodeEntriesPrints(prefix: string, entries: seq<Entry>, depth: nat)
    ensures var cs := ShapeEntries(entries);
            && (EncodeEntries(prefix, entries, depth).Success? <==> HeightOf(cs) <= depth)
            && (HeightOf(cs) <= depth ==> EncodeEntries(prefix, entries, depth).value == Print(prefix, SpotsOf(cs)))
    decreases entries, 0
  {
    if entries != [] {
      var key, head := entries[0].key, Spots(Shape(entries[0].value));
      EncodePrints(prefix + "[" + key + "]", entries[0].value, depth);
      EncodeEntriesPrints(prefix, entries[1..], depth);
      PrintUnder(prefix, key, head);
      PrintConcat(prefix, Under(key, head), SpotsOf(ShapeEntries(entries[1..])));
    }
  }

  lemma {:induction false} EncodeItemsPrints(prefix: string, items: seq<Value>, index: nat, depth: nat)
    ensures var cs := ShapeItems(items, index);
            && (EncodeItems(prefix, items, index, depth).Success? <==> HeightOf(cs) <= depth)
            && (HeightOf(cs) <= depth ==> EncodeItems(prefix, items, index, depth).value == Print(prefix, SpotsOf(cs)))
    decreases items, 0
  {
    if items != [] {
      var key, head := Digits(index), Spots(Shape(items[0]));
      EncodePrints(prefix + "[" + key + "]", items[0], depth);
      EncodeItemsPrints(prefix, items[1..], index + 1, depth);
      PrintUnder(prefix, key, head);
      PrintConcat(prefix, Under(key, head), SpotsOf(ShapeItems(items[1..], index + 1)));
    }
  }

  // ------------------------------------------------------------------ names

  lemma {:induction false} RunOf(s: string, t: string)
    requires BracketFree(s) && (t == "" || IsBracket(t[0]))
    ensures Run(s + t) == |s|
  {
    if s == "" {
      assert s + t == t;
    } else {
      assert (s + t)[1..] == s[1..] + t;
      RunOf(s[1..], t);
    }
  }

  /** The text of a path after its base name. */
  function Brackets(path: seq<string>): (s: string)
    ensures path == [] ==> s == ""
    ensures path != [] ==> s != "" && s[0] == '[' && s[|s| - 1] == ']'
  {
    if path == [] then "" else "[" + path[0] + "]" + Brackets(path[1..])
  }

  lemma {:induction false} RenderIsBrackets(base: string, path: seq<string>)
    ensures Render(base, path) == base + Brackets(path)
    decreases |path|
  {
    if path == [] {
      assert base + "" == base;
    } else {
      RenderIsBrackets(base + "[" + path[0] + "]", path[1..]);
      assert (base + "[" + path[0] + "]") + Brackets(path[1..]) == base + ("[" + path[0] + "]" + Brackets(path[1..]));
    }
  }

  lemma {:induction false} SegmentsStep(segment: string, rest: string)
    requires BracketFree(segment)
    ensures Segments("[" + segment + "]" + rest) ==
            match Segments(rest) case None => None case Some(tail) => Some([segment] + tail)
  {
    var s := "[" + segment + "]" + rest;
    assert s[1..] == segment + ("]" + rest);
    RunOf(segment, "]" + rest);
    assert s[1..|segment| + 1] == segment;
    assert s[|segment| + 2..] == rest;
  }

  lemma {:induction false} SegmentsOfBrackets(path: seq<string>)
    requires forall i :: 0 <= i < |path| ==> BracketFree(path[i])
    ensures Segments(Brackets(path)) == Some(path)
  {
    if path != [] {
      SegmentsOfBrackets(path[1..]);
      SegmentsStep(path[0], Brackets(path[1..]));
      assert path == [path[0]] + path[1..];
    }
  }

  lemma {:induction false} Cut(s: string, n: nat)
    requires n + 2 <= |s| && s[0] == '[' && s[n + 1] == ']'
    ensures s == "[" + s[1..n + 1] + "]" + s[n + 2..]
  {
    assert s == s[..1] + s[1..n + 1] + s[n + 1..n + 2] + s[n + 2..];
    assert s[..1] == "[" && s[n + 1..n + 2] == "]";
  }

  lemma {:induction false} FirstSegment(s: string)
    requires s != "" && Segments(s).Some?
    ensures var n := Run(s[1..]);
            && n + 2 <= |s| && s[0] == '[' && s[n + 1] == ']' && BracketFree(s[1..n + 1])
            && Segments(s[n + 2..]).Some?
            && Segments(s).value == [s[1..n + 1]] + Segments(s[n + 2..]).value
  {
    assert s[1..][..Run(s[1..])] == s[1..Run(s[1..]) + 1];
  }

  lemma {:induction false} BracketsOfSegments(s: string)
    requires Segments(s).Some?
    ensures Brackets(Segments(s).value) == s
    ensures forall i :: 0 <= i < |Segments(s).value| ==> BracketFree(Segments(s).value[i])
  {
    if s != "" {
      var n := Run(s[1..]);
      var first, rest := s[1..n + 1], s[n + 2..];
      FirstSegment(s);
      BracketsOfSegments(rest);
      BracketsCons(first, Segments(rest).value);
      Cut(s, n);
    }
  }

  lemma {:induction false} BracketsCons(first: string, path: seq<string>)
    requires BracketFree(first) && forall i :: 0 <= i < |path| ==> BracketFree(path[i])
    ensures Brackets([first] + path) == "[" + first + "]" + Brackets(path)
    ensures forall i :: 0 <= i < |[first] + path| ==> BracketFree(([first] + path)[i])
  {
    assert ([first] + path)[1..] == path;
  }

  predicate Name(base: string, path: seq<string>) {
    Segment(base) && path != [] && forall i :: 0 <= i < |path| ==> BracketFree(path[i])
  }

  lemma {:induction false} RenderedSplits(base: string, path: seq<string>)
    requires Name(base, path)
    ensures SplitName(Render(base, path)) == Some((base, path))
  {
    var rest := Brackets(path);
    RenderIsBrackets(base, path);
    RunOf(base, rest);
    assert (base + rest)[..|base|] == base && (base + rest)[|base|..] == rest;
    SegmentsOfBrackets(path);
  }

  lemma {:induction false} SplitIsRendered(key: string)
    requires SplitName(key).Some?
    ensures var (base, path) := SplitName(key).value; Name(base, path) && key == Render(base, path)
  {
    var n := Run(key);
    PartsRender(key[..n], key[n..]);
    assert key == key[..n] + key[n..];
  }

  lemma {:induction false} PartsRender(base: string, rest: string)
    requires Segment(base) && Segments(rest).Some? && Segments(rest).value != []
    ensures Name(base, Segments(rest).value) && base + rest == Render(base, Segments(rest).value)
  {
    BracketsOfSegments(rest);
    RenderIsBrackets(base, Segments(rest).value);
  }

  /** The name pattern finds `base[a][b]...` exactly when the name is printed that way. */
  lemma {:induction false} SplitNameIffRendered(key: string, base: string, path: seq<string>)
    ensures SplitName(key) == Some((base, path)) <==> Name(base, path) && key == Render(base, path)
  {
    if SplitName(key).Some? {
      SplitIsRendered(key);
    }
    if Name(base, path) {
      RenderedSplits(base, path);
    }
  }

  lemma {:induction false} BracketMatchRendered(base: string, path: seq<string>)
    requires Segment(base) && forall i :: 0 <= i < |path| ==> BracketFree(path[i])
    ensures BracketMatch(Render(base, path)) == if path == [] then None else Some((base, path))
  {
    var key := Render(base, path);
    RenderIsBrackets(base, path);
    if path == [] {
      var bare := if key[|key| - 1] == '\n' then key[..|key| - 1] else key;
      RunOf(bare, "");
      assert bare + "" == bare;
    } else {
      SplitNameIffRendered(key, base, path);
    }
  }

  // ------------------------------------------------------------------ folding leaves back

  /** Assignment along a path of literal keys. */
  function Set(tree: Tree, path: seq<string>, text: string): Tree
    requires path != []
    decreases |path|
  {
    if |path| == 1 then tree[path[0] := Leaf(text)]
    else tree[path[0] := Dict(Set(ChildOf(tree, path[0]), path[1..], text))]
  }

  /** The decoder's walk is that assignment, when no segment is empty. */
  lemma {:induction false} PutIsSet(tree: Tree, path: seq<string>, text: string)
    requires path != [] && forall i :: 0 <= i < |path| ==> path[i] != ""
    ensures Put(tree, path, text) == Set(tree, path, text)
    decreases |path|
  {
    if |path| > 1 {
      PutIsSet(ChildOf(tree, path[0]), path[1..], text);
    }
  }

  function SetAll(tree: Tree, spots: seq<Spot>): Tree
    requires forall i :: 0 <= i < |spots| ==> spots[i].path != []
    decreases |spots|
  {
    if spots == [] then tree else SetAll(Set(tree, spots[0].path, spots[0].text), spots[1..])
  }

  lemma {:induction false} SetAllConcat(tree: Tree, a: seq<Spot>, b: seq<Spot>)
    requires forall i :: 0 <= i < |a| ==> a[i].path != []
    requires forall i :: 0 <= i < |b| ==> b[i].path != []
    ensures SetAll(tree, a + b) == SetAll(SetAll(tree, a), b)
    decreases |a|
  {
    if a == [] {
      assert a + b == b;
    } else {
      assert (a + b)[1..] == a[1..] + b;
      SetAllConcat(Set(tree, a[0].path, a[0].text), a[1..], b);
    }
  }

  lemma {:induction false} SetAllUnder(tree: Tree, key: string, spots: seq<Spot>)
    requires spots != [] && forall i :: 0 <= i < |spots| ==> spots[i].path != []
    ensures SetAll(tree, Under(key, spots)) == tree[key := Dict(SetAll(ChildOf(tree, key), spots))]
    decreases |spots|
  {
    var lifted := Under(key, spots);
    var child := Set(ChildOf(tree, key), spots[0].path, spots[0].text);
    assert lifted[0].path[1..] == spots[0].path;
    assert Set(tree, lifted[0].path, lifted[0].text) == tree[key := Dict(child)];
    assert lifted[1..] == Under(key, spots[1..]);
    if |spots| > 1 {
      SetAllUnder(tree[key := Dict(child)], key, spots[1..]);
    } else {
      assert SetAll(child, spots[1..]) == child;
    }
  }

  lemma {:induction false} SpotsIffImage(cs: seq<Child>)
    ensures SpotsOf(cs) == [] <==> ImageOf(cs) == map[]
    decreases cs
  {
    if cs != [] {
      SpotsIffImage(cs[1..]);
      if cs[0].param.Branch? {
        SpotsIffImage(cs[0].param.children);
      }
      match Image(cs[0].param)
      case None =>
      case Some(node) => assert cs[0].key in ImageOf(cs);
    }
  }

  function Grafted(tree: Tree, key: string, p: Param): Tree {
    match Image(p) case None => tree case Some(node) => tree[key := node]
  }

  lemma {:induction false} SetAllGrafts(tree: Tree, key: string, p: Param)
    requires key !in tree && DistinctParam(p)
    ensures SetAll(tree, Under(key, Spots(p))) == Grafted(tree, key, p)
    decreases p, 1
  {
    match p
    case Absent => assert Under(key, []) == [];
    case Atom(text) => SetAllAtom(tree, key, text);
    case Branch(children) =>
      SpotsIffImage(children);
      if SpotsOf(children) == [] {
        assert Under(key, []) == [];
      } else {
        SetAllBuilds(map[], children);
        SetAllBranch(tree, key, children);
      }
  }

  lemma {:induction false} SetAllAtom(tree: Tree, key: string, text: string)
    ensures SetAll(tree, Under(key, [Spot([], text)])) == tree[key := Node.Leaf(text)]
  {
    var lifted := Under(key, [Spot([], text)]);
    assert lifted[0].path == [key];
    assert lifted[1..] == [];
  }

  lemma {:induction false} SetAllBranch(tree: Tree, key: string, children: seq<Child>)
    requires key !in tree && SpotsOf(children) != []
    requires SetAll(map[], SpotsOf(children)) == map[] + ImageOf(children)
    ensures SetAll(tree, Under(key, SpotsOf(children))) == tree[key := Dict(ImageOf(children))]
  {
    SetAllUnder(tree, key, SpotsOf(children));
    assert map[] + ImageOf(children) == ImageOf(children);
  }

  /** Replaying the leaves of distinct children into a tree adds exactly their images. */
  lemma {:induction false} SetAllBuilds(tree: Tree, cs: seq<Child>)
    requires DistinctChildren(cs)
    requires forall i :: 0 <= i < |cs| ==> cs[i].key !in tree
    ensures SetAll(tree, SpotsOf(cs)) == tree + ImageOf(cs)
    decreases cs, 0
  {
    if cs != [] {
      var key, p := cs[0].key, cs[0].param;
      var next := Grafted(tree, key, p);
      SetAllConcat(tree, Under(key, Spots(p)), SpotsOf(cs[1..]));
      SetAllGrafts(tree, key, p);
      assert DistinctChildren(cs[1..]);
      SetAllBuilds(next, cs[1..]);
      assert key !in ImageOf(cs[1..]);
      GraftedThenRest(tree, cs);
    }
  }

  lemma {:induction false} UpdateCommutes(tree: Tree, key: string, node: Node, rest: Tree)
    requires key !in rest
    ensures tree[key := node] + rest == tree + rest[key := node]
  {
  }

  lemma {:induction false} GraftedThenRest(tree: Tree, cs: seq<Child>)
    requires cs != [] && cs[0].key !in ImageOf(cs[1..])
    ensures Grafted(tree, cs[0].key, cs[0].param) + ImageOf(cs[1..]) == tree + ImageOf(cs)
  {
    match Image(cs[0].param)
    case None =>
    case Some(node) => UpdateCommutes(tree, cs[0].key, node, ImageOf(cs[1..]));
  }

  // ------------------------------------------------------------------ the wire form of leaves

  function Wire(spots: seq<Spot>): (pairs: seq<Pair>)
    requires forall i :: 0 <= i < |spots| ==> spots[i].path != []
    ensures |pairs| == |spots|
    ensures forall i :: 0 <= i < |pairs| ==> pairs[i] == (Render(spots[i].path[0], spots[i].path[1..]), spots[i].text)
  {
    seq(|spots|, i requires 0 <= i < |spots| => (Render(spots[i].path[0], spots[i].path[1..]), spots[i].text))
  }

  lemma {:induction false} WireUnder(key: string, spots: seq<Spot>)
    ensures Wire(Under(key, spots)) == Print(key, spots)
  {
    forall i | 0 <= i < |spots| ensures Wire(Under(key, spots))[i] == Print(key, spots)[i] {
      assert ([key] + spots[i].path)[1..] == spots[i].path;
    }
  }

  lemma {:induction false} QueryPairsWire(params: seq<Entry>)
    ensures QueryPairs(params).Success? <==> HeightOf(ShapeEntries(params)) <= 8
    ensures QueryPairs(params).Success? ==> QueryPairs(params).value == Wire(SpotsOf(ShapeEntries(params)))
  {
    if params != [] {
      var head := Spots(Shape(params[0].value));
      var tail := SpotsOf(ShapeEntries(params[1..]));
      EncodePrints(params[0].key, params[0].value, MAX_PARAM_DEPTH);
      QueryPairsWire(params[1..]);
      WireUnder(params[0].key, head);
      assert Wire(Under(params[0].key, head) + tail) == Wire(Under(params[0].key, head)) + Wire(tail);
    }
  }

  /** A path both sides can carry: every step is a name segment. */
  predicate Clean(path: seq<string>) {
    path != [] && forall i :: 0 <= i < |path| ==> Segment(path[i])
  }

  /** A path the wire carries: clean, or a single name that the decoder does not take apart. */
  predicate Carried(path: seq<string>) {
    Clean(path) || (|path| == 1 && BracketMatch(path[0]).None?)
  }

  lemma {:induction false} SpotsWithinHeight(p: Param)
    ensures forall i :: 0 <= i < |Spots(p)| ==> |Spots(p)[i].path| < Height(p)
    decreases p, 1
  {
    if p.Branch? {
      SpotsOfWithinHeight(p.children);
    }
  }

  lemma {:induction false} SpotsOfWithinHeight(cs: seq<Child>)
    ensures forall i :: 0 <= i < |SpotsOf(cs)| ==> |SpotsOf(cs)[i].path| <= HeightOf(cs)
    decreases cs, 0
  {
    if cs != [] {
      var head := Spots(cs[0].param);
      SpotsWithinHeight(cs[0].param);
      SpotsOfWithinHeight(cs[1..]);
      forall i | 0 <= i < |SpotsOf(cs)| ensures |SpotsOf(cs)[i].path| <= HeightOf(cs) {
        if i < |head| {
          assert SpotsOf(cs)[i] == Under(cs[0].key, head)[i];
        } else {
          assert SpotsOf(cs)[i] == SpotsOf(cs[1..])[i - |head|];
        }
      }
    }
  }

  lemma {:induction false} SpotsAreClean(p: Param)
    requires ProperParam(p)
    ensures forall i :: 0 <= i < |Spots(p)| ==> Spots(p)[i].path == [] || Clean(Spots(p)[i].path)
    decreases p, 1
  {
    if p.Branch? {
      SpotsOfAreClean(p.children);
    }
  }

  lemma {:induction false} SpotsOfAreClean(cs: seq<Child>)
    requires ProperChildren(cs)
    ensures forall i :: 0 <= i < |SpotsOf(cs)| ==> Clean(SpotsOf(cs)[i].path)
    decreases cs, 0
  {
    if cs != [] {
      var head := Spots(cs[0].param);
      SpotsAreClean(cs[0].param);
      assert ProperChildren(cs[1..]);
      SpotsOfAreClean(cs[1..]);
      forall i | 0 <= i < |SpotsOf(cs)| ensures Clean(SpotsOf(cs)[i].path) {
        if i < |head| {
          assert SpotsOf(cs)[i] == Under(cs[0].key, head)[i];
        } else {
          assert SpotsOf(cs)[i] == SpotsOf(cs[1..])[i - |head|];
        }
      }
    }
  }

  lemma {:induction false} ExpandCarried(tree: Tree, path: seq<string>, text: string)
    requires Carried(path)
    ensures ExpandOne(tree, (Render(path[0], path[1..]), text))
         == if |path| <= 8 then Success(Set(tree, path, text))
            else Failure(KeyTooDeep(Render(path[0], path[1..])))
  {
    if Clean(path) {
      BracketMatchRendered(path[0], path[1..]);
      PutIsSet(tree, path, text);
      assert [path[0]] + path[1..] == path;
    }
    if |path| == 1 {
      RenderIsBrackets(path[0], path[1..]);
      assert path[0] + "" == path[0];
    }
  }

  /** Decoding carried leaves replays them; it fails exactly when some path is over the limit. */
  lemma {:induction false} ExpandReplays(tree: Tree, spots: seq<Spot>)
    requires forall i :: 0 <= i < |spots| ==> spots[i].path != [] && Carried(spots[i].path)
    ensures Expand(tree, Wire(spots)).Success?
            <==> forall i :: 0 <= i < |spots| ==> |spots[i].path| <= 8
    ensures Expand(tree, Wire(spots)).Success? ==> Expand(tree, Wire(spots)) == Success(SetAll(tree, spots))
    decreases |spots|
  {
    if spots != [] {
      var path := spots[0].path;
      ExpandCarried(tree, path, spots[0].text);
      assert Wire(spots)[1..] == Wire(spots[1..]);
      if |path| <= MAX_BRACKET_DEPTH {
        ExpandReplays(Set(tree, path, spots[0].text), spots[1..]);
      }
    }
  }

  // ------------------------------------------------------------------ what a decoder can produce at all

  /** The tree holds this text at the end of this path. */
  predicate Holds(tree: Tree, path: seq<string>, text: string)
    decreases |path|
  {
    && path != [] && path[0] in tree
    && if |path| == 1 then tree[path[0]] == Leaf(text)
       else tree[path[0]].Dict? && Holds(tree[path[0]].items, path[1..], text)
  }

  ghost predicate AllCarried(tree: Tree) {
    forall path, text :: Holds(tree, path, text) ==> Carried(path)
  }

  lemma {:induction false} HoldsAfterPut(tree: Tree, path: seq<string>, text: string, q: seq<string>, u: string)
    requires path != [] && forall i :: 0 <= i < |path| ==> BracketFree(path[i])
    requires Holds(Put(tree, path, text), q, u)
    ensures Holds(tree, q, u) || Clean(q)
    decreases |path|
  {
    var name := NameIn(path[0], tree);
    assert Segment(name);
    if |path| > 1 && q[0] == name {
      HoldsAfterPut(ChildOf(tree, name), path[1..], text, q[1..], u);
      if Clean(q[1..]) {
        assert forall i :: 1 <= i < |q| ==> q[i] == q[1..][i - 1];
      }
    }
  }

  lemma {:induction false} ExpandOneCarries(tree: Tree, pair: Pair)
    requires AllCarried(tree) && ExpandOne(tree, pair).Success?
    ensures AllCarried(ExpandOne(tree, pair).value)
  {
    var next := ExpandOne(tree, pair).value;
    forall q, u | Holds(next, q, u) ensures Carried(q) {
      match BracketMatch(pair.0)
      case None =>
        if q[0] == pair.0 {
          assert q == [pair.0];
        } else {
          assert Holds(tree, q, u);
        }
      case Some((base, segments)) =>
        var bare := if pair.0[|pair.0| - 1] == '\n' then pair.0[..|pair.0| - 1] else pair.0;
        SplitIsRendered(bare);
        HoldsAfterPut(tree, [base] + segments, pair.1, q, u);
    }
  }

  /** Whatever it is given, the decoder produces carried paths only. */
  lemma {:induction false} ExpandCarries(tree: Tree, pairs: seq<Pair>)
    requires AllCarried(tree) && Expand(tree, pairs).Success?
    ensures AllCarried(Expand(tree, pairs).value)
    decreases |pairs|
  {
    if pairs != [] {
      ExpandOneCarries(tree, pairs[0]);
      ExpandCarries(ExpandOne(tree, pairs[0]).value, pairs[1..]);
    }
  }

  /** The image holds every leaf of the parameters. */
  lemma {:induction false} SpotInImage(cs: seq<Child>, i: nat)
    requires DistinctChildren(cs) && i < |SpotsOf(cs)|
    ensures Holds(ImageOf(cs), SpotsOf(cs)[i].path, SpotsOf(cs)[i].text)
    decreases cs
  {
    var key, p, rest := cs[0].key, cs[0].param, cs[1..];
    var n := |Spots(p)|;
    if i < n {
      assert SpotsOf(cs)[i] == Under(key, Spots(p))[i];
      SpotUnderKey(cs, i);
    } else {
      var spot := SpotsOf(rest)[i - n];
      assert SpotsOf(cs)[i] == spot;
      assert DistinctChildren(rest);
      SpotInImage(rest, i - n);
      assert key !in ImageOf(rest);
    }
  }

  lemma {:induction false} SpotUnderKey(cs: seq<Child>, i: nat)
    requires DistinctChildren(cs) && cs != [] && i < |Spots(cs[0].param)|
    ensures Holds(ImageOf(cs), [cs[0].key] + Spots(cs[0].param)[i].path, Spots(cs[0].param)[i].text)
    decreases cs, 0
  {
    var key, p := cs[0].key, cs[0].param;
    var path := [key] + Spots(p)[i].path;
    assert path[1..] == Spots(p)[i].path;
    if p.Branch? {
      assert DistinctParam(p);
      SpotInImage(p.children, i);
    }
  }

  predicate AllLeavesCarried(params: seq<Entry>) {
    var spots := SpotsOf(ShapeEntries(params));
    forall i :: 0 <= i < |spots| ==> Carried(spots[i].path)
  }

  /**
   The central law of the codec, exactly. For any parameters the encoder accepts, decoding
   gives them back, nulls and empty containers pruned and lists index-keyed, if and only if
   the wire carries the path of every leaf. In particular nothing the encoder's depth
   limit lets through is too deep for the decoder.
   */
  lemma {:induction false} RoundTripIffCarried(params: seq<Entry>)
    requires DistinctEntries(params) && QueryPairs(params).Success?
    ensures (Expand(map[], QueryPairs(params).value) == Success(ImageOf(ShapeEntries(params))))
            <==> AllLeavesCarried(params)
  {
    if AllLeavesCarried(params) {
      CarriedComesBack(params);
    }
    if Expand(map[], QueryPairs(params).value) == Success(ImageOf(ShapeEntries(params))) {
      ComesBackIsCarried(params);
    }
  }

  lemma {:induction false} CarriedComesBack(params: seq<Entry>)
    requires DistinctEntries(params) && QueryPairs(params).Success? && AllLeavesCarried(params)
    ensures Expand(map[], QueryPairs(params).value) == Success(ImageOf(ShapeEntries(params)))
  {
    var cs := ShapeEntries(params);
    var none: Tree := map[];
    ShapeEntriesDistinct(params);
    QueryPairsWire(params);
    SpotsOfWithinHeight(cs);
    ExpandReplays(none, SpotsOf(cs));
    SetAllBuilds(none, cs);
    assert none + ImageOf(cs) == ImageOf(cs);
  }

  lemma {:induction false} ComesBackIsCarried(params: seq<Entry>)
    requires DistinctEntries(params) && QueryPairs(params).Success?
    requires Expand(map[], QueryPairs(params).value) == Success(ImageOf(ShapeEntries(params)))
    ensures AllLeavesCarried(params)
  {
    var cs := ShapeEntries(params);
    ShapeEntriesDistinct(params);
    ExpandCarries(map[], QueryPairs(params).value);
    forall i | 0 <= i < |SpotsOf(cs)| ensures Carried(SpotsOf(cs)[i].path) {
      SpotInImage(cs, i);
    }
  }

  /** With non-empty, bracket-free keys every path is carried, so the law always holds. */
  lemma {:induction false} RoundTrip(params: seq<Entry>)
    requires ProperEntries(params) && QueryPairs(params).Success?
    ensures Expand(map[], QueryPairs(params).value) == Success(ImageOf(ShapeEntries(params)))
  {
    ProperEntriesDistinct(params);
    ProperIsCarried(params);
    RoundTripIffCarried(params);
  }

  lemma {:induction false} ProperIsCarried(params: seq<Entry>)
    requires ProperEntries(params)
    ensures AllLeavesCarried(params)
  {
    ShapeEntriesProper(params);
    SpotsOfAreClean(ShapeEntries(params));
  }

  /** The same law through the size-checked entry point: only the body limits can refuse. */
  lemma {:induction false} RoundTripForm(params: seq<Entry>)
    requires ProperEntries(params) && QueryPairs(params).Success?
    ensures var form := QueryPairs(params).value;
            if WithinLimits(form) then ExpandBracketKeys(form) == Success(ImageOf(ShapeEntries(params)))
            else ExpandBracketKeys(form).Failure? && !ExpandBracketKeys(form).error.KeyTooDeep?
  {
    RoundTrip(params);
    CheckBodyAccepts(QueryPairs(params).value);
    CheckNeverTooDeep(QueryPairs(params).value, 0);
  }

  lemma {:induction false} CheckNeverTooDeep(form: seq<Pair>, total: nat)
    ensures CheckFrom(form, total).Failure? ==> !CheckFrom(form, total).error.KeyTooDeep?
  {
    if form != [] {
      CheckNeverTooDeep(form[1..], total + Utf8Length(form[0].0) + Utf8Length(form[0].1) + 2);
    }
  }

  // ------------------------------------------------------------------ no two names collide

  /** No leaf path equals another, and none runs through another leaf. */
  predicate PrefixFree(spots: seq<Spot>) {
    forall i, j :: 0 <= i < |spots| && 0 <= j < |spots| && i != j ==> !(spots[i].path <= spots[j].path)
  }

  lemma {:induction false} SpotsPrefixFree(p: Param)
    requires ProperParam(p)
    ensures PrefixFree(Spots(p))
    decreases p, 1
  {
    if p.Branch? {
      SpotsOfPrefixFree(p.children);
    }
  }

  function KeysOf(cs: seq<Child>): set<string> {
    set c | c in cs :: c.key
  }

  lemma {:induction false} SpotsOfStartWithKeys(cs: seq<Child>)
    ensures forall i :: 0 <= i < |SpotsOf(cs)| ==> SpotsOf(cs)[i].path[0] in KeysOf(cs)
  {
    if cs != [] {
      SpotsOfStartWithKeys(cs[1..]);
      assert KeysOf(cs) == {cs[0].key} + KeysOf(cs[1..]) by {
        assert cs == [cs[0]] + cs[1..];
      }
    }
  }

  lemma {:induction false} SpotsOfPrefixFree(cs: seq<Child>)
    requires ProperChildren(cs)
    ensures PrefixFree(SpotsOf(cs))
    decreases cs, 0
  {
    if cs != [] {
      SpotsPrefixFree(cs[0].param);
      assert ProperChildren(cs[1..]);
      SpotsOfPrefixFree(cs[1..]);
      SpotsOfStartWithKeys(cs[1..]);
      assert cs[0].key !in KeysOf(cs[1..]);
      JoinPrefixFree(cs[0].key, Spots(cs[0].param), SpotsOf(cs[1..]));
    }
  }

  lemma {:induction false} JoinPrefixFree(key: string, head: seq<Spot>, rest: seq<Spot>)
    requires PrefixFree(head) && PrefixFree(rest)
    requires forall i :: 0 <= i < |rest| ==> rest[i].path != [] && rest[i].path[0] != key
    ensures PrefixFree(Under(key, head) + rest)
  {
    var all := Under(key, head) + rest;
    forall i, j | 0 <= i < |all| && 0 <= j < |all| && i != j ensures !(all[i].path <= all[j].path) {
      if i < |head| && j < |head| {
        UnderKeepsPrefix(key, head[i].path, head[j].path);
      }
    }
  }

  lemma {:induction false} UnderKeepsPrefix(key: string, a: seq<string>, b: seq<string>)
    ensures [key] + a <= [key] + b ==> a <= b
  {
    if [key] + a <= [key] + b {
      assert a == ([key] + a)[1..] && b == ([key] + b)[1..];
      assert a == b[..|a|];
    }
  }

  /**
   Flattening well-formed parameters never makes two equal names, and no name of a leaf
   is also the path of a container, so the form body never sees a duplicate.
   */
  lemma {:induction false} NamesDistinct(params: seq<Entry>)
    requires ProperEntries(params) && QueryPairs(params).Success?
    ensures PrefixFree(SpotsOf(ShapeEntries(params)))
    ensures var pairs := QueryPairs(params).value;
            forall i, j :: 0 <= i < j < |pairs| ==> pairs[i].0 != pairs[j].0
  {
    var spots := SpotsOf(ShapeEntries(params));
    ShapeEntriesProper(params);
    QueryPairsWire(params);
    SpotsOfAreClean(ShapeEntries(params));
    SpotsOfPrefixFree(ShapeEntries(params));
    forall i, j | 0 <= i < j < |spots| ensures Wire(spots)[i].0 != Wire(spots)[j].0 {
      assert !(spots[i].path <= spots[j].path);
      if Wire(spots)[i].0 == Wire(spots)[j].0 {
        RenderInjective(spots[i].path, spots[j].path);
      }
    }
  }

  /** The path the decoder reads off a name. */
  function ReadPath(name: string): seq<string> {
    match BracketMatch(name)
    case None => [name]
    case Some((base, segments)) => [base] + segments
  }

  lemma {:induction false} ReadPathRendered(path: seq<string>)
    requires Clean(path)
    ensures ReadPath(Render(path[0], path[1..])) == path
  {
    BracketMatchRendered(path[0], path[1..]);
    if |path| == 1 {
      RenderIsBrackets(path[0], path[1..]);
      assert path[0] + "" == path[0];
    }
    assert path == [path[0]] + path[1..];
  }

  lemma {:induction false} RenderInjective(a: seq<string>, b: seq<string>)
    requires Clean(a) && Clean(b) && Render(a[0], a[1..]) == Render(b[0], b[1..])
    ensures a == b
  {
    ReadPathRendered(a);
    ReadPathRendered(b);
  }

  lemma {:induction false} SingleEntry(prefix: string, e: Entry, depth: int)
    requires Encode(prefix + "[" + e.key + "]", e.value, depth).Success?
    ensures EncodeEntries(prefix, [e], depth) == Encode(prefix + "[" + e.key + "]", e.value, depth)
    ensures ShapeEntries([e]) == [Child(e.key, Shape(e.value))]
  {
    var head := Encode(prefix + "[" + e.key + "]", e.value, depth).value;
    assert head + [] == head;
    assert EncodeEntries(prefix, [], depth) == Success([]);
  }

  /** An example of a path that is not carried: a bracketed key below a base is sent as two levels. */
  lemma {:induction false} BracketedKeyCollides()
    ensures var flat := Mapping([Entry("b][c", Text("1"))]);
            var nested := Mapping([Entry("b", Mapping([Entry("c", Text("1"))]))]);
            Encode("a", flat, MAX_PARAM_DEPTH) == Encode("a", nested, MAX_PARAM_DEPTH)
            && Image(Shape(flat)) != Image(Shape(nested))
  {
    var c := Entry("c", Text("1"));
    assert "a" + "[" + "b][c" + "]" == "a[b][c]" == "a[b]" + "[" + "c" + "]";
    assert "a" + "[" + "b" + "]" == "a[b]";
    SingleEntry("a[b]", c, 6);
    assert Encode("a[b]", Mapping([c]), 7).Success?;
    SingleEntry("a", Entry("b", Mapping([c])), 7);
    SingleEntry("a", Entry("b][c", Text("1")), 7);
    var flat := [Child("b][c", Atom("1"))];
    var nested := [Child("b", Branch([Child("c", Atom("1"))]))];
    assert ImageOf(flat[1..]) == map[] && ImageOf(nested[1..]) == map[];
    assert "b][c" in ImageOf(flat);
    assert "b][c" !in ImageOf(nested) by {
      assert forall i :: 0 <= i < |nested| ==> nested[i].key != "b][c";
    }
  }
}
