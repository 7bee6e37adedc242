/**
 The parameters of one statistics page (`bitrix/statistic.py`) through the codec: a filter
 that is lost on the wire is a silently unfiltered request, so an accepted filter must be
 decodable, entry by entry.
 */
module StatisticFilter {
  import opened Wrappers
  import opened Texts
  import opened PhpArrays
  import opened PhpRoundTrip
  import opened PhpLeaves

  /** Longest first. */
  const OPERATORS: seq<string> := ["!><", "!%", "!@", "!=", "><", ">=", "<=", "!", ">", "<", "=", "%", "?", "@"]

  const FIELDS: seq<string> := [
    "ID", "CALL_ID", "EXTERNAL_CALL_ID", "CALL_CATEGORY", "PORTAL_USER_ID", "PORTAL_NUMBER", "PHONE_NUMBER",
    "CALL_TYPE", "CALL_DURATION", "CALL_START_DATE", "CALL_LOG", "CALL_RECORD_URL", "CALL_VOTE", "COST",
    "COST_CURRENCY", "CALL_FAILED_CODE", "CALL_FAILED_REASON", "CRM_ENTITY_TYPE", "CRM_ENTITY_ID",
    "CRM_ACTIVITY_ID", "REST_APP_ID", "REST_APP_NAME", "TRANSCRIPT_ID", "TRANSCRIPT_PENDING", "SESSION_ID",
    "REDIAL_ATTEMPT", "COMMENT", "RECORD_DURATION", "RECORD_FILE_ID"
  ]

  const PAGE_SIZE: int := 50

  datatype ParamError =
    | UnknownField(key: string)
    | NullFilter(key: string)
    | EmptyFilter(key: string)
    | BadSort
    | UnsortableCallType
    | BadOrder
    | BadStart

  predicate StartsWith(s: string, prefix: string) {
    |prefix| <= |s| && s[..|prefix|] == prefix
  }

  /** What is left of a filter key once the first operator that fits is cut off. */
  function FieldOf(key: string, operators: seq<string>): string {
    if operators == [] then key
    else if StartsWith(key, operators[0]) then key[|operators[0]|..]
    else FieldOf(key, operators[1..])
  }

  predicate KeyAccepted(key: string) {
    FieldOf(key, OPERATORS) in FIELDS
  }

  /** `_check_filter`: the first entry that would widen the request is refused. */
  function CheckFilter(filter: seq<Entry>): Result<(), ParamError> {
    if filter == [] then Success(())
    else
      var key, value := filter[0].key, filter[0].value;
      if !KeyAccepted(key) then Failure(UnknownField(key))
      else if value.Null? then Failure(NullFilter(key))
      else if value == Listing([]) then Failure(EmptyFilter(key))
      else CheckFilter(filter[1..])
  }

  /** `statistic_params`. */
  function StatisticParams(filter: seq<Entry>, sort: string, order: string, start: int)
    : Result<seq<Entry>, ParamError> {
    var _ :- CheckFilter(filter);
    var sortField, orderValue := Upper(Strip(sort)), Upper(Strip(order));
    if sortField !in FIELDS then Failure(BadSort)
    else if sortField == "CALL_TYPE" then Failure(UnsortableCallType)
    else if orderValue != "ASC" && orderValue != "DESC" then Failure(BadOrder)
    else if start < 0 || start % PAGE_SIZE != 0 then Failure(BadStart)
    else Success(Params(filter, sortField, orderValue, start))
  }

  function Params(filter: seq<Entry>, sort: string, order: string, start: int): seq<Entry> {
    [Entry("FILTER", Mapping(filter)), Entry("SORT", Text(sort)),
     Entry("ORDER", Text(order)), Entry("start", Number(start))]
  }

  predicate EntryAccepted(e: Entry) {
    KeyAccepted(e.key) && !e.value.Null? && e.value != Listing([])
  }

  /** A filter passes exactly when every entry names a field and holds neither null nor an empty list. */
  lemma {:induction false} CheckFilterIff(filter: seq<Entry>)
    ensures CheckFilter(filter).Success? <==> forall i :: 0 <= i < |filter| ==> EntryAccepted(filter[i])
  {
    if filter != [] {
      CheckFilterIff(filter[1..]);
      CheckStep(filter);
      assert forall i :: 0 < i < |filter| ==> filter[i] == filter[1..][i - 1];
    }
  }

  lemma {:induction false} CheckStep(filter: seq<Entry>)
    requires filter != []
    ensures CheckFilter(filter).Success? <==> EntryAccepted(filter[0]) && CheckFilter(filter[1..]).Success?
  {
  }

  /** The same text but for case. */
  predicate SameButCase(a: string, b: string) {
    |a| == |b| && forall i :: 0 <= i < |a| ==> LowerChar(a[i]) == LowerChar(b[i])
  }

  predicate NoLowerCase(s: string) {
    forall i :: 0 <= i < |s| ==> !('a' <= s[i] <= 'z')
  }

  lemma {:induction false} UpperIs(s: string)
    ensures SameButCase(Upper(s), s) && NoLowerCase(Upper(s))
  {
  }

  /** The offset of some page of 50. */
  ghost predicate IsPage(start: int) {
    exists page: nat :: start == 50 * page
  }

  lemma {:induction false} IsPageIff(start: int)
    ensures IsPage(start) <==> start >= 0 && start % PAGE_SIZE == 0
  {
    if start >= 0 && start % 50 == 0 {
      assert start == 50 * (start / 50);
    }
  }

  predicate IsField(s: string) {
    s in FIELDS
  }

  predicate IsOrder(s: string) {
    s == "ASC" || s == "DESC"
  }

  /**
   Which page requests are accepted: a good filter, a documented field other than CALL_TYPE to
   sort by and an order, both in any case and padded, and the offset of a page.
   */
  lemma {:induction false} ParamsAccepted(filter: seq<Entry>, sort: string, order: string, start: int)
    ensures var params := StatisticParams(filter, sort, order, start);
            var s, o := Upper(Strip(sort)), Upper(Strip(order));
            && (params.Success? <==>
                  CheckFilter(filter).Success? && IsField(s) && s != "CALL_TYPE" && IsOrder(o) && IsPage(start))
            && (params.Success? ==> params.value == Params(filter, s, o, start))
  {
    IsPageIff(start);
  }

  // ------------------------------------------------------------------ the key grammar

  predicate FieldChar(c: char) {
    'A' <= c <= 'Z' || c == '_'
  }

  predicate FieldName(s: string) {
    s != "" && forall i :: 0 <= i < |s| ==> FieldChar(s[i])
  }

  predicate OperatorText(s: string) {
    s != "" && forall i :: 0 <= i < |s| ==> !FieldChar(s[i]) && !IsBracket(s[i])
  }

  lemma {:induction false} FieldsAreNames()
    ensures forall f :: f in FIELDS ==> FieldName(f)
  {
    FirstFieldsAreNames();
    LastFieldsAreNames();
  }

  lemma {:induction false} FirstFieldsAreNames()
    ensures forall i :: 0 <= i < 15 ==> FieldName(FIELDS[i])
  {
  }

  lemma {:induction false} LastFieldsAreNames()
    ensures forall i :: 15 <= i < |FIELDS| ==> FieldName(FIELDS[i])
  {
  }

  lemma {:induction false} OperatorsAreText()
    ensures forall op :: op in OPERATORS ==> OperatorText(op)
  {
    forall i | 0 <= i < |OPERATORS| ensures OperatorText(OPERATORS[i]) {
    }
  }

  /** The documented operators. */
  predicate IsOperator(s: string) {
    s in {"!><", "!%", "!@", "!=", "><", ">=", "<=", "!", ">", "<", "=", "%", "?", "@"}
  }

  lemma {:induction false} OperatorsAreThose(s: string)
    ensures IsOperator(s) <==> s in OPERATORS
  {
    if IsOperator(s) {
      assert OPERATORS[0] == "!><" && OPERATORS[1] == "!%" && OPERATORS[2] == "!@" && OPERATORS[3] == "!=";
      assert OPERATORS[4] == "><" && OPERATORS[5] == ">=" && OPERATORS[6] == "<=" && OPERATORS[7] == "!";
      assert OPERATORS[8] == ">" && OPERATORS[9] == "<" && OPERATORS[10] == "=" && OPERATORS[11] == "%";
      assert OPERATORS[12] == "?" && OPERATORS[13] == "@";
    }
  }

  predicate LongestFirst(operators: seq<string>) {
    forall i, j :: 0 <= i < j < |operators| ==> |operators[i]| >= |operators[j]|
  }

  lemma {:induction false} OperatorsAreLongestFirst()
    ensures LongestFirst(OPERATORS)
  {
  }

  /** `key` is an operator, or none, followed by a documented field. */
  ghost predicate Decomposes(key: string, operator: string, field: string) {
    && key == operator + field
    && (operator == "" || IsOperator(operator))
    && field in FIELDS
  }

  /** An operator that fits a key is no longer than the operator the key was built with. */
  lemma {:induction false} FitsWithin(operator: string, field: string, other: string)
    requires (operator == "" || OperatorText(operator)) && FieldName(field) && OperatorText(other)
    requires StartsWith(operator + field, other)
    ensures |other| <= |operator| && StartsWith(operator, other)
  {
    var key := operator + field;
    assert forall k :: 0 <= k < |other| ==> other[k] == key[..|other|][k] == key[k];
    assert FieldChar(key[|operator|]);
    assert |other| <= |operator|;
    assert key[..|other|] == operator[..|other|];
  }

  lemma {:induction false} FirstFitIsIt(operator: string, field: string, operators: seq<string>)
    requires FieldName(field) && (operator == "" || operator in operators)
    requires LongestFirst(operators) && forall op :: op in operators ==> OperatorText(op)
    ensures FieldOf(operator + field, operators) == field
  {
    var key := operator + field;
    assert StartsWith(key, operator);
    if operators != [] {
      var first := operators[0];
      assert first in operators;
      if StartsWith(key, first) {
        FitsWithin(operator, field, first);
        assert |first| >= |operator|;
        assert key[|first|..] == field;
      } else {
        FirstFitIsIt(operator, field, operators[1..]);
      }
    } else {
      assert key == field;
    }
  }

  lemma {:induction false} FieldOfCuts(key: string, operators: seq<string>)
    ensures FieldOf(key, operators) == key || exists op :: op in operators && key == op + FieldOf(key, operators)
  {
    if operators != [] && StartsWith(key, operators[0]) {
      assert key == operators[0] + key[|operators[0]|..];
      assert operators[0] in operators;
    } else if operators != [] {
      FieldOfCuts(key, operators[1..]);
    }
  }

  /** First-match stripping accepts a key exactly when it decomposes. */
  lemma {:induction false} AcceptedIffDecomposes(key: string)
    ensures KeyAccepted(key) <==> exists operator, field :: Decomposes(key, operator, field)
  {
    FieldsAreNames();
    OperatorsAreText();
    OperatorsAreLongestFirst();
    if operator, field :| Decomposes(key, operator, field) {
      OperatorsAreThose(operator);
      FirstFitIsIt(operator, field, OPERATORS);
    }
    if KeyAccepted(key) {
      var field := FieldOf(key, OPERATORS);
      FieldOfCuts(key, OPERATORS);
      if field == key {
        assert "" + field == key && Decomposes(key, "", field);
      } else {
        var op :| op in OPERATORS && key == op + field;
        OperatorsAreThose(op);
        assert Decomposes(key, op, field);
      }
    }
  }

  /** And it decomposes in one way only. */
  lemma {:induction false} DecompositionIsUnique(key: string, op1: string, field1: string, op2: string, field2: string)
    requires Decomposes(key, op1, field1) && Decomposes(key, op2, field2)
    ensures op1 == op2 && field1 == field2
  {
    FieldsAreNames();
    OperatorsAreText();
    OperatorsAreLongestFirst();
    OperatorsAreThose(op1);
    OperatorsAreThose(op2);
    FirstFitIsIt(op1, field1, OPERATORS);
    FirstFitIsIt(op2, field2, OPERATORS);
    assert op1 == key[..|key| - |field1|];
    assert op2 == key[..|key| - |field2|];
  }

  lemma {:induction false} AcceptedIsSegment(key: string)
    requires KeyAccepted(key)
    ensures Segment(key)
  {
    AcceptedIffDecomposes(key);
    var operator, field :| Decomposes(key, operator, field);
    FieldsAreNames();
    OperatorsAreText();
    OperatorsAreThose(operator);
    assert FieldName(field) && (operator == "" || OperatorText(operator));
    assert forall i :: 0 <= i < |field| ==> FieldChar(field[i]);
  }

  // ------------------------------------------------------------------ survival on the wire

  /** Some scalar is left once nulls are dropped. */
  predicate HasLeaf(v: Value)
    decreases v
  {
    match v
    case Null => false
    case Mapping(entries) => exists i :: 0 <= i < |entries| && HasLeaf(entries[i].value)
    case Listing(items) => exists i :: 0 <= i < |items| && HasLeaf(items[i])
    case _ => true
  }

  lemma {:induction false} ImageIffLeaf(v: Value)
    ensures Image(Shape(v)).Some? <==> HasLeaf(v)
    decreases v, 1
  {
    match v
    case Mapping(entries) => ImageOfEntries(entries);
    case Listing(items) => ImageOfItems(items, 0);
    case _ =>
  }

  lemma {:induction false} ImageOfEntries(entries: seq<Entry>)
    ensures ImageOf(ShapeEntries(entries)) != map[] <==> exists i :: 0 <= i < |entries| && HasLeaf(entries[i].value)
    decreases entries, 0
  {
    if entries != [] {
      ImageIffLeaf(entries[0].value);
      ImageOfEntries(entries[1..]);
      assert ShapeEntries(entries)[1..] == ShapeEntries(entries[1..]);
      ImageStep(ShapeEntries(entries));
      SomeInTail(entries);
    }
  }

  lemma {:induction false} ImageStep(cs: seq<Child>)
    requires cs != []
    ensures ImageOf(cs) != map[] <==> Image(cs[0].param).Some? || ImageOf(cs[1..]) != map[]
  {
    if Image(cs[0].param).Some? {
      assert cs[0].key in ImageOf(cs);
    }
  }

  lemma {:induction false} SomeInTail(entries: seq<Entry>)
    requires entries != []
    ensures (exists i :: 0 <= i < |entries| && HasLeaf(entries[i].value))
            <==> HasLeaf(entries[0].value) || exists i :: 0 <= i < |entries[1..]| && HasLeaf(entries[1..][i].value)
  {
    if j :| 0 <= j < |entries[1..]| && HasLeaf(entries[1..][j].value) {
      assert HasLeaf(entries[j + 1].value);
    }
    if i :| 0 < i < |entries| && HasLeaf(entries[i].value) {
      assert HasLeaf(entries[1..][i - 1].value);
    }
  }

  lemma {:induction false} ImageOfItems(items: seq<Value>, index: nat)
    ensures ImageOf(ShapeItems(items, index)) != map[] <==> exists i :: 0 <= i < |items| && HasLeaf(items[i])
    decreases items, 0
  {
    if items != [] {
      ImageIffLeaf(items[0]);
      ImageOfItems(items[1..], index + 1);
      assert ShapeItems(items, index)[1..] == ShapeItems(items[1..], index + 1);
      ImageStep(ShapeItems(items, index));
      if j :| 0 <= j < |items[1..]| && HasLeaf(items[1..][j]) {
        assert HasLeaf(items[j + 1]);
      }
      if i :| 0 < i < |items| && HasLeaf(items[i]) {
        assert HasLeaf(items[1..][i - 1]);
      }
    }
  }

  /** What the decoder finds under the key of one child. */
  lemma {:induction false} ImageAtChild(cs: seq<Child>, k: nat)
    requires KeysDiffer(cs) && k < |cs|
    ensures match Image(cs[k].param)
            case None => cs[k].key !in ImageOf(cs)
            case Some(node) => cs[k].key in ImageOf(cs) && ImageOf(cs)[cs[k].key] == node
    decreases |cs|
  {
    var rest := cs[1..];
    if k > 0 {
      assert cs[k] == rest[k - 1] && cs[0].key != cs[k].key;
      ImageAtChild(rest, k - 1);
    } else {
      assert forall i :: 0 <= i < |rest| ==> rest[i].key == cs[i + 1].key;
    }
  }

  lemma {:induction false} ShapeEntriesAt(entries: seq<Entry>, k: nat)
    requires k < |entries|
    ensures ShapeEntries(entries)[k] == Child(entries[k].key, Shape(entries[k].value))
    decreases |entries|
  {
    assert ShapeEntries(entries)[1..] == ShapeEntries(entries[1..]);
    if k > 0 {
      ShapeEntriesAt(entries[1..], k - 1);
    }
  }

  lemma {:induction false} ShapeItemsAt(items: seq<Value>, index: nat, k: nat)
    requires k < |items|
    ensures ShapeItems(items, index)[k] == Child(Digits(index + k), Shape(items[k]))
    decreases |items|
  {
    assert ShapeItems(items, index)[1..] == ShapeItems(items[1..], index + 1);
    if k > 0 {
      ShapeItemsAt(items[1..], index + 1, k - 1);
    }
  }

  lemma {:induction false} FilterIsProper(filter: seq<Entry>)
    requires CheckFilter(filter).Success? && EntriesDiffer(filter)
    requires forall i :: 0 <= i < |filter| ==> Proper(filter[i].value)
    ensures ProperEntries(filter)
  {
    CheckFilterIff(filter);
    forall i | 0 <= i < |filter| ensures Segment(filter[i].key) {
      assert EntryAccepted(filter[i]);
      AcceptedIsSegment(filter[i].key);
    }
  }

  /** A non-null scalar, or a non-empty list of them. */
  predicate Plain(v: Value) {
    v.Flag? || v.Number? || v.Text? || v.Rendered?
  }

  predicate Kept(v: Value) {
    Plain(v) || (v.Listing? && v.items != [] && forall i :: 0 <= i < |v.items| ==> Plain(v.items[i]))
  }

  function Scalars(sort: string, order: string, start: nat): Tree {
    map["start" := Leaf(Digits(start))]["ORDER" := Leaf(order)]["SORT" := Leaf(sort)]
  }

  /** The four parameters as the decoder's tree. */
  function Received(filter: seq<Entry>, sort: string, order: string, start: nat): Tree {
    var rest := Scalars(sort, order, start);
    var entries := ImageOf(ShapeEntries(filter));
    if entries == map[] then rest else rest["FILTER" := Dict(entries)]
  }

  lemma {:induction false} ImageOfParams(filter: seq<Entry>, sort: string, order: string, start: nat)
    ensures ImageOf(ShapeEntries(Params(filter, sort, order, start))) == Received(filter, sort, order, start)
  {
    var rest := [Entry("SORT", Text(sort)), Entry("ORDER", Text(order)), Entry("start", Number(start))];
    ImageOfScalars(sort, order, start);
    ImageCons(Entry("FILTER", Mapping(filter)), rest);
    assert Params(filter, sort, order, start) == [Entry("FILTER", Mapping(filter))] + rest;
  }

  lemma {:induction false} ImageOfScalars(sort: string, order: string, start: nat)
    ensures ImageOf(ShapeEntries([Entry("SORT", Text(sort)), Entry("ORDER", Text(order)),
                                  Entry("start", Number(start))]))
         == Scalars(sort, order, start)
  {
    var e1, e2, e3 := Entry("SORT", Text(sort)), Entry("ORDER", Text(order)), Entry("start", Number(start));
    ScalarCons(e3, []);
    ScalarCons(e2, [e3]);
    ScalarCons(e1, [e2, e3]);
    assert [e3] + [] == [e3] && [e2] + [e3] == [e2, e3] && [e1] + [e2, e3] == [e1, e2, e3];
    var none: Tree := map[];
    assert ImageOf(ShapeEntries([])) == none;
  }

  lemma {:induction false} ScalarCons(e: Entry, rest: seq<Entry>)
    requires Plain(e.value)
    ensures ImageOf(ShapeEntries([e] + rest)) == ImageOf(ShapeEntries(rest))[e.key := Leaf(Scalar(e.value))]
  {
    ImageCons(e, rest);
  }

  lemma {:induction false} ImageCons(e: Entry, rest: seq<Entry>)
    ensures var tail := ImageOf(ShapeEntries(rest));
            ImageOf(ShapeEntries([e] + rest))
              == match Image(Shape(e.value)) case None => tail case Some(node) => tail[e.key := node]
  {
    assert ([e] + rest)[1..] == rest;
    var cs := ShapeEntries([e] + rest);
    assert cs[0] == Child(e.key, Shape(e.value)) && cs[1..] == ShapeEntries(rest);
  }

  lemma {:induction false} ParamsAreProper(filter: seq<Entry>, sort: string, order: string, start: int)
    requires ProperEntries(filter)
    ensures ProperEntries(Params(filter, sort, order, start))
  {
    assert Segment("FILTER") && Segment("SORT") && Segment("ORDER") && Segment("start");
    assert Proper(Mapping(filter));
  }

  /** The decoder found something under this filter key. */
  predicate InFilter(tree: Tree, key: string) {
    "FILTER" in tree && tree["FILTER"].Dict? && key in tree["FILTER"].items
  }

  predicate HasKey(filter: seq<Entry>, key: string) {
    exists i :: 0 <= i < |filter| && filter[i].key == key
  }

  lemma {:induction false} ParamsAreDistinct(filter: seq<Entry>, sort: string, order: string, start: int)
    requires DistinctEntries(filter)
    ensures DistinctEntries(Params(filter, sort, order, start))
  {
    var params := Params(filter, sort, order, start);
    assert DistinctKeys(Mapping(filter));
    assert EntriesDiffer(params) by {
      assert |"FILTER"| == 6 && |"SORT"| == 4 && |"ORDER"| == 5 && |"start"| == 5 && "ORDER"[0] == 'O';
    }
  }

  /**
   What becomes of whatever `statistic_params` accepts and the encoder sends. The intended
   tree is the sort, the order, the offset, and under FILTER exactly the entries that hold a
   scalar: an entry is missing from it if and only if every leaf of its value is null. The
   decoder finds that tree if and only if the wire carries every leaf.
   */
  lemma {:induction false} FilterSurvives(filter: seq<Entry>, sort: string, order: string, start: int)
    requires DistinctEntries(filter)
    ensures var params := StatisticParams(filter, sort, order, start);
            params.Success? && QueryPairs(params.value).Success? ==>
              var tree := Received(filter, Upper(Strip(sort)), Upper(Strip(order)), start);
              && ((Expand(map[], QueryPairs(params.value).value) == Success(tree)) <==> AllLeavesCarried(params.value))
              && (forall i :: 0 <= i < |filter| ==> (InFilter(tree, filter[i].key) <==> HasLeaf(filter[i].value)))
              && (forall key :: InFilter(tree, key) ==> HasKey(filter, key))
  {
    var params := StatisticParams(filter, sort, order, start);
    if params.Success? && QueryPairs(params.value).Success? {
      ParamsSurvive(filter, Upper(Strip(sort)), Upper(Strip(order)), start);
      ReceivedFilter(filter, Upper(Strip(sort)), Upper(Strip(order)), start);
      FilterEntries(filter);
    }
  }

  lemma {:induction false} ParamsSurvive(filter: seq<Entry>, sort: string, order: string, start: nat)
    requires DistinctEntries(filter) && QueryPairs(Params(filter, sort, order, start)).Success?
    ensures var params := Params(filter, sort, order, start);
            (Expand(map[], QueryPairs(params).value) == Success(Received(filter, sort, order, start)))
            <==> AllLeavesCarried(params)
  {
    ParamsAreDistinct(filter, sort, order, start);
    RoundTripIffCarried(Params(filter, sort, order, start));
    ImageOfParams(filter, sort, order, start);
  }

  lemma {:induction false} ReceivedFilter(filter: seq<Entry>, sort: string, order: string, start: nat)
    ensures forall key :: InFilter(Received(filter, sort, order, start), key) <==> key in ImageOf(ShapeEntries(filter))
  {
  }

  /** The decoded filter, key by key. */
  lemma {:induction false} FilterEntries(filter: seq<Entry>)
    requires EntriesDiffer(filter)
    ensures var entries := ImageOf(ShapeEntries(filter));
            && (forall i :: 0 <= i < |filter| ==> (filter[i].key in entries <==> HasLeaf(filter[i].value)))
            && (forall key :: key in entries ==> HasKey(filter, key))
  {
    var entries := ImageOf(ShapeEntries(filter));
    forall i | 0 <= i < |filter| ensures filter[i].key in entries <==> HasLeaf(filter[i].value) {
      ShapeEntriesAt(filter, i);
      ImageAtChild(ShapeEntries(filter), i);
      ImageIffLeaf(filter[i].value);
    }
    forall key | key in entries ensures HasKey(filter, key) {
      var i :| 0 <= i < |ShapeEntries(filter)| && ShapeEntries(filter)[i].key == key;
      assert filter[i].key == key;
    }
  }

  // ------------------------------------------------------------------ scalars and lists of scalars

  /** The decoded list: its texts under 0, 1, 2, ... and nothing else. */
  ghost predicate ReadsList(items: map<string, Node>, values: seq<Value>) {
    && (forall i :: 0 <= i < |values| ==> HasIndex(items, values, i))
    && (forall key :: key in items ==> IndexIn(key, |values|))
  }

  ghost predicate HasIndex(items: map<string, Node>, values: seq<Value>, i: nat)
    requires i < |values|
  {
    exists key :: KeyReads(key, Index(i)) && ReadsScalar(items, key, values[i])
  }

  predicate IndexIn(key: string, n: nat) {
    AllDigits(key) && Decimal(key) < n
  }

  predicate ReadsScalar(items: map<string, Node>, key: string, v: Value) {
    Plain(v) && key in items && items[key].Leaf? && Means(items[key].text, v)
  }

  /** What an accepted value of the usual kinds decodes to. */
  ghost predicate Reads(node: Node, v: Value) {
    if v.Listing? then node.Dict? && ReadsList(node.items, v.items)
    else Plain(v) && node.Leaf? && Means(node.text, v)
  }

  lemma {:induction false} ListReads(values: seq<Value>)
    requires forall i :: 0 <= i < |values| ==> Plain(values[i])
    ensures ReadsList(ImageOf(ShapeItems(values, 0)), values)
  {
    var cs := ShapeItems(values, 0);
    var items := ImageOf(cs);
    IndexKeysDiffer(values);
    forall i | 0 <= i < |values| ensures HasIndex(items, values, i) {
      ShapeItemsAt(values, 0, i);
      ImageAtChild(cs, i);
      ScalarMeans(values[i]);
      DigitsRead(i);
      assert KeyReads(Digits(i), Index(i)) && ReadsScalar(items, Digits(i), values[i]);
    }
    forall key | key in items ensures IndexIn(key, |values|) {
      var i :| 0 <= i < |cs| && cs[i].key == key;
      assert Digits(0 + i) == key;
      DigitsRead(i);
    }
  }

  lemma {:induction false} KeptReads(v: Value)
    requires Kept(v)
    ensures HasLeaf(v) && Image(Shape(v)).Some? && Reads(Image(Shape(v)).value, v)
  {
    if v.Listing? {
      assert HasLeaf(v.items[0]);
      ListReads(v.items);
    } else {
      ScalarMeans(v);
    }
    ImageIffLeaf(v);
  }

  /** Filters of these kinds are never refused by the encoder. */
  lemma {:induction false} KeptItemsEncode(prefix: string, items: seq<Value>, index: nat, depth: int)
    requires depth > 0 && forall i :: 0 <= i < |items| ==> Plain(items[i])
    ensures EncodeItems(prefix, items, index, depth).Success?
    decreases |items|
  {
    if items != [] {
      KeptItemsEncode(prefix, items[1..], index + 1, depth);
    }
  }

  lemma {:induction false} KeptEntriesEncode(prefix: string, entries: seq<Entry>, depth: int)
    requires depth > 1 && forall i :: 0 <= i < |entries| ==> Kept(entries[i].value)
    ensures EncodeEntries(prefix, entries, depth).Success?
    decreases |entries|
  {
    if entries != [] {
      var v := entries[0].value;
      if v.Listing? {
        KeptItemsEncode(prefix + "[" + entries[0].key + "]", v.items, 0, depth - 1);
      }
      KeptEntriesEncode(prefix, entries[1..], depth);
    }
  }

  lemma {:induction false} KeptParamsEncode(filter: seq<Entry>, sort: string, order: string, start: int)
    requires forall i :: 0 <= i < |filter| ==> Kept(filter[i].value)
    ensures QueryPairs(Params(filter, sort, order, start)).Success?
  {
    KeptEntriesEncode("FILTER", filter, MAX_PARAM_DEPTH - 1);
    var e1, e2, e3 := Entry("SORT", Text(sort)), Entry("ORDER", Text(order)), Entry("start", Number(start));
    assert [e3][1..] == [] && [e2, e3][1..] == [e3] && [e1, e2, e3][1..] == [e2, e3];
    assert QueryPairs([e3]).Success? && QueryPairs([e2, e3]).Success? && QueryPairs([e1, e2, e3]).Success?;
    var params := Params(filter, sort, order, start);
    assert params[1..] == [e1, e2, e3] && params[0] == Entry("FILTER", Mapping(filter));
  }

  /** No accepted entry of these kinds is lost: the decoded FILTER is exactly the filter. */
  lemma {:induction false} FilterRoundTrip(filter: seq<Entry>, sort: string, order: string, start: int)
    requires StatisticParams(filter, sort, order, start).Success? && EntriesDiffer(filter)
    requires forall i :: 0 <= i < |filter| ==> Kept(filter[i].value)
    ensures var encoded := QueryPairs(StatisticParams(filter, sort, order, start).value);
            && encoded.Success? && Expand(map[], encoded.value).Success?
            && FilterReads(Expand(map[], encoded.value).value, filter)
            && PageReads(Expand(map[], encoded.value).value, Upper(Strip(sort)), Upper(Strip(order)), start)
  {
    KeptParamsEncode(filter, Upper(Strip(sort)), Upper(Strip(order)), start);
    KeptIsCarried(filter, Upper(Strip(sort)), Upper(Strip(order)), start);
    FilterSurvives(filter, sort, order, start);
    var tree := Received(filter, Upper(Strip(sort)), Upper(Strip(order)), start);
    ReceivedPage(filter, Upper(Strip(sort)), Upper(Strip(order)), start);
    forall i | 0 <= i < |filter|
      ensures InFilter(tree, filter[i].key) && Reads(tree["FILTER"].items[filter[i].key], filter[i].value)
    {
      KeptReads(filter[i].value);
      ShapeEntriesAt(filter, i);
      ImageAtChild(ShapeEntries(filter), i);
    }
  }

  lemma {:induction false} KeptIsCarried(filter: seq<Entry>, sort: string, order: string, start: int)
    requires CheckFilter(filter).Success? && EntriesDiffer(filter)
    requires forall i :: 0 <= i < |filter| ==> Kept(filter[i].value)
    ensures DistinctEntries(filter) && AllLeavesCarried(Params(filter, sort, order, start))
  {
    forall i | 0 <= i < |filter| ensures Proper(filter[i].value) {
      if filter[i].value.Listing? {
        assert forall k :: 0 <= k < |filter[i].value.items| ==> Plain(filter[i].value.items[k]);
      }
    }
    FilterIsProper(filter);
    ProperEntriesDistinct(filter);
    ParamsAreProper(filter, sort, order, start);
    ProperIsCarried(Params(filter, sort, order, start));
  }

  /** The sort, the order and the offset read back. */
  predicate PageReads(tree: Tree, sort: string, order: string, start: int) {
    && "SORT" in tree && tree["SORT"] == Leaf(sort) && "ORDER" in tree && tree["ORDER"] == Leaf(order)
    && "start" in tree && tree["start"].Leaf? && ReadNumber(tree["start"].text) == Some(start)
  }

  lemma {:induction false} ReceivedPage(filter: seq<Entry>, sort: string, order: string, start: nat)
    ensures PageReads(Received(filter, sort, order, start), sort, order, start)
  {
    DigitsRead(start);
  }

  ghost predicate FilterReads(tree: Tree, filter: seq<Entry>) {
    && (forall i :: 0 <= i < |filter| ==>
          InFilter(tree, filter[i].key) && Reads(tree["FILTER"].items[filter[i].key], filter[i].value))
    && (forall key :: InFilter(tree, key) ==> HasKey(filter, key))
  }

  /** The list of one null is accepted and lost: the request goes out unfiltered. */
  lemma {:induction false} AcceptedYetLost()
    ensures CheckFilter([Entry("ID", Listing([Null]))]).Success?
    ensures !HasLeaf(Listing([Null]))
    ensures "FILTER" !in Received([Entry("ID", Listing([Null]))], "ID", "ASC", 0)
  {
    var filter := [Entry("ID", Listing([Null]))];
    IdIsAccepted();
    assert |[Null]| == 1;
    assert filter[1..] == [];
    assert !HasLeaf([Null][0]);
    ImageOfEntries(filter);
  }

  lemma {:induction false} IdIsAccepted()
    ensures KeyAccepted("ID")
  {
    assert "" + "ID" == "ID" && FIELDS[0] == "ID";
    assert Decomposes("ID", "", "ID");
    AcceptedIffDecomposes("ID");
  }
}
