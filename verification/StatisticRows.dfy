/**
 The row parser of `bitrix/statistic.py`. Reading a number, a date or a URL out of text is a
 parameter; what is kept, what is dropped, what is reported and in which bounds is not.
 */
module StatisticRows {
  import opened Wrappers
  import opened Seqs
  import opened Texts
  import opened PhpArrays

  /** One JSON value; `Box` is any container, `Wordy` any other object by its string form. */
  datatype Raw =
    | Missing
    | Bool(b: bool)
    | Whole(n: int)
    | Fractional(integral: Option<int>, nonZero: bool, text: string)
    | Words(text: string)
    | Box
    | Wordy(text: string)

  datatype DateRead = Unparsable | Naive | At(moment: int)

  datatype Url = Url(scheme: string, netloc: string, path: string, query: string, fragment: string)

  /** The library calls the parser makes, and the clock. */
  datatype Readers = Readers(
    wholeOf: string -> Option<int>,
    amountOf: string -> Option<real>,
    dateOf: string -> DateRead,
    splitUrl: string -> Option<Url>,
    joinUrl: Url -> string,
    earliest: int,
    latest: int)

  datatype Record = NotARecord | Record(fields: map<string, Raw>)

  const DEGRADED: string := "degraded:"

  const INT16: int := 0x8000
  const INT32: int := 0x8000_0000
  const INT64: int := 0x8000_0000_0000_0000

  // ------------------------------------------------------------------ primitives

  function Field(fields: map<string, Raw>, name: string): Raw {
    if name in fields then fields[name]
    else if Lower(name) in fields then fields[Lower(name)]
    else Missing
  }

  predicate Present(v: Raw) {
    !v.Missing? && (v.Words? ==> Strip(v.text) != "")
  }

  /** `_text`. */
  function TextOf(v: Raw): Option<string> {
    match v
    case Whole(n) => Some(Scalar(Number(n)))
    case Fractional(_, _, text) => Some(text)
    case Wordy(text) => Some(text)
    case Words(text) => if Strip(text) == "" then None else Some(Strip(text))
    case _ => None
  }

  /** `_clip`: the text cut to a width, and whether it was cut. */
  function Clip(text: Option<string>, width: nat): (Option<string>, bool) {
    if text.None? || |text.value| <= width then (text, false) else (Some(text.value[..width]), true)
  }

  /** `_to_int`. */
  function ToInt(r: Readers, v: Raw): Option<int> {
    match v
    case Whole(n) => Some(n)
    case Fractional(integral, _, _) => integral
    case Words(text) => if Strip(text) == "" then None else r.wholeOf(Strip(text))
    case _ => None
  }

  /** `_number`: the value when it fits, and whether something was sent that does not. */
  function NumberOf(r: Readers, v: Raw, low: int, high: int): (Option<int>, bool) {
    var parsed := ToInt(r, v);
    if parsed.None? || !(low <= parsed.value <= high) then (None, Present(v)) else (parsed, false)
  }

  /** `ROUND_HALF_EVEN` to a whole number. */
  function HalfEven(x: real): int {
    var below := x.Floor;
    var rest := x - below as real;
    if rest < 0.5 then below
    else if rest > 0.5 then below + 1
    else if below % 2 == 0 then below
    else below + 1
  }

  const COST_LIMIT: real := 100_000_000.0

  predicate CostInRange(x: real) {
    -COST_LIMIT < x < COST_LIMIT
  }

  /** `quantize(0.0001)`. */
  function Quantized(x: real): real {
    HalfEven(x * 10_000.0) as real / 10_000.0
  }

  function StringForm(v: Raw): Option<string> {
    match v
    case Whole(n) => Some(Scalar(Number(n)))
    case Fractional(_, _, text) => Some(Strip(text))
    case Wordy(text) => Some(Strip(text))
    case Words(text) => Some(Strip(text))
    case _ => None
  }

  /** `_cost`. */
  function CostOf(r: Readers, v: Raw): (Option<real>, bool) {
    if !Present(v) then (None, false)
    else
      match StringForm(v)
      case None => (None, true)
      case Some(text) =>
        match r.amountOf(text)
        case None => (None, true)
        case Some(x) => if CostInRange(x) then (Some(Quantized(x)), false) else (None, true)
  }

  /** `_yes_no`. */
  function YesNo(v: Raw): (Option<bool>, bool) {
    if !Present(v) then (None, false)
    else
      match v
      case Bool(b) => (Some(b), false)
      case Whole(n) => (Some(n != 0), false)
      case Fractional(_, nonZero, _) => (Some(nonZero), false)
      case _ =>
        match StringForm(v)
        case None => (None, true)
        case Some(text) =>
          var token := Lower(text);
          if token in ["y", "yes", "true", "1"] then (Some(true), false)
          else if token in ["n", "no", "false", "0"] then (Some(false), false)
          else (None, true)
  }

  /** `_start_date`. */
  function StartDate(r: Readers, v: Raw): Result<int, string> {
    if !Present(v) || !v.Words? then Failure("start_date_missing")
    else
      match r.dateOf(Strip(v.text))
      case Unparsable => Failure("start_date_unparsable")
      case Naive => Failure("start_date_naive")
      case At(moment) =>
        if r.earliest <= moment <= r.latest then Success(moment) else Failure("start_date_out_of_range")
  }

  // ------------------------------------------------------------------ the record URL

  const CREDENTIALS: seq<string> := [
    "auth", "auth_id", "access_token", "token", "refresh_token", "sig", "signature", "sessid", "application_token"
  ]

  /** The name of one query piece: up to the first `=`, trimmed and in lower case. */
  function NameOf(piece: string): string {
    Lower(Strip(piece[..Find(piece, '=')]))
  }

  predicate Harmless(piece: string) {
    piece != "" && NameOf(piece) !in CREDENTIALS
  }

  function Filtered(pieces: seq<string>): (kept: seq<string>) {
    if pieces == [] then []
    else (if Harmless(pieces[0]) then [pieces[0]] else []) + Filtered(pieces[1..])
  }

  /** The query with its credentials removed and every other byte kept. */
  function Scrub(query: string): string {
    var kept := Filtered(Split(query, '&'));
    if kept == [] then "" else Texts.Join(kept, '&')
  }

  /** `rsplit("@", 1)[1]`. */
  function AfterLastAt(netloc: string): (host: string)
    ensures '@' !in host
    decreases |netloc|
  {
    if '@' !in netloc then netloc
    else
      var i := Find(netloc, '@');
      AfterLastAt(netloc[i + 1..])
  }

  /** `_record_url`. */
  function RecordUrl(r: Readers, v: Raw): Option<string> {
    match TextOf(v)
    case None => None
    case Some(text) =>
      match r.splitUrl(text)
      case None => None
      case Some(url) =>
        var cleaned := r.joinUrl(url.(netloc := AfterLastAt(url.netloc), query := Scrub(url.query)));
        if cleaned == "" then None else Some(cleaned)
  }

  // ------------------------------------------------------------------ the columns

  /** `COLUMNS`. */
  datatype Column =
    | BxId | CallId | ExternalCallId | CallCategory | CallType
    | CallStartDate | CallDuration | CallFailedCode | CallFailedReason | PortalUserId
    | PortalNumber | PhoneNumber | CrmEntityType | CrmEntityId | CrmActivityId
    | Cost | CostCurrency | CallVote | CallRecordUrl | RecordFileId
    | RecordDuration | RestAppId | RestAppName | TranscriptId | TranscriptPending
    | SessionId | RedialAttempt | Comment | CallLog

  function NameOfColumn(c: Column): string {
    match c
    case BxId => "bx_id"
    case CallId => "call_id"
    case ExternalCallId => "external_call_id"
    case CallCategory => "call_category"
    case CallType => "call_type"
    case CallStartDate => "call_start_date"
    case CallDuration => "call_duration"
    case CallFailedCode => "call_failed_code"
    case CallFailedReason => "call_failed_reason"
    case PortalUserId => "portal_user_id"
    case PortalNumber => "portal_number"
    case PhoneNumber => "phone_number"
    case CrmEntityType => "crm_entity_type"
    case CrmEntityId => "crm_entity_id"
    case CrmActivityId => "crm_activity_id"
    case Cost => "cost"
    case CostCurrency => "cost_currency"
    case CallVote => "call_vote"
    case CallRecordUrl => "call_record_url"
    case RecordFileId => "record_file_id"
    case RecordDuration => "record_duration"
    case RestAppId => "rest_app_id"
    case RestAppName => "rest_app_name"
    case TranscriptId => "transcript_id"
    case TranscriptPending => "transcript_pending"
    case SessionId => "session_id"
    case RedialAttempt => "redial_attempt"
    case Comment => "comment"
    case CallLog => "call_log"
  }

  /** The field each column is read from. */
  function FieldOf(c: Column): string {
    match c
    case BxId => "ID"
    case CallId => "CALL_ID"
    case ExternalCallId => "EXTERNAL_CALL_ID"
    case CallCategory => "CALL_CATEGORY"
    case CallType => "CALL_TYPE"
    case CallStartDate => "CALL_START_DATE"
    case CallDuration => "CALL_DURATION"
    case CallFailedCode => "CALL_FAILED_CODE"
    case CallFailedReason => "CALL_FAILED_REASON"
    case PortalUserId => "PORTAL_USER_ID"
    case PortalNumber => "PORTAL_NUMBER"
    case PhoneNumber => "PHONE_NUMBER"
    case CrmEntityType => "CRM_ENTITY_TYPE"
    case CrmEntityId => "CRM_ENTITY_ID"
    case CrmActivityId => "CRM_ACTIVITY_ID"
    case Cost => "COST"
    case CostCurrency => "COST_CURRENCY"
    case CallVote => "CALL_VOTE"
    case CallRecordUrl => "CALL_RECORD_URL"
    case RecordFileId => "RECORD_FILE_ID"
    case RecordDuration => "RECORD_DURATION"
    case RestAppId => "REST_APP_ID"
    case RestAppName => "REST_APP_NAME"
    case TranscriptId => "TRANSCRIPT_ID"
    case TranscriptPending => "TRANSCRIPT_PENDING"
    case SessionId => "SESSION_ID"
    case RedialAttempt => "REDIAL_ATTEMPT"
    case Comment => "COMMENT"
    case CallLog => "CALL_LOG"
  }

  /** What a column holds; `Own` ones have a reader of their own. */
  datatype Kind =
    | Own
    | Textual(width: Option<nat>)
    | Integral(low: int, high: int)

  function KindOf(c: Column): Kind {
    match c
    case CallId | ExternalCallId => Textual(Some(255))
    case CallFailedCode | CrmEntityType => Textual(Some(32))
    case CostCurrency => Textual(Some(8))
    case CallCategory => Textual(Some(64))
    case PortalNumber | PhoneNumber => Textual(Some(128))
    case RestAppName => Textual(Some(255))
    case CallFailedReason | Comment | CallLog => Textual(None)
    case CallType | CallVote | RedialAttempt => Integral(-INT16, INT16 - 1)
    case CallDuration | PortalUserId => Integral(0, INT32 - 1)
    case CrmEntityId | RecordDuration | RestAppId => Integral(-INT32, INT32 - 1)
    case CrmActivityId | RecordFileId | TranscriptId | SessionId => Integral(-INT64, INT64 - 1)
    case BxId | CallStartDate | Cost | TranscriptPending | CallRecordUrl => Own
  }

  /** The order in which what was cut and what was dropped is reported. */
  const CUT_ORDER: seq<Column> := [CallId, ExternalCallId, CallFailedCode, CrmEntityType, CostCurrency]

  const DROP_ORDER: seq<Column> := [
    CallType, CallDuration, PortalUserId, CrmEntityId, CrmActivityId, CallVote, RecordFileId, RecordDuration,
    RestAppId, TranscriptId, SessionId, RedialAttempt
  ]

  /** One upsert-ready row. */
  datatype Row = Row(
    bxId: int,
    startDate: int,
    texts: map<Column, Option<string>>,
    ints: map<Column, Option<int>>,
    cost: Option<real>,
    pending: Option<bool>,
    recordUrl: Option<string>)

  function FieldAt(fields: map<string, Raw>, c: Column): Raw {
    Field(fields, FieldOf(c))
  }

  function TextCell(fields: map<string, Raw>, c: Column): (Option<string>, bool)
    requires KindOf(c).Textual?
  {
    var text := TextOf(FieldAt(fields, c));
    if KindOf(c).width.None? then (text, false) else Clip(text, KindOf(c).width.value)
  }

  /** An unreadable duration is 0, any other unreadable number is absent. */
  function IntCell(r: Readers, fields: map<string, Raw>, c: Column): (Option<int>, bool)
    requires KindOf(c).Integral?
  {
    var (n, bad) := NumberOf(r, FieldAt(fields, c), KindOf(c).low, KindOf(c).high);
    (if n.None? && c == CallDuration then Some(0) else n, bad)
  }

  predicate IsDegraded(reason: string) {
    |DEGRADED| <= |reason| && reason[..|DEGRADED|] == DEGRADED
  }

  predicate AllDegraded(reasons: seq<string>) {
    forall i :: 0 <= i < |reasons| ==> IsDegraded(reasons[i])
  }

  /** A report that did not cost the row. */
  function ReasonIf(bad: bool, what: string): (reasons: seq<string>)
    ensures AllDegraded(reasons)
  {
    assert (DEGRADED + what)[..|DEGRADED|] == DEGRADED;
    if bad then [DEGRADED + what] else []
  }

  function CutReasons(fields: map<string, Raw>, columns: seq<Column>): (reasons: seq<string>)
    requires forall c :: c in columns ==> KindOf(c).Textual?
    ensures AllDegraded(reasons)
  {
    if columns == [] then []
    else ReasonIf(TextCell(fields, columns[0]).1, NameOfColumn(columns[0]) + "_truncated")
         + CutReasons(fields, columns[1..])
  }

  function DropReasons(r: Readers, fields: map<string, Raw>, columns: seq<Column>): (reasons: seq<string>)
    requires forall c :: c in columns ==> KindOf(c).Integral?
    ensures AllDegraded(reasons)
  {
    if columns == [] then []
    else ReasonIf(IntCell(r, fields, columns[0]).1, NameOfColumn(columns[0]) + "_dropped")
         + DropReasons(r, fields, columns[1..])
  }

  /** What the kept row reports: each identity cut, each number dropped, the cost, the flag. */
  function ReasonsFor(r: Readers, fields: map<string, Raw>, cuts: seq<Column>, drops: seq<Column>):
      (reasons: seq<string>)
    requires forall c :: c in cuts ==> KindOf(c).Textual?
    requires forall c :: c in drops ==> KindOf(c).Integral?
    ensures AllDegraded(reasons)
  {
    CutReasons(fields, cuts) + DropReasons(r, fields, drops)
    + ReasonIf(CostOf(r, FieldAt(fields, Cost)).1, "cost_dropped")
    + ReasonIf(YesNo(FieldAt(fields, TranscriptPending)).1, "transcript_pending_dropped")
  }

  function ReasonsOf(r: Readers, fields: map<string, Raw>): (reasons: seq<string>)
    ensures AllDegraded(reasons)
  {
    ReasonsFor(r, fields, CUT_ORDER, DROP_ORDER)
  }

  function TextCells(fields: map<string, Raw>): map<Column, Option<string>> {
    map c: Column | KindOf(c).Textual? :: TextCell(fields, c).0
  }

  function IntCells(r: Readers, fields: map<string, Raw>): map<Column, Option<int>> {
    map c: Column | KindOf(c).Integral? :: IntCell(r, fields, c).0
  }

  function RowOf(r: Readers, id: int, moment: int, fields: map<string, Raw>): Row {
    Row(id, moment,
        TextCells(fields),
        IntCells(r, fields),
        CostOf(r, FieldAt(fields, Cost)).0,
        YesNo(FieldAt(fields, TranscriptPending)).0,
        RecordUrl(r, FieldAt(fields, CallRecordUrl)))
  }

  datatype Parsed = Parsed(row: Option<Row>, bxId: Option<int>, reasons: seq<string>)

  /** `_parse_row`. */
  function ParseRow(r: Readers, record: Record): Parsed {
    match record
    case NotARecord => Parsed(None, None, ["not_a_record"])
    case Record(fields) =>
      var id := ToInt(r, FieldAt(fields, BxId));
      if id.None? then Parsed(None, None, ["missing_id"])
      else if !(1 <= id.value <= INT64 - 1) then Parsed(None, None, ["id_out_of_range"])
      else
        match StartDate(r, FieldAt(fields, CallStartDate))
        case Failure(reason) => Parsed(None, id, [reason])
        case Success(moment) => Parsed(Some(RowOf(r, id.value, moment, fields)), id, ReasonsOf(r, fields))
  }

  // ------------------------------------------------------------------ a page

  type Report = (Option<int>, string)

  function Tagged(id: Option<int>, reasons: seq<string>): (report: seq<Report>)
    ensures |report| == |reasons|
    ensures forall i :: 0 <= i < |reasons| ==> report[i] == (id, reasons[i])
  {
    seq(|reasons|, i requires 0 <= i < |reasons| => (id, reasons[i]))
  }

  function ParseAll(r: Readers, raw: seq<Record>): (parsed: seq<Parsed>)
    ensures |parsed| == |raw|
  {
    seq(|raw|, i requires 0 <= i < |raw| => ParseRow(r, raw[i]))
  }

  function KeptOf(p: Parsed): seq<Row> {
    if p.row.Some? then [p.row.value] else []
  }

  function KeptEach(parsed: seq<Parsed>): seq<seq<Row>> {
    seq(|parsed|, i requires 0 <= i < |parsed| => KeptOf(parsed[i]))
  }

  function ReportEach(parsed: seq<Parsed>): seq<seq<Report>> {
    seq(|parsed|, i requires 0 <= i < |parsed| => Tagged(parsed[i].bxId, parsed[i].reasons))
  }

  /** The rows kept, in the order they came. */
  function RowsIn(parsed: seq<Parsed>): seq<Row> {
    Flat(KeptEach(parsed))
  }

  /** Every reason, under the id of its record. */
  function RejectedIn(parsed: seq<Parsed>): seq<Report> {
    Flat(ReportEach(parsed))
  }

  /** `parse_rows`. */
  method ParseRows(r: Readers, raw: seq<Record>) returns (rows: seq<Row>, rejected: seq<Report>)
    ensures rows == RowsIn(ParseAll(r, raw)) && rejected == RejectedIn(ParseAll(r, raw))
    ensures |raw| == |rows| + |Dropped(rejected)|
    ensures forall row :: row in rows ==> InBounds(row)
    ensures UrlsRoundTrip(r) ==> forall row :: row in rows ==> UrlIsClean(r, row.recordUrl)
  {
    rows, rejected := [], [];
    ghost var all := ParseAll(r, raw);
    for i := 0 to |raw|
      invariant rows == RowsIn(all[..i])
      invariant rejected == RejectedIn(all[..i])
    {
      var parsed := ParseRow(r, raw[i]);
      assert all[i] == parsed;
      InNext(all, i);
      if parsed.row.Some? {
        rows := rows + [parsed.row.value];
      }
      rejected := rejected + Tagged(parsed.bxId, parsed.reasons);
    }
    assert all[..|raw|] == all;
    Conservation(r, raw);
    EveryRowInBounds(r, raw);
    if UrlsRoundTrip(r) {
      EveryUrlIsClean(r, raw);
    }
  }

  lemma {:induction false} InOne(p: Parsed)
    ensures RowsIn([p]) == KeptOf(p)
    ensures RejectedIn([p]) == Tagged(p.bxId, p.reasons)
  {
    assert KeptEach([p]) == [KeptOf(p)] + [] && ReportEach([p]) == [Tagged(p.bxId, p.reasons)] + [];
    FlatStep(KeptOf(p), []);
    FlatStep(Tagged(p.bxId, p.reasons), []);
  }

  lemma {:induction false} InNext(all: seq<Parsed>, i: nat)
    requires i < |all|
    ensures RowsIn(all[..i + 1]) == RowsIn(all[..i]) + KeptOf(all[i])
    ensures RejectedIn(all[..i + 1]) == RejectedIn(all[..i]) + Tagged(all[i].bxId, all[i].reasons)
  {
    assert all[..i + 1] == all[..i] + [all[i]];
    InConcat(all[..i], [all[i]]);
    InOne(all[i]);
  }

  lemma {:induction false} InConcat(a: seq<Parsed>, b: seq<Parsed>)
    ensures RowsIn(a + b) == RowsIn(a) + RowsIn(b)
    ensures RejectedIn(a + b) == RejectedIn(a) + RejectedIn(b)
  {
    assert KeptEach(a + b) == KeptEach(a) + KeptEach(b);
    assert ReportEach(a + b) == ReportEach(a) + ReportEach(b);
    FlatConcat(KeptEach(a), KeptEach(b));
    FlatConcat(ReportEach(a), ReportEach(b));
  }

  // ------------------------------------------------------------------ conservation

  /** The entries that cost a row. */
  function Dropped(report: seq<Report>): seq<Report> {
    if report == [] then [] else (if IsDegraded(report[0].1) then [] else [report[0]]) + Dropped(report[1..])
  }

  lemma {:induction false} DroppedConcat(a: seq<Report>, b: seq<Report>)
    ensures Dropped(a + b) == Dropped(a) + Dropped(b)
  {
    if a == [] {
      assert a + b == b;
    } else {
      assert (a + b)[1..] == a[1..] + b;
      DroppedConcat(a[1..], b);
    }
  }

  lemma {:induction false} StartDateReason(r: Readers, v: Raw)
    ensures StartDate(r, v).Failure? ==> !IsDegraded(StartDate(r, v).error)
  {
    var read := StartDate(r, v);
    if read.Failure? {
      assert read.error[0] == 's';
      FirstLetter(read.error);
    }
  }

  predicate KeptOrDropped(p: Parsed) {
    if p.row.Some? then AllDegraded(p.reasons) else |p.reasons| == 1 && !IsDegraded(p.reasons[0])
  }

  /** A record is kept and every reason says how, or it is dropped for exactly one reason. */
  lemma {:induction false} ParseKeepsOrDrops(r: Readers, record: Record)
    ensures KeptOrDropped(ParseRow(r, record))
  {
    PlainReasons();
    if record.Record? {
      StartDateReason(r, FieldAt(record.fields, CallStartDate));
    }
  }

  lemma {:induction false} PlainReasons()
    ensures !IsDegraded("not_a_record") && !IsDegraded("missing_id") && !IsDegraded("id_out_of_range")
  {
    FirstLetter("not_a_record");
    FirstLetter("missing_id");
    FirstLetter("id_out_of_range");
  }

  lemma {:induction false} FirstLetter(reason: string)
    requires reason != ""
    ensures IsDegraded(reason) ==> reason[0] == 'd'
  {
    if IsDegraded(reason) {
      assert reason[..|DEGRADED|][0] == reason[0];
    }
  }

  lemma {:induction false} TaggedDropped(id: Option<int>, reasons: seq<string>)
    ensures AllDegraded(reasons) ==> Dropped(Tagged(id, reasons)) == []
    ensures |reasons| == 1 && !IsDegraded(reasons[0]) ==> |Dropped(Tagged(id, reasons))| == 1
  {
    if reasons != [] {
      assert Tagged(id, reasons)[1..] == Tagged(id, reasons[1..]);
      TaggedDropped(id, reasons[1..]);
    }
  }

  lemma {:induction false} Balance(parsed: seq<Parsed>)
    requires forall i :: 0 <= i < |parsed| ==> KeptOrDropped(parsed[i])
    ensures |parsed| == |RowsIn(parsed)| + |Dropped(RejectedIn(parsed))|
  {
    if parsed != [] {
      var head, rest := parsed[0], parsed[1..];
      assert parsed == [head] + rest;
      InConcat([head], rest);
      InOne(head);
      TaggedDropped(head.bxId, head.reasons);
      DroppedConcat(Tagged(head.bxId, head.reasons), RejectedIn(rest));
      Balance(rest);
    }
  }

  /** Every input is either a kept row or one entry without the `degraded:` prefix. */
  lemma {:induction false} Conservation(r: Readers, raw: seq<Record>)
    ensures var parsed := ParseAll(r, raw); |raw| == |RowsIn(parsed)| + |Dropped(RejectedIn(parsed))|
  {
    forall i | 0 <= i < |raw| ensures KeptOrDropped(ParseAll(r, raw)[i]) {
      ParseKeepsOrDrops(r, raw[i]);
    }
    Balance(ParseAll(r, raw));
  }

  /** Rows are independent: a page may be cut anywhere. */
  lemma {:induction false} ParseDistributes(r: Readers, a: seq<Record>, b: seq<Record>)
    ensures RowsIn(ParseAll(r, a + b)) == RowsIn(ParseAll(r, a)) + RowsIn(ParseAll(r, b))
    ensures RejectedIn(ParseAll(r, a + b)) == RejectedIn(ParseAll(r, a)) + RejectedIn(ParseAll(r, b))
  {
    assert ParseAll(r, a + b) == ParseAll(r, a) + ParseAll(r, b);
    InConcat(ParseAll(r, a), ParseAll(r, b));
  }

  // ------------------------------------------------------------------ bounds

  /** Every column is there, and every value is one its column can hold. */
  ghost predicate InBounds(row: Row) {
    && 1 <= row.bxId <= INT64 - 1
    && (row.cost.Some? ==> -COST_LIMIT <= row.cost.value <= COST_LIMIT)
    && forall c: Column :: CellInBounds(row, c)
  }

  ghost predicate CellInBounds(row: Row, c: Column) {
    match KindOf(c)
    case Own => c !in row.texts && c !in row.ints
    case Textual(width) =>
      c in row.texts && c !in row.ints
      && (row.texts[c].Some? && width.Some? ==> |row.texts[c].value| <= width.value)
    case Integral(low, high) =>
      c in row.ints && c !in row.texts
      && (row.ints[c].Some? ==> low <= row.ints[c].value <= high) && (c.CallDuration? ==> row.ints[c].Some?)
  }

  /** Every identity column and every number is reported when it is cut or dropped. */
  lemma {:induction false} ReportedColumns(c: Column)
    ensures c in CUT_ORDER <==> c in {CallId, ExternalCallId, CallFailedCode, CrmEntityType, CostCurrency}
    ensures c in DROP_ORDER <==> KindOf(c).Integral?
  {
    CutColumns(c);
    DropColumns(c);
    DropsAreIntegral();
  }

  lemma {:induction false} CutColumns(c: Column)
    ensures c in CUT_ORDER <==> c in {CallId, ExternalCallId, CallFailedCode, CrmEntityType, CostCurrency}
  {
    match c
    case CallId => assert CUT_ORDER[0] == c;
    case ExternalCallId => assert CUT_ORDER[1] == c;
    case CallFailedCode => assert CUT_ORDER[2] == c;
    case CrmEntityType => assert CUT_ORDER[3] == c;
    case CostCurrency => assert CUT_ORDER[4] == c;
    case _ =>
  }

  lemma {:induction false} DropsAreIntegral()
    ensures forall c :: c in DROP_ORDER ==> KindOf(c).Integral?
  {
  }

  lemma {:induction false} DropColumns(c: Column)
    ensures KindOf(c).Integral? ==> c in DROP_ORDER
  {
    match c
    case CallType => assert DROP_ORDER[0] == c;
    case CallDuration => assert DROP_ORDER[1] == c;
    case PortalUserId => assert DROP_ORDER[2] == c;
    case CrmEntityId => assert DROP_ORDER[3] == c;
    case CrmActivityId => assert DROP_ORDER[4] == c;
    case CallVote => assert DROP_ORDER[5] == c;
    case RecordFileId => assert DROP_ORDER[6] == c;
    case RecordDuration => assert DROP_ORDER[7] == c;
    case RestAppId => assert DROP_ORDER[8] == c;
    case TranscriptId => assert DROP_ORDER[9] == c;
    case SessionId => assert DROP_ORDER[10] == c;
    case RedialAttempt => assert DROP_ORDER[11] == c;
    case _ =>
  }

  /** Rounding stays within half a unit. */
  lemma {:induction false} QuantizedIsNear(x: real)
    ensures -0.00005 <= Quantized(x) - x <= 0.00005
  {
    var y := x * 10_000.0;
    assert -0.5 <= HalfEven(y) as real - y <= 0.5;
  }

  /** The true bound of a stored cost; it is not below 10^8, which `numeric(12,4)` would need. */
  lemma {:induction false} CostBound(x: real)
    requires CostInRange(x)
    ensures -COST_LIMIT <= Quantized(x) <= COST_LIMIT
    ensures -COST_LIMIT < Quantized(x) < COST_LIMIT <==> -(COST_LIMIT - 0.00005) < x < COST_LIMIT - 0.00005
  {
    var y := x * 10_000.0;
    var n := HalfEven(y);
    var top := 1_000_000_000_000;
    assert -(top as real) < y < top as real;
    assert -top <= y.Floor < top;
    HalfEvenEdge(y, top);
    assert n < top <==> n as real < top as real;
    assert n > -top <==> n as real > -(top as real);
    assert Quantized(x) < COST_LIMIT <==> n < top;
    assert Quantized(x) > -COST_LIMIT <==> n > -top;
  }

  /** One amount that passes the range check and is stored as 10^8 all the same. */
  lemma {:induction false} CostReachesLimit(r: Readers, text: string)
    requires Strip(text) != "" && r.amountOf(Strip(text)) == Some(99_999_999.99995)
    ensures CostInRange(99_999_999.99995) && CostOf(r, Words(text)) == (Some(COST_LIMIT), false)
  {
    var x := 99_999_999.99995;
    assert x * 10_000.0 == 999_999_999_999.5;
    assert (999_999_999_999.5).Floor == 999_999_999_999;
    assert HalfEven(x * 10_000.0) == 1_000_000_000_000;
  }

  lemma {:induction false} HalfEvenEdge(y: real, top: int)
    requires top > 0 && top % 2 == 0 && -(top as real) < y < top as real
    ensures -top <= HalfEven(y) <= top
    ensures HalfEven(y) < top <==> y < top as real - 0.5
    ensures HalfEven(y) > -top <==> y > -(top as real) + 0.5
  {
    var below := y.Floor;
    assert below as real <= y < below as real + 1.0;
    assert -top <= below < top;
  }

  lemma {:induction false} RowInBounds(r: Readers, record: Record)
    ensures ParseRow(r, record).row.Some? ==> InBounds(ParseRow(r, record).row.value)
  {
    if ParseRow(r, record).row.Some? {
      var row := ParseRow(r, record).row.value;
      assert row == RowOf(r, row.bxId, row.startDate, record.fields);
      RowOfInBounds(r, row.bxId, row.startDate, record.fields);
    }
  }

  lemma {:induction false} RowOfInBounds(r: Readers, id: int, moment: int, fields: map<string, Raw>)
    requires 1 <= id <= INT64 - 1
    ensures InBounds(RowOf(r, id, moment, fields))
  {
    CostInBounds(r, FieldAt(fields, Cost));
    forall c: Column ensures CellInBounds(RowOf(r, id, moment, fields), c) {
      CellFits(r, id, moment, fields, c);
    }
  }

  lemma {:induction false} CellFits(r: Readers, id: int, moment: int, fields: map<string, Raw>, c: Column)
    ensures CellInBounds(RowOf(r, id, moment, fields), c)
  {
    var kind := KindOf(c);
    assert c in TextCells(fields) <==> kind.Textual?;
    assert c in IntCells(r, fields) <==> kind.Integral?;
    match kind {
      case Textual(_) => TextFits(fields, c);
      case Integral(_, _) => IntFits(r, fields, c);
      case Own =>
    }
  }

  lemma {:induction false} TextFits(fields: map<string, Raw>, c: Column)
    requires KindOf(c).Textual?
    ensures var text := TextCell(fields, c).0;
            text.Some? && KindOf(c).width.Some? ==> |text.value| <= KindOf(c).width.value
  {
  }

  lemma {:induction false} IntFits(r: Readers, fields: map<string, Raw>, c: Column)
    requires KindOf(c).Integral?
    ensures var n := IntCell(r, fields, c).0;
            && (n.Some? ==> KindOf(c).low <= n.value <= KindOf(c).high) && (c.CallDuration? ==> n.Some?)
  {
    NumberFits(r, FieldAt(fields, c), KindOf(c).low, KindOf(c).high);
  }

  lemma {:induction false} NumberFits(r: Readers, v: Raw, low: int, high: int)
    ensures var n := NumberOf(r, v, low, high).0; n.Some? ==> low <= n.value <= high
  {
  }

  lemma {:induction false} CostInBounds(r: Readers, v: Raw)
    ensures CostOf(r, v).0.Some? ==> -COST_LIMIT <= CostOf(r, v).0.value <= COST_LIMIT
  {
    if CostOf(r, v).0.Some? {
      CostBound(r.amountOf(StringForm(v).value).value);
    }
  }

  lemma {:induction false} EveryRowInBounds(r: Readers, raw: seq<Record>)
    ensures forall row :: row in RowsIn(ParseAll(r, raw)) ==> InBounds(row)
  {
    forall i | 0 <= i < |raw| ensures var row := ParseAll(r, raw)[i].row; row.Some? ==> InBounds(row.value) {
      RowInBounds(r, raw[i]);
    }
    RowsAreParsed(ParseAll(r, raw));
  }

  lemma {:induction false} RowsAreParsed(parsed: seq<Parsed>)
    ensures forall row :: row in RowsIn(parsed) ==> exists i :: 0 <= i < |parsed| && parsed[i].row == Some(row)
  {
    if parsed != [] {
      RowsAreParsed(parsed[1..]);
      assert parsed == [parsed[0]] + parsed[1..];
      InConcat([parsed[0]], parsed[1..]);
      InOne(parsed[0]);
      forall row | row in RowsIn(parsed) ensures exists i :: 0 <= i < |parsed| && parsed[i].row == Some(row) {
        if parsed[0].row != Some(row) {
          var i :| 0 <= i < |parsed[1..]| && parsed[1..][i].row == Some(row);
          assert parsed[i + 1].row == Some(row);
        }
      }
    }
  }

  // ------------------------------------------------------------------ the scrubbed query

  predicate NoAmp(pieces: seq<string>) {
    forall i :: 0 <= i < |pieces| ==> '&' !in pieces[i]
  }

  lemma {:induction false} FilteredIs(pieces: seq<string>)
    ensures forall p :: p in Filtered(pieces) <==> p in pieces && Harmless(p)
    ensures NoAmp(pieces) ==> NoAmp(Filtered(pieces))
  {
    if pieces != [] {
      FilteredIs(pieces[1..]);
      assert pieces == [pieces[0]] + pieces[1..];
    }
  }

  lemma {:induction false} FilteredTwice(pieces: seq<string>)
    requires forall i :: 0 <= i < |pieces| ==> Harmless(pieces[i])
    ensures Filtered(pieces) == pieces
  {
    if pieces != [] {
      FilteredTwice(pieces[1..]);
    }
  }

  lemma {:induction false} FilteredInOrder(pieces: seq<string>)
    ensures Subsequence(Filtered(pieces), pieces)
  {
    if pieces != [] {
      FilteredInOrder(pieces[1..]);
      if Harmless(pieces[0]) {
        assert Filtered(pieces)[1..] == Filtered(pieces[1..]);
      } else {
        assert Filtered(pieces) == Filtered(pieces[1..]);
      }
    }
  }

  /** `part` is left when some elements of `whole` are taken out. */
  predicate Subsequence(part: seq<string>, whole: seq<string>)
    decreases |whole|
  {
    if part == [] then true
    else if whole == [] then false
    else (part[0] == whole[0] && Subsequence(part[1..], whole[1..])) || Subsequence(part, whole[1..])
  }

  /** The pieces of a scrubbed query, seen by whoever splits it again. */
  function Pieces(query: string): seq<string> {
    if query == "" then [] else Split(query, '&')
  }

  lemma {:induction false} PiecesOfScrub(query: string)
    ensures Pieces(Scrub(query)) == Filtered(Split(query, '&'))
  {
    var pieces := Split(query, '&');
    var kept := Filtered(pieces);
    JoinSplit(query, '&');
    assert NoAmp(pieces);
    FilteredIs(pieces);
    if kept != [] {
      SplitJoin(kept, '&');
      assert kept[0] in kept && Harmless(kept[0]);
      JoinIsNotEmpty(kept);
    }
  }

  lemma {:induction false} JoinIsNotEmpty(pieces: seq<string>)
    requires pieces != [] && pieces[0] != ""
    ensures Texts.Join(pieces, '&') != ""
  {
  }

  /** The name of a query piece, trimmed and but for case, is one of a credential. */
  predicate NamesCredential(piece: string) {
    Lower(Strip(piece[..Find(piece, '=')])) in {
      "auth", "auth_id", "access_token", "token", "refresh_token", "sig", "signature", "sessid", "application_token"
    }
  }

  lemma {:induction false} CredentialsAreThose(piece: string)
    ensures NameOf(piece) in CREDENTIALS <==> NamesCredential(piece)
  {
  }

  /** The pieces are in the order sent, each as often as sent unless it is empty or names a credential. */
  ghost predicate IsScrubbed(query: string, scrubbed: string) {
    && Subsequence(Pieces(scrubbed), Split(query, '&'))
    && forall p :: multiset(Pieces(scrubbed))[p]
                == if p != "" && !NamesCredential(p) then multiset(Split(query, '&'))[p] else 0
  }

  lemma {:induction false} FilteredCounts(pieces: seq<string>)
    ensures forall p :: multiset(Filtered(pieces))[p]
                     == if p != "" && !NamesCredential(p) then multiset(pieces)[p] else 0
  {
    if pieces != [] {
      FilteredCounts(pieces[1..]);
      CredentialsAreThose(pieces[0]);
      assert pieces == [pieces[0]] + pieces[1..];
    }
  }

  /**
   Scrubbing keeps, in order, exactly the pieces that are not empty and name no credential;
   no credential parameter is left, and scrubbing again changes nothing.
   */
  lemma {:induction false} ScrubIsClean(query: string)
    ensures IsScrubbed(query, Scrub(query))
    ensures Scrub(Scrub(query)) == Scrub(query)
  {
    var pieces := Split(query, '&');
    PiecesOfScrub(query);
    FilteredIs(pieces);
    FilteredCounts(pieces);
    FilteredInOrder(pieces);
    FilteredTwice(Filtered(pieces));
    if Scrub(query) == "" {
      FindNone("", '&');
      assert Split("", '&') == [""];
      assert Filtered([""]) == [];
    } else {
      assert Split(Scrub(query), '&') == Filtered(pieces);
    }
  }

  // ------------------------------------------------------------------ the stored URL

  /** Taking a URL apart undoes putting it together. */
  ghost predicate UrlsRoundTrip(r: Readers) {
    forall url: Url :: r.splitUrl(r.joinUrl(url)) == Some(url)
  }

  /** A stored URL carries no userinfo, and no piece of its query names a credential. */
  predicate UrlIsClean(r: Readers, stored: Option<string>) {
    stored.Some? ==>
      && stored.value != "" && r.splitUrl(stored.value).Some?
      && var url := r.splitUrl(stored.value).value;
         '@' !in url.netloc && forall piece :: piece in Split(url.query, '&') ==> !NamesCredential(piece)
  }

  lemma {:induction false} EmptyIsHarmless()
    ensures !NamesCredential("") && Split("", '&') == [""]
  {
    FindNone("", '&');
    assert Find("", '=') == 0 && Lower(Strip("")) == "";
  }

  lemma {:induction false} ScrubbedIsClean(query: string)
    ensures forall piece :: piece in Split(Scrub(query), '&') ==> !NamesCredential(piece)
  {
    EmptyIsHarmless();
    if Scrub(query) != "" {
      PiecesOfScrub(query);
      FilteredIs(Split(query, '&'));
      forall piece | piece in Split(Scrub(query), '&') ensures !NamesCredential(piece) {
        assert Harmless(piece);
        CredentialsAreThose(piece);
      }
    }
  }

  /** The URL sent, without its userinfo and its credentials. */
  ghost predicate Cleaned(sent: Url, url: Url) {
    && url.scheme == sent.scheme && url.path == sent.path && url.fragment == sent.fragment
    && EndsInHost(sent.netloc, url.netloc) && '@' !in url.netloc
    && IsScrubbed(sent.query, url.query)
  }

  /** What is stored is the URL that was sent, cleaned; nothing is when none was sent or nothing is left of it. */
  lemma {:induction false} RecordUrlIsClean(r: Readers, v: Raw)
    requires UrlsRoundTrip(r)
    ensures UrlIsClean(r, RecordUrl(r, v))
    ensures if TextOf(v).None? || r.splitUrl(TextOf(v).value).None? then RecordUrl(r, v) == None
            else exists url :: Cleaned(r.splitUrl(TextOf(v).value).value, url)
                            && RecordUrl(r, v) == if r.joinUrl(url) == "" then None else Some(r.joinUrl(url))
  {
    if TextOf(v).Some? && r.splitUrl(TextOf(v).value).Some? {
      var sent := r.splitUrl(TextOf(v).value).value;
      var cleaned := sent.(netloc := AfterLastAt(sent.netloc), query := Scrub(sent.query));
      ScrubbedIsClean(sent.query);
      ScrubIsClean(sent.query);
      AfterLastAtIs(sent.netloc);
      assert Cleaned(sent, cleaned);
      assert r.splitUrl(r.joinUrl(cleaned)) == Some(cleaned);
    }
  }

  /** The authority is this host, after some userinfo or alone. */
  ghost predicate EndsInHost(netloc: string, host: string) {
    netloc == host || exists user :: netloc == user + "@" + host
  }

  lemma {:induction false} AfterLastAtIs(netloc: string)
    ensures EndsInHost(netloc, AfterLastAt(netloc))
    decreases |netloc|
  {
    if '@' in netloc {
      var user, rest := AtSplits(netloc);
      AfterLastAtIs(rest);
      HostAfterUser(user, rest, AfterLastAt(rest));
    }
  }

  lemma {:induction false} AtSplits(netloc: string) returns (user: string, rest: string)
    requires '@' in netloc
    ensures netloc == user + "@" + rest && |rest| < |netloc| && AfterLastAt(netloc) == AfterLastAt(rest)
  {
    var i := Find(netloc, '@');
    user, rest := netloc[..i], netloc[i + 1..];
  }

  lemma {:induction false} HostAfterUser(user: string, rest: string, host: string)
    requires EndsInHost(rest, host)
    ensures EndsInHost(user + "@" + rest, host)
  {
    if rest != host {
      var more :| rest == more + "@" + host;
      assert user + "@" + rest == (user + "@" + more) + "@" + host;
    }
  }

  lemma {:induction false} EveryUrlIsClean(r: Readers, raw: seq<Record>)
    requires UrlsRoundTrip(r)
    ensures forall row :: row in RowsIn(ParseAll(r, raw)) ==> UrlIsClean(r, row.recordUrl)
  {
    RowsAreParsed(ParseAll(r, raw));
    forall row | row in RowsIn(ParseAll(r, raw)) ensures UrlIsClean(r, row.recordUrl) {
      var i :| 0 <= i < |raw| && ParseAll(r, raw)[i].row == Some(row);
      ParsedUrlIsClean(r, raw[i]);
    }
  }

  lemma {:induction false} ParsedUrlIsClean(r: Readers, record: Record)
    requires UrlsRoundTrip(r)
    ensures ParseRow(r, record).row.Some? ==> UrlIsClean(r, ParseRow(r, record).row.value.recordUrl)
  {
    if ParseRow(r, record).row.Some? {
      var row := ParseRow(r, record).row.value;
      assert row.recordUrl == RecordUrl(r, FieldAt(record.fields, CallRecordUrl));
      RecordUrlIsClean(r, FieldAt(record.fields, CallRecordUrl));
    }
  }
}
