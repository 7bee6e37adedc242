/**
 What stands in the columns of a kept row, said about the record it came from and apart from
 the parser: which value each column may hold, and when a field is reported as lost.
 */
module StatisticCells {
  import opened Wrappers
  import opened Texts
  import opened PhpArrays
  import opened StatisticRows

  // ------------------------------------------------------------------ readings

  /** The field is there in capitals, or else in lower case, or is missing. */
  ghost predicate FieldIs(fields: map<string, Raw>, name: string, v: Raw) {
    || (name in fields && v == fields[name])
    || (name !in fields && Lower(name) in fields && v == fields[Lower(name)])
    || (name !in fields && Lower(name) !in fields && v == Missing)
  }

  lemma {:induction false} FieldIsField(fields: map<string, Raw>, name: string)
    ensures FieldIs(fields, name, Field(fields, name))
  {
  }

  /** Something was sent: not null, and not blank. */
  predicate Sent(v: Raw) {
    match v
    case Missing => false
    case Words(text) => exists i :: 0 <= i < |text| && !IsSpace(text[i])
    case _ => true
  }

  lemma {:induction false} SentIsPresent(v: Raw)
    ensures Sent(v) <==> Present(v)
  {
    if v.Words? {
      var i, j := StripIs(v.text);
      if i < j {
        StripEnds(v.text);
        assert Strip(v.text)[0] == v.text[i];
      }
    }
  }

  lemma {:induction false} StripEnds(s: string)
    ensures Strip(s) == "" || (!IsSpace(Strip(s)[0]) && !IsSpace(Strip(s)[|Strip(s)| - 1]))
  {
  }

  /** The value reads as this integer: itself, a whole float, or a text that spells one. */
  predicate ReadsInt(r: Readers, v: Raw, n: int) {
    || v == Whole(n)
    || (v.Fractional? && v.integral == Some(n))
    || (v.Words? && Strip(v.text) != "" && r.wholeOf(Strip(v.text)) == Some(n))
  }

  lemma {:induction false} ReadsIntIs(r: Readers, v: Raw, n: int)
    ensures ReadsInt(r, v, n) <==> ToInt(r, v) == Some(n)
  {
  }

  /** The value reads as this text: a text trimmed, a number or another object as it prints. */
  predicate ReadsText(v: Raw, t: string) {
    || (v.Words? && t == Strip(v.text) && t != "")
    || (v.Whole? && t == Scalar(Number(v.n)))
    || (v.Fractional? && t == v.text)
    || (v.Wordy? && t == v.text)
  }

  lemma {:induction false} ReadsTextIs(v: Raw, t: string)
    ensures ReadsText(v, t) <==> TextOf(v) == Some(t)
  {
  }

  predicate Fits(r: Readers, v: Raw, low: int, high: int, n: int) {
    ReadsInt(r, v, n) && low <= n <= high
  }

  // ------------------------------------------------------------------ the plain columns

  /** A column read as it stands: its name in a report, its field, and the width or the range it has. */
  datatype Layout =
    | TextColumn(name: string, field: string, width: Option<nat>)
    | NumberColumn(name: string, field: string, low: int, high: int)
    | OtherColumn

  /** The table as a reader of the rows knows it; the parser's own says the same. */
  function LayoutOf(c: Column): (d: Layout)
    ensures Described(c, d)
  {
    match c
    case CallId => TextColumn("call_id", "CALL_ID", Some(255))
    case ExternalCallId => TextColumn("external_call_id", "EXTERNAL_CALL_ID", Some(255))
    case CallCategory => TextColumn("call_category", "CALL_CATEGORY", Some(64))
    case CallType => NumberColumn("call_type", "CALL_TYPE", -32768, 32767)
    case CallDuration => NumberColumn("call_duration", "CALL_DURATION", 0, 2147483647)
    case CallFailedCode => TextColumn("call_failed_code", "CALL_FAILED_CODE", Some(32))
    case CallFailedReason => TextColumn("call_failed_reason", "CALL_FAILED_REASON", None)
    case PortalUserId => NumberColumn("portal_user_id", "PORTAL_USER_ID", 0, 2147483647)
    case PortalNumber => TextColumn("portal_number", "PORTAL_NUMBER", Some(128))
    case PhoneNumber => TextColumn("phone_number", "PHONE_NUMBER", Some(128))
    case CrmEntityType => TextColumn("crm_entity_type", "CRM_ENTITY_TYPE", Some(32))
    case CrmEntityId => NumberColumn("crm_entity_id", "CRM_ENTITY_ID", -2147483648, 2147483647)
    case CrmActivityId => NumberColumn("crm_activity_id", "CRM_ACTIVITY_ID", -9223372036854775808, 9223372036854775807)
    case CostCurrency => TextColumn("cost_currency", "COST_CURRENCY", Some(8))
    case CallVote => NumberColumn("call_vote", "CALL_VOTE", -32768, 32767)
    case RecordFileId => NumberColumn("record_file_id", "RECORD_FILE_ID", -9223372036854775808, 9223372036854775807)
    case RecordDuration => NumberColumn("record_duration", "RECORD_DURATION", -2147483648, 2147483647)
    case RestAppId => NumberColumn("rest_app_id", "REST_APP_ID", -2147483648, 2147483647)
    case RestAppName => TextColumn("rest_app_name", "REST_APP_NAME", Some(255))
    case TranscriptId => NumberColumn("transcript_id", "TRANSCRIPT_ID", -9223372036854775808, 9223372036854775807)
    case SessionId => NumberColumn("session_id", "SESSION_ID", -9223372036854775808, 9223372036854775807)
    case RedialAttempt => NumberColumn("redial_attempt", "REDIAL_ATTEMPT", -32768, 32767)
    case Comment => TextColumn("comment", "COMMENT", None)
    case CallLog => TextColumn("call_log", "CALL_LOG", None)
    case BxId | CallStartDate | Cost | CallRecordUrl | TranscriptPending => OtherColumn
  }

  predicate Described(c: Column, d: Layout) {
    match d
    case TextColumn(name, field, width) =>
      && name == NameOfColumn(c) && field == FieldOf(c) && KindOf(c).Textual? && KindOf(c).width == width
    case NumberColumn(name, field, low, high) =>
      name == NameOfColumn(c) && field == FieldOf(c) && KindOf(c) == Integral(low, high)
    case OtherColumn => KindOf(c).Own?
  }

  /** The column holds what its field says. */
  ghost predicate CellHolds(r: Readers, fields: map<string, Raw>, row: Row, c: Column) {
    match LayoutOf(c)
    case TextColumn(_, field, width) =>
      exists v :: FieldIs(fields, field, v) && c in row.texts && TextCellIs(v, row.texts[c], width)
    case NumberColumn(_, field, low, high) =>
      exists v :: FieldIs(fields, field, v) && c in row.ints && IntCellIs(r, v, row.ints[c], c, low, high)
    case OtherColumn => true
  }

  /** The integer that was sent when it is in range, and nothing otherwise; an unreadable duration is 0. */
  ghost predicate IntCellIs(r: Readers, v: Raw, cell: Option<int>, c: Column, low: int, high: int) {
    if exists n :: Fits(r, v, low, high, n) then cell.Some? && Fits(r, v, low, high, cell.value)
    else cell == if c.CallDuration? then Some(0) else None
  }

  /** The front of the text that was sent, as much as the width takes, and nothing when there is none. */
  ghost predicate TextCellIs(v: Raw, cell: Option<string>, width: Option<nat>) {
    if cell.None? then forall t :: !ReadsText(v, t)
    else exists t :: ReadsText(v, t) && IsFront(cell.value, t, width)
  }

  /** All of the text, or its first `width` characters if it is longer. */
  predicate IsFront(front: string, t: string, width: Option<nat>) {
    front <= t && (if width.None? || |t| <= width.value then front == t else |front| == width.value)
  }

  lemma {:induction false} CellOfRow(r: Readers, fields: map<string, Raw>, row: Row, c: Column)
    requires row.texts == TextCells(fields) && row.ints == IntCells(r, fields)
    ensures CellHolds(r, fields, row, c)
  {
    var v := FieldAt(fields, c);
    FieldIsField(fields, FieldOf(c));
    match LayoutOf(c)
    case TextColumn(_, _, width) =>
      assert row.texts[c] == TextCell(fields, c).0;
      TextIs(v, width);
    case NumberColumn(_, _, low, high) =>
      assert row.ints[c] == IntCell(r, fields, c).0;
      NumberIs(r, v, low, high);
      assert IntCellIs(r, v, row.ints[c], c, low, high);
    case OtherColumn =>
  }

  lemma {:induction false} NumberIs(r: Readers, v: Raw, low: int, high: int)
    ensures var (n, bad) := NumberOf(r, v, low, high);
            && (n.Some? <==> exists k :: Fits(r, v, low, high, k))
            && (n.Some? ==> Fits(r, v, low, high, n.value))
            && (bad <==> Sent(v) && n.None?)
  {
    SentIsPresent(v);
    forall k ensures ReadsInt(r, v, k) <==> ToInt(r, v) == Some(k) {
      ReadsIntIs(r, v, k);
    }
    var parsed := ToInt(r, v);
    if parsed.Some? && low <= parsed.value <= high {
      assert Fits(r, v, low, high, parsed.value);
    }
  }

  lemma {:induction false} TextIs(v: Raw, width: Option<nat>)
    ensures TextCellIs(v, if width.None? then TextOf(v) else Clip(TextOf(v), width.value).0, width)
  {
    var cell := if width.None? then TextOf(v) else Clip(TextOf(v), width.value).0;
    forall t ensures ReadsText(v, t) <==> TextOf(v) == Some(t) {
      ReadsTextIs(v, t);
    }
    if TextOf(v).Some? {
      var t := TextOf(v).value;
      assert ReadsText(v, t) && IsFront(cell.value, t, width);
    }
  }

  // ------------------------------------------------------------------ the columns with readers of their own

  /** What is tried as an amount or an answer: a text trimmed, a number or another object as it prints. */
  predicate Form(v: Raw, t: string) {
    || (v.Words? && t == Strip(v.text))
    || (v.Whole? && t == Scalar(Number(v.n)))
    || (v.Fractional? && t == Strip(v.text))
    || (v.Wordy? && t == Strip(v.text))
  }

  /** The value is sent and spells an amount below 10^8 either way. */
  predicate Amounts(r: Readers, v: Raw, t: string, x: real) {
    Sent(v) && Form(v, t) && r.amountOf(t) == Some(x) && -100_000_000.0 < x < 100_000_000.0
  }

  /** The stored cost is such an amount, to four places; without one there is none, reported if something was sent. */
  lemma {:induction false} CostIs(r: Readers, v: Raw)
    ensures match CostOf(r, v)
            case (Some(cost), bad) => !bad && exists t, x :: Amounts(r, v, t, x) && cost == Quantized(x)
            case (None, bad) => (bad <==> Sent(v)) && forall t, x :: !Amounts(r, v, t, x)
  {
    SentIsPresent(v);
    forall t ensures Form(v, t) <==> StringForm(v) == Some(t) {
    }
    if CostOf(r, v).0.Some? {
      var t := StringForm(v).value;
      assert Amounts(r, v, t, r.amountOf(t).value);
    }
  }

  /** The value answers yes or no. */
  ghost predicate Says(v: Raw, yes: bool) {
    match v
    case Bool(b) => b == yes
    case Whole(n) => (n != 0) == yes
    case Fractional(_, nonZero, _) => nonZero == yes
    case _ =>
      exists t :: Form(v, t) && Lower(t) in (if yes then {"y", "yes", "true", "1"} else {"n", "no", "false", "0"})
  }

  lemma {:induction false} YesNoIs(v: Raw)
    ensures match YesNo(v)
            case (Some(b), bad) => !bad && Sent(v) && Says(v, b)
            case (None, bad) => (bad <==> Sent(v)) && (Sent(v) ==> !Says(v, true) && !Says(v, false))
  {
    SentIsPresent(v);
    forall t ensures Form(v, t) <==> StringForm(v) == Some(t) {
    }
    AnswersDiffer();
  }

  lemma {:induction false} AnswersDiffer()
    ensures {"y", "yes", "true", "1"} !! {"n", "no", "false", "0"}
    ensures forall t :: t in {"y", "yes", "true", "1"} <==> t in ["y", "yes", "true", "1"]
    ensures forall t :: t in {"n", "no", "false", "0"} <==> t in ["n", "no", "false", "0"]
  {
  }

  /** A start date that is kept: a text with an offset, from the earliest to the latest moment allowed. */
  predicate Dated(r: Readers, v: Raw, moment: int) {
    Sent(v) && v.Words? && r.dateOf(Strip(v.text)) == At(moment) && r.earliest <= moment <= r.latest
  }

  lemma {:induction false} StartDateIs(r: Readers, v: Raw)
    ensures match StartDate(r, v)
            case Success(moment) => Dated(r, v, moment)
            case Failure(reason) =>
              && (forall moment :: !Dated(r, v, moment))
              && (reason == "start_date_missing" <==> !Sent(v) || !v.Words?)
              && (reason == "start_date_unparsable" <==> Sent(v) && v.Words? && r.dateOf(Strip(v.text)).Unparsable?)
              && (reason == "start_date_naive" <==> Sent(v) && v.Words? && r.dateOf(Strip(v.text)).Naive?)
  {
    SentIsPresent(v);
    ReasonsDiffer();
  }

  lemma {:induction false} ReasonsDiffer()
    ensures "start_date_missing"[11] == 'm' && "start_date_unparsable"[11] == 'u'
    ensures "start_date_naive"[11] == 'n' && "start_date_out_of_range"[11] == 'o'
  {
  }

  // ------------------------------------------------------------------ the whole row

  ghost predicate KeyHolds(r: Readers, fields: map<string, Raw>, row: Row) {
    && (exists v :: FieldIs(fields, "ID", v) && Fits(r, v, 1, 9223372036854775807, row.bxId))
    && (exists v :: FieldIs(fields, "CALL_START_DATE", v) && Dated(r, v, row.startDate))
  }

  ghost predicate CostHolds(r: Readers, fields: map<string, Raw>, cost: Option<real>) {
    exists v :: FieldIs(fields, "COST", v) && CostOf(r, v).0 == cost
  }

  ghost predicate PendingHolds(fields: map<string, Raw>, pending: Option<bool>) {
    exists v :: FieldIs(fields, "TRANSCRIPT_PENDING", v) && YesNo(v).0 == pending
  }

  ghost predicate UrlHolds(r: Readers, fields: map<string, Raw>, url: Option<string>) {
    exists v :: FieldIs(fields, "CALL_RECORD_URL", v) && RecordUrl(r, v) == url
  }

  ghost predicate OwnHold(r: Readers, fields: map<string, Raw>, row: Row) {
    CostHolds(r, fields, row.cost) && PendingHolds(fields, row.pending) && UrlHolds(r, fields, row.recordUrl)
  }

  lemma {:induction false} KeyFields()
    ensures FieldOf(BxId) == "ID" && FieldOf(CallStartDate) == "CALL_START_DATE"
  {
  }

  lemma {:induction false} OwnFields()
    ensures FieldOf(Cost) == "COST" && FieldOf(TranscriptPending) == "TRANSCRIPT_PENDING"
    ensures FieldOf(CallRecordUrl) == "CALL_RECORD_URL"
  {
  }

  lemma {:induction false} CostOfRow(r: Readers, fields: map<string, Raw>)
    ensures CostHolds(r, fields, CostOf(r, FieldAt(fields, Cost)).0)
  {
    OwnFields();
    FieldIsField(fields, FieldOf(Cost));
  }

  lemma {:induction false} PendingOfRow(fields: map<string, Raw>)
    ensures PendingHolds(fields, YesNo(FieldAt(fields, TranscriptPending)).0)
  {
    OwnFields();
    FieldIsField(fields, FieldOf(TranscriptPending));
  }

  lemma {:induction false} UrlOfRow(r: Readers, fields: map<string, Raw>)
    ensures UrlHolds(r, fields, RecordUrl(r, FieldAt(fields, CallRecordUrl)))
  {
    OwnFields();
    FieldIsField(fields, FieldOf(CallRecordUrl));
  }

  lemma {:induction false} OwnOfRow(r: Readers, fields: map<string, Raw>, row: Row)
    requires row == RowOf(r, row.bxId, row.startDate, fields)
    ensures OwnHold(r, fields, row)
  {
    CostOfRow(r, fields);
    PendingOfRow(fields);
    UrlOfRow(r, fields);
  }

  lemma {:induction false} KeyOfRow(r: Readers, fields: map<string, Raw>, row: Row)
    requires ToInt(r, FieldAt(fields, BxId)) == Some(row.bxId) && 1 <= row.bxId <= INT64 - 1
    requires StartDate(r, FieldAt(fields, CallStartDate)) == Success(row.startDate)
    ensures KeyHolds(r, fields, row)
  {
    KeyFields();
    var id, date := Field(fields, "ID"), Field(fields, "CALL_START_DATE");
    FieldIsField(fields, "ID");
    FieldIsField(fields, "CALL_START_DATE");
    ReadsIntIs(r, id, row.bxId);
    StartDateIs(r, date);
    assert Fits(r, id, 1, 9223372036854775807, row.bxId);
    assert Dated(r, date, row.startDate);
  }

  lemma {:induction false} KeptIs(r: Readers, fields: map<string, Raw>) returns (id: int, moment: int)
    requires ParseRow(r, Record(fields)).row.Some?
    ensures ToInt(r, FieldAt(fields, BxId)) == Some(id) && 1 <= id <= INT64 - 1
    ensures StartDate(r, FieldAt(fields, CallStartDate)) == Success(moment)
    ensures ParseRow(r, Record(fields)) == Parsed(Some(RowOf(r, id, moment, fields)), Some(id), ReasonsOf(r, fields))
  {
    id := ToInt(r, FieldAt(fields, BxId)).value;
    moment := StartDate(r, FieldAt(fields, CallStartDate)).value;
  }

  /** Every column of a kept row holds what its own field says, within the column's bounds. */
  lemma {:induction false} KeptRowHolds(r: Readers, record: Record, row: Row)
    requires ParseRow(r, record).row == Some(row)
    ensures record.Record? && ParseRow(r, record).bxId == Some(row.bxId)
    ensures KeyHolds(r, record.fields, row) && OwnHold(r, record.fields, row)
    ensures forall c :: CellHolds(r, record.fields, row, c)
  {
    var id, moment := KeptIs(r, record.fields);
    OwnOfRow(r, record.fields, row);
    KeyOfRow(r, record.fields, row);
    forall c ensures CellHolds(r, record.fields, row, c) {
      CellOfRow(r, record.fields, row, c);
    }
  }

  // ------------------------------------------------------------------ what a kept row reports

  /** The field's text is longer than its column, or something was sent that gives no number in range. */
  ghost predicate Bad(r: Readers, fields: map<string, Raw>, c: Column) {
    match LayoutOf(c)
    case TextColumn(_, field, width) =>
      exists v, t :: FieldIs(fields, field, v) && ReadsText(v, t) && width.Some? && |t| > width.value
    case NumberColumn(_, field, low, high) =>
      exists v :: FieldIs(fields, field, v) && Sent(v) && forall n :: !Fits(r, v, low, high, n)
    case OtherColumn => false
  }

  function Report(c: Column): string {
    match LayoutOf(c)
    case TextColumn(name, _, _) => "degraded:" + (name + "_truncated")
    case NumberColumn(name, _, _, _) => "degraded:" + (name + "_dropped")
    case OtherColumn => ""
  }

  /** One report for each bad column, in the order of the columns. */
  ghost function Reports(r: Readers, fields: map<string, Raw>, cs: seq<Column>): seq<string> {
    if cs == [] then []
    else (if Bad(r, fields, cs[0]) then [Report(cs[0])] else []) + Reports(r, fields, cs[1..])
  }

  lemma {:induction false} ClipIs(v: Raw, width: nat)
    ensures Clip(TextOf(v), width).1 <==> exists t :: ReadsText(v, t) && |t| > width
  {
    forall t ensures ReadsText(v, t) <==> TextOf(v) == Some(t) {
      ReadsTextIs(v, t);
    }
    if TextOf(v).Some? {
      assert ReadsText(v, TextOf(v).value);
    }
  }

  lemma {:induction false} CutIs(r: Readers, fields: map<string, Raw>, c: Column)
    requires KindOf(c).Textual?
    ensures TextCell(fields, c).1 == Bad(r, fields, c)
  {
    var d := LayoutOf(c);
    FieldIsField(fields, d.field);
    if d.width.Some? {
      ClipIs(FieldAt(fields, c), d.width.value);
    }
  }

  lemma {:induction false} DropIs(r: Readers, fields: map<string, Raw>, c: Column)
    requires KindOf(c).Integral?
    ensures IntCell(r, fields, c).1 == Bad(r, fields, c)
  {
    var d := LayoutOf(c);
    FieldIsField(fields, d.field);
    NumberIs(r, FieldAt(fields, c), d.low, d.high);
  }

  lemma {:induction false} CutsReported(r: Readers, fields: map<string, Raw>, cs: seq<Column>)
    requires forall c :: c in cs ==> KindOf(c).Textual?
    ensures CutReasons(fields, cs) == Reports(r, fields, cs)
  {
    if cs != [] {
      CutIs(r, fields, cs[0]);
      assert cs[0] in cs && LayoutOf(cs[0]).TextColumn?;
      CutsReported(r, fields, cs[1..]);
    }
  }

  lemma {:induction false} DropsReported(r: Readers, fields: map<string, Raw>, cs: seq<Column>)
    requires forall c :: c in cs ==> KindOf(c).Integral?
    ensures DropReasons(r, fields, cs) == Reports(r, fields, cs)
  {
    if cs != [] {
      DropIs(r, fields, cs[0]);
      assert cs[0] in cs && LayoutOf(cs[0]).NumberColumn?;
      DropsReported(r, fields, cs[1..]);
    }
  }

  ghost function ReportsFor(r: Readers, fields: map<string, Raw>, cuts: seq<Column>, drops: seq<Column>): seq<string> {
    Reports(r, fields, cuts) + Reports(r, fields, drops)
    + ReasonIf(CostOf(r, FieldAt(fields, Cost)).1, "cost_dropped")
    + ReasonIf(YesNo(FieldAt(fields, TranscriptPending)).1, "transcript_pending_dropped")
  }

  lemma {:induction false} ReportsAreReasons(r: Readers, fields: map<string, Raw>, cuts: seq<Column>,
                                             drops: seq<Column>)
    requires forall c :: c in cuts ==> KindOf(c).Textual?
    requires forall c :: c in drops ==> KindOf(c).Integral?
    ensures ReasonsFor(r, fields, cuts, drops) == ReportsFor(r, fields, cuts, drops)
  {
    CutsReported(r, fields, cuts);
    DropsReported(r, fields, drops);
  }

  lemma {:induction false} ReportsOfRow(r: Readers, fields: map<string, Raw>)
    ensures ReasonsOf(r, fields) == ReportsFor(r, fields, CUT_ORDER, DROP_ORDER)
  {
    ReportsAreReasons(r, fields, CUT_ORDER, DROP_ORDER);
  }

  /** A kept row reports each bad column, in order, then the cost and the flag when they were sent in vain. */
  lemma {:induction false} ReasonsAre(r: Readers, fields: map<string, Raw>)
    requires ParseRow(r, Record(fields)).row.Some?
    ensures ParseRow(r, Record(fields)).reasons == ReportsFor(r, fields, CUT_ORDER, DROP_ORDER)
  {
    var _, _ := KeptIs(r, fields);
    ReportsOfRow(r, fields);
  }

  lemma {:induction false} NoKey(r: Readers, fields: map<string, Raw>)
    ensures match ToInt(r, FieldAt(fields, BxId))
            case None => ParseRow(r, Record(fields)) == Parsed(None, None, ["missing_id"])
            case Some(n) =>
              n < 1 || n > INT64 - 1 ==> ParseRow(r, Record(fields)) == Parsed(None, None, ["id_out_of_range"])
  {
  }

  lemma {:induction false} Key(r: Readers, fields: map<string, Raw>, n: int)
    requires ToInt(r, FieldAt(fields, BxId)) == Some(n) && 1 <= n <= INT64 - 1
    ensures var p, date := ParseRow(r, Record(fields)), StartDate(r, FieldAt(fields, CallStartDate));
            p.bxId == Some(n) && if date.Failure? then p == Parsed(None, Some(n), [date.error]) else p.row.Some?
  {
  }

  /** Why a record is dropped, and under which id it is reported. */
  lemma {:induction false} DroppedFor(r: Readers, fields: map<string, Raw>)
    ensures var p, id, date :=
              ParseRow(r, Record(fields)), Field(fields, "ID"), StartDate(r, Field(fields, "CALL_START_DATE"));
            && ((forall n :: !ReadsInt(r, id, n)) ==> p == Parsed(None, None, ["missing_id"]))
            && (forall n :: ReadsInt(r, id, n) && !(1 <= n <= 9223372036854775807) ==>
                  p == Parsed(None, None, ["id_out_of_range"]))
            && (forall n :: Fits(r, id, 1, 9223372036854775807, n) ==>
                  p.bxId == Some(n) && if date.Failure? then p == Parsed(None, Some(n), [date.error]) else p.row.Some?)
  {
    KeyFields();
    var id := FieldAt(fields, BxId);
    forall n ensures ReadsInt(r, id, n) <==> ToInt(r, id) == Some(n) {
      ReadsIntIs(r, id, n);
    }
    NoKey(r, fields);
    match ToInt(r, id)
    case None =>
    case Some(n) =>
      if 1 <= n <= INT64 - 1 {
        Key(r, fields, n);
      }
  }

  /** What is no record is dropped as such. */
  lemma {:induction false} NotARecordIsDropped(r: Readers)
    ensures ParseRow(r, NotARecord) == Parsed(None, None, ["not_a_record"])
  {
  }
}
