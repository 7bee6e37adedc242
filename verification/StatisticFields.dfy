/** The fields a filter may name and the fields the row parser reads are the same. */
module StatisticFields {
  import opened StatisticRows
  import StatisticFilter

  /** Where the field of each column stands among the documented ones. */
  function PlaceOf(c: Column): nat {
    match c
    case BxId => 0
    case CallId => 1
    case ExternalCallId => 2
    case CallCategory => 3
    case PortalUserId => 4
    case PortalNumber => 5
    case PhoneNumber => 6
    case CallType => 7
    case CallDuration => 8
    case CallStartDate => 9
    case CallLog => 10
    case CallRecordUrl => 11
    case CallVote => 12
    case Cost => 13
    case CostCurrency => 14
    case CallFailedCode => 15
    case CallFailedReason => 16
    case CrmEntityType => 17
    case CrmEntityId => 18
    case CrmActivityId => 19
    case RestAppId => 20
    case RestAppName => 21
    case TranscriptId => 22
    case TranscriptPending => 23
    case SessionId => 24
    case RedialAttempt => 25
    case Comment => 26
    case RecordDuration => 27
    case RecordFileId => 28
  }

  /** The column read from each documented field. */
  function ColumnAt(k: nat): (c: Column)
    requires k < 29
    ensures PlaceOf(c) == k
  {
    match k
    case 0 => BxId
    case 1 => CallId
    case 2 => ExternalCallId
    case 3 => CallCategory
    case 4 => PortalUserId
    case 5 => PortalNumber
    case 6 => PhoneNumber
    case 7 => CallType
    case 8 => CallDuration
    case 9 => CallStartDate
    case 10 => CallLog
    case 11 => CallRecordUrl
    case 12 => CallVote
    case 13 => Cost
    case 14 => CostCurrency
    case 15 => CallFailedCode
    case 16 => CallFailedReason
    case 17 => CrmEntityType
    case 18 => CrmEntityId
    case 19 => CrmActivityId
    case 20 => RestAppId
    case 21 => RestAppName
    case 22 => TranscriptId
    case 23 => TranscriptPending
    case 24 => SessionId
    case 25 => RedialAttempt
    case 26 => Comment
    case 27 => RecordDuration
    case _ => RecordFileId
  }

  /** Each column's field stands at its place. */
  function Placed(c: Column): (name: string)
    ensures name == FieldOf(c)
    ensures PlaceOf(c) < |StatisticFilter.FIELDS| && name == StatisticFilter.FIELDS[PlaceOf(c)]
  {
    match c
    case BxId => "ID"
    case CallId => "CALL_ID"
    case ExternalCallId => "EXTERNAL_CALL_ID"
    case CallCategory => "CALL_CATEGORY"
    case PortalUserId => "PORTAL_USER_ID"
    case PortalNumber => "PORTAL_NUMBER"
    case PhoneNumber => "PHONE_NUMBER"
    case CallType => "CALL_TYPE"
    case CallDuration => "CALL_DURATION"
    case CallStartDate => "CALL_START_DATE"
    case CallLog => "CALL_LOG"
    case CallRecordUrl => "CALL_RECORD_URL"
    case CallVote => "CALL_VOTE"
    case Cost => "COST"
    case CostCurrency => "COST_CURRENCY"
    case CallFailedCode => "CALL_FAILED_CODE"
    case CallFailedReason => "CALL_FAILED_REASON"
    case CrmEntityType => "CRM_ENTITY_TYPE"
    case CrmEntityId => "CRM_ENTITY_ID"
    case CrmActivityId => "CRM_ACTIVITY_ID"
    case RestAppId => "REST_APP_ID"
    case RestAppName => "REST_APP_NAME"
    case TranscriptId => "TRANSCRIPT_ID"
    case TranscriptPending => "TRANSCRIPT_PENDING"
    case SessionId => "SESSION_ID"
    case RedialAttempt => "REDIAL_ATTEMPT"
    case Comment => "COMMENT"
    case RecordDuration => "RECORD_DURATION"
    case RecordFileId => "RECORD_FILE_ID"
  }

  lemma {:induction false} AllFields()
    ensures |StatisticFilter.FIELDS| == 29
  {
  }

  lemma {:induction false} FieldIsRead(k: nat)
    requires k < 29
    ensures |StatisticFilter.FIELDS| == 29 && FieldOf(ColumnAt(k)) == StatisticFilter.FIELDS[k]
  {
    AllFields();
    assert Placed(ColumnAt(k)) == FieldOf(ColumnAt(k));
  }

  lemma {:induction false} ReadIsFilterable(c: Column)
    ensures StatisticFilter.IsField(FieldOf(c))
  {
    assert Placed(c) == FieldOf(c);
  }

  lemma {:induction false} FilterableIsRead(name: string) returns (c: Column)
    requires StatisticFilter.IsField(name)
    ensures FieldOf(c) == name
  {
    AllFields();
    var k: nat :| k < 29 && StatisticFilter.FIELDS[k] == name;
    c := ColumnAt(k);
    FieldIsRead(k);
  }

  /** A field may be filtered or sorted by exactly when some column of a row is read from it. */
  lemma {:induction false} FilterableIffRead(name: string)
    ensures StatisticFilter.IsField(name) <==> exists c :: FieldOf(c) == name
  {
    if StatisticFilter.IsField(name) {
      var c := FilterableIsRead(name);
    }
    if c :| FieldOf(c) == name {
      ReadIsFilterable(c);
    }
  }
}
