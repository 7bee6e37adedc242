/**
 The bulk user read of `bitrix/users.py`: ids in chunks of 50, chunks in batches of 50
 commands, and one retry without ADMIN_MODE. The remote side is a parameter that may answer
 each batch as it likes, knowing every batch sent before.
 */
module Users {
  import opened Wrappers
  import opened Seqs
  import opened Texts
  import opened PhpArrays
  import BatchAnswer

  const ID_CHUNK: nat := 50
  const MAX_COMMANDS_PER_BATCH: nat := 50

  /** Error classes of `bitrix/errors.py`, by whether ADMIN_MODE may be to blame. */
  datatype Error =
    | InvalidCredentials | AccessDenied | UserAccess | Unknown | InvalidArg | NotFound
    | ExpiredToken | Throttled | PortalDeleted | Transport | OtherError

  predicate Retryable(e: Error) {
    e in {InvalidCredentials, AccessDenied, UserAccess, Unknown, InvalidArg, NotFound}
  }

  // ------------------------------------------------------------------ records

  /** A raw record: its numeric id, if it has one, and the rest. */
  datatype Row = Row(id: Option<int>, fields: string)

  /** The shapes `user.get` may answer with: a list, a mapping that may wrap a list, or something else. */
  datatype Answer =
    | Listed(rows: seq<Row>)
    | Mapped(record: Row, inner: Option<seq<Row>>)
    | Shapeless

  function RowsOf(answer: Answer): seq<Row> {
    match answer
    case Listed(rows) => rows
    case Mapped(record, inner) => if inner.Some? then inner.value else [record]
    case Shapeless => []
  }

  type Records = map<int, Row>

  function Fold(into: Records, rows: seq<Row>): Records
    decreases |rows|
  {
    if rows == [] then into
    else Fold(if rows[0].id.Some? then into[rows[0].id.value := rows[0]] else into, rows[1..])
  }

  /** `_collect`. */
  method Collect(into: Records, answer: Answer) returns (out: Records)
    ensures out == Fold(into, RowsOf(answer))
    ensures forall n :: AnswerSilent(answer, n) ==> SameAt(into, out, n)
    ensures forall n :: !AnswerSilent(answer, n) ==> n in out && AnswerGives(answer, n, out[n])
  {
    forall n ensures AnswerSilent(answer, n) ==> SameAt(into, Fold(into, RowsOf(answer)), n)
             ensures !AnswerSilent(answer, n) ==>
                       n in Fold(into, RowsOf(answer)) && AnswerGives(answer, n, Fold(into, RowsOf(answer))[n]) {
      AnswerTeaches(into, answer, n);
    }
    out := into;
    var rows := [];
    match answer {
      case Mapped(record, inner) => rows := if inner.Some? then inner.value else [record];
      case Listed(listed) => rows := listed;
      case Shapeless => return;
    }
    assert rows[0..] == rows;
    for i := 0 to |rows|
      invariant Fold(out, rows[i..]) == Fold(into, rows)
    {
      assert rows[i..][1..] == rows[i + 1..];
      if rows[i].id.Some? {
        out := out[rows[i].id.value := rows[i]];
      }
    }
  }

  /**
   Row `j` of an answer: of a list, its elements; of a mapping that wraps one, that list's; of
   any other mapping, the mapping itself; anything else has none.
   */
  predicate HasRow(answer: Answer, j: nat, row: Row) {
    match answer
    case Listed(rows) => j < |rows| && rows[j] == row
    case Mapped(record, Some(rows)) => j < |rows| && rows[j] == row
    case Mapped(record, None) => j == 0 && row == record
    case Shapeless => false
  }

  ghost predicate NamesUser(answer: Answer, n: int, j: nat) {
    exists row :: HasRow(answer, j, row) && row.id == Some(n)
  }

  /** No row of the answer has this id. */
  ghost predicate AnswerSilent(answer: Answer, n: int) {
    forall j :: !NamesUser(answer, n, j)
  }

  /** The last row of the answer with this id. */
  ghost predicate AnswerGives(answer: Answer, n: int, row: Row) {
    exists j :: HasRow(answer, j, row) && row.id == Some(n) && forall k :: k > j ==> !NamesUser(answer, n, k)
  }

  predicate SameAt(a: Records, b: Records, n: int) {
    (n in a <==> n in b) && (n in a ==> a[n] == b[n])
  }

  predicate Learns(out: Records, n: int, row: Row) {
    n in out && out[n] == row
  }

  /** Index of the last row with this id. */
  function LastWith(rows: seq<Row>, n: int): Option<nat>
    decreases |rows|
  {
    if rows == [] then None
    else if rows[|rows| - 1].id == Some(n) then Some(|rows| - 1)
    else LastWith(rows[..|rows| - 1], n)
  }

  lemma {:induction false} LastWithIs(rows: seq<Row>, n: int)
    ensures match LastWith(rows, n)
            case None => forall j :: 0 <= j < |rows| ==> rows[j].id != Some(n)
            case Some(i) => i < |rows| && rows[i].id == Some(n) && forall j :: i < j < |rows| ==> rows[j].id != Some(n)
    decreases |rows|
  {
    if rows != [] && rows[|rows| - 1].id != Some(n) {
      LastWithIs(rows[..|rows| - 1], n);
    }
  }

  lemma {:induction false} FoldSnoc(into: Records, rows: seq<Row>, last: Row)
    ensures Fold(into, rows + [last])
         == if last.id.Some? then Fold(into, rows)[last.id.value := last] else Fold(into, rows)
    decreases |rows|
  {
    if rows == [] {
      assert rows + [last] == [last] && [last][1..] == [];
    } else {
      assert (rows + [last])[1..] == rows[1..] + [last] && (rows + [last])[0] == rows[0];
      FoldSnoc(if rows[0].id.Some? then into[rows[0].id.value := rows[0]] else into, rows[1..], last);
    }
  }

  /** Folding rows in leaves an id with the last row that has it, or as it was. */
  lemma {:induction false} FoldLearnsLast(into: Records, rows: seq<Row>, n: int)
    ensures match LastWith(rows, n)
            case None => SameAt(into, Fold(into, rows), n)
            case Some(i) => i < |rows| && Learns(Fold(into, rows), n, rows[i])
    decreases |rows|
  {
    if rows != [] {
      var k := |rows| - 1;
      FoldLearnsLast(into, rows[..k], n);
      FoldSnoc(into, rows[..k], rows[k]);
      LastWithIs(rows[..k], n);
      assert rows == rows[..k] + [rows[k]];
    }
  }

  lemma {:induction false} RowsAreRows(answer: Answer, j: nat, row: Row)
    ensures HasRow(answer, j, row) <==> j < |RowsOf(answer)| && RowsOf(answer)[j] == row
  {
  }

  /** One answer: an id it names gets its last record there, any other stays as it was. */
  lemma {:induction false} AnswerTeaches(into: Records, answer: Answer, n: int)
    ensures var out := Fold(into, RowsOf(answer));
            (AnswerSilent(answer, n) && SameAt(into, out, n))
            || (!AnswerSilent(answer, n) && n in out && AnswerGives(answer, n, out[n]))
  {
    var rows := RowsOf(answer);
    FoldLearnsLast(into, rows, n);
    LastWithIs(rows, n);
    forall j: nat ensures NamesUser(answer, n, j) <==> j < |rows| && rows[j].id == Some(n) {
      if j < |rows| {
        RowsAreRows(answer, j, rows[j]);
      }
      if NamesUser(answer, n, j) {
        var row :| HasRow(answer, j, row) && row.id == Some(n);
        RowsAreRows(answer, j, row);
      }
    }
    match LastWith(rows, n)
    case None =>
    case Some(i) =>
      RowsAreRows(answer, i, rows[i]);
      assert NamesUser(answer, n, i);
  }

  // ------------------------------------------------------------------ chunks

  function Least(a: nat, b: nat): nat {
    if a < b then a else b
  }

  function Chunks<T>(values: seq<T>, size: nat): (chunks: seq<seq<T>>)
    requires size > 0
    decreases |values|
  {
    if values == [] then []
    else
      var n := Least(size, |values|);
      [values[..n]] + Chunks(values[n..], size)
  }

  predicate Chunked<T>(chunks: seq<seq<T>>, size: nat) {
    forall i :: 0 <= i < |chunks| ==> 1 <= |chunks[i]| <= size
  }

  lemma {:induction false} ChunksPartition<T>(values: seq<T>, size: nat)
    requires size > 0
    ensures Flat(Chunks(values, size)) == values && Chunked(Chunks(values, size), size)
    decreases |values|
  {
    if values != [] {
      var n := Least(size, |values|);
      ChunksPartition(values[n..], size);
      FlatStep(values[..n], Chunks(values[n..], size));
      ChunkedStep(values[..n], Chunks(values[n..], size), size);
      assert values == values[..n] + values[n..];
    }
  }

  lemma {:induction false} ChunkedStep<T>(head: seq<T>, tail: seq<seq<T>>, size: nat)
    requires 1 <= |head| <= size && Chunked(tail, size)
    ensures Chunked([head] + tail, size)
  {
  }

  /** Every chunk but the last has the full size. */
  predicate Full<T>(chunks: seq<seq<T>>, size: nat) {
    forall i :: 0 <= i < |chunks| - 1 ==> |chunks[i]| == size
  }

  lemma {:induction false} ChunksAreFull<T>(values: seq<T>, size: nat)
    requires size > 0
    ensures Full(Chunks(values, size), size)
    decreases |values|
  {
    if |values| > size {
      ChunksAreFull(values[size..], size);
    } else if values != [] {
      assert values[|values|..] == [];
    }
  }

  function From<T>(values: seq<T>, index: nat): seq<T> {
    if index <= |values| then values[index..] else []
  }

  /** `_chunks`: slices at every multiple of the size. */
  method ChunkList<T>(values: seq<T>, size: nat) returns (chunks: seq<seq<T>>)
    requires size > 0
    ensures chunks == Chunks(values, size)
  {
    chunks := [];
    var index := 0;
    CutNone(values, size);
    while index < |values|
      invariant 0 <= index && CutSoFar(chunks, values, size, index)
      decreases |values| - index
    {
      CutOneMore(chunks, values, size, index);
      chunks := chunks + [Slice(values, size, index)];
      index := index + size;
    }
    CutAll(chunks, values, size, index);
  }

  /** `values[index:index + size]`, which stops at the end. */
  function Slice<T>(values: seq<T>, size: nat, index: nat): seq<T>
    requires index <= |values|
  {
    values[index..Least(index + size, |values|)]
  }

  lemma {:induction false} CutNone<T>(values: seq<T>, size: nat)
    requires size > 0
    ensures CutSoFar([], values, size, 0)
  {
    assert From(values, 0) == values;
    assert [] + Chunks(values, size) == Chunks(values, size);
  }

  lemma {:induction false} CutAll<T>(chunks: seq<seq<T>>, values: seq<T>, size: nat, index: nat)
    requires size > 0 && index >= |values| && CutSoFar(chunks, values, size, index)
    ensures chunks == Chunks(values, size)
  {
    assert From(values, index) == [];
    assert chunks + [] == chunks;
  }

  ghost predicate CutSoFar<T>(chunks: seq<seq<T>>, values: seq<T>, size: nat, index: nat)
    requires size > 0
  {
    chunks + Chunks(From(values, index), size) == Chunks(values, size)
  }

  lemma {:induction false} CutOneMore<T>(chunks: seq<seq<T>>, values: seq<T>, size: nat, index: nat)
    requires size > 0 && index < |values| && CutSoFar(chunks, values, size, index)
    ensures CutSoFar(chunks + [Slice(values, size, index)], values, size, index + size)
  {
    var cut, rest := Slice(values, size, index), Chunks(From(values, index + size), size);
    NextChunk(values, size, index);
    AppendThen(chunks, cut, rest);
  }

  lemma {:induction false} NextChunk<T>(values: seq<T>, size: nat, index: nat)
    requires size > 0 && index < |values|
    ensures Chunks(From(values, index), size)
         == [Slice(values, size, index)] + Chunks(From(values, index + size), size)
  {
    var rest := values[index..];
    var n := Least(size, |rest|);
    assert rest[..n] == Slice(values, size, index);
    assert rest[n..] == From(values, index + size);
  }

  // ------------------------------------------------------------------ wanted ids

  /** What a caller may pass as an id; `Odd` is a bool, a fraction or anything else without a number. */
  datatype Loose = Whole(n: int) | Worded(text: string) | Odd

  /** `_as_int`, on ASCII text. */
  function AsInt(v: Loose): Option<int> {
    match v
    case Whole(n) => Some(n)
    case Worded(text) => if AllDigits(Strip(text)) then Some(Decimal(Strip(text))) else None
    case Odd => None
  }

  /** A whole number is itself; a padded numeral of ASCII digits is the number it spells; nothing else is an id. */
  predicate Means(v: Loose, n: int) {
    v == Whole(n) || (v.Worded? && AllDigits(Strip(v.text)) && Decimal(Strip(v.text)) == n)
  }

  predicate Increasing(ids: seq<int>) {
    forall i, j :: 0 <= i < j < |ids| ==> ids[i] < ids[j]
  }

  function Insert(ids: seq<int>, n: int): seq<int> {
    if ids == [] || n < ids[0] then [n] + ids
    else if n == ids[0] then ids
    else [ids[0]] + Insert(ids[1..], n)
  }

  lemma {:induction false} InsertKeeps(ids: seq<int>, n: int)
    requires Increasing(ids)
    ensures Increasing(Insert(ids, n))
    ensures forall x :: x in Insert(ids, n) <==> x in ids || x == n
  {
    if ids != [] && n > ids[0] {
      InsertKeeps(ids[1..], n);
      var tail := Insert(ids[1..], n);
      assert ids == [ids[0]] + ids[1..];
      forall j | 0 <= j < |tail| ensures ids[0] < tail[j] {
        assert tail[j] in tail;
      }
    }
  }

  /** `sorted({...})` of the usable ids. */
  function Wanted(ids: seq<Loose>): seq<int> {
    if ids == [] then []
    else
      var rest := Wanted(ids[1..]);
      match AsInt(ids[0])
      case None => rest
      case Some(n) => Insert(rest, n)
  }

  /** Each usable id is wanted once, in increasing order. */
  lemma {:induction false} WantedIsTheSet(ids: seq<Loose>)
    ensures Increasing(Wanted(ids))
    ensures forall n :: n in Wanted(ids) <==> exists i :: 0 <= i < |ids| && Means(ids[i], n)
  {
    if ids != [] {
      WantedIsTheSet(ids[1..]);
      if AsInt(ids[0]).Some? {
        InsertKeeps(Wanted(ids[1..]), AsInt(ids[0]).value);
      }
      forall n ensures n in Wanted(ids) <==> exists i :: 0 <= i < |ids| && Means(ids[i], n) {
        assert Means(ids[0], n) <==> AsInt(ids[0]) == Some(n);
        if !Means(ids[0], n) && exists i :: 0 <= i < |ids| && Means(ids[i], n) {
          var i :| 0 <= i < |ids| && Means(ids[i], n);
          assert ids[1..][i - 1] == ids[i];
        }
        if j :| 0 <= j < |ids[1..]| && Means(ids[1..][j], n) {
          assert ids[j + 1] == ids[1..][j];
        }
      }
    }
  }

  // ------------------------------------------------------------------ batches

  datatype Command = Command(key: string, ids: seq<int>, adminMode: bool)

  type Call = seq<Command>

  datatype Outcome = Answered(answer: Answer) | Failed(error: Error)

  /** How the portal answers the last batch of a history: it fails whole, or one outcome for each command. */
  datatype Remote = Remote(fails: seq<Call> -> Option<Error>, answers: (seq<Call>, nat) -> Outcome)

  /** The decoded batch: one result for each command, under its key, in order. */
  function Decoded(remote: Remote, history: seq<Call>, call: Call): (results: seq<BatchAnswer.CommandResult<Outcome>>)
    ensures |results| == |call|
  {
    seq(|call|, i requires 0 <= i < |call| => BatchAnswer.CommandResult(call[i].key, remote.answers(history, i)))
  }

  function KeysOf(call: Call): (keys: seq<string>)
    ensures |keys| == |call| && forall i :: 0 <= i < |call| ==> keys[i] == call[i].key
  {
    seq(|call|, i requires 0 <= i < |call| => call[i].key)
  }

  predicate DistinctKeys(call: Call) {
    Distinct(KeysOf(call))
  }

  /** Looking a result up by its key finds the answer given at its own position. */
  lemma {:induction false} ResultOfCommand(remote: Remote, history: seq<Call>, call: Call, i: nat)
    requires i < |call| && DistinctKeys(call)
    ensures BatchAnswer.FindKey(Decoded(remote, history, call), call[i].key) == Some(remote.answers(history, i))
  {
    BatchAnswer.FindKeyAt(Decoded(remote, history, call), i);
  }

  function Key(i: nat): string {
    "u" + Digits(i)
  }

  lemma {:induction false} KeyInjective(i: nat, j: nat)
    requires Key(i) == Key(j)
    ensures i == j
  {
    assert Key(i)[1..] == Digits(i) && Key(j)[1..] == Digits(j);
    DigitsInjective(i, j);
  }

  /** The first pass over one group of chunks. */
  function FirstCall(group: seq<seq<int>>): (call: Call)
    ensures |call| == |group|
    ensures forall i :: 0 <= i < |group| ==> call[i] == Command(Key(i), group[i], true)
  {
    seq(|group|, i requires 0 <= i < |group| => Command(Key(i), group[i], true))
  }

  function RetryOf(group: seq<seq<int>>, i: nat): Command
    requires i < |group|
  {
    Command(Key(i), group[i], false)
  }

  /** The chunks from `i` on that the first pass failed, each once, without ADMIN_MODE. */
  function RetryFrom(remote: Remote, history: seq<Call>, group: seq<seq<int>>, i: nat): Call
    requires i <= |group|
    decreases |group| - i
  {
    if i == |group| then []
    else (if remote.answers(history, i).Failed? then [RetryOf(group, i)] else [])
         + RetryFrom(remote, history, group, i + 1)
  }

  lemma {:induction false} FirstKeysDiffer(group: seq<seq<int>>)
    ensures DistinctKeys(FirstCall(group))
  {
    var call := FirstCall(group);
    forall i, j | 0 <= i < j < |call| ensures call[i].key != call[j].key {
      if Key(i) == Key(j) {
        KeyInjective(i, j);
      }
    }
  }

  /** The keys of a first pass are distinct and never numbers, so its answer is read back faithfully. */
  lemma {:induction false} FirstAnswerIsFaithful(group: seq<seq<int>>)
    ensures var keys := KeysOf(FirstCall(group)); Distinct(keys) && BatchAnswer.Aligned(keys)
  {
    FirstKeysDiffer(group);
    var keys := KeysOf(FirstCall(group));
    forall i | 0 <= i < |keys| ensures keys[i] != "0" {
      assert keys[i] == Key(i) && Key(i)[0] == 'u';
    }
    BatchAnswer.NamedKeysAreAligned(keys);
  }

  ghost predicate RetryShape(group: seq<seq<int>>, i: nat, call: Call) {
    && DistinctKeys(call)
    && forall c :: c in call ==> !c.adminMode && exists k :: i <= k < |group| && c.key == Key(k) && c.ids == group[k]
  }

  lemma {:induction false} RetryKeysDiffer(remote: Remote, history: seq<Call>, group: seq<seq<int>>, i: nat)
    requires i <= |group|
    ensures RetryShape(group, i, RetryFrom(remote, history, group, i))
    decreases |group| - i
  {
    if i < |group| {
      RetryKeysDiffer(remote, history, group, i + 1);
      var tail := RetryFrom(remote, history, group, i + 1);
      forall j | 0 <= j < |tail| ensures tail[j].key != Key(i) {
        assert tail[j] in tail;
        var k :| i + 1 <= k < |group| && tail[j].key == Key(k) && tail[j].ids == group[k];
        if Key(k) == Key(i) {
          KeyInjective(k, i);
        }
      }
    }
  }

  // ------------------------------------------------------------------ what a run is

  /** Every clean answer of one batch from command `i` on, in order. */
  function FoldCall(into: Records, remote: Remote, history: seq<Call>, size: nat, i: nat): Records
    requires i <= size
    decreases size - i
  {
    if i == size then into
    else
      var outcome := remote.answers(history, i);
      FoldCall(if outcome.Answered? then Fold(into, RowsOf(outcome.answer)) else into, remote, history, size, i + 1)
  }

  /** Every clean answer of a run of batches, in order. */
  function FoldCalls(into: Records, remote: Remote, history: seq<Call>, sent: seq<Call>): Records
    decreases |sent|
  {
    if sent == [] then into
    else
      var next := history + [sent[0]];
      FoldCalls(FoldCall(into, remote, next, |sent[0]|, 0), remote, next, sent[1..])
  }

  /** The first pass went through, and whatever failed in it may be ADMIN_MODE's doing. */
  ghost predicate FirstPassed(remote: Remote, history: seq<Call>, group: seq<seq<int>>) {
    remote.fails(history).None? && FirstAnswers(remote, history, group)
  }

  ghost predicate FirstAnswers(remote: Remote, history: seq<Call>, group: seq<seq<int>>) {
    NoneFatal(remote, history, |group|)
  }

  ghost predicate AllAnswered(remote: Remote, history: seq<Call>, call: Call) {
    remote.fails(history).None? && NoneFailed(remote, history, |call|)
  }

  /** One group finished: asked once, and what failed asked once more, all of it answered. */
  ghost predicate GroupDone(remote: Remote, history: seq<Call>, group: seq<seq<int>>, sent: seq<Call>) {
    var first := history + [FirstCall(group)];
    var retry := RetryFrom(remote, first, group, 0);
    && FirstPassed(remote, first, group)
    && if retry == [] then sent == [FirstCall(group)]
       else sent == [FirstCall(group), retry] && AllAnswered(remote, first + [retry], retry)
  }

  /** The error raised is the first one the last batch met: whole, fatal in the first pass, or any in the second. */
  ghost predicate GroupStopped(remote: Remote, history: seq<Call>, group: seq<seq<int>>, sent: seq<Call>, e: Error) {
    var first := history + [FirstCall(group)];
    var retry := RetryFrom(remote, first, group, 0);
    || (sent == [FirstCall(group)] && (remote.fails(first) == Some(e) || FirstFatal(remote, first, |group|, e)))
    || (sent == [FirstCall(group), retry] && FirstPassed(remote, first, group) && retry != []
        && (remote.fails(first + [retry]) == Some(e) || FirstFailed(remote, first + [retry], |retry|, e)))
  }

  /** In command order, everything before the fatal answer was clean or may be ADMIN_MODE's doing. */
  ghost predicate FirstFatal(remote: Remote, history: seq<Call>, size: nat, e: Error) {
    && remote.fails(history).None?
    && e !in {InvalidCredentials, AccessDenied, UserAccess, Unknown, InvalidArg, NotFound}
    && exists i :: 0 <= i < size && remote.answers(history, i) == Failed(e) && NoneFatal(remote, history, i)
  }

  ghost predicate NoneFatal(remote: Remote, history: seq<Call>, i: nat) {
    forall j :: 0 <= j < i && remote.answers(history, j).Failed? ==> Retryable(remote.answers(history, j).error)
  }

  /** In command order, everything before the failure was answered. */
  ghost predicate FirstFailed(remote: Remote, history: seq<Call>, size: nat, e: Error) {
    && remote.fails(history).None?
    && exists i :: 0 <= i < size && remote.answers(history, i) == Failed(e) && NoneFailed(remote, history, i)
  }

  ghost predicate NoneFailed(remote: Remote, history: seq<Call>, i: nat) {
    forall j :: 0 <= j < i ==> remote.answers(history, j).Answered?
  }

  /** Every group finished, one after the other. */
  ghost predicate RunDone(remote: Remote, groups: seq<seq<seq<int>>>, sent: seq<Call>)
    decreases |groups|
  {
    if groups == [] then sent == []
    else
      var k := |groups| - 1;
      exists n :: 0 <= n <= |sent|
        && RunDone(remote, groups[..k], sent[..n]) && GroupDone(remote, sent[..n], groups[k], sent[n..])
  }

  /** Some groups finished and the next one stopped the run. */
  ghost predicate RunStopped(remote: Remote, groups: seq<seq<seq<int>>>, sent: seq<Call>, e: Error) {
    exists k, n :: 0 <= k < |groups| && 0 <= n <= |sent|
      && RunDone(remote, groups[..k], sent[..n]) && GroupStopped(remote, sent[..n], groups[k], sent[n..], e)
  }

  // ------------------------------------------------------------------ the reader

  /** The decoded first pass, where looking up chunk `i` finds the answer to command `i`. */
  method FirstResults(remote: Remote, first: seq<Call>, group: seq<seq<int>>)
    returns (results: seq<BatchAnswer.CommandResult<Outcome>>)
    ensures forall i :: 0 <= i < |group| ==> BatchAnswer.FindKey(results, Key(i)) == Some(remote.answers(first, i))
  {
    results := Decoded(remote, first, FirstCall(group));
    FirstKeysDiffer(group);
    forall i | 0 <= i < |group| ensures BatchAnswer.FindKey(results, Key(i)) == Some(remote.answers(first, i)) {
      ResultOfCommand(remote, first, FirstCall(group), i);
    }
  }

  lemma {:induction false} FoldStep(into: Records, remote: Remote, history: seq<Call>, size: nat, i: nat)
    requires i < size
    ensures match remote.answers(history, i)
            case Answered(answer) =>
              FoldCall(into, remote, history, size, i)
              == FoldCall(Fold(into, RowsOf(answer)), remote, history, size, i + 1)
            case Failed(_) =>
              FoldCall(into, remote, history, size, i) == FoldCall(into, remote, history, size, i + 1)
  {
  }

  lemma {:induction false} RetryStep(retry: Call, remote: Remote, history: seq<Call>, group: seq<seq<int>>, i: nat)
    requires i < |group|
    ensures var next := if remote.answers(history, i).Failed? then retry + [RetryOf(group, i)] else retry;
            retry + RetryFrom(remote, history, group, i) == next + RetryFrom(remote, history, group, i + 1)
  {
    var tail := RetryFrom(remote, history, group, i + 1);
    AppendThen(retry, RetryOf(group, i), tail);
    assert [] + tail == tail;
  }

  /** The first pass: clean answers are folded in, what may be ADMIN_MODE's doing is put aside. */
  method ReadFirst(remote: Remote, first: seq<Call>, group: seq<seq<int>>, into: Records)
    returns (r: Result<Records, Error>, retry: Call)
    requires remote.fails(first).None?
    ensures r.Success? ==> FirstAnswers(remote, first, group) && retry == RetryFrom(remote, first, group, 0)
                           && r.value == FoldCall(into, remote, first, |group|, 0)
    ensures r.Failure? ==> FirstFatal(remote, first, |group|, r.error)
  {
    var results := FirstResults(remote, first, group);
    var resolved := into;
    retry := [];
    for i := 0 to |group|
      invariant FoldCall(resolved, remote, first, |group|, i) == FoldCall(into, remote, first, |group|, 0)
      invariant retry + RetryFrom(remote, first, group, i) == RetryFrom(remote, first, group, 0)
      invariant NoneFatal(remote, first, i)
    {
      FoldStep(resolved, remote, first, |group|, i);
      RetryStep(retry, remote, first, group, i);
      var outcome := BatchAnswer.FindKey(results, Key(i)).value;
      if outcome.Answered? {
        resolved := Collect(resolved, outcome.answer);
      } else if !Retryable(outcome.error) {
        return Failure(outcome.error), retry;
      } else {
        retry := retry + [RetryOf(group, i)];
      }
    }
    r := Success(resolved);
  }

  /** One turn of the outer loop of `fetch_users`. */
  method FetchGroup(remote: Remote, history: seq<Call>, group: seq<seq<int>>, into: Records)
    returns (r: Result<Records, Error>, sent: seq<Call>)
    ensures r.Success? ==> GroupDone(remote, history, group, sent) && r.value == FoldCalls(into, remote, history, sent)
    ensures r.Failure? ==> GroupStopped(remote, history, group, sent, r.error)
  {
    var call := FirstCall(group);
    sent := [call];
    var first := history + [call];
    if remote.fails(first).Some? {
      return Failure(remote.fails(first).value), sent;
    }
    var retry;
    r, retry := ReadFirst(remote, first, group, into);
    if r.Failure? {
      return;
    }
    FoldOne(into, remote, history, call);
    if retry == [] {
      return;
    }
    RetryKeysDiffer(remote, first, group, 0);
    FoldTwo(into, remote, history, call, retry);
    r := FetchRetry(remote, first, retry, r.value);
    sent := [call, retry];
  }

  lemma {:induction false} FoldOne(into: Records, remote: Remote, history: seq<Call>, call: Call)
    ensures FoldCalls(into, remote, history, [call]) == FoldCall(into, remote, history + [call], |call|, 0)
  {
    assert [call][1..] == [];
  }

  lemma {:induction false} FoldTwo(into: Records, remote: Remote, history: seq<Call>, call: Call, retry: Call)
    ensures FoldCalls(into, remote, history, [call, retry])
         == FoldCall(FoldCall(into, remote, history + [call], |call|, 0),
                     remote, history + [call] + [retry], |retry|, 0)
  {
    assert [call, retry][1..] == [retry];
    FoldOne(FoldCall(into, remote, history + [call], |call|, 0), remote, history + [call], retry);
  }

  /** The second pass: every answer must be clean. */
  method FetchRetry(remote: Remote, first: seq<Call>, retry: Call, into: Records) returns (r: Result<Records, Error>)
    requires DistinctKeys(retry)
    ensures r.Success? ==> AllAnswered(remote, first + [retry], retry)
                           && r.value == FoldCall(into, remote, first + [retry], |retry|, 0)
    ensures r.Failure? ==> remote.fails(first + [retry]) == Some(r.error)
                           || FirstFailed(remote, first + [retry], |retry|, r.error)
  {
    var second := first + [retry];
    if remote.fails(second).Some? {
      return Failure(remote.fails(second).value);
    }
    var results := Decoded(remote, second, retry);
    var resolved := into;
    for i := 0 to |retry|
      invariant FoldCall(resolved, remote, second, |retry|, i) == FoldCall(into, remote, second, |retry|, 0)
      invariant NoneFailed(remote, second, i)
    {
      ResultOfCommand(remote, second, retry, i);
      match BatchAnswer.FindKey(results, retry[i].key).value {
        case Answered(answer) => resolved := Collect(resolved, answer);
        case Failed(error) => return Failure(error);
      }
    }
    r := Success(resolved);
  }

  /**
   `fetch_users`. On success every group of chunks was read to the end and the map is the
   fold of every clean answer in the order of the batches; otherwise the error of the last
   batch is raised. `sent` is the log of the batches.
   */
  method FetchUsers(remote: Remote, ids: seq<Loose>) returns (r: Result<Records, Error>, sent: seq<Call>)
    ensures r.Success? ==> RunDone(remote, Groups(ids), sent) && r.value == FoldCalls(map[], remote, [], sent)
    ensures r.Success? ==> Learned(remote, sent, r.value)
    ensures r.Failure? ==> RunStopped(remote, Groups(ids), sent, r.error)
  {
    var wanted := Wanted(ids);
    sent := [];
    if wanted == [] {
      FoldIsLearned(remote, sent);
      return Success(map[]), sent;
    }
    var chunks := ChunkList(wanted, ID_CHUNK);
    var groups := ChunkList(chunks, MAX_COMMANDS_PER_BATCH);
    var resolved: Records := map[];
    for g := 0 to |groups|
      invariant RunDone(remote, groups[..g], sent)
      invariant resolved == FoldCalls(map[], remote, [], sent)
    {
      var more;
      r, more := FetchGroup(remote, sent, groups[g], resolved);
      if r.Failure? {
        StopsHere(remote, groups, g, sent, more, r.error);
        sent := sent + more;
        return;
      }
      RunStep(remote, groups, g, sent, more);
      FoldsOn(remote, sent, more);
      resolved := r.value;
      sent := sent + more;
    }
    assert groups[..|groups|] == groups;
    FoldIsLearned(remote, sent);
    r := Success(resolved);
  }

  lemma {:induction false} StopsHere(remote: Remote, groups: seq<seq<seq<int>>>, g: nat, sent: seq<Call>,
                                     more: seq<Call>, e: Error)
    requires g < |groups| && RunDone(remote, groups[..g], sent) && GroupStopped(remote, sent, groups[g], more, e)
    ensures RunStopped(remote, groups, sent + more, e)
  {
    var n := |sent|;
    assert (sent + more)[..n] == sent && (sent + more)[n..] == more;
  }

  lemma {:induction false} RunStep(remote: Remote, groups: seq<seq<seq<int>>>, g: nat, sent: seq<Call>, more: seq<Call>)
    requires g < |groups| && RunDone(remote, groups[..g], sent) && GroupDone(remote, sent, groups[g], more)
    ensures RunDone(remote, groups[..g + 1], sent + more)
  {
    RunExtends(remote, groups[..g], sent, groups[g], more);
    assert groups[..g] + [groups[g]] == groups[..g + 1];
  }

  lemma {:induction false} FoldsOn(remote: Remote, sent: seq<Call>, more: seq<Call>)
    ensures FoldCalls(map[], remote, [], sent + more)
            == FoldCalls(FoldCalls(map[], remote, [], sent), remote, sent, more)
  {
    assert [] + sent == sent;
    FoldCallsConcat(map[], remote, [], sent, more);
  }

  /** Groups of at most 50 chunks of at most 50 ids. */
  function Groups(ids: seq<Loose>): seq<seq<seq<int>>> {
    Chunks(Chunks(Wanted(ids), ID_CHUNK), MAX_COMMANDS_PER_BATCH)
  }

  lemma {:induction false} FoldCallsConcat(into: Records, remote: Remote, history: seq<Call>, a: seq<Call>,
                                           b: seq<Call>)
    ensures FoldCalls(into, remote, history, a + b)
            == FoldCalls(FoldCalls(into, remote, history, a), remote, history + a, b)
    decreases |a|
  {
    if a == [] {
      assert a + b == b && history + a == history;
    } else {
      var next := history + [a[0]];
      assert (a + b)[1..] == a[1..] + b && (a + b)[0] == a[0];
      FoldCallsConcat(FoldCall(into, remote, next, |a[0]|, 0), remote, next, a[1..], b);
      assert next + a[1..] == history + a;
    }
  }

  lemma {:induction false} RunExtends(remote: Remote, groups: seq<seq<seq<int>>>, sent: seq<Call>,
                                      group: seq<seq<int>>, more: seq<Call>)
    requires RunDone(remote, groups, sent) && GroupDone(remote, sent, group, more)
    ensures RunDone(remote, groups + [group], sent + more)
  {
    var n := |sent|;
    assert (sent + more)[..n] == sent && (sent + more)[n..] == more && (groups + [group])[..|groups|] == groups;
  }

  /** The last group's part of a run. */
  lemma {:induction false} RunSplits(remote: Remote, groups: seq<seq<seq<int>>>, sent: seq<Call>)
    returns (init: seq<Call>, last: seq<Call>)
    requires groups != [] && RunDone(remote, groups, sent)
    ensures sent == init + last
    ensures RunDone(remote, groups[..|groups| - 1], init) && GroupDone(remote, init, groups[|groups| - 1], last)
  {
    var k := |groups| - 1;
    var n :| 0 <= n <= |sent| && RunDone(remote, groups[..k], sent[..n])
             && GroupDone(remote, sent[..n], groups[k], sent[n..]);
    init, last := sent[..n], sent[n..];
  }

  // ------------------------------------------------------------------ who was asked, how often

  /** The ids asked for with or without ADMIN_MODE, in order. */
  function Asked(call: Call, adminMode: bool): seq<int> {
    if call == [] then []
    else (if call[0].adminMode == adminMode then call[0].ids else []) + Asked(call[1..], adminMode)
  }

  function AskedIn(sent: seq<Call>, adminMode: bool): seq<int> {
    if sent == [] then [] else Asked(sent[0], adminMode) + AskedIn(sent[1..], adminMode)
  }

  lemma {:induction false} AskedFirst(group: seq<seq<int>>, call: Call)
    requires |call| == |group| && forall i :: 0 <= i < |group| ==> call[i].adminMode && call[i].ids == group[i]
    ensures Asked(call, true) == Flat(group) && Asked(call, false) == []
  {
    if group != [] {
      AskedFirst(group[1..], call[1..]);
    }
  }

  lemma {:induction false} AskedRetry(remote: Remote, history: seq<Call>, group: seq<seq<int>>, i: nat)
    requires i <= |group|
    ensures var call := RetryFrom(remote, history, group, i);
            Asked(call, true) == [] && multiset(Asked(call, false)) <= multiset(Flat(group[i..]))
    decreases |group| - i
  {
    if i < |group| {
      AskedRetry(remote, history, group, i + 1);
      var tail := RetryFrom(remote, history, group, i + 1);
      assert ([RetryOf(group, i)] + tail)[1..] == tail && [] + tail == tail;
      assert Asked([RetryOf(group, i)] + tail, false) == group[i] + Asked(tail, false);
      assert Asked([RetryOf(group, i)] + tail, true) == Asked(tail, true);
      assert group[i..][1..] == group[i + 1..];
      assert multiset(Flat(group[i..])) == multiset(group[i]) + multiset(Flat(group[i + 1..]));
    }
  }

  /** The batches of one group, however it ended. */
  ghost predicate GroupSends(remote: Remote, history: seq<Call>, group: seq<seq<int>>, sent: seq<Call>) {
    var retry := RetryFrom(remote, history + [FirstCall(group)], group, 0);
    sent == [FirstCall(group)] || (retry != [] && sent == [FirstCall(group), retry])
  }

  /** A run that returned or raised. */
  ghost predicate RunSends(remote: Remote, ids: seq<Loose>, sent: seq<Call>) {
    RunDone(remote, Groups(ids), sent) || exists e :: RunStopped(remote, Groups(ids), sent, e)
  }

  lemma {:induction false} StoppedSplits(remote: Remote, groups: seq<seq<seq<int>>>, sent: seq<Call>, e: Error)
    returns (k: nat, init: seq<Call>, last: seq<Call>)
    requires RunStopped(remote, groups, sent, e)
    ensures k < |groups| && sent == init + last
    ensures RunDone(remote, groups[..k], init) && GroupSends(remote, init, groups[k], last)
  {
    var k', n :| 0 <= k' < |groups| && 0 <= n <= |sent| && RunDone(remote, groups[..k'], sent[..n])
                 && GroupStopped(remote, sent[..n], groups[k'], sent[n..], e);
    k, init, last := k', sent[..n], sent[n..];
  }

  lemma {:induction false} AskedByGroup(remote: Remote, history: seq<Call>, group: seq<seq<int>>, sent: seq<Call>)
    requires GroupSends(remote, history, group, sent)
    ensures AskedIn(sent, true) == Flat(group)
    ensures multiset(AskedIn(sent, false)) <= multiset(Flat(group))
  {
    AskedFirst(group, FirstCall(group));
    var retry := RetryFrom(remote, history + [FirstCall(group)], group, 0);
    AskedRetry(remote, history + [FirstCall(group)], group, 0);
    assert group[0..] == group;
    AskedInFew(FirstCall(group), retry);
    assert multiset(Asked(retry, false)) <= multiset(Flat(group));
  }

  lemma {:induction false} AskedInFew(call: Call, retry: Call)
    ensures forall mode :: AskedIn([call], mode) == Asked(call, mode)
    ensures forall mode :: AskedIn([call, retry], mode) == Asked(call, mode) + Asked(retry, mode)
  {
    forall mode ensures AskedIn([call], mode) == Asked(call, mode)
                     && AskedIn([call, retry], mode) == Asked(call, mode) + Asked(retry, mode) {
      assert [call][1..] == [] && [call, retry][1..] == [retry] && [retry][1..] == [];
    }
  }

  lemma {:induction false} AskedConcat(a: seq<Call>, b: seq<Call>, adminMode: bool)
    ensures AskedIn(a + b, adminMode) == AskedIn(a, adminMode) + AskedIn(b, adminMode)
  {
    if a == [] {
      assert a + b == b;
    } else {
      assert (a + b)[1..] == a[1..] + b;
      AskedConcat(a[1..], b, adminMode);
    }
  }

  lemma {:induction false} AskedByRun(remote: Remote, groups: seq<seq<seq<int>>>, sent: seq<Call>)
    requires RunDone(remote, groups, sent)
    ensures AskedIn(sent, true) == Flat(Flat(groups))
    ensures multiset(AskedIn(sent, false)) <= multiset(Flat(Flat(groups)))
    decreases |groups|
  {
    if groups != [] {
      var init, last := RunSplits(remote, groups, sent);
      var k := |groups| - 1;
      AskedByRun(remote, groups[..k], init);
      AskedByGroup(remote, init, groups[k], last);
      AskedTogether(init, last, Flat(Flat(groups[..k])), Flat(groups[k]));
      FlatFlat(groups);
    }
  }

  lemma {:induction false} FlatFlat(groups: seq<seq<seq<int>>>)
    requires groups != []
    ensures Flat(Flat(groups)) == Flat(Flat(groups[..|groups| - 1])) + Flat(groups[|groups| - 1])
  {
    var k := |groups| - 1;
    var init, last := groups[..k], groups[k];
    assert groups == init + [last] && [last][1..] == [];
    FlatConcat(init, [last]);
    assert Flat([last]) == last;
    FlatConcat(Flat(init), last);
  }

  /** A run that stopped asked for the ids of the groups it reached, and no others. */
  lemma {:induction false} AskedByStopped(remote: Remote, groups: seq<seq<seq<int>>>, sent: seq<Call>, e: Error)
    requires RunStopped(remote, groups, sent, e)
    ensures AskedIn(sent, true) <= Flat(Flat(groups))
    ensures multiset(AskedIn(sent, false)) <= multiset(Flat(Flat(groups)))
  {
    var k, init, last := StoppedSplits(remote, groups, sent, e);
    AskedByRun(remote, groups[..k], init);
    AskedByGroup(remote, init, groups[k], last);
    AskedTogether(init, last, Flat(Flat(groups[..k])), Flat(groups[k]));
    UpToIsPrefix(groups, k);
    PrefixIsPart(Flat(Flat(groups[..k])) + Flat(groups[k]), Flat(Flat(groups)));
  }

  lemma {:induction false} AskedTogether(init: seq<Call>, last: seq<Call>, before: seq<int>, here: seq<int>)
    requires AskedIn(init, true) == before && AskedIn(last, true) == here
    requires multiset(AskedIn(init, false)) <= multiset(before) && multiset(AskedIn(last, false)) <= multiset(here)
    ensures AskedIn(init + last, true) == before + here
    ensures multiset(AskedIn(init + last, false)) <= multiset(before + here)
  {
    AskedConcat(init, last, true);
    AskedConcat(init, last, false);
  }

  lemma {:induction false} UpToIsPrefix(groups: seq<seq<seq<int>>>, k: nat)
    requires k < |groups|
    ensures Flat(Flat(groups[..k])) + Flat(groups[k]) <= Flat(Flat(groups))
  {
    assert groups[..k + 1][..k] == groups[..k];
    FlatFlat(groups[..k + 1]);
    PrefixOfFlat(groups, k + 1);
  }

  lemma {:induction false} PrefixOfFlat(groups: seq<seq<seq<int>>>, k: nat)
    requires k <= |groups|
    ensures Flat(Flat(groups[..k])) <= Flat(Flat(groups))
  {
    assert groups == groups[..k] + groups[k..];
    FlatConcat(groups[..k], groups[k..]);
    FlatConcat(Flat(groups[..k]), Flat(groups[k..]));
  }

  lemma {:induction false} PrefixIsPart(a: seq<int>, b: seq<int>)
    requires a <= b
    ensures multiset(a) <= multiset(b)
  {
    assert b == a + b[|a|..];
  }

  /**
   Whether it returns or raises, a run asks for every distinct wanted id at most once in the
   first pass, in increasing order, and at most once more without ADMIN_MODE; on a normal
   return the first pass asked for all of them.
   */
  lemma {:induction false} EveryIdIsAskedOnce(remote: Remote, ids: seq<Loose>, sent: seq<Call>)
    requires RunSends(remote, ids, sent)
    ensures AskedIn(sent, true) <= Wanted(ids) && Increasing(Wanted(ids))
    ensures RunDone(remote, Groups(ids), sent) ==> AskedIn(sent, true) == Wanted(ids)
    ensures forall n :: multiset(AskedIn(sent, false))[n] <= if n in Wanted(ids) then 1 else 0
  {
    if RunDone(remote, Groups(ids), sent) {
      AskedByRun(remote, Groups(ids), sent);
    } else {
      var e :| RunStopped(remote, Groups(ids), sent, e);
      AskedByStopped(remote, Groups(ids), sent, e);
    }
    GroupsPartition(ids);
    WantedIsTheSet(ids);
    IncreasingIsOnce(Wanted(ids));
  }

  lemma {:induction false} GroupsPartition(ids: seq<Loose>)
    ensures Flat(Flat(Groups(ids))) == Wanted(ids)
  {
    ChunksPartition(Chunks(Wanted(ids), ID_CHUNK), MAX_COMMANDS_PER_BATCH);
    ChunksPartition(Wanted(ids), ID_CHUNK);
  }

  lemma {:induction false} IncreasingIsOnce(ids: seq<int>)
    requires Increasing(ids)
    ensures forall n :: multiset(ids)[n] == if n in ids then 1 else 0
  {
    if ids != [] {
      IncreasingIsOnce(ids[1..]);
      assert ids == [ids[0]] + ids[1..];
    }
  }

  /** No batch has more than 50 commands, no command more than 50 ids, and no two commands share a key. */
  ghost predicate Sendable(call: Call) {
    && 1 <= |call| <= 50 && DistinctKeys(call)
    && forall c :: c in call ==> 1 <= |c.ids| <= 50
  }

  lemma {:induction false} GroupsAreSmall(ids: seq<Loose>)
    ensures forall g :: g in Groups(ids) ==> 1 <= |g| <= MAX_COMMANDS_PER_BATCH && Chunked(g, ID_CHUNK)
  {
    var chunks := Chunks(Wanted(ids), ID_CHUNK);
    ChunksPartition(Wanted(ids), ID_CHUNK);
    ChunksPartition(chunks, MAX_COMMANDS_PER_BATCH);
    FlatOfChunked(Groups(ids), ID_CHUNK);
  }

  /** The wanted ids are asked for 50 to a command and 50 commands to a batch; only the last of either holds fewer. */
  lemma {:induction false} GroupsAreFull(ids: seq<Loose>)
    ensures Full(Groups(ids), 50) && Full(Flat(Groups(ids)), 50)
    ensures Flat(Flat(Groups(ids))) == Wanted(ids)
  {
    var chunks := Chunks(Wanted(ids), ID_CHUNK);
    ChunksPartition(Wanted(ids), ID_CHUNK);
    ChunksPartition(chunks, MAX_COMMANDS_PER_BATCH);
    ChunksAreFull(Wanted(ids), ID_CHUNK);
    ChunksAreFull(chunks, MAX_COMMANDS_PER_BATCH);
  }

  /** A run that returns sends one batch for each group, or two. */
  lemma {:induction false} BatchesOfRun(remote: Remote, groups: seq<seq<seq<int>>>, sent: seq<Call>)
    requires RunDone(remote, groups, sent)
    ensures |groups| <= |sent| <= 2 * |groups|
    decreases |groups|
  {
    if groups != [] {
      var k := |groups| - 1;
      var n :| 0 <= n <= |sent| && RunDone(remote, groups[..k], sent[..n])
               && GroupDone(remote, sent[..n], groups[k], sent[n..]);
      BatchesOfRun(remote, groups[..k], sent[..n]);
    }
  }

  lemma {:induction false} FlatOfChunked(groups: seq<seq<seq<int>>>, size: nat)
    requires Chunked(Flat(groups), size)
    ensures forall g :: g in groups ==> Chunked(g, size)
  {
    if groups != [] {
      var head, tail := groups[0], Flat(groups[1..]);
      assert forall i :: 0 <= i < |head| ==> head[i] == Flat(groups)[i];
      assert forall i :: 0 <= i < |tail| ==> tail[i] == Flat(groups)[|head| + i];
      FlatOfChunked(groups[1..], size);
    }
  }

  lemma {:induction false} RetryIsNoLonger(remote: Remote, history: seq<Call>, group: seq<seq<int>>, i: nat)
    requires i <= |group|
    ensures |RetryFrom(remote, history, group, i)| <= |group| - i
    decreases |group| - i
  {
    if i < |group| {
      RetryIsNoLonger(remote, history, group, i + 1);
    }
  }

  lemma {:induction false} GroupIsSendable(remote: Remote, history: seq<Call>, group: seq<seq<int>>, sent: seq<Call>)
    requires 1 <= |group| <= MAX_COMMANDS_PER_BATCH && Chunked(group, ID_CHUNK)
    requires GroupSends(remote, history, group, sent)
    ensures forall call :: call in sent ==> Sendable(call)
  {
    var first := history + [FirstCall(group)];
    FirstKeysDiffer(group);
    RetryKeysDiffer(remote, first, group, 0);
    RetryIsNoLonger(remote, first, group, 0);
    assert Sendable(FirstCall(group));
  }

  /** Every batch of a normal return fits the limits. */
  lemma {:induction false} EveryBatchFits(remote: Remote, groups: seq<seq<seq<int>>>, sent: seq<Call>)
    requires RunDone(remote, groups, sent)
    requires forall g :: g in groups ==> 1 <= |g| <= MAX_COMMANDS_PER_BATCH && Chunked(g, ID_CHUNK)
    ensures forall call :: call in sent ==> Sendable(call)
    decreases |groups|
  {
    if groups != [] {
      var init, last := RunSplits(remote, groups, sent);
      var k := |groups| - 1;
      assert groups[k] in groups;
      GroupIsSendable(remote, init, groups[k], last);
      EveryBatchFits(remote, groups[..k], init);
    }
  }

  /** Every batch a run sends, whether it returns or raises, fits the documented limits. */
  lemma {:induction false} FetchFits(remote: Remote, ids: seq<Loose>, sent: seq<Call>)
    requires RunSends(remote, ids, sent)
    ensures forall call :: call in sent ==> Sendable(call)
  {
    GroupsAreSmall(ids);
    var groups := Groups(ids);
    if RunDone(remote, groups, sent) {
      EveryBatchFits(remote, groups, sent);
    } else {
      var e :| RunStopped(remote, groups, sent, e);
      var k, init, last := StoppedSplits(remote, groups, sent, e);
      assert groups[k] in groups;
      EveryBatchFits(remote, groups[..k], init);
      GroupIsSendable(remote, init, groups[k], last);
    }
  }

  // ------------------------------------------------------------------ what was learned

  /** Command `i` of a batch was answered, and its answer names the id. */
  ghost predicate CommandNames(remote: Remote, history: seq<Call>, i: nat, n: int) {
    remote.answers(history, i).Answered? && !AnswerSilent(remote.answers(history, i).answer, n)
  }

  /** The batch's last command whose answer names the id, among those from `from` on, and its last record there. */
  ghost predicate CallGives(remote: Remote, history: seq<Call>, size: nat, from: nat, n: int, row: Row) {
    exists i :: from <= i < size && CommandGives(remote, history, i, n, row)
                && forall k :: i < k < size ==> !CommandNames(remote, history, k, n)
  }

  ghost predicate CommandGives(remote: Remote, history: seq<Call>, i: nat, n: int, row: Row) {
    remote.answers(history, i).Answered? && AnswerGives(remote.answers(history, i).answer, n, row)
  }

  ghost predicate CallSilent(remote: Remote, history: seq<Call>, size: nat, from: nat, n: int) {
    forall i :: from <= i < size ==> !CommandNames(remote, history, i, n)
  }

  lemma {:induction false} CallTeaches(into: Records, remote: Remote, history: seq<Call>, size: nat, from: nat, n: int)
    requires from <= size
    ensures var out := FoldCall(into, remote, history, size, from);
            || (CallSilent(remote, history, size, from, n) && SameAt(into, out, n))
            || (!CallSilent(remote, history, size, from, n) && n in out
                && CallGives(remote, history, size, from, n, out[n]))
    decreases size - from
  {
    if from < size {
      var outcome := remote.answers(history, from);
      var next := if outcome.Answered? then Fold(into, RowsOf(outcome.answer)) else into;
      if outcome.Answered? {
        AnswerTeaches(into, outcome.answer, n);
      }
      CallTeaches(next, remote, history, size, from + 1, n);
      var out := FoldCall(next, remote, history, size, from + 1);
      if CallSilent(remote, history, size, from + 1, n) {
        if CommandNames(remote, history, from, n) {
          assert CommandGives(remote, history, from, n, out[n]);
        }
      } else {
        var i :| from + 1 <= i < size && CommandGives(remote, history, i, n, out[n])
                 && forall k :: i < k < size ==> !CommandNames(remote, history, k, n);
        var named :| from + 1 <= named < size && CommandNames(remote, history, named, n);
        assert CallGives(remote, history, size, from, n, out[n]);
      }
    }
  }

  /** Batch `k` of a run has an answer that names the id. */
  ghost predicate BatchNames(remote: Remote, sent: seq<Call>, k: nat, n: int)
    requires k < |sent|
  {
    !CallSilent(remote, sent[..k + 1], |sent[k]|, 0, n)
  }

  ghost predicate RunNames(remote: Remote, sent: seq<Call>, n: int) {
    exists k :: 0 <= k < |sent| && BatchNames(remote, sent, k, n)
  }

  /** The record is the last one for the id: in the last batch, the last command and the last row that have it. */
  ghost predicate RunGives(remote: Remote, sent: seq<Call>, n: int, row: Row) {
    exists k :: 0 <= k < |sent| && BatchGives(remote, sent, k, n, row)
                && forall l :: k < l < |sent| ==> !BatchNames(remote, sent, l, n)
  }

  ghost predicate BatchGives(remote: Remote, sent: seq<Call>, k: nat, n: int, row: Row)
    requires k < |sent|
  {
    CallGives(remote, sent[..k + 1], |sent[k]|, 0, n, row)
  }

  lemma {:induction false} RunTeaches(remote: Remote, sent: seq<Call>, n: int)
    ensures var out := FoldCalls(map[], remote, [], sent);
            (!RunNames(remote, sent, n) && n !in out)
            || (RunNames(remote, sent, n) && n in out && RunGives(remote, sent, n, out[n]))
    decreases |sent|
  {
    if sent != [] {
      var m := |sent| - 1;
      var init, last := sent[..m], sent[m];
      var before := FoldCalls(map[], remote, [], init);
      RunTeaches(remote, init, n);
      assert sent == init + [last] && sent[..m + 1] == sent;
      FoldsOn(remote, init, [last]);
      FoldOne(before, remote, init, last);
      CallTeaches(before, remote, sent, |last|, 0, n);
      EarlierBatches(remote, sent, n);
      var out := FoldCalls(map[], remote, [], sent);
      if BatchNames(remote, sent, m, n) {
        assert BatchGives(remote, sent, m, n, out[n]);
        assert RunGives(remote, sent, n, out[n]);
      } else if RunNames(remote, init, n) {
        EarlierGives(remote, sent, n, before[n]);
      }
    }
  }

  lemma {:induction false} EarlierBatches(remote: Remote, sent: seq<Call>, n: int)
    requires sent != []
    ensures forall k :: 0 <= k < |sent| - 1 ==>
              (BatchNames(remote, sent, k, n) <==> BatchNames(remote, sent[..|sent| - 1], k, n))
    ensures RunNames(remote, sent, n) <==>
              RunNames(remote, sent[..|sent| - 1], n) || BatchNames(remote, sent, |sent| - 1, n)
  {
    var init := sent[..|sent| - 1];
    forall k | 0 <= k < |init| ensures BatchNames(remote, sent, k, n) <==> BatchNames(remote, init, k, n) {
      assert sent[..k + 1] == init[..k + 1] && sent[k] == init[k];
    }
    if k :| 0 <= k < |init| && BatchNames(remote, init, k, n) {
      assert BatchNames(remote, sent, k, n);
    }
  }

  lemma {:induction false} EarlierGives(remote: Remote, sent: seq<Call>, n: int, row: Row)
    requires sent != [] && !BatchNames(remote, sent, |sent| - 1, n)
    requires RunGives(remote, sent[..|sent| - 1], n, row)
    ensures RunGives(remote, sent, n, row)
  {
    var init := sent[..|sent| - 1];
    EarlierBatches(remote, sent, n);
    var k :| 0 <= k < |init| && BatchGives(remote, init, k, n, row)
             && forall l :: k < l < |init| ==> !BatchNames(remote, init, l, n);
    assert sent[..k + 1] == init[..k + 1] && sent[k] == init[k];
    assert BatchGives(remote, sent, k, n, row);
  }

  /**
   What a normal return has learned: an id is in the map if and only if some clean answer of
   the run holds a row with it, and its record is the last such row, in the order of the
   batches, their commands and their rows.
   */
  ghost predicate Learned(remote: Remote, sent: seq<Call>, users: Records) {
    forall n :: (n in users <==> RunNames(remote, sent, n)) && (n in users ==> RunGives(remote, sent, n, users[n]))
  }

  lemma {:induction false} FoldIsLearned(remote: Remote, sent: seq<Call>)
    ensures Learned(remote, sent, FoldCalls(map[], remote, [], sent))
  {
    forall n
      ensures var out := FoldCalls(map[], remote, [], sent);
              (n in out <==> RunNames(remote, sent, n)) && (n in out ==> RunGives(remote, sent, n, out[n]))
    {
      RunTeaches(remote, sent, n);
    }
  }

  // ------------------------------------------------------------------ no error is swallowed

  ghost predicate FailedAt(remote: Remote, sent: seq<Call>, k: nat, i: nat) {
    k < |sent| && i < |sent[k]| && remote.answers(sent[..k + 1], i).Failed?
  }

  ghost predicate AnsweredAt(remote: Remote, sent: seq<Call>, k: nat, i: nat, c: Command) {
    k < |sent| && i < |sent[k]| && sent[k][i] == c && remote.answers(sent[..k + 1], i).Answered?
  }

  /** A failure ADMIN_MODE may be blamed for, asked again by the next batch without it, and answered. */
  ghost predicate Excused(remote: Remote, sent: seq<Call>, k: nat, i: nat) {
    && FailedAt(remote, sent, k, i)
    && remote.answers(sent[..k + 1], i).error
         in {InvalidCredentials, AccessDenied, UserAccess, Unknown, InvalidArg, NotFound}
    && sent[k][i].adminMode
    && AnsweredIn(remote, sent, k + 1, sent[k][i].(adminMode := false))
  }

  ghost predicate AnsweredIn(remote: Remote, sent: seq<Call>, k: nat, c: Command) {
    exists j :: AnsweredAt(remote, sent, k, j, c)
  }

  lemma {:induction false} RetryHolds(remote: Remote, history: seq<Call>, group: seq<seq<int>>, from: nat, i: nat)
    requires from <= i < |group| && remote.answers(history, i).Failed?
    ensures RetryOf(group, i) in RetryFrom(remote, history, group, from)
    decreases i - from
  {
    if from < i {
      RetryHolds(remote, history, group, from + 1, i);
    }
  }

  /** The batches of the last group, as batches of the whole run. */
  lemma {:induction false} LastPart(init: seq<Call>, last: seq<Call>, k: nat)
    requires |init| <= k < |init| + |last|
    ensures (init + last)[k] == last[k - |init|] && (init + last)[..k + 1] == init + last[..k - |init| + 1]
  {
  }

  lemma {:induction false} FailsInFirst(remote: Remote, init: seq<Call>, group: seq<seq<int>>, last: seq<Call>,
                                        k: nat, i: nat)
    requires GroupDone(remote, init, group, last) && k < |last| && FailedAt(remote, init + last, |init| + k, i)
    ensures k == 0
  {
    LastPart(init, last, |init| + k);
    if |last| == 2 {
      assert last[..2] == last && init + last == init + [last[0]] + [last[1]];
    }
  }

  lemma {:induction false} GroupSwallowsNothing(remote: Remote, init: seq<Call>, group: seq<seq<int>>,
                                                last: seq<Call>, i: nat)
    requires GroupDone(remote, init, group, last) && FailedAt(remote, init + last, |init|, i)
    ensures Excused(remote, init + last, |init|, i)
  {
    var first := init + [FirstCall(group)];
    var retry := RetryFrom(remote, first, group, 0);
    LastPart(init, last, |init|);
    assert init + last[..1] == first;
    RetryHolds(remote, first, group, 0, i);
    var j :| 0 <= j < |retry| && retry[j] == RetryOf(group, i);
    LastPart(init, last, |init| + 1);
    assert init + last[..2] == first + [retry];
    assert AnsweredAt(remote, init + last, |init| + 1, j, RetryOf(group, i));
  }

  lemma {:induction false} EarlierPart(remote: Remote, init: seq<Call>, last: seq<Call>, k: nat, i: nat)
    requires k < |init|
    ensures FailedAt(remote, init + last, k, i) == FailedAt(remote, init, k, i)
    ensures Excused(remote, init, k, i) ==> Excused(remote, init + last, k, i)
  {
    var sent := init + last;
    assert sent[..k + 1] == init[..k + 1] && sent[k] == init[k];
    if Excused(remote, init, k, i) {
      var c := init[k][i].(adminMode := false);
      var j :| AnsweredAt(remote, init, k + 1, j, c);
      assert sent[..k + 2] == init[..k + 2] && sent[k + 1] == init[k + 1];
      assert AnsweredAt(remote, sent, k + 1, j, c);
    }
  }

  /** On a normal return every failure was excused: no chunk's error is swallowed. */
  lemma {:induction false} NoErrorIsSwallowed(remote: Remote, groups: seq<seq<seq<int>>>, sent: seq<Call>, k: nat,
                                              i: nat)
    requires RunDone(remote, groups, sent) && FailedAt(remote, sent, k, i)
    ensures Excused(remote, sent, k, i)
    decreases |groups|
  {
    var init, last := RunSplits(remote, groups, sent);
    var g := |groups| - 1;
    if k < |init| {
      EarlierPart(remote, init, last, k, i);
      NoErrorIsSwallowed(remote, groups[..g], init, k, i);
    } else {
      FailsInFirst(remote, init, groups[g], last, k - |init|, i);
      GroupSwallowsNothing(remote, init, groups[g], last, i);
    }
  }
}
