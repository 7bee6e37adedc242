/**
 The answer half of `batch` in `bitrix/client.py`: the maps of a response, read back by
 command key or by position, as an ordered list of outcomes.
 */
module BatchAnswer {
  import opened Wrappers
  import opened Seqs
  import opened PhpArrays

  // ------------------------------------------------------------------ one command among the results

  datatype CommandResult<T> = CommandResult(key: string, outcome: T)

  /** `BatchResult._find`. */
  function FindKey<T>(results: seq<CommandResult<T>>, key: string): Option<T> {
    if results == [] then None
    else if results[0].key == key then Some(results[0].outcome)
    else FindKey(results[1..], key)
  }

  /** Keys are distinct, so looking one up finds its own position. */
  lemma {:induction false} FindKeyAt<T>(results: seq<CommandResult<T>>, i: nat)
    requires i < |results| && forall j :: 0 <= j < i ==> results[j].key != results[i].key
    ensures FindKey(results, results[i].key) == Some(results[i].outcome)
  {
    if i > 0 {
      FindKeyAt(results[1..], i - 1);
    }
  }

  lemma {:induction false} FindKeyNone<T>(results: seq<CommandResult<T>>, key: string)
    requires forall j :: 0 <= j < |results| ==> results[j].key != key
    ensures FindKey(results, key) == None
  {
    if results != [] {
      FindKeyNone(results[1..], key);
    }
  }

  // ------------------------------------------------------------------ the maps of the response

  /** A `result_*` member after JSON decoding. */
  datatype Container<T> =
    | Keyed(entries: map<string, T>)
    | Positional(items: seq<T>)
    | Neither

  /** `_pick`. */
  function Pick<T>(container: Container<T>, key: string, index: nat): Option<T> {
    match container
    case Keyed(entries) => if key in entries then Some(entries[key]) else None
    case Positional(items) => if index < |items| then Some(items[index]) else None
    case Neither => None
  }

  /** What the portal means to send: a PHP array, its distinct keys in order. */
  type PhpArray<T> = seq<(string, T)>

  /** Its keys are 0, 1, 2, ...: PHP writes it as a JSON list. The empty one is, too. */
  predicate IsList<T>(table: PhpArray<T>) {
    forall i :: 0 <= i < |table| ==> table[i].0 == Digits(i)
  }

  function Values<T>(table: PhpArray<T>): (items: seq<T>)
    ensures |items| == |table|
    ensures forall i :: 0 <= i < |table| ==> items[i] == table[i].1
  {
    seq(|table|, i requires 0 <= i < |table| => table[i].1)
  }

  function Entries<T>(table: PhpArray<T>): map<string, T> {
    if table == [] then map[] else Entries(table[1..])[table[0].0 := table[0].1]
  }

  function Json<T>(table: PhpArray<T>): Container<T> {
    if IsList(table) then Positional(Values(table)) else Keyed(Entries(table))
  }

  /** The value meant for a key. */
  function Meant<T>(table: PhpArray<T>, key: string): Option<T> {
    if table == [] then None
    else if table[0].0 == key then Some(table[0].1)
    else Meant(table[1..], key)
  }

  lemma {:induction false} MeantIsEntry<T>(table: PhpArray<T>, key: string)
    ensures Pick(Keyed(Entries(table)), key, 0) == Meant(table, key)
  {
    if table != [] {
      MeantIsEntry(table[1..], key);
    }
  }

  lemma {:induction false} MeantAt<T>(table: PhpArray<T>, i: nat)
    requires i < |table| && forall j :: 0 <= j < i ==> table[j].0 != table[i].0
    ensures Meant(table, table[i].0) == Some(table[i].1)
  {
    if i > 0 {
      MeantAt(table[1..], i - 1);
    }
  }

  lemma {:induction false} MeantNone<T>(table: PhpArray<T>, key: string)
    requires forall j :: 0 <= j < |table| ==> table[j].0 != key
    ensures Meant(table, key) == None
  {
    if table != [] {
      MeantNone(table[1..], key);
    }
  }

  // ------------------------------------------------------------------ when the list shape is harmless

  /** Only commands of the request are answered. */
  predicate Answers<T>(table: PhpArray<T>, keys: seq<string>) {
    forall i :: 0 <= i < |table| ==> table[i].0 in keys
  }

  predicate Counts(keys: seq<string>, m: nat) {
    forall j :: 0 <= j < m ==> Digits(j) in keys
  }

  predicate InPlace(keys: seq<string>, j: nat) {
    j < |keys| && keys[j] == Digits(j)
  }

  /** Whenever 0, 1, ..., m-1 are all command keys, they are the first m of them, in order. */
  ghost predicate Aligned(keys: seq<string>) {
    forall m: nat, j: nat :: Counts(keys, m) && j < m ==> InPlace(keys, j)
  }

  /** The two shapes are read alike: every command gets the value meant for its key. */
  lemma {:induction false} PickIsMeant<T>(table: PhpArray<T>, keys: seq<string>, i: nat)
    requires Distinct(keys) && Aligned(keys) && Answers(table, keys) && i < |keys|
    ensures Pick(Json(table), keys[i], i) == Meant(table, keys[i])
  {
    if IsList(table) {
      var m := |table|;
      assert Counts(keys, m) by {
        forall j | 0 <= j < m ensures Digits(j) in keys {
          assert table[j].0 in keys;
        }
      }
      forall j | 0 <= j < m ensures j < |keys| && table[j].0 == keys[j] {
        assert InPlace(keys, j);
      }
      if i < m {
        MeantAt(table, i);
      } else {
        MeantNone(table, keys[i]);
      }
    } else {
      MeantIsEntry(table, keys[i]);
    }
  }

  /** The array 0 => 0, 1 => 1, ... */
  function Counting(m: nat): (table: PhpArray<nat>)
    ensures |table| == m
    ensures forall i :: 0 <= i < m ==> table[i] == (Digits(i), i)
  {
    seq(m, i requires 0 <= i < m => (Digits(i), i))
  }

  /** And the condition is exact: for keys out of place some answer reaches the wrong command. */
  lemma {:induction false} MisalignedIsMisread(keys: seq<string>) returns (table: PhpArray<nat>, i: nat)
    requires Distinct(keys) && !Aligned(keys)
    ensures Answers(table, keys) && i < |keys|
    ensures Pick(Json(table), keys[i], i) != Meant(table, keys[i])
  {
    var m: nat, j: nat :| Counts(keys, m) && j < m && !InPlace(keys, j);
    table := Counting(m);
    i :| 0 <= i < |keys| && keys[i] == Digits(j);
    assert table[j].0 == Digits(j);
    forall k | 0 <= k < j ensures table[k].0 != table[j].0 {
      if Digits(k) == Digits(j) {
        DigitsInjective(k, j);
      }
    }
    MeantAt(table, j);
  }

  // ------------------------------------------------------------------ the ordered result

  /** One command's outcome: an error when there is one, its result, if any, otherwise. */
  datatype Outcome<V, E> = Returned(value: Option<V>) | Failed(error: E)

  function OutcomeAt<V, E>(results: Container<V>, errors: Container<E>, key: string, index: nat): Outcome<V, E> {
    var error := Pick(errors, key, index);
    if error.Some? then Failed(error.value) else Returned(Pick(results, key, index))
  }

  /** The loop of `batch` that builds the `commands` tuple, in the order requested. */
  method Decode<V, E>(keys: seq<string>, results: Container<V>, errors: Container<E>)
    returns (commands: seq<CommandResult<Outcome<V, E>>>)
    ensures |commands| == |keys|
    ensures forall i :: 0 <= i < |keys| ==>
              commands[i] == CommandResult(keys[i], OutcomeAt(results, errors, keys[i], i))
  {
    commands := [];
    for index := 0 to |keys|
      invariant |commands| == index
      invariant forall i :: 0 <= i < index ==>
                  commands[i] == CommandResult(keys[i], OutcomeAt(results, errors, keys[i], i))
    {
      commands := commands + [CommandResult(keys[index], OutcomeAt(results, errors, keys[index], index))];
    }
  }

  /** What the portal means for one command. */
  function MeantOutcome<V, E>(results: PhpArray<V>, errors: PhpArray<E>, key: string): Outcome<V, E> {
    var error := Meant(errors, key);
    if error.Some? then Failed(error.value) else Returned(Meant(results, key))
  }

  /**
   The decode law: for aligned keys the commands come back in the order requested, and
   looking any of them up by its key finds what the portal meant for it, in whichever of
   the two shapes each map arrived and in whatever order it was keyed.
   */
  lemma {:induction false} DecodeIsFaithful<V, E>(keys: seq<string>, results: PhpArray<V>, errors: PhpArray<E>,
                                                  commands: seq<CommandResult<Outcome<V, E>>>, i: nat)
    requires Distinct(keys) && Aligned(keys) && Answers(results, keys) && Answers(errors, keys) && i < |keys|
    requires |commands| == |keys|
    requires forall k :: 0 <= k < |keys| ==>
               commands[k] == CommandResult(keys[k], OutcomeAt(Json(results), Json(errors), keys[k], k))
    ensures commands[i].key == keys[i]
    ensures FindKey(commands, keys[i]) == Some(MeantOutcome(results, errors, keys[i]))
  {
    PickIsMeant(results, keys, i);
    PickIsMeant(errors, keys, i);
    FindKeyAt(commands, i);
  }

  /** `first_error_index`. */
  function FirstError<V, E>(commands: seq<CommandResult<Outcome<V, E>>>): Option<nat> {
    if commands == [] then None
    else if commands[0].outcome.Failed? then Some(0)
    else
      match FirstError(commands[1..])
      case None => None
      case Some(i) => Some(i + 1)
  }

  /** The contiguous clean prefix ends exactly there. */
  lemma {:induction false} FirstErrorCutsPrefix<V, E>(commands: seq<CommandResult<Outcome<V, E>>>)
    ensures match FirstError(commands)
            case None => forall i :: 0 <= i < |commands| ==> !commands[i].outcome.Failed?
            case Some(k) =>
              && k < |commands| && commands[k].outcome.Failed?
              && forall i :: 0 <= i < k ==> !commands[i].outcome.Failed?
  {
    if commands != [] && !commands[0].outcome.Failed? {
      FirstErrorCutsPrefix(commands[1..]);
      assert forall i :: 0 < i < |commands| ==> commands[i] == commands[1..][i - 1];
    }
  }

  /** A plain word as key is never a number, so keys such as `u0` are always aligned. */
  lemma {:induction false} NamedKeysAreAligned(keys: seq<string>)
    requires "0" !in keys
    ensures Aligned(keys)
  {
    assert Digits(0) == "0";
    assert forall m: nat :: m > 0 ==> !Counts(keys, m);
  }
}
