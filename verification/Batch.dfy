/**
 The `batch` request of `bitrix/client.py`: whole requests nested as strings inside one
 form body, and what a receiver that undoes each layer gets back.
 */
module Batch {
  import opened Wrappers
  import opened Seqs
  import opened Texts
  import opened PhpArrays
  import opened PhpRoundTrip
  import Percent

  datatype Command = Command(key: string, method_: string, params: seq<Entry>)

  datatype BatchError =
    | NoCommands
    | TooManyCommands
    | InvalidKey(key: string)
    | DuplicateKey(key: string)
    | InvalidMethod(name: string)
    | Unencodable(error: EncodeError)
    | DuplicateParameter(name: string)

  const MAX_BATCH_COMMANDS: nat := 50

  // ------------------------------------------------------------------ the sender

  predicate MethodChar(c: char) {
    'A' <= c <= 'Z' || 'a' <= c <= 'z' || '0' <= c <= '9' || c == '_' || c == '.'
  }

  predicate KeyText(s: string) {
    1 <= |s| <= 32 && forall i :: 0 <= i < |s| ==> MethodChar(s[i]) || s[i] == '-'
  }

  /** `_CMD_KEY_RE.match`: its `$` also matches before one final newline. */
  predicate CmdKey(s: string) {
    KeyText(s) || (s != "" && s[|s| - 1] == '\n' && KeyText(s[..|s| - 1]))
  }

  function CheckMethod(name: string): Result<string, BatchError> {
    var s := Strip(name);
    if s != "" && (forall i :: 0 <= i < |s| ==> MethodChar(s[i])) then Success(s) else Failure(InvalidMethod(name))
  }

  /** `method?query`, the value of one `cmd[key]`. */
  function Line(c: Command): Result<string, BatchError> {
    var name :- CheckMethod(c.method_);
    match QueryPairs(c.params)
    case Failure(e) => Failure(Unencodable(e))
    case Success(pairs) =>
      var query := Percent.QueryString(pairs);
      Success(if query != "" then name + "?" + query else name)
  }

  predicate HasName(body: seq<Pair>, name: string) {
    exists i :: 0 <= i < |body| && body[i].0 == name
  }

  function Prepare(commands: seq<Command>, done: seq<Pair>): Result<seq<Pair>, BatchError>
    decreases |commands|
  {
    if commands == [] then Success(done)
    else if !CmdKey(commands[0].key) then Failure(InvalidKey(commands[0].key))
    else if HasName(done, commands[0].key) then Failure(DuplicateKey(commands[0].key))
    else
      var line :- Line(commands[0]);
      Prepare(commands[1..], done + [(commands[0].key, line)])
  }

  function Texted(cmdMap: seq<Pair>): (entries: seq<Entry>)
    ensures |entries| == |cmdMap|
    ensures forall i :: 0 <= i < |cmdMap| ==> entries[i] == Entry(cmdMap[i].0, Text(cmdMap[i].1))
  {
    seq(|cmdMap|, i requires 0 <= i < |cmdMap| => Entry(cmdMap[i].0, Text(cmdMap[i].1)))
  }

  function AddAll(body: seq<Pair>, pairs: seq<Pair>): Result<seq<Pair>, BatchError>
    decreases |pairs|
  {
    if pairs == [] then Success(body)
    else if HasName(body, pairs[0].0) then Failure(DuplicateParameter(pairs[0].0))
    else AddAll(body + [pairs[0]], pairs[1..])
  }

  /** A dict assignment: the old place when the name is there, the end otherwise. */
  function Assign(body: seq<Pair>, name: string, value: string): seq<Pair> {
    if body == [] then [(name, value)]
    else if body[0].0 == name then [(name, value)] + body[1..]
    else [body[0]] + Assign(body[1..], name, value)
  }

  function FormBody(pairs: seq<Pair>, token: string): Result<seq<Pair>, BatchError> {
    var body :- AddAll([], pairs);
    Success(if token != "" then Assign(body, "auth", token) else body)
  }

  function Envelope(halt: bool, cmdMap: seq<Pair>): seq<Entry> {
    [Entry("halt", Number(if halt then 1 else 0)), Entry("cmd", Mapping(Texted(cmdMap)))]
  }

  function Request(commands: seq<Command>, halt: bool, token: string): Result<seq<Pair>, BatchError> {
    if commands == [] then Failure(NoCommands)
    else if |commands| > MAX_BATCH_COMMANDS then Failure(TooManyCommands)
    else
      var cmdMap :- Prepare(commands, []);
      match QueryPairs(Envelope(halt, cmdMap))
      case Failure(e) => Failure(Unencodable(e))
      case Success(pairs) => FormBody(pairs, token)
  }

  /** The values under one name, in order. */
  function ValuesOf(body: seq<Pair>, name: string): seq<string> {
    if body == [] then []
    else (if body[0].0 == name then [body[0].1] else []) + ValuesOf(body[1..], name)
  }

  /** The pairs under any other name, in order. */
  function Others(body: seq<Pair>, name: string): seq<Pair> {
    if body == [] then []
    else (if body[0].0 == name then [] else [body[0]]) + Others(body[1..], name)
  }

  predicate NamesDiffer(body: seq<Pair>) {
    forall i, j :: 0 <= i < j < |body| ==> body[i].0 != body[j].0
  }

  /** Without repeated names the dict assignment leaves one pair of this name, and the others alone. */
  lemma {:induction false} AssignSetsOne(body: seq<Pair>, name: string, value: string)
    requires NamesDiffer(body)
    ensures ValuesOf(Assign(body, name, value), name) == [value]
    ensures Others(Assign(body, name, value), name) == Others(body, name)
  {
    if body != [] {
      if body[0].0 == name {
        NoneOfName(body[1..], name);
        OneMoreName((name, value), body[1..], name);
      } else {
        AssignSetsOne(body[1..], name, value);
        OneMoreName(body[0], Assign(body[1..], name, value), name);
      }
    }
  }

  lemma {:induction false} OneMoreName(pair: Pair, rest: seq<Pair>, name: string)
    ensures ValuesOf([pair] + rest, name) == (if pair.0 == name then [pair.1] else []) + ValuesOf(rest, name)
    ensures Others([pair] + rest, name) == (if pair.0 == name then [] else [pair]) + Others(rest, name)
  {
    assert ([pair] + rest)[1..] == rest;
  }

  lemma {:induction false} NoneOfName(body: seq<Pair>, name: string)
    requires forall i :: 0 <= i < |body| ==> body[i].0 != name
    ensures ValuesOf(body, name) == [] && Others(body, name) == body
  {
    if body != [] {
      NoneOfName(body[1..], name);
    }
  }

  /** A name twice is refused, by the name of the first repetition; anything else goes through unchanged. */
  lemma {:induction false} AddAllIffDiffer(body: seq<Pair>, pairs: seq<Pair>)
    requires NamesDiffer(body)
    ensures AddAll(body, pairs).Success? <==> NamesDiffer(body + pairs)
    ensures AddAll(body, pairs).Success? ==> AddAll(body, pairs).value == body + pairs
    decreases |pairs|
  {
    if pairs == [] {
      assert body + pairs == body;
    } else {
      var all := body + pairs;
      assert all[|body|] == pairs[0];
      assert forall i :: 0 <= i < |body| ==> all[i] == body[i];
      if !HasName(body, pairs[0].0) {
        AddAllIffDiffer(body + [pairs[0]], pairs[1..]);
        assert body + [pairs[0]] + pairs[1..] == all;
      }
    }
  }

  lemma {:induction false} FormBodyIs(pairs: seq<Pair>, token: string)
    ensures NamesDiffer(pairs) ==>
              FormBody(pairs, token) == Success(if token != "" then Assign(pairs, "auth", token) else pairs)
    ensures FormBody(pairs, token).Success? <==> NamesDiffer(pairs)
    ensures FormBody(pairs, token).Failure? ==> FormBody(pairs, token).error.DuplicateParameter?
  {
    AddAllIffDiffer([], pairs);
    AddAllErrors([], pairs);
    assert [] + pairs == pairs;
  }

  lemma {:induction false} AddAllErrors(body: seq<Pair>, pairs: seq<Pair>)
    ensures AddAll(body, pairs).Failure? ==> AddAll(body, pairs).error.DuplicateParameter?
    decreases |pairs|
  {
    if pairs != [] && !HasName(body, pairs[0].0) {
      AddAllErrors(body + [pairs[0]], pairs[1..]);
    }
  }

  lemma {:induction false} FormBodyMeans(pairs: seq<Pair>, token: string)
    requires NamesDiffer(pairs) && token != ""
    ensures var body := FormBody(pairs, token);
            && body.Success?
            && ValuesOf(body.value, "auth") == [token] && Others(body.value, "auth") == Others(pairs, "auth")
  {
    FormBodyIs(pairs, token);
    AssignSetsOne(pairs, "auth", token);
  }

  /**
   The form body. It is refused exactly when two pairs share a name. Otherwise, with a token,
   `auth` stands in it once, with the token, whatever the parameters held; every other pair
   is there as it came, in order. Without a token the body is the parameters.
   */
  predicate BodyHolds(pairs: seq<Pair>, token: string, r: Result<seq<Pair>, BatchError>) {
    match r
    case Failure(e) => e.DuplicateParameter? && !NamesDiffer(pairs)
    case Success(body) =>
      && NamesDiffer(pairs)
      && (token == "" ==> body == pairs)
      && (token != "" ==> ValuesOf(body, "auth") == [token] && Others(body, "auth") == Others(pairs, "auth"))
  }

  lemma {:induction false} FormBodyHolds(pairs: seq<Pair>, token: string)
    ensures BodyHolds(pairs, token, FormBody(pairs, token))
  {
    FormBodyIs(pairs, token);
    if NamesDiffer(pairs) && token != "" {
      FormBodyMeans(pairs, token);
    }
  }

  method BuildFormBody(pairs: seq<Pair>, token: string) returns (r: Result<seq<Pair>, BatchError>)
    ensures r == FormBody(pairs, token) && BodyHolds(pairs, token, r)
  {
    FormBodyHolds(pairs, token);
    var body: seq<Pair> := [];
    assert pairs[0..] == pairs;
    for i := 0 to |pairs|
      invariant AddAll([], pairs) == AddAll(body, pairs[i..])
    {
      if HasName(body, pairs[i].0) {
        return Failure(DuplicateParameter(pairs[i].0));
      }
      assert pairs[i..][1..] == pairs[i + 1..];
      body := body + [pairs[i]];
    }
    return Success(if token != "" then Assign(body, "auth", token) else body);
  }

  /** The command loop of `batch`. */
  method BuildCommands(commands: seq<Command>) returns (r: Result<seq<Pair>, BatchError>)
    ensures r == Prepare(commands, [])
  {
    var cmdMap: seq<Pair> := [];
    assert commands[0..] == commands;
    for i := 0 to |commands|
      invariant Prepare(commands, []) == Prepare(commands[i..], cmdMap)
    {
      var c := commands[i];
      if !CmdKey(c.key) {
        return Failure(InvalidKey(c.key));
      }
      if HasName(cmdMap, c.key) {
        return Failure(DuplicateKey(c.key));
      }
      var line := Line(c);
      if line.Failure? {
        return Failure(line.error);
      }
      assert commands[i..][1..] == commands[i + 1..];
      cmdMap := cmdMap + [(c.key, line.value)];
    }
    return Success(cmdMap);
  }

  /** The request half of `batch`: the command loop, then the form body. */
  method BuildRequest(commands: seq<Command>, halt: bool, token: string) returns (r: Result<seq<Pair>, BatchError>)
    ensures r == Request(commands, halt, token) && RequestHolds(commands, halt, token, r)
  {
    RequestMeets(commands, halt, token);
    if commands == [] {
      return Failure(NoCommands);
    }
    if |commands| > MAX_BATCH_COMMANDS {
      return Failure(TooManyCommands);
    }
    var cmdMap := BuildCommands(commands);
    if cmdMap.Failure? {
      return cmdMap;
    }
    var pairs := PhpQueryPairs(Envelope(halt, cmdMap.value));
    if pairs.Failure? {
      return Failure(Unencodable(pairs.error));
    }
    r := BuildFormBody(pairs.value, token);
  }

  // ------------------------------------------------------------------ which requests go out, and with what in them

  /** The key without the one final newline its pattern lets through. */
  function BareKey(key: string): string {
    if key != "" && key[|key| - 1] == '\n' then key[..|key| - 1] else key
  }

  predicate Plain(c: char) {
    c == '_' || c == '.' || '0' <= c <= '9' || 'a' <= LowerChar(c) <= 'z'
  }

  /** 1 to 32 letters, digits, `_`, `.` and `-`. */
  predicate PlainKey(key: string) {
    && 1 <= |BareKey(key)| <= 32
    && forall i :: 0 <= i < |BareKey(key)| ==> Plain(BareKey(key)[i]) || BareKey(key)[i] == '-'
  }

  /** Letters, digits, `_` and `.`, once trimmed. */
  predicate PlainMethod(name: string) {
    Strip(name) != "" && forall i :: 0 <= i < |Strip(name)| ==> Plain(Strip(name)[i])
  }

  /** A key and a method of the right characters, and parameters that are not too deep. */
  predicate AcceptableCommand(c: Command) {
    PlainKey(c.key) && PlainMethod(c.method_) && QueryPairs(c.params).Success?
  }

  ghost predicate Acceptable(commands: seq<Command>) {
    && 1 <= |commands| <= 50
    && (forall i :: 0 <= i < |commands| ==> AcceptableCommand(commands[i]))
    && (forall i, j :: 0 <= i < j < |commands| ==> commands[i].key != commands[j].key)
  }

  /** The first command that cannot go out, by what is wrong with it: its key, its method, or else its parameters. */
  ghost predicate RefusedAt(commands: seq<Command>, i: nat, e: BatchError) {
    && i < |commands|
    && GoodUpTo(commands, i)
    && var c := commands[i];
       var taken := exists j :: 0 <= j < i && commands[j].key == c.key;
       if !PlainKey(c.key) then e == InvalidKey(c.key)
       else if taken then e == DuplicateKey(c.key)
       else if !PlainMethod(c.method_) then e == InvalidMethod(c.method_)
       else QueryPairs(c.params).Failure? && e == Unencodable(QueryPairs(c.params).error)
  }

  /** `halt` first, then one `cmd[key]` for each command, in order. */
  predicate Carries(body: seq<Pair>, commands: seq<Command>, halt: bool) {
    && |body| == 1 + |commands|
    && body[0] == ("halt", if halt then "1" else "0")
    && forall i :: 0 <= i < |commands| ==>
         body[i + 1].0 == "cmd[" + commands[i].key + "]" && Line(commands[i]) == Success(body[i + 1].1)
  }

  /**
   The whole request. It goes out exactly when every command is acceptable, their keys differ
   and there are 1 to 50 of them. It then holds the token once as `auth`, if there is one, and
   besides it `halt` and one `cmd[key]` for each command, in order.
   */
  ghost predicate RequestHolds(commands: seq<Command>, halt: bool, token: string, r: Result<seq<Pair>, BatchError>) {
    match r
    case Failure(e) =>
      && !Acceptable(commands)
      && (if commands == [] then e == NoCommands
          else if |commands| > 50 then e == TooManyCommands
          else exists i :: RefusedAt(commands, i, e))
    case Success(body) =>
      && Acceptable(commands)
      && ValuesOf(body, "auth") == (if token != "" then [token] else [])
      && Carries(Others(body, "auth"), commands, halt)
  }

  lemma {:induction false} RequestMeets(commands: seq<Command>, halt: bool, token: string)
    ensures RequestHolds(commands, halt, token, Request(commands, halt, token))
  {
    RequestIffAcceptable(commands, halt, token);
    if Request(commands, halt, token).Success? {
      RequestCarries(commands, halt, token);
    } else if 1 <= |commands| <= 50 {
      PrepareFails(commands, halt, token);
      var i := PrepareRefuses(commands, 0, []);
    }
  }

  /** The names taken so far are the keys of the commands so far. */
  ghost predicate Taken(done: seq<Pair>, commands: seq<Command>, n: nat)
    requires n <= |commands|
  {
    forall key :: HasName(done, key) <==> exists j :: 0 <= j < n && commands[j].key == key
  }

  /** The first `n` commands are acceptable, and their keys differ. */
  ghost predicate GoodUpTo(commands: seq<Command>, n: nat)
    requires n <= |commands|
  {
    && (forall k :: 0 <= k < n ==> AcceptableCommand(commands[k]))
    && (forall j, k :: 0 <= j < k < n ==> commands[j].key != commands[k].key)
  }

  lemma {:induction false} GoodNext(commands: seq<Command>, n: nat, done: seq<Pair>) returns (last: Pair)
    requires n < |commands| && GoodUpTo(commands, n) && Taken(done, commands, n)
    requires CmdKey(commands[n].key) && !HasName(done, commands[n].key) && Line(commands[n]).Success?
    ensures last == (commands[n].key, Line(commands[n]).value)
    ensures GoodUpTo(commands, n + 1) && Taken(done + [last], commands, n + 1)
    ensures Prepare(commands[n..], done) == Prepare(commands[n + 1..], done + [last])
  {
    var c := commands[n];
    last := (c.key, Line(c).value);
    SendableIff(c);
    assert commands[n..][1..] == commands[n + 1..];
    TakenNext(done, commands, n, last);
    assert HasName(done, c.key) <==> exists j :: 0 <= j < n && commands[j].key == c.key;
  }

  lemma {:induction false} PrepareRefuses(commands: seq<Command>, n: nat, done: seq<Pair>) returns (i: nat)
    requires n <= |commands| && Prepare(commands[n..], done).Failure? && Taken(done, commands, n)
    requires GoodUpTo(commands, n)
    ensures RefusedAt(commands, i, Prepare(commands[n..], done).error)
    decreases |commands| - n
  {
    var c := commands[n];
    if CmdKey(c.key) && !HasName(done, c.key) && Line(c).Success? {
      var last := GoodNext(commands, n, done);
      i := PrepareRefuses(commands, n + 1, done + [last]);
    } else {
      i := n;
      RefusedHere(commands, n, done);
    }
  }

  lemma {:induction false} RefusedHere(commands: seq<Command>, n: nat, done: seq<Pair>)
    requires n < |commands| && Taken(done, commands, n) && GoodUpTo(commands, n)
    requires !CmdKey(commands[n].key) || HasName(done, commands[n].key) || Line(commands[n]).Failure?
    ensures Prepare(commands[n..], done).Failure? && RefusedAt(commands, n, Prepare(commands[n..], done).error)
  {
    var c := commands[n];
    KeyAndMethodArePlain(c);
    assert commands[n..][0] == c;
    assert HasName(done, c.key) <==> exists j :: 0 <= j < n && commands[j].key == c.key;
  }

  lemma {:induction false} TakenNext(done: seq<Pair>, commands: seq<Command>, n: nat, last: Pair)
    requires n < |commands| && last.0 == commands[n].key && Taken(done, commands, n)
    ensures Taken(done + [last], commands, n + 1)
  {
    forall key ensures HasName(done + [last], key) <==> exists j :: 0 <= j < n + 1 && commands[j].key == key {
      HasNameAppend(done, last, key);
      assert HasName(done, key) <==> exists j :: 0 <= j < n && commands[j].key == key;
    }
  }

  lemma {:induction false} KeyAndMethodArePlain(c: Command)
    ensures CmdKey(c.key) <==> PlainKey(c.key)
    ensures CheckMethod(c.method_) == if PlainMethod(c.method_) then Success(Strip(c.method_))
                                      else Failure(InvalidMethod(c.method_))
  {
    assert forall x :: MethodChar(x) <==> Plain(x);
  }

  lemma {:induction false} PrepareFails(commands: seq<Command>, halt: bool, token: string)
    requires 1 <= |commands| <= 50 && Request(commands, halt, token).Failure?
    ensures Prepare(commands, []).Failure? && Request(commands, halt, token) == Failure(Prepare(commands, []).error)
  {
    if Prepare(commands, []).Success? {
      PrepareSendable(commands, []);
      PrepareDistinct(commands, []);
      AcceptableGoesOut(commands, halt, token);
    }
  }

  lemma {:induction false} SendableIff(c: Command)
    ensures Sendable(c) <==> AcceptableCommand(c)
  {
    assert forall x :: MethodChar(x) <==> Plain(x);
  }

  lemma {:induction false} PrepareIff(commands: seq<Command>, done: seq<Pair>)
    requires forall i :: 0 <= i < |commands| ==> Sendable(commands[i]) && !HasName(done, commands[i].key)
    requires forall i, j :: 0 <= i < j < |commands| ==> commands[i].key != commands[j].key
    ensures Prepare(commands, done).Success?
    decreases |commands|
  {
    if commands != [] {
      var last := (commands[0].key, Line(commands[0]).value);
      forall i | 0 < i < |commands| ensures !HasName(done + [last], commands[i].key) {
        HasNameAppend(done, last, commands[i].key);
      }
      PrepareIff(commands[1..], done + [last]);
    }
  }

  /** A batch goes out exactly when every command is acceptable, their keys differ, and there are 1 to 50 of them. */
  lemma {:induction false} RequestIffAcceptable(commands: seq<Command>, halt: bool, token: string)
    ensures Request(commands, halt, token).Success? <==> Acceptable(commands)
  {
    forall i | 0 <= i < |commands| ensures Sendable(commands[i]) <==> AcceptableCommand(commands[i]) {
      SendableIff(commands[i]);
    }
    if Request(commands, halt, token).Success? {
      PrepareSendable(commands, []);
      PrepareDistinct(commands, []);
    }
    if Acceptable(commands) {
      AcceptableGoesOut(commands, halt, token);
    }
  }

  lemma {:induction false} AcceptableGoesOut(commands: seq<Command>, halt: bool, token: string)
    requires 1 <= |commands| <= 50 && forall i :: 0 <= i < |commands| ==> Sendable(commands[i])
    requires forall i, j :: 0 <= i < j < |commands| ==> commands[i].key != commands[j].key
    ensures Request(commands, halt, token).Success?
  {
    PrepareIff(commands, []);
    PrepareLists(commands, []);
    assert [] + Lines(commands) == Lines(commands);
    EnvelopePairs(halt, Lines(commands));
    PlainNames(commands, halt);
    AddAllIffDiffer([], PlainBody(commands, halt));
    assert [] + PlainBody(commands, halt) == PlainBody(commands, halt);
  }

  /** The body before the token. */
  function PlainBody(commands: seq<Command>, halt: bool): seq<Pair>
    requires forall i :: 0 <= i < |commands| ==> Sendable(commands[i])
  {
    [HaltPair(halt)] + Wrapped(Lines(commands))
  }

  lemma {:induction false} RequestCarries(commands: seq<Command>, halt: bool, token: string)
    requires Request(commands, halt, token).Success?
    ensures var body := Request(commands, halt, token).value;
            && ValuesOf(body, "auth") == (if token != "" then [token] else [])
            && Carries(Others(body, "auth"), commands, halt)
  {
    RequestIs(commands, halt, token);
    var plain := PlainBody(commands, halt);
    PlainNames(commands, halt);
    PlainCarries(commands, halt);
    NoneOfName(plain, "auth");
    if token != "" {
      AssignSetsOne(plain, "auth", token);
    }
  }

  lemma {:induction false} PlainAt(commands: seq<Command>, halt: bool, i: nat)
    requires (forall k :: 0 <= k < |commands| ==> Sendable(commands[k])) && i < |commands|
    ensures |PlainBody(commands, halt)| == 1 + |commands|
    ensures PlainBody(commands, halt)[i + 1] == ("cmd[" + commands[i].key + "]", Line(commands[i]).value)
  {
    var lines := Lines(commands);
    assert lines[i] == KeyedLine(commands[i]);
    WrappedAt(lines, i);
  }

  lemma {:induction false} WrappedAt(pairs: seq<Pair>, i: nat)
    requires i < |pairs|
    ensures Wrapped(pairs)[i] == ("cmd[" + pairs[i].0 + "]", pairs[i].1)
  {
  }

  lemma {:induction false} PlainCarries(commands: seq<Command>, halt: bool)
    requires forall i :: 0 <= i < |commands| ==> Sendable(commands[i])
    ensures Carries(PlainBody(commands, halt), commands, halt)
  {
    var plain := PlainBody(commands, halt);
    forall i | 0 <= i < |commands|
      ensures plain[i + 1].0 == "cmd[" + commands[i].key + "]" && Line(commands[i]) == Success(plain[i + 1].1)
    {
      PlainAt(commands, halt, i);
    }
  }

  lemma {:induction false} PlainNames(commands: seq<Command>, halt: bool)
    requires forall i :: 0 <= i < |commands| ==> Sendable(commands[i])
    requires forall i, j :: 0 <= i < j < |commands| ==> commands[i].key != commands[j].key
    ensures NamesDiffer(PlainBody(commands, halt))
    ensures forall i :: 0 <= i < |PlainBody(commands, halt)| ==> PlainBody(commands, halt)[i].0 != "auth"
  {
    var plain, keys := PlainBody(commands, halt), seq(|commands|, i requires 0 <= i < |commands| => commands[i].key);
    if commands == [] {
      assert |plain| == 1;
    }
    forall i | 0 <= i < |keys| ensures |plain| == 1 + |keys| && plain[i + 1].0 == "cmd[" + keys[i] + "]" {
      PlainAt(commands, halt, i);
    }
    NamesOfPlain(plain, keys);
  }

  lemma {:induction false} NamesOfPlain(plain: seq<Pair>, keys: seq<string>)
    requires |plain| == 1 + |keys| && plain[0].0 == "halt"
    requires forall i :: 0 <= i < |keys| ==> plain[i + 1].0 == "cmd[" + keys[i] + "]"
    requires forall i, j :: 0 <= i < j < |keys| ==> keys[i] != keys[j]
    ensures NamesDiffer(plain)
    ensures forall i :: 0 <= i < |plain| ==> plain[i].0 != "auth"
  {
    assert "halt"[0] == 'h' && "auth"[0] == 'a';
    forall i | 0 < i < |plain| ensures plain[i].0 != "halt" && plain[i].0 != "auth" {
      assert plain[i - 1 + 1].0 == "cmd[" + keys[i - 1] + "]";
      assert plain[i].0[0] == 'c';
    }
    forall i, j | 0 < i < j < |plain| ensures plain[i].0 != plain[j].0 {
      assert plain[i - 1 + 1].0 == "cmd[" + keys[i - 1] + "]" && plain[j - 1 + 1].0 == "cmd[" + keys[j - 1] + "]";
      PlainNameDiffers(keys[i - 1], keys[j - 1]);
    }
  }

  lemma {:induction false} PlainNameDiffers(a: string, b: string)
    requires a != b
    ensures "cmd[" + a + "]" != "cmd[" + b + "]"
  {
    if "cmd[" + a + "]" == "cmd[" + b + "]" {
      CmdNamesDiffer(a, b);
    }
  }

  lemma {:induction false} CmdNamesDiffer(a: string, b: string)
    requires "cmd[" + a + "]" == "cmd[" + b + "]"
    ensures a == b
  {
    assert ("cmd[" + a + "]")[4..|a| + 4] == a && ("cmd[" + b + "]")[4..|b| + 4] == b;
  }

  // ------------------------------------------------------------------ the receiver

  datatype Received = Received(key: string, method_: string, params: Tree)

  /** One decoded `cmd[key]` string: split at `?`, decode the query, rebuild its arrays. */
  function ReadLine(key: string, line: string): Option<Received> {
    var i := Find(line, '?');
    match Percent.ReadQuery(if i < |line| then line[i + 1..] else "")
    case None => None
    case Some(pairs) =>
      match Expand(map[], pairs)
      case Failure(_) => None
      case Success(tree) => Some(Received(key, line[..i], tree))
  }

  function Cons(one: Option<Received>, rest: Option<seq<Received>>): Option<seq<Received>> {
    if one.Some? && rest.Some? then Some([one.value] + rest.value) else None
  }

  /** The `cmd[...]` fields of a body, in order; other fields are not commands. */
  function ReadBatch(body: seq<Pair>): Option<seq<Received>> {
    if body == [] then Some([])
    else
      match BracketMatch(body[0].0)
      case Some((base, path)) =>
        if base != "cmd" || |path| != 1 then ReadBatch(body[1..])
        else Cons(ReadLine(path[0], body[0].1), ReadBatch(body[1..]))
      case None => ReadBatch(body[1..])
  }

  function Intended(c: Command): Received {
    Received(c.key, Strip(c.method_), ImageOf(ShapeEntries(c.params)))
  }

  function IntendedAll(commands: seq<Command>): (r: seq<Received>)
    ensures |r| == |commands|
    ensures forall i :: 0 <= i < |r| ==> r[i] == Intended(commands[i])
  {
    seq(|commands|, i requires 0 <= i < |commands| => Intended(commands[i]))
  }

  // ------------------------------------------------------------------ the two undo each other

  lemma {:induction false} CmdKeyIsSegment(key: string)
    requires CmdKey(key)
    ensures Segment(key)
  {
    var bare := if KeyText(key) then key else key[..|key| - 1];
    assert BracketFree(bare);
  }

  /** One line comes apart into its method and whatever its query decodes to. */
  lemma {:induction false} LineComesApart(c: Command)
    requires Line(c).Success?
    ensures ReadLine(c.key, Line(c).value)
         == match Expand(map[], QueryPairs(c.params).value)
            case Failure(_) => None
            case Success(tree) => Some(Received(c.key, Strip(c.method_), tree))
  {
    var name := CheckMethod(c.method_).value;
    var pairs := QueryPairs(c.params).value;
    var query := Percent.QueryString(pairs);
    assert '?' !in name;
    Percent.ReadQueryString(pairs);
    if query != "" {
      FindIn(name, '?', query);
      assert (name + "?" + query)[..|name|] == name && (name + "?" + query)[|name| + 1..] == query;
    } else {
      FindNone(name, '?');
      assert name[..|name|] == name;
    }
  }

  lemma {:induction false} LineReadsBack(c: Command)
    requires Line(c).Success? && DistinctEntries(c.params)
    ensures ReadLine(c.key, Line(c).value) == Some(Intended(c)) <==> AllLeavesCarried(c.params)
  {
    LineComesApart(c);
    RoundTripIffCarried(c.params);
  }

  predicate Sendable(c: Command) {
    CmdKey(c.key) && Line(c).Success?
  }

  function KeyedLine(c: Command): Pair
    requires Sendable(c)
  {
    (c.key, Line(c).value)
  }

  function Lines(commands: seq<Command>): (pairs: seq<Pair>)
    requires forall i :: 0 <= i < |commands| ==> Sendable(commands[i])
    ensures |pairs| == |commands|
    ensures forall i :: 0 <= i < |pairs| ==> pairs[i] == KeyedLine(commands[i])
  {
    seq(|commands|, i requires 0 <= i < |commands| && Sendable(commands[i]) => KeyedLine(commands[i]))
  }

  lemma {:induction false} PrepareSendable(commands: seq<Command>, done: seq<Pair>)
    requires Prepare(commands, done).Success?
    ensures forall i :: 0 <= i < |commands| ==> Sendable(commands[i])
    decreases |commands|
  {
    if commands != [] {
      PrepareSendable(commands[1..], done + [(commands[0].key, Line(commands[0]).value)]);
      forall i | 0 <= i < |commands| ensures Sendable(commands[i]) {
        assert i > 0 ==> commands[i] == commands[1..][i - 1];
      }
    }
  }

  lemma {:induction false} LinesTail(commands: seq<Command>)
    requires commands != [] && forall i :: 0 <= i < |commands| ==> Sendable(commands[i])
    ensures Lines(commands)[1..] == Lines(commands[1..])
  {
    forall i | 0 <= i < |commands| - 1 ensures Lines(commands)[1..][i] == Lines(commands[1..])[i] {
      assert commands[1..][i] == commands[i + 1];
    }
  }

  lemma {:induction false} LinesStep(commands: seq<Command>)
    requires commands != [] && forall i :: 0 <= i < |commands| ==> Sendable(commands[i])
    ensures Lines(commands) == [KeyedLine(commands[0])] + Lines(commands[1..])
  {
    LinesTail(commands);
  }

  lemma {:induction false} PrepareLists(commands: seq<Command>, done: seq<Pair>)
    requires Prepare(commands, done).Success? && forall i :: 0 <= i < |commands| ==> Sendable(commands[i])
    ensures Prepare(commands, done).value == done + Lines(commands)
    decreases |commands|
  {
    if commands == [] {
      assert done + [] == done;
    } else {
      PrepareLists(commands[1..], done + [KeyedLine(commands[0])]);
      LinesStep(commands);
      AppendThen(done, KeyedLine(commands[0]), Lines(commands[1..]));
    }
  }

  lemma {:induction false} HasNameAppend(body: seq<Pair>, last: Pair, name: string)
    ensures HasName(body + [last], name) <==> HasName(body, name) || last.0 == name
  {
    var longer := body + [last];
    assert longer[|body|] == last;
    if i :| 0 <= i < |body| && body[i].0 == name {
      assert longer[i].0 == name;
    }
  }

  lemma {:induction false} PrepareDistinct(commands: seq<Command>, done: seq<Pair>)
    requires Prepare(commands, done).Success?
    ensures forall i :: 0 <= i < |commands| ==> !HasName(done, commands[i].key)
    ensures forall i, j :: 0 <= i < j < |commands| ==> commands[i].key != commands[j].key
    decreases |commands|
  {
    if commands != [] {
      var key, rest := commands[0].key, commands[1..];
      var last := (key, Line(commands[0]).value);
      PrepareDistinct(rest, done + [last]);
      forall i | 0 < i < |commands| ensures !HasName(done, commands[i].key) && commands[i].key != key {
        assert commands[i] == rest[i - 1];
        HasNameAppend(done, last, commands[i].key);
      }
      forall i, j | 0 <= i < j < |commands| ensures commands[i].key != commands[j].key {
        if i > 0 {
          assert commands[i] == rest[i - 1] && commands[j] == rest[j - 1];
        }
      }
    }
  }

  function Wrapped(cmdMap: seq<Pair>): (pairs: seq<Pair>)
    ensures |pairs| == |cmdMap|
    ensures forall i :: 0 <= i < |pairs| ==> pairs[i] == ("cmd[" + cmdMap[i].0 + "]", cmdMap[i].1)
  {
    seq(|cmdMap|, i requires 0 <= i < |cmdMap| => ("cmd[" + cmdMap[i].0 + "]", cmdMap[i].1))
  }

  lemma {:induction false} EncodeTexts(cmdMap: seq<Pair>, depth: int)
    requires depth > 0
    ensures EncodeEntries("cmd", Texted(cmdMap), depth) == Success(Wrapped(cmdMap))
  {
    if cmdMap != [] {
      EncodeTexts(cmdMap[1..], depth);
      assert Texted(cmdMap)[1..] == Texted(cmdMap[1..]);
      assert "cmd" + "[" + cmdMap[0].0 + "]" == "cmd[" + cmdMap[0].0 + "]";
      assert Wrapped(cmdMap) == [Wrapped(cmdMap)[0]] + Wrapped(cmdMap[1..]);
    }
  }

  lemma {:induction false} EnvelopePairs(halt: bool, cmdMap: seq<Pair>)
    ensures QueryPairs(Envelope(halt, cmdMap)) == Success([HaltPair(halt)] + Wrapped(cmdMap))
  {
    var e := Envelope(halt, cmdMap);
    EncodeTexts(cmdMap, MAX_PARAM_DEPTH - 1);
    assert e[1..] == [e[1]] && e[1..][1..] == [];
    assert QueryPairs(e[1..]) == Success(Wrapped(cmdMap) + []);
    assert Wrapped(cmdMap) + [] == Wrapped(cmdMap);
  }

  /** Assigning a name that is no command leaves the commands a reader finds as they were. */
  lemma {:induction false} AssignKeepsBatch(body: seq<Pair>, token: string)
    ensures ReadBatch(Assign(body, "auth", token)) == ReadBatch(body)
  {
    RunOf("auth", "");
    assert "auth" + "" == "auth";
    assert BracketMatch("auth").None?;
    if body != [] && body[0].0 != "auth" {
      AssignKeepsBatch(body[1..], token);
      var changed := Assign(body, "auth", token);
      assert changed[0] == body[0] && changed[1..] == Assign(body[1..], "auth", token);
    }
  }

  lemma {:induction false} CmdNameMatches(key: string)
    requires CmdKey(key)
    ensures BracketMatch("cmd[" + key + "]") == Some(("cmd", [key]))
  {
    CmdKeyIsSegment(key);
    BracketMatchRendered("cmd", [key]);
    RenderIsBrackets("cmd", [key]);
    assert Brackets([key]) == "[" + key + "]" by {
      assert "[" + key + "]" + "" == "[" + key + "]";
    }
    assert "cmd" + ("[" + key + "]") == "cmd[" + key + "]";
  }

  lemma {:induction false} ReadBatchStep(body: seq<Pair>, key: string)
    requires body != [] && BracketMatch(body[0].0) == Some(("cmd", [key]))
    ensures ReadBatch(body) == Cons(ReadLine(key, body[0].1), ReadBatch(body[1..]))
  {
  }

  lemma {:induction false} WrappedTail(pairs: seq<Pair>)
    requires pairs != []
    ensures Wrapped(pairs)[1..] == Wrapped(pairs[1..])
  {
  }

  lemma {:induction false} IntendedStep(commands: seq<Command>)
    requires commands != []
    ensures IntendedAll(commands) == [Intended(commands[0])] + IntendedAll(commands[1..])
  {
  }

  /** Every mapping of every command has distinct keys. */
  predicate DistinctParams(commands: seq<Command>) {
    forall i :: 0 <= i < |commands| ==> DistinctEntries(commands[i].params)
  }

  predicate LeavesCarried(commands: seq<Command>) {
    forall i :: 0 <= i < |commands| ==> AllLeavesCarried(commands[i].params)
  }

  lemma {:induction false} LeavesCarriedStep(commands: seq<Command>)
    requires commands != []
    ensures LeavesCarried(commands) <==> AllLeavesCarried(commands[0].params) && LeavesCarried(commands[1..])
  {
    assert forall i :: 0 < i < |commands| ==> commands[i] == commands[1..][i - 1];
  }

  lemma {:induction false} ReadWrapped(commands: seq<Command>)
    requires (forall i :: 0 <= i < |commands| ==> Sendable(commands[i])) && DistinctParams(commands)
    ensures ReadBatch(Wrapped(Lines(commands))) == Some(IntendedAll(commands)) <==> LeavesCarried(commands)
  {
    if commands != [] {
      var body := Wrapped(Lines(commands));
      LinesTail(commands);
      WrappedTail(Lines(commands));
      ReadWrapped(commands[1..]);
      ReadFirst(commands[0], body);
      LineReadsBack(commands[0]);
      IntendedStep(commands);
      LeavesCarriedStep(commands);
      ConsIsCons(ReadLine(commands[0].key, Line(commands[0]).value), ReadBatch(body[1..]),
                 Intended(commands[0]), IntendedAll(commands[1..]));
    }
  }

  lemma {:induction false} ConsIsCons(one: Option<Received>, rest: Option<seq<Received>>, a: Received, b: seq<Received>)
    ensures Cons(one, rest) == Some([a] + b) <==> one == Some(a) && rest == Some(b)
  {
    if Cons(one, rest) == Some([a] + b) {
      assert ([a] + b)[0] == a && ([a] + b)[1..] == b;
      assert ([one.value] + rest.value)[0] == one.value && ([one.value] + rest.value)[1..] == rest.value;
    }
  }

  lemma {:induction false} ReadFirst(c: Command, body: seq<Pair>)
    requires Sendable(c) && body != [] && body[0] == ("cmd[" + c.key + "]", Line(c).value)
    ensures ReadBatch(body) == Cons(ReadLine(c.key, Line(c).value), ReadBatch(body[1..]))
  {
    CmdNameMatches(c.key);
    ReadBatchStep(body, c.key);
  }

  function HaltPair(halt: bool): Pair {
    ("halt", Digits(if halt then 1 else 0))
  }

  /** The body of an accepted batch, written out. */
  lemma {:induction false} RequestIs(commands: seq<Command>, halt: bool, token: string)
    requires Request(commands, halt, token).Success?
    ensures forall i :: 0 <= i < |commands| ==> Sendable(commands[i])
    ensures forall i, j :: 0 <= i < j < |commands| ==> commands[i].key != commands[j].key
    ensures var plain := [HaltPair(halt)] + Wrapped(Lines(commands));
            Request(commands, halt, token).value == if token != "" then Assign(plain, "auth", token) else plain
  {
    Prepared(commands);
    EnvelopePairs(halt, Lines(commands));
    FormBodyIs([HaltPair(halt)] + Wrapped(Lines(commands)), token);
  }

  lemma {:induction false} Prepared(commands: seq<Command>)
    requires Prepare(commands, []).Success?
    ensures forall i :: 0 <= i < |commands| ==> Sendable(commands[i])
    ensures forall i, j :: 0 <= i < j < |commands| ==> commands[i].key != commands[j].key
    ensures Prepare(commands, []).value == Lines(commands)
  {
    PrepareSendable(commands, []);
    PrepareDistinct(commands, []);
    PrepareLists(commands, []);
    assert [] + Lines(commands) == Lines(commands);
  }

  /**
   The two-level law, exactly. From an accepted batch the receiver recovers the commands in
   order, each with its key, its trimmed method and its parameters, nulls pruned, if and
   only if the wire carries every leaf of every command's parameters.
   */
  lemma {:induction false} BatchRoundTripIffCarried(commands: seq<Command>, halt: bool, token: string)
    requires DistinctParams(commands)
    ensures var request := Request(commands, halt, token);
            request.Success? ==> (ReadBatch(request.value) == Some(IntendedAll(commands)) <==> LeavesCarried(commands))
  {
    if Request(commands, halt, token).Success? {
      RequestIs(commands, halt, token);
      var wrapped := Wrapped(Lines(commands));
      var plain := [HaltPair(halt)] + wrapped;
      AssignKeepsBatch(plain, token);
      HaltIsNoCommand(halt, wrapped);
      ReadWrapped(commands);
    }
  }

  /** With non-empty, bracket-free keys the commands always come back. */
  lemma {:induction false} BatchRoundTrip(commands: seq<Command>, halt: bool, token: string)
    requires forall i :: 0 <= i < |commands| ==> ProperEntries(commands[i].params)
    ensures Request(commands, halt, token).Success? ==>
              ReadBatch(Request(commands, halt, token).value) == Some(IntendedAll(commands))
  {
    forall i | 0 <= i < |commands|
      ensures DistinctEntries(commands[i].params) && AllLeavesCarried(commands[i].params)
    {
      ProperEntriesDistinct(commands[i].params);
      ProperIsCarried(commands[i].params);
    }
    BatchRoundTripIffCarried(commands, halt, token);
  }

  lemma {:induction false} HaltIsNoCommand(halt: bool, rest: seq<Pair>)
    ensures ReadBatch([HaltPair(halt)] + rest) == ReadBatch(rest)
  {
    RunOf("halt", "");
    assert "halt" + "" == "halt";
    assert BracketMatch("halt").None?;
    assert ([HaltPair(halt)] + rest)[1..] == rest;
  }

  /** Flattening never collides inside a batch, so the only refusals are the documented ones. */
  lemma {:induction false} RequestNeverDuplicates(commands: seq<Command>, halt: bool, token: string)
    ensures Request(commands, halt, token).Failure? ==> !Request(commands, halt, token).error.DuplicateParameter?
  {
    if commands != [] && |commands| <= MAX_BATCH_COMMANDS && Prepare(commands, []).Success? {
      PrepareSendable(commands, []);
      PrepareLists(commands, []);
      PrepareDistinct(commands, []);
      var cmdMap := Lines(commands);
      assert [] + cmdMap == cmdMap;
      EnvelopePairs(halt, cmdMap);
      var e := Envelope(halt, cmdMap);
      EnvelopeIsProper(halt, commands);
      NamesDistinct(e);
      assert [] + QueryPairs(e).value == QueryPairs(e).value;
      AddAllIffDiffer([], QueryPairs(e).value);
    } else if commands != [] && |commands| <= MAX_BATCH_COMMANDS {
      PrepareErrors(commands, []);
    }
  }

  lemma {:induction false} EnvelopeIsProper(halt: bool, commands: seq<Command>)
    requires forall i :: 0 <= i < |commands| ==> Sendable(commands[i])
    requires forall i, j :: 0 <= i < j < |commands| ==> commands[i].key != commands[j].key
    ensures ProperEntries(Envelope(halt, Lines(commands)))
  {
    var e, texts := Envelope(halt, Lines(commands)), Texted(Lines(commands));
    forall i | 0 <= i < |texts| ensures Segment(texts[i].key) && Proper(texts[i].value) {
      CmdKeyIsSegment(commands[i].key);
    }
    assert Proper(e[0].value) && Proper(e[1].value);
    assert e[0].key[0] != e[1].key[0];
  }

  lemma {:induction false} PrepareErrors(commands: seq<Command>, done: seq<Pair>)
    ensures Prepare(commands, done).Failure? ==> !Prepare(commands, done).error.DuplicateParameter?
    decreases |commands|
  {
    if commands != [] && Line(commands[0]).Success? {
      PrepareErrors(commands[1..], done + [(commands[0].key, Line(commands[0]).value)]);
    }
  }
}
