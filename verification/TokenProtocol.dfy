/**
 The single-flight portal token of `bitrix/oauth.py`, with every other writer of the
 credential, as a transition system over one `portals` row. Any number of callers of
 `with_portal_token` interleave with the handlers that store a credential, with the
 uninstall that clears it, and with an OAuth server whose refresh tokens work once.
 */
module TokenProtocol {
  import opened Wrappers

  type CallerId = nat
  type WriterId = nat
  type Member = string
  type Endpoint = string

  /** A token pair, named by its position in the server's history of minted pairs. */
  type Serial = nat

  // ------------------------------------------------------------------ errors and statuses

  datatype ErrorClass =
    | InvalidGrant
    | NoAuthFound
    | PaymentRequired
    | InsufficientScope
    | PortalDeleted
    | TransportError
    | OtherError

  datatype TokenStatus = StatusOk | ReauthRequired | NoStatsPermission | MethodMissing | FilterUnsupported

  function TerminalStatus(e: ErrorClass): Option<TokenStatus> {
    if e.InvalidGrant? || e.NoAuthFound? || e.PaymentRequired? || e.InsufficientScope?
    then Some(ReauthRequired) else None
  }

  // ------------------------------------------------------------------ the row

  datatype Row = Row(
    member: Member,
    access: Option<Serial>,
    refresh: Option<Serial>,
    endpoint: Endpoint,
    version: nat,
    status: TokenStatus)

  datatype Credential = Credential(serial: Serial, version: nat)

  /** What one exchange came to, seen from inside the locked section. */
  datatype Answer =
    | Rotated(serial: Serial, member: Member, endpoint: Endpoint) // spent the token, usable answer
    | Unusable(error: ErrorClass)                                 // spent the token, no usable answer
    | Refused(error: ErrorClass)                                  // spent nothing

  datatype Failure =
    | NoPortal
    | NoRefreshToken
    | RefreshFailed(error: ErrorClass)
    | MemberMismatch
    | Crashed
    | FnFailed
    | StillExpired

  predicate Moved(row: Row, seen: nat) {
    row.version != seen && row.access.Some?
  }

  /** The end of `_refresh_locked`: what is written, and what the caller gets. */
  function Settle(row: Row, answer: Answer): (Row, Result<Credential, Failure>) {
    match answer
    case Rotated(serial, member, endpoint) =>
      if member != row.member then (row.(status := ReauthRequired), Result.Failure(MemberMismatch))
      else
        (row.(access := Some(serial), refresh := Some(serial), endpoint := endpoint, version := row.version + 1),
         Success(Credential(serial, row.version + 1)))
    case Unusable(e) => (Failed(row, e), Result.Failure(RefreshFailed(e)))
    case Refused(e) => (Failed(row, e), Result.Failure(RefreshFailed(e)))
  }

  function Failed(row: Row, e: ErrorClass): Row {
    match TerminalStatus(e)
    case Some(status) => row.(status := status)
    case None => row
  }

  /** `_refresh_locked` from lock to commit, as one function of the row and the answer. */
  function RefreshLocked(row: Row, seen: nat, answer: Answer): (Row, Result<Credential, Failure>) {
    if Moved(row, seen) then (row, Success(Credential(row.access.value, row.version)))
    else if row.refresh.None? then (row, Result.Failure(NoRefreshToken))
    else Settle(row, answer)
  }

  /** The result of an exchange: a pair for this member is handed out, anything else raises what it was. */
  predicate Answers(answer: Answer, member: Member, r: Result<Credential, Failure>) {
    match answer
    case Rotated(serial, answered, _) =>
      if answered == member then r.Success? && r.value.serial == serial else r == Result.Failure(MemberMismatch)
    case Unusable(e) => r == Result.Failure(RefreshFailed(e))
    case Refused(e) => r == Result.Failure(RefreshFailed(e))
  }

  /** The row as the program updates it. */
  class PortalRow {
    var member: Member
    var access: Option<Serial>
    var refresh: Option<Serial>
    var endpoint: Endpoint
    var version: nat
    var status: TokenStatus

    function View(): Row
      reads this
    {
      Row(member, access, refresh, endpoint, version, status)
    }

    constructor (row: Row)
      ensures View() == row
    {
      member, access, refresh := row.member, row.access, row.refresh;
      endpoint, version, status := row.endpoint, row.version, row.status;
    }

    method Refresh(seen: nat, answer: Answer) returns (r: Result<Credential, Failure>)
      modifies this
      ensures (View(), r) == RefreshLocked(old(View()), seen, answer)
      ensures r.Success? ==> access == Some(r.value.serial) && version == r.value.version
      ensures r.Success? ==>
                || (View() == old(View()) && version != seen)
                || (answer == Rotated(r.value.serial, member, endpoint)
                    && View() == old(View()).(access := access, refresh := access, endpoint := endpoint,
                                              version := old(version) + 1))
      ensures r == Result.Failure(NoRefreshToken) ==> View() == old(View()) && refresh.None?
      ensures r == Result.Failure(MemberMismatch) ==>
                answer.Rotated? && answer.member != member && View() == old(View()).(status := ReauthRequired)
      ensures r.Failure? && r.error.RefreshFailed? ==>
                && (answer == Unusable(r.error.error) || answer == Refused(r.error.error))
                && View() == if r.error.error in {InvalidGrant, NoAuthFound, PaymentRequired, InsufficientScope}
                             then old(View()).(status := ReauthRequired) else old(View())
      ensures old(version != seen && access.Some?) ==> r.Success? && View() == old(View())
      ensures !old(version != seen && access.Some?) ==>
                if old(refresh.None?) then r == Result.Failure(NoRefreshToken) else Answers(answer, member, r)
    {
      if version != seen && access.Some? {
        return Success(Credential(access.value, version));
      }
      if refresh.None? {
        return Result.Failure(NoRefreshToken);
      }
      match answer {
        case Rotated(serial, answered, learned) =>
          if answered != member {
            status := ReauthRequired;
            return Result.Failure(MemberMismatch);
          }
          access, refresh := Some(serial), Some(serial);
          endpoint := learned;
          version := version + 1;
          return Success(Credential(serial, version));
        case Unusable(e) =>
          if TerminalStatus(e).Some? {
            status := TerminalStatus(e).value;
          }
          return Result.Failure(RefreshFailed(e));
        case Refused(e) =>
          if TerminalStatus(e).Some? {
            status := TerminalStatus(e).value;
          }
          return Result.Failure(RefreshFailed(e));
      }
    }

    /** `store_portal_credential` on a row that exists. */
    method Store(serial: Serial, learned: Endpoint, newStatus: TokenStatus)
      modifies this
      ensures View() == Stored(Some(old(View())), old(member), serial, learned, newStatus)
      ensures access == refresh == Some(serial) && endpoint == learned && status == newStatus
      ensures member == old(member) && version == old(version) + 1
    {
      access, refresh := Some(serial), Some(serial);
      endpoint, status := learned, newStatus;
      version := version + 1;
    }

    /** The credential columns of `mark_uninstalled` and `clear_credentials`. */
    method Clear()
      modifies this
      ensures View() == Cleared(old(View()))
      ensures access == refresh == None && status == ReauthRequired && version == old(version) + 1
      ensures member == old(member) && endpoint == old(endpoint)
    {
      access, refresh := None, None;
      status := ReauthRequired;
      version := version + 1;
    }
  }

  function Stored(row: Option<Row>, member: Member, serial: Serial, endpoint: Endpoint, status: TokenStatus): Row {
    Row(member, Some(serial), Some(serial), endpoint, if row.Some? then row.value.version + 1 else 1, status)
  }

  function Cleared(row: Row): Row {
    row.(access := None, refresh := None, status := ReauthRequired, version := row.version + 1)
  }

  // ------------------------------------------------------------------ the OAuth server

  /** Where a pair came from: issued to a user by the portal, or exchanged for a refresh token. */
  datatype Mint = Mint(parent: Option<Serial>, member: Member, endpoint: Endpoint)

  /** `proofs` holds each (pair, endpoint) whose access token answered `user.admin` with true there. */
  datatype Server = Server(minted: seq<Mint>, spent: set<Serial>, dead: set<Serial>, proofs: set<(Serial, Endpoint)>)

  predicate Live(server: Server, serial: Serial) {
    serial < |server.minted| && serial !in server.spent && serial !in server.dead
  }

  datatype Reply =
    | Rotates(member: Member, endpoint: Endpoint)
    | Garbles(error: ErrorClass)
    | Declines(error: ErrorClass)

  /** A refresh token works once: only a live one can be answered with anything but a refusal. */
  predicate CanReply(server: Server, presented: Serial, reply: Reply) {
    reply.Declines? || Live(server, presented)
  }

  function Serve(server: Server, presented: Serial, reply: Reply): (Server, Answer) {
    match reply
    case Rotates(member, endpoint) =>
      (server.(minted := server.minted + [Mint(Some(presented), member, endpoint)],
               spent := server.spent + {presented}),
       Rotated(|server.minted|, member, endpoint))
    case Garbles(e) => (server.(spent := server.spent + {presented}), Unusable(e))
    case Declines(e) => (server, Refused(e))
  }

  // ------------------------------------------------------------------ the system

  datatype Pc =
    | Start
    | Calling
    | Waiting(seen: nat)
    | Locked(seen: nat)
    | Answered(seen: nat, answer: Answer)
    | Returned
    | Raised(failure: Failure)

  /** One call of `with_portal_token`; `calls` are the credentials `fn` was run with. */
  datatype Caller = Caller(pc: Pc, calls: seq<Credential>, exchanges: nat, sawExpired: bool)

  /** The six handlers that end in `store_portal_credential`. */
  datatype Kind = Install | SelfHeal | Reseed | Reauthorize | EventUpdate | UnknownPortalEvent

  datatype Writer = Writer(kind: Kind, serial: Serial, proved: bool)

  /** `rotatedAt` and `lost` only record history; no step reads them. A newly stored or cleared pair is not lost. */
  datatype State = State(
    member: Member,
    row: Option<Row>,
    lock: Option<CallerId>,
    server: Server,
    callers: map<CallerId, Caller>,
    writers: map<WriterId, Writer>,
    rotatedAt: set<nat>,
    lost: bool)

  datatype Step =
    // with_portal_token
    | Load(c: CallerId, soon: bool)
    | FnReturns(c: CallerId)
    | FnFails(c: CallerId)
    | FnExpires(c: CallerId)
    | Acquire(c: CallerId)
    | Reuse(c: CallerId)
    | GiveUp(c: CallerId)
    | Exchange(c: CallerId, reply: Reply)
    | Commit(c: CallerId)
    | Crash(c: CallerId)
    // the handlers that store a credential
    | PostExchange(w: WriterId, kind: Kind, posted: Serial, reply: Reply)
    | ProveAdmin(w: WriterId)
    | StoreCredential(w: WriterId, status: TokenStatus)
    // the rest of the world
    | Issue(member: Member, endpoint: Endpoint)
    | Expire(serial: Serial)
    | ClearCredential
    | SetStatus(status: TokenStatus)

  function StepCaller(step: Step): Option<CallerId> {
    match step
    case Load(c, _) => Some(c)
    case FnReturns(c) => Some(c)
    case FnFails(c) => Some(c)
    case FnExpires(c) => Some(c)
    case Acquire(c) => Some(c)
    case Reuse(c) => Some(c)
    case GiveUp(c) => Some(c)
    case Exchange(c, _) => Some(c)
    case Commit(c) => Some(c)
    case Crash(c) => Some(c)
    case _ => None
  }

  predicate At(s: State, c: CallerId, pc: Pc) {
    c in s.callers && s.callers[c].pc == pc
  }

  predicate InLock(s: State, c: CallerId) {
    s.lock == Some(c) && c in s.callers && s.callers[c].pc.Locked? && s.row.Some?
  }

  predicate Enabled(s: State, step: Step) {
    match step
    case Load(c, _) => At(s, c, Start)
    case FnReturns(c) => At(s, c, Calling)
    case FnFails(c) => At(s, c, Calling)
    case FnExpires(c) => At(s, c, Calling) && s.callers[c].calls != []
    case Acquire(c) => c in s.callers && s.callers[c].pc.Waiting? && s.lock == None
    case Reuse(c) => InLock(s, c) && Moved(s.row.value, s.callers[c].pc.seen)
    case GiveUp(c) => InLock(s, c) && !Moved(s.row.value, s.callers[c].pc.seen) && s.row.value.refresh.None?
    case Exchange(c, reply) =>
      && InLock(s, c) && !Moved(s.row.value, s.callers[c].pc.seen) && s.row.value.refresh.Some?
      && CanReply(s.server, s.row.value.refresh.value, reply)
    case Commit(c) => s.lock == Some(c) && c in s.callers && s.callers[c].pc.Answered? && s.row.Some?
    case Crash(c) => s.lock == Some(c) && c in s.callers && (s.callers[c].pc.Locked? || s.callers[c].pc.Answered?)
    case PostExchange(w, kind, posted, reply) =>
      && w !in s.writers && posted < |s.server.minted| && CanReply(s.server, posted, reply)
      && (kind.Reseed? || kind.Reauthorize? || kind.EventUpdate? ==> s.row.Some?)
    case ProveAdmin(w) => w in s.writers && s.writers[w].serial < |s.server.minted|
    case StoreCredential(w, status) =>
      && w in s.writers && s.writers[w].proved && s.writers[w].serial < |s.server.minted|
      && s.lock == None && (status.StatusOk? || status.MethodMissing?)
    case Issue(_, _) => true
    case Expire(serial) => serial < |s.server.minted|
    case ClearCredential => s.row.Some? && s.lock == None
    case SetStatus(status) => s.row.Some? && s.lock == None && !status.StatusOk?
  }

  function Move(s: State, c: CallerId, pc: Pc): State
    requires c in s.callers
  {
    s.(callers := s.callers[c := s.callers[c].(pc := pc)])
  }

  /** `fn` is started with this credential. */
  function RunFn(s: State, c: CallerId, credential: Credential): State
    requires c in s.callers
  {
    var me := s.callers[c];
    s.(callers := s.callers[c := me.(pc := Calling, calls := me.calls + [credential])])
  }

  function Resume(s: State, c: CallerId, result: Result<Credential, Failure>): State
    requires c in s.callers
  {
    match result
    case Success(credential) => RunFn(s, c, credential)
    case Failure(failure) => Move(s, c, Raised(failure))
  }

  /** The server spent the stored token, and nothing that survives will say so. */
  predicate Loses(s: State, step: Step)
    requires Enabled(s, step)
  {
    match step
    case Commit(c) =>
      var answer := s.callers[c].pc.answer;
      answer.Unusable? && TerminalStatus(answer.error).None?
    case Crash(c) =>
      var pc := s.callers[c].pc;
      pc.Answered? && !pc.answer.Refused?
    case _ => false
  }

  /** The pair in the row is replaced or removed. */
  predicate Replaces(s: State, step: Step)
    requires Enabled(s, step)
  {
    match step
    case Commit(c) =>
      var answer := s.callers[c].pc.answer;
      answer.Rotated? && answer.member == s.row.value.member
    case StoreCredential(_, _) => true
    case ClearCredential => true
    case _ => false
  }

  /** Whether the pair now in the row has been lost. */
  predicate LostAfter(s: State, step: Step, lost: bool)
    requires Enabled(s, step)
  {
    !Replaces(s, step) && (lost || Loses(s, step))
  }

  function Apply(s: State, step: Step): State
    requires Enabled(s, step)
  {
    match step
    case Load(c, soon) =>
      if s.row.None? then Move(s, c, Raised(NoPortal))
      else
        var row := s.row.value;
        if row.access.None? || soon then Move(s, c, Waiting(row.version))
        else RunFn(s, c, Credential(row.access.value, row.version))
    case FnReturns(c) => Move(s, c, Returned)
    case FnFails(c) => Move(s, c, Raised(FnFailed))
    case FnExpires(c) =>
      var me := s.callers[c];
      var next := if |me.calls| == 1 then Waiting(me.calls[0].version) else Raised(StillExpired);
      s.(callers := s.callers[c := me.(pc := next, sawExpired := true)])
    case Acquire(c) =>
      if s.row.None? then Move(s, c, Raised(NoPortal))
      else Move(s, c, Locked(s.callers[c].pc.seen)).(lock := Some(c))
    case Reuse(c) =>
      var row := s.row.value;
      RunFn(s, c, Credential(row.access.value, row.version)).(lock := None)
    case GiveUp(c) => Move(s, c, Raised(NoRefreshToken)).(lock := None)
    case Exchange(c, reply) =>
      var (server, answer) := Serve(s.server, s.row.value.refresh.value, reply);
      var me := s.callers[c];
      s.(server := server,
         callers := s.callers[c := me.(pc := Answered(me.pc.seen, answer), exchanges := me.exchanges + 1)],
         rotatedAt := if answer.Refused? then s.rotatedAt else s.rotatedAt + {s.row.value.version})
    case Commit(c) =>
      var (row, result) := Settle(s.row.value, s.callers[c].pc.answer);
      Resume(s, c, result).(row := Some(row), lock := None, lost := LostAfter(s, step, s.lost))
    case Crash(c) => Move(s, c, Raised(Crashed)).(lock := None, lost := LostAfter(s, step, s.lost))
    case PostExchange(w, kind, posted, reply) =>
      var (server, answer) := Serve(s.server, posted, reply);
      if answer.Rotated? && answer.member == s.member
      then s.(server := server, writers := s.writers[w := Writer(kind, answer.serial, false)])
      else s.(server := server)
    case ProveAdmin(w) =>
      var serial := s.writers[w].serial;
      s.(server := s.server.(proofs := s.server.proofs + {(serial, s.server.minted[serial].endpoint)}),
         writers := s.writers[w := s.writers[w].(proved := true)])
    case StoreCredential(w, status) =>
      var serial := s.writers[w].serial;
      s.(row := Some(Stored(s.row, s.member, serial, s.server.minted[serial].endpoint, status)),
         writers := s.writers - {w},
         lost := false)
    case Issue(member, endpoint) =>
      s.(server := s.server.(minted := s.server.minted + [Mint(None, member, endpoint)]))
    case Expire(serial) => s.(server := s.server.(dead := s.server.dead + {serial}))
    case ClearCredential => s.(row := Some(Cleared(s.row.value)), lost := false)
    case SetStatus(status) => s.(row := Some(s.row.value.(status := status)))
  }

  // ------------------------------------------------------------------ runs

  predicate Init(s: State) {
    && s.row.None? && s.lock.None? && s.writers == map[] && s.rotatedAt == {} && !s.lost
    && s.server == Server([], {}, {}, {})
    && forall c :: c in s.callers ==> s.callers[c] == Caller(Start, [], 0, false)
  }

  predicate Legal(s: State, steps: seq<Step>)
    decreases |steps|
  {
    steps == [] || (Enabled(s, steps[0]) && Legal(Apply(s, steps[0]), steps[1..]))
  }

  function After(s: State, steps: seq<Step>): State
    requires Legal(s, steps)
    decreases |steps|
  {
    if steps == [] then s else After(Apply(s, steps[0]), steps[1..])
  }
}
