/**
 The lifecycle events of `handlers/events.py`: the ladder that judges one delivery from an
 unlocked read of the portal row, and the transactions it ends in.
 */
module Lifecycle {
  import opened Wrappers
  import opened Texts

  type Time = int

  // ------------------------------------------------------------------ the row

  datatype Status = Active | Uninstalled

  datatype Portal = Portal(
    status: Status,
    appToken: Option<string>,
    lastEventTs: Option<Time>,
    installedAt: Option<Time>,
    tokenOk: bool,
    hasTokens: bool,
    purgeBodies: bool,
    appVersion: Option<nat>,
    scope: string)

  function MarkedUninstalled(p: Portal, clean: bool): Portal {
    if p.status.Uninstalled? then p
    else p.(status := Uninstalled, hasTokens := false, tokenOk := false, purgeBodies := clean)
  }

  /** `_touch_last_event_ts`: the guard is part of the UPDATE. */
  function Touched(p: Portal, ts: Option<Time>): Portal {
    if ts.Some? && (p.lastEventTs.None? || p.lastEventTs.value < ts.value) then p.(lastEventTs := ts) else p
  }

  /** `store_portal_credential`: an upsert that makes the portal active as of `now`. */
  function CredentialStored(p: Option<Portal>, appToken: Option<string>, scope: string, tokenOk: bool,
                            now: Time): Portal {
    match p
    case None => Portal(Active, appToken, None, Some(now), tokenOk, true, false, None, scope)
    case Some(was) =>
      was.(status := Active,
           appToken := if appToken.Some? then appToken else was.appToken,
           installedAt := Some(now), tokenOk := tokenOk, hasTokens := true, scope := scope)
  }

  // ------------------------------------------------------------------ one event

  datatype Name = OnInstall | OnUserReady | OnUpdate | OnUninstall | Settings | Unsubscribed

  /** A parsed body; empty strings have become absent fields. */
  datatype Event = Event(
    name: Name,
    member: bool,
    ts: Option<Time>,
    appToken: Option<string>,
    accessToken: bool,
    refreshToken: bool,
    domain: bool,
    clean: Option<string>,
    version: Option<nat>,
    scope: Option<string>)

  /** `_clean_requested`: `data[CLEAN]`, trimmed, is strictly `1`. */
  predicate CleanRequested(e: Event) {
    e.clean.Some? && Strip(e.clean.value) == "1"
  }

  datatype RefreshProof = SameMember(scope: string) | RefreshFailed | RateLimited

  /** The answers of the outside world to the checks the ladder may make. */
  datatype Oracle = Oracle(
    tokenReadable: bool,     // the sealed application token could be opened
    admin: bool,             // auth[access_token] proved an administrator at the stored endpoint
    refresh: RefreshProof,   // auth[refresh_token] exchanged to the claimed member_id
    exchangedAdmin: bool)    // the exchanged pair proved an administrator at its own endpoint

  datatype Action =
    | DoUninstall(clean: bool)
    | DoTouch
    | DoSeed(secret: string)
    | DoUpdate(rotated: Option<string>, version: Option<nat>, eventScope: Option<string>, reseed: Option<string>)
    | DoCreate(presented: Option<string>, grantedScope: string)

  datatype Decision =
    | Answer(status: nat, reason: string)
    | Act(action: Action)

  predicate Replay(p: Portal, e: Event) {
    e.ts.Some? &&
    ((p.lastEventTs.Some? && e.ts.value <= p.lastEventTs.value)
     || (e.name.OnUninstall? && p.installedAt.Some? && e.ts.value < p.installedAt.value))
  }

  predicate TokenMatches(p: Portal, e: Event, o: Oracle) {
    p.appToken.Some? && o.tokenReadable && p.appToken.value == (if e.appToken.Some? then e.appToken.value else "")
  }

  const OK: Decision := Answer(200, "")

  /** An administrator's token at the stored endpoint, and a refresh exchange that lands on this member. */
  predicate Proved(e: Event, o: Oracle) {
    e.accessToken && o.admin && e.refreshToken && o.refresh.SameMember?
  }

  /** Both halves of the elevated proof, the cheap one first; `OK` stands for "proved". */
  function ElevatedProof(e: Event, o: Oracle): Decision {
    if !e.accessToken || !o.admin then Answer(403, "admin_proof_failed")
    else if !e.refreshToken || o.refresh.RefreshFailed? then Answer(403, "refresh_proof_failed")
    else if o.refresh.RateLimited? then Answer(429, "rate_limited")
    else OK
  }

  function DecideUpdate(p: Portal, e: Event, o: Oracle): Decision {
    if p.status.Uninstalled? then OK
    else if ElevatedProof(e, o) != OK then ElevatedProof(e, o)
    else if !p.tokenOk && !o.exchangedAdmin then Answer(403, "reseed_admin_proof_failed")
    else Act(DoUpdate(e.appToken, e.version, e.scope, if p.tokenOk then None else Some(o.refresh.scope)))
  }

  function DecideKnownInstall(p: Portal, e: Event, o: Oracle): Decision {
    if p.appToken.Some? || e.appToken.None? then Act(DoTouch)
    else if ElevatedProof(e, o) != OK then ElevatedProof(e, o)
    else Act(DoSeed(e.appToken.value))
  }

  function DecideUnknown(e: Event, o: Oracle): Decision {
    if !e.accessToken || !e.refreshToken || !e.domain then OK
    else if o.refresh.RateLimited? then Answer(429, "rate_limited")
    else if o.refresh.RefreshFailed? then Answer(403, "refresh_proof_failed")
    else if !o.exchangedAdmin then Answer(403, "admin_proof_failed")
    else Act(DoCreate(e.appToken, o.refresh.scope))
  }

  /** `_ladder`, as a function of the row it read. */
  function Decide(portal: Option<Portal>, e: Event, o: Oracle): Decision {
    if e.name.Settings? || e.name.Unsubscribed? || !e.member then OK
    else if portal.None? then (if e.name.OnUninstall? then OK else DecideUnknown(e, o))
    else
      var p := portal.value;
      if Replay(p, e) then OK
      else if p.appToken.Some? && !e.name.OnUpdate? && !TokenMatches(p, e, o)
        then Answer(403, "application_token_mismatch")
      else if e.name.OnUninstall? && !p.status.Uninstalled? && p.appToken.None? then Answer(403, "no_application_token")
      else if e.name.OnUninstall? then (if p.status.Uninstalled? then OK else Act(DoUninstall(CleanRequested(e))))
      else if e.name.OnUpdate? then DecideUpdate(p, e, o)
      else DecideKnownInstall(p, e, o)
  }

  /** The transaction of one action on the row as it is by then. */
  function Performed(portal: Option<Portal>, a: Action, ts: Option<Time>, now: Time): Option<Portal> {
    match a
    case DoCreate(appToken, scope) => Some(Touched(CredentialStored(portal, appToken, scope, true, now), ts))
    case _ =>
      if portal.None? then None
      else Some(Touched(Changed(portal.value, a, now), ts))
  }

  function Changed(p: Portal, a: Action, now: Time): Portal {
    match a
    case DoUninstall(clean) => MarkedUninstalled(p, clean)
    case DoTouch => p
    case DoSeed(appToken) => p.(appToken := Some(appToken))
    case DoUpdate(appToken, version, scope, reseed) =>
      var q := if reseed.Some? then CredentialStored(Some(p), appToken, reseed.value, true, now) else p;
      q.(appToken := if appToken.Some? then appToken else q.appToken,
         appVersion := if version.Some? then version else q.appVersion,
         scope := if scope.Some? && reseed.None? then scope.value else q.scope)
    case DoCreate(_, _) => p
  }

  // ------------------------------------------------------------------ as the program runs it

  /** `_EventLog`: what the one log row of this request will say. */
  class EventLog {
    var status: nat
    var reason: string

    constructor ()
      ensures status == 200 && reason == ""
    {
      status, reason := 200, "";
    }
  }

  function StatusOf(d: Decision): nat {
    if d.Answer? then d.status else 200
  }

  function ReasonOf(d: Decision): string {
    if d.Answer? then d.reason else ""
  }

  method Reject(entry: EventLog, status: nat, reason: string) returns (d: Decision)
    modifies entry
    ensures entry.status == status && entry.reason == reason
    ensures d == Answer(status, reason)
  {
    entry.status, entry.reason := status, reason;
    return Answer(status, reason);
  }

  method ProveElevated(e: Event, o: Oracle, entry: EventLog) returns (d: Decision)
    requires entry.status == 200 && entry.reason == ""
    modifies entry
    ensures d == ElevatedProof(e, o)
    ensures d == OK <==> Proved(e, o)
    ensures d != OK ==> d.Answer? && d.status in {403, 429}
    ensures d == Answer(403, "admin_proof_failed") <==> !e.accessToken || !o.admin
    ensures d == Answer(429, "rate_limited") <==> e.accessToken && o.admin && e.refreshToken && o.refresh.RateLimited?
    ensures d == Answer(403, "refresh_proof_failed") <==>
              e.accessToken && o.admin && (!e.refreshToken || o.refresh.RefreshFailed?)
    ensures entry.status == StatusOf(d) && entry.reason == ReasonOf(d)
  {
    if !e.accessToken || !o.admin {
      d := Reject(entry, 403, "admin_proof_failed");
      return;
    }
    if e.refreshToken && o.refresh.RateLimited? {
      d := Reject(entry, 429, "rate_limited");
      return;
    }
    if !e.refreshToken || o.refresh.RefreshFailed? {
      d := Reject(entry, 403, "refresh_proof_failed");
      return;
    }
    return OK;
  }

  method Ladder(portal: Option<Portal>, e: Event, o: Oracle, entry: EventLog) returns (d: Decision)
    requires entry.status == 200 && entry.reason == ""
    modifies entry
    ensures d == Decide(portal, e, o)
    ensures entry.status == StatusOf(d) && entry.reason == ReasonOf(d)
  {
    if e.name.Settings? || e.name.Unsubscribed? || !e.member {
      return OK;
    }
    if portal.Some? && Replay(portal.value, e) {
      return OK;
    }
    if portal.Some? && portal.value.appToken.Some? && !e.name.OnUpdate? && !TokenMatches(portal.value, e, o) {
      d := Reject(entry, 403, "application_token_mismatch");
      return;
    }
    if e.name.OnUninstall? && portal.Some? && !portal.value.status.Uninstalled? && portal.value.appToken.None? {
      d := Reject(entry, 403, "no_application_token");
      return;
    }
    if e.name.OnUninstall? {
      if portal.None? || portal.value.status.Uninstalled? {
        return OK;
      }
      return Act(DoUninstall(CleanRequested(e)));
    }
    if portal.None? {
      d := HandleUnknown(e, o, entry);
    } else if e.name.OnUpdate? {
      d := HandleUpdate(portal.value, e, o, entry);
    } else {
      d := HandleKnownInstall(portal.value, e, o, entry);
    }
  }

  method HandleUpdate(p: Portal, e: Event, o: Oracle, entry: EventLog) returns (d: Decision)
    requires entry.status == 200 && entry.reason == ""
    modifies entry
    ensures d == DecideUpdate(p, e, o)
    ensures p.status.Uninstalled? ==> d == OK
    ensures d.Act? <==> p.status.Active? && Proved(e, o) && (p.tokenOk || o.exchangedAdmin)
    ensures d.Act? ==> d.action.DoUpdate? && d.action.rotated == e.appToken && (d.action.reseed.Some? <==> !p.tokenOk)
    ensures d.Act? ==> d.action.version == e.version && d.action.eventScope == e.scope
    ensures d.Act? && d.action.reseed.Some? ==> o.exchangedAdmin && d.action.reseed.value == o.refresh.scope
    ensures d == Answer(403, "reseed_admin_proof_failed") <==>
              p.status.Active? && Proved(e, o) && !p.tokenOk && !o.exchangedAdmin
    ensures entry.status == StatusOf(d) && entry.reason == ReasonOf(d)
  {
    if p.status.Uninstalled? {
      return OK;
    }
    var proof := ProveElevated(e, o, entry);
    if proof != OK {
      return proof;
    }
    var reseeded := !p.tokenOk;
    if reseeded && !o.exchangedAdmin {
      d := Reject(entry, 403, "reseed_admin_proof_failed");
      return;
    }
    return Act(DoUpdate(e.appToken, e.version, e.scope, if reseeded then Some(o.refresh.scope) else None));
  }

  method HandleKnownInstall(p: Portal, e: Event, o: Oracle, entry: EventLog) returns (d: Decision)
    requires entry.status == 200 && entry.reason == ""
    modifies entry
    ensures d == DecideKnownInstall(p, e, o)
    ensures d.Act? ==> d.action.DoTouch? || (d.action.DoSeed? && e.appToken == Some(d.action.secret))
    ensures d.Act? && d.action.DoSeed? <==> p.appToken.None? && e.appToken.Some? && Proved(e, o)
    ensures d.Act? && d.action.DoTouch? <==> p.appToken.Some? || e.appToken.None?
    ensures entry.status == StatusOf(d) && entry.reason == ReasonOf(d)
  {
    if p.appToken.Some? || e.appToken.None? {
      return Act(DoTouch);
    }
    var proof := ProveElevated(e, o, entry);
    if proof != OK {
      return proof;
    }
    return Act(DoSeed(e.appToken.value));
  }

  method HandleUnknown(e: Event, o: Oracle, entry: EventLog) returns (d: Decision)
    requires entry.status == 200 && entry.reason == ""
    modifies entry
    ensures d == DecideUnknown(e, o)
    ensures d.Act? <==> e.accessToken && e.refreshToken && e.domain && o.refresh.SameMember? && o.exchangedAdmin
    ensures d.Act? ==> d.action == DoCreate(e.appToken, o.refresh.scope)
    ensures var complete := e.accessToken && e.refreshToken && e.domain;
            && (d == Answer(200, "") <==> !complete)
            && (d == Answer(429, "rate_limited") <==> complete && o.refresh.RateLimited?)
            && (d == Answer(403, "refresh_proof_failed") <==> complete && o.refresh.RefreshFailed?)
            && (d == Answer(403, "admin_proof_failed") <==> complete && o.refresh.SameMember? && !o.exchangedAdmin)
    ensures entry.status == StatusOf(d) && entry.reason == ReasonOf(d)
  {
    if !(e.accessToken && e.refreshToken) {
      return OK;
    }
    if !e.domain {
      return OK;
    }
    if o.refresh.RateLimited? {
      d := Reject(entry, 429, "rate_limited");
      return;
    }
    if o.refresh.RefreshFailed? {
      d := Reject(entry, 403, "refresh_proof_failed");
      return;
    }
    if !o.exchangedAdmin {
      d := Reject(entry, 403, "admin_proof_failed");
      return;
    }
    return Act(DoCreate(e.appToken, o.refresh.scope));
  }

  /** The columns of one `portals` row that events may write, updated in place. */
  class PortalRecord {
    var status: Status
    var appToken: Option<string>
    var lastEventTs: Option<Time>
    var installedAt: Option<Time>
    var tokenOk: bool
    var hasTokens: bool
    var purgeBodies: bool
    var appVersion: Option<nat>
    var scope: string

    function View(): Portal
      reads this
    {
      Portal(status, appToken, lastEventTs, installedAt, tokenOk, hasTokens, purgeBodies, appVersion, scope)
    }

    method MarkUninstalled(clean: bool) returns (applied: bool)
      modifies this
      ensures View() == MarkedUninstalled(old(View()), clean)
      ensures applied <==> old(status).Active?
      ensures applied ==> status.Uninstalled? && !hasTokens && !tokenOk && purgeBodies == clean
      ensures !applied ==> View() == old(View())
      ensures appToken == old(appToken) && lastEventTs == old(lastEventTs) && installedAt == old(installedAt)
      ensures appVersion == old(appVersion) && scope == old(scope)
    {
      if status.Uninstalled? {
        return false;
      }
      status, hasTokens, tokenOk, purgeBodies := Uninstalled, false, false, clean;
      return true;
    }

    method TouchLastEventTs(ts: Option<Time>)
      modifies this
      ensures View() == Touched(old(View()), ts)
      ensures View() == old(View()).(lastEventTs := lastEventTs)
      ensures lastEventTs == if ts.Some? && (old(lastEventTs).None? || old(lastEventTs).value < ts.value) then ts
                             else old(lastEventTs)
    {
      if ts.None? {
        return;
      }
      if lastEventTs.None? || lastEventTs.value < ts.value {
        lastEventTs := ts;
      }
    }

    method StoreCredential(newToken: Option<string>, newScope: string, ok: bool, now: Time)
      modifies this
      ensures View() == CredentialStored(Some(old(View())), newToken, newScope, ok, now)
      ensures status.Active? && hasTokens && tokenOk == ok && installedAt == Some(now) && scope == newScope
      ensures appToken == if newToken.Some? then newToken else old(appToken)
      ensures lastEventTs == old(lastEventTs) && purgeBodies == old(purgeBodies) && appVersion == old(appVersion)
    {
      status, installedAt, tokenOk, hasTokens, scope := Active, Some(now), ok, true, newScope;
      if newToken.Some? {
        appToken := newToken;
      }
    }

    /** The write of whichever handler the ladder chose, one transaction. */
    method Perform(a: Action, ts: Option<Time>, now: Time)
      requires !a.DoCreate?
      modifies this
      ensures Some(View()) == Performed(Some(old(View())), a, ts, now)
    {
      match a {
        case DoUninstall(clean) =>
          var applied := MarkUninstalled(clean);
        case DoTouch =>
        case DoSeed(token) =>
          appToken := Some(token);
        case DoUpdate(token, version, newScope, reseed) =>
          if reseed.Some? {
            StoreCredential(token, reseed.value, true, now);
          }
          if token.Some? {
            appToken := token;
          }
          if version.Some? {
            appVersion := version;
          }
          if newScope.Some? && reseed.None? {
            scope := newScope.value;
          }
      }
      TouchLastEventTs(ts);
    }
  }
}
