/**
 Whole runs of lifecycle events: deliveries are read without a lock and applied later, so
 installs, admin opens, worker uninstalls and other deliveries may fall in between.
 */
module LifecycleRuns {
  import opened Wrappers
  import opened Texts
  import opened Lifecycle

  type DeliveryId = nat

  /** A delivery between its read and its transaction. */
  datatype Delivery = Delivery(event: Event, oracle: Oracle, snapshot: Option<Portal>, action: Action)

  datatype State = State(portal: Option<Portal>, now: Time, inflight: map<DeliveryId, Delivery>)

  datatype Step =
    | Receive(d: DeliveryId, event: Event, oracle: Oracle)
    | Perform(d: DeliveryId)
    | Store(appToken: Option<string>, scope: string, tokenOk: bool) // install, self-heal, re-seed, re-authorize
    | AdminOpen(posted: string)                                      // housekeeping by a proven administrator
    | WorkerUninstall                                                // PORTAL_DELETED or the grace-period sweep
    | TokenFails                                                     // the worker records a terminal token status
    | Tick(later: Time)

  predicate Enabled(s: State, step: Step) {
    match step
    case Receive(d, _, _) => d !in s.inflight
    case Perform(d) => d in s.inflight
    case Store(_, _, _) => true
    case AdminOpen(posted) => s.portal.Some? && posted != ""
    case WorkerUninstall => s.portal.Some?
    case TokenFails => s.portal.Some?
    case Tick(later) => s.now <= later
  }

  function Apply(s: State, step: Step): State
    requires Enabled(s, step)
  {
    match step
    case Receive(d, event, oracle) =>
      (match Decide(s.portal, event, oracle)
       case Answer(_, _) => s
       case Act(action) => s.(inflight := s.inflight[d := Delivery(event, oracle, s.portal, action)]))
    case Perform(d) =>
      s.(portal := Performed(s.portal, s.inflight[d].action, s.inflight[d].event.ts, s.now),
         inflight := s.inflight - {d})
    case Store(appToken, scope, tokenOk) =>
      s.(portal := Some(CredentialStored(s.portal, appToken, scope, tokenOk, s.now)))
    case AdminOpen(posted) => s.(portal := Some(s.portal.value.(appToken := Some(posted))))
    case WorkerUninstall => s.(portal := Some(MarkedUninstalled(s.portal.value, false)))
    case TokenFails => s.(portal := Some(s.portal.value.(tokenOk := false)))
    case Tick(later) => s.(now := later)
  }

  predicate Legal(s: State, steps: seq<Step>)
    decreases |steps|
  {
    steps == [] || (Enabled(s, steps[0]) && Legal(Apply(s, steps[0]), steps[1..]))
  }

  function After(s: State, steps: seq<Step>): State
    requires Legal(s, steps)
    decreases |steps|
  {
    if steps == [] then s else After(Apply(s, steps[0]), steps[1..])
  }

  // ------------------------------------------------------------------ the event cursor

  predicate AtMost(a: Option<Time>, b: Option<Time>) {
    a.Some? ==> b.Some? && a.value <= b.value
  }

  function Cursor(s: State): Option<Time> {
    if s.portal.None? then None else s.portal.value.lastEventTs
  }

  lemma {:induction false} CursorStep(s: State, step: Step)
    requires Enabled(s, step)
    ensures AtMost(Cursor(s), Cursor(Apply(s, step)))
    ensures s.portal.Some? ==> Apply(s, step).portal.Some?
  {
  }

  /** `last_event_ts` never moves back, however deliveries interleave. */
  lemma {:induction false} CursorNeverFalls(s: State, steps: seq<Step>)
    requires Legal(s, steps)
    ensures AtMost(Cursor(s), Cursor(After(s, steps)))
    ensures s.portal.Some? ==> After(s, steps).portal.Some?
    decreases |steps|
  {
    if steps != [] {
      CursorStep(s, steps[0]);
      CursorNeverFalls(Apply(s, steps[0]), steps[1..]);
    }
  }

  // ------------------------------------------------------------------ replayed and stale deliveries

  /** The state before step `i`, or the last one. */
  function StateAt(s: State, steps: seq<Step>, i: nat): State
    requires Legal(s, steps) && i <= |steps|
    decreases i
  {
    if i == 0 then s else StateAt(Apply(s, steps[0]), steps[1..], i - 1)
  }

  lemma {:induction false} StateAtNext(s: State, steps: seq<Step>, i: nat)
    requires Legal(s, steps) && i < |steps|
    ensures Enabled(StateAt(s, steps, i), steps[i])
    ensures StateAt(s, steps, i + 1) == Apply(StateAt(s, steps, i), steps[i])
    decreases i
  {
    if i > 0 {
      StateAtNext(Apply(s, steps[0]), steps[1..], i - 1);
    } else {
      assert StateAt(Apply(s, steps[0]), steps[1..], 0) == Apply(s, steps[0]);
    }
  }

  lemma {:induction false} StateAtEnd(s: State, steps: seq<Step>)
    requires Legal(s, steps)
    ensures StateAt(s, steps, |steps|) == After(s, steps)
    decreases |steps|
  {
    if steps != [] {
      StateAtEnd(Apply(s, steps[0]), steps[1..]);
    }
  }

  /**
   Once a stamped delivery has been applied, every later delivery of the same event, or of
   any event stamped no later, is answered 200 and leaves the row alone in every
   continuation, reinstalls included.
   */
  lemma {:induction false} AppliedEventIsFinal(s: State, d: DeliveryId, steps: seq<Step>, again: Event, o: Oracle)
    requires Enabled(s, Perform(d)) && s.inflight[d].event.ts.Some?
    requires s.portal.Some? || s.inflight[d].action.DoCreate?
    requires Legal(Apply(s, Perform(d)), steps)
    requires again.ts.Some? && again.ts.value <= s.inflight[d].event.ts.value
    ensures Decide(After(Apply(s, Perform(d)), steps).portal, again, o) == OK
  {
    var t := Apply(s, Perform(d));
    assert AtMost(s.inflight[d].event.ts, Cursor(t));
    CursorNeverFalls(t, steps);
  }

  /** The delivery applied at step `j` is one that was in flight when the run began. */
  predicate ReadBefore(s: State, steps: seq<Step>, j: nat)
    requires Legal(s, steps) && j < |steps| && steps[j].Perform?
  {
    var d, u := steps[j].d, StateAt(s, steps, j);
    d in u.inflight && d in s.inflight && s.inflight[d] == u.inflight[d]
  }

  predicate StampedBy(e: Event, ts: Time) {
    e.ts.Some? && e.ts.value <= ts
  }

  /** Every delivery in flight that is stamped no later than `ts` was in flight at the start. */
  predicate StaleAreOld(start: State, s: State, ts: Time) {
    forall d :: d in s.inflight && StampedBy(s.inflight[d].event, ts) ==>
      d in start.inflight && start.inflight[d] == s.inflight[d]
  }

  lemma {:induction false} StaleAreOldStep(start: State, s: State, step: Step, ts: Time)
    requires StaleAreOld(start, s, ts) && AtMost(Some(ts), Cursor(s)) && Enabled(s, step)
    ensures StaleAreOld(start, Apply(s, step), ts) && AtMost(Some(ts), Cursor(Apply(s, step)))
  {
    CursorStep(s, step);
  }

  lemma {:induction false} StaleAreOldAt(s: State, steps: seq<Step>, i: nat, ts: Time)
    requires Legal(s, steps) && i <= |steps| && AtMost(Some(ts), Cursor(s))
    ensures StaleAreOld(s, StateAt(s, steps, i), ts) && AtMost(Some(ts), Cursor(StateAt(s, steps, i)))
    decreases i
  {
    if i > 0 {
      StaleAreOldAt(s, steps, i - 1, ts);
      StateAtNext(s, steps, i - 1);
      StaleAreOldStep(s, StateAt(s, steps, i - 1), steps[i - 1], ts);
    }
  }

  /**
   Replay at the level of the row. After a delivery stamped `ts` is applied, an action
   stamped no later can change the row in a continuation only if it was in flight,
   read and not yet applied, at that very moment.
   */
  lemma {:induction false} StaleActionWasInFlight(s: State, d: DeliveryId, steps: seq<Step>, i: nat)
    requires Enabled(s, Perform(d)) && s.inflight[d].event.ts.Some?
    requires s.portal.Some? || s.inflight[d].action.DoCreate?
    requires Legal(Apply(s, Perform(d)), steps) && i < |steps| && steps[i].Perform?
    ensures var t := Apply(s, Perform(d));
            var u := StateAt(t, steps, i);
            && steps[i].d in u.inflight
            && (StampedBy(u.inflight[steps[i].d].event, s.inflight[d].event.ts.value) ==> ReadBefore(t, steps, i))
  {
    var t := Apply(s, Perform(d));
    assert AtMost(s.inflight[d].event.ts, Cursor(t));
    StaleAreOldAt(t, steps, i, s.inflight[d].event.ts.value);
    StateAtNext(t, steps, i);
  }

  /** Step `i` of the run applies a delivery stamped no later than `ts`. */
  predicate AppliesStale(s: State, steps: seq<Step>, i: nat, ts: Time)
    requires Legal(s, steps)
  {
    && i < |steps| && steps[i].Perform?
    && steps[i].d in StateAt(s, steps, i).inflight
    && StampedBy(StateAt(s, steps, i).inflight[steps[i].d].event, ts)
  }

  ghost predicate StaleMayLand(s: State, ts: Time) {
    exists steps: seq<Step>, i: nat :: Legal(s, steps) && AppliesStale(s, steps, i, ts)
  }

  predicate StaleInFlight(s: State, ts: Time) {
    exists d :: d in s.inflight && StampedBy(s.inflight[d].event, ts)
  }

  /** With the cursor at `ts` or above, a stale action can still land if and only if one is in flight now. */
  lemma {:induction false} StaleLandsIffInFlight(s: State, ts: Time)
    requires AtMost(Some(ts), Cursor(s))
    ensures StaleMayLand(s, ts) <==> StaleInFlight(s, ts)
  {
    if StaleMayLand(s, ts) {
      var steps: seq<Step>, i: nat :| Legal(s, steps) && AppliesStale(s, steps, i, ts);
      StaleAreOldAt(s, steps, i, ts);
      assert steps[i].d in s.inflight;
    }
    if d :| d in s.inflight && StampedBy(s.inflight[d].event, ts) {
      var steps := [Perform(d)];
      assert Legal(Apply(s, steps[0]), steps[1..]);
      assert AppliesStale(s, steps, 0, ts);
    }
  }

  function AppToken(s: State): Option<string> {
    if s.portal.None? then None else s.portal.value.appToken
  }

  /** A proved update that presents an application token, against a healthy row. */
  predicate Rotates(p: Portal, e: Event, o: Oracle) {
    && e.name.OnUpdate? && e.member && p.status.Active? && p.tokenOk && !Replay(p, e)
    && Proved(e, o) && e.appToken.Some?
  }

  /**
   And one in flight does change it: of two updates read before either is applied, the older
   one, applied last, replaces the newer secret, while the cursor keeps the newer stamp.
   */
  lemma {:induction false} StaleUpdateReplacesNewer(s: State, d1: DeliveryId, d2: DeliveryId, e1: Event, e2: Event,
                                                    o1: Oracle, o2: Oracle)
    requires d1 != d2 && d1 !in s.inflight && d2 !in s.inflight && s.portal.Some?
    requires Rotates(s.portal.value, e1, o1) && Rotates(s.portal.value, e2, o2)
    requires e1.ts.Some? && e2.ts.Some? && e1.ts.value < e2.ts.value
    ensures var steps := [Receive(d1, e1, o1), Receive(d2, e2, o2), Perform(d2), Perform(d1)];
            && Legal(s, steps)
            && AppToken(StateAt(s, steps, 3)) == e2.appToken
            && AppToken(After(s, steps)) == e1.appToken && Cursor(After(s, steps)) == e2.ts
  {
    var s1 := Apply(s, Receive(d1, e1, o1));
    var s2 := Apply(s1, Receive(d2, e2, o2));
    assert s2.portal == s.portal && d1 in s2.inflight && d2 in s2.inflight;
    var s3 := Apply(s2, Perform(d2));
    var s4 := Apply(s3, Perform(d1));
    FourSteps(s, Receive(d1, e1, o1), Receive(d2, e2, o2), Perform(d2), Perform(d1));
  }

  lemma {:induction false} OneMore(s: State, step: Step, rest: seq<Step>)
    requires Enabled(s, step) && Legal(Apply(s, step), rest)
    ensures Legal(s, [step] + rest) && After(s, [step] + rest) == After(Apply(s, step), rest)
  {
    assert ([step] + rest)[1..] == rest;
  }

  lemma {:induction false} FourSteps(s: State, a: Step, b: Step, c: Step, d: Step)
    requires Enabled(s, a) && Enabled(Apply(s, a), b) && Enabled(Apply(Apply(s, a), b), c)
    requires Enabled(Apply(Apply(Apply(s, a), b), c), d)
    ensures var steps := [a, b, c, d];
            && Legal(s, steps) && StateAt(s, steps, 3) == Apply(Apply(Apply(s, a), b), c)
            && After(s, steps) == Apply(Apply(Apply(Apply(s, a), b), c), d)
  {
    var s1 := Apply(s, a);
    var s2 := Apply(s1, b);
    var s3 := Apply(s2, c);
    var none: seq<Step> := [];
    assert Legal(Apply(s3, d), none);
    OneMore(s3, d, none);
    OneMore(s2, c, [d]);
    OneMore(s1, b, [c, d]);
    OneMore(s, a, [b, c, d]);
    assert [d] + none == [d] && [c] + [d] == [c, d] && [b] + [c, d] == [b, c, d] && [a] + [b, c, d] == [a, b, c, d];
    var steps := [a, b, c, d];
    StateAtNext(s, steps, 0);
    StateAtNext(s, steps, 1);
    StateAtNext(s, steps, 2);
  }

  // ------------------------------------------------------------------ what an uninstalled row holds

  /** An uninstalled portal has no API token, and says so. */
  predicate Emptied(s: State) {
    s.portal.Some? && s.portal.value.status.Uninstalled? ==> !s.portal.value.hasTokens && !s.portal.value.tokenOk
  }

  predicate HasAppToken(s: State) {
    s.portal.Some? && s.portal.value.appToken.Some?
  }

  lemma {:induction false} EmptiedStep(s: State, step: Step)
    requires Emptied(s) && Enabled(s, step)
    ensures Emptied(Apply(s, step)) && (HasAppToken(s) ==> HasAppToken(Apply(s, step)))
  {
    if step.Perform? {
      var x := s.inflight[step.d];
      EmptiedPerform(s.portal, x.action, x.event.ts, s.now);
    }
  }

  lemma {:induction false} EmptiedPerform(portal: Option<Portal>, a: Action, ts: Option<Time>, now: Time)
    requires portal.Some? && portal.value.status.Uninstalled? ==> !portal.value.hasTokens && !portal.value.tokenOk
    ensures var after := Performed(portal, a, ts, now);
            && (after.Some? && after.value.status.Uninstalled? ==> !after.value.hasTokens && !after.value.tokenOk)
            && (portal.Some? && portal.value.appToken.Some? ==> after.Some? && after.value.appToken.Some?)
  {
  }

  /**
   No event, install, open or failure, in any order, gives an uninstalled portal its tokens
   back without making it active; and the application token that late uninstalls are
   judged by is never lost once it is stored.
   */
  lemma {:induction false} UninstalledHoldsNothing(s: State, steps: seq<Step>)
    requires Emptied(s) && Legal(s, steps)
    ensures Emptied(After(s, steps)) && (HasAppToken(s) ==> HasAppToken(After(s, steps)))
    decreases |steps|
  {
    if steps != [] {
      EmptiedStep(s, steps[0]);
      UninstalledHoldsNothing(Apply(s, steps[0]), steps[1..]);
    }
  }

  // ------------------------------------------------------------------ where an in-flight action came from

  /** The delivery was read at step `k`, and its action is what the ladder said of the row then. */
  predicate ReadAt(s: State, steps: seq<Step>, k: nat, d: DeliveryId, x: Delivery)
    requires Legal(s, steps)
  {
    && k < |steps| && Legal(s, steps[..k])
    && steps[k] == Receive(d, x.event, x.oracle)
    && After(s, steps[..k]).portal == x.snapshot
    && Decide(x.snapshot, x.event, x.oracle) == Act(x.action)
  }

  lemma {:induction false} LegalPrefix(s: State, steps: seq<Step>, k: nat)
    requires Legal(s, steps) && k <= |steps|
    ensures Legal(s, steps[..k])
    decreases |steps|
  {
    if k > 0 {
      LegalPrefix(Apply(s, steps[0]), steps[1..], k - 1);
      assert steps[..k][1..] == steps[1..][..k - 1];
    }
  }

  lemma {:induction false} AfterPrefix(s: State, steps: seq<Step>, k: nat)
    requires Legal(s, steps) && k < |steps| && Legal(s, steps[..k + 1])
    ensures Legal(s, steps[..k]) && Enabled(After(s, steps[..k]), steps[k])
    ensures After(s, steps[..k + 1]) == Apply(After(s, steps[..k]), steps[k])
    decreases |steps|
  {
    LegalPrefix(s, steps, k);
    if k == 0 {
      assert steps[..1][1..] == [];
    } else {
      var t, rest := Apply(s, steps[0]), steps[1..];
      assert steps[..k + 1][1..] == rest[..k] && steps[..k][1..] == rest[..k - 1];
      AfterPrefix(t, rest, k - 1);
    }
  }

  lemma {:induction false} InflightWasReadUpTo(s: State, steps: seq<Step>, n: nat, d: DeliveryId)
    returns (k: nat)
    requires s.inflight == map[] && Legal(s, steps) && n <= |steps|
    requires Legal(s, steps[..n]) && d in After(s, steps[..n]).inflight
    ensures k < n && ReadAt(s, steps, k, d, After(s, steps[..n]).inflight[d])
  {
    if n > 0 {
      AfterPrefix(s, steps, n - 1);
      var before := After(s, steps[..n - 1]);
      if steps[n - 1].Receive? && steps[n - 1].d == d {
        k := n - 1;
      } else {
        assert d in before.inflight && before.inflight[d] == After(s, steps[..n]).inflight[d];
        k := InflightWasReadUpTo(s, steps, n - 1, d);
      }
    }
  }

  /** Every action waiting to be applied was decided by the ladder on the row at an earlier step. */
  lemma {:induction false} InflightWasRead(s: State, steps: seq<Step>, d: DeliveryId) returns (k: nat)
    requires s.inflight == map[] && Legal(s, steps) && d in After(s, steps).inflight
    ensures ReadAt(s, steps, k, d, After(s, steps).inflight[d])
  {
    assert steps[..|steps|] == steps;
    k := InflightWasReadUpTo(s, steps, |steps|, d);
  }

  // ------------------------------------------------------------------ what an event may do

  /** The guards an uninstall has to pass, on the row it was read against. */
  predicate MayUninstall(p: Portal, e: Event, o: Oracle) {
    && e.name.OnUninstall? && p.status.Active?
    && TokenMatches(p, e, o)
    && (e.ts.Some? && p.lastEventTs.Some? ==> p.lastEventTs.value < e.ts.value)
    && (e.ts.Some? && p.installedAt.Some? ==> p.installedAt.value <= e.ts.value)
  }

  /**
   An event takes a portal from active to uninstalled only if, at an earlier step of the
   run, it was read against a row whose stored application token it matched, above
   `last_event_ts` and not before `install_completed_at`.
   */
  lemma {:induction false} UninstallWasAuthorised(s: State, steps: seq<Step>, d: DeliveryId) returns (k: nat)
    requires s.inflight == map[] && Legal(s, steps) && Enabled(After(s, steps), Perform(d))
    requires After(s, steps).portal.Some? && After(s, steps).portal.value.status.Active?
    requires Apply(After(s, steps), Perform(d)).portal.value.status.Uninstalled?
    ensures var x := After(s, steps).inflight[d];
            && ReadAt(s, steps, k, d, x)
            && x.snapshot.Some? && MayUninstall(x.snapshot.value, x.event, x.oracle)
  {
    k := InflightWasRead(s, steps, d);
    var t := After(s, steps);
    OnlyUninstallWipes(t.portal.value, t.inflight[d].action, t.inflight[d].event.ts, t.now);
    UninstallDecided(t.inflight[d].snapshot, t.inflight[d].event, t.inflight[d].oracle);
  }

  lemma {:induction false} OnlyUninstallWipes(p: Portal, a: Action, ts: Option<Time>, now: Time)
    requires p.status.Active? && Performed(Some(p), a, ts, now).value.status.Uninstalled?
    ensures a.DoUninstall?
  {
  }

  lemma {:induction false} UninstallDecided(portal: Option<Portal>, e: Event, o: Oracle)
    requires Decide(portal, e, o).Act? && Decide(portal, e, o).action.DoUninstall?
    ensures portal.Some? && MayUninstall(portal.value, e, o)
  {
  }

  /** Both proofs: an administrator, and a refresh exchange that landed on this member. */
  predicate Elevated(x: Delivery) {
    && x.event.accessToken && x.event.refreshToken && x.oracle.refresh.SameMember?
    && (if x.snapshot.Some? then x.oracle.admin else x.oracle.exchangedAdmin)
  }

  /**
   An event changes the stored application token only after both proofs; and only an
   update may replace one that was stored when the event was read.
   */
  lemma {:induction false} TokenChangeWasProved(s: State, steps: seq<Step>, d: DeliveryId) returns (k: nat)
    requires s.inflight == map[] && Legal(s, steps) && Enabled(After(s, steps), Perform(d))
    requires var t := After(s, steps);
             t.portal.Some? && Apply(t, Perform(d)).portal.value.appToken != t.portal.value.appToken
    ensures var x := After(s, steps).inflight[d];
            && ReadAt(s, steps, k, d, x) && Elevated(x)
            && (x.snapshot.Some? && x.snapshot.value.appToken.Some? ==> x.event.name.OnUpdate?)
            && Apply(After(s, steps), Perform(d)).portal.value.appToken == x.event.appToken
  {
    k := InflightWasRead(s, steps, d);
    var t := After(s, steps);
    var x := t.inflight[d];
    TokenChanges(t.portal.value, x.action, x.event.ts, t.now);
    TokenDecided(x);
  }

  /** Only these three actions write the application token. */
  function PresentedBy(a: Action): Option<string> {
    match a
    case DoSeed(secret) => Some(secret)
    case DoUpdate(rotated, _, _, _) => rotated
    case DoCreate(presented, _) => presented
    case _ => None
  }

  lemma {:induction false} TokenChanges(p: Portal, a: Action, ts: Option<Time>, now: Time)
    requires Performed(Some(p), a, ts, now).value.appToken != p.appToken
    ensures PresentedBy(a).Some? && Performed(Some(p), a, ts, now).value.appToken == PresentedBy(a)
  {
  }

  lemma {:induction false} TokenDecided(x: Delivery)
    requires Decide(x.snapshot, x.event, x.oracle) == Act(x.action) && PresentedBy(x.action).Some?
    ensures Elevated(x) && PresentedBy(x.action) == x.event.appToken
    ensures x.snapshot.Some? && x.snapshot.value.appToken.Some? ==> x.event.name.OnUpdate?
  {
  }

  /** The transaction goes through `store_portal_credential`. */
  predicate Stores(a: Action) {
    a.DoCreate? || (a.DoUpdate? && a.reseed.Some?)
  }

  /** The portal comes to exist, gets tokens, a new install time, or becomes active. */
  predicate Gains(before: Option<Portal>, after: Option<Portal>) {
    && after.Some?
    && (before.None? || (after.value.hasTokens && !before.value.hasTokens)
        || after.value.installedAt != before.value.installedAt
        || (before.value.status.Uninstalled? && after.value.status.Active?))
  }

  lemma {:induction false} OnlyStoresGain(portal: Option<Portal>, a: Action, ts: Option<Time>, now: Time)
    requires Gains(portal, Performed(portal, a, ts, now))
    ensures Stores(a)
  {
  }

  /**
   An event stores a credential, for a known portal or a new one, only if it came with both
   tokens, its exchange landed on this member, and the exchanged pair itself proved an
   administrator; the scope stored is the exchange's. Nothing else an event does gives a
   portal tokens, an install time or its life back.
   */
  lemma {:induction false} StoreWasProved(s: State, steps: seq<Step>, d: DeliveryId) returns (k: nat)
    requires s.inflight == map[] && Legal(s, steps) && Enabled(After(s, steps), Perform(d))
    requires var t := After(s, steps);
             Stores(t.inflight[d].action) || Gains(t.portal, Apply(t, Perform(d)).portal)
    ensures var t := After(s, steps);
            var x := t.inflight[d];
            && ReadAt(s, steps, k, d, x) && Stores(x.action)
            && x.event.accessToken && x.event.refreshToken && x.oracle.refresh.SameMember? && x.oracle.exchangedAdmin
            && (Apply(t, Perform(d)).portal.Some? ==>
                  Apply(t, Perform(d)).portal.value.scope == x.oracle.refresh.scope)
  {
    k := InflightWasRead(s, steps, d);
    var t := After(s, steps);
    var x := t.inflight[d];
    if !Stores(x.action) {
      OnlyStoresGain(t.portal, x.action, x.event.ts, t.now);
    }
    StoreDecided(x);
    StoreSetsScope(t.portal, x.action, x.event.ts, t.now);
  }

  lemma {:induction false} StoreDecided(x: Delivery)
    requires Decide(x.snapshot, x.event, x.oracle) == Act(x.action) && Stores(x.action)
    ensures x.event.accessToken && x.event.refreshToken && x.oracle.refresh.SameMember? && x.oracle.exchangedAdmin
    ensures StoredScope(x.action) == x.oracle.refresh.scope
    ensures if x.action.DoCreate? then x.snapshot.None?
            else x.snapshot.Some? && x.snapshot.value.status.Active? && !x.snapshot.value.tokenOk
  {
  }

  function StoredScope(a: Action): string
    requires Stores(a)
  {
    if a.DoCreate? then a.grantedScope else a.reseed.value
  }

  /** A store lands on whatever row it meets: active, with tokens and status `ok`, installed now. */
  lemma {:induction false} StoreSetsScope(portal: Option<Portal>, a: Action, ts: Option<Time>, now: Time)
    requires Stores(a)
    ensures var after := Performed(portal, a, ts, now);
            && (portal.Some? || a.DoCreate? ==> after.Some?)
            && (after.Some? ==> after.value.scope == StoredScope(a) && after.value.status.Active? && after.value.tokenOk
                                && after.value.hasTokens && after.value.installedAt == Some(now))
  {
  }

  // ------------------------------------------------------------------ column by column

  /** What one transaction does to each column of a row that is there. */
  lemma {:induction false} ColumnsOfPerform(p: Portal, a: Action, ts: Option<Time>, now: Time)
    ensures Performed(Some(p), a, ts, now).Some?
    ensures StatusColumns(p, a, now, Performed(Some(p), a, ts, now).value)
    ensures OtherColumns(p, a, ts, Performed(Some(p), a, ts, now).value)
  {
    StatusColumnsOf(p, a, ts, now);
    OtherColumnsOf(p, a, ts, now);
  }

  /** The columns a wipe and a store write. */
  predicate StatusColumns(p: Portal, a: Action, now: Time, q: Portal) {
    var wiped := a.DoUninstall? && p.status.Active?;
    && q.status == (if Stores(a) then Active else if wiped then Uninstalled else p.status)
    && q.tokenOk == (Stores(a) || (p.tokenOk && !wiped))
    && q.hasTokens == (Stores(a) || (p.hasTokens && !wiped))
    && q.purgeBodies == (if wiped then a.clean else p.purgeBodies)
    && q.installedAt == (if Stores(a) then Some(now) else p.installedAt)
  }

  /** What an event brings with it. */
  predicate OtherColumns(p: Portal, a: Action, ts: Option<Time>, q: Portal) {
    && q.appToken == (if PresentedBy(a).Some? then PresentedBy(a) else p.appToken)
    && q.appVersion == (if a.DoUpdate? && a.version.Some? then a.version else p.appVersion)
    && (Stores(a) ==> q.scope == StoredScope(a))
    && (!Stores(a) ==> q.scope == if a.DoUpdate? && a.eventScope.Some? then a.eventScope.value else p.scope)
    && (ts.None? ==> q.lastEventTs == p.lastEventTs)
    && (ts.Some? ==> AtMost(ts, q.lastEventTs) && (q.lastEventTs == ts || q.lastEventTs == p.lastEventTs))
  }

  lemma {:induction false} StatusColumnsOf(p: Portal, a: Action, ts: Option<Time>, now: Time)
    ensures StatusColumns(p, a, now, Performed(Some(p), a, ts, now).value)
  {
  }

  lemma {:induction false} OtherColumnsOf(p: Portal, a: Action, ts: Option<Time>, now: Time)
    ensures OtherColumns(p, a, ts, Performed(Some(p), a, ts, now).value)
  {
  }

  /** What a created row starts as. */
  lemma {:induction false} ColumnsOfCreate(a: Action, ts: Option<Time>, now: Time)
    ensures a.DoCreate? ==>
              Performed(None, a, ts, now)
                == Some(Portal(Active, a.presented, ts, Some(now), true, true, false, None, a.grantedScope))
    ensures !a.DoCreate? ==> Performed(None, a, ts, now) == None
  {
  }

  /** What a handler's store does to each column, and what a new row starts as. */
  lemma {:induction false} ColumnsOfStore(portal: Option<Portal>, appToken: Option<string>, scope: string, ok: bool,
                                          now: Time)
    ensures var q := CredentialStored(portal, appToken, scope, ok, now);
            && q.status == Active && q.installedAt == Some(now) && q.tokenOk == ok && q.hasTokens && q.scope == scope
            && match portal
               case None => q.appToken == appToken && q.lastEventTs.None? && !q.purgeBodies && q.appVersion.None?
               case Some(p) =>
                 && q.appToken == (if appToken.Some? then appToken else p.appToken)
                 && q.lastEventTs == p.lastEventTs && q.purgeBodies == p.purgeBodies && q.appVersion == p.appVersion
  {
  }

  // ------------------------------------------------------------------ what the ladder answers

  /** A wipe is decided exactly for an authorised uninstall, with the CLEAN that arrived. */
  lemma {:induction false} UninstallIffAuthorised(portal: Option<Portal>, e: Event, o: Oracle, clean: bool)
    ensures Decide(portal, e, o) == Act(DoUninstall(clean)) <==>
              && portal.Some? && e.member && MayUninstall(portal.value, e, o)
              && (clean <==> e.clean.Some? && Strip(e.clean.value) == "1")
  {
  }

  /** Which refusals the ladder itself gives, and to what. */
  lemma {:induction false} RefusalsOfLadder(portal: Option<Portal>, e: Event, o: Oracle)
    ensures var judged :=
              portal.Some? && e.member && !e.name.Settings? && !e.name.Unsubscribed? && !Replay(portal.value, e);
            && (Decide(portal, e, o) == Answer(403, "application_token_mismatch") <==>
                  judged && portal.value.appToken.Some? && !e.name.OnUpdate? && !TokenMatches(portal.value, e, o))
            && (Decide(portal, e, o) == Answer(403, "no_application_token") <==>
                  judged && portal.value.appToken.None? && e.name.OnUninstall? && portal.value.status.Active?)
  {
  }

  // ------------------------------------------------------------------ stale uninstalls

  /** The run holds no uninstall but stale ones: every uninstall event is stamped before `installed`. */
  predicate OnlyStaleUninstalls(steps: seq<Step>, installed: Time) {
    forall i :: 0 <= i < |steps| ==>
      && !steps[i].WorkerUninstall?
      && (steps[i].Receive? && steps[i].event.name.OnUninstall? ==>
            steps[i].event.ts.Some? && steps[i].event.ts.value < installed)
  }

  /** Active since `installed` or later, with no uninstall read but not yet applied. */
  predicate SafelyInstalled(s: State, installed: Time) {
    && s.portal.Some? && s.portal.value.status.Active?
    && s.portal.value.installedAt.Some? && installed <= s.portal.value.installedAt.value
    && installed <= s.now
    && (forall d :: d in s.inflight ==> !s.inflight[d].action.DoUninstall?)
  }

  lemma {:induction false} SafelyInstalledStep(s: State, step: Step, installed: Time)
    requires SafelyInstalled(s, installed) && Enabled(s, step) && OnlyStaleUninstalls([step], installed)
    ensures SafelyInstalled(Apply(s, step), installed)
  {
    assert [step][0] == step;
  }

  /**
   No multiset of uninstalls stamped before the latest install, delivered after it in any
   order and any number, leaves the portal uninstalled.
   */
  lemma {:induction false} StaleUninstallsAreHarmless(s: State, steps: seq<Step>, installed: Time)
    requires SafelyInstalled(s, installed) && Legal(s, steps) && OnlyStaleUninstalls(steps, installed)
    ensures After(s, steps).portal.Some? && After(s, steps).portal.value.status.Active?
    decreases |steps|
  {
    if steps != [] {
      assert OnlyStaleUninstalls([steps[0]], installed) by {
        assert [steps[0]][0] == steps[0];
      }
      SafelyInstalledStep(s, steps[0], installed);
      StaleUninstallsAreHarmless(Apply(s, steps[0]), steps[1..], installed);
    }
  }

  // ------------------------------------------------------------------ states along a run

  lemma {:induction false} StaysKnown(s: State, steps: seq<Step>, k: nat, n: nat)
    requires Legal(s, steps) && k <= n <= |steps| && StateAt(s, steps, k).portal.Some?
    ensures StateAt(s, steps, n).portal.Some?
    decreases n
  {
    if k < n {
      StaysKnown(s, steps, k, n - 1);
      StateAtNext(s, steps, n - 1);
      CursorStep(StateAt(s, steps, n - 1), steps[n - 1]);
    }
  }

  lemma {:induction false} PrefixIsStateAt(s: State, steps: seq<Step>, k: nat)
    requires Legal(s, steps) && k <= |steps| && Legal(s, steps[..k])
    ensures After(s, steps[..k]) == StateAt(s, steps, k)
    decreases k
  {
    if k > 0 {
      assert steps[..k][1..] == steps[1..][..k - 1];
      PrefixIsStateAt(Apply(s, steps[0]), steps[1..], k - 1);
    }
  }

  lemma {:induction false} EmptiedAt(s: State, steps: seq<Step>, n: nat)
    requires Emptied(s) && Legal(s, steps) && n <= |steps|
    ensures Emptied(StateAt(s, steps, n))
    decreases n
  {
    if n > 0 {
      EmptiedAt(s, steps, n - 1);
      StateAtNext(s, steps, n - 1);
      EmptiedStep(StateAt(s, steps, n - 1), steps[n - 1]);
    }
  }
}
