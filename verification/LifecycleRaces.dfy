/**
 Deliveries are read without a lock and applied later. What may happen to the portal in
 between is described by turns: steps that switch one aspect of the row on or off. What a
 delivery meets when it is applied is decided by the last turn since it was read.
 */
module LifecycleRaces {
  import opened Wrappers
  import opened Texts
  import opened Lifecycle
  import opened LifecycleRuns

  // ------------------------------------------------------------------ aspects and turns

  /** Uninstalled; its credential working; holding an application token. */
  datatype Aspect = Gone | Working | Keyed

  predicate On(aspect: Aspect, s: State) {
    s.portal.Some? &&
    match aspect
    case Gone => s.portal.value.status.Uninstalled?
    case Working => s.portal.value.tokenOk
    case Keyed => s.portal.value.appToken.Some?
  }

  /** Active, with tokens. */
  predicate InUse(s: State) {
    s.portal.Some? && s.portal.value.status.Active? && s.portal.value.hasTokens
  }

  /** The transaction finds a row to write, or makes one. */
  predicate Lands(s: State, a: Action) {
    s.portal.Some? || a.DoCreate?
  }

  /** An uninstall, by an event or by the worker. */
  predicate Wipes(s: State, step: Step)
    requires Enabled(s, step)
  {
    step.WorkerUninstall? || (step.Perform? && s.portal.Some? && s.inflight[step.d].action.DoUninstall?)
  }

  /** A credential is stored, by a handler or by an event. */
  predicate Revives(s: State, step: Step)
    requires Enabled(s, step)
  {
    step.Store? || (step.Perform? && Stores(s.inflight[step.d].action) && Lands(s, s.inflight[step.d].action))
  }

  predicate TurnsOn(aspect: Aspect, s: State, step: Step)
    requires Enabled(s, step)
  {
    match aspect
    case Gone => Wipes(s, step)
    case Working => Revives(s, step) && (step.Store? ==> step.tokenOk)
    case Keyed =>
      || step.AdminOpen?
      || (step.Store? && step.appToken.Some?)
      || (step.Perform? && PresentedBy(s.inflight[step.d].action).Some? && Lands(s, s.inflight[step.d].action))
  }

  predicate TurnsOff(aspect: Aspect, s: State, step: Step)
    requires Enabled(s, step)
  {
    match aspect
    case Gone => Revives(s, step)
    case Working => step.TokenFails? || Wipes(s, step) || (step.Store? && !step.tokenOk)
    case Keyed => false
  }

  lemma {:induction false} TurnsDecide(aspect: Aspect, s: State, step: Step)
    requires (aspect.Working? ==> Emptied(s)) && Enabled(s, step)
    ensures On(aspect, Apply(s, step)) <==> TurnsOn(aspect, s, step) || (On(aspect, s) && !TurnsOff(aspect, s, step))
  {
    match aspect
    case Gone => GoneTurns(s, step);
    case Working => WorkingTurns(s, step);
    case Keyed => KeyedTurns(s, step);
  }

  lemma {:induction false} GoneTurns(s: State, step: Step)
    requires Enabled(s, step)
    ensures On(Gone, Apply(s, step)) <==> Wipes(s, step) || (On(Gone, s) && !Revives(s, step))
  {
  }

  lemma {:induction false} WorkingTurns(s: State, step: Step)
    requires Emptied(s) && Enabled(s, step)
    ensures On(Working, Apply(s, step)) <==>
              TurnsOn(Working, s, step) || (On(Working, s) && !TurnsOff(Working, s, step))
  {
  }

  lemma {:induction false} KeyedTurns(s: State, step: Step)
    requires Enabled(s, step)
    ensures On(Keyed, Apply(s, step)) <==> TurnsOn(Keyed, s, step) || On(Keyed, s)
  {
  }

  predicate TurnsOnAt(aspect: Aspect, s: State, steps: seq<Step>, i: nat)
    requires Legal(s, steps) && i < |steps|
  {
    StateAtNext(s, steps, i);
    TurnsOn(aspect, StateAt(s, steps, i), steps[i])
  }

  predicate TurnsOffAt(aspect: Aspect, s: State, steps: seq<Step>, i: nat)
    requires Legal(s, steps) && i < |steps|
  {
    StateAtNext(s, steps, i);
    TurnsOff(aspect, StateAt(s, steps, i), steps[i])
  }

  /** Step `j`, between `k` and `n`, switches the aspect on, and no later one switches it off. */
  predicate LastTurnOn(aspect: Aspect, s: State, steps: seq<Step>, k: nat, j: nat, n: nat)
    requires Legal(s, steps) && n <= |steps|
  {
    k <= j < n && TurnsOnAt(aspect, s, steps, j) && forall i :: j < i < n ==> !TurnsOffAt(aspect, s, steps, i)
  }

  ghost predicate SwitchedOn(aspect: Aspect, s: State, steps: seq<Step>, k: nat, n: nat)
    requires Legal(s, steps) && n <= |steps|
  {
    exists j :: LastTurnOn(aspect, s, steps, k, j, n)
  }

  /** An aspect that was off at step `k` is on at step `n` if and only if the last turn in between switched it on. */
  lemma {:induction false} OnByLastTurn(aspect: Aspect, s: State, steps: seq<Step>, k: nat, n: nat)
    requires (aspect.Working? ==> Emptied(s)) && Legal(s, steps) && k <= n <= |steps|
    requires !On(aspect, StateAt(s, steps, k))
    ensures On(aspect, StateAt(s, steps, n)) <==> SwitchedOn(aspect, s, steps, k, n)
    decreases n
  {
    if n > k {
      var m := n - 1;
      OnByLastTurn(aspect, s, steps, k, m);
      if aspect.Working? {
        EmptiedAt(s, steps, m);
      }
      StateAtNext(s, steps, m);
      TurnsDecide(aspect, StateAt(s, steps, m), steps[m]);
      SwitchedByOne(aspect, s, steps, k, m, n);
    }
  }

  lemma {:induction false} SwitchedByOne(aspect: Aspect, s: State, steps: seq<Step>, k: nat, m: nat, n: nat)
    requires Legal(s, steps) && k <= m && n == m + 1 <= |steps|
    ensures SwitchedOn(aspect, s, steps, k, n) <==>
              TurnsOnAt(aspect, s, steps, m) || (SwitchedOn(aspect, s, steps, k, m) && !TurnsOffAt(aspect, s, steps, m))
  {
    if TurnsOnAt(aspect, s, steps, m) {
      assert LastTurnOn(aspect, s, steps, k, m, n);
    }
    if j: nat :| LastTurnOn(aspect, s, steps, k, j, m) {
      if !TurnsOffAt(aspect, s, steps, m) {
        assert LastTurnOn(aspect, s, steps, k, j, n);
      }
    }
    if j: nat :| LastTurnOn(aspect, s, steps, k, j, n) {
      if j < m {
        assert LastTurnOn(aspect, s, steps, k, j, m);
      }
    }
  }

  /** Whatever a delivery was read against was the row at its read step. */
  lemma {:induction false} ReadIsState(s: State, steps: seq<Step>, k: nat, d: DeliveryId, x: Delivery)
    requires Legal(s, steps) && ReadAt(s, steps, k, d, x)
    ensures StateAt(s, steps, k).portal == x.snapshot
    ensures x.snapshot.Some? ==> After(s, steps).portal.Some?
  {
    PrefixIsStateAt(s, steps, k);
    StateAtEnd(s, steps);
    if x.snapshot.Some? {
      StaysKnown(s, steps, k, |steps|);
    }
  }

  // ------------------------------------------------------------------ updates that meet an uninstall

  /**
   When an update meets an uninstalled row, exactly. An update waiting to be applied was read
   while the portal was active. The row it is applied to is uninstalled if and only if, of
   the steps since that read that wipe or revive the portal, the last one wiped it. It then
   revives the portal if and only if the stored credential was broken when it was read.
   */
  lemma {:induction false} UpdateMeetsUninstall(s: State, steps: seq<Step>, d: DeliveryId) returns (k: nat)
    requires s.inflight == map[] && Legal(s, steps) && Enabled(After(s, steps), Perform(d))
    requires After(s, steps).inflight[d].action.DoUpdate?
    ensures var t := After(s, steps);
            var x := t.inflight[d];
            && ReadAt(s, steps, k, d, x) && x.snapshot.Some? && x.snapshot.value.status.Active?
            && (On(Gone, t) <==> SwitchedOn(Gone, s, steps, k, |steps|))
            && (On(Gone, t) ==> (!On(Gone, Apply(t, Perform(d))) <==> !x.snapshot.value.tokenOk))
  {
    k := InflightWasRead(s, steps, d);
    ReadIsState(s, steps, k, d, After(s, steps).inflight[d]);
    StateAtEnd(s, steps);
    OnByLastTurn(Gone, s, steps, k, |steps|);
  }

  // ------------------------------------------------------------------ stores in flight

  /**
   What a credential store in flight meets, exactly, be it a re-seed or the creation of an
   unknown portal. It was read when the portal had no working credential and was not
   uninstalled. It meets an uninstalled row if and only if the last wipe-or-revive step since
   the read wiped it, and a working credential if and only if the last heal-or-break step
   since the read healed it (in runs from a sound row: an uninstalled one holds no token);
   either way it puts its own credential and scope in its place.
   */
  lemma {:induction false} StoreInFlightMeets(s: State, steps: seq<Step>, d: DeliveryId) returns (k: nat)
    requires s.inflight == map[] && Legal(s, steps) && Enabled(After(s, steps), Perform(d))
    requires Stores(After(s, steps).inflight[d].action)
    ensures var t := After(s, steps);
            var x := t.inflight[d];
            var u := Apply(t, Perform(d));
            && ReadAt(s, steps, k, d, x)
            && (On(Gone, t) <==> SwitchedOn(Gone, s, steps, k, |steps|))
            && (Emptied(s) ==> (On(Working, t) <==> SwitchedOn(Working, s, steps, k, |steps|)))
            && InUse(u) && On(Working, u)
            && u.portal.value.scope == x.oracle.refresh.scope && u.portal.value.installedAt == Some(t.now)
  {
    k := InflightWasRead(s, steps, d);
    var t := After(s, steps);
    var x := t.inflight[d];
    StoreDecided(x);
    ReadIsState(s, steps, k, d, x);
    StateAtEnd(s, steps);
    OnByLastTurn(Gone, s, steps, k, |steps|);
    if Emptied(s) {
      OnByLastTurn(Working, s, steps, k, |steps|);
    }
    StoreSetsScope(t.portal, x.action, x.event.ts, t.now);
  }

  /** A proved update of a broken credential, read against this row. */
  predicate Reseeds(p: Portal, e: Event, o: Oracle) {
    && e.name.OnUpdate? && e.member && p.status.Active? && !p.tokenOk && !Replay(p, e)
    && Proved(e, o) && o.exchangedAdmin
  }

  /**
   The update of a broken credential undoes a later genuine uninstall, for any such pair:
   the portal ends active, with tokens, under a transaction that ran after the wipe.
   */
  lemma {:induction false} UpdateRevivesUninstalled(s: State, d1: DeliveryId, d2: DeliveryId, e1: Event, e2: Event,
                                                    o1: Oracle, o2: Oracle)
    requires d1 != d2 && d1 !in s.inflight && d2 !in s.inflight && s.portal.Some?
    requires Reseeds(s.portal.value, e1, o1) && e2.member && MayUninstall(s.portal.value, e2, o2)
    ensures var steps := [Receive(d1, e1, o1), Receive(d2, e2, o2), Perform(d2), Perform(d1)];
            && Legal(s, steps) && On(Gone, StateAt(s, steps, 3))
            && InUse(After(s, steps))
  {
    var s1 := Apply(s, Receive(d1, e1, o1));
    var s2 := Apply(s1, Receive(d2, e2, o2));
    assert s2.portal == s.portal && d1 in s2.inflight && d2 in s2.inflight;
    var s3 := Apply(s2, Perform(d2));
    var s4 := Apply(s3, Perform(d1));
    FourSteps(s, Receive(d1, e1, o1), Receive(d2, e2, o2), Perform(d2), Perform(d1));
  }

  /** A re-authorization after the read is undone: the update replaces the healthy credential and its scope. */
  lemma {:induction false} ReseedReplacesHealthy(s: State, d: DeliveryId, e: Event, o: Oracle, granted: string)
    requires d !in s.inflight && s.portal.Some? && Reseeds(s.portal.value, e, o)
    ensures var steps := [Receive(d, e, o), Store(None, granted, true), Perform(d)];
            && Legal(s, steps)
            && On(Working, StateAt(s, steps, 2)) && StateAt(s, steps, 2).portal.value.scope == granted
            && On(Working, After(s, steps)) && After(s, steps).portal.value.scope == o.refresh.scope
  {
    var s1 := Apply(s, Receive(d, e, o));
    assert s1.portal == s.portal && d in s1.inflight;
    var s2 := Apply(s1, Store(None, granted, true));
    var s3 := Apply(s2, Perform(d));
    ThreeSteps(s, Receive(d, e, o), Store(None, granted, true), Perform(d));
  }

  /** An event that may create an unknown portal. */
  predicate Creates(e: Event, o: Oracle) {
    && (e.name.OnInstall? || e.name.OnUserReady? || e.name.OnUpdate?) && e.member
    && e.accessToken && e.refreshToken && e.domain && o.refresh.SameMember? && o.exchangedAdmin
  }

  /** The creation of an unknown portal revives one that was installed and uninstalled since its read. */
  lemma {:induction false} CreateRevivesUninstalled(s: State, d: DeliveryId, e: Event, o: Oracle, secret: string)
    requires d !in s.inflight && s.portal.None? && Creates(e, o)
    ensures var steps := [Receive(d, e, o), Store(Some(secret), "", true), WorkerUninstall, Perform(d)];
            && Legal(s, steps) && On(Gone, StateAt(s, steps, 3))
            && InUse(After(s, steps))
  {
    var install := Store(Some(secret), "", true);
    var s1 := Apply(s, Receive(d, e, o));
    assert s1.portal == s.portal && d in s1.inflight;
    var s2 := Apply(s1, install);
    var s3 := Apply(s2, WorkerUninstall);
    var s4 := Apply(s3, Perform(d));
    FourSteps(s, Receive(d, e, o), install, WorkerUninstall, Perform(d));
  }

  lemma {:induction false} ThreeSteps(s: State, a: Step, b: Step, c: Step)
    requires Enabled(s, a) && Enabled(Apply(s, a), b) && Enabled(Apply(Apply(s, a), b), c)
    ensures var steps := [a, b, c];
            && Legal(s, steps) && StateAt(s, steps, 2) == Apply(Apply(s, a), b)
            && After(s, steps) == Apply(Apply(Apply(s, a), b), c)
  {
    var s1 := Apply(s, a);
    var s2 := Apply(s1, b);
    var none: seq<Step> := [];
    assert Legal(Apply(s2, c), none);
    OneMore(s2, c, none);
    OneMore(s1, b, [c]);
    OneMore(s, a, [b, c]);
    assert [c] + none == [c] && [b] + [c] == [b, c] && [a] + [b, c] == [a, b, c];
    var steps := [a, b, c];
    StateAtNext(s, steps, 0);
    StateAtNext(s, steps, 1);
  }

  // ------------------------------------------------------------------ what an uninstall asked to purge

  /** Whether a wiping step asks for the request bodies: an event's CLEAN as it arrived, never the worker. */
  predicate AsksPurge(s: State, step: Step)
    requires Enabled(s, step)
  {
    step.Perform? && s.inflight[step.d].event.clean.Some? && Strip(s.inflight[step.d].event.clean.value) == "1"
  }

  /** Uninstalls in flight carry the CLEAN of their own event. */
  predicate CleanIsTheirs(s: State) {
    forall d :: d in s.inflight && s.inflight[d].action.DoUninstall? ==>
      (s.inflight[d].action.clean <==>
         s.inflight[d].event.clean.Some? && Strip(s.inflight[d].event.clean.value) == "1")
  }

  lemma {:induction false} CleanIsTheirsStep(s: State, step: Step)
    requires CleanIsTheirs(s) && Enabled(s, step)
    ensures CleanIsTheirs(Apply(s, step))
  {
    if step.Receive? && Decide(s.portal, step.event, step.oracle).Act? {
      var action := Decide(s.portal, step.event, step.oracle).action;
      if action.DoUninstall? {
        UninstallIffAuthorised(s.portal, step.event, step.oracle, action.clean);
      }
    }
  }

  /** The wipe at step `j` found the portal active, and nothing has revived it up to `n`. */
  predicate WipedLast(s: State, steps: seq<Step>, j: nat, n: nat)
    requires Legal(s, steps) && n <= |steps|
  {
    && j < n && IsActive(StateAt(s, steps, j)) && TurnsOnAt(Gone, s, steps, j)
    && forall i :: j < i < n ==> !TurnsOffAt(Gone, s, steps, i)
  }

  predicate IsActive(s: State) {
    s.portal.Some? && s.portal.value.status.Active?
  }

  /** The portal is uninstalled, and purges exactly what the wipe at step `j` asked for. */
  predicate PurgesAsAsked(s: State, steps: seq<Step>, j: nat, n: nat)
    requires Legal(s, steps) && n <= |steps|
  {
    && WipedLast(s, steps, j, n)
    && On(Gone, StateAt(s, steps, n))
    && (StateAtNext(s, steps, j);
        StateAt(s, steps, n).portal.value.purgeBodies == AsksPurge(StateAt(s, steps, j), steps[j]))
  }

  /** One step of an uninstalled portal: it is revived, or its purge flag stays, second uninstalls included. */
  lemma {:induction false} PurgeStays(s: State, step: Step)
    requires On(Gone, s) && Enabled(s, step)
    ensures Revives(s, step) || (On(Gone, Apply(s, step))
                                 && Apply(s, step).portal.value.purgeBodies == s.portal.value.purgeBodies)
  {
    if step.Perform? {
      var x := s.inflight[step.d];
      ColumnsOfPerform(s.portal.value, x.action, x.event.ts, s.now);
    }
  }

  /** One wipe of an active portal sets it to what that wipe asked for. */
  lemma {:induction false} PurgeIsAsked(s: State, step: Step)
    requires IsActive(s) && CleanIsTheirs(s) && Enabled(s, step) && Wipes(s, step)
    ensures On(Gone, Apply(s, step)) && Apply(s, step).portal.value.purgeBodies == AsksPurge(s, step)
  {
    if step.Perform? {
      var x := s.inflight[step.d];
      ColumnsOfPerform(s.portal.value, x.action, x.event.ts, s.now);
    }
  }

  lemma {:induction false} PurgedUpTo(s: State, steps: seq<Step>, n: nat)
    requires CleanIsTheirs(s) && !On(Gone, s) && Legal(s, steps) && n <= |steps|
    ensures CleanIsTheirs(StateAt(s, steps, n))
    ensures On(Gone, StateAt(s, steps, n)) ==> exists j :: PurgesAsAsked(s, steps, j, n)
    decreases n
  {
    if n > 0 {
      var m := n - 1;
      PurgedUpTo(s, steps, m);
      StateAtNext(s, steps, m);
      var t := StateAt(s, steps, m);
      CleanIsTheirsStep(t, steps[m]);
      GoneTurns(t, steps[m]);
      if On(Gone, Apply(t, steps[m])) {
        PurgedByOne(s, steps, m, n);
      }
    }
  }

  lemma {:induction false} PurgedByOne(s: State, steps: seq<Step>, m: nat, n: nat)
    requires Legal(s, steps) && n == m + 1 <= |steps| && CleanIsTheirs(StateAt(s, steps, m))
    requires On(Gone, StateAt(s, steps, n))
    requires On(Gone, StateAt(s, steps, m)) ==> exists j :: PurgesAsAsked(s, steps, j, m)
    ensures exists j :: PurgesAsAsked(s, steps, j, n)
  {
    StateAtNext(s, steps, m);
    var t := StateAt(s, steps, m);
    GoneTurns(t, steps[m]);
    if On(Gone, t) {
      var j :| PurgesAsAsked(s, steps, j, m);
      PurgeStays(t, steps[m]);
      RevivalShows(t, steps[m]);
      assert PurgesAsAsked(s, steps, j, n);
    } else {
      WipesWhatIsActive(t, steps[m]);
      PurgeIsAsked(t, steps[m]);
      assert PurgesAsAsked(s, steps, m, n);
    }
  }

  lemma {:induction false} RevivalShows(s: State, step: Step)
    requires Enabled(s, step)
    ensures Revives(s, step) ==> !On(Gone, Apply(s, step))
  {
  }

  lemma {:induction false} WipesWhatIsActive(s: State, step: Step)
    requires Enabled(s, step) && Wipes(s, step) && !On(Gone, s)
    ensures IsActive(s)
  {
  }

  /**
   In every run, while the portal is uninstalled its purge flag is what the wipe that was
   applied asked for: an event's CLEAN as it arrived, and no purge of bodies for the worker's
   own. No later uninstall changes it.
   */
  lemma {:induction false} PurgeIsAsAsked(s: State, steps: seq<Step>) returns (j: nat)
    requires s.inflight == map[] && !On(Gone, s) && Legal(s, steps) && On(Gone, After(s, steps))
    ensures PurgesAsAsked(s, steps, j, |steps|)
  {
    PurgedUpTo(s, steps, |steps|);
    StateAtEnd(s, steps);
    j :| PurgesAsAsked(s, steps, j, |steps|);
  }

  // ------------------------------------------------------------------ application tokens in flight

  /**
   When an event other than an update replaces a stored application token, exactly. Such an
   event, waiting to be applied with a token of its own, was read when none was stored. It
   meets a stored one if and only if some step since the read gave the portal one, and it
   leaves its own in its place.
   */
  lemma {:induction false} SeedMeetsToken(s: State, steps: seq<Step>, d: DeliveryId) returns (k: nat)
    requires s.inflight == map[] && Legal(s, steps) && Enabled(After(s, steps), Perform(d))
    requires var x := After(s, steps).inflight[d]; !x.event.name.OnUpdate? && PresentedBy(x.action).Some?
    ensures var t := After(s, steps);
            var x := t.inflight[d];
            && ReadAt(s, steps, k, d, x)
            && (On(Keyed, t) <==> exists j :: k <= j < |steps| && TurnsOnAt(Keyed, s, steps, j))
            && AppToken(Apply(t, Perform(d))) == x.event.appToken == PresentedBy(x.action)
  {
    k := InflightWasRead(s, steps, d);
    var t := After(s, steps);
    var x := t.inflight[d];
    TokenDecided(x);
    SeedDecided(x);
    ReadIsState(s, steps, k, d, x);
    StateAtEnd(s, steps);
    OnByLastTurn(Keyed, s, steps, k, |steps|);
    SwitchedKeyed(s, steps, k, |steps|);
    SeedLands(t.portal, x.action, x.event.ts, t.now);
  }

  /** Nothing takes an application token away, so any turn is the last. */
  lemma {:induction false} SwitchedKeyed(s: State, steps: seq<Step>, k: nat, n: nat)
    requires Legal(s, steps) && n <= |steps|
    ensures SwitchedOn(Keyed, s, steps, k, n) <==> exists j :: k <= j < n && TurnsOnAt(Keyed, s, steps, j)
  {
    if j :| k <= j < n && TurnsOnAt(Keyed, s, steps, j) {
      assert LastTurnOn(Keyed, s, steps, k, j, n);
    }
  }

  lemma {:induction false} SeedDecided(x: Delivery)
    requires Decide(x.snapshot, x.event, x.oracle) == Act(x.action) && PresentedBy(x.action).Some?
    requires !x.event.name.OnUpdate?
    ensures if x.snapshot.None? then x.action.DoCreate? else x.action.DoSeed? && x.snapshot.value.appToken.None?
  {
  }

  lemma {:induction false} SeedLands(portal: Option<Portal>, a: Action, ts: Option<Time>, now: Time)
    requires PresentedBy(a).Some? && (portal.Some? || a.DoCreate?)
    ensures var after := Performed(portal, a, ts, now); after.Some? && after.value.appToken == PresentedBy(a)
  {
  }

  /**
   And it does replace one: an install event that read no token, applied after an
   administrator's open stored one, puts its own in its place.
   */
  lemma {:induction false} SeedReplacesStored(s: State, d: DeliveryId, e: Event, o: Oracle, secret: string)
    requires d !in s.inflight && s.portal.Some? && s.portal.value.appToken.None? && secret != ""
    requires (e.name.OnInstall? || e.name.OnUserReady?) && e.member && !Replay(s.portal.value, e)
    requires Proved(e, o) && e.appToken.Some?
    ensures var steps := [Receive(d, e, o), AdminOpen(secret), Perform(d)];
            && Legal(s, steps)
            && AppToken(StateAt(s, steps, 2)) == Some(secret) && AppToken(After(s, steps)) == e.appToken
  {
    var s1 := Apply(s, Receive(d, e, o));
    assert s1.portal == s.portal && d in s1.inflight;
    var s2 := Apply(s1, AdminOpen(secret));
    var s3 := Apply(s2, Perform(d));
    ThreeSteps(s, Receive(d, e, o), AdminOpen(secret), Perform(d));
  }

  // ------------------------------------------------------------------ uninstalls in flight across an install

  /** Every uninstall event that arrives is stamped before `installed`. */
  predicate OnlyStaleArrivals(steps: seq<Step>, installed: Time) {
    forall i :: 0 <= i < |steps| ==> !FreshUninstall(steps[i], installed)
  }

  predicate FreshUninstall(step: Step, installed: Time) {
    step.Receive? && step.event.name.OnUninstall? && !(step.event.ts.Some? && step.event.ts.value < installed)
  }

  /** Installed at `installed` or later, whatever is in flight. */
  predicate InstalledSince(s: State, installed: Time) {
    && s.portal.Some? && s.portal.value.installedAt.Some?
    && installed <= s.portal.value.installedAt.value && installed <= s.now
  }

  /** Every uninstall in flight was in flight at the start. */
  predicate UninstallsAreOld(start: State, s: State) {
    forall d :: d in s.inflight && s.inflight[d].action.DoUninstall? ==>
      d in start.inflight && start.inflight[d] == s.inflight[d]
  }

  lemma {:induction false} UninstallsAreOldAt(s: State, steps: seq<Step>, n: nat, installed: Time)
    requires Legal(s, steps) && n <= |steps| && InstalledSince(s, installed) && OnlyStaleArrivals(steps, installed)
    ensures InstalledSince(StateAt(s, steps, n), installed) && UninstallsAreOld(s, StateAt(s, steps, n))
    decreases n
  {
    if n > 0 {
      UninstallsAreOldAt(s, steps, n - 1, installed);
      StateAtNext(s, steps, n - 1);
      assert !FreshUninstall(steps[n - 1], installed);
      StaleArrivalIsNoOp(StateAt(s, steps, n - 1), steps[n - 1], installed);
    }
  }

  lemma {:induction false} StaleArrivalIsNoOp(s: State, step: Step, installed: Time)
    requires InstalledSince(s, installed) && Enabled(s, step) && !FreshUninstall(step, installed)
    ensures InstalledSince(Apply(s, step), installed)
    ensures forall d :: d in Apply(s, step).inflight && Apply(s, step).inflight[d].action.DoUninstall? ==>
              d in s.inflight && s.inflight[d] == Apply(s, step).inflight[d]
  {
  }

  /**
   The protection against stale uninstalls, exactly. From an active portal installed at
   `installed` or later, with any deliveries in flight, and in any run in which only
   uninstalls stamped before `installed` arrive: the portal ends uninstalled if and only if
   the last step that wipes or revives it is a wipe; and every wipe is the worker's own, or
   the transaction of an uninstall read before the run began.
   */
  lemma {:induction false} OnlyUninstallsInFlightWipe(s: State, steps: seq<Step>, installed: Time)
    requires s.portal.Some? && !On(Gone, s) && InstalledSince(s, installed)
    requires Legal(s, steps) && OnlyStaleArrivals(steps, installed)
    ensures After(s, steps).portal.Some?
    ensures On(Gone, After(s, steps)) <==> SwitchedOn(Gone, s, steps, 0, |steps|)
    ensures forall j :: 0 <= j < |steps| && TurnsOnAt(Gone, s, steps, j) && steps[j].Perform? ==>
              ReadBefore(s, steps, j)
  {
    OnByLastTurn(Gone, s, steps, 0, |steps|);
    StaysKnown(s, steps, 0, |steps|);
    StateAtEnd(s, steps);
    forall j | 0 <= j < |steps| && TurnsOnAt(Gone, s, steps, j) && steps[j].Perform? ensures ReadBefore(s, steps, j) {
      UninstallsAreOldAt(s, steps, j, installed);
      StateAtNext(s, steps, j);
    }
  }

  datatype Order = InstallFirst | InstallBetween | InstallLast

  /** One uninstall delivery and one install, in the three ways they can interleave. */
  function Raced(s: State, d: DeliveryId, e: Event, o: Oracle, order: Order): State
    requires d !in s.inflight
  {
    var install := Store(None, "", true);
    match order
    case InstallFirst =>
      var t := Apply(Apply(s, install), Receive(d, e, o));
      if d in t.inflight then Apply(t, Perform(d)) else t
    case InstallBetween =>
      var t := Apply(Apply(s, Receive(d, e, o)), install);
      if d in t.inflight then Apply(t, Perform(d)) else t
    case InstallLast =>
      var t := Apply(s, Receive(d, e, o));
      Apply(if d in t.inflight then Apply(t, Perform(d)) else t, install)
  }

  /**
   The smallest example: a genuine uninstall that predates a reinstall wipes it if and only
   if the reinstall falls between the delivery's read and its transaction.
   */
  lemma {:induction false} RaceIsExact(s: State, d: DeliveryId, e: Event, o: Oracle, order: Order)
    requires d !in s.inflight && s.portal.Some? && e.member
    requires MayUninstall(s.portal.value, e, o) && e.ts.Some? && e.ts.value < s.now
    ensures Raced(s, d, e, o, order).portal.value.status.Uninstalled? <==> order.InstallBetween?
  {
  }
}
