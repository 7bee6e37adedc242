/** Claims about whole runs of the portal-token protocol. */
module TokenTheorems {
  import opened Wrappers
  import opened TokenProtocol
  import opened TokenSafety

  // ------------------------------------------------------------------ provenance

  /**
   The pair came from exchanges that all answered `member`, and the first pair of that
   chain proved an administrator at the endpoint of the exchange that produced it.
   */
  predicate Proven(server: Server, member: Member, serial: Serial)
    decreases serial
  {
    && serial < |server.minted|
    && server.minted[serial].member == member
    && server.minted[serial].parent.Some?
    && ((serial, server.minted[serial].endpoint) in server.proofs
        || (server.minted[serial].parent.value < serial && Proven(server, member, server.minted[serial].parent.value)))
  }

  lemma {:induction false} ProvenStays(a: Server, b: Server, member: Member, serial: Serial)
    requires Grows(a, b) && Proven(a, member, serial)
    ensures Proven(b, member, serial)
    decreases serial
  {
    var mint := a.minted[serial];
    if (serial, mint.endpoint) !in a.proofs {
      ProvenStays(a, b, member, mint.parent.value);
    }
  }

  predicate WriterProven(s: State, w: Writer) {
    && w.serial < |s.server.minted|
    && s.server.minted[w.serial].member == s.member
    && (w.proved ==> (w.serial, s.server.minted[w.serial].endpoint) in s.server.proofs)
  }

  predicate RowProven(s: State) {
    s.row.Some? && s.row.value.refresh.Some? ==>
      && Proven(s.server, s.member, s.row.value.refresh.value)
      && s.row.value.endpoint == s.server.minted[s.row.value.refresh.value].endpoint
  }

  predicate ProvenanceInv(s: State) {
    RowProven(s) && WritersProven(s)
  }

  predicate WritersProven(s: State) {
    forall w :: w in s.writers ==> WriterProven(s, s.writers[w])
  }

  lemma {:induction false} WriterProvenStays(s: State, step: Step, w: Writer)
    requires Enabled(s, step) && WriterProven(s, w)
    ensures WriterProven(Apply(s, step), w)
  {
    ServerGrows(s, step);
  }

  lemma {:induction false} WritersOfStep(s: State, step: Step, w: WriterId)
    requires Enabled(s, step) && !step.PostExchange? && !step.ProveAdmin?
    ensures w in Apply(s, step).writers ==> w in s.writers && Apply(s, step).writers[w] == s.writers[w]
  {
  }

  /** A new writer holds a pair of this member, and a proof is recorded where the pair was minted. */
  lemma {:induction false} NewWriterProven(s: State, step: Step)
    requires Enabled(s, step) && (step.PostExchange? || step.ProveAdmin?) && WritersProven(s)
    ensures var t := Apply(s, step);
            && (step.w in t.writers ==> WriterProven(t, t.writers[step.w]))
            && forall w :: w in t.writers && w != step.w ==> w in s.writers && t.writers[w] == s.writers[w]
  {
    if step.w in s.writers {
      assert WriterProven(s, s.writers[step.w]);
    }
  }

  lemma {:induction false} WritersProvenStep(s: State, step: Step)
    requires Enabled(s, step) && WritersProven(s)
    ensures WritersProven(Apply(s, step))
  {
    var t := Apply(s, step);
    var own := step.PostExchange? || step.ProveAdmin?;
    if own {
      NewWriterProven(s, step);
    }
    forall w | w in t.writers ensures WriterProven(t, t.writers[w]) {
      if !own {
        WritersOfStep(s, step, w);
      }
      if !own || w != step.w {
        WriterProvenStays(s, step, t.writers[w]);
      }
    }
  }

  lemma {:induction false} ProvenanceStep(s: State, step: Step)
    requires PairInv(s) && ProvenanceInv(s) && Enabled(s, step)
    ensures ProvenanceInv(Apply(s, step))
  {
    var t := Apply(s, step);
    ServerGrows(s, step);
    WritersProvenStep(s, step);
    if s.row.Some? && s.row.value.refresh.Some? {
      ProvenStays(s.server, t.server, s.member, s.row.value.refresh.value);
    }
    if step.Commit? {
      CommitProven(s, step.c);
    } else if step.StoreCredential? {
      assert WriterProven(s, s.writers[step.w]);
    }
  }

  lemma {:induction false} CommitProven(s: State, c: CallerId)
    requires PairInv(s) && RowProven(s) && Enabled(s, Commit(c))
    ensures RowProven(Apply(s, Commit(c)))
  {
    assert AnswerFits(s, s.callers[c].pc.answer);
  }

  // ------------------------------------------------------------------ runs

  predicate Inv(s: State) {
    PairInv(s) && RotationInv(s) && CallersInv(s) && ProvenanceInv(s)
  }

  lemma {:induction false} InitHolds(s: State)
    requires Init(s)
    ensures Inv(s) && HealthInv(s)
  {
  }

  lemma {:induction false} InvStep(s: State, step: Step)
    requires Inv(s) && Enabled(s, step)
    ensures Inv(Apply(s, step))
  {
    PairStep(s, step);
    RotationStep(s, step);
    CallersStep(s, step);
    ProvenanceStep(s, step);
  }

  lemma {:induction false} InvRun(s: State, steps: seq<Step>)
    requires Inv(s) && Legal(s, steps)
    ensures Inv(After(s, steps))
    decreases |steps|
  {
    if steps != [] {
      InvStep(s, steps[0]);
      InvRun(Apply(s, steps[0]), steps[1..]);
    }
  }

  /** No handler of the run is posted a pair of our own. */
  predicate ForeignPosts(s: State, steps: seq<Step>)
    requires Legal(s, steps)
    decreases |steps|
  {
    steps != [] ==> Foreign(s, steps[0]) && ForeignPosts(Apply(s, steps[0]), steps[1..])
  }

  lemma {:induction false} HealthRun(s: State, steps: seq<Step>)
    requires Inv(s) && HealthInv(s) && Legal(s, steps) && ForeignPosts(s, steps)
    ensures HealthInv(After(s, steps))
    decreases |steps|
  {
    if steps != [] {
      InvStep(s, steps[0]);
      HealthStep(s, steps[0]);
      HealthRun(Apply(s, steps[0]), steps[1..]);
    }
  }

  /** The run holds a step that spends the stored token without any trace, and none after it that replaces the pair. */
  predicate LosesLast(s: State, steps: seq<Step>, lost: bool)
    requires Legal(s, steps)
    decreases |steps|
  {
    if steps == [] then lost else LosesLast(Apply(s, steps[0]), steps[1..], LostAfter(s, steps[0], lost))
  }

  lemma {:induction false} LostIsLosesLast(s: State, steps: seq<Step>)
    requires Legal(s, steps)
    ensures After(s, steps).lost <==> LosesLast(s, steps, s.lost)
    decreases |steps|
  {
    if steps != [] {
      LostIsLosesLast(Apply(s, steps[0]), steps[1..]);
    }
  }

  /** The row says its refresh token works. */
  predicate SaysOk(s: State) {
    s.row.Some? && s.row.value.status.StatusOk? && s.row.value.refresh.Some?
  }

  predicate HoldsSpent(s: State)
    requires SaysOk(s)
  {
    s.row.value.refresh.value in s.server.spent
  }

  /**
   When a spent token is kept as healthy, exactly: in every run, whenever the lock is free,
   or held by a caller about to exchange, the refresh token of an `ok` row is spent if and
   only if an exchange was lost on the way back since the pair was last stored or cleared.
   */
  lemma {:induction false} SpentIffLost(init: State, steps: seq<Step>)
    requires Init(init) && Legal(init, steps) && ForeignPosts(init, steps)
    ensures var s := After(init, steps);
            SaysOk(s) && (s.lock.None? || exists c :: InLock(s, c)) ==>
              (HoldsSpent(s) <==> LosesLast(init, steps, false))
  {
    InitHolds(init);
    InvRun(init, steps);
    HealthRun(init, steps);
    LostIsLosesLast(init, steps);
    var s := After(init, steps);
    if SaysOk(s) && (s.lock.None? || exists c :: InLock(s, c)) {
      NobodyHoldsAnAnswer(s);
    }
  }

  lemma {:induction false} NobodyHoldsAnAnswer(s: State)
    requires LockInv(s) && (s.lock.None? || exists c :: InLock(s, c))
    ensures Settled(s)
  {
  }

  /**
   Single use is respected: in every run that lost no exchange since the pair was stored,
   an `ok` row holds an unspent refresh token whenever the row lock is free, and an
   exchange made on an `ok` row presents an unspent one.
   */
  lemma {:induction false} NoSpentTokenPresented(init: State, steps: seq<Step>, c: CallerId, reply: Reply)
    requires Init(init) && Legal(init, steps) && ForeignPosts(init, steps) && !LosesLast(init, steps, false)
    ensures var s := After(init, steps);
            && (s.lock.None? ==> Healthy(s))
            && (Enabled(s, Exchange(c, reply)) && SaysOk(s) ==> !HoldsSpent(s))
  {
    SpentIffLost(init, steps);
    assert Enabled(After(init, steps), Exchange(c, reply)) ==> InLock(After(init, steps), c);
  }

  /**
   One loss, exactly. When the exchange of an `ok` row comes back, the row stays healthy
   unless the token was spent with a non-terminal error, or was already lost and is now
   declined with one; when the process dies there, unless the token is spent by now.
   */
  lemma {:induction false} LossIsExact(s: State, c: CallerId)
    requires PairInv(s) && HealthInv(s) && Enabled(s, Commit(c)) && s.row.value.status.StatusOk?
    ensures var answer := s.callers[c].pc.answer;
            && (Healthy(Apply(s, Commit(c))) <==>
                  answer.Rotated? || TerminalStatus(answer.error).Some? || (answer.Refused? && !s.lost))
            && (Healthy(Apply(s, Crash(c))) <==> answer.Refused? && !s.lost)
  {
    var answer := s.callers[c].pc.answer;
    assert AnswerFits(s, answer) && AnswerFresh(s, answer);
    if answer.Refused? {
      OnlyHolderAnswers(s, c);
      assert Settled(s);
    }
  }

  lemma {:induction false} OnlyHolderAnswers(s: State, c: CallerId)
    requires LockInv(s) && s.lock == Some(c)
    ensures forall d :: d in s.callers && s.callers[d].pc.Answered? ==> d == c
  {
  }

  lemma {:induction false} LegalThen(s: State, step: Step, rest: seq<Step>)
    requires Enabled(s, step) && Legal(Apply(s, step), rest)
    ensures Legal(s, [step] + rest) && After(s, [step] + rest) == After(Apply(s, step), rest)
  {
    assert ([step] + rest)[1..] == rest;
  }

  lemma {:induction false} LegalBoth(s: State, a: seq<Step>, b: seq<Step>)
    requires Legal(s, a) && Legal(After(s, a), b)
    ensures Legal(s, a + b) && After(s, a + b) == After(After(s, a), b)
    decreases |a|
  {
    if a == [] {
      assert a + b == b;
    } else {
      LegalBoth(Apply(s, a[0]), a[1..], b);
      LegalThen(s, a[0], a[1..] + b);
      assert a + b == [a[0]] + (a[1..] + b);
    }
  }

  lemma {:induction false} TwoSteps(s: State, one: Step, two: Step)
    requires Enabled(s, one) && Enabled(Apply(s, one), two)
    ensures Legal(s, [one, two]) && After(s, [one, two]) == Apply(Apply(s, one), two)
  {
    var t := Apply(Apply(s, one), two);
    assert Legal(t, []) && After(t, []) == t;
    LegalThen(Apply(s, one), two, []);
    LegalThen(s, one, [two]);
    assert [two] + [] == [two] && [one] + [two] == [one, two];
  }

  /** A caller that finds its token about to expire reaches the locked section. */
  lemma {:induction false} EntersLock(s: State, c: CallerId)
    requires At(s, c, Start) && s.lock.None? && s.row.Some?
    ensures var steps := [Load(c, true), Acquire(c)];
            && Legal(s, steps)
            && var t := After(s, steps);
               && t.row == s.row && t.server == s.server && t.lock == Some(c)
               && t.callers == s.callers[c := s.callers[c].(pc := Locked(s.row.value.version))]
  {
    var t := Apply(s, Load(c, true));
    assert Enabled(t, Acquire(c));
    TwoSteps(s, Load(c, true), Acquire(c));
  }

  /** An answer that spends the token and says nothing leaves the row as it was. */
  lemma {:induction false} GarbledLeavesRow(s: State, c: CallerId)
    requires InLock(s, c) && !Moved(s.row.value, s.callers[c].pc.seen)
    requires s.row.value.refresh.Some? && Live(s.server, s.row.value.refresh.value)
    ensures var steps := [Exchange(c, Garbles(OtherError)), Commit(c)];
            && Legal(s, steps)
            && var t := After(s, steps);
               && t.row == s.row && t.lock.None? && s.row.value.refresh.value in t.server.spent
               && forall d :: d in s.callers && d != c ==> d in t.callers && t.callers[d] == s.callers[d]
  {
    var t := Apply(s, Exchange(c, Garbles(OtherError)));
    assert Enabled(t, Commit(c));
    TwoSteps(s, Exchange(c, Garbles(OtherError)), Commit(c));
  }

  /**
   Why the condition is needed: from any state with a live token, one garbled answer leaves
   the status `ok`, and the next caller presents the token that was just spent.
   */
  lemma {:induction false} GarbledAnswerIsFatal(s: State, a: CallerId, b: CallerId)
    returns (steps: seq<Step>)
    requires a != b && At(s, a, Start) && At(s, b, Start) && s.lock.None?
    requires SaysOk(s) && Live(s.server, s.row.value.refresh.value)
    ensures Legal(s, steps)
    ensures var t := After(s, steps);
            InLock(t, b) && !Moved(t.row.value, t.callers[b].pc.seen) && t.row == s.row && HoldsSpent(t)
  {
    var enterA, garble := [Load(a, true), Acquire(a)], [Exchange(a, Garbles(OtherError)), Commit(a)];
    var enterB := [Load(b, true), Acquire(b)];
    EntersLock(s, a);
    var s1 := After(s, enterA);
    GarbledLeavesRow(s1, a);
    var s2 := After(s1, garble);
    EntersLock(s2, b);
    LegalBoth(s1, garble, enterB);
    LegalBoth(s, enterA, garble + enterB);
    steps := enterA + (garble + enterB);
  }

  /**
   Why posted pairs must be foreign: a handler's exchange step leaves a healthy row healthy
   if and only if it was not posted the stored pair itself.
   */
  lemma {:induction false} PostedPairMustBeForeign(s: State, w: WriterId, kind: Kind, posted: Serial, reply: Reply)
    requires SaysOk(s) && !HoldsSpent(s)
    requires Enabled(s, PostExchange(w, kind, posted, reply)) && !reply.Declines?
    ensures var t := Apply(s, PostExchange(w, kind, posted, reply));
            && SaysOk(t) && (HoldsSpent(t) <==> posted == s.row.value.refresh.value)
            && t.lost == s.lost
  {
  }

  /** Every credential a run ever leaves in the row has a proven origin, and is at its own endpoint. */
  lemma {:induction false} StoredCredentialIsProven(init: State, steps: seq<Step>)
    requires Init(init) && Legal(init, steps)
    ensures var s := After(init, steps);
            s.row.Some? && (s.row.value.access.Some? || s.row.value.refresh.Some?) ==>
              && s.row.value.access == s.row.value.refresh
              && s.row.value.member == init.member
              && Proven(s.server, init.member, s.row.value.refresh.value)
              && s.row.value.endpoint == s.server.minted[s.row.value.refresh.value].endpoint
  {
    InitHolds(init);
    InvRun(init, steps);
    MemberFixed(init, steps);
  }

  lemma {:induction false} MemberFixed(s: State, steps: seq<Step>)
    requires Legal(s, steps)
    ensures After(s, steps).member == s.member
    decreases |steps|
  {
    if steps != [] {
      MemberFixed(Apply(s, steps[0]), steps[1..]);
    }
  }

  /** At most one exchange succeeds per stored version, crashes and lost answers included. */
  lemma {:induction false} OneRotationPerVersion(init: State, steps: seq<Step>, c: CallerId, reply: Reply)
    requires Init(init) && Legal(init, steps) && Enabled(After(init, steps), Exchange(c, reply))
    ensures var s := After(init, steps);
            !reply.Declines? ==> s.row.value.version !in s.rotatedAt
  {
    InitHolds(init);
    InvRun(init, steps);
  }

  // ------------------------------------------------------------------ what a refusal does to the row

  /** The answer says that nothing about this credential can work until an administrator comes back. */
  predicate Hopeless(s: State, answer: Answer) {
    match answer
    case Rotated(_, member, _) => s.row.Some? && member != s.row.value.member
    case Unusable(e) => e in {InvalidGrant, NoAuthFound, PaymentRequired, InsufficientScope}
    case Refused(e) => e in {InvalidGrant, NoAuthFound, PaymentRequired, InsufficientScope}
  }

  predicate NotOk(s: State) {
    s.row.Some? && !s.row.value.status.StatusOk?
  }

  lemma {:induction false} NotOkStep(s: State, step: Step)
    requires NotOk(s) && Enabled(s, step) && !step.StoreCredential?
    ensures NotOk(Apply(s, step))
  {
  }

  lemma {:induction false} NotOkRun(s: State, steps: seq<Step>)
    requires NotOk(s) && Legal(s, steps) && NoStores(steps)
    ensures NotOk(After(s, steps))
    decreases |steps|
  {
    if steps != [] {
      NotOkStep(s, steps[0]);
      assert forall i :: 0 <= i < |steps| - 1 ==> steps[1..][i] == steps[i + 1];
      NotOkRun(Apply(s, steps[0]), steps[1..]);
    }
  }

  /**
   A terminal refusal is remembered: once `invalid_grant`, a missing authorization, a payment
   or a scope error, or another portal's pair has come back, the row never says `ok` again
   until a handler stores a credential. Any other error leaves the row as it was.
   */
  lemma {:induction false} TerminalFailureSticks(s: State, c: CallerId, steps: seq<Step>)
    requires Enabled(s, Commit(c))
    requires Legal(Apply(s, Commit(c)), steps) && NoStores(steps)
    ensures var answer := s.callers[c].pc.answer;
            && (Hopeless(s, answer) ==> NotOk(After(Apply(s, Commit(c)), steps)))
            && (!Hopeless(s, answer) && !answer.Rotated? ==> Apply(s, Commit(c)).row == s.row)
  {
    if Hopeless(s, s.callers[c].pc.answer) {
      NotOkRun(Apply(s, Commit(c)), steps);
    }
  }

  /** A handler's store writes the pair it proved, at that pair's endpoint, under the next version. */
  lemma {:induction false} WhatIsStored(s: State, w: WriterId, status: TokenStatus)
    requires Enabled(s, StoreCredential(w, status))
    ensures var t, serial := Apply(s, StoreCredential(w, status)), s.writers[w].serial;
            t.row == Some(Row(s.member, Some(serial), Some(serial), s.server.minted[serial].endpoint,
                              (if s.row.Some? then s.row.value.version else 0) + 1, status))
  {
  }

  // ------------------------------------------------------------------ a cleared credential

  /** No handler of the run stores a credential. */
  predicate NoStores(steps: seq<Step>) {
    forall i :: 0 <= i < |steps| ==> !steps[i].StoreCredential?
  }

  predicate HoldsNothing(s: State) {
    s.row.Some? && s.row.value.access.None? && s.row.value.refresh.None?
  }

  lemma {:induction false} HoldsNothingStep(s: State, step: Step)
    requires PairInv(s) && HoldsNothing(s) && Enabled(s, step) && !step.StoreCredential?
    ensures HoldsNothing(Apply(s, step))
    ensures StepCaller(step).Some? ==>
              Apply(s, step).callers[StepCaller(step).value].calls == s.callers[StepCaller(step).value].calls
  {
    assert !step.Commit?;
  }

  lemma {:induction false} HoldsNothingRun(s: State, steps: seq<Step>, c: CallerId)
    requires PairInv(s) && HoldsNothing(s) && Legal(s, steps) && NoStores(steps) && c in s.callers
    ensures HoldsNothing(After(s, steps)) && c in After(s, steps).callers
    ensures After(s, steps).callers[c].calls == s.callers[c].calls
    decreases |steps|
  {
    if steps != [] {
      HoldsNothingStep(s, steps[0]);
      PairStep(s, steps[0]);
      CallersOfStep(s, steps[0]);
      assert forall i :: 0 <= i < |steps| - 1 ==> steps[1..][i] == steps[i + 1];
      HoldsNothingRun(Apply(s, steps[0]), steps[1..], c);
    }
  }

  /**
   A cleared credential is not resurrected: in every run, from the moment it is cleared until
   a handler stores another, the row holds no pair and no caller is handed one, whatever a
   waiting refresher had seen.
   */
  lemma {:induction false} ClearedStaysCleared(init: State, before: seq<Step>, steps: seq<Step>, c: CallerId)
    requires Init(init) && Legal(init, before) && Enabled(After(init, before), ClearCredential)
    requires Legal(Apply(After(init, before), ClearCredential), steps) && NoStores(steps)
    requires c in After(init, before).callers
    ensures var s := Apply(After(init, before), ClearCredential);
            var t := After(s, steps);
            && t.row.Some? && t.row.value.access.None? && t.row.value.refresh.None?
            && c in t.callers && t.callers[c].calls == s.callers[c].calls
  {
    InitHolds(init);
    InvRun(init, before);
    PairStep(After(init, before), ClearCredential);
    HoldsNothingRun(Apply(After(init, before), ClearCredential), steps, c);
  }

  // ------------------------------------------------------------------ one caller over a whole run

  /**
   A caller runs `fn` at most twice and asks for at most two exchanges; the second run
   needs an expired-token answer and uses a token stored under a greater version.
   */
  lemma {:induction false} CallerIsBounded(init: State, steps: seq<Step>, c: CallerId)
    requires Init(init) && Legal(init, steps) && c in init.callers
    ensures var s := After(init, steps);
            && c in s.callers
            && var me := s.callers[c];
               && |me.calls| <= 2 && me.exchanges <= 2
               && (|me.calls| == 2 ==> me.sawExpired && me.calls[0].version < me.calls[1].version)
  {
    InitHolds(init);
    InvRun(init, steps);
    CallersFixed(init, steps);
    assert CallerInv(After(init, steps), After(init, steps).callers[c]);
  }

  // ------------------------------------------------------------------ the bound of two is attained

  /** A live pair nobody has spent, with room for the next one. */
  predicate Rotatable(s: State) {
    && s.row.Some? && s.row.value.refresh.Some? && Live(s.server, s.row.value.refresh.value)
    && s.server.dead == {} && forall n :: n in s.server.spent ==> n < |s.server.minted|
  }

  /** An exchange that answers well stores the next pair and hands it to the caller. */
  lemma {:induction false} RotatesAndReturns(s: State, c: CallerId)
    requires InLock(s, c) && !Moved(s.row.value, s.callers[c].pc.seen) && Rotatable(s)
    ensures var steps := [Exchange(c, Rotates(s.row.value.member, s.row.value.endpoint)), Commit(c)];
            && Legal(s, steps)
            && var t, me := After(s, steps), s.callers[c];
               && Rotatable(t) && t.lock.None? && c in t.callers && t.row.value.version == s.row.value.version + 1
               && t.callers[c].pc.Calling? && t.callers[c].exchanges == me.exchanges + 1
               && t.callers[c].calls == me.calls + [Credential(|s.server.minted|, s.row.value.version + 1)]
  {
    var one := Exchange(c, Rotates(s.row.value.member, s.row.value.endpoint));
    var t := Apply(s, one);
    assert Enabled(t, Commit(c));
    TwoSteps(s, one, Commit(c));
  }

  /** A caller whose first token was rejected reaches the locked section again. */
  lemma {:induction false} ExpiresAndEnters(s: State, c: CallerId)
    requires At(s, c, Calling) && |s.callers[c].calls| == 1 && s.lock.None? && Rotatable(s)
    ensures var steps := [FnExpires(c), Acquire(c)];
            && Legal(s, steps)
            && var t := After(s, steps);
               && t.row == s.row && InLock(t, c) && Rotatable(t)
               && t.callers[c].pc.seen == s.callers[c].calls[0].version
               && t.callers[c].calls == s.callers[c].calls && t.callers[c].exchanges == s.callers[c].exchanges
  {
    var t := Apply(s, FnExpires(c));
    assert Enabled(t, Acquire(c));
    TwoSteps(s, FnExpires(c), Acquire(c));
  }

  /** A new pair is in the hand of one installer. */
  predicate InstallPending(s: State, init: State) {
    && s.row.None? && s.lock.None? && s.callers == init.callers && s.member == init.member
    && |s.server.minted| == 2 && s.server.spent == {0} && s.server.dead == {}
    && 0 in s.writers && s.writers[0] == Writer(Install, 1, false)
  }

  lemma {:induction false} ExchangesPosted(init: State, endpoint: Endpoint)
    requires Init(init)
    ensures var steps := [Issue(init.member, endpoint), PostExchange(0, Install, 0, Rotates(init.member, endpoint))];
            Legal(init, steps) && InstallPending(After(init, steps), init)
  {
    var issue, exchange := Issue(init.member, endpoint), PostExchange(0, Install, 0, Rotates(init.member, endpoint));
    var s1 := Apply(init, issue);
    assert s1.server.minted == [Mint(None, init.member, endpoint)];
    assert Enabled(s1, exchange);
    TwoSteps(init, issue, exchange);
  }

  lemma {:induction false} StoresProven(s: State, init: State)
    requires InstallPending(s, init)
    ensures var steps := [ProveAdmin(0), StoreCredential(0, StatusOk)];
            && Legal(s, steps)
            && var t := After(s, steps); Rotatable(t) && t.lock.None? && t.callers == init.callers
  {
    var t := Apply(s, ProveAdmin(0));
    assert Enabled(t, StoreCredential(0, StatusOk));
    TwoSteps(s, ProveAdmin(0), StoreCredential(0, StatusOk));
  }

  /** An install: a pair is issued, exchanged, proven and stored. */
  lemma {:induction false} Installs(init: State, endpoint: Endpoint) returns (steps: seq<Step>)
    requires Init(init)
    ensures Legal(init, steps)
    ensures var s := After(init, steps); Rotatable(s) && s.lock.None? && s.callers == init.callers
  {
    var post := [Issue(init.member, endpoint), PostExchange(0, Install, 0, Rotates(init.member, endpoint))];
    var store := [ProveAdmin(0), StoreCredential(0, StatusOk)];
    ExchangesPosted(init, endpoint);
    StoresProven(After(init, post), init);
    LegalBoth(init, post, store);
    steps := post + store;
  }

  /**
   The bound of two exchanges is attained, from every initial state: a token about to expire
   is refreshed before `fn` runs, and once more when `fn` finds the new one rejected.
   */
  lemma {:induction false} TwoExchangesHappen(init: State, c: CallerId) returns (steps: seq<Step>)
    requires Init(init) && c in init.callers
    ensures Legal(init, steps) && c in After(init, steps).callers
    ensures After(init, steps).callers[c].exchanges == 2 && |After(init, steps).callers[c].calls| == 2
  {
    var install := Installs(init, "");
    var s1 := After(init, install);
    EntersLock(s1, c);
    var s2 := After(s1, [Load(c, true), Acquire(c)]);
    RotatesAndReturns(s2, c);
    var first := [Exchange(c, Rotates(s2.row.value.member, s2.row.value.endpoint)), Commit(c)];
    var s3 := After(s2, first);
    ExpiresAndEnters(s3, c);
    var s4 := After(s3, [FnExpires(c), Acquire(c)]);
    RotatesAndReturns(s4, c);
    var second := [Exchange(c, Rotates(s4.row.value.member, s4.row.value.endpoint)), Commit(c)];
    LegalBoth(s3, [FnExpires(c), Acquire(c)], second);
    LegalBoth(s2, first, [FnExpires(c), Acquire(c)] + second);
    LegalBoth(s1, [Load(c, true), Acquire(c)], first + ([FnExpires(c), Acquire(c)] + second));
    steps := install + ([Load(c, true), Acquire(c)] + (first + ([FnExpires(c), Acquire(c)] + second)));
    LegalBoth(init, install, [Load(c, true), Acquire(c)] + (first + ([FnExpires(c), Acquire(c)] + second)));
  }

  lemma {:induction false} CallersFixed(s: State, steps: seq<Step>)
    requires Legal(s, steps)
    ensures After(s, steps).callers.Keys == s.callers.Keys
    decreases |steps|
  {
    if steps != [] {
      assert Apply(s, steps[0]).callers.Keys == s.callers.Keys;
      CallersFixed(Apply(s, steps[0]), steps[1..]);
    }
  }

  /** Steps a caller can still take, at most. */
  function Rank(me: Caller): nat {
    match me.pc
    case Start => 9
    case Waiting(_) => if me.calls == [] then 8 else 4
    case Locked(_) => if me.calls == [] then 7 else 3
    case Answered(_, _) => if me.calls == [] then 6 else 2
    case Calling => if |me.calls| == 1 then 5 else 1
    case Returned => 0
    case Raised(_) => 0
  }

  lemma {:induction false} RankFalls(s: State, step: Step)
    requires CallersInv(s) && Enabled(s, step) && StepCaller(step).Some?
    ensures var c := StepCaller(step).value;
            Rank(Apply(s, step).callers[c]) < Rank(s.callers[c])
  {
    assert CallerInv(s, s.callers[StepCaller(step).value]);
  }

  function StepsOf(steps: seq<Step>, c: CallerId): nat {
    if steps == [] then 0 else (if StepCaller(steps[0]) == Some(c) then 1 else 0) + StepsOf(steps[1..], c)
  }

  lemma {:induction false} StepsWithinRank(s: State, steps: seq<Step>, c: CallerId)
    requires Inv(s) && Legal(s, steps) && c in s.callers
    ensures c in After(s, steps).callers
    ensures StepsOf(steps, c) + Rank(After(s, steps).callers[c]) <= Rank(s.callers[c])
    decreases |steps|
  {
    if steps != [] {
      var t := Apply(s, steps[0]);
      InvStep(s, steps[0]);
      if StepCaller(steps[0]) == Some(c) {
        RankFalls(s, steps[0]);
      } else {
        assert CallerInv(s, s.callers[c]);
        OthersKeep(s, steps[0], c);
      }
      StepsWithinRank(t, steps[1..], c);
    }
  }

  /** No caller takes more than nine steps in any run, however the others interleave. */
  lemma {:induction false} CallerTerminates(init: State, steps: seq<Step>, c: CallerId)
    requires Init(init) && Legal(init, steps) && c in init.callers
    ensures StepsOf(steps, c) <= 9
  {
    InitHolds(init);
    StepsWithinRank(init, steps, c);
  }

  predicate Finished(me: Caller) {
    me.pc.Returned? || me.pc.Raised?
  }

  /** While some caller is unfinished, some caller can step without the world's help: no deadlock. */
  lemma {:induction false} NoDeadlock(init: State, steps: seq<Step>, c: CallerId)
    returns (step: Step)
    requires Init(init) && Legal(init, steps) && c in After(init, steps).callers
    requires !Finished(After(init, steps).callers[c])
    ensures Enabled(After(init, steps), step) && StepCaller(step).Some?
  {
    InitHolds(init);
    InvRun(init, steps);
    var s := After(init, steps);
    var d := if s.lock.Some? then s.lock.value else c;
    assert CallerInv(s, s.callers[d]);
    match s.callers[d].pc
    case Start => step := Load(d, false);
    case Calling => step := FnReturns(d);
    case Waiting(_) => step := Acquire(d);
    case Locked(seen) =>
      step := if Moved(s.row.value, seen) then Reuse(d)
              else if s.row.value.refresh.None? then GiveUp(d)
              else Exchange(d, Declines(OtherError));
    case Answered(_, _) => step := Commit(d);
    case Returned =>
    case Raised(_) =>
  }

  // ------------------------------------------------------------------ the locked section as one atomic step

  datatype Slot = Slot(version: nat, serial: Option<Serial>)

  function SlotOf(s: State): Option<Slot> {
    if s.row.None? then None else Some(Slot(s.row.value.version, s.row.value.access))
  }

  /** The specification: afterwards a token is stored under a version above `seen`. */
  function EnsureAbove(slot: Slot, seen: nat, minted: Serial): Slot {
    if slot.version > seen && slot.serial.Some? then slot else Slot(slot.version + 1, Some(minted))
  }

  /** The caller has left the locked section with a credential. */
  predicate Leaves(s: State, step: Step)
    requires Enabled(s, step)
  {
    (step.Reuse? || step.Commit?) && Apply(s, step).callers[step.c].pc.Calling?
  }

  /** The step put the row where one atomic `EnsureAbove` would, and the caller got that credential. */
  predicate HandsOut(s: State, t: State, c: CallerId)
    requires c in s.callers
  {
    var me := s.callers[c];
    && (me.pc.Locked? || me.pc.Answered?) && s.row.Some? && t.row.Some?
    && c in t.callers && |t.callers[c].calls| > |me.calls|
    && var got := t.callers[c].calls[|me.calls|];
       && SlotOf(t) == Some(EnsureAbove(SlotOf(s).value, me.pc.seen, got.serial))
       && got.version == t.row.value.version > me.pc.seen
       && Some(got.serial) == t.row.value.access
  }

  /**
   Refinement: a caller's step either leaves version and token alone, or hands out a
   credential, and then the row and the credential are what one atomic `EnsureAbove`
   of the version the caller had seen gives; that version is exceeded.
   */
  lemma {:induction false} LockedSectionIsAtomic(s: State, step: Step)
    requires Inv(s) && Enabled(s, step) && StepCaller(step).Some?
    ensures !Leaves(s, step) ==> SlotOf(Apply(s, step)) == SlotOf(s)
    ensures Leaves(s, step) ==> HandsOut(s, Apply(s, step), step.c)
  {
    if step.Commit? {
      CommitIsAtomic(s, step.c);
    } else if step.Reuse? {
      ReuseIsAtomic(s, step.c);
    } else if Quiet(step) {
      QuietStep(s, step);
    }
  }

  lemma {:induction false} ReuseIsAtomic(s: State, c: CallerId)
    requires Inv(s) && Enabled(s, Reuse(c))
    ensures HandsOut(s, Apply(s, Reuse(c)), c) && SlotOf(Apply(s, Reuse(c))) == SlotOf(s)
  {
    assert CallerInv(s, s.callers[c]);
  }

  lemma {:induction false} CommitIsAtomic(s: State, c: CallerId)
    requires Inv(s) && Enabled(s, Commit(c))
    ensures var t := Apply(s, Commit(c));
            if t.callers[c].pc.Calling? then HandsOut(s, t, c) else SlotOf(t) == SlotOf(s)
  {
    assert CallerInv(s, s.callers[c]);
    assert AnswerFits(s, s.callers[c].pc.answer);
    assert !Moved(s.row.value, s.callers[c].pc.seen);
  }

  /** The steps from lock to commit compute the program's own `_refresh_locked`. */
  lemma {:induction false} SectionIsRefreshLocked(s: State, c: CallerId, reply: Reply)
    requires Inv(s) && Enabled(s, Exchange(c, reply))
    ensures var t := Apply(s, Exchange(c, reply));
            && Enabled(t, Commit(c))
            && var u := Apply(t, Commit(c));
               var (row, result) := RefreshLocked(s.row.value, s.callers[c].pc.seen, t.callers[c].pc.answer);
               && u.row == Some(row) && u.lock.None?
               && u.callers[c].pc == (if result.Success? then Calling else Raised(result.error))
               && (result.Success? ==> u.callers[c].calls == s.callers[c].calls + [result.value])
  {
  }
}
