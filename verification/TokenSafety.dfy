/** What every run of the portal-token protocol keeps. */
module TokenSafety {
  import opened Wrappers
  import opened TokenProtocol

  // ------------------------------------------------------------------ the shape of a step

  /** Steps that touch nothing but one caller and the lock. */
  predicate Quiet(step: Step) {
    step.Load? || step.FnReturns? || step.FnFails? || step.FnExpires?
    || step.Acquire? || step.Reuse? || step.GiveUp? || step.Crash?
  }

  /** Steps that call no OAuth server and move no caller. */
  predicate World(step: Step) {
    || step.ProveAdmin? || step.StoreCredential? || step.Issue? || step.Expire? || step.ClearCredential?
    || step.SetStatus?
  }

  lemma {:induction false} QuietStep(s: State, step: Step)
    requires Enabled(s, step) && Quiet(step)
    ensures var t := Apply(s, step);
            && t.row == s.row && t.server == s.server && t.writers == s.writers
            && t.member == s.member && t.rotatedAt == s.rotatedAt
            && t.callers.Keys == s.callers.Keys
            && (forall c :: c in s.callers && Some(c) != StepCaller(step) ==> t.callers[c] == s.callers[c])
            && !t.callers[StepCaller(step).value].pc.Answered?
  {
  }

  /** The server's history only grows: minted pairs keep their place, spent stays spent. */
  predicate Grows(a: Server, b: Server) {
    && |a.minted| <= |b.minted|
    && (forall n :: 0 <= n < |a.minted| ==> b.minted[n] == a.minted[n])
    && a.spent <= b.spent && a.dead <= b.dead && a.proofs <= b.proofs
  }

  lemma {:induction false} ServerGrows(s: State, step: Step)
    requires Enabled(s, step)
    ensures Grows(s.server, Apply(s, step).server)
  {
  }

  // ------------------------------------------------------------------ the lock

  /** The lock is held by exactly the caller inside the locked section. */
  predicate LockInv(s: State) {
    && (s.lock.Some? ==> s.row.Some? && s.lock.value in s.callers)
    && (forall c :: c in s.callers ==>
          (s.lock == Some(c) <==> s.callers[c].pc.Locked? || s.callers[c].pc.Answered?))
  }

  lemma {:induction false} CallersOfStep(s: State, step: Step)
    requires Enabled(s, step)
    ensures Apply(s, step).callers.Keys == s.callers.Keys
    ensures forall c :: c in s.callers && Some(c) != StepCaller(step) ==> Apply(s, step).callers[c] == s.callers[c]
    ensures s.row.Some? ==> Apply(s, step).row.Some?
  {
  }

  lemma {:induction false} LockOfStep(s: State, step: Step)
    requires LockInv(s) && Enabled(s, step)
    ensures match StepCaller(step)
            case None => Apply(s, step).lock == s.lock
            case Some(c) =>
              var t := Apply(s, step);
              && c in t.callers
              && (t.lock == Some(c) <==> t.callers[c].pc.Locked? || t.callers[c].pc.Answered?)
              && (t.lock == Some(c) || t.lock == s.lock || (s.lock == Some(c) && t.lock.None?))
              && (t.lock == Some(c) && s.lock != Some(c) ==> s.lock.None? && s.row.Some?)
  {
  }

  lemma {:induction false} LockStep(s: State, step: Step)
    requires LockInv(s) && Enabled(s, step)
    ensures LockInv(Apply(s, step))
  {
    CallersOfStep(s, step);
    LockOfStep(s, step);
  }

  // ------------------------------------------------------------------ which pairs exist

  /** A pair our own exchanges produced. */
  predicate Ours(server: Server, serial: Serial) {
    serial < |server.minted| && server.minted[serial].parent.Some?
  }

  predicate WellMinted(server: Server) {
    && (forall n :: n in server.spent ==> n < |server.minted|)
    && (forall n :: 0 <= n < |server.minted| && server.minted[n].parent.Some? ==> server.minted[n].parent.value < n)
  }

  predicate WritersOurs(s: State) {
    forall w :: w in s.writers ==> Ours(s.server, s.writers[w].serial)
  }

  predicate RowOurs(s: State) {
    s.row.Some? ==>
      && s.row.value.member == s.member
      && s.row.value.access == s.row.value.refresh
      && (s.row.value.refresh.Some? ==> Ours(s.server, s.row.value.refresh.value))
  }

  predicate Consumed(answer: Answer) {
    !answer.Refused?
  }

  /** An answer in hand is the server's, and it is for the pair still in the row. */
  predicate AnswerFits(s: State, answer: Answer) {
    && s.row.Some? && s.row.value.refresh.Some?
    && (Consumed(answer) ==> s.row.value.refresh.value in s.server.spent)
    && (answer.Rotated? ==>
          && answer.serial < |s.server.minted|
          && s.server.minted[answer.serial] == Mint(s.row.value.refresh, answer.member, answer.endpoint))
  }

  predicate AnswersFit(s: State) {
    forall c :: c in s.callers && s.callers[c].pc.Answered? ==>
      AnswerFits(s, s.callers[c].pc.answer) && !Moved(s.row.value, s.callers[c].pc.seen)
  }

  /** The row and every pair on its way into the row come from our own exchanges. */
  predicate PairInv(s: State) {
    LockInv(s) && WellMinted(s.server) && WritersOurs(s) && RowOurs(s) && AnswersFit(s)
  }

  lemma {:induction false} ServeWellMinted(server: Server, presented: Serial, reply: Reply)
    requires WellMinted(server) && CanReply(server, presented, reply)
    ensures WellMinted(Serve(server, presented, reply).0)
  {
  }

  lemma {:induction false} ExchangeKeepsPairs(s: State, c: CallerId, reply: Reply)
    requires PairInv(s) && Enabled(s, Exchange(c, reply))
    ensures PairInv(Apply(s, Exchange(c, reply)))
  {
    LockStep(s, Exchange(c, reply));
    ServeWellMinted(s.server, s.row.value.refresh.value, reply);
  }

  /** All that a handler's exchange does: the server serves the posted pair, and a new pair may be in a new hand. */
  lemma {:induction false} PostExchangeDoes(s: State, step: Step)
    requires Enabled(s, step) && step.PostExchange?
    ensures var t, n := Apply(s, step), |s.server.minted|;
            && t.row == s.row && t.callers == s.callers && t.lock == s.lock && t.member == s.member && t.lost == s.lost
            && t.server.spent <= s.server.spent + {step.posted}
            && (t.writers == s.writers
                || (t.writers == s.writers[step.w := Writer(step.kind, n, false)] && Ours(t.server, n)))
  {
  }

  lemma {:induction false} PostExchangeKeepsPairs(s: State, step: Step)
    requires PairInv(s) && Enabled(s, step) && step.PostExchange?
    ensures PairInv(Apply(s, step))
  {
    LockStep(s, step);
    ServeWellMinted(s.server, step.posted, step.reply);
    ServerGrows(s, step);
    PostExchangeDoes(s, step);
    var t := Apply(s, step);
    forall w | w in t.writers ensures Ours(t.server, t.writers[w].serial) {
      assert w in s.writers ==> Ours(s.server, s.writers[w].serial);
    }
    GrowthKeepsAnswers(s, t);
  }

  lemma {:induction false} GrowthKeepsAnswers(s: State, t: State)
    requires RowOurs(s) && AnswersFit(s) && Grows(s.server, t.server)
    requires t.row == s.row && t.callers == s.callers && t.member == s.member
    ensures RowOurs(t) && AnswersFit(t)
  {
    forall c | c in t.callers && t.callers[c].pc.Answered?
      ensures AnswerFits(t, t.callers[c].pc.answer) && !Moved(t.row.value, t.callers[c].pc.seen)
    {
      assert AnswerFits(s, s.callers[c].pc.answer);
    }
  }

  /** Only the lock holder has an answer in hand, so a step that needs the lock free meets none. */
  lemma {:induction false} FreeMeansNoAnswer(s: State)
    requires LockInv(s) && s.lock.None?
    ensures forall c :: c in s.callers ==> !s.callers[c].pc.Answered?
  {
  }

  lemma {:induction false} PairStep(s: State, step: Step)
    requires PairInv(s) && Enabled(s, step)
    ensures PairInv(Apply(s, step))
  {
    LockStep(s, step);
    if Quiet(step) {
      QuietStep(s, step);
    } else if step.Exchange? {
      ExchangeKeepsPairs(s, step.c, step.reply);
    } else if step.PostExchange? {
      PostExchangeKeepsPairs(s, step);
    } else if step.Commit? {
      CommitKeepsPairs(s, step.c);
    } else {
      WorldKeepsPairs(s, step);
    }
  }

  lemma {:induction false} CommitKeepsPairs(s: State, c: CallerId)
    requires PairInv(s) && Enabled(s, Commit(c))
    ensures PairInv(Apply(s, Commit(c)))
  {
    LockStep(s, Commit(c));
    var answer := s.callers[c].pc.answer;
    assert AnswerFits(s, answer);
    FreeMeansNoAnswer(Apply(s, Commit(c)));
  }

  lemma {:induction false} WorldKeepsPairs(s: State, step: Step)
    requires PairInv(s) && Enabled(s, step)
    requires World(step)
    ensures PairInv(Apply(s, step))
  {
    LockStep(s, step);
    if s.lock.None? {
      FreeMeansNoAnswer(s);
    }
  }

  // ------------------------------------------------------------------ no spent pair is kept as healthy

  /** While the status says the credential works, the stored refresh token has not been spent. */
  predicate Healthy(s: State) {
    s.row.Some? && s.row.value.status.StatusOk? && s.row.value.refresh.Some? ==>
      s.row.value.refresh.value !in s.server.spent
  }

  /** No spent token is being dealt with inside the locked section. */
  predicate Settled(s: State) {
    forall c :: c in s.callers && s.callers[c].pc.Answered? ==> !Consumed(s.callers[c].pc.answer)
  }

  predicate WritersFresh(s: State) {
    && (forall w :: w in s.writers ==>
          s.writers[w].serial !in s.server.spent && (s.row.Some? ==> s.row.value.refresh != Some(s.writers[w].serial)))
    && (forall v, w :: v in s.writers && w in s.writers && v != w ==> s.writers[v].serial != s.writers[w].serial)
  }

  predicate AnswerFresh(s: State, answer: Answer) {
    answer.Rotated? ==>
      answer.serial !in s.server.spent && forall w :: w in s.writers ==> s.writers[w].serial != answer.serial
  }

  predicate AnswersFresh(s: State) {
    forall c :: c in s.callers && s.callers[c].pc.Answered? ==> AnswerFresh(s, s.callers[c].pc.answer)
  }

  /** A lost pair is a spent one. */
  predicate LostIsSpent(s: State) {
    s.lost && s.row.Some? && s.row.value.refresh.Some? ==> s.row.value.refresh.value in s.server.spent
  }

  predicate HealthInv(s: State) {
    && WritersFresh(s) && AnswersFresh(s) && LostIsSpent(s)
    && (!s.lost && Settled(s) ==> Healthy(s))
  }

  /** A pair posted to a handler was issued by the portal to its user; our own pairs never leave the server side. */
  predicate Foreign(s: State, step: Step)
    requires Enabled(s, step)
  {
    step.PostExchange? ==> s.server.minted[step.posted].parent.None?
  }

  lemma {:induction false} HealthStep(s: State, step: Step)
    requires PairInv(s) && HealthInv(s) && Enabled(s, step) && Foreign(s, step)
    ensures HealthInv(Apply(s, step))
  {
    PairStep(s, step);
    if Quiet(step) {
      QuietKeepsHealth(s, step);
    } else if step.Exchange? {
      ExchangeKeepsHealth(s, step.c, step.reply);
    } else if step.PostExchange? {
      PostExchangeKeepsHealth(s, step);
    } else if step.Commit? {
      CommitKeepsHealth(s, step.c);
    } else {
      WorldKeepsHealth(s, step);
    }
  }

  lemma {:induction false} QuietKeepsHealth(s: State, step: Step)
    requires PairInv(s) && HealthInv(s) && Enabled(s, step) && Quiet(step)
    ensures HealthInv(Apply(s, step))
  {
    QuietStep(s, step);
    var t := Apply(s, step);
    var me := StepCaller(step).value;
    if !t.lost && Settled(t) {
      assert Settled(s) by {
        forall c | c in s.callers && s.callers[c].pc.Answered? ensures !Consumed(s.callers[c].pc.answer) {
          assert c != me ==> t.callers[c] == s.callers[c];
        }
      }
    }
  }

  lemma {:induction false} ExchangeKeepsHealth(s: State, c: CallerId, reply: Reply)
    requires PairInv(s) && HealthInv(s) && Enabled(s, Exchange(c, reply))
    ensures HealthInv(Apply(s, Exchange(c, reply)))
  {
    var t := Apply(s, Exchange(c, reply));
    if !t.lost && Settled(t) {
      assert !Consumed(t.callers[c].pc.answer);
      assert Settled(s);
    }
  }

  lemma {:induction false} PostExchangeKeepsHealth(s: State, step: Step)
    requires PairInv(s) && HealthInv(s) && Enabled(s, step) && step.PostExchange? && Foreign(s, step)
    ensures HealthInv(Apply(s, step))
  {
    var t := Apply(s, step);
    ServerGrows(s, step);
    PostExchangeDoes(s, step);
    PairsOfOursAreOld(s);
    NewHandIsFresh(s, t, step.w, step.kind, step.posted);
    assert !t.lost && Settled(t) ==> Healthy(s);
  }

  /** No pair in the row or in a hand is as new as the one minted next. */
  lemma {:induction false} PairsOfOursAreOld(s: State)
    requires PairInv(s)
    ensures forall w :: w in s.writers ==> Ours(s.server, s.writers[w].serial)
    ensures forall n :: n in s.server.spent ==> n < |s.server.minted|
    ensures s.row.Some? && s.row.value.refresh.Some? ==> Ours(s.server, s.row.value.refresh.value)
    ensures forall c :: c in s.callers && s.callers[c].pc.Answered? && s.callers[c].pc.answer.Rotated? ==>
              Ours(s.server, s.callers[c].pc.answer.serial)
  {
    forall c | c in s.callers && s.callers[c].pc.Answered? && s.callers[c].pc.answer.Rotated?
      ensures Ours(s.server, s.callers[c].pc.answer.serial)
    {
      assert AnswerFits(s, s.callers[c].pc.answer);
    }
  }

  /** Spending a foreign pair, and handing out the next one, keeps every hand's pair fresh. */
  lemma {:induction false} NewHandIsFresh(s: State, t: State, w: WriterId, kind: Kind, posted: Serial)
    requires PairInv(s) && WritersFresh(s) && AnswersFresh(s)
    requires posted < |s.server.minted| && !Ours(s.server, posted)
    requires t.row == s.row && t.callers == s.callers && t.server.spent <= s.server.spent + {posted}
    requires t.writers == s.writers || t.writers == s.writers[w := Writer(kind, |s.server.minted|, false)]
    ensures WritersFresh(t) && AnswersFresh(t)
  {
    PairsOfOursAreOld(s);
    forall c | c in t.callers && t.callers[c].pc.Answered? ensures AnswerFresh(t, t.callers[c].pc.answer) {
      assert AnswerFresh(s, s.callers[c].pc.answer);
    }
  }

  lemma {:induction false} CommitKeepsHealth(s: State, c: CallerId)
    requires PairInv(s) && HealthInv(s) && Enabled(s, Commit(c))
    ensures HealthInv(Apply(s, Commit(c)))
  {
    var t := Apply(s, Commit(c));
    var answer := s.callers[c].pc.answer;
    assert AnswerFits(s, answer) && AnswerFresh(s, answer);
    LockStep(s, Commit(c));
    FreeMeansNoAnswer(t);
    assert !Consumed(answer) ==> Settled(s);
  }

  lemma {:induction false} WorldKeepsHealth(s: State, step: Step)
    requires PairInv(s) && HealthInv(s) && Enabled(s, step)
    requires World(step)
    ensures HealthInv(Apply(s, step))
  {
    var t := Apply(s, step);
    assert t.callers == s.callers && t.server.spent == s.server.spent;
    if s.lock.None? {
      FreeMeansNoAnswer(s);
    }
  }

  // ------------------------------------------------------------------ versions

  lemma {:induction false} VersionGrows(s: State, step: Step)
    requires Enabled(s, step) && s.row.Some?
    ensures Apply(s, step).row.Some? && s.row.value.version <= Apply(s, step).row.value.version
  {
  }

  predicate RowVersionAtLeast(s: State, v: nat) {
    s.row.Some? && v <= s.row.value.version
  }

  /** A version at which the server rotated has a spent token, until the version moves on. */
  predicate RotationInv(s: State) {
    && (forall v :: v in s.rotatedAt ==> RowVersionAtLeast(s, v))
    && (s.row.Some? && s.row.value.version in s.rotatedAt && s.row.value.refresh.Some? ==>
          s.row.value.refresh.value in s.server.spent)
  }

  lemma {:induction false} RotationStep(s: State, step: Step)
    requires PairInv(s) && RotationInv(s) && Enabled(s, step)
    ensures RotationInv(Apply(s, step))
  {
    if Quiet(step) {
      QuietStep(s, step);
    } else {
      ServerGrows(s, step);
      if s.row.Some? {
        VersionGrows(s, step);
      }
    }
  }

  // ------------------------------------------------------------------ one caller

  predicate Seen(s: State, me: Caller, seen: nat) {
    && |me.calls| <= 1
    && RowVersionAtLeast(s, seen)
    && (|me.calls| == 1 ==> seen == me.calls[0].version && me.sawExpired)
  }

  predicate CallerInv(s: State, me: Caller) {
    && (forall i :: 0 <= i < |me.calls| ==> RowVersionAtLeast(s, me.calls[i].version))
    && (|me.calls| == 2 ==> me.sawExpired && me.calls[0].version < me.calls[1].version)
    && |me.calls| <= 2 && me.exchanges <= 2
    && match me.pc
       case Start => me == Caller(Start, [], 0, false)
       case Calling => me.calls != [] && me.exchanges <= |me.calls|
       case Waiting(seen) => Seen(s, me, seen) && me.exchanges <= |me.calls|
       case Locked(seen) => Seen(s, me, seen) && me.exchanges <= |me.calls|
       case Answered(seen, _) => Seen(s, me, seen) && me.exchanges <= |me.calls| + 1
       case Returned => true
       case Raised(_) => true
  }

  predicate CallersInv(s: State) {
    forall c :: c in s.callers ==> CallerInv(s, s.callers[c])
  }

  lemma {:induction false} OthersKeep(s: State, step: Step, c: CallerId)
    requires Enabled(s, step) && c in s.callers && CallerInv(s, s.callers[c]) && StepCaller(step) != Some(c)
    ensures c in Apply(s, step).callers && Apply(s, step).callers[c] == s.callers[c]
    ensures CallerInv(Apply(s, step), s.callers[c])
  {
    if s.row.Some? {
      VersionGrows(s, step);
    }
  }

  lemma {:induction false} MineKeeps(s: State, step: Step, c: CallerId)
    requires Enabled(s, step) && c in s.callers && CallerInv(s, s.callers[c]) && StepCaller(step) == Some(c)
    requires PairInv(s)
    ensures c in Apply(s, step).callers && CallerInv(Apply(s, step), Apply(s, step).callers[c])
  {
    if step.Commit? {
      CommitHandsNewer(s, c);
    } else if step.Load? || step.FnReturns? || step.FnFails? || step.FnExpires? {
      OutsideKeeps(s, step, c);
    } else {
      InsideKeeps(s, step, c);
    }
  }

  lemma {:induction false} OutsideKeeps(s: State, step: Step, c: CallerId)
    requires Enabled(s, step) && c in s.callers && CallerInv(s, s.callers[c]) && StepCaller(step) == Some(c)
    requires step.Load? || step.FnReturns? || step.FnFails? || step.FnExpires?
    ensures c in Apply(s, step).callers && CallerInv(Apply(s, step), Apply(s, step).callers[c])
  {
    QuietStep(s, step);
  }

  lemma {:induction false} InsideKeeps(s: State, step: Step, c: CallerId)
    requires Enabled(s, step) && c in s.callers && CallerInv(s, s.callers[c]) && StepCaller(step) == Some(c)
    requires step.Acquire? || step.Reuse? || step.GiveUp? || step.Exchange? || step.Crash?
    ensures c in Apply(s, step).callers && CallerInv(Apply(s, step), Apply(s, step).callers[c])
  {
    assert Apply(s, step).row == s.row;
  }

  /** Whatever ends the locked section with a credential, its version is above the one seen. */
  lemma {:induction false} CommitHandsNewer(s: State, c: CallerId)
    requires PairInv(s) && Enabled(s, Commit(c)) && CallerInv(s, s.callers[c])
    ensures var t := Apply(s, Commit(c));
            && CallerInv(t, t.callers[c])
            && (t.callers[c].pc.Calling? ==>
                  var calls := t.callers[c].calls;
                  calls[|calls| - 1].version == t.row.value.version > s.callers[c].pc.seen)
  {
    var (row, result) := Settle(s.row.value, s.callers[c].pc.answer);
    var t := Apply(s, Commit(c));
    assert t.row == Some(row) && s.row.value.version <= row.version;
  }

  lemma {:induction false} CallersStep(s: State, step: Step)
    requires PairInv(s) && CallersInv(s) && Enabled(s, step)
    ensures CallersInv(Apply(s, step))
  {
    var t := Apply(s, step);
    assert t.callers.Keys == s.callers.Keys;
    forall c | c in t.callers ensures CallerInv(t, t.callers[c]) {
      if StepCaller(step) == Some(c) {
        MineKeeps(s, step, c);
      } else {
        OthersKeep(s, step, c);
      }
    }
  }
}
