/**
 * Which token pairs reach storage: what refreshes, logins and logouts wait for is written first,
 * and what is stored is the last write that had an effect
 * (nftopia-mobile-app/src/services/auth/tokenStorage.ts and its callers).
 */
module MobileTokens {
  import opened Common
  import opened MobileSession
  import opened MobileLogout

  datatype Write = Write(op: StorageOp, ok: bool)

  function NewWrite(s: Session, e: Event): seq<Write> {
    if e.StorageWrites? && s.tokens.writes != [] then [Write(s.tokens.writes[0], e.ok)] else []
  }

  /** The writes executed during a run, in order, with their outcomes. */
  function Executed(es: seq<Event>): seq<Write> {
    if es == [] then []
    else Executed(es[..|es| - 1]) + NewWrite(Run(INITIAL, es[..|es| - 1]), es[|es| - 1])
  }

  // ----- What is stored -----

  /** A clear always has an effect, a save only if it succeeds. */
  predicate HasEffect(w: Write) {
    w.op.Clear? || w.ok
  }

  /** The write at this place saved the pair, and no later one had an effect. */
  ghost predicate SavedLast(ws: seq<Write>, i: nat, origin: Origin) {
    i < |ws| && ws[i] == Write(Save(origin), true) && forall j :: i < j < |ws| ==> !HasEffect(ws[j])
  }

  lemma SavedLastGrows(ws: seq<Write>, w: Write, origin: Origin)
    ensures (exists i :: SavedLast(ws + [w], i, origin))
       <==> w == Write(Save(origin), true) || (!HasEffect(w) && exists i :: SavedLast(ws, i, origin))
  {
    var longer := ws + [w];
    if w == Write(Save(origin), true) {
      assert SavedLast(longer, |ws|, origin);
    } else if !HasEffect(w) && exists i :: SavedLast(ws, i, origin) {
      var i :| SavedLast(ws, i, origin);
      assert SavedLast(longer, i, origin);
    }
    if i: nat :| SavedLast(longer, i, origin) {
      assert longer[|ws|] == w;
      if i < |ws| {
        assert forall j :: i <= j < |ws| ==> longer[j] == ws[j];
        assert SavedLast(ws, i, origin);
      }
    }
  }

  /** Nothing but an executed write changes what is stored, and queued writes stay queued, in order. */
  lemma StepTokens(s: Session, e: Event)
    ensures if NewWrite(s, e) != [] then Step(s, e).tokens == ExecuteWrite(s.tokens, e.ok)
            else && Step(s, e).tokens.stored == s.tokens.stored && Step(s, e).tokens.results == s.tokens.results
                 && s.tokens.writes <= Step(s, e).tokens.writes
  {
  }

  /** Which writes an event queues; one that is not listed queues none. */
  function Queues(s: Session, e: Event): seq<StorageOp> {
    if !Enabled(s, e) then [] else
    match e
    case Logout => [Clear]
    case RestoreClears => [Clear]
    case EmailSaves => [Save(LoggedIn(s.generation))]
    case RotationSettles(id, ok) =>
      if s.flight.tasks[id].generation != s.generation then [] else if ok then [Save(Refreshed(id, s.generation))] else [Clear]
    case RotationSaved(id, ok) => if !ok && s.flight.tasks[id].generation == s.generation then [Clear] else []
    case RefreshExpiryRead(id, ok, _) => if !ok && s.flight.tasks[id].generation == s.generation then [Clear] else []
    case LoginSettles(id, ok, _) => if ok then [Save(LoggedIn(s.logins[id].generation))] else []
    case LoginSaved(id, ok) => if ok && s.logins[id].phase.Storing? then [Save(LoggedIn(s.logins[id].generation))] else []
    case _ => []
  }

  /** Writes are executed in the order in which events queue them, and nothing else is queued. */
  lemma StepQueues(s: Session, e: Event)
    ensures if NewWrite(s, e) != [] then s.tokens.writes == [NewWrite(s, e)[0].op] + Step(s, e).tokens.writes
            else Step(s, e).tokens.writes == s.tokens.writes + Queues(s, e)
  {
  }

  /** What is stored after any run is exactly what the last write with an effect saved. */
  lemma {:induction false} StoredIff(es: seq<Event>, origin: Origin)
    ensures Run(INITIAL, es).tokens.stored == Some(origin) <==> exists i :: SavedLast(Executed(es), i, origin)
    decreases |es|
  {
    if es != [] {
      var s, e := Run(INITIAL, es[..|es| - 1]), es[|es| - 1];
      StoredIff(es[..|es| - 1], origin);
      StepTokens(s, e);
      if NewWrite(s, e) != [] {
        SavedLastGrows(Executed(es[..|es| - 1]), NewWrite(s, e)[0], origin);
        assert Executed(es) == Executed(es[..|es| - 1]) + [NewWrite(s, e)[0]];
      } else {
        assert Executed(es) == Executed(es[..|es| - 1]);
      }
    }
  }

  // ----- What is waited for -----

  /** The write with this ticket, executed or still queued, is this one. */
  ghost predicate Awaits(t: Tokens, ws: seq<Write>, ticket: nat, op: StorageOp) {
    && 0 < ticket < NextTicket(t) && |t.results| == |ws|
    && op == (if ticket <= |ws| then ws[ticket - 1].op else t.writes[ticket - 1 - |ws|])
  }

  ghost predicate Recorded(t: Tokens, ws: seq<Write>) {
    |t.results| == |ws| && forall i :: 0 <= i < |ws| ==> t.results[i] == ws[i].ok
  }

  lemma EndedIsExecuted(t: Tokens, ws: seq<Write>, ticket: nat, op: StorageOp, ok: bool)
    requires Recorded(t, ws) && Awaits(t, ws, ticket, op) && Ended(t, ticket, ok)
    ensures Write(op, ok) in ws
  {
    assert ws[ticket - 1] == Write(op, ok);
  }

  lemma StepRecorded(s: Session, e: Event, ws: seq<Write>)
    requires Recorded(s.tokens, ws)
    ensures Recorded(Step(s, e).tokens, ws + NewWrite(s, e))
  {
    StepTokens(s, e);
  }

  lemma StepAwaits(s: Session, e: Event, ws: seq<Write>, ticket: nat, op: StorageOp)
    requires Awaits(s.tokens, ws, ticket, op)
    ensures Awaits(Step(s, e).tokens, ws + NewWrite(s, e), ticket, op)
  {
    StepTokens(s, e);
    StepTickets(s, e);
  }

  /** A refresh past its rotation waits for its own pair to be written; past that, it was written with success. */
  ghost predicate RefreshSaved(t: Tokens, ws: seq<Write>, id: nat, task: RefreshTask) {
    && (task.phase.Saving? ==> Awaits(t, ws, task.phase.ticket, Save(Refreshed(id, task.generation))))
    && (task.phase.ReadingExpiry? ==> Write(Save(Refreshed(id, task.generation)), true) in ws)
    && (task.phase.SigningOut? ==> LogoutCleared(t, ws, task.phase.logout))
  }

  ghost predicate LogoutCleared(t: Tokens, ws: seq<Write>, task: LogoutTask) {
    task.phase.Clearing? ==> Awaits(t, ws, task.phase.ticket, Clear)
  }

  ghost predicate LoginSavedFirst(t: Tokens, ws: seq<Write>, task: LoginTask) {
    && (task.phase.Storing? || task.phase.StoringAgain? ==> Awaits(t, ws, task.phase.ticket, Save(LoggedIn(task.generation))))
    && (task.phase.StoringAgain? || task.phase.ReadingLoginExpiry? ==> Write(Save(LoggedIn(task.generation)), true) in ws)
  }

  ghost predicate PairWritten(ws: seq<Write>, id: nat) {
    exists generation :: Write(Save(Refreshed(id, generation)), true) in ws
  }

  ghost predicate RefreshesSaved(s: Session, ws: seq<Write>) {
    && (forall id :: id in s.flight.tasks ==> RefreshSaved(s.tokens, ws, id, s.flight.tasks[id]))
    && (forall id :: SettledTrue(s, id) ==> PairWritten(ws, id))
  }

  ghost predicate LoginsSaved(s: Session, ws: seq<Write>) {
    && (forall id :: id in s.logins ==> LoginSavedFirst(s.tokens, ws, s.logins[id]))
    && (s.screen.session.login.Some? ==> Write(Save(LoggedIn(s.screen.session.login.value)), true) in ws)
  }

  ghost predicate LogoutsCleared(s: Session, ws: seq<Write>) {
    forall id :: id in s.logouts ==> LogoutCleared(s.tokens, ws, s.logouts[id])
  }

  lemma StepLogoutCleared(s: Session, e: Event, ws: seq<Write>, task: LogoutTask)
    requires LogoutCleared(s.tokens, ws, task)
    ensures LogoutCleared(Step(s, e).tokens, ws + NewWrite(s, e), task)
  {
    if task.phase.Clearing? {
      StepAwaits(s, e, ws, task.phase.ticket, Clear);
    }
  }

  lemma StepRefreshSaved(s: Session, e: Event, ws: seq<Write>, id: nat, task: RefreshTask)
    requires RefreshSaved(s.tokens, ws, id, task)
    ensures RefreshSaved(Step(s, e).tokens, ws + NewWrite(s, e), id, task)
  {
    if task.phase.Saving? {
      StepAwaits(s, e, ws, task.phase.ticket, Save(Refreshed(id, task.generation)));
    } else if task.phase.SigningOut? {
      StepLogoutCleared(s, e, ws, task.phase.logout);
    }
  }

  /** A write queued now is awaited under the next ticket. */
  lemma QueuedNow(t: Tokens, t': Tokens, ws: seq<Write>, op: StorageOp)
    requires Recorded(t, ws) && t'.results == t.results && t'.writes == t.writes + [op]
    ensures Awaits(t', ws, NextTicket(t), op)
  {
  }

  /** A rotation that settles queues the write it then waits for. */
  lemma SettledRotationSaved(s: Session, id: nat, ok: bool, ws: seq<Write>)
    requires Enabled(s, RotationSettles(id, ok)) && Recorded(s.tokens, ws)
    ensures var s' := Step(s, RotationSettles(id, ok));
            id in s'.flight.tasks ==> RefreshSaved(s'.tokens, ws, id, s'.flight.tasks[id])
  {
    var s' := Step(s, RotationSettles(id, ok));
    if ok && IsCurrent(s, id) {
      QueuedNow(s.tokens, s'.tokens, ws, Save(Refreshed(id, s.generation)));
    } else if IsCurrent(s, id) {
      QueuedNow(s.tokens, s'.tokens, ws, Clear);
    }
  }

  lemma ResumedRefreshSaved(s: Session, e: Event, ws: seq<Write>)
    requires ResumesRefresh(e) && Enabled(s, e) && Recorded(s.tokens, ws)
    requires RefreshSaved(s.tokens, ws, e.id, s.flight.tasks[e.id])
    ensures e.id in Step(s, e).flight.tasks ==> RefreshSaved(Step(s, e).tokens, ws, e.id, Step(s, e).flight.tasks[e.id])
    ensures SettledTrue(Step(s, e), e.id) && !SettledTrue(s, e.id) ==> PairWritten(ws, e.id)
  {
    var task, s' := s.flight.tasks[e.id], Step(s, e);
    if e.RotationSettles? {
      SettledRotationSaved(s, e.id, e.ok, ws);
    } else if e.RotationSaved? && e.ok {
      EndedIsExecuted(s.tokens, ws, task.phase.ticket, Save(Refreshed(e.id, task.generation)), true);
    } else if !e.RefreshLogoutResumes? && !e.ok && IsCurrent(s, e.id) {
      QueuedNow(s.tokens, s'.tokens, ws, Clear);
    }
  }

  /** What was saved stays so, whatever happens to it next. */
  ghost predicate StillSaved(s: Session, t: Tokens, ws: seq<Write>) {
    && (forall id :: id in s.flight.tasks ==> RefreshSaved(t, ws, id, s.flight.tasks[id]))
    && (forall id :: SettledTrue(s, id) ==> PairWritten(ws, id))
  }

  lemma StepStillSaved(s: Session, e: Event, ws: seq<Write>)
    requires RefreshesSaved(s, ws)
    ensures StillSaved(s, Step(s, e).tokens, ws + NewWrite(s, e))
  {
    forall id | id in s.flight.tasks ensures RefreshSaved(Step(s, e).tokens, ws + NewWrite(s, e), id, s.flight.tasks[id]) {
      StepRefreshSaved(s, e, ws, id, s.flight.tasks[id]);
    }
    forall id | PairWritten(ws, id) ensures PairWritten(ws + NewWrite(s, e), id) {
      var generation :| Write(Save(Refreshed(id, generation)), true) in ws;
      assert Write(Save(Refreshed(id, generation)), true) in ws + NewWrite(s, e);
    }
  }

  lemma ResumptionSaved(s: Session, s': Session, ws: seq<Write>, id: nat, outcome: bool, phase: RefreshPhase)
    requires StillSaved(s, s'.tokens, ws) && id in s.flight.tasks
    requires s'.flight == Settle(s.flight, id, outcome) || s'.flight == Proceed(s.flight, id, phase)
    requires id in s'.flight.tasks ==> RefreshSaved(s'.tokens, ws, id, s'.flight.tasks[id])
    requires SettledTrue(s', id) && !SettledTrue(s, id) ==> PairWritten(ws, id)
    ensures RefreshesSaved(s', ws)
  {
  }

  lemma CallSaved(s: Session, s': Session, ws: seq<Write>, p: nat)
    requires StillSaved(s, s'.tokens, ws)
    requires s'.flight == s.flight || s'.flight == Join(s.flight, p) || s'.flight == Start(s.flight, p, s.generation, s.signIns)
    ensures RefreshesSaved(s', ws)
  {
  }

  lemma StepRefreshesSaved(s: Session, e: Event, ws: seq<Write>)
    requires RefreshesSaved(s, ws) && Recorded(s.tokens, ws)
    ensures RefreshesSaved(Step(s, e), ws + NewWrite(s, e))
  {
    StepStillSaved(s, e, ws);
    if ResumesRefresh(e) && Enabled(s, e) {
      assert ws + NewWrite(s, e) == ws;
      ResumedRefreshSaved(s, e, ws);
      RefreshSettlesOrProceeds(s, e);
      var outcome, phase :| Step(s, e).flight in {Settle(s.flight, e.id, outcome), Proceed(s.flight, e.id, phase)};
      ResumptionSaved(s, Step(s, e), ws, e.id, outcome, phase);
    } else if !ResumesRefresh(e) {
      CallsAndOthers(s, e);
      CallSaved(s, Step(s, e), ws + NewWrite(s, e), if s.flight.promise.Some? then s.flight.promise.value else s.nextId);
    }
  }

  lemma StepLoginSavedFirst(s: Session, e: Event, ws: seq<Write>, task: LoginTask)
    requires LoginSavedFirst(s.tokens, ws, task)
    ensures LoginSavedFirst(Step(s, e).tokens, ws + NewWrite(s, e), task)
  {
    if task.phase.Storing? || task.phase.StoringAgain? {
      StepAwaits(s, e, ws, task.phase.ticket, Save(LoggedIn(task.generation)));
    }
  }

  lemma ResumedLoginSaved(s: Session, e: Event, ws: seq<Write>)
    requires ResumesLogin(e) && Enabled(s, e) && Recorded(s.tokens, ws)
    requires LoginSavedFirst(s.tokens, ws, s.logins[e.id])
    ensures e.id in Step(s, e).logins ==> LoginSavedFirst(Step(s, e).tokens, ws, Step(s, e).logins[e.id])
    ensures Step(s, e).screen.session != s.screen.session ==> Step(s, e).screen.session.login == Some(s.logins[e.id].generation)
                                                              && Write(Save(LoggedIn(s.logins[e.id].generation)), true) in ws
  {
    var task, s' := s.logins[e.id], Step(s, e);
    if e.LoginSaved? && e.ok {
      EndedIsExecuted(s.tokens, ws, task.phase.ticket, Save(LoggedIn(task.generation)), true);
    }
    if e.id in s'.logins && !s'.logins[e.id].phase.ReadingLoginExpiry? {
      QueuedNow(s.tokens, s'.tokens, ws, Save(LoggedIn(task.generation)));
    }
  }

  lemma OthersSignInWithoutLogin(s: Session, e: Event)
    requires !ResumesLogin(e)
    ensures Step(s, e).screen.session == s.screen.session || Step(s, e).screen.session.login.None?
  {
  }

  lemma StepLoginsSaved(s: Session, e: Event, ws: seq<Write>)
    requires LoginsSaved(s, ws) && Recorded(s.tokens, ws)
    ensures LoginsSaved(Step(s, e), ws + NewWrite(s, e))
  {
    forall id | id in s.logins ensures LoginSavedFirst(Step(s, e).tokens, ws + NewWrite(s, e), s.logins[id]) {
      StepLoginSavedFirst(s, e, ws, s.logins[id]);
    }
    if ResumesLogin(e) && Enabled(s, e) {
      assert ws + NewWrite(s, e) == ws;
      ResumedLoginSaved(s, e, ws);
    } else if !ResumesLogin(e) {
      OthersSignInWithoutLogin(s, e);
      if e != LoginWithWallet {
        OthersKeepLogins(s, e);
      }
    }
  }

  lemma StepLogoutsCleared(s: Session, e: Event, ws: seq<Write>)
    requires LogoutsCleared(s, ws) && Recorded(s.tokens, ws)
    ensures LogoutsCleared(Step(s, e), ws + NewWrite(s, e))
  {
    forall id | id in s.logouts ensures LogoutCleared(Step(s, e).tokens, ws + NewWrite(s, e), s.logouts[id]) {
      StepLogoutCleared(s, e, ws, s.logouts[id]);
    }
    if e.Logout? {
      assert ws + NewWrite(s, e) == ws;
      QueuedNow(s.tokens, Step(s, e).tokens, ws, Clear);
    }
  }

  ghost predicate SavedFirst(s: Session, ws: seq<Write>) {
    Recorded(s.tokens, ws) && RefreshesSaved(s, ws) && LoginsSaved(s, ws) && LogoutsCleared(s, ws)
  }

  lemma {:induction false} RunSavedFirst(es: seq<Event>)
    ensures SavedFirst(Run(INITIAL, es), Executed(es))
    decreases |es|
  {
    if es != [] {
      var before, e := es[..|es| - 1], es[|es| - 1];
      var s, ws := Run(INITIAL, before), Executed(before);
      RunSavedFirst(before);
      StepRecorded(s, e, ws);
      StepRefreshesSaved(s, e, ws);
      StepLoginsSaved(s, e, ws);
      StepLogoutsCleared(s, e, ws);
    }
  }

  // ----- What that means for refreshes and logins -----

  /**
   * A refresh that comes to reading the expiry, and so one that returns true, fetched a pair of its
   * own that was written with success before.
   */
  lemma RefreshIsSavedFirst(es: seq<Event>, id: nat)
    ensures var s := Run(INITIAL, es);
            && (id in s.flight.tasks && s.flight.tasks[id].phase.ReadingExpiry? ==>
                  Write(Save(Refreshed(id, s.flight.tasks[id].generation)), true) in Executed(es))
            && (SettledTrue(s, id) ==> exists generation :: Write(Save(Refreshed(id, generation)), true) in Executed(es))
  {
    RunSavedFirst(es);
  }

  /** A session shown for a wallet login, and a login about to sign in, has its pair written with success before. */
  lemma LoginIsSavedFirst(es: seq<Event>, id: nat)
    ensures var s := Run(INITIAL, es);
            && (id in s.logins && s.logins[id].phase.ReadingLoginExpiry? ==> Write(Save(LoggedIn(s.logins[id].generation)), true) in Executed(es))
            && (s.screen.session.login.Some? ==> Write(Save(LoggedIn(s.screen.session.login.value)), true) in Executed(es))
  {
    RunSavedFirst(es);
  }

  lemma ClearingGoesOnIff(s: Session, id: nat, inRefresh: bool)
    requires LogoutOf(s, id, inRefresh).Some? && LogoutOf(s, id, inRefresh).value.phase.Clearing?
    ensures var ticket := LogoutOf(s, id, inRefresh).value.phase.ticket;
            LogoutOf(Step(s, Resume(id, inRefresh)), id, inRefresh) != LogoutOf(s, id, inRefresh) <==> |s.tokens.results| >= ticket
  {
    if |s.tokens.results| >= LogoutOf(s, id, inRefresh).value.phase.ticket {
      ClearingResumes(s, id, inRefresh);
    }
  }

  /** A logout, on its own or after a failed refresh, goes on exactly once the clear it queued itself has been executed. */
  lemma LogoutGoesOnIff(es: seq<Event>, id: nat, inRefresh: bool)
    requires LogoutOf(Run(INITIAL, es), id, inRefresh).Some? && LogoutOf(Run(INITIAL, es), id, inRefresh).value.phase.Clearing?
    ensures var s, ws := Run(INITIAL, es), Executed(es);
            var ticket := LogoutOf(s, id, inRefresh).value.phase.ticket;
            && Awaits(s.tokens, ws, ticket, Clear)
            && (LogoutOf(Step(s, Resume(id, inRefresh)), id, inRefresh) != LogoutOf(s, id, inRefresh)
                <==> ticket <= |ws| && ws[ticket - 1].op == Clear)
  {
    RunSavedFirst(es);
    LogoutIsCleared(Run(INITIAL, es), Executed(es), id, inRefresh);
    ClearingGoesOnIff(Run(INITIAL, es), id, inRefresh);
  }

  lemma LogoutIsCleared(s: Session, ws: seq<Write>, id: nat, inRefresh: bool)
    requires SavedFirst(s, ws) && LogoutOf(s, id, inRefresh).Some?
    ensures LogoutCleared(s.tokens, ws, LogoutOf(s, id, inRefresh).value)
  {
  }

  function Writing(oks: seq<bool>): seq<Event> {
    seq(|oks|, i requires 0 <= i < |oks| => StorageWrites(oks[i]))
  }

  /** Executing all queued writes, of which the last saves a pair and succeeds, leaves that pair stored. */
  lemma {:induction false} LastSaveIsStored(s: Session, oks: seq<bool>, origin: Origin)
    requires s.tokens.writes != [] && s.tokens.writes[|s.tokens.writes| - 1] == Save(origin)
    requires |oks| == |s.tokens.writes| && oks[|oks| - 1]
    ensures var t := Run(s, Writing(oks)).tokens;
            t.stored == Some(origin) && t.writes == []
    decreases |oks|
  {
    var next := Step(s, StorageWrites(oks[0]));
    RunFirst(s, StorageWrites(oks[0]), Writing(oks[1..]));
    assert Writing(oks) == [StorageWrites(oks[0])] + Writing(oks[1..]);
    if |oks| > 1 {
      LastSaveIsStored(next, oks[1..], origin);
    } else {
      assert Writing(oks[1..]) == [];
    }
  }

  /**
   * When the rotation of a current refresh succeeds, the pair it fetched is queued for storage as
   * the last write, the refresh goes on exactly once that write has ended, and writing everything
   * queued leaves the pair stored.
   */
  lemma RotationStoresItsPair(s: Session, id: nat, oks: seq<bool>)
    requires id in s.flight.tasks && s.flight.tasks[id].phase.Rotating? && s.flight.tasks[id].generation == s.generation
    requires |oks| == |s.tokens.writes| + 1 && oks[|oks| - 1]
    ensures var s' := Step(s, RotationSettles(id, true));
            var written := Run(s', Writing(oks));
            && s'.tokens.writes == s.tokens.writes + [Save(Refreshed(id, s.generation))]
            && s'.screen == s.screen && s'.generation == s.generation
            && (forall ok :: !Enabled(s', RotationSaved(id, ok)))
            && written.tokens.stored == Some(Refreshed(id, s.generation))
            && Enabled(written, RotationSaved(id, true)) && !Enabled(written, RotationSaved(id, false))
  {
    var s' := Step(s, RotationSettles(id, true));
    LastSaveIsStored(s', oks, Refreshed(id, s.generation));
    WritingTouchesTokensOnly(s', oks);
    assert (s'.tokens.results + oks)[|s.tokens.results| + |oks| - 1] == oks[|oks| - 1];
  }

  lemma {:induction false} WritingTouchesTokensOnly(s: Session, oks: seq<bool>)
    requires |oks| <= |s.tokens.writes|
    ensures var s' := Run(s, Writing(oks));
            && s' == s.(tokens := s'.tokens)
            && s'.tokens.results == s.tokens.results + oks && s'.tokens.writes == s.tokens.writes[|oks|..]
    decreases |oks|
  {
    if oks != [] {
      WritingTouchesTokensOnly(s, oks[..|oks| - 1]);
      assert Writing(oks)[..|oks| - 1] == Writing(oks[..|oks| - 1]);
      assert oks == oks[..|oks| - 1] + [oks[|oks| - 1]];
    }
  }

  // ----- Which refreshes can still return true -----

  /** The refresh waits for a save that has already failed. */
  predicate RefreshSaveFailed(s: Session, id: nat)
    requires id in s.flight.tasks
  {
    s.flight.tasks[id].phase.Saving? && Ended(s.tokens, s.flight.tasks[id].phase.ticket, false)
  }

  /** A refresh that is not past its save, and is outdated, signing out, or has failed to save. */
  ghost predicate Doomed(s: Session, id: nat) {
    && id in s.flight.tasks && !s.flight.tasks[id].phase.ReadingExpiry?
    && (s.flight.tasks[id].generation < s.generation || s.flight.tasks[id].phase.SigningOut? || RefreshSaveFailed(s, id))
  }

  lemma StepDoomed(s: Session, e: Event, id: nat)
    requires SingleFlight(s.flight, s.nextId) && Doomed(s, id)
    ensures Doomed(Step(s, e), id) || (id in Step(s, e).flight.outcomes && !Step(s, e).flight.outcomes[id])
  {
    StepGoesOn(s, e);
    StepResults(s, e);
    if ResumesRefresh(e) && Enabled(s, e) {
      RefreshSettlesOrProceeds(s, e);
    } else if !ResumesRefresh(e) {
      CallsAndOthers(s, e);
    }
  }

  lemma {:induction false} DoomedForGood(before: seq<Event>, more: seq<Event>, id: nat)
    requires Doomed(Run(INITIAL, before), id)
    ensures var s := Run(Run(INITIAL, before), more);
            && SingleFlight(s.flight, s.nextId)
            && (Doomed(s, id) || (id in s.flight.outcomes && !s.flight.outcomes[id]))
    decreases |more|
  {
    EveryInterleaving(before);
    if more != [] {
      DoomedForGood(before, more[..|more| - 1], id);
      var s := Run(Run(INITIAL, before), more[..|more| - 1]);
      StepSingleFlight(s, more[|more| - 1]);
      StepOutcomesFixed(s, more[|more| - 1]);
      if Doomed(s, id) {
        StepDoomed(s, more[|more| - 1], id);
      }
    }
  }

  /** With nothing left to write, a refresh that is not doomed goes on to its next phase, and at the last one returns true. */
  lemma RefreshGoesOn(s: Session, id: nat)
    requires RefreshesNumbered(s) && id in s.flight.tasks && !Doomed(s, id) && s.tokens.writes == []
    ensures var s' := Step(s, NextOfRefresh(id, s.flight.tasks[id].phase));
            if s.flight.tasks[id].phase.ReadingExpiry? then SettledTrue(s', id)
            else id in s'.flight.tasks && !Doomed(s', id) && PhasesLeft(s'.flight.tasks[id].phase) < PhasesLeft(s.flight.tasks[id].phase)
  {
  }

  function PhasesLeft(phase: RefreshPhase): nat {
    match phase
    case Rotating => 2
    case Saving(_) => 1
    case _ => 0
  }

  function NextOfRefresh(id: nat, phase: RefreshPhase): Event {
    match phase
    case Rotating => RotationSettles(id, true)
    case Saving(_) => RotationSaved(id, true)
    case _ => RefreshExpiryRead(id, true, None)
  }

  lemma RefreshReturnsTrue(s: Session, id: nat) returns (es: seq<Event>)
    requires Numbered(s) && id in s.flight.tasks && !Doomed(s, id)
    ensures SettledTrue(Run(s, es), id)
    decreases PhasesLeft(s.flight.tasks[id].phase)
  {
    var drain := WritesDrain(s);
    RunNumbered(s, drain);
    var waiting, e := Run(s, drain), NextOfRefresh(id, s.flight.tasks[id].phase);
    RefreshGoesOn(waiting, id);
    RunOneMore(s, drain, e);
    StepNumbered(waiting, e);
    es := drain + [e];
    if !s.flight.tasks[id].phase.ReadingExpiry? {
      var rest := RefreshReturnsTrue(Run(s, es), id);
      RunBoth(s, es, rest);
      es := es + rest;
    }
  }

  /**
   * A refresh under way can still return true exactly while it reads the expiry, or its session is
   * the current one, it is not signing out, and its save has not failed.
   */
  lemma RefreshCanReturnTrueIff(es: seq<Event>, id: nat)
    requires id in Run(INITIAL, es).flight.tasks
    ensures var s := Run(INITIAL, es);
            var task := s.flight.tasks[id];
            CanSucceed(s, id) <==> task.phase.ReadingExpiry? || (task.generation == s.generation && !task.phase.SigningOut? && !RefreshSaveFailed(s, id))
  {
    var s := Run(INITIAL, es);
    AlwaysNumbered(es);
    if Doomed(s, id) {
      forall more ensures !SettledTrue(Run(s, more), id) {
        DoomedForGood(es, more, id);
      }
    } else {
      var more := RefreshReturnsTrue(s, id);
      assert SettledTrue(Run(s, more), id);
    }
  }
}
