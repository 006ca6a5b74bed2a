/**
 * Logouts that end late: the last stretch of a logout resets the store whatever session is
 * shown by then (nftopia-mobile-app/stores/authStore.ts).
 */
module MobileLogout {
  import opened Common
  import opened MobileSession

  /** The logout with this id, on its own or inside the refresh with this id. */
  function LogoutOf(s: Session, id: nat, inRefresh: bool): Option<LogoutTask> {
    if inRefresh then
      if id in s.flight.tasks && s.flight.tasks[id].phase.SigningOut? then Some(s.flight.tasks[id].phase.logout) else None
    else if id in s.logouts then Some(s.logouts[id])
    else None
  }

  function Resume(id: nat, inRefresh: bool): Event {
    if inRefresh then RefreshLogoutResumes(id) else LogoutResumes(id)
  }

  /** The event is the last stretch of a logout: it resets the store. */
  predicate FinishesLogout(s: Session, e: Event) {
    && (e.RefreshLogoutResumes? || e.LogoutResumes?)
    && LogoutOf(s, e.id, e.RefreshLogoutResumes?).Some?
    && LogoutOf(s, e.id, e.RefreshLogoutResumes?).value.phase.Importing?
  }

  // ----- What refreshing does to the session -----

  predicate IsRefreshEvent(e: Event) {
    e.RefreshSession? || e.TimerFires? || ResumesRefresh(e)
  }

  /** Who is shown, whether signed in, and the expiry. */
  datatype Shown = Shown(user: Option<string>, isAuthenticated: bool, expiry: Option<int>)

  function ShownOf(s: Screen): Shown {
    Shown(s.user, s.isAuthenticated, s.expiry)
  }

  /** What each event shows; one that is not listed changes nothing of it. */
  function ShowsNext(s: Session, e: Event): Shown {
    var shown := ShownOf(s.screen);
    match e
    case SetUser(user) => Shown(user, user.Some?, shown.expiry)
    case Rehydrate(user, signedIn) => Shown(user, signedIn, shown.expiry)
    case RestoreSession(expiry) => Shown(shown.user, true, expiry)
    case RestoreFails => Shown(None, false, None)
    case RestoreThrows => Shown(shown.user, false, shown.expiry)
    case RefreshExpiryRead(_, ok, expiry) => if ok then Shown(shown.user, shown.isAuthenticated, expiry) else shown
    case LoginSettles(_, ok, _) => if ok then shown else Shown(shown.user, false, shown.expiry)
    case LoginSaved(_, ok) => if ok then shown else Shown(shown.user, false, shown.expiry)
    case LoginExpiryRead(id, ok, expiry) =>
      if ok && id in s.logins then Shown(Some(s.logins[id].user), true, expiry) else Shown(shown.user, false, shown.expiry)
    case RefreshLogoutResumes(_) => if FinishesLogout(s, e) then Shown(None, false, None) else shown
    case LogoutResumes(_) => if FinishesLogout(s, e) then Shown(None, false, None) else shown
    case _ => shown
  }

  /** A sign-in of whatever kind has a number of its own, and remembers the generation of the wallet login it came from. */
  lemma StepShows(s: Session, e: Event)
    ensures ShownOf(Step(s, e).screen) == if Enabled(s, e) then ShowsNext(s, e) else ShownOf(s.screen)
    ensures var signsIn := Enabled(s, e) && (match e
                           case SetUser(user) => user.Some?
                           case Rehydrate(_, signedIn) => signedIn
                           case RestoreSession(_) => true
                           case LoginExpiryRead(_, ok, _) => ok
                           case _ => false);
            if signsIn then
              && Step(s, e).signIns == s.signIns + 1 && Step(s, e).screen.session.number == s.signIns + 1
              && Step(s, e).screen.session.login == (if e.LoginExpiryRead? then Some(s.logins[e.id].generation) else None)
            else Step(s, e).signIns == s.signIns && Step(s, e).screen.session == s.screen.session
  {
  }

  /** Refreshing never signs anybody in or changes who is signed in, except by the end of the logout that follows a failed rotation. */
  lemma RefreshChangesSessionsOnlyByLogout(s: Session, e: Event)
    requires IsRefreshEvent(e)
    ensures var s' := Step(s, e);
            s'.screen.user != s.screen.user || s'.screen.isAuthenticated != s.screen.isAuthenticated ==>
              && e.RefreshLogoutResumes? && FinishesLogout(s, e)
              && s'.screen.user.None? && !s'.screen.isAuthenticated && s'.screen.expiry.None?
  {
    if ResumesRefresh(e) && Enabled(s, e) && !FinishesLogout(s, e) {
      RefreshKeepsSession(s, e);
    }
  }

  lemma RefreshKeepsSession(s: Session, e: Event)
    requires ResumesRefresh(e) && Enabled(s, e) && !FinishesLogout(s, e)
    ensures Step(s, e).screen.user == s.screen.user && Step(s, e).screen.isAuthenticated == s.screen.isAuthenticated
  {
  }

  /**
   * That logout begins exactly when a refresh of the current generation fails. A session opened by
   * `setUser` since the refresh began does not move the generation, so it counts as its own.
   */
  lemma RefreshBeginsLogoutIff(s: Session, e: Event)
    requires ResumesRefresh(e) && Enabled(s, e)
    ensures Step(s, e).generation != s.generation
       <==> !e.RefreshLogoutResumes? && IsCurrent(s, e.id) && !e.ok
    ensures Step(s, e).generation != s.generation ==> Step(s, e).flight.tasks[e.id].phase == SigningOut(NewLogout(s))
  {
  }

  // ----- Logouts that end late -----

  /** The event signs out a session opened after the first `after` sign-ins. */
  predicate SignsOutLater(s: Session, e: Event, after: nat) {
    s.screen.isAuthenticated && s.screen.session.number > after && !Step(s, e).screen.isAuthenticated
  }

  /** Sessions, refreshes and logouts belong to sign-ins and generations that have begun, and wait for writes that are queued or done. */
  ghost predicate Numbered(s: Session) {
    SessionNumbered(s) && LoginsNumbered(s) && LogoutsNumbered(s) && RefreshesNumbered(s)
  }

  ghost predicate SessionNumbered(s: Session) {
    s.screen.session.number <= s.signIns && (s.screen.session.login.Some? ==> s.screen.session.login.value <= s.generation)
  }

  ghost predicate LoginsNumbered(s: Session) {
    forall id :: id in s.logins ==>
      && id < s.nextId && s.logins[id].generation <= s.generation
      && (s.logins[id].phase.Storing? || s.logins[id].phase.StoringAgain? ==> 0 < s.logins[id].phase.ticket < NextTicket(s.tokens))
  }

  ghost predicate LogoutsNumbered(s: Session) {
    forall id :: id in s.logouts ==> id < s.nextId && Begun(s.logouts[id], s.generation, s.signIns, NextTicket(s.tokens))
  }

  ghost predicate RefreshesNumbered(s: Session) {
    forall id :: id in s.flight.tasks ==> RefreshBegun(s.flight.tasks[id], s.generation, s.signIns, NextTicket(s.tokens))
  }

  predicate RefreshBegun(t: RefreshTask, generation: nat, signIns: nat, nextTicket: nat) {
    && t.generation <= generation && t.after <= signIns
    && (t.phase.Saving? ==> 0 < t.phase.ticket < nextTicket)
    && (t.phase.SigningOut? ==> Begun(t.phase.logout, generation, signIns, nextTicket))
  }

  predicate Begun(l: LogoutTask, generation: nat, signIns: nat, nextTicket: nat) {
    l.generation <= generation && l.after <= signIns && (l.phase.Clearing? ==> l.phase.ticket < nextTicket)
  }

  lemma StepGoesOn(s: Session, e: Event)
    ensures Step(s, e).generation >= s.generation && Step(s, e).signIns >= s.signIns && Step(s, e).nextId >= s.nextId
    ensures NextTicket(Step(s, e).tokens) >= NextTicket(s.tokens)
  {
    StepTickets(s, e);
  }

  lemma StepTickets(s: Session, e: Event)
    ensures NextTicket(Step(s, e).tokens) >= NextTicket(s.tokens)
  {
  }

  lemma StepLogoutsNumbered(s: Session, e: Event)
    requires LogoutsNumbered(s)
    ensures LogoutsNumbered(Step(s, e))
  {
    StepGoesOn(s, e);
  }

  lemma StepRefreshesNumbered(s: Session, e: Event)
    requires RefreshesNumbered(s)
    ensures RefreshesNumbered(Step(s, e))
  {
    StepGoesOn(s, e);
    if ResumesRefresh(e) && Enabled(s, e) {
      ResumptionNumbered(s, e);
    } else if !ResumesRefresh(e) {
      CallsAndOthers(s, e);
    }
  }

  lemma ResumptionNumbered(s: Session, e: Event)
    requires RefreshesNumbered(s) && ResumesRefresh(e) && Enabled(s, e)
    ensures RefreshesNumbered(Step(s, e))
  {
    StepGoesOn(s, e);
    RefreshSettlesOrProceeds(s, e);
    ResumedTaskBegun(s, e);
  }

  lemma ResumedTaskBegun(s: Session, e: Event)
    requires ResumesRefresh(e) && Enabled(s, e) && RefreshBegun(s.flight.tasks[e.id], s.generation, s.signIns, NextTicket(s.tokens))
    ensures var s' := Step(s, e);
            e.id in s'.flight.tasks ==> RefreshBegun(s'.flight.tasks[e.id], s'.generation, s'.signIns, NextTicket(s'.tokens))
  {
  }

  lemma StepLoginsNumbered(s: Session, e: Event)
    requires LoginsNumbered(s)
    ensures LoginsNumbered(Step(s, e))
  {
    StepGoesOn(s, e);
    if ResumesLogin(e) {
      LoginResumptionNumbered(s, e);
    } else if e != LoginWithWallet {
      OthersKeepLogins(s, e);
    }
  }

  predicate ResumesLogin(e: Event) {
    e.LoginSettles? || e.LoginSaved? || e.LoginExpiryRead?
  }

  lemma OthersKeepLogins(s: Session, e: Event)
    requires !ResumesLogin(e) && e != LoginWithWallet
    ensures Step(s, e).logins == s.logins
  {
  }

  lemma LoginResumptionNumbered(s: Session, e: Event)
    requires LoginsNumbered(s) && ResumesLogin(e)
    ensures LoginsNumbered(Step(s, e))
  {
    StepGoesOn(s, e);
  }

  lemma StepSessionNumbered(s: Session, e: Event)
    requires LoginsNumbered(s) && SessionNumbered(s)
    ensures SessionNumbered(Step(s, e))
  {
  }

  lemma StepNumbered(s: Session, e: Event)
    requires Numbered(s)
    ensures Numbered(Step(s, e))
  {
    StepSessionNumbered(s, e);
    StepLoginsNumbered(s, e);
    StepLogoutsNumbered(s, e);
    StepRefreshesNumbered(s, e);
  }

  lemma {:induction false} AlwaysNumbered(es: seq<Event>)
    ensures Numbered(Run(INITIAL, es))
    decreases |es|
  {
    if es != [] {
      AlwaysNumbered(es[..|es| - 1]);
      StepNumbered(Run(INITIAL, es[..|es| - 1]), es[|es| - 1]);
    }
  }

  /**
   * The end of a logout, on its own or after a failed refresh, looks at nothing: it signs out
   * whatever session is shown, and so one that began after it exactly when a later sign-in of any
   * kind opened the one shown. A check of the generation would prevent this for every session of a
   * `loginWithWallet` begun after the logout; where the generation has not moved there is none.
   */
  lemma LateSignOutIff(es: seq<Event>, id: nat, inRefresh: bool)
    requires FinishesLogout(Run(INITIAL, es), Resume(id, inRefresh))
    ensures var s := Run(INITIAL, es);
            var l := LogoutOf(s, id, inRefresh).value;
            && l.after <= s.signIns
            && (SignsOutLater(s, Resume(id, inRefresh), l.after) <==> s.screen.isAuthenticated && s.screen.session.number > l.after)
            && (s.screen.session.login.Some? && s.screen.session.login.value > l.generation ==> s.generation > l.generation)
  {
    AlwaysNumbered(es);
  }

  // ----- A login while a logout is under way -----

  /** Executing all queued writes: the last one decides what is stored. */
  lemma {:induction false} WritesDrain(s: Session) returns (es: seq<Event>)
    ensures var s' := Run(s, es);
            && s' == s.(tokens := s'.tokens)
            && s'.tokens.writes == [] && s'.tokens.results == s.tokens.results + seq(|s.tokens.writes|, _ => true)
            && (s.tokens.writes != [] && s.tokens.writes[|s.tokens.writes| - 1].Save? ==>
                  s'.tokens.stored == Some(s.tokens.writes[|s.tokens.writes| - 1].origin))
            && (s.tokens.writes == [] ==> s' == s)
    decreases |s.tokens.writes|
  {
    if s.tokens.writes == [] {
      es := [];
    } else {
      var next := Step(s, StorageWrites(true));
      var rest := WritesDrain(next);
      es := [StorageWrites(true)] + rest;
      RunFirst(s, StorageWrites(true), rest);
      assert [true] + seq(|s.tokens.writes| - 1, _ => true) == seq(|s.tokens.writes|, _ => true);
    }
  }

  /** The login with this id has its pair stored and nothing else waits to be written. */
  ghost predicate Stored(s: Session, id: nat, task: LoginTask) {
    && id in s.logins && s.logins[id] == task && task.phase.Storing? && Ended(s.tokens, task.phase.ticket, true)
    && s.tokens.writes == [] && s.tokens.stored == Some(LoggedIn(task.generation))
  }

  /** Nothing that a logout under way depends on was touched, but its clear may have been written. */
  ghost predicate LogoutsKept(s: Session, s': Session) {
    && s'.flight == s.flight && s'.logouts == s.logouts
    && s'.generation >= s.generation && s'.signIns >= s.signIns && NextTicket(s'.tokens) >= NextTicket(s.tokens)
  }

  lemma LoginReachesStorage(s: Session, name: string) returns (es: seq<Event>, task: LoginTask)
    ensures Stored(Run(s, es), s.nextId, task) && task.generation == s.generation + 1 && task.user == name
    ensures LogoutsKept(s, Run(s, es))
  {
    var begun := Step(s, LoginWithWallet);
    var settled := Step(begun, LoginSettles(s.nextId, true, name));
    task := settled.logins[s.nextId];
    var rest := WritesDrain(settled);
    RunFirst(begun, LoginSettles(s.nextId, true, name), rest);
    RunFirst(s, LoginWithWallet, [LoginSettles(s.nextId, true, name)] + rest);
    es := [LoginWithWallet] + ([LoginSettles(s.nextId, true, name)] + rest);
  }

  lemma StoredLoginCompletes(s: Session, id: nat, task: LoginTask) returns (es: seq<Event>)
    requires Stored(s, id, task)
    ensures var s' := Run(s, es);
            && s'.screen.isAuthenticated && s'.screen.user == Some(task.user) && s'.screen.session.login == Some(task.generation)
            && s'.screen.session.number > s.signIns
            && s'.tokens.writes == [] && s'.tokens.stored == Some(LoggedIn(task.generation))
            && LogoutsKept(s, s')
  {
    es := [];
    assert Run(s, es) == s;
    for i := 0 to 4
      invariant LogoutsKept(s, Run(s, es))
      invariant i < 4 ==> Completing(Run(s, es), id, task, i)
      invariant i == 4 ==> Completed(Run(s, es), task) && Run(s, es).screen.session.number > s.signIns
    {
      var e := [LoginSaved(id, true), StorageWrites(true), LoginSaved(id, true), LoginExpiryRead(id, true, None)][i];
      RunOneMore(s, es, e);
      CompletesStep(Run(s, es), id, task, i);
      es := es + [e];
    }
  }

  /** The login after `i` of the events that complete it. */
  ghost predicate Completing(s: Session, id: nat, task: LoginTask, i: nat) {
    && id in s.logins && s.logins[id].generation == task.generation && s.logins[id].user == task.user
    && match i
       case 0 => Stored(s, id, task)
       case 1 => s.logins[id].phase == StoringAgain(|s.tokens.results| + 1) && s.tokens.writes == [Save(LoggedIn(task.generation))]
       case 2 => s.logins[id].phase == StoringAgain(|s.tokens.results|) && Ended(s.tokens, |s.tokens.results|, true) && s.tokens.writes == [] && s.tokens.stored == Some(LoggedIn(task.generation))
       case _ => s.logins[id].phase == ReadingLoginExpiry && s.tokens.writes == [] && s.tokens.stored == Some(LoggedIn(task.generation))
  }

  ghost predicate Completed(s: Session, task: LoginTask) {
    && s.screen.isAuthenticated && s.screen.user == Some(task.user) && s.screen.session.login == Some(task.generation)
    && s.tokens.writes == [] && s.tokens.stored == Some(LoggedIn(task.generation))
  }

  lemma CompletesStep(s: Session, id: nat, task: LoginTask, i: nat)
    requires i < 4 && Completing(s, id, task, i)
    ensures var e := [LoginSaved(id, true), StorageWrites(true), LoginSaved(id, true), LoginExpiryRead(id, true, None)][i];
            && LogoutsKept(s, Step(s, e))
            && (if i == 3 then Completed(Step(s, e), task) && Step(s, e).screen.session.number > s.signIns
                else Completing(Step(s, e), id, task, i + 1))
  {
  }

  /** The logout has come to its last stretch and nothing else was touched. */
  ghost predicate CameToItsEnd(s: Session, s': Session, id: nat, inRefresh: bool)
    requires LogoutOf(s, id, inRefresh).Some?
  {
    && FinishesLogout(s', Resume(id, inRefresh))
    && LogoutOf(s', id, inRefresh).value.(phase := Importing) == LogoutOf(s, id, inRefresh).value.(phase := Importing)
    && s'.screen == s.screen && s'.tokens == s.tokens && s'.generation == s.generation && s'.signIns == s.signIns
    && s'.logins == s.logins && (!inRefresh ==> s'.flight == s.flight)
  }

  lemma ClearingResumes(s: Session, id: nat, inRefresh: bool)
    requires LogoutOf(s, id, inRefresh).Some? && LogoutOf(s, id, inRefresh).value.phase.Clearing?
    requires LogoutOf(s, id, inRefresh).value.phase.ticket <= |s.tokens.results|
    ensures CameToItsEnd(s, Step(s, Resume(id, inRefresh)), id, inRefresh)
  {
  }

  /** A logout whose clear is written comes to its last stretch without touching anything else. */
  lemma LogoutComesToItsEnd(s: Session, id: nat, inRefresh: bool) returns (es: seq<Event>)
    requires LogoutOf(s, id, inRefresh).Some? && Begun(LogoutOf(s, id, inRefresh).value, s.generation, s.signIns, |s.tokens.results| + 1)
    ensures CameToItsEnd(s, Run(s, es), id, inRefresh)
  {
    if LogoutOf(s, id, inRefresh).value.phase.Importing? {
      es := [];
    } else {
      RunOneMore(s, [], Resume(id, inRefresh));
      ClearingResumes(s, id, inRefresh);
      es := [] + [Resume(id, inRefresh)];
    }
  }

  /**
   * Any logout under way, on its own or after a failed refresh, can still end by signing out a
   * session that a later wallet login opened, whose token pair then stays stored with nothing
   * waiting to clear it.
   */
  lemma EveryLogoutCanSignOutLater(es: seq<Event>, id: nat, inRefresh: bool, name: string) returns (more: seq<Event>)
    requires LogoutOf(Run(INITIAL, es), id, inRefresh).Some?
    ensures var s, e := Run(Run(INITIAL, es), more), Resume(id, inRefresh);
            && s.screen.user == Some(name) && s.screen.session.login.Some?
            && FinishesLogout(s, e) && SignsOutLater(s, e, LogoutOf(Run(INITIAL, es), id, inRefresh).value.after)
            && Step(s, e).tokens.stored == Some(LoggedIn(s.screen.session.login.value)) && Step(s, e).tokens.writes == []
  {
    var s := Run(INITIAL, es);
    AlwaysNumbered(es);
    var first, task := LoginReachesStorage(s, name);
    var second := StoredLoginCompletes(Run(s, first), s.nextId, task);
    RunBoth(s, first, second);
    var signedIn := Run(s, first + second);
    var third := LogoutComesToItsEnd(signedIn, id, inRefresh);
    RunBoth(s, first + second, third);
    more := first + second + third;
  }

  /** It can also sign out a session that `setUser` opened after it began, and then the generation has not moved: no check of it would help. */
  lemma EveryLogoutCanSignOutSetUser(es: seq<Event>, id: nat, inRefresh: bool, name: string) returns (more: seq<Event>)
    requires LogoutOf(Run(INITIAL, es), id, inRefresh).Some?
    ensures var s, e := Run(Run(INITIAL, es), more), Resume(id, inRefresh);
            && s.screen.user == Some(name) && s.generation == Run(INITIAL, es).generation
            && FinishesLogout(s, e) && SignsOutLater(s, e, LogoutOf(Run(INITIAL, es), id, inRefresh).value.after)
  {
    AlwaysNumbered(es);
    more := SetUserThenLogoutEnds(Run(INITIAL, es), id, inRefresh, name);
  }

  lemma SetUserThenLogoutEnds(s: Session, id: nat, inRefresh: bool, name: string) returns (more: seq<Event>)
    requires Numbered(s) && LogoutOf(s, id, inRefresh).Some?
    ensures var s', e := Run(s, more), Resume(id, inRefresh);
            && s'.screen.user == Some(name) && s'.generation == s.generation
            && FinishesLogout(s', e) && SignsOutLater(s', e, s.signIns)
            && LogoutOf(s, id, inRefresh).value.after <= s.signIns
  {
    var shown := Step(s, SetUser(Some(name)));
    var drain := WritesDrain(shown);
    var rest := LogoutComesToItsEnd(Run(shown, drain), id, inRefresh);
    RunBoth(shown, drain, rest);
    RunFirst(s, SetUser(Some(name)), drain + rest);
    more := [SetUser(Some(name))] + (drain + rest);
  }

  /** One refresh whose rotation fails. */
  function FailedRefresh(): seq<Event> {
    [RefreshSession, RotationSettles(0, false)]
  }

  lemma FailedRefreshBeginsLogout()
    ensures LogoutOf(Run(INITIAL, FailedRefresh()), 0, true) == Some(LogoutTask(1, 0, Clearing(1)))
  {
    var begun := Step(INITIAL, RefreshSession);
    RunFirst(begun, RotationSettles(0, false), []);
    RunFirst(INITIAL, RefreshSession, [RotationSettles(0, false)]);
    assert [RotationSettles(0, false)] + [] == [RotationSettles(0, false)];
    assert [RefreshSession] + [RotationSettles(0, false)] == FailedRefresh();
  }

  /** A concrete start: a refresh begun before a wallet login signs its user out. */
  lemma FailedRefreshSignsOutNewLogin(name: string) returns (more: seq<Event>)
    ensures var s := Run(Run(INITIAL, FailedRefresh()), more);
            && s.screen.user == Some(name) && s.screen.isAuthenticated && s.screen.session.number > 0
            && !Step(s, RefreshLogoutResumes(0)).screen.isAuthenticated
  {
    FailedRefreshBeginsLogout();
    more := EveryLogoutCanSignOutLater(FailedRefresh(), 0, true, name);
  }

  // ----- Which refreshes can sign out a session opened after they began -----

  /** Some continuation of the run lets this refresh end by signing out a session opened after the first `after` sign-ins. */
  ghost predicate CanSignOutLater(s: Session, id: nat, after: nat) {
    exists more :: LateSignOut(Run(s, more), id, after)
  }

  predicate LateSignOut(s: Session, id: nat, after: nat) {
    FinishesLogout(s, RefreshLogoutResumes(id)) && SignsOutLater(s, RefreshLogoutResumes(id), after)
  }

  /** A refresh that can no longer begin a logout: it has ended, or it is outdated and not signing out. */
  ghost predicate Past(s: Session, id: nat) {
    id < s.nextId && (id in s.flight.tasks ==> s.flight.tasks[id].generation < s.generation && !s.flight.tasks[id].phase.SigningOut?)
  }

  lemma StepPast(s: Session, e: Event, id: nat)
    requires Past(s, id)
    ensures Past(Step(s, e), id)
  {
    StepGoesOn(s, e);
    if ResumesRefresh(e) && Enabled(s, e) {
      ResumptionPast(s, e, id);
    } else if !ResumesRefresh(e) {
      CallsAndOthers(s, e);
    }
  }

  lemma ResumptionPast(s: Session, e: Event, id: nat)
    requires Past(s, id) && ResumesRefresh(e) && Enabled(s, e)
    ensures Past(Step(s, e), id)
  {
    RefreshSettlesOrProceeds(s, e);
  }

  lemma {:induction false} PastForGood(s: Session, more: seq<Event>, id: nat)
    requires Past(s, id)
    ensures Past(Run(s, more), id)
    decreases |more|
  {
    if more != [] {
      PastForGood(s, more[..|more| - 1], id);
      StepPast(Run(s, more[..|more| - 1]), more[|more| - 1], id);
    }
  }

  /** A current refresh that fails, whatever it is waiting for, begins its logout. */
  lemma CurrentRefreshFails(s: Session, id: nat) returns (es: seq<Event>)
    requires Numbered(s) && id in s.flight.tasks && IsCurrent(s, id) && !s.flight.tasks[id].phase.SigningOut?
    ensures var s' := Run(s, es);
            LogoutOf(s', id, true).Some? && s'.signIns == s.signIns && Numbered(s')
    decreases s.flight.tasks[id].phase.Saving?
  {
    var drain := WritesDrain(s);
    var waiting := Run(s, drain);
    RunNumbered(s, drain);
    var e := match s.flight.tasks[id].phase
      case Rotating => RotationSettles(id, false)
      case Saving(ticket) => RotationSaved(id, waiting.tokens.results[ticket - 1])
      case _ => RefreshExpiryRead(id, false, None);
    RunOneMore(s, drain, e);
    StepNumbered(waiting, e);
    RefreshBeginsLogoutIff(waiting, e);
    es := drain + [e];
    if e.ok {
      var rest := CurrentRefreshFails(Run(s, es), id);
      RunBoth(s, es, rest);
      es := es + rest;
    }
  }

  lemma {:induction false} RunNumbered(s: Session, es: seq<Event>)
    requires Numbered(s)
    ensures Numbered(Run(s, es))
    decreases |es|
  {
    if es != [] {
      RunNumbered(s, es[..|es| - 1]);
      StepNumbered(Run(s, es[..|es| - 1]), es[|es| - 1]);
    }
  }

  lemma CurrentRefreshCanSignOutLater(s: Session, id: nat, after: nat)
    requires Numbered(s) && id in s.flight.tasks && (IsCurrent(s, id) || s.flight.tasks[id].phase.SigningOut?) && after <= s.signIns
    ensures CanSignOutLater(s, id, after)
  {
    var first: seq<Event> := [];
    if !s.flight.tasks[id].phase.SigningOut? {
      first := CurrentRefreshFails(s, id);
    }
    var second := SetUserThenLogoutEnds(Run(s, first), id, true, "");
    RunBoth(s, first, second);
    assert LateSignOut(Run(s, first + second), id, after);
  }

  /**
   * A refresh can end by signing out a session opened after the refresh itself began exactly while
   * its generation is current or it is already signing out.
   */
  lemma RefreshCanSignOutLaterIff(es: seq<Event>, id: nat)
    requires id in Run(INITIAL, es).flight.tasks
    ensures var s := Run(INITIAL, es);
            CanSignOutLater(s, id, s.flight.tasks[id].after) <==> IsCurrent(s, id) || s.flight.tasks[id].phase.SigningOut?
  {
    var s := Run(INITIAL, es);
    AlwaysNumbered(es);
    EveryInterleaving(es);
    if IsCurrent(s, id) || s.flight.tasks[id].phase.SigningOut? {
      CurrentRefreshCanSignOutLater(s, id, s.flight.tasks[id].after);
    } else {
      forall more ensures !LateSignOut(Run(s, more), id, s.flight.tasks[id].after) {
        PastForGood(s, more, id);
      }
    }
  }

  // ----- A login that completes after a logout -----

  /** How many more events of its own a login needs. */
  function StagesLeft(phase: LoginPhase): nat {
    match phase
    case Authenticating => 3
    case Storing(_) => 2
    case StoringAgain(_) => 1
    case ReadingLoginExpiry => 0
  }

  function NextOfLogin(id: nat, phase: LoginPhase): Event {
    match phase
    case Authenticating => LoginSettles(id, true, "")
    case ReadingLoginExpiry => LoginExpiryRead(id, true, None)
    case _ => LoginSaved(id, true)
  }

  /** The login with this id waits for a save that has already failed. */
  predicate SaveFailed(s: Session, id: nat)
    requires id in s.logins
  {
    (s.logins[id].phase.Storing? || s.logins[id].phase.StoringAgain?) && Ended(s.tokens, s.logins[id].phase.ticket, false)
  }

  /** With nothing left to write and no save failed, the login with this id goes on to its next stage, and at the last one signs in. */
  lemma LoginGoesOn(s: Session, id: nat)
    requires LoginsNumbered(s) && id in s.logins && s.tokens.writes == [] && !SaveFailed(s, id)
    ensures var task := s.logins[id];
            var s' := Step(s, NextOfLogin(id, task.phase));
            && s'.generation == s.generation
            && (if task.phase.ReadingLoginExpiry? then
                  s'.screen.isAuthenticated && s'.screen.session == Opening(s'.signIns, Some(task.generation))
                else
                  && id in s'.logins && s'.logins[id].generation == task.generation && !SaveFailed(s', id)
                  && StagesLeft(s'.logins[id].phase) == StagesLeft(task.phase) - 1)
  {
  }

  lemma LoginComesToReading(s: Session, id: nat) returns (es: seq<Event>)
    requires LoginsNumbered(s) && id in s.logins && !SaveFailed(s, id)
    ensures var s' := Run(s, es);
            && id in s'.logins && s'.logins[id].phase.ReadingLoginExpiry?
            && s'.logins[id].generation == s.logins[id].generation && s'.generation == s.generation
    decreases StagesLeft(s.logins[id].phase)
  {
    if s.logins[id].phase.ReadingLoginExpiry? {
      es := [];
    } else {
      var drain := WritesDrain(s);
      var waiting := Run(s, drain);
      var e := NextOfLogin(id, s.logins[id].phase);
      LoginGoesOn(waiting, id);
      RunOneMore(s, drain, e);
      es := drain + [e];
      StepLoginsNumbered(waiting, e);
      var rest := LoginComesToReading(Run(s, es), id);
      RunBoth(s, es, rest);
      es := es + rest;
    }
  }

  lemma LoginCompletes(s: Session, id: nat) returns (es: seq<Event>)
    requires LoginsNumbered(s) && id in s.logins && !SaveFailed(s, id)
    ensures var s' := Run(s, es);
            s'.screen.isAuthenticated && s'.screen.session == Opening(s'.signIns, Some(s.logins[id].generation)) && s'.generation == s.generation
  {
    var reading := LoginComesToReading(s, id);
    RunOneMore(s, reading, LoginExpiryRead(id, true, None));
    es := reading + [LoginExpiryRead(id, true, None)];
  }

  /** Some continuation of the run lets this login sign in. */
  ghost predicate CanSignIn(s: Session, id: nat) {
    exists more :: SignsInNext(Run(s, more), id)
  }

  predicate SignsInNext(s: Session, id: nat) {
    id in s.logins && s.logins[id].phase.ReadingLoginExpiry?
  }

  ghost predicate CannotSignIn(s: Session, id: nat) {
    id < s.nextId && (id in s.logins ==> SaveFailed(s, id))
  }

  lemma StepCannotSignIn(s: Session, e: Event, id: nat)
    requires CannotSignIn(s, id)
    ensures CannotSignIn(Step(s, e), id)
  {
    StepGoesOn(s, e);
    StepResults(s, e);
    if !ResumesLogin(e) && e != LoginWithWallet {
      OthersKeepLogins(s, e);
    }
  }

  /** How an executed write ended never changes. */
  lemma StepResults(s: Session, e: Event)
    ensures s.tokens.results <= Step(s, e).tokens.results
  {
  }

  lemma {:induction false} CannotSignInForGood(s: Session, more: seq<Event>, id: nat)
    requires CannotSignIn(s, id)
    ensures CannotSignIn(Run(s, more), id)
    decreases |more|
  {
    if more != [] {
      CannotSignInForGood(s, more[..|more| - 1], id);
      StepCannotSignIn(Run(s, more[..|more| - 1]), more[|more| - 1], id);
    }
  }

  /** A login under way can still sign in exactly while the save it waits for has not failed. */
  lemma LoginCanSignInIff(es: seq<Event>, id: nat)
    requires id in Run(INITIAL, es).logins
    ensures CanSignIn(Run(INITIAL, es), id) <==> !SaveFailed(Run(INITIAL, es), id)
  {
    var s := Run(INITIAL, es);
    AlwaysNumbered(es);
    if SaveFailed(s, id) {
      forall more ensures !SignsInNext(Run(s, more), id) {
        CannotSignInForGood(s, more, id);
      }
    } else {
      var more := LoginComesToReading(s, id);
      assert SignsInNext(Run(s, more), id);
    }
  }

  /**
   * A login looks at the generation nowhere: whichever login is under way with no failed save, a
   * whole logout can come first and the login then signs in, although a newer generation has begun.
   */
  lemma EveryLoginCanOutliveLogout(es: seq<Event>, id: nat) returns (out: seq<Event>, more: seq<Event>)
    requires id in Run(INITIAL, es).logins && !SaveFailed(Run(INITIAL, es), id)
    ensures var s, signedOut := Run(INITIAL, es), Run(Run(INITIAL, es), out);
            && !signedOut.screen.isAuthenticated && signedOut.screen.user.None? && signedOut.generation > s.logins[id].generation
            && Run(signedOut, more).screen.isAuthenticated
            && Run(signedOut, more).screen.session.login == Some(s.logins[id].generation)
  {
    var s := Run(INITIAL, es);
    AlwaysNumbered(es);
    var logout := LogoutRunsToItsEnd(s);
    RunOneMore(s, logout, LogoutResumes(s.nextId));
    out := logout + [LogoutResumes(s.nextId)];
    RunNumbered(s, out);
    more := LoginCompletes(Run(s, out), id);
  }

  // ----- A refresh overtaken by a logout -----

  ghost predicate OnlySuccesses(t: Tokens, t': Tokens) {
    t.results <= t'.results && forall i :: |t.results| <= i < |t'.results| ==> t'.results[i]
  }

  lemma LogoutRunsToItsEnd(s: Session) returns (es: seq<Event>)
    requires Numbered(s)
    ensures var s' := Run(s, es);
            && FinishesLogout(s', LogoutResumes(s.nextId)) && s'.generation == s.generation + 1
            && s'.flight == s.flight && s'.logins == s.logins && OnlySuccesses(s.tokens, s'.tokens)
  {
    var begun := Step(s, Event.Logout);
    var drain := WritesDrain(begun);
    var rest := LogoutComesToItsEnd(Run(begun, drain), s.nextId, false);
    RunBoth(begun, drain, rest);
    RunFirst(s, Event.Logout, drain + rest);
    es := [Event.Logout] + (drain + rest);
  }

  /**
   * Whenever a refresh is reading the expiry, a logout can begin and end before it is read: the
   * refresh then returns true and leaves the expiry in the signed-out store, though no timer.
   */
  lemma LogoutCanOvertakeRefresh(es: seq<Event>, id: nat, expiry: int) returns (more: seq<Event>)
    requires var s := Run(INITIAL, es); id in s.flight.tasks && s.flight.tasks[id].phase.ReadingExpiry?
    ensures var s := Run(Run(INITIAL, es), more);
            && SettledTrue(s, id) && s.generation > Run(INITIAL, es).flight.tasks[id].generation
            && !s.screen.isAuthenticated && s.screen.expiry == Some(expiry) && s.screen.timers.pending == map[]
  {
    var s := Run(INITIAL, es);
    AlwaysNumbered(es);
    var out := LogoutRunsToItsEnd(s);
    RunBoth(INITIAL, es, out);
    EveryInterleaving(es + out);
    RunOneMore(s, out, LogoutResumes(s.nextId));
    var signedOut := out + [LogoutResumes(s.nextId)];
    RunOneMore(s, signedOut, RefreshExpiryRead(id, true, Some(expiry)));
    OvertakenRead(Run(s, out), s.nextId, id, expiry);
    more := signedOut + [RefreshExpiryRead(id, true, Some(expiry))];
  }

  lemma OvertakenRead(s: Session, logout: nat, id: nat, expiry: int)
    requires TimerMatches(s.screen, s.generation, s.now) && FinishesLogout(s, LogoutResumes(logout))
    requires id in s.flight.tasks && s.flight.tasks[id].phase.ReadingExpiry?
    ensures var s' := Step(Step(s, LogoutResumes(logout)), RefreshExpiryRead(id, true, Some(expiry)));
            && SettledTrue(s', id) && s'.generation == s.generation
            && !s'.screen.isAuthenticated && s'.screen.expiry == Some(expiry) && s'.screen.timers.pending == map[]
  {
    ScreenMoves(s.screen, s.generation, s.now, None, false, None, s.screen.session);
  }

  /** A first refresh that has come to reading the expiry. */
  lemma RefreshComesToReading() returns (es: seq<Event>)
    ensures Run(INITIAL, es).flight.tasks == map[0 := RefreshTask(0, 0, ReadingExpiry)]
  {
    var begun := Step(INITIAL, RefreshSession);
    var saving := Step(begun, RotationSettles(0, true));
    var written := Step(saving, StorageWrites(true));
    RunFirst(written, RotationSaved(0, true), []);
    RunFirst(saving, StorageWrites(true), [RotationSaved(0, true)] + []);
    RunFirst(begun, RotationSettles(0, true), [StorageWrites(true)] + ([RotationSaved(0, true)] + []));
    es := [RefreshSession] + ([RotationSettles(0, true)] + ([StorageWrites(true)] + ([RotationSaved(0, true)] + [])));
    RunFirst(INITIAL, RefreshSession, es[1..]);
    assert es == [RefreshSession] + es[1..];
    assert es[1..] == [RotationSettles(0, true)] + ([StorageWrites(true)] + ([RotationSaved(0, true)] + []));
  }
}
