/**
 * The mobile session: single-flight token refresh, generations, the refresh
 * timer and serialized token storage, split at every await
 * (nftopia-mobile-app/stores/authStore.ts and the services it awaits).
 * Clock in ms, token expiry in seconds.
 */
module MobileSession {
  import opened Common

  // ----- The store fields and the refresh timer -----

  /** When a timer was set, for how long, and the session generation at that time. */
  datatype Timer = Timer(armedAt: int, delay: int, generation: nat)

  /** The pending timers by handle, the handle `refreshTimer` holds, and the next one `setTimeout` returns. */
  datatype Timers = Timers(pending: map<nat, Timer>, refreshTimer: Option<nat>, nextHandle: nat)

  /** `clearTimeout(refreshTimer)`: cancels that timer if it is pending, and only that one. */
  function ClearTimer(t: Timers): Timers {
    if t.refreshTimer.Some? then t.(pending := t.pending - {t.refreshTimer.value}) else t
  }

  function SetTimer(t: Timers, timer: Timer): Timers {
    Timers(t.pending[t.nextHandle := timer], Some(t.nextHandle), t.nextHandle + 1)
  }

  /** The number of the sign-in that opened a session, and the generation of the wallet login that did, if one did. */
  datatype Opening = Opening(number: nat, login: Option<nat>)

  /** `session` is how the session shown was opened; while signed out, how the last one was. */
  datatype Screen = Screen(user: Option<string>, isAuthenticated: bool, expiry: Option<int>, session: Opening, timers: Timers)

  const REFRESH_BUFFER_SECONDS := 120
  const MAX_TIMER_MS := 2147483647

  function RefreshDelay(expiry: int, now: int): int {
    Min(Max(1000, (expiry - REFRESH_BUFFER_SECONDS) * 1000 - now), MAX_TIMER_MS)
  }

  /** `set` followed by the subscriber: a changed session cancels the timer, and sets a new one if it is signed in with a known expiry. */
  function Put(s: Screen, now: int, generation: nat, user: Option<string>, isAuthenticated: bool, expiry: Option<int>, session: Opening): Screen {
    Screen(user, isAuthenticated, expiry, session,
           if isAuthenticated == s.isAuthenticated && expiry == s.expiry then s.timers
           else if !isAuthenticated || expiry.None? then ClearTimer(s.timers)
           else SetTimer(ClearTimer(s.timers), Timer(now, RefreshDelay(expiry.value, now), generation)))
  }

  // ----- Token storage: writes are executed one after another -----

  /** Which request produced a token pair (for a refresh, which one), and the session generation it belonged to. */
  datatype Origin = Refreshed(refresh: nat, generation: nat) | LoggedIn(generation: nat)

  datatype StorageOp = Save(origin: Origin) | Clear

  /** What is stored, the writes not yet executed, and for each executed one, in order, whether it succeeded. */
  datatype Tokens = Tokens(stored: Option<Origin>, writes: seq<StorageOp>, results: seq<bool>)

  /** The ticket the next queued write will carry. */
  function NextTicket(t: Tokens): nat {
    |t.results| + |t.writes| + 1
  }

  function Enqueue(t: Tokens, op: StorageOp): Tokens {
    t.(writes := t.writes + [op])
  }

  function ExecuteWrite(t: Tokens, ok: bool): Tokens
    requires t.writes != []
  {
    t.(writes := t.writes[1..], results := t.results + [ok],
       stored := match t.writes[0]
                 case Clear => None
                 case Save(origin) => if ok then Some(origin) else t.stored)
  }

  /** The write with this ticket was executed and ended in this way. */
  predicate Ended(t: Tokens, ticket: nat, ok: bool) {
    0 < ticket <= |t.results| && t.results[ticket - 1] == ok
  }

  // ----- Refreshing -----

  /** A logout waits for its clear to be written, then for the assistant store. */
  datatype LogoutPhase = Clearing(ticket: nat) | Importing

  /** A logout under way: the generation it began, and how many sign-ins there had been. */
  datatype LogoutTask = LogoutTask(generation: nat, after: nat, phase: LogoutPhase)

  datatype RefreshPhase = Rotating | Saving(ticket: nat) | ReadingExpiry | SigningOut(logout: LogoutTask)

  /** A refresh under way: the generation it belongs to, and how many sign-ins there had been when it began. */
  datatype RefreshTask = RefreshTask(generation: nat, after: nat, phase: RefreshPhase)

  /** `refreshPromise`, the suspended refreshes, the promise each call returned, and how promises settled. */
  datatype Flight = Flight(promise: Option<nat>, tasks: map<nat, RefreshTask>, calls: seq<nat>, outcomes: map<nat, bool>)

  function Join(f: Flight, p: nat): Flight {
    f.(calls := f.calls + [p])
  }

  function Start(f: Flight, id: nat, generation: nat, after: nat): Flight {
    f.(promise := Some(id), tasks := f.tasks[id := RefreshTask(generation, after, Rotating)], calls := f.calls + [id])
  }

  function Proceed(f: Flight, id: nat, phase: RefreshPhase): Flight
    requires id in f.tasks
  {
    f.(tasks := f.tasks[id := f.tasks[id].(phase := phase)])
  }

  function Settle(f: Flight, id: nat, outcome: bool): Flight {
    f.(tasks := f.tasks - {id}, outcomes := f.outcomes[id := outcome], promise := None)
  }

  // ----- The whole session -----

  datatype LoginPhase = Authenticating | Storing(ticket: nat) | StoringAgain(ticket: nat) | ReadingLoginExpiry

  datatype LoginTask = LoginTask(generation: nat, user: string, phase: LoginPhase)

  /** `signIns` counts the sign-ins so far, of whatever kind. */
  datatype Session = Session(
    now: nat,
    generation: nat,
    signIns: nat,
    nextId: nat,
    screen: Screen,
    tokens: Tokens,
    flight: Flight,
    logins: map<nat, LoginTask>,
    logouts: map<nat, LogoutTask>)

  const INITIAL := Session(0, 0, 0, 0, Screen(None, false, None, Opening(0, None), Timers(map[], None, 0)), Tokens(None, [], []),
                           Flight(None, map[], [], map[]), map[], map[])

  datatype Event =
    | RefreshSession
    | TimerFires(handle: nat)
    | LoginWithWallet
    | Logout
    | SetUser(newUser: Option<string>)
    | Rehydrate(savedUser: Option<string>, saved: bool)
    | RestoreSession(restored: Option<int>)
    | RestoreClears
    | RestoreFails
    | RestoreThrows
    | EmailSaves
    | RotationSettles(id: nat, ok: bool)
    | RotationSaved(id: nat, ok: bool)
    | RefreshExpiryRead(id: nat, ok: bool, read: Option<int>)
    | RefreshLogoutResumes(id: nat)
    | LoginSettles(id: nat, ok: bool, name: string)
    | LoginSaved(id: nat, ok: bool)
    | LoginExpiryRead(id: nat, ok: bool, read: Option<int>)
    | LogoutResumes(id: nat)
    | StorageWrites(ok: bool)
    | Pass(ms: nat)

  predicate Resumable(s: Session, p: LogoutPhase) {
    p.Clearing? ==> |s.tokens.results| >= p.ticket
  }

  /** An event can happen only when its action is suspended at the matching await. */
  predicate Enabled(s: Session, e: Event) {
    match e
    case TimerFires(h) => h in s.screen.timers.pending && s.now >= s.screen.timers.pending[h].armedAt + s.screen.timers.pending[h].delay
    case RotationSettles(id, _) => id in s.flight.tasks && s.flight.tasks[id].phase.Rotating?
    case RotationSaved(id, ok) =>
      id in s.flight.tasks && s.flight.tasks[id].phase.Saving? && Ended(s.tokens, s.flight.tasks[id].phase.ticket, ok)
    case RefreshExpiryRead(id, _, _) => id in s.flight.tasks && s.flight.tasks[id].phase.ReadingExpiry?
    case RefreshLogoutResumes(id) => id in s.flight.tasks && s.flight.tasks[id].phase.SigningOut? && Resumable(s, s.flight.tasks[id].phase.logout.phase)
    case LoginSettles(id, _, _) => id in s.logins && s.logins[id].phase.Authenticating?
    case LoginSaved(id, ok) =>
      && id in s.logins && (s.logins[id].phase.Storing? || s.logins[id].phase.StoringAgain?)
      && Ended(s.tokens, s.logins[id].phase.ticket, ok)
    case LoginExpiryRead(id, _, _) => id in s.logins && s.logins[id].phase.ReadingLoginExpiry?
    case LogoutResumes(id) => id in s.logouts && Resumable(s, s.logouts[id].phase)
    case StorageWrites(_) => s.tokens.writes != []
    case _ => true
  }

  function CallRefresh(s: Session): Session {
    match s.flight.promise
    case Some(p) => s.(flight := Join(s.flight, p))
    case None => s.(flight := Start(s.flight, s.nextId, s.generation, s.signIns), nextId := s.nextId + 1)
  }

  function Show(s: Session, user: Option<string>, isAuthenticated: bool, expiry: Option<int>, session: Opening): Session {
    s.(screen := Put(s.screen, s.now, s.generation, user, isAuthenticated, expiry, session))
  }

  /** A `set` that signs somebody in. */
  function SignedIn(s: Session, user: Option<string>, expiry: Option<int>, login: Option<nat>): Session {
    Show(s.(signIns := s.signIns + 1), user, true, expiry, Opening(s.signIns + 1, login))
  }

  /** A `set` that signs out but leaves user and expiry as they are. */
  function Unauthenticated(s: Session): Session {
    Show(s, s.screen.user, false, s.screen.expiry, s.screen.session)
  }

  /** The last `set` of a logout. */
  function SignedOut(s: Session): Session {
    Show(s, None, false, None, s.screen.session)
  }

  /** A new generation, with its timer cancelled: how a login and a logout begin. */
  function NextGeneration(s: Session): Session {
    s.(generation := s.generation + 1, screen := s.screen.(timers := ClearTimer(s.screen.timers)))
  }

  /** What `logout` does before its first await. */
  function BeginLogout(s: Session): Session {
    NextGeneration(s).(tokens := Enqueue(s.tokens, Clear))
  }

  /** The logout that begins now. */
  function NewLogout(s: Session): LogoutTask {
    LogoutTask(s.generation + 1, s.signIns, Clearing(NextTicket(s.tokens)))
  }

  function IsCurrent(s: Session, id: nat): bool
    requires id in s.flight.tasks
  {
    s.flight.tasks[id].generation == s.generation
  }

  /** The catch block of `refreshSession`. */
  function RefreshFails(s: Session, id: nat): Session
    requires id in s.flight.tasks
  {
    if IsCurrent(s, id) then BeginLogout(s).(flight := Proceed(s.flight, id, SigningOut(NewLogout(s))))
    else s.(flight := Settle(s.flight, id, false))
  }

  function LoginFails(s: Session, id: nat): Session {
    Unauthenticated(s.(logins := s.logins - {id}))
  }

  function SaveLogin(s: Session, id: nat, task: LoginTask): Session {
    s.(tokens := Enqueue(s.tokens, Save(LoggedIn(task.generation))), logins := s.logins[id := task])
  }

  function Apply(s: Session, e: Event): Session
    requires Enabled(s, e)
  {
    match e
    case RefreshSession => CallRefresh(s)
    case TimerFires(h) =>
      CallRefresh(s.(screen := s.screen.(timers := s.screen.timers.(pending := s.screen.timers.pending - {h}))))
    case LoginWithWallet =>
      NextGeneration(s).(nextId := s.nextId + 1,
         logins := s.logins[s.nextId := LoginTask(s.generation + 1, "", Authenticating)])
    case Logout =>
      BeginLogout(s).(nextId := s.nextId + 1, logouts := s.logouts[s.nextId := NewLogout(s)])
    case SetUser(user) =>
      if user.Some? then SignedIn(s, user, s.screen.expiry, None) else Show(s, None, false, s.screen.expiry, s.screen.session)
    case Rehydrate(user, signedIn) =>
      if signedIn then SignedIn(s, user, s.screen.expiry, None) else Show(s, user, false, s.screen.expiry, s.screen.session)
    case RestoreSession(expiry) => SignedIn(s, s.screen.user, expiry, None)
    case RestoreClears => s.(tokens := Enqueue(s.tokens, Clear))
    case RestoreFails => SignedOut(s)
    case RestoreThrows => Unauthenticated(s)
    case EmailSaves => s.(tokens := Enqueue(s.tokens, Save(LoggedIn(s.generation))))
    case RotationSettles(id, ok) =>
      // the service stores the new pair only if the session it was asked for is still current
      if ok && IsCurrent(s, id) then
        s.(tokens := Enqueue(s.tokens, Save(Refreshed(id, s.generation))), flight := Proceed(s.flight, id, Saving(NextTicket(s.tokens))))
      else RefreshFails(s, id)
    case RotationSaved(id, ok) =>
      if !ok then RefreshFails(s, id)
      else if !IsCurrent(s, id) then s.(flight := Settle(s.flight, id, false))
      else s.(flight := Proceed(s.flight, id, ReadingExpiry))
    case RefreshExpiryRead(id, ok, expiry) =>
      if !ok then RefreshFails(s, id)
      else Show(s, s.screen.user, s.screen.isAuthenticated, expiry, s.screen.session).(flight := Settle(s.flight, id, true))
    case RefreshLogoutResumes(id) =>
      var logout := s.flight.tasks[id].phase.logout;
      if logout.phase.Clearing? then s.(flight := Proceed(s.flight, id, SigningOut(logout.(phase := Importing))))
      else SignedOut(s).(flight := Settle(s.flight, id, false))
    case LoginSettles(id, ok, name) =>
      if !ok then LoginFails(s, id)
      else SaveLogin(s, id, LoginTask(s.logins[id].generation, name, Storing(NextTicket(s.tokens))))
    case LoginSaved(id, ok) =>
      if !ok then LoginFails(s, id)
      else if s.logins[id].phase.Storing? then SaveLogin(s, id, s.logins[id].(phase := StoringAgain(NextTicket(s.tokens))))
      else s.(logins := s.logins[id := s.logins[id].(phase := ReadingLoginExpiry)])
    case LoginExpiryRead(id, ok, expiry) =>
      if !ok then LoginFails(s, id)
      else SignedIn(s.(logins := s.logins - {id}), Some(s.logins[id].user), expiry, Some(s.logins[id].generation))
    case LogoutResumes(id) =>
      if s.logouts[id].phase.Clearing? then s.(logouts := s.logouts[id := s.logouts[id].(phase := Importing)])
      else SignedOut(s.(logouts := s.logouts - {id}))
    case StorageWrites(ok) => s.(tokens := ExecuteWrite(s.tokens, ok))
    case Pass(ms) => s.(now := s.now + ms)
  }

  /** Any list of events is a run: one that cannot happen yet is skipped. */
  function Step(s: Session, e: Event): Session {
    if Enabled(s, e) then Apply(s, e) else s
  }

  function Run(s: Session, es: seq<Event>): Session {
    if es == [] then s else Step(Run(s, es[..|es| - 1]), es[|es| - 1])
  }

  // ----- What every interleaving keeps -----

  /** At most one rotation is in flight, it is the promise callers get, and every call has its rotation. */
  ghost predicate SingleFlight(f: Flight, nextId: nat) {
    && (if f.promise.None? then f.tasks.Keys == {} else f.tasks.Keys == {f.promise.value} && f.promise.value !in f.outcomes)
    && (forall p :: p in f.tasks || p in f.outcomes ==> p < nextId)
    && (forall p :: p in f.calls ==> p in f.tasks || p in f.outcomes)
  }

  /**
   * No timer is pending but the one `refreshTimer` holds, and that one belongs to the current
   * generation of a signed-in session and was set for the expiry it has now.
   */
  ghost predicate TimerMatches(s: Screen, generation: nat, now: int) {
    && (s.timers.refreshTimer.Some? ==> s.timers.refreshTimer.value < s.timers.nextHandle)
    && forall h :: h in s.timers.pending ==>
         && s.timers.refreshTimer == Some(h)
         && s.isAuthenticated && s.expiry.Some?
         && var t := s.timers.pending[h];
            t.armedAt <= now && t.delay == RefreshDelay(s.expiry.value, t.armedAt) && t.generation == generation
  }

  lemma FlightCalled(f: Flight, nextId: nat, generation: nat, after: nat)
    requires SingleFlight(f, nextId)
    ensures SingleFlight(f, nextId + 1)
    ensures f.promise.None? ==> SingleFlight(Start(f, nextId, generation, after), nextId + 1)
    ensures f.promise.Some? ==> SingleFlight(Join(f, f.promise.value), nextId)
  {
  }

  lemma FlightSettled(f: Flight, nextId: nat, id: nat, outcome: bool)
    requires SingleFlight(f, nextId) && id in f.tasks
    ensures SingleFlight(Settle(f, id, outcome), nextId)
  {
  }

  lemma FlightProceeds(f: Flight, nextId: nat, id: nat, phase: RefreshPhase)
    requires SingleFlight(f, nextId) && id in f.tasks
    ensures SingleFlight(Proceed(f, id, phase), nextId)
  {
  }

  predicate ResumesRefresh(e: Event) {
    e.RotationSettles? || e.RotationSaved? || e.RefreshExpiryRead? || e.RefreshLogoutResumes?
  }

  /** A resumed refresh either settles or goes on to a later phase. */
  lemma RefreshSettlesOrProceeds(s: Session, e: Event)
    requires ResumesRefresh(e) && Enabled(s, e)
    ensures Step(s, e).nextId == s.nextId && e.id in s.flight.tasks
    ensures exists outcome, phase :: Step(s, e).flight in {Settle(s.flight, e.id, outcome), Proceed(s.flight, e.id, phase)}
  {
    var f := Step(s, e).flight;
    if e.id in f.tasks {
      assert f in {Settle(s.flight, e.id, false), Proceed(s.flight, e.id, f.tasks[e.id].phase)};
    } else {
      assert f in {Settle(s.flight, e.id, f.outcomes[e.id]), Proceed(s.flight, e.id, Rotating)};
    }
  }

  lemma StepSingleFlight(s: Session, e: Event)
    requires SingleFlight(s.flight, s.nextId)
    ensures SingleFlight(Step(s, e).flight, Step(s, e).nextId)
  {
    FlightCalled(s.flight, s.nextId, s.generation, s.signIns);
    if ResumesRefresh(e) && Enabled(s, e) {
      RefreshSettlesOrProceeds(s, e);
      var outcome, phase :| Step(s, e).flight in {Settle(s.flight, e.id, outcome), Proceed(s.flight, e.id, phase)};
      FlightSettled(s.flight, s.nextId, e.id, outcome);
      FlightProceeds(s.flight, s.nextId, e.id, phase);
    } else if !ResumesRefresh(e) {
      CallsAndOthers(s, e);
    }
  }

  lemma CallsAndOthers(s: Session, e: Event)
    requires !ResumesRefresh(e)
    ensures var s' := Step(s, e);
            || (s'.flight == s.flight && s.nextId <= s'.nextId <= s.nextId + 1)
            || (s.flight.promise.Some? && s'.flight == Join(s.flight, s.flight.promise.value) && s'.nextId == s.nextId)
            || (s.flight.promise.None? && s'.flight == Start(s.flight, s.nextId, s.generation, s.signIns) && s'.nextId == s.nextId + 1)
  {
  }

  lemma ScreenMoves(s: Screen, generation: nat, now: int, user: Option<string>, isAuthenticated: bool, expiry: Option<int>, session: Opening)
    requires TimerMatches(s, generation, now)
    ensures TimerMatches(Put(s, now, generation, user, isAuthenticated, expiry, session), generation, now)
    ensures ClearTimer(s.timers).pending == map[]
  {
  }

  lemma StepTimerMatches(s: Session, e: Event)
    requires TimerMatches(s.screen, s.generation, s.now)
    ensures TimerMatches(Step(s, e).screen, Step(s, e).generation, Step(s, e).now)
  {
    forall user, isAuthenticated, expiry, session {
      ScreenMoves(s.screen, s.generation, s.now, user, isAuthenticated, expiry, session);
    }
    if ResumesRefresh(e) && Enabled(s, e) {
      RefreshTimerMatches(s, e);
    }
  }

  lemma RefreshTimerMatches(s: Session, e: Event)
    requires TimerMatches(s.screen, s.generation, s.now) && ResumesRefresh(e) && Enabled(s, e)
    ensures TimerMatches(Step(s, e).screen, Step(s, e).generation, Step(s, e).now)
  {
    forall user, isAuthenticated, expiry, session {
      ScreenMoves(s.screen, s.generation, s.now, user, isAuthenticated, expiry, session);
    }
  }

  ghost predicate Inv(s: Session) {
    SingleFlight(s.flight, s.nextId) && TimerMatches(s.screen, s.generation, s.now)
  }

  lemma StepInv(s: Session, e: Event)
    requires Inv(s)
    ensures Inv(Step(s, e))
  {
    StepSingleFlight(s, e);
    StepTimerMatches(s, e);
  }

  /** In every interleaving: one rotation at most, and no pending timer but the remembered and matching one. */
  lemma {:induction false} EveryInterleaving(es: seq<Event>)
    ensures Inv(Run(INITIAL, es))
    decreases |es|
  {
    if es != [] {
      EveryInterleaving(es[..|es| - 1]);
      StepInv(Run(INITIAL, es[..|es| - 1]), es[|es| - 1]);
    }
  }

  // ----- What a refresh can and cannot do -----

  /** A call made while a rotation is in flight starts nothing and gets that rotation's promise. */
  lemma CallsShareTheRotation(es: seq<Event>)
    ensures var s, s' := Run(INITIAL, es), Step(Run(INITIAL, es), RefreshSession);
            && s'.flight.calls == s.flight.calls + [s'.flight.promise.value]
            && (if s.flight.tasks != map[] then s'.flight.tasks == s.flight.tasks && s'.flight.calls[|s.flight.calls|] in s.flight.tasks
                else s'.flight.tasks == map[s.nextId := RefreshTask(s.generation, s.signIns, Rotating)])
  {
    EveryInterleaving(es);
  }

  lemma StepOutcomesFixed(s: Session, e: Event)
    requires SingleFlight(s.flight, s.nextId)
    ensures forall p :: p in s.flight.outcomes ==> p in Step(s, e).flight.outcomes && Step(s, e).flight.outcomes[p] == s.flight.outcomes[p]
    ensures Step(s, e).generation >= s.generation
  {
    if ResumesRefresh(e) && Enabled(s, e) {
      RefreshSettlesOrProceeds(s, e);
    } else if !ResumesRefresh(e) {
      CallsAndOthers(s, e);
    }
  }

  /** A promise settles once: all callers that got it see the same outcome for ever. */
  lemma {:induction false} OutcomesFixed(before: seq<Event>, after: seq<Event>, p: nat)
    requires p in Run(INITIAL, before).flight.outcomes
    ensures var s := Run(Run(INITIAL, before), after);
            && SingleFlight(s.flight, s.nextId)
            && p in s.flight.outcomes && s.flight.outcomes[p] == Run(INITIAL, before).flight.outcomes[p]
    decreases |after|
  {
    EveryInterleaving(before);
    if after != [] {
      OutcomesFixed(before, after[..|after| - 1], p);
      var s := Run(Run(INITIAL, before), after[..|after| - 1]);
      StepOutcomesFixed(s, after[|after| - 1]);
      StepSingleFlight(s, after[|after| - 1]);
    }
  }

  /** A refresh of a session that has ended, not yet past the check after its token pair is stored, or already failing. */
  ghost predicate Stale(s: Session, id: nat) {
    id in s.flight.tasks && s.flight.tasks[id].generation < s.generation && !s.flight.tasks[id].phase.ReadingExpiry?
  }

  /** When its reply settles, a stale refresh returns false and changes nothing else. */
  lemma StaleReplyIsInert(s: Session, id: nat, ok: bool)
    requires Stale(s, id)
    ensures Step(s, RotationSettles(id, ok)) in {s, s.(flight := Settle(s.flight, id, false))}
    ensures Step(s, RotationSaved(id, ok)) in {s, s.(flight := Settle(s.flight, id, false))}
    ensures Enabled(s, RotationSettles(id, ok)) ==> Step(s, RotationSettles(id, ok)).flight.outcomes[id] == false
    ensures Enabled(s, RotationSaved(id, ok)) ==> Step(s, RotationSaved(id, ok)).flight.outcomes[id] == false
  {
  }

  lemma StepStale(s: Session, e: Event, id: nat)
    requires SingleFlight(s.flight, s.nextId) && Stale(s, id)
    ensures Stale(Step(s, e), id) || (id in Step(s, e).flight.outcomes && !Step(s, e).flight.outcomes[id])
  {
  }

  /** Once a login or logout has begun, a refresh still waiting for its reply can only end in false. */
  lemma {:induction false} StaleRefreshFails(before: seq<Event>, after: seq<Event>, id: nat)
    requires Stale(Run(INITIAL, before), id)
    ensures var s := Run(Run(INITIAL, before), after);
            && SingleFlight(s.flight, s.nextId)
            && (Stale(s, id) || (id in s.flight.outcomes && !s.flight.outcomes[id]))
    decreases |after|
  {
    EveryInterleaving(before);
    if after != [] {
      StaleRefreshFails(before, after[..|after| - 1], id);
      var s := Run(Run(INITIAL, before), after[..|after| - 1]);
      StepSingleFlight(s, after[|after| - 1]);
      StepOutcomesFixed(s, after[|after| - 1]);
      if Stale(s, id) {
        StepStale(s, after[|after| - 1], id);
      }
    }
  }

  predicate SettledTrue(s: Session, id: nat) {
    id in s.flight.outcomes && s.flight.outcomes[id]
  }

  /** Some continuation of the run lets this refresh return true. */
  ghost predicate CanSucceed(s: Session, id: nat) {
    exists more :: SettledTrue(Run(s, more), id)
  }

  lemma RunOneMore(s: Session, es: seq<Event>, e: Event)
    ensures Run(s, es + [e]) == Step(Run(s, es), e)
  {
    assert (es + [e])[..|es + [e]| - 1] == es;
  }

  lemma ReadingExpirySucceeds(s: Session, id: nat)
    requires id in s.flight.tasks && s.flight.tasks[id].phase.ReadingExpiry?
    ensures CanSucceed(s, id)
  {
    RunOneMore(s, [], RefreshExpiryRead(id, true, None));
    assert SettledTrue(Run(s, [] + [RefreshExpiryRead(id, true, None)]), id);
  }

  lemma StaleCannotSucceed(es: seq<Event>, id: nat)
    requires Stale(Run(INITIAL, es), id)
    ensures !CanSucceed(Run(INITIAL, es), id)
  {
    forall more ensures !SettledTrue(Run(Run(INITIAL, es), more), id) {
      StaleRefreshFails(es, more, id);
    }
  }

  /**
   * The generation is not checked again after the expiry is read: a refresh of a session that
   * has ended can still settle true exactly when it has come that far.
   */
  lemma OutdatedRefreshSucceedsIff(es: seq<Event>, id: nat)
    requires var s := Run(INITIAL, es); id in s.flight.tasks && s.flight.tasks[id].generation < s.generation
    ensures CanSucceed(Run(INITIAL, es), id) <==> Run(INITIAL, es).flight.tasks[id].phase.ReadingExpiry?
  {
    if Run(INITIAL, es).flight.tasks[id].phase.ReadingExpiry? {
      ReadingExpirySucceeds(Run(INITIAL, es), id);
    } else {
      StaleCannotSucceed(es, id);
    }
  }

  /** A refresh settles true exactly when its expiry is read, whether or not its session is still current by then. */
  lemma SettlesTrueIff(s: Session, e: Event, id: nat)
    requires SingleFlight(s.flight, s.nextId) && id in s.flight.tasks
    ensures SettledTrue(Step(s, e), id) <==> s.flight.tasks[id].phase.ReadingExpiry? && e.RefreshExpiryRead? && e.id == id && e.ok
  {
  }

  // ----- What a logout leaves in storage -----

  /** The event begins a logout: the action itself, or a refresh of the current session that fails. */
  predicate BeginsLogout(s: Session, e: Event) {
    e.Logout? || (ResumesRefresh(e) && !e.RefreshLogoutResumes? && Enabled(s, e) && IsCurrent(s, e.id) && !e.ok)
  }

  /** A pair that a refresh fetched belongs to a generation not before `since`. */
  predicate Recent(op: StorageOp, since: nat) {
    op.Save? && op.origin.Refreshed? ==> op.origin.generation >= since
  }

  /**
   * The write with this ticket is a clear; behind it no token pair of a refresh from before `since`
   * is waiting to be written, and once it is executed none is stored.
   */
  ghost predicate NoResurrection(t: Tokens, since: nat, ticket: nat) {
    && ticket <= |t.results| + |t.writes|
    && (|t.results| < ticket ==> t.writes[ticket - |t.results| - 1] == Clear)
    && (forall i :: 0 <= i < |t.writes| && |t.results| + i >= ticket ==> Recent(t.writes[i], since))
    && (|t.results| >= ticket && t.stored.Some? ==> Recent(Save(t.stored.value), since))
  }

  lemma TokenMoves(t: Tokens, since: nat, ticket: nat, op: StorageOp, ok: bool)
    requires NoResurrection(t, since, ticket)
    ensures Recent(op, since) ==> NoResurrection(Enqueue(t, op), since, ticket)
    ensures t.writes != [] ==> NoResurrection(ExecuteWrite(t, ok), since, ticket)
  {
  }

  lemma StepNoResurrection(s: Session, e: Event, since: nat, ticket: nat)
    requires NoResurrection(s.tokens, since, ticket) && since <= s.generation
    ensures NoResurrection(Step(s, e).tokens, since, ticket) && since <= Step(s, e).generation
  {
    forall op, ok {
      TokenMoves(s.tokens, since, ticket, op, ok);
    }
    if ResumesRefresh(e) && Enabled(s, e) {
      ResumptionResurrectsNothing(s, e, since, ticket);
    }
  }

  lemma ResumptionResurrectsNothing(s: Session, e: Event, since: nat, ticket: nat)
    requires NoResurrection(s.tokens, since, ticket) && since <= s.generation && ResumesRefresh(e) && Enabled(s, e)
    ensures NoResurrection(Step(s, e).tokens, since, ticket) && since <= Step(s, e).generation
  {
    forall op {
      TokenMoves(s.tokens, since, ticket, op, true);
    }
  }

  lemma LogoutBegins(s: Session, e: Event)
    requires BeginsLogout(s, e)
    ensures Step(s, e).generation == s.generation + 1
    ensures Step(s, e).tokens == s.tokens.(writes := s.tokens.writes + [Clear])
    ensures NoResurrection(Step(s, e).tokens, s.generation + 1, NextTicket(s.tokens))
  {
  }

  /**
   * Once the clear of a logout has been executed, then however the run goes on no token pair that a
   * refresh of an earlier session fetched is stored.
   */
  lemma {:induction false} LogoutLeavesNoRefreshedTokens(s: Session, e: Event, after: seq<Event>)
    requires BeginsLogout(s, e)
    ensures var s' := Run(Step(s, e), after);
            && NoResurrection(s'.tokens, s.generation + 1, NextTicket(s.tokens)) && s'.generation > s.generation
            && (|s'.tokens.results| >= NextTicket(s.tokens) && s'.tokens.stored.Some? && s'.tokens.stored.value.Refreshed? ==>
                  s'.tokens.stored.value.generation > s.generation)
    decreases |after|
  {
    LogoutBegins(s, e);
    if after != [] {
      LogoutLeavesNoRefreshedTokens(s, e, after[..|after| - 1]);
      StepNoResurrection(Run(Step(s, e), after[..|after| - 1]), after[|after| - 1], s.generation + 1, NextTicket(s.tokens));
    }
  }

  // ----- A store that is signed out but holds an expiry -----

  ghost predicate ExpiryOfSession(s: Screen) {
    s.isAuthenticated || s.expiry.None?
  }

  /**
   * The events that leave an expiry in a signed-out store: an expiry read that was overtaken by a
   * sign-out; and, in a signed-in store, a failed login, a restore that throws, `setUser(null)`,
   * or saved state that was signed out.
   */
  predicate LeavesExpiry(s: Session, e: Event) {
    Enabled(s, e) &&
    match e
    case RefreshExpiryRead(_, ok, read) => ok && read.Some? && !s.screen.isAuthenticated
    case LoginSettles(_, ok, _) => !ok && s.screen.expiry.Some?
    case LoginSaved(_, ok) => !ok && s.screen.expiry.Some?
    case LoginExpiryRead(_, ok, _) => !ok && s.screen.expiry.Some?
    case SetUser(user) => user.None? && s.screen.expiry.Some?
    case Rehydrate(_, signedIn) => !signedIn && s.screen.expiry.Some?
    case RestoreThrows => s.screen.expiry.Some?
    case _ => false
  }

  lemma LeavesExpiryIff(s: Session, e: Event)
    requires ExpiryOfSession(s.screen)
    ensures !ExpiryOfSession(Step(s, e).screen) <==> LeavesExpiry(s, e)
  {
  }

  // ----- Longer runs -----

  lemma {:induction false} RunFirst(s: Session, e: Event, es: seq<Event>)
    ensures Run(s, [e] + es) == Run(Step(s, e), es)
    decreases |es|
  {
    var all := [e] + es;
    if es == [] {
      assert all[..0] == [];
    } else {
      assert all[..|all| - 1] == [e] + es[..|es| - 1];
      RunFirst(s, e, es[..|es| - 1]);
    }
  }

  lemma {:induction false} RunBoth(s: Session, es: seq<Event>, fs: seq<Event>)
    ensures Run(s, es + fs) == Run(Run(s, es), fs)
    decreases |fs|
  {
    if fs == [] {
      assert es + fs == es;
    } else {
      assert (es + fs)[..|es + fs| - 1] == es + fs[..|fs| - 1];
      RunBoth(s, es, fs[..|fs| - 1]);
    }
  }
}
