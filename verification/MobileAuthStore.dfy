/** The mobile auth store as an object: one method for each stretch of code between awaits. */
module MobileAuthStore {
  import opened Common
  import opened MobileSession

  class AuthStore {
    var now: nat
    var user: Option<string>
    var isAuthenticated: bool
    var sessionExpiryTime: Option<int>
    var session: Opening
    // module variables of the store
    var sessionGeneration: nat
    var signIns: nat
    var refreshPromise: Option<nat>
    var timers: Timers
    // suspended actions and the storage queue they wait for
    var refreshes: map<nat, RefreshTask>
    var calls: seq<nat>
    var outcomes: map<nat, bool>
    var logins: map<nat, LoginTask>
    var logouts: map<nat, LogoutTask>
    var nextId: nat
    var tokens: Tokens

    function View(): Session
      reads this
    {
      Session(now, sessionGeneration, signIns, nextId, Screen(user, isAuthenticated, sessionExpiryTime, session, timers), tokens,
              Flight(refreshPromise, refreshes, calls, outcomes), logins, logouts)
    }

    /** What every method keeps: one rotation at most, and one matching timer at most. */
    ghost predicate Valid()
      reads this
    {
      Inv(View())
    }

    constructor ()
      ensures Valid() && View() == INITIAL
    {
      now, user, isAuthenticated, sessionExpiryTime, session := 0, None, false, None, Opening(0, None);
      signIns := 0;
      sessionGeneration, refreshPromise, timers := 0, None, Timers(map[], None, 0);
      refreshes, calls, outcomes, logins, logouts, nextId := map[], [], map[], map[], map[], 0;
      tokens := Tokens(None, [], []);
    }

    /** The subscriber: a changed session cancels the timer, and sets a new one if it is signed in with a known expiry. */
    method OnChange(wasAuthenticated: bool, previousExpiry: Option<int>)
      modifies this`timers
      ensures timers == if isAuthenticated == wasAuthenticated && sessionExpiryTime == previousExpiry then old(timers)
                        else if !isAuthenticated || sessionExpiryTime.None? then ClearTimer(old(timers))
                        else SetTimer(ClearTimer(old(timers)), Timer(now, RefreshDelay(sessionExpiryTime.value, now), sessionGeneration))
    {
      if isAuthenticated == wasAuthenticated && sessionExpiryTime == previousExpiry {
        return;
      }
      timers := ClearTimer(timers);
      if !isAuthenticated || sessionExpiryTime.None? {
        return;
      }
      var delay := Max(1000, (sessionExpiryTime.value - REFRESH_BUFFER_SECONDS) * 1000 - now);
      timers := SetTimer(timers, Timer(now, Min(delay, MAX_TIMER_MS), sessionGeneration));
    }

    /** The store's `set`, then the subscriber. */
    method Set(user: Option<string>, isAuthenticated: bool, expiry: Option<int>, session: Opening)
      requires Valid()
      modifies this`user, this`isAuthenticated, this`sessionExpiryTime, this`session, this`timers
      ensures Valid() && View() == Show(old(View()), user, isAuthenticated, expiry, session)
    {
      ScreenMoves(View().screen, sessionGeneration, now, user, isAuthenticated, expiry, session);
      var wasAuthenticated, previousExpiry := this.isAuthenticated, sessionExpiryTime;
      this.user, this.isAuthenticated, sessionExpiryTime, this.session := user, isAuthenticated, expiry, session;
      OnChange(wasAuthenticated, previousExpiry);
    }

    /** A `set` that signs somebody in. */
    method SignIn(user: Option<string>, expiry: Option<int>, login: Option<nat>)
      requires Valid()
      modifies this`user, this`isAuthenticated, this`sessionExpiryTime, this`session, this`timers, this`signIns
      ensures Valid() && View() == SignedIn(old(View()), user, expiry, login)
    {
      signIns := signIns + 1;
      Set(user, true, expiry, Opening(signIns, login));
    }

    method Write(op: StorageOp) returns (ticket: nat)
      modifies this`tokens
      ensures ticket == NextTicket(old(tokens)) && tokens == Enqueue(old(tokens), op)
    {
      ticket := NextTicket(tokens);
      tokens := Enqueue(tokens, op);
    }

    /** `logout` up to its first await. */
    method StartSignOut() returns (task: LogoutTask)
      requires Valid()
      modifies this`sessionGeneration, this`timers, this`tokens
      ensures Valid() && timers.pending == map[]
      ensures task == NewLogout(old(View())) && View() == BeginLogout(old(View()))
    {
      ScreenMoves(View().screen, sessionGeneration, now, None, false, None, session);
      sessionGeneration := sessionGeneration + 1;
      timers := ClearTimer(timers);
      var ticket := Write(Clear);
      task := LogoutTask(sessionGeneration, signIns, Clearing(ticket));
    }

    method RefreshSession() returns (promise: nat)
      requires Valid()
      modifies this`refreshPromise, this`refreshes, this`calls, this`nextId
      ensures Valid() && View() == Step(old(View()), Event.RefreshSession)
      ensures refreshPromise == Some(promise) && refreshes.Keys == {promise} && calls == old(calls) + [promise]
    {
      StepSingleFlight(View(), Event.RefreshSession);
      if refreshPromise.Some? {
        promise := refreshPromise.value;
      } else {
        promise := nextId;
        refreshes := refreshes[promise := RefreshTask(sessionGeneration, signIns, Rotating)];
        refreshPromise, nextId := Some(promise), nextId + 1;
      }
      calls := calls + [promise];
    }

    /** The callback of a timer that is due: it is the one `refreshTimer` holds, and no other is pending. */
    method OnTimer(handle: nat)
      requires Valid() && Enabled(View(), TimerFires(handle))
      modifies this`timers, this`refreshPromise, this`refreshes, this`calls, this`nextId
      ensures Valid() && View() == Step(old(View()), TimerFires(handle))
      ensures old(timers.refreshTimer) == Some(handle) && timers.pending == map[] && refreshPromise.Some?
    {
      timers := timers.(pending := timers.pending - {handle});
      var _ := RefreshSession();
    }

    /** The `finally` of a refresh. */
    method Finish(id: nat, outcome: bool)
      requires Valid() && id in refreshes
      modifies this`refreshPromise, this`refreshes, this`outcomes
      ensures Valid() && refreshPromise.None? && refreshes == map[]
      ensures View() == old(View()).(flight := MobileSession.Settle(old(View()).flight, id, outcome))
    {
      FlightSettled(View().flight, nextId, id, outcome);
      refreshes := refreshes - {id};
      outcomes := outcomes[id := outcome];
      refreshPromise := None;
    }

    /** The `catch` of a refresh. */
    method FailRefresh(id: nat)
      requires Valid() && id in refreshes
      modifies this`sessionGeneration, this`timers, this`tokens, this`refreshPromise, this`refreshes, this`outcomes
      ensures Valid() && View() == RefreshFails(old(View()), id)
    {
      if refreshes[id].generation == sessionGeneration {
        var logout := StartSignOut();
        refreshes := refreshes[id := refreshes[id].(phase := SigningOut(logout))];
      } else {
        Finish(id, false);
      }
    }

    method RotationSettles(id: nat, ok: bool)
      requires Valid() && Enabled(View(), Event.RotationSettles(id, ok))
      modifies this
      ensures Valid() && View() == Step(old(View()), Event.RotationSettles(id, ok))
    {
      StepInv(View(), Event.RotationSettles(id, ok));
      if ok && refreshes[id].generation == sessionGeneration {
        var ticket := Write(Save(Refreshed(id, sessionGeneration)));
        refreshes := refreshes[id := refreshes[id].(phase := Saving(ticket))];
      } else {
        FailRefresh(id);
      }
    }

    method RotationSaved(id: nat, ok: bool)
      requires Valid() && Enabled(View(), Event.RotationSaved(id, ok))
      modifies this
      ensures Valid() && View() == Step(old(View()), Event.RotationSaved(id, ok))
    {
      StepInv(View(), Event.RotationSaved(id, ok));
      if !ok {
        FailRefresh(id);
      } else if refreshes[id].generation != sessionGeneration {
        Finish(id, false);
      } else {
        refreshes := refreshes[id := refreshes[id].(phase := ReadingExpiry)];
      }
    }

    method RefreshExpiryRead(id: nat, ok: bool, expiry: Option<int>)
      requires Valid() && Enabled(View(), Event.RefreshExpiryRead(id, ok, expiry))
      modifies this
      ensures Valid() && View() == Step(old(View()), Event.RefreshExpiryRead(id, ok, expiry))
    {
      StepInv(View(), Event.RefreshExpiryRead(id, ok, expiry));
      if !ok {
        FailRefresh(id);
      } else {
        Set(user, isAuthenticated, expiry, session);
        Finish(id, true);
      }
    }

    method RefreshLogoutResumes(id: nat)
      requires Valid() && Enabled(View(), Event.RefreshLogoutResumes(id))
      modifies this
      ensures Valid() && View() == Step(old(View()), Event.RefreshLogoutResumes(id))
    {
      StepInv(View(), Event.RefreshLogoutResumes(id));
      if refreshes[id].phase.logout.phase.Clearing? {
        refreshes := refreshes[id := refreshes[id].(phase := SigningOut(refreshes[id].phase.logout.(phase := Importing)))];
      } else {
        Set(None, false, None, session);
        Finish(id, false);
      }
    }

    method LoginWithWallet()
      requires Valid()
      modifies this
      ensures Valid() && View() == Step(old(View()), Event.LoginWithWallet)
    {
      StepInv(View(), Event.LoginWithWallet);
      sessionGeneration := sessionGeneration + 1;
      timers := ClearTimer(timers);
      logins := logins[nextId := LoginTask(sessionGeneration, "", Authenticating)];
      nextId := nextId + 1;
    }

    method FailLogin(id: nat)
      requires Valid()
      modifies this
      ensures Valid() && View() == LoginFails(old(View()), id)
    {
      logins := logins - {id};
      Set(user, false, sessionExpiryTime, session);
    }

    method LoginSettles(id: nat, ok: bool, name: string)
      requires Valid() && Enabled(View(), Event.LoginSettles(id, ok, name))
      modifies this
      ensures Valid() && View() == Step(old(View()), Event.LoginSettles(id, ok, name))
    {
      StepInv(View(), Event.LoginSettles(id, ok, name));
      if !ok {
        FailLogin(id);
      } else {
        var ticket := Write(Save(LoggedIn(logins[id].generation)));
        logins := logins[id := LoginTask(logins[id].generation, name, Storing(ticket))];
      }
    }

    method LoginSaved(id: nat, ok: bool)
      requires Valid() && Enabled(View(), Event.LoginSaved(id, ok))
      modifies this
      ensures Valid() && View() == Step(old(View()), Event.LoginSaved(id, ok))
    {
      StepInv(View(), Event.LoginSaved(id, ok));
      if !ok {
        FailLogin(id);
      } else if logins[id].phase.Storing? {
        var ticket := Write(Save(LoggedIn(logins[id].generation)));
        logins := logins[id := logins[id].(phase := StoringAgain(ticket))];
      } else {
        logins := logins[id := logins[id].(phase := ReadingLoginExpiry)];
      }
    }

    method LoginExpiryRead(id: nat, ok: bool, expiry: Option<int>)
      requires Valid() && Enabled(View(), Event.LoginExpiryRead(id, ok, expiry))
      modifies this
      ensures Valid() && View() == Step(old(View()), Event.LoginExpiryRead(id, ok, expiry))
    {
      StepInv(View(), Event.LoginExpiryRead(id, ok, expiry));
      if !ok {
        FailLogin(id);
      } else {
        var login := logins[id];
        logins := logins - {id};
        SignIn(Some(login.user), expiry, Some(login.generation));
      }
    }

    method Logout()
      requires Valid()
      modifies this
      ensures Valid() && View() == Step(old(View()), Event.Logout)
    {
      StepInv(View(), Event.Logout);
      var logout := StartSignOut();
      logouts := logouts[nextId := logout];
      nextId := nextId + 1;
    }

    method LogoutResumes(id: nat)
      requires Valid() && Enabled(View(), Event.LogoutResumes(id))
      modifies this
      ensures Valid() && View() == Step(old(View()), Event.LogoutResumes(id))
    {
      StepInv(View(), Event.LogoutResumes(id));
      if logouts[id].phase.Clearing? {
        logouts := logouts[id := logouts[id].(phase := Importing)];
      } else {
        logouts := logouts - {id};
        Set(None, false, None, session);
      }
    }

    method SetUser(user: Option<string>)
      requires Valid()
      modifies this
      ensures Valid() && View() == Step(old(View()), Event.SetUser(user))
    {
      if user.Some? {
        SignIn(user, sessionExpiryTime, None);
      } else {
        Set(None, false, sessionExpiryTime, session);
      }
    }

    /** The last update of `initializeAuth` for a session that is still valid. */
    method RestoreSession(expiry: Option<int>)
      requires Valid()
      modifies this
      ensures Valid() && View() == Step(old(View()), Event.RestoreSession(expiry))
    {
      SignIn(user, expiry, None);
    }

    /** The `catch` of `initializeAuth`: it leaves the expiry. */
    method RestoreThrows()
      requires Valid()
      modifies this
      ensures Valid() && View() == Step(old(View()), Event.RestoreThrows)
    {
      Set(user, false, sessionExpiryTime, session);
    }
  }
}
