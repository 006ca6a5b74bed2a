/** The admin auth store as an object: each method is a stretch of code between awaits. */
module AdminAuthStore {
  import opened Common
  import opened AdminSession

  class AuthStore {
    const decode: Decoder
    const available: bool
    var now: int
    var state: AuthState
    var storage: Option<string>
    var timers: Timers
    var expiryTimer: Option<nat>
    var sessions: nat
    var requests: map<nat, Request>
    var nextId: nat

    function View(): Admin
      reads this
    {
      Admin(now, state, available, storage, timers, expiryTimer, sessions, requests, nextId)
    }

    /** What every method keeps: at most the remembered timer is pending, and a signed-in state is an admin's. */
    ghost predicate Valid()
      reads this
    {
      Safe(decode, View())
    }

    constructor (decode: Decoder, available: bool, stored: Option<string>, now: int)
      requires stored.Some? ==> available
      ensures Valid() && Loaded(View()) && this.decode == decode && storage == stored
    {
      this.decode, this.available, this.storage, this.now := decode, available, stored, now;
      state, timers, expiryTimer, sessions, requests, nextId := Outside(None, None), Timers(map[], 0), None, 0, map[], 0;
    }

    method CancelTimer()
      requires OneTimer(View())
      modifies this`timers, this`expiryTimer
      ensures View() == CancelExpiryTimer(old(View())) && timers.pending == map[]
    {
      if expiryTimer.Some? {
        timers := ClearTimeout(timers, expiryTimer.value);
        expiryTimer := None;
      }
    }

    method EndSession(next: AuthState)
      requires OneTimer(View()) && !next.Authenticated?
      modifies this`timers, this`expiryTimer, this`storage, this`state
      ensures Valid() && state == next && timers.pending == map[] && storage == None
      ensures View() == AdminSession.EndSession(old(View()), next)
    {
      CancelTimer();
      storage := None;
      state := next;
    }

    method StartSession(token: string, profile: Profile) returns (outcome: Outcome)
      requires Valid()
      modifies this`timers, this`expiryTimer, this`storage, this`state, this`sessions
      ensures Valid() && outcome == Judge(decode, token, now)
      ensures outcome.Started? <==> LetsIn(decode(token), now)
      ensures if outcome.Started? then View() == AdminSession.StartSession(decode, old(View()), token, profile)
              else View() == old(View())
    {
      var claims := decode(token);
      if claims.None? {
        return Invalid;
      }
      if claims.value.role != Some("ADMIN") {
        return NotAdmin;
      }
      var remaining := MsUntilExpiry(claims.value, now);
      if remaining.Some? && remaining.value <= 0 {
        return Expired;
      }
      Begin(claims.value, token, profile);
      outcome := Started;
    }

    /** The part of `startSession` after its checks. */
    method Begin(claims: Claims, token: string, profile: Profile)
      requires Valid() && decode(token) == Some(claims) && Judge(decode, token, now).Started?
      modifies this`timers, this`expiryTimer, this`storage, this`state, this`sessions
      ensures Valid() && View() == AdminSession.StartSession(decode, old(View()), token, profile)
    {
      CancelTimer();
      sessions := sessions + 1;
      var remaining := MsUntilExpiry(claims, now);
      if remaining.Some? {
        expiryTimer := Some(timers.nextHandle);
        timers := SetTimeout(timers, Timer(now, now + Min(remaining.value, MAX_TIMER_MS), sessions));
      }
      storage := if available then Some(token) else None;
      state := Authenticated(AdminUser(claims.sub, Or(claims.email, profile.email),
                                       Or(claims.username, profile.username), claims.role.value), token);
      StartSessionSafe(decode, old(View()), token, profile);
    }

    method Complete(result: ApiResult)
      requires Valid()
      modifies this
      ensures Valid() && View() == AdminSession.Complete(decode, old(View()), result)
    {
      if result.NeedsTwoFactor? {
        state := TwoFactor(result.tempToken, None, false);
        return;
      }
      var outcome := StartSession(result.accessToken, result.profile);
      if outcome.NotAdmin? {
        EndSession(Outside(Some("not_admin"), None));
      } else if !outcome.Started? {
        EndSession(Outside(Some("unknown"), None));
      }
    }

    method Restore()
      requires Valid()
      modifies this
      ensures Valid() && View() == Step(decode, old(View()), Event.Restore)
    {
      if storage.None? || storage.value == "" {
        return;
      }
      var outcome := StartSession(storage.value, NO_PROFILE);
      if outcome.Expired? {
        EndSession(Outside(None, Some(SessionExpired)));
      } else if !outcome.Started? {
        EndSession(Outside(None, None));
      }
    }

    method Login() returns (id: nat)
      requires Valid()
      modifies this
      ensures Valid() && View() == Step(decode, old(View()), Event.Login)
      ensures id in requests && !state.Authenticated?
    {
      state := SignedOut(None, None, true);
      id := nextId;
      requests, nextId := requests[id := LoginRequest], nextId + 1;
    }

    method VerifyTwoFactor()
      requires Valid()
      modifies this
      ensures Valid() && View() == Step(decode, old(View()), Event.VerifyTwoFactor)
    {
      if !state.TwoFactor? {
        return;
      }
      var tempToken := state.tempToken;
      state := TwoFactor(tempToken, None, true);
      requests, nextId := requests[nextId := VerifyRequest(tempToken)], nextId + 1;
    }

    method ReplySettles(id: nat, reply: Result<ApiResult, string>)
      requires Valid() && id in requests
      modifies this
      ensures Valid() && View() == Step(decode, old(View()), Event.ReplySettles(id, reply))
    {
      var request := requests[id];
      requests := requests - {id};
      match reply {
        case Ok(result) => Complete(result);
        case Err(error) =>
          if request.LoginRequest? {
            EndSession(Outside(Some(error), None));
          } else {
            state := TwoFactor(request.tempToken, Some(error), false);
          }
      }
    }

    method Logout(notice: Option<Notice>)
      requires Valid()
      modifies this
      ensures Valid() && View() == Step(decode, old(View()), Event.Logout(notice))
    {
      EndSession(Outside(None, notice));
    }

    method HandleUnauthorized()
      requires Valid()
      modifies this
      ensures Valid() && View() == Step(decode, old(View()), Event.HandleUnauthorized)
    {
      if state.Authenticated? {
        EndSession(Outside(None, Some(SessionExpired)));
      }
    }

    /** The callback of a timer that is due: whichever fires is the remembered one, and nothing is pending after it. */
    method OnExpiry(handle: nat)
      requires Valid() && Due(View(), handle)
      modifies this
      ensures Valid() && View() == Step(decode, old(View()), TimerFires(handle))
      ensures old(expiryTimer) == Some(handle) && timers.pending == map[] && state == Outside(None, Some(SessionExpired))
    {
      timers := ClearTimeout(timers, handle);
      expiryTimer := None;
      EndSession(Outside(None, Some(SessionExpired)));
    }
  }
}
