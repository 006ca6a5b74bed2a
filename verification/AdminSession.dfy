/**
 * The admin console session: state, token storage and the expiry timer, with API
 * replies arriving at any time (nftopia-admin/src/auth/authStore.ts). Times in ms.
 */
module AdminSession {
  import opened Common

  // ----- Tokens -----

  datatype Claims = Claims(sub: string, email: Option<string>, username: Option<string>, role: Option<string>, exp: Option<int>)

  /** Reading a token's payload is left open: any partial function from tokens to claims. */
  type Decoder = string -> Option<Claims>

  predicate IsAdmin(c: Claims) {
    c.role == Some("ADMIN")
  }

  function MsUntilExpiry(c: Claims, now: int): Option<int> {
    if c.exp.Some? then Some(c.exp.value * 1000 - now) else None
  }

  const MAX_TIMER_MS := 2147483647

  // ----- State -----

  datatype AdminUser = AdminUser(id: string, email: Option<string>, username: Option<string>, role: string)

  datatype Notice = SessionExpired | LoggedOut

  datatype AuthState =
    | SignedOut(error: Option<string>, notice: Option<Notice>, pending: bool)
    | TwoFactor(tempToken: string, error: Option<string>, pending: bool)
    | Authenticated(user: AdminUser, token: string)

  /** A timer: when it was armed, when it is due, and by which session. */
  datatype Timer = Timer(armedAt: int, due: int, session: nat)

  datatype Request = LoginRequest | VerifyRequest(tempToken: string)

  datatype Profile = Profile(email: Option<string>, username: Option<string>)

  datatype ApiResult = NeedsTwoFactor(tempToken: string) | SignedIn(accessToken: string, profile: Profile)

  /** The browser's pending timers by handle, and the handle the next `setTimeout` returns. */
  datatype Timers = Timers(pending: map<nat, Timer>, nextHandle: nat)

  function SetTimeout(t: Timers, timer: Timer): Timers {
    Timers(t.pending[t.nextHandle := timer], t.nextHandle + 1)
  }

  /** Cancelling a timer that has fired or was cancelled before does nothing. */
  function ClearTimeout(t: Timers, handle: nat): Timers {
    t.(pending := t.pending - {handle})
  }

  /**
   * `expiryTimer` is the handle the store remembers; `sessions` counts the sessions started;
   * `available` says whether the browser has a token storage.
   */
  datatype Admin = Admin(
    now: int,
    state: AuthState,
    available: bool,
    storage: Option<string>,
    timers: Timers,
    expiryTimer: Option<nat>,
    sessions: nat,
    requests: map<nat, Request>,
    nextId: nat)

  function Outside(error: Option<string>, notice: Option<Notice>): AuthState {
    SignedOut(error, notice, false)
  }

  function CancelExpiryTimer(s: Admin): Admin {
    if s.expiryTimer.Some? then s.(timers := ClearTimeout(s.timers, s.expiryTimer.value), expiryTimer := None) else s
  }

  function EndSession(s: Admin, next: AuthState): Admin {
    CancelExpiryTimer(s).(storage := None, state := next)
  }

  datatype Outcome = Started | Expired | Invalid | NotAdmin

  /** Who may come in: a readable token of an admin that has no expiry or one still ahead. */
  predicate LetsIn(claims: Option<Claims>, now: int) {
    && claims.Some? && claims.value.role == Some("ADMIN")
    && (claims.value.exp.Some? ==> claims.value.exp.value * 1000 > now)
  }

  function Judge(decode: Decoder, token: string, now: int): (outcome: Outcome)
    ensures outcome.Started? <==> LetsIn(decode(token), now)
    ensures outcome.NotAdmin? <==> decode(token).Some? && decode(token).value.role != Some("ADMIN")
    ensures outcome.Invalid? <==> decode(token).None?
  {
    var claims := decode(token);
    if claims.None? then Invalid
    else if !IsAdmin(claims.value) then NotAdmin
    else
      var remaining := MsUntilExpiry(claims.value, now);
      if remaining.Some? && remaining.value <= 0 then Expired else Started
  }

  function Or(a: Option<string>, b: Option<string>): Option<string> {
    if a.Some? then a else b
  }

  /** `startSession` for a token that passed its checks. */
  function StartSession(decode: Decoder, s: Admin, token: string, profile: Profile): Admin
    requires Judge(decode, token, s.now).Started?
  {
    var claims := decode(token).value;
    var remaining := MsUntilExpiry(claims, s.now);
    var cleared := CancelExpiryTimer(s);
    var armed :=
      if remaining.None? then cleared
      else cleared.(timers := SetTimeout(cleared.timers, Timer(s.now, s.now + Min(remaining.value, MAX_TIMER_MS), s.sessions + 1)),
                    expiryTimer := Some(cleared.timers.nextHandle));
    armed.(
       sessions := s.sessions + 1,
       storage := if s.available then Some(token) else None,
       state := Authenticated(AdminUser(claims.sub, Or(claims.email, profile.email), Or(claims.username, profile.username), "ADMIN"), token))
  }

  function Complete(decode: Decoder, s: Admin, result: ApiResult): Admin {
    match result
    case NeedsTwoFactor(tempToken) => s.(state := TwoFactor(tempToken, None, false))
    case SignedIn(token, profile) =>
      (match Judge(decode, token, s.now)
       case Started => StartSession(decode, s, token, profile)
       case NotAdmin => EndSession(s, Outside(Some("not_admin"), None))
       case _ => EndSession(s, Outside(Some("unknown"), None)))
  }

  const NO_PROFILE := Profile(None, None)

  datatype Event =
    | Restore
    | Login
    | VerifyTwoFactor
    | ReplySettles(id: nat, reply: Result<ApiResult, string>)
    | Logout(notice: Option<Notice>)
    | HandleUnauthorized
    | TimerFires(handle: nat)
    | Pass(ms: nat)

  function Send(s: Admin, r: Request, state: AuthState): Admin {
    s.(state := state, requests := s.requests[s.nextId := r], nextId := s.nextId + 1)
  }

  /** One event; one that cannot happen now is skipped, and time does not run past a timer that is due. */
  function Step(decode: Decoder, s: Admin, e: Event): Admin {
    match e
    case Restore =>
      if s.storage.None? || s.storage.value == "" then s
      else (match Judge(decode, s.storage.value, s.now)
            case Started => StartSession(decode, s, s.storage.value, NO_PROFILE)
            case Expired => EndSession(s, Outside(None, Some(SessionExpired)))
            case _ => EndSession(s, Outside(None, None)))
    case Login => Send(s, LoginRequest, SignedOut(None, None, true))
    case VerifyTwoFactor =>
      if s.state.TwoFactor? then Send(s, VerifyRequest(s.state.tempToken), TwoFactor(s.state.tempToken, None, true)) else s
    case ReplySettles(id, reply) =>
      if id !in s.requests then s
      else
        var request, s' := s.requests[id], s.(requests := s.requests - {id});
        (match reply
         case Ok(result) => Complete(decode, s', result)
         case Err(error) =>
           if request.LoginRequest? then EndSession(s', Outside(Some(error), None))
           else s'.(state := TwoFactor(request.tempToken, Some(error), false)))
    case Logout(notice) => EndSession(s, Outside(None, notice))
    case HandleUnauthorized =>
      if s.state.Authenticated? then EndSession(s, Outside(None, Some(SessionExpired))) else s
    case TimerFires(handle) =>
      if !Due(s, handle) then s
      else
        // the callback forgets whatever handle is remembered before it ends the session
        EndSession(s.(timers := ClearTimeout(s.timers, handle), expiryTimer := None), Outside(None, Some(SessionExpired)))
    case Pass(ms) =>
      if exists h :: h in s.timers.pending && s.timers.pending[h].due < s.now + ms then s else s.(now := s.now + ms)
  }

  predicate Due(s: Admin, handle: nat) {
    handle in s.timers.pending && s.now >= s.timers.pending[handle].due
  }

  function Run(decode: Decoder, s: Admin, es: seq<Event>): Admin {
    if es == [] then s else Step(decode, Run(decode, s, es[..|es| - 1]), es[|es| - 1])
  }

  /** A page load: signed out, with whatever token an earlier page left in the storage. */
  predicate Loaded(s: Admin) {
    s.state == Outside(None, None) && s.timers.pending == map[] && s.expiryTimer.None? && s.requests == map[] && (s.storage.Some? ==> s.available)
  }

  // ----- Safety -----

  /**
   * The pending timers are exactly the one the store remembers, or none; it was armed by the
   * latest session and is not overdue.
   */
  ghost predicate OneTimer(s: Admin) {
    && s.timers.pending.Keys == (if s.expiryTimer.Some? then {s.expiryTimer.value} else {})
    && (s.expiryTimer.Some? ==>
          && s.expiryTimer.value < s.timers.nextHandle
          && var t := s.timers.pending[s.expiryTimer.value];
             t.session == s.sessions && t.armedAt <= s.now <= t.due)
  }

  ghost predicate Safe(decode: Decoder, s: Admin) {
    && (s.storage.Some? ==> s.available)
    && OneTimer(s)
    && (s.state.Authenticated? ==>
          && s.storage == (if s.available then Some(s.state.token) else None)
          && decode(s.state.token).Some?
          && var claims := decode(s.state.token).value;
             && IsAdmin(claims) && s.state.user.id == claims.sub && claims.role == Some(s.state.user.role)
             && (claims.exp.None? <==> s.expiryTimer.None?)
             && (claims.exp.Some? ==>
                   var t := s.timers.pending[s.expiryTimer.value];
                   t.due == t.armedAt + Min(claims.exp.value * 1000 - t.armedAt, MAX_TIMER_MS)))
  }

  lemma StartSessionSafe(decode: Decoder, s: Admin, token: string, profile: Profile)
    requires Safe(decode, s) && Judge(decode, token, s.now).Started?
    ensures Safe(decode, StartSession(decode, s, token, profile))
  {
  }

  lemma CompleteSafe(decode: Decoder, s: Admin, result: ApiResult)
    requires Safe(decode, s)
    ensures Safe(decode, Complete(decode, s, result))
  {
    if result.SignedIn? && Judge(decode, result.accessToken, s.now).Started? {
      StartSessionSafe(decode, s, result.accessToken, result.profile);
    }
  }

  lemma StepSafe(decode: Decoder, s: Admin, e: Event)
    requires Safe(decode, s)
    ensures Safe(decode, Step(decode, s, e))
  {
    match e {
      case Restore =>
        if s.storage.Some? && s.storage.value != "" && Judge(decode, s.storage.value, s.now).Started? {
          StartSessionSafe(decode, s, s.storage.value, NO_PROFILE);
        }
      case ReplySettles(id, reply) =>
        if id in s.requests && reply.Ok? {
          CompleteSafe(decode, s.(requests := s.requests - {id}), reply.value);
        }
      case _ =>
    }
  }

  /**
   * In every interleaving of actions, replies and timers: a signed-in state has the stored
   * token of an admin whose id it shows; the pending timers are the one the store remembers or
   * none; and while signed in there is one if and only if the token expires.
   */
  lemma {:induction false} EveryInterleaving(decode: Decoder, s: Admin, es: seq<Event>)
    requires Loaded(s)
    ensures Safe(decode, Run(decode, s, es))
    decreases |es|
  {
    if es != [] {
      EveryInterleaving(decode, s, es[..|es| - 1]);
      StepSafe(decode, Run(decode, s, es[..|es| - 1]), es[|es| - 1]);
    }
  }

  /** When the signed-in token expires, in seconds; None when signed out or for a token without an expiry. */
  function ExpiryOf(decode: Decoder, state: AuthState): Option<int> {
    if state.Authenticated? && decode(state.token).Some? then decode(state.token).value.exp else None
  }

  /** Nobody is signed in past the expiry of their token, and no timer is set beyond what browsers allow. */
  lemma NoExpiredSession(decode: Decoder, s: Admin, es: seq<Event>)
    requires Loaded(s)
    ensures var r := Run(decode, s, es);
            ExpiryOf(decode, r.state).Some? ==>
              && r.expiryTimer.Some? && r.expiryTimer.value in r.timers.pending
              && var t := r.timers.pending[r.expiryTimer.value];
                 r.now <= t.due <= ExpiryOf(decode, r.state).value * 1000 && t.due - t.armedAt <= MAX_TIMER_MS
  {
    EveryInterleaving(decode, s, es);
  }

  /** Exactly the events that leave a signed-in session as it is. */
  predicate Harmless(s: Admin, e: Event) {
    match e
    case Pass(_) => true
    case VerifyTwoFactor => true
    case Restore => s.storage.None? || s.storage.value == ""
    case ReplySettles(id, _) => id !in s.requests
    case TimerFires(handle) => !Due(s, handle)
    case _ => false
  }

  /**
   * A session ends or is replaced only by a log-out, a rejected request, a new login, a
   * restore, an API reply, or a timer; and whatever timer fires is the one that session armed.
   */
  lemma SessionEndsIff(decode: Decoder, s: Admin, es: seq<Event>, e: Event)
    requires Loaded(s) && Run(decode, s, es).state.Authenticated?
    ensures var r, r' := Run(decode, s, es), Step(decode, Run(decode, s, es), e);
            && (r'.state == r.state && r'.sessions == r.sessions && r'.timers == r.timers <==> Harmless(r, e))
            && (e.TimerFires? && Due(r, e.handle) ==>
                  r.expiryTimer == Some(e.handle) && r.timers.pending[e.handle].session == r.sessions)
  {
    EveryInterleaving(decode, s, es);
    StepChangesUnlessHarmless(decode, Run(decode, s, es), e);
  }

  lemma StepChangesUnlessHarmless(decode: Decoder, s: Admin, e: Event)
    requires Safe(decode, s) && s.state.Authenticated?
    ensures var s' := Step(decode, s, e);
            s'.state == s.state && s'.sessions == s.sessions && s'.timers == s.timers <==> Harmless(s, e)
  {
  }

  /** A handle is given out once: a timer pending later under an old handle is the old timer. */
  ghost predicate Onward(t: Timers, t': Timers) {
    && t.nextHandle <= t'.nextHandle
    && forall h :: h in t'.pending && h < t.nextHandle ==> h in t.pending && t'.pending[h] == t.pending[h]
  }

  lemma CompleteOnward(decode: Decoder, s: Admin, result: ApiResult)
    ensures Onward(s.timers, Complete(decode, s, result).timers)
  {
  }

  lemma StepOnward(decode: Decoder, s: Admin, e: Event)
    ensures Onward(s.timers, Step(decode, s, e).timers)
  {
    if e.ReplySettles? && e.id in s.requests && e.reply.Ok? {
      CompleteOnward(decode, s.(requests := s.requests - {e.id}), e.reply.value);
    }
  }

  lemma {:induction false} RunOnward(decode: Decoder, s: Admin, before: seq<Event>, after: seq<Event>)
    ensures Onward(Run(decode, s, before).timers, Run(decode, s, before + after).timers)
    decreases |after|
  {
    if after == [] {
      assert before + after == before;
    } else {
      var shorter := before + after[..|after| - 1];
      assert (before + after)[..|before + after| - 1] == shorter;
      RunOnward(decode, s, before, after[..|after| - 1]);
      StepOnward(decode, Run(decode, s, shorter), after[|after| - 1]);
    }
  }

  /** The timer of one session never fires into a later one: once another session has started, it is gone for good. */
  lemma OldTimersAreGone(decode: Decoder, s: Admin, before: seq<Event>, after: seq<Event>, handle: nat)
    requires Loaded(s) && handle in Run(decode, s, before).timers.pending
    requires Run(decode, s, before + after).sessions > Run(decode, s, before).sessions
    ensures handle !in Run(decode, s, before + after).timers.pending
  {
    EveryInterleaving(decode, s, before);
    EveryInterleaving(decode, s, before + after);
    RunOnward(decode, s, before, after);
  }

  // ----- When a session ends by itself -----

  /**
   * A session with an expiry lasts exactly until its timer is due, which is at the expiry or as far
   * ahead as browsers allow: before, the timer does not fire and time passes freely; then time stands
   * still until it fires, and the session ends as expired with nothing stored or pending.
   */
  lemma SessionLastsUntilDue(decode: Decoder, s: Admin, es: seq<Event>, ms: nat)
    requires Loaded(s) && ExpiryOf(decode, Run(decode, s, es).state).Some?
    ensures var r := Run(decode, s, es);
            && r.expiryTimer.Some? && r.expiryTimer.value in r.timers.pending
            && var handle := r.expiryTimer.value;
               var t := r.timers.pending[handle];
               && t.due == Min(ExpiryOf(decode, r.state).value * 1000, t.armedAt + MAX_TIMER_MS)
               && Step(decode, r, Pass(ms)) == (if r.now + ms <= t.due then r.(now := r.now + ms) else r)
               && Step(decode, r, TimerFires(handle))
                  == (if r.now == t.due then
                        r.(state := SignedOut(None, Some(SessionExpired), false), storage := None, timers := Timers(map[], r.timers.nextHandle), expiryTimer := None)
                      else r)
  {
    EveryInterleaving(decode, s, es);
    var r := Run(decode, s, es);
    assert r.timers.pending.Keys == {r.expiryTimer.value};
    assert r.expiryTimer.value in r.timers.pending;
    assert r.timers.pending - {r.expiryTimer.value} == map[];
  }

  /** A session whose token has no expiry has no timer: time passes freely. */
  lemma SessionWithoutExpiryLasts(decode: Decoder, s: Admin, es: seq<Event>, ms: nat)
    requires Loaded(s) && Run(decode, s, es).state.Authenticated? && ExpiryOf(decode, Run(decode, s, es).state).None?
    ensures var r := Run(decode, s, es);
            r.timers.pending == map[] && Step(decode, r, Pass(ms)) == r.(now := r.now + ms)
  {
    EveryInterleaving(decode, s, es);
    assert Run(decode, s, es).timers.pending.Keys == {};
  }

  // ----- What the console shows and sends -----

  ghost predicate Numbered(s: Admin) {
    forall id :: id in s.requests ==> id < s.nextId
  }

  lemma StepNumbered(decode: Decoder, s: Admin, e: Event)
    requires Numbered(s)
    ensures Numbered(Step(decode, s, e))
  {
    if e.ReplySettles? && e.id in s.requests && e.reply.Ok? {
      CompleteSendsNothing(decode, s.(requests := s.requests - {e.id}), e.reply.value);
    }
  }

  lemma CompleteSendsNothing(decode: Decoder, s: Admin, result: ApiResult)
    ensures Complete(decode, s, result).requests == s.requests && Complete(decode, s, result).nextId == s.nextId
  {
  }

  lemma {:induction false} RequestsNumbered(decode: Decoder, s: Admin, es: seq<Event>)
    requires Loaded(s)
    ensures Numbered(Run(decode, s, es))
    decreases |es|
  {
    if es != [] {
      RequestsNumbered(decode, s, es[..|es| - 1]);
      StepNumbered(decode, Run(decode, s, es[..|es| - 1]), es[|es| - 1]);
    }
  }

  /** A login, and a code while one is asked for, show that they are pending and send a request of their own; those already pending stay. */
  lemma SendsItsOwnRequest(decode: Decoder, s: Admin, es: seq<Event>)
    requires Loaded(s)
    ensures var r := Run(decode, s, es);
            var login, code := Step(decode, r, Login), Step(decode, r, VerifyTwoFactor);
            && r.nextId !in r.requests
            && login.state == SignedOut(None, None, true) && login.requests == r.requests[r.nextId := LoginRequest]
            && (if r.state.TwoFactor? then
                  && code.state == TwoFactor(r.state.tempToken, None, true)
                  && code.requests == r.requests[r.nextId := VerifyRequest(r.state.tempToken)]
                else code == r)
  {
    RequestsNumbered(decode, s, es);
  }

  /** A log-out and a rejected request end the session, with the notice that says why; a rejected request of nobody signed in does nothing. */
  lemma EndsWithNotice(decode: Decoder, s: Admin, notice: Option<Notice>)
    ensures var out, rejected := Step(decode, s, Logout(notice)), Step(decode, s, HandleUnauthorized);
            && out.state == SignedOut(None, notice, false) && out.storage.None? && out.expiryTimer.None?
            && (if s.state.Authenticated? then
                  rejected.state == SignedOut(None, Some(SessionExpired), false) && rejected.storage.None? && rejected.expiryTimer.None?
                else rejected == s)
  {
  }

  // ----- Who is let in -----

  /** The user of a session: the token's subject, with names from its claims or, failing that, from the profile. */
  function UserOf(claims: Claims, profile: Profile): AdminUser {
    AdminUser(claims.sub, if claims.email.Some? then claims.email else profile.email,
              if claims.username.Some? then claims.username else profile.username, "ADMIN")
  }

  /**
   * A pending reply with a token signs in exactly when the token's claims let its owner in, with that
   * token and that user; otherwise the session ends, with `not_admin` for another role and `unknown`
   * for a token that cannot be read or has expired.
   */
  lemma ReplyLetsInIff(decode: Decoder, s: Admin, id: nat, token: string, profile: Profile)
    requires id in s.requests
    ensures var s' := Step(decode, s, ReplySettles(id, Ok(SignedIn(token, profile))));
            var claims := decode(token);
            if LetsIn(claims, s.now) then
              && s'.state == Authenticated(UserOf(claims.value, profile), token)
              && s'.sessions == s.sessions + 1 && s'.storage == (if s.available then Some(token) else None)
            else
              && s'.state == SignedOut(Some(if claims.Some? && claims.value.role != Some("ADMIN") then "not_admin" else "unknown"), None, false)
              && s'.sessions == s.sessions && s'.storage.None?
  {
  }

  /**
   * A stored token is restored exactly when its claims let its owner in; otherwise it is dropped, with
   * a notice only for an admin's token that has expired. Without one nothing changes.
   */
  lemma RestoreLetsInIff(decode: Decoder, s: Admin)
    ensures var s' := Step(decode, s, Restore);
            if s.storage.None? || s.storage.value == "" then s' == s
            else
              var token, claims := s.storage.value, decode(s.storage.value);
              if LetsIn(claims, s.now) then
                s'.state == Authenticated(UserOf(claims.value, Profile(None, None)), token) && s'.sessions == s.sessions + 1
              else
                && s'.state == SignedOut(None, if claims.Some? && claims.value.role == Some("ADMIN") then Some(SessionExpired) else None, false)
                && s'.sessions == s.sessions && s'.storage.None?
  {
  }

  /** Every other reply: a request for a code, or an error, which a login answers by ending the session and a code by asking again. */
  lemma OtherRepliesDecide(decode: Decoder, s: Admin, id: nat, tempToken: string, error: string)
    requires id in s.requests
    ensures Step(decode, s, ReplySettles(id, Ok(NeedsTwoFactor(tempToken)))).state == TwoFactor(tempToken, None, false)
    ensures Step(decode, s, ReplySettles(id, Err(error))).state
         == match s.requests[id]
            case LoginRequest => SignedOut(Some(error), None, false)
            case VerifyRequest(used) => TwoFactor(used, Some(error), false)
  {
  }

  /** From any page load a login whose reply brings an admin's token ends signed in with it, and any other token does not. */
  lemma {:induction false} LoginLetsInIff(decode: Decoder, s: Admin, es: seq<Event>, token: string, profile: Profile)
    requires Loaded(s)
    ensures var r := Run(decode, s, es);
            var r' := Run(decode, s, es + [Login, ReplySettles(r.nextId, Ok(SignedIn(token, profile)))]);
            r'.state.Authenticated? && r'.state.token == token <==> LetsIn(decode(token), r.now)
  {
    var r := Run(decode, s, es);
    var reply := ReplySettles(r.nextId, Ok(SignedIn(token, profile)));
    assert (es + [Login, reply])[..|es| + 1] == es + [Login];
    assert (es + [Login])[..|es|] == es;
    ReplyLetsInIff(decode, Step(decode, r, Login), r.nextId, token, profile);
  }

  // ----- Replies that come late -----

  /** The reply brings a token that lets its owner in. */
  predicate BringsSession(decode: Decoder, now: int, reply: Result<ApiResult, string>) {
    reply.Ok? && reply.value.SignedIn? && LetsIn(decode(reply.value.accessToken), now)
  }

  /** A log-out cancels no request: a login or code sent before it signs in again exactly if its reply brings a session. */
  lemma LateReplySignsInIff(decode: Decoder, s: Admin, notice: Option<Notice>, id: nat, reply: Result<ApiResult, string>)
    ensures Step(decode, Step(decode, s, Logout(notice)), ReplySettles(id, reply)).state.Authenticated?
       <==> id in s.requests && BringsSession(decode, s.now, reply)
  {
  }

  /** A token is stored or a timer pending. */
  predicate HoldsSession(s: Admin) {
    s.storage.Some? || s.timers.pending != map[]
  }

  /** They are there although nobody is signed in. */
  predicate LeftBehind(s: Admin) {
    !s.state.Authenticated? && HoldsSession(s)
  }

  /** A new login, a reply that asks for a code, and a rejected code replace a signed-in state without ending its session. */
  predicate LeavesSessionBehind(s: Admin, e: Event) {
    s.state.Authenticated? && HoldsSession(s) &&
    match e
    case Login => true
    case ReplySettles(id, reply) =>
      id in s.requests && (if reply.Ok? then reply.value.NeedsTwoFactor? else s.requests[id].VerifyRequest?)
    case _ => false
  }

  lemma LeftBehindIff(decode: Decoder, s: Admin, e: Event)
    requires Safe(decode, s) && !LeftBehind(s)
    ensures LeftBehind(Step(decode, s, e)) <==> LeavesSessionBehind(s, e)
  {
    if e.ReplySettles? && e.id in s.requests && e.reply.Ok? {
      CompletedReply(decode, s.(requests := s.requests - {e.id}), e.reply.value);
    }
  }

  lemma CompletedReply(decode: Decoder, s: Admin, result: ApiResult)
    requires Safe(decode, s)
    ensures LeftBehind(Complete(decode, s, result)) <==> result.NeedsTwoFactor? && HoldsSession(s)
  {
  }
}
