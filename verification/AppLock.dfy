/**
 * The app lock: unlock attempts, their lockout, and everything that resets them
 * (nftopia-mobile-app/stores/authStore.ts). Times are in ms.
 */
module AppLock {
  import opened Common

  const MAX_UNLOCK_ATTEMPTS := 5
  const LOCKOUT_DURATION_MS := 30000

  datatype Lock = Lock(enabled: bool, isLocked: bool, attempts: int, lockoutUntil: Option<int>)

  predicate InLockout(l: Lock, now: int) {
    l.lockoutUntil.Some? && l.lockoutUntil.value != 0 && now < l.lockoutUntil.value
  }

  /** An absent PIN is the biometric path, and an empty one counts as absent. */
  predicate PinGiven(pin: Option<string>) {
    pin.Some? && pin.value != ""
  }

  class AppLockStore {
    var now: nat
    var appLockEnabled: bool
    var isLocked: bool
    var failedUnlockAttempts: int
    var lockoutUntil: Option<int>

    function View(): Lock
      reads this
    {
      Lock(appLockEnabled, isLocked, failedUnlockAttempts, lockoutUntil)
    }

    method UnlockApp(pin: Option<string>) returns (success: bool)
      modifies this`isLocked, this`failedUnlockAttempts, this`lockoutUntil
      ensures View() == Step(Clocked(now, old(View())), Unlock(pin)).lock
      ensures success <==> Opens(old(View()), now, pin)
    {
      var attempts := failedUnlockAttempts;
      if !appLockEnabled {
        isLocked := false;
        return true;
      }
      if lockoutUntil.Some? && lockoutUntil.value != 0 && now < lockoutUntil.value {
        return false;
      }
      if pin.Some? && pin.value != "" {
        attempts := attempts + 1;
        if attempts >= MAX_UNLOCK_ATTEMPTS {
          lockoutUntil := Some(now + LOCKOUT_DURATION_MS);
          failedUnlockAttempts := 0;
        } else {
          failedUnlockAttempts := attempts;
        }
        return false;
      }
      isLocked, failedUnlockAttempts, lockoutUntil := false, 0, None;
      success := true;
    }
  }

  /** The lock opens exactly when it is off, or outside a lockout without a PIN: a PIN never opens it. */
  predicate Opens(l: Lock, now: int, pin: Option<string>) {
    !l.enabled || (!InLockout(l, now) && !PinGiven(pin))
  }

  datatype Event =
    | Unlock(pin: Option<string>)
    | LockApp
    | SetEnabled(enabled: bool)
    | ResetAttempts
    | SignedInOrOut   // a completed login or logout
    | Restored        // the session was restored at start-up
    | Restart         // only whether the lock is enabled is persisted
    | Wait(ms: nat)

  datatype Clocked = Clocked(now: nat, lock: Lock)

  const START := Clocked(0, Lock(false, false, 0, None))

  /** The attempt is counted: the lock is on, not in a lockout, and a PIN was given. */
  predicate Counts(c: Clocked, e: Event) {
    e.Unlock? && c.lock.enabled && !InLockout(c.lock, c.now) && PinGiven(e.pin)
  }

  function Step(c: Clocked, e: Event): Clocked {
    var l := c.lock;
    match e
    case Unlock(pin) =>
      if Counts(c, e) then
        if l.attempts + 1 >= MAX_UNLOCK_ATTEMPTS then c.(lock := l.(attempts := 0, lockoutUntil := Some(c.now + LOCKOUT_DURATION_MS)))
        else c.(lock := l.(attempts := l.attempts + 1))
      else if !l.enabled then c.(lock := l.(isLocked := false))
      else if Opens(l, c.now, pin) then c.(lock := Lock(l.enabled, false, 0, None))
      else c
    case LockApp => c.(lock := l.(isLocked := true))
    case SetEnabled(enabled) => c.(lock := l.(enabled := enabled))
    case ResetAttempts => c.(lock := l.(attempts := 0, lockoutUntil := None))
    case SignedInOrOut => c.(lock := Lock(l.enabled, false, 0, None))
    case Restored => c.(lock := l.(isLocked := l.enabled))
    case Restart => c.(lock := Lock(l.enabled, false, 0, None))
    case Wait(ms) => c.(now := c.now + ms)
  }

  function Run(es: seq<Event>): Clocked {
    if es == [] then START else Step(Run(es[..|es| - 1]), es[|es| - 1])
  }

  /** A PIN attempt never opens an enabled lock, and during a lockout no attempt changes anything. */
  lemma EnabledLockHolds(c: Clocked, pin: Option<string>)
    requires c.lock.enabled
    ensures PinGiven(pin) ==> !Opens(c.lock, c.now, pin) && Step(c, Unlock(pin)).lock.isLocked == c.lock.isLocked
    ensures InLockout(c.lock, c.now) ==> !Opens(c.lock, c.now, pin) && Step(c, Unlock(pin)) == c
  {
  }

  lemma {:induction false} AttemptsInRange(es: seq<Event>)
    ensures 0 <= Run(es).lock.attempts < MAX_UNLOCK_ATTEMPTS
    decreases |es|
  {
    if es != [] {
      AttemptsInRange(es[..|es| - 1]);
    }
  }

  // ----- What the attempts so far mean -----

  /** The PINs tried since the last lockout began or was forgotten, and when that lockout began. */
  datatype Pins = Pins(count: nat, lockout: Option<nat>)

  /** A lockout began less than 30 s ago. */
  predicate Frozen(h: Pins, now: nat) {
    h.lockout.Some? && now < h.lockout.value + 30000
  }

  /** An attempt with no PIN or an empty one is the biometric path. */
  predicate Biometric(pin: Option<string>) {
    pin == None || pin == Some("")
  }

  /** Every fifth PIN begins a lockout; a reset, sign-in, sign-out, restart or biometric success forgets all. */
  function PinsAfter(h: Pins, enabled: bool, now: nat, e: Event): Pins {
    match e
    case Unlock(pin) =>
      if !enabled || Frozen(h, now) then h
      else if Biometric(pin) then Pins(0, None)
      else if h.count == 4 then Pins(0, Some(now))
      else Pins(h.count + 1, h.lockout)
    case ResetAttempts => Pins(0, None)
    case SignedInOrOut => Pins(0, None)
    case Restart => Pins(0, None)
    case _ => h
  }

  function PinsOf(es: seq<Event>): Pins {
    if es == [] then Pins(0, None)
    else
      var c := Run(es[..|es| - 1]);
      PinsAfter(PinsOf(es[..|es| - 1]), c.lock.enabled, c.now, es[|es| - 1])
  }

  /** In every run attempts and lockout are what the PINs so far tell: five within nothing forgotten lock out for 30 s. */
  lemma {:induction false} PinsExplained(es: seq<Event>)
    ensures var c, h := Run(es), PinsOf(es);
            && c.lock.attempts == h.count <= 4
            && c.lock.lockoutUntil == (if h.lockout.Some? then Some(h.lockout.value + 30000) else None)
            && (InLockout(c.lock, c.now) <==> Frozen(h, c.now))
    decreases |es|
  {
    if es != [] {
      PinsExplained(es[..|es| - 1]);
    }
  }

  /**
   * In every run an attempt opens the lock if and only if the lock is off, or no lockout is in force and
   * no PIN was given; the app is locked afterwards if it was and the attempt did not open it.
   */
  lemma OpensIff(es: seq<Event>, pin: Option<string>)
    ensures var c := Run(es);
            && (Opens(c.lock, c.now, pin) <==> !c.lock.enabled || (!Frozen(PinsOf(es), c.now) && Biometric(pin)))
            && (Step(c, Unlock(pin)).lock.isLocked <==> c.lock.isLocked && c.lock.enabled && (Frozen(PinsOf(es), c.now) || !Biometric(pin)))
  {
    PinsExplained(es);
  }

  /** Which other events lock and unlock: locking by hand, and restoring a session with the lock on; a sign-in, sign-out or restart unlocks. */
  lemma LockedAfter(c: Clocked, e: Event)
    requires !e.Unlock?
    ensures Step(c, e).lock.isLocked <==> match e
                                          case LockApp => true
                                          case Restored => c.lock.enabled
                                          case SignedInOrOut => false
                                          case Restart => false
                                          case _ => c.lock.isLocked
    ensures Step(c, e).lock.enabled == (if e.SetEnabled? then e.enabled else c.lock.enabled)
    ensures Step(c, e).now == (if e.Wait? then c.now + e.ms else c.now)
  {
  }

  function CountedTimes(es: seq<Event>): seq<nat> {
    if es == [] then []
    else
      var c := Run(es[..|es| - 1]);
      CountedTimes(es[..|es| - 1]) + (if Counts(c, es[|es| - 1]) then [c.now] else [])
  }

  /** An event after which earlier attempts no longer count: a reset, sign-in, sign-out, restart, or biometric success of an enabled lock. */
  predicate Forgets(c: Clocked, e: Event) {
    e.ResetAttempts? || e.SignedInOrOut? || e.Restart? || (e.Unlock? && c.lock.enabled && Opens(c.lock, c.now, e.pin))
  }

  function TimesForgotten(es: seq<Event>): nat {
    if es == [] then 0
    else TimesForgotten(es[..|es| - 1]) + (if Forgets(Run(es[..|es| - 1]), es[|es| - 1]) then 1 else 0)
  }

  /**
   * `batches` batches of attempts have begun, the last one at `start`. Each begins a lockout after
   * the one before, except for `late` of them, which each follow a forgetting.
   */
  ghost predicate Batched(c: Clocked, ts: seq<nat>, forgotten: nat, batches: nat, start: nat, late: nat) {
    if batches == 0 then ts == [] && c.lock.attempts == 0 && late == 0
    else
      && ts != [] && late <= forgotten
      && ts[0] + (batches - 1 - late) * LOCKOUT_DURATION_MS <= start && ts[0] <= start <= ts[|ts| - 1] <= c.now
      && (if c.lock.attempts > 0 then |ts| <= (batches - 1) * MAX_UNLOCK_ATTEMPTS + c.lock.attempts
          else
            && |ts| <= batches * MAX_UNLOCK_ATTEMPTS
            && (late < forgotten || (c.lock.lockoutUntil.Some? && c.lock.lockoutUntil.value >= start + LOCKOUT_DURATION_MS)))
  }

  lemma {:induction false} RunBatched(es: seq<Event>) returns (batches: nat, start: nat, late: nat)
    ensures Batched(Run(es), CountedTimes(es), TimesForgotten(es), batches, start, late)
    decreases |es|
  {
    if es == [] {
      batches, start, late := 0, 0, 0;
    } else {
      batches, start, late := RunBatched(es[..|es| - 1]);
      AttemptsInRange(es[..|es| - 1]);
      var c := Run(es[..|es| - 1]);
      if Counts(c, es[|es| - 1]) && c.lock.attempts == 0 {
        if batches > 0 && late < TimesForgotten(es[..|es| - 1]) {
          late := late + 1;
        }
        batches, start := batches + 1, c.now;
      }
    }
  }

  /**
   * In every run, at most five PIN attempts are counted for every 30 s and every forgetting:
   * 5 * (T div 30000 + 1 + forgettings) span T ms.
   */
  lemma PinRateBound(es: seq<Event>)
    ensures var ts := CountedTimes(es);
            ts != [] ==> ts[0] <= ts[|ts| - 1] && |ts| <= 5 * ((ts[|ts| - 1] - ts[0]) / 30000 + 1 + TimesForgotten(es))
  {
    var batches, start, late := RunBatched(es);
    AttemptsInRange(es);
    var ts := CountedTimes(es);
    if ts != [] {
      var attempts := Run(es).lock.attempts;
      BatchArithmetic(5, 30000, |ts|, 0, batches, if attempts > 0 then attempts else 5, late, ts[|ts| - 1] - ts[0]);
    }
  }

  // ----- What a restart forgets -----

  /** Enabled, and then `n` times a wrong PIN and a restart, at one instant. */
  function PinsAndRestarts(n: nat): seq<Event> {
    if n == 0 then [SetEnabled(true)] else PinsAndRestarts(n - 1) + [Unlock(Some("0")), Restart]
  }

  /** Attempts and lockout are not persisted, so with a restart after each any number of PIN attempts is counted at one instant. */
  lemma {:induction false} RestartForgets(n: nat)
    ensures CountedTimes(PinsAndRestarts(n)) == seq(n, _ => 0)
    ensures Run(PinsAndRestarts(n)) == Clocked(0, Lock(true, false, 0, None)) && TimesForgotten(PinsAndRestarts(n)) == n
    decreases n
  {
    if n == 0 {
      assert PinsAndRestarts(0)[..0] == [];
    } else {
      RestartForgets(n - 1);
      var before := PinsAndRestarts(n - 1);
      var pin := before + [Unlock(Some("0"))];
      assert PinsAndRestarts(n)[..|PinsAndRestarts(n)| - 1] == pin && pin[..|pin| - 1] == before;
      assert CountedTimes(pin) == CountedTimes(before) + [0];
    }
  }
}
