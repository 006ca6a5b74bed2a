/**
 * The lockout service: settings, the per-account and per-address subjects, and what whole
 * sequences of sign-ins can do when each has ended before the next begins
 * (nftopia-backend/src/auth/login-lockout.service.ts).
 */
module LoginLockout {
  import opened Common
  import opened LoginAttempts
  import opened LoginRuns
  import LoginLocks

  // ----- Policy from settings -----

  /** An environment value: missing or empty, not an integer, or an integer. */
  datatype Setting = Unset | NotInteger | Integer(n: int)

  datatype Settings = Settings(maxAttempts: Setting, window: Setting, base: Setting, max: Setting,
                               levelReset: Setting, ipMaxAttempts: Setting, alertLevel: Setting)

  datatype LockoutPolicy = LockoutPolicy(account: FailurePolicy, ip: Option<FailurePolicy>, alertLevel: int)

  function Read(s: Setting, default: int, allowZero: bool := false): int {
    if s.Integer? && (s.n > 0 || (allowZero && s.n == 0)) then s.n else default
  }

  /** A positive integer setting is used as it is; anything else gives the default. */
  predicate Gives(s: Setting, default: int, value: int) {
    match s
    case Integer(n) => if n >= 1 then value == n else value == default
    case _ => value == default
  }

  function PolicyFrom(s: Settings): (p: LockoutPolicy)
    ensures Gives(s.maxAttempts, 5, p.account.maxAttempts)
    ensures Gives(s.window, 900, p.account.windowSeconds)
    ensures Gives(s.base, 60, p.account.baseLockSeconds)
    ensures p.account.maxLockSeconds == Max(p.account.baseLockSeconds, if s.max.Integer? && s.max.n >= 1 then s.max.n else 3600)
    ensures Gives(s.levelReset, 86400, p.account.levelTtlSeconds)
    ensures p.ip.Some? <==> s.ipMaxAttempts.Integer? && s.ipMaxAttempts.n >= 1
    ensures p.ip.Some? ==> p.ip.value == p.account.(maxAttempts := s.ipMaxAttempts.n)
    ensures Gives(s.alertLevel, 3, p.alertLevel)
  {
    var base := Read(s.base, 60);
    var shared := FailurePolicy(Read(s.maxAttempts, 5), Read(s.window, 900), base,
                                Max(base, Read(s.max, 3600)), Read(s.levelReset, 86400));
    var ipMaxAttempts := Read(s.ipMaxAttempts, 0, true);
    LockoutPolicy(shared, if ipMaxAttempts > 0 then Some(shared.(maxAttempts := ipMaxAttempts)) else None, Read(s.alertLevel, 3))
  }

  /** With nothing set: five failures in fifteen minutes lock for a minute at first, for an hour at most. */
  lemma DefaultPolicy()
    ensures PolicyFrom(Settings(Unset, Unset, Unset, Unset, Unset, Unset, Unset))
         == LockoutPolicy(FailurePolicy(maxAttempts := 5, windowSeconds := 900, baseLockSeconds := 60,
                                        maxLockSeconds := 3600, levelTtlSeconds := 86400), None, 3)
  {
  }

  ghost predicate Usable(p: LockoutPolicy) {
    Accepted(p.account) && (p.ip.Some? ==> Accepted(p.ip.value))
  }

  /**
   * Whatever the settings, the store accepts the policy, the first lock is not above the
   * cap, and the address counter is on exactly for a positive setting. Failures never shorten a
   * lock of an account exactly when the first lock is at the cap, nor one of a subject that is
   * never reset exactly when the level lifetime covers the cap less the first lock.
   */
  lemma EverySettingIsUsable(s: Settings)
    ensures var p := PolicyFrom(s);
            && Usable(p)
            && p.account.baseLockSeconds <= p.account.maxLockSeconds
            && p.alertLevel > 0
            && (p.ip.Some? <==> s.ipMaxAttempts.Integer? && s.ipMaxAttempts.n > 0)
            && (p.ip.Some? ==> p.ip.value.(maxAttempts := p.account.maxAttempts) == p.account)
            && (LoginLocks.LocksNeverShorten(p.account) <==> p.account.baseLockSeconds == p.account.maxLockSeconds)
            && (LoginLocks.LocksOnlyExtend(p.account)
                <==> p.account.baseLockSeconds + p.account.levelTtlSeconds >= p.account.maxLockSeconds)
  {
    LoginLocks.LocksOnlyExtendIff(PolicyFrom(s).account);
    LoginLocks.LocksNeverShortenIff(PolicyFrom(s).account);
  }

  // ----- Subjects -----

  datatype Who = Account(ref: string) | Source(ip: string)

  function SubjectName(w: Who): string {
    match w
    case Account(ref) => "acct:" + ref
    case Source(ip) => "ip:" + ip
  }

  lemma SubjectNamesDistinct(v: Who, w: Who)
    requires SubjectName(v) == SubjectName(w)
    ensures v == w
  {
    var name, name' := SubjectName(v), SubjectName(w);
    assert name[0] == name'[0];
    if v.Account? {
      assert name[5..] == v.ref && name'[5..] == w.ref;
    } else {
      assert name[3..] == v.ip && name'[3..] == w.ip;
    }
  }

  /** The address counter applies: an address is known and the policy has one. */
  predicate Counted(p: LockoutPolicy, ip: Option<string>) {
    ip.Some? && ip.value != "" && p.ip.Some?
  }

  function Checked(p: LockoutPolicy, ref: string, ip: Option<string>): (who: seq<Who>)
    ensures forall w :: w in who <==> w == Account(ref) || (w.Source? && Some(w.ip) == ip && w.ip != "" && p.ip.Some?)
  {
    [Account(ref)] + (if Counted(p, ip) then [Source(ip.value)] else [])
  }

  function PolicyFor(p: LockoutPolicy, w: Who): (policy: FailurePolicy)
    ensures w.Account? ==> policy == p.account
    ensures w.Source? && p.ip.Some? ==> policy == p.ip.value
  {
    if w.Source? && p.ip.Some? then p.ip.value else p.account
  }

  class LoginLockoutService {
    const store: RedisLoginAttemptStore
    const policy: LockoutPolicy
    const accountRef: string -> string

    constructor (store: RedisLoginAttemptStore, policy: LockoutPolicy, accountRef: string -> string)
      ensures this.store == store && this.policy == policy && this.accountRef == accountRef
    {
      this.store, this.policy, this.accountRef := store, policy, accountRef;
    }

    ghost predicate Valid()
      reads store.redis
    {
      store.Valid() && Usable(policy)
    }

    function View(w: Who): Subject
      reads store.redis
    {
      store.View(SubjectName(w))
    }

    /** Seconds to wait if the email or the address is locked; None lets the login proceed. */
    method AssertNotLocked(email: string, ip: Option<string>) returns (retryAfter: Option<int>)
      requires Valid()
      ensures var now := store.redis.now;
              var who := Checked(policy, accountRef(email), ip);
              && (retryAfter.Some? <==> exists w :: w in who && Remaining(View(w), now) > 0)
              && (retryAfter.Some? ==>
                    && (forall w :: w in who ==> Remaining(View(w), now) <= retryAfter.value)
                    && (exists w :: w in who && Remaining(View(w), now) == retryAfter.value))
    {
      var account := Account(accountRef(email));
      var subjects := [SubjectName(account)];
      if Counted(policy, ip) {
        subjects := subjects + [SubjectName(Source(ip.value))];
      }
      var remaining := store.LockedFor(subjects);
      ghost var who := Checked(policy, accountRef(email), ip);
      assert |who| == |subjects| && forall i :: 0 <= i < |who| ==> SubjectName(who[i]) == subjects[i];
      forall w | w in who
        ensures Remaining(View(w), store.redis.now) <= remaining
      {
        assert SubjectName(w) in subjects;
      }
      if remaining > 0 {
        ghost var name :| name in subjects && Remaining(store.View(name), store.redis.now) == remaining;
        ghost var i :| 0 <= i < |subjects| && subjects[i] == name;
        assert who[i] in who;
        return Some(remaining);
      }
      retryAfter := None;
    }

    /** One failed sign-in counts against the account and, when counted, against the address; nobody else's keys change. */
    method RegisterFailure(email: string, ip: Option<string>)
      requires Valid()
      modifies store.redis`db
      ensures Valid()
      ensures forall w :: ValueOf(old(View(w)).level) >= 0
      ensures forall w :: View(w) == (if w in Checked(policy, accountRef(email), ip)
                                      then Fail(PolicyFor(policy, w), old(View(w)), store.redis.now).0 else old(View(w)))
    {
      forall v, w | SubjectName(v) == SubjectName(w) ensures v == w {
        SubjectNamesDistinct(v, w);
      }
      var _ := store.RecordFailure(SubjectName(Account(accountRef(email))), policy.account);
      if Counted(policy, ip) {
        var _ := store.RecordFailure(SubjectName(Source(ip.value)), policy.ip.value);
      }
    }

    method RegisterSuccess(email: string)
      requires Valid()
      modifies store.redis`db
      ensures Valid()
      ensures forall w :: View(w) == (if w == Account(accountRef(email)) then Forget(old(View(w))) else old(View(w)))
    {
      forall v, w | SubjectName(v) == SubjectName(w) ensures v == w {
        SubjectNamesDistinct(v, w);
      }
      store.Reset(SubjectName(Account(accountRef(email))));
    }
  }

  // ----- Sequences of sign-ins by anybody from anywhere, one after another -----

  datatype SignIn =
    | Try(ref: string, ip: Option<string>, good: bool)
    | Pass(seconds: nat)

  /** The events one subject sees: a refused sign-in is invisible to the counters. */
  function Seen(p: LockoutPolicy, es: seq<SignIn>, w: Who): seq<Event>
    requires Usable(p)
    decreases |es|, 0
  {
    if es == [] then []
    else
      var before := Seen(p, es[..|es| - 1], w);
      match es[|es| - 1]
      case Pass(d) => before + [Tick(d)]
      case Try(ref, ip, good) =>
        if Refused(p, es[..|es| - 1], ref, ip) then before
        else if good then (if w == Account(ref) then before + [Reset] else before)
        else if w in Checked(p, ref, ip) then before + [Failure] else before
  }

  predicate Refused(p: LockoutPolicy, es: seq<SignIn>, ref: string, ip: Option<string>)
    requires Usable(p)
    decreases |es|, 1
  {
    exists w :: w in Checked(p, ref, ip) && Run(PolicyFor(p, w), START, Seen(p, es, w)).s.lock.Live?
  }

  /** The subject has a lock in force after these events. */
  predicate LockedOut(p: LockoutPolicy, es: seq<SignIn>, w: Who)
    requires Usable(p)
  {
    Run(PolicyFor(p, w), START, Seen(p, es, w)).s.lock.Live?
  }

  /** A sign-in meets a lock of its account, or of its address if that counts. */
  predicate MeetsLock(p: LockoutPolicy, es: seq<SignIn>, ref: string, ip: Option<string>)
    requires Usable(p)
  {
    LockedOut(p, es, Account(ref)) || (ip.Some? && ip.value != "" && p.ip.Some? && LockedOut(p, es, Source(ip.value)))
  }

  lemma RefusedIff(p: LockoutPolicy, es: seq<SignIn>, ref: string, ip: Option<string>)
    requires Usable(p)
    ensures Refused(p, es, ref, ip) <==> MeetsLock(p, es, ref, ip)
  {
    assert Account(ref) in Checked(p, ref, ip);
    assert ip.Some? && ip.value != "" && p.ip.Some? ==> Source(ip.value) in Checked(p, ref, ip);
  }

  /** What one more event is for a subject: a good sign-in concerns its own account only, a bad one also its address if that counts. */
  function Meant(p: LockoutPolicy, es: seq<SignIn>, e: SignIn, w: Who): seq<Event>
    requires Usable(p)
  {
    match e
    case Pass(d) => [Tick(d)]
    case Try(ref, ip, good) =>
      if MeetsLock(p, es, ref, ip) then []
      else if w == Account(ref) then [if good then Reset else Failure]
      else if !good && w.Source? && ip == Some(w.ip) && w.ip != "" && p.ip.Some? then [Failure]
      else []
  }

  lemma SeenNext(p: LockoutPolicy, es: seq<SignIn>, e: SignIn, w: Who)
    requires Usable(p)
    ensures Seen(p, es + [e], w) == Seen(p, es, w) + Meant(p, es, e, w)
  {
    assert (es + [e])[..|es|] == es;
    if e.Try? {
      RefusedIff(p, es, e.ref, e.ip);
    }
  }

  lemma CountedWhenUnlocked(p: LockoutPolicy, es: seq<SignIn>, w: Who)
    requires Usable(p) && es != []
    requires Seen(p, es, w) == Seen(p, es[..|es| - 1], w) + [Failure]
    ensures Run(PolicyFor(p, w), START, Seen(p, es[..|es| - 1], w)).s.lock.Gone?
  {
    assert Last(Seen(p, es, w)) == Failure;
    var e := es[|es| - 1];
    assert e.Try? && !Refused(p, es[..|es| - 1], e.ref, e.ip);
  }

  /** When sign-ins do not overlap, one that reaches the password check is never counted under a lock of a subject it checks. */
  lemma {:induction false} NeverLate(p: LockoutPolicy, es: seq<SignIn>, w: Who)
    requires Usable(p)
    ensures Late(PolicyFor(p, w), START, Seen(p, es, w)) == 0
    decreases |es|
  {
    if es != [] {
      var before := Seen(p, es[..|es| - 1], w);
      NeverLate(p, es[..|es| - 1], w);
      var after := Seen(p, es, w);
      if after != before {
        var e := Last(after);
        assert after == before + [e];
        RunPlusOne(PolicyFor(p, w), START, before, e);
        if e.Failure? {
          CountedWhenUnlocked(p, es, w);
        }
      }
    }
  }

  /** Only a good sign-in to the account itself resets a subject; an address is never reset. */
  lemma {:induction false} ResetOnlyByOwner(p: LockoutPolicy, es: seq<SignIn>, w: Who)
    requires Usable(p)
    requires forall e :: e in es ==> e.Try? && e.good ==> w != Account(e.ref)
    ensures NoReset(Seen(p, es, w))
    decreases |es|
  {
    if es != [] {
      assert es[|es| - 1] in es;
      ResetOnlyByOwner(p, es[..|es| - 1], w);
    }
  }

  /**
   * The failure-rate bound of the whole service for sign-ins that do not overlap (`LoginOverlap`
   * has those that do). However many addresses and other accounts take part, without a good
   * sign-in to it an account (or an address, always) records at most
   * `maxAttempts * (T div Gap + 1)` failures within `T` seconds of its first.
   */
  lemma ServiceRateBound(p: LockoutPolicy, es: seq<SignIn>, w: Who, T: nat, k: nat)
    requires Usable(p)
    requires forall e :: e in es ==> e.Try? && e.good ==> w != Account(e.ref)
    requires k < Failures(Seen(p, es, w))
    requires var ts := FailureTimes(PolicyFor(p, w), START, Seen(p, es, w)); ts[k] - ts[0] <= T
    ensures k + 1 <= PolicyFor(p, w).maxAttempts * (T / Gap(PolicyFor(p, w)) + 1)
  {
    NeverLate(p, es, w);
    ResetOnlyByOwner(p, es, w);
    FailureRateBound(PolicyFor(p, w), Seen(p, es, w), T, k);
  }
}
