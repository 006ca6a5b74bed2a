/** Escalation, overlapping attempts, and when a lock's end can move. */
module LoginLocks {
  import opened Common
  import opened LoginAttempts
  import opened LoginRuns

  // ----- Escalation -----

  lemma LockSecondsMonotone(p: FailurePolicy, j: nat, k: nat)
    requires Accepted(p) && 1 <= j <= k
    ensures LockSeconds(p, j) <= LockSeconds(p, k)
  {
    Pow2Monotone(j - 1, k - 1);
    MulMonotone(p.baseLockSeconds, Pow2(j - 1), Pow2(k - 1));
  }

  /** Sum of the first `n` lock lengths. */
  function TotalLocked(p: FailurePolicy, n: nat): int {
    if n == 0 then 0 else TotalLocked(p, n - 1) + LockSeconds(p, n)
  }

  /** Locks double until the cap, stay there, and the uncapped ones add up to base * (2^n - 1). */
  lemma {:induction false} EscalationLaw(p: FailurePolicy, n: nat)
    requires Accepted(p) && n >= 1
    ensures p.baseLockSeconds * Pow2(n) <= p.maxLockSeconds ==> LockSeconds(p, n + 1) == 2 * LockSeconds(p, n)
    ensures LockSeconds(p, n) == p.maxLockSeconds ==> LockSeconds(p, n + 1) == p.maxLockSeconds
    ensures p.baseLockSeconds * Pow2(n - 1) <= p.maxLockSeconds ==> TotalLocked(p, n) == p.baseLockSeconds * (Pow2(n) - 1)
    decreases n
  {
    var b := p.baseLockSeconds;
    LockSecondsMonotone(p, n, n + 1);
    assert b * Pow2(n) == 2 * (b * Pow2(n - 1)) by {
      Doubling(b, Pow2(n - 1));
    }
    MulMonotone(b, 0, Pow2(n - 1));
    if n > 1 && b * Pow2(n - 1) <= p.maxLockSeconds {
      assert b * Pow2(n - 1) == 2 * (b * Pow2(n - 2)) by {
        Doubling(b, Pow2(n - 2));
      }
      MulMonotone(b, 0, Pow2(n - 2));
      EscalationLaw(p, n - 1);
      assert b * (Pow2(n) - 1) == b * Pow2(n) - b;
      assert b * (Pow2(n - 1) - 1) == b * Pow2(n - 1) - b;
    } else if n == 1 {
      assert TotalLocked(p, 1) == TotalLocked(p, 0) + LockSeconds(p, 1);
    }
  }

  lemma Doubling(b: int, x: int)
    ensures b * (2 * x) == 2 * (b * x)
  {
  }

  // ----- Attempts that overlap -----

  /** An attempt begins; it ends as a failure, as a success that resets the subject, or without either. */
  datatype AttemptEvent = Begin | Fails | Succeeds | Ends | Wait(seconds: nat)

  /** What happened to the subject so far, and how many admitted attempts have not settled. */
  datatype Attempts = Attempts(trace: seq<Event>, inFlight: nat)

  /**
   * An attempt is admitted only while the subject is unlocked and fewer than `width`
   * attempts are in flight; it may end at any later time.
   */
  function Drive(p: FailurePolicy, width: nat, es: seq<AttemptEvent>): (a: Attempts)
    requires Accepted(p)
    ensures Succeeds !in es ==> NoReset(a.trace)
    decreases |es|
  {
    if es == [] then Attempts([], 0) else DriveOne(p, width, Drive(p, width, es[..|es| - 1]), es[|es| - 1])
  }

  function DriveOne(p: FailurePolicy, width: nat, a: Attempts, e: AttemptEvent): (a': Attempts)
    requires Accepted(p)
    ensures NoReset(a.trace) && e != Succeeds ==> NoReset(a'.trace)
  {
    match e
    case Begin => if Run(p, START, a.trace).s.lock.Live? || a.inFlight >= width then a else a.(inFlight := a.inFlight + 1)
    case Wait(d) => a.(trace := a.trace + [Tick(d)])
    case _ =>
      if a.inFlight == 0 then a
      else Attempts(a.trace + (if e.Fails? then [Failure] else if e.Succeeds? then [Reset] else []), a.inFlight - 1)
  }

  /** `locks` stretches of uninterrupted locking have begun, the last one at `begun`, each letting in few late failures. */
  ghost predicate Stretches(p: FailurePolicy, width: nat, a: Attempts, locks: nat, begun: nat)
    requires Accepted(p)
  {
    Stretched(p, width, a.inFlight, Run(p, START, a.trace), FailureTimes(p, START, a.trace), Late(p, START, a.trace), locks, begun)
  }

  ghost predicate Stretched(p: FailurePolicy, width: nat, inFlight: nat, c: Clocked, ts: seq<nat>, late: nat, locks: nat, begun: nat)
    requires Accepted(p)
  {
    && inFlight <= width
    && late <= (width - 1) * locks - (if c.s.lock.Live? then inFlight else 0)
    && (if locks == 0 then c.s.lock.Gone?
        else
          && ts != [] && ts[0] + (locks - 1) * Gap(p) <= begun <= ts[|ts| - 1]
          && (if c.s.lock.Live? then c.s.lock.until >= begun + Gap(p) else c.now >= begun + Gap(p)))
  }

  lemma SettleStretched(p: FailurePolicy, width: nat, inFlight: nat, c: Clocked, ts: seq<nat>, late: nat, locks: nat, begun: nat)
    returns (locks': nat, begun': nat)
    requires Accepted(p) && Consistent(p, c.s, c.now) && inFlight > 0
    requires Stretched(p, width, inFlight, c, ts, late, locks, begun)
    requires forall i :: 0 <= i < |ts| ==> ts[i] <= c.now
    ensures Stretched(p, width, inFlight - 1, Step(p, c, Failure), ts + [c.now], late + (if c.s.lock.Live? then 1 else 0), locks', begun')
  {
    LockSecondsBounds(p, ValueOf(c.s.level) + 1);
    locks', begun' := locks, begun;
    if c.s.lock.Gone? && Step(p, c, Failure).s.lock.Live? {
      locks', begun' := locks + 1, c.now;
      assert (width - 1) * (locks + 1) == (width - 1) * locks + (width - 1);
      assert locks * Gap(p) == (locks - 1) * Gap(p) + Gap(p);
    }
  }

  lemma WaitStretched(p: FailurePolicy, width: nat, inFlight: nat, c: Clocked, d: nat, ts: seq<nat>, late: nat, locks: nat, begun: nat)
    requires Accepted(p) && Consistent(p, c.s, c.now)
    requires Stretched(p, width, inFlight, c, ts, late, locks, begun)
    ensures Stretched(p, width, inFlight, Step(p, c, Tick(d)), ts, late, locks, begun)
  {
  }

  lemma BeginStretched(p: FailurePolicy, width: nat, inFlight: nat, c: Clocked, ts: seq<nat>, late: nat, locks: nat, begun: nat)
    requires Accepted(p) && c.s.lock.Gone? && inFlight < width
    requires Stretched(p, width, inFlight, c, ts, late, locks, begun)
    ensures Stretched(p, width, inFlight + 1, c, ts, late, locks, begun)
  {
  }

  lemma EndStretched(p: FailurePolicy, width: nat, inFlight: nat, c: Clocked, ts: seq<nat>, late: nat, locks: nat, begun: nat)
    requires Accepted(p) && inFlight > 0
    requires Stretched(p, width, inFlight, c, ts, late, locks, begun)
    ensures Stretched(p, width, inFlight - 1, c, ts, late, locks, begun)
  {
  }

  lemma WaitStretches(p: FailurePolicy, width: nat, a: Attempts, d: nat, locks: nat, begun: nat)
    requires Accepted(p) && NoReset(a.trace) && Stretches(p, width, a, locks, begun)
    ensures Stretches(p, width, DriveOne(p, width, a, Wait(d)), locks, begun)
  {
    RunPlusOne(p, START, a.trace, Tick(d));
    WaitStretched(p, width, a.inFlight, Run(p, START, a.trace), d, FailureTimes(p, START, a.trace), Late(p, START, a.trace), locks, begun);
  }

  lemma FailsStretches(p: FailurePolicy, width: nat, a: Attempts, locks: nat, begun: nat) returns (locks': nat, begun': nat)
    requires Accepted(p) && NoReset(a.trace) && a.inFlight > 0 && Stretches(p, width, a, locks, begun)
    ensures Stretches(p, width, DriveOne(p, width, a, Fails), locks', begun')
  {
    RunPlusOne(p, START, a.trace, Failure);
    locks', begun' := SettleStretched(p, width, a.inFlight, Run(p, START, a.trace), FailureTimes(p, START, a.trace),
                                      Late(p, START, a.trace), locks, begun);
  }

  lemma OtherStretches(p: FailurePolicy, width: nat, a: Attempts, e: AttemptEvent, locks: nat, begun: nat)
    requires Accepted(p) && NoReset(a.trace) && (e.Begin? || e.Ends?) && Stretches(p, width, a, locks, begun)
    ensures Stretches(p, width, DriveOne(p, width, a, e), locks, begun)
  {
    var c, ts, late := Run(p, START, a.trace), FailureTimes(p, START, a.trace), Late(p, START, a.trace);
    assert a.trace + [] == a.trace;
    if e.Begin? && c.s.lock.Gone? && a.inFlight < width {
      BeginStretched(p, width, a.inFlight, c, ts, late, locks, begun);
    } else if e.Ends? && a.inFlight > 0 {
      EndStretched(p, width, a.inFlight, c, ts, late, locks, begun);
    }
  }

  lemma DriveOneStretches(p: FailurePolicy, width: nat, a: Attempts, e: AttemptEvent, locks: nat, begun: nat)
    returns (locks': nat, begun': nat)
    requires Accepted(p) && NoReset(a.trace) && e != Succeeds && Stretches(p, width, a, locks, begun)
    ensures Stretches(p, width, DriveOne(p, width, a, e), locks', begun')
  {
    locks', begun' := locks, begun;
    if e.Wait? {
      WaitStretches(p, width, a, e.seconds, locks, begun);
    } else if e.Begin? || e.Ends? {
      OtherStretches(p, width, a, e, locks, begun);
    } else if a.inFlight > 0 {
      locks', begun' := FailsStretches(p, width, a, locks, begun);
    }
  }

  lemma {:induction false} DriveStretches(p: FailurePolicy, width: nat, es: seq<AttemptEvent>) returns (locks: nat, begun: nat)
    requires Accepted(p) && Succeeds !in es
    ensures Stretches(p, width, Drive(p, width, es), locks, begun)
    decreases |es|
  {
    if es == [] {
      locks, begun := 0, 0;
    } else {
      locks, begun := DriveStretches(p, width, es[..|es| - 1]);
      locks, begun := DriveOneStretches(p, width, Drive(p, width, es[..|es| - 1]), es[|es| - 1], locks, begun);
    }
  }

  /**
   * Checking and recording are separate requests, so attempts admitted before a lock may
   * fail during it. With at most `width` attempts in flight at once and none that resets the
   * subject, failures are recorded at most `width` times as fast as when attempts do not overlap.
   */
  lemma OverlappingRateBound(p: FailurePolicy, width: nat, es: seq<AttemptEvent>)
    requires Accepted(p) && width >= 1 && Succeeds !in es
    ensures var ts := FailureTimes(p, START, Drive(p, width, es).trace);
            ts != [] ==> |ts| <= p.maxAttempts * (width * ((ts[|ts| - 1] - ts[0]) / Gap(p) + 1))
  {
    var a := Drive(p, width, es);
    var locks, begun := DriveStretches(p, width, es);
    var ts := FailureTimes(p, START, a.trace);
    if ts != [] {
      FailuresSpread(p, START, a.trace, 0);
      OverlapArithmetic(p.maxAttempts, Gap(p), width, |ts|, locks, Late(p, START, a.trace), ts[|ts| - 1] - ts[0]);
    }
  }

  lemma OverlapArithmetic(m: int, gap: int, width: int, n: int, locks: int, late: int, span: int)
    requires m > 0 && gap > 0 && width >= 1 && locks >= 0 && span >= 0
    requires locks > 0 ==> (locks - 1) * gap <= span
    requires late <= (width - 1) * locks
    requires n <= m * (span / gap + 1 + late)
    ensures n <= m * (width * (span / gap + 1))
  {
    var q := span / gap + 1;
    if locks > 0 {
      StepsFit(locks - 1, gap, span);
    }
    MulMonotone(width - 1, locks, q);
    assert q + (width - 1) * q == width * q;
    MulMonotone(m, q + late, width * q);
  }

  // ----- When a failure can move the end of a lock forward -----

  /** One more failure leaves the lock in force at least as long as it is. */
  predicate FailureExtends(p: FailurePolicy, c: Clocked)
    requires Accepted(p) && Consistent(p, c.s, c.now) && c.s.lock.Live?
  {
    Fail(p, c.s, c.now).0.lock.Live? && Fail(p, c.s, c.now).0.lock.until >= c.s.lock.until
  }

  /** For a subject that is never reset, no failure recorded under a lock makes the lock end sooner. */
  ghost predicate LocksOnlyExtend(p: FailurePolicy)
    requires Accepted(p)
  {
    forall es | NoReset(es) && Run(p, START, es).s.lock.Live? :: FailureExtends(p, Run(p, START, es))
  }

  /** The same for every subject: a reset can fall under a lock too. */
  ghost predicate LocksNeverShorten(p: FailurePolicy)
    requires Accepted(p)
  {
    forall es | Run(p, START, es).s.lock.Live? :: FailureExtends(p, Run(p, START, es))
  }

  /** The lock and the level were set together; the level may have lapsed since. */
  ghost predicate SetTogether(p: FailurePolicy, c: Clocked)
    requires Accepted(p) && Consistent(p, c.s, c.now)
  {
    c.s.lock.Live? ==>
      var setAt := c.s.lock.until - LockSeconds(p, c.s.lock.value);
      && setAt <= c.now
      && (if c.s.level.Live? then c.s.level == Live(c.s.lock.value, c.s.level.until)
          else c.now >= setAt + p.levelTtlSeconds)
      && (c.s.level.Live? ==> c.s.level.until == setAt + p.levelTtlSeconds)
  }

  lemma {:induction false} RunSetTogether(p: FailurePolicy, es: seq<Event>)
    requires Accepted(p) && NoReset(es)
    ensures SetTogether(p, Run(p, START, es))
    decreases |es|
  {
    if es != [] {
      assert Last(es) in es;
      RunSetTogether(p, Init(es));
    }
  }

  function Repeat(n: nat): (es: seq<Event>)
    ensures |es| == n && NoReset(es)
  {
    seq(n, _ => Failure)
  }

  /** `n` failures within one second, from nothing. */
  lemma {:induction false} Burst(p: FailurePolicy, n: nat)
    requires Accepted(p)
    ensures var c, k := Run(p, START, Repeat(n)), n / p.maxAttempts;
            && c.now == 0
            && ValueOf(c.s.failures) == n % p.maxAttempts
            && (if k == 0 then c.s.lock == Gone && c.s.level == Gone
                else k >= 1 && c.s.lock == Live(k, LockSeconds(p, k)) && c.s.level == Live(k, p.levelTtlSeconds))
    decreases n
  {
    if n > 0 {
      assert Init(Repeat(n)) == Repeat(n - 1) && Last(Repeat(n)) == Failure;
      Burst(p, n - 1);
      NextQuotient(n - 1, p.maxAttempts);
    }
  }

  /** Fewer failures than the threshold only count. */
  lemma {:induction false} ShortBurst(p: FailurePolicy, c: Clocked, n: nat)
    requires Accepted(p) && Consistent(p, c.s, c.now) && c.s.failures == Gone && n < p.maxAttempts
    ensures var c' := Run(p, c, Repeat(n));
            c'.now == c.now && c'.s.lock == c.s.lock && c'.s.level == c.s.level && ValueOf(c'.s.failures) == n
    decreases n
  {
    if n > 0 {
      assert Init(Repeat(n)) == Repeat(n - 1) && Last(Repeat(n)) == Failure;
      ShortBurst(p, c, n - 1);
    }
  }

  /** The longest lock is in force, but the level that led to it has just been forgotten. */
  lemma LevelLapsesFirst(p: FailurePolicy) returns (es: seq<Event>)
    requires Accepted(p) && p.levelTtlSeconds < p.maxLockSeconds
    ensures NoReset(es)
    ensures Run(p, START, es) == Clocked(p.levelTtlSeconds, Subject(Gone, Live(p.maxLockSeconds, p.maxLockSeconds), Gone))
  {
    var m, k := p.maxAttempts, p.maxLockSeconds;
    Burst(p, m * k);
    QuotientUnique(m * k, m, k, 0);
    LockReachesCap(p);
    RunPlusOne(p, START, Repeat(m * k), Tick(p.levelTtlSeconds));
    es := Repeat(m * k) + [Tick(p.levelTtlSeconds)];
  }

  /** With a level forgotten too early, a run in which a failure cuts the longest lock short. */
  lemma ShorteningRun(p: FailurePolicy) returns (es: seq<Event>)
    requires Accepted(p) && Min(p.baseLockSeconds, p.maxLockSeconds) + p.levelTtlSeconds < p.maxLockSeconds
    ensures NoReset(es)
    ensures var c := Run(p, START, es);
            c.s.lock.Live? && Fail(p, c.s, c.now).0.lock.until < c.s.lock.until
  {
    var up := LevelLapsesFirst(p);
    ShortBurst(p, Run(p, START, up), p.maxAttempts - 1);
    RunAppend(p, START, up, Repeat(p.maxAttempts - 1));
    es := up + Repeat(p.maxAttempts - 1);
    assert Pow2(0) == 1;
  }

  lemma LockReachesCap(p: FailurePolicy)
    requires Accepted(p)
    ensures LockSeconds(p, p.maxLockSeconds) == p.maxLockSeconds
  {
    var k := p.maxLockSeconds;
    assert Pow2(k - 1) >= k;
    MulMonotone(Pow2(k - 1), 1, p.baseLockSeconds);
  }

  /**
   * Without a reset, failures can only extend a lock in force exactly when the escalation level
   * outlives the longest lock by enough: its lifetime plus the first lock must cover the cap.
   */
  lemma LocksOnlyExtendIff(p: FailurePolicy)
    requires Accepted(p)
    ensures LocksOnlyExtend(p) <==> Min(p.baseLockSeconds, p.maxLockSeconds) + p.levelTtlSeconds >= p.maxLockSeconds
  {
    if Min(p.baseLockSeconds, p.maxLockSeconds) + p.levelTtlSeconds >= p.maxLockSeconds {
      forall es | NoReset(es) && Run(p, START, es).s.lock.Live?
        ensures FailureExtends(p, Run(p, START, es))
      {
        var c := Run(p, START, es);
        RunSetTogether(p, es);
        LockSecondsMonotone(p, c.s.lock.value, c.s.lock.value + 1);
        LockSecondsBounds(p, c.s.lock.value);
        assert Pow2(0) == 1;
      }
    } else {
      var es := ShorteningRun(p);
    }
  }

  // ----- Resets under a lock -----

  /** A lock ends at most the cap from now. */
  lemma {:induction false} LockWithinCap(p: FailurePolicy, es: seq<Event>)
    requires Accepted(p)
    ensures var c := Run(p, START, es); c.s.lock.Live? ==> c.s.lock.until <= c.now + p.maxLockSeconds
    decreases |es|
  {
    if es != [] {
      LockWithinCap(p, Init(es));
      LockSecondsBounds(p, ValueOf(Run(p, START, Init(es)).s.level) + 1);
    }
  }

  /** Two locks' worth of failures, a reset, and one failure short of another lock, all within one second. */
  function ResetUnderLock(p: FailurePolicy): seq<Event>
    requires Accepted(p)
  {
    Repeat(2 * p.maxAttempts) + [Reset] + Repeat(p.maxAttempts - 1)
  }

  lemma ResetForgetsLevel(p: FailurePolicy)
    requires Accepted(p)
    ensures var c := Run(p, START, ResetUnderLock(p));
            && c.now == 0 && c.s.lock == Live(2, LockSeconds(p, 2)) && c.s.level == Gone
            && ValueOf(c.s.failures) == p.maxAttempts - 1
  {
    var m := p.maxAttempts;
    Burst(p, 2 * m);
    QuotientUnique(2 * m, m, 2, 0);
    RunPlusOne(p, START, Repeat(2 * m), Reset);
    ShortBurst(p, Run(p, START, Repeat(2 * m) + [Reset]), m - 1);
    RunAppend(p, START, Repeat(2 * m) + [Reset], Repeat(m - 1));
  }

  /** Where the first lock is below the cap, the next failure of that run replaces the second lock by a first one. */
  lemma ResetShortens(p: FailurePolicy)
    requires Accepted(p) && p.baseLockSeconds < p.maxLockSeconds
    ensures Run(p, START, ResetUnderLock(p)).s.lock.Live? && !FailureExtends(p, Run(p, START, ResetUnderLock(p)))
  {
    ResetForgetsLevel(p);
    assert Pow2(0) == 1 && Pow2(1) == 2;
  }

  /** In all runs, resets included, failures only ever extend a lock in force exactly when every lock has the same length. */
  lemma LocksNeverShortenIff(p: FailurePolicy)
    requires Accepted(p)
    ensures LocksNeverShorten(p) <==> p.baseLockSeconds >= p.maxLockSeconds
  {
    if p.baseLockSeconds >= p.maxLockSeconds {
      forall es | Run(p, START, es).s.lock.Live? ensures FailureExtends(p, Run(p, START, es)) {
        LockWithinCap(p, es);
        LockSecondsBounds(p, ValueOf(Run(p, START, es).s.level) + 1);
      }
    } else {
      ResetShortens(p);
    }
  }
}
