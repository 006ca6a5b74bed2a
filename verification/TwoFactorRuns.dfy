/** What the two-factor throttle guarantees for one key over whole runs. */
module TwoFactorRuns {
  import opened Common
  import opened TwoFactorThrottle

  /** A verification that is refused while locked, or a failure recorded without that check, or time passing. */
  datatype Event = Verify(good: bool) | Unchecked | Wait(ms: nat)

  datatype Clocked = Clocked(now: nat, slot: Slot)

  const START := Clocked(0, Gone)

  function Step(c: Config, k: Clocked, e: Event): Clocked {
    match e
    case Verify(good) =>
      if Locked(k.slot, k.now) then k
      else if good then k.(slot := Gone)
      else k.(slot := Fail(c, k.slot, k.now))
    case Unchecked => k.(slot := Fail(c, k.slot, k.now))
    case Wait(ms) =>
      var now := k.now + ms;
      Clocked(now, if k.slot.Held? && now < k.slot.until then k.slot else Gone)
  }

  function Run(c: Config, k: Clocked, es: seq<Event>): Clocked {
    if es == [] then k else Step(c, Run(c, k, Init(es)), Last(es))
  }

  function Init(es: seq<Event>): seq<Event>
    requires es != []
  {
    es[..|es| - 1]
  }

  function Last(es: seq<Event>): Event
    requires es != []
  {
    es[|es| - 1]
  }

  /** The clock moving is a `Wait` for every key of the cache. */
  lemma ClockWaits(c: Config, entries: map<string, (ThrottleState, int)>, now: nat, ms: nat, key: string)
    ensures Step(c, Clocked(now, SlotOf(entries, now, key)), Wait(ms)) == Clocked(now + ms, SlotOf(entries, now + ms, key))
  {
  }

  lemma RunPlusOne(c: Config, k: Clocked, es: seq<Event>, e: Event)
    ensures Run(c, k, es + [e]) == Step(c, Run(c, k, es), e)
    ensures Locks(c, k, es + [e]) == Locks(c, k, es) + NewLock(c, Run(c, k, es), e)
  {
    assert Init(es + [e]) == es && Last(es + [e]) == e;
  }

  /** Every failure is recorded only after the lock check passed. */
  predicate Checked(es: seq<Event>) {
    forall e :: e in es ==> !e.Unchecked?
  }

  // ----- Locks last, and how they escalate -----

  function NewLock(c: Config, k: Clocked, e: Event): seq<int> {
    if (e == Unchecked || (e == Verify(false) && !Locked(k.slot, k.now)))
       && StateOf(k.slot).failureCount + 1 >= c.maxAttempts
    then [LockoutSeconds(c, StateOf(k.slot).lockoutCount + 1)] else []
  }

  /** The lengths of the locks set during a run, in order. */
  function Locks(c: Config, k: Clocked, es: seq<Event>): seq<int> {
    if es == [] then [] else Locks(c, k, Init(es)) + NewLock(c, Run(c, k, Init(es)), Last(es))
  }

  /**
   * The stored count stays below the threshold; an entry outlives the lock it holds; and an
   * entry that remembers a lock either ends with it or remembers one shorter than the window.
   */
  ghost predicate Kept(c: Config, k: Clocked, locks: seq<int>)
    requires Positive(c)
  {
    k.slot.Held? ==>
      var s := k.slot.state;
      && 0 <= s.failureCount < c.maxAttempts
      && k.now < k.slot.until
      && (s.lockedUntil.Some? <==> s.lockoutCount > 0)
      && (s.lockoutCount > 0 ==>
            && s.lockedUntil.value > 0
            && locks != [] && locks[|locks| - 1] == LockoutSeconds(c, s.lockoutCount)
            && (k.now < s.lockedUntil.value ==> k.slot.until >= s.lockedUntil.value && s.failureCount == 0)
            && (LockoutSeconds(c, s.lockoutCount) < c.windowSeconds || k.slot.until == s.lockedUntil.value))
  }

  lemma {:induction false} RunKept(c: Config, es: seq<Event>)
    requires Positive(c) && Checked(es)
    ensures Kept(c, Run(c, START, es), Locks(c, START, es))
    decreases |es|
  {
    if es != [] {
      assert Last(es) in es;
      RunKept(c, Init(es));
      var k := Run(c, START, Init(es));
      LockoutBounds(c, StateOf(k.slot).lockoutCount + 1);
    }
  }

  /** From the moment a lock is set, checked attempts are refused and change nothing until its full length has passed. */
  lemma {:induction false} LockLastsInFull(c: Config, before: seq<Event>, after: seq<Event>)
    requires Positive(c) && Checked(before) && Checked(after)
    requires var k := Run(c, START, before); Locked(k.slot, k.now)
    requires Run(c, Run(c, START, before), after).now < Run(c, START, before).slot.state.lockedUntil.value
    ensures Run(c, Run(c, START, before), after).slot == Run(c, START, before).slot
    ensures Locked(Run(c, START, before).slot, Run(c, Run(c, START, before), after).now)
    decreases |after|
  {
    RunKept(c, before);
    if after != [] {
      assert Last(after) in after;
      LockLastsInFull(c, before, Init(after));
    }
  }

  /**
   * A lock is either a first lock again, or the double of the lock before it (capped), and
   * the latter only if the lock before was shorter than the failure window.
   */
  lemma {:induction false} LocksEscalate(c: Config, es: seq<Event>, i: nat)
    requires Positive(c) && Checked(es) && i < |Locks(c, START, es)|
    ensures var locks := Locks(c, START, es);
            || locks[i] == LockoutSeconds(c, 1)
            || (i > 0 && locks[i - 1] < c.windowSeconds && locks[i] == Min(2 * locks[i - 1], c.maxSeconds))
    decreases |es|
  {
    if i < |Locks(c, START, Init(es))| {
      LocksEscalate(c, Init(es), i);
    } else {
      assert Last(es) in es;
      RunKept(c, Init(es));
      var k := Run(c, START, Init(es));
      if StateOf(k.slot).lockoutCount > 0 {
        LockoutBounds(c, StateOf(k.slot).lockoutCount);
      }
    }
  }

  /** A length that escalation can reach: a first lock, or one whose predecessor is shorter than the window. */
  ghost predicate Attainable(c: Config, seconds: int)
    requires Positive(c)
  {
    exists n: nat :: n >= 1 && seconds == LockoutSeconds(c, n) && (n == 1 || LockoutSeconds(c, n - 1) < c.windowSeconds)
  }

  lemma {:induction false} LocksAttainable(c: Config, es: seq<Event>, i: nat)
    requires Positive(c) && Checked(es) && i < |Locks(c, START, es)|
    ensures Attainable(c, Locks(c, START, es)[i])
    decreases |es|
  {
    if i < |Locks(c, START, Init(es))| {
      LocksAttainable(c, Init(es), i);
    } else {
      assert Last(es) in es;
      RunKept(c, Init(es));
      var n := StateOf(Run(c, START, Init(es)).slot).lockoutCount + 1;
      assert n == 1 || LockoutSeconds(c, n - 1) < c.windowSeconds;
    }
  }

  function Failing(n: nat): (es: seq<Event>)
    ensures |es| == n && Checked(es)
  {
    seq(n, _ => Verify(false))
  }

  /** `n` failures at one instant, fewer than the threshold, from an unlocked state with no failures counted. */
  lemma {:induction false} CountUp(c: Config, es: seq<Event>, n: nat)
    requires Positive(c) && n < c.maxAttempts
    requires var k := Run(c, START, es); !Locked(k.slot, k.now) && StateOf(k.slot).failureCount == 0
    ensures var k, k' := Run(c, START, es), Run(c, START, es + Failing(n));
            k'.now == k.now && StateOf(k'.slot) == StateOf(k.slot).(failureCount := n)
            && (k'.slot == k.slot || k'.slot.Held?)
    ensures Locks(c, START, es + Failing(n)) == Locks(c, START, es)
    decreases n
  {
    if n == 0 {
      assert es + Failing(0) == es;
    } else {
      CountUp(c, es, n - 1);
      var shorter := es + Failing(n - 1);
      assert es + Failing(n) == shorter + [Verify(false)];
      RunPlusOne(c, START, shorter, Verify(false));
      FailureCounted(c, Run(c, START, shorter));
    }
  }

  lemma FailureCounted(c: Config, k: Clocked)
    requires !Locked(k.slot, k.now) && StateOf(k.slot).failureCount + 1 < c.maxAttempts
    ensures var k' := Step(c, k, Verify(false));
            && k'.now == k.now && k'.slot.Held?
            && StateOf(k'.slot) == StateOf(k.slot).(failureCount := StateOf(k.slot).failureCount + 1)
    ensures NewLock(c, k, Verify(false)) == []
  {
  }

  /** From an unlocked key with nothing counted, a full batch of failures sets the next lock. */
  lemma LockNext(c: Config, ready: seq<Event>, n: nat) returns (es: seq<Event>)
    requires Positive(c) && n >= 1 && Checked(ready)
    requires var k := Run(c, START, ready);
             !Locked(k.slot, k.now) && StateOf(k.slot).failureCount == 0 && StateOf(k.slot).lockoutCount == n - 1
    ensures Checked(es) && AtLock(c, es, n)
  {
    CountUp(c, ready, c.maxAttempts - 1);
    var almost := ready + Failing(c.maxAttempts - 1);
    es := almost + [Verify(false)];
    NextLock(c, almost, n);
  }

  lemma NextLock(c: Config, almost: seq<Event>, n: nat)
    requires n >= 1
    requires var k := Run(c, START, almost);
             && !Locked(k.slot, k.now)
             && StateOf(k.slot).failureCount == c.maxAttempts - 1 && StateOf(k.slot).lockoutCount == n - 1
    ensures AtLock(c, almost + [Verify(false)], n)
  {
    RunPlusOne(c, START, almost, Verify(false));
    ThresholdLocks(c, Run(c, START, almost), n);
  }

  lemma ThresholdLocks(c: Config, k: Clocked, n: nat)
    requires n >= 1 && !Locked(k.slot, k.now)
    requires StateOf(k.slot).failureCount == c.maxAttempts - 1 && StateOf(k.slot).lockoutCount == n - 1
    ensures var seconds := LockoutSeconds(c, n);
            && NewLock(c, k, Verify(false)) == [seconds]
            && Step(c, k, Verify(false)) == Clocked(k.now, Held(ThrottleState(0, n, Some(k.now + seconds * 1000)),
                                                                k.now + Max(seconds, c.windowSeconds) * 1000))
  {
  }

  /** The run has just set the `n`-th lock of an escalation. */
  ghost predicate AtLock(c: Config, es: seq<Event>, n: nat)
    requires n >= 1
  {
    var k, seconds, locks := Run(c, START, es), LockoutSeconds(c, n), Locks(c, START, es);
    && k.slot == Held(ThrottleState(0, n, Some(k.now + seconds * 1000)), k.now + Max(seconds, c.windowSeconds) * 1000)
    && locks != [] && locks[|locks| - 1] == seconds
  }

  /** A checked run whose last lock is the `n`-th of an unbroken escalation. */
  lemma {:induction false} Climb(c: Config, n: nat) returns (es: seq<Event>)
    requires Positive(c) && n >= 1 && (n == 1 || LockoutSeconds(c, n - 1) < c.windowSeconds)
    ensures Checked(es) && AtLock(c, es, n)
    decreases n
  {
    var ready: seq<Event> := [];
    if n > 1 {
      LockoutBounds(c, n - 1);
      if n > 2 {
        LockoutMonotone(c, n - 2, n - 1);
      }
      var lower := Climb(c, n - 1);
      var rest := Wait(LockoutSeconds(c, n - 1) * 1000);
      ready := lower + [rest];
      RunPlusOne(c, START, lower, rest);
    }
    es := LockNext(c, ready, n);
  }

  /** Exactly the attainable lengths occur in checked runs. */
  lemma LockLengthsExact(c: Config, seconds: int)
    requires Positive(c)
    ensures Attainable(c, seconds) <==> exists es :: Checked(es) && seconds in Locks(c, START, es)
  {
    if Attainable(c, seconds) {
      var n: nat :| n >= 1 && seconds == LockoutSeconds(c, n) && (n == 1 || LockoutSeconds(c, n - 1) < c.windowSeconds);
      var es := Climb(c, n);
      assert seconds in Locks(c, START, es);
    }
    if es :| Checked(es) && seconds in Locks(c, START, es) {
      var i: nat :| i < |Locks(c, START, es)| && Locks(c, START, es)[i] == seconds;
      LocksAttainable(c, es, i);
    }
  }

  /**
   * No lock of a checked run is longer than the first lock or twice the window, so the
   * configured ceiling is out of reach when it is longer than both.
   */
  lemma EscalationStopsAtTheWindow(c: Config, es: seq<Event>, i: nat)
    requires Positive(c) && Checked(es) && i < |Locks(c, START, es)|
    ensures Locks(c, START, es)[i] <= Max(LockoutSeconds(c, 1), Min(c.maxSeconds, 2 * (c.windowSeconds - 1)))
  {
    LocksEscalate(c, es, i);
  }

  lemma DefaultLock(n: nat)
    requires n >= 1 && (n == 1 || LockoutSeconds(DEFAULTS, n - 1) < DEFAULTS.windowSeconds)
    ensures LockoutSeconds(DEFAULTS, n) in {30, 60, 120, 240, 480}
  {
    assert Pow2(0) == 1 && Pow2(1) == 2 && Pow2(2) == 4 && Pow2(3) == 8;
    assert Pow2(4) == 2 * Pow2(3);
    if n > 5 {
      Pow2Monotone(4, n - 2);
    }
  }

  /** With the default settings escalation ends at 480 s: the ceiling of 3600 s is never applied. */
  lemma DefaultLocks(es: seq<Event>, i: nat)
    requires Checked(es) && i < |Locks(DEFAULTS, START, es)|
    ensures Locks(DEFAULTS, START, es)[i] in {30, 60, 120, 240, 480}
  {
    LocksAttainable(DEFAULTS, es, i);
    var seconds := Locks(DEFAULTS, START, es)[i];
    var n: nat :| n >= 1 && seconds == LockoutSeconds(DEFAULTS, n)
                  && (n == 1 || LockoutSeconds(DEFAULTS, n - 1) < DEFAULTS.windowSeconds);
    DefaultLock(n);
  }

  // ----- Failures recorded without the check -----

  /** When the lock stops being enforced: it ends, or its cache entry does. */
  function LockEnd(s: Slot): int {
    if s.Held? && s.state.lockedUntil.Some? then Min(s.state.lockedUntil.value, s.until) else 0
  }

  /** In no run does a failure recorded while the key is locked let the lock end sooner. */
  ghost predicate LocksOnlyExtend(c: Config) {
    forall es | Locked(Run(c, START, es).slot, Run(c, START, es).now) ::
      var k := Run(c, START, es);
      LockEnd(Fail(c, k.slot, k.now)) >= LockEnd(k.slot)
  }

  /** The current lock is at most its full length away, and the counts are in range. */
  ghost predicate Bounded(c: Config, k: Clocked)
    requires Positive(c)
  {
    k.slot.Held? ==>
      var s := k.slot.state;
      && 0 <= s.failureCount < c.maxAttempts
      && (s.lockedUntil.Some? <==> s.lockoutCount > 0)
      && (s.lockoutCount > 0 ==> 0 < s.lockedUntil.value <= k.now + LockoutSeconds(c, s.lockoutCount) * 1000)
  }

  lemma {:induction false} RunBounded(c: Config, es: seq<Event>)
    requires Positive(c)
    ensures Bounded(c, Run(c, START, es))
    decreases |es|
  {
    if es != [] {
      RunBounded(c, Init(es));
      LockoutBounds(c, StateOf(Run(c, START, Init(es)).slot).lockoutCount + 1);
    }
  }

  function Burst(n: nat): (es: seq<Event>)
    ensures |es| == n && Verify(true) !in es
  {
    seq(n, _ => Unchecked)
  }

  /** The key after `locks` full batches of unchecked failures at one instant and `extra` more. */
  ghost predicate AfterBursts(c: Config, k: Clocked, locks: nat, extra: nat) {
    && k.now == 0
    && StateOf(k.slot) == ThrottleState(extra, locks, if locks == 0 then None else Some(LockoutSeconds(c, locks) * 1000))
    && (locks > 0 && extra == 0 ==> k.slot.Held? && k.slot.until == Max(LockoutSeconds(c, locks), c.windowSeconds) * 1000)
  }

  lemma OneMoreInBurst(c: Config, k: Clocked, locks: nat, extra: nat)
    requires Positive(c) && extra < c.maxAttempts && AfterBursts(c, k, locks, extra)
    ensures if extra + 1 < c.maxAttempts then AfterBursts(c, Step(c, k, Unchecked), locks, extra + 1)
            else AfterBursts(c, Step(c, k, Unchecked), locks + 1, 0)
  {
  }

  lemma {:induction false} BurstLocks(c: Config, locks: nat, extra: nat)
    requires Positive(c) && extra < c.maxAttempts
    ensures AfterBursts(c, Run(c, START, Burst(locks * c.maxAttempts + extra)), locks, extra)
    decreases locks, extra
  {
    var n := locks * c.maxAttempts + extra;
    if extra > 0 {
      BurstLocks(c, locks, extra - 1);
      BurstPlusOne(c, n - 1);
      OneMoreInBurst(c, Run(c, START, Burst(n - 1)), locks, extra - 1);
    } else if locks > 0 {
      assert locks * c.maxAttempts == (locks - 1) * c.maxAttempts + c.maxAttempts;
      BurstLocks(c, locks - 1, c.maxAttempts - 1);
      BurstPlusOne(c, n - 1);
      OneMoreInBurst(c, Run(c, START, Burst(n - 1)), locks - 1, c.maxAttempts - 1);
    }
  }

  lemma BurstPlusOne(c: Config, n: nat)
    ensures Run(c, START, Burst(n + 1)) == Step(c, Run(c, START, Burst(n)), Unchecked)
  {
    assert Burst(n + 1) == Burst(n) + [Unchecked];
    RunPlusOne(c, START, Burst(n), Unchecked);
  }

  lemma CutShort(c: Config) returns (es: seq<Event>)
    requires Positive(c) && c.maxAttempts > 1 && c.maxSeconds > c.windowSeconds
    ensures Verify(true) !in es
    ensures var k := Run(c, START, es);
            Locked(k.slot, k.now) && LockEnd(Fail(c, k.slot, k.now)) < LockEnd(k.slot)
  {
    var top := c.maxSeconds;
    es := Burst(top * c.maxAttempts + 0);
    BurstLocks(c, top, 0);
    CeilingReached(c);
  }

  lemma CeilingReached(c: Config)
    requires Positive(c)
    ensures LockoutSeconds(c, c.maxSeconds) == c.maxSeconds
  {
    assert Pow2(c.maxSeconds - 1) >= c.maxSeconds;
    MulMonotone(Pow2(c.maxSeconds - 1), 1, c.baseSeconds);
  }

  /**
   * A failure recorded under a lock rewrites the entry with the window as its lifetime.
   * No lock is ever cut short by that exactly when every failure locks, or the ceiling
   * is not above the window.
   */
  lemma LocksOnlyExtendIff(c: Config)
    requires Positive(c)
    ensures LocksOnlyExtend(c) <==> c.maxAttempts == 1 || c.maxSeconds <= c.windowSeconds
  {
    if c.maxAttempts == 1 || c.maxSeconds <= c.windowSeconds {
      forall es | Locked(Run(c, START, es).slot, Run(c, START, es).now)
        ensures var k := Run(c, START, es);
                LockEnd(Fail(c, k.slot, k.now)) >= LockEnd(k.slot)
      {
        RunBounded(c, es);
        var k := Run(c, START, es);
        LockoutBounds(c, k.slot.state.lockoutCount);
      }
    } else {
      var es := CutShort(c);
    }
  }

  // ----- How fast failures can be recorded -----

  function Gap(c: Config): (g: int)
    requires Positive(c)
    ensures g > 0
  {
    LockoutBounds(c, 1);
    Min(c.windowSeconds, LockoutSeconds(c, 1)) * 1000
  }

  /** The instants at which checked failures were recorded. */
  function FailureTimes(c: Config, es: seq<Event>): (ts: seq<nat>) {
    if es == [] then []
    else
      var k := Run(c, START, Init(es));
      FailureTimes(c, Init(es)) + (if Last(es) == Verify(false) && !Locked(k.slot, k.now) then [k.now] else [])
  }

  ghost predicate Batched(c: Config, k: Clocked, ts: seq<nat>, batches: nat, start: nat)
    requires Positive(c)
  {
    var s := StateOf(k.slot);
    if batches == 0 then ts == [] && k.slot.Gone?
    else
      && ts != [] && ts[0] + (batches - 1) * Gap(c) <= start <= ts[|ts| - 1]
      && (if s.failureCount > 0 then
            |ts| <= (batches - 1) * c.maxAttempts + s.failureCount && k.slot.until >= start + Gap(c)
          else
            && |ts| <= batches * c.maxAttempts
            && (k.now >= start + Gap(c) || (Locked(k.slot, k.now) && s.lockedUntil.value >= start + Gap(c))))
  }

  lemma FailBatched(c: Config, k: Clocked, ts: seq<nat>, batches: nat, start: nat) returns (batches': nat, start': nat)
    requires Positive(c) && Bounded(c, k) && Batched(c, k, ts, batches, start) && !Locked(k.slot, k.now)
    requires ts != [] ==> ts[|ts| - 1] <= k.now
    ensures Batched(c, k.(slot := Fail(c, k.slot, k.now)), ts + [k.now], batches', start')
  {
    LockoutBounds(c, StateOf(k.slot).lockoutCount + 1);
    batches', start' := batches, start;
    if StateOf(k.slot).failureCount == 0 {
      batches', start' := batches + 1, k.now;
      assert batches * Gap(c) == (batches - 1) * Gap(c) + Gap(c);
    }
    assert batches' * c.maxAttempts == (batches' - 1) * c.maxAttempts + c.maxAttempts;
  }

  lemma WaitBatched(c: Config, k: Clocked, locks: seq<int>, ts: seq<nat>, batches: nat, start: nat, ms: nat)
    requires Positive(c) && Kept(c, k, locks) && Batched(c, k, ts, batches, start)
    ensures Batched(c, Step(c, k, Wait(ms)), ts, batches, start)
  {
    assert batches * c.maxAttempts == (batches - 1) * c.maxAttempts + c.maxAttempts;
  }

  lemma {:induction false} RunBatched(c: Config, es: seq<Event>) returns (batches: nat, start: nat)
    requires Positive(c) && Checked(es) && Verify(true) !in es
    ensures Batched(c, Run(c, START, es), FailureTimes(c, es), batches, start)
    ensures FailureTimes(c, es) != [] ==> FailureTimes(c, es)[|FailureTimes(c, es)| - 1] <= Run(c, START, es).now
    decreases |es|
  {
    if es == [] {
      batches, start := 0, 0;
    } else {
      assert Last(es) in es;
      batches, start := RunBatched(c, Init(es));
      var k := Run(c, START, Init(es));
      RunKept(c, Init(es));
      RunBounded(c, Init(es));
      if Last(es) == Verify(false) && !Locked(k.slot, k.now) {
        batches, start := FailBatched(c, k, FailureTimes(c, Init(es)), batches, start);
      } else if Last(es).Wait? {
        WaitBatched(c, k, Locks(c, START, Init(es)), FailureTimes(c, Init(es)), batches, start, Last(es).ms);
      }
    }
  }

  lemma BatchedBound(c: Config, k: Clocked, ts: seq<nat>, batches: nat, start: nat)
    requires Positive(c) && Bounded(c, k) && Batched(c, k, ts, batches, start) && ts != []
    ensures ts[|ts| - 1] >= ts[0] && |ts| <= c.maxAttempts * ((ts[|ts| - 1] - ts[0]) / Gap(c) + 1)
  {
    var open := if StateOf(k.slot).failureCount > 0 then StateOf(k.slot).failureCount else c.maxAttempts;
    assert batches * c.maxAttempts == (batches - 1) * c.maxAttempts + c.maxAttempts;
    MulMonotone(Gap(c), 0, batches - 1);
    FullBatches(c.maxAttempts, Gap(c), |ts|, batches, open, ts[|ts| - 1] - ts[0]);
  }

  /** Without a success, at most `maxAttempts * (T div Gap + 1)` checked failures span `T` ms. */
  lemma FailureRateBound(c: Config, es: seq<Event>)
    requires Positive(c) && Checked(es) && Verify(true) !in es
    ensures var ts := FailureTimes(c, es);
            ts != [] ==> |ts| <= c.maxAttempts * ((ts[|ts| - 1] - ts[0]) / Gap(c) + 1)
  {
    var batches, start := RunBatched(c, es);
    RunBounded(c, es);
    if FailureTimes(c, es) != [] {
      BatchedBound(c, Run(c, START, es), FailureTimes(c, es), batches, start);
    }
  }
}
