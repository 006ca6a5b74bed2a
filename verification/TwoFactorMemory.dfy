/**
 * What the two-factor throttle remembers: which failures count towards a lock, and which lock
 * comes next, told from the instants of failures and locks alone
 * (nftopia-backend/src/auth/two-factor-throttle.service.ts).
 */
module TwoFactorMemory {
  import opened Common
  import opened TwoFactorThrottle
  import opened TwoFactorRuns

  // ----- One failure -----

  /** The event records a failure. */
  predicate Records(k: Clocked, e: Event) {
    e == Unchecked || (e == Verify(false) && !Locked(k.slot, k.now))
  }

  /**
   * A failure that only counts adds one to the count and changes no lock; it is remembered until
   * exactly one window has passed, and nothing is from then on.
   */
  lemma CountedFailureIsForgotten(c: Config, k: Clocked, e: Event, ms: nat)
    requires Positive(c) && Records(k, e) && StateOf(k.slot).failureCount + 1 < c.maxAttempts
    ensures Step(c, Step(c, k, e), Wait(ms)).slot
         == (if ms >= c.windowSeconds * 1000 then Gone
             else Held(StateOf(k.slot).(failureCount := StateOf(k.slot).failureCount + 1), k.now + c.windowSeconds * 1000))
  {
  }

  /** One that locks is remembered until the window and the lock have both passed. */
  lemma LockingFailureIsForgotten(c: Config, k: Clocked, e: Event, ms: nat)
    requires Positive(c) && Records(k, e) && StateOf(k.slot).failureCount + 1 >= c.maxAttempts
    ensures var k' := Step(c, Step(c, k, e), Wait(ms));
            var seconds := LockoutSeconds(c, StateOf(k.slot).lockoutCount + 1);
            && (k'.slot.Gone? <==> ms >= c.windowSeconds * 1000 && ms >= seconds * 1000)
            && (k'.slot.Held? ==> k'.slot.state == ThrottleState(0, StateOf(k.slot).lockoutCount + 1, Some(k.now + seconds * 1000)))
            && (Locked(k'.slot, k'.now) <==> ms < seconds * 1000)
  {
    LockoutBounds(c, StateOf(k.slot).lockoutCount + 1);
  }

  // ----- The history of a key -----

  /** A lock: when it was set, and which step of an escalation it is. */
  datatype SetLock = SetLock(at: nat, level: nat)

  /** The last lock unless a success came since, and the instants of the failures since either. */
  datatype History = History(lock: Option<SetLock>, failures: seq<nat>)

  const NOTHING := History(None, [])

  function Instants(h: History): seq<nat> {
    (if h.lock.Some? then [h.lock.value.at] else []) + h.failures
  }

  /** Each of these came less than a window after the one before. */
  predicate Close(c: Config, ts: seq<nat>) {
    forall i :: 0 < i < |ts| ==> ts[i] - ts[i - 1] < c.windowSeconds * 1000
  }

  /** The level of a lock that the last of these failures sets. */
  function NextLevel(c: Config, lock: Option<SetLock>, failures: seq<nat>): (level: nat)
    ensures level >= 1
  {
    if lock.Some? && Close(c, [lock.value.at] + failures) then lock.value.level + 1 else 1
  }

  /** The history after one more event, by what can be seen of the key. */
  function Extended(c: Config, h: History, k: Clocked, e: Event): History {
    if !e.Verify? || Locked(k.slot, k.now) then h
    else if e.good then NOTHING
    else if Locked(Step(c, k, e).slot, k.now) then History(Some(SetLock(k.now, NextLevel(c, h.lock, h.failures + [k.now]))), [])
    else h.(failures := h.failures + [k.now])
  }

  /** What has happened to a key, told by which verifications were refused and after which it was locked. */
  function HistoryOf(c: Config, es: seq<Event>): History {
    if es == [] then NOTHING
    else Extended(c, HistoryOf(c, Init(es)), Run(c, START, Init(es)), Last(es))
  }

  /** How many of the last instants each came less than a window after the one before. */
  function Streak(c: Config, ts: seq<nat>): (n: nat)
    ensures n <= |ts|
  {
    if ts == [] then 0
    else if |ts| > 1 && ts[|ts| - 1] - ts[|ts| - 2] < c.windowSeconds * 1000 then Streak(c, ts[..|ts| - 1]) + 1
    else 1
  }

  lemma {:induction false} StreakIff(c: Config, ts: seq<nat>, n: nat)
    requires n >= 1
    ensures Streak(c, ts) >= n <==> |ts| >= n && Close(c, ts[|ts| - n..])
    decreases |ts|
  {
    if ts != [] {
      var shorter := ts[..|ts| - 1];
      if n == 1 {
        assert |ts[|ts| - 1..]| == 1;
      } else if |ts| >= n {
        StreakIff(c, shorter, n - 1);
        var tail := ts[|ts| - n..];
        assert tail == shorter[|shorter| - (n - 1)..] + [ts[|ts| - 1]];
        assert tail[|tail| - 2] == ts[|ts| - 2];
      }
    }
  }

  // ----- The entry is what the history says -----

  /** When the cache forgets the history. */
  function Expiry(c: Config, h: History): int
    requires h.lock.Some? ==> h.lock.value.level >= 1
  {
    if h.failures != [] then h.failures[|h.failures| - 1] + c.windowSeconds * 1000
    else if h.lock.Some? then h.lock.value.at + Max(LockoutSeconds(c, h.lock.value.level), c.windowSeconds) * 1000
    else 0
  }

  /** The entry a history leaves at this instant. */
  function SlotFrom(c: Config, h: History, now: nat): Slot
    requires h.lock.Some? ==> h.lock.value.level >= 1
  {
    if now >= Expiry(c, h) then Gone
    else if h.lock.Some? && Close(c, Instants(h)) then
      var SetLock(at, level) := h.lock.value;
      Held(ThrottleState(Streak(c, h.failures), level, Some(at + LockoutSeconds(c, level) * 1000)), Expiry(c, h))
    else Held(ThrottleState(Streak(c, h.failures), 0, None), Expiry(c, h))
  }

  /** Failures come after the lock has passed, nothing is in the future, and the last failure did not lock. */
  ghost predicate Told(c: Config, h: History, now: nat)
    requires Positive(c)
  {
    && (h.lock.Some? ==> h.lock.value.level >= 1 && h.lock.value.at <= now)
    && (h.failures != [] ==> h.failures[|h.failures| - 1] <= now && Streak(c, h.failures) < c.maxAttempts)
    && (h.lock.Some? && h.failures != [] ==> h.failures[0] - h.lock.value.at >= LockoutSeconds(c, h.lock.value.level) * 1000)
  }

  ghost predicate Explains(c: Config, k: Clocked, h: History)
    requires Positive(c)
  {
    Told(c, h, k.now) && k.slot == SlotFrom(c, h, k.now)
  }

  lemma CloseGrows(c: Config, ts: seq<nat>, t: nat)
    requires ts != []
    ensures Close(c, ts + [t]) <==> Close(c, ts) && t - ts[|ts| - 1] < c.windowSeconds * 1000
  {
    var longer := ts + [t];
    assert longer[|ts|] == t && longer[|ts| - 1] == ts[|ts| - 1];
    if Close(c, longer) {
      forall i | 0 < i < |ts| ensures ts[i] - ts[i - 1] < c.windowSeconds * 1000 {
        assert longer[i] == ts[i] && longer[i - 1] == ts[i - 1];
      }
    }
  }

  /** What the entry holds for the next failure, from the history with that failure. */
  lemma Counts(c: Config, k: Clocked, h: History)
    requires Positive(c) && Explains(c, k, h) && !Locked(k.slot, k.now)
    ensures StateOf(k.slot).failureCount + 1 == Streak(c, h.failures + [k.now])
    ensures StateOf(k.slot).lockoutCount + 1 == NextLevel(c, h.lock, h.failures + [k.now])
    ensures h.lock.Some? && h.failures == [] ==> k.now - h.lock.value.at >= LockoutSeconds(c, h.lock.value.level) * 1000
  {
    assert (h.failures + [k.now])[..|h.failures|] == h.failures;
    if h.lock.Some? {
      LockoutBounds(c, h.lock.value.level);
      CloseGrows(c, Instants(h), k.now);
      assert Instants(h) + [k.now] == [h.lock.value.at] + (h.failures + [k.now]);
    }
  }

  /** A failure from an entry with these counts. */
  lemma FailureShown(c: Config, k: Clocked, streak: nat, level: nat)
    requires Positive(c) && !Locked(k.slot, k.now) && level >= 1
    requires StateOf(k.slot).failureCount + 1 == streak && StateOf(k.slot).lockoutCount + 1 == level
    ensures var seconds := LockoutSeconds(c, level);
            var k' := Step(c, k, Verify(false));
            && k'.now == k.now && seconds >= 1
            && (Locked(k'.slot, k'.now) <==> streak >= c.maxAttempts)
            && k'.slot == if streak >= c.maxAttempts then
                            Held(ThrottleState(0, level, Some(k.now + seconds * 1000)), k.now + Max(seconds, c.windowSeconds) * 1000)
                          else Held(ThrottleState(streak, level - 1, StateOf(k.slot).lockedUntil), k.now + c.windowSeconds * 1000)
  {
    LockoutBounds(c, level);
  }

  lemma FailureLocks(c: Config, k: Clocked, h: History)
    requires Positive(c) && Explains(c, k, h) && !Locked(k.slot, k.now)
    ensures var failures := h.failures + [k.now];
            var k' := Step(c, k, Verify(false));
            && (Locked(k'.slot, k'.now) <==> Streak(c, failures) >= c.maxAttempts)
            && (Locked(k'.slot, k'.now) ==>
                  k'.slot.state.lockedUntil == Some(k.now + LockoutSeconds(c, NextLevel(c, h.lock, failures)) * 1000))
  {
    Counts(c, k, h);
    FailureShown(c, k, Streak(c, h.failures + [k.now]), NextLevel(c, h.lock, h.failures + [k.now]));
  }

  lemma FailureExplained(c: Config, k: Clocked, h: History)
    requires Positive(c) && Explains(c, k, h) && !Locked(k.slot, k.now)
    ensures Explains(c, Step(c, k, Verify(false)), Extended(c, h, k, Verify(false)))
  {
    Counts(c, k, h);
    FailureShown(c, k, Streak(c, h.failures + [k.now]), NextLevel(c, h.lock, h.failures + [k.now]));
    if h.lock.Some? {
      CloseGrows(c, Instants(h), k.now);
      assert Instants(h) + [k.now] == Instants(h.(failures := h.failures + [k.now]));
    }
  }

  lemma StepExplained(c: Config, k: Clocked, h: History, e: Event)
    requires Positive(c) && Explains(c, k, h) && !e.Unchecked?
    ensures Explains(c, Step(c, k, e), Extended(c, h, k, e))
  {
    if e == Verify(false) && !Locked(k.slot, k.now) {
      FailureExplained(c, k, h);
    }
  }

  /** In every checked run the entry is the one the history of failures and locks tells. */
  lemma {:induction false} RunExplained(c: Config, es: seq<Event>)
    requires Positive(c) && Checked(es)
    ensures Explains(c, Run(c, START, es), HistoryOf(c, es))
    decreases |es|
  {
    if es != [] {
      assert Last(es) in es;
      RunExplained(c, Init(es));
      StepExplained(c, Run(c, START, Init(es)), HistoryOf(c, Init(es)), Last(es));
    }
  }

  // ----- When a failure locks, and for how long -----

  /**
   * A checked failure locks if and only if it and the `maxAttempts - 1` failures before it, since
   * the last lock or success, each came less than a window after the one before.
   */
  lemma LocksIff(c: Config, es: seq<Event>)
    requires Positive(c) && Checked(es) && !Locked(Run(c, START, es).slot, Run(c, START, es).now)
    ensures var now := Run(c, START, es).now;
            var ts := HistoryOf(c, es).failures + [now];
            Locked(Step(c, Run(c, START, es), Verify(false)).slot, now)
            <==> |ts| >= c.maxAttempts
                 && forall i :: |ts| - c.maxAttempts < i < |ts| ==> ts[i] - ts[i - 1] < c.windowSeconds * 1000
  {
    var k, h := Run(c, START, es), HistoryOf(c, es);
    var ts := h.failures + [k.now];
    RunExplained(c, es);
    FailureLocks(c, k, h);
    StreakIff(c, ts, c.maxAttempts);
    if |ts| >= c.maxAttempts {
      CloseTail(c, ts, c.maxAttempts);
    }
  }

  lemma CloseTail(c: Config, ts: seq<nat>, n: nat)
    requires n <= |ts|
    ensures Close(c, ts[|ts| - n..]) <==> forall i :: |ts| - n < i < |ts| ==> ts[i] - ts[i - 1] < c.windowSeconds * 1000
  {
    var tail := ts[|ts| - n..];
    if Close(c, tail) {
      forall i | |ts| - n < i < |ts| ensures ts[i] - ts[i - 1] < c.windowSeconds * 1000 {
        assert tail[i - (|ts| - n)] == ts[i] && tail[i - (|ts| - n) - 1] == ts[i - 1];
      }
    }
  }

  /**
   * A lock is the next step of an escalation if and only if no success came since the lock before
   * and every failure since came less than a window after the one before it, the first of them
   * less than a window after that lock was set; any other lock is a first one.
   */
  lemma LockLengthIff(c: Config, es: seq<Event>)
    requires Positive(c) && Checked(es) && !Locked(Run(c, START, es).slot, Run(c, START, es).now)
    requires Locked(Step(c, Run(c, START, es), Verify(false)).slot, Run(c, START, es).now)
    ensures var now, h := Run(c, START, es).now, HistoryOf(c, es);
            Step(c, Run(c, START, es), Verify(false)).slot.state.lockedUntil
            == Some(now + 1000 * (if h.lock.Some? && Close(c, Instants(h) + [now]) then Min(c.baseSeconds * Pow2(h.lock.value.level), c.maxSeconds)
                                  else Min(c.baseSeconds, c.maxSeconds)))
  {
    var k, h := Run(c, START, es), HistoryOf(c, es);
    RunExplained(c, es);
    FailureLocks(c, k, h);
    LevelLength(c, h.lock, h.failures + [k.now]);
    if h.lock.Some? {
      assert Instants(h) + [k.now] == [h.lock.value.at] + (h.failures + [k.now]);
    }
  }

  lemma LevelLength(c: Config, lock: Option<SetLock>, failures: seq<nat>)
    requires Positive(c)
    ensures LockoutSeconds(c, NextLevel(c, lock, failures))
         == if lock.Some? && Close(c, [lock.value.at] + failures) then Min(c.baseSeconds * Pow2(lock.value.level), c.maxSeconds)
            else Min(c.baseSeconds, c.maxSeconds)
  {
    LockoutBounds(c, 1);
  }
}
