/**
 * What the login-attempt store remembers of one subject, told from instants alone: which failures
 * share a window, which of them locks, for how long, and when each key is forgotten
 * (nftopia-backend/src/auth/login-attempt.store.ts).
 */
module LoginMemory {
  import opened Common
  import opened LoginAttempts
  import opened LoginRuns

  /** A lock: when it was set and at which level; `counts` says that no reset came since. */
  datatype SetLock = SetLock(at: nat, level: nat, counts: bool)

  /** The instants of the failures counted since the last lock or reset, in the window the first of them opened, and the last lock. */
  datatype History = History(open: seq<nat>, lock: Option<SetLock>)

  const NOTHING := History([], None)

  /** The open window with a failure now: it joins the failures whose first was less than a window ago, or opens a new one. */
  function Joined(p: FailurePolicy, open: seq<nat>, now: nat): (r: seq<nat>)
    ensures r != [] && r[|r| - 1] == now
  {
    if open != [] && now - open[0] < p.windowSeconds then open + [now] else [now]
  }

  /** The level of a lock set now: one more than that of the last one, if it was set less than a level lifetime ago and no reset came since. */
  function NextLevel(p: FailurePolicy, lock: Option<SetLock>, now: nat): (level: nat)
    ensures level >= 1
  {
    if lock.Some? && lock.value.counts && now - lock.value.at < p.levelTtlSeconds then lock.value.level + 1 else 1
  }

  function Extended(p: FailurePolicy, h: History, now: nat, e: Event): History {
    match e
    case Failure =>
      var open := Joined(p, h.open, now);
      if |open| >= p.maxAttempts then History([], Some(SetLock(now, NextLevel(p, h.lock, now), true))) else h.(open := open)
    case Tick(_) => h
    case Reset => History([], if h.lock.Some? then Some(h.lock.value.(counts := false)) else None)
  }

  function HistoryOf(p: FailurePolicy, es: seq<Event>): History
    requires Accepted(p)
  {
    if es == [] then NOTHING else Extended(p, HistoryOf(p, Init(es)), Run(p, START, Init(es)).now, Last(es))
  }

  /** What the keys hold at this instant. */
  function SubjectFrom(p: FailurePolicy, h: History, now: nat): Subject
    requires Accepted(p) && (h.lock.Some? ==> h.lock.value.level >= 1)
  {
    var failures := if h.open != [] && now < h.open[0] + p.windowSeconds then Cell.Live(|h.open|, h.open[0] + p.windowSeconds) else Cell.Gone;
    if h.lock.None? then Subject(failures, Cell.Gone, Cell.Gone)
    else
      var SetLock(at, level, counts) := h.lock.value;
      LockSecondsBounds(p, level);
      Subject(failures,
              if now < at + LockSeconds(p, level) then Cell.Live(level, at + LockSeconds(p, level)) else Cell.Gone,
              if counts && now < at + p.levelTtlSeconds then Cell.Live(level, at + p.levelTtlSeconds) else Cell.Gone)
  }

  ghost predicate Explains(p: FailurePolicy, c: Clocked, h: History)
    requires Accepted(p)
  {
    && |h.open| < p.maxAttempts && (forall i :: 0 <= i < |h.open| ==> h.open[i] <= c.now)
    && (h.lock.Some? ==> h.lock.value.level >= 1 && h.lock.value.at <= c.now)
    && c.s == SubjectFrom(p, h, c.now)
  }

  lemma StepExplained(p: FailurePolicy, c: Clocked, h: History, e: Event)
    requires Accepted(p) && ValueOf(c.s.level) >= 0 && Explains(p, c, h)
    ensures Explains(p, Step(p, c, e), Extended(p, h, c.now, e))
  {
    LockSecondsBounds(p, NextLevel(p, h.lock, c.now));
  }

  /** In every run the three keys are exactly what the history of failures, locks and resets tells. */
  lemma {:induction false} RunExplained(p: FailurePolicy, es: seq<Event>)
    requires Accepted(p)
    ensures Explains(p, Run(p, START, es), HistoryOf(p, es))
    decreases |es|
  {
    if es != [] {
      RunExplained(p, Init(es));
      StepExplained(p, Run(p, START, Init(es)), HistoryOf(p, Init(es)), Last(es));
    }
  }

  lemma Counts(p: FailurePolicy, c: Clocked, h: History)
    requires Accepted(p) && Explains(p, c, h)
    ensures ValueOf(c.s.failures) + 1 == |Joined(p, h.open, c.now)| && ValueOf(c.s.level) + 1 == NextLevel(p, h.lock, c.now)
  {
  }

  /** The effect and the report of a failure that joins this many in a window and would lock at this level. */
  ghost predicate LocksAt(p: FailurePolicy, s: Subject, now: nat, joined: nat, level: nat)
    requires Accepted(p) && ValueOf(s.level) >= 0 && level >= 1
  {
    var (s', report) := Fail(p, s, now);
    && report.failures == joined
    && (if joined >= p.maxAttempts then
          && report.lockedSeconds == LockSeconds(p, level) && report.level == level
          && s'.lock == Cell.Live(level, now + LockSeconds(p, level)) && s'.failures.Gone?
        else report.lockedSeconds == 0 && report.level == 0 && s'.lock == s.lock)
  }

  lemma FailureShown(p: FailurePolicy, s: Subject, now: nat)
    requires Accepted(p) && ValueOf(s.level) >= 0 && ValueOf(s.failures) >= 0
    ensures LocksAt(p, s, now, ValueOf(s.failures) + 1, ValueOf(s.level) + 1)
  {
  }

  /**
   * A failure locks if and only if it is the `maxAttempts`-th within one window of the first of those
   * counted since the last lock or reset; the lock then lasts for its level, which is one more than the
   * last if that was set less than a level lifetime ago, without a reset since, and else the first. The
   * report says so.
   */
  lemma FailureLocksIff(p: FailurePolicy, es: seq<Event>)
    requires Accepted(p)
    ensures var c, h := Run(p, START, es), HistoryOf(p, es);
            LocksAt(p, c.s, c.now, |Joined(p, h.open, c.now)|, NextLevel(p, h.lock, c.now))
  {
    RunExplained(p, es);
    Counts(p, Run(p, START, es), HistoryOf(p, es));
    FailureShown(p, Run(p, START, es).s, Run(p, START, es).now);
  }

  /** When each key is forgotten, if nothing but time happens: counter, lock and level each at its own instant. */
  lemma ForgottenIff(p: FailurePolicy, es: seq<Event>, d: nat)
    requires Accepted(p)
    ensures var h, c := HistoryOf(p, es), Run(p, START, es + [Tick(d)]);
            && (c.s.failures.Live? <==> h.open != [] && c.now - h.open[0] < p.windowSeconds)
            && (h.lock.Some? ==> h.lock.value.level >= 1)
            && (c.s.lock.Live? <==> h.lock.Some? && c.now - h.lock.value.at < LockSeconds(p, h.lock.value.level))
            && (c.s.level.Live? <==> h.lock.Some? && h.lock.value.counts && c.now - h.lock.value.at < p.levelTtlSeconds)
  {
    RunPlusOne(p, START, es, Tick(d));
    RunExplained(p, es);
    StepExplained(p, Run(p, START, es), HistoryOf(p, es), Tick(d));
  }

  /** The reported wait is exactly how long a subject stays locked if no failure comes: positive if and only if it is. */
  lemma WaitIsExact(p: FailurePolicy, es: seq<Event>, d: nat)
    requires Accepted(p)
    ensures var c := Run(p, START, es);
            && Remaining(c.s, c.now) >= 0
            && (Run(p, START, es + [Tick(d)]).s.lock.Live? <==> d < Remaining(c.s, c.now))
  {
    RunPlusOne(p, START, es, Tick(d));
  }
}
