/**
 * What the login-attempt store guarantees over whole runs of one subject.
 * A run is any list of events; the clock moves only by `Tick`.
 */
module LoginRuns {
  import opened Common
  import opened LoginAttempts
  import opened RedisModel

  datatype Event = Failure | Tick(seconds: nat) | Reset

  datatype Clocked = Clocked(now: nat, s: Subject)

  const START := Clocked(0, FRESH)

  function Aged(c: Cell, now: nat): Cell {
    if c.Live? && now < c.until then c else Gone
  }

  function Step(p: FailurePolicy, c: Clocked, e: Event): Clocked
    requires Accepted(p) && ValueOf(c.s.level) >= 0
  {
    match e
    case Failure => Clocked(c.now, Fail(p, c.s, c.now).0)
    case Tick(d) => Clocked(c.now + d, Subject(Aged(c.s.failures, c.now + d), Aged(c.s.lock, c.now + d), Aged(c.s.level, c.now + d)))
    case Reset => Clocked(c.now, Forget(c.s))
  }

  /** The clock moving is a `Tick` for every subject of the store; failures and resets are what its methods say. */
  lemma ClockTicks(p: FailurePolicy, db: map<string, Entry>, now: nat, d: nat, subject: string)
    requires Accepted(p) && WellKept(db)
    ensures ValueOf(SubjectAt(db, now, subject).level) >= 0
    ensures Step(p, Clocked(now, SubjectAt(db, now, subject)), Tick(d)) == Clocked(now + d, SubjectAt(db, now + d, subject))
  {
    var fail, lock, level := KeyOf(FailKey, subject), KeyOf(LockKey, subject), KeyOf(LevelKey, subject);
    forall key | key in {fail, lock, level} ensures Aged(CellAt(db, now, key), now + d) == CellAt(db, now + d, key) {
    }
  }

  /** Every run keeps the subject consistent: in particular the counter stays below the threshold. */
  function Run(p: FailurePolicy, c: Clocked, es: seq<Event>): (r: Clocked)
    requires Accepted(p) && Consistent(p, c.s, c.now)
    ensures Consistent(p, r.s, r.now) && r.now >= c.now
    decreases |es|
  {
    if es == [] then c
    else
      var before := Run(p, c, Init(es));
      StepConsistent(p, before, Last(es));
      Step(p, before, Last(es))
  }

  function Init(es: seq<Event>): seq<Event>
    requires es != []
  {
    es[..|es| - 1]
  }

  function Last(es: seq<Event>): Event
    requires es != []
  {
    es[|es| - 1]
  }

  lemma StepConsistent(p: FailurePolicy, c: Clocked, e: Event)
    requires Accepted(p) && Consistent(p, c.s, c.now)
    ensures var next := Step(p, c, e); Consistent(p, next.s, next.now) && next.now >= c.now
  {
    LockSecondsBounds(p, ValueOf(c.s.level) + 1);
  }

  lemma {:induction false} RunAppend(p: FailurePolicy, c: Clocked, es: seq<Event>, fs: seq<Event>)
    requires Accepted(p) && Consistent(p, c.s, c.now)
    ensures Run(p, c, es + fs) == Run(p, Run(p, c, es), fs)
    decreases |fs|
  {
    if fs == [] {
      assert es + fs == es;
    } else {
      assert Init(es + fs) == es + Init(fs);
      RunAppend(p, c, es, Init(fs));
    }
  }

  // ----- Counting: every maxAttempts-th failure locks -----

  function Failures(es: seq<Event>): nat {
    if es == [] then 0 else Failures(Init(es)) + (if Last(es).Failure? then 1 else 0)
  }

  /** No reset, and no tick outlasts a counter or an escalation level. */
  ghost predicate NothingForgotten(p: FailurePolicy, c: Clocked, es: seq<Event>)
    requires Accepted(p) && Consistent(p, c.s, c.now)
  {
    es == [] ||
    (&& NothingForgotten(p, c, Init(es))
     && !Last(es).Reset?
     && var before, after := Run(p, c, Init(es)).s, Run(p, c, es).s;
        Last(es).Tick? ==> after.failures == before.failures && after.level == before.level)
  }

  /**
   * However the failures of several instances interleave, `n` of them leave the
   * counter at `n mod maxAttempts` and the level at `n div maxAttempts`.
   */
  lemma {:induction false} CountingLaw(p: FailurePolicy, es: seq<Event>)
    requires Accepted(p) && NothingForgotten(p, START, es)
    ensures var s := Run(p, START, es).s;
            && ValueOf(s.failures) == Failures(es) % p.maxAttempts
            && ValueOf(s.level) == Failures(es) / p.maxAttempts
    decreases |es|
  {
    if es != [] {
      CountingLaw(p, Init(es));
      NextQuotient(Failures(Init(es)), p.maxAttempts);
    }
  }

  lemma NextQuotient(n: nat, m: int)
    requires m > 0
    ensures if n % m + 1 == m then (n + 1) % m == 0 && (n + 1) / m == n / m + 1
                              else (n + 1) % m == n % m + 1 && (n + 1) / m == n / m
  {
    var q, r := n / m, n % m;
    assert n + 1 == q * m + r + 1;
    if r + 1 == m {
      assert n + 1 == (q + 1) * m;
      QuotientUnique(n + 1, m, q + 1, 0);
    } else {
      QuotientUnique(n + 1, m, q, r + 1);
    }
  }

  lemma QuotientUnique(n: nat, m: int, q: int, r: int)
    requires m > 0 && 0 <= r < m && n == q * m + r
    ensures n / m == q && n % m == r
  {
    var q', r' := n / m, n % m;
    assert (q - q') * m == r' - r;
    if q > q' {
      MulMonotone(m, 1, q - q');
    } else if q < q' {
      MulMonotone(m, 1, q' - q);
    }
  }

  /** The next failure after `n` remembered ones locks exactly when it is a multiple of the threshold. */
  lemma ExactlyEveryThresholdLocks(p: FailurePolicy, es: seq<Event>)
    requires Accepted(p) && NothingForgotten(p, START, es)
    ensures var c := Run(p, START, es);
            var n := Failures(es) + 1;
            var report := Fail(p, c.s, c.now).1;
            && (report.lockedSeconds > 0 <==> n % p.maxAttempts == 0)
            && (n % p.maxAttempts == 0 ==> n / p.maxAttempts >= 1 && report.level == n / p.maxAttempts
                                           && report.lockedSeconds == LockSeconds(p, n / p.maxAttempts))
  {
    CountingLaw(p, es);
    NextQuotient(Failures(es), p.maxAttempts);
    LockSecondsBounds(p, ValueOf(Run(p, START, es).s.level) + 1);
  }

  // ----- How fast failures can be recorded -----

  /** Shortest time after which a new batch of failures can begin. */
  function Gap(p: FailurePolicy): (g: int)
    requires Accepted(p)
    ensures g > 0
  {
    Min(p.windowSeconds, Min(p.baseLockSeconds, p.maxLockSeconds))
  }

  /** The instants at which failures were recorded. */
  function FailureTimes(p: FailurePolicy, c: Clocked, es: seq<Event>): (ts: seq<nat>)
    requires Accepted(p) && Consistent(p, c.s, c.now)
    ensures |ts| == Failures(es)
    ensures forall i :: 0 <= i < |ts| ==> ts[i] <= Run(p, c, es).now
    ensures forall i, j :: 0 <= i < j < |ts| ==> ts[i] <= ts[j]
    decreases |es|
  {
    if es == [] then []
    else
      var earlier := FailureTimes(p, c, Init(es));
      if Last(es).Failure? then earlier + [Run(p, c, Init(es)).now] else earlier
  }

  predicate NoReset(es: seq<Event>) {
    forall e :: e in es ==> !e.Reset?
  }

  /** How many failures were recorded while a lock was already in force. */
  function Late(p: FailurePolicy, c: Clocked, es: seq<Event>): nat
    requires Accepted(p) && Consistent(p, c.s, c.now)
    decreases |es|
  {
    if es == [] then 0
    else Late(p, c, Init(es)) + (if Last(es).Failure? && Run(p, c, Init(es)).s.lock.Live? then 1 else 0)
  }

  lemma RunPlusOne(p: FailurePolicy, c: Clocked, es: seq<Event>, e: Event)
    requires Accepted(p) && Consistent(p, c.s, c.now)
    ensures Run(p, c, es + [e]) == Step(p, Run(p, c, es), e)
    ensures FailureTimes(p, c, es + [e]) == FailureTimes(p, c, es) + (if e.Failure? then [Run(p, c, es).now] else [])
    ensures Late(p, c, es + [e]) == Late(p, c, es) + (if e.Failure? && Run(p, c, es).s.lock.Live? then 1 else 0)
  {
    assert Init(es + [e]) == es && Last(es + [e]) == e;
  }

  /**
   * `batches` batches have begun, the last one at `start`; a batch ends by locking or by
   * its window passing, so consecutive ones that do not begin under a lock are a gap apart.
   * `carry` bounds the failures of a batch that was already open at the beginning.
   */
  ghost predicate Batched(p: FailurePolicy, c: Clocked, ts: seq<nat>, late: nat, carry: nat, batches: nat, start: nat)
    requires Accepted(p)
  {
    var f := c.s.failures;
    if batches == 0 then
      && |ts| <= carry
      && (f.Live? ==> carry == p.maxAttempts && |ts| <= f.value)
    else
      && ts != []
      && ts[0] <= start <= ts[|ts| - 1]
      && start >= ts[0] + (batches - 1 - late) * Gap(p)
      && (if f.Live? then
            && |ts| <= carry + (batches - 1) * p.maxAttempts + f.value
            && f.until >= start + Gap(p)
          else
            && |ts| <= carry + batches * p.maxAttempts
            && (c.now >= start + Gap(p) || (c.s.lock.Live? && c.s.lock.until >= start + Gap(p))))
  }

  lemma BatchContinues(p: FailurePolicy, c: Clocked, ts: seq<nat>, late: nat, carry: nat, batches: nat, start: nat)
    requires Accepted(p) && Consistent(p, c.s, c.now) && c.s.failures.Live?
    requires Batched(p, c, ts, late, carry, batches, start)
    requires forall i :: 0 <= i < |ts| ==> ts[i] <= c.now
    ensures Batched(p, Step(p, c, Failure), ts + [c.now], late + (if c.s.lock.Live? then 1 else 0), carry, batches, start)
  {
    LockSecondsBounds(p, ValueOf(c.s.level) + 1);
    if batches > 0 {
      assert (batches - 2 - late) * Gap(p) == (batches - 1 - late) * Gap(p) - Gap(p);
      assert batches * p.maxAttempts == (batches - 1) * p.maxAttempts + p.maxAttempts;
    }
  }

  lemma BatchBegins(p: FailurePolicy, c: Clocked, ts: seq<nat>, late: nat, carry: nat, batches: nat, start: nat)
    requires Accepted(p) && Consistent(p, c.s, c.now) && c.s.failures.Gone?
    requires Batched(p, c, ts, late, carry, batches, start)
    requires forall i :: 0 <= i < |ts| ==> ts[i] <= c.now
    ensures Batched(p, Step(p, c, Failure), ts + [c.now], late + (if c.s.lock.Live? then 1 else 0), carry, batches + 1, c.now)
  {
    LockSecondsBounds(p, ValueOf(c.s.level) + 1);
    if batches > 0 {
      assert (batches - late) * Gap(p) == (batches - 1 - late) * Gap(p) + Gap(p);
      assert batches * p.maxAttempts == (batches - 1) * p.maxAttempts + p.maxAttempts;
    } else {
      MulMonotone(Gap(p), 0, late + 1);
      assert (0 - late) * Gap(p) == 0 - late * Gap(p) && (0 - late - 1) * Gap(p) == 0 - (late + 1) * Gap(p);
    }
  }

  lemma BatchWaits(p: FailurePolicy, c: Clocked, d: nat, ts: seq<nat>, late: nat, carry: nat, batches: nat, start: nat)
    requires Accepted(p) && Consistent(p, c.s, c.now)
    requires Batched(p, c, ts, late, carry, batches, start)
    ensures Batched(p, Step(p, c, Tick(d)), ts, late, carry, batches, start)
  {
    if batches > 0 && c.s.failures.Live? {
      assert batches * p.maxAttempts == (batches - 1) * p.maxAttempts + p.maxAttempts;
    }
  }

  lemma {:induction false} RunBatched(p: FailurePolicy, c: Clocked, es: seq<Event>, carry: nat)
    returns (batches: nat, start: nat)
    requires Accepted(p) && Consistent(p, c.s, c.now) && NoReset(es)
    requires c.s.failures.Gone? || carry == p.maxAttempts
    ensures Batched(p, Run(p, c, es), FailureTimes(p, c, es), Late(p, c, es), carry, batches, start)
    decreases |es|
  {
    if es == [] {
      batches, start := 0, 0;
    } else {
      batches, start := RunBatched(p, c, Init(es), carry);
      var before := Run(p, c, Init(es));
      if Last(es).Failure? {
        var ts, late := FailureTimes(p, c, Init(es)), Late(p, c, Init(es));
        if before.s.failures.Live? {
          BatchContinues(p, before, ts, late, carry, batches, start);
        } else {
          BatchBegins(p, before, ts, late, carry, batches, start);
          batches, start := batches + 1, before.now;
        }
      } else {
        assert Last(es) in es;
        BatchWaits(p, before, Last(es).seconds, FailureTimes(p, c, Init(es)), Late(p, c, Init(es)), carry, batches, start);
      }
    }
  }

  /** A lower bound on how long any list of failures takes, with the failures of an open batch as `carry`. */
  lemma FailuresSpread(p: FailurePolicy, c: Clocked, es: seq<Event>, carry: nat)
    requires Accepted(p) && Consistent(p, c.s, c.now) && NoReset(es)
    requires c.s.failures.Gone? || carry == p.maxAttempts
    ensures var ts := FailureTimes(p, c, es);
            ts != [] ==> |ts| <= carry + p.maxAttempts * ((ts[|ts| - 1] - ts[0]) / Gap(p) + 1 + Late(p, c, es))
  {
    var batches, start := RunBatched(p, c, es, carry);
    var ts := FailureTimes(p, c, es);
    if ts != [] {
      var f := Run(p, c, es).s.failures;
      BatchArithmetic(p.maxAttempts, Gap(p), |ts|, carry, batches, if f.Live? then f.value else p.maxAttempts,
                      Late(p, c, es), ts[|ts| - 1] - ts[0]);
    }
  }

  /**
   * The failure-rate bound. When every failure is recorded while the subject is
   * unlocked, at most `maxAttempts * (T div Gap + 1)` fall within `T` seconds of the
   * first: the (k+1)-th failure cannot come earlier than this allows.
   */
  lemma {:induction false} FailureRateBound(p: FailurePolicy, es: seq<Event>, T: nat, k: nat)
    requires Accepted(p) && NoReset(es) && Late(p, START, es) == 0
    requires k < Failures(es)
    requires FailureTimes(p, START, es)[k] - FailureTimes(p, START, es)[0] <= T
    ensures k + 1 <= p.maxAttempts * (T / Gap(p) + 1)
    decreases |es|
  {
    var ts := FailureTimes(p, START, es);
    if k == |ts| - 1 {
      FailuresSpread(p, START, es, 0);
      WiderSpan(p.maxAttempts, Gap(p), |ts|, Late(p, START, es), ts[k] - ts[0], T);
    } else {
      FailureRateBound(p, Init(es), T, k);
    }
  }

  lemma WiderSpan(m: int, gap: int, n: int, late: int, span: int, T: int)
    requires m > 0 && gap > 0 && 0 <= span <= T && late == 0
    requires n <= 0 + m * (span / gap + 1 + late)
    ensures n <= m * (T / gap + 1)
  {
    StepsFit(span / gap, gap, T);
    MulMonotone(m, span / gap + 1, T / gap + 1);
  }

  /** The same over any window of a run, from whatever state it opens in: a batch already open adds at most `maxAttempts`. */
  lemma SlidingWindowBound(p: FailurePolicy, c: Clocked, window: seq<Event>)
    requires Accepted(p) && Consistent(p, c.s, c.now) && NoReset(window)
    requires Late(p, c, window) == 0 && Failures(window) > 0
    ensures var ts := FailureTimes(p, c, window);
            |ts| <= p.maxAttempts * ((ts[|ts| - 1] - ts[0]) / Gap(p) + 2)
  {
    FailuresSpread(p, c, window, p.maxAttempts);
    var ts := FailureTimes(p, c, window);
    OneMore(|ts|, p.maxAttempts, (ts[|ts| - 1] - ts[0]) / Gap(p), Late(p, c, window));
  }

  lemma OneMore(n: int, m: int, q: int, late: int)
    requires n <= m + m * (q + 1 + late) && late == 0
    ensures n <= m * (q + 2)
  {
    assert m + m * (q + 1) == m * (q + 2);
  }
}
