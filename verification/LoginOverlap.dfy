/**
 * Sign-ins that overlap: the lock check, the password check and the records of a failure are
 * separate awaits, so other sign-ins to the same account or from the same address run in between
 * (nftopia-backend/src/auth/auth.service.ts and nftopia-backend/src/auth/login-lockout.service.ts).
 */
module LoginOverlap {
  import opened Common
  import opened LoginAttempts
  import opened LoginRuns
  import opened LoginLocks
  import opened LoginLockout

  // ----- Overlap and lateness for one subject -----

  lemma DrivePlusOne(p: FailurePolicy, width: nat, es: seq<AttemptEvent>, e: AttemptEvent)
    requires Accepted(p)
    ensures Drive(p, width, es + [e]) == DriveOne(p, width, Drive(p, width, es), e)
  {
    assert (es + [e])[..|es + [e]| - 1] == es;
  }

  /** `n` attempts one after another, each failing. */
  function Singles(n: nat): (es: seq<AttemptEvent>)
    ensures Succeeds !in es
  {
    if n == 0 then [] else Singles(n - 1) + [Begin] + [Fails]
  }

  lemma {:induction false} SinglesOnlyCount(p: FailurePolicy, width: nat, n: nat)
    requires Accepted(p) && width >= 1 && n < p.maxAttempts
    ensures Drive(p, width, Singles(n)) == Attempts(Repeat(n), 0)
    decreases n
  {
    if n > 0 {
      SinglesOnlyCount(p, width, n - 1);
      ShortBurst(p, START, n - 1);
      OneSingle(p, width, Singles(n - 1), Repeat(n - 1));
      assert Repeat(n) == Repeat(n - 1) + [Failure];
    }
  }

  lemma OneSingle(p: FailurePolicy, width: nat, es: seq<AttemptEvent>, trace: seq<Event>)
    requires Accepted(p) && width >= 1 && Drive(p, width, es) == Attempts(trace, 0) && Run(p, START, trace).s.lock.Gone?
    ensures Drive(p, width, es + [Begin] + [Fails]) == Attempts(trace + [Failure], 0)
  {
    DrivePlusOne(p, width, es, Begin);
    DrivePlusOne(p, width, es + [Begin], Fails);
  }

  /** One attempt short of the threshold, two begin together: the first to fail locks, the second fails under the lock. */
  lemma TwoTogether(p: FailurePolicy, width: nat) returns (es: seq<AttemptEvent>)
    requires Accepted(p) && width >= 2
    ensures Succeeds !in es && Late(p, START, Drive(p, width, es).trace) > 0
  {
    var n := p.maxAttempts - 1;
    SinglesOnlyCount(p, width, n);
    ShortBurst(p, START, n);
    es := Singles(n);
    DrivePlusOne(p, width, es, Begin);
    DrivePlusOne(p, width, es + [Begin], Begin);
    assert Drive(p, width, es + [Begin] + [Begin]) == Attempts(Repeat(n), 2);
    DrivePlusOne(p, width, es + [Begin] + [Begin], Fails);
    DrivePlusOne(p, width, es + [Begin] + [Begin] + [Fails], Fails);
    RunPlusOne(p, START, Repeat(n), Failure);
    RunPlusOne(p, START, Repeat(n) + [Failure], Failure);
    es := es + [Begin] + [Begin] + [Fails] + [Fails];
  }

  /** In all runs, failures are never recorded under a lock exactly when sign-ins do not overlap. */
  lemma NeverLateIff(p: FailurePolicy, width: nat)
    requires Accepted(p)
    ensures (forall es :: Late(p, START, Drive(p, width, es).trace) == 0) <==> width <= 1
  {
    if width <= 1 {
      forall es ensures Late(p, START, Drive(p, width, es).trace) == 0 {
        NoOverlapNeverLate(p, width, es);
      }
    } else {
      var es := TwoTogether(p, width);
    }
  }

  /** No failure has been late, and none can be: under a lock nothing is in flight. */
  ghost predicate InTime(p: FailurePolicy, width: nat, a: Attempts)
    requires Accepted(p)
  {
    a.inFlight <= width && Late(p, START, a.trace) == 0 && (Run(p, START, a.trace).s.lock.Live? ==> a.inFlight == 0)
  }

  lemma OneInTime(p: FailurePolicy, width: nat, a: Attempts, e: AttemptEvent)
    requires Accepted(p) && width <= 1 && InTime(p, width, a)
    ensures InTime(p, width, DriveOne(p, width, a, e))
  {
    match e {
      case Begin =>
      case Ends =>
        assert a.trace + [] == a.trace;
      case Fails => RunPlusOne(p, START, a.trace, Failure);
      case Succeeds => RunPlusOne(p, START, a.trace, Reset);
      case Wait(d) => RunPlusOne(p, START, a.trace, Tick(d));
    }
  }

  lemma {:induction false} NoOverlapNeverLate(p: FailurePolicy, width: nat, es: seq<AttemptEvent>)
    requires Accepted(p) && width <= 1
    ensures InTime(p, width, Drive(p, width, es))
    decreases |es|
  {
    if es != [] {
      NoOverlapNeverLate(p, width, es[..|es| - 1]);
      OneInTime(p, width, Drive(p, width, es[..|es| - 1]), es[|es| - 1]);
    }
  }

  // ----- The whole service -----

  /** An admitted sign-in; a failure is recorded against the account first, then against the address. */
  datatype SignInTask = SignInTask(ref: string, ip: Option<string>, accountRecorded: bool)

  /** `moves` is what each subject sees of the sign-ins that check it. */
  datatype Service = Service(tasks: map<nat, SignInTask>, nextId: nat, moves: Who -> seq<AttemptEvent>)

  const QUIET := Service(map[], 0, w => [])

  datatype ServiceEvent =
    | Arrive(ref: string, ip: Option<string>)
    | RecordAccount(id: nat)
    | RecordSource(id: nat)
    | Succeed(id: nat)
    | Abort(id: nat)
    | Elapse(seconds: nat)

  /** The sign-in has still to end for this subject. */
  predicate Holds(p: LockoutPolicy, t: SignInTask, w: Who) {
    if w.Account? then w.ref == t.ref && !t.accountRecorded else Counted(p, t.ip) && w.ip == t.ip.value
  }

  predicate LockedNow(p: LockoutPolicy, width: nat, s: Service, w: Who)
    requires Usable(p)
  {
    Run(PolicyFor(p, w), START, Drive(PolicyFor(p, w), width, s.moves(w)).trace).s.lock.Live?
  }

  /** What an event is for one subject. */
  function Move(p: LockoutPolicy, width: nat, s: Service, e: ServiceEvent, w: Who): Option<AttemptEvent>
    requires Usable(p)
  {
    match e
    case Arrive(ref, ip) => if Admitted(p, width, s, ref, ip) && w in Checked(p, ref, ip) then Some(Begin) else None
    case RecordAccount(id) => if id in s.tasks && !s.tasks[id].accountRecorded && w == Account(s.tasks[id].ref) then Some(Fails) else None
    case RecordSource(id) => if id in s.tasks && s.tasks[id].accountRecorded && Holds(p, s.tasks[id], w) then Some(Fails) else None
    case Succeed(id) =>
      if id in s.tasks && !s.tasks[id].accountRecorded && Holds(p, s.tasks[id], w) then Some(if w.Account? then Succeeds else Ends) else None
    case Abort(id) => if id in s.tasks && Holds(p, s.tasks[id], w) then Some(Ends) else None
    case Elapse(d) => Some(LoginLocks.AttemptEvent.Wait(d))
  }

  predicate Admitted(p: LockoutPolicy, width: nat, s: Service, ref: string, ip: Option<string>)
    requires Usable(p)
  {
    |s.tasks.Keys| < width && forall w :: w in Checked(p, ref, ip) ==> !LockedNow(p, width, s, w)
  }

  function TasksAfter(p: LockoutPolicy, width: nat, s: Service, e: ServiceEvent): map<nat, SignInTask>
    requires Usable(p)
  {
    match e
    case Arrive(ref, ip) => if Admitted(p, width, s, ref, ip) then s.tasks[s.nextId := SignInTask(ref, ip, false)] else s.tasks
    case RecordAccount(id) =>
      if id !in s.tasks || s.tasks[id].accountRecorded then s.tasks
      else if Counted(p, s.tasks[id].ip) then s.tasks[id := s.tasks[id].(accountRecorded := true)]
      else s.tasks - {id}
    case RecordSource(id) => if id in s.tasks && s.tasks[id].accountRecorded then s.tasks - {id} else s.tasks
    case Succeed(id) => if id in s.tasks && !s.tasks[id].accountRecorded then s.tasks - {id} else s.tasks
    case Abort(id) => s.tasks - {id}
    case Elapse(_) => s.tasks
  }

  function Step(p: LockoutPolicy, width: nat, s: Service, e: ServiceEvent): Service
    requires Usable(p)
  {
    Service(TasksAfter(p, width, s, e), s.nextId + 1,
            w => match Move(p, width, s, e, w) case Some(m) => s.moves(w) + [m] case None => s.moves(w))
  }

  function Serve(p: LockoutPolicy, width: nat, es: seq<ServiceEvent>): Service
    requires Usable(p)
  {
    if es == [] then QUIET else Step(p, width, Serve(p, width, es[..|es| - 1]), es[|es| - 1])
  }

  // ----- Each subject sees attempts of its own kind -----

  function Holding(p: LockoutPolicy, tasks: map<nat, SignInTask>, w: Who): set<nat> {
    Picked(tasks, HoldsFor(p, w))
  }

  function HoldsFor(p: LockoutPolicy, w: Who): SignInTask -> bool {
    (t: SignInTask) => Holds(p, t, w)
  }

  function Picked<T>(m: map<nat, T>, f: T -> bool): set<nat> {
    set id | id in m && f(m[id])
  }

  lemma PickedOneMore<T>(m: map<nat, T>, id: nat, t: T, f: T -> bool)
    requires id !in m
    ensures |Picked(m[id := t], f)| == |Picked(m, f)| + (if f(t) then 1 else 0)
    ensures |m[id := t].Keys| == |m.Keys| + 1
  {
    assert Picked(m[id := t], f) == Picked(m, f) + (if f(t) then {id} else {});
    assert m[id := t].Keys == m.Keys + {id};
  }

  lemma PickedOneLess<T>(m: map<nat, T>, id: nat, f: T -> bool)
    requires id in m
    ensures |Picked(m - {id}, f)| == |Picked(m, f)| - (if f(m[id]) then 1 else 0)
    ensures |(m - {id}).Keys| == |m.Keys| - 1
    ensures f(m[id]) ==> |Picked(m, f)| > 0
  {
    assert Picked(m - {id}, f) == Picked(m, f) - {id};
    assert (m - {id}).Keys == m.Keys - {id};
  }

  /** The attempts a subject counts as in flight are the sign-ins that have still to end for it, and there are never more than `width`. */
  ghost predicate Tracks(p: LockoutPolicy, width: nat, s: Service, w: Who)
    requires Usable(p)
  {
    && FreshAndFew(width, s.tasks, s.nextId)
    && Drive(PolicyFor(p, w), width, s.moves(w)).inFlight == |Holding(p, s.tasks, w)|
  }

  ghost predicate FreshAndFew(width: nat, tasks: map<nat, SignInTask>, nextId: nat) {
    (forall id :: id in tasks ==> id < nextId) && |tasks.Keys| <= width
  }

  /** How a move changes the attempts in flight. */
  function Delta(m: Option<AttemptEvent>): int {
    if m.None? || m.value.Wait? then 0 else if m.value.Begin? then 1 else -1
  }

  lemma DriveMoves(p: FailurePolicy, width: nat, moves: seq<AttemptEvent>, m: AttemptEvent)
    requires Accepted(p)
    requires var a := Drive(p, width, moves);
             && a.inFlight + Delta(Some(m)) >= 0
             && (m.Begin? ==> Run(p, START, a.trace).s.lock.Gone? && a.inFlight < width)
    ensures Drive(p, width, moves + [m]).inFlight == Drive(p, width, moves).inFlight + Delta(Some(m))
    ensures m.Fails? ==> Drive(p, width, moves + [m]).trace == Drive(p, width, moves).trace + [Failure]
  {
    DrivePlusOne(p, width, moves, m);
  }

  lemma SubsetSize<T>(a: set<T>, b: set<T>)
    requires a <= b
    ensures |a| <= |b|
  {
    assert b == a + (b - a);
  }

  lemma HoldingFewer(p: LockoutPolicy, tasks: map<nat, SignInTask>, id: nat, w: Who)
    requires id in tasks
    ensures |Holding(p, tasks - {id}, w)| == |Holding(p, tasks, w)| - (if Holds(p, tasks[id], w) then 1 else 0)
    ensures |(tasks - {id}).Keys| == |tasks.Keys| - 1
    ensures Holds(p, tasks[id], w) ==> |Holding(p, tasks, w)| > 0
  {
    PickedOneLess(tasks, id, HoldsFor(p, w));
  }

  lemma HoldingOneMore(p: LockoutPolicy, tasks: map<nat, SignInTask>, id: nat, t: SignInTask, w: Who)
    requires id !in tasks
    ensures |Holding(p, tasks[id := t], w)| == |Holding(p, tasks, w)| + (if Holds(p, t, w) then 1 else 0)
    ensures |tasks[id := t].Keys| == |tasks.Keys| + 1
  {
    PickedOneMore(tasks, id, t, HoldsFor(p, w));
  }

  lemma HoldingChanged(p: LockoutPolicy, tasks: map<nat, SignInTask>, id: nat, w: Who)
    requires id in tasks && !tasks[id].accountRecorded
    ensures var tasks' := tasks[id := tasks[id].(accountRecorded := true)];
            && tasks'.Keys == tasks.Keys
            && |Holding(p, tasks', w)| == |Holding(p, tasks, w)| - (if w == Account(tasks[id].ref) then 1 else 0)
  {
    var tasks' := tasks[id := tasks[id].(accountRecorded := true)];
    if w == Account(tasks[id].ref) {
      assert id in Holding(p, tasks, w);
      assert Holding(p, tasks', w) == Holding(p, tasks, w) - {id};
    } else {
      assert Holding(p, tasks', w) == Holding(p, tasks, w);
    }
  }

  lemma ArrivalMoves(p: LockoutPolicy, width: nat, s: Service, ref: string, ip: Option<string>, w: Who)
    requires Usable(p) && FreshAndFew(width, s.tasks, s.nextId)
    ensures TasksMoved(p, width, s, Arrive(ref, ip), w)
  {
    if Admitted(p, width, s, ref, ip) {
      HoldingOneMore(p, s.tasks, s.nextId, SignInTask(ref, ip, false), w);
    }
  }

  lemma AccountMoves(p: LockoutPolicy, width: nat, s: Service, id: nat, w: Who)
    requires Usable(p) && FreshAndFew(width, s.tasks, s.nextId)
    ensures TasksMoved(p, width, s, RecordAccount(id), w)
  {
    if id in s.tasks && !s.tasks[id].accountRecorded {
      if Counted(p, s.tasks[id].ip) {
        HoldingChanged(p, s.tasks, id, w);
      } else {
        HoldingFewer(p, s.tasks, id, w);
      }
    }
  }

  /** The sign-in ends for every subject it still had to end for. */
  lemma TaskEnds(p: LockoutPolicy, width: nat, s: Service, e: ServiceEvent, id: nat, w: Who)
    requires Usable(p) && FreshAndFew(width, s.tasks, s.nextId) && id in s.tasks && TasksAfter(p, width, s, e) == s.tasks - {id}
    requires Delta(Move(p, width, s, e, w)) == (if Holds(p, s.tasks[id], w) then -1 else 0)
    ensures TasksMoved(p, width, s, e, w)
  {
    HoldingFewer(p, s.tasks, id, w);
  }

  lemma NothingEnds(p: LockoutPolicy, width: nat, s: Service, e: ServiceEvent, w: Who)
    requires Usable(p) && FreshAndFew(width, s.tasks, s.nextId) && TasksAfter(p, width, s, e) == s.tasks
    requires Delta(Move(p, width, s, e, w)) == 0
    ensures TasksMoved(p, width, s, e, w)
  {
  }

  lemma EndMoves(p: LockoutPolicy, width: nat, s: Service, e: ServiceEvent, w: Who)
    requires Usable(p) && FreshAndFew(width, s.tasks, s.nextId) && (e.RecordSource? || e.Succeed? || e.Abort?)
    ensures TasksMoved(p, width, s, e, w)
  {
    var ends := e.id in s.tasks && (e.RecordSource? ==> s.tasks[e.id].accountRecorded) && (e.Succeed? ==> !s.tasks[e.id].accountRecorded);
    if ends {
      TaskEnds(p, width, s, e, e.id, w);
    } else {
      assert e.id !in s.tasks ==> s.tasks - {e.id} == s.tasks;
      NothingEnds(p, width, s, e, w);
    }
  }

  /** What an event does to the sign-ins in flight for a subject is what the subject's move says. */
  ghost predicate TasksMoved(p: LockoutPolicy, width: nat, s: Service, e: ServiceEvent, w: Who)
    requires Usable(p)
  {
    var tasks := TasksAfter(p, width, s, e);
    && FreshAndFew(width, tasks, s.nextId + 1)
    && |Holding(p, tasks, w)| == |Holding(p, s.tasks, w)| + Delta(Move(p, width, s, e, w))
  }

  lemma BeginMeansAdmitted(p: LockoutPolicy, width: nat, s: Service, e: ServiceEvent, w: Who)
    requires Usable(p) && Move(p, width, s, e, w) == Some(Begin)
    ensures !LockedNow(p, width, s, w) && |Holding(p, s.tasks, w)| < width
  {
    SubsetSize(Holding(p, s.tasks, w), s.tasks.Keys);
  }

  lemma StepTracks(p: LockoutPolicy, width: nat, s: Service, e: ServiceEvent, w: Who)
    requires Usable(p) && Tracks(p, width, s, w)
    ensures Tracks(p, width, Step(p, width, s, e), w)
  {
    match e {
      case Arrive(ref, ip) => ArrivalMoves(p, width, s, ref, ip, w);
      case RecordAccount(id) => AccountMoves(p, width, s, id, w);
      case Elapse(_) =>
      case _ => EndMoves(p, width, s, e, w);
    }
    MovesTracked(p, width, s, e, w);
  }

  lemma MovesTracked(p: LockoutPolicy, width: nat, s: Service, e: ServiceEvent, w: Who)
    requires Usable(p) && Tracks(p, width, s, w) && TasksMoved(p, width, s, e, w)
    ensures Tracks(p, width, Step(p, width, s, e), w)
  {
    var m := Move(p, width, s, e, w);
    if m.Some? {
      if m.value.Begin? {
        BeginMeansAdmitted(p, width, s, e, w);
      }
      DriveMoves(PolicyFor(p, w), width, s.moves(w), m.value);
    }
  }

  lemma {:induction false} AlwaysTracks(p: LockoutPolicy, width: nat, es: seq<ServiceEvent>, w: Who)
    requires Usable(p)
    ensures Tracks(p, width, Serve(p, width, es), w)
    decreases |es|
  {
    if es == [] {
      assert Holding(p, map[], w) == {};
    } else {
      AlwaysTracks(p, width, es[..|es| - 1], w);
      StepTracks(p, width, Serve(p, width, es[..|es| - 1]), es[|es| - 1], w);
    }
  }

  lemma OnlyAccountsAreReset(p: LockoutPolicy, width: nat, s: Service, e: ServiceEvent, w: Who)
    requires Usable(p) && w.Source?
    ensures Move(p, width, s, e, w) != Some(Succeeds)
  {
  }

  /** An address is never reset. */
  lemma {:induction false} SourceNeverReset(p: LockoutPolicy, width: nat, es: seq<ServiceEvent>, w: Who)
    requires Usable(p) && w.Source?
    ensures Succeeds !in Serve(p, width, es).moves(w)
    decreases |es|
  {
    if es != [] {
      SourceNeverReset(p, width, es[..|es| - 1], w);
      OnlyAccountsAreReset(p, width, Serve(p, width, es[..|es| - 1]), es[|es| - 1], w);
    }
  }

  /** The failures a subject has recorded. */
  function Recorded(p: LockoutPolicy, width: nat, s: Service, w: Who): seq<Event>
    requires Usable(p)
  {
    Drive(PolicyFor(p, w), width, s.moves(w)).trace
  }

  /** A failed sign-in is counted against every subject it checked, whichever sign-ins came and went meanwhile. */
  lemma FailuresAreCounted(p: LockoutPolicy, width: nat, es: seq<ServiceEvent>, id: nat, w: Who)
    requires Usable(p)
    requires var s := Serve(p, width, es);
             id in s.tasks && Holds(p, s.tasks[id], w) && (w.Source? <==> s.tasks[id].accountRecorded)
    ensures var s := Serve(p, width, es);
            Recorded(p, width, Step(p, width, s, if w.Account? then RecordAccount(id) else RecordSource(id)), w)
            == Recorded(p, width, s, w) + [Failure]
  {
    AlwaysTracks(p, width, es, w);
    FailureIsCounted(p, width, Serve(p, width, es), id, w);
  }

  lemma FailureIsCounted(p: LockoutPolicy, width: nat, s: Service, id: nat, w: Who)
    requires Usable(p) && Tracks(p, width, s, w)
    requires id in s.tasks && Holds(p, s.tasks[id], w) && (w.Source? <==> s.tasks[id].accountRecorded)
    ensures Recorded(p, width, Step(p, width, s, if w.Account? then RecordAccount(id) else RecordSource(id)), w)
            == Recorded(p, width, s, w) + [Failure]
  {
    HoldingFewer(p, s.tasks, id, w);
    DriveMoves(PolicyFor(p, w), width, s.moves(w), Fails);
  }

  /** At most `maxAttempts * width * (T div gap + 1)` failures span `T` seconds. */
  ghost predicate WithinRate(p: FailurePolicy, width: nat, trace: seq<Event>)
    requires Accepted(p)
  {
    var ts := FailureTimes(p, START, trace);
    ts != [] ==> |ts| <= p.maxAttempts * (width * ((ts[|ts| - 1] - ts[0]) / Gap(p) + 1))
  }

  /**
   * The failure-rate bound of the service with sign-ins that overlap. However many addresses and
   * accounts take part, with at most `width` sign-ins in flight at once, an account without a good
   * sign-in to it, and every address, records at most `maxAttempts * width * (T div gap + 1)`
   * failures in `T` seconds.
   */
  lemma OverlappingServiceRateBound(p: LockoutPolicy, width: nat, es: seq<ServiceEvent>, w: Who)
    requires Usable(p) && width >= 1
    requires w.Account? ==> Succeeds !in Serve(p, width, es).moves(w)
    ensures WithinRate(PolicyFor(p, w), width, Recorded(p, width, Serve(p, width, es), w))
  {
    if w.Source? {
      SourceNeverReset(p, width, es, w);
    }
    MovesWithinRate(PolicyFor(p, w), width, Serve(p, width, es).moves(w));
  }

  lemma MovesWithinRate(p: FailurePolicy, width: nat, moves: seq<AttemptEvent>)
    requires Accepted(p) && width >= 1 && Succeeds !in moves
    ensures WithinRate(p, width, Drive(p, width, moves).trace)
  {
    OverlappingRateBound(p, width, moves);
  }
}
