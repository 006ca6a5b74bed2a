/**
 * A good sign-in that ends while its account is locked: it forgets the escalation, so that a
 * failure recorded next can shorten the lock (nftopia-backend/src/auth/auth.service.ts).
 */
module LoginResets {
  import opened Common
  import opened LoginAttempts
  import opened LoginRuns
  import opened LoginLocks
  import opened LoginLockout
  import opened LoginOverlap

  // ----- One subject -----

  function Begins(n: nat): seq<AttemptEvent> {
    seq(n, _ => Begin)
  }

  function Failed(n: nat): seq<AttemptEvent> {
    seq(n, _ => Fails)
  }

  lemma {:induction false} DriveBegins(p: FailurePolicy, width: nat, n: nat)
    requires Accepted(p) && n <= width
    ensures Drive(p, width, Begins(n)) == Attempts([], n)
    decreases n
  {
    if n > 0 {
      DriveBegins(p, width, n - 1);
      assert Begins(n) == Begins(n - 1) + [Begin];
      DrivePlusOne(p, width, Begins(n - 1), Begin);
    }
  }

  lemma OneMoreFailed(moves: seq<AttemptEvent>, n: nat)
    requires n > 0
    ensures moves + Failed(n) == moves + Failed(n - 1) + [Fails]
  {
  }

  lemma {:induction false} DriveFailed(p: FailurePolicy, width: nat, moves: seq<AttemptEvent>, a: Attempts, n: nat)
    requires Accepted(p) && a == Drive(p, width, moves) && n <= a.inFlight
    ensures Drive(p, width, moves + Failed(n)) == Attempts(a.trace + Repeat(n), a.inFlight - n)
    decreases n
  {
    if n == 0 {
      assert moves + Failed(0) == moves && a.trace + Repeat(0) == a.trace;
    } else {
      DriveFailed(p, width, moves, a, n - 1);
      OneMoreFailed(moves, n);
      DrivePlusOne(p, width, moves + Failed(n - 1), Fails);
      assert a.trace + Repeat(n) == a.trace + Repeat(n - 1) + [Failure];
    }
  }

  function MovesUnderLock(m: nat): seq<AttemptEvent>
    requires m > 0
  {
    Begins(3 * m + 1) + Failed(2 * m) + [Succeeds] + Failed(m - 1)
  }

  lemma RecordedUnderLock(p: FailurePolicy, width: nat)
    requires Accepted(p) && width >= 3 * p.maxAttempts + 1
    ensures Drive(p, width, MovesUnderLock(p.maxAttempts)).trace == ResetUnderLock(p)
  {
    var m := p.maxAttempts;
    var begun := Begins(3 * m + 1);
    var locked := begun + Failed(2 * m);
    DriveBegins(p, width, 3 * m + 1);
    DriveFailed(p, width, begun, Attempts([], 3 * m + 1), 2 * m);
    assert Drive(p, width, locked) == Attempts(Repeat(2 * m), m + 1) by {
      assert [] + Repeat(2 * m) == Repeat(2 * m);
    }
    SucceedsThenFails(p, width, locked, Attempts(Repeat(2 * m), m + 1), m - 1);
  }

  lemma SucceedsThenFails(p: FailurePolicy, width: nat, moves: seq<AttemptEvent>, a: Attempts, n: nat)
    requires Accepted(p) && a == Drive(p, width, moves) && n < a.inFlight
    ensures Drive(p, width, moves + [Succeeds] + Failed(n)).trace == a.trace + [Reset] + Repeat(n)
  {
    DrivePlusOne(p, width, moves, Succeeds);
    DriveFailed(p, width, moves + [Succeeds], Attempts(a.trace + [Reset], a.inFlight - 1), n);
  }

  // ----- The service -----

  /** Sign-ins `first`, ..., `n - 1` to one account, from no known address, wait for their password checks. */
  ghost predicate Waiting(s: Service, ref: string, first: nat, n: nat, moves: seq<AttemptEvent>) {
    && (forall id :: (id in s.tasks <==> first <= id < n) && (id in s.tasks ==> s.tasks[id] == SignInTask(ref, None, false)))
    && s.moves(Account(ref)) == moves
  }

  lemma ServePlusOne(p: LockoutPolicy, width: nat, es: seq<ServiceEvent>, e: ServiceEvent)
    requires Usable(p)
    ensures Serve(p, width, es + [e]) == LoginOverlap.Step(p, width, Serve(p, width, es), e)
  {
    assert (es + [e])[..|es + [e]| - 1] == es;
  }

  /** One more sign-in is admitted while nobody has failed and there is room. */
  lemma OneArrives(p: LockoutPolicy, width: nat, s: Service, ref: string, n: nat)
    requires Usable(p) && n < width && Waiting(s, ref, 0, n, Begins(n)) && s.nextId == n && Tracks(p, width, s, Account(ref))
    ensures var s' := LoginOverlap.Step(p, width, s, Arrive(ref, None)); Waiting(s', ref, 0, n + 1, Begins(n + 1)) && s'.nextId == n + 1
  {
    AllHold(p, s, ref, n);
    DriveBegins(p.account, width, n);
    assert !LockedNow(p, width, s, Account(ref));
    assert Begins(n + 1) == Begins(n) + [Begin];
  }

  lemma AllHold(p: LockoutPolicy, s: Service, ref: string, n: nat)
    requires Waiting(s, ref, 0, n, Begins(n))
    ensures Holding(p, s.tasks, Account(ref)) == s.tasks.Keys
  {
  }

  lemma {:induction false} Arrivals(p: LockoutPolicy, width: nat, ref: string, n: nat) returns (es: seq<ServiceEvent>, s: Service)
    requires Usable(p) && n <= width
    ensures s == Serve(p, width, es) && Waiting(s, ref, 0, n, Begins(n)) && s.nextId == n
    decreases n
  {
    if n == 0 {
      es, s := [], QUIET;
    } else {
      var before, waiting := Arrivals(p, width, ref, n - 1);
      AlwaysTracks(p, width, before, Account(ref));
      OneArrives(p, width, waiting, ref, n - 1);
      ServePlusOne(p, width, before, Arrive(ref, None));
      es, s := before + [Arrive(ref, None)], LoginOverlap.Step(p, width, waiting, Arrive(ref, None));
    }
  }

  lemma FirstFails(p: LockoutPolicy, width: nat, s: Service, ref: string, first: nat, n: nat, moves: seq<AttemptEvent>)
    requires Usable(p) && first < n && Waiting(s, ref, first, n, moves)
    ensures Waiting(LoginOverlap.Step(p, width, s, RecordAccount(first)), ref, first + 1, n, moves + [Fails])
  {
  }

  lemma FirstSucceeds(p: LockoutPolicy, width: nat, s: Service, ref: string, first: nat, n: nat, moves: seq<AttemptEvent>)
    requires Usable(p) && first < n && Waiting(s, ref, first, n, moves)
    ensures Waiting(LoginOverlap.Step(p, width, s, Succeed(first)), ref, first + 1, n, moves + [Succeeds])
  {
  }

  lemma {:induction false} SomeFail(p: LockoutPolicy, width: nat, es: seq<ServiceEvent>, s: Service, ref: string, first: nat, n: nat,
                                    moves: seq<AttemptEvent>, k: nat)
    returns (more: seq<ServiceEvent>, s': Service)
    requires Usable(p) && first + k <= n && s == Serve(p, width, es) && Waiting(s, ref, first, n, moves)
    ensures s' == Serve(p, width, more) && Waiting(s', ref, first + k, n, moves + Failed(k))
    decreases k
  {
    if k == 0 {
      more, s' := es, s;
      assert moves + Failed(0) == moves;
    } else {
      var before, waiting := SomeFail(p, width, es, s, ref, first, n, moves, k - 1);
      FirstFails(p, width, waiting, ref, first + k - 1, n, moves + Failed(k - 1));
      OneMoreFailed(moves, k);
      ServePlusOne(p, width, before, RecordAccount(first + k - 1));
      more, s' := before + [RecordAccount(first + k - 1)], LoginOverlap.Step(p, width, waiting, RecordAccount(first + k - 1));
    }
  }

  /** The account is locked, and one more recorded failure would let the lock end sooner. */
  ghost predicate NextFailureShortens(p: FailurePolicy, trace: seq<Event>)
    requires Accepted(p)
  {
    Run(p, START, trace).s.lock.Live? && !FailureExtends(p, Run(p, START, trace))
  }

  /**
   * With enough sign-ins to one account in flight at once, a good one can end after the account has
   * been locked: it forgets the level, and where the first lock is below the cap the next failure,
   * which waits to be recorded, then shortens the lock in force.
   */
  lemma GoodSignInShortensLock(p: LockoutPolicy, width: nat, ref: string) returns (es: seq<ServiceEvent>, id: nat)
    requires Usable(p) && p.account.baseLockSeconds < p.account.maxLockSeconds && width >= 3 * p.account.maxAttempts + 1
    ensures NextFailureShortens(p.account, Recorded(p, width, Serve(p, width, es), Account(ref)))
    ensures id in Serve(p, width, es).tasks && Serve(p, width, es).tasks[id] == SignInTask(ref, None, false)
  {
    var m := p.account.maxAttempts;
    var locked, s := SignInsLock(p, width, ref, 3 * m + 1, 2 * m);
    var s': Service;
    es, s' := OneSucceedsThenSomeFail(p, width, locked, s, ref, 2 * m, 3 * m + 1, Begins(3 * m + 1) + Failed(2 * m), m - 1);
    id := 3 * m;
    assert Waiting(s', ref, id, id + 1, MovesUnderLock(m));
    MovesShorten(p, width, s', ref);
  }

  /** `n` sign-ins arrive and the first `k` of them fail. */
  lemma SignInsLock(p: LockoutPolicy, width: nat, ref: string, n: nat, k: nat) returns (es: seq<ServiceEvent>, s: Service)
    requires Usable(p) && k <= n <= width
    ensures s == Serve(p, width, es) && Waiting(s, ref, k, n, Begins(n) + Failed(k))
  {
    var arrived, waiting := Arrivals(p, width, ref, n);
    es, s := SomeFail(p, width, arrived, waiting, ref, 0, n, Begins(n), k);
  }

  lemma OneSucceedsThenSomeFail(p: LockoutPolicy, width: nat, es: seq<ServiceEvent>, s: Service, ref: string, first: nat, n: nat,
                                moves: seq<AttemptEvent>, k: nat)
    returns (more: seq<ServiceEvent>, s': Service)
    requires Usable(p) && first + 1 + k <= n && s == Serve(p, width, es) && Waiting(s, ref, first, n, moves)
    ensures s' == Serve(p, width, more) && Waiting(s', ref, first + 1 + k, n, moves + [Succeeds] + Failed(k))
  {
    FirstSucceeds(p, width, s, ref, first, n, moves);
    ServePlusOne(p, width, es, Succeed(first));
    more, s' := SomeFail(p, width, es + [Succeed(first)], LoginOverlap.Step(p, width, s, Succeed(first)), ref, first + 1, n,
                         moves + [Succeeds], k);
  }

  lemma MovesShorten(p: LockoutPolicy, width: nat, s: Service, ref: string)
    requires Usable(p) && p.account.baseLockSeconds < p.account.maxLockSeconds && width >= 3 * p.account.maxAttempts + 1
    requires s.moves(Account(ref)) == MovesUnderLock(p.account.maxAttempts)
    ensures NextFailureShortens(p.account, Recorded(p, width, s, Account(ref)))
  {
    RecordedUnderLock(p.account, width);
    ResetShortens(p.account);
  }
}
