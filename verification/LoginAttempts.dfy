/**
 * Failed-login counters and escalating locks, one group of three expiring keys
 * per subject (nftopia-backend/src/auth/login-attempt.store.ts).
 */
module LoginAttempts {
  import opened Common
  import opened RedisModel

  datatype FailurePolicy = FailurePolicy(
    maxAttempts: int,
    windowSeconds: int,
    baseLockSeconds: int,
    maxLockSeconds: int,
    levelTtlSeconds: int)

  /** The positivity checks made before the script is sent. */
  predicate Accepted(p: FailurePolicy) {
    && p.maxAttempts > 0
    && p.windowSeconds > 0
    && p.baseLockSeconds > 0
    && p.maxLockSeconds > 0
    && p.levelTtlSeconds > 0
  }

  datatype FailureResult = FailureResult(failures: int, lockedSeconds: int, level: int)

  // ----- What one subject's three keys say at an instant -----

  datatype Cell = Gone | Live(value: int, until: nat)

  datatype Subject = Subject(failures: Cell, lock: Cell, level: Cell)

  const FRESH := Subject(Gone, Gone, Gone)

  function ValueOf(c: Cell): int {
    if c.Live? then c.value else 0
  }

  /** Seconds until the lock ends; 0 when there is none. */
  function Remaining(s: Subject, now: nat): int {
    if s.lock.Live? then Max(0, s.lock.until - now) else 0
  }

  /** Length of the lock set at escalation level `level`. */
  function LockSeconds(p: FailurePolicy, level: nat): int
    requires level >= 1
  {
    Min(p.baseLockSeconds * Pow2(level - 1), p.maxLockSeconds)
  }

  lemma LockSecondsBounds(p: FailurePolicy, level: nat)
    requires Accepted(p) && level >= 1
    ensures 1 <= Min(p.baseLockSeconds, p.maxLockSeconds) <= LockSeconds(p, level) <= p.maxLockSeconds
  {
    Pow2Monotone(0, level - 1);
    MulMonotone(p.baseLockSeconds, 1, Pow2(level - 1));
  }

  /** A subject's keys hold positive numbers, the counter is below the threshold, nothing is overdue. */
  ghost predicate Consistent(p: FailurePolicy, s: Subject, now: nat) {
    && (s.failures.Live? ==> 1 <= s.failures.value < p.maxAttempts && now < s.failures.until)
    && (s.lock.Live? ==> 1 <= s.lock.value && now < s.lock.until)
    && (s.level.Live? ==> 1 <= s.level.value && now < s.level.until)
  }

  /** The effect of one recorded failure on a subject. */
  function Fail(p: FailurePolicy, s: Subject, now: nat): (Subject, FailureResult)
    requires Accepted(p) && ValueOf(s.level) >= 0
  {
    var failures := ValueOf(s.failures) + 1;
    if failures < p.maxAttempts then
      var until := if s.failures.Live? then s.failures.until else now + p.windowSeconds;
      (s.(failures := Live(failures, until)), FailureResult(failures, 0, 0))
    else
      var level := ValueOf(s.level) + 1;
      LockSecondsBounds(p, level);
      var lock := LockSeconds(p, level);
      (Subject(Gone, Live(level, now + lock), Live(level, now + p.levelTtlSeconds)),
       FailureResult(failures, lock, level))
  }

  /** A good login forgets the counter and the level but leaves a lock in force. */
  function Forget(s: Subject): Subject {
    Subject(Gone, s.lock, Gone)
  }

  // ----- The keys -----

  const PREFIX := "login-lockout:"

  datatype KeyKind = FailKey | LockKey | LevelKey

  function KindText(k: KeyKind): string {
    match k
    case FailKey => "fail:"
    case LockKey => "lock:"
    case LevelKey => "level:"
  }

  function KeyOf(k: KeyKind, subject: string): string {
    PREFIX + KindText(k) + subject
  }

  /** No two subjects, and no two of a subject's keys, share a Redis key. */
  lemma KeysDistinct(k: KeyKind, subject: string, k': KeyKind, subject': string)
    requires KeyOf(k, subject) == KeyOf(k', subject')
    ensures k == k' && subject == subject'
  {
    var key, key' := KeyOf(k, subject), KeyOf(k', subject');
    var n := |PREFIX|;
    assert key[n] == KindText(k)[0] && key[n + 1] == KindText(k)[1];
    assert key'[n] == KindText(k')[0] && key'[n + 1] == KindText(k')[1];
    var m := n + |KindText(k)|;
    assert key[m..] == subject && key'[m..] == subject';
  }

  function CellAt(db: map<string, Entry>, now: nat, key: string): Cell {
    match Find(db, now, key)
    case Some(Entry(value, Some(until))) => Live(value, until)
    case _ => Gone
  }

  function Cells(db: map<string, Entry>, now: nat, failKey: string, lockKey: string, levelKey: string): Subject {
    Subject(CellAt(db, now, failKey), CellAt(db, now, lockKey), CellAt(db, now, levelKey))
  }

  /** The subject as a reader of the store sees it now. */
  function SubjectAt(db: map<string, Entry>, now: nat, subject: string): Subject {
    Cells(db, now, KeyOf(FailKey, subject), KeyOf(LockKey, subject), KeyOf(LevelKey, subject))
  }

  /** Between commands every stored key expires and holds a positive number. */
  ghost predicate WellKept(db: map<string, Entry>) {
    forall key :: key in db ==> db[key].expiresAt.Some? && db[key].value >= 1
  }

  /** Only `subject`'s own three keys may differ. */
  ghost predicate OthersKept(db: map<string, Entry>, db': map<string, Entry>, subject: string) {
    forall key :: key !in {KeyOf(FailKey, subject), KeyOf(LockKey, subject), KeyOf(LevelKey, subject)} ==> SameAt(db, db', key)
  }

  ghost predicate SameAt(db: map<string, Entry>, db': map<string, Entry>, key: string) {
    (key in db <==> key in db') && (key in db ==> db[key] == db'[key])
  }

  lemma OwnKeysDiffer(subject: string)
    ensures KeyOf(FailKey, subject) != KeyOf(LockKey, subject)
    ensures KeyOf(LockKey, subject) != KeyOf(LevelKey, subject)
    ensures KeyOf(LevelKey, subject) != KeyOf(FailKey, subject)
  {
    if KeyOf(FailKey, subject) == KeyOf(LockKey, subject) {
      KeysDistinct(FailKey, subject, LockKey, subject);
    }
    if KeyOf(LockKey, subject) == KeyOf(LevelKey, subject) {
      KeysDistinct(LockKey, subject, LevelKey, subject);
    }
    if KeyOf(LevelKey, subject) == KeyOf(FailKey, subject) {
      KeysDistinct(LevelKey, subject, FailKey, subject);
    }
  }

  lemma OthersKeptSeen(db: map<string, Entry>, db': map<string, Entry>, now: nat, subject: string)
    requires OthersKept(db, db', subject)
    ensures forall other :: other != subject ==> SubjectAt(db', now, other) == SubjectAt(db, now, other)
  {
    forall other, kind | other != subject
      ensures CellAt(db', now, KeyOf(kind, other)) == CellAt(db, now, KeyOf(kind, other))
    {
      forall k ensures KeyOf(kind, other) != KeyOf(k, subject) {
        if KeyOf(kind, other) == KeyOf(k, subject) {
          KeysDistinct(kind, other, k, subject);
        }
      }
      assert SameAt(db, db', KeyOf(kind, other));
    }
  }

  class RedisLoginAttemptStore {
    const redis: Redis

    constructor (redis: Redis)
      ensures this.redis == redis
    {
      this.redis := redis;
    }

    ghost predicate Valid()
      reads redis
    {
      WellKept(redis.db)
    }

    function View(subject: string): Subject
      reads redis
    {
      SubjectAt(redis.db, redis.now, subject)
    }

    method LockedFor(subjects: seq<string>) returns (seconds: int)
      requires Valid()
      ensures seconds >= 0
      ensures forall s :: s in subjects ==> Remaining(View(s), redis.now) <= seconds
      ensures seconds > 0 ==> exists s :: s in subjects && Remaining(View(s), redis.now) == seconds
    {
      seconds := 0;
      for i := 0 to |subjects|
        invariant seconds >= 0
        invariant forall j :: 0 <= j < i ==> Remaining(View(subjects[j]), redis.now) <= seconds
        invariant seconds > 0 ==> exists j :: 0 <= j < i && Remaining(View(subjects[j]), redis.now) == seconds
      {
        var ttl := redis.Ttl(KeyOf(LockKey, subjects[i]));
        if ttl > seconds {
          seconds := ttl;
        }
      }
    }

    method RecordFailure(subject: string, policy: FailurePolicy) returns (r: Result<FailureResult, string>)
      requires Valid()
      modifies redis`db
      ensures Valid()
      ensures !Accepted(policy) ==> r.Err? && redis.db == old(redis.db)
      ensures Accepted(policy) ==>
                && ValueOf(old(View(subject)).level) >= 0
                && var (next, report) := Fail(policy, old(View(subject)), redis.now);
                   r == Ok(report) && View(subject) == next
      ensures forall other :: other != subject ==> View(other) == old(View(other))
    {
      if !Accepted(policy) {
        return Err("must be a positive integer");
      }
      OwnKeysDiffer(subject);
      var report := RunScript(KeyOf(FailKey, subject), KeyOf(LockKey, subject), KeyOf(LevelKey, subject), policy);
      OthersKeptSeen(old(redis.db), redis.db, redis.now, subject);
      r := Ok(report);
    }

    /** RECORD_FAILURE_SCRIPT, command by command, over any three different keys. */
    method RunScript(failKey: string, lockKey: string, levelKey: string, policy: FailurePolicy)
      returns (r: FailureResult)
      requires Valid() && Accepted(policy)
      requires failKey != levelKey && failKey != lockKey && lockKey != levelKey
      modifies redis`db
      ensures Valid()
      ensures forall key :: key !in {failKey, lockKey, levelKey} ==> SameAt(old(redis.db), redis.db, key)
      ensures ValueOf(CellAt(old(redis.db), redis.now, levelKey)) >= 0
      ensures (Cells(redis.db, redis.now, failKey, lockKey, levelKey), r)
           == Fail(policy, Cells(old(redis.db), redis.now, failKey, lockKey, levelKey), redis.now)
    {
      var failures := Count(failKey, policy);
      if failures < policy.maxAttempts {
        return FailureResult(failures, 0, 0);
      }
      redis.Del(failKey);
      assert CellAt(redis.db, redis.now, levelKey) == CellAt(old(redis.db), redis.now, levelKey);
      var level, lock := Lock(lockKey, levelKey, policy);
      assert CellAt(redis.db, redis.now, failKey) == Gone;
      r := FailureResult(failures, lock, level);
    }

    /** The script's first two commands: count, and start the window at the first failure. */
    method Count(failKey: string, policy: FailurePolicy) returns (failures: int)
      requires Valid() && Accepted(policy)
      modifies redis`db
      ensures Valid()
      ensures var seen := CellAt(old(redis.db), redis.now, failKey);
              && failures == ValueOf(seen) + 1
              && redis.db == old(redis.db)[failKey := Entry(failures, Some(if seen.Live? then seen.until else redis.now + policy.windowSeconds))]
    {
      failures := redis.Incr(failKey);
      if failures == 1 {
        redis.Expire(failKey, policy.windowSeconds);
      }
    }

    /** The part of the script that runs at the threshold. */
    method Lock(lockKey: string, levelKey: string, policy: FailurePolicy) returns (level: int, lock: int)
      requires Valid() && Accepted(policy) && lockKey != levelKey
      modifies redis`db
      ensures Valid()
      ensures level == ValueOf(CellAt(old(redis.db), redis.now, levelKey)) + 1 >= 1
      ensures lock == LockSeconds(policy, level) >= 1
      ensures redis.db == old(redis.db)[levelKey := Entry(level, Some(redis.now + policy.levelTtlSeconds))]
                                       [lockKey := Entry(level, Some(redis.now + lock))]
    {
      level := redis.Incr(levelKey);
      redis.Expire(levelKey, policy.levelTtlSeconds);
      lock := policy.baseLockSeconds * Pow2(level - 1);
      if lock > policy.maxLockSeconds {
        lock := policy.maxLockSeconds;
      }
      LockSecondsBounds(policy, level);
      redis.SetEx(lockKey, level, lock);
    }

    method Reset(subject: string)
      requires Valid()
      modifies redis`db
      ensures Valid()
      ensures View(subject) == Forget(old(View(subject)))
      ensures forall other :: other != subject ==> View(other) == old(View(other))
    {
      OwnKeysDiffer(subject);
      redis.Del(KeyOf(FailKey, subject));
      redis.Del(KeyOf(LevelKey, subject));
      OthersKeptSeen(old(redis.db), redis.db, redis.now, subject);
    }
  }
}
