/**
 * Two-factor failures whose read and write of the cache entry are separate awaits, so that
 * other requests for the same key run in between
 * (nftopia-backend/src/auth/two-factor-throttle.service.ts). Times are in ms.
 */
module TwoFactorOverlap {
  import opened Common
  import opened TwoFactorThrottle
  import TwoFactorRuns

  /** `seen` holds what each failure under way has read and not yet written back. */
  datatype State = State(now: nat, slot: Slot, seen: map<nat, ThrottleState>)

  const START := State(0, Gone, map[])

  datatype Event = Read(id: nat) | Write(id: nat) | Good | Wait(ms: nat)

  /** What `recordFailure` writes for the state it read. */
  function Written(c: Config, seen: ThrottleState, now: int): Slot {
    Fail(c, Held(seen, now), now)
  }

  function Step(c: Config, s: State, e: Event): State {
    match e
    case Read(id) => s.(seen := s.seen[id := StateOf(s.slot)])
    case Write(id) => if id in s.seen then s.(slot := Written(c, s.seen[id], s.now), seen := s.seen - {id}) else s
    case Good => s.(slot := Gone)
    case Wait(ms) =>
      var now := s.now + ms;
      s.(now := now, slot := if s.slot.Held? && now < s.slot.until then s.slot else Gone)
  }

  function Run(c: Config, es: seq<Event>): State {
    if es == [] then START else Step(c, Run(c, es[..|es| - 1]), es[|es| - 1])
  }

  lemma RunOneMore(c: Config, es: seq<Event>, e: Event)
    ensures Run(c, es + [e]) == Step(c, Run(c, es), e)
  {
    assert (es + [e])[..|es + [e]| - 1] == es;
  }

  predicate InRange(c: Config, s: ThrottleState) {
    0 <= s.failureCount < c.maxAttempts
  }

  /** However reads and writes interleave, the count stays below the threshold. */
  lemma {:induction false} CountsInRange(c: Config, es: seq<Event>)
    requires Positive(c)
    ensures var s := Run(c, es); InRange(c, StateOf(s.slot)) && forall id :: id in s.seen ==> InRange(c, s.seen[id])
    decreases |es|
  {
    if es != [] {
      CountsInRange(c, es[..|es| - 1]);
    }
  }

  /**
   * A write does what a failure recorded in one step would do exactly when the counts it read are
   * still the stored ones, and so is the lock unless the write sets a new one.
   */
  lemma WriteIsAtomicIff(c: Config, seen: ThrottleState, slot: Slot, now: int)
    requires Positive(c) && InRange(c, seen) && InRange(c, StateOf(slot))
    ensures var stored := StateOf(slot);
            Written(c, seen, now) == Fail(c, slot, now)
            <==> && seen.failureCount == stored.failureCount && seen.lockoutCount == stored.lockoutCount
                 && (stored.failureCount + 1 >= c.maxAttempts || seen.lockedUntil == stored.lockedUntil)
  {
  }

  /** A write ends a lock in force exactly when it only counts, from a state read when there was no lock. */
  lemma WriteUnlocksIff(c: Config, seen: ThrottleState, slot: Slot, now: nat)
    requires Positive(c) && InRange(c, seen) && Locked(slot, now)
    ensures !Locked(Written(c, seen, now), now) <==> seen.failureCount + 1 < c.maxAttempts && !Locked(Held(seen, now), now)
  {
    LockoutBounds(c, seen.lockoutCount + 1);
  }

  // ----- Runs in which nothing comes between -----

  /** Every write finds the state it read. */
  predicate Undisturbed(c: Config, es: seq<Event>) {
    es == [] ||
    (&& Undisturbed(c, es[..|es| - 1])
     && var s, e := Run(c, es[..|es| - 1]), es[|es| - 1];
        e.Write? && e.id in s.seen ==> s.seen[e.id] == StateOf(s.slot))
  }

  /** The run with every failure recorded in one step, when it is written. */
  function Atomically(c: Config, es: seq<Event>): seq<TwoFactorRuns.Event> {
    if es == [] then []
    else
      var s, before := Run(c, es[..|es| - 1]), Atomically(c, es[..|es| - 1]);
      match es[|es| - 1]
      case Read(_) => before
      case Write(id) => if id in s.seen then before + [TwoFactorRuns.Unchecked] else before
      case Good => if Locked(s.slot, s.now) then before else before + [TwoFactorRuns.Verify(true)]
      case Wait(ms) => before + [TwoFactorRuns.Wait(ms)]
  }

  /** No success is recorded for a locked key. */
  predicate NoGoodWhileLocked(c: Config, es: seq<Event>) {
    es == [] ||
    (&& NoGoodWhileLocked(c, es[..|es| - 1])
     && (es[|es| - 1].Good? ==> !Locked(Run(c, es[..|es| - 1]).slot, Run(c, es[..|es| - 1]).now)))
  }

  /** Such a run is a run of failures recorded in one step, so everything proved of those holds of it. */
  lemma {:induction false} UndisturbedIsAtomic(c: Config, es: seq<Event>)
    requires Undisturbed(c, es) && NoGoodWhileLocked(c, es)
    ensures var k := TwoFactorRuns.Run(c, TwoFactorRuns.START, Atomically(c, es));
            k.now == Run(c, es).now && k.slot == Run(c, es).slot
    decreases |es|
  {
    if es != [] {
      var before := es[..|es| - 1];
      UndisturbedIsAtomic(c, before);
      var atomic := Atomically(c, before);
      if Atomically(c, es) != atomic {
        var e := Atomically(c, es)[|atomic|];
        assert Atomically(c, es) == atomic + [e];
        TwoFactorRuns.RunPlusOne(c, TwoFactorRuns.START, atomic, e);
      }
    }
  }

  // ----- Updates that are lost -----

  /** The events of these failures, in this order. */
  function Reads(ids: seq<nat>): seq<Event> {
    seq(|ids|, i requires 0 <= i < |ids| => Read(ids[i]))
  }

  function Writes(ids: seq<nat>): seq<Event> {
    seq(|ids|, i requires 0 <= i < |ids| => Write(ids[i]))
  }

  /** These failures are under way and have all read the stored state. */
  ghost predicate SawStored(s: State, ids: seq<nat>) {
    forall id :: id in ids ==> id in s.seen && s.seen[id] == StateOf(s.slot)
  }

  lemma OneMoreRead(c: Config, s: State, ids: seq<nat>, id: nat)
    requires SawStored(s, ids)
    ensures var s' := Step(c, s, Read(id)); s'.slot == s.slot && s'.now == s.now && SawStored(s', ids + [id])
  {
  }

  lemma {:induction false} ReadsSeeOneState(c: Config, es: seq<Event>, s: State, ids: seq<nat>) returns (s': State)
    requires s == Run(c, es)
    ensures s' == Run(c, es + Reads(ids)) && s'.slot == s.slot && s'.now == s.now && SawStored(s', ids)
    decreases |ids|
  {
    if ids == [] {
      assert es + Reads(ids) == es;
      s' := s;
    } else {
      var before, last := ids[..|ids| - 1], ids[|ids| - 1];
      var reading := ReadsSeeOneState(c, es, s, before);
      OneMoreRead(c, reading, before, last);
      assert ids == before + [last];
      assert es + Reads(ids) == es + Reads(before) + [Read(last)];
      RunOneMore(c, es + Reads(before), Read(last));
      s' := Step(c, reading, Read(last));
    }
  }

  /** Writes of failures that all read the same state leave what one of them writes, in whatever order and number. */
  lemma {:induction false} WritesOfOneState(c: Config, es: seq<Event>, ids: seq<nat>, x: ThrottleState)
    requires forall id :: id in ids && id in Run(c, es).seen ==> Run(c, es).seen[id] == x
    requires ids != [] && ids[0] in Run(c, es).seen
    ensures var s, s' := Run(c, es), Run(c, es + Writes(ids));
            && s'.slot == Written(c, x, s.now) && s'.now == s.now
            && forall id :: id in ids && id in s'.seen ==> s'.seen[id] == x
    decreases |ids|
  {
    var before, last := ids[..|ids| - 1], ids[|ids| - 1];
    assert ids == before + [last];
    assert es + Writes(ids) == es + Writes(before) + [Write(last)];
    RunOneMore(c, es + Writes(before), Write(last));
    if before == [] {
      assert es + Writes(before) == es;
    } else {
      WritesOfOneState(c, es, before, x);
      NothingRead(c, es, before, last, x);
    }
  }

  lemma OneWriteReadsNothing(c: Config, s: State, written: nat, id: nat)
    ensures var seen := Step(c, s, Write(written)).seen; id in seen ==> id in s.seen && seen[id] == s.seen[id]
  {
  }

  lemma OneMoreWrite(es: seq<Event>, before: seq<nat>, last: nat)
    ensures es + Writes(before + [last]) == es + Writes(before) + [Write(last)]
  {
    assert Writes(before + [last]) == Writes(before) + [Write(last)];
  }

  /** Writing adds nothing to what is under way. */
  lemma {:induction false} NothingRead(c: Config, es: seq<Event>, ids: seq<nat>, id: nat, x: ThrottleState)
    requires id in Run(c, es).seen ==> Run(c, es).seen[id] == x
    ensures var seen := Run(c, es + Writes(ids)).seen; id in seen ==> seen[id] == x
    decreases |ids|
  {
    if ids == [] {
      assert es + Writes(ids) == es;
    } else {
      var before, last := ids[..|ids| - 1], ids[|ids| - 1];
      NothingRead(c, es, before, id, x);
      assert ids == before + [last];
      OneMoreWrite(es, before, last);
      RunOneMore(c, es + Writes(before), Write(last));
      OneWriteReadsNothing(c, Run(c, es + Writes(before)), last, id);
    }
  }

  /**
   * Whatever is stored: failures that overlap, so that all read before any of them writes, count
   * as one, however many they are and in whatever order they write.
   */
  lemma OverlappingFailuresCountOnce(c: Config, es: seq<Event>, reading: seq<nat>, writing: seq<nat>)
    requires writing != [] && forall id :: id in writing ==> id in reading
    ensures var s, s' := Run(c, es), Run(c, es + Reads(reading) + Writes(writing));
            s'.slot == Fail(c, s.slot, s.now) && s'.now == s.now
  {
    var s' := ReadsSeeOneState(c, es, Run(c, es), reading);
    assert writing[0] in writing;
    WritesOfOneState(c, es + Reads(reading), writing, StateOf(Run(c, es).slot));
  }

  // ----- Locks that are erased or shortened -----

  /** `n` failures one after another, each reading and writing undisturbed. */
  function Singles(n: nat): seq<Event> {
    if n == 0 then [] else Singles(n - 1) + [Read(1)] + [Write(1)]
  }

  lemma SinglesNext(es: seq<Event>, n: nat)
    requires n > 0
    ensures es + Singles(n) == es + Singles(n - 1) + [Read(1)] + [Write(1)]
  {
    assert es + (Singles(n - 1) + [Read(1)] + [Write(1)]) == es + Singles(n - 1) + [Read(1)] + [Write(1)];
  }

  lemma UndisturbedFailure(c: Config, es: seq<Event>, s: State)
    requires s == Run(c, es)
    ensures var s' := Step(c, Step(c, s, Read(1)), Write(1));
            && s' == Run(c, es + [Read(1)] + [Write(1)])
            && s'.slot == Fail(c, s.slot, s.now) && s'.now == s.now && s'.seen == s.seen - {1}
  {
    RunOneMore(c, es, Read(1));
    RunOneMore(c, es + [Read(1)], Write(1));
  }

  /** The entry after `n` failures recorded in one step each at instant 0. */
  function BurstSlot(c: Config, n: nat): Slot {
    TwoFactorRuns.Run(c, TwoFactorRuns.START, TwoFactorRuns.Burst(n)).slot
  }

  lemma {:induction false} BurstIsNow(c: Config, n: nat)
    ensures TwoFactorRuns.Run(c, TwoFactorRuns.START, TwoFactorRuns.Burst(n)).now == 0
    decreases n
  {
    if n > 0 {
      BurstIsNow(c, n - 1);
      TwoFactorRuns.BurstPlusOne(c, n - 1);
    }
  }

  lemma BurstSlotNext(c: Config, n: nat)
    ensures BurstSlot(c, n + 1) == Fail(c, BurstSlot(c, n), 0)
  {
    BurstIsNow(c, n);
    TwoFactorRuns.BurstPlusOne(c, n);
  }

  /** Undisturbed failures leave the entry of such a burst, and what another failure has read. */
  lemma {:induction false} SinglesAreBurst(c: Config, es: seq<Event>, s: State, n: nat, m: nat) returns (s': State)
    requires s == Run(c, es) && s.now == 0 && s.slot == BurstSlot(c, n)
    ensures s' == Run(c, es + Singles(m))
    ensures s'.slot == BurstSlot(c, n + m) && s'.now == 0 && (0 in s.seen ==> 0 in s'.seen && s'.seen[0] == s.seen[0])
    decreases m
  {
    if m == 0 {
      assert es + Singles(0) == es;
      s' := s;
    } else {
      var before := es + Singles(m - 1);
      var failed := SinglesAreBurst(c, es, s, n, m - 1);
      SinglesNext(es, m);
      UndisturbedFailure(c, before, failed);
      BurstSlotNext(c, n + m - 1);
      s' := Step(c, Step(c, failed, Read(1)), Write(1));
    }
  }

  /** `n` failures, then one that reads and waits, then `m` more failures. */
  function Behind(n: nat, m: nat): seq<Event> {
    Singles(n) + [Read(0)] + Singles(m)
  }

  /** What the waiting failure has read and what is stored after it, both as after a burst of failures. */
  lemma BehindBursts(c: Config, n: nat, m: nat)
    ensures var s := Run(c, Behind(n, m));
            && s.now == 0 && 0 in s.seen
            && s.seen[0] == StateOf(BurstSlot(c, n)) && s.slot == BurstSlot(c, n + m)
  {
    assert TwoFactorRuns.Burst(0) == [];
    var failed := SinglesAreBurst(c, [], START, 0, n);
    assert [] + Singles(n) == Singles(n);
    RunOneMore(c, Singles(n), Read(0));
    var behind := SinglesAreBurst(c, Singles(n) + [Read(0)], Step(c, failed, Read(0)), n, m);
  }

  /** A failure that read before a lock was set and writes after it erases the lock. */
  lemma StaleWriteErasesLock(c: Config)
    requires Positive(c) && c.maxAttempts > 1
    ensures var s := Run(c, Behind(0, c.maxAttempts));
            && 0 in s.seen && Locked(s.slot, s.now)
            && !Locked(Step(c, s, Write(0)).slot, s.now) && StateOf(Step(c, s, Write(0)).slot) == ThrottleState(1, 0, None)
  {
    BehindBursts(c, 0, c.maxAttempts);
    TwoFactorRuns.BurstLocks(c, 0, 0);
    TwoFactorRuns.BurstLocks(c, 1, 0);
    LockoutBounds(c, 1);
  }

  /** A write makes a lock in force end sooner exactly when it sets one that ends sooner, or keeps an earlier one, none, or the entry for a shorter time. */
  lemma WriteShortensIff(c: Config, seen: ThrottleState, slot: Slot, now: nat)
    requires Positive(c) && InRange(c, seen) && Locked(slot, now) && now < slot.until
    ensures TwoFactorRuns.LockEnd(Written(c, seen, now)) < TwoFactorRuns.LockEnd(slot)
       <==> if seen.failureCount + 1 >= c.maxAttempts
            then now + LockoutSeconds(c, seen.lockoutCount + 1) * 1000 < TwoFactorRuns.LockEnd(slot)
            else seen.lockedUntil.None? || seen.lockedUntil.value < TwoFactorRuns.LockEnd(slot)
                 || now + c.windowSeconds * 1000 < TwoFactorRuns.LockEnd(slot)
  {
  }

  /** Without erasing it, a failure that read one short of the first lock replaces the second lock by a first one. */
  lemma StaleWriteShortensLock(c: Config)
    requires Positive(c) && c.baseSeconds < c.maxSeconds
    ensures var s := Run(c, Behind(c.maxAttempts - 1, c.maxAttempts + 1));
            && 0 in s.seen && Locked(s.slot, s.now)
            && var after := Step(c, s, Write(0)).slot;
               Locked(after, s.now) && TwoFactorRuns.LockEnd(after) < TwoFactorRuns.LockEnd(s.slot)
  {
    var m := c.maxAttempts;
    BehindBursts(c, m - 1, m + 1);
    TwoFactorRuns.BurstLocks(c, 0, m - 1);
    TwoFactorRuns.BurstLocks(c, 2, 0);
    assert Pow2(0) == 1 && Pow2(1) == 2;
  }
}
