/**
 * The two-factor throttle: a failure counter and an escalating lock kept in one
 * cache entry whose lifetime slides with every failure
 * (nftopia-backend/src/auth/two-factor-throttle.service.ts). Times are in ms.
 */
module TwoFactorThrottle {
  import opened Common

  datatype Config = Config(maxAttempts: int, windowSeconds: int, baseSeconds: int, maxSeconds: int)

  predicate Positive(c: Config) {
    c.maxAttempts > 0 && c.windowSeconds > 0 && c.baseSeconds > 0 && c.maxSeconds > 0
  }

  /** The numbers in the environment; a missing one has its default, any other is taken as it is. */
  datatype Environment = Environment(maxAttempts: Option<int>, window: Option<int>, base: Option<int>, max: Option<int>)

  function OrDefault(setting: Option<int>, default: int): int {
    if setting.Some? then setting.value else default
  }

  function ConfigFrom(env: Environment): (c: Config)
    ensures env.maxAttempts.Some? && env.window.Some? && env.base.Some? && env.max.Some? ==>
              env == Environment(Some(c.maxAttempts), Some(c.windowSeconds), Some(c.baseSeconds), Some(c.maxSeconds))
    ensures env.maxAttempts.None? ==> c.maxAttempts == 5
    ensures env.window.None? ==> c.windowSeconds == 300
    ensures env.base.None? ==> c.baseSeconds == 30
    ensures env.max.None? ==> c.maxSeconds == 3600
  {
    Config(OrDefault(env.maxAttempts, 5), OrDefault(env.window, 300), OrDefault(env.base, 30), OrDefault(env.max, 3600))
  }

  const DEFAULTS := ConfigFrom(Environment(None, None, None, None))

  datatype ThrottleState = ThrottleState(failureCount: int, lockoutCount: nat, lockedUntil: Option<int>)

  const EMPTY_STATE := ThrottleState(0, 0, None)

  /** A cache entry: absent or expired, or held until a given instant. */
  datatype Slot = Gone | Held(state: ThrottleState, until: int)

  function StateOf(s: Slot): ThrottleState {
    if s.Held? then s.state else EMPTY_STATE
  }

  /** What `assertNotLockedOut` rejects. */
  predicate Locked(s: Slot, now: int) {
    var until := StateOf(s).lockedUntil;
    until.Some? && until.value != 0 && until.value > now
  }

  function LockoutSeconds(c: Config, lockoutCount: nat): int
    requires lockoutCount >= 1
  {
    Min(c.baseSeconds * Pow2(lockoutCount - 1), c.maxSeconds)
  }

  function Fail(c: Config, s: Slot, now: int): Slot {
    var state := StateOf(s);
    var failureCount := state.failureCount + 1;
    if failureCount >= c.maxAttempts then
      var lockoutCount := state.lockoutCount + 1;
      var seconds := LockoutSeconds(c, lockoutCount);
      Held(ThrottleState(0, lockoutCount, Some(now + seconds * 1000)), now + Max(seconds, c.windowSeconds) * 1000)
    else
      Held(state.(failureCount := failureCount), now + c.windowSeconds * 1000)
  }

  // ----- The service -----

  function SlotOf(entries: map<string, (ThrottleState, int)>, now: nat, key: string): Slot {
    if key in entries && now < entries[key].1 then Held(entries[key].0, entries[key].1) else Gone
  }

  class Cache {
    var entries: map<string, (ThrottleState, int)>
    var now: nat

    function SlotAt(key: string): Slot
      reads this
    {
      SlotOf(entries, now, key)
    }

    method Get(key: string) returns (state: Option<ThrottleState>)
      ensures state == (if SlotAt(key).Held? then Some(SlotAt(key).state) else None)
    {
      state := if SlotAt(key).Held? then Some(SlotAt(key).state) else None;
    }

    method Set(key: string, state: ThrottleState, ttl: int)
      modifies this`entries
      ensures entries == old(entries)[key := (state, now + ttl)]
    {
      entries := entries[key := (state, now + ttl)];
    }

    method Del(key: string)
      modifies this`entries
      ensures entries == old(entries) - {key}
    {
      entries := entries - {key};
    }
  }

  class TwoFactorThrottleService {
    const cache: Cache
    const config: Config

    constructor (cache: Cache, config: Config)
      ensures this.cache == cache && this.config == config
    {
      this.cache, this.config := cache, config;
    }

    function StateKey(key: string): string {
      "2fa_throttle:" + key
    }

    lemma StateKeysDistinct(key: string, key': string)
      requires StateKey(key) == StateKey(key')
      ensures key == key'
    {
      assert StateKey(key)[13..] == key && StateKey(key')[13..] == key';
    }

    function View(key: string): Slot
      reads cache
    {
      cache.SlotAt(StateKey(key))
    }

    /** Whole seconds to wait, rounded up, exactly when the key is locked. */
    method AssertNotLockedOut(key: string) returns (retryAfterSeconds: Option<int>)
      ensures retryAfterSeconds.Some? <==> Locked(View(key), cache.now)
      ensures retryAfterSeconds.Some? ==>
                var left := View(key).state.lockedUntil.value - cache.now;
                (retryAfterSeconds.value - 1) * 1000 < left <= retryAfterSeconds.value * 1000
    {
      var state := GetState(key);
      if state.lockedUntil.Some? && state.lockedUntil.value != 0 && state.lockedUntil.value > cache.now {
        return Some((state.lockedUntil.value - cache.now + 999) / 1000);
      }
      retryAfterSeconds := None;
    }

    method RecordFailure(key: string)
      requires Positive(config)
      modifies cache`entries
      ensures View(key) == Fail(config, old(View(key)), cache.now)
      ensures forall other :: other != key ==> View(other) == old(View(other))
    {
      forall other | StateKey(other) == StateKey(key) ensures other == key {
        StateKeysDistinct(other, key);
      }
      var state := GetState(key);
      var failureCount := state.failureCount + 1;
      if failureCount >= config.maxAttempts {
        var lockoutCount := state.lockoutCount + 1;
        var seconds := Min(config.baseSeconds * Pow2(lockoutCount - 1), config.maxSeconds);
        LockoutBounds(config, lockoutCount);
        cache.Set(StateKey(key), ThrottleState(0, lockoutCount, Some(cache.now + seconds * 1000)),
                  Max(seconds, config.windowSeconds) * 1000);
        return;
      }
      cache.Set(StateKey(key), state.(failureCount := failureCount), config.windowSeconds * 1000);
    }

    method RecordSuccess(key: string)
      modifies cache`entries
      ensures View(key) == Gone
      ensures forall other :: other != key ==> View(other) == old(View(other))
    {
      forall other | StateKey(other) == StateKey(key) ensures other == key {
        StateKeysDistinct(other, key);
      }
      cache.Del(StateKey(key));
    }

    method GetState(key: string) returns (state: ThrottleState)
      ensures state == StateOf(View(key))
    {
      var found := cache.Get(StateKey(key));
      state := if found.Some? then found.value else EMPTY_STATE;
    }
  }

  lemma LockoutBounds(c: Config, n: nat)
    requires Positive(c) && n >= 1
    ensures 1 <= Min(c.baseSeconds, c.maxSeconds) == LockoutSeconds(c, 1) <= LockoutSeconds(c, n) <= c.maxSeconds
    ensures LockoutSeconds(c, n + 1) == Min(2 * LockoutSeconds(c, n), c.maxSeconds)
  {
    assert Pow2(0) == 1;
    Pow2Monotone(0, n - 1);
    MulMonotone(c.baseSeconds, 1, Pow2(n - 1));
    assert c.baseSeconds * Pow2(n) == 2 * (c.baseSeconds * Pow2(n - 1));
  }

  lemma LockoutMonotone(c: Config, j: nat, k: nat)
    requires Positive(c) && 1 <= j <= k
    ensures LockoutSeconds(c, j) <= LockoutSeconds(c, k)
  {
    Pow2Monotone(j - 1, k - 1);
    MulMonotone(c.baseSeconds, Pow2(j - 1), Pow2(k - 1));
  }
}
