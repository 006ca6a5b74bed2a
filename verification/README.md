# NFTopia protocols, modelled and proved

NFTopia is a marketplace with a backend, a web front end, an admin console and a mobile app.
This project models the parts of it whose behaviour over time is hard to see from the code:
brute-force protection, session handling, streamed chat, retries, and a handful of list, tree
and ordering algorithms. Each is proved correct for every input and every run.

`dafny verify dfyconfig.toml` checks everything. One module covers one source component:

| files | component |
|---|---|
| `Redis`, `LoginAttempts`, `LoginRuns`, `LoginMemory`, `LoginLocks`, `LoginLockout`, `LoginOverlap`, `LoginResets` | failed-login counters with expiring keys and escalating locks |
| `TwoFactorThrottle`, `TwoFactorRuns`, `TwoFactorMemory`, `TwoFactorOverlap` | the two-factor throttle with its sliding cache entry |
| `MobileSession`, `MobileLogout`, `MobileTokens`, `MobileTimers`, `MobileAuthStore`, `AppLock` | mobile token refresh, sign-in, sign-out and the app lock |
| `AdminSession`, `AdminAuthStore` | the admin console session |
| `Chat` | the streamed assistant chat and its persistence |
| `Retry`, `Dedupe` | retry with backoff, twice; the shared cache and in-flight map |
| `Strings`, `Translations`, `TranslationNames` | translation trees: flattening, validation, lookup |
| `Versions`, `StandardVersions` | version parsing, ordering and the update gate |
| `Recency`, `AddressBook`, `AddressBookRecents`, `OfflineQueue`, `OfflineOverlap`, `DayBuckets` | bounded recent lists, the address book, the offline queue, the per-day chart |

Components that change state are classes; each method is proved equal to a step function on the
object's abstract value (`View()`), the session stores keep their proved invariant as `Valid()`,
and the theorems are about runs of those steps. Code that awaits is cut at its awaits: a run is any
list of events, and an event that cannot happen yet (a reply to a request nobody made, a timer that
is not due) leaves the state alone, so a theorem about all lists of events is a theorem about all
interleavings. Three modules are about runs in which certain calls do not overlap, and each has a
companion for those that do: `LoginLockout` and `LoginOverlap`, `TwoFactorRuns` and
`TwoFactorOverlap`, `OfflineQueue` and `OfflineOverlap`. Pending timers are a map from handles, so
a timer nobody cancelled stays pending and can fire. Clocks are integers, in seconds for Redis and
in milliseconds elsewhere.

## Where the code does not do what it says

Each of these is proved; the lemma named gives the exact condition or a concrete run.

- Two-factor throttle: the documentation gives a ceiling of `TWO_FACTOR_LOCKOUT_MAX_SECONDS`
  (`two-factor-throttle.service.ts:44-49`), but the memory of earlier locks ends with the failure
  window, so a lock at least as long as the window is always followed by a first lock. With the
  defaults no lock is longer than 480 s; 3600 s is never reached (`DefaultLocks`).
- Two-factor throttle: a failure recorded while a lock is in force rewrites the entry with the
  window as lifetime and can end the lock early, unless every failure locks or the ceiling is not
  above the window (`LocksOnlyExtendIff` in `TwoFactorRuns`).
- Two-factor throttle: reading and writing the entry are two awaits. A write does what a failure
  recorded at once would do exactly when what it read is still stored (`WriteIsAtomicIff`); any
  number of failures that overlap count as one (`OverlappingFailuresCountOnce`), and a write from
  before a lock can erase or shorten it (`WriteUnlocksIff`, `StaleWriteErasesLock`,
  `WriteShortensIff`, `StaleWriteShortensLock`).
- Login locks: a good sign-in that was admitted before a lock and ends under it forgets the level,
  so the next lock is a first one and can end sooner (`GoodSignInShortensLock`). Over all runs a
  failure never shortens a lock exactly when the first lock is already at the cap
  (`LocksNeverShortenIff`), which the default settings (60 s and 3600 s) are not. For subjects that
  are never reset, as addresses are, it is enough that the level's lifetime plus the first lock
  covers the cap (`LocksOnlyExtendIff` in `LoginLocks`); there the defaults are on the safe side.
- Login lockout: the lock check and the record of a failure are separate awaits, so a failure can
  be recorded under a lock exactly when sign-ins overlap (`NeverLateIff`); the failure rate is then
  bounded by the number of sign-ins in flight (`OverlappingServiceRateBound`).
- Mobile session: the generation is not checked again after the expiry has been read. A refresh of
  a session that has ended can still return true exactly when it has come that far
  (`OutdatedRefreshSucceedsIff`), and a logout can always overtake it there and leave a signed-out
  store that holds an expiry (`LogoutCanOvertakeRefresh`; `LeavesExpiryIff` has every event that
  does so).
- Mobile session: the end of a logout resets the store without looking at anything, so it signs out
  a session opened after the logout began whenever one is shown by then (`LateSignOutIff`), and
  every logout under way can come to that: with a later `loginWithWallet`, whose token pair stays
  stored (`EveryLogoutCanSignOutLater`), and with a `setUser`, which does not move the generation, so
  that a check of it would not help (`EveryLogoutCanSignOutSetUser`). In the same way a refresh can
  sign out a session opened after the refresh began, exactly while its generation is current or it
  is already signing out (`RefreshCanSignOutLaterIff`).
- Mobile session: `loginWithWallet` looks at the generation nowhere, so any login under way whose
  save has not failed can sign in after a whole logout (`EveryLoginCanOutliveLogout`).
- Admin session: a log-out cancels no request, so a login or code sent before it signs in again when
  its reply brings a session (`LateReplySignsInIff`). A new login, a request for a code and a
  rejected code leave the token of a signed-in state stored and its timer pending (`LeftBehindIff`).
- Chat: the chat service calls `onDone` again when its reader ends (`aiChat.service.ts:97-118`).
  Exactly the runs in which such a report arrives while a newer reply streams lose track of a live
  stream (`OneLiveStreamIff`, `SecondEndOrphansAStream`).
- Versions: "semver ordering" holds for the strings of Semantic Versioning 2.0.0 that the parser
  reads without loss, and those are exactly the ones without build metadata whose prerelease is
  absent, a word, or a word and a number (`ReadWholeIff`). Among them the order is section 11 but for
  `x` against `x.0`, which tie (`ReadWholeAgreesIff`). Without dashes in the prerelease all others
  are refused and sort below everything (`RefusedAgreesIff`); behind a dash everything is dropped,
  so versions that differ there tie (`DashTailsTie`). The branch for numeric identifiers is never
  taken (`NamedComparison`).
- Address book: an imported address with spaces around it is compared untrimmed and saved
  trimmed, so it can be saved twice (`ImportAlwaysSoundIff`); an update writes one address into all
  entries that share an id (`UpdateKeepsSoundIff`). An import never looks whether a recent recipient
  is already there (`ImportKeepsRecentsDistinctIff`).
- Translations: `validateTranslations` counts empty texts but does not reject them; a valid pair
  with an empty plural form shows the raw key (`PluralOfValidPair`). Every leaf is found again under
  its flattened key exactly when no name on a path to a leaf has a dot and no object at the top has
  the empty name (`EveryLeafFoundIff`, `FlatAgreesWithLookupIff`).
- Retries: loop and recursion differ exactly for a negative retry count, where the loop makes no
  attempt and the recursion one, and for an abort, which only the loop looks at (`SameRetriesIff`).
- App lock: an empty PIN counts as no PIN and takes the biometric path (`AppLockStore.UnlockApp`);
  attempts and lockout are not persisted, so a restart forgets them (`PinRateBound`, `RestartForgets`).
- Offline queue: a run ends by replacing the queue, so what was added during it is lost
  (`RunOverwrites`, `AddedDuringRunIsLost`), and runs that overlap take the same items (`OverlappingRunsShareItems`).

## Model

| member | source | states |
|---|---|---|
| LoginAttempts.KeysDistinct | nftopia-backend/src/auth/login-attempt.store.ts:84-90 | two Redis keys are equal only if kind and subject are: no subject or key kind shares another's key |
| LoginAttempts.LockSecondsBounds | nftopia-backend/src/auth/login-attempt.store.ts:74-80 | every lock lasts at least the smaller of base and cap, at least a second, and never more than the cap |
| LoginAttempts.RedisLoginAttemptStore.LockedFor | nftopia-backend/src/auth/login-attempt.store.ts:103-111 | an upper bound on every subject's remaining lock that, when positive, is one of them: the longest wait, 0 if none |
| LoginAttempts.RedisLoginAttemptStore.RecordFailure | nftopia-backend/src/auth/login-attempt.store.ts:112-139 | a policy with a non-positive number is an error and changes nothing; otherwise the subject's three keys move by one failure, the report matches, and no other subject changes |
| LoginAttempts.RedisLoginAttemptStore.RunScript | nftopia-backend/src/auth/login-attempt.store.ts:64-82 | the script's Redis commands, one by one, have the effect and report of one failure on three different keys and touch no other key |
| LoginAttempts.RedisLoginAttemptStore.Count | nftopia-backend/src/auth/login-attempt.store.ts:65-68 | the counter goes up by one; its window starts at the first failure and is not extended by later ones |
| LoginAttempts.RedisLoginAttemptStore.Lock | nftopia-backend/src/auth/login-attempt.store.ts:73-80 | the level goes up by one with a new lifetime, and the lock key holds it for the capped, doubled length |
| LoginAttempts.RedisLoginAttemptStore.Reset | nftopia-backend/src/auth/login-attempt.store.ts:141-144 | counter and level are forgotten, a lock in force stays, other subjects are untouched |
| LoginRuns.ClockTicks | nftopia-backend/src/auth/login-attempt.store.ts:64-82 | letting the Redis clock run is the `Tick` step of the run model for every subject |
| LoginRuns.Run | nftopia-backend/src/auth/login-attempt.store.ts:64-82 | in every run the counter stays below the threshold, stored numbers are positive and no expired key is seen |
| LoginRuns.CountingLaw | nftopia-backend/src/auth/login-attempt.store.ts:60-82 | after n failures with nothing forgotten the counter is n mod maxAttempts and the level n div maxAttempts, however instances interleave |
| LoginRuns.ExactlyEveryThresholdLocks | nftopia-backend/src/auth/login-attempt.store.ts:69-81 | the n-th failure locks if and only if maxAttempts divides n, with level n div maxAttempts and that level's length |
| LoginRuns.FailuresSpread | nftopia-backend/src/auth/login-attempt.store.ts:64-82 | any failures without a reset, also those under a lock, are spread over at least as many gaps as batches, each late failure costing at most one |
| LoginRuns.FailureRateBound | nftopia-backend/src/auth/login-attempt.store.ts:64-82 | when failures are only recorded unlocked, at most maxAttempts * (T div gap + 1) fall within T seconds of the first, gap being the shortest of window, base and cap |
| LoginRuns.SlidingWindowBound | nftopia-backend/src/auth/login-attempt.store.ts:64-82 | the same for any stretch of a run from any consistent state, with one batch more |
| LoginMemory.RunExplained | nftopia-backend/src/auth/login-attempt.store.ts:60-82 | in every run the three keys hold exactly what the instants of failures, locks and resets tell, with no key expiring early or late |
| LoginMemory.FailureLocksIff | nftopia-backend/src/auth/login-attempt.store.ts:64-82 | in every run a failure locks if and only if it is the `maxAttempts`-th less than a window after the first of those counted since the last lock or reset; its level is one more than the last lock's if that was set less than a level lifetime ago without a reset since, else 1; the report says so |
| LoginMemory.ForgottenIff | nftopia-backend/src/auth/login-attempt.store.ts:64-82 | exactly when counter, lock and level are each forgotten as time passes |
| LoginMemory.WaitIsExact | nftopia-backend/src/auth/login-attempt.store.ts:103-111 | in every run the reported wait is exactly how long the subject stays locked if no failure comes |
| LoginLocks.EscalationLaw | nftopia-backend/src/auth/login-attempt.store.ts:74-79 | locks double until the cap, stay at the cap once there, and n uncapped ones total base * (2^n - 1) |
| LoginLocks.LockSecondsMonotone | nftopia-backend/src/auth/login-attempt.store.ts:74-79 | a higher level never has a shorter lock |
| LoginLocks.OverlappingRateBound | nftopia-backend/src/auth/auth.service.ts:295-325 | with the check and the end of a sign-in as separate steps, which may fail or end without failing, and at most `width` in flight, failures come at most `width` times as fast |
| LoginLocks.LocksOnlyExtendIff | nftopia-backend/src/auth/login-attempt.store.ts:72-80 | for a subject that is never reset, such as an address, no failure ever brings a lock's end forward, in any run, if and only if min(base, cap) + levelTtl >= cap |
| LoginLocks.ShorteningRun | nftopia-backend/src/auth/login-attempt.store.ts:72-80 | otherwise a run after which one more failure does shorten the lock in force |
| LoginLocks.Burst | nftopia-backend/src/auth/login-attempt.store.ts:64-82 | the exact state after n failures at one instant |
| LoginLocks.LocksNeverShortenIff | nftopia-backend/src/auth/login-attempt.store.ts:72-80 | in all runs, resets at any moment included, no failure ever brings a lock's end forward if and only if base >= cap, so that all locks are equally long |
| LoginLocks.ResetShortens | nftopia-backend/src/auth/login-attempt.store.ts:141-144 | otherwise a run with one reset under a lock, for every policy, after which the next failure shortens the lock in force |
| LoginLockout.PolicyFrom | nftopia-backend/src/auth/login-lockout.service.ts:25-75 | setting by setting: a positive integer is used as it is and anything else gives the default (5, 900, 60, 3600, 86400, 3); the cap is raised to the first lock; the address counter is on for a positive setting only, with every other number shared |
| LoginLockout.DefaultPolicy | nftopia-backend/src/auth/login-lockout.service.ts:24-34 | with nothing set: 5 failures in 900 s, locks of 60 s up to 3600 s, levels for 86400 s, no address counter, alerts from level 3 |
| LoginLockout.EverySettingIsUsable | nftopia-backend/src/auth/login-lockout.service.ts:43-75 | whatever the settings, the policy passes the store's checks with base <= cap; the address counter is on exactly for a positive setting and differs only in its threshold; failures never shorten a lock iff base = cap, and never one of a subject without resets iff base + levelTtl >= cap |
| LoginLockout.SubjectNamesDistinct | nftopia-backend/src/auth/login-lockout.service.ts:191-195 | an account and an address, or two of either, never share a subject name |
| LoginLockout.LoginLockoutService.AssertNotLocked | nftopia-backend/src/auth/login-lockout.service.ts:126-140 | rejects exactly when the account, or the address when it counts, is locked, and reports the longest of their waits |
| LoginLockout.LoginLockoutService.RegisterFailure | nftopia-backend/src/auth/login-lockout.service.ts:143-180 | one failure against the account and against the address when it counts, each under its own policy, and nobody else |
| LoginLockout.LoginLockoutService.RegisterSuccess | nftopia-backend/src/auth/login-lockout.service.ts:183-189 | forgets only this account's counter and level |
| LoginLockout.SeenNext | nftopia-backend/src/auth/login-lockout.service.ts:126-189 | what each sign-in means for each subject: refused if its account or counted address is locked, a good one resets its own account only, a bad one is one failure for its account and its counted address and for nobody else |
| LoginLockout.NeverLate | nftopia-backend/src/auth/auth.service.ts:295-325 | in any sequence of sign-ins by anybody that do not overlap no failure is counted against a subject that is locked |
| LoginLockout.ResetOnlyByOwner | nftopia-backend/src/auth/login-lockout.service.ts:182-189 | a subject is reset only by a good sign-in to that account; an address never is |
| LoginLockout.ServiceRateBound | nftopia-backend/src/auth/login-lockout.service.ts:126-180 | the failure-rate bound for every account and address in any sequence of sign-ins by anybody from anywhere, when sign-ins do not overlap |
| LoginOverlap.NeverLateIff | nftopia-backend/src/auth/auth.service.ts:295-325 | failures are never recorded under a lock, in all runs, successes included, if and only if at most one sign-in is in flight |
| LoginOverlap.TwoTogether | nftopia-backend/src/auth/auth.service.ts:300-322 | otherwise a run, for every policy, in which one is |
| LoginOverlap.AlwaysTracks | nftopia-backend/src/auth/auth.service.ts:295-325 | in every interleaving of sign-ins what a subject counts as in flight is exactly the admitted sign-ins that have still to end for it, and never more than `width` |
| LoginOverlap.FailuresAreCounted | nftopia-backend/src/auth/login-lockout.service.ts:148-176 | a failed sign-in is recorded once against the account and once against the address it checked, whatever came and went meanwhile |
| LoginOverlap.SourceNeverReset | nftopia-backend/src/auth/login-lockout.service.ts:182-189 | no sign-in ever resets an address |
| LoginOverlap.OverlappingServiceRateBound | nftopia-backend/src/auth/auth.service.ts:295-325 | with overlapping sign-ins by anybody, at most `width` in flight, every account without a good sign-in and every address records at most maxAttempts * width * (T div gap + 1) failures in T seconds |
| LoginResets.GoodSignInShortensLock | nftopia-backend/src/auth/auth.service.ts:300-325 | a run of the service, for every policy with base < cap, in which a good sign-in ends under the account's lock and the failure waiting to be recorded next shortens that lock |
| TwoFactorThrottle.ConfigFrom | nftopia-backend/src/auth/two-factor-throttle.service.ts:63-72 | a number that is set is used as it is; without one the defaults are 5, 300, 30 and 3600 |
| TwoFactorThrottle.TwoFactorThrottleService.AssertNotLockedOut | nftopia-backend/src/auth/two-factor-throttle.service.ts:80-96 | rejects exactly while the key is locked, with the remaining time rounded up to whole seconds |
| TwoFactorThrottle.TwoFactorThrottleService.RecordFailure | nftopia-backend/src/auth/two-factor-throttle.service.ts:103-133 | when no other request for the key comes between its read and its write: the key's entry is the old one with a failure more, or a fresh lock, and no other key changes |
| TwoFactorThrottle.TwoFactorThrottleService.RecordSuccess | nftopia-backend/src/auth/two-factor-throttle.service.ts:136-138 | the key's entry is gone and no other key changes |
| TwoFactorRuns.ClockWaits | nftopia-backend/src/auth/two-factor-throttle.service.ts:144-157 | letting the clock run is the `Wait` step of the run model for every key |
| TwoFactorRuns.RunKept | nftopia-backend/src/auth/two-factor-throttle.service.ts:80-133 | in every checked run the count stays below the threshold, an entry outlives its lock, and it remembers the last lock only if that ends with it or is shorter than the window |
| TwoFactorRuns.LockLastsInFull | nftopia-backend/src/auth/two-factor-throttle.service.ts:80-96 | until a lock's full length has passed, no verification that is checked and recorded at once changes the entry, and the key stays locked |
| TwoFactorRuns.LocksEscalate | nftopia-backend/src/auth/two-factor-throttle.service.ts:107-124 | each lock of a checked run is a first lock, or the double (capped) of its predecessor, and then that was shorter than the window |
| TwoFactorRuns.LockLengthsExact | nftopia-backend/src/auth/two-factor-throttle.service.ts:107-124 | the lock lengths that occur in checked runs are exactly those whose predecessor in the escalation is shorter than the window |
| TwoFactorRuns.EscalationStopsAtTheWindow | nftopia-backend/src/auth/two-factor-throttle.service.ts:107-124 | no lock exceeds the first one or twice the window less one second, whatever the ceiling |
| TwoFactorRuns.DefaultLocks | nftopia-backend/src/auth/two-factor-throttle.service.ts:63-72 | with the default settings locks last 30, 60, 120, 240 or 480 s and nothing else |
| TwoFactorRuns.LocksOnlyExtendIff | nftopia-backend/src/auth/two-factor-throttle.service.ts:103-133 | no failure recorded under a lock ends it sooner, in all runs, successes included, if and only if every failure locks or the ceiling is at most the window |
| TwoFactorRuns.CutShort | nftopia-backend/src/auth/two-factor-throttle.service.ts:128-132 | otherwise a run after which one more failure ends the lock sooner |
| TwoFactorRuns.FailureRateBound | nftopia-backend/src/auth/two-factor-throttle.service.ts:80-133 | without a success, at most maxAttempts * (T div gap + 1) checked failures span T ms |
| TwoFactorMemory.CountedFailureIsForgotten | nftopia-backend/src/auth/two-factor-throttle.service.ts:128-132 | a failure that only counts is remembered until exactly `windowSeconds * 1000` ms have passed and nothing is from then on |
| TwoFactorMemory.LockingFailureIsForgotten | nftopia-backend/src/auth/two-factor-throttle.service.ts:107-125 | a failure that locks is remembered until both the lock and the window have passed; the key is locked for exactly the lock's length |
| TwoFactorMemory.RunExplained | nftopia-backend/src/auth/two-factor-throttle.service.ts:80-157 | in every checked run the stored entry is the one told by the last lock and the instants of the failures since it or the last success |
| TwoFactorMemory.LocksIff | nftopia-backend/src/auth/two-factor-throttle.service.ts:103-132 | in every checked run a failure locks if and only if it and the `maxAttempts - 1` failures before it, since the last lock or success, each came less than a window after the one before |
| TwoFactorMemory.LockLengthIff | nftopia-backend/src/auth/two-factor-throttle.service.ts:107-124 | a lock doubles the one before (capped) if and only if no success came since and every failure since came less than a window after the one before it, the first less than a window after that lock was set; otherwise it is a first lock |
| TwoFactorOverlap.CountsInRange | nftopia-backend/src/auth/two-factor-throttle.service.ts:103-133 | however reads and writes interleave, stored and read counts stay below the threshold |
| TwoFactorOverlap.WriteIsAtomicIff | nftopia-backend/src/auth/two-factor-throttle.service.ts:103-133 | a write does what a failure recorded in one step would do if and only if the counts it read are still stored, and the lock too unless it sets a new one |
| TwoFactorOverlap.WriteUnlocksIff | nftopia-backend/src/auth/two-factor-throttle.service.ts:128-132 | a write ends a lock in force if and only if it only counts, from a state read without a lock |
| TwoFactorOverlap.UndisturbedIsAtomic | nftopia-backend/src/auth/two-factor-throttle.service.ts:103-133 | a run whose writes all find what they read, without a success for a locked key, is a run of failures recorded in one step |
| TwoFactorOverlap.OverlappingFailuresCountOnce | nftopia-backend/src/auth/two-factor-throttle.service.ts:104-105 | whatever is stored, any number of failures that all read before any of them writes count as one, in whatever order they write |
| TwoFactorOverlap.StaleWriteErasesLock | nftopia-backend/src/auth/two-factor-throttle.service.ts:128-132 | for every policy with a threshold above one, a run in which a failure that read before a lock erases it |
| TwoFactorOverlap.WriteShortensIff | nftopia-backend/src/auth/two-factor-throttle.service.ts:107-132 | exactly when a write lets a lock in force end sooner |
| TwoFactorOverlap.StaleWriteShortensLock | nftopia-backend/src/auth/two-factor-throttle.service.ts:107-124 | for every policy with base below the ceiling, a run in which a failure that read before a lock replaces it by a shorter one |
| MobileSession.EveryInterleaving | nftopia-mobile-app/stores/authStore.ts:128-290 | in every interleaving: at most one token rotation in flight, which is the shared promise; no timer pending but the one `refreshTimer` holds, and that one set by the current generation of a signed-in session for its current expiry |
| MobileSession.StepSingleFlight | nftopia-mobile-app/stores/authStore.ts:269-290 | every step keeps one rotation at most, named by the shared promise, with every call's promise either in flight or settled |
| MobileSession.StepTimerMatches | nftopia-mobile-app/stores/authStore.ts:400-408 | every step leaves no timer pending but the remembered one, whose delay is min(max(1000, (expiry - 120) * 1000 - arming time), 2^31 - 1) of the current expiry and whose generation is the current one |
| MobileSession.StepNoResurrection | nftopia-mobile-app/src/services/auth/tokenStorage.ts:28-36 | every step keeps, for every logout that has begun: behind its clear no refreshed pair of an earlier session waits to be written, and none is stored once the clear ran |
| MobileSession.CallsShareTheRotation | nftopia-mobile-app/stores/authStore.ts:269-290 | a refresh requested while a rotation is in flight starts nothing and gets its promise; otherwise exactly one rotation starts |
| MobileSession.OutcomesFixed | nftopia-mobile-app/stores/authStore.ts:269-290 | a settled promise never changes, so all callers that share it see one outcome |
| MobileSession.StaleReplyIsInert | nftopia-mobile-app/stores/authStore.ts:273-284 | when the reply of a refresh whose session has ended settles, it returns false and changes nothing else: no logout, no user, no tokens, no timer |
| MobileSession.StaleRefreshFails | nftopia-mobile-app/stores/authStore.ts:271-284 | once a login or logout has begun, a refresh still waiting for its reply can only end in false, however the run goes on |
| MobileSession.LogoutLeavesNoRefreshedTokens | nftopia-mobile-app/src/services/auth/walletAuth.service.ts:124-170 | for every logout, on its own or after a failed refresh: once its clear has run, on every continuation no pair fetched by a refresh of a session before it is stored (which pairs are, `MobileTokens` says) |
| MobileSession.SettlesTrueIff | nftopia-mobile-app/stores/authStore.ts:273-278 | a refresh returns true exactly when its expiry is read |
| MobileSession.OutdatedRefreshSucceedsIff | nftopia-mobile-app/stores/authStore.ts:273-278 | a refresh whose session has ended can still return true on some continuation if and only if it is reading the expiry |
| MobileSession.LeavesExpiryIff | nftopia-mobile-app/stores/authStore.ts:112-290 | exactly which events leave an expiry in a signed-out store: an overtaken expiry read; and, in a signed-in store, a failed login, the `catch` of `initializeAuth`, `setUser(null)` or saved state that was signed out |
| MobileTokens.RotationStoresItsPair | nftopia-mobile-app/src/services/auth/walletAuth.service.ts:156-160 | when the rotation of a current refresh succeeds, the pair it fetched is queued as the last write, the refresh waits for exactly that write, and writing everything queued leaves that pair stored |
| MobileTokens.RefreshIsSavedFirst | nftopia-mobile-app/stores/authStore.ts:273-278 | in every interleaving a refresh that reads the expiry, and so one that returned true, had the pair it fetched itself written with success before |
| MobileTokens.LoginIsSavedFirst | nftopia-mobile-app/stores/authStore.ts:182-207 | in every interleaving a wallet session that is shown, and a login about to sign in, had its pair written with success before |
| MobileTokens.RunSavedFirst | nftopia-mobile-app/src/services/auth/tokenStorage.ts:30-36 | in every interleaving each refresh, login and logout waits for the write it queued itself, executed or still queued, and writes end in the order of their tickets |
| MobileTokens.StoredIff | nftopia-mobile-app/src/services/auth/tokenStorage.ts:30-36 | what is stored after any run is exactly what the last executed write with an effect saved |
| MobileTokens.LogoutGoesOnIff | nftopia-mobile-app/stores/authStore.ts:221-231 | in every interleaving a logout goes on if and only if the clear it queued itself has been executed |
| MobileTokens.StepQueues | nftopia-mobile-app/src/services/auth/tokenStorage.ts:30-36 | exactly which events queue which writes, and that queued writes are executed in their order |
| MobileTokens.RefreshCanReturnTrueIff | nftopia-mobile-app/stores/authStore.ts:269-290 | from a reachable state a refresh can still return true if and only if it reads the expiry, or its generation is current, it is not signing out, and its save has not failed |
| MobileTimers.TimerSetIff | nftopia-mobile-app/stores/authStore.ts:400-408 | after every run, an event that changes who is signed in or the expiry leaves exactly one timer, set for the new expiry, if a session with one is then shown, and none otherwise; any other leaves the timers alone but for one that fires and the start of a login or logout |
| MobileTimers.TimerFiresIff | nftopia-mobile-app/stores/authStore.ts:404-407 | in every run a pending timer is due two minutes before the expiry of the session shown, but at least 1 s and at most 2^31 - 1 ms after it was set; before that it does nothing, then it starts a rotation unless one is in flight |
| MobileLogout.StepShows | nftopia-mobile-app/stores/authStore.ts:112-290 | exactly what each event shows (user, signed in, expiry), and that each sign-in is a new session that remembers the wallet login it came from |
| MobileLogout.RefreshChangesSessionsOnlyByLogout | nftopia-mobile-app/stores/authStore.ts:269-290 | refreshing changes who is signed in only by the end of the logout that follows a failed rotation |
| MobileLogout.RefreshBeginsLogoutIff | nftopia-mobile-app/stores/authStore.ts:279-283 | a resumed refresh begins that logout if and only if it fails and no login or logout has begun since it started |
| MobileLogout.LateSignOutIff | nftopia-mobile-app/stores/authStore.ts:245-259 | in every reachable state the end of a logout, on its own or inside a refresh, signs out a session that began after it if and only if one is shown that a later sign-in of any kind opened; if a wallet login begun after the logout opened it, the generation has moved on |
| MobileLogout.EveryLogoutCanSignOutLater | nftopia-mobile-app/stores/authStore.ts:221-259 | from every reachable state with a logout under way a continuation in which it does, leaving the later wallet login's token pair stored with nothing waiting to clear it |
| MobileLogout.EveryLogoutCanSignOutSetUser | nftopia-mobile-app/stores/authStore.ts:112-118 | likewise for a session that `setUser` opens, without the generation moving, so that a check of it would not prevent this |
| MobileLogout.RefreshCanSignOutLaterIff | nftopia-mobile-app/stores/authStore.ts:269-290 | from a reachable state a refresh can still end by signing out a session opened after the refresh began if and only if its generation is current or it is already signing out |
| MobileLogout.LoginCanSignInIff | nftopia-mobile-app/stores/authStore.ts:182-218 | from a reachable state a wallet login under way can still sign in if and only if the save it waits for has not failed |
| MobileLogout.EveryLoginCanOutliveLogout | nftopia-mobile-app/stores/authStore.ts:182-207 | from every reachable state with a wallet login under way whose save has not failed, a continuation in which a whole logout comes first and the login then signs in all the same |
| MobileLogout.AlwaysNumbered | nftopia-mobile-app/stores/authStore.ts:128-290 | in every interleaving sessions, logins, refreshes and logouts belong to sign-ins and generations that have begun, and wait for writes that are queued or done |
| MobileLogout.FailedRefreshSignsOutNewLogin | nftopia-mobile-app/stores/authStore.ts:279-283 | a concrete start: a refresh begun before the login, whose rotation fails |
| MobileLogout.LogoutCanOvertakeRefresh | nftopia-mobile-app/stores/authStore.ts:274-278 | from every reachable state with a refresh reading the expiry, a continuation in which a whole logout comes first: the refresh returns true, the store is signed out but holds the expiry, and no timer is pending |
| MobileLogout.RefreshComesToReading | nftopia-mobile-app/stores/authStore.ts:269-276 | such states are reached |
| MobileAuthStore.AuthStore.Set | nftopia-mobile-app/stores/authStore.ts:400-408 | keeps the invariant: the remembered timer is cancelled and a new one set exactly when authentication or expiry changed |
| MobileAuthStore.AuthStore.RefreshSession | nftopia-mobile-app/stores/authStore.ts:269-273 | keeps the invariant: exactly the returned promise's rotation is in flight afterwards, an old one or one started now |
| MobileAuthStore.AuthStore.OnTimer | nftopia-mobile-app/stores/authStore.ts:406-407 | a timer that fires is the one `refreshTimer` holds; none is pending afterwards and a rotation is in flight |
| MobileAuthStore.AuthStore.Finish | nftopia-mobile-app/stores/authStore.ts:285-287 | keeps the invariant: the promise settles and nothing is in flight |
| MobileAuthStore.AuthStore.StartSignOut | nftopia-mobile-app/stores/authStore.ts:221-231 | keeps the invariant: up to its first await a logout begins a new generation, leaves no timer pending and queues the clear |
| AppLock.AppLockStore.UnlockApp | nftopia-mobile-app/stores/authStore.ts:314-338 | moves the lock by one unlock step and succeeds exactly when the lock is off, or outside a lockout without a (non-empty) PIN |
| AppLock.EnabledLockHolds | nftopia-mobile-app/stores/authStore.ts:322-334 | a PIN never opens an enabled lock, and during a lockout no attempt changes anything |
| AppLock.AttemptsInRange | nftopia-mobile-app/stores/authStore.ts:326-332 | in every run the failed attempts stay in 0..4 |
| AppLock.PinsExplained | nftopia-mobile-app/stores/authStore.ts:314-341 | in every run attempts and lockout are what the PINs so far tell: every fifth one since a lockout began or all was forgotten locks out for 30 s |
| AppLock.OpensIff | nftopia-mobile-app/stores/authStore.ts:314-338 | in every run an attempt opens the lock if and only if the lock is off, or no lockout is in force and no PIN, or an empty one, was given |
| AppLock.LockedAfter | nftopia-mobile-app/stores/authStore.ts:307-307 | which other events lock and unlock the app |
| AppLock.PinRateBound | nftopia-mobile-app/stores/authStore.ts:314-346 | in every run at most 5 * (T div 30000 + 1 + f) counted PIN attempts span T ms, f being how often attempts were forgotten by a reset, sign-in, sign-out, restart or biometric success |
| AppLock.RestartForgets | nftopia-mobile-app/stores/authStore.ts:381-388 | with a restart after each, any number of PIN attempts is counted at one instant |
| AdminSession.EveryInterleaving | nftopia-admin/src/auth/authStore.ts:57-188 | in every interleaving: signed in means the stored token is the session's, its claims are admin and the user id is its subject; the pending timers are the one the store remembers or none, armed by the latest session; and while signed in there is one exactly if the token expires, due at the capped expiry |
| AdminSession.StepSafe | nftopia-admin/src/auth/authStore.ts:80-186 | every action, reply and timer keeps that |
| AdminSession.NoExpiredSession | nftopia-admin/src/auth/authStore.ts:96-105 | nobody is signed in past the expiry of their token: a timer is pending, due no later than it and set no further than 2^31 - 1 ms |
| AdminSession.SessionEndsIff | nftopia-admin/src/auth/authStore.ts:73-186 | exactly which events leave a signed-in session alone; whatever timer fires is the remembered one, armed by that session |
| AdminSession.OldTimersAreGone | nftopia-admin/src/auth/authStore.ts:99-105 | a timer pending in one session is not pending any more once another session has started, however the run goes on |
| AdminSession.SessionLastsUntilDue | nftopia-admin/src/auth/authStore.ts:96-105 | in every interleaving a session with an expiry lasts exactly until the expiry, or 2^31 - 1 ms after it began if that is sooner: its timer does nothing before and ends it as expired then |
| AdminSession.SessionWithoutExpiryLasts | nftopia-admin/src/auth/authStore.ts:100-105 | a session whose token has no expiry has no timer and time alone does not end it |
| AdminSession.SendsItsOwnRequest | nftopia-admin/src/auth/authStore.ts:158-174 | a login, and a code while one is asked for, show as pending and send one request of their own; requests already pending stay |
| AdminSession.EndsWithNotice | nftopia-admin/src/auth/authStore.ts:178-186 | a log-out ends the session with the given notice, and a rejected request a signed-in one as expired |
| AdminSession.Judge | nftopia-admin/src/auth/authStore.ts:87-97 | a token starts a session if and only if it can be read, its role is ADMIN, and it has no expiry or one still ahead; the reason otherwise |
| AdminSession.ReplyLetsInIff | nftopia-admin/src/auth/authStore.ts:87-139 | a pending reply signs in with its token and that token's user exactly under that condition; otherwise the session ends with `not_admin` for another role and `unknown` for an unreadable or expired token |
| AdminSession.RestoreLetsInIff | nftopia-admin/src/auth/authStore.ts:149-156 | a stored token is restored exactly under that condition and else dropped, with a notice only if an admin's has expired |
| AdminSession.OtherRepliesDecide | nftopia-admin/src/auth/authStore.ts:125-175 | what a request for a code and a failed request lead to |
| AdminSession.LoginLetsInIff | nftopia-admin/src/auth/authStore.ts:158-165 | from every page load and after every run, a login whose reply brings a token signs in with it if and only if its claims let its owner in |
| AdminSession.LateReplySignsInIff | nftopia-admin/src/auth/authStore.ts:158-180 | after a log-out a reply signs in if and only if its request was pending and it brings an admin token that has not expired |
| AdminSession.LeftBehindIff | nftopia-admin/src/auth/authStore.ts:125-186 | exactly which events leave a stored token or a pending timer behind without a signed-in state: a new login, a request for a code, and a rejected code |
| AdminAuthStore.AuthStore.StartSession | nftopia-admin/src/auth/authStore.ts:87-119 | keeps the invariant: a readable, unexpired admin token starts a session whose timer, if any, is the only pending one; any other outcome changes nothing |
| AdminAuthStore.AuthStore.EndSession | nftopia-admin/src/auth/authStore.ts:73-84 | no timer is pending, no token stored, and the state is the given one |
| AdminAuthStore.AuthStore.ReplySettles | nftopia-admin/src/auth/authStore.ts:160-175 | keeps the invariant: a reply completes its own request; a failed login ends the session, a failed code returns to its own temporary token |
| AdminAuthStore.AuthStore.OnExpiry | nftopia-admin/src/auth/authStore.ts:101-104 | a timer that fires is the remembered one, ends the session as expired and leaves none pending |
| Chat.OneLiveStreamIff | nftopia-mobile-app/stores/assistantStore.ts:43-136 | after every event of a run exactly one stream is live while streaming, the one that can be cancelled, and none otherwise, if and only if no repeated end report arrives while a newer reply streams |
| Chat.CancelledForGood | nftopia-mobile-app/stores/assistantStore.ts:81-104 | once its stream is cancelled, a reply's text and place never change on any continuation until the conversation is cleared, and it never comes back after that |
| Chat.SecondEndOrphansAStream | nftopia-mobile-app/src/services/ai/aiChat.service.ts:97-118 | a run in which the second report leaves a live stream that cancelling does not stop |
| Chat.RepliesAreTheirTokens | nftopia-mobile-app/stores/assistantStore.ts:81-131 | in every run a reply is the tokens delivered to it, in order, after the text of an error if one found it empty |
| Chat.SessionKnownIff | nftopia-mobile-app/stores/assistantStore.ts:89-121 | in every run the known server session is exactly the last one named by a stream that was not cancelled, unless since then the conversation was cleared or such a stream reported an error that means it is lost |
| Chat.ErrorShows | nftopia-mobile-app/stores/assistantStore.ts:103-131 | what an error shows: its message, and in a reply still empty that the session has expired if one is known and the message says so, else the message; other replies keep their text |
| Chat.CancelStops | nftopia-mobile-app/stores/assistantStore.ts:43-47 | cancelling stops what streams and changes nothing else; no stream is live then if there was one at most |
| Chat.ClearStartsOver | nftopia-mobile-app/stores/assistantStore.ts:49-52 | clearing leaves the store as at the start but for streams and ids given out, and no stream live if there was one at most |
| Chat.KeepsExactly | nftopia-mobile-app/stores/assistantStore.ts:142-158 | of the messages exactly the blank replies are dropped, wherever they stand, and all others stay in order |
| Chat.SavesSettled | nftopia-mobile-app/stores/assistantStore.ts:142-147 | what is saved is the session and the kept messages, none of them streaming any more |
| Chat.ReloadIsIdempotent | nftopia-mobile-app/stores/assistantStore.ts:142-175 | a restart keeps the session and all messages but blank replies, in order and with their text; nothing is left streaming; a second restart changes nothing |
| Chat.AssistantStore.SendMessage | nftopia-mobile-app/stores/assistantStore.ts:54-136 | adds a trimmed question and an empty streaming reply and starts its stream; does nothing for blank text or while streaming |
| Chat.AssistantStore.CancelStream | nftopia-mobile-app/stores/assistantStore.ts:43-47 | aborts the controlled stream and stops streaming |
| Chat.AssistantStore.Clear | nftopia-mobile-app/stores/assistantStore.ts:49-52 | cancels and forgets messages, session and error |
| Chat.AssistantStore.OnToken | nftopia-mobile-app/stores/assistantStore.ts:81-88 | appends to the stream's own reply unless cancelled |
| Chat.AssistantStore.OnDone | nftopia-mobile-app/stores/assistantStore.ts:93-102 | ends streaming and marks the stream's own reply unless cancelled |
| Chat.AssistantStore.OnError | nftopia-mobile-app/stores/assistantStore.ts:103-132 | ends streaming, fills the reply only if empty, and drops the session only if the server lost it |
| Retry.ParseResponseError | nftopia-frontend/utils/fetchUtils.ts:90-140 | a refused response is worth a retry if and only if its status is 500 or above |
| Retry.Normalize | nftopia-frontend/utils/fetchUtils.ts:49-85 | an API error stays as it is; an aborted or failed fetch and anything unexpected are retried, each under its own code |
| Retry.FetchWithRetries | nftopia-frontend/hooks/useOptimizedFetch.ts:89-113 | the loop makes the attempts and waits of its specification, which the rows below are about |
| Retry.LoopMatchesRecursion | nftopia-frontend/utils/fetchUtils.ts:145-160 | from any attempt on, the loop makes the attempts and waits of the recursion with its result, cut off at the first attempt that fails with the signal aborted |
| Retry.AbortCutsTheLoop | nftopia-frontend/hooks/useOptimizedFetch.ts:95-97 | an abort ends the loop at the first attempt that fails under it: the attempts and waits so far are the recursion's and no more are made |
| Retry.SameRetriesIff | nftopia-frontend/utils/fetchUtils.ts:145-160 | the two agree in full if and only if the retry count is not negative and no attempt fails with the signal aborted |
| Retry.BackoffLaw | nftopia-frontend/utils/fetchUtils.ts:145-160 | at most retries + 1 attempts, the first success or final error is the result, wait i is delay * 2^i, and k waits total delay * (2^k - 1) |
| Retry.DoublingAddsUp | nftopia-frontend/hooks/useOptimizedFetch.ts:107-109 | n doubling waits total delay * (2^n - 1) |
| Dedupe.RunInv | nftopia-frontend/hooks/useOptimizedFetch.ts:51-132 | in every interleaving the in-flight map holds exactly the requests whose starting call has not resumed, each under its own key |
| Dedupe.OneRequestPerKey | nftopia-frontend/hooks/useOptimizedFetch.ts:58-72 | at most one request per key is in flight; meanwhile nothing is cached for the key, and a call starts none and waits for that one |
| Dedupe.WaitersShareTheOutcome | nftopia-frontend/hooks/useOptimizedFetch.ts:58-70 | every waiting call can resume once its request has settled and gets exactly its outcome |
| Dedupe.ResultsFixed | nftopia-frontend/hooks/useOptimizedFetch.ts:51-132 | a call returns once: on every continuation its result stays |
| Dedupe.CachedIff | nftopia-frontend/hooks/useOptimizedFetch.ts:51-86 | in every interleaving the cached answer to a key is exactly the last one a request for it brought, unless it was refetched since |
| Dedupe.CachedCallReturns | nftopia-frontend/hooks/useOptimizedFetch.ts:51-56 | a later call gets that answer at once and starts nothing |
| Dedupe.StartsRequestIff | nftopia-frontend/hooks/useOptimizedFetch.ts:51-117 | a call goes to the network if and only if its key has no such answer and no call for it is under way, and then starts one request for its own key |
| Dedupe.OptimizedFetch.FetchData | nftopia-frontend/hooks/useOptimizedFetch.ts:51-117 | answers from the cache, joins the pending request, or starts one and registers it |
| Dedupe.OptimizedFetch.Settles | nftopia-frontend/hooks/useOptimizedFetch.ts:84-86 | a success is cached before any caller resumes |
| Dedupe.OptimizedFetch.Resumes | nftopia-frontend/hooks/useOptimizedFetch.ts:117-132 | the caller gets the outcome; only the one that started the request removes it from the map |
| Dedupe.OptimizedFetch.Refetch | nftopia-frontend/hooks/useOptimizedFetch.ts:154-157 | drops the cached answer and fetches |
| Strings.SplitJoin | nftopia-frontend/utils/translation-validator.ts:16-16 | splitting undoes joining of parts without the separator |
| Strings.JoinSplit | nftopia-frontend/hooks/useTranslation.ts:63-63 | joining undoes splitting |
| Translations.FlattenObject | nftopia-frontend/utils/translation-validator.ts:11-31 | the loop builds the flat map, later properties overwriting earlier ones with the same dotted key |
| Translations.FlatKeyHasPath | nftopia-frontend/utils/translation-validator.ts:11-31 | every flattened key spells the path of a leaf and holds that leaf |
| Translations.LeafHasFlatKey | nftopia-frontend/utils/translation-validator.ts:11-31 | every leaf's path spells a flattened key |
| Translations.DottedKeyInjective | nftopia-frontend/utils/translation-validator.ts:16-16 | different paths of clean names have different dotted keys |
| Translations.FlatIsLookup | nftopia-frontend/hooks/useTranslation.ts:63-68 | a key is flattened exactly when walking its parts ends at a leaf, and holds that leaf |
| TranslationNames.SplitJoinIff | nftopia-frontend/hooks/useTranslation.ts:63-63 | splitting undoes joining if and only if no part has the separator |
| TranslationNames.SplitsBackIff | nftopia-frontend/utils/translation-validator.ts:16-16 | the parts of a flattened key are the path it came from if and only if no name has a dot and no leading empty name is lost |
| TranslationNames.EveryLeafFoundIff | nftopia-frontend/utils/translation-validator.ts:11-31 | for trees with any names, every leaf is found again, by its own path and with its own value, under its flattened key if and only if no name on a path to a leaf has a dot and no object at the top has the empty name |
| TranslationNames.FlatAgreesWithLookupIff | nftopia-frontend/hooks/useTranslation.ts:63-68 | by value: for trees whose leaves all differ, flattening and lookup agree on every leaf under exactly that condition |
| TranslationNames.DottedNameBreaksLookup | nftopia-frontend/utils/translation-validator.ts:16-25 | a tree with a dotted name in which a key flattens to one leaf and looks up another |
| TranslationNames.EmptyNameBreaksLookup | nftopia-frontend/utils/translation-validator.ts:16-16 | a tree with an empty name in which a flattened key is not found |
| Translations.SameTypeIff | nftopia-frontend/utils/translation-validator.ts:33-37 | two leaves have the same type name if and only if they are of the same kind |
| Translations.ValidateTranslations | nftopia-frontend/utils/translation-validator.ts:39-101 | the three lists hold exactly the keys missing on one side, of different types, and empty; valid iff both sides have the same keys with the same types |
| Translations.T | nftopia-frontend/hooks/useTranslation.ts:59-101 | the walk with its fallback loop computes the translation, including the error of reading a property of null |
| Translations.ValidIffBothAnswer | nftopia-frontend/hooks/useTranslation.ts:59-101 | a pair is valid iff for every key of either language and every count French answers with its own leaf and English with its own: never the fallback, never the raw key |
| Translations.FallbackIsWalk | nftopia-frontend/hooks/useTranslation.ts:66-79 | the English fallback finds what a plain walk finds, and a leaf if and only if it is not the empty text, null, 0 or false |
| Translations.ThrowsIff | nftopia-frontend/hooks/useTranslation.ts:81-90 | for any trees a translation throws if and only if a count is given and the language's own value is null |
| Translations.TextComesFrom | nftopia-frontend/hooks/useTranslation.ts:66-79 | where the French text of an English key comes from in every case, valid or not |
| Translations.PluralShown | nftopia-frontend/hooks/useTranslation.ts:81-90 | a counted message shows the singular for 0 and 1 and else the plural, or the raw key if either form is empty |
| Translations.PluralOfValidPair | nftopia-frontend/hooks/useTranslation.ts:81-90 | in a valid pair French has both forms of every English counted message and shows its own, or the raw key iff one is empty |
| Versions.TotalPreorder | nftopia-mobile-app/lib/versionCheck.ts:93-131 | on all strings the comparison is reflexive, antisymmetric in sign and transitive, with unparseable strings equal and below all others |
| Versions.PrecedenceExactly | nftopia-mobile-app/lib/versionCheck.ts:102-131 | on what the parser returns, the comparison is the precedence of section 11 of Semantic Versioning 2.0.0 if and only if the two are not `x` and `x.0`, which tie |
| Versions.NamedComparison | nftopia-mobile-app/lib/versionCheck.ts:116-130 | parsed identifiers begin with a letter, so they compare by characters and then by number: the numeric branch never applies |
| Versions.StateIff | nftopia-mobile-app/lib/versionCheck.ts:155-174 | on all strings: an update is required exactly below the minimum, available exactly from the minimum on and below the latest, and what cannot be parsed asks for nothing |
| Versions.NewerIsNeverWorse | nftopia-mobile-app/lib/versionCheck.ts:155-174 | a newer parseable version is never asked for more, whatever the gate |
| Versions.NumbersRead | nftopia-mobile-app/lib/versionCheck.ts:47-69 | one to four numbers between dots are read, with or without leading v: missing ones are 0, a fourth is ignored, and five or more are refused |
| Versions.PrereleaseReads | nftopia-mobile-app/lib/versionCheck.ts:71-79 | a word with a dot and a number behind it is read as such; a dot alone stays part of the word |
| Versions.PrereleaseReadIff | nftopia-mobile-app/lib/versionCheck.ts:71-79 | exactly the words with nothing, a dot, or a dot and a number behind them are read |
| Versions.ReadsBack | nftopia-mobile-app/lib/versionCheck.ts:47-87 | a written version parses to itself, with or without leading v and surrounding blanks |
| Versions.PrereleaseReadsBack | nftopia-mobile-app/lib/versionCheck.ts:72-79 | a written prerelease parses to itself |
| StandardVersions.ReadWholeIff | nftopia-mobile-app/lib/versionCheck.ts:47-87 | of all strings of the grammar of Semantic Versioning 2.0.0, the parser reads without loss exactly those without build metadata whose prerelease is absent, a word beginning with a letter, or such a word and a number |
| StandardVersions.DashFreeRead | nftopia-mobile-app/lib/versionCheck.ts:54-79 | a string of the grammar without dashes in its prerelease is read whole or refused |
| StandardVersions.ReadWholeAgreesIff | nftopia-mobile-app/lib/versionCheck.ts:93-131 | of two strings read without loss, the comparison is the standard's if and only if neither is the other with `.0` added |
| StandardVersions.RefusedAgreesIff | nftopia-mobile-app/lib/versionCheck.ts:97-100 | without dashes, if one is not read whole, the comparison agrees exactly where the standard puts it below every string that is read and level with the others |
| StandardVersions.DashTailsTie | nftopia-mobile-app/lib/versionCheck.ts:54-54 | for every version with a prerelease and any two tails behind a dash, the two compare equal although the standard orders them by the tails |
| Recency.RecentlyViewedStore.TrackView | nftopia-mobile-app/stores/recentlyViewedStore.ts:33-44 | the list stays what cutting at every view leaves of the history since the last clear |
| Recency.RecentlyViewedStore.ClearHistory | nftopia-mobile-app/stores/recentlyViewedStore.ts:46-48 | list and history are empty |
| Recency.Filtered | nftopia-mobile-app/stores/recentlyViewedStore.ts:37-37 | the filter keeps exactly the other items, in order |
| Recency.CuttingCommutes | nftopia-mobile-app/stores/recentlyViewedStore.ts:33-44 | cutting at every view equals cutting once at the end |
| Recency.LatestAreLastViews | nftopia-mobile-app/stores/recentlyViewedStore.ts:33-44 | the uncut list is the last view of every item, latest first |
| Recency.RecentlyViewedExactly | nftopia-mobile-app/stores/recentlyViewedStore.ts:33-44 | after any views the list is the first `cap` distinct items of the reversed history, each once |
| Recency.ShorterIsPrefix | nftopia-mobile-app/stores/searchStore.ts:76-81 | of two lists over one history the one with the smaller cap is a prefix of the other |
| AddressBook.AddOutcome | nftopia-mobile-app/stores/addressBookStore.ts:112-141 | adding puts one entry of the trimmed fields behind all others, or reports the first check that fails, an address already saved being the last |
| AddressBook.UpdateOutcome | nftopia-mobile-app/stores/addressBookStore.ts:143-178 | an update of an entry with an id of its own changes its given fields and the date of the change in place and nothing else, or reports the first check that fails |
| AddressBook.UpdateFindsIff | nftopia-mobile-app/stores/addressBookStore.ts:144-145 | an update finds no contact if and only if no entry carries the id |
| AddressBook.RemovesExactly | nftopia-mobile-app/stores/addressBookStore.ts:183-185 | every entry with the id goes, wherever it stands, and all others stay in order |
| AddressBook.RemoveOutcome | nftopia-mobile-app/stores/addressBookStore.ts:180-187 | removing succeeds if and only if an entry carries the id; one with an id of its own is cut out |
| AddressBook.AddKeepsSound | nftopia-mobile-app/stores/addressBookStore.ts:112-141 | adding keeps saved addresses trimmed, valid and pairwise different |
| AddressBook.UpdateKeepsSoundIff | nftopia-mobile-app/stores/addressBookStore.ts:143-178 | an update keeps them so if and only if one entry carries the id |
| AddressBook.RemoveKeepsSound | nftopia-mobile-app/stores/addressBookStore.ts:180-187 | removing keeps them so and keeps only entries that were there with another id |
| AddressBook.IncomingIff | nftopia-mobile-app/stores/addressBookStore.ts:254-266 | exactly which files are read, and which lists they bring |
| AddressBook.ImportsSomethingIff | nftopia-mobile-app/stores/addressBookStore.ts:310-319 | a readable file is imported if and only if it brings an entry or a recipient, its entries behind those there |
| AddressBook.ImportKeepsSound | nftopia-mobile-app/stores/addressBookStore.ts:249-324 | an import leaves existing entries as an unchanged prefix and, without padded addresses, the book sound |
| AddressBook.ImportAlwaysSoundIff | nftopia-mobile-app/stores/addressBookStore.ts:268-296 | a readable file can be imported into every sound book safely iff no item it would save is padded |
| AddressBook.PaddedImportDuplicates | nftopia-mobile-app/stores/addressBookStore.ts:282-295 | for every file with a padded item, a sound book that importing it breaks |
| AddressBook.PaddedIsSaved | nftopia-mobile-app/stores/addressBookStore.ts:273-296 | a padded item is saved under its trimmed address whether or not that is already known |
| AddressBook.ImportedEntry | nftopia-mobile-app/stores/addressBookStore.ts:286-294 | an imported entry keeps its id and dates if they say something, and gets a fresh id and today's date otherwise; label, address and memo are trimmed |
| AddressBook.ImportedRecent | nftopia-mobile-app/stores/addressBookStore.ts:301-307 | an imported recipient keeps its count if that is a number and else has been sent to once |
| AddressBook.MemoReadableIff | nftopia-mobile-app/stores/addressBookStore.ts:290-290 | a memo stops the import unless it is missing, `null` or text |
| AddressBook.ExportHolds | nftopia-mobile-app/stores/addressBookStore.ts:238-247 | an export holds all entries and recents, the date and version 1, and nothing else |
| AddressBook.ExportThenImport | nftopia-mobile-app/stores/addressBookStore.ts:238-324 | importing the export of a well-formed non-empty book into an empty one restores entries and recents, in order |
| AddressBook.RecentAgain | nftopia-mobile-app/stores/addressBookStore.ts:197-219 | sending again moves the recipient to the front with its count one higher; all others keep their order, and twenty stay |
| AddressBook.RecentNew | nftopia-mobile-app/stores/addressBookStore.ts:197-219 | sending for the first time puts the recipient in front with count one; an invalid address changes nothing |
| AddressBook.RecentComesFirst | nftopia-mobile-app/stores/addressBookStore.ts:197-219 | sending puts the address first with its count one higher, keeps addresses different and at most twenty |
| AddressBookRecents.ImportedRecentsDifferIff | nftopia-mobile-app/stores/addressBookStore.ts:314-318 | after an import the recents differ if and only if the kept imported ones differ from each other and from the kept old ones |
| AddressBookRecents.ImportKeepsRecentsDistinctIff | nftopia-mobile-app/stores/addressBookStore.ts:298-318 | a readable file can be imported into every book with different recents without repeating one if and only if it brings none, or so many different ones that nothing old is kept |
| AddressBook.AddressBookStore.AddEntry | nftopia-mobile-app/stores/addressBookStore.ts:112-141 | adds the entry, or reports the first failed check and changes nothing |
| AddressBook.AddressBookStore.UpdateEntry | nftopia-mobile-app/stores/addressBookStore.ts:143-178 | updates, or reports the first failed check and changes nothing |
| AddressBook.AddressBookStore.RemoveEntry | nftopia-mobile-app/stores/addressBookStore.ts:180-187 | removes, or reports a missing contact and changes nothing |
| AddressBook.AddressBookStore.AddRecentRecipient | nftopia-mobile-app/stores/addressBookStore.ts:197-219 | moves the recipient to the front of the recents; entries stay |
| AddressBook.AddressBookStore.CollectEntries | nftopia-mobile-app/stores/addressBookStore.ts:268-296 | the import loop collects what its specification collects, or throws where it throws |
| AddressBook.AddressBookStore.CollectRecipients | nftopia-mobile-app/stores/addressBookStore.ts:298-308 | likewise for recent recipients |
| AddressBook.AddressBookStore.ImportData | nftopia-mobile-app/stores/addressBookStore.ts:249-324 | imports, or reports an error and changes nothing |
| OfflineQueue.OfflineStore.AddToQueue | nftopia-mobile-app/stores/offlineStore.ts:67-76 | the item goes to the end with no retries used and three allowed |
| OfflineQueue.OfflineStore.ProcessQueue | nftopia-mobile-app/stores/offlineStore.ts:78-97 | when nothing else touches the queue meanwhile: offline nothing changes; online the queue becomes, in order, the items that failed with retries left |
| OfflineQueue.RunsAppend | nftopia-mobile-app/stores/offlineStore.ts:78-97 | over any runs a queue behaves like its parts, in order: items do not disturb each other |
| OfflineQueue.ItemFate | nftopia-mobile-app/stores/offlineStore.ts:82-95 | an item is still queued after some runs iff it failed each of them and had a retry for each: it leaves after one success or maxRetries + 1 failures |
| OfflineQueue.QueueFate | nftopia-mobile-app/stores/offlineStore.ts:78-97 | the whole queue after any runs is exactly those items, in their old order |
| OfflineQueue.RunSpendsBudget | nftopia-mobile-app/stores/offlineStore.ts:86-95 | the tries left in the queue fall by at least its length in every run |
| OfflineQueue.FourRunsSuffice | nftopia-mobile-app/stores/offlineStore.ts:67-97 | with the default of three retries four runs empty any queue |
| OfflineOverlap.RunOverwrites | nftopia-mobile-app/stores/offlineStore.ts:78-97 | whatever happens during a run, at its end, which is for good, the queue is what the run leaves of the queue it began with; every item added meanwhile under an id of its own is gone |
| OfflineOverlap.AddedDuringRunIsLost | nftopia-mobile-app/stores/offlineStore.ts:67-97 | from every run with something queued, an item added while the next run is under way stays queued until that ends and is lost then |
| OfflineOverlap.OverlappingRunsShareItems | nftopia-mobile-app/stores/offlineStore.ts:79-86 | a run begun before another has ended takes the same items |
| DayBuckets.BucketByDay | nftopia-admin/src/dlq/dlqStats.ts:41-51 | every index is in range; the buckets are the days up to today without a gap, each counting exactly the entries of its UTC day |
| DayBuckets.OwnDay | nftopia-admin/src/dlq/dlqStats.ts:48-48 | the bucket an instant is counted in is the one of its UTC day |
| DayBuckets.CountsAddUp | nftopia-admin/src/dlq/dlqStats.ts:41-51 | the counts add up to the readable entries of the window's days: none missed, none twice |

## Left out

- Screens, hooks that only connect them, navigation, telemetry, NestJS modules and controllers, database queries: no behaviour over time of their own.
- Set-like stores (favourites, preferences, toasts, filters) and `summarizeMetrics`, `recentActivity` and the confirmation phrases of the dead-letter dashboard: only easy members, or library sorting.
- Redis, the cache manager, Zustand, SecureStore and browser storage: a map with expiry, or a state cell with an atomic `set`; sub-second TTL rounding is not modelled.
- The fail-open branches, logs and metrics of the lockout service: the store is taken to be reachable; `accountRef` is any function of the email, so hash collisions are covered as shared accounts.
- LoginRuns.Run: levels and lock lengths are unbounded integers, where Lua computes with doubles; a lock far above the cap is cut to the cap either way.
- LoginLockout.NeverLate: sign-ins do not overlap in it; `LoginOverlap` is about those that do.
- LoginLockout.ServiceRateBound: likewise; with `width` sign-ins in flight the bound is `width` times as large.
- LoginOverlap.OverlappingServiceRateBound: how many sign-ins can be in flight is a parameter, as the service itself sets no limit; an account is taken without a good sign-in to it.
- TwoFactorThrottle.TwoFactorThrottleService.RecordFailure: reading and writing the entry is one step here; `TwoFactorOverlap` has them apart. Settings are taken positive, as the service does not check them.
- TwoFactorThrottle.ConfigFrom: settings that are not integers are not modelled.
- TwoFactorRuns.LockLastsInFull: a verification admitted before the lock and recorded under it is not checked at once; `LocksOnlyExtendIff` and `TwoFactorOverlap` say what it can do.
- TwoFactorOverlap.UndisturbedIsAtomic: a success recorded for a key that was locked meanwhile has no counterpart in the one-step runs.
- MobileSession.EveryInterleaving: of `initializeAuth` only its updates appear (`RestoreSession`, `RestoreClears`, `RestoreFails`, `RestoreThrows`), at any time and in any order, and of registration by email its stored pair and its `setUser`; a failed save leaves the stored pair as it was, and loading, error and wallet fields are left out.
- AppLock.AppLockStore.UnlockApp: the lock fields live in a class of their own, though they share a store with the session; a completed sign-in, sign-out or restore appears as one event.
- AdminSession.EveryInterleaving: token payloads come from an arbitrary decoding function, timers fire when due, storage is available for the whole page or not at all, and subscribers are not modelled.
- Chat.OneLiveStreamIff: message ids are fresh numbers; which error messages mean a lost session is a parameter; malformed stored items and creation times are not modelled.
- Dedupe.RunInv: calls with deduplication switched off, and a hook instance aborting its own earlier request, are not modelled separately; an aborted request counts as one that failed.
- Retry.FetchWithRetries: the abort signal is looked at only where the loop looks at it, after a failed attempt.
- Translations.T: walking into arrays or texts by index, inherited properties, the order of the reported keys and the interpolation pattern are left out; interpolation is an arbitrary function of the text.
- Versions.TotalPreorder: numbers are unbounded integers, and only text is parsed, not numbers or null.
- StandardVersions.ReadWholeAgreesIff: for strings with a dash inside the prerelease only `DashTailsTie` says how the comparison differs from the standard; when two of them happen to be ordered alike is not characterised.
- Recency.ShorterIsPrefix: recent searches are covered as items without a time; other capped lists of the app are not modelled.
- AddressBook.ExportThenImport: JSON is a datatype rather than text, and the key check is any predicate on trimmed addresses; imported ids and dates are kept as they come; of a failed import only that it fails and why in kind is modelled, not the text that is reported.
- OfflineQueue.QueueFate: runs do not overlap and the queue is not edited during one; `OfflineOverlap` is about those that are. An action's outcome in a run depends on the queued item.
