# Verification of the rate limiters, refresh tokens and scopes

A Dafny model of the parts of the service that have to be right under load and
under concurrency, with proofs of what they promise. `dafny verify
dfyconfig.toml` checks all of it.

## What is modelled

**The in-memory limiter** (`SlidingWindow*.dfy`). `SlidingWindow` gives one
check as a step on a table (the two dictionaries side by side, in insertion
order), runs of checks, the journal of accepted events and evictions that a run
leaves, and a reference that never forgets. `SlidingWindowRuns` proves what
every run keeps. `SlidingWindowPromises`, `SlidingWindowRetry` and
`SlidingWindowEviction` prove what callers rely on. `SlidingWindowLimiter` is
the object itself, with its dictionaries and loops, proved to take exactly those
steps. Time is `real` and does not decrease from one check to the next, as the
monotonic clock guarantees. No two checks interleave: nothing between taking and
releasing the lock suspends.

**The Redis limiter** (`Redis*.dfy`). Calls read a clock, then increment, then
perhaps set an expiry, and may stop anywhere; the server drops a counter at any
time from its deadline on. All calls and the server share one clock.
`RedisWindow` has the protocol and what it promises under a timing assumption on
the log of increments; `RedisTiming` proves that assumption necessary;
`RedisLimiter` is the object over the server.

**Refresh tokens** (`RefreshToken*.dfy`). Login, rotation and revocation are
transactions over a committed table with row locks, uncommitted entries of the
unique index on token hashes, and a journal of commits. An update whose row is
locked waits and evaluates its guard again on the committed row (read
committed). Transactions interleave step by step and may roll back anywhere;
users may be activated and deactivated, and the clock advances. A hash stands
for its token. `RefreshTokenService` has the repository and the service as
methods that change a shared database in place while other sessions act between
any two calls. `RefreshTokenProgress` proves that they never deadlock.

**Seeding the admin user** (`AdminSeed.dfy`, `AdminSeedService.dfy`). Any number
of concurrent calls under the unique index on usernames.

**Text forms** (`Text.dfy`, `Scopes.dfy`, `Base64Url.dfy`, `Passwords.dfy`) and
**scopes end to end** (`AccessScopes.dfy`): from stored text and request through
an access token to the check at an endpoint.

## Where the code does less than it may seem to

* `retry_after` of the in-memory limiter drops the fraction of the wait.
  Retrying after exactly that long is enough if and only if the wait is at most
  one second or a whole number of seconds (`RetryExactly`, `RetryTooSoon`).
* Scopes that contain a comma do not survive being stored (`CsvRoundTrip` is an
  if-and-only-if, `CommaTearsScope` says what becomes of them).
* The Redis limiter's counts are right, whenever expiries are set and carried
  out, if and only if each increment lands less than `2 * W` after the first one
  of its bucket and key (`ExactWhenPunctual`); increments that land within W of
  their own clock reading do (`PromptRunsCount`). A later one can be numbered 1
  and admitted beyond the limit (`LateIncrementIsAdmitted`).
* A refreshed access token carries the stored scopes, not the ones requested at
  login (`RefreshRestoresStoredScopes`, `RefreshWidens`).

## Model

| member | source | states |
|---|---|---|
| SlidingWindowRuns.RunKeepsInvariant | src/__PROJECT_SLUG__/core/middleware/rate_limit.py:48-91 | In every run of non-decreasing checks: at most `max_keys` keys, each with a non-empty sorted queue of at most `max_requests` times, none later than the key's last check, and each queue is what the journal of accepted events remembers of the key less a head that has left the window. |
| SlidingWindowRuns.CheckKeepsTable | src/__PROJECT_SLUG__/core/middleware/rate_limit.py:67-91 | One check keeps the representation invariant of the two dictionaries through pruning, eviction, popping and storing. |
| SlidingWindowRuns.CheckKeepsInvariant | src/__PROJECT_SLUG__/core/middleware/rate_limit.py:67-91 | One check also keeps every key's queue, the incoming one and all others, faithful to the journal. |
| SlidingWindowRuns.LiveQueue | src/__PROJECT_SLUG__/core/middleware/rate_limit.py:52-82 | Pruning keys and popping stale heads lose nothing of the window: what is left is exactly the remembered events in `(now - W, now]`, at most `max_requests` of them. |
| SlidingWindowRuns.DecisionByWindow | src/__PROJECT_SLUG__/core/middleware/rate_limit.py:84-91 | A check allows exactly when fewer than `max_requests` remembered events lie in `(now - W, now]`, and a denial's retry_after comes from the oldest of them. |
| SlidingWindowPromises.RefinesReference | src/__PROJECT_SLUG__/core/middleware/rate_limit.py:52-91 | Every decision on a key that is never evicted in the run equals that of a reference that forgets nothing and counts accepted events in the window. |
| SlidingWindowPromises.AcceptsAsReference | src/__PROJECT_SLUG__/core/middleware/rate_limit.py:67-91 | The events accepted for a never-evicted key are exactly those the reference accepts. |
| SlidingWindowPromises.JournalIsAnswers | src/__PROJECT_SLUG__/core/middleware/rate_limit.py:84-91 | The journal that these laws count in has, for every key, exactly the times of the checks that were answered with an admission. |
| SlidingWindowPromises.WindowBound | src/__PROJECT_SLUG__/core/middleware/rate_limit.py:60-91 | For every key and every window `(t - window_seconds, t]` of any run, accepted events number at most `max_requests * (1 + evictions of that key inside the window)`. |
| SlidingWindowPromises.DenialsAreJustified | src/__PROJECT_SLUG__/core/middleware/rate_limit.py:67-91 | Whenever a check denies, evictions or not, the run's own journal has at least `max_requests` accepted events of the key in the window. |
| SlidingWindowRetry.RetryAfterIsTight | src/__PROJECT_SLUG__/core/middleware/rate_limit.py:84-87 | On a denial with true wait w: `0 < w <= W`, `1 <= retry_after <= W`, `w < retry_after + 1`, and `retry_after <= w` unless `w < 1`. |
| SlidingWindowRetry.RetryHorizon | src/__PROJECT_SLUG__/core/middleware/rate_limit.py:72-91 | After a denial, as long as the key is not evicted, a later check of it is allowed if and only if it comes at or after `now + w`, given that the checks in between came before. |
| SlidingWindowRetry.RetryExactly | src/__PROJECT_SLUG__/core/middleware/rate_limit.py:85 | Retrying after exactly retry_after seconds, checked in between or not, is let in if and only if w is at most one second or a whole number of seconds, absent an eviction of the key. |
| SlidingWindowRetry.RetryTooSoon | src/__PROJECT_SLUG__/core/middleware/rate_limit.py:85 | A concrete run in which the advertised delay is too short: 8 seconds advertised, 8.5 needed. |
| SlidingWindowRetry.AnswersAreWellFormed | src/__PROJECT_SLUG__/core/middleware/rate_limit.py:84-91 | In every run each admission carries no delay and each denial one between 1 and `window_seconds`. |
| SlidingWindowEviction.StorageBound | src/__PROJECT_SLUG__/core/middleware/rate_limit.py:48-91 | Stored timestamps never exceed `max_keys * max_requests`. |
| SlidingWindowEviction.EvictsLeastRecentlyChecked | src/__PROJECT_SLUG__/core/middleware/rate_limit.py:60-65 | The victim is never the incoming key, is itself live, and no live key was checked, denied checks included, longer ago. |
| SlidingWindowEviction.SeenIsLastCheck | src/__PROJECT_SLUG__/core/middleware/rate_limit.py:86-90 | The stored last-seen time of a key is the time of its most recent check, denied ones included. |
| SlidingWindowEviction.EvictsWhenFull | src/__PROJECT_SLUG__/core/middleware/rate_limit.py:60-79 | In any run, whatever it has evicted before, a check evicts if and only if the keys with a remembered event in the window together with the incoming key exceed `max_keys`. |
| SlidingWindowEviction.EvictsWhenCrowded | src/__PROJECT_SLUG__/core/middleware/rate_limit.py:75-77 | Absent earlier evictions, those are the active keys of the reference. |
| SlidingWindowEviction.EvictionFreeIff | src/__PROJECT_SLUG__/core/middleware/rate_limit.py:60-79 | A run evicts nothing if and only if at every check the keys with an accepted event in the window plus the incoming key number at most `max_keys`. |
| SlidingWindowEviction.UncrowdedIsReference | src/__PROJECT_SLUG__/core/middleware/rate_limit.py:67-91 | A run that is never crowded makes the reference's decision at every single check. |
| SlidingWindowLimiter.SlidingWindowRateLimiter.constructor | src/__PROJECT_SLUG__/core/middleware/rate_limit.py:44-50 | A new limiter is empty and stands at the start of a run. |
| SlidingWindowLimiter.SlidingWindowRateLimiter.FindStale | src/__PROJECT_SLUG__/core/middleware/rate_limit.py:53-55 | The collecting loop finds exactly the stale keys. |
| SlidingWindowLimiter.SlidingWindowRateLimiter.PruneStaleKeys | src/__PROJECT_SLUG__/core/middleware/rate_limit.py:52-58 | Popping the collected keys from both dictionaries is pruning, and keeps the dictionaries in step. |
| SlidingWindowLimiter.PopStaleIsPrune | src/__PROJECT_SLUG__/core/middleware/rate_limit.py:53-58 | Popping the stale keys one after the other equals keeping the fresh ones. |
| SlidingWindowLimiter.SlidingWindowRateLimiter.FindOldest | src/__PROJECT_SLUG__/core/middleware/rate_limit.py:63 | The minimum over last-seen times, first inserted on a tie. |
| SlidingWindowLimiter.SlidingWindowRateLimiter.EvictOldestKey | src/__PROJECT_SLUG__/core/middleware/rate_limit.py:60-65 | Evicts exactly that key from both dictionaries, or nothing if there is none. |
| SlidingWindowLimiter.SlidingWindowRateLimiter.PopStale | src/__PROJECT_SLUG__/core/middleware/rate_limit.py:81-82 | The popleft loop leaves the queue from its first fresh event on. |
| SlidingWindowLimiter.SlidingWindowRateLimiter.Check | src/__PROJECT_SLUG__/core/middleware/rate_limit.py:67-91 | The imperative check leaves the dictionaries, and answers, exactly as the next step of the run of all checks so far. |
| RedisWindow.BucketOfFloor | src/__PROJECT_SLUG__/core/middleware/rate_limit.py:132-134 | `floor(now / W) = floor(floor(now) / W)`, which ties the bucket to the retry arithmetic. |
| RedisWindow.RetryReachesNextBucket | src/__PROJECT_SLUG__/core/middleware/rate_limit.py:132-138 | retry_after lies in `[1, W]`, leads into exactly the next bucket, and is the least whole delay that leaves the current one. |
| RedisWindow.DenialReachesNextBucket | src/__PROJECT_SLUG__/core/middleware/rate_limit.py:148-152 | The retry_after of a denial is in `[1, W]`, leads into exactly the next bucket, and no smaller whole delay leaves the present one. |
| RedisWindow.NamesAreDistinct | src/__PROJECT_SLUG__/core/middleware/rate_limit.py:134 | Under one prefix, equal counter names mean equal buckets and equal keys, whatever the keys contain. |
| RedisWindow.PrefixesSeparate | src/__PROJECT_SLUG__/core/middleware/rate_limit.py:134 | Under two prefixes a counter can be shared only if one prefix begins with the other and a colon; `CounterNameExample` gives two names in full. |
| RedisWindow.CountersNeverReset | src/__PROJECT_SLUG__/core/middleware/rate_limit.py:140-154 | Over every interleaving of clock readings, INCRs, EXPIREs, server expiries and ticks, calls that stop anywhere included, if each INCR lands less than `2 * W` after the first one of its bucket and key then every INCR is numbered after all earlier ones of its bucket and key. |
| RedisWindow.ExactAdmission | src/__PROJECT_SLUG__/core/middleware/rate_limit.py:140-154 | Under the same timing, exactly `min(n, max_requests)` of the n increments of a bucket and key are admitted. |
| RedisWindow.FirstComeFirstAdmitted | src/__PROJECT_SLUG__/core/middleware/rate_limit.py:148-154 | They are the first ones to land: an increment is admitted if and only if fewer than `max_requests` landed before it. |
| RedisWindow.TwiceTheLimit | src/__PROJECT_SLUG__/core/middleware/rate_limit.py:132-154 | Under the same timing, in any interval of length at most W, by clock readings, at most `2 * max_requests` requests of a key are admitted. |
| RedisWindow.TimelyIsPunctual | src/__PROJECT_SLUG__/core/middleware/rate_limit.py:141-146 | INCRs that land before the end of the bucket after their own satisfy the timing assumption. |
| RedisWindow.PromptRunsCount | src/__PROJECT_SLUG__/core/middleware/rate_limit.py:141-146 | So do INCRs that land within W of their own clock reading, and then every count is right: this is what the `2 * W` expiry buys. |
| RedisTiming.ExactWhenPunctual | src/__PROJECT_SLUG__/core/middleware/rate_limit.py:144-146 | The timing assumption is necessary too: at given times of readings and landings, the counts are right in every run, whenever expiries are set and carried out, if and only if each INCR lands less than `2 * W` after the first one of its bucket and key. |
| RedisTiming.LateIncrementIsAdmitted | src/__PROJECT_SLUG__/core/middleware/rate_limit.py:144-154 | Any run with a later INCR has a counterpart with the same readings and landings in which such an INCR is numbered 1 and admitted on top of the `min(n, max_requests)` admitted before it. |
| RedisTiming.TwoIncrements | src/__PROJECT_SLUG__/core/middleware/rate_limit.py:141-146 | Any two calls in one bucket on one key, however their readings interleave, are numbered 1 and 2 in every run if and only if they land less than `2 * W` apart; otherwise some run numbers both 1. |
| RedisLimiter.RedisFixedWindowRateLimiter.Check | src/__PROJECT_SLUG__/core/middleware/rate_limit.py:136-154 | One call among others is a run of the protocol in program order and sets the expiry exactly when its count was 1; it admits exactly when its own count is within `max_requests`, and a denial's retry_after is the least whole delay from its own clock reading into the next bucket. |
| RedisLimiter.Server.Incr | src/__PROJECT_SLUG__/core/middleware/rate_limit.py:144 | INCR on the server's counters is the protocol's increment step. |
| RedisLimiter.Server.Expire | src/__PROJECT_SLUG__/core/middleware/rate_limit.py:145-146 | EXPIRE is the protocol's expiry step; a missing counter stays missing. |
| RefreshTokens.RunKeepsInvariant | src/__PROJECT_SLUG__/api/v1/features/auth/service.py:182-242 | In every reachable state each transaction holds the lock of the unrevoked row it updated, each pending hash is uncommitted and its inserter's alone, each reported outcome is in the journal of commits, and the committed table is what the journal says. |
| RefreshTokens.StepKeepsInvariant | src/__PROJECT_SLUG__/api/v1/features/auth/repository.py:46-109 | Each atomic step of any transaction keeps that invariant. |
| RefreshTokenProgress.ReachableIsOwned | src/__PROJECT_SLUG__/api/v1/features/auth/service.py:204-242 | In every reachable state each row lock belongs to an unfinished transaction that holds it and each uncommitted index entry to one that inserts it: whoever waits, waits for a transaction at work. |
| RefreshTokenProgress.QuietIsFree | src/__PROJECT_SLUG__/api/v1/features/auth/service.py:204-242 | When every transaction has ended, nothing is locked or pending. |
| RefreshTokenProgress.NoDeadlock | src/__PROJECT_SLUG__/api/v1/features/auth/service.py:182-242 | The transactions never deadlock: from every reachable state, whatever hashes they propose, some order of their own next statements, with a rollback only after a violated constraint, ends all of them. |
| RefreshTokenPromises.SingleUse | src/__PROJECT_SLUG__/api/v1/features/auth/repository.py:77-109 | At most one transaction ever uses a token up, by rotation, by a rotation that found the user inactive, or by revocation. |
| RefreshTokenPromises.OnlyCommitsPublish | src/__PROJECT_SLUG__/api/v1/features/auth/service.py:204-237 | A run of any length in which nobody commits leaves the committed table and the journal as they were. |
| RefreshTokenPromises.RotationIsAtomic | src/__PROJECT_SLUG__/api/v1/features/auth/service.py:216-234 | A rotation commits the revocation of its token together with exactly one new token for the same user and changes no other row, and the old token was taken before it expired. |
| RefreshTokenPromises.RollbackFreesToken | src/__PROJECT_SLUG__/api/v1/features/auth/service.py:235-237 | A rollback leaves the table unchanged, and the token it had consumed can be consumed at once. |
| RefreshTokenPromises.SpentTokenIsRefused | src/__PROJECT_SLUG__/api/v1/features/auth/repository.py:79-109 | Once a token is spent, any rotation or revocation of it, even one that waited for the row, matches nothing and changes nothing. |
| RefreshTokenPromises.ConsumptionVerdict | src/__PROJECT_SLUG__/api/v1/features/auth/repository.py:77-93 | A rotation's update matches nothing if and only if its token is absent, revoked or expired; it waits if and only if the row matches and is locked, and otherwise takes it. |
| RefreshTokenPromises.RevocationVerdict | src/__PROJECT_SLUG__/api/v1/features/auth/repository.py:95-109 | A revocation's update matches nothing if and only if its token is absent or revoked, and waits if and only if the row matches and is locked. |
| RefreshTokenPromises.WaiterTakesFreedRow | src/__PROJECT_SLUG__/api/v1/features/auth/service.py:204-242 | A rotation or revocation that finds its row held by another transaction waits, and takes the row if that one rolls back. |
| RefreshTokenPromises.WaiterLosesSpentRow | src/__PROJECT_SLUG__/api/v1/features/auth/service.py:204-242 | If that one commits, it matches nothing. |
| RefreshTokenPromises.InsertionVerdict | src/__PROJECT_SLUG__/api/v1/features/auth/repository.py:46-64 | An insert fails if and only if its user is unknown or its hash committed, and waits if and only if another transaction is inserting the hash. |
| RefreshTokenPromises.WaiterForHash | src/__PROJECT_SLUG__/api/v1/features/auth/repository.py:46-64 | A waiting insert goes through if the other rolls back and fails if it commits. |
| RefreshTokenPromises.TokensExpire | src/__PROJECT_SLUG__/api/v1/features/auth/repository.py:78-84 | However much time passes first, a rotation that begins before the expiry takes the token and one that begins at or after it does not. |
| RefreshTokenPromises.LookupVerdict | src/__PROJECT_SLUG__/api/v1/features/auth/service.py:216-220 | A consumed token gets a successor if and only if its user exists and was last set active when looked up. |
| RefreshTokenPromises.RowsAreWrittenOnce | src/__PROJECT_SLUG__/api/v1/features/auth/repository.py:77-109 | Over any continuation of a run no row disappears, no row changes user or expiry, and revoked_at is written at most once. |
| RefreshTokenPromises.RotatedReplyHolds | src/__PROJECT_SLUG__/api/v1/features/auth/service.py:229-234 | What a successful rotation reported stays true: the old token is revoked, the new one exists, both belong to the reported user. |
| RefreshTokenPromises.RotationAlone | src/__PROJECT_SLUG__/api/v1/features/auth/service.py:204-237 | An undisturbed rotation succeeds exactly when its token is committed, unrevoked and unexpired, its user active and the new hash free; the other cases leave the table alone, or use up an inactive user's token. |
| RefreshTokenPromises.IssueAlone | src/__PROJECT_SLUG__/api/v1/features/auth/service.py:182-201 | An undisturbed login inserts a token with a full lifetime exactly when the user exists and the hash is free. |
| RefreshTokenPromises.RevocationAlone | src/__PROJECT_SLUG__/api/v1/features/auth/repository.py:95-109 | An undisturbed revocation returns true exactly when the token is committed and unrevoked, expired or not, and revokes that row alone. |
| RefreshTokenChains.TokensFormChains | src/__PROJECT_SLUG__/api/v1/features/auth/service.py:204-237 | In every reachable state the committed tokens descending from one login form a simple chain from the login's token on, every one but the last rotated into the next and revoked. |
| RefreshTokenChains.FamilyIsDescent | src/__PROJECT_SLUG__/api/v1/features/auth/service.py:204-237 | The listed family of a login holds exactly the tokens whose root it is. |
| RefreshTokenChains.RotationKeepsRoot | src/__PROJECT_SLUG__/api/v1/features/auth/service.py:204-237 | A token has the root of the token it was rotated from. |
| RefreshTokenChains.LoginIsRoot | src/__PROJECT_SLUG__/api/v1/features/auth/service.py:182-201 | A login's token is its own root. |
| RefreshTokenChains.AtMostOneUsable | src/__PROJECT_SLUG__/api/v1/features/auth/service.py:204-237 | A usable token is the last of its family, so no login ever has two. |
| RefreshTokenChains.NoForks | src/__PROJECT_SLUG__/api/v1/features/auth/service.py:204-237 | A token has at most one successor and at most one predecessor. |
| RefreshTokenChains.TokensAreConserved | src/__PROJECT_SLUG__/api/v1/features/auth/service.py:182-242 | Each user's unrevoked tokens number exactly the login issuances less revocations and consumptions that found the user inactive. |
| RefreshTokenService.AuthRepository.ConsumeRefreshToken | src/__PROJECT_SLUG__/api/v1/features/auth/repository.py:77-93 | The guarded UPDATE on the fields is the protocol's update step: no row if and only if the token is absent, revoked or expired; a locked row; or the consumed row's user. |
| RefreshTokenService.AuthRepository.RevokeRefreshToken | src/__PROJECT_SLUG__/api/v1/features/auth/repository.py:95-109 | The guarded UPDATE without the expiry clause, likewise: no row if and only if the token is absent or revoked. |
| RefreshTokenService.AuthRepository.CreateRefreshToken | src/__PROJECT_SLUG__/api/v1/features/auth/repository.py:46-64 | The INSERT is the protocol's insert step: a violation if and only if the user is unknown or the hash committed, a block on a pending duplicate, or a pending row. |
| RefreshTokenService.AuthRepository.Commit | src/__PROJECT_SLUG__/api/v1/features/auth/service.py:219-228 | COMMIT publishes what the session wrote and frees its locks, as the protocol's commit step. |
| RefreshTokenService.AuthRepository.Rollback | src/__PROJECT_SLUG__/api/v1/features/auth/service.py:235-237 | ROLLBACK forgets it, as the protocol's abort step. |
| RefreshTokenService.RotateRefreshToken | src/__PROJECT_SLUG__/api/v1/features/auth/service.py:204-237 | With anything happening in between, rotation runs exactly the protocol's statements for its own token, in order: the update, tried again only while its row is locked, the user's lookup, the insert, the commit; its reply is the committed outcome, no match means that the token is absent, revoked or was expired at the start, an inactive user's reply burns that very token, and it rolls back only when stuck on a lock, a pending duplicate or a violated constraint. |
| RefreshTokenService.IssueRefreshToken | src/__PROJECT_SLUG__/api/v1/features/auth/service.py:182-201 | Issuing at login runs exactly begin, insert and commit for this user and token, or ends in a rollback when stuck. |
| RefreshTokenService.RevokeRefreshToken | src/__PROJECT_SLUG__/api/v1/features/auth/service.py:240-242 | Revocation runs exactly the update for its own token, tried again only while its row is locked, and the commit; its reply is the committed outcome, and false means that the token is absent or revoked. |
| RefreshTokenService.ReachableRuns | src/__PROJECT_SLUG__/api/v1/features/auth/service.py:182-242 | Any sequence of service calls stays within the reachable states that the promises speak of. |
| AdminSeed.SeedsOnce | src/__PROJECT_SLUG__/api/v1/features/auth/service.py:138-159 | Over every interleaving of calls on one name, at most one returns true. |
| AdminSeed.SeededOnReturn | src/__PROJECT_SLUG__/api/v1/features/auth/service.py:154-159 | Once any call for a name has returned exactly one such row exists, and no call fails to find the row it collided with. |
| AdminSeed.ExistingNameIsKept | src/__PROJECT_SLUG__/api/v1/features/auth/service.py:138-159 | A name that was there before stays as it was, and every call for it that returns, returns false. |
| AdminSeed.FlushVerdict | src/__PROJECT_SLUG__/api/v1/features/auth/repository.py:39-40 | The INSERT violates the index if and only if a row of the name is committed, and waits if and only if another is pending. |
| AdminSeed.BlockedCallReturns | src/__PROJECT_SLUG__/api/v1/features/auth/service.py:145-159 | A blocked call returns false if the call that blocks it commits, and inserts and returns true if that one is cut short. |
| AdminSeed.ViolatedReturns | src/__PROJECT_SLUG__/api/v1/features/auth/service.py:154-159 | After a violation the call returns false if the row is there when looked up, and raises the error again if not. |
| AdminSeedService.UserTable.AddUser | src/__PROJECT_SLUG__/api/v1/features/auth/repository.py:24-44 | The INSERT against the unique index is the protocol's flush step. |
| AdminSeedService.UserTable.EnsureAdminUser | src/__PROJECT_SLUG__/api/v1/features/auth/service.py:138-159 | With anything happening in between, the call runs exactly the insert, tried again only while another insert of the name is pending, then commit and refresh, or rollback and lookup; its reply is where the protocol leaves it. |
| Scopes.NormalizeSortsElements | src/__PROJECT_SLUG__/api/v1/features/auth/service.py:41-42 | Normalising gives the increasing list of the stripped, non-empty elements. |
| Scopes.SortedSetIsUnique | src/__PROJECT_SLUG__/api/v1/features/auth/service.py:42 | An increasing list is determined by its set of elements. |
| Scopes.LessIs | src/__PROJECT_SLUG__/api/v1/features/auth/service.py:42 | The order on scopes: at the first difference the code points decide, without one the length. |
| Scopes.CsvRoundTrip | src/__PROJECT_SLUG__/api/v1/features/auth/service.py:41-52 | Reading back what was written gives the normal form if and only if no scope contains a comma. |
| Scopes.CommaTearsScope | src/__PROJECT_SLUG__/api/v1/features/auth/service.py:41-52 | A scope made of two with a comma between them is written as those two are, and reads back as them; `CommaExample` is the case of `a,b`. |
| Scopes.CsvIsCanonical | src/__PROJECT_SLUG__/api/v1/features/auth/service.py:45-52 | For every text, reading, writing and reading again equals reading once. |
| Scopes.FromCsvHas | src/__PROJECT_SLUG__/api/v1/features/auth/service.py:49-52 | Any text reads as the stripped, non-empty parts between its commas, in increasing order. |
| Scopes.CsvByElements | src/__PROJECT_SLUG__/api/v1/features/auth/service.py:45-46 | Comma-free lists are written alike if and only if their stripped, non-empty elements form the same set. |
| Scopes.SettingsThenCsv | src/__PROJECT_SLUG__/core/config.py:156-163 | Going through the settings parser first gives the same scopes as reading the text directly, and writing and reading its result does too. |
| Scopes.SettingsKeepOrder | src/__PROJECT_SLUG__/core/config.py:156-163 | The settings parser itself keeps the order and the repetitions of its items. |
| Base64Url.DecodeOfEncodePadded | src/__PROJECT_SLUG__/api/v1/features/auth/service.py:55-61 | Padded base64url decoding undoes encoding, for every byte string. |
| Base64Url.PaddingIsRestored | src/__PROJECT_SLUG__/api/v1/features/auth/service.py:55-61 | `-len % 4` restores exactly the padding that was stripped; the unpadded length is `(4n + 2) / 3`. |
| Base64Url.RoundTrip | src/__PROJECT_SLUG__/api/v1/features/auth/service.py:55-61 | Unpadded decoding undoes unpadded encoding, for every byte string. |
| Base64Url.QuadSpellsBytes | src/__PROJECT_SLUG__/api/v1/features/auth/service.py:55-56 | Four characters of the encoding spell, as digits of the URL-safe alphabet, the number that their three bytes spell. |
| Base64Url.DecodesExactly | src/__PROJECT_SLUG__/api/v1/features/auth/service.py:59-61 | A text decodes if and only if it is characters of the alphabet and at most two of padding, in fours. |
| Passwords.RecordSplits | src/__PROJECT_SLUG__/api/v1/features/auth/service.py:72-78 | A printed record splits into exactly its four fields. |
| Passwords.RecordRoundTrip | src/__PROJECT_SLUG__/api/v1/features/auth/service.py:64-85 | Each field reads back as the scheme, count, salt and derived key it was made of. |
| Passwords.VerifyAccepts | src/__PROJECT_SLUG__/api/v1/features/auth/service.py:75-104 | A record made from one password, with any salt and any positive count, is routed to PBKDF2 and accepts another password exactly when the key derivation agrees on both. |
| Passwords.NewRecordAccepts | src/__PROJECT_SLUG__/api/v1/features/auth/service.py:64-104 | A newly made PBKDF2 record accepts its own password, whether or not argon2 is installed. |
| Passwords.NewRecordText | src/__PROJECT_SLUG__/api/v1/features/auth/service.py:64-72 | The record in full: scheme, 390000, salt and derived key. |
| Passwords.OtherSchemeVerdict | src/__PROJECT_SLUG__/api/v1/features/auth/service.py:97-107 | A hash that does not begin with the scheme is judged by argon2 alone and refused when that is not installed; its two errors of mismatch and invalid hash mean no, any other is raised. |
| Passwords.SchemeVerdict | src/__PROJECT_SLUG__/api/v1/features/auth/service.py:75-99 | Any text of the scheme is accepted if and only if it has four fields and the last is the derivation from the salt and the positive count before it; a count below one is raised, anything else is refused. |
| Passwords.HashThenVerify | src/__PROJECT_SLUG__/api/v1/features/auth/service.py:91-107 | A password hashed by whichever library is installed verifies by that library, given that argon2 does not print the other scheme. |
| AccessScopes.WordsOfJoin | src/__PROJECT_SLUG__/api/v1/features/auth/router.py:105 | A list joined by blanks splits back into itself if and only if each of its scopes is non-empty and free of whitespace; these are the lists that can be requested. |
| AccessScopes.WordsConcat | src/__PROJECT_SLUG__/api/v1/features/auth/router.py:105 | Words on either side of any whitespace character are split independently. |
| AccessScopes.DecodesUnderAnySecret | src/__PROJECT_SLUG__/core/security/auth.py:64-82 | A token decodes exactly when its secret is the current one or any additional one and its claims are in order. |
| AccessScopes.EndpointVerdict | src/__PROJECT_SLUG__/core/security/auth.py:85-139 | For any settings, token and time: the check accepts if and only if the token is signed by a current or additional secret, for this issuer and audience, within its life, of kind access or none, with every required scope and a name; without such a signature the answer is 401, and 403 is for missing scopes alone. |
| AccessScopes.LiveTokenVerdict | src/__PROJECT_SLUG__/core/security/auth.py:85-139 | A live token is accepted exactly when it carries every required scope and names a user; otherwise 403 names exactly what is missing. |
| AccessScopes.ScopesEndToEnd | src/__PROJECT_SLUG__/api/v1/features/auth/router.py:105-119 | With P the stored and R the requested scopes, the grant succeeds if and only if its type is absent or password and R is within P, and otherwise reports R less P; its token passes a requirement S if and only if it names a user and S is within R, or within P when nothing was requested. |
| AccessScopes.GrantVerdict | src/__PROJECT_SLUG__/api/v1/features/auth/router.py:57-119 | The grant's status in every case, the sorted scopes or missing scopes, and every claim of its token. |
| AccessScopes.GrantedTokenLives | src/__PROJECT_SLUG__/core/security/auth.py:40-82 | A granted token is accepted for exactly its life, by exactly the settings that know its secret, issuer and audience, within its scopes. |
| AccessScopes.TokensNameTheUser | src/__PROJECT_SLUG__/api/v1/features/auth/router.py:182-187 | Login and refresh tokens of a database user name that user. |
| AccessScopes.RefreshRestoresStoredScopes | src/__PROJECT_SLUG__/api/v1/features/auth/router.py:182-187 | A refreshed access token passes exactly the requirements within P, whatever was requested at login; it passes the same requirements as the login's token if and only if nothing was requested or all of P was. |
| AccessScopes.RefreshWidens | src/__PROJECT_SLUG__/api/v1/features/auth/router.py:182-187 | With a and b stored and a requested, the refreshed token passes a requirement of b and the login's does not. |

## Left out

- Floating point: clocks are `real`, and `int()` of a positive wait is `floor`.
- A clock that goes backwards: a caller of the in-memory limiter may pass any `now`; the model takes it non-decreasing, as the monotonic clock that production uses gives it.
- The asyncio lock: a check runs from its first to its last statement without suspending, so the lock is never contended and is not modelled.
- An error from EXPIRE: the call stops there, counted but unanswered; the middleware's fail-open path is not modelled.
- Clock skew between instances and the Redis server: they share one clock.
- Building rate-limit keys and resolving client addresses: keys are opaque.
- Cryptography: SHA-256 is injective, PBKDF2 and argon2 are arbitrary functions, a signed token is its claims with the signing secret, comparison is equality.
- Base64Url.DecodePadded: None on text that is not of the RFC's form, where Python's decoder may discard characters or raise; password checking takes that behaviour, and `int()` on other than digits, as parameters.
- Python's limit on the number of digits that `int()` reads.
- The request's database errors other than constraint violations, waits and cancellation: any of them is a rollback.
- User deletion, and with it the cascade to tokens.
- SQLite's coarser locking: the model is PostgreSQL's read committed, whose interleavings include the serialised ones.
- Claims that are missing or of another type, such as scopes that are not a list of strings or a subject without a username: the token datatype cannot hold them.
- Authenticating the caller of a password grant, parsing the request body, and the configuration checks of the token endpoints other than the grant type: they only guard what is modelled.
- The settings validator, the other middleware, the item and health endpoints, migrations and start-up: plumbing.
