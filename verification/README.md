# Verified model of the login, limiting, resilience and paging protocols

The project models the stateful protocols under `src/common` and the phone login under `src/accounts`,
and proves what they keep over every run. Where the source updates an object in place, the model is a
class whose methods are proved equal to small functions on the abstract state; the same functions drive
state machines, and the theorems are about all runs of those machines. Time is a real number of seconds,
and a section of code that reads the clock several times takes several readings.

| file | what it models |
|---|---|
| `TtlCache.dfy`, `Windows.dfy` | the shared cache (get, set, incr, delete with deadlines) and the theory of anchored counting windows |
| `Spellings.dfy` | one phone number in several spellings, which the database normalises and the cache keys do not |
| `OtpCounters.dfy`, `OtpSends.dfy` | the send and verify counters of `OTPHandler`; sends that overlap at their awaits |
| `OtpModels.dfy`, `OtpFlow.dfy` | the OTP row and table, user resolution, `send_otp` and `verify_otp` over many phones |
| `OtpSendRuns.dfy` | every run of `OtpFlow` is a run of `OtpSends` without overlap, so its bounds carry over |
| `OtpGuesses.dfy` | how many wrong codes are compared during the life of a code |
| `Tokens.dfy`, `Sessions.dfy` | tokens, the blacklist and rotation; interleaved refreshes, logins and logouts |
| `CircuitBreaker.dfy` | the circuit breaker with overlapping calls, as a refinement of a log |
| `RateLimiting.dfy` | the Django and the FastAPI rate limiter |
| `Snowflake.dfy` | id packing, the generator, the one-shot helper |
| `CursorCodec.dfy`, `Repository.dfy` | page cursors, cursor and offset walks, single and bulk writes |
| `ServiceToken.dfy` | the service-token cache with its unlocked fast path, as single reads and writes of threads |
| `Results.dfy`, `Division.dfy`, `Spacing.dfy` | outcome types, integer division facts, how many instants that keep a distance fit into a span |

## Where the code and its documentation differ

The model follows the code. For each difference below a lemma says exactly when the code meets what is
promised, and where that is a matter of whole runs, another one gives a run from the start that breaks it.

- **Refresh tokens are single-use, except around their expiry.** `rotate_refresh_token` cuts the time left
  to whole seconds, so the blacklist entry can end before the token does, and a verification reads the clock
  twice: when it decodes the token and when it looks it up. `Tokens.RetiredUntil` says exactly for which
  readings a rotated token is accepted again, and `Tokens.ReplayRefusedExactly` when none is whose two readings
  lie at most a given pause apart; no entry written before the expiry suffices for all pauses.
  `Sessions.ForksExactly` is the exact condition under which two overlapping refreshes both succeed and the
  login's chain forks, and `Sessions.ForkRun` is such a run.
- **Logout is not final for a verification that straddles the expiry.** Logout floors the clock, so its entry
  reaches the expiry or past it, and at no single instant is a signed-out token valid. But one that is decoded
  before its expiry and looked up after it can still be accepted, and rotated (`Sessions.SignedOutRefused`,
  exactly when in `Sessions.SignedOutExactly`); in the run of `Sessions.StraddlingRun` that happens.
- **"Exactly one HALF_OPEN probe" does not hold.** A completion of a stale call clears the probe flag.
  `CircuitBreakers.TwoProbesInFlight` is a run with two, for every threshold;
  `CircuitBreakers.AnotherProbeExactly` says exactly when a further probe passes.
- **Recovery is not certain.** A probe that ends in an exception outside `expected_exceptions` leaves the
  flag set (`CircuitBreakers.LostProbeRun`). `CircuitBreakers.RefusedWhenIdle` says exactly when this refuses
  an idle caller and `CircuitBreakers.RefusedForEver` that it then never ends.
- **The FastAPI limits are not sliding windows.** They count clock-aligned minutes and hours.
  `RateLimiting.MinuteCapExactly` and `RateLimiting.HourCapExactly` say, for all caps, exactly for which
  starts the cap per 60 and per 3600 seconds holds in every run; `RateLimiting.TwoBurstsInAMinute` and
  `RateLimiting.OverfullHour` are runs that break it. Neither limiter counts refused requests, though both
  docstrings say every call increments (`RateLimiting.LetInExactly`, `RateLimiting.RefusedExactly`).
- **The Django cap is not an allowance.** Its window restarts at each accepted request:
  `RateLimiting.RefusedExactly` says exactly when a request is refused, and in the run of
  `RateLimiting.SteadyClientRefused` that happens with two accepted requests in the window. A limit below
  one refuses everything.
- **The "hourly" send limit** admits up to `2N - 1` sends in an hour (`OtpSends.SendsPerHour`), and in the run
  of `OtpSends.SendsPerHourSharp` that many. `OtpSends.HourlyLimitExactly` says exactly from which instants
  on the limit does hold for an hour. A limit below one acts as one, and so does a breaker threshold below one.
- **The limits "per phone" are per spelling.** The phone columns normalise what they store and look up
  (src/common/models/contact.py:16-19), the cache keys take the request's string as it is, and nothing
  normalises in between. So each spelling of a number has its own send allowance
  (`OtpSends.SendsOnNumber`) and its own guesses against the same code (`OtpGuesses.GuessBudget`), and a
  lockout under one spelling does not stop a login under another (`OtpGuesses.LockoutPerSpelling`).
  `OtpSends.NumberKeptExactly` and `OtpGuesses.BudgetKeptExactly` say that the bounds hold for a number
  exactly when it has no second spelling; `OtpSends.TwoSpellingsRun` and `OtpGuesses.SecondSpelling` are runs
  that exceed them. Requests in normal form keep them as well.
- **`generate_snowflake` ids are not unique per worker**: each call makes a new generator.
  `Snowflakes.OneShotsCollide` says exactly when two calls return the same id.
- **The bulk modes count differently.** The tables agree, the counts only under the exact conditions of
  `Repositories.PatchCountsAgree` and `Repositories.DeleteCountsAgree`.
- **A failed refresh falls back on any cached token**, not only on one that is "still valid"
  (src/common/auth/service_token.py:15-16): `ServiceTokens.FallbackExactly` says exactly when it still is, and
  in the run of `ServiceTokens.ExpiredFallback` it is not.
- **`get_token` may return an empty token** when `invalidate` comes before its last, unlocked read.
  `ServiceTokens.EmptyExactly` says exactly when; `ServiceTokens.FastReturnEmpty` and
  `ServiceTokens.SlowReturnEmpty` are such runs, one for each unlocked `return`.

## Model

| member | source | states |
|---|---|---|
| `OtpCounters.OtpHandler.IsRateLimited` | src/common/auth/otp/handler.py:47-53 | limited exactly when a live counter has reached the limit |
| `OtpCounters.OtpHandler.IncrementRate` | src/common/auth/otp/handler.py:55-61 | a live counter goes up and keeps its deadline; otherwise it becomes one with a new deadline |
| `OtpCounters.OtpHandler.IsVerifyRateLimited` | src/common/auth/otp/handler.py:71-83 | locked out exactly when a live counter has reached the attempt limit |
| `OtpCounters.OtpHandler.IncrementVerifyAttempts` | src/common/auth/otp/handler.py:85-95 | the same update for failed attempts, with the lockout time |
| `OtpCounters.OtpHandler.ClearVerifyAttempts` | src/common/auth/otp/handler.py:97-103 | the attempt counter is gone and nothing else changed |
| `OtpCounters.BumpTracks` | src/common/auth/otp/handler.py:55-61 | an increment keeps the counter equal to the size of the current anchored window of recorded instants |
| `OtpCounters.CountIsWindow` | src/common/auth/otp/handler.py:47-53 | the counter is live exactly until the window of its first instant ends, and counts that window |
| `Windows.SpanBound` | src/common/auth/otp/handler.py:55-61 | capped anchored windows put at most a given number of instants into any span of any length; 2·cap − 1 into a half-open span of one window length, 2·cap into a closed one |
| `Spellings.OnBound` | src/common/models/contact.py:16-26 | a bound for each spelling of a number holds for the number as many times over as it has spellings in use |
| `Windows.RoomLeft` | src/common/auth/otp/handler.py:63-95 | a closed span holds at least one instant less than that while the last window has room or is over |
| `OtpSends.WindowRecords` | src/accounts/api/application/use_cases/auth_use_cases.py:108-116 | with at most k overlapping sends under one spelling, every counter window records at most limit + k − 1, at all times |
| `OtpSends.SendsPerHour` | src/accounts/api/application/use_cases/auth_use_cases.py:108-116 | for one spelling of a number, a bound for every span; every half-open hour holds at most 2·(limit + k − 1) − 1 sends |
| `OtpSends.SendsOnNumber` | src/accounts/api/application/use_cases/auth_use_cases.py:108-116 | for a number, that bound once for every spelling used; once in all if the number has one spelling or its requests give it in normal form |
| `OtpSends.NumberKeptExactly` | src/common/auth/otp/handler.py:22-24 | the hourly bound of one spelling holds for a number, for any overlap, in all runs if and only if it has no second spelling |
| `OtpSends.TwoSpellingsRun` | src/common/auth/otp/handler.py:22-24 | for any limit and overlap, a run with two spellings that exceeds it by one |
| `OtpSends.SendsPerHourSharp` | src/common/auth/otp/handler.py:47-61 | for every limit and every overlap there is a run with exactly that many in one hour |
| `OtpSends.HourlyLimitExactly` | src/common/auth/otp/handler.py:47-61 | from any reachable state, however single sends go on, the whole hour from an instant keeps to the limit if and only if the spelling then has no live counter, or one that lasts the hour, or one at the limit none of whose sends was counted at that very instant |
| `OtpModels.Otp.Save` | src/accounts/models.py:196-205 | a row with both a code and an expiry is stored as it is; any other gets both anew |
| `OtpModels.Otp.SetOtpAndValidity` | src/accounts/models.py:213-220 | the code drawn and an expiry one validity period ahead |
| `OtpModels.Otp.Reset` | src/accounts/models.py:222-225 | a new code and expiry, in memory and in the table |
| `OtpModels.Otp.IsValid` | src/accounts/models.py:227-236 | valid up to and including the expiry instant; never with a null expiry |
| `OtpModels.OtpRepository.GetOrCreate` | src/accounts/api/infrastructure/repositories/otp_repository_impl.py:32-34 | creates exactly when the number has no row, with a code and expiry; hands out the row as stored |
| `OtpModels.OtpRepository.GetByPhone` | src/accounts/api/infrastructure/repositories/otp_repository_impl.py:40-45 | the row of the number as stored, or null exactly when there is none |
| `OtpModels.OtpRepository.DeleteRow` | src/accounts/api/infrastructure/repositories/otp_repository_impl.py:47-49 | that row's number is gone and no other |
| `OtpModels.FirstUser` | src/accounts/api/infrastructure/repositories/auth_repository_impl.py:58 | the first user by key with this number, or none exactly when there is no such user |
| `OtpModels.ResolveKeeps` | src/accounts/api/infrastructure/repositories/auth_repository_impl.py:37-72 | the user returned is the one the number is linked to, else the first user with it, else a new one, created exactly when neither table knows the number; the number is linked to that user and every other row and link stays |
| `OtpModels.AuthRepository.GetOrCreateUserByPhone` | src/accounts/api/infrastructure/repositories/auth_repository_impl.py:37-72 | for any spelling, the method leaves and returns what `ResolveKeeps` says of its number; the user returned is the one it belongs to |
| `OtpFlow.AuthUseCases.SendOtp` | src/accounts/api/application/use_cases/auth_use_cases.py:93-124 | the objects together take the step of the run machine: throttled by spelling with nothing changed, or a new code stored for the number and counted for the spelling |
| `OtpFlow.AuthUseCases.VerifyOtp` | src/accounts/api/application/use_cases/auth_use_cases.py:126-157 | likewise: locked out by spelling, refused and counted, or the spelling's counter cleared, the number's row consumed and its user resolved |
| `OtpFlow.RunAgrees` | src/accounts/api/application/use_cases/auth_use_cases.py:93-157 | after every run the send and attempt counters of each spelling and the row of each number are what the history says |
| `OtpFlow.TouchesOnly` | src/accounts/api/application/use_cases/auth_use_cases.py:93-157 | a call changes no cache entry but the two of its spelling, no row but that of its number, and the accounts only by a login |
| `OtpFlow.SendDecision` | src/accounts/api/application/use_cases/auth_use_cases.py:108-116 | after every run: throttled with nothing changed if and only if the sends counted under the spelling fill a current one-hour window; otherwise sent, with the code drawn, counted in that window or as the first of the next |
| `OtpFlow.VerifyDecision` | src/accounts/api/application/use_cases/auth_use_cases.py:142-153 | after every run: login if and only if the spelling is not locked out and the code is that of the latest send to the number, unconsumed and unexpired; lockout and refusal likewise, and a refusal is counted in the current ten-minute window or as the first of the next |
| `OtpSendRuns.RunRefines` | src/accounts/api/application/use_cases/auth_use_cases.py:93-124 | every sequential run of the whole flow is a legal run of the send machine with one send at a time, with the same counters and the same counted sends |
| `OtpSendRuns.HourlySends` | src/accounts/api/application/use_cases/auth_use_cases.py:108-116 | so in every sequential run every half-open hour holds at most 2·limit − 1 sends under one spelling |
| `OtpSendRuns.HourlySendsOnNumber` | src/accounts/api/application/use_cases/auth_use_cases.py:108-116 | and for a number that once for every spelling used; once in all if it has one spelling or its requests give it in normal form |
| `OtpGuesses.SpellingBudget` | src/common/auth/otp/handler.py:63-103 | from the issue of a code to its inclusive expiry, for any validity, the wrong codes compared under one spelling until its next login: at most twice the attempt limit for the lockout time, one less for any shorter validity, and the corresponding bound for longer ones |
| `OtpGuesses.GuessBudget` | src/accounts/api/application/use_cases/auth_use_cases.py:142-153 | for a number, until the next login to it, that budget once for every spelling used; once in all if the number has one spelling or its guesses come in normal form |
| `OtpGuesses.GuessBudgetSharp` | src/common/auth/otp/handler.py:63-95 | for every validity there is a run under one spelling that compares exactly the budget |
| `OtpGuesses.SecondSpelling` | src/common/auth/otp/handler.py:67-69 | a run with two spellings that compares one more |
| `OtpGuesses.BudgetKeptExactly` | src/common/auth/otp/handler.py:67-69 | the budget holds for a number in all runs if and only if it has no second spelling |
| `OtpGuesses.LockoutPerSpelling` | src/accounts/api/application/use_cases/auth_use_cases.py:142-153 | a run after which one spelling is locked out and the same code still logs in under another |
| `OtpFlow.LoginConsumes` | src/accounts/api/application/use_cases/auth_use_cases.py:147-153 | every login has an earlier send to its number, under any spelling, whose code it presented |
| `OtpFlow.SingleUse` | src/accounts/api/application/use_cases/auth_use_cases.py:147-153 | two logins never consume the same send |
| `OtpFlow.SameUser` | src/accounts/api/infrastructure/repositories/auth_repository_impl.py:37-72 | all logins to a number, under any spellings, are the same user, and only the first may create it |
| `OtpFlow.RightfulUser` | src/accounts/api/infrastructure/repositories/auth_repository_impl.py:37-72 | over every run, each login to a number is the user it was linked to at the start, else the first user with it then, else one not there then; one is created exactly by the first login to a number that neither table knew |
| `Tokens.JwtHandler.GenerateAccessToken` | src/common/auth/jwt/handler.py:100-140 | the next identifier, an expiry the given minutes after the current whole second, and only that token is new |
| `Tokens.JwtHandler.GenerateRefreshToken` | src/common/auth/jwt/handler.py:142-165 | the same for a refresh token, in days |
| `Tokens.FreshlyMinted` | src/common/auth/jwt/handler.py:100-165 | a token just minted, of either kind, is accepted if and only if it is decoded before its lifetime is over, counted from the whole second it was minted in; the verdict on every other token stays |
| `Tokens.JwtHandler.BlacklistToken` | src/common/auth/jwt/handler.py:167-171 | one blacklist entry, until the given time has passed |
| `Tokens.JwtHandler.IsBlacklisted` | src/common/auth/jwt/handler.py:173-177 | exactly when a live entry exists |
| `Tokens.JwtHandler.VerifyToken` | src/common/auth/jwt/handler.py:179-247 | genuine, before its expiry and not blacklisted, or the first of these that fails |
| `Tokens.JwtHandler.RotateRefreshToken` | src/common/auth/jwt/handler.py:372-413 | refused with nothing changed if the token is not accepted, not a refresh token or not of this user, with the error for each; or the old token blacklisted for the whole seconds left and one successor minted |
| `Tokens.RetiredUntil` | src/common/auth/jwt/handler.py:404-413 | after rotation the old token is accepted if and only if it is decoded before its expiry and looked up after the end of its truncated entry; never when looked up before its last second |
| `Tokens.ReplayRefusedExactly` | src/common/auth/jwt/handler.py:404-413 | for any pause: every replay that pauses no longer between decoding and lookup is refused if and only if the entry outlasts the token by that pause, or the token had expired when the entry was written |
| `Sessions.AuthUseCases.BuildTokenPair` | src/accounts/api/application/use_cases/auth_use_cases.py:64-91 | a fresh access and a fresh refresh token of the user with the lifetime of each kind, and the vault the run machine has after its login or last section; or the rotation's error and no change |
| `Sessions.AuthUseCases.BeginRefresh` | src/accounts/api/application/use_cases/auth_use_cases.py:174-184 | the checks before the first await, with the source's error for each |
| `Sessions.AuthUseCases.Logout` | src/accounts/api/application/use_cases/auth_use_cases.py:194-215 | every presented token that still verifies is blacklisted for the floored time left, in order, and the verdict on every other token stays; the step of the run machine |
| `Sessions.OthersUntouched` | src/accounts/api/application/use_cases/auth_use_cases.py:206-215 | whatever tokens a logout visits, the verdict on a token that did not verify at a visit of its own is the same before and after, for all readings |
| `Sessions.RunKeeps` | src/accounts/api/application/use_cases/auth_use_cases.py:159-215 | every interleaving keeps: unique identifiers, retired tokens blocked, and in a login without a fork every token but the newest rotated |
| `Sessions.AcceptedExactly` | src/accounts/api/application/use_cases/auth_use_cases.py:159-215 | over every interleaving, a token of either kind that was neither rotated nor signed out is accepted if and only if it is decoded before its expiry |
| `Sessions.RotatesInOrder` | src/accounts/api/application/use_cases/auth_use_cases.py:174-192 | over every interleaving, a rotation is the last section of a request whose token was in order when presented and whose user was found since, and rotates that token; or it is refused with the vault unchanged |
| `Sessions.RotatedOnce` | src/common/auth/jwt/handler.py:372-413 | over every interleaving, any rotation of a token but its first looks it up in the blacklist later than one second before the expiry |
| `Sessions.OneLiveToken` | src/accounts/api/application/use_cases/auth_use_cases.py:159-192 | a login none of whose tokens was rotated twice never has two refresh tokens that verifications would accept, at any readings, when looked up a second or more before the expiry |
| `Sessions.OnTimeUnforked` | src/common/auth/jwt/handler.py:372-413 | a login none of whose tokens was rotated in its last second is such a login |
| `Sessions.LiveTokens` | src/accounts/api/application/use_cases/auth_use_cases.py:159-192 | at any readings, a login has at most one refresh token accepted when looked up a second or more before its expiry, and one more for each repeated rotation |
| `Sessions.LiveTokensSharp` | src/common/auth/jwt/handler.py:404-413 | for every number of repeated rotations a run with exactly that many live refresh tokens, and one more |
| `Sessions.SignedOutRefused` | src/accounts/api/application/use_cases/auth_use_cases.py:194-215 | over every interleaving, a token that logout found valid is accepted again only if decoded before its expiry and looked up at or after it; at no single instant |
| `Sessions.SignedOutExactly` | src/accounts/api/application/use_cases/auth_use_cases.py:206-215 | right after a logout: accepted if and only if decoded before the expiry and looked up once the entry has run out, which it does later than the token by what logout's floored reading was early |
| `Sessions.StraddlingRun` | src/common/auth/jwt/handler.py:213-247 | for every lifetime of two seconds or more, a run in which a signed-out token is rotated across its expiry, with a live successor |
| `Sessions.ForksExactly` | src/common/auth/jwt/handler.py:372-413 | of two overlapping refreshes of one token, at any clock readings, the second also succeeds if and only if it decodes before the expiry and looks up after the end of the first one's entry; then two successors verify until their own expiries |
| `Sessions.ForkRun` | src/common/auth/jwt/handler.py:404-413 | for every lifetime, a run from a login to two successors of one token |
| `CircuitBreakers.CircuitBreaker.BeginCall` | src/common/resilience/circuit_breaker.py:143-156 | refused if and only if the latest completions, as many as the threshold, are all failures and the timeout since the last failure is not over or a probe is outstanding; admitted as a probe exactly when they are and neither holds |
| `CircuitBreakers.DecisionExactly` | src/common/resilience/circuit_breaker.py:143-233 | the same for every log, from the positions of its events |
| `CircuitBreakers.CircuitBreaker.RecordFailure` | src/common/resilience/circuit_breaker.py:193-218 | the failure count stays the trailing run of failures, and open exactly when it has reached the threshold |
| `CircuitBreakers.CircuitBreaker.RecordSuccess` | src/common/resilience/circuit_breaker.py:220-233 | the same invariant after a success |
| `CircuitBreakers.CircuitBreaker.ReportedState` | src/common/resilience/circuit_breaker.py:114-126 | closed exactly when fewer than the threshold of the latest completions are failures in a row; half-open exactly when open with a probe outstanding or the timeout over |
| `CircuitBreakers.CircuitBreaker.EffectiveState` | src/common/resilience/circuit_breaker.py:168-184 | half-open exactly for the caller that takes the probe, whose flag it sets |
| `CircuitBreakers.ProbeMeansOpen` | src/common/resilience/circuit_breaker.py:168-233 | a pending probe implies the open state, in every log |
| `CircuitBreakers.OpenSpacing` | src/common/resilience/circuit_breaker.py:168-218 | every admission while open comes a recovery timeout after the last failure, and as long after every other admission of the same open period |
| `CircuitBreakers.OpenAdmissions` | src/common/resilience/circuit_breaker.py:168-218 | a span of length D in one open period admits at most floor(D / recovery timeout) + 1 calls |
| `CircuitBreakers.ProbeIsOutstanding` | src/common/resilience/circuit_breaker.py:176-233 | the flag is set if and only if some probe has had no recorded completion after it |
| `CircuitBreakers.InFlightMeans` | src/common/resilience/circuit_breaker.py:158-166 | a call is in flight if and only if it was admitted and nothing ended it since |
| `CircuitBreakers.PendingProbeInFlight` | src/common/resilience/circuit_breaker.py:143-184 | when no call ends in an unlisted exception, a pending probe is still in flight |
| `CircuitBreakers.RefusedWhenIdle` | src/common/resilience/circuit_breaker.py:143-184 | with nothing in flight and the timeout over, a call is refused if and only if the last probe escaped unrecorded |
| `CircuitBreakers.RefusedForEver` | src/common/resilience/circuit_breaker.py:158-184 | from such a state every later call is refused |
| `CircuitBreakers.SecondProbe` | src/common/resilience/circuit_breaker.py:193-233 | two probes in flight need another call's completion in between |
| `CircuitBreakers.AnotherProbeExactly` | src/common/resilience/circuit_breaker.py:176-233 | once the timeout is over another probe passes if and only if a completion was recorded since the last one |
| `CircuitBreakers.TwoProbesInFlight` | src/common/resilience/circuit_breaker.py:202-206 | for every threshold a run with two probes in flight |
| `CircuitBreakers.LostProbeRun` | src/common/resilience/circuit_breaker.py:158-166 | for every threshold a run whose probe escapes unrecorded and leaves nothing in flight |
| `RateLimiting.RateLimitMiddleware.IsRateLimited` | src/common/middleware/ratelimiting.py:135-158 | limited with nothing changed, or that client's counter one higher with a new deadline and no other entry touched |
| `RateLimiting.AcceptedPerWindow` | src/common/middleware/ratelimiting.py:135-158 | every half-open span of the window length holds at most the limit of accepted requests |
| `RateLimiting.BurstMeans` | src/common/middleware/ratelimiting.py:135-158 | in a burst every request came less than a window after the one before it, and its first one did not |
| `RateLimiting.RefusedExactly` | src/common/middleware/ratelimiting.py:147-153 | refused if and only if the client's burst has reached the limit and no full window has passed since its last accepted request |
| `RateLimiting.SteadyClientRefused` | src/common/middleware/ratelimiting.py:153 | a client asking every half window is refused with at most two accepted requests in the window before |
| `RateLimiting.FastAPIRateLimitMiddleware.IsRateLimited` | src/common/middleware/ratelimiting.py:267-304 | limited with nothing changed, or the counters of the clock minute and hour one higher for two minutes and two hours; the buckets, each `get` and each `set` have their own clock reading |
| `RateLimiting.CountersExact` | src/common/middleware/ratelimiting.py:279-298 | after every run of decisions that each take less than a minute, the counters a request finds are the accepted requests of its aligned minute and hour |
| `RateLimiting.LetInExactly` | src/common/middleware/ratelimiting.py:279-298 | a request is let in if and only if its aligned minute and hour both have room |
| `RateLimiting.SpanCap` | src/common/middleware/ratelimiting.py:279-298 | an aligned minute or hour respects its cap, any other span of that length twice the cap |
| `RateLimiting.TwoBurstsInAMinute` | src/common/middleware/ratelimiting.py:279-298 | from every unaligned start, a run with twice the cap in sixty seconds when the hourly cap allows it |
| `RateLimiting.OverfullHour` | src/common/middleware/ratelimiting.py:279-298 | from every start that is not safe, a run that exceeds the cap per hour |
| `RateLimiting.MinuteCapExactly` | src/common/middleware/ratelimiting.py:178-200 | for all caps: the cap per sixty seconds holds in all runs if and only if the minute is aligned, or the hourly cap keeps the clock minutes it meets below it |
| `RateLimiting.HourCapExactly` | src/common/middleware/ratelimiting.py:178-200 | for all caps: the cap per hour holds in all runs if and only if the hour is aligned, or the 60 or 61 clock minutes it meets cannot together exceed it |
| `Snowflakes.PackAdds` | src/common/utils/snowflake.py:114-117 | or-ing the shifted fields is adding them |
| `Snowflakes.ParseOfValue` | src/common/utils/snowflake.py:68-117 | parsing the value of any valid snowflake gives it back |
| `Snowflakes.ParseAccepts` | src/common/utils/snowflake.py:49-83 | parsing accepts exactly the integers in [0, 2^63), for a non-negative epoch |
| `Snowflakes.ValueOfParse` | src/common/utils/snowflake.py:68-117 | the value of a parsed integer is that integer |
| `Snowflakes.SnowflakeGenerator.Create` | src/common/utils/snowflake.py:148-192 | accepted exactly for arguments in range, and then starts at the given id |
| `Snowflakes.SnowflakeGenerator.FromSnowflake` | src/common/utils/snowflake.py:194-211 | resumes exactly at the given id, unless that lies in the future or the clock has run out |
| `Snowflakes.SnowflakeGenerator.Next` | src/common/utils/snowflake.py:222-242 | the least id of this worker and millisecond above the last one, or nothing exactly when there is none |
| `Snowflakes.NextIdExactly` | src/common/utils/snowflake.py:222-242 | that description has exactly one answer |
| `Snowflakes.EmitsExactly` | src/common/utils/snowflake.py:222-242 | over any clock, the declarative runs are exactly the generator's own answers |
| `Snowflakes.StrictlyIncreasing` | src/common/utils/snowflake.py:222-242 | whatever the clock does, ids increase strictly, exceed the start, and carry the worker number |
| `Snowflakes.WorkersDisjoint` | src/common/utils/snowflake.py:222-242 | generators of different workers never issue the same id |
| `Snowflakes.PerMillisecond` | src/common/utils/snowflake.py:232-242 | at most 4096 ids of a generator carry one millisecond |
| `Snowflakes.GenerateSnowflake` | src/common/utils/snowflake.py:249-302 | the id at the first reading not behind the start, or an error exactly when no reading in the retries qualifies |
| `Snowflakes.OneShotsCollide` | src/common/utils/snowflake.py:293-297 | two calls return the same id if and only if answered in one millisecond and both, or neither, in the one they started in |
| `CursorCodec.DecodeOfEncode` | src/common/api/base_repository.py:165-173 | base64url decoding undoes encoding for every octet string |
| `CursorCodec.GroupNumber` | src/common/api/base_repository.py:165-173 | four symbols spell the 24-bit number of the three octets they encode |
| `CursorCodec.EncodedShape` | src/common/api/base_repository.py:165-173 | encoded text is URL-safe, four characters for every three octets begun |
| `CursorCodec.CursorRoundTrip` | src/common/api/base_repository.py:165-173 | a cursor gives back its key, for every integer |
| `Repositories.WalkByKeys` | src/common/api/base_repository.py:140-174 | a walk by opaque cursors is the walk by last keys, and never fails for a positive limit |
| `Repositories.PageFails` | src/common/api/base_repository.py:140-174 | a cursor page is an error if and only if its cursor does not decode, its limit is negative, or its limit is zero and there is a row to return |
| `Repositories.CursorWalk` | src/common/api/base_repository.py:140-174 | under arbitrary changes between pages: strictly ascending keys, only rows that matched in some state the walk read, and no key missed that had a matching row in all of them |
| `Repositories.FrozenTable` | src/common/api/base_repository.py:116-174 | on an unchanging table cursor and offset walks both give the matching rows in key order, in max(1, ceil(n / limit)) pages |
| `Repositories.OffsetPages` | src/common/api/base_repository.py:116-138 | offset pages at any offset join to longer ones, have the length they should, and one that is long enough is the whole ordered table |
| `Repositories.Repository.Update` | src/common/api/base_repository.py:45-51 | in that row every given field gets its given value and every other field stays, and no other row changes; or it is reported missing and nothing changes |
| `Repositories.Repository.Delete` | src/common/api/base_repository.py:57-59 | exactly that row is gone, if it was there |
| `Repositories.Repository.BulkDelete` | src/common/api/base_repository.py:61-83 | in both modes exactly the named rows are gone and the others as they were; the fast mode counts the rows lost, the loop the ids |
| `Repositories.Repository.BulkPatch` | src/common/api/base_repository.py:85-114 | in both modes every named row gets each given field with its given value, keeps its other fields, and no other row changes; each mode has its own count, also when there is no field to set |
| `Repositories.PatchSets` | src/common/api/base_repository.py:85-114 | that description of the resulting table has exactly one answer |
| `Repositories.PatchCountsAgree` | src/common/api/base_repository.py:105-114 | the two counts of a patch agree if and only if no existing row is named twice, or, with no field to set, if and only if none is named; the loop never counts less |
| `Repositories.DeleteCountsAgree` | src/common/api/base_repository.py:76-83 | the two counts of a delete agree if and only if the ids are distinct and all exist |
| `ServiceTokens.ServiceTokenManager.GetToken` | src/common/auth/service_token.py:121-164 | a token fresh at either reading is returned and kept, a stale one replaced by the reply's, or returned as it is after a failed request; an error only with an empty cache and a failed request |
| `ServiceTokens.ServiceTokenManager.Refresh` | src/common/auth/service_token.py:175-236 | the reply's token installed with its own expiry claim, else `expires_in` seconds from now if positive, else a minute; or nothing changed |
| `ServiceTokens.ServiceTokenManager.Invalidate` | src/common/auth/service_token.py:238-242 | the cache is empty |
| `ServiceTokens.RunKeeps` | src/common/auth/service_token.py:115-242 | every interleaving of single reads and writes, `invalidate` included, keeps the lock exclusive, the fields equal to the last writes, and the token at most one write ahead of its expiry |
| `ServiceTokens.FastPathReturns` | src/common/auth/service_token.py:132-133 | over every interleaving the unlocked path returns the last value written, by the write that belongs to the expiry it was judged by or a later one; not empty if nothing empty was ever written |
| `ServiceTokens.ReturnsFresh` | src/common/auth/service_token.py:115-141 | over every interleaving, a return without a request read the clock before the expiry it was judged by less the skew; under the lock that is the expiry of the very token returned |
| `ServiceTokens.OneRefreshAtATime` | src/common/auth/service_token.py:135-141 | over every interleaving one thread at a time is in the locked section, fetching only when it found the cache missing or stale there |
| `ServiceTokens.InstallsApart` | src/common/auth/service_token.py:135-164 | a refresh that replaces a token living at least L from its installation comes at least L − skew after it and after every earlier one |
| `ServiceTokens.InstallsInSpan` | src/common/auth/service_token.py:135-164 | while tokens live at least L from their installation and none is emptied, a span of length D sees at most floor(D / (L − skew)) + 1 refreshes |
| `ServiceTokens.FallbackExactly` | src/common/auth/service_token.py:141-155 | over every interleaving, a return after a failed request hands out the token of the last install, found stale; its expiry has not passed if and only if the reading under the lock came less than the skew after it went stale |
| `ServiceTokens.ExpiredFallback` | src/common/auth/service_token.py:141-155 | a run from the start, with the clock going forward, that hands out an expired token |
| `ServiceTokens.EmptyExactly` | src/common/auth/service_token.py:132-164 | over every interleaving a call returns an empty token if and only if the last write before its last read emptied it and came after the call's first read; then by one of the two unlocked returns, and by an `invalidate` unless a reply was empty |
| `ServiceTokens.LeavesWithNothing` | src/common/auth/service_token.py:132-164 | from any state, an `invalidate` between the fast judgement or the release of the lock and the return makes the call return an empty token |
| `ServiceTokens.FastReturnEmpty` | src/common/auth/service_token.py:132-133 | a run from the start, with the clock going forward, that reaches an empty return on the fast path |
| `ServiceTokens.SlowReturnEmpty` | src/common/auth/service_token.py:164 | the same for the return after a refresh, outside the lock |
| `ServiceTokens.SoloIsGetToken` | src/common/auth/service_token.py:121-164 | a thread that runs alone in the step machine leaves the cache `GetToken` leaves, and returns its token once or raises once, as it does |

## Left out

- Cache failures ("fail open" branches), eviction above the entry cap of the in-memory backend
  (src/upstrah/settings/base.py:146-150) and several processes: live entries are assumed to stay.
- Formatted cache keys are constructors, so two different keys are never equal strings. Dead entries stay in
  the map, which nobody can see while the clock goes forward.
- Signatures, JWT encoding, issuer and audience, extra claims, service and partner tokens: a token is its
  claims, and exactly the tokens minted here are genuine.
- `Sessions.AuthUseCases.BuildTokenPair`: the claims lookup is an await before its atomic section; the machine has
  it as a step, the method takes it as done. The two tokens of a pair are minted at one clock reading.
- `OtpFlow.AuthUseCases.VerifyOtp`: overlapping verifications of one number are not modelled; both could hold the row
  before it is deleted.
- `OtpSends.SendsPerHour`: issue and counting of a send are one section with the increment's readings; a dispatcher
  that fails after the counter went up changes nothing here.
- `OtpSends.HourlyLimitExactly`: for sends one at a time.
- The normalisation of phone numbers is library code: any function from spellings to numbers stands for it.
- Code generation and its bypass codes: the drawn code is a parameter. `clean`, the e-mail column, the
  admin endpoint and the cache-based `generate_and_store` / `verify` of `OTPHandler` are not modelled.
- `RateLimiting.AcceptedPerWindow`: requests of one client are decided one at a time; two that overlap between
  reading and writing the counter could both pass.
- `RateLimiting.CountersExact`: a decision that stalls for a minute or longer between its clock readings is left
  out; its counters could run out under it.
- Exempt paths, client identification and responses of both middlewares.
- `CircuitBreakers.SecondProbe`: one direction only, the exact condition is `CircuitBreakers.AnotherProbeExactly`.
- Names, log events and the lock object of the breaker; a locked section is one step.
- Date and time helpers of `Snowflake`, and the settings fallbacks of `generate_snowflake`.
- Lenient base64 decoding (stray characters, loose bits) and lenient integer text (spaces, underscores, a
  plus sign): such cursors are bad cursors here, and only cursors made by the repository are walked.
- `list` with other orderings, `get`, `create`, `count`; hooks, cascades and subclass overrides; writes by
  others between the rows of a slow bulk operation; fields that change the primary key.
- `ServiceTokens.InstallsApart`: it and `ServiceTokens.InstallsInSpan`, unlike the other results on that
  machine, need the clock not to go backwards.
- The HTTP exchange, configuration errors of `_refresh` (a failed request), `aget_token` and the singleton.
