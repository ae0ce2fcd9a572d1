# Rate limiter, circuit breaker and blocklist: a verified model

An API gateway puts three stateful layers in front of a backend. A **sliding-window rate limiter** keeps, per
user, a Redis sorted set of admission timestamps that one atomic script prunes, counts and extends; several gateway
pods call it, each with its own clock. A **circuit breaker** with three states counts consecutive failures, fails
fast while the backend is considered down and probes it again after a recovery time. A **blocklist** stores
temporary IP bans as a set member plus an expiry key and removes stale members in the background.

This project models the three in Dafny and proves what they guarantee over whole runs.

| file | content |
|---|---|
| `Basics.dfy` | finite-set counting, rounding, `Option` |
| `SlidingWindow.dfy` | the script as a step on a set of members; runs of limiter calls with arbitrary clocks and failed calls |
| `WindowBounds.dfy` | bounds on every time interval, and why each of their terms is needed |
| `GreedyOptimality.dfy` | the script against every other policy that respects the limit |
| `FullLog.dfy` | refinement of a log that forgets nothing; rejected calls leave no trace; when a full window reopens |
| `Keyspace.dfy` | the shared database: interleaved users never notice each other, and exactly when key deadlines go unnoticed |
| `Blocklist.dfy` | bans on the shared database against a ban log, one Redis command at a time |
| `RedisServer.dfy` | the Redis commands and the repository operations, changing the database in place |
| `RateLimiter.dfy` | `Evaluate`, the rate-limit middleware and its headers; the window bound end to end and at the backend |
| `Breaker.dfy` | the breaker's fields and methods |
| `BreakerRuns.dfy` | runs of the breaker behind its middleware, one method per step; outstanding requests and probes |
| `BreakerThreads.dfy` | the breaker one atomic instruction at a time, any number of threads |

Inputs that come from outside are parameters: clock readings, the script's random suffix, what the network does to a
Redis call, HTTP status codes, when a client disconnects. Rate-limit times are milliseconds, breaker times nanoseconds.

## Where the code and its documentation differ

The model follows the code.

- The script's comments say that members with a score *below* `now - window` are removed and that the count is the one
  *before* the request; the code also removes the bound itself and returns the count after an admitted request.
- The script calls its member unique. A repeated suffix in one millisecond is a collision: it is admitted without
  growing the set (`RepeatedSuffix`), and the window bounds carry an explicit term for it.
- `X-RateLimit-Reset` rounds down, so a retry at exactly that second can be rejected (`ResetSecondTooEarly`); one second
  later the full quota is back (`ResetSecondOver`), and `ResetSecondExactly` says when the named second is late enough.
- `BlockIP` is described as atomic but sends a plain pipeline, and the background removal can land after a new ban. Either
  can silence a ban that is in force (`SplitPipelineSilencesBan`, `LateRemovalSilencesBan`); `BlockedExactly` says when.
- A ban with lifetime 0 is described as permanent; without an expiry key it is never reported (`PermanentBanNeverReported`).
- A handler panic skips the recording, so a panicking probe leaves an idle breaker HalfOpen for good
  (`PanickingProbeWedges`, with the exact condition in `ClosesUnlessAbandoned`).
- HalfOpen is meant to have one probe out at a time. Each episode grants one (`OneProbePerEpisode`), but a late outcome can
  end the episode while its probe is out; two probes can be out exactly from then on (`TwoProbesExactlyAfterStray`).
- The key's lifetime covers a user's clocks up to 500 ms off Redis's for every window (`SlackTolerated`); beyond the exact bound of
  `ExpiryUnnoticedExactly` an expired key forgets requests still in the window (`TooMuchSlackShows`).
- `RecordSuccess` clears the probe flag before it leaves HalfOpen. A request can take the flag in between and leave it set
  in Closed; after the next outage the breaker stays shut for good, with no panic involved (`StaleFlagShutsForGood`, with the
  exact condition for every machine in `ClosesUnlessShut`). This needs an interleaving inside one method, so the
  no-wedge theorem for whole methods (`NeverWedged`) does not contradict it.

## Model

| member | source | states |
|---|---|---|
| SlidingWindow.ZsetContents | api-gateway/internal/ratelimiter/rate_limit.lua:24-48 | for arbitrary clocks, the set before any call holds exactly the admitted calls whose timestamp no later execution pruned |
| SlidingWindow.Decides | api-gateway/internal/ratelimiter/rate_limit.lua:34-66 | the decision is reject, throttle or allow according to how many live members the call finds |
| WindowBounds.Retained | api-gateway/internal/ratelimiter/rate_limit.lua:24-29 | under clock skew d an admission is still counted by every later call less than window - d away |
| WindowBounds.SkewWindowBound | api-gateway/internal/ratelimiter/limiter.go:107-128 | in every run, every interval of length window - d lets through at most the limit, plus one for each collision and each failed-open call in it, whether or not the failed call's script ran |
| WindowBounds.SkewBoundIsTight | api-gateway/internal/ratelimiter/rate_limit.lua:24-48 | the `- d` is needed: for every window, every skew below it and every limit of at least two, some run lets more than the limit through in an interval one millisecond longer |
| WindowBounds.RepeatedSuffix | api-gateway/internal/ratelimiter/rate_limit.lua:47-48 | calls in one millisecond with one suffix are all admitted, however many, for any limit of at least two |
| WindowBounds.LongRunRate | api-gateway/internal/ratelimiter/rate_limit.lua:24-48 | an interval of any length lets through at most the limit for each started (window - d) in it, plus collisions and failures |
| WindowBounds.ThrottledFromShare | api-gateway/internal/models/user.go:66-68 | a call is throttled exactly if it is within the limit and, itself included, over `percent` per cent of it; it goes undelayed exactly if it is within both |
| WindowBounds.UndelayedBound | api-gateway/internal/models/user.go:66-68 | in every interval of length window - d the undelayed calls, collisions aside, are at most the limit and at most `percent` per cent of it, and nothing is throttled from 100 per cent on |
| GreedyOptimality.NoPolicyGetsAhead | api-gateway/internal/ratelimiter/rate_limit.lua:24-48 | on every prefix of every arrival sequence the limiter lets through at least as many calls as any choice with at most the limit in every window |
| GreedyOptimality.NeverLater | api-gateway/internal/ratelimiter/rate_limit.lua:24-48 | the k-th call let through is never later than the k-th of any such policy |
| GreedyOptimality.ScriptIsOptimal | api-gateway/internal/ratelimiter/rate_limit.lua:34-48 | with distinct members and no failures, the script's own choice respects the limit in every window and is a largest one |
| GreedyOptimality.RejectedAfterLimit | api-gateway/internal/ratelimiter/rate_limit.lua:34-41 | a rejected call is preceded by as many passed calls as its limit since its window opened |
| FullLog.PrunedSetRefinesLog | api-gateway/internal/ratelimiter/rate_limit.lua:24-66 | decision, remaining and count of every reply equal those of a limiter that keeps every admission and counts those in (now - window, now] |
| FullLog.RejectionsLeaveNoTrace | api-gateway/internal/ratelimiter/rate_limit.lua:34-41 | taking any set of rejected calls out of a run changes no reply to any other call |
| FullLog.ExactReopening | api-gateway/internal/ratelimiter/limiter.go:99-101 | after a rejection every retry before the oldest timestamp plus the window is rejected and the first one from then on is admitted, however many there are; that is at most window + d later |
| FullLog.QuotaRestored | api-gateway/internal/ratelimiter/rate_limit.lua:34-41 | a window without admissions restores the full quota |
| Keyspace.KeysApart | api-gateway/internal/ratelimiter/limiter.go:103-105 | users' keys are distinct and never a blocklist key, for arbitrary strings |
| Keyspace.SamePruned | api-gateway/internal/ratelimiter/rate_limit.lua:50-54 | with clocks within the slack, pruning yields the same set whether or not the key had expired |
| Keyspace.ExpiryInvisible | api-gateway/internal/ratelimiter/rate_limit.lua:50-54 | one script execution on the expiring key gives the reply, and keeps the set, of one on a set that never expires |
| Keyspace.UsersAreIsolated | api-gateway/internal/ratelimiter/limiter.go:103-110 | for arbitrary clocks and any interleaving of users and blocklist commands, a user's answer is the one the user's own calls alone get on the same expiring database |
| Keyspace.SharedRedisIsInvisible | api-gateway/internal/ratelimiter/limiter.go:105-110 | in any interleaving, a user whose own clocks keep within the slack is answered as if that user's calls ran alone on a set that never expires; other users' clocks do not matter |
| Keyspace.TooMuchSlackShows | api-gateway/internal/ratelimiter/rate_limit.lua:53-54 | for every window and every slack over the bound, an expired key forgets a request still in the window and the next one is admitted instead of rejected |
| Keyspace.ExpiryUnnoticedExactly | api-gateway/internal/ratelimiter/rate_limit.lua:50-54 | expiry goes unnoticed in every history within the slack if and only if twice the slack is at most a second plus what rounding the window up to whole seconds adds |
| Keyspace.DeadlineFollowsAdmission | api-gateway/internal/ratelimiter/rate_limit.lua:34-54 | a key's deadline counts from its user's last admission; rejections and other commands never move it |
| Keyspace.KeyLifetime | api-gateway/internal/ratelimiter/rate_limit.lua:50-54 | the deadline is a whole number of seconds after that admission: at least the window plus one second, less than the window plus two |
| RedisServer.RecordedWrites | api-gateway/internal/ratelimiter/rate_limit.lua:25-54 | prune, add and expire in sequence come to one write of the pruned set with the new member and deadline |
| RedisServer.Redis.RateLimitScript | api-gateway/internal/ratelimiter/rate_limit.lua:15-66 | the sequence of Redis commands, with its early returns, is the atomic step on the database that the theorems speak of |
| RedisServer.Redis.BlockIP | api-gateway/internal/repository/cache_repo.go:88-104 | adds the address, sets the expiry key only for a positive lifetime, and fails only if the blocklist key holds no set |
| RedisServer.Redis.UnblockIP | api-gateway/internal/repository/cache_repo.go:107-117 | removes the address and its expiry key, and fails only if the blocklist key holds no set |
| RedisServer.Redis.IsIPBlocked | api-gateway/internal/repository/cache_repo.go:57-81 | blocked exactly if both commands answer yes; a background removal is started exactly if only the second answers no |
| RedisServer.Redis.ListBlockedIPs | api-gateway/internal/repository/cache_repo.go:121-127 | returns exactly the addresses for which the membership command answers yes |
| RateLimiter.Limiter.Evaluate | api-gateway/internal/ratelimiter/limiter.go:93-161 | runs the script under the user's key, decodes its answer, adds the delay when throttled, and fails open with the full limit when the call failed |
| RateLimiter.ResponseWriter.InjectRateLimitHeaders | api-gateway/internal/middleware/ratelimit.go:110-120 | the value of every rate-limit header, and which are set only when throttled |
| RateLimiter.RateLimit | api-gateway/internal/middleware/ratelimit.go:25-105 | 500 without a user, 429 on a rejection, otherwise forwarded at once or after the delay unless the client leaves first; limit, remaining, reset, throttled and Retry-After headers set as the decision demands |
| RateLimiter.LetThroughPasses | api-gateway/internal/ratelimiter/limiter.go:93-161 | a call is let through on the shared database exactly if it passes in the user's own run, given only that this user's clocks keep within the slack |
| RateLimiter.ResultTellsTheLog | api-gateway/internal/ratelimiter/limiter.go:111-159 | on the shared database a delivered result gives the number of the user's calls in the window by a log that forgets nothing, and what is left of the limit; a failed call gives the full limit and count 0 |
| RateLimiter.SkewOfSlack | api-gateway/internal/ratelimiter/limiter.go:99 | if a user's calls come from clocks within a slack of Redis's, their skew is at most twice the slack; 500 ms give one second |
| RateLimiter.EndToEndBound | api-gateway/internal/ratelimiter/limiter.go:93-161 | whatever shares the database and however other users' clocks run, every interval of window - 2 * slack lets through at most the user's limit, plus collisions and failed calls |
| RateLimiter.BackendLoad | api-gateway/internal/middleware/ratelimit.go:69-102 | the requests that the middleware forwards, at once or after the throttle delay, arrive at the backend at most the limit (plus collisions and failures) in every interval of window - 2 * slack - (latency + delay), whatever later layers drop |
| RateLimiter.ResetSecondOver | api-gateway/internal/middleware/ratelimit.go:113-115 | once the second named by the reset header and the clock skew have passed, a rejected client finds its full quota |
| RateLimiter.ResetSecondExactly | api-gateway/internal/middleware/ratelimit.go:113-115 | a first retry exactly at the second named by the reset header is admitted if and only if the fraction of a second cut off is at most the age of the oldest member at the rejection |
| RateLimiter.ResetSecondTooEarly | api-gateway/internal/middleware/ratelimit.go:113-115 | a retry exactly at the second named by the reset header can be rejected: a run of three calls |
| Blocklist.Contents | api-gateway/internal/repository/cache_repo.go:57-117 | in every interleaving the set holds the addresses added last and the expiry keys are exactly the ban log |
| Blocklist.EveryAnswer | api-gateway/internal/repository/cache_repo.go:57-127 | in every interleaving every write succeeds, every executed script replies, and the two commands of a check answer exactly by what was added last and by the ban log |
| Blocklist.BlockedOnlyIfBanned | api-gateway/internal/repository/cache_repo.go:57-81 | in every interleaving of single commands, an address reported blocked has a ban in force when its expiry key is read |
| Blocklist.BlockedExactly | api-gateway/internal/repository/cache_repo.go:57-104 | with unsplit pipelines an atomic check reports a ban if and only if one is in force and no background removal has landed since the address was added |
| Blocklist.BlockedIffBanned | api-gateway/internal/repository/cache_repo.go:71-78 | if moreover every removal lands before the next ban of its address, checks agree with the ban log |
| Blocklist.LateRemovalSilencesBan | api-gateway/internal/repository/cache_repo.go:74-76 | a removal landing after the next ban makes that ban unreported |
| Blocklist.SplitPipelineSilencesBan | api-gateway/internal/repository/cache_repo.go:86-99 | a check between the two commands of BlockIP can make that very ban unreported |
| Blocklist.PermanentBanNeverReported | api-gateway/internal/repository/cache_repo.go:83-97 | an address never given an expiry key is never reported blocked |
| Breaker.RetryAfterIsExact | api-gateway/internal/circuitbreaker/breaker.go:195-205 | while the breaker stays open requests fail fast exactly until RetryAfter has passed, and the header's seconds reach that point by less than a second |
| Breaker.WaitsOutRecovery | api-gateway/internal/circuitbreaker/breaker.go:195-205 | in every state: while open and waiting, RetryAfter ends when the recovery time does; otherwise it is 0 and the header says 1 |
| Breaker.Wrap32 | api-gateway/internal/circuitbreaker/breaker.go:88 | 32-bit two's complement: in range, congruent modulo 2^32, and the identity in range |
| Breaker.UnixMilli | api-gateway/internal/circuitbreaker/breaker.go:174 | the opening time is rounded down to a millisecond |
| Breaker.CircuitBreaker.constructor | api-gateway/internal/circuitbreaker/breaker.go:80-96 | starts Closed with clear fields and the threshold cut to 32 bits |
| Breaker.CircuitBreaker.Allow | api-gateway/internal/circuitbreaker/breaker.go:104-135 | verdict and new fields in each state, as the step function the run theorems use |
| Breaker.CircuitBreaker.RecordSuccess | api-gateway/internal/circuitbreaker/breaker.go:140-155 | new fields in each state, as the step function the run theorems use |
| Breaker.CircuitBreaker.RecordFailure | api-gateway/internal/circuitbreaker/breaker.go:162-186 | new fields in each state, as the step function the run theorems use |
| BreakerRuns.Gate.Enter | api-gateway/internal/middleware/circuitbreaker.go:25-45 | a request goes on to the handler exactly if the breaker admits it, and is outstanding from then on |
| BreakerRuns.Gate.Refuse | api-gateway/internal/middleware/circuitbreaker.go:25-45 | a refused request gets 503 and a Retry-After that, while open and waiting, passes the end of the recovery time by at most a second, and otherwise is 1 |
| BreakerRuns.Gate.Leave | api-gateway/internal/middleware/circuitbreaker.go:47-65 | exactly one outcome is recorded for it: a failure from status 500 on, else a success |
| BreakerRuns.AlwaysConsistent | api-gateway/internal/circuitbreaker/breaker.go:104-186 | in every run the probe flag is set exactly in HalfOpen and the counter is full exactly outside Closed |
| BreakerRuns.RefinesSimple | api-gateway/internal/circuitbreaker/breaker.go:104-186 | in every run the four-field breaker agrees, state by state and verdict by verdict, with the textbook three-state machine |
| BreakerRuns.TripsExactly | api-gateway/internal/circuitbreaker/breaker.go:144-176 | the breaker leaves Closed exactly on the outcome that makes the last threshold outcomes since entering Closed all failures |
| BreakerRuns.OneProbePerEpisode | api-gateway/internal/circuitbreaker/breaker.go:118-130 | each HalfOpen episode lets exactly one request through |
| BreakerRuns.OneProbeOut | api-gateway/internal/circuitbreaker/breaker.go:118-130 | as long as every outcome recorded in HalfOpen is the probe's own, no probe is out outside HalfOpen and at most the current one inside |
| BreakerRuns.StrayDoubles | api-gateway/internal/circuitbreaker/breaker.go:178-185 | after any other outcome recorded in HalfOpen while the probe is out, some panic-free continuation has two probes out |
| BreakerRuns.TwoProbesExactlyAfterStray | api-gateway/internal/circuitbreaker/breaker.go:118-185 | in every panic-free run, a stray outcome can lead to two probes out, and two probes out are always preceded by one |
| BreakerRuns.TwoProbesOut | api-gateway/internal/circuitbreaker/breaker.go:178-185 | such runs exist from a fresh breaker on: a request admitted before the trip ends the episode while its probe is out |
| BreakerRuns.OutageBound | api-gateway/internal/circuitbreaker/breaker.go:111-131 | from a trip at T0 until the breaker closes, the n requests let through by T satisfy n * (recovery - 1 ms) <= T - T0, late outcomes included |
| BreakerRuns.ProbeComesEarly | api-gateway/internal/circuitbreaker/breaker.go:113-115 | the millisecond in that bound is needed: a probe can come one nanosecond less than 1 ms early |
| BreakerRuns.TripsArePaidFor | api-gateway/internal/circuitbreaker/breaker.go:143-176 | threshold times the number of trips, plus the current count in Closed, is at most the number of failures recorded in Closed |
| BreakerRuns.ProberOutstanding | api-gateway/internal/middleware/circuitbreaker.go:49-65 | while no handler has panicked, the probe of a HalfOpen breaker is still outstanding and counted among the probes |
| BreakerRuns.ClosesUnlessAbandoned | api-gateway/internal/circuitbreaker/breaker.go:104-186 | some continuation closes the breaker if and only if it is not HalfOpen with nothing outstanding |
| BreakerRuns.NeverWedged | api-gateway/internal/circuitbreaker/breaker.go:104-186 | without panics, from every reachable state some continuation closes the breaker |
| BreakerRuns.PanickingProbeWedges | api-gateway/internal/middleware/circuitbreaker.go:49-65 | from any idle open breaker, a probe that panics leaves a state no continuation closes |
| BreakerThreads.FourEdges | api-gateway/internal/circuitbreaker/breaker.go:210-213 | one instruction changes the state along one of four edges only, each edge belongs to one instruction, and the ledger counts exactly these edges and the grants and clears of the flag |
| BreakerThreads.StateLoadedOnce | api-gateway/internal/circuitbreaker/breaker.go:104-186 | after the one load of the state in a method, the state decides neither what the thread does next nor what it does to the other fields |
| BreakerThreads.TimerThenFlag | api-gateway/internal/circuitbreaker/breaker.go:111-124 | with any instructions of others in between, a request that saw Open fails fast by the opening time it read, and otherwise is let through exactly if the flag is clear when it tries it, whoever won the swap |
| BreakerThreads.StampedBeforeOpen | api-gateway/internal/circuitbreaker/breaker.go:162-184 | in every schedule from a fresh breaker the opening time is recorded before the breaker opens, and no request ever compares its clock with anything else |
| BreakerThreads.AlwaysBalanced | api-gateway/internal/circuitbreaker/breaker.go:210-213 | for any threads and interleaving, the counts of successful swaps balance to the current state, and grants less clears to the probe flag |
| BreakerThreads.FromBoot | api-gateway/internal/circuitbreaker/breaker.go:121-184 | from a fresh breaker, trips and closings alternate and so do probe grants and clears |
| BreakerThreads.AllowAlone | api-gateway/internal/circuitbreaker/breaker.go:104-135 | the instructions of Allow without interruption are the atomic step and touch no other thread |
| BreakerThreads.RecordAlone | api-gateway/internal/circuitbreaker/breaker.go:140-186 | the instructions of RecordSuccess and RecordFailure without interruption are the atomic steps |
| BreakerThreads.RunsAreSchedules | api-gateway/internal/middleware/circuitbreaker.go:25-65 | every run of whole methods, panics included, is a schedule of the instructions |
| BreakerThreads.ShutForGood | api-gateway/internal/circuitbreaker/breaker.go:118-130 | a breaker that is not closed, with the flag set and no thread that can still clear it or close the breaker, stays so under every schedule |
| BreakerThreads.ClosesUnlessShut | api-gateway/internal/circuitbreaker/breaker.go:118-186 | for every machine, whatever its threads are doing, some panic-free schedule reaches Closed if and only if it is not shut in that sense |
| BreakerThreads.StaleFlagShutsForGood | api-gateway/internal/circuitbreaker/breaker.go:151-153 | for every threshold and recovery time, a schedule without panics leads to Closed with the flag set and from there to an idle breaker that can never close |

## Left out

- Evaluate: the error for an answer that does not have three elements, which the script never gives; and the client library's own retries, which would run the script again under a new suffix.
- RateLimit: the delay ends exactly when it is due (a late timer is covered by `WindowBounds.BackendBound`, which takes any bound on the time a call is held back), and the branch for an error from `Evaluate` is not there, because the script always answers with three elements.
- BlockIP: shown for a pipeline no other client's command splits; the interleavings are the histories of `Blocklist`, one command per event.
- UnblockIP: as for `BlockIP`.
- IsIPBlocked: the two commands read one database; the interleavings are the histories of `Blocklist`.
- ThrottleThreshold: integers are unbounded; the product of limit and percentage is not wrapped at 64 bits, nor are timestamps.
- BreakerThreads: only what the compare-and-swaps guarantee is claimed for interleavings inside methods; the outage bound and the trip condition are stated for whole methods.
- The text of a sorted-set member: a member is the pair of its timestamp and suffix.
- Redis internals: the script is atomic, commands follow their documented meaning, an expired key reads as absent from its deadline on, and memory eviction does not occur.
- Floating point: millisecond timestamps and the seconds of Retry-After are integers.
- Tiers by name, JWT validation, routing, proxying, response bodies, logging and metrics: single branches or input and output around the modelled state. The breaker gauge in particular is set after the swap and says nothing here.
- Address parsing (`normaliseIP` and its helpers) and the generic cache operations: string helpers and thin wrappers.
