# Leoxy: a verified model of its stateful cores

Leoxy is a reverse proxy written in Go. This Dafny project models the parts of it whose guarantees are about whole
runs, and proves those guarantees; each theorem names the inputs, runs and interleavings it is about.
`dafny verify dfyconfig.toml` checks all of it.

## The parts

**Rate limiting** (`Admission`, `Limiter`, `LimiterLaw`, `LimiterRuns`, `LimiterAnyClock`, `LimiterProgress`,
`LimiterStale`). `Admission` states the law a token bucket is supposed to obey in terms of the times of past
admissions only: a request at time t conforms when, for every past admission, the admissions from that one on and the
new one fit into one burst plus what was earned since. `Limiter` is the limiter as it is written: a map of lazily
refilled buckets updated in place, up to three of them charged together, a sweep, eviction at capacity, and a
write-back of three keys of which unused ones are empty. The method `Allow` is proved equal to the function `Step`.
`LimiterLaw` proves that `Step` refines a ledger of admission times that has no tokens and no sweeps, and
`LimiterRuns` lifts this to whole runs. `LimiterAnyClock` drops every condition on the clock: there the ledger forgets
what a sweep drops, and the limiter errs on one side only. `LimiterBuckets` reads one request off the map, and
`LimiterAdmission` proves the law end to end under a condition on the request's own keys, with the exact condition
where it fails; `LimiterCounts` restates it in plain counts of admissions. `LimiterProgress` says who is always
admitted, `LimiterStale` looks at one sweep and gives a concrete failing run.

**Redis** (`RedisBucket`, `GlobalGate`, `GateProtocol`, `Resp`, `RedisPool`). The script stores refills eagerly and
lets its key expire; it obeys the same law, hence makes the same decisions as the local fallback. `GlobalGate` puts
the two behind one handler, and `GateProtocol` lets any number of handlers interleave under arbitrary failures. `Resp`
is the wire format, `RedisPool` the connection pool as a protocol between any number of callers.

**Streams** (`StreamPolicy`, `UdpProtocol`, `UdpTable`, `TcpProtocol`). Each protocol is a step relation with one step
for each critical section or atomic action, and a program counter for the reader or acceptor; the theorems hold after
any sequence of enabled steps. `UdpTable` holds the same critical sections as methods that update the table in place.

**Load balancing** (`LoadBalancer`, and `PickProtocol` for concurrent picks), **client addresses** (`Networks`,
`Text`, `ClientIp`) and **routes** (`RouteTable`).

## How the model reads the source

- Time is whole nanoseconds (microseconds on the clock of Redis); tokens are exact reals; durations do not overflow.
- What the runtime or the environment decides is an input: which entry a map iteration yields first (`victims`), when
  Redis reaps an expired key, whether a dial, read, write or body replay succeeds, every clock reading.
- The clock of a local request is read before the lock is taken, so readings may reach the critical section out of
  order. Each theorem says what it needs. Progress, conservation and the fallback of the global limiter need no condition.
  The admission law and the window bound need one on the key only (`KeyClockOk`): a request that comes while the key's
  bucket is gone, dropped by a sweep and not charged since, does not carry a reading older than that sweep's. The bound
  with evictions needs readings in order, the fail-open bound and the equivalence with Redis a Redis clock that advances.
- Evictions are those of the key in question: other keys may be evicted at any time.
- Three statements one might expect are false of the code, and are given with a concrete input and the exact condition: the
  law for a reading older than a sweep (`StaleReadingBreaksLaw`; `DecisionAfterSweep` and, for every run,
  `DepartsFromLaw`), the law in Redis for a clock that runs backwards (`BackwardClockBreaksLaw`,
  `LawfulExactlyIfOrdered`), and the choice by a round-robin ticket of 2^63 or more (`UpperHalfPanics`, `PanicsExactly`).
- The capacity check that a UDP create repeats before inserting can never fail, because there is a single creator
  (`SecondCheckNeverFails`); the sequential method `UdpTable.SessionTable.Create` relies on the same fact.

## Model

| member | source | states |
|---|---|---|
| Admission.LevelIsLeastSlack | app/internal/security/rate.limit.go:86-88 | the room is a lower bound of the burst and of every past admission's slack, and one of them attains it |
| Admission.LevelDecides | app/internal/security/rate.limit.go:88-90 | having a whole token is equivalent to conforming to the law |
| Admission.LevelAppend | app/internal/security/rate.limit.go:91-94 | storing one token less and refilling from there is the same as recording the admission, for any order of clock readings |
| Admission.LevelRefills | app/internal/security/rate.limit.go:87 | between admissions the room only refills, up to the burst, when time does not run backwards |
| Admission.WindowBound | app/internal/security/rate.limit.go:77-94 | no window of a lawful history holds more than one burst plus what the window earns, whatever the order of the readings |
| Admission.RestedConforms | app/internal/security/rate.limit.go:86-90 | a lawful bucket left alone long enough to earn one token admits |
| Admission.LevelScales | app/internal/security/redis.rate.limit.go:30-36 | the law does not depend on the unit of the clock |
| Limiter.NewRateLimit | app/internal/security/rate.limit.go:31-53 | requests pass freely exactly when no rate is positive; otherwise the limiter has the positive limits with the default burst, distinct families, and an empty map |
| Limiter.RateLimiter.constructor | app/internal/security/rate.limit.go:51-53 | a new limiter has no buckets and counts sweeps from now |
| Limiter.RateLimiter.Sweep | app/internal/security/rate.limit.go:66-70 | deletes exactly the buckets whose full time has passed and changes no other |
| Limiter.RateLimiter.EvictOne | app/internal/security/rate.limit.go:79-82 | removes exactly one existing entry, chosen by the map iteration |
| Limiter.RateLimiter.Charge | app/internal/security/rate.limit.go:74-95 | the map after examination, the charged buckets and the verdict are those of the specification, with victims that really were in the map |
| Limiter.RateLimiter.StoreAll | app/internal/security/rate.limit.go:96-98 | all three keys are written in order, padding included |
| Limiter.RateLimiter.Allow | app/internal/security/rate.limit.go:55-100 | one request moves the whole object exactly as the specification step does, for some genuine choice of victims; `LimiterCounts` says what that step decides without keys or buckets |
| Limiter.DenialIsFinal | app/internal/security/rate.limit.go:88-90 | once a limit denies, the limits behind it change nothing |
| LimiterLaw.KeysDisjoint | app/internal/security/rate.limit.go:31-35 | two limits share a key only if they are the same limit for the same client, and no key is the empty padding key |
| LimiterLaw.SweptIsFull | app/internal/security/rate.limit.go:93 | truncating the full time is safe: strictly after it the bucket really has refilled |
| LimiterLaw.SweepRefines | app/internal/security/rate.limit.go:64-72 | a sweep keeps agreement with the ledger, which has no sweeps |
| LimiterLaw.ForgetRefines | app/internal/security/rate.limit.go:78-83 | an eviction is forgetting the victim's history, and nothing else |
| LimiterLaw.ExamineRefines | app/internal/security/rate.limit.go:74-95 | examining the limits in order gives the ledger's verdict, whatever is evicted on the way |
| LimiterLaw.WriteBackAt | app/internal/security/rate.limit.go:96-98 | the write-back gives each real key its own value, leaves all other keys alone, and padding never lands on a real key |
| LimiterLaw.WriteBackRefines | app/internal/security/rate.limit.go:96-98 | writing all charged buckets agrees with recording the admission under each key |
| LimiterLaw.StepRefines | app/internal/security/rate.limit.go:55-100 | one request with sweep, eviction, joint charge and write-back is decided like the ledger decides it and stays in agreement, if its clock is not older than the last sweep |
| LimiterRuns.LimiterRefinesLedger | app/internal/security/rate.limit.go:55-100 | over every run no reading of which is older than a sweep, all decisions are the ledger's |
| LimiterRuns.MonotoneIsClockOk | app/internal/security/rate.limit.go:56-72 | readings that reach the lock in order are never older than a sweep |
| LimiterRuns.KeyEffect | app/internal/security/rate.limit.go:74-98 | a request adds its time to the history of its own keys only, if admitted only, and only an eviction shortens a history |
| LimiterRuns.LedgerRecordsTimes | app/internal/security/rate.limit.go:91-98 | as long as a key is not evicted, whatever else is, its history is exactly the admission times charged to it, and it is lawful |
| LimiterRuns.JudgeIsProduct | app/internal/security/rate.limit.go:74-95 | joint charging is a product: a request that evicts none of its own keys is admitted exactly when each bucket alone would admit it |
| LimiterRuns.NoEvictionBelowCapacity | app/internal/security/rate.limit.go:77-83 | below capacity nothing is evicted while examining |
| LimiterRuns.SmallRunsDoNotEvict | app/internal/security/rate.limit.go:77-83 | a run whose requests cannot fill the map, at three entries each, evicts nothing |
| LimiterRuns.SingleLimitStep | app/internal/security/rate.limit.go:55-100 | a limiter with one limit below capacity touches only that bucket and the padding key |
| LimiterRuns.WindowBoundWithEvictions | app/internal/security/rate.limit.go:77-94 | with k evictions of a key a window admits at most k + 1 bursts and what it earns |
| LimiterRuns.WindowBoundOfRun | app/internal/security/rate.limit.go:55-100 | the same for any stretch of any run of the limiter whose readings reach the lock in order |
| LimiterAnyClock.StepIsRemembered | app/internal/security/rate.limit.go:55-100 | with any clock reading, however old, one request is decided like the ledger that also forgets what a sweep drops, and stays in agreement with it at all times |
| LimiterAnyClock.JudgedByMemory | app/internal/security/rate.limit.go:55-100 | every request of every run is decided by that ledger, with no condition on the clock or on evictions |
| LimiterAnyClock.MemoryIsEnd | app/internal/security/rate.limit.go:64-98 | what is remembered of a key is the end of its true history, and is lawful |
| LimiterAnyClock.ConformingIsAdmitted | app/internal/security/rate.limit.go:56-99 | in every run, readings in any order and evictions included, a request that conforms to the law is admitted |
| LimiterBuckets.DecidedOnStore | app/internal/security/rate.limit.go:74-99 | for any reading, a request that evicts none of its own keys is admitted exactly if each limit finds a token once it has swept |
| LimiterBuckets.BucketAfter | app/internal/security/rate.limit.go:64-98 | the exact bucket of a key after a request that does not evict it, for any reading |
| LimiterBuckets.OwnSweepIsInvisible | app/internal/security/rate.limit.go:64-72 | a request finds after its own sweep what it would have found before it, for any reading |
| LimiterBuckets.TokensConserved | app/internal/security/rate.limit.go:87-98 | for any reading, admission takes exactly one token from each of the request's buckets, denial and other requests take none, for every bucket the request does not evict |
| LimiterBuckets.TokensConservedInRun | app/internal/security/rate.limit.go:55-100 | the same after every run from the empty map |
| LimiterAdmission.UndroppedTells | app/internal/security/rate.limit.go:86-94 | a bucket that is never dropped holds the least slack of the whole history, at every time |
| LimiterAdmission.DepartsFromLaw | app/internal/security/rate.limit.go:56-99 | on every run and for every reading, a decision departs from the law if and only if every limit finds a token in the map although one bucket, had it never been dropped, would be short of one |
| LimiterAdmission.KeyTrace | app/internal/security/rate.limit.go:64-98 | if no request on a key comes, while its bucket is gone, with a reading older than the sweep that dropped it, then the map holds the never-dropped bucket or nothing since just that bucket was dropped, and the history is lawful |
| LimiterAdmission.DecisionAfterSweep | app/internal/security/rate.limit.go:55-100 | for a reading of any age after earlier requests that met this condition, the decision is the law's if and only if it is not the case that every limit finds a token while a bucket dropped by a later-reading sweep, and not charged since, is short of one |
| LimiterAdmission.AdmissionLaw | app/internal/security/rate.limit.go:55-100 | from the empty map, with sweeps, evictions and readings in any order: a request none of whose own keys was evicted, and whose keys met this condition, is admitted if and only if every configured quota conforms to the admissions on its own key |
| LimiterAdmission.TokensAreLeastSlack | app/internal/security/rate.limit.go:86-98 | the tokens found in any such bucket are the least slack left by the admissions on its key, from the sweep that dropped it on if it is gone |
| LimiterAdmission.StoredTellsAlways | app/internal/security/rate.limit.go:86-98 | and at every time, past or future, if it is stored |
| LimiterAdmission.WindowBoundAnyOrder | app/internal/security/rate.limit.go:56-61 | as long as such a key is not evicted any window holds at most one burst of it plus what the window earns, for readings in any order |
| LimiterAdmission.NeverDroppedIsOk | app/internal/security/rate.limit.go:64-72 | a key that no sweep drops meets the condition for readings in any order |
| LimiterAdmission.ClockOkIsKeyClockOk | app/internal/security/rate.limit.go:56-72 | so does every key when no reading is older than a sweep |
| LimiterCounts.DecisionInCounts | app/internal/security/rate.limit.go:55-100 | in terms of clients, rates and bursts alone: with readings not older than a sweep and no eviction, a request is admitted if and only if it fits every limit, a per-client limit counting the admissions of that client and any other limit those of all clients together |
| LimiterCounts.WindowBoundInCounts | app/internal/security/rate.limit.go:31-45 | in the same terms: the admissions a limit counts in a window are at most its burst and what its rate earns in the window |
| LimiterCounts.RouteIsShared | app/internal/security/rate.limit.go:33 | a second client of a route is denied once the first has used its only token |
| LimiterBuckets.ConfiguredExactly | app/internal/security/rate.limit.go:37-46 | the limits in use are those with a positive rate, with the rate as burst where none is given |
| LimiterBuckets.SweepsAreTimely | app/internal/security/rate.limit.go:64-72 | no request leaves the last sweep a minute behind, or a second behind at capacity, and sweeps are at least a second apart |
| LimiterBuckets.FullBucketsAreSwept | app/internal/security/rate.limit.go:66-70 | a bucket that has been full for a nanosecond is dropped by a sweep |
| LimiterBuckets.EvictionMakesRoom | app/internal/security/rate.limit.go:77-83 | a missing bucket evicts one entry at capacity, none below, and then there is room |
| LimiterBuckets.PresentKeyEvictsNothing | app/internal/security/rate.limit.go:76-83 | a bucket that is there is no reason to evict |
| LimiterStale.SweptDecision | app/internal/security/rate.limit.go:64-90 | the decision on a swept map is the law's if and only if it is not the case that a bucket was dropped short of a token while every limit finds one |
| LimiterProgress.RestedRequestIsAdmitted | app/internal/security/rate.limit.go:86-99 | in every run from the empty map, amid any other requests, readings and evictions, a request none of whose buckets was charged for 60/rate seconds is admitted |
| LimiterProgress.RetryAfterIsEnough | app/internal/security/rate.limit.go:102-107 | in every run a request is admitted if none of its buckets was charged within the advertised 60 seconds, for every rate |
| LimiterProgress.SpacedStreamIsNeverDenied | app/internal/security/rate.limit.go:39-44 | in every run a request spaced by 60/rate seconds from the earlier requests on each of its own keys is admitted |
| LimiterProgress.SpacedClientIsNeverDenied | app/internal/security/rate.limit.go:31-44 | under a limit for each client, a client who spaces its own requests is never denied, whatever the others send |
| LimiterStale.StaleReadingBreaksLaw | app/internal/security/rate.limit.go:56-72 | a concrete run in which a reading older than a sweep is admitted against the law |
| RedisBucket.RedisHash.Eval | app/internal/security/redis.rate.limit.go:29-44 | the script replaces the hash, on denial too, and answers 1 exactly for an admission |
| RedisBucket.ExpiredIsFull | app/internal/security/redis.rate.limit.go:43 | a key that may have expired belongs to a bucket that is full again |
| RedisBucket.TimeToLiveIsTight | app/internal/security/redis.rate.limit.go:43 | the time to live is the least number of seconds, and at least one, that covers twice the time to fill up |
| RedisBucket.FoundTracks | app/internal/security/redis.rate.limit.go:33-35 | losing an expired key cannot be observed at any later time |
| RedisBucket.ScriptFollowsLaw | app/internal/security/redis.rate.limit.go:33-44 | one call decides by the law and keeps the hash in agreement with the admissions, whether it admits or denies |
| RedisBucket.EntryTracksLaw | app/internal/security/redis.rate.limit.go:29-44 | after any calls on a clock in order the hash agrees with the admissions, whatever expired |
| RedisBucket.RedisFollowsLaw | app/internal/security/redis.rate.limit.go:29-44 | every call of every nondecreasing sequence is decided by the law, so expiry is unobservable |
| RedisBucket.LawfulExactlyIfOrdered | app/internal/security/redis.rate.limit.go:29-44 | every bucket decides every call by the law on given clock readings if and only if the readings never run backwards |
| RedisBucket.BackwardClockBreaksLaw | app/internal/security/redis.rate.limit.go:36-42 | a clock that runs backwards lets the bucket earn the same time twice, against the law |
| GlobalGate.FallbackIsConfigured | app/internal/security/redis.rate.limit.go:78-85 | both paths use the same rate and the same default burst |
| GlobalGate.FallbackStep | app/internal/security/redis.rate.limit.go:79 | for any reading, the fallback never holds more than its one bucket and the padding, and decides by the law |
| GlobalGate.FallbackFollowsLaw | app/internal/security/redis.rate.limit.go:79 | over every run, readings in any order, the fallback decides by the law, whatever is swept |
| GlobalGate.RedisAndLocalAgree | app/internal/security/redis.rate.limit.go:78-104 | on every nondecreasing sequence of times the eager expiring bucket and the lazy swept one admit the same requests |
| GlobalGate.Gate.constructor | app/internal/security/redis.rate.limit.go:78-86 | the gate starts with an absent key and an empty fallback of the same limit |
| GlobalGate.Gate.Serve | app/internal/security/redis.rate.limit.go:87-103 | one request moves both stores and is answered as the specification says, for a failure before the script, after it, or none |
| GateProtocol.ServedAlone | app/internal/security/redis.rate.limit.go:87-103 | the steps of one undisturbed request are the handler's |
| GateProtocol.StepKeepsAccounts | app/internal/security/redis.rate.limit.go:87-103 | every step of every handler keeps the admissions of both stores lawful and known to the store |
| GateProtocol.StepKeepsBooked | app/internal/security/redis.rate.limit.go:87-103 | every step keeps each admission of a store booked to exactly one request |
| GateProtocol.RunKeepsInv | app/internal/security/redis.rate.limit.go:87-103 | both hold after any interleaving of handlers with any failures, scripts that run after their handler gave up included |
| GateProtocol.GateBound | app/internal/core/run.go:186-205 | in every interleaving, under arbitrary Redis failures, a window passes at most one quota when failing closed and two when failing open |
| GateProtocol.DecidedByLaw | app/internal/security/redis.rate.limit.go:87-103 | in every run the script decides by the law on the Redis clock and the fallback by the law on its own; answers are passed on, and failures lead to the fallback exactly when failing open |
| GateProtocol.RepliesAreDecisions | app/internal/security/redis.rate.limit.go:87-103 | in every run a request is told what the store that was asked last decided, and of a store failure only when failing closed |
| Resp.RedisConn.Send | app/internal/security/redis.rate.limit.go:217-227 | the nested loops append exactly the encodings of all commands, in one write |
| Resp.RedisConn.Receive | app/internal/security/redis.rate.limit.go:229-248 | one reply is taken off the stream and classified as specified, malformed and broken replies included |
| Resp.CommandReads | app/internal/security/redis.rate.limit_test.go:121-153 | one printed command with arbitrary bytes is read back, and nothing behind it is consumed |
| Resp.CommandsRoundTrip | app/internal/security/redis.rate.limit.go:217-227 | reading as often as there were commands gives exactly those commands and leaves exactly what follows |
| Resp.HeaderReads | app/internal/security/redis.rate.limit_test.go:122-132 | a printed length header is read back and ends at its own line |
| Resp.AtoiDecimal | app/internal/security/redis.rate.limit_test.go:129 | parsing inverts decimal printing for every number that fits 64 bits |
| Resp.ReplyRoundTrip | app/internal/security/redis.rate.limit.go:229-248 | every integer, status and error reply is read with its meaning and consumes exactly its own bytes |
| Resp.WireExample | app/internal/security/redis.rate.limit.go:217-227 | the bytes of a two-argument command |
| Resp.ReplyExamples | app/internal/security/redis.rate.limit.go:229-248 | the meaning of three replies given as bytes |
| Resp.OnlyIntegersAndStatusesSucceed | app/internal/security/redis.rate.limit.go:238-247 | only a line that starts with a colon or a plus is a success |
| RedisPool.StepKeepsInv | app/internal/security/redis.rate.limit.go:106-174 | every step of every caller, successful or failing, keeps exclusive ownership, clean pooled connections and reply alignment |
| RedisPool.RunKeepsInv | app/internal/security/redis.rate.limit.go:106-174 | the invariant holds after any interleaving |
| RedisPool.RepliesAreOwn | app/internal/security/redis.rate.limit.go:190-215 | every reply ever read answers the very command, by serial number, that its own reader sent, pipelined pairs included |
| RedisPool.PoolIsClean | app/internal/security/redis.rate.limit.go:132-136 | pooled connections are open, set up, without unread replies, held by nobody, pooled once, and within capacity |
| RedisPool.OneOwner | app/internal/security/redis.rate.limit.go:158-174 | an open connection outside the pool is in the hands of exactly one caller |
| RedisPool.SetsUpOnlyAsConfigured | app/internal/security/redis.rate.limit.go:176-188 | in every run nobody authenticates without a password or selects a database that is not configured |
| RedisPool.DialsOnlyWhenEmpty | app/internal/security/redis.rate.limit.go:158-164 | a caller dials only when the pool is empty, and else takes the connection pooled longest |
| RedisPool.ClosingOnlyAfterFailure | app/internal/security/redis.rate.limit.go:115-131 | a caller gives up its connection exactly after a failed write or read or an error reply |
| RedisPool.ClosedOnlyForReason | app/internal/security/redis.rate.limit.go:132-136 | an open connection is closed only by its holder, after a failure or when the pool is full |
| RedisPool.ReturnedIfRoom | app/internal/security/redis.rate.limit.go:132-136 | after a successful exchange the connection goes back to the pool if there is room |
| Networks.WithinAny | app/internal/http_server/shared/policy.go:77-84 | true exactly when some network contains the address |
| StreamPolicy.TakenCounts | app/internal/http_server/shared/policy.go:52 | a slot raises the count of its own host by one, no other, and stores no zero |
| StreamPolicy.ReleasedCounts | app/internal/http_server/shared/policy.go:62-66 | a release lowers the count of its own host by one, not below zero, no other, and stores no zero |
| StreamPolicy.Policy.constructor | app/internal/http_server/shared/policy.go:18-28 | a new policy counts nobody |
| StreamPolicy.RoomExactly | app/internal/http_server/shared/policy.go:49 | a limit that is not positive refuses nobody, a positive one exactly the hosts that hold that many slots |
| StreamPolicy.Policy.Acquire | app/internal/http_server/shared/policy.go:30-54 | succeeds exactly for a parsed address that no deny network contains and an allow network does, if there are any, whose host holds fewer slots than a positive limit; otherwise changes no counter |
| StreamPolicy.Policy.Release | app/internal/http_server/shared/policy.go:56-67 | gives back one slot of that host only |
| UdpProtocol.InsertCounts | app/internal/http_server/UDP/udp.index.go:113 | inserting a new address raises the number of its host's sessions by one and no other's |
| UdpProtocol.DeleteCounts | app/internal/http_server/UDP/udp.index.go:126 | deleting an address lowers the number of its host's sessions by one and no other's |
| UdpProtocol.StepKeepsInv | app/internal/http_server/UDP/udp.index.go:86-157 | every step of reader, sweeper, relay and closer keeps slot conservation and the life cycle of every session |
| UdpProtocol.RunKeepsInv | app/internal/http_server/UDP/udp.index.go:28-177 | the invariant holds after any interleaving |
| UdpProtocol.SlotsConserved | app/internal/http_server/UDP/udp.index.go:86-157 | a host's counter is its sessions in the table plus the slots in flight; limit, no zero entries and table capacity are respected |
| UdpProtocol.ReleasedExactlyOnce | app/internal/http_server/UDP/udp.index.go:120-157 | a session's slot is given back at most once, exactly when it is neither held, live nor leaving, and its socket is closed then |
| UdpProtocol.RemovalIsOwn | app/internal/http_server/UDP/udp.index.go:120-128 | a live entry disappears only by the sweep or by its own relay |
| UdpProtocol.OnlyOwnRemoval | app/internal/http_server/UDP/udp.index.go:106-128 | in every reachable state no insertion overwrites a live entry and no stale relay removes a newer session |
| UdpProtocol.ReleasesMeetTheirSlot | app/internal/http_server/shared/policy.go:62-65 | every release meets a positive counter, so the saturating branch never hides a double release |
| UdpProtocol.SecondCheckNeverFails | app/internal/http_server/UDP/udp.index.go:106-112 | the reader finds room when it inserts, so the second capacity check never refuses |
| UdpProtocol.RefusedExactlyAtLimit | app/internal/http_server/UDP/udp.index.go:93-96 | in every interleaving a permitted client is refused exactly if there is a positive limit and its host has that many slots in use |
| UdpProtocol.RefusedExactlyWhenFull | app/internal/http_server/UDP/udp.index.go:87-92 | a new client passes the first check exactly while there are fewer than 4096 sessions |
| UdpProtocol.CloserClosesTheTable | app/internal/http_server/UDP/udp.index.go:130-136 | the closer closes every session in the table and no other |
| UdpProtocol.QuietIsEmpty | app/internal/http_server/UDP/udp.index.go:159-165 | the invariant with all threads at rest leaves no session, slot or socket |
| UdpProtocol.Quiescence | app/internal/http_server/UDP/udp.index.go:57-63 | after any run that ends with reader idle and relays done, table, counters and sockets are all empty |
| UdpTable.SessionTable.constructor | app/internal/http_server/UDP/udp.index.go:39 | a new table is empty and agrees with the policy's counters |
| UdpTable.SessionTable.Lookup | app/internal/http_server/UDP/udp.index.go:70-78 | returns the session of that address, if any, and refreshes its activity only |
| UdpTable.SessionTable.Touch | app/internal/http_server/UDP/udp.index.go:80-84 | refreshes the activity of a session and leaves the table alone |
| UdpTable.SessionTable.Create | app/internal/http_server/UDP/udp.index.go:86-118 | creates exactly when there is room, a slot and a successful dial, and otherwise leaves table and counters as they were |
| UdpTable.SessionTable.Remove | app/internal/http_server/UDP/udp.index.go:120-128 | removes the entry and gives back its slot only if it is still this very session |
| UdpTable.SessionTable.CloseAll | app/internal/http_server/UDP/udp.index.go:130-136 | every session in the table is closed and the table unchanged |
| UdpTable.SessionTable.Expire | app/internal/http_server/UDP/udp.index.go:148-152 | removes, pays back and closes one session and no other |
| UdpTable.SessionTable.Sweep | app/internal/http_server/UDP/udp.index.go:138-157 | removes and closes exactly the sessions idle for five minutes, with counters still in agreement |
| TcpProtocol.StepKeepsInv | app/internal/http_server/TCP/tcp_index.go:53-74 | every step of acceptor and handlers keeps tokens, slots and client connections in agreement, reject path included |
| TcpProtocol.RunKeepsInv | app/internal/http_server/TCP/tcp_index.go:28-75 | the invariant holds after any interleaving |
| TcpProtocol.TokensAndSlotsConserved | app/internal/http_server/TCP/tcp_index.go:53-74 | one token for each handler not past its receive, at most 1024; a host's counter is its handlers not past release plus the acceptor's reservation |
| TcpProtocol.ReceiveNeverBlocks | app/internal/http_server/TCP/tcp_index.go:63-66 | a leaving handler always finds a token to receive |
| TcpProtocol.RefusedExactlyAtLimit | app/internal/http_server/TCP/tcp_index.go:53-59 | in every interleaving a permitted client is refused exactly if there is a positive limit and its host's handlers hold that many slots |
| TcpProtocol.OverloadedExactlyWhenFull | app/internal/http_server/TCP/tcp_index.go:60-74 | an admitted client gets a handler exactly while fewer than 1024 handlers hold a token |
| TcpProtocol.Quiescence | app/internal/http_server/TCP/tcp_index.go:62-74 | at rest no token, slot or client connection is left |
| LoadBalancer.TargetHealth.constructor | app/internal/http_server/proxy/load_balancer.go:27-29 | no target is in cooldown at first |
| LoadBalancer.TargetHealth.IsDown | app/internal/http_server/proxy/load_balancer.go:35-50 | down until and including the end of the cooldown, and the entry is deleted only after it |
| LoadBalancer.TargetHealth.MarkDown | app/internal/http_server/proxy/load_balancer.go:52-59 | puts that target alone into a ten-second cooldown |
| LoadBalancer.LookingIsUnobservable | app/internal/http_server/proxy/load_balancer.go:45-48 | the lazy deletion changes no later answer about any target |
| LoadBalancer.PanicsExactly | app/internal/http_server/proxy/load_balancer.go:63 | a ticket panics instead of indexing a target exactly if it is 2^63 or more and its distance to 2^64 is no multiple of the target count |
| LoadBalancer.UpperHalfPanics | app/internal/http_server/proxy/load_balancer.go:63 | ticket 2^63 with three targets panics |
| LoadBalancer.LowerHalfInTurn | app/internal/http_server/proxy/load_balancer.go:63 | below 2^63 the tickets select the targets in turn |
| LoadBalancer.FullTurn | app/internal/http_server/proxy/load_balancer.go:68 | with all targets down the choice is plain round robin's |
| LoadBalancer.Balancer.Pick | app/internal/http_server/proxy/load_balancer.go:61-69 | for every counter value: the first target not down in the order of the tickets, the next ticket's when all are down, or the panic at the first ticket that selects none |
| PickProtocol.StepKeepsInv | app/internal/http_server/proxy/load_balancer.go:61-69 | every step of any number of concurrent picks keeps tickets unshared and each pick where its ticket says |
| PickProtocol.RunKeepsInv | app/internal/http_server/proxy/load_balancer.go:61-69 | the invariant holds after any interleaving, and no ticket is lost while the looks find the targets up |
| PickProtocol.TicketsAreExclusive | app/internal/http_server/proxy/load_balancer.go:63 | in every interleaving a ticket is in at most one hand, and a pick returns its ticket's target or panics exactly if the ticket selects none |
| PickProtocol.LooksUnlessAllDown | app/internal/http_server/proxy/load_balancer.go:62-68 | a ticket is taken without a look exactly after as many down targets as there are |
| PickProtocol.LookDecides | app/internal/http_server/proxy/load_balancer.go:64-66 | a look counts one more down target or ends the pick with its ticket's target |
| PickProtocol.AnyRound | app/internal/http_server/proxy/load_balancer.go:63 | n consecutive tickets below 2^63 from anywhere select each of n positions once |
| PickProtocol.FairRounds | app/internal/http_server/proxy/load_balancer.go:61-66 | any k*n consecutive tickets below 2^63 select each of n positions exactly k times |
| PickProtocol.PicksAreTickets | app/internal/http_server/proxy/load_balancer.go:61-66 | with no ticket lost, the concurrent picks at a position are as many as the tickets that select it |
| PickProtocol.FairInEveryInterleaving | app/internal/http_server/proxy/load_balancer.go:61-66 | in every interleaving with the targets up, any k*n consecutive tickets below 2^63 give each of n positions exactly k picks |
| LoadBalancer.Transport.Retry | app/internal/http_server/proxy/load_balancer.go:146-170 | one turn of the retry loop: skipped, unreplayable, answered, cancelled or marked down |
| LoadBalancer.Transport.RoundTrip | app/internal/http_server/proxy/load_balancer.go:135-173 | outcome, attempted positions and final cooldown table are those of the specification the next rows are about |
| LoadBalancer.AttemptsInOrder | app/internal/http_server/proxy/load_balancer.go:145-168 | retries go in configured order, each target at most once, never the initial one; all but the last failed; success exactly when the last attempt got a response |
| LoadBalancer.FailureIsExhaustive | app/internal/http_server/proxy/load_balancer.go:145-172 | a failure with a live context leaves no other target that was not tried, down when looked at, or unreplayable, whatever concurrent requests do to the table |
| LoadBalancer.FailureMarksAll | app/internal/http_server/proxy/load_balancer.go:138-171 | with distinct keys and a table nobody else changes, such a failure leaves every attempted target in cooldown from its attempt, and all others were down before or unreplayable |
| LoadBalancer.OnlyFailuresMark | app/internal/http_server/proxy/load_balancer.go:138-170 | however a call ends, an entry changes only if an attempt at that very target failed with a live context, to ten seconds from then, or if it had expired and a look deleted it |
| LoadBalancer.RetriedWereUp | app/internal/http_server/proxy/load_balancer.go:149-161 | a retried target was up when looked at and its body could be replayed, whatever concurrent requests do to the table |
| LoadBalancer.DownForTenSeconds | app/internal/http_server/proxy/load_balancer.go:20-58 | a marked target is down for ten seconds, the last instant included |
| LoadBalancer.RetriesTouchOwnKeys | app/internal/http_server/proxy/load_balancer.go:149-170 | the retries leave the cooldown of all other keys alone |
| LoadBalancer.RetriesMark | app/internal/http_server/proxy/load_balancer.go:170 | a failed retry's cooldown survives the rest of the loop |
| LoadBalancer.NotRetried | app/internal/http_server/proxy/load_balancer.go:137-143 | a request that must not be retried makes one attempt and leaves the cooldown table unchanged |
| LoadBalancer.OneAttempt | app/internal/http_server/proxy/load_balancer.go:141-143 | after a response, with a single target or for a request that must not be retried there is one attempt |
| Text.TrimRightMeaning | app/internal/file/config.go:182 | trimming removes cut characters only, leaves none at the end, and is the identity exactly where there is none |
| Text.Trimming | app/internal/common/ip.go:68-69 | every text is white space, its trimmed text, and white space |
| Text.TrimmingIsUnique | app/internal/common/ip.go:68-69 | the trimmed text is the only one with neither end white space for which this is so |
| Text.SplitConcat | app/internal/common/ip.go:65 | splitting distributes over concatenation at a separator |
| ClientIp.ReadForwardedFor | app/internal/common/ip.go:64-73 | the loop yields the trimmed nonblank pieces between commas, in order |
| ClientIp.GetClientIP | app/internal/common/ip.go:22-50 | the loops compute the address that the walk from the right arrives at, with its fallbacks; the rows around say what that is for the text of the headers |
| ClientIp.ForwardedForConcat | app/internal/common/ip.go:64-73 | a header extended after a comma has the hops of both parts |
| ClientIp.PaddingIsIgnored | app/internal/common/ip.go:64-73 | white space before or after any comma of the header changes neither the hops nor the answer |
| ClientIp.HopsAreTrimmed | app/internal/common/ip.go:67-71 | no hop is blank or begins or ends in white space |
| ClientIp.HeaderRoundTrip | app/internal/common/ip.go:64-73 | reading a header written from hops gives exactly those hops, for any padding of the commas |
| ClientIp.WalkConcat | app/internal/common/ip.go:33-41 | the right part decides alone if any of its hops is decisive, otherwise the left part decides |
| ClientIp.RightmostHopDecides | app/internal/common/ip.go:22-50 | what a client writes in front of a header with a decisive hop has no effect; in front of one without, it is walked next |
| ClientIp.UntrustedPeerIgnoresHeaders | app/internal/common/ip.go:28-30 | from an untrusted or malformed peer no header has any influence |
| ClientIp.WalkFindsRightmost | app/internal/common/ip.go:33-41 | an address is found exactly when it is an untrusted hop with only trusted hops to its right |
| ClientIp.HopsAnswer | app/internal/common/ip.go:32-49 | from a trusted peer with hops, the client they name is the answer, and the peer itself if they name none |
| ClientIp.HopsSilenceOthers | app/internal/common/ip.go:42-48 | with hops the other two headers have no influence |
| ClientIp.RealIPFirst | app/internal/common/ip.go:42-49 | without hops X-Real-IP is the answer once it is an address, whatever CF-Connecting-IP says; then CF-Connecting-IP; then the peer |
| RouteTable.NormalizePathIsNormal | app/internal/file/config.go:173-188 | a normalized path starts with a slash and does not end in one unless it is the root |
| RouteTable.NormalizePathFixed | app/internal/file/config.go:173-188 | normalizing such a path again is the identity exactly when it does not end in white space |
| RouteTable.NormalizeIgnoresPadding | app/internal/file/config.go:174-177 | white space around a value does not matter, and nothing else is the root |
| RouteTable.NormalizeAddsSlash | app/internal/file/config.go:178-180 | a value without a leading slash normalizes like the slash followed by it |
| RouteTable.NormalizeDropsSlashes | app/internal/file/config.go:181-187 | a normal path comes back from itself with any slashes behind, and without its leading slash |
| RouteTable.DistinctPathsStayDistinct | app/internal/file/config.go:173-188 | different normal paths stay different however they are written |
| RouteTable.ProtocolNames | app/internal/file/config.go:204-239 | exactly these names are served over HTTP and these two as streams |
| RouteTable.ProtocolIgnoresCase | app/internal/file/config.go:203 | padding and letter case of a protocol do not matter |
| RouteTable.ListenersClashExactly | app/internal/file/config.go:211 | two streams share a listener exactly if protocol and address are the same |
| RouteTable.ReservedExactly | app/internal/file/config.go:94 | four paths and everything below them are reserved, and nothing that merely begins like one |
| RouteTable.IsReserved | app/internal/file/config.go:252-259 | true exactly for a reserved path or one below it |
| RouteTable.ContainsAny | app/internal/file/config.go:224 | true exactly when a character occurs that patterns must not contain |
| RouteTable.ValidateSecurity | app/internal/file/config.go:261-295 | no problem is reported exactly for nonnegative numbers, parsing networks and a long enough secret |
| RouteTable.ValidateUpstream | app/internal/file/config.go:203-241 | no problem exactly for a sound upstream whose path or listener was not seen, and then it is remembered |
| RouteTable.ValidateUpstreams | app/internal/file/config.go:194-241 | no problem exactly when all upstreams are sound and no two clash, with the need for TLS found on the way |
| RouteTable.Validate | app/internal/file/config.go:190-250 | no problem is reported exactly for the acceptable configurations, a condition on all pairs of upstreams |
| RouteTable.AcceptableExactly | app/internal/file/config.go:190-250 | the acceptable configurations clause by clause, in terms of the settings |
| RouteTable.UpstreamSoundExactly | app/internal/file/config.go:203-241 | a sound upstream clause by clause |
| RouteTable.PatternsDisjoint | app/internal/core/run.go:352-357 | different normalized paths register disjoint patterns |
| RouteTable.PatternsNotBuiltIn | app/internal/core/run.go:57-73 | a path that is not reserved registers no built-in pattern |
| RouteTable.RegisterHTTP | app/internal/core/run.go:352-357 | registers the path and its subtree, or the root alone |
| RouteTable.RegisterAll | app/internal/core/run.go:57-116 | for every accepted configuration no pattern is registered twice, the table holds exactly the built-in and the upstreams' patterns, and every usable upstream is served at its path and below it |
| RouteTable.PatternsArePlain | app/internal/file/config.go:224 | no registered pattern could be read as a method, a host or a wildcard |

## Left out

- Floating-point rounding and overflow of durations: tokens are exact reals and times unbounded integers.
- A bound on the size of the bucket map: eviction may hit the padding key or a key of the same request, which is then written back.
- `limiterIP` and the parsing and printing of addresses and networks: a client's key is an input, parse and render are arbitrary functions, and a network is an arbitrary set of addresses.
- UdpProtocol.Quiescence: shutdown is not claimed to close every session, because a create under way may insert after `closeAll`.
- UdpProtocol.StepKeepsInv: the sweep is cut finer than one critical section (delete, give back, close), so the theorems hold in the states in between as well; datagrams themselves are not modelled.
- UdpTable.SessionTable.Lookup: methods of the table run one after another; the interleavings are in `UdpProtocol`.
- LimiterAdmission.AdmissionLaw: for requests whose own keys were not evicted and met the condition on the key; `DecisionAfterSweep` and `DepartsFromLaw` cover all other readings.
- LimiterAdmission.DecisionAfterSweep: after earlier requests on the same keys that met the condition; `DepartsFromLaw` has no such premise.
- LimiterRuns.WindowBoundWithEvictions: needs readings in order.
- RedisBucket.RedisFollowsLaw: Redis loses no data before the expiry of a key, and its clock does not run backwards.
- PickProtocol.FairInEveryInterleaving: for tickets below 2^63; from there on `PanicsExactly` says which tickets select a target.
- LoadBalancer.FailureMarksAll: like `OnlyFailuresMark`, for a cooldown table that no concurrent request changes during the call.
- GateProtocol.GateBound: for a Redis clock that advances.
- LoadBalancer.Transport.RoundTrip: a context that ended during the first attempt does not stop the retry loop from starting, as in the code; cloning and headers of the retried request are not modelled.
- Resp.CommandsRoundTrip: for argument counts and sizes that fit 64 bits; the test server's reader panics on a negative count, which the model reads as failure; trimming of length headers is for ASCII white space.
- RedisPool.RepliesAreOwn: the server answers the commands of one connection in order, each with one reply.
- RouteTable.Validate: lower-casing covers ASCII and the Kelvin sign, the letters that can occur in a protocol name; texts are sequences of Unicode characters, with lengths in bytes of UTF-8; error texts are reduced to their kind.
- The handler of the fixed-window Redis limiter and the key it formats from the minute: only its pipelined increment matters, for the pool.
- A blank Redis address or a limit that is not positive, with which the gate is just the local limiter or nothing.
- `StreamPolicy` and `targetHealth` used through a nil pointer, which the proxy never does.
- Sockets, dialing, deadlines, TLS, the reverse proxy, pattern matching in the multiplexer and configuration loading: nondeterministic outcomes or not modelled.
- Copying of TCP streams and the accept backoff, JWT and client certificates, rate inheritance and body limits of routes, the optional profiling patterns, watcher, logger, metrics, readiness, command line and scripts.
