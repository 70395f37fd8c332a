# Edge proxy: a verified model

Edge Proxy is a reverse proxy that can be reconfigured while it serves requests.  This
project models its control plane and the parts of the data plane that keep state, and
proves what they promise over whole runs:

* **Rate limiter** (`RateLimiter.dfy`, `RateLimitRaces.dfy`): token buckets with lazy refill
  and idle eviction.  How many calls any window can grant, exactly when eviction is
  unobservable, and what a sweep in the middle of a call does to that.
* **Worker pool** (`WorkerPool.dfy`): the bounded, coalescing pool as an interleaved
  protocol of mutex sections, channel operations, context events and the wait group.
* **Health** (`HealthStatus.dfy`, `HealthHistory.dfy`, `HealthManager.dfy`, `HealthGate.dfy`):
  the threshold machine with wrapping counters and what it records, against specifications
  over the whole history, the recovery backoff, exactly when the scheduling gate opens, and
  one pass of the scheduling loop.
* **Configuration** (`Config.dfy`, `Validator.dfy`, `Defaults.dfy`, `Snapshot.dfy`,
  `ServiceModel.dfy`, `ServiceExact.dfy`, `ServiceEffects.dfy`, `Service.dfy`): what a valid
  configuration is, the validator that accepts exactly those, defaulting, the indexes, and
  every operation of the service with the exact condition under which it is accepted and
  its exact effect.
* **Publication** (`RuntimeModel.dfy`, `UrlAccounting.dfy`, `UpdateRuns.dfy`, `Runtime.dfy`):
  an update as a sequence of steps between which readers load states, health results arrive
  and status resets complete; which URLs are registered over whole runs.
* **Isolation** (`Memory.dfy`, `Edits.dfy`, `Removal.dfy`, `EditProofs.dfy`, `Isolation.dfy`):
  configurations and status maps in memory, with pointers and slices; the clone, and every
  operation as the writes it makes.  Nothing a reader can reach is ever written, and what
  happens without the clone or the new map.
* **Requests** (`Routing.dfy`, `Proxy.dfy`, `LeastConnections.dfy`): route choice, prefix
  stripping, candidates, the retry loop with its in-place filtering, and selection.
* **Connection accounting** (`Connections.dfy`, `Metrics.dfy`): the atomic counters with
  their compare-and-swap loop, interleaved across requests.

Code that updates state in place is a class or a method over an array, proved against a
specification on values; the theorems about runs are lemmas about that specification.  Where
the order of concurrent steps matters, a state machine interleaves them.  Clocks, random
draws, the outcome of a save, URL parsing, case folding, the balancer's choice and the
upstream's answer are inputs, so the theorems hold whatever they are.

Deviations between what the code does and what it says or one would expect, each with the
condition under which it shows:

* A chosen route without backends of its own inherits the list of a shorter match listed
  before it, not always the host's list, and of several routes for one path the first
  decides; so the targets can depend on the order of the routes
  (`Routing.TargetsOrderExactly`).
* The limiter's bound fails, and eviction can be noticed, exactly when a bucket needs more
  than ten minutes to refill (`RateLimit.WindowBoundIsExact`,
  `RateLimit.EvictionIsInvisibleExactly`).  That is for calls as one step: with a sweep
  between the two halves of a call the bound fails for every whole capacity but 0
  (`RateLimitRaces.RacingBoundIsExact`), and such calls add at most themselves to it
  (`RateLimitRaces.RacingBound`).
* A multiplier of 1, or one whose first growth is truncated away, waits the maximum after
  one failure past the threshold, unless that is the initial delay
  (`HealthManager.BackoffIsIdealExactly`).
* A URL that an update of a backend leaves behind stays registered until some state publishes
  it again and drops it with its id: the registered URLs are the published ones exactly if
  none is left behind (`UrlAccounting.RegisteredUrlsExactly`), and an update keeps them equal
  exactly if they were and the URL does not change (`RuntimeModel.ChangedUrlStaysRegistered`).
  Replacing a whole configuration loses a published URL's metrics exactly if a removed id
  hands its URL to another one; no runtime operation does that
  (`RuntimeModel.RegistrationKeptExactly`, `RuntimeModel.OperationsRemoveSafely`).
* A counter is right from the registration of its URL on exactly if no request was involved
  with the URL at that moment (`Connections.RegistrationIsAccurateExactly`): a request that
  spans a removal and re-addition is not counted in by the new counter, and may be counted
  out of it (`Connections.ReregistrationLosesCount`).
* Stripping the root route gives the path back exactly if it does not start with two slashes
  (`Routing.StripRoot`).
* `UpdateBackend` publishes the new URL before it resets the status, so it is published with
  what the results for the old one have made of it (`UpdateRuns.PublishesBeforeReset`), and a
  result obtained for the old URL may still be applied after the reset
  (`RuntimeModel.FreshExactlyUntilResult`).
* Whether `UpdateBackend` resets depends on two reads that other updates can come between: it
  does exactly if they show the backend enabled or moved (`UpdateRuns.ResetsExactlyByReads`).
  Undisturbed, that is exactly if the update enables or moves it
  (`UpdateRuns.ResetsExactlyWhenMoved`); two calls that move it away and back can both miss it
  (`UpdateRuns.BackAndForthNeverResets`).
* `Submit` may accept a job after the parent context is cancelled, because its select is
  free to choose; the model keeps that choice, and conservation holds regardless.

## Model

| member | source | states |
|---|---|---|
| `RateLimit.WindowBound` | internal/ratelimit/ratelimit.go:49-112 | every run of Allow calls and sweeps grants a key at most capacity + rate·(to − from) calls in any window (from, to], if a bucket refills within the idle time |
| `RateLimit.WindowBoundIsExact` | internal/ratelimit/ratelimit.go:49-112 | that bound holds for all runs, keys and windows if and only if capacity ≤ 600·rate (whole capacities) |
| `RateLimit.SlowRefillBreaksBound` | internal/ratelimit/ratelimit.go:49-71 | otherwise a drained bucket that is evicted and recreated full gives its owner a second burst: a concrete run that exceeds the bound |
| `RateLimit.DoubleBurstIsGranted` | internal/ratelimit/ratelimit.go:49-112 | draining, waiting past the idle time, being evicted and draining again is granted 2·capacity calls in full |
| `RateLimit.EvictionIsInvisible` | internal/ratelimit/ratelimit.go:49-112 | under the same condition every call of every run gets the answer of a limiter that never evicts |
| `RateLimit.EvictionIsInvisibleExactly` | internal/ratelimit/ratelimit.go:49-112 | no caller can ever tell the limiter from one that never evicts if and only if capacity ≤ 600·rate (whole capacities) |
| `RateLimit.SlowRefillIsNoticed` | internal/ratelimit/ratelimit.go:49-112 | otherwise a run whose answers differ: without eviction the second burst is not granted in full |
| `RateLimit.GrantedWithinLevel` | internal/ratelimit/ratelimit.go:91-112 | from any reachable limiter the grants of a key within a window are paid for by its current level plus the refill |
| `RateLimit.StepSpendsLevel` | internal/ratelimit/ratelimit.go:91-112 | a step spends one token of the key it grants and adds to no key's level |
| `RateLimit.AllowSpendsLevel` | internal/ratelimit/ratelimit.go:91-112 | Allow grants exactly when the level is at least 1, spends exactly one token then, and does not affect other keys |
| `RateLimit.SweepKeepsLevel` | internal/ratelimit/ratelimit.go:54-67 | a sweep changes no level when a bucket refills within the idle time |
| `RateLimit.LevelLater` | internal/ratelimit/ratelimit.go:97-104 | lazy refill composes: the level at a later time is the level now plus rate·elapsed, capped at the capacity |
| `RateLimit.DrainedKeyIsServedExactly` | internal/ratelimit/ratelimit.go:91-112 | a key that has used up its capacity at t0: of any number of calls at t exactly those are granted that the (t − t0)·rate tokens come in since, capped at the capacity, pay for |
| `RateLimit.SweepKeeps` | internal/ratelimit/ratelimit.go:54-67 | a tick keeps exactly the buckets used within the last ten minutes |
| `RateLimit.RateLimiter.constructor` | internal/ratelimit/ratelimit.go:27-41 | a new limiter has no buckets |
| `RateLimit.RateLimiter.GetBucket` | internal/ratelimit/ratelimit.go:73-89 | the stored bucket of the key, or a fresh full one that is then stored; no other bucket moves |
| `RateLimit.RateLimiter.Allow` | internal/ratelimit/ratelimit.go:91-112 | refines the atomic step the run theorems are about, on the whole table of buckets |
| `RateLimit.TokenBucket.Take` | internal/ratelimit/ratelimit.go:97-111 | refill capped at capacity, then spend if at least one token is there; the clock moves on either way |
| `RateLimit.RateLimiter.EvictIfIdle` | internal/ratelimit/ratelimit.go:58-63 | deletes the entry exactly if idle for more than ten minutes |
| `RateLimit.RateLimiter.Cleanup` | internal/ratelimit/ratelimit.go:54-67 | visiting the keys one by one, in any order, removes exactly the idle buckets |
| `RateLimitRaces.RacingBound` | internal/ratelimit/ratelimit.go:49-112 | with takes between the visits of a sweep and sweeps between getBucket and the bucket's lock, a window grants a key at most capacity + rate·(to − from) calls and one per call that took from a bucket evicted since it was looked up |
| `RateLimitRaces.TakeInTable` | internal/ratelimit/ratelimit.go:91-112 | a call is the atomic step on the table unless its bucket has been evicted; then the table does not notice it |
| `RateLimitRaces.StepKeepsInv` | internal/ratelimit/ratelimit.go:73-112 | lookups, takes and sweeps keep the table and the held buckets consistent |
| `RateLimitRaces.LateCallBreaksBound` | internal/ratelimit/ratelimit.go:91-93 | at an input, in a run from the first call on: a call that took late is the second one granted within a quarter of a second |
| `RateLimitRaces.RacingBoundIsExact` | internal/ratelimit/ratelimit.go:49-112 | for every rate and whole capacity: the bound of the atomic limiter holds for every run with sweeps in the middle of calls if and only if the capacity is 0 |
| `RateLimitRaces.RaceIsGranted` | internal/ratelimit/ratelimit.go:49-112 | for every rate and every whole capacity of at least one: a run that is granted one call more than the capacity at one instant |
| `RateLimitRaces.NothingGranted` | internal/ratelimit/ratelimit.go:91-112 | without a token of capacity no run is granted anything |
| `WorkerPool.PoolConservation` | internal/health/worker.go:82-130 | in every interleaving: bounded queue and workers, jobs start in acceptance order, pending is exactly queued or held or being submitted, one job per id at most, accepted = queued + held + completed |
| `WorkerPool.StopIsFinal` | internal/health/worker.go:55-124 | once Stop has returned, whatever else runs: no job is running or ever starts, no Submit is ever accepted, and every started job was completed |
| `WorkerPool.StopTerminates` | internal/health/worker.go:70-124 | after cancellation only a bounded number of worker steps remains under any schedule, and until Stop returns one of them is always possible, provided probes return |
| `WorkerPool.StopIsNeverStuck` | internal/health/worker.go:70-124 | while Stop waits, a worker can move or Stop can return |
| `WorkerPool.StopGetsThrough` | internal/health/worker.go:70-76 | before the cancellation Stop can go on, or the holder of the mutex can, and is done in a bounded number of steps |
| `WorkerPool.HoldingOnlyShrinks` | internal/health/worker.go:55-107 | nobody else prolongs the time the mutex is held |
| `WorkerPool.StepAfterCancel` | internal/health/worker.go:109-124 | after cancellation each worker step uses up a measure that no other step increases |
| `WorkerPool.StepAfterMark` | internal/health/worker.go:82-107 | a marked pool accepts nothing and spawns nothing; after Stop returned its workers do not change |
| `WorkerPool.NothingAfterStop` | internal/health/worker.go:55-124 | the same over every continuation of a run |
| `WorkerPool.StepKeepsInv` | internal/health/worker.go:55-130 | every step of every caller and worker keeps conservation and the order of Start and Stop |
| `WorkerPool.RunKeepsInv` | internal/health/worker.go:55-130 | so does every interleaving |
| `WorkerPool.BoundedWorkerPool.constructor` | internal/health/worker.go:38-53 | a new pool is the initial state of the protocol |
| `WorkerPool.BoundedWorkerPool.Start` | internal/health/worker.go:55-68 | spawns count workers on the first call unless stopped, otherwise nothing; a run of the protocol |
| `WorkerPool.BoundedWorkerPool.BeginStop` | internal/health/worker.go:70-76 | refuses new work, then cancels, as three steps of the protocol; the wait is StopTerminates |
| `WorkerPool.BoundedWorkerPool.Submit` | internal/health/worker.go:82-107 | accepts exactly if the id is not empty, not pending, the pool not stopped, select did not take the cancelled context, and the queue has room or a worker waits on the empty channel; a refusal leaves no trace |
| `WorkerPool.BoundedWorkerPool.Complete` | internal/health/worker.go:126-130 | the worker's id is pending no longer, which keeps the invariant |
| `HealthStatus.HealthIsKind` | internal/proxy/runtime/runtime.go:98-167 | for every history since creation or reset, the health state is the kind of the most recent run that reached its threshold, else what it was; counter wrap-around never shows |
| `HealthStatus.KindIsUnique` | internal/proxy/runtime/runtime.go:98-167 | that specification determines the state |
| `HealthStatus.NeverFreshAgain` | internal/proxy/runtime/runtime.go:116-155 | a status to which a result has been applied is never again what it was when created |
| `HealthStatus.CountersAreRuns` | internal/proxy/runtime/runtime.go:133-149 | each counter is the length of the current run modulo 2^32, and the other one is zero |
| `HealthStatus.HysteresisBudget` | internal/proxy/runtime/runtime.go:116-155 | from any reachable status, flips to healthy and unhealthy, each weighted with its threshold, are paid for by results plus the progress already made |
| `HealthStatus.HysteresisSinceReset` | internal/proxy/runtime/runtime.go:116-155 | since a reset: Healthy·(flips to healthy) + Unhealthy·(flips to unhealthy) ≤ number of results |
| `HealthStatus.PassiveKeepsCheckTime` | internal/proxy/runtime/runtime.go:107-131 | passive results, however many, never move the time of the last active check |
| `HealthHistory.LastCheckIsLastActive` | internal/proxy/runtime/runtime.go:127-129 | after any history the time of the last check is that of the last active result |
| `HealthHistory.LastErrorIsLastReported` | internal/proxy/runtime/runtime.go:133-149 | after any history the error is the last one reported, or none if a healthy result has come since |
| `HealthHistory.SilentKeepsError` | internal/proxy/runtime/runtime.go:133-149 | failures that report no error leave it alone |
| `HealthHistory.LastChangeIsLastFlip` | internal/proxy/runtime/runtime.go:150-154 | after any history the time of the last change is that of the last result that decided otherwise than those before it |
| `HealthHistory.NoFlipKeepsChange` | internal/proxy/runtime/runtime.go:150-154 | without such a result it is what it was |
| `HealthHistory.HealthIsDecided` | internal/proxy/runtime/runtime.go:116-155 | the health state is the kind of the last run to have reached its threshold |
| `HealthStatus.BackendStatus.constructor` | internal/proxy/runtime/backend_registry.go:46-51 | a new status is unknown with empty counters |
| `HealthStatus.BackendStatus.ApplyResult` | internal/proxy/runtime/runtime.go:116-155 | refines the result step; changed is reported exactly on a flip; the check time moves exactly for an active result and the change time exactly on a flip, both to the time of the result |
| `HealthStatus.BackendStatus.Reset` | internal/proxy/runtime/runtime.go:157-167 | the status is as if just created |
| `HealthStatus.BackendStatus.MarkHealthy` | internal/proxy/runtime/runtime.go:169-177 | healthy, with both counters restarted |
| `HealthManager.RecoveryBackoff` | internal/health/manager.go:310-334 | the loop computes the delay function the backoff theorems are about |
| `HealthManager.BackoffIsIdealExactly` | internal/health/manager.go:323-333 | the delay equals min(max, k-fold growth) for all k if and only if the first growth survives truncation or initial = max; multiplier 1 therefore jumps to the maximum |
| `HealthManager.DelayIsIdeal` | internal/health/manager.go:323-333 | while growth survives truncation, the early exits change nothing |
| `HealthManager.IterateGrows` | internal/health/manager.go:323-333 | then every further growth step is strictly larger, so the maximum is reached |
| `HealthManager.BackoffIsGeometric` | internal/health/manager.go:310-334 | for whole multipliers m ≥ 2: exactly min(max, initial·m^k), k failures past the threshold |
| `HealthManager.BackoffBoundsAndMonotone` | internal/health/manager.go:310-334 | with validated settings, between initial and max, and never less after one more failure |
| `HealthManager.BackoffAlongRun` | internal/health/manager.go:310-334 | over true run lengths the delay shrinks at most when the 32-bit counter wraps to zero |
| `HealthManager.NextDelayBounds` | internal/health/scheduler.go:39-47 | every pass delay is strictly positive and within the jitter of the interval, for every draw |
| `HealthManager.PassAfterDeadline` | internal/health/manager.go:117-148 | some pass falls within interval + jitter after any deadline |
| `HealthManager.NoStarvation` | internal/health/manager.go:296-334 | whatever passive results arrive, a pass no later than MaxMs + interval + jitter after the last active check finds the gate open |
| `HealthManager.GateIsClosed` | internal/health/manager.go:296-308 | until the initial delay after its last check is over, an unhealthy backend is not due |
| `HealthGate.GateOpensExactly` | internal/health/manager.go:296-334 | for whole multipliers m ≥ 2 the gate of an unhealthy backend opens exactly min(max, initial·m^k) after its last check, k failures past the unhealthy threshold |
| `HealthGate.DueExactly` | internal/health/manager.go:296-334 | told by the results alone: when exactly an enabled backend left unhealthy by its last run of failures is due |
| `HealthGate.ProbesAreSpaced` | internal/health/manager.go:123-142 | over a run, consecutive probes of a backend that is unhealthy at the second one are at least the initial delay apart, whatever passes and passive results come in between |
| `HealthManager.SchedulingPass` | internal/health/manager.go:123-142 | whatever select chooses, what was pending or queued stays and nothing that is not due was submitted, in particular no unhealthy backend within its initial delay; every due backend is then pending unless the queue is full or the pool is shutting down |
| `Validator.Validate` | internal/config/validator.go:28-193 | accepts exactly the configurations that meet the declarative validity predicate, and reports only real violations |
| `Validator.FirstViolation` | internal/config/validator.go:28-193 | the sequence of checks: acceptance implies validity, refusal names a violated requirement |
| `Validator.ViolationRefutes` | internal/config/validator.go:28-193 | no valid configuration exhibits any reportable violation |
| `Validator.Edges` | internal/config/validator.go:195-305 | on which side of each bound of the health settings the edge lies |
| `Validator.MoreEdges` | internal/config/validator.go:28-148 | the same for backends, timeouts, policies, logging and transport |
| `Validator.ValidateBackends` | internal/config/validator.go:44-91 | the backend loop accepts only valid entries with distinct ids and URLs and some enabled one, and collects exactly their ids |
| `Validator.CheckBackend` | internal/config/validator.go:48-82 | one entry against its predecessors |
| `Validator.ValidatePolicies` | internal/config/validator.go:128-148 | policies have distinct non-empty ids and valid limits; collects exactly their ids |
| `Validator.ValidateVirtualHosts` | internal/config/validator.go:150-190 | distinct non-empty domains, known policies and backends, some target for every route |
| `Validator.ValidateRoutes` | internal/config/validator.go:173-189 | every route has a rooted path, some target and only known backends |
| `Validator.HealthCheckError` | internal/config/validator.go:195-305 | refuses exactly the health settings that are enabled and break a bound |
| `Defaults.DefaultedIsComplete` | internal/config/defaults.go:5-139 | after defaulting no field that has a default is zero and the default policy exists |
| `Defaults.CompleteIsFixed` | internal/config/defaults.go:5-139 | exactly the complete configurations are left alone |
| `Defaults.DefaultingIsIdempotent` | internal/config/defaults.go:5-139 | defaulting twice is defaulting once |
| `Defaults.EmptyHealthDefaultsToValid` | internal/config/defaults.go:66-139 | health settings left empty get values that validation accepts |
| `Defaults.DefaultValues` | internal/config/defaults.go:5-139 | the values that empty fields get |
| `Defaults.DefaultedLists` | internal/config/defaults.go:20-28 | a missing default policy is put in front, the other policies and the hosts keep their order, and hosts without a policy get the default one |
| `Defaults.ApplyDefaults` | internal/config/defaults.go:5-49 | the pass yields a complete configuration and leaves a complete one alone |
| `Defaults.EnsureDefaultSecurityPolicy` | internal/config/defaults.go:51-64 | prepends the default policy exactly when none has its id |
| `Defaults.ApplyHealthChecksDefaults` | internal/config/defaults.go:66-139 | no field with a default is left zero, every field that was set and every field without a default is kept, and complete settings are left alone |
| `Snapshots.BuildSnapshot` | internal/config/snapshot.go:10-40 | the three loops build the indexes of the configuration |
| `Snapshots.BackendIndexIsExact` | internal/config/snapshot.go:22-27 | with distinct ids the index holds exactly the backends, each under its id |
| `Snapshots.PolicyIndexIsExact` | internal/config/snapshot.go:29-32 | the same for policies |
| `Snapshots.HostIndexIsExact` | internal/config/snapshot.go:34-37 | the same for virtual hosts and domains |
| `ServiceModel.RestartEquivalence` | internal/config/service.go:265-294 | at every point of every run, including failed saves, loading the file succeeds and yields the configuration in memory, which is valid |
| `ServiceModel.StepKeepsSound` | internal/config/service.go:265-294 | every operation keeps that; a failed one leaves configuration and file unchanged |
| `ServiceModel.StartIsSound` | internal/config/service.go:16-34 | a service that starts, starts that way, even from a file that lacks defaults |
| `ServiceModel.WithoutMember` | internal/config/service.go:296-304 | removing a string removes it and nothing else |
| `ServiceExact.AcceptsExactly` | internal/config/service.go:72-263 | absent I/O failure every operation succeeds if and only if a condition on its arguments and the current configuration holds |
| `ServiceEffects.StepAcceptsExactly` | internal/config/service.go:265-294 | an operation is accepted if and only if that condition holds and the file can be written, and a failed save is reported if and only if only the file could not be written |
| `ServiceEffects.AcceptedHasEffect` | internal/config/service.go:72-294 | every accepted operation has exactly its effect, field by field and place by place, on the configuration and the file alike, and leaves everything else as it was |
| `ServiceEffects.AddEffect` | internal/config/service.go:82-96 | the new backend is found under its id with every field as given, after the others, which keep their places |
| `ServiceEffects.LookupExactly` | internal/config/service.go:59-70 | in a valid configuration a backend is found under an id exactly if it is configured with that id |
| `ServiceExact.RemoveBackendExact` | internal/config/service.go:119-143 | removal succeeds if and only if the id exists, another enabled backend remains, and every host keeps a backend of its own or routes that all keep one |
| `ServiceExact.RemovalLeaves` | internal/config/service.go:119-143 | the other backends remain in order, hosts and routes keep every field, their lists lose just that id, everything else is unchanged |
| `ServiceExact.WithoutKeepsOrder` | internal/config/service.go:296-304 | removing an id works element by element, so the others keep their order |
| `ServiceExact.WithoutKeepsCounts` | internal/config/service.go:296-304 | and their number |
| `ServiceExact.RemovalNeverDangles` | internal/config/service.go:119-143 | whatever refuses a removal is a missing target or enabled backend, never a dangling reference or duplicate |
| `ServiceExact.AddBackendExact` | internal/config/service.go:72-97 | succeeds if and only if the backend is valid and its id and URL are new |
| `ServiceExact.UpdateBackendExact` | internal/config/service.go:99-117 | succeeds if and only if the id exists, the new values are valid, the URL is free and an enabled backend remains |
| `ServiceExact.HostOpExact` | internal/config/service.go:145-234 | the same for adding, updating and removing virtual hosts and for assigning policies |
| `ServiceExact.UpsertPolicyExact` | internal/config/service.go:236-252 | a policy is accepted if and only if it is valid, new or not |
| `ServiceExact.HostWithout` | internal/config/validator.go:150-190 | a host stays valid without a backend if and only if it keeps a list of its own or routes that all do |
| `Services.RemoveString` | internal/config/service.go:296-304 | compacts the slice in place to the elements that differ from the target, in order; the tail is as before |
| `Services.Service.NewService` | internal/config/service.go:16-34 | starts exactly if the file is valid after defaulting, with exactly the loaded configuration |
| `Services.Service.ApplyLocked` | internal/config/service.go:281-294 | validates, saves, indexes and installs, or changes nothing and reports the error |
| `Services.Service.GetBackend` | internal/config/service.go:59-70 | the first backend with the id, or none |
| `Services.Service.AddBackend` | internal/config/service.go:72-97 | refines the step of the value model and keeps the service valid |
| `Services.Service.UpdateBackend` | internal/config/service.go:99-117 | the same |
| `Services.Service.RemoveBackend` | internal/config/service.go:119-143 | the same, with the cascading loops over hosts and routes |
| `Services.Service.AddVirtualHost` | internal/config/service.go:145-164 | the same |
| `Services.Service.UpdateVirtualHost` | internal/config/service.go:166-187 | the same; an omitted policy keeps the one in force |
| `Services.Service.RemoveVirtualHost` | internal/config/service.go:189-203 | the same |
| `Services.Service.UpdateServer` | internal/config/service.go:205-215 | the same |
| `Services.Service.SetVirtualHostSecurityPolicy` | internal/config/service.go:217-234 | the same |
| `Services.Service.UpsertPolicy` | internal/config/service.go:236-252 | the same |
| `Services.Service.UpdateLoadBalancer` | internal/config/service.go:254-263 | the same |
| `Services.Service.Replace` | internal/config/service.go:48-57 | the same for a whole new configuration; a nil one is refused |
| `Connections.CounterIsAccurate` | internal/proxy/handler/proxy.go:318-319 | while a URL stays registered its counter equals the requests between increment and decrement, in every interleaving of atomic adds and compare-and-swap retries |
| `Connections.GuardNeverTaken` | internal/metrics/metrics.go:246-259 | the zero guard never loses a decrement |
| `Connections.StepKeepsAccurate` | internal/metrics/metrics.go:240-259 | every atomic operation other than deregistering the URL keeps the count |
| `Connections.RegistrationIsAccurate` | internal/metrics/backend.go:68-70 | registering a URL no request is working on starts an accurate counter |
| `Connections.RegistrationIsAccurateExactly` | internal/metrics/backend.go:68-81 | from registration to deregistration the counter is right in every interleaving if and only if no request was involved with the URL when it was registered |
| `Connections.LateRequest` | internal/metrics/backend.go:76-81 | an involved request ends up open without ever being counted by the new object |
| `Connections.RunKeepsInRange` | internal/metrics/backend.go:68-81 | every interleaving keeps the objects of the registry and of requests in existence |
| `Connections.RetryMeansProgress` | internal/metrics/metrics.go:246-259 | lock freedom: a failed compare-and-swap means that another update of the counter completed |
| `Connections.ReregistrationLosesCount` | internal/metrics/backend.go:68-81 | at an input, over a whole run: a request that spans a removal and re-addition leaves the count at 0 with a request open |
| `Metrics.BackendMetricsManager.Register` | internal/metrics/backend.go:68-70 | keeps an existing counter, starts a new one at zero |
| `Metrics.BackendMetricsManager.Deregister` | internal/metrics/backend.go:72-74 | forgets just that URL |
| `Metrics.BackendMetricsManager.Get` | internal/metrics/backend.go:76-81 | the metrics of a registered URL, else nothing |
| `Metrics.BackendMetricsManager.IncrementActiveConnections` | internal/metrics/metrics.go:240-244 | one more for that URL and no other, if registered |
| `Metrics.BackendMetricsManager.DecrementActiveConnections` | internal/metrics/metrics.go:246-259 | one less for that URL and no other, never below zero |
| `LeastConnections.Next` | internal/lb/leastconnections.go:17-44 | while the counters move: the first enabled candidate with the smallest reading among those that had metrics when read; an error exactly if there is none |
| `LeastConnections.LeastAtRest` | internal/lb/leastconnections.go:17-44 | where the counters do not move, the choice has the fewest connections |
| `LeastConnections.LeastIsUnique` | internal/lb/leastconnections.go:17-44 | that determines the choice |
| `Routing.RouteRequest` | internal/proxy/handler/proxy.go:37-59 | the host scan and the route loop compute the route and target functions the routing theorems are about |
| `Routing.BestIsLongest` | internal/proxy/handler/proxy.go:47-56 | the chosen route is a longest match, the first of its length; none exactly if nothing matches |
| `Routing.RouteIsOrderIndependent` | internal/proxy/handler/proxy.go:47-56 | with distinct paths the choice does not depend on the order of the routes |
| `Routing.RouteOrderExactly` | internal/proxy/handler/proxy.go:47-56 | the chosen route is the same for every listing if and only if there are not two different longest matches |
| `Routing.TargetsOfChosen` | internal/proxy/handler/proxy.go:47-56 | if the chosen route has backends, they are the targets |
| `Routing.TargetsOrderExactly` | internal/proxy/handler/proxy.go:47-56 | for any routes, also with a path listed twice: the targets are the same for every listing if and only if nothing matches, all longest matches share one non-empty list, or every match with backends repeats the host's list |
| `Routing.DifferentListings` | internal/proxy/handler/proxy.go:47-56 | otherwise, two listings with different targets |
| `Routing.SamePathTwice` | internal/proxy/handler/proxy.go:47-56 | at an input: of two routes for one path the first listed decides |
| `Routing.EqualLengthMatchesAreEqual` | internal/proxy/handler/proxy.go:219-226 | matching routes of the same length are the same path |
| `Routing.MatchEndsAtSegment` | internal/proxy/handler/proxy.go:219-226 | a route matches exactly at a segment boundary |
| `Routing.RootMatchesRooted` | internal/proxy/handler/proxy.go:219-222 | the root route matches every rooted path and no other |
| `Routing.HostNameIsBeforeColon` | internal/proxy/handler/proxy.go:32-35 | the host is looked up by what comes before its first colon |
| `Routing.StripRejoins` | internal/proxy/handler/proxy.go:208-217 | stripping a matched non-root route leaves a rooted path that rejoins to the original, or "/" on an exact match |
| `Routing.StripRoot` | internal/proxy/handler/proxy.go:208-217 | stripping the root gives the path back if and only if it does not start with two slashes |
| `Routing.HostScanIsIndex` | internal/config/snapshot.go:34-37 | in a valid configuration the host scan and the domain index agree |
| `Routing.TargetsAreKnown` | internal/config/validator.go:150-190 | in a valid configuration targets are known backends, and a matched route always has some |
| `Proxy.FilterOutBackend` | internal/proxy/handler/proxy.go:402-410 | compacts the slice in place to the candidates with another id, in order; the tail is as before |
| `Proxy.ExecuteProxyRequest` | internal/proxy/handler/proxy.go:246-301 | the loop makes exactly the attempts of the two-attempt form, on a copy of the caller's list; terminates with duplicates too |
| `Proxy.AttemptsAreFew` | internal/proxy/handler/proxy.go:246-301 | at most two attempts, one if not retryable, on different ids from the list; giving up after one means nothing else was left; served exactly if an attempt succeeded |
| `Proxy.AttemptsExactly` | internal/proxy/handler/proxy.go:246-301 | after a failed first attempt of a request that may be repeated, the balancer is offered exactly the other backends in order, and its choice is contacted; selection fails exactly if the balancer, offered some, chooses none, and its answer is reported |
| `Proxy.RetriesWheneverPossible` | internal/proxy/handler/proxy.go:246-301 | with a balancer that chooses from any list, a second backend is contacted whenever the first fails and one with another id is left, and the request is served exactly if that one answers |
| `Proxy.RetryableExactly` | internal/proxy/handler/proxy.go:393-400 | the four safe methods may be repeated, any other exactly if its body can be sent again |
| `Proxy.BuildCandidates` | internal/proxy/handler/proxy.go:104-113 | the loop collects the configured, enabled, active targets in order |
| `Proxy.CandidatesMember` | internal/proxy/handler/proxy.go:104-113 | exactly those backends are candidates |
| `Proxy.CandidatesInOrder` | internal/proxy/handler/proxy.go:104-113 | in the order of the targets and with repetitions |
| `Proxy.UpstreamPathExactly` | internal/proxy/handler/proxy.go:208-217 | the path sent upstream is the request's own unless the chosen route strips its prefix, then the rest of it, rooted |
| `Proxy.TargetsForExactly` | internal/proxy/handler/proxy.go:37-59 | a known host's requests go to the backends of the chosen route if it has any, or to the host's if no route matches; an unknown host's to none |
| `Proxy.CandidateIsConfigured` | internal/proxy/handler/proxy.go:104-113 | in a valid configuration every candidate is one of its backends and a target |
| `Proxy.ProxyHandler` | internal/proxy/handler/proxy.go:23-206 | each response if and only if its condition holds, including failed selection and bad gateway; whom it contacts, in order; refusals before selection contact nobody; whatever is contacted is an enabled, active target of the route; the upstream path is the one of the chosen route |
| `RuntimeModel.PublishedUrlsAreRegistered` | internal/proxy/runtime/runtime.go:353-410 | at every step of every interleaving all backend URLs of the published state have metrics |
| `RuntimeModel.LeastConnectionsAlwaysChooses` | internal/proxy/runtime/runtime.go:353-410 | so enabled candidates that belong to the published state when their counters are read, each at its own step, are eligible |
| `RuntimeModel.OperationsRemoveSafely` | internal/config/validator.go:75-78 | no runtime operation lets a removed backend leave its URL to another one |
| `RuntimeModel.RegistrationKeptExactly` | internal/proxy/runtime/runtime.go:392-410 | for arbitrary configurations, publication keeps the URLs registered if and only if no removed id hands its URL on |
| `RuntimeModel.RegistrationEqualsExactly` | internal/proxy/runtime/runtime.go:380-410 | whatever was registered before: registered and published URLs are equal after a publication if and only if, in addition, every other registered URL went with a removed id |
| `RuntimeModel.ReplaceCanLoseMetrics` | internal/config/service.go:48-57 | replacing the owner of a URL breaks it |
| `RuntimeModel.ChangedUrlStaysRegistered` | internal/proxy/runtime/runtime.go:402-409 | after an accepted update of a backend everything registered still is; its old URL is published if and only if the URL did not change; registered equals published if and only if it did before and the URL did not change |
| `UrlAccounting.RegisteredUrlsExactly` | internal/proxy/runtime/runtime.go:353-410 | in every reachable state in which no update is publishing: the registered URLs are the published ones and those an update left behind and no state has published since; so the two are equal if and only if there is none of the latter |
| `UrlAccounting.ExpectedNext` | internal/proxy/runtime/runtime.go:380-410 | a publication registers and deregisters exactly what keeps that so |
| `UrlAccounting.StepKeepsAccounted` | internal/proxy/runtime/runtime.go:353-410 | every step, also in the middle of a publication, keeps the registered URLs accounted for |
| `RuntimeModel.ChangedUrlAtInput` | internal/proxy/runtime/runtime.go:402-409 | at an input: the old URL is registered and not published, also after a second update that leaves the URL alone |
| `RuntimeModel.LoadedStatesAreConsistent` | internal/proxy/runtime/runtime.go:353-378 | any state a request ever loaded is a valid configuration with one status per backend id, made for that id |
| `RuntimeModel.FreshExactlyUntilResult` | internal/proxy/runtime/runtime.go:465-477 | under interleaving, with checking enabled: a call that goes on to the reset leaves the status it finds fresh; afterwards it is what the results applied since make of a fresh one, for whatever state they were obtained, and fresh exactly if there was none |
| `UpdateRuns.ResetsExactlyByReads` | internal/proxy/runtime/runtime.go:447-472 | in every interleaving a call goes on to the reset if and only if the backend it read after its update is enabled and, compared with the one it read on entry, was enabled or moved; otherwise it returns and changes no status |
| `UpdateRuns.ResetsExactlyWhenMoved` | internal/proxy/runtime/runtime.go:447-472 | if no other operation on the backend is accepted between the two reads, that is if and only if the update enables a disabled backend or moves an enabled one, whatever else happens in between |
| `UpdateRuns.BackAndForthNeverResets` | internal/proxy/runtime/runtime.go:447-472 | two calls that both read the backend before either is applied, one moving it away and one back: neither resets, and a result for the other URL stands under this one; from every reachable state in which both are accepted |
| `UpdateRuns.UntouchedLookup` | internal/config/service.go:72-143 | an operation on another backend, or on none, leaves what is found under the id alone |
| `UpdateRuns.PublishesBeforeReset` | internal/proxy/runtime/runtime.go:447-472 | from every reachable idle state, with checking enabled, an accepted update runs to a state that has published it with the old status, and on to one, with the old status still, in which the reset is due if the update enables or moves the backend, and the call has returned if not |
| `UpdateRuns.OldResultUnderNewUrl` | internal/proxy/runtime/runtime.go:450-472 | at a first result: it was obtained for the old URL, and the new one is published with it |
| `RuntimeModel.StatusOverRun` | internal/proxy/runtime/runtime.go:116-155 | over any run without such a completion a status is what the applied results make of it |
| `Isolation.PublishedNeverChanges` | internal/proxy/runtime/runtime.go:353-378 | in every run, with a step for every write of every operation, the configuration and the status map of a published state read the same ever after |
| `Isolation.StepKeepsInv` | internal/config/service.go:265-294 | no write touches memory that the service, the registry or a reader of any published state can reach |
| `Isolation.RunKeepsInv` | internal/config/service.go:265-294 | nor does any run of them |
| `Isolation.SaveIsStep` | internal/config/service.go:265-294 | the edited clone, once saved, is what the operation means: the step of the value model |
| `Isolation.InstallIsReconciled` | internal/proxy/runtime/backend_registry.go:32-56 | the map filled entry by entry is the reconciled one |
| `Isolation.WithoutCloneExactly` | internal/config/service.go:269-278 | without the clone the published configuration changes before it is validated, if and only if the operation changes anything; for any configuration no two parts of which are the same, as those are that were just loaded or cloned |
| `Isolation.WithoutCloneAtInput` | internal/config/service.go:254-278 | at an input: the strategy turns under the readers of the published state |
| `Isolation.SharedMapExactly` | internal/proxy/runtime/backend_registry.go:40-55 | without a new map the published status map changes before the swap, if and only if a backend is new |
| `Isolation.StartIsInv` | internal/proxy/runtime/runtime.go:179-205 | a started runtime has published what it loaded, in memory of its own |
| `Memory.AllocIsSeparate` | internal/config/clone.go:5-21 | a clone looks like the original, shares nothing with older memory, and no two parts of it are the same |
| `Memory.ViewStable` | internal/config/clone.go:5-21 | memory that is only added to leaves every reader's view alone |
| `EditProofs.EditIsMutation` | internal/config/service.go:72-263 | on memory of its own, the writes of an operation amount to what the operation means and touch nothing older |
| `EditProofs.DefaultEdit` | internal/config/defaults.go:5-64 | so do the writes of the defaulting pass |
| `EditProofs.RemoveBackendEdit` | internal/config/service.go:119-143 | removing a backend in place: shifting the slice and compacting the list of every host and route |
| `EditProofs.RemoveHostKeepsOwn` | internal/config/service.go:189-203 | removing a host in place leaves a configuration no two parts of which are the same |
| `Removal.CompactHosts` | internal/config/service.go:129-135 | the cascade over hosts and routes compacts exactly their lists, one after the other |
| `RuntimeModel.StatusIdentity` | internal/proxy/runtime/backend_registry.go:32-56 | an id has the same status object in two published states if and only if every state between configures it |
| `RuntimeModel.DisabledCheckingKeepsAllActive` | internal/proxy/runtime/runtime.go:300-309 | with checking disabled every enabled backend of every published state is active, at every step |
| `RuntimeModel.MutationKeepsHealthConfig` | internal/config/service.go:72-263 | no runtime operation changes the health configuration |
| `RuntimeModel.ReconciledFacts` | internal/proxy/runtime/backend_registry.go:32-56 | the reconciled map has exactly the configured ids, keeps known objects and creates one for every other id |
| `RuntimeModel.StepKeepsStructured` | internal/proxy/runtime/runtime.go:353-378 | every step keeps published states valid and their statuses in place |
| `RuntimeModel.StepKeepsRegistered` | internal/proxy/runtime/runtime.go:353-410 | every step keeps the registration invariant, phase by phase |
| `RuntimeModel.StepKeepsLinked` | internal/proxy/runtime/backend_registry.go:32-56 | every step keeps the history of status objects linked |
| `RuntimeModel.StepKeepsAvailable` | internal/proxy/runtime/runtime.go:300-309 | every step keeps enabled backends active while checking is disabled |
| `RuntimeModel.StartIsInv` | internal/proxy/runtime/runtime.go:179-205 | a started runtime satisfies all four |
| `RuntimeModel.RunKeepsInv` | internal/proxy/runtime/runtime.go:353-480 | so does every interleaving |
| `Runtimes.Runtime.NewRuntime` | internal/proxy/runtime/runtime.go:179-205 | starts exactly if the file loads, with exactly its URLs registered and a fresh status for every id, healthy for enabled backends if checking is disabled |
| `Runtimes.Runtime.ApplyUpdate` | internal/proxy/runtime/runtime.go:353-378 | a failed update changes nothing observable; a successful one publishes the service's configuration, keeps the status objects of known ids and gives new ids fresh ones, changes no status but to mark enabled backends healthy when checking is disabled, registers and deregisters exactly the right URLs, keeps the counters of URLs that stay, and keeps the client and the balancer exactly if their settings are |
| `Runtimes.BuildRuntimeState` | internal/proxy/runtime/runtime.go:274-317 | the state to publish has a client and a balancer that fit its configuration, the previous ones if their settings are the same and new ones otherwise |
| `Runtimes.Runtime.PublishCurrent` | internal/proxy/runtime/runtime.go:361-377 | the part after the mutation, for any service state that hands no URL of a removed id on |
| `Runtimes.Runtime.RegisterUrl` | internal/proxy/runtime/runtime.go:380-390 | registering keeps what readers rely on |
| `Runtimes.Runtime.SwapState` | internal/proxy/runtime/runtime.go:371-372 | a state may be published only once its URLs are registered |
| `Runtimes.Runtime.DeregisterUrl` | internal/proxy/runtime/runtime.go:402-409 | after deregistering a URL readers can still rely on the metrics if and only if no published backend has it |
| `Runtimes.Runtime.RegisterBackendMetrics` | internal/proxy/runtime/runtime.go:380-390 | registers all URLs of the new state and drops none |
| `Runtimes.Runtime.DeregisterRemovedBackendMetrics` | internal/proxy/runtime/runtime.go:392-410 | drops exactly the URLs of ids that disappeared; readers can still rely on the metrics if and only if none of them is published |
| `Runtimes.Runtime.UpdateBackend` | internal/proxy/runtime/runtime.go:447-480 | a failed update changes nothing; on completion a re-enabled or moved backend has a fresh status (or is healthy if checking is disabled), and every other status is as the update left it |
| `Runtimes.MarkEnabledHealthy` | internal/proxy/runtime/runtime.go:300-309 | exactly the statuses of enabled backends are marked healthy, the others stay |
| `Runtimes.BackendRegistry.Reconcile` | internal/proxy/runtime/backend_registry.go:32-56 | known ids keep their object, new ids get distinct fresh ones, the rest are forgotten |
| `Runtimes.BackendRegistry.Get` | internal/proxy/runtime/backend_registry.go:20-30 | the object of a known id, else nothing |

## Left out

- HTTP serving, the upstream transport, the prober, gRPC handlers, logging and metric exporters: I/O and plumbing.
- JSON encoding and the renaming of the file: decoding what was encoded is taken to give it back, and a save to replace the file or leave it as it was; which of the two is an input of every step.
- `url.Parse` and lower-casing are inputs (`Text`), so their own behaviour is not modelled.
- The indexes of a snapshot point into its configuration and are built anew for each; in `Isolation` they are not separate cells. An update of a whole struct or the compaction of one list is one write there; `Services.RemoveString` has the element writes.
- Edits.Apply: gives AddVirtualHost and UpdateVirtualHost a copy of the lists in their argument, so a caller that keeps those slices and writes to them later is not modelled.
- Runtimes.BuildRuntimeState: does not model what a client or balancer does, nor the closing of a replaced client's idle connections.
- UpdateRuns.ResetsExactlyByReads: says when a call resets, not that it is ever scheduled to; the callback that then triggers a check is not modelled.
- Services.Service.Replace: installs a copy, so it does not model a caller that keeps the pointer it passed in and writes to it later; no runtime operation calls it.
- RateLimit.RateLimiter.Allow: is one atomic step; `RateLimitRaces` splits it in two. `SetLimit` has no caller and is not modelled.
- RateLimit.WindowBound: is over real arithmetic, so it does not model the rounding of float64 tokens.
- HealthManager.RecoveryBackoff: durations are unbounded and the multiplier a real number, so it does not model overflow of a 64-bit duration or float64 rounding.
- HealthManager.NoStarvation: scheduling passes take no time, and it promises an open gate, not a free slot in the queue.
- HealthManager.SchedulingPass: is one pass during which no worker or other caller moves the pool; `WorkerPool` has the interleavings.
- `HealthManager.Reconcile`, which can let an old and a new pool overlap: nothing is promised across pools.
- Connections.CounterIsAccurate: counts fewer than 2^64 concurrent requests.
- WorkerPool.StopTerminates: takes probes to return, and does not model how the mutex chooses between waiting callers.
- The adaptive balancer, latency averages and request totals: floating-point heuristics, and failures are counted twice on upstream errors.
- Agreement of cached limiters with the policy in force: updating a virtual host can change its policy without notice.
- Header filtering, request ids and client addresses.
- The methods of the classes are runs without interruption; the interleavings are those of `WorkerPool`, `Connections`, `RateLimitRaces`, `Isolation` and `RuntimeModel`.
