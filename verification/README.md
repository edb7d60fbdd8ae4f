# Verified model of Genny's phase kernel

Genny drives N actor threads through numbered phases. This project models the parts of it whose correctness
rests on invariants rather than on reading one function, and proves what they promise for all inputs, all
interleavings and all reachable states.

- **Phase barrier** (`Orchestrator`, `Barrier`, `BarrierInvariant`, `BarrierTheorems`, `BarrierProgress`,
  `BarrierFairness`).
  The `Orchestrator` class holds the monitor's fields; each method is one lock-held section and is specified by
  a function on the monitor's value. `Barrier` puts N actors, with an arbitrary phase map each, around that
  monitor: one event per lock-held section, atomic read or stretch of actor code, including spurious wake-ups,
  exceptions inside and between phases, unconfigured phases, and the `abort()` every actor calls on leaving.
- **Rate limiter** (`RateLimiter`, `RateSystem`, `RateBound`). One whole call at a time the two buckets are
  one counter; interleaved at every load, compare-exchange and increment they obey the throughput bound.
- **Barrier and limiter together** (`PacedPhases`, `PacedTheorems`, `PacedProgress`). The product of both systems, with the
  limiter reset by the start hooks and blocked phases ending by their own Repeat and Duration.
- **Iteration inside a phase** (`PhaseIteration`). Repeat, Duration and pending pauses, over a steady clock.
- **Schema prefix tree** (`FleSchema`) and **connection strings** (`MongoUri`, `UriTexts`).
- **Value generation and loading** (`DatasetCache`, `IdClaims`, `DistinctArray`, `FrequencyMap`).
- **Text forms of configuration values** (`Specs`, `NumberTexts`, `SpecTexts`), including the whole grammar of
  decimal numbers and the rounding of numbers that are read as doubles.

`Wrappers` holds the option and result types; `Text` and `Arithmetic` hold facts about digits, strings and quotients. Clock readings, random draws, the iteration orders of unordered
containers and the outcome of weak compare-exchanges are inputs, so every statement holds for all of them.

Points where the code and its own description part, or where the obvious property is false:

- A round trip through a connection string can fail without a user name: two hosts such as `b:1` and `c@d`
  read back as a user and a password. `MongoUri.RoundTrip` gives the exact condition.
- A time, rate or integer survives encoding and decoding exactly when a double holds it (always up to 2^53);
  `Specs.IntegerRoundTrip` and its companions state this as an equivalence, and 2^53 + 1 is the first integer
  that fails (`Specs.FirstInexact`).
- A frequency-map entry with count zero does not run out, it wraps around to 2^64 - 1;
  `FrequencyMap.RunsConserveExactly` states that all runs of draws conserve the strings exactly when every
  count is positive.
- `limitRate` does not look at the abort flag. After an abort an actor in it keeps trying until it gets a token
  or, if it blocks the phase, until it is done; `PacedProgress.OutOfLimitRate` is the exact condition,
  `PacedProgress.RetriesIgnoreAbort` and `PacedProgress.AbortedYetRetrying` show the retries in a reachable
  state. What is bounded after an abort is the number of barrier steps.
- The rate decoder catches an invalid configuration in the "X per Y" form before it tries "X%", but not the
  exceptions of `std::stod`. No form is lost by that (`Specs.RateForms`); it only decides which exception an
  undecodable text raises (`Specs.UncaughtNumberError`, and "x per 1 second" in `Specs.NumberErrorIsNotCaught`).
- A count of hours or minutes can overflow 64 bits of nanoseconds; `Specs.TimeInUnit` says exactly when.
- A rate with a zero period limits nothing (`RateLimiter.ZeroPeriodGrantsAll`), and "0 per X" behaves like
  "1 per X" because the burst bucket is used only for burst sizes above one.

## Model

| member | source | states |
|---|---|---|
| `OrchestratorMonitor.Orchestrator.constructor` | src/gennylib/include/gennylib/Orchestrator.hpp:125-144 | The monitor starts with no tokens, phase 0, no abort, phase ended, no hooks fired. |
| `OrchestratorMonitor.Orchestrator.AddRequiredTokens` | src/gennylib/src/Orchestrator.cpp:102-106 | Only the number of required tokens grows. |
| `OrchestratorMonitor.Orchestrator.PhasesAtLeastTo` | src/gennylib/src/Orchestrator.cpp:108-111 | The last phase becomes the larger of the two; nothing else changes. |
| `OrchestratorMonitor.Orchestrator.AwaitPhaseStart` | src/gennylib/src/Orchestrator.cpp:78-100 | The section before the first wait is the specification step `StartEnter`; the caller sleeps exactly when it blocks, the phase did not start, and the wait condition holds; the phase returned is the one on entry. |
| `OrchestratorMonitor.Orchestrator.RetestStart` | src/gennylib/src/Orchestrator.cpp:94-96 | A woken waiter sleeps again exactly while the phase has not started and nobody aborted. |
| `OrchestratorMonitor.Orchestrator.AwaitPhaseEnd` | src/gennylib/src/Orchestrator.cpp:114-156 | The section before the first wait is `EndEnter`; when it sleeps; the answer is whether more phases follow. |
| `OrchestratorMonitor.Orchestrator.RetestEnd` | src/gennylib/src/Orchestrator.cpp:150-155 | A woken waiter sleeps again exactly while the phase has not ended and nobody aborted; the answer uses the state at that moment. |
| `OrchestratorMonitor.Orchestrator.Abort` | src/gennylib/src/Orchestrator.cpp:169-173 | Only the abort flag is set. |
| `BarrierInvariant.StepKeepsInv` | src/gennylib/include/gennylib/PhaseLoop.hpp:514-552 | Every event of every actor keeps the global invariant: token count, hook log, position of each actor relative to the monitor's phase, and unwinding after an abort. |
| `BarrierInvariant.RunKeepsInv` | src/gennylib/src/Orchestrator.cpp:78-173 | Every admissible schedule keeps the invariant. |
| `BarrierInvariant.AllWaitAtStart` | src/gennylib/src/Orchestrator.cpp:85-91 | When the last token comes in before any abort, every other actor is inside awaitPhaseStart. |
| `BarrierInvariant.NobodyHoldsAtEnd` | src/gennylib/src/Orchestrator.cpp:138-147 | When the phase ends, no actor is left with a token. |
| `BarrierTheorems.Lockstep` | src/gennylib/include/gennylib/PhaseLoop.hpp:514-548 | In every reachable state before the first abort all actors inside a phase are in the same phase, which is the monitor's phase or the one that just ended. |
| `BarrierTheorems.TokensCounted` | src/gennylib/src/Orchestrator.cpp:82-118 | In every reachable state, before and after an abort, no actor is more than one awaitPhaseStart ahead of its awaitPhaseEnds, and the token count is the number of actors that are one ahead, so between 0 and N. |
| `BarrierTheorems.AssertionsHold` | src/gennylib/src/Orchestrator.cpp:80-116 | Neither state assertion of the monitor fails in any reachable state. |
| `BarrierTheorems.PhaseCounterBounded` | src/gennylib/src/Orchestrator.cpp:145 | Before an abort the phase counter is at most one past the last phase. |
| `BarrierTheorems.Completion` | src/driver/src/DefaultDriver.cpp:59-82 | If no actor failed, every actor that left `run()`, and after the first abort every actor wherever it is unwinding, has entered each phase 0..max once and in order. |
| `BarrierTheorems.PhasesInOrder` | src/gennylib/include/gennylib/PhaseLoop.hpp:514-552 | At any earlier moment an actor has entered an initial segment of the phases and is never ahead of the monitor. |
| `BarrierTheorems.EntersPhaseOfCall` | src/gennylib/src/Orchestrator.cpp:84-99 | Aborted or not, awaitPhaseStart answers with the phase that was current at its call, whether it returns at once or after a wait. |
| `BarrierTheorems.HistoryCounts` | src/gennylib/include/gennylib/PhaseLoop.hpp:283-302 | An actor's history counts exactly its calls of awaitPhaseStart and the bodies it began in the schedule. |
| `BarrierTheorems.HookDiscipline` | src/gennylib/src/Orchestrator.cpp:85-147 | Before an abort the hook log is start 0, stop 0, start 1, stop 1, ... up to the current phase. |
| `BarrierTheorems.StartHooksFireAlone` | src/gennylib/src/Orchestrator.cpp:85-91 | Only a call of awaitPhaseStart fires start hooks, and then all other actors are waiting for the start. |
| `BarrierTheorems.NoLostWakeup` | src/gennylib/src/Orchestrator.cpp:85-154 | No sleeping waiter has its wait condition satisfied, before or after an abort. |
| `BarrierTheorems.NextEvent` | src/gennylib/include/gennylib/PhaseLoop.hpp:283-302 | Every actor that is neither asleep nor finished has an enabled step that is neither a spurious wake-up nor an exception. |
| `BarrierTheorems.DeadlockFree` | src/driver/src/DefaultDriver.cpp:236-266 | In every reachable state with an unfinished actor some actor has such a step. |
| `BarrierProgress.DrainStep` | src/gennylib/include/gennylib/PhaseLoop.hpp:283-302 | After an abort every barrier step shortens the total distance to the end and keeps every actor within its budget of calls and bodies; retries inside limitRate are not barrier steps. |
| `BarrierProgress.AbortDrains` | src/gennylib/src/Orchestrator.cpp:94-173 | After an abort nobody sleeps in a phase wait again, any barrier run has at most eight steps per actor left, and each actor makes at most one more awaitPhaseStart, one more awaitPhaseEnd and one more body; `PacedProgress.PacedAbortDrains` carries this over to runs with limitRate. |
| `BarrierProgress.CanAlwaysFinish` | src/driver/src/DefaultDriver.cpp:59-82 | From every reachable state some schedule finishes all actors; if nothing failed and every phase is configured, it ends with every actor having entered every phase in order. |
| `BarrierFairness.StepHoldsGround` | src/gennylib/include/gennylib/PhaseLoop.hpp:514-552 | Before an abort every step aborts, leads an actor out, crosses a phase boundary, or moves one actor without losing ground. |
| `BarrierFairness.NextGain` | src/gennylib/include/gennylib/PhaseLoop.hpp:283-302 | In a fair run whose blocking loops end, from any moment before an abort the run comes on: somebody's next move, or the end of somebody's iterations, gains ground. |
| `BarrierFairness.FairRunsEnd` | src/driver/src/DefaultDriver.cpp:236-266 | Every fair run in which no actor iterates forever in a phase it blocks finishes all actors, whatever spurious wake-ups and exceptions occur; without exceptions and with every phase configured, every actor has then entered every phase in order. |
| `RateLimiter.GlobalRateLimiter.constructor` | src/gennylib/include/gennylib/GlobalRateLimiter.hpp:69-73 | A base specification sets burst size and period; both atomics start at zero. |
| `RateLimiter.GlobalRateLimiter.ConsumeIfWithinRate` | src/gennylib/include/gennylib/GlobalRateLimiter.hpp:99-147 | One uninterrupted call is the specification step `Consume`, with spurious failure as an input. |
| `RateLimiter.GlobalRateLimiter.NotifyOfIteration` | src/gennylib/include/gennylib/GlobalRateLimiter.hpp:171-173 | Counts one iteration; the buckets are untouched. |
| `RateLimiter.GlobalRateLimiter.ResetLastEmptied` | src/gennylib/include/gennylib/GlobalRateLimiter.hpp:179-185 | The emptied time goes to one period before now, the iteration count to zero, the burst count stays. |
| `RateLimiter.Leftover` | src/gennylib/include/gennylib/GlobalRateLimiter.hpp:114-120 | The tokens left in the burst bucket: less than a burst, and they complete the count to a multiple of it. |
| `RateLimiter.ConsumeIsDue` | src/gennylib/include/gennylib/GlobalRateLimiter.hpp:114-146 | One call of the two-bucket code succeeds exactly when the single counter says a token is due, and keeps the correspondence. |
| `RateLimiter.TwoBucketsAreOneCounter` | src/gennylib/include/gennylib/GlobalRateLimiter.hpp:114-146 | For any start count and any non-decreasing call times the two buckets grant exactly as the counter "granted < leftover + burst * full periods". |
| `RateLimiter.DueAfterReset` | src/gennylib/include/gennylib/GlobalRateLimiter.hpp:179-185 | After a reset at t0 the counter's bound is burst * (floor((now-t0)/period)+1) plus the left-over tokens. |
| `RateLimiter.ZeroPeriodGrantsAll` | src/gennylib/include/gennylib/GlobalRateLimiter.hpp:122-146 | With a zero period every call of every run that begins no earlier than the emptied time succeeds. |
| `RateBound.StepKeepsInv` | src/gennylib/include/gennylib/GlobalRateLimiter.hpp:114-146 | Every atomic access of every thread, spurious failures and delayed increments included, keeps the limiter invariant. |
| `RateBound.ExchangeCountKeepsInv` | src/gennylib/include/gennylib/GlobalRateLimiter.hpp:114-120 | A burst token is taken only inside a period that has been paid for. |
| `RateBound.IncrementKeepsInv` | src/gennylib/include/gennylib/GlobalRateLimiter.hpp:139-145 | The increment that is separate from the exchange opens one period's worth of burst tokens and no more. |
| `RateBound.RateBoundHolds` | src/gennylib/include/gennylib/GlobalRateLimiter.hpp:99-147 | Under every interleaving, grants (and bodies) of all threads since a reset at t0 are at most B*(floor((t-t0)/R)+1) + ((B - b0 mod B) mod B). |
| `RateBound.BodiesArePaidFor` | src/gennylib/include/gennylib/PhaseLoop.hpp:134-176 | A thread begins a body only with a token granted for this iteration in hand, because giving up implies that the phase is done. |
| `RateBound.SoloCallIsConsume` | src/gennylib/include/gennylib/GlobalRateLimiter.hpp:99-147 | A thread that runs alone through the interleaved model does exactly what `Consume` does, with and without a spurious failure. |
| `PacedPhases.ResetFindsNobody` | src/gennylib/src/context.cpp:144-146 | Start hooks of an unaborted run find no thread inside the limiter, so a reset never overlaps a consume. |
| `PacedPhases.StepKeepsInv` | src/gennylib/src/context.cpp:131-148 | Every step of barrier, limiter or clock keeps the joint invariant. |
| `PacedTheorems.PhaseBodiesWithinRate` | src/gennylib/src/context.cpp:144-146 | Let any phase's start hooks fire at time t0 with b0 tokens counted and no start hooks fire since: the rate-limited bodies begun in those events are at most B*(floor((now-t0)/R)+1) + ((B - b0 mod B) mod B), in every unaborted run. |
| `PacedTheorems.BlockedPhaseRunsItsCourse` | src/gennylib/include/gennylib/PhaseLoop.hpp:171-176 | In any run, an actor that entered a rate-limited phase it blocks decides to leave exactly when it has begun Repeat bodies there and the Duration has passed since it entered. |
| `PacedProgress.JointRunIsBarrierRun` | src/gennylib/include/gennylib/PhaseLoop.hpp:283-302 | The barrier steps of any joint run are an admissible barrier run with the same end, so every barrier theorem holds of runs with limitRate. |
| `PacedProgress.PacedAbortDrains` | src/gennylib/src/Orchestrator.cpp:94-173 | After an abort any joint run has at most eight barrier steps per actor left, nobody sleeps in a phase wait, and the budgets of calls and bodies hold, however long limitRate retries in between. |
| `PacedProgress.OutOfLimitRate` | src/gennylib/include/gennylib/PhaseLoop.hpp:139-161 | A step leads out of limitRate if and only if it brings a token, or the attempt was denied and the actor blocks the phase and was done at the time of the attempt; the abort flag plays no part. |
| `PacedProgress.HeldInLimitRate` | src/gennylib/include/gennylib/PhaseLoop.hpp:283-290 | While an actor is in limitRate the only barrier step it can take is an exception. |
| `PacedProgress.RetriesIgnoreAbort` | src/gennylib/include/gennylib/PhaseLoop.hpp:139-161 | In any state, aborted or not, in which no token is due, no burst is possible and the phase is not done, an attempt leads back to the very same state. |
| `PacedProgress.AbortedYetRetrying` | src/gennylib/include/gennylib/PhaseLoop.hpp:138-164 | Such an aborted state is reachable with two actors. |
| `PacedProgress.GetThrough` | src/gennylib/include/gennylib/PhaseLoop.hpp:138-164 | From wherever an actor is inside limitRate, and whatever the others left behind, it gets out when it runs alone and time passes until the next token. |
| `PacedProgress.LeaveLoop` | src/gennylib/include/gennylib/PhaseLoop.hpp:275-303 | An actor that iterates under a rate in a phase it blocks reaches the end of its loop by its own Repeat and Duration, with a token for every iteration, moving nobody else. |
| `PacedProgress.CanAlwaysFinish` | src/driver/src/DefaultDriver.cpp:236-266 | From every reachable joint state, aborted or not and whoever is in limitRate, some continuation in which time passes finishes all actors; if nothing failed and every phase is configured, all have then entered every phase in order. |
| `PhaseIteration.SleepUntilOrPhaseEnd` | src/gennylib/src/Orchestrator.cpp:192-207 | Returns only once the deadline has passed or the phase is over, and not a reading later than needed. |
| `PhaseIteration.IterationChecker.SleepNonBlocking` | src/gennylib/include/gennylib/PhaseLoop.hpp:471-473 | The next iteration may start only a pause after the current reading. |
| `PhaseIteration.IterationChecker.SleepForActor` | src/gennylib/include/gennylib/PhaseLoop.hpp:193-210 | A pending sleep is shortened, never lengthened; one that outlasts a blocked phase is slept to the phase's own end and not a reading further, and leaves the phase done; any other is slept to its end unless the phase ends. |
| `PhaseIteration.IterationChecker.Test` | src/gennylib/include/gennylib/PhaseLoop.hpp:283-302 | One comparison with the end, aborted or not, blocking or not: it stops exactly when aborted, done in a blocked phase, or expired otherwise; going on implies that the pause is over unless the phase ended, and stopping in a blocked phase is not put off past its end. |
| `PhaseIteration.Turn` | src/gennylib/include/gennylib/PhaseLoop.hpp:275-303 | A turn of the loop that is not the last respects the pending pause and brings Repeat or the end of the Duration closer. |
| `PhaseIteration.RunBlockedPhase` | src/gennylib/include/gennylib/PhaseLoop.hpp:275-303 | The inner loop of a blocked phase ends; its tests were negative before every body and positive at the end, every pause was kept, and of the readings of the last test only the first and the last two can be past the end of the phase. |
| `PhaseIteration.AcceptedSettings` | src/gennylib/include/gennylib/PhaseLoop.hpp:66-117 | An accepted phase blocks exactly when it is a nop or gives Repeat or Duration; one that does not has said so; a nop without a Duration runs no body; Repeat and Duration are those given. |
| `PhaseIteration.AcceptedExactly` | src/gennylib/include/gennylib/PhaseLoop.hpp:77-117 | A phase is accepted exactly when nothing is negative, no sleeps are given beside a rate, and it blocks, is a nop, or says that it does not block. |
| `PhaseIteration.IterationCount` | src/gennylib/include/gennylib/PhaseLoop.hpp:171-176 | The number of bodies is the least count at or after Repeat whose test came past Duration, and exactly Repeat without a Duration. |
| `PhaseIteration.DoneStaysDone` | src/gennylib/include/gennylib/PhaseLoop.hpp:171-176 | Being done is monotone in time. |
| `FleSchema.AcceptedPaths` | src/gennylib/src/encryption.cpp:273-282 | A path is refused exactly when it is empty, begins or ends with a dot, or has two dots in a row; the components of an accepted one join to it. |
| `FleSchema.JoinSplit` | src/gennylib/src/encryption.cpp:273-282 | Joining the components of any string gives the string back. |
| `FleSchema.SplitJoin` | src/gennylib/src/encryption.cpp:273-282 | Splitting a join of dot-free components gives the components back. |
| `FleSchema.FindChild` | src/gennylib/src/encryption.cpp:448-451 | Finds a child with the name exactly when there is one. |
| `FleSchema.Insert` | src/gennylib/src/encryption.cpp:442-468 | Descending and adding branches either yields a tree whose leaves are the old paths and the new one, or names a field whose path is a prefix of the new one or the other way round. |
| `FleSchema.RepresentsPrefixFree` | src/gennylib/src/encryption.cpp:435-438 | A tree whose leaves are the paths exists only for a prefix-free list. |
| `FleSchema.RenderEncrypts` | src/gennylib/src/encryption.cpp:235-261 | The rendered document has an encryption rule at exactly the represented paths, each of its own field. |
| `FleSchema.AppendSchema` | src/gennylib/src/encryption.cpp:430-472 | Succeeds if and only if all paths are valid and none is a component-wise prefix of another; then it encrypts exactly the given paths; an error is about the first field that cannot be accepted after those before it. |
| `FleSchema.AppendReordered` | src/gennylib/src/encryption.cpp:441-471 | For any reordering of the fields both runs succeed or fail together, and the second document encrypts a path with field f exactly when the first does with the field's number in the first order. |
| `MongoUri.ScanHosts` | src/gennylib/src/PoolFactory.cpp:55-59 | The host loop ends and computes the specification parse `ParseHosts`. |
| `MongoUri.ScanQuery` | src/gennylib/src/PoolFactory.cpp:65-74 | The query loop ends and stores the parsed pairs in order, later ones overwriting earlier ones. |
| `MongoUri.Scan` | src/gennylib/src/PoolFactory.cpp:33-80 | The whole constructor computes the specification parse `Parse`. |
| `MongoUri.JoinHosts` | src/gennylib/src/PoolFactory.cpp:93-99 | The printing loop yields the comma-separated hosts. |
| `MongoUri.JoinQuery` | src/gennylib/src/PoolFactory.cpp:110-116 | The printing loop yields the ampersand-separated options. |
| `MongoUri.Config.constructor` | src/gennylib/src/PoolFactory.cpp:33-80 | The configuration holds what `Parse` says, and all access options exist. |
| `MongoUri.Config.MakeUri` | src/gennylib/src/PoolFactory.cpp:82-119 | The text is the specification print `Print`, for any iteration orders. |
| `MongoUri.Config.Set` | src/gennylib/src/PoolFactory.cpp:121-141 | Sets one option and nothing else; an unknown access option is refused and changes nothing. |
| `MongoUri.Config.OverrideHosts` | src/gennylib/src/PoolFactory.cpp:262-264 | Only the hosts change. |
| `MongoUri.RoundTrip` | src/gennylib/src/PoolFactory.cpp:33-119 | For delimiter-free parts and any iteration orders, parsing the printed string returns the configuration if and only if there is a user name, or no password and no text that reads as user information. |
| `MongoUri.RoundTripWithoutAt` | src/gennylib/src/PoolFactory.cpp:33-119 | The caller's check: no password without a user and no '@' outside the user information. |
| `MongoUri.RedactedHidesPassword` | src/gennylib/src/PoolFactory.cpp:87-89 | A redacted string is the same for every password. |
| `MongoUri.RedactedReadsBack` | src/gennylib/src/PoolFactory.cpp:82-119 | With a user name, everything but the password is read back from a redacted string. |
| `MongoUri.ParsedPartsOk` | src/gennylib/src/PoolFactory.cpp:33-80 | Whatever the input string, the parsed parts are free of their delimiters and appName is Genny. |
| `MongoUri.NormalForm` | src/gennylib/src/PoolFactory.cpp:33-119 | Parsing, printing and parsing again gives the first parse, under the same exact condition. |
| `MongoUri.NameToUriChangesOnlyHosts` | src/gennylib/src/topology.cpp:116-127 | After nameToUri the string reads back as the old configuration with just the one host, stripped of its set name. |
| `MongoUri.AtSignBreaksRoundTrip` | src/gennylib/src/PoolFactory.cpp:34-53 | Two hosts that together read as user information do not survive the round trip. |
| `UriTexts.UserInfoExactly` | src/gennylib/src/PoolFactory.cpp:34-51 | For every text, user information is matched exactly when the text splits at a ':' before any '@' and at the next '@'. |
| `UriTexts.HostExactly` | src/gennylib/src/PoolFactory.cpp:35 | For every text, the host matched is the longest name with an optional port, if there is any. |
| `UriTexts.DatabaseExactly` | src/gennylib/src/PoolFactory.cpp:36 | After a slash, the database is exactly what is before the first question mark, or everything. |
| `UriTexts.AssignmentExactly` | src/gennylib/src/PoolFactory.cpp:37 | For every text, an option is matched exactly as a key without '=' and '&', an equals sign, and a value up to the next '&'. |
| `UriTexts.HostsParsed` | src/gennylib/src/PoolFactory.cpp:55-59 | For every text, the parsed hosts are those of a list with optional commas, up to a place where no host begins. |
| `UriTexts.PairsParsed` | src/gennylib/src/PoolFactory.cpp:69-74 | For every text, the parsed options are those of a list with optional ampersands, up to a place where none begins. |
| `UriTexts.LastOneWins` | src/gennylib/src/PoolFactory.cpp:70-72 | An option given more than once has the value given last. |
| `UriTexts.ProtocolMayBeLeftOut` | src/gennylib/src/PoolFactory.cpp:42-47 | A string without a protocol reads like one of the plain protocol. |
| `UriTexts.QueryMayBeLeftOut` | src/gennylib/src/PoolFactory.cpp:61-74 | Strings without options, question mark or database are read back as the configuration without them. |
| `UriTexts.StripsSetName` | src/gennylib/src/topology.cpp:120-123 | A name set/host stands for its host, a name without a slash for itself. |
| `UriTexts.AccessNames` | src/gennylib/src/PoolFactory.cpp:177-185 | The access options are known by exactly their seven names. |
| `UriTexts.PrintedForms` | src/gennylib/src/PoolFactory.cpp:82-119 | What is printed, delimiter by delimiter, with and without redaction, on one configuration. |
| `DatasetCache.StepKeepsInv` | src/value_generators/src/DocumentGenerator.cpp:1113-1141 | Every step of every thread keeps the cache invariant: one owner and one load per path, data a prefix of the file until done. |
| `DatasetCache.LoadedOnce` | src/value_generators/src/DocumentGenerator.cpp:1113-1133 | In every reachable state the loader of a path has been started once if the path is known and never otherwise. |
| `DatasetCache.ReturnsCompleteData` | src/value_generators/src/DocumentGenerator.cpp:1124-1140 | Every caller returns after loading is done, with the complete data. |
| `DatasetCache.WaiterIsNotLeftBehind` | src/value_generators/src/DocumentGenerator.cpp:1131-1139 | While a waiter sleeps, the winner of its path is still loading or about to notify. |
| `DatasetCache.DeadlockFree` | src/value_generators/src/DocumentGenerator.cpp:1113-1141 | Until everybody has returned, somebody has a step that is no spurious wake-up. |
| `IdClaims.StepKeepsInv` | src/cast_core/src/MonotonicSingleLoader.cpp:62-70 | Every turn of every thread keeps the claims a gap-free tiling of the ids below the counter. |
| `IdClaims.ClaimsDisjoint` | src/cast_core/src/MonotonicSingleLoader.cpp:62-78 | In every run with a positive batch size, claimed ranges are non-empty and pairwise disjoint. |
| `IdClaims.ClaimsAreBatches` | src/cast_core/src/MonotonicSingleLoader.cpp:62-64 | In every run the k-th claim is exactly k*batchSize up to the smaller of (k+1)*batchSize and numDocuments; once a thread has left, ceil(numDocuments/batchSize) batches are claimed. |
| `IdClaims.AllIdsClaimed` | src/cast_core/src/MonotonicSingleLoader.cpp:62-78 | Once a thread has left the loop, the claimed ids are exactly 0..numDocuments-1. |
| `DistinctArray.Generate` | src/value_generators/src/DocumentGenerator.cpp:1795-1841 | The loop ends for every value stream: with the first n distinct values in order, or giving up after more than 100 duplicates in a row before the n-th. |
| `DistinctArray.FirstSeenDistinct` | src/value_generators/src/DocumentGenerator.cpp:1804-1815 | The collected values are pairwise different and include every value drawn so far. |
| `DistinctArray.OutcomesExclude` | src/value_generators/src/DocumentGenerator.cpp:1831-1840 | The two outcomes exclude each other, so it gives up exactly when the stream gets stuck first. |
| `DistinctArray.StuckMeans` | src/value_generators/src/DocumentGenerator.cpp:1801-1832 | Giving up takes 101 duplicates in a row, which fits the 8-bit counter. |
| `FrequencyMap.Map.PushBack` | src/value_generators/include/value_generators/FrequencyMap.hpp:37-39 | Appends one entry. |
| `FrequencyMap.Map.Take` | src/value_generators/include/value_generators/FrequencyMap.hpp:48-63 | Fails exactly past the end, changing nothing; otherwise returns the entry's string and leaves the list with one copy less. |
| `FrequencyMap.Map.Total` | src/value_generators/include/value_generators/FrequencyMap.hpp:75-83 | The loop computes the sum of the counts modulo 2^64. |
| `FrequencyMap.Map.Draw` | src/value_generators/src/DocumentGenerator.cpp:671-680 | A draw is the specification step `Drawn`; an empty map fails whatever the choice. |
| `FrequencyMap.TakeConserves` | src/value_generators/include/value_generators/FrequencyMap.hpp:48-63 | Taking from a positive count removes exactly one copy of the string from the multiset, and one from the total. |
| `FrequencyMap.ConservesExactly` | src/value_generators/include/value_generators/FrequencyMap.hpp:53-61 | Taking conserves the multiset if and only if the count was positive. |
| `FrequencyMap.DrawsConserve` | src/value_generators/src/DocumentGenerator.cpp:671-718 | For any choices, by any threads in turn, strings drawn plus strings left are the initial multiset. |
| `FrequencyMap.DrawsSucceedExactly` | src/value_generators/src/DocumentGenerator.cpp:671-718 | Draw k succeeds exactly when k is below the total count. |
| `FrequencyMap.AllDrawn` | src/value_generators/src/DocumentGenerator.cpp:671-718 | After total-count draws nothing is left and the strings drawn are the whole initial multiset. |
| `FrequencyMap.RunsConserveExactly` | src/value_generators/src/DocumentGenerator.cpp:671-718 | Every run of draws, for all choices, conserves the multiset if and only if all counts are positive to begin with. |
| `FrequencyMap.EveryStringCanBeDrawn` | src/value_generators/src/DocumentGenerator.cpp:671-680 | The next draw can yield exactly the strings that are left. |
| `FrequencyMap.ZeroCountWraps` | src/value_generators/include/value_generators/FrequencyMap.hpp:53-60 | Taking from a count of zero leaves 2^64 - 1. |
| `Specs.IntegerRoundTrip` | src/gennylib/include/gennylib/conventions.hpp:599-634 | An integer is read back from its text if and only if it is not negative, fits 64 bits and a double holds it. |
| `Specs.FirstInexact` | src/gennylib/include/gennylib/conventions.hpp:609-631 | 2^53 + 1 is not exact: it is read as 2^53. |
| `Specs.IntegerNormalForm` | src/gennylib/include/gennylib/conventions.hpp:604-633 | Every accepted text has a value that is read back unchanged from its plain decimal form. |
| `Specs.ScientificNotation` | src/gennylib/include/gennylib/conventions.hpp:609-615 | "n e k" is read like the written-out n * 10^k, for all n and k. |
| `Specs.RoundedExact` | src/gennylib/include/gennylib/conventions.hpp:612-616 | Reading as a double moves a number by at most half the spacing of doubles, and leaves exactly its multiples alone. |
| `Specs.RoundedStable` | src/gennylib/include/gennylib/conventions.hpp:612-631 | What rounding yields is a double: rounding it again changes nothing. |
| `Specs.SmallIsExact` | src/gennylib/include/gennylib/conventions.hpp:612-631 | All integers up to 2^53 are exact. |
| `NumberTexts.IntegerTexts` | src/gennylib/include/gennylib/conventions.hpp:604-633 | For every text: the decoder yields v exactly when the text is a decimal numeral (sign, digits, point, exponent) whose value is an integer, is not negative, and is v as a double. |
| `NumberTexts.MinusReadsZero` | src/gennylib/include/gennylib/conventions.hpp:622-628 | Whatever follows a minus sign is read as zero or not at all. |
| `NumberTexts.NegativesAreInvalid` | src/gennylib/include/gennylib/conventions.hpp:622-628 | Negative times, percentages, rates and phase ranges, as they are encoded, are invalid configurations. |
| `NumberTexts.FractionMustBeZero` | src/gennylib/include/gennylib/conventions.hpp:615-620 | A whole number with a fraction is read as the whole number if the fraction is zero and is invalid otherwise. |
| `NumberTexts.NotANumberExactly` | src/gennylib/include/gennylib/conventions.hpp:609-613 | "Not a number" is raised exactly when no number begins the text. |
| `NumberTexts.OutOfRangeExactly` | src/gennylib/include/gennylib/conventions.hpp:609-613 | From 2^1024 on a number is out of range, up to 2^63 it never is. |
| `NumberTexts.TiesGoToEven` | src/gennylib/include/gennylib/conventions.hpp:612-615 | Halfway between two doubles the even significand is taken. |
| `NumberTexts.WrittenForms` | src/gennylib/include/gennylib/conventions.hpp:383-387 | The encoders' texts on the repository's own examples. |
| `SpecTexts.TimeTexts` | src/gennylib/include/gennylib/conventions.hpp:649-694 | For every text: a time is an integer without blanks, one blank, a unit, and a product that fits 64 bits. |
| `SpecTexts.PercentageTexts` | src/gennylib/include/gennylib/conventions.hpp:501-534 | For every text: a percentage is an integer up to 100 and a single percent sign at the very end. |
| `SpecTexts.BaseTexts` | src/gennylib/include/gennylib/conventions.hpp:456-484 | For every text: a base rate is an integer, the first " per ", and a time. |
| `SpecTexts.RangeTexts` | src/gennylib/include/gennylib/conventions.hpp:389-439 | For every text: a phase range is one integer, or two around the first "..", ordered and within 32 bits. |
| `SpecTexts.KnownUnits` | src/gennylib/include/gennylib/conventions.hpp:673-691 | The units are the six names with anything after them; nothing else is a unit. |
| `SpecTexts.UnknownUnitRefused` | src/gennylib/include/gennylib/conventions.hpp:686-691 | A count with any other unit is an invalid configuration. |
| `SpecTexts.MinusTexts` | src/gennylib/include/gennylib/conventions.hpp:622-628 | Whatever is decoded from text after a minus sign, the number that comes first is zero. |
| `SpecTexts.TrimExactly` | src/gennylib/include/gennylib/conventions.hpp:417-418 | Trimming takes off the blanks around a text and nothing else. |
| `Specs.TimeRoundTrip` | src/gennylib/include/gennylib/conventions.hpp:642-695 | A time is read back if and only if its nanoseconds are exact. |
| `Specs.TimeInUnit` | src/gennylib/include/gennylib/conventions.hpp:649-694 | A count in any unit is read as that many units exactly when these nanoseconds fit 64 bits; otherwise the product overflows. |
| `Specs.UnitLadder` | src/gennylib/include/gennylib/conventions.hpp:673-686 | Each unit is the right multiple of the one below it, with any suffix. |
| `Specs.BaseRoundTrip` | src/gennylib/include/gennylib/conventions.hpp:449-485 | "X per Y" is read back if and only if both numbers are exact. |
| `Specs.PercentileRoundTrip` | src/gennylib/include/gennylib/conventions.hpp:494-535 | "X%" is read back if and only if 0 <= X <= 100. |
| `Specs.RateRoundTrip` | src/gennylib/include/gennylib/conventions.hpp:547-590 | A rate is read back if and only if it is representable, and whatever is read back is the variant that was encoded. |
| `Specs.RateForms` | src/gennylib/include/gennylib/conventions.hpp:563-590 | For every text, a base rate is read exactly when the base form reads it, and a percentage exactly when the percentage form does, uncaught errors notwithstanding. |
| `Specs.UncaughtNumberError` | src/gennylib/include/gennylib/conventions.hpp:563-590 | Decoding a rate ends with another error than an invalid configuration exactly when " per " is there and its count or time raises that error, or only a final "%" is there and its count does. |
| `Specs.NumberErrorIsNotCaught` | src/gennylib/include/gennylib/conventions.hpp:573-585 | "x per 1 second" raises a number error, not an invalid configuration. |
| `Specs.RangeRoundTrip` | src/gennylib/include/gennylib/conventions.hpp:382-440 | A range of 32-bit phase numbers is read back if and only if its start is not after its end. |
| `Specs.SinglePhase` | src/gennylib/include/gennylib/conventions.hpp:399-414 | A single number is the range of just that phase if and only if it fits 32 bits. |
| `Specs.RangeNormalForm` | src/gennylib/include/gennylib/conventions.hpp:389-439 | Every accepted range text is ordered, fits 32 bits, and is read back from its encoded form. |

## Left out

- Percentile rate mode and its reconfiguration: the bounds are for "X per Y" specifications.
- Hook order and phase accounting after an abort: a phase that never started can then "end"; only the drain, the token count and the absence of lost wake-ups are stated there.
- Waking sleepers on abort: the timed sleeps do not test the abort flag; they promise the deadline or the phase end, and time passing stands for them.
- Termination of every fair joint run: a weak compare-exchange may fail for one thread forever, so an actor can starve in limitRate; that a way out always exists is stated instead.
- Actors that skip the inner loop of a phase (`RunCommand`'s `continue`): every actor is taken to leave a phase through the inner iterator or by an exception.
- Exceptions the driver does not handle (`catch (...)` rethrows) and joining of threads: an exception is one that `runActor` records.
- Phase lists with gaps and `constructPhaseContexts`: a workload is given by its phase maps and last phase.
- `getRateLimiter`'s registry by name: one shared limiter is modelled, and the several identical reset hooks it registers count as one.
- Reading the current phase number is an atomic step on the monitor in `Barrier`; `sleepBefore`, `sleepAfter` and jitter are time passing.
- `RateSystem` alone lets a completion test stop at any time, which only adds runs; `PacedPhases` ties it to the abort flag, to Repeat and Duration, and to the phase number.
- 64-bit overflow of counters and clock arithmetic: these are unbounded integers.
- `FrequencyMapSingletonGenerator`'s registry by id: one shared map is modelled; its lock makes draws one sequence.
- A dataset loader that throws: loaders are taken to return.
- `DatasetCache.StepKeepsInv`: the winner's lookups of its own entry are atomic here, while the code makes them without the lock (src/value_generators/src/DocumentGenerator.cpp:1133 and 1140) as another thread may be inserting a different path under it.
- `Specs.DecodeInteger`: does not model leading white space, hexadecimal, infinity and NaN texts, fractions so fine that a double rounds them to an integer, and underflow; a whole number of 2^63 or more is taken to be refused, where the code's rounding function is unspecified.
- YAML parsing: substrings that the decoders parse again as YAML only lose their surrounding blanks; sequence and map nodes are not modelled.
- A negative item count of the distinct array, which the code converts to an unsigned size: counts are natural numbers.
- `MongoUri.ScanHosts` and `MongoUri.ScanQuery`: the index into the string is represented by the rest of the string; strings hold no NUL character and no line break.
- `FleSchema.Insert`: the tree lives in a sequence of nodes with indices as pointers instead of nested vectors; the encryption details of a field are its index.
- Inserting the claimed documents, driver calls, metrics, logging, files and sockets.
- The rest of the value generators and actors: mostly calls into libraries.
