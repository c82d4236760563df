# SpecFlow: models and proofs

SpecFlow turns a requirement and a repository into a reviewed plan by running a fixed team of agents. This project
models the parts of it that decide what may run, in which order, and on which data, and proves what they promise.
`dafny verify dfyconfig.toml` checks everything.

## What is modelled

**Provider circuit breaker** (`CircuitModel`, `CircuitInvariants`, `CircuitTheorems`, `CircuitObservations`,
`CircuitRefinement`, `CircuitGuard`). Admissions and completions are atomic steps with the clock sample as a parameter; attempts in flight
are named by tokens. `CircuitGuard` is the guard with its shared mutable entries; its methods are proved to be exactly
the steps, and everything else is proved about runs of steps. Stale probes keep their slots, `opened_at` is only read
in OPEN, and the branch in which a `probe_limit` refusal moves OPEN to HALF_OPEN is in the model; it turns out that no
reachable state takes it.

**Single-flight ownership and admission** (`RunResults`, `RateLimiter`, `SingleFlightModel`, `SingleFlightTheorems`,
`SingleFlightHistory`, `SingleFlightQuota`, `SingleFlightCoordination`). Concurrent calls are interleaved steps: claim with admission,
publication, exit, unwinding, wake-up, time-out, and the runs that take a permit directly, whose semaphore, clock, count
and release are steps of their own. Permits and the sliding window are shared with them.

**Plan compilation** (`PlanGraph`, `PlanStages`, `PlanCompiler`, `PlanTheorems`, `PlanHash`, `PlanOutcomes`,
`PlanIdentity`, `PlanValidator`). Kahn's
algorithm with the source's tables and loops and arbitrary set order, proved to be longest-path layering; the
structural checks, which compiled plans always pass; and the payload of the structure hash.

**Multi-agent run** (`Scheduler`, `MultiAgentWorkflow`, `Handoffs`, `MultiAgentRun`, `RunHandoffs`, `MultiAgentRunner`,
`RunOutcomes`, `RevisionCounts`, `EnvelopeReferences`, `RunTheorems`). The staged scheduler with arbitrary completion order, and the
whole run over arbitrary executor outputs: stages, handoffs, the bounded revision, the state machine, the budgets, and
the artifact map that the handoff log refers to. `Play` says what a run comes to when time does not matter, as a
function of the policy and the executors; the imperative run is proved to follow it, and `RunOutcomes` says what decides
it in the executors' own answers. Envelopes are values there;
`EnvelopeReferences` has them shared and writable by whoever holds one.

**Repository traversals** (`PathNames`, `RepositoryTree`, `RepositoryTraversal`, `RepositorySnapshot`,
`TraversalTheorems`). The walk and the bounded snapshot over one immutable tree, with directory entries in arbitrary
order, and exactly when the two agree.

**Token budget and the single-agent workflow** (`TokenBudget`, `LegacyWorkflow`, `StepExecutor`). Greedy trimming under
ceiling division; the history validator against the reachable states; the executor that runs each handler once, interruptions aside.

`Prelude`, `Text`, `Sorting` and `Listings` hold the shared vocabulary: finite sets, white space, stable sorting by key
and what its result depends on.

## Where the code does less than it suggests

- `repository_snapshot` records the normalised path of a file, so a name with surrounding white space or a backslash is
  recorded as another file, or fails the snapshot. `SnapshotAgreesWithWalk` gives the exact condition, `SpaceIsLost` an
  instance.
- `_validate_history` does not look at reasons, which `transition` strips. `AcceptsIffReachable` and
  `UnstrippedReasonIsAccepted`.
- The second refusal of `apply` can happen for some policy if and only if the context has a message and a hash of fewer
  than 64 characters. `Apply`, `SecondRefusalIff`.
- A run that takes its permit outside the coordinator's lock may deliver a late clock sample, and the per-minute quota may
  then fail. It holds for all samples at most d late if and only if the quota is one or d is zero, and over all
  interleavings under one clock, with every claim admitted, if and only if the quota is one or at most one run may be
  active. `QuotaHoldsIff`, `QuotaHoldsOverInterleavingsIff`.
- Receivers get the very dictionaries that the stages recorded. The handoff log validates throughout a run if and only if
  nobody changes one after it was handed over. `LogHoldsIffCareful`, `OneWriteBreaks`.
- An exception that is not an `Exception` leaves a step uncompleted after its handler ran, so a retry runs it again.
  `HandlersRunOnceIff`, `GoOnAfterInterruption`.
- `consume_revision` counts a rejection before it is known whether anything may be revised. The guard's count differs
  from the engine's if and only if the first review rejects and `max_revisions` is zero or the policy does not allow
  revising the named target. `Run.Execute`, `RejectUnrevised`.

## Model

| member | source | states |
|---|---|---|
| `CircuitInvariants.ReachableInv` | src/specflow/llm/resilience.py:143-210 | Every world reachable by any interleaving of admissions and completions satisfies the invariant: exact counters, at most max_entries residents, distinct aliases within range, every attempt in flight disciplined by its circuit's generation |
| `CircuitInvariants.AliasAlwaysFound` | src/specflow/llm/resilience.py:161-163 | By pigeonhole a free alias exists whenever a new key is inserted, so the alias search never runs dry |
| `CircuitInvariants.StepViews` | src/specflow/llm/resilience.py:143-210 | What any one step does to any one key's circuit: nothing, creation, recycling of an idle healthy one, a knock, or a completion |
| `CircuitInvariants.BeginIsPrepareThenKnock` | src/specflow/llm/resilience.py:143-176 | An admission is making room and enrolling the key, followed by the decision at that key's circuit alone |
| `CircuitTheorems.CountersAreExact` | src/specflow/llm/resilience.py:173-184 | In every reachable world active_calls and active_probes equal the attempts and probes in flight on the entry, stale ones included; probes stay within the limit across generations, generation equals transition_count, and the registry within its bound |
| `CircuitTheorems.GenerationDiscipline` | src/specflow/llm/resilience.py:176-191 | Every attempt in flight has a resident circuit of no older generation; with equal generations the circuit is not OPEN and the attempt is a probe exactly when it is HALF_OPEN |
| `CircuitTheorems.StaleCompletionIsInert` | src/specflow/llm/resilience.py:188-191 | A completion of an older generation, and any completion on an OPEN circuit, changes no state, generation, opened_at or consecutive failure count |
| `CircuitTheorems.InFlightIsNeverEvicted` | src/specflow/llm/resilience.py:147-160 | No step evicts, replaces or rejuvenates a circuit with an attempt in flight |
| `CircuitTheorems.ClosedCountsTheStreak` | src/specflow/llm/resilience.py:192-202 | A CLOSED circuit's consecutive_failures is the number of availability failures since the last success in its generation's completion log, and below the threshold; excluded failures are transparent |
| `CircuitTheorems.TripsExactlyAtThreshold` | src/specflow/llm/resilience.py:192-198 | CLOSED turns OPEN in a step if and only if the step completes a current attempt with an availability failure that brings that streak to failure_threshold |
| `CircuitTheorems.NoAdmissionInsideTheWindow` | src/specflow/llm/resilience.py:164-168 | With a clock that never goes back, no attempt is admitted within open_seconds of the opening, over whole histories |
| `CircuitTheorems.ExpiredWindowAlwaysAdmits` | src/specflow/llm/resilience.py:164-176 | In every reachable world the next attempt at an OPEN circuit is admitted as a probe exactly when the window has passed |
| `CircuitTheorems.ProbeLimitOnlyCountsARejection` | src/specflow/llm/resilience.py:164-172 | The code lets a probe_limit refusal move OPEN to HALF_OPEN; in reachable worlds it never does: the circuit was HALF_OPEN and only its rejection count changes |
| `CircuitTheorems.OneSuccessRecovers` | src/specflow/llm/resilience.py:164-202 | From any reachable resident circuit with nothing in flight, one attempt after the window ended by a success leaves it CLOSED with no consecutive failures, whatever happens on other keys in between |
| `CircuitTheorems.VerdictIs` | src/specflow/llm/resilience.py:143-176 | What every admission decides, in every reachable world and by the attempts in flight: a CLOSED circuit admits, a HALF_OPEN one admits a probe exactly while fewer probes than the limit are in flight, an OPEN one a probe once the window has passed, and an unknown key is admitted unless the registry is full of circuits none of which is idle and healthy |
| `CircuitObservations.StateMoves` | src/specflow/llm/resilience.py:164-202 | A resident circuit changes state in exactly three ways: OPEN admits a probe; an outage of the current generation is a probe's or reaches the threshold; a successful probe was the last in flight |
| `CircuitObservations.CountersAreTallies` | src/specflow/llm/resilience.py:166-204 | The failure, rejection and transition counts of a circuit are tallies over the events since it was made |
| `CircuitObservations.ConsecutiveIsRun` | src/specflow/llm/resilience.py:192-200 | In every state consecutive_failures is the run of outages since the last success among its current completions, up to the threshold |
| `CircuitObservations.OrderIsByAge` | src/specflow/llm/resilience.py:147-163 | The dictionary lists the circuits in the order in which they were made |
| `CircuitObservations.OldestIdleGoes` | src/specflow/llm/resilience.py:147-159 | A circuit goes only from a full registry, for an unknown key; it is idle and healthy, and was made before every other such circuit |
| `CircuitObservations.NewCircuit` | src/specflow/llm/resilience.py:161-163 | A new circuit is CLOSED, with all counts at zero but the one attempt, under the least alias that no other circuit has |
| `CircuitRefinement.BoundedRefinesUnbounded` | src/specflow/llm/resilience.py:143-202 | Leaving out admissions refused for capacity, which change nothing, the bounded registry takes the same decisions in the same order as a guard that never evicts, and ends with bisimilar circuits and attempts |
| `CircuitRefinement.KnockBisimilar` | src/specflow/llm/resilience.py:164-176 | A recreated circuit decides like the original, and both generations move alike |
| `CircuitRefinement.SettleBisimilar` | src/specflow/llm/resilience.py:178-204 | So do completions, including stale ones, up to the shared generation offset |
| `CircuitRefinement.CapacityRefusalChangesNothing` | src/specflow/llm/resilience.py:158-159 | A registry_capacity refusal leaves the whole world as it was |
| `CircuitGuard.ProviderResilienceGuard.BeforeAttempt` | src/specflow/llm/resilience.py:143-176 | The guard object, with shared mutable entries in a dictionary, performs exactly the protocol's admission step, whose decisions are those of `VerdictIs`, and hands out the entry that the attempt will complete on |
| `CircuitGuard.ProviderResilienceGuard.FinishAttempt` | src/specflow/llm/resilience.py:178-204 | Completion on the held entry object is exactly the protocol's completion step |
| `CircuitGuard.ProviderResilienceGuard.OldestRecyclable` | src/specflow/llm/resilience.py:147-157 | The scan finds the first recyclable key in insertion order |
| `CircuitGuard.ProviderResilienceGuard.UnusedAlias` | src/specflow/llm/resilience.py:161-162 | The alias search finds the least unused alias |
| `RateLimiter.WindowIsTheLastMinute` | src/specflow/api_security.py:98-109 | With nondecreasing clock samples the deque after each request is exactly the suffix of the accepted log that is no older than a minute |
| `RateLimiter.NoMinuteHoldsMore` | src/specflow/api_security.py:98-109 | No closed one-minute interval, anywhere in time, holds more than per_minute accepted requests |
| `RateLimiter.RefusedIffFull` | src/specflow/api_security.py:104-109 | A request is refused if and only if the minute ending at it already holds per_minute accepted requests |
| `RateLimiter.QuotaHoldsIff` | src/specflow/api_security.py:98-109 | For samples that arrive at most d late, every history keeps the quota in every closed minute if and only if the quota is one or nothing arrives late at all |
| `RateLimiter.QuotaOfOneAlwaysHolds` | src/specflow/api_security.py:98-109 | A quota of one holds for any samples in any order |
| `RateLimiter.OutOfOrderSamplesOverfill` | src/specflow/api_security.py:98-109 | For every larger quota and every lateness, however small: a full minute and one late sample put one request too many into a minute |
| `RateLimiter.RefusalTakesNothing` | src/specflow/api_security.py:84-96 | A refusal of either kind keeps every permit, and a concurrency refusal takes no window slot |
| `RateLimiter.RunRateLimiter.CountRequest` | src/specflow/api_security.py:98-109 | The popping loop and the append compute the window function |
| `RateLimiter.RunRateLimiter.Acquire` | src/specflow/api_security.py:84-96 | Permit first, then the count, with the permit given back when the count is refused |
| `RateLimiter.RunRateLimiter.Release` | src/specflow/api_security.py:118-119 | The bounded semaphore accepts a release exactly when a permit is out |
| `RunResults.ConstructibleIffCanonical` | src/specflow/single_flight.py:192-215 | The constructor yields exactly the results with a nonempty status, a safe or empty error code and a matching degraded flag |
| `RunResults.AuditChangesOnlyMetadata` | src/specflow/single_flight.py:239-246 | with_audit never fails on a constructed result and changes nothing but the metadata |
| `RunResults.AuditIsIdempotent` | src/specflow/single_flight.py:239-246 | Auditing twice is auditing once with the last metadata |
| `RunResults.SafeCode` | src/specflow/single_flight.py:45-46 | Whatever comes in, a safe code comes out |
| `RunResults.SafeCodeMeans` | src/specflow/single_flight.py:45-46 | A code is kept exactly when it is one capital letter and at most 63 capitals, digits and underscores |
| `RunResults.MadeByCode` | src/specflow/single_flight.py:192-215 | What each code stands for by itself: 0 completed, 2 a security failure with its error, 4 completed and degraded, any other a runtime failure |
| `RunResults.MadeByArguments` | src/specflow/single_flight.py:192-215 | A given status or error code replaces that of the code, and the constructor refuses exactly a security failure without an error |
| `SingleFlightTheorems.OneLiveOwnerPerKey` | src/specflow/single_flight.py:297-337 | Over all interleavings two live owners of one key are the same call |
| `SingleFlightTheorems.ClaimNeverJoinsAFinishedFlight` | src/specflow/single_flight.py:305-315 | A claim that finds an entry joins an unfinished flight with a live owner: completed results are never retained |
| `SingleFlightTheorems.UnwindRemovesItsOwn` | src/specflow/single_flight.py:329-337 | An unwinding owner finds its own entry under its key, removes that one, sets its event and returns exactly its permit |
| `SingleFlightTheorems.EveryExitReleasesFollowers` | src/specflow/single_flight.py:316-337 | After any exit of the owner its followers can wake, and none can still time out |
| `SingleFlightTheorems.FinishedIsFinal` | src/specflow/single_flight.py:269-273 | A finished flight never changes again |
| `SingleFlightTheorems.FollowersAgreeWithTheOwner` | src/specflow/single_flight.py:275-282 | Every follower that was answered got the owner's last publication, changed only in role metadata |
| `SingleFlightTheorems.ExceptionalExitIsPublished` | src/specflow/single_flight.py:318-328 | An exception publishes RUNNER_FAILED and a cancellation RUN_CANCELLED before followers wake |
| `SingleFlightTheorems.PermitsAreConserved` | src/specflow/api_security.py:84-119 | Free permits and holders add up to max_concurrent in every reachable state; a direct run holds its permit from the semaphore on, while it reads the clock, counts, runs or is about to give it back |
| `SingleFlightTheorems.StockOutcomesAreMade` | src/specflow/single_flight.py:250-282 | The default, cancelled and timed-out outcomes are what the constructor makes of their arguments |
| `SingleFlightTheorems.RefusedClaimChangesNothing` | src/specflow/single_flight.py:305-314 | A refused claim registers nothing, creates no call and takes no permit |
| `SingleFlightTheorems.WindowIsTallied` | src/specflow/single_flight.py:305-314 | Over every interleaving the shared window is the window of the samples that reached it, in order |
| `SingleFlightTheorems.NoMinuteAdmitsMore` | src/specflow/single_flight.py:305-314 | Over any interleaving no minute admits more than the quota, if the quota is one or the samples reach the window in order |
| `SingleFlightHistory.PublicationsAreHistory` | src/specflow/single_flight.py:269-273 | What an entry has published is what its owner's events say: its results, and the stock outcome of an exceptional exit; its outcome is the last of these, audited for the owner |
| `SingleFlightHistory.AnswerIsHistory` | src/specflow/single_flight.py:275-282 | A follower is answered with its owner's last publication by the history, or the pessimistic default, and both claimed the same key |
| `SingleFlightHistory.NormalExitAnswers` | src/specflow/single_flight.py:316-337 | After its owner's normal exit a follower gets the last result that the owner published, or the default: the exit itself publishes nothing |
| `SingleFlightHistory.ClaimIsAdmittedIff` | src/specflow/single_flight.py:305-315 | A claim with a quota is let in if and only if it joins a flight or a permit is free, and the minute ending at its sample has room; it owns a new flight if and only if its key has none |
| `SingleFlightHistory.DirectRunsIff` | src/specflow/api_security.py:84-109 | A direct run gets a permit if and only if one is free, and runs if and only if the minute ending at its sample has room |
| `SingleFlightQuota.QuotaHoldsOverInterleavingsIff` | src/specflow/api_security.py:84-109 | Under one clock that never goes back and with every claim admitted, all interleavings of claims and direct runs keep the quota if and only if it is one or at most one run may be active |
| `SingleFlightQuota.OnePermitKeepsOrder` | src/specflow/api_security.py:84-109 | With at most one permit no sample overtakes another on its way to the window |
| `SingleFlightCoordination.SingleFlightCoordinator.Claim` | src/specflow/single_flight.py:305-315 | The locked block on the dictionary of entry objects is the protocol's claim step; it returns the new or the joined entry, or nothing when admission refuses |
| `SingleFlightCoordination.SingleFlightCoordinator.Admit` | src/specflow/api_security.py:253-258 | Inside the claim an owner takes a permit and a window slot, a follower only a slot |
| `SingleFlightCoordination.SingleFlightCoordinator.Complete` | src/specflow/single_flight.py:269-273 | Publication on the entry object is the protocol's publication step |
| `SingleFlightCoordination.SingleFlightCoordinator.Unwind` | src/specflow/single_flight.py:329-337 | The finally block is the protocol's unwind step, and what it deletes was its own entry |
| `SingleFlightCoordination.SingleFlightCoordinator.Wait` | src/specflow/single_flight.py:275-282 | A follower's wait returns the protocol's answer or time-out result |
| `PlanCompiler.Compile` | src/specflow/plan/compiler.py:21-138 | Compilation succeeds with the longest-path stages and the hash of the payload, reports a cycle if and only if a well-formed spec's graph has one, and otherwise reports the first bad dependency entry |
| `PlanCompiler.BuildGraph` | src/specflow/plan/compiler.py:22-42 | The dependency map is that of the entries, empty where there is none; a failure names the first entry that is a duplicate, unknown, or depends on something unknown |
| `PlanStages.Stages` | src/specflow/plan/compiler.py:44-84 | Kahn's algorithm, with arbitrary set and queue order, produces the sorted successive sets of ready agents and visits exactly their union |
| `PlanStages.Reverse` | src/specflow/plan/compiler.py:49-53 | The reverse adjacency lists every dependent of each agent exactly once |
| `PlanStages.Release` | src/specflow/plan/compiler.py:73-79 | Counting a stage off leaves each degree at the number of unmet dependencies and queues exactly the newly ready agents |
| `PlanStages.CountOff` | src/specflow/plan/compiler.py:75-79 | One finished node: each dependent is decremented once and queued when and only when its last dependency is met |
| `PlanGraph.LayersAreTheLayering` | src/specflow/plan/compiler.py:63-81 | When the ready sets exhaust the graph they are its longest-path layering |
| `PlanGraph.ExhaustedIffAcyclic` | src/specflow/plan/compiler.py:83-84 | They exhaust the graph if and only if it has no cycle |
| `PlanGraph.LevelIsLongestChain` | src/specflow/plan/compiler.py:63-81 | An agent's level is the length of a longest chain of dependencies from it |
| `PlanGraph.LayeringIsUnique` | src/specflow/plan/compiler.py:63-81 | A graph has at most one such layering |
| `PlanTheorems.StageOfAgent` | src/specflow/plan/compiler.py:63-86 | Each agent stands in exactly one stage: the first without dependencies, else the one right after its latest dependency |
| `PlanTheorems.StageIsLongestChain` | src/specflow/plan/compiler.py:63-86 | The stage number of an agent is the length of a longest dependency chain below it |
| `PlanTheorems.StagesAreDetermined` | src/specflow/plan/compiler.py:63-86 | The stages are determined by the graph, so neither set order nor queue order shows in them |
| `PlanTheorems.RefusalHasCause` | src/specflow/plan/compiler.py:25-38 | A spec is refused for an entry only when some entry is bad |
| `PlanTheorems.CompileIgnoresOrder` | src/specflow/plan/compiler.py:21-138 | Reordering agents, entries, constraints, dependency sets or revisable roles changes neither whether a spec compiles, nor whether it has a cycle, nor the stages, nor, for distinct ids, the structure hash |
| `PlanOutcomes.CompilesIff` | src/specflow/plan/compiler.py:21-86 | A spec compiles if and only if no agent has two entries, every id in an entry is declared, and no agents need each other in a circle; a cycle is reported if and only if there is a circle and the entries are good |
| `PlanOutcomes.AgentRunsWhenReady` | src/specflow/plan/compiler.py:44-86 | In a compiled plan each declared agent stands in exactly one stage, after the stages of all it needs and right after one of them; in the first if and only if it needs none |
| `PlanIdentity.HashTellsPlans` | src/specflow/plan/compiler.py:88-127 | Of compiled specs with distinct ids the structure hashes are equal if and only if every agent has the same role, version, dependencies and limits in both and the revision policies agree; nothing else of a spec matters |
| `PlanHash.HashDependsOn` | src/specflow/plan/hash_utils.py:34-46 | Exactly what the structure hash depends on: per id the same records in the same order, the stages as multisets, and the policy |
| `PlanValidator.Validate` | src/specflow/plan/validator.py:34-57 | Validation passes if and only if the stages hold exactly the declared agents, repeat none, no declared edge lies within a stage, and every schema identifier is in the registry where one is given |
| `PlanValidator.CheckSchemaIds` | src/specflow/plan/validator.py:115-135 | Passes if and only if every schema identifier is known; the error names the first agent with an unknown one, its input schema first |
| `PlanValidator.CheckAgentSetIdentity` | src/specflow/plan/validator.py:64-81 | The error carries exactly the missing, or else the undeclared, agents |
| `PlanValidator.CheckNoDuplicateAcrossStages` | src/specflow/plan/validator.py:84-93 | Passes if and only if no agent occurs twice; the agent it names does |
| `PlanValidator.CheckNoIntraStageDependencies` | src/specflow/plan/validator.py:96-113 | Passes if and only if no stage holds both ends of a declared edge; the edge it names is one, with both ends in a stage |
| `PlanValidator.CompiledPlansAreValid` | src/specflow/plan/validator.py:63-113 | Every plan the compiler returns passes all three structural checks |
| `Scheduler.Execute` | src/specflow/coordinator/scheduler.py:108-183 | Whatever the completion order, a successful run has the results of running the stages one after the other and hands out exactly their calls; a failure stops at a stage with its cause, after exactly the calls made by then |
| `Scheduler.PriorIsLatest` | src/specflow/coordinator/scheduler.py:143-146 | A stage sees an agent's latest output before it, or else the supplied one |
| `Scheduler.ResultsAre` | src/specflow/coordinator/scheduler.py:141-183 | A successful run has one result per stage and agent, in order: what the agent puts out on the prior outputs of its stage |
| `Scheduler.EachCallSees` | src/specflow/coordinator/scheduler.py:141-150 | Each call is for an agent of its stage, sees exactly that stage's prior outputs, and comes after the calls of earlier stages |
| `Scheduler.NothingStartsAfterFailure` | src/specflow/coordinator/scheduler.py:152-167 | After a failure nothing of a later stage was ever started |
| `Scheduler.FailsOnlyForCause` | src/specflow/coordinator/scheduler.py:122-163 | Without a deadline a run fails only for a missing executor or a failing agent |
| `Scheduler.FailureStageIsFixed` | src/specflow/coordinator/scheduler.py:152-163 | Which of several failing agents is named may vary; the stage, its kind of cause and the calls made do not |
| `MultiAgentWorkflow.WorkflowEngine.Transition` | src/specflow/coordinator/state_machine.py:103-132 | A transition succeeds if and only if the table allows it; the history stays a chained legal path and the revision count its number of revising entries |
| `MultiAgentWorkflow.LegalPathsAre` | src/specflow/coordinator/state_machine.py:27-53 | The legal histories are exactly those that go from planning over analysis and the specialists to synthesis and review, repeat revision, synthesis and review, and end, if at all, in completion after a review or in failure at any point once planning began |
| `MultiAgentWorkflow.RevisionController.CreateRevisionTask` | src/specflow/coordinator/revision.py:98-125 | A task is created if and only if rounds remain and the role is revisable; tasks are numbered from one and never exceed max_total_rounds |
| `MultiAgentWorkflow.RuntimeGuard.ConsumeLlmCall` | src/specflow/policy/runtime_guard.py:38-47 | A call is counted if and only if the budget has room, so the count never exceeds it |
| `MultiAgentWorkflow.RuntimeGuard.ConsumeTokens` | src/specflow/policy/runtime_guard.py:49-116 | Usage is counted if and only if it is two nonnegative integers and every per-agent and run-wide boundary holds, with the reserve open to retries alone; otherwise nothing is counted |
| `Handoffs.ValidatePayloadAccepts` | src/specflow/handoff/validator.py:63-113 | Validation accepts exactly the handoffs whose reference names an artifact with the recorded hash, the sender's id, a role and an output object |
| `Handoffs.OutputRefInjective` | src/specflow/runner_multi.py:902-903 | Artifact keys of different stages or agents never collide |
| `Handoffs.MadeHandoffsVerify` | src/specflow/runner_multi.py:858-869 | A handoff the runner builds is never refused for its reference or hash, only for a payload without canonical form or role |
| `MultiAgentRun.StageRunner.RunAndAccumulate` | src/specflow/runner_multi.py:677-707 | Without a deadline a stage succeeds if and only if its inputs are accepted, its calls fit the parallel, call and token budgets and every result passes; it then appends exactly the validated results on the prior outputs and uses exactly its calls and tokens; otherwise, and whenever it fails, it changes no record |
| `MultiAgentRun.StageRunner.RunPool` | src/specflow/runner_multi.py:710-721 | The stage's calls interleave freely at their budget checks, and without a deadline they all succeed if and only if their sums fit the budgets, whatever the order; on success each was counted once, and no budget is ever overdrawn |
| `MultiAgentRun.StageRunner.ValidateStageInputs` | src/specflow/runner_multi.py:835-871 | One handoff per receiver and sorted dependency, naming the overriding stage where there is one; refused if and only if some sender's output is missing or cannot be handed over |
| `MultiAgentRun.StageRunner.BuildHandoff` | src/specflow/runner_multi.py:850-870 | A handoff is built for the sender's current output, and refused exactly when that is missing or not transferable |
| `MultiAgentRun.PoolHasRoom` | src/specflow/runner_multi.py:710-721 | While the calls of a stage fit the budgets as a whole, no call is refused on the way, since usage is never negative |
| `MultiAgentRun.StageRunner.ValidateResults` | src/specflow/runner_multi.py:764-796 | Results are accepted if and only if each names its agent, succeeded, meets its envelope schema and has an output object that the agent's output schema accepts; what is kept is the envelope with the output in the schema's form |
| `MultiAgentRun.ResultsPassed` | src/specflow/runner_multi.py:764-796 | Every result in the record of a run is what the agent's call returned on exactly the outputs of the stages before, with everything asked of it met and its output in the form its schema gives |
| `MultiAgentRun.AppendStage` | src/specflow/runner_multi.py:700-707 | One more finished stage keeps every record consistent with the overlay of the stages before it |
| `RunHandoffs.SendersAreLatest` | src/specflow/runner_multi.py:851-853 | The stage a handoff names is the last one the sender ran in, with the revision overrides |
| `RunHandoffs.EdgeIsCurrent` | src/specflow/runner_multi.py:851-855 | So the payload handed over is the sender's output in exactly that stage |
| `RunHandoffs.StageResolves` | src/specflow/runner_multi.py:284-433 | Handing over and running one more stage keeps every recorded handoff resolving |
| `RunHandoffs.PlayRetarget` | src/specflow/runner_multi.py:284-343 | What a run comes to up to its first review does not depend on a revision target |
| `MultiAgentRunner.Run.Execute` | src/specflow/runner_multi.py:281-438 | For arbitrary executors no illegal transition is attempted and the history is a legal path of one of the listed shapes; without a deadline the run completes if and only if its stages can be played within the budgets and a rejection can be answered; engine, history and controller count the revision made, the guard counts a rejection, and the counts agree exactly when a rejection is revised or there is none |
| `MultiAgentRunner.Run.Attempt` | src/specflow/runner_multi.py:281-438 | Without a deadline the run completes if and only if it can; a completed run passed its first review, or was rejected with no revision allowed, or revised once the agent the review named; its completion reason and revision_exhausted follow from the last verdict |
| `MultiAgentRunner.Run.Respond` | src/specflow/runner_multi.py:346-433 | A rejecting first review leads to a budget failure, an unknown target, no revision at all, or exactly one revision, each exactly when the policy, the registry and the replayed stages say so; the guard counts one either way |
| `MultiAgentRunner.Run.ReviseOnce` | src/specflow/runner_multi.py:362-431 | The revision runs the target, synthesis and review as stages 4 to 6 on the latest outputs and keeps the earlier stages; without a deadline it succeeds whenever the seven stages can be played |
| `MultiAgentRunner.Run.InitialPass` | src/specflow/runner_multi.py:282-343 | Up to the first review, every stage follows its handoffs and the state follows the stage; without a deadline it gets there whenever the four stages can be played |
| `MultiAgentRunner.StageReady` | src/specflow/runner_multi.py:846-857 | When a stage's turn comes, every declared dependency of its agents has an accepted output |
| `MultiAgentRunner.ReviewVerdict` | src/specflow/runner_multi.py:814-826 | The decision the runner reads is that of the last review stage |
| `MultiAgentRunner.EveryStateCanFail` | src/specflow/runner_multi.py:1113-1120 | From every state a run can be in when it fails, the transition to failed is legal |
| `RunOutcomes.CompletesMeans` | src/specflow/runner_multi.py:281-438 | Without a deadline a run completes if and only if its first review, reached with every stage played, passes; or rejects, names a known agent while the policy knows revisions, and that agent may not be revised or its one revision is reviewed with a decision |
| `RunOutcomes.StagePlays` | src/specflow/runner_multi.py:677-721 | A stage can be played if and only if every sender's output has a canonical form and a role, its agents may run side by side and accept their inputs, every call returns acceptable usage and a result that passes, and the sums with what was used before keep every budget and the retry reserve |
| `RunOutcomes.StageLeaves` | src/specflow/runner_multi.py:677-721 | A stage that is played adds one record, on the prior outputs of the stages before it and with a result of each of its agents, and uses one call per agent and exactly the tokens they report |
| `RunOutcomes.TargetNamed` | src/specflow/runner_multi.py:829-833 | The agent to revise is the one that the review agent's own answer names, as it stands, or the designer if it names none or only white space |
| `RunOutcomes.HandoffSays` | src/specflow/runner_multi.py:835-871 | Each field of a recorded handoff: sender, receiver, their schemas, the key of the sender's output in the artifact file, and the hashes of the requirement and of that output |
| `RevisionCounts.RejectUnrevised` | src/specflow/runner_multi.py:346-361 | For every policy with room for a review and every target it may not revise, a rejected run ends with one revision counted by the guard and none by the engine, and completes exactly when max_revisions is positive and the target exists |
| `RevisionCounts.ObligingReview` | src/specflow/runner_multi.py:284-345 | Such runs exist: with executors that answer everything the first review is reached and is what the review agent says |
| `RunTheorems.RunOwned` | src/specflow/runner_multi.py:281-545 | Without a deadline the run completes if and only if it can; a completed run's handoff log is exactly the listed deliveries, seven or twelve, each intact in the artifact map; it made six or nine calls; and it is a run of references in which nobody writes an envelope |
| `RunTheorems.HandoffsMatchArtifacts` | src/specflow/runner_multi.py:540-545 | Every recorded handoff names a key of the artifact map with the hash of exactly the value there, which still validates and is what the receiver's stage was given |
| `RunTheorems.AgentOutputs` | src/specflow/runner_multi.py:540-545 | The artifact map holds every result of every stage under its own key and nothing else |
| `RunTheorems.DeliveriesOfRun` | src/specflow/runner_multi.py:284-433 | The deliveries spelled out: the plan's edges, then review to target, the latest specialists to synthesis, and synthesis to review |
| `RunTheorems.CallsOfRun` | src/specflow/runner_multi.py:284-433 | A run makes six executor calls without a revision and nine with one |
| `RunTheorems.TopologyCompiles` | src/specflow/plan/planner.py:88-141 | The planner's fixed topology compiles, and to exactly the four stages the run goes through |
| `RunTheorems.TopologyEdges` | src/specflow/plan/planner.py:99-108 | The dependency table the runner works with is the compiled graph |
| `EnvelopeReferences.LogHoldsIffCareful` | src/specflow/runner_multi.py:700-707 | With envelopes shared by reference, the handoff log validates against the artifact map at every moment of a run if and only if nobody changes an envelope after it was handed over |
| `EnvelopeReferences.ValidatesIffUnchanged` | src/specflow/handoff/validator.py:63-113 | At any moment a recorded handoff validates against the artifact map if and only if the envelope under its key has the value it had when the handoff was built |
| `EnvelopeReferences.OneWriteBreaks` | src/specflow/coordinator/scheduler.py:141-150 | After any run, one write of another value to an envelope that was handed over is enough to break the log |
| `EnvelopeReferences.SentIsRecorded` | src/specflow/runner_multi.py:846-866 | What is handed over is the very envelope that the stage named by the handoff recorded |
| `EnvelopeReferences.ValueRunIsCareful` | src/specflow/runner_multi.py:700-707 | Every run over immutable envelopes is a run of references, with a new envelope per result and no writes, and with the same handoffs and results |
| `RepositoryTraversal.ValidatePatterns` | src/specflow/tools/repository_policy.py:163-183 | Patterns are accepted, each trimmed and with forward slashes, if and only if they are few enough and each is nonblank, at most 256 long, relative and free of parent steps; otherwise the error is that of the first bad one |
| `RepositoryTraversal.PatternsAreStable` | src/specflow/tools/repository_policy.py:163-183 | Validating a validated pattern changes neither it nor the outcome |
| `RepositoryTraversal.IterAllowedFiles` | src/specflow/tools/repository_policy.py:122-161 | A path is yielded if and only if it is a visible file, no link and not sensitive, that some included pattern, or none at all, and no excluded pattern matches; each once and in relative-path order; refused if and only if a pattern is bad or more file entries are visible than the limit |
| `RepositoryTraversal.WalkFiles` | src/specflow/tools/repository_policy.py:145-159 | The files of one directory: each is scanned once and kept exactly when no rule or pattern excludes it |
| `RepositoryTraversal.PushDirectories` | src/specflow/tools/repository_policy.py:140-144 | Pruning keeps exactly the directories that are neither ignored nor links |
| `RepositoryTree.EntriesAreVisible` | src/specflow/tools/repository_policy.py:132-145 | What a traversal comes across is every path all of whose proper ancestors are real directories that are not ignored |
| `PathNames.NormalizeShortens` | src/specflow/tools/repository_policy.py:205-221 | Normalisation never lengthens a path, removes every backslash, and keeps the length only of paths that were normal |
| `PathNames.NormalizeNormal` | src/specflow/tools/repository_policy.py:205-221 | A normal path normalises to itself or is refused |
| `PathNames.NormalizeRefuses` | src/specflow/tools/repository_policy.py:205-221 | Refused are exactly the blank and the rooted paths, and those with a parent step or with no name at all |
| `PathNames.JoinInjective` | src/specflow/tools/repository_policy.py:152-152 | Distinct paths have distinct relative strings |
| `RepositorySnapshot.RepositorySnapshot` | src/specflow/single_flight.py:57-113 | The stack traversal succeeds if and only if no more entries are visible than both limits, no linked project file is there, every evidence file resolves, and what is read of them adds up to at most 8 MiB; the sorted result holds exactly one record per evidence file, that of the file its path resolves to; directory order does not matter |
| `RepositorySnapshot.Inspect` | src/specflow/single_flight.py:71-86 | One entry is skipped, descended into, recorded or fatal exactly as the chain of tests says |
| `RepositorySnapshot.TotalCostWith` | src/specflow/single_flight.py:89-91 | The byte total does not depend on the order in which files are read |
| `TraversalTheorems.SnapshotAgreesWithWalk` | src/specflow/single_flight.py:57-113 | A successful snapshot names exactly the files the walk yields, each once and in order, if and only if no yielded path has surrounding white space or a backslash |
| `TraversalTheorems.SpaceIsLost` | src/specflow/single_flight.py:86-86 | A leading space is enough to break the agreement: one file is recorded twice and another not at all |
| `TraversalTheorems.ResolvesIntoEvidence` | src/specflow/single_flight.py:86-86 | Whatever a path resolves to, the walk yields too: a snapshot names no file outside the evidence |
| `TraversalTheorems.SnapshotIsDetermined` | src/specflow/single_flight.py:113-113 | The sorted records do not depend on the order of recording |
| `TraversalTheorems.SnapshotMeansWalk` | src/specflow/single_flight.py:71-74 | A snapshot that succeeds guarantees that the walk stays within its own scan limit |
| `TraversalTheorems.WalkIsDetermined` | src/specflow/tools/repository_policy.py:161 | The yielded list does not depend on the order of discovery |
| `TokenBudget.Apply` | src/specflow/token_budget/manager.py:48-83 | A context within budget is returned unchanged; otherwise the fewest sections that make it fit are removed, none of them of a higher priority than a kept one, nor of the same and later in the message, and the hash is computed anew; each refusal happens if and only if its stated condition holds |
| `TokenBudget.ValidatePolicy` | src/specflow/token_budget/manager.py:85-94 | A policy is accepted if and only if a nonnegative reserve leaves some of the tokens and a token has a character; the error is that of the first condition that fails |
| `TokenBudget.TrimSections` | src/specflow/token_budget/manager.py:112-133 | The loop removes the least prefix of the removal order that fits, or all of it, and keeps the rest in order |
| `TokenBudget.RemovalOrderIsOrdered` | src/specflow/token_budget/manager.py:143-149 | Every position once; of two sections the one with the lower priority in the policy, which is zero where it names none, goes first, and of equals the earlier |
| `TokenBudget.FitsIff` | src/specflow/token_budget/manager.py:96-110 | A context is within budget if and only if the characters of its messages, metadata and separators are at most the unreserved tokens times the characters per token |
| `TokenBudget.TokensIsCeiling` | src/specflow/token_budget/estimator.py:14-16 | The estimate is the least positive number of tokens that holds the characters |
| `TokenBudget.FurtherCutsFit` | src/specflow/token_budget/manager.py:112-141 | Once a cut fits every further removal fits too, so the least cut is the threshold |
| `TokenBudget.CutFitsIffEmptyDoes` | src/specflow/token_budget/manager.py:66-73 | Some cut fits if and only if the empty message does |
| `TokenBudget.SecondRefusalIff` | src/specflow/token_budget/manager.py:57-73 | Some policy refuses a context the second time if and only if the context has a message and a hash of fewer than 64 characters |
| `TokenBudget.LongHashIsNotDearer` | src/specflow/token_budget/manager.py:57-73 | With a hash of at least 64 characters, trimming everything never costs more than the base, and exactly as much with 64 |
| `TokenBudget.ShortHashIsRefused` | src/specflow/token_budget/manager.py:57-73 | An instance with a one-character hash: the base fits and the recomputed hash overflows |
| `TokenBudget.SplitUserMessage` | src/specflow/token_budget/manager.py:151-172 | Splitting loses no line and keeps their order: the groups are the grouping of the message's lines, cut in front of each line that opens a section |
| `TokenBudget.GroupLines` | src/specflow/token_budget/manager.py:151-168 | The loop over lines computes the grouping: nonempty groups, each named by its first line, cut exactly in front of the lines that open a section |
| `TokenBudget.GroupingIsUnique` | src/specflow/token_budget/manager.py:151-172 | There is only one such grouping |
| `TokenBudget.SplitIsUndone` | src/specflow/token_budget/manager.py:155-155 | Splitting into lines loses only line breaks: no line holds one, and putting them back gives the message, with CR LF as one break |
| `TokenBudget.DetectsFirst` | src/specflow/token_budget/manager.py:174-180 | A line opens the first section of the table one of whose markers the stripped line begins with, and none if there is none |
| `TokenBudget.JoinedSize` | src/specflow/token_budget/manager.py:183-184 | A joined message is as long as its texts and the line breaks between them |
| `LegacyWorkflow.AcceptsIffReachable` | src/specflow/workflow/engine.py:62-84 | A snapshot is reachable by transitions if and only if restoring accepts it and its reasons are stripped |
| `LegacyWorkflow.UnstrippedReasonIsAccepted` | src/specflow/workflow/engine.py:62-84 | Restoring does not look at reasons: it accepts one that no run produces |
| `LegacyWorkflow.AcceptedUpToReasons` | src/specflow/workflow/engine.py:62-84 | Apart from reasons restoring accepts nothing unreachable |
| `LegacyWorkflow.HistoriesAre` | src/specflow/workflow/engine.py:62-84 | The accepted snapshots are exactly those whose history goes down the chain from created to completed, numbered from one, possibly with a last step to failure once it has begun |
| `LegacyWorkflow.ValidateHistory` | src/specflow/workflow/engine.py:62-84 | The loop accepts exactly the contiguous, chained, legal histories that end in the current state |
| `LegacyWorkflow.WorkflowEngine.Transition` | src/specflow/workflow/engine.py:37-56 | A request has exactly the effect of the transition function, and is refused for a terminal state or an illegal move |
| `LegacyWorkflow.WorkflowEngine.Restore` | src/specflow/workflow/engine.py:32-35 | Restoring gives an engine in exactly the snapshot's state, or none |
| `LegacyWorkflow.RestoreAfterSnapshot` | src/specflow/workflow/engine.py:58-60 | Restoring a snapshot gives back the engine it was taken from |
| `StepExecutor.AgentExecutor.ExecuteNext` | src/specflow/executor/engine.py:79-112 | Exactly one step with exactly its transition: no step already completed runs again, a refusal changes nothing, the refusal for a repeated step never occurs, an interrupted handler leaves the step to be done, and the execution record carries the metadata, or the error type and redacted message, and the history |
| `StepExecutor.AgentExecutor.HandlersRunOnceIff` | src/specflow/executor/engine.py:79-112 | However an executor is driven, no handler runs twice if and only if no call was interrupted, by an exception that is not an `Exception`, and then followed by another |
| `StepExecutor.GoOnAfterInterruption` | src/specflow/executor/engine.py:98-103 | An executor asked to go on after an interruption does run the handler again |
| `StepExecutor.AgentExecutor.ExecuteUntilComplete` | src/specflow/executor/engine.py:114-122 | The handlers called are those that remain from the first state, each once and in order, all of them when the workflow completes; only the last can have been interrupted |
| `StepExecutor.RestoreAndExecute` | src/specflow/executor/engine.py:70-77 | Restored from a snapshot, an executor repeats no step that the history completed |
| `StepExecutor.StepsAreBehind` | src/specflow/executor/engine.py:200-207 | The completed steps of a history are exactly those of the states behind the current one |

## Left out

- HTTP, authentication, databases, MCP, command line, prompts and rendering: plumbing around the modelled parts.
- SHA-256 and canonical JSON: a digest is identified with its payload, that is, hashing is taken as injective.
- Redaction, sanitisation and schema validation: arbitrary functions of the agent and the value.
- Real threads, event timing and clocks: replaced by interleaved steps, and by a time-out or deadline that may strike at any moment. Timestamps, durations and random identifiers are not recorded.
- RunTheorems.RunOwned: the run's envelopes are values; runs in which they are shared and written are those of `EnvelopeReferences`, where handing over is one step, so that a write between building and checking a handoff does not arise, and where what executors make of a changed envelope is arbitrary.
- A claim's admission in separate steps: it happens under the coordinator's lock and is one step here. A direct run that meets it half-way can be refused a permit that the claim gives back, or count a newer sample before the claim's; claims take arbitrary samples, so the second case is covered except where one clock is assumed, and with at most one permit it cannot arise, because the claim or the owner it joins holds that permit.
- Exceptions that are not `Exception` (interrupts, cancellation) inside a multi-agent run, and in the step executor outside a handler. They are modelled for single flight and for step handlers.
- An asynchronous exception between the end of the claim's locked block and the start of its `try`: claims are atomic here.
- `prepare_run` and its key, settings parsing and dataclass field checks: single-branch checks; the models start from valid settings.
- Artifact writing, the `_COMPLETE` marker, manifests, traces and metrics after a run: they rest on the file system.
- Evidence collection, enrichment, fallback and retries: bounded loops beside the run.
- `is_sensitive_path` and case folding: arbitrary predicates shared by both traversals, so the agreement holds for any of them.
- File mutation during a snapshot, decoding and reading: each file has a size and a fixed result of reading its prefix.
- Semantic brief and effective plan hashes.
- RepositoryTraversal.IterAllowedFiles: paths and accepted patterns are compared by an arbitrary predicate; patterns are strings.
- MultiAgentRun.StageRunner.RunAndAccumulate: with a deadline the wall clock may refuse any stage at any time, so success is characterised without one; what holds of a success and of a failure is stated for both.
- Scheduler.Execute: executors are functions of the prior outputs, without the budgets that calls share; those are in `StageRunner.RunPool`, whose outcome without a deadline does not depend on the order of the calls either.
