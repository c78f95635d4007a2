# HAAO in Dafny

HAAO is an orchestrator that drives AI coding tickets through a state machine. Workers lease tickets, local
models write files under a retry budget, a patch language edits large files, and people approve, accept and
revert the results. This project models the parts whose correctness rests on more than one function and proves
what they are for.

## What is modelled

- **Scheduling** (`Tickets`, `Leases`, `TicketStore`, `LeaseSafety`, `Draining`, `Board`): the claim loop over a
  project's tickets, leases over an integer clock, the graph view. Active leases cover disjoint files over
  every run; ready tickets drain in topological order exactly when their dependencies allow it; scheduler and
  board agree.
- **Runner jobs** (`RunnerJobs`, `RunnerProtocol`): enqueue, lease, heartbeat, check, complete and release as
  methods of the job table, and every interleaving of them with a history of what happened. Check and write are
  separate steps.
- **Execution** (`StateMachine`, `ModelPolicy`, `RepoPaths`, `TargetContext`, `ContextBudget`,
  `ExecutionAttempt`, `ExecutionRun`, `ExecutionProperties`, `AttemptEndings`, `ExecutionLoop`): the retry and
  fallback loop with its exact bound, how a run ends by what its attempts wrote and their tests said, the
  isolation of attempts, and the context that follows the worktree; and exactly when one
  attempt can carry text over to the next one through the saved context (`ContextRefresh`, `WriterAbility`,
  `ContextCarryOver`).
- **SEARCH/REPLACE blocks** (`LineSplitting`, `PatchLanguage`, `PatchRoundTrip`, `MarkerLines`,
  `PatchApplication`, `Patchability`): a grammar with exactly one derivation for every response, the parser that
  follows it, the marker lines by their characters, printing, all-or-nothing application, and which files can be
  patched at all.
- **Lifecycle** (`Lifecycle`, `Endpoints`, `ExecutionLifecycle`, `CrashRecovery`): every writer of a ticket's
  status as one step, the gates that every way to done has to pass, and crash recovery.
- **Batches and bookkeeping** (`TicketNumbers`, `Renumbering`, `Confirmation`, `Paging`, `CloudUsage`, with
  `Graphs`, `TextOrder` and `Basics` beneath): renumbering a batch of proposed tickets, paging through event
  logs, and the drift of rounded costs.

A test run, a model's answer, a cancellation, git's success, the clock and the registry of running executions
are parameters. One `BEGIN IMMEDIATE` block is one atomic step, and so is one service call or endpoint, except
that the approval of a diff may also stop between its save and its move.
Functions that take part of their behaviour as a function value (`Measure`, `Markers`, `Config`, `Loop`) are
instantiated with the repository's own in `ESTIMATE`, `MARKERS`, `RepositoryConfig` and `LoopOf`.

## Where the code falls short of what it is for

Each of these is a lemma or a method's contract, with the exact condition where the code does meet the property.

- A renewal after expiry, leasing a named ticket, and splitting a leased ticket do not look at overlaps
  (`LeaseSafety.LateRenewalCanOverlap`, `SplitOfClaimedOverlaps`, from tickets that nobody has claimed; exact
  conditions: `RenewalKeepsDisjointIff`, `DirectLeaseKeepsDisjointIff`, `SplitKeepsDisjointIff`).
- With two snapshots of one target in the context, the refresh updates the last and the reader takes the first
  (`TargetContext.TwoSpellingsGoStale`; exact condition for one refresh: `RefreshIsCoherentIff`, for all runs:
  `ExecutionProperties.EveryDispatchIsCoherentIff`). The docstring at
  `orchestrator/execution_loop.py:1025-1030` promises snapshots that match the worktree without this condition.
- The same docstring says that refreshed contexts are not persisted. Recording cloud usage does persist them
  (`orchestrator/execution_loop.py:663-677`), and a file that the retry's worktree does not have keeps the text
  of the failed attempt (`ContextCarryOver.CarryOverHappens`; exact condition: `SameContextIff`).
- A patch that parses, for a target with a large snapshot but no file in the worktree, is not a write error: it
  ends the run with the ticket in progress (exact condition: `ExecutionAttempt.WriteTargetIsGuarded`).
- A batch with a dependency on an id that no ticket has can have that dependency captured by one of its own new
  ids (`Renumbering.CaptureMakesACycle`; exact condition: `InjectiveIff`).
- Confirmation is not atomic: a ticket that is invalid or whose files cannot be read leaves the ones before it
  created (`Confirmation.RequirementsFlow.Confirm`).
- The revert endpoint asks nothing of the status, so a ticket with a branch can be taken round its tests and its
  review a second time (exact conditions: `Lifecycle.DoneWithoutTestingIff`, `DoneWithoutReviewIff`).
- An approval that stops between its save and its move leaves a branch without a review, and a merge and a
  revert then lead to done (exact conditions: `Lifecycle.AllGatesIffReviewed` for one run, `GatesHoldIff` for
  all, `InterruptedDoneWithoutReviewIff` for one ticket).
- A refused acceptance can leave its mark on the ticket (exact condition: `Endpoints.RefusedAcceptanceMarksIff`),
  and the mark opens the pull-request gate later (`MarkOpensTheGate`).
- A ticket that a crash recovery has repaired once is never noted again (`Lifecycle.RepairedOnceIsPassedOver`).
- When no routed model resolves, the last resort of the fallback chain takes the loaded models without asking
  whether they are local (exact condition: `ModelPolicy.ChainIsLocalIff`).
- A negative token budget is exceeded by an empty context (`ContextBudget.WithinBudgetIff`).

## Model

| member | source | states |
|---|---|---|
| TicketStore.TicketRepository.ClaimNextReadyTicket | orchestrator/db/sqlite.py:865-922 | The claim goes to the first ticket that is ready, not under another worker's unexpired lease, whose dependency ids are all those of done tickets (merged, if they have a branch), and whose files no other active lease names; it is leased for max(1, ttl) seconds and nothing else changes. Otherwise the reason is told by the same columns. |
| Leases.FirstClaimable | orchestrator/db/sqlite.py:889-908 | The row found is claimable (ready, not held by another worker, dependencies satisfied, no overlap) and no earlier row is. |
| Leases.BlockedIds | orchestrator/db/sqlite.py:900-914 | Ids are reported exactly when some ticket is held back by overlap alone. |
| Leases.SomeoneWaits | orchestrator/db/sqlite.py:896-899 | True exactly when some candidate's dependencies are not satisfied. |
| Leases.ClaimTakesTheFirst | orchestrator/db/sqlite.py:902-908 | A claim succeeds exactly when a claimable row exists, and replaces that row and no other. |
| Leases.ClaimIsByTheColumns | orchestrator/db/sqlite.py:1067-1100 | The claim defined by the scheduler's conditions is the one told by statuses, lease and git columns, dependency ids and file names of the rows. |
| TicketStore.TicketRepository.LeaseTicket | orchestrator/db/sqlite.py:826-863 | Leases one named ready ticket unless another worker's lease on it has not expired: exactly then, until max(1, ttl) seconds from now, and no other row changes. |
| TicketStore.TicketRepository.RenewLease | orchestrator/db/sqlite.py:927-950 | Only the recorded worker renews, expired or not; everything else stays. |
| TicketStore.TicketRepository.ReleaseLease | orchestrator/db/sqlite.py:952-969 | Released by the recorded worker, or by a caller who names none. |
| TicketStore.TicketRepository.Save | orchestrator/db/sqlite.py:754-779 | Replaces exactly the row with the ticket's id, row by row; reports a missing row. |
| TicketStore.OverlappingTicketIds | orchestrator/db/sqlite.py:3111-3119 | Not empty exactly when another active ticket shares a target file. |
| TicketStore.OverlapMeansConflict | orchestrator/db/sqlite.py:1067-1081 | The overlap computed from the list of active leases is the conflict condition on the table. |
| Tickets.GetAfterPut | orchestrator/models/ticket.py:151-160 | Reading a ticket back after a save gives what was saved, with the status abandoned if it carries that flag; every other id reads as before. |
| LeaseSafety.LeasesStayDisjoint | orchestrator/db/sqlite.py:865-922 | Over every run of claims, releases, renewals before expiry, clock advance, creations, splits of tickets without an active lease, and saves that keep lease and target files, active leases cover pairwise disjoint files. |
| LeaseSafety.StepsAreByTheColumns | orchestrator/api.py:2675-2706 | What the steps of these runs do to the rows, column by column: claim, release, renewal, save, creation, and a split into children that copy lease and git columns. |
| LeaseSafety.GrantKeepsDisjointIff | orchestrator/db/sqlite.py:900-908 | Giving a ticket a lease keeps the leases disjoint exactly when the ticket has no conflict. |
| LeaseSafety.RenewalKeepsDisjointIff | orchestrator/db/sqlite.py:927-950 | A renewal, late or not, keeps the leases disjoint exactly when the ticket has no conflict at that time. |
| LeaseSafety.DirectLeaseKeepsDisjointIff | orchestrator/db/sqlite.py:826-863 | The same exact condition for leasing a named ticket, which the code does not check. |
| LeaseSafety.SplitKeepsDisjointIff | orchestrator/api.py:3968-4007 | Splitting a ticket keeps the leases disjoint exactly when its own lease is not active or it has no target files: children copy the lease. |
| LeaseSafety.SplitOfClaimedOverlaps | orchestrator/api.py:2675-2706 | A ticket that is claimed and then split, before its worker starts on it, leaves overlapping active leases. |
| LeaseSafety.LateRenewalCanOverlap | orchestrator/db/sqlite.py:927-950 | From any two unclaimed tickets that share a file, a claim, a save as in progress, time and a second claim lead to disjoint leases that a late renewal makes overlap. |
| Draining.DrainsIffAcyclic | orchestrator/db/sqlite.py:865-922 | Repeating claim, finish, release, each round by any worker at any later time, takes every ready ticket exactly when each dependency is satisfied or ready and the ready tickets' dependencies have no cycle. |
| Draining.DrainOrder | orchestrator/db/sqlite.py:1083-1100 | In every drain, whoever claims and whenever, a ticket is claimed only after each of its unsatisfied dependencies: a linear extension of the dependency order. |
| Draining.DrainClaims | orchestrator/db/sqlite.py:865-922 | Every claimed ticket was ready and ends done and merged; no other ticket changes. |
| Draining.DrainClaimsOnce | orchestrator/db/sqlite.py:865-922 | No ticket is claimed twice. |
| Draining.DrainLength | orchestrator/db/sqlite.py:865-922 | A drain makes one successful claim for each ticket that stops being ready. |
| Draining.DrainEnds | orchestrator/db/sqlite.py:909-922 | The claim after the last one of a drain fails. |
| Draining.RoundFinishesTheFirst | orchestrator/db/sqlite.py:889-908 | One claim, save and release finishes exactly the first claimable row. |
| Board.TicketsGraph | orchestrator/api.py:1554-1584 | The loop builds the nodes and edges of all tickets in order, and each node shows its ticket as it is. |
| Board.EdgesAreDependencies | orchestrator/api.py:1565-1569 | An edge is shown exactly for a dependency named by one of the tickets. |
| Board.BoardState | orchestrator/api.py:3924-3944 | The state shown for a ready ticket in terms of what the scheduler checks. |
| Board.BoardIsByTheColumns | orchestrator/api.py:3924-3944 | Terminal, waiting, conflict, ready and leased are shown exactly under the conditions on statuses, dependency rows (done, and merged if they have a branch), leases and files. |
| Board.BoardMatchesScheduler | orchestrator/api.py:3924-3944 | For a worker, ready, conflict and waiting on the board are exactly claimable, held by overlap and waiting in the scheduler, once leases of other workers are set aside. |
| Board.ClaimFollowsTheBoard | orchestrator/db/sqlite.py:889-922 | A claim takes the oldest ticket shown as ready and not leased by someone else, and fails exactly when the board shows none. |
| Board.SkipReasonFollowsTheBoard | orchestrator/db/sqlite.py:909-922 | The reason for an unsuccessful claim is conflict exactly when one is shown, else waiting exactly when one waits. |
| Board.ConflictIdsFollowTheBoard | orchestrator/db/sqlite.py:909-916 | The reported conflict ids are the tickets shown as conflicting, each once. |
| RunnerJobs.RunnerRepository.EnqueueJob | orchestrator/db/sqlite.py:1974-2004 | Refused for a taken id; else one row more, queued, with no owner, no expiry and an empty result, in age order. |
| RunnerJobs.RunnerRepository.LeaseNextJob | orchestrator/db/sqlite.py:2006-2040 | Leases the first job of the runner's workspace that is queued or whose lease has run out, until max(1, ttl) seconds from now, and changes no other; none is returned and nothing changes when there is none. |
| RunnerJobs.RunnerRepository.Heartbeat | orchestrator/db/sqlite.py:1949-1972 | Row by row: a leased job of the workspace that names the runner gets the new expiry, expired or not; no other row changes. |
| RunnerJobs.RunnerRepository.CompleteJob | orchestrator/db/sqlite.py:2042-2072 | Succeeds exactly when workspace and owner match, whatever status and expiry; that job then holds the result and the status passed in, its other columns and all other rows stay. |
| RunnerJobs.RunnerRepository.ReleaseJob | orchestrator/db/sqlite.py:2074-2093 | Succeeds exactly for the owner of a leased job, which is queued again. |
| RunnerJobs.RunnerRepository.RequireActiveLease | orchestrator/db/sqlite.py:2095-2107 | Passes exactly for the owner of an unexpired lease. |
| RunnerJobs.LeaseIsFifo | orchestrator/db/sqlite.py:2010-2036 | The job leased is the oldest grantable one; none is found only if every open job of the workspace has an unexpired lease. |
| RunnerJobs.InsertKeepsOrder | orchestrator/db/sqlite.py:2015-2017 | New rows keep the (created_at, id) order. |
| RunnerProtocol.RunsAreSafe | orchestrator/db/sqlite.py:1949-2107 | Over every interleaving: grants only after none, a release or an expiry; only the holder extends, releases, completes; queued, leased and terminal rows have their columns' shape; a terminal job's owner is its latest grantee. |
| RunnerProtocol.GrantsAreSeparated | orchestrator/db/sqlite.py:2020-2036 | Between two grants of a job, its last event is a release or a lease that has run out by then. |
| RunnerProtocol.OnlyLatestGranteeCompletes | orchestrator/db/sqlite.py:2042-2072 | However old its check, a completion is by the runner the job was last granted to. |
| RunnerProtocol.CompletionIsFinal | orchestrator/db/sqlite.py:2051-2065 | After a completion only completions by the same runner happen to the job. |
| RunnerProtocol.CompletionsWereChecked | orchestrator/api.py:2339-2358 | With a check before every write, each completion follows a moment at which its runner held an unexpired lease, and that runner is still the latest grantee. |
| RunnerProtocol.StepsAreByTheColumns | orchestrator/db/sqlite.py:1949-2107 | What each step does to the job rows, the clock, the passed checks and the history, column by column. |
| RunnerProtocol.RunKeepsJobs | orchestrator/db/sqlite.py:1974-2093 | No job is lost, and a terminal one keeps status and owner, over any run. |
| RunnerProtocol.RunKeepsOrder | orchestrator/db/sqlite.py:2015-2017 | The rows stay in age order over any run. |
| RunnerProtocol.ResultIsTheLastWritten | orchestrator/db/sqlite.py:2042-2072 | Over every interleaving, a terminal job holds the result of the last write by the runner it was granted to last. |
| StateMachine.TicketStateService.Move | orchestrator/state_machine.py:122-132 | A transition of the table is applied to the stored ticket, which changes its status only; a missing ticket or any other transition changes nothing. |
| StateMachine.TicketStateService.RecordFailure | orchestrator/state_machine.py:134-137 | The recorded failure is applied to the stored ticket, or nothing changes. |
| StateMachine.RecordTestFailure | orchestrator/state_machine.py:75-110 | One attempt more; retried within the budget, blocked and escalated beyond it; refused outside testing. |
| StateMachine.BudgetIsExact | orchestrator/state_machine.py:84-110 | After n further failures a ticket is blocked exactly when n exceeds the attempts left, and the count is exact. |
| ModelPolicy.LocalModelFallbackChain | orchestrator/model_policy.py:109-121 | The chain holds, each once, the models that the routed ids and the default resolve to, and nothing else; when none resolves, it is the loaded models in order of their names. |
| ModelPolicy.NextLocalFallbackModel | orchestrator/model_policy.py:124-135 | The model behind the first occurrence in the chain of what the current one resolves to, or of itself when it does not; the first of the chain when it is not in it; none behind the last. |
| ModelPolicy.RoutedModelsAreInTheChain | orchestrator/model_policy.py:109-121 | Every routed model that resolves has its resolution in the chain, and so has the default; then nothing else is in it. |
| ModelPolicy.RoutedModelsComeInOrder | orchestrator/model_policy.py:109-121 | They come in the order routed and ahead of the default: what is new at its place comes after all of the places before it. |
| ModelPolicy.ResolveFindsTheModel | orchestrator/model_policy.py:55-80 | Only an id with a visible character that is no cloud model resolves: to itself when it is loaded, else to the first loaded local model with its bare name; it fails to resolve exactly when there is none. |
| ModelPolicy.ResolveTwice | orchestrator/model_policy.py:55-80 | Resolving is idempotent exactly when the resolved id is not blank. |
| ModelPolicy.BareModelIsTheLastPart | orchestrator/model_policy.py:48-52 | The bare name is what follows the last slash. |
| ModelPolicy.LoadedIdsAreNotCloud | orchestrator/model_policy.py:28-40 | An id without a colon that is no legacy alias is never a cloud model. |
| ModelPolicy.CloudModelIff | orchestrator/model_policy.py:28-40 | A cloud model is one of the three aliases, or has one of the seven vendors before its first colon, in any case and with white space around it. |
| ModelPolicy.BlankIff | orchestrator/model_policy.py:35-68 | An id counts as blank exactly when all its characters are white space. |
| ModelPolicy.ProviderEndsAtTheColon | orchestrator/model_policy.py:39-40 | The provider is the part before the first colon, and there is one exactly when there is a colon. |
| ModelPolicy.SortNamesSorts | orchestrator/model_policy.py:121 | The last resort is a sorted permutation of the loaded models. |
| TextOrder.AtMostIff | orchestrator/model_policy.py:121 | The order of names: a start of the other, or the smaller character at the first difference. |
| ModelPolicy.ChainIsSound | orchestrator/model_policy.py:109-121 | No model is in the chain twice; each is loaded and stands for itself. |
| ModelPolicy.ChainIsLocalIff | orchestrator/model_policy.py:109-121 | All models of the chain are local exactly when some routed model resolves or no loaded one is a cloud model. |
| ModelPolicy.OrdinaryChainIsLocal | orchestrator/model_policy.py:28-40 | With loaded ids that have no colon and are no legacy alias, the repository's test finds no cloud model in the chain. |
| ModelPolicy.FallbackAdvances | orchestrator/model_policy.py:124-135 | Falling back takes the first remaining model and leaves exactly the others. |
| ModelPolicy.RemainingAreNew | orchestrator/model_policy.py:124-135 | The models still to come are different from each other and from the current one under either of its names. |
| RepoPaths.NormalizeTwice | orchestrator/execution_safety.py:26-30 | Normalizing a path is idempotent. |
| RepoPaths.SameNormalForm | orchestrator/execution_safety.py:26-30 | Two paths have the same normal form exactly when they have the same root and the same parts. |
| RepoPaths.RootByPrefix | orchestrator/execution_safety.py:26-27 | Exactly two leading slashes are a root of their own; one, or three and more, are the plain root. |
| RepoPaths.PartsOfOne | orchestrator/execution_safety.py:26-27 | A text without a slash is one part, and none if it is empty or a dot. |
| RepoPaths.PartsAtSlash | orchestrator/execution_safety.py:26-27 | At every slash the parts of both sides are put together. |
| RepoPaths.CanonicalPathStays | orchestrator/execution_safety.py:26-30 | Parts with single slashes between them, behind any root, are their own normal form; the empty path is the dot. |
| TargetContext.RefreshTargetContext | orchestrator/execution_loop.py:1019-1061 | The loop over targets, with its path index, computes the refresh defined on the list of snapshots. |
| TargetContext.ContentIsTheFirst | orchestrator/execution_loop.py:989-994 | The content shown for a target is that of the first snapshot with its normalized path, and empty without one. |
| TargetContext.RefreshIsCoherent | orchestrator/execution_loop.py:1019-1061 | After a refresh, every target with at most one snapshot has its worktree content in the context. |
| TargetContext.RefreshIsCoherentIff | orchestrator/execution_loop.py:989-994 | That holds for every possible worktree exactly when the context has at most one snapshot of the target: with two, the refresh updates the last and the reader takes the first. |
| TargetContext.TwoSpellingsGoStale | orchestrator/execution_loop.py:1031-1060 | One file listed as itself and with a leading dot and slash: after a refresh the loop still reads the old text. |
| TargetContext.WriteKeepsCoherent | orchestrator/execution_loop.py:374-382 | Writing one target and refreshing it keeps every target coherent. |
| ContextBudget.Inject | orchestrator/context/injector.py:21-88 | The first unreadable target decides the error, by path and kind. Otherwise tokens used are what all files want, capped by the budget; every target is fitted into what earlier ones leave, cut to exactly four characters a token, and related files follow while something is left. |
| ContextBudget.TargetsConserve | orchestrator/context/injector.py:26-50 | After any number of targets, used and remaining add up to the budget, and what remains is the budget less all they wanted. |
| ContextBudget.UseIsCapped | orchestrator/context/injector.py:53-75 | The tokens used are what all files want together, capped by the budget. |
| ContextBudget.WithinBudgetIff | orchestrator/context/injector.py:24-88 | The reported estimate stays within the budget exactly when the budget is not negative. |
| ContextBudget.TargetGetsItsShare | orchestrator/context/injector.py:33-48 | Each target's snippet depends only on the budget and on what earlier targets wanted. |
| ContextBudget.NothingAfterTruncation | orchestrator/context/injector.py:33-50 | Among target files: snippets are prefixes; a cut one uses exactly the rest of the budget, and no token is spent after it. |
| ContextBudget.NoTokenAfterTruncation | orchestrator/context/injector.py:24-88 | In the whole result, whatever the budget: after the first cut snippet no token is spent on target or related files, and no related file is added. |
| ContextBudget.RelatedGetTheirShares | orchestrator/context/injector.py:52-75 | Related files are taken exactly as long as something is left, each with its share. |
| ContextBudget.EstimateIsExact | orchestrator/context/injector.py:99-111 | Cutting keeps a prefix, and a text over the limit is cut to exactly the limit. |
| ContextBudget.EstimateByLength | orchestrator/context/injector.py:99-102 | n tokens are counted exactly for 4n to 4n + 3 characters, one already from the first character, none for the empty text. |
| ContextBudget.TruncateToTokenBudget | orchestrator/context/injector.py:105-111 | The longest start of the text within four characters a token of the budget. |
| ExecutionAttempt.PatchModeIff | orchestrator/execution_loop.py:294-300 | With the default limits a target is patched instead of rewritten exactly when its snapshot has 4100 characters or more. |
| ExecutionAttempt.WriteTargetIsGuarded | orchestrator/execution_loop.py:364-375 | A file crashes the run exactly when it has a large snapshot, is missing from the worktree, and the answer parses; a patch keeps 60% of a large file; nothing outside the worktree is written. |
| ExecutionAttempt.WrittenIff | orchestrator/execution_loop.py:364-375 | A text is written exactly when it is the patch of the existing file, or the answer without its fence and not empty in an existing directory, inside the worktree. |
| ExecutionAttempt.RepositoryConfigIsValid | orchestrator/execution_loop.py:124-146 | The file writer and the patch mode write only targets that stay inside the worktree. |
| ExecutionRun.LoopIsValid | orchestrator/execution_loop.py:486-526 | Attempts, failures and fallback of the execution loop satisfy what the run's proofs need: every failure blocks the ticket or makes progress in (models left, retries left). |
| ExecutionLoop.ExecutionLoop.RunTicketInWorktree | orchestrator/execution_loop.py:268-484 | The loop terminates by (models left, retries left), and its ending, stored ticket, worktree and attempts are those of the specified run; no other ticket changes. |
| ExecutionLoop.ExecutionLoop.RunTicket | orchestrator/execution_loop.py:184-262 | Refused unless the ticket is backlog, ready or in progress. The run ends with the diff ready exactly when its last attempt wrote every target, was not cancelled and its tests passed; every earlier attempt had a write error or failing tests. The ticket is then diff pending, blocked, or after a cancellation ready with no attempts; no other row changes. |
| AttemptEndings.RunEndsByItsAttempts | orchestrator/execution_loop.py:386-484 | The same for every specified run, told by the environment's answers, cancellations and test results and by what the attempts' dispatches wrote. |
| AttemptEndings.TestedTreeStays | orchestrator/execution_loop.py:434-462 | After a run that passed, the worktree is what the tests of its last attempt left. |
| ExecutionLoop.ExecutionLoop.RunAttempt | orchestrator/execution_loop.py:277-420 | One pass of the loop: reset before a retry, refresh, generation, tests. |
| ExecutionLoop.ExecutionLoop.GenerateFiles | orchestrator/execution_loop.py:291-384 | The loop over target files: stops at the first failure, feeds written files back into the context, saves the ticket when usage is reported. |
| ExecutionLoop.ExecutionLoop.HandleFailure | orchestrator/execution_loop.py:416-484 | Falls back when the budget is used up and a model remains, else records the failure. |
| ExecutionProperties.AttemptsAreBounded | orchestrator/execution_loop.py:277-526 | At most (budget - attempts + 1) + k * (budget + 1) attempts for k later models, none twice; passing keeps the count within the budget; blocking comes only after all of them, on the last model, with count budget + 1. |
| ExecutionProperties.RunFollowsThePlan | orchestrator/execution_loop.py:277-526 | The attempts of a run are a prefix of its plan, and a run that ends blocked has used all of it. |
| ExecutionProperties.FailingRunBlocks | orchestrator/execution_loop.py:277-526 | A run that is never cancelled and whose attempts all fail ends blocked, so the bound is reached. |
| ExecutionProperties.ScheduleLength | orchestrator/execution_loop.py:486-505 | The length of the plan, exactly. |
| ExecutionProperties.ScheduleHasNoRepeats | orchestrator/model_policy.py:124-135 | With different models no attempt is planned twice: each model has one unbroken stage. |
| ExecutionProperties.EveryAttemptStartsClean | orchestrator/execution_loop.py:277-287 | Every attempt, retry or first of a fallback model, starts from the files at HEAD. |
| ExecutionProperties.EveryDispatchIsCoherent | orchestrator/execution_loop.py:291-382 | At every dispatch of every attempt, each existing target is shown as it is in the worktree, provided it has at most one snapshot. |
| ExecutionProperties.EveryDispatchIsCoherentIff | orchestrator/execution_loop.py:291-382 | All dispatches of all runs, over every repository content and every environment, show the targets as they are in the worktree exactly when the ticket's context has at most one snapshot of each target. |
| ContextCarryOver.SameContextIff | orchestrator/execution_loop.py:277-484 | All attempts of every run of a ticket begin with the same context, unless it has a second attempt and some target before the last one is missing at HEAD and can be written, as can every target before it. |
| ContextCarryOver.AttemptsShowTheSameContext | orchestrator/execution_loop.py:283-287 | In any one run: without usage, or when nothing can be carried over, all attempts begin with the ticket's context refreshed from HEAD. |
| ContextCarryOver.CarryingShowsAnotherContext | orchestrator/execution_loop.py:663-693 | Otherwise there is a run whose second attempt starts from HEAD, without that target's file, and is shown a text for it that the first context did not have. |
| ContextCarryOver.CarryOverHappens | orchestrator/execution_loop.py:663-693 | A concrete ticket, repository and sequence of answers for which that happens. |
| ContextRefresh.RefreshTwice | orchestrator/execution_loop.py:1019-1061 | Refreshing twice from the same worktree is refreshing once. |
| ContextRefresh.RefreshForgets | orchestrator/execution_loop.py:1019-1061 | What was written to a target is undone by a later refresh from a worktree that has the target. |
| ContextRefresh.RefreshLeavesMissing | orchestrator/execution_loop.py:1043-1048 | A refresh leaves the last snapshot of a path that the worktree does not have. |
| WriterAbility.CanWriteIff | orchestrator/execution_loop.py:364-375 | Some answer writes a target exactly when it lies inside the worktree and, with a small snapshot, its directory exists or, with a large one, its file exists and holds a searchable text exactly once. |
| WriterAbility.WriterIsAble | orchestrator/execution_loop.py:879-882 | Only such targets are written, and an empty answer is a write error whatever the file and its snapshot. |
| Patchability.PatchableIff | orchestrator/execution_loop.py:879-913 | Some answer can be applied to a file exactly when some text without divider lines occurs in it exactly once. |
| PatchLanguage.ParseSearchReplaceBlocks | orchestrator/execution_loop.py:941-981 | The index-driven parser returns exactly what the grammar's derivation gives, errors included. |
| MarkerLines.DividerIff | orchestrator/execution_loop.py:932-933 | A line divides exactly when it is seven equals signs with white space around them. |
| MarkerLines.OpeningIff | orchestrator/execution_loop.py:927-929 | A line opens a block exactly when, after white space, it starts with the seven arrows and holds the keyword behind them. |
| MarkerLines.ClosingIff | orchestrator/execution_loop.py:936-938 | The same for the closing line. |
| MarkerLines.OneBlockParsesIff | orchestrator/execution_loop.py:941-981 | A block in the prompt's format parses to itself exactly when its search text is not empty and has no such divider line, its replacement has no such closing line, and both break at newlines only. |
| MarkerLines.UnderlinesSurvive | orchestrator/execution_loop.py:932-933 | Headings underlined with eight or more equals signs can be searched for and put in. |
| LineSplitting.SplitLinesIff | orchestrator/execution_loop.py:942 | Splitting a response gives the one list of lines of which each ends with a line break, a carriage return and newline being one, and the last may do without. |
| LineSplitting.SpaceByCodePoint | orchestrator/execution_loop.py:927-942 | The code points of line breaks and white space. |
| PatchLanguage.DerivationExists | orchestrator/execution_loop.py:941-981 | Every list of lines has a derivation in the block grammar. |
| PatchLanguage.DerivationIsUnique | orchestrator/execution_loop.py:941-981 | It has only one. |
| PatchLanguage.ParserFollowsTheGrammar | orchestrator/execution_loop.py:941-981 | The parser's result is the outcome of that derivation, for results and errors. |
| PatchLanguage.ErrorNamesTheBlock | orchestrator/execution_loop.py:953-979 | An error names the block behind the complete ones, counted from 1, and what it lacks. |
| PatchLanguage.BlockCountBound | orchestrator/execution_loop.py:947-975 | Four lines at least for every block parsed. |
| PatchRoundTrip.PrintThenParse | orchestrator/execution_loop.py:927-981 | Printing any printable blocks in any valid style, with any noise around them, and parsing returns exactly those blocks. |
| PatchRoundTrip.PromptStyleIsValid | orchestrator/execution_loop.py:855-868 | The format given to the model is such a style. |
| PatchRoundTrip.BlockRoundTripsIff | orchestrator/execution_loop.py:941-981 | A block survives printing and parsing exactly when it is printable. |
| PatchRoundTrip.ParsedBlocksArePrintable | orchestrator/execution_loop.py:960-975 | Everything the parser returns is printable. |
| PatchRoundTrip.ReprintingKeepsTheMeaning | orchestrator/execution_loop.py:941-981 | Printing what was parsed and parsing again gives the same blocks. |
| PatchRoundTrip.FinalNewlineIsOptional | orchestrator/execution_loop.py:942 | A newline after a response that is not empty and does not end in a line break makes no difference to its lines. |
| PatchApplication.CountOccurrences | orchestrator/execution_loop.py:916-924 | The count is the number of all match positions, overlapping ones included. |
| PatchApplication.OneMatchIffOneSplit | orchestrator/execution_loop.py:885-888 | The count is one exactly when the text splits around the search text in one way only. |
| PatchApplication.RewritesIff | orchestrator/execution_loop.py:885-901 | A block rewrites a text exactly when it has one match, and then to what replacing the first occurrence gives. |
| PatchApplication.RewritingIsReversible | orchestrator/execution_loop.py:885-901 | Swapping search and replacement undoes a block whenever the replacement is then unambiguous. |
| PatchApplication.TextFile.ApplySearchReplaceBlocks | orchestrator/execution_loop.py:879-913 | All or nothing: the file becomes the patched text, or an error is returned and it is unchanged. |
| PatchApplication.PatchAppliesIff | orchestrator/execution_loop.py:879-913 | A response applies exactly when it parses, its blocks rewrite one match each in turn, none of them covers 70% of the lines of a file of 30 or more while halving its own text, and of 400 characters or more 60% are kept. |
| PatchApplication.DestructiveIff | orchestrator/execution_loop.py:890-900 | The guard on one block, with lines counted as the places that hold a newline. |
| PatchApplication.FoldMeansRewritingAll | orchestrator/execution_loop.py:884-901 | The left-to-right fold is a chain of single rewritings, and nothing else. |
| PatchApplication.PatchedLength | orchestrator/execution_loop.py:903-911 | The new length is the old one plus each block's difference, and at least 60% for files of 400 characters or more. |
| PatchApplication.FoldErrorNamesTheBlock | orchestrator/execution_loop.py:885-900 | An error about block k means that the blocks before it applied and gave the text on which k fails for the stated reason. |
| CrashRecovery.CrashRecoveryService.RecoverOrphanedExecution | orchestrator/crash_recovery.py:34-55 | Row by row: an unregistered ticket in testing, or in progress without an earlier note, goes back to in progress with the note; no other row changes, and exactly their ids are returned. |
| CrashRecovery.RecoveryIsAFixpoint | orchestrator/crash_recovery.py:34-96 | No unregistered ticket stays in testing, registered ones are untouched, and a second pass changes and finds nothing. |
| Lifecycle.RepairedOnceIsPassedOver | orchestrator/crash_recovery.py:77-82 | A ticket repaired once is, whatever happens to it afterwards, passed over by every later recovery that finds it in progress. |
| Lifecycle.DoneMeansAllGates | orchestrator/state_machine.py:10-30 | Every run that takes a fresh ticket to done without an interrupted approval has passed in progress, testing, diff pending, review and awaiting acceptance in this order, whatever else happened in between. |
| Lifecycle.DoneMeansAllGatesButReview | orchestrator/state_machine.py:10-30 | With interrupted approvals it has passed all of these but the review. |
| Lifecycle.AllGatesIffReviewed | orchestrator/state_machine.py:10-30 | A run to done, interrupted or not, has passed all gates in order exactly when it entered review at all. |
| Lifecycle.GatesHoldIff | orchestrator/diff_review.py:68-77 | All runs to done pass all gates exactly if the approval's save and move are not interrupted. |
| Lifecycle.MergedMeansReviewed | orchestrator/diff_review.py:40-82 | A merge record means that the ticket passed testing and diff pending and, if no approval was interrupted, review. |
| Lifecycle.DoneWithoutTestingIff | orchestrator/api.py:3050-3070 | A ticket can get to done without entering testing again exactly when it is not abandoned and is past its tests, or has a branch with a base, or a merge to revert. |
| Lifecycle.DoneWithoutReviewIff | orchestrator/api.py:3050-3070 | Without interruptions, a ticket can get to done without entering review again exactly when it is not abandoned and is past its review, or has a branch with a base, or a merge to revert. |
| Lifecycle.InterruptedDoneWithoutReviewIff | orchestrator/diff_review.py:68-77 | With an approval that stops between its save and its move, every ticket that is not abandoned can. |
| Lifecycle.StepKeepsGated | orchestrator/git_flow.py:81-107 | Every step keeps status and git metadata within the gates passed so far. |
| Lifecycle.StepsByTheStatuses | orchestrator/api.py:2675-3076 | From which statuses each step is taken, what git must allow, and what it leaves in status, attempts, git columns and flags; everything else stays. |
| ExecutionLifecycle.RunTicketTakesSteps | orchestrator/execution_loop.py:184-262 | What a whole run of the execution loop leaves in the ticket's row is reached from what it found there by lifecycle steps. |
| Endpoints.ServedTakesTheStep | orchestrator/db/sqlite.py:754-779 | A served request makes the stored ticket the next one of its life and changes no other. |
| Endpoints.TicketEndpoints.MoveTicket | orchestrator/api.py:2546-2557 | A legal move, or 404 or 409 and no change. |
| Endpoints.TicketEndpoints.AcceptTicket | orchestrator/api.py:2592-2622 | With a provider configured it needs a verified run, a ticket awaiting acceptance or accepted before, and a delivered pull request, and otherwise changes nothing; then the acceptance is saved, and stays if the move to done is refused. |
| Endpoints.TicketEndpoints.RejectTicket | orchestrator/api.py:2647-2672 | The rejection is saved, and stays if the move back to backlog is refused. |
| Endpoints.TicketEndpoints.ApproveTicket | orchestrator/api.py:2560-2589 | Approval and model are saved, and stay if the move to ready is refused. |
| Endpoints.DecisionTakesTwoSteps | orchestrator/api.py:2614-2620 | Recording a decision and moving are two lifecycle steps, of which the second may be refused. |
| Endpoints.RefusedAcceptanceMarksIff | orchestrator/pr_flow.py:344-356 | An acceptance that is not granted marks the ticket as accepted exactly when no provider is configured and the ticket was neither awaiting acceptance nor accepted before. |
| Endpoints.MarkOpensTheGate | orchestrator/pr_flow.py:344-356 | A verified ticket with such a mark passes the pull-request gate later, whatever its status. |
| Endpoints.TicketEndpoints.ApproveDiff | orchestrator/diff_review.py:40-82 | Two saves that together record branch and base and move to review. |
| Endpoints.TicketEndpoints.RejectDiff | orchestrator/diff_review.py:84-103 | Attempts cleared and back in progress. |
| Endpoints.TicketEndpoints.ReviewTicket | orchestrator/review_flow.py:42-83 | The verdict decides between awaiting acceptance and backlog; refused outside review. |
| Endpoints.TicketEndpoints.RetryTicket | orchestrator/api.py:2815-2836 | From blocked or backlog to ready with no attempts. |
| Endpoints.TicketEndpoints.EscalateTicket | orchestrator/api.py:2855-2869 | Blocked from any status. |
| Endpoints.TicketEndpoints.CancelTicket | orchestrator/api.py:2902-2935 | A registered execution is only signalled; else a live ticket becomes ready. |
| Endpoints.TicketEndpoints.RerunTicket | orchestrator/api.py:2939-2987 | Refused while registered; else ready with no attempts, from any status. |
| Endpoints.TicketEndpoints.AbandonTicket | orchestrator/api.py:2751-2773 | Refused for live and terminal tickets; else abandoned for good, with no approval needed. |
| Endpoints.TicketEndpoints.MergeTicketBranch | orchestrator/api.py:3023-3047 | Needs branch and base, nothing of the status; records the merge. |
| Endpoints.TicketEndpoints.RevertTicketMerge | orchestrator/api.py:3050-3076 | Needs a merge and a base; puts the ticket before acceptance whatever its status. |
| TicketNumbers.TicketIdRoundTrip | orchestrator/db/sqlite.py:714-728 | A printed id parses back to its number. |
| TicketNumbers.TicketIdShape | orchestrator/db/sqlite.py:727-728 | T, a dash, and the number in three digits or, without a leading zero, in more. |
| TicketNumbers.NextTicketNumber | orchestrator/db/sqlite.py:714-725 | Larger than the number of every id in use, and one more than one of them, or 1 when there is none. |
| TicketNumbers.NewIdsAreFresh | orchestrator/db/sqlite.py:714-728 | No id from the next number on is in use, however its number is written there. |
| Renumbering.RenumberTicketPayloads | orchestrator/requirements_flow.py:239-272 | The batch gets the numbers from the next one on; each payload keeps a note of where it came from, and its two lists hold exactly what their entries become: the new id of the last payload that had the old one, or the entry itself. |
| Renumbering.RenumberingMeans | orchestrator/requirements_flow.py:244-272 | The same for one payload of a batch under any first number. |
| Renumbering.BatchIdsAreFresh | orchestrator/requirements_flow.py:244-256 | The batch gets pairwise different ids, none of them in use. |
| Renumbering.InjectiveIff | orchestrator/requirements_flow.py:258-267 | Renaming keeps all nodes of the dependency graph apart exactly when no outside dependency has one of the new ids. |
| Renumbering.RenumberingIsAnIsomorphism | orchestrator/requirements_flow.py:258-270 | Without such a capture, two nodes are joined afterwards exactly when they were before. |
| Renumbering.EdgesAreRenamed | orchestrator/requirements_flow.py:258-270 | The new edges are exactly the renamed old ones. |
| Renumbering.CyclesAreKept | orchestrator/requirements_flow.py:258-270 | Without capture, renumbering neither makes nor breaks a cycle. |
| Renumbering.DependenciesKeepTheirOrder | orchestrator/requirements_flow.py:258-270 | Without capture, both lists hold the dependencies, each once, in the order first named. |
| Renumbering.ExistingTicketsAreNotCaptured | orchestrator/requirements_flow.py:239-272 | A dependency on a ticket of the project is never captured. |
| Renumbering.ProjectBatchKeepsItsGraphIff | orchestrator/requirements_flow.py:239-272 | With the project's own numbering the renumbered batch has the same graph, cycles and dependency order exactly when no outside dependency has one of the new ids. |
| Renumbering.ClosedBatchKeepsItsGraph | orchestrator/requirements_flow.py:239-272 | So it has whenever all dependencies are on tickets of the batch or of the project. |
| Renumbering.CaptureMakesACycle | orchestrator/requirements_flow.py:265 | A batch with a dependency on a missing id that becomes a ticket depending on itself. |
| Basics.DistinctKeepsOrder | orchestrator/requirements_flow.py:260-267 | Lists merged by appending what is not yet there keep the order of first occurrence. |
| Confirmation.RequirementsFlow.Confirm | orchestrator/requirements_flow.py:166-199 | Never meets a taken id; creates the whole batch under the numbers from the next one on, or the tickets before the first invalid or unreadable one, leaving the requirement to be confirmed again. |
| Paging.RunEventRepository.AppendRunEvent | orchestrator/db/sqlite.py:1554-1570 | A new event gets an id above all earlier ones. |
| Paging.RunEventRepository.ListRunEvents | orchestrator/db/sqlite.py:1574-1605 | A page: events of the project, requirement and ticket asked for, after the cursor, in id order, at most 500, or 100 unless a limit is given; what is left out comes after a full page. |
| Paging.PageIff | orchestrator/db/sqlite.py:1574-1605 | For a log, a filter, a cursor and a limit there is exactly one such page, and the query returns it. |
| Paging.NoSkipNoRepeat | orchestrator/db/sqlite.py:1574-1605 | Whatever is appended between the reads and whatever the limits, the pages read are exactly the matching events up to the cursor, in order. |
| Paging.ReadingMakesProgress | orchestrator/db/sqlite.py:1583-1604 | With a positive limit a page brings the cursor forward, or everything has been seen. |
| Paging.ReadAll | orchestrator/db/sqlite.py:1574-1605 | Paging to the first empty page of a fixed log, with any filters and any positive limits, ends with all matching events. |
| Paging.EmptyPageIff | orchestrator/db/sqlite.py:1866-1889 | A page is empty exactly when the limit is not positive or nothing lies beyond the cursor. |
| CloudUsage.DriftIsBounded | orchestrator/cloud_usage.py:43-70 | After n usages the stored cost is within n * 0.00005 dollars of the exact price. |
| CloudUsage.DriftIsReached | orchestrator/cloud_usage.py:43-70 | Calls of 50 input tokens reach that bound. |
| CloudUsage.StoredTotalsAreSums | orchestrator/cloud_usage.py:59-70 | Token totals are exact, and storing adds no rounding of its own. |
| CloudUsage.PriceOfSum | orchestrator/cloud_usage.py:35-40 | The price of a sum of usages is within 0.0001 dollars of the sum of their prices. |
| CloudUsage.PricePerMillion | orchestrator/cloud_usage.py:7-9 | A million input tokens cost 3 dollars, a million output tokens 15. |
| CloudUsage.CombinedStatus | orchestrator/cloud_usage.py:83-86 | A sum is actual if a part is, and unknown only if both are. |
| CloudUsage.AddIsACommutativeMonoid | orchestrator/cloud_usage.py:35-40 | Adding usages, cost status included, does not depend on order or grouping. |

## Left out

- Split children: they copy their parent's metadata and attempts, so `Lifecycle` follows only the parent; the gates hold for a child as the continuation of its parent's history. `LeaseSafety` has their leases; it inserts the children of one split next to each other.
- Execution mutual exclusion: a worker without a claim may run any ticket in progress (`orchestrator/auto_orchestrator.py:77-80`); only what leases guarantee is stated.
- LeaseSafety.LeasesStayDisjoint: supposes a clock that does not go back, target files that do not change while a lease is active, and no use of `lease`, of renewal after expiry, or of splitting while the lease is active; for these three the exact conditions are proved instead.
- Interleaving within an endpoint: the other requests that can come between two saves of one endpoint are not modelled, except for the interrupted approval.
- Concurrent writers during a run: the execution loop reads back the ticket it saved; an endpoint that changes it in the meantime is modelled only as a cancellation.
- ContextCarryOver.SameContextIff: supposes that fence removal leaves an empty text and the unfenced texts x and y as they are, and that every file at HEAD has its directory, as both are in the repository.
- ExecutionLoop.ExecutionLoop.RunTicket: a crash (a failed model call, or a patch that parses for a missing file) is an ending of its own; the event log, notifications and the recorded diff are not modelled.
- Worktree details: `..` components and symbolic links that give one file two normalized paths, ignored files that survive a reset, operating-system errors on write, and whether parent directories exist after earlier files of the same attempt (taken as fixed).
- Code-fence removal from whole-file answers: any function from text to text.
- Floating point: the thresholds 0.7, 0.5, 0.6 and 1.5 are compared as exact ratios, and costs are counted in millionths of a dollar.
- Text encoding and newline translation on reading and writing files: texts are sequences of characters.
- Timestamps: integers; a lease without a parsable expiry counts as expired.
- Ticket numbers written with digits other than 0 to 9, which the ticket schema excludes.
- Dependency entries that are not strings, and payloads whose id is not a string beyond having no id.
- Reading a stored ticket also merges its two dependency lists (`orchestrator/models/ticket.py:163-176`); the model merges them where they are used.
- The order in which a set of models is iterated: any order, fixed for a run, as are the loaded models and the routing.
- The result of a repeated completion: a second write by the same runner may replace it.
- The metadata that a pull request, a rejection's feedback and the decisions' authors and times leave on a ticket: only which decisions were recorded.
- Several projects in one database: one project's rows at a time.
- Deletion of tickets and of events by retention.
- Worktree deletion in crash recovery, prompts, HTTP, SQL text, JSON, git subprocesses, redaction, notifications, authentication, benchmarks, reports and the frontend.
