# PyRun: a verified model of runs, their output, libraries and limits

PyRun queues Python scripts as runs and executes them in worker processes. This project models the
parts of it whose correctness depends on interleavings, on byte and character arithmetic, or on
several functions agreeing with each other, and proves what they guarantee. `dafny verify
dfyconfig.toml` checks everything.

## How the model is built

* **A run's life** (`RunModel`, `Lifecycle*`, `ExecuteRun`, `Reconcile`). One database row is shared by
  the request that creates and queues the run, any number of deliveries of its task, force-stops, queue
  cancels, reconciler passes, and a clock. `Lifecycle` has one event per database statement or
  process-table action; each party writes from the copy it last read. Workers may crash anywhere. A
  spawned process is its leader, which may be live, dead and not reaped yet, or reaped, together with
  whatever else of its process group is alive; a kill finds the group by the leader's pid, so not once
  the leader is reaped. `ExecuteRun` is `execute_run` itself, as methods with the source's control flow,
  with arbitrary interference between statements; every execution of it is a run of the transition
  system. `Reconcile` is `Run.reconcile_stale` over a whole table with nobody else acting.
* **The output pipeline** (`Text`, `Utf8`, `Secrets`, `ScriptEnvironment`, `Masking`, `Truncation`,
  `OutputPipeline`). Tiered secret resolution into an insertion-ordered dict, the layers of the script's
  environment, sequential masking with the dict, and byte-level truncation with lossy decoding (section
  3 of RFC 3629 for the encoding, section 3.9 of the Unicode Standard for U+FFFD), composed at the end
  into statements about what the script is given and what is stored of its output.
* **Libraries** (`LibraryModel`, `LibraryHistory`, `LibraryStore`, `LibraryPins`). The append-only
  revision store of one library under any history of fresh and stale handles; and the libraries of a
  workspace with their editable keys, the pins of queued runs, and what a run imports in the end.
* **Rate limiting** (`RateLimit`), over real clock readings, with lost counters and with both kinds of
  backend `incr`.
* **Parsers and arithmetic** (`Strings`, `ScheduleTimes`, `QueueConfig`, `DurationChart`, `Sandbox`,
  `YearlySchedule`).

Clocks, decryption, external fetches, `isdir`, validation outcomes, process outcomes and database
order are parameters. Assumptions about time appear only in `LifecycleDeadlines`, as explicit bounds.

## Where the code does not keep a promise

Each of these is stated exactly, with the inputs or interleavings that show it.

* CANCELLED is "never clobbered" (`core/executor.py:556-558`): the two full saves of a failed environment
  validation do clobber it, and so does the full save of a view whose queueing raised
  (`core/views/scripts.py:385-389`, `core/views/webhooks.py:101-104`). `LifecycleSafety.CancelSurvivesExactly`
  says when it survives.
* Every finished run has an end time: not one whose queueing raised (`LifecycleSafety.UnqueuedForEver`). If
  it raised after the queue entry was committed (`core/tasks.py:116-125`), that save also wipes out a
  finished run (`LifecycleSafety.SuccessOverwritten`) or hides a running script from force-stops
  (`LifecycleSafety.RunningScriptHidden`). `LifecycleSafety.RowsAreCoherent` says exactly which rows have no end.
* A force-stop kills the process (`core/services/task_service.py:446-456`): not when it read the row
  before the pid was recorded, though it still reports a kill; and a claimant that has the launch before
  it starts the script afterwards, for a CANCELLED run. `LifecycleSafety.ForceStopKillsExactly`,
  `LifecycleSafety.ScriptStartsAfterStop`.
* A fault always kills the script (`core/executor.py:515-523`): not when it strikes before the handle
  is bound. `LifecycleSafety.FaultLeavesTreeExactly`, `LifecycleSafety.ScriptLeftRunning`.
* A kill takes "the script + children" (`core/executor_backends/local.py:22-45`): not after the script has
  been reaped. `communicate()` returns when the script has exited and its pipes are closed, so a child
  left in the background with redirected output lives on, and no kill by the script's pid finds it.
  `LifecycleSafety.WaitLeavesTreeExactly`, `LifecycleSafety.GroupLeftRunning`.
* "Nothing legitimate can still be executing" at the reconciler's deadline (`core/models/run.py:162-166`):
  true for up to 240 seconds of slack and as long as the script's timeout is not lowered in flight.
  `LifecycleDeadlines.ReconcilerSafeExactly`.
* `current_version` is "monotonic" (`core/models/library.py:183-185`): a metadata save through a stale
  handle rewinds it, and that, or a process dying between the two statements of `save_revision`, can
  leave a library in which no new content can be saved. `LibraryHistory.EditableExactly`.
* A run's stamp "always resolves to the exact content" (`core/models/library.py:183-185`, `266-272`): the pin
  is looked up by the library's key, which stays editable. A rename between queueing and execution fails
  the run; if another library has the key by then, by renames or by being created after a detach and a
  delete, its revision of that number is imported in silence. `LibraryPins.PinResolvesExactly`,
  `LibraryPins.StampedContentIsImported`, `LibraryPins.RenamesRedirectPin`, `LibraryPins.RecreationRedirectsPin`.
* "Exactly `limit` hits per window" (`core/ratelimit.py:28-30`): only if the backend's `incr` does not
  re-arm a counter for less than a window. `RateLimit.ExactLimitExactly`. Every window the source uses
  is 60 seconds long.
* Secret values are masked (`core/executor.py:263-273`): a value that its own mask contains, that begins
  with the end of it, or that can run into it survives in some text. `Masking.HiddenExactly`.
* Injection and masking "can't drift" (`core/executor.py:655-661`): a masked secret need not be injected
  under its name, and the AI settings are read twice, so a credential changed in between is injected
  and not masked. `OutputPipeline.MaskedIsInjectedExactly`, `OutputPipeline.CredentialMaskedExactly`.
* With no provider "nothing from the host should leak" (`core/services/claude_service.py:185-194`): the
  keys are stripped only when AI is on. `ScriptEnvironment.RoutingIsProviders`.
* Truncated output respects the budget (`core/executor.py:303-326`): exactly unless the cut falls one or
  two bytes into a character. `Truncation.BudgetRespectedExactly`. The two bytes bound it exactly if the
  budget has room for the notice. `Truncation.BoundHoldsExactly`.

## Model

| member | source | states |
|---|---|---|
| `LifecycleInvariant.ExecInv` | core/executor.py:560-832 | every interleaving of deliveries, stops, crashes and reconciler passes keeps one claimant, a coherent row and a process table that agrees with both |
| `LifecycleSafety.SingleExecution` | core/executor.py:560-582 | however often a run is delivered, at most one worker wins the claim and at most one process tree is spawned |
| `LifecycleSafety.LosingDeliveryIsNoOp` | core/executor.py:573-581 | whatever a worker does without winning the claim leaves the row and the process table untouched |
| `LifecycleSafety.RankNeverDecreases` | core/models/run.py:25-31 | along every run the status never falls back from finished to running or pending |
| `LifecycleSafety.RowsAreCoherent` | core/executor.py:804-826 | in every reachable state SUCCESS means exit code 0, TIMEOUT -1, FAILED never 0; an end time means a finished row, and a finished row has none if and only if its status was last written by the save of a request that could not queue it |
| `LifecycleSafety.UnqueuedForEver` | core/views/scripts.py:382-389 | if queueing raises before the queue entry exists, the row is FAILED with no start, end or output in every continuation, and the run is never executed |
| `LifecycleSafety.SuccessOverwritten` | core/tasks.py:116-125 | a complete run in which queueing raises after the run has ended in SUCCESS: its row becomes FAILED with no start, end or output |
| `LifecycleSafety.RunningScriptHidden` | core/views/webhooks.py:101-104 | a run in which queueing raises while the script runs: the row is FAILED without pid, and force-stops do nothing |
| `LifecycleSafety.OnlyFullSavesLeaveCancelled` | core/executor.py:593-608 | the only events that replace CANCELLED are the claimant's unconditional save of a failed validation and that of a request that could not queue the run, and both write FAILED |
| `LifecycleSafety.CancelSurvivesExactly` | core/executor.py:810-832 | a cancelled run stays cancelled in every continuation if and only if its claimant is past environment validation and the request that created it is no longer queueing it |
| `LifecycleSafety.QuietExactly` | core/executor.py:570-729 | nothing of a run is alive, now and in every continuation, if and only if nothing is alive now, the claim can no longer be won, and the claimant has no launch before it |
| `LifecycleSafety.ForceStopKillsExactly` | core/services/task_service.py:446-456 | a force-stop of a RUNNING run cancels it, and nothing of it is alive in any continuation, if and only if the claimant is past the launch and whatever is alive has its pid recorded and its leader not reaped |
| `LifecycleSafety.ScriptStartsAfterStop` | core/executor.py:582-729 | a complete run in which a force-stop finds the script staged, writes CANCELLED, and the script starts afterwards |
| `LifecycleSafety.KillIsFinalExactly` | core/services/task_service.py:446-450 | whatever happens between the read and the kill of a stop that has read a pid, nothing is alive from the kill on, in any continuation, if and only if no reaped script had left others of its group behind |
| `LifecycleSafety.ForceStopIsFinal` | core/services/task_service.py:437-456 | whatever happens between the read, the kill and the write of a stop that has read a pid, and afterwards: the script stays dead, only what had outlived a reaped script at the kill can be alive, and the row stays CANCELLED in every continuation if and only if the run is no longer being queued |
| `LifecycleSafety.FinishedRowFrozenExactly` | core/services/task_service.py:437-464 | a finished, uncancelled row nobody executes keeps every column for ever if and only if no stop request read it beforehand and the run is no longer being queued |
| `LifecycleSafety.UnclaimedFinishedNeverRuns` | core/models/run.py:241-263 | a run that was failed or cancelled while pending is never claimed and never spawns a process |
| `LifecycleSafety.RecordedPidIsClaimants` | core/executor.py:729-733 | a recorded pid is that of the one process tree and its claimant has not left the finally block, or has crashed |
| `LifecycleSafety.CleanExit` | core/executor.py:815-832 | once the claimant has left without crashing the row holds no pid, for ever; the script is dead unless a fault struck before its handle was bound, and anything else alive has outlived a reaped script; nothing will be alive if nothing is then |
| `LifecycleSafety.FaultLeavesTreeExactly` | core/executor.py:765-802 | a fault leaves something alive if and only if it struck before the handle was bound, or after the script was reaped with others of its group alive; it leaves the script itself alive in the first case only |
| `LifecycleSafety.WaitLeavesTreeExactly` | core/executor_backends/local.py:112-132 | the wait leaves the script dead, and something of its group alive if and only if the script ended by itself and left it behind |
| `LifecycleSafety.ScriptLeftRunning` | core/executor.py:524-525 | a complete run in which the task deadline or any other exception strikes before the handle is bound: TIMEOUT for the task deadline and FAILED for any other, exit code -1, without pid, and the script still running |
| `LifecycleSafety.GroupLeftRunning` | core/executor_backends/local.py:112-121 | a complete run without any fault that ends in SUCCESS with a child of the script alive that no kill by pid finds |
| `LifecycleSafety.UndisturbedRun` | core/executor.py:735-763 | an undisturbed delivery ends with the process outcome in the row, column by column |
| `LifecycleSafety.FaultIsStored` | core/executor.py:765-830 | from every reachable state, wherever in the try block a fault strikes and whatever the others do until the claimant finalizes an uncancelled row: the status is TIMEOUT with the deadline note if and only if the fault is the task deadline, else FAILED with the handler's message; exit code -1; no output, unless it struck while the outcome was being reported; the end is the time of the finalization, unless a failed validation had set one; no pid; start and creation as they were |
| `LifecycleSafety.InvalidRun` | core/executor.py:593-608 | a run whose validation fails and is finalized later: FAILED with the reason, no exit code, and the time of the failure as its end |
| `LifecycleSafety.RefusedRun` | core/executor.py:636-670 | a run that is refused while it is staged or at its launch: FAILED with the reason, exit code -1, and no process |
| `LifecycleSafety.StopReadsExactly` | core/services/task_service.py:380-450 | a stop goes on only from a PENDING or RUNNING row, keeps the row it read, and has something to kill if and only if it is a force-stop that read a RUNNING row with a pid |
| `LifecycleSafety.StopWritesExactly` | core/services/task_service.py:380-464 | the write of a stop, column by column, onto whatever the row says by then: CANCELLED, ended now, the note of its kind below the error output it read, no pid after the force-stop of a RUNNING row, and everything else as it was |
| `LifecycleSafety.BoundedWork` | core/executor.py:537-832 | no interleaving makes a worker execute more than its remaining statements, twelve in all |
| `LifecycleSafety.ClaimantCanFinish` | core/executor.py:556-558 | from every state with a live claimant its own statements lead to a finished row |
| `LifecycleDeadlines.ReconcilerSafeExactly` | core/models/run.py:201-239 | given a bound on how late claimants finish and a floor under timeout edits, the reconciler never fails a live run if and only if the bound is within its deadline |
| `LifecycleDeadlines.OldRunningRowIsFailed` | core/models/run.py:201-239 | a RUNNING row at least five minutes past its script's timeout is failed by the next pass, whatever became of its claimant: FAILED, exit code -1, the note below its old error output, ended now, no pid, output, start and creation as they were |
| `LifecycleDeadlines.OldPendingRowIsFailed` | core/models/run.py:241-263 | a PENDING row queued for more than a day is failed by the next pass that finds workers alive: FAILED, exit code -1, its own note, ended now, everything else as it was |
| `LifecycleDeadlines.PassSelectsExactly` | core/models/run.py:201-250 | a pass selects a row if and only if it is RUNNING for its timeout and 300 seconds, or workers are alive and it is PENDING for more than 86400 seconds |
| `LifecycleDeadlines.FlipWritesExactly` | core/models/run.py:228-263 | what the conditional update of a pass writes, column by column, whatever has happened since the row was selected, and nothing if the status is another one by then |
| `LifecycleDeadlines.FourMinutesOfSlack` | core/models/run.py:162-166 | with an unedited timeout, 240 seconds past the task deadline are safe and not a microsecond more |
| `LifecycleDeadlines.LoweringTimeoutIsUnsafe` | core/models/run.py:213-217 | lowering the timeout in flight lets the reconciler fail a live run |
| `LifecycleDeadlines.TimelyReconcileSettles` | core/models/run.py:228-239 | a pass that fails a RUNNING row in time leaves it FAILED with no claimant left to overwrite it |
| `ExecuteRun.Host.Execute` | core/executor.py:537-832 | with any interference and any faults, the program extends the interleaving and ends lost or done; done means a finished row, no pid, a dead script unless a fault struck before its handle was bound, otherwise nothing alive but what outlived a reaped script, and either a result stored that tells, column by column, which fault of the world struck or how the run ended in it, or, for a cancelled run, only the pid cleared |
| `ExecuteRun.Host.TryBlock` | core/executor.py:590-802 | every path through the try block and its handlers reaches the finally block with a result that tells, column by column, which fault struck, why the run was invalid or refused, or how its process ended |
| `ExecuteRun.Host.Launch` | core/executor.py:653-733 | launch either ends in the wait with the pid saved or in the finally block |
| `ExecuteRun.Host.Wait` | core/executor_backends/local.py:112-132 | wait returns with the script dead and reaped, after a timeout with nothing of its group alive, or a fault strikes after the reaping |
| `ExecuteRun.Host.Finally` | core/executor.py:804-832 | the finally block leaves a finished row without pid, with the claimant's status, exit code and texts and an end time unless the run was cancelled |
| `ExecuteRun.Host.Do` | core/executor.py:570-572 | each statement extends the recorded interleaving by exactly its own event |
| `Reconcile.PrefilterLosesNothing` | core/models/run.py:207-219 | the candidate query and the deadline test together select by age alone |
| `Reconcile.RunTable.FailOverdue` | core/models/run.py:206-239 | the loop collects exactly the RUNNING rows five minutes past their script's timeout, fails these column by column as above, and changes no other row |
| `Reconcile.RunTable.FailLost` | core/models/run.py:244-270 | the bulk update collects exactly the PENDING rows older than a day, fails these column by column as above, and changes no other row |
| `Reconcile.RunTable.ReconcileStale` | core/models/run.py:173-293 | the RUNNING rows past their deadline and, with workers alive, the PENDING rows older than a day are failed: FAILED, exit code -1, each kind with its own note, below the old error output for the first, ended now, without pid for the first, and otherwise as they were; all other rows are unchanged, and the result is the number failed and the number notified |
| `Reconcile.SecondPassIsIdle` | core/models/run.py:228-253 | a second pass at the same instant flips nothing |
| `Secrets.ResolveSecretsForRun` | core/executor.py:42-127 | the loops compute the resolution function, early exits included |
| `Secrets.ResolutionCorrect` | core/executor.py:91-120 | by the fields of the secrets and of the run: each name gets exactly the value of its highest non-empty tier (active grant to the script, same owner, no owner, each within the workspace), or of the last decryptable ownerless secret in mode all |
| `Secrets.ResolutionOfPrefix` | core/executor.py:109-125 | every resolution, complete or cut short by a failing fetch, gives each name the value of the last candidate of that name that has one, among exactly those before the first failing fetch |
| `Secrets.EveryEntryEntitled` | core/executor.py:80-107 | every entry of every resolution is the value, under its own key, of a secret in scope that is global, owned, or actively granted |
| `Secrets.OnlyEntitledSecrets` | core/executor.py:80-107 | every value that the tiers choose comes from a secret in scope that is global, owned, or actively granted |
| `Secrets.FirstFailureDecides` | core/executor.py:109-125 | the resolution fails if and only if the first failing fetch is a resolution error, and names its secret; any other failure ends it in silence |
| `Secrets.OneFailureAborts` | core/models/secret.py:208-224 | when failing fetches raise resolution errors, one of them is enough to fail the resolution |
| `Secrets.WorkspaceIsolation` | core/executor.py:70-77 | a run of a workspace resolves from the whole table exactly what a run of no workspace resolves from the secrets of that workspace and of none, so no other workspace's secret changes anything, failures included |
| `Masking.MaskSecretsInOutput` | core/executor.py:263-282 | the loop is the left-to-right fold of single maskings |
| `Masking.ReplaceKeepsPieces` | core/executor.py:278-280 | a masking changes nothing but the matches it takes |
| `Masking.ReplaceHides` | core/executor.py:277-282 | masking one value removes it and creates no occurrence of any value that the mask cannot straddle, contain or be contained in |
| `Masking.MaskingHides` | core/executor.py:263-282 | the whole list hides every value, brackets or not, that its own mask cannot build again and no later mask can straddle, contain or be contained in |
| `Masking.ToldApartIsProtected` | core/executor.py:277-280 | whatever the keys are, a bracket-free value with a character for each mask that the mask does not hold is such a value |
| `Masking.DistinctiveValuesHidden` | core/forms.py:16 | with valid keys, every value with a character outside the mask alphabet and no bracket is hidden |
| `Masking.BracketFreeIsClear` | core/executor.py:280 | a value without brackets can meet a mask only by lying inside it |
| `Masking.HiddenExactly` | core/executor.py:279-280 | a single value is hidden in every text if and only if it is not inside its mask, does not begin with the end of it, and runs into it only where the leftmost match would have begun earlier |
| `Masking.BracketedValueReappears` | core/executor.py:280 | a value with a bracket can be put together again by its own mask |
| `Masking.MaskingIdempotent` | core/executor.py:277-282 | if that holds of every maskable value, nothing is left to mask and a second pass changes nothing |
| `Masking.MaskingIdentity` | core/executor.py:274-275 | a text with no occurrence of any maskable value is returned unchanged |
| `Utf8.RoundTrip` | core/executor.py:317 | decoding the encoding of a text gives the text |
| `Utf8.CompleteSequencesAreEncodings` | core/executor.py:323-325 | the decoder accepts a sequence only if it is the encoding of the character it yields |
| `Utf8.DecodeCut` | core/executor.py:323-325 | decoding the first k bytes gives the whole characters and one U+FFFD for a split one |
| `Truncation.TruncateCorrect` | core/executor.py:314-326 | a text that fits is unchanged; any other becomes the longest code-point prefix, one U+FFFD if and only if the cut splits a character, and the notice |
| `Truncation.TruncateBound` | core/executor.py:322-326 | the result is at most two bytes over the budget |
| `Truncation.TwoBytesOver` | core/executor.py:323-325 | the two bytes are reached for every budget with room for text |
| `Truncation.BoundHoldsExactly` | core/executor.py:323 | the bound of two extra bytes holds for every text if and only if the budget has room for the notice |
| `Truncation.BudgetRespectedExactly` | core/executor.py:322-326 | the result stays within the budget itself if and only if the cut does not fall one or two bytes into a character |
| `Truncation.BudgetAlwaysRespectedExactly` | core/executor.py:322-326 | every truncated text stays within the budget if and only if the budget is exactly the length of the notice |
| `Truncation.TruncationRevealsNothing` | core/executor.py:740-745 | truncation creates no occurrence of a text unlike its notice |
| `OutputPipeline.AddCredentials` | core/executor.py:677-687 | the dict used for masking: each of the three credential variables by its own value if that is set, and every other name as the secrets have it |
| `OutputPipeline.ProviderCredentialIsMasked` | core/services/claude_service.py:114-183 | for every provider with a credential, whatever the secrets are called: the script finds the credential in the variable that carries it, and the dict that masks has it under that name, if both readings give the same settings |
| `OutputPipeline.ProviderCredentialHidden` | core/executor.py:677-759 | so a provider's credential that can be told from the masks and notes never appears in stored output, with or without the note of a timeout |
| `OutputPipeline.StoredExactly` | core/executor.py:738-759 | stored output is the masked text if that has at most a million bytes, else as many whole characters of it as leave room for the notice, a U+FFFD for a split one, and the notice; and the output itself if it fits and there is nothing to mask |
| `OutputPipeline.TimeoutNoteIsStored` | core/executor.py:742-750 | the note of a timeout follows the stored error output, or stands alone if there is none |
| `ScriptEnvironment.BuildScriptEnvironment` | core/executor.py:165-260 | under a name that is not PyRun's own the script finds the provider's value, or nothing if the provider strips it, or its secret, or the worker's variable unless denied; the run's own variables are the run's whatever else sets them; the helpers come first on the path |
| `ScriptEnvironment.OwnVariablesDisjoint` | core/executor.py:173-258 | no two of the request, the usage attribution, the run and the path set the same variable |
| `ScriptEnvironment.OwnVariablesArrive` | core/executor.py:173-246 | by their full names: each of the run's variables, of the usage attribution and of the request arrives with the run's, the script's or the request's own value, the request's unless the provider has a say about the name |
| `ScriptEnvironment.PathIsAssembled` | core/executor.py:248-258 | the path is the helpers, the run's libraries, and then what the provider, the secrets or the worker have under that name, in this order of precedence |
| `ScriptEnvironment.OwnNamedSecretKeptExactly` | core/executor.py:171-258 | a secret with a name of PyRun's own reaches the script if and only if everything this run sets under that name has its value and the provider does not strip it |
| `ScriptEnvironment.SecretKept` | core/executor.py:171-258 | a secret reaches the script under its own name and with its own value unless the name is PyRun's or one the AI provider sets or strips |
| `ScriptEnvironment.RoutingIsProviders` | core/services/claude_service.py:114-207 | with a provider active every routing variable the script sees is the provider's own, and with AI off none of the host's is stripped |
| `ScriptEnvironment.ProviderVariables` | core/services/claude_service.py:114-183 | what an active provider sets, name by name: its credential in the variable of its kind, for a third party its address and an empty API key, the model if one is set, and what a preset adds, which overrides nothing |
| `ScriptEnvironment.ConflictingExactly` | core/services/claude_service.py:185-207 | an active provider strips exactly the routing variables it does not set itself |
| `OutputPipeline.InjectedIsMasked` | core/executor.py:657-687 | every secret and credential that the environment holds under its own name is in the dict that masks, if both readings of the AI settings give the same credentials |
| `OutputPipeline.MaskedIsInjectedExactly` | core/executor.py:171-258 | a masked value is what the script has under that name: for a name of the provider's if and only if it is the provider's value, for a stripped one never, for one of PyRun's own if and only if everything the run sets under it has this value, for any other always |
| `OutputPipeline.MaskedButNotInjected` | core/executor.py:197-203 | a secret named like the API key masks output under an OAuth provider although the script never gets it |
| `OutputPipeline.CredentialMaskedExactly` | core/executor.py:680-687 | an injected credential is masked under its name if and only if the second reading gives it again, or gives none and a secret of that name has the same value |
| `OutputPipeline.ScriptValuesHidden` | core/executor.py:655-759 | a secret or credential that the script can read under its own name, and that can be told from the masks and notes, does not appear in its stored output, the note of a timeout included |
| `OutputPipeline.StoredOutputHidesEntry` | core/executor.py:738-759 | no protected entry of the masking dict that can be told from the notice and the timeout notes appears in stored output, with or without such a note |
| `OutputPipeline.StoredOutputHidesInjectedValues` | core/executor.py:738-759 | whenever the resolution lets the run go on, even cut short in silence, and whatever the keys are: no bracket-free secret or credential with a character foreign to each mask appears in stored output |
| `OutputPipeline.FormKeysTellApart` | core/forms.py:16 | with keys that the form accepts, one character foreign to every possible mask is enough for that |
| `LibraryModel.ValidateModules` | core/models/library.py:89-118 | accepts exactly the valid maps, and each error names its true first cause |
| `LibraryModel.ModuleNameExactly` | core/models/library.py:41 | the accepted filenames are the ASCII identifiers followed by `.py`, and the same with one newline behind |
| `LibraryHistory.RevisionsNumberedAndDistinct` | core/models/library.py:239-263 | in every history versions are exactly 1..N, adjacent contents differ, and the head pointer is within range |
| `LibraryHistory.StampKeepsMeaning` | core/models/library.py:266-272 | within one library a run is stamped if and only if the library has content, and the stamp denotes the revision that was the head then after any later edits, restores, conflicts and stale saves |
| `LibraryPins.QueuePinsExactly` | core/services/library_service.py:181-190 | queueing changes the new run's pins only; a key is pinned if and only if an attached library with content holds it, to that library's head number and content |
| `LibraryPins.PinResolvesExactly` | core/services/library_service.py:183-215 | in every history of a workspace's libraries, renames and deletions included, a pin stays as it was written, and its lookup by key gives the stamped content if and only if the key is held by the library it was taken from or by one whose revision of that number has the same modules |
| `LibraryPins.StampedContentIsImported` | core/services/library_service.py:168-215 | whatever happens after a run is queued, the head that an attached library had then is what the run finds under its key, as long as that library is neither deleted nor saved under another key |
| `LibraryPins.AttachedHeadsAreImported` | core/services/library_service.py:168-276 | as long as none of the attached libraries with content is deleted or saved under another key, a queued run is given exactly their keys, each with the head modules of queue time |
| `LibraryPins.AttachedStays` | core/views/libraries.py:236-247 | a library is not deleted while a script has it attached |
| `LibraryPins.RunImportsExactly` | core/services/library_service.py:218-276 | a run is given all that was stamped on it, and nothing else, if and only if each of its keys is held in that way |
| `LibraryPins.RenameLosesPin` | core/views/libraries.py:159-165 | a rename between queueing and execution makes the pin resolve to nothing, and the run imports nothing |
| `LibraryPins.RenamesRedirectPin` | core/forms.py:3224-3268 | after two renames the queued run imports the modules of another library |
| `LibraryPins.RecreationRedirectsPin` | core/services/library_service.py:201-205 | after detach, delete and re-creation under the same key the queued run imports the modules of the new library |
| `LibraryHistory.OnlyStaleMetadataRewinds` | core/views/libraries.py:159-165 | current_version goes back if and only if a handle that is behind saves its metadata |
| `LibraryHistory.HeadStaysClose` | core/models/library.py:254-262 | without metadata saves the head pointer is N or N - 1 and never decreases |
| `LibraryHistory.EditableExactly` | core/models/library.py:254-262 | new content can ever be saved if and only if the row or a live handle knows the newest revision |
| `LibraryHistory.TwoEditorsLockTheLibrary` | core/views/libraries.py:164-165 | two overlapping edit requests can lock a library for good |
| `LibraryStore.Library.SaveRevision` | core/models/library.py:239-263 | one call is the insert and bump of the history, or leaves everything unchanged when invalid, unchanged or refused |
| `LibraryStore.SavedContentIsHead` | core/models/library.py:242-245 | with an up-to-date handle a valid save never fails and the head then has the hash of the saved content |
| `RateLimit.Limiter.RateLimitExceeded` | core/ratelimit.py:25-46 | one call counts one hit, the lost-counter path included, and while the counter lives rejects it if and only if the window has had its limit of hits before |
| `RateLimit.Limiter.RateLimitOver` | core/ratelimit.py:49-59 | while the counter lives, the peek is true if and only if a hit of the current window was rejected, and it changes nothing |
| `RateLimit.AllowedPerWindow` | core/ratelimit.py:28-30 | min(hits, limit) hits are allowed per window, and at most one more budget for each lost counter |
| `RateLimit.ExactLimitExactly` | core/ratelimit.py:12-17 | the exact limit holds for all histories if and only if the backend re-arms no counter for less than a window |
| `RateLimit.TwiceTheLimit` | core/ratelimit.py:36-38 | any half-open interval one window long allows at most twice the limit, and one more budget for each loss of a counter of the two windows it meets |
| `RateLimit.PeekMeansRejected` | core/ratelimit.py:49-59 | the peek is true if and only if a hit of the current window was rejected |
| `RateLimit.ResetIsLeast` | core/ratelimit.py:62-64 | the reset time is the least positive number of seconds after which the window index has advanced |
| `ScheduleTimes.ParseTimes` | core/forms.py:426-455 | a list is accepted if and only if every piece between the commas has one colon and on its sides integers in 0..23 and 0..59; the result then has one time for each piece that is not blank, in their order, showing these two numbers; otherwise the error names the first piece that does not |
| `ScheduleTimes.ParseTimeExactly` | core/forms.py:441-449 | the same for one piece |
| `ScheduleTimes.ParseIntExactly` | core/forms.py:444 | an integer is read from blanks, a sign or none, and digits with single underscores between them, and has their decimal value |
| `ScheduleTimes.AsciiTimeAccepted` | core/forms.py:438-449 | every ASCII hour and minute in range, with any leading zeros, blanks around either and plus signs, is accepted and gives the time that shows them |
| `ScheduleTimes.AcceptedIsCanonical` | core/forms.py:441-449 | every accepted input parses to HH:MM times only |
| `ScheduleTimes.ParseShow` | core/forms.py:395-424 | parsing the displayed form of canonical times gives them back |
| `ScheduleTimes.ResubmissionIsStable` | core/forms.py:457-467 | display and re-parse is the identity on everything the parser returns |
| `QueueConfig.ComputeEffectiveQConfig` | pyrunner/qconfig.py:20-81 | the result's retry is the least that is the configured one where that exceeds the timeout, else 60 seconds more than the timeout, a day without a timeout, and 120 seconds more than the slowest script; the timeout is the configured one, none on Windows; and the computation leaves its own result alone |
| `QueueConfig.EffectiveInvariants` | pyrunner/qconfig.py:49-79 | the same for every configuration, and the retry grows with the fleet maximum |
| `QueueConfig.SettingsRespected` | pyrunner/qconfig.py:37-43 | settings that need no correction are taken as they are, zero timeout included |
| `QueueConfig.DeadlinesAfterTask` | core/tasks.py:116-122 | redelivery and reconciliation fall at least one and four minutes after the task deadline |
| `DurationChart.BuildChart` | core/charts.py:22-75 | nothing is drawn exactly if no run has finished; else the last thirty finished runs to scale: every bar as high as its share of the slowest to within a twentieth, at its place and of its width to the same, the average line within a tenth of where it belongs; and for the sizes it is meant for, on the canvas, apart, in order, and on the baseline |
| `DurationChart.HeightProportional` | core/charts.py:40-43 | a bar is as high as its duration's share of the usable height, above a sliver of two, to within a twentieth |
| `DurationChart.ChartGeometry` | core/charts.py:45-59 | bars are pairwise disjoint and longer runs are not shorter |
| `DurationChart.BarOnCanvas` | core/charts.py:49-60 | every bar lies inside the canvas, below the top pad, exactly on the baseline |
| `DurationChart.AverageLine` | core/charts.py:64-70 | the average line lies between the slowest bar's top and the baseline |
| `DurationChart.CapIsNeeded` | core/charts.py:13 | without the bar cap two bars can collide |
| `Sandbox.RoBindDirs` | core/executor_backends/sandboxed.py:99-140 | the bind list is the de-duplicated list of system, environment and path directories |
| `Sandbox.BoundExactly` | core/executor_backends/sandboxed.py:99-140 | a directory is bound if and only if it exists and is one of the six of the system, the environment of the command, or an entry of the path outside the working directory |
| `Sandbox.VenvTwoUp` | core/executor_backends/sandboxed.py:112-117 | the environment of the command is two levels above its interpreter, whatever slashes are between |
| `Sandbox.DedupKeepsFirsts` | core/executor_backends/sandboxed.py:132-140 | de-duplication keeps exactly the first occurrence of every directory, in order |
| `Sandbox.BoundOnce` | core/executor_backends/sandboxed.py:135-140 | no directory is bound twice |
| `Sandbox.WithinTransitive` | core/executor_backends/sandboxed.py:82-96 | path containment is transitive |
| `Sandbox.WithinExactly` | core/executor_backends/sandboxed.py:82-96 | within a directory is the directory itself, spelled the same, and what goes on with one slash after its name |
| `Sandbox.ScanOfJoined` | core/executor.py:248-258 | of the entries the executor joins, the scan adds exactly those that exist outside the working directory |
| `Sandbox.PathAsSeen` | core/executor.py:248-258 | the sandbox finds the helpers first, then the staged libraries, then the inherited path |
| `Sandbox.BoundInsideExactly` | core/executor_backends/sandboxed.py:99-140 | of the paths inside the working directory the bind list holds exactly the system directories and the venv that exist |
| `Sandbox.StagedLibrariesNotBound` | core/executor_backends/sandboxed.py:119-130 | the staged libraries are not in the bind list, unless a system directory was put in the working directory or the venv among the libraries |
| `YearlySchedule.AcceptedDateRecurs` | core/forms.py:539-549 | every accepted date exists in one of any eight consecutive years |
| `YearlySchedule.AcceptsExactly` | core/forms.py:539-549 | the form accepts exactly the dates that exist in some year |
| `YearlySchedule.SevenYearsCanMiss` | core/forms.py:546 | 29 February is accepted and can be missing from seven consecutive years |
| `YearlySchedule.DateOfCorrect` | core/tasks.py:226-227 | the calendar gives every local day an existing date with that day number |
| `YearlySchedule.DateOfFinds` | core/tasks.py:226-227 | and gives every existing date back from its day number |
| `YearlySchedule.FiresExactlyOnItsDates` | core/tasks.py:226-240 | the guard delegates at exactly the instants that fall, in the schedule's timezone, within an existing date of some year with the configured month and day |

## Left out

- LifecycleDeadlines.ReconcilerSafeExactly: all parties read one clock; skew between hosts is not modelled.
- ExecuteRun.Host.Execute: a crash ends the program without a last statement, so crashes appear only in the transition system; an exception that escapes the `finally` block counts as a crash.
- LifecycleSafety.UndisturbedRun: outputs are the masked and truncated texts, and the long notes in stderr are shortened to fixed strings.
- LifecycleSafety.FaultLeavesTreeExactly: killing a group found by its leader's pid always succeeds and pids are not reused; one fault at most strikes a worker.
- LifecycleSafety.WaitLeavesTreeExactly: processes that leave the script's process group are not followed, and the sandbox, which kills what is left in its own namespace, and Windows are not distinguished from the plain POSIX backend.
- Reconcile.RunTable.ReconcileStale: notifications are recorded, not sent, so a failing channel is not modelled.
- Secrets.ResolutionCorrect: states values for resolutions without a failing fetch; `ResolutionOfPrefix` states them for all.
- Masking.HiddenExactly: the equivalence is for one secret; for lists the condition of `MaskingHides` is sufficient.
- ScriptEnvironment.BuildScriptEnvironment: the AI settings of one reading are taken together; JSON dumps, the signed token and the workspace fallback are parameters; the sandbox's removal of PYRUNNER_DB_PATH is not modelled.
- Utf8.RoundTrip: texts are sequences of Unicode scalar values, so lone surrogates, which the source encodes as '?', are not modelled.
- LibraryStore.Library.SaveRevision: the content hash is any function of the module map; collisions are not excluded and not needed.
- LibraryPins.PinResolvesExactly: one workspace; keys are any strings, so the rules for legal keys and file names are left to `ValidateModules` and the form; an attachment made between the check and the delete of a library is not modelled.
- RateLimit.Limiter.RateLimitExceeded: `incr` is atomic and one key is modelled; keys do not share counters.
- ScheduleTimes.ParseTimes: which non-ASCII characters count as digits is a parameter.
- YearlySchedule.FiresExactlyOnItsDates: the offset of the timezone is any function of the instant; the last year of the calendar is not modelled.
- DurationChart.BuildChart: arithmetic is over the reals, so binary rounding of decimal ties is not modelled; labels are omitted.
- The PENDING guard of `queue_script_run`, which a run that was just created passes, and removal of queue entries: once the entry is committed, a delivery may come at any time.
- LifecycleSafety.UnqueuedForEver: callers that let the exception of a failed queueing through are requests that end without a save.
- The lost update of `task_id` and `library_versions` by the full save of a failed validation, and row deletion by retention.
- Resource limits, the isolation policy, sandbox command lines, temporary files and the staging of module files.
- Encryption, external providers, notifications, AI calls, package operations, backups and the URL guard.
- Scheduling beyond the time lists and the yearly guard: cron conversion and daylight saving.
- Token, membership, workspace and form-field rules that one branch settles.
