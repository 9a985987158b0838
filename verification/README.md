# Verified model of the media automation backend

This project models the parts of the backend whose correctness is hardest to see
by reading them, and proves what they are for. `dafny verify dfyconfig.toml`
checks everything.

Two state machines carry most of the weight.

* **The crash-safe setup transaction** (`SetupDisk`, `SetupTransaction`,
  `SetupSteps`, `SetupWriter`). The local setup wizard replaces up to thirteen
  files together. The file system is a map from paths to inodes and from inodes
  to contents; a link count is a number of paths. Every link, rename, unlink and
  write is one step that may succeed, report an error before or after taking
  effect, or be the moment the machine stops. `LocalSetupWriter` is the source's
  class over that disk, method by method; its crash invariant holds after every
  single step, so recovery may start from any of them, and from any step of an
  earlier recovery.
* **The lease-fenced download execution protocol** (`ExecutionRows`,
  `ExecutionTransactions`, `ExecutionProtocol`, `ExecutionSafety`). Any number of
  approvals and workers; each committed database transaction is a step, the
  qBittorrent add is a step of its own after the write guard, clocks may say
  anything and workers may stop for ever. An add counts as soon as its request is
  issued, whether or not it arrives. `ExecutionServices` has the rows as objects
  whose columns the services and the executor assign; `ExecutionEnvironment` runs
  every transaction, of everybody, by loading such rows, calling those methods and
  committing, and each commit is proved to be one step of the protocol with a
  gapless audit trail. `ExecutionWorker` has the control flow of `_process_claim`
  and `run_once` on that environment, so the safety results are about the code
  that assigns the columns. Clocks, policy checks and adapters are a `World` that
  answers each question as it likes; what a worker achieves is stated for a calm
  world, in which nothing fails and less than a lease time passes, and for quiet
  others.

The other modules are independent algorithms: execution intents and idempotency
keys (`ExecutionIntents`), path collisions (`PathCollisions`), torrent structure
(`TorrentStructure`), the policy hash chain (`PolicyChain`), the runtime
configuration (`RuntimeConfig`), the TTL cache and rate limiter (`TtlCache`), the
schema collector (`SchemaCollector`), episode codes (`Episodes`) and the job
monitor (`DownloadMonitors`).

How things are represented:

* SHA-256 and SHA-1 are injective: a digest is a constructor around what was
  hashed, or (in `PolicyChain`) any injective function.
* Lease tokens, nonces, identifiers and random file names are fresh values.
* Clock readings, adapter answers, policy checks and the schedule of everybody
  else are inputs, and results hold for all of them.
* A database query is the value it returns; a transaction that holds row locks is
  one step.
* A method whose source raises returns an error value instead.

Where the code does not do what is promised, or what its comments say, the model follows the code:

* Startup recovery does not repair every interrupted save. A run directory that
  holds `PREPARING.tmp` but no `PREPARING` is refused, and so is a directory in
  which an interrupted recovery removed `PREPARING` before other files
  (`SaveCutOffBeforePreparing` and `RecoveryCutOffAfterPreparing` get there by
  cutting off a save, and a save and its recovery).
  `RecoverStaging` succeeds if and only if there is no run directory, it is
  empty, or `PREPARING` is there (`Recoverable`), a condition that can be looked
  up on disk.
* A runtime configuration does not always survive a restart. An address with
  white space before its trailing slash is accepted, stored without the slash,
  and then refused when it is loaded, so the stored configuration becomes
  unreadable. `ReachableConfigurationsRoundTrip` proves that this is the only
  way, and `SpaceBeforeTheSlashIsNotReadBack` gives such an address.
* The comment on recovery without a manifest says that unknown non-empty
  directories are ignored; the code refuses to go on, and so does the model
  (backend/app/tools/local_setup_wizard.py, lines 1142 to 1147 and 1244 to 1247).
* Recovering an idempotent request takes every request for a manual one, so it
  always refuses automatic ones (`RecoveryAgreesForManualRequests`).

## Model

| member | source | states |
|---|---|---|
| SetupWriter.LocalSetupWriter.SaveThenRestart | backend/app/tools/local_setup_wizard.py:494-515 | A save cut off anywhere, then any number of restarts cut off anywhere: once a recovery reports success the run directory is gone, every file has exactly one link, and the destinations hold all the new contents if COMMITTED had become visible and all their original inodes otherwise. |
| SetupWriter.LocalSetupWriter.RecoverStaging | backend/app/tools/local_setup_wizard.py:1221-1263 | Recovery keeps the crash invariant at every stop, removes the run directory when it succeeds, and succeeds without further faults exactly on the recoverable states. Without changing anything it refuses every other state, and every directory with a readable manifest that no transaction leaves behind: without a proper PREPARING, with a strange entry, with a foreign or an additional name of an item, or with a COMMITTED that does not vouch for the manifest and the new files. On any disk it writes to no destination unless an uncommitted manifest is to be rolled back. |
| SetupWriter.LocalSetupWriter.Save | backend/app/tools/local_setup_wizard.py:494-522 | Success is reported exactly when COMMITTED is visible, and then everything is installed. When one step before that reports an error and no later step is disturbed, the save answers WRITE_FAILED, every destination is what it was, and the run directory is gone once PREPARING was there; ROLLBACK_FAILED takes a further fault. Without faults a permitted save succeeds and leaves nothing behind. |
| SetupWriter.LocalSetupWriter.Transact | backend/app/tools/local_setup_wizard.py:497-515 | From a settled disk, staging, committing and cleaning up either installs every value or can be undone, under every fault; after a single reported error before COMMITTED it is undone at once, with nothing left behind from PREPARING on. |
| SetupWriter.LocalSetupWriter.CommitAndFinish | backend/app/tools/local_setup_wizard.py:499-515 | After staging, reporting success and having published COMMITTED are the same; a single reported error before COMMITTED restores every destination and removes the run directory, and any failure leaves a state recovery understands. |
| SetupWriter.LocalSetupWriter.RollbackAndRaise | backend/app/tools/local_setup_wizard.py:525-531 | Undisturbed, it restores every destination, removes the run directory and answers WRITE_FAILED; it answers ROLLBACK_FAILED only after a further fault. |
| SetupWriter.LocalSetupWriter.Commit | backend/app/tools/local_setup_wizard.py:834-840 | Installing one item keeps the transaction undoable, whether it stops before, between or after its two steps, and leaves later items pending. |
| SetupWriter.LocalSetupWriter.MarkCommitted | backend/app/tools/local_setup_wizard.py:843-867 | Done exactly when the marker is visible, whatever the rename reported; otherwise the transaction can still be undone. |
| SetupWriter.LocalSetupWriter.Rollback | backend/app/tools/local_setup_wizard.py:893-941 | Invalid items stop it before any change; from a logged transaction it keeps the invariant at every stop, restores every original inode when it succeeds, and succeeds when no fault occurs. |
| SetupWriter.LocalSetupWriter.UndoAll | backend/app/tools/local_setup_wizard.py:897-923 | The loop goes on after a failing item, keeps everything undone so far undone, and fails only when a fault occurred. |
| SetupWriter.LocalSetupWriter.Cleanup | backend/app/tools/local_setup_wizard.py:1025-1102 | Removes artifacts, manifest, markers and directory in an order that leaves a recoverable or settled state at every stop; on any disk, only entries of the run directory go. |
| SetupWriter.LocalSetupWriter.RecoverRunWithoutManifest | backend/app/tools/local_setup_wizard.py:1141-1205 | Without a manifest, recovery without further faults removes the directory exactly when it is empty or PREPARING is there, and keeps the crash invariant at every stop; on any disk, only entries of the run directory go. |
| SetupWriter.LocalSetupWriter.StageAll | backend/app/tools/local_setup_wizard.py:651-688 | Staging changes no destination at any stop; when done, the manifest describes every item and each can be installed. |
| SetupWriter.LocalSetupWriter.StageFile | backend/app/tools/local_setup_wizard.py:725-778 | One staged file: when done, its rollback link and its new inode join the items staged before; at every stop no destination has changed and recovery may still remove everything; without faults it succeeds. |
| SetupWriter.LocalSetupWriter.WriteManifest | backend/app/tools/local_setup_wizard.py:780-831 | Publishing the manifest turns a draft into a logged transaction that can be undone. |
| SetupWriter.LocalSetupWriter.ValidateDestinations | backend/app/tools/local_setup_wizard.py:600-610 | Passes exactly when every target is a fixed secret file that does not exist, or has one link and may be replaced, and `.env` has at most one link. |
| SetupWriter.DestinationsAreNeverTorn | backend/app/tools/local_setup_wizard.py:834-840 | In every state the crash invariant allows, a destination is its original inode or has its complete new content. |
| SetupWriter.LonePreparingTempIsNotRecoverable | backend/app/tools/local_setup_wizard.py:695-711 | From any settled disk, the state with only PREPARING.tmp in the run directory satisfies the crash invariant and is not recoverable. |
| SetupWriter.LocalSetupWriter.SaveCutOffBeforePreparing | backend/app/tools/local_setup_wizard.py:695-711 | A save that is cut off right after it has created PREPARING.tmp gets into that state, and any number of restarts is refused and leaves it as it is. |
| SetupWriter.LocalSetupWriter.RecoveryCutOffAfterPreparing | backend/app/tools/local_setup_wizard.py:1199-1200 | A save cut off after its first artifact, and a recovery cut off after it has unlinked PREPARING first, get into the other unrecoverable state, where every restart is refused. |
| SetupSteps.InstallKeepsOpen | backend/app/tools/local_setup_wizard.py:834-840 | The step that makes one item visible keeps every other item's links, identities and undo information intact. |
| SetupSteps.UndoKeepsOpen | backend/app/tools/local_setup_wizard.py:897-923 | Undoing one item keeps the logged transaction intact and restores that item. |
| SetupSteps.CrashUnlink | backend/app/tools/local_setup_wizard.py:1046-1098 | Removing any entry that clean-up may remove keeps the crash invariant. |
| SetupSteps.PublishCommitted | backend/app/tools/local_setup_wizard.py:843-867 | Renaming the marker into place seals a transaction whose destinations are all installed. |
| SetupSteps.StageItem | backend/app/tools/local_setup_wizard.py:651-688 | A freshly staged item shares no name and no inode with those staged before it. |
| SetupTransaction.DescribedItemsAreValid | backend/app/tools/local_setup_wizard.py:944-1014 | All identity and link-count checks pass in every state the invariant allows. |
| SetupTransaction.ItemIsValidExactly | backend/app/tools/local_setup_wizard.py:944-1014 | The comparisons of identities and link counts accept an item exactly when its names lead to its new and its original file and no other name leads there. |
| SetupTransaction.ChecksRefuseExactlySuspects | backend/app/tools/local_setup_wizard.py:1105-1138 | The checks before a recovery refuse exactly the directories with a damaged item, a strange entry, no proper PREPARING, or a COMMITTED that does not vouch for manifest and destinations. |
| SetupTransaction.SettledDestinationsHaveOneLink | backend/app/tools/local_setup_wizard.py:172-183 | Once the run directory is gone, every file has exactly one link. |
| ExecutionSafety.AtMostOneAdd | backend/app/workers/download_executor.py:309-335 | Over every run, at most one add is issued per approval, whether it arrives or is lost; none while the execution is pending, waiting, validating, failed, cancelled or already present; exactly one when it is submitted. |
| ExecutionSafety.AddsAreNeverForgotten | backend/app/workers/download_executor.py:309-335 | No step of any run takes an issued add off the record, so those counts are over whole runs. |
| ExecutionSafety.AddsFollowTheirGuard | backend/app/workers/download_executor.py:309-335 | In every run, each issued add comes after a write guard of the same worker and token that saw the plan and policy verify, no broken fence for an automatic execution, a running lease and the approval EXECUTING. |
| ExecutionSafety.ApprovalExecutionJobCoupling | backend/app/services/executions.py:773-861 | In every reachable state the approval is EXECUTING exactly in the four held statuses, CONSUMED exactly in the two final ones, and a job exists exactly when it is CONSUMED. |
| ExecutionSafety.WithdrawnApprovalNeverAdds | backend/app/services/approvals.py:716-748 | A rejected, expired or revoked approval has caused no add and stays withdrawn, without adds, in every continuation. |
| ExecutionSafety.RevocationAfterReservationIsRefused | backend/app/services/approvals.py:726-748 | Once the submission is reserved, revoking changes nothing. |
| ExecutionSafety.LostLeaseStaysLost | backend/app/workers/download_executor.py:1000-1032 | A token that is not the lease of a row is never its lease again, whatever clocks say. |
| ExecutionSafety.FencedWorkerChangesNothing | backend/app/workers/download_executor.py:1000-1032 | No guard, renewal, reservation, finalization or failure mark of a worker without the lease changes execution, approval or job. |
| ExecutionSafety.RecoveryFencesTheHolder | backend/app/workers/download_executor.py:834-894 | Recovering a stale row fences its holder for the rest of the run. |
| ExecutionSafety.TableConstraintsHold | backend/app/models/entities.py:472-559 | Every execution row of every reachable state satisfies all check constraints of its table. |
| ExecutionSafety.StepAdvances | backend/app/models/entities.py:1264-1282 | Every step is accepted by the constraints and the write-once guard, and never undoes progress. |
| ExecutionSafety.HashBundleIsWrittenOnce | backend/app/models/entities.py:1264-1282 | Once persisted, hashes, size, file count and times never change in any continuation, nor do the bound columns. |
| ExecutionSafety.ExecutionsSettle | backend/app/workers/download_executor.py:863-877 | An execution changes status at most eight times per attempt left plus its rank, in a run of any length. |
| ExecutionSafety.RetryIsNeverStranded | backend/app/workers/download_executor.py:428-447 | A pending row, or a waiting row whose delay is over, can always be claimed. |
| ExecutionProtocol.StepKeepsInvariant | backend/app/workers/download_executor.py:182-419 | Every protocol step of every actor keeps the invariant over rows, adds, tokens and worker phases. |
| ExecutionTransactions.FreshIsNotStale | backend/app/workers/download_executor.py:1000-1017 | At one clock value a lease is never both accepted as fresh and selected as stale. |
| ExecutionTransactions.RetryDelayIsBoundedAndMonotone | backend/app/workers/download_executor.py:1042-1046 | The delay never shrinks with attempts and stays between the configured base and maximum. |
| ExecutionTransactions.RetryDelayDoubles | backend/app/workers/download_executor.py:1042-1046 | The first delay is the base, and each further attempt doubles it up to the maximum. |
| ExecutionTransactions.ReserveAdvances | backend/app/services/executions.py:725-861 | A reservation cancels or reserves; a reserved hash is one of the torrent's identity hashes and the expected one where a plan names one, and the row satisfies every constraint. |
| ExecutionTransactions.GuardAdvances | backend/app/workers/download_executor.py:567-685 | A refused guard cancels, an allowed one leaves the expected status, and both rows satisfy every constraint. |
| ExecutionTransactions.GuardDecides | backend/app/workers/download_executor.py:567-685 | An external request is permitted exactly under a running lease in the expected status, with plan and policy verifying, no broken fence for an automatic execution, and the approval EXECUTING, or approved and unexpired while validating; a permitted guard only renews the lease, and a refused one cancels before a write only. |
| ExecutionTransactions.ReserveDecides | backend/app/services/executions.py:725-861 | A reservation is made exactly under a running lease with the approval approved and unexpired and, where the plan names a hash, one of the torrent; then hashes, size, file count and times are those of the torrent. A lapsed approval cancels instead. |
| ExecutionTransactions.FinalizeDecides | backend/app/services/executions.py:864-1079 | Job, approval and execution are closed together exactly for a held, running, matching submission without a job; otherwise nothing changes. |
| ExecutionTransactions.ClaimDecides | backend/app/workers/download_executor.py:428-469 | A row is claimable exactly while it has attempts left and is pending or waits no longer; a claim takes one attempt and starts a lease of the configured length. |
| ExecutionTransactions.RecoveryDecides | backend/app/workers/download_executor.py:834-894 | Exactly the active rows locked for longer than a lease time are freed: a validation is retried while attempts are left and failed otherwise, a submission needs reconciliation. |
| ExecutionTransactions.ValidationFailureDecides | backend/app/workers/download_executor.py:896-955 | Only the holder of a validating row retries it, for a retryable error with attempts left, or else fails it. |
| ExecutionTransactions.ReservedFailureDecides | backend/app/workers/download_executor.py:957-998 | The holder of a submitting row makes its outcome unknown after the write guard and due for reconciliation before it, never a retry. |
| ExecutionTransactions.ReconciliationDecides | backend/app/services/executions.py:580-669 | Reconciliation is required of exactly an unknown outcome or a held submission, and a request for it while it is due puts requester, time and reason on record. |
| ExecutionTransactions.ApprovalDecides | backend/app/services/approvals.py:524-748 | Exactly an unexpired pending approval is decided and exactly an unexpired approved one revoked, with the time of the decision; an overdue one expires. |
| ExecutionTransactions.FinalizeAdvances | backend/app/services/executions.py:864-1079 | Finalizing keeps every constraint and the write-once columns. |
| ExecutionTransactions.FailureAdvances | backend/app/workers/download_executor.py:896-998 | Both failure marks keep every constraint, and a waiting row keeps an attempt. |
| ExecutionWorker.Worker.ProcessClaim | backend/app/workers/download_executor.py:182-419 | Whatever the world answers and whatever everybody else does, the transactions of the worker are a run of the protocol and no approval ever gets a second add. What the worker did is exactly: nothing or a reservation, then at most one add, none for a torrent that is or appears there, then at most one finalization with the outcome that is due, then one failure mark for an error other than a lost lease, of the kind that fits whether the reservation was made. When nothing fails, nobody interferes and the torrent is as planned, it ends with the execution closed as SUBMITTED after one add, or as ALREADY_PRESENT without one. |
| ExecutionWorker.Worker.Submit | backend/app/workers/download_executor.py:306-405 | After the reservation, a torrent that is there already is finalized as ALREADY_PRESENT without an add; any other gets at most one add and, when nothing fails, is finalized as SUBMITTED. |
| ExecutionWorker.RunOnce | backend/app/workers/download_executor.py:164-180 | Recover, claim and process: from any reachable state, on any schedule of the others and with clock readings that need not agree, one round of a worker is a run of the protocol and leaves the worker idle. It reports progress exactly when it recovered or claimed something; when it claims nothing and the others are quiet, nothing unlocked is claimable, or stale unless it recovered a full batch; what it does with a claim is what processing a claim does, and in a calm world the claimed row is closed with the outcome that is due. |
| ExecutionWorker.Worker.AddTorrent | backend/app/workers/download_executor.py:309-335 | The add follows a permitted write guard, at most once; an outcome is only reported as submitted after an add that arrived and was answered. |
| ExecutionEnvironment.Environment.Perform | backend/app/services/executions.py:580-1079 | Every action of anybody, run by loading rows, assigning their columns and committing, is exactly that action's step of the protocol, and every execution keeps an audit trail without gaps that ends in its status. |
| ExecutionEnvironment.Environment.EnsureAllowed | backend/app/workers/download_executor.py:567-685 | A guarded transaction on loaded rows is the guard step of the protocol, and its outcome tells the phase the worker is in. |
| ExecutionEnvironment.Environment.Reserve | backend/app/workers/download_executor.py:538-565 | A reservation on loaded rows is the protocol's, and records the token under which the one add may be issued. |
| ExecutionEnvironment.Environment.ClaimNext | backend/app/workers/download_executor.py:428-469 | Of the rows that nobody else has locked, the oldest claimable one is claimed under a fresh token; nothing changes when there is none. |
| ExecutionEnvironment.Environment.RecoverStale | backend/app/workers/download_executor.py:834-894 | A round of recovery is one protocol step per freed row; when it found fewer than fifty, no unlocked row is stale afterwards. |
| ExecutionProtocol.RunAppend | backend/app/workers/download_executor.py:182-419 | A run extended by a step is the run of the extended list of steps. |
| ExecutionServices.ExecutionRow.PersistInfoHashBeforeSubmission | backend/app/services/executions.py:725-861 | Assigning the columns one by one is the reservation of the protocol, on every branch, and is logged as one event exactly when the status changes. |
| ExecutionServices.ExecutionRow.Finalize | backend/app/services/executions.py:864-1079 | Creating the job, consuming the approval and closing the row is the finalization of the protocol, logged as one event; repeating it changes nothing. |
| ExecutionServices.ExecutionRow.MarkOutcomeUnknown | backend/app/services/executions.py:672-722 | Only a submitting row under a live lease becomes unknown, loses its lease and gets one event; anything else, and a repetition, changes nothing. |
| ExecutionServices.ExecutionRow.MarkReconciliationRequired | backend/app/services/executions.py:621-669 | An unknown row, or a submitting row under a live lease, is put up for reconciliation; anything else, and a repetition, changes nothing. |
| ExecutionServices.ExecutionRow.RequestReconciliation | backend/app/services/executions.py:580-618 | Succeeds exactly from the three reconciliation states, records the requester once, and changes nothing when it fails or is repeated. |
| ExecutionServices.ApprovalRow.Approve | backend/app/services/approvals.py:524-641 | Approves exactly a pending, passable approval before its expiry; an overdue one is expired instead. |
| ExecutionServices.ApprovalRow.Reject | backend/app/services/approvals.py:694-713 | Rejects exactly a pending approval before its expiry. |
| ExecutionServices.ApprovalRow.Revoke | backend/app/services/approvals.py:716-748 | Revokes exactly an approved approval before its expiry, and so never one whose submission is reserved. |
| ExecutionServices.ApprovalRow.Consume | backend/app/services/approvals.py:751-794 | Consumes exactly an executing approval. |
| DownloadExecutors.DownloadExecutor.ClaimNextExecution | backend/app/workers/download_executor.py:428-469 | Claims the oldest claimable unlocked row, or none when there is none, and changes no other row. |
| DownloadExecutors.DownloadExecutor.SelectClaimable | backend/app/workers/download_executor.py:431-447 | Finds the first claimable row by creation time and identifier. |
| DownloadExecutors.DownloadExecutor.EnsureExternalActionAllowed | backend/app/workers/download_executor.py:567-685 | Assigning the columns is the guard of the protocol on every branch. It permits exactly what may be done: lease, status, plan and policy, fence and approval all as they have to be; and it reports a lost lease exactly when the lease does not run. |
| DownloadExecutors.DownloadExecutor.ReserveSubmission | backend/app/workers/download_executor.py:538-565 | The fresh-lease check followed by the persisting service is the reservation of the protocol. |
| DownloadExecutors.DownloadExecutor.SelectStale | backend/app/workers/download_executor.py:838-850 | Of the unlocked rows, the at most fifty stale ones that have been locked longest, in that order; fewer than fifty only when there are no more. |
| DownloadExecutors.DownloadExecutor.RecoverStaleExecutions | backend/app/workers/download_executor.py:834-894 | Every row the query returned is recovered as the protocol says, loses its lease and logs one event. |
| DownloadExecutors.DownloadExecutor.MarkValidationFailure | backend/app/workers/download_executor.py:896-955 | Only the lease holder of a validating row schedules a retry or fails it; a scheduled retry can be claimed from the moment its delay is over, and not before. |
| DownloadExecutors.DownloadExecutor.MarkReservedFailure | backend/app/workers/download_executor.py:957-998 | After a possible add the outcome is unknown, before it reconciliation is required; nobody retries automatically. |
| DownloadExecutors.DownloadExecutor.RenewLease | backend/app/workers/download_executor.py:813-832 | For a whole lease time from a renewal its holder passes the lease check and no recovery selects the row; a lease that is lost or too old is not revived, and nothing changes. |
| ExecutionIntents.IntentIsConsumedExactlyOnce | backend/app/services/executions.py:441-444 | In every reachable state an intent is consumed if and only if exactly one execution references it. |
| ExecutionIntents.OneActiveIntentOneExecution | backend/app/services/executions.py:190-251 | An approval has at most one active intent, at most one execution, and never both. |
| ExecutionIntents.StoredExecutionsVerify | backend/app/services/executions.py:1228-1381 | Every stored execution passes its integrity comparison with approval, plan and intent, in every reachable state. |
| ExecutionIntents.ReplayIsIdempotent | backend/app/services/executions.py:302-341 | After a success and anything in between, the same key is answered with the same execution if and only if the request is the same, fails otherwise, and changes nothing either way. |
| ExecutionIntents.RecoveryAgreesForManualRequests | backend/app/services/executions.py:479-528 | Recovery finds the execution of a successful manual request and always refuses an automatic one. |
| ExecutionIntents.ConsumeKeepsInvariant | backend/app/services/executions.py:420-444 | Using up an active intent for a new execution keeps all uniqueness and binding facts. |
| ExecutionIntents.ControlPlane.ExecuteApprovedPlan | backend/app/services/executions.py:272-476 | Updating the tables statement by statement is the transition of the model on every branch, and keeps its invariant. Under a new key it succeeds exactly when the request is well formed, the approval is approved, unexpired and unused with a plan under the current policy, and the intent is this approval's, active, unexpired, unused and still matches; then one execution with the columns written out is added and the intent is used up. An overdue approval or intent is retired, and every other refusal changes nothing. |
| ExecutionIntents.ControlPlane.CreateExecutionIntent | backend/app/services/executions.py:159-269 | The same for creating an intent: it succeeds exactly for an approval that is ready, without an active unexpired intent, within the time limit and with a new nonce; then lapsed intents are retired and one with the columns written out is added. A refused request changes nothing but an overdue approval. |
| ExecutionIntents.ExecuteDecides | backend/app/services/executions.py:272-476 | When a request under a new key succeeds, what it then adds, and what a refused one retires, all in terms of the stored rows and the request. |
| ExecutionIntents.CreateIntentDecides | backend/app/services/executions.py:159-269 | The same for the creation of an intent. |
| PathCollisions.ValidatorIsExact | backend/app/schemas/media_imports.py:70-91 | For every collision key, the validator accepts a list exactly when no two keys agree and, where asked, no key's segments lead into another's anywhere in the list. |
| PathCollisions.NeighboursAreEnough | backend/app/schemas/media_imports.py:88-91 | In a sorted list some neighbours collide if and only if some two paths collide. |
| PathCollisions.JoinUndoesSplit | backend/app/schemas/media_imports.py:88-88 | Splitting at slashes loses nothing, so distinct keys have distinct segments. |
| PathCollisions.AllDifferentMeansDistinct | backend/app/schemas/media_imports.py:85-86 | Comparing the size of the set with the length detects exactly the repetitions. |
| TorrentStructure.ValidateTorrent | backend/app/services/torrent_validation.py:71-126 | Accepts exactly the info dictionaries that satisfy the whole-dictionary rules, and reports the name, the privacy flag, the version, the size and file count on which both versions agree, and a v2 hash exactly for version 2. |
| TorrentStructure.FileTreeWalk.Walk | backend/app/services/torrent_validation.py:189-220 | The walk with running totals and early exits accepts exactly the trees that fit as a whole, with their exact file count and total size. |
| TorrentStructure.ValidateV2Files | backend/app/services/torrent_validation.py:176-221 | Accepts exactly the v2 structures: power-of-two piece length, depth, file count and total within bounds, every node well formed. |
| TorrentStructure.ValidateV1Files | backend/app/services/torrent_validation.py:129-173 | Accepts exactly the v1 structures whose pieces cover the content without a whole piece to spare. |
| TorrentStructure.ValidateV1List | backend/app/services/torrent_validation.py:148-168 | Accepts exactly the lists of well-formed files with pairwise different paths and a bounded total, and returns the total. |
| TorrentStructure.BitTrickFindsPowersOfTwo | backend/app/services/torrent_validation.py:179-181 | The bit test on the piece length accepts exactly the powers of two. |
| TorrentStructure.PiecesCoverContent | backend/app/services/torrent_validation.py:170-172 | The rounded-up quotient is the unique number of pieces that covers the content. |
| TorrentStructure.FilesHaveContent | backend/app/services/torrent_validation.py:99-102 | A tree has content exactly when it has files. |
| TorrentStructure.Utf8IsExact | backend/app/services/torrent_validation.py:255-263 | The byte test accepts exactly the encodings of sequences of characters. |
| TorrentStructure.ComponentIsOneName | backend/app/services/torrent_validation.py:255-265 | A component is accepted exactly when it encodes a text that is one nonempty path segment, neither of the two dot names, without backslash and NUL. |
| PolicyChain.HashCommitsToHistory | backend/app/services/automation_policy.py:125-163 | If a revision verifies in each of two stores with the same hash, the stores agree on number, choices, predecessor and hash of every revision up to and including it. |
| PolicyChain.PolicyStore.VerifyPolicyRevision | backend/app/services/automation_policy.py:125-163 | The loop ends on every stored table and succeeds exactly when the chain below the revision holds. |
| PolicyChain.PolicyStore.GetCurrentPolicy | backend/app/services/automation_policy.py:83-122 | Hands out the policy exactly when its chain holds and the head agrees with it, and creates the default once. |
| PolicyChain.PolicyStore.Publish | backend/app/services/automation_policy.py:166-215 | Succeeds exactly for the current base revision and complete acknowledgements; then one row is added on top, the chain still verifies, and the head guard and the unique hash column accept it. |
| PolicyChain.PolicyStore.PublishAll | backend/app/services/automation_policy.py:172-179 | Of any number of publishers on one base revision, exactly the first with valid acknowledgements succeeds, and none when the base is not current. |
| PolicyChain.AppendKeepsChain | backend/app/models/entities.py:1351-1380 | Appending keeps the chain, satisfies every constraint and is what the head guard demands. |
| RuntimeConfig.ReachableConfigurationsRoundTrip | backend/app/core/runtime_config.py:530-626 | From any loaded or empty configuration and after any updates, loading what was written gives the configuration back exactly when no stored address ends in white space, and always when the start and the updates have clean addresses. |
| RuntimeConfig.LoadingWhatWasWritten | backend/app/core/runtime_config.py:571-626 | Loading the payload of a well-formed configuration gives it back, or fails exactly when an address ends in white space. |
| RuntimeConfig.SpaceBeforeTheSlashIsNotReadBack | backend/app/core/runtime_config.py:448-465 | With a parser that meets the one assumption made about parsers, an accepted address after which the written configuration cannot be loaded. |
| RuntimeConfig.SecretsStayWithTheirIdentity | backend/app/core/runtime_config.py:326-445 | Over every sequence of merges, each stored secret was supplied under exactly the address and user or site it is stored with now, or was loaded together with them. |
| RuntimeConfig.LoadedConfigurationsFit | backend/app/core/runtime_config.py:571-669 | Whatever can be loaded, from a payload of version 1 or 2, keeps every limit, format and cross-field rule. |
| RuntimeConfig.VersionOneIsTakenOver | backend/app/core/runtime_config.py:571-644 | What a payload of version 1 stores is taken over field by field, with the addresses of the settings where it stored none, and with an AvistaZ site exactly when it has credentials. |
| RuntimeConfig.MergeKeepsFits | backend/app/core/runtime_config.py:326-378 | An accepted merge keeps every limit, format and cross-field rule of a configuration. |
| RuntimeConfig.MergeIsAcceptedExactly | backend/app/core/runtime_config.py:326-527 | An update is accepted exactly when every group is known, every given field is of its kind and clean, required ones are there, and the resulting addresses are allowed. |
| RuntimeConfig.MergeTakesFieldByField | backend/app/core/runtime_config.py:326-527 | After an accepted update, each field it names has the value given, without slashes at the end of origins; each other field is kept; a secret that is not given is kept exactly when its address and its user or site are unchanged, the TMDB token always; and the site of the other architecture is untouched. |
| RuntimeConfig.EmptyUpdateChangesNothing | backend/app/core/runtime_config.py:326-378 | The update that names nothing is accepted and changes nothing. |
| RuntimeConfig.CleanTexts | backend/app/core/runtime_config.py:509-519 | A text is accepted exactly when it is short enough, has no control character, and no white space at either end. |
| RuntimeConfig.MergeKeepsAddressesClean | backend/app/core/runtime_config.py:448-465 | An accepted update keeps the addresses readable if and only if those it gives are. |
| RuntimeConfig.RuntimeConfigStore.SaveConfiguration | backend/app/core/runtime_config.py:238-252 | An unreadable file, a refused update and a result of more than 64 KiB leave the file alone; every other update is written, takes over what it names, keeps the rest, and can be read back exactly when no address of the result ends in white space. |
| TtlCache.AsyncTtlCache.Get | backend/app/core/http.py:202-212 | A hit is the value set last for the key and not expired, and there is one exactly when such an entry is held; a miss means nothing was set, it expired, or at least the maximum number of other keys were touched since. |
| TtlCache.AsyncTtlCache.Set | backend/app/core/http.py:214-219 | The new entry is last, the size stays within the maximum, and only the least recently touched entry is dropped. |
| TtlCache.OldestHasSeenTheOthers | backend/app/core/http.py:218-219 | The first of n + 1 entries has seen n other keys touched since its own last touch. |
| TtlCache.MoveToEndKeepsOrder | backend/app/core/http.py:211-217 | Touching a key keeps the entries in order of their last touch. |
| TtlCache.SerializedRateLimiter.Acquire | backend/app/core/http.py:184-192 | Any two grants are at least as far apart as their positions times the interval. |
| SchemaCollector.Collector.CollectDocument | backend/app/tools/nextfind_contract_probe.py:449-493 | Over any documents, no field occurs more often than its parent was observed, nodes and paths stay within their limits, and every key of every visited object is counted exactly once. While no limit has cut anything off, a document adds exactly the occurrences and types of the shown fields and the objects it contains; and nothing is cut off a document that keeps to the limits while there is room for it. |
| SchemaCollector.Collector.CollectFields | backend/app/tools/nextfind_contract_probe.py:485-493 | Visiting the fields of an object adds at most one occurrence for each beyond what their parents' observations cover, and exactly what they contain if nothing is cut off. |
| SchemaCollector.Collector.SafeItems | backend/app/tools/nextfind_contract_probe.py:468-484 | Keeps the shown fields in order up to the limit and counts each of the others once. |
| SchemaCollector.Collector.PresenceRate | backend/app/tools/nextfind_contract_probe.py:519-533 | The reported rate, rounded to six digits, is above zero and at most one. |
| SchemaCollector.PriorityFieldsGoLast | backend/app/tools/nextfind_contract_probe.py:479-484 | When fields are dropped, no priority field goes while another one stays. |
| SchemaCollector.KeptHaveTheCount | backend/app/tools/nextfind_contract_probe.py:468-484 | When nothing has to be dropped, selecting and sorting the fields of an object loses none of what it contains. |
| SchemaCollector.ParentOfChild | backend/app/tools/nextfind_contract_probe.py:486-486 | A field's path determines its parent's path, because shown names have no dot. |
| Episodes.DerivedCodesAreAiredMinusLocal | backend/app/core/episodes.py:122-148 | When both matrices normalise, the codes are the sorted printing, once each, of exactly the episodes that the aired matrix says and the local one does not, and both readers get exactly those episodes back. |
| Episodes.FallbackIsUpstream | backend/app/core/episodes.py:127-137 | When a matrix is absent or unreadable, the codes are the sorted printing of the upstream episodes, or none if that list is unreadable. |
| Episodes.EpisodePairIsExact | backend/app/core/episodes.py:13-63 | An item is read as an episode exactly when it is a code of two numerals, an object with a season, its own or the one it stands under, and an episode number, or an episode number inside a season, all in range. |
| Episodes.MatrixIsExact | backend/app/core/episodes.py:66-110 | A matrix is read exactly when every part of it names an episode, and then holds the named episodes, in order and once each, and no others. |
| Episodes.SeasonsAreExact | backend/app/core/episodes.py:88-97 | A mapping gives every season it lists, empty ones included, and those its episodes name, and no others. |
| Episodes.TokensAreWords | backend/app/core/episodes.py:98-103 | Splitting a text gives exactly its longest pieces without separators. |
| Episodes.NormalizingTwice | backend/app/core/episodes.py:66-110 | Normalising a normalised matrix gives the same matrix, empty seasons included. |
| Episodes.NormalizeEpisodeMatrix | backend/app/core/episodes.py:66-110 | The loops that fill the dictionary compute the normalised matrix, and fail where it does not exist. |
| Episodes.CollectIsExact | backend/app/core/episodes.py:72-106 | Collecting succeeds exactly when every item names an episode, and adds those episodes and no others. |
| Episodes.CollectSeasonsIsExact | backend/app/core/episodes.py:88-97 | The same for a mapping from seasons to episodes. |
| Episodes.CodeReadsBack | backend/app/services/matching.py:168-174 | A printed code is read back by the parser of codes and by the matching service. |
| DownloadMonitors.EveryJobIsObserved | backend/app/workers/download_executor.py:1327-1332 | Wherever the cursor stands, ceil(n / batch) + 1 runs observe every one of n jobs. |
| DownloadMonitors.OneRunFewerSuffices | backend/app/workers/download_executor.py:1327-1332 | ceil(n / batch) runs observe every job from every cursor position exactly when n is zero or n - 1 is a multiple of the batch size. |
| DownloadMonitors.NotTwiceBetweenWraps | backend/app/workers/download_executor.py:1380-1381 | Until the cursor wraps, no run comes back to a job observed before. |
| DownloadMonitors.DownloadMonitor.RunOnce | backend/app/workers/download_executor.py:1318-1382 | A run observes the next batch behind the cursor, or the first batch when nothing is left, and leaves the cursor on its last job. |
| DownloadMonitors.DownloadMonitor.RunUntilAllObserved | backend/app/workers/download_executor.py:1384-1403 | That many consecutive successful runs observe exactly the jobs of the table. |

## Left out

- HTTP servers and clients, the wizard's page and request handler, API routes, migrations, login and CSRF: plumbing.
- Validation of the wizard's payload and the rewriting of `.env`: the bytes to write are inputs of `Save`.
- Durability order, file modes, Windows ACLs and reading errors on the setup disk: a step that took effect persists, flushing is a step that may fail, reads succeed, inode numbers are not reused.
- More than one run directory at a time: the lock and recovery before each save leave at most one, which `Save` shows by creating it on a disk that has none.
- `.env.example`, which a save only reads.
- Two random file names that collide: `FreshToken` draws an unused one.
- The adapters for qBittorrent, AvistaZ and NextFind: `add_torrent` calls its write guard once and then issues at most one request, which may or may not arrive; an answer of success means that it arrived.
- Error codes, messages and the details of events: outcomes keep which branch was taken, and events keep the two statuses.
- The checks of a plan, a snapshot, a preflight policy or an observed torrent that only compare stored fields: they are boolean inputs of the steps that depend on them.
- SchemaCollector.Collector.PresenceRate: the quotient is a real number, without the rounding of the floating-point division before the rounding to six digits.
- ExecutionWorker.Worker.ProcessClaim: a raised error is retryable or not, and a lost lease or not, as an answer of the world; it does not follow which adapter raised it.
- ExecutionIntents.StoredExecutionsVerify: covers approval, plan and intent; the decision and policy rows of automatic executions are not part of this model.
- Two transactions of different approvals that insert the same idempotency key at the same moment: transactions run one after the other, so the unique index never has to decide.
- SHA-1, SHA-256, JSON text, bencoding and Unicode normalisation: injective or arbitrary functions; info dictionaries and JSON documents are taken decoded.
- RuntimeConfig.LoadingWhatWasWritten: address parsing is any pair of predicates for which an origin without its trailing slash is still an origin.
- The settings overrides and the authentication record of the runtime configuration.
- White space and digits outside ASCII in episode codes and configuration strings.
- The order of the seasons in a normalised matrix: the matrix is a map.
- The line and byte budgets of the NDJSON reader in the contract probe.
- DownloadMonitors.DownloadMonitor.RunOnce: successful runs only; a run that fails leaves the cursor where it was or at the start.
- The observation of a job by the monitor, including completed jobs without a completion time, which the database would refuse.
- `workers/automation.py`: the lease pattern again in a simpler form.
- Whether automatic approval can be reached: only its safety is covered, through the approval rows.
- Media-import decisions, role ranks, H&R rules and preflight severities: finite tables.
