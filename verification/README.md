# Verification of the Edgehog device runtime

A Dafny model of the stateful protocols of the Edgehog device runtime, with proofs of what they promise over
whole runs. To check it, run `dafny verify dfyconfig.toml`.

## What is modelled

**Over-the-air updates** (`OtaStatus`, `OtaDownload`, `OtaDeploy`, `OtaEngine`, `OtaRuns`, `OtaCancel`,
`OtaRestart`, `OtaInstall`, `OtaImage`, `OtaActor`, `OtaProtocol`). The engine goes from status to status, publishing,
downloading, installing, persisting a state file, rebooting, and checking the booted slot after the restart. Every interaction
with the world is an effect, what the world answers is an argument over which every theorem quantifies, and a power
cut is a prefix of the effects of a boot. `OtaEngine` is the specification; the object of `OtaActor` works on its
fields and is proved to have exactly those effects. `OtaProtocol` interleaves the engine with the process that
accepts requests: they share a flag and a bounded queue.

**The persistent job queue and its workers** (`JobQueue`, `Timestamp`, `Workers`, `StorageTask`). A table of rows
that become pending, in progress, done or failed, and are deleted; the two workers that drain it and sleep; the
producers that insert and then notify; and crashes at any point. The key of a row is its id, its type and its tag.

**Pipe framing and the adapters a download is written through** (`Bytes`, `Cbor`, `PipeStream`, `IoAdapters`).
Length-prefixed CBOR headers and footers around a raw body, over writers that accept as little as they like, and the
counters of progress, limit and digest, which have to agree.

**Telemetry configuration** (`TelemetryInterfaces`, `Telemetry`): defaults and overrides, the file of overrides,
restarts, and the table of tasks.

**Two joins** (`ContainerJoin`, `StoredFiles`): containers of the runtime with the stored ones, and files on disk
with the properties that name them.

Each loop and each object that the program changes in place is a loop or a class here, proved against a function or a
relation; the theorems about whole runs are lemmas about those.

## Where the program does not keep what one would expect

These are properties that fail. Each has a lemma that says exactly when they hold, or how the failure comes about.

- The state file of a pending update can be erased without any outcome being published: whether it exists is asked
  three times, and an unreadable metadata counts as "no" (`OtaRestart.StartupErasesWithoutOutcome`). A file that is
  there but cannot be read is erased after a failure that names no update, so the server is not told
  (`OtaRestart.StartupErasesUnreported`).
- A success does not imply that the image was installed: the state is persisted before the installation, installing is
  only triggered then (`src/ota/rauc.rs:64-66`), and a boot into the other slot looks like an update whatever became
  of it. The installation was seen to complete exactly when its turn ended with signal 0, the run went on, and the
  power lasted until then (`OtaInstall.SuccessIsInstalledExactlyWhenFinished`). It was not if the power was cut before
  or during the installation, or if the installation was refused or failed and the state file could not be erased
  (`OtaInstall.AnyDeploymentCanSucceed`, `OtaInstall.FirstBootDoesNotErase`, `OtaRestart.PowerCutSkipsInstallation`).
- One update can have two outcomes. It is reported again exactly when its file was kept
  (`OtaRestart.ReportedAgainExactlyWhenKept`), which a run does that loses power or cannot see or remove the file at its
  end (`OtaRestart.ErasesAtTheEnd`); so a refused installation can be followed by a success
  (`OtaInstall.OutcomeReportedTwice`).
- The flag that an update is in progress can go down while a request is still queued: after a cancellation another
  request is accepted before the cancelled run has left its loop, and that run lowers the flag
  (`OtaProtocol.FlagIsSafeExactlyWhenAlone`, `OtaProtocol.CancelledRunLowersTheNextFlag`).
- In a release build the comparison of deploy progress can wrap around, so that a lower percentage is published
  (`OtaDeploy.PublishedProgressRises`). Percentages that are not negative never do that
  (`OtaDeploy.NonNegativeNeverSlips`).
- `contains` ignores the status of a row. A deletion whose result was recorded, but whose row was not removed because
  its answer could not be sent or the power was cut just then, stays in the table, and from the next start on the
  storage worker no longer waits for anything. That is the only way it comes about
  (`Workers.StaleExactlyWhenAbandoned`, `Workers.PowerCutLeavesStaleDelete`, `Workers.StaleDeleteKeepsWorkerAwake`,
  `Workers.StaleDeleteSpins`).
- `write_footer` does not look at how much of the body was written. A short transmission that is closed is refused
  (`PipeStream.AcceptedExactlyWhenComplete`). With bytes behind it, it is accepted exactly when they and its footer
  fill up the body and a status follows (`PipeStream.ShortIsReceivedExactlyWhenFilled`), which another transmission can
  do (`PipeStream.ShortIsAccepted`).
- The digest of a resumed download is not that of the whole file if the old file was longer than what is written
  (`IoAdapters.DigestCoversTheFile`).
- A file that cannot be read, or that is not met before a cancellation, loses its property, and a property that cannot
  be sent leaves the old ones: the properties name the files on disk exactly when neither happens
  (`StoredFiles.SyncStoredFiles`, `StoredFiles.AgreesExactlyWhenAllRead`).

## Model

| member | source | states |
|---|---|---|
| OtaRestart.SuccessIsVouchedFor | src/ota/mod.rs:717-783 | Restart safety: over any number of boots into any slots, with requests, cancellations and a power cut after any effect of any boot, `Success(id)` is published only if the state persisted last was persisted by a deployment of that uuid with the slot booted then, the slot booted now is another one, and the primary slot was marked good and echoed back since this boot |
| OtaImages.SuccessWasDownloaded | src/ota/mod.rs:481-542 | On a device that does not stream, over any boots and power cuts, every `Success` is of an update some request of which was downloaded whole and found compatible: in its downloading turn the path was valid, the client was set up, some attempt transferred as many bytes as announced without a broken or refused chunk, and the compatibles of bundle and system were both known and equal |
| OtaImages.PersistedWasDownloaded | src/ota/mod.rs:481-542 | The same of every state that is ever persisted |
| OtaImages.TouchedAfterDownload | src/ota/mod.rs:785-837 | In a run from `Init` on such a device, however it is cancelled, every write of the state, installation, completion and reboot comes after `Downloading` was published and after a downloading turn whose environment meets that condition |
| OtaImages.BeforeDeploying | src/ota/mod.rs:785-837 | A run from `Init` either touches nothing of the device, or consists of untouching effects up to its deploying turn, the second or third after the first, and then of the run from there; unless streaming it was downloaded in the turn before |
| OtaImages.RequestReboots | src/ota/mod.rs:669-708 | A request reboots the device if and only if its installation was seen to complete, the configuration leaves the reboot to the runtime, and the command works in the turn after the deployment; it comes right after `Rebooting` and after `Deployed` were published. What it installs is its own url when streaming, else the downloaded file |
| OtaInstall.SuccessIsInstalledExactlyWhenFinished | src/ota/mod.rs:560-667 | Over any boots and power cuts, each `Success` belongs to one deployment: the last that persisted its state, of that uuid, made by some request of some boot. Between the two the installation was seen to complete if and only if the world answered that request's deploying turn with an accepted installation, an operation and a stream that ends in signal 0, its run got one turn further, and that boot's power lasted until the publication |
| OtaInstall.AnyDeploymentCanSucceed | src/ota/mod.rs:560-667 | A success need not follow a completed installation: after a first boot that streamed and deployed a request, with any answers of the world, and did not erase its file, a boot into the other slot publishes the success; the installation was seen to complete if and only if it was accepted and ended in signal 0 before the power cut |
| OtaInstall.FirstBootDoesNotErase | src/ota/mod.rs:839-854 | Which happens in each of three ways: the power is cut right after the state was written, or right after the installation was started, or the file cannot be seen or removed at the end of a run that was refused or failed |
| OtaInstall.DeploymentStep | src/ota/mod.rs:545-667 | A deployment writes its state first and nothing later, and ends in `Deployed` if and only if the installation was accepted and ended in signal 0, else it fails; after the installation it publishes exactly the progress the fold reports, in order; it leaves a torn file exactly if the write was torn |
| OtaInstall.RequestDeploys | src/ota/mod.rs:785-837 | However it is cancelled, the run of a request persists its state at most once, and publishes `Deployed` if and only if its deploying turn finishes and another turn follows, at the computed distance from the state and with no success between |
| OtaInstall.DeploymentInHistory | src/ota/mod.rs:717-854 | A state persisted by a request of a boot is in the history of all boots, and so is its completion if it finishes, with nothing else persisted and no success between |
| OtaInstall.CompletedInHistory | src/ota/mod.rs:717-854 | Every `Deployed` of a history is the completion of a deployment of some boot that finishes |
| OtaInstall.PersistedInHistory | src/ota/mod.rs:560-565 | Every persisted state of a history was persisted by a request that some boot served |
| OtaInstall.OutcomeReportedTwice | src/ota/mod.rs:567-575 | One update can be reported as failed and then as successful: its installation is refused, its file cannot be seen or removed, and the next boot is into the other slot |
| OtaRestart.ReportedAgainExactlyWhenKept | src/ota/mod.rs:717-744 | A start-up run that sees and reads the file reports an outcome of the update that was persisted last, whatever was reported of it before, if and only if the file was neither erased nor torn since |
| OtaRestart.SuccessFollowsDeployment | src/ota/mod.rs:560-575 | A success follows the deployment that persisted its uuid, with nothing persisted between; an installation was started between them if and only if that was the very next thing the device did |
| OtaRestart.PowerCutSkipsInstallation | src/ota/mod.rs:560-575 | It need not have been: a power cut right after the state was persisted, and a boot into the other slot, publish the success with nothing installed |
| OtaRestart.StartupErasesWithoutOutcome | src/ota/mod.rs:355-367 | The start-up run erases the state file without having published a success or a failure if and only if the file is there, its metadata cannot be read, at first or by the check of a run that gets on to its second turn, and at the end it can be read and the file removed |
| OtaRestart.StartupErases | src/ota/mod.rs:839-854 | The start-up run erases the state file if and only if it is there, the run gets to its end, and the file is then seen and can be removed |
| OtaRestart.StartupReportsOutcome | src/ota/mod.rs:717-744 | The server is told the outcome of a pending update by the start-up run if and only if the file is seen at first and by the check, can be read, and the status after the check is published |
| OtaRestart.StartupErasesUnreported | src/ota/mod.rs:717-744 | An update is forgotten without the server being told if and only if the file is erased and was not seen, or could not be read: the failure that follows names no update, so no event is sent |
| OtaRestart.StartupTurns | src/ota/mod.rs:717-744 | The run of a pending update, effect by effect: the check, the one status it leads to, and the end |
| OtaRestart.RequestErasesAfterFailure | src/ota/mod.rs:839-854 | The run of a request erases the state file only if it leaves its loop, and then it published a failure carrying the id of the request |
| OtaRestart.ErasesAtTheEnd | src/ota/mod.rs:804-854 | A run erases the state file if and only if it leaves the loop, the file was there before or was written by the run, and the file is then seen and can be removed; so a run that loses power or waits for the reboot never does |
| OtaRestart.CheckVouches | src/ota/mod.rs:746-783 | A check that ends in success found the file of an earlier deployment in another slot and marked the primary slot good |
| OtaRestart.TransitionsAreInOrder | src/ota/mod.rs:560-575 | An installation only ever comes right after a state was persisted |
| OtaRestart.TurnIsSound | src/ota/mod.rs:804-837 | Publishing a status and making its transition, or dropping the transition half-way, keeps every promise about past successes and persisted slots |
| OtaRestart.BootIsSound | src/ota/mod.rs:355-381 | So does a whole boot: the start-up run and the requests served after it |
| OtaRestart.SavedWasPersisted | src/ota/mod.rs:560-575 | What the state file holds is what a deployment persisted last |
| OtaRuns.TransitionsDescend | src/ota/mod.rs:785-802 | Every transition strictly lowers the rank of the status, except that `Rebooting` stays as it is |
| OtaRuns.RunsEnd | src/ota/mod.rs:804-837 | A run that is given as many turns as its rank has left the loop idle, or waits for the reboot |
| OtaRuns.StaysRebooting | src/ota/mod.rs:710-715 | A run that waits for the reboot never leaves the loop |
| OtaRuns.RequestFailsOnce | src/ota/mod.rs:785-837 | Whatever happens to a request, its run emits at most one Failure event, it carries that id, exactly one if the run exits, and at most one status says that it was canceled |
| OtaRuns.FailedRunEnds | src/ota/mod.rs:804-837 | After a failure only that failure, possibly the late notice, and Idle are published |
| OtaRuns.ErrorRunFails | src/ota/mod.rs:785-802 | A run that is in an error ends in the failure with that error for the same request, its only one |
| OtaRuns.ExitPublishesIdle | src/ota/mod.rs:804-854 | The last status published by a run that exits is `Idle`; after it only the state file is cleared |
| OtaRuns.FailureEventsAreReported | src/ota/mod.rs:208-272 | The failures that are counted are exactly the statuses reported to the server as "Failure" |
| OtaRuns.UnderwayGoesOn | src/ota/mod.rs:785-802 | A request under way goes on with the same id, or fails with that id, and never becomes cancellable again |
| OtaRuns.DownloadGoesOn | src/ota/mod.rs:481-542 | A download leads to the deployment of the same request, or to its failure with its id |
| OtaRuns.DeployGoesOn | src/ota/mod.rs:544-666 | A deployment ends deployed, or fails, with the same id |
| OtaEngine.TransitionEffects | src/ota/mod.rs:785-802 | No transition publishes a failure or a success or erases the file; only a deployment writes the file, with its own uuid and the booted slot, or installs; only the check marks a slot |
| OtaEngine.DownloadGate | src/ota/mod.rs:481-542 | The gate itself: `Downloading` leads to `Deploying` with no progress if and only if the image arrives whole and is meant for the device, and to a failure with its id otherwise |
| OtaEngine.RetryPublishes | src/ota/mod.rs:439-478 | A download publishes only progress and errors of its own request |
| OtaCancel.CancelledInTime | src/ota/mod.rs:804-837 | A token that fires while the status is cancellable ends the run in `Failure(Canceled, Some(id))`, the only canceled status and the only failure of the run, with no write of the state file and no installation; and a run that is given as many turns as the rank of its status does end |
| OtaCancel.CancelledTooLate | src/ota/mod.rs:804-837 | Fired later or never, the token changes nothing but at most one extra publication of `Failure(Canceled, None)`: without it the effects are exactly those of the uncancelled run |
| OtaCancel.InTimeExactly | src/ota/mod.rs:804-837 | Which tokens are in time: one that fires in turn k once its transition has had n effects, if and only if that turn is cancellable in the uncancelled run and its transition has n effects at least, or the next turn is cancellable too; one that has fired already, if and only if the first turn is |
| OtaCancel.NoticedExactlyWhenSeen | src/ota/mod.rs:813-819 | And which of the others are noticed: the extra publication is there if and only if the run takes a turn that begins after the token fired |
| OtaCancel.TransitionTargets | src/ota/mod.rs:177-205 | No transition leads back to a cancellable status, or to the status of the notice |
| OtaCancel.UninterruptedTurn | src/ota/mod.rs:804-837 | A turn that is not interrupted differs from the uncancelled one by the notice alone, and spends the right to publish it |
| OtaActor.Ota.HandleOtaUpdate | src/ota/mod.rs:804-837 | The loop over the real object has exactly the effects, the file, the final status and the exit of the specified run, and leaves the flag down if and only if it exits |
| OtaActor.Ota.TakeTurn | src/ota/mod.rs:804-837 | One iteration: publish, look at the token, make or drop the transition, as specified |
| OtaActor.Ota.RunUntilCancelled | src/ota/mod.rs:820-834 | The transition is made effect by effect by the same code as any other; the token drops it after some of them, and then the status is unchanged |
| OtaActor.Ota.Emit | src/ota/mod.rs:820-834 | An effect happens unless the transition was dropped before it |
| OtaActor.Ota.MakeTransition | src/ota/mod.rs:785-802 | The transition of each status, with all its effects as far as it is not dropped; a dropped one does not get to its new status |
| OtaActor.Ota.DownloadImage | src/ota/mod.rs:481-542 | The download leads to the deployment if and only if the path is valid, the client is set up, some attempt delivers the image, and the compatibles of bundle and system are known and equal; else to a failure of the request. What it publishes is as specified |
| OtaActor.Ota.WriteAndInstall | src/ota/mod.rs:566-666 | The deployment from the moment the state is written |
| OtaActor.Ota.DeployImage | src/ota/mod.rs:544-666 | Persist the booted slot, install, follow the progress: effects and status in every error case |
| OtaActor.Ota.FollowProgress | src/ota/mod.rs:593-666 | The progress that is published while an installation goes on, and how it ends |
| OtaActor.Ota.RebootNow | src/ota/mod.rs:670-708 | The reboot, by the runtime or by others |
| OtaActor.Ota.DoPendingOta | src/ota/mod.rs:746-783 | The checks after a restart, in their order |
| OtaActor.Ota.CheckPending | src/ota/mod.rs:717-744 | What the state file on disk leads to |
| OtaActor.Ota.Clear | src/ota/mod.rs:839-854 | Clearing erases the file if it is seen and can be removed, and goes idle in any case |
| OtaActor.Ota.IsOtaInProgress | src/ota/mod.rs:866-873 | The flag follows the status |
| OtaActor.Ota.Init | src/ota/mod.rs:355-367 | Start-up: a file on disk means a pending update, which is run to its end |
| OtaActor.Ota.Handle | src/ota/mod.rs:370-381 | A request is refused exactly when the status is not idle, and is otherwise run from `Init` |
| OtaActor.Ota.ServeRequests | src/ota/mod.rs:370-381 | Requests served one after the other have exactly the effects the histories are made of |
| OtaActor.Ota.RunActor | src/ota/mod.rs:355-381 | A whole boot of the object has exactly the effects of the specified boot, and no request is ever refused for an inconsistent state |
| OtaActor.LeftIsIdle | src/ota/mod.rs:804-837 | A run that exits is idle |
| OtaStatuses.EventsIdentifyTheirStatus | src/ota/mod.rs:208-272 | Two statuses with the same event are of the same kind, for the same request, with the same progress or error text |
| OtaStatuses.EventTellsStatus | src/ota/mod.rs:208-272 | An event names the request, and is labelled with a name if and only if the status is of that kind; its progress is that of the download or deployment; exactly the statuses of no request, and of one that is not acknowledged yet, have none |
| OtaDownload.Wget | src/ota/mod.rs:904-1003 | One transfer: its updates and its error are those specified, on success the file is the concatenation of the chunks, and each percentage published is the share of the announced length that some first chunks have, rounded down, or the largest 32-bit integer if that does not fit |
| OtaDownload.WriteBody | src/ota/mod.rs:940-995 | The body: the file is the concatenation of the chunks before the first that is broken or refused and of what the file accepted of that one, the updates are those of these chunks, and that chunk gives the error |
| OtaDownload.CopyChunk | src/ota/mod.rs:956-973 | A chunk is written as a whole, or up to where the file refuses it |
| OtaDownload.SucceedsExactlyWhenComplete | src/ota/mod.rs:904-1003 | A transfer succeeds if and only if an old file could be removed, there is a response with a length above 0, the file can be created, each chunk arrives and is accepted by the file as a whole, and their lengths sum to the announced one |
| OtaDownload.ProgressIsThrottled | src/ota/mod.rs:960-1003 | If the body is not longer than announced: at most 10 updates, strictly increasing percentages up to 100, and the last one is 100 if and only if the whole file arrived |
| OtaDownload.PublishedShowsProgress | src/ota/mod.rs:974-990 | Every published percentage p has p * total <= 100 * length < (p + 1) * total for the length of some first chunks, unless it does not fit in 32 bits |
| OtaDownload.NeverATenthBehind | src/ota/mod.rs:974-990 | What has arrived since the last update is always less than a tenth of the file |
| OtaDownload.MeterBudget | src/ota/mod.rs:960-1003 | Ten times the bytes reported cover the total once per update |
| OtaDownload.MeterGrows | src/ota/mod.rs:960-1003 | Updates are at least a tenth of the file apart until the file is complete |
| OtaDownload.RetryDownload | src/ota/mod.rs:439-478 | The attempts, the errors published between them and the waiting times |
| OtaDownload.RetriesSucceedExactlyWhenDelivered | src/ota/mod.rs:439-478 | The download succeeds if and only if there is a client and one of the five attempts delivers the image |
| OtaDownload.RetryCounts | src/ota/mod.rs:439-478 | Success comes at attempt k if and only if exactly the k - 1 attempts before it failed, with as many errors published; five failures publish five errors and wait 62 seconds |
| OtaDeploy.DeployStream.PollCompleted | src/ota/rauc.rs:274-293 | A completion is yielded and remembered; so are a broken one and the end of the stream |
| OtaDeploy.DeployStream.PollProgress | src/ota/rauc.rs:295-316 | A progress item, or its failure |
| OtaDeploy.DeployStream.PollNext | src/ota/rauc.rs:319-349 | The merged stream yields nothing once completed; until then a progress that is there is yielded and no completion is looked at, and the completion is looked at only when there is none |
| OtaDeploy.NothingAfterCompletion | src/ota/rauc.rs:274-349 | However the two signals interleave, after a completion or the end of the stream nothing is ever yielded, so there is at most one completion |
| OtaDeploy.ProgressComesFirst | src/ota/rauc.rs:319-349 | Progress that is there is yielded, poll by poll and in its order, before a completion, however long that has been there |
| OtaDeploy.CompletionComesNext | src/ota/rauc.rs:319-349 | The first poll that finds no progress yields the completion, with its signal |
| OtaDeploy.FoldStream | src/ota/mod.rs:593-666 | The fold over a stream publishes and ends as specified |
| OtaDeploy.CompletionIsKept | src/ota/mod.rs:593-640 | The fold ends in a completion if and only if there was one, and in the last one: progress never replaces it |
| OtaDeploy.EndsInSignal | src/ota/mod.rs:593-666 | A deployment ends in a signal (deployed if it is 0) if and only if no item was an error and that is the signal of the last completion; in an error if and only if some item was one; without completion if and only if all items were progress |
| OtaDeploy.ComparesWithLastPublished | src/ota/mod.rs:593-640 | New progress is compared with the last progress that was published |
| OtaDeploy.PublishedProgressRises | src/ota/mod.rs:593-640 | Published percentages rise by at least 10 each time if and only if no 32-bit subtraction wraps around to a gain |
| OtaDeploy.GainOfTenIsPublished | src/ota/mod.rs:600-625 | Before a completion a progress is published if and only if it is at least 10 above the last published percentage, or above 0, as long as the difference fits in 32 bits; after a completion none is |
| OtaDeploy.NonNegativeNeverSlips | src/ota/mod.rs:593-640 | Percentages that are never negative, however large, never wrap around, so what is published rises by at least 10 |
| OtaDeploy.AtMostNineReports | src/ota/mod.rs:593-640 | Percentages from 0 to 99 give at most nine reports |
| OtaDeploy.WrapAroundIsPublished | src/ota/mod.rs:593-640 | The wrap-around is real: after 50%, the least 32-bit integer is published |
| OtaProtocol.OtaHandler.CheckUpdateAlreadyInProgress | src/ota/ota_handler.rs:176-213 | The reply to an update, and what it publishes |
| OtaProtocol.OtaHandler.HandleUpdate | src/ota/ota_handler.rs:154-174 | An accepted update raises the flag, is current and queued; any other changes neither flag nor queue, and a different one is answered with a failure. That is the state the interleaving calls `Handled` |
| OtaProtocol.StepsInARow | src/ota/ota_handler.rs:154-174 | Whenever the steps of the handler happen in a row, from a request to the end of its handling, they are `Update` alone or `Update`, `Raise`, `Send`, `Settle`, and lead to the state one call of `handle_update` ends in |
| OtaProtocol.ReachesHandled | src/ota/ota_handler.rs:154-174 | With room in the queue they can do so, whatever the handler makes of the request |
| OtaProtocol.OtaHandler.HandleCancel | src/ota/ota_handler.rs:219-250 | Only the current request can be cancelled; any other cancellation is answered with a failure |
| OtaProtocol.FlagStaysUp | src/ota/ota_handler.rs:154-213 | If an update is accepted while the queue is empty and the actor is outside its loop, the flag stays up in every interleaving until the run of that request leaves the loop |
| OtaProtocol.OthersAreRefused | src/controller/mod.rs:445-456 | Until then and unless that request is cancelled, any other update is answered with `UpdateAlreadyInProgress`, the same one is dropped, and a reboot command is refused |
| OtaProtocol.AlwaysConsistent | src/ota/ota_handler.rs:154-250 | In every reachable state each request has its own number, and one that was just accepted is neither queued nor running |
| OtaProtocol.FlagIsSafeExactlyWhenAlone | src/ota/mod.rs:866-873 | The flag of an accepted request can never be lost before its run ends if and only if the actor was outside its loop with nothing queued, or waits for a reboot |
| OtaProtocol.CancelledRunLowersTheNextFlag | src/ota/ota_handler.rs:219-250 | It is lost in practice: a request that follows a cancellation can be queued with the flag down, so that a reboot is allowed and a third request is accepted too |
| OtaProtocol.RunsAreExecutions | src/ota/mod.rs:804-837 | Every run of the engine, with any token, is an execution of the actor in the interleaving: the flag goes up with each turn, and down, with the actor back at its queue, exactly if the engine leaves its loop |
| OtaProtocol.TurnsArePhases | src/ota/mod.rs:804-837 | No iteration of the engine leaves the wait for a reboot, the one thing the protocol takes for granted about iterations |
| JobQueue.Queue.Init | src/jobs/mod.rs:50-65 | Rows left in progress are pending again, nothing else changes |
| JobQueue.Queue.Contains | src/jobs/mod.rs:88-102 | Whether there is a row of that type and tag, whatever its status |
| JobQueue.Queue.InsertJob | src/jobs/mod.rs:125-140 | A row is added unless its key is taken |
| JobQueue.Queue.InsertIfMissing | src/jobs/mod.rs:143-169 | The same, and whether it was added |
| JobQueue.Queue.Take | src/jobs/mod.rs:172-184 | The first selected row, if any is selected, and it is in progress from now on |
| JobQueue.Queue.NextJob | src/jobs/mod.rs:213-235 | Hands out, and sets in progress, a pending job of the type such that none of them was created before it; nothing if and only if there is none |
| JobQueue.Queue.NextJobTag | src/jobs/mod.rs:187-210 | The same by type and tag |
| JobQueue.Queue.NextScheduledJob | src/jobs/mod.rs:261-287 | Hands out, and sets in progress, a pending job of the type that is due such that none of them is scheduled before it; nothing if and only if none is due |
| JobQueue.Queue.NextSchedule | src/jobs/mod.rs:241-259 | The earliest schedule of the pending rows |
| JobQueue.Queue.UpdateJob | src/jobs/mod.rs:290-315 | The status of the row with that key |
| JobQueue.Queue.DeleteJob | src/jobs/mod.rs:317-335 | Only the row with that key is gone |
| JobQueue.SomeRowIsFirst | src/jobs/mod.rs:187-287 | Whenever a row is selected, one comes first |
| JobQueue.RowStep | src/jobs/mod.rs:50-335 | All that one operation can do to a row, status by status |
| JobQueue.RowsArePreserved | src/jobs/mod.rs:317-335 | Over any history and any restarts, a row is there with nothing but its status changed until it is deleted by its key |
| JobQueue.DeletedForGood | src/jobs/mod.rs:317-335 | A row that is gone does not come back |
| JobQueue.StaysTaken | src/jobs/mod.rs:172-235 | A row that was taken is not pending until a restart or an explicit update to pending |
| JobQueue.HandedOutOnce | src/jobs/mod.rs:172-287 | Between two restarts no row is handed out twice by any of the three queries, unless someone sets it back to pending |
| JobQueue.ResultIsKept | src/jobs/mod.rs:290-315 | A recorded result is kept over any restarts |
| JobQueue.FinishedIsNeverHandedOut | src/jobs/mod.rs:261-335 | A row recorded done or failed is never handed out again, not even after any number of restarts |
| JobQueue.DroppedIsPendingAfterRestart | src/file_transfer/mod.rs:251-266 | A job that was taken and dropped, as on cancellation, is after the restart the same row again, selected by the same query |
| Timestamps.DueExactlyWhenOver | src/jobs/timestamp.rs:79-104 | A row is due by the second exactly when the wait for it is over by the nanosecond |
| Timestamps.ColumnIsReadBack | src/jobs/timestamp.rs:64-78 | A timestamp is read back from its column, and from no other value; a value is none if and only if it is negative or not below the largest signed 64-bit integer |
| Timestamps.TtlIsKeptToTheSecond | src/jobs/timestamp.rs:52-62 | A time to live ends within the second before it is over |
| Timestamps.DeadlineAgrees | src/storage/mod.rs:163-180 | When the wait for the earliest schedule is over, the next scheduled job is one with that schedule; a moment earlier there is none |
| Workers.NoLostWakeUp | src/storage/mod.rs:132-190 | In every interleaving of workers, producers and crashes, with a producer coming in between any of the last reads of a worker and the moment it waits: when the storage worker sleeps with no notification stored or under way, there is no Delete row and no pending schedule before its deadline; when the transfer worker waits, no transfer is pending |
| Workers.FirstTransferIsTakenFirst | src/jobs/mod.rs:213-235 | First come, first served, in every interleaving and over crashes: of two transfers that are pending at the same time, the one whose row was in the table when the other's was not is taken before it |
| Workers.SleepsUntilTheSchedule | src/storage/mod.rs:163-180 | A worker that has read a schedule drains again if it is over, sleeps until it if it is not, sleeps without a deadline if there is none, and stops if it is out of range |
| Workers.TakenTwiceOnlyOverACrash | src/jobs/mod.rs:172-287 | The workers never take the same row twice unless the device was restarted between |
| Workers.StepIsSound | src/controller/actor.rs:112-138 | Inserting before notifying, and keeping a notification that finds nobody waiting, keeps the invariant behind it in every state a worker passes on its way to wait |
| Workers.OnlyRequestsAddWork | src/file_transfer/mod.rs:526-547 | Only the insertion of a request makes new work for a worker |
| Workers.StepsAreOperations | src/jobs/mod.rs:50-335 | Every step of the workers changes the table by an operation of the queue, or not at all |
| Workers.StaleDeleteKeepsWorkerAwake | src/storage/mod.rs:148-162 | A Delete row that is recorded finished is never removed, and while it is there the storage worker never sleeps again, over any steps and restarts |
| Workers.StaleDeleteSpins | src/storage/mod.rs:132-162 | With nothing else to do the worker then goes round without waiting for anything |
| Workers.StaleExactlyWhenAbandoned | src/storage/mod.rs:283-338 | A finished deletion is left behind if and only if the table started with one, or the worker ended, as when the answer cannot be sent, or the device went down, while the result of a deletion was recorded and its row not yet removed |
| Workers.PowerCutLeavesStaleDelete | src/storage/mod.rs:283-338 | From an empty table one requested deletion and a power cut are enough |
| Workers.StaysUnderway | src/storage/mod.rs:216-236 | While a deletion is handled its row is there, and once its result is recorded it has it |
| StorageTask.Storage.Jobs | src/storage/mod.rs:192-214 | With time fixed the drain ends; it takes deletions in the order of insertion and only then due clean-ups in the order of their schedules, each once and none after the token has fired; it took exactly all of them and left none, unless it was cancelled, or aborted by a job that cannot be decoded or answered, whose row stays |
| StorageTask.Storage.Deletions | src/storage/mod.rs:197-204 | The first loop: exactly the deletions, in order, and no clean-up is touched |
| StorageTask.Storage.CleanUps | src/storage/mod.rs:206-211 | The second loop: exactly the due clean-ups, in order, even when some of them fail |
| StorageTask.Storage.Handle | src/storage/mod.rs:216-236 | A deletion records its result and removes its row; if the answer fails the row stays with its result, if the job cannot be decoded nothing is done; no other row changes |
| StorageTask.Storage.CleanUp | src/storage/mod.rs:238-252 | A clean-up removes its row, or leaves it in progress if the file cannot be removed; no other row changes |
| StorageTask.StillProduced | src/storage/mod.rs:192-214 | Every job makes the pending rows of the worker fewer, which is why the drain ends |
| StorageTask.OneMore | src/storage/mod.rs:192-214 | Taking one more row keeps the rows taken in order and apart from the rest |
| Cbor.HeadIsReadBack | src/file_transfer/stream.rs:30-54 | A head of a data item (section 3 of RFC 8949) is read back, whatever follows it |
| Cbor.HeadWasWritten | src/file_transfer/stream.rs:30-54 | Every head that is read is the encoding of what was read |
| Cbor.ShortestForm | src/file_transfer/stream.rs:30-54 | The width that is written is strictly shorter than any other for the same argument (section 4.2.1 of RFC 8949) |
| Cbor.EncodedIsDecoded | src/file_transfer/stream.rs:73-95 | A one-field structure is decoded to what was encoded and is exactly as long as announced |
| Cbor.EncodedBytes | src/file_transfer/stream.rs:73-95 | The bytes, as section 3.1 of RFC 8949 has them: 0x81 and then, for v >= 0, v itself below 24 or one of 0x18, 0x19, 0x1a, 0x1b and v in 1, 2, 4 or 8 bytes, the most significant first; for v < 0 the same of -1 - v with 0x20 added to the initial byte |
| Cbor.EncodingIsShortest | src/file_transfer/stream.rs:73-95 | Nothing that decodes to a value is shorter than its encoding, and nothing else is as short |
| Cbor.ValueOfBigEndian | src/file_transfer/stream.rs:20-28 | A big-endian number is read back |
| Cbor.BigEndianOfValue | src/file_transfer/stream.rs:20-28 | And every sequence of bytes is the encoding of its number |
| PipeStream.RoundTrip | src/file_transfer/stream.rs:131-314 | Received with any bytes behind it, a transmission gives back length, body, status and exactly those bytes if and only if the body is as long as announced; each frame is 4 bytes plus the announced CBOR length |
| PipeStream.AcceptedExactlyWhenComplete | src/file_transfer/stream.rs:299-314 | What one side sends and closes, the other accepts if and only if all that was announced was sent and the digest matched, and then it has the same body; one that is short is refused although its footer was written |
| PipeStream.ShortIsReceivedExactlyWhenFilled | src/file_transfer/stream.rs:167-314 | A transmission with fewer bytes than announced is accepted, whatever follows it, if and only if its own footer and what follows fill up the missing bytes and a status can be read behind them; then the body that is received ends in those bytes |
| PipeStream.ShortIsAccepted | src/file_transfer/stream.rs:304-314 | That happens: with its body of 6 bytes lost, a transmission in front of another one is received with its own footer for the body and the header of the other for its status |
| PipeStream.CutIsRefused | src/file_transfer/stream.rs:131-314 | A transmission cut short at any byte is refused |
| PipeStream.ReceivedInAnyContext | src/file_transfer/stream.rs:131-191 | What follows a transmission does not change how it is received |
| PipeStream.Unambiguous | src/file_transfer/stream.rs:20-28 | Two streams that start with complete transmissions are equal only if transmission and rest are |
| PipeStream.TransmissionIsShortest | src/file_transfer/stream.rs:20-54 | Whatever is received, the transmission as written would have been the shortest way to send it, and the only one so short |
| PipeStream.TailIsNoStatus | src/file_transfer/stream.rs:170-191 | A footer of which some bytes were taken for the body is no footer |
| PipeStream.FramedIsReadBack | src/file_transfer/stream.rs:127-191 | A framed integer is read back, within the range of its field |
| PipeStream.FramedBytes | src/file_transfer/stream.rs:233-248 | A frame is three zero bytes, the length of its payload, and the payload |
| PipeStream.PipeStreamWriter.WriteFrame | src/file_transfer/stream.rs:233-248 | A frame is on the pipe as a whole, or a prefix of it after an error, however little the pipe accepts at a time |
| PipeStream.PipeStreamWriter.WriteHeader | src/file_transfer/stream.rs:233-248 | The header is written and the limit is the announced length |
| PipeStream.PipeStreamWriter.Write | src/file_transfer/stream.rs:252-264 | A write of the body beyond the announced length is refused as a whole; any other counts what was accepted |
| PipeStream.PipeStreamWriter.WriteAll | src/file_transfer/http/mod.rs:326-336 | A chunk is written as a whole if and only if the pipe does not break and it fits into what is left; if it does not fit nothing of it is written |
| PipeStream.PipeStreamWriter.WriteFooter | src/file_transfer/stream.rs:303-314 | The footer is written, no matter how much of the body was |
| PipeStream.PipeStreamWriter.Send | src/file_transfer/mod.rs:381-440 | A download into a pipe succeeds if and only if the pipe does not break and the chunks are not longer than announced, and then leaves exactly their transmission, with status 0 if the digest matched and 22 if it did not |
| PipeStream.PipeStreamReader.ReadHeader | src/file_transfer/stream.rs:121-153 | The header, its errors, and the limit of the body |
| PipeStream.PipeStreamReader.Read | src/file_transfer/stream.rs:193-204 | A read of the body never goes beyond the announced length, and is empty only at its end or at the end of the pipe |
| PipeStream.PipeStreamReader.ExpectFooter | src/file_transfer/stream.rs:166-191 | The footer is refused while bytes of the body are left, and then nothing is read |
| PipeStream.PipeStreamReader.Upload | src/file_transfer/mod.rs:669-704 | Reading in pieces of any size gives the specified result for any stream: body, rest, and success for the status 0 alone, or the error |
| IoAdapters.Digest.FromRead | src/io/digest.rs:46-72 | The cursor moves by exactly the seek position, or by less only if it is then at the end of the file, and the context has absorbed the bytes it moved over |
| IoAdapters.Digest.Write | src/io/digest.rs:96-113 | The context absorbs exactly what the file accepted |
| IoAdapters.Limit.Write | src/io/limit.rs:51-82 | A buffer that does not fit is refused as a whole; otherwise what is left falls by what was accepted |
| IoAdapters.Progress.Write | src/io/progress.rs:55-75 | File, digest, limit and total agree on what was accepted, after an error of the progress handle too; the overflow of the total cannot happen over a limit |
| IoAdapters.Progress.WriteAll | src/file_transfer/http/mod.rs:326-336 | The same for a whole buffer in as many writes as it takes: a prefix of it, all of it on success |
| IoAdapters.Progress.WriteChunks | src/file_transfer/http/mod.rs:326-336 | All chunks, or what was accepted of them up to the first failure: file, digest and total agree on it, and it never exceeds the limit |
| IoAdapters.DownloadToFile | src/file_transfer/mod.rs:485-523 | A resumed download: if the file has that much, its first `start` bytes stay, the bytes accepted stand right behind them, and the rest of the old file behind those; a shorter file is continued at its end. It is complete if and only if the digest over the old part and all chunks is the expected one; it is aborted if the chunks exceed the limit or the file fails, and otherwise only if the progress handle is gone |
| IoAdapters.DigestCoversTheFile | src/io/digest.rs:46-81 | The digest that was checked is that of the whole file as it is left if and only if what was written reaches the end of what was there before |
| Telemetry.SavedIsRestored | src/telemetry/mod.rs:182-215 | Rebuilding from the configuration file and the saved overrides gives, for every interface, the enabled flag, the period and the overrides that were saved, whatever the order of the table |
| Telemetry.RestoredSoFar | src/telemetry/mod.rs:233-274 | What was merged so far is restored, and the rest is as in the configuration file |
| Telemetry.MergingGrows | src/telemetry/mod.rs:233-274 | Merging never drops an interface or changes a default, whatever the file says |
| Telemetry.BaseHasNoOverrides | src/telemetry/mod.rs:69-75 | The configuration file sets defaults only |
| Telemetry.LastEntryCounts | src/telemetry/mod.rs:69-75 | The last entry of an interface gives its defaults, disabled and 60 seconds where a field is absent; an interface without an entry is not in the table and counts as disabled with 60 seconds |
| Telemetry.LastRequestCounts | src/telemetry/mod.rs:356-371 | After any events, each override of each interface is that of the last event for it, and no default has changed |
| Telemetry.LastEnableIsLast | src/telemetry/mod.rs:356-371 | The request that counts for enabling an interface is that of the event no later one of the same kind and interface follows, and what was there before if there is none |
| Telemetry.LastPeriodIsLast | src/telemetry/mod.rs:356-371 | The same of its period |
| Telemetry.TelemetryTasks.SpawnTask | src/telemetry/mod.rs:400-448 | The uncancelled tokens ever created are exactly the values of the table, one per interface; the task runs if and only if its override enables it, or there is none and the default does, and the overridden period, or else the default one, is not 0, and with that period; no other task is touched |
| Telemetry.TelemetryTasks.Stop | src/telemetry/mod.rs:409-427 | A stopped task is cancelled and out of the table |
| Telemetry.TelemetryActor.constructor | src/telemetry/mod.rs:182-215 | A start finds the configuration rebuilt from both files |
| Telemetry.TelemetryActor.ReadFileState | src/telemetry/mod.rs:233-274 | A missing or unreadable file changes nothing; entries of unknown interfaces are skipped |
| Telemetry.TelemetryActor.Init | src/telemetry/mod.rs:284-297 | The tasks that run are exactly those of the configuration |
| Telemetry.TelemetryActor.SaveTelemetryConfig | src/telemetry/mod.rs:299-319 | After a save that went well a restart agrees with the configuration in force |
| Telemetry.TelemetryActor.Handle | src/telemetry/mod.rs:340-382 | An event changes its own configuration, its task and the file; one of an unknown interface changes nothing. The tasks that run afterwards are those asked for, as for a sequence of events |
| Telemetry.TelemetryActor.Run | src/telemetry/mod.rs:340-382 | Over any sequence of events a task runs if and only if the last request for its interface was to enable it, or there was none and the override or default before enables it, and the period requested last, or else the one before, is not 0; it runs with that period. If the last save went well a restart agrees, no matter how many failed before |
| TelemetryInterfaces.NameIsParsed | src/telemetry/stats/mod.rs:81-152 | Every interface is found again by its name |
| ContainerJoin.ListIds | edgehog-device-runtime-containers/src/local.rs:93-129 | The entries are of exactly the summaries with a stored local id, each once and in the order of the summaries; with distinct local ids each has the id of the plain lookup. No row without a local id is ever matched; with no state asked for all rows are listed |
| ContainerJoin.List | edgehog-device-runtime-containers/src/local.rs:131-161 | The same as a table: every entry is a stored row with its own local id, and no stored container of the runtime is missing |
| ContainerJoin.BinarySearch | edgehog-device-runtime-containers/src/local.rs:114-120 | In sorted rows the search finds a row with the local id if there is one |
| ContainerJoin.Sort | edgehog-device-runtime-containers/src/local.rs:112-112 | The rows are sorted by their optional local id and are the same rows |
| ContainerJoin.SearchIsLookup | edgehog-device-runtime-containers/src/local.rs:111-126 | Among distinct ids, searching the sorted rows is looking up the original ones |
| ContainerJoin.BeforeIsAnOrder | edgehog-device-runtime-containers/src/local.rs:112-112 | None comes before Some, and the strings are in a total order |
| StoredFiles.SyncStoredFiles | src/file_transfer/mod.rs:763-796 | Sends exactly the files read that have no property, in the order of the walk, unsets exactly the properties no file was read for, and leaves the files read as properties; the walk ends early only by a cancellation, or by a property that cannot be sent, and then nothing is unset. The properties end up naming exactly the files on disk if and only if the run got to its end, met every file, and could read each |
| StoredFiles.AgreesExactlyWhenAllRead | src/file_transfer/mod.rs:763-796 | The files that were read are all those on disk if and only if the walk met all of them and could read each; a file that was not met or not read is not among them, so a run that gets to unsetting leaves it without a property |
| StoredFiles.MissingAreRead | src/file_transfer/mod.rs:772-789 | What is sent is exactly the files read without a property, each once |
| StoredFiles.UnreadFileLosesItsProperty | src/file_transfer/mod.rs:777-781 | A file on disk can lose the property it had when it cannot be read just then |

## Left out

- D-Bus, HTTP, SQLite, Docker, Astarte and the file system are results that the world chooses; a transaction is one
  atomic step, and the errors of the database itself are not modelled.
- The test build's shortcut in `reboot`; the model is the release build, in which integer overflow wraps around.
- Closed channels and failures to publish a status.
- The rendered text of formatted log and error messages: error texts are values of a datatype.
- The percentages of `wget` are floored quotients of exact integers instead of floating-point numbers.
- What the update service does on its own, after the runtime has failed or lost power: an installation completes when
  the runtime sees it complete.
- JobQueue.Queue.Take: rows are ordered by a creation counter that never repeats; rows created within the same second
  have no defined order in the database.
- JobQueue.Queue.NextScheduledJob: which of several rows with the same schedule comes first is left open, as it is in
  the query.
- Timestamps.DeadlineAgrees: the clock does not go backwards; the conversion to a monotonic instant is exact.
- OtaProtocol.OtaHandler.HandleUpdate: with a full queue the handler waits; the interleavings of `OtaProtocol` include
  that wait.
- Workers.NoLostWakeUp: a worker that ended with an error stays stopped until the restart; the two workers are the
  only ones that take rows.
- StorageTask.Storage.Jobs: the time is fixed and nothing is inserted during the drain; `Workers` has the interleaving.
- Cbor.EncodedIsDecoded: decoding is modelled for arrays of exactly one element; the library also skips further
  elements and reads arrays of unknown length. The largest frame the library reads is not part of this model.
- PipeStream.PipeStreamWriter.Write: a writer is not used again after its pipe broke, as the errors end the transfer.
- PipeStream.PipeStreamWriter.Send: compressed transfers, the operating system's named pipes, and flushing.
- PipeStream.PipeStreamReader.Upload: the channel between the reading task and the HTTP client.
- IoAdapters.DownloadToFile: the digest is the sequence of absorbed bytes, as if it never collided; where the server
  starts and how long it says the content is are arguments. `WriteHandle` and the HTTP client are not part of this model.
- Telemetry.TelemetryActor.Run: what a task does each period; the file is written at once, and a failed write may leave
  anything in it.
- ContainerJoin.Sort: the sort and the search are the textbook ones instead of those of the standard library, whose
  contract they meet.
- StoredFiles.SyncStoredFiles: the ids of the walk are distinct, as the names of a directory are; unsetting a property
  does not fail.
- The forwarder, container creation and removal, hardware and system properties, request decoding, registration of
  interfaces, command line and configuration files: conversions and single branches.
