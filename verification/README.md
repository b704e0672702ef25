# Verified model of dummy-cd

dummy-cd is a small GitOps engine. A git branch is the desired state; a server keeps a
registry of repositories and applications in memory, runs a lifecycle for every application
on a ticker, and hands new revisions to a delivery provider that changes a Kubernetes
cluster; an operator keeps the registry in step with custom resources. This project models
that engine in Dafny and proves what its parts keep, over whole runs and all interleavings.

`dafny verify dfyconfig.toml` checks everything.

| files | part |
|---|---|
| `Prelude.dfy` | Option and swap-remove |
| `Git.dfy` | one branch with linear history; the path-filtered log and its head |
| `Lifecycle.dfy` | `RunLifeCycle` as a class and as a function of what git answers |
| `RawCluster.dfy` | raw delivery as a transition system: a goroutine per manifest, list-then-delete prune tasks, foreign clients |
| `RawEffects.dfy`, `RawForeign.dfy`, `RawHonesty.dfy`, `RawReserved.dfy`, `RawConvergence.dfy`, `RawIdempotence.dfy`, `RawStale.dfy`, `RawUninstall.dfy` | what every step of it keeps, and the theorems over runs |
| `RawTasks.dfy`, `RawFairness.dfy` | the provider mutex and the task pools goroutine by goroutine, as a refinement of the cluster model; the mutex is given back |
| `RawProvider.dfy` | the provider object between its concurrent calls |
| `EndToEnd.dfy` | the lifecycle on top of the cluster: from a commit to labelled objects |
| `Helm.dfy` | the second provider: which Helm action a Delivery takes, and what is never made good |
| `ControlPlane.dfy`, `ControlInvariant.dfy`, `ControlTheorems.dfy`, `ControlWaitGroup.dfy`, `ControlProgress.dfy`, `ControlLaws.dfy`, `ControlTick.dfy`, `ControlLeaks.dfy`, `ControlSound.dfy`, `ControlRuns.dfy` | ticker, lifecycle goroutines and request handlers taking mutexes |
| `EngineFairness.dfy` | the control plane and the providers together: four levels of locks |
| `Registry.dfy`, `RegistryRuns.dfy`, `RegistryServer.dfy` | the registry's lists as a map, whole runs of requests and ticks, and the objects that hold the lists |
| `Finalizer.dfy`, `Reconciler.dfy`, `Resync.dfy` | the finalizer protocol between custom resources, operator and server, and its periodic resync |

## What was found in the code

These are facts about the code as written. Each is proved with the exact condition under which
the code does what it is meant to do, or with a concrete run that goes wrong; most have both.

- A git step that fails after Fetch succeeded leaves the application on the old revision until
  the next push, because Fetch then reports no change (`Lifecycle.BecomesStaleExactlyWhen`,
  `Lifecycle.StaleUntilNextPush`). The next quiet tick delivers the files that the failed one
  left, under the old revision's label: right content if and only if the failing step came
  before the files were changed, or the new commit has the same manifests
  (`Lifecycle.QuietTickHonestExactlyWhen`, `Lifecycle.FailedCheckoutMislabelsContent`).
- The first Delivery applies manifests read when the provider was constructed
  (`server/pkg/provider/raw.go:368-381`). It is honest if and only if none of them has changed or
  gone since, and complete if and only if none was added
  (`EndToEnd.FirstDeliveryHonestExactlyWhen`, `EndToEnd.FirstDeliveryCompleteExactlyWhen`,
  `EndToEnd.StaleReopenMislabels`).
- A prune deletes by name what it listed by label some time before. So the engine can touch an
  unlabelled object if and only if its name is on a delete list at that moment
  (`RawForeign.EngineTouchesUnlabelledExactlyWhen`, `RawForeign.RecreatedNameIsDeleted`). And
  without any failure, a manifest that is removed and comes back can end up deleted by the prune
  of the commit without it (`RawStale.StalePruneUndoesDelivery`); what has settled stays settled
  if and only if no prune under way can reach it (`RawStale.SettledForGoodExactlyWhen`).
- Uninstall prunes nothing while the revision is zero, for instance after a server restart
  (`RawUninstall.UninstallCompleteExactlyWhen`).
- Deferred calls run last-in first-out, so a lifecycle goroutine calls `wg.Done` before it
  unlocks its application (`server/pkg/instance/handler.go:66-67`). The next tick can then meet
  a locked application, take the busy branch, and bring the WaitGroup below zero, where Go
  panics (`ControlRuns.DoneBeforeUnlockGoesNegative`). In the other order neither can happen
  (`ControlWaitGroup.UnlockBeforeDoneIsSafe`).
- `DeleteApplication` defers a second `TryLock` where it should unlock
  (`server/pkg/instance/repository.go:272`, `:277`), and `DeleteRepository` never unlocks the
  applications it locked (`server/pkg/instance/handler.go:213-221`). These are the only places
  that leave a mutex locked (`ControlLeaks.LeakExactlyWhen`). After a DeleteApplication
  the ticker never visits the repository again and requests for it spin for ever; a
  DeleteRepository after that stops the whole server
  (`ControlLeaks.DeleteApplicationStopsItsRepository`,
  `ControlLeaks.WedgedDeletionStopsTheServer`, `ControlRuns.DeletionsWedgeTheServer`). The model
  has a switch for each of these two points, so every control-plane theorem says whether it
  needs the code corrected; safety does not, deadlock freedom does.
- A rebuild that fails leaves nil in the list (`server/pkg/instance/repository.go:244`). The hole
  never goes away, and the server lives on exactly as long as no tick and no request looks at it
  (`RegistryRuns.HoleAppearsExactlyWhen`, `RegistryRuns.HoleIsForEver`,
  `RegistryRuns.SurvivesExactlyWhen`).
- Editing the URL of a live custom resource leaves the application registered under the old
  URL after the resource is gone: a deletion leaves nothing of the name behind if and only if
  everything of that name was registered at the URL the resource has now
  (`Finalizer.DeletionCompleteExactlyWhen`, `Finalizer.EditedUrlOrphans`).
- A Helm action that fails or dies after recording its release, and is not rolled back, leaves
  the revision's stamp on a release that is not deployed; every later Delivery of that
  revision reports "already exist" (`Helm.AbandonedExactlyWhen`, `Helm.AbandonedStays`,
  `Helm.FailedInstallIsAbandoned`).
- Only the URLs of repositories are kept distinct, not their names; DeleteRepository by a name
  that two repositories share removes one of them (`RegistryRuns.SharedNameDeletesOne`).

## Assumptions

- A branch has a linear history and a commit hash identifies the commit with its ancestors.
- Clients other than the engine do not overwrite a labelled object in place; they may create,
  change and delete unlabelled objects and delete any object at any time. A foreground deletion
  is one step.
- The theorems on convergence, idempotence and uninstall of one application assume that its
  object names are not used by another application or client (`RawReserved.RespectsNames`);
  honesty and the protection of foreign objects do not.
- Application requests reach the server one at a time, as the operator's single worker sends
  them; repository requests are unrestricted. An RPC takes effect as one step, its answer may
  be lost.
- The operator's cache may lag arbitrarily but does not go back, and a write made with an old
  resource version is refused.
- go-git's Pull fetches once more and accepts only a fast-forward; Helm refuses to upgrade a
  pending release, and rolls an atomic upgrade back only to a release that was deployed.

## Model

| member | source | states |
|---|---|---|
| Git.GetRevisionHashList | server/pkg/instance/application.go:306-322 | the list holds exactly the commits that touch the sparse path, newest first |
| Git.GetApplicationHeadRevision | server/pkg/instance/application.go:290-304 | the first entry of the list is the path-filtered head, and the zero hash stands for an empty list |
| Git.PathHeadIsNewest | server/pkg/instance/application.go:271-288 | the path-filtered head touches the sparse path and no commit above it does |
| Git.TouchesMeans | server/pkg/instance/application.go:273-281 | a commit touches the sparse path if and only if some path that begins with it is added, changed or removed; a change elsewhere does not |
| Git.DirectoryMeans | server/pkg/instance/application.go:49-50 | the handled directory holds exactly the files below the sparse path, no sibling whose name begins with it |
| Git.ManifestsAreFilesBelow | server/pkg/provider/raw.go:88-102 | the manifests are those of the files below the sparse path, and no others |
| Git.ContentAtPathHead | server/pkg/instance/application.go:271-304 | the branch tip and the path-filtered head agree on every path the filter accepts |
| Git.ManifestsAtPathHead | server/pkg/instance/application.go:243-256 | the recorded revision has the same manifests as the branch tip that was checked out, so the label can stand for the content |
| Git.IrrelevantPushesKeepPathHead | server/pkg/instance/application.go:271-304 | any number of commits that touch nothing under the sparse path leave the path-filtered head where it was |
| Lifecycle.Application.constructor | server/pkg/instance/application.go:41-106 | a new application has the zero revision and whatever refs its clone has |
| Lifecycle.Application.RunLifeCycle | server/pkg/instance/application.go:140-269 | refs, worktree and revision updated in place follow the transition function of the lifecycle, for every answer of git and of the provider |
| Lifecycle.GitErrorExactlyWhen | server/pkg/instance/application.go:141-241 | which of its git steps make a tick fail: on the path with different refs, on the one with equal refs, and at the zero revision |
| Lifecycle.OutcomeExactlyWhen | server/pkg/instance/application.go:229-268 | a tick past its git steps and exits fails if no commit of the branch touches the sparse path, is up to date if the newest such commit is the recorded one, and else records and delivers that commit |
| Lifecycle.ExitsAnswer | server/pkg/instance/application.go:143-218 | the two up-to-date exits keep the revision; the first delivers it with the files at hand, the second delivers nothing |
| Lifecycle.GitErrorLeaves | server/pkg/instance/application.go:141-241 | a tick that fails in git records nothing and leaves refs and files as far as its steps had come |
| Lifecycle.TickSyncs | server/pkg/instance/application.go:140-269 | a tick without git error ends with equal refs at a remote head it saw, the files of the branch, the revision at the matched head, and Delivery only called with that revision's manifests |
| Lifecycle.SyncedAfterEveryTick | server/pkg/instance/application.go:140-269 | the lifecycle invariant holds after every tick of every run in which deliveries and fetches may fail and the other git steps succeed |
| Lifecycle.QuietTickDeliversAgain | server/pkg/instance/application.go:143-155 | after any such run a tick whose Fetch reports no change delivers the recorded revision again |
| Lifecycle.FreshStartConverges | server/pkg/instance/application.go:144-261 | with a zero revision and arbitrary refs one error-free tick delivers the remote's matched head |
| Lifecycle.TickSettlesExactlyWhen | server/pkg/instance/application.go:143-155 | from any clone, a tick without git error records the remote's matched head if and only if no up-to-date exit is taken or it was recorded already |
| Lifecycle.BecomesStaleExactlyWhen | server/pkg/instance/application.go:162-241 | an application in sync is left behind if and only if a tick fetches a new matched head and then resolving the references, the reset, the checkout or the log fails |
| Lifecycle.StaleUntilNextPush | server/pkg/instance/application.go:143-155 | and stays behind for any number of ticks while the remote does not move |
| Lifecycle.PushRepairsStaleClone | server/pkg/instance/application.go:185-256 | the next push that is new to the clone repairs it |
| Lifecycle.IrrelevantPushIsInvisible | server/pkg/instance/application.go:243-254 | a tick that fetches only irrelevant commits keeps the revision and calls no Delivery |
| Lifecycle.QuietTickDeliversWhatWasLeft | server/pkg/instance/application.go:143-155 | after a tick of a clone in sync that failed past Fetch, the next quiet tick applies precisely the files it left, under the old revision |
| Lifecycle.QuietTickHonestExactlyWhen | server/pkg/instance/application.go:162-256 | with all-or-nothing git steps that Delivery has the manifests of its revision if and only if the references or the reset failed, or the fetched commit has the same manifests |
| Lifecycle.FailedCheckoutMislabelsContent | server/pkg/instance/application.go:236-256 | a run in which content of a new commit is delivered under the old revision |
| RawForeign.EngineTouchesUnlabelledExactlyWhen | server/pkg/provider/raw.go:210-347 | some step of some Delivery or prune can change an unlabelled object if and only if its name is on a delete list now |
| RawForeign.ForeignObjectsUntouched | server/pkg/provider/raw.go:210-347 | over any stretch of any run an unlabelled object that is on no delete list stays as it is, resource version included, and gets on none |
| RawForeign.RecreatedNameIsDeleted | server/pkg/provider/raw.go:249-276 | a run in which a prune deletes an unlabelled object recreated between its List and its Delete |
| RawForeign.OtherNamespacesUntouched | server/pkg/provider/raw.go:245-276 | in every run the engine changes no object outside its applications' namespaces, labelled or not |
| RawHonesty.LabelsStayHonest | server/pkg/provider/raw.go:293-353 | over all interleavings every object labelled (app, R) holds a manifest of the app at R, if each Delivery's manifests were read at its revision |
| RawReserved.OthersSpareReserved | server/pkg/provider/raw.go:196-353 | only the application's own goroutines and prune tasks change an object under its names |
| RawConvergence.ConvergingKept | server/pkg/provider/raw.go:196-409 | every step keeps the convergence invariant: applied objects stay, whatever is outdated will still be reached by a stage of the prune |
| RawConvergence.DrainedIsSettled | server/pkg/provider/raw.go:196-409 | with nothing in progress that invariant means exactly the manifests of R, with content and label R |
| RawConvergence.RawConverges | server/pkg/provider/raw.go:196-409 | from any state in which no old prune task threatens an object of R, however wrong the application's objects, a Delivery at R and its prune, complete and without errors on types that hold its objects, end with exactly the manifests of R |
| RawIdempotence.RepeatedDeliveriesChangeNothing | server/pkg/provider/raw.go:293-409 | after settling at R with no prune under way that can reach its objects, any number of further Deliveries and prunes at R, failing or not, leave every object and resource version alone |
| RawStale.SettledForGoodExactlyWhen | server/pkg/provider/raw.go:210-285 | an application that has settled stays settled over every run of repeated Deliveries if and only if no task and no launch under way selects by another revision a type of its objects, or has one of their names on its list |
| RawStale.StalePruneUndoesDelivery | server/pkg/provider/raw.go:249-276 | a run without any failure in which a manifest is there, is removed and comes back, and the prune of the commit without it deletes the object after the last Delivery has applied it |
| RawUninstall.UninstallRemovesAll | server/pkg/provider/raw.go:355-365 | for a non-zero revision, whatever older cleanups and tasks are under way, once the uninstall's prune has drained, without errors on types that hold the application's objects, nothing carries its label |
| RawUninstall.RemovedStaysRemoved | server/pkg/provider/raw.go:196-365 | and nothing gets it again in any continuation |
| RawUninstall.UninstallAtZeroRemovesNothing | server/pkg/provider/raw.go:199-201 | at the zero revision every labelled object survives the uninstall unchanged |
| RawUninstall.UninstallCompleteExactlyWhen | server/pkg/provider/raw.go:196-365 | an error-free uninstall leaves nothing if and only if the revision is not zero or there was nothing |
| RawProvider.RawProvider.constructor | server/pkg/provider/raw.go:104-178 | the provider holds the manifests of the files at hand and no revision label |
| RawProvider.RawProvider.ReadResources | server/pkg/provider/raw.go:88-102 | reading collects the manifest of every file below the sparse path, and nothing else |
| RawProvider.RawProvider.BeginDelivery | server/pkg/provider/raw.go:367-388 | manifests are read again exactly when a Delivery was made before; one goroutine per manifest starts, labelled with the revision |
| RawProvider.RawProvider.CleanResources | server/pkg/provider/raw.go:196-291 | the mutex is released on every path, and the tasks are those of each group version that answered, in order |
| RawProvider.OneTaskPerReport | server/pkg/provider/raw.go:231-288 | a resource type has exactly as many tasks as group versions reported it, and there are no others |
| RawTasks.MutexDiscipline | server/pkg/provider/raw.go:196-197 | in every run each lock is matched by one unlock, across the hand-off from Delivery to its goroutine; the mutex is held exactly while one goroutine is in cleanResources, and whoever unlocks holds it |
| RawTasks.PoolBound | server/pkg/provider/raw.go:240-284 | in every run the tokens of a group version's channel are its unfinished tasks, never more than ten |
| RawTasks.LaunchWaitsExactlyWhen | server/pkg/provider/raw.go:240-244 | a launch waits exactly while ten of its pool's tasks are unfinished |
| RawTasks.OneTaskPerType | server/pkg/provider/raw.go:231-288 | a cleanup that has returned has launched, for each group version that answered, exactly one task per reported type |
| RawTasks.TaskNeverWaits | server/pkg/provider/raw.go:257-284 | every unfinished task can take its next step; giving its token back never blocks |
| RawTasks.RunnerRefinesCluster | server/pkg/provider/raw.go:196-291 | whatever a goroutine or task does is a sequence of steps of the cluster model |
| RawTasks.OthersKeepImplements | server/pkg/provider/raw.go:293-409 | and all other steps of the cluster model leave the goroutines' part alone |
| RawTasks.MixedRunsAreClusterRuns | server/pkg/provider/raw.go:196-409 | so at every point of a run in which goroutines and tasks interleave with the rest, the cluster got there by a run of the cluster model with those goroutines and tasks |
| RawFairness.MutexIsGivenBack | server/pkg/provider/raw.go:196-291 | under every fair schedule of its goroutine and tasks the provider's mutex is given back, whatever the API answers and however long a launch waits for a token |
| RawFairness.UninstallGetsMutex | server/pkg/provider/raw.go:355-365 | so an Uninstall that keeps trying gets it |
| EndToEnd.EndToEndHonesty | server/pkg/provider/raw.go:293-388 | in every run of lifecycle calls, goroutines, prunes, other applications and foreign clients, labels are honest and the provider follows the recorded revision |
| EndToEnd.FirstDeliveryHonestExactlyWhen | server/pkg/provider/raw.go:368-381 | the first Delivery applies only manifests of its revision if and only if those read at construction are still in the branch tip |
| EndToEnd.FirstDeliveryCompleteExactlyWhen | server/pkg/provider/raw.go:368-381 | and leaves none of them out if and only if the branch tip has no others |
| EndToEnd.FirstDeliveryHonestOnQuietRemote | server/pkg/provider/raw.go:368-381 | both hold if the branch has not moved since construction |
| EndToEnd.StaleReopenMislabels | server/pkg/provider/raw.go:368-381 | a run in which the first Delivery after a restart labels old content with the new revision |
| EndToEnd.EndToEndConvergence | server/pkg/instance/application.go:140-269 | from a new application, or one in sync with any older commit, any error-free run over a remote at h with a completed and drained Delivery has fetched h, recorded its matched revision, and left exactly the manifests of h in the cluster |
| Helm.LoadStampsExactlyWhen | server/pkg/provider/helm.go:169-194 | the provider holds a chart with the revision's stamp, and the values of this load, if and only if update, chart and values all loaded |
| Helm.HelmProvider.Delivery | server/pkg/provider/helm.go:284-361 | the provider's fields and the release follow the Delivery function, for every failure of every call |
| Helm.ErrorFreeEndsStamped | server/pkg/provider/helm.go:284-361 | an error-free Delivery ends with the release stamped with the revision, if and only if it was not skipped for equal values and not blocked by a pending action |
| Helm.DeliveredMeansInstalled | server/pkg/provider/helm.go:196-245 | a Delivery that acted leaves the chart, values and stamp of this Delivery, deployed |
| Helm.AnswersExactlyWhen | server/pkg/provider/helm.go:284-361 | what a Delivery answers, for every failure of every call |
| Helm.DeliveryLeaves | server/pkg/provider/helm.go:196-245 | what it leaves: its own release deployed, failed or pending, what was there, or after a roll-back the last good release |
| Helm.PendingExactlyWhen | server/pkg/provider/helm.go:196-245 | only an action that dies leaves the release pending |
| Helm.AtomicUpgradesKeepTheRelease | server/pkg/provider/helm.go:222-245 | however many atomic upgrades to however many revisions fail and are rolled back, the release stays the last one that worked |
| Helm.LeftoversDecideNothing | server/pkg/provider/helm.go:169-194 | chart and values left by an earlier load change neither the answer nor the release |
| Helm.StampedIsFinal | server/pkg/provider/helm.go:314-319 | a release stamped with the revision is never changed by any number of Deliveries of it |
| Helm.DeliveryIsIdempotent | server/pkg/provider/helm.go:284-361 | after a Delivery that did not fail, repeating it changes nothing, whatever the options |
| Helm.AbsentUntilInstalled | server/pkg/provider/helm.go:297-301 | an absent release stays absent over any number of failing Deliveries that are cleaned up |
| Helm.InterruptedReinstallRecovers | server/pkg/provider/helm.go:340-349 | a reinstallation interrupted after its uninstall leaves the release absent, and the next error-free Delivery, of any revision, installs it |
| Helm.AbandonedExactlyWhen | server/pkg/provider/helm.go:196-245 | a Delivery leaves its stamp on a release that is not deployed if and only if its action dies, or fails late and is not rolled back |
| Helm.FailedInstallIsAbandoned | server/pkg/provider/helm.go:196-220 | such a run exists: a first installation that is not atomic and does not become ready |
| Helm.AbandonedStays | server/pkg/provider/helm.go:314-319 | and then no number of Deliveries of that revision repairs it |
| Helm.PendingBlocks | server/pkg/provider/helm.go:321-355 | a release left pending by another revision is never changed by a provider that upgrades, and one that reinstalls delivers unless the values compare equal |
| ControlInvariant.MutexesAccounted | server/pkg/instance/handler.go:57-85 | every mutex is owned by the thread that holds it, or was left locked by one that ended |
| ControlInvariant.InvariantKept | server/pkg/instance/repository.go:197-287 | every step keeps ownership, distinct list entries, and what a thread found before it waited: an index found before a spin is valid after it |
| ControlInvariant.InvariantAlong | server/pkg/instance/handler.go:44-233 | so all of that holds in every reachable state |
| ControlTick.TickVisitsEverything | server/pkg/instance/handler.go:57-83 | between its start and its wait a tick tries every listed repository, and in each one it finds free every application, starting a goroutine for each that is not locked; a locked repository is skipped and only that one |
| ControlLaws.AddRepositoryStarts | server/pkg/server/server.go:20-33 | a registration is answered at once if and only if its URL is listed |
| ControlLaws.AddOrUpdateStarts | server/pkg/instance/repository.go:197-229 | an application request goes to the first repository with its URL, and adds a new name, replaces a changed one at its first place, or is answered at once |
| ControlLaws.DeleteApplicationStarts | server/pkg/instance/repository.go:254-270 | a deletion goes to the last application of its name, and is answered at once if and only if there is none |
| ControlLaws.AppRequestSteps | server/pkg/instance/repository.go:215-286 | step by step: an application request waits for its locks, and only its last step changes a list, in one place |
| ControlLaws.RepoRequestSteps | server/pkg/instance/handler.go:169-233 | step by step: a deletion takes the last repository of its name, starts a goroutine for every application, and drops the repository when they have ended |
| ControlLaws.DroppedAfterUninstall | server/pkg/instance/handler.go:208-230 | in every run, when a repository is dropped the uninstallation of each of its applications has begun and none is under way |
| ControlLaws.LeavesOnlyUninstalledOrReplaced | server/pkg/instance/repository.go:237-284 | an application leaves a list only uninstalled, or replaced by its changed specification's instance |
| ControlTheorems.OneWorkerPerApplication | server/pkg/instance/handler.go:60-81 | at most one lifecycle call, uninstall or replacement works on an application at a time |
| ControlTheorems.NoResurrection | server/pkg/instance/handler.go:201-230 | once an Uninstall of an instance has begun no lifecycle call runs on it in any continuation |
| ControlWaitGroup.ReachableAlong | server/pkg/instance/handler.go:57-85 | in every reachable state the WaitGroup counter is the number of goroutines that owe a Done less the unowed Done calls, and a tick visits no running application twice |
| ControlWaitGroup.BusyOnlyForLingeringGoroutine | server/pkg/instance/handler.go:63-78 | until the busy branch is taken the counter is exact, and the branch can only be met because a goroutine signalled Done before it unlocked, never because of a request |
| ControlWaitGroup.UnlockBeforeDoneIsSafe | server/pkg/instance/handler.go:63-83 | with unlock before Done the busy branch is unreachable and the counter always counts the live goroutines |
| ControlProgress.WaitsUpwards | server/pkg/server/server.go:30-67 | a thread waits only for a mutex that ranks above all it holds: handler, repository, application |
| ControlProgress.DeadlockFree | server/pkg/instance/handler.go:186-227 | in every reachable state of the control plane with an unfinished thread some thread can move, if the counter is not negative and nobody waits for a mutex left behind |
| ControlProgress.MoveCloser | server/pkg/instance/repository.go:215-235 | every move that is not a spin shrinks a measure |
| ControlProgress.NoEndlessSchedule | server/pkg/instance/repository.go:215-279 | so without new requests and ticks no schedule of moves goes on for ever |
| EngineFairness.OrderlyAlong | server/pkg/provider/raw.go:355-365 | control plane and providers together: every turn keeps the invariants of both, while uninstalling threads spin for their provider's mutex and run their own cleanup |
| EngineFairness.UninstallRunsItsCleanup | server/pkg/provider/raw.go:355-365 | an uninstalling thread takes the provider's mutex once it is free, for a cleanup of everything, and goes on exactly when that cleanup has returned |
| EngineFairness.EngineDeadlockFree | server/pkg/provider/raw.go:355-365 | over all four levels of locks, in every such state with an unfinished thread some thread, cleanup or prune task proceeds |
| EngineFairness.EngineComesToRest | server/pkg/instance/repository.go:215-279 | every spin loop ends: with deletions that unlock and unlock before Done, from every reachable state and whatever the providers are doing, every fair schedule without new requests and ticks finishes every request, goroutine and tick, and stays there |
| ControlLeaks.LeakExactlyWhen | server/pkg/instance/repository.go:269-284 | a mutex is left locked if and only if the step is the end of a deletion that does not unlock it |
| ControlLeaks.UnlockingNeverDeadlocks | server/pkg/instance/handler.go:57-233 | with deletions that unlock and unlock before Done, no reachable state is a deadlock |
| ControlLeaks.DeleteApplicationStopsItsRepository | server/pkg/instance/repository.go:269-286 | as written, after a DeleteApplication nobody ever holds the repository's mutex again and whoever waits for it waits for ever |
| ControlLeaks.WedgedDeletionStopsTheServer | server/pkg/instance/handler.go:201-204 | and a DeleteRepository after it keeps the handler's mutex for ever: no tick starts and no repository request proceeds |
| ControlRuns.DeletionsWedgeTheServer | server/pkg/instance/repository.go:269-286 | a run as written that reaches that state |
| ControlRuns.DoneBeforeUnlockGoesNegative | server/pkg/instance/handler.go:66-77 | a run of two ticks in which the counter goes below zero |
| Registry.First | server/pkg/instance/repository.go:200-205 | the forward search answers an index that holds the name |
| Registry.FirstExactly | server/pkg/instance/repository.go:200-205 | and no earlier slot does; it dereferences nil if and only if a hole comes before every match |
| Registry.Scan | server/pkg/instance/repository.go:258-263 | the full scan answers an index that holds the name |
| Registry.ScanExactly | server/pkg/instance/repository.go:258-263 | and no later slot does; it dereferences nil if and only if there is a hole |
| Registry.SearchesAgree | server/pkg/instance/repository.go:200-263 | without holes both searches find the same slot, exactly for the names of the map |
| Registry.AddOrUpdateRefines | server/pkg/instance/repository.go:197-251 | on the map: add, leave an equal specification's instance alone, or replace; a hole appears exactly when a changed one's rebuild fails |
| Registry.UpToDateExactlyWhen | server/pkg/instance/repository.go:224-250 | a registered name is up to date if and only if namespace, URL, reference and sparse path are equal; any difference puts the whole new specification into its slot |
| Registry.AddedExactlyWhen | server/pkg/instance/repository.go:207-222 | an unregistered name is appended as it is, if its build succeeds |
| Registry.RemoveRefines | server/pkg/instance/repository.go:254-287 | swap-remove deletes exactly the named application |
| Registry.WellFormedKept | server/pkg/server/server.go:20-140 | every request keeps URLs distinct, names distinct per repository, and applications under their own URL |
| Registry.RegistryRefinesMap | server/pkg/server/server.go:20-140 | every request acts on the lists as on a map from URL to a map from name to application, with the same replies |
| Registry.LookupRefines | server/pkg/instance/handler.go:235-245 | the nested search over all repositories finds exactly what the map says |
| RegistryRuns.RunsStayFaithful | server/pkg/server/server.go:20-140 | any sequence of ticks and of requests whose builds succeed keeps the lists a faithful map without holes, and the server up |
| RegistryRuns.NoNewHoles | server/pkg/instance/repository.go:237-250 | and no such request dereferences nil |
| RegistryRuns.ServedBySpec | server/pkg/server/server.go:76-118 | the same law at the server: field by field, which requests keep the instance and which replace it |
| RegistryRuns.SharedNameDeletesOne | server/pkg/instance/handler.go:175-230 | two repositories of one name can be added, and a deletion by that name removes the one listed last |
| RegistryRuns.ResyncIsStutter | server/pkg/instance/repository.go:224-227 | sending a registered specification again, any number of times between any ticks and with any Helm options, keeps the lists and every reply is a success |
| RegistryRuns.OthersLeaveEntryAlone | server/pkg/server/server.go:76-140 | requests about other applications and repositories leave an application's entry alone |
| RegistryRuns.CrashExactlyWhen | server/pkg/instance/repository.go:200-263 | a request crashes the server if and only if it meets a hole |
| RegistryRuns.HoleAppearsExactlyWhen | server/pkg/instance/repository.go:237-250 | a hole appears if and only if a changed specification's rebuild fails after its storage was removed |
| RegistryRuns.FailedRebuildLeavesHole | server/pkg/instance/repository.go:237-250 | and then it is the only hole, and the server still up |
| RegistryRuns.HoleIsForEver | server/pkg/instance/repository.go:244-250 | no run of requests and ticks that survives removes the hole or its repository |
| RegistryRuns.SurvivesExactlyWhen | server/pkg/instance/handler.go:60-63 | a sequence of ticks and requests is survived if and only if no tick gets the repository's mutex and no request deletes in it or needs to look past the hole |
| RegistryServer.RepositoryConfig.AddOrUpdateApplication | server/pkg/instance/repository.go:197-251 | the list changed in place and the reply follow the function on lists |
| RegistryServer.RepositoryConfig.DeleteApplication | server/pkg/instance/repository.go:254-287 | likewise for the scan and the swap-remove |
| RegistryServer.RepositoryConfig.UninstallAll | server/pkg/instance/handler.go:208-223 | without holes every application is uninstalled, exactly once; nil is dereferenced exactly when there is a hole |
| RegistryServer.RepositoryHandler.GetRepositoryConfig | server/pkg/instance/handler.go:158-167 | the first repository with the URL, or nil when there is none |
| RegistryServer.RepositoryHandler.AddRepository | server/pkg/instance/handler.go:169-184 | appended exactly when the URL is new |
| RegistryServer.RepositoryHandler.FindLast | server/pkg/instance/handler.go:187-199 | the last repository of that name |
| RegistryServer.RepositoryHandler.Drop | server/pkg/instance/handler.go:229-230 | swap-remove drops one repository and keeps the others |
| RegistryServer.RepositoryHandler.DeleteRepository | server/pkg/instance/handler.go:186-233 | the repositories and the reply follow the function on lists, and what is uninstalled is exactly what the dropped repository listed |
| RegistryServer.RepositoryHandler.GetApplication | server/pkg/instance/handler.go:235-245 | the nested loops compute the lookup |
| RegistryServer.RepositoryHandler.FindFirst | server/pkg/server/server.go:125-137 | the repository whose URL the request names |
| RegistryServer.Server.AddRepository | server/pkg/server/server.go:20-57 | a known URL is a success that changes nothing; else the repository is added unless its credentials fail |
| RegistryServer.Server.DeleteRepository | server/pkg/server/server.go:59-74 | the whole registry and the reply follow the map's request |
| RegistryServer.Server.AddOrUpdateApplication | server/pkg/server/server.go:76-118 | only the named repository changes, and "already up to date" is answered as a success |
| RegistryServer.Server.DeleteApplication | server/pkg/server/server.go:120-140 | only the named repository changes, and an unknown one is a success |
| Finalizer.InvariantKept | operator/controllers/application_controller.go:46-120 | every step of users, worker, cache, crash and restart keeps registrations anchored to a resource that holds the finalizer |
| Finalizer.SpecIsTheUsers | operator/controllers/application_controller.go:57-91 | in every run a resource says what its users wrote last, and is being deleted exactly if they asked: the operator changes neither |
| Finalizer.CallsInOrder | operator/controllers/application_controller.go:57-119 | reconcile goes on to its next call only when the last was answered, with the resource as it was read; every other answer ends it |
| Finalizer.NoOrphanedRegistration | operator/controllers/application_controller.go:46-120 | in every run a registered application has a live resource that names its URL and holds the finalizer, provided that resource's URL was never edited |
| Finalizer.OrphansWereLeft | operator/controllers/application_controller.go:71-74 | whatever was edited, only a registration under a former URL can be an orphan |
| Finalizer.DeletionCompletes | operator/controllers/application_controller.go:67-91 | from any reachable state one answered reconcile of the newest version unregisters the application and lets its resource go |
| Finalizer.DeletionCompleteExactlyWhen | operator/controllers/application_controller.go:67-91 | that deletion leaves nothing of the name registered if and only if everything of the name was registered at the resource's present URL |
| Finalizer.SyncCompletes | operator/controllers/application_controller.go:57-119 | from any reachable state one answered reconcile leaves a live resource with the finalizer, otherwise as it was, and registered |
| Finalizer.ResyncChangesNothing | operator/controllers/application_controller.go:95-119 | the periodic reconcile of a registered application changes nothing, whatever happens to its calls |
| Resync.PeriodicReconcileChangesNothing | operator/controllers/application_controller.go:95-119 | any number of periodic reconciles of a registered application, whatever happens to their calls, keep resource, registration and lists, so the instance keeps its clone and revision |
| Resync.RequestSaysTheResource | operator/controllers/application_controller.go:95-109 | nothing of the resource is lost or swapped on the way to the server |
| Finalizer.EditedUrlOrphans | operator/controllers/application_controller.go:71-74 | a run without any failure in which an edited URL leaves an orphan |
| Reconciler.ApplicationReconciler.constructor | operator/controllers/application_controller.go:33-37 | nothing created, nothing registered |
| Reconciler.ApplicationReconciler.Update | operator/controllers/application_controller.go:62-86 | a write succeeds only from the newest version |
| Reconciler.ApplicationReconciler.Reconcile | operator/controllers/application_controller.go:46-120 | the calls in sequence follow the protocol's state machine; when it requeues, stops or fails, and that a requeue means registered, a stop after a deletion gone and not registered |

## Left out

- RawConvergence.RawConverges: asks for distinct kind and name of the manifests of one revision, because two files that claim one object leave whichever goroutine came last; and for honest labels at that revision, which EndToEnd.EndToEndHonesty proves for whole runs.
- EndToEnd.EndToEndHonesty: asks that the manifests read at construction are still right at the first Delivery; EndToEnd.FirstDeliveryHonestExactlyWhen shows that this is what is needed.
- Finalizer.NoOrphanedRegistration: asks that the URL is never edited; Finalizer.DeletionCompleteExactlyWhen and Finalizer.EditedUrlOrphans show what an edit does.
- RegistryRuns.SurvivesExactlyWhen: asks that no later rebuild fails as well and that no other repository takes the name.
- Lifecycle.Application.constructor: does not model that the clone or the provider cannot be built, nor which provider is chosen; the registry sees such a failure as a failing build.
- RawProvider.RawProvider.constructor: does not model failures of the client and the namespace, nor the error for a directory without YAML files.
- ControlProgress.DeadlockFree: leaves out the raw provider's mutex, the last in rank, which EngineFairness.EngineDeadlockFree adds.
- ControlPlane: the searches that AddOrUpdateApplication, DeleteApplication and GetRepositoryConfig make without a lock are one atomic read each, rebuilds succeed (failing ones are in Registry), and after a negative counter, where Go panics, the model just goes on.
- EngineFairness: every provider is a raw one (a Helm provider has no mutex to wait for), and an answer of the API, git or Helm that never comes is a turn that never comes.
- Registry: an application is an entry with an identity rather than an object, so aliasing of application pointers is not modelled.
- RawProvider: an empty namespace stands for "default"; the model takes the namespace as resolved.
- Git: merges, and directories below the handled one; manifests are taken from all files under the sparse path.
- Lifecycle: the sparse checkout is modelled as a checkout of the whole tree, of which only the sparse path is read.
- Helm: an uninstall that fails is taken to leave the record as it was (Helm marks it as uninstalling), and importing values from subcharts is not modelled.
- Reconciler: one reconcile without other steps in between; Finalizer interleaves them.
- Changes of the namespace or of Helm options on a live application: the code does not clean up after the first and ignores the second.
- The repository controller: DeleteRepository fails for unknown names, so its finalizer need not be removed after a server restart.
- GetApplications, GetApplicationRevisions and CheckoutApplicationRevision: read-only listings and a stub.
- gRPC, SSH keys and known hosts, kubeconfig files, logging, YAML parsing, kind-to-plural mapping: plumbing without protocol.
- Wall-clock time: ticks, requeues and timeouts are steps that may happen whenever they are enabled.
