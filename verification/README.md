# Doolittle: verified models of its stateful cores

Doolittle is mostly wiring around an agent runtime, but it contains several self-contained cores whose
correctness is not visible from any single function. This project models them in Dafny and proves what they
promise. `dafny verify dfyconfig.toml` checks everything.

| files | what they model |
|---|---|
| `AgUi.dfy`, `AgUiBracketing.dfy`, `AgUiCursor.dfy`, `AgUiConfluence.dfy`, `AgUiReconnect.dfy`, `AgUiProjection.dfy` | the observer of one durable run: buffering before start, resume cursors, rollback of failed events, message bracketing, reconnection |
| `Installer.dfy`, `InstallerMachine.dfy` | the journalled macOS installer, with a failure or crash at any step of install, rollback and recovery |
| `RuntimeTree.dfy` | the record string behind the digest of a packaged runtime directory |
| `WorkspaceCycles.dfy` | depth-first search for dependency cycles between workspaces |
| `AuditScopes.dfy` | the first-fit distribution of locked production roots over scopes |
| `EnvFile.dfy` | reading and rewriting `.env` |
| `DevReload.dfy`, `DevSupervisor.dfy`, `PanelRefresh.dfy` | the reload scheduler, the supervisor that owns the Electron child, the panel refresher |
| `ThemeColor.dfy` | legacy theme colours, HSL included, over exact reals |
| `BuildInventory.dfy`, `ArtifactInventory.dfy`, `Sbom.dfy`, `LicensePolicy.dfy` | dependency inventories, SPDX documents and licence evaluation of a release |
| `Prelude.dfy`, `Sorting.dfy`, `Text.dfy` | options, the stable sort, strings |

How the models are built:

- State that the program updates in place is a class (`AgUiProjection.Projection`, `InstallerMachine.Machine`,
  `RuntimeTree.Collector`, `WorkspaceCycles.Search`, `EnvFile.EnvStore`, `DevReload.DesktopDevReload`,
  `DevSupervisor.Process`, `PanelRefresh.RefreshScheduler`). The methods of the projection, the reloader, the
  supervisor and the refresher are proved to change the state exactly as a step function on values says, and the
  theorems about whole runs are about those functions. The installer, the collector, the search and the `.env`
  store state in their contracts what the new disk, records, search state or file is, or what it keeps.
- A run is any sequence of steps. Asynchronous code is cut at its awaits, so theorems over runs cover every
  interleaving.
- The installer reads a script that lets every file-system step and check proceed, throw or be the last one
  before a crash. Its contracts hold for every script, and say what particular scripts lead to.
- JSON safety, package and signature checks, timestamp parsing and the recognition of functional colour
  notations are parameters: arbitrary functions or arbitrary outcomes. `localeCompare` is any strict total
  order. Digests are opaque strings.

Some promises do not hold for every input. Each is proved with the exact condition under which it does; the
lemmas named `…Example` and the run `DieHavingPutBack` are concrete failures:

- Recovery of an interrupted install restores the old app if and only if rollback (or an earlier recovery) had
  not already put it back while the journal still named a promotion; then recovery takes the old app for the
  failed new one. No app is lost even then (`Installer.RecoveryRestoresUnlessPutBack`,
  `Installer.PutBackIsMisread`; `InstallerMachine.Machine.DieHavingPutBack` is a run into that state).
- Reading `.env` after an update yields the old entries overridden by the updates if and only if no value that is
  kept stands on a line with a stray carriage return that another line follows (`EnvFile.ReadAfterUpdate`,
  `EnvFile.StrayCrExample`). Updating twice is updating once if and only if no line without an updated key ends
  in one and is followed by another (`EnvFile.UpdateIdempotent`, `EnvFile.UpdateTwiceExample`).
- A legacy colour converts to a canonical hex colour or to nothing if and only if its text is not a name every
  object inherits (`ThemeColor.ResultsAreCanonical`, `ThemeColor.InheritedNameExample`).
- The production audit uses as few scopes as possible if and only if the inherited names among the roots, such as
  `constructor`, are affordable and none is named `__proto__`: each of their versions opens a scope, because every other scope seems to hold
  something else under that name (`AuditScopes.SmallestIffAffordable`, `AuditScopes.ConstructorExample`). It holds
  every root if and only if none is named `__proto__` (`AuditScopes.ScopesAreExact`, `AuditScopes.ProtoExample`).
- A dependency inventory holds all packages, and depends only on their set, if and only if their keys tell them
  apart; a name or version with NUL can break that (`ArtifactInventory.CanonicalForm`,
  `ArtifactInventory.DependsOnSetOnly`, `ArtifactInventory.OrderExample`). A manifest just assembled passes the
  validator if and only if, trimmed, both of their package lists are complete and meet the same package of every
  key first, as they do when keys tell packages apart and always without NUL in a name
  (`ArtifactInventory.ProducedIsAccepted`, `ArtifactInventory.SharedKeyExample`).

## Model

| member | source | states |
|---|---|---|
| `AgUiBracketing.EveryStreamWellBracketed` | packages/ui/src/ag-ui.ts:242-427 | For every run, whatever the steps and failures: the run is announced first and once, text and ends occur only for an open message, a start only for a closed one, the run finishes at most once with no message open, and nothing follows. Holds of everything emitted and of everything the consumer has read |
| `AgUiBracketing.BodiesBracketed` | packages/ui/src/ag-ui.ts:318-378 | What one host event is projected to always continues a run in progress correctly, and the set of open messages afterwards is the one the projection keeps |
| `AgUiBracketing.EveryStreamBounded` | packages/ui/src/ag-ui.ts:228-233 | In every reachable state queue and backlog are within the limit, an error implies a closed stream, and no consumer waits on a stream that is closed or has something to read |
| `AgUiBracketing.ReceiveIsAtomic` | packages/ui/src/ag-ui.ts:379-382 | An event that fails at any point leaves queue, ids, cursor and history as before it and closes the stream |
| `AgUiBracketing.QueueDrainsBeforeError` | packages/ui/src/ag-ui.ts:449-460 | After a failure the consumer still reads every element queued before it, in order, and only then finds the stream closed with the failure |
| `AgUiBracketing.PushAllShape` | packages/ui/src/ag-ui.ts:277-299 | A batch of pushes queues an initial part of it; it is complete exactly when nothing failed, and a failure closes the stream and touches nothing older |
| `AgUiBracketing.ReceiveShape` | packages/ui/src/ag-ui.ts:211-240 | Receiving either projects the event as a whole and moves the cursor to it, or emits nothing and moves no cursor |
| `AgUiCursor.BodiesShowDelta` | packages/ui/src/ag-ui.ts:320-346 | A non-empty delta appears in exactly one content element, the last one its event is projected to |
| `AgUiCursor.IdsAreExactCursors` | packages/ui/src/ag-ui.ts:310-316 | In every run the adapter allows, whatever the arrival order and failures: ids never decrease, and the text read up to any element is exactly the text of the accepted events up to that element's id |
| `AgUiCursor.ReadIsLogWindow` | packages/ui/src/ag-ui.ts:310-383 | Cut a stream after any element read: what was read is the text of the host log between the opening cursor and the last id read |
| `AgUiCursor.TextReadExactlyOnce` | packages/ui/src/ag-ui.ts:516-573 | Over any number of streams, each failing or cut anywhere and each opened at the last id read, every non-empty delta up to the final cursor is read exactly once and in order |
| `AgUiCursor.CaughtUpReadsWholeLog` | packages/ui/src/ag-ui.ts:516-573 | When the last stream is open, drained and fed the whole log, the streams together have read all of its text |
| `AgUiConfluence.ArrivalOrderIrrelevant` | packages/ui/src/ag-ui.ts:228-254 | Any two arrival orders of the same distinct-sequence events before start lead to the same queue, ids, cursor and open messages |
| `AgUiConfluence.BacklogKept` | packages/ui/src/ag-ui.ts:228-234 | Before start, acceptable events within the limit are kept in order of arrival and nothing else changes |
| `AgUiReconnect.ReconnectDisciplined` | packages/ui/src/ag-ui.ts:527-563 | Whatever the host replies, and whatever host and consumer do meanwhile, the step reconnection takes keeps ids exact cursors |
| `AgUiReconnect.ReconnectedRunDisciplined` | packages/ui/src/ag-ui.ts:516-573 | Every run of a reconnected stream, with any steps before the replies and any after, is one whose ids are exact cursors |
| `AgUiReconnect.TerminalReconnect` | packages/ui/src/ag-ui.ts:257-271 | Reconnecting to a finished run shows start, whole transcript, state and closing element, and only the last carries the cursor past the run, from where a further reconnection ends at once; exactly if one of the four is unsafe, it fails there with the elements before it shown and the cursor unmoved |
| `AgUiProjection.Projection.Open` | packages/ui/src/ag-ui.ts:196-204 | A projection exists exactly for a non-negative safe-integer cursor and starts with that cursor and nothing else |
| `AgUiProjection.Projection.PushElement` | packages/ui/src/ag-ui.ts:277-299 | Queues one element, or fails on a full queue or unsafe data; a closed stream ignores it |
| `AgUiProjection.Projection.EndMessages` | packages/ui/src/ag-ui.ts:403 | Ending the open messages one by one equals one batch of ends, and none stays open |
| `AgUiProjection.Projection.PushState` | packages/ui/src/ag-ui.ts:385-427 | The state report, ends and closing element pushed one after another are one batch; a finished run commits its sequence unless a push failed and closes the stream |
| `AgUiProjection.Projection.ProjectEvent` | packages/ui/src/ag-ui.ts:318-383 | The push-by-push projection with rollback equals the all-or-nothing step |
| `AgUiProjection.Projection.ReceiveEvent` | packages/ui/src/ag-ui.ts:211-240 | Filters, checks, buffers or projects an event exactly as the receive step says |
| `AgUiProjection.Projection.StartRun` | packages/ui/src/ag-ui.ts:242-254 | Announces the run and replays the sorted backlog, event by event, as the start step says |
| `AgUiProjection.Projection.SnapshotTerminal` | packages/ui/src/ag-ui.ts:257-271 | A terminal receipt and transcript replace partial replay |
| `AgUiProjection.Projection.CommitCursor` | packages/ui/src/ag-ui.ts:310-316 | Labels the last queued element with the acknowledged sequence |
| `AgUiProjection.Projection.FailWith` | packages/ui/src/ag-ui.ts:429-434 | Only an open stream takes an error, and taking it closes the stream |
| `AgUiProjection.Projection.DisposeStream` | packages/ui/src/ag-ui.ts:436-443 | Closing drops the backlog, wakes the consumer and happens once |
| `AgUiProjection.Projection.Pull` | packages/ui/src/ag-ui.ts:449-460 | One turn of the consumer reads the oldest element or waits while the stream is open |
| `AgUiProjection.Projection.ReturnConsumer` | packages/ui/src/ag-ui.ts:462-471 | Returning detaches and drops what was not read |
| `AgUiProjection.StateBatch` | packages/ui/src/ag-ui.ts:392-424 | A state report and its consequences pushed singly equal one batch |
| `Installer.RecoveryRestoresUnlessPutBack` | apps/desktop/scripts/install-macos-app.ts:451-481 | For every disk an install over a given prior app can leave behind, recovery succeeds and puts that app (or nothing) back at the destination if and only if it had not been put back already under a promotion journal; it leaves neither stage nor lock |
| `Installer.PutBackIsMisread` | apps/desktop/scripts/install-macos-app.ts:469-476 | In that remaining case recovery moves the old app to the failure path, or refuses when that path is taken |
| `Installer.PutBackExample` | apps/desktop/scripts/install-macos-app.ts:469-481 | A concrete disk in that state, whose recovery leaves the destination empty |
| `Installer.RecoveryKeeps` | apps/desktop/scripts/install-macos-app.ts:463-481 | Recovery of any disk loses no app from the destination, backup and failure paths |
| `Installer.MoveKeeps` | apps/desktop/scripts/install-macos-app.ts:570 | Renaming onto a free kept path loses no kept app |
| `InstallerMachine.Machine.Recover` | apps/desktop/scripts/install-macos-app.ts:409-482 | Uninterrupted, recovery ends as the recovery function says; stopped anywhere, no app is lost and the disk is still an interrupted install over the same prior app, or that app is already back, or it was misread and rests at the failure path |
| `InstallerMachine.Machine.StageApp` | apps/desktop/scripts/install-macos-app.ts:539-566 | Verification and staging change nothing but the stage, whatever fails |
| `InstallerMachine.Machine.SwapIn` | apps/desktop/scripts/install-macos-app.ts:567-587 | At every point of failure the two progress flags describe the disk; success means the destination holds a bundle with the identity of the source; a promoting rename that throws leaves the old app set aside under a promotion journal |
| `InstallerMachine.Machine.Rollback` | apps/desktop/scripts/install-macos-app.ts:588-628 | Undisturbed it succeeds. Without a rollback error the destination holds exactly what it held before, stage and backup gone and a promoted app preserved at the failure path; otherwise the disk is one recovery recognises, or the old app is already back |
| `InstallerMachine.Machine.UndoInstall` | apps/desktop/scripts/install-macos-app.ts:588-632 | Undisturbed it ends rolled back and the lock released; a failed rollback is due to a step that threw while going back, keeps the journal, and leaves a disk recovery recognises or the old app back; if only the release fails the old app is back |
| `InstallerMachine.Machine.Install` | apps/desktop/scripts/install-macos-app.ts:527-645 | Every ending of an install is explained: installed and verified, rolled back, or an interrupted state recovery handles; the only app lost is the backup removed after the promoted app passed its identity check. Undisturbed it ends installed exactly when copying and signing keep the identity of the source, else rolled back; with at most one step that throws, the old app or the verified new one is in place |
| `InstallerMachine.Machine.Run` | apps/desktop/scripts/install-macos-app.ts:522-645 | The same for a run that first recovers a stale lock; over an app already put back it either leaves that state or continues over an empty destination with the old app at the failure path; a lock without a journal makes it stop with the disk unchanged |
| `InstallerMachine.Machine.CrashThenRecover` | apps/desktop/scripts/install-macos-app.ts:451-481 | A crash at any forward step that leaves a journal, followed by one uninterrupted recovery, leaves the destination as it was, stage and lock gone; without a journal nothing had changed, or the verified new app is in place |
| `InstallerMachine.Machine.DieHavingPutBack` | apps/desktop/scripts/install-macos-app.ts:469-476 | Over any installed app, a run whose promoting rename fails and which dies before it removes the stage has put the old app back; one recovery then empties the destination and moves that app to the failure path |
| `InstallerMachine.Machine.Lifetime` | apps/desktop/scripts/install-macos-app.ts:495-645 | Over any number of runs stopped anywhere, every app that was in place, set aside or preserved before, between or after them still is, except those a later completed install replaced, and whenever an install completed the destination held a bundle with the identity of the source |
| `RuntimeTree.EncodingInjective` | apps/desktop/scripts/package-provenance.ts:97-138 | Two runtime trees with the same record string are the same tree: same directories, empty ones included, same link targets, file sizes and digests; names and targets may contain newlines |
| `RuntimeTree.PrintAllInjective` | apps/desktop/scripts/package-provenance.ts:110-118 | The joined string determines the list of records |
| `RuntimeTree.LastFieldSplits` | apps/desktop/scripts/package-provenance.ts:110-118 | A record's last field, newlines included, is determined by what follows it |
| `RuntimeTree.InsideInjective` | apps/desktop/scripts/package-provenance.ts:100-125 | The records inside a directory determine the directory |
| `RuntimeTree.RecordsBelow` | apps/desktop/scripts/package-provenance.ts:100-112 | Every record of a directory lies at or below one of its entries |
| `RuntimeTree.Collector.Visit` | apps/desktop/scripts/package-provenance.ts:100-125 | The recursive visit appends exactly the directory's records whatever the listing order, keeps the totals, and fails exactly when some entry cannot be recorded or has a path that starts with two dots |
| `RuntimeTree.PackageRuntime` | apps/desktop/scripts/package-provenance.ts:85-139 | A receipt exists exactly for a non-empty directory of supported entries with no name at its top that starts with two dots, and carries the number of its records, the sum of its file sizes and its record string |
| `WorkspaceCycles.FindCycles` | scripts/check-monorepo.ts:49-75 | The result is empty if and only if the workspace graph is acyclic, and every reported entry is a cycle of dependencies in which only the first name repeats; the search terminates |
| `WorkspaceCycles.Search.Visit` | scripts/check-monorepo.ts:56-72 | A visit restores the active path, forgets no report, and while nothing is reported leaves every finished workspace after all its dependencies |
| `WorkspaceCycles.OrderedIsAcyclic` | scripts/check-monorepo.ts:66-71 | A finishing order in which dependencies come first excludes every cycle |
| `WorkspaceCycles.ClosingCycle` | scripts/check-monorepo.ts:57-60 | Meeting a name of the active path again closes a simple cycle |
| `WorkspaceCycles.Dependencies` | scripts/check-monorepo.ts:39-48 | A workspace depends on exactly the names in its four dependency lists |
| `AuditScopes.ProductionAuditScopes` | scripts/audit-production.ts:24-59 | The scopes hold every external root of every workspace at its locked version and nothing else, one version per name, and are as few as possible exactly when that is affordable; missing importers, missing versions and an empty audit are refused |
| `AuditScopes.SmallestIffAffordable` | scripts/audit-production.ts:45-53 | The scopes hold every root and no assignment of the roots to scopes has fewer, if and only if no root is named `__proto__` and at no point the versions of an ordinary name so far plus the inherited names and versions still to come exceed the versions of some one name |
| `AuditScopes.OrdinaryNamesMinimal` | scripts/audit-production.ts:45-53 | Without inherited names first fit is always minimal, with as many scopes as the most versioned name has versions |
| `AuditScopes.ConstructorExample` | scripts/audit-production.ts:45-53 | Roots `a` and `constructor`: two scopes are opened where one suffices |
| `AuditScopes.ScopesCounted` | scripts/audit-production.ts:45-53 | The number of scopes is the largest such load, for roots not named `__proto__` |
| `AuditScopes.ScopesAreExact` | scripts/audit-production.ts:35-54 | The scopes hold external roots only and every external root at its version, `__proto__` alone excepted |
| `AuditScopes.ProtoExample` | scripts/audit-production.ts:45-53 | A root named `__proto__` is in no scope |
| `AuditScopes.StepCount` | scripts/audit-production.ts:45-53 | A root opens a scope exactly if its version is new and its name is inherited or held by every scope |
| `AuditScopes.ScopesShaped` | scripts/audit-production.ts:45-53 | Each scope holds a version of its own of any name, and an ordinary name is held by an initial part of the scopes |
| `AuditScopes.AddRoot` | scripts/audit-production.ts:45-53 | The search loop places a root in the first scope it fits, in a new one if there is none |
| `EnvFile.ReadAfterUpdate` | scripts/bootstrap/core/env-file.ts:80-151 | For every text and all well-formed updates: reading after the update gives the old entries overridden by the updates, duplicate key lines included, if and only if no kept value is decided by a line with a stray carriage return that another line follows |
| `EnvFile.UpdateIdempotent` | scripts/bootstrap/core/env-file.ts:128-160 | Updating twice is updating once, if and only if no line without an updated key ends in a stray carriage return with another line following, one in the file or one that is added |
| `EnvFile.LinesRoundTrip` | scripts/bootstrap/core/env-file.ts:129-160 | Lines survive joining and splitting if and only if none holds a line feed and none but the last ends in a carriage return |
| `EnvFile.PrintedEntry` | scripts/bootstrap/core/env-file.ts:139-153 | A written setting reads back as its key and value |
| `EnvFile.KeptKey` | scripts/bootstrap/core/env-file.ts:139-142 | When exactly a key that is not updated keeps its value: unless its deciding line ends in a carriage return and another line follows, one in the file or one that is added |
| `EnvFile.StrayCrExample` | scripts/bootstrap/core/env-file.ts:128-160 | A file in which updating one key changes the value of another |
| `EnvFile.UpdateTwiceExample` | scripts/bootstrap/core/env-file.ts:128-160 | A file that the same update changes a second time |
| `EnvFile.EnvStore.ReadEntries` | scripts/bootstrap/core/env-file.ts:59-93 | Reads the last value of each key; a missing file reads as empty |
| `EnvFile.EnvStore.WriteAll` | scripts/bootstrap/core/env-file.ts:160-172 | However the system cuts the writes and however long the file was, it ends as exactly the new content |
| `EnvFile.EnvStore.UpdateFile` | scripts/bootstrap/core/env-file.ts:95-176 | Rewrites mentioned keys in place, appends the others in order, writes nothing when only checking and leaves a missing file missing |
| `DevReload.ReadyWorkIsScheduled` | apps/desktop/scripts/dev-reload.ts:17-72 | In every run over known surfaces, an open reloader with all surfaces ready and something new to apply has its timer armed or a drain in flight |
| `DevReload.WakeupKeptUnlessUnknownBuild` | apps/desktop/scripts/dev-reload.ts:17-27 | One event loses a wakeup exactly when a build of an unknown surface starts while everything known is ready and no drain runs |
| `DevReload.FreshWakeup` | apps/desktop/scripts/dev-reload.ts:3-15 | Only a reloader without surfaces starts with work nobody scheduled |
| `DevReload.DesktopDevReload.Start` | apps/desktop/scripts/dev-reload.ts:17-21 | A starting build withdraws its surface, opens a generation and disarms the timer; of a known surface it loses no wakeup |
| `DevReload.DesktopDevReload.Finish` | apps/desktop/scripts/dev-reload.ts:23-27 | A finished build sets or withdraws its surface, rearms the timer if all are ready and loses no wakeup |
| `DevReload.DesktopDevReload.Drain` | apps/desktop/scripts/dev-reload.ts:49-58 | The timer begins a drain exactly when open, ready, behind and not draining already, and loses no wakeup |
| `DevReload.DesktopDevReload.FinishDrain` | apps/desktop/scripts/dev-reload.ts:63-71 | A drain applies the generation it saw, a failed one gives up until a new edit, and it rearms when behind |
| `DevSupervisor.AtMostOneChild` | apps/desktop/scripts/dev.ts:51-58 | In every interleaving of builds, timers, exits, timeouts and signals at most one child runs, and resources are released only when none does |
| `DevSupervisor.SpawnOnlyAfterExit` | apps/desktop/scripts/dev.ts:42-58 | A child is spawned only when every earlier one has exited, no shutdown has begun and the current generation is fully built |
| `DevSupervisor.NoSpawnAfterShutdown` | apps/desktop/scripts/dev.ts:141-153 | Once shutdown has begun nothing is spawned and the running set only shrinks |
| `DevSupervisor.NoReloadForgotten` | apps/desktop/scripts/dev-reload.ts:43-72 | No reload is forgotten inside the supervisor either |
| `DevSupervisor.ExitKeeps` | apps/desktop/scripts/dev.ts:64-107 | After a child's exit, with both listeners run, no child is left |
| `DevSupervisor.Process.Stop` | apps/desktop/scripts/dev.ts:79-92 | Joins the stop in flight, or starts one that is over at once when no child runs |
| `DevSupervisor.Process.OnExit` | apps/desktop/scripts/dev.ts:64-107 | The two exit listeners in registration order; they keep the invariants of the supervisor |
| `DevSupervisor.Process.OnRestart` | apps/desktop/scripts/dev.ts:42-63 | A restart that goes on spawns only over no running child and outside shutdown, and keeps the invariants |
| `DevSupervisor.Process.BeginShutdown` | apps/desktop/scripts/dev.ts:141-147 | Shutdown closes the reloader before it waits for the child |
| `PanelRefresh.LoopsNeverOverlap` | apps/cli/src/cli/tui-panels.ts:119-134 | In every interleaving there is exactly one running or ended loop body while the promise is set and none otherwise |
| `PanelRefresh.NoRequestForgotten` | apps/cli/src/cli/tui-panels.ts:114-136 | In every interleaving, failing refreshes included, a queued refresh has a timer or a loop, and at rest every request was answered by a refresh begun after it |
| `PanelRefresh.RefreshScheduler.OnTimer` | apps/cli/src/cli/tui-panels.ts:119-128 | A timer starts a loop only when none runs, and leaves exactly one |
| `PanelRefresh.RefreshScheduler.OnFinally` | apps/cli/src/cli/tui-panels.ts:129-134 | The end of a loop leaves none, and a timer for every request it did not answer |
| `ThemeColor.HslMatchesCss` | packages/ui/src/themes.ts:469-484 | For every hue and all saturations and lightnesses in [0,1] the chroma and segment conversion equals the algorithm of section 4.2.4 of CSS Color Module Level 3 |
| `ThemeColor.SegmentIsTurn` | packages/ui/src/themes.ts:470 | The double truncated remainder is the position on the colour circle for every hue, negative ones included |
| `ThemeColor.HslInRange` | packages/ui/src/themes.ts:484-487 | No such colour fails the range check |
| `ThemeColor.HslConverts` | packages/ui/src/themes.ts:457-488 | Every opaque HSL colour within bounds converts to a six-digit colour whose channels are the rounded channels of the standard |
| `ThemeColor.ChannelsPrinted` | packages/ui/src/themes.ts:486-488 | The printed digits denote the rounded channels |
| `ThemeColor.ResultsAreCanonical` | packages/ui/src/themes.ts:422-489 | A result is absent or '#' with six lower-case hex digits, if and only if the text is not a name every object inherits |
| `ThemeColor.InheritedNameExample` | packages/ui/src/themes.ts:422-425 | The text `constructor` yields something that is no colour |
| `ThemeColor.CanonicalUnchanged` | packages/ui/src/themes.ts:426-435 | Converting a canonical colour, and so any result, again returns it unchanged |
| `BuildInventory.StablePackages` | apps/desktop/scripts/desktop-build-inventory.ts:143-165 | The package list of a surface exists exactly when every rendered package has an identity; it is strictly ordered and complete, lists every rendered key and gives each exactly the bytes rendered under it |
| `BuildInventory.Validate` | apps/desktop/scripts/desktop-build-inventory.ts:290-306 | Comparing each entry with the one before it accepts exactly the lists that are strictly ordered as a whole, complete and with bytes |
| `BuildInventory.TotalsBytes` | apps/desktop/scripts/desktop-build-inventory.ts:146-159 | Adding up loses no byte of any key |
| `BuildInventory.StableListIsValidSurface` | apps/desktop/scripts/desktop-build-inventory.ts:290-306 | So every validated surface has the strict order the manifest checks rely on |
| `ArtifactInventory.ProducedIsAccepted` | apps/desktop/scripts/desktop-artifact.ts:636-718 | A manifest the producer assembles from valid surface inventories passes the surface, inventory and merged-dependency checks of the validator if and only if the validator's list of its inputs is complete once trimmed and meets the same package of every key first as the producer's; so it does whenever keys tell the inputs apart, and always when no name holds a NUL |
| `ArtifactInventory.AcceptedListsEverything` | apps/desktop/scripts/desktop-artifact.ts:541-577 | A manifest the validator accepts lists third-party packages its parts name, each once, and all of them if and only if their keys tell them apart |
| `ArtifactInventory.DependsOnSetOnly` | apps/desktop/scripts/runtime-requirements.ts:394-422 | The inventory depends only on the set of trimmed packages, if and only if their keys tell them apart |
| `ArtifactInventory.OrderExample` | apps/desktop/scripts/runtime-requirements.ts:399-422 | Two packages that share a key: the inventory changes with their order and misses one of them |
| `ArtifactInventory.CanonicalForm` | apps/desktop/scripts/runtime-requirements.ts:399-422 | It is strictly ordered by name and version, each package once and nothing but trimmed packages, and holds all of them if and only if their keys tell them apart |
| `ArtifactInventory.StableIdempotent` | apps/desktop/scripts/runtime-requirements.ts:399-422 | Applying it again changes nothing, whatever the packages |
| `ArtifactInventory.MergedAgrees` | apps/desktop/scripts/desktop-artifact.ts:641-655 | Filtering and deduplicating surface packages before merging makes no difference, if and only if both lists are complete or neither is, and complete ones meet the same package of every key first |
| `ArtifactInventory.SharedKeyExample` | apps/desktop/scripts/desktop-artifact.ts:266-280 | Two surfaces whose packages share a key: the manifest just assembled is refused |
| `ArtifactInventory.StableInventory` | apps/desktop/scripts/runtime-requirements.ts:399-422 | The one-pass loop computes the canonical form, or refuses exactly when an entry lacks a name or version |
| `Sbom.CreatedValidates` | apps/desktop/scripts/desktop-sbom.ts:65-202 | A document created for a build passes the validator for the same platform, commit and digests, for any dependency list |
| `Sbom.ValidIdsDistinct` | apps/desktop/scripts/desktop-sbom.ts:178-200 | In every document the validator accepts all package identifiers differ, and the root depends on each further package |
| `Sbom.IdsDiffer` | apps/desktop/scripts/desktop-sbom.ts:48-56 | Identifiers at different positions differ, whatever the package names |
| `Sbom.IdIsNotRoot` | apps/desktop/scripts/desktop-sbom.ts:42-56 | No dependency identifier equals the root's |
| `Sbom.IdCharactersOnly` | apps/desktop/scripts/desktop-sbom.ts:48-56 | Identifiers use only the characters section 7.2 of SPDX Specification 2.3 allows |
| `Sbom.Validate` | apps/desktop/scripts/desktop-sbom.ts:149-202 | The validator accepts exactly the documents whose header and every entry match |
| `LicensePolicy.EvaluationIsExact` | apps/desktop/scripts/runtime-requirements.ts:80-90 | The evaluation holds if and only if every way of choosing one side of each OR and both sides of each AND contains a strong copyleft licence |

## Left out

- Host, network, browser capture, process spawning and the user interface: calls into other libraries; only the step structure of the supervisor is kept.
- The walk of `jsonData` and its byte, depth and node limits: each event and element passes or fails an arbitrary predicate.
- AG-UI request validation, the SSE text encoding, unsubscription and the single-iterator guard: one branch settles each.
- AG-UI sequences that are not integers: sequences are unbounded integers with the safe-integer check.
- Concurrent `next` calls on one AG-UI iterator: the consumer is sequential.
- `AgUiCursor.TextReadExactlyOnce`: does not cover a stream opened on an already finished run, because there the canonical transcript replaces replay (`AgUiReconnect.TerminalReconnect`).
- Torn journal writes and partly done removals of a directory: each rename, removal and journal write is one step.
- `InstallerMachine.Machine.Run`: assumes a single live installer and that the random failure name of a run differs from the one in a stale journal, as `uniqueSiblingPath` intends.
- Symbolic links, path containment and journal path patterns in the installer: paths are typed, links do not occur.
- Windows path separators in the runtime tree, and the order of names outside the basic plane: names are sequences of characters compared one by one; the record string is what is digested, the digest itself is not modelled.
- The text form of a reported workspace cycle (names joined by arrows), and the reordering of integer-like object keys there and in the audit.
- YAML parsing and printing of the audit's lock file.
- `AuditScopes.ScopesCounted`: does not count scopes when a root is named `__proto__`, because then the roots are not all held anyway.
- `AuditScopes.StepCount`: the same.
- `AuditScopes.ScopesShaped`: the same.
- UTF-8 encoding, file modes and the messages of the `.env` update; a write always makes progress.
- Component scanning of functional colours and lower-casing beyond ASCII; rounding of floating-point arithmetic (reals are exact); the contrast and luminance formulas.
- The transitive closure of installed packages, audit reports, notices and the non-inventory fields of the artifact manifest.
- The outputs of a build surface and their digests, and the mapping from module paths to package directories: the identity a path leads to is an input.
