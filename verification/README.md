# MappleLab: verified model of the VM manager

MappleLab drives the disks of virtual machines between Mac nodes and an OCI registry. The
manager holds one row per VM; agents on the nodes save, restore, start and stop; a poller and
a drain thread move rows along. This project models those parts in Dafny and proves what the
manager keeps over whole runs, what its usage page really measures, what registry cleanup
achieves when replies get lost, which artefact a tag names, and which ports and tunnels stay
allocated. `dafny verify dfyconfig.toml` checks everything.

## Structure

| Part | Modules |
|---|---|
| Rows, handlers, the manager | `VmModel` (specification functions), `VmRecords` (the records updated in place, proved equal to them), `HandlerOutcomes` (what each handler leaves), `StatusDetail`, `Placement` |
| The world of agents, registry and guests | `Lab`, `Conservation`, `Continuations`, `Hazards`, `Lifecycles` (operations run to their end) |
| Event log and usage | `UsageEvents`, `UsageMetrics`, `UsageTotals`, `Telemetry`, `ManagerLogs` (which writes a run of the manager makes) |
| Tags | `RegistrySegment`, `SegmentWords`, `RegistryTag`, `TagForms`, `TagStability`, `ArtefactNames`, `PrintedTags` |
| Registry | `RegistryCleanup`, `Inventory`, `Orphans` (the orphan page and the disks of the lab) |
| Ports and tunnels | `DirectProxy` (every interleaving), `DyingListeners`, `VncRouting` (one call at a time) |
| Nodes | `NodeDrain`, `Scheduling` |
| Strings and options | `Text`, `Wrappers` |

Each handler body is one atomic step; what agents, the registry, quota checks and the clock
answer is a parameter of the step. Results in `Placement` hold for arbitrary answers. Results
in `Conservation` and `Hazards` use the agent contract of
docs/architecture/registry-and-cleanup.md, lines 12 to 20, in its three steps: a save pushes,
then verifies the manifest, then deletes the local copy, and anything may happen in between.
Further: a call that fails has no effect; a new VM has a new identity; an agent accepts start,
stop and save only for a VM on its disk, and runs at most one operation per VM, a new one
being refused or taking its place. Agents may be slow, fail an operation, or lose its record
at any moment. Guests write to their disks at any moment but between push and removal of the
local copy. Artefacts that belong to no VM may be pushed or deleted by others at any moment.
A drain asks to save only VMs that were running or stopped when it took its snapshot
(app/nodes/routes.py:178-180); `Placement.SnapshotLeavesTrace` says that their logs show it.

The sanitizer is a parameter of the lifecycle proofs. `PrintedTags` instantiates it: tags
printed by `registry_tag_for` and gold tags meet every premise about tags, and "no other VM
has this artefact" is said in terms of sanitized names. The premise `IsAuthority` on
REGISTRY_URL says that its authority is one in the sense of section 3.2 of RFC 3986 (not
empty, no white space, no `/`, `?` or `#`), and is not the word `v2`.

## What turned out false, and exactly when

- Creation, re-pull, cleanup retry, deletion of orphans, gold capture, delete, deletion of a
  user and the drain thread's archiving can each lose or strand a disk. `Conservation` admits
  them under guards, and `Hazards` proves of each guard, for every reachable state, that it is
  exact: the claims hold in every continuation if and only if the guard held before the call.
  - Creation: no other VM has the new VM's artefact. Names need only differ as texts, and
    create_vm compares no tags (app/main/routes.py:410-427): one user's "dev 1" and "dev-1"
    share one artefact, and saving or deleting the one loses the other's disk.
    (`PrintedTags.CreateIsSafeExactly` says it in names.)
  - Cleanup retry, and the deletion of an artefact from the orphan page: the VM has had no
    disk, or its node lists it and is not about to delete its local copy.
  - Re-pull: if the node lists the VM, it asks for the VM's own artefact and that is not there;
    if not, it asks for the VM's own artefact, or the VM has had no disk. It asks for the own
    artefact when last_saved_at is set, or when the base image is that artefact.
  - Gold capture: no other VM has the gold tag as its artefact.
  - Delete: the node is not pulling the VM. Deletion of a user: no node has a VM of theirs or
    is pulling one.
  - The drain's archiving: the node neither lists nor pulls the VM. A drain that saves or gives
    up needs no guard.

  Each guard can be checked before the call. Whether a VM has had a disk shows in its node's
  listing and its events: one has target running, stopped, pushing or archived
  (`Conservation.DiskLeavesTrace`). Whether a node is pulling or about to delete shows in the
  stage its agent reports (app/api/routes.py:220-229).
- The causes: `cleanup_retry` does not check the status (app/admin/routes.py:607-623), re-pull
  boots the base image of a migrated VM because the migration leg leaves last_saved_at empty
  (app/api/routes.py:187-197), the gold tag is shared (app/admin/routes.py:518), delete does
  not wait for a pull (app/main/routes.py:826-860), `delete_user` asks no agent
  (app/admin/routes.py:680-682), and the drain thread reads the agent of the drained node
  wherever the VM is by then (app/nodes/routes.py:73).
- The orphan page can offer the only copy of an existing VM: exactly artefacts of a user named
  v2, and gold artefacts under whose segment no image is registered, such as that of a capture
  as "My Gold" (`Orphans.OwnArtefactIsOrphanExactly`, `Orphans.CapturedArchiveIsOffered`).
- docs/development/setup.md, line 41, expects a status event for every transition. The drain
  thread assigns vm.status directly (app/nodes/routes.py:67, 78). The rebuilt status is the
  real one exactly when the last change was a handler's or put back what the last handler's
  change had set (`Telemetry.TelemetryExactly`), and the log is one chain exactly under the
  condition of `UsageEvents.ChainedExactly`.
- An undisturbed drain leaves archived VMs without a node; a drain that writes to a VM that
  has lost its node meanwhile leaves it failed, out of reach of everything but delete
  (`Placement.DrainKeepsHousedExactly`, `Placement.StrandedForGood`).
- The cap on VNC seconds does work only when two sessions overlap
  (`UsageTotals.OverlappingSessionsExceed`); the rescaling branch never does anything.
- `cleanup_tag` may report an error although the artefact is gone, exactly in the case of
  `RegistryCleanup.GoneUnreportedExactly`.
- Sanitizing a tag twice is not always the same as once; `TagStability.SanitizeStableExactly`
  says when it is.
- Two overlapping starts of one VM's proxy leak a listener for good
  (`DirectProxy.RegisterLeaksExactly`, `DirectProxy.LeakIsForGood`).
- Two proxies can be registered on one port. A listener closes itself on any OSError from
  accept (app/direct_tcp_proxy.py:73-75, 99-103) while its proxy stays registered. Ports then
  stay distinct, whatever starts and stops follow, if and only if no start is about to register
  that listener, and no start of another VM is scanning at or below the port of a proxy that
  has it, with a snapshot that lacks the port, or has chosen or bound the port
  (`DyingListeners.DeathExactly`).
- A VM that was proxied while its node was this host and is prepared again from a remote node
  gets a tunnel that its proxy never takes down (`VncRouting.PrepareCouplesExactly`).

## Model

| member | source | states |
|---|---|---|
| Conservation.DiskConservation | app/api/routes.py:143-217 | In every state a run reaches, the latest disk content of every VM is on its node or at its registry tag, and no other node holds a disk of it; runs mix the handlers that write VM rows, nodes, gold images or artefacts, the poller and the drain thread, timeouts included, with any agent behaviour; creation takes part when no other VM has the new VM's artefact, and orphan deletion, cleanup retry, re-pull, gold capture, delete, deletion of a user and the drain's archiving under their exact guards |
| Conservation.DiskLeavesTrace | app/usage_events.py:6-49 | In every such state a VM has had a disk if and only if its node lists it or one of its events has target running, stopped, pushing or archived |
| Conservation.NextKeepsInv | app/main/routes.py:500-698 | Every single step of those runs keeps the invariant behind conservation, handler by handler and agent step by agent step |
| Conservation.MigrationHandsOver | app/api/routes.py:160-198 | A migration's restore is accepted on the target only when no node holds the disk any more and the registry has its latest content; a refused restore leaves row and world as they were, still pushing |
| Conservation.PollPushKeepsVm | app/api/routes.py:160-204 | When the agent reports a push done, the disk is in the registry alone, and whichever branch archives the VM or hands it to the target keeps its invariant; what each branch does is in the rows of HandlerOutcomes and Lifecycles |
| Conservation.RepullKeepsVm | app/main/routes.py:58-86 | Re-pull keeps the disk of a VM its node does not list when the VM was saved, or its base image is its artefact, or it never had a disk |
| Conservation.CaptureKeepsInv | app/admin/routes.py:466-546 | Gold capture keeps every disk when the gold tag is no other VM's artefact |
| Conservation.DeletedKeepsInv | app/main/routes.py:817-862 | Deleting a VM that its node is not pulling, a pushing one included, leaves no disk behind and nothing that could make one |
| Conservation.DrainPollKeepsVm | app/nodes/routes.py:71-95 | Whatever the row has become meanwhile, a poll by the drain thread keeps the disk if it archives only a VM that its node neither has nor pulls |
| Conservation.DrainGiveUpKeepsVm | app/nodes/routes.py:97-100 | Giving up on a VM, its save still in flight or not, never endangers its disk |
| Hazards.CleanupRetryExactly | app/admin/routes.py:607-623 | A cleanup retry that reaches the registry leaves every continuation safe if and only if the VM has had no disk, as its node's listing and its events show, or its node lists it and has not verified a push of it |
| Hazards.OrphanDeleteExactly | app/admin/routes.py:267-291 | Deleting an artefact as an orphan leaves every continuation safe if and only if the same holds of each VM whose artefact it is |
| Hazards.CreateExactly | app/main/routes.py:410-427 | A creation that makes a disk leaves every continuation safe if and only if the new VM's artefact is no other VM's |
| Hazards.RepullExactly | app/main/routes.py:58-86 | Re-pull leaves every continuation safe if and only if: when the node lists the VM, the source (its tag if last_saved_at is set, else its base image) is its own artefact and that is absent; when not, the source is its own artefact or no event of the VM has target running, stopped, pushing or archived |
| Hazards.CaptureExactly | app/admin/routes.py:513-519 | A gold capture leaves every continuation safe if and only if no other VM has the gold tag as its artefact |
| Hazards.DeleteExactly | app/main/routes.py:826-860 | A delete that goes through leaves every continuation safe if and only if the VM's node is not pulling it |
| Hazards.UserDeleteExactly | app/admin/routes.py:671-684 | Deleting a user leaves every continuation safe if and only if no node has a VM of theirs or is pulling one |
| Hazards.DrainCheckExactly | app/nodes/routes.py:71-95 | A poll by the drain thread leaves every continuation safe if and only if it archives no VM that its node lists or pulls |
| Hazards.UndisturbedDrainIsSafe | app/nodes/routes.py:71-83 | While the row still is pushing on the drained node, that guard holds by itself |
| Lifecycles.OthersKeepView | app/api/routes.py:143-217 | No step of another VM, of a node, an agent of another VM or the registry changes anything of a VM: row, disks, operations, content, artefact |
| Lifecycles.SaveArchives | app/api/routes.py:199-203 | From every reachable lab, over every run in which the VM's own steps are the push: save and poll leave it archived, off its node, saved now, its artefact holding the content it had |
| Lifecycles.DonePushIsSettled | app/api/routes.py:160-204 | In every reachable lab, the honest poll of a pushing VM whose push is done leaves it pushing if and only if its marker names an active target that refuses the restore |
| Lifecycles.MigrationMoves | app/main/routes.py:572-658 | Over every run in which the VM's own steps are the push: after a migration to t, the poll has t and no other node pull the very content, with the row pulling at t; if t refuses, the VM waits, still meant for t; if t is inactive or gone, the VM is archived with its content |
| Lifecycles.PullArrives | app/api/routes.py:205-209 | A pull that runs to its end and is polled brings the VM up on that node with the artefact's content, with the cleanup recorded and the artefact gone if cleanup achieved it |
| Lifecycles.ResumePulls | app/admin/routes.py:436-463 | Resuming an archived VM has the chosen active node pull its content |
| Lifecycles.RepullPulls | app/main/routes.py:71-81 | Re-pulling a failed VM that was saved has its node pull its content |
| Lifecycles.SaveResumeRoundTrip | app/main/routes.py:500-569 | Saving a VM, leaving it archived for any time and resuming it on any active node brings it up there with the very content it had, whatever happens to others meanwhile |
| Placement.ShapeHolds | app/api/routes.py:165-203 | In every reachable state, drain included and whatever anybody answers, archived implies no node, a creating, running or stopped VM carries no marker, and a creating, running, stopped or pulling one has an event that says so |
| Placement.SnapshotLeavesTrace | app/nodes/routes.py:178-180 | A VM that is running or stopped when a drain takes its snapshot has an event that says so after every further run, until it is deleted |
| Placement.HousedHolds | app/main/routes.py:689-691 | Without the drain thread a VM has no node if and only if it is archived |
| Placement.DrainKeepsHousedExactly | app/nodes/routes.py:57-100 | A drain input keeps "no node if and only if archived" exactly unless it writes, otherwise than as archived, to a row without a node |
| Placement.StrandedForGood | app/nodes/routes.py:84-100 | A failed VM without a node stays so over every run until it or its user is deleted, or it is drained again |
| Placement.NeverDangling | app/nodes/routes.py:403-423 | Over every run, no vm.node_id names a node that delete_node removed, migrations in flight towards it included |
| Placement.InactiveNodeOnlyLoses | app/main/routes.py:599-602 | While a node stays inactive or deleted, the set of VMs on it never gains a member |
| Placement.VmsChangeExactly | app/main/routes.py:414-425 | A VM appears only by create_vm on an active node and goes only by a delete its node does not refuse, or with its user; a handler writes no other VM's row |
| Placement.NodesChangeExactly | app/nodes/routes.py:403-423 | A node comes only by being added, active, and goes only by delete_node while it is inactive and no row names it; only its own toggle changes its flag |
| Placement.CleanupNoninterference | app/registry_cleanup.py:261-310 | Two runs that differ only in what the registry answers have, at every step, equal rows except for the cleanup columns, and the same VMs |
| StatusDetail.MigrationMarkerRoundTrip | app/api/routes.py:67-74 | The marker migrate_vm writes is read back as the same node and never as a gold capture |
| StatusDetail.GoldMarkerRoundTrip | app/api/routes.py:77-82 | The marker make_gold_image writes is read back as the same name and never as a migration |
| HandlerOutcomes.HandlerIsCommitted | app/main/routes.py:58-86 | What a handler leaves is what the manager holds then; the gold table changes by an accepted capture alone |
| HandlerOutcomes.PollWaits | app/api/routes.py:143-158 | Polling leaves every other status, and a VM without a node, alone, and waits while the operation goes on or the agent is away |
| HandlerOutcomes.PollFails | app/api/routes.py:210-217 | A lost or failed operation fails the VM where it is, with the reason |
| HandlerOutcomes.PollArchives | app/api/routes.py:199-203 | A done push without a gold name and without a nonzero target: archived, no node, saved now, no detail, same tag |
| HandlerOutcomes.PollCaptures | app/api/routes.py:163-172 | A done capture: archived under the gold image's tag, or its own if there is none |
| HandlerOutcomes.PollMissesTarget | app/api/routes.py:173-183 | A done push towards a target that is gone or inactive: archived, with that in the detail |
| HandlerOutcomes.PollHandsOver | app/api/routes.py:184-198 | A done push towards an active target: pulling at that node with the marker cleared, or untouched if the target refuses |
| HandlerOutcomes.PollRestores | app/api/routes.py:205-209 | A done restore: running where it is, started now, no detail, cleanup recorded as done without error or as a warning with the registry's error |
| HandlerOutcomes.SyncFollowsNode | app/api/routes.py:34-64 | A creating, running, stopped or failed VM takes the state its node reports, on as running and off as stopped |
| HandlerOutcomes.CreateLeaves | app/main/routes.py:414-456 | A new row has the node, tag and base image it was created with and ends as the node reports it, running if it reports nothing, or failed |
| HandlerOutcomes.StartLeaves | app/main/routes.py:723-771 | Start makes a stopped or failed VM on an active node run, and nothing else |
| HandlerOutcomes.StopLeaves | app/main/routes.py:774-814 | Stop makes a running VM with a node stopped, and nothing else |
| HandlerOutcomes.SaveLeaves | app/main/routes.py:500-569 | Save leaves a running or stopped VM pushing under its sanitized tag and asks its own node to push that |
| HandlerOutcomes.MigrateLeaves | app/main/routes.py:599-645 | Migrate does the same from an active node to another active one; the marker it leaves is read back as that very target and as no capture |
| HandlerOutcomes.ResumeLeaves | app/admin/routes.py:436-463 | Resume leaves an archived VM pulling on the chosen active node, which is asked to restore the sanitized tag |
| HandlerOutcomes.RepullLeaves | app/main/routes.py:71-81 | Re-pull asks the VM's active node for the VM's tag when last_saved_at is set and for the base image when it is not |
| HandlerOutcomes.RepullAfterArchive | app/main/routes.py:71-78 | Whatever happens to a VM after it was archived once, each re-pull of it asks for its own artefact |
| HandlerOutcomes.CaptureLeaves | app/admin/routes.py:513-540 | Capture leaves the VM pushing under the gold tag; its marker is read back as the image's name and as no migration |
| HandlerOutcomes.RetryLeaves | app/admin/routes.py:607-631 | Cleanup retry changes cleanup columns alone, and records the registry's answer |
| HandlerOutcomes.DeleteLeaves | app/main/routes.py:817-862 | A refused delete fails the VM with the error; any other removes the row, the disk and the artefact |
| HandlerOutcomes.DrainBeginLeaves | app/nodes/routes.py:39-69 | An accepted save by the drain leaves the row pushing and asks the drained node; a refused one can leave no more than the sanitized tag |
| HandlerOutcomes.DrainPollLeaves | app/nodes/routes.py:71-100 | Done archives, an error or a lost operation fails with its text, a timeout fails, anything else changes nothing |
| HandlerOutcomes.AdminLeaves | app/admin/routes.py:671-716 | Node administration and the deletion of images and users change their own table and, for users, their VMs |
| VmRecords.VmRecord.constructor | app/main/routes.py:414-427 | A new VM is a creating row on its node with one baseline event at its creation |
| VmRecords.VmRecord.AdvanceAsync | app/api/routes.py:143-217 | The poller leaves the row, the request, the log and the registry that the handler functions give for the agent's and the registry's answers, and reports a change exactly when the row changed |
| VmRecords.VmRecord.FinishPush | app/api/routes.py:161-204 | The push branch: gold capture, migration with target present, gone or refusing, plain archive |
| VmRecords.VmRecord.FinishPull | app/api/routes.py:205-209 | The restore branch: running, marker cleared, cleanup of the tag, whose outcome only shows in the cleanup columns |
| VmRecords.VmRecord.SyncFromAgent | app/api/routes.py:34-64 | Reconciliation follows the agent's listing for local VMs only, and reports a change exactly when there is one |
| VmRecords.VmRecord.ConfirmCreated | app/main/routes.py:429-456 | Whatever the row is by then, a created VM takes the state the node reports, or fails with the error; one event per transition |
| VmRecords.VmRecord.Start | app/main/routes.py:723-771 | Start recovers a VM that is already running, and starts a stopped or failed one on an active node |
| VmRecords.VmRecord.Stop | app/main/routes.py:774-814 | Stop acts on running VMs with a node only |
| VmRecords.VmRecord.Save | app/main/routes.py:500-569 | Save sanitizes the tag, asks the VM's node to push under it and marks the row pushing; the admin form also clears the detail |
| VmRecords.VmRecord.Migrate | app/main/routes.py:572-658 | Migrate asks the source node to save and leaves the target in the marker, for an active source and another active target |
| VmRecords.VmRecord.Resume | app/admin/routes.py:436-463 | Resume, by the user's route or the admin's, asks the chosen active node to restore the sanitized tag and moves the row there; only the admin route clears the detail |
| VmRecords.VmRecord.Repull | app/main/routes.py:58-86 | Re-pull takes the base image exactly when the VM was never saved |
| VmRecords.VmRecord.MakeGoldImage | app/admin/routes.py:466-546 | Gold capture pushes under the gold tag and retargets the row to it |
| VmRecords.VmRecord.RetryCleanup | app/admin/routes.py:607-631 | Cleanup retry runs unless the tag is empty or a retry is pending; nothing but cleanup columns changes |
| VmRecords.VmRecord.Delete | app/main/routes.py:817-862 | The row is removed unless its node refuses; the registry's answer makes no difference |
| VmRecords.VmRecord.CleanupVmRegistryTag | app/registry_cleanup.py:261-310 | Cleanup of a VM's tag records done or warning, the error and the digest, and touches the registry as cleanup_tag does |
| VmRecords.VmRecord.SetVmStatus | app/usage_events.py:35-49 | Status and log change together, as the log specification says |
| VmRecords.VmRecord.RecordTransition | app/usage_events.py:6-32 | An event is appended unless the latest one already has that target |
| UsageEvents.LogShape | app/usage_events.py:6-67 | For every sequence of writes under a forward clock, drain included, the log is ordered by time and id and no two adjacent events share their target |
| UsageEvents.LogIsChain | app/main/routes.py:425-439 | For a VM made by create_vm and never drained, the log is one chain from creating to vm.status |
| ManagerLogs.RowsFollowLogs | app/usage_events.py:35-49 | After any run of the manager, the writes its handlers and drains made account for every row: they end in its status, and the targets they logged are those the row shows |
| ManagerLogs.RunLogIsChain | app/main/routes.py:425-439 | After any run from an empty manager, the log of a VM that no drain input was for is one chain from creating to the status its row has |
| ManagerLogs.RunTelemetryExactly | app/nodes/routes.py:67-82 | After any run, drains included, the usage page gives a VM the status its row has, from the last write on, exactly when the last change was a handler's, or put back what the last handler's change had set |
| UsageEvents.LogAgreesExactly | app/nodes/routes.py:67-82 | For every sequence of writes, drains included, the log ends in vm.status exactly when the last change was a handler's, or put back what the last handler's change had set |
| UsageEvents.ChainedExactly | app/usage_events.py:6-67 | The log is one chain from creating to vm.status exactly when that held before every logged change and holds now |
| UsageEvents.DrainIsNeverLogged | app/nodes/routes.py:78-82 | A drain that changes vm.status while the log is right leaves the log wrong |
| UsageEvents.FirstCloseStays | app/usage_events.py:83-94 | After any history of session starts and closes a session has its start time and the time of the first close since, whatever else happened |
| UsageEvents.SessionsAreOpened | app/usage_events.py:70-80 | After any history a session exists exactly for the tokens that were started |
| UsageMetrics.BuildStateIntervals | app/admin/usage_metrics.py:27-49 | The loop builds the specified intervals from the sorted log |
| UsageMetrics.SortRowsSorted | app/admin/usage_metrics.py:29-32 | Sorting keeps the events and orders them by time |
| UsageMetrics.StateIntervalsPartition | app/admin/usage_metrics.py:39-49 | With at least one event, in any order, the intervals are nonempty, contiguous and cover created_at to the later of now and created_at |
| UsageMetrics.StateIntervalsMeaning | app/admin/usage_metrics.py:36-49 | At every instant the rebuilt state is the target of the last event that had happened |
| UsageTotals.RunningAndStopped | app/admin/usage_metrics.py:52-65 | Whole seconds per state and the running spans of at least one second |
| UsageTotals.RunningVncSeconds | app/admin/usage_metrics.py:68-79 | The nested loop adds, session by session and run by run, the whole seconds of overlap |
| UsageTotals.SecondsNeverExceedLifetime | app/admin/usage_metrics.py:106-119 | Floored stopped and running seconds of any partition never exceed the floored lifetime |
| UsageTotals.VmUsage | app/admin/usage_metrics.py:106-119 | The usage row of one VM: its segments fit the lifetime, so rescaling changes nothing |
| UsageTotals.RowMeasures | app/admin/usage_metrics.py:52-65 | Lifetime, stopped time and running time of the row are the instants since creation, and those at which the rebuilt state is stopped or running, bounded from both sides by the rounding of each interval; exact with whole-second timestamps |
| UsageTotals.RowVncMeasures | app/admin/usage_metrics.py:68-79 | The VNC part is the running instants of all sessions, bounded from both sides, and at most the running time |
| UsageTotals.RescalingDead | app/admin/usage_metrics.py:114-119 | The rescaling branch is never taken, whatever events and sessions |
| UsageTotals.CapIsIdentity | app/admin/usage_metrics.py:110-112 | For disjoint sessions the cap on VNC seconds changes nothing |
| UsageTotals.VncNeverExceedsRunning | app/admin/usage_metrics.py:68-79 | For pairwise disjoint sessions, with sub-second floors, VNC seconds never exceed running seconds |
| UsageTotals.OverlappingSessionsExceed | app/admin/usage_metrics.py:110-111 | Two simultaneous sessions count twice, so the cap is needed |
| UsageTotals.VncIsMeasure | app/admin/usage_metrics.py:68-79 | With whole-second timestamps VNC seconds equal the number of instants, session by session, at which the rebuilt state is running |
| Telemetry.TelemetryExactly | app/usage_events.py:35-49 | For any sequence of writes, drains included, the rebuilt status at every instant is what the last handler's change had set, and is the real one if and only if the last change by then was a handler's or put that back |
| Telemetry.TelemetryRefinesReality | app/usage_events.py:35-49 | Without a drain the rebuilt intervals give at every instant exactly the status the VM had, several writes at one timestamp included |
| Telemetry.VncMeasuresReality | app/admin/usage_metrics.py:68-79 | End to end: the VNC seconds shown measure the time sessions were open while the VM really was running |
| Telemetry.RowMeasuresReality | app/admin/usage_metrics.py:106-125 | For a VM never drained, with whole-second timestamps: the row's lifetime is the time since creation, its stopped seconds the time the VM really was stopped, its running seconds the time it really ran |
| Telemetry.RowVncMeasuresReality | app/admin/usage_metrics.py:68-79 | And, if no two of its sessions were open at once, its VNC seconds the time it ran while a session was open, an open session counting until now |
| RegistryCleanup.RequestWithRetry | app/registry_cleanup.py:79-120 | The retry loop computes the specified answer, registry and number of attempts |
| RegistryCleanup.RetryMeaning | app/registry_cleanup.py:79-120 | From the fates of the attempts alone: a request stops at its first reply below 500, or after three attempts with the last 5xx there was, or with the exception exactly when nothing was answered |
| RegistryCleanup.RetrySettles | app/registry_cleanup.py:79-120 | However attempts are lost, a read changes nothing, a delete is in effect or not, and a reply below 500 is the truth about the registry |
| RegistryCleanup.ResolutionIsTrue | app/registry_cleanup.py:123-180 | Resolving by HEAD and GET changes nothing; missing means missing and a digest is the tag's |
| RegistryCleanup.ResolvedExactly | app/registry_cleanup.py:128-172 | On every network, by the fates of the attempts alone: a present tag is resolved if and only if the last HEAD attempt shows the digest, or is answered below 500 without it, refusals included, and the last GET attempt shows it; an absent one is found missing if and only if HEAD is served, or refused and GET served |
| RegistryCleanup.HeadFailure | app/registry_cleanup.py:128-150 | When no HEAD attempt is answered below 500, the reported failure is the last 5xx answer, or the network's if there was none |
| RegistryCleanup.GetFailure | app/registry_cleanup.py:151-172 | When HEAD settled nothing, the reported failure is the status of the last GET answer, or the network's if there was none |
| RegistryCleanup.OkExactly | app/registry_cleanup.py:227-258 | On every network cleanup succeeds if and only if the tag is well formed and is absent and found so, or is resolved and its delete reported; missing and digest are reported exactly then |
| RegistryCleanup.DeleteFailureExactly | app/registry_cleanup.py:183-224 | An unreported delete fails with the status answered last, or with the network's error |
| RegistryCleanup.RegistryAfterExactly | app/registry_cleanup.py:183-258 | The registry loses the resolved digest if and only if an attempt to delete it took effect, and nothing else ever changes |
| RegistryCleanup.CleanupOkMeansGone | app/registry_cleanup.py:227-258 | If cleanup_tag returns ok the tag no longer resolves, even when the DELETE took effect and its reply was lost |
| RegistryCleanup.OnlyResolvedDigestRemoved | app/registry_cleanup.py:183-224 | Whatever happens, only tags of the resolved digest in that one repository disappear |
| RegistryCleanup.SecondRunFindsNothing | app/registry_cleanup.py:243-248 | A run after a successful one deletes nothing, and against a responsive registry reports missing |
| RegistryCleanup.ResponsiveExactly | app/registry_cleanup.py:128-172 | Against a responsive registry cleanup succeeds if and only if the tag is well formed and is missing or has its digest shown by HEAD or GET |
| RegistryCleanup.GoneUnreportedExactly | app/registry_cleanup.py:183-224 | The artefact is gone while cleanup reports an error if and only if its digest was shown, some DELETE attempt took effect, and the last one was not answered by 200 or 202, nor by 404 after an earlier one |
| RegistryCleanup.GoneWithoutOk | app/registry_cleanup.py:183-224 | An instance: every reply to the DELETE is lost |
| RegistryCleanup.DeleteFollowsFates | app/registry_cleanup.py:79-120 | A DELETE is in effect after its retries if and only if one of the attempts took effect |
| RegistrySegment.SegmentIsClean | app/node_manager.py:27-36 | A sanitized segment is never empty, uses only a-z, 0-9 and hyphen, with no leading, trailing or doubled hyphen |
| RegistrySegment.SegmentFixpoint | app/node_manager.py:27-36 | Sanitizing changes exactly the text that is not of that form |
| RegistrySegment.SegmentIdempotent | app/node_manager.py:27-36 | Sanitizing twice is sanitizing once |
| SegmentWords.SegmentIsWords | app/node_manager.py:27-36 | A segment is the maximal runs of letters and digits of the text, in lower case, joined by single hyphens, or vm if there are none |
| SegmentWords.GoldSegmentIsWords | app/admin/routes.py:66-74 | The same for gold names, with gold as default |
| SegmentWords.SameWordsExactly | app/node_manager.py:27-36 | Two names get one segment if and only if they have the same words |
| RegistryTag.SanitizeRegistryTag | app/main/routes.py:89-140 | The statement sequence and its loop compute the specified tag |
| RegistryTag.NormalizeComponents | app/main/routes.py:132-139 | The loop sanitizes every component after the authority, keeping the last one's tag |
| RegistryTag.PrintParseRoundTrip | app/registry_cleanup.py:26-64 | Parsing a printed tag gives back the authority, both sanitized names and latest; only a namespace v2 is dropped |
| RegistryTag.SaveResumeCleanupAgree | app/main/routes.py:89-140 | Save, resume and cleanup name one artefact: sanitizing a printed tag is stable and keeps what the parser reads, even for a user named v2 |
| RegistryTag.LegacyTagHeals | app/main/routes.py:109-120 | A tag that still names localhost is sanitized to the very tag the printed one is, when REGISTRY_URL names another host |
| TagForms.HealsExactly | app/main/routes.py:109-120 | A host is replaced if and only if it is this machine's and REGISTRY_URL names another |
| TagForms.UrlNamesSameArtefact | app/main/routes.py:94-101 | A tag written as a URL, with any scheme and query, is sanitized and parsed like the tag without them |
| TagForms.BaseIsAuthority | app/node_manager.py:10-24 | Whether REGISTRY_URL is an authority or a URL with or without a path, tags are printed with its authority |
| TagForms.HostnameIsName | app/main/routes.py:109-116 | The host name is the authority without user and port, in lower case |
| TagForms.SanitizedForm | app/main/routes.py:102-139 | Any tag of host, path, name and optional version: the host is healed, every name sanitized, the version kept, one /v2 after the host dropped |
| TagForms.ParsedForm | app/registry_cleanup.py:26-64 | The parser gives its host, its path without one /v2 after the host, and its version, latest if there is none |
| RegistryTag.SameArtefactExactly | app/node_manager.py:85-90 | Two VMs get one artefact if and only if both sanitized names coincide |
| RegistryTag.GoldTagExactly | app/admin/routes.py:66-74 | A gold tag is stable, and a VM's own artefact exactly for a user sanitized to gold-images and a VM of that name |
| TagStability.SanitizeStableExactly | app/main/routes.py:89-140 | For any tag, a second sanitizing changes nothing if and only if the first left nothing to strip and no v2 among the first two parts |
| TagStability.HiddenSpaceNotStable | app/main/routes.py:94-103 | A slash before a space hides it from the first pass, so the second pass changes the tag |
| TagStability.DoubledV2NotStable | app/main/routes.py:104-107 | A tag with a doubled v2 segment loses one v2 per pass |
| PrintedTags.PrintedTagIsCanonical | app/node_manager.py:85-90 | Printed tags and gold tags meet the premise on tags of the conservation theorem |
| ArtefactNames.NamedRun | app/api/routes.py:163-172 | After any run each VM's artefact is the one printed for it or that of a gold image |
| PrintedTags.KeysAfterRun | app/admin/routes.py:496-518 | The same for the real tags: each row's sanitized tag is that of the VM's sanitized names or of a gold name |
| PrintedTags.KeysInLab | app/admin/routes.py:496-518 | The same of the manager in every lab that has run from an empty one; each gold image, and each row being captured, has the tag of its gold name |
| PrintedTags.OwnTagExactly | app/main/routes.py:410-424 | A new VM's artefact is its own if and only if no other VM's artefact has its sanitized names, captures included |
| PrintedTags.GoldOwnTagExactly | app/admin/routes.py:496-518 | A gold tag is no other VM's artefact if and only if no other VM holds that gold name's artefact, earlier captures included |
| PrintedTags.CaptureIsSafeExactly | app/admin/routes.py:466-546 | Capturing a VM under a name leaves every continuation safe if and only if no other VM holds that name's artefact; a second capture under one name is not safe |
| PrintedTags.CreateIsSafeExactly | app/main/routes.py:410-427 | A creation that makes a disk leaves every continuation safe if and only if no other VM's artefact has its sanitized names |
| PrintedTags.CleanupSparesOthers | app/registry_cleanup.py:227-258 | Cleaning up one VM's tag never touches the artefact of a VM with other sanitized names |
| Inventory.BuildLookup | app/registry_inventory.py:164-178 | The lookup lists, per sanitized user and VM name, exactly the VMs of existing users in table order |
| Inventory.ClassifyRegistryItems | app/registry_inventory.py:181-253 | The loop, which sorts lookup lists in place as it goes, puts each item on the side its classification says, in listing order |
| Inventory.SplitAddsUp | app/registry_inventory.py:256-271 | Trackable and orphaned items and their sizes add up to what was listed |
| Inventory.SplitKeepsOrder | app/registry_inventory.py:181-253 | Every item is found on its side at the place given by the number of earlier items there |
| Inventory.MatchIsBest | app/registry_inventory.py:227-245 | A match is an existing VM of those sanitized names, and none such has a better status priority |
| Inventory.MatchPrefers | app/registry_inventory.py:231-233 | Of VMs with the same names an archived one is taken first, then a pushing, a pulling, a failed one, then any other |
| Inventory.CandidatesInOrder | app/registry_inventory.py:164-178 | VMs with the same names are listed in table order |
| Inventory.ClassifiedExactly | app/registry_inventory.py:181-253 | By path and tables alone: no namespace, gold image registered or not, or a VM exactly when one with those names exists |
| Inventory.HeadIsPreferred | app/registry_inventory.py:231-233 | The stable sort puts first the earliest record of least priority number |
| Inventory.PushedArtefactTrackableExactly | app/registry_inventory.py:203-254 | The artefact pushed for an existing VM is tracked to a VM of its names if and only if its user does not sanitize to v2 or gold-images |
| Inventory.GoldArtefactTrackableExactly | app/registry_inventory.py:203-225 | A gold artefact is trackable if and only if an image is registered under its sanitized name |
| Orphans.OwnArtefactIsOrphanExactly | app/registry_inventory.py:181-253 | The artefact of an existing VM, captures included, is listed as an orphan if and only if its namespace is v2, or it is a gold artefact and no image is registered under its very segment |
| Orphans.PlainOrphanIsNobodys | app/registry_inventory.py:227-253 | An orphan outside v2 and the gold namespace is no existing VM's artefact |
| Orphans.OrphanDeleteIsSafeExactly | app/registry_inventory.py:274-277 | Deleting the artefact of given names leaves every continuation safe if and only if each VM that has it has had no disk, or is on its node and stays there |
| Orphans.CapturedArchiveIsOffered | app/admin/routes.py:267-291 | An archived VM captured under a name whose segment is no registered image is offered as an orphan, and deleting it loses the only copy |
| Inventory.StorageBreakdown | app/registry_inventory.py:256-271 | Used space is the size of everything listed, once; free space is what the total leaves, never negative |
| DirectProxy.PortSafety | app/direct_tcp_proxy.py:45-125 | However starts and stops interleave, and whatever listeners die safely meanwhile, registered ports are pairwise distinct and inside the configured range |
| DirectProxy.NextKeepsInv | app/direct_tcp_proxy.py:31-43 | Lookup, snapshot, probe, bind, listen, register, pop, close and safe deaths each keep one owner per socket, one listener per port, and nobody after the port of a dead proxy |
| DirectProxy.StartReuses | app/direct_tcp_proxy.py:51-54 | A start of a VM that is proxied changes nothing; any other goes on |
| DirectProxy.StopTakesDown | app/direct_tcp_proxy.py:200-208 | A stop takes the VM out of the table and then its listener down, and nothing else |
| DyingListeners.DeathExactly | app/direct_tcp_proxy.py:65-104 | The death of a listener leaves ports distinct and in range in every continuation if and only if no start is about to register it and no start of another VM may still take the port of a proxy that has it |
| DyingListeners.OneDeathDuplicatesPort | app/direct_tcp_proxy.py:31-43 | For any range and any two VMs a state is reached from the start in which one dying listener is not safe |
| DirectProxy.RegisterLeaksExactly | app/direct_tcp_proxy.py:109-116 | Registering leaks a listener if and only if another start of the same VM registered first and its listener is still open |
| DirectProxy.OtherStepsDoNotLeak | app/direct_tcp_proxy.py:200-216 | No other step leaves a socket without someone who will close it |
| DirectProxy.LeakIsForGood | app/direct_tcp_proxy.py:109-116 | Over every run in which it does not die itself, a leaked listener stays open on its port |
| VncRouting.FindFreePort | app/direct_tcp_proxy.py:31-43 | The scan finds the first port of the range that is free |
| VncRouting.FirstFreeIsLeast | app/tunnel_manager.py:54-66 | It fails only when every port is used or busy, and otherwise returns the least free one |
| VncRouting.TunnelManager.StartVncTcpTunnel | app/tunnel_manager.py:179-272 | An existing tunnel is reused; a failed start changes nothing |
| VncRouting.DirectTcpProxyManager.Start | app/direct_tcp_proxy.py:45-125 | An existing proxy is reused with its old callback; a failed start changes nothing |
| VncRouting.DirectTcpProxyManager.Stop | app/direct_tcp_proxy.py:200-216 | Stopping removes the proxy and runs its callback |
| VncRouting.DirectTcpProxyManager.PrepareVncDirectProxy | app/console/routes.py:194-263 | Tunnel then proxy, with rollback of the tunnel when the proxy fails |
| VncRouting.DirectTcpProxyManager.CleanupAll | app/direct_tcp_proxy.py:223-228 | No proxy is left, and exactly the tunnels of proxies with a callback are gone |
| VncRouting.PrepareExactly | app/console/routes.py:194-263 | Prepare succeeds if and only if the VM is ready and tunnel and proxy are there or can be opened; it answers the port of the VM's proxy; a failure leaves no tunnel of the VM behind; nobody else's entries change |
| VncRouting.StopExactly | app/direct_tcp_proxy.py:200-216 | Stop removes the proxy, and the tunnel exactly when the proxy was opened with one |
| VncRouting.PrepareCouplesExactly | app/console/routes.py:226-257 | Prepare keeps tunnels and callbacks in step except exactly when a VM proxied as local gets a tunnel as remote |
| VncRouting.LocalityChangeLeaksTunnel | app/console/routes.py:226-234 | That tunnel outlives its proxy |
| VncRouting.TunnelsFollowProxies | app/console/routes.py:226-257 | With fixed localities, after any sequence of prepares and stops the tunnels are exactly those of the proxied VMs on remote nodes; no two tunnels share a port, no two proxies do, and with disjoint ranges no tunnel and proxy do |
| NodeDrain.ArchiveVm | app/nodes/routes.py:26-100 | One VM: the row follows the poll that settled it or the timeout, the log is bypassed, and at most ceil(timeout / 3) polls are made |
| NodeDrain.EndArchivesExactly | app/nodes/routes.py:71-100 | A finished push is the one end that archives; every other leaves the VM on its node, still pushing exactly when the agent was unreachable |
| NodeDrain.DrainAll | app/nodes/routes.py:190-245 | At every loop head completed plus errors is the number of VMs processed, each archived without a node or in error on its node |
| NodeDrain.RunNodeDeactivate | app/nodes/routes.py:134-275 | The node ends inactive; blocked exactly when an operation was in flight; done only when every VM of the snapshot is archived with no node; other VMs untouched |
| Scheduling.FindBestNode | app/node_manager.py:55-70 | The first active node with the most free slots; none exactly when no reachable node has a free slot |

## Left out

- Conservation.DiskConservation: create_vm is one step like every handler; requests for the VM that arrive during its own calls to the agent are not interleaved with it.
- Placement.InactiveNodeOnlyLoses: create_vm reads the node and commits its row in one step, as every handler body is atomic here.
- VmRecords.VmRecord.Delete: stopping tunnels, proxies, VNC and the guest before the agent's delete is not modelled.
- VmRecords.VmRecord.ConfirmCreated: one answer `started` stands for the create and the start call together.
- VncRouting.DirectTcpProxyManager.Stop: the on_stop callback is taken to succeed; a failing one is logged and leaves the tunnel.
- Hazards.CreateExactly: speaks of creations that make a disk; of one that fails without a disk only the guarded direction is proved, in Conservation.CreateKeepsInv.
- Hazards.OrphanDeleteExactly: a digest is the digest of one artefact, the repository's `latest`, as nothing here pushes another tag.
- Inventory.ClassifyRegistryItems: the columns copied into a trackable row and the wording of orphan reasons are not modelled.
- RegistryCleanup.RequestWithRetry: sleeping between attempts, timeouts and logging are not modelled; registry errors are kinds, not texts.
- The tart agent itself is not part of this model beyond the contract above; its disks are single values that a push copies whole.
- Quotas, free-slot and registry-space checks: folded into one answer per call, since VMs in flight are not counted and "running count within limit" is not kept by the code.
- Gold image distribution to nodes and its per-node rows: would only add per-row status changes.
- `TunnelManager` under concurrency and its websocket tunnels: a tunnel is registered before its thread binds, so only sequential use is claimed.
- A null registry_tag is the empty string, as every reader of the column takes it.
- Event columns source, context, user and node; session disconnect reason, user and node.
- disk_size_gb and every size estimate passed to agents.
- Text beyond ASCII, `;` parameters and malformed brackets in URLs, and trimming of error texts.
- Rounding of floating-point gigabytes, percentages, display strings and the warning thresholds of the usage page.
- Routes, templates, logins, invites, SMTP, frame relay and thread scheduling.
