/**
  What each handler leaves in the columns of the row it is for, and which request it
  leaves, read off the columns and the answers it was given.
 */
module HandlerOutcomes {
  import opened Wrappers
  import opened VmModel
  import opened StatusDetail
  import opened Placement
  import Text

  // vm.node is not None, and vm.node.active.
  predicate AtNode(m: Manager, row: VmRow) {
    row.node.Some? && row.node.value in m.nodes
  }

  predicate CanHost(m: Manager, n: NodeId) {
    n in m.nodes && m.nodes[n]
  }

  predicate AtActiveNode(m: Manager, row: VmRow) {
    row.node.Some? && CanHost(m, row.node.value)
  }

  // What a handler leaves is what the manager then holds.
  lemma HandlerIsCommitted(san: Tag -> Tag, m: Manager, i: Input)
    requires !HasNoVm(i) && !i.CreateVm? && i.vm in m.rows
    ensures var out, managed := ManageRow(san, m, m.rows[i.vm], i), Manage(san, m, i);
            && managed.effect == out.effect && managed.m.nodes == m.nodes
            && (i.vm in managed.m.rows ==> managed.m.rows[i.vm] == out.row)
            && managed.m.gold == if i.CaptureGold? && out.effect.BeginSave? then m.gold[i.name := i.goldTag] else m.gold
  {}

  // ---- The poller ---------------------------------------------------------------

  // Polling leaves alone what is neither pushing nor pulling, and waits while the operation goes on.
  lemma PollWaits(san: Tag -> Tag, m: Manager, row: VmRow, i: Input)
    requires i.Poll?
    requires row.status !in {Pushing, Pulling} || !AtNode(m, row) || i.reply in {InProgress, Unreachable}
    ensures ManageRow(san, m, row, i) == Outcome(row, Quiet)
  {}

  // A lost or failed operation fails the VM where it is, with the reason.
  lemma PollFails(san: Tag -> Tag, m: Manager, row: VmRow, i: Input)
    requires i.Poll? && row.status in {Pushing, Pulling} && AtNode(m, row) && (i.reply.Idle? || i.reply.Errored?)
    ensures var reason := if i.reply.Idle? then LOST_OP else i.reply.text;
            ManageRow(san, m, row, i)
            == Outcome(row.(status := Failed, detail := Some(reason), logged := row.logged + {Failed}), Quiet)
  {}

  // A finished push without a usable marker archives the VM: off its node, saved now, under its tag.
  lemma PollArchives(san: Tag -> Tag, m: Manager, row: VmRow, i: Input)
    requires i.Poll? && i.reply == Finished && row.status == Pushing && AtNode(m, row)
    requires ParseGoldName(row.detail).None? && ParseMigrationTarget(row.detail) in {None, Some(0)}
    ensures ManageRow(san, m, row, i)
            == Outcome(row.(status := Archived, node := None, savedAt := Some(i.now), detail := None,
                            logged := row.logged + {Archived}), Quiet)
  {}

  // A finished capture archives it as well, under the tag of its gold image if there is one.
  lemma PollCaptures(san: Tag -> Tag, m: Manager, row: VmRow, i: Input, name: string)
    requires i.Poll? && i.reply == Finished && row.status == Pushing && AtNode(m, row)
    requires ParseGoldName(row.detail) == Some(name)
    ensures var goldTag := if name in m.gold then m.gold[name] else "";
            ManageRow(san, m, row, i)
            == Outcome(row.(status := Archived, node := None, savedAt := Some(i.now), detail := None,
                            tag := if goldTag == "" then row.tag else goldTag, logged := row.logged + {Archived}), Quiet)
  {}

  // A migration whose target is gone or inactive ends in the registry, and the row says so.
  lemma PollMissesTarget(san: Tag -> Tag, m: Manager, row: VmRow, i: Input, target: int)
    requires i.Poll? && i.reply == Finished && row.status == Pushing && AtNode(m, row)
    requires ParseGoldName(row.detail).None? && ParseMigrationTarget(row.detail) == Some(target) && target != 0
    requires !CanHost(m, target)
    ensures ManageRow(san, m, row, i)
            == Outcome(row.(status := Archived, node := None, savedAt := Some(i.now), detail := Some(TARGET_GONE),
                            logged := row.logged + {Archived}), Quiet)
  {}

  // Otherwise it goes on at the target, and at no other node, once the target takes the restore.
  lemma PollHandsOver(san: Tag -> Tag, m: Manager, row: VmRow, i: Input, target: int)
    requires i.Poll? && i.reply == Finished && row.status == Pushing && AtNode(m, row)
    requires ParseGoldName(row.detail).None? && ParseMigrationTarget(row.detail) == Some(target) && target != 0
    requires CanHost(m, target)
    ensures ManageRow(san, m, row, i)
            == if i.restoreOk
               then Outcome(row.(status := Pulling, node := Some(target), detail := None,
                                 logged := row.logged + {Pulling}), BeginRestore(target, Text.Strip(row.tag)))
               else Outcome(row, Quiet)
  {}

  // What is recorded of a cleanup: done without an error, or a warning with the registry's error.
  predicate RecordsCleanup(c: Cleanup, tag: Tag, answer: CleanupAnswer, now: int) {
    && c.runAt == Some(now)
    && (Text.Strip(tag) == "" || answer.ok ==> c.status == Some(Done) && c.error.None?)
    && (Text.Strip(tag) != "" && !answer.ok ==> c.status == Some(Warning) && c.error == answer.error)
    && c.digest == if Text.Strip(tag) == "" then None else answer.digest
  }

  // A finished restore makes the VM run where it is, and its artefact is cleaned up.
  lemma PollRestores(san: Tag -> Tag, m: Manager, row: VmRow, i: Input)
    requires i.Poll? && i.reply == Finished && row.status == Pulling && AtNode(m, row)
    ensures var out := ManageRow(san, m, row, i);
            && out.row == row.(status := Running, startedAt := Some(i.now), detail := None, cleanup := out.row.cleanup,
                               logged := row.logged + {Running})
            && RecordsCleanup(out.row.cleanup, row.tag, i.cleanup, i.now)
            && out.effect == if Text.Strip(row.tag) == "" then Quiet else CleanTag(row.tag)
  {}

  // The status of a local VM follows what its node reports: running when powered on, stopped when off.
  lemma SyncFollowsNode(san: Tag -> Tag, m: Manager, row: VmRow, i: Input)
    requires i.Sync?
    ensures var reported := if i.listed == Some(On) then Running else Stopped;
            ManageRow(san, m, row, i)
            == Outcome(if i.listed.None? || !AtNode(m, row) || row.status in {Pushing, Archived, Pulling, reported} then row
                       else row.(status := reported, detail := None, logged := row.logged + {reported},
                                 startedAt := if reported == Running then Some(i.now) else row.startedAt), Quiet)
  {}

  // ---- Users and admins -----------------------------------------------------------

  // A VM starts in state creating on the node that was picked; it ends as the node reports it, running if the
  // node reports nothing, or failed with the error.
  lemma CreateLeaves(san: Tag -> Tag, m: Manager, i: Input)
    requires i.CreateVm? && i.vm !in m.rows && CanHost(m, i.best)
    ensures var status := if !i.started then Failed else if i.listed == Some(Off) then Stopped else Running;
            var detail := if i.started then None else Some(i.error);
            var startedAt := if status == Running then Some(i.now) else None;
            var logged := {Creating, status} + if i.started then {Running} else {};
            var row := VmRow(status, Some(i.best), detail, i.tag, i.baseImage, None, startedAt, NO_CLEANUP, logged);
            Manage(san, m, i) == Managed(m.(rows := m.rows[i.vm := row]), Quiet)
  {
    var row := CreatedRow(i);
    assert row.logged == {Creating, row.status} + if i.started then {Running} else {};
  }

  lemma StartLeaves(san: Tag -> Tag, m: Manager, row: VmRow, i: Input)
    requires i.Start?
    ensures ManageRow(san, m, row, i)
            == Outcome(if row.status in {Stopped, Failed} && AtActiveNode(m, row) && (i.ok || i.listed == Some(On))
                       then row.(status := Running, detail := None, startedAt := Some(i.now),
                                 logged := row.logged + {Running})
                       else row, Quiet)
  {}

  lemma StopLeaves(san: Tag -> Tag, m: Manager, row: VmRow, i: Input)
    requires i.Stop?
    ensures ManageRow(san, m, row, i)
            == Outcome(if row.status == Running && AtNode(m, row) && i.ok
                       then row.(status := Stopped, detail := None, logged := row.logged + {Stopped})
                       else row, Quiet)
  {}

  // Saving asks the VM's own node to push under the sanitized tag.
  lemma SaveLeaves(san: Tag -> Tag, m: Manager, row: VmRow, i: Input)
    requires i.Save?
    ensures ManageRow(san, m, row, i)
            == if row.status in {Running, Stopped} && AtNode(m, row) && i.ok
               then Outcome(row.(status := Pushing, tag := san(row.tag), logged := row.logged + {Pushing},
                                 detail := if i.clearDetail then None else row.detail),
                            BeginSave(row.node.value, san(row.tag)))
               else Outcome(row, Quiet)
  {}

  // Migrating does the same for an active source and another active target; the marker left is read back as that
  // target and as no capture.
  lemma MigrateLeaves(san: Tag -> Tag, m: Manager, row: VmRow, i: Input)
    requires i.Migrate?
    ensures var out := ManageRow(san, m, row, i);
            if row.status in {Running, Stopped, Failed} && AtActiveNode(m, row) && i.target != 0 && CanHost(m, i.target)
               && row.node.value != i.target && i.ok
            then
              && out.row == row.(status := Pushing, tag := san(row.tag), detail := out.row.detail,
                                 logged := row.logged + {Pushing})
              && ParseMigrationTarget(out.row.detail) == Some(i.target) && ParseGoldName(out.row.detail).None?
              && out.effect == BeginSave(row.node.value, san(row.tag))
            else out == Outcome(row, Quiet)
  {
    MigrationMarkerRoundTrip(i.target);
  }

  // An archived VM is restored on the active node that was picked.
  lemma ResumeLeaves(san: Tag -> Tag, m: Manager, row: VmRow, i: Input)
    requires i.Resume?
    ensures ManageRow(san, m, row, i)
            == if row.status == Archived && CanHost(m, i.best) && i.ok
               then Outcome(row.(status := Pulling, tag := san(row.tag), node := Some(i.best),
                                 logged := row.logged + {Pulling}, detail := if i.clearDetail then None else row.detail),
                            BeginRestore(i.best, san(row.tag)))
               else Outcome(row, Quiet)
  {}

  // A failed VM is pulled again on its node: from its artefact if it was ever saved, else from its base image.
  lemma RepullLeaves(san: Tag -> Tag, m: Manager, row: VmRow, i: Input)
    requires i.Repull?
    ensures var source := if row.savedAt.Some? then row.tag else row.baseImage;
            ManageRow(san, m, row, i)
            == if row.status == Failed && AtActiveNode(m, row) && source != "" && i.ok
               then Outcome(row.(status := Pulling, detail := None, logged := row.logged + {Pulling}),
                            BeginRestore(row.node.value, san(source)))
               else Outcome(row, Quiet)
  {}

  // A capture is a save under the gold tag, which the row takes on; the marker left is read back as the image's
  // name and as no migration.
  lemma CaptureLeaves(san: Tag -> Tag, m: Manager, row: VmRow, i: Input)
    requires i.CaptureGold? && Text.Stripped(i.name)
    ensures var out := ManageRow(san, m, row, i);
            if row.status in {Running, Stopped} && AtNode(m, row) && i.name != "" && i.goldTag != "" && i.ok
            then
              && out.row == row.(status := Pushing, tag := i.goldTag, detail := out.row.detail,
                                 logged := row.logged + {Pushing})
              && ParseGoldName(out.row.detail) == Some(i.name) && ParseMigrationTarget(out.row.detail).None?
              && out.effect == BeginSave(row.node.value, i.goldTag)
            else out == Outcome(row, Quiet)
  {
    if i.name != "" {
      GoldMarkerRoundTrip(i.name);
    }
  }

  // A retry sends the tag to the registry, unless it is empty or a retry is pending, and records the answer.
  lemma RetryLeaves(san: Tag -> Tag, m: Manager, row: VmRow, i: Input)
    requires i.RetryCleanup?
    ensures var out := ManageRow(san, m, row, i);
            if row.tag == "" || row.cleanup.status == Some(Pending) then out == Outcome(row, Quiet)
            else
              && out.row == row.(cleanup := out.row.cleanup)
              && RecordsCleanup(out.row.cleanup, row.tag, i.cleanup, i.now)
              && out.effect == if Text.Strip(row.tag) == "" then Quiet else CleanTag(row.tag)
  {}

  // A delete that the node refuses fails the VM; any other takes the row away, the disk from the node and the
  // artefact from the registry.
  lemma DeleteLeaves(san: Tag -> Tag, m: Manager, i: Input)
    requires i.Delete? && i.vm in m.rows
    ensures var row, managed := m.rows[i.vm], Manage(san, m, i);
            if AtNode(m, row) && !i.ok
            then
              var logged := if row.status == Failed then row.logged else row.logged + {Failed};
              managed == Managed(m.(rows := m.rows[i.vm := row.(status := Failed, detail := Some(i.error),
                                                                logged := logged)]), Quiet)
            else managed == Managed(m.(rows := m.rows - {i.vm}),
                                    if AtNode(m, row) then Destroy(row.node.value, row.tag)
                                    else if Text.Strip(row.tag) == "" then Quiet else CleanTag(row.tag))
  {}

  // ---- The drain thread --------------------------------------------------------------

  // The drained node is asked to push under the sanitized tag, or a fresh one; only an accepted save shows in the
  // status.
  lemma DrainBeginLeaves(san: Tag -> Tag, m: Manager, row: VmRow, i: Input)
    requires i.DrainBegin?
    ensures var tag := if row.tag == "" then san(i.freshTag) else san(row.tag);
            ManageRow(san, m, row, i)
            == if i.ok then Outcome(row.(status := Pushing, detail := None, tag := tag), BeginSave(i.drained, tag))
               else Outcome(row.(tag := if i.tagKept then tag else row.tag), Quiet)
  {}

  lemma DrainPollLeaves(san: Tag -> Tag, m: Manager, row: VmRow, i: Input)
    requires i.DrainCheck? || i.DrainTimeout?
    ensures ManageRow(san, m, row, i)
            == Outcome(if i.DrainTimeout? then row.(status := Failed, detail := Some(DRAIN_TIMEOUT))
                       else if i.reply.Finished?
                       then row.(status := Archived, node := None, savedAt := Some(i.now), detail := None)
                       else if i.reply.Errored? then row.(status := Failed, detail := Some(i.reply.text))
                       else if i.reply.Idle? then row.(status := Failed, detail := Some(DRAIN_LOST))
                       else row, Quiet)
  {}

  // ---- Nodes, gold images and users -----------------------------------------------------

  // Adding, toggling and deleting a node, and deleting an image or a user, change that and nothing else.
  lemma AdminLeaves(san: Tag -> Tag, m: Manager, i: Input)
    requires HasNoVm(i)
    ensures var managed := Manage(san, m, i);
            && managed.effect.Quiet?
            && (forall n | i == AddNode(n) && n !in m.nodes :: managed.m.nodes == m.nodes[n := true])
            && (!i.AddNode? && !i.ActivateNode? && !i.DeactivateNode? && !i.DeleteNode? ==> managed.m.nodes == m.nodes)
            && managed.m.rows == (if i.DeleteUser? then m.rows - i.vms else m.rows)
            && managed.m.gold == (if i.DeleteGold? then m.gold - {i.name} else m.gold)
  {}

  // ---- What a VM was saved as ------------------------------------------------------------

  // Archiving records the save, and nothing takes that back.
  lemma {:induction false} ArchivedIsSavedForGood(san: Tag -> Tag, m: Manager, inputs: seq<Input>, v: VmName)
    requires v in m.rows && RowShape(m.rows[v]) && (m.rows[v].status == Archived || m.rows[v].savedAt.Some?)
    requires forall i <- inputs :: i.CreateVm? ==> i.vm != v
    ensures var m' := ManageAll(san, m, inputs); v in m'.rows ==> m'.rows[v].savedAt.Some?
    decreases |inputs|
  {
    if inputs != [] {
      var i := inputs[0];
      assert i in inputs;
      VmsChangeExactly(san, m, i, v);
      var next := Manage(san, m, i).m;
      if v in next.rows {
        if !HasNoVm(i) && i.vm == v {
          ManageRowKeepsShape(san, m, m.rows[v], i);
          SavedStays(san, m, m.rows[v], i);
        }
        ArchivedIsSavedForGood(san, next, inputs[1..], v);
      } else {
        GoneForGood(san, next, inputs[1..], v);
      }
    }
  }

  lemma SavedStays(san: Tag -> Tag, m: Manager, row: VmRow, i: Input)
    requires !HasNoVm(i) && !i.CreateVm? && row.savedAt.Some?
    ensures ManageRow(san, m, row, i).row.savedAt.Some?
  {}

  // So whatever happens to a VM after it was archived once, each re-pull of it asks for its own artefact.
  lemma RepullAfterArchive(san: Tag -> Tag, m: Manager, inputs: seq<Input>, v: VmName, ok: bool)
    requires v in m.rows && RowShape(m.rows[v]) && m.rows[v].status == Archived
    requires forall i <- inputs :: i.CreateVm? ==> i.vm != v
    ensures var m' := ManageAll(san, m, inputs);
            v in m'.rows ==>
              var effect := Manage(san, m', Repull(v, ok)).effect;
              effect.Quiet? || effect == BeginRestore(m'.rows[v].node.value, san(m'.rows[v].tag))
  {
    ArchivedIsSavedForGood(san, m, inputs, v);
    var m' := ManageAll(san, m, inputs);
    if v in m'.rows {
      RepullLeaves(san, m', m'.rows[v], Repull(v, ok));
    }
  }
}
