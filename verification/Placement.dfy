/**
  Where VMs are placed, over every run of the manager. The answers in the inputs are
  arbitrary: these results need no agent contract at all.
 */
module Placement {
  import opened Wrappers
  import opened VmModel

  // ---- archived and node_id ----------------------------------------------

  // What every row keeps, drain thread included.
  predicate RowShape(row: VmRow) {
    && (row.status == Archived ==> row.node.None? && row.savedAt.Some?)
    && (row.status in {Creating, Running, Stopped} ==> row.detail.None?)
    && (row.status in {Creating, Running, Stopped, Pulling} ==> row.status in row.logged)
  }

  // What every row keeps as long as no drain thread runs.
  predicate Housed(row: VmRow) {
    row.node.None? <==> row.status == Archived
  }

  predicate AllShaped(m: Manager) {
    forall v <- m.rows :: RowShape(m.rows[v])
  }

  predicate AllHoused(m: Manager) {
    forall v <- m.rows :: Housed(m.rows[v])
  }

  lemma ManageRowKeepsShape(san: Tag -> Tag, m: Manager, row: VmRow, i: Input)
    requires !HasNoVm(i) && !i.CreateVm?
    requires RowShape(row)
    ensures RowShape(ManageRow(san, m, row, i).row)
  {}

  lemma ManageRowKeepsHoused(san: Tag -> Tag, m: Manager, row: VmRow, i: Input)
    requires !HasNoVm(i) && !i.CreateVm? && !IsDrain(i)
    requires Housed(row)
    ensures Housed(ManageRow(san, m, row, i).row)
  {}

  // archived implies node_id is None in every reachable state, and a local VM never carries a marker.
  lemma {:induction false} ShapeHolds(san: Tag -> Tag, m: Manager, inputs: seq<Input>)
    requires AllShaped(m)
    ensures AllShaped(ManageAll(san, m, inputs))
    decreases |inputs|
  {
    if inputs != [] {
      var i := inputs[0];
      if !HasNoVm(i) && !i.CreateVm? && i.vm in m.rows {
        ManageRowKeepsShape(san, m, m.rows[i.vm], i);
      }
      ShapeHolds(san, Manage(san, m, i).m, inputs[1..]);
    }
  }

  // A VM that is running or stopped when a drain takes its snapshot has that in its log ever after.
  lemma {:induction false} SnapshotLeavesTrace(san: Tag -> Tag, m: Manager, inputs: seq<Input>, v: VmName)
    requires v in m.rows && RowShape(m.rows[v]) && (m.rows[v].status in {Running, Stopped} || HasRun(m.rows[v]))
    requires forall i <- inputs :: i.CreateVm? ==> i.vm != v
    ensures var m' := ManageAll(san, m, inputs); v in m'.rows ==> HasRun(m'.rows[v])
    decreases |inputs|
  {
    if inputs != [] {
      var i := inputs[0];
      assert i in inputs;
      VmsChangeExactly(san, m, i, v);
      var next := Manage(san, m, i).m;
      if v in next.rows {
        if !HasNoVm(i) && i.vm == v {
          ManageRowKeepsShape(san, m, m.rows[v], i);
          LogOnlyGrows(san, m, m.rows[v], i);
        }
        SnapshotLeavesTrace(san, next, inputs[1..], v);
      } else {
        GoneForGood(san, next, inputs[1..], v);
      }
    }
  }

  lemma LogOnlyGrows(san: Tag -> Tag, m: Manager, row: VmRow, i: Input)
    requires !HasNoVm(i) && !i.CreateVm?
    ensures row.logged <= ManageRow(san, m, row, i).row.logged
  {}

  lemma {:induction false} GoneForGood(san: Tag -> Tag, m: Manager, inputs: seq<Input>, v: VmName)
    requires v !in m.rows && forall i <- inputs :: i.CreateVm? ==> i.vm != v
    ensures v !in ManageAll(san, m, inputs).rows
    decreases |inputs|
  {
    if inputs != [] {
      assert inputs[0] in inputs;
      VmsChangeExactly(san, m, inputs[0], v);
      GoneForGood(san, Manage(san, m, inputs[0]).m, inputs[1..], v);
    }
  }

  // Without the drain thread the two are equivalent.
  lemma {:induction false} HousedHolds(san: Tag -> Tag, m: Manager, inputs: seq<Input>)
    requires AllHoused(m)
    requires forall i <- inputs :: !IsDrain(i)
    ensures AllHoused(ManageAll(san, m, inputs))
    decreases |inputs|
  {
    if inputs != [] {
      var i := inputs[0];
      if !HasNoVm(i) && !i.CreateVm? && i.vm in m.rows {
        ManageRowKeepsHoused(san, m, m.rows[i.vm], i);
      }
      HousedHolds(san, Manage(san, m, i).m, inputs[1..]);
    }
  }

  // The drain inputs that write vm.status.
  predicate DrainWrites(i: Input) {
    || (i.DrainBegin? && i.ok)
    || (i.DrainCheck? && (i.reply.Idle? || i.reply.Errored? || i.reply.Finished?))
    || i.DrainTimeout?
  }

  // A drain breaks the equivalence exactly when it writes, otherwise than as archived, to a row without a node.
  lemma DrainKeepsHousedExactly(san: Tag -> Tag, m: Manager, row: VmRow, i: Input)
    requires IsDrain(i) && Housed(row)
    ensures Housed(ManageRow(san, m, row, i).row)
            <==> row.node.Some? || !DrainWrites(i) || (i.DrainCheck? && i.reply.Finished?)
  {}

  predicate Stranded(row: VmRow) {
    row.status == Failed && row.node.None?
  }

  // Such a VM is then out of reach: it stays failed and without a node until it or its user is deleted, or it
  // is drained again.
  lemma {:induction false} StrandedForGood(san: Tag -> Tag, m: Manager, inputs: seq<Input>, v: VmName)
    requires v in m.rows && Stranded(m.rows[v])
    requires forall i <- inputs :: ((i.Delete? || IsDrain(i)) ==> i.vm != v) && (i.DeleteUser? ==> v !in i.vms)
    ensures v in ManageAll(san, m, inputs).rows && Stranded(ManageAll(san, m, inputs).rows[v])
    decreases |inputs|
  {
    if inputs != [] {
      assert inputs[0] in inputs;
      VmsChangeExactly(san, m, inputs[0], v);
      StrandedForGood(san, Manage(san, m, inputs[0]).m, inputs[1..], v);
    }
  }

  // ---- Nodes -------------------------------------------------------------

  predicate NoDangling(m: Manager) {
    forall v <- m.rows :: m.rows[v].node.Some? ==> m.rows[v].node.value in m.nodes
  }

  lemma ManageRowKeepsNode(san: Tag -> Tag, m: Manager, row: VmRow, i: Input)
    requires !HasNoVm(i) && !i.CreateVm?
    ensures var node := ManageRow(san, m, row, i).row.node;
            node == row.node || node.None? || IsActive(m.nodes, node.value)
  {}

  // Every handler keeps an existing node assignment, drops it, or picks an active node.
  lemma ManageKeepsNodes(san: Tag -> Tag, m: Manager, i: Input)
    ensures var m' := Manage(san, m, i).m;
            forall v <- m'.rows ::
              var node := m'.rows[v].node;
              || node.None?
              || (v in m.rows && node == m.rows[v].node)
              || IsActive(m.nodes, node.value)
  {
    if !HasNoVm(i) && !i.CreateVm? && i.vm in m.rows {
      ManageRowKeepsNode(san, m, m.rows[i.vm], i);
    }
  }

  lemma ManageKeepsNoDangling(san: Tag -> Tag, m: Manager, i: Input)
    requires NoDangling(m)
    ensures NoDangling(Manage(san, m, i).m)
  {
    ManageKeepsNodes(san, m, i);
    var m' := Manage(san, m, i).m;
    forall v | v in m'.rows && m'.rows[v].node.Some? ensures m'.rows[v].node.value in m'.nodes {
      var n := m'.rows[v].node.value;
      if i.DeleteNode? && i.node == n {
        assert v in Attached(m, n);
      }
    }
  }

  // delete_node never leaves a vm.node_id dangling, whatever is in flight.
  lemma {:induction false} NeverDangling(san: Tag -> Tag, m: Manager, inputs: seq<Input>)
    requires NoDangling(m)
    ensures NoDangling(ManageAll(san, m, inputs))
    decreases |inputs|
  {
    if inputs != [] {
      ManageKeepsNoDangling(san, m, inputs[0]);
      NeverDangling(san, Manage(san, m, inputs[0]).m, inputs[1..]);
    }
  }

  // The node is inactive, or deleted, before every input of the run.
  predicate StaysInactive(san: Tag -> Tag, m: Manager, inputs: seq<Input>, n: NodeId)
    decreases |inputs|
  {
    inputs != [] ==>
      !IsActive(m.nodes, n) && StaysInactive(san, Manage(san, m, inputs[0]).m, inputs[1..], n)
  }

  // While a node stays inactive it never gains a VM.
  lemma {:induction false} InactiveNodeOnlyLoses(san: Tag -> Tag, m: Manager, inputs: seq<Input>, n: NodeId)
    requires StaysInactive(san, m, inputs, n)
    ensures Attached(ManageAll(san, m, inputs), n) <= Attached(m, n)
    decreases |inputs|
  {
    if inputs != [] {
      var m' := Manage(san, m, inputs[0]).m;
      ManageKeepsNodes(san, m, inputs[0]);
      assert Attached(m', n) <= Attached(m, n);
      InactiveNodeOnlyLoses(san, m', inputs[1..], n);
    }
  }

  // A VM appears only by create_vm on an active node and goes only by a delete its node does not refuse, or
  // with its user; a handler writes no other VM's row.
  lemma VmsChangeExactly(san: Tag -> Tag, m: Manager, i: Input, v: VmName)
    ensures var m' := Manage(san, m, i).m;
            && (v !in m.rows ==> (v in m'.rows <==> i.CreateVm? && i.vm == v && IsActive(m.nodes, i.best)))
            && (v in m.rows ==>
                  (v !in m'.rows <==> (i.Delete? && i.vm == v && (HasNode(m.rows[v], m.nodes) ==> i.ok))
                                      || (i.DeleteUser? && v in i.vms)))
            && (v in m.rows && v in m'.rows && (HasNoVm(i) || i.vm != v) ==> m'.rows[v] == m.rows[v])
  {}

  // A node comes only by being added, active, and goes only by delete_node while it is inactive and no row names
  // it; only its own toggle changes its flag.
  lemma NodesChangeExactly(san: Tag -> Tag, m: Manager, i: Input, n: NodeId)
    ensures var nodes := Manage(san, m, i).m.nodes;
            && (n !in m.nodes ==> (n in nodes <==> i == AddNode(n)) && (n in nodes ==> nodes[n]))
            && (n in m.nodes ==>
                  (n !in nodes <==> i == DeleteNode(n) && !m.nodes[n] && forall v <- m.rows :: m.rows[v].node != Some(n)))
            && (n in m.nodes && n in nodes ==>
                  nodes[n] == (i == ActivateNode(n) || (m.nodes[n] && i != DeactivateNode(n))))
  {
    forall v | v in m.rows ensures v in Attached(m, n) <==> m.rows[v].node == Some(n) {}
  }

  // ---- Cleanup noninterference -------------------------------------------

  // The same user step and agent answers, with another answer from the registry.
  function WithAnswer(i: Input, answer: CleanupAnswer): Input {
    if i.Delete? then Delete(i.vm, i.ok, i.error, answer, i.now)
    else if i.RetryCleanup? then RetryCleanup(i.vm, answer, i.now)
    else if i.Poll? then Poll(i.vm, i.reply, i.restoreOk, answer, i.now)
    else i
  }

  function Reanswered(inputs: seq<Input>, answers: seq<CleanupAnswer>): seq<Input>
    requires |answers| == |inputs|
  {
    seq(|inputs|, k requires 0 <= k < |inputs| => WithAnswer(inputs[k], answers[k]))
  }

  function ForgetRow(row: VmRow): VmRow {
    row.(cleanup := NO_CLEANUP)
  }

  // Equal nodes, gold images, set of rows, and every row field but the cleanup metadata.
  ghost predicate SameLifecycle(m: Manager, m': Manager) {
    && m.nodes == m'.nodes && m.gold == m'.gold
    && (forall v :: v in m.rows <==> v in m'.rows)
    && (forall v :: v in m.rows ==> ForgetRow(m.rows[v]) == ForgetRow(m'.rows[v]))
  }

  lemma PushIgnoresCleanup(row: VmRow, c: Cleanup, nodes: Nodes, gold: map<string, Tag>, restoreOk: bool, now: int)
    ensures PushDone(row.(cleanup := c), nodes, gold, restoreOk, now).row
         == PushDone(row, nodes, gold, restoreOk, now).row.(cleanup := c)
  {}

  lemma PollIgnoresRegistry(row: VmRow, row': VmRow, nodes: Nodes, gold: map<string, Tag>, reply: OpReply,
                            restoreOk: bool, answer: CleanupAnswer, answer': CleanupAnswer, now: int)
    requires ForgetRow(row) == ForgetRow(row')
    ensures ForgetRow(AdvanceAsyncOp(row, nodes, gold, reply, restoreOk, answer, now).row)
         == ForgetRow(AdvanceAsyncOp(row', nodes, gold, reply, restoreOk, answer', now).row)
  {
    assert row' == row.(cleanup := row'.cleanup);
    if row.status == Pushing && reply == Finished {
      PushIgnoresCleanup(row, row'.cleanup, nodes, gold, restoreOk, now);
    }
  }

  // Handlers without a registry call neither read nor write the cleanup metadata.
  lemma OthersIgnoreCleanup(san: Tag -> Tag, m: Manager, m': Manager, row: VmRow, c: Cleanup, i: Input)
    requires m.nodes == m'.nodes && m.gold == m'.gold
    requires !HasNoVm(i) && !i.CreateVm? && !i.Poll? && !i.Delete? && !i.RetryCleanup?
    ensures var out, out' := ManageRow(san, m, row, i), ManageRow(san, m', row.(cleanup := c), i);
            out'.row == out.row.(cleanup := c) && out'.effect == out.effect
  {}

  lemma RowIgnoresRegistry(san: Tag -> Tag, m: Manager, m': Manager, row: VmRow, row': VmRow, i: Input, a: CleanupAnswer)
    requires m.nodes == m'.nodes && m.gold == m'.gold && ForgetRow(row) == ForgetRow(row')
    requires !HasNoVm(i) && !i.CreateVm?
    ensures var out, out' := ManageRow(san, m, row, i), ManageRow(san, m', row', WithAnswer(i, a));
            ForgetRow(out.row) == ForgetRow(out'.row) && (i.CaptureGold? ==> out.effect == out'.effect)
  {
    assert row' == row.(cleanup := row'.cleanup);
    if i.Poll? {
      PollIgnoresRegistry(row, row', m.nodes, m.gold, i.reply, i.restoreOk, i.cleanup, a, i.now);
    } else if !i.Delete? && !i.RetryCleanup? {
      OthersIgnoreCleanup(san, m, m', row, row'.cleanup, i);
    }
  }

  lemma SameAttached(m: Manager, m': Manager, n: NodeId)
    requires SameLifecycle(m, m')
    ensures Attached(m, n) == Attached(m', n)
  {
    forall v | v in m.rows ensures m.rows[v].node == m'.rows[v].node {
      assert ForgetRow(m.rows[v]) == ForgetRow(m'.rows[v]);
    }
  }

  lemma CommitIgnoresRegistry(m: Manager, m': Manager, v: VmName, removed: bool, row: VmRow, row': VmRow,
                              gold: map<string, Tag>)
    requires SameLifecycle(m, m') && ForgetRow(row) == ForgetRow(row')
    ensures SameLifecycle(Commit(m, v, removed, row, gold), Commit(m', v, removed, row', gold))
  {}

  lemma CreationIgnoresRegistry(san: Tag -> Tag, m: Manager, m': Manager, i: Input)
    requires SameLifecycle(m, m') && i.CreateVm?
    ensures SameLifecycle(Manage(san, m, i).m, Manage(san, m', i).m)
  {}

  lemma NodeStepIgnoresRegistry(san: Tag -> Tag, m: Manager, m': Manager, i: Input)
    requires SameLifecycle(m, m') && HasNoVm(i)
    ensures SameLifecycle(Manage(san, m, i).m, Manage(san, m', i).m)
  {
    if i.DeleteNode? {
      SameAttached(m, m', i.node);
    }
  }

  lemma RowStepIgnoresRegistry(san: Tag -> Tag, m: Manager, m': Manager, i: Input, a: CleanupAnswer)
    requires SameLifecycle(m, m') && !HasNoVm(i) && !i.CreateVm?
    ensures SameLifecycle(Manage(san, m, i).m, Manage(san, m', WithAnswer(i, a)).m)
  {
    var i' := WithAnswer(i, a);
    assert i'.vm == i.vm && !HasNoVm(i') && !i'.CreateVm?;
    if i.vm in m.rows {
      var row, row' := m.rows[i.vm], m'.rows[i.vm];
      assert ForgetRow(row) == ForgetRow(row');
      RowIgnoresRegistry(san, m, m', row, row', i, a);
      var out, out' := ManageRow(san, m, row, i), ManageRow(san, m', row', i');
      CommitIgnoresRegistry(m, m', i.vm, RemovesRow(m, i), out.row, out'.row, GoldAfter(m, i, out));
    }
  }

  lemma StepIgnoresRegistry(san: Tag -> Tag, m: Manager, m': Manager, i: Input, a: CleanupAnswer)
    requires SameLifecycle(m, m')
    ensures SameLifecycle(Manage(san, m, i).m, Manage(san, m', WithAnswer(i, a)).m)
  {
    if HasNoVm(i) {
      NodeStepIgnoresRegistry(san, m, m', i);
    } else if i.CreateVm? {
      CreationIgnoresRegistry(san, m, m', i);
    } else {
      RowStepIgnoresRegistry(san, m, m', i, a);
    }
  }

  // Whatever the registry answers, status, node, detail, tag and the set of VMs come out the same, step by step.
  lemma {:induction false} CleanupNoninterference(
    san: Tag -> Tag, m: Manager, m': Manager, inputs: seq<Input>, answers: seq<CleanupAnswer>, k: nat)
    requires SameLifecycle(m, m') && |answers| == |inputs| && k <= |inputs|
    ensures SameLifecycle(ManageAll(san, m, inputs[..k]), ManageAll(san, m', Reanswered(inputs, answers)[..k]))
    decreases k
  {
    var others := Reanswered(inputs, answers);
    if k > 0 {
      StepIgnoresRegistry(san, m, m', inputs[0], answers[0]);
      assert inputs[..k][1..] == inputs[1..][..k - 1];
      assert others[..k][1..] == Reanswered(inputs[1..], answers[1..])[..k - 1];
      var next, next' := Manage(san, m, inputs[0]).m, Manage(san, m', others[0]).m;
      CleanupNoninterference(san, next, next', inputs[1..], answers[1..], k - 1);
    }
  }
}
