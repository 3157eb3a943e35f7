/** Where a new or resumed VM goes (app/node_manager.py). */
module Scheduling {
  import opened Wrappers
  import opened VmModel

  // An active node with its health answer: free_slots, 0 when not reported, None when unreachable.
  datatype Candidate = Candidate(node: NodeId, free: Option<int>)

  // The active nodes, in table order, with whatever their agents answer.
  predicate AreActive(nodes: Nodes, candidates: seq<Candidate>) {
    forall c <- candidates :: IsActive(nodes, c.node)
  }

  predicate HasRoom(c: Candidate) {
    c.free.Some? && c.free.value > 0
  }

  // The first node with the most free slots; none only when no reachable node has a free slot.
  method FindBestNode(nodes: Nodes, candidates: seq<Candidate>) returns (best: Option<NodeId>)
    requires AreActive(nodes, candidates)
    ensures best.None? <==> forall c <- candidates :: !HasRoom(c)
    ensures best.Some? ==> IsActive(nodes, best.value)
    ensures best.Some? ==>
              exists i :: 0 <= i < |candidates| && candidates[i].node == best.value && HasRoom(candidates[i])
                && (forall j :: 0 <= j < |candidates| && HasRoom(candidates[j]) ==>
                      candidates[j].free.value <= candidates[i].free.value)
                && (forall j :: 0 <= j < i && HasRoom(candidates[j]) ==>
                      candidates[j].free.value < candidates[i].free.value)
  {
    best := None;
    var bestFree := 0;
    ghost var at := 0;
    for k := 0 to |candidates|
      invariant bestFree >= 0 && (best.None? <==> bestFree == 0)
      invariant forall j :: 0 <= j < k && HasRoom(candidates[j]) ==> candidates[j].free.value <= bestFree
      invariant best.Some? ==>
                  && 0 <= at < k && candidates[at].node == best.value
                  && HasRoom(candidates[at]) && candidates[at].free.value == bestFree
                  && (forall j :: 0 <= j < at && HasRoom(candidates[j]) ==> candidates[j].free.value < bestFree)
    {
      var c := candidates[k];
      if c.free.Some? && c.free.value > bestFree {
        best, bestFree, at := Some(c.node), c.free.value, k;
      }
    }
    if best.Some? {
      assert candidates[at] in candidates;
    }
  }
}
