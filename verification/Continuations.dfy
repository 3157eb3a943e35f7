/**
  What can still happen from a state of the lab on, and when the claims of module
  Conservation hold in all of it.
 */
module Continuations {
  import opened Wrappers
  import opened VmModel
  import opened Lab
  import opened Placement
  import opened Conservation
  import Text

  // Some ordinary run leads from l to l'.
  ghost predicate CanReach(san: Tag -> Tag, l: Lab, l': Lab) {
    exists steps: seq<Step> :: IsOrdinaryRun(san, l, steps) && IsRun(san, l, steps) && Run(san, l, steps) == l'
  }

  // Whatever ordinary steps follow, every disk stays conserved and in one place.
  ghost predicate KeepsClaims(san: Tag -> Tag, l: Lab) {
    forall l' :: CanReach(san, l, l') ==> Conserved(san, l') && SingleResidency(l')
  }

  lemma ReachSelf(san: Tag -> Tag, l: Lab)
    ensures CanReach(san, l, l)
  {
    assert IsOrdinaryRun(san, l, []) && IsRun(san, l, []) && Run(san, l, []) == l;
  }

  lemma {:induction false} RunAppend(san: Tag -> Tag, start: Lab, steps: seq<Step>, s: Step)
    requires IsOrdinaryRun(san, start, steps) && IsRun(san, start, steps)
    requires Honest(Run(san, start, steps), s) && Ordinary(san, Run(san, start, steps), s)
    ensures IsOrdinaryRun(san, start, steps + [s]) && IsRun(san, start, steps + [s])
    ensures Run(san, start, steps + [s]) == Next(san, Run(san, start, steps), s)
    decreases |steps|
  {
    if steps == [] {
      assert (steps + [s])[1..] == [];
      assert IsOrdinaryRun(san, Next(san, start, s), []);
    } else {
      assert (steps + [s])[1..] == steps[1..] + [s];
      RunAppend(san, Next(san, start, steps[0]), steps[1..], s);
    }
  }

  // One step further.
  lemma ReachNext(san: Tag -> Tag, start: Lab, l: Lab, s: Step)
    requires CanReach(san, start, l) && Honest(l, s) && Ordinary(san, l, s)
    ensures CanReach(san, start, Next(san, l, s))
  {
    var steps: seq<Step> :| IsOrdinaryRun(san, start, steps) && IsRun(san, start, steps) && Run(san, start, steps) == l;
    RunAppend(san, start, steps, s);
  }

  lemma NextIsReachable(san: Tag -> Tag, l: Lab, s: Step)
    requires Reachable(san, l) && Honest(l, s) && Ordinary(san, l, s)
    ensures Reachable(san, Next(san, l, s))
  {
    var start: Lab, steps: seq<Step> :|
      IsInitial(start) && IsOrdinaryRun(san, start, steps) && IsRun(san, start, steps) && Run(san, start, steps) == l;
    RunAppend(san, start, steps, s);
  }

  lemma InvKeepsClaims(san: Tag -> Tag, l: Lab)
    requires LabInv(san, l) && NoDangling(l.m)
    ensures KeepsClaims(san, l)
  {
    forall l' | CanReach(san, l, l') ensures Conserved(san, l') && SingleResidency(l') {
      var steps: seq<Step> :| IsOrdinaryRun(san, l, steps) && IsRun(san, l, steps) && Run(san, l, steps) == l';
      InvHolds(san, l, steps);
      InvImpliesClaims(san, l');
    }
  }

  // An ordinary step from a reachable state leads where every continuation keeps the claims.
  lemma OrdinaryIsSafe(san: Tag -> Tag, l: Lab, s: Step)
    requires Reachable(san, l) && Honest(l, s) && Ordinary(san, l, s)
    ensures KeepsClaims(san, Next(san, l, s))
  {
    ReachableInv(san, l);
    NextKeepsNoDangling(san, l, s);
    NextKeepsInv(san, l, s);
    InvKeepsClaims(san, Next(san, l, s));
  }

  // One state that breaks a claim is enough.
  lemma BreaksClaims(san: Tag -> Tag, l: Lab, l': Lab)
    requires CanReach(san, l, l') && !(Conserved(san, l') && SingleResidency(l'))
    ensures !KeepsClaims(san, l)
  {}

  // ---- Building continuations ------------------------------------------------

  const UNANSWERED := CleanupAnswer(false, None, None)

  // The agent of a pulling node forgets the operation.
  lemma CanLose(san: Tag -> Tag, start: Lab, l: Lab, w: VmName) returns (l': Lab)
    requires CanReach(san, start, l) && w in l.m.rows
    ensures CanReach(san, start, l') && !FetchingAtNode(l', w)
    ensures l'.m == l.m && l'.latest == l.latest && l'.registry == l.registry
    ensures forall v :: v != w ==> LocalOf(l', v) == LocalOf(l, v)
    ensures !FetchingAtNode(l, w) ==> l' == l
  {
    l' := l;
    if FetchingAtNode(l, w) {
      var lose := Lose(w, l.m.rows[w].node.value);
      ReachNext(san, start, l, lose);
      l' := Next(san, l, lose);
    }
  }

  // The VM w is deleted: its row, its disk and its latest content go, and with `cleaned` its artefact.
  lemma CanDelete(san: Tag -> Tag, start: Lab, l: Lab, w: VmName, cleaned: bool) returns (l': Lab)
    requires CanReach(san, start, l) && w in l.m.rows && Text.Strip(l.m.rows[w].tag) != ""
    ensures CanReach(san, start, l')
    ensures l'.m == Manager(l.m.nodes, l.m.rows - {w}, l.m.gold) && l'.latest == l.latest - {w}
    ensures l'.registry == Cleaned(san, l.registry, l.m.rows[w].tag, cleaned)
    ensures forall v :: v != w ==> LocalOf(l', v) == LocalOf(l, v)
    ensures !FetchingAtNode(l, w) ==> LocalOf(l', w).ops == LocalOf(l, w).ops
  {
    var free := CanLose(san, start, l, w);
    var delete := Delete(w, true, "", UNANSWERED, 0);
    ReachNext(san, start, free, Handle(delete, None, cleaned));
    DeleteIsDrop(san, free, delete, None, cleaned);
    l' := Next(san, free, Handle(delete, None, cleaned));
  }

  // A tag that is not v's own can become nobody's, if need be by deleting its owner.
  lemma CanFree(san: Tag -> Tag, start: Lab, l: Lab, v: VmName, tag: Tag) returns (l': Lab)
    requires CanReach(san, start, l) && Distinct(san, l.m)
    requires v in l.m.rows ==> Slot(san, l.m.rows[v]) != tag
    requires forall w <- l.m.rows :: Text.Strip(l.m.rows[w].tag) != ""
    ensures CanReach(san, start, l') && IsForeign(san, l'.m, tag) && l'.registry == l.registry
    ensures l'.m.nodes == l.m.nodes && LocalOf(l', v) == LocalOf(l, v) && Lookup(l'.latest, v) == Lookup(l.latest, v)
    ensures Lookup(l'.m.rows, v) == Lookup(l.m.rows, v)
  {
    if IsForeign(san, l.m, tag) {
      l' := l;
    } else {
      var w :| w in l.m.rows && Slot(san, l.m.rows[w]) == tag;
      l' := CanDelete(san, start, l, w, false);
      forall u | u in l'.m.rows ensures Slot(san, l'.m.rows[u]) != tag {
        assert u in l.m.rows && u != w;
      }
    }
  }

  // Then it can get any content.
  lemma CanPlant(san: Tag -> Tag, start: Lab, l: Lab, v: VmName, tag: Tag, disk: Disk) returns (l': Lab)
    requires CanReach(san, start, l) && Distinct(san, l.m)
    requires v in l.m.rows ==> Slot(san, l.m.rows[v]) != tag
    requires forall w <- l.m.rows :: Text.Strip(l.m.rows[w].tag) != ""
    ensures CanReach(san, start, l') && Lookup(l'.registry, tag) == Some(disk)
    ensures forall t :: t != tag ==> Lookup(l'.registry, t) == Lookup(l.registry, t)
    ensures l'.m.nodes == l.m.nodes && LocalOf(l', v) == LocalOf(l, v) && Lookup(l'.latest, v) == Lookup(l.latest, v)
    ensures Lookup(l'.m.rows, v) == Lookup(l.m.rows, v)
  {
    var freed := CanFree(san, start, l, v, tag);
    ReachNext(san, start, freed, Publish(tag, Some(disk)));
    l' := WithArtefact(freed, tag, Some(disk));
  }
}
