/**
  The registry inventory (app/registry_inventory.py): every listed artefact is either
  trackable to a VM or a gold image of the database, or an orphan. Sizes are in hundredths
  of a gigabyte, as the listing rounds them.
 */
module Inventory {
  import opened Wrappers
  import opened RegistrySegment
  import opened VmModel
  import RegistryTag

  datatype Item = Item(repo: string, tag: string, size: nat)

  // A row of the vms table with its user's name; None when the user row is gone.
  datatype Vm = Vm(id: int, username: Option<string>, name: string, status: Status)

  // Sanitized user name and sanitized VM name.
  type Key = (string, string)

  function KeyOf(vm: Vm): Key
    requires vm.username.Some?
  {
    (Segment(vm.username.value), Segment(vm.name))
  }

  // The VMs under one key, in table order.
  function Candidates(vms: seq<Vm>, key: Key): seq<Vm> {
    if vms == [] then []
    else
      var front, last := Candidates(vms[..|vms| - 1], key), vms[|vms| - 1];
      if last.username.Some? && KeyOf(last) == key then front + [last] else front
  }

  type Index = map<Key, seq<Vm>>

  // lookup.get(key, [])
  function Get(lookup: Index, key: Key): seq<Vm> {
    if key in lookup then lookup[key] else []
  }

  // _vm_lookup_by_sanitized_user_vm
  method BuildLookup(vms: seq<Vm>) returns (lookup: Index)
    ensures forall key :: Get(lookup, key) == Candidates(vms, key)
  {
    lookup := map[];
    for i := 0 to |vms|
      invariant forall key :: Get(lookup, key) == Candidates(vms[..i], key)
    {
      assert vms[..i + 1][..i] == vms[..i];
      if vms[i].username.Some? {
        var key := KeyOf(vms[i]);
        lookup := lookup[key := Get(lookup, key) + [vms[i]]];
      }
    }
    assert vms[..|vms|] == vms;
  }

  // ---- The preferred record ------------------------------------------------------

  function Priority(status: Status): nat {
    match status
    case Archived => 0
    case Pushing => 1
    case Pulling => 2
    case Failed => 3
    case _ => 99
  }

  // Puts a record that came earlier before the first one that may follow it.
  function Insert(vm: Vm, sorted: seq<Vm>): seq<Vm> {
    if sorted == [] || Priority(vm.status) <= Priority(sorted[0].status) then [vm] + sorted
    else [sorted[0]] + Insert(vm, sorted[1..])
  }

  // list.sort(key=priority), which is stable
  function SortByPriority(vms: seq<Vm>): seq<Vm> {
    if vms == [] then [] else Insert(vms[0], SortByPriority(vms[1..]))
  }

  predicate Sorted(vms: seq<Vm>) {
    forall i, j :: 0 <= i < j < |vms| ==> Priority(vms[i].status) <= Priority(vms[j].status)
  }

  lemma {:induction false} InsertKeeps(vm: Vm, sorted: seq<Vm>)
    ensures multiset(Insert(vm, sorted)) == multiset(sorted) + multiset{vm}
  {
    if sorted != [] && Priority(vm.status) > Priority(sorted[0].status) {
      InsertKeeps(vm, sorted[1..]);
      assert sorted == [sorted[0]] + sorted[1..];
    }
  }

  lemma {:induction false} InsertSorts(vm: Vm, sorted: seq<Vm>)
    requires Sorted(sorted)
    ensures Sorted(Insert(vm, sorted))
  {
    if sorted != [] && Priority(vm.status) > Priority(sorted[0].status) {
      InsertSorts(vm, sorted[1..]);
      var rest := Insert(vm, sorted[1..]);
      forall j | 0 <= j < |rest| ensures Priority(sorted[0].status) <= Priority(rest[j].status) {
        InsertKeeps(vm, sorted[1..]);
        assert rest[j] in multiset(sorted[1..]) + multiset{vm};
      }
    }
  }

  lemma {:induction false} SortSorts(vms: seq<Vm>)
    ensures Sorted(SortByPriority(vms)) && multiset(SortByPriority(vms)) == multiset(vms)
  {
    if vms != [] {
      SortSorts(vms[1..]);
      InsertSorts(vms[0], SortByPriority(vms[1..]));
      InsertKeeps(vms[0], SortByPriority(vms[1..]));
      assert vms == [vms[0]] + vms[1..];
    }
  }

  lemma {:induction false} SortOfSorted(vms: seq<Vm>)
    requires Sorted(vms)
    ensures SortByPriority(vms) == vms
  {
    if vms != [] {
      SortOfSorted(vms[1..]);
    }
  }

  // The record has the least priority number, and is the first in table order to have it.
  predicate IsPreferred(vms: seq<Vm>, i: nat)
    requires i < |vms|
  {
    && (forall j :: 0 <= j < |vms| ==> Priority(vms[i].status) <= Priority(vms[j].status))
    && (forall j :: 0 <= j < i ==> Priority(vms[i].status) < Priority(vms[j].status))
  }

  lemma {:induction false} HeadIsPreferred(vms: seq<Vm>) returns (i: nat)
    requires vms != []
    ensures SortByPriority(vms) != []
    ensures i < |vms| && IsPreferred(vms, i) && SortByPriority(vms)[0] == vms[i]
  {
    if |vms| == 1 {
      i := 0;
    } else {
      var rest := HeadIsPreferred(vms[1..]);
      i := if Priority(vms[0].status) <= Priority(vms[rest + 1].status) then 0 else rest + 1;
      assert forall j :: 1 <= j < |vms| ==> vms[j] == vms[1..][j - 1];
    }
  }

  // ---- Classification -----------------------------------------------------------------

  datatype Linkage = VmArtefact(vm: Vm) | GoldArtefact(name: string) | NoNamespace | UnknownGold | UnknownVm

  predicate IsTrackable(c: Linkage) {
    c.VmArtefact? || c.GoldArtefact?
  }

  // How one artefact is classified.
  function Classify(vms: seq<Vm>, golds: set<string>, item: Item): Linkage {
    var parts := RegistryTag.PathParts(item.repo);
    if |parts| < 2 then NoNamespace
    else
      var namespace, image := parts[0], parts[|parts| - 1];
      if namespace == RegistryTag.GOLD_NAMESPACE then
        if image in golds then GoldArtefact(image) else UnknownGold
      else
        var matched := SortByPriority(Candidates(vms, (namespace, image)));
        if matched != [] then VmArtefact(matched[0]) else UnknownVm
  }

  predicate SideOf(vms: seq<Vm>, golds: set<string>, item: Item) {
    IsTrackable(Classify(vms, golds, item))
  }

  datatype Listed = Listed(item: Item, linkage: Linkage)

  // The items on one side of the split, in listing order.
  function Part(vms: seq<Vm>, golds: set<string>, items: seq<Item>, trackable: bool): seq<Listed> {
    if items == [] then []
    else
      var front, last := Part(vms, golds, items[..|items| - 1], trackable), items[|items| - 1];
      if SideOf(vms, golds, last) == trackable then front + [Listed(last, Classify(vms, golds, last))] else front
  }

  // The lists under the keys are either as built or already sorted by an earlier item.
  ghost predicate IndexOf(lookup: Index, vms: seq<Vm>) {
    forall key :: Get(lookup, key) in {Candidates(vms, key), SortByPriority(Candidates(vms, key))}
  }

  // lookup.get(key, []), sorted in place
  method Match(lookup: Index, ghost vms: seq<Vm>, key: Key) returns (matched: seq<Vm>, after: Index)
    requires IndexOf(lookup, vms)
    ensures matched == SortByPriority(Candidates(vms, key)) && IndexOf(after, vms)
  {
    SortSorts(Candidates(vms, key));
    SortOfSorted(SortByPriority(Candidates(vms, key)));
    matched := SortByPriority(Get(lookup, key));
    after := if key in lookup then lookup[key := matched] else lookup;
  }

  // The branches of the loop body.
  method ClassifyItem(item: Item, lookup: Index, ghost vms: seq<Vm>, golds: set<string>)
    returns (linkage: Linkage, after: Index)
    requires IndexOf(lookup, vms)
    ensures linkage == Classify(vms, golds, item) && IndexOf(after, vms)
  {
    var parts := RegistryTag.PathParts(item.repo);
    if |parts| < 2 {
      return NoNamespace, lookup;
    }
    var namespace, image := parts[0], parts[|parts| - 1];
    if namespace == RegistryTag.GOLD_NAMESPACE {
      return if image in golds then GoldArtefact(image) else UnknownGold, lookup;
    }
    var matched;
    matched, after := Match(lookup, vms, (namespace, image));
    linkage := if matched != [] then VmArtefact(matched[0]) else UnknownVm;
  }

  method ClassifyRegistryItems(items: seq<Item>, vms: seq<Vm>, golds: set<string>)
    returns (trackable: seq<Listed>, orphaned: seq<Listed>)
    ensures trackable == Part(vms, golds, items, true)
    ensures orphaned == Part(vms, golds, items, false)
  {
    var lookup := BuildLookup(vms);
    trackable, orphaned := [], [];
    for i := 0 to |items|
      invariant trackable == Part(vms, golds, items[..i], true)
      invariant orphaned == Part(vms, golds, items[..i], false)
      invariant IndexOf(lookup, vms)
    {
      assert items[..i + 1][..i] == items[..i];
      var linkage;
      linkage, lookup := ClassifyItem(items[i], lookup, vms, golds);
      if IsTrackable(linkage) {
        trackable := trackable + [Listed(items[i], linkage)];
      } else {
        orphaned := orphaned + [Listed(items[i], linkage)];
      }
    }
    assert items[..|items|] == items;
  }

  // ---- What the split keeps ---------------------------------------------------------------

  function TotalSize(listed: seq<Listed>): nat {
    if listed == [] then 0 else TotalSize(listed[..|listed| - 1]) + listed[|listed| - 1].item.size
  }

  function Sizes(items: seq<Item>): nat {
    if items == [] then 0 else Sizes(items[..|items| - 1]) + items[|items| - 1].size
  }

  // Nothing is lost or counted twice.
  lemma {:induction false} SplitAddsUp(vms: seq<Vm>, golds: set<string>, items: seq<Item>)
    ensures var yes, no := Part(vms, golds, items, true), Part(vms, golds, items, false);
            |yes| + |no| == |items| && TotalSize(yes) + TotalSize(no) == Sizes(items)
  {
    if items != [] {
      var front := items[..|items| - 1];
      SplitAddsUp(vms, golds, front);
      var side := SideOf(vms, golds, items[|items| - 1]);
      var part := Part(vms, golds, items, side);
      assert part[..|part| - 1] == Part(vms, golds, front, side);
    }
  }

  // The place of an item in its half is the number of items before it that go there too.
  lemma {:induction false} SplitKeepsOrder(vms: seq<Vm>, golds: set<string>, items: seq<Item>, i: nat)
    requires i < |items|
    ensures var half := Part(vms, golds, items, SideOf(vms, golds, items[i]));
            var place := |Part(vms, golds, items[..i], SideOf(vms, golds, items[i]))|;
            place < |half| && half[place] == Listed(items[i], Classify(vms, golds, items[i]))
  {
    var front := items[..|items| - 1];
    if i < |front| {
      SplitKeepsOrder(vms, golds, front, i);
      assert front[..i] == items[..i];
    }
  }

  // ---- Which artefacts are trackable ---------------------------------------------------------

  lemma {:induction false} CandidatesAre(vms: seq<Vm>, key: Key)
    ensures forall vm :: vm in Candidates(vms, key) <==> vm in vms && vm.username.Some? && KeyOf(vm) == key
  {
    if vms != [] {
      CandidatesAre(vms[..|vms| - 1], key);
      assert vms == vms[..|vms| - 1] + [vms[|vms| - 1]];
    }
  }

  // The place of a VM among those of its names is the number of such VMs before it in the table.
  lemma {:induction false} CandidatesInOrder(vms: seq<Vm>, key: Key, i: nat)
    requires i < |vms| && vms[i].username.Some? && KeyOf(vms[i]) == key
    ensures var place := |Candidates(vms[..i], key)|;
            place < |Candidates(vms, key)| && Candidates(vms, key)[place] == vms[i]
  {
    var front := vms[..|vms| - 1];
    if i < |front| {
      CandidatesInOrder(front, key, i);
      assert front[..i] == vms[..i];
    }
  }

  // How an artefact is classified, from the path and the tables alone.
  lemma ClassifiedExactly(vms: seq<Vm>, golds: set<string>, item: Item)
    ensures var parts, c := RegistryTag.PathParts(item.repo), Classify(vms, golds, item);
            && (SideOf(vms, golds, item) <==> c.VmArtefact? || c.GoldArtefact?)
            && (c.NoNamespace? <==> |parts| < 2)
            && (|parts| >= 2 ==>
                  var key := (parts[0], parts[|parts| - 1]);
                  if key.0 == "gold-images" then c == if key.1 in golds then GoldArtefact(key.1) else UnknownGold
                  else
                    && (c.VmArtefact? || c.UnknownVm?)
                    && (c.VmArtefact? <==> exists vm :: vm in vms && vm.username.Some? && KeyOf(vm) == key))
  {
    var parts := RegistryTag.PathParts(item.repo);
    if |parts| >= 2 && parts[0] != "gold-images" {
      var key := (parts[0], parts[|parts| - 1]);
      CandidatesAre(vms, key);
      if Classify(vms, golds, item).VmArtefact? {
        MatchIsBest(vms, golds, item);
      }
      if vm :| vm in vms && vm.username.Some? && KeyOf(vm) == key {
        assert vm in Candidates(vms, key);
        var i := HeadIsPreferred(Candidates(vms, key));
      }
    }
  }

  // Of several VMs an archived one is taken before a pushing one, that before a pulling one, that before a failed
  // one, and that before any other.
  lemma MatchPrefers(vms: seq<Vm>, golds: set<string>, item: Item, other: Vm)
    requires Classify(vms, golds, item).VmArtefact?
    requires other in vms && other.username.Some? && Classify(vms, golds, item).vm.username.Some?
    requires KeyOf(other) == KeyOf(Classify(vms, golds, item).vm)
    ensures var taken := Classify(vms, golds, item).vm.status;
            && (other.status == Archived ==> taken == Archived)
            && (other.status == Pushing ==> taken in {Archived, Pushing})
            && (other.status == Pulling ==> taken in {Archived, Pushing, Pulling})
            && (other.status == Failed ==> taken in {Archived, Pushing, Pulling, Failed})
  {
    MatchIsBest(vms, golds, item);
  }

  // A match is an existing VM with the sanitized names of the path, and no other such VM ranks before it.
  lemma MatchIsBest(vms: seq<Vm>, golds: set<string>, item: Item)
    requires Classify(vms, golds, item).VmArtefact?
    ensures var vm := Classify(vms, golds, item).vm;
            var parts := RegistryTag.PathParts(item.repo);
            && vm in vms && vm.username.Some? && |parts| >= 2 && KeyOf(vm) == (parts[0], parts[|parts| - 1])
            && forall other <- vms :: other.username.Some? && KeyOf(other) == KeyOf(vm)
                 ==> Priority(vm.status) <= Priority(other.status)
  {
    var parts := RegistryTag.PathParts(item.repo);
    var key := (parts[0], parts[|parts| - 1]);
    var found := Candidates(vms, key);
    CandidatesAre(vms, key);
    SortSorts(found);
    assert found != [] by {
      assert SortByPriority([]) == [];
    }
    var i := HeadIsPreferred(found);
    assert found[i] in found;
    forall other | other in vms && other.username.Some? && KeyOf(other) == key
      ensures Priority(found[i].status) <= Priority(other.status)
    {
      assert other in found;
    }
  }

  lemma RepoParts(namespace: string, image: string)
    requires Clean(namespace) && Clean(image)
    ensures RegistryTag.PathParts(namespace + "/" + image) == [namespace, image]
    ensures RegistryTag.PathParts(image) == [image]
  {
    RegistryTag.CleanFacts(namespace);
    RegistryTag.CleanFacts(image);
    RegistryTag.PathPartsOfJoin([namespace, image]);
    RegistryTag.PathPartsOfJoin([image]);
    assert RegistryTag.Join([namespace, image]) == namespace + "/" + image;
    assert RegistryTag.Join([image]) == image;
  }

  lemma ExistingVmIsFound(vms: seq<Vm>, golds: set<string>, vm: Vm, item: Item)
    requires vm in vms && vm.username.Some? && KeyOf(vm).0 != RegistryTag.GOLD_NAMESPACE
    requires RegistryTag.PathParts(item.repo) == [KeyOf(vm).0, KeyOf(vm).1]
    ensures Classify(vms, golds, item).VmArtefact? && Classify(vms, golds, item).vm.username.Some?
    ensures KeyOf(Classify(vms, golds, item).vm) == KeyOf(vm)
  {
    CandidatesAre(vms, KeyOf(vm));
    assert vm in Candidates(vms, KeyOf(vm));
    var i := HeadIsPreferred(Candidates(vms, KeyOf(vm)));
    assert Candidates(vms, KeyOf(vm))[i] in Candidates(vms, KeyOf(vm));
  }

  // The artefact a save of an existing VM pushes is tracked to a VM with its names exactly when the
  // user's sanitized name is neither v2 nor the gold namespace.
  lemma PushedArtefactTrackableExactly(vms: seq<Vm>, golds: set<string>, vm: Vm, username: string, url: string,
                                       host: string, repo: string, tag: string, size: nat)
    requires vm in vms && vm.username == Some(username) && RegistryTag.IsAuthority(RegistryTag.RegistryBase(url))
    requires RegistryTag.ParseTag(RegistryTag.RegistryTagFor(username, vm.name, url))
             == RegistryTag.Artefact(host, repo, tag)
    ensures var linkage := Classify(vms, golds, Item(repo, tag, size));
            && (linkage.VmArtefact? <==> Segment(username) !in {"v2", RegistryTag.GOLD_NAMESPACE})
            && (linkage.VmArtefact? ==> linkage.vm.username.Some? && KeyOf(linkage.vm) == KeyOf(vm))
  {
    var namespace, image := Segment(username), Segment(vm.name);
    SegmentIsClean(username);
    SegmentIsClean(vm.name);
    RegistryTag.PrintParseRoundTrip(username, vm.name, url);
    RepoParts(namespace, image);
    if namespace !in {"v2", RegistryTag.GOLD_NAMESPACE} {
      ExistingVmIsFound(vms, golds, vm, Item(repo, tag, size));
    }
  }

  // A gold image's artefact is looked up under its sanitized name, so it is trackable exactly when
  // an image is registered under that very name.
  lemma GoldArtefactTrackableExactly(vms: seq<Vm>, golds: set<string>, name: string, tag: string, size: nat)
    ensures var image := RegistryTag.GoldSegment(name);
            Classify(vms, golds, Item(RegistryTag.GOLD_NAMESPACE + "/" + image, tag, size))
            == if image in golds then GoldArtefact(image) else UnknownGold
  {
    RegistryTag.GoldSegmentIsClean(name);
    RegistryTag.GoldNamespaceIsClean();
    RepoParts(RegistryTag.GOLD_NAMESPACE, RegistryTag.GoldSegment(name));
  }

  // ---- Storage ------------------------------------------------------------------------------

  datatype Breakdown = Breakdown(trackableUsed: nat, orphanedUsed: nat, used: nat, free: Option<nat>)

  method SizeOf(listed: seq<Listed>) returns (size: nat)
    ensures size == TotalSize(listed)
  {
    size := 0;
    for i := 0 to |listed|
      invariant size == TotalSize(listed[..i])
    {
      assert listed[..i + 1][..i] == listed[..i];
      size := size + listed[i].item.size;
    }
    assert listed[..|listed|] == listed;
  }

  // storage_breakdown: everything listed is counted once, and what is free is what the total leaves.
  method StorageBreakdown(items: seq<Item>, vms: seq<Vm>, golds: set<string>, total: Option<nat>) returns (b: Breakdown)
    ensures b.used == Sizes(items) == b.trackableUsed + b.orphanedUsed
    ensures b.trackableUsed == TotalSize(Part(vms, golds, items, true))
    ensures b.free.Some? <==> total.Some?
    ensures total.Some? ==>
              && (b.free.value > 0 ==> b.used + b.free.value == total.value)
              && (b.free.value == 0 ==> total.value <= b.used)
  {
    var trackable, orphaned := ClassifyRegistryItems(items, vms, golds);
    var trackableUsed := SizeOf(trackable);
    var orphanedUsed := SizeOf(orphaned);
    SplitAddsUp(vms, golds, items);
    var used := trackableUsed + orphanedUsed;
    b := Breakdown(trackableUsed, orphanedUsed, used,
                   if total.None? then None else if total.value > used then Some(total.value - used) else Some(0));
  }
}
