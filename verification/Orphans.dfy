/**
  The orphan page and the disks of the lab: which artefacts of existing VMs it offers for
  deletion, and which of those deletions lose a disk.
 */
module Orphans {
  import opened Wrappers
  import opened RegistryTag
  import opened PrintedTags
  import ArtefactNames
  import Conservation
  import Continuations
  import Hazards
  import Inventory
  import Lab
  import VmModel

  type Key = ArtefactNames.Key

  // The repository of the artefact with this key.
  function RepoOf(key: Key): string {
    if key.0 == "v2" then key.1 else key.0 + "/" + key.1
  }

  lemma ArtefactOfKey(key: Key, url: string)
    requires IsAuthority(RegistryBase(url)) && CleanKey(key)
    ensures ParseTag(TagOf(key, url)) == Artefact(RegistryBase(url), RepoOf(key), "latest")
  {
    NoHealing(url);
    TagTextParts(RegistryBase(url), key.0, key.1);
    SanitizeOfParts(RegistryBase(url), Some(key.0), key.1, url);
    ParseOfParts(RegistryBase(url), if key.0 == "v2" then None else Some(key.0), key.1);
  }

  // The vms table has every VM of the manager under its owner.
  ghost predicate Tabled(m: VmModel.Manager, vms: seq<Inventory.Vm>, owner: VmModel.VmName -> string) {
    forall w <- m.rows :: exists vm :: vm in vms && vm.username == Some(owner(w)) && vm.name == w
  }

  // The page lists the repository as orphaned.
  predicate IsOrphaned(vms: seq<Inventory.Vm>, golds: set<string>, repo: string, tag: string, size: nat) {
    !Inventory.SideOf(vms, golds, Inventory.Item(repo, tag, size))
  }

  lemma OrphanedRepo(vms: seq<Inventory.Vm>, golds: set<string>, key: Key, tag: string, size: nat)
    requires CleanKey(key)
    requires key.0 !in {"v2", GOLD_NAMESPACE} ==>
               exists vm :: vm in vms && vm.username.Some? && Inventory.KeyOf(vm) == key
    ensures IsOrphaned(vms, golds, RepoOf(key), tag, size)
            <==> key.0 == "v2" || (key.0 == GOLD_NAMESPACE && key.1 !in golds)
  {
    Inventory.RepoParts(key.0, key.1);
    if key.0 !in {"v2", GOLD_NAMESPACE} {
      var vm :| vm in vms && vm.username.Some? && Inventory.KeyOf(vm) == key;
      Inventory.ExistingVmIsFound(vms, golds, vm, Inventory.Item(RepoOf(key), tag, size));
    }
  }

  // The artefact of an existing VM is listed as an orphan exactly when its namespace is v2, or when it is a
  // gold artefact and no image is registered under that very segment: a capture as "My Gold" is.
  lemma OwnArtefactIsOrphanExactly(owner: VmModel.VmName -> string, m: VmModel.Manager, keys: map<VmModel.VmName, Key>,
                                   vms: seq<Inventory.Vm>, w: VmModel.VmName, size: nat, url: string)
    requires IsAuthority(RegistryBase(url)) && HasKeys(m, keys, url) && Tabled(m, vms, owner) && w in m.rows
    requires keys[w] == VmKey(owner(w), w) || exists x :: keys[w] == GoldKey(x)
    ensures var a := ParseTag(San(url)(m.rows[w].tag));
            && a == Artefact(RegistryBase(url), RepoOf(keys[w]), "latest")
            && (IsOrphaned(vms, m.gold.Keys, a.repo, a.tag, size)
                <==> keys[w].0 == "v2" || (keys[w].0 == GOLD_NAMESPACE && keys[w].1 !in m.gold))
  {
    ArtefactOfKey(keys[w], url);
    if keys[w].0 !in {"v2", GOLD_NAMESPACE} {
      var vm :| vm in vms && vm.username == Some(owner(w)) && vm.name == w;
      assert Inventory.KeyOf(vm) == keys[w];
    }
    OrphanedRepo(vms, m.gold.Keys, keys[w], "latest", size);
  }

  // Deleting an artefact from the page is safe exactly when each VM whose artefact it is has had no disk, or
  // is on its node and stays there.
  lemma OrphanDeleteIsSafeExactly(l: Lab.Lab, keys: map<VmModel.VmName, Key>, key: Key, url: string)
    requires IsAuthority(RegistryBase(url)) && HasKeys(l.m, keys, url) && CleanKey(key)
    requires Conservation.Reachable(San(url), l)
    ensures Continuations.KeepsClaims(San(url), Lab.Next(San(url), l, Lab.DeleteOrphan(TagOf(key, url))))
            <==> forall w <- l.m.rows :: keys[w] == key ==> Conservation.CleanupGuard(l, w)
  {
    forall w | w in l.m.rows ensures Conservation.Slot(San(url), l.m.rows[w]) == TagOf(key, url) <==> keys[w] == key {
      TagOfExactly(keys[w], key, url);
    }
    Hazards.OrphanDeleteExactly(San(url), l, TagOf(key, url));
  }

  // An orphan outside v2 and the gold namespace is nobody's artefact.
  lemma PlainOrphanIsNobodys(owner: VmModel.VmName -> string, m: VmModel.Manager, keys: map<VmModel.VmName, Key>,
                             vms: seq<Inventory.Vm>, key: Key, tag: string, size: nat, url: string)
    requires IsAuthority(RegistryBase(url)) && HasKeys(m, keys, url) && Tabled(m, vms, owner)
    requires forall w <- m.rows :: keys[w] == VmKey(owner(w), w) || exists x :: keys[w] == GoldKey(x)
    requires key.0 !in {"v2", GOLD_NAMESPACE} && IsOrphaned(vms, m.gold.Keys, RepoOf(key), tag, size)
    ensures forall w <- m.rows :: keys[w] != key
  {
    forall w | w in m.rows ensures keys[w] != key {
      if keys[w] == key {
        var vm :| vm in vms && vm.username == Some(owner(w)) && vm.name == w;
        assert Inventory.KeyOf(vm) == key;
        OrphanedRepo(vms, m.gold.Keys, key, tag, size);
      }
    }
  }

  // The artefact of an archived VM captured under a name whose segment is no registered image is offered
  // as an orphan, and deleting it loses the only copy.
  lemma CapturedArchiveIsOffered(owner: VmModel.VmName -> string, l: Lab.Lab, keys: map<VmModel.VmName, Key>,
                                 vms: seq<Inventory.Vm>, w: VmModel.VmName, name: string, size: nat, url: string)
    requires IsAuthority(RegistryBase(url)) && HasKeys(l.m, keys, url) && Tabled(l.m, vms, owner)
    requires Conservation.Reachable(San(url), l)
    requires w in l.m.rows && l.m.rows[w].status == VmModel.Archived && w in l.latest
    requires keys[w] == GoldKey(name) && GoldSegment(name) !in l.m.gold
    ensures IsOrphaned(vms, l.m.gold.Keys, RepoOf(keys[w]), "latest", size)
    ensures !Continuations.KeepsClaims(San(url), Lab.Next(San(url), l, Lab.DeleteOrphan(TagOf(keys[w], url))))
  {
    OwnArtefactIsOrphanExactly(owner, l.m, keys, vms, w, size, url);
    OrphanDeleteIsSafeExactly(l, keys, keys[w], url);
    Conservation.DiskLeavesTrace(San(url), l, w);
    ArchivedIsAway(San(url), l, w);
  }

  lemma ArchivedIsAway(san: VmModel.Tag -> VmModel.Tag, l: Lab.Lab, w: VmModel.VmName)
    requires Conservation.Reachable(san, l) && w in l.m.rows && l.m.rows[w].status == VmModel.Archived
    ensures !Lab.Listed(l, w)
  {
    Conservation.ReachableInv(san, l);
    assert Conservation.VmHolds(san, l, w);
  }
}
