/**
  The lifecycle proofs take the tag sanitizer as a parameter. For the real one, and tags
  printed by registry_tag_for, their premises about tags come down to sanitized names, and
  cleanup reaches exactly the artefact that save and restore use.
 */
module PrintedTags {
  import opened Wrappers
  import opened RegistryTag
  import opened RegistrySegment
  import opened ArtefactNames
  import Conservation
  import Continuations
  import Hazards
  import Lab
  import RegistryCleanup
  import Text
  import VmModel

  // _sanitize_registry_tag under a fixed REGISTRY_URL
  function San(url: string): VmModel.Tag -> VmModel.Tag {
    tag => SanitizeTag(tag, url)
  }

  predicate SameNames(u1: string, v1: string, u2: string, v2: string) {
    Segment(u1) == Segment(u2) && Segment(v1) == Segment(v2)
  }

  function VmKey(username: string, vmName: string): Key {
    (Segment(username), Segment(vmName))
  }

  function GoldKey(name: string): Key {
    (GOLD_NAMESPACE, GoldSegment(name))
  }

  // The sanitized tag with this key.
  function TagOf(key: Key, url: string): VmModel.Tag {
    SanitizeTag(TagText(RegistryBase(url), key.0, key.1), url)
  }

  predicate CleanKey(key: Key) {
    Clean(key.0) && Clean(key.1)
  }

  lemma KeysAreClean(username: string, vmName: string, name: string)
    ensures CleanKey(VmKey(username, vmName)) && CleanKey(GoldKey(name))
  {
    SegmentIsClean(username);
    SegmentIsClean(vmName);
    GoldSegmentIsClean(name);
    GoldNamespaceIsClean();
  }

  // Artefacts coincide exactly when their keys do, and their tags are stable.
  lemma TagOfExactly(k1: Key, k2: Key, url: string)
    requires CleanKey(k1) && CleanKey(k2) && IsAuthority(RegistryBase(url))
    ensures TagOf(k1, url) == TagOf(k2, url) <==> k1 == k2
    ensures SanitizeTag(TagOf(k1, url), url) == TagOf(k1, url) && Text.Strip(TagOf(k1, url)) == TagOf(k1, url) != ""
  {
    NoHealing(url);
    TagTextParts(RegistryBase(url), k1.0, k1.1);
    TagTextParts(RegistryBase(url), k2.0, k2.1);
    NamedArtefacts(RegistryBase(url), k1.0, k1.1, k2.0, k2.1, url);
    var kept := if k1.0 == "v2" then None else Some(k1.0);
    SanitizeOfParts(RegistryBase(url), Some(k1.0), k1.1, url);
    JoinedTagPlain(RegistryBase(url), kept, k1.1);
  }

  lemma PrintedTagIsPlain(username: string, vmName: string, url: string)
    requires IsAuthority(RegistryBase(url))
    ensures Text.Strip(RegistryTagFor(username, vmName, url)) != ""
  {
    SegmentIsClean(username);
    SegmentIsClean(vmName);
    TagTextParts(RegistryBase(url), Segment(username), Segment(vmName));
    JoinedTagPlain(RegistryBase(url), Some(Segment(username)), Segment(vmName));
  }

  // Printed tags and gold tags meet the premise Canonical of every conservation theorem.
  lemma PrintedTagIsCanonical(username: string, vmName: string, name: string, url: string)
    requires IsAuthority(RegistryBase(url))
    ensures Conservation.Canonical(San(url), RegistryTagFor(username, vmName, url))
    ensures Conservation.Canonical(San(url), GoldTagFor(name, url))
    ensures San(url)(GoldTagFor(name, url)) == GoldTagFor(name, url)
  {
    KeysAreClean(username, vmName, name);
    TagOfExactly(VmKey(username, vmName), VmKey(username, vmName), url);
    TagOfExactly(GoldKey(name), GoldKey(name), url);
    PrintedTagIsPlain(username, vmName, url);
  }

  // ---- Whose artefact a tag is ----------------------------------------------------------

  // The naming the routes use; `owner` gives the user who creates each VM.
  function NamingOf(owner: VmModel.VmName -> string, url: string): Naming {
    Naming(San(url), key => TagOf(key, url), v => VmKey(owner(v), v), x => GoldKey(x))
  }

  lemma KeyIsStable(owner: VmModel.VmName -> string, key: Key, url: string)
    requires IsAuthority(RegistryBase(url)) && CleanKey(key)
    ensures IsStable(NamingOf(owner, url), key)
  {
    TagOfExactly(key, key, url);
  }

  lemma BlankStaysBlank(url: string)
    ensures SanitizeTag("", url) == ""
  {
    assert Text.Strip("") == "";
  }

  lemma NamingIsGood(owner: VmModel.VmName -> string, url: string)
    requires IsAuthority(RegistryBase(url))
    ensures GoodNaming(NamingOf(owner, url))
  {
    var n := NamingOf(owner, url);
    BlankStaysBlank(url);
    forall v ensures IsStable(n, n.printed(v)) {
      KeysAreClean(owner(v), v, "");
      KeyIsStable(owner, VmKey(owner(v), v), url);
    }
    forall x ensures IsStable(n, n.goldKey(x)) {
      KeysAreClean("", "", x);
      KeyIsStable(owner, GoldKey(x), url);
    }
  }

  // The tags create_vm and make_gold_image compute.
  predicate IsRouteInput(i: VmModel.Input, owner: VmModel.VmName -> string, url: string) {
    && (i.CreateVm? ==> i.tag == RegistryTagFor(owner(i.vm), i.vm, url))
    && (i.CaptureGold? ==> Text.Stripped(i.name) && i.goldTag == GoldTagFor(i.name, url))
  }

  lemma RouteInputIsNamed(i: VmModel.Input, owner: VmModel.VmName -> string, url: string)
    requires IsRouteInput(i, owner, url)
    ensures IsNamedInput(NamingOf(owner, url), i)
  {}

  // Each row's artefact has this key.
  predicate HasKeys(m: VmModel.Manager, keys: map<VmModel.VmName, Key>, url: string) {
    forall w <- m.rows :: w in keys && CleanKey(keys[w]) && San(url)(m.rows[w].tag) == TagOf(keys[w], url)
  }

  // Each gold image has the tag of its name, and so has each row that is being captured.
  ghost predicate GoldNamed(m: VmModel.Manager, url: string) {
    && (forall x <- m.gold :: m.gold[x] == GoldTagFor(x, url))
    && (forall w, x {:trigger VmModel.IsCapture(m.rows[w], x)} ::
          w in m.rows && VmModel.IsCapture(m.rows[w], x) ==> m.rows[w].tag == GoldTagFor(x, url))
  }

  // After any run of the routes each VM's artefact is the one printed for it or a gold image's.
  lemma KeysAfterRun(owner: VmModel.VmName -> string, url: string, m: VmModel.Manager, inputs: seq<VmModel.Input>)
    returns (keys: map<VmModel.VmName, Key>)
    requires IsAuthority(RegistryBase(url)) && VmModel.IsFresh(m)
    requires forall i <- inputs :: IsRouteInput(i, owner, url)
    ensures HasKeys(VmModel.ManageAll(San(url), m, inputs), keys, url)
    ensures GoldNamed(VmModel.ManageAll(San(url), m, inputs), url)
    ensures forall v :: v in keys ==> keys[v] == VmKey(owner(v), v) || exists x :: keys[v] == GoldKey(x)
  {
    var n := NamingOf(owner, url);
    NamingIsGood(owner, url);
    forall i | i in inputs ensures IsNamedInput(n, i) {
      RouteInputIsNamed(i, owner, url);
    }
    keys := NamedRun(n, m, inputs);
    KeysAreNamed(owner, url, VmModel.ManageAll(San(url), m, inputs), keys);
    GoldIsNamed(owner, url, VmModel.ManageAll(San(url), m, inputs), keys);
  }

  lemma GoldIsNamed(owner: VmModel.VmName -> string, url: string, m: VmModel.Manager, keys: map<VmModel.VmName, Key>)
    requires AllNamed(NamingOf(owner, url), m, keys)
    ensures GoldNamed(m, url)
  {
    var n := NamingOf(owner, url);
    forall x ensures n.tagOf(n.goldKey(x)) == GoldTagFor(x, url) {}
    forall w, x | w in m.rows && VmModel.IsCapture(m.rows[w], x) ensures m.rows[w].tag == GoldTagFor(x, url) {
      assert CaptureNamed(n, m.rows[w]);
    }
  }

  // The same of the manager in a lab that has run.
  lemma KeysInLab(owner: VmModel.VmName -> string, url: string, start: Lab.Lab, steps: seq<Lab.Step>)
    returns (keys: map<VmModel.VmName, Key>)
    requires IsAuthority(RegistryBase(url)) && Lab.IsInitial(start) && Lab.IsRun(San(url), start, steps)
    requires forall i <- Lab.InputsOf(steps) :: IsRouteInput(i, owner, url)
    ensures var l := Lab.Run(San(url), start, steps); HasKeys(l.m, keys, url) && GoldNamed(l.m, url)
    ensures forall v :: v in keys ==> keys[v] == VmKey(owner(v), v) || exists x :: keys[v] == GoldKey(x)
  {
    Lab.ManagerOfRun(San(url), start, steps);
    keys := KeysAfterRun(owner, url, start.m, Lab.InputsOf(steps));
  }

  lemma KeyFormIsClean(username: string, v: VmModel.VmName, key: Key)
    requires key == VmKey(username, v) || exists x :: key == GoldKey(x)
    ensures CleanKey(key)
  {
    if key == VmKey(username, v) {
      KeysAreClean(username, v, "");
    } else {
      var x :| key == GoldKey(x);
      KeysAreClean("", "", x);
    }
  }

  lemma NamedTag(owner: VmModel.VmName -> string, url: string, key: Key, tag: VmModel.Tag)
    requires IsNamed(NamingOf(owner, url), key, tag)
    ensures San(url)(tag) == TagOf(key, url)
  {}

  lemma KeysAreNamed(owner: VmModel.VmName -> string, url: string, m: VmModel.Manager, keys: map<VmModel.VmName, Key>)
    requires RowsNamed(NamingOf(owner, url), m, keys)
    requires forall v :: v in keys ==> keys[v] == VmKey(owner(v), v) || exists x :: keys[v] == GoldKey(x)
    ensures HasKeys(m, keys, url)
  {
    forall w | w in m.rows ensures CleanKey(keys[w]) && San(url)(m.rows[w].tag) == TagOf(keys[w], url) {
      NamedTag(owner, url, keys[w], m.rows[w].tag);
      KeyFormIsClean(owner(w), w, keys[w]);
    }
  }

  // A tag with this key is VM v's own exactly when no other VM's artefact has the key.
  lemma OwnKeyExactly(m: VmModel.Manager, keys: map<VmModel.VmName, Key>, v: VmModel.VmName, tag: VmModel.Tag, key: Key,
                      url: string)
    requires IsAuthority(RegistryBase(url)) && HasKeys(m, keys, url) && CleanKey(key)
    requires Conservation.Canonical(San(url), tag) && San(url)(tag) == TagOf(key, url)
    ensures Conservation.OwnTag(San(url), m, v, tag) <==> forall w <- m.rows :: w != v ==> keys[w] != key
  {
    forall w | w in m.rows ensures Conservation.Slot(San(url), m.rows[w]) == San(url)(tag) <==> keys[w] == key {
      TagOfExactly(keys[w], key, url);
    }
  }

  // A new VM gets an artefact of its own exactly when no other VM's artefact has its sanitized names.
  lemma OwnTagExactly(m: VmModel.Manager, keys: map<VmModel.VmName, Key>, username: string, vm: VmModel.VmName, url: string)
    requires IsAuthority(RegistryBase(url)) && HasKeys(m, keys, url)
    ensures Conservation.OwnTag(San(url), m, vm, RegistryTagFor(username, vm, url))
            <==> forall w <- m.rows :: w != vm ==> keys[w] != VmKey(username, vm)
  {
    PrintedTagIsCanonical(username, vm, "", url);
    KeysAreClean(username, vm, "");
    OwnKeyExactly(m, keys, vm, RegistryTagFor(username, vm, url), VmKey(username, vm), url);
  }

  // A gold tag is no other VM's artefact exactly when no other VM holds it: captured under a name that
  // sanitizes alike, or created by a user sanitized to gold-images.
  lemma GoldOwnTagExactly(m: VmModel.Manager, keys: map<VmModel.VmName, Key>, name: string, v: VmModel.VmName, url: string)
    requires IsAuthority(RegistryBase(url)) && HasKeys(m, keys, url)
    ensures Conservation.OwnTag(San(url), m, v, GoldTagFor(name, url))
            <==> forall w <- m.rows :: w != v ==> keys[w] != GoldKey(name)
  {
    PrintedTagIsCanonical("", v, name, url);
    KeysAreClean("", "", name);
    TagOfExactly(GoldKey(name), GoldKey(name), url);
    OwnKeyExactly(m, keys, v, GoldTagFor(name, url), GoldKey(name), url);
  }

  // Capturing v as `name` is safe, whatever ordinary steps follow, exactly when no other VM's artefact
  // is that gold image's: a second capture under one name is not.
  lemma CaptureIsSafeExactly(l: Lab.Lab, keys: map<VmModel.VmName, Key>, v: VmModel.VmName, name: string, url: string)
    requires IsAuthority(RegistryBase(url)) && HasKeys(l.m, keys, url)
    requires Conservation.Reachable(San(url), l)
    requires v in l.m.rows && l.m.rows[v].status in {VmModel.Running, VmModel.Stopped}
    requires VmModel.HasNode(l.m.rows[v], l.m.nodes) && Lab.Listed(l, v) && name != "" && Text.Stripped(name)
    requires GoldNamed(l.m, url)
    ensures Continuations.KeepsClaims(San(url), Hazards.AfterCapture(San(url), l, v, name, GoldTagFor(name, url)))
            <==> forall w <- l.m.rows :: w != v ==> keys[w] != GoldKey(name)
  {
    var tag := GoldTagFor(name, url);
    PrintedTagIsCanonical("", v, name, url);
    GoldOwnTagExactly(l.m, keys, name, v, url);
    Hazards.CaptureExactly(San(url), l, v, name, tag);
  }

  // Creating a VM that gets a disk is safe exactly when no other VM's artefact has its sanitized names: a
  // user's "dev-1" beside the same user's "dev 1" is not.
  lemma CreateIsSafeExactly(l: Lab.Lab, keys: map<VmModel.VmName, Key>, i: VmModel.Input, made: Option<Lab.Disk>,
                            username: string, url: string)
    requires IsAuthority(RegistryBase(url)) && HasKeys(l.m, keys, url)
    requires Conservation.Reachable(San(url), l) && Hazards.CanCreate(l, i, made)
    requires i.tag == RegistryTagFor(username, i.vm, url)
    ensures Continuations.KeepsClaims(San(url), Hazards.AfterCreate(San(url), l, i, made))
            <==> forall w <- l.m.rows :: w != i.vm ==> keys[w] != VmKey(username, i.vm)
  {
    PrintedTagIsCanonical(username, i.vm, "", url);
    OwnTagExactly(l.m, keys, username, i.vm, url);
    Hazards.CreateExactly(San(url), l, i, made);
  }

  // ---- Cleanup ---------------------------------------------------------------------

  lemma TailAfterHost(host: string, kept: Option<string>, image: string, repo: string)
    requires repo == if kept.Some? then kept.value + "/" + image else image
    ensures Join(TagParts(host, kept, image)) == host + "/" + repo + ":latest"
  {
    JoinedTag(host, kept, image);
    assert TagTail(kept, image) == repo + ":latest";
    assert host + "/" + (repo + ":latest") == host + "/" + repo + ":latest";
  }

  // The parser loses nothing of a printed tag that the sanitizer keeps.
  lemma SanitizedFromParsed(username: string, vmName: string, url: string, host: string, repo: string, tag: string)
    requires IsAuthority(RegistryBase(url))
    requires ParseTag(RegistryTagFor(username, vmName, url)) == Artefact(host, repo, tag)
    ensures SanitizeTag(RegistryTagFor(username, vmName, url), url) == host + "/" + repo + ":latest"
  {
    var namespace, image := Segment(username), Segment(vmName);
    SegmentIsClean(username);
    SegmentIsClean(vmName);
    NoHealing(url);
    PrintParseRoundTrip(username, vmName, url);
    TagTextParts(host, namespace, image);
    SanitizeOfParts(host, Some(namespace), image, url);
    TailAfterHost(host, if namespace == "v2" then None else Some(namespace), image, repo);
  }

  // Cleaning up one VM's artefact, under the tag last sanitized for a save, leaves every artefact of
  // a VM with other sanitized names alone, whatever the network does.
  lemma CleanupSparesOthers(w: RegistryCleanup.Registry, u1: string, v1: string, u2: string, v2: string, url: string,
                            net: RegistryCleanup.Network, at: nat, host: string, repo: string, tag: string)
    requires IsAuthority(RegistryBase(url)) && !SameNames(u1, v1, u2, v2)
    requires ParseTag(RegistryTagFor(u2, v2, url)) == Artefact(host, repo, tag)
    ensures var cleaned := RegistryCleanup.CleanupTag(w, SanitizeTag(RegistryTagFor(u1, v1, url), url), net, at).after;
            var other := RegistryCleanup.Repo(host, repo);
            RegistryCleanup.Lookup(cleaned, other, tag) == RegistryCleanup.Lookup(w, other, tag)
  {
    var t := RegistryTagFor(u1, v1, url);
    SaveResumeCleanupAgree(u1, v1, url);
    PrintParseRoundTrip(u1, v1, url);
    SanitizedFromParsed(u1, v1, url, ParseTag(t).host, ParseTag(t).repo, ParseTag(t).tag);
    SanitizedFromParsed(u2, v2, url, host, repo, tag);
    SameArtefactExactly(u1, v1, u2, v2, url);
    RegistryCleanup.OnlyResolvedDigestRemoved(w, SanitizeTag(t, url), net, at, RegistryCleanup.Repo(host, repo), tag);
  }
}
