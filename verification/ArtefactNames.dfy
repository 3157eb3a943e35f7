/**
  Which artefact each VM has, over every run of the manager: the one printed for it when it
  was created, or that of the gold image it was last captured as. The sanitizer and the way
  a name becomes a tag are parameters here; module PrintedTags supplies the real ones.
 */
module ArtefactNames {
  import opened Wrappers
  import opened VmModel
  import opened StatusDetail
  import opened Placement
  import Text

  // Namespace and image of an artefact.
  type Key = (string, string)

  // The key a new VM is printed with, and the key of a gold name.
  datatype Naming = Naming(san: Tag -> Tag, tagOf: Key -> Tag, printed: VmName -> Key, goldKey: string -> Key)

  predicate IsNamed(n: Naming, key: Key, tag: Tag) {
    n.san(tag) == n.tagOf(key)
  }

  predicate IsStable(n: Naming, key: Key) {
    n.san(n.tagOf(key)) == n.tagOf(key) != ""
  }

  ghost predicate GoodNaming(n: Naming) {
    && n.san("") == ""
    && (forall v :: IsStable(n, n.printed(v)))
    && (forall x :: IsStable(n, n.goldKey(x)))
  }

  // A row that is being captured has the tag of its gold name.
  ghost predicate CaptureNamed(n: Naming, row: VmRow) {
    forall x :: IsCapture(row, x) ==> row.tag == n.tagOf(n.goldKey(x))
  }

  predicate RowsNamed(n: Naming, m: Manager, keys: map<VmName, Key>) {
    forall v <- m.rows :: v in keys && IsNamed(n, keys[v], m.rows[v].tag) && IsStable(n, keys[v])
  }

  // Every row's artefact has its key, and every gold image the tag of its name, as has a row in capture.
  ghost predicate AllNamed(n: Naming, m: Manager, keys: map<VmName, Key>) {
    && RowsNamed(n, m, keys)
    && (forall v <- m.rows :: RowShape(m.rows[v]) && CaptureNamed(n, m.rows[v]))
    && (forall x <- m.gold :: m.gold[x] == n.tagOf(n.goldKey(x)))
  }

  // What the routes put into the inputs: printed tags for new VMs, gold tags for captures.
  predicate IsNamedInput(n: Naming, i: Input) {
    && (i.CreateVm? ==> IsNamed(n, n.printed(i.vm), i.tag))
    && (i.CaptureGold? ==> Text.Stripped(i.name) && i.goldTag == n.tagOf(n.goldKey(i.name)))
  }

  // Where the tag of a row comes from.
  lemma TagAfter(san: Tag -> Tag, m: Manager, row: VmRow, i: Input)
    requires !HasNoVm(i) && !i.CreateVm?
    ensures var tag := ManageRow(san, m, row, i).row.tag;
            || tag == row.tag || tag == san(row.tag)
            || (i.CaptureGold? && tag == i.goldTag)
            || (i.DrainBegin? && row.tag == "")
            || (i.Poll? && exists x :: x in m.gold && tag == m.gold[x])
  {}

  // The artefact of a row stays the same, or becomes that of a gold image.
  lemma RowStaysNamed(n: Naming, m: Manager, keys: map<VmName, Key>, i: Input) returns (key: Key)
    requires GoodNaming(n) && AllNamed(n, m, keys) && IsNamedInput(n, i)
    requires !HasNoVm(i) && !i.CreateVm? && i.vm in m.rows
    ensures IsNamed(n, key, ManageRow(n.san, m, m.rows[i.vm], i).row.tag) && IsStable(n, key)
    ensures key == keys[i.vm] || exists x :: key == n.goldKey(x)
  {
    var row, tag := m.rows[i.vm], ManageRow(n.san, m, m.rows[i.vm], i).row.tag;
    assert IsNamed(n, keys[i.vm], row.tag);
    TagAfter(n.san, m, row, i);
    if tag == row.tag || tag == n.san(row.tag) {
      key := keys[i.vm];
    } else if i.CaptureGold? {
      key := n.goldKey(i.name);
    } else {
      var x :| x in m.gold && tag == m.gold[x];
      key := n.goldKey(x);
    }
  }

  // A capture is marked by make_gold_image alone, and nothing but its end changes the tag.
  lemma CaptureStaysNamed(n: Naming, m: Manager, row: VmRow, i: Input)
    requires GoodNaming(n) && IsNamedInput(n, i) && !HasNoVm(i) && !i.CreateVm?
    requires RowShape(row) && CaptureNamed(n, row)
    ensures CaptureNamed(n, ManageRow(n.san, m, row, i).row)
  {
    NoDetailNoMarker();
    if i.Migrate? {
      MigrationMarkerRoundTrip(i.target);
    } else if i.CaptureGold? && i.name != "" {
      GoldMarkerRoundTrip(i.name);
    }
    forall x | IsCapture(ManageRow(n.san, m, row, i).row, x)
      ensures ManageRow(n.san, m, row, i).row.tag == n.tagOf(n.goldKey(x))
    {
      assert IsStable(n, n.goldKey(x));
    }
  }

  lemma NamedHandler(n: Naming, m: Manager, keys: map<VmName, Key>, i: Input, key: Key)
    requires AllNamed(n, m, keys) && IsNamedInput(n, i) && !HasNoVm(i) && !i.CreateVm? && i.vm in m.rows
    requires IsNamed(n, key, ManageRow(n.san, m, m.rows[i.vm], i).row.tag) && IsStable(n, key)
    requires RowShape(ManageRow(n.san, m, m.rows[i.vm], i).row) && CaptureNamed(n, ManageRow(n.san, m, m.rows[i.vm], i).row)
    ensures AllNamed(n, Manage(n.san, m, i).m, keys[i.vm := key])
  {}

  lemma CreatedRowIsNamed(n: Naming, i: Input)
    requires i.CreateVm?
    ensures CreatedRow(i).tag == i.tag && RowShape(CreatedRow(i)) && CaptureNamed(n, CreatedRow(i))
  {}

  lemma NamedCreation(n: Naming, m: Manager, keys: map<VmName, Key>, i: Input)
    requires GoodNaming(n) && AllNamed(n, m, keys) && IsNamedInput(n, i) && i.CreateVm? && i.vm !in m.rows
    ensures AllNamed(n, Manage(n.san, m, i).m, keys[i.vm := n.printed(i.vm)])
  {
    var row := CreatedRow(i);
    CreatedRowIsNamed(n, i);
    NamedRow(n, m, keys, i.vm, row, n.printed(i.vm));
  }

  lemma NamedRow(n: Naming, m: Manager, keys: map<VmName, Key>, v: VmName, row: VmRow, key: Key)
    requires AllNamed(n, m, keys) && IsNamed(n, key, row.tag) && IsStable(n, key) && RowShape(row) && CaptureNamed(n, row)
    ensures AllNamed(n, Commit(m, v, false, row, m.gold), keys[v := key])
  {}

  // One handler keeps every artefact named.
  lemma NamedStep(n: Naming, m: Manager, keys: map<VmName, Key>, i: Input) returns (keys': map<VmName, Key>)
    requires GoodNaming(n) && AllNamed(n, m, keys) && IsNamedInput(n, i)
    ensures AllNamed(n, Manage(n.san, m, i).m, keys')
    ensures forall v :: v in keys' ==>
              (v in keys && keys'[v] == keys[v]) || keys'[v] == n.printed(v) || exists x :: keys'[v] == n.goldKey(x)
  {
    keys' := keys;
    if i.CreateVm? {
      if i.vm !in m.rows {
        NamedCreation(n, m, keys, i);
        keys' := keys[i.vm := n.printed(i.vm)];
      }
    } else if !HasNoVm(i) && i.vm in m.rows {
      var key := RowStaysNamed(n, m, keys, i);
      ManageRowKeepsShape(n.san, m, m.rows[i.vm], i);
      CaptureStaysNamed(n, m, m.rows[i.vm], i);
      NamedHandler(n, m, keys, i, key);
      keys' := keys[i.vm := key];
    }
  }

  // After any run from an empty manager, each VM has its printed artefact or a gold image's.
  lemma {:induction false} NamedRun(n: Naming, m: Manager, inputs: seq<Input>) returns (keys: map<VmName, Key>)
    requires GoodNaming(n) && IsFresh(m) && forall i <- inputs :: IsNamedInput(n, i)
    ensures AllNamed(n, ManageAll(n.san, m, inputs), keys)
    ensures forall v :: v in keys ==> keys[v] == n.printed(v) || exists x :: keys[v] == n.goldKey(x)
  {
    keys := NamedFrom(n, m, map[], inputs);
  }

  lemma {:induction false} NamedFrom(n: Naming, m: Manager, keys: map<VmName, Key>, inputs: seq<Input>)
    returns (keys': map<VmName, Key>)
    requires GoodNaming(n) && AllNamed(n, m, keys) && forall i <- inputs :: IsNamedInput(n, i)
    requires forall v :: v in keys ==> keys[v] == n.printed(v) || exists x :: keys[v] == n.goldKey(x)
    ensures AllNamed(n, ManageAll(n.san, m, inputs), keys')
    ensures forall v :: v in keys' ==> keys'[v] == n.printed(v) || exists x :: keys'[v] == n.goldKey(x)
    decreases |inputs|
  {
    keys' := keys;
    if inputs != [] {
      assert inputs[0] in inputs;
      var next := NamedStep(n, m, keys, inputs[0]);
      keys' := NamedFrom(n, Manage(n.san, m, inputs[0]).m, next, inputs[1..]);
    }
  }
}
