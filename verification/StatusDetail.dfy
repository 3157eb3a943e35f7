/**
  The markers that routes leave in vm.status_detail for the poller
  (app/api/routes.py): "migrate:<node id>" and "gold:<name>".
 */
module StatusDetail {
  import opened Wrappers
  import opened Text

  const MIGRATE := "migrate:"
  const GOLD := "gold:"

  // f'migrate:{target_node.id}'
  function MigrationMarker(node: nat): string {
    MIGRATE + Decimal(node)
  }

  // f'gold:{gold_name}'
  function GoldMarker(name: string): string {
    GOLD + name
  }

  function OrEmpty(detail: Option<string>): string {
    if detail.Some? then detail.value else ""
  }

  // value.startswith(marker), then what follows the marker
  function AfterMarker(detail: Option<string>, marker: string): Option<string> {
    var value := Strip(OrEmpty(detail));
    if StartsWith(value, marker) then Some(value[|marker|..]) else None
  }

  // _parse_migration_target
  function ParseMigrationTarget(detail: Option<string>): Option<int> {
    match AfterMarker(detail, MIGRATE)
    case None => None
    case Some(rest) => PyInt(rest)
  }

  // _parse_gold_name
  function ParseGoldName(detail: Option<string>): Option<string> {
    match AfterMarker(detail, GOLD)
    case None => None
    case Some(rest) =>
      var name := Strip(rest);
      if name == "" then None else Some(name)
  }

  lemma AfterOwnMarker(marker: string, rest: string, other: string)
    requires marker != "" && !IsSpace(marker[0])
    requires rest != "" && !IsSpace(rest[|rest| - 1])
    requires other != "" && other[0] != marker[0]
    ensures AfterMarker(Some(marker + rest), marker) == Some(rest)
    ensures AfterMarker(Some(marker + rest), other) == None
  {
    var m := marker + rest;
    assert m[|m| - 1] == rest[|rest| - 1] && m[0] == marker[0];
    assert m[|marker|..] == rest;
  }

  // The marker migrate_vm writes is read back as the same node, and never as a gold capture.
  lemma MigrationMarkerRoundTrip(node: nat)
    ensures ParseMigrationTarget(Some(MigrationMarker(node))) == Some(node)
    ensures ParseGoldName(Some(MigrationMarker(node))) == None
  {
    var d := Decimal(node);
    assert IsDigit(d[|d| - 1]);
    AfterOwnMarker(MIGRATE, d, GOLD);
    PyIntOfDecimal(node);
  }

  // The marker make_gold_image writes is read back as the same gold name, and never as a migration.
  lemma GoldMarkerRoundTrip(name: string)
    requires name != "" && Stripped(name)
    ensures ParseGoldName(Some(GoldMarker(name))) == Some(name)
    ensures ParseMigrationTarget(Some(GoldMarker(name))) == None
  {
    AfterOwnMarker(GOLD, name, MIGRATE);
  }

  // A gold name that is read is a proper one: "gold:" with nothing behind it names no image.
  lemma GoldNameIsProper(detail: Option<string>)
    ensures var name := ParseGoldName(detail); name.Some? ==> name.value != "" && Stripped(name.value)
    ensures ParseGoldName(Some(GOLD)) == None
  {
    match AfterMarker(detail, GOLD)
    case None =>
    case Some(rest) => StripIsStripped(rest);
    assert Strip(GOLD) == GOLD && GOLD[|GOLD|..] == "" && Strip("") == "";
  }

  lemma NoDetailNoMarker()
    ensures ParseMigrationTarget(None) == None
    ensures ParseGoldName(None) == None
  {
    assert Strip("") == "";
  }
}
