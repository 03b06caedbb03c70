/** The migration ledger recorded in a snapshot and the compatibility verdict on it
  * (robothor/snapshot.py:515-555, 1175-1243).
  */
module Schema {
  import opened Wrappers
  import opened Json
  import opened Workspace
  import opened Archive

  datatype Migration = Migration(id: string, checksum: string)

  // ----- Recording -----

  function Checksums(ms: seq<Migration>): map<string, string> {
    if ms == [] then map[] else Checksums(ms[..|ms| - 1])[ms[|ms| - 1].id := ms[|ms| - 1].checksum]
  }

  ghost predicate Distinct(ms: seq<Migration>) {
    forall i, j | 0 <= i < j < |ms| :: ms[i].id != ms[j].id
  }

  /** The state written at creation; `None` is a database without the ledger table. */
  function StateOf(ledger: Option<seq<Migration>>, available: seq<Migration>): string {
    match ledger
    case None => "untracked"
    case Some(applied) =>
      var known := Checksums(available);
      if exists m | m in applied :: m.id !in known || known[m.id] != m.checksum then "drift"
      else if |applied| == |available| then "current"
      else "behind"
  }

  function MigrationJson(m: Migration): Json {
    Obj(map["id" := Str(m.id), "checksum" := Str(m.checksum)])
  }

  function MigrationList(ms: seq<Migration>): Json {
    List(seq(|ms|, i requires 0 <= i < |ms| => MigrationJson(ms[i])))
  }

  function Applied(ledger: Option<seq<Migration>>): seq<Migration> {
    if ledger.Some? then ledger.value else []
  }

  function SchemaFields(ledger: Option<seq<Migration>>, available: seq<Migration>): map<string, Json> {
    map[
      "ledger" := Str(if ledger.Some? then "schema_migrations_v2" else "missing"),
      "state" := Str(StateOf(ledger, available)),
      "applied" := MigrationList(Applied(ledger)),
      "available" := MigrationList(available)]
  }

  // ----- Judging -----

  function ReadMigration(value: Json): Option<Migration> {
    match value
    case Obj(fields) => (
      match (Get(fields, "id"), Get(fields, "checksum"))
      case (Str(id), Str(checksum)) =>
        if id != "" && IsChecksum(checksum) then Some(Migration(id, checksum)) else None
      case _ => None)
    case _ => None
  }

  /** A migration is read exactly from an object with a name and a well-formed checksum. */
  lemma MigrationExactly(value: Json, m: Migration)
    ensures ReadMigration(value) == Some(m) <==>
              && value.Obj? && Get(value.fields, "id") == Str(m.id) && Get(value.fields, "checksum") == Str(m.checksum)
              && m.id != "" && IsHex64(m.checksum)
  {
    ChecksumExactly(m.checksum);
  }

  ghost predicate Reads(list: Json, ms: seq<Migration>) {
    && list.List? && |list.items| == |ms|
    && (forall i | 0 <= i < |ms| :: ReadMigration(list.items[i]) == Some(ms[i]))
    && Distinct(ms)
  }

  method MigrationChecksums(list: Json) returns (r: Result<map<string, string>, Error>, ghost ms: seq<Migration>)
    ensures r.Ok? ==> Reads(list, ms) && r.value == Checksums(ms)
    ensures r.Err? ==> r.error == IntegrityError && forall other :: !Reads(list, other)
  {
    ms := [];
    if !list.List? {
      return Err(IntegrityError), ms;
    }
    var migrations: map<string, string> := map[];
    for i := 0 to |list.items|
      invariant |ms| == i && ReadsFirst(list, ms) && migrations == Checksums(ms)
    {
      var m := ReadMigration(list.items[i]);
      if m.None? {
        return Err(IntegrityError), ms;
      }
      ChecksumKeys(ms);
      if m.value.id in migrations {
        TakenTwice(list, ms, m.value);
        return Err(IntegrityError), ms;
      }
      migrations := migrations[m.value.id := m.value.checksum];
      ReadsOneMore(list, ms, m.value);
      ms := ms + [m.value];
    }
    return Ok(migrations), ms;
  }

  /** `Reads` for as many items as `ms` has. */
  ghost predicate ReadsFirst(list: Json, ms: seq<Migration>) {
    && list.List? && |ms| <= |list.items| && Distinct(ms)
    && forall i | 0 <= i < |ms| :: ReadMigration(list.items[i]) == Some(ms[i])
  }

  lemma ReadsOneMore(list: Json, ms: seq<Migration>, m: Migration)
    requires ReadsFirst(list, ms) && |ms| < |list.items| && ReadMigration(list.items[|ms|]) == Some(m)
    requires !HasId(ms, m.id)
    ensures ReadsFirst(list, ms + [m]) && Checksums(ms + [m]) == Checksums(ms)[m.id := m.checksum]
  {
    var more := ms + [m];
    assert more[..|ms|] == ms;
    ChecksumsSnoc(more, ms);
    DistinctSnoc(ms, m);
    ItemsOneMore(list, ms, m);
  }

  lemma ItemsOneMore(list: Json, ms: seq<Migration>, m: Migration)
    requires ReadsFirst(list, ms) && |ms| < |list.items| && ReadMigration(list.items[|ms|]) == Some(m)
    ensures forall i | 0 <= i < |ms + [m]| :: ReadMigration(list.items[i]) == Some((ms + [m])[i])
  {
  }

  lemma DistinctSnoc(ms: seq<Migration>, m: Migration)
    requires Distinct(ms) && !HasId(ms, m.id)
    ensures Distinct(ms + [m])
  {
    var more := ms + [m];
    forall i, j | 0 <= i < j < |more| ensures more[i].id != more[j].id {
      assert more[i] == ms[i] && (j < |ms| ==> more[j] == ms[j]);
    }
  }

  lemma ChecksumsSnoc(more: seq<Migration>, ms: seq<Migration>)
    requires more != [] && ms == more[..|more| - 1]
    ensures Checksums(more) == Checksums(ms)[more[|more| - 1].id := more[|more| - 1].checksum]
  {
  }

  lemma TakenTwice(list: Json, ms: seq<Migration>, m: Migration)
    requires ReadsFirst(list, ms) && |ms| < |list.items| && ReadMigration(list.items[|ms|]) == Some(m)
    requires HasId(ms, m.id)
    ensures forall other :: !Reads(list, other)
  {
    var k :| 0 <= k < |ms| && ms[k].id == m.id;
    forall other ensures !Reads(list, other) {
      if Reads(list, other) {
        ReadsDistinct(list, other, k, |ms|);
      }
    }
  }

  lemma ReadsDistinct(list: Json, ms: seq<Migration>, i: nat, j: nat)
    requires Reads(list, ms) && i < j < |ms|
    ensures ReadMigration(list.items[i]).Some? && ReadMigration(list.items[j]).Some?
    ensures ReadMigration(list.items[i]).value.id != ReadMigration(list.items[j]).value.id
  {
    assert ms[i].id != ms[j].id;
  }

  predicate HasId(ms: seq<Migration>, id: string) {
    exists i | 0 <= i < |ms| :: ms[i].id == id
  }

  lemma HasIdSnoc(ms: seq<Migration>, id: string)
    requires ms != []
    ensures HasId(ms, id) <==> id == ms[|ms| - 1].id || HasId(ms[..|ms| - 1], id)
  {
    var init := ms[..|ms| - 1];
    assert forall i | 0 <= i < |init| :: init[i] == ms[i];
    if HasId(ms, id) && id != ms[|ms| - 1].id {
      var i :| 0 <= i < |ms| && ms[i].id == id;
      assert init[i].id == id;
    }
    if HasId(init, id) {
      var i :| 0 <= i < |init| && init[i].id == id;
      assert ms[i].id == id;
    }
  }

  /** The map has the listed ids and no others. */
  lemma {:induction false} ChecksumIds(ms: seq<Migration>, id: string)
    ensures id in Checksums(ms) <==> HasId(ms, id)
  {
    if ms != [] {
      ChecksumIds(ms[..|ms| - 1], id);
      HasIdSnoc(ms, id);
    }
  }

  /** With distinct ids it has each one's checksum, and their number. */
  lemma {:induction false} ChecksumKeys(ms: seq<Migration>)
    ensures forall id :: id in Checksums(ms) <==> HasId(ms, id)
    ensures Distinct(ms) ==> forall i | 0 <= i < |ms| :: ms[i].id in Checksums(ms) && Checksums(ms)[ms[i].id] == ms[i].checksum
    ensures Distinct(ms) ==> |Checksums(ms)| == |ms|
  {
    forall id ensures id in Checksums(ms) <==> HasId(ms, id) {
      ChecksumIds(ms, id);
    }
    if ms != [] && Distinct(ms) {
      var init, last := ms[..|ms| - 1], ms[|ms| - 1];
      ChecksumKeys(init);
      assert forall i | 0 <= i < |init| :: init[i] == ms[i] && init[i].id != last.id;
      ChecksumIds(init, last.id);
    }
  }

  datatype Warning = VersionsIncomparable | NewerApplication | SchemaState(state: string) | MigrationDiffers(id: string)

  datatype Verdict = Verdict(compatible: bool, warnings: seq<Warning>)

  /** The consistency a recorded schema must show. */
  ghost predicate Consistent(schema: map<string, Json>, applied: map<string, string>, available: map<string, string>) {
    && Get(schema, "state").Str?
    && var state := Get(schema, "state").s;
    && (state == "current" || state == "behind" || state == "drift" || state == "untracked")
    && (state == "current" ==> applied == available)
    && (state == "behind" ==>
          applied.Keys < available.Keys && forall id | id in applied :: available[id] == applied[id])
    && (state == "untracked" ==> applied == map[])
  }

  ghost predicate GoodSchema(database: map<string, Json>, applied: seq<Migration>, available: seq<Migration>) {
    && Get(database, "schema").Obj?
    && var schema := Get(database, "schema").fields;
    && Reads(Get(schema, "applied"), applied) && Reads(Get(schema, "available"), available)
    && Consistent(schema, Checksums(applied), Checksums(available))
  }

  /** The installation's own version and migrations. `major` is the first number of a version that has three. */
  datatype Installation = Installation(major: string -> Option<nat>, version: string, migrations: map<string, string>)

  predicate VersionFits(here: Installation, version: string) {
    && here.major(version).Some? && here.major(here.version).Some?
    && here.major(version).value <= here.major(here.version).value
  }

  predicate Differs(here: Installation, applied: map<string, string>, id: string)
    requires id in applied
  {
    id !in here.migrations || here.migrations[id] != applied[id]
  }

  /** Every applied migration is here with its checksum. */
  ghost predicate SchemaFits(here: Installation, state: string, applied: map<string, string>) {
    (state == "current" || state == "behind") && applied.Items <= here.migrations.Items
  }

  function VersionWarnings(here: Installation, version: string): seq<Warning> {
    if here.major(version).None? || here.major(here.version).None? then [VersionsIncomparable]
    else if here.major(version).value > here.major(here.version).value then [NewerApplication]
    else []
  }

  /** The warnings are exactly the reasons for incompatibility. */
  ghost predicate Explained(
    here: Installation, version: string, state: Option<string>, applied: map<string, string>, warnings: seq<Warning>)
  {
    forall w :: w in warnings <==>
      match w
      case VersionsIncomparable => here.major(version).None? || here.major(here.version).None?
      case NewerApplication =>
        here.major(version).Some? && here.major(here.version).Some?
        && here.major(version).value > here.major(here.version).value
      case SchemaState(s) => state == Some(s) && (s == "drift" || s == "untracked")
      case MigrationDiffers(id) => state.Some? && id in applied && (id, applied[id]) !in here.migrations.Items
  }

  /** Judges a validated manifest's application version and database section. */
  method Compatibility(here: Installation, version: string, database: map<string, Json>)
    returns (r: Result<Verdict, Error>, ghost applied: seq<Migration>)
    ensures r.Err? ==>
              r.error == IntegrityError && Get(database, "included") == Bool(true)
              && forall a, b :: !GoodSchema(database, a, b)
    ensures r.Ok? && Get(database, "included") == Bool(true) ==>
              exists available :: GoodSchema(database, applied, available)
    ensures r.Ok? ==>
              && (r.value.compatible <==> r.value.warnings == [])
              && Explained(here, version,
                   if Get(database, "included") == Bool(true) then Some(Get(Get(database, "schema").fields, "state").s) else None,
                   Checksums(applied), r.value.warnings)
              && (r.value.compatible <==>
                    && VersionFits(here, version)
                    && (Get(database, "included") == Bool(true) ==>
                          SchemaFits(here, Get(Get(database, "schema").fields, "state").s, Checksums(applied))))
  {
    applied := [];
    var warnings := VersionWarnings(here, version);
    var compatible := warnings == [];
    if Get(database, "included") == Bool(true) {
      var appliedById;
      ghost var available;
      appliedById, applied, available := ReadSchema(database);
      if appliedById.Err? {
        return Err(IntegrityError), applied;
      }
      var state := Get(Get(database, "schema").fields, "state").s;
      if state == "drift" || state == "untracked" {
        warnings, compatible := warnings + [SchemaState(state)], false;
      }
      var more := DifferingMigrations(here, appliedById.value);
      warnings, compatible := warnings + more, compatible && more == [];
    }
    r := Ok(Verdict(compatible, warnings));
  }

  /** The checksums of the applied migrations, if the schema section is in order. */
  method ReadSchema(database: map<string, Json>)
    returns (r: Result<map<string, string>, Error>, ghost applied: seq<Migration>, ghost available: seq<Migration>)
    ensures r.Ok? ==> GoodSchema(database, applied, available) && r.value == Checksums(applied)
    ensures r.Err? ==> r.error == IntegrityError && forall a, b :: !GoodSchema(database, a, b)
  {
    applied, available := [], [];
    if !Get(database, "schema").Obj? {
      return Err(IntegrityError), applied, available;
    }
    var schema := Get(database, "schema").fields;
    var appliedById, appliedList := MigrationChecksums(Get(schema, "applied"));
    if appliedById.Err? {
      return Err(IntegrityError), applied, available;
    }
    var availableById, availableList := MigrationChecksums(Get(schema, "available"));
    if availableById.Err? {
      return Err(IntegrityError), applied, available;
    }
    forall a, b | GoodSchema(database, a, b) ensures a == appliedList && b == availableList {
      ReadOnce(Get(schema, "applied"), a, appliedList);
      ReadOnce(Get(schema, "available"), b, availableList);
    }
    var consistent := CheckState(schema, appliedById.value, availableById.value);
    if !consistent {
      return Err(IntegrityError), applied, available;
    }
    return appliedById, appliedList, availableList;
  }

  lemma ReadOnce(list: Json, a: seq<Migration>, b: seq<Migration>)
    requires Reads(list, a) && Reads(list, b)
    ensures a == b
  {
    assert forall i | 0 <= i < |a| :: Some(a[i]) == Some(b[i]);
  }

  method CheckState(schema: map<string, Json>, applied: map<string, string>, available: map<string, string>)
    returns (ok: bool)
    ensures ok == Consistent(schema, applied, available)
  {
    if !Get(schema, "state").Str? {
      return false;
    }
    var state := Get(schema, "state").s;
    if state != "current" && state != "behind" && state != "drift" && state != "untracked" {
      return false;
    }
    if state == "current" && applied != available {
      return false;
    }
    if state == "behind" {
      if !(applied.Keys < available.Keys) {
        return false;
      }
      if exists id | id in applied :: available[id] != applied[id] {
        return false;
      }
    }
    return state == "untracked" ==> applied == map[];
  }

  method DifferingMigrations(here: Installation, applied: map<string, string>) returns (warnings: seq<Warning>)
    ensures forall w :: w in warnings <==>
              w.MigrationDiffers? && w.id in applied && (w.id, applied[w.id]) !in here.migrations.Items
    ensures warnings == [] <==> applied.Items <= here.migrations.Items
  {
    warnings := [];
    var left := applied.Keys;
    while left != {}
      invariant left <= applied.Keys
      invariant forall w :: w in warnings <==>
                  w.MigrationDiffers? && w.id in applied.Keys - left && Differs(here, applied, w.id)
      decreases left
    {
      var id :| id in left;
      left := left - {id};
      if Differs(here, applied, id) {
        warnings := warnings + [MigrationDiffers(id)];
      }
    }
    forall id | id in applied ensures (id, applied[id]) in here.migrations.Items <==> MigrationDiffers(id) !in warnings {
    }
    if warnings != [] {
      assert warnings[0] in warnings && (warnings[0].id, applied[warnings[0].id]) in applied.Items;
    }
    forall item | item in applied.Items ensures warnings == [] ==> item in here.migrations.Items {
      assert item == (item.0, applied[item.0]) && MigrationDiffers(item.0) !in [];
    }
  }

  // ----- A fresh record against the verifier -----

  ghost predicate Recordable(ms: seq<Migration>) {
    Distinct(ms) && forall m | m in ms :: m.id != "" && IsChecksum(m.checksum)
  }

  lemma RecordReads(ms: seq<Migration>)
    requires Recordable(ms)
    ensures Reads(MigrationList(ms), ms)
  {
    forall i | 0 <= i < |ms| ensures ReadMigration(MigrationJson(ms[i])) == Some(ms[i]) {
      assert ms[i] in ms;
    }
  }

  /** What is recorded reads back, with the name of the ledger and the state. */
  lemma RecordedFields(ledger: Option<seq<Migration>>, available: seq<Migration>)
    requires Recordable(Applied(ledger)) && Recordable(available)
    ensures var fields := SchemaFields(ledger, available);
            && Get(fields, "ledger") == Str(if ledger.Some? then "schema_migrations_v2" else "missing")
            && Get(fields, "state") == Str(StateOf(ledger, available))
            && Reads(Get(fields, "applied"), if ledger.Some? then ledger.value else [])
            && Reads(Get(fields, "available"), available)
  {
    RecordReads(Applied(ledger));
    RecordReads(available);
  }

  lemma SubMapBySize(small: map<string, string>, big: map<string, string>)
    requires forall id | id in small :: id in big && big[id] == small[id]
    ensures |small| <= |big|
    ensures |small| == |big| <==> small == big
    ensures small != big <==> small.Keys < big.Keys
  {
    var difference := big.Keys - small.Keys;
    assert small.Keys <= big.Keys;
    assert big.Keys == small.Keys + difference;
    assert |big.Keys| == |small.Keys| + |difference|;
    if difference == {} {
      assert small.Keys == big.Keys;
      assert small == big;
    }
  }

  /** The state recorded at creation always passes the verifier's own consistency checks. */
  lemma FreshSchemaIsConsistent(ledger: Option<seq<Migration>>, available: seq<Migration>, database: map<string, Json>)
    requires Recordable(Applied(ledger)) && Recordable(available)
    requires Get(database, "schema") == Obj(SchemaFields(ledger, available))
    ensures GoodSchema(database, Applied(ledger), available)
  {
    RecordReads(Applied(ledger));
    RecordReads(available);
    ConsistentState(ledger, available, SchemaFields(ledger, available));
  }

  lemma ConsistentState(ledger: Option<seq<Migration>>, available: seq<Migration>, schema: map<string, Json>)
    requires Distinct(Applied(ledger)) && Distinct(available)
    requires Get(schema, "state") == Str(StateOf(ledger, available))
    ensures Consistent(schema, Checksums(Applied(ledger)), Checksums(available))
  {
    StatesDiffer();
    if ledger.Some? && StateOf(ledger, available) != "drift" {
      ChecksumKeys(ledger.value);
      ChecksumKeys(available);
      NoDriftSubMap(ledger.value, available);
      SubMapBySize(Checksums(ledger.value), Checksums(available));
    }
  }

  lemma NoDriftSubMap(applied: seq<Migration>, available: seq<Migration>)
    requires Distinct(applied) && StateOf(Some(applied), available) != "drift"
    ensures forall id | id in Checksums(applied) ::
              id in Checksums(available) && Checksums(available)[id] == Checksums(applied)[id]
  {
    ChecksumKeys(applied);
    forall id | id in Checksums(applied)
      ensures id in Checksums(available) && Checksums(available)[id] == Checksums(applied)[id]
    {
      var i :| 0 <= i < |applied| && applied[i].id == id;
      assert applied[i] in applied;
    }
  }

  /** Each state told by the ledger's map and the local one: the comparison of lengths is a comparison of maps. */
  lemma StateExactly(ledger: Option<seq<Migration>>, available: seq<Migration>)
    requires Distinct(Applied(ledger)) && Distinct(available)
    ensures var state, ran, local := StateOf(ledger, available), Checksums(Applied(ledger)), Checksums(available);
            && (state == "untracked" <==> ledger.None?)
            && (state == "current" <==> ledger.Some? && ran == local)
            && (state == "behind" <==> ledger.Some? && ran.Items < local.Items)
            && (state == "drift" <==> ledger.Some? && !(ran.Items <= local.Items))
  {
    StatesDiffer();
    if ledger.Some? {
      DriftExactly(ledger.value, available);
      ChecksumKeys(ledger.value);
      ChecksumKeys(available);
      ItemsExactly(Checksums(ledger.value), Checksums(available));
      if Checksums(ledger.value).Items <= Checksums(available).Items {
        SubMapBySize(Checksums(ledger.value), Checksums(available));
      }
    }
  }

  lemma DriftExactly(applied: seq<Migration>, available: seq<Migration>)
    requires Distinct(applied)
    ensures (exists m | m in applied :: m.id !in Checksums(available) || Checksums(available)[m.id] != m.checksum)
            <==> !(Checksums(applied).Items <= Checksums(available).Items)
  {
    var ran, local := Checksums(applied), Checksums(available);
    ChecksumKeys(applied);
    if m :| m in applied && (m.id !in local || local[m.id] != m.checksum) {
      var i :| 0 <= i < |applied| && applied[i] == m;
      assert (applied[i].id, applied[i].checksum) in ran.Items;
    }
    if item :| item in ran.Items && item !in local.Items {
      var i :| 0 <= i < |applied| && applied[i].id == item.0;
      assert applied[i] in applied;
    }
  }

  lemma ItemsExactly(small: map<string, string>, big: map<string, string>)
    ensures small.Items <= big.Items <==> forall id | id in small :: id in big && big[id] == small[id]
    ensures small.Items == big.Items <==> small == big
  {
    if small.Items <= big.Items {
      forall id | id in small ensures id in big && big[id] == small[id] {
        assert (id, small[id]) in big.Items;
      }
    }
    if small.Items == big.Items {
      forall id | id in big ensures id in small && small[id] == big[id] {
        assert (id, big[id]) in small.Items;
      }
    }
  }

  lemma StatesDiffer()
    ensures "current" != "behind" && "current" != "drift" && "current" != "untracked"
    ensures "behind" != "drift" && "behind" != "untracked" && "drift" != "untracked"
  {
    assert "current"[0] == 'c' && "behind"[0] == 'b' && "drift"[0] == 'd' && "untracked"[0] == 'u';
  }

  /** On the installation that recorded it, a schema fits exactly when there is a ledger and it is a part of the local
    * list.
    */
  lemma FreshSchemaFits(here: Installation, ledger: Option<seq<Migration>>, available: seq<Migration>)
    requires Recordable(Applied(ledger)) && Recordable(available) && here.migrations == Checksums(available)
    ensures SchemaFits(here, StateOf(ledger, available), Checksums(Applied(ledger))) <==>
            ledger.Some? && Checksums(ledger.value).Items <= Checksums(available).Items
  {
    StateExactly(ledger, available);
    ItemsExactly(Checksums(Applied(ledger)), Checksums(available));
  }
}
