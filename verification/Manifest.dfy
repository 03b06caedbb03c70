/** The snapshot manifest: what `create_snapshot` writes, what verification demands, and the
  * artifacts it speaks for (robothor/snapshot.py:558-575, 717-749, 845-880, 915-1072).
  */
module Manifest {
  import opened Wrappers
  import opened Bytes
  import opened Json
  import opened Workspace
  import opened Archive
  import Lines
  import opened Text

  const MANIFEST_NAME := "manifest.json"
  const DUMP_NAME := "database.dump"
  const WORKSPACE_NAME := "workspace.tar.gz"

  // ----- Writing -----

  datatype Database = Database(name: string, schema: map<string, Json>)

  /** Where an instance may get its id and its name: the environment, the federation file, the host. */
  datatype Surroundings = Surroundings(
    environmentId: string,
    environmentName: string,
    federation: Option<(string, string)>,
    node: string)

  datatype Instance = Instance(id: string, name: string)

  /** `_instance_metadata`: the environment comes before the federation file, and that before the host; what is blank
    * does not count, and neither is ever empty.
    */
  function InstanceMetadata(s: Surroundings): (r: Instance)
    ensures r.id != "" && r.name != ""
    ensures !IsBlank(s.environmentId) ==> r.id == Lines.Strip(s.environmentId)
    ensures IsBlank(s.environmentId) && s.federation.Some? && !IsBlank(s.federation.value.0) ==>
              r.id == Lines.Strip(s.federation.value.0)
    ensures IsBlank(s.environmentId) && (s.federation.None? || IsBlank(s.federation.value.0)) && s.node != "" ==>
              r.id == s.node
    ensures IsBlank(s.environmentId) && (s.federation.None? || IsBlank(s.federation.value.0)) && s.node == "" ==>
              r.id == "unknown"
    ensures !IsBlank(s.environmentName) ==> r.name == Lines.Strip(s.environmentName)
    ensures IsBlank(s.environmentName) && s.federation.Some? && !IsBlank(s.federation.value.1) ==>
              r.name == Lines.Strip(s.federation.value.1)
    ensures IsBlank(s.environmentName) && (s.federation.None? || IsBlank(s.federation.value.1)) ==> r.name == "Genus OS"
  {
    Lines.StripsToNothing(s.environmentId);
    Lines.StripsToNothing(s.environmentName);
    if s.federation.Some? then
      Lines.StripsToNothing(s.federation.value.0);
      Lines.StripsToNothing(s.federation.value.1);
      Instanced(s)
    else Instanced(s)
  }

  function Instanced(s: Surroundings): Instance {
    var id, name := Lines.Strip(s.environmentId), Lines.Strip(s.environmentName);
    var id', name' :=
      if id == "" && s.federation.Some? then Lines.Strip(s.federation.value.0) else id,
      if name == "" && s.federation.Some? then Lines.Strip(s.federation.value.1) else name;
    Instance(
      if id' != "" then id' else if s.node != "" then s.node else "unknown",
      if name' != "" then name' else "Genus OS")
  }

  /** What one `create_snapshot` call puts into its manifest. */
  datatype Request = Request(
    moment: int,
    version: string,
    surroundings: Surroundings,
    database: Option<Database>,
    workspace: Option<seq<Entry>>,
    includeSecrets: bool,
    encrypt: bool)
  {
    /** The combinations of flags that `create_snapshot` accepts. */
    predicate Accepted() {
      && (database.Some? || workspace.Some?)
      && (includeSecrets ==> workspace.Some? && encrypt)
    }
  }

  datatype Artifact = Artifact(path: string, kind: string, size: int, sha256: string)

  function KindOf(path: string): string {
    if path == DUMP_NAME then "postgresql-custom" else "workspace-tar-gzip"
  }

  function ArtifactOf(platform: Platform, path: string, content: bytes): Artifact {
    Artifact(path, KindOf(path), |content|, platform.sha256(content))
  }

  function ArtifactJson(a: Artifact): Json {
    Obj(map["path" := Str(a.path), "kind" := Str(a.kind), "size" := Int(a.size), "sha256" := Str(a.sha256)])
  }

  function ArtifactList(artifacts: seq<Artifact>): Json {
    List(seq(|artifacts|, i requires 0 <= i < |artifacts| => ArtifactJson(artifacts[i])))
  }

  /** The files of the staging directory, in the order they are archived. */
  function StagedFiles(dump: Option<bytes>, workspace: Option<bytes>): seq<(string, bytes)> {
    (if dump.Some? then [(DUMP_NAME, dump.value)] else [])
    + (if workspace.Some? then [(WORKSPACE_NAME, workspace.value)] else [])
  }

  function ArtifactsOf(platform: Platform, staged: seq<(string, bytes)>): seq<Artifact> {
    seq(|staged|, i requires 0 <= i < |staged| => ArtifactOf(platform, staged[i].0, staged[i].1))
  }

  function DatabaseSection(database: Option<Database>): Json {
    match database
    case Some(d) => Obj(map[
      "included" := Bool(true), "engine" := Str("postgresql"), "name" := Str(d.name),
      "dump_format" := Str("custom"), "schema" := Obj(d.schema)])
    case None => Obj(map[
      "included" := Bool(false), "engine" := Str("postgresql"), "name" := Null, "dump_format" := Null,
      "schema" := Obj(map["ledger" := Str("not-captured"), "state" := Str("not-captured"), "applied" := List([])])])
  }

  function WorkspaceSection(entries: Option<seq<Entry>>, includeSecrets: bool): Json {
    Obj(map[
      "included" := Bool(entries.Some?),
      "files" := if entries.Some? then FileList(entries.value) else List([]),
      "contains_vault_key" := Bool(includeSecrets)])
  }

  function ManifestJson(platform: Platform, q: Request, artifacts: seq<Artifact>): map<string, Json> {
    ManifestOf(
      Str(platform.clock(q.moment)),
      Obj(map["name" := Str("Genus OS"), "version" := Str(q.version)]),
      InstanceSection(InstanceMetadata(q.surroundings)),
      DatabaseSection(q.database),
      WorkspaceSection(q.workspace, q.includeSecrets),
      ProtectionSection(q.encrypt, q.includeSecrets),
      ArtifactList(artifacts))
  }

  function InstanceSection(instance: Instance): Json {
    Obj(map["id" := Str(instance.id), "name" := Str(instance.name)])
  }

  function ProtectionSection(encrypt: bool, includeSecrets: bool): Json {
    Obj(map[
      "encrypted" := Bool(encrypt),
      "algorithm" := if encrypt then Str("AES-256-GCM") else Null,
      "secret_bearing" := Bool(includeSecrets)])
  }

  function ManifestOf(
    created: Json, application: Json, instance: Json, database: Json, workspace: Json, protection: Json, artifacts: Json)
    : map<string, Json>
  {
    map[
      "format" := Str("genusos-snapshot"),
      "format_version" := Int(1),
      "created_at" := created,
      "application" := application,
      "instance" := instance,
      "database" := database,
      "workspace" := workspace,
      "protection" := protection,
      "artifacts" := artifacts]
  }

  // ----- Validating -----

  predicate IsTrue(section: Json, key: string) {
    section.Obj? && Get(section.fields, key) == Bool(true)
  }

  function ReadArtifact(value: Json): Option<Artifact> {
    match value
    case Obj(fields) => (
      match (Get(fields, "path"), Get(fields, "size"), Get(fields, "sha256"))
      case (Str(path), Int(size), Str(checksum)) =>
        if (path == DUMP_NAME || path == WORKSPACE_NAME) && Get(fields, "kind") == Str(KindOf(path))
           && size >= 0 && IsChecksum(checksum)
        then Some(Artifact(path, KindOf(path), size, checksum)) else None
      case _ => None)
    case _ => None
  }

  /** The manifest's artifact list is exactly `artifacts`, each file once. */
  ghost predicate DeclaresArtifacts(m: map<string, Json>, artifacts: seq<Artifact>) {
    && Get(m, "artifacts").List?
    && var items := Get(m, "artifacts").items;
    && |items| == |artifacts|
    && (forall i | 0 <= i < |items| :: ReadArtifact(items[i]) == Some(artifacts[i]))
    && forall i, j | 0 <= i < j < |artifacts| :: artifacts[i].path != artifacts[j].path
  }

  function PathsOf(artifacts: seq<Artifact>): set<string> {
    set a | a in artifacts :: a.path
  }

  // ----- What a manifest says -----

  /** Everything verification reads from a manifest of the current format. */
  datatype Summary = Summary(
    created: string,
    version: string,
    id: string,
    database: Option<Database>,
    workspace: bool,
    secrets: bool,
    encrypted: bool,
    artifacts: seq<Artifact>)

  function In(m: map<string, Json>, section: string, key: string): Json {
    match Get(m, section)
    case Obj(fields) => Get(fields, key)
    case _ => Null
  }

  /** The manifest spells out the summary, field by field. */
  ghost predicate Shows(m: map<string, Json>, s: Summary) {
    && KnownFormat(m) && KnownVersion(m) && ShowsHeader(m, s.created, s.version, s.id)
    && ShowsDatabase(m, s.database)
    && ShowsWorkspace(m, s.workspace, s.secrets)
    && ShowsProtection(m, s.encrypted, s.secrets)
    && DeclaresArtifacts(m, s.artifacts)
  }

  ghost predicate ShowsHeader(m: map<string, Json>, created: string, version: string, id: string) {
    && Get(m, "created_at") == Str(created)
    && In(m, "application", "version") == Str(version) && In(m, "instance", "id") == Str(id)
  }

  ghost predicate ShowsDatabase(m: map<string, Json>, database: Option<Database>) {
    && Get(m, "database").Obj?
    && (In(m, "database", "included") == Bool(true) <==> database.Some?)
    && (database.Some? ==>
          && In(m, "database", "engine") == Str("postgresql") && In(m, "database", "dump_format") == Str("custom")
          && In(m, "database", "name") == Str(database.value.name)
          && In(m, "database", "schema") == Obj(database.value.schema))
  }

  ghost predicate ShowsWorkspace(m: map<string, Json>, included: bool, secrets: bool) {
    && Get(m, "workspace").Obj?
    && (In(m, "workspace", "included") == Bool(true) <==> included)
    && (In(m, "workspace", "contains_vault_key") == Bool(true) <==> secrets)
    && (!included ==> In(m, "workspace", "files") == List([]))
  }

  ghost predicate ShowsProtection(m: map<string, Json>, encrypted: bool, secrets: bool) {
    && Get(m, "protection").Obj?
    && In(m, "protection", "encrypted") == Bool(encrypted)
    && In(m, "protection", "algorithm") == (if encrypted then Str("AES-256-GCM") else Null)
    && (In(m, "protection", "secret_bearing") == Bool(true) <==> secrets)
  }

  /** The summary makes sense: it has a time and names, secrets are encrypted and in a workspace, and there is one
    * artifact for each part and no other.
    */
  predicate Consistent(s: Summary, timestamp: string -> Option<bool>) {
    && timestamp(s.created) == Some(true) && s.id != ""
    && (s.database.Some? ==> s.database.value.name != "")
    && (s.secrets ==> s.encrypted && s.workspace)
    && PathsOf(s.artifacts)
       == (if s.database.Some? then {DUMP_NAME} else {}) + (if s.workspace then {WORKSPACE_NAME} else {})
  }

  /** What a manifest of the current format must satisfy. */
  ghost predicate Sound(m: map<string, Json>, encrypted: bool, timestamp: string -> Option<bool>) {
    exists s :: Shows(m, s) && s.encrypted == encrypted && Consistent(s, timestamp)
  }

  lemma ShowsOnce(m: map<string, Json>, a: Summary, b: Summary)
    requires Shows(m, a) && Shows(m, b)
    ensures a == b
  {
    ArtifactsDeclaredOnce(m, a.artifacts, b.artifacts);
  }

  predicate KnownFormat(m: map<string, Json>) {
    Get(m, "format") == Str("genusos-snapshot")
  }

  predicate KnownVersion(m: map<string, Json>) {
    Get(m, "format_version") == Int(1)
  }

  lemma ArtifactsDeclaredOnce(m: map<string, Json>, a: seq<Artifact>, b: seq<Artifact>)
    requires DeclaresArtifacts(m, a) && DeclaresArtifacts(m, b)
    ensures a == b
  {
    assert forall i | 0 <= i < |a| :: Some(a[i]) == Some(b[i]);
  }

  /** The loop over the artifacts; `names` are the paths seen. */
  method ReadArtifacts(m: map<string, Json>) returns (r: Option<seq<Artifact>>, names: set<string>)
    ensures r.Some? ==> DeclaresArtifacts(m, r.value) && names == PathsOf(r.value)
    ensures r.Some? ==> names <= {DUMP_NAME, WORKSPACE_NAME}
    ensures r.None? ==> forall artifacts :: !DeclaresArtifacts(m, artifacts)
  {
    names := {};
    var list := Get(m, "artifacts");
    if !list.List? {
      return None, names;
    }
    var artifacts: seq<Artifact> := [];
    for i := 0 to |list.items|
      invariant |artifacts| == i
      invariant forall k | 0 <= k < i :: ReadArtifact(list.items[k]) == Some(artifacts[k])
      invariant names == PathsOf(artifacts) && names <= {DUMP_NAME, WORKSPACE_NAME}
      invariant forall k, l | 0 <= k < l < i :: artifacts[k].path != artifacts[l].path
    {
      var artifact := ReadArtifact(list.items[i]);
      if artifact.None? {
        return None, names;
      }
      if artifact.value.path in names {
        var k :| 0 <= k < i && artifacts[k].path == artifact.value.path;
        forall other ensures !DeclaresArtifacts(m, other) {
          if DeclaresArtifacts(m, other) {
            ArtifactsDistinct(m, other, k, i);
          }
        }
        return None, names;
      }
      artifacts, names := artifacts + [artifact.value], names + {artifact.value.path};
    }
    return Some(artifacts), names;
  }

  lemma ArtifactsDistinct(m: map<string, Json>, artifacts: seq<Artifact>, i: nat, j: nat)
    requires DeclaresArtifacts(m, artifacts) && i < j < |artifacts|
    ensures var items := Get(m, "artifacts").items;
            && ReadArtifact(items[i]).Some? && ReadArtifact(items[j]).Some?
            && ReadArtifact(items[i]).value.path != ReadArtifact(items[j]).value.path
  {
    assert artifacts[i].path != artifacts[j].path;
  }

  /** `_validate_manifest`, check by check. */
  method ValidateManifest(m: map<string, Json>, encrypted: bool, timestamp: string -> Option<bool>)
    returns (r: Outcome<Error>)
    ensures r == Fail(CompatibilityError) <==> KnownFormat(m) && !KnownVersion(m)
    ensures r.Pass? <==> Sound(m, encrypted, timestamp)
    ensures r.Fail? ==> r.error == CompatibilityError || r.error == IntegrityError
  {
    SoundHas(m, encrypted, timestamp);
    if Get(m, "format") != Str("genusos-snapshot") {
      return Fail(IntegrityError);
    }
    if !Get(m, "format_version").Int? || Get(m, "format_version").i != 1 {
      return Fail(CompatibilityError);
    }
    var header := CheckHeader(m, timestamp);
    if !header {
      return Fail(IntegrityError);
    }
    var safe, secrets := CheckProtection(m, encrypted);
    if !safe {
      return Fail(IntegrityError);
    }
    var artifacts, expectedNames := ReadArtifacts(m);
    if artifacts.None? {
      return Fail(IntegrityError);
    }
    var complete := CheckParts(m, expectedNames, secrets);
    SoundExactly(m, encrypted, timestamp, secrets, artifacts.value);
    return if complete then Pass else Fail(IntegrityError);
  }

  ghost predicate HeaderIs(m: map<string, Json>, timestamp: string -> Option<bool>) {
    exists created, version, id :: ShowsHeader(m, created, version, id) && timestamp(created) == Some(true) && id != ""
  }

  ghost predicate ProtectionIs(m: map<string, Json>, encrypted: bool, secrets: bool) {
    && ShowsProtection(m, encrypted, secrets) && (secrets ==> encrypted)
    && Get(m, "database").Obj? && Get(m, "workspace").Obj?
    && (In(m, "workspace", "contains_vault_key") == Bool(true) <==> secrets)
  }

  /** What a sound manifest has, check by check. */
  lemma SoundHas(m: map<string, Json>, encrypted: bool, timestamp: string -> Option<bool>)
    ensures Sound(m, encrypted, timestamp) ==>
              && KnownFormat(m) && KnownVersion(m) && HeaderIs(m, timestamp)
              && (exists secrets :: ProtectionIs(m, encrypted, secrets))
              && exists artifacts :: DeclaresArtifacts(m, artifacts)
  {
    if s :| Shows(m, s) && s.encrypted == encrypted && Consistent(s, timestamp) {
      assert ShowsHeader(m, s.created, s.version, s.id);
      assert ProtectionIs(m, encrypted, s.secrets);
    }
  }

  lemma SoundExactly(
    m: map<string, Json>, encrypted: bool, timestamp: string -> Option<bool>, secrets: bool, artifacts: seq<Artifact>)
    requires KnownFormat(m) && KnownVersion(m) && HeaderIs(m, timestamp) && ProtectionIs(m, encrypted, secrets)
    requires DeclaresArtifacts(m, artifacts)
    ensures Sound(m, encrypted, timestamp) <==>
            exists database, workspace :: PartsAre(m, database, workspace, secrets, PathsOf(artifacts))
  {
    if s :| Shows(m, s) && s.encrypted == encrypted && Consistent(s, timestamp) {
      ArtifactsDeclaredOnce(m, s.artifacts, artifacts);
      assert PartsAre(m, s.database, s.workspace, secrets, PathsOf(artifacts));
    }
    if database, workspace :| PartsAre(m, database, workspace, secrets, PathsOf(artifacts)) {
      PartsSuffice(m, encrypted, timestamp, secrets, artifacts, database, workspace);
    }
  }

  lemma PartsSuffice(
    m: map<string, Json>, encrypted: bool, timestamp: string -> Option<bool>, secrets: bool, artifacts: seq<Artifact>,
    database: Option<Database>, workspace: bool)
    requires KnownFormat(m) && KnownVersion(m) && HeaderIs(m, timestamp) && ProtectionIs(m, encrypted, secrets)
    requires DeclaresArtifacts(m, artifacts) && PartsAre(m, database, workspace, secrets, PathsOf(artifacts))
    ensures Sound(m, encrypted, timestamp)
  {
    var created, version, id :| ShowsHeader(m, created, version, id) && timestamp(created) == Some(true) && id != "";
    assert Shows(m, Summary(created, version, id, database, workspace, secrets, encrypted, artifacts));
  }

  method CheckHeader(m: map<string, Json>, timestamp: string -> Option<bool>) returns (ok: bool)
    ensures ok <==> HeaderIs(m, timestamp)
  {
    var created := Get(m, "created_at");
    if !created.Str? || timestamp(created.s) != Some(true) {
      return false;
    }
    var application := Get(m, "application");
    if !application.Obj? || !Get(application.fields, "version").Str? {
      return false;
    }
    var instance := Get(m, "instance");
    if !instance.Obj? || !Get(instance.fields, "id").Str? || Get(instance.fields, "id").s == "" {
      return false;
    }
    assert ShowsHeader(m, created.s, Get(application.fields, "version").s, Get(instance.fields, "id").s);
    return true;
  }

  method CheckProtection(m: map<string, Json>, encrypted: bool) returns (ok: bool, secrets: bool)
    ensures ok ==> ProtectionIs(m, encrypted, secrets)
    ensures !ok ==> forall flag :: !ProtectionIs(m, encrypted, flag)
  {
    secrets := false;
    var database, workspace, protection := Get(m, "database"), Get(m, "workspace"), Get(m, "protection");
    if !database.Obj? || !workspace.Obj? || !protection.Obj? {
      return false, secrets;
    }
    if Get(protection.fields, "encrypted") != Bool(encrypted) {
      return false, secrets;
    }
    if Get(protection.fields, "algorithm") != (if encrypted then Str("AES-256-GCM") else Null) {
      return false, secrets;
    }
    secrets := Get(protection.fields, "secret_bearing") == Bool(true);
    if secrets != (Get(workspace.fields, "contains_vault_key") == Bool(true)) || (secrets && !encrypted) {
      return false, secrets;
    }
    return true, secrets;
  }

  /** The two parts a manifest says it has, with names for each of them and no more. */
  ghost predicate PartsAre(
    m: map<string, Json>, database: Option<Database>, workspace: bool, secrets: bool, names: set<string>)
  {
    && ShowsDatabase(m, database) && ShowsWorkspace(m, workspace, secrets)
    && (database.Some? ==> database.value.name != "") && (secrets ==> workspace)
    && names == (if database.Some? then {DUMP_NAME} else {}) + (if workspace then {WORKSPACE_NAME} else {})
  }

  method CheckParts(m: map<string, Json>, expectedNames: set<string>, secrets: bool) returns (ok: bool)
    requires Get(m, "database").Obj? && Get(m, "workspace").Obj? && expectedNames <= {DUMP_NAME, WORKSPACE_NAME}
    requires In(m, "workspace", "contains_vault_key") == Bool(true) <==> secrets
    ensures ok <==> exists database, workspace :: PartsAre(m, database, workspace, secrets, expectedNames)
  {
    NamesDiffer();
    var database, workspace := Get(m, "database").fields, Get(m, "workspace").fields;
    var hasDatabase, hasWorkspace := Get(database, "included") == Bool(true), Get(workspace, "included") == Bool(true);
    if hasDatabase != (DUMP_NAME in expectedNames) || hasWorkspace != (WORKSPACE_NAME in expectedNames) {
      return false;
    }
    if hasDatabase {
      if Get(database, "engine") != Str("postgresql") || Get(database, "dump_format") != Str("custom") {
        return false;
      }
      if !Get(database, "name").Str? || Get(database, "name").s == "" || !Get(database, "schema").Obj? {
        return false;
      }
    }
    if !hasWorkspace && (Get(workspace, "files") != List([]) || secrets) {
      return false;
    }
    assert PartsAre(
        m, if hasDatabase then Some(Database(Get(database, "name").s, Get(database, "schema").fields)) else None,
        hasWorkspace, secrets, expectedNames);
    return true;
  }

  // ----- Artifacts -----

  /** The extracted files are the manifest and exactly the declared artifacts, unaltered. */
  ghost predicate ArtifactsAgree(platform: Platform, artifacts: seq<Artifact>, extracted: map<string, bytes>) {
    && extracted.Keys == {MANIFEST_NAME} + PathsOf(artifacts)
    && forall a | a in artifacts ::
         |extracted[a.path]| == a.size && platform.sha256(extracted[a.path]) == a.sha256
  }

  /** The artifacts a manifest declares agree with the extracted files. */
  ghost predicate ArtifactsPass(platform: Platform, m: map<string, Json>, extracted: map<string, bytes>) {
    exists artifacts :: DeclaresArtifacts(m, artifacts) && ArtifactsAgree(platform, artifacts, extracted)
  }

  /** `_verify_artifacts`, over a manifest that has been validated. */
  method VerifyArtifacts(platform: Platform, m: map<string, Json>, extracted: map<string, bytes>)
    returns (r: Outcome<Error>)
    requires exists artifacts :: DeclaresArtifacts(m, artifacts)
    ensures r.Pass? <==> ArtifactsPass(platform, m, extracted)
    ensures r.Fail? ==> r.error == IntegrityError
  {
    ghost var artifacts: seq<Artifact> :| DeclaresArtifacts(m, artifacts);
    forall other | DeclaresArtifacts(m, other) ensures other == artifacts {
      ArtifactsDeclaredOnce(m, other, artifacts);
    }
    var items := Get(m, "artifacts").items;
    var expected: set<string> := {MANIFEST_NAME};
    for i := 0 to |items|
      invariant expected == {MANIFEST_NAME} + PathsOf(artifacts[..i])
    {
      ItemIs(m, artifacts, i);
      expected := expected + {Get(items[i].fields, "path").s};
    }
    assert artifacts[..|artifacts|] == artifacts;
    if extracted.Keys != expected {
      return Fail(IntegrityError);
    }
    for i := 0 to |items|
      invariant forall a | a in artifacts[..i] ::
                  |extracted[a.path]| == a.size && platform.sha256(extracted[a.path]) == a.sha256
    {
      ItemIs(m, artifacts, i);
      assert artifacts[i] in artifacts;
      var content := extracted[Get(items[i].fields, "path").s];
      if |content| != Get(items[i].fields, "size").i || platform.sha256(content) != Get(items[i].fields, "sha256").s {
        return Fail(IntegrityError);
      }
    }
    return Pass;
  }

  lemma ItemIs(m: map<string, Json>, artifacts: seq<Artifact>, i: nat)
    requires DeclaresArtifacts(m, artifacts) && i < |artifacts|
    ensures var item := Get(m, "artifacts").items[i];
            && item.Obj? && Get(item.fields, "path") == Str(artifacts[i].path)
            && Get(item.fields, "size") == Int(artifacts[i].size)
            && Get(item.fields, "sha256") == Str(artifacts[i].sha256)
    ensures PathsOf(artifacts[..i + 1]) == PathsOf(artifacts[..i]) + {artifacts[i].path}
    ensures artifacts[..i + 1] == artifacts[..i] + [artifacts[i]]
  {
    assert ReadArtifact(Get(m, "artifacts").items[i]) == Some(artifacts[i]);
    assert artifacts[..i + 1] == artifacts[..i] + [artifacts[i]];
  }

  // ----- Outer archive -----

  /** The outer archive: the manifest first, then the staged files. */
  function OuterMembers(platform: Platform, manifest: map<string, Json>, staged: seq<(string, bytes)>): seq<Member> {
    [Member(MANIFEST_NAME, true, 384, platform.printJson(Obj(manifest)))]
    + seq(|staged|, i requires 0 <= i < |staged| => Member(staged[i].0, true, 384, staged[i].1))
  }

  predicate AllowedName(name: string) {
    name == MANIFEST_NAME || name == DUMP_NAME || name == WORKSPACE_NAME
  }

  ghost predicate Extractable(members: seq<Member>) {
    (forall m | m in members :: AllowedName(m.name) && m.regular) && DistinctNames(members)
  }

  ghost predicate IsExtraction(members: seq<Member>, extracted: map<string, bytes>) {
    && extracted.Keys == (set m | m in members :: m.name)
    && forall m | m in members :: extracted[m.name] == m.content
  }

  /** The outer archive holds this manifest and these files. */
  ghost predicate Extracts(
    platform: Platform, members: seq<Member>, manifest: map<string, Json>, extracted: map<string, bytes>)
  {
    && Extractable(members) && IsExtraction(members, extracted) && MANIFEST_NAME in extracted
    && platform.parseJson(extracted[MANIFEST_NAME]) == Some(Obj(manifest))
  }

  method ExtractOuterArchive(platform: Platform, members: seq<Member>)
    returns (r: Result<map<string, Json>, Error>, extracted: map<string, bytes>)
    ensures r.Ok? ==> Extracts(platform, members, r.value, extracted)
    ensures r.Err? ==> r.error == IntegrityError && forall m, files :: !Extracts(platform, members, m, files)
  {
    var ok;
    ok, extracted := ExtractFiles(members);
    if !ok || MANIFEST_NAME !in extracted {
      return Err(IntegrityError), extracted;
    }
    match platform.parseJson(extracted[MANIFEST_NAME]) {
      case Some(Obj(manifest)) =>
        return Ok(manifest), extracted;
      case _ =>
        return Err(IntegrityError), extracted;
    }
  }

  method ExtractFiles(members: seq<Member>) returns (ok: bool, extracted: map<string, bytes>)
    ensures ok <==> Extractable(members)
    ensures ok ==> IsExtraction(members, extracted) && forall files | IsExtraction(members, files) :: files == extracted
  {
    extracted := map[];
    for i := 0 to |members|
      invariant Extractable(members[..i]) && IsExtraction(members[..i], extracted)
    {
      var m := members[i];
      assert members[..i + 1] == members[..i] + [m] && m in members;
      if !AllowedName(m.name) || !m.regular {
        return false, extracted;
      }
      if m.name in extracted {
        NameTwice(members, i, extracted);
        return false, extracted;
      }
      extracted := extracted[m.name := m.content];
    }
    assert members[..|members|] == members;
    forall files | IsExtraction(members, files) ensures files == extracted {
      ExtractionOnce(members, files, extracted);
    }
    return true, extracted;
  }

  lemma NameTwice(members: seq<Member>, i: nat, extracted: map<string, bytes>)
    requires i < |members| && IsExtraction(members[..i], extracted) && members[i].name in extracted
    ensures !DistinctNames(members)
  {
    var earlier :| earlier in members[..i] && earlier.name == members[i].name;
    var k :| 0 <= k < i && members[k] == earlier;
    assert members[k].name == members[i].name;
  }

  lemma ExtractionOnce(members: seq<Member>, a: map<string, bytes>, b: map<string, bytes>)
    requires IsExtraction(members, a) && IsExtraction(members, b)
    ensures a == b
  {
    forall name | name in a ensures name in b && a[name] == b[name] {
      assert name in (set m | m in members :: m.name);
    }
    assert a.Keys == b.Keys;
  }

  /** `{member.name: member}`: the last of equal names wins. */
  function ContentsOf(members: seq<Member>): (contents: map<string, bytes>)
    ensures contents.Keys == set m | m in members :: m.name
    ensures DistinctNames(members) ==> forall m | m in members :: contents[m.name] == m.content
  {
    if members == [] then map[] else
      var init, last := members[..|members| - 1], members[|members| - 1];
      assert members == init + [last];
      ContentsOf(init)[last.name := last.content]
  }

  // ----- A fresh manifest against the verifier -----

  /** `staged` is what the request's parts leave in the staging directory. */
  ghost predicate Staged(q: Request, dump: Option<bytes>, workspace: Option<bytes>) {
    dump.Some? == q.database.Some? && workspace.Some? == q.workspace.Some?
  }

  lemma FreshArtifacts(platform: Platform, q: Request, dump: Option<bytes>, workspace: Option<bytes>)
    requires platform.Hashes() && Staged(q, dump, workspace)
    ensures var artifacts := ArtifactsOf(platform, StagedFiles(dump, workspace));
            && DeclaresArtifacts(ManifestJson(platform, q, artifacts), artifacts)
            && PathsOf(artifacts)
               == (if q.database.Some? then {DUMP_NAME} else {}) + (if q.workspace.Some? then {WORKSPACE_NAME} else {})
  {
    var staged := StagedFiles(dump, workspace);
    var artifacts := ArtifactsOf(platform, staged);
    ManifestFields(platform, q, artifacts);
    StagedNames(dump, workspace);
    ListRead(platform, staged);
    ListDeclares(ManifestJson(platform, q, artifacts), artifacts);
    PathsStaged(platform, dump, workspace);
  }

  lemma ListDeclares(m: map<string, Json>, artifacts: seq<Artifact>)
    requires Get(m, "artifacts") == ArtifactList(artifacts)
    requires forall i | 0 <= i < |artifacts| :: ReadArtifact(ArtifactJson(artifacts[i])) == Some(artifacts[i])
    requires forall i, j | 0 <= i < j < |artifacts| :: artifacts[i].path != artifacts[j].path
    ensures DeclaresArtifacts(m, artifacts)
  {
  }

  lemma ListRead(platform: Platform, staged: seq<(string, bytes)>)
    requires platform.Hashes()
    requires forall i | 0 <= i < |staged| :: AllowedName(staged[i].0) && staged[i].0 != MANIFEST_NAME
    ensures var artifacts := ArtifactsOf(platform, staged);
            forall i | 0 <= i < |staged| :: ReadArtifact(ArtifactJson(artifacts[i])) == Some(artifacts[i])
  {
  }

  lemma PathsStaged(platform: Platform, dump: Option<bytes>, workspace: Option<bytes>)
    ensures PathsOf(ArtifactsOf(platform, StagedFiles(dump, workspace)))
            == (if dump.Some? then {DUMP_NAME} else {}) + (if workspace.Some? then {WORKSPACE_NAME} else {})
  {
    var artifacts := ArtifactsOf(platform, StagedFiles(dump, workspace));
    assert dump.Some? ==> artifacts[0] in artifacts && artifacts[0].path == DUMP_NAME;
    assert workspace.Some? ==>
        artifacts[|artifacts| - 1] in artifacts && artifacts[|artifacts| - 1].path == WORKSPACE_NAME;
  }

  /** The manifest's fields, one by one. */
  lemma FieldsAre(
    created: Json, application: Json, instance: Json, database: Json, workspace: Json, protection: Json, artifacts: Json)
    ensures var m := ManifestOf(created, application, instance, database, workspace, protection, artifacts);
            && KnownFormat(m) && KnownVersion(m) && Get(m, "created_at") == created
            && Get(m, "application") == application && Get(m, "instance") == instance
            && Get(m, "database") == database && Get(m, "workspace") == workspace
            && Get(m, "protection") == protection && Get(m, "artifacts") == artifacts
  {
  }

  lemma KeysAre(
    created: Json, application: Json, instance: Json, database: Json, workspace: Json, protection: Json, artifacts: Json)
    ensures var m := ManifestOf(created, application, instance, database, workspace, protection, artifacts);
            && m.Keys == {"format", "format_version", "created_at", "application", "instance", "database", "workspace",
                          "protection", "artifacts"}
            && Get(m, "format") == Str("genusos-snapshot") && Get(m, "format_version") == Int(1)
  {
  }

  lemma ManifestFields(platform: Platform, q: Request, artifacts: seq<Artifact>)
    ensures var m := ManifestJson(platform, q, artifacts);
            && KnownFormat(m) && KnownVersion(m)
            && Get(m, "created_at") == Str(platform.clock(q.moment))
            && In(m, "application", "version") == Str(q.version) && In(m, "application", "name") == Str("Genus OS")
            && In(m, "instance", "id") == Str(InstanceMetadata(q.surroundings).id)
            && In(m, "instance", "name") == Str(InstanceMetadata(q.surroundings).name)
            && Get(m, "database") == DatabaseSection(q.database)
            && Get(m, "workspace") == WorkspaceSection(q.workspace, q.includeSecrets)
            && Get(m, "protection") == ProtectionSection(q.encrypt, q.includeSecrets)
            && Get(m, "artifacts") == ArtifactList(artifacts)
  {
    FieldsAre(
      Str(platform.clock(q.moment)),
      Obj(map["name" := Str("Genus OS"), "version" := Str(q.version)]),
      InstanceSection(InstanceMetadata(q.surroundings)),
      DatabaseSection(q.database),
      WorkspaceSection(q.workspace, q.includeSecrets),
      ProtectionSection(q.encrypt, q.includeSecrets),
      ArtifactList(artifacts));
  }

  /** What a manifest says beyond what verification reads back. */
  lemma ManifestSays(platform: Platform, q: Request, artifacts: seq<Artifact>)
    ensures var m := ManifestJson(platform, q, artifacts);
            && In(m, "application", "name") == Str("Genus OS")
            && In(m, "instance", "name") == Str(InstanceMetadata(q.surroundings).name)
            && In(m, "database", "engine") == Str("postgresql")
            && In(m, "workspace", "files") == (if q.workspace.Some? then FileList(q.workspace.value) else List([]))
  {
    SectionsSay(q);
    ManifestFields(platform, q, artifacts);
  }

  lemma ManifestKeys(platform: Platform, q: Request, artifacts: seq<Artifact>)
    ensures ManifestJson(platform, q, artifacts).Keys ==
            {"format", "format_version", "created_at", "application", "instance", "database", "workspace", "protection",
             "artifacts"}
    ensures Get(ManifestJson(platform, q, artifacts), "format") == Str("genusos-snapshot")
    ensures Get(ManifestJson(platform, q, artifacts), "format_version") == Int(1)
  {
    KeysAre(
      Str(platform.clock(q.moment)), Obj(map["name" := Str("Genus OS"), "version" := Str(q.version)]),
      InstanceSection(InstanceMetadata(q.surroundings)), DatabaseSection(q.database),
      WorkspaceSection(q.workspace, q.includeSecrets), ProtectionSection(q.encrypt, q.includeSecrets),
      ArtifactList(artifacts));
  }

  lemma SectionsSay(q: Request)
    ensures Get(InstanceSection(InstanceMetadata(q.surroundings)).fields, "name") ==
            Str(InstanceMetadata(q.surroundings).name)
    ensures DatabaseSection(q.database).Obj? && WorkspaceSection(q.workspace, q.includeSecrets).Obj?
    ensures Get(DatabaseSection(q.database).fields, "engine") == Str("postgresql")
    ensures Get(WorkspaceSection(q.workspace, q.includeSecrets).fields, "files") ==
            if q.workspace.Some? then FileList(q.workspace.value) else List([])
  {
  }

  /** A database that is not in the snapshot is spelled out as such. */
  lemma DatabaseSays(database: Option<Database>)
    ensures DatabaseSection(database).fields.Keys == {"included", "engine", "name", "dump_format", "schema"}
    ensures DatabaseSection(database).fields["engine"] == Str("postgresql")
    ensures database.None? ==>
              var fields := DatabaseSection(database).fields;
              && fields["included"] == Bool(false) && fields["name"] == Null && fields["dump_format"] == Null
              && fields["schema"].Obj?
              && fields["schema"].fields
                 == map["ledger" := Str("not-captured"), "state" := Str("not-captured"), "applied" := List([])]
  {
  }

  /** The artifact read from a value, if any: one of the two names, with the kind that belongs to it. */
  lemma ArtifactExactly(value: Json, a: Artifact)
    ensures ReadArtifact(value) == Some(a) <==>
            && value.Obj?
            && Get(value.fields, "path") == Str(a.path) && Get(value.fields, "kind") == Str(a.kind)
            && Get(value.fields, "size") == Int(a.size) && a.size >= 0
            && Get(value.fields, "sha256") == Str(a.sha256) && IsHex64(a.sha256)
            && (|| (a.path == "database.dump" && a.kind == "postgresql-custom")
                || (a.path == "workspace.tar.gz" && a.kind == "workspace-tar-gzip"))
  {
    NamesDiffer();
    ChecksumExactly(a.sha256);
  }

  /** What is staged is archived behind the manifest under its own name, private and as it is. */
  lemma OuterExactly(platform: Platform, manifest: map<string, Json>, staged: seq<(string, bytes)>, i: nat)
    requires i <= |staged|
    ensures |OuterMembers(platform, manifest, staged)| == |staged| + 1
    ensures OuterMembers(platform, manifest, staged)[i] ==
            if i == 0 then Member("manifest.json", true, 0x180, platform.printJson(Obj(manifest)))
            else Member(staged[i - 1].0, true, 0x180, staged[i - 1].1)
  {
  }

  lemma NamesDiffer()
    ensures DUMP_NAME != WORKSPACE_NAME && DUMP_NAME != MANIFEST_NAME && WORKSPACE_NAME != MANIFEST_NAME
  {
    assert DUMP_NAME[0] == 'd' && WORKSPACE_NAME[0] == 'w' && MANIFEST_NAME[0] == 'm';
  }

  /** What the manifest of a request says. */
  function SummaryOf(platform: Platform, q: Request, artifacts: seq<Artifact>): Summary {
    Summary(
      platform.clock(q.moment), q.version, InstanceMetadata(q.surroundings).id, q.database, q.workspace.Some?,
      q.includeSecrets, q.encrypt, artifacts)
  }

  lemma FreshShows(platform: Platform, q: Request, artifacts: seq<Artifact>)
    requires DeclaresArtifacts(ManifestJson(platform, q, artifacts), artifacts)
    ensures Shows(ManifestJson(platform, q, artifacts), SummaryOf(platform, q, artifacts))
  {
    ManifestFields(platform, q, artifacts);
    SectionsShow(ManifestJson(platform, q, artifacts), q);
  }

  lemma SectionsShow(m: map<string, Json>, q: Request)
    requires Get(m, "database") == DatabaseSection(q.database)
    requires Get(m, "workspace") == WorkspaceSection(q.workspace, q.includeSecrets)
    requires Get(m, "protection") == ProtectionSection(q.encrypt, q.includeSecrets)
    ensures ShowsDatabase(m, q.database) && ShowsWorkspace(m, q.workspace.Some?, q.includeSecrets)
    ensures ShowsProtection(m, q.encrypt, q.includeSecrets)
  {
  }

  /** The flags `create_snapshot` accepts always yield a manifest that validates, for the protection it was
    * written with and no other, unless the database it names has an empty name.
    */
  lemma FreshManifestValidates(
    platform: Platform, q: Request, dump: Option<bytes>, workspace: Option<bytes>, encrypted: bool)
    requires platform.Hashes() && platform.KeepsTime() && q.Accepted() && Staged(q, dump, workspace)
    ensures Sound(ManifestJson(platform, q, ArtifactsOf(platform, StagedFiles(dump, workspace))), encrypted, platform.timestamp)
            <==> encrypted == q.encrypt && (q.database.Some? ==> q.database.value.name != "")
  {
    var artifacts := ArtifactsOf(platform, StagedFiles(dump, workspace));
    FreshArtifacts(platform, q, dump, workspace);
    FreshShows(platform, q, artifacts);
    var m, summary := ManifestJson(platform, q, artifacts), SummaryOf(platform, q, artifacts);
    forall s | Shows(m, s) ensures s == summary {
      ShowsOnce(m, s, summary);
    }
    assert platform.timestamp(summary.created) == Some(true);
  }

  /** Archiving named files under a manifest, then extracting, gives back the manifest and those files and nothing
    * else, and they agree with the artifacts declared for them.
    */
  lemma OuterRoundTrip(platform: Platform, manifest: map<string, Json>, staged: seq<(string, bytes)>)
    returns (extracted: map<string, bytes>)
    requires platform.ReadsBack()
    requires forall i | 0 <= i < |staged| :: AllowedName(staged[i].0) && staged[i].0 != MANIFEST_NAME
    requires forall i, j | 0 <= i < j < |staged| :: staged[i].0 != staged[j].0
    ensures Extracts(platform, OuterMembers(platform, manifest, staged), manifest, extracted)
    ensures forall m, files | Extracts(platform, OuterMembers(platform, manifest, staged), m, files) ::
              m == manifest && files == extracted
    ensures forall i | 0 <= i < |staged| :: staged[i].0 in extracted && extracted[staged[i].0] == staged[i].1
    ensures ArtifactsAgree(platform, ArtifactsOf(platform, staged), extracted)
  {
    var members := OuterMembers(platform, manifest, staged);
    OuterExtractable(platform, manifest, staged);
    extracted := ContentsOf(members);
    forall m, files | Extracts(platform, members, m, files) ensures m == manifest && files == extracted {
      ExtractionOnce(members, files, extracted);
    }
    OuterNames(platform, manifest, staged);
    StagedAgree(platform, manifest, staged, extracted);
  }

  lemma OuterExtractable(platform: Platform, manifest: map<string, Json>, staged: seq<(string, bytes)>)
    requires forall i | 0 <= i < |staged| :: AllowedName(staged[i].0) && staged[i].0 != MANIFEST_NAME
    requires forall i, j | 0 <= i < j < |staged| :: staged[i].0 != staged[j].0
    ensures var members := OuterMembers(platform, manifest, staged);
            && Extractable(members) && members[0] in members
            && members[0].name == MANIFEST_NAME && members[0].content == platform.printJson(Obj(manifest))
  {
  }

  lemma StagedAgree(
    platform: Platform, manifest: map<string, Json>, staged: seq<(string, bytes)>, extracted: map<string, bytes>)
    requires IsExtraction(OuterMembers(platform, manifest, staged), extracted)
    requires extracted.Keys == {MANIFEST_NAME} + PathsOf(ArtifactsOf(platform, staged))
    ensures forall i | 0 <= i < |staged| :: staged[i].0 in extracted && extracted[staged[i].0] == staged[i].1
    ensures ArtifactsAgree(platform, ArtifactsOf(platform, staged), extracted)
  {
    var members, artifacts := OuterMembers(platform, manifest, staged), ArtifactsOf(platform, staged);
    forall i | 0 <= i < |staged|
      ensures staged[i].0 in extracted && extracted[staged[i].0] == staged[i].1
    {
      assert members[i + 1] in members && artifacts[i] in artifacts;
    }
  }

  lemma OuterNames(platform: Platform, manifest: map<string, Json>, staged: seq<(string, bytes)>)
    ensures (set m | m in OuterMembers(platform, manifest, staged) :: m.name) ==
            {MANIFEST_NAME} + PathsOf(ArtifactsOf(platform, staged))
  {
    var members, artifacts := OuterMembers(platform, manifest, staged), ArtifactsOf(platform, staged);
    forall m | m in members ensures m.name in {MANIFEST_NAME} + PathsOf(artifacts) {
      var i :| 0 <= i < |members| && members[i] == m;
      if i > 0 {
        assert artifacts[i - 1] in artifacts;
      }
    }
    forall a | a in artifacts ensures a.path in (set m | m in members :: m.name) {
      var i :| 0 <= i < |artifacts| && artifacts[i] == a;
      assert members[i + 1] in members;
    }
    assert members[0] in members;
  }

  lemma StagedNames(dump: Option<bytes>, workspace: Option<bytes>)
    ensures var staged := StagedFiles(dump, workspace);
            && (forall i | 0 <= i < |staged| :: AllowedName(staged[i].0) && staged[i].0 != MANIFEST_NAME)
            && (forall i, j | 0 <= i < j < |staged| :: staged[i].0 != staged[j].0)
            && (dump.Some? ==> |staged| > 0 && staged[0] == (DUMP_NAME, dump.value))
            && (workspace.Some? ==> |staged| > 0 && staged[|staged| - 1] == (WORKSPACE_NAME, workspace.value))
  {
    NamesDiffer();
  }
}
