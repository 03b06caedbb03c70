/** Creating, verifying and restoring a whole snapshot (robothor/snapshot.py:771-897, 900-912,
  * 1246-1284, 1404-1482), and what the three promise together.
  */
module Snapshot {
  import opened Wrappers
  import opened Bytes
  import opened Json
  import opened Paths
  import opened Workspace
  import opened Archive
  import opened Manifest
  import opened Restore
  import Codec
  import Schema

  /** The library functions below the format. */
  datatype World = World(
    codec: Codec.Primitives,
    platform: Platform,
    pack: seq<Member> -> bytes,
    unpack: bytes -> Option<seq<Member>>,
    listDump: bytes -> bool)
  {
    /** A compressed tar file reads back, is never empty, and does not start like an encrypted snapshot. */
    ghost predicate Lawful() {
      && codec.Lawful() && platform.Lawful()
      && (forall ms :: unpack(pack(ms)) == Some(ms))
      && (forall ms :: pack(ms) != [] && !IsEncrypted(pack(ms)))
    }
  }

  predicate IsEncrypted(file: bytes) {
    |file| >= |Codec.MAGIC| && file[..|Codec.MAGIC|] == Codec.MAGIC
  }

  // ----- Creating -----

  /** Everything one snapshot is made of. */
  datatype Making = Making(
    request: Request,
    dump: Option<bytes>,
    files: seq<Path>,
    members: seq<Member>,
    salt: bytes,
    prefix: bytes)

  function Staging(w: World, c: Making): seq<(string, bytes)> {
    StagedFiles(c.dump, if c.request.workspace.Some? then Some(w.pack(c.members)) else None)
  }

  function ManifestOf(w: World, c: Making): map<string, Json> {
    ManifestJson(w.platform, c.request, ArtifactsOf(w.platform, Staging(w, c)))
  }

  function OuterOf(w: World, c: Making): bytes {
    Pack(w, c.request, c.dump, c.members)
  }

  /** `c` is made of a selection of workspace `t` and what the call was given. */
  ghost predicate IsMade(w: World, t: Tree, settings: seq<Setting>, c: Making) {
    && c.request.Accepted()
    && c.dump.Some? == c.request.database.Some?
    && |c.salt| == Codec.SALT_SIZE && |c.prefix| == Codec.PREFIX_SIZE
    && (c.request.workspace.Some? ==>
          IsFresh(w.platform, t, settings, c.request.includeSecrets, c.files, c.members,
            c.request.workspace.value, ManifestOf(w, c)))
  }

  /** `file` is the snapshot that `c` makes. */
  ghost predicate IsCreated(w: World, t: Tree, settings: seq<Setting>, c: Making, passphrase: string, file: bytes)
    requires w.Lawful()
  {
    IsMade(w, t, settings, c) && FileOf(w, c.request.encrypt, OuterOf(w, c), passphrase, c.salt, c.prefix) == Ok(file)
  }

  /** The published bytes: the outer archive, encrypted if that is asked for. */
  function FileOf(w: World, encrypt: bool, outer: bytes, passphrase: string, salt: bytes, prefix: bytes)
    : Result<bytes, Error>
    requires w.Lawful()
  {
    if !encrypt then Ok(outer)
    else match Codec.Encrypted(w.codec, |outer|, outer, passphrase, salt, prefix)
      case Ok(file) => Ok(file)
      case Err(_) => Err(GeneralError)
  }

  /** The flags and the passphrase a call may combine. */
  predicate CallAccepted(
    database: bool, workspace: bool, includeSecrets: bool, encrypt: bool, passphrase: string)
  {
    && (database || workspace)
    && (includeSecrets ==> workspace && encrypt)
    && (encrypt ==> |passphrase| >= Codec.MIN_PASSPHRASE)
  }

  /** A call is refused for one of four reasons, and for no other; what it is not refused for is the request that the
    * finished manifest speaks for.
    */
  lemma CallRefusedExactly(q: Request, passphrase: string)
    ensures var accepted := CallAccepted(q.database.Some?, q.workspace.Some?, q.includeSecrets, q.encrypt, passphrase);
            && (!accepted <==>
                  || (q.database.None? && q.workspace.None?)
                  || (q.includeSecrets && q.workspace.None?)
                  || (q.includeSecrets && !q.encrypt)
                  || (q.encrypt && |passphrase| < 12))
            && (accepted <==> q.Accepted() && (q.encrypt ==> |passphrase| >= 12))
  {
    assert Codec.MIN_PASSPHRASE == 12;
  }

  /** Creates the bytes that are then published. `salt` and `prefix` are the two random draws. It succeeds exactly
    * if the flags go together, the workspace can be selected, and the encryption finds nothing too large.
    */
  method CreateSnapshot(
    w: World, t: Tree, settings: seq<Setting>, skeleton: Request, includeWorkspace: bool, dump: Option<bytes>,
    passphrase: string, salt: bytes, prefix: bytes)
    returns (r: Result<bytes, Error>, ghost c: Making)
    requires w.Lawful() && WellFormed(t) && dump.Some? == skeleton.database.Some?
    requires |salt| == Codec.SALT_SIZE && |prefix| == Codec.PREFIX_SIZE
    ensures r.Ok? <==>
              && CallAccepted(dump.Some?, includeWorkspace, skeleton.includeSecrets, skeleton.encrypt, passphrase)
              && (includeWorkspace ==> Selectable(t, settings, skeleton.includeSecrets))
              && FileOf(w, skeleton.encrypt, OuterOf(w, c), passphrase, salt, prefix).Ok?
    ensures CallAccepted(dump.Some?, includeWorkspace, skeleton.includeSecrets, skeleton.encrypt, passphrase)
            && (includeWorkspace ==> Selectable(t, settings, skeleton.includeSecrets)) ==>
              r.Ok? || skeleton.encrypt
    ensures r.Err? ==> r.error == GeneralError
    ensures r.Ok? ==> CallAccepted(dump.Some?, includeWorkspace, skeleton.includeSecrets, skeleton.encrypt, passphrase)
    ensures r.Ok? ==> IsCreated(w, t, settings, c, passphrase, r.value)
    ensures CallAccepted(dump.Some?, includeWorkspace, skeleton.includeSecrets, skeleton.encrypt, passphrase)
            && (includeWorkspace ==> Selectable(t, settings, skeleton.includeSecrets)) ==>
              IsMade(w, t, settings, c) && IsFor(c, skeleton, includeWorkspace, dump, salt, prefix)
  {
    c := Making(skeleton.(workspace := None), dump, [], [], salt, prefix);
    if !CallAccepted(dump.Some?, includeWorkspace, skeleton.includeSecrets, skeleton.encrypt, passphrase) {
      return Err(GeneralError), c;
    }
    var request, members := skeleton.(workspace := None), [];
    if includeWorkspace {
      var built;
      built, c := CreateWorkspace(w, t, settings, skeleton, c);
      if built.Err? {
        return Err(built.error), c;
      }
      request, members := built.value.0, built.value.1;
    }
    var outer := Pack(w, request, dump, members);
    r := FileOf(w, request.encrypt, outer, passphrase, salt, prefix);
  }

  /** `c` was made for this call. */
  ghost predicate IsFor(
    c: Making, skeleton: Request, includeWorkspace: bool, dump: Option<bytes>, salt: bytes, prefix: bytes)
  {
    && c.dump == dump && c.salt == salt && c.prefix == prefix
    && c.request == skeleton.(workspace := c.request.workspace) && c.request.workspace.Some? == includeWorkspace
  }

  /** Selects and archives the workspace files, and adds them to a request that has none yet. */
  method CreateWorkspace(w: World, t: Tree, settings: seq<Setting>, skeleton: Request, ghost given: Making)
    returns (r: Result<(Request, seq<Member>), Error>, ghost c: Making)
    requires w.Lawful() && WellFormed(t) && given.request == skeleton.(workspace := None)
    ensures r.Ok? <==> Selectable(t, settings, skeleton.includeSecrets)
    ensures r.Err? ==> r.error == GeneralError
    ensures r.Ok? ==>
              && c == given.(request := r.value.0, members := r.value.1, files := c.files)
              && r.value.0 == skeleton.(workspace := r.value.0.workspace) && r.value.0.workspace.Some?
              && IsFresh(w.platform, t, settings, skeleton.includeSecrets, c.files, c.members,
                   r.value.0.workspace.value, ManifestOf(w, c))
  {
    c := given;
    var files := WorkspaceFiles(t, settings, skeleton.includeSecrets);
    if files.Err? {
      return Err(files.error), c;
    }
    FilesAreValid(t, settings, skeleton.includeSecrets, files.value);
    var members, entries := BuildWorkspaceArchive(w.platform, t, files.value);
    var request := skeleton.(workspace := Some(entries));
    c := given.(request := request, files := files.value, members := members);
    FreshManifest(w, t, settings, c);
    r := Ok((request, members));
  }

  function Pack(w: World, request: Request, dump: Option<bytes>, members: seq<Member>): bytes {
    var staged := StagedFiles(dump, if request.workspace.Some? then Some(w.pack(members)) else None);
    w.pack(OuterMembers(w.platform, ManifestJson(w.platform, request, ArtifactsOf(w.platform, staged)), staged))
  }

  lemma FreshManifest(w: World, t: Tree, settings: seq<Setting>, c: Making)
    requires w.Lawful() && WellFormed(t) && c.request.workspace.Some?
    requires Selectable(t, settings, c.request.includeSecrets)
    requires IsSelection(t, settings, c.request.includeSecrets, c.files)
    requires IsArchiveOf(w.platform, t, c.files, c.members, c.request.workspace.value)
    ensures IsFresh(w.platform, t, settings, c.request.includeSecrets, c.files, c.members,
              c.request.workspace.value, ManifestOf(w, c))
  {
    ManifestFields(w.platform, c.request, ArtifactsOf(w.platform, Staging(w, c)));
  }

  /** The same call on the same workspace makes the same file, down to the byte. */
  lemma CreatedOnce(
    w: World, t: Tree, settings: seq<Setting>, c: Making, d: Making, passphrase: string, file: bytes, other: bytes)
    requires w.Lawful() && IsCreated(w, t, settings, c, passphrase, file) && IsCreated(w, t, settings, d, passphrase, other)
    requires IsFor(c, d.request, d.request.workspace.Some?, d.dump, d.salt, d.prefix)
    ensures c.request == d.request && file == other
    ensures c.request.workspace.Some? ==> c.files == d.files && c.members == d.members
  {
    if c.request.workspace.Some? {
      SelectionUnique(t, settings, c.request.includeSecrets, c.files, d.files);
      ArchiveUnique(
        w.platform, t, c.files, c.members, c.request.workspace.value, d.members, d.request.workspace.value);
    }
  }

  lemma ArchiveUnique(
    platform: Platform, t: Tree, files: seq<Path>, members: seq<Member>, entries: seq<Entry>, members': seq<Member>,
    entries': seq<Entry>)
    requires IsArchiveOf(platform, t, files, members, entries) && IsArchiveOf(platform, t, files, members', entries')
    ensures members == members' && entries == entries'
  {
  }

  // ----- Verifying -----

  /** `_materialize_snapshot`: the outer archive, decrypted if the file says it is encrypted. */
  function Materialized(w: World, file: bytes, passphrase: string): Result<bytes, Error> {
    if !IsEncrypted(file) then Ok(file)
    else if passphrase == "" then Err(GeneralError)
    else match Codec.Decrypted(w.codec, file, passphrase)
      case Ok(plain) => Ok(plain)
      case Err(WeakPassphrase) => Err(GeneralError)
      case Err(_) => Err(IntegrityError)
  }

  /** A file is taken for encrypted exactly if it starts with the format's name and version. */
  lemma EncryptedExactly(file: bytes)
    ensures IsEncrypted(file) <==>
            && |file| >= 11 && (forall i | 0 <= i < 9 :: file[i] as char == "GENUSSNAP"[i])
            && file[9] == 1 && file[10] as char == '\n'
  {
    if |file| >= 11 {
      assert forall i | 0 <= i < 11 :: file[..11][i] == file[i];
    }
  }

  /** What is unpacked: the file itself, or its plaintext if it is encrypted; a missing or weak passphrase is told from
    * damage.
    */
  lemma MaterializedExactly(w: World, file: bytes, passphrase: string)
    ensures !IsEncrypted(file) ==> Materialized(w, file, passphrase) == Ok(file)
    ensures IsEncrypted(file) ==>
              var plain := Codec.Decrypted(w.codec, file, passphrase);
              match Materialized(w, file, passphrase)
              case Ok(outer) => |passphrase| > 0 && plain == Ok(outer)
              case Err(e) =>
                && (plain.Err? || |passphrase| == 0)
                && (e == GeneralError <==> |passphrase| == 0 || plain == Err(Codec.WeakPassphrase))
                && (e == IntegrityError <==> |passphrase| > 0 && plain != Err(Codec.WeakPassphrase))
  {
  }

  datatype Verified = Verified(
    encrypted: bool,
    manifest: map<string, Json>,
    extracted: map<string, bytes>,
    verdict: Schema.Verdict)

  ghost predicate Includes(m: map<string, Json>, section: string) {
    IsTrue(Get(m, section), "included")
  }

  ghost predicate WorkspacePasses(w: World, m: map<string, Json>, extracted: map<string, bytes>) {
    Includes(m, "workspace") ==>
      && WORKSPACE_NAME in extracted
      && w.unpack(extracted[WORKSPACE_NAME]).Some?
      && ArchiveAgrees(w.platform, m, w.unpack(extracted[WORKSPACE_NAME]).value)
  }

  ghost predicate DatabasePasses(w: World, m: map<string, Json>, extracted: map<string, bytes>) {
    Includes(m, "database") ==>
      && DUMP_NAME in extracted && w.listDump(extracted[DUMP_NAME])
      && exists applied, available :: Schema.GoodSchema(Get(m, "database").fields, applied, available)
  }

  /** The extracted outer archive and its manifest pass every check. */
  ghost predicate Passes(w: World, encrypted: bool, m: map<string, Json>, extracted: map<string, bytes>) {
    && KnownFormat(m) && KnownVersion(m) && Sound(m, encrypted, w.platform.timestamp)
    && ArtifactsPass(w.platform, m, extracted) && WorkspacePasses(w, m, extracted) && DatabasePasses(w, m, extracted)
  }

  /** `file` opens to an outer archive with this manifest and these files. */
  ghost predicate OpensTo(w: World, file: bytes, passphrase: string, m: map<string, Json>, extracted: map<string, bytes>) {
    && Materialized(w, file, passphrase).Ok?
    && w.unpack(Materialized(w, file, passphrase).value).Some?
    && Extracts(w.platform, w.unpack(Materialized(w, file, passphrase).value).value, m, extracted)
  }

  lemma OpensOnce(
    w: World, file: bytes, passphrase: string, m: map<string, Json>, extracted: map<string, bytes>,
    m': map<string, Json>, extracted': map<string, bytes>)
    requires OpensTo(w, file, passphrase, m, extracted) && OpensTo(w, file, passphrase, m', extracted')
    ensures m == m' && extracted == extracted'
  {
    ExtractionOnce(w.unpack(Materialized(w, file, passphrase).value).value, extracted, extracted');
  }

  /** What the verdict on compatibility depends on: the version, and the schema of an included database. */
  ghost predicate Compatible(here: Schema.Installation, m: map<string, Json>) {
    && In(m, "application", "version").Str? && Schema.VersionFits(here, In(m, "application", "version").s)
    && (Includes(m, "database") ==>
          exists applied, available ::
            && Schema.GoodSchema(Get(m, "database").fields, applied, available)
            && Schema.SchemaFits(
                 here, Get(Get(Get(m, "database").fields, "schema").fields, "state").s, Schema.Checksums(applied)))
  }

  /** Why an opened snapshot that does not pass is refused: first an unknown version, then, behind sound contents, a dump
    * that cannot be listed; all else is damage.
    */
  ghost function Fault(w: World, encrypted: bool, m: map<string, Json>, extracted: map<string, bytes>): Error {
    if KnownFormat(m) && !KnownVersion(m) then CompatibilityError
    else if Sound(m, encrypted, w.platform.timestamp) && ArtifactsPass(w.platform, m, extracted)
            && WorkspacePasses(w, m, extracted) && !DumpLists(w, m, extracted)
    then GeneralError
    else IntegrityError
  }

  ghost predicate DumpLists(w: World, m: map<string, Json>, extracted: map<string, bytes>) {
    Includes(m, "database") ==> DUMP_NAME in extracted && w.listDump(extracted[DUMP_NAME])
  }

  method VerifySnapshot(w: World, here: Schema.Installation, file: bytes, passphrase: string)
    returns (r: Result<Verified, Error>)
    ensures r.Ok? ==>
              && OpensTo(w, file, passphrase, r.value.manifest, r.value.extracted)
              && r.value.encrypted == IsEncrypted(file)
              && Passes(w, r.value.encrypted, r.value.manifest, r.value.extracted)
              && (r.value.verdict.compatible <==> r.value.verdict.warnings == [])
              && (r.value.verdict.compatible <==> Compatible(here, r.value.manifest))
    ensures r.Err? ==>
              forall m, extracted | OpensTo(w, file, passphrase, m, extracted) ::
                !Passes(w, IsEncrypted(file), m, extracted) && r.error == Fault(w, IsEncrypted(file), m, extracted)
    ensures r.Err? && (forall m, extracted :: !OpensTo(w, file, passphrase, m, extracted)) ==>
              match Materialized(w, file, passphrase)
              case Err(e) => r.error == e
              case Ok(_) => r.error == IntegrityError
  {
    match Materialized(w, file, passphrase) {
      case Err(e) =>
        return Err(e);
      case Ok(outer) =>
        match w.unpack(outer) {
          case None =>
            return Err(IntegrityError);
          case Some(members) =>
            var manifest, extracted := ExtractOuterArchive(w.platform, members);
            if manifest.Err? {
              return Err(IntegrityError);
            }
            assert OpensTo(w, file, passphrase, manifest.value, extracted);
            forall m, other | OpensTo(w, file, passphrase, m, other) ensures m == manifest.value && other == extracted {
              OpensOnce(w, file, passphrase, m, other, manifest.value, extracted);
            }
            r := VerifyExtracted(w, here, IsEncrypted(file), manifest.value, extracted);
        }
    }
  }

  method VerifyExtracted(
    w: World, here: Schema.Installation, encrypted: bool, m: map<string, Json>, extracted: map<string, bytes>)
    returns (r: Result<Verified, Error>)
    ensures r.Ok? <==> Passes(w, encrypted, m, extracted)
    ensures r.Err? ==> r.error == Fault(w, encrypted, m, extracted)
    ensures r.Ok? ==>
              && r.value.encrypted == encrypted && r.value.manifest == m && r.value.extracted == extracted
              && (r.value.verdict.compatible <==> r.value.verdict.warnings == [])
              && (r.value.verdict.compatible <==> Compatible(here, m))
  {
    var valid := ValidateManifest(m, encrypted, w.platform.timestamp);
    if valid.Fail? {
      return Err(valid.error);
    }
    var intact := CheckArtifacts(w, m, extracted, encrypted);
    if !intact {
      return Err(IntegrityError);
    }
    var workspace := CheckWorkspace(w, m, extracted);
    if !workspace {
      return Err(IntegrityError);
    }
    var verdict := CheckDatabase(w, here, m, extracted, encrypted);
    match verdict {
      case Err(e) =>
        return Err(e);
      case Ok(v) =>
        return Ok(Verified(encrypted, m, extracted, v));
    }
  }

  method CheckArtifacts(w: World, m: map<string, Json>, extracted: map<string, bytes>, ghost encrypted: bool)
    returns (ok: bool)
    requires Sound(m, encrypted, w.platform.timestamp)
    ensures ok <==> ArtifactsPass(w.platform, m, extracted)
    ensures ok && Includes(m, "workspace") ==> WORKSPACE_NAME in extracted
    ensures ok && Includes(m, "database") ==> DUMP_NAME in extracted
  {
    ghost var s :| Shows(m, s) && s.encrypted == encrypted && Consistent(s, w.platform.timestamp);
    var intact := VerifyArtifacts(w.platform, m, extracted);
    ok := intact.Pass?;
    if ok {
      PartsPresent(w, m, extracted, s);
    }
  }

  lemma PartsPresent(w: World, m: map<string, Json>, extracted: map<string, bytes>, s: Summary)
    requires Shows(m, s) && Consistent(s, w.platform.timestamp) && ArtifactsPass(w.platform, m, extracted)
    ensures Includes(m, "workspace") ==> WORKSPACE_NAME in extracted
    ensures Includes(m, "database") ==> DUMP_NAME in extracted
  {
    var artifacts :| DeclaresArtifacts(m, artifacts) && ArtifactsAgree(w.platform, artifacts, extracted);
    ArtifactsDeclaredOnce(m, artifacts, s.artifacts);
  }

  method CheckWorkspace(w: World, m: map<string, Json>, extracted: map<string, bytes>) returns (ok: bool)
    requires Includes(m, "workspace") ==> WORKSPACE_NAME in extracted
    ensures ok <==> WorkspacePasses(w, m, extracted)
  {
    if !IsTrue(Get(m, "workspace"), "included") {
      return true;
    }
    match w.unpack(extracted[WORKSPACE_NAME]) {
      case None =>
        return false;
      case Some(inner) =>
        var agrees := VerifyWorkspaceArchive(w.platform, m, inner);
        return agrees.Pass?;
    }
  }

  method CheckDatabase(
    w: World, here: Schema.Installation, m: map<string, Json>, extracted: map<string, bytes>, ghost encrypted: bool)
    returns (r: Result<Schema.Verdict, Error>)
    requires Sound(m, encrypted, w.platform.timestamp) && (Includes(m, "database") ==> DUMP_NAME in extracted)
    ensures r.Ok? <==> DatabasePasses(w, m, extracted)
    ensures r.Err? ==> r.error == if DumpLists(w, m, extracted) then IntegrityError else GeneralError
    ensures r.Ok? ==> (r.value.compatible <==> r.value.warnings == []) && (r.value.compatible <==> Compatible(here, m))
  {
    ghost var s :| Shows(m, s) && s.encrypted == encrypted;
    if IsTrue(Get(m, "database"), "included") && !w.listDump(extracted[DUMP_NAME]) {
      return Err(GeneralError);
    }
    ghost var applied;
    r, applied := Schema.Compatibility(
      here, Get(Get(m, "application").fields, "version").s, Get(m, "database").fields);
    forall a, b | Schema.GoodSchema(Get(m, "database").fields, a, b) && r.Ok? && Includes(m, "database") ensures a == applied {
      var available :| Schema.GoodSchema(Get(m, "database").fields, applied, available);
      Schema.ReadOnce(Get(Get(Get(m, "database").fields, "schema").fields, "applied"), a, applied);
    }
  }

  // ----- Creation against verification -----

  /** What a created snapshot depends on to verify: a database with a name and a dump that can be listed, and a
    * workspace that is presentable.
    */
  ghost predicate Verifiable(w: World, t: Tree, settings: seq<Setting>, c: Making) {
    && (c.request.database.Some? && c.dump.Some? ==>
          c.request.database.value.name != "" && w.listDump(c.dump.value))
    && (c.request.workspace.Some? ==> Presentable(w.platform, t, settings, c.request.includeSecrets))
  }

  lemma FileOpens(w: World, t: Tree, settings: seq<Setting>, c: Making, passphrase: string, file: bytes)
    requires w.Lawful() && IsCreated(w, t, settings, c, passphrase, file)
    ensures IsEncrypted(file) == c.request.encrypt
    ensures Materialized(w, file, passphrase) == Ok(OuterOf(w, c))
  {
    var outer := OuterOf(w, c);
    assert outer != [] && !IsEncrypted(outer);
    if c.request.encrypt {
      var raw := w.codec.printJson(Codec.HeaderJson(w.codec, |outer|, c.salt, c.prefix));
      Codec.EncryptThenDecrypt(w.codec, outer, passphrase, c.salt, c.prefix);
      StartsWithMagic(w.codec, raw, Codec.Header(|outer|, c.salt, c.prefix), passphrase, outer);
    }
  }

  lemma StartsWithMagic(codec: Codec.Primitives, raw: bytes, h: Codec.Header, passphrase: string, plain: bytes)
    requires codec.Lawful() && |raw| <= Codec.MAX_HEADER && |plain| <= Codec.SIZE_LIMIT
    ensures IsEncrypted(Codec.Container(codec, raw, h, passphrase, plain))
  {
    Codec.ContainerLength(codec, raw, h, passphrase, plain);
  }

  /** The created file opens to the manifest and the staged files it was made of. */
  lemma CreatedOpens(w: World, t: Tree, settings: seq<Setting>, c: Making, passphrase: string, file: bytes)
    returns (extracted: map<string, bytes>)
    requires w.Lawful() && IsCreated(w, t, settings, c, passphrase, file)
    ensures OpensTo(w, file, passphrase, ManifestOf(w, c), extracted)
    ensures ArtifactsAgree(w.platform, ArtifactsOf(w.platform, Staging(w, c)), extracted)
    ensures c.request.workspace.Some? ==>
              WORKSPACE_NAME in extracted && w.unpack(extracted[WORKSPACE_NAME]) == Some(c.members)
    ensures c.dump.Some? ==> DUMP_NAME in extracted && extracted[DUMP_NAME] == c.dump.value
  {
    FileOpens(w, t, settings, c, passphrase, file);
    var staged := Staging(w, c);
    var workspace := if c.request.workspace.Some? then Some(w.pack(c.members)) else None;
    StagedNames(c.dump, workspace);
    var members := OuterMembers(w.platform, ManifestOf(w, c), staged);
    extracted := OuterRoundTrip(w.platform, ManifestOf(w, c), staged);
    assert w.unpack(w.pack(members)) == Some(members);
    if c.request.workspace.Some? {
      assert w.unpack(w.pack(c.members)) == Some(c.members);
    }
  }

  /** The schema section was recorded from a ledger with unique ids and well-formed checksums. */
  ghost predicate SchemaRecorded(q: Request) {
    q.database.Some? ==>
      exists ledger, available ::
        && Schema.Recordable(Schema.Applied(ledger)) && Schema.Recordable(available)
        && q.database.value.schema == Schema.SchemaFields(ledger, available)
  }

  lemma DatabasePassesExactly(w: World, c: Making, extracted: map<string, bytes>)
    requires c.dump.Some? == c.request.database.Some? && SchemaRecorded(c.request)
    requires c.dump.Some? ==> DUMP_NAME in extracted && extracted[DUMP_NAME] == c.dump.value
    ensures DatabasePasses(w, ManifestOf(w, c), extracted) <==> (c.dump.Some? ==> w.listDump(c.dump.value))
  {
    ManifestFields(w.platform, c.request, ArtifactsOf(w.platform, Staging(w, c)));
    DatabaseSectionPasses(w, ManifestOf(w, c), c.request, extracted);
  }

  lemma DatabaseSectionPasses(w: World, m: map<string, Json>, q: Request, extracted: map<string, bytes>)
    requires Get(m, "database") == DatabaseSection(q.database) && SchemaRecorded(q)
    requires q.database.Some? ==> DUMP_NAME in extracted
    ensures DatabasePasses(w, m, extracted) <==> (q.database.Some? ==> w.listDump(extracted[DUMP_NAME]))
  {
    if q.database.Some? {
      var ledger, available :|
        && Schema.Recordable(Schema.Applied(ledger)) && Schema.Recordable(available)
        && q.database.value.schema == Schema.SchemaFields(ledger, available);
      IncludedDatabase(q.database.value);
      Schema.FreshSchemaIsConsistent(ledger, available, Get(m, "database").fields);
    }
  }

  lemma IncludedDatabase(database: Database)
    ensures var section := DatabaseSection(Some(database));
            IsTrue(section, "included") && Get(section.fields, "schema") == Obj(database.schema)
  {
  }

  lemma WorkspacePassesExactly(w: World, t: Tree, settings: seq<Setting>, c: Making, extracted: map<string, bytes>)
    requires c.request.workspace.Some? ==>
               IsFresh(w.platform, t, settings, c.request.includeSecrets, c.files, c.members,
                 c.request.workspace.value, ManifestOf(w, c))
    requires c.request.workspace.Some? ==>
               WORKSPACE_NAME in extracted && w.unpack(extracted[WORKSPACE_NAME]) == Some(c.members)
    ensures WorkspacePasses(w, ManifestOf(w, c), extracted) <==>
            (c.request.workspace.Some? ==> ArchiveAgrees(w.platform, ManifestOf(w, c), c.members))
  {
    ManifestFields(w.platform, c.request, ArtifactsOf(w.platform, Staging(w, c)));
    WorkspaceIncluded(ManifestOf(w, c), c.request);
  }

  lemma WorkspaceIncluded(m: map<string, Json>, q: Request)
    requires Get(m, "workspace") == WorkspaceSection(q.workspace, q.includeSecrets)
    ensures Includes(m, "workspace") <==> q.workspace.Some?
  {
  }

  /** The whole way: a snapshot that was created, whatever the flags, the workspace and the settings, opens to a
    * manifest and files that pass every check if and only if it is verifiable. Neither the combination of flags nor
    * the time nor the instance ever stands in the way.
    */
  lemma CreatedVerifiesExactly(w: World, t: Tree, settings: seq<Setting>, c: Making, passphrase: string, file: bytes)
    requires w.Lawful() && IsCreated(w, t, settings, c, passphrase, file) && SchemaRecorded(c.request)
    ensures (exists m, extracted ::
               OpensTo(w, file, passphrase, m, extracted) && Passes(w, IsEncrypted(file), m, extracted))
            <==> Verifiable(w, t, settings, c)
  {
    FileOpens(w, t, settings, c, passphrase, file);
    var extracted := CreatedOpens(w, t, settings, c, passphrase, file);
    var m := ManifestOf(w, c);
    CreatedPassesExactly(w, t, settings, c, passphrase, file, extracted);
    forall m', e' | OpensTo(w, file, passphrase, m', e') ensures m' == m && e' == extracted {
      OpensOnce(w, file, passphrase, m', e', m, extracted);
    }
  }

  lemma CreatedPassesExactly(
    w: World, t: Tree, settings: seq<Setting>, c: Making, passphrase: string, file: bytes, extracted: map<string, bytes>)
    requires w.Lawful() && IsCreated(w, t, settings, c, passphrase, file) && SchemaRecorded(c.request)
    requires ArtifactsAgree(w.platform, ArtifactsOf(w.platform, Staging(w, c)), extracted)
    requires c.request.workspace.Some? ==>
               WORKSPACE_NAME in extracted && w.unpack(extracted[WORKSPACE_NAME]) == Some(c.members)
    requires c.dump.Some? ==> DUMP_NAME in extracted && extracted[DUMP_NAME] == c.dump.value
    ensures Passes(w, c.request.encrypt, ManifestOf(w, c), extracted) <==> Verifiable(w, t, settings, c)
  {
    var m := ManifestOf(w, c);
    var workspace := if c.request.workspace.Some? then Some(w.pack(c.members)) else None;
    FreshManifestValidates(w.platform, c.request, c.dump, workspace, c.request.encrypt);
    FreshArtifacts(w.platform, c.request, c.dump, workspace);
    assert ArtifactsPass(w.platform, m, extracted);
    DatabasePassesExactly(w, c, extracted);
    WorkspacePassesExactly(w, t, settings, c, extracted);
    if c.request.workspace.Some? {
      FreshArchiveVerifies(w.platform, t, settings, c.request.includeSecrets, c.files, c.members,
        c.request.workspace.value, m);
    }
  }

  // ----- Secrets in a verified snapshot -----

  /** A member of a verified workspace archive is a secret only if the snapshot is encrypted and says in both places
    * that it bears secrets; the keys then are private, the vault key is there, and an identity has its key.
    */
  lemma SecretsAreProtected(
    w: World, encrypted: bool, m: map<string, Json>, extracted: map<string, bytes>, members: seq<Member>, k: nat)
    requires Passes(w, encrypted, m, extracted) && Includes(m, "workspace")
    requires WORKSPACE_NAME in extracted && w.unpack(extracted[WORKSPACE_NAME]) == Some(members)
    requires k < |members|
    requires members[k].name in {".vault-key", ".robothor/identity.json", ".robothor/identity.key"}
    ensures encrypted && SecretBearing(m) && ContainsVaultKey(m)
    ensures members[k].name != Name(IDENTITY) ==> OwnerOnly(members[k].mode)
    ensures exists v | v in members :: v.name == Name(VAULT_KEY) && OwnerOnly(v.mode)
    ensures members[k].name == Name(IDENTITY) ==>
              exists v | v in members :: v.name == Name(IDENTITY_KEY) && OwnerOnly(v.mode)
  {
    var s :| Shows(m, s) && s.encrypted == encrypted && Consistent(s, w.platform.timestamp);
    var entries :| && Declares(m, entries) && SecretsAgree(entries, ContainsVaultKey(m), SecretBearing(m))
                   && MembersAgree(w.platform, entries, members);
    assert members[k] in members;
    SecretNames();
    SecretDeclared(w.platform, m, entries, members, members[k]);
    assert s.secrets;
    KeyThere(w.platform, m, entries, members, VAULT_KEY);
    if members[k].name == Name(IDENTITY) {
      KeyThere(w.platform, m, entries, members, IDENTITY_KEY);
    }
  }

  lemma SecretDeclared(platform: Platform, m: map<string, Json>, entries: seq<Entry>, members: seq<Member>, member: Member)
    requires SecretsAgree(entries, ContainsVaultKey(m), SecretBearing(m)) && MembersAgree(platform, entries, members)
    requires member in members
    requires member.name == Name(VAULT_KEY) || member.name == Name(IDENTITY) || member.name == Name(IDENTITY_KEY)
    ensures SecretBearing(m)
    ensures member.name != Name(IDENTITY) ==> OwnerOnly(member.mode)
    ensures member.name == Name(IDENTITY) ==> Holds(entries, IDENTITY_KEY)
  {
    var e :| e in entries && Matches(platform, e, member);
    OwnerOnlyLow(member.mode);
    if member.name == Name(IDENTITY) {
      assert Holds(entries, IDENTITY);
    }
  }

  lemma OwnerOnlyLow(mode: nat)
    ensures OwnerOnly(mode % 4096) ==> OwnerOnly(mode)
  {
    var high, low := mode / 4096, mode % 4096;
    Remainder(mode, 64 * high + low / 64, low % 64);
  }

  lemma KeyThere(platform: Platform, m: map<string, Json>, entries: seq<Entry>, members: seq<Member>, key: Path)
    requires SecretsAgree(entries, ContainsVaultKey(m), SecretBearing(m)) && MembersAgree(platform, entries, members)
    requires Holds(entries, key) && (key == VAULT_KEY || key == IDENTITY_KEY)
    ensures exists v | v in members :: v.name == Name(key) && OwnerOnly(v.mode)
  {
    var v := MemberOf(platform, entries, members, Name(key));
    NameInjective(key, IDENTITY);
    SecretDeclared(platform, m, entries, members, v);
  }

  lemma MemberOf(platform: Platform, entries: seq<Entry>, members: seq<Member>, name: string) returns (v: Member)
    requires EachPresent(entries, members) && exists e :: e in entries && e.path == name
    ensures v in members && v.name == name
  {
    var e :| e in entries && e.path == name;
    v :| v in members && v.name == e.path;
  }

  // ----- Creation against restoration -----

  function RestoredMode(t: Tree, p: Path): nat
    requires IsPlainFile(t, p)
  {
    if p == VAULT_KEY || p == IDENTITY_KEY then 384 else t[p].mode % 512
  }

  /** `copy` holds the selected files of `t`, the directories above them, and nothing else. */
  ghost predicate IsCopy(t: Tree, files: seq<Path>, copy: Tree) {
    && (forall p | p in files :: IsPlainFile(t, p) && p in copy && copy[p] == File(t[p].content, RestoredMode(t, p)))
    && (forall p | p in copy && p !in files :: copy[p].Dir? && p != [] && exists q :: q in files && Above(p, q))
    && (forall p, q | q in files && p != [] && Above(p, q) :: p in copy)
  }

  /** What restoring the parts into an empty workspace gives. */
  lemma PartsRestore(w: World, t: Tree, settings: seq<Setting>, c: Making)
    requires w.Lawful() && IsMade(w, t, settings, c)
    requires c.request.workspace.Some? && Verifiable(w, t, settings, c)
    ensures var entries, contents := c.request.workspace.value, ContentsOf(c.members);
            && Declares(ManifestOf(w, c), entries)
            && |entries| == |c.files|
            && Restorable(entries, contents)
            && RestoreAll(map[], entries, contents, false, 0).result.Ok?
            && IsCopy(t, c.files, RestoreAll(map[], entries, contents, false, 0).tree)
  {
    var entries := c.request.workspace.value;
    FilesAreValid(t, settings, c.request.includeSecrets, c.files);
    FreshDeclares(w.platform, t, settings, c.request.includeSecrets, c.files, c.members, entries, ManifestOf(w, c));
    RestoreFresh(w.platform, t, c.files, c.members, entries);
  }

  /** The identity document of a copied workspace is its own, but for the reference to the key. */
  ghost predicate IsMovedCopy(w: World, t: Tree, files: seq<Path>, reference: string, copy: Tree, moved: Tree) {
    && (IDENTITY !in files ==> moved == copy)
    && (IDENTITY in files ==>
         && IsPlainFile(t, IDENTITY) && IsPlainFile(copy, IDENTITY) && IsPlainFile(moved, IDENTITY)
         && moved == copy[IDENTITY := copy[IDENTITY].(content := moved[IDENTITY].content)]
         && moved[IDENTITY].mode == RestoredMode(t, IDENTITY)
         && ReadIdentity(w.platform, t[IDENTITY].content).Some?
         && var fields := ReadIdentity(w.platform, t[IDENTITY].content).value;
            w.platform.parseJson(moved[IDENTITY].content) == Some(Obj(fields["private_key_ref" := Str(reference)])))
  }

  /** From the file: whatever it opens to, whatever its archive unpacks to and its manifest declares, restoring that
    * into an empty workspace reproduces exactly the selected files, and the identity can then be pointed at the new
    * place of its key.
    */
  lemma CreateThenRestore(
    w: World, t: Tree, settings: seq<Setting>, c: Making, passphrase: string, file: bytes, m: map<string, Json>,
    extracted: map<string, bytes>, members: seq<Member>, entries: seq<Entry>, reference: string)
    requires w.Lawful() && IsCreated(w, t, settings, c, passphrase, file)
    requires c.request.workspace.Some? && Verifiable(w, t, settings, c)
    requires OpensTo(w, file, passphrase, m, extracted)
    requires WORKSPACE_NAME in extracted && w.unpack(extracted[WORKSPACE_NAME]) == Some(members) && Declares(m, entries)
    ensures Restorable(entries, ContentsOf(members)) && |entries| == |c.files|
    ensures RestoreAll(map[], entries, ContentsOf(members), false, 0).result.Ok?
    ensures RestoreAll(map[], entries, ContentsOf(members), false, 0).result.value == |c.files|
    ensures var copy := RestoreAll(map[], entries, ContentsOf(members), false, 0).tree;
            && IsCopy(t, c.files, copy)
            && Relocated(w.platform, copy, entries, reference).Ok?
            && IsMovedCopy(w, t, c.files, reference, copy, Relocated(w.platform, copy, entries, reference).value)
  {
    OpensToParts(w, t, settings, c, passphrase, file, m, extracted, members, entries);
    PartsRestore(w, t, settings, c);
    var copy := RestoreAll(map[], entries, ContentsOf(members), false, 0).tree;
    RestoreCounts(entries, ContentsOf(members), |c.files|);
    RestoredIdentityRelocates(w, t, settings, c, copy, reference);
  }

  lemma RestoreCounts(entries: seq<Entry>, contents: map<string, bytes>, n: nat)
    requires Restorable(entries, contents) && |entries| == n && RestoreAll(map[], entries, contents, false, 0).result.Ok?
    ensures RestoreAll(map[], entries, contents, false, 0).result.value == n
  {
    RestoreCompletes(map[], entries, contents, false, 0);
  }

  /** The file opens to what it was made of. */
  lemma OpensToParts(
    w: World, t: Tree, settings: seq<Setting>, c: Making, passphrase: string, file: bytes, m: map<string, Json>,
    extracted: map<string, bytes>, members: seq<Member>, entries: seq<Entry>)
    requires w.Lawful() && IsCreated(w, t, settings, c, passphrase, file)
    requires c.request.workspace.Some? && Verifiable(w, t, settings, c)
    requires OpensTo(w, file, passphrase, m, extracted)
    requires WORKSPACE_NAME in extracted && w.unpack(extracted[WORKSPACE_NAME]) == Some(members) && Declares(m, entries)
    ensures m == ManifestOf(w, c) && members == c.members && entries == c.request.workspace.value
  {
    var made := CreatedOpens(w, t, settings, c, passphrase, file);
    OpensOnce(w, file, passphrase, m, extracted, ManifestOf(w, c), made);
    PartsRestore(w, t, settings, c);
    DeclaredOnce(m, entries, c.request.workspace.value);
  }

  lemma RestoreFresh(platform: Platform, t: Tree, files: seq<Path>, members: seq<Member>, entries: seq<Entry>)
    requires WellFormed(t) && IsArchiveOf(platform, t, files, members, entries)
    requires forall p | p in files :: ValidPath(p) && NoBackslash(p)
    requires forall i, j | 0 <= i < j < |files| :: Name(files[i]) != Name(files[j])
    ensures Restorable(entries, ContentsOf(members))
    ensures RestoreAll(map[], entries, ContentsOf(members), false, 0).result.Ok?
    ensures IsCopy(t, files, RestoreAll(map[], entries, ContentsOf(members), false, 0).tree)
  {
    FreshRestorable(platform, t, files, members, entries);
    FreshClear(platform, t, files, members, entries);
    SucceedsExactly(map[], entries, ContentsOf(members), false, 0);
    RestoredIsCopy(platform, t, files, members, entries, map[]);
  }

  lemma FreshEntry(
    platform: Platform, t: Tree, files: seq<Path>, members: seq<Member>, entries: seq<Entry>, i: nat)
    requires IsArchiveOf(platform, t, files, members, entries) && DistinctNames(members) && i < |files|
    requires ValidPath(files[i])
    ensures var e, p := entries[i], files[i];
            && e.path == Name(p) && Parts(e.path) == p && 0 <= e.mode && (Safe(e.path) <==> NoBackslash(p))
            && e.path in ContentsOf(members)
            && IsPlainFile(t, p) && Final(e, ContentsOf(members)) == File(t[p].content, RestoredMode(t, p))
  {
    var p := files[i];
    NameRoundTrip(p);
    assert members[i] in members && p in files;
    assert ContentsOf(members)[Name(p)] == t[p].content;
    FinalMode(t, p, entries[i], ContentsOf(members));
  }

  lemma FinalMode(t: Tree, p: Path, e: Entry, contents: map<string, bytes>)
    requires ValidPath(p) && IsPlainFile(t, p) && e.path == Name(p) && e.mode == t[p].mode % 512 && e.path in contents
    ensures Final(e, contents) == File(contents[e.path], RestoredMode(t, p))
  {
    NameInjective(p, VAULT_KEY);
    NameInjective(p, IDENTITY_KEY);
    assert e.mode % 512 == e.mode;
  }

  lemma FreshRestorable(platform: Platform, t: Tree, files: seq<Path>, members: seq<Member>, entries: seq<Entry>)
    requires IsArchiveOf(platform, t, files, members, entries)
    requires forall p | p in files :: ValidPath(p) && NoBackslash(p)
    requires forall i, j | 0 <= i < j < |files| :: Name(files[i]) != Name(files[j])
    ensures DistinctNames(members) && Restorable(entries, ContentsOf(members))
  {
    assert DistinctNames(members);
    forall e | e in entries ensures Safe(e.path) && 0 <= e.mode && e.path in ContentsOf(members) {
      var i :| 0 <= i < |entries| && entries[i] == e;
      assert files[i] in files;
      FreshEntry(platform, t, files, members, entries, i);
    }
  }

  /** Files of one workspace never lie below each other. */
  lemma FreshClear(platform: Platform, t: Tree, files: seq<Path>, members: seq<Member>, entries: seq<Entry>)
    requires WellFormed(t) && IsArchiveOf(platform, t, files, members, entries) && DistinctNames(members)
    requires forall p | p in files :: ValidPath(p)
    ensures Clear(map[], entries, false)
  {
    forall e | e in entries ensures ClearOne(map[], Parts(e.path), false) && Parts(e.path) in files {
      var i :| 0 <= i < |entries| && entries[i] == e;
      assert files[i] in files;
      FreshEntry(platform, t, files, members, entries, i);
    }
    assert forall p, q | p in files && q in files && Above(p, q) :: t[p].Dir?;
  }

  lemma RestoredIsCopy(
    platform: Platform, t: Tree, files: seq<Path>, members: seq<Member>, entries: seq<Entry>, empty: Tree)
    requires IsArchiveOf(platform, t, files, members, entries) && DistinctNames(members)
    requires forall p | p in files :: ValidPath(p)
    requires Restorable(entries, ContentsOf(members)) && empty == map[]
    requires RestoreAll(empty, entries, ContentsOf(members), false, 0).result.Ok?
    ensures IsCopy(t, files, RestoreAll(empty, entries, ContentsOf(members), false, 0).tree)
  {
    RestoreCompletes(empty, entries, ContentsOf(members), false, 0);
    var copy := RestoreAll(empty, entries, ContentsOf(members), false, 0).tree;
    FilesCopied(platform, t, files, members, entries, empty, copy);
  }

  lemma FilesCopied(
    platform: Platform, t: Tree, files: seq<Path>, members: seq<Member>, entries: seq<Entry>, empty: Tree, copy: Tree)
    requires IsArchiveOf(platform, t, files, members, entries) && DistinctNames(members)
    requires forall p | p in files :: ValidPath(p)
    requires Restorable(entries, ContentsOf(members)) && empty == map[]
    requires IsRestored(empty, entries, ContentsOf(members), copy)
    ensures IsCopy(t, files, copy)
  {
    TargetsAreFiles(platform, t, files, members, entries);
    forall p | p in files
      ensures IsPlainFile(t, p) && p in copy && copy[p] == File(t[p].content, RestoredMode(t, p))
    {
      var i :| 0 <= i < |files| && files[i] == p;
      FreshEntry(platform, t, files, members, entries, i);
      assert entries[i] in entries;
    }
    forall p, q | q in files && p != [] && Above(p, q) ensures p in copy {
      var e :| e in entries && Parts(e.path) == q;
    }
  }

  lemma TargetsAreFiles(platform: Platform, t: Tree, files: seq<Path>, members: seq<Member>, entries: seq<Entry>)
    requires IsArchiveOf(platform, t, files, members, entries) && DistinctNames(members)
    requires forall p | p in files :: ValidPath(p)
    ensures forall e | e in entries :: Parts(e.path) in files
    ensures forall p :: IsTarget(entries, p) <==> p in files
  {
    forall e | e in entries ensures Parts(e.path) in files {
      var i :| 0 <= i < |entries| && entries[i] == e;
      assert files[i] in files;
      FreshEntry(platform, t, files, members, entries, i);
    }
    forall p | p in files ensures IsTarget(entries, p) {
      var i :| 0 <= i < |files| && files[i] == p;
      FreshEntry(platform, t, files, members, entries, i);
      assert entries[i] in entries;
    }
  }

  /** The identity document of a copy can be pointed at this workspace's key; only its reference changes. */
  lemma RestoredIdentityRelocates(
    w: World, t: Tree, settings: seq<Setting>, c: Making, copy: Tree, reference: string)
    requires w.Lawful() && IsMade(w, t, settings, c)
    requires c.request.workspace.Some? && Verifiable(w, t, settings, c) && IsCopy(t, c.files, copy)
    ensures var moved := Relocated(w.platform, copy, c.request.workspace.value, reference);
            moved.Ok? && IsMovedCopy(w, t, c.files, reference, copy, moved.value)
  {
    IdentityBundled(
      w.platform, t, settings, c.request.includeSecrets, c.files, c.members, c.request.workspace.value);
    PartsRestore(w, t, settings, c);
    CopyRelocates(w, t, c.files, c.members, c.request.workspace.value, copy, reference);
  }

  lemma CopyRelocates(
    w: World, t: Tree, files: seq<Path>, members: seq<Member>, entries: seq<Entry>, copy: Tree, reference: string)
    requires w.platform.ReadsBack() && IsCopy(t, files, copy) && Restorable(entries, ContentsOf(members))
    requires IsArchiveOf(w.platform, t, files, members, entries)
    requires IDENTITY in files ==> IDENTITY_KEY in files && ReadIdentity(w.platform, t[IDENTITY].content).Some?
    requires Holds(entries, IDENTITY) <==> IDENTITY in files
    ensures var moved := Relocated(w.platform, copy, entries, reference);
            moved.Ok? && IsMovedCopy(w, t, files, reference, copy, moved.value)
  {
    if IDENTITY in files {
      var e := IdentityEntry(w.platform, t, files, members, entries);
      IdentityRelocates(w.platform, copy, entries, reference);
      DeclaredMoves(w.platform, copy, entries, ContentsOf(members), reference, e);
    }
  }

  lemma IdentityEntry(platform: Platform, t: Tree, files: seq<Path>, members: seq<Member>, entries: seq<Entry>)
    returns (e: Entry)
    requires IsArchiveOf(platform, t, files, members, entries) && IDENTITY in files
    ensures e in entries && e.path == Name(IDENTITY) && e.mode == t[IDENTITY].mode % 512
    ensures e.mode % 512 == RestoredMode(t, IDENTITY)
  {
    var i :| 0 <= i < |files| && files[i] == IDENTITY;
    e := entries[i];
  }

  lemma IdentityRelocates(platform: Platform, copy: Tree, entries: seq<Entry>, reference: string)
    requires IsPlainFile(copy, IDENTITY) && IsPlainFile(copy, IDENTITY_KEY)
    requires ReadIdentity(platform, copy[IDENTITY].content).Some?
    ensures Relocated(platform, copy, entries, reference).Ok?
  {
  }

  lemma IdentityBundled(
    platform: Platform, t: Tree, settings: seq<Setting>, includeSecrets: bool, files: seq<Path>, members: seq<Member>,
    entries: seq<Entry>)
    requires WellFormed(t) && Selectable(t, settings, includeSecrets) && IsSelection(t, settings, includeSecrets, files)
    requires IsArchiveOf(platform, t, files, members, entries) && Presentable(platform, t, settings, includeSecrets)
    ensures IDENTITY in files ==> IDENTITY_KEY in files && ReadIdentity(platform, t[IDENTITY].content).Some?
    ensures Holds(entries, IDENTITY) <==> IDENTITY in files
  {
    FilesAreValid(t, settings, includeSecrets, files);
    HoldsExactly(platform, t, files, members, entries, IDENTITY);
    GatedFiles(t, settings, includeSecrets, files);
  }

  // ----- Restoring -----

  /** The database server; a dump is loaded in a single transaction. */
  class Server {
    var loaded: Option<bytes>
  }

  datatype Report = Report(dryRun: bool, databaseRestored: bool, filesRestored: nat, conflicts: seq<string>)

  predicate Conflicting(t: Tree, p: Path) {
    p == [] || p in t
  }

  /** The declared files that already exist, in declaration order. */
  function ConflictsOf(t: Tree, entries: seq<Entry>): seq<string> {
    if entries == [] then []
    else
      ConflictsOf(t, entries[..|entries| - 1])
      + if Conflicting(t, Parts(entries[|entries| - 1].path)) then [entries[|entries| - 1].path] else []
  }

  lemma ConflictsStep(t: Tree, entries: seq<Entry>, i: nat)
    requires i < |entries|
    ensures entries[i] in entries && forall e :: e in entries[..i + 1] <==> e in entries[..i] || e == entries[i]
    ensures ConflictsOf(t, entries[..i + 1]) ==
            ConflictsOf(t, entries[..i]) + if Conflicting(t, Parts(entries[i].path)) then [entries[i].path] else []
  {
    assert entries[..i + 1] == entries[..i] + [entries[i]] && entries[..i + 1][..i] == entries[..i];
  }

  method WorkspaceConflicts(t: Tree, entries: seq<Entry>) returns (r: Result<seq<string>, Error>)
    ensures r == if exists e | e in entries :: Linked(t, Parts(e.path)) then Err(ConflictError)
                 else Ok(ConflictsOf(t, entries))
  {
    var conflicts := [];
    for i := 0 to |entries|
      invariant conflicts == ConflictsOf(t, entries[..i])
      invariant forall e | e in entries[..i] :: !Linked(t, Parts(e.path))
    {
      ConflictsStep(t, entries, i);
      var p := Parts(entries[i].path);
      if Linked(t, p) {
        return Err(ConflictError);
      }
      if Conflicting(t, p) {
        conflicts := conflicts + [entries[i].path];
      }
    }
    assert entries[..|entries|] == entries;
    return Ok(conflicts);
  }

  /** A path is reported exactly if an entry declares it and something is there; `.` always is. */
  lemma {:induction false} ConflictsExactly(t: Tree, entries: seq<Entry>)
    ensures forall name :: name in ConflictsOf(t, entries) <==>
              exists e :: e in entries && e.path == name && (Parts(name) == [] || Parts(name) in t)
    ensures (forall i, j | 0 <= i < j < |entries| :: entries[i].path != entries[j].path) ==>
              forall i, j | 0 <= i < j < |ConflictsOf(t, entries)| :: ConflictsOf(t, entries)[i] != ConflictsOf(t, entries)[j]
  {
    if entries != [] {
      var init, last := entries[..|entries| - 1], entries[|entries| - 1];
      ConflictsExactly(t, init);
      assert entries == init + [last];
      assert forall e :: e in entries <==> e in init || e == last;
      if forall i, j | 0 <= i < j < |entries| :: entries[i].path != entries[j].path {
        assert forall i | 0 <= i < |init| :: init[i] == entries[i];
        assert forall e | e in init :: e.path != last.path;
        assert forall i | 0 <= i < |ConflictsOf(t, init)| :: ConflictsOf(t, init)[i] in ConflictsOf(t, init);
      }
    }
  }

  /** Something that is not a directory, and not a link either, is on the way to a target. */
  ghost predicate Obstructed(t: Tree, entries: seq<Entry>) {
    exists e, k :: e in entries && 0 < k < |Parts(e.path)| && Parts(e.path)[..k] in t
                   && (t[Parts(e.path)[..k]].File? || t[Parts(e.path)[..k]].Special?)
  }

  ghost predicate Nested(entries: seq<Entry>) {
    exists e, f :: e in entries && f in entries && Above(Parts(e.path), Parts(f.path))
  }

  /** A plan that is permitted and reports no conflict can be carried out without force exactly if no target is
    * obstructed and none lies below another: of these two the plan says nothing.
    */
  lemma PlanTells(t: Tree, entries: seq<Entry>)
    requires forall e | e in entries :: !Linked(t, Parts(e.path))
    ensures Clear(t, entries, false) <==> ConflictsOf(t, entries) == [] && !Obstructed(t, entries) && !Nested(entries)
  {
    ConflictsExactly(t, entries);
    if ConflictsOf(t, entries) != [] {
      assert ConflictsOf(t, entries)[0] in ConflictsOf(t, entries);
    }
    forall e | e in entries
      ensures ClearOne(t, Parts(e.path), false) <==> e.path !in ConflictsOf(t, entries) && Unobstructed(t, Parts(e.path))
    {
      ClearTarget(t, entries, e);
    }
  }

  /** Such a plan: no link and no conflict, and a file where a directory is needed. */
  lemma PlanMisses() returns (t: Tree, entries: seq<Entry>, contents: map<string, bytes>)
    ensures WellFormed(t) && Restorable(entries, contents) && (forall e | e in entries :: !Linked(t, Parts(e.path)))
    ensures ConflictsOf(t, entries) == [] && RestoreAll(t, entries, contents, false, 0).result == Err(OsError)
  {
    var p: Path := ["a", "b"];
    NameRoundTrip(p);
    var e := Entry(Name(p), 0, "", 420);
    t, entries, contents := map[["a"] := File([], 420)], [e], map[e.path := []];
    assert Parts(e.path) == p && p[..1] == ["a"] && p != ["a"];
    assert Blocked(t, p, 1) && entries[..0] == [];
  }

  ghost predicate Unobstructed(t: Tree, p: Path) {
    forall k | 0 < k < |p| && p[..k] in t :: !t[p[..k]].File? && !t[p[..k]].Special?
  }

  lemma ClearTarget(t: Tree, entries: seq<Entry>, e: Entry)
    requires e in entries && !Linked(t, Parts(e.path))
    ensures ClearOne(t, Parts(e.path), false) <==> e.path !in ConflictsOf(t, entries) && Unobstructed(t, Parts(e.path))
  {
    ConflictsExactly(t, entries);
    var p := Parts(e.path);
    if Unobstructed(t, p) {
      forall k | 0 < k < |p| ensures !Blocked(t, p, k) {
      }
    }
    if ClearOne(t, p, false) {
      forall k | 0 < k < |p| && p[..k] in t ensures !t[p[..k]].File? && !t[p[..k]].Special? {
        assert !Blocked(t, p, k);
      }
    }
  }

  /** Verification leaves nothing for the restore to trip over in the archive. */
  lemma VerifiedIsRestorable(platform: Platform, m: map<string, Json>, entries: seq<Entry>, members: seq<Member>)
    requires Declares(m, entries) && ArchiveAgrees(platform, m, members)
    ensures Restorable(entries, ContentsOf(members))
  {
    var declared :| Declares(m, declared) && MembersAgree(platform, declared, members);
    DeclaredOnce(m, entries, declared);
    forall e | e in entries ensures Safe(e.path) && 0 <= e.mode && e.path in ContentsOf(members) {
      var i :| 0 <= i < |entries| && entries[i] == e;
      assert ReadEntry(Get(Get(m, "workspace").fields, "files").items[i]) == Some(e);
    }
  }

  /** What a restore is asked to do. */
  datatype Order = Order(database: bool, workspace: bool, confirm: bool, force: bool)

  /** The entries and members a restore works on: none unless the workspace is asked for and there. */
  ghost predicate Concerns(
    w: World, m: map<string, Json>, extracted: map<string, bytes>, o: Order, entries: seq<Entry>, members: seq<Member>)
  {
    if o.workspace && Includes(m, "workspace") then
      && WORKSPACE_NAME in extracted && w.unpack(extracted[WORKSPACE_NAME]) == Some(members) && Declares(m, entries)
      && Restorable(entries, ContentsOf(members))
    else entries == [] && members == []
  }

  /** What a restore is permitted: what is asked for is there, no link is on the way; and if it is confirmed, it is
    * compatible, leaves the database alone and finds nothing in its place, or is forced.
    */
  ghost predicate Permits(m: map<string, Json>, compatible: bool, before: Tree, entries: seq<Entry>, o: Order) {
    && Asks(m, o) && (forall e | e in entries :: !Linked(before, Parts(e.path)))
    && (o.confirm ==> o.force || (compatible && !o.database && ConflictsOf(before, entries) == []))
  }

  /** The workspace with every file restored and the identity pointed at its key, or why that fails. */
  function Replaced(
    w: World, before: Tree, entries: seq<Entry>, members: seq<Member>, force: bool, reference: string): Result<Tree, Error>
    requires Restorable(entries, ContentsOf(members))
  {
    match RestoreAll(before, entries, ContentsOf(members), force, 0)
    case Finished(_, Err(e)) => Err(e)
    case Finished(t, Ok(_)) => Relocated(w.platform, t, entries, reference)
  }

  /** Why a verified snapshot is not restored: what is asked for first, then links on the way, and of a confirmed restore
    * compatibility before conflicts and the database before the files.
    */
  ghost function Obstacle(
    w: World, m: map<string, Json>, compatible: bool, before: Tree, entries: seq<Entry>, members: seq<Member>, o: Order,
    dumpLoads: bool, reference: string): Error
    requires Restorable(entries, ContentsOf(members))
  {
    if !Permits(m, compatible, before, entries, o) then Denial(m, compatible, before, entries, o)
    else if o.database && !dumpLoads then GeneralError
    else match Replaced(w, before, entries, members, o.force, reference)
      case Err(e) => e
      case Ok(_) => GeneralError
  }

  ghost function Denial(m: map<string, Json>, compatible: bool, before: Tree, entries: seq<Entry>, o: Order): Error {
    if !Asks(m, o) then GeneralError
    else if exists e | e in entries :: Linked(before, Parts(e.path)) then ConflictError
    else if !compatible && !o.force then CompatibilityError
    else ConflictError
  }

  /** Something is asked for, and all that is asked for is in the snapshot. */
  ghost predicate Asks(m: map<string, Json>, o: Order) {
    && (o.database || o.workspace)
    && (o.database ==> Includes(m, "database")) && (o.workspace ==> Includes(m, "workspace"))
  }

  /** What a permitted restore that is confirmed still needs: a dump that loads, and a workspace that takes the files. */
  ghost predicate Works(before: Tree, entries: seq<Entry>, o: Order, dumpLoads: bool) {
    (o.database ==> dumpLoads) && (o.workspace ==> Clear(before, entries, o.force))
  }

  /** A verified archive leaves nothing for the relocation to trip over: an identity comes with its key, and can be read
    * as one.
    */
  lemma VerifiedRelocates(
    w: World, m: map<string, Json>, entries: seq<Entry>, members: seq<Member>, before: Tree, force: bool, reference: string)
    requires ArchiveAgrees(w.platform, m, members) && Declares(m, entries) && Restorable(entries, ContentsOf(members))
    ensures Replaced(w, before, entries, members, force, reference).Ok? <==> Clear(before, entries, force)
  {
    SucceedsExactly(before, entries, ContentsOf(members), force, 0);
    if Clear(before, entries, force) && Holds(entries, IDENTITY) {
      var e, key := VerifiedIdentity(w.platform, m, entries, members);
      IdentityRestored(before, entries, ContentsOf(members), force, 0, e);
      KeyRestored(before, entries, ContentsOf(members), force, key);
      IdentityRelocates(
        w.platform, RestoreAll(before, entries, ContentsOf(members), force, 0).tree, entries, reference);
    }
  }

  lemma KeyRestored(before: Tree, entries: seq<Entry>, contents: map<string, bytes>, force: bool, key: Entry)
    requires Restorable(entries, contents) && key in entries && key.path == Name(IDENTITY_KEY)
    requires RestoreAll(before, entries, contents, force, 0).result.Ok?
    ensures IsPlainFile(RestoreAll(before, entries, contents, force, 0).tree, IDENTITY_KEY)
  {
    EntryRestored(before, entries, contents, force, 0, key);
    KeyPath();
  }

  lemma KeyPath()
    ensures Parts(Name(IDENTITY_KEY)) == IDENTITY_KEY
  {
    NameRoundTrip(IDENTITY_KEY);
  }

  /** The identity entry of a verified archive can be read, and its key is declared too. */
  lemma VerifiedIdentity(platform: Platform, m: map<string, Json>, entries: seq<Entry>, members: seq<Member>)
    returns (e: Entry, key: Entry)
    requires ArchiveAgrees(platform, m, members) && Declares(m, entries) && Holds(entries, IDENTITY)
    ensures e in entries && e.path == Name(IDENTITY)
    ensures e.path in ContentsOf(members) && ReadIdentity(platform, ContentsOf(members)[e.path]).Some?
    ensures key in entries && key.path == Name(IDENTITY_KEY)
  {
    var declared :| && Declares(m, declared) && SecretsAgree(declared, ContainsVaultKey(m), SecretBearing(m))
                    && MembersAgree(platform, declared, members);
    DeclaredOnce(m, entries, declared);
    e :| e in entries && e.path == Name(IDENTITY);
    key := KeyOf(entries, ContainsVaultKey(m), SecretBearing(m));
    IdentityContent(platform, entries, members, e);
  }

  lemma KeyOf(entries: seq<Entry>, vault: bool, secrets: bool) returns (key: Entry)
    requires SecretsAgree(entries, vault, secrets) && Holds(entries, IDENTITY)
    ensures key in entries && key.path == Name(IDENTITY_KEY)
  {
    key :| key in entries && key.path == Name(IDENTITY_KEY);
  }

  lemma IdentityContent(platform: Platform, entries: seq<Entry>, members: seq<Member>, e: Entry)
    requires MembersAgree(platform, entries, members) && e in entries && e.path == Name(IDENTITY)
    ensures e.path in ContentsOf(members) && ReadIdentity(platform, ContentsOf(members)[e.path]).Some?
  {
    var member := MemberOf(platform, entries, members, e.path);
    var described :| described in entries && Matches(platform, described, member);
    ContentOf(members, member);
  }

  lemma ContentOf(members: seq<Member>, member: Member)
    requires DistinctNames(members) && member in members
    ensures member.name in ContentsOf(members) && ContentsOf(members)[member.name] == member.content
  {
  }

  /** What a restore leaves, by what has to be in it: every entry written, everything else kept, and of a restored
    * identity document the reference to the key replaced and nothing else.
    */
  ghost predicate IsReplaced(
    platform: Platform, before: Tree, entries: seq<Entry>, contents: map<string, bytes>, reference: string, after: Tree)
    requires forall e | e in entries :: 0 <= e.mode && e.path in contents
  {
    exists restored ::
      && IsRestored(before, entries, contents, restored)
      && if Holds(entries, IDENTITY) then IsMoved(platform, restored, reference, after) else after == restored
  }

  lemma ReplacedMeans(
    w: World, before: Tree, entries: seq<Entry>, members: seq<Member>, force: bool, reference: string)
    requires w.platform.ReadsBack() && Restorable(entries, ContentsOf(members))
    requires Replaced(w, before, entries, members, force, reference).Ok?
    ensures IsReplaced(w.platform, before, entries, ContentsOf(members), reference,
              Replaced(w, before, entries, members, force, reference).value)
  {
    RestoreCompletes(before, entries, ContentsOf(members), force, 0);
    RelocationMoves(w.platform, before, entries, ContentsOf(members), force, 0, reference);
  }

  /** What a restore that succeeds reports. */
  function ReportOf(before: Tree, entries: seq<Entry>, o: Order): Report {
    Report(
      !o.confirm, o.confirm && o.database, if o.confirm && o.workspace then |entries| else 0,
      ConflictsOf(before, entries))
  }

  /** What a restore that succeeds leaves of the workspace. */
  ghost predicate Leaves(
    w: World, before: Tree, after: Tree, entries: seq<Entry>, members: seq<Member>, o: Order, reference: string)
    requires Restorable(entries, ContentsOf(members))
  {
    if o.confirm && o.workspace then Replaced(w, before, entries, members, o.force, reference) == Ok(after)
    else after == before
  }

  /** What it leaves of the database. */
  ghost predicate Loads(extracted: map<string, bytes>, before: Option<bytes>, after: Option<bytes>, o: Order) {
    if o.confirm && o.database then DUMP_NAME in extracted && after == Some(extracted[DUMP_NAME])
    else after == before
  }

  /** `restore_snapshot`: opens and verifies the file, then plans the restore, or with `confirm` performs it. It
    * succeeds exactly if the file verifies, the restore is permitted and, when confirmed, works. Nothing changes
    * without `confirm`; without `force` the database is not touched and every file that was there before stays as it
    * was, at every step. `v` is what verification found, and `entries` and `members` are the only ones the restore
    * can concern.
    */
  method RestoreSnapshot(
    w: World, target: Target, server: Server, here: Schema.Installation, file: bytes, passphrase: string, o: Order,
    dumpLoads: bool, reference: string)
    returns (r: Result<Report, Error>, ghost v: Option<Verified>, ghost entries: seq<Entry>, ghost members: seq<Member>)
    requires WellFormed(target.tree)
    modifies target, server
    ensures !o.confirm ==> target.tree == old(target.tree) && server.loaded == old(server.loaded)
    ensures !o.force ==>
              && server.loaded == old(server.loaded) && Keeps(old(target.tree), target.tree)
              && KeptThroughout(old(target.tree), old(target.history), target.history)
    ensures !o.database && !o.workspace ==> r == Err(GeneralError) && v.None?
    ensures v.None? && (o.database || o.workspace) ==>
              && r.Err?
              && (forall m, extracted | OpensTo(w, file, passphrase, m, extracted) ::
                    !Passes(w, IsEncrypted(file), m, extracted) && r.error == Fault(w, IsEncrypted(file), m, extracted))
              && ((forall m, extracted :: !OpensTo(w, file, passphrase, m, extracted)) ==>
                    match Materialized(w, file, passphrase)
                    case Err(e) => r.error == e
                    case Ok(_) => r.error == IntegrityError)
    ensures v.Some? && r.Err? ==>
              Restorable(entries, ContentsOf(members)) &&
              r.error == Obstacle(
                w, v.value.manifest, Compatible(here, v.value.manifest), old(target.tree), entries, members, o, dumpLoads,
                reference)
    ensures v.Some? ==>
              && OpensTo(w, file, passphrase, v.value.manifest, v.value.extracted)
              && Passes(w, IsEncrypted(file), v.value.manifest, v.value.extracted)
              && Concerns(w, v.value.manifest, v.value.extracted, o, entries, members)
              && Restorable(entries, ContentsOf(members))
    ensures v.Some? ==>
              (r.Ok? <==>
                && Permits(v.value.manifest, Compatible(here, v.value.manifest), old(target.tree), entries, o)
                && (o.confirm ==> Works(old(target.tree), entries, o, dumpLoads)))
    ensures r.Ok? ==>
              && r.value == ReportOf(old(target.tree), entries, o)
              && Leaves(w, old(target.tree), target.tree, entries, members, o, reference)
              && Loads(v.value.extracted, old(server.loaded), server.loaded, o)
    ensures r.Ok? && o.confirm && o.workspace && w.platform.ReadsBack() ==>
              IsReplaced(w.platform, old(target.tree), entries, ContentsOf(members), reference, target.tree)
  {
    v, entries, members := None, [], [];
    if !o.database && !o.workspace {
      return Err(GeneralError), v, entries, members;
    }
    var verified := VerifySnapshot(w, here, file, passphrase);
    match verified {
      case Err(e) =>
        r := Err(e);
      case Ok(found) =>
        v := Some(found);
        r, entries, members := RestoreVerified(w, target, server, found, o, dumpLoads, reference);
    }
  }

  /** The part of `restore_snapshot` behind the verification. */
  method RestoreVerified(
    w: World, target: Target, server: Server, v: Verified, o: Order, dumpLoads: bool, reference: string)
    returns (r: Result<Report, Error>, ghost entries: seq<Entry>, ghost members: seq<Member>)
    requires WellFormed(target.tree)
    requires Passes(w, v.encrypted, v.manifest, v.extracted) && (o.database || o.workspace)
    modifies target, server
    ensures !o.confirm ==> target.tree == old(target.tree) && server.loaded == old(server.loaded)
    ensures !o.force ==>
              && server.loaded == old(server.loaded) && Keeps(old(target.tree), target.tree)
              && KeptThroughout(old(target.tree), old(target.history), target.history)
    ensures Concerns(w, v.manifest, v.extracted, o, entries, members) && Restorable(entries, ContentsOf(members))
    ensures r.Err? ==>
              r.error == Obstacle(
                w, v.manifest, v.verdict.compatible, old(target.tree), entries, members, o, dumpLoads, reference)
    ensures r.Ok? <==>
              && Permits(v.manifest, v.verdict.compatible, old(target.tree), entries, o)
              && (o.confirm ==> Works(old(target.tree), entries, o, dumpLoads))
    ensures r.Ok? ==>
              && r.value == ReportOf(old(target.tree), entries, o)
              && Leaves(w, old(target.tree), target.tree, entries, members, o, reference)
              && Loads(v.extracted, old(server.loaded), server.loaded, o)
    ensures r.Ok? && o.confirm && o.workspace && w.platform.ReadsBack() ==>
              IsReplaced(w.platform, old(target.tree), entries, ContentsOf(members), reference, target.tree)
  {
    var listed, inner := Listed(w, v, o);
    entries, members := listed, inner;
    var conflicts := Permit(v.manifest, v.verdict.compatible, target.tree, listed, o);
    if conflicts.Err? {
      return Err(conflicts.error), entries, members;
    }
    if !o.confirm {
      return Ok(Report(true, false, 0, conflicts.value)), entries, members;
    }
    var restored := RestorePermitted(w, target, server, v.manifest, v.extracted, listed, inner, o, dumpLoads, reference);
    match restored {
      case Err(e) =>
        r := Err(e);
      case Ok(n) =>
        r := Ok(Report(false, o.database, n, conflicts.value));
    }
  }

  /** A confirmed restore that nothing speaks against. */
  method RestorePermitted(
    w: World, target: Target, server: Server, ghost m: map<string, Json>, extracted: map<string, bytes>, entries: seq<Entry>,
    members: seq<Member>, o: Order, dumpLoads: bool, reference: string)
    returns (r: Result<nat, Error>)
    requires WellFormed(target.tree) && Restorable(entries, ContentsOf(members))
    requires o.confirm && (o.database ==> o.force && DUMP_NAME in extracted)
    requires o.workspace ==> ArchiveAgrees(w.platform, m, members) && Declares(m, entries)
    modifies target, server
    ensures !o.force ==>
              && server.loaded == old(server.loaded) && Keeps(old(target.tree), target.tree)
              && KeptThroughout(old(target.tree), old(target.history), target.history)
    ensures r.Ok? <==> Works(old(target.tree), entries, o, dumpLoads)
    ensures r.Err? ==>
              if o.database && !dumpLoads then r.error == GeneralError
              else Replaced(w, old(target.tree), entries, members, o.force, reference) == Err(r.error)
    ensures r.Ok? ==>
              && r.value == (if o.workspace then |entries| else 0)
              && Leaves(w, old(target.tree), target.tree, entries, members, o, reference)
              && Loads(extracted, old(server.loaded), server.loaded, o)
    ensures r.Ok? && o.workspace && w.platform.ReadsBack() ==>
              IsReplaced(w.platform, old(target.tree), entries, ContentsOf(members), reference, target.tree)
  {
    if o.workspace {
      VerifiedRelocates(w, m, entries, members, target.tree, o.force, reference);
    }
    r := Perform(w, target, server, extracted, entries, members, o, dumpLoads, reference);
    if r.Ok? && o.workspace && w.platform.ReadsBack() {
      ReplacedMeans(w, old(target.tree), entries, members, o.force, reference);
    }
  }

  /** What a restore of a verified snapshot works on; there is only one answer. */
  method Listed(w: World, v: Verified, o: Order) returns (entries: seq<Entry>, members: seq<Member>)
    requires Passes(w, v.encrypted, v.manifest, v.extracted)
    ensures Concerns(w, v.manifest, v.extracted, o, entries, members) && Restorable(entries, ContentsOf(members))
    ensures forall e, m | Concerns(w, v.manifest, v.extracted, o, e, m) :: e == entries && m == members
    ensures o.database && Includes(v.manifest, "database") ==> DUMP_NAME in v.extracted
  {
    entries, members := [], [];
    if o.workspace && IsTrue(Get(v.manifest, "workspace"), "included") {
      var declared := WorkspaceManifestFiles(v.manifest);
      entries, members := declared.value, w.unpack(v.extracted[WORKSPACE_NAME]).value;
      VerifiedIsRestorable(w.platform, v.manifest, entries, members);
      forall e | Declares(v.manifest, e) ensures e == entries {
        DeclaredOnce(v.manifest, e, entries);
      }
    }
  }

  /** The checks before anything is changed, and the conflicts for the report. */
  method Permit(m: map<string, Json>, compatible: bool, t: Tree, entries: seq<Entry>, o: Order)
    returns (r: Result<seq<string>, Error>)
    requires o.database || o.workspace
    ensures r.Ok? <==> Permits(m, compatible, t, entries, o)
    ensures r.Ok? ==> r.value == ConflictsOf(t, entries)
    ensures r.Err? ==> r.error == Denial(m, compatible, t, entries, o)
  {
    var doDatabase := o.database && IsTrue(Get(m, "database"), "included");
    var doWorkspace := o.workspace && IsTrue(Get(m, "workspace"), "included");
    if doDatabase != o.database || doWorkspace != o.workspace {
      return Err(GeneralError);
    }
    r := WorkspaceConflicts(t, entries);
    if r.Err? || !o.confirm {
      return;
    }
    if !compatible && !o.force {
      return Err(CompatibilityError);
    }
    if (doDatabase || r.value != []) && !o.force {
      return Err(ConflictError);
    }
  }

  /** Loads the dump, then restores the files; returns their number. */
  method Perform(
    w: World, target: Target, server: Server, extracted: map<string, bytes>, entries: seq<Entry>, members: seq<Member>,
    o: Order, dumpLoads: bool, reference: string)
    returns (r: Result<nat, Error>)
    requires WellFormed(target.tree) && Restorable(entries, ContentsOf(members))
    requires o.confirm && (o.database ==> o.force && DUMP_NAME in extracted)
    modifies target, server
    ensures !o.force ==>
              && server.loaded == old(server.loaded) && Keeps(old(target.tree), target.tree)
              && KeptThroughout(old(target.tree), old(target.history), target.history)
    ensures r.Ok? <==>
              && (o.database ==> dumpLoads)
              && (o.workspace ==> Replaced(w, old(target.tree), entries, members, o.force, reference).Ok?)
    ensures r.Err? ==>
              if o.database && !dumpLoads then r.error == GeneralError
              else Replaced(w, old(target.tree), entries, members, o.force, reference) == Err(r.error)
    ensures r.Ok? ==>
              && r.value == (if o.workspace then |entries| else 0)
              && Leaves(w, old(target.tree), target.tree, entries, members, o, reference)
              && Loads(extracted, old(server.loaded), server.loaded, o)
  {
    if o.database {
      if !dumpLoads {
        return Err(GeneralError);
      }
      server.loaded := Some(extracted[DUMP_NAME]);
    }
    if !o.workspace {
      return Ok(0);
    }
    r := RestoreFiles(w, target, entries, members, o.force, reference);
  }

  method RestoreFiles(
    w: World, target: Target, entries: seq<Entry>, members: seq<Member>, force: bool, reference: string)
    returns (r: Result<nat, Error>)
    requires WellFormed(target.tree) && Restorable(entries, ContentsOf(members))
    modifies target
    ensures old(target.history) <= target.history
    ensures !force ==>
              Keeps(old(target.tree), target.tree) && KeptThroughout(old(target.tree), old(target.history), target.history)
    ensures match Replaced(w, old(target.tree), entries, members, force, reference)
            case Ok(t) => r.Ok? && r.value == |entries| && target.tree == t
            case Err(e) => r.Err? && r.error == e && target.tree == RestoreAll(old(target.tree), entries, ContentsOf(members), force, 0).tree
  {
    r := CopyFiles(target, entries, ContentsOf(members), force);
    ghost var middle, soFar := target.tree, target.history;
    if r.Err? {
      return;
    }
    var relocated := target.RelocateKeyReference(w.platform, entries, reference);
    if !force {
      RelocationKeeps(
        w.platform, old(target.tree), middle, target.tree, entries, ContentsOf(members), reference, old(target.history),
        soFar, target.history);
    }
    if relocated.Fail? {
      return Err(relocated.error);
    }
  }

  method CopyFiles(target: Target, entries: seq<Entry>, contents: map<string, bytes>, force: bool)
    returns (r: Result<nat, Error>)
    requires WellFormed(target.tree) && Restorable(entries, contents)
    modifies target
    ensures old(target.history) <= target.history
    ensures !force ==>
              Keeps(old(target.tree), target.tree) && KeptThroughout(old(target.tree), old(target.history), target.history)
    ensures RestoreAll(old(target.tree), entries, contents, force, 0) == Finished(target.tree, r)
    ensures r.Ok? ==> r.value == |entries|
  {
    r := target.RestoreWorkspace(entries, contents, force);
    if !force {
      UnforcedKeeps(old(target.tree), entries, contents, old(target.history), target.history);
    }
    if r.Ok? {
      RestoreCompletes(old(target.tree), entries, contents, force, 0);
    }
  }

  /** The command on an empty workspace, with the workspace part of a created and verifiable snapshot: it succeeds
    * exactly if the snapshot is compatible or the restore is forced, reports the number of selected files and no
    * conflict, and leaves the copy with its identity moved.
    */
  method RestoreIntoEmpty(
    w: World, t: Tree, settings: seq<Setting>, ghost c: Making, file: bytes, passphrase: string, target: Target,
    server: Server, here: Schema.Installation, force: bool, dumpLoads: bool, reference: string)
    returns (r: Result<Report, Error>)
    requires w.Lawful() && IsCreated(w, t, settings, c, passphrase, file) && SchemaRecorded(c.request)
    requires c.request.workspace.Some? && Verifiable(w, t, settings, c)
    requires target.tree == map[]
    modifies target, server
    ensures r.Ok? <==> force || Compatible(here, ManifestOf(w, c))
    ensures r.Ok? ==> r.value == Report(false, false, |c.files|, [])
    ensures r.Ok? ==> exists copy :: IsCopy(t, c.files, copy) && IsMovedCopy(w, t, c.files, reference, copy, target.tree)
  {
    var o := Order(false, true, true, force);
    ghost var v, entries, members;
    r, v, entries, members := RestoreSnapshot(w, target, server, here, file, passphrase, o, dumpLoads, reference);
    CreatedVerifiesExactly(w, t, settings, c, passphrase, file);
    ghost var m, extracted := v.value.manifest, v.value.extracted;
    MadeIncludes(w, t, settings, c, passphrase, file, m, extracted);
    EmptyTakes(w, t, settings, c, passphrase, file, m, extracted, entries, members, force, reference);
    EmptyPermits(m, Compatible(here, m), entries, o);
  }

  lemma MadeIncludes(
    w: World, t: Tree, settings: seq<Setting>, c: Making, passphrase: string, file: bytes, m: map<string, Json>,
    extracted: map<string, bytes>)
    requires w.Lawful() && IsCreated(w, t, settings, c, passphrase, file) && c.request.workspace.Some?
    requires OpensTo(w, file, passphrase, m, extracted)
    ensures m == ManifestOf(w, c) && Includes(m, "workspace")
  {
    var made := CreatedOpens(w, t, settings, c, passphrase, file);
    OpensOnce(w, file, passphrase, m, extracted, ManifestOf(w, c), made);
    ManifestFields(w.platform, c.request, ArtifactsOf(w.platform, Staging(w, c)));
    WorkspaceIncluded(m, c.request);
  }

  lemma EmptyTakes(
    w: World, t: Tree, settings: seq<Setting>, c: Making, passphrase: string, file: bytes, m: map<string, Json>,
    extracted: map<string, bytes>, entries: seq<Entry>, members: seq<Member>, force: bool, reference: string)
    requires w.Lawful() && IsCreated(w, t, settings, c, passphrase, file)
    requires c.request.workspace.Some? && Verifiable(w, t, settings, c) && OpensTo(w, file, passphrase, m, extracted)
    requires WORKSPACE_NAME in extracted && w.unpack(extracted[WORKSPACE_NAME]) == Some(members) && Declares(m, entries)
    requires Restorable(entries, ContentsOf(members))
    ensures |entries| == |c.files| && Clear(map[], entries, false) && Clear(map[], entries, force)
    ensures Replaced(w, map[], entries, members, force, reference).Ok?
    ensures exists copy ::
              && IsCopy(t, c.files, copy)
              && IsMovedCopy(w, t, c.files, reference, copy, Replaced(w, map[], entries, members, force, reference).value)
  {
    CreateThenRestore(w, t, settings, c, passphrase, file, m, extracted, members, entries, reference);
    ForceAlike(map[], entries, ContentsOf(members), 0);
    SucceedsExactly(map[], entries, ContentsOf(members), false, 0);
  }

  lemma EmptyPermits(m: map<string, Json>, compatible: bool, entries: seq<Entry>, o: Order)
    requires Includes(m, "workspace") && o == Order(false, true, true, o.force) && Clear(map[], entries, false)
    ensures Permits(m, compatible, map[], entries, o) <==> o.force || compatible
    ensures ConflictsOf(map[], entries) == []
  {
    EmptyHasNoConflicts(entries);
  }

  /** Where nothing is there, force makes no difference. */
  lemma {:induction false} EmptyHasNoConflicts(entries: seq<Entry>)
    requires Clear(map[], entries, false)
    ensures ConflictsOf(map[], entries) == []
  {
    if entries != [] {
      var last := entries[|entries| - 1];
      assert last in entries && entries == entries[..|entries| - 1] + [last];
      EmptyHasNoConflicts(entries[..|entries| - 1]);
    }
  }

  /** Every state between `h0` and `h1` still has all of `before`. */
  ghost predicate KeptThroughout(before: Tree, h0: seq<Tree>, h1: seq<Tree>) {
    h0 <= h1 && forall i | |h0| <= i < |h1| :: Keeps(before, h1[i])
  }

  lemma UnforcedKeeps(before: Tree, entries: seq<Entry>, contents: map<string, bytes>, h0: seq<Tree>, h1: seq<Tree>)
    requires WellFormed(before) && Restorable(entries, contents)
    requires h0 <= h1 && forall i | |h0| <= i < |h1| :: Safely(before, entries, contents, false, h1[i])
    ensures Keeps(before, RestoreAll(before, entries, contents, false, 0).tree) && KeptThroughout(before, h0, h1)
  {
    NoClobber(before, entries, contents, 0);
    forall i | |h0| <= i < |h1| ensures Keeps(before, h1[i]) {
      assert Safely(before, entries, contents, false, h1[i]);
    }
  }

  lemma RelocationKeeps(
    platform: Platform, before: Tree, middle: Tree, after: Tree, entries: seq<Entry>, contents: map<string, bytes>,
    reference: string, h0: seq<Tree>, h1: seq<Tree>, h2: seq<Tree>)
    requires Restorable(entries, contents) && RestoreAll(before, entries, contents, false, 0).result.Ok?
    requires KeptThroughout(before, h0, h1) && Keeps(before, middle) && h1 <= h2
    requires !Holds(entries, IDENTITY) ==> h2 == h1
    requires forall i | |h1| <= i < |h2| ::
               forall q | q in middle && q != IDENTITY :: q in h2[i] && h2[i][q] == middle[q]
    requires match Relocated(platform, middle, entries, reference)
             case Ok(t) => after == t
             case Err(_) => after == middle
    ensures Keeps(before, after) && KeptThroughout(before, h0, h2)
  {
    IdentityIsNew(before, entries, contents);
    KeptThroughRelocation(before, middle, entries, h0, h1, h2);
    RelocatedKeeps(platform, before, middle, entries, reference);
  }

  lemma RelocatedKeeps(platform: Platform, before: Tree, middle: Tree, entries: seq<Entry>, reference: string)
    requires Keeps(before, middle) && (Holds(entries, IDENTITY) ==> IDENTITY !in before)
    ensures Relocated(platform, middle, entries, reference).Ok? ==>
              Keeps(before, Relocated(platform, middle, entries, reference).value)
  {
  }

  lemma KeptThroughRelocation(
    before: Tree, middle: Tree, entries: seq<Entry>, h0: seq<Tree>, h1: seq<Tree>, h2: seq<Tree>)
    requires KeptThroughout(before, h0, h1) && Keeps(before, middle) && h1 <= h2
    requires if Holds(entries, IDENTITY) then IDENTITY !in before else h2 == h1
    requires forall i | |h1| <= i < |h2| ::
               forall q | q in middle && q != IDENTITY :: q in h2[i] && h2[i][q] == middle[q]
    ensures KeptThroughout(before, h0, h2)
  {
    forall i | |h0| <= i < |h2| ensures Keeps(before, h2[i]) {
      if i < |h1| {
        assert h2[i] == h1[i];
      }
    }
  }

  lemma IdentityIsNew(t: Tree, entries: seq<Entry>, contents: map<string, bytes>)
    requires Restorable(entries, contents) && RestoreAll(t, entries, contents, false, 0).result.Ok?
    ensures Holds(entries, IDENTITY) ==> IDENTITY !in t
  {
    SucceedsExactly(t, entries, contents, false, 0);
    NameRoundTrip(IDENTITY);
  }
}
