/** The workspace archive inside a snapshot, its entries in the manifest, and the check that
  * they agree (robothor/snapshot.py:678-714, 1075-1168).
  */
module Archive {
  import opened Wrappers
  import opened Bytes
  import opened Json
  import opened Text
  import opened Paths
  import opened Workspace

  datatype Member = Member(name: string, regular: bool, mode: nat, content: bytes)

  /** One entry of the manifest's `workspace.files`. */
  datatype Entry = Entry(path: string, size: int, sha256: string, mode: int)

  /** Digest, JSON and time functions of the standard library. `clock` prints the time of a moment, and
    * `timestamp` says whether a text is a time and has a zone.
    */
  datatype Platform = Platform(
    sha256: bytes -> string,
    printJson: Json -> bytes,
    parseJson: bytes -> Option<Json>,
    clock: int -> string,
    timestamp: string -> Option<bool>)
  {
    ghost predicate Hashes() {
      forall b :: IsChecksum(sha256(b))
    }

    ghost predicate ReadsBack() {
      forall j :: parseJson(printJson(j)) == Some(j)
    }

    ghost predicate KeepsTime() {
      forall moment :: timestamp(clock(moment)) == Some(true)
    }

    ghost predicate Lawful() {
      Hashes() && ReadsBack() && KeepsTime()
    }
  }

  /** 64 lower-case hexadecimal digits. */
  predicate IsChecksum(s: string) {
    |s| == 64 && forall c | c in s :: '0' <= c <= '9' || 'a' <= c <= 'f'
  }

  ghost predicate IsHex64(s: string) {
    |s| == 64 && forall i | 0 <= i < |s| :: 48 <= s[i] as int <= 57 || 97 <= s[i] as int <= 102
  }

  lemma ChecksumExactly(s: string)
    ensures IsChecksum(s) <==> IsHex64(s)
  {
    assert forall i | 0 <= i < |s| :: s[i] in s;
  }

  // ----- Building -----

  function Archived(t: Tree, p: Path): Member
    requires IsPlainFile(t, p)
  {
    Member(Name(p), true, t[p].mode % 512, t[p].content)
  }

  function Described(platform: Platform, m: Member): Entry {
    Entry(m.name, |m.content|, platform.sha256(m.content), m.mode)
  }

  function EntryJson(e: Entry): Json {
    Obj(map["path" := Str(e.path), "size" := Int(e.size), "sha256" := Str(e.sha256), "mode" := Int(e.mode)])
  }

  /** The archive of `files` and what the manifest says about it, member by member. */
  ghost predicate IsArchiveOf(
    platform: Platform, t: Tree, files: seq<Path>, members: seq<Member>, entries: seq<Entry>)
  {
    && |members| == |entries| == |files|
    && (forall p | p in files :: IsPlainFile(t, p))
    && forall i | 0 <= i < |files| :: members[i] == Archived(t, files[i]) && entries[i] == Described(platform, members[i])
  }

  method BuildWorkspaceArchive(platform: Platform, t: Tree, files: seq<Path>)
    returns (members: seq<Member>, entries: seq<Entry>)
    requires forall p | p in files :: IsPlainFile(t, p)
    ensures IsArchiveOf(platform, t, files, members, entries)
  {
    members, entries := [], [];
    for i := 0 to |files|
      invariant |members| == |entries| == i
      invariant forall k | 0 <= k < i :: members[k] == Archived(t, files[k]) && entries[k] == Described(platform, members[k])
    {
      assert files[i] in files;
      var m := Archived(t, files[i]);
      members := members + [m];
      entries := entries + [Described(platform, m)];
    }
  }

  // ----- Reading the manifest's file list -----

  function ReadEntry(value: Json): Option<Entry> {
    match value
    case Obj(fields) => (
      match (Get(fields, "path"), Get(fields, "size"), Get(fields, "sha256"), Get(fields, "mode"))
      case (Str(path), Int(size), Str(checksum), Int(mode)) =>
        if Safe(path) && size >= 0 && IsChecksum(checksum) && 0 <= mode <= 511
        then Some(Entry(path, size, checksum, mode)) else None
      case _ => None)
    case _ => None
  }

  /** A file entry is read exactly from an object with a safe path, a size, a well-formed digest and permission bits. */
  lemma EntryExactly(value: Json, e: Entry)
    ensures ReadEntry(value) == Some(e) <==>
              && value.Obj?
              && Get(value.fields, "path") == Str(e.path) && Get(value.fields, "size") == Int(e.size)
              && Get(value.fields, "sha256") == Str(e.sha256) && Get(value.fields, "mode") == Int(e.mode)
              && Safe(e.path) && e.size >= 0 && IsHex64(e.sha256) && 0 <= e.mode < 512
  {
    ChecksumExactly(e.sha256);
  }

  /** `manifest` declares exactly `entries`, in this order, each path once. */
  ghost predicate Declares(manifest: map<string, Json>, entries: seq<Entry>) {
    && Get(manifest, "workspace").Obj?
    && var files := Get(Get(manifest, "workspace").fields, "files");
    && files.List?
    && |files.items| == |entries|
    && (forall i | 0 <= i < |entries| :: ReadEntry(files.items[i]) == Some(entries[i]))
    && forall i, j | 0 <= i < j < |entries| :: entries[i].path != entries[j].path
  }

  lemma DeclaredDistinct(manifest: map<string, Json>, entries: seq<Entry>, i: nat, j: nat)
    requires Declares(manifest, entries)
    requires i < j < |Get(Get(manifest, "workspace").fields, "files").items|
    ensures var items := Get(Get(manifest, "workspace").fields, "files").items;
            && ReadEntry(items[i]).Some? && ReadEntry(items[j]).Some?
            && ReadEntry(items[i]).value.path != ReadEntry(items[j]).value.path
  {
    assert entries[i].path != entries[j].path;
  }

  method WorkspaceManifestFiles(manifest: map<string, Json>) returns (r: Result<seq<Entry>, Error>)
    ensures r.Ok? ==> Declares(manifest, r.value)
    ensures r.Err? ==> r.error == IntegrityError && forall entries :: !Declares(manifest, entries)
  {
    var workspace := Get(manifest, "workspace");
    if !workspace.Obj? {
      return Err(IntegrityError);
    }
    var files := Get(workspace.fields, "files");
    if !files.List? {
      return Err(IntegrityError);
    }
    var entries: seq<Entry>, seen: set<string> := [], {};
    for i := 0 to |files.items|
      invariant |entries| == i
      invariant forall k | 0 <= k < i :: ReadEntry(files.items[k]) == Some(entries[k])
      invariant seen == set k | 0 <= k < i :: entries[k].path
      invariant forall k, l | 0 <= k < l < i :: entries[k].path != entries[l].path
    {
      var entry := ReadEntry(files.items[i]);
      if entry.None? {
        return Err(IntegrityError);
      }
      if entry.value.path in seen {
        var k :| 0 <= k < i && entries[k].path == entry.value.path;
        forall other ensures !Declares(manifest, other) {
          if Declares(manifest, other) {
            DeclaredDistinct(manifest, other, k, i);
          }
        }
        return Err(IntegrityError);
      }
      entries, seen := entries + [entry.value], seen + {entry.value.path};
    }
    return Ok(entries);
  }

  // ----- Agreement -----

  const IDENTITY_LIMIT: nat := 1048576

  /** The federation identity document, if `data` is one. */
  function ReadIdentity(platform: Platform, data: bytes): Option<map<string, Json>> {
    if |data| > IDENTITY_LIMIT then None else
      match platform.parseJson(data)
      case Some(Obj(fields)) => (
        match Get(fields, "private_key_ref")
        case Str(reference) => if IsBlank(reference) then None else Some(fields)
        case _ => None)
      case _ => None
  }

  /** An identity document is exactly a JSON object of at most 1 MiB with a key reference that is not blank. */
  lemma IdentityExactly(platform: Platform, data: bytes, fields: map<string, Json>)
    ensures ReadIdentity(platform, data) == Some(fields) <==>
              && |data| <= 1024 * 1024 && platform.parseJson(data) == Some(Obj(fields))
              && Get(fields, "private_key_ref").Str? && !IsBlank(Get(fields, "private_key_ref").s)
  {
  }

  predicate Holds(entries: seq<Entry>, p: Path) {
    exists e :: e in entries && e.path == Name(p)
  }

  /** Secrets are declared, bundled and private. */
  predicate SecretsAgree(entries: seq<Entry>, containsVaultKey: bool, secretBearing: bool) {
    && Holds(entries, VAULT_KEY) == containsVaultKey
    && (forall e | e in entries && (e.path == Name(VAULT_KEY) || e.path == Name(IDENTITY_KEY)) ::
          secretBearing && OwnerOnly(e.mode))
    && Holds(entries, IDENTITY) == Holds(entries, IDENTITY_KEY)
    && (Holds(entries, IDENTITY) ==> secretBearing)
  }

  /** `m` is what entry `e` describes. */
  predicate Matches(platform: Platform, e: Entry, m: Member) {
    && m.name == e.path
    && m.regular
    && |m.content| == e.size
    && m.mode % 4096 == e.mode
    && platform.sha256(m.content) == e.sha256
    && (m.name == Name(IDENTITY) ==> ReadIdentity(platform, m.content).Some?)
  }

  ghost predicate DistinctNames(members: seq<Member>) {
    forall i, j | 0 <= i < j < |members| :: members[i].name != members[j].name
  }

  ghost predicate EachDescribed(platform: Platform, entries: seq<Entry>, members: seq<Member>) {
    forall m | m in members :: exists e :: e in entries && Matches(platform, e, m)
  }

  ghost predicate EachPresent(entries: seq<Entry>, members: seq<Member>) {
    forall e | e in entries :: exists m :: m in members && m.name == e.path
  }

  /** Entries and members correspond one to one. */
  ghost predicate MembersAgree(platform: Platform, entries: seq<Entry>, members: seq<Member>) {
    DistinctNames(members) && EachDescribed(platform, entries, members) && EachPresent(entries, members)
  }

  predicate ContainsVaultKey(manifest: map<string, Json>) {
    match Get(manifest, "workspace")
    case Obj(fields) => Get(fields, "contains_vault_key") == Bool(true)
    case _ => false
  }

  predicate SecretBearing(manifest: map<string, Json>) {
    match Get(manifest, "protection")
    case Obj(fields) => Get(fields, "secret_bearing") == Bool(true)
    case _ => false
  }

  /** The manifest and the workspace archive tell the same story. */
  ghost predicate ArchiveAgrees(platform: Platform, manifest: map<string, Json>, members: seq<Member>) {
    && Get(manifest, "protection").Obj?
    && exists entries ::
         && Declares(manifest, entries)
         && SecretsAgree(entries, ContainsVaultKey(manifest), SecretBearing(manifest))
         && MembersAgree(platform, entries, members)
  }

  lemma DeclaredOnce(manifest: map<string, Json>, a: seq<Entry>, b: seq<Entry>)
    requires Declares(manifest, a) && Declares(manifest, b)
    ensures a == b
  {
    assert forall i | 0 <= i < |a| :: Some(a[i]) == Some(b[i]);
  }

  /** What agreement means for entries and members, spelled out. */
  ghost predicate Corresponds(platform: Platform, entries: seq<Entry>, members: seq<Member>) {
    && (forall i, j | 0 <= i < j < |members| :: members[i].name != members[j].name)
    && (forall m | m in members ::
          && m.regular && (m.name == ".robothor/identity.json" ==> ReadIdentity(platform, m.content).Some?)
          && exists e | e in entries ::
               && e.path == m.name && e.size == |m.content| && e.sha256 == platform.sha256(m.content)
               && e.mode == m.mode % 4096)
    && (forall e | e in entries :: exists m | m in members :: m.name == e.path)
  }

  /** The secrets by their names, and what the two flags of the manifest must say of them. */
  ghost predicate SecretsInOrder(entries: seq<Entry>, contains: bool, bearing: bool) {
    && ((exists e | e in entries :: e.path == ".vault-key") <==> contains)
    && ((exists e | e in entries :: e.path == ".robothor/identity.json") <==>
        (exists e | e in entries :: e.path == ".robothor/identity.key"))
    && (forall e | e in entries && e.path == ".robothor/identity.json" :: bearing)
    && (forall e | e in entries && (e.path == ".vault-key" || e.path == ".robothor/identity.key") ::
          bearing && e.mode % 64 == 0)
  }

  ghost predicate AgreesPlainly(
    platform: Platform, manifest: map<string, Json>, members: seq<Member>, entries: seq<Entry>, contains: bool,
    bearing: bool)
  {
    && Declares(manifest, entries) && Flags(manifest, contains, bearing)
    && Corresponds(platform, entries, members) && SecretsInOrder(entries, contains, bearing)
  }

  /** What the manifest says of secrets. */
  ghost predicate Flags(manifest: map<string, Json>, contains: bool, bearing: bool) {
    && Get(manifest, "workspace").Obj? && Get(manifest, "protection").Obj?
    && (contains <==> Get(Get(manifest, "workspace").fields, "contains_vault_key") == Bool(true))
    && (bearing <==> Get(Get(manifest, "protection").fields, "secret_bearing") == Bool(true))
  }

  /** Agreement of manifest and archive, spelled out. */
  lemma AgreesExactly(platform: Platform, manifest: map<string, Json>, members: seq<Member>)
    ensures ArchiveAgrees(platform, manifest, members) <==>
            exists entries, contains, bearing :: AgreesPlainly(platform, manifest, members, entries, contains, bearing)
  {
    if ArchiveAgrees(platform, manifest, members) {
      AgreesThen(platform, manifest, members);
    }
    if entries, contains, bearing :| AgreesPlainly(platform, manifest, members, entries, contains, bearing) {
      ThenAgrees(platform, manifest, members, entries, contains, bearing);
    }
  }

  lemma FlagsAre(manifest: map<string, Json>, contains: bool, bearing: bool)
    requires Get(manifest, "workspace").Obj? && Get(manifest, "protection").Obj?
    ensures Flags(manifest, contains, bearing) <==>
            contains == ContainsVaultKey(manifest) && bearing == SecretBearing(manifest)
  {
  }

  lemma AgreesThen(platform: Platform, manifest: map<string, Json>, members: seq<Member>)
    requires ArchiveAgrees(platform, manifest, members)
    ensures exists entries, contains, bearing :: AgreesPlainly(platform, manifest, members, entries, contains, bearing)
  {
    var contains, bearing := ContainsVaultKey(manifest), SecretBearing(manifest);
    var entries :| && Declares(manifest, entries) && SecretsAgree(entries, contains, bearing)
                   && MembersAgree(platform, entries, members);
    FlagsAre(manifest, contains, bearing);
    CorrespondsExactly(platform, entries, members);
    SecretsExactly(entries, contains, bearing);
    assert AgreesPlainly(platform, manifest, members, entries, contains, bearing);
  }

  lemma ThenAgrees(
    platform: Platform, manifest: map<string, Json>, members: seq<Member>, entries: seq<Entry>, contains: bool,
    bearing: bool)
    requires AgreesPlainly(platform, manifest, members, entries, contains, bearing)
    ensures ArchiveAgrees(platform, manifest, members)
  {
    FlagsAre(manifest, contains, bearing);
    CorrespondsExactly(platform, entries, members);
    SecretsExactly(entries, contains, bearing);
  }

  lemma CorrespondsExactly(platform: Platform, entries: seq<Entry>, members: seq<Member>)
    ensures MembersAgree(platform, entries, members) <==> Corresponds(platform, entries, members)
  {
    SecretNames();
    forall m | m in members
      ensures (exists e :: e in entries && Matches(platform, e, m)) <==>
              && m.regular && (m.name == ".robothor/identity.json" ==> ReadIdentity(platform, m.content).Some?)
              && exists e | e in entries ::
                   && e.path == m.name && e.size == |m.content| && e.sha256 == platform.sha256(m.content)
                   && e.mode == m.mode % 4096
    {
      if m.regular && (m.name == ".robothor/identity.json" ==> ReadIdentity(platform, m.content).Some?) {
        if e :| e in entries && e.path == m.name && e.size == |m.content| && e.sha256 == platform.sha256(m.content)
                && e.mode == m.mode % 4096
        {
          assert Matches(platform, e, m);
        }
      }
    }
  }

  lemma SecretsExactly(entries: seq<Entry>, contains: bool, bearing: bool)
    ensures SecretsAgree(entries, contains, bearing) <==> SecretsInOrder(entries, contains, bearing)
  {
    SecretNames();
  }

  lemma SecretNames()
    ensures Name(VAULT_KEY) == ".vault-key"
    ensures Name(IDENTITY) == ".robothor/identity.json" && Name(IDENTITY_KEY) == ".robothor/identity.key"
  {
    GatedNames();
  }

  method VerifyWorkspaceArchive(platform: Platform, manifest: map<string, Json>, members: seq<Member>)
    returns (r: Outcome<Error>)
    ensures r.Pass? <==> ArchiveAgrees(platform, manifest, members)
    ensures r.Fail? ==> r.error == IntegrityError
  {
    var declared := WorkspaceManifestFiles(manifest);
    if declared.Err? || !Get(manifest, "protection").Obj? {
      return Fail(IntegrityError);
    }
    var entries := declared.value;
    forall other | Declares(manifest, other) ensures other == entries {
      DeclaredOnce(manifest, other, entries);
    }
    if !SecretsAgree(entries, ContainsVaultKey(manifest), SecretBearing(manifest)) {
      return Fail(IntegrityError);
    }
    var agree := CompareMembers(platform, entries, members);
    if !agree {
      return Fail(IntegrityError);
    }
    return Pass;
  }

  /** The dictionary from paths to entries. */
  ghost predicate Indexes(expected: map<string, Entry>, entries: seq<Entry>) {
    && (forall e | e in entries :: e.path in expected && expected[e.path] == e)
    && (forall name | name in expected :: expected[name] in entries && expected[name].path == name)
  }

  ghost predicate AllMatch(platform: Platform, expected: map<string, Entry>, members: seq<Member>) {
    forall m | m in members :: m.name in expected && Matches(platform, expected[m.name], m)
  }

  method ScanMembers(platform: Platform, expected: map<string, Entry>, members: seq<Member>)
    returns (ok: bool, seen: set<string>)
    ensures ok <==> DistinctNames(members) && AllMatch(platform, expected, members)
    ensures ok ==> seen == set m | m in members :: m.name
  {
    seen := {};
    for i := 0 to |members|
      invariant DistinctNames(members[..i]) && AllMatch(platform, expected, members[..i])
      invariant seen == set m | m in members[..i] :: m.name
    {
      var m := members[i];
      assert members[..i + 1] == members[..i] + [m] && m in members;
      if m.name in seen {
        var earlier :| earlier in members[..i] && earlier.name == m.name;
        var k :| 0 <= k < i && members[k] == earlier;
        assert members[k].name == members[i].name;
        return false, seen;
      }
      if m.name !in expected || !Matches(platform, expected[m.name], m) {
        return false, seen;
      }
      seen := seen + {m.name};
    }
    assert members[..|members|] == members;
    return true, seen;
  }

  method CompareMembers(platform: Platform, entries: seq<Entry>, members: seq<Member>) returns (agree: bool)
    requires forall i, j | 0 <= i < j < |entries| :: entries[i].path != entries[j].path
    ensures agree == MembersAgree(platform, entries, members)
  {
    var expected := map e | e in entries :: e.path := e;
    var ok, seen := ScanMembers(platform, expected, members);
    MatchEither(platform, expected, entries, members);
    agree := ok && expected.Keys <= seen;
    if ok {
      PresentExactly(expected, entries, members, seen);
    }
  }

  lemma MatchEither(platform: Platform, expected: map<string, Entry>, entries: seq<Entry>, members: seq<Member>)
    requires Indexes(expected, entries)
    ensures AllMatch(platform, expected, members) <==> EachDescribed(platform, entries, members)
  {
    forall m | m in members
      ensures (m.name in expected && Matches(platform, expected[m.name], m)) <==>
              exists e :: e in entries && Matches(platform, e, m)
    {
      if e :| e in entries && Matches(platform, e, m) {
        assert expected[m.name] == e;
      }
    }
  }

  lemma PresentExactly(expected: map<string, Entry>, entries: seq<Entry>, members: seq<Member>, seen: set<string>)
    requires Indexes(expected, entries) && seen == set m | m in members :: m.name
    ensures expected.Keys <= seen <==> EachPresent(entries, members)
  {
    if EachPresent(entries, members) {
      forall name | name in expected ensures name in seen {
        assert expected[name] in entries;
      }
    }
    if expected.Keys <= seen {
      forall e | e in entries ensures exists m :: m in members && m.name == e.path {
        assert e.path in expected && e.path in seen;
      }
    }
  }

  // ----- A fresh archive against the verifier -----

  function FileList(entries: seq<Entry>): Json {
    List(seq(|entries|, i requires 0 <= i < |entries| => EntryJson(entries[i])))
  }

  /** The facts `create_snapshot` establishes before the archive is verified. */
  ghost predicate IsFresh(
    platform: Platform, t: Tree, settings: seq<Setting>, includeSecrets: bool, files: seq<Path>,
    members: seq<Member>, entries: seq<Entry>, manifest: map<string, Json>)
  {
    && platform.Hashes() && WellFormed(t)
    && Selectable(t, settings, includeSecrets) && IsSelection(t, settings, includeSecrets, files)
    && IsArchiveOf(platform, t, files, members, entries)
    && Get(manifest, "workspace").Obj?
    && Get(Get(manifest, "workspace").fields, "files") == FileList(entries)
    && Get(Get(manifest, "workspace").fields, "contains_vault_key") == Bool(includeSecrets)
    && Get(manifest, "protection").Obj?
    && Get(Get(manifest, "protection").fields, "secret_bearing") == Bool(includeSecrets)
  }

  lemma FilesAreValid(t: Tree, settings: seq<Setting>, includeSecrets: bool, files: seq<Path>)
    requires WellFormed(t) && IsSelection(t, settings, includeSecrets, files)
    ensures forall p | p in files :: ValidPath(p) && IsPlainFile(t, p)
    ensures forall i, j | 0 <= i < j < |files| :: Name(files[i]) != Name(files[j])
  {
    forall i, j | 0 <= i < j < |files| ensures Name(files[i]) != Name(files[j]) {
      assert Less(Names(files)[i], Names(files)[j]);
      LessIrreflexive(Name(files[i]));
    }
  }

  lemma ReadEntryBack(platform: Platform, t: Tree, p: Path)
    requires platform.Hashes() && ValidPath(p) && IsPlainFile(t, p)
    ensures var e := Described(platform, Archived(t, p));
            ReadEntry(EntryJson(e)) == if NoBackslash(p) then Some(e) else None
  {
    NameRoundTrip(p);
  }

  lemma HoldsExactly(platform: Platform, t: Tree, files: seq<Path>, members: seq<Member>, entries: seq<Entry>, p: Path)
    requires IsArchiveOf(platform, t, files, members, entries) && ValidPath(p)
    requires forall q | q in files :: ValidPath(q)
    ensures Holds(entries, p) <==> p in files
  {
    if p in files {
      var i :| 0 <= i < |files| && files[i] == p;
      assert entries[i] in entries;
    }
    if e :| e in entries && e.path == Name(p) {
      var i :| 0 <= i < |entries| && entries[i] == e;
      NameRoundTrip(p);
      NameRoundTrip(files[i]);
    }
  }

  lemma FreshDeclares(
    platform: Platform, t: Tree, settings: seq<Setting>, includeSecrets: bool, files: seq<Path>, members: seq<Member>,
    entries: seq<Entry>, manifest: map<string, Json>)
    requires platform.Hashes() && WellFormed(t) && IsSelection(t, settings, includeSecrets, files)
    requires IsArchiveOf(platform, t, files, members, entries)
    requires Get(manifest, "workspace").Obj?
    requires Get(Get(manifest, "workspace").fields, "files") == FileList(entries)
    ensures (forall p | p in files :: NoBackslash(p)) ==> Declares(manifest, entries)
    ensures (exists other :: Declares(manifest, other)) ==> forall p | p in files :: NoBackslash(p)
  {
    FilesAreValid(t, settings, includeSecrets, files);
    forall i | 0 <= i < |files|
      ensures ReadEntry(FileList(entries).items[i]) == if NoBackslash(files[i]) then Some(entries[i]) else None
    {
      ReadEntryBack(platform, t, files[i]);
    }
    if other :| Declares(manifest, other) {
      forall p | p in files ensures NoBackslash(p) {
        var i :| 0 <= i < |files| && files[i] == p;
        assert ReadEntry(FileList(entries).items[i]) == Some(other[i]);
      }
    }
  }

  lemma EntryMode(
    platform: Platform, t: Tree, files: seq<Path>, members: seq<Member>, entries: seq<Entry>, p: Path, e: Entry)
    requires IsArchiveOf(platform, t, files, members, entries) && ValidPath(p)
    requires forall q | q in files :: ValidPath(q)
    requires e in entries && e.path == Name(p)
    ensures p in files && OwnerOnly(e.mode) == OwnerOnly(t[p].mode)
  {
    var i :| 0 <= i < |entries| && entries[i] == e;
    assert files[i] in files;
    NameInjective(p, files[i]);
    OwnerOnlyBits(t[p].mode);
  }

  lemma OwnerOnlyBits(mode: nat)
    ensures OwnerOnly(mode % 512) == OwnerOnly(mode)
  {
    var high, low := mode / 512, mode % 512;
    Remainder(mode, 8 * high + low / 64, low % 64);
  }

  lemma Remainder(n: nat, k: nat, r: nat)
    requires n == 64 * k + r && r < 64
    ensures n % 64 == r
  {
  }

  lemma FreshSecrets(
    platform: Platform, t: Tree, settings: seq<Setting>, includeSecrets: bool, files: seq<Path>,
    members: seq<Member>, entries: seq<Entry>)
    requires includeSecrets ==> SecretRoots(t).Ok?
    requires IsSelection(t, settings, includeSecrets, files) && IsArchiveOf(platform, t, files, members, entries)
    requires forall p | p in files :: ValidPath(p)
    ensures SecretsAgree(entries, includeSecrets, includeSecrets) <==>
            (includeSecrets || (VAULT_KEY !in files && IDENTITY !in files && IDENTITY_KEY !in files))
  {
    HoldsExactly(platform, t, files, members, entries, VAULT_KEY);
    HoldsExactly(platform, t, files, members, entries, IDENTITY);
    HoldsExactly(platform, t, files, members, entries, IDENTITY_KEY);
    if includeSecrets {
      SecretsCaptured(t, settings);
      forall e | e in entries && (e.path == Name(VAULT_KEY) || e.path == Name(IDENTITY_KEY)) ensures OwnerOnly(e.mode) {
        EntryMode(platform, t, files, members, entries, if e.path == Name(VAULT_KEY) then VAULT_KEY else IDENTITY_KEY, e);
      }
    } else {
      assert forall e | e in entries && e.path == Name(IDENTITY_KEY) :: Holds(entries, IDENTITY_KEY);
      assert forall e | e in entries && e.path == Name(VAULT_KEY) :: Holds(entries, VAULT_KEY);
    }
  }

  lemma MemberMatches(platform: Platform, t: Tree, p: Path)
    requires ValidPath(p) && IsPlainFile(t, p)
    ensures var m := Archived(t, p);
            Matches(platform, Described(platform, m), m) <==>
            (p == IDENTITY ==> ReadIdentity(platform, t[p].content).Some?)
  {
    NameInjective(p, IDENTITY);
    var mode := t[p].mode % 512;
    assert mode % 4096 == mode;
  }

  lemma FreshMembers(
    platform: Platform, t: Tree, files: seq<Path>, members: seq<Member>, entries: seq<Entry>)
    requires IsArchiveOf(platform, t, files, members, entries)
    requires forall p | p in files :: ValidPath(p)
    requires forall i, j | 0 <= i < j < |files| :: Name(files[i]) != Name(files[j])
    ensures MembersAgree(platform, entries, members) <==>
            (IDENTITY in files ==> ReadIdentity(platform, t[IDENTITY].content).Some?)
  {
    assert DistinctNames(members);
    assert EachPresent(entries, members) by {
      forall e | e in entries ensures exists m :: m in members && m.name == e.path {
        var i :| 0 <= i < |entries| && entries[i] == e;
        assert members[i] in members;
      }
    }
    if IDENTITY in files {
      var i :| 0 <= i < |files| && files[i] == IDENTITY;
      MemberMatches(platform, t, IDENTITY);
      assert members[i] in members;
      if e :| e in entries && Matches(platform, e, members[i]) {
        assert ReadIdentity(platform, t[IDENTITY].content).Some?;
      }
    }
    if IDENTITY in files ==> ReadIdentity(platform, t[IDENTITY].content).Some? {
      forall m | m in members ensures exists e :: e in entries && Matches(platform, e, m) {
        var i :| 0 <= i < |members| && members[i] == m;
        assert files[i] in files && entries[i] in entries;
        MemberMatches(platform, t, files[i]);
      }
    }
  }

  /** What the tree and the settings must be for a fresh archive to verify: no captured name with a backslash; no
    * identity file under a root that a setting makes of all of `.robothor`, unless the secrets are asked for; and
    * if they are, an identity document that is one.
    */
  ghost predicate Presentable(platform: Platform, t: Tree, settings: seq<Setting>, includeSecrets: bool) {
    && (forall p | Captures(t, settings, includeSecrets, p) :: NoBackslash(p))
    && (!includeSecrets && ConfiguredRoot(t, settings, [".robothor"]) ==>
          !IsPlainFile(t, IDENTITY) && !IsPlainFile(t, IDENTITY_KEY))
    && (includeSecrets && IsPlainFile(t, IDENTITY) ==> ReadIdentity(platform, t[IDENTITY].content).Some?)
  }

  /** Which secrets are among the files, by the tree alone. */
  lemma GatedFiles(t: Tree, settings: seq<Setting>, includeSecrets: bool, files: seq<Path>)
    requires WellFormed(t) && IsSelection(t, settings, includeSecrets, files)
    requires includeSecrets ==> SecretRoots(t).Ok?
    ensures !includeSecrets ==> VAULT_KEY !in files
    ensures IDENTITY in files <==>
            IsPlainFile(t, IDENTITY) && (includeSecrets || ConfiguredRoot(t, settings, [".robothor"]))
    ensures !includeSecrets ==>
              (IDENTITY_KEY in files <==> IsPlainFile(t, IDENTITY_KEY) && ConfiguredRoot(t, settings, [".robothor"]))
    ensures includeSecrets ==> VAULT_KEY in files && (IDENTITY in files <==> IDENTITY_KEY in files)
  {
    if includeSecrets {
      SecretsCaptured(t, settings);
    } else {
      assert GATED[0] == VAULT_KEY && GATED[1] == IDENTITY && GATED[2] == IDENTITY_KEY;
      GatedCapturedExactly(t, settings, VAULT_KEY);
      GatedCapturedExactly(t, settings, IDENTITY);
      GatedCapturedExactly(t, settings, IDENTITY_KEY);
    }
  }

  /** A freshly built archive passes its own verification exactly when the tree and the settings are presentable. */
  lemma FreshArchiveVerifies(
    platform: Platform, t: Tree, settings: seq<Setting>, includeSecrets: bool, files: seq<Path>,
    members: seq<Member>, entries: seq<Entry>, manifest: map<string, Json>)
    requires IsFresh(platform, t, settings, includeSecrets, files, members, entries, manifest)
    ensures ArchiveAgrees(platform, manifest, members) <==> Presentable(platform, t, settings, includeSecrets)
  {
    FilesAreValid(t, settings, includeSecrets, files);
    FreshDeclares(platform, t, settings, includeSecrets, files, members, entries, manifest);
    FreshSecrets(platform, t, settings, includeSecrets, files, members, entries);
    FreshMembers(platform, t, files, members, entries);
    OnlyDeclaration(platform, manifest, members, entries);
    GatedFiles(t, settings, includeSecrets, files);
  }

  // ----- Trees whose fresh archive is refused -----

  /** This tree can be selected and archived, and however that is done the result does not verify. */
  ghost predicate SelectsAndFails(platform: Platform, t: Tree, settings: seq<Setting>, includeSecrets: bool) {
    && (exists files, members, entries, manifest ::
          IsFresh(platform, t, settings, includeSecrets, files, members, entries, manifest))
    && forall files, members, entries, manifest
         | IsFresh(platform, t, settings, includeSecrets, files, members, entries, manifest) ::
         !ArchiveAgrees(platform, manifest, members)
  }

  /** What can be selected can be archived. */
  lemma FreshExists(platform: Platform, t: Tree, settings: seq<Setting>, includeSecrets: bool)
    requires platform.Hashes() && WellFormed(t) && Selectable(t, settings, includeSecrets)
    ensures exists files, members, entries, manifest ::
              IsFresh(platform, t, settings, includeSecrets, files, members, entries, manifest)
  {
    var files := SelectionExists(t, settings, includeSecrets);
    assert forall p | p in files :: IsPlainFile(t, p);
    assert forall i | 0 <= i < |files| :: files[i] in files;
    var members := seq(|files|, i requires 0 <= i < |files| => Archived(t, files[i]));
    var entries := seq(|files|, i requires 0 <= i < |files| => Described(platform, members[i]));
    var manifest := map[
      "workspace" := Obj(map["files" := FileList(entries), "contains_vault_key" := Bool(includeSecrets)]),
      "protection" := Obj(map["secret_bearing" := Bool(includeSecrets)])];
    assert IsFresh(platform, t, settings, includeSecrets, files, members, entries, manifest);
  }

  lemma SelectionExists(t: Tree, settings: seq<Setting>, includeSecrets: bool) returns (files: seq<Path>)
    requires WellFormed(t)
    ensures IsSelection(t, settings, includeSecrets, files)
  {
    var captured := set p | p in t && Captures(t, settings, includeSecrets, p);
    var sorted := SortedExists(set p | p in captured :: Name(p));
    files := seq(|sorted|, i requires 0 <= i < |sorted| => Parts(sorted[i]));
    forall i | 0 <= i < |sorted| ensures files[i] in captured && Name(files[i]) == sorted[i] {
      assert sorted[i] in sorted;
      var p :| p in captured && Name(p) == sorted[i];
      NameRoundTrip(p);
    }
    assert Names(files) == sorted;
    forall p | p in captured ensures p in files {
      NameRoundTrip(p);
      assert Name(p) in sorted;
      var i :| 0 <= i < |sorted| && sorted[i] == Name(p);
      assert files[i] == p;
    }
  }

  lemma NotPresentableFails(platform: Platform, t: Tree, settings: seq<Setting>, includeSecrets: bool)
    requires platform.Hashes() && WellFormed(t)
    requires Selectable(t, settings, includeSecrets) && !Presentable(platform, t, settings, includeSecrets)
    ensures SelectsAndFails(platform, t, settings, includeSecrets)
  {
    FreshExists(platform, t, settings, includeSecrets);
    forall files, members, entries, manifest
      | IsFresh(platform, t, settings, includeSecrets, files, members, entries, manifest)
      ensures !ArchiveAgrees(platform, manifest, members)
    {
      FreshArchiveVerifies(platform, t, settings, includeSecrets, files, members, entries, manifest);
    }
  }

  /** A file in `brain` with a backslash in its name. */
  lemma BackslashFails(platform: Platform)
    requires platform.Hashes()
    ensures SelectsAndFails(platform, map[["brain"] := Dir, ["brain", "a\\b"] := File([], 420)], [], false)
  {
    var p := ["brain", "a\\b"];
    var t: Tree := map[["brain"] := Dir, p := File([], 420)];
    assert p[..1] == ["brain"];
    assert IsRoot(t, [], false, ["brain"]) && Walked(t, ["brain"], p);
    assert p[1][1] == '\\' && p[1] in p && Captures(t, [], false, p);
    NotPresentableFails(platform, t, [], false);
  }

  /** An identity document, and a setting that makes `.robothor` a root. */
  lemma SweptIdentityFails(platform: Platform)
    requires platform.Hashes()
    ensures SelectsAndFails(
              platform, map[[".robothor"] := Dir, IDENTITY := File([], 420)], [Setting(false, Inside([".robothor"]))], false)
  {
    var settings := [Setting(false, Inside([".robothor"]))];
    var t: Tree := map[[".robothor"] := Dir, IDENTITY := File([], 420)];
    assert IDENTITY[..1] == [".robothor"];
    assert settings[0] in settings && Resolve(t, settings[0]) == Ok(Some([".robothor"]));
    NotPresentableFails(platform, t, settings, false);
  }

  /** Secrets with an identity document that is too long to be read. */
  lemma OversizedIdentityFails(platform: Platform)
    requires platform.Hashes()
    ensures var zeros: bytes := seq(IDENTITY_LIMIT + 1, i => 0);
            SelectsAndFails(
              platform,
              map[[".robothor"] := Dir, VAULT_KEY := File(zeros[..32], 384), IDENTITY := File(zeros, 384),
                  IDENTITY_KEY := File(zeros[..1], 384)],
              [], true)
  {
    var zeros: bytes := seq(IDENTITY_LIMIT + 1, i => 0);
    var t: Tree := map[[".robothor"] := Dir, VAULT_KEY := File(zeros[..32], 384), IDENTITY := File(zeros, 384),
                       IDENTITY_KEY := File(zeros[..1], 384)];
    assert IDENTITY[..1] == [".robothor"] && IDENTITY_KEY[..1] == [".robothor"];
    NotPresentableFails(platform, t, [], true);
  }

  lemma OnlyDeclaration(platform: Platform, manifest: map<string, Json>, members: seq<Member>, entries: seq<Entry>)
    requires Get(manifest, "protection").Obj?
    requires (exists other :: Declares(manifest, other)) ==> Declares(manifest, entries)
    ensures ArchiveAgrees(platform, manifest, members) <==>
            && Declares(manifest, entries)
            && SecretsAgree(entries, ContainsVaultKey(manifest), SecretBearing(manifest))
            && MembersAgree(platform, entries, members)
  {
    forall other | Declares(manifest, other) ensures other == entries {
      DeclaredOnce(manifest, other, entries);
    }
  }
}
