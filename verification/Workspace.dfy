/** The instance-owned files of a workspace: which ones a snapshot selects, and where a
  * snapshot may be written without capturing itself (robothor/snapshot.py:61-109, 578-675, 759-768).
  */
module Workspace {
  import opened Wrappers
  import opened Bytes
  import opened Text
  import opened Paths

  /** `SnapshotError` and its subclasses, and the operating system's own errors. */
  datatype Error = GeneralError | IntegrityError | CompatibilityError | ConflictError | OsError

  /** A symbolic link is not followed: it is known whether it leads anywhere, and whether that is in the workspace. */
  datatype Node =
    | Dir
    | File(content: bytes, mode: nat)
    | Symlink(resolves: bool, inside: bool)
    | Special

  type Tree = map<Path, Node>

  ghost predicate WellFormed(t: Tree) {
    && (forall p | p in t :: ValidPath(p))
    && (forall p, q | q in t && p != [] && Above(p, q) :: p in t && t[p].Dir?)
  }

  predicate Exists(t: Tree, p: Path) {
    p in t && (t[p].Symlink? ==> t[p].resolves)
  }

  /** A path exists exactly if a directory, a file or a special file is there, or a link that leads somewhere. */
  lemma ExistsExactly(t: Tree, p: Path)
    ensures Exists(t, p) <==>
            p in t && (t[p].Dir? || t[p].File? || t[p].Special? || (t[p].Symlink? && t[p].resolves))
  {
  }

  predicate IsPlainFile(t: Tree, p: Path) {
    p in t && t[p].File?
  }

  /** No permission for group or others. */
  predicate OwnerOnly(mode: int) {
    mode % 64 == 0
  }

  // ----- Roots -----

  const DEFAULT_DIRECTORIES: seq<Path> := [
    ["docs", "agents"], ["docs", "workflows"], ["docs", "hooks"], ["agents", "skills"], ["brain"],
    [".robothor", "overrides"], [".robothor", "archive"]]

  const DEFAULT_FILES: seq<Path> := [
    [".robothor", "owner.yaml"], [".robothor", "installed.yaml"], [".robothor", "federation.yaml"],
    [".robothor", "config.yaml"], [".robothor", "init_state.yaml"], [".robothor", "migrations_applied.yaml"],
    [".robothor", "autodream_last_run"], ["docs", "webhooks.yaml"]]

  /** The defaults and the secrets by their names. */
  lemma DirectoryNames()
    ensures |DEFAULT_DIRECTORIES| == 7
    ensures Name(DEFAULT_DIRECTORIES[0]) == "docs" + "/" + "agents"
    ensures Name(DEFAULT_DIRECTORIES[1]) == "docs" + "/" + "workflows"
    ensures Name(DEFAULT_DIRECTORIES[2]) == "docs" + "/" + "hooks"
    ensures Name(DEFAULT_DIRECTORIES[3]) == "agents" + "/" + "skills"
    ensures Name(DEFAULT_DIRECTORIES[4]) == "brain"
    ensures Name(DEFAULT_DIRECTORIES[5]) == ".robothor" + "/" + "overrides"
    ensures Name(DEFAULT_DIRECTORIES[6]) == ".robothor" + "/" + "archive"
  {
    TwoNames("docs", "agents");
    TwoNames("docs", "workflows");
    TwoNames("docs", "hooks");
    TwoNames("agents", "skills");
    TwoNames(".robothor", "overrides");
    TwoNames(".robothor", "archive");
  }

  lemma FileNames()
    ensures |DEFAULT_FILES| == 8
    ensures Name(DEFAULT_FILES[0]) == ".robothor" + "/" + "owner.yaml"
    ensures Name(DEFAULT_FILES[1]) == ".robothor" + "/" + "installed.yaml"
    ensures Name(DEFAULT_FILES[2]) == ".robothor" + "/" + "federation.yaml"
    ensures Name(DEFAULT_FILES[3]) == ".robothor" + "/" + "config.yaml"
    ensures Name(DEFAULT_FILES[4]) == ".robothor" + "/" + "init_state.yaml"
    ensures Name(DEFAULT_FILES[5]) == ".robothor" + "/" + "migrations_applied.yaml"
    ensures Name(DEFAULT_FILES[6]) == ".robothor" + "/" + "autodream_last_run"
    ensures Name(DEFAULT_FILES[7]) == "docs" + "/" + "webhooks.yaml"
  {
    TwoNames(".robothor", "owner.yaml");
    TwoNames(".robothor", "installed.yaml");
    TwoNames(".robothor", "federation.yaml");
    TwoNames(".robothor", "config.yaml");
    TwoNames(".robothor", "init_state.yaml");
    TwoNames(".robothor", "migrations_applied.yaml");
    TwoNames(".robothor", "autodream_last_run");
    TwoNames("docs", "webhooks.yaml");
  }

  lemma GatedNames()
    ensures |GATED| == 3
    ensures Name(GATED[0]) == ".vault-key"
    ensures Name(GATED[1]) == ".robothor/identity.json"
    ensures Name(GATED[2]) == ".robothor/identity.key"
  {
    TwoNames(".robothor", "identity.json");
    TwoNames(".robothor", "identity.key");
    assert ".robothor" + "/" + "identity.json" == ".robothor/identity.json";
    assert ".robothor" + "/" + "identity.key" == ".robothor/identity.key";
  }

  lemma TwoNames(a: string, b: string)
    ensures Name([a, b]) == a + "/" + b
  {
    assert [a, b][1..] == [b] && Join([b], '/') == b;
    assert Join([a, b], '/') == a + ['/'] + Join([b], '/');
  }

  const VAULT_KEY: Path := [".vault-key"]
  const IDENTITY: Path := [".robothor", "identity.json"]
  const IDENTITY_KEY: Path := [".robothor", "identity.key"]
  const GATED: seq<Path> := [VAULT_KEY, IDENTITY, IDENTITY_KEY]

  /** An environment setting naming a state directory, resolved against the workspace. */
  datatype Configured = Unset | Outside(exists_: bool) | Inside(path: Path)

  datatype Setting = Setting(optional: bool, value: Configured)

  datatype StatePaths = StatePaths(roots: seq<Path>, directories: set<Path>)

  /** What one setting does: nothing, an error, or one more directory root. */
  function Resolve(t: Tree, s: Setting): (r: Result<Option<Path>, Error>)
    ensures r.Ok? && r.value.Some? ==> s.value == Inside(r.value.value) && r.value.value in t && t[r.value.value].Dir?
  {
    match s.value
    case Unset => Ok(None)
    case Outside(there) => if !there && s.optional then Ok(None) else Err(GeneralError)
    case Inside(p) =>
      if p == [] then Err(GeneralError)
      else if !Exists(t, p) && s.optional then Ok(None)
      else if p !in t || !t[p].Dir? then Err(GeneralError)
      else Ok(Some(p))
  }

  /** What each setting comes to. It refuses the selection exactly if it names a directory outside the workspace that is
    * there, the workspace itself, something that is not a directory, or, unless it may be absent, nothing at all; it
    * adds a root exactly if it names a directory below the workspace.
    */
  lemma ResolvesExactly(t: Tree, s: Setting)
    ensures Resolve(t, s).Err? <==>
              || s.value == Outside(true) || s.value == Inside([])
              || (s.value.Inside? && Exists(t, s.value.path) && !t[s.value.path].Dir?)
              || (!s.optional && s.value == Outside(false))
              || (!s.optional && s.value.Inside? && !Exists(t, s.value.path))
    ensures forall root :: Resolve(t, s) == Ok(Some(root)) <==>
              s.value == Inside(root) && root != [] && root in t && t[root].Dir?
  {
  }

  function DefaultState(): StatePaths {
    StatePaths(DEFAULT_FILES + DEFAULT_DIRECTORIES, set d | d in DEFAULT_DIRECTORIES)
  }

  /** The roots are the defaults and every accepted setting; the latter are directory roots. */
  ghost predicate IsStateOf(t: Tree, settings: seq<Setting>, state: StatePaths) {
    && (forall s | s in settings :: Resolve(t, s).Ok?)
    && (forall r :: r in state.directories <==>
          r in DEFAULT_DIRECTORIES || exists s :: s in settings && Resolve(t, s) == Ok(Some(r)))
    && (forall r :: r in state.roots <==> r in DEFAULT_FILES || r in state.directories)
  }

  method WorkspaceStatePaths(t: Tree, settings: seq<Setting>) returns (r: Result<StatePaths, Error>)
    ensures r.Ok? <==> forall s | s in settings :: Resolve(t, s).Ok?
    ensures r.Ok? ==> IsStateOf(t, settings, r.value)
    ensures r.Err? ==> r.error == GeneralError
  {
    var state := DefaultState();
    for i := 0 to |settings|
      invariant forall s | s in settings[..i] :: Resolve(t, s).Ok?
      invariant IsStateOf(t, settings[..i], state)
    {
      assert settings[..i + 1] == settings[..i] + [settings[i]];
      match Resolve(t, settings[i]) {
        case Err(e) =>
          assert settings[i] in settings;
          return Err(e);
        case Ok(None) =>
        case Ok(Some(p)) =>
          state := StatePaths(
            if p in state.roots then state.roots else state.roots + [p], state.directories + {p});
      }
    }
    assert settings[..|settings|] == settings;
    return Ok(state);
  }

  // ----- Selection -----

  /** The secret roots, or the reason the secrets cannot be taken along. */
  function SecretRoots(t: Tree): Result<seq<Path>, Error> {
    if !IsPlainFile(t, VAULT_KEY) || !OwnerOnly(t[VAULT_KEY].mode) || |t[VAULT_KEY].content| != 32 then
      Err(GeneralError)
    else if !Exists(t, IDENTITY_KEY) && !Exists(t, IDENTITY) then
      Ok([VAULT_KEY])
    else if !IsPlainFile(t, IDENTITY_KEY) || !IsPlainFile(t, IDENTITY)
            || !OwnerOnly(t[IDENTITY_KEY].mode) || t[IDENTITY_KEY].content == [] then
      Err(GeneralError)
    else
      Ok([VAULT_KEY, IDENTITY, IDENTITY_KEY])
  }

  /** The secrets can be taken along exactly if the vault key is a private file of 32 bytes, and of the two identity
    * files there is neither, or both are files and the key is private and not empty.
    */
  lemma SecretRootsExactly(t: Tree)
    ensures SecretRoots(t).Ok? <==>
              && VAULT_KEY in t && t[VAULT_KEY].File? && t[VAULT_KEY].mode % 64 == 0 && |t[VAULT_KEY].content| == 32
              && (|| (!Exists(t, IDENTITY) && !Exists(t, IDENTITY_KEY))
                  || (&& IDENTITY in t && t[IDENTITY].File? && IDENTITY_KEY in t && t[IDENTITY_KEY].File?
                      && t[IDENTITY_KEY].mode % 64 == 0 && |t[IDENTITY_KEY].content| > 0))
    ensures SecretRoots(t).Ok? ==>
              forall root :: root in SecretRoots(t).value <==>
                root == VAULT_KEY || (Exists(t, IDENTITY) && (root == IDENTITY || root == IDENTITY_KEY))
  {
  }

  /** The entries walked for a root that exists: itself, or everything below it. */
  predicate Walked(t: Tree, root: Path, p: Path) {
    && Exists(t, root) && p in t
    && if t[root].Dir? then Above(root, p) else p == root
  }

  ghost predicate Refused(t: Tree, roots: seq<Path>) {
    exists root, p :: root in roots && Walked(t, root, p) && (t[p].Symlink? || t[p].Special?)
  }

  ghost predicate Selected(t: Tree, roots: seq<Path>, p: Path) {
    IsPlainFile(t, p) && exists root :: root in roots && Walked(t, root, p)
  }

  function Names(files: seq<Path>): seq<string> {
    seq(|files|, i requires 0 <= i < |files| => Name(files[i]))
  }

  /** A setting names this directory, and it is there. */
  ghost predicate ConfiguredRoot(t: Tree, settings: seq<Setting>, root: Path) {
    exists s :: s in settings && Resolve(t, s) == Ok(Some(root))
  }

  ghost predicate IsRoot(t: Tree, settings: seq<Setting>, includeSecrets: bool, root: Path) {
    || root in DEFAULT_FILES || root in DEFAULT_DIRECTORIES || ConfiguredRoot(t, settings, root)
    || (includeSecrets && SecretRoots(t).Ok? && root in SecretRoots(t).value)
  }

  /** A regular file at or below a root. */
  ghost predicate Captures(t: Tree, settings: seq<Setting>, includeSecrets: bool, p: Path) {
    IsPlainFile(t, p) && exists root :: IsRoot(t, settings, includeSecrets, root) && Walked(t, root, p)
  }

  /** A link or a special file at or below a root. */
  ghost predicate Unfit(t: Tree, settings: seq<Setting>, includeSecrets: bool) {
    exists root, p ::
      IsRoot(t, settings, includeSecrets, root) && Walked(t, root, p) && (t[p].Symlink? || t[p].Special?)
  }

  /** Nothing stands in the way of a selection. */
  ghost predicate Selectable(t: Tree, settings: seq<Setting>, includeSecrets: bool) {
    && (forall s | s in settings :: Resolve(t, s).Ok?)
    && (includeSecrets ==> SecretRoots(t).Ok?)
    && !Unfit(t, settings, includeSecrets)
  }

  /** `files` lists exactly the captured files, once each, in name order. */
  ghost predicate IsSelection(t: Tree, settings: seq<Setting>, includeSecrets: bool, files: seq<Path>) {
    && Ascending(Names(files))
    && forall p :: p in files <==> Captures(t, settings, includeSecrets, p)
  }

  /** A setting that names a directory outside the workspace refuses every selection. */
  lemma OutsideRefuses(t: Tree, settings: seq<Setting>, includeSecrets: bool, s: Setting)
    requires s in settings && s.value == Outside(true)
    ensures !Selectable(t, settings, includeSecrets)
  {
    ResolvesExactly(t, s);
  }

  method WorkspaceFiles(t: Tree, settings: seq<Setting>, includeSecrets: bool) returns (r: Result<seq<Path>, Error>)
    requires WellFormed(t)
    ensures r.Ok? <==> Selectable(t, settings, includeSecrets)
    ensures r.Ok? ==> IsSelection(t, settings, includeSecrets, r.value)
    ensures r.Err? ==> r.error == GeneralError
  {
    var state := WorkspaceStatePaths(t, settings);
    if state.Err? {
      return Err(state.error);
    }
    var all := state.value.roots;
    if includeSecrets {
      match SecretRoots(t) {
        case Err(e) =>
          return Err(e);
        case Ok(secret) =>
          all := all + secret;
      }
    }
    RootsAre(t, settings, includeSecrets, state.value, all);
    var ok, selected := SelectFrom(t, all);
    if !ok {
      return Err(GeneralError);
    }
    var sorted := SortNames(selected.Keys);
    var files := seq(|sorted|, i requires 0 <= i < |sorted| => (assert sorted[i] in sorted; selected[sorted[i]]));
    assert Names(files) == sorted by {
      forall i | 0 <= i < |sorted| ensures Names(files)[i] == sorted[i] {
        assert sorted[i] in sorted;
      }
    }
    forall p ensures p in files <==> Selected(t, all, p) {
      if Selected(t, all, p) {
        assert Name(p) in sorted;
        var i :| 0 <= i < |sorted| && sorted[i] == Name(p);
        assert files[i] == p;
      }
    }
    return Ok(files);
  }

  /** Tree, settings and flag leave no choice in what is selected, or in which order. */
  lemma SelectionUnique(t: Tree, settings: seq<Setting>, includeSecrets: bool, a: seq<Path>, b: seq<Path>)
    requires WellFormed(t)
    requires IsSelection(t, settings, includeSecrets, a) && IsSelection(t, settings, includeSecrets, b)
    ensures a == b
  {
    NamesOfSame(a, b);
    NamesOfSame(b, a);
    AscendingUnique(Names(a), Names(b));
    forall i | 0 <= i < |a| ensures a[i] == b[i] {
      assert Names(a)[i] == Names(b)[i] && a[i] in a && b[i] in b;
      NameInjective(a[i], b[i]);
    }
  }

  lemma NamesOfSame(a: seq<Path>, b: seq<Path>)
    requires forall p | p in a :: p in b
    ensures forall s | s in Names(a) :: s in Names(b)
  {
    forall s | s in Names(a) ensures s in Names(b) {
      var i :| 0 <= i < |a| && Names(a)[i] == s;
      assert a[i] in a;
      var k :| 0 <= k < |b| && b[k] == a[i];
      assert Names(b)[k] == s;
    }
  }

  /** The list of roots that is walked, against what a root is. */
  lemma RootsAre(t: Tree, settings: seq<Setting>, includeSecrets: bool, state: StatePaths, all: seq<Path>)
    requires IsStateOf(t, settings, state) && (includeSecrets ==> SecretRoots(t).Ok?)
    requires all == state.roots + if includeSecrets then SecretRoots(t).value else []
    ensures forall root :: root in all <==> IsRoot(t, settings, includeSecrets, root)
    ensures Refused(t, all) <==> Unfit(t, settings, includeSecrets)
    ensures forall p :: Selected(t, all, p) <==> Captures(t, settings, includeSecrets, p)
  {
    forall root ensures root in all <==> IsRoot(t, settings, includeSecrets, root) {
      assert root in state.directories <==> root in DEFAULT_DIRECTORIES || ConfiguredRoot(t, settings, root);
    }
  }

  // ----- The secrets -----

  /** Without asking for secrets, one is captured exactly when it is below `.robothor` and a setting makes that
    * whole directory a root.
    */
  lemma GatedCapturedExactly(t: Tree, settings: seq<Setting>, p: Path)
    requires WellFormed(t) && p in GATED
    ensures Captures(t, settings, false, p)
            <==> IsPlainFile(t, p) && p != VAULT_KEY && ConfiguredRoot(t, settings, [".robothor"])
  {
    assert GATED[0] == VAULT_KEY && GATED[1] == IDENTITY && GATED[2] == IDENTITY_KEY;
    if root :| IsPlainFile(t, p) && IsRoot(t, settings, false, root) && Walked(t, root, p) {
      RootAboveGated(t, settings, root, p);
    }
    if IsPlainFile(t, p) && p != VAULT_KEY && ConfiguredRoot(t, settings, [".robothor"]) {
      assert Above([".robothor"], p);
      assert Walked(t, [".robothor"], p);
    }
  }

  lemma RootAboveGated(t: Tree, settings: seq<Setting>, root: Path, p: Path)
    requires WellFormed(t) && IsPlainFile(t, p) && (p == VAULT_KEY || p == IDENTITY || p == IDENTITY_KEY)
    requires IsRoot(t, settings, false, root) && Walked(t, root, p)
    ensures p != VAULT_KEY && root == [".robothor"] && ConfiguredRoot(t, settings, root)
  {
    assert ValidPath(root);
    assert root == p || root == p[..|root|];
    if root in DEFAULT_FILES + DEFAULT_DIRECTORIES {
      DefaultHeads(root);
    }
    assert root != p;
  }

  lemma DefaultHeads(root: Path)
    requires root in DEFAULT_FILES + DEFAULT_DIRECTORIES
    ensures root[0] != ".vault-key" && (|root| == 1 ==> root[0] != ".robothor")
    ensures |root| >= 2 ==> root[1] != "identity.json" && root[1] != "identity.key"
  {
    assert "brain"[0] == 'b' && ".robothor"[0] == '.' && ".vault-key"[1] == 'v' && ".robothor"[1] == 'r';
  }

  /** Asking for the secrets captures the vault key, and each identity file that is there. */
  lemma SecretsCaptured(t: Tree, settings: seq<Setting>)
    requires SecretRoots(t).Ok?
    ensures Captures(t, settings, true, VAULT_KEY) && OwnerOnly(t[VAULT_KEY].mode)
    ensures Captures(t, settings, true, IDENTITY) <==> IsPlainFile(t, IDENTITY)
    ensures Captures(t, settings, true, IDENTITY_KEY) <==> IsPlainFile(t, IDENTITY)
    ensures IsPlainFile(t, IDENTITY) ==> IsPlainFile(t, IDENTITY_KEY) && OwnerOnly(t[IDENTITY_KEY].mode)
  {
    assert IsRoot(t, settings, true, VAULT_KEY) && Walked(t, VAULT_KEY, VAULT_KEY);
    if Exists(t, IDENTITY) || Exists(t, IDENTITY_KEY) {
      assert IsRoot(t, settings, true, IDENTITY) && Walked(t, IDENTITY, IDENTITY);
      assert IsRoot(t, settings, true, IDENTITY_KEY) && Walked(t, IDENTITY_KEY, IDENTITY_KEY);
    }
  }

  /** The dictionary of selected files, by archive name. */
  method SelectFrom(t: Tree, roots: seq<Path>) returns (ok: bool, selected: map<string, Path>)
    requires WellFormed(t)
    ensures ok <==> !Refused(t, roots)
    ensures ok ==> forall name | name in selected :: Name(selected[name]) == name && Selected(t, roots, selected[name])
    ensures ok ==> forall p | Selected(t, roots, p) :: Name(p) in selected && selected[Name(p)] == p
  {
    selected := map[];
    for i := 0 to |roots|
      invariant !Refused(t, roots[..i])
      invariant Gathered(t, roots[..i], {}, {}, selected)
    {
      var root := roots[i];
      assert roots[..i + 1] == roots[..i] + [root];
      assert root in roots;
      var walk := set p | p in t && Walked(t, root, p);
      var left := walk;
      while left != {}
        invariant left <= walk
        invariant forall p | p in walk - left :: !t[p].Symlink? && !t[p].Special?
        invariant Gathered(t, roots[..i], walk, left, selected)
        decreases left
      {
        var p :| p in left;
        if t[p].Symlink? || t[p].Special? {
          return false, selected;
        }
        if t[p].File? {
          selected := Gather(t, roots[..i], walk, left, selected, p);
        }
        left := left - {p};
      }
    }
    assert roots[..|roots|] == roots;
    return true, selected;
  }

  /** Everything selected through the finished roots, and through the walked part of the current one. */
  ghost predicate Gathered(t: Tree, done: seq<Path>, walk: set<Path>, left: set<Path>, selected: map<string, Path>) {
    && (forall name | name in selected ::
          && Name(selected[name]) == name
          && (Selected(t, done, selected[name]) || (selected[name] in walk - left && IsPlainFile(t, selected[name]))))
    && (forall p | Selected(t, done, p) || (p in walk - left && IsPlainFile(t, p)) ::
          Name(p) in selected && selected[Name(p)] == p)
  }

  method Gather(
    t: Tree, ghost done: seq<Path>, ghost walk: set<Path>, ghost left: set<Path>, selected: map<string, Path>, p: Path)
    returns (more: map<string, Path>)
    requires WellFormed(t) && walk <= t.Keys && p in left && left <= walk && t[p].File?
    requires Gathered(t, done, walk, left, selected)
    ensures Gathered(t, done, walk, left - {p}, more)
  {
    more := selected[Name(p) := p];
    forall q | Selected(t, done, q) || (q in walk - (left - {p}) && IsPlainFile(t, q))
      ensures Name(q) in more && more[Name(q)] == q
    {
      NameRoundTrip(p);
      NameRoundTrip(q);
    }
  }

  // ----- Destinations -----

  /** Whether a snapshot written to `destination` would lie inside the state it captures. */
  method DestinationOverlaps(state: StatePaths, destination: Path) returns (overlaps: bool)
    ensures overlaps == Overlaps(state, destination)
  {
    var all := state.roots + GATED;
    for i := 0 to |all|
      invariant forall r | r in all[..i] :: !(destination == r || (r in state.directories && Above(r, destination)))
    {
      assert all[..i + 1] == all[..i] + [all[i]] && all[i] in all;
      if destination == all[i] || (all[i] in state.directories && Above(all[i], destination)) {
        return true;
      }
    }
    assert all[..|all|] == all;
    return false;
  }

  ghost predicate Overlaps(state: StatePaths, destination: Path) {
    exists r :: r in state.roots + GATED && (destination == r || (r in state.directories && Above(r, destination)))
  }

  /** Something makes a directory above the path a root although the test, made on an earlier tree, did not see
    * it: a root that is meant to be a file, or an optional setting whose directory was not there yet.
    */
  ghost predicate Exposed(before: Tree, settings: seq<Setting>, state: StatePaths, path: Path) {
    || (exists r :: r in DEFAULT_FILES && r !in state.directories && Above(r, path))
    || exists s :: s in settings && Awaited(before, s) && Above(s.value.path, path)
  }

  /** A setting that may be absent and is. */
  ghost predicate Awaited(t: Tree, s: Setting) {
    s.optional && s.value.Inside? && !Exists(t, s.value.path)
  }

  /** A root of the later tree that the state of the earlier one does not have as a directory. */
  lemma LateRoot(
    before: Tree, after: Tree, settings: seq<Setting>, includeSecrets: bool, state: StatePaths, root: Path)
    requires IsStateOf(before, settings, state) && IsRoot(after, settings, includeSecrets, root)
    requires root in after && after[root].Dir? && root !in state.directories
    ensures root in DEFAULT_FILES || exists s :: s in settings && Awaited(before, s) && s.value.path == root
  {
    if root !in DEFAULT_FILES {
      assert !(includeSecrets && SecretRoots(after).Ok? && root in SecretRoots(after).value);
      var s :| s in settings && Resolve(after, s) == Ok(Some(root));
      assert Resolve(before, s).Ok? && Resolve(before, s) != Ok(Some(root));
    }
  }

  lemma NotLate(t: Tree, settings: seq<Setting>, state: StatePaths, s: Setting)
    requires IsStateOf(t, settings, state) && s in settings && Awaited(t, s)
    ensures s.value.path != []
  {
    assert Resolve(t, s).Ok?;
  }

  /** What is above a path that is in a tree. */
  lemma AboveIsThere(t: Tree, r: Path, p: Path)
    requires WellFormed(t) && p in t && r != [] && Above(r, p)
    ensures r in t && t[r].Dir? && Walked(t, r, p)
  {
  }

  /** The test is made before the output's directory is created, the selection after. A destination that passed
    * the test and was written is captured exactly when it is exposed, which can be told before the call.
    */
  lemma CapturedDespiteTest(
    before: Tree, after: Tree, settings: seq<Setting>, includeSecrets: bool, state: StatePaths, destination: Path)
    requires WellFormed(after) && IsPlainFile(after, destination)
    requires IsStateOf(before, settings, state) && !Overlaps(state, destination)
    requires forall s | s in settings :: Resolve(after, s).Ok?
    ensures Captures(after, settings, includeSecrets, destination) <==> Exposed(before, settings, state, destination)
  {
    if Captures(after, settings, includeSecrets, destination) {
      CapturedIsExposed(before, after, settings, includeSecrets, state, destination);
    }
    if r :| r in DEFAULT_FILES && r !in state.directories && Above(r, destination) {
      AboveIsThere(after, r, destination);
    }
    if s :| s in settings && Awaited(before, s) && Above(s.value.path, destination) {
      NotLate(before, settings, state, s);
      AboveIsThere(after, s.value.path, destination);
      assert Resolve(after, s) == Ok(Some(s.value.path));
      assert ConfiguredRoot(after, settings, s.value.path);
    }
  }

  lemma CapturedIsExposed(
    before: Tree, after: Tree, settings: seq<Setting>, includeSecrets: bool, state: StatePaths, destination: Path)
    requires IsStateOf(before, settings, state) && !Overlaps(state, destination)
    requires Captures(after, settings, includeSecrets, destination)
    ensures Exposed(before, settings, state, destination)
  {
    var r :| IsRoot(after, settings, includeSecrets, r) && Walked(after, r, destination);
    if !after[r].Dir? {
      FileRootIsTested(before, after, settings, includeSecrets, state, r);
    } else if r !in state.directories {
      LateRoot(before, after, settings, includeSecrets, state, r);
    }
  }

  lemma FileRootIsTested(
    before: Tree, after: Tree, settings: seq<Setting>, includeSecrets: bool, state: StatePaths, root: Path)
    requires IsStateOf(before, settings, state) && IsRoot(after, settings, includeSecrets, root)
    requires root in after && !after[root].Dir?
    ensures root in state.roots + GATED
  {
  }

  /** Whatever is created or removed between the test and the selection, and however the configured roots
    * overlap, a destination that passed the test and is not exposed is not captured.
    */
  lemma NoSelfCapture(
    before: Tree, after: Tree, settings: seq<Setting>, includeSecrets: bool, state: StatePaths, destination: Path)
    requires IsStateOf(before, settings, state) && !Overlaps(state, destination)
    requires !Exposed(before, settings, state, destination)
    ensures !Captures(after, settings, includeSecrets, destination)
  {
    if Captures(after, settings, includeSecrets, destination) {
      CapturedIsExposed(before, after, settings, includeSecrets, state, destination);
    }
  }

  /** An optional skills directory that is not there yet, and an output below it. */
  lemma AwaitedDirectoryCaptures()
    ensures var settings := [Setting(true, Inside(["sk"]))];
            var output := ["sk", "s.gss"];
            var after: Tree := map[["sk"] := Dir, output := File([], 384)];
            && IsStateOf(map[], settings, DefaultState()) && !Overlaps(DefaultState(), output)
            && WellFormed(after) && Selectable(after, settings, false) && Captures(after, settings, false, output)
  {
    var settings := [Setting(true, Inside(["sk"]))];
    var output := ["sk", "s.gss"];
    var after: Tree := map[["sk"] := Dir, output := File([], 384)];
    assert settings[0] in settings && Resolve(map[], settings[0]) == Ok(None);
    assert Above(["sk"], output) && Exists(after, ["sk"]);
    assert Resolve(after, settings[0]) == Ok(Some(["sk"]));
    assert ConfiguredRoot(after, settings, ["sk"]) && Walked(after, ["sk"], output);
    DefaultsElsewhere(output);
  }

  lemma DefaultsElsewhere(p: Path)
    requires p != [] && p[0] == "sk"
    ensures forall r | r in DEFAULT_FILES + DEFAULT_DIRECTORIES + GATED :: r != p && !Above(r, p)
  {
    forall r | r in DEFAULT_FILES + DEFAULT_DIRECTORIES + GATED ensures r != p && !Above(r, p) {
      assert r[0][0] == '.' || r[0][0] == 'd' || r[0][0] == 'a' || r[0][0] == 'b';
      assert p[0][0] == 's';
    }
  }

  /** A directory where a state file is expected, and an output in it. */
  lemma FileRootCaptures()
    ensures var root := ["docs", "webhooks.yaml"];
            var output := ["docs", "webhooks.yaml", "s.gss"];
            var before: Tree := map[["docs"] := Dir, root := Dir];
            var after: Tree := map[["docs"] := Dir, root := Dir, output := File([], 384)];
            && IsStateOf(before, [], DefaultState()) && !Overlaps(DefaultState(), output)
            && WellFormed(after) && Selectable(after, [], false) && Captures(after, [], false, output)
  {
    var root := ["docs", "webhooks.yaml"];
    var output := ["docs", "webhooks.yaml", "s.gss"];
    ThreeDeep("docs", "webhooks.yaml", "s.gss");
    WebhooksOnly(root, output);
    var after: Tree := map[["docs"] := Dir, root := Dir, output := File([], 384)];
    assert root in DEFAULT_FILES && root == output[..2];
    assert IsRoot(after, [], false, root) && Walked(after, root, output);
  }

  lemma ThreeDeep(a: string, b: string, c: string)
    requires ValidName(a) && ValidName(b) && ValidName(c)
    ensures WellFormed(map[[a] := Dir, [a, b] := Dir, [a, b, c] := File([], 384)])
  {
    var t: Tree := map[[a] := Dir, [a, b] := Dir, [a, b, c] := File([], 384)];
    forall p, q | q in t && p != [] && Above(p, q) ensures p in t && t[p].Dir? {
      assert p == q[..|p|] && |p| < |q| <= 3;
      assert |p| == 1 ==> p == [a];
      assert |p| == 2 ==> p == [a, b];
    }
  }

  lemma AboveEnds(p: Path, q: Path)
    requires p != []
    ensures Above(p, q) ==> |p| < |q| && p[|p| - 1] == q[|p| - 1]
  {
  }

  lemma WebhooksOnly(root: Path, output: Path)
    requires root == ["docs", "webhooks.yaml"] && output == root + ["s.gss"]
    ensures !Overlaps(DefaultState(), output)
  {
    forall r | r in DefaultState().roots + GATED ensures output != r && !(r in DefaultState().directories && Above(r, output)) {
      if r in DEFAULT_DIRECTORIES {
        assert r[|r| - 1] != "webhooks.yaml" && r[|r| - 1] != "docs" by {
          assert "webhooks.yaml"[0] == 'w' && "webhooks.yaml"[1] == 'e' && "workflows"[1] == 'o' && "docs"[0] == 'd';
        }
        AboveEnds(r, output);
      } else {
        assert |r| <= 2;
      }
    }
  }

  const STAGING_PROBE := ".genus-snapshot-staging"
  const STAGING_PREFIX := ".genus-snapshot-"

  /** One made-up name in the staging parent is tested before the staging directory is made there under a fresh
    * name. A file of that directory is captured exactly when it is exposed: the test sees every other root.
    */
  lemma NoStagingCapture(
    before: Tree, after: Tree, settings: seq<Setting>, includeSecrets: bool, state: StatePaths, parent: Path,
    name: string, below: Path)
    requires WellFormed(before) && IsStateOf(before, settings, state) && !Overlaps(state, parent + [STAGING_PROBE])
    requires StartsWith(name, STAGING_PREFIX) && parent + [name] !in before
    requires WellFormed(after) && IsPlainFile(after, parent + [name] + below)
    requires forall s | s in settings :: Resolve(after, s).Ok?
    ensures Captures(after, settings, includeSecrets, parent + [name] + below)
            <==> Exposed(before, settings, state, parent + [name] + below)
  {
    StagedNotOverlapping(before, settings, state, parent, name, below);
    CapturedDespiteTest(before, after, settings, includeSecrets, state, parent + [name] + below);
  }

  lemma StagedNotOverlapping(
    before: Tree, settings: seq<Setting>, state: StatePaths, parent: Path, name: string, below: Path)
    requires WellFormed(before) && IsStateOf(before, settings, state) && !Overlaps(state, parent + [STAGING_PROBE])
    requires StartsWith(name, STAGING_PREFIX) && parent + [name] !in before
    ensures !Overlaps(state, parent + [name] + below)
  {
    var file, probe := parent + [name] + below, parent + [STAGING_PROBE];
    forall r | r in state.roots + GATED ensures file != r && !(r in state.directories && Above(r, file)) {
      if |r| <= |parent| {
        assert file[..|r|] == probe[..|r|];
        assert Above(r, file) <==> Above(r, probe);
      } else {
        assert |r| <= |file| && r == file[..|r|] ==> r[|parent|] == name && r[..|parent| + 1] == parent + [name];
        NotStaged(before, settings, state, r, |parent|);
      }
    }
  }

  lemma NotStaged(before: Tree, settings: seq<Setting>, state: StatePaths, r: Path, k: nat)
    requires WellFormed(before) && IsStateOf(before, settings, state)
    requires r in state.roots + GATED && k < |r|
    ensures StartsWith(r[k], STAGING_PREFIX) ==> r[..k + 1] in before
  {
    if r in DEFAULT_FILES + DEFAULT_DIRECTORIES + GATED {
      DefaultNames(r, k);
    } else {
      var s :| s in settings && Resolve(before, s) == Ok(Some(r));
      if k + 1 == |r| {
        assert r[..k + 1] == r;
      } else {
        assert Above(r[..k + 1], r);
      }
    }
  }

  lemma DefaultNames(r: Path, k: nat)
    requires r in DEFAULT_FILES + DEFAULT_DIRECTORIES + GATED && k < |r|
    ensures |r[k]| >= 2 && (r[k][0] != '.' || r[k][1] != 'g')
    ensures !StartsWith(r[k], STAGING_PREFIX)
  {
    StagedHead(r[k]);
  }

  lemma StagedHead(s: string)
    ensures StartsWith(s, STAGING_PREFIX) ==> |s| >= 2 && s[0] == '.' && s[1] == 'g'
  {
    if StartsWith(s, STAGING_PREFIX) {
      assert s[0] == STAGING_PREFIX[0] && s[1] == STAGING_PREFIX[1];
    }
  }
}
