/** Restoring a workspace in place, one temporary file at a time
  * (robothor/snapshot.py:1287-1386, 1404-1482).
  */
module Restore {
  import opened Wrappers
  import opened Bytes
  import opened Json
  import opened Text
  import opened Paths
  import opened Workspace
  import opened Archive

  // ----- What a restore does to the tree -----

  predicate Blocked(t: Tree, p: Path, k: nat) {
    0 < k < |p| && p[..k] in t && !t[p[..k]].Dir?
  }

  /** `t` with the missing parent directories of `p` that are shorter than `k`. */
  function AddParents(t: Tree, p: Path, k: nat): (r: Tree)
    requires k <= |p|
    ensures forall q | q in t :: q in r && r[q] == t[q]
    ensures forall j | 0 < j < k :: p[..j] in r
    ensures forall q | q in r && q !in t :: r[q].Dir? && 0 < |q| < k && q == p[..|q|]
  {
    if k <= 1 then t
    else
      var r := AddParents(t, p, k - 1);
      if p[..k - 1] in r then r else r[p[..k - 1] := Dir]
  }

  function WithParents(t: Tree, p: Path): Tree {
    AddParents(t, p, |p|)
  }

  /** A link on the way to `p`, or one at `p` that leads out of the workspace. */
  predicate Linked(t: Tree, p: Path) {
    || (exists k | 0 < k < |p| :: Blocked(t, p, k) && t[p[..k]].Symlink?)
    || (p in t && t[p].Symlink? && !t[p].inside)
  }

  /** Why `p` cannot be written, if it cannot. */
  function Refusal(t: Tree, p: Path, force: bool): Option<Error> {
    if Linked(t, p) then Some(ConflictError)
    else if exists k | 0 < k < |p| :: Blocked(t, p, k) then Some(OsError)
    else if p == [] || (p in t && t[p].Dir?) then Some(if force then OsError else ConflictError)
    else if p in t && !force then Some(ConflictError)
    else None
  }

  /** The tree after writing one file, or after being refused. */
  function WriteFile(t: Tree, p: Path, file: Node, force: bool): Tree {
    if Refusal(t, p, force).Some? then t else WithParents(t, p)[p := file]
  }

  /** The node an entry is restored to: secret keys are always private. */
  function Final(e: Entry, contents: map<string, bytes>): Node
    requires e.path in contents && 0 <= e.mode
  {
    File(contents[e.path], if e.path == Name(VAULT_KEY) || e.path == Name(IDENTITY_KEY) then 384 else e.mode % 512)
  }

  ghost predicate Restorable(entries: seq<Entry>, contents: map<string, bytes>) {
    && (forall e | e in entries :: Safe(e.path) && 0 <= e.mode && e.path in contents)
    && (forall i, j | 0 <= i < j < |entries| :: entries[i].path != entries[j].path)
  }

  datatype Finished = Finished(tree: Tree, result: Result<nat, Error>)

  /** Restoring entry after entry, stopping at the first refusal. */
  function RestoreAll(t: Tree, entries: seq<Entry>, contents: map<string, bytes>, force: bool, count: nat): Finished
    requires forall e | e in entries :: 0 <= e.mode && e.path in contents
    decreases |entries|
  {
    if entries == [] then Finished(t, Ok(count))
    else
      var p := Parts(entries[0].path);
      match Refusal(t, p, force)
      case Some(e) => Finished(t, Err(e))
      case None =>
        RestoreAll(WriteFile(t, p, Final(entries[0], contents), force), entries[1..], contents, force, count + 1)
  }

  ghost predicate Keeps(before: Tree, after: Tree) {
    forall p | p in before :: p in after && after[p] == before[p]
  }

  lemma WriteFileWellFormed(t: Tree, p: Path, file: Node, force: bool)
    requires WellFormed(t) && (p == [] || ValidPath(p)) && !file.Dir?
    ensures WellFormed(WriteFile(t, p, file, force))
    ensures !force ==> Keeps(t, WriteFile(t, p, file, force))
    ensures Refusal(t, p, force).None? ==> forall q | q in t && q != p :: WriteFile(t, p, file, force)[q] == t[q]
  {
    if Refusal(t, p, force).None? {
      var after := WriteFile(t, p, file, force);
      forall q | q in after ensures ValidPath(q) {
        if q !in t && q != p {
          var k :| 0 < k < |p| && p[..k] == q;
        }
      }
      forall q, r | r in after && q != [] && Above(q, r) ensures q in after && after[q].Dir? {
        if r in t {
          assert q in t && t[q].Dir? && q != p by {
            assert t[q].Dir?;
          }
        } else {
          assert r == p || exists k :: 0 < k < |p| && p[..k] == r;
          var k :| 0 < k <= |p| && p[..k] == r;
          assert q == p[..|q|] && 0 < |q| < |p|;
          assert q in t ==> !Blocked(t, p, |q|);
        }
      }
    }
  }

  /** Without force nothing that was there is touched, whether the restore succeeds or stops part way. */
  lemma {:induction false} NoClobber(t: Tree, entries: seq<Entry>, contents: map<string, bytes>, count: nat)
    requires WellFormed(t) && forall e | e in entries :: 0 <= e.mode && e.path in contents && Safe(e.path)
    ensures Keeps(t, RestoreAll(t, entries, contents, false, count).tree)
    decreases |entries|
  {
    if entries != [] {
      var p := Parts(entries[0].path);
      SafeExactly(entries[0].path);
      var file := Final(entries[0], contents);
      if Refusal(t, p, false).None? {
        WriteFileWellFormed(t, p, file, false);
        NoClobber(WriteFile(t, p, file, false), entries[1..], contents, count + 1);
      }
    }
  }

  ghost predicate IsTarget(entries: seq<Entry>, p: Path) {
    exists e :: e in entries && Parts(e.path) == p
  }

  ghost predicate AboveTarget(entries: seq<Entry>, p: Path) {
    exists e :: e in entries && Above(p, Parts(e.path))
  }

  /** `after` is `before` with every entry written and nothing but the missing parents added. */
  ghost predicate IsRestored(before: Tree, entries: seq<Entry>, contents: map<string, bytes>, after: Tree)
    requires forall e | e in entries :: 0 <= e.mode && e.path in contents
  {
    && (forall e | e in entries :: Parts(e.path) in after && after[Parts(e.path)] == Final(e, contents))
    && (forall p | p in before && !IsTarget(entries, p) :: p in after && after[p] == before[p])
    && (forall p | p in after && p !in before && !IsTarget(entries, p) ::
          after[p].Dir? && p != [] && AboveTarget(entries, p))
    && (forall e, p | e in entries && p != [] && Above(p, Parts(e.path)) :: p in after)
  }

  /** A restore that completes has written every entry, kept everything else, and counted the entries. */
  lemma {:induction false} RestoreCompletes(
    t: Tree, entries: seq<Entry>, contents: map<string, bytes>, force: bool, count: nat)
    requires Restorable(entries, contents)
    requires RestoreAll(t, entries, contents, force, count).result.Ok?
    ensures RestoreAll(t, entries, contents, force, count).result.value == count + |entries|
    ensures IsRestored(t, entries, contents, RestoreAll(t, entries, contents, force, count).tree)
    decreases |entries|
  {
    if entries == [] {
      assert IsRestored(t, entries, contents, t);
    } else {
      var t1 := WriteFile(t, Parts(entries[0].path), Final(entries[0], contents), force);
      RestorableRest(entries, contents);
      RestoreCompletes(t1, entries[1..], contents, force, count + 1);
      NotWrittenAgain(entries, contents);
      assert |entries[1..]| == |entries| - 1;
      var after := RestoreAll(t1, entries[1..], contents, force, count + 1).tree;
      WriteFileWrites(t, Parts(entries[0].path), Final(entries[0], contents), force);
      FirstWritten(t, entries, contents, t1, after);
    }
  }

  lemma RestorableRest(entries: seq<Entry>, contents: map<string, bytes>)
    requires Restorable(entries, contents) && entries != []
    ensures Restorable(entries[1..], contents)
  {
    var rest := entries[1..];
    assert forall i | 0 <= i < |rest| :: rest[i] == entries[i + 1];
  }

  lemma NotWrittenAgain(entries: seq<Entry>, contents: map<string, bytes>)
    requires Restorable(entries, contents) && entries != []
    ensures !IsTarget(entries[1..], Parts(entries[0].path))
  {
    if e :| e in entries[1..] && Parts(e.path) == Parts(entries[0].path) {
      var i :| 1 <= i < |entries| && entries[i] == e;
      SafeNamesDistinct(e.path, entries[0].path);
      assert entries[0].path != entries[i].path;
    }
  }

  /** `after` is `before` with `p` and its missing parents. */
  ghost predicate WroteOne(before: Tree, p: Path, file: Node, after: Tree) {
    && p in after && after[p] == file
    && (forall q | q in before && q != p :: q in after && after[q] == before[q])
    && (forall q | q in after && q !in before && q != p :: after[q].Dir? && q != [] && Above(q, p))
    && (forall q | q != [] && Above(q, p) :: q in after)
  }

  lemma WriteFileWrites(t: Tree, p: Path, file: Node, force: bool)
    requires Refusal(t, p, force).None?
    ensures WroteOne(t, p, file, WriteFile(t, p, file, force))
  {
    forall q | q != [] && Above(q, p) ensures q in WriteFile(t, p, file, force) {
      assert p[..|q|] == q;
    }
  }

  lemma FirstWritten(t: Tree, entries: seq<Entry>, contents: map<string, bytes>, t1: Tree, after: Tree)
    requires entries != [] && forall e | e in entries :: 0 <= e.mode && e.path in contents
    requires WroteOne(t, Parts(entries[0].path), Final(entries[0], contents), t1)
    requires IsRestored(t1, entries[1..], contents, after)
    requires !IsTarget(entries[1..], Parts(entries[0].path))
    ensures IsRestored(t, entries, contents, after)
  {
    var e0, rest := entries[0], entries[1..];
    var p0 := Parts(e0.path);
    assert e0 in entries && forall e :: e in entries <==> e == e0 || e in rest;
    forall p ensures IsTarget(entries, p) <==> p == p0 || IsTarget(rest, p) {
    }
    forall p | p in after && p !in t && !IsTarget(entries, p)
      ensures after[p].Dir? && p != [] && exists e :: e in entries && Above(p, Parts(e.path))
    {
      if p in t1 {
        assert Above(p, Parts(e0.path));
      }
    }
  }

  /** No target is refused by the workspace, or lies above another target. */
  ghost predicate Clear(t: Tree, entries: seq<Entry>, force: bool) {
    && (forall e | e in entries :: ClearOne(t, Parts(e.path), force))
    && (forall e, f | e in entries && f in entries :: !Above(Parts(e.path), Parts(f.path)))
  }

  /** Nothing but directories above the target; without force nothing at it, and with force no directory and no
    * link that leads out.
    */
  ghost predicate ClearOne(t: Tree, p: Path, force: bool) {
    && p != [] && (forall k | 0 < k < |p| :: !Blocked(t, p, k))
    && (p in t ==> force && !t[p].Dir? && (t[p].Symlink? ==> t[p].inside))
  }

  lemma ClearAfter(t: Tree, p0: Path, file: Node, p: Path, force: bool)
    requires ClearOne(t, p0, force) && p != [] && p != p0 && file.File?
    ensures ClearOne(WriteFile(t, p0, file, force), p, force) <==>
            ClearOne(t, p, force) && !Above(p, p0) && !Above(p0, p)
  {
    var t1 := WriteFile(t, p0, file, force);
    assert Refusal(t, p0, force).None?;
    if Above(p, p0) {
      assert p0[..|p|] == p && p in t1;
      assert !Blocked(t, p0, |p|);
      assert t1[p].Dir?;
    }
    if Above(p0, p) {
      assert p[..|p0|] == p0 && Blocked(t1, p, |p0|);
    }
    if ClearOne(t, p, force) && !Above(p, p0) && !Above(p0, p) {
      forall k | 0 < k < |p| ensures !Blocked(t1, p, k) {
        assert !Blocked(t, p, k);
      }
    }
    if ClearOne(t1, p, force) {
      forall k | 0 < k < |p| ensures !Blocked(t, p, k) {
        assert !Blocked(t1, p, k);
      }
    }
  }

  lemma ClearStep(t: Tree, entries: seq<Entry>, contents: map<string, bytes>, force: bool)
    requires Restorable(entries, contents) && entries != [] && ClearOne(t, Parts(entries[0].path), force)
    ensures var t1 := WriteFile(t, Parts(entries[0].path), Final(entries[0], contents), force);
            Clear(t, entries, force) <==> Clear(t1, entries[1..], force)
  {
    var e0, rest := entries[0], entries[1..];
    var p0, file := Parts(e0.path), Final(e0, contents);
    NotWrittenAgain(entries, contents);
    forall e | e in rest
      ensures ClearOne(WriteFile(t, p0, file, force), Parts(e.path), force) <==>
              ClearOne(t, Parts(e.path), force) && !Above(Parts(e.path), p0) && !Above(p0, Parts(e.path))
    {
      assert Parts(e.path) != p0;
      if Parts(e.path) != [] {
        ClearAfter(t, p0, file, Parts(e.path), force);
      }
    }
    ClearRest(t, WriteFile(t, p0, file, force), entries, e0, rest, force);
  }

  lemma ClearRest(t: Tree, t1: Tree, entries: seq<Entry>, e0: Entry, rest: seq<Entry>, force: bool)
    requires entries == [e0] + rest && ClearOne(t, Parts(e0.path), force)
    requires forall e | e in rest ::
               ClearOne(t1, Parts(e.path), force) <==>
               ClearOne(t, Parts(e.path), force) && !Above(Parts(e.path), Parts(e0.path)) && !Above(Parts(e0.path), Parts(e.path))
    ensures Clear(t, entries, force) <==> Clear(t1, rest, force)
  {
    assert e0 in entries && forall e :: e in entries <==> e == e0 || e in rest;
  }

  /** A restore completes exactly when its targets are clear of the workspace and of each other. */
  lemma {:induction false} SucceedsExactly(
    t: Tree, entries: seq<Entry>, contents: map<string, bytes>, force: bool, count: nat)
    requires Restorable(entries, contents)
    ensures RestoreAll(t, entries, contents, force, count).result.Ok? <==> Clear(t, entries, force)
    decreases |entries|
  {
    if entries != [] {
      var p0 := Parts(entries[0].path);
      assert entries[0] in entries;
      assert Refusal(t, p0, force).None? <==> ClearOne(t, p0, force);
      if ClearOne(t, p0, force) {
        RestorableRest(entries, contents);
        ClearStep(t, entries, contents, force);
        SucceedsExactly(
          WriteFile(t, p0, Final(entries[0], contents), force), entries[1..], contents, force, count + 1);
      }
    }
  }

  /** A restore that completes without force does the same with it. */
  lemma {:induction false} ForceAlike(t: Tree, entries: seq<Entry>, contents: map<string, bytes>, count: nat)
    requires forall e | e in entries :: 0 <= e.mode && e.path in contents
    requires RestoreAll(t, entries, contents, false, count).result.Ok?
    ensures RestoreAll(t, entries, contents, true, count) == RestoreAll(t, entries, contents, false, count)
    decreases |entries|
  {
    if entries != [] {
      var p := Parts(entries[0].path);
      assert Refusal(t, p, true).None?;
      ForceAlike(WriteFile(t, p, Final(entries[0], contents), false), entries[1..], contents, count + 1);
    }
  }

  // ----- The restore itself -----

  /** The workspace being restored into, with every state it has gone through. */
  class Target {
    var tree: Tree
    ghost var history: seq<Tree>

    method Put(p: Path, node: Node)
      modifies this
      ensures tree == old(tree)[p := node]
      ensures history == old(history) + [tree]
    {
      tree := tree[p := node];
      history := history + [tree];
    }

    method Remove(p: Path)
      modifies this
      ensures tree == old(tree) - {p}
      ensures history == old(history) + [tree]
    {
      tree := tree - {p};
      history := history + [tree];
    }

    /** `temp_path.replace(target)`: in one step. */
    method Move(from: Path, to: Path)
      requires from in tree
      modifies this
      ensures tree == old(tree)[to := old(tree)[from]] - {from}
      ensures history == old(history) + [tree]
    {
      tree := tree[to := tree[from]] - {from};
      history := history + [tree];
    }

    /** `target.parent.mkdir(parents=True, exist_ok=True)`, from the top down. */
    method MakeParents(p: Path)
      requires forall k | 0 < k < |p| :: !Blocked(tree, p, k)
      modifies this
      ensures tree == WithParents(old(tree), p)
      ensures Through(old(history), history, old(tree), p, Dir, false)
    {
      if p != [] {
        for k := 1 to |p|
          invariant tree == AddParents(old(tree), p, k)
          invariant Through(old(history), history, old(tree), p, Dir, false)
        {
          if p[..k] !in tree {
            Put(p[..k], Dir);
          }
        }
      }
    }

    /** `tempfile.mkstemp`: a name in `dir` that is not taken. */
    method TempName(dir: Path, base: string) returns (temp: Path)
      requires ValidName(base)
      ensures temp !in tree && temp != dir + [base]
    {
      var name := "." + base + ".";
      ghost var tried: set<Path> := {};
      while dir + [name] in tree
        invariant |name| > |base|
        invariant tried <= tree.Keys
        invariant forall q | q in tried :: |q| == |dir| + 1 && |q[|dir|]| < |name|
        decreases tree.Keys - tried
      {
        tried := tried + {dir + [name]};
        name := name + "_";
      }
      temp := dir + [name];
      assert temp[|dir|] == name && (dir + [base])[|dir|] == base;
    }

    /** A finished temporary file beside `p`. */
    method WriteTemp(p: Path, content: bytes, mode: nat) returns (temp: Path)
      requires p != [] && ValidName(p[|p| - 1])
      modifies this
      ensures temp !in old(tree) && temp != p
      ensures tree == old(tree)[temp := File(content, mode)]
      ensures Through(old(history), history, old(tree), p, File(content, mode), false)
    {
      temp := TempName(p[..|p| - 1], p[|p| - 1]);
      assert p[..|p| - 1] + [p[|p| - 1]] == p;
      Put(temp, File([], 384));
      var written := 0;
      while written < |content|
        invariant 0 <= written <= |content|
        invariant tree == old(tree)[temp := File(content[..written], 384)]
        invariant Through(old(history), history, old(tree), p, File(content, mode), false)
      {
        var next := Min(written + 0x10_0000, |content|);
        Put(temp, File(content[..next], 384));
        written := next;
      }
      assert content[..written] == content;
      Put(temp, File(content, mode));
    }

    /** Links the temporary file to `p`, or with force moves it over `p`; it is gone either way. */
    method Publish(temp: Path, p: Path, force: bool) returns (ok: bool)
      requires temp in tree && temp != p
      modifies this
      ensures ok <==> p !in old(tree) || (force && !old(tree)[p].Dir?)
      ensures tree == (if ok then old(tree)[p := old(tree)[temp]] else old(tree)) - {temp}
      ensures Through(old(history), history, old(tree) - {temp}, p, old(tree)[temp], force)
    {
      ok := p !in tree || (force && !tree[p].Dir?);
      if ok {
        if force {
          Move(temp, p);
          return;
        }
        Put(p, tree[temp]);
      }
      Remove(temp);
    }

    /** Writes a temporary file beside `p`, then publishes it. */
    method WriteAtomically(p: Path, content: bytes, mode: nat, force: bool) returns (ok: bool)
      requires p != [] && ValidName(p[|p| - 1])
      modifies this
      ensures ok <==> p !in old(tree) || (force && !old(tree)[p].Dir?)
      ensures tree == if ok then old(tree)[p := File(content, mode)] else old(tree)
      ensures Through(old(history), history, old(tree), p, File(content, mode), force)
    {
      var temp := WriteTemp(p, content, mode);
      assert tree - {temp} == old(tree);
      ok := Publish(temp, p, force);
    }

    /** Restores one file; `r` is the error raised, if any. */
    method RestoreFile(p: Path, content: bytes, mode: nat, force: bool) returns (r: Option<Error>)
      requires WellFormed(tree) && (p == [] || ValidPath(p))
      modifies this
      ensures r == Refusal(old(tree), p, force)
      ensures tree == WriteFile(old(tree), p, File(content, mode), force)
      ensures Through(old(history), history, old(tree), p, File(content, mode), force)
    {
      if Linked(tree, p) {
        return Some(ConflictError);
      }
      if exists k | 0 < k < |p| :: Blocked(tree, p, k) {
        return Some(OsError);
      }
      if p == [] {
        return Some(if force then OsError else ConflictError);
      }
      assert p[|p| - 1] in p;
      MakeParents(p);
      if p in tree {
        ParentsThere(old(tree), p);
      }
      var ok := WriteAtomically(p, content, mode, force);
      if !ok {
        return Some(if force then OsError else ConflictError);
      }
      return None;
    }

    /** Restores one of the entries; `start` is the workspace before all of them. */
    method RestoreEntry(
      e: Entry, entries: seq<Entry>, contents: map<string, bytes>, force: bool, ghost start: Tree)
      returns (r: Option<Error>)
      requires WellFormed(tree) && Restorable(entries, contents) && e in entries
      requires Safely(start, entries, contents, force, tree)
      modifies this
      ensures r == Refusal(old(tree), Parts(e.path), force)
      ensures tree == WriteFile(old(tree), Parts(e.path), Final(e, contents), force)
      ensures WellFormed(tree) && Safely(start, entries, contents, force, tree)
      ensures old(history) <= history
      ensures forall i | |old(history)| <= i < |history| :: Safely(start, entries, contents, force, history[i])
    {
      var p, file := Parts(e.path), Final(e, contents);
      SafeExactly(e.path);
      WriteFileWellFormed(tree, p, file, force);
      ghost var before := tree;
      r := RestoreFile(p, file.content, file.mode, force);
      forall s | Undisturbed(before, p, file, force, s) ensures Safely(start, entries, contents, force, s) {
        StaysSafe(start, before, entries, contents, force, e, s);
      }
      assert Undisturbed(before, p, file, force, tree);
    }

    /** Restores entry after entry. At every step along the way each file that was there before is
      * either untouched or, with force, already the complete restored one.
      */
    method RestoreWorkspace(entries: seq<Entry>, contents: map<string, bytes>, force: bool)
      returns (r: Result<nat, Error>)
      requires WellFormed(tree) && Restorable(entries, contents)
      modifies this
      ensures RestoreAll(old(tree), entries, contents, force, 0) == Finished(tree, r)
      ensures WellFormed(tree)
      ensures old(history) <= history
      ensures forall i | |old(history)| <= i < |history| :: Safely(old(tree), entries, contents, force, history[i])
    {
      assert entries[0..] == entries;
      for i := 0 to |entries|
        invariant WellFormed(tree) && Safely(old(tree), entries, contents, force, tree)
        invariant RestoreAll(old(tree), entries, contents, force, 0) == RestoreAll(tree, entries[i..], contents, force, i)
        invariant old(history) <= history
        invariant forall j | |old(history)| <= j < |history| :: Safely(old(tree), entries, contents, force, history[j])
      {
        assert entries[i..][0] == entries[i] && entries[i..][1..] == entries[i + 1..] && entries[i] in entries;
        var e := entries[i];
        var refused := RestoreEntry(e, entries, contents, force, old(tree));
        if refused.Some? {
          return Err(refused.value);
        }
      }
      return Ok(|entries|);
    }

    /** Points restored identity metadata at the key in this workspace. */
    method RelocateKeyReference(platform: Platform, entries: seq<Entry>, reference: string) returns (r: Outcome<Error>)
      modifies this
      ensures old(history) <= history && (!Holds(entries, IDENTITY) ==> history == old(history))
      ensures forall i | |old(history)| <= i < |history| ::
                forall q | q in old(tree) && q != IDENTITY :: q in history[i] && history[i][q] == old(tree)[q]
      ensures match Relocated(platform, old(tree), entries, reference)
              case Ok(t) => r == Pass && tree == t
              case Err(e) => r == Fail(e) && tree == old(tree)
    {
      if !Holds(entries, IDENTITY) {
        return Pass;
      }
      if !Exists(tree, IDENTITY_KEY) || !IsPlainFile(tree, IDENTITY) {
        return Fail(OsError);
      }
      match ReadIdentity(platform, tree[IDENTITY].content) {
        case None =>
          return Fail(IntegrityError);
        case Some(fields) =>
          if fields["private_key_ref"] == Str(reference) {
            return Pass;
          }
          var ok := WriteAtomically(
            IDENTITY, platform.printJson(Obj(fields["private_key_ref" := Str(reference)])), ModeOf(entries, IDENTITY), true);
          return Pass;
      }
    }
  }

  /** `s` still has everything `before` had, apart from files completely restored over with force. */
  ghost predicate Safely(before: Tree, entries: seq<Entry>, contents: map<string, bytes>, force: bool, s: Tree)
    requires forall e | e in entries :: 0 <= e.mode && e.path in contents
  {
    forall q | q in before ::
      && q in s
      && (s[q] == before[q] || (force && exists e :: e in entries && Parts(e.path) == q && s[q] == Final(e, contents)))
  }

  lemma StaysSafe(
    start: Tree, before: Tree, entries: seq<Entry>, contents: map<string, bytes>, force: bool, e: Entry, s: Tree)
    requires forall f | f in entries :: 0 <= f.mode && f.path in contents
    requires Safely(start, entries, contents, force, before) && e in entries
    requires Undisturbed(before, Parts(e.path), Final(e, contents), force, s)
    ensures Safely(start, entries, contents, force, s)
  {
  }

  // ----- Relocation -----

  function ModeOf(entries: seq<Entry>, p: Path): nat {
    if entries == [] then 0
    else if entries[0].path == Name(p) then entries[0].mode % 512
    else ModeOf(entries[1..], p)
  }

  /** The tree once the identity document refers to the key by `reference`. */
  function Relocated(platform: Platform, t: Tree, entries: seq<Entry>, reference: string): Result<Tree, Error> {
    if !Holds(entries, IDENTITY) then Ok(t)
    else if !Exists(t, IDENTITY_KEY) || !IsPlainFile(t, IDENTITY) then Err(OsError)
    else match ReadIdentity(platform, t[IDENTITY].content)
      case None => Err(IntegrityError)
      case Some(fields) =>
        if fields["private_key_ref"] == Str(reference) then Ok(t)
        else Ok(t[IDENTITY := File(
          platform.printJson(Obj(fields["private_key_ref" := Str(reference)])), ModeOf(entries, IDENTITY))])
  }

  /** The mode found is the permission bits of the entry declared at the path. */
  lemma {:induction false} ModeDeclared(entries: seq<Entry>, p: Path, e: Entry)
    requires e in entries && e.path == Name(p) && 0 <= e.mode
    requires forall f | f in entries && f.path == Name(p) :: f == e
    ensures ModeOf(entries, p) == e.mode % 512
  {
    if entries[0].path == Name(p) {
      assert entries[0] in entries;
    } else {
      ModeDeclared(entries[1..], p, e);
    }
  }

  lemma PathTells(entries: seq<Entry>, contents: map<string, bytes>, e: Entry, f: Entry)
    requires Restorable(entries, contents) && e in entries && f in entries && e.path == f.path
    ensures e == f
  {
    var i :| 0 <= i < |entries| && entries[i] == e;
    var j :| 0 <= j < |entries| && entries[j] == f;
  }

  /** A rewritten identity document has the mode its entry declares, whatever the tree. */
  lemma RelocatedMode(
    platform: Platform, t: Tree, entries: seq<Entry>, contents: map<string, bytes>, reference: string, e: Entry)
    requires Restorable(entries, contents) && e in entries && e.path == Name(IDENTITY)
    requires Relocated(platform, t, entries, reference).Ok?
    ensures var moved := Relocated(platform, t, entries, reference).value;
            moved == t || (IDENTITY in moved && moved[IDENTITY].File? && moved[IDENTITY].mode == e.mode % 512)
  {
    forall f | f in entries && f.path == Name(IDENTITY) ensures f == e {
      PathTells(entries, contents, e, f);
    }
    ModeDeclared(entries, IDENTITY, e);
  }

  /** `moved` is `t` with another content in the identity document: `t`'s own fields, and `reference` for the key. */
  ghost predicate IsMoved(platform: Platform, t: Tree, reference: string, moved: Tree) {
    && IsPlainFile(t, IDENTITY) && IsPlainFile(moved, IDENTITY) && Exists(t, IDENTITY_KEY)
    && moved == t[IDENTITY := t[IDENTITY].(content := moved[IDENTITY].content)]
    && ReadIdentity(platform, t[IDENTITY].content).Some?
    && var fields := ReadIdentity(platform, t[IDENTITY].content).value;
       && platform.parseJson(moved[IDENTITY].content) == Some(Obj(fields["private_key_ref" := Str(reference)]))
       && (fields["private_key_ref"] == Str(reference) ==> moved == t)
  }

  /** After a restore, relocation changes nothing of the tree but the content of a restored identity document, and of
    * that the reference only.
    */
  lemma RelocationMoves(
    platform: Platform, before: Tree, entries: seq<Entry>, contents: map<string, bytes>, force: bool, count: nat,
    reference: string)
    requires platform.ReadsBack() && Restorable(entries, contents)
    requires RestoreAll(before, entries, contents, force, count).result.Ok?
    requires Relocated(platform, RestoreAll(before, entries, contents, force, count).tree, entries, reference).Ok?
    ensures var t := RestoreAll(before, entries, contents, force, count).tree;
            var moved := Relocated(platform, t, entries, reference).value;
            if Holds(entries, IDENTITY) then IsMoved(platform, t, reference, moved) else moved == t
  {
    if e :| e in entries && e.path == Name(IDENTITY) {
      IdentityRestored(before, entries, contents, force, count, e);
      DeclaredMoves(platform, RestoreAll(before, entries, contents, force, count).tree, entries, contents, reference, e);
    }
  }

  lemma IdentityRestored(
    before: Tree, entries: seq<Entry>, contents: map<string, bytes>, force: bool, count: nat, e: Entry)
    requires Restorable(entries, contents) && e in entries && e.path == Name(IDENTITY)
    requires RestoreAll(before, entries, contents, force, count).result.Ok?
    ensures var t := RestoreAll(before, entries, contents, force, count).tree;
            IsPlainFile(t, IDENTITY) && t[IDENTITY] == File(contents[e.path], e.mode % 512)
  {
    EntryRestored(before, entries, contents, force, count, e);
    IdentityPath();
    IdentityMode(e, contents);
  }

  lemma IdentityPath()
    ensures Parts(Name(IDENTITY)) == IDENTITY
  {
    NameRoundTrip(IDENTITY);
  }

  lemma EntryRestored(
    before: Tree, entries: seq<Entry>, contents: map<string, bytes>, force: bool, count: nat, e: Entry)
    requires Restorable(entries, contents) && e in entries
    requires RestoreAll(before, entries, contents, force, count).result.Ok?
    ensures var t := RestoreAll(before, entries, contents, force, count).tree;
            Parts(e.path) in t && t[Parts(e.path)] == Final(e, contents)
  {
    RestoreCompletes(before, entries, contents, force, count);
  }

  lemma DeclaredMoves(
    platform: Platform, t: Tree, entries: seq<Entry>, contents: map<string, bytes>, reference: string, e: Entry)
    requires platform.ReadsBack() && Restorable(entries, contents) && e in entries && e.path == Name(IDENTITY)
    requires IsPlainFile(t, IDENTITY) && t[IDENTITY].mode == e.mode % 512
    requires Relocated(platform, t, entries, reference).Ok?
    ensures IsMoved(platform, t, reference, Relocated(platform, t, entries, reference).value)
  {
    RelocatedMode(platform, t, entries, contents, reference, e);
    MovedContent(platform, t, entries, reference);
    assert t[IDENTITY := t[IDENTITY]] == t;
  }

  lemma IdentityMode(e: Entry, contents: map<string, bytes>)
    requires e.path == Name(IDENTITY) && e.path in contents && 0 <= e.mode
    ensures Final(e, contents) == File(contents[e.path], e.mode % 512)
  {
    NameInjective(IDENTITY, VAULT_KEY);
    NameInjective(IDENTITY, IDENTITY_KEY);
  }

  lemma MovedContent(platform: Platform, t: Tree, entries: seq<Entry>, reference: string)
    requires platform.ReadsBack() && Holds(entries, IDENTITY) && Relocated(platform, t, entries, reference).Ok?
    ensures IsPlainFile(t, IDENTITY) && Exists(t, IDENTITY_KEY) && ReadIdentity(platform, t[IDENTITY].content).Some?
    ensures var moved, fields := Relocated(platform, t, entries, reference).value, ReadIdentity(platform, t[IDENTITY].content).value;
            && IDENTITY in moved && moved[IDENTITY].File? && moved == t[IDENTITY := moved[IDENTITY]]
            && platform.parseJson(moved[IDENTITY].content) == Some(Obj(fields["private_key_ref" := Str(reference)]))
            && (fields["private_key_ref"] == Str(reference) ==> moved == t)
  {
    var fields := ReadIdentity(platform, t[IDENTITY].content).value;
    if fields["private_key_ref"] == Str(reference) {
      assert fields["private_key_ref" := Str(reference)] == fields;
      assert t[IDENTITY := t[IDENTITY]] == t;
    } else {
      var rewritten := Obj(fields["private_key_ref" := Str(reference)]);
      assert platform.parseJson(platform.printJson(rewritten)) == Some(rewritten);
    }
  }

  /** The identity document has to be rewritten, and rewritten is too large to be read as one. */
  predicate Outgrows(platform: Platform, t: Tree, entries: seq<Entry>, reference: string) {
    && Holds(entries, IDENTITY) && IsPlainFile(t, IDENTITY)
    && match ReadIdentity(platform, t[IDENTITY].content)
       case None => false
       case Some(fields) =>
         && fields["private_key_ref"] != Str(reference)
         && |platform.printJson(Obj(fields["private_key_ref" := Str(reference)]))| > IDENTITY_LIMIT
  }

  /** Relocation changes the reference and nothing else of the document. Doing it again changes nothing, unless the
    * document outgrows the limit, which can be told before the first time; then the second is refused.
    */
  lemma RelocateTwice(platform: Platform, t: Tree, entries: seq<Entry>, reference: string)
    requires platform.ReadsBack() && !IsBlank(reference)
    requires Relocated(platform, t, entries, reference).Ok?
    ensures var once := Relocated(platform, t, entries, reference).value;
            && Relocated(platform, once, entries, reference) ==
               (if Outgrows(platform, t, entries, reference) then Err(IntegrityError) else Ok(once))
            && (once != t ==>
                 && once == t[IDENTITY := once[IDENTITY]]
                 && var fields := ReadIdentity(platform, t[IDENTITY].content).value;
                    platform.parseJson(once[IDENTITY].content) == Some(Obj(fields["private_key_ref" := Str(reference)])))
  {
    var once := Relocated(platform, t, entries, reference).value;
    if once != t {
      var fields := ReadIdentity(platform, t[IDENTITY].content).value;
      var rewritten := Obj(fields["private_key_ref" := Str(reference)]);
      assert platform.parseJson(platform.printJson(rewritten)) == Some(rewritten);
    }
  }

  lemma ParentsThere(t: Tree, p: Path)
    requires WellFormed(t) && p != [] && p in WithParents(t, p)
    ensures p in t && WithParents(t, p) == t
  {
    assert forall j | 0 < j < |p| :: Above(p[..j], p);
  }

  /** Everything `before` held is still there in `s`, except that with force `p` may already be `file`. */
  ghost predicate Undisturbed(before: Tree, p: Path, file: Node, force: bool, s: Tree) {
    forall q | q in before :: q in s && (s[q] == before[q] || (force && q == p && s[q] == file))
  }

  /** From `h0` to `h1` the workspace only went through undisturbed states. */
  ghost predicate Through(h0: seq<Tree>, h1: seq<Tree>, before: Tree, p: Path, file: Node, force: bool) {
    h0 <= h1 && forall i | |h0| <= i < |h1| :: Undisturbed(before, p, file, force, h1[i])
  }
}