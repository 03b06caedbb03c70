/** Documented paths against the tracked tree: the index, and links resolved by text alone
  * (scripts/check_doc_links.py:110-139, 165-194).
  */
module DocLinks {
  import opened Wrappers
  import opened Sequences
  import opened Text
  import opened Lines

  // ----- The index -----

  /** The directories above a path. */
  function Ancestors(path: string): seq<string> {
    var parts := Split(path, '/');
    seq(|parts| - 1, i requires 0 <= i < |parts| - 1 => Join(parts[..i + 1], '/'))
  }

  /** The paths that `git ls-files` names. */
  function Tracked(lines: seq<string>): set<string> {
    set line | line in lines && Strip(line) != "" :: Strip(line)
  }

  /** The known paths that one tracked file brings: itself, and its directories, each with a slash. */
  predicate Brings(path: string, known: string) {
    known == path || (known != "" && known[|known| - 1] == '/' && known[..|known| - 1] in Ancestors(path))
  }

  ghost predicate IsIndex(known: set<string>, tracked: set<string>) {
    forall k :: k in known <==> exists path | path in tracked :: Brings(path, k)
  }

  method KnownPaths(lines: seq<string>) returns (known: set<string>)
    ensures IsIndex(known, Tracked(lines))
  {
    known := {};
    for i := 0 to |lines|
      invariant IsIndex(known, Tracked(lines[..i]))
    {
      var path := Strip(lines[i]);
      TrackedNext(lines, i);
      if path == "" {
        continue;
      }
      var dirs := WithSlash(Ancestors(path));
      IndexGrows(known, Tracked(lines[..i]), path, dirs);
      known := known + {path} + dirs;
    }
    Ends(lines);
  }

  lemma TrackedNext(lines: seq<string>, i: nat)
    requires i < |lines|
    ensures Tracked(lines[..i + 1]) == Tracked(lines[..i]) + if Strip(lines[i]) == "" then {} else {Strip(lines[i])}
  {
    Sequences.Step(lines, i);
  }

  lemma IndexGrows(known: set<string>, tracked: set<string>, path: string, dirs: set<string>)
    requires IsIndex(known, tracked)
    requires forall k :: k in dirs <==> k != "" && k[|k| - 1] == '/' && k[..|k| - 1] in Ancestors(path)
    ensures IsIndex(known + {path} + dirs, tracked + {path})
  {
    assert forall k :: k in {path} + dirs <==> Brings(path, k);
  }

  method WithSlash(dirs: seq<string>) returns (r: set<string>)
    ensures forall k :: k in r <==> k != "" && k[|k| - 1] == '/' && k[..|k| - 1] in dirs
  {
    r := set dir | dir in dirs :: dir + "/";
    forall k | k != "" && k[|k| - 1] == '/' && k[..|k| - 1] in dirs ensures k in r {
      assert k == k[..|k| - 1] + "/";
    }
  }

  function RStripSlash(s: string): (r: string)
    ensures r <= s && (r != "" ==> r[|r| - 1] != '/')
  {
    if s != "" && s[|s| - 1] == '/' then RStripSlash(s[..|s| - 1]) else s
  }

  predicate Exists(candidate: string, known: set<string>) {
    var bare := RStripSlash(candidate);
    bare in known || bare + "/" in known
  }

  predicate IsTrackedFile(candidate: string, known: set<string>) {
    !(candidate != "" && candidate[|candidate| - 1] == '/') && candidate in known
  }

  /** `path` is the tracked file `file`, or one of the directories it is in, component by component. */
  predicate LeadsTo(path: string, file: string) {
    Split(path, '/') <= Split(file, '/')
  }

  lemma {:induction false} SplitEndsInSlash(s: string)
    ensures Split(s + "/", '/') == Split(s, '/') + [""]
  {
    if s == "" {
      assert ("" + "/")[1..] == "";
    } else {
      SplitEndsInSlash(s[1..]);
      assert (s + "/")[1..] == s[1..] + "/";
    }
  }

  lemma AncestorsLead(path: string, dir: string)
    ensures dir in Ancestors(path) <==> LeadsTo(dir, path) && dir != path
  {
    if dir in Ancestors(path) {
      var i :| 0 <= i < |Split(path, '/')| - 1 && dir == Join(Split(path, '/')[..i + 1], '/');
      AncestorLeads(path, i);
    }
    if LeadsTo(dir, path) && dir != path {
      LeadIsAncestor(path, dir);
    }
  }

  lemma AncestorLeads(path: string, i: nat)
    requires i < |Split(path, '/')| - 1
    ensures var dir := Join(Split(path, '/')[..i + 1], '/'); LeadsTo(dir, path) && dir != path
  {
    var parts := Split(path, '/');
    assert forall part | part in parts[..i + 1] :: part in parts;
    SplitOfJoin(parts[..i + 1], '/');
  }

  lemma LeadIsAncestor(path: string, dir: string)
    requires LeadsTo(dir, path) && dir != path
    ensures dir in Ancestors(path)
  {
    var parts, k := Split(path, '/'), |Split(dir, '/')|;
    JoinOfSplit(path, '/');
    JoinOfSplit(dir, '/');
    Ends(parts);
    assert Split(dir, '/') == parts[..k];
    assert k < |parts| && Ancestors(path)[k - 1] == dir;
  }

  ghost predicate AllSlashes(s: string) {
    forall i | 0 <= i < |s| :: s[i] == '/'
  }

  /** Exactly the slashes at the end are taken off. */
  lemma {:induction false} BareExactly(s: string, slashes: string)
    requires AllSlashes(slashes) && (s == "" || s[|s| - 1] != '/')
    ensures RStripSlash(s + slashes) == s
  {
    if slashes == "" {
      Nothing(s);
    } else {
      var last := slashes[|slashes| - 1];
      assert (s + slashes)[|s + slashes| - 1] == last;
      assert (s + slashes)[..|s + slashes| - 1] == s + slashes[..|slashes| - 1];
      BareExactly(s, slashes[..|slashes| - 1]);
    }
  }

  /** `d` and `d/` exist alike. */
  lemma SlashMakesNoDifference(candidate: string, known: set<string>)
    ensures Exists(candidate + "/", known) <==> Exists(candidate, known)
  {
    Snoc(candidate, '/');
    assert RStripSlash(candidate + "/") == RStripSlash(candidate);
  }

  /** What `_exists` and `_is_tracked_file` say of the index: a candidate exists exactly when its components,
    * slashes at its end aside, are the first components of some tracked path; it is a tracked file exactly when
    * it is one.
    */
  lemma IndexAgrees(candidate: string, known: set<string>, tracked: set<string>)
    requires IsIndex(known, tracked)
    ensures Exists(candidate, known) <==> exists path | path in tracked :: LeadsTo(RStripSlash(candidate), path)
    ensures IsTrackedFile(candidate, known)
            <==> candidate in tracked && !(candidate != "" && candidate[|candidate| - 1] == '/')
  {
    var bare := RStripSlash(candidate);
    SplitEndsInSlash(bare);
    assert (bare + "/")[..|bare|] == bare;
    forall path ensures Brings(path, bare) || Brings(path, bare + "/") <==> LeadsTo(bare, path) {
      AncestorsLead(path, bare);
      assert path == bare + "/" ==> Split(bare, '/') <= Split(path, '/');
    }
  }

  // ----- Links -----

  predicate IsSkipped(part: string) {
    part == "" || part == "."
  }

  predicate IsName(part: string) {
    !IsSkipped(part) && part != ".."
  }

  function DropSkipped(parts: seq<string>): seq<string> {
    if parts == [] then [] else (if IsSkipped(parts[0]) then [] else [parts[0]]) + DropSkipped(parts[1..])
  }

  /** `Path(doc_path).parent.parts`, for a relative path. */
  function BaseParts(doc: string): seq<string> {
    var parts := DropSkipped(Split(doc, '/'));
    if parts == [] then [] else parts[..|parts| - 1]
  }

  /** What vanishes from a document's path: the empty and `.` components, and nothing else. */
  lemma {:induction false} DropsExactly(parts: seq<string>, more: seq<string>)
    ensures DropSkipped(parts + more) == DropSkipped(parts) + DropSkipped(more)
    ensures (forall part | part in parts :: part == "" || part == ".") ==> DropSkipped(parts) == []
    ensures "" !in parts && "." !in parts ==> DropSkipped(parts) == parts
  {
    if parts == [] {
      Nothing(more);
      Nothing(DropSkipped(more));
    } else {
      DropsExactly(parts[1..], more);
      Front(parts, more);
      assert parts[0] in parts && forall part | part in parts[1..] :: part in parts;
      Regroup(if IsSkipped(parts[0]) then [] else [parts[0]], DropSkipped(parts[1..]), DropSkipped(more));
      Uncons(parts);
    }
  }

  /** A link is read from the document's directory: the document's own name is dropped, and only that. */
  lemma ReadFromItsDirectory(target: string, dirs: seq<string>, name: string)
    requires forall part | part in dirs + [name] :: part != "" && part != "." && '/' !in part
    ensures LinkParts(target, Join(dirs + [name], '/')) == dirs + Split(target, '/')
  {
    SplitOfJoin(dirs + [name], '/');
    DropsExactly(dirs + [name], []);
    Snoc(dirs, name);
  }

  function LinkParts(target: string, doc: string): seq<string> {
    BaseParts(doc) + Split(target, '/')
  }

  /** Names less steps up. */
  function Depth(parts: seq<string>): int {
    if parts == [] then 0
    else Depth(parts[..|parts| - 1])
         + if parts[|parts| - 1] == ".." then -1 else if IsName(parts[|parts| - 1]) then 1 else 0
  }

  ghost predicate Escapes(parts: seq<string>) {
    exists k | 0 <= k <= |parts| :: Depth(parts[..k]) < 0
  }

  /** The names that no later step up takes back, read from the right; `ups` counts steps up that still have to
    * find their name.
    */
  function Survivors(parts: seq<string>, ups: nat): seq<string> {
    if parts == [] then [] else
      var last, before := parts[|parts| - 1], parts[..|parts| - 1];
      if last == ".." then Survivors(before, ups + 1)
      else if IsSkipped(last) then Survivors(before, ups)
      else if ups > 0 then Survivors(before, ups - 1)
      else Survivors(before, 0) + [last]
  }

  method Resolve(target: string, doc: string) returns (r: Option<string>)
    ensures var parts := LinkParts(target, doc);
            r == if Escapes(parts) || Survivors(parts, 0) == [] then None else Some(Join(Survivors(parts, 0), '/'))
  {
    var all := LinkParts(target, doc);
    var parts: seq<string> := [];
    for k := 0 to |all|
      invariant Reached(all[..k], parts) && StaysInside(all, k)
    {
      Snoc(all[..k], all[k]);
      Sequences.Step(all, k);
      var part := all[k];
      if IsSkipped(part) {
        Skips(all[..k + 1], parts);
      } else if part == ".." {
        if parts == [] {
          StepsOut(all, k);
          return None;
        }
        StepsUp(all[..k + 1], parts);
        parts := parts[..|parts| - 1];
      } else {
        Names(all[..k + 1], parts);
        parts := parts + [part];
      }
      StaysNext(all, k, parts);
    }
    Ends(all);
    Ends(parts);
    r := if parts == [] then None else Some(Join(parts, '/'));
  }

  ghost predicate StaysInside(parts: seq<string>, n: nat)
    requires n <= |parts|
  {
    forall k | 0 <= k <= n :: Depth(parts[..k]) >= 0
  }

  lemma StaysNext(parts: seq<string>, k: nat, stack: seq<string>)
    requires k < |parts| && StaysInside(parts, k) && Reached(parts[..k + 1], stack)
    ensures StaysInside(parts, k + 1)
  {
  }

  lemma StepsOut(parts: seq<string>, k: nat)
    requires k < |parts| && parts[k] == ".." && Depth(parts[..k]) == 0
    ensures Escapes(parts)
  {
    Snoc(parts[..k], parts[k]);
    Sequences.Step(parts, k);
    assert Depth(parts[..k + 1]) < 0;
  }

  /** The stack after some components: as deep as they go, and what survives of it after more steps up. */
  ghost predicate Reached(parts: seq<string>, stack: seq<string>) {
    && Depth(parts) == |stack|
    && forall ups: nat :: Survivors(parts, ups) == if ups <= |stack| then stack[..|stack| - ups] else []
  }

  lemma Skips(parts: seq<string>, stack: seq<string>)
    requires parts != [] && IsSkipped(parts[|parts| - 1]) && Reached(parts[..|parts| - 1], stack)
    ensures Reached(parts, stack)
  {
  }

  lemma StepsUp(parts: seq<string>, stack: seq<string>)
    requires parts != [] && parts[|parts| - 1] == ".." && stack != [] && Reached(parts[..|parts| - 1], stack)
    ensures Reached(parts, stack[..|stack| - 1])
  {
    var shorter := stack[..|stack| - 1];
    forall ups: nat ensures Survivors(parts, ups) == if ups <= |shorter| then shorter[..|shorter| - ups] else [] {
      assert Survivors(parts, ups) == Survivors(parts[..|parts| - 1], ups + 1);
    }
  }

  lemma Names(parts: seq<string>, stack: seq<string>)
    requires parts != [] && IsName(parts[|parts| - 1]) && Reached(parts[..|parts| - 1], stack)
    ensures Reached(parts, stack + [parts[|parts| - 1]])
  {
    var longer := stack + [parts[|parts| - 1]];
    forall ups: nat ensures Survivors(parts, ups) == if ups <= |longer| then longer[..|longer| - ups] else [] {
      if ups > 0 {
        assert Survivors(parts, ups) == Survivors(parts[..|parts| - 1], ups - 1);
      } else {
        assert Survivors(parts, 0) == Survivors(parts[..|parts| - 1], 0) + [parts[|parts| - 1]];
        assert stack[..|stack|] == stack && longer[..|longer|] == longer;
      }
    }
  }

  /** Only names survive, and each comes from the link or its document. */
  lemma {:induction false} SurvivorsAreNames(parts: seq<string>, ups: nat)
    ensures forall part | part in Survivors(parts, ups) :: IsName(part) && part in parts
  {
    if parts != [] {
      var last, before := parts[|parts| - 1], parts[..|parts| - 1];
      SurvivorsAreNames(before, if last == ".." then ups + 1 else if IsName(last) && ups > 0 then ups - 1 else ups);
      assert forall part | part in before :: part in parts;
    }
  }

  lemma {:induction false} DropSkippedParts(parts: seq<string>)
    ensures forall part | part in DropSkipped(parts) :: part in parts
  {
    if parts != [] {
      DropSkippedParts(parts[1..]);
      assert forall part | part in parts[1..] :: part in parts;
    }
  }

  /** The components of a link that resolves are the surviving names: none is empty, `.` or `..`. */
  lemma ResolvedComponents(target: string, doc: string)
    requires Survivors(LinkParts(target, doc), 0) != []
    ensures var names := Survivors(LinkParts(target, doc), 0);
            && Split(Join(names, '/'), '/') == names
            && forall part | part in names :: part != "" && part != "." && part != ".."
  {
    var parts := LinkParts(target, doc);
    SurvivorsAreNames(parts, 0);
    DropSkippedParts(Split(doc, '/'));
    assert forall part | part in parts :: part in DropSkipped(Split(doc, '/')) || part in Split(target, '/');
    SplitOfJoin(Survivors(parts, 0), '/');
  }

  /** A link that resolves exists exactly when its surviving names lead to a tracked file. */
  lemma LinkExists(target: string, doc: string, known: set<string>, tracked: set<string>)
    requires IsIndex(known, tracked) && Survivors(LinkParts(target, doc), 0) != []
    ensures var names := Survivors(LinkParts(target, doc), 0);
            Exists(Join(names, '/'), known) <==> exists path | path in tracked :: names <= Split(path, '/')
  {
    var names := Survivors(LinkParts(target, doc), 0);
    ResolvedComponents(target, doc);
    var link := Join(names, '/');
    LastIsName(names);
    assert RStripSlash(link) == link;
    IndexAgrees(link, known, tracked);
  }

  lemma {:induction false} LastIsName(names: seq<string>)
    requires names != [] && forall part | part in names :: IsName(part) && '/' !in part
    ensures Join(names, '/') != "" && Join(names, '/')[|Join(names, '/')| - 1] != '/'
  {
    assert names[0] in names && names[0][|names[0]| - 1] in names[0];
    if |names| > 1 {
      LastIsName(names[1..]);
    }
  }
}
