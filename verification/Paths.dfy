/** Paths inside a workspace and their spelling in an archive (robothor/snapshot.py:194-200). */
module Paths {
  import opened Text

  /** Path components below the workspace root; `[]` is the root itself. */
  type Path = seq<string>

  predicate ValidName(name: string) {
    name != "" && name != "." && name != ".." && '/' !in name
  }

  predicate ValidPath(p: Path) {
    p != [] && forall name | name in p :: ValidName(name)
  }

  function Name(p: Path): string {
    Join(p, '/')
  }

  /** `PurePosixPath(raw).parts` of a relative path: empty and `.` components vanish. */
  function Parts(raw: string): Path {
    Kept(Split(raw, '/'))
  }

  function Kept(components: seq<string>): (kept: Path)
    ensures "." !in kept && "" !in kept
    ensures |kept| <= |components|
    ensures |kept| == |components| ==> kept == components
    ensures forall c | c in kept :: c in components
  {
    if components == [] then []
    else if components[0] == "" || components[0] == "." then Kept(components[1..])
    else [components[0]] + Kept(components[1..])
  }

  function AsPosix(raw: string): string {
    if Parts(raw) == [] then "." else Name(Parts(raw))
  }

  predicate IsAbsolute(raw: string) {
    raw != "" && raw[0] == '/'
  }

  /** The condition under which `_safe_relative_path` does not raise. */
  predicate Safe(raw: string) {
    && raw != "" && !IsAbsolute(raw) && ".." !in Parts(raw) && "." !in Parts(raw)
    && AsPosix(raw) == raw && '\\' !in raw
  }

  ghost predicate NoBackslash(p: Path) {
    forall name | name in p :: '\\' !in name
  }

  lemma SplitDot()
    ensures Split(".", '/') == ["."]
  {
    assert "."[1..] == "" && ['.'] + "" == ".";
    assert Split(".", '/') == [['.'] + Split("", '/')[0]] + Split("", '/')[1..];
  }

  /** A safe path is `.`, or a list of real names without a backslash, spelled in the only way possible. */
  lemma SafeExactly(raw: string)
    ensures Safe(raw) <==> raw == "." || (ValidPath(Split(raw, '/')) && '\\' !in raw)
    ensures Safe(raw) && raw != "." ==> Parts(raw) == Split(raw, '/') && ValidPath(Parts(raw)) && Name(Parts(raw)) == raw
    ensures Parts(".") == []
  {
    var split := Split(raw, '/');
    JoinOfSplit(raw, '/');
    SplitDot();
    assert IsAbsolute(raw) ==> split[0] == "";
    if Safe(raw) && raw != "." {
      var kept := Parts(raw);
      SplitOfJoin(kept, '/');
      assert ValidPath(split);
    }
    if ValidPath(split) {
      KeepsAll(split);
    }
  }

  lemma {:induction false} KeepsAll(components: seq<string>)
    requires "" !in components && "." !in components
    ensures Kept(components) == components
  {
    if components != [] {
      KeepsAll(components[1..]);
    }
  }

  /** A path is recovered from its archive name; the name is safe unless a component has a backslash. */
  lemma NameRoundTrip(p: Path)
    requires ValidPath(p)
    ensures Parts(Name(p)) == p && Name(p) != "."
    ensures Safe(Name(p)) <==> NoBackslash(p)
  {
    SplitOfJoin(p, '/');
    KeepsAll(p);
    JoinContains(p, '/', '\\');
    SplitDot();
    SafeExactly(Name(p));
  }

  lemma NameInjective(p: Path, q: Path)
    requires ValidPath(p) && ValidPath(q)
    ensures Name(p) == Name(q) <==> p == q
  {
    NameRoundTrip(p);
    NameRoundTrip(q);
  }

  /** Distinct safe names stand for distinct places. */
  lemma SafeNamesDistinct(a: string, b: string)
    requires Safe(a) && Safe(b) && Parts(a) == Parts(b)
    ensures a == b
  {
    SafeExactly(a);
    SafeExactly(b);
  }

  /** `p in q.parents`. */
  predicate Above(p: Path, q: Path) {
    |p| < |q| && p == q[..|p|]
  }
}
