/** Assembling releases from the fragments of a tree, over whole histories (scripts/changelog_fragments.py:153-184, 539-599). */
module ReleaseRuns {
  import opened Wrappers
  import opened Sequences
  import opened Text
  import opened Lines
  import opened ReleaseNotes
  import opened ReleasePage

  // ----- The fragments of a directory, in order -----

  predicate IsFragment(name: string) {
    IsFragmentFile(name) && ParseName(name).Some?
  }

  function FragmentOf(name: string, text: string): (f: Fragment)
    requires ParseName(name).Some?
    ensures f.name == name
  {
    Fragment(ParseName(name).value.0, ParseName(name).value.1, name, Strip(text))
  }

  /** The fragments that wait for a release. */
  function Pending(files: map<string, string>): set<Fragment> {
    set name | name in files && IsFragment(name) :: FragmentOf(name, files[name])
  }

  /** By pull request, then audience, then file name. */
  predicate Before(a: Fragment, b: Fragment) {
    a.pr < b.pr || (a.pr == b.pr && (Less(a.audience, b.audience) || (a.audience == b.audience && Less(a.name, b.name))))
  }

  /** The sort key of `a` is not above that of `b`. */
  predicate KeyLe(a: Fragment, b: Fragment) {
    a.pr < b.pr || (a.pr == b.pr && (Less(a.audience, b.audience) || a.audience == b.audience))
  }

  lemma BeforeTransitive(a: Fragment, b: Fragment, c: Fragment)
    requires Before(a, b) && Before(b, c)
    ensures Before(a, c)
  {
    if a.pr == b.pr == c.pr {
      if Less(a.audience, b.audience) && Less(b.audience, c.audience) {
        LessTransitive(a.audience, b.audience, c.audience);
      }
      if Less(a.name, b.name) && Less(b.name, c.name) {
        LessTransitive(a.name, b.name, c.name);
      }
    }
  }

  lemma BeforeStrict(a: Fragment, b: Fragment)
    ensures !Before(a, a)
    ensures a.name != b.name ==> Before(a, b) || Before(b, a)
    ensures Less(a.name, b.name) ==> (KeyLe(a, b) <==> Before(a, b))
  {
    LessIrreflexive(a.audience);
    LessIrreflexive(a.name);
    LessTotal(a.audience, b.audience);
    LessTotal(a.name, b.name);
  }

  ghost predicate InOrder(items: seq<Fragment>) {
    forall i, j | 0 <= i < j < |items| :: Before(items[i], items[j])
  }

  ghost predicate Lists(files: map<string, string>, items: seq<Fragment>) {
    InOrder(items) && forall f :: f in items <==> f in Pending(files)
  }

  /** Stable insertion: behind every item whose key is not above. */
  function InsertByKey(items: seq<Fragment>, f: Fragment): (r: seq<Fragment>)
    ensures |r| == |items| + 1
    ensures forall x :: x in r <==> x in items || x == f
  {
    if items != [] && KeyLe(items[0], f) then [items[0]] + InsertByKey(items[1..], f) else [f] + items
  }

  lemma {:induction false} InsertKeepsOrder(items: seq<Fragment>, f: Fragment)
    requires InOrder(items) && forall x | x in items :: Less(x.name, f.name)
    ensures InOrder(InsertByKey(items, f))
  {
    var r := InsertByKey(items, f);
    if items != [] && KeyLe(items[0], f) {
      InsertKeepsOrder(items[1..], f);
      BeforeStrict(items[0], f);
      assert items[0] in items;
      assert forall j | 1 <= j < |items| :: Before(items[0], items[j]);
      forall j | 1 <= j < |r| ensures Before(r[0], r[j]) {
        assert r[j] in InsertByKey(items[1..], f);
      }
    } else {
      forall j | 1 <= j < |r| ensures Before(f, r[j]) {
        assert r[j] == items[j - 1] && items[0] in items;
        BeforeStrict(items[0], f);
        if j > 1 {
          BeforeTransitive(f, items[0], items[j - 1]);
        }
      }
    }
  }

  lemma {:induction false} ListingUnique(a: seq<Fragment>, b: seq<Fragment>)
    requires InOrder(a) && InOrder(b) && forall f :: f in a <==> f in b
    ensures a == b
  {
    if b != [] {
      FirstMember(b);
    }
    if a != [] {
      FirstMember(a);
      FirstUnique(a, b);
      forall f ensures f in a[1..] <==> f in b[1..] {
        BeforeStrict(a[0], a[0]);
        assert f in a[1..] <==> f in a && f != a[0];
        assert f in b[1..] <==> f in b && f != b[0];
      }
      ListingUnique(a[1..], b[1..]);
      assert a == [a[0]] + a[1..] && b == [b[0]] + b[1..];
    }
  }

  lemma FirstMember(a: seq<Fragment>)
    requires a != []
    ensures a[0] in a
  {
  }

  lemma FirstUnique(a: seq<Fragment>, b: seq<Fragment>)
    requires InOrder(a) && InOrder(b) && a != [] && b != [] && forall f :: f in a <==> f in b
    ensures a[0] == b[0]
  {
    assert a[0] in a && b[0] in b;
    if a[0] != b[0] {
      var i :| 0 <= i < |b| && b[i] == a[0];
      var j :| 0 <= j < |a| && a[j] == b[0];
      BeforeTransitive(a[0], b[0], a[0]);
      BeforeStrict(a[0], a[0]);
    }
  }

  // ----- The tree -----

  datatype Error = Stray | DoesNotLint | AlreadyThere

  datatype Tree = Tree(files: map<string, string>, page: Option<string>)

  const EmptyPage := "# Release notes\n"

  function PageText(page: Option<string>): string {
    if page.Some? then page.value else EmptyPage
  }

  predicate HasStray(files: map<string, string>) {
    exists name | name in files :: IsFragmentFile(name) && ParseName(name).None?
  }

  /** `lint_fragment` finds nothing; what it looks for in the text is `clean`. */
  predicate Lints(f: Fragment, clean: Fragment -> bool) {
    IsAudience(f.audience) && clean(f)
  }

  predicate IsWord(c: char) {
    'a' <= c <= 'z' || 'A' <= c <= 'Z' || IsDigit(c) || c == '_'
  }

  /** `^## <version>\b` matches here. */
  predicate VersionAt(page: string, i: int, version: string) {
    var end := i + 3 + |version|;
    && MarkAt(page, i) && end <= |page| && page[i + 3..end] == version && (i == 0 || page[i - 1] == '\n')
    && IsWord(page[end - 1]) != (end < |page| && IsWord(page[end]))
  }

  /** By code points: `a` to `z`, `A` to `Z`, `0` to `9` and `_`. */
  lemma WordExactly(c: char)
    ensures IsWord(c) <==>
            97 <= c as int <= 122 || 65 <= c as int <= 90 || 48 <= c as int <= 57 || c as int == 95
  {
  }

  /** The pattern matches exactly where a line starts with the version's heading, and just one of the version's last
    * character and what follows is a word character.
    */
  lemma VersionExactly(page: string, i: nat, version: string)
    ensures VersionAt(page, i, version) <==>
            exists above, below :: |above| == i && page == above + "## " + version + below && Bounded(above, version, below)
  {
    if VersionAt(page, i, version) {
      var end := i + 3 + |version|;
      var above, below := page[..i], page[end..];
      assert page[i..i + 3] == "## ";
      assert page == above + page[i..i + 3] + page[i + 3..end] + below;
      assert ("## " + version)[|version| + 2] == page[end - 1];
    }
    forall above, below | |above| == i && page == above + "## " + version + below && Bounded(above, version, below)
      ensures VersionAt(page, i, version)
    {
      VersionPrinted(above, version, below);
    }
  }

  ghost predicate Bounded(above: string, version: string, below: string) {
    && (above != "" ==> above[|above| - 1] == '\n')
    && IsWord(("## " + version)[|version| + 2]) != (below != "" && IsWord(below[0]))
  }

  lemma VersionPrinted(above: string, version: string, below: string)
    requires Bounded(above, version, below)
    ensures VersionAt(above + "## " + version + below, |above|, version)
  {
    var page, heading := above + "## " + version + below, "## " + version;
    var end := |above| + |heading|;
    assert page == above + heading + below;
    assert page[|above|..end] == heading;
    assert forall k | 0 <= k < |heading| :: page[|above| + k] == heading[k];
    assert page[|above| + 3..end] == heading[3..] == version;
    assert page[end..] == below;
  }

  predicate Mentions(page: string, version: string) {
    exists i | 0 <= i < |page| :: VersionAt(page, i, version)
  }

  function BlockOf(items: seq<Fragment>, version: string, date: string): string {
    var text := BlockText(items, version, date);
    if text == "" then "" else text[..|text| - 1]
  }

  function Without(files: map<string, string>, names: set<string>): map<string, string> {
    map name | name in files && name !in names :: files[name]
  }

  function Names(items: seq<Fragment>): set<string> {
    set f | f in items :: f.name
  }

  function Consumed(t: Tree, items: seq<Fragment>, delete: bool): Tree {
    if delete then t.(files := Without(t.files, Names(items))) else t
  }

  datatype Decision = Refuse(error: Error) | Idle | Consume | Publish

  function Decide(t: Tree, items: seq<Fragment>, version: string, clean: Fragment -> bool): Decision {
    if HasStray(t.files) then Refuse(Stray)
    else if items == [] then Idle
    else if exists f | f in items :: !Lints(f, clean) then Refuse(DoesNotLint)
    else if !Publishes(items) then Consume
    else if Mentions(PageText(t.page), version) then Refuse(AlreadyThere)
    else Publish
  }

  /** What a release does, by its fragments and the page: refuse a file that is misnamed, a fragment that does not lint,
    * or a version that is there, in this order; else do nothing without fragments, and publish unless all are internal.
    */
  lemma DecideExactly(t: Tree, items: seq<Fragment>, version: string, clean: Fragment -> bool)
    ensures var stray := exists name | name in t.files ::
              name != "README.md" && (name == "" || name[0] != '.') && ParseName(name).None?;
            var faulty := exists f | f in items :: !clean(f) || !Audience(f);
            var public := exists f | f in items :: f.audience != "internal" && Audience(f);
            var there := exists i: nat | i < |PageText(t.page)| :: VersionAt(PageText(t.page), i, version);
            match Decide(t, items, version, clean)
            case Refuse(Stray) => stray
            case Idle => !stray && items == []
            case Refuse(DoesNotLint) => !stray && faulty
            case Consume => !stray && items != [] && !faulty && !public
            case Refuse(AlreadyThere) => !stray && !faulty && public && there
            case Publish => !stray && !faulty && public && !there
  {
    forall name | name in t.files
      ensures IsFragmentFile(name) <==> name != "README.md" && (name == "" || name[0] != '.')
    {
      assert name != "" ==> name[..1] == [name[0]];
    }
    forall f | f in items ensures IsAudience(f.audience) <==> Audience(f) {
    }
    PublishesExactly(items);
    assert Mentions(PageText(t.page), version) <==>
      exists i: nat | i < |PageText(t.page)| :: VersionAt(PageText(t.page), i, version);
  }

  /** One of the four, by its name. */
  predicate Audience(f: Fragment) {
    f.audience == "operators" || f.audience == "admins" || f.audience == "agent-authors" || f.audience == "internal"
  }

  lemma PublishesExactly(items: seq<Fragment>)
    ensures Publishes(items) <==> exists f | f in items :: f.audience != "internal" && Audience(f)
  {
    if Publishes(items) {
      var i :| 0 <= i < |items|
               && (items[i].audience == Operators || items[i].audience == Admins || items[i].audience == AgentAuthors);
      assert items[i] in items && items[i].audience != "internal";
    }
    if f :| f in items && f.audience != "internal" && Audience(f) {
      var i :| 0 <= i < |items| && items[i] == f;
    }
  }

  function Carry(t: Tree, items: seq<Fragment>, decision: Decision, block: string, delete: bool)
    : (Tree, Result<Option<string>, Error>)
  {
    match decision
    case Refuse(error) => (t, Err(error))
    case Idle => (t, Ok(None))
    case Consume => (Consumed(t, items, delete), Ok(None))
    case Publish => (Consumed(t.(page := Some(Insert(PageText(t.page), block))), items, delete), Ok(Some(block)))
  }

  function Assembled(t: Tree, items: seq<Fragment>, version: string, date: string, clean: Fragment -> bool, delete: bool)
    : (Tree, Result<Option<string>, Error>)
  {
    Carry(t, items, Decide(t, items, version, clean), BlockOf(items, version, date), delete)
  }

  /** The fragments among some files, in their order. */
  function ReadAll(files: map<string, string>, names: seq<string>): (found: seq<Fragment>)
    requires forall name | name in names :: name in files
    ensures forall f | f in found :: f.name in names
  {
    if names == [] then [] else
      var last := names[|names| - 1];
      ReadAll(files, names[..|names| - 1]) + if ParseName(last).Some? then [FragmentOf(last, files[last])] else []
  }

  lemma {:induction false} ReadAllIs(files: map<string, string>, names: seq<string>)
    requires forall name | name in names :: name in files && IsFragmentFile(name)
    ensures forall f :: f in ReadAll(files, names) <==> f in Pending(files) && f.name in names
  {
    if names != [] {
      ReadAllIs(files, names[..|names| - 1]);
      Unsnoc(names);
    }
  }

  lemma {:induction false} ReadAllOrdered(files: map<string, string>, names: seq<string>)
    requires Ascending(names) && forall name | name in names :: name in files
    ensures ByName(ReadAll(files, names))
  {
    if names != [] {
      var before, last := names[..|names| - 1], names[|names| - 1];
      ReadAllOrdered(files, before);
      forall f | f in ReadAll(files, before) ensures Less(f.name, last) {
        var i :| 0 <= i < |before| && before[i] == f.name;
        assert names[i] == f.name;
      }
    }
  }

  ghost predicate ByName(found: seq<Fragment>) {
    forall j, k | 0 <= j < k < |found| :: Less(found[j].name, found[k].name)
  }

  class Repo {
    var files: map<string, string>
    var page: Option<string>

    function Now(): Tree
      reads this
    {
      Tree(files, page)
    }

    constructor (files: map<string, string>, page: Option<string>)
      ensures Now() == Tree(files, page)
    {
      this.files, this.page := files, page;
    }

    /** `fragments`: the well-named files, then sorted by pull request and audience. */
    method Fragments() returns (items: seq<Fragment>)
      ensures Lists(files, items)
    {
      var names := SortNames(set name | name in files && IsFragmentFile(name));
      var found := Read(names);
      ReadAllIs(files, names);
      ReadAllOrdered(files, names);
      forall f | f in Pending(files) ensures f in found {
        assert f.name in names;
      }
      items := SortByKey(found);
    }

    method Read(names: seq<string>) returns (found: seq<Fragment>)
      requires forall name | name in names :: name in files
      ensures found == ReadAll(files, names)
    {
      found := [];
      Ends(names);
      for i := 0 to |names|
        invariant found == ReadAll(files, names[..i])
      {
        Sequences.Step(names, i);
        Snoc(names[..i], names[i]);
        if ParseName(names[i]).Some? {
          found := found + [FragmentOf(names[i], files[names[i]])];
        }
      }
    }

    method Delete(items: seq<Fragment>)
      modifies this`files
      ensures files == Without(old(files), Names(items))
    {
      ghost var before := files;
      for i := 0 to |items|
        invariant files == Without(before, Names(items[..i]))
      {
        assert Names(items[..i + 1]) == Names(items[..i]) + {items[i].name} by {
          assert items[..i + 1] == items[..i] + [items[i]];
        }
        files := files - {items[i].name};
      }
      assert items[..|items|] == items;
    }

    method Assemble(version: string, date: string, clean: Fragment -> bool, delete: bool)
      returns (r: Result<Option<string>, Error>)
      modifies this
      ensures Assembled(old(Now()), Listing(old(files)), version, date, clean, delete) == (Now(), r)
    {
      var items := Fragments();
      ListingIs(files, items);
      var decision := Choose(items, version, clean);
      match decision {
        case Refuse(error) =>
          return Err(error);
        case Idle =>
          return Ok(None);
        case Consume =>
          Consume(items, delete);
          return Ok(None);
        case Publish =>
          ChosenPublishes(Now(), items, version, clean);
          var block := PublishBlock(items, version, date);
          Consume(items, delete);
          return Ok(Some(block));
      }
    }

    /** The checks, in their order. */
    method Choose(items: seq<Fragment>, version: string, clean: Fragment -> bool) returns (decision: Decision)
      ensures decision == Decide(Now(), items, version, clean)
    {
      if exists name | name in files :: IsFragmentFile(name) && ParseName(name).None? {
        return Refuse(Stray);
      }
      if items == [] {
        return Idle;
      }
      if exists f | f in items :: !Lints(f, clean) {
        return Refuse(DoesNotLint);
      }
      if !Publishes(items) {
        return Decision.Consume;
      }
      if Mentions(if page.Some? then page.value else EmptyPage, version) {
        return Refuse(AlreadyThere);
      }
      return Publish;
    }

    method Consume(items: seq<Fragment>, delete: bool)
      modifies this`files
      ensures Now() == Consumed(old(Now()), items, delete)
    {
      if delete {
        Delete(items);
      }
    }

    method PublishBlock(items: seq<Fragment>, version: string, date: string) returns (block: string)
      requires Publishes(items)
      modifies this`page
      ensures block == BlockOf(items, version, date)
      ensures Now() == old(Now()).(page := Some(Insert(PageText(old(page)), block)))
    {
      block := RenderBlock(items, version, date);
      BlockIs(items, version, date, block);
      page := Some(Insert(if page.Some? then page.value else EmptyPage, block));
    }
  }

  lemma ChosenPublishes(t: Tree, items: seq<Fragment>, version: string, clean: Fragment -> bool)
    requires Decide(t, items, version, clean).Publish?
    ensures Publishes(items)
  {
  }

  lemma BlockIs(items: seq<Fragment>, version: string, date: string, block: string)
    requires block + "\n" == BlockText(items, version, date)
    ensures block == BlockOf(items, version, date)
  {
    assert BlockText(items, version, date)[..|block|] == block;
  }

  method SortByKey(found: seq<Fragment>) returns (items: seq<Fragment>)
    requires ByName(found)
    ensures InOrder(items) && forall f :: f in items <==> f in found
  {
    items := [];
    for i := 0 to |found|
      invariant InOrder(items)
      invariant forall f :: f in items <==> f in found[..i]
    {
      forall x | x in items ensures Less(x.name, found[i].name) {
        var j :| 0 <= j < i && found[j] == x;
      }
      InsertKeepsOrder(items, found[i]);
      items := InsertByKey(items, found[i]);
      assert found[..i + 1] == found[..i] + [found[i]];
    }
    assert found[..|found|] == found;
  }

  // ----- The listing as a value -----

  ghost function Listing(files: map<string, string>): (items: seq<Fragment>)
    ensures Lists(files, items)
  {
    ListingExists(Pending(files));
    var items :| InOrder(items) && forall f :: f in items <==> f in Pending(files);
    items
  }

  ghost predicate NamesDiffer(s: set<Fragment>) {
    forall a, b | a in s && b in s && a.name == b.name :: a == b
  }

  lemma {:induction false} ListingExists(s: set<Fragment>)
    requires NamesDiffer(s)
    ensures exists items :: InOrder(items) && forall f :: f in items <==> f in s
  {
    if s == {} {
      assert InOrder([]) && forall f :: f in [] <==> f in s;
    } else {
      var last :| last in s;
      var rest := s - {last};
      ListingExists(rest);
      var items :| InOrder(items) && forall f :: f in items <==> f in rest;
      InsertAnywhere(items, last);
      var more := InsertBefore(items, last);
      assert forall f :: f in more <==> f in s;
    }
  }

  function InsertBefore(items: seq<Fragment>, f: Fragment): (r: seq<Fragment>)
    ensures |r| == |items| + 1
    ensures forall x :: x in r <==> x in items || x == f
  {
    if items != [] && Before(items[0], f) then [items[0]] + InsertBefore(items[1..], f) else [f] + items
  }

  lemma {:induction false} InsertAnywhere(items: seq<Fragment>, f: Fragment)
    requires InOrder(items) && forall x | x in items :: x.name != f.name
    ensures InOrder(InsertBefore(items, f))
  {
    var r := InsertBefore(items, f);
    if items != [] && Before(items[0], f) {
      InsertAnywhere(items[1..], f);
      assert forall j | 1 <= j < |items| :: Before(items[0], items[j]);
      forall j | 1 <= j < |r| ensures Before(r[0], r[j]) {
        assert r[j] in InsertBefore(items[1..], f);
      }
    } else {
      forall j | 1 <= j < |r| ensures Before(f, r[j]) {
        assert r[j] == items[j - 1] && items[0] in items;
        BeforeStrict(items[0], f);
        if j > 1 {
          BeforeTransitive(f, items[0], items[j - 1]);
        }
      }
    }
  }

  lemma ListingIs(files: map<string, string>, items: seq<Fragment>)
    requires Lists(files, items)
    ensures items == Listing(files)
  {
    ListingUnique(items, Listing(files));
  }

  // ----- Histories -----

  datatype Release = Release(version: string, date: string, items: seq<Fragment>)

  /** A tree with its past: every fragment ever added, the releases that made a block, newest first, and the
    * internal fragments that were consumed without being printed.
    */
  datatype State = State(tree: Tree, added: multiset<Fragment>, releases: seq<Release>, silent: multiset<Fragment>)

  datatype Step = Add(name: string, text: string) | Assemble(version: string, date: string)

  predicate Enabled(s: State, step: Step) {
    step.Add? ==> step.name !in s.tree.files
  }

  function Added(name: string, text: string): multiset<Fragment> {
    if IsFragment(name) then multiset{FragmentOf(name, text)} else multiset{}
  }

  function Unpublished(items: seq<Fragment>): seq<Fragment> {
    if items == [] then [] else (if IsPublished(items[0].audience) then [] else [items[0]]) + Unpublished(items[1..])
  }

  ghost function Next(s: State, step: Step, clean: Fragment -> bool): State {
    match step
    case Add(name, text) =>
      s.(tree := s.tree.(files := s.tree.files[name := text]), added := s.added + Added(name, text))
    case Assemble(version, date) =>
      var items := Listing(s.tree.files);
      var tree := Assembled(s.tree, items, version, date, clean, true).0;
      Recorded(s, tree, items, Decide(s.tree, items, version, clean), Release(version, date, Published(items)))
  }

  function Recorded(s: State, tree: Tree, items: seq<Fragment>, decision: Decision, release: Release): State {
    match decision
    case Consume => State(tree, s.added, s.releases, s.silent + multiset(items))
    case Publish => State(tree, s.added, [release] + s.releases, s.silent + multiset(Unpublished(items)))
    case _ => s.(tree := tree)
  }

  ghost predicate RunTo(from: State, steps: seq<Step>, to: State, clean: Fragment -> bool)
    decreases |steps|
  {
    if steps == [] then from == to
    else Enabled(from, steps[0]) && RunTo(Next(from, steps[0], clean), steps[1..], to, clean)
  }

  /** Every fragment that was printed, release by release. */
  function Printed(releases: seq<Release>): multiset<Fragment> {
    if releases == [] then multiset{} else multiset(releases[0].items) + Printed(releases[1..])
  }

  function Blocks(releases: seq<Release>): seq<string> {
    seq(|releases|, i requires 0 <= i < |releases| => BlockOf(releases[i].items, releases[i].version, releases[i].date))
  }

  /** No fragment is lost, printed twice, or both printed and still waiting. */
  ghost predicate Conserved(s: State) {
    s.added == multiset(Pending(s.tree.files)) + Printed(s.releases) + s.silent
  }

  /** Only internal fragments go unprinted, and only published ones are printed. */
  ghost predicate Sorted(s: State) {
    && (forall f | f in s.silent :: f.audience == Internal)
    && (forall r | r in s.releases :: Publishes(r.items) && forall f | f in r.items :: IsPublished(f.audience))
  }

  /** The page is what it was at the start with the blocks of all releases, newest first, put in. */
  ghost predicate PageKept(start: Option<string>, s: State) {
    PageIs(start, s.tree.page, Blocks(s.releases))
  }

  ghost predicate PageIs(start: Option<string>, page: Option<string>, blocks: seq<string>) {
    page == if blocks == [] then start else Some(PageOf(PageText(start), blocks))
  }

  ghost predicate Inv(start: Option<string>, s: State) {
    Conserved(s) && Sorted(s) && PageKept(start, s)
  }

  lemma PendingAdd(files: map<string, string>, name: string, text: string)
    requires name !in files
    ensures multiset(Pending(files[name := text])) == multiset(Pending(files)) + Added(name, text)
  {
    var after := files[name := text];
    if IsFragment(name) {
      var f := FragmentOf(name, text);
      assert f !in Pending(files);
      forall g ensures g in Pending(after) <==> g in Pending(files) || g == f {
        if g in Pending(files) {
          assert after[g.name] == files[g.name];
        }
      }
      assert Pending(after) == Pending(files) + {f};
    } else {
      forall g ensures g in Pending(after) <==> g in Pending(files) {
        if g in Pending(files) {
          assert after[g.name] == files[g.name];
        }
      }
      assert Pending(after) == Pending(files);
    }
  }

  lemma PendingConsumed(files: map<string, string>)
    ensures Pending(Without(files, Names(Listing(files)))) == {}
  {
    var after := Without(files, Names(Listing(files)));
    forall f | f in Pending(files) ensures f.name !in after {
      assert f in Listing(files);
    }
    assert forall f | f in Pending(after) :: f.name in after;
    assert forall f | f in Pending(after) :: f in Pending(files);
  }

  lemma {:induction false} InOrderOnce(items: seq<Fragment>, f: Fragment)
    requires InOrder(items)
    ensures multiset(items)[f] == if f in items then 1 else 0
  {
    if items != [] {
      var rest := items[1..];
      InOrderOnce(rest, f);
      assert items == [items[0]] + rest;
      BeforeStrict(items[0], items[0]);
      assert items[0] !in rest;
    }
  }

  lemma ListingOnce(files: map<string, string>)
    ensures multiset(Listing(files)) == multiset(Pending(files))
  {
    forall f ensures multiset(Listing(files))[f] == multiset(Pending(files))[f] {
      InOrderOnce(Listing(files), f);
    }
  }

  lemma {:induction false} PartedByAudience(items: seq<Fragment>)
    ensures multiset(items) == multiset(Published(items)) + multiset(Unpublished(items))
    ensures forall f | f in Unpublished(items) :: f in items && !IsPublished(f.audience)
  {
    if items != [] {
      PartedByAudience(items[1..]);
      assert items == [items[0]] + items[1..];
    }
  }

  lemma BlockMark(items: seq<Fragment>, version: string, date: string)
    ensures MarkAt(BlockOf(items, version, date), 0)
  {
    var text := BlockText(items, version, date);
    assert text[0] == '#' && text[1] == '#' && text[2] == ' ';
  }

  lemma BlocksMarked(releases: seq<Release>)
    ensures forall b | b in Blocks(releases) :: MarkAt(b, 0)
  {
    forall i | 0 <= i < |releases| ensures MarkAt(Blocks(releases)[i], 0) {
      BlockMark(releases[i].items, releases[i].version, releases[i].date);
    }
  }

  lemma NewestBlock(r: Release, releases: seq<Release>)
    ensures Blocks([r] + releases) == [BlockOf(r.items, r.version, r.date)] + Blocks(releases)
  {
    forall i | 0 <= i < |releases| ensures ([r] + releases)[i + 1] == releases[i] {
    }
  }

  lemma NewestPrinted(r: Release, releases: seq<Release>)
    ensures Printed([r] + releases) == multiset(r.items) + Printed(releases)
  {
    assert ([r] + releases)[1..] == releases;
  }

  lemma OneMore(start: Option<string>, page: Option<string>, blocks: seq<string>, block: string)
    requires PageIs(start, page, blocks) && forall b | b in blocks :: MarkAt(b, 0)
    ensures PageIs(start, Some(Insert(PageText(page), block)), [block] + blocks)
  {
    InsertStacks(PageText(start), blocks, block);
  }

  lemma SameBlock(items: seq<Fragment>, version: string, date: string)
    ensures BlockOf(Published(items), version, date) == BlockOf(items, version, date)
  {
    InternalLeavesNoTrace(items, version, date);
  }

  /** What carrying out a decision does to the page. */
  lemma CarryPage(t: Tree, items: seq<Fragment>, decision: Decision, block: string)
    ensures Carry(t, items, decision, block, true).0.page
            == if decision.Publish? then Some(Insert(PageText(t.page), block)) else t.page
  {
  }

  lemma AssembleKeepsPage(start: Option<string>, s: State, version: string, date: string, clean: Fragment -> bool)
    requires PageKept(start, s)
    ensures PageKept(start, Next(s, Assemble(version, date), clean))
  {
    var items := Listing(s.tree.files);
    var decision := Decide(s.tree, items, version, clean);
    CarryPage(s.tree, items, decision, BlockOf(items, version, date));
    if decision.Publish? {
      BlocksMarked(s.releases);
      OneMore(start, s.tree.page, Blocks(s.releases), BlockOf(items, version, date));
      SameBlock(items, version, date);
      NewestBlock(Release(version, date, Published(items)), s.releases);
    }
  }

  /** What carrying out a decision does to the fragments. */
  lemma CarryFiles(t: Tree, items: seq<Fragment>, decision: Decision, block: string)
    requires items == Listing(t.files)
    ensures var files := Carry(t, items, decision, block, true).0.files;
            if decision.Publish? || decision.Consume? then Pending(files) == {} else files == t.files
  {
    PendingConsumed(t.files);
  }

  lemma DecisionFacts(t: Tree, items: seq<Fragment>, version: string, clean: Fragment -> bool)
    ensures var decision := Decide(t, items, version, clean);
            && (decision.Consume? ==> forall f | f in items :: f.audience == Internal)
            && (decision.Publish? ==> Publishes(items) && forall f | f in items :: IsAudience(f.audience))
  {
    if !Publishes(items) {
      NothingPublished(items);
    }
  }

  lemma AssembleConserves(s: State, version: string, date: string, clean: Fragment -> bool)
    requires Conserved(s) && Sorted(s)
    ensures var t := Next(s, Assemble(version, date), clean); Conserved(t) && Sorted(t)
  {
    var items := Listing(s.tree.files);
    var decision := Decide(s.tree, items, version, clean);
    var tree := Assembled(s.tree, items, version, date, clean, true).0;
    CarryFiles(s.tree, items, decision, BlockOf(items, version, date));
    DecisionFacts(s.tree, items, version, clean);
    RecordedConserves(s, tree, items, decision, Release(version, date, Published(items)));
    RecordedSorted(s, tree, items, decision, Release(version, date, Published(items)));
  }

  lemma RecordedConserves(s: State, tree: Tree, items: seq<Fragment>, decision: Decision, release: Release)
    requires Conserved(s) && items == Listing(s.tree.files) && release.items == Published(items)
    requires if decision.Publish? || decision.Consume? then Pending(tree.files) == {} else tree.files == s.tree.files
    ensures Conserved(Recorded(s, tree, items, decision, release))
  {
    ListingOnce(s.tree.files);
    PartedByAudience(items);
    NewestPrinted(release, s.releases);
  }

  lemma RecordedSorted(s: State, tree: Tree, items: seq<Fragment>, decision: Decision, release: Release)
    requires Sorted(s) && release.items == Published(items)
    requires decision.Consume? ==> forall f | f in items :: f.audience == Internal
    requires decision.Publish? ==> Publishes(items) && forall f | f in items :: IsAudience(f.audience)
    ensures Sorted(Recorded(s, tree, items, decision, release))
  {
    PartedByAudience(items);
    PublishedPublishes(items);
  }

  lemma NothingPublished(items: seq<Fragment>)
    requires !Publishes(items)
    ensures forall f | f in items :: !IsPublished(f.audience)
  {
  }

  lemma PublishedPublishes(items: seq<Fragment>)
    ensures Publishes(items) ==> Publishes(Published(items))
  {
  }

  lemma StepKeeps(start: Option<string>, s: State, step: Step, clean: Fragment -> bool)
    requires Inv(start, s) && Enabled(s, step)
    ensures Inv(start, Next(s, step, clean))
  {
    match step {
      case Add(name, text) => PendingAdd(s.tree.files, name, text);
      case Assemble(version, date) =>
        AssembleKeepsPage(start, s, version, date, clean);
        AssembleConserves(s, version, date, clean);
    }
  }

  /** In every history the page is the old one with the released blocks on top, newest first, and every fragment
    * that was added is in exactly one place: waiting, printed in one block, or consumed as internal.
    */
  lemma {:induction false} EveryHistory(start: Option<string>, from: State, steps: seq<Step>, to: State, clean: Fragment -> bool)
    requires Inv(start, from) && RunTo(from, steps, to, clean)
    ensures Inv(start, to)
    decreases |steps|
  {
    if steps != [] {
      StepKeeps(start, from, steps[0], clean);
      EveryHistory(start, Next(from, steps[0], clean), steps[1..], to, clean);
    }
  }

  /** A tree as it is found, before anything was released. */
  function Found(tree: Tree): State {
    State(tree, multiset(Pending(tree.files)), [], multiset{})
  }

  /** A release that is refused leaves the page and every file as they were; after one that is not, another
    * finds nothing to do, whatever its version.
    */
  lemma AssembleTwice(t: Tree, version: string, date: string, again: string, day: string, clean: Fragment -> bool)
    ensures var (after, r) := Assembled(t, Listing(t.files), version, date, clean, true);
            if r.Err? then after == t
            else Assembled(after, Listing(after.files), again, day, clean, true) == (after, Ok(None))
  {
    var items := Listing(t.files);
    var decision := Decide(t, items, version, clean);
    var after := Assembled(t, items, version, date, clean, true).0;
    CarryFiles(t, items, decision, BlockOf(items, version, date));
    if !decision.Refuse? {
      assert forall name | name in after.files :: name in t.files;
      NothingPending(after.files);
    }
  }

  lemma NothingPending(files: map<string, string>)
    ensures Pending(files) == {} ==> Listing(files) == []
  {
    if Listing(files) != [] {
      FirstMember(Listing(files));
    }
  }

  // ----- A version is released once -----

  predicate EndsInWord(version: string) {
    version != "" && IsWord(version[|version| - 1])
  }

  /** The pattern finds a block's own heading exactly when the version ends in a letter, a digit or `_`. */
  lemma HeadingFoundExactly(items: seq<Fragment>, version: string, date: string)
    ensures VersionAt(BlockOf(items, version, date), 0, version) <==> EndsInWord(version)
  {
    HeadingPlaced(items, version, date);
  }

  /** `block` starts with the heading of this version, and goes on behind it with a space. */
  predicate HeadedBy(block: string, version: string) {
    && MarkAt(block, 0) && 3 + |version| < |block|
    && block[3..3 + |version|] == version && block[3 + |version|] == ' '
  }

  lemma HeadingPlaced(items: seq<Fragment>, version: string, date: string)
    ensures HeadedBy(BlockOf(items, version, date), version)
  {
    var a, b, c := Section(items, Operators), Section(items, Admins), Section(items, AgentAuthors);
    HeadedStarts(version, date, a, b, c);
  }

  lemma HeadedStarts(version: string, date: string, a: string, b: string, c: string)
    ensures var text := Headed(Heading(version, date), a, b, c);
            |text| > 0 && HeadedBy(text[..|text| - 1], version)
  {
    var tail := " \U{2014} " + date + "\n" + "\n" + a + b + c;
    assert Headed(Heading(version, date), a, b, c) == "## " + version + tail;
    assert ("## " + version + tail)[3..3 + |version|] == version;
  }

  /** Where in the stack a block starts. */
  lemma {:induction false} InStack(blocks: seq<string>, older: string, k: nat) returns (at: nat)
    requires k < |blocks|
    ensures var stack := Stack(blocks, older);
            && at + |blocks[k]| <= |stack| && stack[at..at + |blocks[k]|] == blocks[k]
            && (at == 0 || stack[at - 1] == '\n')
  {
    if k == 0 {
      at := 0;
    } else {
      var below := InStack(blocks[1..], older, k - 1);
      at := |blocks[0]| + 1 + below;
      var rest := Stack(blocks[1..], older);
      Shifted(blocks[0] + "\n", rest, below, |blocks[k]|);
    }
  }

  lemma Shifted(head: string, rest: string, at: nat, n: nat)
    requires at + n <= |rest| && head != "" && head[|head| - 1] == '\n'
    ensures (head + rest)[|head| + at..|head| + at + n] == rest[at..at + n]
    ensures (head + rest)[|head| + at - 1] == if at == 0 then '\n' else rest[at - 1]
  {
  }

  /** A heading is found wherever its block starts a line. */
  lemma FoundThere(page: string, at: nat, block: string, version: string)
    requires at + |block| <= |page| && page[at..at + |block|] == block && (at == 0 || page[at - 1] == '\n')
    requires HeadedBy(block, version) && EndsInWord(version)
    ensures Mentions(page, version)
  {
    assert forall i | 0 <= i < |block| :: page[at + i] == block[i];
    assert page[at + 3..at + 3 + |version|] == version;
    assert VersionAt(page, at, version);
  }

  /** The text above the blocks ends with a newline, if there is any. */
  predicate NewlineAbove(start: Option<string>) {
    Above(PageText(start)) == "" || Above(PageText(start))[|Above(PageText(start))| - 1] == '\n'
  }

  lemma FoundOnPage(above: string, blocks: seq<string>, older: string, k: nat, version: string)
    requires above == "" || above[|above| - 1] == '\n'
    requires k < |blocks| && HeadedBy(blocks[k], version) && EndsInWord(version)
    ensures Mentions(above + Stack(blocks, older), version)
  {
    var at := InStack(blocks, older, k);
    var stack := Stack(blocks, older);
    if above == "" {
      Nothing(stack);
      FoundThere(stack, at, blocks[k], version);
    } else {
      Shifted(above, stack, at, |blocks[k]|);
      FoundThere(above + stack, |above| + at, blocks[k], version);
    }
  }

  lemma FoundOnPageOf(page: string, blocks: seq<string>, k: nat, version: string)
    requires Above(page) == "" || Above(page)[|Above(page)| - 1] == '\n'
    requires k < |blocks| && HeadedBy(blocks[k], version) && EndsInWord(version)
    ensures Mentions(PageOf(page, blocks), version)
  {
    FoundOnPage(Above(page), blocks, page[Intro(page)..], k, version);
  }

  lemma BlockHeaded(releases: seq<Release>, k: nat)
    requires k < |releases|
    ensures HeadedBy(Blocks(releases)[k], releases[k].version)
  {
    HeadingPlaced(releases[k].items, releases[k].version, releases[k].date);
  }

  lemma ReleasedIsMentioned(start: Option<string>, page: Option<string>, blocks: seq<string>, k: nat, version: string)
    requires PageIs(start, page, blocks) && NewlineAbove(start)
    requires k < |blocks| && HeadedBy(blocks[k], version) && EndsInWord(version)
    ensures Mentions(PageText(page), version)
  {
    FoundOnPageOf(PageText(start), blocks, k, version);
  }

  /** A version whose block is on the page is refused from then on. */
  lemma ReleasedIsRefused(start: Option<string>, s: State, k: nat, clean: Fragment -> bool)
    requires PageKept(start, s) && NewlineAbove(start)
    requires k < |s.releases| && EndsInWord(s.releases[k].version)
    ensures !Decide(s.tree, Listing(s.tree.files), s.releases[k].version, clean).Publish?
  {
    BlockHeaded(s.releases, k);
    ReleasedIsMentioned(start, s.tree.page, Blocks(s.releases), k, s.releases[k].version);
    MentionedIsRefused(s.tree, Listing(s.tree.files), s.releases[k].version, clean);
  }

  lemma MentionedIsRefused(t: Tree, items: seq<Fragment>, version: string, clean: Fragment -> bool)
    requires Mentions(PageText(t.page), version)
    ensures !Decide(t, items, version, clean).Publish?
  {
  }

  ghost predicate VersionsDiffer(releases: seq<Release>) {
    forall i, j | 0 <= i < j < |releases| && EndsInWord(releases[j].version) ::
      releases[i].version != releases[j].version
  }

  /** In every history each version is released at most once. */
  lemma {:induction false} VersionsReleasedOnce(
    start: Option<string>, from: State, steps: seq<Step>, to: State, clean: Fragment -> bool)
    requires Inv(start, from) && NewlineAbove(start) && RunTo(from, steps, to, clean) && VersionsDiffer(from.releases)
    ensures VersionsDiffer(to.releases)
    decreases |steps|
  {
    if steps != [] {
      StepKeeps(start, from, steps[0], clean);
      NewVersionDiffers(start, from, steps[0], clean);
      VersionsReleasedOnce(start, Next(from, steps[0], clean), steps[1..], to, clean);
    }
  }

  lemma NewVersionDiffers(start: Option<string>, s: State, step: Step, clean: Fragment -> bool)
    requires PageKept(start, s) && NewlineAbove(start) && VersionsDiffer(s.releases)
    ensures VersionsDiffer(Next(s, step, clean).releases)
  {
    if step.Assemble? {
      var items := Listing(s.tree.files);
      var decision := Decide(s.tree, items, step.version, clean);
      var tree := Assembled(s.tree, items, step.version, step.date, clean, true).0;
      forall k | 0 <= k < |s.releases| && EndsInWord(s.releases[k].version) && decision.Publish?
        ensures s.releases[k].version != step.version
      {
        ReleasedIsRefused(start, s, k, clean);
      }
      RecordedVersions(s, tree, items, decision, Release(step.version, step.date, Published(items)));
    }
  }

  lemma RecordedVersions(s: State, tree: Tree, items: seq<Fragment>, decision: Decision, release: Release)
    requires VersionsDiffer(s.releases)
    requires decision.Publish? ==> forall k | 0 <= k < |s.releases| && EndsInWord(s.releases[k].version) ::
               s.releases[k].version != release.version
    ensures VersionsDiffer(Recorded(s, tree, items, decision, release).releases)
  {
  }

  /** From a tree as it is found, whatever is added and released: the page is the one that was there with the
    * blocks put in newest first, every fragment is in exactly one place, and each version has one block.
    */
  lemma HistoryFromFound(tree: Tree, steps: seq<Step>, s: State, clean: Fragment -> bool)
    requires RunTo(Found(tree), steps, s, clean)
    ensures s.added == multiset(Pending(s.tree.files)) + Printed(s.releases) + s.silent
    ensures s.tree.page
            == if s.releases == [] then tree.page else Some(PageOf(PageText(tree.page), Blocks(s.releases)))
    ensures NewlineAbove(tree.page) ==> VersionsDiffer(s.releases)
  {
    assert Inv(tree.page, Found(tree));
    EveryHistory(tree.page, Found(tree), steps, s, clean);
    if NewlineAbove(tree.page) {
      VersionsReleasedOnce(tree.page, Found(tree), steps, s, clean);
    }
  }
}
