/** When a version can be released twice: `--version` and `--date` take any text, and a block can end up behind a
  * line break that the search for its heading does not know (scripts/changelog_fragments.py:530-536, 585-594, 671-672).
  */
module ReleasedTwice {
  import opened Wrappers
  import opened Sequences
  import opened Text
  import opened Lines
  import opened ReleaseNotes
  import opened ReleasePage
  import opened ReleaseRuns

  /** The page from its first block on. */
  function Older(start: Option<string>): string {
    PageText(start)[Intro(PageText(start))..]
  }

  ghost predicate Twice(releases: seq<Release>, version: string) {
    exists i, j :: 0 <= i < j < |releases| && releases[i].version == version && releases[j].version == version
  }

  // ----- Where a heading is found -----

  predicate StartsLine(head: string) {
    head == "" || head[|head| - 1] == '\n'
  }

  lemma FoundBehind(head: string, rest: string, j: nat, version: string)
    requires j > 0 || StartsLine(head)
    ensures VersionAt(head + rest, |head| + j, version) <==> VersionAt(rest, j, version)
  {
    var page, end := head + rest, j + 3 + |version|;
    assert forall k | 0 <= k < |rest| :: page[|head| + k] == rest[k];
    if |head| + end <= |page| {
      assert page[|head| + j + 3..|head| + end] == rest[j + 3..end];
    }
  }

  lemma NotFoundAbove(above: string, rest: string, i: nat, version: string)
    requires above == "" || IsBreak(above[|above| - 1])
    requires forall k | 0 <= k < |above| :: !BlockAt(above, k)
    requires i < |above|
    ensures !VersionAt(above + rest, i, version)
  {
    var page := above + rest;
    assert forall k | 0 <= k < |above| :: page[k] == above[k];
    if MarkAt(page, i) {
      assert i + 3 <= |above|;
      assert MarkAt(above, i) && !BlockAt(above, i);
    }
  }

  /** What is mentioned on a page is mentioned from its first block on. */
  lemma MentionedInOlder(start: Option<string>, version: string)
    ensures Mentions(PageText(start), version) ==> Mentions(Older(start), version)
  {
    var page, n := PageText(start), Intro(PageText(start));
    IntroIs(page);
    Halves(page, n);
    if i :| 0 <= i < |page| && VersionAt(page, i, version) {
      assert BlockAt(page, i);
      MentionBehind(page[..n], page[n..], i, version);
    }
  }

  lemma MentionBehind(head: string, rest: string, i: nat, version: string)
    requires |head| <= i && VersionAt(head + rest, i, version)
    ensures Mentions(rest, version)
  {
    FoundBehind(head, rest, i - |head|, version);
  }

  lemma OlderMentionedBehind(head: string, older: string, version: string)
    requires StartsLine(head) && Mentions(older, version)
    ensures Mentions(head + older, version)
  {
    var j :| 0 <= j < |older| && VersionAt(older, j, version);
    FoundBehind(head, older, j, version);
  }

  lemma {:induction false} StackEnds(blocks: seq<string>, older: string) returns (head: string)
    requires blocks != [] && older != ""
    ensures Stack(blocks, older) == head + older && head != "" && StartsLine(head)
  {
    head := blocks[0] + "\n";
    if |blocks| > 1 {
      var more := StackEnds(blocks[1..], older);
      assert head + (more + older) == (head + more) + older;
      head := head + more;
    }
  }

  /** Once there is a block on top, everything from the old first block on is found. */
  lemma OlderIsMentioned(start: Option<string>, blocks: seq<string>, version: string)
    requires blocks != [] && Mentions(Older(start), version)
    ensures Mentions(PageOf(PageText(start), blocks), version)
  {
    var older, above := Older(start), Above(PageText(start));
    var head := StackEnds(blocks, older);
    assert above + (head + older) == (above + head) + older;
    OlderMentionedBehind(above + head, older, version);
  }

  // ----- When it cannot be -----

  ghost predicate OnlyOldest(releases: seq<Release>, version: string) {
    forall k | 0 <= k < |releases| - 1 :: releases[k].version != version
  }

  /** A version that the found page has from its first block on can be released as the first, and never again. */
  lemma {:induction false} OldVersionOnce(
    start: Option<string>, from: State, steps: seq<ReleaseRuns.Step>, to: State, clean: Fragment -> bool, version: string)
    requires Inv(start, from) && RunTo(from, steps, to, clean)
    requires Mentions(Older(start), version) && OnlyOldest(from.releases, version)
    ensures OnlyOldest(to.releases, version)
    decreases |steps|
  {
    if steps != [] {
      StepKeeps(start, from, steps[0], clean);
      OldVersionStep(start, from, steps[0], clean, version);
      OldVersionOnce(start, Next(from, steps[0], clean), steps[1..], to, clean, version);
    }
  }

  lemma OldVersionStep(start: Option<string>, s: State, step: ReleaseRuns.Step, clean: Fragment -> bool, version: string)
    requires PageKept(start, s) && Mentions(Older(start), version) && OnlyOldest(s.releases, version)
    ensures OnlyOldest(Next(s, step, clean).releases, version)
  {
    if step.Assemble? {
      var items := Listing(s.tree.files);
      if s.releases != [] {
        assert Blocks(s.releases) != [];
        OlderIsMentioned(start, Blocks(s.releases), version);
        MentionedIsRefused(s.tree, items, version, clean);
      }
      RecordedBehind(
        s, Assembled(s.tree, items, step.version, step.date, clean, true).0, items,
        Decide(s.tree, items, step.version, clean), Release(step.version, step.date, Published(items)), version);
    }
  }

  lemma RecordedBehind(
    s: State, tree: Tree, items: seq<Fragment>, decision: Decision, release: Release, version: string)
    requires OnlyOldest(s.releases, version)
    requires decision.Publish? && s.releases != [] ==> release.version != version
    ensures OnlyOldest(Recorded(s, tree, items, decision, release).releases, version)
  {
  }

  lemma TwiceNeeds(tree: Tree, steps: seq<ReleaseRuns.Step>, s: State, clean: Fragment -> bool, version: string)
    requires RunTo(Found(tree), steps, s, clean) && Twice(s.releases, version)
    ensures (!EndsInWord(version) || !NewlineAbove(tree.page)) && !Mentions(Older(tree.page), version)
  {
    HistoryFromFound(tree, steps, s, clean);
    if Mentions(Older(tree.page), version) {
      assert Inv(tree.page, Found(tree));
      OldVersionOnce(tree.page, Found(tree), steps, s, clean, version);
    }
  }

  // ----- A block that is not found again -----

  function Blank(version: string): string {
    seq(|version| + 1, i => ' ')
  }

  /** What stands between the version and the end of the heading when the date is blank. */
  function Gap(version: string): string {
    " \U{2014} " + Blank(version)
  }

  lemma GapIsBlank(version: string)
    ensures |Gap(version)| == |version| + 4
    ensures forall i | 0 <= i < |Gap(version)| :: Gap(version)[i] == ' ' || Gap(version)[i] == '\U{2014}'
  {
  }

  /** No line of the text starts a block. */
  predicate Headless(s: string) {
    forall j | 0 <= j < |s| && MarkAt(s, j) :: j > 0 && s[j - 1] != '\n'
  }

  function BlankBlock(version: string, tail: string): string {
    "## " + version + Gap(version) + tail
  }

  /** On a page whose newest block has a blank date, its version is found where it was found before, and at that
    * block only if it ends in a word character and the block starts a line.
    */
  lemma FoundAround(above: string, version: string, tail: string, after: string, i: nat)
    requires above == "" || IsBreak(above[|above| - 1])
    requires forall k | 0 <= k < |above| :: !BlockAt(above, k)
    requires Headless(tail) && tail != "" && tail[|tail| - 1] == '\n'
    requires !EndsInWord(version) || !StartsLine(above)
    requires i < |above + BlankBlock(version, tail)|
    ensures !VersionAt(above + BlankBlock(version, tail) + after, i, version)
  {
    var block := BlankBlock(version, tail);
    var a := |above|;
    if i < a {
      NotFoundAbove(above, block + after, i, version);
      assert above + (block + after) == above + block + after;
    } else {
      assert above + (block + after) == above + block + after;
      if i > a || StartsLine(above) {
        FoundBehind(above, block + after, i - a, version);
        FoundInBlock(version, tail, after, i - a);
      }
    }
  }

  lemma FoundInBlock(version: string, tail: string, after: string, i: nat)
    requires Headless(tail) && tail != "" && tail[|tail| - 1] == '\n'
    requires i < |BlankBlock(version, tail)| && (i == 0 ==> !EndsInWord(version))
    ensures !VersionAt(BlankBlock(version, tail) + after, i, version)
  {
    var page, head, gap := BlankBlock(version, tail) + after, "## " + version, Gap(version);
    var n, end := |head| + |gap|, i + 3 + |version|;
    GapIsBlank(version);
    assert page == head + gap + (tail + after);
    assert forall k | 0 <= k < |gap| :: page[|head| + k] == gap[k];
    assert forall k | 0 <= k < |tail| :: page[n + k] == tail[k];
    if i == 0 {
      assert page[end] == gap[0] && page[end - 1] == head[end - 1];
    } else if i < |head| {
      assert page[end - 1] == gap[end - 1 - |head|] && page[end] == gap[end - |head|];
    } else if i < n {
      assert page[i] == gap[i - |head|];
    } else {
      NoMarkInTail(head + gap, tail, after, i - n);
    }
  }

  lemma NoMarkInTail(head: string, tail: string, after: string, j: nat)
    requires Headless(tail) && tail != "" && tail[|tail| - 1] == '\n' && j < |tail|
    ensures var page := head + (tail + after); var i := |head| + j;
            MarkAt(page, i) ==> i > 0 && page[i - 1] != '\n'
  {
    var page := head + (tail + after);
    assert forall k | 0 <= k < |tail| :: page[|head| + k] == tail[k];
    if MarkAt(page, |head| + j) {
      assert j + 3 <= |tail|;
      assert MarkAt(tail, j);
    }
  }

  /** What stands on a page with one such block is what stands from the old first block on. */
  lemma MentionsWithBlank(start: Option<string>, version: string, tail: string)
    requires Headless(tail) && tail != "" && tail[|tail| - 1] == '\n'
    requires !EndsInWord(version) || !NewlineAbove(start)
    ensures Mentions(PageOf(PageText(start), [BlankBlock(version, tail)]), version) ==> Mentions(Older(start), version)
  {
    AboveIsFree(PageText(start));
    PageWithOne(start, BlankBlock(version, tail));
    MentionsAround(Above(PageText(start)), version, tail, Older(start));
  }

  lemma MentionsAround(above: string, version: string, tail: string, older: string)
    requires above == "" || IsBreak(above[|above| - 1])
    requires forall k | 0 <= k < |above| :: !BlockAt(above, k)
    requires Headless(tail) && tail != "" && tail[|tail| - 1] == '\n'
    requires !EndsInWord(version) || !StartsLine(above)
    ensures Mentions(OnTop(above, BlankBlock(version, tail), older), version) ==> Mentions(older, version)
  {
    var block := BlankBlock(version, tail);
    var after := if older == "" then "" else "\n" + older;
    var page := above + block + after;
    if i :| 0 <= i < |page| && VersionAt(page, i, version) {
      if i < |above + block| {
        FoundAround(above, version, tail, after, i);
      } else {
        BehindBlock(above + block, older, i, version);
      }
    }
  }

  lemma BehindBlock(head: string, older: string, i: nat, version: string)
    requires older != "" && |head| <= i && VersionAt(head + ("\n" + older), i, version)
    ensures Mentions(older, version)
  {
    assert head + ("\n" + older) == (head + "\n") + older;
    assert (head + ("\n" + older))[|head|] == '\n';
    MentionBehind(head + "\n", older, i, version);
  }

  /** A block between what is above it and what is older. */
  function OnTop(above: string, block: string, older: string): string {
    above + block + if older == "" then "" else "\n" + older
  }

  lemma PageWithOne(start: Option<string>, block: string)
    ensures PageOf(PageText(start), [block]) == OnTop(Above(PageText(start)), block, Older(start))
  {
    StackOne(Above(PageText(start)), block, Older(start));
  }

  lemma StackOne(above: string, block: string, older: string)
    ensures above + Stack([block], older) == OnTop(above, block, older)
  {
    if older != "" {
      assert Stack([block], older) == block + "\n" + Stack([], older);
      assert above + (block + "\n" + older) == above + block + ("\n" + older);
    }
  }

  // ----- A note -----

  const NoteName := "1.operators.md"

  predicate Plain(s: string) {
    '#' !in s
  }

  lemma NameParses(number: string, audience: string, name: string)
    requires AllDigits(number) && IsSlug(audience) && name == number + "." + audience + ".md"
    ensures ParseName(name) == Some((Number(number), audience))
  {
    var stem := number + "." + audience;
    var parts := [number, audience];
    assert name[..|name| - 3] == stem && name[|name| - 3..] == ".md" && name[|name| - 1] == ".md"[2];
    assert Join(parts, '.') == stem by {
      assert parts[1..] == [audience];
    }
    SplitOfJoin(parts, '.');
  }

  lemma NoteParses()
    ensures IsFragment(NoteName) && ParseName(NoteName) == Some((1, Operators))
  {
    assert AllDigits("1") && "1"[..0] == "" && Number("1") == 1;
    assert IsSlug("operators");
    NameParses("1", "operators", NoteName);
  }

  /** The rest of a block with one note. */
  function NoteTail(f: Fragment): string {
    "\n" + "\n" + ("### " + SectionTitle(Operators)) + "\n" + "\n" + RenderEntry(f)
  }

  lemma NoteBlock(f: Fragment, version: string)
    requires f.audience == Operators
    ensures BlockOf([f], version, Blank(version)) == BlankBlock(version, NoteTail(f))
  {
    NoteSections(f);
    HeadedAlone(Heading(version, Blank(version)), "### " + SectionTitle(Operators), RenderEntry(f));
    assert Heading(version, Blank(version)) == "## " + version + Gap(version);
  }

  lemma NoteSections(f: Fragment)
    requires f.audience == Operators
    ensures Section([f], Operators) == ("### " + SectionTitle(Operators)) + "\n" + "\n" + (RenderEntry(f) + "\n")
    ensures Section([f], Admins) == "" && Section([f], AgentAuthors) == ""
  {
    TitledOne(f, Operators, "### " + SectionTitle(Operators));
    TitledOne(f, Admins, "### " + SectionTitle(Admins));
    TitledOne(f, AgentAuthors, "### " + SectionTitle(AgentAuthors));
  }

  lemma TitledOne(f: Fragment, audience: string, title: string)
    ensures Titled([f], audience, title) ==
            if f.audience == audience then title + "\n" + "\n" + (RenderEntry(f) + "\n") else ""
  {
    assert [f][0].audience == f.audience;
    assert Entries([f], audience) == EntryFor(f, audience) + Entries([], audience);
  }

  lemma HeadedAlone(heading: string, title: string, entry: string)
    ensures var text := Headed(heading, title + "\n" + "\n" + (entry + "\n"), "", "");
            text != "" && text[..|text| - 1] == heading + ("\n" + "\n" + title + "\n" + "\n" + entry)
  {
    var text := Headed(heading, title + "\n" + "\n" + (entry + "\n"), "", "");
    assert text == heading + ("\n" + "\n" + title + "\n" + "\n" + entry) + "\n";
  }

  lemma NoteTailIsHeadless(f: Fragment)
    requires f.pr == 1 && Plain(f.text)
    ensures Headless(NoteTail(f)) && NoteTail(f)[|NoteTail(f)| - 1] == '\n'
  {
    var front, back := EntryAroundNumber(f);
    var title := "\n" + "\n" + "###";
    TitleParts();
    Regroup(front, "#", back);
    var between := " For operators" + "\n" + "\n" + front;
    NoteTailParts("### " + SectionTitle(Operators), "###", " For operators", front, "#" + back, RenderEntry(f));
    Regroup(between, "#", back);
    OneMark(between, back);
    TitleIsHeadless(title, between + "#" + back);
  }

  lemma TitleParts()
    ensures "### " + SectionTitle(Operators) == "###" + " For operators"
  {
  }

  lemma NoteTailParts(title: string, mark: string, name: string, front: string, back: string, entry: string)
    requires title == mark + name && entry == front + back
    ensures "\n" + "\n" + title + "\n" + "\n" + entry
            == "\n" + "\n" + mark + (name + "\n" + "\n" + front + back)
  {
  }

  lemma EntryAroundNumber(f: Fragment) returns (front: string, back: string)
    requires f.pr == 1 && Plain(f.text)
    ensures RenderEntry(f) == front + "#" + back && Plain(front) && Plain(back) && front != ""
  {
    var number, address := Decimal(1), "](https://github.com/Ironsail-llc/genus-os/pull/";
    assert number == "1" && Plain(number);
    PlainAddress();
    StripNlPlain(f.text);
    var body := RStripNl(LStripNl(f.text));
    front, back := body + (if IsOneParagraph(body) then " " else "\n\n") + "([", AfterNumber(number, address);
    NumberSplit(number, address);
    assert Reference(1) == "([#" + number + address + number + "))";
    assert RenderEntry(f) == body + (if IsOneParagraph(body) then " " else "\n\n") + Reference(1) + "\n";
    Around(body + (if IsOneParagraph(body) then " " else "\n\n"), "([", "#", back, Reference(1), "\n");
  }

  lemma PlainAddress()
    ensures Plain("](https://github.com/Ironsail-llc/genus-os/pull/")
  {
    assert Plain("](https://github.com/Iro") && Plain("nsail-llc/genus-os/pull/");
    assert "](https://github.com/Ironsail-llc/genus-os/pull/" == "](https://github.com/Iro" + "nsail-llc/genus-os/pull/";
  }

  lemma Around(a: string, b: string, c: string, d: string, e: string, end: string)
    requires e + end == b + c + d
    ensures a + e + end == a + b + c + d
  {
    assert a + e + end == a + (e + end);
    assert a + b + c + d == a + (b + c + d);
  }

  function AfterNumber(number: string, address: string): string {
    number + address + number + "))" + "\n"
  }

  lemma NumberSplit(number: string, address: string)
    requires Plain(number) && Plain(address)
    ensures "([#" + number + address + number + "))" + "\n" == "([" + "#" + AfterNumber(number, address)
    ensures Plain(AfterNumber(number, address))
  {
    assert "([" + "#" == "([#";
  }

  lemma {:induction false} LStripNlPlain(s: string)
    requires Plain(s)
    ensures Plain(LStripNl(s))
    decreases |s|
  {
    if s != "" && s[0] == '\n' {
      LStripNlPlain(s[1..]);
    }
  }

  lemma StripNlPlain(s: string)
    requires Plain(s)
    ensures Plain(RStripNl(LStripNl(s)))
  {
    LStripNlPlain(s);
    assert RStripNl(LStripNl(s)) <= LStripNl(s);
  }

  /** A text with a single `#` has no mark. */
  lemma OneMark(front: string, back: string)
    requires Plain(front) && Plain(back)
    ensures forall j :: !MarkAt(front + "#" + back, j)
  {
    var s := front + "#" + back;
    assert forall k | 0 <= k < |front| :: front[k] in front && s[k] == front[k];
    assert forall k | 0 <= k < |back| :: back[k] in back && s[|front| + 1 + k] == back[k];
    forall j ensures !MarkAt(s, j) {
      if 0 <= j && j + 3 <= |s| && s[j] == '#' {
        assert j == |front|;
      }
    }
  }

  lemma TitleIsHeadless(title: string, rest: string)
    requires title == "\n" + "\n" + "###" && rest != "" && rest[0] == ' ' && forall j :: !MarkAt(rest, j)
    ensures Headless(title + rest)
  {
    var s := title + rest;
    assert s[0] == '\n' && s[1] == '\n' && s[2] == '#' && s[3] == '#' && s[4] == '#' && s[5] == ' ';
    assert forall j | 5 <= j :: MarkAt(s, j) ==> MarkAt(rest, j - 5);
  }

  // ----- The history -----

  /** Some note without a `#` passes the checks. */
  ghost predicate Writable(clean: Fragment -> bool) {
    exists text :: Plain(Strip(text)) && clean(Fragment(1, Operators, NoteName, Strip(text)))
  }

  lemma OneListed(files: map<string, string>, text: string)
    requires files == map[NoteName := text]
    ensures Listing(files) == [Fragment(1, Operators, NoteName, Strip(text))] && !HasStray(files)
    ensures Without(files, Names(Listing(files))) == map[]
  {
    NoteParses();
    var f := FragmentOf(NoteName, text);
    assert Pending(files) == {f};
    ListingIs(files, [f]);
    assert Names([f]) == {NoteName};
  }

  /** Adding a note and releasing it. */
  lemma ReleaseOne(s: State, text: string, clean: Fragment -> bool, version: string) returns (u: State, t: State)
    requires s.tree.files == map[] && clean(Fragment(1, Operators, NoteName, Strip(text)))
    requires !Mentions(PageText(s.tree.page), version)
    ensures Enabled(s, Add(NoteName, text)) && u == Next(s, Add(NoteName, text), clean)
    ensures t == Next(u, Assemble(version, Blank(version)), clean)
    ensures t.tree.files == map[] && |t.releases| == |s.releases| + 1 && t.releases[0].version == version
    ensures t.releases[1..] == s.releases
    ensures var block := BlockOf([Fragment(1, Operators, NoteName, Strip(text))], version, Blank(version));
            t.tree.page == Some(Insert(PageText(s.tree.page), block))
  {
    var f := Fragment(1, Operators, NoteName, Strip(text));
    u := Next(s, Add(NoteName, text), clean);
    assert u.tree.files == map[NoteName := text];
    OneListed(u.tree.files, text);
    AssembleNote(u, f, version, Blank(version), clean);
    t := Next(u, Assemble(version, Blank(version)), clean);
  }

  lemma AssembleNote(u: State, f: Fragment, version: string, date: string, clean: Fragment -> bool)
    requires Listing(u.tree.files) == [f] && Without(u.tree.files, Names([f])) == map[] && !HasStray(u.tree.files)
    requires f.audience == Operators && clean(f) && !Mentions(PageText(u.tree.page), version)
    ensures var t := Next(u, Assemble(version, date), clean);
            && t.tree == Tree(map[], Some(Insert(PageText(u.tree.page), BlockOf([f], version, date))))
            && t.releases == [Release(version, date, Published([f]))] + u.releases
  {
    NoteDecides(u.tree, f, version, clean);
    CarriedOut(u.tree, [f], BlockOf([f], version, date));
  }

  lemma CarriedOut(t: Tree, items: seq<Fragment>, block: string)
    ensures Carry(t, items, Publish, block, true).0 ==
            Tree(Without(t.files, Names(items)), Some(Insert(PageText(t.page), block)))
  {
  }

  lemma NoteDecides(t: Tree, f: Fragment, version: string, clean: Fragment -> bool)
    requires !HasStray(t.files) && f.audience == Operators && clean(f) && !Mentions(PageText(t.page), version)
    ensures Decide(t, [f], version, clean) == Publish
  {
    assert [f][0].audience == Operators;
  }

  lemma RunCons(from: State, step: ReleaseRuns.Step, next: State, rest: seq<ReleaseRuns.Step>, to: State, clean: Fragment -> bool)
    requires Enabled(from, step) && next == Next(from, step, clean) && RunTo(next, rest, to, clean)
    ensures RunTo(from, [step] + rest, to, clean)
  {
    assert ([step] + rest)[1..] == rest;
  }

  /** Some history of a tree with this page releases the version twice. */
  ghost predicate CanRepeat(page: Option<string>, clean: Fragment -> bool, version: string) {
    exists files, steps, s :: RunTo(Found(Tree(files, page)), steps, s, clean) && Twice(s.releases, version)
  }

  lemma TwiceReleased(page: Option<string>, clean: Fragment -> bool, version: string)
    requires Writable(clean)
    requires !EndsInWord(version) || !NewlineAbove(page)
    requires !Mentions(Older(page), version)
    ensures CanRepeat(page, clean, version)
  {
    var text :| Plain(Strip(text)) && clean(Fragment(1, Operators, NoteName, Strip(text)));
    var steps, s := TwiceFrom(Found(Tree(map[], page)), page, text, clean, version);
  }

  lemma TwiceFrom(found: State, page: Option<string>, text: string, clean: Fragment -> bool, version: string)
    returns (steps: seq<ReleaseRuns.Step>, s: State)
    requires found.tree == Tree(map[], page)
    requires Plain(Strip(text)) && clean(Fragment(1, Operators, NoteName, Strip(text)))
    requires (!EndsInWord(version) || !NewlineAbove(page)) && !Mentions(Older(page), version)
    ensures RunTo(found, steps, s, clean) && Twice(s.releases, version)
  {
    var a, b := Add(NoteName, text), Assemble(version, Blank(version));
    MentionedInOlder(page, version);
    var u1, once := ReleaseOne(found, text, clean, version);
    NotMentionedAfter(page, Fragment(1, Operators, NoteName, Strip(text)), version);
    var u2, last := ReleaseOne(once, text, clean, version);
    Repeated(found, u1, once, u2, last, a, b, clean);
    steps, s := [a] + ([b] + ([a] + ([b] + []))), last;
    assert s.releases[1] == s.releases[1..][0];
  }

  lemma NotMentionedAfter(page: Option<string>, f: Fragment, version: string)
    requires f.pr == 1 && f.audience == Operators && Plain(f.text)
    requires (!EndsInWord(version) || !NewlineAbove(page)) && !Mentions(Older(page), version)
    ensures !Mentions(Insert(PageText(page), BlockOf([f], version, Blank(version))), version)
  {
    NoteBlock(f, version);
    NoteTailIsHeadless(f);
    OneOnTop(PageText(page), BlankBlock(version, NoteTail(f)));
    MentionsWithBlank(page, version, NoteTail(f));
  }

  lemma OneOnTop(page: string, block: string)
    ensures Insert(page, block) == PageOf(page, [block])
  {
    InsertStacks(page, [], block);
    assert [block] + [] == [block];
  }

  lemma Repeated(s0: State, s1: State, s2: State, s3: State, s4: State, a: ReleaseRuns.Step, b: ReleaseRuns.Step, clean: Fragment -> bool)
    requires Enabled(s0, a) && s1 == Next(s0, a, clean) && Enabled(s1, b) && s2 == Next(s1, b, clean)
    requires Enabled(s2, a) && s3 == Next(s2, a, clean) && Enabled(s3, b) && s4 == Next(s3, b, clean)
    ensures RunTo(s0, [a] + ([b] + ([a] + ([b] + []))), s4, clean)
  {
    RunCons(s3, b, s4, [], s4, clean);
    RunCons(s2, a, s3, [b] + [], s4, clean);
    RunCons(s1, b, s2, [a] + ([b] + []), s4, clean);
    RunCons(s0, a, s1, [b] + ([a] + ([b] + [])), s4, clean);
  }

  /** For every page and every version, whether some history releases the version twice: exactly if the version does
    * not end in a letter, a digit or `_`, or the text above the first block ends without a newline; and the version
    * is not mentioned from the first block on.
    */
  lemma ReleasedTwiceExactly(page: Option<string>, clean: Fragment -> bool, version: string)
    requires Writable(clean)
    ensures CanRepeat(page, clean, version)
            <==> (!EndsInWord(version) || !NewlineAbove(page)) && !Mentions(Older(page), version)
  {
    if CanRepeat(page, clean, version) {
      var files, steps, s :| RunTo(Found(Tree(files, page)), steps, s, clean) && Twice(s.releases, version);
      TwiceNeeds(Tree(files, page), steps, s, clean, version);
    }
    if (!EndsInWord(version) || !NewlineAbove(page)) && !Mentions(Older(page), version) {
      TwiceReleased(page, clean, version);
    }
  }

  /** Where there is no page yet, a version can be released twice exactly if it does not end in a word character:
    * `1.0-` can.
    */
  lemma NewPage(clean: Fragment -> bool, version: string)
    requires Writable(clean)
    ensures CanRepeat(None, clean, version) <==> !EndsInWord(version)
    ensures CanRepeat(None, clean, "1.0-")
  {
    NoBlockPage(EmptyPage);
    ReleasedTwiceExactly(None, clean, version);
    ReleasedTwiceExactly(None, clean, "1.0-");
  }

  lemma NoBlockPage(page: string)
    requires |page| > 1 && page[1] == ' ' && forall i | 0 < i < |page| :: page[i] != '#'
    ensures Intro(page) == |page| && NewlineAbove(Some(page)) && Older(Some(page)) == ""
  {
    IntroIs(page);
  }

  /** A page whose first block stands behind a vertical tab: even `1` can be released twice. */
  lemma TabbedPage(clean: Fragment -> bool)
    requires Writable(clean)
    ensures EndsInWord("1") && CanRepeat(Some("a\U{B}## 0"), clean, "1")
  {
    var page := "a\U{B}## 0";
    assert page[0] == 'a' && page[1] == '\U{B}' && page[2] == '#' && page[3] == '#' && page[4] == ' ' && page[5] == '0';
    TabbedIntro(page);
    ReleasedTwiceExactly(Some(page), clean, "1");
  }

  lemma TabbedIntro(page: string)
    requires |page| == 6 && page[0] == 'a' && page[1] == '\U{B}' && page[2] == '#' && page[3] == '#' && page[4] == ' '
    requires page[5] == '0'
    ensures !NewlineAbove(Some(page)) && !Mentions(Older(Some(page)), "1")
  {
    assert BlockAt(page, 2);
    IntroUnique(page, 2);
    var older := Older(Some(page));
    assert older == page[2..] && "1"[0] == '1';
    forall i | 0 <= i < |older| ensures !VersionAt(older, i, "1") {
      assert i == 0 ==> older[3] == '0' && (|older| >= 4 ==> older[3..4][0] == '0');
    }
  }
}
