/** Release-note fragments: their names, how one is printed, and where a new block goes on the page
  * (scripts/changelog_fragments.py:47-78, 165-184, 470-536).
  */
module ReleaseNotes {
  import opened Wrappers
  import opened Sequences
  import opened Text
  import opened Lines

  // ----- Fragments -----

  datatype Fragment = Fragment(pr: nat, audience: string, name: string, text: string)

  const Operators := "operators"
  const Admins := "admins"
  const AgentAuthors := "agent-authors"
  const Internal := "internal"

  predicate IsAudience(audience: string) {
    IsPublished(audience) || audience == Internal
  }

  /** The audiences with a section on the page. */
  predicate IsPublished(audience: string) {
    audience == Operators || audience == Admins || audience == AgentAuthors
  }

  function SectionTitle(audience: string): string {
    if audience == Operators then "For operators"
    else if audience == Admins then "For admins"
    else "For agent authors"
  }

  predicate IsDigit(c: char) {
    '0' <= c <= '9'
  }

  predicate IsLower(c: char) {
    'a' <= c <= 'z'
  }

  predicate AllDigits(s: string) {
    s != "" && forall c | c in s :: IsDigit(c)
  }

  predicate IsSlug(s: string) {
    s != "" && IsLower(s[0]) && forall c | c in s :: IsLower(c) || c == '-'
  }

  function Number(s: string): nat
    requires forall c | c in s :: IsDigit(c)
  {
    if s == "" then 0
    else
      var last := s[|s| - 1];
      assert last in s && IsDigit(last);
      Number(s[..|s| - 1]) * 10 + (last as int - '0' as int)
  }

  /** The stem of `<stem>.md`; the `$` of the pattern also accepts one final newline. */
  function Stem(name: string): Option<string> {
    var n := if name != "" && name[|name| - 1] == '\n' then name[..|name| - 1] else name;
    if |n| >= 3 && n[|n| - 3..] == ".md" then Some(n[..|n| - 3]) else None
  }

  /** `FRAGMENT_NAME_RE`: a number and an audience. */
  function ParseName(name: string): Option<(nat, string)> {
    match Stem(name)
    case None => None
    case Some(stem) =>
      var parts := Split(stem, '.');
      if |parts| == 2 && AllDigits(parts[0]) && IsSlug(parts[1]) then Some((Number(parts[0]), parts[1])) else None
  }

  /** A file that claims to be a fragment. */
  predicate IsFragmentFile(name: string) {
    name != "README.md" && !StartsWith(name, ".")
  }

  // ----- Printing one -----

  function LStripNl(s: string): string {
    if s != "" && s[0] == '\n' then LStripNl(s[1..]) else s
  }

  function RStripNl(s: string): (r: string)
    ensures r <= s && (r != "" ==> r[|r| - 1] != '\n')
  {
    if s != "" && s[|s| - 1] == '\n' then RStripNl(s[..|s| - 1]) else s
  }

  predicate HasBlankLine(body: string) {
    exists i | 0 <= i < |body| - 1 :: body[i] == '\n' && body[i + 1] == '\n'
  }

  predicate IsNumbered(line: string) {
    var l := LStrip(line);
    var head := Split(l, '.')[0];
    AllDigits(head) && StartsWith(l, head + ". ")
  }

  predicate IsBlockLine(line: string) {
    var l := LStrip(line);
    (l != "" && l[0] in "-*+>#|") || IsNumbered(line)
  }

  predicate IsOneParagraph(body: string) {
    !HasBlankLine(body) && forall line | line in SplitLines(body) :: !IsBlockLine(line)
  }

  function Reference(pr: nat): string {
    "([#" + Decimal(pr) + "](https://github.com/Ironsail-llc/genus-os/pull/" + Decimal(pr) + "))"
  }

  function EntryBody(f: Fragment): string {
    var body := RStripNl(LStripNl(f.text));
    if IsOneParagraph(body) then body + " " + Reference(f.pr) else body + "\n\n" + Reference(f.pr)
  }

  function RenderEntry(f: Fragment): string {
    EntryBody(f) + "\n"
  }

  // ----- Printing a block -----

  /** The entries for one audience, each followed by an empty line. */
  function Entries(items: seq<Fragment>, audience: string): string {
    if items == [] then ""
    else EntryFor(items[0], audience) + Entries(items[1..], audience)
  }

  function EntryFor(f: Fragment, audience: string): string {
    if f.audience == audience then RenderEntry(f) + "\n" else ""
  }

  predicate HasAudience(items: seq<Fragment>, audience: string) {
    exists i | 0 <= i < |items| :: items[i].audience == audience
  }

  function Section(items: seq<Fragment>, audience: string): string {
    Titled(items, audience, "### " + SectionTitle(audience))
  }

  function Titled(items: seq<Fragment>, audience: string, title: string): string {
    if HasAudience(items, audience) then title + "\n" + "\n" + Entries(items, audience) else ""
  }

  function Heading(version: string, date: string): string {
    "## " + version + " \U{2014} " + date
  }

  /** What a release adds to the page, with the empty line that parts it from older blocks. */
  function BlockText(items: seq<Fragment>, version: string, date: string): string {
    Headed(Heading(version, date), Section(items, Operators), Section(items, Admins), Section(items, AgentAuthors))
  }

  function Headed(heading: string, a: string, b: string, c: string): string {
    heading + "\n" + "\n" + a + b + c
  }

  predicate Publishes(items: seq<Fragment>) {
    HasAudience(items, Operators) || HasAudience(items, Admins) || HasAudience(items, AgentAuthors)
  }

  lemma {:induction false} EntriesSnoc(items: seq<Fragment>, f: Fragment, audience: string)
    ensures Entries(items + [f], audience) == Entries(items, audience) + EntryFor(f, audience)
  {
    if items == [] {
      assert [] + [f] == [f] && Entries([f], audience) == EntryFor(f, audience) + "";
    } else {
      EntriesSnoc(items[1..], f, audience);
      assert (items + [f])[1..] == items[1..] + [f] && (items + [f])[0] == items[0];
      Regroup(EntryFor(items[0], audience), Entries(items[1..], audience), EntryFor(f, audience));
    }
  }

  lemma TitleLines(before: seq<string>, title: string, entries: string)
    ensures Unlines(before + [title] + [""]) + entries == Unlines(before) + (title + "\n" + "\n" + entries)
  {
    UnlinesSnoc(before, title);
    UnlinesSnoc(before + [title], "");
    assert Unlines(before + [title] + [""]) == Unlines(before) + (title + "\n" + "\n");
    Regroup(Unlines(before), title + "\n" + "\n", entries);
  }

  method RenderSection(items: seq<Fragment>, audience: string, title: string, before: seq<string>)
    returns (lines: seq<string>)
    ensures Unlines(lines) == Unlines(before) + Titled(items, audience, title)
    ensures |lines| >= |before|
  {
    lines := before;
    if exists i | 0 <= i < |items| :: items[i].audience == audience {
      TitleLines(before, title, Entries(items, audience));
      lines := RenderEntries(items, audience, before + [title] + [""]);
    }
  }

  method RenderEntries(items: seq<Fragment>, audience: string, before: seq<string>) returns (lines: seq<string>)
    ensures Unlines(lines) == Unlines(before) + Entries(items, audience)
    ensures |lines| >= |before|
  {
    lines := before;
    assert items[..0] == [];
    for i := 0 to |items|
      invariant Unlines(lines) == Unlines(before) + Entries(items[..i], audience)
      invariant |lines| >= |before|
    {
      Sequences.Step(items, i);
      EntriesSnoc(items[..i], items[i], audience);
      lines := RenderOne(items[i], audience, lines);
      Regroup(Unlines(before), Entries(items[..i], audience), EntryFor(items[i], audience));
    }
    Ends(items);
  }

  method RenderOne(f: Fragment, audience: string, before: seq<string>) returns (lines: seq<string>)
    ensures Unlines(lines) == Unlines(before) + EntryFor(f, audience)
    ensures |lines| >= |before|
  {
    lines := before;
    if f.audience == audience {
      RStripNlOf(EntryBody(f));
      var body := Split(RStripNl(RenderEntry(f)), '\n');
      UnlinesAppend(before, body);
      UnlinesOfSplit(EntryBody(f));
      UnlinesSnoc(before + body, "");
      lines := before + body + [""];
    }
  }

  lemma RStripNlOf(s: string)
    requires s != "" && s[|s| - 1] != '\n'
    ensures RStripNl(s + "\n") == s
  {
    assert (s + "\n")[..|s|] == s;
  }

  method RenderBlock(items: seq<Fragment>, version: string, date: string) returns (block: string)
    ensures Publishes(items) ==> block + "\n" == BlockText(items, version, date)
  {
    var lines := RenderLines(items, Heading(version, date));
    JoinIsUnlines(lines);
    block := RStrip(Join(lines, '\n')) + "\n";
    if Publishes(items) {
      BlockTextEnds(items, version, date);
      RStripBlock(Join(lines, '\n'), BlockText(items, version, date));
    }
  }

  method RenderLines(items: seq<Fragment>, heading: string) returns (lines: seq<string>)
    ensures Unlines(lines)
            == Headed(heading, Section(items, Operators), Section(items, Admins), Section(items, AgentAuthors))
    ensures lines != []
  {
    HeadingLines(heading);
    var first := RenderAudience(items, Operators, [heading, ""]);
    var second := RenderAudience(items, Admins, first);
    lines := RenderAudience(items, AgentAuthors, second);
  }

  method RenderAudience(items: seq<Fragment>, audience: string, before: seq<string>) returns (lines: seq<string>)
    ensures Unlines(lines) == Unlines(before) + Section(items, audience)
    ensures |lines| >= |before|
  {
    lines := RenderSection(items, audience, "### " + SectionTitle(audience), before);
  }

  lemma HeadingLines(heading: string)
    ensures Unlines([heading, ""]) == heading + "\n" + "\n"
  {
    UnlinesOne(heading);
    UnlinesSnoc([heading], "");
    assert [heading] + [""] == [heading, ""];
  }

  /** Ends in a closing parenthesis and two newlines. */
  predicate EndsEntry(s: string) {
    |s| >= 3 && s[|s| - 3] == ')' && s[|s| - 2] == '\n' && s[|s| - 1] == '\n'
  }

  lemma RStripBlock(joined: string, text: string)
    requires joined + "\n" == text && EndsEntry(text)
    ensures RStrip(joined) + "\n" + "\n" == text
  {
    var core := joined[..|joined| - 1];
    assert joined[|joined| - 1] == text[|joined| - 1] && core[|core| - 1] == text[|core| - 1];
    assert joined == core + "\n";
  }

  lemma EntryEnds(f: Fragment)
    ensures EndsEntry(RenderEntry(f) + "\n")
  {
    assert EntryBody(f)[|EntryBody(f)| - 1] == ')';
    assert RenderEntry(f) + "\n" == EntryBody(f) + "\n" + "\n";
  }

  lemma {:induction false} EntriesEnd(items: seq<Fragment>, audience: string)
    requires HasAudience(items, audience)
    ensures EndsEntry(Entries(items, audience))
  {
    var rest := items[1..];
    if HasAudience(rest, audience) {
      EntriesEnd(rest, audience);
      EndsLater(EntryFor(items[0], audience), Entries(rest, audience));
    } else {
      NoEntries(rest, audience);
      assert items[0].audience == audience;
      Nothing(EntryFor(items[0], audience));
      EntryEnds(items[0]);
    }
  }

  lemma {:induction false} NoEntries(items: seq<Fragment>, audience: string)
    requires !HasAudience(items, audience)
    ensures Entries(items, audience) == ""
  {
    if items != [] {
      assert items[0].audience != audience;
      assert forall i | 0 <= i < |items[1..]| :: items[1..][i] == items[i + 1];
      NoEntries(items[1..], audience);
    }
  }

  lemma EndsLater(a: string, b: string)
    requires EndsEntry(b)
    ensures EndsEntry(a + b)
  {
  }

  lemma SectionEnds(items: seq<Fragment>, audience: string)
    ensures if HasAudience(items, audience) then EndsEntry(Section(items, audience)) else Section(items, audience) == ""
  {
    if HasAudience(items, audience) {
      EntriesEnd(items, audience);
      EndsLater("### " + SectionTitle(audience) + "\n" + "\n", Entries(items, audience));
    }
  }

  lemma BlockTextEnds(items: seq<Fragment>, version: string, date: string)
    requires Publishes(items)
    ensures EndsEntry(BlockText(items, version, date))
  {
    var h := Heading(version, date) + "\n" + "\n";
    var a, b, c := Section(items, Operators), Section(items, Admins), Section(items, AgentAuthors);
    SectionEnds(items, Operators);
    SectionEnds(items, Admins);
    SectionEnds(items, AgentAuthors);
    if HasAudience(items, AgentAuthors) {
      EndsLater(h + a + b, c);
    } else if HasAudience(items, Admins) {
      EndsLater(h + a, b);
      assert h + a + b + c == h + a + b;
    } else {
      EndsLater(h, a);
      assert h + a + b + c == h + a;
    }
  }

  // ----- What a block holds -----

  ghost predicate Contains(s: string, part: string) {
    exists before, after :: s == before + part + after
  }

  lemma ContainsLonger(s: string, part: string, a: string, b: string)
    requires Contains(s, part)
    ensures Contains(a + s + b, part)
  {
    var before, after :| s == before + part + after;
    assert a + s + b == (a + before) + part + (after + b);
  }

  lemma ContainsBehind(s: string, part: string, a: string)
    requires Contains(s, part)
    ensures Contains(a + s, part)
  {
    ContainsLonger(s, part, a, "");
    Nothing(a + s);
  }

  lemma FirstContains(entry: string, rest: string)
    ensures Contains(entry + "\n" + rest, entry)
  {
    assert entry + "\n" + rest == "" + entry + ("\n" + rest);
  }

  lemma FirstEntry(f: Fragment, rest: seq<Fragment>)
    ensures Contains(Entries([f] + rest, f.audience), RenderEntry(f))
  {
    Cons(f, rest);
    FirstContains(RenderEntry(f), Entries(rest, f.audience));
  }

  lemma LaterEntry(first: Fragment, rest: seq<Fragment>, audience: string, entry: string)
    requires Contains(Entries(rest, audience), entry)
    ensures Contains(Entries([first] + rest, audience), entry)
  {
    Cons(first, rest);
    ContainsBehind(Entries(rest, audience), entry, EntryFor(first, audience));
  }

  lemma {:induction false} EntriesContain(items: seq<Fragment>, f: Fragment)
    requires f in items
    ensures Contains(Entries(items, f.audience), RenderEntry(f))
  {
    Uncons(items);
    if f == items[0] {
      FirstEntry(f, items[1..]);
    } else {
      EntriesContain(items[1..], f);
      LaterEntry(items[0], items[1..], f.audience, RenderEntry(f));
    }
  }

  lemma SectionContains(items: seq<Fragment>, i: nat)
    requires i < |items|
    ensures Contains(Section(items, items[i].audience), RenderEntry(items[i]))
  {
    var audience := items[i].audience;
    EntriesContain(items, items[i]);
    ContainsBehind(Entries(items, audience), RenderEntry(items[i]), "### " + SectionTitle(audience) + "\n" + "\n");
  }

  /** Every fragment with a published audience is in the block, in its section, as it is printed by itself. */
  lemma EveryNoteIsPrinted(items: seq<Fragment>, version: string, date: string, i: nat)
    requires i < |items| && IsPublished(items[i].audience)
    ensures Contains(BlockText(items, version, date), RenderEntry(items[i]))
  {
    var entry := RenderEntry(items[i]);
    SectionContains(items, i);
    HeadedContains(Heading(version, date), Section(items, Operators), Section(items, Admins),
                   Section(items, AgentAuthors), entry);
  }

  lemma HeadedContains(heading: string, a: string, b: string, c: string, part: string)
    requires Contains(a, part) || Contains(b, part) || Contains(c, part)
    ensures Contains(Headed(heading, a, b, c), part)
  {
    var h := heading + "\n" + "\n";
    if Contains(a, part) {
      ContainsLonger(a, part, h, b + c);
      assert h + a + (b + c) == h + a + b + c;
    } else if Contains(b, part) {
      ContainsLonger(b, part, h + a, c);
    } else {
      ContainsLonger(c, part, h + a + b, "");
      assert h + a + b + c + "" == h + a + b + c;
    }
  }

  function Published(items: seq<Fragment>): (r: seq<Fragment>)
    ensures forall f | f in r :: f in items && IsPublished(f.audience)
    ensures forall f | f in items && IsPublished(f.audience) :: f in r
  {
    if items == [] then [] else (if IsPublished(items[0].audience) then [items[0]] else []) + Published(items[1..])
  }

  lemma {:induction false} EntriesOfPublished(items: seq<Fragment>, audience: string)
    requires IsPublished(audience)
    ensures Entries(Published(items), audience) == Entries(items, audience)
  {
    if items != [] {
      EntriesOfPublished(items[1..], audience);
      var head := if IsPublished(items[0].audience) then [items[0]] else [];
      assert (head + Published(items[1..]))[|head|..] == Published(items[1..]);
    }
  }

  lemma SectionOfPublished(items: seq<Fragment>, audience: string)
    requires IsPublished(audience)
    ensures Section(Published(items), audience) == Section(items, audience)
  {
    EntriesOfPublished(items, audience);
    assert HasAudience(items, audience) ==> exists f | f in items :: f.audience == audience;
    if HasAudience(items, audience) {
      var f :| f in items && f.audience == audience;
      assert f in Published(items);
    }
    if HasAudience(Published(items), audience) {
      var f :| f in Published(items) && f.audience == audience;
      assert f in items;
    }
  }

  /** An internal fragment leaves no trace in the block. */
  lemma InternalLeavesNoTrace(items: seq<Fragment>, version: string, date: string)
    ensures BlockText(Published(items), version, date) == BlockText(items, version, date)
  {
    SectionOfPublished(items, Operators);
    SectionOfPublished(items, Admins);
    SectionOfPublished(items, AgentAuthors);
  }
}
