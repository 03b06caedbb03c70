/** What a release-note fragment's name says, how its entry is printed, and under which heading it comes to stand
  * (scripts/changelog_fragments.py:44-66, 470-527).
  */
module ReleaseLaws {
  import opened Wrappers
  import opened Sequences
  import opened Text
  import opened Lines
  import opened ReleaseNotes

  // ----- Names -----

  /** By their code points. */
  lemma CharsExactly(c: char)
    ensures IsDigit(c) <==> 48 <= c as int <= 57
    ensures IsLower(c) <==> 97 <= c as int <= 122
  {
  }

  /** A file is the fragment of a pull request for an audience exactly if it is named so; the pattern also takes a name
    * with one newline at its end.
    */
  lemma NamedExactly(name: string, pr: nat, audience: string)
    ensures ParseName(name) == Some((pr, audience)) <==>
            exists digits, end ::
              && digits != "" && (forall c | c in digits :: IsDigit(c)) && Number(digits) == pr
              && audience != "" && IsLower(audience[0]) && (forall c | c in audience :: IsLower(c) || c == '-')
              && (end == "" || end == "\n")
              && name == digits + ("." + (audience + (".md" + end)))
  {
    if ParseName(name) == Some((pr, audience)) {
      var digits, end := NameParts(name, pr, audience);
    }
    if digits, end :|
         && digits != "" && (forall c | c in digits :: IsDigit(c)) && Number(digits) == pr
         && audience != "" && IsLower(audience[0]) && (forall c | c in audience :: IsLower(c) || c == '-')
         && (end == "" || end == "\n")
         && name == digits + ("." + (audience + (".md" + end)))
    {
      NamePrinted(digits, audience, end);
    }
  }

  lemma StemOf(stem: string, end: string)
    requires end == "" || end == "\n"
    ensures Stem(stem + (".md" + end)) == Some(stem)
  {
    var plain := stem + ".md";
    assert plain[|plain| - 3..] == ".md" && plain[..|plain| - 3] == stem;
    if end == "" {
      assert stem + (".md" + end) == plain;
    } else {
      var name := stem + (".md" + end);
      assert name == plain + "\n";
      Snoc(plain, '\n');
    }
  }

  lemma StemParts(name: string) returns (end: string)
    requires Stem(name).Some?
    ensures (end == "" || end == "\n") && name == Stem(name).value + (".md" + end)
  {
    var n := if name != "" && name[|name| - 1] == '\n' then name[..|name| - 1] else name;
    end := if name != "" && name[|name| - 1] == '\n' then "\n" else "";
    Halves(n, |n| - 3);
    assert name == n + end;
    Regroup(n[..|n| - 3], ".md", end);
  }

  lemma SplitTwo(a: string, b: string)
    requires '.' !in a && '.' !in b
    ensures Split(a + ("." + b), '.') == [a, b]
  {
    var parts := [a, b];
    SplitOfJoin(parts, '.');
    assert parts[1..] == [b] && Join([b], '.') == b;
    assert Join(parts, '.') == a + ['.'] + Join(parts[1..], '.');
    assert a + ['.'] + b == a + ("." + b);
  }

  lemma JoinTwo(parts: seq<string>)
    requires |parts| == 2
    ensures Join(parts, '.') == parts[0] + ("." + parts[1])
  {
    assert parts[1..] == [parts[1]] && Join([parts[1]], '.') == parts[1];
    assert Join(parts, '.') == parts[0] + ['.'] + Join(parts[1..], '.');
    assert parts[0] + ['.'] + parts[1] == parts[0] + ("." + parts[1]);
  }

  lemma NamePrinted(digits: string, audience: string, end: string)
    requires digits != "" && forall c | c in digits :: IsDigit(c)
    requires audience != "" && IsLower(audience[0]) && forall c | c in audience :: IsLower(c) || c == '-'
    requires end == "" || end == "\n"
    ensures ParseName(digits + ("." + (audience + (".md" + end)))) == Some((Number(digits), audience))
  {
    var stem := digits + ("." + audience);
    assert digits + ("." + (audience + (".md" + end))) == stem + (".md" + end);
    StemOf(stem, end);
    SplitTwo(digits, audience);
  }

  lemma NameParts(name: string, pr: nat, audience: string) returns (digits: string, end: string)
    requires ParseName(name) == Some((pr, audience))
    ensures digits != "" && (forall c | c in digits :: IsDigit(c)) && Number(digits) == pr
    ensures audience != "" && IsLower(audience[0]) && forall c | c in audience :: IsLower(c) || c == '-'
    ensures (end == "" || end == "\n") && name == digits + ("." + (audience + (".md" + end)))
  {
    end := StemParts(name);
    var stem := Stem(name).value;
    digits := Split(stem, '.')[0];
    JoinOfSplit(stem, '.');
    JoinTwo(Split(stem, '.'));
    assert stem + (".md" + end) == digits + ("." + (audience + (".md" + end)));
  }

  /** A number is printed in digits without a leading zero, and they read back as it. */
  lemma {:induction false} DecimalReads(n: nat)
    ensures Decimal(n) != "" && (forall c | c in Decimal(n) :: IsDigit(c)) && Number(Decimal(n)) == n
    ensures Decimal(n)[0] == '0' ==> n == 0
  {
    var digit := '0' + (n % 10) as char;
    if n >= 10 {
      DecimalReads(n / 10);
      Snoc(Decimal(n / 10), digit);
      assert Decimal(n) == Decimal(n / 10) + [digit];
    } else {
      assert Decimal(n) == [digit];
      assert [digit][..0] == "";
    }
  }

  // ----- Entries -----

  ghost predicate Newlines(s: string) {
    forall i | 0 <= i < |s| :: s[i] == '\n'
  }

  /** Exactly the newlines at both ends are taken off. */
  lemma NewlinesOff(a: string, body: string, b: string)
    requires Newlines(a) && Newlines(b) && (body != "" ==> body[0] != '\n' && body[|body| - 1] != '\n')
    ensures RStripNl(LStripNl(a + (body + b))) == body
  {
    if body == "" {
      assert a + (body + b) == (a + b) + "";
      LeadingOff(a + b, "");
    } else {
      assert (body + b)[0] == body[0];
      LeadingOff(a, body + b);
      TrailingOff(body, b);
    }
  }

  lemma {:induction false} LeadingOff(a: string, rest: string)
    requires Newlines(a) && (rest == "" || rest[0] != '\n')
    ensures LStripNl(a + rest) == rest
  {
    if a == "" {
      Nothing(rest);
    } else {
      LeadingOff(a[1..], rest);
      Front(a, rest);
    }
  }

  lemma {:induction false} TrailingOff(body: string, b: string)
    requires Newlines(b) && (body == "" || body[|body| - 1] != '\n')
    ensures RStripNl(body + b) == body
  {
    if b == "" {
      Nothing(body);
    } else {
      var init, last := b[..|b| - 1], b[|b| - 1];
      TrailingOff(body, init);
      Unsnoc(b);
      Regroup(body, init, [last]);
      Snoc(body + init, last);
    }
  }

  /** Digits, a dot and a blank, behind white space. */
  ghost predicate Numbered(line: string) {
    exists gap, digits, rest ::
      && IsBlank(gap) && digits != "" && (forall c | c in digits :: IsDigit(c)) && line == gap + (digits + (". " + rest))
  }

  /** A marker of a list, quote, heading or table, behind white space. */
  ghost predicate MarkedUp(line: string) {
    exists gap, mark, rest ::
      && IsBlank(gap) && (mark == '-' || mark == '*' || mark == '+' || mark == '>' || mark == '#' || mark == '|')
      && line == gap + ([mark] + rest)
  }

  lemma GapOff(gap: string, rest: string)
    requires IsBlank(gap) && (rest == "" || !IsSpace(rest[0]))
    ensures LStrip(gap + rest) == rest
  {
    assert forall i | 0 <= i < |gap| :: (gap + rest)[i] == gap[i] && gap[i] in gap;
    SpacesIs(gap + rest, |gap|);
  }

  lemma NumberedExactly(line: string)
    ensures IsNumbered(line) <==> Numbered(line)
  {
    if IsNumbered(line) {
      var l := LStrip(line);
      var head := Split(l, '.')[0];
      Halves(line, Spaces(line));
      Halves(l, |head + ". "|);
      assert l == head + (". " + l[|head + ". "|..]);
      assert IsBlank(line[..Spaces(line)]) && line == line[..Spaces(line)] + (head + (". " + l[|head + ". "|..]));
    }
    if gap, digits, rest :|
         IsBlank(gap) && digits != "" && (forall c | c in digits :: IsDigit(c)) && line == gap + (digits + (". " + rest))
    {
      NumberedPrinted(gap, digits, rest);
    }
  }

  lemma {:induction false} HeadOf(a: string, rest: string)
    requires '.' !in a
    ensures Split(a + ("." + rest), '.')[0] == a
  {
    var s := a + ("." + rest);
    if a == "" {
      assert s[0] == '.';
    } else {
      HeadOf(a[1..], rest);
      assert a[0] in a && s[1..] == a[1..] + ("." + rest);
      Uncons(a);
    }
  }

  lemma NumberedPrinted(gap: string, digits: string, rest: string)
    requires IsBlank(gap) && digits != "" && forall c | c in digits :: IsDigit(c)
    ensures IsNumbered(gap + (digits + (". " + rest)))
  {
    var l := digits + (". " + rest);
    assert digits[0] in digits && l[0] == digits[0];
    GapOff(gap, l);
    assert l == digits + ("." + (" " + rest));
    HeadOf(digits, " " + rest);
    assert l[..|digits + ". "|] == digits + ". ";
  }

  lemma MarkedUpExactly(line: string)
    ensures IsBlockLine(line) <==> MarkedUp(line) || Numbered(line)
  {
    NumberedExactly(line);
    var l := LStrip(line);
    Halves(line, Spaces(line));
    if l != "" && l[0] in "-*+>#|" {
      Uncons(l);
      assert IsBlank(line[..Spaces(line)]) && line == line[..Spaces(line)] + ([l[0]] + l[1..]);
    }
    if gap, mark, rest :|
         && IsBlank(gap) && (mark == '-' || mark == '*' || mark == '+' || mark == '>' || mark == '#' || mark == '|')
         && line == gap + ([mark] + rest)
    {
      GapOff(gap, [mark] + rest);
      assert mark in "-*+>#|";
    }
  }

  /** An empty line, or a line that is marked up. */
  ghost predicate Structured(body: string) {
    || (exists i | 0 <= i < |body| - 1 :: body[i] == '\n' && body[i + 1] == '\n')
    || exists line :: line in SplitLines(body) && (MarkedUp(line) || Numbered(line))
  }

  lemma StructuredExactly(body: string)
    ensures IsOneParagraph(body) <==> !Structured(body)
  {
    forall line | line in SplitLines(body) ensures IsBlockLine(line) <==> MarkedUp(line) || Numbered(line) {
      MarkedUpExactly(line);
    }
  }

  /** How an entry is printed: the text without the newlines around it, as it is; then the link to the pull request,
    * behind a blank, or as a paragraph of its own if the text is more than one plain paragraph.
    */
  lemma EntryExactly(f: Fragment, a: string, body: string, b: string)
    requires f.text == a + (body + b) && Newlines(a) && Newlines(b)
    requires body != "" ==> body[0] != '\n' && body[|body| - 1] != '\n'
    ensures RenderEntry(f) ==
              body + (if Structured(body) then "\n\n" else " ") + ("([#" + Decimal(f.pr)
              + "](https://github.com/Ironsail-llc/genus-os/pull/" + Decimal(f.pr) + "))") + "\n"
  {
    NewlinesOff(a, body, b);
    StructuredExactly(body);
  }

  // ----- Headings -----

  /** The audiences, and those with a section. */
  lemma AudiencesExactly(audience: string)
    ensures IsPublished(audience) <==> audience == "operators" || audience == "admins" || audience == "agent-authors"
    ensures IsAudience(audience) <==> IsPublished(audience) || audience == "internal"
  {
  }

  /** The heading of each audience. */
  lemma TitleExactly(audience: string)
    requires audience == "operators" || audience == "admins" || audience == "agent-authors"
    ensures SectionTitle(audience) == if audience == "operators" then "For operators"
                                      else if audience == "admins" then "For admins" else "For agent authors"
    ensures audience == Operators || audience == Admins || audience == AgentAuthors
  {
    AudiencesDiffer();
  }

  /** Each entry stands under the heading of its own audience: behind it come the entries for the same audience that are
    * listed before it, and nothing else.
    */
  lemma UnderItsHeading(items: seq<Fragment>, version: string, date: string, i: nat)
    returns (before: string, after: string)
    requires i < |items|
    requires var audience := items[i].audience;
             audience == Operators || audience == Admins || audience == AgentAuthors
    ensures var audience := items[i].audience;
            BlockText(items, version, date) ==
            before + ("### " + SectionTitle(audience) + "\n\n"
                      + (Entries(items[..i], audience) + (RenderEntry(items[i]) + "\n" + after)))
  {
    var audience := items[i].audience;
    SectionAround(items, i);
    var behind;
    before, behind := SectionInBlock(items, version, date, audience);
    after := Entries(items[i + 1..], audience) + behind;
    Reassociated(before, "### " + SectionTitle(audience), Entries(items[..i], audience), RenderEntry(items[i]) + "\n",
      Entries(items[i + 1..], audience), behind);
  }

  lemma SectionAround(items: seq<Fragment>, i: nat)
    requires i < |items|
    ensures var audience := items[i].audience;
            Section(items, audience) ==
            "### " + SectionTitle(audience) + "\n" + "\n"
            + (Entries(items[..i], audience) + (RenderEntry(items[i]) + "\n" + Entries(items[i + 1..], audience)))
  {
    EntriesAround(items, i);
  }

  lemma AudiencesDiffer()
    ensures "operators" != "admins" && "operators" != "agent-authors" && "admins" != "agent-authors"
    ensures Operators == "operators" && Admins == "admins" && AgentAuthors == "agent-authors" && Internal == "internal"
  {
    assert "operators"[0] == 'o' && "admins"[1] == 'd' && "agent-authors"[1] == 'g';
  }

  lemma Reassociated(before: string, title: string, a: string, entry: string, b: string, after: string)
    ensures before + (title + "\n" + "\n" + (a + (entry + b))) + after == before + (title + "\n\n" + (a + (entry + (b + after))))
  {
    assert title + "\n" + "\n" == title + "\n\n";
  }

  lemma EntriesAround(items: seq<Fragment>, i: nat)
    requires i < |items|
    ensures var audience := items[i].audience;
            Entries(items, audience) ==
            Entries(items[..i], audience) + (RenderEntry(items[i]) + "\n" + Entries(items[i + 1..], audience))
  {
    var audience := items[i].audience;
    Halves(items, i);
    EntriesAppend(items[..i], items[i..], audience);
    Drop(items, i);
  }

  lemma {:induction false} EntriesAppend(a: seq<Fragment>, b: seq<Fragment>, audience: string)
    ensures Entries(a + b, audience) == Entries(a, audience) + Entries(b, audience)
  {
    if a == [] {
      Nothing(b);
      Nothing(Entries(b, audience));
    } else {
      EntriesAppend(a[1..], b, audience);
      Front(a, b);
      Regroup(EntryFor(a[0], audience), Entries(a[1..], audience), Entries(b, audience));
    }
  }

  lemma SectionInBlock(items: seq<Fragment>, version: string, date: string, audience: string)
    returns (before: string, after: string)
    requires audience == Operators || audience == Admins || audience == AgentAuthors
    ensures BlockText(items, version, date) == before + Section(items, audience) + after
  {
    var h := Heading(version, date) + "\n" + "\n";
    var a, b, c := Section(items, Operators), Section(items, Admins), Section(items, AgentAuthors);
    Cuts(h, a, b, c);
    before := if audience == Operators then h else if audience == Admins then h + a else h + a + b;
    after := if audience == Operators then b + c else if audience == Admins then c else "";
  }

  lemma Cuts(h: string, a: string, b: string, c: string)
    ensures h + a + b + c == h + a + (b + c) && h + a + b + c == h + a + b + c + ""
  {
  }

  /** The sections come in the order operators, admins, agent authors, each only if a fragment is for it. */
  lemma SectionsInOrder(items: seq<Fragment>, version: string, date: string)
    ensures exists a, b, c ::
              && BlockText(items, version, date) == "## " + version + " \U{2014} " + date + "\n\n" + a + b + c
              && IsSection(items, "operators", "For operators", a) && IsSection(items, "admins", "For admins", b)
              && IsSection(items, "agent-authors", "For agent authors", c)
  {
    AudiencesDiffer();
    SectionStarts(items, Operators);
    SectionStarts(items, Admins);
    SectionStarts(items, AgentAuthors);
    var h := Heading(version, date);
    assert h + "\n" + "\n" == h + "\n\n";
    var a, b, c := Section(items, Operators), Section(items, Admins), Section(items, AgentAuthors);
    assert BlockText(items, version, date) == "## " + version + " \U{2014} " + date + "\n\n" + a + b + c;
  }

  ghost predicate IsSection(items: seq<Fragment>, audience: string, title: string, section: string) {
    if exists f :: f in items && f.audience == audience then "### " + title + "\n\n" <= section else section == ""
  }

  lemma SectionStarts(items: seq<Fragment>, audience: string)
    ensures IsSection(items, audience, SectionTitle(audience), Section(items, audience))
  {
    var title := "### " + SectionTitle(audience);
    assert title + "\n" + "\n" == title + "\n\n";
    if HasAudience(items, audience) {
      var i :| 0 <= i < |items| && items[i].audience == audience;
      assert items[i] in items;
      Parts(title + "\n\n", Entries(items, audience));
    }
  }
}
