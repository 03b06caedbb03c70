/** What the textual rewrite of `fallbacks:` keys keeps, and why doing it twice changes nothing more
  * (scripts/set-fleet-model.py:139-233).
  */
module FleetRewriterLaws {
  import opened Wrappers
  import opened Sequences
  import opened Text
  import opened Lines
  import opened FleetRewriter
  import opened FleetReader
  import opened FleetLines

  /** No model id breaks a line or closes a flow list. */
  ghost predicate Usable(chain: seq<string>) {
    forall value | value in chain :: NoBreak(value) && ']' !in value
  }

  /** Every line has one line break, at its end, and is not ended by a bare `\r`. */
  ghost predicate Proper(lines: seq<string>) {
    forall line | line in lines :: Terminated(line)
  }

  // ----- Rendered lines -----

  lemma {:induction false} EscapeChars(value: string)
    ensures forall c | c in Escape(value) :: c in value || c == '\\'
  {
    if value != "" {
      EscapeChars(value[1..]);
      assert value[0] in value && forall c | c in value[1..] :: c in value;
    }
  }

  lemma RenderChars(value: string, flow: bool)
    requires NoBreak(value)
    ensures Render(value, flow) != "" && NoBreak(Render(value, flow))
    ensures ']' !in value ==> ']' !in Render(value, flow)
  {
    EscapeChars(value);
  }

  lemma {:induction false} FlowChars(chain: seq<string>)
    requires Usable(chain)
    ensures NoBreak(FlowItems(chain)) && ']' !in FlowItems(chain)
  {
    if chain != [] {
      RenderChars(chain[0], true);
      FlowChars(chain[1..]);
    }
  }

  /** What `_INLINE_LIST` makes of a rendered list. */
  lemma InlineCommentOf(items: string, comment: string)
    requires ']' !in items && (comment == "" || comment[0] == '#')
    ensures InlineComment(" [" + items + "]" + if comment == "" then "" else "  " + comment) == Some(comment)
  {
    var tail := if comment == "" then "" else "  " + comment;
    var rest := " [" + items + "]" + tail;
    SpacesIs(rest, 1);
    assert rest[1..][1..] == items + "]" + tail;
    BracketAfter(items, tail);
    SpacesIs(tail, if comment == "" then 0 else 2);
  }

  /** A key line whose value is a rendered list does not open a block scalar. */
  lemma NotScalar(rest: string)
    requires |rest| > 1 && rest[0] == ' ' && rest[1] == '['
    ensures !OpensScalarAt(KEY + rest)
  {
    var r := KEY + rest;
    assert r[1..] == "allbacks:" + rest;
    ColonAfter("allbacks", rest);
    assert "allbacks:" + rest == "allbacks" + ":" + rest;
    LeadIs(rest, 1);
  }

  lemma KeyBody(indent: string, rest: string)
    requires Blanks(indent)
    ensures var body := indent + (KEY + rest);
            && Lead(body) == |indent| && body[Lead(body)..] == KEY + rest && body[..Lead(body)] == indent
            && KeyRest(body) == Some(rest) && !IsBlank(body) && body[|indent|] == 'f'
  {
    var body := indent + (KEY + rest);
    assert (KEY + rest)[0] == 'f';
    LeadIs(body, |indent|);
    assert body[|indent|..] == KEY + rest && body[..|indent|] == indent;
    assert (KEY + rest)[|KEY|..] == rest && (KEY + rest)[..|KEY|] == KEY;
    assert body[|indent|] in body;
  }

  lemma InlineReads(indent: string, chain: seq<string>, comment: string)
    requires Blanks(indent) && Usable(chain)
    ensures InlineChain(indent + (KEY + InlineRest(chain, comment))) == Some(chain)
  {
    var rest := InlineRest(chain, comment);
    KeyBody(indent, rest);
    FlowChars(chain);
    InlineItemsOf(FlowItems(chain), if comment == "" then "" else "  " + comment);
    FlowReads(chain);
  }

  lemma InlineBody(indent: string, chain: seq<string>, comment: string)
    requires Blanks(indent) && Usable(chain) && (comment == "" || comment[0] == '#')
    ensures Classify(indent + (KEY + InlineRest(chain, comment))) == InlineKey(comment)
  {
    var rest := InlineRest(chain, comment);
    FlowChars(chain);
    KeyBody(indent, rest);
    NotScalar(rest);
    InlineCommentOf(FlowItems(chain), comment);
    assert (KEY + rest)[0] == 'f';
  }

  lemma InlineChars(indent: string, chain: seq<string>, comment: string)
    requires Blanks(indent) && Usable(chain) && NoBreak(comment)
    ensures NoBreak(indent + (KEY + InlineRest(chain, comment)))
  {
    FlowChars(chain);
    assert NoBreak(InlineRest(chain, comment));
    assert NoBreak(KEY) && NoBreak(indent);
  }

  lemma BodyOfUnbroken(body: string, eol: string)
    requires NoBreak(body) && IsEol(eol)
    ensures Body(body + eol) == body && Eol(body + eol) == eol && Terminated(body + eol)
  {
    assert body != "" ==> body[|body| - 1] in body;
    BodyOf(body, eol);
  }

  /** The rewritten inline line is a line, with the same indentation and terminator, and is recognised
    * as an inline key with the same comment.
    */
  lemma InlineLineIs(indent: string, chain: seq<string>, comment: string, eol: string)
    requires Blanks(indent) && Usable(chain) && IsEol(eol)
    requires comment == "" || (comment[0] == '#' && NoBreak(comment))
    ensures var line := InlineLine(indent, chain, comment, eol);
            && Terminated(line) && Eol(line) == eol
            && Indent(line) == indent && !IsBlank(Body(line)) && !IsItem(line) && !IsComment(line)
            && Classify(Body(line)) == InlineKey(comment) && InlineChain(Body(line)) == Some(chain)
  {
    InlineReads(indent, chain, comment);
    InlineChars(indent, chain, comment);
    BodyOfUnbroken(indent + (KEY + InlineRest(chain, comment)), eol);
    KeyBody(indent, InlineRest(chain, comment));
    InlineBody(indent, chain, comment);
  }

  lemma NewItemIs(indent: string, value: string, eol: string)
    requires Blanks(indent) && indent != "" && NoBreak(value) && IsEol(eol)
    ensures var line := NewItem(indent, value, eol);
            && Terminated(line) && IsItem(line) && !IsComment(line) && Indent(line) == indent
            && ReadItem(ItemText(line)) == Some(value)
  {
    RenderChars(value, false);
    var body := indent + ("- " + Render(value, false));
    var line := NewItem(indent, value, eol);
    assert NoBreak(body);
    BodyOfUnbroken(body, eol);
    LeadIs(body, |indent|);
    assert body[|indent|] == '-' && body[..|indent|] == indent;
    NewItemReads(indent, value, eol);
  }

  // ----- Where groups end -----

  lemma {:induction false} GroupStops(group: seq<string>, rest: seq<string>, width: nat)
    requires forall line | line in group :: InGroup(line, width)
    requires rest == [] || !InGroup(rest[0], width)
    ensures GroupEnd(group + rest, width) == |group|
  {
    if group == [] {
      assert group + rest == rest;
    } else {
      GroupStops(group[1..], rest, width);
      assert (group + rest)[1..] == group[1..] + rest;
    }
  }

  lemma {:induction false} ScalarStops(block: seq<string>, rest: seq<string>, width: nat)
    requires forall line | line in block :: InScalar(line, width)
    requires rest == [] || !InScalar(rest[0], width)
    ensures ScalarEnd(block + rest, width) == |block|
  {
    if block == [] {
      assert block + rest == rest;
    } else {
      ScalarStops(block[1..], rest, width);
      assert (block + rest)[1..] == block[1..] + rest;
    }
  }

  lemma {:induction false} GroupLines(lines: seq<string>, width: nat)
    ensures forall line | line in lines[..GroupEnd(lines, width)] :: InGroup(line, width)
    ensures var n := GroupEnd(lines, width); n < |lines| ==> !InGroup(lines[n], width)
  {
    if lines != [] && InGroup(lines[0], width) {
      GroupLines(lines[1..], width);
      var n := GroupEnd(lines, width);
      assert lines[..n] == [lines[0]] + lines[1..][..n - 1];
    }
  }

  lemma {:induction false} ScalarLines(lines: seq<string>, width: nat)
    ensures forall line | line in lines[..ScalarEnd(lines, width)] :: InScalar(line, width)
    ensures var n := ScalarEnd(lines, width); n < |lines| ==> !InScalar(lines[n], width)
  {
    if lines != [] && InScalar(lines[0], width) {
      ScalarLines(lines[1..], width);
      var n := ScalarEnd(lines, width);
      assert lines[..n] == [lines[0]] + lines[1..][..n - 1];
    }
  }

  // ----- Inside a group -----

  ghost predicate AllComments(lines: seq<string>) {
    forall line | line in lines :: !IsItem(line)
  }

  ghost predicate AllItems(lines: seq<string>, indent: string) {
    forall line | line in lines :: IsItem(line) && Indent(line) == indent
  }

  lemma {:induction false} CommentsOf(group: seq<string>)
    ensures forall line | line in OnlyComments(group) :: line in group && !IsItem(line)
    ensures OnlyComments(group) == LeadComments(group) + TailComments(group)
  {
    if group != [] {
      CommentsOf(group[1..]);
      Uncons(group);
      if IsItem(group[0]) {
        Nothing(OnlyComments(group[1..]));
      } else {
        Regroup([group[0]], LeadComments(group[1..]), TailComments(group[1..]));
      }
    }
  }

  lemma LeadAndTail(group: seq<string>)
    ensures forall line | line in LeadComments(group) + TailComments(group) :: line in group && !IsItem(line)
    ensures AllComments(LeadComments(group)) && AllComments(TailComments(group))
    ensures OnlyComments(group) == LeadComments(group) + TailComments(group)
  {
    CommentsOf(group);
    assert forall line | line in LeadComments(group) :: line in LeadComments(group) + TailComments(group);
    assert forall line | line in TailComments(group) :: line in LeadComments(group) + TailComments(group);
  }

  lemma {:induction false} OnlyOfComments(lines: seq<string>)
    requires AllComments(lines)
    ensures OnlyComments(lines) == lines && LeadComments(lines) == lines && TailComments(lines) == []
  {
    if lines != [] {
      OnlyOfComments(lines[1..]);
      assert lines[0] in lines && lines == [lines[0]] + lines[1..];
    }
  }

  lemma {:induction false} OnlySkips(items: seq<string>, tail: seq<string>, indent: string)
    requires AllItems(items, indent) && AllComments(tail)
    ensures OnlyComments(items + tail) == tail
  {
    if items == [] {
      OnlyOfComments(tail);
      assert items + tail == tail;
    } else {
      OnlySkips(items[1..], tail, indent);
      assert (items + tail)[1..] == items[1..] + tail && items[0] in items;
    }
  }

  lemma {:induction false} SplitsAt(lead: seq<string>, items: seq<string>, tail: seq<string>, indent: string)
    requires AllComments(lead) && AllItems(items, indent) && AllComments(tail) && items != []
    ensures LeadComments(lead + items + tail) == lead && TailComments(lead + items + tail) == tail
  {
    var group := lead + items + tail;
    if lead == [] {
      assert group[0] == items[0] && items[0] in items && group[1..] == items[1..] + tail;
      OnlySkips(items[1..], tail, indent);
    } else {
      SplitsAt(lead[1..], items, tail, indent);
      assert group[0] == lead[0] && lead[0] in lead && group[1..] == lead[1..] + items + tail;
      assert lead == [lead[0]] + lead[1..];
    }
  }

  lemma {:induction false} LastItemIndent(before: seq<string>, items: seq<string>, tail: seq<string>, indent: string, default: string)
    requires AllItems(items, indent) && AllComments(tail) && items != []
    ensures ItemIndent(before + items + tail, default) == indent
  {
    var group := before + items + tail;
    if tail == [] {
      assert group[|group| - 1] == items[|items| - 1] && items[|items| - 1] in items;
    } else {
      LastItemIndent(before, items, tail[..|tail| - 1], indent, default);
      assert group[..|group| - 1] == before + items + tail[..|tail| - 1];
      assert group[|group| - 1] == tail[|tail| - 1] && tail[|tail| - 1] in tail;
    }
  }

  lemma {:induction false} ItemIndentDeeper(group: seq<string>, default: string, width: nat)
    requires forall line | line in group :: InGroup(line, width)
    requires Blanks(default) && |default| > width
    ensures Blanks(ItemIndent(group, default)) && |ItemIndent(group, default)| > width
  {
    if group != [] {
      var last := group[|group| - 1];
      assert last in group;
      if !IsItem(last) {
        ItemIndentDeeper(group[..|group| - 1], default, width);
      }
    }
  }

  /** The new lines of a group: all still in the group, and grouping them again changes nothing. */
  lemma NewGroupStays(group: seq<string>, chain: seq<string>, indent: string, eol: string)
    requires Proper(group) && Usable(chain) && Blanks(indent) && IsEol(eol)
    requires forall line | line in group :: InGroup(line, |indent|)
    ensures var out := NewGroup(group, chain, indent, eol);
            && Proper(out) && (forall line | line in out :: InGroup(line, |indent|))
            && OnlyComments(out) == OnlyComments(group)
            && (chain != [] ==> NewGroup(out, chain, indent, eol) == out)
            && ReadItems(out) == Some(chain)
  {
    var ii := ItemIndent(group, indent + "  ");
    LeadAndTail(group);
    ItemIndentDeeper(group, indent + "  ", |indent|);
    NewItemsAre(chain, ii, eol);
    Restacked(LeadComments(group), NewItems(chain, ii, eol), TailComments(group), ii, chain);
    NewLinesStay(group, chain, indent, eol, ii);
    if chain != [] {
      SplitsAt(LeadComments(group), NewItems(chain, ii, eol), TailComments(group), ii);
      LastItemIndent(LeadComments(group), NewItems(chain, ii, eol), TailComments(group), ii, indent + "  ");
    }
  }

  /** Comments, items, comments: what the comments and the items are, taken alone. */
  lemma Restacked(lead: seq<string>, items: seq<string>, tail: seq<string>, indent: string, chain: seq<string>)
    requires AllComments(lead) && AllItems(items, indent) && AllComments(tail) && |items| == |chain|
    requires forall i | 0 <= i < |items| :: IsItem(items[i]) && ReadItem(ItemText(items[i])) == Some(chain[i])
    ensures OnlyComments(lead + items + tail) == lead + tail && ReadItems(lead + items + tail) == Some(chain)
  {
    Regroup(lead, items, tail);
    ItemsRead(items, chain, tail);
    CommentsReadAway(lead, items + tail);
    OnlyAppends(lead, items + tail);
    OnlySkips(items, tail, indent);
    OnlyOfComments(lead);
  }

  lemma NewLinesStay(group: seq<string>, chain: seq<string>, indent: string, eol: string, ii: string)
    requires Proper(group) && (forall line | line in group :: InGroup(line, |indent|))
    requires ii == ItemIndent(group, indent + "  ") && |ii| > |indent|
    requires AllItems(NewItems(chain, ii, eol), ii) && Proper(NewItems(chain, ii, eol))
    ensures var out := NewGroup(group, chain, indent, eol);
            Proper(out) && forall line | line in out :: InGroup(line, |indent|)
  {
    var lead, items, tail := LeadComments(group), NewItems(chain, ii, eol), TailComments(group);
    LeadAndTail(group);
    forall line | line in lead + items + tail ensures Terminated(line) && InGroup(line, |indent|) {
      if line in items {
        assert Width(line) == |ii|;
      } else {
        assert line in lead + tail;
      }
    }
  }

  lemma NewItemsAre(chain: seq<string>, indent: string, eol: string)
    requires Usable(chain) && Blanks(indent) && indent != "" && IsEol(eol)
    ensures AllItems(NewItems(chain, indent, eol), indent) && Proper(NewItems(chain, indent, eol))
    ensures forall i | 0 <= i < |chain| ::
              var line := NewItems(chain, indent, eol)[i]; IsItem(line) && ReadItem(ItemText(line)) == Some(chain[i])
  {
    var items := NewItems(chain, indent, eol);
    forall i | 0 <= i < |chain| ensures IsItem(items[i]) && ReadItem(ItemText(items[i])) == Some(chain[i]) {
      NewItemIs(indent, chain[i], eol);
    }
    forall line | line in items ensures Terminated(line) && IsItem(line) && Indent(line) == indent {
      var i :| 0 <= i < |items| && items[i] == line;
      NewItemIs(indent, chain[i], eol);
    }
  }

  // ----- Key lines -----

  lemma KeyHead(raw: string)
    requires MatchesKey(raw)
    ensures Blanks(Indent(raw)) && !IsItem(raw) && !IsComment(raw) && !IsBlank(Body(raw))
  {
    var r := Body(raw)[Width(raw)..];
    assert r[0] == r[..|KEY|][0] == 'f';
    assert Body(raw)[Width(raw)] == 'f' && Body(raw)[Width(raw)] in Body(raw);
  }

  /** The comment of an inline list starts with `#` and comes from the line. */
  lemma InlineNote(rest: string)
    requires InlineComment(rest).Some? && Nearly(rest)
    ensures var c := InlineComment(rest).value; Nearly(c) && (c == "" || c[0] == '#')
  {
    var r := rest[Spaces(rest)..];
    AfterBracketSuffix(r[1..]);
    assert Nearly(r) && Nearly(r[1..]);
  }

  lemma {:induction false} AfterBracketSuffix(s: string)
    requires Nearly(s) && AfterBracket(s).Some?
    ensures Nearly(AfterBracket(s).value)
  {
    assert forall i | 0 <= i < |s[1..]| :: s[1..][i] == s[i + 1];
    if s[0] != ']' {
      AfterBracketSuffix(s[1..]);
    }
  }

  lemma {:induction false} AfterBracketIs(s: string)
    requires AfterBracket(s).Some?
    ensures var t := AfterBracket(s).value; |t| <= |s| && t == s[|s| - |t|..]
  {
    if s[0] != ']' {
      AfterBracketIs(s[1..]);
    }
  }

  lemma InlineNoteEnds(rest: string)
    requires InlineComment(rest).Some? && InlineComment(rest).value != ""
    ensures var c := InlineComment(rest).value; |rest| > 0 && c[|c| - 1] == rest[|rest| - 1]
  {
    var r := rest[Spaces(rest)..];
    AfterBracketIs(r[1..]);
  }

  /** What a key line says behind its chain: a comment, which for a block key never holds a line break. */
  lemma KeyNotes(raw: string)
    requires Terminated(raw) && (Classify(Body(raw)).InlineKey? || Classify(Body(raw)).BlockKey?)
    ensures MatchesKey(raw)
    ensures var kind := Classify(Body(raw));
            var note := if kind.InlineKey? then kind.comment else kind.note;
            && (note == "" || note[0] == '#') && Nearly(note) && (kind.BlockKey? ==> NoBreak(note))
  {
    TerminatedParts(raw);
    var rest := KeyRest(Body(raw)).value;
    NearlyRest(Body(raw), Width(raw));
    NearlyRest(Body(raw)[Width(raw)..], |KEY|);
    if InlineComment(rest).Some? {
      InlineNote(rest);
    } else {
      StripUnbroken(rest);
    }
  }

  lemma NearlyRest(s: string, n: nat)
    requires Nearly(s) && n <= |s|
    ensures Nearly(s[n..])
  {
  }

  lemma HashIsOther(body: string)
    requires body[Lead(body)..] != "" && body[Lead(body)..][0] == '#'
    ensures !OpensScalar(body) && KeyRest(body).None?
  {
  }

  lemma CommentIsOther(line: string)
    requires IsComment(line)
    ensures Classify(Body(line)) == Other
  {
    HashIsOther(Body(line));
  }

  lemma ItemIsNoKey(line: string)
    requires IsItem(line) || IsComment(line)
    ensures !MatchesKey(line)
  {
    var r := Body(line)[Width(line)..];
    assert r[0] != 'f';
  }

  // ----- One chunk after another -----

  /** What is left of a text once the chains are taken out: every other line, and where each chain was. */
  datatype Piece = Kept(line: string) | Chain(indent: string, note: string)

  function KeptAll(lines: seq<string>): seq<Piece> {
    seq(|lines|, i requires 0 <= i < |lines| => Kept(lines[i]))
  }

  function ChunkSkeleton(chunk: seq<string>): seq<Piece>
    requires chunk != []
  {
    match Classify(Body(chunk[0]))
    case InlineKey(comment) => [Chain(Indent(chunk[0]), comment)]
    case BlockKey(note) => [Chain(Indent(chunk[0]), note)] + KeptAll(OnlyComments(chunk[1..]))
    case _ => KeptAll(chunk)
  }

  function Skeleton(lines: seq<string>): seq<Piece> {
    if lines == [] then [] else
      var n := ChunkLength(lines);
      ChunkSkeleton(lines[..n]) + Skeleton(lines[n..])
  }

  /** The chains that the handled keys carry, top to bottom; `None` for one that does not read back. */
  function Chains(lines: seq<string>): seq<Option<seq<string>>> {
    if lines == [] then [] else
      var n := ChunkLength(lines);
      ChunkChains(lines[..n]) + Chains(lines[n..])
  }

  /** What the chunk's key, if it has one that is handled, ought to carry. */
  function Wanted(chunk: seq<string>, chain: seq<string>): seq<Option<seq<string>>>
    requires chunk != []
  {
    var kind := Classify(Body(chunk[0]));
    if kind.InlineKey? || kind.BlockKey? then [Some(chain)] else []
  }

  /** Everything one pass over some lines finds and makes. */
  datatype View =
    View(out: seq<string>, changed: bool, tally: Tally, skeleton: seq<Piece>, chains: seq<Option<seq<string>>>)

  function Join(a: View, b: View): View {
    View(a.out + b.out, a.changed || b.changed, Add(a.tally, b.tally), a.skeleton + b.skeleton, a.chains + b.chains)
  }

  function ChunkView(chunk: seq<string>, chain: seq<string>): View
    requires chunk != []
  {
    View(ChunkOut(chunk, chain), Differs(chunk, chain), ChunkTally(chunk), ChunkSkeleton(chunk), ChunkChains(chunk))
  }

  function ViewOf(lines: seq<string>, chain: seq<string>): View {
    if lines == [] then View([], false, Tally(0, 0, 0), [], []) else
      var n := ChunkLength(lines);
      Join(ChunkView(lines[..n], chain), ViewOf(lines[n..], chain))
  }

  lemma {:induction false} ViewIs(lines: seq<string>, chain: seq<string>)
    ensures ViewOf(lines, chain) ==
            View(Rewritten(lines, chain), Changed(lines, chain), TallyOf(lines), Skeleton(lines), Chains(lines))
  {
    if lines != [] {
      ViewIs(lines[ChunkLength(lines)..], chain);
    }
  }

  lemma JoinAssociative(a: View, b: View, c: View)
    ensures Join(Join(a, b), c) == Join(a, Join(b, c))
  {
    assert a.out + b.out + c.out == a.out + (b.out + c.out);
    assert a.chains + b.chains + c.chains == a.chains + (b.chains + c.chains);
    assert a.skeleton + b.skeleton + c.skeleton == a.skeleton + (b.skeleton + c.skeleton);
  }

  lemma Unfold(chunk: seq<string>, rest: seq<string>, chain: seq<string>)
    requires chunk != [] && ChunkLength(chunk + rest) == |chunk|
    ensures ViewOf(chunk + rest, chain) == Join(ChunkView(chunk, chain), ViewOf(rest, chain))
  {
    var lines := chunk + rest;
    assert lines[..|chunk|] == chunk && lines[|chunk|..] == rest;
  }

  /** Two lines that end, or do not end, the same groups. */
  ghost predicate SameHead(a: string, b: string) {
    && Width(a) == Width(b) && IsBlank(Body(a)) == IsBlank(Body(b))
    && IsItem(a) == IsItem(b) && IsComment(a) == IsComment(b)
  }

  ghost predicate SameStart(a: seq<string>, b: seq<string>) {
    (a == [] <==> b == []) && (a != [] ==> SameHead(a[0], b[0]))
  }

  /** The view of lines in which `out` took the place of `chunk`: nothing more to change. */
  function Settled(chunk: seq<string>, out: seq<string>, chain: seq<string>): View
    requires chunk != []
  {
    View(out, false, ChunkTally(chunk), ChunkSkeleton(chunk), Wanted(chunk, chain))
  }

  /** `out` takes the place of `chunk` before any `rest` that starts like what followed `chunk`: reading it
    * again finds the same keys with the chain they should carry, keeps the same lines and changes nothing.
    */
  ghost predicate Settles(chunk: seq<string>, out: seq<string>, rest: seq<string>, chain: seq<string>)
    requires chunk != []
  {
    && out != [] && Proper(out) && SameHead(chunk[0], out[0])
    && ViewOf(out + rest, chain) == Join(Settled(chunk, out, chain), ViewOf(rest, chain))
  }

  lemma SettlesAlone(chunk: seq<string>, out: seq<string>, rest: seq<string>, chain: seq<string>)
    requires chunk != [] && out != [] && Proper(out) && SameHead(chunk[0], out[0])
    requires ChunkLength(out + rest) == |out| && ChunkOut(out, chain) == out
    requires ChunkTally(out) == ChunkTally(chunk) && ChunkSkeleton(out) == ChunkSkeleton(chunk)
    requires ChunkChains(out) == Wanted(chunk, chain)
    ensures Settles(chunk, out, rest, chain)
  {
    Unfold(out, rest, chain);
  }

  lemma ScalarChunk(raw: string, block: seq<string>, rest: seq<string>, chain: seq<string>)
    requires Classify(Body(raw)) == ScalarOpener
    requires forall line | line in block :: InScalar(line, Width(raw))
    requires rest == [] || !InScalar(rest[0], Width(raw))
    ensures ChunkLength([raw] + block + rest) == 1 + |block|
    ensures ChunkOut([raw] + block, chain) == [raw] + block
    ensures ChunkChains([raw] + block) == [] == Wanted([raw] + block, chain)
  {
    ScalarStops(block, rest, Width(raw));
    Regroup([raw], block, rest);
    assert ([raw] + (block + rest))[1..] == block + rest && ([raw] + (block + rest))[0] == raw;
    assert ([raw] + block)[0] == raw;
  }

  lemma ScalarSettles(lines: seq<string>, rest: seq<string>, chain: seq<string>)
    requires lines != [] && Proper(lines) && Classify(Body(lines[0])) == ScalarOpener
    requires SameStart(lines[ChunkLength(lines)..], rest)
    ensures Settles(lines[..ChunkLength(lines)], lines[..ChunkLength(lines)], rest, chain)
  {
    var n, w := ChunkLength(lines), Width(lines[0]);
    var chunk := lines[..n];
    ScalarLines(lines[1..], w);
    assert chunk[1..] == lines[1..][..n - 1];
    assert n < |lines| ==> lines[n..][0] == lines[1..][n - 1];
    Uncons(chunk);
    ScalarChunk(lines[0], chunk[1..], rest, chain);
    SettlesAlone(chunk, chunk, rest, chain);
  }

  /** An inline key as it stands. */
  lemma InlineChunk(line: string, rest: seq<string>, comment: string)
    requires Classify(Body(line)) == InlineKey(comment)
    ensures ChunkLength([line] + rest) == 1
    ensures ChunkTally([line]) == Tally(0, 1, 0) && ChunkSkeleton([line]) == [Chain(Indent(line), comment)]
    ensures ChunkChains([line]) == [InlineChain(Body(line))]
  {
    assert ([line] + rest)[0] == line;
  }

  lemma NewInlineKey(raw: string, comment: string, chain: seq<string>) returns (line: string)
    requires Classify(Body(raw)) == InlineKey(comment) && NoBreak(comment) && Terminated(raw) && Usable(chain)
    ensures ChunkOut([raw], chain) == [line] && Terminated(line) && SameHead(raw, line)
    ensures Classify(Body(line)) == InlineKey(comment) && ChunkOut([line], chain) == [line]
    ensures Indent(line) == Indent(raw) && InlineChain(Body(line)) == Some(chain)
  {
    line := InlineLine(Indent(raw), chain, comment, Eol(raw));
    KeyNotes(raw);
    KeyHead(raw);
    TerminatedParts(raw);
    InlineLineIs(Indent(raw), chain, comment, Eol(raw));
  }

  lemma InlineSettles(raw: string, comment: string, rest: seq<string>, chain: seq<string>)
    requires Terminated(raw) && Usable(chain) && Classify(Body(raw)) == InlineKey(comment) && NoBreak(comment)
    ensures Settles([raw], ChunkOut([raw], chain), rest, chain)
  {
    var line := NewInlineKey(raw, comment, chain);
    InlineChunk(line, rest, comment);
    InlineChunk(raw, rest, comment);
    SettlesAlone([raw], [line], rest, chain);
  }

  lemma PlainChunk(raw: string, rest: seq<string>, chain: seq<string>)
    requires Classify(Body(raw)).Unhandled? || Classify(Body(raw)).Other?
    ensures ChunkLength([raw] + rest) == 1 && ChunkOut([raw], chain) == [raw]
    ensures ChunkChains([raw]) == [] == Wanted([raw], chain)
  {
    assert ([raw] + rest)[0] == raw;
  }

  lemma SingleSettles(raw: string, rest: seq<string>, chain: seq<string>)
    requires Terminated(raw) && (Classify(Body(raw)).Unhandled? || Classify(Body(raw)).Other?)
    ensures Settles([raw], ChunkOut([raw], chain), rest, chain)
  {
    PlainChunk(raw, rest, chain);
    SettlesAlone([raw], [raw], rest, chain);
  }

  /** The view of lines that are handed on one by one. */
  function Passed(lines: seq<string>): View {
    View(lines, false, Tally(0, 0, 0), KeptAll(lines), [])
  }

  lemma PassedFirst(line: string, more: seq<string>)
    ensures Passed([line] + more) == Join(Passed([line]), Passed(more))
  {
  }

  lemma CommentChunk(line: string, rest: seq<string>, chain: seq<string>)
    requires IsComment(line)
    ensures ChunkLength([line] + rest) == 1
    ensures ChunkView([line], chain) == Passed([line])
  {
    CommentIsOther(line);
    assert ([line] + rest)[0] == line;
  }

  lemma {:induction false} CommentsPass(comments: seq<string>, rest: seq<string>, chain: seq<string>)
    requires forall line | line in comments :: IsComment(line)
    ensures ViewOf(comments + rest, chain) == Join(Passed(comments), ViewOf(rest, chain))
  {
    if comments == [] {
      assert comments + rest == rest;
    } else {
      var first, more := comments[0], comments[1..];
      CommentChunk(first, more + rest, chain);
      Unfold([first], more + rest, chain);
      CommentsPass(more, rest, chain);
      Uncons(comments);
      Regroup([first], more, rest);
      PassedFirst(first, more);
      JoinAssociative(Passed([first]), Passed(more), ViewOf(rest, chain));
    }
  }

  lemma BlockSettles(lines: seq<string>, rest: seq<string>, chain: seq<string>)
    requires lines != [] && Proper(lines) && Usable(chain) && Classify(Body(lines[0])).BlockKey?
    requires SameStart(lines[ChunkLength(lines)..], rest)
    ensures Settles(lines[..ChunkLength(lines)], ChunkOut(lines[..ChunkLength(lines)], chain), rest, chain)
  {
    var raw, chunk := lines[0], lines[..ChunkLength(lines)];
    KeyNotes(raw);
    KeyHead(raw);
    TerminatedParts(raw);
    BlockLines(lines);
    NewGroupStays(chunk[1..], chain, Indent(raw), Eol(raw));
    var newGroup := NewGroup(chunk[1..], chain, Indent(raw), Eol(raw));
    if chain != [] {
      KeptBlockSettles(chunk, newGroup, rest, chain);
    } else {
      CollapsedBlockSettles(chunk, newGroup, rest);
    }
  }

  /** The lines of a block sequence below its key, and the line that ends it. */
  lemma BlockLines(lines: seq<string>)
    requires lines != [] && Classify(Body(lines[0])).BlockKey?
    ensures var (n, w) := (ChunkLength(lines), Width(lines[0]));
            && (forall line | line in lines[..n][1..] :: InGroup(line, w) && line in lines)
            && (n < |lines| ==> !InGroup(lines[n], w))
  {
    var n := ChunkLength(lines);
    GroupLines(lines[1..], Width(lines[0]));
    assert lines[..n][1..] == lines[1..][..n - 1];
  }

  /** A block sequence as it stands: a key line, and below it a group that another pass leaves alone. */
  lemma BlockChunk(raw: string, group: seq<string>, rest: seq<string>, chain: seq<string>)
    requires Classify(Body(raw)).BlockKey? && chain != []
    requires forall line | line in group :: InGroup(line, Width(raw))
    requires rest == [] || !InGroup(rest[0], Width(raw))
    ensures ChunkLength([raw] + group + rest) == 1 + |group|
    ensures ChunkOut([raw] + group, chain) == [raw] + NewGroup(group, chain, Indent(raw), Eol(raw))
    ensures ChunkTally([raw] + group) == Tally(0, 1, 0) && ChunkChains([raw] + group) == [ReadItems(group)]
  {
    GroupStops(group, rest, Width(raw));
    Regroup([raw], group, rest);
    assert ([raw] + (group + rest))[1..] == group + rest && ([raw] + (group + rest))[0] == raw;
    assert ([raw] + group)[1..] == group && ([raw] + group)[0] == raw;
  }

  lemma BlockSkeleton(raw: string, group: seq<string>)
    requires Classify(Body(raw)).BlockKey?
    ensures ChunkSkeleton([raw] + group) == [Chain(Indent(raw), Classify(Body(raw)).note)] + KeptAll(OnlyComments(group))
  {
    assert ([raw] + group)[1..] == group && ([raw] + group)[0] == raw;
  }

  lemma KeptBlockSettles(chunk: seq<string>, newGroup: seq<string>, rest: seq<string>, chain: seq<string>)
    requires chunk != [] && chain != [] && Classify(Body(chunk[0])).BlockKey? && Terminated(chunk[0])
    requires newGroup == NewGroup(chunk[1..], chain, Indent(chunk[0]), Eol(chunk[0]))
    requires Proper(newGroup) && (forall line | line in newGroup :: InGroup(line, Width(chunk[0])))
    requires rest == [] || !InGroup(rest[0], Width(chunk[0]))
    requires NewGroup(newGroup, chain, Indent(chunk[0]), Eol(chunk[0])) == newGroup && ReadItems(newGroup) == Some(chain)
    requires OnlyComments(newGroup) == OnlyComments(chunk[1..])
    requires forall line | line in chunk[1..] :: InGroup(line, Width(chunk[0]))
    ensures Settles(chunk, ChunkOut(chunk, chain), rest, chain)
  {
    var raw, group := chunk[0], chunk[1..];
    Uncons(chunk);
    BlockChunk(raw, group, [], chain);
    BlockChunk(raw, newGroup, rest, chain);
    BlockSkeleton(raw, group);
    BlockSkeleton(raw, newGroup);
    KeyFirst(raw, newGroup);
    SettlesAlone(chunk, [raw] + newGroup, rest, chain);
  }

  lemma KeyFirst(raw: string, group: seq<string>)
    requires Terminated(raw) && Proper(group)
    ensures Proper([raw] + group) && ([raw] + group)[0] == raw
  {
  }

  lemma CollapsedView(chunk: seq<string>, key: string, group: seq<string>, note: string)
    requires chunk != [] && Classify(Body(key)) == InlineKey(note) && ChunkOut([key], []) == [key]
    requires ChunkTally(chunk) == Tally(0, 1, 0) && ChunkSkeleton(chunk) == [Chain(Indent(key), note)] + KeptAll(group)
    requires InlineChain(Body(key)) == Some([]) && Wanted(chunk, []) == [Some([])]
    ensures Settled(chunk, [key] + group, []) == Join(ChunkView([key], []), Passed(group))
  {
    InlineChunk(key, [], note);
  }

  lemma SettlesInTwo(chunk: seq<string>, key: string, group: seq<string>, rest: seq<string>, note: string)
    requires chunk != [] && Terminated(key) && Proper(group) && SameHead(chunk[0], key)
    requires Classify(Body(key)) == InlineKey(note) && ChunkOut([key], []) == [key]
    requires ViewOf(group + rest, []) == Join(Passed(group), ViewOf(rest, []))
    requires ChunkTally(chunk) == Tally(0, 1, 0) && ChunkSkeleton(chunk) == [Chain(Indent(key), note)] + KeptAll(group)
    requires InlineChain(Body(key)) == Some([]) && Wanted(chunk, []) == [Some([])]
    ensures Settles(chunk, [key] + group, rest, [])
  {
    InlineChunk(key, group + rest, note);
    Unfold([key], group + rest, []);
    Regroup([key], group, rest);
    CollapsedView(chunk, key, group, note);
    JoinAssociative(ChunkView([key], []), Passed(group), ViewOf(rest, []));
  }

  lemma CollapsedKey(raw: string, note: string) returns (key: string)
    requires Classify(Body(raw)) == BlockKey(note) && Terminated(raw)
    ensures key == InlineLine(Indent(raw), [], note, Eol(raw))
    ensures Terminated(key) && SameHead(raw, key) && Classify(Body(key)) == InlineKey(note)
    ensures ChunkOut([key], []) == [key] && Indent(key) == Indent(raw) && InlineChain(Body(key)) == Some([])
  {
    KeyNotes(raw);
    KeyHead(raw);
    TerminatedParts(raw);
    InlineLineIs(Indent(raw), [], note, Eol(raw));
    key := InlineLine(Indent(raw), [], note, Eol(raw));
  }

  lemma CollapsedOut(raw: string, note: string, group: seq<string>, key: string)
    requires Classify(Body(raw)) == BlockKey(note)
    requires key == InlineLine(Indent(raw), [], note, Eol(raw))
    ensures ChunkOut([raw] + group, []) == [key] + NewGroup(group, [], Indent(raw), Eol(raw))
    ensures ChunkTally([raw] + group) == Tally(0, 1, 0) && Wanted([raw] + group, []) == [Some([])]
  {
    assert ([raw] + group)[1..] == group && ([raw] + group)[0] == raw;
  }

  lemma CollapsedBlockSettles(chunk: seq<string>, newGroup: seq<string>, rest: seq<string>)
    requires chunk != [] && Classify(Body(chunk[0])).BlockKey? && Terminated(chunk[0])
    requires newGroup == NewGroup(chunk[1..], [], Indent(chunk[0]), Eol(chunk[0]))
    requires Proper(newGroup) && (forall line | line in newGroup :: InGroup(line, Width(chunk[0])))
    requires OnlyComments(newGroup) == OnlyComments(chunk[1..])
    ensures Settles(chunk, ChunkOut(chunk, []), rest, [])
  {
    var raw, group := chunk[0], chunk[1..];
    var note := Classify(Body(raw)).note;
    var key := CollapsedKey(raw, note);
    CollapsedOut(raw, note, group, key);
    CommentsOf(group);
    OnlyOfComments(newGroup);
    CommentsPass(newGroup, rest, []);
    BlockSkeleton(raw, group);
    Uncons(chunk);
    SettlesInTwo(chunk, key, newGroup, rest, note);
  }

  // ----- Whole texts -----

  /** The comment of an inline list ends with the line. It does not where the line is ended by one of the
    * breaks that `rstrip("\r\n")` leaves in place: that break then is part of the comment.
    */
  ghost predicate CleanKey(line: string) {
    Classify(Body(line)).InlineKey? ==> NoBreak(Classify(Body(line)).comment)
  }

  ghost predicate CleanNotes(lines: seq<string>) {
    lines == [] || (CleanKey(lines[0]) && CleanNotes(lines[ChunkLength(lines)..]))
  }

  lemma ChunkSettles(lines: seq<string>, rest: seq<string>, chain: seq<string>)
    requires lines != [] && Proper(lines) && Usable(chain) && CleanKey(lines[0])
    requires SameStart(lines[ChunkLength(lines)..], rest)
    ensures Settles(lines[..ChunkLength(lines)], ChunkOut(lines[..ChunkLength(lines)], chain), rest, chain)
  {
    match Classify(Body(lines[0])) {
      case ScalarOpener => ScalarSettles(lines, rest, chain);
      case BlockKey(_) => BlockSettles(lines, rest, chain);
      case InlineKey(comment) =>
        assert lines[..1] == [lines[0]];
        InlineSettles(lines[0], comment, rest, chain);
      case _ =>
        assert lines[..1] == [lines[0]];
        SingleSettles(lines[0], rest, chain);
    }
  }

  function AllWanted(lines: seq<string>, chain: seq<string>): seq<Option<seq<string>>> {
    if lines == [] then [] else
      var n := ChunkLength(lines);
      Wanted(lines[..n], chain) + AllWanted(lines[n..], chain)
  }

  /** The chain once for each key that is handled. */
  lemma {:induction false} AllWantedIs(lines: seq<string>, chain: seq<string>)
    ensures |AllWanted(lines, chain)| == TallyOf(lines).keys - TallyOf(lines).unhandled
    ensures forall carried | carried in AllWanted(lines, chain) :: carried == Some(chain)
  {
    if lines != [] {
      AllWantedIs(lines[ChunkLength(lines)..], chain);
    }
  }

  /** What is left of the rewritten text once the chains are taken out: the same, but an empty line behind each key
    * whose comment holds a line break.
    */
  ghost function Grown(lines: seq<string>): seq<Piece> {
    if lines == [] then [] else
      var n := ChunkLength(lines);
      ChunkSkeleton(lines[..n]) + (if CleanKey(lines[0]) then [] else [Kept("\n")]) + Grown(lines[n..])
  }

  lemma {:induction false} GrownExactly(lines: seq<string>)
    ensures |Skeleton(lines)| <= |Grown(lines)|
    ensures Grown(lines) == Skeleton(lines) <==> CleanNotes(lines)
  {
    if lines != [] {
      var n := ChunkLength(lines);
      GrownExactly(lines[n..]);
      var piece := ChunkSkeleton(lines[..n]);
      if CleanKey(lines[0]) {
        Nothing(piece);
        Parts(piece, Skeleton(lines[n..]));
        Parts(piece, Grown(lines[n..]));
      }
    }
  }

  /** Reading `again`, the rewritten text, finds the same keys, each with the chain it should carry, and everything
    * else where it was. There is something to change in it only where a comment holds a line break.
    */
  ghost predicate ReadsAgain(lines: seq<string>, again: seq<string>, chain: seq<string>) {
    && Proper(again) && SameStart(lines, again)
    && ViewOf(again, chain) ==
       View(Rewritten(again, chain), !CleanNotes(lines), TallyOf(lines), Grown(lines), AllWanted(lines, chain))
  }

  lemma {:induction false} SecondPass(lines: seq<string>, chain: seq<string>)
    requires Proper(lines) && Usable(chain)
    ensures ReadsAgain(lines, SplitLines(Flatten(Rewritten(lines, chain))), chain)
  {
    if lines != [] {
      var n := ChunkLength(lines);
      var out, rest := ChunkOut(lines[..n], chain), Rewritten(lines[n..], chain);
      var again := SplitLines(Flatten(rest));
      SecondPass(lines[n..], chain);
      FlattenAppend(out, rest);
      if CleanKey(lines[0]) {
        ChunkSettles(lines, again, chain);
        SplitAfter(out, Flatten(rest));
        ViewIs(out + again, chain);
        Nothing(ChunkSkeleton(lines[..n]));
      } else {
        assert lines[..1] == [lines[0]];
        var line := BrokenNote(lines[0], Classify(Body(lines[0])).comment, chain);
        SplitsOff(line, Flatten(rest));
        GrowsByALine(lines, line, again, chain);
      }
    }
  }

  /** A key whose comment holds a line break, and behind it the line it has grown by. */
  lemma GrowsByALine(lines: seq<string>, line: string, again: seq<string>, chain: seq<string>)
    requires lines != [] && Proper(lines) && Terminated(line) && SameHead(lines[0], line)
    requires Classify(Body(lines[0])).InlineKey? && Classify(Body(line)) == Classify(Body(lines[0]))
    requires !CleanKey(lines[0]) && Indent(line) == Indent(lines[0])
    requires ChunkOut([line], chain) == [line + "\n"] && InlineChain(Body(line)) == Some(chain)
    requires ReadsAgain(lines[1..], again, chain)
    ensures ReadsAgain(lines, [line] + (["\n"] + again), chain)
  {
    var comment := Classify(Body(lines[0])).comment;
    var whole := [line] + (["\n"] + again);
    GrownFirst(lines, comment, chain);
    GrownView(line, again, chain, comment);
    ViewIs(whole, chain);
    InlineChunk(line, [], comment);
    JoinedThree(ChunkView([line], chain), ViewOf(again, chain));
    EmptyLineIs();
    KeyFirst("\n", again);
    KeyFirst(line, ["\n"] + again);
  }

  lemma GrownView(line: string, again: seq<string>, chain: seq<string>, comment: string)
    requires Classify(Body(line)) == InlineKey(comment)
    ensures ViewOf([line] + (["\n"] + again), chain) ==
            Join(ChunkView([line], chain), Join(Passed(["\n"]), ViewOf(again, chain)))
  {
    EmptyLine(again, chain);
    InlineChunk(line, ["\n"] + again, comment);
    Unfold([line], ["\n"] + again, chain);
  }

  lemma GrownFirst(lines: seq<string>, comment: string, chain: seq<string>)
    requires lines != [] && Classify(Body(lines[0])) == InlineKey(comment) && !NoBreak(comment)
    ensures !CleanNotes(lines) && TallyOf(lines) == Add(Tally(0, 1, 0), TallyOf(lines[1..]))
    ensures Grown(lines) == [Chain(Indent(lines[0]), comment)] + [Kept("\n")] + Grown(lines[1..])
    ensures AllWanted(lines, chain) == [Some(chain)] + AllWanted(lines[1..], chain)
  {
    assert lines[..1] == [lines[0]];
  }

  lemma JoinedThree(first: View, rest: View)
    ensures var joined := Join(first, Join(Passed(["\n"]), rest));
            && joined.changed == (first.changed || rest.changed) && joined.tally == Add(first.tally, rest.tally)
            && joined.skeleton == first.skeleton + [Kept("\n")] + rest.skeleton
            && joined.chains == first.chains + rest.chains
  {
    assert KeptAll(["\n"]) == [Kept("\n")];
    Regroup(first.skeleton, [Kept("\n")], rest.skeleton);
    Nothing(rest.chains);
  }

  lemma EmptyLine(rest: seq<string>, chain: seq<string>)
    ensures ViewOf(["\n"] + rest, chain) == Join(Passed(["\n"]), ViewOf(rest, chain))
  {
    EmptyLineIs();
    PlainChunk("\n", rest, chain);
    Unfold(["\n"], rest, chain);
    OtherPasses("\n", chain);
  }

  lemma OtherPasses(line: string, chain: seq<string>)
    requires Classify(Body(line)) == Other
    ensures ChunkView([line], chain) == Passed([line])
  {
    PlainChunk(line, [], chain);
  }

  lemma EmptyLineIs()
    ensures Terminated("\n") && Classify(Body("\n")) == Other
  {
    BodyOfUnbroken("", "\n");
    assert "" + "\n" == "\n";
    BlankIsOther("");
  }

  lemma BlankIsOther(body: string)
    requires body == ""
    ensures Classify(body) == Other
  {
  }

  lemma {:induction false} UnchangedIsEqual(lines: seq<string>, chain: seq<string>)
    requires !Changed(lines, chain)
    ensures Rewritten(lines, chain) == lines
  {
    if lines != [] {
      var n := ChunkLength(lines);
      UnchangedIsEqual(lines[n..], chain);
      Halves(lines, n);
      ChunkFirst(lines, n, chain);
    }
  }

  /** The text the first pass leaves in the file. */
  function FirstPass(text: string, chain: seq<string>): string {
    if Changed(SplitLines(text), chain) then Flatten(Rewritten(SplitLines(text), chain)) else text
  }

  lemma OutcomeIs(text: string, chain: seq<string>)
    ensures FirstPass(text, chain) == Flatten(Rewritten(SplitLines(text), chain))
  {
    FlattenOfSplit(text);
    if !Changed(SplitLines(text), chain) {
      UnchangedIsEqual(SplitLines(text), chain);
    }
  }

  lemma OutcomeAgain(text: string, chain: seq<string>)
    requires Whole(text) && Usable(chain)
    ensures ReadsAgain(SplitLines(text), SplitLines(FirstPass(text, chain)), chain)
  {
    SplitTerminated(text);
    OutcomeIs(text, chain);
    SecondPass(SplitLines(text), chain);
  }

  /** Rewriting a rewritten text finds as many keys, prose lines and unhandled values, and the two texts agree
    * on everything but the chains and the lines that keys have grown by; there are none of those exactly if no
    * comment holds a line break.
    */
  lemma RewriteKeepsTheRest(text: string, chain: seq<string>)
    requires Whole(text) && Usable(chain)
    ensures var again := SplitLines(FirstPass(text, chain));
            TallyOf(again) == TallyOf(SplitLines(text)) && Skeleton(again) == Grown(SplitLines(text))
    ensures Skeleton(SplitLines(FirstPass(text, chain))) == Skeleton(SplitLines(text)) <==> CleanNotes(SplitLines(text))
  {
    OutcomeAgain(text, chain);
    ViewIs(SplitLines(FirstPass(text, chain)), chain);
    GrownExactly(SplitLines(text));
  }

  /** Every key that is handled carries exactly the chain afterwards, entry by entry. */
  lemma EveryKeyCarriesTheChain(text: string, chain: seq<string>)
    requires Whole(text) && Usable(chain)
    ensures var carried := Chains(SplitLines(FirstPass(text, chain)));
            && |carried| == TallyOf(SplitLines(text)).keys - TallyOf(SplitLines(text)).unhandled
            && forall c | c in carried :: c == Some(chain)
  {
    OutcomeAgain(text, chain);
    ViewIs(SplitLines(FirstPass(text, chain)), chain);
    AllWantedIs(SplitLines(text), chain);
  }

  lemma BrokenNote(raw: string, comment: string, chain: seq<string>) returns (line: string)
    requires Terminated(raw) && Usable(chain) && Classify(Body(raw)) == InlineKey(comment) && !NoBreak(comment)
    ensures ChunkOut([raw], chain) == [line + "\n"] && Terminated(line) && SameHead(raw, line)
    ensures Classify(Body(line)) == InlineKey(comment) && ChunkOut([line], chain) == [line + "\n"]
    ensures Indent(line) == Indent(raw) && InlineChain(Body(line)) == Some(chain)
  {
    line := Indent(raw) + (KEY + InlineRest(chain, comment));
    KeyNotes(raw);
    KeyHead(raw);
    BrokenLast(comment);
    BrokenBody(raw, comment);
    BrokenLine(Indent(raw), comment, chain);
    KeyBody(Indent(raw), InlineRest(chain, comment));
    InlineBody(Indent(raw), chain, comment);
    InlineReads(Indent(raw), chain, comment);
  }

  lemma BrokenLine(indent: string, comment: string, chain: seq<string>)
    requires Blanks(indent) && Usable(chain) && |comment| > 1 && NoBreak(comment[..|comment| - 1])
    requires EndsLine([comment[|comment| - 1]]) && comment[|comment| - 1] != '\n'
    ensures var line := indent + (KEY + InlineRest(chain, comment)); Terminated(line) && Body(line) == line && Eol(line) == "\n" && Whole(line + "\n")
  {
    var last := |comment| - 1;
    var core := indent + (KEY + InlineRest(chain, comment[..last]));
    InlineChars(indent, chain, comment[..last]);
    var line := indent + (KEY + InlineRest(chain, comment));
    assert line == core + [comment[last]];
    assert line[|line|..] == "";
    WholeLine(core, comment[last]);
  }

  lemma BrokenLast(comment: string)
    requires Nearly(comment) && !NoBreak(comment)
    ensures comment != "" && IsBreak(comment[|comment| - 1]) && NoBreak(comment[..|comment| - 1])
  {
  }

  lemma BrokenBody(raw: string, comment: string)
    requires Terminated(raw) && Classify(Body(raw)) == InlineKey(comment)
    requires comment != "" && IsBreak(comment[|comment| - 1])
    ensures Eol(raw) == "\n" && comment[|comment| - 1] != '\r' && comment[|comment| - 1] != '\n'
  {
    var rest := KeyRest(Body(raw)).value;
    InlineNoteEnds(rest);
    assert rest == Body(raw)[Width(raw) + |KEY|..];
    BodyEnd(raw);
    BrokenEnd(raw);
  }

  lemma SplitsOff(line: string, tail: string)
    requires Terminated(line)
    ensures SplitLines(Flatten([line + "\n"]) + tail) == [line] + (["\n"] + SplitLines(tail))
  {
    EmptyLineIs();
    SplitFirst("\n", tail);
    SplitFirst(line, "\n" + tail);
    FlattenOne(line + "\n");
    Regroup(line, "\n", tail);
  }

  lemma FlattenOne(line: string)
    ensures Flatten([line]) == line
  {
    assert Flatten([line]) == line + Flatten([]);
  }

  /** A second pass reports no change exactly when no inline list has a line break in its comment. */
  lemma FixpointExactly(text: string, chain: seq<string>)
    requires Whole(text) && Usable(chain)
    ensures !Changed(SplitLines(FirstPass(text, chain)), chain) <==> CleanNotes(SplitLines(text))
  {
    OutcomeAgain(text, chain);
    ViewIs(SplitLines(FirstPass(text, chain)), chain);
  }

  /** A change is reported exactly when the text is different. */
  lemma ChangeIsReal(text: string, chain: seq<string>)
    requires Whole(text) && Usable(chain)
    ensures Changed(SplitLines(text), chain) <==> Flatten(Rewritten(SplitLines(text), chain)) != text
  {
    OutcomeIs(text, chain);
    if FirstPass(text, chain) == text {
      RewriteKeepsTheRest(text, chain);
      FixpointExactly(text, chain);
    }
  }

  // ----- Every line that looks like a key is accounted for -----

  /** How many block scalars are opened by a line that looks like a `fallbacks:` key. */
  function ScalarKeys(lines: seq<string>): int {
    if lines == [] then 0 else
      (if Classify(Body(lines[0])).ScalarOpener? && MatchesKey(lines[0]) then 1 else 0)
      + ScalarKeys(lines[ChunkLength(lines)..])
  }

  lemma {:induction false} CountAppend(a: seq<string>, b: seq<string>)
    ensures CountMatches(a + b) == CountMatches(a) + CountMatches(b)
  {
    if a == [] {
      assert a + b == b;
    } else {
      CountAppend(a[1..], b);
      assert (a + b)[0] == a[0] && (a + b)[1..] == a[1..] + b;
    }
  }

  lemma {:induction false} NoKeysInGroup(group: seq<string>, width: nat)
    requires forall line | line in group :: InGroup(line, width)
    ensures CountMatches(group) == 0
  {
    if group != [] {
      assert group[0] in group;
      ItemIsNoKey(group[0]);
      NoKeysInGroup(group[1..], width);
    }
  }

  lemma ChunkAccounts(lines: seq<string>)
    requires lines != []
    ensures var chunk := lines[..ChunkLength(lines)];
            CountMatches(chunk) == ChunkTally(chunk).keys + ChunkTally(chunk).prose
                                   + if Classify(Body(lines[0])).ScalarOpener? && MatchesKey(lines[0]) then 1 else 0
  {
    var n := ChunkLength(lines);
    var group := lines[1..][..n - 1];
    assert lines[..n] == [lines[0]] + group && lines[..n][1..] == group;
    CountAppend([lines[0]], group);
    if Classify(Body(lines[0])).BlockKey? {
      GroupLines(lines[1..], Width(lines[0]));
      NoKeysInGroup(group, Width(lines[0]));
    }
  }

  /** Keys, prose lines and block scalars named `fallbacks` are together all the lines that match the key
    * pattern.
    */
  lemma {:induction false} EveryMatchAccounted(lines: seq<string>)
    ensures TallyOf(lines).keys + TallyOf(lines).prose + ScalarKeys(lines) == CountMatches(lines)
  {
    if lines != [] {
      var n := ChunkLength(lines);
      ChunkAccounts(lines);
      EveryMatchAccounted(lines[n..]);
      CountAppend(lines[..n], lines[n..]);
      Halves(lines, n);
      ChunkFirst(lines, n, []);
    }
  }

  // ----- A text that never settles -----

  /** One line `fallbacks: [...]  # note`, ended by a vertical tab or its like and then a newline: the rewriter
    * finds something to change in what it has just written.
    */
  lemma NeverSettles(note: string, last: char, chain: seq<string>)
    requires note != "" && note[0] == '#' && NoBreak(note) && Usable(chain)
    requires IsBreak(last) && last != '\r' && last != '\n'
    ensures var text := KEY + InlineRest(chain, note + [last]) + "\n";
            Whole(text) && Changed(SplitLines(FirstPass(text, chain)), chain)
  {
    var line := BrokenKeyLine(note, last, chain);
    FirstLineOnly(line);
    FixpointExactly(line + "\n", chain);
  }

  lemma BrokenKeyLine(note: string, last: char, chain: seq<string>) returns (line: string)
    requires note != "" && note[0] == '#' && NoBreak(note) && Usable(chain)
    requires IsBreak(last) && last != '\r' && last != '\n'
    ensures line == KEY + InlineRest(chain, note + [last])
    ensures Terminated(line) && Whole(line + "\n") && !CleanKey(line)
  {
    var comment := note + [last];
    line := "" + (KEY + InlineRest(chain, comment));
    BrokenComment(note, last);
    BrokenLine("", comment, chain);
    InlineBody("", chain, comment);
    Unindented(KEY + InlineRest(chain, comment));
  }

  lemma Unindented(s: string)
    ensures "" + s == s
  {
  }

  lemma BrokenComment(note: string, last: char)
    requires note != "" && IsBreak(last)
    ensures var comment := note + [last];
            && comment[0] == note[0] && comment[..|comment| - 1] == note && comment[|comment| - 1] == last
            && !NoBreak(comment)
  {
    assert last in note + [last];
  }

  lemma WholeLine(core: string, last: char)
    requires NoBreak(core) && last != '\r'
    ensures Whole(core + [last] + "\n")
  {
    var text := core + [last] + "\n";
    assert forall i | 0 <= i < |core| :: text[i] == core[i] && core[i] in core;
  }

  lemma FirstLineOnly(line: string)
    requires Terminated(line)
    ensures SplitLines(line + "\n") != [] && SplitLines(line + "\n")[0] == line
  {
    SplitAfter([line], "\n");
    FlattenOne(line);
  }
}
