/** The textual rewrite of `fallbacks:` keys (scripts/set-fleet-model.py:50-233). */
module FleetRewriter {
  import opened Wrappers
  import opened Sequences
  import opened Text
  import opened Lines

  const KEY := "fallbacks:"

  // ----- Rendering a model id -----

  predicate IsAlnum(c: char) {
    'A' <= c <= 'Z' || 'a' <= c <= 'z' || '0' <= c <= '9'
  }

  predicate IsPlain(s: string) {
    s != "" && IsAlnum(s[0]) && forall c | c in s :: IsAlnum(c) || c in "._/@+:-"
  }

  /** The `_PLAIN_SAFE` match; its `$` also accepts one final newline. */
  predicate PlainSafe(value: string) {
    IsPlain(value) || (value != "" && value[|value| - 1] == '\n' && IsPlain(value[..|value| - 1]))
  }

  function Escape(value: string): string {
    if value == "" then ""
    else (if value[0] == '\\' || value[0] == '"' then ['\\', value[0]] else [value[0]]) + Escape(value[1..])
  }

  function Render(value: string, flow: bool): string {
    if !flow && PlainSafe(value) then value else "\"" + Escape(value) + "\""
  }

  function FlowItems(chain: seq<string>): string {
    if chain == [] then ""
    else if |chain| == 1 then Render(chain[0], true)
    else Render(chain[0], true) + ", " + FlowItems(chain[1..])
  }

  // ----- Recognising lines -----

  function AfterColon(s: string): (r: Option<string>)
  {
    if s == "" then None else if s[0] == ':' then Some(s[1..]) else AfterColon(s[1..])
  }

  function Digits(s: string): (n: nat)
    ensures n <= |s|
  {
    if s != "" && '0' <= s[0] <= '9' then 1 + Digits(s[1..]) else 0
  }

  /** What may follow the colon of a key that opens a block scalar. */
  predicate ScalarTail(t: string) {
    var u := t[Lead(t)..];
    && u != "" && (u[0] == '|' || u[0] == '>')
    && var v := if |u| > 1 && (u[1] == '+' || u[1] == '-') then u[2..] else u[1..];
       var y := v[Digits(v)..];
       y[Lead(y)..] == ""
  }

  predicate OpensScalarAt(r: string) {
    && r != "" && r[0] != '#' && !IsSpace(r[0])
    && AfterColon(r[1..]).Some? && ScalarTail(AfterColon(r[1..]).value)
  }

  /** `_BLOCK_SCALAR`: a key, perhaps behind a dash, whose value is a block scalar. */
  predicate OpensScalar(body: string) {
    var r := body[Lead(body)..];
    || OpensScalarAt(r)
    || (r != "" && r[0] == '-' && Lead(r[1..]) > 0 && OpensScalarAt(r[1..][Lead(r[1..])..]))
  }

  /** `_FALLBACKS`: what follows the key. */
  function KeyRest(body: string): Option<string> {
    var r := body[Lead(body)..];
    if StartsWith(r, KEY) then Some(r[|KEY|..]) else None
  }

  function AfterBracket(s: string): Option<string> {
    if s == "" then None else if s[0] == ']' then Some(s[1..]) else AfterBracket(s[1..])
  }

  /** `_INLINE_LIST`: the comment behind an inline list, empty if there is none. */
  function InlineComment(rest: string): Option<string> {
    var r := rest[Spaces(rest)..];
    if r == "" || r[0] != '[' then None
    else match AfterBracket(r[1..])
      case None => None
      case Some(t) =>
        var u := t[Spaces(t)..];
        if u == "" || u[0] == '#' then Some(u) else None
  }

  datatype Kind = ScalarOpener | InlineKey(comment: string) | Unhandled | BlockKey(note: string) | Other

  function Classify(body: string): Kind {
    if OpensScalar(body) then ScalarOpener
    else match KeyRest(body)
      case None => Other
      case Some(rest) =>
        match InlineComment(rest)
        case Some(comment) => InlineKey(comment)
        case None =>
          var stripped := Strip(rest);
          if stripped != "" && stripped[0] != '#' then Unhandled else BlockKey(stripped)
  }

  predicate MatchesKey(line: string) {
    KeyRest(Body(line)).Some?
  }

  function Width(line: string): nat {
    Lead(Body(line))
  }

  function Indent(line: string): string {
    Body(line)[..Width(line)]
  }

  predicate Marked(line: string, c: char) {
    && 1 <= Width(line) < |Body(line)|
    && Body(line)[Width(line)] == c
  }

  predicate IsItem(line: string) {
    Marked(line, '-')
  }

  predicate IsComment(line: string) {
    Marked(line, '#')
  }

  // ----- Groups of lines -----

  /** A line that belongs to the block scalar of a key indented by `width`. */
  predicate InScalar(line: string, width: nat) {
    IsBlank(Body(line)) || Width(line) > width
  }

  function ScalarEnd(lines: seq<string>, width: nat): (n: nat)
    ensures n <= |lines|
  {
    if lines != [] && InScalar(lines[0], width) then 1 + ScalarEnd(lines[1..], width) else 0
  }

  /** An item or comment below a block key indented by `width`. */
  predicate InGroup(line: string, width: nat) {
    (IsItem(line) || IsComment(line)) && Width(line) > width
  }

  function GroupEnd(lines: seq<string>, width: nat): (n: nat)
    ensures n <= |lines|
  {
    if lines != [] && InGroup(lines[0], width) then 1 + GroupEnd(lines[1..], width) else 0
  }

  function LeadComments(group: seq<string>): seq<string> {
    if group == [] || IsItem(group[0]) then [] else [group[0]] + LeadComments(group[1..])
  }

  function OnlyComments(group: seq<string>): seq<string> {
    if group == [] then [] else (if IsItem(group[0]) then [] else [group[0]]) + OnlyComments(group[1..])
  }

  function TailComments(group: seq<string>): seq<string> {
    if group == [] then []
    else if IsItem(group[0]) then OnlyComments(group[1..])
    else TailComments(group[1..])
  }

  /** The indentation of the last item. */
  function ItemIndent(group: seq<string>, default: string): string {
    if group == [] then default
    else if IsItem(group[|group| - 1]) then Indent(group[|group| - 1])
    else ItemIndent(group[..|group| - 1], default)
  }

  function NewItem(indent: string, value: string, eol: string): string {
    indent + ("- " + Render(value, false)) + eol
  }

  function NewItems(chain: seq<string>, indent: string, eol: string): seq<string> {
    seq(|chain|, i requires 0 <= i < |chain| => NewItem(indent, chain[i], eol))
  }

  function NewGroup(group: seq<string>, chain: seq<string>, indent: string, eol: string): seq<string> {
    LeadComments(group) + NewItems(chain, ItemIndent(group, indent + "  "), eol) + TailComments(group)
  }

  function InlineRest(chain: seq<string>, comment: string): string {
    " [" + FlowItems(chain) + "]" + if comment == "" then "" else "  " + comment
  }

  function InlineLine(indent: string, chain: seq<string>, comment: string, eol: string): string {
    indent + (KEY + InlineRest(chain, comment)) + eol
  }

  /** The key line of a block sequence: verbatim, unless an empty chain collapses it. */
  function BlockKeyLine(raw: string, note: string, chain: seq<string>): string {
    if chain == [] then InlineLine(Indent(raw), [], note, Eol(raw)) else raw
  }

  /** How many lines are handled together, starting with the first. */
  function ChunkLength(lines: seq<string>): (n: nat)
    requires lines != []
    ensures 0 < n <= |lines|
  {
    KindLength(Classify(Body(lines[0])), lines)
  }

  function KindLength(kind: Kind, lines: seq<string>): (n: nat)
    requires lines != []
    ensures 0 < n <= |lines|
  {
    match kind
    case ScalarOpener => 1 + ScalarEnd(lines[1..], Width(lines[0]))
    case BlockKey(_) => 1 + GroupEnd(lines[1..], Width(lines[0]))
    case _ => 1
  }

  /** What a chunk becomes. */
  function ChunkOut(chunk: seq<string>, chain: seq<string>): (out: seq<string>)
    requires chunk != []
    ensures out != []
  {
    KindOut(Classify(Body(chunk[0])), chunk, chain)
  }

  function KindOut(kind: Kind, chunk: seq<string>, chain: seq<string>): (out: seq<string>)
    requires chunk != []
    ensures out != []
  {
    var raw := chunk[0];
    match kind
    case InlineKey(comment) => [InlineLine(Indent(raw), chain, comment, Eol(raw))]
    case BlockKey(note) => [BlockKeyLine(raw, note, chain)] + NewGroup(chunk[1..], chain, Indent(raw), Eol(raw))
    case _ => chunk
  }

  /** The lines of the rewritten manifest. */
  function Rewritten(lines: seq<string>, chain: seq<string>): seq<string> {
    if lines == [] then [] else
      var n := ChunkLength(lines);
      ChunkOut(lines[..n], chain) + Rewritten(lines[n..], chain)
  }

  predicate Differs(chunk: seq<string>, chain: seq<string>)
    requires chunk != []
  {
    ChunkOut(chunk, chain) != chunk
  }

  /** Whether any chunk comes out different. */
  predicate Changed(lines: seq<string>, chain: seq<string>) {
    lines != [] && (Differs(lines[..ChunkLength(lines)], chain) || Changed(lines[ChunkLength(lines)..], chain))
  }

  // ----- Counting -----

  datatype Tally = Tally(unhandled: int, keys: int, prose: int)

  function CountMatches(lines: seq<string>): nat {
    if lines == [] then 0 else (if MatchesKey(lines[0]) then 1 else 0) + CountMatches(lines[1..])
  }

  /** What one chunk adds to the counts. */
  function ChunkTally(chunk: seq<string>): Tally
    requires chunk != []
  {
    KindTally(Classify(Body(chunk[0])), chunk)
  }

  function KindTally(kind: Kind, chunk: seq<string>): Tally
    requires chunk != []
  {
    match kind
    case ScalarOpener => Tally(0, 0, CountMatches(chunk[1..]))
    case InlineKey(_) => Tally(0, 1, 0)
    case BlockKey(_) => Tally(0, 1, 0)
    case Unhandled => Tally(1, 1, 0)
    case Other => Tally(0, 0, 0)
  }

  function Add(a: Tally, b: Tally): Tally {
    Tally(a.unhandled + b.unhandled, a.keys + b.keys, a.prose + b.prose)
  }

  function TallyOf(lines: seq<string>): Tally {
    if lines == [] then Tally(0, 0, 0) else
      var n := ChunkLength(lines);
      Add(ChunkTally(lines[..n]), TallyOf(lines[n..]))
  }

  // ----- The rewriting loops -----

  datatype Rewrite = Rewrite(text: Option<string>, tally: Tally)

  method SkipBlockScalar(lines: seq<string>, start: nat, width: nat) returns (i: nat)
    requires start < |lines|
    ensures i == start + 1 + ScalarEnd(lines[start + 1..], width)
  {
    i := start + 1;
    while i < |lines| && InScalar(lines[i], width)
      invariant start < i <= |lines|
      invariant i + ScalarEnd(lines[i..], width) == start + 1 + ScalarEnd(lines[start + 1..], width)
    {
      assert lines[i..][0] == lines[i] && lines[i..][1..] == lines[i + 1..];
      i := i + 1;
    }
    assert i < |lines| ==> lines[i..][0] == lines[i];
  }

  method RewriteFallbacksText(text: string, chain: seq<string>) returns (r: Rewrite)
    ensures var lines := SplitLines(text);
            && r.tally == TallyOf(lines)
            && r.text == if Changed(lines, chain) then Some(Flatten(Rewritten(lines, chain))) else None
  {
    var out, changed, tally := RewriteLines(SplitLines(text), chain);
    r := Rewrite(if changed then Some(Flatten(out)) else None, tally);
  }

  method RewriteLines(lines: seq<string>, chain: seq<string>) returns (out: seq<string>, changed: bool, tally: Tally)
    ensures out == Rewritten(lines, chain)
    ensures changed == Changed(lines, chain)
    ensures tally == TallyOf(lines)
  {
    var i := 0;
    out, changed, tally := [], false, Tally(0, 0, 0);
    RewriteStart(lines, chain);
    while i < |lines|
      invariant 0 <= i <= |lines|
      invariant Completes(lines, chain, out, changed, tally, lines[i..])
    {
      var end, emitted, differs, more := RewriteChunk(lines, i, chain);
      RewriteStep(lines, i, end, chain, out, changed, tally);
      out, changed, tally := out + emitted, changed || differs, Add(tally, more);
      i := end;
    }
    RewriteEnd(lines, chain, out, changed, tally, lines[i..]);
  }

  /** What has been found so far, with what the rest will give, is what all the lines give. */
  ghost predicate Completes(
    lines: seq<string>, chain: seq<string>, out: seq<string>, changed: bool, tally: Tally, rest: seq<string>)
  {
    && out + Rewritten(rest, chain) == Rewritten(lines, chain)
    && (changed || Changed(rest, chain) <==> Changed(lines, chain))
    && Add(tally, TallyOf(rest)) == TallyOf(lines)
  }

  lemma RewriteStart(lines: seq<string>, chain: seq<string>)
    ensures Completes(lines, chain, [], false, Tally(0, 0, 0), lines[0..])
  {
    Ends(lines);
    Nothing(Rewritten(lines, chain));
  }

  lemma RewriteEnd(
    lines: seq<string>, chain: seq<string>, out: seq<string>, changed: bool, tally: Tally, rest: seq<string>)
    requires |rest| == 0 && Completes(lines, chain, out, changed, tally, rest)
    ensures out == Rewritten(lines, chain) && changed == Changed(lines, chain) && tally == TallyOf(lines)
  {
    Nothing(out);
  }

  lemma ChunkFirst(lines: seq<string>, n: nat, chain: seq<string>)
    requires lines != [] && n == ChunkLength(lines)
    ensures Rewritten(lines, chain) == ChunkOut(lines[..n], chain) + Rewritten(lines[n..], chain)
    ensures Changed(lines, chain) <==> Differs(lines[..n], chain) || Changed(lines[n..], chain)
    ensures TallyOf(lines) == Add(ChunkTally(lines[..n]), TallyOf(lines[n..]))
  {
  }

  lemma RewriteStep(
    lines: seq<string>, i: nat, end: nat, chain: seq<string>, out: seq<string>, changed: bool, tally: Tally)
    requires i < |lines| && end == i + ChunkLength(lines[i..])
    requires Completes(lines, chain, out, changed, tally, lines[i..])
    ensures var chunk := lines[i..end];
            Completes(lines, chain, out + ChunkOut(chunk, chain), changed || Differs(chunk, chain),
              Add(tally, ChunkTally(chunk)), lines[end..])
  {
    ChunkFirst(lines[i..], end - i, chain);
    Slices(lines, i, end);
    Regroup(out, ChunkOut(lines[i..end], chain), Rewritten(lines[end..], chain));
    AddAssociative(tally, ChunkTally(lines[i..end]), TallyOf(lines[end..]));
  }

  lemma AddAssociative(a: Tally, b: Tally, c: Tally)
    ensures Add(Add(a, b), c) == Add(a, Add(b, c))
  {
  }

  lemma Slices(lines: seq<string>, i: nat, end: nat)
    requires i <= end <= |lines|
    ensures lines[i..][..end - i] == lines[i..end] && lines[i..][end - i..] == lines[end..]
  {
  }

  /** One round of the loop: handles the chunk that starts at line `i`. */
  method RewriteChunk(lines: seq<string>, i: nat, chain: seq<string>)
    returns (end: nat, emitted: seq<string>, differs: bool, tally: Tally)
    requires i < |lines|
    ensures end == i + ChunkLength(lines[i..])
    ensures emitted == ChunkOut(lines[i..end], chain)
    ensures differs == Differs(lines[i..end], chain)
    ensures tally == ChunkTally(lines[i..end])
  {
    assert lines[i..][0] == lines[i];
    end, emitted, differs, tally := RewriteKind(Classify(Body(lines[i])), lines, i, chain);
  }

  method RewriteKind(kind: Kind, lines: seq<string>, i: nat, chain: seq<string>)
    returns (end: nat, emitted: seq<string>, differs: bool, tally: Tally)
    requires i < |lines|
    ensures end == i + KindLength(kind, lines[i..])
    ensures emitted == KindOut(kind, lines[i..end], chain)
    ensures differs <==> emitted != lines[i..end]
    ensures tally == KindTally(kind, lines[i..end])
  {
    var raw := lines[i];
    assert lines[i..][0] == raw && lines[i..][1..] == lines[i + 1..];
    end, emitted, differs, tally := i + 1, [raw], false, Tally(0, 0, 0);
    match kind {
      case ScalarOpener =>
        end := SkipBlockScalar(lines, i, Width(raw));
        emitted := lines[i..end];
        assert lines[i..end][1..] == lines[i + 1..end];
        var prose := CountProse(lines[i + 1..end]);
        tally := Tally(0, 0, prose);
      case InlineKey(comment) =>
        var line := InlineLine(Indent(raw), chain, comment, Eol(raw));
        emitted, differs, tally := [line], line != raw, Tally(0, 1, 0);
      case Unhandled =>
        tally := Tally(1, 1, 0);
      case Other =>
      case BlockKey(note) =>
        end, emitted, differs := RewriteBlock(lines, i, note, chain);
        tally := Tally(0, 1, 0);
    }
  }

  method RewriteBlock(lines: seq<string>, i: nat, note: string, chain: seq<string>)
    returns (end: nat, emitted: seq<string>, differs: bool)
    requires i < |lines|
    ensures end == i + KindLength(BlockKey(note), lines[i..])
    ensures emitted == KindOut(BlockKey(note), lines[i..end], chain)
    ensures differs <==> emitted != lines[i..end]
  {
    var raw := lines[i];
    var keyLine := BlockKeyLine(raw, note, chain);
    var newBlock;
    Sequences.Step(lines, i);
    end, newBlock := RewriteGroup(lines, i + 1, chain, Indent(raw), Eol(raw));
    Cons(raw, lines[i + 1..end]);
    assert lines[i..end] == [raw] + lines[i + 1..end];
    emitted := [keyLine] + newBlock;
    differs := keyLine != raw || newBlock != lines[i + 1..end];
    Cons(keyLine, newBlock);
  }

  method CountProse(block: seq<string>) returns (count: nat)
    ensures count == CountMatches(block)
  {
    count := 0;
    assert block[0..] == block;
    for i := 0 to |block|
      invariant count + CountMatches(block[i..]) == CountMatches(block)
    {
      assert block[i..][0] == block[i] && block[i..][1..] == block[i + 1..];
      if MatchesKey(block[i]) {
        count := count + 1;
      }
    }
  }

  /** The inner loop: reads the items and comments below a block key and renders the new ones. */
  method RewriteGroup(lines: seq<string>, start: nat, chain: seq<string>, indent: string, eol: string)
    returns (i: nat, newBlock: seq<string>)
    requires start <= |lines|
    ensures i == start + GroupEnd(lines[start..], |indent|)
    ensures newBlock == NewGroup(lines[start..i], chain, indent, eol)
  {
    i := start;
    var state := Scan(indent + "  ", false, [], []);
    ghost var group: seq<string> := [];
    while i < |lines| && InGroup(lines[i], |indent|)
      invariant start <= i <= |lines| && group == lines[start..i]
      invariant i + GroupEnd(lines[i..], |indent|) == start + GroupEnd(lines[start..], |indent|)
      invariant state == ScanOf(group, indent + "  ")
    {
      GroupEndStep(lines, i, |indent|);
      GroupSnoc(group, lines[i], indent + "  ");
      group := group + [lines[i]];
      state := Feed(state, lines[i]);
      i := i + 1;
    }
    GroupEndStep(lines, i, |indent|);
    newBlock := state.lead + NewItems(chain, state.itemIndent, eol) + state.tail;
  }

  lemma GroupEndStep(lines: seq<string>, i: nat, width: nat)
    requires i <= |lines|
    ensures GroupEnd(lines[i..], width) ==
            if i < |lines| && InGroup(lines[i], width) then 1 + GroupEnd(lines[i + 1..], width) else 0
  {
    if i < |lines| {
      assert lines[i..][0] == lines[i] && lines[i..][1..] == lines[i + 1..];
    }
  }

  /** What the inner loop has gathered: comments before and after the first item, and the last item's indentation. */
  datatype Scan = Scan(itemIndent: string, sawItem: bool, lead: seq<string>, tail: seq<string>)

  function Feed(s: Scan, line: string): Scan {
    if IsItem(line) then s.(itemIndent := Indent(line), sawItem := true)
    else if s.sawItem then s.(tail := s.tail + [line])
    else s.(lead := s.lead + [line])
  }

  function ScanOf(group: seq<string>, default: string): Scan {
    Scan(ItemIndent(group, default), HasItem(group), LeadComments(group), TailComments(group))
  }

  function HasItem(group: seq<string>): bool {
    group != [] && (IsItem(group[0]) || HasItem(group[1..]))
  }

  lemma GroupSnoc(group: seq<string>, line: string, default: string)
    ensures ScanOf(group + [line], default) == Feed(ScanOf(group, default), line)
  {
    LeadSnoc(group, line);
    TailSnoc(group, line);
    assert (group + [line])[..|group|] == group;
  }

  lemma {:induction false} LeadSnoc(group: seq<string>, line: string)
    ensures HasItem(group + [line]) == (HasItem(group) || IsItem(line))
    ensures LeadComments(group + [line]) == LeadComments(group) + (if HasItem(group) || IsItem(line) then [] else [line])
  {
    if group != [] {
      LeadSnoc(group[1..], line);
      assert (group + [line])[1..] == group[1..] + [line];
    }
  }

  lemma {:induction false} OnlySnoc(group: seq<string>, line: string)
    ensures OnlyComments(group + [line]) == OnlyComments(group) + (if IsItem(line) then [] else [line])
  {
    if group != [] {
      OnlySnoc(group[1..], line);
      assert (group + [line])[1..] == group[1..] + [line];
    }
  }

  lemma {:induction false} TailSnoc(group: seq<string>, line: string)
    ensures TailComments(group + [line]) == TailComments(group) + (if HasItem(group) && !IsItem(line) then [line] else [])
  {
    if group != [] {
      assert (group + [line])[1..] == group[1..] + [line];
      if IsItem(group[0]) {
        OnlySnoc(group[1..], line);
      } else {
        TailSnoc(group[1..], line);
      }
    }
  }
}
