/** What the line recognisers of the fleet rewriter accept, told by how such a line is printed
  * (scripts/set-fleet-model.py:50-71), and what happens to the prose below a block scalar.
  */
module FleetLines {
  import opened Wrappers
  import opened Sequences
  import opened Text
  import opened Lines
  import opened FleetRewriter

  ghost predicate Blanks(s: string) {
    forall c | c in s :: IsBlankChar(c)
  }

  ghost predicate AllDigits(s: string) {
    forall i | 0 <= i < |s| :: '0' <= s[i] <= '9'
  }

  // ----- Block scalars -----

  /** The parts of a key line that opens a block scalar, from left to right. */
  datatype ScalarLine = ScalarLine(
    indent: string, dash: string, first: char, name: string, gap: string, mark: char, sign: string, digits: string,
    tail: string)
  {
    function Value(): string {
      gap + ([mark] + sign + (digits + tail))
    }

    function KeyPart(): string {
      [first] + (name + ":" + Value())
    }

    function Printed(): string {
      indent + (dash + KeyPart())
    }

    /** Blanks; a dash with blanks behind it, or none; a character that starts neither a comment nor a gap; no colon
      * before the colon; `|` or `>`; an optional sign; digits; blanks.
      */
    ghost predicate Fits() {
      && Blanks(indent) && Blanks(gap) && Blanks(tail)
      && (dash == "" || (|dash| > 1 && dash[0] == '-' && Blanks(dash[1..])))
      && first != '#' && !IsSpace(first) && ':' !in name
      && (mark == '|' || mark == '>') && (sign == "" || sign == "+" || sign == "-")
      && AllDigits(digits)
    }
  }

  /** A line opens a block scalar exactly if it is printed so. */
  lemma OpensScalarExactly(body: string)
    ensures OpensScalar(body) <==> exists p: ScalarLine :: p.Fits() && p.Printed() == body
  {
    if OpensScalar(body) {
      var p := ScalarParts(body);
    }
    if p: ScalarLine :| p.Fits() && p.Printed() == body {
      PrintedOpens(p);
    }
  }

  lemma LeadOf(blanks: string, rest: string)
    requires Blanks(blanks) && (rest == "" || !IsBlankChar(rest[0]))
    ensures Lead(blanks + rest) == |blanks| && (blanks + rest)[|blanks|..] == rest
  {
    LeadIs(blanks + rest, |blanks|);
  }

  lemma LeadSplits(s: string)
    ensures Blanks(s[..Lead(s)]) && s == s[..Lead(s)] + s[Lead(s)..]
    ensures s[Lead(s)..] == "" || !IsBlankChar(s[Lead(s)..][0])
  {
  }

  lemma {:induction false} ColonAfter(name: string, rest: string)
    requires ':' !in name
    ensures AfterColon(name + ":" + rest) == Some(rest)
  {
    var s := name + ":" + rest;
    if name == "" {
      assert s[1..] == rest;
    } else {
      ColonAfter(name[1..], rest);
      assert s[1..] == name[1..] + ":" + rest;
      assert name[0] in name;
    }
  }

  lemma {:induction false} ColonSplits(s: string) returns (name: string)
    requires AfterColon(s).Some?
    ensures ':' !in name && s == name + ":" + AfterColon(s).value
  {
    if s[0] == ':' {
      name := "";
    } else {
      var rest := ColonSplits(s[1..]);
      name := [s[0]] + rest;
    }
  }

  lemma {:induction false} DigitsOf(digits: string, rest: string)
    requires AllDigits(digits)
    requires rest == "" || !('0' <= rest[0] <= '9')
    ensures Digits(digits + rest) == |digits| && (digits + rest)[|digits|..] == rest
  {
    if digits != "" {
      DigitsOf(digits[1..], rest);
      assert (digits + rest)[1..] == digits[1..] + rest;
    } else {
      Nothing(rest);
    }
  }

  lemma {:induction false} DigitsSplits(s: string)
    ensures AllDigits(s[..Digits(s)])
    ensures s[Digits(s)..] == "" || !('0' <= s[Digits(s)] <= '9')
  {
    if s != "" && '0' <= s[0] <= '9' {
      DigitsSplits(s[1..]);
      assert s[..Digits(s)] == [s[0]] + s[1..][..Digits(s) - 1];
    }
  }

  /** What stands behind the mark. */
  lemma SignOf(mark: char, sign: string, v: string)
    requires (sign == "" && (v == "" || (v[0] != '+' && v[0] != '-'))) || sign == "+" || sign == "-"
    ensures var u := [mark] + sign + v;
            && u != "" && u[0] == mark
            && (if |u| > 1 && (u[1] == '+' || u[1] == '-') then u[2..] else u[1..]) == v
  {
    var u := [mark] + sign + v;
    if sign == "" {
      assert u[1..] == v;
    } else {
      assert u[1] == sign[0] && u[2..] == v;
    }
  }

  lemma DigitsFirst(digits: string, tail: string)
    requires AllDigits(digits) && Blanks(tail)
    ensures tail != "" ==> IsBlankChar(tail[0])
    ensures var v := digits + tail; v == "" || (v[0] != '+' && v[0] != '-')
  {
    if tail != "" {
      assert tail[0] in tail;
    }
  }

  lemma TailPrinted(p: ScalarLine)
    requires p.Fits()
    ensures ScalarTail(p.Value())
  {
    DigitsFirst(p.digits, p.tail);
    SignOf(p.mark, p.sign, p.digits + p.tail);
    LeadOf(p.gap, [p.mark] + p.sign + (p.digits + p.tail));
    DigitsOf(p.digits, p.tail);
    LeadOf(p.tail, "");
    Nothing(p.tail);
  }

  lemma PrintedOpensAt(p: ScalarLine)
    requires p.Fits()
    ensures OpensScalarAt(p.KeyPart())
  {
    assert p.KeyPart()[1..] == p.name + ":" + p.Value();
    ColonAfter(p.name, p.Value());
    TailPrinted(p);
  }

  lemma PrintedOpens(p: ScalarLine)
    requires p.Fits()
    ensures OpensScalar(p.Printed())
    ensures Lead(p.Printed()) == |p.indent|
  {
    var key := p.KeyPart();
    assert key[0] == p.first;
    PrintedOpensAt(p);
    if p.dash == "" {
      Nothing(key);
      LeadOf(p.indent, key);
    } else {
      var r := p.dash + key;
      assert r[0] == '-' && r[1..] == p.dash[1..] + key;
      LeadOf(p.indent, r);
      LeadOf(p.dash[1..], key);
    }
  }

  lemma SignSplits(u: string) returns (sign: string, v: string)
    requires u != ""
    ensures u == [u[0]] + sign + v && (sign == "" || sign == "+" || sign == "-")
    ensures v == if |u| > 1 && (u[1] == '+' || u[1] == '-') then u[2..] else u[1..]
  {
    if |u| > 1 && (u[1] == '+' || u[1] == '-') {
      sign, v := [u[1]], u[2..];
    } else {
      sign, v := "", u[1..];
    }
  }

  lemma ScalarTailParts(t: string) returns (gap: string, mark: char, sign: string, digits: string, tail: string)
    requires ScalarTail(t)
    ensures Blanks(gap) && (mark == '|' || mark == '>') && (sign == "" || sign == "+" || sign == "-")
    ensures AllDigits(digits) && Blanks(tail) && t == gap + ([mark] + sign + (digits + tail))
  {
    LeadSplits(t);
    var u := t[Lead(t)..];
    var v;
    sign, v := SignSplits(u);
    gap, mark, digits, tail := t[..Lead(t)], u[0], v[..Digits(v)], v[Digits(v)..];
    DigitsSplits(v);
    Halves(v, Digits(v));
    AllBlank(tail);
  }

  lemma AllBlank(s: string)
    requires s[Lead(s)..] == ""
    ensures Blanks(s)
  {
    assert s[..Lead(s)] == s;
  }

  lemma ScalarAtParts(r: string) returns (p: ScalarLine)
    requires OpensScalarAt(r)
    ensures p.indent == "" && p.dash == "" && p.Fits() && p.KeyPart() == r
  {
    var name := ColonSplits(r[1..]);
    var gap, mark, sign, digits, tail := ScalarTailParts(AfterColon(r[1..]).value);
    p := ScalarLine("", "", r[0], name, gap, mark, sign, digits, tail);
    Uncons(r);
  }

  lemma ScalarParts(body: string) returns (p: ScalarLine)
    requires OpensScalar(body)
    ensures p.Fits() && p.Printed() == body
  {
    var r := body[Lead(body)..];
    LeadSplits(body);
    if OpensScalarAt(r) {
      var at := ScalarAtParts(r);
      p := at.(indent := body[..Lead(body)]);
      SameKey(at, p);
      Nothing(r);
    } else {
      p := DashedParts(body, r);
    }
  }

  lemma SameKey(a: ScalarLine, b: ScalarLine)
    requires b == a.(indent := b.indent, dash := b.dash)
    ensures a.KeyPart() == b.KeyPart()
  {
  }

  lemma DashedParts(body: string, r: string) returns (p: ScalarLine)
    requires body == body[..Lead(body)] + r && Blanks(body[..Lead(body)])
    requires r != "" && r[0] == '-' && Lead(r[1..]) > 0 && OpensScalarAt(r[1..][Lead(r[1..])..])
    ensures p.Fits() && p.Printed() == body
  {
    var rest := r[1..];
    LeadSplits(rest);
    var at := ScalarAtParts(rest[Lead(rest)..]);
    var blanks := rest[..Lead(rest)];
    p := at.(indent := body[..Lead(body)], dash := ['-'] + blanks);
    SameKey(at, p);
    Cons('-', blanks);
    Regroup(['-'], blanks, p.KeyPart());
    Uncons(r);
  }

  // ----- Keys -----

  /** A line matches the key pattern exactly if it is blanks, `fallbacks:` and the rest. */
  lemma KeyExactly(body: string, rest: string)
    ensures KeyRest(body) == Some(rest) <==> exists indent :: Blanks(indent) && body == indent + ("fallbacks:" + rest)
  {
    if KeyRest(body) == Some(rest) {
      LeadSplits(body);
      Halves(body[Lead(body)..], |KEY|);
      assert body == body[..Lead(body)] + ("fallbacks:" + rest);
    }
    if indent :| Blanks(indent) && body == indent + ("fallbacks:" + rest) {
      assert ("fallbacks:" + rest)[0] == 'f';
      LeadOf(indent, "fallbacks:" + rest);
      Parts(KEY, rest);
    }
  }

  lemma MatchesExactly(line: string)
    ensures MatchesKey(line) <==> exists indent, rest :: Blanks(indent) && Body(line) == indent + ("fallbacks:" + rest)
  {
    forall rest {
      KeyExactly(Body(line), rest);
    }
    if MatchesKey(line) {
      KeyExactly(Body(line), KeyRest(Body(line)).value);
    }
  }

  /** White space, a list in brackets without a `]` inside, white space, and a comment or nothing. */
  ghost predicate InlineParts(rest: string, gap: string, items: string, space: string, comment: string) {
    && IsBlank(gap) && ']' !in items && IsBlank(space) && (comment == "" || comment[0] == '#')
    && rest == gap + ("[" + items + "]" + (space + comment))
  }

  /** An inline list with this comment is exactly what is printed so. */
  lemma InlineExactly(rest: string, comment: string)
    ensures InlineComment(rest) == Some(comment) <==> exists gap, items, space :: InlineParts(rest, gap, items, space, comment)
  {
    if InlineComment(rest) == Some(comment) {
      InlineSplits(rest, comment);
    }
    if gap, items, space :| InlineParts(rest, gap, items, space, comment) {
      InlinePrinted(rest, gap, items, space, comment);
    }
  }

  lemma SpacesOf(gap: string, rest: string)
    requires IsBlank(gap) && (rest == "" || !IsSpace(rest[0]))
    ensures Spaces(gap + rest) == |gap| && (gap + rest)[|gap|..] == rest
  {
    assert forall i | 0 <= i < |gap| :: (gap + rest)[i] == gap[i] && gap[i] in gap;
    SpacesIs(gap + rest, |gap|);
  }

  lemma {:induction false} BracketAfter(items: string, tail: string)
    requires ']' !in items
    ensures AfterBracket(items + "]" + tail) == Some(tail)
  {
    var s := items + "]" + tail;
    if items == "" {
      assert s[1..] == tail;
    } else {
      BracketAfter(items[1..], tail);
      assert s[1..] == items[1..] + "]" + tail;
      assert items[0] in items;
    }
  }

  lemma {:induction false} BracketSplits(s: string) returns (items: string)
    requires AfterBracket(s).Some?
    ensures ']' !in items && s == items + "]" + AfterBracket(s).value
  {
    if s[0] == ']' {
      items := "";
    } else {
      var rest := BracketSplits(s[1..]);
      items := [s[0]] + rest;
    }
  }

  lemma InlineSplits(rest: string, comment: string)
    requires InlineComment(rest) == Some(comment)
    ensures exists gap, items, space :: InlineParts(rest, gap, items, space, comment)
  {
    var gap, r := rest[..Spaces(rest)], rest[Spaces(rest)..];
    var items := BracketSplits(r[1..]);
    var t := AfterBracket(r[1..]).value;
    var space := t[..Spaces(t)];
    Halves(t, Spaces(t));
    Halves(rest, Spaces(rest));
    BracketJoined(r, items, t);
    assert InlineParts(rest, gap, items, space, comment);
  }

  lemma BracketJoined(r: string, items: string, t: string)
    requires r != "" && r[0] == '[' && r[1..] == items + "]" + t
    ensures r == "[" + items + "]" + t
  {
    assert r == [r[0]] + r[1..];
  }

  lemma InlinePrinted(rest: string, gap: string, items: string, space: string, comment: string)
    requires InlineParts(rest, gap, items, space, comment)
    ensures InlineComment(rest) == Some(comment)
  {
    var r := "[" + items + "]" + (space + comment);
    SpacesOf(gap, r);
    assert r[0] == '[' && r[1..] == items + "]" + (space + comment);
    BracketAfter(items, space + comment);
    HashIsNoSpace(comment);
    SpacesOf(space, comment);
  }

  lemma HashIsNoSpace(comment: string)
    requires comment == "" || comment[0] == '#'
    ensures comment != "" ==> !IsSpace(comment[0])
  {
  }

  /** What a line is taken for: the block scalar comes first, then the inline list; of the other keys those are handled
    * that have nothing or a comment behind the colon.
    */
  lemma KindExactly(body: string)
    ensures Classify(body).ScalarOpener? <==> OpensScalar(body)
    ensures forall comment :: Classify(body) == InlineKey(comment) <==>
              !OpensScalar(body) && exists rest :: KeyRest(body) == Some(rest) && InlineComment(rest) == Some(comment)
    ensures forall note :: Classify(body) == BlockKey(note) <==>
              && !OpensScalar(body) && (note == "" || note[0] == '#')
              && exists rest :: KeyRest(body) == Some(rest) && InlineComment(rest).None? && Strip(rest) == note
    ensures Classify(body) == Unhandled <==>
              && !OpensScalar(body)
              && exists rest :: KeyRest(body) == Some(rest) && InlineComment(rest).None?
                                && Strip(rest) != "" && Strip(rest)[0] != '#'
    ensures Classify(body) == Other <==> !OpensScalar(body) && KeyRest(body).None?
  {
  }

  // ----- Items, comments and what belongs together -----

  /** Blanks, at least one, then this character. */
  ghost predicate MarkedBy(body: string, c: char, width: nat) {
    exists indent, rest :: Blanks(indent) && |indent| == width > 0 && body == indent + ([c] + rest)
  }

  lemma MarkedExactly(line: string, c: char)
    requires !IsBlankChar(c)
    ensures Marked(line, c) <==> exists width: nat :: MarkedBy(Body(line), c, width)
    ensures forall width: nat :: MarkedBy(Body(line), c, width) ==> Width(line) == width
  {
    forall width: nat | MarkedBy(Body(line), c, width) ensures Width(line) == width && Marked(line, c) {
      MarkedPrinted(line, c, width);
    }
    if Marked(line, c) {
      MarkedSplits(line, c);
      var width: nat := Width(line);
      assert MarkedBy(Body(line), c, width);
      assert exists width: nat :: MarkedBy(Body(line), c, width);
    } else {
      assert forall width: nat :: !MarkedBy(Body(line), c, width);
    }
  }

  lemma MarkedPrinted(line: string, c: char, width: nat)
    requires !IsBlankChar(c) && MarkedBy(Body(line), c, width)
    ensures Width(line) == width && Marked(line, c)
  {
    var indent, rest :| Blanks(indent) && |indent| == width > 0 && Body(line) == indent + ([c] + rest);
    assert ([c] + rest)[0] == c;
    LeadOf(indent, [c] + rest);
  }

  lemma MarkedSplits(line: string, c: char)
    requires Marked(line, c)
    ensures MarkedBy(Body(line), c, Width(line))
  {
    var body := Body(line);
    LeadSplits(body);
    Uncons(body[Lead(body)..]);
    assert body == body[..Lead(body)] + ([c] + body[Lead(body)..][1..]);
  }

  /** A line belongs to the group below a key exactly if it is an item or a comment that is indented deeper. */
  lemma InGroupExactly(line: string, width: nat)
    ensures InGroup(line, width) <==>
            exists deeper: nat :: deeper > width && (MarkedBy(Body(line), '-', deeper) || MarkedBy(Body(line), '#', deeper))
    ensures IsItem(line) ==> !IsComment(line)
  {
    MarkedExactly(line, '-');
    MarkedExactly(line, '#');
  }

  lemma {:induction false} LeadAtLeast(s: string, n: nat)
    requires n <= |s| && Blanks(s[..n])
    ensures Lead(s) >= n
  {
    if n > 0 {
      assert s[..n][0] in s[..n];
      assert s[1..][..n - 1] == s[..n][1..];
      LeadAtLeast(s[1..], n - 1);
    }
  }

  /** A line belongs to a block scalar exactly if it is blank or starts with more blanks than the key. */
  lemma InScalarExactly(line: string, width: nat)
    ensures InScalar(line, width) <==>
            (forall c | c in Body(line) :: IsSpace(c)) || (|Body(line)| > width && Blanks(Body(line)[..width + 1]))
  {
    var body := Body(line);
    if Lead(body) > width {
      assert body[..width + 1] == body[..Lead(body)][..width + 1];
    }
    if |body| > width && Blanks(body[..width + 1]) {
      LeadAtLeast(body, width + 1);
    }
  }

  /** A group is the comments before the first item, then that item and the lines behind it: the comments among those
    * are the ones that go behind the new items, in their order.
    */
  lemma {:induction false} GroupSplits(group: seq<string>)
    ensures LeadComments(group) <= group && forall line | line in LeadComments(group) :: !IsItem(line)
    ensures var n := |LeadComments(group)|;
            && (n < |group| ==> IsItem(group[n]))
            && TailComments(group) == OnlyComments(group[n..])
  {
    if group != [] {
      GroupSplits(group[1..]);
      if IsItem(group[0]) {
        Nothing(OnlyComments(group[1..]));
        assert group[0..] == group;
      } else {
        var n := |LeadComments(group)|;
        assert group[n..] == group[1..][n - 1..];
      }
    }
  }

  /** The comments of some lines: a concatenation keeps them, and of one line there is one or none. */
  lemma {:induction false} OnlyAppends(a: seq<string>, b: seq<string>)
    ensures OnlyComments(a + b) == OnlyComments(a) + OnlyComments(b)
    ensures |a| == 1 ==> OnlyComments(a) == if IsItem(a[0]) then [] else a
  {
    if a == [] {
      Nothing(b);
      Nothing(OnlyComments(b));
    } else {
      OnlyAppends(a[1..], b);
      Front(a, b);
      Regroup(if IsItem(a[0]) then [] else [a[0]], OnlyComments(a[1..]), OnlyComments(b));
    }
  }

  /** The indentation is that of the last item. */
  lemma {:induction false} ItemIndentExactly(group: seq<string>, default: string, k: nat)
    requires k < |group| && IsItem(group[k]) && forall j | k < j < |group| :: !IsItem(group[j])
    ensures ItemIndent(group, default) == Body(group[k])[..Lead(Body(group[k]))]
  {
    if k < |group| - 1 {
      ItemIndentExactly(group[..|group| - 1], default, k);
    }
  }

  /** A group without an item has the default. */
  lemma {:induction false} ItemIndentDefault(group: seq<string>, default: string)
    requires forall j | 0 <= j < |group| :: !IsItem(group[j])
    ensures ItemIndent(group, default) == default
  {
    if group != [] {
      ItemIndentDefault(group[..|group| - 1], default);
    }
  }

  // ----- Model ids -----

  /** By their code points. */
  lemma AlnumExactly(c: char)
    ensures var n := c as int; IsAlnum(c) <==> 48 <= n <= 57 || 65 <= n <= 90 || 97 <= n <= 122
  {
  }

  ghost predicate PlainId(id: string) {
    && id != "" && IsAlnum(id[0])
    && forall i | 0 <= i < |id| ::
         || IsAlnum(id[i]) || id[i] == '.' || id[i] == '_' || id[i] == '/' || id[i] == '@' || id[i] == '+' || id[i] == ':'
         || id[i] == '-'
  }

  /** A value stands unquoted in a block sequence exactly if it is a plain model id, or one with a newline behind it. */
  lemma PlainExactly(value: string)
    ensures PlainSafe(value) <==> PlainId(value) || exists id :: PlainId(id) && value == id + "\n"
    ensures Render(value, false) == value <==> PlainSafe(value)
    ensures Render(value, true) == "\"" + Escape(value) + "\""
  {
    IdExactly(value);
    if value != "" {
      IdExactly(value[..|value| - 1]);
      Unsnoc(value);
    }
    if id :| PlainId(id) && value == id + "\n" {
      Snoc(id, '\n');
    }
    EscapeLonger(value);
  }

  lemma IdExactly(id: string)
    ensures IsPlain(id) <==> PlainId(id)
  {
    if PlainId(id) {
      forall c | c in id ensures IsAlnum(c) || c in "._/@+:-" {
        var i :| 0 <= i < |id| && id[i] == c;
      }
    }
    if IsPlain(id) {
      forall i | 0 <= i < |id|
        ensures IsAlnum(id[i]) || id[i] == '.' || id[i] == '_' || id[i] == '/' || id[i] == '@' || id[i] == '+'
                || id[i] == ':' || id[i] == '-'
      {
        assert id[i] in id;
      }
    }
  }

  lemma {:induction false} EscapeLonger(value: string)
    ensures |Escape(value)| >= |value|
  {
    if value != "" {
      EscapeLonger(value[1..]);
    }
  }

  /** Character by character: a backslash before each backslash and each quote, and nothing else. */
  lemma {:induction false} EscapeExactly(a: string, c: char, b: string)
    ensures Escape(a + ([c] + b)) == Escape(a) + ((if c == '\\' || c == '\"' then ['\\', c] else [c]) + Escape(b))
    ensures Escape("") == ""
  {
    if a == "" {
      Nothing([c] + b);
      Cons(c, b);
      Nothing((if c == '\\' || c == '\"' then ['\\', c] else [c]) + Escape(b));
    } else {
      EscapeExactly(a[1..], c, b);
      Front(a, [c] + b);
      Regroup(if a[0] == '\\' || a[0] == '\"' then ['\\', a[0]] else [a[0]], Escape(a[1..]),
        (if c == '\\' || c == '\"' then ['\\', c] else [c]) + Escape(b));
    }
  }

  // ----- Prose -----

  /** The lines that match the key pattern. */
  ghost function MatchingLines(lines: seq<string>): set<nat> {
    set i: nat | i < |lines| && MatchesKey(lines[i])
  }

  lemma {:induction false} CountExactly(lines: seq<string>)
    ensures CountMatches(lines) == |MatchingLines(lines)|
  {
    if lines != [] {
      var init := lines[..|lines| - 1];
      CountExactly(init);
      CountSnoc(lines);
      MatchingSnoc(lines, init);
    }
  }

  lemma MatchingSnoc(lines: seq<string>, init: seq<string>)
    requires lines != [] && init == lines[..|lines| - 1]
    ensures |MatchingLines(lines)| == |MatchingLines(init)| + if MatchesKey(lines[|init|]) then 1 else 0
  {
    assert |init| !in MatchingLines(init);
    assert MatchingLines(lines) == MatchingLines(init) + if MatchesKey(lines[|init|]) then {|init|} else {};
  }

  lemma {:induction false} CountSnoc(lines: seq<string>)
    requires lines != []
    ensures CountMatches(lines) == CountMatches(lines[..|lines| - 1]) + if MatchesKey(lines[|lines| - 1]) then 1 else 0
  {
    if |lines| > 1 {
      CountSnoc(lines[1..]);
      assert lines[1..][..|lines| - 2] == lines[..|lines| - 1][1..];
    }
  }

  /** A text of a line that opens a block scalar and lines that are blank or indented deeper: whatever the prose says,
    * it is returned unchanged, no key is found in it, and its matching lines are counted as prose.
    */
  lemma ProseIsLeftAlone(p: ScalarLine, line: string, prose: seq<string>, chain: seq<string>)
    requires p.Fits() && Body(line) == p.Printed()
    requires forall l | l in prose ::
               (forall c | c in Body(l) :: IsSpace(c)) || (|Body(l)| > |p.indent| && Blanks(Body(l)[..|p.indent| + 1]))
    ensures var lines := [line] + prose;
            && Rewritten(lines, chain) == lines && !Changed(lines, chain)
            && TallyOf(lines) == Tally(0, 0, |MatchingLines(prose)|)
  {
    PrintedOpens(p);
    forall l | l in prose ensures InScalar(l, |p.indent|) {
      InScalarExactly(l, |p.indent|);
    }
    ScalarWhole(prose, |p.indent|);
    CountExactly(prose);
    OneChunk(line, prose, chain);
  }

  lemma {:induction false} ScalarWhole(block: seq<string>, width: nat)
    requires forall line | line in block :: InScalar(line, width)
    ensures ScalarEnd(block, width) == |block|
  {
    if block != [] {
      assert block[0] in block;
      ScalarWhole(block[1..], width);
    }
  }

  lemma OneChunk(line: string, prose: seq<string>, chain: seq<string>)
    requires OpensScalar(Body(line)) && ScalarEnd(prose, Width(line)) == |prose|
    ensures var lines := [line] + prose;
            Rewritten(lines, chain) == lines && !Changed(lines, chain) && TallyOf(lines) == Tally(0, 0, CountMatches(prose))
  {
    var lines := [line] + prose;
    Cons(line, prose);
    var n := ChunkLength(lines);
    Ends(lines);
    assert lines[..n] == lines && lines[n..] == [];
    ChunkFirst(lines, n, chain);
    Nothing(lines);
  }
}
