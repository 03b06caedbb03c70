/** The one fenced block of a named region in a markdown file (scripts/extract_doc_commands.py:40-122). */
module DocCommands {
  import opened Wrappers
  import opened Sequences
  import opened Text
  import opened Lines

  // ----- Recognising lines -----

  /** What follows some literal text and the white space before it. */
  function After(s: string, literal: string): Option<string> {
    if StartsWith(LStrip(s), literal) then Some(LStrip(s)[|literal|..]) else None
  }

  predicate IsNameChar(c: char) {
    'A' <= c <= 'Z' || 'a' <= c <= 'z' || '0' <= c <= '9' || c == '_' || c == '-'
  }

  function NameRun(s: string): (n: nat)
    ensures n <= |s| && (n < |s| ==> !IsNameChar(s[n]))
    ensures forall i | 0 <= i < n :: IsNameChar(s[i])
  {
    if s != "" && IsNameChar(s[0]) then 1 + NameRun(s[1..]) else 0
  }

  /** `OPEN_RE`: the name of the region that a line opens. The dashes of `-->` are name characters too, so the
    * name gives them back when the `>` follows at once.
    */
  function OpenName(line: string): Option<string> {
    match After(line, "<!--")
    case None => None
    case Some(inner) =>
      match After(inner, "install-gate:")
      case None => None
      case Some(tail) => NameOf(LStrip(tail))
  }

  function NameOf(s: string): Option<string> {
    var n := NameRun(s);
    if n < |s| && s[n] == '>' then
      if n >= 3 && s[n - 2..n] == "--" && IsBlank(s[n + 1..]) then Some(s[..n - 2]) else None
    else
      match After(s[n..], "-->")
      case None => None
      case Some(rest) => if n > 0 && IsBlank(rest) then Some(s[..n]) else None
  }

  /** `CLOSE_RE`. */
  predicate IsClose(line: string) {
    match After(line, "<!--")
    case None => false
    case Some(inner) =>
      match After(inner, "/install-gate")
      case None => false
      case Some(tail) =>
        match After(tail, "-->")
        case None => false
        case Some(rest) => IsBlank(rest)
  }

  predicate IsMarker(line: string) {
    OpenName(line).Some? || IsClose(line)
  }

  function RunOf(s: string, c: char): (n: nat)
    ensures n <= |s|
  {
    if s != "" && s[0] == c then 1 + RunOf(s[1..], c) else 0
  }

  /** `FENCE_RE`: the fence that a line starts with. */
  function FenceOf(line: string): Option<string> {
    if RunOf(line, '`') >= 3 then Some(line[..RunOf(line, '`')])
    else if RunOf(line, '~') >= 3 then Some(line[..RunOf(line, '~')])
    else None
  }

  /** The closing line of a fence: the same characters, no more and no fewer, and white space. */
  predicate Closes(line: string, fence: string) {
    StartsWith(line, fence) && IsBlank(line[|fence|..])
  }

  // ----- Regions and blocks -----

  datatype Error = Nested | NeverClosed | NoRegion | ManyRegions(n: nat) | NotOneFence(n: nat)

  function Prepend<T>(first: seq<T>, r: Result<seq<T>, Error>): Result<seq<T>, Error> {
    match r
    case Ok(rest) => Ok(first + rest)
    case Err(error) => Err(error)
  }

  /** The bodies of the regions that some lines close, where `open` is the body gathered so far. */
  function Regions(lines: seq<string>, name: string, open: Option<seq<string>>): Result<seq<seq<string>>, Error> {
    if lines == [] then if open.Some? then Err(NeverClosed) else Ok([])
    else if OpenName(lines[0]).Some? then
      if open.Some? then Err(Nested)
      else Regions(lines[1..], name, if OpenName(lines[0]).value == name then Some([]) else None)
    else if IsClose(lines[0]) then Prepend(if open.Some? then [open.value] else [], Regions(lines[1..], name, None))
    else Regions(lines[1..], name, if open.Some? then Some(open.value + [lines[0]]) else None)
  }

  datatype Fenced = Fenced(inner: seq<string>, fence: string)

  /** The contents of the fenced blocks of some lines, where `open` is the block being read. */
  function Blocks(lines: seq<string>, open: Option<Fenced>): seq<string> {
    if lines == [] then if open.Some? then [Unlines(open.value.inner)] else []
    else match open
      case None =>
        Blocks(lines[1..], if FenceOf(lines[0]).Some? then Some(Fenced([], FenceOf(lines[0]).value)) else None)
      case Some(Fenced(inner, fence)) =>
        if Closes(lines[0], fence) then [Unlines(inner)] + Blocks(lines[1..], None)
        else Blocks(lines[1..], Some(Fenced(inner + [lines[0]], fence)))
  }

  function Extracted(lines: seq<string>, name: string): Result<string, Error> {
    match Regions(lines, name, None)
    case Err(error) => Err(error)
    case Ok(regions) =>
      if |regions| == 0 then Err(NoRegion)
      else if |regions| > 1 then Err(ManyRegions(|regions|))
      else if |Blocks(regions[0], None)| != 1 then Err(NotOneFence(|Blocks(regions[0], None)|))
      else Ok(Blocks(regions[0], None)[0])
  }

  // ----- The loops -----

  method FindRegions(lines: seq<string>, name: string) returns (r: Result<seq<seq<string>>, Error>)
    ensures r == Regions(lines, name, None)
  {
    var regions: seq<seq<string>> := [];
    var body: Option<seq<string>> := None;
    assert lines[0..] == lines;
    PrependNothing(Regions(lines, name, None));
    for i := 0 to |lines|
      invariant Prepend(regions, Regions(lines[i..], name, body)) == Regions(lines, name, None)
    {
      assert lines[i..][0] == lines[i] && lines[i..][1..] == lines[i + 1..];
      var line := lines[i];
      if OpenName(line).Some? {
        if body.Some? {
          return Err(Nested);
        }
        body := if OpenName(line).value == name then Some([]) else None;
      } else if IsClose(line) {
        if body.Some? {
          PrependTwice(regions, [body.value], Regions(lines[i + 1..], name, None));
          regions, body := regions + [body.value], None;
        } else {
          PrependNothing(Regions(lines[i + 1..], name, None));
        }
      } else if body.Some? {
        body := Some(body.value + [line]);
      }
    }
    r := if body.Some? then Err(NeverClosed) else Ok(regions);
    assert regions + [] == regions;
  }

  lemma PrependTwice<T>(a: seq<T>, b: seq<T>, r: Result<seq<T>, Error>)
    ensures Prepend(a, Prepend(b, r)) == Prepend(a + b, r)
  {
    if r.Ok? {
      assert a + (b + r.value) == a + b + r.value;
    }
  }

  lemma PrependNothing<T>(r: Result<seq<T>, Error>)
    ensures Prepend([], r) == r
  {
    if r.Ok? {
      assert [] + r.value == r.value;
    }
  }

  method FencedBlocks(body: seq<string>) returns (blocks: seq<string>)
    ensures blocks == Blocks(body, None)
  {
    blocks := [];
    var current: Option<Fenced> := None;
    assert body[0..] == body;
    for i := 0 to |body|
      invariant blocks + Blocks(body[i..], current) == Blocks(body, None)
    {
      assert body[i..][0] == body[i] && body[i..][1..] == body[i + 1..];
      var line := body[i];
      match current {
        case None =>
          if FenceOf(line).Some? {
            current := Some(Fenced([], FenceOf(line).value));
          }
        case Some(Fenced(inner, fence)) =>
          if Closes(line, fence) {
            assert blocks + ([Unlines(inner)] + Blocks(body[i + 1..], None)) == blocks + [Unlines(inner)] + Blocks(body[i + 1..], None);
            blocks, current := blocks + [Unlines(inner)], None;
          } else {
            current := Some(Fenced(inner + [line], fence));
          }
      }
    }
    if current.Some? {
      blocks := blocks + [Unlines(current.value.inner)];
    }
  }

  /** A line without its break: `str.splitlines()`. */
  function Bare(line: string): string {
    if |line| >= 2 && line[|line| - 2..] == "\r\n" then line[..|line| - 2]
    else if line != "" && IsBreak(line[|line| - 1]) then line[..|line| - 1]
    else line
  }

  function BareLines(text: string): seq<string> {
    var lines := SplitLines(text);
    seq(|lines|, i requires 0 <= i < |lines| => Bare(lines[i]))
  }

  method ExtractBlock(text: string, name: string) returns (r: Result<string, Error>)
    ensures r == Extracted(BareLines(text), name)
  {
    var regions := FindRegions(BareLines(text), name);
    if regions.Err? {
      return Err(regions.error);
    }
    if |regions.value| == 0 {
      return Err(NoRegion);
    }
    if |regions.value| > 1 {
      return Err(ManyRegions(|regions.value|));
    }
    var blocks := FencedBlocks(regions.value[0]);
    r := if |blocks| != 1 then Err(NotOneFence(|blocks|)) else Ok(blocks[0]);
  }

  // ----- What a document with one block looks like -----

  predicate Opens(line: string, name: string) {
    OpenName(line) == Some(name)
  }

  /** No region of this name is opened. */
  ghost predicate Quiet(lines: seq<string>, name: string) {
    forall line | line in lines :: !Opens(line, name)
  }

  ghost predicate Unmarked(lines: seq<string>) {
    forall line | line in lines :: !IsMarker(line)
  }

  ghost predicate Unfenced(lines: seq<string>) {
    forall line | line in lines :: FenceOf(line).None?
  }

  ghost predicate Inside(lines: seq<string>, fence: string) {
    forall line | line in lines :: !Closes(line, fence)
  }

  /** Lines in five parts: a body between an opening and a closing line, with no marker in it and no other
    * opening of that name around it.
    */
  ghost predicate Surrounds(before: seq<string>, open: string, body: seq<string>, close: string, after: seq<string>, name: string) {
    && Opens(open, name) && IsClose(close) && OpenName(close).None?
    && Quiet(before, name) && Unmarked(body) && Quiet(after, name)
  }

  function Five(before: seq<string>, open: string, body: seq<string>, close: string, after: seq<string>): seq<string> {
    before + [open] + body + [close] + after
  }

  /** One region of the name, with this body. */
  ghost predicate OneRegion(lines: seq<string>, name: string, body: seq<string>) {
    exists before, open, close, after ::
      lines == Five(before, open, body, close, after) && Surrounds(before, open, body, close, after, name)
  }

  ghost predicate Fences(before: seq<string>, open: string, inner: seq<string>, after: seq<string>) {
    && Unfenced(before) && FenceOf(open).Some? && Inside(inner, FenceOf(open).value)
    && (after == [] || (Closes(after[0], FenceOf(open).value) && Unfenced(after[1..])))
  }

  function Four(before: seq<string>, open: string, inner: seq<string>, after: seq<string>): seq<string> {
    before + [open] + inner + after
  }

  /** One fence: up to its closing line, behind which no other starts, or up to the end of the body. */
  ghost predicate OneFence(body: seq<string>, inner: seq<string>) {
    exists before, open, after :: body == Four(before, open, inner, after) && Fences(before, open, inner, after)
  }

  lemma FiveIs(before: seq<string>, open: string, body: seq<string>, close: string, after: seq<string>)
    ensures Five(before, open, body, close, after) == before + ([open] + (body + ([close] + after)))
  {
  }

  lemma FiveLater(first: string, before: seq<string>, open: string, body: seq<string>, close: string, after: seq<string>)
    ensures [first] + Five(before, open, body, close, after) == Five([first] + before, open, body, close, after)
  {
  }

  lemma FiveFirst(open: string, body: seq<string>, close: string, after: seq<string>)
    ensures [open] + (body + [close] + after) == Five([], open, body, close, after)
  {
  }

  lemma FourLater(first: string, before: seq<string>, open: string, inner: seq<string>, after: seq<string>)
    ensures [first] + Four(before, open, inner, after) == Four([first] + before, open, inner, after)
  {
  }

  lemma FourIs(before: seq<string>, open: string, inner: seq<string>, after: seq<string>)
    ensures Four(before, open, inner, after) == before + ([open] + (inner + after))
    ensures [open] + (inner + after) == Four([], open, inner, after)
  {
  }

  // ----- Regions -----

  lemma {:induction false} QuietPasses(before: seq<string>, rest: seq<string>, name: string)
    requires Quiet(before, name)
    ensures Regions(before + rest, name, None) == Regions(rest, name, None)
  {
    if before == [] {
      assert before + rest == rest;
    } else {
      QuietPasses(before[1..], rest, name);
      Front(before, rest);
      assert before[0] in before;
      PrependNothing(Regions(rest, name, None));
    }
  }

  lemma {:induction false} BodyGathers(gathered: seq<string>, body: seq<string>, rest: seq<string>, name: string)
    requires Unmarked(body)
    ensures Regions(body + rest, name, Some(gathered)) == Regions(rest, name, Some(gathered + body))
    decreases |body|
  {
    if body == [] {
      assert body + rest == rest && gathered + body == gathered;
    } else {
      BodyGathers(gathered + [body[0]], body[1..], rest, name);
      Front(body, rest);
      assert body[0] in body;
      Uncons(body);
      Regroup(gathered, [body[0]], body[1..]);
    }
  }

  /** Without an opening line there is no region, and with one there is a region or an error. */
  lemma {:induction false} NoRegionsExactly(lines: seq<string>, name: string)
    ensures Regions(lines, name, None) == Ok([]) <==> Quiet(lines, name)
  {
    if lines != [] {
      NoRegionsExactly(lines[1..], name);
      QuietUncons(lines, name);
      if Opens(lines[0], name) {
        OpenYields([], lines[1..], name);
      } else {
        PrependNothing(Regions(lines[1..], name, None));
      }
    }
  }

  lemma QuietUncons(lines: seq<string>, name: string)
    requires lines != []
    ensures Quiet(lines, name) <==> !Opens(lines[0], name) && Quiet(lines[1..], name)
  {
    Uncons(lines);
    assert lines[0] in lines;
  }

  lemma {:induction false} OpenYields(gathered: seq<string>, lines: seq<string>, name: string)
    ensures Regions(lines, name, Some(gathered)) != Ok([])
    decreases |lines|
  {
    if lines != [] && !IsMarker(lines[0]) {
      OpenYields(gathered + [lines[0]], lines[1..], name);
    }
  }

  /** What has been gathered is closed by the next marker, and the rest is read afresh. */
  lemma {:induction false} OpenCloses(gathered: seq<string>, lines: seq<string>, name: string)
    returns (body: seq<string>, close: string, after: seq<string>)
    requires Regions(lines, name, Some(gathered)).Ok?
    ensures lines == body + [close] + after && Unmarked(body) && IsClose(close) && OpenName(close).None?
    ensures Regions(lines, name, Some(gathered)) == Prepend([gathered + body], Regions(after, name, None))
    decreases |lines|
  {
    Uncons(lines);
    if IsMarker(lines[0]) {
      body, close, after := [], lines[0], lines[1..];
      Nothing([close]);
      Nothing(gathered);
    } else {
      var rest;
      rest, close, after := OpenCloses(gathered + [lines[0]], lines[1..], name);
      body := [lines[0]] + rest;
      CloserLater(lines[0], rest, close, after);
      Regroup(gathered, [lines[0]], rest);
      UnmarkedLater(lines[0], rest);
    }
  }

  lemma CloserLater(first: string, rest: seq<string>, close: string, after: seq<string>)
    ensures [first] + (rest + [close] + after) == [first] + rest + [close] + after
  {
  }

  lemma UnmarkedLater(first: string, rest: seq<string>)
    requires !IsMarker(first) && Unmarked(rest)
    ensures Unmarked([first] + rest)
  {
  }

  lemma OneRegionFound(before: seq<string>, open: string, body: seq<string>, close: string, after: seq<string>, name: string)
    requires Surrounds(before, open, body, close, after, name)
    ensures Regions(Five(before, open, body, close, after), name, None) == Ok([body])
  {
    var inside := body + ([close] + after);
    FiveIs(before, open, body, close, after);
    QuietPasses(before, [open] + inside, name);
    Cons(open, inside);
    BodyGathers([], body, [close] + after, name);
    ClosesBody(body, close, after, name);
    Nothing(body);
  }

  lemma ClosesBody(body: seq<string>, close: string, after: seq<string>, name: string)
    requires IsClose(close) && OpenName(close).None? && Quiet(after, name)
    ensures Regions([close] + after, name, Some(body)) == Ok([body])
  {
    Cons(close, after);
    NoRegionsExactly(after, name);
    Nothing([body]);
  }

  lemma {:induction false} OneRegionSplit(lines: seq<string>, name: string, body: seq<string>)
    requires Regions(lines, name, None) == Ok([body])
    ensures OneRegion(lines, name, body)
  {
    Uncons(lines);
    if Opens(lines[0], name) {
      OpenSplit(lines[0], lines[1..], name, body);
    } else {
      PrependNothing(Regions(lines[1..], name, None));
      OneRegionSplit(lines[1..], name, body);
      OneRegionLater(lines[0], lines[1..], name, body);
    }
  }

  lemma OpenSplit(open: string, lines: seq<string>, name: string, body: seq<string>)
    requires Opens(open, name) && Regions(lines, name, Some([])) == Ok([body])
    ensures OneRegion([open] + lines, name, body)
  {
    var inner, close, after := OpenCloses([], lines, name);
    Nothing(inner);
    OnlyOne(inner, Regions(after, name, None), body);
    NoRegionsExactly(after, name);
    FiveFirst(open, inner, close, after);
    assert Surrounds([], open, inner, close, after, name);
  }

  lemma OneRegionLater(first: string, rest: seq<string>, name: string, body: seq<string>)
    requires !Opens(first, name) && OneRegion(rest, name, body)
    ensures OneRegion([first] + rest, name, body)
  {
    var before, open, close, after :| rest == Five(before, open, body, close, after)
      && Surrounds(before, open, body, close, after, name);
    FiveLater(first, before, open, body, close, after);
    QuietLater(first, before, name);
    OneRegionOf([first] + before, open, body, close, after, name);
  }

  lemma QuietLater(first: string, before: seq<string>, name: string)
    requires !Opens(first, name) && Quiet(before, name)
    ensures Quiet([first] + before, name)
  {
  }

  lemma OneRegionOf(before: seq<string>, open: string, body: seq<string>, close: string, after: seq<string>, name: string)
    requires Surrounds(before, open, body, close, after, name)
    ensures OneRegion(Five(before, open, body, close, after), name, body)
  {
  }

  lemma OnlyOne<T>(first: T, rest: Result<seq<T>, Error>, only: T)
    requires Prepend([first], rest) == Ok([only])
    ensures first == only && rest == Ok([])
  {
    assert ([first] + rest.value)[0] == first;
    assert |[first] + rest.value| == 1 + |rest.value|;
  }

  lemma OneRegionExactly(lines: seq<string>, name: string, body: seq<string>)
    ensures Regions(lines, name, None) == Ok([body]) <==> OneRegion(lines, name, body)
  {
    if OneRegion(lines, name, body) {
      var before, open, close, after :| lines == Five(before, open, body, close, after)
        && Surrounds(before, open, body, close, after, name);
      OneRegionFound(before, open, body, close, after, name);
    }
    if Regions(lines, name, None) == Ok([body]) {
      OneRegionSplit(lines, name, body);
    }
  }

  // ----- Fences -----

  lemma {:induction false} UnfencedPasses(before: seq<string>, rest: seq<string>)
    requires Unfenced(before)
    ensures Blocks(before + rest, None) == Blocks(rest, None)
  {
    if before == [] {
      assert before + rest == rest;
    } else {
      UnfencedPasses(before[1..], rest);
      Front(before, rest);
      assert before[0] in before;
    }
  }

  lemma {:induction false} InsideGathers(gathered: seq<string>, fence: string, inner: seq<string>, rest: seq<string>)
    requires Inside(inner, fence)
    ensures Blocks(inner + rest, Some(Fenced(gathered, fence))) == Blocks(rest, Some(Fenced(gathered + inner, fence)))
    decreases |inner|
  {
    if inner == [] {
      assert inner + rest == rest && gathered + inner == gathered;
    } else {
      InsideGathers(gathered + [inner[0]], fence, inner[1..], rest);
      Front(inner, rest);
      assert inner[0] in inner;
      Uncons(inner);
      Regroup(gathered, [inner[0]], inner[1..]);
    }
  }

  lemma {:induction false} OpenBlock(gathered: seq<string>, fence: string, lines: seq<string>)
    returns (inner: seq<string>, after: seq<string>)
    ensures lines == inner + after && Inside(inner, fence) && (after == [] || Closes(after[0], fence))
    ensures Blocks(lines, Some(Fenced(gathered, fence)))
            == [Unlines(gathered + inner)] + if after == [] then [] else Blocks(after[1..], None)
    decreases |lines|
  {
    if lines == [] || Closes(lines[0], fence) {
      inner, after := [], lines;
      assert gathered + inner == gathered && inner + after == lines;
    } else {
      var rest;
      rest, after := OpenBlock(gathered + [lines[0]], fence, lines[1..]);
      inner := [lines[0]] + rest;
      Uncons(lines);
      Regroup([lines[0]], rest, after);
      Regroup(gathered, [lines[0]], rest);
    }
  }

  lemma {:induction false} NoBlocksExactly(lines: seq<string>)
    ensures Blocks(lines, None) == [] <==> Unfenced(lines)
  {
    if lines != [] {
      Uncons(lines);
      assert lines[0] in lines;
      NoBlocksExactly(lines[1..]);
      if FenceOf(lines[0]).Some? {
        var inner, after := OpenBlock([], FenceOf(lines[0]).value, lines[1..]);
      } else {
        assert Unfenced(lines) <==> Unfenced(lines[1..]);
      }
    }
  }

  lemma OneFenceFound(before: seq<string>, open: string, inner: seq<string>, after: seq<string>)
    requires Fences(before, open, inner, after)
    ensures Blocks(Four(before, open, inner, after), None) == [Unlines(inner)]
  {
    FourIs(before, open, inner, after);
    UnfencedPasses(before, [open] + (inner + after));
    Cons(open, inner + after);
    InsideGathers([], FenceOf(open).value, inner, after);
    Nothing(inner);
    if after != [] {
      NoBlocksExactly(after[1..]);
    }
  }

  lemma {:induction false} OneFenceSplit(body: seq<string>)
    requires |Blocks(body, None)| == 1
    ensures exists inner :: OneFence(body, inner) && Blocks(body, None) == [Unlines(inner)]
  {
    Uncons(body);
    if FenceOf(body[0]).Some? {
      FenceSplit(body[0], body[1..]);
    } else {
      OneFenceSplit(body[1..]);
      var inner :| OneFence(body[1..], inner) && Blocks(body[1..], None) == [Unlines(inner)];
      OneFenceLater(body[0], body[1..], inner);
    }
  }

  lemma FenceSplit(open: string, lines: seq<string>)
    requires FenceOf(open).Some? && |Blocks(lines, Some(Fenced([], FenceOf(open).value)))| == 1
    ensures exists inner ::
              && OneFence([open] + lines, inner)
              && Blocks(lines, Some(Fenced([], FenceOf(open).value))) == [Unlines(inner)]
  {
    var inner, after := OpenBlock([], FenceOf(open).value, lines);
    Nothing(inner);
    if after != [] {
      assert |Blocks(after[1..], None)| == 0;
      NoBlocksExactly(after[1..]);
    }
    FourIs([], open, inner, after);
    assert Fences([], open, inner, after);
  }

  lemma OneFenceLater(first: string, rest: seq<string>, inner: seq<string>)
    requires FenceOf(first).None? && OneFence(rest, inner)
    ensures OneFence([first] + rest, inner)
  {
    var before, open, after :| rest == Four(before, open, inner, after) && Fences(before, open, inner, after);
    FourLater(first, before, open, inner, after);
    assert Fences([first] + before, open, inner, after);
  }

  // ----- Main results -----

  /** Extraction succeeds exactly when the lines hold one region of the name, and it one fence; what is returned
    * are the lines inside, each with a newline.
    */
  lemma ExtractsExactly(lines: seq<string>, name: string, out: string)
    ensures Extracted(lines, name) == Ok(out)
            <==> exists body, inner :: OneRegion(lines, name, body) && OneFence(body, inner) && out == Unlines(inner)
  {
    if Extracted(lines, name) == Ok(out) {
      var regions := Regions(lines, name, None).value;
      var body := regions[0];
      assert regions == [body];
      OneRegionExactly(lines, name, body);
      OneFenceSplit(body);
    }
    if body, inner :| OneRegion(lines, name, body) && OneFence(body, inner) && out == Unlines(inner) {
      OneRegionExactly(lines, name, body);
      OneFenceIs(body, inner);
    }
  }

  lemma OneFenceIs(body: seq<string>, inner: seq<string>)
    requires OneFence(body, inner)
    ensures Blocks(body, None) == [Unlines(inner)]
  {
    var before, open, after :| body == Four(before, open, inner, after) && Fences(before, open, inner, after);
    OneFenceFound(before, open, inner, after);
  }

  // ----- Printing a document and extracting from it -----

  const Comment := "<!--"
  const Gate := "install-gate:"
  const EndGate := "/install-gate"
  const End := "-->"

  function Spaced(literal: string, rest: string): string {
    " " + literal + rest
  }

  function NameTail(name: string): string {
    " " + (name + Spaced(End, ""))
  }

  function OpenLine(name: string): string {
    Comment + Spaced(Gate, NameTail(name))
  }

  const CloseLine := Comment + Spaced(EndGate, Spaced(End, ""))

  predicate IsRegionName(name: string) {
    name != "" && forall c | c in name :: IsNameChar(c)
  }

  /** By their code points: letters, digits, `_` and `-`. */
  lemma NameCharExactly(c: char)
    ensures var n := c as int;
            IsNameChar(c) <==> 65 <= n <= 90 || 97 <= n <= 122 || 48 <= n <= 57 || n == 95 || n == 45
  {
  }

  /** A literal is found exactly behind white space. */
  lemma AfterExactly(s: string, literal: string, rest: string)
    requires literal != "" && !IsSpace(literal[0])
    ensures After(s, literal) == Some(rest) <==> exists gap :: IsBlank(gap) && s == gap + (literal + rest)
  {
    if After(s, literal) == Some(rest) {
      Halves(s, Spaces(s));
      Halves(LStrip(s), |literal|);
      assert IsBlank(s[..Spaces(s)]) && s == s[..Spaces(s)] + (literal + rest);
    }
    if gap :| IsBlank(gap) && s == gap + (literal + rest) {
      GapSkipped(gap, literal + rest);
      Sequences.Parts(literal, rest);
    }
  }

  lemma GapSkipped(gap: string, rest: string)
    requires IsBlank(gap) && (rest == "" || !IsSpace(rest[0]))
    ensures Spaces(gap + rest) == |gap| && LStrip(gap + rest) == rest
  {
    assert forall i | 0 <= i < |gap| :: (gap + rest)[i] == gap[i] && gap[i] in gap;
    SpacesIs(gap + rest, |gap|);
  }

  /** The parts of a line that opens a region: white space wherever the pattern allows it. */
  datatype OpenParts = OpenParts(a: string, b: string, c: string, name: string, d: string, e: string)
  {
    ghost predicate Fits() {
      IsBlank(a) && IsBlank(b) && IsBlank(c) && IsBlank(d) && IsBlank(e) && IsRegionName(name)
    }

    function Named(): string {
      name + (d + ("-->" + e))
    }

    function Line(): string {
      a + ("<!--" + (b + ("install-gate:" + (c + Named()))))
    }
  }

  /** A line opens the region `name` exactly if it is printed so. */
  lemma OpensExactly(line: string, name: string)
    ensures OpenName(line) == Some(name) <==> exists p: OpenParts :: p.Fits() && p.name == name && p.Line() == line
  {
    if OpenName(line) == Some(name) {
      var p := OpenSplits(line, name);
    }
    if p: OpenParts :| p.Fits() && p.name == name && p.Line() == line {
      OpenPrinted(p);
    }
  }

  lemma OpenSplits(line: string, name: string) returns (p: OpenParts)
    requires OpenName(line) == Some(name)
    ensures p.Fits() && p.name == name && p.Line() == line
  {
    var inner := After(line, Comment).value;
    AfterExactly(line, Comment, inner);
    var a :| IsBlank(a) && line == a + (Comment + inner);
    var tail := After(inner, Gate).value;
    AfterExactly(inner, Gate, tail);
    var b :| IsBlank(b) && inner == b + (Gate + tail);
    var d, e := NameSplits(LStrip(tail), name);
    p := OpenParts(a, b, tail[..Spaces(tail)], name, d, e);
    Halves(tail, Spaces(tail));
    assert IsBlank(p.c);
  }

  lemma NameSplits(s: string, name: string) returns (d: string, e: string)
    requires NameOf(s) == Some(name)
    ensures IsBlank(d) && IsBlank(e) && IsRegionName(name) && s == name + (d + ("-->" + e))
  {
    var n := NameRun(s);
    if n < |s| && s[n] == '>' {
      d, e := "", s[n + 1..];
      assert s[n - 2..] == s[n - 2..n] + ([s[n]] + s[n + 1..]);
      Halves(s, n - 2);
    } else {
      var rest := After(s[n..], End).value;
      AfterExactly(s[n..], End, rest);
      d :| IsBlank(d) && s[n..] == d + (End + rest);
      e := rest;
      Halves(s, n);
    }
  }

  /** The name against the end of the comment at once. */
  lemma NameTight(name: string, e: string)
    requires IsRegionName(name) && IsBlank(e)
    ensures NameOf(name + "--" + (">" + e)) == Some(name)
  {
    var run, tail := name + "--", ">" + e;
    var s := run + tail;
    NameRunIs(run, tail);
    Sequences.Parts(run, tail);
    Sequences.Parts(name, "--");
    assert s[|run|] == '>' && s[|run| + 1..] == e;
    assert s[|run| - 2..|run|] == "--" && s[..|run| - 2] == name;
  }

  /** The name with white space behind it. */
  lemma NameLoose(name: string, d: string, e: string)
    requires IsRegionName(name) && IsBlank(d) && IsBlank(e) && d != ""
    ensures NameOf(name + (d + ("-->" + e))) == Some(name)
  {
    var rest := d + ("-->" + e);
    assert d[0] in d && rest[0] == d[0];
    SpaceIsNoName(d[0]);
    NameRunIs(name, rest);
    Sequences.Parts(name, rest);
    AfterExactly(rest, End, e);
    assert (name + rest)[|name|] == d[0];
  }

  lemma NamePrinted(p: OpenParts)
    requires p.Fits()
    ensures NameOf(p.Named()) == Some(p.name)
  {
    if p.d == "" {
      NameTight(p.name, p.e);
      assert p.Named() == p.name + "--" + (">" + p.e);
    } else {
      NameLoose(p.name, p.d, p.e);
    }
  }

  lemma SpaceIsNoName(c: char)
    requires IsSpace(c)
    ensures !IsNameChar(c) && c != '>'
  {
  }

  lemma OpenPrinted(p: OpenParts)
    requires p.Fits()
    ensures OpenName(p.Line()) == Some(p.name)
  {
    var tail := p.c + p.Named();
    var inner := p.b + ("install-gate:" + tail);
    AfterExactly(p.Line(), "<!--", inner);
    AfterExactly(inner, "install-gate:", tail);
    NameFirst(p);
    NamePrinted(p);
  }

  lemma NameFirst(p: OpenParts)
    requires p.Fits()
    ensures LStrip(p.c + p.Named()) == p.Named()
  {
    assert p.name[0] in p.name && p.Named()[0] == p.name[0];
    if IsSpace(p.name[0]) {
      SpaceIsNoName(p.name[0]);
    }
    GapSkipped(p.c, p.Named());
  }

  /** A line closes a region exactly if it is the closing marker, with white space wherever the pattern allows it. */
  lemma CloseExactly(line: string)
    ensures IsClose(line) <==>
            exists a, b, c, d ::
              && IsBlank(a) && IsBlank(b) && IsBlank(c) && IsBlank(d)
              && line == a + ("<!--" + (b + ("/install-gate" + (c + ("-->" + d)))))
  {
    if IsClose(line) {
      var a, b, c, d := CloseSplits(line);
    }
    if a, b, c, d :|
         && IsBlank(a) && IsBlank(b) && IsBlank(c) && IsBlank(d)
         && line == a + ("<!--" + (b + ("/install-gate" + (c + ("-->" + d)))))
    {
      ClosePrinted(line, a, b, c, d);
    }
  }

  lemma CloseSplits(line: string) returns (a: string, b: string, c: string, d: string)
    requires IsClose(line)
    ensures IsBlank(a) && IsBlank(b) && IsBlank(c) && IsBlank(d)
    ensures line == a + ("<!--" + (b + ("/install-gate" + (c + ("-->" + d)))))
  {
    var inner := After(line, Comment).value;
    AfterExactly(line, Comment, inner);
    a :| IsBlank(a) && line == a + (Comment + inner);
    var tail := After(inner, EndGate).value;
    AfterExactly(inner, EndGate, tail);
    b :| IsBlank(b) && inner == b + (EndGate + tail);
    d := After(tail, End).value;
    AfterExactly(tail, End, d);
    c :| IsBlank(c) && tail == c + (End + d);
  }

  lemma ClosePrinted(line: string, a: string, b: string, c: string, d: string)
    requires IsBlank(a) && IsBlank(b) && IsBlank(c) && IsBlank(d)
    requires line == a + ("<!--" + (b + ("/install-gate" + (c + ("-->" + d)))))
    ensures IsClose(line)
  {
    var tail := c + (End + d);
    var inner := b + (EndGate + tail);
    AfterExactly(line, Comment, inner);
    AfterExactly(inner, EndGate, tail);
    AfterExactly(tail, End, d);
  }

  /** A fence is a whole run of three or more backticks, or of tildes, at the start of its line. */
  lemma FenceExactly(line: string, fence: string)
    ensures FenceOf(line) == Some(fence) <==>
            && |fence| >= 3 && fence <= line
            && (fence[0] == '`' || fence[0] == '~') && (forall i | 0 <= i < |fence| :: fence[i] == fence[0])
            && (|fence| < |line| ==> line[|fence|] != fence[0])
  {
    RunChars(line, '`');
    RunChars(line, '~');
    if |fence| >= 3 && fence <= line && (forall i | 0 <= i < |fence| :: fence[i] == fence[0])
       && (|fence| < |line| ==> line[|fence|] != fence[0])
    {
      assert fence[0] == line[0] && line[..|fence|] == fence;
      assert forall i | 0 <= i < |fence| :: line[i] == fence[i];
      RunLong(line, fence[0], |fence|);
      RunOther(line, '`');
      RunOther(line, '~');
    }
  }

  lemma {:induction false} RunLong(s: string, c: char, n: nat)
    requires n <= |s| && (forall i | 0 <= i < n :: s[i] == c) && (n < |s| ==> s[n] != c)
    ensures RunOf(s, c) == n
  {
    if n > 0 {
      RunLong(s[1..], c, n - 1);
    }
  }

  lemma {:induction false} NameRunIs(name: string, rest: string)
    requires (forall c | c in name :: IsNameChar(c)) && (rest == "" || !IsNameChar(rest[0]))
    ensures NameRun(name + rest) == |name|
  {
    if name == "" {
      assert name + rest == rest;
    } else {
      assert name[0] in name && (name + rest)[1..] == name[1..] + rest;
      NameRunIs(name[1..], rest);
    }
  }

  /** A literal behind at most one space is found, and what follows it. */
  lemma AfterSpace(literal: string, rest: string)
    requires literal != "" && !IsSpace(literal[0])
    ensures After(literal + rest, literal) == Some(rest) && After(Spaced(literal, rest), literal) == Some(rest)
  {
    SpacesIs(literal + rest, 0);
    assert (literal + rest)[0..] == literal + rest;
    var s := Spaced(literal, rest);
    SpacesIs(s, 1);
    assert s[1..] == literal + rest;
    assert (literal + rest)[|literal|..] == rest && (literal + rest)[..|literal|] == literal;
  }

  lemma NameTailIs(name: string)
    requires IsRegionName(name)
    ensures NameOf(LStrip(NameTail(name))) == Some(name)
  {
    var end := Spaced(End, "");
    var named := name + end;
    assert name[0] in name;
    SpacesIs(NameTail(name), 1);
    assert NameTail(name)[1..] == named;
    NameRunIs(name, end);
    assert named[|name|..] == end && named[..|name|] == name;
    AfterSpace(End, "");
  }

  lemma OpenLineOpens(name: string)
    requires IsRegionName(name)
    ensures OpenName(OpenLine(name)) == Some(name)
  {
    NameTailIs(name);
    OpensWith(NameTail(name), Spaced(Gate, NameTail(name)));
  }

  lemma OpensWith(tail: string, inner: string)
    requires inner == Spaced(Gate, tail)
    ensures OpenName(Comment + inner) == NameOf(LStrip(tail))
  {
    AfterSpace(Comment, inner);
    AfterSpace(Gate, tail);
  }

  lemma CloseLineCloses()
    ensures IsClose(CloseLine) && OpenName(CloseLine).None?
  {
    ClosesWith(Spaced(End, ""), Spaced(EndGate, Spaced(End, "")));
  }

  lemma ClosesWith(tail: string, inner: string)
    requires inner == Spaced(EndGate, tail) && tail == Spaced(End, "")
    ensures IsClose(Comment + inner) && OpenName(Comment + inner).None?
  {
    AfterSpace(Comment, inner);
    AfterSpace(EndGate, tail);
    AfterSpace(End, "");
    NotGate(tail);
  }

  lemma NotGate(tail: string)
    ensures After(Spaced(EndGate, tail), Gate).None?
  {
    var inner := Spaced(EndGate, tail);
    SpacesIs(inner, 1);
    assert LStrip(inner)[0] == '/';
  }

  lemma {:induction false} RunIs(n: nat, c: char, rest: string)
    requires rest == "" || rest[0] != c
    ensures RunOf(seq(n, i => c) + rest, c) == n
  {
    var run := seq(n, i => c);
    if n == 0 {
      assert run + rest == rest;
    } else {
      RunIs(n - 1, c, rest);
      assert (run + rest)[1..] == seq(n - 1, i => c) + rest;
    }
  }

  lemma {:induction false} RunChars(s: string, c: char)
    ensures forall i | 0 <= i < RunOf(s, c) :: s[i] == c
    ensures RunOf(s, c) < |s| ==> s[RunOf(s, c)] != c
  {
    if s != "" && s[0] == c {
      RunChars(s[1..], c);
    }
  }

  /** A fence is closed by a line with a fence of exactly its length and nothing else: a longer one, which
    * section 4.5 of CommonMark would accept, does not close it.
    */
  lemma ClosesExactly(line: string, fence: string)
    requires FenceOf(fence) == Some(fence)
    ensures Closes(line, fence) <==> FenceOf(line) == Some(fence) && IsBlank(line[|fence|..])
  {
    var c := fence[0];
    RunChars(fence, '`');
    RunChars(fence, '~');
    assert fence == seq(|fence|, i => c);
    if Closes(line, fence) {
      var rest := line[|fence|..];
      assert line == fence + rest;
      assert rest != "" ==> rest[0] in rest;
      RunIs(|fence|, c, rest);
      RunOther(line, '`');
    }
  }

  lemma RunOther(line: string, c: char)
    ensures line != "" && line[0] != c ==> RunOf(line, c) == 0
  {
  }

  const Ticks := "```"

  function Printed(before: seq<string>, name: string, info: string, body: seq<string>, after: seq<string>): seq<string> {
    Five(before, OpenLine(name), Four([], Ticks + info, body, [Ticks + ""]), CloseLine, after)
  }

  lemma FenceLine(info: string)
    requires info == "" || info[0] != '`'
    ensures FenceOf(Ticks + info) == Some(Ticks)
  {
    var line := Ticks + info;
    RunOther(info, '`');
    var two, one := line[1..], line[2..];
    assert one[1..] == info && two[1..] == one;
    assert RunOf(one, '`') == 1 && RunOf(two, '`') == 2;
    assert line[..3] == Ticks;
  }

  lemma TickLine(line: string)
    requires line != "" && line[0] == '`'
    ensures !IsMarker(line)
  {
    SpacesIs(line, 0);
    Ends(line);
    NotComment(line);
  }

  lemma NotComment(line: string)
    requires LStrip(line) == line && line != "" && line[0] == '`'
    ensures After(line, Comment).None?
  {
    StartsOtherwise(line, Comment);
  }

  lemma FencedUnmarked(open: string, body: seq<string>, close: string)
    requires open != "" && open[0] == '`' && close != "" && close[0] == '`' && Unmarked(body)
    ensures Unmarked(Four([], open, body, [close]))
  {
    TickLine(open);
    TickLine(close);
    var lines := Four([], open, body, [close]);
    forall line | line in lines ensures !IsMarker(line) {
      assert line == open || line in body || line == close;
    }
  }

  lemma FencedOnce(info: string, body: seq<string>)
    requires (info == "" || info[0] != '`') && Inside(body, Ticks)
    ensures OneFence(Four([], Ticks + info, body, [Ticks + ""]), body)
  {
    FenceLine(info);
    assert Closes(Ticks + "", Ticks);
    assert Fences([], Ticks + info, body, [Ticks + ""]);
  }

  /** Extraction undoes printing: the lines of the block come back as they were written. */
  lemma PrintThenExtract(before: seq<string>, name: string, info: string, body: seq<string>, after: seq<string>)
    requires IsRegionName(name) && (info == "" || info[0] != '`')
    requires Quiet(before, name) && Quiet(after, name) && Unmarked(body) && Inside(body, Ticks)
    ensures Extracted(Printed(before, name, info, body, after), name) == Ok(Unlines(body))
  {
    OpenLineOpens(name);
    CloseLineCloses();
    FencedUnmarked(Ticks + info, body, Ticks + "");
    FencedOnce(info, body);
    Gathered(before, OpenLine(name), Four([], Ticks + info, body, [Ticks + ""]), CloseLine, after, name, body);
  }

  lemma Gathered(before: seq<string>, open: string, fenced: seq<string>, close: string, after: seq<string>, name: string,
                 body: seq<string>)
    requires Surrounds(before, open, fenced, close, after, name) && OneFence(fenced, body)
    ensures Extracted(Five(before, open, fenced, close, after), name) == Ok(Unlines(body))
  {
    OneRegionOf(before, open, fenced, close, after, name);
    ExtractsExactly(Five(before, open, fenced, close, after), name, Unlines(body));
  }

  function Ended(lines: seq<string>): seq<string> {
    seq(|lines|, i requires 0 <= i < |lines| => lines[i] + "\n")
  }

  lemma {:induction false} UnlinesIsFlatten(lines: seq<string>)
    ensures Unlines(lines) == Flatten(Ended(lines))
  {
    if lines != [] {
      UnlinesIsFlatten(lines[1..]);
      assert Ended(lines)[1..] == Ended(lines[1..]);
    }
  }

  lemma EndedTerminated(lines: seq<string>)
    requires forall line | line in lines :: NoBreak(line)
    ensures forall line | line in Ended(lines) :: Terminated(line)
  {
    forall i | 0 <= i < |lines| ensures Terminated(Ended(lines)[i]) {
      assert lines[i] in lines && EndsLine("\n");
    }
  }

  /** Lines written one below the other are the lines that are read. */
  lemma ReadsBack(lines: seq<string>)
    requires forall line | line in lines :: NoBreak(line)
    ensures BareLines(Unlines(lines)) == lines
  {
    EndedTerminated(lines);
    UnlinesIsFlatten(lines);
    SplitAfter(Ended(lines), "");
    Nothing(Flatten(Ended(lines)));
    Nothing(Ended(lines));
    forall i | 0 <= i < |lines| ensures Bare(Ended(lines)[i]) == lines[i] {
      assert lines[i] in lines;
      BareOf(lines[i]);
    }
  }

  /** The line break is taken off, whatever it is, and nothing else. */
  lemma BareExactly(line: string, body: string, eol: string)
    requires IsLine(line, body, eol)
    ensures Bare(line) == body
  {
    assert body != "" ==> body[|body| - 1] in body;
    Sequences.Parts(body, eol);
    if eol == "" {
      Nothing(body);
    } else if |eol| == 1 {
      assert line[|line| - 1] == eol[0];
      assert |line| >= 2 ==> line[|line| - 2] == body[|body| - 1];
    }
  }

  lemma BareOf(line: string)
    requires NoBreak(line)
    ensures Bare(line + "\n") == line
  {
    assert line != "" ==> line[|line| - 1] in line;
    assert (line + "\n")[..|line|] == line;
  }

  /** From the text: a document written with one region of one fenced block gives back the text of the block. */
  lemma RoundTrip(before: seq<string>, name: string, info: string, body: seq<string>, after: seq<string>)
    requires IsRegionName(name) && (info == "" || info[0] != '`')
    requires Quiet(before, name) && Quiet(after, name) && Unmarked(body) && Inside(body, Ticks)
    requires forall line | line in Printed(before, name, info, body, after) :: NoBreak(line)
    ensures Extracted(BareLines(Unlines(Printed(before, name, info, body, after))), name) == Ok(Unlines(body))
  {
    ReadsBack(Printed(before, name, info, body, after));
    PrintThenExtract(before, name, info, body, after);
  }
}
