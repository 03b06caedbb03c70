/** Text as lines with their terminators, the way `str.splitlines` sees it. */
module Lines {
  import opened Sequences
  import opened Text

  /** The characters `str.splitlines` breaks at. */
  predicate IsBreak(c: char) {
    || '\n' <= c <= '\r' || '\U{1C}' <= c <= '\U{1E}' || c == '\U{85}' || c == '\U{2028}' || c == '\U{2029}'
  }

  /** By their code points. */
  lemma BreakExactly(c: char)
    ensures IsBreak(c) <==> c as int in {10, 11, 12, 13, 28, 29, 30, 133, 8232, 8233}
  {
  }

  ghost predicate NoBreak(s: string) {
    forall c | c in s :: !IsBreak(c)
  }

  /** The length of the first line of `s`, terminator included; `\r\n` is one terminator. */
  function FirstLine(s: string): (n: nat)
    requires s != ""
    ensures 0 < n <= |s|
  {
    if IsBreak(s[0]) then
      if s[0] == '\r' && |s| > 1 && s[1] == '\n' then 2 else 1
    else if |s| == 1 then 1
    else 1 + FirstLine(s[1..])
  }

  /** `s.splitlines(keepends=True)`. */
  function SplitLines(s: string): (lines: seq<string>)
    ensures forall line | line in lines :: line != ""
  {
    if s == "" then [] else [s[..FirstLine(s)]] + SplitLines(s[FirstLine(s)..])
  }

  function Flatten(lines: seq<string>): string {
    if lines == [] then "" else lines[0] + Flatten(lines[1..])
  }

  lemma {:induction false} FlattenOfSplit(s: string)
    ensures Flatten(SplitLines(s)) == s
  {
    if s != "" {
      FlattenOfSplit(s[FirstLine(s)..]);
      assert SplitLines(s)[1..] == SplitLines(s[FirstLine(s)..]);
    }
  }

  lemma {:induction false} FlattenAppend(a: seq<string>, b: seq<string>)
    ensures Flatten(a + b) == Flatten(a) + Flatten(b)
  {
    if a == [] {
      Nothing(b);
      Nothing(Flatten(b));
    } else {
      FlattenAppend(a[1..], b);
      Front(a, b);
      Regroup(a[0], Flatten(a[1..]), Flatten(b));
    }
  }

  /** A line with one line break, at its end. A bare `\r` does not end a line here: a `\n` that came to stand
    * behind it would change what it is.
    */
  ghost predicate Terminated(line: string) {
    exists body, eol :: EndsLine(eol) && NoBreak(body) && line == body + eol
  }

  predicate IsEol(eol: string) {
    eol == "\n" || eol == "\r\n"
  }

  predicate EndsLine(eol: string) {
    IsEol(eol) || (|eol| == 1 && IsBreak(eol[0]) && eol[0] != '\r')
  }

  /** A text of whole lines: it ends in `\n`, if it is not empty, and every `\r` stands before a `\n`. */
  predicate Whole(text: string) {
    && (text == "" || text[|text| - 1] == '\n')
    && forall i | 0 <= i < |text| && text[i] == '\r' :: i + 1 < |text| && text[i + 1] == '\n'
  }

  lemma {:induction false} FirstLineIs(body: string, eol: string, rest: string)
    requires NoBreak(body) && EndsLine(eol)
    ensures FirstLine(body + eol + rest) == |body + eol|
  {
    var s := body + eol + rest;
    if body != "" {
      FirstLineIs(body[1..], eol, rest);
      assert s[1..] == body[1..] + eol + rest;
      assert body[0] in body;
    }
  }

  lemma {:induction false} SplitAfter(lines: seq<string>, rest: string)
    requires forall line | line in lines :: Terminated(line)
    ensures SplitLines(Flatten(lines) + rest) == lines + SplitLines(rest)
  {
    if lines == [] {
      Nothing(rest);
      Nothing(SplitLines(rest));
    } else {
      assert Terminated(lines[0]);
      var tail := Flatten(lines[1..]) + rest;
      SplitAfter(lines[1..], rest);
      Regroup(lines[0], Flatten(lines[1..]), rest);
      SplitFirst(lines[0], tail);
      Uncons(lines);
      Regroup([lines[0]], lines[1..], SplitLines(rest));
    }
  }

  lemma SplitFirst(line: string, rest: string)
    requires Terminated(line)
    ensures SplitLines(line + rest) == [line] + SplitLines(rest)
  {
    var body, eol :| EndsLine(eol) && NoBreak(body) && line == body + eol;
    FirstLineIs(body, eol, rest);
    Parts(line, rest);
  }

  lemma {:induction false} FirstLineShape(s: string)
    requires s != "" && Whole(s)
    ensures Terminated(s[..FirstLine(s)])
  {
    var n := FirstLine(s);
    if IsBreak(s[0]) {
      Nothing(s[..n]);
      assert EndsLine(s[..n]);
    } else {
      FirstLineShape(s[1..]);
      var body, eol :| EndsLine(eol) && NoBreak(body) && s[1..][..n - 1] == body + eol;
      assert s[..n] == [s[0]] + s[1..][..n - 1];
      Regroup([s[0]], body, eol);
    }
  }

  lemma WholeRest(s: string, n: nat)
    requires Whole(s) && n <= |s|
    ensures Whole(s[n..])
  {
    assert forall i | 0 <= i < |s[n..]| :: s[n..][i] == s[n + i];
  }

  lemma {:induction false} SplitTerminated(s: string)
    requires Whole(s)
    ensures forall line | line in SplitLines(s) :: Terminated(line)
  {
    if s != "" {
      FirstLineShape(s);
      WholeRest(s, FirstLine(s));
      assert SplitLines(s)[1..] == SplitLines(s[FirstLine(s)..]);
      SplitTerminated(s[FirstLine(s)..]);
    }
  }

  /** One line of a text: no line break but the one it ends in. Only the last line may have none, and `\r` and a `\n`
    * behind it are never torn apart.
    */
  ghost predicate IsLine(line: string, body: string, eol: string) {
    && NoBreak(body) && line == body + eol && line != ""
    && (eol == "" || eol == "\r\n" || (|eol| == 1 && IsBreak(eol[0])))
  }

  ghost predicate IsLineBefore(line: string, rest: string) {
    exists body, eol ::
      IsLine(line, body, eol) && (eol == "" ==> rest == "") && (eol == "\r" ==> rest == "" || rest[0] != '\n')
  }

  ghost predicate AreLines(lines: seq<string>) {
    forall i | 0 <= i < |lines| :: IsLineBefore(lines[i], Flatten(lines[i + 1..]))
  }

  /** The lines of any text are the only ones it can be cut into. */
  lemma {:induction false} SplitExactly(s: string, lines: seq<string>)
    ensures SplitLines(s) == lines <==> Flatten(lines) == s && AreLines(lines)
  {
    FlattenOfSplit(s);
    SplitAreLines(s);
    if Flatten(lines) == s && AreLines(lines) {
      OnlyLines(lines);
    }
  }

  lemma {:induction false} FirstLineEnds(s: string)
    requires s != ""
    ensures IsLineBefore(s[..FirstLine(s)], s[FirstLine(s)..])
  {
    var n := FirstLine(s);
    if IsBreak(s[0]) {
      Nothing(s[..n]);
      assert IsLine(s[..n], "", s[..n]);
    } else if |s| == 1 {
      Nothing(s);
      assert s[..n] == s && IsLine(s, s, "");
    } else {
      FirstLineEnds(s[1..]);
      var rest := s[1..];
      var body, eol :| IsLine(rest[..n - 1], body, eol) && (eol == "" ==> rest[n - 1..] == "")
                       && (eol == "\r" ==> rest[n - 1..] == "" || rest[n - 1..][0] != '\n');
      assert s[..n] == [s[0]] + rest[..n - 1] && s[n..] == rest[n - 1..];
      Regroup([s[0]], body, eol);
      assert IsLine(s[..n], [s[0]] + body, eol);
    }
  }

  lemma {:induction false} SplitAreLines(s: string)
    ensures AreLines(SplitLines(s))
  {
    if s != "" {
      var rest := s[FirstLine(s)..];
      SplitAreLines(rest);
      FlattenOfSplit(rest);
      FirstLineEnds(s);
      Cons(s[..FirstLine(s)], SplitLines(rest));
      LinesBehind(s[..FirstLine(s)], SplitLines(rest));
    }
  }

  lemma LinesBehind(line: string, lines: seq<string>)
    requires AreLines(lines) && IsLineBefore(line, Flatten(lines))
    ensures AreLines([line] + lines)
  {
    var all := [line] + lines;
    forall i | 0 <= i < |all| ensures IsLineBefore(all[i], Flatten(all[i + 1..])) {
      assert all[i + 1..] == lines[i..];
      if i > 0 {
        assert all[i] == lines[i - 1];
      } else {
        Ends(lines);
      }
    }
  }

  lemma {:induction false} FirstLineOf(body: string, eol: string, rest: string)
    requires IsLine(body + eol, body, eol) && (eol == "" ==> rest == "") && (eol == "\r" ==> rest == "" || rest[0] != '\n')
    ensures FirstLine(body + eol + rest) == |body + eol|
  {
    var s := body + eol + rest;
    if |body| > 1 || (body != "" && eol != "") {
      assert forall c | c in body[1..] :: c in body;
      FirstLineOf(body[1..], eol, rest);
      assert s[1..] == body[1..] + eol + rest;
      assert body[0] in body;
    } else if body != "" {
      assert body[0] in body && s == body;
    }
  }

  lemma {:induction false} OnlyLines(lines: seq<string>)
    requires AreLines(lines)
    ensures SplitLines(Flatten(lines)) == lines
  {
    if lines != [] {
      var line, rest := lines[0], Flatten(lines[1..]);
      assert IsLineBefore(lines[0], Flatten(lines[0 + 1..]));
      var body, eol :| IsLine(line, body, eol) && (eol == "" ==> rest == "")
                       && (eol == "\r" ==> rest == "" || rest[0] != '\n');
      FirstLineOf(body, eol, rest);
      Parts(line, rest);
      assert forall i | 0 <= i < |lines[1..]| :: lines[1..][i] == lines[i + 1] && lines[1..][i + 1..] == lines[i + 1 + 1..];
      OnlyLines(lines[1..]);
    }
  }

  // ----- Lines without their terminators -----

  /** The lines, each with a newline. */
  function Unlines(lines: seq<string>): string {
    if lines == [] then "" else lines[0] + "\n" + Unlines(lines[1..])
  }

  lemma {:induction false} UnlinesAppend(a: seq<string>, b: seq<string>)
    ensures Unlines(a + b) == Unlines(a) + Unlines(b)
  {
    if a == [] {
      Nothing(b);
      Nothing(Unlines(b));
    } else {
      UnlinesAppend(a[1..], b);
      Front(a, b);
      Regroup(a[0] + "\n", Unlines(a[1..]), Unlines(b));
    }
  }

  lemma UnlinesOne(line: string)
    ensures Unlines([line]) == line + "\n"
  {
    assert Unlines([line]) == line + "\n" + Unlines([]);
  }

  lemma UnlinesSnoc(lines: seq<string>, line: string)
    ensures Unlines(lines + [line]) == Unlines(lines) + (line + "\n")
  {
    UnlinesAppend(lines, [line]);
    UnlinesOne(line);
  }

  lemma {:induction false} JoinIsUnlines(lines: seq<string>)
    requires lines != []
    ensures Join(lines, '\n') + "\n" == Unlines(lines)
  {
    if |lines| == 1 {
      UnlinesOne(lines[0]);
      assert lines == [lines[0]];
    } else {
      JoinIsUnlines(lines[1..]);
      Regroup(lines[0] + "\n", Join(lines[1..], '\n'), "\n");
    }
  }

  lemma UnlinesOfSplit(s: string)
    ensures Unlines(Split(s, '\n')) == s + "\n"
  {
    JoinOfSplit(s, '\n');
    JoinIsUnlines(Split(s, '\n'));
  }

  // ----- Body and terminator -----

  /** `raw.rstrip("\r\n")`. */
  function Body(raw: string): (body: string)
    ensures body <= raw
  {
    if raw != "" && (raw[|raw| - 1] == '\r' || raw[|raw| - 1] == '\n') then Body(raw[..|raw| - 1]) else raw
  }

  lemma {:induction false} BodyEnd(raw: string)
    ensures var body := Body(raw); body != "" ==> body[|body| - 1] != '\r' && body[|body| - 1] != '\n'
  {
    if raw != "" && (raw[|raw| - 1] == '\r' || raw[|raw| - 1] == '\n') {
      BodyEnd(raw[..|raw| - 1]);
    }
  }

  /** The stripped terminator, or `\n` where there was none. */
  function Eol(raw: string): string {
    var eol := raw[|Body(raw)|..];
    if eol == "" then "\n" else eol
  }

  lemma BodyOf(body: string, eol: string)
    requires IsEol(eol) && (body == "" || (body[|body| - 1] != '\r' && body[|body| - 1] != '\n'))
    ensures Body(body + eol) == body && Eol(body + eol) == eol
  {
    if eol == "\n" {
      BodySnoc(body, '\n');
    } else {
      BodySnoc(body, '\r');
      BodySnoc(body + ['\r'], '\n');
      assert body + ['\r'] + ['\n'] == body + "\r\n";
    }
    BodyFixed(body);
    Parts(body, eol);
  }

  lemma BodyFixed(body: string)
    requires body == "" || (body[|body| - 1] != '\r' && body[|body| - 1] != '\n')
    ensures Body(body) == body
  {
  }

  lemma BodySnoc(s: string, c: char)
    requires c == '\r' || c == '\n'
    ensures Body(s + [c]) == Body(s)
  {
    Snoc(s, c);
  }

  /** No line break, except perhaps as the last character. */
  ghost predicate Nearly(s: string) {
    forall i | 0 <= i < |s| - 1 :: !IsBreak(s[i])
  }

  lemma TerminatedParts(line: string)
    requires Terminated(line)
    ensures Nearly(Body(line)) && IsEol(Eol(line))
  {
    var body, eol :| EndsLine(eol) && NoBreak(body) && line == body + eol;
    assert body != "" ==> body[|body| - 1] in body;
    if IsEol(eol) {
      BodyOf(body, eol);
    } else {
      assert Body(line) == line && line[|line|..] == "";
    }
    assert forall i | 0 <= i < |body| :: body[i] in body;
  }

  lemma BrokenEnd(line: string)
    requires Terminated(line) && Body(line) != "" && IsBreak(Body(line)[|Body(line)| - 1])
    ensures Eol(line) == "\n"
  {
    var body, eol :| EndsLine(eol) && NoBreak(body) && line == body + eol;
    assert body != "" ==> body[|body| - 1] in body;
    if IsEol(eol) {
      BodyOf(body, eol);
    }
  }

  // ----- White space -----

  predicate IsBlankChar(c: char) {
    c == ' ' || c == '\t'
  }

  /** How many blanks and tabs `s` starts with. */
  function Lead(s: string): (n: nat)
    ensures n <= |s| && (n < |s| ==> !IsBlankChar(s[n]))
    ensures forall i | 0 <= i < n :: IsBlankChar(s[i])
  {
    if s != "" && IsBlankChar(s[0]) then 1 + Lead(s[1..]) else 0
  }

  lemma {:induction false} LeadIs(s: string, n: nat)
    requires n <= |s| && (forall i | 0 <= i < n :: IsBlankChar(s[i])) && (n < |s| ==> !IsBlankChar(s[n]))
    ensures Lead(s) == n
  {
    if n > 0 {
      LeadIs(s[1..], n - 1);
    }
  }

  /** `s.lstrip()`, as the number of characters dropped. */
  function Spaces(s: string): (n: nat)
    ensures n <= |s| && (n < |s| ==> !IsSpace(s[n]))
    ensures forall i | 0 <= i < n :: IsSpace(s[i])
  {
    if s != "" && IsSpace(s[0]) then 1 + Spaces(s[1..]) else 0
  }

  lemma {:induction false} SpacesIs(s: string, n: nat)
    requires n <= |s| && (forall i | 0 <= i < n :: IsSpace(s[i])) && (n < |s| ==> !IsSpace(s[n]))
    ensures Spaces(s) == n
  {
    if n > 0 {
      SpacesIs(s[1..], n - 1);
    }
  }

  function LStrip(s: string): string {
    s[Spaces(s)..]
  }

  function RStrip(s: string): (r: string)
    ensures r <= s && (r != "" ==> !IsSpace(r[|r| - 1]))
  {
    if s != "" && IsSpace(s[|s| - 1]) then RStrip(s[..|s| - 1]) else s
  }

  /** `s.strip()`. */
  function Strip(s: string): string {
    RStrip(s[Spaces(s)..])
  }

  ghost predicate Trimmed(s: string) {
    s == "" || (!IsSpace(s[0]) && !IsSpace(s[|s| - 1]))
  }

  /** Stripping takes the white space off both ends, and nothing else. */
  lemma StripExactly(s: string, t: string)
    ensures Strip(s) == t <==> Trimmed(t) && exists a, b :: IsBlank(a) && IsBlank(b) && s == a + t + b
  {
    StripParts(s);
    if Trimmed(t) {
      if a, b :| IsBlank(a) && IsBlank(b) && s == a + t + b {
        StripOf(a, t, b);
      }
    }
  }

  lemma StripParts(s: string)
    ensures Trimmed(Strip(s))
    ensures exists a, b :: IsBlank(a) && IsBlank(b) && s == a + Strip(s) + b
  {
    var a, rest := s[..Spaces(s)], s[Spaces(s)..];
    var b := RStripParts(rest);
    Regroup(a, Strip(s), b);
    Halves(s, Spaces(s));
    assert IsBlank(a) && IsBlank(b) && s == a + Strip(s) + b;
    assert Strip(s) <= rest;
  }

  lemma {:induction false} RStripParts(s: string) returns (b: string)
    ensures IsBlank(b) && s == RStrip(s) + b
  {
    if s != "" && IsSpace(s[|s| - 1]) {
      var shorter := RStripParts(s[..|s| - 1]);
      b := shorter + [s[|s| - 1]];
      Unsnoc(s);
      Regroup(RStrip(s), shorter, [s[|s| - 1]]);
    } else {
      b := "";
      Nothing(s);
    }
  }

  lemma {:induction false} RStripOf(s: string, b: string)
    requires IsBlank(b) && (s == "" || !IsSpace(s[|s| - 1]))
    ensures RStrip(s + b) == s
  {
    if b == "" {
      Nothing(s);
    } else {
      var init, last := b[..|b| - 1], b[|b| - 1];
      assert last in b && forall c | c in init :: c in b;
      RStripOf(s, init);
      Unsnoc(b);
      Regroup(s, init, [last]);
      RStripSnoc(s + init, last);
    }
  }

  lemma RStripSnoc(s: string, c: char)
    requires IsSpace(c)
    ensures RStrip(s + [c]) == RStrip(s)
  {
    Snoc(s, c);
  }

  lemma StripOf(a: string, t: string, b: string)
    requires IsBlank(a) && IsBlank(b) && Trimmed(t)
    ensures Strip(a + t + b) == t
  {
    var s := a + t + b;
    assert forall i | 0 <= i < |a| :: s[i] == a[i] && a[i] in a;
    if t == "" {
      assert forall i | |a| <= i < |s| :: s[i] == b[i - |a|] && b[i - |a|] in b;
      SpacesIs(s, |s|);
    } else {
      assert s[|a|] == t[0];
      SpacesIs(s, |a|);
      assert s[|a|..] == t + b;
      RStripOf(t, b);
    }
  }

  lemma StripsToNothing(s: string)
    ensures Strip(s) == "" <==> IsBlank(s)
  {
    if Strip(s) == "" {
      StripParts(s);
    }
    if IsBlank(s) {
      Nothing(s);
      StripOf(s, "", "");
    }
  }

  lemma StripUnbroken(s: string)
    requires Nearly(s)
    ensures NoBreak(Strip(s))
  {
    var t := s[Spaces(s)..];
    assert forall i | 0 <= i < |t| - 1 :: t[i] == s[Spaces(s) + i];
    forall c | c in Strip(s) ensures !IsBreak(c) {
      var i :| 0 <= i < |Strip(s)| && Strip(s)[i] == c;
      assert Strip(s)[i] == t[i];
    }
  }
}
