/** The release-notes page: where a block is put, and what the page is after many (scripts/changelog_fragments.py:530-536, 587). */
module ReleasePage {
  import opened Lines
  import opened ReleaseNotes

  /** `## ` stands at this position. */
  predicate MarkAt(s: string, i: int) {
    0 <= i && i + 3 <= |s| && s[i] == '#' && s[i + 1] == '#' && s[i + 2] == ' '
  }

  function HeadingIndex(lines: seq<string>): (i: nat)
    ensures i <= |lines|
  {
    if lines == [] || MarkAt(lines[0], 0) then 0 else 1 + HeadingIndex(lines[1..])
  }

  /** `_insert`: above the first line that starts a block, or at the end. */
  function Insert(page: string, block: string): string {
    var lines := SplitLines(page);
    var i := HeadingIndex(lines);
    if i < |lines| then Flatten(lines[..i]) + block + "\n" + Flatten(lines[i..])
    else RStripNl(page) + "\n\n" + block
  }

  // ----- Where the first block starts -----

  /** A block starts at this position: at the start of the text or behind a line break. */
  predicate BlockAt(s: string, i: int) {
    MarkAt(s, i) && (i == 0 || IsBreak(s[i - 1]))
  }

  /** The length of the text before the first block. */
  function Intro(page: string): (n: nat)
    ensures n <= |page|
  {
    if page == "" || MarkAt(page, 0) then 0
    else FirstLine(page) + Intro(page[FirstLine(page)..])
  }

  /** The only breaks in the first line are at its end. */
  lemma {:induction false} FirstLineBreaks(s: string)
    requires s != ""
    ensures var n := FirstLine(s);
            && (n < |s| ==> IsBreak(s[n - 1]))
            && forall j | 0 <= j < n - 1 && IsBreak(s[j]) :: s[j + 1] == '\n'
  {
    if !IsBreak(s[0]) && |s| > 1 {
      FirstLineBreaks(s[1..]);
      var n := FirstLine(s);
      assert forall j | 0 <= j < n - 1 && IsBreak(s[j]) :: j > 0 && s[j] == s[1..][j - 1] && s[j + 1] == s[1..][j];
    }
  }

  lemma BlockBehindLine(page: string, i: nat)
    requires page != ""
    ensures var n := FirstLine(page);
            && (0 < i < n ==> !BlockAt(page, i)) && (n <= i ==> (BlockAt(page, i) <==> BlockAt(page[n..], i - n)))
  {
    var n := FirstLine(page);
    FirstLineBreaks(page);
    var rest := page[n..];
    assert forall j | 0 <= j < |rest| :: rest[j] == page[n + j];
  }

  lemma {:induction false} IntroIs(page: string)
    ensures var n := Intro(page);
            (n < |page| ==> BlockAt(page, n)) && forall i | 0 <= i < n :: !BlockAt(page, i)
  {
    if page != "" && !MarkAt(page, 0) {
      var n, rest := FirstLine(page), page[FirstLine(page)..];
      IntroIs(rest);
      forall i | 0 <= i < Intro(page) ensures !BlockAt(page, i) {
        BlockBehindLine(page, i);
      }
      BlockBehindLine(page, Intro(page));
    }
  }

  lemma IntroUnique(page: string, n: nat)
    requires n <= |page| && (n < |page| ==> BlockAt(page, n)) && forall i | 0 <= i < n :: !BlockAt(page, i)
    ensures Intro(page) == n
  {
    IntroIs(page);
  }

  ghost predicate CutThere(page: string, lines: seq<string>, i: nat, n: nat) {
    && i <= |lines| && n <= |page| && (i < |lines| <==> n < |page|)
    && Flatten(lines[..i]) == page[..n] && Flatten(lines[i..]) == page[n..]
  }

  lemma CutLater(page: string, line: string, rest: string, lines: seq<string>, i: nat, n: nat)
    requires CutThere(rest, lines, i, n) && page == line + rest
    ensures CutThere(page, [line] + lines, i + 1, |line| + n)
  {
    assert ([line] + lines)[..i + 1] == [line] + lines[..i] && ([line] + lines)[i + 1..] == lines[i..];
    assert page[..|line| + n] == line + rest[..n] && page[|line| + n..] == rest[n..];
    assert ([line] + lines[..i])[1..] == lines[..i];
  }

  lemma {:induction false} IndexIsIntro(page: string)
    ensures CutThere(page, SplitLines(page), HeadingIndex(SplitLines(page)), Intro(page))
  {
    FlattenOfSplit(page);
    var lines := SplitLines(page);
    if page == "" || MarkAt(page, 0) {
      assert lines[..0] == [] && page[..0] == "" && lines[0..] == lines && page[0..] == page;
      if page != "" {
        MarkInLine(page);
      }
    } else {
      var n := FirstLine(page);
      MarkInLine(page);
      IndexIsIntro(page[n..]);
      assert page == page[..n] + page[n..];
      CutLater(page, page[..n], page[n..], SplitLines(page[n..]), HeadingIndex(SplitLines(page[n..])), Intro(page[n..]));
      assert lines[1..] == SplitLines(page[n..]);
    }
  }

  /** Whether a text starts a block can be seen in its first line. */
  lemma MarkInLine(page: string)
    requires page != ""
    ensures MarkAt(page, 0) <==> MarkAt(page[..FirstLine(page)], 0)
  {
    FirstLineBreaks(page);
  }

  lemma InsertByPosition(page: string, block: string)
    ensures var n := Intro(page);
            Insert(page, block) == if n < |page| then page[..n] + block + "\n" + page[n..] else RStripNl(page) + "\n\n" + block
  {
    IndexIsIntro(page);
  }

  // ----- The page after many blocks -----

  /** What stays above every block. */
  function Above(page: string): string {
    if Intro(page) < |page| then page[..Intro(page)] else RStripNl(page) + "\n\n"
  }

  /** The blocks, newest first, on top of what the page already had. */
  function Stack(blocks: seq<string>, older: string): string {
    if blocks == [] then older
    else if |blocks| == 1 && older == "" then blocks[0]
    else blocks[0] + "\n" + Stack(blocks[1..], older)
  }

  function PageOf(page: string, blocks: seq<string>): string {
    if blocks == [] then page else Above(page) + Stack(blocks, page[Intro(page)..])
  }

  lemma AboveIsFree(page: string)
    ensures var above := Above(page);
            && (above == "" || IsBreak(above[|above| - 1])) && forall i | 0 <= i < |above| :: !BlockAt(above, i)
  {
    IntroIs(page);
    var above := Above(page);
    forall i | 0 <= i < |above| ensures !BlockAt(above, i) {
      assert BlockAt(above, i) ==> BlockAt(page, i);
    }
  }

  lemma FirstBlockBehind(above: string, rest: string)
    requires above == "" || IsBreak(above[|above| - 1])
    requires forall i | 0 <= i < |above| :: !BlockAt(above, i)
    requires MarkAt(rest, 0)
    ensures Intro(above + rest) == |above|
  {
    var page := above + rest;
    var n := |above|;
    assert forall j | 0 <= j < n :: page[j] == above[j];
    assert forall j | 0 <= j < |rest| :: page[n + j] == rest[j];
    forall i | 0 <= i < n ensures !BlockAt(page, i) {
      assert i + 3 <= n && BlockAt(page, i) ==> BlockAt(above, i);
    }
    IntroUnique(page, n);
  }

  /** However many blocks the page has, the next one goes on top of them and below what was above: nothing else
    * on the page moves or changes.
    */
  lemma InsertStacks(page: string, blocks: seq<string>, block: string)
    requires forall b | b in blocks :: MarkAt(b, 0)
    ensures Insert(PageOf(page, blocks), block) == PageOf(page, [block] + blocks)
  {
    InsertByPosition(PageOf(page, blocks), block);
    var older := page[Intro(page)..];
    StackOn(block, blocks, older);
    if blocks != [] {
      StackStarts(blocks, older);
      AboveIsFree(page);
      FirstBlockBehind(Above(page), Stack(blocks, older));
      Reassemble(Above(page), block, Stack(blocks, older));
    } else if older != "" {
      Reassemble(Above(page), block, older);
    }
  }

  lemma StackOn(block: string, blocks: seq<string>, older: string)
    ensures Stack([block] + blocks, older)
            == if blocks == [] && older == "" then block else block + "\n" + Stack(blocks, older)
  {
    assert ([block] + blocks)[1..] == blocks;
  }

  lemma StackStarts(blocks: seq<string>, older: string)
    requires blocks != [] && forall b | b in blocks :: MarkAt(b, 0)
    ensures Stack(blocks, older) != "" && MarkAt(Stack(blocks, older), 0)
  {
    assert blocks[0] in blocks;
  }

  lemma Reassemble(above: string, block: string, stack: string)
    ensures (above + stack)[..|above|] == above && (above + stack)[|above|..] == stack
    ensures above + block + "\n" + stack == above + (block + "\n" + stack)
  {
  }
}
