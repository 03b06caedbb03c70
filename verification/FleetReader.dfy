/** Reading a chain back from the lines that carry it. */
module FleetReader {
  import opened Wrappers
  import opened Sequences
  import opened Text
  import opened Lines
  import opened FleetRewriter

  /** A double-quoted scalar, from behind its opening quote: its value, and the text behind the closing quote. */
  function ReadQuoted(s: string): (r: Option<(string, string)>)
    ensures r.Some? ==> |r.value.1| < |s|
  {
    if s == "" then None
    else if s[0] == '"' then Some(("", s[1..]))
    else if s[0] != '\\' then Prefixed(s[0], ReadQuoted(s[1..]))
    else if |s| == 1 then None
    else Prefixed(s[1], ReadQuoted(s[2..]))
  }

  function Prefixed(c: char, r: Option<(string, string)>): Option<(string, string)> {
    match r
    case None => None
    case Some((value, tail)) => Some(([c] + value, tail))
  }

  /** The entries of a flow list of quoted scalars. */
  function ReadFlow(s: string): (r: Option<seq<string>>)
    decreases |s|
  {
    if s == "" then Some([]) else ReadEntries(s)
  }

  function ReadEntries(s: string): (r: Option<seq<string>>)
    decreases |s|
  {
    if s == "" || s[0] != '"' then None else
      match ReadQuoted(s[1..])
      case None => None
      case Some((value, tail)) =>
        if tail == "" then Some([value])
        else if 2 <= |tail| && tail[..2] == ", " then
          match ReadEntries(tail[2..])
          case None => None
          case Some(more) => Some([value] + more)
        else None
  }

  /** The value of one item of a block sequence. */
  function ReadItem(s: string): Option<string> {
    if s == "" || s[0] != '"' then Some(s) else
      match ReadQuoted(s[1..])
      case None => None
      case Some((value, tail)) => if tail == "" then Some(value) else None
  }

  function ItemText(line: string): string
    requires IsItem(line)
  {
    var r := Body(line)[Width(line) + 1..];
    r[Spaces(r)..]
  }

  /** The values of the items among some lines; comments are passed over. */
  function ReadItems(group: seq<string>): Option<seq<string>> {
    if group == [] then Some([])
    else if !IsItem(group[0]) then ReadItems(group[1..])
    else match (ReadItem(ItemText(group[0])), ReadItems(group[1..]))
      case (Some(value), Some(more)) => Some([value] + more)
      case _ => None
  }

  function UpToBracket(s: string): string {
    if s == "" || s[0] == ']' then "" else [s[0]] + UpToBracket(s[1..])
  }

  /** The text between the brackets of an inline list. */
  function InlineItems(rest: string): string {
    var r := rest[Spaces(rest)..];
    if r == "" then "" else UpToBracket(r[1..])
  }

  /** The chain a group of lines carries, where it is one of a key that the rewriter handles. */
  function ChunkChains(chunk: seq<string>): seq<Option<seq<string>>>
    requires chunk != []
  {
    KindChains(Classify(Body(chunk[0])), chunk)
  }

  function KindChains(kind: Kind, chunk: seq<string>): seq<Option<seq<string>>>
    requires chunk != []
  {
    match kind
    case InlineKey(_) => [InlineChain(Body(chunk[0]))]
    case BlockKey(_) => [ReadItems(chunk[1..])]
    case _ => []
  }

  function InlineChain(body: string): Option<seq<string>> {
    match KeyRest(body)
    case None => None
    case Some(rest) => ReadFlow(InlineItems(rest))
  }

  // ----- What is rendered reads back -----

  lemma {:induction false} QuotedReads(value: string, tail: string)
    ensures ReadQuoted(Escape(value) + "\"" + tail) == Some((value, tail))
  {
    var s := Escape(value) + "\"" + tail;
    if value == "" {
      assert s[1..] == tail;
    } else {
      var head := if value[0] == '\\' || value[0] == '"' then ['\\', value[0]] else [value[0]];
      var more := Escape(value[1..]) + "\"" + tail;
      QuotedReads(value[1..], tail);
      assert s == head + more;
      assert s[|head|..] == more && s[0] == head[0];
      assert |head| == 2 ==> s[1] == value[0];
      assert value == [value[0]] + value[1..];
    }
  }

  lemma ItemReads(value: string)
    requires NoBreak(value)
    ensures Render(value, false) != "" && !IsSpace(Render(value, false)[0])
    ensures ReadItem(Render(value, false)) == Some(value)
  {
    var r := Render(value, false);
    assert value != "" ==> value[|value| - 1] in value;
    if IsPlain(value) {
      assert r == value;
    } else {
      QuotedReads(value, "");
      assert r[1..] == Escape(value) + "\"" + "";
    }
  }

  lemma EntryReads(value: string, tail: string)
    ensures var s := Render(value, true) + tail;
            s != "" && s[0] == '"' && ReadQuoted(s[1..]) == Some((value, tail)) && |tail| < |s|
  {
    var s := Render(value, true) + tail;
    QuotedReads(value, tail);
    assert s[1..] == Escape(value) + "\"" + tail;
  }

  lemma EntryThenMore(value: string, more: string, values: seq<string>)
    requires ReadEntries(more) == Some(values)
    ensures ReadEntries(Render(value, true) + (", " + more)) == Some([value] + values)
  {
    EntryReads(value, ", " + more);
    Parts(", ", more);
  }

  lemma {:induction false} EntriesRead(chain: seq<string>)
    requires chain != []
    ensures FlowItems(chain) != "" && ReadEntries(FlowItems(chain)) == Some(chain)
  {
    if |chain| == 1 {
      EntryReads(chain[0], "");
      assert Render(chain[0], true) + "" == FlowItems(chain);
      assert chain == [chain[0]];
    } else {
      var more := FlowItems(chain[1..]);
      EntriesRead(chain[1..]);
      Regroup(Render(chain[0], true), ", ", more);
      EntryThenMore(chain[0], more, chain[1..]);
      Uncons(chain);
    }
  }

  lemma FlowReads(chain: seq<string>)
    ensures ReadFlow(FlowItems(chain)) == Some(chain)
  {
    if chain != [] {
      EntriesRead(chain);
    }
  }

  lemma {:induction false} UpToBracketOf(items: string, tail: string)
    requires ']' !in items
    ensures UpToBracket(items + "]" + tail) == items
  {
    var s := items + "]" + tail;
    if items != "" {
      UpToBracketOf(items[1..], tail);
      assert s[1..] == items[1..] + "]" + tail;
      assert items[0] in items;
      assert items == [items[0]] + items[1..];
    }
  }

  lemma InlineItemsOf(items: string, tail: string)
    requires ']' !in items
    ensures InlineItems(" [" + items + "]" + tail) == items
  {
    var rest := " [" + items + "]" + tail;
    SpacesIs(rest, 1);
    assert rest[1..][1..] == items + "]" + tail;
    UpToBracketOf(items, tail);
  }

  lemma NewItemReads(indent: string, value: string, eol: string)
    requires (forall c | c in indent :: IsBlankChar(c)) && NoBreak(value)
    requires var line := NewItem(indent, value, eol);
             IsItem(line) && Indent(line) == indent && Body(line) == indent + ("- " + Render(value, false))
    ensures ReadItem(ItemText(NewItem(indent, value, eol))) == Some(value)
  {
    var line := NewItem(indent, value, eol);
    var text := Render(value, false);
    ItemReads(value);
    assert Width(line) == |indent|;
    assert Body(line)[|indent| + 1..] == " " + text;
    SpacesIs(" " + text, 1);
    assert (" " + text)[1..] == text;
  }

  lemma {:induction false} CommentsReadAway(comments: seq<string>, rest: seq<string>)
    requires forall line | line in comments :: !IsItem(line)
    ensures ReadItems(comments + rest) == ReadItems(rest)
  {
    if comments == [] {
      assert comments + rest == rest;
    } else {
      CommentsReadAway(comments[1..], rest);
      assert (comments + rest)[1..] == comments[1..] + rest && comments[0] in comments;
    }
  }

  lemma ItemsReadFirst(item: string, rest: seq<string>, value: string, values: seq<string>)
    requires IsItem(item) && ReadItem(ItemText(item)) == Some(value) && ReadItems(rest) == Some(values)
    ensures ReadItems([item] + rest) == Some([value] + values)
  {
    Cons(item, rest);
  }

  lemma {:induction false} ItemsRead(items: seq<string>, values: seq<string>, tail: seq<string>)
    requires |items| == |values|
    requires forall i | 0 <= i < |items| :: IsItem(items[i]) && ReadItem(ItemText(items[i])) == Some(values[i])
    requires forall line | line in tail :: !IsItem(line)
    ensures ReadItems(items + tail) == Some(values)
  {
    if items == [] {
      CommentsReadAway(tail, []);
      Nothing(tail);
    } else {
      ItemsRead(items[1..], values[1..], tail);
      Front(items, tail);
      Uncons(values);
      ItemsReadFirst(items[0], items[1..] + tail, values[0], values[1..]);
      Cons(items[0], items[1..] + tail);
      Uncons(items + tail);
    }
  }
}
