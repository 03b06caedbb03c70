/** The laws asked of the library functions can all hold at once: a coding of JSON values that reads back, and a
  * world built on it.
  */
module Laws {
  import opened Wrappers
  import opened Sequences
  import opened Bytes
  import opened Json
  import opened Text
  import Paths
  import opened Workspace
  import opened Archive
  import opened Restore
  import Codec
  import Snapshot

  // ----- Numbers and strings, each with its end -----

  function Unary(n: nat): bytes {
    if n == 0 then [0] else [1] + Unary(n - 1)
  }

  lemma {:induction false} UnaryEnds(a: nat, b: nat, x: bytes, y: bytes)
    requires Unary(a) + x == Unary(b) + y
    ensures a == b && x == y
  {
    Front(Unary(a), x);
    Front(Unary(b), y);
    if a > 0 && b > 0 {
      Cons(1, Unary(a - 1));
      Cons(1, Unary(b - 1));
      UnaryEnds(a - 1, b - 1, x, y);
    } else if a == 0 && b == 0 {
      Parts(Unary(0), x);
      Parts(Unary(0), y);
    }
  }

  function CodeInt(i: int): bytes {
    Unary(if i < 0 then 1 else 0) + Unary(if i < 0 then -i else i)
  }

  lemma IntEnds(i: int, k: int, x: bytes, y: bytes)
    requires CodeInt(i) + x == CodeInt(k) + y
    ensures i == k && x == y
  {
    var si, sk, mi, mk := if i < 0 then 1 else 0, if k < 0 then 1 else 0, if i < 0 then -i else i, if k < 0 then -k else k;
    Regroup(Unary(si), Unary(mi), x);
    Regroup(Unary(sk), Unary(mk), y);
    UnaryEnds(si, sk, Unary(mi) + x, Unary(mk) + y);
    UnaryEnds(mi, mk, x, y);
  }

  function CodeDouble(d: Double): bytes {
    match d
    case Finite(m, e) => [0] + (CodeInt(m) + CodeInt(e))
    case NegativeZero => [1]
    case Infinite(negative) => if negative then [2] else [3]
    case NaN => [4]
  }

  lemma DoubleEnds(a: Double, b: Double, x: bytes, y: bytes)
    requires CodeDouble(a) + x == CodeDouble(b) + y
    ensures a == b && x == y
  {
    Front(CodeDouble(a), x);
    Front(CodeDouble(b), y);
    if a.Finite? && b.Finite? {
      Cons(0, CodeInt(a.significand) + CodeInt(a.exponent));
      Cons(0, CodeInt(b.significand) + CodeInt(b.exponent));
      Regroup(CodeInt(a.significand), CodeInt(a.exponent), x);
      Regroup(CodeInt(b.significand), CodeInt(b.exponent), y);
      IntEnds(a.significand, b.significand, CodeInt(a.exponent) + x, CodeInt(b.exponent) + y);
      IntEnds(a.exponent, b.exponent, x, y);
    } else if a == b {
      Parts(CodeDouble(a), x);
      Parts(CodeDouble(b), y);
    }
  }

  function CodeChars(s: string): bytes {
    if s == "" then [] else Unary(s[0] as int) + CodeChars(s[1..])
  }

  lemma {:induction false} CharsEnd(a: string, b: string, x: bytes, y: bytes)
    requires |a| == |b| && CodeChars(a) + x == CodeChars(b) + y
    ensures a == b && x == y
  {
    if a == "" {
      Nothing(x);
      Nothing(y);
    } else {
      Regroup(Unary(a[0] as int), CodeChars(a[1..]), x);
      Regroup(Unary(b[0] as int), CodeChars(b[1..]), y);
      UnaryEnds(a[0] as int, b[0] as int, CodeChars(a[1..]) + x, CodeChars(b[1..]) + y);
      CharsEnd(a[1..], b[1..], x, y);
      Uncons(a);
      Uncons(b);
    }
  }

  function CodeString(s: string): bytes {
    Unary(|s|) + CodeChars(s)
  }

  lemma StringEnds(a: string, b: string, x: bytes, y: bytes)
    requires CodeString(a) + x == CodeString(b) + y
    ensures a == b && x == y
  {
    Regroup(Unary(|a|), CodeChars(a), x);
    Regroup(Unary(|b|), CodeChars(b), y);
    UnaryEnds(|a|, |b|, CodeChars(a) + x, CodeChars(b) + y);
    CharsEnd(a, b, x, y);
  }

  function CodeStrings(names: seq<string>): bytes {
    if names == [] then [0] else [1] + (CodeString(names[0]) + CodeStrings(names[1..]))
  }

  lemma {:induction false} StringsEnd(a: seq<string>, b: seq<string>, x: bytes, y: bytes)
    requires CodeStrings(a) + x == CodeStrings(b) + y
    ensures a == b && x == y
  {
    Front(CodeStrings(a), x);
    Front(CodeStrings(b), y);
    if a == [] && b == [] {
      Parts(CodeStrings(a), x);
      Parts(CodeStrings(b), y);
    } else if a != [] && b != [] {
      var more, other := CodeStrings(a[1..]), CodeStrings(b[1..]);
      Cons(1, CodeString(a[0]) + more);
      Cons(1, CodeString(b[0]) + other);
      Regroup(CodeString(a[0]), more, x);
      Regroup(CodeString(b[0]), other, y);
      StringEnds(a[0], b[0], more + x, other + y);
      StringsEnd(a[1..], b[1..], x, y);
      Uncons(a);
      Uncons(b);
    }
  }

  // ----- JSON -----

  /** The names of an object in order. */
  ghost function NameList(names: set<string>): (list: seq<string>)
    ensures Sorted(names, list)
  {
    var sorted: seq<string> :| (exists s: seq<string> :: Sorted(names, s)) ==> Sorted(names, sorted);
    SortedIs(names, sorted);
    sorted
  }

  ghost predicate Sorted(names: set<string>, list: seq<string>) {
    Ascending(list) && forall s :: s in list <==> s in names
  }

  lemma SortedIs(names: set<string>, list: seq<string>)
    requires (exists s: seq<string> :: Sorted(names, s)) ==> Sorted(names, list)
    ensures Sorted(names, list)
  {
    var sorted := SortedExists(names);
    assert Sorted(names, sorted);
  }

  ghost function Code(j: Json): bytes
    decreases j, 1, 0
  {
    match j
    case Null => [0]
    case Bool(b) => [1] + Unary(if b then 1 else 0)
    case Int(i) => [2] + CodeInt(i)
    case Float(d) => [3] + CodeDouble(d)
    case Str(s) => [4] + CodeString(s)
    case List(items) => [5] + CodeItems(items)
    case Obj(fields) => [6] + (CodeStrings(NameList(fields.Keys)) + CodeValues(j, NameList(fields.Keys)))
  }

  ghost function CodeItems(items: seq<Json>): bytes
    decreases items, 0, 0
  {
    if items == [] then [0] else [1] + (Code(items[0]) + CodeItems(items[1..]))
  }

  ghost function CodeValues(j: Json, names: seq<string>): bytes
    requires j.Obj? && forall name | name in names :: name in j.fields
    decreases j, 0, |names|
  {
    if names == [] then [] else Code(j.fields[names[0]]) + CodeValues(j, names[1..])
  }

  lemma CodeStarts(j: Json)
    ensures Code(j) != []
    ensures Code(j)[0] == match j
                          case Null => 0 case Bool(_) => 1 case Int(_) => 2 case Float(_) => 3
                          case Str(_) => 4 case List(_) => 5 case Obj(_) => 6
  {
  }

  lemma {:induction false} CodeEnds(a: Json, b: Json, x: bytes, y: bytes)
    requires Code(a) + x == Code(b) + y
    ensures a == b && x == y
    decreases a, 2, 0
  {
    CodeStarts(a);
    CodeStarts(b);
    Front(Code(a), x);
    Front(Code(b), y);
    match (a, b) {
      case (Null, Null) =>
        Nothing(x);
        Nothing(y);
      case (Bool(v), Bool(w)) =>
        UnaryEnds(if v then 1 else 0, if w then 1 else 0, x, y);
      case (Int(i), Int(k)) =>
        IntEnds(i, k, x, y);
      case (Float(d), Float(e)) =>
        DoubleEnds(d, e, x, y);
      case (Str(s), Str(t)) =>
        StringEnds(s, t, x, y);
      case (List(s), List(t)) =>
        ItemsEnd(s, t, x, y);
      case (Obj(f), Obj(g)) =>
        ObjectEnds(a, b, x, y);
    }
  }

  lemma {:induction false} ItemsEnd(a: seq<Json>, b: seq<Json>, x: bytes, y: bytes)
    requires CodeItems(a) + x == CodeItems(b) + y
    ensures a == b && x == y
    decreases a, 0, 0
  {
    Front(CodeItems(a), x);
    Front(CodeItems(b), y);
    if a == [] && b == [] {
      Parts(CodeItems(a), x);
      Parts(CodeItems(b), y);
    } else if a != [] && b != [] {
      var more, other := CodeItems(a[1..]), CodeItems(b[1..]);
      Cons(1, Code(a[0]) + more);
      Cons(1, Code(b[0]) + other);
      Regroup(Code(a[0]), more, x);
      Regroup(Code(b[0]), other, y);
      CodeEnds(a[0], b[0], more + x, other + y);
      ItemsEnd(a[1..], b[1..], x, y);
      Uncons(a);
      Uncons(b);
    }
  }

  lemma {:induction false} ValuesEnd(a: Json, b: Json, names: seq<string>, x: bytes, y: bytes)
    requires a.Obj? && b.Obj? && forall name | name in names :: name in a.fields && name in b.fields
    requires CodeValues(a, names) + x == CodeValues(b, names) + y
    ensures x == y && forall name | name in names :: a.fields[name] == b.fields[name]
    decreases a, 0, |names|
  {
    if names == [] {
      Nothing(x);
      Nothing(y);
    } else {
      var more, other := CodeValues(a, names[1..]), CodeValues(b, names[1..]);
      Regroup(Code(a.fields[names[0]]), more, x);
      Regroup(Code(b.fields[names[0]]), other, y);
      CodeEnds(a.fields[names[0]], b.fields[names[0]], more + x, other + y);
      ValuesEnd(a, b, names[1..], x, y);
      Uncons(names);
    }
  }

  lemma ObjectEnds(a: Json, b: Json, x: bytes, y: bytes)
    requires a.Obj? && b.Obj? && Code(a)[1..] + x == Code(b)[1..] + y
    ensures a == b && x == y
    decreases a, 1, 0
  {
    var f, g := NameList(a.fields.Keys), NameList(b.fields.Keys);
    Cons(6, CodeStrings(f) + CodeValues(a, f));
    Cons(6, CodeStrings(g) + CodeValues(b, g));
    Regroup(CodeStrings(f), CodeValues(a, f), x);
    Regroup(CodeStrings(g), CodeValues(b, g), y);
    StringsEnd(f, g, CodeValues(a, f) + x, CodeValues(b, g) + y);
    assert a.fields.Keys == b.fields.Keys;
    ValuesEnd(a, b, f, x, y);
    assert a.fields == b.fields;
  }

  // ----- A world in which the laws hold -----

  ghost function ReadJson(b: bytes): (r: Option<Json>)
    ensures r.Some? ==> Code(r.value) == b
    ensures r.None? ==> forall j :: Code(j) != b
  {
    if j :| Code(j) == b then Some(j) else None
  }

  lemma JsonReadsBack(j: Json)
    ensures ReadJson(Code(j)) == Some(j) && ReadJson([]) == None
  {
    var r := ReadJson(Code(j));
    assert r.Some?;
    Nothing(Code(j));
    CodeEnds(r.value, j, [], []);
    if ReadJson([]).Some? {
      CodeStarts(ReadJson([]).value);
    }
  }

  function PrintBytes(b: bytes): string {
    seq(|b|, i requires 0 <= i < |b| => b[i] as int as char)
  }

  function ReadBytes(s: string): Option<bytes> {
    if forall c | c in s :: c as int < 256 then
      assert forall i | 0 <= i < |s| :: s[i] in s;
      Some(seq(|s|, i requires 0 <= i < |s| => s[i] as int as byte))
    else None
  }

  lemma BytesReadBack(b: bytes)
    ensures ReadBytes(PrintBytes(b)) == Some(b)
  {
    var s := PrintBytes(b);
    forall c | c in s ensures c as int < 256 {
      var i :| 0 <= i < |s| && s[i] == c;
    }
    assert ReadBytes(s).value == b;
  }

  function MemberJson(m: Member): Json {
    List([Str(m.name), Bool(m.regular), Int(m.mode), Str(PrintBytes(m.content))])
  }

  function MembersJson(members: seq<Member>): Json {
    List(seq(|members|, i requires 0 <= i < |members| => MemberJson(members[i])))
  }

  lemma MembersDiffer(a: seq<Member>, b: seq<Member>)
    requires MembersJson(a) == MembersJson(b)
    ensures a == b
  {
    forall i | 0 <= i < |a| ensures a[i] == b[i] {
      var p, q := MemberJson(a[i]).items, MemberJson(b[i]).items;
      assert MembersJson(a).items[i] == MembersJson(b).items[i];
      assert p[0] == q[0] && p[1] == q[1] && p[2] == q[2] && p[3] == q[3];
      BytesReadBack(a[i].content);
      BytesReadBack(b[i].content);
    }
  }

  ghost function Pack(members: seq<Member>): bytes {
    Code(MembersJson(members))
  }

  ghost function Unpack(b: bytes): (r: Option<seq<Member>>)
    ensures r.Some? ==> Pack(r.value) == b
    ensures r.None? ==> forall members :: Pack(members) != b
  {
    if members :| Pack(members) == b then Some(members) else None
  }

  lemma PackReadsBack(members: seq<Member>)
    ensures Unpack(Pack(members)) == Some(members) && Pack(members) != [] && !Snapshot.IsEncrypted(Pack(members))
  {
    var r := Unpack(Pack(members));
    assert r.Some?;
    Nothing(Pack(members));
    CodeEnds(MembersJson(r.value), MembersJson(members), [], []);
    MembersDiffer(r.value, members);
    CodeStarts(MembersJson(members));
    assert Codec.MAGIC[0] == 71;
  }

  lemma PlatformExists() returns (p: Platform)
    ensures p.Lawful() && forall j :: p.printJson(j) == Code(j)
  {
    var zeros: string := seq(64, i => '0');
    p := Platform((b: bytes) => zeros, (j: Json) => Code(j), (b: bytes) => ReadJson(b), (moment: int) => "", (s: string) => Some(true));
    forall j ensures p.parseJson(p.printJson(j)) == Some(j) {
      JsonReadsBack(j);
    }
  }

  lemma PrimitivesExist() returns (c: Codec.Primitives)
    ensures c.Lawful()
  {
    var encrypt, decrypt := Codec.CipherLawsSatisfiable();
    c := Codec.Primitives(
      encrypt, decrypt, (passphrase: string, salt: bytes) => [], (j: Json) => Code(j), (b: bytes) => ReadJson(b),
      (b: bytes) => PrintBytes(b), (s: string) => ReadBytes(s));
    JsonReadsBack(Null);
    forall j ensures c.parseJson(c.printJson(j)) == Some(j) {
      JsonReadsBack(j);
    }
    forall b ensures c.parseBase64(c.printBase64(b)) == Some(b) {
      BytesReadBack(b);
    }
  }

  /** There is a world in which every law that the snapshot theorems rely on holds. */
  lemma LawsHold() returns (w: Snapshot.World)
    ensures w.Lawful()
  {
    var codec := PrimitivesExist();
    var platform := PlatformExists();
    w := Snapshot.World(
      codec, platform, (members: seq<Member>) => Pack(members), (b: bytes) => Unpack(b), (b: bytes) => true);
    forall members
      ensures w.unpack(w.pack(members)) == Some(members) && w.pack(members) != [] && !Snapshot.IsEncrypted(w.pack(members))
    {
      PackReadsBack(members);
    }
  }

  // ----- A document that outgrows the limit -----

  predicate Small(s: string) {
    forall c | c in s :: c as int < 256
  }

  lemma {:induction false} CharsBelow(s: string)
    requires Small(s)
    ensures |CodeChars(s)| <= 256 * |s|
  {
    if s != "" {
      UnaryLength(s[0] as int);
      assert s[0] in s && forall c | c in s[1..] :: c in s;
      CharsBelow(s[1..]);
    }
  }

  lemma StringLength(s: string)
    ensures |CodeString(s)| > |s|
    ensures Small(s) ==> |CodeString(s)| <= 257 * |s| + 1
  {
    UnaryLength(|s|);
    if Small(s) {
      CharsBelow(s);
    }
  }

  lemma {:induction false} UnaryLength(n: nat)
    ensures |Unary(n)| == n + 1
  {
    if n > 0 {
      UnaryLength(n - 1);
    }
  }

  ghost function Document(name: string, reference: string): Json {
    Obj(map[name := Str(reference)])
  }

  lemma DocumentLength(name: string, reference: string)
    ensures |Code(Document(name, reference))| > |reference|
    ensures Small(name) && Small(reference) ==> |Code(Document(name, reference))| <= 6 + 257 * |name| + 257 * |reference|
  {
    var document := Document(name, reference);
    OnlyName(NameList(document.fields.Keys), name);
    StringLength(name);
    StringLength(reference);
    OneNameCode(name);
    OneValueCode(document, name, Str(reference));
    assert Code(document) == [6] + (CodeStrings([name]) + CodeValues(document, [name]));
  }

  lemma OneNameCode(name: string)
    ensures |CodeStrings([name])| == |CodeString(name)| + 2
  {
    assert CodeStrings([name]) == [1] + (CodeString(name) + CodeStrings([]));
  }

  lemma OneValueCode(document: Json, name: string, value: Json)
    requires document.Obj? && name in document.fields && document.fields[name] == value && value.Str?
    ensures |CodeValues(document, [name])| == |CodeString(value.s)| + 1
  {
    assert CodeValues(document, [name]) == Code(value) + CodeValues(document, []);
  }

  lemma OnlyName(names: seq<string>, name: string)
    requires Sorted({name}, names)
    ensures names == [name]
  {
    AscendingUnique(names, [name]);
  }

  /** There is a workspace whose identity can be moved once and not again: its document is small, and the new
    * reference makes it too large.
    */
  lemma OutgrowsExists() returns (platform: Platform, t: Tree, entries: seq<Entry>, reference: string)
    ensures platform.Lawful() && WellFormed(t) && !IsBlank(reference)
    ensures Relocated(platform, t, entries, reference).Ok?
    ensures Outgrows(platform, t, entries, reference)
    ensures Relocated(platform, Relocated(platform, t, entries, reference).value, entries, reference) == Err(IntegrityError)
  {
    platform := PlatformExists();
    var name, before := "private_key_ref", "key";
    reference := seq(IDENTITY_LIMIT, i => 'k');
    DocumentLength(name, before);
    DocumentLength(name, reference);
    assert reference[0] in reference && before[0] in before;
    t, entries := Moves(platform, name, before, reference);
    RelocateTwice(platform, t, entries, reference);
  }

  lemma Moves(platform: Platform, name: string, before: string, reference: string) returns (t: Tree, entries: seq<Entry>)
    requires platform.Lawful() && name == "private_key_ref" && before != reference && !IsBlank(before)
    requires |platform.printJson(Document(name, before))| <= IDENTITY_LIMIT
    ensures WellFormed(t) && Relocated(platform, t, entries, reference).Ok?
    ensures Outgrows(platform, t, entries, reference)
            <==> |platform.printJson(Document(name, reference))| > IDENTITY_LIMIT
  {
    var text := platform.printJson(Document(name, before));
    t := map[[".robothor"] := Dir, IDENTITY := File(text, 384), IDENTITY_KEY := File([], 384)];
    assert IDENTITY[..1] == [".robothor"] && IDENTITY_KEY[..1] == [".robothor"];
    entries := [Entry(Paths.Name(IDENTITY), 0, "", 384)];
    assert entries[0] in entries;
    assert platform.parseJson(text) == Some(Document(name, before));
    assert map[name := Str(before)][name := Str(reference)] == map[name := Str(reference)];
  }
}
