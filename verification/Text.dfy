/** White space, strings cut at a separator, and the order strings sort in. */
module Text {

  /** Python's `str.isspace` and the regular expression class `\s`. */
  predicate IsSpace(c: char) {
    || '\t' <= c <= '\r' || '\U{1C}' <= c <= ' ' || c == '\U{85}' || c == '\U{A0}' || c == '\U{1680}'
    || '\U{2000}' <= c <= '\U{200A}' || c == '\U{2028}' || c == '\U{2029}' || c == '\U{202F}'
    || c == '\U{205F}' || c == '\U{3000}'
  }

  /** By their code points. */
  lemma SpaceExactly(c: char)
    ensures IsSpace(c) <==>
            || c as int in {9, 10, 11, 12, 13, 28, 29, 30, 31, 32, 133, 160, 5760, 8232, 8233, 8239, 8287, 12288}
            || 8192 <= c as int <= 8202
  {
  }

  /** `not s.strip()`. */
  predicate IsBlank(s: string) {
    forall c | c in s :: IsSpace(c)
  }

  predicate StartsWith(s: string, prefix: string) {
    |prefix| <= |s| && s[..|prefix|] == prefix
  }

  lemma StartsOtherwise(s: string, prefix: string)
    requires s != "" && prefix != "" && s[0] != prefix[0]
    ensures !StartsWith(s, prefix)
  {
  }

  /** `s.split(sep)`. */
  function Split(s: string, sep: char): (parts: seq<string>)
    ensures |parts| > 0
    ensures forall part | part in parts :: sep !in part
  {
    if s == "" then [""]
    else if s[0] == sep then [""] + Split(s[1..], sep)
    else
      var rest := Split(s[1..], sep);
      [[s[0]] + rest[0]] + rest[1..]
  }

  /** `sep.join(parts)`. */
  function Join(parts: seq<string>, sep: char): string {
    if parts == [] then ""
    else if |parts| == 1 then parts[0]
    else parts[0] + [sep] + Join(parts[1..], sep)
  }

  lemma {:induction false} JoinOfSplit(s: string, sep: char)
    ensures Join(Split(s, sep), sep) == s
  {
    if s != "" {
      JoinOfSplit(s[1..], sep);
      var rest := Split(s[1..], sep);
      assert Split(s, sep)[1..] == if s[0] == sep then rest else rest[1..];
    }
  }

  lemma {:induction false} SplitOfJoin(parts: seq<string>, sep: char)
    requires parts != [] && forall part | part in parts :: sep !in part
    ensures Split(Join(parts, sep), sep) == parts
    decreases |parts|, |parts[0]|
  {
    var joined := Join(parts, sep);
    if parts[0] != "" {
      var shorter := [parts[0][1..]] + parts[1..];
      assert parts[0] in parts && sep !in parts[0][1..];
      assert forall part | part in shorter :: part == shorter[0] || part in parts;
      assert joined[1..] == Join(shorter, sep) && joined[0] == parts[0][0];
      SplitOfJoin(shorter, sep);
      assert [joined[0]] + shorter[0] == parts[0];
      assert parts == [[joined[0]] + shorter[0]] + shorter[1..];
    } else if |parts| > 1 {
      SplitOfJoin(parts[1..], sep);
      assert joined[1..] == Join(parts[1..], sep);
      assert parts == [""] + parts[1..];
    }
  }

  lemma {:induction false} JoinContains(parts: seq<string>, sep: char, c: char)
    requires c != sep
    ensures c in Join(parts, sep) <==> exists i :: 0 <= i < |parts| && c in parts[i]
  {
    if |parts| > 1 {
      JoinContains(parts[1..], sep, c);
      if c in Join(parts[1..], sep) {
        var i :| 0 <= i < |parts[1..]| && c in parts[1..][i];
        assert c in parts[i + 1];
      }
      if i :| 1 <= i < |parts| && c in parts[i] {
        assert c in parts[1..][i - 1];
      }
    }
  }

  // ----- Numbers -----

  function Decimal(n: nat): string {
    (if n < 10 then "" else Decimal(n / 10)) + ['0' + (n % 10) as char]
  }

  // ----- Order -----

  /** Python's `<` on strings. */
  predicate Less(a: string, b: string) {
    if b == "" then false
    else if a == "" then true
    else a[0] < b[0] || (a[0] == b[0] && Less(a[1..], b[1..]))
  }

  lemma {:induction false} LessTransitive(a: string, b: string, c: string)
    requires Less(a, b) && Less(b, c)
    ensures Less(a, c)
  {
    if a != "" && a[0] == b[0] == c[0] {
      LessTransitive(a[1..], b[1..], c[1..]);
    }
  }

  lemma {:induction false} LessTotal(a: string, b: string)
    ensures Less(a, b) || Less(b, a) || a == b
  {
    if a != "" && b != "" && a[0] == b[0] {
      LessTotal(a[1..], b[1..]);
      assert a[1..] == b[1..] ==> a == [a[0]] + a[1..] == b;
    }
  }

  lemma {:induction false} LessIrreflexive(a: string)
    ensures !Less(a, a)
  {
    if a != "" {
      LessIrreflexive(a[1..]);
    }
  }

  ghost predicate Ascending(s: seq<string>) {
    forall i, j | 0 <= i < j < |s| :: Less(s[i], s[j])
  }

  /** `sorted(names)`: the ascending listing of a set is unique, and this finds it. */
  method SortNames(names: set<string>) returns (sorted: seq<string>)
    ensures Ascending(sorted)
    ensures forall s :: s in sorted <==> s in names
  {
    sorted := [];
    var left := names;
    while left != {}
      invariant Ascending(sorted)
      invariant forall s :: s in sorted || s in left <==> s in names
      invariant forall a, b | a in sorted && b in left :: Less(a, b)
      decreases left
    {
      var least := LeastName(left);
      forall b | b in left - {least} ensures Less(least, b) {
        LessTotal(least, b);
      }
      sorted, left := sorted + [least], left - {least};
    }
  }

  method LeastName(names: set<string>) returns (least: string)
    requires names != {}
    ensures least in names && forall s | s in names :: !Less(s, least)
  {
    least :| least in names;
    LessIrreflexive(least);
    var left := names - {least};
    while left != {}
      invariant left <= names && least in names
      invariant forall s | s in names - left :: !Less(s, least)
      decreases left
    {
      var next :| next in left;
      if Less(next, least) {
        forall s | s in names - left ensures !Less(s, next) {
          if Less(s, next) {
            LessTransitive(s, next, least);
          }
        }
        least := next;
      }
      LessIrreflexive(next);
      left := left - {next};
    }
  }

  /** Every set has an ascending listing. */
  lemma {:induction false} SortedExists(names: set<string>) returns (sorted: seq<string>)
    ensures Ascending(sorted)
    ensures forall s :: s in sorted <==> s in names
    decreases |names|
  {
    if names == {} {
      sorted := [];
    } else {
      var least := LeastExists(names);
      var rest := SortedExists(names - {least});
      assert forall i | 0 <= i < |rest| :: rest[i] in rest;
      sorted := [least] + rest;
    }
  }

  lemma {:induction false} LeastExists(names: set<string>) returns (least: string)
    requires names != {}
    ensures least in names && forall s | s in names && s != least :: Less(least, s)
    decreases |names|
  {
    least :| least in names;
    if names != {least} {
      var other := LeastExists(names - {least});
      LessTotal(least, other);
      if Less(other, least) {
        forall s | s in names && s != other ensures Less(other, s) {
          if s != least {
            assert s in names - {least};
          }
        }
        least := other;
      } else {
        forall s | s in names && s != least ensures Less(least, s) {
          if s != other {
            LessTransitive(least, other, s);
          }
        }
      }
    }
  }

  lemma {:induction false} AscendingUnique(a: seq<string>, b: seq<string>)
    requires Ascending(a) && Ascending(b)
    requires forall s :: s in a <==> s in b
    ensures a == b
  {
    if b != [] {
      FirstIn(b);
    }
    if a != [] {
      FirstIn(a);
      FirstIsLeast(a, b[0]);
      FirstIsLeast(b, a[0]);
      LessIrreflexive(a[0]);
      if a[0] != b[0] {
        LessTransitive(a[0], b[0], a[0]);
      }
      forall s ensures s in a[1..] <==> s in b[1..] {
        assert s in a[1..] <==> s in a && s != a[0];
        assert s in b[1..] <==> s in b && s != b[0];
      }
      AscendingUnique(a[1..], b[1..]);
      assert a == [a[0]] + a[1..] && b == [b[0]] + b[1..];
    }
  }

  lemma FirstIn(a: seq<string>)
    requires a != []
    ensures a[0] in a
  {
  }

  lemma FirstIsLeast(a: seq<string>, s: string)
    requires Ascending(a) && s in a
    ensures s == a[0] || Less(a[0], s)
  {
  }
}
