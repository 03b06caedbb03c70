/** Listing and pruning the snapshots of a repository (robothor/snapshot.py:1485-1552), alone and
  * with publishers and other pruners at work.
  */
module Retention {
  import opened Wrappers
  import opened Sequences
  import opened Text

  /** A snapshot is known by its file name; `created` is the time stamp in the name. */
  datatype Entry = Entry(created: int, name: string)

  /** The listing order: `sorted(..., key=(created_at, name), reverse=True)`. */
  predicate Newer(a: Entry, b: Entry) {
    a.created > b.created || (a.created == b.created && Less(b.name, a.name))
  }

  lemma NewerTransitive(a: Entry, b: Entry, c: Entry)
    requires Newer(a, b) && Newer(b, c)
    ensures Newer(a, c)
  {
    if a.created == c.created {
      LessTransitive(c.name, b.name, a.name);
    }
  }

  lemma NewerTotal(a: Entry, b: Entry)
    ensures !Newer(a, a)
    ensures a != b ==> Newer(a, b) != Newer(b, a)
  {
    LessIrreflexive(a.name);
    LessTotal(a.name, b.name);
    if Less(a.name, b.name) && Less(b.name, a.name) {
      LessTransitive(a.name, b.name, a.name);
    }
  }

  ghost predicate NewestFirst(entries: seq<Entry>) {
    forall i, j | 0 <= i < j < |entries| :: Newer(entries[i], entries[j])
  }

  // ----- Listing -----

  /** What `iterdir` and `stat` say about one directory entry. */
  datatype Node = Node(regular: bool)

  /** The managed snapshots among the directory entries; `stamp` reads the time stamp of a well-formed name. */
  ghost predicate IsManaged(dir: map<string, Node>, stamp: string -> Option<int>, e: Entry) {
    e.name in dir && dir[e.name].regular && stamp(e.name) == Some(e.created)
  }

  ghost predicate IsListing(dir: map<string, Node>, stamp: string -> Option<int>, entries: seq<Entry>) {
    NewestFirst(entries) && forall e :: e in entries <==> IsManaged(dir, stamp, e)
  }

  method ListSnapshots(dir: map<string, Node>, stamp: string -> Option<int>) returns (entries: seq<Entry>)
    ensures IsListing(dir, stamp, entries)
  {
    entries := [];
    var left := dir.Keys;
    while left != {}
      invariant left <= dir.Keys && NewestFirst(entries)
      invariant forall e :: e in entries <==> IsManaged(dir, stamp, e) && e.name !in left
      decreases left
    {
      var name :| name in left;
      left := left - {name};
      if dir[name].regular && stamp(name).Some? {
        entries := Insert(entries, Entry(stamp(name).value, name));
      }
    }
  }

  /** Puts an entry at its place in a sorted listing. */
  method Insert(entries: seq<Entry>, e: Entry) returns (r: seq<Entry>)
    requires NewestFirst(entries) && e !in entries
    ensures NewestFirst(r)
    ensures forall x :: x in r <==> x in entries || x == e
  {
    var i := 0;
    while i < |entries| && Newer(entries[i], e)
      invariant 0 <= i <= |entries|
      invariant forall k | 0 <= k < i :: Newer(entries[k], e)
    {
      i := i + 1;
    }
    r := entries[..i] + [e] + entries[i..];
    forall k | i <= k < |entries| ensures Newer(e, entries[k]) {
      NewerTotal(entries[i], e);
      if k > i {
        NewerTransitive(e, entries[i], entries[k]);
      }
    }
  }

  lemma {:induction false} ListingUnique(a: seq<Entry>, b: seq<Entry>)
    requires NewestFirst(a) && NewestFirst(b) && forall e :: e in a <==> e in b
    ensures a == b
  {
    if b != [] {
      FirstIn(b);
    }
    if a != [] {
      FirstIn(a);
      FirstIsNewest(a, b[0]);
      FirstIsNewest(b, a[0]);
      NewerTotal(a[0], b[0]);
      NewerTotal(b[0], a[0]);
      forall e ensures e in a[1..] <==> e in b[1..] {
        assert e in a[1..] <==> e in a && e != a[0];
        assert e in b[1..] <==> e in b && e != b[0];
      }
      ListingUnique(a[1..], b[1..]);
      assert a == [a[0]] + a[1..] && b == [b[0]] + b[1..];
    }
  }

  lemma FirstIn(a: seq<Entry>)
    requires a != []
    ensures a[0] in a
  {
  }

  lemma FirstIsNewest(a: seq<Entry>, e: Entry)
    requires NewestFirst(a) && e in a
    ensures e == a[0] || Newer(a[0], e)
  {
  }

  // ----- Candidates -----

  predicate Aged(e: Entry, cutoff: Option<int>) {
    cutoff.None? || e.created < cutoff.value
  }

  /** The entries past the first `keep` that are also old enough. */
  function Candidates(entries: seq<Entry>, keep: nat, cutoff: Option<int>): seq<Entry> {
    CandidatesFrom(entries, keep, cutoff, 0)
  }

  function CandidatesFrom(entries: seq<Entry>, keep: nat, cutoff: Option<int>, i: nat): seq<Entry>
    requires i <= |entries|
    decreases |entries| - i
  {
    if i == |entries| then []
    else
      (if i >= keep && Aged(entries[i], cutoff) then [entries[i]] else []) + CandidatesFrom(entries, keep, cutoff, i + 1)
  }

  /** Even with an age limit, what is pruned is the tail of the listing. */
  lemma CandidatesAreSuffix(entries: seq<Entry>, keep: nat, cutoff: Option<int>)
    requires NewestFirst(entries)
    ensures exists k :: && 0 <= k <= |entries|
                        && Candidates(entries, keep, cutoff) == entries[k..]
                        && (k < |entries| ==> k >= keep)
                        && (k > 0 ==> k <= keep || !Aged(entries[k - 1], cutoff))
  {
    var k := SuffixFrom(entries, keep, cutoff, 0);
    assert Candidates(entries, keep, cutoff) == entries[k..];
  }

  lemma {:induction false} SuffixFrom(entries: seq<Entry>, keep: nat, cutoff: Option<int>, i: nat) returns (k: nat)
    requires NewestFirst(entries) && i <= |entries|
    ensures i <= k <= |entries| && CandidatesFrom(entries, keep, cutoff, i) == entries[k..]
    ensures k < |entries| ==> k >= keep
    ensures k > i ==> k <= keep || !Aged(entries[k - 1], cutoff)
    ensures forall j | k <= j < |entries| :: Aged(entries[j], cutoff)
    decreases |entries| - i
  {
    if i == |entries| {
      k := i;
    } else {
      k := SuffixFrom(entries, keep, cutoff, i + 1);
      if i >= keep && Aged(entries[i], cutoff) {
        if k > i + 1 {
          OlderIsAged(entries, i, k - 1, cutoff);
        }
        k := i;
        Drop(entries, i);
      } else {
        Nothing(entries[k..]);
      }
    }
  }

  /** An entry is a candidate exactly if it is behind the first `keep` and old enough. */
  lemma CandidateExactly(entries: seq<Entry>, keep: nat, cutoff: Option<int>)
    requires NewestFirst(entries)
    ensures forall i | 0 <= i < |entries| ::
              entries[i] in Candidates(entries, keep, cutoff) <==>
                i >= keep && (cutoff.Some? ==> entries[i].created < cutoff.value)
    ensures forall e | e in Candidates(entries, keep, cutoff) :: e in entries
  {
    var k := SuffixFrom(entries, keep, cutoff, 0);
    assert forall e | e in entries[k..] :: e in entries;
    forall i | 0 <= i < |entries|
      ensures entries[i] in entries[k..] <==> i >= keep && (cutoff.Some? ==> entries[i].created < cutoff.value)
    {
      if i >= k {
        assert entries[k..][i - k] == entries[i];
      } else {
        NotBehind(entries, k, i);
        if i >= keep && Aged(entries[i], cutoff) {
          OlderIsAged(entries, i, k - 1, cutoff);
        }
      }
    }
  }

  lemma NotBehind(entries: seq<Entry>, k: nat, i: nat)
    requires NewestFirst(entries) && i < k <= |entries|
    ensures entries[i] !in entries[k..]
  {
    if entries[i] in entries[k..] {
      var j :| k <= j < |entries| && entries[j] == entries[i];
      assert Newer(entries[i], entries[j]);
      NewerTotal(entries[i], entries[i]);
    }
  }

  lemma OlderIsAged(entries: seq<Entry>, i: nat, j: nat, cutoff: Option<int>)
    requires NewestFirst(entries) && i <= j < |entries| && Aged(entries[i], cutoff)
    ensures Aged(entries[j], cutoff)
  {
    if i < j {
      assert Newer(entries[i], entries[j]);
    }
  }

  // ----- Pruning -----

  datatype Error = KeepTooSmall | AgeTooSmall

  datatype Report = Report(candidates: seq<Entry>, deleted: seq<Entry>, dryRun: bool)

  const DAY: int := 86400

  function Cutoff(now: int, olderThanDays: Option<int>): Option<int> {
    if olderThanDays.None? then None else Some(now - DAY * olderThanDays.value)
  }

  class Repository {
    var files: map<string, Node>

    /** Applies retention to the listing of this moment; `vanished` are files other processes remove
      * before this one gets to them.
      */
    method PruneSnapshots(
      stamp: string -> Option<int>, keep: int, olderThanDays: Option<int>, confirm: bool, now: int, vanished: set<string>)
      returns (r: Result<Report, Error>, ghost listing: seq<Entry>)
      modifies this
      ensures r.Err? <==> keep < 1 || (olderThanDays.Some? && olderThanDays.value < 1)
      ensures r.Err? ==> files == old(files)
      ensures r.Ok? ==>
                && IsListing(old(files), stamp, listing)
                && r.value.candidates == Candidates(listing, keep, Cutoff(now, olderThanDays))
                && r.value.dryRun == !confirm
                && (forall e :: e in r.value.deleted <==> confirm && e in r.value.candidates && e.name !in vanished)
                && files == if confirm then old(files) - NamesOf(r.value.candidates) else old(files)
      ensures r.Ok? ==>
                && (forall i | 0 <= i < |listing| ::
                      listing[i] in r.value.candidates <==>
                        i >= keep && (olderThanDays.Some? ==> now - listing[i].created > olderThanDays.value * 24 * 60 * 60))
                && (forall e | e in r.value.candidates :: e in listing)
                && (forall e | e in listing :: e.name !in files <==> confirm && e in r.value.candidates)
    {
      listing := [];
      if keep < 1 {
        return Err(KeepTooSmall), listing;
      }
      if olderThanDays.Some? && olderThanDays.value < 1 {
        return Err(AgeTooSmall), listing;
      }
      var entries := ListSnapshots(files, stamp);
      listing := entries;
      var candidates := Candidates(entries, keep, Cutoff(now, olderThanDays));
      var deleted: seq<Entry> := [];
      if confirm {
        for i := 0 to |candidates|
          invariant files == old(files) - NamesOf(candidates[..i])
          invariant forall e :: e in deleted <==> e in candidates[..i] && e.name !in vanished
        {
          assert candidates[..i + 1] == candidates[..i] + [candidates[i]];
          files := files - {candidates[i].name};
          if candidates[i].name !in vanished {
            deleted := deleted + [candidates[i]];
          }
        }
        assert candidates[..|candidates|] == candidates;
      }
      r := Ok(Report(candidates, deleted, !confirm));
      CandidateExactly(listing, keep, Cutoff(now, olderThanDays));
      forall e | e in listing ensures e.name !in files <==> confirm && e in candidates {
        OnlyCandidatesGo(old(files), stamp, listing, keep, Cutoff(now, olderThanDays), e);
      }
    }
  }

  function NamesOf(entries: seq<Entry>): set<string> {
    set e | e in entries :: e.name
  }

  /** A run of retention leaves the newest `keep` snapshots and, of the rest, only those not yet old
    * enough; every file that is not a snapshot stays; running it again finds nothing.
    */
  lemma PruneOnce(
    before: map<string, Node>, stamp: string -> Option<int>, listing: seq<Entry>, keep: nat, cutoff: Option<int>,
    left: seq<Entry>)
    requires keep >= 1 && IsListing(before, stamp, listing)
    requires IsListing(before - NamesOf(Candidates(listing, keep, cutoff)), stamp, left)
    ensures exists k :: && 0 <= k <= |listing| && left == listing[..k]
                        && (k < |listing| ==> k >= keep)
                        && (k > keep ==> !Aged(listing[k - 1], cutoff))
    ensures cutoff.None? ==> left == listing[..Min(keep, |listing|)]
    ensures Candidates(left, keep, cutoff) == []
    ensures forall name | name in before && (!before[name].regular || stamp(name).None?) ::
              name !in NamesOf(Candidates(listing, keep, cutoff))
  {
    var k := SuffixFrom(listing, keep, cutoff, 0);
    forall e ensures e in left <==> e in listing[..k] {
      LeftExactly(before, stamp, listing, k, e);
    }
    ListingUnique(left, listing[..k]);
    NothingMore(left, keep, cutoff, k);
    forall e | e in listing[k..] ensures e.name in before && before[e.name].regular && stamp(e.name).Some? {
      assert e in listing;
    }
  }

  lemma LeftExactly(before: map<string, Node>, stamp: string -> Option<int>, listing: seq<Entry>, k: nat, e: Entry)
    requires IsListing(before, stamp, listing) && k <= |listing|
    ensures IsManaged(before - NamesOf(listing[k..]), stamp, e) <==> e in listing[..k]
  {
    if e in listing {
      var i :| 0 <= i < |listing| && listing[i] == e;
      if i < k {
        assert listing[..k][i] == e;
        NotGone(before, stamp, listing, k, i);
      } else {
        assert listing[k..][i - k] == e;
      }
    }
    if e in listing[..k] {
      var i :| 0 <= i < k && listing[i] == e;
      NotGone(before, stamp, listing, k, i);
    }
  }

  lemma NothingMore(left: seq<Entry>, keep: nat, cutoff: Option<int>, k: nat)
    requires NewestFirst(left) && k == |left| && (k > 0 ==> k <= keep || !Aged(left[k - 1], cutoff))
    ensures Candidates(left, keep, cutoff) == []
  {
    if CandidatesFrom(left, keep, cutoff, 0) != [] {
      LastCandidate(left, keep, cutoff, 0);
      var j :| 0 <= j < |left| && j >= keep && Aged(left[j], cutoff);
      OlderIsAged(left, j, k - 1, cutoff);
    }
  }

  lemma {:induction false} LastCandidate(left: seq<Entry>, keep: nat, cutoff: Option<int>, i: nat)
    requires i <= |left| && CandidatesFrom(left, keep, cutoff, i) != []
    ensures exists j :: i <= j < |left| && j >= keep && Aged(left[j], cutoff)
    decreases |left| - i
  {
    if i < |left| && !(i >= keep && Aged(left[i], cutoff)) {
      LastCandidate(left, keep, cutoff, i + 1);
    }
  }

  /** Of the listed snapshots exactly the candidates are gone when their names are. */
  lemma OnlyCandidatesGo(
    before: map<string, Node>, stamp: string -> Option<int>, listing: seq<Entry>, keep: nat, cutoff: Option<int>, e: Entry)
    requires IsListing(before, stamp, listing) && e in listing
    ensures e.name in before
    ensures e.name in NamesOf(Candidates(listing, keep, cutoff)) <==> e in Candidates(listing, keep, cutoff)
  {
    var k := SuffixFrom(listing, keep, cutoff, 0);
    var i :| 0 <= i < |listing| && listing[i] == e;
    if i < k {
      NotGone(before, stamp, listing, k, i);
    } else {
      assert listing[k..][i - k] == e;
    }
  }

  /** Two listed snapshots never share a name, so pruning one does not remove the other. */
  lemma NotGone(before: map<string, Node>, stamp: string -> Option<int>, listing: seq<Entry>, k: nat, i: nat)
    requires IsListing(before, stamp, listing) && i < k <= |listing|
    ensures listing[i].name !in NamesOf(listing[k..])
  {
    if e :| e in listing[k..] && e.name == listing[i].name {
      var j :| k <= j < |listing| && listing[j] == e;
      SameName(before, stamp, listing, i, j);
    }
  }

  lemma SameName(before: map<string, Node>, stamp: string -> Option<int>, listing: seq<Entry>, i: nat, j: nat)
    requires IsListing(before, stamp, listing) && i < j < |listing|
    ensures listing[i].name != listing[j].name
  {
    assert listing[i] in listing && listing[j] in listing;
    assert Newer(listing[i], listing[j]);
    NewerTotal(listing[i], listing[j]);
    LessIrreflexive(listing[i].name);
  }

  // ----- Publishers and pruners at once -----

  /** A pruner scans the directory, then works through the candidates of what it saw. */
  datatype Pruner =
    | Scanning(keep: nat, cutoff: Option<int>, seen: set<Entry>)
    | Deleting(keep: nat, cutoff: Option<int>, todo: seq<Entry>)

  /** `ever` are all snapshots published so far, `present` those still there. */
  datatype State = State(present: set<Entry>, ever: set<Entry>, pruners: seq<Pruner>)

  datatype Action =
    | Add(e: Entry)
    | See(i: nat, e: Entry)
    | Plan(i: nat, listing: seq<Entry>)
    | Unlink(i: nat)

  /** A scan may miss or catch a snapshot that comes or goes meanwhile; a plan may be long out of date
    * when it is carried out.
    */
  ghost function Step(s: State, a: Action): State {
    match a
    case Add(e) => State(s.present + {e}, s.ever + {e}, s.pruners)
    case See(i, e) =>
      if i < |s.pruners| && s.pruners[i].Scanning? && e in s.present
      then s.(pruners := s.pruners[i := s.pruners[i].(seen := s.pruners[i].seen + {e})]) else s
    case Plan(i, listing) =>
      if i < |s.pruners| && s.pruners[i].Scanning? && NewestFirst(listing)
         && forall e :: e in listing <==> e in s.pruners[i].seen
      then
        var p := s.pruners[i];
        s.(pruners := s.pruners[i := Deleting(p.keep, p.cutoff, Candidates(listing, p.keep, p.cutoff))])
      else s
    case Unlink(i) =>
      if i < |s.pruners| && s.pruners[i].Deleting? && s.pruners[i].todo != []
      then
        var p := s.pruners[i];
        State(s.present - {p.todo[0]}, s.ever, s.pruners[i := p.(todo := p.todo[1..])])
      else s
  }

  ghost function Run(s: State, actions: seq<Action>): State {
    if actions == [] then s else Step(Run(s, actions[..|actions| - 1]), actions[|actions| - 1])
  }

  lemma RunSnoc(s: State, actions: seq<Action>, a: Action)
    ensures Run(s, actions + [a]) == Step(Run(s, actions), a)
  {
    assert (actions + [a])[..|actions|] == actions;
  }

  /** A pruner's scan of the entries of a listing, one after the other. */
  ghost function Scan(i: nat, listing: seq<Entry>): seq<Action> {
    if listing == [] then [] else Scan(i, listing[..|listing| - 1]) + [See(i, listing[|listing| - 1])]
  }

  lemma {:induction false} Scanned(s: State, i: nat, listing: seq<Entry>)
    requires i < |s.pruners| && s.pruners[i].Scanning? && s.pruners[i].seen == {}
    requires forall e | e in listing :: e in s.present
    ensures Run(s, Scan(i, listing)) == s.(pruners := s.pruners[i := s.pruners[i].(seen := Elements(listing))])
  {
    if listing == [] {
      assert Elements(listing) == {} && s.pruners[i].(seen := {}) == s.pruners[i];
      assert s.pruners[i := s.pruners[i]] == s.pruners;
    } else {
      var init, last := listing[..|listing| - 1], listing[|listing| - 1];
      assert listing == init + [last] && last in listing && forall e | e in init :: e in listing;
      Scanned(s, i, init);
      RunSnoc(s, Scan(i, init), See(i, last));
      assert Elements(listing) == Elements(init) + {last};
    }
  }

  ghost function Times(a: Action, n: nat): seq<Action> {
    if n == 0 then [] else Times(a, n - 1) + [a]
  }

  lemma {:induction false} Unlinked(s: State, i: nat, n: nat)
    requires i < |s.pruners| && s.pruners[i].Deleting? && n <= |s.pruners[i].todo|
    ensures var todo := s.pruners[i].todo;
            Run(s, Times(Unlink(i), n)) ==
            State(s.present - Elements(todo[..n]), s.ever, s.pruners[i := s.pruners[i].(todo := todo[n..])])
  {
    var todo := s.pruners[i].todo;
    if n == 0 {
      assert todo[0..] == todo && s.pruners[i := s.pruners[i].(todo := todo)] == s.pruners;
    } else {
      Unlinked(s, i, n - 1);
      RunSnoc(s, Times(Unlink(i), n - 1), Unlink(i));
      OneMoreGone(todo, n);
    }
  }

  lemma OneMoreGone(todo: seq<Entry>, n: nat)
    requires 0 < n <= |todo|
    ensures Elements(todo[..n]) == Elements(todo[..n - 1]) + {todo[n - 1]}
    ensures todo[n - 1..] == [todo[n - 1]] + todo[n..]
  {
    assert todo[..n] == todo[..n - 1] + [todo[n - 1]];
  }

  lemma {:induction false} RunsOn(s: State, a: seq<Action>, b: seq<Action>)
    ensures Run(s, a + b) == Run(Run(s, a), b)
    decreases |b|
  {
    if b == [] {
      assert a + b == a;
    } else {
      RunsOn(s, a, b[..|b| - 1]);
      assert a + b == a + b[..|b| - 1] + [b[|b| - 1]];
      RunSnoc(s, a + b[..|b| - 1], b[|b| - 1]);
    }
  }

  /** A pruner that is alone does what `PruneSnapshots` does: it scans all there is, plans, and removes exactly the
    * candidates.
    */
  lemma PrunerAlone(s: State, i: nat, listing: seq<Entry>)
    requires i < |s.pruners| && s.pruners[i].Scanning? && s.pruners[i].seen == {}
    requires NewestFirst(listing) && forall e :: e in listing <==> e in s.present
    ensures var candidates := Candidates(listing, s.pruners[i].keep, s.pruners[i].cutoff);
            var t := Run(s, Scan(i, listing) + [Plan(i, listing)] + Times(Unlink(i), |candidates|));
            t.present == s.present - Elements(candidates) && t.ever == s.ever
  {
    var p := s.pruners[i];
    var candidates := Candidates(listing, p.keep, p.cutoff);
    Scanned(s, i, listing);
    RunSnoc(s, Scan(i, listing), Plan(i, listing));
    var planned := Run(s, Scan(i, listing) + [Plan(i, listing)]);
    assert planned.pruners[i] == Deleting(p.keep, p.cutoff, candidates);
    Unlinked(planned, i, |candidates|);
    assert candidates[..|candidates|] == candidates;
    RunsOn(s, Scan(i, listing) + [Plan(i, listing)], Times(Unlink(i), |candidates|));
  }

  ghost predicate Initial(s: State, k: nat) {
    && s.present == s.ever
    && forall p | p in s.pruners :: p.Scanning? && p.seen == {} && p.keep >= k
  }

  ghost function NewerIn(all: set<Entry>, e: Entry): set<Entry> {
    set x | x in all && Newer(x, e)
  }

  /** At least `k` snapshots newer than `e` have been published. */
  ghost predicate Superseded(all: set<Entry>, e: Entry, k: nat) {
    |NewerIn(all, e)| >= k
  }

  ghost predicate Inv(s: State, k: nat) {
    && s.present <= s.ever
    && (forall e | e in s.ever - s.present :: Superseded(s.ever, e, k))
    && (forall p | p in s.pruners ::
          && p.keep >= k
          && if p.Scanning? then p.seen <= s.ever else forall e | e in p.todo :: Superseded(s.ever, e, k))
  }

  lemma SubsetSize<T>(a: set<T>, b: set<T>)
    requires a <= b
    ensures |a| <= |b|
  {
    assert b == a + (b - a);
  }

  lemma SupersededGrows(a: set<Entry>, b: set<Entry>, e: Entry, k: nat)
    requires a <= b && Superseded(a, e, k)
    ensures Superseded(b, e, k)
  {
    SubsetSize(NewerIn(a, e), NewerIn(b, e));
  }

  ghost function Elements(listing: seq<Entry>): set<Entry> {
    set x | x in listing
  }

  lemma {:induction false} PrefixSize(listing: seq<Entry>, j: nat)
    requires NewestFirst(listing) && j <= |listing|
    ensures |Elements(listing[..j])| == j
  {
    if j > 0 {
      PrefixSize(listing, j - 1);
      ElementsNext(listing, j - 1);
    }
  }

  lemma ElementsNext(listing: seq<Entry>, i: nat)
    requires NewestFirst(listing) && i < |listing|
    ensures Elements(listing[..i + 1]) == Elements(listing[..i]) + {listing[i]} && listing[i] !in Elements(listing[..i])
  {
    var e := listing[i];
    NewerTotal(e, e);
    assert listing[..i + 1] == listing[..i] + [e];
    forall j | 0 <= j < i ensures listing[j] != e {
      assert Newer(listing[j], listing[i]);
    }
  }

  /** Whatever a pruner picks from a listing, however incomplete, has its `keep` newer snapshots. */
  lemma PlannedIsSuperseded(listing: seq<Entry>, all: set<Entry>, keep: nat, cutoff: Option<int>, e: Entry)
    requires NewestFirst(listing) && (forall x | x in listing :: x in all)
    requires e in Candidates(listing, keep, cutoff)
    ensures Superseded(all, e, keep)
  {
    var k := SuffixFrom(listing, keep, cutoff, 0);
    var j :| 0 <= j < |listing[k..]| && listing[k..][j] == e;
    PrefixSize(listing, k + j);
    var newer := Elements(listing[..k + j]);
    forall x | x in newer ensures x in NewerIn(all, e) {
      var i :| 0 <= i < k + j && listing[i] == x;
      assert Newer(listing[i], listing[k + j]);
    }
    SubsetSize(newer, NewerIn(all, e));
  }

  lemma StepKeepsInv(s: State, a: Action, k: nat)
    requires Inv(s, k)
    ensures Inv(Step(s, a), k)
  {
    var t := Step(s, a);
    forall e | e in t.ever - t.present ensures Superseded(t.ever, e, k) {
      if e in s.ever - s.present {
        SupersededGrows(s.ever, t.ever, e, k);
      } else {
        assert s.pruners[a.i] in s.pruners;
      }
    }
    forall p | p in t.pruners
      ensures p.keep >= k
      ensures if p.Scanning? then p.seen <= t.ever else forall e | e in p.todo :: Superseded(t.ever, e, k)
    {
      if p in s.pruners {
        if p.Deleting? {
          forall e | e in p.todo ensures Superseded(t.ever, e, k) {
            SupersededGrows(s.ever, t.ever, e, k);
          }
        }
      } else {
        assert s.pruners[a.i] in s.pruners;
        if a.Plan? {
          forall e | e in p.todo ensures Superseded(t.ever, e, k) {
            PlannedIsSuperseded(a.listing, s.ever, p.keep, p.cutoff, e);
          }
        }
      }
    }
  }

  lemma {:induction false} RunKeepsInv(start: State, actions: seq<Action>, k: nat)
    requires Initial(start, k)
    ensures Inv(Run(start, actions), k)
    decreases |actions|
  {
    if actions != [] {
      RunKeepsInv(start, actions[..|actions| - 1], k);
      StepKeepsInv(Run(start, actions[..|actions| - 1]), actions[|actions| - 1], k);
    }
  }

  /** However publishers and pruners interleave, and however stale the listings they act on, the `k`
    * newest snapshots ever published are still there, if no pruner keeps fewer than `k`.
    */
  lemma NewestSurvive(start: State, actions: seq<Action>, k: nat, e: Entry)
    requires Initial(start, k)
    requires e in Run(start, actions).ever && !Superseded(Run(start, actions).ever, e, k)
    ensures e in Run(start, actions).present
  {
    RunKeepsInv(start, actions, k);
  }

  lemma {:induction false} Oldest(all: set<Entry>) returns (o: Entry)
    requires all != {}
    ensures o in all && forall e | e in all && e != o :: Newer(e, o)
    decreases |all|
  {
    o :| o in all;
    if all != {o} {
      var older := Oldest(all - {o});
      NewerTotal(o, older);
      if Newer(older, o) {
        forall e | e in all && e != o ensures Newer(e, o) {
          if e != older {
            NewerTransitive(e, older, o);
          }
        }
      } else {
        o := older;
      }
    }
  }

  lemma {:induction false} TopSize(all: set<Entry>, k: nat)
    ensures |set e | e in all && !Superseded(all, e, k)| >= Min(k, |all|)
    decreases |all|
  {
    if all != {} {
      var o := Oldest(all);
      var rest := all - {o};
      TopSize(rest, k);
      var top := set e | e in all && !Superseded(all, e, k);
      var topRest := set e | e in rest && !Superseded(rest, e, k);
      forall e | e in rest ensures NewerIn(rest, e) == NewerIn(all, e) {
        NewerTotal(o, e);
        assert Newer(e, o);
      }
      NewerTotal(o, o);
      assert NewerIn(all, o) == rest;
      assert topRest == top - {o};
      assert o in top ==> top == topRest + {o};
      assert o !in top ==> top == topRest;
    }
  }

  /** So a repository that has seen `n` snapshots is never left with fewer than the smaller of `k` and `n`. */
  lemma NeverTooFew(start: State, actions: seq<Action>, k: nat)
    requires Initial(start, k)
    ensures |Run(start, actions).present| >= Min(k, |Run(start, actions).ever|)
  {
    var s := Run(start, actions);
    RunKeepsInv(start, actions, k);
    TopSize(s.ever, k);
    SubsetSize((set e | e in s.ever && !Superseded(s.ever, e, k)), s.present);
  }
}
