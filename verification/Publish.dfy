/** Publishing a finished file under its final name, and any number of publishers doing so at
  * once (robothor/snapshot.py:237-251, 882-896).
  */
module Publish {
  import opened Wrappers
  import opened Bytes

  datatype Conflict = Conflict

  /** The files of one file system, by path. */
  class Directory {
    var files: map<string, bytes>

    /** Moves `source` to `destination`; without force, only if nothing is there. */
    method PublishAtomic(source: string, destination: string, force: bool) returns (r: Outcome<Conflict>)
      requires source in files
      modifies this
      ensures r.Pass? <==> force || destination !in old(files)
      ensures r.Pass? ==> files == (old(files) - {source})[destination := old(files)[source]]
      ensures r.Fail? ==> files == old(files)
    {
      if force {
        files := (files - {source})[destination := files[source]];
      } else {
        if destination in files {
          return Fail(Conflict);
        }
        files := files[destination := files[source]];
        files := files - {source};
      }
      return Pass;
    }
  }

  // ----- Concurrent publishers -----

  datatype Stage = Writing | Ready | Linked | Done | Refused | Crashed

  /** A publisher writes `content` to its private `source`, then publishes that. `won` records that its
    * link or rename went through.
    */
  datatype Publisher = Publisher(
    source: string, destination: string, content: bytes, force: bool, stage: Stage, won: bool)

  datatype State = State(files: map<string, bytes>, publishers: seq<Publisher>)

  /** One system call of publisher `i`, or its crash. */
  datatype Action = Write(i: nat, size: nat) | Sync(i: nat) | Link(i: nat) | Cleanup(i: nat) | Crash(i: nat)

  function At(s: State, i: nat, files: map<string, bytes>, stage: Stage): State
    requires i < |s.publishers|
  {
    State(files, s.publishers[i := s.publishers[i].(stage := stage)])
  }

  /** The state after an action; an action that is not enabled does nothing. */
  function Step(s: State, a: Action): State {
    if a.i >= |s.publishers| then s else
      var p := s.publishers[a.i];
      match a
      case Write(i, size) =>
        if p.stage == Writing && size <= |p.content|
        then At(s, i, s.files[p.source := p.content[..size]], Writing) else s
      case Sync(i) =>
        if p.stage == Writing && p.source in s.files && s.files[p.source] == p.content
        then At(s, i, s.files, Ready) else s
      case Link(i) =>
        if p.stage != Ready || p.source !in s.files then s
        else if p.force then
          var moved := State((s.files - {p.source})[p.destination := s.files[p.source]], s.publishers);
          State(moved.files, s.publishers[i := p.(stage := Done, won := true)])
        else if p.destination in s.files then At(s, i, s.files, Refused)
        else State(s.files[p.destination := s.files[p.source]], s.publishers[i := p.(stage := Linked, won := true)])
      case Cleanup(i) =>
        if p.stage == Linked then At(s, i, s.files - {p.source}, Done) else s
      case Crash(i) => At(s, i, s.files, Crashed)
  }

  function Run(s: State, actions: seq<Action>): State {
    if actions == [] then s else Step(Run(s, actions[..|actions| - 1]), actions[|actions| - 1])
  }

  /** Nobody has started; every source is private: fresh, and neither another source nor a destination. */
  ghost predicate Initial(s: State) {
    && (forall p | p in s.publishers :: p.stage == Writing && !p.won && p.source !in s.files)
    && (forall p, q | p in s.publishers && q in s.publishers :: p.source != q.destination)
    && (forall i, j | 0 <= i < j < |s.publishers| :: s.publishers[i].source != s.publishers[j].source)
  }

  ghost predicate SamePlans(a: State, b: State) {
    && |a.publishers| == |b.publishers|
    && forall i | 0 <= i < |a.publishers| ::
         b.publishers[i] == a.publishers[i].(stage := b.publishers[i].stage, won := b.publishers[i].won)
  }

  ghost predicate IsSource(s: State, path: string) {
    exists i :: 0 <= i < |s.publishers| && s.publishers[i].source == path
  }

  ghost predicate Wins(s: State, i: int, path: string) {
    0 <= i < |s.publishers| && s.publishers[i].won && s.publishers[i].destination == path
  }

  /** Every path but a private source holds what it held at the start or one publisher's complete content. */
  ghost predicate Complete(start: State, s: State) {
    && (forall path | path in start.files :: path in s.files)
    && (forall path | path in s.files && !IsSource(start, path) :: Whole(start, s, path))
  }

  ghost predicate Whole(start: State, s: State, path: string)
    requires path in s.files
  {
    || (path in start.files && s.files[path] == start.files[path])
    || exists i :: Wins(s, i, path) && s.files[path] == s.publishers[i].content
  }

  /** `path` keeps what it held at the start, or belongs to its one winner. */
  ghost predicate Owned(start: State, s: State, path: string) {
    if path in start.files then
      path in s.files && s.files[path] == start.files[path] && forall i :: !Wins(s, i, path)
    else
      && (path in s.files <==> exists i :: Wins(s, i, path))
      && (forall i, j | Wins(s, i, path) && Wins(s, j, path) :: i == j)
      && (forall i | Wins(s, i, path) :: path in s.files && s.files[path] == s.publishers[i].content)
  }

  /** A path that is only published without force is never changed once it exists. */
  ghost predicate Unclobbered(start: State, s: State) {
    forall path | Unforced(start, path) :: Owned(start, s, path)
  }

  ghost predicate Unforced(start: State, path: string) {
    && !IsSource(start, path)
    && forall p | p in start.publishers && p.destination == path :: !p.force
  }

  ghost predicate Inv(start: State, s: State) {
    && SamePlans(start, s) && Complete(start, s) && Unclobbered(start, s)
    && (forall p | p in s.publishers && p.stage == Ready :: p.source in s.files && s.files[p.source] == p.content)
    && (forall p | p in s.publishers && (p.stage == Writing || p.stage == Ready) :: !p.won)
  }

  lemma StepKeepsPlans(start: State, s: State, a: Action)
    requires SamePlans(start, s)
    ensures SamePlans(start, Step(s, a))
  {
  }

  /** What a step of publisher `p` may do to the files: touch its own source, and its destination if it wins. */
  ghost predicate Touches(p: Publisher, wins: bool, before: map<string, bytes>, after: map<string, bytes>) {
    && (forall path | path != p.source && path != p.destination :: SameAt(before, after, path))
    && if wins then
         p.destination in after && after[p.destination] == p.content && (!p.force ==> p.destination !in before)
       else SameAt(before, after, p.destination)
  }

  ghost predicate SameAt(before: map<string, bytes>, after: map<string, bytes>, path: string) {
    (path in after <==> path in before) && (path in before ==> after[path] == before[path])
  }

  lemma StepTouches(s: State, a: Action)
    requires a.i < |s.publishers| && s.publishers[a.i].source != s.publishers[a.i].destination
    requires var p := s.publishers[a.i]; p.stage == Ready ==> p.source in s.files && s.files[p.source] == p.content
    requires s.publishers[a.i].stage == Ready ==> !s.publishers[a.i].won
    ensures var t, p := Step(s, a), s.publishers[a.i];
            Touches(p, t.publishers[a.i].won && !p.won, s.files, t.files) && (p.won ==> t.publishers[a.i].won)
  {
  }

  /** From `s` to `t`, publisher `i` made a step. */
  ghost predicate Moved(start: State, s: State, t: State, i: nat) {
    && i < |s.publishers| && SamePlans(start, s) && SamePlans(start, t)
    && (forall j | 0 <= j < |s.publishers| && j != i :: t.publishers[j] == s.publishers[j])
    && Touches(s.publishers[i], WinsNow(s, t, i), s.files, t.files)
    && (s.publishers[i].won ==> t.publishers[i].won)
  }

  predicate WinsNow(s: State, t: State, i: nat)
    requires i < |s.publishers| && |t.publishers| == |s.publishers|
  {
    t.publishers[i].won && !s.publishers[i].won
  }

  lemma StepMoves(start: State, s: State, a: Action)
    requires Initial(start) && Inv(start, s)
    ensures if a.i < |s.publishers| then Moved(start, s, Step(s, a), a.i) else Step(s, a) == s
  {
    StepKeepsPlans(start, s, a);
    if a.i < |s.publishers| {
      assert start.publishers[a.i] in start.publishers && s.publishers[a.i] in s.publishers;
      StepTouches(s, a);
    }
  }

  lemma StepKeepsReady(start: State, s: State, a: Action)
    requires Initial(start) && Inv(start, s)
    ensures var t := Step(s, a);
            && (forall p | p in t.publishers && p.stage == Ready :: p.source in t.files && t.files[p.source] == p.content)
            && (forall p | p in t.publishers && (p.stage == Writing || p.stage == Ready) :: !p.won)
  {
    var t := Step(s, a);
    StepMoves(start, s, a);
    forall i | 0 <= i < |t.publishers|
      ensures var p := t.publishers[i];
              && (p.stage == Ready ==> p.source in t.files && t.files[p.source] == p.content)
              && (p.stage == Writing || p.stage == Ready ==> !p.won)
    {
      assert s.publishers[i] in s.publishers;
      if i != a.i && a.i < |s.publishers| {
        OthersSourceStays(start, s, t, a.i, i);
      }
    }
  }

  lemma OthersSourceStays(start: State, s: State, t: State, i: nat, j: nat)
    requires Initial(start) && Moved(start, s, t, i) && j < |s.publishers| && j != i
    ensures SameAt(s.files, t.files, s.publishers[j].source)
  {
    assert start.publishers[i] in start.publishers && start.publishers[j] in start.publishers;
    assert s.publishers[i].source != s.publishers[j].source;
  }

  lemma WinsAfter(start: State, s: State, t: State, i: nat, j: int, path: string)
    requires Moved(start, s, t, i)
    ensures Wins(t, j, path) <==>
              Wins(s, j, path) || (j == i && WinsNow(s, t, i) && path == s.publishers[i].destination)
  {
  }

  lemma MoveKeepsComplete(start: State, s: State, t: State, i: nat)
    requires Initial(start) && Complete(start, s) && Moved(start, s, t, i)
    ensures Complete(start, t)
  {
    var p := s.publishers[i];
    SourceIsPrivate(start, s, i);
    forall path | path in t.files && !IsSource(start, path) ensures Whole(start, t, path) {
      MoveKeepsWhole(start, s, t, i, path);
    }
    forall path | path in start.files ensures path in t.files {
      assert path in s.files && path != p.source;
      assert path == p.destination || SameAt(s.files, t.files, path);
    }
  }

  lemma SourceIsPrivate(start: State, s: State, i: nat)
    requires Initial(start) && SamePlans(start, s) && i < |s.publishers|
    ensures IsSource(start, s.publishers[i].source) && s.publishers[i].source !in start.files
  {
    assert start.publishers[i] in start.publishers;
  }

  lemma MoveKeepsWhole(start: State, s: State, t: State, i: nat, path: string)
    requires Initial(start) && Complete(start, s) && Moved(start, s, t, i)
    requires path in t.files && !IsSource(start, path)
    ensures Whole(start, t, path)
  {
    var p := s.publishers[i];
    SourceIsPrivate(start, s, i);
    if path == p.destination && WinsNow(s, t, i) {
      assert Wins(t, i, path);
    } else {
      assert SameAt(s.files, t.files, path);
      assert Whole(start, s, path);
      if j :| Wins(s, j, path) && s.files[path] == s.publishers[j].content {
        WinsAfter(start, s, t, i, j, path);
      }
    }
  }

  lemma MoveKeepsOwned(start: State, s: State, t: State, i: nat, path: string)
    requires Initial(start) && Owned(start, s, path) && Moved(start, s, t, i) && Unforced(start, path)
    ensures Owned(start, t, path)
  {
    var p := s.publishers[i];
    SourceIsPrivate(start, s, i);
    forall j ensures Wins(t, j, path) <==> Wins(s, j, path) || (j == i && WinsNow(s, t, i) && path == p.destination) {
      WinsAfter(start, s, t, i, j, path);
    }
    assert start.publishers[i] in start.publishers;
    if WinsNow(s, t, i) && path == p.destination {
      assert !p.force && path !in s.files;
      assert Wins(t, i, path);
    } else {
      assert SameAt(s.files, t.files, path);
    }
  }

  /** Whatever the interleaving and whoever crashes: a path published only without force keeps what it
    * held, or goes to exactly one publisher; and no published path ever shows an incomplete file.
    */
  lemma {:induction false} EveryRun(start: State, actions: seq<Action>)
    requires Initial(start)
    ensures Inv(start, Run(start, actions))
    decreases |actions|
  {
    if actions == [] {
    } else {
      var init, last := actions[..|actions| - 1], actions[|actions| - 1];
      EveryRun(start, init);
      StepKeepsPlans(start, Run(start, init), last);
      StepKeepsReady(start, Run(start, init), last);
      if last.i < |Run(start, init).publishers| {
        StepMoves(start, Run(start, init), last);
        MoveKeepsComplete(start, Run(start, init), Step(Run(start, init), last), last.i);
        forall path | Unforced(start, path) ensures Owned(start, Step(Run(start, init), last), path) {
          MoveKeepsOwned(start, Run(start, init), Step(Run(start, init), last), last.i, path);
        }
      }
    }
  }

  lemma MoveNeverReplaces(start: State, s: State, t: State, i: nat, path: string)
    requires Initial(start) && Moved(start, s, t, i) && Unforced(start, path) && path in s.files
    ensures path in t.files && t.files[path] == s.files[path]
  {
    SourceIsPrivate(start, s, i);
    assert start.publishers[i] in start.publishers;
    assert path == s.publishers[i].destination || SameAt(s.files, t.files, path);
  }

  lemma RunSnoc(start: State, actions: seq<Action>, init: seq<Action>, last: Action)
    ensures Run(start, actions + (init + [last])) == Step(Run(start, actions + init), last)
  {
    var all := actions + (init + [last]);
    assert all[..|all| - 1] == actions + init && all[|all| - 1] == last;
  }

  lemma StepNeverReplaces(start: State, s: State, a: Action, path: string)
    requires Initial(start) && Inv(start, s) && Unforced(start, path) && path in s.files
    ensures path in Step(s, a).files && Step(s, a).files[path] == s.files[path]
  {
    StepMoves(start, s, a);
    if a.i < |s.publishers| {
      MoveNeverReplaces(start, s, Step(s, a), a.i, path);
    }
  }

  /** What is once visible under such a path stays, in every continuation of the run. */
  lemma {:induction false} NeverReplaced(start: State, actions: seq<Action>, more: seq<Action>, path: string)
    requires Initial(start) && Unforced(start, path) && path in Run(start, actions).files
    ensures path in Run(start, actions + more).files
    ensures Run(start, actions + more).files[path] == Run(start, actions).files[path]
    decreases |more|
  {
    if more == [] {
      assert actions + more == actions;
    } else {
      var init, last := more[..|more| - 1], more[|more| - 1];
      NeverReplaced(start, actions, init, path);
      RunSnoc(start, actions, init, last);
      assert more == init + [last];
      EveryRun(start, actions + init);
      StepNeverReplaces(start, Run(start, actions + init), last, path);
    }
  }

  /** From the start, undisturbed: a publisher that writes all of its content, however it is cut, syncs, links and cleans
    * up has its content at the destination and its source gone, or without force has changed nothing but its source.
    */
  lemma WholePublication(s: State, i: nat, size: nat)
    requires i < |s.publishers| && s.publishers[i].stage == Writing && size <= |s.publishers[i].content|
    requires s.publishers[i].source != s.publishers[i].destination && s.publishers[i].source !in s.files
    ensures var p := s.publishers[i];
            var t := Run(s, [Write(i, size)] + [Write(i, |p.content|)] + [Sync(i)] + [Link(i)] + [Cleanup(i)]);
            t.files == if p.force || p.destination !in s.files then s.files[p.destination := p.content]
                       else s.files[p.source := p.content]
  {
    var p := s.publishers[i];
    WrittenAndSynced(s, i, size);
    var first := [Write(i, size)] + [Write(i, |p.content|)] + [Sync(i)];
    TwoMore(s, first, Link(i), Cleanup(i));
    LinkThenCleanup(Run(s, first), i);
  }

  lemma TwoMore(s: State, actions: seq<Action>, a: Action, b: Action)
    ensures Run(s, actions + [a] + [b]) == Run(Run(s, actions), [a, b])
  {
    RunThen(s, actions, a);
    RunThen(s, actions + [a], b);
    RunThen(Run(s, actions), [], a);
    RunThen(Run(s, actions), [a], b);
    assert [] + [a] == [a] && [a] + [b] == [a, b];
  }

  lemma WrittenAndSynced(s: State, i: nat, size: nat)
    requires i < |s.publishers| && s.publishers[i].stage == Writing && size <= |s.publishers[i].content|
    ensures var p := s.publishers[i];
            var t := Run(s, [Write(i, size)] + [Write(i, |p.content|)] + [Sync(i)]);
            && i < |t.publishers| && t.publishers[i] == p.(stage := Ready)
            && t.files == s.files[p.source := p.content]
  {
    var p := s.publishers[i];
    RunThen(s, [], Write(i, size));
    RunThen(s, [Write(i, size)], Write(i, |p.content|));
    RunThen(s, [Write(i, size)] + [Write(i, |p.content|)], Sync(i));
    assert [] + [Write(i, size)] == [Write(i, size)];
    var written := Step(s, Write(i, size));
    assert written.files == s.files[p.source := p.content[..size]];
    var whole := Step(written, Write(i, |p.content|));
    assert p.content[..|p.content|] == p.content;
    assert whole.files == s.files[p.source := p.content];
  }

  lemma RunThen(s: State, actions: seq<Action>, a: Action)
    ensures Run(s, actions + [a]) == Step(Run(s, actions), a)
  {
    assert (actions + [a])[..|actions|] == actions;
  }

  /** Undisturbed, a publisher's link and cleanup together do what one `PublishAtomic` call does. */
  lemma LinkThenCleanup(s: State, i: nat)
    requires i < |s.publishers| && s.publishers[i].stage == Ready
    requires s.publishers[i].source in s.files && s.publishers[i].source != s.publishers[i].destination
    ensures var p := s.publishers[i];
            Run(s, [Link(i), Cleanup(i)]).files ==
            if p.force || p.destination !in s.files
            then (s.files - {p.source})[p.destination := s.files[p.source]]
            else s.files
  {
    assert [Link(i), Cleanup(i)][..1] == [Link(i)] && [Link(i)][..0] == [];
    var linked := Run(s, [Link(i)]);
    assert linked == Step(Run(s, []), Link(i));
    assert Run(s, [Link(i), Cleanup(i)]) == Step(linked, Cleanup(i));
  }
}
