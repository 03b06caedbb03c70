/** The registry of shared HTTP clients, one per name and event loop (robothor/http_clients.py:60-150). */
module HttpClients {
  import opened Wrappers

  /** An event loop, named by its position in the world's list. The address is what `id()` gives; another loop
    * may get it once this one is freed.
    */
  datatype Loop = Loop(address: nat, finished: bool, freed: bool)

  /** A client that was built, named by its position in the world's list, and what was done to close it. */
  datatype Client = Client(
    name: string, loop: nat, factory: nat, transport: Option<nat>,
    closed: bool, scheduled: bool, attempted: bool, abandoned: bool)

  datatype Entry = Entry(client: nat, loop: nat, factory: nat, transport: Option<nat>)

  datatype Key = Key(name: string, address: nat)

  datatype Task = Task(client: nat, done: bool)

  /** The registry with the loops, clients and tasks around it; `closers` holds what each running
    * `close_shared_clients` still has to close.
    */
  datatype State = State(
    clients: map<Key, Entry>, closing: set<nat>,
    loops: seq<Loop>, built: seq<Client>, tasks: seq<Task>, closers: seq<seq<nat>>)

  const Initial := State(map[], {}, [], [], [], [])

  predicate Finished(s: State, loop: nat) {
    loop < |s.loops| && s.loops[loop].finished
  }

  predicate Running(s: State, loop: nat) {
    loop < |s.loops| && !s.loops[loop].finished && !s.loops[loop].freed
  }

  predicate IsClosed(s: State, client: nat) {
    client < |s.built| && s.built[client].closed
  }

  // ----- What each step does -----

  function Pruned(s: State): State {
    s.(clients := map key | key in s.clients && !Finished(s, s.clients[key].loop) :: s.clients[key])
  }

  function MyKey(s: State, name: string, loop: nat): Key
    requires loop < |s.loops|
  {
    Key(name, s.loops[loop].address)
  }

  /** The registered client may be handed out again. */
  predicate Fits(s: State, e: Entry, factory: nat, transport: Option<nat>) {
    e.factory == factory && e.transport == transport && !IsClosed(s, e.client)
  }

  /** A task that closes the client is created and held. */
  function Scheduled(s: State, client: nat): State {
    s.(closing := s.closing + {|s.tasks|}, tasks := s.tasks + [Task(client, false)],
       built := if client < |s.built| then s.built[client := s.built[client].(scheduled := true)] else s.built)
  }

  function Registered(s: State, name: string, loop: nat, factory: nat, transport: Option<nat>): State
    requires loop < |s.loops|
  {
    s.(clients := s.clients[MyKey(s, name, loop) := Entry(|s.built|, loop, factory, transport)],
       built := s.built + [Client(name, loop, factory, transport, false, false, false, false)])
  }

  /** `_client_for`; the constructor may raise, and then nothing is returned. */
  function Called(s: State, name: string, loop: nat, factory: nat, transport: Option<nat>, raises: bool)
    : (State, Option<nat>)
    requires loop < |s.loops|
  {
    var p := Pruned(s);
    var key := MyKey(p, name, loop);
    if key in p.clients && Fits(p, p.clients[key], factory, transport) then (p, Some(p.clients[key].client))
    else
      var q := if key in p.clients && !IsClosed(p, p.clients[key].client) then Scheduled(p, p.clients[key].client) else p;
      if raises then (q, None) else (Registered(q, name, loop, factory, transport), Some(|q.built|))
  }

  /** `keys` lists the keys of the loop's entries, once each. */
  ghost predicate KeysOf(s: State, loop: nat, keys: seq<Key>) {
    && (forall key :: key in keys <==> key in s.clients && s.clients[key].loop == loop)
    && forall i, j | 0 <= i < j < |keys| :: keys[i] != keys[j]
  }

  /** `mine` lists the clients registered for the loop, one for each entry, in any order. */
  ghost predicate Lists(s: State, loop: nat, mine: seq<nat>) {
    exists keys :: KeysOf(s, loop, keys) && ClientsAt(s, keys, mine)
  }

  ghost predicate ClientsAt(s: State, keys: seq<Key>, mine: seq<nat>) {
    |mine| == |keys| && forall i | 0 <= i < |keys| :: keys[i] in s.clients && mine[i] == s.clients[keys[i]].client
  }

  lemma ListsAll(s: State, loop: nat, mine: seq<nat>)
    requires Lists(s, loop, mine)
    ensures forall key | key in s.clients && s.clients[key].loop == loop :: s.clients[key].client in mine
    ensures forall client | client in mine ::
              exists key | key in s.clients :: s.clients[key].loop == loop && s.clients[key].client == client
  {
    var keys :| KeysOf(s, loop, keys) && ClientsAt(s, keys, mine);
    forall key | key in s.clients && s.clients[key].loop == loop ensures s.clients[key].client in mine {
      var i :| 0 <= i < |keys| && keys[i] == key;
      assert mine[i] in mine;
    }
    forall client | client in mine
      ensures exists key | key in s.clients :: s.clients[key].loop == loop && s.clients[key].client == client
    {
      var i :| 0 <= i < |mine| && mine[i] == client;
      assert keys[i] in keys;
    }
  }

  /** Nobody is to be closed twice. */
  lemma ListsOnce(s: State, loop: nat, mine: seq<nat>, i: nat, j: nat)
    requires Inv(s) && Lists(s, loop, mine) && i < j < |mine|
    ensures mine[i] != mine[j]
  {
    var keys :| KeysOf(s, loop, keys) && ClientsAt(s, keys, mine);
    assert keys[i] != keys[j];
    OnePerNameAndLoop(s, keys[i], keys[j]);
  }

  function Without(s: State, loop: nat): State {
    s.(clients := map key | key in s.clients && s.clients[key].loop != loop :: s.clients[key])
  }

  /** The locked part of `close_shared_clients`. */
  function Taken(s: State, loop: nat, mine: seq<nat>): State {
    var p := Without(Pruned(s), loop);
    p.(closers := p.closers + [mine])
  }

  function Attempt(s: State, client: nat, succeeds: bool): State {
    if client < |s.built| then
      var c := s.built[client];
      s.(built := s.built[client := c.(attempted := true, closed := c.closed || succeeds)])
    else s
  }

  function Abandon(built: seq<Client>, clients: seq<nat>): seq<Client> {
    seq(|built|, i requires 0 <= i < |built| =>
      if i in clients then built[i].(abandoned := true) else built[i])
  }

  datatype Step =
    | Start(address: nat)
    | Finish(loop: nat)
    | Free(loop: nat)
    | Call(name: string, loop: nat, factory: nat, transport: Option<nat>, raises: bool)
    | BeginClose(loop: nat, mine: seq<nat>)
    | CloseNext(closer: nat, succeeds: bool)
    | CancelClose(closer: nat)
    | RunTask(task: nat, succeeds: bool)
    | OwnerCloses(client: nat)

  /** An address is given out again only when the loop that had it is gone, and a loop that an entry holds is
    * not gone.
    */
  ghost predicate Enabled(s: State, step: Step) {
    match step
    case Start(address) => forall l | 0 <= l < |s.loops| && !s.loops[l].freed :: s.loops[l].address != address
    case Finish(loop) => Running(s, loop)
    case Free(loop) => loop < |s.loops| && forall key | key in s.clients :: s.clients[key].loop != loop
    case Call(_, loop, _, _, _) => Running(s, loop)
    case BeginClose(loop, mine) => Running(s, loop) && Lists(Pruned(s), loop, mine)
    case CloseNext(closer, _) => closer < |s.closers| && s.closers[closer] != []
    case CancelClose(closer) => closer < |s.closers| && s.closers[closer] != []
    case RunTask(task, _) => task < |s.tasks| && !s.tasks[task].done
    case OwnerCloses(client) => client < |s.built|
  }

  function Next(s: State, step: Step): State
    requires Enabled(s, step)
  {
    match step
    case Start(address) => s.(loops := s.loops + [Loop(address, false, false)])
    case Finish(loop) => s.(loops := s.loops[loop := s.loops[loop].(finished := true)])
    case Free(loop) => s.(loops := s.loops[loop := s.loops[loop].(freed := true)])
    case Call(name, loop, factory, transport, raises) => Called(s, name, loop, factory, transport, raises).0
    case BeginClose(loop, mine) => Taken(s, loop, mine)
    case CloseNext(closer, succeeds) =>
      var todo := s.closers[closer];
      Attempt(s.(closers := s.closers[closer := todo[1..]]), todo[0], succeeds)
    case CancelClose(closer) =>
      var todo := s.closers[closer];
      var t := Attempt(s.(closers := s.closers[closer := []]), todo[0], false);
      t.(built := Abandon(t.built, todo[1..]))
    case RunTask(task, succeeds) =>
      var t := s.(closing := s.closing - {task}, tasks := s.tasks[task := s.tasks[task].(done := true)]);
      Attempt(t, s.tasks[task].client, succeeds)
    case OwnerCloses(client) => s.(built := s.built[client := s.built[client].(closed := true)])
  }

  ghost predicate RunTo(from: State, steps: seq<Step>, to: State)
    decreases |steps|
  {
    if steps == [] then from == to
    else Enabled(from, steps[0]) && RunTo(Next(from, steps[0]), steps[1..], to)
  }

  // ----- What holds in every reachable state -----

  /** The entry is filed under the client's own name and the address of the loop it was built on, which it holds. */
  predicate Filed(s: State, key: Key, e: Entry) {
    && e.client < |s.built| && e.loop < |s.loops| && !s.loops[e.loop].freed
    && key == Key(s.built[e.client].name, s.loops[e.loop].address)
    && s.built[e.client].loop == e.loop
    && s.built[e.client].factory == e.factory && s.built[e.client].transport == e.transport
  }

  ghost predicate AllFiled(s: State) {
    forall key | key in s.clients :: Filed(s, key, s.clients[key])
  }

  ghost predicate IsRegistered(s: State, client: nat) {
    exists key | key in s.clients :: s.clients[key].client == client
  }

  ghost predicate IsQueued(s: State, client: nat) {
    exists i | 0 <= i < |s.closers| :: client in s.closers[i]
  }

  /** Where a client that was built can be: registered; on its way to being closed, or closed; built on a loop
    * that has finished; or dropped by a `close_shared_clients` that was cancelled.
    */
  ghost predicate Accounted(s: State, client: nat)
    requires client < |s.built|
  {
    var c := s.built[client];
    || c.scheduled || c.attempted || c.closed || c.abandoned
    || Finished(s, c.loop) || IsQueued(s, client) || IsRegistered(s, client)
  }

  ghost predicate AllAccounted(s: State) {
    forall client | 0 <= client < |s.built| :: Accounted(s, client)
  }

  ghost predicate AddressesDistinct(s: State) {
    forall a, b | 0 <= a < b < |s.loops| && !s.loops[a].freed && !s.loops[b].freed ::
      s.loops[a].address != s.loops[b].address
  }

  /** The closing set holds exactly the tasks that are not done. */
  ghost predicate ClosingIsPending(s: State) {
    forall task: nat :: task in s.closing <==> task < |s.tasks| && !s.tasks[task].done
  }

  ghost predicate Inv(s: State) {
    AllFiled(s) && AllAccounted(s) && AddressesDistinct(s) && ClosingIsPending(s)
  }

  // ----- Each step keeps it -----

  lemma PruneKeeps(s: State)
    requires Inv(s)
    ensures Inv(Pruned(s))
    ensures forall key | key in Pruned(s).clients :: !Finished(s, s.clients[key].loop)
  {
    var t := Pruned(s);
    forall client | 0 <= client < |t.built| ensures Accounted(t, client) {
      assert Accounted(s, client);
      if IsRegistered(s, client) {
        var key :| key in s.clients && s.clients[key].client == client;
        assert Filed(s, key, s.clients[key]);
        assert key in t.clients || Finished(t, t.built[client].loop);
      }
      assert IsQueued(s, client) ==> IsQueued(t, client);
    }
    assert forall key | key in t.clients :: Filed(s, key, s.clients[key]);
  }

  /** Loops, queues and entries as they were, and clients only closer to being closed. */
  ghost predicate FlagsGrow(s: State, t: State) {
    && t.loops == s.loops && t.closers == s.closers && t.clients == s.clients && |t.built| == |s.built|
    && forall client | 0 <= client < |s.built| :: FlagsGrowAt(s.built[client], t.built[client])
  }

  predicate FlagsGrowAt(c: Client, d: Client) {
    && d.name == c.name && d.loop == c.loop && d.factory == c.factory && d.transport == c.transport
    && (c.closed ==> d.closed) && (c.scheduled ==> d.scheduled)
    && (c.attempted ==> d.attempted) && (c.abandoned ==> d.abandoned)
  }

  lemma FlagsGrowKeeps(s: State, t: State)
    requires Inv(s) && FlagsGrow(s, t) && ClosingIsPending(t)
    ensures Inv(t)
  {
    forall client | 0 <= client < |t.built| ensures Accounted(t, client) {
      assert Accounted(s, client) && FlagsGrowAt(s.built[client], t.built[client]);
      assert IsQueued(s, client) ==> IsQueued(t, client);
      assert IsRegistered(s, client) ==> IsRegistered(t, client);
    }
    forall key | key in t.clients ensures Filed(t, key, t.clients[key]) {
      assert Filed(s, key, s.clients[key]);
      assert FlagsGrowAt(s.built[s.clients[key].client], t.built[s.clients[key].client]);
    }
  }

  lemma ScheduleKeeps(s: State, client: nat)
    requires Inv(s)
    ensures Inv(Scheduled(s, client)) && FlagsGrow(s, Scheduled(s, client))
  {
    FlagsGrowKeeps(s, Scheduled(s, client));
  }

  lemma AttemptKeeps(s: State, client: nat, succeeds: bool)
    requires Inv(s)
    ensures Inv(Attempt(s, client, succeeds)) && FlagsGrow(s, Attempt(s, client, succeeds))
  {
    FlagsGrowKeeps(s, Attempt(s, client, succeeds));
  }

  /** What is filed under the key, if anything, may be dropped: it is closed or being closed. */
  predicate MayReplace(s: State, key: Key) {
    key in s.clients ==>
      var client := s.clients[key].client; client < |s.built| && (s.built[client].scheduled || s.built[client].closed)
  }

  lemma RegisterKeeps(s: State, name: string, loop: nat, factory: nat, transport: Option<nat>)
    requires Inv(s) && Running(s, loop) && MayReplace(s, MyKey(s, name, loop))
    ensures Inv(Registered(s, name, loop, factory, transport))
  {
    var t := Registered(s, name, loop, factory, transport);
    var mine := MyKey(s, name, loop);
    assert t.clients[mine].client == |s.built|;
    assert IsRegistered(t, |s.built|);
    forall client | 0 <= client < |s.built| ensures Accounted(t, client) {
      assert Accounted(s, client) && t.built[client] == s.built[client];
      assert IsQueued(s, client) ==> IsQueued(t, client);
      if IsRegistered(s, client) {
        var key :| key in s.clients && s.clients[key].client == client;
        if key != mine {
          assert t.clients[key] == s.clients[key];
        }
      }
    }
    forall key | key in t.clients ensures Filed(t, key, t.clients[key]) {
      assert key != mine ==> Filed(s, key, s.clients[key]);
    }
  }

  lemma CallKeeps(s: State, name: string, loop: nat, factory: nat, transport: Option<nat>, raises: bool)
    requires Inv(s) && Running(s, loop)
    ensures Inv(Called(s, name, loop, factory, transport, raises).0)
  {
    PruneKeeps(s);
    var p := Pruned(s);
    var key := MyKey(p, name, loop);
    if key in p.clients {
      assert Filed(p, key, p.clients[key]);
      if Fits(p, p.clients[key], factory, transport) {
        return;
      }
    }
    var q := if key in p.clients && !IsClosed(p, p.clients[key].client) then Scheduled(p, p.clients[key].client) else p;
    if key in p.clients {
      ScheduleKeeps(p, p.clients[key].client);
    }
    RegisterKeeps(q, name, loop, factory, transport);
  }

  lemma TakeKeeps(s: State, loop: nat, mine: seq<nat>)
    requires Inv(s) && Lists(Pruned(s), loop, mine)
    ensures Inv(Taken(s, loop, mine))
  {
    PruneKeeps(s);
    ListsAll(Pruned(s), loop, mine);
    var p, t := Pruned(s), Taken(s, loop, mine);
    assert t.closers[|s.closers|] == mine;
    forall client | 0 <= client < |t.built| ensures Accounted(t, client) {
      assert Accounted(p, client);
      if IsQueued(p, client) {
        var i :| 0 <= i < |p.closers| && client in p.closers[i];
        assert t.closers[i] == p.closers[i];
      }
      if IsRegistered(p, client) {
        var key :| key in p.clients && p.clients[key].client == client;
        assert key in t.clients ==> t.clients[key] == p.clients[key];
        assert key in t.clients || client in mine;
      }
    }
    assert forall key | key in t.clients :: Filed(p, key, p.clients[key]);
  }

  /** A closer's list may lose a client that has been tried, and a list that is dropped is marked as such. */
  lemma QueueKeeps(s: State, t: State, closer: nat, todo: seq<nat>)
    requires Inv(s) && closer < |s.closers|
    requires t.closers == s.closers[closer := todo] && FlagsGrow(s, t.(closers := s.closers)) && ClosingIsPending(t)
    requires forall client | client in s.closers[closer] && client < |s.built| ::
               client in todo || t.built[client].attempted || t.built[client].abandoned
    ensures Inv(t)
  {
    var u := t.(closers := s.closers);
    FlagsGrowKeeps(s, u);
    forall client | 0 <= client < |t.built| ensures Accounted(t, client) {
      assert Accounted(u, client);
      assert IsRegistered(u, client) ==> IsRegistered(t, client);
      if IsQueued(u, client) {
        var i :| 0 <= i < |s.closers| && client in s.closers[i];
        assert t.closers[i] == if i == closer then todo else s.closers[i];
      }
    }
    forall key | key in t.clients ensures Filed(t, key, t.clients[key]) {
      assert Filed(u, key, u.clients[key]);
    }
  }

  lemma CloseNextKeeps(s: State, closer: nat, succeeds: bool)
    requires Inv(s) && Enabled(s, CloseNext(closer, succeeds))
    ensures Inv(Next(s, CloseNext(closer, succeeds)))
  {
    var todo := s.closers[closer];
    var t := Next(s, CloseNext(closer, succeeds));
    assert todo == [todo[0]] + todo[1..];
    QueueKeeps(s, t, closer, todo[1..]);
  }

  lemma CancelCloseKeeps(s: State, closer: nat)
    requires Inv(s) && Enabled(s, CancelClose(closer))
    ensures Inv(Next(s, CancelClose(closer)))
  {
    var todo := s.closers[closer];
    assert todo == [todo[0]] + todo[1..];
    QueueKeeps(s, Next(s, CancelClose(closer)), closer, []);
  }

  lemma LoopStepKeeps(s: State, step: Step)
    requires Inv(s) && Enabled(s, step) && (step.Start? || step.Finish? || step.Free?)
    ensures Inv(Next(s, step))
  {
    var t := Next(s, step);
    forall client | 0 <= client < |t.built| ensures Accounted(t, client) {
      assert Accounted(s, client);
      assert IsQueued(s, client) ==> IsQueued(t, client);
      assert IsRegistered(s, client) ==> IsRegistered(t, client);
    }
    forall key | key in t.clients ensures Filed(t, key, t.clients[key]) {
      assert Filed(s, key, s.clients[key]);
    }
  }

  lemma StepKeeps(s: State, step: Step)
    requires Inv(s) && Enabled(s, step)
    ensures Inv(Next(s, step))
  {
    match step {
      case Start(_) => LoopStepKeeps(s, step);
      case Finish(_) => LoopStepKeeps(s, step);
      case Free(_) => LoopStepKeeps(s, step);
      case Call(name, loop, factory, transport, raises) => CallKeeps(s, name, loop, factory, transport, raises);
      case BeginClose(loop, mine) => TakeKeeps(s, loop, mine);
      case CloseNext(closer, succeeds) => CloseNextKeeps(s, closer, succeeds);
      case CancelClose(closer) => CancelCloseKeeps(s, closer);
      case RunTask(task, succeeds) =>
        var t := s.(closing := s.closing - {task}, tasks := s.tasks[task := s.tasks[task].(done := true)]);
        FlagsGrowKeeps(s, t);
        AttemptKeeps(t, s.tasks[task].client, succeeds);
      case OwnerCloses(_) => FlagsGrowKeeps(s, Next(s, step));
    }
  }

  lemma {:induction false} EveryRun(from: State, steps: seq<Step>, to: State)
    requires Inv(from) && RunTo(from, steps, to)
    ensures Inv(to)
    decreases |steps|
  {
    if steps != [] {
      StepKeeps(from, steps[0]);
      EveryRun(Next(from, steps[0]), steps[1..], to);
    }
  }

  /** In every state that can be reached: no client is lost track of, each is filed under its own name and the
    * address of its own loop, and the closing tasks that are not done are held.
    */
  lemma EveryReachableState(steps: seq<Step>, s: State)
    requires RunTo(Initial, steps, s)
    ensures AllFiled(s) && AllAccounted(s) && AddressesDistinct(s) && ClosingIsPending(s)
  {
    assert Inv(Initial);
    EveryRun(Initial, steps, s);
  }

  ghost predicate NoneAbandoned(s: State) {
    forall client | 0 <= client < |s.built| :: !s.built[client].abandoned
  }

  /** The step cancels a `close_shared_clients` that has a client behind the one it is closing. */
  ghost predicate Drops(s: State, step: Step) {
    && step.CancelClose? && step.closer < |s.closers| && s.closers[step.closer] != []
    && exists client :: client in s.closers[step.closer][1..] && client < |s.built|
  }

  ghost predicate DropsIn(from: State, steps: seq<Step>)
    decreases |steps|
  {
    && steps != [] && Enabled(from, steps[0])
    && (Drops(from, steps[0]) || DropsIn(Next(from, steps[0]), steps[1..]))
  }

  lemma StepAbandons(s: State, step: Step)
    requires Enabled(s, step)
    ensures NoneAbandoned(Next(s, step)) <==> NoneAbandoned(s) && !Drops(s, step)
  {
    var t := Next(s, step);
    assert |s.built| <= |t.built|;
    forall client | 0 <= client < |s.built|
      ensures t.built[client].abandoned <==>
              || s.built[client].abandoned
              || (step.CancelClose? && client in s.closers[step.closer][1..])
    {
    }
    assert forall client | |s.built| <= client < |t.built| :: !t.built[client].abandoned;
  }

  /** When a run drops clients without trying to close them: exactly when a `close_shared_clients` is cancelled that
    * has a client behind the one it is closing.
    */
  lemma {:induction false} AbandonsExactly(from: State, steps: seq<Step>, to: State)
    requires RunTo(from, steps, to)
    ensures NoneAbandoned(to) <==> NoneAbandoned(from) && !DropsIn(from, steps)
    decreases |steps|
  {
    if steps != [] {
      StepAbandons(from, steps[0]);
      AbandonsExactly(Next(from, steps[0]), steps[1..], to);
    }
  }

  /** A client that can be used, on a loop that runs, that nothing in the module knows of any more. */
  ghost predicate Lost(s: State, client: nat) {
    && client < |s.built| && s.built[client].abandoned && Running(s, s.built[client].loop)
    && !s.built[client].closed && !s.built[client].scheduled && !s.built[client].attempted
    && !IsQueued(s, client) && !IsRegistered(s, client)
  }

  /** Two open clients of one running loop. */
  lemma TwoClients() returns (steps: seq<Step>, s: State)
    ensures RunTo(Initial, steps, s)
    ensures s == State(
      map[Key("a", 7) := Entry(0, 0, 0, None), Key("b", 7) := Entry(1, 0, 0, None)], {}, [Loop(7, false, false)],
      [Client("a", 0, 0, None, false, false, false, false), Client("b", 0, 0, None, false, false, false, false)],
      [], [])
  {
    var s1 := Next(Initial, Start(7));
    var s2 := Next(s1, Call("a", 0, 0, None, false));
    s := Next(s2, Call("b", 0, 0, None, false));
    RunExtends(s2, Call("b", 0, 0, None, false), [], s);
    RunExtends(s1, Call("a", 0, 0, None, false), [Call("b", 0, 0, None, false)], s);
    steps := [Start(7)] + ([Call("a", 0, 0, None, false)] + [Call("b", 0, 0, None, false)]);
    RunExtends(Initial, Start(7), [Call("a", 0, 0, None, false)] + [Call("b", 0, 0, None, false)], s);
    assert s.built == [Client("a", 0, 0, None, false, false, false, false), Client("b", 0, 0, None, false, false, false, false)];
    assert s.clients == map[Key("a", 7) := Entry(0, 0, 0, None), Key("b", 7) := Entry(1, 0, 0, None)];
  }

  lemma ListsBoth(s: State)
    requires s.clients == map[Key("a", 7) := Entry(0, 0, 0, None), Key("b", 7) := Entry(1, 0, 0, None)]
    ensures Lists(s, 0, [0, 1])
  {
    var keys := [Key("a", 7), Key("b", 7)];
    assert Key("a", 7).name != Key("b", 7).name;
    assert KeysOf(s, 0, keys) && ClientsAt(s, keys, [0, 1]);
  }

  lemma {:induction false} RunsJoin(from: State, before: seq<Step>, mid: State, after: seq<Step>, to: State)
    requires RunTo(from, before, mid) && RunTo(mid, after, to)
    ensures RunTo(from, before + after, to)
    decreases |before|
  {
    if before == [] {
      assert before + after == after;
    } else {
      RunsJoin(Next(from, before[0]), before[1..], mid, after, to);
      assert (before + after)[1..] == before[1..] + after;
    }
  }

  /** `_aclose_quietly` does not catch a cancellation: with two clients, and the close cancelled at the first,
    * the second is lost.
    */
  lemma CancellingLosesClients()
    ensures exists steps, s :: RunTo(Initial, steps, s) && Lost(s, 1)
  {
    var steps, s := TwoClients();
    var end := CancelledClose(s);
    RunsJoin(Initial, steps, s, [BeginClose(0, [0, 1])] + [CancelClose(0)], end);
  }

  lemma CancelledClose(s: State) returns (end: State)
    requires s == State(
      map[Key("a", 7) := Entry(0, 0, 0, None), Key("b", 7) := Entry(1, 0, 0, None)], {}, [Loop(7, false, false)],
      [Client("a", 0, 0, None, false, false, false, false), Client("b", 0, 0, None, false, false, false, false)],
      [], [])
    ensures RunTo(s, [BeginClose(0, [0, 1])] + [CancelClose(0)], end) && Lost(end, 1)
  {
    BeginsBoth(s);
    var taken := Next(s, BeginClose(0, [0, 1]));
    end := CancelFirst(taken);
    RunExtends(taken, CancelClose(0), [], end);
    RunExtends(s, BeginClose(0, [0, 1]), [CancelClose(0)], end);
  }

  lemma BeginsBoth(s: State)
    requires s == State(
      map[Key("a", 7) := Entry(0, 0, 0, None), Key("b", 7) := Entry(1, 0, 0, None)], {}, [Loop(7, false, false)],
      [Client("a", 0, 0, None, false, false, false, false), Client("b", 0, 0, None, false, false, false, false)],
      [], [])
    ensures Enabled(s, BeginClose(0, [0, 1]))
    ensures var taken := Next(s, BeginClose(0, [0, 1]));
            taken.closers == [[0, 1]] && taken.clients == map[] && taken.loops == s.loops && taken.built == s.built
  {
    assert Pruned(s).clients == s.clients;
    ListsBoth(Pruned(s));
  }

  lemma CancelFirst(s: State) returns (end: State)
    requires s.closers == [[0, 1]] && s.clients == map[] && s.loops == [Loop(7, false, false)]
    requires s.built ==
             [Client("a", 0, 0, None, false, false, false, false), Client("b", 0, 0, None, false, false, false, false)]
    ensures Enabled(s, CancelClose(0)) && end == Next(s, CancelClose(0)) && Lost(end, 1)
  {
    end := Next(s, CancelClose(0));
    assert end.closers == [[]];
  }

  lemma RunExtends(from: State, step: Step, steps: seq<Step>, to: State)
    requires Enabled(from, step) && RunTo(Next(from, step), steps, to)
    ensures RunTo(from, [step] + steps, to)
  {
    assert ([step] + steps)[1..] == steps;
  }

  /** A loop that finishes is finished, and the registry does not notice. A cancelled close has tried the client it was
    * at, without closing it, has dropped those behind it, and is over; nothing else changes.
    */
  lemma FinishAndCancel(s: State, step: Step)
    requires Inv(s) && Enabled(s, step)
    ensures step.Finish? ==>
              var t := Next(s, step);
              Finished(t, step.loop) && t == s.(loops := t.loops) && |t.loops| == |s.loops|
              && forall l | 0 <= l < |s.loops| && l != step.loop :: t.loops[l] == s.loops[l]
    ensures step.CancelClose? ==>
              var t, todo := Next(s, step), s.closers[step.closer];
              && t == s.(built := t.built, closers := s.closers[step.closer := []]) && |t.built| == |s.built|
              && forall client | 0 <= client < |s.built| ::
                   t.built[client] == s.built[client].(
                     attempted := s.built[client].attempted || client == todo[0],
                     abandoned := s.built[client].abandoned || client in todo[1..])
  {
  }

  // ----- What callers get -----

  /** At most one client is registered for a name and a loop, and no client is registered twice. */
  lemma OnePerNameAndLoop(s: State, a: Key, b: Key)
    requires Inv(s) && a in s.clients && b in s.clients
    ensures a.name == b.name && s.clients[a].loop == s.clients[b].loop ==> a == b
    ensures s.clients[a].client == s.clients[b].client ==> a == b
  {
    assert Filed(s, a, s.clients[a]) && Filed(s, b, s.clients[b]);
  }

  /** A call on one loop leaves the clients of every other live loop registered, and so does closing. */
  lemma NoCrossLoopEviction(s: State, step: Step, key: Key)
    requires Inv(s) && Enabled(s, step) && (step.Call? || step.BeginClose?)
    requires key in s.clients && s.clients[key].loop != step.loop && !Finished(s, s.clients[key].loop)
    ensures var t := Next(s, step); key in t.clients && t.clients[key] == s.clients[key]
  {
    assert Filed(s, key, s.clients[key]);
    var a, b := s.clients[key].loop, step.loop;
    assert s.loops[a].address != s.loops[b].address;
  }

  lemma SameAddress(s: State, a: nat, b: nat)
    requires AddressesDistinct(s) && a < |s.loops| && b < |s.loops| && !s.loops[a].freed && !s.loops[b].freed
    ensures s.loops[a].address == s.loops[b].address ==> a == b
  {
  }

  /** The client is registered, open, and the one asked for. */
  ghost predicate Serves(s: State, client: nat, name: string, loop: nat, factory: nat, transport: Option<nat>) {
    && client < |s.built| && !s.built[client].closed && loop < |s.loops|
    && s.built[client].name == name && s.built[client].loop == loop
    && s.built[client].factory == factory && s.built[client].transport == transport
    && MyKey(s, name, loop) in s.clients && s.clients[MyKey(s, name, loop)].client == client
  }

  /** A call returns a client of the caller's name and loop, built as asked, open, and registered. */
  lemma CallServes(s: State, name: string, loop: nat, factory: nat, transport: Option<nat>)
    requires Inv(s) && Running(s, loop)
    ensures var (t, client) := Called(s, name, loop, factory, transport, false);
            client.Some? && Serves(t, client.value, name, loop, factory, transport)
  {
    PruneKeeps(s);
    var p, key := Pruned(s), MyKey(s, name, loop);
    if key in p.clients {
      assert Filed(p, key, p.clients[key]);
      SameAddress(p, p.clients[key].loop, loop);
    }
  }

  /** Asking again for a client that is still open returns the same one and leaves the registry as it is, but
    * for entries of loops that have finished.
    */
  lemma CallAgain(s: State, client: nat, name: string, loop: nat, factory: nat, transport: Option<nat>, raises: bool)
    requires Inv(s) && Running(s, loop) && Serves(s, client, name, loop, factory, transport)
    ensures Called(s, name, loop, factory, transport, raises) == (Pruned(s), Some(client))
  {
    assert Filed(s, MyKey(s, name, loop), s.clients[MyKey(s, name, loop)]);
  }

  // ----- The module's functions, over the shared tables -----

  class Registry {
    var clients: map<Key, Entry>
    var closing: set<nat>
    var loops: seq<Loop>
    var built: seq<Client>
    var tasks: seq<Task>
    var closers: seq<seq<nat>>

    ghost function Now(): State
      reads this
    {
      State(clients, closing, loops, built, tasks, closers)
    }

    constructor ()
      ensures Now() == Initial
    {
      clients, closing, loops, built, tasks, closers := map[], {}, [], [], [], [];
    }

    method PruneClosedLoops()
      modifies this`clients
      ensures Now() == Pruned(old(Now()))
    {
      ghost var before := Now();
      var doomed := set key | key in clients && clients[key].loop < |loops| && loops[clients[key].loop].finished;
      ghost var all := doomed;
      while doomed != {}
        invariant doomed <= all
        invariant clients == map key | key in before.clients && key !in all - doomed :: before.clients[key]
        decreases doomed
      {
        var key :| key in doomed;
        clients := clients - {key};
        doomed := doomed - {key};
      }
      assert clients == Pruned(before).clients;
    }

    method Schedule(client: nat)
      modifies this`closing, this`tasks, this`built
      ensures Now() == Scheduled(old(Now()), client)
    {
      closing := closing + {|tasks|};
      tasks := tasks + [Task(client, false)];
      if client < |built| {
        built := built[client := built[client].(scheduled := true)];
      }
    }

    method ClientFor(name: string, loop: nat, factory: nat, transport: Option<nat>, raises: bool)
      returns (client: Option<nat>)
      requires loop < |loops|
      modifies this
      ensures Called(old(Now()), name, loop, factory, transport, raises) == (Now(), client)
    {
      PruneClosedLoops();
      var key := Key(name, loops[loop].address);
      if key in clients {
        var e := clients[key];
        var closed := e.client < |built| && built[e.client].closed;
        if e.factory == factory && e.transport == transport && !closed {
          return Some(e.client);
        }
        if !closed {
          Schedule(e.client);
        }
      }
      if raises {
        return None;
      }
      client := Some(|built|);
      clients := clients[key := Entry(|built|, loop, factory, transport)];
      built := built + [Client(name, loop, factory, transport, false, false, false, false)];
    }

    /** The part of `close_shared_clients` under the lock. */
    method TakeMine(loop: nat) returns (mine: seq<nat>)
      modifies this`clients
      ensures Now() == Without(Pruned(old(Now())), loop)
      ensures Lists(Pruned(old(Now())), loop, mine)
    {
      PruneClosedLoops();
      ghost var before := clients;
      var keys := set key | key in clients && clients[key].loop == loop;
      ghost var all := keys;
      ghost var taken: seq<Key> := [];
      mine := [];
      while keys != {}
        invariant keys <= all
        invariant clients == map key | key in before && key !in all - keys :: before[key]
        invariant forall key :: key in taken <==> key in all - keys
        invariant forall i, j | 0 <= i < j < |taken| :: taken[i] != taken[j]
        invariant |mine| == |taken| && forall i | 0 <= i < |taken| :: taken[i] in before && mine[i] == before[taken[i]].client
        decreases keys
      {
        var key :| key in keys;
        assert key !in taken;
        taken, mine := taken + [key], mine + [clients[key].client];
        clients := clients - {key};
        keys := keys - {key};
      }
      assert clients == Without(Pruned(old(Now())), loop).clients;
      assert KeysOf(Pruned(old(Now())), loop, taken) && ClientsAt(Pruned(old(Now())), taken, mine);
    }

    /** `close_shared_clients` run to its end; `succeeds` says which clients close without an exception. */
    method CloseSharedClients(loop: nat, succeeds: nat -> bool) returns (mine: seq<nat>)
      modifies this
      ensures Lists(Pruned(old(Now())), loop, mine)
      ensures Now() == AttemptAll(Without(Pruned(old(Now())), loop), mine, succeeds)
    {
      mine := TakeMine(loop);
      TryEach(mine, succeeds);
    }

    method TryEach(mine: seq<nat>, succeeds: nat -> bool)
      modifies this`built
      ensures Now() == AttemptAll(old(Now()), mine, succeeds)
    {
      for i := 0 to |mine|
        invariant AttemptAll(Now(), mine[i..], succeeds) == AttemptAll(old(Now()), mine, succeeds)
      {
        assert mine[i..][0] == mine[i] && mine[i..][1..] == mine[i + 1..];
        var client := mine[i];
        if client < |built| {
          built := built[client := built[client].(attempted := true, closed := built[client].closed || succeeds(client))];
        }
      }
    }
  }

  function AttemptAll(s: State, mine: seq<nat>, succeeds: nat -> bool): State
    decreases |mine|
  {
    if mine == [] then s else AttemptAll(Attempt(s, mine[0], succeeds(mine[0])), mine[1..], succeeds)
  }

  lemma {:induction false} AttemptAllTries(s: State, mine: seq<nat>, succeeds: nat -> bool)
    ensures var t := AttemptAll(s, mine, succeeds);
            FlagsGrow(s, t) && forall client | client in mine && client < |s.built| :: t.built[client].attempted
    decreases |mine|
  {
    if mine != [] {
      var u := Attempt(s, mine[0], succeeds(mine[0]));
      AttemptAllTries(u, mine[1..], succeeds);
      var t := AttemptAll(s, mine, succeeds);
      assert mine == [mine[0]] + mine[1..];
      assert forall client | 0 <= client < |s.built| ::
        FlagsGrowAt(s.built[client], u.built[client]) && FlagsGrowAt(u.built[client], t.built[client]);
    }
  }

  /** Nothing is registered for the loop, every client that was has been tried, and every other live loop has
    * the clients it had.
    */
  ghost predicate ClearOf(s: State, t: State, loop: nat) {
    && (forall key | key in t.clients :: t.clients[key].loop != loop)
    && (forall key | key in s.clients && s.clients[key].loop == loop :: WasTried(t, s.clients[key].client))
    && (forall key | key in s.clients && s.clients[key].loop != loop && !Finished(s, s.clients[key].loop) ::
          key in t.clients && t.clients[key] == s.clients[key])
  }

  ghost predicate WasTried(s: State, client: nat) {
    client < |s.built| && s.built[client].attempted
  }

  lemma ClosedLoopIsClear(s: State, loop: nat, mine: seq<nat>, succeeds: nat -> bool)
    requires Inv(s) && Running(s, loop) && Lists(Pruned(s), loop, mine)
    ensures ClearOf(s, AttemptAll(Without(Pruned(s), loop), mine, succeeds), loop)
  {
    AttemptAllTries(Without(Pruned(s), loop), mine, succeeds);
    ListsAll(Pruned(s), loop, mine);
    forall key | key in s.clients && s.clients[key].loop == loop
      ensures s.clients[key].client in mine && s.clients[key].client < |s.built|
    {
      assert Filed(s, key, s.clients[key]) && key in Pruned(s).clients;
    }
  }
}
