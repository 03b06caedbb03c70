/** Merging duplicate people and deleting garbage rows, in two committed phases
  * (scripts/merge_operator_duplicates.py:53-228).
  */
module MergeTransaction {
  import opened Wrappers

  type Id = string

  datatype Person = Person(tenant: string, deletedAt: Option<nat>)

  datatype Row = Row(table: string, id: nat)

  /** People, and the `person_id` of every row of every table. */
  datatype Data = Data(people: map<Id, Person>, rows: map<Row, Option<Id>>)

  const Tables := ["contact_identifiers", "crm_tasks", "crm_notes", "crm_conversations", "crm_routines"]

  // ----- What the statements do -----

  function RepointTable(d: Data, table: string, loser: Id, canonical: Id): Data {
    d.(rows := map row | row in d.rows ::
      if row.table == table && d.rows[row] == Some(loser) then Some(canonical) else d.rows[row])
  }

  function Repoint(d: Data, tables: seq<string>, loser: Id, canonical: Id): Data {
    if tables == [] then d else RepointTable(Repoint(d, tables[..|tables| - 1], loser, canonical), tables[|tables| - 1], loser, canonical)
  }

  /** The rows of some tables that point to a person. */
  function RowsTo(d: Data, tables: seq<string>, person: Id): set<Row> {
    set row | row in d.rows && row.table in tables && d.rows[row] == Some(person)
  }

  function SoftDelete(d: Data, person: Id, now: nat): Data {
    if person in d.people && d.people[person].deletedAt.None?
    then d.(people := d.people[person := d.people[person].(deletedAt := Some(now))])
    else d
  }

  function HardDelete(d: Data, person: Id): Data {
    d.(people := d.people - {person})
  }

  function MergeOne(d: Data, loser: Id, canonical: Id, now: nat): Data {
    SoftDelete(Repoint(d, Tables, loser, canonical), loser, now)
  }

  /** All merges, one after the other. */
  function MergeAll(d: Data, losers: seq<Id>, canonical: Id, now: nat): Data {
    if losers == [] then d else MergeOne(MergeAll(d, losers[..|losers| - 1], canonical, now), losers[|losers| - 1], canonical, now)
  }

  function DeleteAll(d: Data, targets: seq<Id>): Data {
    if targets == [] then d else HardDelete(DeleteAll(d, targets[..|targets| - 1]), targets[|targets| - 1])
  }

  predicate IsIn(d: Data, person: Id, tenant: string) {
    person in d.people && d.people[person].tenant == tenant
  }

  // ----- When statements go through -----

  /** Which statements, and which inserts into the audit log, go wrong; counted over the life of the connection. */
  datatype Faults = Faults(statement: nat -> bool, audit: nat -> bool)

  /** Where a phase starts: so many statements are behind it, and the transaction may be aborted. */
  datatype Session = Session(clock: nat, aborted: bool)

  /** The `n` statements after `clock` go through. */
  predicate AllGo(f: Faults, clock: nat, n: nat) {
    n == 0 || (AllGo(f, clock, n - 1) && !f.statement(clock + n))
  }

  lemma {:induction false} AllGoSplit(f: Faults, clock: nat, a: nat, b: nat)
    ensures AllGo(f, clock, a + b) <==> AllGo(f, clock, a) && AllGo(f, clock + a, b)
    decreases b
  {
    if b > 0 {
      AllGoSplit(f, clock, a, b - 1);
      assert clock + (a + b) == clock + a + b;
    }
  }

  /** Each person takes eight statements, the last of them an audit insert. Before person `i` the transaction is
    * alive unless the audit insert of the one before has failed unnoticed.
    */
  predicate Live(f: Faults, s: Session, i: nat) {
    if i == 0 then !s.aborted else !f.audit(s.clock + 8 * i)
  }

  /** The first `n` statements for person `i` go through. */
  predicate Through(f: Faults, s: Session, i: nat, n: nat) {
    Live(f, s, i) && AllGo(f, s.clock + 8 * i, n)
  }

  function End(f: Faults, s: Session, n: nat): Session {
    Session(s.clock + 8 * n, !Live(f, s, n))
  }

  // ----- The connection -----

  /** One transaction at a time. A statement that fails leaves the transaction aborted: later statements fail,
    * and committing it discards it.
    */
  class Connection {
    var committed: Data
    var working: Data
    var aborted: bool
    var clock: nat
    const faults: Faults

    constructor (data: Data, faults: Faults)
      ensures committed == data && working == data && !aborted && clock == 0
      ensures this.faults == faults
    {
      committed, working, aborted, clock := data, data, false, 0;
      this.faults := faults;
    }

    function Now(): Session
      reads this
    {
      Session(clock, aborted)
    }

    /** Whether the next statement goes through. */
    method Execute() returns (ok: bool)
      modifies this`clock, this`aborted
      ensures ok <==> !old(aborted) && !faults.statement(old(clock) + 1)
      ensures Now() == Session(old(clock) + 1, !ok)
    {
      clock := clock + 1;
      ok := !aborted && !faults.statement(clock);
      aborted := !ok;
    }

    method Commit() returns (ok: bool)
      modifies this`clock, this`aborted, this`committed, this`working
      ensures ok <==> !faults.statement(old(clock) + 1)
      ensures Now() == Session(old(clock) + 1, false) && working == committed
      ensures committed == if ok && !old(aborted) then old(working) else old(committed)
    {
      clock := clock + 1;
      ok := !faults.statement(clock);
      if ok && !aborted {
        committed := working;
      }
      working, aborted := committed, false;
    }

    method Rollback()
      modifies this`aborted, this`working
      ensures !aborted && working == committed
    {
      working, aborted := committed, false;
    }

    /** `_assert_exists`: whether the statement goes through, and the person's row if it is there in this tenant. */
    method Select(person: Id, tenant: string) returns (ok: bool, found: Option<Person>)
      modifies this`clock, this`aborted
      ensures ok <==> !old(aborted) && !faults.statement(old(clock) + 1)
      ensures Now() == Session(old(clock) + 1, !ok)
      ensures found == if ok && IsIn(working, person, tenant) then Some(working.people[person]) else None
    {
      ok := Execute();
      found := if ok && person in working.people && working.people[person].tenant == tenant
               then Some(working.people[person]) else None;
    }

    method RepointFks(loser: Id, canonical: Id) returns (ok: bool)
      modifies this`clock, this`aborted, this`working
      ensures ok <==> !old(aborted) && AllGo(faults, old(clock), 5)
      ensures ok ==> Now() == Session(old(clock) + 5, false) && working == Repoint(old(working), Tables, loser, canonical)
      ensures !ok ==> aborted
    {
      ghost var before := working;
      ok := true;
      for i := 0 to |Tables|
        invariant ok && working == Repoint(before, Tables[..i], loser, canonical)
        invariant Now() == Session(old(clock) + i, old(aborted)) && (i > 0 ==> !old(aborted))
        invariant AllGo(faults, old(clock), i)
      {
        AllGoSplit(faults, old(clock), i + 1, |Tables| - i - 1);
        ok := Execute();
        if !ok {
          return;
        }
        assert Tables[..i + 1][..i] == Tables[..i];
        working := RepointTable(working, Tables[i], loser, canonical);
      }
      assert Tables[..|Tables|] == Tables;
    }

    /** `_count_refs`, summed. */
    method CountRefs(person: Id) returns (total: Option<nat>)
      modifies this`clock, this`aborted
      ensures total.Some? <==> !old(aborted) && AllGo(faults, old(clock), 5)
      ensures total.Some? ==> Now() == Session(old(clock) + 5, false) && total.value == |RowsTo(working, Tables, person)|
      ensures total.None? ==> aborted
    {
      var sum := 0;
      for i := 0 to |Tables|
        invariant sum == |RowsTo(working, Tables[..i], person)|
        invariant Now() == Session(old(clock) + i, old(aborted)) && (i > 0 ==> !old(aborted))
        invariant AllGo(faults, old(clock), i)
      {
        AllGoSplit(faults, old(clock), i + 1, |Tables| - i - 1);
        var ok := Execute();
        if !ok {
          return None;
        }
        CountTable(working, i, person);
        sum := sum + |RowsTo(working, [Tables[i]], person)|;
      }
      assert Tables[..|Tables|] == Tables;
      total := Some(sum);
    }

    /** A failed insert is swallowed, and leaves the transaction aborted. */
    method LogAudit()
      modifies this`clock, this`aborted
      ensures Now() == Session(old(clock) + 1, old(aborted) || faults.audit(old(clock) + 1))
    {
      clock := clock + 1;
      aborted := aborted || faults.audit(clock);
    }
  }

  // ----- The program -----

  datatype Exit = Done | Usage | Declined | Missing | Refused | Raised

  /** The command line. */
  datatype Call = Call(
    tenant: string, canonical: Id, mergeIds: seq<Id>, deleteIds: seq<Id>, now: nat, dryRun: bool, proceed: bool)

  predicate Disjoint(canonical: Id, mergeIds: seq<Id>, deleteIds: seq<Id>) {
    canonical !in mergeIds && canonical !in deleteIds && forall id | id in mergeIds :: id !in deleteIds
  }

  // ----- The merge phase -----

  /** Person `i` is there, and its seven statements go through. */
  predicate MergeStep(f: Faults, s: Session, d: Data, ids: seq<Id>, tenant: string, i: nat)
    requires i < |ids|
  {
    Through(f, s, i, 7) && IsIn(d, ids[i], tenant)
  }

  predicate MergesGo(f: Faults, s: Session, d: Data, ids: seq<Id>, tenant: string) {
    forall i | 0 <= i < |ids| :: MergeStep(f, s, d, ids, tenant, i)
  }

  /** Everybody before person `i` is merged, and person `i` is looked for and not found. */
  predicate MergeMisses(f: Faults, s: Session, d: Data, ids: seq<Id>, tenant: string, i: nat)
    requires i < |ids|
  {
    && (forall j | 0 <= j < i :: MergeStep(f, s, d, ids, tenant, j))
    && Through(f, s, i, 1) && !IsIn(d, ids[i], tenant)
  }

  /** How the phase ends: with everybody merged, with a person who is not there, or with a failed statement. */
  function MergeExit(f: Faults, s: Session, d: Data, ids: seq<Id>, tenant: string): Exit {
    if MergesGo(f, s, d, ids, tenant) then Done
    else if exists i | 0 <= i < |ids| :: MergeMisses(f, s, d, ids, tenant, i) then Missing
    else Raised
  }

  /** After `i` merges that went through. */
  ghost predicate MergedSoFar(f: Faults, s: Session, d: Data, q: Call, i: nat, w: Data, now: Session) {
    && i <= |q.mergeIds| && w == MergeAll(d, q.mergeIds[..i], q.canonical, q.now) && now == End(f, s, i)
    && forall j | 0 <= j < i :: MergeStep(f, s, d, q.mergeIds, q.tenant, j)
  }

  method MergePhase(conn: Connection, q: Call) returns (exit: Exit)
    modifies conn`clock, conn`aborted, conn`working
    ensures exit == MergeExit(conn.faults, old(conn.Now()), old(conn.working), q.mergeIds, q.tenant)
    ensures exit == Done ==>
              && conn.working == MergeAll(old(conn.working), q.mergeIds, q.canonical, q.now)
              && conn.Now() == End(conn.faults, old(conn.Now()), |q.mergeIds|)
  {
    ghost var before, s := conn.working, conn.Now();
    for i := 0 to |q.mergeIds|
      invariant MergedSoFar(conn.faults, s, before, q, i, conn.working, conn.Now())
    {
      MergeOn(conn.faults, s, before, q, i, conn.working, conn.Now());
      exit := MergePerson(conn, q.mergeIds[i], q);
      if exit != Done {
        return;
      }
    }
    assert q.mergeIds[..|q.mergeIds|] == q.mergeIds;
    exit := Done;
  }

  lemma MergeOn(f: Faults, s: Session, d: Data, q: Call, i: nat, w: Data, now: Session)
    requires i < |q.mergeIds| && MergedSoFar(f, s, d, q, i, w, now)
    ensures var exit := PersonMergeExit(f, w, now, q.mergeIds[i], q);
            if exit == Done then
              MergedSoFar(
                f, s, d, q, i + 1, MergeOne(w, q.mergeIds[i], q.canonical, q.now),
                Session(now.clock + 8, f.audit(now.clock + 8)))
            else exit == MergeExit(f, s, d, q.mergeIds, q.tenant)
  {
    SameTenants(d, q.mergeIds[..i], q.canonical, q.now, q.mergeIds[i], q.tenant);
    SevenAre(f, now.clock);
    assert q.mergeIds[..i + 1][..i] == q.mergeIds[..i];
    MergeExitAt(f, s, d, q.mergeIds, q.tenant, i);
  }

  lemma SameTenants(d: Data, losers: seq<Id>, canonical: Id, now: nat, id: Id, tenant: string)
    ensures IsIn(MergeAll(d, losers, canonical, now), id, tenant) <==> IsIn(d, id, tenant)
  {
    MergeKeepsPeople(d, losers, canonical, now);
  }

  /** The first person who is not merged decides how the phase ends. */
  lemma MergeExitAt(f: Faults, s: Session, d: Data, ids: seq<Id>, tenant: string, i: nat)
    requires i < |ids| && forall j | 0 <= j < i :: MergeStep(f, s, d, ids, tenant, j)
    ensures !MergeStep(f, s, d, ids, tenant, i) ==>
              MergeExit(f, s, d, ids, tenant) ==
              if Through(f, s, i, 1) && !IsIn(d, ids[i], tenant) then Missing else Raised
  {
    if !MergeStep(f, s, d, ids, tenant, i) {
      assert MergeMisses(f, s, d, ids, tenant, i) <==> Through(f, s, i, 1) && !IsIn(d, ids[i], tenant);
      forall k | 0 <= k < |ids| && MergeMisses(f, s, d, ids, tenant, k) ensures k == i {
        assert !MergeStep(f, s, d, ids, tenant, k);
      }
    }
  }

  /** How one merge ends: the person is looked for, then the other six statements are made. */
  function PersonMergeExit(f: Faults, d: Data, now: Session, loser: Id, q: Call): Exit {
    if now.aborted || !AllGo(f, now.clock, 1) then Raised
    else if !IsIn(d, loser, q.tenant) then Missing
    else if !AllGo(f, now.clock, 7) then Raised
    else Done
  }

  /** One merge. */
  method MergePerson(conn: Connection, loser: Id, q: Call) returns (exit: Exit)
    modifies conn`clock, conn`aborted, conn`working
    ensures exit == PersonMergeExit(conn.faults, old(conn.working), old(conn.Now()), loser, q)
    ensures exit == Done ==>
              && conn.working == MergeOne(old(conn.working), loser, q.canonical, q.now)
              && conn.Now() == Session(old(conn.clock) + 8, conn.faults.audit(old(conn.clock) + 8))
  {
    SevenAre(conn.faults, conn.clock);
    var ok, found := conn.Select(loser, q.tenant);
    if !ok {
      return Raised;
    }
    if found.None? {
      return Missing;
    }
    ok := conn.RepointFks(loser, q.canonical);
    if !ok {
      return Raised;
    }
    ok := conn.Execute();
    if !ok {
      return Raised;
    }
    conn.working := SoftDelete(conn.working, loser, q.now);
    conn.LogAudit();
    return Done;
  }

  /** One statement, five statements, one statement. */
  lemma SevenAre(f: Faults, clock: nat)
    ensures AllGo(f, clock, 1) <==> !f.statement(clock + 1)
    ensures AllGo(f, clock, 6) <==> AllGo(f, clock, 1) && AllGo(f, clock + 1, 5)
    ensures AllGo(f, clock, 7) <==> AllGo(f, clock, 6) && !f.statement(clock + 7)
  {
    assert AllGo(f, clock, 0);
    AllGoSplit(f, clock, 1, 5);
  }

  // ----- The delete phase -----

  /** Person `i` is there, has not been deleted just now, is not referred to unless this is a dry run, and its seven
    * statements go through.
    */
  predicate DeleteStep(f: Faults, s: Session, d: Data, ids: seq<Id>, tenant: string, dryRun: bool, i: nat)
    requires i < |ids|
  {
    && Through(f, s, i, 7) && IsIn(d, ids[i], tenant) && ids[i] !in ids[..i]
    && (dryRun || RowsTo(d, Tables, ids[i]) == {})
  }

  predicate DeletesGo(f: Faults, s: Session, d: Data, ids: seq<Id>, tenant: string, dryRun: bool) {
    forall i | 0 <= i < |ids| :: DeleteStep(f, s, d, ids, tenant, dryRun, i)
  }

  /** Everybody before person `i` is deleted, and person `i` is looked for and not found. */
  predicate DeleteMisses(f: Faults, s: Session, d: Data, ids: seq<Id>, tenant: string, dryRun: bool, i: nat)
    requires i < |ids|
  {
    && (forall j | 0 <= j < i :: DeleteStep(f, s, d, ids, tenant, dryRun, j))
    && Through(f, s, i, 1) && !(IsIn(d, ids[i], tenant) && ids[i] !in ids[..i])
  }

  /** Everybody before person `i` is deleted, and person `i` is there and still referred to. */
  predicate DeleteRefuses(f: Faults, s: Session, d: Data, ids: seq<Id>, tenant: string, dryRun: bool, i: nat)
    requires i < |ids|
  {
    && (forall j | 0 <= j < i :: DeleteStep(f, s, d, ids, tenant, dryRun, j))
    && Through(f, s, i, 6) && IsIn(d, ids[i], tenant) && ids[i] !in ids[..i]
    && !dryRun && RowsTo(d, Tables, ids[i]) != {}
  }

  predicate DeletesRefuse(f: Faults, s: Session, d: Data, ids: seq<Id>, tenant: string, dryRun: bool) {
    exists i | 0 <= i < |ids| :: DeleteRefuses(f, s, d, ids, tenant, dryRun, i)
  }

  /** How the phase ends. */
  function DeleteExit(f: Faults, s: Session, d: Data, ids: seq<Id>, tenant: string, dryRun: bool): Exit {
    if DeletesGo(f, s, d, ids, tenant, dryRun) then Done
    else if exists i | 0 <= i < |ids| :: DeleteMisses(f, s, d, ids, tenant, dryRun, i) then Missing
    else if DeletesRefuse(f, s, d, ids, tenant, dryRun) then Refused
    else Raised
  }

  method DeletePhase(conn: Connection, q: Call) returns (exit: Exit)
    modifies conn`clock, conn`aborted, conn`working
    ensures exit == DeleteExit(conn.faults, old(conn.Now()), old(conn.working), q.deleteIds, q.tenant, q.dryRun)
    ensures exit == Done ==>
              && conn.working == DeleteAll(old(conn.working), q.deleteIds)
              && conn.Now() == End(conn.faults, old(conn.Now()), |q.deleteIds|)
    ensures exit == Refused ==>
              && conn.working == conn.committed && !conn.aborted
              && RefusedAt(conn.faults, old(conn.Now()), old(conn.working), q, conn.clock)
  {
    ghost var before, s := conn.working, conn.Now();
    for i := 0 to |q.deleteIds|
      invariant DeletedSoFar(conn.faults, s, before, q, i, conn.working, conn.Now())
    {
      DeleteOn(conn.faults, s, before, q, i, conn.working, conn.Now());
      exit := DeletePerson(conn, q.deleteIds[i], q);
      if exit != Done {
        return;
      }
    }
    assert q.deleteIds[..|q.deleteIds|] == q.deleteIds;
    exit := Done;
  }

  /** After `i` deletions that went through. */
  ghost predicate DeletedSoFar(f: Faults, s: Session, d: Data, q: Call, i: nat, w: Data, now: Session) {
    && i <= |q.deleteIds| && w == DeleteAll(d, q.deleteIds[..i]) && now == End(f, s, i)
    && forall j | 0 <= j < i :: DeleteStep(f, s, d, q.deleteIds, q.tenant, q.dryRun, j)
  }

  lemma DeleteOn(f: Faults, s: Session, d: Data, q: Call, i: nat, w: Data, now: Session)
    requires i < |q.deleteIds| && DeletedSoFar(f, s, d, q, i, w, now)
    ensures var exit := PersonDeleteExit(f, w, now, q.deleteIds[i], q);
            if exit == Done then
              DeletedSoFar(
                f, s, d, q, i + 1, HardDelete(w, q.deleteIds[i]), Session(now.clock + 8, f.audit(now.clock + 8)))
            else
              && exit == DeleteExit(f, s, d, q.deleteIds, q.tenant, q.dryRun)
              && (exit == Refused ==> RefusedAt(f, s, d, q, now.clock + 6))
  {
    SamePerson(d, q.deleteIds[..i], q.deleteIds[i], q.tenant);
    SevenAre(f, now.clock);
    assert q.deleteIds[..i + 1][..i] == q.deleteIds[..i];
    DeleteExitAt(f, s, d, q, i);
  }

  lemma SamePerson(d: Data, targets: seq<Id>, id: Id, tenant: string)
    ensures IsIn(DeleteAll(d, targets), id, tenant) <==> IsIn(d, id, tenant) && id !in targets
    ensures RowsTo(DeleteAll(d, targets), Tables, id) == RowsTo(d, Tables, id)
  {
    DeletesPeopleOnly(d, targets);
  }

  /** The statements behind at a refusal. */
  predicate RefusedAt(f: Faults, s: Session, d: Data, q: Call, after: nat) {
    exists i | 0 <= i < |q.deleteIds| ::
      DeleteRefuses(f, s, d, q.deleteIds, q.tenant, q.dryRun, i) && after == s.clock + 8 * i + 6
  }

  /** The first person who is not deleted decides how the phase ends. */
  lemma DeleteExitAt(f: Faults, s: Session, d: Data, q: Call, i: nat)
    requires i < |q.deleteIds|
    requires forall j | 0 <= j < i :: DeleteStep(f, s, d, q.deleteIds, q.tenant, q.dryRun, j)
    ensures !DeleteStep(f, s, d, q.deleteIds, q.tenant, q.dryRun, i) ==>
              DeleteExit(f, s, d, q.deleteIds, q.tenant, q.dryRun) ==
              if DeleteMisses(f, s, d, q.deleteIds, q.tenant, q.dryRun, i) then Missing
              else if DeleteRefuses(f, s, d, q.deleteIds, q.tenant, q.dryRun, i) then Refused
              else Raised
  {
    if !DeleteStep(f, s, d, q.deleteIds, q.tenant, q.dryRun, i) {
      forall k | 0 <= k < |q.deleteIds|
        ensures DeleteMisses(f, s, d, q.deleteIds, q.tenant, q.dryRun, k) ==> k == i
        ensures DeleteRefuses(f, s, d, q.deleteIds, q.tenant, q.dryRun, k) ==> k == i
      {
        StoppedThere(f, s, d, q, k);
      }
    }
  }

  lemma StoppedThere(f: Faults, s: Session, d: Data, q: Call, k: nat)
    requires k < |q.deleteIds|
    ensures DeleteMisses(f, s, d, q.deleteIds, q.tenant, q.dryRun, k)
            || DeleteRefuses(f, s, d, q.deleteIds, q.tenant, q.dryRun, k) ==>
              !DeleteStep(f, s, d, q.deleteIds, q.tenant, q.dryRun, k)
  {
  }

  /** How one deletion ends: the person is looked for, the references are counted, the person is deleted. */
  function PersonDeleteExit(f: Faults, d: Data, now: Session, target: Id, q: Call): Exit {
    if now.aborted || !AllGo(f, now.clock, 1) then Raised
    else if !IsIn(d, target, q.tenant) then Missing
    else if !AllGo(f, now.clock, 6) then Raised
    else if !q.dryRun && RowsTo(d, Tables, target) != {} then Refused
    else if !AllGo(f, now.clock, 7) then Raised
    else Done
  }

  /** One deletion. */
  method DeletePerson(conn: Connection, target: Id, q: Call) returns (exit: Exit)
    modifies conn`clock, conn`aborted, conn`working
    ensures exit == PersonDeleteExit(conn.faults, old(conn.working), old(conn.Now()), target, q)
    ensures exit == Done ==>
              && conn.working == HardDelete(old(conn.working), target)
              && conn.Now() == Session(old(conn.clock) + 8, conn.faults.audit(old(conn.clock) + 8))
    ensures exit == Refused ==>
              conn.working == conn.committed && conn.Now() == Session(old(conn.clock) + 6, false)
  {
    SevenAre(conn.faults, conn.clock);
    var ok, found := conn.Select(target, q.tenant);
    if !ok {
      return Raised;
    }
    if found.None? {
      return Missing;
    }
    var refs := conn.CountRefs(target);
    if refs.None? {
      return Raised;
    }
    if refs.value > 0 && !q.dryRun {
      conn.Rollback();
      return Refused;
    }
    ok := conn.Execute();
    if !ok {
      return Raised;
    }
    conn.working := HardDelete(conn.working, target);
    conn.LogAudit();
    return Done;
  }

  lemma {:induction false} DeletesPeopleOnly(d: Data, targets: seq<Id>)
    ensures var t := DeleteAll(d, targets);
            && t.rows == d.rows
            && forall id :: id in t.people <==> id in d.people && id !in targets
    ensures var t := DeleteAll(d, targets); forall id | id in t.people :: t.people[id] == d.people[id]
  {
    if targets != [] {
      DeletesPeopleOnly(d, targets[..|targets| - 1]);
      assert targets == targets[..|targets| - 1] + [targets[|targets| - 1]];
    }
  }

  // ----- The whole run -----

  predicate CommitsMerges(q: Call) {
    q.mergeIds != [] && !q.dryRun
  }

  /** The merge phase starts in a fresh transaction. */
  function First(clock: nat): Session {
    Session(clock, false)
  }

  function MergesEnd(f: Faults, clock: nat, q: Call): Session {
    End(f, First(clock), |q.mergeIds|)
  }

  /** The merges go through, and so does committing them if they are committed. */
  predicate MergesPass(f: Faults, clock: nat, d: Data, q: Call) {
    && MergesGo(f, First(clock), d, q.mergeIds, q.tenant)
    && (CommitsMerges(q) ==> !f.statement(MergesEnd(f, clock, q).clock + 1))
  }

  /** Where the delete phase starts. */
  function Second(f: Faults, clock: nat, q: Call): Session {
    if CommitsMerges(q) then Session(MergesEnd(f, clock, q).clock + 1, false) else MergesEnd(f, clock, q)
  }

  /** What the delete phase starts from: committing an aborted transaction has discarded the merges. */
  function Merged(f: Faults, clock: nat, d: Data, q: Call): Data {
    if CommitsMerges(q) && MergesEnd(f, clock, q).aborted then d else MergeAll(d, q.mergeIds, q.canonical, q.now)
  }


  function SecondExit(f: Faults, s: Session, d: Data, q: Call): Exit {
    var deletes := DeleteExit(f, s, d, q.deleteIds, q.tenant, q.dryRun);
    if deletes == Done && !q.dryRun && f.statement(End(f, s, |q.deleteIds|).clock + 1) then Raised else deletes
  }

  /** How many statements are behind after it, if it ends without an exception. */
  predicate SecondTook(f: Faults, s: Session, d: Data, q: Call, after: nat) {
    match SecondExit(f, s, d, q)
    case Done => after == End(f, s, |q.deleteIds|).clock + if q.dryRun then 0 else 1
    case Refused => RefusedAt(f, s, d, q, after)
    case _ => true
  }

  /** How the two phases end. */
  function PhasesExit(f: Faults, clock: nat, d: Data, q: Call): Exit {
    var merges := MergeExit(f, First(clock), d, q.mergeIds, q.tenant);
    if merges != Done then merges
    else if !MergesPass(f, clock, d, q) then Raised
    else SecondExit(f, Second(f, clock, q), Merged(f, clock, d, q), q)
  }

  /** What they leave in the database. */
  function Final(f: Faults, clock: nat, d: Data, q: Call): Data {
    var s, m := Second(f, clock, q), Merged(f, clock, d, q);
    if q.dryRun || !MergesPass(f, clock, d, q) then d
    else if SecondExit(f, s, m, q) == Done && Live(f, s, |q.deleteIds|) then DeleteAll(m, q.deleteIds)
    else m
  }

  /** The canonical person is there and alive, and the operator goes ahead. */
  predicate Begins(f: Faults, clock: nat, d: Data, q: Call) {
    && !f.statement(clock + 1) && IsIn(d, q.canonical, q.tenant) && d.people[q.canonical].deletedAt.None?
    && (q.proceed || q.dryRun)
  }

  /** How the block under `with get_connection()` ends. */
  function BodyExit(f: Faults, clock: nat, d: Data, q: Call): Exit {
    if f.statement(clock + 1) then Raised
    else if !IsIn(d, q.canonical, q.tenant) then Missing
    else if d.people[q.canonical].deletedAt.Some? then Usage
    else if !q.proceed && !q.dryRun then Declined
    else PhasesExit(f, clock + 1, d, q)
  }

  predicate BodyTook(f: Faults, clock: nat, d: Data, q: Call, after: nat) {
    if Begins(f, clock, d, q) then SecondTook(f, Second(f, clock + 1, q), Merged(f, clock + 1, d, q), q, after) else after == clock + 1
  }

  /** Leaving the block commits once more, unless it was left by an exception; whether that fails. */
  ghost predicate LeavingFails(f: Faults, clock: nat, d: Data, q: Call) {
    && BodyExit(f, clock, d, q) != Missing && BodyExit(f, clock, d, q) != Raised
    && exists after: nat :: BodyTook(f, clock, d, q, after) && f.statement(after + 1)
  }

  lemma TookOnce(f: Faults, clock: nat, d: Data, q: Call, a: nat, b: nat)
    requires BodyExit(f, clock, d, q) != Missing && BodyExit(f, clock, d, q) != Raised
    requires BodyTook(f, clock, d, q, a) && BodyTook(f, clock, d, q, b)
    ensures a == b
  {
    if Begins(f, clock, d, q) && PhasesExit(f, clock + 1, d, q) == Refused {
      RefusedOnce(f, Second(f, clock + 1, q), Merged(f, clock + 1, d, q), q, a, b);
    }
  }

  lemma LeavingIs(f: Faults, clock: nat, d: Data, q: Call, after: nat)
    requires BodyExit(f, clock, d, q) != Missing && BodyExit(f, clock, d, q) != Raised
    requires BodyTook(f, clock, d, q, after)
    ensures LeavingFails(f, clock, d, q) <==> f.statement(after + 1)
  {
    forall other: nat | BodyTook(f, clock, d, q, other) ensures other == after {
      TookOnce(f, clock, d, q, after, other);
    }
  }

  lemma RefusedOnce(f: Faults, s: Session, d: Data, q: Call, a: nat, b: nat)
    requires RefusedAt(f, s, d, q, a) && RefusedAt(f, s, d, q, b)
    ensures a == b
  {
    var i :| 0 <= i < |q.deleteIds| && DeleteRefuses(f, s, d, q.deleteIds, q.tenant, q.dryRun, i) && a == s.clock + 8 * i + 6;
    var k :| 0 <= k < |q.deleteIds| && DeleteRefuses(f, s, d, q.deleteIds, q.tenant, q.dryRun, k) && b == s.clock + 8 * k + 6;
    assert !DeleteStep(f, s, d, q.deleteIds, q.tenant, q.dryRun, i);
    assert !DeleteStep(f, s, d, q.deleteIds, q.tenant, q.dryRun, k);
  }

  predicate GoodCall(q: Call) {
    (q.mergeIds != [] || q.deleteIds != []) && Disjoint(q.canonical, q.mergeIds, q.deleteIds)
  }

  /** A call is refused as unusable exactly if it names nobody, or somebody in two roles. */
  lemma UsageExactly(q: Call)
    ensures !GoodCall(q) <==>
            || |q.mergeIds| + |q.deleteIds| == 0
            || (exists i | 0 <= i < |q.mergeIds| :: q.mergeIds[i] == q.canonical)
            || (exists i | 0 <= i < |q.deleteIds| :: q.deleteIds[i] == q.canonical)
            || (exists i, j | 0 <= i < |q.mergeIds| && 0 <= j < |q.deleteIds| :: q.mergeIds[i] == q.deleteIds[j])
  {
    if GoodCall(q) {
      forall i | 0 <= i < |q.mergeIds| ensures q.mergeIds[i] != q.canonical && q.mergeIds[i] !in q.deleteIds {
        assert q.mergeIds[i] in q.mergeIds;
      }
    } else if id :| id in q.mergeIds && id in q.deleteIds {
      var i :| 0 <= i < |q.mergeIds| && q.mergeIds[i] == id;
      var j :| 0 <= j < |q.deleteIds| && q.deleteIds[j] == id;
    }
  }

  /** The two phases. */
  method Phases(conn: Connection, q: Call) returns (exit: Exit)
    requires conn.working == conn.committed && !conn.aborted
    modifies conn`clock, conn`aborted, conn`working, conn`committed
    ensures exit == PhasesExit(conn.faults, old(conn.clock), old(conn.committed), q)
    ensures conn.committed == Final(conn.faults, old(conn.clock), old(conn.committed), q)
    ensures exit != Missing && exit != Raised ==>
              && conn.working == conn.committed && !conn.aborted
              && SecondTook(
                   conn.faults, Second(conn.faults, old(conn.clock), q),
                   Merged(conn.faults, old(conn.clock), old(conn.committed), q), q, conn.clock)
  {
    exit := MergePhase(conn, q);
    if exit != Done {
      return;
    }
    if q.mergeIds != [] && !q.dryRun {
      var ok := conn.Commit();
      if !ok {
        return Raised;
      }
    }
    exit := SecondPart(conn, q);
  }

  /** The delete phase, and the end of its transaction. */
  method SecondPart(conn: Connection, q: Call) returns (exit: Exit)
    modifies conn`clock, conn`aborted, conn`working, conn`committed
    ensures exit == SecondExit(conn.faults, old(conn.Now()), old(conn.working), q)
    ensures conn.committed ==
            if q.dryRun then old(conn.committed)
            else if exit == Done && !End(conn.faults, old(conn.Now()), |q.deleteIds|).aborted
            then DeleteAll(old(conn.working), q.deleteIds)
            else old(conn.committed)
    ensures exit != Missing && exit != Raised ==>
              && conn.working == conn.committed && !conn.aborted
              && SecondTook(conn.faults, old(conn.Now()), old(conn.working), q, conn.clock)
  {
    exit := DeletePhase(conn, q);
    if exit != Done {
      return;
    }
    if q.dryRun {
      conn.Rollback();
    } else {
      var ok := conn.Commit();
      if !ok {
        exit := Raised;
      }
    }
  }

  /** The block under `with get_connection()`. */
  method Body(conn: Connection, q: Call) returns (exit: Exit)
    requires conn.working == conn.committed && !conn.aborted
    modifies conn`clock, conn`aborted, conn`working, conn`committed
    ensures exit == BodyExit(conn.faults, old(conn.clock), old(conn.committed), q)
    ensures conn.committed ==
            if Begins(conn.faults, old(conn.clock), old(conn.committed), q)
            then Final(conn.faults, old(conn.clock) + 1, old(conn.committed), q) else old(conn.committed)
    ensures exit != Missing && exit != Raised ==>
              && conn.working == conn.committed && !conn.aborted
              && BodyTook(conn.faults, old(conn.clock), old(conn.committed), q, conn.clock)
  {
    var ok, found := conn.Select(q.canonical, q.tenant);
    if !ok {
      return Raised;
    }
    if found.None? {
      return Missing;
    }
    if found.value.deletedAt.Some? {
      return Usage;
    }
    if !q.proceed && !q.dryRun {
      return Declined;
    }
    exit := Phases(conn, q);
  }

  /** What a run leaves in the database. */
  function Left(f: Faults, clock: nat, d: Data, q: Call): Data {
    if GoodCall(q) && Begins(f, clock, d, q) then Final(f, clock + 1, d, q) else d
  }

  function RunExit(f: Faults, clock: nat, d: Data, q: Call): Exit {
    if !GoodCall(q) then Usage else BodyExit(f, clock, d, q)
  }

  /** The program: which error it ends with, and what it leaves in the database, are exactly these. */
  method Run(conn: Connection, q: Call) returns (exit: Exit)
    requires conn.working == conn.committed && !conn.aborted
    modifies conn
    ensures conn.working == conn.committed && !conn.aborted
    ensures exit ==
            if GoodCall(q) && LeavingFails(conn.faults, old(conn.clock), old(conn.committed), q) then Raised
            else RunExit(conn.faults, old(conn.clock), old(conn.committed), q)
    ensures conn.committed == Left(conn.faults, old(conn.clock), old(conn.committed), q)
  {
    if (q.mergeIds == [] && q.deleteIds == []) || !Disjoint(q.canonical, q.mergeIds, q.deleteIds) {
      return Usage;
    }
    exit := Body(conn, q);
    if exit == Missing || exit == Raised {
      conn.Rollback();
    } else {
      LeavingIs(conn.faults, old(conn.clock), old(conn.committed), q, conn.clock);
      var ok := conn.Commit();
      if !ok {
        exit := Raised;
      }
    }
  }

  // ----- What a run can leave behind -----

  /** One of three: nothing happened, all merges, or all merges and all deletions. */
  ghost predicate Outcome(before: Data, after: Data, q: Call) {
    var merged := MergeAll(before, q.mergeIds, q.canonical, q.now);
    after == before || after == merged || after == DeleteAll(merged, q.deleteIds)
  }

  /** Nobody was removed who still is referred to. */
  ghost predicate NoneDangling(before: Data, after: Data) {
    forall id | id in before.people && id !in after.people :: RowsTo(after, Tables, id) == {}
  }

  /** The audit insert of the last merge fails unnoticed, so that the commit discards the merges; everything behind
    * it goes through, and the merges would have changed something.
    */
  predicate Strays(f: Faults, clock: nat, d: Data, q: Call) {
    && GoodCall(q) && Begins(f, clock, d, q) && CommitsMerges(q) && q.deleteIds != []
    && MergesPass(f, clock + 1, d, q) && f.audit(clock + 1 + 8 * |q.mergeIds|)
    && SecondExit(f, Second(f, clock + 1, q), d, q) == Done && Live(f, Second(f, clock + 1, q), |q.deleteIds|)
    && MergeAll(d, q.mergeIds, q.canonical, q.now) != d
  }

  /** What a run leaves is one of the three, unless it strays; then it is the deletions without the merges. */
  lemma OutcomeExactly(f: Faults, clock: nat, d: Data, q: Call)
    ensures Outcome(d, Left(f, clock, d, q), q) <==> !Strays(f, clock, d, q)
    ensures Strays(f, clock, d, q) ==> Left(f, clock, d, q) == DeleteAll(d, q.deleteIds)
  {
    assert DeleteAll(d, []) == d && MergeAll(d, [], q.canonical, q.now) == d;
    if Strays(f, clock, d, q) {
      assert DeleteStep(f, Second(f, clock + 1, q), d, q.deleteIds, q.tenant, q.dryRun, 0);
      DeletionsShow(d, q);
    }
  }

  /** With somebody to delete and merges that change something, leaving out the merges shows. */
  lemma DeletionsShow(d: Data, q: Call)
    requires Disjoint(q.canonical, q.mergeIds, q.deleteIds) && q.deleteIds != [] && q.deleteIds[0] in d.people
    requires MergeAll(d, q.mergeIds, q.canonical, q.now) != d
    ensures !Outcome(d, DeleteAll(d, q.deleteIds), q)
  {
    MergeKeepsPeople(d, q.mergeIds, q.canonical, q.now);
    DeletesPeopleOnly(d, q.deleteIds);
    assert q.deleteIds[0] in q.deleteIds;
    if DeleteAll(d, q.deleteIds) == DeleteAll(MergeAll(d, q.mergeIds, q.canonical, q.now), q.deleteIds) {
      SameAfterDeletions(d, q);
    }
  }

  lemma SameAfterDeletions(d: Data, q: Call)
    requires Disjoint(q.canonical, q.mergeIds, q.deleteIds)
    requires DeleteAll(d, q.deleteIds) == DeleteAll(MergeAll(d, q.mergeIds, q.canonical, q.now), q.deleteIds)
    ensures MergeAll(d, q.mergeIds, q.canonical, q.now) == d
  {
    var merged := MergeAll(d, q.mergeIds, q.canonical, q.now);
    MergeKeepsPeople(d, q.mergeIds, q.canonical, q.now);
    DeletesPeopleOnly(d, q.deleteIds);
    DeletesPeopleOnly(merged, q.deleteIds);
    forall id | id in d.people ensures merged.people[id] == d.people[id] {
      if id !in q.deleteIds {
        assert DeleteAll(merged, q.deleteIds).people[id] == DeleteAll(d, q.deleteIds).people[id];
      }
    }
    assert merged.people == d.people;
  }

  /** A dry run changes nothing, and no run leaves a row that points to somebody it removed. */
  lemma RunKeeps(f: Faults, clock: nat, d: Data, q: Call)
    ensures q.dryRun ==> Left(f, clock, d, q) == d
    ensures NoneDangling(d, Left(f, clock, d, q))
    ensures RunExit(f, clock, d, q) == Usage || RunExit(f, clock, d, q) == Declined ==> Left(f, clock, d, q) == d
  {
    MergeKeepsPeople(d, q.mergeIds, q.canonical, q.now);
    NoneDeletedDangles(f, Second(f, clock + 1, q), Merged(f, clock + 1, d, q), q);
  }

  lemma NoneDeletedDangles(f: Faults, s: Session, m: Data, q: Call)
    ensures SecondExit(f, s, m, q) == Done && !q.dryRun ==> NoneDangling(m, DeleteAll(m, q.deleteIds))
  {
    DeletesPeopleOnly(m, q.deleteIds);
    forall id | id in q.deleteIds && !q.dryRun && SecondExit(f, s, m, q) == Done ensures RowsTo(m, Tables, id) == {} {
      var i :| 0 <= i < |q.deleteIds| && q.deleteIds[i] == id;
      assert DeleteStep(f, s, m, q.deleteIds, q.tenant, q.dryRun, i);
    }
  }

  /** What stands behind a run that says it is done: each phase's work is there, unless the audit insert of its last
    * person failed.
    */
  lemma DoneMeans(f: Faults, clock: nat, d: Data, q: Call)
    requires RunExit(f, clock, d, q) == Done && !q.dryRun
    ensures var kept := if q.mergeIds != [] && f.audit(clock + 1 + 8 * |q.mergeIds|) then d
                        else MergeAll(d, q.mergeIds, q.canonical, q.now);
            Left(f, clock, d, q) ==
            if q.deleteIds != [] && f.audit(Second(f, clock + 1, q).clock + 8 * |q.deleteIds|) then kept
            else DeleteAll(kept, q.deleteIds)
  {
    assert DeleteAll(d, []) == d && MergeAll(d, [], q.canonical, q.now) == d;
  }

  /** A run that refuses a deletion has kept the merges, unless the audit insert of the last one failed. */
  lemma RefusedMeans(f: Faults, clock: nat, d: Data, q: Call)
    requires RunExit(f, clock, d, q) == Refused
    ensures Left(f, clock, d, q) ==
            if q.mergeIds != [] && f.audit(clock + 1 + 8 * |q.mergeIds|) then d
            else MergeAll(d, q.mergeIds, q.canonical, q.now)
  {
    assert MergeAll(d, [], q.canonical, q.now) == d;
  }

  /** A run that strays: it says it is done, has deleted `t`, and has not merged `l`. */
  method StrayRun() returns (before: Data, q: Call, after: Data, exit: Exit)
    ensures exit == Done && "t" in before.people && "t" !in after.people
    ensures after == DeleteAll(before, q.deleteIds) && !Outcome(before, after, q)
  {
    var here := Person("x", None);
    before := Data(map["c" := here, "l" := here, "t" := here], map[]);
    q := Call("x", "c", ["l"], ["t"], 0, false, true);
    var faults := Faults(k => false, k => k == 9);
    OneOfEach(faults, before, q);
    OutcomeExactly(faults, 0, before, q);
    DeletesPeopleOnly(before, q.deleteIds);
    var conn := new Connection(before, faults);
    exit := Run(conn, q);
    after := conn.committed;
  }

  lemma OneOfEach(f: Faults, d: Data, q: Call)
    requires q == Call("x", "c", ["l"], ["t"], 0, false, true)
    requires forall k :: !f.statement(k) && (f.audit(k) <==> k == 9)
    requires forall id | id in ["c", "l", "t"] :: id in d.people && d.people[id] == Person("x", None)
    requires d.rows == map[]
    ensures Strays(f, 0, d, q) && RunExit(f, 0, d, q) == Done && !LeavingFails(f, 0, d, q)
  {
    AllSmooth(f, 1, 7);
    AllSmooth(f, 10, 7);
    assert "c" in ["c", "l", "t"] && "l" in ["c", "l", "t"] && "t" in ["c", "l", "t"];
    MergeKeepsPeople(d, q.mergeIds, q.canonical, q.now);
    assert "l" in q.mergeIds;
  }

  lemma {:induction false} AllSmooth(f: Faults, clock: nat, n: nat)
    requires forall k :: !f.statement(k)
    ensures AllGo(f, clock, n)
  {
    if n > 0 {
      AllSmooth(f, clock, n - 1);
    }
  }

  // ----- What merging does -----

  lemma {:induction false} RepointIs(d: Data, tables: seq<string>, loser: Id, canonical: Id)
    requires loser != canonical
    ensures var t := Repoint(d, tables, loser, canonical);
            && t.people == d.people && t.rows.Keys == d.rows.Keys
            && forall row | row in d.rows ::
                 t.rows[row] == if row.table in tables && d.rows[row] == Some(loser) then Some(canonical) else d.rows[row]
  {
    if tables != [] {
      var last := |tables| - 1;
      RepointIs(d, tables[..last], loser, canonical);
      assert tables == tables[..last] + [tables[last]];
    }
  }

  /** Where a row points after the merges. */
  predicate Repointed(before: Option<Id>, after: Option<Id>, losers: seq<Id>, canonical: Id) {
    after == if before.Some? && before.value in losers then Some(canonical) else before
  }

  /** The rows and where each points: in the five tables a row that pointed to a loser points to the canonical
    * person, and no other row changes.
    */
  lemma {:induction false} MergeRepoints(d: Data, losers: seq<Id>, canonical: Id, now: nat)
    requires canonical !in losers
    ensures var t := MergeAll(d, losers, canonical, now);
            && t.rows.Keys == d.rows.Keys
            && forall row | row in d.rows ::
                 if row.table in Tables then Repointed(d.rows[row], t.rows[row], losers, canonical) else t.rows[row] == d.rows[row]
  {
    if losers != [] {
      var last := |losers| - 1;
      MergeRepoints(d, losers[..last], canonical, now);
      RepointIs(MergeAll(d, losers[..last], canonical, now), Tables, losers[last], canonical);
      assert losers == losers[..last] + [losers[last]];
    }
  }

  /** No row is left that points to a loser, and the canonical person has exactly its own rows and theirs. */
  lemma MergedRows(d: Data, losers: seq<Id>, canonical: Id, now: nat)
    requires canonical !in losers
    ensures var t := MergeAll(d, losers, canonical, now);
            && (forall loser | loser in losers :: RowsTo(t, Tables, loser) == {})
            && (forall row :: row in RowsTo(t, Tables, canonical)
                  <==> row in RowsTo(d, Tables, canonical) || exists loser | loser in losers :: row in RowsTo(d, Tables, loser))
            && forall id | id != canonical && id !in losers :: RowsTo(t, Tables, id) == RowsTo(d, Tables, id)
  {
    MergeRepoints(d, losers, canonical, now);
  }

  function CountAll(d: Data, people: seq<Id>): nat {
    if people == [] then 0 else CountAll(d, people[..|people| - 1]) + |RowsTo(d, Tables, people[|people| - 1])|
  }

  ghost predicate Distinct(ids: seq<Id>) {
    forall i, j | 0 <= i < j < |ids| :: ids[i] != ids[j]
  }

  /** The canonical person's count is the sum of its own and those of the losers. */
  lemma {:induction false} MergedCount(d: Data, losers: seq<Id>, canonical: Id, now: nat)
    requires canonical !in losers && Distinct(losers)
    ensures |RowsTo(MergeAll(d, losers, canonical, now), Tables, canonical)|
            == |RowsTo(d, Tables, canonical)| + CountAll(d, losers)
  {
    if losers != [] {
      var last := |losers| - 1;
      var loser, u := losers[last], MergeAll(d, losers[..last], canonical, now);
      MergedCount(d, losers[..last], canonical, now);
      MergedRows(d, losers[..last], canonical, now);
      assert RowsTo(u, Tables, loser) == RowsTo(d, Tables, loser);
      OneMoreCount(u, loser, canonical, now);
    }
  }

  lemma OneMoreCount(u: Data, loser: Id, canonical: Id, now: nat)
    requires loser != canonical
    ensures |RowsTo(MergeOne(u, loser, canonical, now), Tables, canonical)|
            == |RowsTo(u, Tables, canonical)| + |RowsTo(u, Tables, loser)|
  {
    RepointIs(u, Tables, loser, canonical);
    var t := MergeOne(u, loser, canonical, now);
    assert RowsTo(t, Tables, canonical) == RowsTo(u, Tables, canonical) + RowsTo(u, Tables, loser);
    assert RowsTo(u, Tables, canonical) !! RowsTo(u, Tables, loser);
  }

  /** Nobody is removed by merging: the losers are marked, with the date they already had if they had one, and
    * nobody else changes.
    */
  lemma {:induction false} MergeKeepsPeople(d: Data, losers: seq<Id>, canonical: Id, now: nat)
    ensures var t := MergeAll(d, losers, canonical, now);
            && t.people.Keys == d.people.Keys
            && forall id | id in d.people ::
                 t.people[id] == if id in losers && d.people[id].deletedAt.None?
                                 then d.people[id].(deletedAt := Some(now)) else d.people[id]
  {
    if losers != [] {
      var last := |losers| - 1;
      MergeKeepsPeople(d, losers[..last], canonical, now);
      RepointPeople(MergeAll(d, losers[..last], canonical, now), Tables, losers[last], canonical);
      assert losers == losers[..last] + [losers[last]];
    }
  }

  lemma {:induction false} RepointPeople(d: Data, tables: seq<string>, loser: Id, canonical: Id)
    ensures Repoint(d, tables, loser, canonical).people == d.people
  {
    if tables != [] {
      RepointPeople(d, tables[..|tables| - 1], loser, canonical);
    }
  }

  lemma CountTable(d: Data, i: nat, person: Id)
    requires i < |Tables|
    ensures |RowsTo(d, Tables[..i + 1], person)| == |RowsTo(d, Tables[..i], person)| + |RowsTo(d, [Tables[i]], person)|
  {
    var a, b := RowsTo(d, Tables[..i], person), RowsTo(d, [Tables[i]], person);
    TablesDiffer(i);
    assert Tables[..i + 1] == Tables[..i] + [Tables[i]];
    assert RowsTo(d, Tables[..i + 1], person) == a + b;
    assert a !! b;
  }

  lemma TablesDiffer(i: nat)
    requires i < |Tables|
    ensures Tables[i] !in Tables[..i]
  {
    assert Tables[0][0] == 'c' && Tables[0][1] == 'o';
    assert Tables[1][4] == 't' && Tables[2][4] == 'n' && Tables[3][4] == 'c' && Tables[4][4] == 'r';
    assert forall k | 0 < k < 5 :: Tables[k][1] == 'r';
  }
}
