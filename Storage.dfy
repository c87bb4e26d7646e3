/** The single-file store `hr_data.db`: its four tables and their schema.
    `Store` holds the tables as fields that the operations of `Database`
    and `Utils` update in place; SQLite's AUTOINCREMENT is modelled by the
    counters `nextPersonId` and `nextPoolId`, which hand out ids that were
    never used before. */
module Storage {
  import opened Common

  datatype Table = Personnel | OperationLog | TalentPool | Users

  /** The 19 fixed columns of `personnel` after `id`, in declaration order. */
  const FixedColumns: seq<string> := [
    "real_name", "gender", "age", "id_number", "phone", "province", "city", "county",
    "nickname", "education", "political_status", "occupation", "position", "status",
    "join_date", "donation_days", "address", "bio", "photo_path"
  ]
  const FieldCount := 19
  const NameField := 0
  const PhoneField := 4
  const ProvinceField := 5
  const CityField := 6

  /** Every column `init_db` gives the `personnel` table. */
  const PersonnelColumns: set<string> := {"id"} + set c | c in FixedColumns

  /** A `personnel` row: its id, the 19 fixed columns in declaration order, and
      the extension columns that import added, by name (a name that is absent is NULL). */
  datatype Person = Person(id: int, fields: seq<Cell>, extra: map<string, Cell>)

  /** A `talent_pool` row. */
  datatype PoolEntry = PoolEntry(id: int, personId: int, addTime: string, reason: Cell)

  /** An `operation_log` row (its id is its position). */
  datatype LogEntry = LogEntry(operationType: string, target: Cell, time: string)

  /** The `users` row with id 1, the only row that table ever holds. */
  datatype UserRow = UserRow(passwordHash: Option<string>, passwordEnabled: Option<int>)

  /** Every table exists. */
  predicate AllTables(schema: map<Table, set<string>>) {
    Personnel in schema && OperationLog in schema && TalentPool in schema && Users in schema
  }

  // ---------------------------------------------------------------------------
  // Table invariants

  /** Ids are positive, below the AUTOINCREMENT counter, and in ascending (rowid) order. */
  predicate IdsAscending(people: seq<Person>, next: int) {
    && (forall i, j :: 0 <= i < j < |people| ==> people[i].id < people[j].id)
    && (forall i :: 0 <= i < |people| ==> 1 <= people[i].id < next)
  }

  predicate WellShaped(people: seq<Person>) {
    forall p :: p in people ==> |p.fields| == FieldCount
  }

  /** Every extension value of a row lives in a column the table has. */
  predicate ExtrasRegistered(people: seq<Person>, columns: set<string>) {
    forall p :: p in people ==> p.extra.Keys <= columns
  }

  predicate PoolIdsAscending(pool: seq<PoolEntry>, next: int) {
    && (forall i, j :: 0 <= i < j < |pool| ==> pool[i].id < pool[j].id)
    && (forall i :: 0 <= i < |pool| ==> 1 <= pool[i].id < next)
  }

  predicate HasPerson(people: seq<Person>, id: int) {
    exists p :: p in people && p.id == id
  }

  /** Referential integrity: every pool entry names an existing record. */
  predicate PoolRefersToPeople(pool: seq<PoolEntry>, people: seq<Person>) {
    forall e :: e in pool ==> HasPerson(people, e.personId)
  }

  class Store {
    var schema: map<Table, set<string>>
    var personnel: seq<Person>
    var talentPool: seq<PoolEntry>
    var operationLog: seq<LogEntry>
    var users: Option<UserRow>
    var nextPersonId: int
    var nextPoolId: int

    ghost predicate Valid()
      reads this
    {
      && (Personnel !in schema ==> personnel == [])
      && (TalentPool !in schema ==> talentPool == [])
      && (Users !in schema ==> users.None?)
      && (Personnel in schema ==> ExtrasRegistered(personnel, schema[Personnel]))
      && 1 <= nextPersonId && 1 <= nextPoolId
      && IdsAscending(personnel, nextPersonId)
      && WellShaped(personnel)
      && PoolIdsAscending(talentPool, nextPoolId)
      && PoolRefersToPeople(talentPool, personnel)
    }

    /** `init_db` has run, `personnel` has every column it declares, and
        `talent_pool` has the `reason` column that pool writes name. */
    ghost predicate Ready()
      reads this
    {
      AllTables(schema) && PersonnelColumns <= schema[Personnel] && "reason" in schema[TalentPool]
    }

    /** A store file that does not exist yet: no tables. */
    constructor ()
      ensures Valid()
      ensures schema == map[] && personnel == [] && talentPool == [] && operationLog == []
      ensures users == None && nextPersonId == 1 && nextPoolId == 1
    {
      schema := map[];
      personnel := [];
      talentPool := [];
      operationLog := [];
      users := None;
      nextPersonId := 1;
      nextPoolId := 1;
    }
  }

  // ---------------------------------------------------------------------------
  // Queries and deletions on the tables

  /** `SELECT … FROM personnel WHERE id=?`. */
  function FindPerson(people: seq<Person>, id: int): (r: Option<Person>)
    ensures r.Some? ==> r.value in people && r.value.id == id
    ensures r.None? <==> !HasPerson(people, id)
  {
    if people == [] then None
    else if people[0].id == id then Some(people[0])
    else FindPerson(people[1..], id)
  }

  /** `DELETE FROM personnel WHERE id=?`: the other rows, in their order. */
  function WithoutPerson(people: seq<Person>, id: int): (r: seq<Person>)
    ensures forall p :: p in r <==> p in people && p.id != id
    ensures |r| <= |people|
  {
    if people == [] then []
    else (if people[0].id == id then [] else [people[0]]) + WithoutPerson(people[1..], id)
  }

  /** `DELETE FROM talent_pool WHERE person_id=?`: the other entries, in their order. */
  function WithoutEntriesOf(pool: seq<PoolEntry>, personId: int): (r: seq<PoolEntry>)
    ensures forall e :: e in r <==> e in pool && e.personId != personId
    ensures |r| <= |pool|
  {
    if pool == [] then []
    else (if pool[0].personId == personId then [] else [pool[0]]) + WithoutEntriesOf(pool[1..], personId)
  }

  /** Removing a row keeps the ids ascending. */
  lemma {:induction false} WithoutPersonAscending(people: seq<Person>, id: int, next: int)
    requires IdsAscending(people, next)
    ensures IdsAscending(WithoutPerson(people, id), next)
  {
    if people != [] {
      var tail := people[1..];
      assert IdsAscending(tail, next);
      WithoutPersonAscending(tail, id, next);
      var rest := WithoutPerson(tail, id);
      if people[0].id != id {
        forall q | q in rest ensures people[0].id < q.id {
          HeadBelowTail(people, next, q);
        }
        PrependAscending(people[0], rest, next);
        assert WithoutPerson(people, id) == [people[0]] + rest;
      } else {
        assert WithoutPerson(people, id) == rest;
      }
    }
  }

  lemma HeadBelowTail(people: seq<Person>, next: int, q: Person)
    requires people != [] && IdsAscending(people, next) && q in people[1..]
    ensures people[0].id < q.id
  {
    var j :| 0 <= j < |people[1..]| && people[1..][j] == q;
    assert people[j + 1] == q;
  }

  lemma PrependAscending(h: Person, rest: seq<Person>, next: int)
    requires IdsAscending(rest, next) && 1 <= h.id < next
    requires forall q :: q in rest ==> h.id < q.id
    ensures IdsAscending([h] + rest, next)
  {
    var r := [h] + rest;
    forall i, j | 0 <= i < j < |r| ensures r[i].id < r[j].id {
      assert r[j] == rest[j - 1];
      if i > 0 {
        assert r[i] == rest[i - 1];
      }
    }
  }

  /** Ids are unique, so deleting an existing id removes exactly one row. */
  lemma {:induction false} WithoutPersonRemovesOne(people: seq<Person>, id: int, next: int)
    requires IdsAscending(people, next)
    ensures |WithoutPerson(people, id)| == if HasPerson(people, id) then |people| - 1 else |people|
  {
    if people != [] {
      var tail := people[1..];
      TailAscending(people, next);
      WithoutPersonRemovesOne(tail, id, next);
      HasPersonCons(people, id);
      if people[0].id == id {
        HeadIdNotInTail(people, next);
      }
    }
  }

  lemma TailAscending(people: seq<Person>, next: int)
    requires people != [] && IdsAscending(people, next)
    ensures IdsAscending(people[1..], next)
  {
  }

  lemma HasPersonCons(people: seq<Person>, id: int)
    requires people != []
    ensures HasPerson(people, id) <==> people[0].id == id || HasPerson(people[1..], id)
  {
    assert people == [people[0]] + people[1..];
    assert forall q :: q in people <==> q == people[0] || q in people[1..];
  }

  lemma HeadIdNotInTail(people: seq<Person>, next: int)
    requires people != [] && IdsAscending(people, next)
    ensures !HasPerson(people[1..], people[0].id)
  {
    forall q | q in people[1..] ensures q.id != people[0].id {
      var j :| 0 <= j < |people[1..]| && people[1..][j] == q;
      assert people[j + 1] == q;
    }
  }

  /** Removing entries keeps the pool ids ascending. */
  lemma {:induction false} WithoutEntriesAscending(pool: seq<PoolEntry>, personId: int, next: int)
    requires PoolIdsAscending(pool, next)
    ensures PoolIdsAscending(WithoutEntriesOf(pool, personId), next)
  {
    if pool != [] {
      var tail := pool[1..];
      assert PoolIdsAscending(tail, next);
      WithoutEntriesAscending(tail, personId, next);
      var rest := WithoutEntriesOf(tail, personId);
      if pool[0].personId != personId {
        forall e | e in rest ensures pool[0].id < e.id {
          HeadEntryBelowTail(pool, next, e);
        }
        PrependEntryAscending(pool[0], rest, next);
        assert WithoutEntriesOf(pool, personId) == [pool[0]] + rest;
      } else {
        assert WithoutEntriesOf(pool, personId) == rest;
      }
    }
  }

  lemma HeadEntryBelowTail(pool: seq<PoolEntry>, next: int, e: PoolEntry)
    requires pool != [] && PoolIdsAscending(pool, next) && e in pool[1..]
    ensures pool[0].id < e.id
  {
    var j :| 0 <= j < |pool[1..]| && pool[1..][j] == e;
    assert pool[j + 1] == e;
  }

  lemma PrependEntryAscending(h: PoolEntry, rest: seq<PoolEntry>, next: int)
    requires PoolIdsAscending(rest, next) && 1 <= h.id < next
    requires forall e :: e in rest ==> h.id < e.id
    ensures PoolIdsAscending([h] + rest, next)
  {
    var r := [h] + rest;
    forall i, j | 0 <= i < j < |r| ensures r[i].id < r[j].id {
      assert r[j] == rest[j - 1];
      if i > 0 {
        assert r[i] == rest[i - 1];
      }
    }
  }

  /** Deleting a record together with its pool entries keeps every remaining
      entry pointing at an existing record. */
  lemma CascadeKeepsReferences(pool: seq<PoolEntry>, people: seq<Person>, id: int)
    requires PoolRefersToPeople(pool, people)
    ensures PoolRefersToPeople(WithoutEntriesOf(pool, id), WithoutPerson(people, id))
  {
    var rest := WithoutPerson(people, id);
    forall e | e in WithoutEntriesOf(pool, id) ensures HasPerson(rest, e.personId) {
      var p :| p in people && p.id == e.personId;
      assert p in rest;
    }
  }

  /** Without the cascade, a record in the pool could not be deleted safely:
      deleting it alone leaves its entries dangling. */
  lemma DeleteWithoutCascadeDangles(pool: seq<PoolEntry>, people: seq<Person>, e: PoolEntry)
    requires e in pool
    ensures !PoolRefersToPeople(pool, WithoutPerson(people, e.personId))
  {
  }

  /** Appending a record with a fresh id keeps the ids ascending. */
  lemma AppendAscending(people: seq<Person>, next: int, p: Person)
    requires IdsAscending(people, next) && p.id == next && next >= 1
    ensures IdsAscending(people + [p], next + 1)
  {
  }

  lemma AppendEntryAscending(pool: seq<PoolEntry>, next: int, e: PoolEntry)
    requires PoolIdsAscending(pool, next) && e.id == next && next >= 1
    ensures PoolIdsAscending(pool + [e], next + 1)
  {
  }

  // ---------------------------------------------------------------------------
  // Updates in place

  /** `UPDATE personnel SET <the 19 fixed columns> WHERE id=target`. */
  function WithFields(people: seq<Person>, target: Cell, fields: seq<Cell>): (r: seq<Person>)
    ensures |r| == |people|
    ensures forall i :: 0 <= i < |people| ==> r[i].id == people[i].id && r[i].extra == people[i].extra
    ensures forall i :: 0 <= i < |people| ==> r[i].fields == if Int(people[i].id) == target then fields else people[i].fields
  {
    seq(|people|, i requires 0 <= i < |people| =>
      if Int(people[i].id) == target then people[i].(fields := fields) else people[i])
  }

  /** `UPDATE talent_pool SET reason=? WHERE person_id=target`. */
  function WithReason(pool: seq<PoolEntry>, target: Cell, reason: Cell): (r: seq<PoolEntry>)
    ensures |r| == |pool|
    ensures forall i :: 0 <= i < |pool| ==> r[i] == if Int(pool[i].personId) == target then pool[i].(reason := reason) else pool[i]
  {
    seq(|pool|, i requires 0 <= i < |pool| =>
      if Int(pool[i].personId) == target then pool[i].(reason := reason) else pool[i])
  }

  /** An update that keeps every id keeps the ids ascending and every pool
      entry pointing at a record. */
  lemma SameIdsKeepInvariants(people: seq<Person>, updated: seq<Person>, pool: seq<PoolEntry>, next: int)
    requires |updated| == |people|
    requires forall i :: 0 <= i < |people| ==> updated[i].id == people[i].id
    requires IdsAscending(people, next) && PoolRefersToPeople(pool, people)
    ensures IdsAscending(updated, next) && PoolRefersToPeople(pool, updated)
  {
    forall e | e in pool ensures HasPerson(updated, e.personId) {
      var p :| p in people && p.id == e.personId;
      var i :| 0 <= i < |people| && people[i] == p;
      assert updated[i] in updated;
    }
  }

  /** A pool that refers to records still does after more records are appended. */
  lemma RefsSurviveGrowth(pool: seq<PoolEntry>, people: seq<Person>, more: seq<Person>)
    requires PoolRefersToPeople(pool, people) && people <= more
    ensures PoolRefersToPeople(pool, more)
  {
    forall e | e in pool ensures HasPerson(more, e.personId) {
      var p :| p in people && p.id == e.personId;
      var i :| 0 <= i < |people| && people[i] == p;
      assert more[i] == p;
    }
  }

  /** A deleted record is gone. */
  lemma {:induction false} FindAfterDelete(people: seq<Person>, id: int)
    ensures FindPerson(WithoutPerson(people, id), id) == None
  {
  }

  /** A record appended with a fresh id is found under that id. */
  lemma FindAfterAppend(people: seq<Person>, next: int, p: Person)
    requires IdsAscending(people, next) && p.id == next
    ensures FindPerson(people + [p], next) == Some(p)
  {
  }
}
