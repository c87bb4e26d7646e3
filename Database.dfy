/** The operations of the store, one method per function of the database
    layer. Each opens the store, changes its tables in place and reports the
    outcome the way the caller sees it: a message or an error text. Clock
    readings are the `now` parameter. Every failing write changes nothing,
    because the transaction it ran in is rolled back. */
module Database {
  import opened Common
  import opened Storage
  import opened Schema
  import opened Reconcile
  import opened Projection

  // ---------------------------------------------------------------------------
  // Start-up

  /** `init_db`: the four `CREATE TABLE IF NOT EXISTS` statements. */
  method InitDb(db: Store)
    requires db.Valid()
    modifies db
    ensures db.Valid()
    ensures db.schema == InitSchema(old(db.schema))
    ensures db.personnel == old(db.personnel) && db.talentPool == old(db.talentPool)
    ensures db.operationLog == old(db.operationLog) && db.users == old(db.users)
    ensures db.nextPersonId == old(db.nextPersonId) && db.nextPoolId == old(db.nextPoolId)
  {
    db.schema := CreateIfAbsent(db.schema, Personnel);
    db.schema := CreateIfAbsent(db.schema, OperationLog);
    db.schema := CreateIfAbsent(db.schema, TalentPool);
    db.schema := CreateIfAbsent(db.schema, Users);
  }

  /** `migrate_db`, on a store `init_db` has set up. */
  method MigrateDb(db: Store, hash: string -> string)
    requires db.Valid() && AllTables(db.schema)
    modifies db
    ensures db.Valid()
    ensures Setup(db.schema, db.users) == Migrate(Setup(old(db.schema), old(db.users)), hash)
    ensures db.personnel == old(db.personnel) && db.talentPool == old(db.talentPool)
    ensures db.operationLog == old(db.operationLog)
    ensures db.nextPersonId == old(db.nextPersonId) && db.nextPoolId == old(db.nextPoolId)
  {
    ghost var before := db.schema;
    if "reason" !in db.schema[TalentPool] {
      db.schema := db.schema[TalentPool := db.schema[TalentPool] + {"reason"}];
    } else {
      assert db.schema[TalentPool] + {"reason"} == db.schema[TalentPool];
    }
    assert db.schema == before[TalentPool := before[TalentPool] + {"reason"}];
    ghost var middle := db.schema;
    if "password_enabled" !in db.schema[Users] {
      db.schema := db.schema[Users := db.schema[Users] + {"password_enabled"}];
      if db.users.Some? {
        db.users := Some(db.users.value.(passwordEnabled := Some(1)));
      }
    } else {
      assert db.schema[Users] + {"password_enabled"} == db.schema[Users];
    }
    assert db.schema == middle[Users := middle[Users] + {"password_enabled"}];
    if db.users.None? {
      db.users := Some(UserRow(Some(hash(DefaultPassword)), Some(1)));
    }
    assert db.schema == MigrateSchema(old(db.schema));
  }

  // ---------------------------------------------------------------------------
  // load_admin_data

  /** The distinct provinces, "省" removed, in ascending order. */
  method SortedProvinces(people: seq<Person>) returns (provinces: seq<string>)
    ensures StrictlySorted(provinces)
    ensures forall s :: s in provinces <==> s in ProvinceNames(people)
  {
    provinces := [];
    for i := 0 to |people|
      invariant StrictlySorted(provinces)
      invariant forall s :: s in provinces <==> s in ProvinceNames(people[..i])
    {
      assert people[..i + 1][..i] == people[..i];
      match ProvinceKey(people[i]) {
        case Some(s) => provinces := InsertSorted(provinces, s);
        case None =>
      }
    }
    assert people[..|people|] == people;
  }

  /** The distinct cities, "市" removed, of the records whose province is `province`, in ascending order. */
  method SortedCities(people: seq<Person>, province: string) returns (cities: seq<string>)
    ensures StrictlySorted(cities)
    ensures forall c :: c in cities <==> c in CityNames(people, province)
  {
    cities := [];
    for i := 0 to |people|
      invariant StrictlySorted(cities)
      invariant forall c :: c in cities <==> c in CityNames(people[..i], province)
    {
      assert people[..i + 1][..i] == people[..i];
      match CityKey(people[i], province) {
        case Some(c) => cities := InsertSorted(cities, c);
        case None =>
      }
    }
    assert people[..|people|] == people;
  }

  /** `load_admin_data`: the provinces in order (the keys of the result, in
      insertion order) and, for each, its sorted cities. */
  method LoadAdminData(db: Store) returns (provinces: seq<string>, cities: map<string, seq<string>>)
    requires db.Valid() && db.Ready()
    ensures StrictlySorted(provinces)
    ensures forall s :: s in provinces <==> s in ProvinceNames(db.personnel)
    ensures forall s :: s in cities <==> s in provinces
    ensures forall s :: s in cities ==> StrictlySorted(cities[s])
    ensures forall s, c :: s in cities ==> (c in cities[s] <==> c in CityNames(db.personnel, s))
  {
    provinces := SortedProvinces(db.personnel);
    cities := map[];
    for k := 0 to |provinces|
      invariant forall s :: s in cities <==> s in provinces[..k]
      invariant forall s :: s in cities ==> StrictlySorted(cities[s])
      invariant forall s, c :: s in cities ==> (c in cities[s] <==> c in CityNames(db.personnel, s))
    {
      assert provinces[..k + 1] == provinces[..k] + [provinces[k]];
      var list := SortedCities(db.personnel, provinces[k]);
      cities := cities[provinces[k] := list];
    }
    assert provinces[..|provinces|] == provinces;
  }

  // ---------------------------------------------------------------------------
  // import_data

  /** The header loop of one sheet. */
  method MapColumns(run: Run, headers: seq<string>) returns (m: Mapping)
    ensures m == MapHeaders(run, [], headers)
  {
    var cur := run;
    var pairs: seq<(string, string)> := [];
    var j := 0;
    while j < |headers|
      invariant 0 <= j <= |headers|
      invariant MapHeaders(run, [], headers) == MapHeaders(cur, pairs, headers[j..])
    {
      assert headers[j..][0] == headers[j] && headers[j..][1..] == headers[j + 1..];
      var r := MapHeader(cur.cols, headers[j]);
      if r.Err? {
        return Clash(r.message, cur);
      }
      cur := AddColumn(cur, r.value);
      pairs := pairs + [(headers[j], r.value)];
      j := j + 1;
    }
    return Mapped(pairs, cur);
  }

  /** The values of one inserted row. */
  method BuildRowData(cols: set<string>, pairs: seq<(string, string)>, row: map<string, Option<string>>)
    returns (data: map<string, Cell>)
    ensures data == RowData(cols, pairs, row)
  {
    data := map c | c in Known(cols) :: Text("");
    data := data["photo_path" := Text("")];
    data := data["status" := Text("在职")];
    assert data == InitialRowData(cols);
    for k := 0 to |pairs|
      invariant RowData(cols, pairs, row) == ApplyPairs(data, pairs[k..], row)
    {
      assert pairs[k..][0] == pairs[k] && pairs[k..][1..] == pairs[k + 1..];
      var (header, column) := pairs[k];
      if header in row && row[header].Some? {
        data := data[column := Normalise(column, row[header].value)];
      }
    }
  }

  /** One row of a sheet: the duplicate check, then the skip or the insert,
      whose statement fails when a column name in it is not bare. */
  method ReconcileRow(run: Run, pairs: seq<(string, string)>, row: map<string, Option<string>>)
    returns (s: Step)
    ensures s == RowStep(run, pairs, row)
  {
    var name := RowName(row);
    var phone := RowPhone(row);
    if HasDuplicate(run.people, name, phone) {
      return Continue(run.(skipped := run.skipped + 1, reasons := run.reasons + [SkipReason(name, phone)]));
    }
    s := InsertRow(run, pairs, row);
  }

  /** The `INSERT` of a row that is not a duplicate. */
  method InsertRow(run: Run, pairs: seq<(string, string)>, row: map<string, Option<string>>)
    returns (s: Step)
    requires !HasDuplicate(run.people, RowName(row), RowPhone(row))
    ensures s == RowStep(run, pairs, row)
  {
    var data := BuildRowData(run.cols, pairs, row);
    InsertOutcome(run, pairs, row);
    if !BareNames(data.Keys) {
      return Abort(SyntaxError, run);
    }
    return Continue(run.(people := run.people + [NewRecord(run.nextId, data)], nextId := run.nextId + 1, count := run.count + 1));
  }

  /** The row loop of one sheet, stopping at the first failed insert. */
  method ReconcileRows(run: Run, pairs: seq<(string, string)>, rows: seq<map<string, Option<string>>>)
    returns (s: Step)
    ensures s == SheetRows(run, pairs, rows)
  {
    var r := run;
    for j := 0 to |rows|
      invariant SheetRows(run, pairs, rows) == SheetRows(r, pairs, rows[j..])
    {
      assert rows[j..][0] == rows[j] && rows[j..][1..] == rows[j + 1..];
      var step := ReconcileRow(r, pairs, rows[j]);
      if step.Abort? {
        return step;
      }
      r := step.run;
    }
    assert rows[|rows|..] == [];
    return Continue(r);
  }

  /** The file loop of `import_data`, on the working copy. */
  method ReconcileSources(start: Run, sources: seq<Source>) returns (s: Step)
    ensures s == ImportSources(start, sources)
  {
    var run := start;
    for i := 0 to |sources|
      invariant ImportSources(start, sources) == ImportSources(run, sources[i..])
    {
      assert sources[i..][0] == sources[i] && sources[i..][1..] == sources[i + 1..];
      match sources[i] {
        case Unreadable(reason) =>
          return Abort(reason, run);
        case Sheet(headers, rows) =>
          var m := MapColumns(run, headers);
          if m.Clash? {
            return Abort(m.reason, m.run);
          }
          var sheet := ReconcileRows(m.run, m.pairs, rows);
          if sheet.Abort? {
            return sheet;
          }
          run := sheet.run;
      }
    }
    assert sources[|sources|..] == [];
    return Continue(run);
  }

  /** The commit of an import run: its records, counter and columns replace
      the table's, and one log entry records the counts. */
  method CommitImport(db: Store, r: Run, now: string)
    requires db.Valid() && db.Ready() && RunValid(r)
    requires db.schema[Personnel] <= r.durable && db.personnel <= r.people
    modifies db
    ensures db.Valid() && db.Ready()
    ensures db.schema == old(db.schema)[Personnel := r.cols]
    ensures db.personnel == r.people && db.nextPersonId == r.nextId
    ensures db.operationLog == old(db.operationLog) + [LogEntry("导入数据", Text(ImportLogTarget(r.count, r.skipped)), now)]
    ensures db.talentPool == old(db.talentPool) && db.users == old(db.users) && db.nextPoolId == old(db.nextPoolId)
  {
    RefsSurviveGrowth(db.talentPool, db.personnel, r.people);
    db.personnel := r.people;
    db.nextPersonId := r.nextId;
    db.schema := db.schema[Personnel := r.cols];
    db.operationLog := db.operationLog + [LogEntry("导入数据", Text(ImportLogTarget(r.count, r.skipped)), now)];
  }

  /** `import_data`: every sheet in turn, then one log entry and the commit,
      then the caller's refresh, whose failure `refreshFault` describes. The
      rows are built in a working copy that is written back at the commit;
      on an error only the columns added before the first insert remain. */
  method ImportData(db: Store, sources: seq<Source>, refreshFault: Option<string>, now: string)
    returns (message: Option<string>, error: Option<string>)
    requires db.Valid() && db.Ready()
    modifies db
    ensures db.Valid() && db.Ready()
    ensures db.talentPool == old(db.talentPool) && db.users == old(db.users) && db.nextPoolId == old(db.nextPoolId)
    ensures var s := ImportSources(StartRun(old(db.personnel), old(db.nextPersonId), old(db.schema[Personnel])), sources);
      s.Abort? ==>
        && db.schema == old(db.schema)[Personnel := s.run.durable]
        && db.personnel == old(db.personnel) && db.nextPersonId == old(db.nextPersonId)
        && db.operationLog == old(db.operationLog)
        && message == None && error == Some(ImportFailedPrefix + s.reason)
    ensures var s := ImportSources(StartRun(old(db.personnel), old(db.nextPersonId), old(db.schema[Personnel])), sources);
      s.Continue? ==>
        && db.schema == old(db.schema)[Personnel := s.run.cols]
        && db.personnel == s.run.people && db.nextPersonId == s.run.nextId
        && db.operationLog == old(db.operationLog) + [LogEntry("导入数据", Text(ImportLogTarget(s.run.count, s.run.skipped)), now)]
        && (refreshFault.None? ==> message == Some(ImportMessage(s.run.count, s.run.skipped, s.run.reasons)) && error == None)
        && (refreshFault.Some? ==> message == None && error == Some(ImportFailedPrefix + refreshFault.value))
  {
    var start := StartRun(db.personnel, db.nextPersonId, db.schema[Personnel]);
    var s := ReconcileSources(start, sources);
    ImportSourcesValid(start, sources);
    var r := s.run;
    assert RunValid(r) && start.cols <= r.durable && start.people <= r.people;
    if s.Abort? {
      db.schema := db.schema[Personnel := r.durable];
      return None, Some(ImportFailedPrefix + s.reason);
    }
    CommitImport(db, r, now);
    if refreshFault.Some? {
      return None, Some(ImportFailedPrefix + refreshFault.value);
    }
    return Some(ImportMessage(r.count, r.skipped, r.reasons)), None;
  }

  // ---------------------------------------------------------------------------
  // Repository writes

  const SaveFailed := "保存失败：数据库操作错误，请重试！"

  /** The insert and update statements take exactly 19 values; the update also needs `person[0]`. */
  predicate SaveFails(data: seq<Cell>, mode: string, person: Option<seq<Cell>>) {
    |data| != FieldCount || (mode != "add" && (person.None? || person.value == []))
  }

  /** The `INSERT INTO personnel` of the 19 fixed values: a new record with the next id. */
  method InsertPerson(db: Store, data: seq<Cell>) returns (id: int)
    requires db.Valid() && db.Ready() && |data| == FieldCount
    modifies db
    ensures db.Valid() && db.Ready()
    ensures id == old(db.nextPersonId) && db.nextPersonId == id + 1
    ensures db.personnel == old(db.personnel) + [Person(id, data, map[])]
    ensures db.schema == old(db.schema) && db.talentPool == old(db.talentPool) && db.users == old(db.users)
    ensures db.operationLog == old(db.operationLog) && db.nextPoolId == old(db.nextPoolId)
  {
    id := db.nextPersonId;
    var added := Person(id, data, map[]);
    AppendAscending(db.personnel, id, added);
    RefsSurviveGrowth(db.talentPool, db.personnel, db.personnel + [added]);
    db.personnel := db.personnel + [added];
    db.nextPersonId := id + 1;
  }

  /** The `UPDATE personnel … WHERE id=?` of an edit and, from the talent pool,
      the `UPDATE talent_pool SET reason=? WHERE person_id=?`. */
  method UpdatePerson(db: Store, target: Cell, data: seq<Cell>, fromTalent: bool)
    requires db.Valid() && db.Ready() && |data| == FieldCount
    modifies db
    ensures db.Valid() && db.Ready()
    ensures db.personnel == WithFields(old(db.personnel), target, data)
    ensures db.talentPool == if fromTalent then WithReason(old(db.talentPool), target, data[FieldCount - 2]) else old(db.talentPool)
    ensures db.schema == old(db.schema) && db.users == old(db.users) && db.operationLog == old(db.operationLog)
    ensures db.nextPersonId == old(db.nextPersonId) && db.nextPoolId == old(db.nextPoolId)
  {
    var updated := WithFields(db.personnel, target, data);
    SameIdsKeepInvariants(db.personnel, updated, db.talentPool, db.nextPersonId);
    db.personnel := updated;
    if fromTalent {
      db.talentPool := WithReason(db.talentPool, target, data[FieldCount - 2]);
    }
  }

  /** `save_person`: a new record (mode "add") or an overwrite of record
      `person[0]`; editing from the talent pool also sets the pool reason,
      taken from the bio value `data[-2]`. */
  method SavePerson(db: Store, data: seq<Cell>, mode: string, person: Option<seq<Cell>>, fromTalent: bool, now: string)
    returns (personId: Option<Cell>, message: Option<string>, error: Option<string>)
    requires db.Valid() && db.Ready()
    modifies db
    ensures db.Valid() && db.Ready()
    ensures db.schema == old(db.schema) && db.users == old(db.users) && db.nextPoolId == old(db.nextPoolId)
    ensures SaveFails(data, mode, person) ==>
      && personId == None && message == None && error == Some(SaveFailed)
      && db.personnel == old(db.personnel) && db.talentPool == old(db.talentPool)
      && db.operationLog == old(db.operationLog) && db.nextPersonId == old(db.nextPersonId)
    ensures !SaveFails(data, mode, person) && mode == "add" ==>
      && personId == Some(Int(old(db.nextPersonId))) && message == Some("新增人员完成") && error == None
      && db.personnel == old(db.personnel) + [Person(old(db.nextPersonId), data, map[])]
      && db.nextPersonId == old(db.nextPersonId) + 1
      && db.talentPool == old(db.talentPool)
      && db.operationLog == old(db.operationLog) + [LogEntry("新增人员", data[0], now)]
    ensures !SaveFails(data, mode, person) && mode != "add" ==>
      var target := person.value[0];
      var photo := if mode == "edit" && person.value[|person.value| - 1] != data[FieldCount - 1] then "\n照片已更新" else "";
      && personId == Some(target) && error == None
      && db.personnel == WithFields(old(db.personnel), target, data)
      && db.nextPersonId == old(db.nextPersonId)
      && db.talentPool == (if fromTalent then WithReason(old(db.talentPool), target, data[FieldCount - 2]) else old(db.talentPool))
      && db.operationLog == old(db.operationLog) + [LogEntry(if fromTalent then "编辑人员及人才库理由" else "编辑人员", data[0], now)]
      && message == Some((if fromTalent then "编辑信息及人才库理由完成" else "编辑信息完成") + photo)
  {
    if SaveFails(data, mode, person) {
      return None, None, Some(SaveFailed);
    }
    var photoUpdated := mode == "edit" && person.value[|person.value| - 1] != data[FieldCount - 1];
    var operationType: string;
    var text: string;
    if mode == "add" {
      var id := InsertPerson(db, data);
      personId := Some(Int(id));
      operationType := "新增人员";
      text := "新增人员完成";
    } else {
      var target := person.value[0];
      UpdatePerson(db, target, data, fromTalent);
      personId := Some(target);
      operationType := if fromTalent then "编辑人员及人才库理由" else "编辑人员";
      text := if fromTalent then "编辑信息及人才库理由完成" else "编辑信息完成";
    }
    db.operationLog := db.operationLog + [LogEntry(operationType, data[0], now)];
    if photoUpdated {
      text := text + "\n照片已更新";
    } else {
      assert text + "" == text;
    }
    return personId, Some(text), None;
  }

  /** `save_and_add_to_talent_pool`: a new record and a pool entry for it, in one transaction. */
  method SaveAndAddToTalentPool(db: Store, data: seq<Cell>, reason: Cell, now: string)
    returns (personId: Option<int>, message: Option<string>, error: Option<string>)
    requires db.Valid() && db.Ready()
    modifies db
    ensures db.Valid() && db.Ready()
    ensures db.schema == old(db.schema) && db.users == old(db.users)
    ensures |data| != FieldCount ==>
      && personId == None && message == None && error == Some(SaveFailed)
      && db.personnel == old(db.personnel) && db.talentPool == old(db.talentPool)
      && db.operationLog == old(db.operationLog)
      && db.nextPersonId == old(db.nextPersonId) && db.nextPoolId == old(db.nextPoolId)
    ensures |data| == FieldCount ==>
      var id := old(db.nextPersonId);
      && personId == Some(id) && error == None
      && message == Some("新增人员 " + Show(data[0]) + " 并加入人才库完成")
      && db.personnel == old(db.personnel) + [Person(id, data, map[])]
      && db.talentPool == old(db.talentPool) + [PoolEntry(old(db.nextPoolId), id, now, reason)]
      && db.nextPersonId == id + 1 && db.nextPoolId == old(db.nextPoolId) + 1
      && db.operationLog == old(db.operationLog) + [LogEntry("新增并加入人才库", data[0], now)]
  {
    if |data| != FieldCount {
      return None, None, Some(SaveFailed);
    }
    var id := InsertPerson(db, data);
    assert Person(id, data, map[]) in db.personnel;
    var entry := PoolEntry(db.nextPoolId, id, now, reason);
    AppendEntryAscending(db.talentPool, db.nextPoolId, entry);
    db.talentPool := db.talentPool + [entry];
    db.nextPoolId := db.nextPoolId + 1;
    db.operationLog := db.operationLog + [LogEntry("新增并加入人才库", data[0], now)];
    return Some(id), Some("新增人员 " + Show(data[0]) + " 并加入人才库完成"), None;
  }

  const AddToPoolMissing := "加入人才库失败：人员不存在"

  /** `add_to_talent_pool`: an entry for an existing record (a record may be
      added more than once); an unknown id writes nothing. */
  method AddToTalentPool(db: Store, personId: int, reason: Cell, now: string)
    returns (message: Option<string>, error: Option<string>)
    requires db.Valid() && db.Ready()
    modifies db
    ensures db.Valid() && db.Ready()
    ensures db.schema == old(db.schema) && db.users == old(db.users)
    ensures db.personnel == old(db.personnel) && db.nextPersonId == old(db.nextPersonId)
    ensures !HasPerson(old(db.personnel), personId) ==>
      && message == None && error == Some(AddToPoolMissing)
      && db.talentPool == old(db.talentPool) && db.nextPoolId == old(db.nextPoolId)
      && db.operationLog == old(db.operationLog)
    ensures HasPerson(old(db.personnel), personId) ==>
      var name := FindPerson(old(db.personnel), personId).value.fields[NameField];
      && message == Some("人员 " + Show(name) + " 已加入人才库") && error == None
      && db.talentPool == old(db.talentPool) + [PoolEntry(old(db.nextPoolId), personId, now, reason)]
      && db.nextPoolId == old(db.nextPoolId) + 1
      && db.operationLog == old(db.operationLog) + [LogEntry("加入人才库", name, now)]
  {
    var found := FindPerson(db.personnel, personId);
    if found.None? {
      return None, Some(AddToPoolMissing);
    }
    var name := found.value.fields[NameField];
    var entry := PoolEntry(db.nextPoolId, personId, now, reason);
    AppendEntryAscending(db.talentPool, db.nextPoolId, entry);
    db.talentPool := db.talentPool + [entry];
    db.nextPoolId := db.nextPoolId + 1;
    db.operationLog := db.operationLog + [LogEntry("加入人才库", name, now)];
    return Some("人员 " + Show(name) + " 已加入人才库"), None;
  }

  const DeleteMissing := "删除失败：'NoneType' object is not subscriptable"

  /** `delete_person`: the record and all its pool entries go, and nothing else. */
  method DeletePerson(db: Store, personId: int, now: string)
    returns (message: Option<string>, error: Option<string>)
    requires db.Valid() && db.Ready()
    modifies db
    ensures db.Valid() && db.Ready()
    ensures db.schema == old(db.schema) && db.users == old(db.users)
    ensures db.nextPersonId == old(db.nextPersonId) && db.nextPoolId == old(db.nextPoolId)
    ensures !HasPerson(old(db.personnel), personId) ==>
      && message == None && error == Some(DeleteMissing)
      && db.personnel == old(db.personnel) && db.talentPool == old(db.talentPool)
      && db.operationLog == old(db.operationLog)
    ensures HasPerson(old(db.personnel), personId) ==>
      var name := FindPerson(old(db.personnel), personId).value.fields[NameField];
      && message == Some("人员已删除") && error == None
      && db.personnel == WithoutPerson(old(db.personnel), personId)
      && |db.personnel| == |old(db.personnel)| - 1
      && db.talentPool == WithoutEntriesOf(old(db.talentPool), personId)
      && db.operationLog == old(db.operationLog) + [LogEntry("删除人员", name, now)]
  {
    var found := FindPerson(db.personnel, personId);
    if found.None? {
      return None, Some(DeleteMissing);
    }
    var name := found.value.fields[NameField];
    WithoutPersonAscending(db.personnel, personId, db.nextPersonId);
    WithoutPersonRemovesOne(db.personnel, personId, db.nextPersonId);
    WithoutEntriesAscending(db.talentPool, personId, db.nextPoolId);
    CascadeKeepsReferences(db.talentPool, db.personnel, personId);
    db.personnel := WithoutPerson(db.personnel, personId);
    db.talentPool := WithoutEntriesOf(db.talentPool, personId);
    db.operationLog := db.operationLog + [LogEntry("删除人员", name, now)];
    return Some("人员已删除"), None;
  }
}
