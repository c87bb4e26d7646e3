/** What `import_data` computes, as functions: how spreadsheet headers are
    mapped to `personnel` columns (adding columns for unknown headers), how
    each row becomes a record or is skipped as a duplicate, and the totals,
    skip reasons and summary of a run. The import method of `Database`
    performs the same steps with loops and is proved to agree with these
    definitions.

    A spreadsheet is a list of header labels and rows; a row maps each
    label to its cell, `None` standing for a missing (NaN) cell. Labels of
    one sheet are distinct, as pandas makes them. */
module Reconcile {
  import opened Common
  import opened Storage

  datatype Source =
    | Sheet(headers: seq<string>, rows: seq<map<string, Option<string>>>)
      /** A file the reader could not parse, with the reader's error message. */
    | Unreadable(reason: string)

  /** A sheet as the reader produces it: distinct labels, and every row
      holds a cell for each label and for nothing else. */
  predicate WellFormedSheet(headers: seq<string>, rows: seq<map<string, Option<string>>>) {
    && (forall i, j :: 0 <= i < j < |headers| ==> headers[i] != headers[j])
    && (forall row :: row in rows ==> row.Keys == set h | h in headers)
  }

  // ---------------------------------------------------------------------------
  // Header mapping

  /** Header synonyms in declaration order: a header containing the first
      component maps to the column in the second. */
  const Synonyms: seq<(string, string)> := [
    ("姓名", "real_name"), ("真实姓名", "real_name"), ("性别", "gender"), ("年龄", "age"),
    ("身份证", "id_number"), ("身份证号", "id_number"), ("电话", "phone"), ("手机号", "phone"),
    ("省", "province"), ("省份", "province"), ("市", "city"), ("城市", "city"),
    ("县", "county"), ("县区", "county"), ("昵称", "nickname"), ("学历", "education"),
    ("政治面貌", "political_status"), ("职业", "occupation"), ("个人职业", "occupation"),
    ("职务", "position"), ("分会职务", "position"), ("状态", "status"), ("在职状态", "status"),
    ("加入时间", "join_date"), ("加入组织时间", "join_date"), ("跟捐天数", "donation_days"),
    ("地址", "address"), ("家庭住址", "address"), ("简历", "bio"), ("个人简历", "bio")
  ]

  /** Synonym `k` occurs in `header` (Python's `key in col`). */
  predicate KeyIn(header: string, k: nat)
    requires k < |Synonyms|
  {
    Contains(header, Synonyms[k].0)
  }

  /** Index of the first synonym, from position `from` on, that occurs in `header`. */
  function FirstSynonym(header: string, from: nat): (r: Option<nat>)
    requires from <= |Synonyms|
    ensures r.Some? ==> from <= r.value < |Synonyms| && KeyIn(header, r.value)
    ensures r.Some? ==> forall k :: from <= k < r.value ==> !KeyIn(header, k)
    ensures r.None? ==> forall k :: from <= k < |Synonyms| ==> !KeyIn(header, k)
    decreases |Synonyms| - from
  {
    if from == |Synonyms| then None
    else if KeyIn(header, from) then Some(from)
    else FirstSynonym(header, from + 1)
  }

  /** The column name made from an unknown header: spaces and slashes become underscores. */
  function Sanitize(header: string): (r: string)
    ensures |r| == |header|
    ensures forall i :: 0 <= i < |header| ==> r[i] == (if header[i] == ' ' || header[i] == '/' then '_' else header[i])
    ensures ' ' !in r && '/' !in r
  {
    ReplaceChar(ReplaceChar(header, ' ', '_'), '/', '_')
  }

  /** The column a header is imported into. */
  function TargetColumn(header: string): string {
    match FirstSynonym(header, 0)
    case Some(k) => Synonyms[k].1
    case None => Sanitize(header)
  }

  function TargetColumns(headers: seq<string>): set<string> {
    if headers == [] then {} else {TargetColumn(headers[0])} + TargetColumns(headers[1..])
  }

  /** The columns the import treats as already known: every table column but `id` and `photo_path`. */
  function Known(cols: set<string>): set<string> {
    cols - {"id", "photo_path"}
  }

  /** SQLite compares column names ignoring ASCII case. */
  predicate Clashes(cols: set<string>, name: string) {
    exists c :: c in cols && AsciiLower(c) == AsciiLower(name)
  }

  /** Stands for SQLite's report of a statement it cannot parse
      (`near "…": syntax error`, `unrecognized token: …`). */
  const SyntaxError := "syntax error"

  /** The column a header maps to, or the error of the `ALTER TABLE` that
      would add it: the new name is written between single quotes, so a
      quote inside it breaks the statement; otherwise the statement fails
      when the table already has the name under another spelling. */
  function MapHeader(cols: set<string>, header: string): (r: Result<string>)
    ensures r.Ok? ==> r.value == TargetColumn(header)
    ensures r.Ok? && FirstSynonym(header, 0).None? ==> r.value == Sanitize(header)
    ensures r.Err? <==>
      && FirstSynonym(header, 0).None? && Sanitize(header) !in Known(cols)
      && ('\'' in Sanitize(header) || Clashes(cols, Sanitize(header)))
    ensures r.Err? && '\'' in Sanitize(header) ==> r.message == SyntaxError
    ensures r.Err? && '\'' !in Sanitize(header) ==> r.message == "duplicate column name: " + Sanitize(header)
  {
    match FirstSynonym(header, 0)
    case Some(k) => Ok(Synonyms[k].1)
    case None =>
      var name := Sanitize(header);
      if name in Known(cols) then Ok(name)
      else if '\'' in name then Err(SyntaxError)
      else if Clashes(cols, name) then Err("duplicate column name: " + name)
      else Ok(name)
  }

  /** Two names that fold to the same lower case clash with the same columns,
      and every column clashes with itself. */
  lemma ClashIgnoresCase(cols: set<string>, a: string, b: string)
    requires AsciiLower(a) == AsciiLower(b)
    ensures Clashes(cols, a) <==> Clashes(cols, b)
    ensures a in cols ==> Clashes(cols, a) && Clashes(cols, b)
  {
  }

  // ---------------------------------------------------------------------------
  // The state of a run

  /** Everything an import run has done so far: the records (stored ones
      first, then those inserted by the run), the next id, the table's
      columns, the columns that would survive an abort (those added before
      the run's first insert, which the driver commits at once), and the
      totals. */
  datatype Run = Run(
    people: seq<Person>, nextId: int, cols: set<string>, durable: set<string>,
    count: nat, skipped: nat, reasons: seq<string>)

  ghost predicate RunValid(run: Run) {
    && 1 <= run.nextId
    && IdsAscending(run.people, run.nextId)
    && WellShaped(run.people)
    && ExtrasRegistered(run.people, run.cols)
    && run.durable <= run.cols
    && (run.count == 0 ==> run.durable == run.cols)
    && |run.reasons| == run.skipped
  }

  /** The run as it starts: nothing imported, nothing skipped. */
  function StartRun(people: seq<Person>, nextId: int, cols: set<string>): (r: Run)
    ensures r.people == people && r.nextId == nextId && r.cols == cols
    ensures r.count == 0 && r.skipped == 0 && r.reasons == [] && r.durable == r.cols
  {
    Run(people, nextId, cols, cols, 0, 0, [])
  }

  /** A header mapped to a column: the column joins the table if it is new,
      durably when nothing has been inserted yet. */
  function AddColumn(run: Run, c: string): (r: Run)
    ensures r.cols == run.cols + {c}
  {
    run.(cols := run.cols + {c}, durable := if run.count == 0 then run.cols + {c} else run.durable)
  }

  datatype Mapping =
    | Mapped(pairs: seq<(string, string)>, run: Run)
    | Clash(reason: string, run: Run)

  function TargetPairs(headers: seq<string>): (r: seq<(string, string)>)
    ensures |r| == |headers|
    ensures forall k :: 0 <= k < |headers| ==> r[k] == (headers[k], TargetColumn(headers[k]))
  {
    if headers == [] then [] else [(headers[0], TargetColumn(headers[0]))] + TargetPairs(headers[1..])
  }

  /** The two runs differ at most in their columns. */
  predicate SameRecords(a: Run, b: Run) {
    a.people == b.people && a.nextId == b.nextId && a.count == b.count && a.skipped == b.skipped && a.reasons == b.reasons
  }

  /** The header loop of one sheet, `acc` holding the pairs mapped so far. */
  function MapHeaders(run: Run, acc: seq<(string, string)>, headers: seq<string>): (m: Mapping)
    ensures SameRecords(run, m.run)
    ensures run.cols <= m.run.cols
    ensures m.Mapped? ==> m.pairs == acc + TargetPairs(headers)
    ensures m.Mapped? ==> m.run.cols == run.cols + TargetColumns(headers)
    decreases |headers|
  {
    if headers == [] then Mapped(acc, run)
    else
      var r := MapHeader(run.cols, headers[0]);
      if r.Err? then Clash(r.message, run)
      else MapHeaders(AddColumn(run, r.value), acc + [(headers[0], r.value)], headers[1..])
  }

  /** Columns added before the run's first insert are durable, later ones are not. */
  lemma {:induction false} MapHeadersDurable(run: Run, acc: seq<(string, string)>, headers: seq<string>)
    requires run.durable <= run.cols
    ensures run.durable <= MapHeaders(run, acc, headers).run.durable <= MapHeaders(run, acc, headers).run.cols
    ensures run.count == 0 && run.durable == run.cols ==>
      MapHeaders(run, acc, headers).run.durable == MapHeaders(run, acc, headers).run.cols
    ensures run.count > 0 ==> MapHeaders(run, acc, headers).run.durable == run.durable
    decreases |headers|
  {
    if headers != [] {
      var r := MapHeader(run.cols, headers[0]);
      if r.Ok? {
        MapHeadersDurable(AddColumn(run, r.value), acc + [(headers[0], r.value)], headers[1..]);
      }
    }
  }

  /** Every mapped header's column is a column of the table once the headers are mapped. */
  lemma {:induction false} MapHeadersInto(run: Run, acc: seq<(string, string)>, headers: seq<string>)
    requires PairsInto(acc, run.cols)
    ensures MapHeaders(run, acc, headers).Mapped? ==>
      PairsInto(MapHeaders(run, acc, headers).pairs, MapHeaders(run, acc, headers).run.cols)
    decreases |headers|
  {
    if headers != [] {
      var r := MapHeader(run.cols, headers[0]);
      if r.Ok? {
        var next := AddColumn(run, r.value);
        var pairs := acc + [(headers[0], r.value)];
        assert PairsInto(pairs, next.cols);
        MapHeadersInto(next, pairs, headers[1..]);
      }
    }
  }

  /** The header loop stops only at a header whose `ALTER TABLE` fails on
      the table as it is at that point (the run the loop stopped with), and
      reports that statement's error. */
  lemma {:induction false} MapHeadersClash(run: Run, acc: seq<(string, string)>, headers: seq<string>)
    requires MapHeaders(run, acc, headers).Clash?
    ensures exists h :: h in headers && AlterFails(MapHeaders(run, acc, headers), h)
    decreases |headers|
  {
    var r := MapHeader(run.cols, headers[0]);
    if r.Err? {
      assert AlterFails(MapHeaders(run, acc, headers), headers[0]);
    } else {
      var next := AddColumn(run, r.value);
      MapHeadersClash(next, acc + [(headers[0], r.value)], headers[1..]);
      var h :| h in headers[1..] && AlterFails(MapHeaders(next, acc + [(headers[0], r.value)], headers[1..]), h);
      assert h in headers;
    }
  }

  /** Header `h` has no synonym and its `ALTER TABLE` fails on the columns
      of `m.run` with the error `m` reports. */
  predicate AlterFails(m: Mapping, h: string)
    requires m.Clash?
  {
    && FirstSynonym(h, 0).None?
    && MapHeader(m.run.cols, h).Err?
    && m.reason == MapHeader(m.run.cols, h).message
  }

  // ---------------------------------------------------------------------------
  // Row data

  /** The value a non-missing cell is stored as in column `column`. */
  function Normalise(column: string, v: string): (r: Cell)
    ensures column == "province" ==> r == Text(RemoveAll(Strip(v), '省')) && '省' !in r.text
    ensures column == "city" ==> r == Text(RemoveAll(Strip(v), '市')) && '市' !in r.text
    ensures column == "age" ==> r.Int? && (ParseInt(v).Some? ==> r.number == ParseInt(v).value)
    ensures column == "age" && ParseInt(v).None? ==> r == Int(0)
    ensures column != "province" && column != "city" && column != "age" ==> r == Text(v)
  {
    if column == "province" then Text(RemoveAll(Strip(v), '省'))
    else if column == "city" then Text(RemoveAll(Strip(v), '市'))
    else if column == "age" then Int(match ParseInt(v) case Some(n) => n case None => 0)
    else Text(v)
  }

  /** The row values before the cells are applied: every known column empty,
      no photo, status "在职". */
  function InitialRowData(cols: set<string>): (d: map<string, Cell>)
    ensures d.Keys == Known(cols) + {"photo_path", "status"}
    ensures d["status"] == Text("在职")
    ensures forall c :: c in d && c != "status" ==> d[c] == Text("")
  {
    map c | c in Known(cols) + {"photo_path", "status"} :: if c == "status" then Text("在职") else Text("")
  }

  predicate Present(pair: (string, string), row: map<string, Option<string>>) {
    pair.0 in row && row[pair.0].Some?
  }

  /** One mapped header applied to the row values. */
  function ApplyPair(data: map<string, Cell>, pair: (string, string), row: map<string, Option<string>>): map<string, Cell> {
    if Present(pair, row) then data[pair.1 := Normalise(pair.1, row[pair.0].value)] else data
  }

  /** The mapped headers applied in order, each non-missing cell overriding the value before. */
  function ApplyPairs(data: map<string, Cell>, pairs: seq<(string, string)>, row: map<string, Option<string>>): (r: map<string, Cell>)
    ensures data.Keys <= r.Keys
    ensures forall c :: c in r ==> c in data || exists p :: p in pairs && p.1 == c
    decreases |pairs|
  {
    if pairs == [] then data else ApplyPairs(ApplyPair(data, pairs[0], row), pairs[1..], row)
  }

  /** Reference definition: the value of the last mapped header for `c`
      whose cell is present, if any. */
  function LastPresent(pairs: seq<(string, string)>, row: map<string, Option<string>>, c: string): Option<Cell> {
    if pairs == [] then None
    else match LastPresent(pairs[1..], row, c)
      case Some(v) => Some(v)
      case None =>
        if pairs[0].1 == c && Present(pairs[0], row) then Some(Normalise(c, row[pairs[0].0].value)) else None
  }

  /** Applying the mapped headers gives every column the value of its last
      present cell, and leaves the other columns as they were. */
  lemma {:induction false} ApplyPairsLastPresent(data: map<string, Cell>, pairs: seq<(string, string)>, row: map<string, Option<string>>, c: string)
    ensures LastPresent(pairs, row, c).Some? ==> c in ApplyPairs(data, pairs, row) && ApplyPairs(data, pairs, row)[c] == LastPresent(pairs, row, c).value
    ensures LastPresent(pairs, row, c).None? ==> (c in ApplyPairs(data, pairs, row) <==> c in data)
    ensures LastPresent(pairs, row, c).None? && c in data ==> ApplyPairs(data, pairs, row)[c] == data[c]
    decreases |pairs|
  {
    if pairs != [] {
      ApplyPairsLastPresent(ApplyPair(data, pairs[0], row), pairs[1..], row, c);
    }
  }

  /** In a well-formed sheet every mapped header has a cell in every row,
      so a column keeps its default value only where the cell is missing (NaN). */
  lemma MappedCellsExist(run: Run, headers: seq<string>, rows: seq<map<string, Option<string>>>, row: map<string, Option<string>>)
    requires WellFormedSheet(headers, rows) && row in rows
    requires MapHeaders(run, [], headers).Mapped?
    ensures forall p :: p in MapHeaders(run, [], headers).pairs ==> p.0 in row && (Present(p, row) <==> row[p.0].Some?)
  {
    assert MapHeaders(run, [], headers).pairs == [] + TargetPairs(headers) == TargetPairs(headers);
    HeadersInRow(headers, rows, row);
  }

  lemma HeadersInRow(headers: seq<string>, rows: seq<map<string, Option<string>>>, row: map<string, Option<string>>)
    requires WellFormedSheet(headers, rows) && row in rows
    ensures forall p :: p in TargetPairs(headers) ==> p.0 in row
  {
    var pairs := TargetPairs(headers);
    forall p | p in pairs
      ensures p.0 in row
    {
      var k :| 0 <= k < |pairs| && pairs[k] == p;
      assert p.0 == headers[k];
    }
  }

  /** The values of the row to be inserted. */
  function RowData(cols: set<string>, pairs: seq<(string, string)>, row: map<string, Option<string>>): map<string, Cell> {
    ApplyPairs(InitialRowData(cols), pairs, row)
  }

  function Lookup(data: map<string, Cell>, c: string): Cell {
    if c in data then data[c] else Null
  }

  /** The record an insert of `data` creates: fixed columns by position, the others as extensions. */
  function NewRecord(id: int, data: map<string, Cell>): (p: Person)
    ensures p.id == id && |p.fields| == FieldCount
    ensures forall i :: 0 <= i < FieldCount ==> p.fields[i] == Lookup(data, FixedColumns[i])
    ensures p.extra.Keys == data.Keys - PersonnelColumns
    ensures forall c :: c in p.extra ==> p.extra[c] == data[c]
  {
    Person(id, seq(FieldCount, i requires 0 <= i < FieldCount => Lookup(data, FixedColumns[i])),
           map c | c in data.Keys - PersonnelColumns :: data[c])
  }

  // ---------------------------------------------------------------------------
  // Duplicates

  /** `str(row.get(first, row.get(second, '')))`. */
  function KeyText(row: map<string, Option<string>>, first: string, second: string): (r: string)
    ensures first in row ==> r == ShowCell(row[first])
    ensures first !in row && second in row ==> r == ShowCell(row[second])
    ensures first !in row && second !in row ==> r == ""
  {
    if first in row then ShowCell(row[first]) else if second in row then ShowCell(row[second]) else ""
  }

  function RowName(row: map<string, Option<string>>): string { KeyText(row, "真实姓名", "姓名") }

  function RowPhone(row: map<string, Option<string>>): string { KeyText(row, "手机号", "电话") }

  /** A stored record the duplicate query finds: equal name, and equal phone
      unless the phone is blank. */
  predicate Matches(p: Person, name: string, phone: string) {
    && |p.fields| == FieldCount
    && p.fields[NameField] == Text(name)
    && (Strip(phone) != [] ==> p.fields[PhoneField] == Text(phone))
  }

  predicate HasDuplicate(people: seq<Person>, name: string, phone: string) {
    exists p :: p in people && Matches(p, name, phone)
  }

  /** Python's `phone or '无'`: an empty phone is shown as "无". */
  function PhoneShown(phone: string): (r: string)
    ensures r != []
    ensures phone != "" ==> r == phone
  {
    if phone == "" then "无" else phone
  }

  /** The reason a skipped row is listed with: it names the row's name and
      its phone (or "无"). */
  function SkipReason(name: string, phone: string): (r: string)
    ensures Contains(r, name) && Contains(r, PhoneShown(phone))
  {
    var r := "记录 '" + name + "' (手机号: " + PhoneShown(phone) + ") 已存在";
    ContainsMiddle("记录 '", name, "' (手机号: " + PhoneShown(phone) + ") 已存在");
    assert r == "记录 '" + name + ("' (手机号: " + PhoneShown(phone) + ") 已存在");
    ContainsMiddle("记录 '" + name + "' (手机号: ", PhoneShown(phone), ") 已存在");
    r
  }

  /** The two duplicate queries: with a blank phone only the name is
      compared, so the phone text does not matter; with a phone, a duplicate
      is a same-name record that also has that phone. */
  lemma DuplicateQueries(people: seq<Person>, name: string, phone: string)
    ensures Strip(phone) == [] ==> (HasDuplicate(people, name, phone) <==> HasDuplicate(people, name, ""))
    ensures Strip(phone) != [] ==>
      (HasDuplicate(people, name, phone) <==>
        exists p :: p in people && Matches(p, name, "") && p.fields[PhoneField] == Text(phone))
  {
    assert Strip("") == [];
  }

  /** One row: skipped with a reason when a record matches it, inserted otherwise. */
  function ImportRow(run: Run, pairs: seq<(string, string)>, row: map<string, Option<string>>): (r: Run)
    ensures r.cols == run.cols && r.durable == run.durable
    ensures r.count + r.skipped == run.count + run.skipped + 1
  {
    var name := RowName(row);
    var phone := RowPhone(row);
    if HasDuplicate(run.people, name, phone) then
      run.(skipped := run.skipped + 1, reasons := run.reasons + [SkipReason(name, phone)])
    else
      run.(people := run.people + [NewRecord(run.nextId, RowData(run.cols, pairs, row))],
           nextId := run.nextId + 1, count := run.count + 1)
  }

  predicate PairsInto(pairs: seq<(string, string)>, cols: set<string>) {
    forall p :: p in pairs ==> p.1 in cols
  }

  /** A run stays consistent across a row: ids fresh and ascending, every
      extension value in a known column, one reason per skipped row. */
  lemma ImportRowValid(run: Run, pairs: seq<(string, string)>, row: map<string, Option<string>>)
    requires RunValid(run) && PairsInto(pairs, run.cols)
    ensures RunValid(ImportRow(run, pairs, row))
  {
    if !HasDuplicate(run.people, RowName(row), RowPhone(row)) {
      var p := NewRecord(run.nextId, RowData(run.cols, pairs, row));
      InsertColumns(run.cols, pairs, row);
      PhotoAndStatusFixed();
      AppendAscending(run.people, run.nextId, p);
      AppendRecord(run.people, run.cols, p);
    }
  }

  lemma PhotoAndStatusFixed()
    ensures "photo_path" in PersonnelColumns && "status" in PersonnelColumns
  {
  }

  lemma AppendRecord(people: seq<Person>, cols: set<string>, p: Person)
    requires WellShaped(people) && ExtrasRegistered(people, cols)
    requires |p.fields| == FieldCount && p.extra.Keys <= cols
    ensures WellShaped(people + [p]) && ExtrasRegistered(people + [p], cols)
  {
  }

  /** The row loop of one sheet. */
  function ImportRows(run: Run, pairs: seq<(string, string)>, rows: seq<map<string, Option<string>>>): (r: Run)
    ensures r.cols == run.cols && r.durable == run.durable
    ensures r.count + r.skipped == run.count + run.skipped + |rows|
    ensures run.count <= r.count && run.skipped <= r.skipped
    ensures run.people <= r.people && |r.people| == |run.people| + (r.count - run.count)
    ensures r.nextId == run.nextId + (r.count - run.count)
    ensures run.reasons <= r.reasons && |r.reasons| == |run.reasons| + (r.skipped - run.skipped)
    decreases |rows|
  {
    if rows == [] then run else ImportRows(ImportRow(run, pairs, rows[0]), pairs, rows[1..])
  }

  lemma {:induction false} ImportRowsValid(run: Run, pairs: seq<(string, string)>, rows: seq<map<string, Option<string>>>)
    requires RunValid(run) && PairsInto(pairs, run.cols)
    ensures RunValid(ImportRows(run, pairs, rows))
    decreases |rows|
  {
    if rows != [] {
      ImportRowValid(run, pairs, rows[0]);
      ImportRowsValid(ImportRow(run, pairs, rows[0]), pairs, rows[1..]);
    }
  }

  /** A skipped row is a duplicate of some record, and an inserted row of none. */
  lemma ImportRowSkipsExactlyDuplicates(run: Run, pairs: seq<(string, string)>, row: map<string, Option<string>>)
    ensures var r := ImportRow(run, pairs, row);
      && (r.skipped == run.skipped + 1 <==> HasDuplicate(run.people, RowName(row), RowPhone(row)))
      && (r.skipped == run.skipped + 1 ==> r.reasons == run.reasons + [SkipReason(RowName(row), RowPhone(row))] && r.people == run.people)
      && (r.count == run.count + 1 ==> r.people == run.people + [NewRecord(run.nextId, RowData(run.cols, pairs, row))])
  {
  }

  /** A record that matches stays matched when more rows are inserted: rows
      inserted earlier in the same run are checked like stored ones. */
  lemma DuplicatesPersist(run: Run, pairs: seq<(string, string)>, rows: seq<map<string, Option<string>>>, name: string, phone: string)
    requires HasDuplicate(run.people, name, phone)
    ensures HasDuplicate(ImportRows(run, pairs, rows).people, name, phone)
  {
    var p :| p in run.people && Matches(p, name, phone);
    var r := ImportRows(run, pairs, rows);
    assert r.people[..|run.people|] == run.people;
    assert p in r.people;
  }

  lemma NewRecordKeyFields(id: int, data: map<string, Cell>)
    ensures NewRecord(id, data).fields[NameField] == Lookup(data, "real_name")
    ensures NewRecord(id, data).fields[PhoneField] == Lookup(data, "phone")
  {
    assert FixedColumns[NameField] == "real_name";
    assert FixedColumns[PhoneField] == "phone";
  }

  lemma RowDataValue(cols: set<string>, pairs: seq<(string, string)>, row: map<string, Option<string>>, c: string, v: Cell)
    requires LastPresent(pairs, row, c) == Some(v)
    ensures Lookup(RowData(cols, pairs, row), c) == v
  {
    ApplyPairsLastPresent(InitialRowData(cols), pairs, row, c);
  }

  /** A row inserted with its name and phone mapped to their columns is
      found by the duplicate query for that name and phone. */
  lemma InsertedRowMatches(cols: set<string>, pairs: seq<(string, string)>, row: map<string, Option<string>>, id: int, name: string, phone: string)
    requires LastPresent(pairs, row, "real_name") == Some(Text(name))
    requires LastPresent(pairs, row, "phone") == Some(Text(phone))
    ensures Matches(NewRecord(id, RowData(cols, pairs, row)), name, phone)
  {
    NewRecordKeyFields(id, RowData(cols, pairs, row));
    RowDataValue(cols, pairs, row, "real_name", Text(name));
    RowDataValue(cols, pairs, row, "phone", Text(phone));
  }

  /** Two copies of the same row in one sheet with a name and a phone: the
      first is inserted and the second is skipped as its duplicate. */
  lemma SameRowTwice(run: Run, name: string, phone: string)
    requires !HasDuplicate(run.people, name, phone)
    ensures var pairs := [("姓名", "real_name"), ("手机号", "phone")];
      var row := map["姓名" := Some(name), "手机号" := Some(phone)];
      var r := ImportRows(run, pairs, [row, row]);
      r.count == run.count + 1 && r.skipped == run.skipped + 1
      && r.reasons == run.reasons + [SkipReason(name, phone)]
  {
    var pairs := [("姓名", "real_name"), ("手机号", "phone")];
    var row := map["姓名" := Some(name), "手机号" := Some(phone)];
    assert RowName(row) == name && RowPhone(row) == phone;
    assert pairs[1..] == [("手机号", "phone")] && pairs[1..][1..] == [];
    assert LastPresent(pairs[1..], row, "real_name") == None;
    assert Present(pairs[0], row) && Present(pairs[1], row);
    assert Normalise("real_name", name) == Text(name);
    assert Normalise("phone", phone) == Text(phone);
    assert LastPresent(pairs[1..], row, "phone") == Some(Text(phone));
    assert LastPresent(pairs, row, "real_name") == Some(Text(name));
    assert LastPresent(pairs, row, "phone") == Some(Text(phone));
    InsertedRowMatches(run.cols, pairs, row, run.nextId, name, phone);
    var once := ImportRow(run, pairs, row);
    assert once.people == run.people + [NewRecord(run.nextId, RowData(run.cols, pairs, row))];
    assert HasDuplicate(once.people, name, phone) by {
      assert NewRecord(run.nextId, RowData(run.cols, pairs, row)) in once.people;
    }
    var twice := ImportRow(once, pairs, row);
    assert ImportRows(run, pairs, [row, row]) == ImportRows(once, pairs, [row]);
    assert ImportRows(once, pairs, [row]) == ImportRows(twice, pairs, []);
  }

  // ---------------------------------------------------------------------------
  // The INSERT statement of a row

  /** A character that may begin an unquoted SQLite name: a letter, `_` or
      any character outside ASCII. */
  predicate IdStart(c: char) {
    'A' <= c <= 'Z' || 'a' <= c <= 'z' || c == '_' || c >= '\U{80}'
  }

  /** A character that may continue an unquoted SQLite name. */
  predicate IdChar(c: char) {
    IdStart(c) || IsDigit(c) || c == '$'
  }

  /** A name SQLite reads as one identifier when it is written without quotes. */
  predicate BareName(s: string) {
    s != [] && IdStart(s[0]) && forall i :: 1 <= i < |s| ==> IdChar(s[i])
  }

  predicate BareNames(cols: set<string>) {
    forall c :: c in cols ==> BareName(c)
  }

  /** The row is not a duplicate, so its `INSERT` runs, and the statement's
      column list (the row's keys, written without quotes) does not parse. */
  predicate InsertFails(run: Run, pairs: seq<(string, string)>, row: map<string, Option<string>>) {
    !HasDuplicate(run.people, RowName(row), RowPhone(row)) && !BareNames(RowData(run.cols, pairs, row).Keys)
  }

  /** One row of the loop, with the failure of its `INSERT`. */
  function RowStep(run: Run, pairs: seq<(string, string)>, row: map<string, Option<string>>): (s: Step)
    ensures s.Abort? <==> InsertFails(run, pairs, row)
    ensures s.Abort? ==> s.reason == SyntaxError && s.run == run
    ensures s.Continue? ==> s.run == ImportRow(run, pairs, row)
  {
    if InsertFails(run, pairs, row) then Abort(SyntaxError, run) else Continue(ImportRow(run, pairs, row))
  }

  /** A row that is not a duplicate fails exactly when its column list is
      not bare, and is otherwise appended with the next id. */
  lemma InsertOutcome(run: Run, pairs: seq<(string, string)>, row: map<string, Option<string>>)
    requires !HasDuplicate(run.people, RowName(row), RowPhone(row))
    ensures !BareNames(RowData(run.cols, pairs, row).Keys) ==> RowStep(run, pairs, row) == Abort(SyntaxError, run)
    ensures BareNames(RowData(run.cols, pairs, row).Keys) ==> RowStep(run, pairs, row) == Continue(Inserted(run, pairs, row))
  {
    InsertedRow(run, pairs, row);
  }

  /** The run after the `INSERT` of `row`. */
  function Inserted(run: Run, pairs: seq<(string, string)>, row: map<string, Option<string>>): Run {
    run.(people := run.people + [NewRecord(run.nextId, RowData(run.cols, pairs, row))],
         nextId := run.nextId + 1, count := run.count + 1)
  }

  lemma InsertedRow(run: Run, pairs: seq<(string, string)>, row: map<string, Option<string>>)
    requires !HasDuplicate(run.people, RowName(row), RowPhone(row))
    ensures ImportRow(run, pairs, row) == Inserted(run, pairs, row)
  {
  }

  /** The row loop of one sheet, stopping at the first `INSERT` that fails. */
  function SheetRows(run: Run, pairs: seq<(string, string)>, rows: seq<map<string, Option<string>>>): (s: Step)
    ensures s.run.cols == run.cols && s.run.durable == run.durable
    ensures run.count <= s.run.count && run.skipped <= s.run.skipped
    ensures run.people <= s.run.people && |s.run.people| == |run.people| + (s.run.count - run.count)
    ensures s.run.nextId == run.nextId + (s.run.count - run.count)
    ensures run.reasons <= s.run.reasons && |s.run.reasons| == |run.reasons| + (s.run.skipped - run.skipped)
    ensures s.Continue? ==> s.run == ImportRows(run, pairs, rows)
    ensures s.Abort? ==> s.reason == SyntaxError
    decreases |rows|
  {
    if rows == [] then Continue(run)
    else
      var step := RowStep(run, pairs, rows[0]);
      if step.Abort? then step else SheetRows(step.run, pairs, rows[1..])
  }

  lemma {:induction false} SheetRowsValid(run: Run, pairs: seq<(string, string)>, rows: seq<map<string, Option<string>>>)
    requires RunValid(run) && PairsInto(pairs, run.cols)
    ensures RunValid(SheetRows(run, pairs, rows).run)
    decreases |rows|
  {
    if rows != [] && !InsertFails(run, pairs, rows[0]) {
      ImportRowValid(run, pairs, rows[0]);
      SheetRowsValid(ImportRow(run, pairs, rows[0]), pairs, rows[1..]);
    }
  }

  lemma FixedNamesBare()
    ensures BareName("id") && BareName("photo_path") && BareName("status")
  {
    assert IdStart('i') && IdStart('p') && IdStart('s');
  }

  /** The columns an `INSERT` names: every known column, the photo and
      status columns, and the mapped columns of its present cells. */
  lemma InsertColumns(cols: set<string>, pairs: seq<(string, string)>, row: map<string, Option<string>>)
    requires PairsInto(pairs, cols)
    ensures Known(cols) <= RowData(cols, pairs, row).Keys <= cols + {"photo_path", "status"}
  {
  }

  /** While every column of the table has a bare name, no `INSERT` fails
      and a sheet's rows are imported as the infallible loop imports them. */
  lemma {:induction false} BareColumnsNeverFail(run: Run, pairs: seq<(string, string)>, rows: seq<map<string, Option<string>>>)
    requires BareNames(run.cols) && PairsInto(pairs, run.cols)
    ensures SheetRows(run, pairs, rows) == Continue(ImportRows(run, pairs, rows))
    decreases |rows|
  {
    if rows != [] {
      InsertColumns(run.cols, pairs, rows[0]);
      FixedNamesBare();
      assert !InsertFails(run, pairs, rows[0]);
      BareColumnsNeverFail(ImportRow(run, pairs, rows[0]), pairs, rows[1..]);
    }
  }

  /** Once a known column has a name that is not bare, a sheet fails exactly
      when it would insert a row: all its rows are duplicates or none is imported. */
  lemma {:induction false} NonBareColumnBlocksInsert(run: Run, pairs: seq<(string, string)>, rows: seq<map<string, Option<string>>>)
    requires !BareNames(Known(run.cols)) && PairsInto(pairs, run.cols)
    ensures SheetRows(run, pairs, rows).Abort? <==> ImportRows(run, pairs, rows).count > run.count
    decreases |rows|
  {
    if rows != [] {
      InsertColumns(run.cols, pairs, rows[0]);
      if !HasDuplicate(run.people, RowName(rows[0]), RowPhone(rows[0])) {
        assert InsertFails(run, pairs, rows[0]);
        assert ImportRow(run, pairs, rows[0]).count == run.count + 1;
      } else {
        NonBareColumnBlocksInsert(ImportRow(run, pairs, rows[0]), pairs, rows[1..]);
      }
    }
  }

  lemma {:induction false} TargetColumnsHas(headers: seq<string>, h: string)
    requires h in headers
    ensures TargetColumn(h) in TargetColumns(headers)
    decreases |headers|
  {
    if headers[0] != h {
      TargetColumnsHas(headers[1..], h);
    }
  }

  /** A header with no synonym that the header loop maps gets its own column. */
  lemma {:induction false} MapHeadersAddsUnmapped(run: Run, acc: seq<(string, string)>, headers: seq<string>, h: string)
    requires h in headers && FirstSynonym(h, 0).None?
    requires MapHeaders(run, acc, headers).Mapped?
    ensures Sanitize(h) in MapHeaders(run, acc, headers).run.cols
    decreases |headers|
  {
    var r := MapHeader(run.cols, headers[0]);
    var next := AddColumn(run, r.value);
    if headers[0] != h {
      MapHeadersAddsUnmapped(next, acc + [(headers[0], r.value)], headers[1..], h);
    }
  }

  /** Mapping a header with no synonym and a name that is not bare leaves
      the table with a known column whose name is not bare. */
  lemma UnmappedColumnNotBare(run: Run, headers: seq<string>, h: string)
    requires h in headers && FirstSynonym(h, 0).None? && !BareName(Sanitize(h))
    requires MapHeaders(run, [], headers).Mapped?
    ensures !BareNames(Known(MapHeaders(run, [], headers).run.cols))
  {
    MapHeadersAddsUnmapped(run, [], headers, h);
    NotBareIsKnown(MapHeaders(run, [], headers).run.cols, Sanitize(h));
  }

  lemma NotBareIsKnown(cols: set<string>, c: string)
    requires c in cols && !BareName(c)
    ensures !BareNames(Known(cols))
  {
    FixedNamesBare();
    assert c in Known(cols);
  }

  /** A sheet with a header that has no synonym and whose column name is not
      bare: once its headers are mapped, the first row that is not a
      duplicate fails to insert, and the run stops there. */
  lemma NonBareHeaderAborts(run: Run, headers: seq<string>, rows: seq<map<string, Option<string>>>, more: seq<Source>, h: string)
    requires h in headers && FirstSynonym(h, 0).None? && !BareName(Sanitize(h))
    requires MapHeaders(run, [], headers).Mapped?
    requires rows != [] && !HasDuplicate(MapHeaders(run, [], headers).run.people, RowName(rows[0]), RowPhone(rows[0]))
    ensures ImportSources(run, [Sheet(headers, rows)] + more) == Abort(SyntaxError, MapHeaders(run, [], headers).run)
  {
    var m := MapHeaders(run, [], headers);
    UnmappedColumnNotBare(run, headers, h);
    MapHeadersInto(run, [], headers);
    InsertColumns(m.run.cols, m.pairs, rows[0]);
    assert InsertFails(m.run, m.pairs, rows[0]);
    assert SheetRows(m.run, m.pairs, rows) == Abort(SyntaxError, m.run);
    assert ([Sheet(headers, rows)] + more)[0] == Sheet(headers, rows);
  }

  /** Every synonym begins with a character outside ASCII. */
  lemma SynonymsStartWide()
    ensures forall k :: 0 <= k < |Synonyms| ==> Synonyms[k].0 != [] && Synonyms[k].0[0] >= '\U{80}'
  {
  }

  lemma WideKeyAbsent(h: string, key: string)
    requires AsciiText(h)
    requires key != [] && key[0] >= '\U{80}'
    ensures !Contains(h, key)
  {
    forall i
      ensures !OccursAt(h, key, i)
    {
      if 0 <= i <= |h| - |key| {
        assert h[i..i + |key|][0] == h[i];
      }
    }
    ContainsOccurs(h, key);
  }

  /** A header written in ASCII contains no synonym. */
  lemma AsciiHeaderUnmapped(h: string, from: nat)
    requires from <= |Synonyms|
    requires AsciiText(h)
    ensures FirstSynonym(h, from).None?
  {
    NoKeyInAscii(h);
    NoKeyNoSynonym(h, from);
  }

  lemma NoKeyNoSynonym(h: string, from: nat)
    requires from <= |Synonyms|
    requires forall k :: from <= k < |Synonyms| ==> !KeyIn(h, k)
    ensures FirstSynonym(h, from).None?
  {
  }

  lemma NoKeyInAscii(h: string)
    requires AsciiText(h)
    ensures forall k :: 0 <= k < |Synonyms| ==> !KeyIn(h, k)
  {
    SynonymsStartWide();
    forall k | 0 <= k < |Synonyms|
      ensures !KeyIn(h, k)
    {
      WideKeyAbsent(h, Synonyms[k].0);
    }
  }

  predicate AsciiText(h: string) {
    forall i :: 0 <= i < |h| ==> h[i] < '\U{80}'
  }

  /** A sheet with a single ASCII header whose name is not bare, and one row
      with a cell for it: the column is added, but the row's `INSERT` cannot
      be parsed, so the import fails; the new column stays when nothing had
      been inserted before. */
  lemma AsciiHeaderAborts(run: Run, h: string, v: string)
    requires AsciiText(h) && !BareName(Sanitize(h)) && '\'' !in Sanitize(h)
    requires !Clashes(run.cols, Sanitize(h)) && !HasDuplicate(run.people, "", "")
    ensures var s := ImportSources(run, [Sheet([h], [map[h := Some(v)]])]);
      && s == Abort(SyntaxError, AddColumn(run, Sanitize(h)))
      && (run.count == 0 ==> Sanitize(h) in s.run.durable)
  {
    AsciiHeaderUnmapped(h, 0);
    UnmappedHeaderAdded(run.cols, h);
    OneHeader(run, h);
    var row := map[h := Some(v)];
    AsciiKeysAbsent(h);
    NonBareHeaderAborts(run, [h], [row], [], h);
    assert [Sheet([h], [row])] + [] == [Sheet([h], [row])];
  }

  /** A header with no synonym, no quote and no clash is mapped to a new column. */
  lemma UnmappedHeaderAdded(cols: set<string>, h: string)
    requires FirstSynonym(h, 0).None? && '\'' !in Sanitize(h) && !Clashes(cols, Sanitize(h))
    ensures MapHeader(cols, h) == Ok(Sanitize(h))
  {
  }

  lemma OneHeader(run: Run, h: string)
    requires MapHeader(run.cols, h).Ok?
    ensures var c := MapHeader(run.cols, h).value;
      MapHeaders(run, [], [h]) == Mapped([(h, c)], AddColumn(run, c))
  {
    var c := MapHeader(run.cols, h).value;
    assert [h][1..] == [];
    assert MapHeaders(run, [], [h]) == MapHeaders(AddColumn(run, c), [] + [(h, c)], []);
  }

  /** The name and phone headers are not ASCII. */
  lemma AsciiKeysAbsent(h: string)
    requires AsciiText(h)
    ensures h != "真实姓名" && h != "姓名" && h != "手机号" && h != "电话"
  {
    if h != [] {
      assert h[0] < '\U{80}';
    }
  }

  /** The header "E-mail" is ASCII and has no quote in it. */
  lemma EmailHeader()
    ensures AsciiText("E-mail") && '\'' !in "E-mail"
  {
  }

  /** "E-mail" is its own column name. */
  lemma EmailSanitized()
    ensures Sanitize("E-mail") == "E-mail"
  {
    var e := "E-mail";
    assert e == ['E', '-', 'm', 'a', 'i', 'l'];
    SanitizeKeeps(e);
  }

  /** Its dash keeps "E-mail" from being a bare name. */
  lemma EmailNotBare()
    ensures !BareName("E-mail")
  {
    NotBareAt("E-mail", 1);
  }

  /** A header without spaces or slashes is its own column name. */
  lemma SanitizeKeeps(h: string)
    requires ' ' !in h && '/' !in h
    ensures Sanitize(h) == h
  {
    assert forall i :: 0 <= i < |h| ==> Sanitize(h)[i] == h[i];
  }

  lemma NotBareAt(s: string, i: nat)
    requires 1 <= i < |s| && !IdChar(s[i])
    ensures !BareName(s)
  {
  }

  // ---------------------------------------------------------------------------
  // A whole run over several files

  datatype Step =
    | Continue(run: Run)
      /** The run stopped on an error; `run` is the state it had reached. */
    | Abort(reason: string, run: Run)

  function TotalRows(sources: seq<Source>): nat {
    if sources == [] then 0
    else (if sources[0].Sheet? then |sources[0].rows| else 0) + TotalRows(sources[1..])
  }

  /** The file loop: each sheet's headers are mapped, then its rows imported. */
  function ImportSources(run: Run, sources: seq<Source>): (s: Step)
    ensures run.cols <= s.run.cols
    ensures run.people <= s.run.people && |s.run.people| == |run.people| + (s.run.count - run.count)
    ensures s.run.nextId == run.nextId + (s.run.count - run.count)
    ensures run.count <= s.run.count && run.skipped <= s.run.skipped
    ensures run.reasons <= s.run.reasons && |s.run.reasons| == |run.reasons| + (s.run.skipped - run.skipped)
    ensures s.Continue? ==> s.run.count + s.run.skipped == run.count + run.skipped + TotalRows(sources)
    decreases |sources|
  {
    if sources == [] then Continue(run)
    else match sources[0]
      case Unreadable(reason) => Abort(reason, run)
      case Sheet(headers, rows) =>
        match MapHeaders(run, [], headers)
        case Clash(reason, r) => Abort(reason, r)
        case Mapped(pairs, r) =>
          match SheetRows(r, pairs, rows)
          case Abort(reason, r') => Abort(reason, r')
          case Continue(r') => ImportSources(r', sources[1..])
  }

  /** Mapping a sheet's headers keeps a run consistent, never loses a durable
      column, and maps every header into a column of the table. */
  lemma MapHeadersValid(run: Run, headers: seq<string>)
    requires RunValid(run)
    ensures RunValid(MapHeaders(run, [], headers).run)
    ensures run.durable <= MapHeaders(run, [], headers).run.durable
    ensures MapHeaders(run, [], headers).Mapped? ==>
      PairsInto(MapHeaders(run, [], headers).pairs, MapHeaders(run, [], headers).run.cols)
  {
    var m := MapHeaders(run, [], headers);
    MapHeadersDurable(run, [], headers);
    assert ExtrasRegistered(m.run.people, m.run.cols);
    MapHeadersInto(run, [], headers);
  }

  lemma {:induction false} ImportSourcesValid(run: Run, sources: seq<Source>)
    requires RunValid(run)
    ensures RunValid(ImportSources(run, sources).run)
    ensures run.durable <= ImportSources(run, sources).run.durable
    decreases |sources|
  {
    if sources != [] && sources[0].Sheet? {
      var m := MapHeaders(run, [], sources[0].headers);
      MapHeadersValid(run, sources[0].headers);
      if m.Mapped? {
        var sheet := SheetRows(m.run, m.pairs, sources[0].rows);
        SheetRowsValid(m.run, m.pairs, sources[0].rows);
        if sheet.Continue? {
          ImportSourcesValid(sheet.run, sources[1..]);
        }
      }
    }
  }

  // ---------------------------------------------------------------------------
  // The outcome shown to the user

  /** The skip reasons the summary lists: the first five. */
  function ShownReasons(reasons: seq<string>): (r: seq<string>)
    ensures |r| == Min(5, |reasons|) && r <= reasons
  {
    if |reasons| <= 5 then reasons else reasons[..5]
  }

  /** The summary: the count of imported rows, then, when rows were
      skipped, their count and the first five reasons. */
  function ImportMessage(count: nat, skipped: nat, reasons: seq<string>): (r: string)
    ensures CountLine(count) <= r
    ensures r == CountLine(count) <==> skipped == 0
  {
    CountLine(count)
      + (if skipped > 0 then "\n跳过了 " + IntToString(skipped) + " 条数据，原因如下：\n" + Join("\n", ShownReasons(reasons)) else "")
  }

  function CountLine(count: nat): string {
    "成功导入 " + IntToString(count) + " 条数据"
  }

  /** When rows were skipped, each of the first five reasons appears in the summary. */
  lemma MessageListsReasons(count: nat, skipped: nat, reasons: seq<string>, k: nat)
    requires skipped > 0 && k < 5 && k < |reasons|
    ensures Contains(ImportMessage(count, skipped, reasons), reasons[k])
  {
    var shown := ShownReasons(reasons);
    assert shown[k] == reasons[k];
    MessageEndsWithReasons(count, skipped, reasons);
    JoinContains("\n", shown, k);
    ContainsInSuffix(SkipHeader(count, skipped), Join("\n", shown), reasons[k]);
  }

  /** The summary's text up to the list of reasons. */
  function SkipHeader(count: nat, skipped: nat): string {
    CountLine(count) + "\n跳过了 " + IntToString(skipped) + " 条数据，原因如下：\n"
  }

  lemma MessageEndsWithReasons(count: nat, skipped: nat, reasons: seq<string>)
    requires skipped > 0
    ensures ImportMessage(count, skipped, reasons) == SkipHeader(count, skipped) + Join("\n", ShownReasons(reasons))
  {
    var tail := "\n跳过了 " + IntToString(skipped) + " 条数据，原因如下：\n";
    assert ImportMessage(count, skipped, reasons) == CountLine(count) + (tail + Join("\n", ShownReasons(reasons)));
  }

  /** The target text of the run's single log entry. */
  function ImportLogTarget(count: nat, skipped: nat): string {
    "导入了" + IntToString(count) + "条数据，跳过了" + IntToString(skipped) + "条"
  }

  /** The log entry's text records both totals: different totals give different texts. */
  lemma ImportLogTargetInjective(c1: nat, s1: nat, c2: nat, s2: nat)
    requires ImportLogTarget(c1, s1) == ImportLogTarget(c2, s2)
    ensures c1 == c2 && s1 == s2
  {
    var mid, tail := "条数据，跳过了", "条";
    assert !IsDigit(mid[0]) && !IsDigit(tail[0]);
    assert IntToString(c1) == NatToString(c1) && IntToString(c2) == NatToString(c2);
    assert IntToString(s1) == NatToString(s1) && IntToString(s2) == NatToString(s2);
    TwoNumbers("导入了", NatToString(c1), mid, NatToString(s1), tail, NatToString(c2), NatToString(s2));
    NatToStringInjective(c1, c2);
    NatToStringInjective(s1, s2);
  }

  /** Two digit runs, each followed by text that starts with a non-digit,
      are read back from the text they are written into. */
  lemma TwoNumbers(head: string, d1: string, mid: string, e1: string, tail: string, d2: string, e2: string)
    requires AllDigits(d1) && AllDigits(d2) && AllDigits(e1) && AllDigits(e2)
    requires mid != [] && !IsDigit(mid[0]) && tail != [] && !IsDigit(tail[0])
    requires head + d1 + mid + e1 + tail == head + d2 + mid + e2 + tail
    ensures d1 == d2 && e1 == e2
  {
    var x1, x2 := head + d1 + mid + e1 + tail, head + d2 + mid + e2 + tail;
    assert x1[|head|..] == d1 + (mid + e1 + tail);
    assert x2[|head|..] == d2 + (mid + e2 + tail);
    DigitsSplit(d1, mid + e1 + tail, d2, mid + e2 + tail);
    assert (mid + e1 + tail)[|mid|..] == e1 + tail;
    assert (mid + e2 + tail)[|mid|..] == e2 + tail;
    DigitsSplit(e1, tail, e2, tail);
  }

  const ImportFailedPrefix := "导入失败："
}
