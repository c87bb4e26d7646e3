/** The read-only views of the store: the province and city lists behind
    the division selector (`load_admin_data`), the spreadsheet export of
    the records (`export_data`) and of the talent pool (`export_talent_pool`).
    A query without ORDER BY returns rows in the order they are stored
    (ascending id), and the model uses that order. */
module Projection {
  import opened Common
  import opened Storage

  /** The text of a TEXT column: NULL has none; an integer bound to such a
      column is stored as its decimal text. */
  function CellText(c: Cell): Option<string> {
    match c
    case Null => None
    case Text(s) => Some(s)
    case Int(n) => Some(IntToString(n))
  }

  /** The text of a column that `IS NOT NULL AND != ''`. */
  function NonEmptyText(c: Cell): (r: Option<string>)
    ensures r.Some? ==> r.value != [] && CellText(c) == r
    ensures r.None? ==> CellText(c).None? || CellText(c) == Some("")
  {
    match CellText(c)
    case Some(s) => if s == "" then None else Some(s)
    case None => None
  }

  // ---------------------------------------------------------------------------
  // Python's ordering of strings: by code point, a proper prefix first

  predicate Below(a: string, b: string)
    decreases |a|
  {
    if a == [] then b != []
    else if b == [] then false
    else if a[0] != b[0] then a[0] < b[0]
    else Below(a[1..], b[1..])
  }

  lemma {:induction false} BelowIrreflexive(a: string)
    ensures !Below(a, a)
    decreases |a|
  {
    if a != [] {
      BelowIrreflexive(a[1..]);
    }
  }

  lemma {:induction false} BelowTransitive(a: string, b: string, c: string)
    requires Below(a, b) && Below(b, c)
    ensures Below(a, c)
    decreases |a|
  {
    if a != [] && a[0] == b[0] && b[0] == c[0] {
      BelowTransitive(a[1..], b[1..], c[1..]);
    }
  }

  lemma {:induction false} BelowTotal(a: string, b: string)
    requires a != b
    ensures Below(a, b) || Below(b, a)
    decreases |a|
  {
    if a != [] && b != [] && a[0] == b[0] {
      assert a == [a[0]] + a[1..] && b == [b[0]] + b[1..];
      BelowTotal(a[1..], b[1..]);
    }
  }

  /** `sorted()` of a set: ascending without repetitions. */
  predicate StrictlySorted(xs: seq<string>) {
    forall i, j :: 0 <= i < j < |xs| ==> Below(xs[i], xs[j])
  }

  lemma PrependSorted(h: string, t: seq<string>)
    requires StrictlySorted(t)
    requires forall y :: y in t ==> Below(h, y)
    ensures StrictlySorted([h] + t)
  {
    var s := [h] + t;
    forall i, j | 0 <= i < j < |s| ensures Below(s[i], s[j]) {
      if i == 0 {
        assert s[j] in t;
      } else {
        assert s[i] == t[i - 1] && s[j] == t[j - 1];
      }
    }
  }

  lemma BelowAllOf(x: string, xs: seq<string>)
    requires StrictlySorted(xs) && xs != [] && Below(x, xs[0])
    ensures forall y :: y in xs ==> Below(x, y)
  {
    forall y | y in xs ensures Below(x, y) {
      var j :| 0 <= j < |xs| && xs[j] == y;
      if j > 0 {
        BelowTransitive(x, xs[0], y);
      }
    }
  }

  /** `x` added to a sorted list of distinct strings. */
  function InsertSorted(xs: seq<string>, x: string): (r: seq<string>)
    requires StrictlySorted(xs)
    ensures StrictlySorted(r)
    ensures forall y :: y in r <==> y in xs || y == x
    decreases |xs|
  {
    if xs == [] then [x]
    else if x == xs[0] then xs
    else if Below(x, xs[0]) then
      BelowAllOf(x, xs);
      PrependSorted(x, xs);
      [x] + xs
    else
      BelowTotal(x, xs[0]);
      var rest := InsertSorted(xs[1..], x);
      HeadBelowRest(xs, x, rest);
      [xs[0]] + rest
  }

  lemma HeadBelowRest(xs: seq<string>, x: string, rest: seq<string>)
    requires StrictlySorted(xs) && xs != [] && Below(xs[0], x)
    requires StrictlySorted(rest)
    requires forall y :: y in rest <==> y in xs[1..] || y == x
    ensures StrictlySorted([xs[0]] + rest)
  {
    forall y | y in rest ensures Below(xs[0], y) {
      if y != x {
        var j :| 0 <= j < |xs[1..]| && xs[1..][j] == y;
        assert xs[j + 1] == y;
      }
    }
    PrependSorted(xs[0], rest);
  }

  // ---------------------------------------------------------------------------
  // load_admin_data

  /** The province of a record as the division list shows it: "省" removed. */
  function ProvinceKey(p: Person): Option<string> {
    if |p.fields| != FieldCount then None
    else match NonEmptyText(p.fields[ProvinceField])
      case Some(s) => Some(RemoveAll(s, '省'))
      case None => None
  }

  /** The city of a record as the list shows it, when its stored province is exactly `province`. */
  function CityKey(p: Person, province: string): Option<string> {
    if |p.fields| != FieldCount || CellText(p.fields[ProvinceField]) != Some(province) then None
    else match NonEmptyText(p.fields[CityField])
      case Some(s) => Some(RemoveAll(s, '市'))
      case None => None
  }

  /** The distinct provinces of the records. */
  function ProvinceNames(people: seq<Person>): set<string> {
    if people == [] then {}
    else
      ProvinceNames(people[..|people| - 1])
        + (match ProvinceKey(people[|people| - 1]) case Some(s) => {s} case None => {})
  }

  /** The distinct cities listed under `province`. The query compares the
      stored province with the name after "省" was removed from it. */
  function CityNames(people: seq<Person>, province: string): set<string> {
    if people == [] then {}
    else
      CityNames(people[..|people| - 1], province)
        + (match CityKey(people[|people| - 1], province) case Some(s) => {s} case None => {})
  }

  lemma {:induction false} ProvinceNamesSpec(people: seq<Person>, s: string)
    ensures s in ProvinceNames(people) <==> exists p :: p in people && ProvinceKey(p) == Some(s)
  {
    if people != [] {
      var init := people[..|people| - 1];
      ProvinceNamesSpec(init, s);
      assert people == init + [people[|people| - 1]];
      assert forall p :: p in people <==> p in init || p == people[|people| - 1];
    }
  }

  /** A record whose province is stored with its "省" suffix lists no city:
      its province appears without the suffix, but the city query compares
      the stored name with the shortened one. */
  lemma SuffixedProvinceLosesCities(p: Person, province: string)
    requires |p.fields| == FieldCount && '省' !in province
    requires p.fields[ProvinceField] == Text(province + "省")
    ensures ProvinceNames([p]) == {province} && CityNames([p], province) == {}
  {
    SuffixedProvinceKeys(p, province);
    assert [p][..0] == [];
  }

  lemma SuffixedProvinceKeys(p: Person, province: string)
    requires |p.fields| == FieldCount && '省' !in province
    requires p.fields[ProvinceField] == Text(province + "省")
    ensures ProvinceKey(p) == Some(province) && CityKey(p, province) == None
  {
    var stored := province + "省";
    RemoveAllAppend(province, "省", '省');
    RemoveAllAbsent(province, '省');
    assert "省"[0] == '省' && "省"[1..] == [];
    assert RemoveAll("省", '省') == [];
    assert RemoveAll(stored, '省') == province + [] == province;
    assert NonEmptyText(p.fields[ProvinceField]) == Some(stored) by { assert |stored| > 0; }
    assert |stored| != |province|;
  }

  // ---------------------------------------------------------------------------
  // export_data

  /** The fixed columns the export keeps (all but `county` and `photo_path`), in order. */
  const ExportFields: seq<nat> := [0, 1, 2, 3, 4, 5, 6, 8, 9, 10, 11, 12, 13, 14, 15, 16, 17]

  /** The column names the export shows for them. */
  const ExportLabels: seq<string> := [
    "真实姓名", "性别", "年龄", "身份证号", "手机号", "省份", "城市", "昵称", "学历",
    "政治面貌", "个人职业", "分会职务", "在职状态", "加入组织时间", "跟捐天数", "家庭住址", "个人简历"
  ]

  const NoDataMessage := "未查询到符合条件的数据，请检查选择的分会信息！"
  const AllChoice := "全部"

  datatype Export =
    | Exported(labels: seq<string>, rows: seq<seq<Cell>>, filename: string)
    | NoData(message: string)

  /** The suggested file name of an export. */
  function DefaultFilename(exportType: string, province: string, city: string): (r: string)
    ensures exportType != "division" ==> r == "全部数据管理层名单"
    ensures exportType == "division" && province == AllChoice && city == AllChoice ==> r == "管理层名单"
    ensures exportType == "division" && province != AllChoice && city == AllChoice ==> r == province + "分会管理层名单"
    ensures exportType == "division" && province == AllChoice && city != AllChoice ==> r == city + "分会管理层名单"
    ensures exportType == "division" && province != AllChoice && city != AllChoice ==> r == province + "分会" + city + "分会管理层名单"
  {
    if exportType == "division" then
      (if province != AllChoice then province + "分会" else "")
        + (if city != AllChoice then city + "分会" else "")
        + "管理层名单"
    else "全部数据管理层名单"
  }

  /** The record satisfies the export's query. */
  predicate InScope(p: Person, exportType: string, province: string, city: string)
    requires |p.fields| == FieldCount
  {
    exportType != "division"
      || ((province == AllChoice || CellText(p.fields[ProvinceField]) == Some(province))
          && (city == AllChoice || CellText(p.fields[CityField]) == Some(city)))
  }

  function Selected(people: seq<Person>, exportType: string, province: string, city: string): (r: seq<Person>)
    requires WellShaped(people)
    ensures WellShaped(r) && |r| <= |people|
    ensures forall p :: p in r <==> p in people && InScope(p, exportType, province, city)
  {
    if people == [] then []
    else
      (if InScope(people[0], exportType, province, city) then [people[0]] else [])
        + Selected(people[1..], exportType, province, city)
  }

  /** A division export with both choices "全部" has no condition and keeps every record. */
  lemma {:induction false} DivisionWithoutChoiceSelectsEverything(people: seq<Person>)
    requires WellShaped(people)
    ensures Selected(people, "division", AllChoice, AllChoice) == people
  {
    if people != [] {
      DivisionWithoutChoiceSelectsEverything(people[1..]);
      assert people == [people[0]] + people[1..];
    }
  }

  /** The two conditions are joined with AND: selecting by province and city
      is selecting by province, then by city among those records. */
  lemma {:induction false} ConditionsCompose(people: seq<Person>, province: string, city: string)
    requires WellShaped(people)
    ensures var byProvince := Selected(people, "division", province, AllChoice);
      Selected(people, "division", province, city) == Selected(byProvince, "division", AllChoice, city)
  {
    if people != [] {
      ConditionsCompose(people[1..], province, city);
      var p := people[0];
      var rest := Selected(people[1..], "division", province, AllChoice);
      assert InScope(p, "division", province, city) <==>
        InScope(p, "division", province, AllChoice) && InScope(p, "division", AllChoice, city);
      if InScope(p, "division", province, AllChoice) {
        var byProvince := [p] + rest;
        assert Selected(people, "division", province, AllChoice) == byProvince;
        assert byProvince[0] == p && byProvince[1..] == rest;
        assert Selected(byProvince, "division", AllChoice, city)
          == (if InScope(p, "division", AllChoice, city) then [p] else []) + Selected(rest, "division", AllChoice, city);
      } else {
        assert Selected(people, "division", province, AllChoice) == rest;
      }
    }
  }

  /** A record's row in the export: the kept columns in order. */
  function ExportRow(p: Person): (row: seq<Cell>)
    requires |p.fields| == FieldCount
    ensures |row| == |ExportLabels|
    ensures forall k :: 0 <= k < |row| ==> row[k] == p.fields[ExportFields[k]]
  {
    seq(|ExportFields|, k requires 0 <= k < |ExportFields| => p.fields[ExportFields[k]])
  }

  /** `export_data`: the selected records with the 17 columns renamed, or "no data". */
  function ExportData(people: seq<Person>, exportType: string, province: string, city: string): (r: Export)
    requires WellShaped(people)
    ensures r.NoData? <==> forall p :: p in people ==> !InScope(p, exportType, province, city)
    ensures r.NoData? ==> r.message == NoDataMessage
    ensures r.Exported? ==> r.labels == ExportLabels && r.filename == DefaultFilename(exportType, province, city)
    ensures r.Exported? ==> |r.rows| == |Selected(people, exportType, province, city)|
    ensures r.Exported? ==> forall i :: 0 <= i < |r.rows| ==> r.rows[i] == ExportRow(Selected(people, exportType, province, city)[i])
  {
    var chosen := Selected(people, exportType, province, city);
    if chosen == [] then
      NoData(NoDataMessage)
    else
      assert chosen[0] in chosen;
      Exported(ExportLabels, seq(|chosen|, i requires 0 <= i < |chosen| => ExportRow(chosen[i])), DefaultFilename(exportType, province, city))
  }

  /** The export columns are the stored columns the labels name. */
  lemma ExportColumnsNamed()
    ensures |ExportFields| == |ExportLabels| == 17
    ensures forall k :: 0 <= k < |ExportFields| ==> ExportFields[k] < FieldCount
    ensures seq(17, k requires 0 <= k < 17 => FixedColumns[ExportFields[k]]) == [
      "real_name", "gender", "age", "id_number", "phone", "province", "city", "nickname", "education",
      "political_status", "occupation", "position", "status", "join_date", "donation_days", "address", "bio"]
  {
  }

  /** The pool columns are the stored columns their labels name. */
  lemma PoolColumnsNamed()
    ensures |PoolFields| == 9 && |PoolLabels| == 11
    ensures seq(9, k requires 0 <= k < 9 => FixedColumns[PoolFields[k]]) ==
      ["real_name", "gender", "age", "phone", "province", "city", "position", "status", "bio"]
  {
  }

  /** Outside the division scope every record is exported. */
  lemma ExportAllSelectsEverything(people: seq<Person>, exportType: string, province: string, city: string)
    requires WellShaped(people) && exportType != "division"
    ensures Selected(people, exportType, province, city) == people
  {
  }

  // ---------------------------------------------------------------------------
  // export_talent_pool

  /** The record columns of a pool row: name, gender, age, phone, province, city, position, status, bio. */
  const PoolFields: seq<nat> := [0, 1, 2, 4, 5, 6, 12, 13, 17]

  const PoolLabels: seq<string> := [
    "真实姓名", "性别", "年龄", "手机号", "省份", "城市", "分会职务", "在职状态", "个人简历",
    "加入人才库理由", "加入人才库时间"
  ]

  function PoolRow(p: Person, e: PoolEntry): (row: seq<Cell>)
    requires |p.fields| == FieldCount
    ensures |row| == |PoolLabels|
    ensures forall k :: 0 <= k < |PoolFields| ==> row[k] == p.fields[PoolFields[k]]
    ensures row[9] == e.reason && row[10] == Text(e.addTime)
  {
    seq(|PoolFields|, k requires 0 <= k < |PoolFields| => p.fields[PoolFields[k]]) + [e.reason, Text(e.addTime)]
  }

  /** The join of the pool with the records, one row per entry whose record exists. */
  function PoolRows(people: seq<Person>, pool: seq<PoolEntry>): (rows: seq<seq<Cell>>)
    requires WellShaped(people)
    ensures |rows| <= |pool|
    ensures PoolRefersToPeople(pool, people) ==> |rows| == |pool|
    ensures forall row :: row in rows ==> |row| == |PoolLabels|
  {
    if pool == [] then []
    else
      (match FindPerson(people, pool[0].personId)
       case Some(p) => [PoolRow(p, pool[0])]
       case None => [])
        + PoolRows(people, pool[1..])
  }

  /** `export_talent_pool`: always the eleven labelled columns, even for an
      empty pool; with every entry's record present, row `i` joins entry `i`
      with the record it names. */
  function ExportTalentPool(people: seq<Person>, pool: seq<PoolEntry>): (r: (seq<string>, seq<seq<Cell>>))
    requires WellShaped(people)
    ensures r.0 == PoolLabels
    ensures |r.1| <= |pool|
    ensures PoolRefersToPeople(pool, people) ==> |r.1| == |pool|
    ensures PoolRefersToPeople(pool, people) ==>
      forall i :: 0 <= i < |pool| ==> r.1[i] == PoolRow(Joined(people, pool[i]), pool[i])
  {
    PoolRowsJoin(people, pool);
    (PoolLabels, PoolRows(people, pool))
  }

  /** The record a pool entry names, when it exists. */
  function Joined(people: seq<Person>, e: PoolEntry): (p: Person)
    requires WellShaped(people) && HasPerson(people, e.personId)
    ensures p in people && p.id == e.personId && |p.fields| == FieldCount
  {
    FindPerson(people, e.personId).value
  }

  /** Row `i` of the join is entry `i` joined with its record: that record's
      nine columns, then the entry's reason and time. */
  lemma {:induction false} PoolRowsFollowPool(people: seq<Person>, pool: seq<PoolEntry>, i: nat)
    requires WellShaped(people) && PoolRefersToPeople(pool, people) && i < |pool|
    ensures PoolRows(people, pool)[i] == PoolRow(Joined(people, pool[i]), pool[i])
  {
    assert HasPerson(people, pool[0].personId);
    if i > 0 {
      assert PoolRefersToPeople(pool[1..], people);
      PoolRowsFollowPool(people, pool[1..], i - 1);
    }
  }

  lemma PoolRowsJoin(people: seq<Person>, pool: seq<PoolEntry>)
    requires WellShaped(people)
    ensures PoolRefersToPeople(pool, people) ==>
      forall i :: 0 <= i < |pool| ==> PoolRows(people, pool)[i] == PoolRow(Joined(people, pool[i]), pool[i])
  {
    if PoolRefersToPeople(pool, people) {
      forall i | 0 <= i < |pool|
        ensures PoolRows(people, pool)[i] == PoolRow(Joined(people, pool[i]), pool[i])
      {
        PoolRowsFollowPool(people, pool, i);
      }
    }
  }
}
