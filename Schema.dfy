/** Schema setup at start-up: `init_db` creates the four tables when they
    are absent, and `migrate_db` adds the columns that older stores lack
    and seeds the users row with the default password. Both are described
    here as functions of the schema and the users row; the methods of
    `Database` apply them to the store in place. */
module Schema {
  import opened Common
  import opened Storage

  const LogColumns: set<string> := {"id", "operation_type", "operation_target", "operation_time"}
  const PoolColumns: set<string> := {"id", "person_id", "add_time", "reason"}
  const UserColumns: set<string> := {"id", "password_hash", "password_enabled"}

  const DefaultPassword := "123456"

  /** The columns `CREATE TABLE` gives each table. */
  function BaseColumns(t: Table): set<string> {
    match t
    case Personnel => PersonnelColumns
    case OperationLog => LogColumns
    case TalentPool => PoolColumns
    case Users => UserColumns
  }

  /** No table disappears and no column is dropped. */
  predicate Grows(before: map<Table, set<string>>, after: map<Table, set<string>>) {
    forall t :: t in before ==> t in after && before[t] <= after[t]
  }

  /** `CREATE TABLE IF NOT EXISTS t`. */
  function CreateIfAbsent(schema: map<Table, set<string>>, t: Table): (r: map<Table, set<string>>)
    ensures t in r && Grows(schema, r)
    ensures forall u :: u in schema ==> r[u] == schema[u]
    ensures t !in schema ==> r[t] == BaseColumns(t)
    ensures r.Keys == schema.Keys + {t}
  {
    if t in schema then schema else schema[t := BaseColumns(t)]
  }

  /** What `init_db` leaves: every table present, existing tables untouched, absent ones created. */
  function InitSchema(schema: map<Table, set<string>>): (r: map<Table, set<string>>)
    ensures AllTables(r) && Grows(schema, r)
    ensures forall t :: t in schema ==> r[t] == schema[t]
    ensures forall t :: t !in schema && t in r ==> r[t] == BaseColumns(t)
  {
    CreateIfAbsent(CreateIfAbsent(CreateIfAbsent(CreateIfAbsent(schema, Personnel), OperationLog), TalentPool), Users)
  }

  /** The column changes of `migrate_db`: `reason` on `talent_pool` and
      `password_enabled` on `users`, each added only if missing. */
  function MigrateSchema(schema: map<Table, set<string>>): (r: map<Table, set<string>>)
    requires AllTables(schema)
    ensures AllTables(r) && Grows(schema, r)
    ensures "reason" in r[TalentPool] && "password_enabled" in r[Users]
    ensures r[Personnel] == schema[Personnel] && r[OperationLog] == schema[OperationLog]
    ensures r[TalentPool] - schema[TalentPool] <= {"reason"}
    ensures r[Users] - schema[Users] <= {"password_enabled"}
  {
    schema[TalentPool := schema[TalentPool] + {"reason"}][Users := schema[Users] + {"password_enabled"}]
  }

  /** The users row after `migrate_db`: a row whose `password_enabled` column
      had to be added reads 1 (the column default); an empty table gets the
      row with id 1, the hash of the default password and enabled = 1. */
  function MigrateUsers(schema: map<Table, set<string>>, users: Option<UserRow>, hash: string -> string): (r: Option<UserRow>)
    requires AllTables(schema)
    ensures r.Some?
    ensures users.None? ==> r == Some(UserRow(Some(hash(DefaultPassword)), Some(1)))
    ensures users.Some? ==> r.value.passwordHash == users.value.passwordHash
    ensures users.Some? && "password_enabled" in schema[Users] ==> r == users
    ensures "password_enabled" !in schema[Users] ==> r.value.passwordEnabled == Some(1)
  {
    if users.None? then Some(UserRow(Some(hash(DefaultPassword)), Some(1)))
    else if "password_enabled" in schema[Users] then users
    else Some(users.value.(passwordEnabled := Some(1)))
  }

  /** The schema and users row together: what start-up changes. */
  datatype Setup = Setup(schema: map<Table, set<string>>, users: Option<UserRow>)

  function Migrate(s: Setup, hash: string -> string): (r: Setup)
    requires AllTables(s.schema)
    ensures AllTables(r.schema) && Grows(s.schema, r.schema) && r.users.Some?
  {
    Setup(MigrateSchema(s.schema), MigrateUsers(s.schema, s.users, hash))
  }

  /** One start-up: `init_db()` followed by `migrate_db()`. */
  function Startup(s: Setup, hash: string -> string): (r: Setup)
    ensures AllTables(r.schema) && Grows(s.schema, r.schema) && r.users.Some?
  {
    Migrate(Setup(InitSchema(s.schema), s.users), hash)
  }

  /** `n` start-ups in a row. */
  function StartupTimes(s: Setup, hash: string -> string, n: nat): (r: Setup)
    ensures Grows(s.schema, r.schema)
    decreases n
  {
    if n == 0 then s else StartupTimes(Startup(s, hash), hash, n - 1)
  }

  /** `init_db` twice is `init_db` once. */
  lemma InitIdempotent(schema: map<Table, set<string>>)
    ensures InitSchema(InitSchema(schema)) == InitSchema(schema)
  {
  }

  /** `migrate_db` twice is `migrate_db` once: the second run finds every
      column and the row in place and changes nothing. */
  lemma MigrateIdempotent(s: Setup, hash: string -> string)
    requires AllTables(s.schema)
    ensures Migrate(Migrate(s, hash), hash) == Migrate(s, hash)
  {
    var m := Migrate(s, hash);
    assert MigrateSchema(m.schema) == m.schema;
  }

  /** After a migration, `init_db` finds every table and changes nothing. */
  lemma InitAfterMigrate(s: Setup, hash: string -> string)
    requires AllTables(s.schema)
    ensures InitSchema(Migrate(s, hash).schema) == Migrate(s, hash).schema
  {
  }

  /** A start-up on an already started store changes nothing. */
  lemma StartupIdempotent(s: Setup, hash: string -> string)
    ensures Startup(Startup(s, hash), hash) == Startup(s, hash)
  {
    var once := Startup(s, hash);
    InitAfterMigrate(Setup(InitSchema(s.schema), s.users), hash);
    assert Setup(InitSchema(once.schema), once.users) == once;
    MigrateIdempotent(Setup(InitSchema(s.schema), s.users), hash);
  }

  /** Any number (at least one) of start-ups gives the same tables, columns
      and exactly one users row as a single one. */
  lemma {:induction false} StartupTimesIsOnce(s: Setup, hash: string -> string, n: nat)
    requires n >= 1
    ensures StartupTimes(s, hash, n) == Startup(s, hash)
  {
    if n > 1 {
      StartupIdempotent(s, hash);
      StartupTimesFixed(Startup(s, hash), hash, n - 1);
    }
  }

  lemma {:induction false} StartupTimesFixed(s: Setup, hash: string -> string, n: nat)
    requires Startup(s, hash) == s
    ensures StartupTimes(s, hash, n) == s
  {
    if n > 0 {
      StartupTimesFixed(s, hash, n - 1);
    }
  }

  /** The default password is seeded only into an empty users table: a
      stored hash survives start-up. */
  lemma StartupKeepsPassword(s: Setup, hash: string -> string)
    requires s.users.Some?
    ensures Startup(s, hash).users.value.passwordHash == s.users.value.passwordHash
  {
  }
}
