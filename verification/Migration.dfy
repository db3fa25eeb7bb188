/**
 The schema migration of telkap/db.py on a database seen as tables of named
 columns. The old message_map is renamed, created anew, filled from the renamed
 copy and the copy dropped; other tables get the columns they lack.
 */
module Migration {

  datatype Value = Null | Int(n: int) | Text(s: string)

  type Row = map<string, Value>

  datatype Table = Table(columns: set<string>, rows: seq<Row>)

  type Tables = map<string, Table>

  datatype Column = Column(name: string, initial: Value)

  datatype Addition = Addition(table: string, columns: seq<Column>)

  /** The tables and columns the models declare. */
  type Model = map<string, set<string>>

  datatype Error = TableExists | MissingColumn | IntegrityError

  datatype Result<+T> = Ok(value: T) | Err(error: Error)

  const MAP := "message_map"
  const LEGACY := "message_map_legacy"
  const DEST := "dest_chat"
  const TASK := "task_id"
  const SRC := "src_msg_id"
  const TASKS := "tasks"
  const ID := "id"

  /** The columns of the old message_map that are carried over. */
  const CARRIED := {TASK, SRC, "dst_msg_id", "content_hash", "created_at"}

  // -------------------------------------------------------------- what SQL does

  /** Every row has a cell in exactly the columns of its table. */
  ghost predicate WellFormed(db: Tables) {
    forall t :: t in db ==> db[t].columns != {} && forall i :: 0 <= i < |db[t].rows| ==> db[t].rows[i].Keys == db[t].columns
  }

  function ColumnsOf(db: Tables, table: string): set<string> {
    if table in db then db[table].columns else {}
  }

  function Rename(db: Tables, from: string, to: string): Result<Tables>
    requires from in db
  {
    if to in db then Err(TableExists) else Ok((db - {from})[to := db[from]])
  }

  /** `create_all`: only tables that are not there yet. */
  function CreateAll(db: Tables, model: Model): Tables {
    map t | t in db.Keys + model.Keys :: if t in db then db[t] else Table(model[t], [])
  }

  function Filled(rows: seq<Row>, column: Column): seq<Row> {
    seq(|rows|, i requires 0 <= i < |rows| => rows[i][column.name := column.initial])
  }

  /** `ALTER TABLE ... ADD COLUMN ... DEFAULT` */
  function AddColumn(db: Tables, table: string, column: Column): Tables
    requires table in db
  {
    db[table := Table(db[table].columns + {column.name}, Filled(db[table].rows, column))]
  }

  /** A row of the new table: carried cells, an empty destination, NULL for the rest. */
  function Carried(row: Row, id: nat, columns: set<string>): Row {
    map c | c in columns ::
      if c == "id" then Int(id)
      else if c == DEST then Text("")
      else if c in CARRIED && c in row then row[c]
      else Null
  }

  function CarriedAll(rows: seq<Row>, columns: set<string>): seq<Row> {
    seq(|rows|, i requires 0 <= i < |rows| => Carried(rows[i], i + 1, columns))
  }

  /** No two rows share a task and a source message. */
  predicate Distinct(rows: seq<Row>) {
    forall i, j :: 0 <= i < j < |rows| ==>
      !(TASK in rows[i] && TASK in rows[j] && SRC in rows[i] && SRC in rows[j]
        && rows[i][TASK] == rows[j][TASK] && rows[i][SRC] == rows[j][SRC])
  }

  /** uq_message_map_task_src_dest */
  predicate UniqueKeys(rows: seq<Row>) {
    forall i, j :: 0 <= i < j < |rows| ==>
      !(TASK in rows[i] && TASK in rows[j] && SRC in rows[i] && SRC in rows[j] && DEST in rows[i] && DEST in rows[j]
        && rows[i][TASK] == rows[j][TASK] && rows[i][SRC] == rows[j][SRC] && rows[i][DEST] == rows[j][DEST])
  }

  /** The carried columns that the models declare NOT NULL. */
  const REQUIRED := {TASK, SRC, "dst_msg_id", "created_at"}

  predicate NoNulls(rows: seq<Row>) {
    forall i, c :: 0 <= i < |rows| && c in REQUIRED && c in rows[i] ==> rows[i][c] != Null
  }

  /** The keys message_map.task_id may refer to. */
  function TaskIds(db: Tables): seq<Value> {
    if TASKS in db then IdsOf(db[TASKS].rows) else []
  }

  function IdsOf(rows: seq<Row>): seq<Value> {
    seq(|rows|, i requires 0 <= i < |rows| => if ID in rows[i] then rows[i][ID] else Null)
  }

  /** Foreign keys are enforced: no row is an orphan. */
  predicate HaveTasks(rows: seq<Row>, ids: seq<Value>) {
    forall i :: 0 <= i < |rows| && TASK in rows[i] ==> rows[i][TASK] in ids
  }

  /** `INSERT INTO message_map (...) SELECT ... FROM message_map_legacy` */
  function CopyLegacy(db: Tables): Result<Tables>
    requires MAP in db && LEGACY in db
  {
    if !(CARRIED <= db[LEGACY].columns && CARRIED + {DEST} <= db[MAP].columns) then Err(MissingColumn)
    else
      var rows := db[MAP].rows + CarriedAll(db[LEGACY].rows, db[MAP].columns);
      if !NoNulls(rows) || !HaveTasks(rows, TaskIds(db)) || !UniqueKeys(rows) then Err(IntegrityError) else Ok(db[MAP := Table(db[MAP].columns, rows)])
  }

  // ------------------------------------------------------------------- the plan

  predicate NeedsMove(db: Tables) {
    ColumnsOf(db, MAP) != {} && DEST !in ColumnsOf(db, MAP)
  }

  /** The listed columns a table did not have when it was looked at. */
  function AddListed(db: Tables, table: string, columns: seq<Column>, existing: set<string>): Tables
    requires table in db
    ensures table in AddListed(db, table, columns, existing)
  {
    if columns == [] then db
    else
      var before, last := AddListed(db, table, columns[..|columns| - 1], existing), columns[|columns| - 1];
      if last.name in existing then before else AddColumn(before, table, last)
  }

  function AddMissing(db: Tables, additions: seq<Addition>): Tables {
    if additions == [] then db
    else
      var before, last := AddMissing(db, additions[..|additions| - 1]), additions[|additions| - 1];
      var existing := ColumnsOf(before, last.table);
      if existing == {} then before
      else
        assert last.table in before;
        AddListed(before, last.table, last.columns, existing)
  }

  function Prepare(db: Tables): Result<Tables> {
    if NeedsMove(db) then Rename(db, MAP, LEGACY) else Ok(db)
  }

  /** One whole start-up: everything, or an error and nothing. */
  function Migrate(db: Tables, model: Model, additions: seq<Addition>): Result<Tables>
    requires MAP in model
  {
    match Prepare(db)
    case Err(e) => Err(e)
    case Ok(prepared) =>
      var ready := AddMissing(CreateAll(prepared, model), additions);
      KeepsTables(CreateAll(prepared, model), additions);
      if !NeedsMove(db) then Ok(ready)
      else match CopyLegacy(ready)
        case Err(e) => Err(e)
        case Ok(copied) => Ok(copied - {LEGACY})
  }

  lemma {:induction false} KeepsTablesListed(db: Tables, table: string, columns: seq<Column>, existing: set<string>)
    requires table in db
    ensures AddListed(db, table, columns, existing).Keys == db.Keys
    decreases |columns|
  {
    if columns == [] {
    } else {
      KeepsTablesListed(db, table, columns[..|columns| - 1], existing);
    }
  }

  lemma {:induction false} KeepsTables(db: Tables, additions: seq<Addition>)
    ensures AddMissing(db, additions).Keys == db.Keys
    decreases |additions|
  {
    if additions == [] {
    } else {
      var before, last := AddMissing(db, additions[..|additions| - 1]), additions[|additions| - 1];
      KeepsTables(db, additions[..|additions| - 1]);
      if ColumnsOf(before, last.table) != {} {
        KeepsTablesListed(before, last.table, last.columns, ColumnsOf(before, last.table));
      }
    }
  }

  // ---------------------------------------------------------------- nothing is lost

  ghost predicate SameCell(was: Row, now: Row, column: string) {
    column in was ==> column in now && now[column] == was[column]
  }

  /** The cells of an old message_map that matter are still in `now`. */
  ghost predicate Keeps(was: Row, now: Row) {
    && SameCell(was, now, "task_id") && SameCell(was, now, "src_msg_id") && SameCell(was, now, "dst_msg_id")
    && SameCell(was, now, "content_hash") && SameCell(was, now, "created_at")
  }

  ghost predicate Holds(db: Tables, table: string, originals: seq<Row>) {
    && table in db
    && |db[table].rows| == |originals|
    && forall i :: 0 <= i < |originals| ==> Keeps(originals[i], db[table].rows[i])
  }

  /** The original rows, in order and none missing, are in message_map or in its renamed copy. */
  ghost predicate Safe(db: Tables, originals: seq<Row>) {
    originals == [] || Holds(db, "message_map", originals) || Holds(db, "message_map_legacy", originals)
  }

  function Originals(db: Tables): seq<Row> {
    if MAP in db then db[MAP].rows else []
  }

  /** Row by row, `now` has at least the cells of `was`, with the same values. */
  ghost predicate Extends(was: Table, now: Table) {
    && was.columns <= now.columns
    && |now.rows| == |was.rows|
    && forall i, c :: 0 <= i < |was.rows| && c in was.rows[i] ==> c in now.rows[i] && now.rows[i][c] == was.rows[i][c]
  }

  ghost predicate Grown(db: Tables, db': Tables) {
    forall t :: t in db ==> t in db' && Extends(db[t], db'[t])
  }

  lemma GrownTwice(a: Tables, b: Tables, c: Tables)
    requires Grown(a, b) && Grown(b, c)
    ensures Grown(a, c)
  {
  }

  lemma SafeWhenGrown(db: Tables, db': Tables, originals: seq<Row>)
    requires Grown(db, db') && Safe(db, originals)
    ensures Safe(db', originals)
  {
  }

  lemma AddColumnGrows(db: Tables, table: string, column: Column)
    requires WellFormed(db) && table in db && column.name !in db[table].columns
    ensures WellFormed(AddColumn(db, table, column)) && Grown(db, AddColumn(db, table, column))
  {
    var db' := AddColumn(db, table, column);
    forall t | t in db ensures Extends(db[t], db'[t]) {
    }
  }

  lemma CreateAllGrows(db: Tables, model: Model)
    requires WellFormed(db) && forall t :: t in model ==> model[t] != {}
    ensures WellFormed(CreateAll(db, model)) && Grown(db, CreateAll(db, model))
  {
  }

  lemma CopiedRows(db: Tables)
    requires MAP in db && LEGACY in db && db[MAP].rows == [] && CopyLegacy(db).Ok?
    ensures CARRIED <= db[MAP].columns
    ensures CopyLegacy(db).value == db[MAP := Table(db[MAP].columns, CarriedAll(db[LEGACY].rows, db[MAP].columns))]
  {
    var rows := CarriedAll(db[LEGACY].rows, db[MAP].columns);
    assert [] + rows == rows;
  }

  /** Dropping the copy is safe once message_map holds the rows. */
  lemma CopyKeepsEverything(db: Tables, originals: seq<Row>)
    requires MAP in db && db[MAP].rows == [] && Holds(db, LEGACY, originals) && CopyLegacy(db).Ok?
    ensures Holds(CopyLegacy(db).value, MAP, originals)
    ensures Holds(CopyLegacy(db).value, LEGACY, originals)
  {
  }

  // -------------------------------------------------------------- the listed columns

  function Names(columns: seq<Column>): set<string> {
    if columns == [] then {} else Names(columns[..|columns| - 1]) + {columns[|columns| - 1].name}
  }

  ghost predicate DistinctNames(columns: seq<Column>) {
    forall i, j :: 0 <= i < j < |columns| ==> columns[i].name != columns[j].name
  }

  /** No column twice, as an ALTER TABLE would refuse, and no key. */
  ghost predicate WellListed(columns: seq<Column>) {
    DistinctNames(columns) && forall k :: 0 <= k < |columns| ==> columns[k].name != ID
  }

  /** Each table is listed once. */
  ghost predicate Listing(additions: seq<Addition>) {
    && (forall i :: 0 <= i < |additions| ==> WellListed(additions[i].columns))
    && (forall i, j :: 0 <= i < j < |additions| ==> additions[i].table != additions[j].table)
  }

  lemma {:induction false} NamesOf(columns: seq<Column>)
    ensures forall n :: n in Names(columns) <==> exists i :: 0 <= i < |columns| && columns[i].name == n
  {
    if columns == [] {
    } else {
      NamesOf(columns[..|columns| - 1]);
    }
  }

  lemma NewName(columns: seq<Column>)
    requires columns != [] && DistinctNames(columns)
    ensures DistinctNames(columns[..|columns| - 1])
    ensures columns[|columns| - 1].name !in Names(columns[..|columns| - 1])
  {
    NamesOf(columns[..|columns| - 1]);
  }

  lemma {:induction false} AddListedGrows(db: Tables, table: string, columns: seq<Column>)
    requires WellFormed(db) && table in db && DistinctNames(columns)
    ensures var db' := AddListed(db, table, columns, db[table].columns);
            && WellFormed(db') && Grown(db, db') && db'.Keys == db.Keys
            && db'[table].columns == db[table].columns + Names(columns)
    decreases |columns|
  {
    if columns == [] {
    } else {
      var existing, last := db[table].columns, columns[|columns| - 1];
      var before := AddListed(db, table, columns[..|columns| - 1], existing);
      NewName(columns);
      AddListedGrows(db, table, columns[..|columns| - 1]);
      if last.name !in existing {
        AddColumnGrows(before, table, last);
        GrownTwice(db, before, AddColumn(before, table, last));
      }
    }
  }

  /** Every listed column of the tables that are there. */
  ghost predicate AllListed(db: Tables, additions: seq<Addition>) {
    forall i :: 0 <= i < |additions| && additions[i].table in db ==> Names(additions[i].columns) <= db[additions[i].table].columns
  }

  lemma AllListedLater(db: Tables, db': Tables, additions: seq<Addition>)
    requires AllListed(db, additions) && Grown(db, db') && db.Keys == db'.Keys
    ensures AllListed(db', additions)
  {
  }

  lemma AddedTableGrows(db: Tables, before: Tables, addition: Addition)
    requires WellFormed(before) && Grown(db, before) && db.Keys == before.Keys
    requires addition.table in before && DistinctNames(addition.columns)
    ensures var db' := AddListed(before, addition.table, addition.columns, before[addition.table].columns);
            && WellFormed(db') && Grown(before, db') && Grown(db, db') && db'.Keys == db.Keys
            && Names(addition.columns) <= db'[addition.table].columns
  {
    AddListedGrows(before, addition.table, addition.columns);
    GrownTwice(db, before, AddListed(before, addition.table, addition.columns, before[addition.table].columns));
  }

  lemma {:induction false} AddMissingGrows(db: Tables, additions: seq<Addition>)
    requires WellFormed(db) && Listing(additions)
    ensures var db' := AddMissing(db, additions);
            WellFormed(db') && Grown(db, db') && db'.Keys == db.Keys && AllListed(db', additions)
    decreases |additions|
  {
    if additions == [] {
    } else {
      var n := |additions| - 1;
      var before, last := AddMissing(db, additions[..n]), additions[n];
      AddMissingGrows(db, additions[..n]);
      if last.table in before {
        AddedTableGrows(db, before, last);
        AllListedLater(before, AddMissing(db, additions), additions[..n]);
      }
      assert additions == additions[..n] + [last];
    }
  }

  lemma {:induction false} NothingListed(db: Tables, table: string, columns: seq<Column>)
    requires table in db && Names(columns) <= db[table].columns
    ensures AddListed(db, table, columns, db[table].columns) == db
    decreases |columns|
  {
    if columns == [] {
    } else {
      NothingListed(db, table, columns[..|columns| - 1]);
    }
  }

  lemma {:induction false} NothingMissing(db: Tables, additions: seq<Addition>)
    requires AllListed(db, additions)
    ensures AddMissing(db, additions) == db
    decreases |additions|
  {
    if additions == [] {
    } else {
      var n := |additions| - 1;
      assert forall i :: 0 <= i < n ==> additions[..n][i] == additions[i];
      NothingMissing(db, additions[..n]);
      if additions[n].table in db {
        NothingListed(db, additions[n].table, additions[n].columns);
      }
    }
  }

  // --------------------------------------------------------------------- start-up

  /** What the models have to declare for the plan to fit them. */
  ghost predicate Declares(model: Model, additions: seq<Addition>) {
    && Listing(additions)
    && MAP in model && LEGACY !in model && CARRIED + {DEST} <= model[MAP]
    && (forall t :: t in model ==> model[t] != {})
    && (forall i :: 0 <= i < |additions| ==>
          && additions[i].table in model && Names(additions[i].columns) <= model[additions[i].table])
  }

  /** The new table is there and empty, the rows still in the copy. */
  ghost predicate ReadyForCopy(db: Tables, originals: seq<Row>) {
    MAP in db && db[MAP].rows == [] && Holds(db, LEGACY, originals)
  }

  /** What one statement can make of the tables. */
  ghost predicate Statement(a: Tables, b: Tables) {
    || (MAP in a && Rename(a, MAP, LEGACY) == Ok(b))
    || Created(a, b)
    || AddedTo(a, b)
    || (MAP in a && LEGACY in a && CopyLegacy(a) == Ok(b))
    || b == a - {LEGACY}
  }

  ghost predicate Created(a: Tables, b: Tables) {
    exists model: Model :: b == CreateAll(a, model)
  }

  ghost predicate AddedTo(a: Tables, b: Tables) {
    exists table, column :: table in a && b == AddColumn(a, table, column)
  }

  /** Each state is made from the one before by a statement, or is an earlier one come back to. */
  ghost predicate Statements(states: seq<Tables>) {
    forall k :: 0 < k < |states| ==> Statement(states[k - 1], states[k]) || states[k] in states[..k]
  }

  lemma OneMore(states: seq<Tables>, next: Tables)
    requires states != [] && Statements(states)
    requires Statement(states[|states| - 1], next) || next in states
    ensures Statements(states + [next])
  {
    var more := states + [next];
    forall k | 0 < k < |more| ensures Statement(more[k - 1], more[k]) || more[k] in more[..k] {
      assert k < |states| ==> more[..k] == states[..k];
      assert more[..|states|] == states;
    }
  }

  class Database {
    var tables: Tables
    ghost var journal: seq<Tables> // the state at first and after every statement issued

    constructor (tables: Tables)
      ensures this.tables == tables && Recorded()
    {
      this.tables := tables;
      journal := [tables];
    }

    /** No state is left out of the journal. */
    ghost predicate Recorded()
      reads this
    {
      journal != [] && Statements(journal) && journal[|journal| - 1] == tables
    }

    /** Every state recorded since `from` still holds the original rows. */
    ghost predicate SafeSince(from: nat, originals: seq<Row>)
      reads this
    {
      from <= |journal| && forall k :: from <= k < |journal| ==> Safe(journal[k], originals)
    }

    /** `_prepare_schema`: moves an old message_map out of the way. */
    method PrepareSchema() returns (migrated: Result<bool>)
      requires WellFormed(tables) && Recorded()
      modifies this
      ensures Recorded()
      ensures match Prepare(old(tables))
              case Err(e) => migrated == Err(e) && tables == old(tables)
              case Ok(db) => migrated == Ok(NeedsMove(old(tables))) && tables == db && Safe(db, Originals(old(tables)))
      ensures old(journal) <= journal && SafeSince(|old(journal)|, Originals(old(tables)))
    {
      if !NeedsMove(tables) {
        PreparedSafe(tables);
        return Ok(false);
      }
      var renamed := Rename(tables, MAP, LEGACY);
      if renamed.Err? {
        return Err(renamed.error);
      }
      PreparedSafe(tables);
      OneMore(journal, renamed.value);
      tables := renamed.value;
      journal := journal + [tables];
      return Ok(true);
    }

    /** `Base.metadata.create_all` */
    method CreateTables(model: Model, ghost originals: seq<Row>)
      requires Recorded()
      requires WellFormed(tables) && Safe(tables, originals) && forall t :: t in model ==> model[t] != {}
      modifies this
      ensures Recorded()
      ensures tables == CreateAll(old(tables), model) && WellFormed(tables)
      ensures Safe(tables, originals) && old(journal) <= journal && SafeSince(|old(journal)|, originals)
    {
      CreateAllGrows(tables, model);
      SafeWhenGrown(tables, CreateAll(tables, model), originals);
      assert Created(tables, CreateAll(tables, model));
      OneMore(journal, CreateAll(tables, model));
      tables := CreateAll(tables, model);
      journal := journal + [tables];
    }

    /** The inner loop of `_add_missing_columns`, for a table that is there. */
    method AddListedColumns(table: string, columns: seq<Column>, ghost originals: seq<Row>)
      requires Recorded()
      requires WellFormed(tables) && table in tables && DistinctNames(columns) && Safe(tables, originals)
      modifies this
      ensures Recorded()
      ensures tables == AddListed(old(tables), table, columns, old(tables)[table].columns)
      ensures Safe(tables, originals) && old(journal) <= journal && SafeSince(|old(journal)|, originals)
    {
      ghost var base := tables;
      var existing := tables[table].columns;
      for c := 0 to |columns|
        invariant Recorded()
        invariant table in tables && tables == AddListed(base, table, columns[..c], existing)
        invariant Safe(tables, originals) && old(journal) <= journal && SafeSince(|old(journal)|, originals)
      {
        assert columns[..c + 1][..c] == columns[..c];
        if columns[c].name !in existing {
          assert AddedTo(tables, AddColumn(tables, table, columns[c]));
          OneMore(journal, AddColumn(tables, table, columns[c]));
          tables := AddColumn(tables, table, columns[c]);
          AddListedGrows(base, table, columns[..c + 1]);
          SafeWhenGrown(base, tables, originals);
          journal := journal + [tables];
        }
      }
      assert columns[..|columns|] == columns;
    }

    /** `_add_missing_columns` */
    method AddMissingColumns(additions: seq<Addition>, ghost originals: seq<Row>)
      requires Recorded()
      requires WellFormed(tables) && Listing(additions) && Safe(tables, originals)
      modifies this
      ensures Recorded()
      ensures tables == AddMissing(old(tables), additions)
      ensures Safe(tables, originals) && old(journal) <= journal && SafeSince(|old(journal)|, originals)
    {
      ghost var base := tables;
      for a := 0 to |additions|
        invariant Recorded()
        invariant tables == AddMissing(base, additions[..a]) && WellFormed(tables)
        invariant Safe(tables, originals) && old(journal) <= journal && SafeSince(|old(journal)|, originals)
      {
        assert additions[..a + 1][..a] == additions[..a];
        AddMissingGrows(base, additions[..a + 1]);
        if ColumnsOf(tables, additions[a].table) != {} {
          AddListedColumns(additions[a].table, additions[a].columns, originals);
        }
      }
      assert additions[..|additions|] == additions;
    }

    /** The copy and the drop at the end of `_finish_schema`. */
    method MoveRows(ghost originals: seq<Row>) returns (failure: Result<()>)
      requires Recorded()
      requires ReadyForCopy(tables, originals)
      modifies this
      ensures Recorded()
      ensures match CopyLegacy(old(tables))
              case Err(e) => failure == Err(e) && tables == old(tables)
              case Ok(db) => failure == Ok(()) && tables == db - {LEGACY}
      ensures old(journal) <= journal && SafeSince(|old(journal)|, originals)
    {
      var copied := CopyLegacy(tables);
      if copied.Err? {
        return Err(copied.error);
      }
      CopyKeepsEverything(tables, originals);
      OneMore(journal, copied.value);
      tables := copied.value;
      journal := journal + [tables];
      OneMore(journal, tables - {LEGACY});
      tables := tables - {LEGACY};
      assert Holds(tables, MAP, originals);
      journal := journal + [tables];
      return Ok(());
    }

    /** `_finish_schema`, its indexes apart. */
    method FinishSchema(migrated: bool, additions: seq<Addition>, ghost originals: seq<Row>) returns (failure: Result<()>)
      requires Recorded() && WellFormed(tables) && Listing(additions) && Safe(tables, originals)
      requires migrated ==> ReadyForCopy(AddMissing(tables, additions), originals)
      modifies this
      ensures Recorded()
      ensures var ready := AddMissing(old(tables), additions);
              if !migrated then failure == Ok(()) && tables == ready
              else match CopyLegacy(ready)
                case Err(e) => failure == Err(e)
                case Ok(db) => failure == Ok(()) && tables == db - {LEGACY}
      ensures old(journal) <= journal && SafeSince(|old(journal)|, originals)
    {
      AddMissingColumns(additions, originals);
      if !migrated {
        return Ok(());
      }
      failure := MoveRows(originals);
    }

    /**
     `init_db` inside its transaction: on an error the tables are what they
     were, and after every single statement the original rows are all there.
     */
    method InitDb(model: Model, additions: seq<Addition>) returns (failure: Result<()>)
      requires WellFormed(tables) && Declares(model, additions) && Recorded()
      modifies this
      ensures Recorded()
      ensures match Migrate(old(tables), model, additions)
              case Ok(db) => failure == Ok(()) && tables == db
              case Err(e) => failure == Err(e) && tables == old(tables)
      ensures old(journal) <= journal && SafeSince(|old(journal)|, Originals(old(tables)))
    {
      var start := tables;
      ghost var originals := Originals(tables);
      var migrated := PrepareSchema();
      if migrated.Err? {
        return Err(migrated.error);
      }
      PreparedSafe(start);
      CreateTables(model, originals);
      assert AddMissing(tables, additions) == Ready(start, model, additions);
      MigrateFromReady(start, model, additions);
      failure := FinishSchema(migrated.value, additions, originals);
      if failure.Err? {
        OneMore(journal, start);
        tables := start;
        journal := journal + [tables];
        StartIsSafe(start);
      }
    }
  }

  lemma StartIsSafe(db: Tables)
    ensures Safe(db, Originals(db))
  {
  }

  lemma PreparedSafe(db: Tables)
    requires WellFormed(db) && Prepare(db).Ok?
    ensures WellFormed(Prepare(db).value) && Safe(Prepare(db).value, Originals(db))
    ensures NeedsMove(db) ==> MAP !in Prepare(db).value && Holds(Prepare(db).value, LEGACY, Originals(db))
  {
  }

  function Ready(db: Tables, model: Model, additions: seq<Addition>): Tables
    requires Prepare(db).Ok?
  {
    AddMissing(CreateAll(Prepare(db).value, model), additions)
  }

  /** The start-up, told by what is ready before the copy. */
  lemma MigrateFromReady(db: Tables, model: Model, additions: seq<Addition>)
    requires WellFormed(db) && Declares(model, additions) && Prepare(db).Ok?
    ensures var ready := Ready(db, model, additions);
            if !NeedsMove(db) then Migrate(db, model, additions) == Ok(ready)
            else
              && ReadyForCopy(ready, Originals(db))
              && match CopyLegacy(ready)
                 case Err(e) => Migrate(db, model, additions) == Err(e)
                 case Ok(copied) => Migrate(db, model, additions) == Ok(copied - {LEGACY})
  {
    if NeedsMove(db) {
      ReadyToCopy(db, model, additions);
    }
  }

  /** Before the copy: an empty new message_map with every column, and the old table next to it, unchanged. */
  lemma ReadyToCopy(db: Tables, model: Model, additions: seq<Addition>)
    requires WellFormed(db) && Declares(model, additions) && NeedsMove(db) && Prepare(db).Ok?
    ensures var ready := Ready(db, model, additions);
            && MAP in ready && LEGACY in ready
            && ready[MAP] == Table(model[MAP], []) && ready[LEGACY] == db[MAP]
            && Holds(ready, LEGACY, Originals(db))
  {
    var created := CreateAll(Prepare(db).value, model);
    assert created[LEGACY] == db[MAP] && created[MAP] == Table(model[MAP], []);
    Untouched(created, additions, MAP);
    Untouched(created, additions, LEGACY);
  }

  /** A table that has all that is listed for it, or is not listed, stays as it is. */
  lemma {:induction false} Untouched(db: Tables, additions: seq<Addition>, table: string)
    requires table in db
    requires forall i :: 0 <= i < |additions| && additions[i].table == table ==> Names(additions[i].columns) <= db[table].columns
    ensures table in AddMissing(db, additions) && AddMissing(db, additions)[table] == db[table]
    decreases |additions|
  {
    if additions == [] {
    } else {
      var n := |additions| - 1;
      assert forall i :: 0 <= i < n ==> additions[..n][i] == additions[i];
      Untouched(db, additions[..n], table);
      var before, last := AddMissing(db, additions[..n]), additions[n];
      if ColumnsOf(before, last.table) != {} {
        if last.table == table {
          NothingListed(before, table, last.columns);
        } else {
          OthersUntouched(before, last.table, last.columns, ColumnsOf(before, last.table), table);
        }
      }
    }
  }

  lemma {:induction false} OthersUntouched(db: Tables, table: string, columns: seq<Column>, existing: set<string>, other: string)
    requires table in db && other in db && other != table
    ensures var db' := AddListed(db, table, columns, existing); other in db' && db'[other] == db[other]
    decreases |columns|
  {
    if columns == [] {
    } else {
      OthersUntouched(db, table, columns[..|columns| - 1], existing, other);
    }
  }

  // ----------------------------------------------------------------- what it achieves

  /** There is an old message_map: one without a destination. */
  ghost predicate OldMap(db: Tables) {
    "message_map" in db && "dest_chat" !in db["message_map"].columns
  }

  lemma MovesExactlyOldMaps(db: Tables)
    requires WellFormed(db)
    ensures NeedsMove(db) <==> OldMap(db)
  {
  }

  /** A row of the new message_map made from an old one at index `i`. */
  ghost predicate MovedRow(was: Row, now: Row, i: nat) {
    && {"task_id", "src_msg_id", "dst_msg_id", "content_hash", "created_at"} <= was.Keys
    && {"task_id", "src_msg_id", "dst_msg_id", "content_hash", "created_at", "dest_chat"} <= now.Keys
    && now["task_id"] == was["task_id"] && now["src_msg_id"] == was["src_msg_id"]
    && now["dst_msg_id"] == was["dst_msg_id"] && now["content_hash"] == was["content_hash"]
    && now["created_at"] == was["created_at"]
    && now["dest_chat"] == Text("")
    && ("id" in now ==> now["id"] == Int(i + 1))
    && forall c :: c in now && c !in {"id", "task_id", "src_msg_id", "dst_msg_id", "content_hash", "created_at", "dest_chat"} ==>
         now[c] == Null
  }

  ghost predicate Moved(was: seq<Row>, now: seq<Row>) {
    |now| == |was| && forall i :: 0 <= i < |was| ==> MovedRow(was[i], now[i], i)
  }

  /** With every destination empty the new key is the old one. */
  lemma DistinctIsUnique(was: seq<Row>, columns: set<string>)
    requires CARRIED + {DEST} <= columns
    requires forall i :: 0 <= i < |was| ==> CARRIED <= was[i].Keys
    ensures UniqueKeys(CarriedAll(was, columns)) <==> Distinct(was)
  {
    var rows := CarriedAll(was, columns);
    forall i | 0 <= i < |was|
      ensures TASK in rows[i] && SRC in rows[i] && DEST in rows[i] && TASK in was[i] && SRC in was[i]
      ensures rows[i][TASK] == was[i][TASK] && rows[i][SRC] == was[i][SRC] && rows[i][DEST] == Text("")
    {
      assert TASK in CARRIED && SRC in CARRIED;
    }
  }

  /** A row is refused for a NULL, or as an orphan, exactly if it was one before. */
  lemma RefusedAsBefore(was: seq<Row>, columns: set<string>, ids: seq<Value>)
    requires CARRIED <= columns
    requires forall i :: 0 <= i < |was| ==> CARRIED <= was[i].Keys
    ensures NoNulls(CarriedAll(was, columns)) <==> NoNulls(was)
    ensures HaveTasks(CarriedAll(was, columns), ids) <==> HaveTasks(was, ids)
  {
    var rows := CarriedAll(was, columns);
    forall i, c | 0 <= i < |was| && c in REQUIRED
      ensures c in rows[i] && c in was[i] && rows[i][c] == was[i][c]
    {
      assert c in CARRIED;
    }
    assert TASK in REQUIRED;
  }

  lemma IdsStay(db: Tables, table: string, column: Column)
    requires table in db && column.name != ID
    ensures TaskIds(AddColumn(db, table, column)) == TaskIds(db)
  {
  }

  lemma {:induction false} ListedIdsStay(db: Tables, table: string, columns: seq<Column>, existing: set<string>)
    requires table in db && forall k :: 0 <= k < |columns| ==> columns[k].name != ID
    ensures TaskIds(AddListed(db, table, columns, existing)) == TaskIds(db)
    decreases |columns|
  {
    if columns == [] {
    } else {
      var n := |columns| - 1;
      ListedIdsStay(db, table, columns[..n], existing);
      IdsStay(AddListed(db, table, columns[..n], existing), table, columns[n]);
    }
  }

  lemma {:induction false} MissingIdsStay(db: Tables, additions: seq<Addition>)
    requires Listing(additions)
    ensures TaskIds(AddMissing(db, additions)) == TaskIds(db)
    decreases |additions|
  {
    if additions == [] {
    } else {
      var before, last := AddMissing(db, additions[..|additions| - 1]), additions[|additions| - 1];
      MissingIdsStay(db, additions[..|additions| - 1]);
      if ColumnsOf(before, last.table) != {} {
        ListedIdsStay(before, last.table, last.columns, ColumnsOf(before, last.table));
      }
    }
  }

  /** By the time of the copy the tasks are the ones there were. */
  lemma TasksReady(db: Tables, model: Model, additions: seq<Addition>)
    requires Listing(additions) && Prepare(db).Ok?
    ensures TaskIds(Ready(db, model, additions)) == TaskIds(db)
  {
    var prepared := Prepare(db).value;
    assert TASKS != MAP && TASKS != LEGACY;
    assert TaskIds(prepared) == TaskIds(db);
    assert TaskIds(CreateAll(prepared, model)) == TaskIds(prepared);
    MissingIdsStay(CreateAll(prepared, model), additions);
  }

  /** What the rows of an old message_map must be like to be moved. */
  ghost predicate Movable(db: Tables)
    requires "message_map" in db
  {
    && {"task_id", "src_msg_id", "dst_msg_id", "content_hash", "created_at"} <= db["message_map"].columns
    && MovableRows(db["message_map"].rows, if "tasks" in db then db["tasks"].rows else [])
  }

  /** No NULL, no orphan, no two rows for one message of one task. */
  ghost predicate MovableRows(rows: seq<Row>, tasks: seq<Row>) {
    && (forall i, c :: 0 <= i < |rows| && c in {"task_id", "src_msg_id", "dst_msg_id", "created_at"} && c in rows[i] ==> rows[i][c] != Null)
    && (forall i :: 0 <= i < |rows| && "task_id" in rows[i] ==> HasTask(tasks, rows[i]["task_id"]))
    && (forall i, j :: 0 <= i < j < |rows| && {"task_id", "src_msg_id"} <= rows[i].Keys && {"task_id", "src_msg_id"} <= rows[j].Keys ==>
          rows[i]["task_id"] != rows[j]["task_id"] || rows[i]["src_msg_id"] != rows[j]["src_msg_id"])
  }

  ghost predicate HasTask(tasks: seq<Row>, id: Value) {
    exists k :: 0 <= k < |tasks| && "id" in tasks[k] && tasks[k]["id"] == id
  }

  lemma TaskIsThere(tasks: seq<Row>, id: Value)
    requires id != Null
    ensures id in IdsOf(tasks) <==> HasTask(tasks, id)
  {
    if id in IdsOf(tasks) {
      var k :| 0 <= k < |tasks| && IdsOf(tasks)[k] == id;
      assert ID in tasks[k] && tasks[k]["id"] == id;
    }
    if HasTask(tasks, id) {
      var k :| 0 <= k < |tasks| && "id" in tasks[k] && tasks[k]["id"] == id;
      assert IdsOf(tasks)[k] == id;
    }
  }

  /** What the database refuses about the rows, put together. */
  lemma RefusalsMean(rows: seq<Row>, tasks: seq<Row>)
    ensures NoNulls(rows) && HaveTasks(rows, IdsOf(tasks)) && Distinct(rows) <==> MovableRows(rows, tasks)
  {
    forall i | 0 <= i < |rows| && TASK in rows[i] && rows[i][TASK] != Null
      ensures rows[i][TASK] in IdsOf(tasks) <==> HasTask(tasks, rows[i]["task_id"])
    {
      TaskIsThere(tasks, rows[i][TASK]);
    }
  }

  lemma RowsGoThrough(was: seq<Row>, columns: set<string>, tasks: seq<Row>)
    requires CARRIED + {DEST} <= columns
    requires forall i :: 0 <= i < |was| ==> CARRIED <= was[i].Keys
    ensures var rows := CarriedAll(was, columns);
            NoNulls(rows) && HaveTasks(rows, IdsOf(tasks)) && UniqueKeys(rows) <==> MovableRows(was, tasks)
  {
    DistinctIsUnique(was, columns);
    RefusedAsBefore(was, columns, IdsOf(tasks));
    RefusalsMean(was, tasks);
  }

  lemma CopyGoesThrough(db: Tables, model: Model, additions: seq<Addition>)
    requires WellFormed(db) && Declares(model, additions) && NeedsMove(db) && LEGACY !in db
    ensures MAP in Ready(db, model, additions) && LEGACY in Ready(db, model, additions)
    ensures CopyLegacy(Ready(db, model, additions)).Ok? <==> Movable(db)
    ensures CopyLegacy(Ready(db, model, additions)) == Err(MissingColumn) <==> !(CARRIED <= db[MAP].columns)
  {
    ReadyToCopy(db, model, additions);
    TasksReady(db, model, additions);
    var was := db[MAP].rows;
    if CARRIED <= db[MAP].columns {
      forall i | 0 <= i < |was| ensures CARRIED <= was[i].Keys {
        assert was[i].Keys == db[MAP].columns;
      }
      RowsGoThrough(was, model[MAP], if TASKS in db then db[TASKS].rows else []);
      assert [] + CarriedAll(was, model[MAP]) == CarriedAll(was, model[MAP]);
    }
  }

  /**
   Exactly when a start-up goes through: if there is an old message_map, the
   copy's name is free, the old table has the columns that are carried over,
   none of its rows has a NULL where there must be none, every one belongs to a
   task that is there, and no two of them share a task and a source message.
   Otherwise, which error it is.
   */
  lemma MigratesExactlyWhen(db: Tables, model: Model, additions: seq<Addition>)
    requires WellFormed(db) && Declares(model, additions)
    ensures Migrate(db, model, additions).Ok? <==> (OldMap(db) ==> "message_map_legacy" !in db && Movable(db))
    ensures Migrate(db, model, additions).Err? ==>
              Migrate(db, model, additions).error ==
                if "message_map_legacy" in db then TableExists
                else if !({"task_id", "src_msg_id", "dst_msg_id", "content_hash", "created_at"} <= db["message_map"].columns) then MissingColumn
                else IntegrityError
  {
    MovesExactlyOldMaps(db);
    if NeedsMove(db) && LEGACY !in db {
      CopyGoesThrough(db, model, additions);
    }
  }

  lemma CarriedAreMoved(was: seq<Row>, columns: set<string>)
    requires CARRIED + {DEST} <= columns && forall i :: 0 <= i < |was| ==> CARRIED <= was[i].Keys
    ensures Moved(was, CarriedAll(was, columns))
  {
    forall i | 0 <= i < |was| ensures MovedRow(was[i], CarriedAll(was, columns)[i], i) {
      CarriedIsMoved(was[i], i, columns);
    }
  }

  lemma CarriedIsMoved(was: Row, i: nat, columns: set<string>)
    requires CARRIED + {DEST} <= columns && CARRIED <= was.Keys
    ensures MovedRow(was, Carried(was, i + 1, columns), i)
  {
  }

  /** After a move message_map holds exactly the old rows, in order, cell by cell, and the copy is gone. */
  lemma RowsMoved(db: Tables, model: Model, additions: seq<Addition>)
    requires WellFormed(db) && Declares(model, additions) && OldMap(db)
    requires Migrate(db, model, additions).Ok?
    ensures var db' := Migrate(db, model, additions).value;
            && "message_map" in db' && "message_map_legacy" !in db'
            && db'["message_map"].columns == model["message_map"]
            && Moved(db["message_map"].rows, db'["message_map"].rows)
  {
    MovesExactlyOldMaps(db);
    ReadyToCopy(db, model, additions);
    CopiedRows(Ready(db, model, additions));
    CopyGoesThrough(db, model, additions);
    forall i | 0 <= i < |db[MAP].rows| ensures CARRIED <= db[MAP].rows[i].Keys {
      assert db[MAP].rows[i].Keys == db[MAP].columns;
    }
    CarriedAreMoved(db[MAP].rows, model[MAP]);
  }

  lemma GrowsUntilReady(db: Tables, model: Model, additions: seq<Addition>)
    requires WellFormed(db) && Declares(model, additions) && Prepare(db).Ok?
    ensures Grown(Prepare(db).value, Ready(db, model, additions))
  {
    var prepared := Prepare(db).value;
    PreparedSafe(db);
    CreateAllGrows(prepared, model);
    AddMissingGrows(CreateAll(prepared, model), additions);
    GrownTwice(prepared, CreateAll(prepared, model), Ready(db, model, additions));
  }

  /** Renaming, copying and dropping concern two tables. */
  lemma OthersSame(db: Tables, model: Model, additions: seq<Addition>, t: string)
    requires WellFormed(db) && Declares(model, additions) && Migrate(db, model, additions).Ok?
    requires NeedsMove(db) ==> t != MAP && t != LEGACY
    ensures t in db ==> t in Prepare(db).value && Prepare(db).value[t] == db[t]
    ensures t in Ready(db, model, additions) ==>
              t in Migrate(db, model, additions).value && Migrate(db, model, additions).value[t] == Ready(db, model, additions)[t]
  {
  }

  /** The new tables apart, a start-up only ever adds: no table, column or cell of the others is touched. */
  lemma OthersKept(db: Tables, model: Model, additions: seq<Addition>)
    requires WellFormed(db) && Declares(model, additions) && Migrate(db, model, additions).Ok?
    ensures var db' := Migrate(db, model, additions).value;
            forall t :: t in db && (OldMap(db) ==> t != "message_map") ==> t in db' && Extends(db[t], db'[t])
  {
    MovesExactlyOldMaps(db);
    var prepared, ready := Prepare(db).value, Ready(db, model, additions);
    GrowsUntilReady(db, model, additions);
    forall t | t in db && (OldMap(db) ==> t != "message_map")
      ensures t in Migrate(db, model, additions).value && Extends(db[t], Migrate(db, model, additions).value[t])
    {
      assert NeedsMove(db) ==> LEGACY !in db;
      OthersSame(db, model, additions, t);
      assert Extends(prepared[t], ready[t]);
    }
  }

  /** The copy and the drop change no table's columns. */
  lemma SameColumnsAsReady(db: Tables, model: Model, additions: seq<Addition>)
    requires WellFormed(db) && Declares(model, additions) && Migrate(db, model, additions).Ok?
    ensures var db', ready := Migrate(db, model, additions).value, Ready(db, model, additions);
            && (forall t :: t in ready && t != LEGACY ==> t in db')
            && (forall t :: t in db' ==> t in ready && db'[t].columns == ready[t].columns)
  {
    if NeedsMove(db) {
      ReadyToCopy(db, model, additions);
      CopiedRows(Ready(db, model, additions));
    }
  }

  lemma DestinationReady(db: Tables, model: Model, additions: seq<Addition>)
    requires WellFormed(db) && Declares(model, additions) && Prepare(db).Ok?
    ensures MAP in Ready(db, model, additions) && DEST in Ready(db, model, additions)[MAP].columns
  {
    if NeedsMove(db) {
      ReadyToCopy(db, model, additions);
    } else {
      CreateAllGrows(db, model);
      AddMissingGrows(CreateAll(db, model), additions);
      assert DEST in CreateAll(db, model)[MAP].columns;
      assert Extends(CreateAll(db, model)[MAP], Ready(db, model, additions)[MAP]);
    }
  }

  lemma ListedReady(db: Tables, model: Model, additions: seq<Addition>)
    requires WellFormed(db) && Declares(model, additions) && Prepare(db).Ok?
    ensures model.Keys <= Ready(db, model, additions).Keys && AllListed(Ready(db, model, additions), additions)
  {
    var prepared := Prepare(db).value;
    PreparedSafe(db);
    CreateAllGrows(prepared, model);
    AddMissingGrows(CreateAll(prepared, model), additions);
  }

  /** Every listed column is there afterwards, whatever the schema was before. */
  lemma AllListedPresent(db: Tables, model: Model, additions: seq<Addition>)
    requires WellFormed(db) && Declares(model, additions) && Migrate(db, model, additions).Ok?
    ensures var db' := Migrate(db, model, additions).value;
            && model.Keys <= db'.Keys
            && "dest_chat" in db'["message_map"].columns
            && forall i :: 0 <= i < |additions| ==>
                 additions[i].table in db' && Names(additions[i].columns) <= db'[additions[i].table].columns
  {
    var db', ready := Migrate(db, model, additions).value, Ready(db, model, additions);
    ListedReady(db, model, additions);
    DestinationReady(db, model, additions);
    SameColumnsAsReady(db, model, additions);
    assert forall t :: t in model ==> t in db';
    forall i | 0 <= i < |additions|
      ensures additions[i].table in db' && Names(additions[i].columns) <= db'[additions[i].table].columns
    {
      assert additions[i].table in model && additions[i].table in ready;
    }
  }

  // What is added, and that nothing else is.

  function ListedNames(additions: seq<Addition>, table: string): set<string> {
    if additions == [] then {}
    else
      var last := additions[|additions| - 1];
      ListedNames(additions[..|additions| - 1], table) + if last.table == table then Names(last.columns) else {}
  }

  lemma {:induction false} ListedNamesAre(additions: seq<Addition>, table: string)
    ensures forall c :: c in ListedNames(additions, table) <==>
              exists i, k :: 0 <= i < |additions| && 0 <= k < |additions[i].columns|
                             && additions[i].table == table && additions[i].columns[k].name == c
    decreases |additions|
  {
    if additions == [] {
    } else {
      var n := |additions| - 1;
      ListedNamesAre(additions[..n], table);
      NamesOf(additions[n].columns);
      assert additions == additions[..n] + [additions[n]];
    }
  }

  lemma {:induction false} ColumnsWhenReady(db: Tables, additions: seq<Addition>, table: string)
    requires WellFormed(db) && Listing(additions) && table in db
    ensures table in AddMissing(db, additions)
    ensures AddMissing(db, additions)[table].columns == db[table].columns + ListedNames(additions, table)
    decreases |additions|
  {
    if additions == [] {
    } else {
      var n := |additions| - 1;
      var before, last := AddMissing(db, additions[..n]), additions[n];
      AddMissingGrows(db, additions[..n]);
      ColumnsWhenReady(db, additions[..n], table);
      if last.table in before {
        AddListedGrows(before, last.table, last.columns);
        if last.table != table {
          OthersUntouched(before, last.table, last.columns, ColumnsOf(before, last.table), table);
        }
      }
    }
  }

  /** Which tables there are afterwards: the old ones and the models', and no copy is left behind. */
  lemma TablesAfter(db: Tables, model: Model, additions: seq<Addition>)
    requires WellFormed(db) && Declares(model, additions) && Migrate(db, model, additions).Ok?
    ensures Migrate(db, model, additions).value.Keys == db.Keys + model.Keys
  {
    KeepsTables(CreateAll(Prepare(db).value, model), additions);
  }

  /** A new table is empty and has the columns its model declares. */
  lemma NewTablesEmpty(db: Tables, model: Model, additions: seq<Addition>, table: string)
    requires WellFormed(db) && Declares(model, additions) && Migrate(db, model, additions).Ok?
    requires table in model && table !in db
    ensures table in Migrate(db, model, additions).value
    ensures Migrate(db, model, additions).value[table] == Table(model[table], [])
  {
    var created := CreateAll(Prepare(db).value, model);
    forall i | 0 <= i < |additions| && additions[i].table == table ensures Names(additions[i].columns) <= created[table].columns {
    }
    Untouched(created, additions, table);
    OthersSame(db, model, additions, table);
  }

  /** An old table has its old columns and the ones listed for it, no others. */
  lemma ColumnsAfter(db: Tables, model: Model, additions: seq<Addition>, table: string)
    requires WellFormed(db) && Declares(model, additions) && Migrate(db, model, additions).Ok?
    requires table in db && (OldMap(db) ==> table != "message_map")
    ensures table in Migrate(db, model, additions).value
    ensures forall c :: c in Migrate(db, model, additions).value[table].columns <==>
              c in db[table].columns
              || exists i, k :: 0 <= i < |additions| && 0 <= k < |additions[i].columns|
                                && additions[i].table == table && additions[i].columns[k].name == c
  {
    MovesExactlyOldMaps(db);
    PreparedSafe(db);
    CreateAllGrows(Prepare(db).value, model);
    assert NeedsMove(db) ==> LEGACY !in db;
    OthersSame(db, model, additions, table);
    ColumnsWhenReady(CreateAll(Prepare(db).value, model), additions, table);
    ListedNamesAre(additions, table);
  }

  /** Every row of the table has this value in this column. */
  ghost predicate AllHold(db: Tables, table: string, column: Column) {
    && table in db
    && forall r :: 0 <= r < |db[table].rows| ==> column.name in db[table].rows[r] && db[table].rows[r][column.name] == column.initial
  }

  lemma AddedHolds(db: Tables, table: string, column: Column)
    requires table in db
    ensures AllHold(AddColumn(db, table, column), table, column)
  {
  }

  lemma StillHolds(db: Tables, table: string, last: Column, column: Column)
    requires AllHold(db, table, column) && last.name != column.name
    ensures AllHold(AddColumn(db, table, last), table, column)
  {
  }

  lemma {:induction false} ListedInitial(db: Tables, table: string, columns: seq<Column>, k: nat)
    requires table in db && DistinctNames(columns) && k < |columns|
    requires columns[k].name !in db[table].columns
    ensures AllHold(AddListed(db, table, columns, db[table].columns), table, columns[k])
    decreases |columns|
  {
    var n, existing := |columns| - 1, db[table].columns;
    var before := AddListed(db, table, columns[..n], existing);
    if k == n {
      AddedHolds(before, table, columns[n]);
    } else {
      ListedInitial(db, table, columns[..n], k);
      StillHolds(before, table, columns[n], columns[k]);
    }
  }

  lemma {:induction false} AddedInitial(db: Tables, additions: seq<Addition>, i: nat, k: nat)
    requires WellFormed(db) && Listing(additions) && i < |additions| && k < |additions[i].columns|
    requires additions[i].table in db && additions[i].columns[k].name !in db[additions[i].table].columns
    ensures AllHold(AddMissing(db, additions), additions[i].table, additions[i].columns[k])
    decreases |additions|
  {
    var n := |additions| - 1;
    var before, last := AddMissing(db, additions[..n]), additions[n];
    AddMissingGrows(db, additions[..n]);
    if i < n {
      AddedInitial(db, additions[..n], i, k);
      if last.table in before {
        OthersUntouched(before, last.table, last.columns, ColumnsOf(before, last.table), additions[i].table);
      }
    } else {
      Untouched(db, additions[..n], last.table);
      ListedInitial(before, last.table, last.columns, k);
    }
  }

  /** A column that was missing from a table holds its declared default in every row that was there. */
  lemma NewCellsHoldDefaults(db: Tables, model: Model, additions: seq<Addition>, i: nat, k: nat)
    requires WellFormed(db) && Declares(model, additions) && Migrate(db, model, additions).Ok?
    requires i < |additions| && k < |additions[i].columns|
    requires additions[i].table in db && (OldMap(db) ==> additions[i].table != "message_map")
    requires additions[i].columns[k].name !in db[additions[i].table].columns
    ensures AllHold(Migrate(db, model, additions).value, additions[i].table, additions[i].columns[k])
  {
    var prepared := Prepare(db).value;
    MovesExactlyOldMaps(db);
    PreparedSafe(db);
    CreateAllGrows(prepared, model);
    assert additions[i].table != LEGACY;
    AddedInitial(CreateAll(prepared, model), additions, i, k);
  }

  /** A second start-up changes nothing. */
  lemma MigrateTwice(db: Tables, model: Model, additions: seq<Addition>)
    requires WellFormed(db) && Declares(model, additions) && Migrate(db, model, additions).Ok?
    ensures Migrate(Migrate(db, model, additions).value, model, additions) == Migrate(db, model, additions)
  {
    var db' := Migrate(db, model, additions).value;
    AllListedPresent(db, model, additions);
    assert CreateAll(db', model) == db';
    NothingMissing(db', additions);
  }

  /** A renamed copy is cleared away by the run that made it and by no other. */
  lemma LegacyStays(db: Tables, model: Model, additions: seq<Addition>)
    requires WellFormed(db) && Declares(model, additions) && Migrate(db, model, additions).Ok?
    ensures var db' := Migrate(db, model, additions).value;
            && ("message_map_legacy" in db' <==> "message_map_legacy" in db)
            && ("message_map_legacy" in db ==> Extends(db["message_map_legacy"], db'["message_map_legacy"]))
  {
    KeepsTables(CreateAll(Prepare(db).value, model), additions);
    if LEGACY in db {
      assert !NeedsMove(db);
      OthersKept(db, model, additions);
      assert Extends(db[LEGACY], Migrate(db, model, additions).value[LEGACY]);
    }
  }

  /**
   Why the transaction matters: were the rename kept and the rest lost, later
   start-ups would succeed with an empty message_map and leave the rows aside.
   */
  lemma InterruptedRenameStrandsRows(db: Tables, model: Model, additions: seq<Addition>)
    requires WellFormed(db) && Declares(model, additions) && OldMap(db) && "message_map_legacy" !in db
    ensures var renamed := Prepare(db).value;
            var later := Migrate(renamed, model, additions);
            && later.Ok? && "message_map" in later.value && later.value["message_map"].rows == []
            && Holds(later.value, "message_map_legacy", db["message_map"].rows)
  {
    MovesExactlyOldMaps(db);
    ReadyToCopy(db, model, additions);
    var renamed := Prepare(db).value;
    assert Prepare(renamed) == Ok(renamed);
    assert Ready(renamed, model, additions) == Ready(db, model, additions);
  }

  // ------------------------------------------------------------ the shipped additions

  const OFF := Int(0)
  const EMPTY := Text("")
  const NO_JSON := Text("{}")

  const CREDIT_COLUMNS: seq<Column> := [
    Column("watermark_credits", OFF), Column("history_credits", OFF), Column("ai_credits", OFF),
    Column("limits", NO_JSON), Column("wallet_toman", OFF), Column("referred_by", Null),
    Column("auto_renew", OFF), Column("is_reseller", OFF), Column("reseller_discount", OFF),
    Column("owned_by", Null)]

  const ACCOUNT_COLUMNS: seq<Column> := [
    Column("reseller_keeps", Int(1)), Column("account_state", Text("ok")),
    Column("account_note", EMPTY), Column("account_checked_at", Null), Column("language", Text("fa")),
    Column("display_level", Text("simple")), Column("daily_digest", OFF), Column("account_premium", OFF),
    Column("terms_version", OFF), Column("terms_accepted_at", Null)]

  const USER_COLUMNS: seq<Column> := CREDIT_COLUMNS + ACCOUNT_COLUMNS

  const PAYMENT_COLUMNS: seq<Column> := [
    Column("kind", Text("plan")), Column("quantity", OFF), Column("amount_toman", OFF), Column("coupon_code", EMPTY),
    Column("discount_toman", OFF), Column("credit_toman", OFF), Column("list_toman", OFF),
    Column("pay_method", Text("card")), Column("usdt_amount", EMPTY), Column("usdt_rate", OFF), Column("tx_hash", EMPTY)]

  const DESTINATION_COLUMNS: seq<Column> := [Column("overrides", NO_JSON)]
  const TASK_COLUMNS: seq<Column> := [Column("source_kind", Text("telegram")), Column("mode", Text("full"))]
  const LOG_COLUMNS: seq<Column> := [Column("actor_id", Null)]
  const MAP_COLUMNS: seq<Column> := [Column("norm_hash", Null), Column("simhash", Null)]
  const TIMING_COLUMNS: seq<Column> := [Column("via", EMPTY)]

  const ADDITIONS: seq<Addition> := [
    Addition("destinations", DESTINATION_COLUMNS), Addition(TASKS, TASK_COLUMNS), Addition("users", USER_COLUMNS),
    Addition("activity_log", LOG_COLUMNS), Addition(MAP, MAP_COLUMNS), Addition("delivery_timings", TIMING_COLUMNS),
    Addition("payment_requests", PAYMENT_COLUMNS)]

  /** What the models declare of the tables in the list. */
  const DECLARED_USERS: set<string> := {
    "id", "first_name", "username", "phone", "session_enc", "account_id", "account_name", "account_premium", "pin_hash",
    "terms_version", "terms_accepted_at", "is_banned", "created_at", "watermark_credits", "history_credits", "ai_credits",
    "limits", "wallet_toman", "referred_by", "auto_renew", "is_reseller", "reseller_discount", "owned_by",
    "reseller_keeps", "account_state", "account_note", "account_checked_at", "language", "display_level", "daily_digest"}

  const DECLARED_TASKS: set<string> := {
    "id", "user_id", "title", "mode", "source_kind", "source_id", "source_ref", "source_title", "dest_id", "dest_ref",
    "dest_title", "enabled", "settings", "copied_count", "skipped_count", "last_copy_at", "last_error", "created_at"}

  const DECLARED_DESTINATIONS: set<string> := {
    "id", "task_id", "chat_id", "ref", "title", "enabled", "overrides", "created_at"}

  const DECLARED_MAP: set<string> := {
    "id", TASK, SRC, "dst_msg_id", DEST, "content_hash", "norm_hash", "simhash", "created_at"}

  const DECLARED_PAYMENTS: set<string> := {
    "id", "user_id", "plan_code", "kind", "quantity", "amount_toman", "coupon_code", "discount_toman", "credit_toman",
    "list_toman", "pay_method", "usdt_amount", "usdt_rate", "tx_hash", "receipt_file_id", "receipt_kind", "note",
    "status", "reviewed_by", "reviewed_at", "created_at"}

  const DECLARED_LOG: set<string> := {
    "id", "user_id", "task_id", "level", "event", "detail", "actor_id", "created_at"}

  const DECLARED_TIMINGS: set<string> := {
    "id", "task_id", "user_id", "source_msg_id", "published_at", "seconds", "path", "via", "media_kind", "size_bytes",
    "created_at"}

  /** A model with these tables as declared, and any others. */
  ghost predicate ShippedModel(model: Model) {
    && "destinations" in model && model["destinations"] == DECLARED_DESTINATIONS
    && TASKS in model && model[TASKS] == DECLARED_TASKS
    && "users" in model && model["users"] == DECLARED_USERS
    && "activity_log" in model && model["activity_log"] == DECLARED_LOG
    && MAP in model && model[MAP] == DECLARED_MAP
    && "delivery_timings" in model && model["delivery_timings"] == DECLARED_TIMINGS
    && "payment_requests" in model && model["payment_requests"] == DECLARED_PAYMENTS
    && LEGACY !in model && forall t :: t in model ==> model[t] != {}
  }

  ghost predicate Apart(a: seq<Column>, b: seq<Column>) {
    forall i, j :: 0 <= i < |a| && 0 <= j < |b| ==> a[i].name != b[j].name
  }

  lemma CreditColumnsDiffer()
    ensures WellListed(CREDIT_COLUMNS)
  {
  }

  lemma AccountColumnsDiffer()
    ensures WellListed(ACCOUNT_COLUMNS)
  {
  }

  lemma UserColumnsApart()
    ensures Apart(CREDIT_COLUMNS, ACCOUNT_COLUMNS)
  {
  }

  lemma WellListedTogether(a: seq<Column>, b: seq<Column>)
    requires WellListed(a) && WellListed(b) && Apart(a, b)
    ensures WellListed(a + b)
  {
  }

  lemma UserColumns()
    ensures WellListed(USER_COLUMNS) && Names(USER_COLUMNS) <= DECLARED_USERS
  {
    CreditColumnsDiffer();
    AccountColumnsDiffer();
    UserColumnsApart();
    WellListedTogether(CREDIT_COLUMNS, ACCOUNT_COLUMNS);
    CreditColumnsDeclared();
    AccountColumnsDeclared();
    NamesWithin(USER_COLUMNS, DECLARED_USERS);
  }

  lemma CreditColumnsDeclared()
    ensures forall k :: 0 <= k < |CREDIT_COLUMNS| ==> CREDIT_COLUMNS[k].name in DECLARED_USERS
  {
  }

  lemma AccountColumnsDeclared()
    ensures forall k :: 0 <= k < |ACCOUNT_COLUMNS| ==> ACCOUNT_COLUMNS[k].name in DECLARED_USERS
  {
  }

  lemma PaymentColumnsDiffer()
    ensures DistinctNames(PAYMENT_COLUMNS)
  {
  }

  lemma PaymentColumns()
    ensures WellListed(PAYMENT_COLUMNS) && Names(PAYMENT_COLUMNS) <= DECLARED_PAYMENTS
  {
    PaymentColumnsDiffer();
    NamesWithin(PAYMENT_COLUMNS, DECLARED_PAYMENTS);
  }

  lemma TaskAndMapColumns()
    ensures WellListed(TASK_COLUMNS) && Names(TASK_COLUMNS) <= DECLARED_TASKS
    ensures WellListed(MAP_COLUMNS) && Names(MAP_COLUMNS) <= DECLARED_MAP
  {
    NamesWithin(TASK_COLUMNS, DECLARED_TASKS);
    NamesWithin(MAP_COLUMNS, DECLARED_MAP);
  }

  lemma OtherColumns()
    ensures WellListed(DESTINATION_COLUMNS) && Names(DESTINATION_COLUMNS) <= DECLARED_DESTINATIONS
    ensures WellListed(LOG_COLUMNS) && Names(LOG_COLUMNS) <= DECLARED_LOG
    ensures WellListed(TIMING_COLUMNS) && Names(TIMING_COLUMNS) <= DECLARED_TIMINGS
  {
    NamesWithin(DESTINATION_COLUMNS, DECLARED_DESTINATIONS);
    NamesWithin(LOG_COLUMNS, DECLARED_LOG);
    NamesWithin(TIMING_COLUMNS, DECLARED_TIMINGS);
  }

  lemma NamesWithin(columns: seq<Column>, declared: set<string>)
    requires forall k :: 0 <= k < |columns| ==> columns[k].name in declared
    ensures Names(columns) <= declared
  {
    NamesOf(columns);
  }

  lemma DistinctTables()
    ensures forall i, j :: 0 <= i < j < |ADDITIONS| ==> ADDITIONS[i].table != ADDITIONS[j].table
  {
  }

  /** The list in the code is one an upgrade can follow. */
  lemma ShippedListing()
    ensures Listing(ADDITIONS)
  {
    UserColumns();
    PaymentColumns();
    TaskAndMapColumns();
    OtherColumns();
    DistinctTables();
  }

  lemma ShippedFits(model: Model, i: nat)
    requires ShippedModel(model) && i < |ADDITIONS|
    ensures ADDITIONS[i].table in model && Names(ADDITIONS[i].columns) <= model[ADDITIONS[i].table]
  {
    UserColumns();
    PaymentColumns();
    TaskAndMapColumns();
    OtherColumns();
  }

  /** Models and list fit each other: everything proved of a start-up holds of the shipped one. */
  lemma ShippedDeclares(model: Model)
    requires ShippedModel(model)
    ensures Declares(model, ADDITIONS)
  {
    ShippedListing();
    forall i | 0 <= i < |ADDITIONS|
      ensures ADDITIONS[i].table in model && Names(ADDITIONS[i].columns) <= model[ADDITIONS[i].table]
    {
      ShippedFits(model, i);
    }
  }

  lemma ListedTasks()
    ensures ADDITIONS[1] == Addition("tasks", TASK_COLUMNS) && TASK_COLUMNS[1] == Column("mode", Text("full"))
    ensures ADDITIONS[5] == Addition("delivery_timings", TIMING_COLUMNS) && TIMING_COLUMNS[0] == Column("via", Text(""))
  {
  }

  lemma ListedUsers()
    ensures ADDITIONS[2] == Addition("users", USER_COLUMNS)
    ensures USER_COLUMNS[14] == Column("language", Text("fa")) && USER_COLUMNS[15] == Column("display_level", Text("simple"))
  {
    assert USER_COLUMNS[14] == ACCOUNT_COLUMNS[4] && USER_COLUMNS[15] == ACCOUNT_COLUMNS[5];
  }

  lemma DefaultArrives(db: Tables, model: Model, i: nat, k: nat, table: string, column: Column)
    requires WellFormed(db) && Declares(model, ADDITIONS) && Migrate(db, model, ADDITIONS).Ok?
    requires i < |ADDITIONS| && ADDITIONS[i].table == table && k < |ADDITIONS[i].columns| && ADDITIONS[i].columns[k] == column
    requires table != "message_map"
    ensures table in db && column.name !in db[table].columns ==> AllHold(Migrate(db, model, ADDITIONS).value, table, column)
  {
    if table in db && column.name !in db[table].columns {
      NewCellsHoldDefaults(db, model, ADDITIONS, i, k);
    }
  }

  /**
   What the shipped start-up says of rows that were there: jobs that are running
   stay full ones, a delivery that did not say how it came goes on not saying,
   and users keep answering in Persian and to the simple menu.
   */
  lemma ShippedDefaults(db: Tables, model: Model)
    requires WellFormed(db) && Declares(model, ADDITIONS) && Migrate(db, model, ADDITIONS).Ok?
    ensures var db' := Migrate(db, model, ADDITIONS).value;
            && ("tasks" in db && "mode" !in db["tasks"].columns ==> AllHold(db', "tasks", Column("mode", Text("full"))))
            && ("delivery_timings" in db && "via" !in db["delivery_timings"].columns ==>
                  AllHold(db', "delivery_timings", Column("via", Text(""))))
            && ("users" in db && "language" !in db["users"].columns ==> AllHold(db', "users", Column("language", Text("fa"))))
            && ("users" in db && "display_level" !in db["users"].columns ==>
                  AllHold(db', "users", Column("display_level", Text("simple"))))
  {
    ListedTasks();
    ListedUsers();
    DefaultArrives(db, model, 1, 1, "tasks", Column("mode", Text("full")));
    DefaultArrives(db, model, 5, 0, "delivery_timings", Column("via", Text("")));
    DefaultArrives(db, model, 2, 14, "users", Column("language", Text("fa")));
    DefaultArrives(db, model, 2, 15, "users", Column("display_level", Text("simple")));
  }
}
