/** The remote database as an abstract store: tables of rows keyed by an
    integer id, changed by the commands the services issue. */
module Tables {
  import opened Wrappers
  import opened Sql

  type Row = map<string, Value>

  /** The columns of a table, the `CHECK (c IN (...))` domains and the `DEFAULT`s. */
  datatype Schema = Schema(columns: set<string>, domains: map<string, set<Value>>, defaults: map<string, Value>)

  /** The rows by id, and the id `AUTOINCREMENT` gives the next insert. */
  datatype TableState = TableState(rows: map<int, Row>, nextId: int)

  /** A `CHECK` constraint passes on NULL and on a value of its domain. */
  predicate Checked(schema: Schema, row: Row) {
    forall c :: c in schema.domains && c in row ==>
      row[c] == Null || row[c] == Undefined || row[c] in schema.domains[c]
  }

  function CellValue(v: SqlValue): Value {
    match v
    case Param(x) => x
    case Literal(l) => Text(l)
  }

  /** The columns of an insert paired with their values. */
  function Given(columns: seq<string>, values: seq<SqlValue>): (r: Row)
    requires |columns| == |values|
    ensures forall c :: c in r <==> c in columns
  {
    if columns == [] then map[]
    else Given(columns[1..], values[1..])[columns[0] := CellValue(values[0])]
  }

  /** The first column of that name gets its value. */
  lemma {:induction false} GivenAt(columns: seq<string>, values: seq<SqlValue>, i: int)
    requires |columns| == |values| && 0 <= i < |columns|
    requires columns[i] !in columns[..i]
    ensures columns[i] in Given(columns, values) && Given(columns, values)[columns[i]] == CellValue(values[i])
  {
    if i > 0 {
      assert columns[1..][..i - 1] == columns[..i][1..];
      GivenAt(columns[1..], values[1..], i - 1);
    }
  }

  /** An insert that gives a checked column a value outside its domain fails
      the `CHECK` constraint, or an earlier test, and is rejected. */
  lemma InsertOutsideDomainRejected(schema: Schema, st: TableState, columns: seq<string>, values: seq<SqlValue>, i: int)
    requires |columns| == |values| && 0 <= i < |columns|
    requires columns[i] !in columns[..i] && columns[i] != "id" && columns[i] in schema.domains
    requires CellValue(values[i]) != Null && CellValue(values[i]) != Undefined
    requires CellValue(values[i]) !in schema.domains[columns[i]]
    ensures ApplyInsert(schema, st, columns, values).Err?
  {
    GivenAt(columns, values, i);
    if !(exists c :: c in columns && c !in schema.columns) {
      var row := schema.defaults + Given(columns, values) + map["id" := Int(st.nextId)];
      assert row[columns[i]] == CellValue(values[i]);
    }
  }

  /** The assignments of an update applied in order. */
  function AssignAll(row: Row, assignments: seq<(string, Value)>): (r: Row)
    ensures forall c :: c in r <==> c in row || exists i :: 0 <= i < |assignments| && assignments[i].0 == c
    decreases |assignments|
  {
    if assignments == [] then row
    else
      var r := AssignAll(row[assignments[0].0 := assignments[0].1], assignments[1..]);
      assert forall i :: 1 <= i < |assignments| ==> assignments[i] == assignments[1..][i - 1];
      r
  }

  predicate DistinctKeys(assignments: seq<(string, Value)>) {
    forall i, j :: 0 <= i < j < |assignments| ==> assignments[i].0 != assignments[j].0
  }

  lemma {:induction false} AssignAllCells(row: Row, assignments: seq<(string, Value)>)
    requires DistinctKeys(assignments)
    ensures forall i :: 0 <= i < |assignments| ==> AssignAll(row, assignments)[assignments[i].0] == assignments[i].1
    ensures forall c :: c in row && (forall i :: 0 <= i < |assignments| ==> assignments[i].0 != c) ==>
      AssignAll(row, assignments)[c] == row[c]
    decreases |assignments|
  {
    if assignments != [] {
      var row' := row[assignments[0].0 := assignments[0].1];
      var rest := assignments[1..];
      AssignAllCells(row', rest);
      forall i | 0 <= i < |assignments|
        ensures AssignAll(row, assignments)[assignments[i].0] == assignments[i].1
      {
        if i > 0 {
          assert assignments[i] == rest[i - 1];
        } else {
          assert forall j :: 0 <= j < |rest| ==> rest[j].0 != assignments[0].0 by {
            forall j | 0 <= j < |rest| ensures rest[j].0 != assignments[0].0 {
              assert rest[j] == assignments[j + 1];
            }
          }
        }
      }
      forall c | c in row && (forall i :: 0 <= i < |assignments| ==> assignments[i].0 != c)
        ensures AssignAll(row, assignments)[c] == row[c]
      {
        assert assignments[0].0 != c;
        forall j | 0 <= j < |rest| ensures rest[j].0 != c {
          assert rest[j] == assignments[j + 1];
        }
      }
    }
  }

  function ApplyInsert(schema: Schema, st: TableState, columns: seq<string>, values: seq<SqlValue>): Result<TableState, string> {
    if |columns| != |values| then Err("column count does not match value count")
    else if exists c :: c in columns && c !in schema.columns then Err("no such column")
    else
      var row := schema.defaults + Given(columns, values) + map["id" := Int(st.nextId)];
      if !Checked(schema, row) then Err("CHECK constraint failed")
      else Ok(TableState(st.rows[st.nextId := row], st.nextId + 1))
  }

  function ApplyUpdate(schema: Schema, st: TableState, assignments: seq<(string, Value)>, id: int): Result<TableState, string> {
    if assignments == [] then Err("syntax error")
    else if exists i :: 0 <= i < |assignments| && assignments[i].0 !in schema.columns then Err("no such column")
    else if id !in st.rows then Ok(st)
    else
      var row := AssignAll(st.rows[id], assignments);
      if !Checked(schema, row) then Err("CHECK constraint failed")
      else Ok(TableState(st.rows[id := row], st.nextId))
  }

  /** A command against one table. */
  function Apply(schema: Schema, st: TableState, cmd: Command): Result<TableState, string> {
    match cmd
    case Insert(_, columns, values) => ApplyInsert(schema, st, columns, values)
    case Update(_, assignments, id) => ApplyUpdate(schema, st, assignments, id)
    case Delete(_, id) => Ok(TableState(st.rows - {id}, st.nextId))
  }

  /** An update changes only the listed cells of row `id` and nothing else;
      a missing row is no change. */
  lemma UpdateChangesOnlyListedCells(schema: Schema, st: TableState, assignments: seq<(string, Value)>, id: int)
    requires DistinctKeys(assignments)
    requires Apply(schema, st, Update("", assignments, id)).Ok?
    ensures var st' := Apply(schema, st, Update("", assignments, id)).value;
      && st'.nextId == st.nextId
      && st'.rows.Keys == st.rows.Keys
      && (forall k :: k in st.rows && k != id ==> st'.rows[k] == st.rows[k])
      && (id in st.rows ==> forall i :: 0 <= i < |assignments| ==> st'.rows[id][assignments[i].0] == assignments[i].1)
      && (id in st.rows ==> forall c :: c in st.rows[id] && (forall i :: 0 <= i < |assignments| ==> assignments[i].0 != c) ==>
            st'.rows[id][c] == st.rows[id][c])
  {
    if id in st.rows {
      AssignAllCells(st.rows[id], assignments);
    }
  }

  /** A delete removes row `id` and only that row. */
  lemma DeleteRemovesOnlyRow(schema: Schema, st: TableState, table: string, id: int)
    ensures Apply(schema, st, Delete(table, id)).Ok?
    ensures var st' := Apply(schema, st, Delete(table, id)).value;
      id !in st'.rows && forall k :: k != id ==> (k in st'.rows <==> k in st.rows) && (k in st.rows ==> st'.rows[k] == st.rows[k])
  {
  }

  /** An update with no assignments is a syntax error and changes nothing. */
  lemma EmptyUpdateRejected(schema: Schema, st: TableState, table: string, id: int)
    ensures Apply(schema, st, Update(table, [], id)).Err?
  {
  }

  /** What `turso.execute(cmd)` answers and the tables afterwards: the
      command's table changes as `Apply` says, or nothing changes and the
      error comes back. */
  function Run(schemas: map<string, Schema>, tables: map<string, TableState>, cmd: Command): (out: (Result<(), string>, map<string, TableState>))
    requires tables.Keys == schemas.Keys
    ensures out.1.Keys == tables.Keys
    ensures out.0.Err? ==> out.1 == tables
    ensures forall t :: t in tables && t != cmd.table ==> out.1[t] == tables[t]
  {
    if cmd.table !in schemas then (Err("no such table: " + cmd.table), tables)
    else
      match Apply(schemas[cmd.table], tables[cmd.table], cmd)
      case Ok(st) => (Ok(()), tables[cmd.table := st])
      case Err(e) => (Err(e), tables)
  }

  /** The database: a state per table of a fixed schema. */
  class Database {
    const schemas: map<string, Schema>
    var tables: map<string, TableState>

    constructor (schemas: map<string, Schema>)
      ensures this.schemas == schemas
      ensures tables == map t | t in schemas :: TableState(map[], 1)
    {
      this.schemas := schemas;
      tables := map t | t in schemas :: TableState(map[], 1);
    }

    predicate Valid()
      reads this
    {
      tables.Keys == schemas.Keys
    }

    /** `turso.execute(statement)`. */
    method Execute(cmd: Command) returns (r: Result<(), string>)
      requires Valid()
      modifies this
      ensures Valid()
      ensures (r, tables) == Run(schemas, old(tables), cmd)
    {
      if cmd.table !in schemas {
        return Err("no such table: " + cmd.table);
      }
      var result := Apply(schemas[cmd.table], tables[cmd.table], cmd);
      match result
      case Ok(st) =>
        tables := tables[cmd.table := st];
        return Ok(());
      case Err(e) =>
        return Err(e);
    }
  }
}
