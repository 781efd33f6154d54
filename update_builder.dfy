/** The `update` every data-access service repeats: the keys of a partial
    record minus a list of excluded names, each written `key = ?`, joined by
    `", "`, the values bound in the same order and the row id bound last. */
module UpdateBuilder {
  import opened Wrappers
  import opened Text
  import opened Seqs
  import opened Sql
  import opened Tables

  /** A partial record as `Object.keys` sees it: its present keys in order,
      each with its value. */
  type Patch = seq<(string, Value)>

  /** `Object.keys(patch).filter(k => !excluded.includes(k))`, each key with its value. */
  function Fields(patch: Patch, excluded: set<string>): (fields: Patch)
    ensures IsSubsequence(fields, patch)
    ensures forall i :: 0 <= i < |fields| ==> fields[i] in patch && fields[i].0 !in excluded
    ensures forall i :: 0 <= i < |patch| && patch[i].0 !in excluded ==> patch[i] in fields
  {
    FilterIsSubsequence(patch, Kept(excluded));
    Filter(patch, Kept(excluded))
  }

  /** The filter's test: the key is not excluded. */
  function Kept(excluded: set<string>): ((string, Value)) -> bool {
    (f: (string, Value)) => f.0 !in excluded
  }

  /** The statement `update` sends, or `None` when it returns early: with the
      guard, exactly when no key survives the exclusion; without it, never. */
  function BuildUpdate(table: string, patch: Patch, excluded: set<string>, id: int, guarded: bool): (cmd: Option<Command>)
    ensures cmd.None? <==> guarded && forall i :: 0 <= i < |patch| ==> patch[i].0 in excluded
    ensures cmd.Some? ==> cmd.value.Update? && cmd.value.table == table && cmd.value.id == id
    ensures cmd.Some? ==> forall i :: 0 <= i < |cmd.value.assignments| ==> cmd.value.assignments[i].0 !in excluded
  {
    var fields := Fields(patch, excluded);
    if guarded && fields == [] then None else Some(Update(table, fields, id))
  }

  /** The SET clause names the kept keys in their order in the record, and
      every kept key is there. */
  lemma SetClauseKeepsKeyOrder(table: string, patch: Patch, excluded: set<string>, id: int, guarded: bool)
    requires BuildUpdate(table, patch, excluded, id, guarded).Some?
    ensures var a := BuildUpdate(table, patch, excluded, id, guarded).value.assignments;
      && IsSubsequence(a, patch)
      && (forall i :: 0 <= i < |patch| && patch[i].0 !in excluded ==> patch[i] in a)
  {
  }

  /** The bound arguments are the kept values in the order of their keys, then
      the id; there are as many of them as `?` in the text. */
  lemma UpdateArgsAlign(table: string, patch: Patch, excluded: set<string>, id: int, guarded: bool)
    requires '?' !in table && forall i :: 0 <= i < |patch| ==> '?' !in patch[i].0
    requires BuildUpdate(table, patch, excluded, id, guarded).Some?
    ensures var cmd := BuildUpdate(table, patch, excluded, id, guarded).value;
      var st := Render(cmd);
      && |st.args| == |cmd.assignments| + 1
      && (forall i :: 0 <= i < |cmd.assignments| ==> st.args[i] == cmd.assignments[i].1)
      && st.args[|st.args| - 1] == Int(id)
      && Count(st.sql, '?') == |st.args|
  {
    var cmd := BuildUpdate(table, patch, excluded, id, guarded).value;
    forall i | 0 <= i < |cmd.assignments|
      ensures '?' !in cmd.assignments[i].0
    {
      assert cmd.assignments[i] in patch;
    }
    PlaceholdersMatchArgs(cmd);
    UpdateArgs(table, cmd.assignments, id);
  }

  /** The keys of a record are distinct, and so are the kept ones. */
  lemma {:induction false} FieldsDistinct(patch: Patch, excluded: set<string>)
    requires DistinctKeys(patch)
    ensures DistinctKeys(Fields(patch, excluded))
  {
    var p := Kept(excluded);
    if patch != [] {
      var rest := patch[1..];
      assert DistinctKeys(rest) by {
        forall i, j | 0 <= i < j < |rest| ensures rest[i].0 != rest[j].0 {
          assert rest[i] == patch[i + 1] && rest[j] == patch[j + 1];
        }
      }
      FieldsDistinct(rest, excluded);
      if p(patch[0]) {
        var tail := Filter(rest, p);
        forall j | 0 <= j < |tail| ensures tail[j].0 != patch[0].0 {
          var k :| 0 <= k < |rest| && rest[k] == tail[j];
          assert rest[k] == patch[k + 1];
        }
      }
    }
  }

  /** Run against a table, the update writes every kept value into row `id`,
      leaves its other cells and every other row as they were, and a missing
      row is no change. */
  lemma UpdateWritesOnlyKeptFields(schema: Schema, st: TableState, table: string, patch: Patch,
                                   excluded: set<string>, id: int, guarded: bool)
    requires DistinctKeys(patch)
    requires BuildUpdate(table, patch, excluded, id, guarded).Some?
    requires Apply(schema, st, BuildUpdate(table, patch, excluded, id, guarded).value).Ok?
    ensures var st' := Apply(schema, st, BuildUpdate(table, patch, excluded, id, guarded).value).value;
      && st'.rows.Keys == st.rows.Keys
      && (forall k :: k in st.rows && k != id ==> st'.rows[k] == st.rows[k])
      && (id in st.rows ==> st.rows[id].Keys <= st'.rows[id].Keys)
      && (id in st.rows ==> forall i :: 0 <= i < |patch| && patch[i].0 !in excluded ==> st'.rows[id][patch[i].0] == patch[i].1)
      && (id in st.rows ==> forall c :: c in st.rows[id] && (forall i :: 0 <= i < |patch| ==> patch[i].0 != c || c in excluded) ==>
            st'.rows[id][c] == st.rows[id][c])
  {
    var fields := Fields(patch, excluded);
    FieldsDistinct(patch, excluded);
    assert Update(table, fields, id) == BuildUpdate(table, patch, excluded, id, guarded).value;
    UpdateChangesOnlyListedCells(schema, st, fields, id);
    if id in st.rows {
      var st' := Apply(schema, st, Update(table, fields, id)).value;
      forall i | 0 <= i < |patch| && patch[i].0 !in excluded
        ensures st'.rows[id][patch[i].0] == patch[i].1
      {
        var j :| 0 <= j < |fields| && fields[j] == patch[i];
      }
      forall c | c in st.rows[id] && (forall i :: 0 <= i < |patch| ==> patch[i].0 != c || c in excluded)
        ensures st'.rows[id][c] == st.rows[id][c]
      {
        forall j | 0 <= j < |fields| ensures fields[j].0 != c {
          var i :| 0 <= i < |patch| && patch[i] == fields[j];
        }
      }
    }
  }

  /** `update`: nothing is sent when the guard returns early; otherwise the
      statement runs against the database. */
  method ExecuteUpdate(db: Database, table: string, patch: Patch, excluded: set<string>, id: int, guarded: bool)
    returns (r: Result<(), string>)
    requires db.Valid()
    modifies db
    ensures db.Valid()
    ensures BuildUpdate(table, patch, excluded, id, guarded).None? ==> r.Ok? && db.tables == old(db.tables)
    ensures BuildUpdate(table, patch, excluded, id, guarded).Some? ==>
      (r, db.tables) == Run(db.schemas, old(db.tables), BuildUpdate(table, patch, excluded, id, guarded).value)
  {
    var cmd := BuildUpdate(table, patch, excluded, id, guarded);
    if cmd.None? {
      return Ok(());
    }
    r := db.Execute(cmd.value);
  }
}
