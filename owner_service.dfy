/** `ownerService`: the statements it sends for the `owners` table. Its
    `update` has no early return, so a record with no field but the id still
    sends a statement. */
module OwnerService {
  import opened Wrappers
  import opened Text
  import opened Sql
  import opened Tables
  import opened UpdateBuilder

  const Table: string := "owners"

  const Excluded: set<string> := {"id"}

  const CreateColumns: seq<string> := ["cedula", "full_name", "phone", "email", "address"]

  /** What `create` receives: every field but the id. */
  datatype NewOwner = NewOwner(cedula: string, fullName: string, phone: string, email: string, address: string)

  function CreateArgs(owner: NewOwner): seq<Value> {
    [Text(owner.cedula), Text(owner.fullName), Text(owner.phone), Text(owner.email), Text(owner.address)]
  }

  function CreateCommand(owner: NewOwner): Command {
    Insert(Table, CreateColumns, Params(CreateArgs(owner)))
  }

  /** `create` binds five arguments to five `?`, in column order. */
  lemma CreateBindsFive(owner: NewOwner)
    ensures var st := Render(CreateCommand(owner));
      && st.args == [Text(owner.cedula), Text(owner.fullName), Text(owner.phone), Text(owner.email), Text(owner.address)]
      && Count(st.sql, '?') == 5
  {
    CreateColumnsPlain();
    ParamsInsertAligned(Table, CreateColumns, CreateArgs(owner));
  }

  lemma CreateColumnsPlain()
    ensures forall i :: 0 <= i < |CreateColumns| ==> '?' !in CreateColumns[i]
  {
  }

  /** `update`'s statement: always sent, and never naming the id. */
  function UpdateCommand(id: int, patch: Patch): (cmd: Command)
    ensures cmd.Update? && cmd.table == Table && cmd.id == id
    ensures forall i :: 0 <= i < |cmd.assignments| ==> cmd.assignments[i].0 != "id"
  {
    BuildUpdate(Table, patch, Excluded, id, false).value
  }

  /** With no field but the id, `update` still sends `UPDATE owners SET  WHERE id = ?`
      with the id as its only argument, and the database rejects it. */
  lemma EmptyUpdateStillSent(schema: Schema, st: TableState, id: int, patch: Patch)
    requires forall i :: 0 <= i < |patch| ==> patch[i].0 == "id"
    ensures UpdateCommand(id, patch) == Update(Table, [], id)
    ensures Render(UpdateCommand(id, patch)) == Statement("UPDATE " + Table + " SET  WHERE id = ?", [Int(id)])
    ensures Apply(schema, st, UpdateCommand(id, patch)).Err?
  {
    assert UpdateCommand(id, patch) == Update(Table, [], id);
    EmptySetClause(Table, id);
  }

  method CreateOwner(db: Database, owner: NewOwner) returns (r: Result<(), string>)
    requires db.Valid()
    modifies db
    ensures db.Valid()
    ensures (r, db.tables) == Run(db.schemas, old(db.tables), CreateCommand(owner))
  {
    r := db.Execute(CreateCommand(owner));
  }

  method UpdateOwner(db: Database, id: int, patch: Patch) returns (r: Result<(), string>)
    requires db.Valid()
    modifies db
    ensures db.Valid()
    ensures (r, db.tables) == Run(db.schemas, old(db.tables), UpdateCommand(id, patch))
  {
    r := ExecuteUpdate(db, Table, patch, Excluded, id, false);
  }

  method DeleteOwner(db: Database, id: int) returns (r: Result<(), string>)
    requires db.Valid()
    modifies db
    ensures db.Valid()
    ensures (r, db.tables) == Run(db.schemas, old(db.tables), Delete(Table, id))
  {
    r := db.Execute(Delete(Table, id));
  }
}
