/** `patientService`: the statements it sends for the `patients` table. */
module PatientService {
  import opened Wrappers
  import opened Text
  import opened Sql
  import opened Tables
  import opened UpdateBuilder

  const Table: string := "patients"

  /** The id and the owner's name `getAll` joins in, which `update` never writes. */
  const Excluded: set<string> := {"id", "owner_name"}

  const CreateColumns: seq<string> := ["owner_id", "name", "species", "breed", "age_months", "weight_kg"]

  /** What `create` receives: no id and no joined name. */
  datatype NewPatient = NewPatient(ownerId: int, name: string, species: string, breed: string, ageMonths: int, weightKg: real)

  function CreateArgs(patient: NewPatient): seq<Value> {
    [Int(patient.ownerId), Text(patient.name), Text(patient.species), Text(patient.breed),
     Int(patient.ageMonths), Real(patient.weightKg)]
  }

  function CreateCommand(patient: NewPatient): Command {
    Insert(Table, CreateColumns, Params(CreateArgs(patient)))
  }

  /** `create` binds six arguments to six `?`, in the order
      `owner_id, name, species, breed, age_months, weight_kg`. */
  lemma CreateBindsSix(patient: NewPatient)
    ensures var st := Render(CreateCommand(patient));
      && st.args == [Int(patient.ownerId), Text(patient.name), Text(patient.species), Text(patient.breed),
                     Int(patient.ageMonths), Real(patient.weightKg)]
      && Count(st.sql, '?') == 6
  {
    CreateColumnsPlain();
    ParamsInsertAligned(Table, CreateColumns, CreateArgs(patient));
  }

  lemma CreateColumnsPlain()
    ensures forall i :: 0 <= i < |CreateColumns| ==> '?' !in CreateColumns[i]
  {
  }

  /** `update`'s statement: none when no key is left after the exclusions; the
      SET clause never names the id or the owner's name. */
  function UpdateCommand(id: int, patch: Patch): (cmd: Option<Command>)
    ensures cmd.None? <==> forall i :: 0 <= i < |patch| ==> patch[i].0 in Excluded
    ensures cmd.Some? ==> cmd.value.table == Table && cmd.value.Update? && cmd.value.id == id
    ensures cmd.Some? ==> forall i :: 0 <= i < |cmd.value.assignments| ==>
      cmd.value.assignments[i].0 != "id" && cmd.value.assignments[i].0 != "owner_name"
  {
    BuildUpdate(Table, patch, Excluded, id, true)
  }

  method CreatePatient(db: Database, patient: NewPatient) returns (r: Result<(), string>)
    requires db.Valid()
    modifies db
    ensures db.Valid()
    ensures (r, db.tables) == Run(db.schemas, old(db.tables), CreateCommand(patient))
  {
    r := db.Execute(CreateCommand(patient));
  }

  method UpdatePatient(db: Database, id: int, patch: Patch) returns (r: Result<(), string>)
    requires db.Valid()
    modifies db
    ensures db.Valid()
    ensures UpdateCommand(id, patch).None? ==> r.Ok? && db.tables == old(db.tables)
    ensures UpdateCommand(id, patch).Some? ==> (r, db.tables) == Run(db.schemas, old(db.tables), UpdateCommand(id, patch).value)
  {
    r := ExecuteUpdate(db, Table, patch, Excluded, id, true);
  }

  /** `delete`: only the row with the given id goes, whatever the table held. */
  method DeletePatient(db: Database, id: int) returns (r: Result<(), string>)
    requires db.Valid()
    modifies db
    ensures db.Valid()
    ensures (r, db.tables) == Run(db.schemas, old(db.tables), Delete(Table, id))
    ensures Table in db.schemas ==>
      && r.Ok?
      && id !in db.tables[Table].rows
      && (forall k :: k != id ==> (k in db.tables[Table].rows <==> k in old(db.tables)[Table].rows))
      && (forall k :: k != id && k in db.tables[Table].rows ==> db.tables[Table].rows[k] == old(db.tables)[Table].rows[k])
  {
    r := db.Execute(Delete(Table, id));
    if Table in db.schemas {
      DeleteRemovesOnlyRow(db.schemas[Table], old(db.tables)[Table], Table, id);
    }
  }
}
