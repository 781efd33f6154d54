/** `hospitalizationService`: the `hospitalizations` table as `init` creates it,
    and the statements `create`, `update` and `delete` send. */
module HospitalizationService {
  import opened Wrappers
  import opened Text
  import opened Sql
  import opened Tables
  import opened UpdateBuilder

  const Table: string := "hospitalizations"

  /** The id and the names `getAll` joins in, which `update` never writes. */
  const Excluded: set<string> := {"id", "patient_name", "doctor_name"}

  /** The statuses the `CHECK` constraint admits. */
  const Statuses: set<string> := {"Estable", "Crítico", "Observación", "Alta"}

  /** The table `init` creates: its columns, the `CHECK` on `status`, the
      `DEFAULT 'Observación'` and `DEFAULT CURRENT_TIMESTAMP`, the database's
      clock reading `now`. */
  function HospitalizationSchema(now: string): Schema {
    Schema(
      {"id", "patient_id", "doctor_id", "entry_date", "reason", "diagnosis_preliminary", "alert_message",
       "alert_time", "status", "treatment_plan", "notes", "weight_entry", "discharge_date"},
      map["status" := set s | s in Statuses :: Text(s)],
      map["entry_date" := Text(now), "status" := Text("Observación")])
  }

  const CreateColumns: seq<string> := [
    "patient_id", "doctor_id", "entry_date", "reason", "diagnosis_preliminary",
    "alert_message", "alert_time", "status", "treatment_plan", "notes", "weight_entry"]

  /** What `create` receives: no id and no joined names; the optional fields
      are `Undefined` when absent. */
  datatype NewHospitalization = NewHospitalization(
    patientId: int, doctorId: int, entryDate: Option<string>, reason: string,
    diagnosisPreliminary: string, alertMessage: Value, alertTime: Value, status: string,
    treatmentPlan: Value, notes: Value, weightEntry: Value)

  /** `h.entry_date || new Date().toISOString()`: a missing or empty entry
      date becomes the current instant. */
  function EntryDateArg(entryDate: Option<string>, now: string): (d: string)
    ensures entryDate.Some? && entryDate.value != "" ==> d == entryDate.value
    ensures entryDate.None? || entryDate == Some("") ==> d == now
  {
    match entryDate
    case Some(e) => if e == "" then now else e
    case None => now
  }

  function CreateArgs(h: NewHospitalization, now: string): (args: seq<Value>)
    ensures |args| == 11
  {
    [Int(h.patientId), Int(h.doctorId), Text(EntryDateArg(h.entryDate, now)), Text(h.reason),
     Text(h.diagnosisPreliminary), h.alertMessage, h.alertTime, Text(h.status),
     h.treatmentPlan, h.notes, h.weightEntry]
  }

  function CreateCommand(h: NewHospitalization, now: string): Command {
    Insert(Table, CreateColumns, Params(CreateArgs(h, now)))
  }

  /** `create` binds eleven arguments to eleven `?`, in column order. */
  lemma CreateBindsEleven(h: NewHospitalization, now: string)
    ensures var st := Render(CreateCommand(h, now));
      && st.args == CreateArgs(h, now)
      && |st.args| == 11
      && Count(st.sql, '?') == 11
  {
    CreateColumnsPlain();
    ParamsInsertAligned(Table, CreateColumns, CreateArgs(h, now));
  }

  lemma CreateColumnsPlain()
    ensures forall i :: 0 <= i < |CreateColumns| ==> '?' !in CreateColumns[i]
  {
  }

  /** `create` never writes the discharge date. */
  lemma DischargeDateNotInserted(h: NewHospitalization, now: string)
    ensures "discharge_date" !in CreateCommand(h, now).columns
  {
    forall i | 0 <= i < |CreateColumns|
      ensures CreateColumns[i] != "discharge_date"
    {
      assert |CreateColumns[i]| != 14 || CreateColumns[i][0] == 't';
    }
  }

  /** An insert that leaves out the status stores `'Observación'`. */
  lemma StatusDefaultsToObservation(now: string, st: TableState, columns: seq<string>, values: seq<SqlValue>)
    requires "status" !in columns
    requires Apply(HospitalizationSchema(now), st, Insert(Table, columns, values)).Ok?
    ensures var st' := Apply(HospitalizationSchema(now), st, Insert(Table, columns, values)).value;
      st.nextId in st'.rows && st'.rows[st.nextId]["status"] == Text("Observación")
  {
  }

  /** An insert whose status is outside the four admitted ones is rejected and
      changes nothing. */
  lemma StatusOutsideDomainRejected(now: string, st: TableState, columns: seq<string>, values: seq<SqlValue>, i: int)
    requires |columns| == |values| && 0 <= i < |columns|
    requires columns[i] == "status" && columns[i] !in columns[..i]
    requires values[i].Param? && values[i].v.Text? && values[i].v.s !in Statuses
    ensures Apply(HospitalizationSchema(now), st, Insert(Table, columns, values)).Err?
  {
    var schema := HospitalizationSchema(now);
    StatusDomain(now, values[i].v.s);
    InsertOutsideDomainRejected(schema, st, columns, values, i);
  }

  /** The `status` domain holds the four admitted statuses as text, and no other. */
  lemma StatusDomain(now: string, s: string)
    ensures "status" in HospitalizationSchema(now).domains
    ensures Text(s) in HospitalizationSchema(now).domains["status"] <==> s in Statuses
  {
  }

  /** `update`'s statement: none when no key is left after the exclusions; the
      SET clause never names the id or a joined name. */
  function UpdateCommand(id: int, patch: Patch): (cmd: Option<Command>)
    ensures cmd.None? <==> forall i :: 0 <= i < |patch| ==> patch[i].0 in Excluded
    ensures cmd.Some? ==> cmd.value.table == Table && cmd.value.Update? && cmd.value.id == id
    ensures cmd.Some? ==> forall i :: 0 <= i < |cmd.value.assignments| ==>
      cmd.value.assignments[i].0 !in {"id", "patient_name", "doctor_name"}
  {
    BuildUpdate(Table, patch, Excluded, id, true)
  }

  method CreateHospitalization(db: Database, h: NewHospitalization, now: string) returns (r: Result<(), string>)
    requires db.Valid()
    modifies db
    ensures db.Valid()
    ensures (r, db.tables) == Run(db.schemas, old(db.tables), CreateCommand(h, now))
  {
    r := db.Execute(CreateCommand(h, now));
  }

  method UpdateHospitalization(db: Database, id: int, patch: Patch) returns (r: Result<(), string>)
    requires db.Valid()
    modifies db
    ensures db.Valid()
    ensures UpdateCommand(id, patch).None? ==> r.Ok? && db.tables == old(db.tables)
    ensures UpdateCommand(id, patch).Some? ==> (r, db.tables) == Run(db.schemas, old(db.tables), UpdateCommand(id, patch).value)
  {
    r := ExecuteUpdate(db, Table, patch, Excluded, id, true);
  }

  method DeleteHospitalization(db: Database, id: int) returns (r: Result<(), string>)
    requires db.Valid()
    modifies db
    ensures db.Valid()
    ensures (r, db.tables) == Run(db.schemas, old(db.tables), Delete(Table, id))
  {
    r := db.Execute(Delete(Table, id));
  }
}
