/** `appointmentService`: the statements it sends for the `appointments` table
    and how `getAll` reads the optional assistant back. */
module AppointmentService {
  import opened Wrappers
  import opened Text
  import opened Sql
  import opened Tables
  import opened UpdateBuilder

  const Table: string := "appointments"

  /** The id and the names `getAll` joins in, which `update` never writes. */
  const Excluded: set<string> := {"id", "patient_name", "doctor_name", "assistant_name", "owner_name"}

  const CreateColumns: seq<string> :=
    ["patient_id", "doctor_id", "assistant_id", "type", "start_time", "duration_minutes", "status"]

  /** What `create` receives: no id, no status, no joined names. */
  datatype NewAppointment = NewAppointment(
    patientId: int, doctorId: int, assistantId: Option<int>,
    kind: string, startTime: string, durationMinutes: int)

  /** `app.assistant_id || null`: an absent or zero assistant is bound as NULL. */
  function AssistantArg(assistant: Option<int>): Value {
    match assistant
    case Some(a) => if a == 0 then Null else Int(a)
    case None => Null
  }

  /** `row.assistant_id as number || undefined`: a NULL or zero cell reads back
      as no assistant. */
  function AssistantFromCell(cell: Value): Option<int> {
    match cell
    case Int(a) => if a == 0 then None else Some(a)
    case _ => None
  }

  /** An assistant written by `create` reads back unchanged, except that id 0
      comes back as no assistant. */
  lemma AssistantReadsBack(assistant: Option<int>)
    ensures AssistantFromCell(AssistantArg(assistant)) == if assistant == Some(0) then None else assistant
    ensures AssistantArg(assistant) == Null <==> assistant.None? || assistant == Some(0)
  {
  }

  /** `create`: six bound values and the status written as the literal `'Programada'`. */
  function CreateCommand(app: NewAppointment): Command {
    Insert(Table, CreateColumns, Params(CreateArgs(app)) + [Literal("Programada")])
  }

  function CreateArgs(app: NewAppointment): seq<Value> {
    [Int(app.patientId), Int(app.doctorId), AssistantArg(app.assistantId),
     Text(app.kind), Text(app.startTime), Int(app.durationMinutes)]
  }

  /** `create` binds six arguments to six `?`, in column order. */
  lemma CreateBindsSix(app: NewAppointment)
    ensures var st := Render(CreateCommand(app));
      && st.args == [Int(app.patientId), Int(app.doctorId), AssistantArg(app.assistantId),
                     Text(app.kind), Text(app.startTime), Int(app.durationMinutes)]
      && Count(st.sql, '?') == 6
  {
    var values := Params(CreateArgs(app)) + [Literal("Programada")];
    ParamArgsAppend(Params(CreateArgs(app)), [Literal("Programada")]);
    ParamArgsOfParams(CreateArgs(app));
    CreateColumnsPlain();
    assert PlainInsert(Table, CreateColumns, values) by {
      assert forall i :: 0 <= i < |values| && values[i].Literal? ==> i == 6;
    }
    InsertPlaceholders(Table, CreateColumns, values);
  }

  /** No column name of `create` holds a `?`. */
  lemma CreateColumnsPlain()
    ensures forall i :: 0 <= i < |CreateColumns| ==> '?' !in CreateColumns[i]
  {
  }

  /** Every new appointment is inserted as `'Programada'`, and its assistant
      column holds the normalised assistant. */
  lemma CreateFixesStatus(app: NewAppointment)
    ensures var cmd := CreateCommand(app);
      && "status" in Given(cmd.columns, cmd.values)
      && Given(cmd.columns, cmd.values)["status"] == Text("Programada")
      && "assistant_id" in Given(cmd.columns, cmd.values)
      && Given(cmd.columns, cmd.values)["assistant_id"] == AssistantArg(app.assistantId)
  {
    var cmd := CreateCommand(app);
    var cols, vals := cmd.columns, cmd.values;
    assert |vals| == 7 && vals[6] == Literal("Programada") && vals[2] == Param(AssistantArg(app.assistantId));
    assert cols[6] == "status" && cols[..6] == CreateColumns[..6];
    assert cols[2] == "assistant_id" && cols[..2] == ["patient_id", "doctor_id"];
    GivenAt(cols, vals, 6);
    GivenAt(cols, vals, 2);
  }

  /** `update`'s statement: none when no key is left after the exclusions; the
      SET clause never names the id or a joined name. */
  function UpdateCommand(id: int, patch: Patch): (cmd: Option<Command>)
    ensures cmd.None? <==> forall i :: 0 <= i < |patch| ==> patch[i].0 in Excluded
    ensures cmd.Some? ==> cmd.value.table == Table && cmd.value.Update? && cmd.value.id == id
    ensures cmd.Some? ==> forall i :: 0 <= i < |cmd.value.assignments| ==>
      cmd.value.assignments[i].0 !in {"id", "patient_name", "doctor_name", "assistant_name", "owner_name"}
  {
    BuildUpdate(Table, patch, Excluded, id, true)
  }

  method CreateAppointment(db: Database, app: NewAppointment) returns (r: Result<(), string>)
    requires db.Valid()
    modifies db
    ensures db.Valid()
    ensures (r, db.tables) == Run(db.schemas, old(db.tables), CreateCommand(app))
  {
    r := db.Execute(CreateCommand(app));
  }

  method UpdateAppointment(db: Database, id: int, patch: Patch) returns (r: Result<(), string>)
    requires db.Valid()
    modifies db
    ensures db.Valid()
    ensures UpdateCommand(id, patch).None? ==> r.Ok? && db.tables == old(db.tables)
    ensures UpdateCommand(id, patch).Some? ==> (r, db.tables) == Run(db.schemas, old(db.tables), UpdateCommand(id, patch).value)
  {
    r := ExecuteUpdate(db, Table, patch, Excluded, id, true);
  }

  method DeleteAppointment(db: Database, id: int) returns (r: Result<(), string>)
    requires db.Valid()
    modifies db
    ensures db.Valid()
    ensures (r, db.tables) == Run(db.schemas, old(db.tables), Delete(Table, id))
  {
    r := db.Execute(Delete(Table, id));
  }
}
