/** `userService`: the statements it sends for the `users` table. */
module UserService {
  import opened Wrappers
  import opened Text
  import opened Seqs
  import opened Sql
  import opened Tables
  import opened UpdateBuilder

  const Table: string := "users"

  /** Only the id is kept out of `update`. */
  const Excluded: set<string> := {"id"}

  const CreateColumns: seq<string> := ["cedula", "full_name", "email", "phone", "role", "password_hash", "created_at"]

  /** What `create` receives: every field but the id. */
  datatype NewUser = NewUser(
    cedula: string, fullName: string, email: string, phone: string,
    role: string, passwordHash: string, createdAt: int)

  function CreateArgs(user: NewUser): seq<Value> {
    [Text(user.cedula), Text(user.fullName), Text(user.email), Text(user.phone),
     Text(user.role), Text(user.passwordHash), Int(user.createdAt)]
  }

  function CreateCommand(user: NewUser): Command {
    Insert(Table, CreateColumns, Params(CreateArgs(user)))
  }

  /** `create` binds seven arguments to seven `?`, in column order. */
  lemma CreateBindsSeven(user: NewUser)
    ensures var st := Render(CreateCommand(user));
      && st.args == [Text(user.cedula), Text(user.fullName), Text(user.email), Text(user.phone),
                     Text(user.role), Text(user.passwordHash), Int(user.createdAt)]
      && Count(st.sql, '?') == 7
  {
    CreateColumnsPlain();
    ParamsInsertAligned(Table, CreateColumns, CreateArgs(user));
  }

  lemma CreateColumnsPlain()
    ensures forall i :: 0 <= i < |CreateColumns| ==> '?' !in CreateColumns[i]
  {
  }

  /** `update`'s statement: none when the record holds no key but the id; the
      SET clause never names the id. */
  function UpdateCommand(id: int, patch: Patch): (cmd: Option<Command>)
    ensures cmd.None? <==> forall i :: 0 <= i < |patch| ==> patch[i].0 == "id"
    ensures cmd.Some? ==> cmd.value.table == Table && cmd.value.Update? && cmd.value.id == id
    ensures cmd.Some? ==> forall i :: 0 <= i < |cmd.value.assignments| ==> cmd.value.assignments[i].0 != "id"
  {
    BuildUpdate(Table, patch, Excluded, id, true)
  }

  /** Nothing but the id is held back: the password hash and the creation
      stamp are written like any other field. */
  lemma UpdateWritesPasswordAndStamp(id: int, hash: Value, stamp: Value)
    ensures UpdateCommand(id, [("password_hash", hash), ("created_at", stamp)])
      == Some(Update(Table, [("password_hash", hash), ("created_at", stamp)], id))
  {
    var patch := [("password_hash", hash), ("created_at", stamp)];
    FilterKeepsAll(patch, Kept(Excluded));
  }

  method CreateUser(db: Database, user: NewUser) returns (r: Result<(), string>)
    requires db.Valid()
    modifies db
    ensures db.Valid()
    ensures (r, db.tables) == Run(db.schemas, old(db.tables), CreateCommand(user))
  {
    r := db.Execute(CreateCommand(user));
  }

  method UpdateUser(db: Database, id: int, patch: Patch) returns (r: Result<(), string>)
    requires db.Valid()
    modifies db
    ensures db.Valid()
    ensures UpdateCommand(id, patch).None? ==> r.Ok? && db.tables == old(db.tables)
    ensures UpdateCommand(id, patch).Some? ==> (r, db.tables) == Run(db.schemas, old(db.tables), UpdateCommand(id, patch).value)
  {
    r := ExecuteUpdate(db, Table, patch, Excluded, id, true);
  }

  method DeleteUser(db: Database, id: int) returns (r: Result<(), string>)
    requires db.Valid()
    modifies db
    ensures db.Valid()
    ensures (r, db.tables) == Run(db.schemas, old(db.tables), Delete(Table, id))
  {
    r := db.Execute(Delete(Table, id));
  }
}
