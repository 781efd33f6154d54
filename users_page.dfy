/** The user administration page: the form, the payloads it sends to the
    user service, editing, deleting after confirmation and the role icon. */
module UsersPage {
  import opened Wrappers
  import opened Sql
  import opened Tables
  import opened UpdateBuilder
  import UserService

  /** A user as `getAll` returns it. */
  datatype User = User(
    id: int, cedula: string, fullName: string, email: string, phone: string,
    role: string, passwordHash: string, createdAt: int)

  /** `formData`. */
  datatype UserForm = UserForm(cedula: string, fullName: string, email: string, phone: string, role: string, password: string)

  /** The form after a save and for a new user: blank, role Doctor. */
  const BlankForm: UserForm := UserForm("", "", "", "", "Doctor", "")

  /** The update payload: the five profile fields, never a password. */
  function UpdatePayload(form: UserForm): (patch: Patch)
    ensures |patch| == 5 && DistinctKeys(patch)
    ensures forall i :: 0 <= i < |patch| ==> patch[i].0 != "password_hash" && patch[i].0 != "created_at"
  {
    [("cedula", Text(form.cedula)), ("full_name", Text(form.fullName)), ("email", Text(form.email)),
     ("phone", Text(form.phone)), ("role", Text(form.role))]
  }

  /** The create payload: the form's password stored as `password_hash`, and
      `created_at` stamped with `Date.now()`. */
  function CreatePayload(form: UserForm, now: int): (user: UserService.NewUser)
    ensures user.passwordHash == form.password && user.createdAt == now
    ensures user.cedula == form.cedula && user.fullName == form.fullName && user.email == form.email
    ensures user.phone == form.phone && user.role == form.role
  {
    UserService.NewUser(form.cedula, form.fullName, form.email, form.phone, form.role, form.password, now)
  }

  /** Saving an edit leaves the stored password hash and creation stamp of
      the row as they were. */
  lemma EditKeepsPassword(schema: Schema, st: TableState, id: int, form: UserForm, st': TableState)
    requires UserService.UpdateCommand(id, UpdatePayload(form)).Some?
    requires Apply(schema, st, UserService.UpdateCommand(id, UpdatePayload(form)).value) == Ok(st')
    ensures id in st.rows && "password_hash" in st.rows[id] ==>
      id in st'.rows && "password_hash" in st'.rows[id] && st'.rows[id]["password_hash"] == st.rows[id]["password_hash"]
    ensures id in st.rows && "created_at" in st.rows[id] ==>
      id in st'.rows && "created_at" in st'.rows[id] && st'.rows[id]["created_at"] == st.rows[id]["created_at"]
  {
    UpdateWritesOnlyKeptFields(schema, st, UserService.Table, UpdatePayload(form), UserService.Excluded, id, true);
  }

  /** Saving an edit always sends an update: the payload has fields besides the id. */
  lemma EditAlwaysSends(id: int, form: UserForm)
    ensures UserService.UpdateCommand(id, UpdatePayload(form)).Some?
  {
    assert UpdatePayload(form)[0].0 == "cedula";
  }

  /** The form `handleEdit` fills in: the user's fields, the password cleared. */
  function FormOf(user: User): (form: UserForm)
    ensures form.password == ""
    ensures form.cedula == user.cedula && form.fullName == user.fullName && form.email == user.email
    ensures form.phone == user.phone && form.role == user.role
  {
    UserForm(user.cedula, user.fullName, user.email, user.phone, user.role, "")
  }

  /** `ROLES.find(r => r.id === role)?.icon || 'badge'`. */
  function RoleIcon(role: string): string {
    if role == "Doctor" then "stethoscope"
    else if role == "Asistente" then "medical_services"
    else if role == "Administrativo" then "badge"
    else "badge"
  }

  /** A role outside the three listed gets the `badge` icon, the same as Administrativo. */
  lemma RoleIconFallback(role: string)
    ensures role !in {"Doctor", "Asistente"} <==> RoleIcon(role) == "badge"
  {
  }

  class UsersPageState {
    var isModalOpen: bool
    var editingUser: Option<User>
    var formData: UserForm

    constructor ()
      ensures !isModalOpen && editingUser.None? && formData == BlankForm
    {
      isModalOpen := false;
      editingUser := None;
      formData := BlankForm;
    }

    /** "Nuevo Usuario": no user being edited, a blank form, the modal open. */
    method HandleNew()
      modifies this
      ensures isModalOpen && editingUser.None? && formData == BlankForm
    {
      editingUser := None;
      formData := BlankForm;
      isModalOpen := true;
    }

    /** `handleEdit(user)`. */
    method HandleEdit(user: User)
      modifies this
      ensures isModalOpen && editingUser == Some(user) && formData == FormOf(user)
    {
      editingUser := Some(user);
      formData := FormOf(user);
      isModalOpen := true;
    }

    /** `handleSave`: an update of the edited user or a create, stamped `now`;
        on success the modal closes and the form is reset, on failure (the
        alert) the page state stays as it was. */
    method HandleSave(db: Database, now: int) returns (r: Result<(), string>)
      requires db.Valid()
      modifies this, db
      ensures db.Valid()
      ensures old(editingUser).Some? ==>
        (r, db.tables) == Run(db.schemas, old(db.tables), UserService.UpdateCommand(old(editingUser).value.id, UpdatePayload(old(formData))).value)
      ensures old(editingUser).None? ==>
        (r, db.tables) == Run(db.schemas, old(db.tables), UserService.CreateCommand(CreatePayload(old(formData), now)))
      ensures r.Ok? ==> !isModalOpen && editingUser.None? && formData == BlankForm
      ensures r.Err? ==> isModalOpen == old(isModalOpen) && editingUser == old(editingUser) && formData == old(formData)
    {
      if editingUser.Some? {
        EditAlwaysSends(editingUser.value.id, formData);
        r := UserService.UpdateUser(db, editingUser.value.id, UpdatePayload(formData));
      } else {
        r := UserService.CreateUser(db, CreatePayload(formData, now));
      }
      if r.Ok? {
        isModalOpen := false;
        editingUser := None;
        formData := BlankForm;
      }
    }

    /** `handleDelete(id)`: the row goes only when the confirmation is accepted. */
    method HandleDelete(db: Database, id: int, confirmed: bool) returns (r: Result<(), string>)
      requires db.Valid()
      modifies db
      ensures db.Valid()
      ensures !confirmed ==> r.Ok? && db.tables == old(db.tables)
      ensures confirmed ==> (r, db.tables) == Run(db.schemas, old(db.tables), Delete(UserService.Table, id))
    {
      if !confirmed {
        return Ok(());
      }
      r := UserService.DeleteUser(db, id);
    }
  }
}
