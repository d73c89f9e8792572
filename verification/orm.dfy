/**
 * The records and policy rules of the session-authenticated variant
 * (app.py): users and tasks as rows of two tables, the permission
 * predicates, the list filter, the dashboard statistics and the
 * registration rules. The database is abstracted as sequences of rows.
 */
module Orm {
  import opened Wrappers
  import opened TaskModel

  /** A row of the `usuario` table; the password hash is not modelled. */
  datatype Usuario = Usuario(id: int, nombre: string, email: string, esAdmin: bool)

  /** A row of the `tarea` table. */
  datatype Tarea = Tarea(
    id: int,
    title: string,
    description: Option<string>,
    priority: string,
    effortHours: Option<real>,
    status: string,
    assignedTo: Option<string>,
    creadorId: int,
    fechaCreacion: string)

  // ---------------------------------------------------------------------
  // Permissions
  // ---------------------------------------------------------------------

  /** Editing, updating and deleting a task: an admin, or the task's creator. */
  predicate CanModify(u: Usuario, t: Tarea) {
    u.esAdmin || t.creadorId == u.id
  }

  /** Reading one task: an admin, the assignee (matched by name), or the creator. */
  predicate CanRead(u: Usuario, t: Tarea) {
    u.esAdmin || t.assignedTo == Some(u.nombre) || t.creadorId == u.id
  }

  // ---------------------------------------------------------------------
  // Visibility in lists and on the dashboard
  // ---------------------------------------------------------------------

  /** The rows whose assignee is exactly `nombre`, in table order. */
  function AssignedTo(table: seq<Tarea>, nombre: string): (r: seq<Tarea>)
    ensures forall t :: t in r <==> t in table && t.assignedTo == Some(nombre)
    ensures forall t :: multiset(r)[t] == if t.assignedTo == Some(nombre) then multiset(table)[t] else 0
    ensures |r| <= |table|
  {
    if |table| == 0 then []
    else
      var rest := AssignedTo(table[1..], nombre);
      assert table == [table[0]] + table[1..];
      assert forall t :: t in table <==> t == table[0] || t in table[1..];
      if table[0].assignedTo == Some(nombre) then [table[0]] + rest else rest
  }

  /** The filter distributes over concatenation, so the kept rows stay in table order. */
  lemma {:induction false} AssignedToConcat(a: seq<Tarea>, b: seq<Tarea>, nombre: string)
    ensures AssignedTo(a + b, nombre) == AssignedTo(a, nombre) + AssignedTo(b, nombre)
    decreases |a|
  {
    if |a| == 0 {
      assert a + b == b;
    } else {
      assert (a + b)[1..] == a[1..] + b;
      AssignedToConcat(a[1..], b, nombre);
    }
  }

  /**
   * The tasks a user sees in the list and on the dashboard: all of them
   * for an admin, otherwise only those assigned to the user's name. The
   * database's newest-first ordering is not modelled: rows keep table order.
   */
  function Visible(table: seq<Tarea>, u: Usuario): (r: seq<Tarea>)
    ensures u.esAdmin ==> r == table
    ensures !u.esAdmin ==> forall t :: t in r <==> t in table && t.assignedTo == Some(u.nombre)
    ensures !u.esAdmin ==> forall t :: multiset(r)[t] == if t.assignedTo == Some(u.nombre) then multiset(table)[t] else 0
  {
    if u.esAdmin then table else AssignedTo(table, u.nombre)
  }

  /**
   * A non-admin who created a task assigned to someone else may read it
   * by id but does not see it in the list.
   */
  lemma CreatorMayReadButNotList(table: seq<Tarea>, u: Usuario, t: Tarea)
    requires t in table
    requires !u.esAdmin && t.creadorId == u.id && t.assignedTo != Some(u.nombre)
    ensures CanRead(u, t) && CanModify(u, t)
    ensures t !in Visible(table, u)
  {
  }

  /** Whatever a user lists, the user may also read one by one. */
  lemma ListedImpliesReadable(table: seq<Tarea>, u: Usuario, t: Tarea)
    requires t in Visible(table, u)
    ensures CanRead(u, t)
  {
  }

  // ---------------------------------------------------------------------
  // Dashboard statistics
  // ---------------------------------------------------------------------

  /** The number of rows whose status is exactly `s`. */
  function CountStatus(ts: seq<Tarea>, s: string): (n: nat)
    ensures n <= |ts|
  {
    if |ts| == 0 then 0
    else
      var rest := CountStatus(ts[1..], s);
      assert forall i :: 1 <= i < |ts| ==> ts[i] == ts[1..][i - 1];
      (if ts[0].status == s then 1 else 0) + rest
  }

  datatype Stats = Stats(total: nat, pendientes: nat, enProgreso: nat, enRevision: nat, completadas: nat)

  /** The figures of the dashboard, computed over the tasks the user sees. */
  function DashboardStats(table: seq<Tarea>, u: Usuario): (st: Stats)
    ensures st.total == |Visible(table, u)|
    ensures st.pendientes == CountStatus(Visible(table, u), "pendiente")
    ensures st.enProgreso == CountStatus(Visible(table, u), "en_progreso")
    ensures st.enRevision == CountStatus(Visible(table, u), "en_revision")
    ensures st.completadas == CountStatus(Visible(table, u), "completada")
  {
    var ts := Visible(table, u);
    Stats(|ts|, CountStatus(ts, "pendiente"), CountStatus(ts, "en_progreso"),
          CountStatus(ts, "en_revision"), CountStatus(ts, "completada"))
  }

  /** The four per-status counts never exceed the total, and add up to it when every status is a valid one. */
  lemma {:induction false} StatusCountsPartition(ts: seq<Tarea>)
    ensures CountStatus(ts, "pendiente") + CountStatus(ts, "en_progreso")
            + CountStatus(ts, "en_revision") + CountStatus(ts, "completada") <= |ts|
    ensures (forall i :: 0 <= i < |ts| ==> ts[i].status in Statuses) ==>
            CountStatus(ts, "pendiente") + CountStatus(ts, "en_progreso")
            + CountStatus(ts, "en_revision") + CountStatus(ts, "completada") == |ts|
  {
    if |ts| > 0 {
      var tail := ts[1..];
      StatusCountsPartition(tail);
      var c := ts[0].status;
      assert CountStatus(ts, "pendiente") == (if c == "pendiente" then 1 else 0) + CountStatus(tail, "pendiente");
      assert CountStatus(ts, "en_progreso") == (if c == "en_progreso" then 1 else 0) + CountStatus(tail, "en_progreso");
      assert CountStatus(ts, "en_revision") == (if c == "en_revision" then 1 else 0) + CountStatus(tail, "en_revision");
      assert CountStatus(ts, "completada") == (if c == "completada" then 1 else 0) + CountStatus(tail, "completada");
      if forall i :: 0 <= i < |ts| ==> ts[i].status in Statuses {
        assert forall i :: 0 <= i < |tail| ==> tail[i].status in Statuses by {
          forall i | 0 <= i < |tail| ensures tail[i].status in Statuses {
            assert tail[i] == ts[i + 1];
          }
        }
        assert c in Statuses;
      }
    }
  }

  /** The dashboard's figures for one user: the per-status counts partition the visible tasks. */
  lemma DashboardAddsUp(table: seq<Tarea>, u: Usuario)
    requires forall i :: 0 <= i < |table| ==> table[i].status in Statuses
    ensures var st := DashboardStats(table, u);
            st.pendientes + st.enProgreso + st.enRevision + st.completadas == st.total
  {
    var ts := Visible(table, u);
    forall i | 0 <= i < |ts| ensures ts[i].status in Statuses {
      assert ts[i] in table;
    }
    StatusCountsPartition(ts);
  }

  // ---------------------------------------------------------------------
  // Users
  // ---------------------------------------------------------------------

  predicate EmailTaken(users: seq<Usuario>, email: string) {
    exists i :: 0 <= i < |users| && users[i].email == email
  }

  /** The `email` column is unique. */
  predicate UniqueEmails(users: seq<Usuario>) {
    forall i, j :: 0 <= i < j < |users| ==> users[i].email != users[j].email
  }

  const PasswordsDiffer: string := "Las contraseñas no coinciden"
  const EmailInUse: string := "El email ya está registrado"
  const NotAllowedPage: string := "No tienes permiso para acceder a esta página"

  /** The outcome of a registration form: the flash message of a refusal, or the new table. */
  datatype Registration = Refused(flash: string) | Registered(users: seq<Usuario>)

  /**
   * `register`: mismatched passwords are refused first, then an email
   * already in use; otherwise the user is added, as admin exactly when
   * the table was empty. `freshId` is the key the database assigns.
   */
  function Register(users: seq<Usuario>, nombre: string, email: string, password: string,
                    confirm: string, freshId: int): (r: Registration)
    ensures password != confirm ==> r == Refused(PasswordsDiffer)
    ensures password == confirm && EmailTaken(users, email) ==> r == Refused(EmailInUse)
    ensures r.Registered? <==> password == confirm && !EmailTaken(users, email)
    ensures r.Registered? ==> |r.users| == |users| + 1 && r.users[..|users|] == users
    ensures r.Registered? ==> var n := r.users[|users|];
              n.nombre == nombre && n.email == email && n.id == freshId && (n.esAdmin <==> |users| == 0)
  {
    if password != confirm then Refused(PasswordsDiffer)
    else if EmailTaken(users, email) then Refused(EmailInUse)
    else
      var r := users + [Usuario(freshId, nombre, email, |users| == 0)];
      assert r[..|users|] == users;
      Registered(r)
  }

  /**
   * `nuevo_usuario`: only an admin may create users; an email already in
   * use is refused; the admin flag is the form's checkbox.
   */
  function NewUser(users: seq<Usuario>, actor: Usuario, nombre: string, email: string,
                   esAdmin: bool, freshId: int): (r: Registration)
    ensures !actor.esAdmin ==> r == Refused(NotAllowedPage)
    ensures actor.esAdmin && EmailTaken(users, email) ==> r == Refused(EmailInUse)
    ensures r.Registered? <==> actor.esAdmin && !EmailTaken(users, email)
    ensures r.Registered? ==> r.users == users + [Usuario(freshId, nombre, email, esAdmin)]
  {
    if !actor.esAdmin then Refused(NotAllowedPage)
    else if EmailTaken(users, email) then Refused(EmailInUse)
    else Registered(users + [Usuario(freshId, nombre, email, esAdmin)])
  }

  /** Both ways of adding a user keep emails unique. */
  lemma AddingUsersKeepsEmailsUnique(users: seq<Usuario>, actor: Usuario, nombre: string, email: string,
                                     password: string, confirm: string, esAdmin: bool, freshId: int)
    requires UniqueEmails(users)
    ensures var r := Register(users, nombre, email, password, confirm, freshId);
            r.Registered? ==> UniqueEmails(r.users)
    ensures var r := NewUser(users, actor, nombre, email, esAdmin, freshId);
            r.Registered? ==> UniqueEmails(r.users)
  {
  }

  /** Through the registration form, only the first user ever registered is an admin. */
  lemma OnlyFirstRegisteredIsAdmin(users: seq<Usuario>, nombre: string, email: string,
                                                      password: string, freshId: int)
    requires |users| > 0 && forall i :: 1 <= i < |users| ==> !users[i].esAdmin
    ensures var r := Register(users, nombre, email, password, password, freshId);
            r.Registered? ==> forall i :: 1 <= i < |r.users| ==> !r.users[i].esAdmin
  {
  }
}
