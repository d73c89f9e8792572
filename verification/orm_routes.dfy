/**
 * The request handlers of the session-authenticated variant (app.py):
 * the JSON API under /tasks and the form routes that edit, delete and
 * re-status a task. `u` is the logged-in user; `freshId` and `now` are
 * the key and the timestamp the database assigns to a new row.
 */
module OrmRoutes {
  import opened Wrappers
  import opened Payload
  import opened TaskModel
  import opened Orm

  const TitleMissing: string := "El campo title es requerido"
  const BadPriorityApi: string := "Prioridad inválida. Debe ser: baja, media, alta, bloqueante"
  const BadStatusApi: string := "Status inválido. Debe ser: pendiente, en_progreso, en_revision, completada"
  const NoUpdateData: string := "No se proporcionaron datos para actualizar"
  const CannotRead: string := "No tienes permiso para acceder a esta tarea"
  const CannotUpdate: string := "No tienes permiso para actualizar esta tarea"
  const CannotDelete: string := "No tienes permiso para eliminar esta tarea"
  const CannotEdit: string := "No tienes permiso para editar esta tarea"
  const DeletedMessage: string := "Tarea eliminada exitosamente"
  const StatusUpdated: string := "Estado actualizado"
  const StatusInvalid: string := "Estado inválido"
  /** The text of werkzeug's NotFound, which `get_or_404` raises. */
  const NotFoundText: string := "404 Not Found: The requested URL was not found on the server. If you entered the URL manually please check your spelling and try again."
  /** The text of the integrity error a NULL title raises at commit. */
  const TitleNotNull: string := "NOT NULL constraint failed: tarea.title"

  /** A response together with the task table after the request. */
  datatype Reply = Reply(response: Response, table: seq<Tarea>)

  predicate HasTarea(table: seq<Tarea>, id: int) {
    exists i :: 0 <= i < |table| && table[i].id == id
  }

  /** The row with primary key `id`. */
  function FindTarea(table: seq<Tarea>, id: int): (k: Option<nat>)
    ensures k.None? <==> !HasTarea(table, id)
    ensures k.Some? ==> k.value < |table| && table[k.value].id == id
  {
    if |table| == 0 then None
    else if table[0].id == id then Some(0)
    else
      match FindTarea(table[1..], id)
      case None =>
        assert forall i :: 1 <= i < |table| ==> table[i] == table[1..][i - 1];
        None
      case Some(j) => Some(j + 1)
  }

  /** The API's JSON image of a row: a zero or absent effort is written as `null`. */
  function Render(t: Tarea): (d: Dict)
    ensures d.id == Given(t.id) && d.title == Given(t.title)
    ensures d.description.Present() && d.description.Get() == t.description
    ensures d.priority == Given(t.priority) && d.status == Given(t.status)
    ensures d.assignedTo.Present() && d.assignedTo.Get() == t.assignedTo
    ensures d.fechaCreacion == Given(t.fechaCreacion)
    ensures d.effortHours.Present()
    ensures d.effortHours.Given? <==> t.effortHours.Some? && t.effortHours.value != 0.0
    ensures d.effortHours.Given? ==> d.effortHours.value == t.effortHours.value
    ensures d.others == {} && !d.IsEmpty()
  {
    Dict(Given(t.id), Given(t.title), FromOption(t.description), Given(t.priority),
         if t.effortHours.Some? && t.effortHours.value != 0.0 then Given(t.effortHours.value) else Null,
         Given(t.status), FromOption(t.assignedTo), Given(t.fechaCreacion), {})
  }

  /** `Decimal(str(x)) if x else None`: a missing, null or zero effort is stored as None. */
  function EffortOf(f: Field<real>): (e: Option<real>)
    ensures e.Some? <==> f.Given? && f.value != 0.0
    ensures e.Some? ==> e.value == f.value
  {
    if f.Given? && f.value != 0.0 then Some(f.value) else None
  }

  /** Every row's priority and status are one of the accepted values. */
  predicate EnumsValid(table: seq<Tarea>) {
    forall i :: 0 <= i < |table| ==> table[i].priority in Priorities && table[i].status in Statuses
  }

  predicate UniqueKeys(table: seq<Tarea>) {
    forall i, j :: 0 <= i < j < |table| ==> table[i].id != table[j].id
  }

  // ---------------------------------------------------------------------
  // POST /tasks and GET /tasks
  // ---------------------------------------------------------------------

  /**
   * POST /tasks: a missing title is refused first, then a priority and a
   * status outside their sets, all with 400 and nothing committed. A
   * falsy effort (zero included) is stored as None; a negative one is
   * accepted. An `id` in the body is ignored.
   */
  function ApiCreateTask(table: seq<Tarea>, u: Usuario, body: Option<Dict>, freshId: int, now: string): (r: Reply)
    requires !HasTarea(table, freshId)
    ensures r.response.code in {201, 400}
    ensures r.response.code == 400 ==> r.table == table
    ensures NoBody(body) || !Truthy(body.value.title.Get()) ==> r == Reply(Response(400, Error(TitleMissing)), table)
    ensures !NoBody(body) && Truthy(body.value.title.Get()) && !(body.value.priority.GetOr(DefaultPriority).Some? && body.value.priority.GetOr(DefaultPriority).value in Priorities)
            ==> r == Reply(Response(400, Error(BadPriorityApi)), table)
    ensures !NoBody(body) && Truthy(body.value.title.Get())
            && body.value.priority.GetOr(DefaultPriority).Some? && body.value.priority.GetOr(DefaultPriority).value in Priorities
            && !(body.value.status.GetOr(DefaultStatus).Some? && body.value.status.GetOr(DefaultStatus).value in Statuses)
            ==> r == Reply(Response(400, Error(BadStatusApi)), table)
    ensures r.response.code == 201 ==> |r.table| == |table| + 1
    ensures r.response.code == 201 ==>
              && Some(r.table[|table|].priority) == body.value.priority.GetOr(DefaultPriority)
              && Some(r.table[|table|].status) == body.value.status.GetOr(DefaultStatus)
    ensures r.response.code == 201 ==>
              var t := r.table[|table|];
              && r.table == table + [t]
              && r.response.body == Doc(Render(t))
              && t.id == freshId && t.creadorId == u.id && t.fechaCreacion == now
              && t.title == body.value.title.value && t.priority in Priorities && t.status in Statuses
              && t.effortHours == EffortOf(body.value.effortHours)
              && t.assignedTo == body.value.assignedTo.Get() && t.description == body.value.description.Get()
    ensures r.response.code == 201 <==>
              && !NoBody(body) && Truthy(body.value.title.Get())
              && (body.value.priority.Absent? || (body.value.priority.Given? && body.value.priority.value in Priorities))
              && (body.value.status.Absent? || (body.value.status.Given? && body.value.status.value in Statuses))
  {
    if NoBody(body) || !Truthy(body.value.title.Get()) then Reply(Response(400, Error(TitleMissing)), table)
    else
      var d := body.value;
      var priority := d.priority.GetOr(DefaultPriority);
      var status := d.status.GetOr(DefaultStatus);
      if priority.None? || priority.value !in Priorities then Reply(Response(400, Error(BadPriorityApi)), table)
      else if status.None? || status.value !in Statuses then Reply(Response(400, Error(BadStatusApi)), table)
      else
        var t := Tarea(freshId, d.title.value, d.description.Get(), priority.value, EffortOf(d.effortHours),
                       status.value, d.assignedTo.Get(), u.id, now);
        Reply(Response(201, Doc(Render(t))), table + [t])
  }

  /** GET /tasks: the tasks the user may list, with their count. */
  function ApiGetAllTasks(table: seq<Tarea>, u: Usuario): (r: Response)
    ensures r.code == 200 && r.body.Listing?
    ensures r.body.total == |Visible(table, u)| == |r.body.tasks|
    ensures forall i :: 0 <= i < |r.body.tasks| ==> r.body.tasks[i] == Render(Visible(table, u)[i])
    ensures !u.esAdmin ==> forall i :: 0 <= i < |r.body.tasks| ==> r.body.tasks[i].assignedTo == Given(u.nombre)
  {
    var vis := Visible(table, u);
    assert forall i :: 0 <= i < |vis| ==> vis[i] in vis;
    Response(200, Listing(|vis|, seq(|vis|, i requires 0 <= i < |vis| => Render(vis[i]))))
  }

  // ---------------------------------------------------------------------
  // GET, PUT and DELETE /tasks/<id>
  // ---------------------------------------------------------------------

  /**
   * GET /tasks/<id> as the source has it: `get_or_404` runs inside the
   * handler's `try`, whose `except Exception` also catches the NotFound
   * it raises, so an unknown id is answered with 500.
   */
  function ApiGetTaskAsWritten(table: seq<Tarea>, u: Usuario, id: nat): (r: Response)
    ensures r.code == 500 <==> !HasTarea(table, id)
    ensures r.code != 500 ==> r == ApiGetTask(table, u, id)
  {
    var corrected := ApiGetTask(table, u, id);
    if corrected.code == 404 then Response(500, corrected.body) else corrected
  }

  /** PUT /tasks/<id> as the source has it: the same catch-all turns the unknown id's 404 into 500. */
  function ApiUpdateTaskAsWritten(table: seq<Tarea>, u: Usuario, id: nat, body: Option<Dict>): (r: Reply)
    ensures !HasTarea(table, id) ==> r == Reply(Response(500, Error(NotFoundText)), table)
    ensures HasTarea(table, id) ==> r == ApiUpdateTask(table, u, id, body)
    ensures r.response.code != 404
  {
    var corrected := ApiUpdateTask(table, u, id, body);
    if corrected.response.code == 404 then Reply(Response(500, corrected.response.body), corrected.table) else corrected
  }

  /** DELETE /tasks/<id> as the source has it: the same catch-all turns the unknown id's 404 into 500. */
  function ApiDeleteTaskAsWritten(table: seq<Tarea>, u: Usuario, id: nat): (r: Reply)
    ensures !HasTarea(table, id) ==> r == Reply(Response(500, Error(NotFoundText)), table)
    ensures HasTarea(table, id) ==> r == ApiDeleteTask(table, u, id)
    ensures r.response.code != 404
  {
    var corrected := ApiDeleteTask(table, u, id);
    if corrected.response.code == 404 then Reply(Response(500, corrected.response.body), corrected.table) else corrected
  }

  /** The discrepancy: on an empty table GET, PUT and DELETE answer 500 where 404 is meant. */
  lemma UnknownIdGives500AsWritten(u: Usuario, body: Option<Dict>)
    ensures ApiGetTaskAsWritten([], u, 1).code == 500 && ApiGetTask([], u, 1).code == 404
    ensures ApiUpdateTaskAsWritten([], u, 1, body).response.code == 500
            && ApiUpdateTask([], u, 1, body).response.code == 404
    ensures ApiDeleteTaskAsWritten([], u, 1).response.code == 500
            && ApiDeleteTask([], u, 1).response.code == 404
  {
  }

  /**
   * GET /tasks/<id> with the evidently intended 404: unknown id 404,
   * otherwise 403 unless the user is admin, assignee or creator.
   */
  function ApiGetTask(table: seq<Tarea>, u: Usuario, id: nat): (r: Response)
    ensures r.code == 404 <==> !HasTarea(table, id)
    ensures r.code == 403 <==> HasTarea(table, id) && !CanRead(u, table[FindTarea(table, id).value])
    ensures r.code == 200 ==> r.body == Doc(Render(table[FindTarea(table, id).value]))
    ensures r.code in {200, 403, 404}
  {
    match FindTarea(table, id)
    case None => Response(404, Error(NotFoundText))
    case Some(i) =>
      if !CanRead(u, table[i]) then Response(403, Error(CannotRead))
      else Response(200, Doc(Render(table[i])))
  }

  /** The outcome of merging a PUT body into a row. */
  datatype Merge = Merged(t: Tarea) | Rejected(message: string)

  /**
   * The assignments of the partial update: each key present in the body
   * overwrites its column, each absent key leaves it alone. An effort or
   * assignee that is falsy is stored as None. A `null` title is the one
   * exception: the source sets the column to None and the commit then
   * fails, so `Apply` keeps the old title and `ApiUpdateTask` answers 500.
   */
  function Apply(t: Tarea, d: Dict): (n: Tarea)
    requires d.priority.Present() ==> d.priority.Given?
    requires d.status.Present() ==> d.status.Given?
    ensures n.id == t.id && n.creadorId == t.creadorId && n.fechaCreacion == t.fechaCreacion
    ensures n.title == (if d.title.Given? then d.title.value else t.title)
    ensures !d.description.Present() ==> n.description == t.description
    ensures d.description.Present() ==> n.description == d.description.Get()
    ensures !d.priority.Present() ==> n.priority == t.priority
    ensures d.priority.Present() ==> n.priority == d.priority.value
    ensures !d.effortHours.Present() ==> n.effortHours == t.effortHours
    ensures d.effortHours.Present() ==> n.effortHours == EffortOf(d.effortHours)
    ensures !d.status.Present() ==> n.status == t.status
    ensures d.status.Present() ==> n.status == d.status.value
    ensures !d.assignedTo.Present() ==> n.assignedTo == t.assignedTo
    ensures d.assignedTo.Present() && Truthy(d.assignedTo.Get()) ==> n.assignedTo == d.assignedTo.Get()
    ensures d.assignedTo.Present() && !Truthy(d.assignedTo.Get()) ==> n.assignedTo == None
  {
    Tarea(t.id,
          if d.title.Given? then d.title.value else t.title,
          if d.description.Present() then d.description.Get() else t.description,
          if d.priority.Present() then d.priority.value else t.priority,
          if d.effortHours.Present() then EffortOf(d.effortHours) else t.effortHours,
          if d.status.Present() then d.status.value else t.status,
          if !d.assignedTo.Present() then t.assignedTo
          else if Truthy(d.assignedTo.Get()) then d.assignedTo.Get() else None,
          t.creadorId, t.fechaCreacion)
  }

  /** A present priority is acceptable only as one of the four values (`null` included in the refusal). */
  predicate PriorityAccepted(d: Dict) {
    d.priority.Present() ==> d.priority.Given? && d.priority.value in Priorities
  }

  predicate StatusAccepted(d: Dict) {
    d.status.Present() ==> d.status.Given? && d.status.value in Statuses
  }

  /**
   * The partial update of PUT /tasks/<id>: a priority or a status outside
   * its set rejects the whole body, priority first; otherwise the
   * present keys are applied.
   */
  function MergeBody(t: Tarea, d: Dict): (m: Merge)
    ensures !PriorityAccepted(d) ==> m == Rejected(BadPriorityApi)
    ensures PriorityAccepted(d) && !StatusAccepted(d) ==> m == Rejected(BadStatusApi)
    ensures m.Merged? <==> PriorityAccepted(d) && StatusAccepted(d)
    ensures m.Merged? ==> m.t == Apply(t, d)
    ensures m.Merged? && t.priority in Priorities ==> m.t.priority in Priorities
    ensures m.Merged? && t.status in Statuses ==> m.t.status in Statuses
  {
    if !PriorityAccepted(d) then Rejected(BadPriorityApi)
    else if !StatusAccepted(d) then Rejected(BadStatusApi)
    else Merged(Apply(t, d))
  }

  /** A partial update changes exactly the columns the body names. */
  lemma AbsentKeysKept(t: Tarea, d: Dict)
    requires MergeBody(t, d).Merged?
    ensures var n := MergeBody(t, d).t;
            && (d.title.Absent? ==> n.title == t.title)
            && (d.description.Absent? ==> n.description == t.description)
            && (d.priority.Absent? ==> n.priority == t.priority)
            && (d.effortHours.Absent? ==> n.effortHours == t.effortHours)
            && (d.status.Absent? ==> n.status == t.status)
            && (d.assignedTo.Absent? ==> n.assignedTo == t.assignedTo)
            && n.id == t.id && n.creadorId == t.creadorId && n.fechaCreacion == t.fechaCreacion
  {
  }

  /**
   * PUT /tasks/<id>: unknown id 404, then 403 unless admin or creator,
   * then 400 for an empty body or a rejected merge; a `null` title passes
   * the merge but fails the NOT NULL constraint at commit (500). Nothing
   * is committed unless the answer is 200.
   */
  function ApiUpdateTask(table: seq<Tarea>, u: Usuario, id: nat, body: Option<Dict>): (r: Reply)
    ensures r.response.code != 200 ==> r.table == table
    ensures r.response.code == 404 <==> !HasTarea(table, id)
    ensures r.response.code == 403 <==> HasTarea(table, id) && !CanModify(u, table[FindTarea(table, id).value])
    ensures HasTarea(table, id) && CanModify(u, table[FindTarea(table, id).value]) && NoBody(body)
            ==> r.response == Response(400, Error(NoUpdateData))
    ensures HasTarea(table, id) && CanModify(u, table[FindTarea(table, id).value]) && !NoBody(body)
            && MergeBody(table[FindTarea(table, id).value], body.value).Rejected?
            ==> r.response == Response(400, Error(MergeBody(table[FindTarea(table, id).value], body.value).message))
    ensures HasTarea(table, id) && CanModify(u, table[FindTarea(table, id).value]) && !NoBody(body)
            && MergeBody(table[FindTarea(table, id).value], body.value).Merged? && body.value.title.Null?
            ==> r.response == Response(500, Error(TitleNotNull))
    ensures r.response.code == 200 <==>
              HasTarea(table, id) && CanModify(u, table[FindTarea(table, id).value]) && !NoBody(body)
              && MergeBody(table[FindTarea(table, id).value], body.value).Merged? && !body.value.title.Null?
    ensures r.response.code == 200 ==>
              var i := FindTarea(table, id).value;
              var t := MergeBody(table[i], body.value).t;
              r.table == table[i := t] && r.response.body == Doc(Render(t))
  {
    match FindTarea(table, id)
    case None => Reply(Response(404, Error(NotFoundText)), table)
    case Some(i) =>
      if !CanModify(u, table[i]) then Reply(Response(403, Error(CannotUpdate)), table)
      else if NoBody(body) then Reply(Response(400, Error(NoUpdateData)), table)
      else
        match MergeBody(table[i], body.value)
        case Rejected(msg) => Reply(Response(400, Error(msg)), table)
        case Merged(t) =>
          if body.value.title.Null? then Reply(Response(500, Error(TitleNotNull)), table)
          else Reply(Response(200, Doc(Render(t))), table[i := t])
  }

  /** DELETE /tasks/<id>: unknown id 404, then 403 unless admin or creator; otherwise the row goes. */
  function ApiDeleteTask(table: seq<Tarea>, u: Usuario, id: nat): (r: Reply)
    ensures r.response.code != 200 ==> r.table == table
    ensures r.response.code == 404 <==> !HasTarea(table, id)
    ensures r.response.code == 403 <==> HasTarea(table, id) && !CanModify(u, table[FindTarea(table, id).value])
    ensures r.response.code == 200 ==>
              var i := FindTarea(table, id).value;
              r.table == table[..i] + table[i + 1..] && r.response.body == Deleted(DeletedMessage, id)
    ensures r.response.code in {200, 403, 404}
  {
    match FindTarea(table, id)
    case None => Reply(Response(404, Error(NotFoundText)), table)
    case Some(i) =>
      if !CanModify(u, table[i]) then Reply(Response(403, Error(CannotDelete)), table)
      else Reply(Response(200, Deleted(DeletedMessage, id)), table[..i] + table[i + 1..])
  }

  /** With unique keys, a deleted task can no longer be fetched. */
  lemma DeleteThenGet(table: seq<Tarea>, u: Usuario, id: nat)
    requires UniqueKeys(table)
    requires ApiDeleteTask(table, u, id).response.code == 200
    ensures ApiGetTask(ApiDeleteTask(table, u, id).table, u, id).code == 404
  {
  }

  /** A PUT can blank the title that POST insists on. */
  lemma UpdateMayBlankTitle(table: seq<Tarea>, u: Usuario, id: nat)
    requires HasTarea(table, id) && CanModify(u, table[FindTarea(table, id).value])
    ensures var r := ApiUpdateTask(table, u, id, Some(EmptyDict.(title := Given(""))));
            r.response.code == 200 && r.table[FindTarea(table, id).value].title == ""
  {
  }

  /** A POST stores a negative effort, which the JSON-file variant's validation would refuse. */
  lemma CreateAcceptsNegativeEffort(table: seq<Tarea>, u: Usuario, freshId: int, now: string)
    requires !HasTarea(table, freshId)
    ensures var d := EmptyDict.(title := Given("t"), effortHours := Given(-1.0));
            var r := ApiCreateTask(table, u, Some(d), freshId, now);
            r.response.code == 201 && r.table[|table|].effortHours == Some(-1.0)
  {
  }

  // ---------------------------------------------------------------------
  // Form routes
  // ---------------------------------------------------------------------

  /**
   * What a form route renders: Flask's 404 page, Flask's 500 page for an
   * uncaught exception, a redirect with a flash, the edit form, or JSON.
   */
  datatype Page = NotFoundPage | ServerErrorPage | Redirect(flash: string) | EditForm(t: Tarea) | Json(response: Response)

  /** `editar_tarea` (GET): unknown id 404; only an admin or the creator gets the form. */
  function EditTaskForm(table: seq<Tarea>, u: Usuario, id: nat): (p: Page)
    ensures p.NotFoundPage? <==> !HasTarea(table, id)
    ensures p.Redirect? <==> HasTarea(table, id) && !CanModify(u, table[FindTarea(table, id).value])
    ensures p.Redirect? ==> p.flash == CannotEdit
    ensures p.EditForm? ==> p.t.id == id && CanModify(u, p.t)
    ensures HasTarea(table, id) && CanModify(u, table[FindTarea(table, id).value])
            ==> p == EditForm(table[FindTarea(table, id).value])
  {
    match FindTarea(table, id)
    case None => NotFoundPage
    case Some(i) => if !CanModify(u, table[i]) then Redirect(CannotEdit) else EditForm(table[i])
  }

  /** The edit form is offered exactly to the users whose API update passes the 404 and 403 gates. */
  lemma EditGateMatchesApiUpdate(table: seq<Tarea>, u: Usuario, id: nat, body: Option<Dict>)
    ensures EditTaskForm(table, u, id).EditForm? <==>
            ApiUpdateTask(table, u, id, body).response.code !in {403, 404}
  {
  }

  /** `eliminar_tarea`: the same gate as the API's DELETE; on success the row goes. */
  function DeleteTaskForm(table: seq<Tarea>, u: Usuario, id: nat): (r: (Page, seq<Tarea>))
    ensures r.0.NotFoundPage? <==> !HasTarea(table, id)
    ensures r.0 == Redirect(CannotDelete) <==> HasTarea(table, id) && !CanModify(u, table[FindTarea(table, id).value])
    ensures HasTarea(table, id) && CanModify(u, table[FindTarea(table, id).value])
            ==> r.0 == Redirect(DeletedMessage)
    ensures r.0 != Redirect(DeletedMessage) ==> r.1 == table
    ensures r.0 == Redirect(DeletedMessage) ==> r.1 == ApiDeleteTask(table, u, id).table && |r.1| == |table| - 1
  {
    match FindTarea(table, id)
    case None => (NotFoundPage, table)
    case Some(i) =>
      if !CanModify(u, table[i]) then (Redirect(CannotDelete), table)
      else (Redirect(DeletedMessage), table[..i] + table[i + 1..])
  }

  /**
   * `cambiar_estado_tarea`: the status changes only to one of the four
   * accepted values, and nothing else changes. There is no permission
   * check: any logged-in user may change any task's status. A request
   * without JSON body makes `request.json.get` raise outside any `try`,
   * so Flask answers with its generic 500 page.
   */
  function ChangeStatus(table: seq<Tarea>, id: nat, body: Option<Dict>): (r: (Page, seq<Tarea>))
    ensures !HasTarea(table, id) ==> r == (NotFoundPage, table)
    ensures HasTarea(table, id) && body.None? ==> r == (ServerErrorPage, table)
    ensures HasTarea(table, id) && body.Some? && !(body.value.status.Given? && body.value.status.value in Statuses)
            ==> r == (Json(Response(400, Outcome(false, StatusInvalid))), table)
    ensures HasTarea(table, id) && body.Some? && body.value.status.Given? && body.value.status.value in Statuses
            ==> var i := FindTarea(table, id).value;
                r == (Json(Response(200, Outcome(true, StatusUpdated))), table[i := table[i].(status := body.value.status.value)])
  {
    match FindTarea(table, id)
    case None => (NotFoundPage, table)
    case Some(i) =>
      if body.None? then (ServerErrorPage, table)
      else
        var s := body.value.status.Get();
        if s.Some? && s.value in Statuses then
          (Json(Response(200, Outcome(true, StatusUpdated))), table[i := table[i].(status := s.value)])
        else (Json(Response(400, Outcome(false, StatusInvalid))), table)
  }

  // ---------------------------------------------------------------------
  // Invariants of the table across requests
  // ---------------------------------------------------------------------

  /** None of the modelled routes commits a priority or a status outside its set. */
  lemma RoutesKeepEnumsValid(table: seq<Tarea>, u: Usuario, id: nat, body: Option<Dict>, freshId: int, now: string)
    requires EnumsValid(table)
    requires !HasTarea(table, freshId)
    ensures EnumsValid(ApiCreateTask(table, u, body, freshId, now).table)
    ensures EnumsValid(ApiUpdateTask(table, u, id, body).table)
    ensures EnumsValid(ApiDeleteTask(table, u, id).table)
    ensures EnumsValid(DeleteTaskForm(table, u, id).1)
    ensures EnumsValid(ChangeStatus(table, id, body).1)
  {
  }

  /** Creating with a fresh key keeps primary keys unique. */
  lemma CreateKeepsKeysUnique(table: seq<Tarea>, u: Usuario, body: Option<Dict>, freshId: int, now: string)
    requires UniqueKeys(table)
    requires !HasTarea(table, freshId)
    ensures UniqueKeys(ApiCreateTask(table, u, body, freshId, now).table)
  {
  }
}
