/**
 * The five JSON REST handlers of routes/task_routes.py. Each handler maps
 * the stored list and a request to a response and the new list. A
 * missing JSON body is `None`; non-object bodies are outside the model.
 */
module TaskRoutes {
  import opened Wrappers
  import opened Payload
  import opened TaskModel
  import opened TaskManager

  const NotFound: string := "Tarea no encontrada"
  const NoData: string := "No se proporcionaron datos"
  const NoUpdateData: string := "No se proporcionaron datos para actualizar"
  const DeletedMessage: string := "Tarea eliminada exitosamente"
  /** The text of the ValueError Python's `max` raises on an empty sequence. */
  const MaxOfNothing: string := "max() arg is an empty sequence"
  const UpdateFailed: string := "Error al actualizar la tarea"

  /** A response together with the list as it stands after the request. */
  datatype Reply = Reply(response: Response, tasks: seq<Task>)

  /** GET /tasks: every task, in store order, with their count. */
  function GetAllTasks(ts: seq<Task>): (r: Response)
    ensures r.code == 200 && r.body.Listing?
    ensures r.body.total == |ts| == |r.body.tasks|
    ensures forall i :: 0 <= i < |ts| ==> r.body.tasks[i] == ToDict(ts[i])
  {
    Response(200, Listing(|ts|, Save(ts)))
  }

  /** GET /tasks/<id>: the first task with the id, or 404. */
  function GetTask(ts: seq<Task>, id: nat): (r: Response)
    ensures r.code == 404 <==> !HasId(ts, id)
    ensures r.code == 404 ==> r.body == Error(NotFound)
    ensures r.code != 404 ==> r.code == 200 && r.body == Doc(ToDict(GetById(ts, id).value))
  {
    match GetById(ts, id)
    case None => Response(404, Error(NotFound))
    case Some(t) => Response(200, Doc(ToDict(t)))
  }

  /**
   * POST /tasks: an empty body or a task that fails validation is a 400
   * and leaves the list alone; otherwise the task is appended by
   * `add_task` and returned with the id it was stored under.
   */
  function CreateTask(ts: seq<Task>, body: Option<Dict>, now: string): (r: Reply)
    requires now != ""
    ensures NoBody(body) ==> r == Reply(Response(400, Error(NoData)), ts)
    ensures !NoBody(body) && !Validate(FromDict(body.value, now)).ok ==>
              r == Reply(Response(400, Error(Validate(FromDict(body.value, now)).message)), ts)
    ensures r.response.code in {201, 400, 500}
    ensures r.response.code != 201 ==> r.tasks == ts
    ensures r.response.code == 500 <==>
              !NoBody(body) && IsValid(FromDict(body.value, now)) && !body.value.id.Given? && NextId(ts).None?
    ensures r.response.code == 201 <==>
              !NoBody(body) && IsValid(FromDict(body.value, now)) && (body.value.id.Given? || NextId(ts).Some?)
    ensures r.response.code == 201 ==> r.tasks == AddTask(ts, FromDict(body.value, now)).tasks
    ensures r.response.code == 201 ==> r.tasks[|ts|] == FromDict(body.value, now).(id := r.tasks[|ts|].id)
    ensures r.response.code == 201 ==>
              && |r.tasks| == |ts| + 1 && r.tasks[..|ts|] == ts
              && r.response.body == Doc(ToDict(r.tasks[|ts|]))
              && IsValid(r.tasks[|ts|])
              && r.tasks[|ts|].id.Some?
              && (body.value.id.Given? ==> r.tasks[|ts|].id == Some(body.value.id.value))
              && (!body.value.id.Given? ==> !HasId(ts, r.tasks[|ts|].id.value))
  {
    if NoBody(body) then Reply(Response(400, Error(NoData)), ts)
    else
      var t := FromDict(body.value, now);
      var v := Validate(t);
      if !v.ok then Reply(Response(400, Error(v.message)), ts)
      else
        match AddTask(ts, t)
        case NextIdFailed => Reply(Response(500, Error(MaxOfNothing)), ts)
        case Added(ts', stored) =>
          assert ts'[..|ts|] == ts;
          Reply(Response(201, Doc(ToDict(stored))), ts')
  }

  /**
   * PUT /tasks/<id>: existence is checked before the body; the body is
   * read as a whole new task that replaces the stored one, and the
   * answer is the record read back from the store.
   */
  function UpdateTaskRoute(ts: seq<Task>, id: nat, body: Option<Dict>, now: string): (r: Reply)
    requires now != ""
    ensures !HasId(ts, id) ==> r == Reply(Response(404, Error(NotFound)), ts)
    ensures HasId(ts, id) && NoBody(body) ==> r == Reply(Response(400, Error(NoUpdateData)), ts)
    ensures r.response.code in {200, 400, 404}
    ensures r.response.code != 200 ==> r.tasks == ts
    ensures HasId(ts, id) && !NoBody(body) && !IsValid(FromDict(body.value, now)) ==>
              r == Reply(Response(400, Error(Validate(FromDict(body.value, now)).message)), ts)
    ensures r.response.code == 400 && !NoBody(body) ==>
              r.response.body == Error(Validate(FromDict(body.value, now)).message)
    ensures r.response.code == 200 <==>
              HasId(ts, id) && !NoBody(body) && IsValid(FromDict(body.value, now))
    ensures r.response.code == 200 ==>
              && r.tasks == UpdateTask(ts, id, FromDict(body.value, now)).tasks
              && r.response.body == Doc(ToDict(GetById(r.tasks, id).value))
              && GetById(r.tasks, id).value.id == Some(id)
  {
    if !HasId(ts, id) then Reply(Response(404, Error(NotFound)), ts)
    else if NoBody(body) then Reply(Response(400, Error(NoUpdateData)), ts)
    else
      var u := FromDict(body.value, now);
      var v := Validate(u);
      if !v.ok then Reply(Response(400, Error(v.message)), ts)
      else
        var c := UpdateTask(ts, id, u);
        if !c.ok then Reply(Response(500, Error(UpdateFailed)), ts)
        else
          match GetById(c.tasks, id)
          case None => Reply(Response(500, Error(UpdateFailed)), ts)
          case Some(t) => Reply(Response(200, Doc(ToDict(t))), c.tasks)
  }

  /** DELETE /tasks/<id>: 404 for an unknown id, otherwise every task with the id is removed. */
  function DeleteTaskRoute(ts: seq<Task>, id: nat): (r: Reply)
    ensures !HasId(ts, id) ==> r == Reply(Response(404, Error(NotFound)), ts)
    ensures HasId(ts, id) ==> r.response == Response(200, Deleted(DeletedMessage, id))
    ensures HasId(ts, id) ==> r.tasks == DeleteTask(ts, id).tasks && !HasId(r.tasks, id)
  {
    if !HasId(ts, id) then Reply(Response(404, Error(NotFound)), ts)
    else Reply(Response(200, Deleted(DeletedMessage, id)), DeleteTask(ts, id).tasks)
  }

  // ---------------------------------------------------------------------
  // The API as one state machine
  // ---------------------------------------------------------------------

  datatype Request =
    | List
    | Get(id: nat)
    | Post(body: Option<Dict>)
    | Put(id: nat, body: Option<Dict>)
    | Delete(id: nat)

  /** Dispatches one request; GET requests never change the list. */
  function Handle(ts: seq<Task>, req: Request, now: string): (r: Reply)
    requires now != ""
    ensures (req.List? || req.Get?) ==> r.tasks == ts
  {
    match req
    case List => Reply(GetAllTasks(ts), ts)
    case Get(id) => Reply(GetTask(ts, id), ts)
    case Post(body) => CreateTask(ts, body, now)
    case Put(id, body) => UpdateTaskRoute(ts, id, body, now)
    case Delete(id) => DeleteTaskRoute(ts, id)
  }

  /**
   * Starting from a list whose tasks all have ids (the empty file, for
   * one), every request keeps it so, and no request fails with a 500.
   */
  lemma HandleKeepsIdsSet(ts: seq<Task>, req: Request, now: string)
    requires now != ""
    requires AllIdsSet(ts)
    ensures AllIdsSet(Handle(ts, req, now).tasks)
    ensures Handle(ts, req, now).response.code != 500
  {
  }

  /** Every request keeps every stored task dated, which is what makes `LoadSave` apply between requests. */
  lemma HandleKeepsDated(ts: seq<Task>, req: Request, now: string)
    requires now != ""
    requires Dated(ts)
    ensures Dated(Handle(ts, req, now).tasks)
  {
    if req.Delete? {
      var kept := Handle(ts, req, now).tasks;
      forall i | 0 <= i < |kept| ensures kept[i].fechaCreacion != "" {
        assert kept[i] in ts;
      }
    }
  }

  /** A request that cannot name an id keeps the ids unique: anything but a POST whose body carries an id. */
  lemma HandleKeepsUniqueIds(ts: seq<Task>, req: Request, now: string)
    requires now != ""
    requires UniqueIds(ts)
    requires req.Post? && !req.body.None? ==> !req.body.value.id.Given?
    ensures UniqueIds(Handle(ts, req, now).tasks)
  {
    match req
    case Post(body) =>
      if CreateTask(ts, body, now).response.code == 201 {
        AddWithoutIdKeepsUnique(ts, FromDict(body.value, now));
      }
    case Put(id, body) =>
      if !NoBody(body) {
        UpdateKeepsUnique(ts, id, FromDict(body.value, now));
      }
    case Delete(id) =>
      DeleteKeepsUnique(ts, id);
    case _ =>
  }

  /** A POST whose body repeats a stored id succeeds and leaves two tasks with that id. */
  lemma PostWithTakenIdDuplicates(ts: seq<Task>, d: Dict, now: string)
    requires now != ""
    requires d.id.Given? && HasId(ts, d.id.value)
    requires IsValid(FromDict(d, now))
    ensures var r := CreateTask(ts, Some(d), now);
            r.response.code == 201 && !UniqueIds(r.tasks)
  {
  }

  /** A valid POST without id, then a GET of the id it was given, answers with the same document. */
  lemma CreateThenGet(ts: seq<Task>, d: Dict, now: string)
    requires now != ""
    requires AllIdsSet(ts) && forall i :: 0 <= i < |ts| ==> ts[i].id.value >= 0
    requires !d.IsEmpty() && !d.id.Given? && IsValid(FromDict(d, now))
    ensures var r := CreateTask(ts, Some(d), now);
            && r.response.code == 201
            && var n := r.tasks[|ts|].id.value;
               n >= 1 && GetTask(r.tasks, n) == Response(200, r.response.body)
  {
  }

  /**
   * PUT stores the body as a whole new record: keys the body leaves out
   * become None or their defaults, and the creation date becomes the
   * body's, or the time of the request, never the stored one.
   */
  lemma PutReplacesWholeRecord(ts: seq<Task>, id: nat, d: Dict, now: string)
    requires now != ""
    requires UpdateTaskRoute(ts, id, Some(d), now).response.code == 200
    ensures var t := GetById(UpdateTaskRoute(ts, id, Some(d), now).tasks, id).value;
            && t == FromDict(d, now).(id := Some(id))
            && t.fechaCreacion == CreationDate(d, now)
            && (d.description.Absent? ==> t.description.None?)
            && (d.assignedTo.Absent? ==> t.assignedTo.None?)
            && (d.effortHours.Absent? ==> t.effortHours.None?)
            && (d.priority.Absent? ==> t.priority == Some(DefaultPriority))
            && (d.status.Absent? ==> t.status == Some(DefaultStatus))
  {
  }

  /** Changing only the status by PUT is impossible: a body without title is rejected. */
  lemma PutStatusAloneIsRejected(ts: seq<Task>, id: nat, status: string, now: string)
    requires now != ""
    requires HasId(ts, id)
    ensures UpdateTaskRoute(ts, id, Some(EmptyDict.(status := Given(status))), now)
            == Reply(Response(400, Error(TitleRequired)), ts)
  {
  }

  /** After a DELETE, a GET of the same id is a 404. */
  lemma DeleteThenGet(ts: seq<Task>, id: nat)
    ensures GetTask(DeleteTaskRoute(ts, id).tasks, id).code == 404
  {
  }
}
