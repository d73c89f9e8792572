# Task tracker: a Dafny model of its record, store, handlers and policies

This project models the core of a small Flask task tracker that exists in two
variants.

* **JSON-file variant.** A `Task` record (`models/task.py`) is stored in a JSON
  array by a `TaskManager` (`managers/task_manager.py`). Five REST handlers
  (`routes/task_routes.py`) expose list, get, create, replace and delete.
* **ORM variant** (`app.py`). Users log in. Tasks (`Tarea`) are rows of a
  table, and the variant adds authorization rules on top: admin, creator and
  assignee permissions, a list filter for non-admins, a partial update with
  enum checks, a status-change route, registration rules and dashboard
  statistics.

Everything is modelled functionally:

* A task is an immutable datatype with `Option` fields (Python's `None`).
* The JSON file is a `seq<Task>`, and the ORM table is a `seq<Tarea>`.
* Every handler is a pure function from (state, request) to (response, new
  state).
* A JSON request body is a typed record, `Payload.Dict`. Each known key holds
  `Absent`, `Null` or `Given(v)`, so the model tells apart `data.get(k)`,
  `data.get(k, default)` and `k in data`.
* The clock (`now`) and the key the database assigns (`freshId`) are
  parameters.

Modules, one per source component:

* `Wrappers`, `Payload`: `Option`, JSON bodies and responses.
* `TaskModel`: `models/task.py`.
* `TaskManager`: `managers/task_manager.py`, with persistence as `Save`/`Load`.
* `TaskRoutes`: `routes/task_routes.py`.
* `Orm`: the entities and policy rules of `app.py`.
* `OrmRoutes`: the handlers of `app.py`.

Some behaviours of the code are easy to misjudge, and the model states them:

* **Ids can be reused.** The next id is the largest stored id plus one. After
  the task with the largest id is deleted, the next task created gets that same
  id exactly when the largest remaining id is one less
  (`TaskManager.DeletedMaxIdReuse`). With ids {1, 5}, deleting 5 and creating a
  task hands out 2 (`TaskManager.DeletedMaxIdNotAlwaysReused`).
* **Ids are not always unique,** although the constructor's docstring calls
  the id a unique primary key (models/task.py:18). A POST body that carries an `id` is appended
  without a uniqueness check (`TaskRoutes.PostWithTakenIdDuplicates`).
  Uniqueness survives every other request (`TaskRoutes.HandleKeepsUniqueIds`).
* **PUT replaces the whole record.** It does not keep the creation date. The
  body goes through `from_dict`, which always stamps a non-empty date. So the
  store's "keep the old date" branch never fires from the route, and the stored
  date becomes the body's date or the time of the request
  (`TaskRoutes.PutReplacesWholeRecord`). Keys missing from the body become None
  or their defaults. A PUT with only a status is refused, because it has no
  title (`TaskRoutes.PutStatusAloneIsRejected`).
* **The ORM API does not check effort.** It accepts a negative effort
  (`OrmRoutes.CreateAcceptsNegativeEffort`). A partial update may blank the
  title (`OrmRoutes.UpdateMayBlankTitle`).
* **Enum values are Spanish.** Priorities are `baja/media/alta/bloqueante` and
  statuses are `pendiente/en_progreso/en_revision/completada`.

## Model

| member | source | states |
|---|---|---|
| `TaskModel.New` | models/task.py:12-33 | The constructor defaults priority to "media" and status to "pendiente", leaves the other attributes None, and always stamps a non-empty creation date. |
| `TaskModel.ToDict` | models/task.py:35-51 | The dictionary holds all eight keys and no other. Each key carries its attribute, with None written as `null` rather than left out, so the dictionary is never empty. |
| `TaskModel.FromDict` | models/task.py:64-76 | A given priority or status is kept. A missing one gets its default, but a `null` one stays None. Other missing keys become None. The creation date is the dictionary's only when that is a non-empty string, else the clock's, so it is never empty. |
| `TaskModel.Validate` | models/task.py:78-99 | Succeeds, with an empty message, exactly when the record invariant holds. Otherwise the first failing check, in the order title, priority, status, effort, decides the message. Zero and None effort pass. |
| `TaskModel.RoundTrip` | models/task.py:35-76 | `from_dict(to_dict(t))` gives back `t` whenever `t`'s creation date is non-empty. |
| `TaskModel.ValidateJudgesFromDict` | models/task.py:64-99 | A task read from a body is valid iff the body has a non-empty title, a priority and a status that are missing or accepted, and an effort that is not negative. |
| `TaskManager.MaxId` | managers/task_manager.py:79 | The largest id present, attained by some task; None exactly when no task has an id. |
| `TaskManager.NextId` | managers/task_manager.py:75-80 | 1 for an empty store. Otherwise one more than an id present, and so larger than every stored id. It fails, as Python's `max` of nothing does, exactly when no stored task has an id. |
| `TaskManager.GetById` | managers/task_manager.py:93-97 | The first task with the id, or None exactly when no task has it. |
| `TaskManager.AddTask` | managers/task_manager.py:110-117 | Appends at the end and leaves earlier tasks alone. A task without id gets `get_next_id()`, which no stored task carries. A task with an id is stored unchanged. |
| `TaskManager.UpdateTask` | managers/task_manager.py:131-141 | An unknown id changes nothing and reports False. Otherwise only the first match is replaced by the whole new record, with the id forced and the old date kept only when the new one is empty. Re-reading the id then yields that record. |
| `TaskManager.Without` | managers/task_manager.py:156 | Keeps exactly the tasks without the id. It shortens the list iff some task had the id. |
| `TaskManager.DeleteTask` | managers/task_manager.py:154-161 | Reports True iff some task had the id. The new list is the filtered list `Without`: none has the id, the others remain in order, and a False result leaves the list unchanged. |
| `TaskManager.WithoutConcat` | managers/task_manager.py:156 | Removal distributes over concatenation, so the survivors keep their relative order. |
| `TaskManager.WithoutAbsent` | managers/task_manager.py:156-161 | Removing an id nobody carries returns the list unchanged. |
| `TaskManager.AddWithoutIdKeepsUnique` | managers/task_manager.py:113-116 | Adding a task without id keeps ids unique. |
| `TaskManager.UpdateKeepsUnique` | managers/task_manager.py:133-138 | Replacing a record keeps ids unique. |
| `TaskManager.WithoutKeepsUnique` | managers/task_manager.py:156 | Any list with unique ids still has unique ids after the filter. |
| `TaskManager.DeleteKeepsUnique` | managers/task_manager.py:154-161 | Deleting keeps ids unique. |
| `TaskManager.AddWithPresetIdCanDuplicate` | managers/task_manager.py:113-116 | Appending a task whose id is already stored succeeds and breaks uniqueness. |
| `TaskManager.DeletedMaxIdReuse` | managers/task_manager.py:75-80 | After the task with the largest id is deleted, the next task added gets that id back iff the largest remaining id is one less, or nothing remains and the id was 1. |
| `TaskManager.DeletedMaxIdNotAlwaysReused` | managers/task_manager.py:75-80 | With ids {1, 5}, deleting 5 and adding a task without id hands out 2. |
| `TaskManager.NextIdAfterGap` | managers/task_manager.py:75-80 | With ids {1, 3}, the next id is 4. |
| `TaskManager.AddKeepsIdsSet` | managers/task_manager.py:110-117 | When every stored task has an id, adding cannot fail and every task still has an id. |
| `TaskManager.DeleteKeepsIdsSet` | managers/task_manager.py:154-161 | Deleting keeps "every task has an id". |
| `TaskManager.Save` | managers/task_manager.py:56-60 | The file holds one `to_dict` image per task, in order. |
| `TaskManager.Load` | managers/task_manager.py:33-38 | Reading the file turns each dictionary into a task by `from_dict`, in order. |
| `TaskManager.LoadSave` | managers/task_manager.py:17-65 | Saving then loading returns the same list in the same order when every task has a creation date. |
| `TaskRoutes.GetAllTasks` | routes/task_routes.py:19-26 | 200, with `total` equal to the number of tasks and the tasks in store order. |
| `TaskRoutes.GetTask` | routes/task_routes.py:36-42 | 404 iff no task has the id; otherwise 200 with the first such task. |
| `TaskRoutes.CreateTask` | routes/task_routes.py:52-70 | An empty body, or one whose task fails validation, gives 400 with the matching message and leaves the store alone. Otherwise the store becomes `add_task` of the task read from the body. The stored task is that task with its id, which is the body's id when given and a fresh one otherwise, and the 201 answer shows it. The answer is 201 exactly when the body is non-empty, its task is valid, and an id is available: the body's own, or a next id. A 500 comes only from a store whose tasks all lack ids. |
| `TaskRoutes.UpdateTaskRoute` | routes/task_routes.py:81-105 | An unknown id gives 404 whatever the body, and is checked first. For an existing id, an empty body gives 400 with its message, and an invalid one gives 400 with the validation message. Neither changes anything. 200 iff the id exists and the body is valid; the answer is the re-read record, whose id is the path id. |
| `TaskRoutes.DeleteTaskRoute` | routes/task_routes.py:116-129 | An unknown id gives 404 and changes nothing. Otherwise the answer is 200 `{message, id}` and the id is no longer stored. |
| `TaskRoutes.Handle` | routes/task_routes.py:14-133 | Dispatches the five routes; the two GET routes never change the store. |
| `TaskRoutes.HandleKeepsIdsSet` | routes/task_routes.py:14-133 | Starting from a store whose tasks all have ids, every request keeps that so and none answers 500. |
| `TaskRoutes.HandleKeepsDated` | routes/task_routes.py:14-133 | Every request keeps every stored task's creation date non-empty, so `LoadSave` applies between requests. |
| `TaskRoutes.HandleKeepsUniqueIds` | routes/task_routes.py:14-133 | Every request keeps ids unique, except a POST whose body carries an id. |
| `TaskRoutes.PostWithTakenIdDuplicates` | routes/task_routes.py:59-68 | A valid POST repeating a stored id answers 201 and leaves two tasks with that id. |
| `TaskRoutes.CreateThenGet` | routes/task_routes.py:47-68 | A valid POST without id, followed by a GET of the id it received, returns the same document. |
| `TaskRoutes.PutReplacesWholeRecord` | routes/task_routes.py:93-103 | After a successful PUT, the stored task is exactly the body read by `from_dict` with the path id. Its date is the body's or the clock's, and missing keys are None or defaults. |
| `TaskRoutes.PutStatusAloneIsRejected` | routes/task_routes.py:93-98 | A PUT whose body holds only a status answers 400 with the title message and changes nothing. |
| `TaskRoutes.DeleteThenGet` | routes/task_routes.py:118-127 | After a DELETE, a GET of the same id answers 404. |
| `Orm.AssignedTo` | app.py:317-319 | Keeps exactly the rows assigned to the given name, each as often as it occurs in the table. |
| `Orm.AssignedToConcat` | app.py:317-319 | The filter distributes over concatenation, so the kept rows stay in table order. |
| `Orm.Visible` | app.py:314-319 | An admin lists every task. A non-admin lists exactly the tasks whose assignee equals the user's name, each as often as it occurs in the table. |
| `Orm.CreatorMayReadButNotList` | app.py:317-350 | A non-admin creator of a task assigned to someone else may read, edit and delete it, but does not see it in the list. |
| `Orm.ListedImpliesReadable` | app.py:317-350 | Every listed task is readable by id for that user. |
| `Orm.CountStatus` | app.py:128-131 | A per-status count never exceeds the number of tasks. |
| `Orm.DashboardStats` | app.py:117-132 | `total` is the number of visible tasks, and each figure counts the visible tasks with exactly that status. |
| `Orm.StatusCountsPartition` | app.py:126-132 | The four status counts add up to at most the total, and exactly to it when every status is an accepted one. |
| `Orm.DashboardAddsUp` | app.py:126-132 | For a table with accepted statuses, the dashboard's four figures add up to its total. |
| `Orm.Register` | app.py:84-100 | Mismatched passwords are refused first, then an email already registered. Otherwise the user is appended, as admin iff no user existed before. |
| `Orm.NewUser` | app.py:236-254 | Only an admin may create a user. An email in use is refused with the 'El email ya está registrado' flash. The admin flag is the form's. |
| `Orm.AddingUsersKeepsEmailsUnique` | app.py:88-99 | Registration and admin creation both keep emails unique. |
| `Orm.OnlyFirstRegisteredIsAdmin` | app.py:95-97 | Through registration, no user after the first becomes admin. |
| `OrmRoutes.Render` | app.py:293-302 | The API document of a row: all eight keys and no other, each carrying its column, with None written as `null`. An effort of zero is also written as `null`. |
| `OrmRoutes.EffortOf` | app.py:276 | A missing, `null` or zero effort is stored as None; any other value, negative included, is kept. |
| `OrmRoutes.ApiCreateTask` | app.py:267-302 | 400 with nothing committed for a missing or empty title, then for a priority outside the set, then for a status outside it. 201 iff all three pass; the new row has the fresh key, the creator, the clock's date and the body's fields. Its priority and status are the body's, or `media` and `pendiente` when the key is missing. |
| `OrmRoutes.ApiGetAllTasks` | app.py:313-337 | 200 listing exactly the visible tasks with their count; a non-admin's list holds only tasks assigned to that user. |
| `OrmRoutes.ApiGetTaskAsWritten` | app.py:346-365 | As written, an unknown id answers 500, because the catch-all `except` catches the NotFound raised by `get_or_404`. Otherwise it answers as the corrected handler. |
| `OrmRoutes.UnknownIdGives500AsWritten` | app.py:347-444 | On an empty table the as-written GET, PUT and DELETE handlers answer 500 where the corrected ones answer 404. |
| `OrmRoutes.ApiGetTask` | app.py:347-362 | 404 iff the id is unknown. 403 iff the user is neither admin, nor assignee, nor creator. 200 otherwise, with the row. |
| `OrmRoutes.Apply` | app.py:384-404 | Each key present in the body overwrites its column and each absent key leaves it. A falsy effort or assignee becomes None. A `null` title is left to `ApiUpdateTask`, which answers 500 for it, so `Apply` keeps the old title. The key, creator and date never change. |
| `OrmRoutes.MergeBody` | app.py:384-404 | A priority outside the set rejects the body first, then a status outside the set. Otherwise the present keys are applied, and accepted enum values stay accepted. |
| `OrmRoutes.AbsentKeysKept` | app.py:384-404 | A merged row differs from the stored one only in columns the body names. |
| `OrmRoutes.ApiUpdateTaskAsWritten` | app.py:372-421 | As written, an unknown id answers 500, because the catch-all `except` catches the NotFound. Otherwise it answers as the corrected handler. |
| `OrmRoutes.ApiUpdateTask` | app.py:372-417 | The corrected handler: an unknown id gives 404. A user neither admin nor creator gets 403. An empty body gives 400 with its message. A rejected priority or status gives 400 with the merge's message, priority first. A `null` title fails at commit with 500. Nothing is committed unless the answer is 200, which writes the merged row in place. |
| `OrmRoutes.ApiDeleteTaskAsWritten` | app.py:428-444 | As written, an unknown id answers 500, because the catch-all `except` catches the NotFound. Otherwise it answers as the corrected handler. |
| `OrmRoutes.ApiDeleteTask` | app.py:428-440 | The corrected handler: an unknown id gives 404. A user neither admin nor creator gets 403. Otherwise exactly that row is removed and the answer is `{message, id}`. |
| `OrmRoutes.DeleteThenGet` | app.py:428-440 | With unique keys, a deleted task answers 404 afterwards. |
| `OrmRoutes.UpdateMayBlankTitle` | app.py:384-385 | A PUT may set the title to "", which POST refuses. |
| `OrmRoutes.CreateAcceptsNegativeEffort` | app.py:276 | POST stores a negative effort. |
| `OrmRoutes.EditTaskForm` | app.py:170-175 | The edit form, holding the row with that key, is shown only to an admin or the creator. Anyone else is redirected with the refusal flash, and an unknown id gives the 404 page. |
| `OrmRoutes.EditGateMatchesApiUpdate` | app.py:170-175 | The edit form is offered exactly to the users whose API update passes the 404 and 403 gates. |
| `OrmRoutes.DeleteTaskForm` | app.py:197-207 | The form delete uses the same gate as the API delete. An admin or the creator always gets the success redirect, and then exactly that row is removed. Otherwise nothing changes. |
| `OrmRoutes.ChangeStatus` | app.py:212-220 | The status changes only to one of the four accepted values, and nothing else changes. Any other value answers 400 and leaves the table alone. No permission is checked. A request without JSON body raises outside any `try` and gets Flask's 500 page. |
| `OrmRoutes.RoutesKeepEnumsValid` | app.py:283-400 | None of the modelled routes commits a priority or a status outside its set. The unmodelled `nueva_tarea` and `editar_tarea` form submits can. |
| `OrmRoutes.CreateKeepsKeysUnique` | app.py:36 | Creating with a key the database has not used keeps primary keys unique. |

## Findings

| source | as written | input that shows it | evidently intended | confidence | as-written member | corrected member |
|---|---|---|---|---|---|---|
| app.py:347 | `get_or_404` runs inside `try: … except Exception`. werkzeug's `NotFound` is an `Exception`, so the handler catches it and answers 500 with the exception text. The same pattern is at app.py:372 and app.py:428. | GET /tasks/1 on an empty table | 404 for an unknown id, as `get_or_404` is meant to give | high, not executed | `OrmRoutes.ApiGetTaskAsWritten`, `OrmRoutes.ApiUpdateTaskAsWritten`, `OrmRoutes.ApiDeleteTaskAsWritten` (`OrmRoutes.UnknownIdGives500AsWritten`) | `OrmRoutes.ApiGetTask`, `OrmRoutes.ApiUpdateTask`, `OrmRoutes.ApiDeleteTask` |

## Left out

- File I/O of `load_tasks`/`save_tasks` is reduced to `Save`/`Load` over parsed dictionaries. The model omits creating a missing file, recovering from a corrupt file (which yields an empty list), and failing writes. Every write succeeds, so the 500 answers "Error al guardar/actualizar/eliminar la tarea" are not reachable in the model.
- The repeated reloads inside one store call read the same state, so they are not modelled separately. The load/mutate/save race between concurrent requests is not modelled.
- The model treats JSON bodies as objects whose known keys have the expected JSON type. Wrong-typed values, non-object bodies and Python's `float()`/`Decimal()` parsing of numeric strings are left out. So are the Flask-version-dependent outcomes of `get_json`/`request.json` on non-JSON requests. `ChangeStatus` models a missing JSON body as Flask's generic 500 page.
- `Orm.Register` and `Orm.NewUser` take the form fields as strings, so a request missing a field is not modelled. In the source, `request.form.get` then yields None (app.py:79-82, app.py:241-243). A None name or email fails the NOT NULL constraint at commit, and a None password makes `set_password` raise. Either way Flask answers with its generic 500 page.
- Effort is a `real`. Float and `Numeric(10, 2)` rounding are not modelled; the source only compares effort with 0.
- The ORM's `order_by(fecha_creacion desc)` is not modelled: listings keep table order. The dashboard counts do not depend on order.
- The ORM assigns keys and timestamps. They enter the model as parameters (`freshId`, `now`), and `freshId` must be unused in the table.
- The texts of Python exceptions echoed in 500 answers (`MaxOfNothing`, `TitleNotNull`, `NotFoundText`) are representative. They vary with library versions.
- Login, logout, the index redirect, the user list page and password hashing are not modelled. The `Usuario` record has no password.
- `nueva_tarea` and the POST branch of `editar_tarea` are left out. They are HTML form handlers that copy form fields without checks. Only the permission gate of `editar_tarea` is modelled (`EditTaskForm`). Because they commit any priority or status from the form (app.py:143-159, app.py:180-187), they can break `EnumsValid`, so `RoutesKeepEnumsValid` covers only the modelled routes.
- Flask plumbing is left out: routing, `jsonify`, templates, flash rendering, and `app_simple.py`.
- Browser code (`static/app.js`, `static/js/main.js`) is left out, and so are the HTTP demo and client scripts (`demo_api.py`, `demo_api_simple.py`, `test_api.py`).
- Orm.CountStatus: its contract states only the bound by the number of tasks. How the four counts relate to the total is stated by `Orm.StatusCountsPartition`.
