/**
 * The task record of the JSON-file variant (models/task.py): construction
 * with defaults, conversion to and from a JSON dictionary, and validation.
 */
module TaskModel {
  import opened Wrappers
  import opened Payload

  /** The accepted priorities. */
  const Priorities: set<string> := {"baja", "media", "alta", "bloqueante"}

  /** The accepted statuses. */
  const Statuses: set<string> := {"pendiente", "en_progreso", "en_revision", "completada"}

  const DefaultPriority: string := "media"
  const DefaultStatus: string := "pendiente"

  const TitleRequired: string := "El campo 'title' es requerido"
  const BadPriority: string := "Prioridad inválida. Debe ser una de: baja, media, alta, bloqueante"
  const BadStatus: string := "Status inválido. Debe ser uno de: pendiente, en_progreso, en_revision, completada"
  const BadEffort: string := "effort_hours debe ser un número positivo"

  /**
   * A task. Every attribute the constructor accepts may be None; the
   * creation date is an ISO-8601 string stamped by the constructor.
   */
  datatype Task = Task(
    id: Option<int>,
    title: Option<string>,
    description: Option<string>,
    priority: Option<string>,
    effortHours: Option<real>,
    status: Option<string>,
    assignedTo: Option<string>,
    fechaCreacion: string)

  /**
   * `Task(...)`: the keyword defaults of the constructor, with the clock
   * reading `now` as the creation date. The constructor never keeps an
   * earlier date, so every constructed task carries a non-empty one.
   */
  function New(now: string,
               id: Option<int> := None,
               title: Option<string> := None,
               description: Option<string> := None,
               priority: Option<string> := Some(DefaultPriority),
               effortHours: Option<real> := None,
               status: Option<string> := Some(DefaultStatus),
               assignedTo: Option<string> := None): (t: Task)
    requires now != ""
    ensures t.fechaCreacion != ""
    ensures t.id == id && t.title == title && t.description == description
    ensures t.priority == priority && t.effortHours == effortHours
    ensures t.status == status && t.assignedTo == assignedTo
  {
    Task(id, title, description, priority, effortHours, status, assignedTo, now)
  }

  /** `to_dict`: every attribute is written, None as `null`; no other key. */
  function ToDict(t: Task): (d: Dict)
    ensures !d.IsEmpty() && d.others == {}
    ensures d.id.Present() && d.id.Get() == t.id
    ensures d.title.Present() && d.title.Get() == t.title
    ensures d.description.Present() && d.description.Get() == t.description
    ensures d.priority.Present() && d.priority.Get() == t.priority
    ensures d.effortHours.Present() && d.effortHours.Get() == t.effortHours
    ensures d.status.Present() && d.status.Get() == t.status
    ensures d.assignedTo.Present() && d.assignedTo.Get() == t.assignedTo
    ensures d.fechaCreacion == Given(t.fechaCreacion)
  {
    Dict(FromOption(t.id), FromOption(t.title), FromOption(t.description),
         FromOption(t.priority), FromOption(t.effortHours), FromOption(t.status),
         FromOption(t.assignedTo), Given(t.fechaCreacion), {})
  }

  /** The creation date `from_dict` keeps: the dictionary's, when it is a non-empty string. */
  function CreationDate(d: Dict, now: string): string {
    if d.fechaCreacion.Given? && d.fechaCreacion.value != "" then d.fechaCreacion.value else now
  }

  /**
   * `from_dict`: a MISSING priority becomes "media" and a missing status
   * "pendiente"; a key present with `null` is not defaulted; every other
   * missing key becomes None; unknown keys are ignored.
   */
  function FromDict(d: Dict, now: string): (t: Task)
    requires now != ""
    ensures t.fechaCreacion != ""
    ensures t.id == d.id.Get() && t.title == d.title.Get()
    ensures t.description == d.description.Get() && t.assignedTo == d.assignedTo.Get()
    ensures t.effortHours == d.effortHours.Get()
    ensures d.priority.Absent? ==> t.priority == Some(DefaultPriority)
    ensures d.priority.Null? ==> t.priority == None
    ensures d.priority.Given? ==> t.priority == Some(d.priority.value)
    ensures d.status.Absent? ==> t.status == Some(DefaultStatus)
    ensures d.status.Null? ==> t.status == None
    ensures d.status.Given? ==> t.status == Some(d.status.value)
    ensures d.fechaCreacion.Given? && d.fechaCreacion.value != "" ==> t.fechaCreacion == d.fechaCreacion.value
    ensures !(d.fechaCreacion.Given? && d.fechaCreacion.value != "") ==> t.fechaCreacion == now
  {
    var t := New(now, d.id.Get(), d.title.Get(), d.description.Get(),
                 d.priority.GetOr(DefaultPriority), d.effortHours.Get(),
                 d.status.GetOr(DefaultStatus), d.assignedTo.Get());
    t.(fechaCreacion := CreationDate(d, now))
  }

  /** The outcome of `validate()`: the `(es_valido, mensaje_error)` pair. */
  datatype Validation = Validation(ok: bool, message: string)

  predicate PriorityOk(t: Task) { t.priority.Some? && t.priority.value in Priorities }
  predicate StatusOk(t: Task) { t.status.Some? && t.status.value in Statuses }
  /** None, or a value that is not negative (zero included). */
  predicate EffortOk(t: Task) { t.effortHours.None? || t.effortHours.value >= 0.0 }

  /** The record invariant a stored task is meant to satisfy: a title, accepted enum values, no negative effort. */
  predicate IsValid(t: Task) {
    Truthy(t.title) && PriorityOk(t) && StatusOk(t) && EffortOk(t)
  }

  /**
   * `validate()`: the checks run in the order title, priority, status,
   * effort, and the first that fails decides the message.
   */
  function Validate(t: Task): (v: Validation)
    ensures v.ok <==> IsValid(t)
    ensures v.ok ==> v.message == ""
    ensures !Truthy(t.title) ==> v == Validation(false, TitleRequired)
    ensures Truthy(t.title) && !PriorityOk(t) ==> v == Validation(false, BadPriority)
    ensures Truthy(t.title) && PriorityOk(t) && !StatusOk(t) ==> v == Validation(false, BadStatus)
    ensures Truthy(t.title) && PriorityOk(t) && StatusOk(t) && !EffortOk(t) ==> v == Validation(false, BadEffort)
  {
    if t.title.None? || t.title.value == "" then Validation(false, TitleRequired)
    else if t.priority.None? || t.priority.value !in Priorities then Validation(false, BadPriority)
    else if t.status.None? || t.status.value !in Statuses then Validation(false, BadStatus)
    else if t.effortHours.Some? && t.effortHours.value < 0.0 then Validation(false, BadEffort)
    else Validation(true, "")
  }

  /** `from_dict(to_dict(t))` rebuilds `t` whenever its creation date is non-empty. */
  lemma RoundTrip(t: Task, now: string)
    requires now != ""
    requires t.fechaCreacion != ""
    ensures FromDict(ToDict(t), now) == t
  {
  }

  /** A task read from any dictionary passes validation exactly when the record invariant holds of it. */
  lemma ValidateJudgesFromDict(d: Dict, now: string)
    requires now != ""
    ensures Validate(FromDict(d, now)).ok <==>
      && d.title.Given? && d.title.value != ""
      && (d.priority.Absent? || (d.priority.Given? && d.priority.value in Priorities))
      && (d.status.Absent? || (d.status.Given? && d.status.value in Statuses))
      && (!d.effortHours.Given? || d.effortHours.value >= 0.0)
  {
  }
}
