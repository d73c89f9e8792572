/**
 * JSON documents exchanged with the HTTP layer: request bodies, the
 * dictionaries produced by `to_dict`, and the responses of the handlers.
 *
 * A JSON object is modelled as a typed record with one slot per key the
 * application knows about. Each slot distinguishes a missing key, a key
 * bound to `null`, and a key bound to a value, because the source treats
 * `data.get(k)`, `data.get(k, default)` and `k in data` differently.
 */
module Payload {
  import opened Wrappers

  /** One key of a JSON object: missing, present with `null`, or present with a value. */
  datatype Field<+T> = Absent | Null | Given(value: T) {

    /** `key in data`: the key is there, even bound to `null`. */
    predicate Present() {
      !Absent?
    }

    /** `data.get(key)`: None for a missing key and for `null`. */
    function Get(): (r: Option<T>)
      ensures r.Some? <==> Given?
      ensures Given? ==> r.value == value
    {
      match this
      case Given(v) => Some(v)
      case _ => None
    }

    /** `data.get(key, default)`: the default only replaces a MISSING key; `null` stays None. */
    function GetOr(default: T): (r: Option<T>)
      ensures Absent? ==> r == Some(default)
      ensures Null? ==> r == None
      ensures Given? ==> r == Some(value)
    {
      match this
      case Absent => Some(default)
      case Null => None
      case Given(v) => Some(v)
    }
  }

  /** Serialises an optional value: None is written as `null`, never omitted. */
  function FromOption<T>(o: Option<T>): (f: Field<T>)
    ensures f.Get() == o
    ensures !f.Absent?
  {
    match o
    case None => Null
    case Some(v) => Given(v)
  }

  /** A task-shaped JSON object; `others` names the keys the application ignores. */
  datatype Dict = Dict(
    id: Field<int>,
    title: Field<string>,
    description: Field<string>,
    priority: Field<string>,
    effortHours: Field<real>,
    status: Field<string>,
    assignedTo: Field<string>,
    fechaCreacion: Field<string>,
    others: set<string>)
  {
    /** Python's `not data` for a dictionary: it has no key at all. */
    predicate IsEmpty() {
      && id.Absent? && title.Absent? && description.Absent? && priority.Absent?
      && effortHours.Absent? && status.Absent? && assignedTo.Absent?
      && fechaCreacion.Absent? && others == {}
    }
  }

  /** Python's `not data` for a parsed request body: no JSON object, or one without keys. */
  predicate NoBody(body: Option<Dict>) {
    body.None? || body.value.IsEmpty()
  }

  /** The object with no keys. */
  const EmptyDict: Dict := Dict(Absent, Absent, Absent, Absent, Absent, Absent, Absent, Absent, {})

  /** What a handler sends back: an HTTP status code and a JSON body. */
  datatype Response = Response(code: int, body: Body)

  datatype Body =
    | Doc(doc: Dict)                              // one task object
    | Listing(total: int, tasks: seq<Dict>)       // `{total, tasks}`
    | Error(error: string)                        // `{error}`
    | Deleted(message: string, deletedId: int)    // `{message, id}`
    | Outcome(success: bool, mensaje: string)     // `{success, mensaje}`

  /** Python truthiness of an optional string: neither None nor "". */
  predicate Truthy(s: Option<string>) {
    s.Some? && s.value != ""
  }
}
