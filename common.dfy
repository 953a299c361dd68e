/** Values shared by every part of the model: optional values, the outcome of a
    Python call that may raise, the reply of a remote procedure call, and the
    JSON values that the services exchange and the report is made of. */
module Common {

  datatype Option<+T> = None | Some(value: T)

  /** What a Python call gives back: the value it returned, or the exception it raised. */
  datatype Result<+T> = Success(value: T) | Failure(error: Exception)

  /** The answer of a remote procedure call: what the service returned, or a
      failure of the transport (which the clients see as an exception). */
  datatype Reply<+T> = Returned(value: T) | Raised

  /** The exceptions that leave the modelled code. */
  datatype Exception =
    | ServerError(message: string)  // the clients' own ServerError, carrying its message
    | RemoteFailure                  // whatever the transport raised, propagated unwrapped
    | JsonDecodeError                // ValueError from json.loads
    | IndexError
    | TypeError
    | AttributeError

  /** A JSON value, as json.loads produces it and json.dumps consumes it
      (numbers other than integers are not modelled). */
  datatype Value =
    | Null
    | Bool(b: bool)
    | Int(i: int)
    | Str(s: string)
    | List(items: seq<Value>)
    | Object(fields: map<string, Value>)

  /** A Python dict with string keys. */
  type Record = map<string, Value>

  /** Python truthiness of a JSON value: None, False, 0, "", [] and {} are false. */
  predicate Truthy(v: Value) {
    match v
    case Null => false
    case Bool(b) => b
    case Int(i) => i != 0
    case Str(s) => s != ""
    case List(xs) => xs != []
    case Object(m) => m != map[]
  }

  /** The ISSN passes of both exporters: no ISSN (None or an empty list) means a
      single pass with issn None. */
  function Passes(issns: seq<Option<string>>): seq<Option<string>> {
    if issns == [] then [None] else issns
  }

  /** Python truthiness of an optional string: None and "" are false. */
  predicate TruthyString(s: Option<string>) {
    s.Some? && s.value != ""
  }
}
