/** Wire-level vocabulary shared by the object controller: dynamically typed
    values as they appear in request and response bodies, the errors the
    controller surfaces, per-item outcomes, and what the command runner hands
    back for one network call. */
module Wire {

  datatype Option<+T> = None | Some(value: T)

  /** A wire-safe value: the decoded JSON the command runner returns.
      Numbers are integers here; floating point is not modelled. */
  datatype Value =
    | Null
    | Bool(b: bool)
    | Num(n: int)
    | Str(s: string)
    | Arr(items: seq<Value>)
    | Obj(fields: map<string, Value>)

  /** A response or request body: a mapping from key to value. */
  type Body = map<string, Value>

  /** The errors a completion handle can fail with. */
  datatype Error =
      /** A structured server error: the numeric code and message of a
          `{code, error}` payload (a ParseException in the SDK). */
    | Remote(code: int, message: string)
      /** Fetch or delete of a state that has no object id. */
    | MissingObjectId
      /** The batch answered with a different number of results than it
          was sent requests (an InvalidOperationException in the SDK). */
    | InconsistentBatch(expected: nat, actual: nat)
      /** A batch result entry holding neither `success` nor a readable `error`. */
    | InvalidBatchEntry
      /** A batch response without a `results` list. */
    | MalformedBatchResponse

  /** The resolution of one completion handle: fulfilled with a value, or faulted. */
  datatype Outcome<+T> = Done(value: T) | Faulted(error: Error)

  /** What the command runner returns for one command. `Answer` carries a
      decoded body and whether the status was 201 Created; `Rejected` is a
      structured server error surfaced by the runner. */
  datatype Response =
    | Answer(created: bool, body: Body)
    | Rejected(code: int, message: string)

  /** The string held under `key`, if `body` has one there. */
  function StringAt(body: Body, key: string): (r: Option<string>)
    ensures r.Some? <==> key in body && body[key].Str?
    ensures r.Some? ==> body[key] == Str(r.value)
  {
    if key in body && body[key].Str? then Some(body[key].s) else None
  }
}
