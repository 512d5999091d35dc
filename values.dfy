/** The optional value used throughout the model. */
module Wrappers {

  datatype Option<+T> = None | Some(value: T) {
    /** The value, or `default` when there is none. */
    function GetOr(default: T): T {
      match this
      case Some(v) => v
      case None => default
    }
  }
}

/**
 * The values that cross the HTTP and storage boundaries of the backend:
 * decoded JSON request bodies, stored table items and handler responses.
 */
module Values {
  import opened Wrappers

  /** A JSON or table attribute value: a scalar, an array or a nested object. */
  datatype Value = Str(s: string) | Int(n: int) | Bool(b: bool) | Arr(elems: seq<Value>) | Obj(fields: map<string, Value>)

  /** A decoded JSON object, or a table item: attribute name to value. */
  type Item = map<string, Value>

  /** What a handler puts in the `body` of its response. */
  datatype Body =
    | Empty                      // the body ''
    | Object(fields: Item)       // a JSON object
    | Listing(items: set<Item>)  // a JSON array of items (the order of a table scan is unspecified)

  datatype Response = Response(status: int, body: Body)

  /**
   * What a handler does: return a response, fall off its end and return
   * `None`, or raise (an exception outside its `try`).
   */
  datatype Outcome = Returned(response: Response) | ReturnedNone | Raised

  /**
   * The part of an API Gateway event that the handlers read. `body` is the
   * request body already decoded; `None` stands for a missing body and for a
   * body that is not a JSON object (both make the handler raise).
   */
  datatype Event = Event(httpMethod: Option<string>, body: Option<Item>, pathId: Option<string>)

  /** Python's `d.get(key, default)`. */
  function Get(d: Item, key: string, default: Value): (v: Value)
    ensures key in d ==> v == d[key]
    ensures key !in d ==> v == default
  {
    if key in d then d[key] else default
  }

  /** The 200 response with an empty body that every handler gives to a preflight. */
  const Preflight: Response := Response(200, Empty)

  /** `{'success': True}`. */
  const SuccessBody: Item := map["success" := Bool(true)]

  /** The 500 response `{'error': str(e)}`; the exception text is abstracted to `reason`. */
  function ServerError(reason: string): (r: Response)
    ensures r.status == 500 && r.body.Object? && "error" in r.body.fields
  {
    Response(500, Object(map["error" := Str(reason)]))
  }
}
