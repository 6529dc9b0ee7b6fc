/** Vocabulary shared by every part of the hotel-booking backend: document
    identifiers, optional values, results, the HTTP status codes the
    controllers answer with, and the reply a controller sends. */
module Common {

  /** Document identifiers (`_id`); the store hands out fresh ones. */
  type Id = nat

  datatype Option<+T> = None | Some(value: T) {
    function GetOr(default: T): T {
      match this
      case Some(v) => v
      case None => default
    }
  }

  datatype Result<+T, +E> = Ok(value: T) | Err(error: E)

  // The status codes of the error-code table the controllers use.
  const OK := 200
  const CREATED := 201
  const BAD_REQUEST := 400
  const UNAUTHORIZED := 401
  const FORBIDDEN := 403
  const NOT_FOUND := 404
  const INTERNAL_SERVER_ERROR := 500

  /** The outcome of one step of a validation chain: go on, or answer with
      this status and message. */
  datatype Check = Pass | Fail(status: int, message: string)

  /** What a request handler sends: a success status with a message (empty
      when the handler sends none) and a payload, or an error status with the
      `message` of the JSON body. */
  datatype Reply<+T> =
    | Done(status: int, message: string, value: T)
    | Refused(status: int, message: string)

  /** The index of the first `c` in `s`, if there is one. */
  function IndexOf(s: string, c: char): (r: Option<nat>)
    ensures r.Some? ==> r.value < |s| && s[r.value] == c && c !in s[..r.value]
    ensures r.Some? ==> forall i :: 0 <= i < r.value ==> s[i] != c
    ensures r.None? <==> c !in s
  {
    if s == [] then None
    else if s[0] == c then Some(0)
    else match IndexOf(s[1..], c)
      case None => None
      case Some(k) => assert s[..k + 1] == [s[0]] + s[1..][..k]; Some(k + 1)
  }

  /** The reply for a failed check. */
  function Reject<T>(c: Check): (r: Reply<T>)
    requires c.Fail?
    ensures r.Refused? && r.status == c.status && r.message == c.message
  {
    Refused(c.status, c.message)
  }
}
