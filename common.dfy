// Shared vocabulary of the model: optional values (Go's nil pointers and
// "not found" lookups), repository errors, and the HTTP status codes the
// handlers answer with.

module Common {

  /** A value that may be absent: a nil pointer, an unset query parameter,
      a row that a lookup did not find. */
  datatype Option<T> = None | Some(value: T)

  /** The outcome of a repository call that can fail with a message. */
  datatype Outcome = Done | Fail(msg: string)

  /** A repository result: a value, or the error message Go would return. */
  datatype Result<T> = Success(value: T) | Failure(msg: string)

  /** The status codes the handlers send. `Ok` stands for 200 and
      `Created` for 201. */
  datatype Status =
    | Ok
    | Created
    | BadRequest
    | Unauthorized
    | Forbidden
    | NotFound
    | Conflict
    | InternalError

  /** A handler's answer: the status and the message of the body. */
  datatype Reply = Reply(status: Status, msg: string)

  /** The numeric HTTP code of a status. */
  function Code(s: Status): (c: nat)
    ensures 200 <= c < 600
    ensures (c < 300) <==> (s == Ok || s == Created)
  {
    match s
    case Ok => 200
    case Created => 201
    case BadRequest => 400
    case Unauthorized => 401
    case Forbidden => 403
    case NotFound => 404
    case Conflict => 409
    case InternalError => 500
  }

  /** The loop of the reference checks of Delete over the counts the
      check query returns: the first positive count stops it. */
  method FirstInUse(counts: seq<nat>) returns (found: Option<nat>)
    ensures found.None? <==> forall i :: 0 <= i < |counts| ==> counts[i] == 0
    ensures found.Some? ==> found.value > 0
    ensures found.Some? ==>
      exists i :: 0 <= i < |counts| && counts[i] == found.value && forall j :: 0 <= j < i ==> counts[j] == 0
  {
    var i := 0;
    while i < |counts|
      invariant 0 <= i <= |counts|
      invariant forall j :: 0 <= j < i ==> counts[j] == 0
    {
      if counts[i] > 0 {
        return Some(counts[i]);
      }
      i := i + 1;
    }
    return None;
  }
}
