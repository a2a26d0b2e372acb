/**
 * What the durable-object repositories share: the `Reply` a storage object
 * answers with, and how a repository turns that answer into the result of
 * `get`, `set_begin` and `set_commit`.
 */
module Repositories {
  import opened Wrappers
  import opened Transactions

  /** `Reply<T>`. */
  datatype Reply<T> = Success(value: T) | NotFound | VersionConflict | MalformedPrompt

  /** The handler's own failure: a prompt it does not accept (`Error::BadEncoding`). */
  datatype HandleError = BadEncoding

  /** The `*RepositoryError` enums. `IoError` carries a message. */
  datatype RepositoryError = IoError(message: string) | Missing | Conflict

  const MALFORMED_PROMPT: string := "malformed prompt"
  const UNEXPECTED_REPLY: string := "unexpected reply"

  /**
   * `e.to_string()` of a failed dispatch: the worker library's display text
   * of its error, which the model fixes as one message of its own.
   */
  function DispatchMessage(e: HandleError): (m: string)
    ensures m != MALFORMED_PROMPT && m != UNEXPECTED_REPLY
  {
    match e
    case BadEncoding => "bad encoding"
  }

  /**
   * What came back from a dispatch: the handler failed, or it answered with
   * a variant other than the expected one (`None`), or with the expected
   * variant carrying a reply.
   */
  type Answer<T> = Result<Option<Reply<T>>, HandleError>

  /** `get`: a stored value, nothing, or an error. */
  function GetResult<T>(answer: Answer<Versioned<T>>): (r: Result<Option<T>, RepositoryError>)
    ensures answer == Ok(Some(Reply.NotFound)) <==> r == Ok(None)
    ensures (answer.Ok? && answer.value.Some? && answer.value.value.Success?) <==> r.Ok? && r.value.Some?
    ensures answer.Ok? && answer.value.Some? && answer.value.value.Success? ==> r == Ok(Some(answer.value.value.value.value))
    ensures answer == Ok(Some(Reply.VersionConflict)) <==> r == Err(Conflict)
    ensures answer == Ok(Some(MalformedPrompt)) <==> r == Err(IoError(MALFORMED_PROMPT))
    ensures answer == Ok(None) <==> r == Err(IoError(UNEXPECTED_REPLY))
    ensures answer.Err? ==> r == Err(IoError(DispatchMessage(answer.error)))
  {
    match answer
    case Err(e) => Err(IoError(DispatchMessage(e)))
    case Ok(None) => Err(IoError(UNEXPECTED_REPLY))
    case Ok(Some(reply)) =>
      match reply
      case Success(result) => Ok(Some(result.value))
      case NotFound => Ok(None)
      case VersionConflict => Err(Conflict)
      case MalformedPrompt => Err(IoError(MALFORMED_PROMPT))
  }

  /**
   * `set_begin`: a transaction over the stored value and its version, or an
   * empty one at version 0 when nothing is stored under the id.
   */
  function BeginResult<I, T>(id: I, answer: Answer<Versioned<T>>): (r: Result<Transaction<I, T>, RepositoryError>)
    ensures answer == Ok(Some(Reply.NotFound)) <==> r == Ok(New(id))
    ensures answer.Ok? && answer.value.Some? && answer.value.value.Success? ==>
      r == Ok(FromVersioned(id, answer.value.value.value))
    ensures r.Ok? <==> answer.Ok? && answer.value.Some? && (answer.value.value.Success? || answer.value.value.NotFound?)
    ensures r.Err? ==> GetResult(answer).Err? && r.error == GetResult(answer).error
  {
    match answer
    case Err(e) => Err(IoError(DispatchMessage(e)))
    case Ok(None) => Err(IoError(UNEXPECTED_REPLY))
    case Ok(Some(reply)) =>
      match reply
      case Success(result) => Ok(FromVersioned(id, result))
      case NotFound => Ok(New(id))
      case VersionConflict => Err(Conflict)
      case MalformedPrompt => Err(IoError(MALFORMED_PROMPT))
  }

  /** The reply to a set prompt, as `set_commit` reports it. */
  function CommitResult(answer: Answer<()>): (r: Result<(), RepositoryError>)
    ensures r.Ok? <==> answer.Ok? && answer.value.Some? && answer.value.value.Success?
    ensures answer == Ok(Some(Reply.NotFound)) <==> r == Err(Missing)
    ensures answer == Ok(Some(Reply.VersionConflict)) <==> r == Err(Conflict)
    ensures answer == Ok(Some(MalformedPrompt)) <==> r == Err(IoError(MALFORMED_PROMPT))
    ensures answer == Ok(None) <==> r == Err(IoError(UNEXPECTED_REPLY))
    ensures answer.Err? ==> r == Err(IoError(DispatchMessage(answer.error)))
  {
    match answer
    case Err(e) => Err(IoError(DispatchMessage(e)))
    case Ok(None) => Err(IoError(UNEXPECTED_REPLY))
    case Ok(Some(reply)) =>
      match reply
      case Success(_) => Ok(())
      case NotFound => Err(Missing)
      case VersionConflict => Err(Conflict)
      case MalformedPrompt => Err(IoError(MALFORMED_PROMPT))
  }
}
