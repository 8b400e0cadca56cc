/**
 * src/middlewares/errorHandler.ts: the application error type and the global handler
 * that turns whatever was thrown into a status code and the body
 * `{ status: 'error', statusCode, message }`.
 */
module ErrorHandler {
  import opened Wrappers

  const GenericMessage: string := "Error interno del servidor"
  const DatabaseDownMessage: string := "No se pudo conectar a la base de datos"
  /** The database driver's code for "cannot reach the database server". */
  const DatabaseDownCode: string := "P1001"

  /** `AppError`: an Error with a status code, always operational. Its fields are read-only. */
  datatype AppError = AppError(message: string, statusCode: int, isOperational: bool)

  /** `new AppError(message, statusCode)`. */
  function NewAppError(message: string, statusCode: int): (e: AppError)
    ensures e.message == message && e.statusCode == statusCode && e.isOperational
  {
    AppError(message, statusCode, true)
  }

  /**
   * Anything that can be thrown. `ErrorObject` is an `Error` instance with its message and
   * the `statusCode` and `code` properties it carries, if any; `NonError` is every other
   * thrown value (a string, a number, a plain object, ...).
   */
  datatype Thrown =
    | ErrorObject(message: string, statusCode: Option<int>, code: Option<string>)
    | NonError

  /** An AppError as thrown: an Error that carries `statusCode` and no `code`. */
  function Throw(e: AppError): (t: Thrown)
    ensures t.ErrorObject? && t.message == e.message && t.statusCode == Some(e.statusCode)
    ensures t.code == None
  {
    ErrorObject(e.message, Some(e.statusCode), None)
  }

  datatype ErrorBody = ErrorBody(status: string, statusCode: int, message: string)

  /** What `res.status(statusCode).json(body)` sends. */
  datatype ErrorReply = ErrorReply(httpStatus: int, body: ErrorBody)

  predicate IsDatabaseDown(err: Thrown) {
    err.ErrorObject? && err.code == Some(DatabaseDownCode)
  }

  /**
   * The reply the handler owes for `err`, by priority: a database outage first, then the
   * error's own status and message, then the generic 500.
   */
  function ReplyFor(err: Thrown): (r: ErrorReply)
    ensures r.body == ErrorBody("error", r.httpStatus, r.body.message)
  {
    var (statusCode, message) :=
      if IsDatabaseDown(err) then (500, DatabaseDownMessage)
      else if err.NonError? then (500, GenericMessage)
      else (err.statusCode.GetOr(500), err.message);
    ErrorReply(statusCode, ErrorBody("error", statusCode, message))
  }

  /** `globalErrorHandler`: two variables set to defaults and then overwritten in order. */
  method GlobalErrorHandler(err: Thrown) returns (reply: ErrorReply)
    ensures reply == ReplyFor(err)
  {
    var statusCode := 500;
    var message := GenericMessage;
    if err.ErrorObject? {
      message := err.message;
      if err.statusCode.Some? {
        statusCode := err.statusCode.value;
      }
    }
    if err.ErrorObject? && err.code.Some? && err.code.value == DatabaseDownCode {
      statusCode := 500;
      message := DatabaseDownMessage;
    }
    reply := ErrorReply(statusCode, ErrorBody("error", statusCode, message));
  }

  /** A thrown value that is not an Error gets 500 and the generic message. */
  lemma NonErrorIsGeneric()
    ensures ReplyFor(NonError) == ErrorReply(500, ErrorBody("error", 500, GenericMessage))
  {
  }

  /** An Error without `statusCode` gets 500 and its own message, unless it is a database outage. */
  lemma ErrorWithoutStatus(message: string, code: Option<string>)
    requires code != Some(DatabaseDownCode)
    ensures ReplyFor(ErrorObject(message, None, code)) == ErrorReply(500, ErrorBody("error", 500, message))
  {
  }

  /** An Error carrying `statusCode` gets that status and its own message, unless it is a database outage. */
  lemma ErrorWithStatus(message: string, status: int, code: Option<string>)
    requires code != Some(DatabaseDownCode)
    ensures ReplyFor(ErrorObject(message, Some(status), code)) == ErrorReply(status, ErrorBody("error", status, message))
  {
  }

  /** The code P1001 overrides whatever status and message the error carried. */
  lemma DatabaseDownOverrides(message: string, status: Option<int>)
    ensures ReplyFor(ErrorObject(message, status, Some(DatabaseDownCode)))
         == ErrorReply(500, ErrorBody("error", 500, DatabaseDownMessage))
  {
  }

  /** An AppError reaches the client with exactly its status and message. */
  lemma AppErrorReply(message: string, statusCode: int)
    ensures ReplyFor(Throw(NewAppError(message, statusCode)))
         == ErrorReply(statusCode, ErrorBody("error", statusCode, message))
  {
  }

  /** A status other than 500 reaches the client only from an Error that carries it and is not a database outage. */
  lemma StatusOrigin(err: Thrown)
    ensures ReplyFor(err).httpStatus != 500 ==>
      err.ErrorObject? && err.statusCode == Some(ReplyFor(err).httpStatus) && !IsDatabaseDown(err)
  {
  }
}
