/**
 * src/controllers/repositorio.controller.ts: `validarConexion`, the handler of
 * `POST /api/v1/repositorios/:id/validar-conexion`. It either answers 200 with the
 * connection summary or passes an error to `next`, which ends in the global error handler.
 */
module RepositorioController {
  import opened Wrappers
  import opened JsStrings
  import opened JsParseInt
  import opened ErrorHandler
  import opened GoogleDriveService
  import SanitizeInput

  const InvalidIdMessage: string := "El ID del repositorio debe ser un número válido."

  /** `res.status(200).json(...)` with the summary, or `next(error)`. */
  datatype Outcome = Responded(status: int, payload: ConnectionSummary) | Forwarded(err: Thrown)

  /** The foreign calls the request caused, in order, and how the handler finished. */
  datatype Handled = Handled(calls: seq<ForeignCall>, outcome: Outcome)

  /**
   * `validarConexion`, given the `id` route parameter and the two foreign calls the
   * service makes (the database lookup and the Drive query) with the key path it reads.
   */
  function ValidarConexion(id: string, findUnique: int -> Lookup, keyPath: Option<string>,
                           filesGet: DriveRequest -> DriveResponse): (h: Handled)
    ensures ParseInt(id) == None <==> h.calls == []
    ensures h.outcome.Responded? ==> h.outcome.status == 200
  {
    HandleId(ParseInt(id), findUnique, keyPath, filesGet)
  }

  /** The handler after `parseInt`: the NaN check, then the call to the service. */
  function HandleId(parsed: Option<int>, findUnique: int -> Lookup, keyPath: Option<string>,
                    filesGet: DriveRequest -> DriveResponse): (h: Handled)
    ensures parsed == None <==> h.calls == []
    ensures parsed.Some? ==> h.calls[0] == FindUnique(parsed.value)
    ensures h.outcome.Responded? ==> h.outcome.status == 200
  {
    match parsed
    case None => Handled([], Forwarded(Throw(NewAppError(InvalidIdMessage, 400))))
    case Some(repositorioId) =>
      var probe := ValidateConnection(repositorioId, findUnique, keyPath, filesGet);
      match probe.outcome
      case Success(summary) => Handled(probe.calls, Responded(200, summary))
      case Failure(err) => Handled(probe.calls, Forwarded(err))
  }

  /** An id without leading digits is refused with 400 before the service is called. */
  lemma InvalidIdRejected(id: string, findUnique: int -> Lookup, keyPath: Option<string>,
                          filesGet: DriveRequest -> DriveResponse)
    requires ParseInt(id) == None
    ensures ValidarConexion(id, findUnique, keyPath, filesGet)
         == Handled([], Forwarded(ErrorObject(InvalidIdMessage, Some(400), None)))
  {
  }

  /** An id whose first non-blank character is neither a sign nor a digit (such as "abc") is refused with 400. */
  lemma NonNumericIdRejected(id: string, findUnique: int -> Lookup, keyPath: Option<string>,
                             filesGet: DriveRequest -> DriveResponse)
    requires TrimStart(id) != []
    requires TrimStart(id)[0] != '-' && TrimStart(id)[0] != '+' && !IsDigit(TrimStart(id)[0], 10)
    ensures ValidarConexion(id, findUnique, keyPath, filesGet)
         == Handled([], Forwarded(ErrorObject(InvalidIdMessage, Some(400), None)))
  {
    ParseIntWithoutDigits(id);
  }

  /**
   * parseInt accepts a numeric prefix: leading white space, a decimal numeral, then anything
   * that does not continue it (" 7", "12abc") is handled as the numeral's id.
   */
  lemma NumericPrefixAccepted(blank: string, n: nat, rest: string, findUnique: int -> Lookup,
                              keyPath: Option<string>, filesGet: DriveRequest -> DriveResponse)
    requires forall i :: 0 <= i < |blank| ==> IsWhiteSpace(blank[i])
    requires rest == [] || !IsDigit(rest[0], 10)
    requires n == 0 ==> rest == [] || (rest[0] != 'x' && rest[0] != 'X')
    ensures var h := ValidarConexion(blank + NatToString(n) + rest, findUnique, keyPath, filesGet);
      && h == HandleId(Some(n), findUnique, keyPath, filesGet)
      && h.calls[0] == FindUnique(n)
  {
    ParseIntOfPaddedNumber(blank, n, rest);
  }

  /** A numeric id is handed to the service; its summary is sent as is with 200, its error is forwarded unchanged. */
  lemma DelegatesToService(id: string, findUnique: int -> Lookup, keyPath: Option<string>,
                           filesGet: DriveRequest -> DriveResponse)
    requires ParseInt(id).Some?
    ensures var probe := ValidateConnection(ParseInt(id).value, findUnique, keyPath, filesGet);
      var h := ValidarConexion(id, findUnique, keyPath, filesGet);
      && h.calls == probe.calls
      && (probe.outcome.Success? ==> h.outcome == Responded(200, probe.outcome.value))
      && (probe.outcome.Failure? ==> h.outcome == Forwarded(probe.outcome.error))
  {
  }

  /** A bad id reaches the client as 400 with the validation message. */
  lemma InvalidIdReply(id: string, findUnique: int -> Lookup, keyPath: Option<string>,
                       filesGet: DriveRequest -> DriveResponse)
    requires ParseInt(id) == None
    ensures ReplyFor(ValidarConexion(id, findUnique, keyPath, filesGet).outcome.err)
         == ErrorReply(400, ErrorBody("error", 400, InvalidIdMessage))
  {
    InvalidIdRejected(id, findUnique, keyPath, filesGet);
    AppErrorReply(InvalidIdMessage, 400);
  }

  /** An unknown repository reaches the client as 404 with the not-found message. */
  lemma UnknownRepositoryReply(id: string, findUnique: int -> Lookup, keyPath: Option<string>,
                               filesGet: DriveRequest -> DriveResponse)
    requires ParseInt(id).Some? && findUnique(ParseInt(id).value).Missing?
    ensures ReplyFor(ValidarConexion(id, findUnique, keyPath, filesGet).outcome.err)
         == ErrorReply(404, ErrorBody("error", 404, NotFoundMessage))
  {
    UnknownRepository(ParseInt(id).value, findUnique, keyPath, filesGet);
  }

  /** A missing key path reaches the client as 403, not 500, with the prefixed configuration message. */
  lemma MissingConfigurationReply(id: string, findUnique: int -> Lookup, keyPath: Option<string>,
                                  filesGet: DriveRequest -> DriveResponse)
    requires ParseInt(id).Some? && findUnique(ParseInt(id).value).Found?
    requires keyPath == None || keyPath == Some("")
    ensures ReplyFor(ValidarConexion(id, findUnique, keyPath, filesGet).outcome.err)
         == ErrorReply(403, ErrorBody("error", 403, AccessErrorPrefix + MissingConfigMessage))
  {
    MissingConfigurationIsAccessDenied(ParseInt(id).value, findUnique, keyPath, filesGet);
  }

  /** A Drive rejection with properties reaches the client as 403 with its message after the prefix. */
  lemma ProviderFailureReply(id: string, findUnique: int -> Lookup, keyPath: Option<string>,
                             filesGet: DriveRequest -> DriveResponse)
    requires ParseInt(id).Some? && findUnique(ParseInt(id).value).Found? && GetAuthClient(keyPath).Success?
    requires filesGet(RequestFor(GetAuthClient(keyPath).value, findUnique(ParseInt(id).value).repo)).DriveFailure?
    requires filesGet(RequestFor(GetAuthClient(keyPath).value, findUnique(ParseInt(id).value).repo)).rejection.Rejected?
    ensures var message := filesGet(RequestFor(GetAuthClient(keyPath).value, findUnique(ParseInt(id).value).repo)).rejection.message;
      ReplyFor(ValidarConexion(id, findUnique, keyPath, filesGet).outcome.err)
        == ErrorReply(403, ErrorBody("error", 403, AccessErrorPrefix + MessageText(message)))
  {
    ProviderFailureIsAccessDenied(ParseInt(id).value, findUnique, keyPath, filesGet);
  }

  /** A `null` or `undefined` Drive rejection reaches the client as 500 with the TypeError's message. */
  lemma NullishRejectionReply(id: string, findUnique: int -> Lookup, keyPath: Option<string>,
                              filesGet: DriveRequest -> DriveResponse)
    requires ParseInt(id).Some? && findUnique(ParseInt(id).value).Found? && GetAuthClient(keyPath).Success?
    requires filesGet(RequestFor(GetAuthClient(keyPath).value, findUnique(ParseInt(id).value).repo)).DriveFailure?
    requires !filesGet(RequestFor(GetAuthClient(keyPath).value, findUnique(ParseInt(id).value).repo)).rejection.Rejected?
    ensures var rejection := filesGet(RequestFor(GetAuthClient(keyPath).value, findUnique(ParseInt(id).value).repo)).rejection;
      var nullish := if rejection.NullRejection? then "null" else "undefined";
      ReplyFor(ValidarConexion(id, findUnique, keyPath, filesGet).outcome.err)
        == ErrorReply(500, ErrorBody("error", 500, "Cannot read properties of " + nullish + " (reading 'message')"))
  {
    NullishRejectionEscapes(ParseInt(id).value, findUnique, keyPath, filesGet);
  }

  /** Sanitising the route parameter (when Express exposes the change) does not change the handling. */
  lemma SanitizedIdSameHandling(id: string, findUnique: int -> Lookup, keyPath: Option<string>,
                                filesGet: DriveRequest -> DriveResponse)
    ensures ValidarConexion(SanitizeInput.SanitizeString(id), findUnique, keyPath, filesGet)
         == ValidarConexion(id, findUnique, keyPath, filesGet)
  {
    SanitizeInput.SanitizeStringKeepsParseInt(id);
    assert ValidarConexion(id, findUnique, keyPath, filesGet) == HandleId(ParseInt(id), findUnique, keyPath, filesGet);
  }
}
