/**
 * src/services/googleDrive.service.ts: the read-only connection probe for a stored
 * repository. The database lookup (`prisma.repositorio.findUnique`) and the Drive metadata
 * query (`drive.files.get`) are foreign calls; they enter as functions, and every call the
 * probe makes is recorded in the order it is made.
 */
module GoogleDriveService {
  import opened Wrappers
  import opened ErrorHandler

  /** The stored record fields the probe reads; `drive_id` may be null. */
  datatype RepoRecord = RepoRecord(id: int, driveId: Option<string>, carpetaId: string)

  /** What `findUnique` produces: a record, null, or a rejection from the database layer. */
  datatype Lookup = Found(repo: RepoRecord) | Missing | StoreError(err: Thrown)

  const DriveScope: string := "https://www.googleapis.com/auth/drive"
  const RequestedFields: string := "id, name, capabilities, driveId"
  const MissingConfigMessage: string := "Configuración de Google Service Account no encontrada en el entorno."
  const NotFoundMessage: string := "Repositorio no encontrado."
  const AccessErrorPrefix: string := "Error de acceso a Google Drive (Service Account): "

  /** The `GoogleAuth` options: the key file and the single Drive scope. */
  datatype AuthClient = AuthClient(keyFile: string, scopes: seq<string>)

  /** The arguments of `drive.files.get`, together with the client that sends them. */
  datatype DriveRequest = DriveRequest(auth: AuthClient, fileId: string, fields: string, supportsAllDrives: bool)

  datatype Capabilities = Capabilities(canListChildren: Option<bool>, canAddChildren: Option<bool>)

  /**
   * A value `files.get` can reject with: `null`, `undefined`, or any other value, whose
   * `message` property is a string or absent (an Error, a plain object, a string, ...).
   */
  datatype Rejection = NullRejection | UndefinedRejection | Rejected(message: Option<string>)

  /** The outcome of `files.get`: a rejection, or `response.data` with each field possibly absent. */
  datatype DriveResponse =
    | DriveFailure(rejection: Rejection)
    | DriveFile(id: Option<string>, driveId: Option<string>, capabilities: Option<Capabilities>)

  /** The foreign calls the probe can make. Neither of them writes anything. */
  datatype ForeignCall = FindUnique(id: int) | FilesGet(request: DriveRequest)

  datatype Permisos = Permisos(puedeListar: bool, puedeCrearCarpetas: bool)

  datatype ConnectionSummary = ConnectionSummary(
    repositorioId: int, driveId: string, carpetaRaizId: string, acceso: string, permisos: Permisos)

  /** The calls made, in order, and what the probe returned or threw. */
  datatype Probe = Probe(calls: seq<ForeignCall>, outcome: Result<ConnectionSummary, Thrown>)

  /** JavaScript `a || b` for a string that may be null or undefined: "" counts as absent. */
  function OrElse(a: Option<string>, b: string): (r: string)
    ensures a.Some? && a.value != "" ==> r == a.value
    ensures a == None || a == Some("") ==> r == b
  {
    if a.Some? && a.value != "" then a.value else b
  }

  /** JavaScript `flag || false` for a flag that may be undefined. */
  function OrFalse(flag: Option<bool>): (r: bool)
    ensures r <==> flag == Some(true)
  {
    flag.Some? && flag.value
  }

  /** `${error.message}` for a value that has properties: an absent message prints as "undefined". */
  function MessageText(message: Option<string>): (r: string)
    ensures message.Some? ==> r == message.value
    ensures message.None? ==> r == "undefined"
  {
    if message.Some? then message.value else "undefined"
  }

  /** The TypeError Node's V8 engine throws on reading `message` from `null` or `undefined`. */
  function ReadMessageTypeError(nullish: string): Thrown {
    ErrorObject("Cannot read properties of " + nullish + " (reading 'message')", None, None)
  }

  /** `getAuthClient`, given `process.env.GOOGLE_SERVICE_ACCOUNT_PATH`: unset and "" are both missing. */
  function GetAuthClient(keyPath: Option<string>): (r: Result<AuthClient, Thrown>)
    ensures r.Failure? <==> keyPath == None || keyPath == Some("")
    ensures r.Failure? ==> r.error == Throw(NewAppError(MissingConfigMessage, 500))
    ensures r.Success? ==> r.value.keyFile == keyPath.value && r.value.scopes == [DriveScope]
  {
    if keyPath.None? || keyPath.value == "" then
      Failure(Throw(NewAppError(MissingConfigMessage, 500)))
    else
      Success(AuthClient(keyPath.value, [DriveScope]))
  }

  /** The single metadata query the probe sends for a record. */
  function RequestFor(auth: AuthClient, repo: RepoRecord): DriveRequest {
    DriveRequest(auth, repo.carpetaId, RequestedFields, true)
  }

  /** The 403 the catch block throws, given the caught value's message. */
  function AccessDenied(message: string): (t: Thrown)
    ensures t.ErrorObject? && t.statusCode == Some(403) && t.code == None
    ensures |t.message| == |AccessErrorPrefix| + |message|
    ensures t.message[..|AccessErrorPrefix|] == AccessErrorPrefix && t.message[|AccessErrorPrefix|..] == message
  {
    Throw(NewAppError(AccessErrorPrefix + message, 403))
  }

  /**
   * What leaves the catch block for a rejected Drive query: the 403 with the rejection's
   * message, or, for `null` and `undefined`, the TypeError raised while building that message.
   */
  function CaughtRejection(rejection: Rejection): (t: Thrown)
    ensures rejection.Rejected? <==> t.ErrorObject? && t.statusCode == Some(403)
    ensures !rejection.Rejected? ==> t.ErrorObject? && t.statusCode == None && t.code == None
  {
    match rejection
    case NullRejection => ReadMessageTypeError("null")
    case UndefinedRejection => ReadMessageTypeError("undefined")
    case Rejected(message) => AccessDenied(MessageText(message))
  }

  /** The object literal returned on success. */
  function Summarize(repo: RepoRecord, data: DriveResponse): (s: ConnectionSummary)
    requires data.DriveFile?
    ensures s.repositorioId == repo.id && s.acceso == "Ok"
    ensures s.driveId != "" && s.carpetaRaizId in {OrElse(data.id, ""), repo.carpetaId}
    ensures data.capabilities == None ==> s.permisos == Permisos(false, false)
  {
    ConnectionSummary(
      repo.id,
      OrElse(data.driveId, OrElse(repo.driveId, "root")),
      OrElse(data.id, repo.carpetaId),
      "Ok",
      Permisos(
        data.capabilities.Some? && OrFalse(data.capabilities.value.canListChildren),
        data.capabilities.Some? && OrFalse(data.capabilities.value.canAddChildren)))
  }

  /** `validateConnection(repositorioId)`. */
  function ValidateConnection(repositorioId: int, findUnique: int -> Lookup, keyPath: Option<string>,
                              filesGet: DriveRequest -> DriveResponse): (p: Probe)
    ensures 1 <= |p.calls| <= 2 && p.calls[0] == FindUnique(repositorioId)
    ensures |p.calls| == 2 ==>
      && findUnique(repositorioId).Found?
      && GetAuthClient(keyPath).Success?
      && p.calls[1] == FilesGet(RequestFor(GetAuthClient(keyPath).value, findUnique(repositorioId).repo))
    ensures p.outcome.Success? ==> |p.calls| == 2
  {
    match findUnique(repositorioId)
    case StoreError(err) => Probe([FindUnique(repositorioId)], Failure(err))
    case Missing => Probe([FindUnique(repositorioId)], Failure(Throw(NewAppError(NotFoundMessage, 404))))
    case Found(repo) =>
      match GetAuthClient(keyPath)
      case Failure(err) => Probe([FindUnique(repositorioId)], Failure(AccessDenied(err.message)))
      case Success(auth) =>
        var request := RequestFor(auth, repo);
        var calls := [FindUnique(repositorioId), FilesGet(request)];
        match filesGet(request)
        case DriveFailure(rejection) => Probe(calls, Failure(CaughtRejection(rejection)))
        case DriveFile(_, _, _) => Probe(calls, Success(Summarize(repo, filesGet(request))))
  }

  /** An unknown id fails with 404 after the lookup alone, whatever the configuration and Drive would say. */
  lemma UnknownRepository(repositorioId: int, findUnique: int -> Lookup, keyPath: Option<string>,
                          filesGet: DriveRequest -> DriveResponse)
    requires findUnique(repositorioId).Missing?
    ensures ValidateConnection(repositorioId, findUnique, keyPath, filesGet)
         == Probe([FindUnique(repositorioId)], Failure(Throw(NewAppError(NotFoundMessage, 404))))
  {
  }

  /** A rejected lookup is rethrown unchanged, outside the `try`, so it is not turned into a 403. */
  lemma StoreErrorPassesThrough(repositorioId: int, findUnique: int -> Lookup, keyPath: Option<string>,
                                filesGet: DriveRequest -> DriveResponse)
    requires findUnique(repositorioId).StoreError?
    ensures ValidateConnection(repositorioId, findUnique, keyPath, filesGet)
         == Probe([FindUnique(repositorioId)], Failure(findUnique(repositorioId).err))
  {
  }

  /**
   * A missing key path is thrown as a 500 inside the `try`, so it reaches the caller as a 403
   * whose message is the access prefix followed by the configuration message; Drive is not called.
   */
  lemma MissingConfigurationIsAccessDenied(repositorioId: int, findUnique: int -> Lookup, keyPath: Option<string>,
                                           filesGet: DriveRequest -> DriveResponse)
    requires findUnique(repositorioId).Found?
    requires keyPath == None || keyPath == Some("")
    ensures var p := ValidateConnection(repositorioId, findUnique, keyPath, filesGet);
      && p.calls == [FindUnique(repositorioId)]
      && p.outcome == Failure(ErrorObject(AccessErrorPrefix + MissingConfigMessage, Some(403), None))
  {
  }

  /**
   * A Drive rejection with properties becomes a 403 carrying its message after the prefix,
   * "undefined" when it has no message.
   */
  lemma ProviderFailureIsAccessDenied(repositorioId: int, findUnique: int -> Lookup, keyPath: Option<string>,
                                      filesGet: DriveRequest -> DriveResponse)
    requires findUnique(repositorioId).Found? && GetAuthClient(keyPath).Success?
    requires filesGet(RequestFor(GetAuthClient(keyPath).value, findUnique(repositorioId).repo)).DriveFailure?
    requires filesGet(RequestFor(GetAuthClient(keyPath).value, findUnique(repositorioId).repo)).rejection.Rejected?
    ensures var message := filesGet(RequestFor(GetAuthClient(keyPath).value, findUnique(repositorioId).repo)).rejection.message;
      ValidateConnection(repositorioId, findUnique, keyPath, filesGet).outcome
        == Failure(ErrorObject(AccessErrorPrefix + (if message.Some? then message.value else "undefined"), Some(403), None))
  {
  }

  /**
   * A Drive rejection with `null` or `undefined` makes the catch block itself throw: reading
   * `message` raises a TypeError, which carries no status and escapes instead of the 403.
   */
  lemma NullishRejectionEscapes(repositorioId: int, findUnique: int -> Lookup, keyPath: Option<string>,
                                filesGet: DriveRequest -> DriveResponse)
    requires findUnique(repositorioId).Found? && GetAuthClient(keyPath).Success?
    requires filesGet(RequestFor(GetAuthClient(keyPath).value, findUnique(repositorioId).repo)).DriveFailure?
    requires !filesGet(RequestFor(GetAuthClient(keyPath).value, findUnique(repositorioId).repo)).rejection.Rejected?
    ensures var rejection := filesGet(RequestFor(GetAuthClient(keyPath).value, findUnique(repositorioId).repo)).rejection;
      var nullish := if rejection.NullRejection? then "null" else "undefined";
      ValidateConnection(repositorioId, findUnique, keyPath, filesGet).outcome
        == Failure(ErrorObject("Cannot read properties of " + nullish + " (reading 'message')", None, None))
  {
  }

  /**
   * Every failure of the probe is the store's own error, a 404, a 403, or the TypeError of a
   * `null` or `undefined` Drive rejection, which carries no status.
   */
  lemma FailureKinds(repositorioId: int, findUnique: int -> Lookup, keyPath: Option<string>,
                     filesGet: DriveRequest -> DriveResponse)
    ensures var p := ValidateConnection(repositorioId, findUnique, keyPath, filesGet);
      p.outcome.Failure? ==>
        || (findUnique(repositorioId).StoreError? && p.outcome.error == findUnique(repositorioId).err)
        || p.outcome.error.statusCode == Some(404)
        || p.outcome.error.statusCode == Some(403)
        || (|p.calls| == 2 && p.outcome.error in {ReadMessageTypeError("null"), ReadMessageTypeError("undefined")})
  {
  }

  /**
   * On success: the summary's id is the record's, `driveId` is the first non-empty of the
   * provider's drive id, the stored drive id and "root", `carpetaRaizId` is the provider's id
   * or else the stored folder id, and `acceso` is "Ok".
   */
  lemma SummaryFields(repositorioId: int, findUnique: int -> Lookup, keyPath: Option<string>,
                      filesGet: DriveRequest -> DriveResponse)
    requires ValidateConnection(repositorioId, findUnique, keyPath, filesGet).outcome.Success?
    ensures var s := ValidateConnection(repositorioId, findUnique, keyPath, filesGet).outcome.value;
      var repo := findUnique(repositorioId).repo;
      var data := filesGet(RequestFor(GetAuthClient(keyPath).value, repo));
      && data.DriveFile?
      && s.repositorioId == repo.id
      && s.acceso == "Ok"
      && (data.driveId.Some? && data.driveId.value != "" ==> s.driveId == data.driveId.value)
      && (data.driveId in {None, Some("")} && repo.driveId.Some? && repo.driveId.value != "" ==> s.driveId == repo.driveId.value)
      && (data.driveId in {None, Some("")} && repo.driveId in {None, Some("")} ==> s.driveId == "root")
      && (data.id.Some? && data.id.value != "" ==> s.carpetaRaizId == data.id.value)
      && (data.id in {None, Some("")} ==> s.carpetaRaizId == repo.carpetaId)
  {
  }

  /** The resolved drive id is never empty. */
  lemma DriveIdNeverEmpty(repositorioId: int, findUnique: int -> Lookup, keyPath: Option<string>,
                          filesGet: DriveRequest -> DriveResponse)
    requires ValidateConnection(repositorioId, findUnique, keyPath, filesGet).outcome.Success?
    ensures ValidateConnection(repositorioId, findUnique, keyPath, filesGet).outcome.value.driveId != ""
  {
  }

  /** Each permission is true only when the provider reports that capability as true; absence is not a failure. */
  lemma PermissionDefaults(repositorioId: int, findUnique: int -> Lookup, keyPath: Option<string>,
                           filesGet: DriveRequest -> DriveResponse)
    requires ValidateConnection(repositorioId, findUnique, keyPath, filesGet).outcome.Success?
    ensures var s := ValidateConnection(repositorioId, findUnique, keyPath, filesGet).outcome.value;
      var caps := filesGet(RequestFor(GetAuthClient(keyPath).value, findUnique(repositorioId).repo)).capabilities;
      && (s.permisos.puedeListar <==> caps.Some? && caps.value.canListChildren == Some(true))
      && (s.permisos.puedeCrearCarpetas <==> caps.Some? && caps.value.canAddChildren == Some(true))
  {
  }

  /** A found record, a key path and a Drive answer without capabilities still give "Ok", with both permissions false. */
  lemma AbsentCapabilitiesStillOk(repo: RepoRecord, keyFile: string, id: Option<string>, driveId: Option<string>)
    requires keyFile != ""
    ensures var p := ValidateConnection(repo.id, _ => Found(repo), Some(keyFile), _ => DriveFile(id, driveId, None));
      && p.outcome.Success?
      && p.outcome.value.acceso == "Ok"
      && p.outcome.value.permisos == Permisos(false, false)
  {
  }

  /**
   * The probe is a read of two values: its whole result is fixed by the record found for the id,
   * the key path, and the Drive answer to the one request it sends.
   */
  lemma DependsOnlyOnReads(repositorioId: int, keyPath: Option<string>,
                           find1: int -> Lookup, find2: int -> Lookup,
                           get1: DriveRequest -> DriveResponse, get2: DriveRequest -> DriveResponse)
    requires find1(repositorioId) == find2(repositorioId)
    requires find1(repositorioId).Found? && GetAuthClient(keyPath).Success? ==>
      var request := RequestFor(GetAuthClient(keyPath).value, find1(repositorioId).repo);
      get1(request) == get2(request)
    ensures ValidateConnection(repositorioId, find1, keyPath, get1)
         == ValidateConnection(repositorioId, find2, keyPath, get2)
  {
  }
}
