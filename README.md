# A verified model of the request path of the repository-configuration API

The API is an Express service. It stores repository configurations, each linking an
organisational unit to a folder on Google Drive, and it can probe whether a stored
configuration still reaches its folder. This project models the request-handling pieces
of that service, each as it behaves once mounted on a route:

- **the input sanitiser** (`sanitizeString`, `sanitizeObject`, `sanitizeInputMiddleware`).
  Each run of tab/CR/LF becomes one space, then each run of white space becomes one space,
  then the string is trimmed. Objects are rewritten in place; arrays are mapped into new arrays.
- **the error layer**: `AppError`, the global error handler that turns anything thrown
  into `{status: 'error', statusCode, message}`, and the catch-all 404 route.
- **the general controller**: `getStatus`, and the paginated `getItems` demonstration over
  50 synthetic items.
- **the connection probe** `GoogleDriveService.validateConnection`. It looks up the record,
  checks the service-account configuration, sends one Drive metadata query and builds the
  summary through JavaScript `||` fallbacks.
- **the controller** `RepositorioController.validarConexion`. It parses the id, answers 400
  for NaN, delegates to the probe, and forwards errors to the handler.

The JavaScript built-ins these rely on are modelled as the ECMAScript specification defines
them:

- the white-space class shared by `\s`, `trim` and `parseInt` (WhiteSpace and
  LineTerminator, section 22.2.2.9 and clause 12 of ECMA-262);
- `parseInt` without a radix (section 19.2.5), including its "0x" prefix;
- `Array.prototype.slice` (section 23.1.3.28).

Modules follow the source files: `SanitizeInput`, `ErrorHandler`, `App`,
`GeneralController`, `GoogleDriveService`, `RepositorioController`, plus the built-in models
`JsStrings`, `JsParseInt`, `JsArrays`, and `Wrappers` (Option and Result).

Foreign calls are inputs to the model:

- the database lookup `findUnique` is a function `int -> Lookup`;
- the Drive query `files.get` is a function from the request to the response;
- `process.env` values are parameters.

The probe records every foreign call it makes, in order, so that its read-only behaviour and
the order of its steps can be stated.

Three behaviours of the code that differ from what its wording suggests:

- `page=0` or `pageSize=0` is not a 400. `parseInt(...) || 1` turns 0 into the default, so
  `page=0` behaves like `page=1` (`GeneralController.PageZeroIsFirstPage`).
- A missing service-account path is not a 500 configuration error. `getAuthClient` throws
  it inside the `try` of `validateConnection`, so the client sees a 403 with the access
  prefix (`GoogleDriveService.MissingConfigurationIsAccessDenied`).
- Not every Drive failure is a 403. A rejection with `null` or `undefined` makes the catch
  block's `${error.message}` itself throw a TypeError, which the handler answers with 500
  (`GoogleDriveService.NullishRejectionEscapes`, `RepositorioController.NullishRejectionReply`).

## Model

| member | source | states |
|---|---|---|
| JsStrings.TrimStart | src/middlewares/sanitizeInput.ts:7 | the result is a suffix of the input; everything dropped is white space; the result does not start with white space |
| JsStrings.TrimEnd | src/middlewares/sanitizeInput.ts:7 | the result is a prefix of the input; everything dropped is white space; the result does not end with white space |
| JsStrings.Trim | src/middlewares/sanitizeInput.ts:7 | `trim` returns a contiguous middle part of the input: only white space is cut off at either end, and none is left at either end |
| JsStrings.NatToString | src/controllers/general.controller.ts:32 | the decimal rendering used in `Item ${i + 1}` is non-empty, all digits, and has no leading zero except for 0 |
| JsParseInt.ParseInt | src/controllers/repositorio.controller.ts:14 | parseInt of a blank string is NaN, and a negative result comes only from a leading '-' after the white space |
| JsParseInt.IntToString | src/controllers/general.controller.ts:21-22 | `String(n)` is non-empty and starts with '-' exactly when n is negative (its value is read back by ParseIntRoundTrip) |
| JsParseInt.ParseIntRoundTrip | src/controllers/general.controller.ts:21-22 | parseInt reads back every integer written with `String(n)` |
| JsParseInt.ParseIntOfPaddedNumber | src/controllers/repositorio.controller.ts:14 | leading white space is skipped and reading stops at the first non-digit: " 7" gives 7 and "12abc" gives 12 |
| JsParseInt.ParseIntWithoutDigits | src/controllers/repositorio.controller.ts:14-16 | text whose first non-blank character is neither a sign nor a digit (such as "abc") is NaN |
| JsParseInt.ParseIntOfHexNumeral | src/controllers/general.controller.ts:21-22 | without a radix, "0x"/"0X" followed by hexadecimal digits is read in radix 16 |
| JsParseInt.HexDigitsExample | src/controllers/general.controller.ts:21-22 | parseInt("0x1A") is 26 |
| JsParseInt.ParseIntReadsFirstWord | src/controllers/repositorio.controller.ts:14 | parseInt depends only on the first word after the leading white space |
| JsArrays.Slice | src/controllers/general.controller.ts:35 | `slice(start, end)` with non-negative bounds has `min(end,len) - min(start,len)` elements, and element k is element `start + k` of the array |
| SanitizeInput.ReplaceRuns | src/middlewares/sanitizeInput.ts:5-6 | after `replace(/[class]+/g, ' ')` every character of the class is a space, no two are adjacent, and the non-blank characters are unchanged |
| SanitizeInput.ReplaceRunsSplits | src/middlewares/sanitizeInput.ts:5-6 | `replace(/[class]+/g, ' ')` equals an independent definition, `split(/[class]+/).join(' ')`: each maximal run becomes exactly one space and everything else stays in place |
| SanitizeInput.SanitizeString | src/middlewares/sanitizeInput.ts:3-8 | the output's only white space is single spaces between non-blank characters, and its non-blank characters are exactly those of the input |
| SanitizeInput.SanitizedStringShape | src/middlewares/sanitizeInput.ts:5-7 | no tab, CR or LF survives; no two white-space characters are adjacent; no white space at either end |
| SanitizeInput.SanitizeStringEmptyIffBlank | src/middlewares/sanitizeInput.ts:7 | the output is empty exactly when the input is all white space |
| SanitizeInput.SanitizeStringFixedPoints | src/middlewares/sanitizeInput.ts:3-8 | a string is left unchanged exactly when it is already clean (both directions) |
| SanitizeInput.SanitizeStringIdempotent | src/middlewares/sanitizeInput.ts:3-8 | sanitising twice is sanitising once |
| SanitizeInput.SanitizeStringJoinsWords | src/middlewares/sanitizeInput.ts:3-8 | sanitizeString equals an independent definition: split into white-space-separated words and join them with one space |
| SanitizeInput.SanitizeTwoWords | src/middlewares/sanitizeInput.ts:3-8 | two words with any white space around and between them become "first second"; `"  a\t\tb\n"` becomes "a b" |
| SanitizeInput.SanitizeStringKeepsParseInt | src/middlewares/sanitizeInput.ts:3-8 | parseInt reads the same value from a string and from its sanitised form |
| SanitizeInput.Sanitized | src/middlewares/sanitizeInput.ts:10-30 | sanitizeObject's returned value: strings map to strings and nothing else becomes one, and a value that is neither string, array nor object comes back as it is (SanitizedIsClean states the rest) |
| SanitizeInput.AfterInPlace | src/middlewares/sanitizeInput.ts:15-27 | the argument as the caller sees it after sanitizeObject: an object is rewritten into its sanitised value, a scalar is unchanged |
| SanitizeInput.SanitizedIsClean | src/middlewares/sanitizeInput.ts:10-30 | sanitizeObject's result has the argument's skeleton (same array lengths, same keys, same non-string leaves) and only clean strings |
| SanitizeInput.SanitizedFixedPoints | src/middlewares/sanitizeInput.ts:10-30 | sanitizeObject returns a value unchanged exactly when all its strings are clean |
| SanitizeInput.SanitizedIdempotent | src/middlewares/sanitizeInput.ts:10-30 | sanitising a sanitised value changes nothing |
| SanitizeInput.SanitizeObject | src/middlewares/sanitizeInput.ts:10-30 | the method returns `Sanitized(v)`, and beside it the argument as the caller sees it afterwards (`AfterInPlace(v)`) |
| SanitizeInput.SanitizeArray | src/middlewares/sanitizeInput.ts:15-17 | the loop over the array builds exactly the sanitised elements, and the elements as left behind by the in-place rewriting |
| SanitizeInput.SanitizeProperties | src/middlewares/sanitizeInput.ts:19-27 | rewriting the properties one key at a time, in any order, keeps the key set and leaves every property sanitised |
| SanitizeInput.TopLevelArray | src/middlewares/sanitizeInput.ts:15-17 | for an array passed by the middleware, its string elements stay as they were (the cleaned copy is dropped) while objects inside it are cleaned |
| SanitizeInput.GuardSkipsOnlyScalars | src/middlewares/sanitizeInput.ts:37-47 | the truthiness guards skip only scalars (every array and object, even an empty one, is truthy), and a scalar ends the same whether or not it passes the guard |
| SanitizeInput.AfterInPlaceIdempotent | src/middlewares/sanitizeInput.ts:32-50 | running the middleware twice over the same request changes nothing more |
| SanitizeInput.Request.SanitizeInputMiddleware | src/middlewares/sanitizeInput.ts:32-50 | body, query and params each become what the in-place rewriting leaves of them |
| ErrorHandler.NewAppError | src/middlewares/errorHandler.ts:3-13 | an AppError carries its message and status code and is operational |
| ErrorHandler.GlobalErrorHandler | src/middlewares/errorHandler.ts:16-37 | the handler's sequence of assignments produces exactly the reply `ReplyFor(err)` |
| ErrorHandler.ReplyFor | src/middlewares/errorHandler.ts:32-36 | the body always says "error" and repeats the HTTP status |
| ErrorHandler.NonErrorIsGeneric | src/middlewares/errorHandler.ts:17-20 | a thrown value that is not an Error gets 500 and "Error interno del servidor" |
| ErrorHandler.ErrorWithoutStatus | src/middlewares/errorHandler.ts:20-21 | an Error without `statusCode` gets 500 and its own message |
| ErrorHandler.ErrorWithStatus | src/middlewares/errorHandler.ts:20-25 | an Error with `statusCode` gets that status and its own message |
| ErrorHandler.DatabaseDownOverrides | src/middlewares/errorHandler.ts:27-30 | code P1001 gives 500 and "No se pudo conectar a la base de datos", whatever status or message the error carried |
| ErrorHandler.AppErrorReply | src/middlewares/errorHandler.ts:20-25 | a thrown AppError reaches the client with exactly its status and message |
| ErrorHandler.StatusOrigin | src/middlewares/errorHandler.ts:16-30 | a status other than 500 comes only from an Error carrying that status that is not a database outage |
| App.RouteNotFound | src/index.ts:68-70 | an unmatched route raises an operational 404 |
| App.UnmatchedRouteReply | src/index.ts:68-73 | the client gets 404 with "No se encontró la ruta" followed by the path |
| GeneralController.GetStatus | src/controllers/general.controller.ts:8-14 | the environment is "Production" exactly when NODE_ENV is "production", otherwise "Development"; the message is fixed |
| GeneralController.ParseQuery | src/controllers/general.controller.ts:21-22 | an absent or empty query parameter parses to NaN |
| GeneralController.OrDefault | src/controllers/general.controller.ts:21-22 | JavaScript `parsed \|\| fallback`: a non-zero number is kept, NaN and 0 give the fallback, and a non-zero fallback never yields 0 |
| GeneralController.AllItems | src/controllers/general.controller.ts:32 | 50 items; item i has id i + 1 and name "Item " followed by that id |
| GeneralController.GetItems | src/controllers/general.controller.ts:19-38 | the answer is a 400 with INVALID_PARAMETERS and the fixed message, or a 200 page with page and pageSize at least 1 |
| GeneralController.Paginate | src/controllers/general.controller.ts:24-38 | a 400 is given exactly when page or pageSize is below 1; otherwise a 200 carrying the page and page size given |
| GeneralController.RejectedIffNegative | src/controllers/general.controller.ts:21-29 | the request is refused exactly when a parameter parses to a negative number (both directions) |
| GeneralController.Defaults | src/controllers/general.controller.ts:21-22 | NaN or 0 gives page 1 and page size 10; any other parsed value is used as it is |
| GeneralController.PageZeroIsFirstPage | src/controllers/general.controller.ts:21-22 | page=0, an absent page and a non-numeric page all answer like page=1 |
| GeneralController.NumericQuery | src/controllers/general.controller.ts:21-22 | query strings written from numbers are read back as those numbers |
| GeneralController.PageContents | src/controllers/general.controller.ts:32-38 | a page has `min(pageSize, max(0, 50 - start))` items, item k has id `start + k + 1` and name "Item " + that id, and totalItems is 50 |
| GeneralController.PaginateContents | src/controllers/general.controller.ts:32-36 | the same for the pagination step alone, for any page and page size of at least 1 |
| GeneralController.PastTheEnd | src/controllers/general.controller.ts:33-38 | a page starting past item 50 is an empty 200 answer, not an error |
| GeneralController.SecondPageOfTen | src/controllers/general.controller.ts:19-38 | page 2 of size 10 holds items 11 to 20 out of 50 |
| GeneralController.GetItemsIgnoresSanitizer | src/controllers/general.controller.ts:21-22 | getItems answers the same whether or not the sanitiser's change to the query is visible |
| GoogleDriveService.OrElse | src/services/googleDrive.service.ts:53-54 | JavaScript `a \|\| b` on a string that may be missing: "" counts as missing |
| GoogleDriveService.OrFalse | src/services/googleDrive.service.ts:57-58 | `flag \|\| false` is true exactly when the flag is present and true |
| GoogleDriveService.GetAuthClient | src/services/googleDrive.service.ts:10-25 | an unset or empty key path fails with a 500 AppError carrying the configuration message; otherwise the client uses that key file and the Drive scope only |
| GoogleDriveService.MessageText | src/services/googleDrive.service.ts:63 | `${error.message}`: the message, or "undefined" when there is none |
| GoogleDriveService.AccessDenied | src/services/googleDrive.service.ts:62-63 | a 403 Error without code whose message is the access prefix followed by the given message |
| GoogleDriveService.CaughtRejection | src/services/googleDrive.service.ts:62-63 | the catch block ends in a 403 exactly for rejections with properties; `null`/`undefined` end in an Error without status or code |
| GoogleDriveService.Summarize | src/services/googleDrive.service.ts:51-60 | the summary keeps the record's id, says "Ok", has a non-empty driveId, takes carpetaRaizId from the provider or the record, and has both permissions false without capabilities |
| GoogleDriveService.ValidateConnection | src/services/googleDrive.service.ts:30-65 | the lookup comes first; at most one Drive query follows, for the record's folder and only when the record exists and the configuration is present; success needs that query |
| GoogleDriveService.UnknownRepository | src/services/googleDrive.service.ts:31-37 | an unknown id fails with 404 "Repositorio no encontrado." after the lookup alone, whatever the configuration or Drive |
| GoogleDriveService.StoreErrorPassesThrough | src/services/googleDrive.service.ts:31-33 | an error from the lookup is thrown unchanged, not turned into a 403 |
| GoogleDriveService.MissingConfigurationIsAccessDenied | src/services/googleDrive.service.ts:39-63 | a missing key path ends as a 403 whose message is the access prefix followed by the configuration message, and Drive is not called |
| GoogleDriveService.ProviderFailureIsAccessDenied | src/services/googleDrive.service.ts:43-63 | a Drive rejection other than `null`/`undefined` ends as a 403 whose message is the access prefix followed by the rejection's `message` ("undefined" when it has none) |
| GoogleDriveService.NullishRejectionEscapes | src/services/googleDrive.service.ts:43-63 | a `null` or `undefined` Drive rejection makes the catch block throw a TypeError without status instead of the 403 |
| GoogleDriveService.FailureKinds | src/services/googleDrive.service.ts:30-65 | every failure is the lookup's own error, a 404, a 403, or (after the Drive call) the TypeError of a `null`/`undefined` rejection |
| GoogleDriveService.SummaryFields | src/services/googleDrive.service.ts:51-55 | on success: repositorioId is the record's id, driveId is the first non-empty of the provider's id, the stored id and "root", carpetaRaizId is the provider's id or else the stored folder id, and acceso is "Ok" |
| GoogleDriveService.DriveIdNeverEmpty | src/services/googleDrive.service.ts:53 | the resolved driveId is never empty |
| GoogleDriveService.PermissionDefaults | src/services/googleDrive.service.ts:56-59 | each permission is true exactly when the provider reports that capability as true |
| GoogleDriveService.AbsentCapabilitiesStillOk | src/services/googleDrive.service.ts:51-60 | without capabilities in the answer the probe still succeeds, with acceso "Ok" and both permissions false |
| GoogleDriveService.DependsOnlyOnReads | src/services/googleDrive.service.ts:31-47 | the result is fixed by the record found, the key path and the Drive answer to the one request sent |
| RepositorioController.ValidarConexion | src/controllers/repositorio.controller.ts:11-26 | nothing is looked up exactly when the id is NaN; a response is always 200 |
| RepositorioController.HandleId | src/controllers/repositorio.controller.ts:16-25 | a parsed id is looked up first; NaN causes no call |
| RepositorioController.InvalidIdRejected | src/controllers/repositorio.controller.ts:14-17 | a NaN id is forwarded as a 400 with "El ID del repositorio debe ser un número válido." and no call is made |
| RepositorioController.NonNumericIdRejected | src/controllers/repositorio.controller.ts:14-17 | an id such as "abc" gets that 400 |
| RepositorioController.NumericPrefixAccepted | src/controllers/repositorio.controller.ts:14-20 | ids such as " 7" or "12abc" are handled as their numeric prefix, which is what is looked up |
| RepositorioController.DelegatesToService | src/controllers/repositorio.controller.ts:20-25 | for a numeric id the calls are the probe's; its summary is sent with 200 as it is, its error is forwarded unchanged |
| RepositorioController.InvalidIdReply | src/controllers/repositorio.controller.ts:16-17 | after the error handler a bad id reaches the client as 400 with its message |
| RepositorioController.UnknownRepositoryReply | src/controllers/repositorio.controller.ts:20-25 | an unknown repository reaches the client as 404 |
| RepositorioController.MissingConfigurationReply | src/controllers/repositorio.controller.ts:20-25 | a missing key path reaches the client as 403, not 500 |
| RepositorioController.ProviderFailureReply | src/controllers/repositorio.controller.ts:20-25 | a Drive rejection other than `null`/`undefined` reaches the client as 403 with the prefixed message |
| RepositorioController.NullishRejectionReply | src/controllers/repositorio.controller.ts:23-24 | a `null` or `undefined` Drive rejection reaches the client as 500 with the TypeError's message |
| RepositorioController.SanitizedIdSameHandling | src/controllers/repositorio.controller.ts:13-14 | the handling is the same whether or not the sanitiser's change to the id is visible |

## Left out

- Wiring: `src/index.ts` mounts neither `sanitizeInputMiddleware` nor the general and repository routers. Each piece is modelled as it behaves once mounted.
- GoogleDriveService.ProviderFailureIsAccessDenied: a rejection whose `message` property is neither a string nor absent (a number, an object) is not modelled. Template conversion of such values is outside the model.
- GoogleDriveService.FailureKinds and RepositorioController.ProviderFailureReply: the same limit on non-string `message` properties applies.
- GoogleDriveService.NullishRejectionEscapes: the TypeError text for `null`/`undefined` rejections is the wording of Node's V8 engine. Other engines word it differently.
- Record-store CRUD (create, list, list by unit key, update, status update): outside the modelled core.
- Express itself: `req`, `res.status().json()`, `next()`, routing and async sequencing. Handlers return or forward values instead.
- `buildSuccessResponse`, `buildErrorResponse` and `buildPaginatedResponse`: their file is not part of this model. Responses carry the raw payload fields.
- The catch block of `getItems`: nothing in the modelled code can throw there.
- Express 5 query and parameter objects are not modelled. `req.query` is re-parsed on each access, so the sanitiser's in-place change may not be visible to the handlers. The model shows instead that both handlers answer the same either way (`GeneralController.GetItemsIgnoresSanitizer`, `RepositorioController.SanitizedIdSameHandling`).
- Query values that are arrays or nested objects (`?page=1&page=2`): `ParseQuery` takes a string or nothing.
- JavaScript numbers: parseInt results are unbounded integers. Precision loss above 2^53, Infinity, and the -0 result are not modelled. The `JNumber` leaf of a request body is a real number.
- `ErrorHandler.GlobalErrorHandler`: a `statusCode` property that is not an integer is not modelled.
- Key-path resolution (`path.isAbsolute`, `path.join(process.cwd(), ...)`): the key file is the configured path as given.
- The Google and Prisma clients: they appear only as the lookup and query functions, and the probe's record of calls.
- Shared or cyclic references inside a request body, and inherited enumerable properties skipped by `hasOwnProperty`: request values are trees of own properties.
- Strings are sequences of code points. Lone UTF-16 surrogates are not modelled.
- `SanitizeInput.SanitizeProperties`: keys are visited in an arbitrary order rather than JavaScript's insertion order. The result does not depend on the order.
- `JsParseInt.ParseIntOfHexNumeral`: a hexadecimal numeral after a sign is not stated separately. `ParseInt` handles it.
- Server start-up, TLS and the database connection check in `src/index.ts`: process I/O.
