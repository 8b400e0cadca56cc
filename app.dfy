/** src/index.ts, only the catch-all route: any unmatched path becomes a 404 AppError. */
module App {
  import opened ErrorHandler

  /** `app.all('*path', ...)`: `new AppError(`No se encontró la ruta ${req.originalUrl}`, 404)`. */
  function RouteNotFound(originalUrl: string): (e: AppError)
    ensures e.statusCode == 404 && e.isOperational
  {
    NewAppError("No se encontró la ruta " + originalUrl, 404)
  }

  /** An unmatched route reaches the client as a 404 whose message names the path. */
  lemma UnmatchedRouteReply(originalUrl: string)
    ensures ReplyFor(Throw(RouteNotFound(originalUrl)))
         == ErrorReply(404, ErrorBody("error", 404, "No se encontró la ruta " + originalUrl))
  {
  }
}
