/** The HTTP responses the route handlers produce, as values: `flask.redirect`,
    `flask.abort` and the JSON status responses. */
module Outcomes {
  datatype Outcome =
    | Redirect(url: string)   // 302 to `url`
    | ListRedirect            // 302 to the listing endpoint
    | BadRequest              // 400
    | PreconditionFailed      // 412
    | ServerError             // 500, including an exception nothing catches
    | Success                 // 200
}
