/** What a route hands back to the client, and the exception it may raise instead. */
module Http {
  import opened Wrappers

  /**
    A reply: a redirect with its status and target, a short HTML or plain-text
    message a route returns with a status (`HTMLResponse`, `PlainTextResponse`),
    the error page the exception handlers render with a status, or a rendered
    template.
   */
  datatype Response =
    | Redirect(status: nat, url: string)
    | Message(status: nat)
    | ErrorPage(status: nat)
    | Page(template: string)

  /** FastAPI's `HTTPException`, with the `Location` header when it has one. */
  datatype HttpException = HttpException(status: nat, location: Option<string>)

  /** `RedirectResponse(url, status_code=303)`, the redirect every route uses. */
  function SeeOther(url: string): Response {
    Redirect(303, url)
  }
}
