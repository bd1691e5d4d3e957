/** What a handler or a gate answers, in place of the Express response object. */
module Http {
  import opened Values

  /** `res.redirect(path)`, `res.status(code).send(...)` (the body text is not
      kept) and `res.render(view, { message })` */
  datatype Reply = Redirect(path: string) | Status(code: int) | Render(view: string, message: Option<string>)
}
