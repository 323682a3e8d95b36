/** The error-handling middleware: the responder for unmatched paths, the
    classifier that turns a failure into a status and message, and the
    fallback responder. */
module ErrorHandling {
  import opened Results
  import opened Failures

  const PATH_NOT_FOUND: string := "Path not found"
  const INVALID_ARTICLE_ID: string := "Invalid article id"
  const ARTICLE_FOREIGN_KEY: string := "comments_article_id_fkey"
  const AUTHOR_FOREIGN_KEY: string := "comments_author_fkey"
  const ARTICLE_DOES_NOT_EXIST: string := "Bad request: this article does not exist"
  const USER_DOES_NOT_EXIST: string := "Bad request: this user does not exist"
  const SERVER_ERROR: string := "Something has gone wrong on the server"

  /** A response: its status code and the `msg` of its JSON body. */
  datatype Response = Response(status: int, msg: string)

  /** What an error middleware does with a failure: sends a response, sends
      nothing and does not call `next` (the request is left unanswered), or
      passes the failure on with `next(err)`. */
  datatype Handled = Sent(response: Response) | Unanswered | Next(err: Err)

  /** `err.status && err.msg`: both present and truthy (a non-zero status,
      a non-empty message). */
  predicate IsTyped(err: Err)
  {
    err.status.Some? && err.status.value != 0 && err.msg.Some? && err.msg.value != ""
  }

  /** `handle404BadPath`: every unmatched request, whatever its path. */
  function HandleBadPath(path: string): (r: Response)
    ensures r.status == 404 && r.msg == PATH_NOT_FOUND
  {
    Response(404, PATH_NOT_FOUND)
  }

  /** `handle500Error`: the fallback response. */
  function HandleServerError(): (r: Response)
    ensures r.status == 500 && r.msg == SERVER_ERROR
  {
    Response(500, SERVER_ERROR)
  }

  /** `handleCustomErrors`: a typed rejection is answered as it is; then
      the SQLSTATE code decides; a foreign-key violation on a constraint the
      switch does not name is left unanswered; anything else goes on. */
  function HandleCustomErrors(err: Err): (h: Handled)
    ensures IsTyped(err) ==> h == Sent(Response(err.status.value, err.msg.value))
    ensures h.Sent? && !IsTyped(err) ==> h.response.status in {400, 404}
    ensures h.Sent? && h.response.status == 400 && !IsTyped(err)
            ==> err.code == Some(INVALID_TEXT_REPRESENTATION) && h.response.msg == INVALID_ARTICLE_ID
    ensures !IsTyped(err) && err.code == Some(INVALID_TEXT_REPRESENTATION)
            ==> h == Sent(Response(400, INVALID_ARTICLE_ID))
    ensures !IsTyped(err) && err.code == Some(FOREIGN_KEY_VIOLATION) && err.constraint == Some(ARTICLE_FOREIGN_KEY)
            ==> h == Sent(Response(404, ARTICLE_DOES_NOT_EXIST))
    ensures !IsTyped(err) && err.code == Some(FOREIGN_KEY_VIOLATION) && err.constraint == Some(AUTHOR_FOREIGN_KEY)
            ==> h == Sent(Response(404, USER_DOES_NOT_EXIST))
    ensures h.Next? <==> !IsTyped(err) && err.code != Some(INVALID_TEXT_REPRESENTATION)
                         && err.code != Some(FOREIGN_KEY_VIOLATION)
    ensures h.Next? ==> h.err == err
    ensures h.Unanswered? <==> !IsTyped(err) && err.code == Some(FOREIGN_KEY_VIOLATION)
                               && err.constraint != Some(ARTICLE_FOREIGN_KEY)
                               && err.constraint != Some(AUTHOR_FOREIGN_KEY)
  {
    if IsTyped(err) then
      Sent(Response(err.status.value, err.msg.value))
    else if err.code == Some(INVALID_TEXT_REPRESENTATION) then
      Sent(Response(400, INVALID_ARTICLE_ID))
    else if err.code == Some(FOREIGN_KEY_VIOLATION) then
      match err.constraint
      case Some(c) =>
        if c == ARTICLE_FOREIGN_KEY then Sent(Response(404, ARTICLE_DOES_NOT_EXIST))
        else if c == AUTHOR_FOREIGN_KEY then Sent(Response(404, USER_DOES_NOT_EXIST))
        else Unanswered
      case None => Unanswered
    else
      Next(err)
  }

  /** A typed rejection is answered with its own status and message
      whatever code and constraint it also carries. */
  lemma TypedRejectionTakesPrecedence(err: Err, code: Option<string>, constraint: Option<string>)
    requires IsTyped(err)
    ensures HandleCustomErrors(err.(code := code, constraint := constraint))
            == HandleCustomErrors(err)
    ensures HandleCustomErrors(err).Sent?
  {
  }

  /** Foreign-key violations are split by constraint: the article reference
      and the author reference each get their own 404. */
  lemma ForeignKeyViolations(constraint: string)
    ensures HandleCustomErrors(DbError(FOREIGN_KEY_VIOLATION, Some(ARTICLE_FOREIGN_KEY)))
            == Sent(Response(404, ARTICLE_DOES_NOT_EXIST))
    ensures HandleCustomErrors(DbError(FOREIGN_KEY_VIOLATION, Some(AUTHOR_FOREIGN_KEY)))
            == Sent(Response(404, USER_DOES_NOT_EXIST))
    ensures constraint != ARTICLE_FOREIGN_KEY && constraint != AUTHOR_FOREIGN_KEY
            ==> HandleCustomErrors(DbError(FOREIGN_KEY_VIOLATION, Some(constraint))) == Unanswered
  {
  }

  /** Only the failures with no typed status and message depend on the code:
      two untyped failures with the same code and constraint are treated
      alike, up to the failure passed on. */
  lemma UntypedDecidedByCode(e1: Err, e2: Err)
    requires !IsTyped(e1) && !IsTyped(e2)
    requires e1.code == e2.code && e1.constraint == e2.constraint
    ensures HandleCustomErrors(e1).Next? == HandleCustomErrors(e2).Next?
    ensures !HandleCustomErrors(e1).Next? ==> HandleCustomErrors(e1) == HandleCustomErrors(e2)
  {
  }
}
