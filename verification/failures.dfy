/** The values a rejected promise carries in the API: a rejection the models
    build themselves (`{status, msg}`), or an error raised by the PostgreSQL
    driver (`{code, constraint}`). Fields a value lacks are `None`. */
module Failures {
  import opened Results
  import opened Schema

  datatype Err = Err(
    status: Option<int>,
    msg: Option<string>,
    code: Option<string>,
    constraint: Option<string>)

  /** A rejection built by a model: `Promise.reject({ status, msg })`. */
  function Reject(status: int, msg: string): Err
  {
    Err(Some(status), Some(msg), None, None)
  }

  /** An error raised by the database, identified by its SQLSTATE code. */
  function DbError(code: string, constraint: Option<string>): Err
  {
    Err(None, None, Some(code), constraint)
  }

  /** SQLSTATE codes (PostgreSQL, Appendix A "Error Codes"). */
  const INVALID_TEXT_REPRESENTATION: string := "22P02"
  const NUMERIC_VALUE_OUT_OF_RANGE: string := "22003"
  const FOREIGN_KEY_VIOLATION: string := "23503"

  /** A parameter bound to an INTEGER column: absent (`undefined`, sent as
      NULL), text that does not parse as an integer, or an integer. */
  datatype IdArg = Undefined | NotAnInteger | Integer(n: int)

  /** What PostgreSQL makes of an id parameter: `None` for an absent one,
      the integer for a well-formed one, and the error it raises otherwise. */
  function BindId(id: IdArg): (r: Result<Option<int>, Err>)
    ensures r.Ok? <==> id.Undefined? || (id.Integer? && InInt4(id.n))
    ensures r.Ok? && id.Integer? ==> r.value == Some(id.n)
    ensures id.Undefined? ==> r == Ok(None)
    ensures id.NotAnInteger? ==> r == Error(DbError(INVALID_TEXT_REPRESENTATION, None))
    ensures id.Integer? && !InInt4(id.n) ==> r == Error(DbError(NUMERIC_VALUE_OUT_OF_RANGE, None))
  {
    match id
    case Undefined => Ok(None)
    case NotAnInteger => Error(DbError(INVALID_TEXT_REPRESENTATION, None))
    case Integer(n) =>
      if InInt4(n) then Ok(Some(n)) else Error(DbError(NUMERIC_VALUE_OUT_OF_RANGE, None))
  }
}
