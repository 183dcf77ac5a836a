/**
 * The service's error taxonomy (`ServiceError`), its HTTP status and
 * display text, and the conversions from database and token errors.
 */
module Errors {
  import opened Wrappers
  import opened Http

  datatype ServiceError =
    | InternalServerError
    | BadRequest(detail: string)
    | Unauthorized
    | NotFound
    | JsonWebTokenError

  /** A handler or helper outcome; `:-` plays the part of Rust's `?`. */
  datatype Result<T> = Ok(value: T) | Err(error: ServiceError) {
    predicate IsFailure() { Err? }

    function PropagateFailure<U>(): Result<U>
      requires Err?
    {
      Err(error)
    }

    function Extract(): T
      requires Ok?
    {
      value
    }
  }

  const BAD_REQUEST_PREFIX := "BadRequest: "

  /** The HTTP status of an error: the mapping is total onto four codes. */
  function StatusCode(e: ServiceError): (code: int)
    ensures code in {BAD_REQUEST, UNAUTHORIZED, NOT_FOUND, INTERNAL_SERVER_ERROR}
    ensures code == INTERNAL_SERVER_ERROR <==> e.InternalServerError? || e.JsonWebTokenError?
    ensures code == BAD_REQUEST <==> e.BadRequest?
    ensures code == NOT_FOUND <==> e.NotFound?
    ensures code == UNAUTHORIZED <==> e.Unauthorized?
  {
    match e
    case InternalServerError => INTERNAL_SERVER_ERROR
    case JsonWebTokenError => INTERNAL_SERVER_ERROR
    case BadRequest(_) => BAD_REQUEST
    case NotFound => NOT_FOUND
    case Unauthorized => UNAUTHORIZED
  }

  /** The display text of an error, which becomes the body of its response. */
  function Display(e: ServiceError): (text: string)
    ensures e.BadRequest? <==> |BAD_REQUEST_PREFIX| <= |text| && text[..|BAD_REQUEST_PREFIX|] == BAD_REQUEST_PREFIX
    ensures e.BadRequest? ==> text[|BAD_REQUEST_PREFIX|..] == e.detail
  {
    match e
    case InternalServerError =>
      assert "Internal Server Error"[0] != BAD_REQUEST_PREFIX[0];
      "Internal Server Error"
    case BadRequest(detail) => BAD_REQUEST_PREFIX + detail
    case Unauthorized => "Unauthorized"
    case NotFound => "NotFound"
    case JsonWebTokenError =>
      assert "jsonwebtoken error"[0] != BAD_REQUEST_PREFIX[0];
      "jsonwebtoken error"
  }

  /** Distinct errors display differently, so the body identifies the error. */
  lemma DisplayInjective(a: ServiceError, b: ServiceError)
    requires Display(a) == Display(b)
    ensures a == b
  {
    if a.BadRequest? {
      assert b.BadRequest?;
      assert a.detail == Display(a)[|BAD_REQUEST_PREFIX|..] == b.detail;
    } else {
      assert !b.BadRequest?;
    }
  }

  /** The response an error turns into: its status code and its display text as a JSON string. */
  function ErrorResponse(e: ServiceError): (r: Response)
    ensures r.status == StatusCode(e) && r.status != OK && r.status != CREATED
    ensures r.body == JsonBody(JStr(Display(e)))
  {
    Response(StatusCode(e), JsonBody(JStr(Display(e))))
  }

  /** Two errors with the same response are the same error. */
  lemma ErrorResponseInjective(a: ServiceError, b: ServiceError)
    requires ErrorResponse(a) == ErrorResponse(b)
    ensures a == b
  {
    assert Display(a) == ErrorResponse(a).body.value.s;
    DisplayInjective(a, b);
  }

  /** What the web framework sends for a handler's result. */
  function ToHttp(r: Result<Response>): (resp: Response)
    ensures r.Ok? ==> resp == r.value
    ensures r.Err? ==> resp == ErrorResponse(r.error)
  {
    match r
    case Ok(resp) => resp
    case Err(e) => ErrorResponse(e)
  }

  // Database errors, as the ORM reports them.

  datatype DbErrorKind =
    | UniqueViolation
    | ForeignKeyViolation
    | UnableToSendCommand
    | SerializationFailure
    | UnknownKind

  datatype DbErrorInfo = DbErrorInfo(message: string, details: Option<string>)

  datatype DbError =
    | DatabaseError(kind: DbErrorKind, info: DbErrorInfo)
    | RowNotFound
    | QueryBuilderError(reason: string)
    | OtherDbError(reason: string)

  /** A unique violation becomes a BadRequest carrying the details (or the message); anything else is internal. */
  function FromDbError(e: DbError): (r: ServiceError)
    ensures r.BadRequest? <==> e.DatabaseError? && e.kind == UniqueViolation
    ensures r.BadRequest? ==> r.detail == (if e.info.details.Some? then e.info.details.value else e.info.message)
    ensures !r.BadRequest? ==> r == InternalServerError
  {
    match e
    case DatabaseError(kind, info) =>
      if kind == UniqueViolation then
        BadRequest(match info.details case Some(d) => d case None => info.message)
      else
        InternalServerError
    case _ => InternalServerError
  }

  // Token errors, as the signed-token library reports them.

  datatype JwtError =
    | InvalidToken
    | InvalidSignature
    | ExpiredSignature
    | InvalidAlgorithm
    | OtherJwtError(reason: string)

  /** Every token error is one and the same service error, answered with 500. */
  function FromJwtError(e: JwtError): (r: ServiceError)
    ensures r == JsonWebTokenError && StatusCode(r) == INTERNAL_SERVER_ERROR
  {
    JsonWebTokenError
  }

  // Work handed to the blocking thread pool.

  datatype Blocking<T> = Finished(outcome: Result<T>) | Canceled

  /** A cancelled blocking task is an internal error; a finished one passes its own result through. */
  function FromBlocking<T>(b: Blocking<T>): (r: Result<T>)
    ensures b.Canceled? ==> r == Err(InternalServerError)
    ensures b.Finished? ==> r == b.outcome
  {
    match b
    case Canceled => Err(InternalServerError)
    case Finished(outcome) => outcome
  }
}
