/** The library half of the backend: the error taxonomy and its HTTP responses, the session and
    error-mapping helpers every handler uses, the ownership guard, and the conversions between
    client payloads and rows. */
module Lib {
  import opened Prelude
  import opened Models
  import opened Schema
  import opened Store

  /** The errors a handler can return. */
  datatype AppError =
    | BackendError(info: string)
    | ClientError(info: string)
    | LoginError
    | Unauthorized
    | Forbidden(info: string)
    | Conflict(info: string)
    | NotFound(info: string)

  /** A handler's result: its JSON payload, or the error it returns. */
  datatype Result<T> = Ok(value: T) | Err(error: AppError)

  /** An error response: the HTTP status and the JSON body `{"success": …, "error": …}`. */
  datatype ErrorResponse = ErrorResponse(status: int, success: bool, error: string)

  const ServerErrorText: string := "Server error"
  const PracticeSessionNotFoundText: string := "Practice session not found"

  /** `IntoResponse for AppError`: each kind has its own status; a backend error never shows its
      detail to the client, the kinds carrying a client-facing message echo it. */
  function IntoResponse(e: AppError): (r: ErrorResponse)
    ensures !r.success
    ensures r.status == 500 <==> e.BackendError?
    ensures r.status == 400 <==> e.ClientError?
    ensures r.status == 401 <==> e.LoginError? || e.Unauthorized?
    ensures r.status == 403 <==> e.Forbidden?
    ensures r.status == 409 <==> e.Conflict?
    ensures r.status == 404 <==> e.NotFound?
    ensures 500 <= r.status < 600 <==> e.BackendError?
    ensures 400 <= r.status < 500 <==> !e.BackendError?
    ensures e.BackendError? ==> r == ErrorResponse(500, false, ServerErrorText)
    ensures e.ClientError? || e.Forbidden? || e.Conflict? || e.NotFound? ==> r.error == e.info
    ensures e.LoginError? ==> r.error == "Invalid login credentials"
    ensures e.Unauthorized? ==> r.error == "Unauthorized"
  {
    match e
    case BackendError(_) => ErrorResponse(500, false, ServerErrorText)
    case ClientError(info) => ErrorResponse(400, false, info)
    case LoginError => ErrorResponse(401, false, "Invalid login credentials")
    case Unauthorized => ErrorResponse(401, false, "Unauthorized")
    case Forbidden(info) => ErrorResponse(403, false, info)
    case Conflict(info) => ErrorResponse(409, false, info)
    case NotFound(info) => ErrorResponse(404, false, info)
  }

  /** `get_user_id!`: the logged-in user's id from the session slot, or `Unauthorized`. */
  function GetUserId(session: Option<int>): (r: Result<int>)
    ensures r.Err? <==> session.None?
    ensures r.Err? ==> r.error == Unauthorized
    ensures r.Ok? ==> session == Some(r.value)
  {
    match session
    case Some(id) => Ok(id)
    case None => Err(Unauthorized)
  }

  /** `map_backend_err!`: any failure becomes a `BackendError` carrying its text; a success is
      passed through unchanged. */
  function MapBackendErr<T>(o: Outcome<T>): (r: Result<T>)
    ensures r.Ok? <==> o.Done?
    ensures r.Ok? ==> r.value == o.value
    ensures r.Err? ==> r.error == BackendError(FailureText(o.failure))
  {
    match o
    case Done(v) => Ok(v)
    case Fail(f) => Err(BackendError(FailureText(f)))
  }

  /** `verify_practice_session_ownership`: one lookup on id and owner together, so a session
      that does not exist and one owned by someone else give the same `NotFound`. On success it
      yields the selected `user_id` column, which is the caller's own id (not the practice
      session's id). */
  function VerifyPracticeSessionOwnership(ss: seq<PracticeSession>, practiceSessionId: int, currentUserId: int)
    : (r: Result<int>)
    ensures r.Ok? <==> OwnsPracticeSession(ss, practiceSessionId, currentUserId)
    ensures r.Ok? ==> r.value == currentUserId
    ensures r.Err? ==> r.error == NotFound(PracticeSessionNotFoundText)
  {
    match FirstOwnerOf(ss, practiceSessionId, currentUserId)
    case Done(userId) => Ok(userId)
    case Fail(RecordNotFound) => Err(NotFound(PracticeSessionNotFoundText))
    case Fail(f) => Err(BackendError(FailureText(f)))
  }

  /** The body of a create-practice-session request. */
  datatype NewPracticeSessionData = NewPracticeSessionData(
    startDatetime: Timestamp,
    durationMins: U32,
    instrument: string,
    piecesPracticed: seq<Piece>)

  /** `make_insertable`: the row to insert for `userId`; the duration must fit an `i32`. The
      `piecesPracticed` of the request plays no part. */
  function MakeInsertable(data: NewPracticeSessionData, userId: int): (r: Result<InsertablePracticeSession>)
    ensures r.Err? <==> data.durationMins > I32Max
    ensures r.Err? ==> r.error == ClientError("Invalid practice session duration")
    ensures r.Ok? ==> r.value.userId == userId
    ensures r.Ok? ==> r.value.startDatetime == data.startDatetime && r.value.instrument == data.instrument
    ensures r.Ok? ==> r.value.durationMins == data.durationMins
  {
    if data.durationMins > I32Max then Err(ClientError("Invalid practice session duration"))
    else Ok(InsertablePracticeSession(data.startDatetime, data.durationMins, data.instrument, userId))
  }

  /** The body of a create-user or login request. */
  datatype Credentials = Credentials(userName: string, password: string)

  /** A practice session as it is returned to the client, with the pieces practiced in it. */
  datatype PracticeSessionWithPieces = PracticeSessionWithPieces(
    startDatetime: Timestamp,
    durationMins: int,
    instrument: string,
    practiceSessionId: int,
    userId: int,
    piecesPracticed: seq<Piece>)
  {
    /** The five practice-session columns. */
    function Session(): PracticeSession {
      PracticeSession(practiceSessionId, startDatetime, durationMins, instrument, userId)
    }
  }

  /** `PracticeSessionWithPieces::new`: the session's columns unchanged, the pieces attached as
      given. */
  function WithPieces(s: PracticeSession, pieces: seq<Piece>): (r: PracticeSessionWithPieces)
    ensures r.Session() == s
    ensures r.piecesPracticed == pieces
  {
    PracticeSessionWithPieces(s.startDatetime, s.durationMins, s.instrument, s.practiceSessionId, s.userId, pieces)
  }
}
