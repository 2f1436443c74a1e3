/** The request handlers that change state. The database and the caller's session are the fields
    of one `Backend` object; each handler checks the session first, runs its statements against the
    tables through `Store`, and turns store failures into the `AppError` the handler returns. Every
    handler keeps `Valid`: the tables satisfy every rule of the database, and a logged-in session
    names an existing user. */
module Handlers {
  import opened Prelude
  import opened Models
  import opened Schema
  import opened Store
  import opened Lib
  import opened Text

  /** The longest user name accepted, in bytes of its UTF-8 encoding. */
  const MaxUserNameBytes: nat := 100

  const SessionConflictText: string := "A practice session at that time already exists"
  const PieceConflictText: string := "That piece is already registered in the database"
  const LinkConflictText: string := "Entry already exists"
  const PieceNotFoundText: string := "Piece not found"
  const UserConflictText: string := "A user with that name already exists"

  /** The body of a successful delete: `success` is whether a row was deleted. */
  datatype DeleteReply = DeleteReply(success: bool, numDeleted: nat)

  datatype DeletePracticeSessionReply =
    DeletePracticeSessionReply(success: bool, numDeleted: nat, piecesPracticedMappingsDeleted: nat)

  /** The user as a successful create-user or login reports it: never the password hash. */
  datatype UserInfo = UserInfo(userId: int, userName: string)

  class Backend {
    var users: seq<User>
    var pieces: seq<Piece>
    var practiceSessions: seq<PracticeSession>
    var piecesPracticed: seq<PiecePracticedMapping>
    var nextUserId: int
    var nextPieceId: int
    var nextPracticeSessionId: int
    /** The `user_id` stored in the caller's session, if they are logged in. */
    var sessionUserId: Option<int>

    function Snapshot(): Tables
      reads this
    {
      Tables(users, pieces, practiceSessions, piecesPracticed, nextUserId, nextPieceId, nextPracticeSessionId)
    }

    ghost predicate Valid()
      reads this
    {
      && Consistent(Snapshot())
      && (sessionUserId.Some? ==> HasUser(users, sessionUserId.value))
    }

    /** A fresh database and a caller who is not logged in. */
    constructor()
      ensures Valid()
      ensures Snapshot() == EmptyTables()
      ensures sessionUserId == None
    {
      users := [];
      pieces := [];
      practiceSessions := [];
      piecesPracticed := [];
      nextUserId := 1;
      nextPieceId := 1;
      nextPracticeSessionId := 1;
      sessionUserId := None;
    }

    /** Commits a new state of the tables; the session is untouched. */
    method SetTables(t: Tables)
      modifies this
      ensures Snapshot() == t
      ensures sessionUserId == old(sessionUserId)
    {
      users := t.users;
      pieces := t.pieces;
      practiceSessions := t.practiceSessions;
      piecesPracticed := t.piecesPracticed;
      nextUserId := t.nextUserId;
      nextPieceId := t.nextPieceId;
      nextPracticeSessionId := t.nextPracticeSessionId;
    }

    /** `create_practice_session`: inserts one practice session owned by the caller. The pieces of
        the request are not linked to it, and since the caller exists the foreign key on
        `user_id` never fails, so the only failures are the session, the duration and a second
        session of the caller at the same start. */
    method CreatePracticeSession(data: NewPracticeSessionData) returns (r: Result<PracticeSession>)
      requires Valid()
      modifies this
      ensures Valid()
      ensures sessionUserId == old(sessionUserId)
      ensures users == old(users) && pieces == old(pieces) && piecesPracticed == old(piecesPracticed)
      ensures nextUserId == old(nextUserId) && nextPieceId == old(nextPieceId)
      ensures old(sessionUserId).None? ==> r == Err(Unauthorized)
      ensures old(sessionUserId).Some? && data.durationMins > I32Max ==>
        r == Err(ClientError("Invalid practice session duration"))
      ensures old(sessionUserId).None? || data.durationMins > I32Max ==>
        nextPracticeSessionId == old(nextPracticeSessionId)
      ensures old(sessionUserId).Some? && data.durationMins <= I32Max ==>
        && nextPracticeSessionId == old(nextPracticeSessionId) + 1
        && (r.Ok? <==> !StartTaken(old(practiceSessions), old(sessionUserId).value, data.startDatetime))
        && (r.Err? ==> r.error == Conflict(SessionConflictText))
      ensures r.Ok? ==>
        && r.value == PracticeSession(old(nextPracticeSessionId), data.startDatetime, data.durationMins,
                                      data.instrument, old(sessionUserId).value)
        && practiceSessions == old(practiceSessions) + [r.value]
      ensures r.Err? ==> practiceSessions == old(practiceSessions)
    {
      var userId := GetUserId(sessionUserId);
      if userId.Err? {
        return Err(userId.error);
      }
      var ins := MakeInsertable(data, userId.value);
      if ins.Err? {
        return Err(ins.error);
      }
      var t := Snapshot();
      InsertPracticeSessionKeepsRules(t, ins.value);
      var o := InsertPracticeSession(t, ins.value);
      SetTables(AfterInsertPracticeSession(t, o));
      match o
      case Done(s) => r := Ok(s);
      case Fail(UniqueViolation(_)) => r := Err(Conflict(SessionConflictText));
      case Fail(f) => r := Err(BackendError(FailureText(f)));
    }

    /** `delete_practice_session`: after the ownership check, deletes the session's link rows and
        then the session itself. With the links gone the second delete cannot violate a foreign
        key, and exactly one row is deleted. */
    method DeletePracticeSession(practiceSessionId: int) returns (r: Result<DeletePracticeSessionReply>)
      requires Valid()
      modifies this
      ensures Valid()
      ensures sessionUserId == old(sessionUserId)
      ensures users == old(users) && pieces == old(pieces)
      ensures nextUserId == old(nextUserId) && nextPieceId == old(nextPieceId)
      ensures nextPracticeSessionId == old(nextPracticeSessionId)
      ensures old(sessionUserId).None? ==> r == Err(Unauthorized)
      ensures old(sessionUserId).Some? ==>
        (r.Ok? <==> OwnsPracticeSession(old(practiceSessions), practiceSessionId, old(sessionUserId).value))
      ensures old(sessionUserId).Some? && r.Err? ==> r.error == NotFound(PracticeSessionNotFoundText)
      ensures r.Err? ==> practiceSessions == old(practiceSessions) && piecesPracticed == old(piecesPracticed)
      ensures r.Ok? ==>
        && r.value == DeletePracticeSessionReply(true, 1,
                        Count(old(piecesPracticed), OfPracticeSession(practiceSessionId)))
        && piecesPracticed == Filter(old(piecesPracticed), NotOfPracticeSession(practiceSessionId))
        && practiceSessions == Filter(old(practiceSessions),
                                      NotThisOwnedSession(practiceSessionId, old(sessionUserId).value))
        && |practiceSessions| == |old(practiceSessions)| - 1
        && !HasPracticeSession(practiceSessions, practiceSessionId)
    {
      var userId := GetUserId(sessionUserId);
      if userId.Err? {
        return Err(userId.error);
      }
      var uid := userId.value;
      var owner := VerifyPracticeSessionOwnership(practiceSessions, practiceSessionId, uid);
      if owner.Err? {
        return Err(owner.error);
      }
      var t := Snapshot();

      // the link rows first...
      var links := DeleteLinksOfPracticeSession(t, practiceSessionId);
      DeleteLinksKeepRules(t, NotOfPracticeSession(practiceSessionId));
      var linksDeleted := |t.piecesPracticed| - |links|;
      var t1 := t.(piecesPracticed := links);
      SetTables(t1);

      // ...then the session, which nothing refers to any more
      DeleteOwnedPracticeSessionKeepsRules(t1, practiceSessionId, uid);
      var o := DeleteOwnedPracticeSession(t1, practiceSessionId, uid);
      // the foreign-key failure that `map_backend_err!` would report cannot happen here
      assert o.Done?;
      var rest := o.value;
      var owned :| owned in t1.practiceSessions && ThisOwnedSession(practiceSessionId, uid)(owned);
      CountUnique(t1.practiceSessions, ThisOwnedSession(practiceSessionId, uid), owned);
      CountComplement(t1.practiceSessions, ThisOwnedSession(practiceSessionId, uid),
                      NotThisOwnedSession(practiceSessionId, uid));
      var rowsDeleted := |t1.practiceSessions| - |rest|;
      SetTables(t1.(practiceSessions := rest));
      r := Ok(DeletePracticeSessionReply(rowsDeleted > 0, rowsDeleted, linksDeleted));
    }

    /** `create_piece`: a logged-in caller registers a piece; a second piece with the same title
        and composer is a conflict. */
    method CreatePiece(newPiece: InsertablePiece) returns (r: Result<Piece>)
      requires Valid()
      modifies this
      ensures Valid()
      ensures sessionUserId == old(sessionUserId)
      ensures users == old(users) && practiceSessions == old(practiceSessions)
      ensures piecesPracticed == old(piecesPracticed)
      ensures nextUserId == old(nextUserId) && nextPracticeSessionId == old(nextPracticeSessionId)
      ensures old(sessionUserId).None? ==> r == Err(Unauthorized) && nextPieceId == old(nextPieceId)
      ensures old(sessionUserId).Some? ==>
        && nextPieceId == old(nextPieceId) + 1
        && (r.Ok? <==> !PieceKeyTaken(old(pieces), newPiece))
        && (r.Err? ==> r.error == Conflict(PieceConflictText))
      ensures r.Ok? ==>
        && r.value == Piece(old(nextPieceId), newPiece.title, newPiece.composer)
        && pieces == old(pieces) + [r.value]
      ensures r.Err? ==> pieces == old(pieces)
    {
      var userId := GetUserId(sessionUserId);
      if userId.Err? {
        return Err(userId.error);
      }
      var t := Snapshot();
      InsertPieceKeepsRules(t, newPiece);
      var o := InsertPiece(t, newPiece);
      SetTables(AfterInsertPiece(t, o));
      match o
      case Done(p) => r := Ok(p);
      case Fail(UniqueViolation(_)) => r := Err(Conflict(PieceConflictText));
      case Fail(f) => r := Err(BackendError(FailureText(f)));
    }

    /** `delete_piece`: needs no login. A piece that a practice session still refers to is not
        deleted and the foreign-key failure is reported as a backend error; otherwise the piece
        with that id, if there is one, is deleted. */
    method DeletePiece(pieceId: int) returns (r: Result<DeleteReply>)
      requires Valid()
      modifies this
      ensures Valid()
      ensures sessionUserId == old(sessionUserId)
      ensures users == old(users) && practiceSessions == old(practiceSessions)
      ensures piecesPracticed == old(piecesPracticed)
      ensures nextUserId == old(nextUserId) && nextPieceId == old(nextPieceId)
      ensures nextPracticeSessionId == old(nextPracticeSessionId)
      ensures r.Err? <==> LinkedToPiece(old(piecesPracticed), pieceId)
      ensures r.Err? ==> r.error == BackendError(ForeignKeyViolationText) && pieces == old(pieces)
      ensures r.Ok? ==>
        && pieces == Filter(old(pieces), NotThisPiece(pieceId))
        && !HasPiece(pieces, pieceId)
        && (r.value.success <==> HasPiece(old(pieces), pieceId))
        && r.value.numDeleted == (if HasPiece(old(pieces), pieceId) then 1 else 0)
    {
      var t := Snapshot();
      Store.DeletePieceKeepsRules(t, pieceId);
      var rest := MapBackendErr(Store.DeletePiece(t, pieceId));
      if rest.Err? {
        return Err(rest.error);
      }
      if HasPiece(t.pieces, pieceId) {
        var p :| p in t.pieces && p.pieceId == pieceId;
        CountUnique(t.pieces, IsPiece(pieceId), p);
      }
      CountComplement(t.pieces, IsPiece(pieceId), NotThisPiece(pieceId));
      var rowsDeleted := |t.pieces| - |rest.value|;
      SetTables(t.(pieces := rest.value));
      r := Ok(DeleteReply(rowsDeleted > 0, rowsDeleted));
    }

    /** `create_piece_practiced`: links a piece to one of the caller's practice sessions. The
        ownership check has shown that the session exists, so a foreign-key failure can only
        mean a missing piece. */
    method CreatePiecePracticed(m: PiecePracticedMapping) returns (r: Result<nat>)
      requires Valid()
      modifies this
      ensures Valid()
      ensures sessionUserId == old(sessionUserId)
      ensures users == old(users) && pieces == old(pieces) && practiceSessions == old(practiceSessions)
      ensures nextUserId == old(nextUserId) && nextPieceId == old(nextPieceId)
      ensures nextPracticeSessionId == old(nextPracticeSessionId)
      ensures old(sessionUserId).None? ==> r == Err(Unauthorized)
      ensures old(sessionUserId).Some? ==>
        var uid := old(sessionUserId).value;
        && (!OwnsPracticeSession(old(practiceSessions), m.practiceSessionId, uid) ==>
              r == Err(NotFound(PracticeSessionNotFoundText)))
        && (OwnsPracticeSession(old(practiceSessions), m.practiceSessionId, uid) ==>
              && (m in old(piecesPracticed) ==> r == Err(Conflict(LinkConflictText)))
              && (m !in old(piecesPracticed) && !HasPiece(old(pieces), m.pieceId) ==>
                    r == Err(ClientError(PieceNotFoundText)))
              && (m !in old(piecesPracticed) && HasPiece(old(pieces), m.pieceId) ==> r == Ok(1)))
      ensures r.Ok? ==> piecesPracticed == old(piecesPracticed) + [m]
      ensures r.Err? ==> piecesPracticed == old(piecesPracticed)
    {
      var userId := GetUserId(sessionUserId);
      if userId.Err? {
        return Err(userId.error);
      }
      var owner := VerifyPracticeSessionOwnership(practiceSessions, m.practiceSessionId, userId.value);
      if owner.Err? {
        return Err(owner.error);
      }
      var t := Snapshot();
      InsertLinkKeepsRules(t, m);
      var o := InsertLink(t, m);
      SetTables(AfterInsertLink(t, m, o));
      match o
      case Done(n) => r := Ok(n);
      case Fail(UniqueViolation(_)) => r := Err(Conflict(LinkConflictText));
      case Fail(ForeignKeyViolation(_)) => r := Err(ClientError(PieceNotFoundText));
      case Fail(f) => r := Err(BackendError(FailureText(f)));
    }

    /** `delete_piece_practiced`: removes one link row of one of the caller's practice sessions. */
    method DeletePiecePracticed(practiceSessionId: int, pieceId: int) returns (r: Result<DeleteReply>)
      requires Valid()
      modifies this
      ensures Valid()
      ensures sessionUserId == old(sessionUserId)
      ensures users == old(users) && pieces == old(pieces) && practiceSessions == old(practiceSessions)
      ensures nextUserId == old(nextUserId) && nextPieceId == old(nextPieceId)
      ensures nextPracticeSessionId == old(nextPracticeSessionId)
      ensures old(sessionUserId).None? ==> r == Err(Unauthorized)
      ensures old(sessionUserId).Some? ==>
        (r.Ok? <==> OwnsPracticeSession(old(practiceSessions), practiceSessionId, old(sessionUserId).value))
      ensures old(sessionUserId).Some? && r.Err? ==> r.error == NotFound(PracticeSessionNotFoundText)
      ensures r.Err? ==> piecesPracticed == old(piecesPracticed)
      ensures r.Ok? ==>
        var m := PiecePracticedMapping(practiceSessionId, pieceId);
        && piecesPracticed == Filter(old(piecesPracticed), NotThisLink(m))
        && m !in piecesPracticed
        && (r.value.success <==> m in old(piecesPracticed))
        && r.value.numDeleted == (if m in old(piecesPracticed) then 1 else 0)
    {
      var userId := GetUserId(sessionUserId);
      if userId.Err? {
        return Err(userId.error);
      }
      var owner := VerifyPracticeSessionOwnership(practiceSessions, practiceSessionId, userId.value);
      if owner.Err? {
        return Err(owner.error);
      }
      var t := Snapshot();
      var m := PiecePracticedMapping(practiceSessionId, pieceId);
      var rest := DeleteLink(t, m);
      DeleteLinksKeepRules(t, NotThisLink(m));
      if m in t.piecesPracticed {
        CountUnique(t.piecesPracticed, ThisLink(m), m);
      }
      CountComplement(t.piecesPracticed, ThisLink(m), NotThisLink(m));
      var rowsDeleted := |t.piecesPracticed| - |rest|;
      SetTables(t.(piecesPracticed := rest));
      r := Ok(DeleteReply(rowsDeleted > 0, rowsDeleted));
    }

    /** `create_user`: registers a user while nobody is logged in, storing `hashed`, the outcome of
        hashing the password with a fresh random salt. The caller stays logged out. */
    method CreateUser(credentials: Credentials, hashed: Outcome<string>) returns (r: Result<UserInfo>)
      requires Valid()
      modifies this
      ensures Valid()
      ensures sessionUserId == old(sessionUserId)
      ensures pieces == old(pieces) && practiceSessions == old(practiceSessions)
      ensures piecesPracticed == old(piecesPracticed)
      ensures nextPieceId == old(nextPieceId) && nextPracticeSessionId == old(nextPracticeSessionId)
      ensures old(sessionUserId).Some? ==> r == Err(Forbidden("Cannot create a new user while logged in"))
      ensures old(sessionUserId).None? && Utf8Length(credentials.userName) > MaxUserNameBytes ==>
        r == Err(ClientError("User name too long"))
      ensures old(sessionUserId).None? && Utf8Length(credentials.userName) <= MaxUserNameBytes && hashed.Fail? ==>
        r == Err(BackendError(FailureText(hashed.failure)))
      ensures old(sessionUserId).Some? || Utf8Length(credentials.userName) > MaxUserNameBytes || hashed.Fail? ==>
        nextUserId == old(nextUserId)
      ensures old(sessionUserId).None? && Utf8Length(credentials.userName) <= MaxUserNameBytes && hashed.Done? ==>
        && nextUserId == old(nextUserId) + 1
        && (r.Ok? <==> !UserNameTaken(old(users), credentials.userName))
        && (r.Err? ==> r.error == Conflict(UserConflictText))
      ensures r.Ok? ==>
        && r.value == UserInfo(old(nextUserId), credentials.userName)
        && users == old(users) + [User(old(nextUserId), credentials.userName, hashed.value)]
      ensures r.Err? ==> users == old(users)
    {
      var userId := GetUserId(sessionUserId);
      if userId.Ok? {
        return Err(Forbidden("Cannot create a new user while logged in"));
      }
      if Utf8Length(credentials.userName) > MaxUserNameBytes {
        return Err(ClientError("User name too long"));
      }
      var hash := MapBackendErr(hashed);
      if hash.Err? {
        return Err(hash.error);
      }
      var t := Snapshot();
      InsertUserKeepsRules(t, credentials.userName, hash.value);
      var o := InsertUser(t, credentials.userName, hash.value);
      SetTables(AfterInsertUser(t, o));
      match o
      case Done(u) => r := Ok(UserInfo(u.userId, u.userName));
      case Fail(UniqueViolation(_)) => r := Err(Conflict(UserConflictText));
      case Fail(f) => r := Err(BackendError(FailureText(f)));
    }

    /** `login`: looks the user up by name and checks the password with `verify`, the outcome of
        checking a password against a stored hash. On success the session holds that user's id.
        An unknown name and a wrong password give the same `LoginError`. */
    method Login(credentials: Credentials, verify: (string, string) -> Outcome<bool>) returns (r: Result<UserInfo>)
      requires Valid()
      modifies this
      ensures Valid()
      ensures Snapshot() == old(Snapshot())
      ensures old(sessionUserId).Some? ==> r == Err(Forbidden("Already logged in"))
      ensures old(sessionUserId).None? && !UserNameTaken(users, credentials.userName) ==> r == Err(LoginError)
      ensures r.Ok? <==>
        && old(sessionUserId).None?
        && exists u :: u in users && u.userName == credentials.userName
                       && verify(u.passwordHash, credentials.password) == Done(true)
      ensures r.Ok? ==>
        && r.value.userName == credentials.userName
        && (forall u :: u in users && u.userName == credentials.userName ==> u.userId == r.value.userId)
        && sessionUserId == Some(r.value.userId)
      ensures old(sessionUserId).None? ==>
        forall u :: u in users && u.userName == credentials.userName ==>
          && (verify(u.passwordHash, credentials.password) == Done(false) ==> r == Err(LoginError))
          && (verify(u.passwordHash, credentials.password).Fail? ==>
                r == Err(BackendError(FailureText(verify(u.passwordHash, credentials.password).failure))))
      ensures r.Err? ==> sessionUserId == old(sessionUserId)
      ensures r.Err? ==> r.error.Forbidden? || r.error.LoginError? || r.error.BackendError?
      ensures r.Err? && r.error.Forbidden? ==> old(sessionUserId).Some?
    {
      var userId := GetUserId(sessionUserId);
      if userId.Ok? {
        return Err(Forbidden("Already logged in"));
      }
      var user: User;
      match FirstUserNamed(users, credentials.userName)
      case Fail(RecordNotFound) => return Err(LoginError);
      case Fail(f) => return Err(BackendError(FailureText(f)));
      case Done(u) => user := u;
      var success := MapBackendErr(verify(user.passwordHash, credentials.password));
      if success.Err? {
        return Err(success.error);
      }
      if success.value {
        sessionUserId := Some(user.userId);
        r := Ok(UserInfo(user.userId, user.userName));
      } else {
        r := Err(LoginError);
      }
    }

    /** `logout`: ends a logged-in session; without one it is `Unauthorized`. */
    method Logout() returns (r: Result<()>)
      requires Valid()
      modifies this
      ensures Valid()
      ensures Snapshot() == old(Snapshot())
      ensures r.Err? <==> old(sessionUserId).None?
      ensures r.Err? ==> r.error == Unauthorized && sessionUserId == old(sessionUserId)
      ensures r.Ok? ==> sessionUserId == None && GetUserId(sessionUserId) == Err(Unauthorized)
    {
      var userId := GetUserId(sessionUserId);
      if userId.Err? {
        return Err(userId.error);
      }
      sessionUserId := None;
      r := Ok(());
    }
  }
}
