/** What the database does with each statement the handlers send it: which failure an insert or
    delete raises, which rows a `first()` lookup returns, and how the tables change. Each statement
    is a function of the snapshot it runs on; the lemmas show that the store accepts a change
    exactly when the result still satisfies every rule of `Schema.Consistent`. */
module Store {
  import opened Prelude
  import opened Models
  import opened Schema

  /** The failures of a Diesel call that the handlers tell apart (`diesel::result::Error`). */
  datatype Failure =
    | UniqueViolation(message: string)
    | ForeignKeyViolation(message: string)
    | RecordNotFound
    | OtherFailure(message: string)

  /** The result of a fallible call into the database or a library. */
  datatype Outcome<T> = Done(value: T) | Fail(failure: Failure)

  const UniqueViolationText: string := "duplicate key value violates unique constraint"
  const ForeignKeyViolationText: string := "violates foreign key constraint"

  /** The failure's `to_string()`. */
  function FailureText(f: Failure): string {
    match f
    case UniqueViolation(m) => m
    case ForeignKeyViolation(m) => m
    case RecordNotFound => "Record not found"
    case OtherFailure(m) => m
  }

  // ---- lookups (`.first()`) --------------------------------------------------------------

  /** `users.filter(user_name.eq(name)).first()`. */
  function FirstUserNamed(us: seq<User>, userName: string): (r: Outcome<User>)
    ensures r.Done? <==> UserNameTaken(us, userName)
    ensures r.Done? ==> r.value in us && r.value.userName == userName
    ensures r.Fail? ==> r.failure == RecordNotFound
    decreases |us|
  {
    if us == [] then Fail(RecordNotFound)
    else if us[0].userName == userName then Done(us[0])
    else
      var r := FirstUserNamed(us[1..], userName);
      assert UserNameTaken(us, userName) ==> UserNameTaken(us[1..], userName) by {
        if UserNameTaken(us, userName) {
          var u :| u in us && u.userName == userName;
          assert u in us[1..];
        }
      }
      r
  }

  /** `practice_sessions.select(user_id).filter(user_id.eq(userId))
      .filter(practice_session_id.eq(practiceSessionId)).first()`. */
  function FirstOwnerOf(ss: seq<PracticeSession>, practiceSessionId: int, userId: int): (r: Outcome<int>)
    ensures r.Done? <==> OwnsPracticeSession(ss, practiceSessionId, userId)
    ensures r.Done? ==> r.value == userId
    ensures r.Fail? ==> r.failure == RecordNotFound
    decreases |ss|
  {
    if ss == [] then Fail(RecordNotFound)
    else if ss[0].userId == userId && ss[0].practiceSessionId == practiceSessionId then Done(ss[0].userId)
    else
      var r := FirstOwnerOf(ss[1..], practiceSessionId, userId);
      assert OwnsPracticeSession(ss, practiceSessionId, userId) ==>
             OwnsPracticeSession(ss[1..], practiceSessionId, userId) by {
        if OwnsPracticeSession(ss, practiceSessionId, userId) {
          var s :| s in ss && s.practiceSessionId == practiceSessionId && s.userId == userId;
          assert s in ss[1..];
        }
      }
      r
  }

  // ---- inserts ---------------------------------------------------------------------------
  // Every insert draws the next id from its table's generator before the constraints are
  // checked, so a rejected insert still uses up an id. Uniqueness is checked before foreign keys.

  function InsertUser(t: Tables, userName: string, passwordHash: string): (r: Outcome<User>)
    ensures r.Done? ==> r.value == User(t.nextUserId, userName, passwordHash)
    ensures r.Fail? ==> r.failure.UniqueViolation?
  {
    if UserNameTaken(t.users, userName) then Fail(UniqueViolation(UniqueViolationText))
    else Done(User(t.nextUserId, userName, passwordHash))
  }

  function AfterInsertUser(t: Tables, r: Outcome<User>): Tables {
    var t' := t.(nextUserId := t.nextUserId + 1);
    if r.Done? then t'.(users := t.users + [r.value]) else t'
  }

  lemma InsertUserKeepsRules(t: Tables, userName: string, passwordHash: string)
    requires Consistent(t)
    ensures Consistent(AfterInsertUser(t, InsertUser(t, userName, passwordHash)))
    ensures var u := User(t.nextUserId, userName, passwordHash);
            InsertUser(t, userName, passwordHash).Done? <==>
            Consistent(t.(nextUserId := t.nextUserId + 1, users := t.users + [u]))
  {
  }

  function InsertPiece(t: Tables, ins: InsertablePiece): (r: Outcome<Piece>)
    ensures r.Done? ==> r.value == MaterializePiece(t.nextPieceId, ins)
    ensures r.Fail? ==> r.failure.UniqueViolation?
  {
    if PieceKeyTaken(t.pieces, ins) then Fail(UniqueViolation(UniqueViolationText))
    else Done(MaterializePiece(t.nextPieceId, ins))
  }

  function AfterInsertPiece(t: Tables, r: Outcome<Piece>): Tables {
    var t' := t.(nextPieceId := t.nextPieceId + 1);
    if r.Done? then t'.(pieces := t.pieces + [r.value]) else t'
  }

  lemma InsertPieceKeepsRules(t: Tables, ins: InsertablePiece)
    requires Consistent(t)
    ensures Consistent(AfterInsertPiece(t, InsertPiece(t, ins)))
    ensures var p := MaterializePiece(t.nextPieceId, ins);
            InsertPiece(t, ins).Done? <==>
            Consistent(t.(nextPieceId := t.nextPieceId + 1, pieces := t.pieces + [p]))
  {
  }

  function InsertPracticeSession(t: Tables, ins: InsertablePracticeSession): (r: Outcome<PracticeSession>)
    ensures r.Done? ==> r.value == MaterializeSession(t.nextPracticeSessionId, ins)
    ensures r.Fail? ==> r.failure.UniqueViolation? || r.failure.ForeignKeyViolation?
  {
    if StartTaken(t.practiceSessions, ins.userId, ins.startDatetime) then
      Fail(UniqueViolation(UniqueViolationText))
    else if !HasUser(t.users, ins.userId) then
      Fail(ForeignKeyViolation(ForeignKeyViolationText))
    else
      Done(MaterializeSession(t.nextPracticeSessionId, ins))
  }

  function AfterInsertPracticeSession(t: Tables, r: Outcome<PracticeSession>): Tables {
    var t' := t.(nextPracticeSessionId := t.nextPracticeSessionId + 1);
    if r.Done? then t'.(practiceSessions := t.practiceSessions + [r.value]) else t'
  }

  lemma InsertPracticeSessionKeepsRules(t: Tables, ins: InsertablePracticeSession)
    requires Consistent(t)
    ensures Consistent(AfterInsertPracticeSession(t, InsertPracticeSession(t, ins)))
    ensures var s := MaterializeSession(t.nextPracticeSessionId, ins);
            InsertPracticeSession(t, ins).Done? <==>
            Consistent(t.(nextPracticeSessionId := t.nextPracticeSessionId + 1,
                          practiceSessions := t.practiceSessions + [s]))
  {
  }

  /** `INSERT INTO pieces_practiced`; on success `execute` reports one row. */
  function InsertLink(t: Tables, m: PiecePracticedMapping): (r: Outcome<nat>)
    ensures r.Done? ==> r.value == 1
    ensures r.Fail? ==> r.failure.UniqueViolation? || r.failure.ForeignKeyViolation?
  {
    if m in t.piecesPracticed then Fail(UniqueViolation(UniqueViolationText))
    else if !HasPracticeSession(t.practiceSessions, m.practiceSessionId) || !HasPiece(t.pieces, m.pieceId) then
      Fail(ForeignKeyViolation(ForeignKeyViolationText))
    else Done(1)
  }

  function AfterInsertLink(t: Tables, m: PiecePracticedMapping, r: Outcome<nat>): Tables {
    if r.Done? then t.(piecesPracticed := t.piecesPracticed + [m]) else t
  }

  lemma InsertLinkKeepsRules(t: Tables, m: PiecePracticedMapping)
    requires Consistent(t)
    ensures Consistent(AfterInsertLink(t, m, InsertLink(t, m)))
    ensures InsertLink(t, m).Done? <==> Consistent(t.(piecesPracticed := t.piecesPracticed + [m]))
  {
    var t' := t.(piecesPracticed := t.piecesPracticed + [m]);
    if m in t.piecesPracticed {
      var i :| 0 <= i < |t.piecesPracticed| && t.piecesPracticed[i] == m;
      assert t'.piecesPracticed[i] == t'.piecesPracticed[|t.piecesPracticed|];
    } else if !HasPracticeSession(t.practiceSessions, m.practiceSessionId) || !HasPiece(t.pieces, m.pieceId) {
      assert m in t'.piecesPracticed;
    } else {
      AppendFresh(t.piecesPracticed, m);
    }
  }

  // ---- deletes ---------------------------------------------------------------------------
  // A delete returns the rows that remain; the number deleted is the difference in length.
  // A delete that would leave a link row pointing at a removed row is a foreign-key violation
  // and removes nothing.

  function OfPracticeSession(practiceSessionId: int): PiecePracticedMapping -> bool {
    (l: PiecePracticedMapping) => l.practiceSessionId == practiceSessionId
  }

  function ThisLink(m: PiecePracticedMapping): PiecePracticedMapping -> bool {
    (l: PiecePracticedMapping) => l == m
  }

  function IsPiece(pieceId: int): Piece -> bool {
    (p: Piece) => p.pieceId == pieceId
  }

  function ThisOwnedSession(practiceSessionId: int, userId: int): PracticeSession -> bool {
    (s: PracticeSession) => s.userId == userId && s.practiceSessionId == practiceSessionId
  }

  function NotOfPracticeSession(practiceSessionId: int): PiecePracticedMapping -> bool {
    (l: PiecePracticedMapping) => l.practiceSessionId != practiceSessionId
  }

  function NotThisLink(m: PiecePracticedMapping): PiecePracticedMapping -> bool {
    (l: PiecePracticedMapping) => l != m
  }

  function NotThisPiece(pieceId: int): Piece -> bool {
    (p: Piece) => p.pieceId != pieceId
  }

  function NotThisOwnedSession(practiceSessionId: int, userId: int): PracticeSession -> bool {
    (s: PracticeSession) => !(s.userId == userId && s.practiceSessionId == practiceSessionId)
  }

  /** `DELETE FROM pieces_practiced WHERE practice_session_id = …`. No foreign key points at link
      rows, so this never fails. */
  function DeleteLinksOfPracticeSession(t: Tables, practiceSessionId: int): (r: seq<PiecePracticedMapping>)
    ensures forall l :: l in r <==> l in t.piecesPracticed && l.practiceSessionId != practiceSessionId
    ensures !LinkedToPracticeSession(r, practiceSessionId)
    ensures IsSubsequence(r, t.piecesPracticed)
    ensures |t.piecesPracticed| - |r| == Count(t.piecesPracticed, OfPracticeSession(practiceSessionId))
  {
    CountComplement(t.piecesPracticed, OfPracticeSession(practiceSessionId), NotOfPracticeSession(practiceSessionId));
    Filter(t.piecesPracticed, NotOfPracticeSession(practiceSessionId))
  }

  /** `DELETE FROM pieces_practiced WHERE piece_id = … AND practice_session_id = …`. */
  function DeleteLink(t: Tables, m: PiecePracticedMapping): (r: seq<PiecePracticedMapping>)
    ensures forall l :: l in r <==> l in t.piecesPracticed && l != m
    ensures IsSubsequence(r, t.piecesPracticed)
    ensures |t.piecesPracticed| - |r| == Count(t.piecesPracticed, ThisLink(m))
  {
    CountComplement(t.piecesPracticed, ThisLink(m), NotThisLink(m));
    Filter(t.piecesPracticed, NotThisLink(m))
  }

  lemma DeleteLinksKeepRules(t: Tables, p: PiecePracticedMapping -> bool)
    requires Consistent(t)
    ensures Consistent(t.(piecesPracticed := Filter(t.piecesPracticed, p)))
  {
  }

  /** `DELETE FROM pieces WHERE piece_id = …`: refused while a link row refers to the piece. */
  function DeletePiece(t: Tables, pieceId: int): (r: Outcome<seq<Piece>>)
    ensures r.Fail? <==> LinkedToPiece(t.piecesPracticed, pieceId)
    ensures r.Fail? ==> r.failure.ForeignKeyViolation?
    ensures r.Done? ==> r.value == Filter(t.pieces, NotThisPiece(pieceId))
  {
    if LinkedToPiece(t.piecesPracticed, pieceId) then Fail(ForeignKeyViolation(ForeignKeyViolationText))
    else Done(Filter(t.pieces, NotThisPiece(pieceId)))
  }

  lemma DeletePieceKeepsRules(t: Tables, pieceId: int)
    requires Consistent(t)
    ensures DeletePiece(t, pieceId).Done? ==> Consistent(t.(pieces := DeletePiece(t, pieceId).value))
    ensures DeletePiece(t, pieceId).Done? <==>
            Consistent(t.(pieces := Filter(t.pieces, NotThisPiece(pieceId))))
  {
  }

  /** `DELETE FROM practice_sessions WHERE user_id = … AND practice_session_id = …`: refused while
      a link row refers to the session being deleted. */
  function DeleteOwnedPracticeSession(t: Tables, practiceSessionId: int, userId: int)
    : (r: Outcome<seq<PracticeSession>>)
    ensures r.Fail? <==> OwnsPracticeSession(t.practiceSessions, practiceSessionId, userId)
                         && LinkedToPracticeSession(t.piecesPracticed, practiceSessionId)
    ensures r.Fail? ==> r.failure.ForeignKeyViolation?
    ensures r.Done? ==> r.value == Filter(t.practiceSessions, NotThisOwnedSession(practiceSessionId, userId))
  {
    if OwnsPracticeSession(t.practiceSessions, practiceSessionId, userId)
       && LinkedToPracticeSession(t.piecesPracticed, practiceSessionId)
    then Fail(ForeignKeyViolation(ForeignKeyViolationText))
    else Done(Filter(t.practiceSessions, NotThisOwnedSession(practiceSessionId, userId)))
  }

  lemma DeleteOwnedPracticeSessionKeepsRules(t: Tables, practiceSessionId: int, userId: int)
    requires Consistent(t)
    ensures var r := DeleteOwnedPracticeSession(t, practiceSessionId, userId);
            r.Done? ==> Consistent(t.(practiceSessions := r.value))
    ensures DeleteOwnedPracticeSession(t, practiceSessionId, userId).Done? <==>
            Consistent(t.(practiceSessions :=
              Filter(t.practiceSessions, NotThisOwnedSession(practiceSessionId, userId))))
  {
  }
}
