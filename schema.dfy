/** The four tables as one value, and the rules every state of the database satisfies: the
    primary keys and foreign keys the schema declares, the uniqueness rules the handlers' `Conflict`
    messages rely on (they are not visible in the schema and are stated here as assumptions on the
    store), and the store's id generators being ahead of every id in use. */
module Schema {
  import opened Prelude
  import opened Models

  /** A snapshot of the database. The `next…Id` fields are the states of the id generators of the
      three tables with a generated key. A table's rows are kept in the order the store returns
      them from a query without `ORDER BY`. */
  datatype Tables = Tables(
    users: seq<User>,
    pieces: seq<Piece>,
    practiceSessions: seq<PracticeSession>,
    piecesPracticed: seq<PiecePracticedMapping>,
    nextUserId: int,
    nextPieceId: int,
    nextPracticeSessionId: int)

  // ---- lookups used by the rules and by the statements -----------------------------------

  predicate HasUser(us: seq<User>, userId: int) {
    exists u :: u in us && u.userId == userId
  }

  predicate UserNameTaken(us: seq<User>, userName: string) {
    exists u :: u in us && u.userName == userName
  }

  predicate HasPiece(ps: seq<Piece>, pieceId: int) {
    exists p :: p in ps && p.pieceId == pieceId
  }

  predicate PieceKeyTaken(ps: seq<Piece>, key: InsertablePiece) {
    exists p :: p in ps && PieceKey(p) == key
  }

  predicate HasPracticeSession(ss: seq<PracticeSession>, practiceSessionId: int) {
    exists s :: s in ss && s.practiceSessionId == practiceSessionId
  }

  /** The user already has a practice session starting at that instant. */
  predicate StartTaken(ss: seq<PracticeSession>, userId: int, start: Timestamp) {
    exists s :: s in ss && s.userId == userId && s.startDatetime == start
  }

  /** Some practice session has both this id and this owner. */
  predicate OwnsPracticeSession(ss: seq<PracticeSession>, practiceSessionId: int, userId: int) {
    exists s :: s in ss && s.practiceSessionId == practiceSessionId && s.userId == userId
  }

  predicate LinkedToPiece(ls: seq<PiecePracticedMapping>, pieceId: int) {
    exists l :: l in ls && l.pieceId == pieceId
  }

  predicate LinkedToPracticeSession(ls: seq<PiecePracticedMapping>, practiceSessionId: int) {
    exists l :: l in ls && l.practiceSessionId == practiceSessionId
  }

  // ---- keys ------------------------------------------------------------------------------
  // A key is stated as "no row occurs twice, and two rows that agree on the key are the same
  // row", which says the same as pairwise distinct keys and survives deleting rows.

  /** `users (user_id)`, and the assumed uniqueness of `user_name`. */
  predicate UserKeys(us: seq<User>) {
    && NoDuplicates(us)
    && (forall a, b :: a in us && b in us && a.userId == b.userId ==> a == b)
    && (forall a, b :: a in us && b in us && a.userName == b.userName ==> a == b)
  }

  /** `pieces (piece_id)`, and the assumed uniqueness of `(title, composer)`. */
  predicate PieceKeys(ps: seq<Piece>) {
    && NoDuplicates(ps)
    && (forall a, b :: a in ps && b in ps && a.pieceId == b.pieceId ==> a == b)
    && (forall a, b :: a in ps && b in ps && PieceKey(a) == PieceKey(b) ==> a == b)
  }

  /** `practice_sessions (practice_session_id)`, and the assumed uniqueness of
      `(user_id, start_datetime)`. */
  predicate PracticeSessionKeys(ss: seq<PracticeSession>) {
    && NoDuplicates(ss)
    && (forall a, b :: a in ss && b in ss && a.practiceSessionId == b.practiceSessionId ==> a == b)
    && (forall a, b :: a in ss && b in ss && a.userId == b.userId && a.startDatetime == b.startDatetime
          ==> a == b)
  }

  /** `pieces_practiced (practice_session_id, piece_id)`: the pair is the whole row and its key,
      so no link row occurs twice. */
  predicate LinkKeys(ls: seq<PiecePracticedMapping>) {
    NoDuplicates(ls)
  }

  // ---- foreign keys ----------------------------------------------------------------------

  /** `pieces_practiced -> pieces (piece_id)` and
      `pieces_practiced -> practice_sessions (practice_session_id)`. */
  predicate LinksReferenceRows(t: Tables) {
    forall l :: l in t.piecesPracticed ==>
      HasPiece(t.pieces, l.pieceId) && HasPracticeSession(t.practiceSessions, l.practiceSessionId)
  }

  /** `practice_sessions -> users (user_id)`. */
  predicate PracticeSessionsReferenceUsers(t: Tables) {
    forall s :: s in t.practiceSessions ==> HasUser(t.users, s.userId)
  }

  /** Every generated id in use was handed out earlier, so the next one is fresh. */
  predicate IdsBelowGenerators(t: Tables) {
    && (forall u :: u in t.users ==> u.userId < t.nextUserId)
    && (forall p :: p in t.pieces ==> p.pieceId < t.nextPieceId)
    && (forall s :: s in t.practiceSessions ==> s.practiceSessionId < t.nextPracticeSessionId)
  }

  /** Every rule the database enforces holds. Then the next generated ids are still free, and
      every link row leads through its practice session to an existing user. */
  predicate Consistent(t: Tables): (r: bool)
    ensures r ==> !HasUser(t.users, t.nextUserId)
    ensures r ==> !HasPiece(t.pieces, t.nextPieceId)
    ensures r ==> !HasPracticeSession(t.practiceSessions, t.nextPracticeSessionId)
    ensures r ==> forall l :: l in t.piecesPracticed ==>
      exists s :: s in t.practiceSessions && s.practiceSessionId == l.practiceSessionId
                  && HasUser(t.users, s.userId)
  {
    && UserKeys(t.users)
    && PieceKeys(t.pieces)
    && PracticeSessionKeys(t.practiceSessions)
    && LinkKeys(t.piecesPracticed)
    && LinksReferenceRows(t)
    && PracticeSessionsReferenceUsers(t)
    && IdsBelowGenerators(t)
  }

  /** The empty database. */
  function EmptyTables(): (t: Tables)
    ensures Consistent(t)
  {
    Tables([], [], [], [], 1, 1, 1)
  }
}
