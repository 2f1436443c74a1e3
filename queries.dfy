/** The two read handlers. Each builds a query from optional filters, all of them ANDed, runs it
    on the current tables and shapes the rows into the response; nothing is changed, so they are
    functions of a snapshot of the database and of the session slot. */
module Queries {
  import opened Prelude
  import opened Models
  import opened Schema
  import opened Store
  import opened Lib
  import opened Text

  // ---- get_practice_sessions -------------------------------------------------------------

  /** The query string of `get_practice_sessions`; an absent field imposes no constraint. */
  datatype PracticeSessionsQueryParams = PracticeSessionsQueryParams(
    practiceSessionId: Option<int>,
    minDatetime: Option<Timestamp>,
    maxDatetime: Option<Timestamp>,
    minDurationMins: Option<U32>,
    maxDurationMins: Option<U32>,
    instrument: Option<string>)

  /** A row the query returns for `userId`: the user's own, and within every supplied bound. */
  predicate SessionMatches(q: PracticeSessionsQueryParams, userId: int, s: PracticeSession) {
    && s.userId == userId
    && (q.practiceSessionId.Some? ==> s.practiceSessionId == q.practiceSessionId.value)
    && (q.minDatetime.Some? ==> q.minDatetime.value <= s.startDatetime)
    && (q.maxDatetime.Some? ==> s.startDatetime <= q.maxDatetime.value)
    && (q.minDurationMins.Some? ==> q.minDurationMins.value <= s.durationMins)
    && (q.maxDurationMins.Some? ==> s.durationMins <= q.maxDurationMins.value)
    && (q.instrument.Some? ==> s.instrument == q.instrument.value)
  }

  function SessionFilter(q: PracticeSessionsQueryParams, userId: int): PracticeSession -> bool {
    (s: PracticeSession) => SessionMatches(q, userId, s)
  }

  predicate MinDurationTooLarge(q: PracticeSessionsQueryParams) {
    q.minDurationMins.Some? && q.minDurationMins.value > I32Max
  }

  predicate MaxDurationTooLarge(q: PracticeSessionsQueryParams) {
    q.maxDurationMins.Some? && q.maxDurationMins.value > I32Max
  }

  /** The pieces joined to the link rows of one practice session, in the order of the link rows
      (the inner join of `pieces_practiced` with `pieces`, grouped by practice session). */
  function PiecesPracticedIn(practiceSessionId: int, links: seq<PiecePracticedMapping>, pieces: seq<Piece>)
    : (r: seq<Piece>)
    ensures forall p :: p in r <==>
      p in pieces && PiecePracticedMapping(practiceSessionId, p.pieceId) in links
    decreases |links|
  {
    if links == [] then []
    else
      var here := if links[0].practiceSessionId == practiceSessionId then Filter(pieces, IsPiece(links[0].pieceId)) else [];
      var rest := PiecesPracticedIn(practiceSessionId, links[1..], pieces);
      assert forall l :: l in links <==> l == links[0] || l in links[1..];
      here + rest
  }

  /** In a consistent database every link row of the session contributes exactly one piece. */
  lemma {:induction false} PiecesPracticedInCount(t: Tables, practiceSessionId: int, links: seq<PiecePracticedMapping>)
    requires Consistent(t)
    requires forall l :: l in links ==> l in t.piecesPracticed
    ensures |PiecesPracticedIn(practiceSessionId, links, t.pieces)| == Count(links, OfPracticeSession(practiceSessionId))
    decreases |links|
  {
    if links != [] {
      assert forall l :: l in links[1..] ==> l in links;
      PiecesPracticedInCount(t, practiceSessionId, links[1..]);
      if links[0].practiceSessionId == practiceSessionId {
        var id := links[0].pieceId;
        assert links[0] in t.piecesPracticed;
        var p :| p in t.pieces && p.pieceId == id;
        CountUnique(t.pieces, IsPiece(id), p);
      }
    }
  }

  /** The sessions of a list of response entries. */
  function Sessions(ws: seq<PracticeSessionWithPieces>): (ss: seq<PracticeSession>)
    ensures |ss| == |ws|
    ensures forall i :: 0 <= i < |ws| ==> ss[i] == ws[i].Session()
    decreases |ws|
  {
    if ws == [] then [] else [ws[0].Session()] + Sessions(ws[1..])
  }

  /** The zip of the selected sessions with their groups of pieces: one entry per session, in the
      same order, each carrying the pieces linked to it. */
  function GroupWithPieces(ss: seq<PracticeSession>, links: seq<PiecePracticedMapping>, pieces: seq<Piece>)
    : (r: seq<PracticeSessionWithPieces>)
    ensures Sessions(r) == ss
    ensures forall i :: 0 <= i < |r| ==>
      r[i].piecesPracticed == PiecesPracticedIn(ss[i].practiceSessionId, links, pieces)
    decreases |ss|
  {
    if ss == [] then []
    else [WithPieces(ss[0], PiecesPracticedIn(ss[0].practiceSessionId, links, pieces))]
         + GroupWithPieces(ss[1..], links, pieces)
  }

  /** `get_practice_sessions`: the logged-in user's practice sessions that satisfy every supplied
      filter, in table order, each with the pieces practiced in it. */
  function GetPracticeSessions(t: Tables, session: Option<int>, q: PracticeSessionsQueryParams)
    : (r: Result<seq<PracticeSessionWithPieces>>)
    ensures session.None? ==> r == Err(Unauthorized)
    ensures session.Some? ==> (r.Err? <==> MinDurationTooLarge(q) || MaxDurationTooLarge(q))
    ensures session.Some? && MinDurationTooLarge(q) ==>
      r == Err(ClientError("Invalid value for min_duration_mins"))
    ensures session.Some? && !MinDurationTooLarge(q) && MaxDurationTooLarge(q) ==>
      r == Err(ClientError("Invalid value for max_duration_mins"))
    ensures r.Ok? ==> forall w :: w in r.value ==>
      && w.Session() in t.practiceSessions
      && SessionMatches(q, session.value, w.Session())
      && w.userId == session.value
      && w.piecesPracticed == PiecesPracticedIn(w.practiceSessionId, t.piecesPracticed, t.pieces)
    ensures r.Ok? ==> forall s :: s in t.practiceSessions && SessionMatches(q, session.value, s) ==>
      s in Sessions(r.value)
    ensures r.Ok? ==> IsSubsequence(Sessions(r.value), t.practiceSessions)
  {
    match GetUserId(session)
    case Err(e) => Err(e)
    case Ok(userId) =>
      if MinDurationTooLarge(q) then Err(ClientError("Invalid value for min_duration_mins"))
      else if MaxDurationTooLarge(q) then Err(ClientError("Invalid value for max_duration_mins"))
      else
        var selected := Filter(t.practiceSessions, SessionFilter(q, userId));
        var r := GroupWithPieces(selected, t.piecesPracticed, t.pieces);
        assert forall w :: w in r ==> w.Session() in selected by {
          forall w | w in r ensures w.Session() in selected {
            var i :| 0 <= i < |r| && r[i] == w;
            assert Sessions(r)[i] == w.Session();
          }
        }
        Ok(r)
  }

  // ---- get_pieces ------------------------------------------------------------------------

  /** The query string of `get_pieces`; an absent field imposes no constraint. */
  datatype GetPiecesQueryParams = GetPiecesQueryParams(
    pieceId: Option<int>,
    title: Option<string>,
    composer: Option<string>)

  /** A piece the search returns: the given id, and title and composer containing the given
      strings, ignoring case. */
  ghost predicate PieceMatches(q: GetPiecesQueryParams, p: Piece) {
    && (q.pieceId.Some? ==> p.pieceId == q.pieceId.value)
    && (q.title.Some? ==> ContainsIgnoringCase(p.title, q.title.value))
    && (q.composer.Some? ==> ContainsIgnoringCase(p.composer, q.composer.value))
  }

  function PieceFilter(q: GetPiecesQueryParams): Piece -> bool {
    (p: Piece) =>
      && (q.pieceId.Some? ==> p.pieceId == q.pieceId.value)
      && (q.title.Some? ==> ILikeContains(p.title, q.title.value))
      && (q.composer.Some? ==> ILikeContains(p.composer, q.composer.value))
  }

  /** `get_pieces`: no login needed; the pieces satisfying every supplied filter, in table order. */
  function GetPieces(t: Tables, q: GetPiecesQueryParams): (r: seq<Piece>)
    ensures forall p :: p in r <==> p in t.pieces && PieceMatches(q, p)
    ensures IsSubsequence(r, t.pieces)
  {
    Filter(t.pieces, PieceFilter(q))
  }
}
