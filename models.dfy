/** The record types of the practice-tracking backend: one datatype per row shape of the four
    tables, the insertable shapes (a row without its generated id), and the `Display` text of a
    piece-practiced link row. */
module Models {
  import opened Prelude

  /** A `NaiveDateTime`, treated as an opaque value with a total order. */
  type Timestamp = int

  /** The largest `i32` (Postgres `Int4`). */
  const I32Max: int := 2147483647
  /** The largest `u32`. */
  const U32Max: int := 4294967295

  /** The values of a Rust `u32`, which is what the client sends for durations. */
  type U32 = x: int | 0 <= x <= U32Max

  datatype User = User(userId: int, userName: string, passwordHash: string)

  /** A practice session row; it is owned by exactly one user, `userId`. */
  datatype PracticeSession = PracticeSession(
    practiceSessionId: int,
    startDatetime: Timestamp,
    durationMins: int,
    instrument: string,
    userId: int)

  /** A practice session as it is sent to the store: every column except the generated id. */
  datatype InsertablePracticeSession = InsertablePracticeSession(
    startDatetime: Timestamp,
    durationMins: int,
    instrument: string,
    userId: int)

  datatype Piece = Piece(pieceId: int, title: string, composer: string)

  /** A piece as it is sent to the store. Its equality, like the derived `PartialEq`, compares
      title and composer, and nothing else. */
  datatype InsertablePiece = InsertablePiece(title: string, composer: string)

  /** A link row of `pieces_practiced`: the pair of ids is the whole row and its identity. */
  datatype PiecePracticedMapping = PiecePracticedMapping(practiceSessionId: int, pieceId: int)

  /** The columns of a practice session that a client supplies (all but the id). */
  function SessionFields(s: PracticeSession): InsertablePracticeSession {
    InsertablePracticeSession(s.startDatetime, s.durationMins, s.instrument, s.userId)
  }

  /** The row the store materialises when it inserts `ins` under the generated id `id`. */
  function MaterializeSession(id: int, ins: InsertablePracticeSession): (s: PracticeSession)
    ensures s.practiceSessionId == id
    ensures SessionFields(s) == ins
  {
    PracticeSession(id, ins.startDatetime, ins.durationMins, ins.instrument, ins.userId)
  }

  /** Every practice session is the materialisation of its own fields under its own id. */
  lemma SessionIsMaterialized(s: PracticeSession)
    ensures MaterializeSession(s.practiceSessionId, SessionFields(s)) == s
  {
  }

  /** The columns of a piece that a client supplies, which are also its uniqueness key. */
  function PieceKey(p: Piece): InsertablePiece {
    InsertablePiece(p.title, p.composer)
  }

  function MaterializePiece(id: int, ins: InsertablePiece): (p: Piece)
    ensures p.pieceId == id
    ensures PieceKey(p) == ins
  {
    Piece(id, ins.title, ins.composer)
  }

  // ---- Display of a link row -------------------------------------------------------------

  predicate IsDigit(c: char) {
    '0' <= c <= '9'
  }

  function DigitChar(d: int): (c: char)
    requires 0 <= d < 10
    ensures IsDigit(c) && c as int - '0' as int == d
  {
    ('0' as int + d) as char
  }

  predicate AllDigits(s: string) {
    forall i :: 0 <= i < |s| ==> IsDigit(s[i])
  }

  /** Digits without a leading zero, except for the single digit `0`. */
  predicate CanonicalNat(s: string) {
    |s| >= 1 && AllDigits(s) && (s[0] == '0' ==> |s| == 1)
  }

  /** A canonical natural, or a minus sign before a canonical natural other than `0`. */
  predicate CanonicalInt(s: string) {
    if |s| >= 1 && s[0] == '-' then CanonicalNat(s[1..]) && s[1..] != "0" else CanonicalNat(s)
  }

  /** Decimal digits of a natural number, most significant first, without leading zeros. */
  function NatToDecimal(n: nat): (s: string)
    ensures |s| >= 1
    ensures forall i :: 0 <= i < |s| ==> IsDigit(s[i])
    ensures s[0] == '0' ==> n == 0
    ensures CanonicalNat(s)
    decreases n
  {
    if n < 10 then [DigitChar(n)] else NatToDecimal(n / 10) + [DigitChar(n % 10)]
  }

  /** The number a string of decimal digits denotes. */
  function DecimalValue(s: string): nat
    requires forall i :: 0 <= i < |s| ==> IsDigit(s[i])
    decreases |s|
  {
    if s == [] then 0
    else
      assert IsDigit(s[|s| - 1]);
      10 * DecimalValue(s[..|s| - 1]) + (s[|s| - 1] as int - '0' as int)
  }

  lemma {:induction false} DecimalRoundTrip(n: nat)
    ensures DecimalValue(NatToDecimal(n)) == n
    decreases n
  {
    if n >= 10 {
      var s := NatToDecimal(n);
      assert s[..|s| - 1] == NatToDecimal(n / 10);
      DecimalRoundTrip(n / 10);
    }
  }

  /** Rust's `{}` formatting of an integer: an optional minus sign, then the decimal digits. */
  function IntToDecimal(i: int): (s: string)
    ensures ' ' !in s
    ensures |s| >= 1
    ensures (s[0] == '-') <==> i < 0
    ensures CanonicalInt(s)
  {
    if i < 0 then "-" + NatToDecimal(-i) else NatToDecimal(i)
  }

  /** Reads an integer back from an optional minus sign followed by decimal digits. */
  function ReadInt(s: string): Option<int> {
    if |s| >= 2 && s[0] == '-' && AllDigits(s[1..]) then Some(0 - DecimalValue(s[1..]) as int)
    else if |s| >= 1 && AllDigits(s) then Some(DecimalValue(s))
    else None
  }

  /** The text of an integer reads back as that integer. */
  lemma IntDecimalRoundTrip(i: int)
    ensures ReadInt(IntToDecimal(i)) == Some(i)
  {
    var s := IntToDecimal(i);
    if i < 0 {
      assert s[1..] == NatToDecimal(-i);
      DecimalRoundTrip(-i);
    } else {
      assert IsDigit(s[0]);
      DecimalRoundTrip(i);
    }
  }

  lemma {:induction false} LeadingDigitPositive(s: string)
    requires |s| >= 1 && AllDigits(s) && s[0] != '0'
    ensures DecimalValue(s) > 0
    decreases |s|
  {
    if |s| > 1 {
      LeadingDigitPositive(s[..|s| - 1]);
    }
  }

  /** Canonical digits are the digits of the number they denote. */
  lemma {:induction false} CanonicalNatReadBack(s: string)
    requires CanonicalNat(s)
    ensures NatToDecimal(DecimalValue(s)) == s
    decreases |s|
  {
    var last := s[|s| - 1];
    var d := last as int - '0' as int;
    assert DigitChar(d) == last;
    if |s| == 1 {
      assert s[..0] == [];
      assert s == [last];
    } else {
      var p := s[..|s| - 1];
      assert p[0] == s[0];
      LeadingDigitPositive(p);
      CanonicalNatReadBack(p);
      var n := DecimalValue(s);
      assert n == 10 * DecimalValue(p) + d;
      assert n / 10 == DecimalValue(p) && n % 10 == d;
      assert s == p + [last];
    }
  }

  /** The canonical text of an integer is unique: it is the `{}` text of the integer it reads
      back as. */
  lemma CanonicalIntUnique(a: string, i: int)
    requires CanonicalInt(a) && ReadInt(a) == Some(i)
    ensures a == IntToDecimal(i)
  {
    if |a| >= 1 && a[0] == '-' {
      var t := a[1..];
      assert t[0] != '0';
      LeadingDigitPositive(t);
      CanonicalNatReadBack(t);
      assert a == "-" + t;
    } else {
      CanonicalNatReadBack(a);
    }
  }

  lemma IntToDecimalInjective(a: int, b: int)
    requires IntToDecimal(a) == IntToDecimal(b)
    ensures a == b
  {
    IntDecimalRoundTrip(a);
    IntDecimalRoundTrip(b);
  }

  /** The `Display` text of a link row: a fixed label, the practice session id, a second label
      and the piece id, each id in its shortest decimal form, which reads back as itself. */
  function MappingDisplay(m: PiecePracticedMapping): (r: string)
    ensures exists a, b :: && r == "PRACTICE SESSION: " + a + " PIECE: " + b
                           && CanonicalInt(a) && ReadInt(a) == Some(m.practiceSessionId)
                           && CanonicalInt(b) && ReadInt(b) == Some(m.pieceId)
  {
    var a, b := IntToDecimal(m.practiceSessionId), IntToDecimal(m.pieceId);
    IntDecimalRoundTrip(m.practiceSessionId);
    IntDecimalRoundTrip(m.pieceId);
    "PRACTICE SESSION: " + a + " PIECE: " + b
  }

  /** Two strings glued by a space split back uniquely when the first parts hold no space. */
  lemma SplitAtSpace(a: string, b: string, c: string, d: string)
    requires ' ' !in a && ' ' !in c
    requires a + b == c + d
    requires |b| > 0 && |d| > 0 && b[0] == ' ' && d[0] == ' '
    ensures a == c && b == d
  {
    assert a == (a + b)[..|a|] == (c + d)[..|c|] == c;
    assert b == (a + b)[|a|..] == (c + d)[|c|..] == d;
  }

  /** The two numbers of a rendered link row are recovered from its text. */
  lemma LabelledPairSplit(a: string, b: string, c: string, d: string)
    requires ' ' !in a && ' ' !in c
    requires "PRACTICE SESSION: " + a + " PIECE: " + b == "PRACTICE SESSION: " + c + " PIECE: " + d
    ensures a == c && b == d
  {
    var prefix, mid := "PRACTICE SESSION: ", " PIECE: ";
    var x, y := prefix + a + mid + b, prefix + c + mid + d;
    assert x[|prefix|..] == a + (mid + b) && y[|prefix|..] == c + (mid + d);
    SplitAtSpace(a, mid + b, c, mid + d);
    assert b == (mid + b)[|mid|..] && d == (mid + d)[|mid|..];
  }

  /** The rendered text identifies the link row: distinct rows never render alike. */
  lemma MappingDisplayInjective(m: PiecePracticedMapping, n: PiecePracticedMapping)
    requires MappingDisplay(m) == MappingDisplay(n)
    ensures m == n
  {
    var a, b := IntToDecimal(m.practiceSessionId), IntToDecimal(m.pieceId);
    var c, d := IntToDecimal(n.practiceSessionId), IntToDecimal(n.pieceId);
    LabelledPairSplit(a, b, c, d);
    IntToDecimalInjective(m.practiceSessionId, n.practiceSessionId);
    IntToDecimalInjective(m.pieceId, n.pieceId);
  }
}
