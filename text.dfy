/** Text operations the handlers rely on: the case-insensitive substring match that the pieces
    search sends to the database (`ILIKE '%needle%'`), and the UTF-8 byte length that Rust's
    `String::len` returns. Case folding is ASCII only. */
module Text {

  /** ASCII lower-casing of one character; every other character is left as it is. */
  function LowerChar(c: char): char {
    if 'A' <= c <= 'Z' then (c as int + 32) as char else c
  }

  function Lower(s: string): (r: string)
    ensures |r| == |s|
    ensures forall i :: 0 <= i < |s| ==> r[i] == LowerChar(s[i])
    decreases |s|
  {
    if s == [] then [] else [LowerChar(s[0])] + Lower(s[1..])
  }

  /** `needle` occurs in `hay` at offset `i`, ignoring ASCII case. */
  predicate MatchesAt(hay: string, needle: string, i: int) {
    0 <= i && i + |needle| <= |hay| && Lower(hay[i..i + |needle|]) == Lower(needle)
  }

  /** The meaning of `hay ILIKE '%needle%'`: some offset matches. */
  ghost predicate ContainsIgnoringCase(hay: string, needle: string) {
    exists i :: MatchesAt(hay, needle, i)
  }

  /** Decides the case-insensitive substring match by trying each offset in turn. */
  function ILikeContains(hay: string, needle: string): (r: bool)
    ensures r <==> ContainsIgnoringCase(hay, needle)
    decreases |hay|
  {
    if |needle| > |hay| then
      assert forall i :: !MatchesAt(hay, needle, i);
      false
    else if Lower(hay[..|needle|]) == Lower(needle) then
      assert MatchesAt(hay, needle, 0) by { assert hay[0..|needle|] == hay[..|needle|]; }
      true
    else
      var r := ILikeContains(hay[1..], needle);
      ShiftedMatch(hay, needle);
      assert !MatchesAt(hay, needle, 0) by { assert hay[0..|needle|] == hay[..|needle|]; }
      assert r ==> ContainsIgnoringCase(hay, needle) by {
        if r {
          var i :| MatchesAt(hay[1..], needle, i);
          assert MatchesAt(hay, needle, i + 1);
        }
      }
      assert ContainsIgnoringCase(hay, needle) ==> r by {
        if ContainsIgnoringCase(hay, needle) {
          var j :| MatchesAt(hay, needle, j);
          assert MatchesAt(hay[1..], needle, j - 1);
        }
      }
      r
  }

  /** A match in the tail of `hay` is a match one position further on in `hay`. */
  lemma ShiftedMatch(hay: string, needle: string)
    requires |hay| > 0
    ensures forall i :: 0 <= i ==> (MatchesAt(hay[1..], needle, i) <==> MatchesAt(hay, needle, i + 1))
  {
  }

  /** Bytes needed to encode one Unicode scalar value in UTF-8. */
  function Utf8Width(c: char): (n: nat)
    ensures 1 <= n <= 4
    ensures n == 1 <==> (c as int) < 0x80
  {
    if (c as int) < 0x80 then 1
    else if (c as int) < 0x800 then 2
    else if (c as int) < 0x10000 then 3
    else 4
  }

  /** The UTF-8 byte length of a string, which is what Rust's `String::len` returns. */
  function Utf8Length(s: string): (n: nat)
    ensures |s| <= n <= 4 * |s|
    ensures n == |s| <==> forall i :: 0 <= i < |s| ==> (s[i] as int) < 0x80
    decreases |s|
  {
    if s == [] then 0
    else
      var rest := Utf8Length(s[1..]);
      assert forall i :: 1 <= i < |s| ==> s[i] == s[1..][i - 1];
      Utf8Width(s[0]) + rest
  }
}
