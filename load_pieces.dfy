/** The pure part of the piece loader: from the composers of a catalogue dump, the pieces to
    register, being every work of every popular composer, with repeated pieces dropped so that only
    the first occurrence of each one remains. */
module LoadPieces {
  import opened Prelude
  import opened Models

  datatype WorkJson = WorkJson(title: string)

  datatype ComposerJson = ComposerJson(completeName: string, popular: string, works: seq<WorkJson>)

  /** The dump marks a popular composer with the string "1". */
  predicate IsPopular(c: ComposerJson) {
    c.popular == "1"
  }

  function Popular(): ComposerJson -> bool {
    (c: ComposerJson) => IsPopular(c)
  }

  // ---- flattening ------------------------------------------------------------------------

  /** One piece per work, in the order of the works, each credited to `composer`. */
  function PiecesOfWorks(composer: string, works: seq<WorkJson>): (r: seq<InsertablePiece>)
    ensures |r| == |works|
    ensures forall j :: 0 <= j < |r| ==> r[j] == InsertablePiece(works[j].title, composer)
    decreases |works|
  {
    if works == [] then []
    else [InsertablePiece(works[0].title, composer)] + PiecesOfWorks(composer, works[1..])
  }

  /** The pieces a single composer contributes. */
  function PiecesOfComposer(c: ComposerJson): seq<InsertablePiece> {
    if IsPopular(c) then PiecesOfWorks(c.completeName, c.works) else []
  }

  /** Flattening follows the order of the composers. */
  lemma {:induction false} FlattenAppend(a: seq<ComposerJson>, b: seq<ComposerJson>)
    ensures Flatten(a + b) == Flatten(a) + Flatten(b)
    decreases |a|
  {
    if a == [] {
      assert a + b == b;
    } else {
      assert (a + b)[1..] == a[1..] + b;
      FlattenAppend(a[1..], b);
    }
  }

  /** Composers that are not popular contribute nothing. */
  lemma {:induction false} FlattenOnlyPopular(cs: seq<ComposerJson>)
    ensures Flatten(cs) == Flatten(Filter(cs, Popular()))
    decreases |cs|
  {
    if cs != [] {
      FlattenOnlyPopular(cs[1..]);
      if IsPopular(cs[0]) {
        var kept := Filter(cs, Popular());
        assert kept == [cs[0]] + Filter(cs[1..], Popular());
        assert kept[1..] == Filter(cs[1..], Popular());
      }
    }
  }

  /** `p` is the piece made from some work of some popular composer. */
  ghost predicate FromPopularWork(cs: seq<ComposerJson>, p: InsertablePiece) {
    exists i, j :: 0 <= i < |cs| && IsPopular(cs[i]) && 0 <= j < |cs[i].works|
                   && p == InsertablePiece(cs[i].works[j].title, cs[i].completeName)
  }

  /** The works of the popular composers, composer by composer: exactly the pieces made from a
      work of a popular composer. */
  function Flatten(cs: seq<ComposerJson>): (r: seq<InsertablePiece>)
    ensures forall p :: p in r <==> FromPopularWork(cs, p)
    decreases |cs|
  {
    if cs == [] then []
    else
      var head := PiecesOfComposer(cs[0]);
      var rest := Flatten(cs[1..]);
      assert forall p :: p in head + rest <==> FromPopularWork(cs, p) by {
        forall p ensures p in head + rest <==> FromPopularWork(cs, p) {
          if p in head {
            var j :| 0 <= j < |head| && head[j] == p;
            assert cs[0].works[j].title == p.title;
          }
          if p in rest {
            var i, j :| 0 <= i < |cs[1..]| && IsPopular(cs[1..][i]) && 0 <= j < |cs[1..][i].works|
                        && p == InsertablePiece(cs[1..][i].works[j].title, cs[1..][i].completeName);
            assert cs[i + 1] == cs[1..][i];
          }
          if FromPopularWork(cs, p) {
            var i, j :| 0 <= i < |cs| && IsPopular(cs[i]) && 0 <= j < |cs[i].works|
                        && p == InsertablePiece(cs[i].works[j].title, cs[i].completeName);
            if i == 0 {
              assert head[j] == p;
            } else {
              assert cs[1..][i - 1] == cs[i];
            }
          }
        }
      }
      head + rest
  }

  // ---- keeping first occurrences ---------------------------------------------------------

  /** The position of the first element of `s` equal to `x` (`position(|y| y == x)`). */
  function FirstIndex<T(==)>(s: seq<T>, x: T): (i: nat)
    requires x in s
    ensures i < |s| && s[i] == x
    ensures forall k :: 0 <= k < i ==> s[k] != x
    decreases |s|
  {
    if s[0] == x then 0
    else
      assert x in s[1..];
      1 + FirstIndex(s[1..], x)
  }

  /** The elements of `s` from position `i` on that sit at the first position of their value. */
  function KeepFirstFrom<T(==)>(s: seq<T>, i: nat): seq<T>
    requires i <= |s|
    decreases |s| - i
  {
    if i == |s| then []
    else (if FirstIndex(s, s[i]) == i then [s[i]] else []) + KeepFirstFrom(s, i + 1)
  }

  lemma {:induction false} KeepFirstFromFacts<T>(s: seq<T>, i: nat)
    requires i <= |s|
    ensures forall x :: x in KeepFirstFrom(s, i) <==> x in s && i <= FirstIndex(s, x)
    ensures NoDuplicates(KeepFirstFrom(s, i))
    ensures IsSubsequence(KeepFirstFrom(s, i), s[i..])
    decreases |s| - i
  {
    if i < |s| {
      KeepFirstFromFacts(s, i + 1);
      var rest := KeepFirstFrom(s, i + 1);
      assert s[i..] == [s[i]] + s[i + 1..];
      assert forall x :: x in s && FirstIndex(s, x) == i ==> x == s[i];
      if FirstIndex(s, s[i]) == i {
        PrependFresh(s[i], rest);
        assert ([s[i]] + rest)[1..] == rest;
      } else {
        assert KeepFirstFrom(s, i) == [] + rest == rest;
        SubsequenceCons(rest, s[i], s[i + 1..]);
      }
    }
  }

  /** Every element of `r` occurs in `s`, and `r` lists them in the order of their first
      positions in `s`. */
  predicate InFirstOrder<T(==)>(s: seq<T>, r: seq<T>) {
    && (forall x :: x in r ==> x in s)
    && (forall a, b :: 0 <= a < b < |r| ==> FirstIndex(s, r[a]) < FirstIndex(s, r[b]))
  }

  /** A value whose first position precedes those of an ordered list can be put in front of it. */
  lemma OrderedPrepend<T>(s: seq<T>, x: T, rest: seq<T>)
    requires x in s && InFirstOrder(s, rest)
    requires forall y :: y in rest ==> FirstIndex(s, x) < FirstIndex(s, y)
    ensures InFirstOrder(s, [x] + rest)
  {
  }

  /** The kept elements come in the order of their first positions in `s`. */
  lemma {:induction false} KeepFirstFromOrdered<T>(s: seq<T>, i: nat)
    requires i <= |s|
    ensures InFirstOrder(s, KeepFirstFrom(s, i))
    decreases |s| - i
  {
    if i < |s| {
      KeepFirstFromFacts(s, i + 1);
      KeepFirstFromOrdered(s, i + 1);
      var rest := KeepFirstFrom(s, i + 1);
      if FirstIndex(s, s[i]) == i {
        assert KeepFirstFrom(s, i) == [s[i]] + rest;
        OrderedPrepend(s, s[i], rest);
      } else {
        assert KeepFirstFrom(s, i) == rest;
      }
    }
  }

  /** `enumerate().filter(|(i, x)| i == position(x))`: each value once, at its first
      occurrence. Nothing is lost, nothing repeats, and the order of `s` is kept. */
  function Dedup<T(==,!new)>(s: seq<T>): (r: seq<T>)
    ensures forall x :: x in r <==> x in s
    ensures NoDuplicates(r)
    ensures IsSubsequence(r, s)
    ensures InFirstOrder(s, r)
  {
    KeepFirstFromFacts(s, 0);
    KeepFirstFromOrdered(s, 0);
    assert s[0..] == s;
    KeepFirstFrom(s, 0)
  }

  /** The head of a list in first-occurrence order has the least first position. */
  lemma FirstComesFirst<T>(s: seq<T>, r: seq<T>)
    requires InFirstOrder(s, r) && r != []
    ensures forall x :: x in r ==> FirstIndex(s, r[0]) <= FirstIndex(s, x)
  {
  }

  /** The tail of a list in first-occurrence order is in that order too, after its head. */
  lemma InFirstOrderTail<T>(s: seq<T>, r: seq<T>)
    requires InFirstOrder(s, r) && r != []
    ensures InFirstOrder(s, r[1..])
    ensures forall x :: x in r[1..] ==> FirstIndex(s, r[0]) < FirstIndex(s, x)
  {
  }

  /** Two non-empty lists in first-occurrence order with the same elements start alike, and their
      tails hold the same elements. */
  lemma SameHeadSameTail<T>(s: seq<T>, r1: seq<T>, r2: seq<T>)
    requires InFirstOrder(s, r1) && InFirstOrder(s, r2) && r1 != [] && r2 != []
    requires forall x :: x in r1 <==> x in r2
    ensures r1[0] == r2[0]
    ensures InFirstOrder(s, r1[1..]) && InFirstOrder(s, r2[1..])
    ensures forall x :: x in r1[1..] <==> x in r2[1..]
  {
    FirstComesFirst(s, r1);
    FirstComesFirst(s, r2);
    assert r1[0] in r2 && r2[0] in r1;
    assert s[FirstIndex(s, r1[0])] == r1[0];
    InFirstOrderTail(s, r1);
    InFirstOrderTail(s, r2);
    forall x | x in r1[1..] ensures x in r2[1..] {
      assert x in r1 && x in r2;
      var j :| 0 <= j < |r2| && r2[j] == x;
      assert j != 0 && r2[1..][j - 1] == x;
    }
    forall x | x in r2[1..] ensures x in r1[1..] {
      assert x in r2 && x in r1;
      var j :| 0 <= j < |r1| && r1[j] == x;
      assert j != 0 && r1[1..][j - 1] == x;
    }
  }

  /** Two lists in first-occurrence order of `s` that hold the same elements are equal. */
  lemma {:induction false} InFirstOrderUnique<T>(s: seq<T>, r1: seq<T>, r2: seq<T>)
    requires InFirstOrder(s, r1) && InFirstOrder(s, r2)
    requires forall x :: x in r1 <==> x in r2
    ensures r1 == r2
    decreases |r1|
  {
    assert r1 != [] ==> r1[0] in r2;
    assert r2 != [] ==> r2[0] in r1;
    if r1 != [] {
      SameHeadSameTail(s, r1, r2);
      InFirstOrderUnique(s, r1[1..], r2[1..]);
      assert r1 == [r1[0]] + r1[1..] && r2 == [r2[0]] + r2[1..];
    }
  }

  /** Keeping first occurrences is the only way to list the values of `s` once each, in the order
      they first appear. */
  lemma DedupCharacterized<T(!new)>(s: seq<T>, r: seq<T>)
    requires forall x :: x in r <==> x in s
    requires InFirstOrder(s, r)
    ensures r == Dedup(s)
  {
    InFirstOrderUnique(s, r, Dedup(s));
  }

  lemma {:induction false} KeepFirstFromDistinct<T>(s: seq<T>, i: nat)
    requires NoDuplicates(s) && i <= |s|
    ensures KeepFirstFrom(s, i) == s[i..]
    decreases |s| - i
  {
    if i < |s| {
      KeepFirstFromDistinct(s, i + 1);
      assert s[i..] == [s[i]] + s[i + 1..];
    }
  }

  /** A list without repetitions is left as it is. */
  lemma DedupOfDistinct<T(!new)>(s: seq<T>)
    requires NoDuplicates(s)
    ensures Dedup(s) == s
  {
    KeepFirstFromDistinct(s, 0);
  }

  /** De-duplicating twice is de-duplicating once. */
  lemma DedupIdempotent<T(!new)>(s: seq<T>)
    ensures Dedup(Dedup(s)) == Dedup(s)
  {
    DedupOfDistinct(Dedup(s));
  }

  /** The pieces the loader inserts: every piece of a popular composer's work, each once, in the
      order of its first occurrence in the dump. */
  function PiecesToLoad(cs: seq<ComposerJson>): (r: seq<InsertablePiece>)
    ensures forall p :: p in r <==> FromPopularWork(cs, p)
    ensures NoDuplicates(r)
    ensures IsSubsequence(r, Flatten(cs))
    ensures InFirstOrder(Flatten(cs), r)
  {
    Dedup(Flatten(cs))
  }
}
