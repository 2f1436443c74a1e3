/** Generic helpers shared by the rest of the model: an optional value and order-preserving
    filtering of sequences (the `filter` of a SQL `WHERE` clause over a table's rows). */
module Prelude {

  datatype Option<+T> = None | Some(value: T)

  /** `r` is what remains of `s` after deleting some elements, the rest kept in order. */
  predicate IsSubsequence<T(==)>(r: seq<T>, s: seq<T>)
    decreases |s|
  {
    if r == [] then true
    else if s == [] then false
    else if r[0] == s[0] then IsSubsequence(r[1..], s[1..])
    else IsSubsequence(r, s[1..])
  }

  /** No element occurs twice. */
  predicate NoDuplicates<T(==)>(s: seq<T>) {
    forall i, j :: 0 <= i < j < |s| ==> s[i] != s[j]
  }

  /** The elements of `s` satisfying `p`, in their order in `s`. */
  function Filter<T(==,!new)>(s: seq<T>, p: T -> bool): (r: seq<T>)
    ensures forall x :: x in r <==> x in s && p(x)
    ensures IsSubsequence(r, s)
    ensures |r| <= |s|
    ensures (forall x :: x in s ==> p(x)) ==> r == s
    ensures NoDuplicates(s) ==> NoDuplicates(r)
    decreases |s|
  {
    if s == [] then []
    else
      var rest := Filter(s[1..], p);
      assert forall x :: x in s[1..] ==> x in s;
      if p(s[0]) then
        assert NoDuplicates(s) ==> NoDuplicates([s[0]] + rest) by {
          if NoDuplicates(s) {
            assert NoDuplicates(s[1..]);
            assert s[0] !in s[1..];
            forall i, j | 0 <= i < j < |[s[0]] + rest|
              ensures ([s[0]] + rest)[i] != ([s[0]] + rest)[j]
            {
              if i == 0 {
                assert ([s[0]] + rest)[j] == rest[j - 1];
                assert rest[j - 1] in rest;
              }
            }
          }
        }
        [s[0]] + rest
      else
        assert rest != [] ==> rest[0] in rest;
        rest
  }

  /** The number of elements of `s` satisfying `p`. */
  function Count<T(==,!new)>(s: seq<T>, p: T -> bool): (n: nat)
    ensures n == |Filter(s, p)|
    ensures n <= |s|
    ensures n == 0 <==> forall x :: x in s ==> !p(x)
    decreases |s|
  {
    if s == [] then 0
    else
      assert forall x :: x in s[1..] ==> x in s;
      (if p(s[0]) then 1 else 0) + Count(s[1..], p)
  }

  /** Appending an element that is not yet present keeps a sequence free of duplicates. */
  lemma AppendFresh<T>(s: seq<T>, x: T)
    requires NoDuplicates(s) && x !in s
    ensures NoDuplicates(s + [x])
  {
  }

  /** When `x` is the one element of a duplicate-free sequence satisfying `p`, exactly one
      element is counted. */
  lemma {:induction false} CountUnique<T(!new)>(s: seq<T>, p: T -> bool, x: T)
    requires NoDuplicates(s) && x in s && p(x)
    requires forall y :: y in s && p(y) ==> y == x
    ensures Count(s, p) == 1
    decreases |s|
  {
    var tail := s[1..];
    assert forall y :: y in tail ==> y in s;
    if s[0] == x {
      forall y | y in tail ensures !p(y) {
        var k :| 0 <= k < |tail| && tail[k] == y;
        assert s[0] != s[k + 1];
      }
    } else {
      assert x in tail;
      forall i, j | 0 <= i < j < |tail| ensures tail[i] != tail[j] {
        assert s[i + 1] != s[j + 1];
      }
      CountUnique(tail, p, x);
    }
  }

  /** Every element satisfies exactly one of two complementary predicates. */
  lemma {:induction false} CountComplement<T(!new)>(s: seq<T>, p: T -> bool, q: T -> bool)
    requires forall x :: q(x) == !p(x)
    ensures Count(s, p) + Count(s, q) == |s|
    decreases |s|
  {
    if s != [] {
      CountComplement(s[1..], p, q);
    }
  }

  /** Putting an element that is not yet present in front keeps a sequence free of duplicates. */
  lemma PrependFresh<T>(x: T, s: seq<T>)
    requires NoDuplicates(s) && x !in s
    ensures NoDuplicates([x] + s)
  {
  }

  /** A subsequence of `t` is also one of `t` with an element put in front. */
  lemma {:induction false} SubsequenceCons<T>(r: seq<T>, x: T, t: seq<T>)
    requires IsSubsequence(r, t)
    ensures IsSubsequence(r, [x] + t)
    decreases |t|, 1
  {
    assert ([x] + t)[1..] == t;
    if r != [] && r[0] == x {
      SubsequenceDropHead(r, t);
    }
  }

  /** Dropping the first element of a subsequence leaves a subsequence. */
  lemma {:induction false} SubsequenceDropHead<T>(r: seq<T>, t: seq<T>)
    requires r != [] && IsSubsequence(r, t)
    ensures IsSubsequence(r[1..], t)
    decreases |t|, 0
  {
    assert [t[0]] + t[1..] == t;
    if r[0] != t[0] {
      SubsequenceDropHead(r, t[1..]);
    }
    SubsequenceCons(r[1..], t[0], t[1..]);
  }
}
