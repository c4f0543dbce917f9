/**
 * The stable comparison sort behind every `Array.prototype.sort` call of the
 * application, as an insertion sort over a "comes no later than" relation `le`.
 * An element is inserted before the first element it is `le` to, so among
 * elements that compare equal the original order is kept, as in JavaScript.
 */
module Sorting {

  /** `le` is total and transitive. */
  ghost predicate TotalPreorder<T(!new)>(le: (T, T) -> bool) {
    && (forall a, b :: le(a, b) || le(b, a))
    && (forall a, b, c :: le(a, b) && le(b, c) ==> le(a, c))
  }

  /** Every element comes no later than every element after it. */
  ghost predicate SortedBy<T>(s: seq<T>, le: (T, T) -> bool) {
    forall i, j :: 0 <= i < j < |s| ==> le(s[i], s[j])
  }

  /** Puts `x` in front of the first element of `s` that it comes no later than. */
  function Insert<T>(x: T, s: seq<T>, le: (T, T) -> bool): (r: seq<T>)
    ensures |r| == |s| + 1
    ensures multiset(r) == multiset(s) + multiset{x}
  {
    if s == [] then [x]
    else if le(x, s[0]) then [x] + s
    else
      assert s == [s[0]] + s[1..];
      [s[0]] + Insert(x, s[1..], le)
  }

  /** The sorted permutation of `s`. */
  function SortBy<T>(s: seq<T>, le: (T, T) -> bool): (r: seq<T>)
    ensures |r| == |s|
    ensures multiset(r) == multiset(s)
  {
    if s == [] then []
    else
      assert s == [s[0]] + s[1..];
      Insert(s[0], SortBy(s[1..], le), le)
  }

  lemma {:induction false} InsertSorted<T(!new)>(x: T, s: seq<T>, le: (T, T) -> bool)
    requires TotalPreorder(le) && SortedBy(s, le)
    ensures SortedBy(Insert(x, s, le), le)
  {
    if s != [] && !le(x, s[0]) {
      assert le(s[0], x);
      InsertSorted(x, s[1..], le);
      var tail := Insert(x, s[1..], le);
      forall y | y in tail ensures le(s[0], y) {
        assert y in multiset(tail);
        if y != x {
          assert y in multiset(s[1..]);
          var k :| 0 <= k < |s[1..]| && s[1..][k] == y;
          assert s[k + 1] == y;
        }
      }
    }
  }

  /** Sorting by a total preorder yields a sorted sequence. */
  lemma {:induction false} SortBySorted<T(!new)>(s: seq<T>, le: (T, T) -> bool)
    requires TotalPreorder(le)
    ensures SortedBy(SortBy(s, le), le)
  {
    if s != [] {
      SortBySorted(s[1..], le);
      InsertSorted(s[0], SortBy(s[1..], le), le);
    }
  }

  /** Sorting keeps exactly the elements it was given. */
  lemma SortByMembers<T>(s: seq<T>, le: (T, T) -> bool, x: T)
    ensures x in SortBy(s, le) <==> x in s
  {
    assert x in SortBy(s, le) <==> x in multiset(SortBy(s, le));
    assert x in s <==> x in multiset(s);
  }

  /** A sequence that is already sorted is left as it is. */
  lemma {:induction false} SortByOfSorted<T>(s: seq<T>, le: (T, T) -> bool)
    requires SortedBy(s, le)
    ensures SortBy(s, le) == s
  {
    if s != [] {
      SortByOfSorted(s[1..], le);
      assert s == [s[0]] + s[1..];
    }
  }
}
