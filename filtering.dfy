/**
 * `Array.prototype.filter` over a sequence: the elements that satisfy `keep`,
 * in their original order.
 */
module Filtering {

  function Filter<T(!new)>(s: seq<T>, keep: T -> bool): (r: seq<T>)
    ensures |r| <= |s|
    ensures forall x :: x in r <==> x in s && keep(x)
  {
    if s == [] then []
    else (if keep(s[0]) then [s[0]] else []) + Filter(s[1..], keep)
  }

  /** Filtering distributes over concatenation, so survivors keep their relative order. */
  lemma {:induction false} FilterConcat<T(!new)>(a: seq<T>, b: seq<T>, keep: T -> bool)
    ensures Filter(a + b, keep) == Filter(a, keep) + Filter(b, keep)
  {
    if a != [] {
      assert (a + b)[1..] == a[1..] + b;
      FilterConcat(a[1..], b, keep);
    } else {
      assert a + b == b;
    }
  }

  /** A sequence whose elements all survive is returned unchanged. */
  lemma {:induction false} FilterAllKept<T(!new)>(s: seq<T>, keep: T -> bool)
    requires forall x :: x in s ==> keep(x)
    ensures Filter(s, keep) == s
  {
    if s != [] {
      FilterAllKept(s[1..], keep);
    }
  }

  /** Filtering twice with the same test is filtering once. */
  lemma FilterIdempotent<T(!new)>(s: seq<T>, keep: T -> bool)
    ensures Filter(Filter(s, keep), keep) == Filter(s, keep)
  {
    FilterAllKept(Filter(s, keep), keep);
  }

  /** One step of `Filter` on a prefix that starts with the head. */
  lemma FilterPrefixStep<T(!new)>(s: seq<T>, keep: T -> bool, i: nat)
    requires 0 < i <= |s|
    ensures Filter(s[..i], keep) == (if keep(s[0]) then [s[0]] else []) + Filter(s[1..][..i - 1], keep)
  {
    assert s[..i][1..] == s[1..][..i - 1];
  }

  /**
   * The element at position `m` of the result comes from some position `i` of
   * the input, and the survivors before `i` are exactly the first `m` results.
   */
  lemma {:induction false} FilterIndex<T(!new)>(s: seq<T>, keep: T -> bool, m: nat) returns (i: nat)
    requires m < |Filter(s, keep)|
    ensures i < |s| && s[i] == Filter(s, keep)[m] && keep(s[i])
    ensures Filter(s[..i], keep) == Filter(s, keep)[..m]
  {
    var rest := Filter(s[1..], keep);
    var head := if keep(s[0]) then [s[0]] else [];
    assert Filter(s, keep) == head + rest;
    if keep(s[0]) && m == 0 {
      i := 0;
      assert s[..0] == [];
    } else {
      var m' := if keep(s[0]) then m - 1 else m;
      var i' := FilterIndex(s[1..], keep, m');
      i := i' + 1;
      FilterPrefixStep(s, keep, i);
      assert (head + rest)[m] == rest[m'];
      assert (head + rest)[..m] == head + rest[..m'];
    }
  }
}
