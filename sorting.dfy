/** Python's `sorted()` on a list of strings, which compares strings
    lexicographically by code point. */
module Sorting {

  /** Python's `a <= b` on strings. */
  predicate LexLessEq(a: string, b: string)
    decreases |a|
  {
    a == [] || (b != [] && (a[0] < b[0] || (a[0] == b[0] && LexLessEq(a[1..], b[1..]))))
  }

  /** Any two strings are comparable. */
  lemma {:induction false} LexTotal(a: string, b: string)
    ensures LexLessEq(a, b) || LexLessEq(b, a)
    decreases |a|
  {
    if a != [] && b != [] && a[0] == b[0] {
      LexTotal(a[1..], b[1..]);
    }
  }

  /** Every element is at most its successor. */
  predicate NonDecreasing(s: seq<string>)
  {
    forall i :: 0 < i < |s| ==> LexLessEq(s[i - 1], s[i])
  }

  /** Inserts `x` into the sorted list `s` before the first element it does
      not exceed. */
  function Insert(x: string, s: seq<string>): (r: seq<string>)
    requires NonDecreasing(s)
    ensures |r| == |s| + 1 && (r[0] == x || (s != [] && r[0] == s[0]))
    ensures NonDecreasing(r)
    ensures multiset(r) == multiset(s) + multiset{x}
  {
    if s == [] then [x]
    else if LexLessEq(x, s[0]) then [x] + s
    else
      LexTotal(x, s[0]);
      var t := Insert(x, s[1..]);
      assert s == [s[0]] + s[1..];
      [s[0]] + t
  }

  /** `sorted(s)`, by insertion. */
  function Sort(s: seq<string>): (r: seq<string>)
    ensures NonDecreasing(r)
    ensures multiset(r) == multiset(s)
  {
    if s == [] then []
    else
      assert s == [s[0]] + s[1..];
      Insert(s[0], Sort(s[1..]))
  }

  /** A list equals its sorted permutation exactly when it is already in
      non-decreasing order. */
  lemma {:induction false} SortedIsFixedPoint(s: seq<string>)
    ensures Sort(s) == s <==> NonDecreasing(s)
  {
    if s != [] && NonDecreasing(s) {
      SortedIsFixedPoint(s[1..]);
      assert s == [s[0]] + s[1..];
    }
  }
}
