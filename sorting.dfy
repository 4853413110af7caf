/** A stable sort, as `Array.prototype.sort` is: `before(a, b)` says that `a`
    must come strictly before `b`; elements neither of which must come before
    the other keep their input order. */
module Sorting {

  ghost predicate StrictOrder<T(!new)>(before: (T, T) -> bool)
  {
    && (forall a :: !before(a, a))
    && (forall a, b, c :: before(a, b) && before(b, c) ==> before(a, c))
  }

  /** No element is required to come before one that precedes it. */
  ghost predicate SortedBy<T>(before: (T, T) -> bool, s: seq<T>)
  {
    forall i, j :: 0 <= i < j < |s| ==> !before(s[j], s[i])
  }

  /** `s` with `x` placed before the first element it must precede, that is,
      after every element it need not precede. */
  function Insert<T>(before: (T, T) -> bool, x: T, s: seq<T>): (r: seq<T>)
    ensures multiset(r) == multiset(s) + multiset{x}
  {
    if s == [] || before(x, s[0]) then [x] + s
    else
      assert s == [s[0]] + s[1..];
      [s[0]] + Insert(before, x, s[1..])
  }

  /** Insertion sort: each element, in input order, is inserted into the
      sorted prefix. */
  function Sort<T>(before: (T, T) -> bool, s: seq<T>): (r: seq<T>)
    ensures multiset(r) == multiset(s)
  {
    if s == [] then []
    else
      assert s == s[..|s| - 1] + [s[|s| - 1]];
      Insert(before, s[|s| - 1], Sort(before, s[..|s| - 1]))
  }

  lemma {:induction false} InsertKeepsSorted<T(!new)>(before: (T, T) -> bool, x: T, s: seq<T>)
    requires StrictOrder(before) && SortedBy(before, s)
    ensures SortedBy(before, Insert(before, x, s))
  {
    if s != [] && !before(x, s[0]) {
      var rest := Insert(before, x, s[1..]);
      InsertKeepsSorted(before, x, s[1..]);
      forall y | y in rest
        ensures !before(y, s[0])
      {
        assert y in multiset(rest);
      }
      var r := [s[0]] + rest;
      forall i, j | 0 <= i < j < |r|
        ensures !before(r[j], r[i])
      {
        if i == 0 {
          assert r[j] in rest;
        } else {
          assert r[i] == rest[i - 1] && r[j] == rest[j - 1];
        }
      }
    }
  }

  /** The sorted sequence has no inversion. */
  lemma {:induction false} SortIsSorted<T(!new)>(before: (T, T) -> bool, s: seq<T>)
    requires StrictOrder(before)
    ensures SortedBy(before, Sort(before, s))
  {
    if s != [] {
      SortIsSorted(before, s[..|s| - 1]);
      InsertKeepsSorted(before, s[|s| - 1], Sort(before, s[..|s| - 1]));
    }
  }
}
