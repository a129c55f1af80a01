/**
 * Sorting by a caller-supplied "may come before" relation. The note store
 * uses it for its `ORDER BY` clauses: a query result is any permutation of the
 * selected rows that is ordered by the clause, and `Sort` produces one.
 */
module Sorting {

  /** Any two elements can be compared. */
  ghost predicate Total<T(!new)>(le: (T, T) -> bool) {
    forall a, b :: le(a, b) || le(b, a)
  }

  ghost predicate Transitive<T(!new)>(le: (T, T) -> bool) {
    forall a, b, c :: le(a, b) && le(b, c) ==> le(a, c)
  }

  /** Every element may come before every later element. */
  ghost predicate SortedBy<T>(s: seq<T>, le: (T, T) -> bool) {
    forall i, j :: 0 <= i < j < |s| ==> le(s[i], s[j])
  }

  /** Puts `x` in front of the first element it may precede. */
  function Insert<T>(s: seq<T>, x: T, le: (T, T) -> bool): (r: seq<T>)
    ensures multiset(r) == multiset(s) + multiset{x}
    ensures |r| == |s| + 1
  {
    if s == [] then [x]
    else if le(x, s[0]) then [x] + s
    else
      assert s == [s[0]] + s[1..];
      [s[0]] + Insert(s[1..], x, le)
  }

  /** Insertion sort. */
  function Sort<T>(s: seq<T>, le: (T, T) -> bool): (r: seq<T>)
    ensures multiset(r) == multiset(s)
    ensures |r| == |s|
  {
    if s == [] then []
    else
      assert s == [s[0]] + s[1..];
      Insert(Sort(s[1..], le), s[0], le)
  }

  lemma {:induction false} InsertSorted<T(!new)>(s: seq<T>, x: T, le: (T, T) -> bool)
    requires Total(le) && Transitive(le)
    requires SortedBy(s, le)
    ensures SortedBy(Insert(s, x, le), le)
  {
    if s != [] && !le(x, s[0]) {
      var tail := Insert(s[1..], x, le);
      InsertSorted(s[1..], x, le);
      HeadPrecedesInsert(s, x, le);
      var r := Insert(s, x, le);
      assert r == [s[0]] + tail;
      forall i, j | 0 <= i < j < |r| ensures le(r[i], r[j]) {
        if i == 0 {
          assert r[j] == tail[j - 1];
        } else {
          assert r[i] == tail[i - 1] && r[j] == tail[j - 1];
        }
      }
    }
  }

  /** The head of a sorted sequence precedes everything in the insertion into its tail. */
  lemma HeadPrecedesInsert<T(!new)>(s: seq<T>, x: T, le: (T, T) -> bool)
    requires Total(le)
    requires SortedBy(s, le) && s != [] && !le(x, s[0])
    ensures forall y :: y in Insert(s[1..], x, le) ==> le(s[0], y)
  {
    var tail := Insert(s[1..], x, le);
    forall y | y in tail ensures le(s[0], y) {
      assert y in multiset(tail);
      if y != x {
        assert y in multiset(s[1..]);
        var k :| 0 <= k < |s[1..]| && s[1..][k] == y;
        assert s[k + 1] == y;
      }
    }
  }

  /** `Sort` orders its input whenever `le` is a total preorder. */
  lemma {:induction false} SortSorted<T(!new)>(s: seq<T>, le: (T, T) -> bool)
    requires Total(le) && Transitive(le)
    ensures SortedBy(Sort(s, le), le)
  {
    if s != [] {
      SortSorted(s[1..], le);
      InsertSorted(Sort(s[1..], le), s[0], le);
    }
  }
}
