/**
 * The library sorts the source relies on (Python's `sorted`, `std::sort` with a comparator) and
 * `reverse`, as functions on sequences. A comparator `less` is the strict "goes before" relation
 * the source passes to the sort; a sequence is sorted when no element goes before an earlier one.
 */
module Sorting {

  /** What `std::sort` demands of its comparator: a strict weak ordering. */
  ghost predicate StrictWeakOrder<T(!new)>(less: (T, T) -> bool) {
    && (forall a, b :: less(a, b) ==> !less(b, a))
    && (forall a, b, c :: !less(a, b) && !less(b, c) ==> !less(a, c))
  }

  ghost predicate SortedBy<T>(less: (T, T) -> bool, s: seq<T>) {
    forall i, j :: 0 <= i < j < |s| ==> !less(s[j], s[i])
  }

  /** Places `x` in front of the first element that does not go before it. */
  function Insert<T>(x: T, s: seq<T>, less: (T, T) -> bool): (r: seq<T>)
    ensures |r| == |s| + 1
    ensures multiset(r) == multiset(s) + multiset{x}
  {
    if s == [] || !less(s[0], x) then [x] + s
    else
      assert s == [s[0]] + s[1..];
      [s[0]] + Insert(x, s[1..], less)
  }

  lemma {:induction false} InsertKeepsSorted<T(!new)>(x: T, s: seq<T>, less: (T, T) -> bool)
    requires StrictWeakOrder(less)
    requires SortedBy(less, s)
    ensures SortedBy(less, Insert(x, s, less))
  {
    if s == [] || !less(s[0], x) {
      var r := Insert(x, s, less);
      forall i, j | 0 <= i < j < |r| ensures !less(r[j], r[i]) {
        if i == 0 {
          assert r[j] == s[j - 1];
          assert !less(s[j - 1], s[0]) || j - 1 == 0;
        }
      }
    } else {
      InsertKeepsSorted(x, s[1..], less);
      var t := Insert(x, s[1..], less);
      var r := [s[0]] + t;
      forall i, j | 0 <= i < j < |r| ensures !less(r[j], r[i]) {
        if i == 0 {
          assert r[j] in multiset(t);
          assert r[j] == x || r[j] in multiset(s[1..]);
          if r[j] != x {
            var k :| 0 <= k < |s[1..]| && s[1..][k] == r[j];
            assert s[k + 1] == r[j];
          }
        } else {
          assert r[i] == t[i - 1] && r[j] == t[j - 1];
        }
      }
    }
  }

  /** Insertion sort: a stable sort, as Python's `sorted` is. */
  function SortBy<T(!new)>(s: seq<T>, less: (T, T) -> bool): (r: seq<T>)
    requires StrictWeakOrder(less)
    ensures |r| == |s|
    ensures multiset(r) == multiset(s)
    ensures SortedBy(less, r)
  {
    if s == [] then []
    else
      var rest := SortBy(s[1..], less);
      InsertKeepsSorted(s[0], rest, less);
      assert s == [s[0]] + s[1..];
      Insert(s[0], rest, less)
  }

  function Reverse<T>(s: seq<T>): (r: seq<T>)
    ensures |r| == |s|
    ensures forall i :: 0 <= i < |s| ==> r[i] == s[|s| - 1 - i]
  {
    if s == [] then [] else Reverse(s[1..]) + [s[0]]
  }

  /** A reversed sorted sequence is sorted the other way round. */
  lemma ReverseOfSorted<T>(less: (T, T) -> bool, s: seq<T>)
    requires SortedBy(less, s)
    ensures forall i, j :: 0 <= i < j < |s| ==> !less(Reverse(s)[i], Reverse(s)[j])
  {
  }

  /** Reversing only reorders. */
  lemma {:induction false} ReversePermutes<T>(s: seq<T>)
    ensures multiset(Reverse(s)) == multiset(s)
  {
    if s != [] {
      ReversePermutes(s[1..]);
      assert s == [s[0]] + s[1..];
    }
  }
}
