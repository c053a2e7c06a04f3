/** Insertion into a strictly ordered sequence; stands for the library sort. */
module Sorting {

  ghost predicate Transitive<T(!new)>(less: (T, T) -> bool) {
    forall x, y, z :: less(x, y) && less(y, z) ==> less(x, z)
  }

  ghost predicate Sorted<T>(less: (T, T) -> bool, s: seq<T>) {
    forall i, j | 0 <= i < j < |s| :: less(s[i], s[j])
  }

  function Insert<T>(less: (T, T) -> bool, x: T, s: seq<T>): (r: seq<T>)
    ensures |r| == |s| + 1
  {
    if s == [] || less(x, s[0]) then [x] + s else [s[0]] + Insert(less, x, s[1..])
  }

  function Sort<T>(less: (T, T) -> bool, s: seq<T>): (r: seq<T>)
    ensures |r| == |s|
  {
    if s == [] then [] else Insert(less, s[0], Sort(less, s[1..]))
  }

  ghost predicate SameMembers<T(!new)>(r: seq<T>, s: seq<T>) {
    forall y :: y in r <==> y in s
  }

  lemma {:induction false} InsertMembers<T(!new)>(less: (T, T) -> bool, x: T, s: seq<T>)
    ensures SameMembers(Insert(less, x, s), [x] + s)
  {
    if s != [] && !less(x, s[0]) {
      InsertMembers(less, x, s[1..]);
      forall y ensures y in Insert(less, x, s) <==> y in [x] + s {
        assert y in [x] + s[1..] <==> y in Insert(less, x, s[1..]);
        assert s == [s[0]] + s[1..];
      }
    }
  }

  lemma {:induction false} InsertSorted<T(!new)>(less: (T, T) -> bool, x: T, s: seq<T>)
    requires Transitive(less) && Sorted(less, s)
    requires forall y <- s :: less(x, y) || less(y, x)
    ensures Sorted(less, Insert(less, x, s))
  {
    if s != [] && !less(x, s[0]) {
      InsertSorted(less, x, s[1..]);
      InsertMembers(less, x, s[1..]);
      var rest := Insert(less, x, s[1..]);
      forall j | 0 <= j < |rest| ensures less(s[0], rest[j]) {
        assert rest[j] in [x] + s[1..];
      }
    }
  }

  lemma {:induction false} SortMembers<T(!new)>(less: (T, T) -> bool, s: seq<T>)
    ensures SameMembers(Sort(less, s), s)
  {
    if s != [] {
      SortMembers(less, s[1..]);
      InsertMembers(less, s[0], Sort(less, s[1..]));
      assert s == [s[0]] + s[1..];
    }
  }

  /** Pairwise comparable elements end up strictly ordered. */
  lemma {:induction false} SortSorted<T(!new)>(less: (T, T) -> bool, s: seq<T>)
    requires Transitive(less)
    requires forall i, j | 0 <= i < j < |s| :: less(s[i], s[j]) || less(s[j], s[i])
    ensures Sorted(less, Sort(less, s))
  {
    if s != [] {
      SortSorted(less, s[1..]);
      SortMembers(less, s[1..]);
      forall y <- Sort(less, s[1..]) ensures less(s[0], y) || less(y, s[0]) {
        assert y in s[1..];
        var j :| 0 <= j < |s| - 1 && s[1..][j] == y;
        assert s[j + 1] == y;
      }
      InsertSorted(less, s[0], Sort(less, s[1..]));
    }
  }
}
