/** Sorting by a strict total order: the sorted arrangement of a multiset is unique,
    so what the sort returns does not depend on the order it was given. */
module Order {

  ghost predicate StrictTotal<T(!new)>(less: (T, T) -> bool) {
    && (forall x :: !less(x, x))
    && (forall x, y, z :: less(x, y) && less(y, z) ==> less(x, z))
    && (forall x, y :: less(x, y) || less(y, x) || x == y)
  }

  ghost predicate Sorted<T>(s: seq<T>, less: (T, T) -> bool) {
    forall i, j | 0 <= i < j < |s| :: !less(s[j], s[i])
  }

  lemma Asymmetric<T(!new)>(x: T, y: T, less: (T, T) -> bool)
    requires StrictTotal(less) && less(x, y)
    ensures !less(y, x)
  {
  }

  lemma NotLessTransitive<T(!new)>(x: T, y: T, z: T, less: (T, T) -> bool)
    requires StrictTotal(less) && !less(y, x) && !less(z, y)
    ensures !less(z, x)
  {
    assert x == y || less(x, y);
  }

  function Insert<T>(x: T, s: seq<T>, less: (T, T) -> bool): seq<T> {
    if s == [] || less(x, s[0]) then [x] + s else [s[0]] + Insert(x, s[1..], less)
  }

  /** The sorted arrangement of s. */
  function Sort<T>(s: seq<T>, less: (T, T) -> bool): seq<T> {
    if s == [] then [] else Insert(s[0], Sort(s[1..], less), less)
  }

  lemma {:induction false} InsertPermutes<T>(x: T, s: seq<T>, less: (T, T) -> bool)
    ensures multiset(Insert(x, s, less)) == multiset{x} + multiset(s)
  {
    if s == [] || less(x, s[0]) {
    } else {
      InsertPermutes(x, s[1..], less);
      assert s == [s[0]] + s[1..];
    }
  }

  lemma {:induction false} InsertSorts<T(!new)>(x: T, s: seq<T>, less: (T, T) -> bool)
    requires StrictTotal(less) && Sorted(s, less)
    ensures Sorted(Insert(x, s, less), less)
  {
    if s == [] {
    } else if less(x, s[0]) {
      var r := [x] + s;
      forall i, j | 0 <= i < j < |r| ensures !less(r[j], r[i]) {
        if i == 0 {
          assert j == 1 || !less(s[j - 1], s[0]);
        }
      }
    } else {
      InsertSorts(x, s[1..], less);
      InsertPermutes(x, s[1..], less);
      var t := Insert(x, s[1..], less);
      forall y | y in t ensures !less(y, s[0]) {
        assert y in multiset(t);
        assert y == x || y in s[1..];
      }
    }
  }

  /** Sort is a sort: an ordered permutation of what it was given. */
  lemma {:induction false} SortSorts<T(!new)>(s: seq<T>, less: (T, T) -> bool)
    requires StrictTotal(less)
    ensures Sorted(Sort(s, less), less)
    ensures multiset(Sort(s, less)) == multiset(s)
  {
    if s == [] {
    } else {
      SortSorts(s[1..], less);
      InsertSorts(s[0], Sort(s[1..], less), less);
      InsertPermutes(s[0], Sort(s[1..], less), less);
      assert s == [s[0]] + s[1..];
    }
  }

  lemma LeastFirst<T(!new)>(a: seq<T>, b: seq<T>, less: (T, T) -> bool)
    requires StrictTotal(less) && Sorted(b, less)
    requires a != [] && multiset(a) == multiset(b)
    ensures b != [] && !less(a[0], b[0])
  {
    assert a[0] in multiset(b);
    var k :| 0 <= k < |b| && b[k] == a[0];
    assert k == 0 || !less(b[k], b[0]);
  }

  lemma RestOfMultiset<T>(s: seq<T>)
    requires s != []
    ensures s == [s[0]] + s[1..]
    ensures multiset(s[1..]) == multiset(s) - multiset{s[0]}
  {
    assert s == [s[0]] + s[1..];
  }

  /** A multiset has one sorted arrangement. */
  lemma SortedUnique<T(!new)>(a: seq<T>, b: seq<T>, less: (T, T) -> bool)
    requires StrictTotal(less)
    requires Sorted(a, less) && Sorted(b, less)
    requires multiset(a) == multiset(b)
    ensures a == b
  {
    if a == [] {
      assert |multiset(b)| == 0;
    } else {
      LeastFirst(a, b, less);
      LeastFirst(b, a, less);
      assert a[0] == b[0];
      RestOfMultiset(a);
      RestOfMultiset(b);
      SortedUnique(a[1..], b[1..], less);
    }
  }

  /** Sorting forgets the order of its input, and nothing else. */
  lemma {:induction false} SortCanonical<T(!new)>(a: seq<T>, b: seq<T>, less: (T, T) -> bool)
    requires StrictTotal(less)
    ensures Sort(a, less) == Sort(b, less) <==> multiset(a) == multiset(b)
  {
    SortSorts(a, less);
    SortSorts(b, less);
    if multiset(a) == multiset(b) {
      SortedUnique(Sort(a, less), Sort(b, less), less);
    }
  }

  /** The rows up to i are sorted, but for the row at j that is still moving down. */
  ghost predicate SortedBut<T>(s: seq<T>, less: (T, T) -> bool, i: int, j: int)
    requires i < |s|
  {
    forall p, q | 0 <= p < q <= i && q != j :: !less(s[q], s[p])
  }

  lemma SwapKeepsSortedBut<T(!new)>(s: seq<T>, less: (T, T) -> bool, i: int, j: int)
    requires StrictTotal(less) && 0 < j <= i < |s|
    requires SortedBut(s, less, i, j) && less(s[j], s[j - 1])
    ensures SortedBut(s[j := s[j - 1]][j - 1 := s[j]], less, i, j - 1)
    ensures multiset(s[j := s[j - 1]][j - 1 := s[j]]) == multiset(s)
  {
    var t := s[j := s[j - 1]][j - 1 := s[j]];
    forall p, q | 0 <= p < q <= i && q != j - 1 ensures !less(t[q], t[p]) {
      var p' := if p == j then j - 1 else if p == j - 1 then j else p;
      var q' := if q == j then j - 1 else q;
      assert t[p] == s[p'] && t[q] == s[q'];
      if p == j - 1 && q == j {
        Asymmetric(s[j], s[j - 1], less);
      } else {
        assert p' < q' && q' != j;
      }
    }
  }

  lemma SettledIsSorted<T(!new)>(s: seq<T>, less: (T, T) -> bool, i: int, j: int)
    requires StrictTotal(less) && 0 <= j <= i < |s|
    requires SortedBut(s, less, i, j) && (j == 0 || !less(s[j], s[j - 1]))
    ensures Sorted(s[..i + 1], less)
  {
    forall p, q | 0 <= p < q < i + 1 ensures !less(s[q], s[p]) {
      if q == j && p < j - 1 {
        NotLessTransitive(s[p], s[j - 1], s[j], less);
      }
    }
  }

  /** Sorts the array in place, as sort.SliceStable does to a cloned slice. */
  method SortInPlace<T(!new)>(a: array<T>, less: (T, T) -> bool)
    requires StrictTotal(less)
    modifies a
    ensures a[..] == Sort(old(a[..]), less)
  {
    var i := 0;
    while i < a.Length
      invariant 0 <= i <= a.Length
      invariant Sorted(a[..i], less)
      invariant multiset(a[..]) == multiset(old(a[..]))
    {
      var j := i;
      assert SortedBut(a[..], less, i, j) by {
        assert forall p | 0 <= p < i :: a[..i][p] == a[p];
      }
      while 0 < j && less(a[j], a[j - 1])
        invariant 0 <= j <= i
        invariant SortedBut(a[..], less, i, j)
        invariant multiset(a[..]) == multiset(old(a[..]))
      {
        ghost var s := a[..];
        SwapKeepsSortedBut(s, less, i, j);
        a[j], a[j - 1] := a[j - 1], a[j];
        assert a[..] == s[j := s[j - 1]][j - 1 := s[j]];
        j := j - 1;
      }
      SettledIsSorted(a[..], less, i, j);
      assert a[..][..i + 1] == a[..i + 1];
      i := i + 1;
    }
    assert a[..a.Length] == a[..];
    SortSorts(old(a[..]), less);
    SortedUnique(a[..], Sort(old(a[..]), less), less);
  }
}
