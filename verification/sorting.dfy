/**
 * `sorted(set(xs))` for the orders the tools use: insertion of distinct
 * elements under a strict total order, with the facts that the result holds
 * exactly the input's elements, each once, in increasing order.
 */
module Sorting {
  import opened Text

  /** `less` is irreflexive, transitive and total on distinct values. */
  ghost predicate StrictTotalOrder<T(!new)>(less: (T, T) -> bool) {
    && (forall a :: !less(a, a))
    && (forall a, b, c :: less(a, b) && less(b, c) ==> less(a, c))
    && (forall a, b :: a != b ==> less(a, b) || less(b, a))
  }

  predicate SortedBy<T>(s: seq<T>, less: (T, T) -> bool) {
    forall i, j | 0 <= i < j < |s| :: less(s[i], s[j])
  }

  /** The elements of a sequence (Python's `set(xs)`). */
  function Elems<T>(s: seq<T>): set<T> {
    set x | x in s
  }

  predicate Distinct<T(==)>(s: seq<T>) {
    forall i, j | 0 <= i < j < |s| :: s[i] != s[j]
  }

  /** Insert `x` into `s` before the first element not below it, unless it is already there. */
  function InsertUnique<T(==)>(x: T, s: seq<T>, less: (T, T) -> bool): (r: seq<T>)
    ensures Elems(r) == Elems(s) + {x}
    ensures |r| <= |s| + 1
  {
    if s == [] then [x]
    else if s[0] == x then s
    else if less(s[0], x) then
      var rest := InsertUnique(x, s[1..], less);
      ElemsCons(s[0], s[1..]);
      ElemsCons(s[0], rest);
      assert s == [s[0]] + s[1..];
      [s[0]] + rest
    else
      ElemsCons(x, s);
      [x] + s
  }

  lemma ElemsCons<T>(x: T, s: seq<T>)
    ensures Elems([x] + s) == {x} + Elems(s)
  {
    assert forall y | y in [x] + s :: y == x || y in s;
  }

  /** The distinct elements of `s`, in the order `less`. */
  function SortUnique<T(==)>(s: seq<T>, less: (T, T) -> bool): (r: seq<T>)
    ensures Elems(r) == Elems(s)
    ensures |r| <= |s|
  {
    if s == [] then [] else InsertUnique(s[0], SortUnique(s[1..], less), less)
  }

  lemma {:induction false} InsertUniqueSorted<T(!new)>(x: T, s: seq<T>, less: (T, T) -> bool)
    requires StrictTotalOrder(less)
    requires SortedBy(s, less)
    ensures SortedBy(InsertUnique(x, s, less), less)
  {
    if s != [] && s[0] != x && less(s[0], x) {
      assert SortedBy(s[1..], less);
      InsertUniqueSorted(x, s[1..], less);
      var rest := InsertUnique(x, s[1..], less);
      forall k | 0 <= k < |rest|
        ensures less(s[0], rest[k])
      {
        assert rest[k] in Elems(rest);
      }
    }
  }

  lemma {:induction false} SortUniqueSorted<T(!new)>(s: seq<T>, less: (T, T) -> bool)
    requires StrictTotalOrder(less)
    ensures SortedBy(SortUnique(s, less), less)
  {
    if s != [] {
      SortUniqueSorted(s[1..], less);
      InsertUniqueSorted(s[0], SortUnique(s[1..], less), less);
    }
  }

  lemma SortedDistinct<T(!new)>(s: seq<T>, less: (T, T) -> bool)
    requires StrictTotalOrder(less)
    requires SortedBy(s, less)
    ensures Distinct(s)
  {
  }

  /** Two increasing sequences with the same elements are the same sequence. */
  lemma {:induction false} SortedUnique<T(!new)>(a: seq<T>, b: seq<T>, less: (T, T) -> bool)
    requires StrictTotalOrder(less)
    requires SortedBy(a, less) && SortedBy(b, less)
    requires Elems(a) == Elems(b)
    ensures a == b
    decreases |a|
  {
    assert a != [] ==> a[0] in Elems(b);
    assert b != [] ==> b[0] in Elems(a);
    if a != [] && b != [] {
      assert a[0] == b[0] by {
        assert b[0] in Elems(a);
        assert a[0] in Elems(b);
        var i :| 0 <= i < |a| && a[i] == b[0];
        var j :| 0 <= j < |b| && b[j] == a[0];
        if i != 0 && j != 0 {
          assert false;
        }
      }
      assert Elems(a[1..]) == Elems(b[1..]) by {
        SortedDistinct(a, less);
        SortedDistinct(b, less);
        assert Elems(a) == {a[0]} + Elems(a[1..]) by {
          assert a == [a[0]] + a[1..];
        }
        assert Elems(b) == {b[0]} + Elems(b[1..]) by {
          assert b == [b[0]] + b[1..];
        }
        assert a[0] !in Elems(a[1..]);
        assert b[0] !in Elems(b[1..]);
      }
      SortedUnique(a[1..], b[1..], less);
      assert a == [a[0]] + a[1..] && b == [b[0]] + b[1..];
    }
  }

  /** The sorted distinct elements depend only on the set of elements. */
  lemma SortUniqueBySet<T(!new)>(s: seq<T>, t: seq<T>, less: (T, T) -> bool)
    requires StrictTotalOrder(less)
    requires Elems(s) == Elems(t)
    ensures SortUnique(s, less) == SortUnique(t, less)
  {
    SortUniqueSorted(s, less);
    SortUniqueSorted(t, less);
    SortedUnique(SortUnique(s, less), SortUnique(t, less), less);
  }

  // ---------------------------------------------------------------------------
  // Orders on the tools' keys

  /** A non-empty finite set has a least element under a strict total order. */
  lemma {:induction false} Least<T(!new)>(s: set<T>, less: (T, T) -> bool) returns (x: T)
    requires StrictTotalOrder(less) && s != {}
    ensures x in s && forall y | y in s && y != x :: less(x, y)
    decreases |s|
  {
    var z :| z in s;
    if s == {z} {
      return z;
    }
    var m := Least(s - {z}, less);
    if less(z, m) {
      forall y | y in s && y != z
        ensures less(z, y)
      {
        if y != m {
          assert less(m, y);
        }
      }
      return z;
    }
    assert less(m, z);
    return m;
  }

  lemma LeastExists<T(!new)>(s: set<T>, less: (T, T) -> bool)
    requires StrictTotalOrder(less) && s != {}
    ensures exists x | x in s :: IsLeast(x, s, less)
  {
    var x := Least(s, less);
  }

  predicate IsLeast<T>(x: T, s: set<T>, less: (T, T) -> bool) {
    forall y | y in s && y != x :: less(x, y)
  }

  /** Under a strict order at most one element is least. */
  lemma LeastUnique<T(!new)>(x: T, x': T, s: set<T>, less: (T, T) -> bool)
    requires StrictTotalOrder(less)
    requires x in s && x' in s && IsLeast(x, s, less) && IsLeast(x', s, less)
    ensures x == x'
  {
  }

  /** `sorted(s)` for a finite set. */
  function SortedSet<T(!new)>(s: set<T>, less: (T, T) -> bool): (r: seq<T>)
    requires StrictTotalOrder(less)
    ensures Elems(r) == s && |r| == |s|
    ensures SortedBy(r, less)
    decreases |s|
  {
    if s == {} then []
    else
      LeastExists(s, less);
      LeastUniqueIn(s, less);
      var x :| x in s && IsLeast(x, s, less);
      var rest := SortedSet(s - {x}, less);
      LeastCons(x, s, rest, less);
      [x] + rest
  }

  /** The least element of a set is determined by the set. */
  lemma LeastUniqueIn<T(!new)>(s: set<T>, less: (T, T) -> bool)
    requires StrictTotalOrder(less)
    ensures forall x, x' | x in s && x' in s && IsLeast(x, s, less) && IsLeast(x', s, less) :: x == x'
  {
    forall x, x' | x in s && x' in s && IsLeast(x, s, less) && IsLeast(x', s, less)
      ensures x == x'
    {
      LeastUnique(x, x', s, less);
    }
  }

  /** Putting the least element in front of the sorted rest sorts the whole set. */
  lemma LeastCons<T>(x: T, s: set<T>, rest: seq<T>, less: (T, T) -> bool)
    requires x in s && IsLeast(x, s, less)
    requires Elems(rest) == s - {x} && |rest| == |s - {x}| && SortedBy(rest, less)
    ensures Elems([x] + rest) == s && |[x] + rest| == |s|
    ensures SortedBy([x] + rest, less)
  {
    assert forall i | 0 <= i < |rest| :: rest[i] in s - {x};
    ElemsCons(x, rest);
    assert s == {x} + (s - {x});
  }

  lemma StrLessOrder()
    ensures StrictTotalOrder(StrLess)
  {
    forall a: string
      ensures !StrLess(a, a)
    {
      StrLessIrreflexive(a);
    }
    forall a: string, b: string, c: string | StrLess(a, b) && StrLess(b, c)
      ensures StrLess(a, c)
    {
      StrLessTransitive(a, b, c);
    }
    forall a: string, b: string | a != b
      ensures StrLess(a, b) || StrLess(b, a)
    {
      StrLessTotal(a, b);
    }
  }

  /** Python's `<` on `(str, str)` tuples. */
  predicate PairLess(x: (string, string), y: (string, string)) {
    StrLess(x.0, y.0) || (x.0 == y.0 && StrLess(x.1, y.1))
  }

  lemma PairLessOrder()
    ensures StrictTotalOrder(PairLess)
  {
    StrLessOrder();
  }

  /** Python's `<` on `(str, str, int)` tuples. */
  predicate TripleLess(x: (string, string, int), y: (string, string, int)) {
    StrLess(x.0, y.0) || (x.0 == y.0 && (StrLess(x.1, y.1) || (x.1 == y.1 && x.2 < y.2)))
  }

  lemma TripleLessOrder()
    ensures StrictTotalOrder(TripleLess)
  {
    StrLessOrder();
  }
}
