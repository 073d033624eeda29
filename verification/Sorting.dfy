/**
 * The stable sort behind `sort_by`, `sort_by_key` and `sort_unstable`, over an
 * arbitrary total preorder, with the laws the crate relies on: the result is
 * ordered, keeps every element, keeps the order of equivalent elements, and is
 * determined by those properties.
 */
module Sorting {

  ghost predicate TotalPreorder<T(!new)>(le: (T, T) -> bool) {
    && (forall x, y :: le(x, y) || le(y, x))
    && (forall x, y, z :: le(x, y) && le(y, z) ==> le(x, z))
  }

  ghost predicate Sorted<T>(s: seq<T>, le: (T, T) -> bool) {
    forall i, j :: 0 <= i < j < |s| ==> le(s[i], s[j])
  }

  /** Insert `x` behind every element that may precede it. */
  function Insert<T>(s: seq<T>, x: T, le: (T, T) -> bool): seq<T> {
    if s == [] || le(s[|s| - 1], x) then s + [x]
    else Insert(s[..|s| - 1], x, le) + [s[|s| - 1]]
  }

  function Sort<T>(s: seq<T>, le: (T, T) -> bool): seq<T> {
    if s == [] then [] else Insert(Sort(s[..|s| - 1], le), s[|s| - 1], le)
  }

  /** The elements of `s` equivalent to `k`, in the order of `s`. */
  function Class<T>(s: seq<T>, k: T, le: (T, T) -> bool): seq<T> {
    if s == [] then []
    else
      var x := s[|s| - 1];
      Class(s[..|s| - 1], k, le) + (if le(x, k) && le(k, x) then [x] else [])
  }

  /** `a` and `b` list the same elements, equivalent ones in the same order. */
  ghost predicate SameClasses<T(!new)>(a: seq<T>, b: seq<T>, le: (T, T) -> bool) {
    forall k :: Class(a, k, le) == Class(b, k, le)
  }

  // ---- Ordered, and a permutation ----------------------------------------

  lemma {:induction false} InsertMultiset<T>(s: seq<T>, x: T, le: (T, T) -> bool)
    ensures multiset(Insert(s, x, le)) == multiset(s) + multiset{x}
  {
    if s != [] && !le(s[|s| - 1], x) {
      InsertMultiset(s[..|s| - 1], x, le);
      assert s == s[..|s| - 1] + [s[|s| - 1]];
    }
  }

  lemma InSameMultiset<T>(a: seq<T>, b: seq<T>)
    requires multiset(a) == multiset(b)
    ensures |a| == |b|
    ensures forall x :: x in a <==> x in b
  {
    assert |multiset(a)| == |a| && |multiset(b)| == |b|;
    forall x ensures x in a <==> x in b {
      assert x in a <==> x in multiset(a);
      assert x in b <==> x in multiset(b);
    }
  }

  lemma SortedSnoc<T>(s: seq<T>, y: T, le: (T, T) -> bool)
    requires Sorted(s, le) && forall e :: e in s ==> le(e, y)
    ensures Sorted(s + [y], le)
  {
  }

  lemma {:induction false} InsertSorted<T(!new)>(s: seq<T>, x: T, le: (T, T) -> bool)
    requires TotalPreorder(le) && Sorted(s, le)
    ensures Sorted(Insert(s, x, le), le)
  {
    if s == [] || le(s[|s| - 1], x) {
      forall e | e in s ensures le(e, x) {
        var i :| 0 <= i < |s| && s[i] == e;
        assert i < |s| - 1 ==> le(s[i], s[|s| - 1]);
      }
      SortedSnoc(s, x, le);
    } else {
      var p, y := s[..|s| - 1], s[|s| - 1];
      InsertSorted(p, x, le);
      InsertMultiset(p, x, le);
      InSameMultiset(Insert(p, x, le), p + [x]);
      forall e | e in Insert(p, x, le) ensures le(e, y) {
        assert e in p + [x];
      }
      SortedSnoc(Insert(p, x, le), y, le);
    }
  }

  lemma {:induction false} SortIsSorted<T(!new)>(s: seq<T>, le: (T, T) -> bool)
    requires TotalPreorder(le)
    ensures Sorted(Sort(s, le), le)
  {
    if s != [] {
      SortIsSorted(s[..|s| - 1], le);
      InsertSorted(Sort(s[..|s| - 1], le), s[|s| - 1], le);
    }
  }

  lemma {:induction false} SortMultiset<T>(s: seq<T>, le: (T, T) -> bool)
    ensures multiset(Sort(s, le)) == multiset(s)
  {
    if s != [] {
      SortMultiset(s[..|s| - 1], le);
      InsertMultiset(Sort(s[..|s| - 1], le), s[|s| - 1], le);
      assert s == s[..|s| - 1] + [s[|s| - 1]];
    }
  }

  lemma SortElements<T>(s: seq<T>, le: (T, T) -> bool)
    ensures |Sort(s, le)| == |s|
    ensures forall x :: x in Sort(s, le) <==> x in s
  {
    SortMultiset(s, le);
    InSameMultiset(Sort(s, le), s);
  }

  // ---- Stability -----------------------------------------------------------

  lemma {:induction false} InsertStable<T(!new)>(s: seq<T>, x: T, k: T, le: (T, T) -> bool)
    requires TotalPreorder(le)
    ensures Class(Insert(s, x, le), k, le) == Class(s + [x], k, le)
  {
    assert (s + [x])[..|s|] == s;
    if s != [] && !le(s[|s| - 1], x) {
      var p, y := s[..|s| - 1], s[|s| - 1];
      InsertStable(p, x, k, le);
      assert (Insert(p, x, le) + [y])[..|Insert(p, x, le)|] == Insert(p, x, le);
      assert (p + [x])[..|p|] == p;
    }
  }

  /** The sort keeps the relative order of equivalent elements. */
  lemma {:induction false} SortStable<T(!new)>(s: seq<T>, k: T, le: (T, T) -> bool)
    requires TotalPreorder(le)
    ensures Class(Sort(s, le), k, le) == Class(s, k, le)
  {
    if s != [] {
      var p, x := s[..|s| - 1], s[|s| - 1];
      SortStable(p, k, le);
      InsertStable(Sort(p, le), x, k, le);
      assert (Sort(p, le) + [x])[..|Sort(p, le)|] == Sort(p, le);
    }
  }

  // ---- Uniqueness ----------------------------------------------------------

  lemma {:induction false} ClassMembers<T>(s: seq<T>, k: T, le: (T, T) -> bool)
    ensures forall x :: x in Class(s, k, le) <==> x in s && le(x, k) && le(k, x)
  {
    if s != [] {
      ClassMembers(s[..|s| - 1], k, le);
      assert s == s[..|s| - 1] + [s[|s| - 1]];
    }
  }

  /** Sorted sequences with the same classes end in the same element. */
  lemma SameLast<T(!new)>(a: seq<T>, b: seq<T>, le: (T, T) -> bool)
    requires TotalPreorder(le) && Sorted(a, le) && Sorted(b, le)
    requires SameClasses(a, b, le) && a != []
    ensures b != [] && a[|a| - 1] == b[|b| - 1]
  {
    var x := a[|a| - 1];
    assert le(x, x);
    assert Class(a, x, le) == Class(b, x, le);
    ClassMembers(a, x, le);
    ClassMembers(b, x, le);
    assert x in b;
    var y := b[|b| - 1];
    assert le(y, y) && le(x, y);
    assert Class(a, y, le) == Class(b, y, le);
    ClassMembers(a, y, le);
    ClassMembers(b, y, le);
    assert y in a;
    assert le(y, x);
    assert Class(a, x, le)[|Class(a, x, le)| - 1] == x;
    assert Class(b, x, le)[|Class(b, x, le)| - 1] == y;
  }

  lemma {:induction false} SortedUnique<T(!new)>(a: seq<T>, b: seq<T>, le: (T, T) -> bool)
    requires TotalPreorder(le) && Sorted(a, le) && Sorted(b, le)
    requires SameClasses(a, b, le)
    ensures a == b
  {
    if a == [] {
      if b != [] { SameLast(b, a, le); }
    } else {
      SameLast(a, b, le);
      var p, q, x := a[..|a| - 1], b[..|b| - 1], a[|a| - 1];
      forall k ensures Class(p, k, le) == Class(q, k, le) {
        assert Class(a, k, le) == Class(b, k, le);
        var tail := if le(x, k) && le(k, x) then [x] else [];
        assert Class(p, k, le) + tail == Class(q, k, le) + tail;
        assert Class(p, k, le) == (Class(p, k, le) + tail)[..|Class(a, k, le)| - |tail|];
        assert Class(q, k, le) == (Class(q, k, le) + tail)[..|Class(a, k, le)| - |tail|];
      }
      SortedUnique(p, q, le);
      assert a == p + [x] && b == q + [x];
    }
  }

  /** Two sequences sort to the same result exactly when equivalent elements
      occur in the same order in both. */
  lemma SortCanonical<T(!new)>(a: seq<T>, b: seq<T>, le: (T, T) -> bool)
    requires TotalPreorder(le)
    ensures Sort(a, le) == Sort(b, le) <==> SameClasses(a, b, le)
  {
    SortIsSorted(a, le);
    SortIsSorted(b, le);
    forall k ensures Class(Sort(a, le), k, le) == Class(a, k, le)
             ensures Class(Sort(b, le), k, le) == Class(b, k, le) {
      SortStable(a, k, le);
      SortStable(b, k, le);
    }
    if SameClasses(a, b, le) {
      SortedUnique(Sort(a, le), Sort(b, le), le);
    }
    if Sort(a, le) == Sort(b, le) {
      forall k ensures Class(a, k, le) == Class(b, k, le) {}
    }
  }

  /** A sequence that is already ordered is left alone. */
  lemma SortFixpoint<T(!new)>(s: seq<T>, le: (T, T) -> bool)
    requires TotalPreorder(le) && Sorted(s, le)
    ensures Sort(s, le) == s
  {
    SortIsSorted(s, le);
    forall k ensures Class(Sort(s, le), k, le) == Class(s, k, le) { SortStable(s, k, le); }
    SortedUnique(Sort(s, le), s, le);
  }

  /** Equivalent elements of `s` are identical. */
  ghost predicate NoTies<T>(s: seq<T>, le: (T, T) -> bool) {
    forall x, y :: x in s && y in s && le(x, y) && le(y, x) ==> x == y
  }

  lemma {:induction false} ClassCount<T>(s: seq<T>, k: T, x: T, le: (T, T) -> bool)
    requires le(x, k) && le(k, x)
    requires forall y :: y in s && le(y, k) && le(k, y) ==> y == x
    ensures |Class(s, k, le)| == multiset(s)[x]
  {
    if s != [] {
      assert s == s[..|s| - 1] + [s[|s| - 1]];
      ClassCount(s[..|s| - 1], k, x, le);
    }
  }

  /** Without ties, permutations sort to the same result. */
  lemma PermutationSort<T(!new)>(a: seq<T>, b: seq<T>, le: (T, T) -> bool)
    requires TotalPreorder(le) && NoTies(a, le)
    requires multiset(a) == multiset(b)
    ensures Sort(a, le) == Sort(b, le)
  {
    InSameMultiset(a, b);
    forall k ensures Class(a, k, le) == Class(b, k, le) {
      var ca, cb := Class(a, k, le), Class(b, k, le);
      ClassMembers(a, k, le);
      ClassMembers(b, k, le);
      assert cb != [] ==> cb[0] in cb && cb[0] in ca;
      if ca != [] {
        var x := ca[0];
        assert x in ca;
        assert forall y :: y in a && le(y, k) && le(k, y) ==> y == x;
        ClassCount(a, k, x, le);
        ClassCount(b, k, x, le);
        assert forall y :: y in ca ==> y == x;
        assert forall y :: y in cb ==> y == x;
        assert forall i :: 0 <= i < |ca| ==> ca[i] in ca && cb[i] in cb;
      }
    }
    SortCanonical(a, b, le);
  }
}
