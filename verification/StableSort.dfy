/**
 The specification of sorting used by list_sort and by the priority lists: a
 stable insertion sort, the merge of two sequences that prefers its first
 argument, and the facts that tie the two together.

 A comparator follows the convention of list_sort: `cmp(a, b) > 0` says that `a`
 must sort after `b`; any other value says that `a` may stay in front of `b`.
 */
module StableSort {

  /** `cmp(a, b) > 0` is a strict weak order on the elements of `s`. */
  ghost predicate WeakOrder<T>(cmp: (T, T) -> int, s: seq<T>) {
    && (forall a, b {:trigger cmp(a, b)} | a in s && b in s :: cmp(a, b) <= 0 || cmp(b, a) <= 0)
    && (forall a, b, c {:trigger cmp(a, b), cmp(b, c)} |
          a in s && b in s && c in s && cmp(a, b) <= 0 && cmp(b, c) <= 0 :: cmp(a, c) <= 0)
  }

  ghost predicate Sorted<T>(cmp: (T, T) -> int, s: seq<T>) {
    forall i, j | 0 <= i < j < |s| :: cmp(s[i], s[j]) <= 0
  }

  /** Puts `x`, which precedes all of `s` in the input, at its place in the sorted `s`. */
  ghost function Insert<T>(cmp: (T, T) -> int, x: T, s: seq<T>): seq<T> {
    if s == [] || cmp(x, s[0]) <= 0 then [x] + s
    else [s[0]] + Insert(cmp, x, s[1..])
  }

  /** The stable insertion sort. */
  ghost function Sort<T>(cmp: (T, T) -> int, s: seq<T>): seq<T> {
    if s == [] then [] else Insert(cmp, s[0], Sort(cmp, s[1..]))
  }

  /** The merge that takes from `a` whenever it may. */
  ghost function Merge<T>(cmp: (T, T) -> int, a: seq<T>, b: seq<T>): seq<T> {
    if a == [] then b
    else if b == [] then a
    else if cmp(a[0], b[0]) <= 0 then [a[0]] + Merge(cmp, a[1..], b)
    else [b[0]] + Merge(cmp, a, b[1..])
  }

  /** The elements of `s` that `cmp` cannot tell from `x`, in the order of `s`. */
  ghost function Class<T>(cmp: (T, T) -> int, x: T, s: seq<T>): seq<T> {
    if s == [] then []
    else if cmp(x, s[0]) <= 0 && cmp(s[0], x) <= 0 then [s[0]] + Class(cmp, x, s[1..])
    else Class(cmp, x, s[1..])
  }

  /** `t` is a sorted rearrangement of `s` that keeps the order of equivalent elements. */
  ghost predicate IsStableSortOf<T>(cmp: (T, T) -> int, t: seq<T>, s: seq<T>) {
    && Sorted(cmp, t)
    && multiset(t) == multiset(s)
    && forall x | x in s :: Class(cmp, x, t) == Class(cmp, x, s)
  }

  /** Every element of `part` occurs in `all`. */
  ghost predicate Within<T>(part: seq<T>, all: seq<T>) {
    forall x | x in part :: x in all
  }

  // ----- elements

  lemma {:induction false} InsertElements<T>(cmp: (T, T) -> int, x: T, s: seq<T>)
    ensures multiset(Insert(cmp, x, s)) == multiset([x] + s)
    ensures |Insert(cmp, x, s)| == |s| + 1
  {
    if s != [] && cmp(x, s[0]) > 0 {
      InsertElements(cmp, x, s[1..]);
      assert s == [s[0]] + s[1..];
    }
  }

  lemma {:induction false} SortElements<T>(cmp: (T, T) -> int, s: seq<T>)
    ensures multiset(Sort(cmp, s)) == multiset(s)
    ensures |Sort(cmp, s)| == |s|
    ensures Within(Sort(cmp, s), s) && Within(s, Sort(cmp, s))
  {
    if s != [] {
      SortElements(cmp, s[1..]);
      InsertElements(cmp, s[0], Sort(cmp, s[1..]));
      assert s == [s[0]] + s[1..];
    }
    MultisetMembers(Sort(cmp, s), s);
  }

  lemma MultisetMembers<T>(a: seq<T>, b: seq<T>)
    requires multiset(a) == multiset(b)
    ensures Within(a, b) && Within(b, a)
  {
    forall x | x in a ensures x in b {
      assert x in multiset(b);
    }
    forall x | x in b ensures x in a {
      assert x in multiset(a);
    }
  }

  lemma SortWithin<T>(cmp: (T, T) -> int, s: seq<T>, all: seq<T>)
    requires Within(s, all)
    ensures Within(Sort(cmp, s), all)
  {
    SortElements(cmp, s);
  }

  lemma MultisetHead<T>(s: seq<T>)
    requires s != []
    ensures multiset(s) == multiset{s[0]} + multiset(s[1..])
  {
    assert s == [s[0]] + s[1..];
  }

  lemma {:induction false} MergeMultiset<T>(cmp: (T, T) -> int, a: seq<T>, b: seq<T>)
    ensures multiset(Merge(cmp, a, b)) == multiset(a) + multiset(b)
    decreases |a| + |b|
  {
    if a != [] && b != [] {
      if cmp(a[0], b[0]) <= 0 {
        MergeMultiset(cmp, a[1..], b);
        MultisetHead(a);
        MultisetHead(Merge(cmp, a, b));
        assert Merge(cmp, a, b)[1..] == Merge(cmp, a[1..], b);
      } else {
        MergeMultiset(cmp, a, b[1..]);
        MultisetHead(b);
        MultisetHead(Merge(cmp, a, b));
        assert Merge(cmp, a, b)[1..] == Merge(cmp, a, b[1..]);
      }
    }
  }

  lemma MergeElements<T>(cmp: (T, T) -> int, a: seq<T>, b: seq<T>)
    ensures multiset(Merge(cmp, a, b)) == multiset(a + b)
    ensures |Merge(cmp, a, b)| == |a| + |b|
    ensures Within(Merge(cmp, a, b), a + b) && Within(a + b, Merge(cmp, a, b))
  {
    MergeMultiset(cmp, a, b);
    MultisetMembers(Merge(cmp, a, b), a + b);
    assert |multiset(Merge(cmp, a, b))| == |multiset(a + b)|;
  }

  lemma MergeLength<T>(cmp: (T, T) -> int, a: seq<T>, b: seq<T>)
    ensures |Merge(cmp, a, b)| == |a| + |b|
  {
    MergeElements(cmp, a, b);
  }

  // ----- merging sorted pieces sorts their concatenation

  lemma {:induction false} InsertThenMerge<T>(cmp: (T, T) -> int, all: seq<T>, x: T, a: seq<T>, b: seq<T>)
    requires WeakOrder(cmp, all) && x in all && Within(a, all) && Within(b, all)
    ensures Merge(cmp, Insert(cmp, x, a), b) == Insert(cmp, x, Merge(cmp, a, b))
    decreases |a| + |b|
  {
    if b == [] {
    } else if a == [] || cmp(x, a[0]) <= 0 {
      assert ([x] + a)[1..] == a;
      if cmp(x, b[0]) > 0 {
        InsertThenMerge(cmp, all, x, a, b[1..]);
        if a != [] {
          assert cmp(a[0], b[0]) > 0;
        }
      }
    } else if cmp(a[0], b[0]) <= 0 {
      InsertThenMerge(cmp, all, x, a[1..], b);
      assert Insert(cmp, x, a)[1..] == Insert(cmp, x, a[1..]);
    } else {
      InsertThenMerge(cmp, all, x, a, b[1..]);
      assert cmp(x, b[0]) > 0;
    }
  }

  /** The heart of every bottom-up merge sort: sorted halves merge to the sorted whole. */
  lemma {:induction false} MergeOfSorts<T>(cmp: (T, T) -> int, all: seq<T>, a: seq<T>, b: seq<T>)
    requires WeakOrder(cmp, all) && Within(a, all) && Within(b, all)
    ensures Merge(cmp, Sort(cmp, a), Sort(cmp, b)) == Sort(cmp, a + b)
  {
    if a == [] {
      assert a + b == b;
    } else {
      assert (a + b)[1..] == a[1..] + b;
      MergeOfSorts(cmp, all, a[1..], b);
      SortWithin(cmp, a[1..], all);
      SortWithin(cmp, b, all);
      InsertThenMerge(cmp, all, a[0], Sort(cmp, a[1..]), Sort(cmp, b));
    }
  }

  lemma SortOfParts<T>(cmp: (T, T) -> int, all: seq<T>, s: seq<T>, mid: nat)
    requires WeakOrder(cmp, all) && Within(s, all) && mid <= |s|
    ensures Merge(cmp, Sort(cmp, s[..mid]), Sort(cmp, s[mid..])) == Sort(cmp, s)
  {
    MergeOfSorts(cmp, all, s[..mid], s[mid..]);
    assert s == s[..mid] + s[mid..];
  }

  // ----- Sort is a stable sort, and the only one

  lemma PrependSorted<T>(cmp: (T, T) -> int, x: T, s: seq<T>)
    requires Sorted(cmp, s)
    requires forall y | y in s :: cmp(x, y) <= 0
    ensures Sorted(cmp, [x] + s)
  {
  }

  lemma InsertedLater<T>(cmp: (T, T) -> int, all: seq<T>, x: T, s: seq<T>)
    requires WeakOrder(cmp, all) && x in all && Within(s, all) && Sorted(cmp, s) && s != [] && cmp(x, s[0]) > 0
    ensures forall y | y in Insert(cmp, x, s[1..]) :: cmp(s[0], y) <= 0
  {
    var t := Insert(cmp, x, s[1..]);
    InsertElements(cmp, x, s[1..]);
    MultisetMembers(t, [x] + s[1..]);
    forall y | y in t ensures cmp(s[0], y) <= 0 {
      assert y in [x] + s[1..];
    }
  }

  lemma {:induction false} InsertKeepsSorted<T>(cmp: (T, T) -> int, all: seq<T>, x: T, s: seq<T>)
    requires WeakOrder(cmp, all) && x in all && Within(s, all) && Sorted(cmp, s)
    ensures Sorted(cmp, Insert(cmp, x, s))
  {
    if s != [] && cmp(x, s[0]) > 0 {
      InsertKeepsSorted(cmp, all, x, s[1..]);
      InsertedLater(cmp, all, x, s);
      PrependSorted(cmp, s[0], Insert(cmp, x, s[1..]));
    }
  }

  lemma {:induction false} InsertClass<T>(cmp: (T, T) -> int, all: seq<T>, x: T, s: seq<T>, y: T)
    requires WeakOrder(cmp, all) && x in all && y in all && Within(s, all)
    ensures Class(cmp, y, Insert(cmp, x, s)) == Class(cmp, y, [x] + s)
  {
    if s != [] && cmp(x, s[0]) > 0 {
      InsertClass(cmp, all, x, s[1..], y);
      assert Insert(cmp, x, s)[1..] == Insert(cmp, x, s[1..]);
      assert ([x] + s)[1..] == s && ([x] + s[1..])[1..] == s[1..];
      // y cannot be equivalent to both x and s[0], which the comparator tells apart
    }
  }

  lemma {:induction false} SortClass<T>(cmp: (T, T) -> int, all: seq<T>, s: seq<T>, y: T)
    requires WeakOrder(cmp, all) && y in all && Within(s, all)
    ensures Class(cmp, y, Sort(cmp, s)) == Class(cmp, y, s)
  {
    if s != [] {
      SortClass(cmp, all, s[1..], y);
      var t := Sort(cmp, s[1..]);
      SortElements(cmp, s[1..]);
      InsertClass(cmp, all, s[0], t, y);
      assert ([s[0]] + t)[1..] == t;
    }
  }

  lemma {:induction false} SortKeepsSorted<T>(cmp: (T, T) -> int, all: seq<T>, s: seq<T>)
    requires WeakOrder(cmp, all) && Within(s, all)
    ensures Sorted(cmp, Sort(cmp, s))
  {
    if s != [] {
      SortKeepsSorted(cmp, all, s[1..]);
      SortElements(cmp, s[1..]);
      InsertKeepsSorted(cmp, all, s[0], Sort(cmp, s[1..]));
    }
  }

  lemma SortIsStableSort<T>(cmp: (T, T) -> int, s: seq<T>)
    requires WeakOrder(cmp, s)
    ensures IsStableSortOf(cmp, Sort(cmp, s), s)
  {
    SortKeepsSorted(cmp, s, s);
    SortElements(cmp, s);
    forall x | x in s ensures Class(cmp, x, Sort(cmp, s)) == Class(cmp, x, s) {
      SortClass(cmp, s, s, x);
    }
  }

  lemma {:induction false} ClassMembers<T>(cmp: (T, T) -> int, x: T, s: seq<T>)
    ensures forall y :: y in Class(cmp, x, s) <==> y in s && cmp(x, y) <= 0 && cmp(y, x) <= 0
  {
    if s != [] {
      ClassMembers(cmp, x, s[1..]);
      assert s == [s[0]] + s[1..];
    }
  }

  ghost predicate SameClasses<T>(cmp: (T, T) -> int, all: seq<T>, a: seq<T>, b: seq<T>) {
    forall x | x in all :: Class(cmp, x, a) == Class(cmp, x, b)
  }

  /** The first element of a sorted sequence is no larger than the first of any with the same classes. */
  lemma FirstIsLeast<T>(cmp: (T, T) -> int, all: seq<T>, a: seq<T>, b: seq<T>)
    requires WeakOrder(cmp, all) && Within(b, all) && Sorted(cmp, a) && SameClasses(cmp, all, a, b)
    requires b != []
    ensures a != [] && cmp(a[0], b[0]) <= 0
  {
    var x := b[0];
    assert x in all;
    ClassMembers(cmp, x, b);
    ClassMembers(cmp, x, a);
    assert x in Class(cmp, x, b);
    assert x in a;
    var k :| 0 <= k < |a| && a[k] == x;
  }

  lemma SameFirst<T>(cmp: (T, T) -> int, all: seq<T>, a: seq<T>, b: seq<T>)
    requires WeakOrder(cmp, all) && Within(a, all) && Within(b, all)
    requires Sorted(cmp, a) && Sorted(cmp, b) && SameClasses(cmp, all, a, b)
    requires b != []
    ensures a != [] && a[0] == b[0]
  {
    FirstIsLeast(cmp, all, a, b);
    FirstIsLeast(cmp, all, b, a);
    var x := a[0];
    assert x in a;
    assert Class(cmp, x, a) == Class(cmp, x, b);
    assert Class(cmp, x, a)[0] == a[0] && Class(cmp, x, b)[0] == b[0];
  }

  lemma SortedTail<T>(cmp: (T, T) -> int, all: seq<T>, a: seq<T>)
    requires a != [] && Sorted(cmp, a) && Within(a, all)
    ensures Sorted(cmp, a[1..]) && Within(a[1..], all)
  {
  }

  /** Dropping an element that comes first in both keeps the classes the same. */
  lemma TailClasses<T>(cmp: (T, T) -> int, all: seq<T>, a: seq<T>, b: seq<T>)
    requires a != [] && b != [] && a[0] == b[0] && SameClasses(cmp, all, a, b)
    ensures SameClasses(cmp, all, a[1..], b[1..])
  {
    forall x | x in all ensures Class(cmp, x, a[1..]) == Class(cmp, x, b[1..]) {
      assert Class(cmp, x, a) == Class(cmp, x, b);
      if cmp(x, a[0]) <= 0 && cmp(a[0], x) <= 0 {
        assert Class(cmp, x, a[1..]) == Class(cmp, x, a)[1..];
        assert Class(cmp, x, b[1..]) == Class(cmp, x, b)[1..];
      }
    }
  }

  /** Two sorted sequences with the same equivalence classes are the same sequence. */
  lemma {:induction false} SortedByClasses<T>(cmp: (T, T) -> int, all: seq<T>, a: seq<T>, b: seq<T>)
    requires WeakOrder(cmp, all) && Within(a, all) && Within(b, all)
    requires Sorted(cmp, a) && Sorted(cmp, b)
    requires SameClasses(cmp, all, a, b)
    ensures a == b
  {
    if b != [] {
      SameFirst(cmp, all, a, b);
      TailClasses(cmp, all, a, b);
      SortedTail(cmp, all, a);
      SortedTail(cmp, all, b);
      SortedByClasses(cmp, all, a[1..], b[1..]);
      assert a == [a[0]] + a[1..] && b == [b[0]] + b[1..];
    } else if a != [] {
      FirstIsLeast(cmp, all, b, a);
    }
  }

  /** There is exactly one stable sort of a sequence. */
  lemma StableSortIsUnique<T>(cmp: (T, T) -> int, s: seq<T>, t: seq<T>)
    requires WeakOrder(cmp, s)
    ensures IsStableSortOf(cmp, t, s) <==> t == Sort(cmp, s)
  {
    SortIsStableSort(cmp, s);
    if IsStableSortOf(cmp, t, s) {
      MultisetMembers(t, s);
      SortElements(cmp, s);
      SortedByClasses(cmp, s, t, Sort(cmp, s));
    }
  }

  // ----- merging halves

  /** A merge sort that cuts in the middle; with an arbitrary comparator it is only some rearrangement. */
  ghost function MergeSort<T>(cmp: (T, T) -> int, s: seq<T>): seq<T>
    decreases |s|
  {
    if |s| < 2 then s else Merge(cmp, MergeSort(cmp, s[..|s| / 2]), MergeSort(cmp, s[|s| / 2..]))
  }

  lemma {:induction false} MergeSortElements<T>(cmp: (T, T) -> int, s: seq<T>)
    ensures multiset(MergeSort(cmp, s)) == multiset(s) && |MergeSort(cmp, s)| == |s|
    decreases |s|
  {
    if |s| >= 2 {
      var a, b := s[..|s| / 2], s[|s| / 2..];
      MergeSortElements(cmp, a);
      MergeSortElements(cmp, b);
      MergeElements(cmp, MergeSort(cmp, a), MergeSort(cmp, b));
      assert s == a + b;
    }
  }

  /** With a weak order it is the stable sort. */
  lemma {:induction false} MergeSortIsSort<T>(cmp: (T, T) -> int, all: seq<T>, s: seq<T>)
    requires WeakOrder(cmp, all) && Within(s, all)
    ensures MergeSort(cmp, s) == Sort(cmp, s)
    decreases |s|
  {
    if |s| < 2 {
      SortOfOne(cmp, s);
    } else {
      MergeSortIsSort(cmp, all, s[..|s| / 2]);
      MergeSortIsSort(cmp, all, s[|s| / 2..]);
      SortOfParts(cmp, all, s, |s| / 2);
    }
  }

  lemma SortOfOne<T>(cmp: (T, T) -> int, s: seq<T>)
    requires |s| <= 1
    ensures Sort(cmp, s) == s
  {
    if s != [] {
      assert Sort(cmp, s) == Insert(cmp, s[0], Sort(cmp, s[1..]));
    }
  }

  // ----- the comparisons made by a merge

  /** The pairs handed to the comparator while `a` and `b` are merged, in order. */
  ghost function MergeCalls<T>(cmp: (T, T) -> int, a: seq<T>, b: seq<T>): seq<(T, T)> {
    if a == [] || b == [] then []
    else if cmp(a[0], b[0]) <= 0 then [(a[0], b[0])] + MergeCalls(cmp, a[1..], b)
    else [(a[0], b[0])] + MergeCalls(cmp, a, b[1..])
  }

  lemma {:induction false} MergeCallsBound<T>(cmp: (T, T) -> int, a: seq<T>, b: seq<T>)
    ensures a != [] && b != [] ==> |MergeCalls(cmp, a, b)| <= |a| + |b| - 1
    ensures forall p | p in MergeCalls(cmp, a, b) :: p.0 in a && p.1 in b
    decreases |a| + |b|
  {
    if a != [] && b != [] {
      if cmp(a[0], b[0]) <= 0 {
        MergeCallsBound(cmp, a[1..], b);
      } else {
        MergeCallsBound(cmp, a, b[1..]);
      }
    }
  }

  lemma MergeCallsLength<T>(cmp: (T, T) -> int, a: seq<T>, b: seq<T>)
    requires a != [] && b != []
    ensures 0 < |MergeCalls(cmp, a, b)| < |a| + |b|
  {
    MergeCallsBound(cmp, a, b);
  }
}
