/**
 What a merge appends without comparing, told from the two lists before they are sorted: the entries
 of the second that no entry of the first must sort after, and the entries of the first that must
 sort after all of the second.
 */
module Leftover {
  import opened StableSort

  ghost function Count<T>(s: seq<T>, p: T -> bool): nat {
    if s == [] then 0 else (if p(s[0]) then 1 else 0) + Count(s[1..], p)
  }

  ghost predicate AfterAll<T>(cmp: (T, T) -> int, a: seq<T>, y: T) {
    forall x | x in a :: cmp(x, y) <= 0
  }

  ghost predicate AboveAll<T>(cmp: (T, T) -> int, x: T, b: seq<T>) {
    forall y | y in b :: cmp(x, y) > 0
  }

  /** How many entries of `b` may stay behind all of `a`. */
  ghost function Late<T>(cmp: (T, T) -> int, a: seq<T>, b: seq<T>): nat {
    Count(b, y => AfterAll(cmp, a, y))
  }

  /** How many entries of `a` must sort after all of `b`. */
  ghost function Above<T>(cmp: (T, T) -> int, a: seq<T>, b: seq<T>): nat {
    Count(a, x => AboveAll(cmp, x, b))
  }

  lemma {:induction false} CountSame<T>(s: seq<T>, p: T -> bool, q: T -> bool)
    requires forall x | x in s :: p(x) == q(x)
    ensures Count(s, p) == Count(s, q)
  {
    if s != [] {
      CountSame(s[1..], p, q);
    }
  }

  lemma {:induction false} CountAll<T>(s: seq<T>, p: T -> bool)
    requires forall x | x in s :: p(x)
    ensures Count(s, p) == |s|
  {
    if s != [] {
      CountAll(s[1..], p);
    }
  }

  lemma {:induction false} CountBound<T>(s: seq<T>, p: T -> bool)
    ensures Count(s, p) <= |s|
  {
    if s != [] {
      CountBound(s[1..], p);
    }
  }

  lemma {:induction false} CountInsert<T>(cmp: (T, T) -> int, x: T, s: seq<T>, p: T -> bool)
    ensures Count(Insert(cmp, x, s), p) == (if p(x) then 1 else 0) + Count(s, p)
  {
    if s == [] || cmp(x, s[0]) <= 0 {
      assert ([x] + s)[1..] == s;
    } else {
      CountInsert(cmp, x, s[1..], p);
      assert Insert(cmp, x, s)[1..] == Insert(cmp, x, s[1..]);
    }
  }

  lemma {:induction false} CountSort<T>(cmp: (T, T) -> int, s: seq<T>, p: T -> bool)
    ensures Count(Sort(cmp, s), p) == Count(s, p)
  {
    if s != [] {
      CountSort(cmp, s[1..], p);
      CountInsert(cmp, s[0], Sort(cmp, s[1..]), p);
    }
  }

  /** Both counts depend on what the lists hold, not on its order. */
  lemma SortedCounts<T>(cmp: (T, T) -> int, a: seq<T>, b: seq<T>)
    ensures Late(cmp, Sort(cmp, a), Sort(cmp, b)) == Late(cmp, a, b)
    ensures Above(cmp, Sort(cmp, a), Sort(cmp, b)) == Above(cmp, a, b)
  {
    var sa, sb := Sort(cmp, a), Sort(cmp, b);
    SortElements(cmp, a);
    SortElements(cmp, b);
    CountSort(cmp, b, y => AfterAll(cmp, a, y));
    CountSame(sb, y => AfterAll(cmp, sa, y), y => AfterAll(cmp, a, y));
    CountSort(cmp, a, x => AboveAll(cmp, x, b));
    CountSame(sa, x => AboveAll(cmp, x, sb), x => AboveAll(cmp, x, b));
  }

  /** The first of `a` goes first: it stands in nobody's way. */
  lemma LeftGoes<T>(cmp: (T, T) -> int, all: seq<T>, a: seq<T>, b: seq<T>)
    requires WeakOrder(cmp, all) && Within(a, all) && Within(b, all) && Sorted(cmp, b)
    requires a != [] && b != [] && cmp(a[0], b[0]) <= 0
    ensures Late(cmp, a, b) == Late(cmp, a[1..], b) && Above(cmp, a, b) == Above(cmp, a[1..], b)
  {
    forall y | y in b ensures cmp(a[0], y) <= 0 {
      var j :| 0 <= j < |b| && b[j] == y;
      assert cmp(b[0], y) <= 0 || j == 0;
    }
    assert a == [a[0]] + a[1..];
    CountSame(b, y => AfterAll(cmp, a, y), y => AfterAll(cmp, a[1..], y));
    assert !AboveAll(cmp, a[0], b);
  }

  lemma RightGoes<T>(cmp: (T, T) -> int, all: seq<T>, a: seq<T>, b: seq<T>)
    requires WeakOrder(cmp, all) && Within(a, all) && Within(b, all) && Sorted(cmp, a)
    requires a != [] && b != [] && cmp(a[0], b[0]) > 0
    ensures Late(cmp, a, b) == Late(cmp, a, b[1..]) && Above(cmp, a, b) == Above(cmp, a, b[1..])
  {
    forall x | x in a ensures cmp(x, b[0]) > 0 {
      var j :| 0 <= j < |a| && a[j] == x;
      assert cmp(a[0], x) <= 0 || j == 0;
    }
    assert b == [b[0]] + b[1..];
    CountSame(a, x => AboveAll(cmp, x, b), x => AboveAll(cmp, x, b[1..]));
    assert !AfterAll(cmp, a, b[0]);
  }

  /** A merge compares once for every entry but those that one of the two lists is left with. */
  lemma {:induction false} MergeLeaves<T>(cmp: (T, T) -> int, all: seq<T>, a: seq<T>, b: seq<T>)
    requires WeakOrder(cmp, all) && Within(a, all) && Within(b, all)
    requires Sorted(cmp, a) && Sorted(cmp, b)
    ensures |a| + |b| - |MergeCalls(cmp, a, b)| == Late(cmp, a, b) + Above(cmp, a, b)
    decreases |a| + |b|
  {
    if a == [] {
      CountAll(b, y => AfterAll(cmp, a, y));
    } else if b == [] {
      CountAll(a, x => AboveAll(cmp, x, b));
    } else if cmp(a[0], b[0]) <= 0 {
      LeftGoes(cmp, all, a, b);
      SortedTail(cmp, all, a);
      MergeLeaves(cmp, all, a[1..], b);
    } else {
      RightGoes(cmp, all, a, b);
      SortedTail(cmp, all, b);
      MergeLeaves(cmp, all, a, b[1..]);
    }
  }
}
