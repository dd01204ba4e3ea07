/**
 When list_sort calls its comparator with the same entry twice, which its documentation rules out:
 told from the input, with the smallest size at which it can happen.
 */
module DummyCalls {
  import opened Sequences
  import opened List
  import opened ListMerge
  import opened ListSort
  import opened PendingRuns
  import opened Binary
  import opened Leftover
  import S = StableSort

  /**
   For any comparator there are at most (n - 1) / 256. With a weak order there is none if and only if fewer
   than 256 entries are appended without comparing, which the input tells.
   */
  lemma DummyCallCount(cmp: Compare, s: seq<ListHead>)
    requires |s| >= 2
    ensures |Dummies(cmp, s)| <= (|s| - 1) / 256
    ensures S.WeakOrder(cmp, s) ==> |Dummies(cmp, s)| == Uncompared(cmp, s) / 256
    ensures S.WeakOrder(cmp, s) ==> (|Dummies(cmp, s)| == 0 <==> Uncompared(cmp, s) < 256)
  {
    LastMergeLength(cmp, s);
    DummiesAre(cmp, s);
    if S.WeakOrder(cmp, s) {
      UncomparedIs(cmp, s);
    }
  }

  /** A dummy call hands over one entry twice, which is not in input order. */
  lemma DummyCallIs(cmp: Compare, s: seq<ListHead>, k: nat)
    requires Distinct(s) && k < |Dummies(cmp, s)|
    ensures var call := Dummies(cmp, s)[k];
      call.0 == call.1 && call.0 in s && !Before(s, call.0, call.1)
  {
    DummiesAre(cmp, s);
    OutcomeArranged(cmp, s);
    var call := Dummies(cmp, s)[k];
    assert call.0 in Nodes(Outcome(cmp, s));
  }

  // ----- the extremes

  lemma {:induction false} CountWitness<T>(s: seq<T>, p: T -> bool) returns (x: T)
    requires Count(s, p) > 0
    ensures x in s && p(x)
  {
    if p(s[0]) {
      x := s[0];
    } else {
      x := CountWitness(s[1..], p);
    }
  }

  /** Only one of the two lists has entries left. */
  lemma OneSided<T>(cmp: (T, T) -> int, a: seq<T>, b: seq<T>)
    ensures Late(cmp, a, b) == 0 || Above(cmp, a, b) == 0
  {
    if Late(cmp, a, b) > 0 && Above(cmp, a, b) > 0 {
      var y := CountWitness(b, y => AfterAll(cmp, a, y));
      var x := CountWitness(a, x => AboveAll(cmp, x, b));
      assert false;
    }
  }

  /** With a weak order no more entries are left than the longer of the last two lists has. */
  lemma UncomparedBound(cmp: Compare, s: seq<ListHead>)
    requires |s| >= 2
    ensures Uncompared(cmp, s) <= Oldest(|s|) || Uncompared(cmp, s) <= |s| - Oldest(|s|)
  {
    var a, b := s[..Oldest(|s|)], s[Oldest(|s|)..];
    OneSided(cmp, a, b);
    CountBound(b, y => AfterAll(cmp, a, y));
    CountBound(a, x => AboveAll(cmp, x, b));
  }

  /** On sorted input everything newer than the oldest run is appended without comparing. */
  lemma SortedUncompared(cmp: Compare, s: seq<ListHead>)
    requires |s| >= 2 && S.Sorted(cmp, s)
    ensures Uncompared(cmp, s) == |s| - Oldest(|s|)
  {
    var a, b := s[..Oldest(|s|)], s[Oldest(|s|)..];
    forall y | y in b ensures AfterAll(cmp, a, y) {
      var j :| 0 <= j < |b| && b[j] == y;
      assert y == s[Oldest(|s|) + j];
    }
    CountAll(b, y => AfterAll(cmp, a, y));
    OneSided(cmp, a, b);
  }

  ghost predicate Descending(cmp: Compare, s: seq<ListHead>) {
    forall i, j | 0 <= i < j < |s| :: cmp(s[i], s[j]) > 0
  }

  /** On strictly descending input it is the oldest run. */
  lemma DescendingUncompared(cmp: Compare, s: seq<ListHead>)
    requires |s| >= 2 && Descending(cmp, s)
    ensures Uncompared(cmp, s) == Oldest(|s|)
  {
    var a, b := s[..Oldest(|s|)], s[Oldest(|s|)..];
    forall x | x in a ensures AboveAll(cmp, x, b) {
      var i :| 0 <= i < |a| && a[i] == x;
      forall y | y in b ensures cmp(x, y) > 0 {
        var j :| 0 <= j < |b| && b[j] == y;
        assert x == s[i] && y == s[Oldest(|s|) + j];
      }
    }
    CountAll(a, x => AboveAll(cmp, x, b));
    OneSided(cmp, a, b);
  }

  /** So on sorted input the last merge compares once for each entry of the oldest run. */
  lemma SortedDummyCalls(cmp: Compare, s: seq<ListHead>)
    requires S.WeakOrder(cmp, s) && S.Sorted(cmp, s) && |s| >= 2
    ensures |LastMerge(cmp, s)| == Oldest(|s|) && |Dummies(cmp, s)| == (|s| - Oldest(|s|)) / 256
  {
    UncomparedIs(cmp, s);
    DummiesAre(cmp, s);
    SortedUncompared(cmp, s);
  }

  lemma DescendingDummyCalls(cmp: Compare, s: seq<ListHead>)
    requires S.WeakOrder(cmp, s) && Descending(cmp, s) && |s| >= 2
    ensures |LastMerge(cmp, s)| == |s| - Oldest(|s|) && |Dummies(cmp, s)| == Oldest(|s|) / 256
  {
    UncomparedIs(cmp, s);
    DummiesAre(cmp, s);
    DescendingUncompared(cmp, s);
  }

  // ----- the sizes

  /** The oldest run has the size of the highest digit, if the next digit is one, and half of it otherwise. */
  lemma OldestSize(n: nat)
    requires n >= 2
    ensures BitLength(n) >= 2
    ensures var h := Pow2(BitLength(n) - 2);
      && 2 * h <= n < 4 * h
      && Oldest(n) == if n >= 3 * h then 2 * h else h
  {
    var l := BitLength(n);
    OldestIs(n);
    BitLengthIsLog2(n);
    LowAll(n);
    LowStep(n, l - 1);
    LowStep(n, l - 2);
    LowBound(n, l - 2);
    TopBit(n);
    assert Pow2(l - 1) == 2 * Pow2(l - 2) && Pow2(l) == 2 * Pow2(l - 1);
    assert Bit(n, l - 2) == 0 || Bit(n, l - 2) == 1;
  }

  /** 384 is the least size at which 256 entries can be appended without comparing. */
  lemma SharpSize(n: nat)
    requires n >= 2
    ensures Oldest(n) >= 256 || n - Oldest(n) >= 256 <==> n >= 384
  {
    var l := BitLength(n);
    OldestSize(n);
    assert Pow2(7) == 128;
    if l - 2 < 7 {
      Pow2Grows(l - 2, 6);
    } else if l - 2 > 7 {
      Pow2Grows(8, l - 2);
    }
  }

  lemma {:induction false} Pow2Grows(i: nat, j: nat)
    requires i <= j
    ensures Pow2(i) <= Pow2(j)
  {
    if i < j {
      Pow2Grows(i, j - 1);
    }
  }

  // ----- inputs that are given dummy calls

  function Position<T(==)>(s: seq<T>, x: T): nat {
    if s == [] || s[0] == x then 0 else 1 + Position(s[1..], x)
  }

  lemma {:induction false} PositionIs<T>(s: seq<T>, i: nat)
    requires Distinct(s) && i < |s|
    ensures Position(s, s[i]) == i
  {
    if i > 0 {
      PositionIs(s[1..], i - 1);
    }
  }

  /** The comparator for which `s` is strictly descending, and the one for which it is sorted already. */
  function LastFirst(s: seq<ListHead>): Compare {
    (a: ListHead, b: ListHead) => Position(s, b) - Position(s, a)
  }

  function FirstFirst(s: seq<ListHead>): Compare {
    (a: ListHead, b: ListHead) => Position(s, a) - Position(s, b)
  }

  lemma ByPosition(s: seq<ListHead>, a: ListHead, b: ListHead)
    ensures FirstFirst(s)(a, b) == Position(s, a) - Position(s, b)
    ensures LastFirst(s)(a, b) == Position(s, b) - Position(s, a)
  {
  }

  lemma PositionOrders(s: seq<ListHead>)
    requires Distinct(s)
    ensures S.WeakOrder(FirstFirst(s), s) && S.Sorted(FirstFirst(s), s)
    ensures S.WeakOrder(LastFirst(s), s) && Descending(LastFirst(s), s)
  {
    forall i, j | 0 <= i < j < |s| ensures FirstFirst(s)(s[i], s[j]) < 0 && LastFirst(s)(s[i], s[j]) > 0 {
      PositionIs(s, i);
      PositionIs(s, j);
      ByPosition(s, s[i], s[j]);
    }
  }

  /** Every strictly descending input of 384 entries is given exactly one dummy call. */
  lemma FailingInput(cmp: Compare, s: seq<ListHead>)
    requires S.WeakOrder(cmp, s) && Descending(cmp, s) && |s| == 384
    ensures Oldest(384) == 256 && |Dummies(cmp, s)| == 1
  {
    DescendingDummyCalls(cmp, s);
    SharpSize(384);
    OldestSize(384);
  }

  /** Any 384 entries are such an input for the comparator that puts the last one first. */
  lemma FailingOrder(s: seq<ListHead>)
    requires Distinct(s) && |s| == 384
    ensures S.WeakOrder(LastFirst(s), s) && |Dummies(LastFirst(s), s)| == 1
  {
    PositionOrders(s);
    FailingInput(LastFirst(s), s);
  }

  /** Some order of the entries leads to a dummy call if and only if there are at least 384 of them. */
  lemma DummyCallsPossible(s: seq<ListHead>)
    requires Distinct(s) && |s| >= 2
    ensures (exists cmp: Compare :: S.WeakOrder(cmp, s) && |Dummies(cmp, s)| > 0) <==> |s| >= 384
  {
    SharpSize(|s|);
    PositionOrders(s);
    SortedDummyCalls(FirstFirst(s), s);
    DescendingDummyCalls(LastFirst(s), s);
    forall cmp: Compare | S.WeakOrder(cmp, s) && |Dummies(cmp, s)| > 0 ensures |s| >= 384 {
      DummyCallCount(cmp, s);
      UncomparedBound(cmp, s);
    }
  }
}
