/**
 list_sort: a bottom-up merge sort of a ring in place. Sorted runs wait in a list of lists
 linked through `prev`; the digits of the number of elements taken so far choose the runs
 to merge (module PendingRuns). Every run is a merge sort of a consecutive piece of the input,
 for any comparator; with a weak order it is the stable sort of that piece (module StableSort).
 */
module ListSort {
  import opened Sequences
  import opened List
  import opened ListMerge
  import opened PendingRuns
  import opened Binary
  import Leftover
  import S = StableSort

  // ----- the pending list of lists

  /** The first entry of run `i`, or null past the oldest run. */
  ghost function First(runs: seq<seq<ListHead>>, i: nat): ListHead? {
    if i < |runs| && runs[i] != [] then runs[i][0] else null
  }

  /** Run `i` is null-terminated and its first entry's `prev` leads to the next older run. */
  ghost predicate RunLinked(dom: set<ListHead>, runs: seq<seq<ListHead>>, i: nat)
    requires i < |runs|
    reads dom`next, dom`prev
  {
    && Nodes(runs[i]) <= dom
    && Chain(runs[i])
    && runs[i][0].prev == First(runs, i + 1)
  }

  /** The runs share no entry and none occurs twice. */
  ghost predicate Disjoint(runs: seq<seq<ListHead>>) {
    && (forall i | 0 <= i < |runs| :: Distinct(runs[i]))
    && (forall i, j | 0 <= i < j < |runs| :: Nodes(runs[i]) !! Nodes(runs[j]))
  }

  /** `pending` starts the prev-linked list of `runs`, newest first, which lie in `dom`. */
  ghost predicate PendingList(dom: set<ListHead>, runs: seq<seq<ListHead>>, pending: ListHead?)
    reads dom`next, dom`prev
  {
    && Disjoint(runs)
    && pending == First(runs, 0)
    && forall i | 0 <= i < |runs| :: RunLinked(dom, runs, i)
  }

  lemma NodesApart(a: seq<ListHead>, b: seq<ListHead>)
    requires Distinct(a) && Distinct(b) && Nodes(a) !! Nodes(b)
    ensures Separate([], a, b)
  {
    forall i, j | 0 <= i < |a| && 0 <= j < |b| ensures a[i] != b[j] {
      assert a[i] in Nodes(a) && b[j] in Nodes(b);
    }
  }

  /** `a = merge(b, a)` for the neighbouring runs `a` and `b`; every other run is left alone. */
  method MergeRuns(c: Comparator, a: ListHead, b: ListHead,
                   ghost dom: set<ListHead>, ghost runs: seq<seq<ListHead>>, ghost k: nat)
    returns (m: ListHead, ghost calls: Calls)
    requires Disjoint(runs) && k + 1 < |runs|
    requires forall i | 0 <= i < |runs| :: RunLinked(dom, runs, i)
    requires a == First(runs, k) && b == First(runs, k + 1)
    modifies dom`next, c`log
    ensures c.log == old(c.log) + calls
    ensures forall i | 0 <= i < |runs| && i != k && i != k + 1 :: RunLinked(dom, runs, i)
    ensures Chain(S.Merge(c.order, runs[k + 1], runs[k])) && m == S.Merge(c.order, runs[k + 1], runs[k])[0]
    ensures calls == S.MergeCalls(c.order, runs[k + 1], runs[k])
  {
    NodesApart(runs[k + 1], runs[k]);
    assert RunLinked(dom, runs, k) && RunLinked(dom, runs, k + 1);
    m := Merge(c, b, a, runs[k + 1], runs[k]);
    calls := S.MergeCalls(c.order, runs[k + 1], runs[k]);
    forall i | 0 <= i < |runs| && i != k && i != k + 1
      ensures RunLinked(dom, runs, i)
    {
      assert old(RunLinked(dom, runs, i));
      assert Nodes(runs[i]) !! Nodes(runs[k + 1] + runs[k]);
    }
  }

  /** The pending runs once runs `k` and `k + 1` have been replaced by `merged`. */
  ghost function Join(runs: seq<seq<ListHead>>, k: nat, merged: seq<ListHead>): seq<seq<ListHead>>
    requires k + 1 < |runs|
  {
    runs[..k] + [merged] + runs[k + 2..]
  }

  lemma JoinDisjoint(runs: seq<seq<ListHead>>, k: nat, merged: seq<ListHead>)
    requires Disjoint(runs) && k + 1 < |runs|
    requires Distinct(merged) && Nodes(merged) == Nodes(runs[k]) + Nodes(runs[k + 1])
    ensures Disjoint(Join(runs, k, merged))
  {
  }

  /** `a->prev = b->prev; *tail = a` for the merged run that starts at `m`. */
  method Relink(pending: ListHead, tail: ListHead?, m: ListHead, b: ListHead,
                ghost dom: set<ListHead>, ghost runs: seq<seq<ListHead>>, ghost k: nat, ghost merged: seq<ListHead>)
    returns (first: ListHead)
    requires k + 1 < |runs| && Disjoint(runs)
    requires forall i | 0 <= i < |runs| && i != k && i != k + 1 :: RunLinked(dom, runs, i)
    requires Chain(merged) && m == merged[0] && Distinct(merged) && Nodes(merged) <= dom
    requires Nodes(merged) == Nodes(runs[k]) + Nodes(runs[k + 1])
    requires b == First(runs, k + 1) && b in dom && b.prev == First(runs, k + 2)
    requires pending == First(runs, 0)
    requires tail == if k == 0 then null else First(runs, k - 1)
    modifies dom`prev
    ensures PendingList(dom, Join(runs, k, merged), first)
  {
    JoinDisjoint(runs, k, merged);
    assert k > 0 ==> RunLinked(dom, runs, k - 1) && RunLinked(dom, runs, 0);
    if k > 0 {
      HeadsApart(runs, k, merged, k - 1);
    }
    m.prev := b.prev;
    first := pending;
    if tail == null { first := m; } else { tail.prev := m; }
    ghost var joined := Join(runs, k, merged);
    forall i | 0 <= i < |joined| ensures RunLinked(dom, joined, i) {
      JoinAt(runs, k, merged, i);
      if i != k {
        var j := if i < k then i else i + 1;
        assert old(RunLinked(dom, runs, j));
        HeadsApart(runs, k, merged, j);
      }
    }
  }

  /** The runs after a merge, and the first entries of those behind them. */
  lemma JoinAt(runs: seq<seq<ListHead>>, k: nat, merged: seq<ListHead>, i: nat)
    requires k + 1 < |runs| && merged != [] && i < |runs| - 1
    ensures var joined := Join(runs, k, merged);
      && |joined| == |runs| - 1
      && joined[i] == (if i == k then merged else runs[if i < k then i else i + 1])
      && First(joined, i + 1) == (if i + 1 == k then merged[0] else First(runs, if i < k then i + 1 else i + 2))
  {
  }

  /** The first entry of a run is neither in the merged one nor in another run. */
  lemma HeadsApart(runs: seq<seq<ListHead>>, k: nat, merged: seq<ListHead>, j: nat)
    requires k + 1 < |runs| && Disjoint(runs) && merged != [] && Nodes(merged) == Nodes(runs[k]) + Nodes(runs[k + 1])
    requires j < |runs| && j != k && j != k + 1 && runs[j] != []
    ensures runs[j][0] != merged[0]
    ensures 0 < k && j != k - 1 && runs[k - 1] != [] ==> runs[j][0] != runs[k - 1][0]
  {
    assert runs[j][0] in Nodes(runs[j]) && merged[0] in Nodes(merged);
    if 0 < k && j != k - 1 && runs[k - 1] != [] {
      assert runs[k - 1][0] in Nodes(runs[k - 1]);
    }
  }

  lemma SameMultisetDistinct(s: seq<ListHead>, t: seq<ListHead>)
    requires Distinct(s) && multiset(s) == multiset(t)
    ensures Distinct(t)
  {
    forall i, j | 0 <= i < j < |t| ensures t[i] != t[j] {
      if t[i] == t[j] {
        assert t == t[..j] + [t[j]] + t[j + 1..];
        assert t[i] in t[..j];
        assert multiset(t)[t[j]] >= 2;
        DistinctOnce(s, t[j]);
      }
    }
  }

  lemma DistinctOnce(s: seq<ListHead>, x: ListHead)
    requires Distinct(s)
    ensures multiset(s)[x] <= 1
  {
    if x in s {
      var k :| 0 <= k < |s| && s[k] == x;
      assert s == s[..k] + [x] + s[k + 1..];
      assert x !in s[..k] && x !in s[k + 1..];
    }
  }

  lemma MergeNodes(cmp: Compare, a: seq<ListHead>, b: seq<ListHead>)
    requires Distinct(a) && Distinct(b) && Nodes(a) !! Nodes(b)
    ensures Distinct(S.Merge(cmp, a, b)) && Nodes(S.Merge(cmp, a, b)) == Nodes(a) + Nodes(b)
  {
    NodesApart(a, b);
    S.MergeElements(cmp, a, b);
    SameMultisetDistinct(a + b, S.Merge(cmp, a, b));
  }

  /**
   The merge a round makes: `a = *tail, b = a->prev; a = merge(b, a); a->prev = b->prev; *tail = a`.
   A null `tail` stands for the address of `pending`, any other for the address of its `prev`.
   */
  method MergeAt(c: Comparator, pending: ListHead, tail: ListHead?,
                 ghost dom: set<ListHead>, ghost runs: seq<seq<ListHead>>, ghost k: nat)
    returns (first: ListHead, ghost calls: Calls)
    requires PendingList(dom, runs, pending) && k + 1 < |runs|
    requires tail == if k == 0 then null else First(runs, k - 1)
    modifies dom`next, dom`prev, c`log
    ensures c.log == old(c.log) + calls
    ensures PendingList(dom, Join(runs, k, S.Merge(c.order, runs[k + 1], runs[k])), first)
    ensures calls == S.MergeCalls(c.order, runs[k + 1], runs[k])
  {
    assert k > 0 ==> RunLinked(dom, runs, k - 1);
    assert RunLinked(dom, runs, k) && RunLinked(dom, runs, k + 1);
    var a := if tail == null then pending else tail.prev;
    var b := a.prev;
    var m;
    m, calls := MergeRuns(c, a, b, dom, runs, k);
    MergeNodes(c.order, runs[k + 1], runs[k]);
    first := Relink(pending, tail, m, b, dom, runs, k, S.Merge(c.order, runs[k + 1], runs[k]));
  }

  /** `list->prev = pending; pending = list; pending->next = NULL`: `x` becomes a run of its own. */
  method Push(pending: ListHead?, x: ListHead, ghost dom: set<ListHead>, ghost runs: seq<seq<ListHead>>)
    returns (next: ListHead?)
    requires PendingList(dom, runs, pending)
    requires forall i | 0 <= i < |runs| :: x !in Nodes(runs[i])
    modifies x`next, x`prev
    ensures PendingList(dom + {x}, [[x]] + runs, x)
    ensures next == old(x.next)
  {
    x.prev := pending;
    next := x.next;
    x.next := null;
    ghost var pushed := [[x]] + runs;
    forall i | 0 <= i < |pushed| ensures RunLinked(dom + {x}, pushed, i) {
      if i > 0 {
        assert old(RunLinked(dom, runs, i - 1));
        assert runs[i - 1][0] in Nodes(runs[i - 1]);
      }
    }
  }

  // ----- the runs are merge sorts of consecutive pieces of the input

  /**
   Cut points of the input `s`, newest first: run `i` holds the input positions from
   `cuts[i + 1]` up to `cuts[i]`.
   */
  ghost predicate Cuts(n: nat, cuts: seq<int>) {
    && cuts != [] && cuts[|cuts| - 1] == 0 && cuts[0] <= n
    && forall i, j | 0 <= i < j < |cuts| :: cuts[j] < cuts[i]
  }

  /** The merge sort of the input positions from `lo` up to `hi`. */
  ghost function Run(cmp: Compare, s: seq<ListHead>, lo: int, hi: int): seq<ListHead> {
    if 0 <= lo <= hi <= |s| then S.MergeSort(cmp, s[lo..hi]) else []
  }

  /** `a` holds the entries of the input positions from `lo` up to `hi`, in any order. */
  ghost predicate Arranged(s: seq<ListHead>, lo: int, hi: int, a: seq<ListHead>) {
    0 <= lo <= hi <= |s| && Distinct(a) && |a| == hi - lo && Nodes(a) == Nodes(s[lo..hi])
  }

  ghost function Runs(cmp: Compare, s: seq<ListHead>, cuts: seq<int>): seq<seq<ListHead>>
    requires cuts != []
  {
    seq(|cuts| - 1, i requires 0 <= i < |cuts| - 1 => Run(cmp, s, cuts[i + 1], cuts[i]))
  }

  lemma RunNodes(cmp: Compare, s: seq<ListHead>, lo: int, hi: int)
    requires Distinct(s) && 0 <= lo <= hi <= |s|
    ensures Arranged(s, lo, hi, Run(cmp, s, lo, hi))
  {
    S.MergeSortElements(cmp, s[lo..hi]);
    S.MultisetMembers(s[lo..hi], Run(cmp, s, lo, hi));
    SameMultisetDistinct(s[lo..hi], Run(cmp, s, lo, hi));
  }

  lemma SlicesDisjoint(s: seq<ListHead>, lo0: nat, hi0: nat, lo1: nat, hi1: nat)
    requires Distinct(s) && lo0 <= hi0 <= lo1 <= hi1 <= |s|
    ensures Nodes(s[lo0..hi0]) !! Nodes(s[lo1..hi1])
  {
  }

  lemma RunWithin(cmp: Compare, s: seq<ListHead>, cuts: seq<int>, i: nat)
    requires Distinct(s) && Cuts(|s|, cuts) && i + 1 < |cuts|
    ensures Distinct(Run(cmp, s, cuts[i + 1], cuts[i]))
    ensures Nodes(Run(cmp, s, cuts[i + 1], cuts[i])) <= Nodes(s[..cuts[0]])
  {
    assert 0 <= cuts[i + 1] < cuts[i] <= cuts[0];
    RunNodes(cmp, s, cuts[i + 1], cuts[i]);
    SliceWithin(s, cuts[i + 1], cuts[i], cuts[0]);
  }

  lemma SliceWithin(s: seq<ListHead>, lo: nat, hi: nat, top: nat)
    requires lo <= hi <= top <= |s|
    ensures Nodes(s[lo..hi]) <= Nodes(s[..top])
  {
  }

  lemma RunsApart(cmp: Compare, s: seq<ListHead>, cuts: seq<int>, i: nat, j: nat)
    requires Distinct(s) && Cuts(|s|, cuts) && i < j && j + 1 < |cuts|
    ensures Nodes(Run(cmp, s, cuts[i + 1], cuts[i])) !! Nodes(Run(cmp, s, cuts[j + 1], cuts[j]))
  {
    assert 0 <= cuts[j + 1] < cuts[j] <= cuts[i + 1] < cuts[i] <= cuts[0];
    RunNodes(cmp, s, cuts[i + 1], cuts[i]);
    RunNodes(cmp, s, cuts[j + 1], cuts[j]);
    SlicesDisjoint(s, cuts[j + 1], cuts[j], cuts[i + 1], cuts[i]);
  }

  lemma RunsDisjoint(cmp: Compare, s: seq<ListHead>, cuts: seq<int>)
    requires Distinct(s) && Cuts(|s|, cuts)
    ensures Disjoint(Runs(cmp, s, cuts))
    ensures forall i | 0 <= i < |cuts| - 1 :: Nodes(Runs(cmp, s, cuts)[i]) <= Nodes(s[..cuts[0]])
  {
    var runs, top := Runs(cmp, s, cuts), Nodes(s[..cuts[0]]);
    forall i | 0 <= i < |runs| ensures Distinct(runs[i]) && Nodes(runs[i]) <= top {
      RunAt(cmp, s, cuts, i);
      RunWithin(cmp, s, cuts, i);
    }
    forall i, j | 0 <= i < j < |runs| ensures Nodes(runs[i]) !! Nodes(runs[j]) {
      RunAt(cmp, s, cuts, i);
      RunAt(cmp, s, cuts, j);
      RunsApart(cmp, s, cuts, i, j);
    }
  }

  lemma RunAt(cmp: Compare, s: seq<ListHead>, cuts: seq<int>, i: nat)
    requires i < |cuts| - 1
    ensures Runs(cmp, s, cuts)[i] == Run(cmp, s, cuts[i + 1], cuts[i])
  {
  }

  /** Merging two neighbouring pieces of the same size gives the piece without the cut between them. */
  lemma MergeRun(cmp: Compare, s: seq<ListHead>, lo: int, mid: int, hi: int)
    requires 0 <= lo < mid < hi <= |s| && mid - lo == hi - mid
    ensures S.Merge(cmp, Run(cmp, s, lo, mid), Run(cmp, s, mid, hi)) == Run(cmp, s, lo, hi)
  {
    var p := s[lo..hi];
    assert p[..|p| / 2] == s[lo..mid] && p[|p| / 2..] == s[mid..hi];
  }

  lemma MergeArranged(cmp: Compare, s: seq<ListHead>, lo: int, mid: int, hi: int, a: seq<ListHead>, b: seq<ListHead>)
    requires Distinct(s) && Arranged(s, lo, mid, a) && Arranged(s, mid, hi, b)
    ensures Arranged(s, lo, hi, S.Merge(cmp, a, b)) && Separate([], a, b)
  {
    SlicesDisjoint(s, lo, mid, mid, hi);
    NodesApart(a, b);
    MergeNodes(cmp, a, b);
    S.MergeElements(cmp, a, b);
    assert s[lo..hi] == s[lo..mid] + s[mid..hi];
  }

  /** The cut points once runs `k` and `k + 1` have become one. */
  ghost function RemoveCut(cuts: seq<int>, k: nat): seq<int>
    requires k + 2 < |cuts|
  {
    cuts[..k + 1] + cuts[k + 2..]
  }

  lemma RemoveCutCuts(n: nat, cuts: seq<int>, k: nat)
    requires Cuts(n, cuts) && k + 2 < |cuts|
    ensures Cuts(n, RemoveCut(cuts, k)) && RemoveCut(cuts, k)[0] == cuts[0]
    ensures 0 <= cuts[k + 2] < cuts[k + 1] < cuts[k] <= n
  {
  }

  lemma RemoveCutAt(cuts: seq<int>, k: nat, i: nat)
    requires k + 2 < |cuts| && i < |cuts| - 1
    ensures RemoveCut(cuts, k)[i] == cuts[if i <= k then i else i + 1]
  {
  }

  lemma JoinRuns(cmp: Compare, s: seq<ListHead>, cuts: seq<int>, k: nat)
    requires k + 2 < |cuts| && 0 <= cuts[k + 2] < cuts[k + 1] < cuts[k] <= |s|
    requires cuts[k + 1] - cuts[k + 2] == cuts[k] - cuts[k + 1]
    ensures var runs := Runs(cmp, s, cuts);
      Join(runs, k, S.Merge(cmp, runs[k + 1], runs[k])) == Runs(cmp, s, RemoveCut(cuts, k))
  {
    MergeRun(cmp, s, cuts[k + 2], cuts[k + 1], cuts[k]);
    var runs, fewer := Runs(cmp, s, cuts), RemoveCut(cuts, k);
    var left, right := Join(runs, k, S.Merge(cmp, runs[k + 1], runs[k])), Runs(cmp, s, fewer);
    forall i | 0 <= i < |right| ensures left[i] == right[i] {
      RemoveCutAt(cuts, k, i);
      RemoveCutAt(cuts, k, i + 1);
      assert i != k ==> left[i] == runs[if i < k then i else i + 1];
    }
  }

  // ----- what the comparator is asked

  lemma LogMore(log: Calls, calls: Calls, more: Calls)
    ensures log + calls + more == log + (calls + more)
  {
  }

  /** `a` comes strictly before `b` in the input. */
  ghost predicate Before(s: seq<ListHead>, a: ListHead, b: ListHead) {
    exists i, j :: 0 <= i < j < |s| && s[i] == a && s[j] == b
  }

  ghost predicate InInputOrder(s: seq<ListHead>, calls: Calls) {
    forall p | p in calls :: Before(s, p.0, p.1)
  }

  /** A merge of neighbouring pieces asks about pairs in input order, and about fewer than it has entries. */
  lemma RunCalls(cmp: Compare, s: seq<ListHead>, lo: int, mid: int, hi: int, a: seq<ListHead>, b: seq<ListHead>)
    requires lo < mid < hi && Arranged(s, lo, mid, a) && Arranged(s, mid, hi, b)
    ensures var calls := S.MergeCalls(cmp, a, b);
      |calls| <= hi - lo - 1 && InInputOrder(s, calls)
  {
    S.MergeCallsBound(cmp, a, b);
    forall p | p in S.MergeCalls(cmp, a, b) ensures Before(s, p.0, p.1) {
      assert p.0 in Nodes(s[lo..mid]) && p.1 in Nodes(s[mid..hi]);
      var i :| lo <= i < mid && s[i] == p.0;
      var j :| mid <= j < hi && s[j] == p.1;
    }
  }

  // ----- the rounds

  /** The pending runs hold the first `cuts[0]` entries of the input, merged piece by piece. */
  ghost predicate PendingPieces(cmp: Compare, s: seq<ListHead>, cuts: seq<int>, pending: ListHead?)
    reads Nodes(s)`next, Nodes(s)`prev
  {
    Cuts(|s|, cuts) && PendingList(Nodes(s[..cuts[0]]), Runs(cmp, s, cuts), pending)
  }

  lemma NeighbourCalls(cmp: Compare, s: seq<ListHead>, lo: int, mid: int, hi: int)
    requires Distinct(s) && 0 <= lo < mid < hi <= |s|
    ensures var calls := S.MergeCalls(cmp, Run(cmp, s, lo, mid), Run(cmp, s, mid, hi));
      |calls| <= hi - lo - 1 && InInputOrder(s, calls)
  {
    RunNodes(cmp, s, lo, mid);
    RunNodes(cmp, s, mid, hi);
    RunCalls(cmp, s, lo, mid, hi, Run(cmp, s, lo, mid), Run(cmp, s, mid, hi));
  }

  /** The merge a round makes, seen on the pieces of the input. */
  method MergePending(c: Comparator, pending: ListHead, tail: ListHead?,
                      ghost s: seq<ListHead>, ghost cuts: seq<int>, ghost k: nat)
    returns (first: ListHead, ghost calls: Calls)
    requires Distinct(s) && PendingPieces(c.order, s, cuts, pending)
    requires k + 2 < |cuts| && cuts[k + 1] - cuts[k + 2] == cuts[k] - cuts[k + 1]
    requires tail == if k == 0 then null else First(Runs(c.order, s, cuts), k - 1)
    modifies Nodes(s[..cuts[0]])`next, Nodes(s[..cuts[0]])`prev, c`log
    ensures c.log == old(c.log) + calls
    ensures PendingPieces(c.order, s, RemoveCut(cuts, k), first)
    ensures |calls| <= cuts[k] - cuts[k + 2] - 1 && InInputOrder(s, calls)
  {
    RemoveCutCuts(|s|, cuts, k);
    JoinRuns(c.order, s, cuts, k);
    NeighbourCalls(c.order, s, cuts[k + 2], cuts[k + 1], cuts[k]);
    first, calls := MergeAt(c, pending, tail, Nodes(s[..cuts[0]]), Runs(c.order, s, cuts), k);
  }

  /** The cut points after `c` entries have been taken, as the digits of `c` dictate. */
  ghost function CutsOf(c: nat): seq<int> {
    seq(BitLength(c) + 1, i requires 0 <= i <= BitLength(c) => c - Newest(c, i))
  }

  lemma CutsOfCuts(n: nat, c: nat)
    requires c <= n
    ensures Cuts(n, CutsOf(c)) && CutsOf(c)[0] == c
  {
    NewestAll(c);
    forall i, j | 0 <= i < j < |CutsOf(c)| ensures CutsOf(c)[j] < CutsOf(c)[i] {
      NewestMonotone(c, i, j);
    }
  }

  lemma CutOfRound(c: nat, i: nat)
    requires i <= if MergesAt(c) then BitLength(c) - 1 else BitLength(c)
    ensures Newest(c + 1, i + 1) == Newest(c, if MergesAt(c) && i > TrailingOnes(c) then i + 1 else i) + 1
  {
    TrailingOnesLength(c);
    RoundNewest(c, i);
    RoundNewest(c, i + 1);
  }

  lemma CutsOfRound(c: nat)
    ensures MergesAt(c) ==> TrailingOnes(c) + 2 < |CutsOf(c)|
    ensures CutsOf(c + 1) ==
      [c + 1] + if MergesAt(c) then RemoveCut(CutsOf(c), TrailingOnes(c)) else CutsOf(c)
  {
    TrailingOnesLength(c);
    IncrementLength(c);
    var cuts := [c + 1] + if MergesAt(c) then RemoveCut(CutsOf(c), TrailingOnes(c)) else CutsOf(c);
    assert |CutsOf(c + 1)| == |cuts|;
    forall i | 0 < i < |cuts| ensures CutsOf(c + 1)[i] == cuts[i] {
      CutOfRound(c, i - 1);
      if MergesAt(c) {
        RemoveCutAt(CutsOf(c), TrailingOnes(c), i - 1);
      }
    }
  }

  /** `for (bits = count; bits & 1; bits >>= 1) tail = &(*tail)->prev`: no null is dereferenced. */
  method FindTail(count: nat, pending: ListHead?, ghost dom: set<ListHead>, ghost runs: seq<seq<ListHead>>)
    returns (tail: ListHead?, bits: nat)
    requires PendingList(dom, runs, pending) && |runs| == BitLength(count)
    ensures bits == 0 <==> !MergesAt(count)
    ensures TrailingOnes(count) <= |runs|
    ensures tail == if TrailingOnes(count) == 0 then null else First(runs, TrailingOnes(count) - 1)
  {
    bits, tail := count, null;
    ghost var j := 0;
    TrailingOnesLength(count);
    while bits % 2 == 1
      decreases bits
      invariant j <= TrailingOnes(count)
      invariant TrailingOnes(bits) == TrailingOnes(count) - j && BitLength(bits) == BitLength(count) - j
      invariant tail == if j == 0 then null else First(runs, j - 1)
    {
      assert RunLinked(dom, runs, j);
      assert j > 0 ==> RunLinked(dom, runs, j - 1);
      tail := if tail == null then pending else tail.prev;
      bits := bits / 2;
      j := j + 1;
    }
  }

  /** The cut points of round `c` between its merge and its new run. */
  ghost function CutsBetween(c: nat): seq<int> {
    CutsOfRound(c);
    if MergesAt(c) then RemoveCut(CutsOf(c), TrailingOnes(c)) else CutsOf(c)
  }

  lemma CutsBetweenAre(c: nat)
    ensures CutsBetween(c) != [] && CutsBetween(c)[0] == c && [c + 1] + CutsBetween(c) == CutsOf(c + 1)
  {
    CutsOfCuts(c, c);
    CutsOfRound(c);
  }

  /** The comparisons of a round are paid for by the cost of the run that it builds. */
  lemma RoundPlan(c: nat)
    ensures MergesAt(c) ==> var k := TrailingOnes(c);
      && k + 2 < |CutsOf(c)|
      && CutsOf(c)[k + 1] - CutsOf(c)[k + 2] == CutsOf(c)[k] - CutsOf(c)[k + 1]
      && CutsOf(c)[k] - CutsOf(c)[k + 2] - 1
        == PendingCost(c + 1, BitLength(c + 1)) - PendingCost(c, BitLength(c))
    ensures !MergesAt(c) ==> PendingCost(c + 1, BitLength(c + 1)) == PendingCost(c, BitLength(c))
  {
    RoundPays(c);
    if MergesAt(c) {
      MergedRuns(c);
      CutsApart(c, TrailingOnes(c));
    }
  }

  lemma CutsApart(c: nat, k: nat)
    requires k + 1 < BitLength(c) && RunExp(c, k) == k && RunExp(c, k + 1) == k
    ensures CutsOf(c)[k] - CutsOf(c)[k + 1] == CutsOf(c)[k + 1] - CutsOf(c)[k + 2] == Pow2(k)
  {
    NewestStep(c, k);
    NewestStep(c, k + 1);
  }

  lemma PendingNotNull(cmp: Compare, s: seq<ListHead>, cuts: seq<int>, pending: ListHead?)
    requires PendingPieces(cmp, s, cuts, pending) && |cuts| > 1
    ensures pending != null
  {
    assert RunLinked(Nodes(s[..cuts[0]]), Runs(cmp, s, cuts), 0);
  }

  /** The merge of a round whose turn has come. */
  method MergeSelected(c: Comparator, ghost count: nat, pending: ListHead, tail: ListHead?, ghost s: seq<ListHead>)
    returns (first: ListHead, ghost calls: Calls)
    requires Distinct(s) && count <= |s| && MergesAt(count)
    requires PendingPieces(c.order, s, CutsOf(count), pending) && TrailingOnes(count) + 2 < |CutsOf(count)|
    requires tail == if TrailingOnes(count) == 0 then null
                     else First(Runs(c.order, s, CutsOf(count)), TrailingOnes(count) - 1)
    modifies Nodes(s[..count])`next, Nodes(s[..count])`prev, c`log
    ensures c.log == old(c.log) + calls
    ensures PendingPieces(c.order, s, CutsBetween(count), first)
    ensures |calls| <= PendingCost(count + 1, BitLength(count + 1)) - PendingCost(count, BitLength(count))
    ensures InInputOrder(s, calls)
  {
    CutsOfCuts(|s|, count);
    RoundPlan(count);
    first, calls := MergePending(c, pending, tail, s, CutsOf(count), TrailingOnes(count));
  }

  /** The merge of a round, if its turn has come: two runs that the digits of `count` select. */
  method MergeRound(c: Comparator, count: nat, pending: ListHead?, ghost s: seq<ListHead>)
    returns (first: ListHead?, ghost calls: Calls)
    requires Distinct(s) && count <= |s|
    requires PendingPieces(c.order, s, CutsOf(count), pending)
    modifies Nodes(s[..count])`next, Nodes(s[..count])`prev, c`log
    ensures c.log == old(c.log) + calls
    ensures PendingPieces(c.order, s, CutsBetween(count), first)
    ensures |calls| <= PendingCost(count + 1, BitLength(count + 1)) - PendingCost(count, BitLength(count))
    ensures InInputOrder(s, calls)
  {
    RoundPlan(count);
    CutsOfCuts(|s|, count);
    var tail, bits := FindTail(count, pending, Nodes(s[..count]), Runs(c.order, s, CutsOf(count)));
    first, calls := pending, [];
    if bits != 0 {
      PendingNotNull(c.order, s, CutsOf(count), pending);
      first, calls := MergeSelected(c, count, pending, tail, s);
    }
  }

  lemma CutsMore(n: nat, cuts: seq<int>, more: seq<int>)
    requires Cuts(n, cuts) && cuts[0] < n && more == [cuts[0] + 1] + cuts
    ensures Cuts(n, more)
  {
    assert forall i | 0 < i < |more| :: more[i] == cuts[i - 1];
  }

  lemma PushedRuns(cmp: Compare, s: seq<ListHead>, cuts: seq<int>)
    requires Cuts(|s|, cuts) && cuts[0] < |s|
    ensures Cuts(|s|, [cuts[0] + 1] + cuts)
    ensures Runs(cmp, s, [cuts[0] + 1] + cuts) == [[s[cuts[0]]]] + Runs(cmp, s, cuts)
  {
    var c := cuts[0];
    SingleRun(cmp, s, c);
    var more := [c + 1] + cuts;
    CutsMore(|s|, cuts, more);
    var left, right := Runs(cmp, s, more), [[s[c]]] + Runs(cmp, s, cuts);
    forall i | 0 <= i < |left| ensures left[i] == right[i] {
      assert left[i] == Run(cmp, s, more[i + 1], more[i]);
      assert i > 0 ==> more[i] == cuts[i - 1] && more[i + 1] == cuts[i];
    }
    assert left == right;
  }

  lemma SingleRun(cmp: Compare, s: seq<ListHead>, c: nat)
    requires c < |s|
    ensures Run(cmp, s, c, c + 1) == [s[c]]
  {
    assert s[c..c + 1] == [s[c]];
  }

  /** The entries of the input that have not been taken, null-terminated. */
  ghost predicate Remaining(s: seq<ListHead>, c: nat, list: ListHead?)
    reads Nodes(s)`next, Nodes(s)`prev
  {
    && c <= |s|
    && list == (if c < |s| then s[c] else null)
    && forall i {:trigger s[i].next} | c <= i < |s| :: s[i].next == if i + 1 < |s| then s[i + 1] else null
  }

  lemma NotTaken(s: seq<ListHead>, c: nat, i: nat)
    requires Distinct(s) && c <= i < |s|
    ensures s[i] !in Nodes(s[..c])
  {
  }

  lemma NotInRuns(cmp: Compare, s: seq<ListHead>, cuts: seq<int>, c: nat)
    requires Distinct(s) && Cuts(|s|, cuts) && cuts[0] == c < |s|
    ensures forall i | 0 <= i < |Runs(cmp, s, cuts)| :: s[c] !in Nodes(Runs(cmp, s, cuts)[i])
  {
    RunsDisjoint(cmp, s, cuts);
    NotTaken(s, c, c);
  }

  lemma PushedPieces(cmp: Compare, s: seq<ListHead>, cuts: seq<int>, c: nat)
    requires Cuts(|s|, cuts) && cuts[0] == c < |s|
    requires PendingList(Nodes(s[..c]) + {s[c]}, [[s[c]]] + Runs(cmp, s, cuts), s[c])
    ensures PendingPieces(cmp, s, [c + 1] + cuts, s[c])
  {
    PushedRuns(cmp, s, cuts);
    assert Nodes(s[..c]) + {s[c]} == Nodes(s[..c + 1]);
  }

  method PushPiece(ghost cmp: Compare, pending: ListHead?, x: ListHead,
                   ghost s: seq<ListHead>, ghost cuts: seq<int>, ghost c: nat)
    returns (next: ListHead?)
    requires Distinct(s) && PendingPieces(cmp, s, cuts, pending)
    requires cuts[0] == c < |s| && Remaining(s, c, x)
    modifies x`next, x`prev
    ensures PendingPieces(cmp, s, [c + 1] + cuts, x)
    ensures Remaining(s, c + 1, next)
  {
    NotInRuns(cmp, s, cuts, c);
    next := Push(pending, x, Nodes(s[..c]), Runs(cmp, s, cuts));
    PushedPieces(cmp, s, cuts, c);
    forall i | c + 1 <= i < |s| ensures s[i].next == old(s[i].next) {
      assert s[i] != s[c];
    }
  }

  /** One round: merge if it is time, then take one entry of the input as a run of its own. */
  method TakeOne(c: Comparator, count: nat, pending: ListHead?, x: ListHead, ghost s: seq<ListHead>)
    returns (next: ListHead?, ghost calls: Calls)
    requires Distinct(s) && PendingPieces(c.order, s, CutsOf(count), pending)
    requires Remaining(s, count, x)
    modifies (Nodes(s[..count]) + {x})`next, (Nodes(s[..count]) + {x})`prev, c`log
    ensures c.log == old(c.log) + calls
    ensures PendingPieces(c.order, s, CutsOf(count + 1), x)
    ensures Remaining(s, count + 1, next)
    ensures |calls| <= PendingCost(count + 1, BitLength(count + 1)) - PendingCost(count, BitLength(count))
    ensures InInputOrder(s, calls)
  {
    CutsBetweenAre(count);
    var first;
    first, calls := MergeRound(c, count, pending, s);
    forall i | count <= i < |s| ensures s[i].next == old(s[i].next) {
      NotTaken(s, count, i);
    }
    assert Remaining(s, count, x);
    next := PushPiece(c.order, first, x, s, CutsBetween(count), count);
  }

  /** The rounds: the null-terminated input list becomes the list of pending runs. */
  method TakeAll(c: Comparator, list0: ListHead, ghost s: seq<ListHead>)
    returns (pending: ListHead?, ghost calls: Calls)
    requires Distinct(s) && Remaining(s, 0, list0)
    modifies Nodes(s)`next, Nodes(s)`prev, c`log
    ensures c.log == old(c.log) + calls
    ensures PendingPieces(c.order, s, CutsOf(|s|), pending)
    ensures |calls| <= PendingCost(|s|, BitLength(|s|)) && InInputOrder(s, calls)
  {
    var list: ListHead?, count := list0, 0;
    pending, calls := null, [];
    CutsOfCuts(|s|, 0);
    while list != null
      invariant PendingPieces(c.order, s, CutsOf(count), pending)
      invariant Remaining(s, count, list)
      invariant c.log == old(c.log) + calls
      invariant |calls| <= PendingCost(count, BitLength(count)) && InInputOrder(s, calls)
      decreases |s| - count
    {
      var next;
      ghost var more;
      next, more := TakeOne(c, count, pending, list, s);
      pending, list := list, next;
      LogMore(old(c.log), calls, more);
      calls := calls + more;
      count := count + 1;
    }
  }

  // ----- the end of the input

  /** What the `i` newest runs are merged to at the end of the input, newest first. */
  ghost function Newer(cmp: Compare, s: seq<ListHead>, cuts: seq<int>, i: nat): seq<ListHead>
    requires i < |cuts|
  {
    if i == 0 then [] else S.Merge(cmp, Run(cmp, s, cuts[i], cuts[i - 1]), Newer(cmp, s, cuts, i - 1))
  }

  lemma NewerStep(cmp: Compare, s: seq<ListHead>, cuts: seq<int>, i: nat)
    requires i + 1 < |cuts|
    ensures Newer(cmp, s, cuts, i + 1) == S.Merge(cmp, Run(cmp, s, cuts[i + 1], cuts[i]), Newer(cmp, s, cuts, i))
  {
  }

  lemma {:induction false} NewerArranged(cmp: Compare, s: seq<ListHead>, cuts: seq<int>, i: nat)
    requires Distinct(s) && Cuts(|s|, cuts) && cuts[0] == |s| && i < |cuts|
    ensures Arranged(s, cuts[i], |s|, Newer(cmp, s, cuts, i))
  {
    if i > 0 {
      var lo, mid, newer := cuts[i], cuts[i - 1], Newer(cmp, s, cuts, i - 1);
      assert 0 <= lo < mid <= |s|;
      NewerArranged(cmp, s, cuts, i - 1);
      RunMerged(cmp, s, lo, mid, newer);
      assert Newer(cmp, s, cuts, i) == S.Merge(cmp, Run(cmp, s, lo, mid), newer);
    }
  }

  lemma RunMerged(cmp: Compare, s: seq<ListHead>, lo: int, mid: int, newer: seq<ListHead>)
    requires Distinct(s) && 0 <= lo <= mid && Arranged(s, mid, |s|, newer)
    ensures Arranged(s, lo, |s|, S.Merge(cmp, Run(cmp, s, lo, mid), newer))
  {
    RunNodes(cmp, s, lo, mid);
    MergeArranged(cmp, s, lo, mid, |s|, Run(cmp, s, lo, mid), newer);
  }

  /** The runs before `cuts[0]` wait in the pending list; `newer` is what all others are merged to. */
  ghost predicate Collected(cmp: Compare, s: seq<ListHead>, cuts: seq<int>, pending: ListHead?, list: ListHead,
                            newer: seq<ListHead>)
    reads Nodes(s)`next, Nodes(s)`prev
  {
    && PendingPieces(cmp, s, cuts, pending)
    && Arranged(s, cuts[0], |s|, newer) && S.Within(newer, s)
    && Chain(newer) && list == newer[0]
  }

  /** The pending list without its first run. */
  lemma PendingRest(cmp: Compare, s: seq<ListHead>, cuts: seq<int>, pending: ListHead)
    requires Distinct(s) && PendingPieces(cmp, s, cuts, pending) && |cuts| > 2
    ensures PendingPieces(cmp, s, cuts[1..], pending.prev)
  {
    var runs, rest := Runs(cmp, s, cuts), Runs(cmp, s, cuts[1..]);
    assert rest == runs[1..];
    RunsDisjoint(cmp, s, cuts[1..]);
    assert RunLinked(Nodes(s[..cuts[0]]), runs, 0);
    forall i | 0 <= i < |rest| ensures RunLinked(Nodes(s[..cuts[1]]), rest, i) {
      assert RunLinked(Nodes(s[..cuts[0]]), runs, i + 1);
    }
  }

  /** The first run of the pending list and its link. */
  lemma PendingFirst(cmp: Compare, s: seq<ListHead>, cuts: seq<int>, pending: ListHead?)
    requires PendingPieces(cmp, s, cuts, pending) && |cuts| > 1
    ensures pending != null && pending in Nodes(s[..cuts[0]])
    ensures Chain(Run(cmp, s, cuts[1], cuts[0])) && pending == Run(cmp, s, cuts[1], cuts[0])[0]
    ensures pending.prev == null <==> |cuts| == 2
  {
    var dom, runs := Nodes(s[..cuts[0]]), Runs(cmp, s, cuts);
    assert RunLinked(dom, runs, 0);
    assert runs[0][0] in Nodes(runs[0]);
    if |cuts| > 2 {
      assert RunLinked(dom, runs, 1);
    }
  }

  /** A merge, and the pending runs in `dom` that it leaves alone. */
  method MergeBeside(c: Comparator, a0: ListHead, b0: ListHead, ghost a: seq<ListHead>, ghost b: seq<ListHead>,
                     ghost dom: set<ListHead>, ghost runs: seq<seq<ListHead>>)
    returns (merged: ListHead, ghost calls: Calls)
    requires Chain(a) && a[0] == a0 && Chain(b) && b[0] == b0 && Separate([], a, b)
    requires dom !! Nodes(a + b) && forall i | 0 <= i < |runs| :: RunLinked(dom, runs, i)
    modifies Nodes(a + b)`next, c`log
    ensures c.log == old(c.log) + calls
    ensures Chain(S.Merge(c.order, a, b)) && merged == S.Merge(c.order, a, b)[0]
    ensures calls == S.MergeCalls(c.order, a, b)
    ensures forall i | 0 <= i < |runs| :: RunLinked(dom, runs, i)
  {
    merged := Merge(c, a0, b0, a, b);
    calls := S.MergeCalls(c.order, a, b);
    forall i | 0 <= i < |runs| ensures RunLinked(dom, runs, i) {
      assert old(RunLinked(dom, runs, i));
    }
  }

  /** What the next merge at the end of the input is given, and what it asks. */
  lemma NextMerge(cmp: Compare, s: seq<ListHead>, lo: int, mid: int, newer: seq<ListHead>)
    requires Distinct(s) && 0 <= lo < mid < |s| && Arranged(s, mid, |s|, newer)
    ensures var a := Run(cmp, s, lo, mid);
      && Separate([], a, newer) && Nodes(a + newer) <= Nodes(s) && Nodes(s[..lo]) !! Nodes(a + newer)
      && Arranged(s, lo, |s|, S.Merge(cmp, a, newer)) && S.Within(S.Merge(cmp, a, newer), s)
      && |S.MergeCalls(cmp, a, newer)| <= |s| - lo - 1 && InInputOrder(s, S.MergeCalls(cmp, a, newer))
  {
    var a := Run(cmp, s, lo, mid);
    RunNodes(cmp, s, lo, mid);
    RunMerged(cmp, s, lo, mid, newer);
    ArrangedLast(cmp, s, lo, mid, a, newer);
    RunCalls(cmp, s, lo, mid, |s|, a, newer);
    ArrangedIn(s, lo, |s|, S.Merge(cmp, a, newer));
  }

  lemma ArrangedIn(s: seq<ListHead>, lo: int, hi: int, a: seq<ListHead>)
    requires Arranged(s, lo, hi, a)
    ensures S.Within(a, s)
  {
    forall x | x in a ensures x in s {
      assert x in Nodes(a) && x in Nodes(s[lo..hi]);
    }
  }

  lemma ArrangedLast(cmp: Compare, s: seq<ListHead>, lo: int, mid: int, a: seq<ListHead>, b: seq<ListHead>)
    requires Distinct(s) && Arranged(s, lo, mid, a) && Arranged(s, mid, |s|, b)
    ensures Separate([], a, b) && Nodes(a + b) <= Nodes(s) && Nodes(s[..lo]) !! Nodes(a + b)
  {
    MergeArranged(cmp, s, lo, mid, |s|, a, b);
    forall x | x in Nodes(a + b) ensures x in s && x !in s[..lo] {
      assert x in Nodes(s[lo..mid]) || x in Nodes(s[mid..|s|]);
    }
  }

  /** One of the merges at the end of the input: `list = merge(pending, list)`. */
  method Collect(c: Comparator, pending: ListHead, list: ListHead,
                 ghost s: seq<ListHead>, ghost cuts: seq<int>, ghost newer: seq<ListHead>)
    returns (merged: ListHead, ghost calls: Calls)
    requires Distinct(s) && Collected(c.order, s, cuts, pending, list, newer) && |cuts| > 2
    modifies Nodes(s)`next, c`log
    ensures c.log == old(c.log) + calls
    ensures Collected(c.order, s, cuts[1..], pending.prev, merged,
                      S.Merge(c.order, Run(c.order, s, cuts[1], cuts[0]), newer))
    ensures calls == S.MergeCalls(c.order, Run(c.order, s, cuts[1], cuts[0]), newer)
    ensures |calls| <= |s| - cuts[1] - 1 && InInputOrder(s, calls)
  {
    PendingFirst(c.order, s, cuts, pending);
    PendingRest(c.order, s, cuts, pending);
    NextMerge(c.order, s, cuts[1], cuts[0], newer);
    merged, calls := MergeBeside(c, pending, list, Run(c.order, s, cuts[1], cuts[0]), newer,
                                 Nodes(s[..cuts[1]]), Runs(c.order, s, cuts[1..]));
  }

  /** Two entries or more leave at least two pending runs, so `pending->prev` is not null. */
  lemma CollectFirst(cmp: Compare, s: seq<ListHead>, first: ListHead)
    requires Distinct(s) && |s| >= 2 && PendingPieces(cmp, s, CutsOf(|s|), first)
    ensures BitLength(|s|) >= 2 && first.prev != null
    ensures Collected(cmp, s, CutsOf(|s|)[1..], first.prev, first, Newer(cmp, s, CutsOf(|s|), 1))
  {
    var cuts := CutsOf(|s|);
    CutsOfCuts(|s|, |s|);
    assert BitLength(|s|) == 1 + BitLength(|s| / 2) && |s| / 2 > 0;
    PendingFirst(cmp, s, cuts, first);
    PendingRest(cmp, s, cuts, first);
    RunNodes(cmp, s, cuts[1], cuts[0]);
    ArrangedIn(s, cuts[1], |s|, Run(cmp, s, cuts[1], cuts[0]));
    assert Newer(cmp, s, cuts, 1) == Run(cmp, s, cuts[1], cuts[0]);
  }

  /**
   At the end of the input the collected list meets pending run `i`: on the links the one has as
   many entries as the `i` newest runs, the other two to the power that the digits announce, and
   neither is more than about twice as long as the other.
   */
  lemma CollectedBalance(cmp: Compare, s: seq<ListHead>, i: nat, pending: ListHead?, list: ListHead,
                         newer: seq<ListHead>)
    requires Distinct(s) && 0 < i < BitLength(|s|) && Collected(cmp, s, CutsOf(|s|)[i..], pending, list, newer)
    ensures var run := Run(cmp, s, CutsOf(|s|)[i + 1], CutsOf(|s|)[i]);
      && Chain(run) && pending == run[0] && |run| == RunSize(|s|, i)
      && Chain(newer) && list == newer[0] && |newer| == Newest(|s|, i)
      && |run| <= 2 * |newer| && |newer| <= 2 * |run| - 1
  {
    var n, cuts := |s|, CutsOf(|s|);
    PendingFirst(cmp, s, cuts[i..], pending);
    NewestStep(n, i);
    NewestWithin(n, i);
    NewestWithin(n, i + 1);
    RunNodes(cmp, s, cuts[i + 1], cuts[i]);
    FinalBalance(n, i);
  }

  /** The loop that collects the pending runs, when the newest `i` of them are one list. */
  ghost predicate Collecting(cmp: Compare, s: seq<ListHead>, i: nat, pending: ListHead, list: ListHead,
                             newer: seq<ListHead>, calls: Calls)
    reads Nodes(s)`next, Nodes(s)`prev
  {
    && 0 < i < BitLength(|s|) && Collected(cmp, s, CutsOf(|s|)[i..], pending, list, newer)
    && |calls| <= FinalCost(|s|, i) && InInputOrder(s, calls)
  }

  /** One turn of that loop: run `i` joins. */
  method CollectNext(c: Comparator, pending: ListHead, list: ListHead, ghost s: seq<ListHead>, ghost i: nat,
                     ghost before: Calls)
    returns (merged: ListHead, ghost more: Calls)
    requires Distinct(s) && 0 < i < BitLength(|s|) && pending.prev != null
    requires Collecting(c.order, s, i, pending, list, Newer(c.order, s, CutsOf(|s|), i), before)
    modifies Nodes(s)`next, c`log
    ensures c.log == old(c.log) + more
    ensures i + 1 < BitLength(|s|)
    ensures Collecting(c.order, s, i + 1, pending.prev, merged, Newer(c.order, s, CutsOf(|s|), i + 1), before + more)
  {
    NewerStep(c.order, s, CutsOf(|s|), i);
    merged, more := CollectOne(c, pending, list, s, i, Newer(c.order, s, CutsOf(|s|), i), before);
  }

  method CollectOne(c: Comparator, pending: ListHead, list: ListHead, ghost s: seq<ListHead>, ghost i: nat,
                    ghost newer: seq<ListHead>, ghost before: Calls)
    returns (merged: ListHead, ghost more: Calls)
    requires Distinct(s) && Collecting(c.order, s, i, pending, list, newer, before) && pending.prev != null
    modifies Nodes(s)`next, c`log
    ensures c.log == old(c.log) + more
    ensures i + 1 < BitLength(|s|)
    ensures var run := Run(c.order, s, CutsOf(|s|)[i + 1], CutsOf(|s|)[i]);
      Collecting(c.order, s, i + 1, pending.prev, merged, S.Merge(c.order, run, newer), before + more)
  {
    ghost var left := CutsOf(|s|)[i..];
    PendingFirst(c.order, s, left, pending);
    CollectCost(|s|, i);
    merged, more := Collect(c, pending, list, s, left, newer);
  }

  /** Where it ends: only the oldest run is left out. */
  lemma CollectedAll(cmp: Compare, s: seq<ListHead>, i: nat, pending: ListHead, list: ListHead,
                     calls: Calls)
    requires Distinct(s) && |s| >= 2 && 0 < i < BitLength(|s|) && pending.prev == null
    requires Collecting(cmp, s, i, pending, list, Newer(cmp, s, CutsOf(|s|), i), calls)
    ensures Chain(NewerThanOldest(cmp, s)) && list == NewerThanOldest(cmp, s)[0]
    ensures Chain(Run(cmp, s, 0, Oldest(|s|))) && pending == Run(cmp, s, 0, Oldest(|s|))[0]
    ensures |calls| <= FinalCost(|s|, BitLength(|s|)) - |s| + 1 && InInputOrder(s, calls)
  {
    PendingFirst(cmp, s, CutsOf(|s|)[i..], pending);
    LastIsOldest(cmp, s, i, pending);
  }

  lemma CollectCost(n: nat, i: nat)
    requires 0 < i < BitLength(n) - 1
    ensures var left := CutsOf(n)[i..];
      && |left| > 2 && left[1..] == CutsOf(n)[i + 1..]
      && n - left[1] - 1 == FinalCost(n, i + 1) - FinalCost(n, i)
  {
  }

  /** The oldest run: what is left for the last merge when all others are collected. */
  ghost function Oldest(n: nat): (k: nat)
    requires n >= 2
    ensures 0 < k < n
  {
    OldestIs(n);
    n - Newest(n, BitLength(n) - 1)
  }

  lemma OldestIs(n: nat)
    requires n >= 2
    ensures BitLength(n) >= 2 && 0 < RunSize(n, BitLength(n) - 1) < n
    ensures RunSize(n, BitLength(n) - 1) == n - Newest(n, BitLength(n) - 1)
  {
    assert BitLength(n) == 1 + BitLength(n / 2) && n / 2 > 0;
    NewestStep(n, BitLength(n) - 1);
    NewestAll(n);
  }

  /** The cut between the oldest run and everything newer. */
  lemma LastCut(n: nat) returns (mid: nat)
    requires n >= 2
    ensures mid == Oldest(n) && BitLength(n) >= 2 && CutsOf(n)[BitLength(n) - 1] == mid
    ensures Cuts(n, CutsOf(n)) && CutsOf(n)[0] == n
  {
    OldestIs(n);
    CutsOfCuts(n, n);
    mid := Oldest(n);
  }

  /** What everything that is newer than the oldest run is merged to. */
  ghost function NewerThanOldest(cmp: Compare, s: seq<ListHead>): seq<ListHead>
    requires |s| >= 2
  {
    Newer(cmp, s, CutsOf(|s|), BitLength(|s|) - 1)
  }

  /** What list_sort leaves behind the head, for any comparator. */
  ghost function Outcome(cmp: Compare, s: seq<ListHead>): seq<ListHead> {
    if |s| < 2 then s else S.Merge(cmp, Run(cmp, s, 0, Oldest(|s|)), NewerThanOldest(cmp, s))
  }

  lemma OldestArranged(cmp: Compare, s: seq<ListHead>)
    requires Distinct(s) && |s| >= 2
    ensures Arranged(s, 0, Oldest(|s|), Run(cmp, s, 0, Oldest(|s|)))
    ensures Arranged(s, Oldest(|s|), |s|, NewerThanOldest(cmp, s))
  {
    var mid := LastCut(|s|);
    RunNodes(cmp, s, 0, mid);
    NewerArranged(cmp, s, CutsOf(|s|), BitLength(|s|) - 1);
  }

  /** It is a rearrangement of the input. */
  lemma OutcomeArranged(cmp: Compare, s: seq<ListHead>)
    requires Distinct(s)
    ensures Distinct(Outcome(cmp, s)) && |Outcome(cmp, s)| == |s| && Nodes(Outcome(cmp, s)) == Nodes(s)
  {
    if |s| >= 2 {
      OldestArranged(cmp, s);
      MergeArranged(cmp, s, 0, Oldest(|s|), |s|, Run(cmp, s, 0, Oldest(|s|)), NewerThanOldest(cmp, s));
      assert s[0..|s|] == s;
    }
  }

  // ----- with a weak order

  lemma RunIsSort(cmp: Compare, s: seq<ListHead>, lo: int, hi: int)
    requires S.WeakOrder(cmp, s) && 0 <= lo <= hi <= |s|
    ensures Run(cmp, s, lo, hi) == S.Sort(cmp, s[lo..hi])
  {
    S.MergeSortIsSort(cmp, s, s[lo..hi]);
  }

  lemma MergeRunSorted(cmp: Compare, s: seq<ListHead>, lo: int, mid: int, newer: seq<ListHead>)
    requires S.WeakOrder(cmp, s) && 0 <= lo <= mid <= |s| && newer == S.Sort(cmp, s[mid..])
    ensures S.Merge(cmp, Run(cmp, s, lo, mid), newer) == S.Sort(cmp, s[lo..])
  {
    RunIsSort(cmp, s, lo, mid);
    S.SortOfParts(cmp, s, s[lo..], mid - lo);
    assert s[lo..][..mid - lo] == s[lo..mid] && s[lo..][mid - lo..] == s[mid..];
  }

  lemma {:induction false} NewerIsSort(cmp: Compare, s: seq<ListHead>, cuts: seq<int>, i: nat)
    requires S.WeakOrder(cmp, s) && Cuts(|s|, cuts) && cuts[0] == |s| && i < |cuts|
    ensures 0 <= cuts[i] <= |s| && Newer(cmp, s, cuts, i) == S.Sort(cmp, s[cuts[i]..])
  {
    if i > 0 {
      var lo, mid, newer := cuts[i], cuts[i - 1], Newer(cmp, s, cuts, i - 1);
      assert 0 <= lo < mid <= |s|;
      NewerIsSort(cmp, s, cuts, i - 1);
      MergeRunSorted(cmp, s, lo, mid, newer);
      assert Newer(cmp, s, cuts, i) == S.Merge(cmp, Run(cmp, s, lo, mid), newer);
    }
  }

  lemma LastPartsSorted(cmp: Compare, s: seq<ListHead>)
    requires S.WeakOrder(cmp, s) && |s| >= 2
    ensures Run(cmp, s, 0, Oldest(|s|)) == S.Sort(cmp, s[..Oldest(|s|)])
    ensures NewerThanOldest(cmp, s) == S.Sort(cmp, s[Oldest(|s|)..])
  {
    var mid := LastCut(|s|);
    RunIsSort(cmp, s, 0, mid);
    NewerIsSort(cmp, s, CutsOf(|s|), BitLength(|s|) - 1);
    assert s[0..mid] == s[..mid];
  }

  /** With a weak order list_sort leaves the stable sort. */
  lemma OutcomeIsSort(cmp: Compare, s: seq<ListHead>)
    requires S.WeakOrder(cmp, s)
    ensures Outcome(cmp, s) == S.Sort(cmp, s)
  {
    if |s| < 2 {
      S.SortOfOne(cmp, s);
    } else {
      LastPartsSorted(cmp, s);
      S.SortOfParts(cmp, s, s, Oldest(|s|));
    }
  }

  // ----- the last merge

  /** "End of input; merge together all the pending lists": all but the oldest run. */
  method CollectAll(c: Comparator, first: ListHead, ghost s: seq<ListHead>)
    returns (pending: ListHead, list: ListHead, ghost calls: Calls)
    requires Distinct(s) && |s| >= 2
    requires PendingPieces(c.order, s, CutsOf(|s|), first)
    modifies Nodes(s)`next, c`log
    ensures c.log == old(c.log) + calls
    ensures var mid := Oldest(|s|);
      && Chain(Run(c.order, s, 0, mid)) && pending == Run(c.order, s, 0, mid)[0]
      && Chain(NewerThanOldest(c.order, s)) && list == NewerThanOldest(c.order, s)[0]
    ensures |calls| <= FinalCost(|s|, BitLength(|s|)) - |s| + 1 && InInputOrder(s, calls)
  {
    CollectFirst(c.order, s, first);
    ghost var i := 1;
    list := first;
    pending := first.prev;
    calls := [];
    while true
      invariant c.log == old(c.log) + calls
      invariant 0 < i < BitLength(|s|)
      invariant Collecting(c.order, s, i, pending, list, Newer(c.order, s, CutsOf(|s|), i), calls)
      decreases BitLength(|s|) - i
    {
      var next := pending.prev;
      if next == null {
        break;
      }
      ghost var more;
      list, more := CollectNext(c, pending, list, s, i, calls);
      LogMore(old(c.log), calls, more);
      calls := calls + more;
      pending := next;
      i := i + 1;
    }
    CollectedAll(c.order, s, i, pending, list, calls);
  }

  lemma LastIsOldest(cmp: Compare, s: seq<ListHead>, i: nat, pending: ListHead)
    requires |s| >= 2 && 1 <= i < BitLength(|s|) && PendingPieces(cmp, s, CutsOf(|s|)[i..], pending)
    requires |CutsOf(|s|)[i..]| == 2
    ensures i == BitLength(|s|) - 1 && CutsOf(|s|)[i..] == [Oldest(|s|), 0]
    ensures FinalCost(|s|, i) == FinalCost(|s|, BitLength(|s|)) - |s| + 1
  {
    OldestIs(|s|);
    NewestAll(|s|);
  }

  lemma RingToList(head: ListHead, s: seq<ListHead>)
    requires Ring([head] + s)
    ensures Distinct(s) && head !in s
    ensures head.next == if s == [] then head else s[0]
    ensures head.prev == if s == [] then head else s[|s| - 1]
    ensures forall i | 0 <= i < |s| - 1 :: s[i].next == s[i + 1]
  {
    var r := [head] + s;
    assert forall i | 0 <= i < |s| :: s[i] == r[i + 1];
    forall i | 0 <= i < |s| - 1 ensures s[i].next == s[i + 1] {
      assert r[i + 1].next == r[i + 2];
    }
    assert s != [] ==> r[0].next == r[1];
  }

  lemma FinalRuns(cmp: Compare, head: ListHead, s: seq<ListHead>, a: seq<ListHead>, b: seq<ListHead>)
    requires Distinct(s) && head !in s && |s| >= 2
    requires a == Run(cmp, s, 0, Oldest(|s|)) && b == NewerThanOldest(cmp, s)
    ensures Separate([head], a, b) && Nodes(a + b) <= Nodes(s) && |a| + |b| == |s|
    ensures |S.MergeCalls(cmp, a, b)| <= |s| - 1 && InInputOrder(s, S.MergeCalls(cmp, a, b))
  {
    var mid := Oldest(|s|);
    OldestArranged(cmp, s);
    ArrangedLast(cmp, s, 0, mid, a, b);
    RunCalls(cmp, s, 0, mid, |s|, a, b);
    ArrangedIn(s, 0, mid, a);
    ArrangedIn(s, mid, |s|, b);
  }

  /** The comparisons of the last merge, which joins the oldest run with everything newer. */
  ghost function LastMerge(cmp: Compare, s: seq<ListHead>): Calls
    requires |s| >= 2
  {
    S.MergeCalls(cmp, Run(cmp, s, 0, Oldest(|s|)), NewerThanOldest(cmp, s))
  }

  lemma LastLengths(cmp: Compare, s: seq<ListHead>)
    requires |s| >= 2
    ensures |Run(cmp, s, 0, Oldest(|s|))| == Oldest(|s|) && |NewerThanOldest(cmp, s)| == |s| - Oldest(|s|)
  {
    var mid := LastCut(|s|);
    RunLength(cmp, s, 0, mid);
    NewerLength(cmp, s, CutsOf(|s|), BitLength(|s|) - 1);
  }

  lemma LastMergeLength(cmp: Compare, s: seq<ListHead>)
    requires |s| >= 2
    ensures 0 < |LastMerge(cmp, s)| < |s|
  {
    LastLengths(cmp, s);
    S.MergeCallsLength(cmp, Run(cmp, s, 0, Oldest(|s|)), NewerThanOldest(cmp, s));
  }

  lemma RunLength(cmp: Compare, s: seq<ListHead>, lo: int, hi: int)
    requires 0 <= lo <= hi <= |s|
    ensures |Run(cmp, s, lo, hi)| == hi - lo
  {
    S.MergeSortElements(cmp, s[lo..hi]);
  }

  lemma RunMergedLength(cmp: Compare, s: seq<ListHead>, lo: int, mid: int, newer: seq<ListHead>)
    requires 0 <= lo <= mid <= |s| && |newer| == |s| - mid
    ensures |S.Merge(cmp, Run(cmp, s, lo, mid), newer)| == |s| - lo
  {
    RunLength(cmp, s, lo, mid);
    S.MergeLength(cmp, Run(cmp, s, lo, mid), newer);
  }

  lemma {:induction false} NewerLength(cmp: Compare, s: seq<ListHead>, cuts: seq<int>, i: nat)
    requires Cuts(|s|, cuts) && cuts[0] == |s| && i < |cuts|
    ensures |Newer(cmp, s, cuts, i)| == |s| - cuts[i]
  {
    if i > 0 {
      var lo, mid, newer := cuts[i], cuts[i - 1], Newer(cmp, s, cuts, i - 1);
      assert 0 <= lo < mid <= |s|;
      NewerLength(cmp, s, cuts, i - 1);
      RunMergedLength(cmp, s, lo, mid, newer);
      assert Newer(cmp, s, cuts, i) == S.Merge(cmp, Run(cmp, s, lo, mid), newer);
    }
  }

  /** The dummy calls of list_sort. */
  ghost function Dummies(cmp: Compare, s: seq<ListHead>): Calls {
    if |s| < 2 then [] else FinalDummies(cmp, Run(cmp, s, 0, Oldest(|s|)), NewerThanOldest(cmp, s))
  }

  /** They are for what the last merge appends without comparing: the end of the outcome. */
  lemma DummiesAre(cmp: Compare, s: seq<ListHead>)
    ensures |s| < 2 ==> Dummies(cmp, s) == []
    ensures |s| >= 2 ==>
      && |LastMerge(cmp, s)| <= |s| == |Outcome(cmp, s)|
      && Dummies(cmp, s) == DummiesOf(Outcome(cmp, s)[|LastMerge(cmp, s)|..])
      && |Dummies(cmp, s)| == (|s| - |LastMerge(cmp, s)|) / 256
  {
    if |s| >= 2 {
      LastLengths(cmp, s);
      FinalCounts(cmp, Run(cmp, s, 0, Oldest(|s|)), NewerThanOldest(cmp, s));
    }
  }

  ghost predicate EndsIn<T>(s: seq<T>, last: seq<T>) {
    |last| <= |s| && s[|s| - |last|..] == last
  }

  lemma EndsLater<T>(s: seq<T>, t: seq<T>, last: seq<T>)
    requires EndsIn(t, last)
    ensures EndsIn(s + t, last)
  {
    assert (s + t)[|s| + |t| - |last|..] == t[|t| - |last|..];
  }

  /** list_sort from the end of the input on. */
  method FinishSort(c: Comparator, head: ListHead, first: ListHead, ghost s: seq<ListHead>)
    returns (ghost calls: Calls)
    requires Distinct(s) && head !in s && |s| >= 2
    requires PendingPieces(c.order, s, CutsOf(|s|), first)
    modifies ({head} + Nodes(s))`next, ({head} + Nodes(s))`prev, c`log
    ensures c.log == old(c.log) + calls + Dummies(c.order, s)
    ensures Ring([head] + Outcome(c.order, s))
    ensures |calls| <= FinalCost(|s|, BitLength(|s|)) && InInputOrder(s, calls)
    ensures EndsIn(calls, LastMerge(c.order, s))
  {
    ghost var a, b := Run(c.order, s, 0, Oldest(|s|)), NewerThanOldest(c.order, s);
    var pending, list;
    pending, list, calls := CollectAll(c, first, s);
    FinalRuns(c.order, head, s, a, b);
    MergeFinal(c, head, pending, list, a, b);
    EndsLater(calls, LastMerge(c.order, s), LastMerge(c.order, s));
    LogMore(old(c.log), calls, LastMerge(c.order, s));
    calls := calls + LastMerge(c.order, s);
  }

  /**
   How many entries the last merge appends without comparing, told from the input: entries newer than
   the oldest run that need not sort before any entry of it, and entries of the oldest run that must
   sort after all newer ones.
   */
  ghost function Uncompared(cmp: Compare, s: seq<ListHead>): nat
    requires |s| >= 2
  {
    var mid := Oldest(|s|);
    Leftover.Late(cmp, s[..mid], s[mid..]) + Leftover.Above(cmp, s[..mid], s[mid..])
  }

  lemma UncomparedIs(cmp: Compare, s: seq<ListHead>)
    requires S.WeakOrder(cmp, s) && |s| >= 2
    ensures |s| - |LastMerge(cmp, s)| == Uncompared(cmp, s)
  {
    var mid := Oldest(|s|);
    var a, b := S.Sort(cmp, s[..mid]), S.Sort(cmp, s[mid..]);
    LastPartsSorted(cmp, s);
    S.SortKeepsSorted(cmp, s, s[..mid]);
    S.SortKeepsSorted(cmp, s, s[mid..]);
    S.SortElements(cmp, s[..mid]);
    S.SortElements(cmp, s[mid..]);
    Leftover.MergeLeaves(cmp, s, a, b);
    Leftover.SortedCounts(cmp, s[..mid], s[mid..]);
  }

  lemma OutcomeIs(cmp: Compare, s: seq<ListHead>)
    requires Distinct(s)
    ensures Distinct(Outcome(cmp, s)) && |Outcome(cmp, s)| == |s| && Nodes(Outcome(cmp, s)) == Nodes(s)
    ensures S.WeakOrder(cmp, s) ==> Outcome(cmp, s) == S.Sort(cmp, s) && S.IsStableSortOf(cmp, Outcome(cmp, s), s)
    ensures S.WeakOrder(cmp, s) && |s| >= 2 ==> |s| - |LastMerge(cmp, s)| == Uncompared(cmp, s)
  {
    OutcomeArranged(cmp, s);
    if S.WeakOrder(cmp, s) {
      OutcomeIsSort(cmp, s);
      S.SortIsStableSort(cmp, s);
      if |s| >= 2 {
        UncomparedIs(cmp, s);
      }
    }
  }

  lemma PowersOfOne(n: nat)
    requires n <= 1
    ensures Pow2(BitLength(n)) == if n == 0 then 1 else 2
  {
    assert BitLength(1) == 1;
  }

  /** list_sort once the ring has become a null-terminated list of two entries or more. */
  method SortList(c: Comparator, head: ListHead, list: ListHead, ghost s: seq<ListHead>)
    returns (ghost calls: Calls)
    requires Distinct(s) && head !in s && |s| >= 2 && Remaining(s, 0, list)
    modifies ({head} + Nodes(s))`next, ({head} + Nodes(s))`prev, c`log
    ensures c.log == old(c.log) + calls + Dummies(c.order, s)
    ensures Ring([head] + Outcome(c.order, s)) && InInputOrder(s, calls)
    ensures |calls| <= PendingCost(|s|, BitLength(|s|)) + FinalCost(|s|, BitLength(|s|))
    ensures EndsIn(calls, LastMerge(c.order, s))
  {
    var first;
    first, calls := TakeAll(c, list, s);
    PendingFirst(c.order, s, CutsOf(|s|), first);
    ghost var more;
    more := FinishSort(c, head, first, s);
    EndsLater(calls, more, LastMerge(c.order, s));
    LogMore(old(c.log), calls, more);
    calls := calls + more;
  }

  /**
   list_sort with any comparator: the head is left with a ring of the same entries, rearranged. The comparator is
   asked about pairs in input order only, and at most n * (h + 1) - 2^(h + 1) + 1 times for n = |s| > 0 and
   h = floor(log2(n)). Then come the dummy calls: every 256th entry that the last merge appends, with itself.
   */
  method SortAny(c: Comparator, head: ListHead, ghost s: seq<ListHead>)
    returns (ghost calls: Calls)
    requires Ring([head] + s)
    modifies ({head} + Nodes(s))`next, ({head} + Nodes(s))`prev, c`log
    ensures c.log == old(c.log) + calls + Dummies(c.order, s)
    ensures Ring([head] + Outcome(c.order, s)) && InInputOrder(s, calls)
    ensures s != [] ==> |calls| <= |s| * BitLength(|s|) - Pow2(BitLength(|s|)) + 1
    ensures |s| < 2 ==> calls == []
    ensures |s| >= 2 ==> EndsIn(calls, LastMerge(c.order, s))
  {
    RingToList(head, s);
    var list := head.next;
    if list == head.prev {
      calls := [];
      assert |s| <= 1;
      PowersOfOne(|s|);
      return;
    }
    head.prev.next := null;
    calls := SortList(c, head, list, s);
    ComparisonBound(|s|);
  }

  /**
   Sorts the ring [head] + s. With a weak order the entries end in the order of the stable sort, and the input
   tells how many dummy calls there are; the rest holds for any comparator.
   */
  method ListSort(c: Comparator, head: ListHead, ghost s: seq<ListHead>)
    returns (ghost calls: Calls)
    requires Ring([head] + s)
    modifies ({head} + Nodes(s))`next, ({head} + Nodes(s))`prev, c`log
    ensures c.log == old(c.log) + calls + Dummies(c.order, s)
    ensures Ring([head] + Outcome(c.order, s))
    ensures Distinct(Outcome(c.order, s)) && |Outcome(c.order, s)| == |s| && Nodes(Outcome(c.order, s)) == Nodes(s)
    ensures S.WeakOrder(c.order, s) ==>
      Outcome(c.order, s) == S.Sort(c.order, s) && S.IsStableSortOf(c.order, Outcome(c.order, s), s)
    ensures InInputOrder(s, calls)
    ensures s != [] ==> |calls| <= |s| * BitLength(|s|) - Pow2(BitLength(|s|)) + 1
    ensures |s| < 2 ==> calls == []
    ensures |s| >= 2 ==> EndsIn(calls, LastMerge(c.order, s))
    ensures |s| >= 2 && S.WeakOrder(c.order, s) ==> |Dummies(c.order, s)| == Uncompared(c.order, s) / 256
  {
    RingToList(head, s);
    OutcomeIs(c.order, s);
    DummiesAre(c.order, s);
    calls := SortAny(c, head, s);
  }

  /** The run sizes on the links are those of the counting machine in PendingRuns. */
  lemma RunsFollowCount(cmp: Compare, s: seq<ListHead>, c: nat, i: nat)
    requires c <= |s| && i < BitLength(c)
    ensures |Runs(cmp, s, CutsOf(c))| == |Pending(c)| == BitLength(c)
    ensures |Runs(cmp, s, CutsOf(c))[i]| == Pending(c)[i] == RunSize(c, i)
  {
    PendingClosedForm(c);
    CutsOfCuts(|s|, c);
    NewestStep(c, i);
    NewestWithin(c, i + 1);
    RunLength(cmp, s, CutsOf(c)[i + 1], CutsOf(c)[i]);
  }
}
