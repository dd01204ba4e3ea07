/**
 The two merges of list_sort.c, on the links themselves. `merge` follows and rewrites only
 `next` and leaves a null-terminated list; `merge_final` also restores `prev` and closes the ring.

 A comparator looks at the entries, never at their links, so it is a function of the entries. It is
 asked through an object that keeps a log: the pairs handed to it, in order.
 */
module ListMerge {
  import opened Sequences
  import opened List
  import S = StableSort

  type Compare = (ListHead, ListHead) -> int

  /** The pairs that a comparator was asked about, in order. */
  type Calls = seq<(ListHead, ListHead)>

  class Comparator {
    /** Only Ask evaluates this. */
    const order: Compare
    ghost var log: Calls

    constructor (order: Compare)
      ensures this.order == order && log == []
    {
      this.order, log := order, [];
    }

    /** A call of cmp; there is no other way to get an answer. */
    method Ask(a: ListHead, b: ListHead) returns (r: int)
      modifies this`log
      ensures r == order(a, b) && log == old(log) + [(a, b)]
    {
      log := log + [(a, b)];
      r := order(a, b);
    }
  }

  /** `s` is a null-terminated list along `next`; `prev` links say nothing. */
  ghost predicate Chain(s: seq<ListHead>)
    reads Nodes(s)`next
  {
    s != [] && Segment(s) && s[|s| - 1].next == null
  }

  /** Three parts of a merge in progress share no entry and none occurs twice. */
  ghost predicate Separate(out: seq<ListHead>, a: seq<ListHead>, b: seq<ListHead>) {
    Distinct(out) && Distinct(a) && Distinct(b) && Apart(out, a) && Apart(out, b) && Apart(a, b)
  }

  lemma SeparateStep(out: seq<ListHead>, a: seq<ListHead>, b: seq<ListHead>)
    requires a != [] && Separate(out, a, b)
    ensures Separate(out + [a[0]], a[1..], b)
  {
  }

  /** `*tail = x; tail = &x->next; x = x->next`, where a null `tail` stands for the address of `head`. */
  method Take(head: ListHead, tail: ListHead?, x: ListHead,
              ghost out: seq<ListHead>, ghost rx: seq<ListHead>, ghost ry: seq<ListHead>)
    returns (newHead: ListHead, next: ListHead?)
    requires Segment(out) && Chain(rx) && Chain(ry) && x == rx[0]
    requires Separate(out, rx, ry)
    requires if out == [] then tail == null else tail == out[|out| - 1] && head == out[0]
    modifies (if tail == null then {} else {tail})`next
    ensures Segment(out + [x]) && newHead == (out + [x])[0]
    ensures next == x.next && (next == null <==> rx[1..] == [])
    ensures next != null ==> Chain(rx[1..]) && next == rx[1..][0]
    ensures Chain(ry)
  {
    newHead := head;
    if tail == null { newHead := x; } else { tail.next := x; }
    next := x.next;
  }

  /** `*tail = x` once only the list that starts at `x` is left. */
  method Finish(tail: ListHead, x: ListHead, ghost out: seq<ListHead>, ghost rx: seq<ListHead>)
    requires out != [] && Segment(out) && tail == out[|out| - 1]
    requires Chain(rx) && x == rx[0]
    requires Separate(out, [], rx)
    modifies {tail}`next
    ensures Chain(out + rx)
  {
    tail.next := x;
  }

  /**
   A merge in progress: `out` is merged, `log` was asked, `a` and `b` remain. In the end there are the entries
   `all`, and the log is `asked`.
   */
  ghost predicate Merging(cmp: Compare, out: seq<ListHead>, log: Calls, a: seq<ListHead>, b: seq<ListHead>,
                          all: seq<ListHead>, asked: Calls)
  {
    out + S.Merge(cmp, a, b) == all && log + S.MergeCalls(cmp, a, b) == asked
  }

  lemma MergingLeft(cmp: Compare, out: seq<ListHead>, log: Calls, a: seq<ListHead>, b: seq<ListHead>,
                    all: seq<ListHead>, asked: Calls)
    requires a != [] && b != [] && Merging(cmp, out, log, a, b, all, asked) && cmp(a[0], b[0]) <= 0
    ensures Merging(cmp, out + [a[0]], log + [(a[0], b[0])], a[1..], b, all, asked)
  {
  }

  lemma MergingRight(cmp: Compare, out: seq<ListHead>, log: Calls, a: seq<ListHead>, b: seq<ListHead>,
                     all: seq<ListHead>, asked: Calls)
    requires a != [] && b != [] && Merging(cmp, out, log, a, b, all, asked) && cmp(a[0], b[0]) > 0
    ensures Merging(cmp, out + [b[0]], log + [(a[0], b[0])], a, b[1..], all, asked)
  {
  }

  lemma MergingDone(cmp: Compare, out: seq<ListHead>, log: Calls, a: seq<ListHead>, b: seq<ListHead>,
                    all: seq<ListHead>, asked: Calls)
    requires a == [] || b == []
    requires Merging(cmp, out, log, a, b, all, asked)
    ensures all == out + (if a == [] then b else a) && asked == log
  {
  }

  /** `cmp(priv, a, b)`, asked of the first entries of both lists. */
  method AskNext(c: Comparator, a: ListHead, b: ListHead, ghost out: seq<ListHead>,
                 ghost ra: seq<ListHead>, ghost rb: seq<ListHead>, ghost all: seq<ListHead>, ghost asked: Calls)
    returns (order: int)
    requires ra != [] && rb != [] && a == ra[0] && b == rb[0] && Merging(c.order, out, c.log, ra, rb, all, asked)
    modifies c`log
    ensures |c.log| == |old(c.log)| + 1
    ensures order <= 0 ==> Merging(c.order, out + [a], c.log, ra[1..], rb, all, asked)
    ensures order > 0 ==> Merging(c.order, out + [b], c.log, ra, rb[1..], all, asked)
  {
    ghost var log := c.log;
    order := c.Ask(a, b);
    if order <= 0 {
      MergingLeft(c.order, out, log, ra, rb, all, asked);
    } else {
      MergingRight(c.order, out, log, ra, rb, all, asked);
    }
  }

  /** `out` is merged from `head` on up to `tail`, null for no entry; `ra` and `rb` remain, from `a` and `b` on. */
  ghost predicate MergeState(dom: set<ListHead>, out: seq<ListHead>, head: ListHead, tail: ListHead?,
                             ra: seq<ListHead>, a: ListHead?, rb: seq<ListHead>, b: ListHead?)
    reads Nodes(out)`next, Nodes(ra)`next, Nodes(rb)`next
  {
    && Separate(out, ra, rb) && Nodes(ra) <= dom && Nodes(rb) <= dom
    && Segment(out) && (if out == [] then tail == null else tail == out[|out| - 1] && head == out[0] && tail in dom)
    && (if ra == [] then a == null else Chain(ra) && a == ra[0])
    && (if rb == [] then b == null else Chain(rb) && b == rb[0])
  }

  /** A turn of the loop: the entry that goes first is taken from its list. */
  method TakeNext(c: Comparator, head: ListHead, tail: ListHead?, a: ListHead, b: ListHead, ghost dom: set<ListHead>,
                  ghost out: seq<ListHead>, ghost ra: seq<ListHead>, ghost rb: seq<ListHead>,
                  ghost all: seq<ListHead>, ghost asked: Calls)
    returns (newHead: ListHead, x: ListHead, na: ListHead?, nb: ListHead?, ghost qa: seq<ListHead>,
             ghost qb: seq<ListHead>)
    requires MergeState(dom, out, head, tail, ra, a, rb, b) && Merging(c.order, out, c.log, ra, rb, all, asked)
    modifies (if tail == null then {} else {tail})`next, c`log
    ensures MergeState(dom, out + [x], newHead, x, qa, na, qb, nb)
    ensures Merging(c.order, out + [x], c.log, qa, qb, all, asked)
    ensures |qa| + |qb| == |ra| + |rb| - 1 && (na != null || nb != null)
  {
    var order := AskNext(c, a, b, out, ra, rb, all, asked);
    if order <= 0 {
      x, qa, qb, nb := a, ra[1..], rb, b;
      newHead, na := Take(head, tail, a, out, ra, rb);
      SeparateStep(out, ra, rb);
    } else {
      x, qa, qb, na := b, ra, rb[1..], a;
      newHead, nb := Take(head, tail, b, out, rb, ra);
      SeparateStep(out, rb, ra);
    }
  }

  /** merge, until only the list that starts at `x` is left; `*tail = x` remains to be done. */
  method MergeLoop(c: Comparator, a0: ListHead, b0: ListHead, ghost sa: seq<ListHead>, ghost sb: seq<ListHead>,
                   ghost all: seq<ListHead>, ghost asked: Calls)
    returns (head: ListHead, tail: ListHead, x: ListHead, ghost out: seq<ListHead>, ghost rest: seq<ListHead>)
    requires Chain(sa) && sa[0] == a0
    requires Chain(sb) && sb[0] == b0
    requires Separate([], sa, sb) && Merging(c.order, [], c.log, sa, sb, all, asked)
    modifies Nodes(sa + sb)`next, c`log
    ensures out != [] && Segment(out) && tail == out[|out| - 1] && head == out[0] && tail in Nodes(sa + sb)
    ensures Chain(rest) && x == rest[0] && Separate(out, [], rest)
    ensures out + rest == all && c.log == asked
  {
    var a: ListHead?, b: ListHead?, end: ListHead? := a0, b0, null;  // a null `end` stands for &head
    ghost var ra, rb, dom := sa, sb, Nodes(sa + sb);
    head, out := a0, [];
    while a != null && b != null
      invariant MergeState(dom, out, head, end, ra, a, rb, b)
      invariant Merging(c.order, out, c.log, ra, rb, all, asked)
      invariant out != [] || (a != null && b != null)
      invariant a != null || b != null
      decreases |ra| + |rb|
    {
      head, end, a, b, ra, rb := TakeNext(c, head, end, a, b, dom, out, ra, rb, all, asked);
      out := out + [end];
    }
    MergingDone(c.order, out, c.log, ra, rb, all, asked);
    tail := end;
    if a == null {
      x, rest := b, rb;
    } else {
      x, rest := a, ra;
    }
  }

  /** The whole of merge. */
  method MergeTo(c: Comparator, a: ListHead, b: ListHead, ghost sa: seq<ListHead>, ghost sb: seq<ListHead>,
                 ghost all: seq<ListHead>, ghost asked: Calls)
    returns (head: ListHead)
    requires Chain(sa) && sa[0] == a
    requires Chain(sb) && sb[0] == b
    requires Separate([], sa, sb) && Merging(c.order, [], c.log, sa, sb, all, asked)
    modifies Nodes(sa + sb)`next, c`log
    ensures Chain(all) && head == all[0] && c.log == asked
  {
    var tail, x;
    ghost var out, rest;
    head, tail, x, out, rest := MergeLoop(c, a, b, sa, sb, all, asked);
    Finish(tail, x, out, rest);
  }

  /** merge: what it leaves, and what it asks. */
  method Merge(c: Comparator, a: ListHead, b: ListHead, ghost sa: seq<ListHead>, ghost sb: seq<ListHead>)
    returns (head: ListHead)
    requires Chain(sa) && sa[0] == a
    requires Chain(sb) && sb[0] == b
    requires Separate([], sa, sb)
    modifies Nodes(sa + sb)`next, c`log
    ensures Chain(S.Merge(c.order, sa, sb)) && head == S.Merge(c.order, sa, sb)[0]
    ensures c.log == old(c.log) + S.MergeCalls(c.order, sa, sb)
  {
    head := MergeTo(c, a, b, sa, sb, S.Merge(c.order, sa, sb), c.log + S.MergeCalls(c.order, sa, sb));
  }

  /** `tail->next = x; x->prev = tail; x = x->next`. */
  method TakeLinked(tail: ListHead, x: ListHead,
                    ghost out: seq<ListHead>, ghost rx: seq<ListHead>, ghost ry: seq<ListHead>)
    returns (next: ListHead?)
    requires out != [] && Linked(out) && tail == out[|out| - 1]
    requires Chain(rx) && Chain(ry) && x == rx[0]
    requires Separate(out, rx, ry)
    modifies {tail}`next, {x}`prev
    ensures Linked(out + [x])
    ensures next == x.next && (next == null <==> rx[1..] == [])
    ensures next != null ==> Chain(rx[1..]) && next == rx[1..][0]
    ensures Chain(ry)
  {
    tail.next := x;
    x.prev := tail;
    next := x.next;
  }

  /** `tail->next = head; head->prev = tail`: the links that make a linked segment a ring. */
  method CloseRing(head: ListHead, tail: ListHead, ghost out: seq<ListHead>)
    requires out != [] && Linked(out) && Distinct(out) && head == out[0] && tail == out[|out| - 1]
    modifies {tail}`next, {head}`prev
    ensures Ring(out)
  {
    tail.next := head;
    head.prev := tail;
  }

  /** The dummy calls when the first `n` entries of `rest` have been appended: every 256th entry, with itself. */
  ghost function DummiesUpTo(rest: seq<ListHead>, n: nat): Calls
    requires n <= |rest|
  {
    seq(n / 256, k requires 0 <= k < n / 256 => (rest[256 * k + 255], rest[256 * k + 255]))
  }

  ghost function DummiesOf(rest: seq<ListHead>): Calls {
    DummiesUpTo(rest, |rest|)
  }

  /** An 8-bit counter, and how often it has wrapped. */
  lemma CountStep(n: nat)
    ensures (n % 256 + 1) % 256 == (n + 1) % 256
    ensures (n + 1) / 256 == n / 256 + if (n + 1) % 256 == 0 then 1 else 0
    ensures (n + 1) % 256 == 0 ==> 256 * (n / 256) + 255 == n
  {
  }

  /** The dummy call, if any, when entry `n` is appended. */
  ghost function DummyAt(rest: seq<ListHead>, n: nat): Calls
    requires n < |rest|
  {
    if (n + 1) % 256 == 0 then [(rest[n], rest[n])] else []
  }

  lemma DummyNext(rest: seq<ListHead>, n: nat)
    requires n < |rest|
    ensures DummiesUpTo(rest, n + 1) == DummiesUpTo(rest, n) + DummyAt(rest, n)
  {
    CountStep(n);
  }

  /** `out` is linked both ways up to `tail`; the list goes on with `rest`, whose `prev` links say nothing. */
  ghost predicate Finishing(out: seq<ListHead>, rest: seq<ListHead>, tail: ListHead, b: ListHead?)
    reads Nodes(out)`next, Nodes(out)`prev, Nodes(rest)`next
  {
    && Separate(out, rest, []) && out != [] && Linked(out) && tail == out[|out| - 1]
    && (b == null <==> rest == [])
    && (b != null ==> Chain(rest) && tail.next == b == rest[0])
  }

  /** `if (!++count) cmp(priv, b, b)` for an 8-bit counter, when `n` entries have been appended. */
  method CountOne(c: Comparator, count: nat, b: ListHead, ghost rest: seq<ListHead>, ghost n: nat)
    returns (next: nat)
    requires count == n % 256 && n < |rest| && b == rest[n]
    modifies c`log
    ensures next == (n + 1) % 256 && c.log == old(c.log) + DummyAt(rest, n)
  {
    CountStep(n);
    next := (count + 1) % 256;
    if next == 0 {
      var _ := c.Ask(b, b);
    }
  }

  /** The rest of the loop's body: the `prev` link. */
  method FinishOne(tail: ListHead, b: ListHead, ghost out: seq<ListHead>, ghost rest: seq<ListHead>)
    requires Finishing(out, rest, tail, b)
    modifies b`prev
    ensures Finishing(out + [b], rest[1..], b, b.next)
  {
    b.prev := tail;
    SeparateStep(out, rest, []);
  }

  /** The first entry of `rest` is entry `n` of `rest0`. */
  lemma RestAt(out: seq<ListHead>, rest: seq<ListHead>, out0: seq<ListHead>, rest0: seq<ListHead>, n: nat)
    requires out + rest == out0 + rest0 && |out| == |out0| + n && rest != []
    ensures n < |rest0| && rest[0] == rest0[n] && out + [rest[0]] + rest[1..] == out0 + rest0
  {
    assert (out + rest)[|out|] == rest[0] && (out0 + rest0)[|out0| + n] == rest0[n];
  }

  /** The body of the loop. */
  method FinishNext(c: Comparator, count: nat, tail: ListHead, b: ListHead, ghost out: seq<ListHead>,
                    ghost rest: seq<ListHead>, ghost rest0: seq<ListHead>, ghost n: nat)
    returns (next: nat)
    requires Finishing(out, rest, tail, b) && count == n % 256 && n < |rest0| && b == rest0[n]
    modifies b`prev, c`log
    ensures Finishing(out + [b], rest[1..], b, b.next)
    ensures next == (n + 1) % 256 && c.log == old(c.log) + DummyAt(rest0, n)
  {
    next := CountOne(c, count, b, rest0, n);
    FinishOne(tail, b, out, rest);
  }

  /** The loop that gives the rest of the last list its `prev` links. */
  method FinishLoop(c: Comparator, tail0: ListHead, b0: ListHead,
                    ghost out0: seq<ListHead>, ghost rest0: seq<ListHead>)
    returns (tail: ListHead)
    requires Finishing(out0, rest0, tail0, b0)
    modifies Nodes(rest0)`prev, c`log
    ensures Linked(out0 + rest0) && Distinct(out0 + rest0) && tail == (out0 + rest0)[|out0 + rest0| - 1]
    ensures c.log == old(c.log) + DummiesOf(rest0)
  {
    var b: ListHead?, count := b0, 0;
    ghost var out, rest, n := out0, rest0, 0;
    tail := tail0;
    while b != null
      invariant Finishing(out, rest, tail, b)
      invariant out + rest == out0 + rest0 && |out| == |out0| + n && |rest| + n == |rest0|
      invariant count == n % 256 && c.log == old(c.log) + DummiesUpTo(rest0, n)
      decreases |rest|
    {
      RestAt(out, rest, out0, rest0, n);
      DummyNext(rest0, n);
      count := FinishNext(c, count, tail, b, out, rest, rest0, n);
      out, rest, n := out + [rest[0]], rest[1..], n + 1;
      tail := b;
      b := b.next;
    }
  }

  /** The end of merge_final: the rest of the last list is linked both ways, and the ring closed. */
  method FinishRing(c: Comparator, head: ListHead, tail: ListHead, b: ListHead,
                    ghost out: seq<ListHead>, ghost rest: seq<ListHead>)
    requires out != [] && Linked(out) && head == out[0] && tail == out[|out| - 1]
    requires Chain(rest) && b == rest[0]
    requires Separate(out, rest, [])
    modifies ({tail, head} + Nodes(rest))`next, ({tail, head} + Nodes(rest))`prev, c`log
    ensures Ring(out + rest)
    ensures c.log == old(c.log) + DummiesOf(rest)
  {
    tail.next := b;
    var last := FinishLoop(c, tail, b, out, rest);
    assert last in {tail} + Nodes(rest);
    CloseRing(head, last, out + rest);
  }

  /** merge_final's merge loop: `prev` links are restored as the entries are taken. */
  method MergeLinked(c: Comparator, head: ListHead, a0: ListHead, b0: ListHead, ghost sa: seq<ListHead>,
                     ghost sb: seq<ListHead>, ghost all: seq<ListHead>, ghost asked: Calls)
    returns (tail: ListHead, b: ListHead, ghost out: seq<ListHead>, ghost rest: seq<ListHead>)
    requires Chain(sa) && sa[0] == a0
    requires Chain(sb) && sb[0] == b0
    requires Separate([head], sa, sb) && Merging(c.order, [head], c.log, sa, sb, all, asked)
    modifies ({head} + Nodes(sa + sb))`next, Nodes(sa + sb)`prev, c`log
    ensures out != [] && Linked(out) && head == out[0] && tail == out[|out| - 1]
    ensures Chain(rest) && b == rest[0] && Separate(out, rest, [])
    ensures {tail} + Nodes(rest) <= {head} + Nodes(sa + sb)
    ensures out + rest == all && c.log == asked && |out| == 1 + |asked| - |old(c.log)|
  {
    var x: ListHead?, y: ListHead? := a0, b0;
    ghost var ra, rb := sa, sb;
    tail, out := head, [head];
    while true
      invariant Chain(ra) && x == ra[0]
      invariant Chain(rb) && y == rb[0]
      invariant out != [] && Linked(out) && head == out[0] && tail == out[|out| - 1]
      invariant Separate(out, ra, rb)
      invariant tail in {head} + Nodes(sa + sb) && forall e | e in ra || e in rb :: e in Nodes(sa + sb)
      invariant Merging(c.order, out, c.log, ra, rb, all, asked) && |out| == 1 + |c.log| - |old(c.log)|
      decreases |ra| + |rb|
    {
      var order := AskNext(c, x, y, out, ra, rb, all, asked);
      if order <= 0 {
        var next := TakeLinked(tail, x, out, ra, rb);
        SeparateStep(out, ra, rb);
        out, ra := out + [ra[0]], ra[1..];
        tail, x := x, next;
        if x == null {
          MergingDone(c.order, out, c.log, ra, rb, all, asked);
          return tail, y, out, rb;
        }
      } else {
        var next := TakeLinked(tail, y, out, rb, ra);
        SeparateStep(out, rb, ra);
        out, rb := out + [rb[0]], rb[1..];
        tail, y := y, next;
        if y == null {
          MergingDone(c.order, out, c.log, ra, rb, all, asked);
          return tail, x, out, ra;
        }
      }
    }
  }

  /** The dummy calls of the last merge, for what it appends without comparing. */
  ghost function FinalDummies(cmp: Compare, a: seq<ListHead>, b: seq<ListHead>): Calls {
    FinalCounts(cmp, a, b);
    DummiesOf(S.Merge(cmp, a, b)[|S.MergeCalls(cmp, a, b)|..])
  }

  lemma FinalCounts(cmp: Compare, a: seq<ListHead>, b: seq<ListHead>)
    ensures |S.MergeCalls(cmp, a, b)| <= |S.Merge(cmp, a, b)| == |a| + |b|
  {
    S.MergeLength(cmp, a, b);
    S.MergeCallsBound(cmp, a, b);
  }

  lemma FinalCallsAre(cmp: Compare, a: seq<ListHead>, b: seq<ListHead>)
    returns (merged: seq<ListHead>, calls: Calls)
    ensures merged == S.Merge(cmp, a, b) && calls == S.MergeCalls(cmp, a, b) && |calls| <= |merged|
    ensures FinalDummies(cmp, a, b) == DummiesOf(merged[|calls|..])
  {
    FinalCounts(cmp, a, b);
    merged, calls := S.Merge(cmp, a, b), S.MergeCalls(cmp, a, b);
  }

  /** merge_final with what it leaves and asks. */
  method MergeToRing(c: Comparator, head: ListHead, a: ListHead, b: ListHead, ghost sa: seq<ListHead>,
                     ghost sb: seq<ListHead>, ghost merged: seq<ListHead>, ghost calls: Calls)
    requires Chain(sa) && sa[0] == a
    requires Chain(sb) && sb[0] == b
    requires Separate([head], sa, sb) && |calls| <= |merged|
    requires Merging(c.order, [head], c.log, sa, sb, [head] + merged, c.log + calls)
    modifies ({head} + Nodes(sa + sb))`next, ({head} + Nodes(sa + sb))`prev, c`log
    ensures Ring([head] + merged)
    ensures c.log == old(c.log) + calls + DummiesOf(merged[|calls|..])
  {
    var tail, x;
    ghost var out, rest;
    tail, x, out, rest := MergeLinked(c, head, a, b, sa, sb, [head] + merged, c.log + calls);
    RestIs(head, merged, calls, out, rest);
    FinishRing(c, head, tail, x, out, rest);
  }

  lemma RestIs(head: ListHead, merged: seq<ListHead>, calls: Calls, out: seq<ListHead>, rest: seq<ListHead>)
    requires out + rest == [head] + merged && |out| == 1 + |calls|
    ensures rest == merged[|calls|..]
  {
    assert (out + rest)[1 + |calls|..] == rest && ([head] + merged)[1 + |calls|..] == merged[|calls|..];
  }

  /** merge_final: the last merge, which also turns the result back into a ring behind `head`. */
  method MergeFinal(c: Comparator, head: ListHead, a: ListHead, b: ListHead,
                    ghost sa: seq<ListHead>, ghost sb: seq<ListHead>)
    requires Chain(sa) && sa[0] == a
    requires Chain(sb) && sb[0] == b
    requires Separate([head], sa, sb)
    modifies ({head} + Nodes(sa + sb))`next, ({head} + Nodes(sa + sb))`prev, c`log
    ensures Ring([head] + S.Merge(c.order, sa, sb))
    ensures c.log == old(c.log) + S.MergeCalls(c.order, sa, sb) + FinalDummies(c.order, sa, sb)
  {
    ghost var merged, calls := FinalCallsAre(c.order, sa, sb);
    MergeToRing(c, head, a, b, sa, sb, merged, calls);
  }
}
