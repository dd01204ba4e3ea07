/**
 The intrusive circular doubly linked lists of list.h. A `ListHead` is both the link embedded
 in an entry and the head of a list; a ring of links stands for the sequence of entries that
 follow its head.
 */
module List {
  import opened Sequences

  class ListHead {
    var next: ListHead?
    var prev: ListHead?
  }

  ghost predicate Apart<T>(s: seq<T>, t: seq<T>) {
    forall i, j | 0 <= i < |s| && 0 <= j < |t| :: s[i] != t[j]
  }

  /** `r` is a circular doubly linked list: `next` and `prev` are inverse to each other. */
  ghost predicate Ring(r: seq<ListHead>)
    reads r
  {
    && r != []
    && Distinct(r)
    && r[|r| - 1].next == r[0]
    && r[0].prev == r[|r| - 1]
    && (forall i {:trigger r[i].next} | 0 <= i < |r| - 1 :: r[i].next == r[i + 1])
    && (forall i {:trigger r[i].prev} | 0 < i < |r| :: r[i].prev == r[i - 1])
  }

  ghost function Nodes(s: seq<ListHead>): set<ListHead> {
    set x | x in s
  }

  /** The entries of `s` are linked along `next`; the last link is not looked at. */
  ghost predicate Segment(s: seq<ListHead>)
    reads Nodes(s)`next
  {
    forall i {:trigger s[i].next} | 0 <= i < |s| - 1 :: s[i].next == s[i + 1]
  }

  /** The entries of `s` are linked both ways; what the first and last point to outside is open. */
  ghost predicate Linked(s: seq<ListHead>)
    reads Nodes(s)`next, Nodes(s)`prev
  {
    && Segment(s)
    && forall i {:trigger s[i].prev} | 0 < i < |s| :: s[i].prev == s[i - 1]
  }

  /** A ring may be read from any of its entries. */
  lemma Rotation(r: seq<ListHead>, k: nat)
    requires Ring(r) && k <= |r|
    ensures Ring(r[k..] + r[..k])
  {
    var q := r[k..] + r[..k];
    if 0 < k < |r| {
      assert r[k - 1].next == r[k] && r[k].prev == r[k - 1];
    }
  }

  // ----- adding and deleting

  /** INIT_LIST_HEAD */
  method Init(list: ListHead)
    modifies list
    ensures Ring([list])
  {
    list.next := list;
    list.prev := list;
  }

  /** __list_add: `prev` and `next` are neighbours, possibly the same entry. */
  method AddBetween(entry: ListHead, prev: ListHead, next: ListHead, ghost r: seq<ListHead>)
    requires Ring(r) && next == r[0] && prev == r[|r| - 1] && entry !in r
    modifies entry, prev`next, next`prev
    ensures Ring(r + [entry])
  {
    next.prev := entry;
    entry.next := next;
    entry.prev := prev;
    prev.next := entry;
  }

  /** list_add: after `head`, which may be any entry of the ring. */
  method Add(entry: ListHead, head: ListHead, ghost r: seq<ListHead>, ghost p: nat)
    requires Ring(r) && p < |r| && head == r[p] && entry !in r
    modifies entry, head`next, {r[if p + 1 < |r| then p + 1 else 0]}`prev
    ensures Ring(r[..p + 1] + [entry] + r[p + 1..])
  {
    Rotation(r, p + 1);
    AddBetween(entry, head, head.next, r[p + 1..] + r[..p + 1]);
    ghost var q := r[p + 1..] + r[..p + 1] + [entry];
    Rotation(q, |r| - p - 1);
    RotateBack(r, p + 1, entry);
  }

  lemma RotateBack<T>(r: seq<T>, k: nat, x: T)
    requires k <= |r|
    ensures var q := r[k..] + r[..k] + [x]; q[|r| - k..] + q[..|r| - k] == r[..k] + [x] + r[k..]
  {
    var q := r[k..] + r[..k] + [x];
    assert q[..|r| - k] == r[k..] && q[|r| - k..] == r[..k] + [x];
  }

  /** list_add_tail: before `head`, which may be any entry of the ring. */
  method AddTail(entry: ListHead, head: ListHead, ghost r: seq<ListHead>, ghost p: nat)
    requires Ring(r) && p < |r| && head == r[p] && entry !in r
    modifies entry, r
    ensures Ring(r[..p] + [entry] + r[p..])
  {
    Rotation(r, p);
    AddBetween(entry, head.prev, head, r[p..] + r[..p]);
    ghost var q := r[p..] + r[..p] + [entry];
    Rotation(q, |r| - p);
    assert q[|r| - p..] + q[..|r| - p] == r[..p] + [entry] + r[p..];
  }

  /** list_add after the entry that position `q` follows, which for position 0 is the last one. */
  method AddAtPosition(entry: ListHead, pos: ListHead, ghost r: seq<ListHead>, ghost q: nat)
    requires Ring(r) && q <= |r| && entry !in r
    requires pos == if q > 0 then r[q - 1] else r[|r| - 1]
    modifies entry, r
    ensures Ring(r[..q] + [entry] + r[q..])
  {
    ghost var k := if q > 0 then q - 1 else |r| - 1;
    Add(entry, pos, r, k);
    ghost var t := r[..k + 1] + [entry] + r[k + 1..];
    if q == 0 {
      Rotation(t, |r|);
      assert t[|r|..] + t[..|r|] == [entry] + r == r[..q] + [entry] + r[q..];
    }
  }

  /** __list_del_entry: the neighbours of `r[p]` now point to each other. */
  method DelEntry(entry: ListHead, ghost r: seq<ListHead>, ghost p: nat)
    requires Ring(r) && p < |r| && entry == r[p]
    modifies r
    ensures |r| > 1 ==> Ring(Without(r, p))
    ensures |r| == 1 ==> Ring(r)
    ensures |r| > 1 ==> entry.next == old(entry.next) && entry.prev == old(entry.prev)
  {
    assert entry.next == r[if p + 1 < |r| then p + 1 else 0] && entry.prev == r[if p > 0 then p - 1 else |r| - 1];
    entry.next.prev := entry.prev;
    entry.prev.next := entry.next;
    WithoutAt(r, p);
    ghost var t := Without(r, p);
    forall k {:trigger t[k].next} | 0 <= k < |t| ensures t[k].next == t[if k + 1 < |t| then k + 1 else 0] {
      assert t[k] == r[if k < p then k else k + 1];
    }
    forall k {:trigger t[k].prev} | 0 <= k < |t| ensures t[k].prev == t[if k > 0 then k - 1 else |t| - 1] {
      assert t[k] == r[if k < p then k else k + 1];
    }
  }

  /** list_del: what the links of `entry` hold afterwards is not to be relied on. */
  method Del(entry: ListHead, ghost r: seq<ListHead>, ghost p: nat)
    requires Ring(r) && p < |r| && entry == r[p]
    modifies r
    ensures |r| > 1 ==> Ring(Without(r, p))
  {
    DelEntry(entry, r, p);
    entry.next, entry.prev := *, *;
  }

  /** list_del_init */
  method DelInit(entry: ListHead, ghost r: seq<ListHead>, ghost p: nat)
    requires Ring(r) && p < |r| && entry == r[p]
    modifies r
    ensures |r| > 1 ==> Ring(Without(r, p))
    ensures Ring([entry])
  {
    DelEntry(entry, r, p);
    Init(entry);
  }

  // ----- replacing and moving

  /** list_replace: the new entry takes the place of the old one, even on a ring of one. */
  method Replace(old0: ListHead, entry: ListHead, ghost r: seq<ListHead>, ghost p: nat)
    requires Ring(r) && p < |r| && old0 == r[p] && entry !in r
    modifies entry, r
    ensures Ring(r[p := entry])
  {
    entry.next := old0.next;
    entry.next.prev := entry;
    entry.prev := old0.prev;
    entry.prev.next := entry;
  }

  /** list_replace_init */
  method ReplaceInit(old0: ListHead, entry: ListHead, ghost r: seq<ListHead>, ghost p: nat)
    requires Ring(r) && p < |r| && old0 == r[p] && entry !in r
    modifies entry, r
    ensures Ring(r[p := entry]) && Ring([old0])
  {
    Replace(old0, entry, r, p);
    Init(old0);
  }

  /** The ring on which an entry arrives, once it has left position `p` of the ring `from`. */
  ghost function Target(from: seq<ListHead>, p: nat, to: seq<ListHead>): seq<ListHead>
    requires p < |from|
  {
    if from == to then Without(to, p) else to
  }

  /** __list_del_entry seen from the ring that the entry will move to. */
  method Leave(entry: ListHead, ghost from: seq<ListHead>, ghost p: nat, ghost to: seq<ListHead>)
    requires Ring(from) && p < |from| && entry == from[p]
    requires Ring(to) && (from != to ==> Apart(from, to)) && (from == to ==> |to| > 1)
    modifies from
    ensures Ring(Target(from, p, to)) && entry !in Target(from, p, to)
    ensures from != to && |from| > 1 ==> Ring(Without(from, p))
  {
    DelEntry(entry, from, p);
  }

  /**
   list_swap for two entries of one ring, adjacent or not and in either order. Its statements
   appear three times, here and in SwapAcross and SwapWithLone, because what they do, and so what
   is proved of them, depends on the rings that the entries are on.
   */
  method Swap(entry1: ListHead, entry2: ListHead, ghost r: seq<ListHead>, ghost p: nat, ghost q: nat)
    requires Ring(r) && p < |r| && q < |r| && p != q && entry1 == r[p] && entry2 == r[q]
    modifies r
    ensures Ring(r[p := entry2][q := entry1])
  {
    var pos := entry2.prev;
    assert pos == if q > 0 then r[q - 1] else r[|r| - 1];
    Del(entry2, r, q);
    ghost var rest, i := Without(r, q), if q < p then p - 1 else p;
    Replace(entry1, entry2, rest, i);
    if pos == entry1 {
      pos := entry2;
    }
    ghost var to := rest[i := entry2];
    SwapPosition(r, p, q, i, to);
    AddAtPosition(entry1, pos, to, q);
    SwapResult(r, p, q, i, to);
  }

  /** Where list_swap adds `entry1` back. */
  lemma SwapPosition(r: seq<ListHead>, p: nat, q: nat, i: nat, to: seq<ListHead>)
    requires Distinct(r) && p < |r| && q < |r| && p != q
    requires i == (if q < p then p - 1 else p) && to == Without(r, q)[i := r[q]]
    ensures r[p] !in to
    ensures var before := if q > 0 then r[q - 1] else r[|r| - 1];
      (if before == r[p] then r[q] else before) == to[if q > 0 then q - 1 else |to| - 1]
  {
  }

  lemma SwapResult(r: seq<ListHead>, p: nat, q: nat, i: nat, to: seq<ListHead>)
    requires p < |r| && q < |r| && p != q
    requires i == (if q < p then p - 1 else p) && to == Without(r, q)[i := r[q]]
    ensures to[..q] + [r[p]] + to[q..] == r[p := r[q]][q := r[p]]
  {
    var left, right := to[..q] + [r[p]] + to[q..], r[p := r[q]][q := r[p]];
    if p < q {
      assert left[..q] == r[..q][p := r[q]] && left[q + 1..] == r[q + 1..];
    } else {
      assert left[..q] == r[..q] && left[q + 1..] == r[q + 1..][p - q - 1 := r[q]];
    }
    assert left == left[..q] + [left[q]] + left[q + 1..];
    assert right == right[..q] + [right[q]] + right[q + 1..];
  }

  /** list_del, and a ring that it leaves alone. */
  method DelBeside(entry: ListHead, ghost r: seq<ListHead>, ghost p: nat, ghost other: seq<ListHead>)
    requires Ring(r) && 1 < |r| && p < |r| && entry == r[p]
    requires Ring(other) && Apart(other, r)
    modifies r
    ensures Ring(Without(r, p)) && Ring(other)
  {
    Del(entry, r, p);
    forall i | 0 <= i < |other| ensures unchanged(other[i]) {
      assert other[i] !in r;
    }
  }

  /** list_replace, and a ring that it leaves alone. */
  method ReplaceBeside(old0: ListHead, entry: ListHead,
                       ghost r: seq<ListHead>, ghost p: nat, ghost other: seq<ListHead>)
    requires Ring(r) && p < |r| && old0 == r[p] && entry !in r
    requires Ring(other) && Apart(other, r + [entry])
    modifies entry, r
    ensures Ring(r[p := entry]) && Ring(other)
  {
    Replace(old0, entry, r, p);
    forall i | 0 <= i < |other| ensures unchanged(other[i]) {
      assert other[i] !in r + [entry];
    }
  }

  /** list_add, and a ring that it leaves alone. */
  method AddBeside(entry: ListHead, pos: ListHead, ghost r: seq<ListHead>, ghost q: nat, ghost other: seq<ListHead>)
    requires Ring(r) && q <= |r| && entry !in r
    requires pos == r[if q > 0 then q - 1 else |r| - 1]
    requires Ring(other) && Apart(other, r + [entry])
    modifies entry, r
    ensures Ring(r[..q] + [entry] + r[q..]) && Ring(other)
  {
    AddAtPosition(entry, pos, r, q);
    forall i | 0 <= i < |other| ensures unchanged(other[i]) {
      assert other[i] !in r + [entry];
    }
  }

  lemma AcrossApart(r1: seq<ListHead>, p: nat, r2: seq<ListHead>, q: nat)
    requires Distinct(r1) && Distinct(r2) && Apart(r1, r2) && p < |r1| && q < |r2|
    ensures Apart(Without(r2, q), r1 + [r2[q]])
    ensures Apart(r1[p := r2[q]], Without(r2, q) + [r1[p]])
    ensures r2[q] !in r1 && r1[p] !in Without(r2, q)
    ensures forall x {:trigger x in Without(r2, q)} | x in Without(r2, q) :: x in r2
  {
  }

  lemma BeforeWithout(r: seq<ListHead>, q: nat)
    requires Ring(r) && q < |r| && |r| > 1
    ensures var left := Without(r, q); r[q].prev == left[if q > 0 then q - 1 else |left| - 1]
  {
  }

  lemma AcrossResult<T>(r: seq<T>, q: nat, x: T)
    requires q < |r|
    ensures Without(r, q)[..q] + [x] + Without(r, q)[q..] == r[q := x]
  {
    assert Without(r, q)[..q] == r[..q] && Without(r, q)[q..] == r[q + 1..];
  }

  /** The rest of list_swap when `entry2` has left its ring. */
  method PutAcross(entry1: ListHead, entry2: ListHead, before: ListHead,
                   ghost r1: seq<ListHead>, ghost p: nat, ghost left: seq<ListHead>, ghost q: nat)
    requires Ring(r1) && p < |r1| && entry1 == r1[p] && entry2 !in r1
    requires Ring(left) && q <= |left| && before == left[if q > 0 then q - 1 else |left| - 1] && entry1 !in left
    requires Apart(left, r1 + [entry2]) && Apart(r1[p := entry2], left + [entry1])
    modifies r1, left, entry2
    ensures Ring(r1[p := entry2]) && Ring(left[..q] + [entry1] + left[q..])
  {
    var pos := before;
    ReplaceBeside(entry1, entry2, r1, p, left);
    if pos == entry1 {
      pos := entry2;
    }
    AddBeside(entry1, pos, left, q, r1[p := entry2]);
  }

  /** list_swap for entries of two rings; the second one must have a position to give away. */
  method SwapAcross(entry1: ListHead, entry2: ListHead,
                    ghost r1: seq<ListHead>, ghost p: nat, ghost r2: seq<ListHead>, ghost q: nat)
    requires Ring(r1) && p < |r1| && entry1 == r1[p]
    requires Ring(r2) && q < |r2| && entry2 == r2[q] && |r2| > 1
    requires Apart(r1, r2)
    modifies r1, r2
    ensures Ring(r1[p := entry2]) && Ring(r2[q := entry1])
  {
    ghost var left := Without(r2, q);
    AcrossApart(r1, p, r2, q);
    BeforeWithout(r2, q);
    var pos := entry2.prev;
    DelBeside(entry2, r2, q, r1);
    PutAcross(entry1, entry2, pos, r1, p, left, q);
    AcrossResult(r2, q, entry1);
  }

  /**
   list_swap when `entry2` is alone in its ring, and so has no position to give away: it still
   replaces `entry1`, but then `entry1` is added behind it.
   */
  method SwapWithLone(entry1: ListHead, entry2: ListHead, ghost r: seq<ListHead>, ghost p: nat)
    requires Ring(r) && p < |r| && entry1 == r[p] && Ring([entry2]) && entry2 !in r
    modifies r, entry2
    ensures Ring(r[..p] + [entry2, entry1] + r[p + 1..])
    ensures entry1.next != entry1 && entry2.next == entry1
  {
    var pos := entry2.prev;
    DelLone(entry2, r);
    Replace(entry1, entry2, r, p);
    if pos == entry1 {
      pos := entry2;
    }
    ghost var to := r[p := entry2];
    AddAtPosition(entry1, pos, to, p + 1);
    LoneResult(r, p, entry2, entry1);
    ghost var t := r[..p] + [entry2, entry1] + r[p + 1..];
    assert t[p] == entry2 && t[p + 1] == entry1;
    assert t[p].next == t[p + 1] && t[p + 1].next == t[if p + 2 < |t| then p + 2 else 0];
  }

  method DelLone(entry: ListHead, ghost other: seq<ListHead>)
    requires Ring([entry]) && Ring(other) && entry !in other
    modifies entry
    ensures Ring(other)
  {
    Del(entry, [entry], 0);
    forall i | 0 <= i < |other| ensures unchanged(other[i]) {
      assert other[i] != entry;
    }
  }

  lemma LoneResult(r: seq<ListHead>, p: nat, x: ListHead, y: ListHead)
    requires p < |r|
    ensures var to := r[p := x]; to[..p + 1] + [y] + to[p + 1..] == r[..p] + [x, y] + r[p + 1..]
  {
  }

  /** list_move_tail: from the ring `from` to the position before `head`, on the same ring or another. */
  method MoveTail(list: ListHead, head: ListHead,
                  ghost from: seq<ListHead>, ghost p: nat, ghost to: seq<ListHead>)
    requires Ring(from) && p < |from| && list == from[p]
    requires Ring(to) && head == to[0]
    requires if from == to then p > 0 else Apart(from, to)
    modifies from, to
    ensures Ring(Target(from, p, to) + [list])
    ensures from != to && |from| > 1 ==> Ring(Without(from, p))
  {
    Leave(list, from, p, to);
    ghost var rest := Target(from, p, to);
    AddBetween(list, head.prev, head, rest);
  }

  /** What an entry leaves behind on another ring than the one that it moves to. */
  lemma LeftApart(from: seq<ListHead>, p: nat, to: seq<ListHead>)
    requires Distinct(from) && p < |from| && (from != to ==> Apart(from, to))
    ensures from != to ==> Apart(Without(from, p), to + [from[p]])
  {
  }

  /** list_add behind the head of a ring, and a ring that it leaves alone, if there is one. */
  method AddKeeping(entry: ListHead, head: ListHead, ghost r: seq<ListHead>, ghost other: seq<ListHead>)
    requires Ring(r) && head == r[0] && entry !in r
    requires other != [] ==> Ring(other) && Apart(other, r + [entry])
    modifies entry, r
    ensures Ring([head, entry] + r[1..])
    ensures other != [] ==> Ring(other)
  {
    Add(entry, head, r, 0);
    assert r[..1] + [entry] + r[1..] == [head, entry] + r[1..];
    forall i | 0 <= i < |other| ensures unchanged(other[i]) {
      assert other[i] !in r + [entry];
    }
  }

  /** list_move: from the ring `from` to the position after `head`. */
  method Move(list: ListHead, head: ListHead,
              ghost from: seq<ListHead>, ghost p: nat, ghost to: seq<ListHead>)
    requires Ring(from) && p < |from| && list == from[p]
    requires Ring(to) && head == to[0]
    requires if from == to then p > 0 else Apart(from, to)
    modifies from, to
    ensures Ring([head, list] + Target(from, p, to)[1..])
    ensures from != to && |from| > 1 ==> Ring(Without(from, p))
  {
    Leave(list, from, p, to);
    ghost var rest, left := Target(from, p, to), if from != to && |from| > 1 then Without(from, p) else [];
    LeftApart(from, p, to);
    AddKeeping(list, head, rest, left);
  }

  /** The first half of list_bulk_move_tail: the entries around the segment are joined. */
  method Unhook(first: ListHead, last: ListHead, ghost r: seq<ListHead>, ghost i: nat, ghost j: nat)
    requires Ring(r) && 0 < i <= j < |r| && first == r[i] && last == r[j]
    modifies r
    ensures Ring(r[..i] + r[j + 1..]) && Linked(r[i..j + 1])
  {
    ghost var t, s := r[..i] + r[j + 1..], r[i..j + 1];
    assert first.prev == r[i - 1] && last.next == r[if j + 1 < |r| then j + 1 else 0];
    first.prev.next := last.next;
    last.next.prev := first.prev;
    Gap(r, i, j, t);
    forall k {:trigger t[k].next} | 0 <= k < |t| - 1 ensures t[k].next == t[k + 1] {
      assert k != i - 1 ==> t[k] != r[i - 1] && t[k].next == old(t[k].next);
    }
    forall k {:trigger t[k].prev} | 0 < k < |t| ensures t[k].prev == t[k - 1] {
      assert k != i ==> t[k].prev == old(t[k].prev);
    }
    assert forall k {:trigger s[k]} | 0 <= k < |s| :: s[k] == r[i + k];
  }

  /** Where the entries around a segment go when it is taken out. */
  lemma Gap<T>(r: seq<T>, i: nat, j: nat, t: seq<T>)
    requires Distinct(r) && 0 < i <= j < |r| && t == r[..i] + r[j + 1..]
    ensures Distinct(t) && forall k {:trigger t[k]} | 0 <= k < |t| :: t[k] == r[if k < i then k else k + j + 1 - i]
  {
    assert forall k {:trigger t[k]} | 0 <= k < |t| :: t[k] == r[if k < i then k else k + j + 1 - i];
  }

  /** The second half of list_bulk_move_tail: a linked segment is put in front of `head`. */
  method HookTail(head: ListHead, first: ListHead, last: ListHead, ghost r: seq<ListHead>, ghost t: seq<ListHead>)
    requires Ring(r) && head == r[0]
    requires t != [] && Linked(t) && Distinct(r + t) && first == t[0] && last == t[|t| - 1]
    modifies r, t
    ensures Ring(r + t)
  {
    ghost var q := r + t;
    assert q[|r|] == first && q[|q| - 1] == last;
    assert forall i | 0 <= i < |t| :: t[i] == q[|r| + i];
    head.prev.next := first;
    first.prev := head.prev;
    last.next := head;
    head.prev := last;
  }

  /** list_bulk_move_tail: the segment from `first` to `last` becomes the tail, even if it already is. */
  method BulkMoveTail(head: ListHead, first: ListHead, last: ListHead,
                      ghost r: seq<ListHead>, ghost i: nat, ghost j: nat)
    requires Ring(r) && head == r[0]
    requires 0 < i <= j < |r| && first == r[i] && last == r[j]
    modifies r
    ensures Ring(r[..i] + r[j + 1..] + r[i..j + 1])
  {
    Unhook(first, last, r, i, j);
    HookTail(head, first, last, r[..i] + r[j + 1..], r[i..j + 1]);
  }

  // ----- tests

  /** list_is_first */
  predicate IsFirst(list: ListHead, head: ListHead)
    reads list
  {
    list.prev == head
  }

  /** list_is_last */
  predicate IsLast(list: ListHead, head: ListHead)
    reads list
  {
    list.next == head
  }

  /** list_empty */
  predicate Empty(head: ListHead)
    reads head
  {
    head.next == head
  }

  /** list_is_singular */
  predicate Singular(head: ListHead)
    reads head
  {
    !Empty(head) && head.next == head.prev
  }

  /** The four tests look at one or two links only, yet tell the position and the length. */
  lemma TestsAreExact(r: seq<ListHead>, p: nat)
    requires Ring(r) && 0 < p < |r|
    ensures IsFirst(r[p], r[0]) <==> p == 1
    ensures IsLast(r[p], r[0]) <==> p == |r| - 1
  {
  }

  lemma LengthTests(r: seq<ListHead>)
    requires Ring(r)
    ensures Empty(r[0]) <==> |r| == 1
    ensures Singular(r[0]) <==> |r| == 2
  {
    if |r| > 1 {
      assert r[0].next == r[1];
    }
  }

  // ----- rotating

  /** list_rotate_left */
  method RotateLeft(head: ListHead, ghost r: seq<ListHead>)
    requires Ring(r) && head == r[0]
    modifies r
    ensures Ring(if |r| == 1 then r else [head] + r[2..] + [r[1]])
  {
    LengthTests(r);
    if !Empty(head) {
      var first := head.next;
      assert first == r[1];
      MoveTail(first, head, r, 1, r);
      assert Without(r, 1) + [first] == [head] + r[2..] + [r[1]];
    }
  }

  /** list_rotate_to_front: the head itself is moved in front of `list`. */
  method RotateToFront(list: ListHead, head: ListHead, ghost r: seq<ListHead>, ghost p: nat)
    requires Ring(r) && head == r[0] && 0 < p < |r| && list == r[p]
    modifies r
    ensures Ring([head] + r[p..] + r[1..p])
  {
    ghost var q := r[p..] + r[..p];
    Rotation(r, p);
    MoveTail(head, list, q, |r| - p, q);
    ghost var t := Without(q, |r| - p) + [head];
    Rotation(t, |t| - 1);
    assert t[|t| - 1..] + t[..|t| - 1] == [head] + r[p..] + r[1..p];
  }

  // ----- cutting

  /** The two rings that a cut before position `e` makes. */
  lemma CutParts(list: ListHead, r: seq<ListHead>, e: nat, front: seq<ListHead>, back: seq<ListHead>)
    requires Distinct(r) && 0 < e <= |r| && list !in r && front == [list] + r[1..e] && back == [r[0]] + r[e..]
    ensures Distinct(front) && Distinct(back)
    ensures forall i {:trigger front[i]} | 0 <= i < |front| :: front[i] == if i == 0 then list else r[i]
    ensures forall i {:trigger back[i]} | 0 <= i < |back| :: back[i] == if i == 0 then r[0] else r[e + i - 1]
  {
  }

  /** __list_cut_position */
  method CutAfter(list: ListHead, head: ListHead, entry: ListHead, ghost r: seq<ListHead>, ghost e: nat)
    requires Ring(r) && head == r[0] && 0 < e < |r| && entry == r[e] && list !in r
    modifies list, r
    ensures Ring([list] + r[1..e + 1]) && Ring([head] + r[e + 1..])
  {
    assert head.next == r[1] && entry.next == if e + 1 < |r| then r[e + 1] else r[0];
    var newFirst := entry.next;
    list.next := head.next;
    list.next.prev := list;
    list.prev := entry;
    entry.next := list;
    head.next := newFirst;
    newFirst.prev := head;
    ghost var front, back := [list] + r[1..e + 1], [head] + r[e + 1..];
    CutParts(list, r, e + 1, front, back);
    assert Ring(front);
  }

  /**
   list_cut_position. `entry` is entry `e` of the ring; when there is at most one entry it may
   also be a stranger (`e >= |r|`), and then nothing happens. On an empty ring `list` is not
   written at all.
   */
  method CutPosition(list: ListHead, head: ListHead, entry: ListHead, ghost r: seq<ListHead>, ghost e: nat)
    requires Ring(r) && head == r[0] && list !in r
    requires if e < |r| then entry == r[e] else |r| <= 2 && entry !in r
    modifies list, r
    ensures |r| > 1 && e < |r| ==> Ring([list] + r[1..e + 1]) && Ring([head] + r[e + 1..])
    ensures |r| == 1 || e >= |r| ==> Ring(r) && list.next == old(list.next) && list.prev == old(list.prev)
  {
    LengthTests(r);
    if Empty(head) {
      return;
    }
    assert head.next == r[1];
    if Singular(head) && head.next != entry && head != entry {
      return;
    }
    if entry == head {
      Init(list);
      assert [list] + r[1..1] == [list] && [head] + r[1..] == r;
    } else {
      CutAfter(list, head, entry, r, e);
    }
  }

  /** list_cut_before, unless the first entry is the one named: the entries before it move to `list`. */
  method CutFront(list: ListHead, head: ListHead, entry: ListHead, ghost r: seq<ListHead>, ghost e: nat)
    requires Ring(r) && head == r[0] && 1 < e <= |r| && entry == r[if e < |r| then e else 0] && list !in r
    modifies list, r
    ensures Ring([list] + r[1..e]) && Ring([head] + r[e..])
  {
    assert head.next == r[1] && entry.prev == r[e - 1];
    list.next := head.next;
    list.next.prev := list;
    list.prev := entry.prev;
    list.prev.next := list;
    head.next := entry;
    entry.prev := head;
    ghost var front, back := [list] + r[1..e], [head] + r[e..];
    CutParts(list, r, e, front, back);
    assert Ring(front);
  }

  /** list_cut_before: cutting before the head itself moves everything. */
  method CutBefore(list: ListHead, head: ListHead, entry: ListHead, ghost r: seq<ListHead>, ghost e: nat)
    requires Ring(r) && head == r[0] && e < |r| && entry == r[e] && list !in r
    modifies list, r
    ensures e > 0 ==> Ring([list] + r[1..e]) && Ring([head] + r[e..])
    ensures e == 0 ==> Ring([list] + r[1..]) && Ring([head])
  {
    LengthTests(r);
    assert |r| > 1 ==> head.next == r[1];
    if head.next == entry {
      Init(list);
      assert e > 0 ==> [list] + r[1..e] == [list] && [head] + r[e..] == r;
      assert e == 0 ==> [list] + r[1..] == [list] && [head] == r;
      return;
    }
    CutFront(list, head, entry, r, if e > 0 then e else |r|);
    assert e == 0 ==> r[1..|r|] == r[1..] && [head] + r[|r|..] == [head];
  }

  // ----- splicing

  /** __list_splice between the neighbours `prev` and `next`; the links of `list` itself go stale. */
  method SpliceBetween(list: ListHead, prev: ListHead, next: ListHead, ghost rl: seq<ListHead>, ghost r: seq<ListHead>)
    requires Ring(rl) && list == rl[0] && |rl| > 1
    requires Ring(r) && next == r[0] && prev == r[|r| - 1]
    requires Apart(rl, r)
    modifies rl[1..], r
    ensures Ring(r + rl[1..])
  {
    var first, last := list.next, list.prev;
    assert first == rl[1] && last == rl[|rl| - 1];
    first.prev := prev;
    prev.next := first;
    last.next := next;
    next.prev := last;
  }

  /** list_splice: the entries of `list` come right after `head`. */
  method Splice(list: ListHead, head: ListHead, ghost rl: seq<ListHead>, ghost r: seq<ListHead>)
    requires Ring(rl) && list == rl[0]
    requires Ring(r) && head == r[0]
    requires Apart(rl, r)
    modifies rl[1..], r
    ensures Ring([head] + rl[1..] + r[1..])
  {
    LengthTests(rl);
    if !Empty(list) {
      Rotation(r, 1);
      SpliceBetween(list, head, head.next, rl, r[1..] + r[..1]);
      ghost var t := r[1..] + r[..1] + rl[1..];
      Rotation(t, |r| - 1);
      assert t[|r| - 1..] + t[..|r| - 1] == [head] + rl[1..] + r[1..];
    } else {
      assert [head] + rl[1..] + r[1..] == r;
    }
  }

  /** list_splice_tail: the entries of `list` come right before `head`. */
  method SpliceTail(list: ListHead, head: ListHead, ghost rl: seq<ListHead>, ghost r: seq<ListHead>)
    requires Ring(rl) && list == rl[0]
    requires Ring(r) && head == r[0]
    requires Apart(rl, r)
    modifies rl[1..], r
    ensures Ring(r + rl[1..])
  {
    LengthTests(rl);
    if !Empty(list) {
      SpliceBetween(list, head.prev, head, rl, r);
    } else {
      assert r + rl[1..] == r;
    }
  }

  /** list_splice_init */
  method SpliceInit(list: ListHead, head: ListHead, ghost rl: seq<ListHead>, ghost r: seq<ListHead>)
    requires Ring(rl) && list == rl[0]
    requires Ring(r) && head == r[0]
    requires Apart(rl, r)
    modifies rl, r
    ensures Ring([head] + rl[1..] + r[1..]) && Ring([list])
  {
    LengthTests(rl);
    if !Empty(list) {
      Splice(list, head, rl, r);
      Init(list);
    } else {
      assert [head] + rl[1..] + r[1..] == r;
    }
  }

  /** list_splice_tail_init */
  method SpliceTailInit(list: ListHead, head: ListHead, ghost rl: seq<ListHead>, ghost r: seq<ListHead>)
    requires Ring(rl) && list == rl[0]
    requires Ring(r) && head == r[0]
    requires Apart(rl, r)
    modifies rl, r
    ensures Ring(r + rl[1..]) && Ring([list])
  {
    LengthTests(rl);
    if !Empty(list) {
      SpliceTail(list, head, rl, r);
      Init(list);
    } else {
      assert r + rl[1..] == r;
    }
  }

  // ----- cutting and splicing undo each other

  /** The sequence of a ring determines every one of its links. */
  twostate lemma SameRingSameLinks(r: seq<ListHead>)
    requires old(Ring(r)) && Ring(r)
    ensures forall x | x in r :: x.next == old(x.next) && x.prev == old(x.prev)
  {
  }

  lemma CutPieces(list: ListHead, r: seq<ListHead>, k: nat)
    requires Distinct(r) && list !in r && 0 < k <= |r|
    ensures Apart([list] + r[1..k], [r[0]] + r[k..])
    ensures [r[0]] + ([list] + r[1..k])[1..] + ([r[0]] + r[k..])[1..] == r
  {
  }

  /** Cutting after any entry and splicing the piece back restores every link of the ring. */
  method CutThenSplice(list: ListHead, head: ListHead, entry: ListHead, ghost r: seq<ListHead>, ghost e: nat)
    requires Ring(r) && head == r[0] && |r| > 1 && e < |r| && entry == r[e] && list !in r
    modifies list, r
    ensures Ring(r)
    ensures forall x | x in r :: x.next == old(x.next) && x.prev == old(x.prev)
  {
    CutPosition(list, head, entry, r, e);
    CutPieces(list, r, e + 1);
    Splice(list, head, [list] + r[1..e + 1], [head] + r[e + 1..]);
    SameRingSameLinks(r);
  }

  /** Cutting before any entry, the head included, and splicing back restores every link as well. */
  method CutBeforeThenSplice(list: ListHead, head: ListHead, entry: ListHead, ghost r: seq<ListHead>, ghost e: nat)
    requires Ring(r) && head == r[0] && e < |r| && entry == r[e] && list !in r
    modifies list, r
    ensures Ring(r)
    ensures forall x | x in r :: x.next == old(x.next) && x.prev == old(x.prev)
  {
    ghost var k := if e > 0 then e else |r|;
    assert [list] + r[1..|r|] == [list] + r[1..] && [head] + r[|r|..] == [head];
    CutBefore(list, head, entry, r, e);
    CutPieces(list, r, k);
    Splice(list, head, [list] + r[1..k], [head] + r[k..]);
    SameRingSameLinks(r);
  }

  lemma SplicedThenCut(rl: seq<ListHead>, r: seq<ListHead>, q: seq<ListHead>)
    requires Distinct(rl) && Apart(rl, r) && |rl| > 1 && r != [] && q == [r[0]] + rl[1..] + r[1..]
    ensures |rl| <= |q| && rl[0] !in q && q[|rl| - 1] == rl[|rl| - 1]
    ensures [rl[0]] + q[1..|rl|] == rl && [r[0]] + q[|rl|..] == r
    ensures forall x {:trigger x in q} | x in q :: x in rl || x in r
  {
    assert q[1..|rl|] == rl[1..] && q[|rl|..] == r[1..];
  }

  method SpliceAndCut(list: ListHead, head: ListHead, ghost rl: seq<ListHead>, ghost r: seq<ListHead>)
    requires Ring(rl) && list == rl[0] && |rl| > 1
    requires Ring(r) && head == r[0]
    requires Apart(rl, r)
    modifies rl, r
    ensures Ring(rl) && Ring(r)
  {
    var last := list.prev;
    Splice(list, head, rl, r);
    ghost var q := [head] + rl[1..] + r[1..];
    SplicedThenCut(rl, r, q);
    CutPosition(list, head, last, q, |rl| - 1);
  }

  /** Splicing a list in and cutting after its last entry restores every link of both rings. */
  method SpliceThenCut(list: ListHead, head: ListHead, ghost rl: seq<ListHead>, ghost r: seq<ListHead>)
    requires Ring(rl) && list == rl[0] && |rl| > 1
    requires Ring(r) && head == r[0]
    requires Apart(rl, r)
    modifies rl, r
    ensures Ring(rl) && Ring(r)
    ensures forall x | x in rl + r :: x.next == old(x.next) && x.prev == old(x.prev)
  {
    SpliceAndCut(list, head, rl, r);
    SameRingSameLinks(rl);
    SameRingSameLinks(r);
  }
}
