/**
 hlist: a list whose head is a single pointer. A node keeps in `pprev` the place that points to it,
 which is the head or the `next` field of the node before, so it can leave without knowing its list.
 */
module Hlist {
  import opened Sequences

  class HlistHead {
    var first: HlistNode?
  }

  class HlistNode {
    var next: HlistNode?
    var pprev: Slot
  }

  /** A pointer to a pointer to a node: &head->first, &node->next, a poison value or null. */
  datatype Slot = Null | Poison | First(head: HlistHead) | Next(node: HlistNode)

  ghost function NextOf(s: seq<HlistNode>, i: nat): HlistNode?
    requires i < |s|
  {
    if i + 1 < |s| then s[i + 1] else null
  }

  ghost function SlotOf(h: HlistHead, s: seq<HlistNode>, i: nat): Slot
    requires i < |s|
  {
    if i == 0 then First(h) else Next(s[i - 1])
  }

  /** The list behind `h` is `s`, and every node knows the slot that points to it. */
  ghost predicate Chain(h: HlistHead, s: seq<HlistNode>)
    reads h`first, s`next, s`pprev
  {
    && Distinct(s)
    && h.first == (if s == [] then null else s[0])
    && (forall i {:trigger s[i].next} | 0 <= i < |s| :: s[i].next == NextOf(s, i))
    && (forall i {:trigger s[i].pprev} | 0 <= i < |s| :: s[i].pprev == SlotOf(h, s, i))
  }

  predicate Unhashed(n: HlistNode)
    reads n
  {
    n.pprev == Null
  }

  /** What the slot points to. */
  function Deref(slot: Slot): HlistNode?
    requires slot.First? || slot.Next?
    reads if slot.First? then {slot.head} else if slot.Next? then {slot.node} else {}
  {
    match slot
    case First(h) => h.first
    case Next(n) => n.next
  }

  /** `pprev` names the one place that points to the node. */
  lemma SlotIsUnique(h: HlistHead, s: seq<HlistNode>, i: nat)
    requires Chain(h, s) && i < |s|
    ensures (s[i].pprev.First? || s[i].pprev.Next?) && Deref(s[i].pprev) == s[i]
    ensures h.first == s[i] <==> s[i].pprev == First(h)
    ensures forall j | 0 <= j < |s| :: s[j].next == s[i] <==> s[i].pprev == Next(s[j])
  {
  }

  method Store(slot: Slot, n: HlistNode?)
    requires slot.First? || slot.Next?
    modifies if slot.First? then {slot.head} else {}
    modifies if slot.Next? then {slot.node} else {}
    ensures Deref(slot) == n
    ensures slot.Next? ==> slot.node.pprev == old(slot.node.pprev)
  {
    match slot {
      case First(h) => h.first := n;
      case Next(m) => m.next := n;
    }
  }

  /** INIT_HLIST_HEAD */
  method InitHead(h: HlistHead)
    modifies h
    ensures Chain(h, [])
  {
    h.first := null;
  }

  /** INIT_HLIST_NODE */
  method InitNode(n: HlistNode)
    modifies n
    ensures Unhashed(n) && n.next == null
  {
    n.next := null;
    n.pprev := Null;
  }

  /** hlist_empty */
  method Empty(h: HlistHead, ghost s: seq<HlistNode>) returns (empty: bool)
    requires Chain(h, s)
    ensures empty <==> s == []
  {
    empty := h.first == null;
  }

  /** hlist_add_head */
  method AddHead(n: HlistNode, h: HlistHead, ghost s: seq<HlistNode>)
    requires Chain(h, s) && n !in s
    modifies h, n, s
    ensures Chain(h, [n] + s)
  {
    var first := h.first;
    n.next := first;
    if first != null {
      first.pprev := Next(n);
    }
    h.first := n;
    n.pprev := First(h);
  }

  /** hlist_add_before */
  method AddBefore(n: HlistNode, next: HlistNode, ghost h: HlistHead, ghost s: seq<HlistNode>, ghost i: nat)
    requires Chain(h, s) && n !in s && i < |s| && next == s[i]
    modifies h, n, s
    ensures Chain(h, With(s, i, n))
  {
    assert next.pprev == SlotOf(h, s, i);
    n.pprev := next.pprev;
    n.next := next;
    next.pprev := Next(n);
    Store(n.pprev, n);
    WithAt(s, i, n);
    ghost var t := With(s, i, n);
    forall k {:trigger t[k].next} | 0 <= k < |t| ensures t[k].next == NextOf(t, k) {
      assert k != i ==> t[k] == s[if k < i then k else k - 1];
    }
    forall k {:trigger t[k].pprev} | 0 <= k < |t| ensures t[k].pprev == SlotOf(h, t, k) {
      assert k != i ==> t[k] == s[if k < i then k else k - 1];
    }
  }

  /** hlist_add_behind */
  method AddBehind(n: HlistNode, prev: HlistNode, ghost h: HlistHead, ghost s: seq<HlistNode>, ghost i: nat)
    requires Chain(h, s) && n !in s && i < |s| && prev == s[i]
    modifies n, s
    ensures Chain(h, With(s, i + 1, n))
  {
    assert prev.next == NextOf(s, i);
    n.next := prev.next;
    prev.next := n;
    n.pprev := Next(prev);
    if n.next != null {
      n.next.pprev := Next(n);
    }
    WithAt(s, i + 1, n);
    ghost var t := With(s, i + 1, n);
    forall k {:trigger t[k].next} | 0 <= k < |t| ensures t[k].next == NextOf(t, k) {
      assert k != i + 1 ==> t[k] == s[if k <= i then k else k - 1];
    }
    forall k {:trigger t[k].pprev} | 0 <= k < |t| ensures t[k].pprev == SlotOf(h, t, k) {
      assert k != i + 1 ==> t[k] == s[if k <= i then k else k - 1];
    }
  }

  /** __hlist_del: the list without the node; the node's own links stay. */
  method Unlink(n: HlistNode, ghost h: HlistHead, ghost s: seq<HlistNode>, ghost i: nat)
    requires Chain(h, s) && i < |s| && n == s[i]
    modifies h, s
    ensures Chain(h, Without(s, i)) && n !in Without(s, i)
  {
    assert n.pprev == SlotOf(h, s, i) && n.next == NextOf(s, i);
    var next := n.next;
    var pprev := n.pprev;
    Store(pprev, next);
    if next != null {
      next.pprev := pprev;
    }
    ghost var t := Without(s, i);
    WithoutAt(s, i);
    forall k {:trigger t[k].next} | 0 <= k < |t| ensures t[k].next == NextOf(t, k) {
      assert t[k] == s[if k < i then k else k + 1];
    }
    forall k {:trigger t[k].pprev} | 0 <= k < |t| ensures t[k].pprev == SlotOf(h, t, k) {
      assert t[k] == s[if k < i then k else k + 1];
    }
  }

  /** hlist_del: the node is left with poison links, and so in hashed state. */
  method Del(n: HlistNode, ghost h: HlistHead, ghost s: seq<HlistNode>, ghost i: nat)
    requires Chain(h, s) && i < |s| && n == s[i]
    modifies h, s
    ensures Chain(h, Without(s, i)) && n !in Without(s, i) && !Unhashed(n)
  {
    Unlink(n, h, s, i);
    n.next := *;
    n.pprev := Poison;
  }

  /** hlist_del_init: nothing happens to a node that is on no list. */
  method DelInit(n: HlistNode, ghost h: HlistHead, ghost s: seq<HlistNode>, ghost i: nat)
    requires if Unhashed(n) then s == [] else Chain(h, s) && i < |s| && n == s[i]
    modifies h, s
    ensures Unhashed(n)
    ensures if old(Unhashed(n)) then unchanged(h) else Chain(h, Without(s, i)) && n !in Without(s, i) && n.next == null
  {
    if n.pprev != Null {
      Unlink(n, h, s, i);
      InitNode(n);
    }
  }

  /** hlist_is_singular_node: answered without looking at the head. */
  method IsSingularNode(n: HlistNode, h: HlistHead, ghost owner: HlistHead, ghost s: seq<HlistNode>, ghost i: nat)
    returns (singular: bool)
    requires Chain(owner, s) && i < |s| && n == s[i]
    ensures singular <==> s == [n] && owner == h
  {
    singular := n.next == null && n.pprev == First(h);
  }

  /** hlist_move_list; what was behind `to` is dropped. */
  method MoveList(from: HlistHead, to: HlistHead, ghost s: seq<HlistNode>)
    requires Chain(from, s) && from != to
    modifies from, to, s
    ensures Chain(to, s) && Chain(from, [])
  {
    to.first := from.first;
    if to.first != null {
      to.first.pprev := First(to);
    }
    from.first := null;
  }

  /** A scan of `s` visited `visited` and was left at `obj`, the first node for which `stop` holds, if any. */
  ghost predicate Scanned(s: seq<HlistNode>, stop: HlistNode -> bool, obj: HlistNode?, visited: seq<HlistNode>) {
    && visited <= s
    && (if obj == null then visited == s else visited != [] && visited[|visited| - 1] == obj && stop(obj))
    && (forall i | 0 <= i < |visited| - (if obj == null then 0 else 1) :: !stop(visited[i]))
  }

  /** hlist_for_each_entry, left by a break at the first node for which `stop` holds. */
  method ForEach(h: HlistHead, stop: HlistNode -> bool, ghost s: seq<HlistNode>)
    returns (pos: HlistNode?, visited: seq<HlistNode>)
    requires Chain(h, s)
    ensures Scanned(s, stop, pos, visited)
  {
    pos, visited := h.first, [];
    while pos != null
      invariant visited <= s
      invariant pos == if |visited| < |s| then s[|visited|] else null
      invariant forall i | 0 <= i < |visited| :: !stop(visited[i])
      decreases |s| - |visited|
    {
      visited := visited + [pos];
      if stop(pos) {
        break;
      }
      pos := pos.next;
    }
  }

  lemma ScannedMore(a: seq<HlistNode>, s: seq<HlistNode>, stop: HlistNode -> bool,
                    obj: HlistNode?, visited: seq<HlistNode>)
    requires Scanned(a, stop, null, a) && Scanned(s, stop, obj, visited)
    ensures Scanned(a + s, stop, obj, a + visited)
  {
  }

  function Kept<T>(s: seq<T>, doomed: T -> bool): seq<T> {
    if s == [] then [] else (if doomed(s[0]) then [] else [s[0]]) + Kept(s[1..], doomed)
  }

  lemma {:induction false} KeptAppend<T>(s: seq<T>, x: T, doomed: T -> bool)
    ensures Kept(s + [x], doomed) == Kept(s, doomed) + if doomed(x) then [] else [x]
  {
    if s != [] {
      KeptAppend(s[1..], x, doomed);
      assert (s + [x])[1..] == s[1..] + [x];
    } else {
      assert [x][1..] == [];
    }
  }

  lemma {:induction false} KeptMembers<T>(s: seq<T>, doomed: T -> bool, x: T)
    ensures x in Kept(s, doomed) <==> x in s && !doomed(x)
  {
    if s != [] {
      KeptMembers(s[1..], doomed, x);
      assert s == [s[0]] + s[1..];
    }
  }

  lemma {:induction false} KeptDistinct<T>(s: seq<T>, doomed: T -> bool)
    requires Distinct(s)
    ensures Distinct(Kept(s, doomed))
  {
    if s != [] {
      KeptDistinct(s[1..], doomed);
      KeptMembers(s[1..], doomed, s[0]);
    }
  }

  /** The list when the first `j` nodes have been visited. */
  ghost function Pruned(s: seq<HlistNode>, doomed: HlistNode -> bool, j: nat): seq<HlistNode>
    requires j <= |s|
  {
    Kept(s[..j], doomed) + s[j..]
  }

  lemma PrunedStep(s: seq<HlistNode>, doomed: HlistNode -> bool, j: nat)
    requires j < |s|
    ensures var all, i := Pruned(s, doomed, j), |Kept(s[..j], doomed)|;
      && i < |all| && all[i] == s[j] && NextOf(all, i) == NextOf(s, j)
      && Pruned(s, doomed, j + 1) == if doomed(s[j]) then Without(all, i) else all
  {
    assert s[..j + 1] == s[..j] + [s[j]];
    KeptAppend(s[..j], s[j], doomed);
    assert s[j..] == [s[j]] + s[j + 1..];
    Regroup(Kept(s[..j], doomed), s[j], s[j + 1..]);
  }

  lemma Regroup<T>(a: seq<T>, x: T, b: seq<T>)
    ensures var all := a + ([x] + b); all == a + [x] + b && all[|a|] == x && Without(all, |a|) == a + b
    ensures a + [] + b == a + b
  {
  }

  lemma PrunedMembers(s: seq<HlistNode>, doomed: HlistNode -> bool, j: nat)
    requires j < |s| && Distinct(s)
    ensures forall k | 0 <= k < |Pruned(s, doomed, j)| :: Pruned(s, doomed, j)[k] in s
    ensures forall k | 0 <= k < j && doomed(s[k]) :: s[k] !in Pruned(s, doomed, j)
  {
    var front, all := Kept(s[..j], doomed), Pruned(s, doomed, j);
    forall k | 0 <= k < |all| ensures all[k] in s {
      if k < |front| {
        KeptMembers(s[..j], doomed, front[k]);
      }
    }
    forall k | 0 <= k < j && doomed(s[k]) ensures s[k] !in all {
      KeptMembers(s[..j], doomed, s[k]);
    }
  }

  /** The body of the loop: the next node is read before `pos` may go. */
  method PruneOne(pos: HlistNode, h: HlistHead, doomed: HlistNode -> bool, ghost s: seq<HlistNode>, ghost j: nat)
    returns (n: HlistNode?)
    requires Distinct(s) && j < |s| && pos == s[j] && Chain(h, Pruned(s, doomed, j))
    requires forall k | 0 <= k < j && doomed(s[k]) :: Unhashed(s[k])
    modifies h, s
    ensures Chain(h, Pruned(s, doomed, j + 1)) && n == NextOf(s, j)
    ensures forall k | 0 <= k < j + 1 && doomed(s[k]) :: Unhashed(s[k])
  {
    ghost var all, i := Pruned(s, doomed, j), |Kept(s[..j], doomed)|;
    PrunedStep(s, doomed, j);
    PrunedMembers(s, doomed, j);
    n := pos.next;
    if doomed(pos) {
      DelInit(pos, h, all, i);
    }
  }

  /** hlist_for_each_entry_safe with hlist_del_init of the doomed nodes in its body. */
  method Prune(h: HlistHead, doomed: HlistNode -> bool, ghost s: seq<HlistNode>)
    requires Chain(h, s)
    modifies h, s
    ensures Chain(h, Kept(s, doomed))
    ensures forall k | 0 <= k < |s| && doomed(s[k]) :: Unhashed(s[k])
  {
    var pos := h.first;
    ghost var j := 0;
    assert Pruned(s, doomed, 0) == s;
    while pos != null
      invariant j <= |s| && Chain(h, Pruned(s, doomed, j))
      invariant pos == if j < |s| then s[j] else null
      invariant forall k | 0 <= k < j && doomed(s[k]) :: Unhashed(s[k])
      decreases |s| - j
    {
      pos := PruneOne(pos, h, doomed, s, j);
      j := j + 1;
    }
    assert s[..j] == s && Pruned(s, doomed, j) == Kept(s, doomed);
  }
}
