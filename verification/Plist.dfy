/**
 plist: a list sorted by priority that keeps two interlinked rings. The node ring holds the head
 and all nodes; the prio ring has no head and holds the first node of every priority only. The
 `prio_list` of every other node points to the node itself, and so does that of a single
 representative.
 */
module Plist {
  import opened Sequences
  import opened PlistOrder

  /**
   A plist_node: its priority, which its owner may change while the node is on no list, and its two link
   pairs. A plist_head is one whose prio part is not used.
   */
  class PlistNode {
    var prio: int
    var prioNext: PlistNode
    var prioPrev: PlistNode
    var nodeNext: PlistNode
    var nodePrev: PlistNode

    /** plist_node_init */
    constructor (prio: int)
      ensures this.prio == prio && NodeAlone(this) && PrioAlone(this)
    {
      this.prio := prio;
      prioNext, prioPrev, nodeNext, nodePrev := this, this, this, this;
    }
  }

  /** The nodes of `all` have the priorities that `prio` says. */
  ghost predicate Ranked(prio: Prio<PlistNode>, all: set<PlistNode>)
    reads all`prio
  {
    forall x | x in all :: x.prio == prio(x)
  }

  ghost function Nodes(s: seq<PlistNode>): set<PlistNode> {
    set x | x in s
  }

  /** `r` is circular along the node links. */
  ghost predicate NodeRing(r: seq<PlistNode>)
    reads Nodes(r)`nodeNext, Nodes(r)`nodePrev
  {
    && r != [] && Distinct(r)
    && r[|r| - 1].nodeNext == r[0] && r[0].nodePrev == r[|r| - 1]
    && (forall i {:trigger r[i].nodeNext} | 0 <= i < |r| - 1 :: r[i].nodeNext == r[i + 1])
    && (forall i {:trigger r[i].nodePrev} | 0 < i < |r| :: r[i].nodePrev == r[i - 1])
  }

  /** `r` is circular along the prio links. */
  ghost predicate PrioRing(r: seq<PlistNode>)
    reads Nodes(r)`prioNext, Nodes(r)`prioPrev
  {
    && r != [] && Distinct(r)
    && r[|r| - 1].prioNext == r[0] && r[0].prioPrev == r[|r| - 1]
    && (forall i {:trigger r[i].prioNext} | 0 <= i < |r| - 1 :: r[i].prioNext == r[i + 1])
    && (forall i {:trigger r[i].prioPrev} | 0 < i < |r| :: r[i].prioPrev == r[i - 1])
  }

  ghost predicate NodeAlone(x: PlistNode)
    reads x`nodeNext, x`nodePrev
  {
    x.nodeNext == x && x.nodePrev == x
  }

  ghost predicate PrioAlone(x: PlistNode)
    reads x`prioNext, x`prioPrev
  {
    x.prioNext == x && x.prioPrev == x
  }

  // ----- list.h on the two link pairs

  /** list_add_tail(&entry->node_list, &next->node_list); `next` follows position `g`, cyclically. */
  method NodeAddTail(entry: PlistNode, next: PlistNode, ghost r: seq<PlistNode>, ghost g: nat)
    requires NodeRing(r) && entry !in r && g <= |r| && next == r[if g < |r| then g else 0]
    modifies {entry, next}`nodePrev, {entry, r[if g > 0 then g - 1 else |r| - 1]}`nodeNext
    ensures NodeRing(r[..g] + [entry] + r[g..])
  {
    var prev := next.nodePrev;
    next.nodePrev := entry;
    entry.nodeNext := next;
    entry.nodePrev := prev;
    prev.nodeNext := entry;
  }

  /** list_add_tail(&entry->prio_list, &next->prio_list) */
  method PrioAddTail(entry: PlistNode, next: PlistNode, ghost r: seq<PlistNode>, ghost g: nat)
    requires PrioRing(r) && entry !in r && g <= |r| && next == r[if g < |r| then g else 0]
    modifies {entry, next}`prioPrev, {entry, r[if g > 0 then g - 1 else |r| - 1]}`prioNext
    ensures PrioRing(r[..g] + [entry] + r[g..])
  {
    var prev := next.prioPrev;
    next.prioPrev := entry;
    entry.prioNext := next;
    entry.prioPrev := prev;
    prev.prioNext := entry;
  }

  /** list_add(&entry->prio_list, &prev->prio_list) */
  method PrioAdd(entry: PlistNode, prev: PlistNode, ghost r: seq<PlistNode>, ghost g: nat)
    requires PrioRing(r) && entry !in r && g < |r| && prev == r[g]
    modifies {entry, prev}`prioNext, {entry, r[if g + 1 < |r| then g + 1 else 0]}`prioPrev
    ensures PrioRing(r[..g + 1] + [entry] + r[g + 1..])
  {
    var next := prev.prioNext;
    next.prioPrev := entry;
    entry.prioNext := next;
    entry.prioPrev := prev;
    prev.prioNext := entry;
  }

  /** list_del_init(&entry->prio_list) */
  method PrioDelInit(entry: PlistNode, ghost r: seq<PlistNode>, ghost g: nat)
    requires PrioRing(r) && |r| > 1 && g < |r| && entry == r[g]
    modifies Nodes(r)`prioNext, Nodes(r)`prioPrev
    ensures PrioRing(Without(r, g)) && PrioAlone(entry)
  {
    entry.prioNext.prioPrev := entry.prioPrev;
    entry.prioPrev.prioNext := entry.prioNext;
    entry.prioNext, entry.prioPrev := entry, entry;
  }

  /** list_del_init(&entry->node_list) */
  method NodeDelInit(entry: PlistNode, ghost r: seq<PlistNode>, ghost i: nat)
    requires NodeRing(r) && |r| > 1 && i < |r| && entry == r[i]
    modifies Nodes(r)`nodeNext, Nodes(r)`nodePrev
    ensures NodeRing(Without(r, i)) && NodeAlone(entry)
  {
    entry.nodeNext.nodePrev := entry.nodePrev;
    entry.nodePrev.nodeNext := entry.nodeNext;
    entry.nodeNext, entry.nodePrev := entry, entry;
  }

  // ----- the two-tier invariant

  /** The representatives of the priorities on the list, in order. */
  ghost function RepsOf(prio: Prio<PlistNode>, nodes: seq<PlistNode>): (r: seq<PlistNode>)
    ensures forall i | 0 <= i < |r| :: r[i] in nodes
  {
    RepsWithin(prio, None, nodes);
    Reps(prio, nodes)
  }

  ghost predicate RepsAmong(all: set<PlistNode>, r: seq<PlistNode>) {
    forall i | 0 <= i < |r| :: r[i] in all
  }

  /** The prio ring is `r`, and every other node of `all` is alone. */
  ghost predicate Tier(all: set<PlistNode>, r: seq<PlistNode>)
    requires RepsAmong(all, r)
    reads all`prioNext, all`prioPrev
  {
    && (r != [] ==> PrioRing(r))
    && (forall x | x in all && x !in r :: PrioAlone(x))
  }

  /** The prio ring holds the representatives of `nodes`. */
  ghost predicate PrioTier(prio: Prio<PlistNode>, nodes: seq<PlistNode>)
    reads Nodes(nodes)`prioNext, Nodes(nodes)`prioPrev
  {
    Tier(Nodes(nodes), RepsOf(prio, nodes))
  }

  /** Behind `head` hang `nodes`, sorted, and the prio ring holds their representatives. */
  ghost predicate Holds(prio: Prio<PlistNode>, head: PlistNode, nodes: seq<PlistNode>)
    reads ({head} + Nodes(nodes))`nodeNext, ({head} + Nodes(nodes))`nodePrev
    reads Nodes(nodes)`prioNext, Nodes(nodes)`prioPrev
  {
    && NodeRing([head] + nodes)
    && Ordered(prio, nodes)
    && PrioTier(prio, nodes)
  }

  /** The search of plist_add: it looks at representatives only, in order, at each at most once. */
  method FindPlace(ghost prio: Prio<PlistNode>, node: PlistNode, head: PlistNode, ghost nodes: seq<PlistNode>,
                   ghost r: seq<PlistNode>)
    returns (nodeNext: PlistNode, iter: PlistNode, prev: PlistNode?, ghost g: nat, ghost visited: seq<PlistNode>)
    requires NodeRing([head] + nodes) && nodes != [] && r == RepsOf(prio, nodes) && PrioRing(r)
    requires Ranked(prio, Nodes(nodes) + {node})
    ensures StopsAt(prio, r, prio(node), g)
    ensures visited <= r && g <= |visited|
    ensures iter == r[if g < |r| then g else 0]
    ensures nodeNext == if g < |r| then iter else head
    ensures prev == if g > 0 then r[g - 1] else null
  {
    FirstIsRep(prio, nodes);
    assert ([head] + nodes)[1] == nodes[0];
    var first := head.nodeNext;
    iter, prev, nodeNext := first, null, head;
    g, visited := 0, [];
    while true
      invariant g < |r| && iter == r[g] && first == r[0]
      invariant prev == if g > 0 then r[g - 1] else null
      invariant visited == r[..g] && nodeNext == head
      invariant forall i | 0 <= i < g :: prio(r[i]) <= prio(node)
      decreases |r| - g
    {
      visited := visited + [iter];
      if node.prio < iter.prio {
        nodeNext := iter;
        break;
      }
      prev := iter;
      iter := iter.prioNext;
      g := g + 1;
      if iter == first {
        assert g == |r|;
        break;
      }
    }
  }

  lemma FirstIsRep(prio: Prio<PlistNode>, nodes: seq<PlistNode>)
    requires nodes != []
    ensures RepsOf(prio, nodes) != [] && RepsOf(prio, nodes)[0] == nodes[0]
  {
  }

  /** The first half of plist_add: a node of a new priority joins the prio ring. */
  method LinkPrio(ghost prio: Prio<PlistNode>, node: PlistNode, iter: PlistNode, prev: PlistNode?,
                  ghost all: set<PlistNode>, ghost r: seq<PlistNode>, ghost g: nat, ghost more: seq<PlistNode>)
    requires r != [] && RepsAmong(all, r) && Tier(all, r)
    requires node !in all && PrioAlone(node) && g <= |r|
    requires iter == r[if g < |r| then g else 0]
    requires prev == if g > 0 then r[g - 1] else null
    requires more == if g > 0 && prio(r[g - 1]) == prio(node) then r else r[..g] + [node] + r[g..]
    requires Ranked(prio, all + {node})
    modifies all`prioNext, all`prioPrev, node`prioNext, node`prioPrev
    ensures RepsAmong(all + {node}, more) && Tier(all + {node}, more)
  {
    if prev == null || prev.prio != node.prio {
      LinkNew(node, iter, all, r, g, more);
    }
  }

  method LinkNew(node: PlistNode, iter: PlistNode,
                 ghost all: set<PlistNode>, ghost r: seq<PlistNode>, ghost g: nat, ghost more: seq<PlistNode>)
    requires r != [] && RepsAmong(all, r) && Tier(all, r)
    requires node !in all && g <= |r| && more == r[..g] + [node] + r[g..]
    requires iter == r[if g < |r| then g else 0]
    modifies all`prioNext, all`prioPrev, node`prioNext, node`prioPrev
    ensures RepsAmong(all + {node}, more) && Tier(all + {node}, more)
  {
    PrioAddTail(node, iter, r, g);
    forall x | x in all + {node} && x !in more ensures PrioAlone(x) {
      MoreMembers(r, g, node, x);
      assert old(PrioAlone(x));
    }
  }

  lemma MoreMembers(r: seq<PlistNode>, g: nat, node: PlistNode, x: PlistNode)
    requires g <= |r|
    ensures x in r[..g] + [node] + r[g..] <==> x == node || x in r
  {
    assert r == r[..g] + r[g..];
  }

  /** The search of plist_add and its work on the prio ring, on a list that is not empty. */
  method AddToPrio(ghost prio: Prio<PlistNode>, node: PlistNode, head: PlistNode, ghost nodes: seq<PlistNode>,
                   ghost all: set<PlistNode>, ghost r: seq<PlistNode>, ghost more: seq<PlistNode>)
    returns (nodeNext: PlistNode, ghost visited: seq<PlistNode>)
    requires NodeRing([head] + nodes) && nodes != [] && node !in all && PrioAlone(node)
    requires r == RepsOf(prio, nodes) && RepsAmong(all, r) && Tier(all, r)
    requires more == RepsOf(prio, Inserted(prio, nodes, node))
    requires Ranked(prio, Nodes(nodes) + {node}) && all == Nodes(nodes)
    modifies all`prioNext, all`prioPrev, node`prioNext, node`prioPrev
    ensures RepsAmong(all + {node}, more) && Tier(all + {node}, more)
    ensures var k := Place(prio, nodes, prio(node)); nodeNext == if k < |nodes| then nodes[k] else head
    ensures visited <= r
  {
    var iter, prev;
    ghost var g := 0;
    FirstIsRep(prio, nodes);
    nodeNext, iter, prev, g, visited := FindPlace(prio, node, head, nodes, r);
    PlaceFound(prio, node, nodes, r, g, more);
    LinkPrio(prio, node, iter, prev, all, r, g, more);
  }

  /** What the search among the representatives tells about the list. */
  lemma PlaceFound(prio: Prio<PlistNode>, node: PlistNode, nodes: seq<PlistNode>, r: seq<PlistNode>, g: nat,
                   more: seq<PlistNode>)
    requires r == RepsOf(prio, nodes) && more == RepsOf(prio, Inserted(prio, nodes, node))
    requires StopsAt(prio, r, prio(node), g)
    ensures more == if g > 0 && prio(r[g - 1]) == prio(node) then r else r[..g] + [node] + r[g..]
    ensures var k := Place(prio, nodes, prio(node));
      if g < |r| then k < |nodes| && r[g] == nodes[k] else k == |nodes|
  {
    StopIsPlace(prio, nodes, prio(node), g);
    RepsInserted(prio, nodes, node, g);
  }

  /** list_add_tail(&node->node_list, node_next), which ends plist_add and plist_requeue. */
  method InsertNode(node: PlistNode, nodeNext: PlistNode, head: PlistNode,
                    ghost nodes: seq<PlistNode>, ghost k: nat, ghost more: seq<PlistNode>, ghost r: seq<PlistNode>)
    requires NodeRing([head] + nodes) && node !in nodes && node != head && k <= |nodes|
    requires RepsAmong(Nodes(nodes) + {node}, r) && Tier(Nodes(nodes) + {node}, r)
    requires nodeNext == if k < |nodes| then nodes[k] else head
    requires more == nodes[..k] + [node] + nodes[k..]
    modifies ({head, node} + Nodes(nodes))`nodeNext, ({head, node} + Nodes(nodes))`nodePrev
    ensures NodeRing([head] + more)
    ensures Nodes(more) == Nodes(nodes) + {node} && Tier(Nodes(more), r)
  {
    ghost var q := [head] + nodes;
    NodesMore(nodes, node, k, more);
    assert [head] + more == q[..k + 1] + [node] + q[k + 1..];
    ghost var all := Nodes(nodes) + {node};
    NodeAddTail(node, nodeNext, q, k + 1);
    assert Tier(all, r);
  }

  lemma NodesMore(nodes: seq<PlistNode>, node: PlistNode, k: nat, more: seq<PlistNode>)
    requires k <= |nodes| && more == nodes[..k] + [node] + nodes[k..]
    ensures Nodes(more) == Nodes(nodes) + {node}
  {
    assert nodes == nodes[..k] + nodes[k..];
  }

  /** plist_add up to the label ins_node. */
  method UpToInsNode(ghost prio: Prio<PlistNode>, node: PlistNode, head: PlistNode,
                     ghost nodes: seq<PlistNode>, ghost r: seq<PlistNode>)
    returns (nodeNext: PlistNode, ghost visited: seq<PlistNode>)
    requires NodeRing([head] + nodes) && PrioTier(prio, nodes)
    requires node !in nodes && PrioAlone(node) && Ranked(prio, Nodes(nodes) + {node})
    requires r == RepsOf(prio, Inserted(prio, nodes, node))
    modifies ({node} + Nodes(nodes))`prioNext, ({node} + Nodes(nodes))`prioPrev
    ensures RepsAmong(Nodes(nodes) + {node}, r) && Tier(Nodes(nodes) + {node}, r)
    ensures var k := Place(prio, nodes, prio(node)); nodeNext == if k < |nodes| then nodes[k] else head
    ensures visited <= RepsOf(prio, nodes)
  {
    nodeNext, visited := head, [];
    EmptyHead(head, nodes);
    if head.nodeNext != head {
      nodeNext, visited := AddToPrio(prio, node, head, nodes, Nodes(nodes), RepsOf(prio, nodes), r);
    } else {
      FirstNode(prio, node, nodes);
    }
  }

  /** The end of plist_add: the prio ring is as it should be, and the node joins the node ring. */
  method InsertInOrder(ghost prio: Prio<PlistNode>, node: PlistNode, nodeNext: PlistNode, head: PlistNode,
                       ghost nodes: seq<PlistNode>, ghost r: seq<PlistNode>)
    requires NodeRing([head] + nodes) && Ordered(prio, nodes) && node !in nodes && node != head
    requires r == RepsOf(prio, Inserted(prio, nodes, node))
    requires RepsAmong(Nodes(nodes) + {node}, r) && Tier(Nodes(nodes) + {node}, r)
    requires var k := Place(prio, nodes, prio(node)); nodeNext == if k < |nodes| then nodes[k] else head
    modifies ({head, node} + Nodes(nodes))`nodeNext, ({head, node} + Nodes(nodes))`nodePrev
    ensures Holds(prio, head, Inserted(prio, nodes, node))
  {
    InsertNode(node, nodeNext, head, nodes, Place(prio, nodes, prio(node)), Inserted(prio, nodes, node), r);
    InsertedOrdered(prio, nodes, node);
  }

  /** plist_add: after the last node of the same priority, or of the next smaller one. */
  method Add(ghost prio: Prio<PlistNode>, node: PlistNode, head: PlistNode, ghost nodes: seq<PlistNode>)
    returns (ghost visited: seq<PlistNode>)
    requires Holds(prio, head, nodes) && node !in nodes && node != head
    requires PrioAlone(node) && Ranked(prio, Nodes(nodes) + {node})
    modifies ({head, node} + Nodes(nodes))`nodeNext, ({head, node} + Nodes(nodes))`nodePrev
    modifies ({node} + Nodes(nodes))`prioNext, ({node} + Nodes(nodes))`prioPrev
    ensures Holds(prio, head, Inserted(prio, nodes, node))
    ensures visited <= RepsOf(prio, nodes) && |visited| <= |Prios(prio, nodes)|
  {
    ghost var r := RepsOf(prio, Inserted(prio, nodes, node));
    var nodeNext;
    nodeNext, visited := UpToInsNode(prio, node, head, nodes, r);
    FewVisited(prio, nodes, visited);
    InsertInOrder(prio, node, nodeNext, head, nodes, r);
  }

  lemma FewVisited(prio: Prio<PlistNode>, nodes: seq<PlistNode>, visited: seq<PlistNode>)
    requires Ordered(prio, nodes) && visited <= RepsOf(prio, nodes)
    ensures |visited| <= |Prios(prio, nodes)|
  {
    RepsCount(prio, nodes);
  }

  lemma EmptyHead(head: PlistNode, nodes: seq<PlistNode>)
    requires NodeRing([head] + nodes)
    ensures head.nodeNext == head <==> nodes == []
  {
    assert nodes != [] ==> ([head] + nodes)[1] == nodes[0];
  }

  lemma FirstNode(prio: Prio<PlistNode>, node: PlistNode, nodes: seq<PlistNode>)
    requires PrioAlone(node) && nodes == []
    ensures RepsAmong(Nodes(nodes) + {node}, RepsOf(prio, Inserted(prio, nodes, node)))
    ensures Tier(Nodes(nodes) + {node}, RepsOf(prio, Inserted(prio, nodes, node)))
  {
    assert Inserted(prio, [], node) == [node];
    RepsCons(prio, None, node, []);
    assert [node] + [] == [node] && RepsOf(prio, [node]) == [node];
  }

  /** list_empty(&x->prio_list) says that `x` is no representative, or the only one. */
  lemma EmptyPrio(all: set<PlistNode>, r: seq<PlistNode>, x: PlistNode)
    requires RepsAmong(all, r) && Tier(all, r) && x in all
    ensures x.prioNext == x <==> x !in r || |r| == 1
    ensures x.prioNext == x ==> PrioAlone(x)
  {
    if x in r && |r| > 1 {
      var i :| 0 <= i < |r| && r[i] == x;
      assert i + 1 < |r| ==> r[i].prioNext == r[i + 1];
    }
  }

  /** list_add(&next->prio_list, &node->prio_list) before list_del_init(&node->prio_list) */
  method PassOn(node: PlistNode, next: PlistNode, ghost r: seq<PlistNode>, ghost g: nat)
    requires PrioRing(r) && g < |r| && node == r[g] && next !in r
    modifies (Nodes(r) + {next})`prioNext, (Nodes(r) + {next})`prioPrev
    ensures PrioRing(r[g := next]) && PrioAlone(node)
  {
    PrioAdd(next, node, r, g);
    ghost var q := r[..g + 1] + [next] + r[g + 1..];
    Replaced(r, g, next, q);
    PrioDelInit(node, q, g);
  }

  lemma Replaced(r: seq<PlistNode>, g: nat, next: PlistNode, q: seq<PlistNode>)
    requires g < |r| && q == r[..g + 1] + [next] + r[g + 1..]
    ensures Without(q, g) == r[g := next] && q[g] == r[g]
  {
  }

  /** plist_del's work on the prio ring: the next node of the same priority takes the place of `node`. */
  method UnlinkPrio(node: PlistNode, next: PlistNode, last: bool,
                    ghost all: set<PlistNode>, ghost r: seq<PlistNode>, ghost g: nat, ghost fewer: seq<PlistNode>)
    requires RepsAmong(all, r) && Tier(all, r) && node in all
    requires !last ==> next in all && next != node
    requires node in r ==> g < |r| && r[g] == node
    requires fewer ==
      if node !in r then r else if !last && next !in r then r[g := next] else Without(r, g)
    modifies all`prioNext, all`prioPrev
    ensures RepsAmong(all - {node}, fewer) && Tier(all - {node}, fewer) && PrioAlone(node)
  {
    EmptyPrio(all, r, node);
    if !last {
      EmptyPrio(all, r, next);
    }
    if node.prioNext != node {
      if !last && next.prioNext == next {
        PassOn(node, next, r, g);
      } else {
        PrioDelInit(node, r, g);
      }
    }
  }

  lemma HeldDistinct(prio: Prio<PlistNode>, head: PlistNode, nodes: seq<PlistNode>)
    requires Holds(prio, head, nodes)
    ensures Distinct(nodes) && head !in nodes
  {
    var r := [head] + nodes;
    assert forall j | 0 <= j < |nodes| :: r[j + 1] == nodes[j];
  }

  /** What the representatives are without `node`. */
  lemma FewerReps(prio: Prio<PlistNode>, nodes: seq<PlistNode>, i: nat, node: PlistNode, r: seq<PlistNode>, g: nat,
                  fewer: seq<PlistNode>)
    requires Ordered(prio, nodes) && Distinct(nodes) && i < |nodes| && node == nodes[i]
    requires r == RepsOf(prio, nodes) && g == |Reps(prio, nodes[..i])| && fewer == RepsOf(prio, Without(nodes, i))
    ensures node in r ==> g < |r| && r[g] == node
    ensures fewer ==
        if node !in r then r
        else if i + 1 < |nodes| && nodes[i + 1] !in r then r[g := nodes[i + 1]]
        else Without(r, g)
  {
    RepsWithout(prio, nodes, i);
    RepsAre(prio, nodes, i);
    if i + 1 < |nodes| {
      RepsAre(prio, nodes, i + 1);
    }
  }

  /** What the heap has to say about `node` before it is removed. */
  lemma AboutToRemove(prio: Prio<PlistNode>, head: PlistNode, nodes: seq<PlistNode>, i: nat,
                      node: PlistNode, r: seq<PlistNode>, g: nat, fewer: seq<PlistNode>)
    requires Holds(prio, head, nodes) && i < |nodes| && node == nodes[i]
    requires r == RepsOf(prio, nodes) && g == |Reps(prio, nodes[..i])| && fewer == RepsOf(prio, Without(nodes, i))
    ensures node.nodeNext == if i + 1 < |nodes| then nodes[i + 1] else head
    ensures i + 1 < |nodes| ==> nodes[i + 1] != node && nodes[i + 1] != head
    ensures Distinct(nodes)
    ensures node in r ==> g < |r| && r[g] == node
    ensures fewer ==
        if node !in r then r
        else if i + 1 < |nodes| && nodes[i + 1] !in r then r[g := nodes[i + 1]]
        else Without(r, g)
  {
    HeldDistinct(prio, head, nodes);
    NextNode(head, nodes, i);
    FewerReps(prio, nodes, i, node, r, g, fewer);
  }

  lemma NodesWithout(nodes: seq<PlistNode>, i: nat)
    requires i < |nodes| && Distinct(nodes)
    ensures Nodes(Without(nodes, i)) == Nodes(nodes) - {nodes[i]}
  {
    assert nodes == nodes[..i] + [nodes[i]] + nodes[i + 1..];
  }

  /** list_del_init(&node->node_list), which ends plist_del. */
  method RemoveNode(node: PlistNode, head: PlistNode,
                    ghost nodes: seq<PlistNode>, ghost i: nat, ghost r: seq<PlistNode>)
    requires NodeRing([head] + nodes) && i < |nodes| && node == nodes[i]
    requires RepsAmong(Nodes(nodes) - {node}, r) && Tier(Nodes(nodes) - {node}, r) && PrioAlone(node)
    modifies ({head} + Nodes(nodes))`nodeNext, ({head} + Nodes(nodes))`nodePrev
    ensures NodeRing([head] + Without(nodes, i)) && NodeAlone(node) && PrioAlone(node)
    ensures RepsAmong(Nodes(nodes) - {node}, r) && Tier(Nodes(nodes) - {node}, r)
  {
    ghost var q, rest := [head] + nodes, Nodes(nodes) - {node};
    assert q[i + 1] == nodes[i] && [head] + Without(nodes, i) == Without(q, i + 1);
    NodeDelInit(node, q, i + 1);
    assert Tier(rest, r);
  }

  /** plist_del's work on the prio ring */
  method LeavePrio(ghost prio: Prio<PlistNode>, node: PlistNode, head: PlistNode, ghost nodes: seq<PlistNode>,
                   ghost i: nat,
                   ghost fewer: seq<PlistNode>)
    requires Holds(prio, head, nodes) && i < |nodes| && node == nodes[i] && fewer == RepsOf(prio, Without(nodes, i))
    modifies Nodes(nodes)`prioNext, Nodes(nodes)`prioPrev
    ensures RepsAmong(Nodes(nodes) - {node}, fewer) && Tier(Nodes(nodes) - {node}, fewer) && PrioAlone(node)
  {
    ghost var r, g := RepsOf(prio, nodes), |Reps(prio, nodes[..i])|;
    AboutToRemove(prio, head, nodes, i, node, r, g, fewer);
    UnlinkPrio(node, node.nodeNext, node.nodeNext == head, Nodes(nodes), r, g, fewer);
  }

  lemma HoldsWithout(prio: Prio<PlistNode>, head: PlistNode, nodes: seq<PlistNode>, i: nat, all: set<PlistNode>)
    requires i < |nodes| && NodeRing([head] + Without(nodes, i))
    requires Ordered(prio, nodes) && Distinct(nodes) && all == Nodes(nodes) - {nodes[i]}
    requires RepsAmong(all, RepsOf(prio, Without(nodes, i))) && Tier(all, RepsOf(prio, Without(nodes, i)))
    ensures Holds(prio, head, Without(nodes, i)) && nodes[i] !in Without(nodes, i)
  {
    WithoutOrdered(prio, nodes, i);
    NodesWithout(nodes, i);
    assert nodes[i] !in Nodes(Without(nodes, i));
  }

  /** plist_del */
  method Del(ghost prio: Prio<PlistNode>, node: PlistNode, head: PlistNode, ghost nodes: seq<PlistNode>, ghost i: nat)
    requires Holds(prio, head, nodes) && i < |nodes| && node == nodes[i]
    modifies ({head} + Nodes(nodes))`nodeNext, ({head} + Nodes(nodes))`nodePrev
    modifies Nodes(nodes)`prioNext, Nodes(nodes)`prioPrev
    ensures Holds(prio, head, Without(nodes, i))
    ensures NodeAlone(node) && PrioAlone(node) && node !in Without(nodes, i) && node != head
  {
    ghost var fewer := RepsOf(prio, Without(nodes, i));
    HeldDistinct(prio, head, nodes);
    LeavePrio(prio, node, head, nodes, i, fewer);
    RemoveNode(node, head, nodes, i, fewer);
    HoldsWithout(prio, head, nodes, i, Nodes(nodes) - {node});
  }

  /** plist_next */
  lemma NextNode(head: PlistNode, nodes: seq<PlistNode>, i: nat)
    requires NodeRing([head] + nodes) && i < |nodes|
    ensures nodes[i].nodeNext == if i + 1 < |nodes| then nodes[i + 1] else head
    ensures nodes[i] != head
  {
    var q := [head] + nodes;
    assert q[i + 1] == nodes[i] && (i + 1 < |nodes| ==> q[i + 2] == nodes[i + 1]);
  }

  /** The loop of plist_requeue, which `continue`s over nodes of the same priority. */
  method ScanGroup(node: PlistNode, iter0: PlistNode, head: PlistNode, ghost nodes: seq<PlistNode>, ghost i: nat)
    returns (nodeNext: PlistNode, ghost j: nat)
    requires NodeRing([head] + nodes) && i < |nodes| && iter0 == nodes[i] && iter0.prio == node.prio
    ensures i < j <= |nodes| && nodes[j - 1].prio == node.prio && (j < |nodes| ==> nodes[j].prio != node.prio)
    ensures nodeNext == if j < |nodes| then nodes[j] else head
  {
    nodeNext := head;
    NextNode(head, nodes, i);
    var iter := iter0.nodeNext;
    j := i + 1;
    while iter != head
      invariant i < j <= |nodes| && nodes[j - 1].prio == node.prio
      invariant iter == if j < |nodes| then nodes[j] else head
      invariant nodeNext == head
      decreases |nodes| - j
    {
      if node.prio != iter.prio {
        nodeNext := iter;
        break;
      }
      NextNode(head, nodes, j);
      iter := iter.nodeNext;
      j := j + 1;
    }
    if j < |nodes| {
      NextNode(head, nodes, j);
    }
  }

  /** Where that loop ends: the end of the group that `iter` belongs to. */
  method EndOfGroup(ghost prio: Prio<PlistNode>, node: PlistNode, iter0: PlistNode, head: PlistNode,
                    ghost nodes: seq<PlistNode>, ghost i: nat)
    returns (nodeNext: PlistNode)
    requires NodeRing([head] + nodes) && Ordered(prio, nodes)
    requires i < |nodes| && iter0 == nodes[i] && iter0.prio == node.prio && Ranked(prio, Nodes(nodes) + {node})
    ensures var k := Place(prio, nodes, prio(node));
      && k > 0 && prio(nodes[k - 1]) == prio(node)
      && nodeNext == if k < |nodes| then nodes[k] else head
  {
    ghost var j;
    nodeNext, j := ScanGroup(node, iter0, head, nodes, i);
    GroupEnd(prio, nodes, prio(node), j);
  }

  /** plist_last */
  lemma LastNode(head: PlistNode, nodes: seq<PlistNode>, i: nat)
    requires NodeRing([head] + nodes) && i < |nodes|
    ensures head.nodePrev == nodes[|nodes| - 1]
    ensures nodes[i] == head.nodePrev <==> i == |nodes| - 1
  {
    var q := [head] + nodes;
    assert q[i + 1] == nodes[i] && q[|q| - 1] == nodes[|nodes| - 1];
  }

  /** Putting back a node whose priority still has a representative leaves the prio ring alone. */
  method InsertAgain(ghost prio: Prio<PlistNode>, node: PlistNode, nodeNext: PlistNode, head: PlistNode,
                     ghost nodes: seq<PlistNode>)
    requires Holds(prio, head, nodes) && node !in nodes && node != head && PrioAlone(node)
    requires var k := Place(prio, nodes, prio(node));
      && k > 0 && prio(nodes[k - 1]) == prio(node)
      && nodeNext == if k < |nodes| then nodes[k] else head
    modifies ({head, node} + Nodes(nodes))`nodeNext, ({head, node} + Nodes(nodes))`nodePrev
    modifies ({node} + Nodes(nodes))`prioNext, ({node} + Nodes(nodes))`prioPrev
    ensures Holds(prio, head, Inserted(prio, nodes, node))
  {
    ghost var r, more := RepsOf(prio, nodes), Inserted(prio, nodes, node);
    RepsInsertedAgain(prio, nodes, node);
    InsertNode(node, nodeNext, head, nodes, Place(prio, nodes, prio(node)), more, r);
    InsertedOrdered(prio, nodes, node);
  }

  /** plist_requeue past its early returns: `iter` is the next node, and of the same priority. */
  method MoveBack(ghost prio: Prio<PlistNode>, node: PlistNode, iter: PlistNode, head: PlistNode,
                  ghost nodes: seq<PlistNode>, ghost i: nat)
    requires Holds(prio, head, nodes) && i + 1 < |nodes| && node == nodes[i]
    requires iter == nodes[i + 1] && iter.prio == node.prio && Ranked(prio, Nodes(nodes))
    modifies ({head} + Nodes(nodes))`nodeNext, ({head} + Nodes(nodes))`nodePrev
    modifies Nodes(nodes)`prioNext, Nodes(nodes)`prioPrev
    ensures Holds(prio, head, Inserted(prio, Without(nodes, i), node))
  {
    ghost var fewer := Without(nodes, i);
    HeldDistinct(prio, head, nodes);
    NodesWithout(nodes, i);
    Del(prio, node, head, nodes, i);
    PutBehind(prio, node, iter, head, fewer, i);
  }

  /** The rest of plist_requeue when `node` is off the list: it goes behind the group of `iter`. */
  method PutBehind(ghost prio: Prio<PlistNode>, node: PlistNode, iter: PlistNode, head: PlistNode,
                   ghost nodes: seq<PlistNode>, ghost i: nat)
    requires Holds(prio, head, nodes) && i < |nodes| && iter == nodes[i] && iter.prio == node.prio
    requires node !in nodes && node != head && PrioAlone(node) && Ranked(prio, Nodes(nodes) + {node})
    modifies ({head, node} + Nodes(nodes))`nodeNext, ({head, node} + Nodes(nodes))`nodePrev
    modifies ({node} + Nodes(nodes))`prioNext, ({node} + Nodes(nodes))`prioPrev
    ensures Holds(prio, head, Inserted(prio, nodes, node))
  {
    var nodeNext := EndOfGroup(prio, node, iter, head, nodes, i);
    InsertAgain(prio, node, nodeNext, head, nodes);
  }

  lemma SamePlace(prio: Prio<PlistNode>, nodes: seq<PlistNode>, i: nat)
    requires Ordered(prio, nodes) && i < |nodes|
    requires i + 1 < |nodes| ==> prio(nodes[i + 1]) != prio(nodes[i])
    ensures Inserted(prio, Without(nodes, i), nodes[i]) == nodes
  {
    InsertedBack(prio, nodes, i);
  }

  // ----- the links are a function of the list

  ghost function IndexOf<T>(r: seq<T>, x: T): (i: nat)
    requires x in r
    ensures i < |r| && r[i] == x
  {
    var i :| 0 <= i < |r| && r[i] == x;
    i
  }

  /** The entries after and before `x` on the ring `r`. */
  ghost function Neighbours<T>(r: seq<T>, x: T): (T, T)
    requires x in r
  {
    var i := IndexOf(r, x);
    (r[if i + 1 < |r| then i + 1 else 0], r[if i > 0 then i - 1 else |r| - 1])
  }

  /** Where the node links of `r` point, and where they should. */
  ghost function NodeLinks(r: seq<PlistNode>): map<PlistNode, (PlistNode, PlistNode)>
    reads Nodes(r)`nodeNext, Nodes(r)`nodePrev
  {
    map x | x in r :: (x.nodeNext, x.nodePrev)
  }

  ghost function NodeLayout(r: seq<PlistNode>): map<PlistNode, (PlistNode, PlistNode)> {
    map x | x in r :: Neighbours(r, x)
  }

  /** Where the prio links of `nodes` point, and where they should. */
  ghost function PrioLinks(nodes: seq<PlistNode>): map<PlistNode, (PlistNode, PlistNode)>
    reads Nodes(nodes)`prioNext, Nodes(nodes)`prioPrev
  {
    map x | x in nodes :: (x.prioNext, x.prioPrev)
  }

  ghost function PrioLayout(prio: Prio<PlistNode>, nodes: seq<PlistNode>): map<PlistNode, (PlistNode, PlistNode)> {
    map x | x in nodes :: if x in RepsOf(prio, nodes) then Neighbours(RepsOf(prio, nodes), x) else (x, x)
  }

  ghost predicate LaidOut(prio: Prio<PlistNode>, head: PlistNode, nodes: seq<PlistNode>)
    reads ({head} + Nodes(nodes))`nodeNext, ({head} + Nodes(nodes))`nodePrev
    reads Nodes(nodes)`prioNext, Nodes(nodes)`prioPrev
  {
    && NodeLinks([head] + nodes) == NodeLayout([head] + nodes)
    && PrioLinks(nodes) == PrioLayout(prio, nodes)
  }

  lemma NeighboursAt<T>(r: seq<T>, i: nat)
    requires Distinct(r) && i < |r|
    ensures r[i] in r
    ensures Neighbours(r, r[i]) == (r[if i + 1 < |r| then i + 1 else 0], r[if i > 0 then i - 1 else |r| - 1])
  {
  }

  lemma NodeRingLinks(r: seq<PlistNode>, x: PlistNode)
    requires NodeRing(r) && x in r
    ensures (x.nodeNext, x.nodePrev) == Neighbours(r, x)
  {
    var i := IndexOf(r, x);
  }

  lemma NodeRingFromLinks(r: seq<PlistNode>)
    requires r != [] && Distinct(r)
    requires forall x | x in r :: (x.nodeNext, x.nodePrev) == Neighbours(r, x)
    ensures NodeRing(r)
  {
    NeighboursAt(r, 0);
    NeighboursAt(r, |r| - 1);
    forall i {:trigger r[i].nodeNext} | 0 <= i < |r| - 1 ensures r[i].nodeNext == r[i + 1] {
      NeighboursAt(r, i);
    }
    forall i {:trigger r[i].nodePrev} | 0 < i < |r| ensures r[i].nodePrev == r[i - 1] {
      NeighboursAt(r, i);
    }
  }

  lemma PrioRingLinks(r: seq<PlistNode>, x: PlistNode)
    requires PrioRing(r) && x in r
    ensures (x.prioNext, x.prioPrev) == Neighbours(r, x)
  {
    var i := IndexOf(r, x);
  }

  lemma PrioRingFromLinks(r: seq<PlistNode>)
    requires r != [] && Distinct(r)
    requires forall x | x in r :: (x.prioNext, x.prioPrev) == Neighbours(r, x)
    ensures PrioRing(r)
  {
    NeighboursAt(r, 0);
    NeighboursAt(r, |r| - 1);
    forall i {:trigger r[i].prioNext} | 0 <= i < |r| - 1 ensures r[i].prioNext == r[i + 1] {
      NeighboursAt(r, i);
    }
    forall i {:trigger r[i].prioPrev} | 0 < i < |r| ensures r[i].prioPrev == r[i - 1] {
      NeighboursAt(r, i);
    }
  }

  lemma TierLinks(prio: Prio<PlistNode>, nodes: seq<PlistNode>)
    requires PrioTier(prio, nodes)
    ensures PrioLinks(nodes) == PrioLayout(prio, nodes)
  {
    var r := RepsOf(prio, nodes);
    forall x | x in nodes
      ensures (x.prioNext, x.prioPrev) == if x in r then Neighbours(r, x) else (x, x)
    {
      if x in r {
        PrioRingLinks(r, x);
      } else {
        assert PrioAlone(x);
      }
    }
  }

  lemma TierFromLinks(prio: Prio<PlistNode>, nodes: seq<PlistNode>)
    requires Ordered(prio, nodes) && PrioLinks(nodes) == PrioLayout(prio, nodes)
    ensures PrioTier(prio, nodes)
  {
    var r := RepsOf(prio, nodes);
    forall x | x in nodes
      ensures (x.prioNext, x.prioPrev) == if x in r then Neighbours(r, x) else (x, x)
    {
      assert PrioLinks(nodes)[x] == PrioLayout(prio, nodes)[x];
    }
    RepsCount(prio, nodes);
    if r != [] {
      PrioRingFromLinks(r);
    }
  }

  /** Every link of a plist is determined by its nodes in order, and nothing else makes a plist. */
  lemma LinksFollow(prio: Prio<PlistNode>, head: PlistNode, nodes: seq<PlistNode>)
    requires Distinct([head] + nodes) && Ordered(prio, nodes)
    ensures Holds(prio, head, nodes) <==> LaidOut(prio, head, nodes)
  {
    var all := [head] + nodes;
    if NodeRing(all) {
      forall x | x in all ensures NodeLinks(all)[x] == NodeLayout(all)[x] {
        NodeRingLinks(all, x);
      }
    }
    if NodeLinks(all) == NodeLayout(all) {
      forall x | x in all ensures (x.nodeNext, x.nodePrev) == Neighbours(all, x) {
        assert NodeLinks(all)[x] == NodeLayout(all)[x];
      }
      NodeRingFromLinks(all);
    }
    if PrioTier(prio, nodes) {
      TierLinks(prio, nodes);
    }
    if PrioLinks(nodes) == PrioLayout(prio, nodes) {
      TierFromLinks(prio, nodes);
    }
  }

  /** plist_requeue: `node` goes behind all others of its priority. */
  method Requeue(ghost prio: Prio<PlistNode>, node: PlistNode, head: PlistNode, ghost nodes: seq<PlistNode>,
                 ghost i: nat)
    requires Holds(prio, head, nodes) && i < |nodes| && node == nodes[i] && Ranked(prio, Nodes(nodes))
    modifies ({head} + Nodes(nodes))`nodeNext, ({head} + Nodes(nodes))`nodePrev
    modifies Nodes(nodes)`prioNext, Nodes(nodes)`prioPrev
    ensures Holds(prio, head, Inserted(prio, Without(nodes, i), node))
    ensures LaidOut(prio, head, Inserted(prio, Without(nodes, i), node))
  {
    NextNode(head, nodes, i);
    LastNode(head, nodes, i);
    if node == head.nodePrev {
      SamePlace(prio, nodes, i);
      LinksFollow(prio, head, nodes);
      return;
    }
    var iter := node.nodeNext;
    if node.prio != iter.prio {
      SamePlace(prio, nodes, i);
      LinksFollow(prio, head, nodes);
      return;
    }
    MoveBack(prio, node, iter, head, nodes, i);
    LinksFollow(prio, head, Inserted(prio, Without(nodes, i), node));
  }

  /** plist_requeue leaves every link of the list where plist_del and then plist_add leave it. */
  method RequeueByHand(ghost prio: Prio<PlistNode>, node: PlistNode, head: PlistNode, ghost nodes: seq<PlistNode>,
                       ghost i: nat)
    requires Holds(prio, head, nodes) && i < |nodes| && node == nodes[i] && Ranked(prio, Nodes(nodes))
    modifies ({head} + Nodes(nodes))`nodeNext, ({head} + Nodes(nodes))`nodePrev
    modifies Nodes(nodes)`prioNext, Nodes(nodes)`prioPrev
    ensures Holds(prio, head, Inserted(prio, Without(nodes, i), node))
    ensures LaidOut(prio, head, Inserted(prio, Without(nodes, i), node))
  {
    Del(prio, node, head, nodes, i);
    ghost var visited := Add(prio, node, head, Without(nodes, i));
    LinksFollow(prio, head, Inserted(prio, Without(nodes, i), node));
  }
}
