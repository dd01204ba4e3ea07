/**
 Runs of a plist. Whatever is added, removed and requeued, the list is the stable sort by priority
 of the nodes in the order in which they joined.
 */
module PlistRuns {
  import opened Sequences
  import opened PlistOrder
  import opened Plist
  import S = StableSort

  /** The comparator that list_sort would be given. */
  ghost function ByPrio<T>(prio: Prio<T>): (T, T) -> int {
    (a, b) => prio(a) - prio(b)
  }

  lemma PrioIsWeakOrder<T>(prio: Prio<T>, s: seq<T>)
    ensures S.WeakOrder(ByPrio(prio), s)
    ensures S.Sorted(ByPrio(prio), s) <==> Ordered(prio, s)
  {
    assert forall i, j | 0 <= i < |s| && 0 <= j < |s| :: ByPrio(prio)(s[i], s[j]) == prio(s[i]) - prio(s[j]);
  }

  lemma InsertedLater<T>(prio: Prio<T>, s: seq<T>, x: T)
    requires s != [] && prio(s[0]) <= prio(x)
    ensures Inserted(prio, s, x) == [s[0]] + Inserted(prio, s[1..], x)
  {
    var k := Place(prio, s[1..], prio(x));
    assert s[..k + 1] == [s[0]] + s[1..][..k] && s[k + 1..] == s[1..][k..];
  }

  lemma {:induction false} MergeOne<T>(prio: Prio<T>, s: seq<T>, x: T)
    ensures S.Merge(ByPrio(prio), s, [x]) == Inserted(prio, s, x)
  {
    if s == [] {
    } else if prio(s[0]) <= prio(x) {
      MergeOne(prio, s[1..], x);
      InsertedLater(prio, s, x);
    } else {
      assert S.Merge(ByPrio(prio), s, [x][1..]) == s;
    }
  }

  /** The newest node goes where plist_add puts it. */
  lemma SortAppend<T>(prio: Prio<T>, q: seq<T>, x: T)
    ensures S.Sort(ByPrio(prio), q + [x]) == Inserted(prio, S.Sort(ByPrio(prio), q), x)
  {
    PrioIsWeakOrder(prio, q + [x]);
    S.MergeOfSorts(ByPrio(prio), q + [x], q, [x]);
    assert S.Sort(ByPrio(prio), [x]) == [x] by {
      assert [x][1..] == [];
    }
    MergeOne(prio, S.Sort(ByPrio(prio), q), x);
  }

  /** `s` without the first `x`. */
  ghost function Removed<T>(s: seq<T>, x: T): seq<T> {
    if s == [] then [] else if s[0] == x then s[1..] else [s[0]] + Removed(s[1..], x)
  }

  lemma {:induction false} RemovedAt<T>(s: seq<T>, i: nat)
    requires Distinct(s) && i < |s|
    ensures Removed(s, s[i]) == Without(s, i)
  {
    if i > 0 {
      RemovedAt(s[1..], i - 1);
      WithoutLater(s, i);
    }
  }

  lemma {:induction false} InsertThenRemove<T>(prio: Prio<T>, y: T, s: seq<T>, x: T)
    requires Ordered(prio, s) && (x == y ==> x !in s)
    ensures Removed(S.Insert(ByPrio(prio), y, s), x) ==
      if x == y then s else S.Insert(ByPrio(prio), y, Removed(s, x))
  {
    if s != [] && prio(y) > prio(s[0]) {
      InsertThenRemove(prio, y, s[1..], x);
    }
  }

  /** Taking a node away does not disturb the order of the others. */
  lemma {:induction false} SortRemoved<T>(prio: Prio<T>, q: seq<T>, x: T)
    requires Distinct(q)
    ensures S.Sort(ByPrio(prio), Removed(q, x)) == Removed(S.Sort(ByPrio(prio), q), x)
  {
    if q != [] {
      var rest := q[1..];
      SortRemoved(prio, rest, x);
      SortedByPrio(prio, rest);
      InsertThenRemove(prio, q[0], S.Sort(ByPrio(prio), rest), x);
    }
  }

  lemma SortedByPrio<T>(prio: Prio<T>, q: seq<T>)
    ensures Ordered(prio, S.Sort(ByPrio(prio), q))
    ensures S.Within(S.Sort(ByPrio(prio), q), q) && S.Within(q, S.Sort(ByPrio(prio), q))
  {
    PrioIsWeakOrder(prio, q);
    S.SortIsStableSort(ByPrio(prio), q);
    S.SortElements(ByPrio(prio), q);
    PrioIsWeakOrder(prio, S.Sort(ByPrio(prio), q));
  }

  // ----- the priorities of other nodes do not matter

  ghost predicate SamePrios<T>(prio: Prio<T>, prio': Prio<T>, s: seq<T>) {
    forall x | x in s :: prio(x) == prio'(x)
  }

  lemma {:induction false} InsertSame<T>(prio: Prio<T>, prio': Prio<T>, x: T, s: seq<T>)
    requires prio(x) == prio'(x) && SamePrios(prio, prio', s)
    ensures S.Insert(ByPrio(prio), x, s) == S.Insert(ByPrio(prio'), x, s)
  {
    if s != [] && prio(x) > prio(s[0]) {
      InsertSame(prio, prio', x, s[1..]);
    }
  }

  lemma {:induction false} SortSame<T>(prio: Prio<T>, prio': Prio<T>, q: seq<T>)
    requires SamePrios(prio, prio', q)
    ensures S.Sort(ByPrio(prio), q) == S.Sort(ByPrio(prio'), q)
  {
    if q != [] {
      SortSame(prio, prio', q[1..]);
      SortedByPrio(prio, q[1..]);
      InsertSame(prio, prio', q[0], S.Sort(ByPrio(prio), q[1..]));
    }
  }

  lemma {:induction false} RepsAfterSame<T>(prio: Prio<T>, prio': Prio<T>, last: Option<int>, s: seq<T>)
    requires SamePrios(prio, prio', s)
    ensures RepsAfter(prio, last, s) == RepsAfter(prio', last, s)
    decreases |s|
  {
    if s != [] {
      RepsAfterSame(prio, prio', Some(prio(s[0])), s[1..]);
    }
  }

  lemma HoldsSame(prio: Prio<PlistNode>, prio': Prio<PlistNode>, head: PlistNode, nodes: seq<PlistNode>)
    requires Holds(prio, head, nodes) && SamePrios(prio, prio', nodes)
    ensures Holds(prio', head, nodes)
  {
    RepsAfterSame(prio, prio', None, nodes);
    assert RepsOf(prio, nodes) == RepsOf(prio', nodes);
  }

  // ----- runs

  /** A node is given its priority before it is added. */
  datatype Op = AddOp(node: PlistNode, p: int) | DelOp(node: PlistNode) | RequeueOp(node: PlistNode)

  /** The nodes on the list, in the order in which they joined or were last requeued. */
  ghost function Joined(q: seq<PlistNode>, op: Op): seq<PlistNode> {
    match op
    case AddOp(x, p) => q + [x]
    case DelOp(x) => Removed(q, x)
    case RequeueOp(x) => Removed(q, x) + [x]
  }

  ghost function JoinedAfter(ops: seq<Op>): seq<PlistNode> {
    if ops == [] then [] else Joined(JoinedAfter(ops[..|ops| - 1]), ops[|ops| - 1])
  }

  /** The priorities that the nodes were last given. */
  ghost function Given(prio: Prio<PlistNode>, op: Op): Prio<PlistNode> {
    if op.AddOp? then (x: PlistNode) => if x == op.node then op.p else prio(x) else prio
  }

  ghost function GivenAfter(ops: seq<Op>): Prio<PlistNode> {
    if ops == [] then (x: PlistNode) => 0 else Given(GivenAfter(ops[..|ops| - 1]), ops[|ops| - 1])
  }

  /** A node is added only when it is off the list, and removed or requeued only when it is on. */
  ghost predicate Allowed(all: set<PlistNode>, q: seq<PlistNode>, op: Op) {
    op.node in all && (op.AddOp? <==> op.node !in q)
  }

  ghost predicate AllowedRun(all: set<PlistNode>, ops: seq<Op>) {
    forall k | 0 <= k < |ops| :: Allowed(all, JoinedAfter(ops[..k]), ops[k])
  }

  /** The stable sort by priority. */
  ghost function Queue(prio: Prio<PlistNode>, q: seq<PlistNode>): (s: seq<PlistNode>)
    ensures S.Within(s, q) && S.Within(q, s)
  {
    SortedByPrio(prio, q);
    S.Sort(ByPrio(prio), q)
  }

  /** The nodes of `off` are on no list. */
  ghost predicate Idle(off: set<PlistNode>)
    reads off`nodeNext, off`nodePrev, off`prioNext, off`prioPrev
  {
    forall x | x in off :: NodeAlone(x) && PrioAlone(x)
  }

  /**
   The list holds the nodes of `q`, sorted stably by the priorities that they have; the links of the nodes
   off the list are self-loops.
   */
  ghost predicate Keeps(prio: Prio<PlistNode>, head: PlistNode, all: set<PlistNode>, q: seq<PlistNode>)
    reads head, all
  {
    && head !in all && Distinct(q) && Nodes(q) <= all && Ranked(prio, Nodes(q))
    && Holds(prio, head, Queue(prio, q)) && Idle(all - Nodes(q))
  }

  lemma RemovedKeeps<T>(s: seq<T>, i: nat, y: T)
    requires i < |s| && y != s[i]
    ensures y in Without(s, i) <==> y in s
  {
    assert s == s[..i] + ([s[i]] + s[i + 1..]);
  }

  lemma RemovedMembers<T>(s: seq<T>, x: T)
    requires Distinct(s) && x in s
    ensures forall y | y in s && y != x :: y in Removed(s, x)
    ensures forall y | y in Removed(s, x) :: y in s && y != x
    ensures Distinct(Removed(s, x))
  {
    var i :| 0 <= i < |s| && s[i] == x;
    RemovedAt(s, i);
    WithoutAt(s, i);
    forall y | y in s && y != x ensures y in Removed(s, x) {
      RemovedKeeps(s, i, y);
    }
    forall y | y in Removed(s, x) ensures y in s && y != x {
      RemovedKeeps(s, i, y);
    }
  }

  lemma QueueNodes(prio: Prio<PlistNode>, q: seq<PlistNode>)
    ensures Nodes(Queue(prio, q)) == Nodes(q)
  {
  }

  method AddBeside(ghost prio: Prio<PlistNode>, node: PlistNode, head: PlistNode,
                   ghost nodes: seq<PlistNode>, ghost off: set<PlistNode>)
    requires Holds(prio, head, nodes) && node !in nodes && node != head
    requires PrioAlone(node) && Ranked(prio, Nodes(nodes) + {node})
    requires Idle(off) && off !! {head, node} + Nodes(nodes)
    modifies ({head, node} + Nodes(nodes))`nodeNext, ({head, node} + Nodes(nodes))`nodePrev
    modifies ({node} + Nodes(nodes))`prioNext, ({node} + Nodes(nodes))`prioPrev
    ensures Holds(prio, head, Inserted(prio, nodes, node)) && Idle(off)
  {
    ghost var visited := Add(prio, node, head, nodes);
  }

  method DelBeside(ghost prio: Prio<PlistNode>, node: PlistNode, head: PlistNode,
                   ghost nodes: seq<PlistNode>, ghost i: nat, ghost off: set<PlistNode>)
    requires Holds(prio, head, nodes) && i < |nodes| && node == nodes[i]
    requires Idle(off) && off !! {head} + Nodes(nodes)
    modifies ({head} + Nodes(nodes))`nodeNext, ({head} + Nodes(nodes))`nodePrev
    modifies Nodes(nodes)`prioNext, Nodes(nodes)`prioPrev
    ensures Holds(prio, head, Without(nodes, i)) && Idle(off + {node})
  {
    Del(prio, node, head, nodes, i);
  }

  method RequeueBeside(ghost prio: Prio<PlistNode>, node: PlistNode, head: PlistNode,
                       ghost nodes: seq<PlistNode>, ghost i: nat, ghost off: set<PlistNode>)
    requires Holds(prio, head, nodes) && i < |nodes| && node == nodes[i] && Ranked(prio, Nodes(nodes))
    requires Idle(off) && off !! {head} + Nodes(nodes)
    modifies ({head} + Nodes(nodes))`nodeNext, ({head} + Nodes(nodes))`nodePrev
    modifies Nodes(nodes)`prioNext, Nodes(nodes)`prioPrev
    ensures Holds(prio, head, Inserted(prio, Without(nodes, i), node)) && Idle(off)
  {
    Requeue(prio, node, head, nodes, i);
  }

  /** A node off the list may be given a new priority. */
  method Give(node: PlistNode, p: int, head: PlistNode, ghost all: set<PlistNode>, ghost q: seq<PlistNode>,
              ghost prio: Prio<PlistNode>)
    requires Keeps(prio, head, all, q) && node in all && node !in q
    modifies node`prio
    ensures node.prio == p && Keeps(Given(prio, AddOp(node, p)), head, all, q)
  {
    node.prio := p;
    ghost var prio' := Given(prio, AddOp(node, p));
    SortSame(prio, prio', q);
    HoldsSame(prio, prio', head, Queue(prio, q));
  }

  method StepAdd(node: PlistNode, head: PlistNode, ghost all: set<PlistNode>, ghost q: seq<PlistNode>,
                 ghost prio: Prio<PlistNode>)
    requires Keeps(prio, head, all, q) && node in all && node !in q && node.prio == prio(node)
    modifies {head} + all
    ensures Keeps(prio, head, all, q + [node])
  {
    SortAppend(prio, q, node);
    QueueNodes(prio, q);
    JoinedNodes(q, node);
    AddBeside(prio, node, head, Queue(prio, q), all - Nodes(q) - {node});
    assert all - Nodes(q + [node]) == all - Nodes(q) - {node};
  }

  lemma JoinedNodes(q: seq<PlistNode>, x: PlistNode)
    requires Distinct(q) && x !in q
    ensures Distinct(q + [x]) && Nodes(q + [x]) == Nodes(q) + {x}
  {
    assert (q + [x])[|q|] == x;
  }

  /** Where `node` is on the list, and what the list is without it and with it requeued. */
  lemma Queued(prio: Prio<PlistNode>, head: PlistNode, q: seq<PlistNode>, node: PlistNode) returns (i: nat)
    requires Holds(prio, head, Queue(prio, q)) && Distinct(q) && node in q
    ensures i < |Queue(prio, q)| && Queue(prio, q)[i] == node
    ensures Queue(prio, Removed(q, node)) == Without(Queue(prio, q), i)
    ensures Queue(prio, Removed(q, node) + [node]) == Inserted(prio, Without(Queue(prio, q), i), node)
  {
    HeldDistinct(prio, head, Queue(prio, q));
    i :| 0 <= i < |Queue(prio, q)| && Queue(prio, q)[i] == node;
    SortRemoved(prio, q, node);
    RemovedAt(Queue(prio, q), i);
    SortAppend(prio, Removed(q, node), node);
  }

  method StepDel(node: PlistNode, head: PlistNode, ghost all: set<PlistNode>, ghost q: seq<PlistNode>,
                 ghost prio: Prio<PlistNode>)
    requires Keeps(prio, head, all, q) && node in q
    modifies {head} + all
    ensures Keeps(prio, head, all, Removed(q, node))
  {
    ghost var i := Queued(prio, head, q, node);
    QueueNodes(prio, q);
    RemovedNodes(q, node);
    DelBeside(prio, node, head, Queue(prio, q), i, all - Nodes(q));
    assert all - Nodes(Removed(q, node)) == all - Nodes(q) + {node};
  }

  lemma RemovedNodes(q: seq<PlistNode>, x: PlistNode)
    requires Distinct(q) && x in q
    ensures Distinct(Removed(q, x)) && x !in Removed(q, x) && Nodes(Removed(q, x)) == Nodes(q) - {x}
  {
    RemovedMembers(q, x);
  }

  method StepRequeue(node: PlistNode, head: PlistNode, ghost all: set<PlistNode>, ghost q: seq<PlistNode>,
                     ghost prio: Prio<PlistNode>)
    requires Keeps(prio, head, all, q) && node in q
    modifies {head} + all
    ensures Keeps(prio, head, all, Removed(q, node) + [node])
  {
    ghost var i := Queued(prio, head, q, node);
    QueueNodes(prio, q);
    RemovedNodes(q, node);
    JoinedNodes(Removed(q, node), node);
    RequeueBeside(prio, node, head, Queue(prio, q), i, all - Nodes(q));
    assert Nodes(Removed(q, node) + [node]) == Nodes(q);
  }

  method Step(op: Op, head: PlistNode, ghost all: set<PlistNode>, ghost q: seq<PlistNode>,
              ghost prio: Prio<PlistNode>)
    requires Keeps(prio, head, all, q) && Allowed(all, q, op)
    modifies {head} + all
    ensures Keeps(Given(prio, op), head, all, Joined(q, op))
  {
    match op {
      case AddOp(x, p) =>
        Give(x, p, head, all, q, prio);
        StepAdd(x, head, all, q, Given(prio, op));
      case DelOp(x) => StepDel(x, head, all, q, prio);
      case RequeueOp(x) => StepRequeue(x, head, all, q, prio);
    }
  }

  /**
   Any run from an empty head leaves the stable sort of the nodes that joined, by the priorities that they
   were given when they did.
   */
  method Run(ops: seq<Op>, head: PlistNode, ghost all: set<PlistNode>)
    requires NodeAlone(head) && head !in all && (forall x | x in all :: NodeAlone(x) && PrioAlone(x))
    requires AllowedRun(all, ops)
    modifies {head} + all
    ensures Keeps(GivenAfter(ops), head, all, JoinedAfter(ops))
  {
    assert ops[..0] == [];
    EmptyHolds(GivenAfter([]), head);
    for k := 0 to |ops|
      invariant Keeps(GivenAfter(ops[..k]), head, all, JoinedAfter(ops[..k]))
    {
      assert ops[..k + 1][..k] == ops[..k];
      Step(ops[k], head, all, JoinedAfter(ops[..k]), GivenAfter(ops[..k]));
    }
    assert ops[..|ops|] == ops;
  }

  lemma EmptyHolds(prio: Prio<PlistNode>, head: PlistNode)
    requires NodeAlone(head)
    ensures Queue(prio, []) == [] && Holds(prio, head, [])
  {
    assert [head] + [] == [head];
  }
}
