/** The hash table of hashtable.h: an array of hlists, with any hash function into its buckets. */
module HashTable {
  import opened Sequences
  import opened Hlist

  ghost function AllOf(chains: seq<seq<HlistNode>>): set<HlistNode> {
    set b, i | 0 <= b < |chains| && 0 <= i < |chains[b]| :: chains[b][i]
  }

  /** Every head has its chain behind it. */
  ghost predicate Buckets(heads: seq<HlistHead>, chains: seq<seq<HlistNode>>)
    reads heads`first, AllOf(chains)`next, AllOf(chains)`pprev
  {
    && Distinct(heads) && |chains| == |heads|
    && forall b | 0 <= b < |heads| :: Chain(heads[b], chains[b])
  }

  /** No other bucket has a node of bucket `b`. */
  ghost predicate Alone(chains: seq<seq<HlistNode>>, b: nat)
    requires b < |chains|
  {
    forall c, i | 0 <= c < |chains| && c != b && 0 <= i < |chains[c]| :: chains[c][i] !in chains[b]
  }

  method AddAt(node: HlistNode, heads: seq<HlistHead>, b: nat, ghost chains: seq<seq<HlistNode>>)
    requires Buckets(heads, chains) && b < |heads| && Alone(chains, b)
    requires forall c | 0 <= c < |chains| :: node !in chains[c]
    modifies heads[b], node, chains[b]
    ensures Buckets(heads, chains[b := [node] + chains[b]])
  {
    AddHead(node, heads[b], chains[b]);
    assert forall c | 0 <= c < |heads| && c != b :: Chain(heads[c], chains[c]);
  }

  /** What is left when `node`, if it is hashed, leaves its place in bucket `b`. */
  ghost predicate Leaves(node: HlistNode, chains: seq<seq<HlistNode>>, b: nat, i: nat, less: seq<seq<HlistNode>>)
    reads node
  {
    && b < |chains| && (Unhashed(node) || (i < |chains[b]| && chains[b][i] == node))
    && less == if Unhashed(node) then chains else chains[b := Without(chains[b], i)]
  }

  method DelAt(node: HlistNode, ghost heads: seq<HlistHead>, ghost chains: seq<seq<HlistNode>>,
               ghost b: nat, ghost i: nat, ghost less: seq<seq<HlistNode>>)
    requires Buckets(heads, chains) && Leaves(node, chains, b, i, less) && Alone(chains, b)
    modifies heads[b], chains[b]
    ensures Unhashed(node) && Buckets(heads, less)
  {
    DelInit(node, heads[b], if Unhashed(node) then [] else chains[b], i);
    assert forall c | 0 <= c < |heads| && c != b :: Chain(heads[c], chains[c]);
  }

  /** The doomed nodes leave bucket `b`; the nodes that are gone already are not touched. */
  method PruneAt(heads: seq<HlistHead>, b: nat, doomed: HlistNode -> bool,
                 ghost chains: seq<seq<HlistNode>>, ghost gone: set<HlistNode>)
    requires Buckets(heads, chains) && b < |heads| && Alone(chains, b) && forall n | n in gone :: Unhashed(n)
    modifies heads[b], chains[b]
    ensures Buckets(heads, chains[b := Kept(chains[b], doomed)])
    ensures forall n | n in gone || (n in chains[b] && doomed(n)) :: Unhashed(n)
  {
    assert forall n | n in gone :: n !in chains[b];
    Hlist.Prune(heads[b], doomed, chains[b]);
    assert forall c | 0 <= c < |heads| && c != b :: Chain(heads[c], chains[c]);
  }

  /** Every node is in the bucket of the key it was added under, once, and in no other. */
  ghost predicate Placed<Key>(hash: Key -> nat, chains: seq<seq<HlistNode>>, keys: map<HlistNode, Key>) {
    && (forall b | 0 <= b < |chains| :: Distinct(chains[b]))
    && (forall b, i | 0 <= b < |chains| && 0 <= i < |chains[b]| ::
          chains[b][i] in keys && hash(keys[chains[b][i]]) == b)
    && (forall n | n in keys :: hash(keys[n]) < |chains| && n in chains[hash(keys[n])])
  }

  lemma PlacedAdd<Key>(hash: Key -> nat, chains: seq<seq<HlistNode>>, keys: map<HlistNode, Key>, n: HlistNode, key: Key)
    requires Placed(hash, chains, keys) && n !in keys && hash(key) < |chains|
    ensures Placed(hash, chains[hash(key) := [n] + chains[hash(key)]], keys[n := key])
  {
    var b := hash(key);
    var more := chains[b := [n] + chains[b]];
    forall c, i | 0 <= c < |more| && 0 <= i < |more[c]|
      ensures more[c][i] in keys[n := key] && hash(keys[n := key][more[c][i]]) == c
    {
      assert c == b && i > 0 ==> more[c][i] == chains[b][i - 1];
    }
  }

  lemma PlacedDel<Key>(hash: Key -> nat, chains: seq<seq<HlistNode>>, keys: map<HlistNode, Key>, b: nat, i: nat)
    requires Placed(hash, chains, keys) && b < |chains| && i < |chains[b]|
    ensures Placed(hash, chains[b := Without(chains[b], i)], keys - {chains[b][i]})
  {
    var n, less := chains[b][i], Without(chains[b], i);
    WithoutAt(chains[b], i);
    forall m | m in keys && m != n && hash(keys[m]) == b ensures m in less {
      var k :| 0 <= k < |chains[b]| && chains[b][k] == m;
      assert less[if k < i then k else k - 1] == m;
    }
  }

  ghost function Doomed(s: seq<HlistNode>, doomed: HlistNode -> bool): set<HlistNode> {
    set n | n in s && doomed(n)
  }

  lemma PlacedPrune<Key>(hash: Key -> nat, chains: seq<seq<HlistNode>>, keys: map<HlistNode, Key>,
                         doomed: HlistNode -> bool, b: nat)
    requires Placed(hash, chains, keys) && b < |chains|
    ensures Placed(hash, chains[b := Kept(chains[b], doomed)], keys - Doomed(chains[b], doomed))
  {
    var kept, left := Kept(chains[b], doomed), keys - Doomed(chains[b], doomed);
    KeptDistinct(chains[b], doomed);
    forall i | 0 <= i < |kept| ensures kept[i] in left && hash(left[kept[i]]) == b {
      KeptMembers(chains[b], doomed, kept[i]);
    }
    forall n | n in left && hash(left[n]) == b ensures n in kept {
      KeptMembers(chains[b], doomed, n);
    }
  }

  /** `gone` are the doomed nodes of the first `b` buckets of a table that held `was`; `keys` are the others. */
  ghost predicate Gone<Key>(hash: Key -> nat, was: map<HlistNode, Key>, keys: map<HlistNode, Key>,
                            doomed: HlistNode -> bool, gone: set<HlistNode>, b: nat) {
    && keys == was - gone
    && (forall n | n in gone :: n in was && doomed(n))
    && (forall n | n in was && doomed(n) && hash(was[n]) < b :: n in gone)
  }

  lemma GoneNext<Key>(hash: Key -> nat, was: map<HlistNode, Key>, chains: seq<seq<HlistNode>>,
                      keys: map<HlistNode, Key>, doomed: HlistNode -> bool, gone: set<HlistNode>, b: nat)
    requires Placed(hash, chains, keys) && b < |chains| && Gone(hash, was, keys, doomed, gone, b)
    ensures Gone(hash, was, keys - Doomed(chains[b], doomed), doomed, gone + Doomed(chains[b], doomed), b + 1)
  {
    forall n | n in was && doomed(n) && hash(was[n]) == b && n !in gone ensures n in Doomed(chains[b], doomed) {
      assert n in keys;
    }
  }

  lemma GoneAll<Key>(hash: Key -> nat, was: map<HlistNode, Key>, keys: map<HlistNode, Key>,
                     doomed: HlistNode -> bool, gone: set<HlistNode>, b: nat)
    requires Gone(hash, was, keys, doomed, gone, b) && forall n | n in was :: hash(was[n]) < b
    ensures keys == map n | n in was && !doomed(n) :: was[n]
    ensures forall n | n in was && doomed(n) :: n in gone
  {
  }

  lemma PlacedAlone<Key>(hash: Key -> nat, chains: seq<seq<HlistNode>>, keys: map<HlistNode, Key>, b: nat)
    requires Placed(hash, chains, keys) && b < |chains|
    ensures Alone(chains, b)
  {
  }

  /** The nodes of the first `k` buckets are the live nodes that hash below `k`, each once. */
  lemma {:induction false} ConcatLive<Key>(hash: Key -> nat, chains: seq<seq<HlistNode>>, keys: map<HlistNode, Key>,
                                           k: nat)
    requires Placed(hash, chains, keys) && k <= |chains|
    ensures Distinct(Concat(chains[..k]))
    ensures forall n | n in keys && hash(keys[n]) < k :: n in Concat(chains[..k])
    ensures forall i | 0 <= i < |Concat(chains[..k])| ::
              Concat(chains[..k])[i] in keys && hash(keys[Concat(chains[..k])[i]]) < k
  {
    if k > 0 {
      ConcatLive(hash, chains, keys, k - 1);
      ConcatNext(chains, k - 1);
    }
  }

  /** A scan of the whole table visits live nodes only, none twice, and all of them if it is not left early. */
  lemma ScanOfAll<Key>(hash: Key -> nat, chains: seq<seq<HlistNode>>, keys: map<HlistNode, Key>,
                       stop: HlistNode -> bool, obj: HlistNode?, visited: seq<HlistNode>)
    requires Placed(hash, chains, keys) && Scanned(Concat(chains), stop, obj, visited)
    ensures Distinct(visited) && forall i | 0 <= i < |visited| :: visited[i] in keys
    ensures obj == null ==> forall n | n in keys :: n in visited
  {
    ConcatLive(hash, chains, keys, |chains|);
    assert chains[..|chains|] == chains;
  }

  lemma ScanNext(chains: seq<seq<HlistNode>>, k: nat, stop: HlistNode -> bool,
                 before: seq<HlistNode>, obj: HlistNode?, some: seq<HlistNode>)
    requires k < |chains| && Scanned(Concat(chains[..k]), stop, null, before) && Scanned(chains[k], stop, obj, some)
    ensures Scanned(Concat(chains[..k + 1]), stop, obj, before + some)
  {
    ConcatNext(chains, k);
    ScannedMore(before, chains[k], stop, obj, some);
  }

  lemma ScanLeft(chains: seq<seq<HlistNode>>, k: nat, stop: HlistNode -> bool, obj: HlistNode?, visited: seq<HlistNode>)
    requires k <= |chains| && Scanned(Concat(chains[..k]), stop, obj, visited)
    requires obj != null || k == |chains|
    ensures Scanned(Concat(chains), stop, obj, visited)
  {
    ConcatPrefix(chains, k);
    assert k == |chains| ==> chains[..k] == chains;
  }

  class HashTable<Key(!new)> {
    const heads: seq<HlistHead>
    const hash: Key -> nat
    /** The nodes in every bucket, and the key each was added under. */
    ghost var chains: seq<seq<HlistNode>>
    ghost var keys: map<HlistNode, Key>

    ghost predicate Sized() {
      heads != [] && forall k :: hash(k) < |heads|
    }

    ghost predicate Valid()
      reads this, heads, keys.Keys
    {
      Sized() && Placed(hash, chains, keys) && Buckets(heads, chains)
    }

    /** hash_init */
    constructor (heads: seq<HlistHead>, hash: Key -> nat)
      requires Distinct(heads) && heads != [] && forall k :: hash(k) < |heads|
      modifies heads
      ensures Valid() && keys == map[]
      ensures this.heads == heads && this.hash == hash
    {
      this.heads, this.hash := heads, hash;
      chains, keys := seq(|heads|, _ => []), map[];
      new;
      for i := 0 to |heads|
        invariant Sized() && keys == map[] && chains == seq(|heads|, _ => [])
        invariant forall b | 0 <= b < i :: Chain(heads[b], chains[b])
      {
        InitHead(heads[i]);
      }
    }

    /** hash_add */
    method Add(node: HlistNode, key: Key)
      requires Valid() && node !in keys
      modifies this`chains, this`keys, heads, keys.Keys, node
      ensures Valid()
      ensures keys == old(keys)[node := key]
      ensures chains == old(chains)[hash(key) := [node] + old(chains)[hash(key)]]
    {
      var b := hash(key);
      PlacedAdd(hash, chains, keys, node, key);
      PlacedAlone(hash, chains, keys, b);
      AddAt(node, heads, b, chains);
      chains := chains[b := [node] + chains[b]];
      keys := keys[node := key];
    }

    /** Where a live node is, and the chains without it; nothing is to be done for another node. */
    lemma Place(node: HlistNode) returns (b: nat, i: nat, less: seq<seq<HlistNode>>)
      requires Valid() && (node in keys || Unhashed(node))
      ensures b < |heads| && Alone(chains, b) && Leaves(node, chains, b, i, less)
      ensures Placed(hash, less, keys - {node})
      ensures forall c | 0 <= c < |heads| && (node !in keys || c != hash(keys[node])) :: less[c] == chains[c]
    {
      b, i, less := 0, 0, chains;
      if node in keys {
        b := hash(keys[node]);
        i :| 0 <= i < |chains[b]| && chains[b][i] == node;
        less := chains[b := Without(chains[b], i)];
        assert Chain(heads[b], chains[b]);
        PlacedDel(hash, chains, keys, b, i);
      } else {
        assert keys - {node} == keys;
      }
      PlacedAlone(hash, chains, keys, b);
    }

    /** hlist_del_init on a node of the table, or on one that is on no list. */
    method DelBucket(node: HlistNode, ghost b: nat, ghost i: nat, ghost less: seq<seq<HlistNode>>)
      requires Buckets(heads, chains) && Leaves(node, chains, b, i, less) && Alone(chains, b)
      requires Sized() && Placed(hash, less, keys - {node})
      modifies this`chains, this`keys, heads[b], chains[b]
      ensures Valid() && Unhashed(node) && chains == less && keys == old(keys) - {node}
    {
      ghost var now := chains;
      chains, keys := less, keys - {node};
      DelAt(node, heads, now, b, i, less);
    }

    /** hash_del: the node itself tells where it is linked; it leaves the bucket of its key. */
    method Del(node: HlistNode)
      requires Valid() && (node in keys || Unhashed(node))
      modifies this`chains, this`keys, heads, keys.Keys
      ensures Valid() && Unhashed(node)
      ensures keys == old(keys) - {node}
      ensures forall c | 0 <= c < |heads| && (node !in old(keys) || c != hash(old(keys)[node])) ::
                chains[c] == old(chains)[c]
    {
      ghost var b, i, less := Place(node);
      DelBucket(node, b, i, less);
    }

    /** Every live node is hashed, and its `pprev` names the one slot of its bucket that points to it. */
    lemma LiveIsHashed(node: HlistNode)
      requires Valid() && node in keys
      ensures !Unhashed(node)
      ensures (node.pprev.First? || node.pprev.Next?) && Deref(node.pprev) == node
      ensures forall b | 0 <= b < |heads| :: heads[b].first == node <==> node.pprev == First(heads[b])
      ensures forall m | m in keys :: m.next == node <==> node.pprev == Next(m)
    {
      var b := hash(keys[node]);
      var i :| 0 <= i < |chains[b]| && chains[b][i] == node;
      SlotIsUnique(heads[b], chains[b], i);
    }

    /** hash_empty */
    method Empty() returns (empty: bool)
      requires Valid()
      ensures empty <==> keys == map[]
    {
      for i := 0 to |heads|
        invariant forall b | 0 <= b < i :: chains[b] == []
      {
        var none := Hlist.Empty(heads[i], chains[i]);
        if !none {
          assert chains[i][0] in keys;
          return false;
        }
      }
      assert keys == map[];
      return true;
    }

    /** The body of the loop: one more bucket is visited. */
    method ForEachNext(bkt: nat, stop: HlistNode -> bool, before: seq<HlistNode>)
      returns (obj: HlistNode?, visited: seq<HlistNode>)
      requires Valid() && bkt < |heads| && Scanned(Concat(chains[..bkt]), stop, null, before)
      ensures Scanned(Concat(chains[..bkt + 1]), stop, obj, visited)
    {
      var some;
      obj, some := Hlist.ForEach(heads[bkt], stop, chains[bkt]);
      visited := before + some;
      ScanNext(chains, bkt, stop, before, obj, some);
    }

    /** hash_for_each, left by a break at the first node for which `stop` holds. */
    method ForEach(stop: HlistNode -> bool) returns (obj: HlistNode?, visited: seq<HlistNode>)
      requires Valid()
      ensures Scanned(Concat(chains), stop, obj, visited)
      ensures Distinct(visited) && forall i | 0 <= i < |visited| :: visited[i] in keys
      ensures obj == null ==> forall n | n in keys :: n in visited
    {
      var bkt := 0;
      obj, visited := null, [];
      while obj == null && bkt < |heads|
        invariant bkt <= |heads|
        invariant Scanned(Concat(chains[..bkt]), stop, obj, visited)
        decreases |heads| - bkt
      {
        obj, visited := ForEachNext(bkt, stop, visited);
        bkt := bkt + 1;
      }
      ScanLeft(chains, bkt, stop, obj, visited);
      ScanOfAll(hash, chains, keys, stop, obj, visited);
    }

    /** The doomed nodes of bucket `b` leave it. */
    method PruneBucket(b: nat, doomed: HlistNode -> bool, ghost gone: set<HlistNode>)
      requires Buckets(heads, chains) && b < |heads| && Alone(chains, b) && forall n | n in gone :: Unhashed(n)
      requires Sized() && Placed(hash, chains[b := Kept(chains[b], doomed)], keys - Doomed(chains[b], doomed))
      modifies this`chains, this`keys, heads[b], chains[b]
      ensures Valid() && forall n | n in gone + Doomed(old(chains)[b], doomed) :: Unhashed(n)
      ensures chains == old(chains)[b := Kept(old(chains)[b], doomed)]
      ensures keys == old(keys) - Doomed(old(chains)[b], doomed)
    {
      ghost var now := chains;
      chains, keys := now[b := Kept(now[b], doomed)], keys - Doomed(now[b], doomed);
      PruneAt(heads, b, doomed, now, gone);
    }

    /** The body of the loop: the doomed nodes of one more bucket are gone. */
    method PruneNext(b: nat, doomed: HlistNode -> bool, ghost was: map<HlistNode, Key>, ghost gone: set<HlistNode>)
      returns (ghost more: set<HlistNode>)
      requires Valid() && b < |heads| && Gone(hash, was, keys, doomed, gone, b) && forall n | n in gone :: Unhashed(n)
      modifies this`chains, this`keys, heads, was.Keys
      ensures Valid() && Gone(hash, was, keys, doomed, more, b + 1) && forall n | n in more :: Unhashed(n)
      ensures chains == old(chains)[b := Kept(old(chains)[b], doomed)]
    {
      more := gone + Doomed(chains[b], doomed);
      GoneNext(hash, was, chains, keys, doomed, gone, b);
      PlacedPrune(hash, chains, keys, doomed, b);
      PlacedAlone(hash, chains, keys, b);
      PruneBucket(b, doomed, gone);
    }

    /** hash_for_each_safe with hash_del of the doomed nodes in its body. */
    method Prune(doomed: HlistNode -> bool)
      requires Valid()
      modifies this`chains, this`keys, heads, keys.Keys
      ensures Valid()
      ensures keys == map n | n in old(keys) && !doomed(n) :: old(keys)[n]
      ensures forall b | 0 <= b < |heads| :: chains[b] == Kept(old(chains)[b], doomed)
      ensures forall n | n in old(keys) && doomed(n) :: Unhashed(n)
    {
      ghost var was, gone := keys, {};
      for bkt := 0 to |heads|
        invariant Valid() && Gone(hash, was, keys, doomed, gone, bkt) && forall n | n in gone :: Unhashed(n)
        invariant forall b | 0 <= b < |heads| ::
                    chains[b] == if b < bkt then Kept(old(chains)[b], doomed) else old(chains)[b]
      {
        gone := PruneNext(bkt, doomed, was, gone);
      }
      GoneAll(hash, was, keys, doomed, gone, |heads|);
    }

    /** hash_for_each_possible, left by a break at the first node for which `stop` holds. */
    method ForEachPossible(key: Key, stop: HlistNode -> bool) returns (obj: HlistNode?, visited: seq<HlistNode>)
      requires Valid()
      ensures Scanned(chains[hash(key)], stop, obj, visited)
      ensures obj == null ==> forall n | n in keys && keys[n] == key :: n in visited && !stop(n)
      ensures obj != null ==> obj in keys && hash(keys[obj]) == hash(key) && stop(obj) && obj in visited
    {
      obj, visited := Hlist.ForEach(heads[hash(key)], stop, chains[hash(key)]);
      if obj != null {
        assert visited[|visited| - 1] == chains[hash(key)][|visited| - 1];
      }
    }
  }

  // ----- runs

  datatype Op<Key> = AddOp(node: HlistNode, key: Key) | DelOp(node: HlistNode)

  ghost function KeysAfter<Key>(ops: seq<Op<Key>>): map<HlistNode, Key> {
    if ops == [] then map[] else
    var before := KeysAfter(ops[..|ops| - 1]);
    match ops[|ops| - 1]
    case AddOp(n, key) => before[n := key]
    case DelOp(n) => before - {n}
  }

  /** A node is not added while it is in the table; it may be removed at any time. */
  ghost predicate AllowedRun<Key>(all: set<HlistNode>, ops: seq<Op<Key>>) {
    forall k | 0 <= k < |ops| :: ops[k].node in all && (ops[k].AddOp? ==> ops[k].node !in KeysAfter(ops[..k]))
  }

  /** hash_hashed tells exactly the nodes of the table from the others. */
  ghost predicate Knows<Key(!new)>(table: HashTable<Key>, all: set<HlistNode>)
    requires table.keys.Keys <= all
    reads table, all
  {
    forall n | n in all :: Unhashed(n) <==> n !in table.keys
  }

  method Step<Key(!new)>(op: Op<Key>, table: HashTable<Key>, ghost all: set<HlistNode>)
    requires table.Valid() && table.keys.Keys <= all && Knows(table, all)
    requires op.node in all && (op.AddOp? ==> op.node !in table.keys)
    modifies table`chains, table`keys, table.heads, all
    ensures table.Valid() && table.keys.Keys <= all && Knows(table, all)
    ensures table.keys == match op
                          case AddOp(n, key) => old(table.keys)[n := key]
                          case DelOp(n) => old(table.keys) - {n}
  {
    match op {
      case AddOp(n, key) => table.Add(n, key);
      case DelOp(n) => table.Del(n);
    }
    forall n | n in all ensures Unhashed(n) <==> n !in table.keys {
      if n in table.keys {
        table.LiveIsHashed(n);
      } else if n != op.node {
        assert n !in old(table.keys) && old(Unhashed(n));
      }
    }
  }

  /** Any run from a fresh table leaves it valid, holding what was added last and not removed since. */
  method Run<Key(!new)>(ops: seq<Op<Key>>, table: HashTable<Key>, ghost all: set<HlistNode>)
    requires table.Valid() && table.keys == map[] && (forall n | n in all :: Unhashed(n))
    requires AllowedRun(all, ops)
    modifies table`chains, table`keys, table.heads, all
    ensures table.Valid() && table.keys == KeysAfter(ops)
    ensures table.keys.Keys <= all && Knows(table, all)
  {
    assert ops[..0] == [];
    for k := 0 to |ops|
      invariant table.Valid() && table.keys == KeysAfter(ops[..k])
      invariant table.keys.Keys <= all && Knows(table, all)
    {
      assert ops[..k + 1][..k] == ops[..k];
      Step(ops[k], table, all);
    }
    assert ops[..|ops|] == ops;
  }
}
