/**
 Where a pool keeps things in memory: the pool_t itself, blocks from malloc, and in every block,
 behind the block's own list_head, the objects.
 */
module PoolLayout {
  import opened Sequences
  import opened Memory

  /** offsetof(pool_t, list_available), offsetof(pool_t, list_blocks) and sizeof(pool_t) */
  const AVAILABLE: nat := 40
  const BLOCKS: nat := 56
  const POOL_SIZE: nat := 72

  /** The bytes of `n` objects of `e` bytes each. */
  function Bytes(e: nat, n: nat): nat {
    if n == 0 then 0 else Bytes(e, n - 1) + e
  }

  lemma {:induction false} BytesAre(e: nat, n: nat)
    ensures Bytes(e, n) == e * n
  {
    if n > 0 {
      BytesAre(e, n - 1);
      assert e * n == e * (n - 1) + e;
    }
  }

  lemma {:induction false} BytesGrow(e: nat, i: nat, j: nat)
    requires i < j
    ensures Bytes(e, i) + e <= Bytes(e, j)
  {
    if i < j - 1 {
      BytesGrow(e, i, j - 1);
    }
  }

  /** Object `i` of the block at `b`. */
  function Elem(b: nat, i: nat, e: nat): nat {
    b + CELL + Bytes(e, i)
  }

  /** sizeof(block_t) and the objects of one block */
  function BlockSize(e: nat, g: nat): nat {
    CELL + Bytes(e, g)
  }

  /** The first `n` objects of a block, last one first. */
  function Elems(b: nat, e: nat, n: nat): (s: seq<nat>)
    ensures |s| == n
  {
    if n == 0 then [] else [Elem(b, n - 1, e)] + Elems(b, e, n - 1)
  }

  lemma {:induction false} ElemsAt(b: nat, e: nat, n: nat, k: nat)
    requires k < n
    ensures Elems(b, e, n)[k] == Elem(b, n - 1 - k, e)
  {
    if k > 0 {
      ElemsAt(b, e, n - 1, k - 1);
    }
  }

  function Objects(blocks: seq<nat>, e: nat, g: nat): seq<nat> {
    if blocks == [] then [] else Elems(blocks[0], e, g) + Objects(blocks[1..], e, g)
  }

  ghost predicate Disjoint(a: nat, n: nat, b: nat, m: nat) {
    a + n <= b || b + m <= a
  }

  /** Fresh memory for a block, as malloc returns it. */
  ghost predicate Fresh(b: nat, at: nat, blocks: seq<nat>, size: nat) {
    && b > 0 && Disjoint(b, size, at, POOL_SIZE)
    && forall i | 0 <= i < |blocks| :: Disjoint(b, size, blocks[i], size)
  }

  /** The blocks and the pool_t do not overlap. */
  ghost predicate Separate(at: nat, blocks: seq<nat>, size: nat) {
    && at > 0
    && (forall i | 0 <= i < |blocks| :: blocks[i] > 0 && Disjoint(blocks[i], size, at, POOL_SIZE))
    && (forall i, j {:trigger Disjoint(blocks[i], size, blocks[j], size)} | 0 <= i < j < |blocks| ::
          Disjoint(blocks[i], size, blocks[j], size))
  }

  lemma TwoBlocks(at: nat, blocks: seq<nat>, size: nat, k: nat, l: nat)
    requires Separate(at, blocks, size) && k < |blocks| && l < |blocks| && k != l
    ensures Disjoint(blocks[k], size, blocks[l], size)
  {
    var i, j := if k < l then k else l, if k < l then l else k;
    assert Disjoint(blocks[i], size, blocks[j], size);
  }

  // ----- objects of a block

  lemma ElemInBlock(b: nat, i: nat, e: nat, g: nat)
    requires i < g
    ensures b + CELL <= Elem(b, i, e) && Elem(b, i, e) + e <= b + BlockSize(e, g)
  {
    BytesGrow(e, i, g);
  }

  /** Objects of a block do not overlap. */
  lemma ElemsApart(b: nat, i: nat, j: nat, e: nat)
    requires i < j
    ensures Elem(b, i, e) + e <= Elem(b, j, e)
  {
    BytesGrow(e, i, j);
  }

  /** `x` is the list_head of the block at `b` or that of a free object in it. */
  ghost predicate InBlock(x: nat, b: nat, e: nat, g: nat) {
    x == b || exists i :: 0 <= i < g && x == Elem(b, i, e)
  }

  lemma BlockRange(x: nat, b: nat, e: nat, g: nat)
    requires InBlock(x, b, e, g) && e >= CELL
    ensures b <= x && x + CELL <= b + BlockSize(e, g)
  {
    if x != b {
      var i :| 0 <= i < g && x == Elem(b, i, e);
      ElemInBlock(b, i, e, g);
    }
  }

  lemma BlockCellsApart(x: nat, y: nat, b: nat, e: nat, g: nat)
    requires InBlock(x, b, e, g) && InBlock(y, b, e, g) && x != y && e >= CELL
    ensures Apart(x, y)
  {
    if x == b {
      var j :| 0 <= j < g && y == Elem(b, j, e);
      ElemInBlock(b, j, e, g);
    } else if y == b {
      var i :| 0 <= i < g && x == Elem(b, i, e);
      ElemInBlock(b, i, e, g);
    } else {
      var i :| 0 <= i < g && x == Elem(b, i, e);
      var j :| 0 <= j < g && y == Elem(b, j, e);
      if i < j {
        ElemsApart(b, i, j, e);
      } else {
        ElemsApart(b, j, i, e);
      }
    }
  }

  // ----- all objects

  /** Where an object is. */
  lemma {:induction false} ObjectAt(blocks: seq<nat>, e: nat, g: nat, x: nat) returns (k: nat, i: nat)
    requires x in Objects(blocks, e, g)
    ensures k < |blocks| && i < g && x == Elem(blocks[k], i, e)
  {
    if x in Elems(blocks[0], e, g) {
      var p :| 0 <= p < g && x == Elems(blocks[0], e, g)[p];
      k, i := 0, g - 1 - p;
      ElemsAt(blocks[0], e, g, p);
    } else {
      k, i := ObjectAt(blocks[1..], e, g, x);
      k := k + 1;
    }
  }

  lemma {:induction false} ObjectIn(blocks: seq<nat>, e: nat, g: nat, k: nat, i: nat)
    requires k < |blocks| && i < g
    ensures Elem(blocks[k], i, e) in Objects(blocks, e, g)
  {
    if k == 0 {
      ElemsAt(blocks[0], e, g, g - 1 - i);
    } else {
      ObjectIn(blocks[1..], e, g, k - 1, i);
    }
  }

  ghost function Members(s: seq<nat>): set<nat> {
    set x | x in s
  }

  /** The cells of all list_heads of a pool. */
  ghost function Cells(at: nat, blocks: seq<nat>, e: nat, g: nat): set<nat> {
    {at + AVAILABLE, at + BLOCKS} + Members(blocks) + Members(Objects(blocks, e, g))
  }

  lemma CellBlock(blocks: seq<nat>, e: nat, g: nat, x: nat) returns (k: nat)
    requires x in blocks || x in Objects(blocks, e, g)
    ensures k < |blocks| && InBlock(x, blocks[k], e, g)
  {
    if x in blocks {
      k :| 0 <= k < |blocks| && blocks[k] == x;
    } else {
      var i;
      k, i := ObjectAt(blocks, e, g, x);
    }
  }

  /** No two list_heads overlap. */
  lemma CellsApart(at: nat, blocks: seq<nat>, e: nat, g: nat)
    requires Separate(at, blocks, BlockSize(e, g)) && e >= CELL
    ensures AllApart(Cells(at, blocks, e, g))
    ensures forall x | x in blocks || x in Objects(blocks, e, g) :: x > 0 && x != at + AVAILABLE && x != at + BLOCKS
  {
    forall x | x in blocks || x in Objects(blocks, e, g)
      ensures x > 0 && Apart(x, at + AVAILABLE) && Apart(x, at + BLOCKS)
    {
      var k := CellBlock(blocks, e, g, x);
      BlockRange(x, blocks[k], e, g);
    }
    forall x, y | (x in blocks || x in Objects(blocks, e, g)) && (y in blocks || y in Objects(blocks, e, g)) && x != y
      ensures Apart(x, y)
    {
      var k := CellBlock(blocks, e, g, x);
      var l := CellBlock(blocks, e, g, y);
      if k == l {
        BlockCellsApart(x, y, blocks[k], e, g);
      } else {
        TwoBlocks(at, blocks, BlockSize(e, g), k, l);
        BlockRange(x, blocks[k], e, g);
        BlockRange(y, blocks[l], e, g);
      }
    }
  }

  /** An object is no block. */
  lemma ObjectNoBlock(at: nat, blocks: seq<nat>, e: nat, g: nat, x: nat)
    requires Separate(at, blocks, BlockSize(e, g)) && e >= CELL && x in Objects(blocks, e, g)
    ensures x !in blocks
  {
    var k, i := ObjectAt(blocks, e, g, x);
    ElemInBlock(blocks[k], i, e, g);
    forall l | 0 <= l < |blocks| ensures blocks[l] != x {
      if l != k {
        TwoBlocks(at, blocks, BlockSize(e, g), k, l);
      }
    }
  }

  /** The bytes of an object overlap no list_head but its own, and no other object. */
  lemma ObjectAlone(at: nat, blocks: seq<nat>, e: nat, g: nat, x: nat, c: nat)
    requires Separate(at, blocks, BlockSize(e, g)) && e >= CELL
    requires x in Objects(blocks, e, g) && c in Cells(at, blocks, e, g) && c != x
    ensures Disjoint(x, e, c, CELL)
    ensures c in Objects(blocks, e, g) ==> Disjoint(x, e, c, e)
  {
    var k, i := ObjectAt(blocks, e, g, x);
    ElemInBlock(blocks[k], i, e, g);
    if c in Objects(blocks, e, g) {
      var l, j := ObjectAt(blocks, e, g, c);
      ElemInBlock(blocks[l], j, e, g);
      if k != l {
        TwoBlocks(at, blocks, BlockSize(e, g), k, l);
      } else if i < j {
        ElemsApart(blocks[k], i, j, e);
      } else {
        ElemsApart(blocks[k], j, i, e);
      }
    } else if c in blocks {
      var l :| 0 <= l < |blocks| && blocks[l] == c;
      BlockRange(c, blocks[l], e, g);
      if k != l {
        TwoBlocks(at, blocks, BlockSize(e, g), k, l);
      }
    }
  }

  lemma RestSeparate(at: nat, blocks: seq<nat>, size: nat)
    requires Separate(at, blocks, size) && blocks != []
    ensures Separate(at, blocks[1..], size)
  {
    var rest := blocks[1..];
    forall i, j | 0 <= i < j < |rest| ensures Disjoint(rest[i], size, rest[j], size) {
      assert Disjoint(blocks[i + 1], size, blocks[j + 1], size);
    }
  }

  lemma DistinctJoin(a: seq<nat>, b: seq<nat>)
    requires Distinct(a) && Distinct(b)
    requires forall i, j | 0 <= i < |a| && 0 <= j < |b| :: a[i] != b[j]
    ensures Distinct(a + b)
  {
  }

  lemma {:induction false} ObjectsCount(blocks: seq<nat>, e: nat, g: nat)
    ensures |Objects(blocks, e, g)| == g * |blocks|
  {
    if blocks != [] {
      ObjectsCount(blocks[1..], e, g);
      assert g * |blocks| == g * |blocks[1..]| + g;
    }
  }

  lemma {:induction false} ObjectsDistinct(at: nat, blocks: seq<nat>, e: nat, g: nat)
    requires Separate(at, blocks, BlockSize(e, g)) && e >= CELL
    ensures Distinct(Objects(blocks, e, g))
  {
    if blocks != [] {
      var first, rest := Elems(blocks[0], e, g), Objects(blocks[1..], e, g);
      RestSeparate(at, blocks, BlockSize(e, g));
      ObjectsDistinct(at, blocks[1..], e, g);
      forall i, j | 0 <= i < j < g ensures first[i] != first[j] {
        ElemsAt(blocks[0], e, g, i);
        ElemsAt(blocks[0], e, g, j);
        ElemsApart(blocks[0], g - 1 - j, g - 1 - i, e);
      }
      forall i, j | 0 <= i < g && 0 <= j < |rest| ensures first[i] != rest[j] {
        ElemsAt(blocks[0], e, g, i);
        ElemInBlock(blocks[0], g - 1 - i, e, g);
        var k, l := ObjectAt(blocks[1..], e, g, rest[j]);
        ElemInBlock(blocks[k + 1], l, e, g);
        TwoBlocks(at, blocks, BlockSize(e, g), 0, k + 1);
      }
      DistinctJoin(first, rest);
    }
  }

  lemma FreshSeparate(b: nat, at: nat, blocks: seq<nat>, size: nat)
    requires Separate(at, blocks, size) && Fresh(b, at, blocks, size)
    ensures Separate(at, [b] + blocks, size)
  {
    var more := [b] + blocks;
    forall i, j | 0 <= i < j < |more| ensures Disjoint(more[i], size, more[j], size) {
      if i > 0 {
        TwoBlocks(at, blocks, size, i - 1, j - 1);
      }
    }
  }
}
