/**
 A pool of equal objects. The list of free objects runs through the objects themselves; blocks of
 objects come from malloc, whose results are parameters.
 */
module Pool {
  import opened Sequences
  import opened Memory
  import opened PoolLayout
  import B = Binary

  const U32: nat := 0x1_0000_0000

  /** The blocks, newest first, the free objects in list order, and the objects handed out. */
  datatype State = State(blocks: seq<nat>, spare: seq<nat>, held: set<nat>)

  /** The third is what the holder of an object does with it: a word is stored in its bytes. */
  datatype Op = GetOp(block: nat) | AddOp(elt: nat) | UseOp(elt: nat, a: nat, v: nat)

  /**
   A malloc'ed block is fresh memory with room for some objects, and only an object that was handed out is
   given back or used.
   */
  ghost predicate Allowed(s: State, op: Op, at: nat, e: nat, g: nat) {
    match op
    case GetOp(block) => block == 0 || (g > 0 && Fresh(block, at, s.blocks, BlockSize(e, g)))
    case AddOp(elt) => elt in s.held
    case UseOp(elt, a, v) => elt in s.held && elt <= a && a + WORD <= elt + e
  }

  /** A new block's objects go to the front of the list, the last one first. */
  ghost function Grown(s: State, block: nat, e: nat, g: nat): State {
    State([block] + s.blocks, Elems(block, e, g) + s.spare, s.held)
  }

  ghost function Taken(s: State): State {
    if s.spare == [] then s else State(s.blocks, s.spare[1..], s.held + {s.spare[0]})
  }

  /** What an operation does to a pool with `g` objects of `e` bytes a block. */
  ghost function Step(s: State, op: Op, e: nat, g: nat): State {
    match op
    case GetOp(block) =>
      if |s.spare| % U32 != 0 then Taken(s) else if block == 0 then s else Taken(Grown(s, block, e, g))
    case AddOp(elt) => State(s.blocks, [elt] + s.spare, s.held - {elt})
    case UseOp(elt, a, v) => s
  }

  /** Every object is either free or handed out. */
  ghost predicate Partition(all: seq<nat>, spare: seq<nat>, held: set<nat>) {
    && (forall x :: x in all <==> x in spare || x in held)
    && (forall i | 0 <= i < |spare| :: spare[i] !in held)
  }

  lemma PartitionAdd(all: seq<nat>, spare: seq<nat>, held: set<nat>, x: nat)
    requires Partition(all, spare, held) && x in held
    ensures x in all && x !in spare
    ensures Partition(all, [x] + spare, held - {x})
  {
  }

  lemma PartitionTake(all: seq<nat>, spare: seq<nat>, held: set<nat>)
    requires Partition(all, spare, held) && spare != [] && spare[0] !in spare[1..]
    ensures Partition(all, spare[1..], held + {spare[0]})
  {
    assert spare == [spare[0]] + spare[1..];
  }

  lemma PartitionGrow(all: seq<nat>, spare: seq<nat>, held: set<nat>, more: seq<nat>)
    requires Partition(all, spare, held) && Distinct(more + all)
    ensures Partition(more + all, more + spare, held)
  {
    forall i | 0 <= i < |more| ensures more[i] !in held {
      forall j | 0 <= j < |all| ensures all[j] != more[i] {
        assert (more + all)[i] == more[i] && (more + all)[|more| + j] == all[j];
      }
    }
  }

  lemma HeldIdle(all: seq<nat>, spare: seq<nat>, held: set<nat>)
    requires Partition(all, spare, held)
    ensures forall x | x in held :: x in all && x !in spare
  {
  }

  /** The lists of free objects and of blocks in memory `w`. */
  ghost predicate WellLinked(w: map<nat, nat>, at: nat, blocks: seq<nat>, spare: seq<nat>, e: nat, g: nat) {
    && Separate(at, blocks, BlockSize(e, g))
    && Ring(w, [at + AVAILABLE] + spare)
    && Ring(w, [at + BLOCKS] + blocks)
    && (forall i | 0 <= i < |spare| :: spare[i] in Objects(blocks, e, g))
  }

  lemma ModStep(n: nat, k: nat)
    ensures (n % U32 + k) % U32 == (n + k) % U32
  {
  }

  lemma ModBack(n: nat)
    requires n > 0
    ensures (n - 1) % U32 == if n % U32 == 0 then U32 - 1 else n % U32 - 1
  {
  }

  /** The object of `e` bytes at `x` has the bytes it had. */
  ghost predicate SameBytes(w: map<nat, nat>, w': map<nat, nat>, x: nat, e: nat) {
    forall a {:trigger SameWord(w, w', a)} | x <= a && a + WORD <= x + e :: SameWord(w, w', a)
  }

  ghost predicate Kept(w: map<nat, nat>, w': map<nat, nat>, held: set<nat>, e: nat) {
    forall x {:trigger SameBytes(w, w', x, e)} | x in held :: SameBytes(w, w', x, e)
  }

  /** The word at `x` overlaps neither the pool_t nor a block. */
  ghost predicate Outside(x: nat, at: nat, blocks: seq<nat>, size: nat) {
    && (x + WORD <= at || at + POOL_SIZE <= x)
    && forall i | 0 <= i < |blocks| :: x + WORD <= blocks[i] || blocks[i] + size <= x
  }

  /** All memory that is not the pool's own is as before. */
  ghost predicate Elsewhere(w: map<nat, nat>, w': map<nat, nat>, at: nat, blocks: seq<nat>, size: nat) {
    forall x {:trigger SameWord(w, w', x)} | Outside(x, at, blocks, size) :: SameWord(w, w', x)
  }

  lemma ElsewhereSince(w: map<nat, nat>, v: map<nat, nat>, w': map<nat, nat>, at: nat, blocks: seq<nat>, size: nat)
    requires Elsewhere(w, v, at, blocks, size) && Elsewhere(v, w', at, blocks, size)
    ensures Elsewhere(w, w', at, blocks, size)
  {
    forall x | Outside(x, at, blocks, size) ensures SameWord(w, w', x) {
      assert SameWord(w, v, x) && SameWord(v, w', x);
    }
  }

  lemma ElsewhereMore(w: map<nat, nat>, w': map<nat, nat>, at: nat, blocks: seq<nat>, more: seq<nat>, size: nat)
    requires Elsewhere(w, w', at, blocks, size) && forall b | b in blocks :: b in more
    ensures Elsewhere(w, w', at, more, size)
  {
    forall x: nat | Outside(x, at, more, size) ensures SameWord(w, w', x) {
      forall i | 0 <= i < |blocks| ensures x + WORD <= blocks[i] || blocks[i] + size <= x {
        assert blocks[i] in more;
      }
      assert Outside(x, at, blocks, size);
    }
  }

  /** A store in an object leaves all memory that is not the pool's as it is. */
  lemma ObjectStore(w: map<nat, nat>, at: nat, blocks: seq<nat>, e: nat, g: nat, x: nat, a: nat, v: nat)
    requires x in Objects(blocks, e, g) && x <= a && a + WORD <= x + e
    ensures Elsewhere(w, Put(w, a, v), at, blocks, BlockSize(e, g))
  {
    var k, i := ObjectAt(blocks, e, g, x);
    ElemInBlock(blocks[k], i, e, g);
    forall y: nat | Outside(y, at, blocks, BlockSize(e, g)) ensures SameWord(w, Put(w, a, v), y) {
      PutElsewhere(w, a, v, y);
    }
  }

  /** Stores in list_heads of the pool leave all other memory as it is. */
  lemma CellStores(w: map<nat, nat>, w': map<nat, nat>, at: nat, blocks: seq<nat>, e: nat, g: nat, touched: set<nat>)
    requires e >= CELL && SameOutside(w, w', touched) && touched <= Cells(at, blocks, e, g)
    ensures Elsewhere(w, w', at, blocks, BlockSize(e, g))
  {
    forall x: nat | Outside(x, at, blocks, BlockSize(e, g)) ensures SameWord(w, w', x) {
      forall c | c in touched ensures x + WORD <= c || c + CELL <= x {
        if c in blocks || c in Objects(blocks, e, g) {
          var k := CellBlock(blocks, e, g, c);
          BlockRange(c, blocks[k], e, g);
        }
      }
      assert Clear(x, touched);
    }
  }

  /** The objects that are not on the list of free objects keep their bytes, and so does all other memory. */
  ghost predicate Intact(w: map<nat, nat>, w': map<nat, nat>, at: nat, blocks: seq<nat>, spare: seq<nat>,
                         e: nat, g: nat) {
    && (forall x {:trigger SameBytes(w, w', x, e)} | x in Objects(blocks, e, g) && x !in spare ::
          SameBytes(w, w', x, e))
    && Elsewhere(w, w', at, blocks, BlockSize(e, g))
  }

  lemma KeptSince(w: map<nat, nat>, v: map<nat, nat>, w': map<nat, nat>, held: set<nat>, e: nat)
    requires Kept(w, v, held, e) && Kept(v, w', held, e)
    ensures Kept(w, w', held, e)
  {
    forall x | x in held ensures SameBytes(w, w', x, e) {
      assert SameBytes(w, v, x, e) && SameBytes(v, w', x, e);
      forall a | x <= a && a + WORD <= x + e ensures SameWord(w, w', a) {
        assert SameWord(w, v, a) && SameWord(v, w', a);
      }
    }
  }

  /** Stores in list_heads that belong to no object but those on the list. */
  lemma ListStores(w: map<nat, nat>, w': map<nat, nat>, at: nat, blocks: seq<nat>, spare: seq<nat>,
                   e: nat, g: nat, touched: set<nat>)
    requires Separate(at, blocks, BlockSize(e, g)) && e >= CELL && SameOutside(w, w', touched)
    requires touched <= Cells(at, blocks, e, g) && forall c | c in touched :: c in Objects(blocks, e, g) ==> c in spare
    ensures Intact(w, w', at, blocks, spare, e, g)
  {
    CellStores(w, w', at, blocks, e, g, touched);
    forall x | x in Objects(blocks, e, g) && x !in spare ensures SameBytes(w, w', x, e) {
      forall c | c in touched ensures Disjoint(x, e, c, CELL) {
        ObjectAlone(at, blocks, e, g, x, c);
      }
      assert forall a | x <= a && a + WORD <= x + e :: Clear(a, touched);
    }
  }

  lemma IntactSince(w: map<nat, nat>, v: map<nat, nat>, w': map<nat, nat>, at: nat, blocks: seq<nat>,
                    x: nat, spare: seq<nat>, e: nat, g: nat)
    requires Intact(w, v, at, blocks, spare, e, g) && Intact(v, w', at, blocks, [x] + spare, e, g)
    ensures Intact(w, w', at, blocks, [x] + spare, e, g)
  {
    ElsewhereSince(w, v, w', at, blocks, BlockSize(e, g));
    forall y | y in Objects(blocks, e, g) && y !in [x] + spare ensures SameBytes(w, w', y, e) {
      assert y !in spare && SameBytes(w, v, y, e) && SameBytes(v, w', y, e);
      forall a | y <= a && a + WORD <= y + e ensures SameWord(w, w', a) {
        assert SameWord(w, v, a) && SameWord(v, w', a);
      }
    }
  }

  lemma HeldKept(w: map<nat, nat>, w': map<nat, nat>, at: nat, blocks: seq<nat>, spare: seq<nat>, held: set<nat>,
                 e: nat, g: nat)
    requires Intact(w, w', at, blocks, spare, e, g)
    requires forall x | x in held :: x in Objects(blocks, e, g) && x !in spare
    ensures Kept(w, w', held, e)
  {
  }

  class Pool {
    const mem: Memory
    /** The address of the pool_t. */
    const at: nat
    const eltsize: nat
    const growsize: nat
    var available: nat
    var total: nat
    var nblocks: nat
    /** The blocks, newest first, the free objects in list order, and the objects handed out. */
    ghost var blocks: seq<nat>
    ghost var spare: seq<nat>
    ghost var held: set<nat>

    ghost function All(): seq<nat>
      reads this
    {
      Objects(blocks, eltsize, growsize)
    }

    /** Both lists are well formed and run through the pool's own memory. */
    ghost predicate Lists()
      reads this, mem
    {
      eltsize >= CELL && WellLinked(mem.word, at, blocks, spare, eltsize, growsize)
    }

    /** Every object is free or handed out, and the counters count, modulo the width of a u32. */
    ghost predicate Valid()
      reads this, mem
    {
      && Lists()
      && Partition(All(), spare, held)
      && available == |spare| % U32
      && total == (growsize * |blocks|) % U32
      && nblocks == |blocks| % U32
    }

    /** INIT_LIST_HEAD on both heads of a new pool_t. */
    constructor (mem: Memory, at: nat, growsize: nat, eltsize: nat)
      requires at > 0 && eltsize >= CELL
      modifies mem`word
      ensures Valid() && Contents() == State([], [], {})
      ensures Elsewhere(old(mem.word), mem.word, at, [], BlockSize(eltsize, growsize))
      ensures this.mem == mem && this.at == at && this.growsize == growsize && this.eltsize == eltsize
    {
      this.mem, this.at, this.growsize, this.eltsize := mem, at, growsize, eltsize;
      available, total, nblocks := 0, 0, 0;
      blocks, spare, held := [], [], {};
      new;
      ghost var cells := Cells(at, [], eltsize, growsize);
      CellsApart(at, [], eltsize, growsize);
      InitListHead(mem, at + AVAILABLE, cells);
      CellStores(old(mem.word), mem.word, at, [], eltsize, growsize, {at + AVAILABLE});
      ghost var w := mem.word;
      InitListHead(mem, at + BLOCKS, cells);
      CellStores(w, mem.word, at, [], eltsize, growsize, {at + BLOCKS});
      ElsewhereSince(old(mem.word), w, mem.word, at, [], BlockSize(eltsize, growsize));
      RingStays(w, mem.word, cells, {at + BLOCKS}, [at + AVAILABLE]);
      assert [at + AVAILABLE] + spare == [at + AVAILABLE] && [at + BLOCKS] + blocks == [at + BLOCKS];
    }

    /** _pool_add */
    method Push(elt: nat) returns (now: nat)
      requires Lists() && elt in All() && elt !in spare
      modifies this`available, this`spare, mem`word
      ensures Lists() && spare == [elt] + old(spare)
      ensures available == (old(available) + 1) % U32 && now == available
      ensures Intact(old(mem.word), mem.word, at, blocks, spare, eltsize, growsize)
    {
      ghost var cells, r, w := Cells(at, blocks, eltsize, growsize), [at + AVAILABLE] + spare, mem.word;
      Geometry(w, at, blocks, spare, eltsize, growsize, cells, r);
      ListAdd(mem, elt, at + AVAILABLE, r, cells);
      FirstAdded(w, mem.word, elt, at, blocks, spare, eltsize, growsize, cells, r);
      spare := [elt] + spare;
      available := (available + 1) % U32;
      now := available;
    }

    /** _pool_get: on an empty list the head itself is taken, and poisoned. */
    method Pop() returns (res: nat)
      requires Lists()
      modifies this`available, this`spare, mem`word
      ensures available == if old(available) == 0 then U32 - 1 else old(available) - 1
      ensures Elsewhere(old(mem.word), mem.word, at, blocks, BlockSize(eltsize, growsize))
      ensures if old(spare) == [] then res == at + AVAILABLE && spare == [] && !Lists() else
        && res == old(spare)[0] && spare == old(spare)[1..] && Lists()
        && Intact(old(mem.word), mem.word, at, blocks, old(spare), eltsize, growsize)
    {
      ghost var cells, r, w := Cells(at, blocks, eltsize, growsize), [at + AVAILABLE] + spare, mem.word;
      ghost var e := if spare == [] then 0 else 1;
      Geometry(w, at, blocks, spare, eltsize, growsize, cells, r);
      assert LinkedAt(w, r, 0);
      res := mem.Load(at + AVAILABLE);
      available := if available == 0 then U32 - 1 else available - 1;
      ListDel(mem, res, r, e, cells);
      RingStores(w, mem.word, at, blocks, spare, eltsize, growsize, r, e);
      if spare == [] {
        Poisoned(mem.word, at, blocks, spare, eltsize, growsize);
      } else {
        FirstTaken(w, mem.word, at, blocks, spare, eltsize, growsize, cells, r);
        spare := spare[1..];
      }
    }

    ghost function Contents(): State
      reads this
    {
      State(blocks, spare, held)
    }

    /** pool_add: the number of available objects is returned. */
    method Add(elt: nat) returns (now: nat)
      requires Valid() && elt in held
      modifies this`available, this`spare, this`held, mem`word
      ensures Valid() && Contents() == Step(old(Contents()), AddOp(elt), eltsize, growsize)
      ensures now == |spare| % U32
      ensures Kept(old(mem.word), mem.word, held, eltsize)
      ensures Elsewhere(old(mem.word), mem.word, at, blocks, BlockSize(eltsize, growsize))
    {
      PartitionAdd(All(), spare, held, elt);
      ModStep(|spare|, 1);
      ghost var w := mem.word;
      now := Push(elt);
      held := held - {elt};
      HeldKept(w, mem.word, at, blocks, spare, held, eltsize, growsize);
    }

    /** The part of pool_get that enters a new block into the list of blocks. */
    method AddBlock(block: nat)
      requires Lists() && block > 0 && Fresh(block, at, blocks, BlockSize(eltsize, growsize))
      modifies this`blocks, mem`word
      ensures Lists() && blocks == [block] + old(blocks)
      ensures Intact(old(mem.word), mem.word, at, blocks, spare, eltsize, growsize)
    {
      ghost var others, r, w := blocks, [at + BLOCKS] + blocks, mem.word;
      blocks := [block] + others;
      ghost var cells: set<nat> := Cells(at, blocks, eltsize, growsize);
      ghost var touched: set<nat> := {block, at + BLOCKS, After(r, 0)};
      CanAdd(w, block, at, others, spare, eltsize, growsize, r, cells);
      ListAdd(mem, block, at + BLOCKS, r, cells);
      BlockAdded(w, mem.word, block, at, others, spare, eltsize, growsize, r, cells, touched);
    }

    /** The first `i` objects of the newest block are carved; `others` were free before. */
    ghost predicate Carving(block: nat, i: nat, others: seq<nat>)
      reads this, mem
    {
      && Lists() && blocks != [] && block == blocks[0]
      && Among(others, Objects(blocks[1..], eltsize, growsize))
      && spare == Elems(block, eltsize, i) + others && available == |spare| % U32
    }

    /** The loop of pool_get that carves a new block. */
    method Carve(block: nat)
      requires Carving(block, 0, spare)
      modifies this`available, this`spare, mem`word
      ensures Carving(block, growsize, old(spare))
      ensures Intact(old(mem.word), mem.word, at, blocks, spare, eltsize, growsize)
    {
      ghost var others := spare;
      for i := 0 to growsize
        invariant Carving(block, i, others)
        invariant Intact(old(mem.word), mem.word, at, blocks, spare, eltsize, growsize)
      {
        ghost var w, s := mem.word, spare;
        CarveOne(block, i, others);
        IntactSince(old(mem.word), w, mem.word, at, blocks, spare[0], s, eltsize, growsize);
      }
    }

    method CarveOne(block: nat, i: nat, ghost others: seq<nat>)
      requires Carving(block, i, others) && i < growsize
      modifies this`available, this`spare, mem`word
      ensures Carving(block, i + 1, others) && spare == [Elem(block, i, eltsize)] + old(spare)
      ensures Intact(old(mem.word), mem.word, at, blocks, spare, eltsize, growsize)
    {
      var cur := block + CELL + i * eltsize;
      BytesAre(eltsize, i);
      ObjectsDistinct(at, blocks, eltsize, growsize);
      CarvedIsNew(blocks, eltsize, growsize, i, others);
      ModStep(|spare|, 1);
      CarvedNext(block, eltsize, i, others);
      var now := Push(cur);
    }

    /** The part of pool_get that accounts for a new block. */
    method Enter(block: nat)
      requires Lists() && total == (growsize * |blocks|) % U32 && nblocks == |blocks| % U32
      requires block > 0 && Fresh(block, at, blocks, BlockSize(eltsize, growsize))
      modifies this`total, this`nblocks, this`blocks, mem`word
      ensures Lists() && blocks == [block] + old(blocks)
      ensures total == (growsize * |blocks|) % U32 && nblocks == |blocks| % U32
      ensures Intact(old(mem.word), mem.word, at, blocks, spare, eltsize, growsize)
    {
      AddBlock(block);
      ModStep(|blocks| - 1, 1);
      nblocks := (nblocks + 1) % U32;
      ModStep(growsize * (|blocks| - 1), growsize);
      Times(growsize, |blocks|);
      total := (total + growsize) % U32;
    }

    /** pool_get when no object is available: a new block is entered and carved. */
    method Grow(block: nat)
      requires Valid() && available == 0 && block > 0 && Fresh(block, at, blocks, BlockSize(eltsize, growsize))
      modifies this`available, this`total, this`nblocks, this`blocks, this`spare, mem`word
      ensures Valid() && Contents() == Grown(old(Contents()), block, eltsize, growsize)
      ensures Kept(old(mem.word), mem.word, held, eltsize)
      ensures Elsewhere(old(mem.word), mem.word, at, blocks, BlockSize(eltsize, growsize))
    {
      ghost var w := mem.word;
      MoreObjects(block, blocks, eltsize, growsize);
      PartitionObjects(block);
      Enter(block);
      ghost var v := mem.word;
      HeldKept(w, v, at, blocks, spare, held, eltsize, growsize);
      assert blocks[1..] == old(blocks);
      Carve(block);
      HeldKept(v, mem.word, at, blocks, spare, held, eltsize, growsize);
      KeptSince(w, v, mem.word, held, eltsize);
      ElsewhereSince(w, v, mem.word, at, blocks, BlockSize(eltsize, growsize));
    }

    lemma PartitionObjects(block: nat)
      requires Valid() && Fresh(block, at, blocks, BlockSize(eltsize, growsize))
      ensures Partition(Objects([block] + blocks, eltsize, growsize), Elems(block, eltsize, growsize) + spare, held)
    {
      FreshSeparate(block, at, blocks, BlockSize(eltsize, growsize));
      MoreObjects(block, blocks, eltsize, growsize);
      ObjectsDistinct(at, [block] + blocks, eltsize, growsize);
      PartitionGrow(All(), spare, held, Elems(block, eltsize, growsize));
    }

    /**
     pool_get: null only if malloc fails when it is needed; otherwise an object that nobody holds. It may be called
     unless the pool grows by no objects and malloc succeeds: it would return a part of the pool_t, and poison it.
     */
    method Get(block: nat) returns (res: nat)
      requires Valid() && (block == 0 || Fresh(block, at, blocks, BlockSize(eltsize, growsize)))
      modifies this`available, this`total, this`nblocks, this`blocks, this`spare, this`held, mem`word
      ensures Valid() <==> growsize > 0 || block == 0
      ensures Elsewhere(old(mem.word), mem.word, at, blocks, BlockSize(eltsize, growsize))
      ensures growsize > 0 || block == 0 ==>
        && Contents() == Step(old(Contents()), GetOp(block), eltsize, growsize)
        && Kept(old(mem.word), mem.word, old(held), eltsize)
      ensures res == 0 <==> old(available) == 0 && block == 0
      ensures res == 0 ==> mem.word == old(mem.word) && total == old(total) && nblocks == old(nblocks)
      ensures growsize > 0 && res > 0 ==> res in All() && res !in old(held) && held == old(held) + {res}
      ensures growsize == 0 && res > 0 ==> res == at + AVAILABLE
    {
      if growsize == 0 {
        NoObjects();
      }
      if available == 0 {
        if block == 0 {
          return 0;
        }
        Grow(block);
        ElemsNotEmpty(block, eltsize, growsize, old(spare));
      } else {
        ModBack(|spare|);
      }
      ghost var v := mem.word;
      res := Take();
      ElsewhereSince(old(mem.word), v, mem.word, at, blocks, BlockSize(eltsize, growsize));
      if growsize > 0 {
        KeptSince(old(mem.word), v, mem.word, old(held), eltsize);
      }
    }

    lemma NoObjects()
      requires Valid() && growsize == 0
      ensures spare == [] && available == 0
    {
      if spare != [] {
        assert spare[0] in All();
        var k, i := ObjectAt(blocks, eltsize, growsize, spare[0]);
        assert false;
      }
    }

    /** The holder of an object may store anything in it; the pool does not notice. */
    method Use(x: nat, a: nat, v: nat)
      requires Valid() && x in held && x <= a && a + WORD <= x + eltsize
      modifies mem`word
      ensures Valid() && mem.word == Put(old(mem.word), a, v)
    {
      ghost var cells, w := Cells(at, blocks, eltsize, growsize), mem.word;
      ghost var r, q := [at + AVAILABLE] + spare, [at + BLOCKS] + blocks;
      Geometry(w, at, blocks, spare, eltsize, growsize, cells, r);
      assert x in All() && x !in spare;
      mem.Store(a, v);
      forall c | c in cells && c !in {x} ensures SameCell(w, mem.word, c) {
        ObjectAlone(at, blocks, eltsize, growsize, x, c);
        PutElsewhere(w, a, v, c);
        PutElsewhere(w, a, v, c + WORD);
      }
      RingStays(w, mem.word, cells, {x}, r);
      RingStays(w, mem.word, cells, {x}, q);
    }

    /** What is left of the list of blocks when the first `k` are freed. */
    ghost function Remaining(k: nat): seq<nat>
      requires k <= |blocks|
      reads this
    {
      [at + BLOCKS] + blocks[k..]
    }

    /** list_del of a block, then free. */
    method FreeBlock(block: nat, ghost k: nat)
      requires eltsize >= CELL && Separate(at, blocks, BlockSize(eltsize, growsize))
      requires k < |blocks| && block == blocks[k] && Ring(mem.word, Remaining(k))
      requires NoneLeft(mem.word, blocks[..k], BlockSize(eltsize, growsize))
      modifies mem
      ensures Ring(mem.word, Remaining(k + 1))
      ensures mem.freed == old(mem.freed) + [Extent(block, BlockSize(eltsize, growsize))]
      ensures NoneLeft(mem.word, blocks[..k + 1], BlockSize(eltsize, growsize))
      ensures Elsewhere(old(mem.word), mem.word, at, blocks, BlockSize(eltsize, growsize))
    {
      ghost var cells, r, q := Cells(at, blocks, eltsize, growsize), Remaining(k), Remaining(k + 1);
      ghost var w := mem.word;
      CellsApart(at, blocks, eltsize, growsize);
      OthersOutside(at, blocks, k, BlockSize(eltsize, growsize), q);
      ListDel(mem, block, r, 1, cells);
      assert Without(r, 1) == q;
      FreedRing(mem.word, block, BlockSize(eltsize, growsize), q);
      FreedStay(w, mem.word, at, blocks, k, BlockSize(eltsize, growsize), r);
      CellStores(w, mem.word, at, blocks, eltsize, growsize, {block, Before(r, 1), After(r, 1)});
      BlockFreed(w, mem.word, at, blocks, k, BlockSize(eltsize, growsize));
      mem.Free(block, BlockSize(eltsize, growsize));
    }

    /**
     pool_destroy: every block is freed once, then the pool_t, with their sizes; no freed memory is read, and
     none of it can be read later.
     */
    method Destroy()
      requires Valid()
      modifies mem
      ensures mem.freed == old(mem.freed) + Extents(blocks, BlockSize(eltsize, growsize)) + [Extent(at, POOL_SIZE)]
      ensures Distinct(blocks + [at])
      ensures NoneLeft(mem.word, blocks, BlockSize(eltsize, growsize)) && NoWordIn(mem.word, at, POOL_SIZE)
      ensures Elsewhere(old(mem.word), mem.word, at, blocks, BlockSize(eltsize, growsize))
    {
      BlocksDistinct(at, blocks, eltsize, growsize);
      ghost var k, size := 0, BlockSize(eltsize, growsize);
      assert Remaining(0) == [at + BLOCKS] + blocks;
      assert LinkedAt(mem.word, Remaining(0), 0);
      var block := mem.Load(at + BLOCKS);
      assert block != at + BLOCKS ==> LinkedAt(mem.word, Remaining(0), 1);
      var tmp := mem.Load(block);
      while block != at + BLOCKS
        invariant k <= |blocks| && mem.freed == old(mem.freed) + Extents(blocks[..k], size)
        invariant Ring(mem.word, Remaining(k)) && NoneLeft(mem.word, blocks[..k], size)
        invariant Elsewhere(old(mem.word), mem.word, at, blocks, size)
        invariant block == After(Remaining(k), 0)
        invariant tmp == if k < |blocks| then After(Remaining(k), 1) else at + BLOCKS
        decreases |blocks| - k
      {
        ghost var w := mem.word;
        FreeBlock(block, k);
        ElsewhereSince(old(mem.word), w, mem.word, at, blocks, size);
        block := tmp;
        k := k + 1;
        assert LinkedAt(mem.word, Remaining(k), 0) && (k < |blocks| ==> LinkedAt(mem.word, Remaining(k), 1));
        tmp := mem.Load(tmp);
      }
      assert blocks[..k] == blocks;
      FreedIsEmpty(mem.word, at, POOL_SIZE);
      PoolFreed(old(mem.word), mem.word, at, blocks, size);
      mem.Free(at, POOL_SIZE);
    }

    /** No object is lost: all that were ever allocated are either free or handed out, and none is both. */
    lemma Conservation()
      requires Valid()
      ensures |spare| + |held| == growsize * |blocks|
      ensures growsize * |blocks| < U32 ==> total == growsize * nblocks == available + |held|
    {
      AllCounted(mem.word, at, blocks, spare, held, eltsize, growsize);
      if 0 < growsize && growsize * |blocks| < U32 {
        NoWrap(growsize, |blocks|);
      }
    }

    /** Two objects that are handed out, or free, never overlap, and lie inside one block. */
    lemma NoOverlap(x: nat, y: nat) returns (k: nat)
      requires Valid() && x in All() && y in All() && x != y
      ensures Disjoint(x, eltsize, y, eltsize)
      ensures k < |blocks| && blocks[k] + CELL <= x && x + eltsize <= blocks[k] + BlockSize(eltsize, growsize)
    {
      ObjectAlone(at, blocks, eltsize, growsize, x, y);
      var i;
      k, i := ObjectAt(blocks, eltsize, growsize, x);
      ElemInBlock(blocks[k], i, eltsize, growsize);
    }

    /** _pool_get and its bookkeeping */
    method Take() returns (res: nat)
      requires Valid()
      modifies this`available, this`spare, this`held, mem`word
      ensures Elsewhere(old(mem.word), mem.word, at, blocks, BlockSize(eltsize, growsize))
      ensures if old(spare) == [] then res == at + AVAILABLE && !Valid() else
        && Valid() && Contents() == Taken(old(Contents()))
        && res == old(spare)[0] && res > 0 && res in All() && res !in old(held)
        && Kept(old(mem.word), mem.word, old(held), eltsize)
    {
      ghost var w, others := mem.word, spare;
      if spare != [] {
        CellsApart(at, blocks, eltsize, growsize);
        FirstOnce(at + AVAILABLE, spare);
        PartitionTake(All(), spare, held);
        ModBack(|spare|);
        HeldIdle(All(), spare, held);
      }
      res := Pop();
      if others != [] {
        HeldKept(w, mem.word, at, blocks, others, held, eltsize, growsize);
        held := held + {res};
      }
    }
  }

  lemma Poisoned(w: map<nat, nat>, at: nat, blocks: seq<nat>, spare: seq<nat>, e: nat, g: nat)
    requires spare == [] && HasCell(w, at + AVAILABLE)
    requires w[at + AVAILABLE] == POISON1 && w[at + AVAILABLE + WORD] == POISON2
    ensures !WellLinked(w, at, blocks, spare, e, g)
  {
    var r := [at + AVAILABLE] + spare;
    assert r == [at + AVAILABLE];
    assert !LinkedAt(w, r, 0);
  }

  lemma {:induction false} DistinctCount(s: seq<nat>)
    requires Distinct(s)
    ensures |Members(s)| == |s|
  {
    if s != [] {
      DistinctCount(s[1..]);
      assert s == [s[0]] + s[1..];
      assert Members(s) == {s[0]} + Members(s[1..]);
    }
  }

  lemma Parts(all: seq<nat>, spare: seq<nat>, held: set<nat>)
    requires Partition(all, spare, held)
    ensures |Members(all)| == |Members(spare)| + |held|
  {
    assert Members(all) == Members(spare) + held && Members(spare) !! held;
  }

  lemma AllCounted(w: map<nat, nat>, at: nat, blocks: seq<nat>, spare: seq<nat>, held: set<nat>, e: nat, g: nat)
    requires WellLinked(w, at, blocks, spare, e, g) && e >= CELL && Partition(Objects(blocks, e, g), spare, held)
    ensures |spare| + |held| == g * |blocks|
  {
    ObjectsDistinct(at, blocks, e, g);
    ObjectsCount(blocks, e, g);
    DistinctCount(Objects(blocks, e, g));
    SpareDistinct(at + AVAILABLE, spare);
    DistinctCount(spare);
    Parts(Objects(blocks, e, g), spare, held);
  }

  lemma ElemsNotEmpty(block: nat, e: nat, g: nat, others: seq<nat>)
    ensures g > 0 ==> Elems(block, e, g) + others != []
  {
  }

  lemma SpareDistinct(head: nat, s: seq<nat>)
    requires Distinct([head] + s)
    ensures Distinct(s)
  {
    assert forall k | 0 <= k < |s| :: ([head] + s)[k + 1] == s[k];
  }

  lemma FirstOnce(head: nat, s: seq<nat>)
    requires Distinct([head] + s) && s != []
    ensures s[0] !in s[1..]
  {
    assert forall k | 0 <= k < |s| :: ([head] + s)[k + 1] == s[k];
  }

  lemma BlocksDistinct(at: nat, blocks: seq<nat>, e: nat, g: nat)
    requires Separate(at, blocks, BlockSize(e, g))
    ensures Distinct(blocks + [at])
  {
    forall i, j | 0 <= i < j < |blocks| ensures blocks[i] != blocks[j] {
      TwoBlocks(at, blocks, BlockSize(e, g), i, j);
    }
  }

  /** The list_heads of the other blocks, and the pool's own, lie outside block `k`. */
  lemma OthersOutside(at: nat, blocks: seq<nat>, k: nat, size: nat, q: seq<nat>)
    requires Separate(at, blocks, size) && k < |blocks| && size >= CELL && q == [at + BLOCKS] + blocks[k + 1..]
    ensures forall i | 0 <= i < |q| :: q[i] + CELL <= blocks[k] || blocks[k] + size <= q[i]
  {
    forall i | 0 < i < |q| ensures q[i] + CELL <= blocks[k] || blocks[k] + size <= q[i] {
      assert q[i] == blocks[k + i] && Disjoint(blocks[k], size, blocks[k + i], size);
    }
  }

  /** What is freed with the blocks. */
  ghost function Extents(blocks: seq<nat>, size: nat): seq<Extent> {
    seq(|blocks|, i requires 0 <= i < |blocks| => Extent(blocks[i], size))
  }

  ghost predicate NoneLeft(w: map<nat, nat>, blocks: seq<nat>, size: nat) {
    forall i | 0 <= i < |blocks| :: NoWordIn(w, blocks[i], size)
  }

  /** No word comes back to the first `k` blocks when block `k` is unlinked, to be freed. */
  lemma FreedStay(w: map<nat, nat>, w': map<nat, nat>, at: nat, blocks: seq<nat>, k: nat, size: nat, r: seq<nat>)
    requires Separate(at, blocks, size) && k < |blocks| && size >= CELL && r == [at + BLOCKS] + blocks[k..]
    requires NoneLeft(w, blocks[..k], size) && OnlyAt(w, w', {r[1], Before(r, 1), After(r, 1)})
    ensures NoneLeft(Freed(w', blocks[k], size), blocks[..k + 1], size)
  {
    FreedIsEmpty(w', blocks[k], size);
    forall i | 0 <= i < k ensures NoWordIn(w', blocks[i], size) {
      assert NoWordIn(w, blocks[..k][i], size);
      LaterOutside(at, blocks, i, k, size, r);
      StaysEmpty(w, w', {r[1], Before(r, 1), After(r, 1)}, blocks[i], size);
    }
  }

  /** Freeing memory of the pool leaves all other memory as it is. */
  lemma BlockFreed(w: map<nat, nat>, w': map<nat, nat>, at: nat, blocks: seq<nat>, k: nat, size: nat)
    requires k < |blocks| && Elsewhere(w, w', at, blocks, size)
    ensures Elsewhere(w, Freed(w', blocks[k], size), at, blocks, size)
  {
    forall x: nat | Outside(x, at, blocks, size) ensures SameWord(w, Freed(w', blocks[k], size), x) {
      assert SameWord(w, w', x);
    }
  }

  lemma PoolFreed(w: map<nat, nat>, w': map<nat, nat>, at: nat, blocks: seq<nat>, size: nat)
    requires Elsewhere(w, w', at, blocks, size)
    ensures Elsewhere(w, Freed(w', at, POOL_SIZE), at, blocks, size)
  {
    forall x: nat | Outside(x, at, blocks, size) ensures SameWord(w, Freed(w', at, POOL_SIZE), x) {
      assert SameWord(w, w', x);
    }
  }

  /** The list_heads that are still linked lie outside the blocks freed before. */
  lemma LaterOutside(at: nat, blocks: seq<nat>, i: nat, k: nat, size: nat, r: seq<nat>)
    requires Separate(at, blocks, size) && i < k < |blocks| && size >= CELL && r == [at + BLOCKS] + blocks[k..]
    ensures forall j | 0 <= j < |r| :: r[j] + CELL <= blocks[i] || blocks[i] + size <= r[j]
  {
    OthersOutside(at, blocks, i, size, [at + BLOCKS] + blocks[i + 1..]);
    forall j | 0 <= j < |r| ensures r[j] + CELL <= blocks[i] || blocks[i] + size <= r[j] {
      if j > 0 {
        assert r[j] == ([at + BLOCKS] + blocks[i + 1..])[j + k - i - 1];
      }
    }
  }

  lemma NoWrap(g: nat, n: nat)
    requires g > 0 && g * n < U32
    ensures n % U32 == n && (g * n) % U32 == g * n
  {
    B.AtLeast2(g, 1, n);
  }

  lemma Times(g: nat, n: nat)
    requires n > 0
    ensures g * (n - 1) + g == g * n
  {
  }

  /** The rings `r` of free objects and `q` of blocks share no cell. */
  lemma Geometry(w: map<nat, nat>, at: nat, blocks: seq<nat>, spare: seq<nat>, e: nat, g: nat,
                 cells: set<nat>, r: seq<nat>)
    requires WellLinked(w, at, blocks, spare, e, g) && e >= CELL
    requires cells == Cells(at, blocks, e, g) && r == [at + AVAILABLE] + spare
    ensures AllApart(cells)
    ensures forall i | 0 <= i < |r| :: r[i] in cells && (i > 0 ==> r[i] in Objects(blocks, e, g))
    ensures var q := [at + BLOCKS] + blocks;
      forall i | 0 <= i < |q| :: q[i] in cells && q[i] !in Objects(blocks, e, g) && q[i] != at + AVAILABLE
    ensures forall x | x in Objects(blocks, e, g) :: x > 0 && x in cells && x != at + AVAILABLE
  {
    CellsApart(at, blocks, e, g);
    forall x | x in Objects(blocks, e, g) ensures x !in blocks {
      ObjectNoBlock(at, blocks, e, g, x);
    }
  }

  /** Stores around position `i` of the list of free objects. */
  lemma RingStores(w: map<nat, nat>, w': map<nat, nat>, at: nat, blocks: seq<nat>, spare: seq<nat>,
                   e: nat, g: nat, r: seq<nat>, i: nat)
    requires WellLinked(w, at, blocks, spare, e, g) && e >= CELL && r == [at + AVAILABLE] + spare && i < |r|
    requires SameOutside(w, w', {r[i], Before(r, i), After(r, i)})
    ensures Elsewhere(w, w', at, blocks, BlockSize(e, g))
  {
    Geometry(w, at, blocks, spare, e, g, Cells(at, blocks, e, g), r);
    CellStores(w, w', at, blocks, e, g, {r[i], Before(r, i), After(r, i)});
  }

  /** What is stored in the list of free objects does not touch the list of blocks. */
  lemma BlocksStay(w: map<nat, nat>, w': map<nat, nat>, at: nat, blocks: seq<nat>, spare: seq<nat>,
                   e: nat, g: nat, cells: set<nat>, r: seq<nat>, touched: set<nat>)
    requires WellLinked(w, at, blocks, spare, e, g) && e >= CELL
    requires cells == Cells(at, blocks, e, g) && r == [at + AVAILABLE] + spare && SameBut(w, w', cells, touched)
    requires forall c | c in touched :: c == at + AVAILABLE || c in Objects(blocks, e, g)
    ensures Ring(w', [at + BLOCKS] + blocks)
  {
    Geometry(w, at, blocks, spare, e, g, cells, r);
    RingStays(w, w', cells, touched, [at + BLOCKS] + blocks);
  }

  lemma AddedStores(w: map<nat, nat>, w': map<nat, nat>, elt: nat, at: nat, blocks: seq<nat>, spare: seq<nat>,
                    e: nat, g: nat, touched: set<nat>, r: seq<nat>)
    requires Separate(at, blocks, BlockSize(e, g)) && e >= CELL && elt in Objects(blocks, e, g)
    requires forall i | 0 <= i < |spare| :: spare[i] in Objects(blocks, e, g)
    requires r == [at + AVAILABLE] + spare && touched == {elt, at + AVAILABLE, After(r, 0)}
    requires SameOutside(w, w', touched)
    ensures Intact(w, w', at, blocks, [elt] + spare, e, g)
  {
    CellsApart(at, blocks, e, g);
    assert After(r, 0) == at + AVAILABLE || After(r, 0) == spare[0];
    ListStores(w, w', at, blocks, [elt] + spare, e, g, touched);
  }

  lemma TakenStores(w: map<nat, nat>, w': map<nat, nat>, at: nat, blocks: seq<nat>, spare: seq<nat>,
                    e: nat, g: nat, touched: set<nat>, r: seq<nat>)
    requires Separate(at, blocks, BlockSize(e, g)) && e >= CELL && spare != []
    requires forall i | 0 <= i < |spare| :: spare[i] in Objects(blocks, e, g)
    requires r == [at + AVAILABLE] + spare && touched == {r[1], r[0], After(r, 1)} && SameOutside(w, w', touched)
    ensures Intact(w, w', at, blocks, spare, e, g)
  {
    CellsApart(at, blocks, e, g);
    assert After(r, 1) == at + AVAILABLE || After(r, 1) == spare[1];
    ListStores(w, w', at, blocks, spare, e, g, touched);
  }

  lemma HeadFirst(head: nat, x: nat, s: seq<nat>)
    ensures [head, x] + ([head] + s)[1..] == [head] + ([x] + s)
  {
  }

  lemma ObjectAdded(w: map<nat, nat>, w': map<nat, nat>, elt: nat, at: nat, blocks: seq<nat>, spare: seq<nat>,
                    e: nat, g: nat, cells: set<nat>, r: seq<nat>, touched: set<nat>)
    requires WellLinked(w, at, blocks, spare, e, g) && e >= CELL && elt in Objects(blocks, e, g)
    requires cells == Cells(at, blocks, e, g) && r == [at + AVAILABLE] + spare
    requires touched == {elt, at + AVAILABLE, After(r, 0)}
    requires Ring(w', [at + AVAILABLE, elt] + r[1..])
    requires SameBut(w, w', cells, touched)
    ensures WellLinked(w', at, blocks, [elt] + spare, e, g)
  {
    assert After(r, 0) == at + AVAILABLE || After(r, 0) == spare[0];
    BlocksStay(w, w', at, blocks, spare, e, g, cells, r, touched);
    HeadFirst(at + AVAILABLE, elt, spare);
  }

  lemma ObjectTaken(w: map<nat, nat>, w': map<nat, nat>, at: nat, blocks: seq<nat>, spare: seq<nat>,
                    e: nat, g: nat, cells: set<nat>, r: seq<nat>, touched: set<nat>)
    requires WellLinked(w, at, blocks, spare, e, g) && e >= CELL && spare != []
    requires cells == Cells(at, blocks, e, g) && r == [at + AVAILABLE] + spare && touched == {r[1], r[0], After(r, 1)}
    requires Ring(w', Without(r, 1)) && SameBut(w, w', cells, touched)
    ensures WellLinked(w', at, blocks, spare[1..], e, g)
  {
    BlocksStay(w, w', at, blocks, spare, e, g, cells, r, touched);
    assert Without(r, 1) == [at + AVAILABLE] + spare[1..];
  }

  lemma FirstAdded(w: map<nat, nat>, w': map<nat, nat>, elt: nat, at: nat, blocks: seq<nat>, spare: seq<nat>,
                   e: nat, g: nat, cells: set<nat>, r: seq<nat>)
    requires WellLinked(w, at, blocks, spare, e, g) && e >= CELL && elt in Objects(blocks, e, g)
    requires cells == Cells(at, blocks, e, g) && r == [at + AVAILABLE] + spare
    requires Ring(w', [at + AVAILABLE, elt] + r[1..]) && SameBut(w, w', cells, {elt, at + AVAILABLE, After(r, 0)})
    requires SameOutside(w, w', {elt, at + AVAILABLE, After(r, 0)})
    ensures WellLinked(w', at, blocks, [elt] + spare, e, g) && Intact(w, w', at, blocks, [elt] + spare, e, g)
  {
    ObjectAdded(w, w', elt, at, blocks, spare, e, g, cells, r, {elt, at + AVAILABLE, After(r, 0)});
    AddedStores(w, w', elt, at, blocks, spare, e, g, {elt, at + AVAILABLE, After(r, 0)}, r);
  }

  lemma FirstTaken(w: map<nat, nat>, w': map<nat, nat>, at: nat, blocks: seq<nat>, spare: seq<nat>,
                   e: nat, g: nat, cells: set<nat>, r: seq<nat>)
    requires WellLinked(w, at, blocks, spare, e, g) && e >= CELL && spare != []
    requires cells == Cells(at, blocks, e, g) && r == [at + AVAILABLE] + spare
    requires Ring(w', Without(r, 1)) && SameBut(w, w', cells, {r[1], r[0], After(r, 1)})
    requires SameOutside(w, w', {r[1], r[0], After(r, 1)})
    ensures WellLinked(w', at, blocks, spare[1..], e, g) && Intact(w, w', at, blocks, spare, e, g)
  {
    ObjectTaken(w, w', at, blocks, spare, e, g, cells, r, {r[1], r[0], After(r, 1)});
    TakenStores(w, w', at, blocks, spare, e, g, {r[1], r[0], After(r, 1)}, r);
  }

  lemma MoreObjects(block: nat, blocks: seq<nat>, e: nat, g: nat)
    ensures Objects([block] + blocks, e, g) == Elems(block, e, g) + Objects(blocks, e, g)
  {
    assert ([block] + blocks)[1..] == blocks;
  }

  /** What a new block adds to the cells of a pool, as far as the lists are concerned. */
  lemma Enlarged(block: nat, at: nat, blocks: seq<nat>, spare: seq<nat>, e: nat, g: nat,
                 r: seq<nat>, q: seq<nat>, cells: set<nat>, touched: set<nat>)
    requires Separate(at, blocks, BlockSize(e, g)) && Fresh(block, at, blocks, BlockSize(e, g)) && e >= CELL
    requires forall i | 0 <= i < |spare| :: spare[i] in Objects(blocks, e, g)
    requires r == [at + BLOCKS] + blocks && q == [at + AVAILABLE] + spare
    requires cells == Cells(at, [block] + blocks, e, g) && touched == {block, at + BLOCKS, After(r, 0)}
    ensures Separate(at, [block] + blocks, BlockSize(e, g))
    ensures AllApart(cells) && block in cells && block !in r && forall i | 0 <= i < |r| :: r[i] in cells
    ensures forall i | 0 <= i < |q| :: q[i] in cells && q[i] !in touched
    ensures forall i | 0 <= i < |spare| :: spare[i] in Objects([block] + blocks, e, g)
  {
    var more := [block] + blocks;
    FreshSeparate(block, at, blocks, BlockSize(e, g));
    CellsApart(at, more, e, g);
    MoreObjects(block, blocks, e, g);
    FreshIsNew(block, at, blocks, e, g);
    forall i | 0 <= i < |spare| ensures spare[i] in Objects(more, e, g) && spare[i] !in more {
      ObjectNoBlock(at, more, e, g, spare[i]);
    }
    assert After(r, 0) in [at + BLOCKS] + more;
  }

  lemma CanAdd(w: map<nat, nat>, block: nat, at: nat, blocks: seq<nat>, spare: seq<nat>,
               e: nat, g: nat, r: seq<nat>, cells: set<nat>)
    requires WellLinked(w, at, blocks, spare, e, g) && Fresh(block, at, blocks, BlockSize(e, g)) && e >= CELL
    requires r == [at + BLOCKS] + blocks && cells == Cells(at, [block] + blocks, e, g)
    ensures AllApart(cells) && block in cells && block !in r && forall i | 0 <= i < |r| :: r[i] in cells
  {
    Enlarged(block, at, blocks, spare, e, g, r, [at + AVAILABLE] + spare, cells, {block, at + BLOCKS, After(r, 0)});
  }

  lemma BlockStores(w: map<nat, nat>, w': map<nat, nat>, block: nat, at: nat, blocks: seq<nat>, spare: seq<nat>,
                    e: nat, g: nat, r: seq<nat>, touched: set<nat>)
    requires Separate(at, [block] + blocks, BlockSize(e, g)) && e >= CELL && r == [at + BLOCKS] + blocks
    requires touched == {block, at + BLOCKS, After(r, 0)} && SameOutside(w, w', touched)
    ensures Intact(w, w', at, [block] + blocks, spare, e, g)
  {
    var more := [block] + blocks;
    CellsApart(at, more, e, g);
    forall c | c in touched ensures c in Cells(at, more, e, g) && c !in Objects(more, e, g) {
      if c in Objects(more, e, g) {
        ObjectNoBlock(at, more, e, g, c);
      }
    }
    ListStores(w, w', at, more, spare, e, g, touched);
  }

  lemma BlockAdded(w: map<nat, nat>, w': map<nat, nat>, block: nat, at: nat, blocks: seq<nat>, spare: seq<nat>,
                   e: nat, g: nat, r: seq<nat>, cells: set<nat>, touched: set<nat>)
    requires WellLinked(w, at, blocks, spare, e, g) && Fresh(block, at, blocks, BlockSize(e, g)) && e >= CELL
    requires r == [at + BLOCKS] + blocks && Ring(w', [at + BLOCKS, block] + r[1..])
    requires cells == Cells(at, [block] + blocks, e, g) && touched == {block, at + BLOCKS, After(r, 0)}
    requires SameBut(w, w', cells, touched) && SameOutside(w, w', touched)
    ensures WellLinked(w', at, [block] + blocks, spare, e, g)
    ensures Intact(w, w', at, [block] + blocks, spare, e, g)
  {
    var q := [at + AVAILABLE] + spare;
    Enlarged(block, at, blocks, spare, e, g, r, q, cells, touched);
    RingStays(w, w', cells, touched, q);
    assert [at + BLOCKS, block] + r[1..] == [at + BLOCKS] + ([block] + blocks);
    BlockStores(w, w', block, at, blocks, spare, e, g, r, touched);
  }

  lemma FreshIsNew(block: nat, at: nat, blocks: seq<nat>, e: nat, g: nat)
    requires Separate(at, blocks, BlockSize(e, g)) && Fresh(block, at, blocks, BlockSize(e, g))
    ensures block !in [at + BLOCKS] + blocks
  {
    forall i | 0 <= i < |blocks| ensures blocks[i] != block {
      }
  }

  lemma CarvedNext(block: nat, e: nat, i: nat, others: seq<nat>)
    ensures [Elem(block, i, e)] + (Elems(block, e, i) + others) == Elems(block, e, i + 1) + others
  {
  }

  /** The next object of the new block is neither carved already nor on the list. */
  lemma CarvedIsNew(blocks: seq<nat>, e: nat, g: nat, i: nat, others: seq<nat>)
    requires blocks != [] && i < g && e > 0 && Distinct(Objects(blocks, e, g))
    requires Among(others, Objects(blocks[1..], e, g))
    ensures Elem(blocks[0], i, e) in Objects(blocks, e, g)
    ensures Elem(blocks[0], i, e) !in Elems(blocks[0], e, i) + others
  {
    ObjectIn(blocks, e, g, 0, i);
    NotCarved(blocks[0], e, i, i);
    NotOther(blocks, e, g, i, others);
  }

  ghost predicate Among(s: seq<nat>, all: seq<nat>) {
    forall k | 0 <= k < |s| :: s[k] in all
  }

  lemma NotOther(blocks: seq<nat>, e: nat, g: nat, i: nat, others: seq<nat>)
    requires blocks != [] && i < g && Distinct(Objects(blocks, e, g))
    requires Among(others, Objects(blocks[1..], e, g))
    ensures Elem(blocks[0], i, e) !in others
  {
    var all, first, rest := Objects(blocks, e, g), Elems(blocks[0], e, g), Objects(blocks[1..], e, g);
    FirstObjects(blocks, e, g);
    ElemsAt(blocks[0], e, g, g - 1 - i);
    NotInRest(all, first, rest, g - 1 - i, others);
  }

  lemma FirstObjects(blocks: seq<nat>, e: nat, g: nat)
    requires blocks != []
    ensures Objects(blocks, e, g) == Elems(blocks[0], e, g) + Objects(blocks[1..], e, g)
  {
  }

  lemma {:induction false} NotCarved(b: nat, e: nat, i: nat, j: nat)
    requires e > 0 && i <= j
    ensures Elem(b, j, e) !in Elems(b, e, i)
  {
    if i > 0 {
      ElemsApart(b, i - 1, j, e);
      NotCarved(b, e, i - 1, j);
    }
  }

  lemma NotInRest(all: seq<nat>, a: seq<nat>, b: seq<nat>, i: nat, others: seq<nat>)
    requires all == a + b && Distinct(all) && i < |a| && Among(others, b)
    ensures a[i] !in b && a[i] !in others
  {
    forall j | 0 <= j < |b| ensures b[j] != a[i] {
      assert all[i] == a[i] && all[|a| + j] == b[j];
    }
  }

  /** pool_create: null if malloc fails; objects have room for the list_head of a free object. */
  method Create(mem: Memory, at: nat, growsize: nat, eltsize: nat) returns (pool: Pool?)
    modifies mem`word
    ensures at == 0 ==> pool == null && mem.word == old(mem.word)
    ensures at > 0 ==>
      && pool != null && fresh(pool) && pool.mem == mem && pool.at == at && pool.growsize == growsize
      && pool.eltsize == (if eltsize < CELL then CELL else eltsize)
      && pool.Valid() && pool.Contents() == State([], [], {})
      && Elsewhere(old(mem.word), mem.word, at, [], BlockSize(pool.eltsize, growsize))
  {
    if at == 0 {
      return null;
    }
    pool := new Pool(mem, at, growsize, if eltsize < CELL then CELL else eltsize);
  }

  /** pool_get(NULL) is null. */
  method PoolGet(pool: Pool?, block: nat) returns (res: nat)
    requires pool != null ==>
      pool.Valid() && (block == 0 || Fresh(block, pool.at, pool.blocks, BlockSize(pool.eltsize, pool.growsize)))
    modifies pool, (if pool == null then {} else {pool.mem})`word
    ensures pool == null ==> res == 0
    ensures pool != null ==>
      Elsewhere(old(pool.mem.word), pool.mem.word, pool.at, pool.blocks, BlockSize(pool.eltsize, pool.growsize))
    ensures pool != null ==> (res == 0 <==> old(pool.available) == 0 && block == 0)
    ensures pool != null && pool.growsize > 0 && res > 0 ==>
      res in pool.All() && res !in old(pool.held) && pool.held == old(pool.held) + {res}
    ensures pool != null && pool.growsize == 0 && res > 0 ==> res == pool.at + AVAILABLE
    ensures pool != null && (pool.growsize > 0 || block == 0) ==>
      && pool.Valid()
      && pool.Contents() == Step(old(pool.Contents()), GetOp(block), pool.eltsize, pool.growsize)
      && Kept(old(pool.mem.word), pool.mem.word, old(pool.held), pool.eltsize)
  {
    if pool == null {
      return 0;
    }
    res := pool.Get(block);
  }

  /** pool_destroy(NULL) does nothing. */
  method PoolDestroy(pool: Pool?)
    requires pool != null ==> pool.Valid()
    modifies if pool == null then {} else {pool.mem}
    ensures pool != null ==> var size := BlockSize(pool.eltsize, pool.growsize);
      && pool.mem.freed == old(pool.mem.freed) + Extents(pool.blocks, size) + [Extent(pool.at, POOL_SIZE)]
      && Distinct(pool.blocks + [pool.at])
      && NoneLeft(pool.mem.word, pool.blocks, size) && NoWordIn(pool.mem.word, pool.at, POOL_SIZE)
      && Elsewhere(old(pool.mem.word), pool.mem.word, pool.at, pool.blocks, size)
  {
    if pool == null {
      return;
    }
    pool.Destroy();
  }

  // ----- runs

  ghost function StateAfter(ops: seq<Op>, e: nat, g: nat): State {
    if ops == [] then State([], [], {}) else Step(StateAfter(ops[..|ops| - 1], e, g), ops[|ops| - 1], e, g)
  }

  ghost predicate AllowedRun(ops: seq<Op>, at: nat, e: nat, g: nat) {
    forall k | 0 <= k < |ops| :: Allowed(StateAfter(ops[..k], e, g), ops[k], at, e, g)
  }

  /** A word that the holder of an object stored in it. */
  datatype Stored = Stored(owner: nat, value: nat)

  ghost function StoredNext(before: map<nat, Stored>, op: Op): map<nat, Stored> {
    match op
    case GetOp(block) => before
    case AddOp(elt) => map a | a in before && before[a].owner != elt :: before[a]
    case UseOp(elt, a, v) => Put(before, a, Stored(elt, v))
  }

  /** What the holders last stored in the objects that they still hold. */
  ghost function StoredAfter(ops: seq<Op>): map<nat, Stored> {
    if ops == [] then map[] else StoredNext(StoredAfter(ops[..|ops| - 1]), ops[|ops| - 1])
  }

  /** All that was stored is still there. */
  ghost predicate Loadable(stored: map<nat, Stored>, w: map<nat, nat>, held: set<nat>, e: nat) {
    forall a | a in stored ::
      && stored[a].owner in held && stored[a].owner <= a && a + WORD <= stored[a].owner + e
      && a in w && w[a] == stored[a].value
  }

  lemma StillLoadable(stored: map<nat, Stored>, w: map<nat, nat>, w': map<nat, nat>,
                      held: set<nat>, now: set<nat>, e: nat)
    requires Loadable(stored, w, held, e) && Kept(w, w', now, e)
    requires forall a | a in stored :: stored[a].owner in now
    ensures Loadable(stored, w', now, e)
  {
    forall a | a in stored ensures a in w' && w'[a] == stored[a].value {
      assert SameBytes(w, w', stored[a].owner, e) && SameWord(w, w', a);
    }
  }

  method RunNext(pool: Pool, op: Op, ghost stored: map<nat, Stored>)
    requires pool.Valid() && Allowed(pool.Contents(), op, pool.at, pool.eltsize, pool.growsize)
    requires Loadable(stored, pool.mem.word, pool.held, pool.eltsize)
    modifies pool, pool.mem`word
    ensures pool.Valid() && pool.Contents() == Step(old(pool.Contents()), op, pool.eltsize, pool.growsize)
    ensures Loadable(StoredNext(stored, op), pool.mem.word, pool.held, pool.eltsize)
    ensures forall b | b in old(pool.blocks) :: b in pool.blocks
    ensures Elsewhere(old(pool.mem.word), pool.mem.word, pool.at, pool.blocks, BlockSize(pool.eltsize, pool.growsize))
  {
    ghost var w, held, next := pool.mem.word, pool.held, StoredNext(stored, op);
    match op {
      case GetOp(block) =>
        var res := pool.Get(block);
        assert held <= pool.held;
        StillLoadable(next, w, pool.mem.word, held, held, pool.eltsize);
      case AddOp(elt) =>
        var now := pool.Add(elt);
        StillLoadable(next, w, pool.mem.word, held, pool.held, pool.eltsize);
      case UseOp(elt, a, v) =>
        ObjectStore(w, pool.at, pool.blocks, pool.eltsize, pool.growsize, elt, a, v);
        pool.Use(elt, a, v);
    }
  }

  /**
   Any run of a new pool and of the holders of its objects keeps it valid, and so nothing is lost, handed out
   twice, or overlapping; the holders find in their objects what they stored there; and all memory that is not
   the pool's is as before.
   */
  method Run(pool: Pool, ops: seq<Op>)
    requires pool.Valid() && pool.Contents() == State([], [], {})
    requires AllowedRun(ops, pool.at, pool.eltsize, pool.growsize)
    modifies pool, pool.mem`word
    ensures pool.Valid() && pool.Contents() == StateAfter(ops, pool.eltsize, pool.growsize)
    ensures |pool.spare| + |pool.held| == pool.growsize * |pool.blocks|
    ensures Loadable(StoredAfter(ops), pool.mem.word, pool.held, pool.eltsize)
    ensures Elsewhere(old(pool.mem.word), pool.mem.word, pool.at, pool.blocks, BlockSize(pool.eltsize, pool.growsize))
  {
    ghost var size := BlockSize(pool.eltsize, pool.growsize);
    assert ops[..0] == [];
    for k := 0 to |ops|
      invariant pool.Valid() && pool.Contents() == StateAfter(ops[..k], pool.eltsize, pool.growsize)
      invariant Loadable(StoredAfter(ops[..k]), pool.mem.word, pool.held, pool.eltsize)
      invariant Elsewhere(old(pool.mem.word), pool.mem.word, pool.at, pool.blocks, size)
    {
      assert ops[..k + 1][..k] == ops[..k];
      ghost var w, blocks := pool.mem.word, pool.blocks;
      RunNext(pool, ops[k], StoredAfter(ops[..k]));
      ElsewhereMore(old(pool.mem.word), w, pool.at, blocks, pool.blocks, size);
      ElsewhereSince(old(pool.mem.word), w, pool.mem.word, pool.at, pool.blocks, size);
    }
    assert ops[..|ops|] == ops;
    pool.Conservation();
  }
}
