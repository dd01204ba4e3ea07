/**
 Lists in raw memory. A struct list_head is a cell of two words, and the address of the cell is
 the address of the object that it lies in. Storing a word destroys all words that it overlaps, and only
 words that were stored and not destroyed can be loaded.
 */
module Memory {
  import opened Sequences

  const WORD: nat := 8
  /** sizeof(struct list_head) */
  const CELL: nat := 16
  const POISON1: nat := 0x100
  const POISON2: nat := 0x200

  function Put<V>(w: map<nat, V>, a: nat, v: V): map<nat, V> {
    (map x | x in w && (x + WORD <= a || a + WORD <= x) :: w[x])[a := v]
  }

  function Freed(w: map<nat, nat>, a: nat, size: nat): map<nat, nat> {
    map x | x in w && (x + WORD <= a || a + size <= x) :: w[x]
  }

  /** A piece of memory. */
  datatype Extent = Extent(start: nat, size: nat)

  class Memory {
    var word: map<nat, nat>
    /** What was freed, in this order; only Free adds to it. */
    ghost var freed: seq<Extent>

    method Store(a: nat, v: nat)
      modifies this`word
      ensures word == Put(old(word), a, v)
    {
      word := Put(word, a, v);
    }

    /** free: the words of the freed memory can no longer be loaded. */
    method Free(a: nat, size: nat)
      modifies this
      ensures word == Freed(old(word), a, size) && freed == old(freed) + [Extent(a, size)]
    {
      word, freed := Freed(word, a, size), freed + [Extent(a, size)];
    }

    function Load(a: nat): nat
      requires a in word
      reads this
    {
      word[a]
    }
  }

  ghost predicate Apart(a: nat, b: nat) {
    a + CELL <= b || b + CELL <= a
  }

  ghost predicate AllApart(cells: set<nat>) {
    forall a, b {:trigger Apart(a, b)} | a in cells && b in cells && a != b :: Apart(a, b)
  }

  function After(r: seq<nat>, i: nat): nat
    requires i < |r|
  {
    if i + 1 < |r| then r[i + 1] else r[0]
  }

  function Before(r: seq<nat>, i: nat): nat
    requires i < |r|
  {
    if i > 0 then r[i - 1] else r[|r| - 1]
  }

  ghost predicate HasCell(w: map<nat, nat>, c: nat) {
    c in w && c + WORD in w
  }

  /** Position `i` of the circular list `r` is linked both ways. */
  ghost predicate LinkedAt(w: map<nat, nat>, r: seq<nat>, i: nat)
    requires i < |r|
  {
    HasCell(w, r[i]) && w[r[i]] == After(r, i) && w[r[i] + WORD] == Before(r, i)
  }

  /** The cells `r` of memory `w` form a circular list. */
  ghost predicate Ring(w: map<nat, nat>, r: seq<nat>) {
    r != [] && Distinct(r) && forall i | 0 <= i < |r| :: LinkedAt(w, r, i)
  }

  ghost predicate SameWord(w: map<nat, nat>, w': map<nat, nat>, x: nat) {
    (x in w <==> x in w') && (x in w ==> w[x] == w'[x])
  }

  ghost predicate SameCell(w: map<nat, nat>, w': map<nat, nat>, c: nat) {
    SameWord(w, w', c) && SameWord(w, w', c + WORD)
  }

  /** The word at `x` overlaps no cell of `touched`. */
  ghost predicate Clear(x: nat, touched: set<nat>) {
    forall c | c in touched :: x + WORD <= c || c + CELL <= x
  }

  /** All words that overlap no cell of `touched` are as before. */
  ghost predicate SameOutside(w: map<nat, nat>, w': map<nat, nat>, touched: set<nat>) {
    forall x {:trigger SameWord(w, w', x)} | Clear(x, touched) :: SameWord(w, w', x)
  }

  /** All cells but those in `touched` are as before. */
  ghost predicate SameBut(w: map<nat, nat>, w': map<nat, nat>, cells: set<nat>, touched: set<nat>) {
    forall c | c in cells && c !in touched :: SameCell(w, w', c)
  }

  lemma CellsOutside(w: map<nat, nat>, w': map<nat, nat>, cells: set<nat>, touched: set<nat>)
    requires SameOutside(w, w', touched) && AllApart(cells) && touched <= cells
    ensures SameBut(w, w', cells, touched)
  {
    forall c | c in cells && c !in touched ensures SameCell(w, w', c) {
      assert forall t | t in touched :: Apart(c, t);
      assert Clear(c, touched) && Clear(c + WORD, touched);
    }
  }

  lemma RingStays(w: map<nat, nat>, w': map<nat, nat>, cells: set<nat>, touched: set<nat>, r: seq<nat>)
    requires Ring(w, r) && SameBut(w, w', cells, touched)
    requires forall i | 0 <= i < |r| :: r[i] in cells && r[i] !in touched
    ensures Ring(w', r)
  {
    forall i | 0 <= i < |r| ensures LinkedAt(w', r, i) {
      assert LinkedAt(w, r, i) && SameCell(w, w', r[i]);
    }
  }

  lemma PutElsewhere(w: map<nat, nat>, a: nat, v: nat, x: nat)
    requires x + WORD <= a || a + WORD <= x
    ensures SameWord(w, Put(w, a, v), x)
  {
  }

  lemma FreedElsewhere(w: map<nat, nat>, a: nat, size: nat, c: nat)
    requires c + CELL <= a || a + size <= c
    ensures SameCell(w, Freed(w, a, size), c)
  {
  }

  lemma FreedRing(w: map<nat, nat>, a: nat, size: nat, r: seq<nat>)
    requires Ring(w, r) && forall i | 0 <= i < |r| :: r[i] + CELL <= a || a + size <= r[i]
    ensures Ring(Freed(w, a, size), r)
  {
    forall i | 0 <= i < |r| ensures LinkedAt(Freed(w, a, size), r, i) {
      FreedElsewhere(w, a, size, r[i]);
      assert LinkedAt(w, r, i);
    }
  }

  /** No word that overlaps the `size` bytes at `a` can be loaded. */
  ghost predicate NoWordIn(w: map<nat, nat>, a: nat, size: nat) {
    forall x | x in w :: x + WORD <= a || a + size <= x
  }

  /** Words that could not be loaded before belong to the cells of `touched`. */
  ghost predicate OnlyAt(w: map<nat, nat>, w': map<nat, nat>, touched: set<nat>) {
    forall x | x in w' && x !in w :: x in touched || (x >= WORD && x - WORD in touched)
  }

  lemma StaysEmpty(w: map<nat, nat>, w': map<nat, nat>, touched: set<nat>, a: nat, size: nat)
    requires NoWordIn(w, a, size) && OnlyAt(w, w', touched)
    requires forall c | c in touched :: c + CELL <= a || a + size <= c
    ensures NoWordIn(w', a, size)
  {
    forall x | x in w' ensures x + WORD <= a || a + size <= x {
      assert x in w || x in touched || (x >= WORD && x - WORD in touched);
    }
  }

  lemma FreedIsEmpty(w: map<nat, nat>, a: nat, size: nat)
    ensures NoWordIn(Freed(w, a, size), a, size)
    ensures forall b, s | NoWordIn(w, b, s) :: NoWordIn(Freed(w, a, size), b, s)
  {
  }

  /** The stores of __list_add. */
  function Linked(w: map<nat, nat>, entry: nat, prev: nat, next: nat): map<nat, nat> {
    Put(Put(Put(Put(w, next + WORD, entry), entry, next), entry + WORD, prev), prev, entry)
  }

  lemma LinkedElsewhere(w: map<nat, nat>, entry: nat, prev: nat, next: nat)
    ensures SameOutside(w, Linked(w, entry, prev, next), {entry, prev, next})
  {
    forall x | Clear(x, {entry, prev, next}) ensures SameWord(w, Linked(w, entry, prev, next), x) {
      assert Clear(x, {entry}) && Clear(x, {prev}) && Clear(x, {next});
      var w1 := Put(w, next + WORD, entry);
      var w2 := Put(w1, entry, next);
      var w3 := Put(w2, entry + WORD, prev);
      PutElsewhere(w, next + WORD, entry, x);
      PutElsewhere(w1, entry, next, x);
      PutElsewhere(w2, entry + WORD, prev, x);
      PutElsewhere(w3, prev, entry, x);
    }
  }

  /** `entry` stands between `prev` and `next`, whose outer links are as before. */
  ghost predicate Between(w: map<nat, nat>, w': map<nat, nat>, entry: nat, prev: nat, next: nat)
    requires HasCell(w, prev) && HasCell(w, next)
  {
    && HasCell(w', entry) && w'[entry] == next && w'[entry + WORD] == prev
    && HasCell(w', prev) && w'[prev] == entry && (prev != next ==> w'[prev + WORD] == w[prev + WORD])
    && HasCell(w', next) && w'[next + WORD] == entry && (prev != next ==> w'[next] == w[next])
  }

  lemma LinkedHere(w: map<nat, nat>, entry: nat, prev: nat, next: nat)
    requires Apart(entry, prev) && Apart(entry, next) && (prev == next || Apart(prev, next))
    requires HasCell(w, prev) && HasCell(w, next)
    ensures Between(w, Linked(w, entry, prev, next), entry, prev, next)
  {
  }

  /** The node at position `i` of the new ring is linked as it should be. */
  lemma InsertedAt(w: map<nat, nat>, w': map<nat, nat>, r: seq<nat>, entry: nat, i: nat)
    requires Ring(w, r) && entry !in r && i <= |r|
    requires HasCell(w, r[0]) && HasCell(w, After(r, 0)) && Between(w, w', entry, r[0], After(r, 0))
    requires i > 2 ==> SameCell(w, w', r[i - 1])
    ensures var q := [r[0], entry] + r[1..]; LinkedAt(w', q, i)
  {
    var q := [r[0], entry] + r[1..];
    assert LinkedAt(w, r, 0);
    if i > 1 {
      assert q[i] == r[i - 1] && LinkedAt(w, r, i - 1);
    }
  }

  /** Inserting an entry behind the head `r[0]`. */
  lemma LinkedRing(w: map<nat, nat>, r: seq<nat>, entry: nat, prev: nat, next: nat, cells: set<nat>)
    requires Ring(w, r) && AllApart(cells) && entry in cells && entry !in r && prev == r[0] && next == After(r, 0)
    requires forall i | 0 <= i < |r| :: r[i] in cells
    ensures HasCell(w, prev) && w[prev] == next
    ensures Ring(Linked(w, entry, prev, next), [prev, entry] + r[1..])
    ensures SameOutside(w, Linked(w, entry, prev, next), {entry, prev, next})
    ensures SameBut(w, Linked(w, entry, prev, next), cells, {entry, prev, next})
  {
    var w' := Linked(w, entry, prev, next);
    LinkedElsewhere(w, entry, prev, next);
    CellsOutside(w, w', cells, {entry, prev, next});
    assert LinkedAt(w, r, 0) && LinkedAt(w, r, if |r| > 1 then 1 else 0);
    LinkedHere(w, entry, prev, next);
    InsertedRing(w, w', r, entry, cells);
  }

  lemma InsertedRing(w: map<nat, nat>, w': map<nat, nat>, r: seq<nat>, entry: nat, cells: set<nat>)
    requires Ring(w, r) && entry !in r && (forall i | 0 <= i < |r| :: r[i] in cells)
    requires HasCell(w, r[0]) && HasCell(w, After(r, 0)) && Between(w, w', entry, r[0], After(r, 0))
    requires SameBut(w, w', cells, {entry, r[0], After(r, 0)})
    ensures Ring(w', [r[0], entry] + r[1..])
  {
    var q := [r[0], entry] + r[1..];
    forall i | 0 <= i < |q| ensures LinkedAt(w', q, i) {
      if i > 2 {
        assert r[i - 1] in cells && r[i - 1] !in {entry, r[0], After(r, 0)};
      }
      InsertedAt(w, w', r, entry, i);
    }
  }

  /** __list_add */
  method AddBetween(mem: Memory, entry: nat, prev: nat, next: nat)
    modifies mem`word
    ensures mem.word == Linked(old(mem.word), entry, prev, next)
  {
    mem.Store(next + WORD, entry);
    mem.Store(entry, next);
    mem.Store(entry + WORD, prev);
    mem.Store(prev, entry);
  }

  /** list_add */
  method ListAdd(mem: Memory, entry: nat, head: nat, ghost r: seq<nat>, ghost cells: set<nat>)
    requires Ring(mem.word, r) && head == r[0] && AllApart(cells) && entry in cells && entry !in r
    requires forall i | 0 <= i < |r| :: r[i] in cells
    modifies mem`word
    ensures Ring(mem.word, [head, entry] + r[1..])
    ensures SameBut(old(mem.word), mem.word, cells, {entry, head, After(r, 0)})
    ensures SameOutside(old(mem.word), mem.word, {entry, head, After(r, 0)})
  {
    ghost var w, after := mem.word, After(r, 0);
    LinkedRing(w, r, entry, head, after, cells);
    var next := mem.Load(head);
    AddBetween(mem, entry, head, next);
  }

  /** The stores of list_del. */
  function Unlinked(w: map<nat, nat>, entry: nat, prev: nat, next: nat): map<nat, nat> {
    Put(Put(Put(Put(w, next + WORD, prev), prev, next), entry, POISON1), entry + WORD, POISON2)
  }

  lemma UnlinkedElsewhere(w: map<nat, nat>, entry: nat, prev: nat, next: nat)
    ensures SameOutside(w, Unlinked(w, entry, prev, next), {entry, prev, next})
  {
    forall x | Clear(x, {entry, prev, next}) ensures SameWord(w, Unlinked(w, entry, prev, next), x) {
      assert Clear(x, {entry}) && Clear(x, {prev}) && Clear(x, {next});
      var w1 := Put(w, next + WORD, prev);
      var w2 := Put(w1, prev, next);
      var w3 := Put(w2, entry, POISON1);
      PutElsewhere(w, next + WORD, prev, x);
      PutElsewhere(w1, prev, next, x);
      PutElsewhere(w2, entry, POISON1, x);
      PutElsewhere(w3, entry + WORD, POISON2, x);
    }
  }

  lemma UnlinkedOnly(w: map<nat, nat>, entry: nat, prev: nat, next: nat)
    ensures OnlyAt(w, Unlinked(w, entry, prev, next), {entry, prev, next})
  {
  }

  /** `prev` and `next` are neighbours; their outer links are as before. */
  ghost predicate Joined(w: map<nat, nat>, w': map<nat, nat>, prev: nat, next: nat)
    requires HasCell(w, prev) && HasCell(w, next)
  {
    && HasCell(w', prev) && w'[prev] == next && (prev != next ==> w'[prev + WORD] == w[prev + WORD])
    && HasCell(w', next) && w'[next + WORD] == prev && (prev != next ==> w'[next] == w[next])
  }

  lemma UnlinkedHere(w: map<nat, nat>, entry: nat, prev: nat, next: nat)
    requires Apart(entry, prev) && Apart(entry, next) && (prev == next || Apart(prev, next))
    requires HasCell(w, prev) && HasCell(w, next)
    ensures Joined(w, Unlinked(w, entry, prev, next), prev, next)
  {
  }

  lemma RemovedAt(w: map<nat, nat>, w': map<nat, nat>, r: seq<nat>, e: nat, i: nat)
    requires Ring(w, r) && e < |r| && i < |r| - 1
    requires HasCell(w, Before(r, e)) && HasCell(w, After(r, e)) && Joined(w, w', Before(r, e), After(r, e))
    requires r[if i < e then i else i + 1] !in {Before(r, e), After(r, e)} ==>
      SameCell(w, w', r[if i < e then i else i + 1])
    ensures var q := Without(r, e); LinkedAt(w', q, i)
  {
    var q := Without(r, e);
    var k := if i < e then i else i + 1;
    assert q[i] == r[k] && LinkedAt(w, r, k);
  }

  lemma RemovedRing(w: map<nat, nat>, w': map<nat, nat>, r: seq<nat>, e: nat, cells: set<nat>)
    requires Ring(w, r) && e < |r| && |r| > 1 && (forall i | 0 <= i < |r| :: r[i] in cells)
    requires HasCell(w, Before(r, e)) && HasCell(w, After(r, e)) && Joined(w, w', Before(r, e), After(r, e))
    requires SameBut(w, w', cells, {r[e], Before(r, e), After(r, e)})
    ensures Ring(w', Without(r, e)) && r[e] !in Without(r, e)
  {
    var q := Without(r, e);
    forall i | 0 <= i < |q| ensures LinkedAt(w', q, i) {
      var k := if i < e then i else i + 1;
      assert r[k] in cells && r[k] != r[e];
      RemovedAt(w, w', r, e, i);
    }
  }

  /** Removing the entry at position `e`. */
  lemma UnlinkedRing(w: map<nat, nat>, r: seq<nat>, e: nat, entry: nat, prev: nat, next: nat, cells: set<nat>)
    requires Ring(w, r) && AllApart(cells) && e < |r| && |r| > 1
    requires entry == r[e] && prev == Before(r, e) && next == After(r, e)
    requires forall i | 0 <= i < |r| :: r[i] in cells
    ensures Ring(Unlinked(w, entry, prev, next), Without(r, e)) && entry !in Without(r, e)
    ensures SameBut(w, Unlinked(w, entry, prev, next), cells, {entry, prev, next})
  {
    var w' := Unlinked(w, entry, prev, next);
    UnlinkedElsewhere(w, entry, prev, next);
    CellsOutside(w, w', cells, {entry, prev, next});
    assert LinkedAt(w, r, if e > 0 then e - 1 else |r| - 1) && LinkedAt(w, r, if e + 1 < |r| then e + 1 else 0);
    assert Apart(entry, prev) && Apart(entry, next) && (prev == next || Apart(prev, next));
    UnlinkedHere(w, entry, prev, next);
    RemovedRing(w, w', r, e, cells);
  }

  /** __list_del */
  method DelBetween(mem: Memory, prev: nat, next: nat)
    modifies mem`word
    ensures mem.word == Put(Put(old(mem.word), next + WORD, prev), prev, next)
  {
    mem.Store(next + WORD, prev);
    mem.Store(prev, next);
  }

  /** list_del: the others, if any, form a ring without the entry. */
  method ListDel(mem: Memory, entry: nat, ghost r: seq<nat>, ghost e: nat, ghost cells: set<nat>)
    requires Ring(mem.word, r) && e < |r| && entry == r[e] && AllApart(cells)
    requires forall i | 0 <= i < |r| :: r[i] in cells
    modifies mem`word
    ensures |r| > 1 ==> Ring(mem.word, Without(r, e)) && entry !in Without(r, e)
    ensures |r| > 1 ==> SameBut(old(mem.word), mem.word, cells, {entry, Before(r, e), After(r, e)})
    ensures SameOutside(old(mem.word), mem.word, {entry, Before(r, e), After(r, e)})
    ensures OnlyAt(old(mem.word), mem.word, {entry, Before(r, e), After(r, e)})
    ensures HasCell(mem.word, entry) && mem.word[entry] == POISON1 && mem.word[entry + WORD] == POISON2
  {
    ghost var w, before, after := mem.word, Before(r, e), After(r, e);
    assert HasCell(w, entry) && w[entry] == after && w[entry + WORD] == before by {
      assert LinkedAt(w, r, e);
    }
    var prev, next := mem.Load(entry + WORD), mem.Load(entry);
    DelBetween(mem, prev, next);
    mem.Store(entry, POISON1);
    mem.Store(entry + WORD, POISON2);
    UnlinkedElsewhere(w, entry, before, after);
    UnlinkedOnly(w, entry, before, after);
    if |r| > 1 {
      UnlinkedRing(w, r, e, entry, before, after, cells);
    }
  }

  /** INIT_LIST_HEAD */
  method InitListHead(mem: Memory, head: nat, ghost cells: set<nat>)
    requires AllApart(cells) && head in cells
    modifies mem`word
    ensures Ring(mem.word, [head])
    ensures SameBut(old(mem.word), mem.word, cells, {head}) && SameOutside(old(mem.word), mem.word, {head})
  {
    ghost var w := mem.word;
    mem.Store(head, head);
    ghost var w1 := mem.word;
    mem.Store(head + WORD, head);
    forall x | Clear(x, {head}) ensures SameWord(w, mem.word, x) {
      PutElsewhere(w, head, head, x);
      PutElsewhere(w1, head + WORD, head, x);
    }
    forall c | c in cells && c != head ensures SameCell(w, mem.word, c) {
      assert Apart(c, head);
      assert Clear(c, {head}) && Clear(c + WORD, {head});
    }
  }
}
