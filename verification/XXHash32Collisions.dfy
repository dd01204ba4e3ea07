/**
 Every step of xxh32 can be undone, so two messages of the same length that differ in one
 aligned 4-byte lane only, or in one byte after the last whole lane only, never collide.
 */
module XXHash32Collisions {
  import opened Buffers
  import opened XXHash32
  import opened XXHash32Words

  /** The messages differ in lane `j`, the bytes from `4 * j` to `4 * j + 4`, and nowhere else. */
  ghost predicate DifferInLane(m: seq<byte>, n: seq<byte>, j: nat) {
    && |m| == |n| && 4 * j + 4 <= |m|
    && m[..4 * j] == n[..4 * j] && m[4 * j + 4..] == n[4 * j + 4..]
    && m[4 * j..4 * j + 4] != n[4 * j..4 * j + 4]
  }

  /** The messages differ in byte `i`, which is past the last whole lane, and nowhere else. */
  ghost predicate DifferInTail(m: seq<byte>, n: seq<byte>, i: nat) {
    && |m| == |n| && |m| - |m| % 4 <= i < |m|
    && m[..i] == n[..i] && m[i + 1..] == n[i + 1..] && m[i] != n[i]
  }

  /** Exactly one of the four lanes differs. */
  ghost predicate OneLaneDiffers(k: Lanes, l: Lanes) {
    || (k.v1 != l.v1 && k.v2 == l.v2 && k.v3 == l.v3 && k.v4 == l.v4)
    || (k.v1 == l.v1 && k.v2 != l.v2 && k.v3 == l.v3 && k.v4 == l.v4)
    || (k.v1 == l.v1 && k.v2 == l.v2 && k.v3 != l.v3 && k.v4 == l.v4)
    || (k.v1 == l.v1 && k.v2 == l.v2 && k.v3 == l.v3 && k.v4 != l.v4)
  }

  // ----- single steps

  lemma RoundDiffers(a: Alu, s: u32, t: u32, x: u32, y: u32)
    requires Undoable(a) && (s == t <==> x != y)
    ensures Round(a, s, x) != Round(a, t, y)
  {
    assert MulUndoable(a, PRIME32_1) && MulUndoable(a, PRIME32_2) && RotlUndoable(a, 13) && AddUndoable(a);
    var p, q := a.mul(x, PRIME32_2), a.mul(y, PRIME32_2);
    if s == t {
      assert p != q;
      assert a.add(s, p) != a.add(s, q);
    } else {
      assert a.add(s, p) != a.add(t, p);
    }
  }

  lemma ConvergeDiffers(a: Alu, k: Lanes, l: Lanes)
    requires Undoable(a) && OneLaneDiffers(k, l)
    ensures Converge(a, k) != Converge(a, l)
  {
    assert AddUndoable(a);
    assert RotlUndoable(a, 1) && RotlUndoable(a, 7) && RotlUndoable(a, 12) && RotlUndoable(a, 18);
  }

  lemma TailWordDiffers(a: Alu, g: u32, h: u32, x: u32, y: u32)
    requires Undoable(a) && (g == h <==> x != y)
    ensures TailWord(a, g, x) != TailWord(a, h, y)
  {
    assert MulUndoable(a, PRIME32_3) && MulUndoable(a, PRIME32_4) && RotlUndoable(a, 17) && AddUndoable(a);
    var p, q := a.mul(x, PRIME32_3), a.mul(y, PRIME32_3);
    assert g == h ==> p != q;
    assert a.add(g, p) != a.add(h, q);
  }

  lemma TailByteDiffers(a: Alu, g: u32, h: u32, x: byte, y: byte)
    requires Undoable(a) && (g == h <==> x != y)
    ensures TailByte(a, g, x) != TailByte(a, h, y)
  {
    assert MulUndoable(a, PRIME32_5) && MulUndoable(a, PRIME32_1) && RotlUndoable(a, 11) && AddUndoable(a);
    var p, q := a.mul(x, PRIME32_5), a.mul(y, PRIME32_5);
    assert g == h ==> p != q;
    assert a.add(g, p) != a.add(h, q);
  }

  lemma AvalancheDiffers(a: Alu, g: u32, h: u32)
    requires Undoable(a) && g != h
    ensures Avalanche(a, g) != Avalanche(a, h)
  {
    assert XorShiftUndoable(a, 15) && XorShiftUndoable(a, 13) && XorShiftUndoable(a, 16);
    assert MulUndoable(a, PRIME32_2) && MulUndoable(a, PRIME32_3);
    var g1, h1 := a.mul(a.xor(g, a.shr(g, 15)), PRIME32_2), a.mul(a.xor(h, a.shr(h, 15)), PRIME32_2);
    assert g1 != h1;
    var g2, h2 := a.mul(a.xor(g1, a.shr(g1, 13)), PRIME32_3), a.mul(a.xor(h1, a.shr(h1, 13)), PRIME32_3);
    assert g2 != h2;
  }

  // ----- whole loops

  /** A difference between the hash values before the tail survives the tail. */
  lemma {:induction false} TailKeepsDifference(a: Alu, g: u32, h: u32, m: seq<byte>)
    requires Undoable(a) && g != h
    ensures Tail(a, g, m) != Tail(a, h, m)
    decreases |m|
  {
    if |m| >= 4 {
      var x := a.load(m[..4]);
      TailWordDiffers(a, g, h, x, x);
      TailKeepsDifference(a, TailWord(a, g, x), TailWord(a, h, x), m[4..]);
    } else if |m| > 0 {
      TailByteDiffers(a, g, h, m[0], m[0]);
      TailKeepsDifference(a, TailByte(a, g, m[0]), TailByte(a, h, m[0]), m[1..]);
    }
  }

  lemma {:induction false} LaneInTail(a: Alu, h: u32, m: seq<byte>, n: seq<byte>, j: nat)
    requires Undoable(a) && DifferInLane(m, n, j)
    ensures Tail(a, h, m) != Tail(a, h, n)
    decreases |m|
  {
    if j == 0 {
      assert m[0..4] == m[..4] && n[0..4] == n[..4];
      assert LoadUndoable(a) && a.load(m[..4]) != a.load(n[..4]);
      TailWordDiffers(a, h, h, a.load(m[..4]), a.load(n[..4]));
      TailKeepsDifference(a, TailWord(a, h, a.load(m[..4])), TailWord(a, h, a.load(n[..4])), m[4..]);
    } else {
      DropLane(m, n, j, 1);
      assert m[..4] == n[..4];
      LaneInTail(a, TailWord(a, h, a.load(m[..4])), m[4..], n[4..], j - 1);
    }
  }

  /** Without `k` common lanes in front, the difference moves forward by `k`. */
  lemma DropLane(m: seq<byte>, n: seq<byte>, j: nat, k: nat)
    requires DifferInLane(m, n, j) && k <= j
    ensures m[..4 * k] == n[..4 * k]
    ensures DifferInLane(m[4 * k..], n[4 * k..], j - k)
  {
    assert m[..4 * j][..4 * k] == m[..4 * k] && n[..4 * j][..4 * k] == n[..4 * k];
    var x, y, i := m[4 * k..], n[4 * k..], 4 * (j - k);
    assert x[..i] == m[..4 * j][4 * k..] && y[..i] == n[..4 * j][4 * k..];
    assert x[i + 4..] == m[4 * j + 4..] && y[i + 4..] == n[4 * j + 4..];
    assert x[i..i + 4] == m[4 * j..4 * j + 4] && y[i..i + 4] == n[4 * j..4 * j + 4];
  }

  lemma {:induction false} ByteInTail(a: Alu, h: u32, m: seq<byte>, n: seq<byte>, i: nat)
    requires Undoable(a) && DifferInTail(m, n, i)
    ensures Tail(a, h, m) != Tail(a, h, n)
    decreases |m|
  {
    if |m| >= 4 {
      DropBytes(m, n, i, 4);
      ByteInTail(a, TailWord(a, h, a.load(m[..4])), m[4..], n[4..], i - 4);
    } else if i > 0 {
      DropBytes(m, n, i, 1);
      ByteInTail(a, TailByte(a, h, m[0]), m[1..], n[1..], i - 1);
    } else {
      TailByteDiffers(a, h, h, m[0], n[0]);
      TailKeepsDifference(a, TailByte(a, h, m[0]), TailByte(a, h, n[0]), m[1..]);
    }
  }

  lemma DropBytes(m: seq<byte>, n: seq<byte>, i: nat, k: nat)
    requires DifferInTail(m, n, i) && k <= i && (k % 4 == 0 || |m| < 4)
    ensures m[..k] == n[..k]
    ensures DifferInTail(m[k..], n[k..], i - k)
  {
    assert m[..i][..k] == m[..k] && n[..i][..k] == n[..k];
    var x, y := m[k..], n[k..];
    assert x[..i - k] == m[..i][k..] && y[..i - k] == n[..i][k..];
    assert x[i - k + 1..] == m[i + 1..] && y[i - k + 1..] == n[i + 1..];
  }

  /** Lanes that differ in one place still do after any number of stripes. */
  lemma {:induction false} StripesKeepDifference(a: Alu, k: Lanes, l: Lanes, m: seq<byte>)
    requires Undoable(a) && OneLaneDiffers(k, l)
    ensures OneLaneDiffers(Stripes(a, k, m), Stripes(a, l, m))
    decreases |m|
  {
    if |m| >= 16 {
      StripeKeepsDifference(a, k, l, m);
      StripesKeepDifference(a, Stripe(a, k, m), Stripe(a, l, m), m[16..]);
    }
  }

  lemma StripeKeepsDifference(a: Alu, k: Lanes, l: Lanes, m: seq<byte>)
    requires Undoable(a) && OneLaneDiffers(k, l) && |m| >= 16
    ensures OneLaneDiffers(Stripe(a, k, m), Stripe(a, l, m))
  {
    if k.v1 != l.v1 {
      RoundDiffers(a, k.v1, l.v1, a.load(m[0..4]), a.load(m[0..4]));
    } else if k.v2 != l.v2 {
      RoundDiffers(a, k.v2, l.v2, a.load(m[4..8]), a.load(m[4..8]));
    } else if k.v3 != l.v3 {
      RoundDiffers(a, k.v3, l.v3, a.load(m[8..12]), a.load(m[8..12]));
    } else {
      RoundDiffers(a, k.v4, l.v4, a.load(m[12..16]), a.load(m[12..16]));
    }
  }

  lemma StripeDiffers(a: Alu, l: Lanes, m: seq<byte>, n: seq<byte>, j: nat)
    requires Undoable(a) && DifferInLane(m, n, j) && j < 4 && |m| >= 16
    ensures OneLaneDiffers(Stripe(a, l, m), Stripe(a, l, n)) && m[16..] == n[16..]
  {
    LoadsDiffer(a, m, n, j);
    assert m[16..] == m[4 * j + 4..][12 - 4 * j..] && n[16..] == n[4 * j + 4..][12 - 4 * j..];
    if j == 0 {
      RoundDiffers(a, l.v1, l.v1, a.load(m[0..4]), a.load(n[0..4]));
    } else if j == 1 {
      RoundDiffers(a, l.v2, l.v2, a.load(m[4..8]), a.load(n[4..8]));
    } else if j == 2 {
      RoundDiffers(a, l.v3, l.v3, a.load(m[8..12]), a.load(n[8..12]));
    } else {
      RoundDiffers(a, l.v4, l.v4, a.load(m[12..16]), a.load(n[12..16]));
    }
  }

  lemma SameLane(m: seq<byte>, n: seq<byte>, j: nat, i: nat)
    requires DifferInLane(m, n, j) && i != j && 4 * i + 4 <= |m|
    ensures m[4 * i..4 * i + 4] == n[4 * i..4 * i + 4]
  {
    var x, y := m[4 * i..4 * i + 4], n[4 * i..4 * i + 4];
    forall k | 0 <= k < 4 ensures x[k] == y[k] {
      if i < j {
        assert m[..4 * j][4 * i + k] == n[..4 * j][4 * i + k];
      } else {
        var o := 4 * i + k - (4 * j + 4);
        assert m[4 * j + 4..][o] == n[4 * j + 4..][o];
      }
    }
  }

  lemma LoadsDiffer(a: Alu, m: seq<byte>, n: seq<byte>, j: nat)
    requires Undoable(a) && DifferInLane(m, n, j) && j < 4 && |m| >= 16
    ensures j == 0 <==> a.load(m[0..4]) != a.load(n[0..4])
    ensures j == 1 <==> a.load(m[4..8]) != a.load(n[4..8])
    ensures j == 2 <==> a.load(m[8..12]) != a.load(n[8..12])
    ensures j == 3 <==> a.load(m[12..16]) != a.load(n[12..16])
  {
    assert LoadUndoable(a);
    if j != 0 { SameLane(m, n, j, 0); }
    if j != 1 { SameLane(m, n, j, 1); }
    if j != 2 { SameLane(m, n, j, 2); }
    if j != 3 { SameLane(m, n, j, 3); }
  }

  /** A difference in one lane ends up in one accumulator, or else in one lane `i` of the rest. */
  lemma {:induction false} LaneInMessage(a: Alu, l: Lanes, m: seq<byte>, n: seq<byte>, j: nat)
    returns (inStripe: bool, i: nat)
    requires Undoable(a) && DifferInLane(m, n, j)
    ensures inStripe ==> OneLaneDiffers(Stripes(a, l, m), Stripes(a, l, n)) && |m| >= 16 && Rest(m) == Rest(n)
    ensures !inStripe ==> Stripes(a, l, m) == Stripes(a, l, n) && DifferInLane(Rest(m), Rest(n), i)
    decreases |m|
  {
    if |m| < 16 {
      inStripe, i := false, j;
    } else if j < 4 {
      StripeDiffers(a, l, m, n, j);
      StripesKeepDifference(a, Stripe(a, l, m), Stripe(a, l, n), m[16..]);
      inStripe, i := true, 0;
    } else {
      DropLane(m, n, j, 4);
      SameStripe(a, l, m, n);
      inStripe, i := LaneInMessage(a, Stripe(a, l, m), m[16..], n[16..], j - 4);
    }
  }

  lemma SameStripe(a: Alu, l: Lanes, m: seq<byte>, n: seq<byte>)
    requires |m| >= 16 && |n| >= 16 && m[..16] == n[..16]
    ensures Stripe(a, l, m) == Stripe(a, l, n)
  {
    StripeOfPrefix(a, l, m[..16], m);
    StripeOfPrefix(a, l, n[..16], n);
  }

  lemma {:induction false} ByteInMessage(a: Alu, l: Lanes, m: seq<byte>, n: seq<byte>, i: nat)
    returns (k: nat)
    requires DifferInTail(m, n, i)
    ensures Stripes(a, l, m) == Stripes(a, l, n)
    ensures DifferInTail(Rest(m), Rest(n), k)
    decreases |m|
  {
    if |m| < 16 {
      k := i;
    } else {
      DropBytes(m, n, i, 16);
      SameStripe(a, l, m, n);
      k := ByteInMessage(a, Stripe(a, l, m), m[16..], n[16..], i - 16);
    }
  }

  // ----- no collisions

  lemma LaneChangesTheHash(a: Alu, m: seq<byte>, n: seq<byte>, j: nat, seed: u32)
    requires Undoable(a) && DifferInLane(m, n, j)
    ensures Hash(a, m, seed) != Hash(a, n, seed)
  {
    var inStripe, i := LaneInMessage(a, Start(a, seed), m, n, j);
    var k, l := Stripes(a, Start(a, seed), m), Stripes(a, Start(a, seed), n);
    var g := if |m| >= 16 then Converge(a, k) else a.add(seed, PRIME32_5);
    var h := if |n| >= 16 then Converge(a, l) else a.add(seed, PRIME32_5);
    var g1, h1 := a.add(g, Wrap(|m|)), a.add(h, Wrap(|n|));
    if inStripe {
      ConvergeDiffers(a, k, l);
      assert AddUndoable(a) && g1 != h1;
      TailKeepsDifference(a, g1, h1, Rest(m));
    } else {
      LaneInTail(a, g1, Rest(m), Rest(n), i);
    }
    AvalancheDiffers(a, Tail(a, g1, Rest(m)), Tail(a, h1, Rest(n)));
  }

  lemma ByteChangesTheHash(a: Alu, m: seq<byte>, n: seq<byte>, i: nat, seed: u32)
    requires Undoable(a) && DifferInTail(m, n, i)
    ensures Hash(a, m, seed) != Hash(a, n, seed)
  {
    var i' := ByteInMessage(a, Start(a, seed), m, n, i);
    var k := Stripes(a, Start(a, seed), m);
    var g := a.add(if |m| >= 16 then Converge(a, k) else a.add(seed, PRIME32_5), Wrap(|m|));
    ByteInTail(a, g, Rest(m), Rest(n), i');
    AvalancheDiffers(a, Tail(a, g, Rest(m)), Tail(a, g, Rest(n)));
  }

  /** On the machine: a change of one lane, or of one byte of the tail, always changes the hash. */
  lemma NoSingleChangeCollides(m: seq<byte>, n: seq<byte>, seed: u32)
    requires (exists j :: DifferInLane(m, n, j)) || (exists i :: DifferInTail(m, n, i))
    ensures Hash(MACHINE, m, seed) != Hash(MACHINE, n, seed)
  {
    MachineIsUndoable();
    if j :| DifferInLane(m, n, j) {
      LaneChangesTheHash(MACHINE, m, n, j, seed);
    } else {
      var i :| DifferInTail(m, n, i);
      ByteChangesTheHash(MACHINE, m, n, i, seed);
    }
  }

  /** Messages shorter than a stripe keep different seeds apart. */
  lemma ShortMessagesSeparateSeeds(m: seq<byte>, seed: u32, seed': u32)
    requires |m| < 16 && seed != seed'
    ensures Hash(MACHINE, m, seed) != Hash(MACHINE, m, seed')
  {
    MachineIsUndoable();
    var a := MACHINE;
    assert AddUndoable(a);
    var g, h := a.add(a.add(seed, PRIME32_5), Wrap(|m|)), a.add(a.add(seed', PRIME32_5), Wrap(|m|));
    assert a.add(seed, PRIME32_5) != a.add(seed', PRIME32_5);
    TailKeepsDifference(a, g, h, Rest(m));
    AvalancheDiffers(a, Tail(a, g, Rest(m)), Tail(a, h, Rest(m)));
  }
}
