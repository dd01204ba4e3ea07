/**
 What follows a message's last whole stripe is hashed in units: words of eight bytes, then a word of
 four if there is one, then single bytes. Every step is undoable, so two messages of the same
 length that differ in one of these units only never collide.
 */
module XXHash64Collisions {
  import opened Sequences
  import opened Buffers
  import opened XXHash64
  import opened XXHash64Words

  // ----- the tail as a fold over units

  ghost predicate IsUnit(u: seq<byte>) {
    |u| == 8 || |u| == 4 || |u| == 1
  }

  function Units(m: seq<byte>): seq<seq<byte>> {
    if |m| >= 8 then [m[..8]] + Units(m[8..])
    else if |m| >= 4 then [m[..4]] + Units(m[4..])
    else if |m| > 0 then [m[..1]] + Units(m[1..])
    else []
  }

  function Step(a: Alu, h: u64, u: seq<byte>): u64
    requires IsUnit(u)
  {
    if |u| == 8 then Tail8(a, h, a.load8(u)) else if |u| == 4 then Tail4(a, h, a.load4(u)) else Tail1(a, h, u[0])
  }

  ghost predicate AllUnits(us: seq<seq<byte>>) {
    forall i | 0 <= i < |us| :: IsUnit(us[i])
  }

  function Fold(a: Alu, h: u64, us: seq<seq<byte>>): u64
    requires AllUnits(us)
    decreases |us|
  {
    if us == [] then h else Fold(a, Step(a, h, us[0]), us[1..])
  }

  lemma {:induction false} TailIsFold(a: Alu, h: u64, m: seq<byte>)
    ensures AllUnits(Units(m)) && Tail(a, h, m) == Fold(a, h, Units(m))
    decreases |m|
  {
    if m != [] {
      var k := if |m| >= 8 then 8 else if |m| >= 4 then 4 else 1;
      TailIsFold(a, Step(a, h, m[..k]), m[k..]);
      assert Units(m) == [m[..k]] + Units(m[k..]) && Units(m)[1..] == Units(m[k..]);
    }
  }

  // ----- single steps

  lemma RoundDiffers(a: Alu, x: u64, y: u64)
    requires Undoable(a) && x != y
    ensures Round(a, 0, x) != Round(a, 0, y)
  {
    assert MulUndoable(a, PRIME64_1) && MulUndoable(a, PRIME64_2) && RotlUndoable(a, 31) && AddUndoable(a);
    assert a.mul(x, PRIME64_2) != a.mul(y, PRIME64_2);
    assert a.add(0, a.mul(x, PRIME64_2)) != a.add(0, a.mul(y, PRIME64_2));
  }

  lemma Tail8Differs(a: Alu, g: u64, h: u64, x: u64, y: u64)
    requires Undoable(a) && (g == h <==> x != y)
    ensures Tail8(a, g, x) != Tail8(a, h, y)
  {
    if x != y {
      RoundDiffers(a, x, y);
    }
    assert XorUndoable(a) && RotlUndoable(a, 27) && MulUndoable(a, PRIME64_1) && AddUndoable(a);
    assert a.xor(g, Round(a, 0, x)) != a.xor(h, Round(a, 0, y));
  }

  lemma Tail4Differs(a: Alu, g: u64, h: u64, x: u64, y: u64)
    requires Undoable(a) && (g == h <==> x != y)
    ensures Tail4(a, g, x) != Tail4(a, h, y)
  {
    assert MulUndoable(a, PRIME64_1) && MulUndoable(a, PRIME64_2);
    assert XorUndoable(a) && RotlUndoable(a, 23) && AddUndoable(a);
    assert a.xor(g, a.mul(x, PRIME64_1)) != a.xor(h, a.mul(y, PRIME64_1));
  }

  lemma Tail1Differs(a: Alu, g: u64, h: u64, x: byte, y: byte)
    requires Undoable(a) && (g == h <==> x != y)
    ensures Tail1(a, g, x) != Tail1(a, h, y)
  {
    assert MulUndoable(a, PRIME64_5) && MulUndoable(a, PRIME64_1);
    assert XorUndoable(a) && RotlUndoable(a, 11);
    assert a.xor(g, a.mul(x, PRIME64_5)) != a.xor(h, a.mul(y, PRIME64_5));
  }

  lemma StepDiffers(a: Alu, g: u64, h: u64, u: seq<byte>, v: seq<byte>)
    requires Undoable(a) && IsUnit(u) && |u| == |v| && (g == h <==> u != v)
    ensures Step(a, g, u) != Step(a, h, v)
  {
    assert LoadUndoable(a);
    if |u| == 8 {
      Tail8Differs(a, g, h, a.load8(u), a.load8(v));
    } else if |u| == 4 {
      Tail4Differs(a, g, h, a.load4(u), a.load4(v));
    } else {
      assert u == [u[0]] && v == [v[0]];
      Tail1Differs(a, g, h, u[0], v[0]);
    }
  }

  lemma AvalancheDiffers(a: Alu, g: u64, h: u64)
    requires Undoable(a) && g != h
    ensures Avalanche(a, g) != Avalanche(a, h)
  {
    assert XorShiftUndoable(a, 33) && XorShiftUndoable(a, 29) && XorShiftUndoable(a, 32);
    assert MulUndoable(a, PRIME64_2) && MulUndoable(a, PRIME64_3);
    var g1, h1 := a.mul(a.xor(g, a.shr(g, 33)), PRIME64_2), a.mul(a.xor(h, a.shr(h, 33)), PRIME64_2);
    assert g1 != h1;
    var g2, h2 := a.mul(a.xor(g1, a.shr(g1, 29)), PRIME64_3), a.mul(a.xor(h1, a.shr(h1, 29)), PRIME64_3);
    assert g2 != h2;
  }

  // ----- the whole tail

  /** A difference between the hash values before the tail survives the tail. */
  lemma {:induction false} FoldKeepsDifference(a: Alu, g: u64, h: u64, us: seq<seq<byte>>)
    requires Undoable(a) && AllUnits(us) && g != h
    ensures Fold(a, g, us) != Fold(a, h, us)
    decreases |us|
  {
    if us != [] {
      StepDiffers(a, g, h, us[0], us[0]);
      FoldKeepsDifference(a, Step(a, g, us[0]), Step(a, h, us[0]), us[1..]);
    }
  }

  /** Two rows of units differ in unit `j` and nowhere else. */
  ghost predicate OneUnitDiffers(us: seq<seq<byte>>, vs: seq<seq<byte>>, j: nat) {
    j < |us| == |vs| && |us[j]| == |vs[j]| && us[j] != vs[j] && us == vs[j := us[j]]
  }

  lemma {:induction false} FoldDiffers(a: Alu, h: u64, us: seq<seq<byte>>, vs: seq<seq<byte>>, j: nat)
    requires Undoable(a) && AllUnits(us) && AllUnits(vs) && OneUnitDiffers(us, vs, j)
    ensures Fold(a, h, us) != Fold(a, h, vs)
    decreases j
  {
    if j == 0 {
      assert us[1..] == vs[1..];
      StepDiffers(a, h, h, us[0], vs[0]);
      FoldKeepsDifference(a, Step(a, h, us[0]), Step(a, h, vs[0]), us[1..]);
    } else {
      assert us[0] == vs[0] && OneUnitDiffers(us[1..], vs[1..], j - 1);
      FoldDiffers(a, Step(a, h, us[0]), us[1..], vs[1..], j - 1);
    }
  }

  // ----- stripes and tail of a message

  /** How many bytes the whole stripes of a message have. */
  function Whole(m: seq<byte>): (k: nat)
    ensures k <= |m|
  {
    |m| - |m| % 32
  }

  lemma {:induction false} NoRest(m: seq<byte>)
    requires |m| % 32 == 0
    ensures Rest(m) == []
    decreases |m|
  {
    if m != [] {
      NoRest(m[32..]);
    }
  }

  /** The stripes are the front of the message, and the rest is the rest. */
  lemma SplitMessage(a: Alu, l: Lanes, m: seq<byte>)
    ensures Stripes(a, l, m) == Stripes(a, l, m[..Whole(m)])
    ensures Rest(m) == m[Whole(m)..]
  {
    var front, back := m[..Whole(m)], m[Whole(m)..];
    assert m == front + back && [] + back == back;
    NoRest(front);
    StripesAppend(a, l, front, back);
  }

  /** The messages agree on their whole stripes, and differ in one unit of what follows. */
  ghost predicate DifferInUnit(m: seq<byte>, n: seq<byte>, j: nat) {
    && |m| == |n| && m[..Whole(m)] == n[..Whole(m)]
    && OneUnitDiffers(Units(m[Whole(m)..]), Units(n[Whole(m)..]), j)
  }

  lemma UnitChangesTheHash(a: Alu, m: seq<byte>, n: seq<byte>, j: nat, seed: u64)
    requires Undoable(a) && DifferInUnit(m, n, j)
    ensures Hash(a, m, seed) != Hash(a, n, seed)
  {
    var x, y, l := m[Whole(m)..], n[Whole(m)..], Stripes(a, Start(a, seed), m);
    SplitMessage(a, Start(a, seed), m);
    SplitMessage(a, Start(a, seed), n);
    var h := a.add(if |m| >= 32 then Converge(a, l) else a.add(l.v3, PRIME64_5), Wrap(|m|));
    TailIsFold(a, h, x);
    TailIsFold(a, h, y);
    FoldDiffers(a, h, Units(x), Units(y), j);
    AvalancheDiffers(a, Tail(a, h, x), Tail(a, h, y));
  }

  // ----- a single byte

  /** The messages differ in byte `i` and nowhere else. */
  ghost predicate DifferInByte(m: seq<byte>, n: seq<byte>, i: nat) {
    |m| == |n| && i < |m| && m[i] != n[i] && m == n[i := m[i]]
  }

  /** A single byte that differs makes a single unit that differs. */
  lemma {:induction false} ByteInUnit(m: seq<byte>, n: seq<byte>, i: nat) returns (j: nat)
    requires DifferInByte(m, n, i)
    ensures OneUnitDiffers(Units(m), Units(n), j)
    decreases |m|
  {
    var k := if |m| >= 8 then 8 else if |m| >= 4 then 4 else 1;
    assert Units(m) == [m[..k]] + Units(m[k..]) && Units(n) == [n[..k]] + Units(n[k..]);
    if i < k {
      assert m[..k][i] != n[..k][i] && m[k..] == n[k..];
      j := 0;
    } else {
      assert m[..k] == n[..k] && DifferInByte(m[k..], n[k..], i - k);
      j := ByteInUnit(m[k..], n[k..], i - k);
      UnitsAfter(m[..k], Units(m[k..]), Units(n[k..]), j);
      j := j + 1;
    }
  }

  lemma UnitsAfter(u: seq<byte>, us: seq<seq<byte>>, vs: seq<seq<byte>>, j: nat)
    requires OneUnitDiffers(us, vs, j)
    ensures OneUnitDiffers([u] + us, [u] + vs, j + 1)
  {
  }

  // ----- no collisions on the machine

  /** A change of one unit after the last whole stripe always changes the hash. */
  lemma NoUnitChangeCollides(m: seq<byte>, n: seq<byte>, seed: u64)
    requires exists j :: DifferInUnit(m, n, j)
    ensures Hash(MACHINE, m, seed) != Hash(MACHINE, n, seed)
  {
    MachineIsUndoable();
    var j :| DifferInUnit(m, n, j);
    UnitChangesTheHash(MACHINE, m, n, j, seed);
  }

  /** So does a change of one byte there, and so of any byte of a message shorter than a stripe. */
  lemma NoByteChangeCollides(m: seq<byte>, n: seq<byte>, i: nat, seed: u64)
    requires DifferInByte(m, n, i) && Whole(m) <= i
    ensures Hash(MACHINE, m, seed) != Hash(MACHINE, n, seed)
  {
    assert m[..Whole(m)] == n[..Whole(m)];
    assert DifferInByte(m[Whole(m)..], n[Whole(m)..], i - Whole(m));
    var j := ByteInUnit(m[Whole(m)..], n[Whole(m)..], i - Whole(m));
    assert DifferInUnit(m, n, j);
    NoUnitChangeCollides(m, n, seed);
  }

  /** Messages shorter than a stripe keep different seeds apart. */
  lemma ShortMessagesSeparateSeeds(m: seq<byte>, seed: u64, seed': u64)
    requires |m| < 32 && seed != seed'
    ensures Hash(MACHINE, m, seed) != Hash(MACHINE, m, seed')
  {
    MachineIsUndoable();
    var a := MACHINE;
    assert AddUndoable(a);
    var g, h := a.add(a.add(seed, PRIME64_5), Wrap(|m|)), a.add(a.add(seed', PRIME64_5), Wrap(|m|));
    assert a.add(seed, PRIME64_5) != a.add(seed', PRIME64_5);
    TailIsFold(a, g, m);
    TailIsFold(a, h, m);
    FoldKeepsDifference(a, g, h, Units(m));
    AvalancheDiffers(a, Tail(a, g, m), Tail(a, h, m));
  }

  // ----- when a wrapped length shows

  /** The lanes converge to the very value that is used when they are left out. */
  ghost predicate LanesCoincide(m: seq<byte>, seed: u64) {
    var l := Stripes(MACHINE, Start(MACHINE, seed), m);
    Converge(MACHINE, l) == MACHINE.add(l.v3, PRIME64_5)
  }

  /** Leaving the lanes out changes the hash in all other cases. */
  lemma LanesMatter(m: seq<byte>, seed: u64)
    ensures HashBy(MACHINE, m, seed, true) == HashBy(MACHINE, m, seed, false) <==> LanesCoincide(m, seed)
  {
    var a, l := MACHINE, Stripes(MACHINE, Start(MACHINE, seed), m);
    var g, h := Converge(a, l), a.add(l.v3, PRIME64_5);
    if g != h {
      MachineIsUndoable();
      assert AddUndoable(a);
      var g', h' := a.add(g, Wrap(|m|)), a.add(h, Wrap(|m|));
      TailIsFold(a, g', Rest(m));
      TailIsFold(a, h', Rest(m));
      FoldKeepsDifference(a, g', h', Units(Rest(m)));
      AvalancheDiffers(a, Tail(a, g', Rest(m)), Tail(a, h', Rest(m)));
    }
  }

  /** Exactly when a digest, whose guard looks at the wrapped length, is the hash of the whole message. */
  lemma DigestIsHashExactly(m: seq<byte>, seed: u64)
    ensures var guarded := |m| < 0x1_0000_0000_0000_0000 || |m| % 0x1_0000_0000_0000_0000 >= 32;
      HashBy(MACHINE, m, seed, Wrap(|m|) >= 32) == Hash(MACHINE, m, seed) <==> guarded || LanesCoincide(m, seed)
  {
    LongEnough(|m|);
    LanesMatter(m, seed);
  }
}
