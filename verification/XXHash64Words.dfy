/** The 64-bit arithmetic under xxh64, every step of which can be undone. */
module XXHash64Words {
  import opened Binary
  import opened Buffers
  import opened XXHash64

  // ----- the machine's operations

  lemma WordSizes()
    ensures Pow2(32) == 0x1_0000_0000 && Pow2(64) == 0x1_0000_0000_0000_0000
  {
    assert Pow2(8) == 256;
    Pow2Add(8, 8);
    Pow2Add(16, 16);
    Pow2Add(32, 32);
  }

  function Add64(x: u64, y: u64): u64 { (x + y) % 0x1_0000_0000_0000_0000 }

  function Sub64(x: u64, y: u64): u64 { (x - y) % 0x1_0000_0000_0000_0000 }

  function Mul64(x: u64, y: u64): u64 { (x * y) % 0x1_0000_0000_0000_0000 }

  /** xxh_rotl64; the code never rotates by more than the word size. */
  function Rotl64(x: u64, r: nat): u64 {
    WordSizes();
    if r <= 64 then
      RotlParts(64, x, r);
      Rotl(64, x, r)
    else 0
  }

  function Xor64(x: u64, y: u64): u64 {
    WordSizes();
    XorBound(x, y, 64);
    Xor(x, y)
  }

  function Shr64(x: u64, k: nat): u64 {
    Shr(x, k)
  }

  /** get_unaligned_le64 at the start of `m` */
  function Load64(m: seq<byte>): u64 {
    if |m| < 8 then 0
    else
      WordSizes();
      LittleEndianBound(m[..8]);
      LittleEndian(m[..8])
  }

  /** get_unaligned_le32 at the start of `m` */
  function Load32(m: seq<byte>): u64 {
    if |m| < 4 then 0
    else
      WordSizes();
      LittleEndianBound(m[..4]);
      LittleEndian(m[..4])
  }

  const MACHINE := Alu(Add64, Sub64, Mul64, Rotl64, Xor64, Shr64, Load64, Load32)

  // ----- every operation can be undone

  ghost predicate AddUndoable(a: Alu) {
    && (forall x, y, z {:trigger a.add(x, z), a.add(y, z)} :: a.add(x, z) == a.add(y, z) ==> x == y)
    && (forall x, y, z {:trigger a.add(z, x), a.add(z, y)} :: a.add(z, x) == a.add(z, y) ==> x == y)
  }

  ghost predicate XorUndoable(a: Alu) {
    && (forall x, y, z {:trigger a.xor(x, z), a.xor(y, z)} :: a.xor(x, z) == a.xor(y, z) ==> x == y)
    && (forall x, y, z {:trigger a.xor(z, x), a.xor(z, y)} :: a.xor(z, x) == a.xor(z, y) ==> x == y)
  }

  ghost predicate MulUndoable(a: Alu, p: u64) {
    forall x, y :: a.mul(x, p) == a.mul(y, p) ==> x == y
  }

  ghost predicate RotlUndoable(a: Alu, r: nat) {
    forall x, y :: a.rotl(x, r) == a.rotl(y, r) ==> x == y
  }

  ghost predicate XorShiftUndoable(a: Alu, k: nat) {
    forall x, y :: a.xor(x, a.shr(x, k)) == a.xor(y, a.shr(y, k)) ==> x == y
  }

  ghost predicate LoadUndoable(a: Alu) {
    && (forall s, t | |s| == |t| == 8 :: a.load8(s) == a.load8(t) ==> s == t)
    && (forall s, t | |s| == |t| == 4 :: a.load4(s) == a.load4(t) ==> s == t)
  }

  /** Adding, xor-ing, multiplying by a prime, rotating, xor-shifting and loading lose nothing. */
  ghost predicate Undoable(a: Alu) {
    && AddUndoable(a) && XorUndoable(a) && LoadUndoable(a)
    && (forall p | p in {PRIME64_1, PRIME64_2, PRIME64_3, PRIME64_5} :: MulUndoable(a, p))
    && (forall r | r in {11, 23, 27, 31} :: RotlUndoable(a, r))
    && (forall k | k in {29, 32, 33} :: XorShiftUndoable(a, k))
  }

  lemma MachineAdd()
    ensures AddUndoable(MACHINE)
  {
    forall x: u64, y: u64, z: u64 | Add64(x, z) == Add64(y, z) ensures x == y {
      AddInjective(x, y, z, 0x1_0000_0000_0000_0000);
    }
    forall x: u64, y: u64, z: u64 | Add64(z, x) == Add64(z, y) ensures x == y {
      AddInjective(x, y, z, 0x1_0000_0000_0000_0000);
    }
  }

  lemma MachineXor()
    ensures XorUndoable(MACHINE)
  {
    forall x: u64, y: u64, z: u64 | Xor64(x, z) == Xor64(y, z) ensures x == y {
      XorCancel(x, y, z);
    }
    forall x: u64, y: u64, z: u64 | Xor64(z, x) == Xor64(z, y) ensures x == y {
      XorSymmetric(z, x);
      XorSymmetric(z, y);
      XorCancel(x, y, z);
    }
  }

  lemma MachineMul(p: u64, q: nat, j: nat)
    requires p * q == 1 + j * 0x1_0000_0000_0000_0000
    ensures MulUndoable(MACHINE, p)
  {
    forall x: u64, y: u64 | Mul64(x, p) == Mul64(y, p) ensures x == y {
      MulInjective(x, y, p, q, j, 0x1_0000_0000_0000_0000);
    }
  }

  lemma MachineRotl(r: nat)
    requires r <= 64
    ensures RotlUndoable(MACHINE, r)
  {
    forall x: u64, y: u64 | Rotl64(x, r) == Rotl64(y, r) ensures x == y {
      WordSizes();
      RotlInjective(64, x, y, r);
    }
  }

  lemma MachineXorShift(k: nat)
    requires k > 0
    ensures XorShiftUndoable(MACHINE, k)
  {
    forall x: u64, y: u64 | Xor64(x, Shr64(x, k)) == Xor64(y, Shr64(y, k)) ensures x == y {
      XorShiftInjective(x, y, k);
    }
  }

  lemma MachineLoad()
    ensures LoadUndoable(MACHINE)
  {
    forall s: seq<byte>, t: seq<byte> | |s| == |t| == 8 && Load64(s) == Load64(t) ensures s == t {
      assert s[..8] == s && t[..8] == t;
      LittleEndianInjective(s, t);
    }
    forall s: seq<byte>, t: seq<byte> | |s| == |t| == 4 && Load32(s) == Load32(t) ensures s == t {
      assert s[..4] == s && t[..4] == t;
      LittleEndianInjective(s, t);
    }
  }

  lemma MachineIsUndoable()
    ensures Undoable(MACHINE)
  {
    MachineAdd();
    MachineXor();
    MachineLoad();
    MachineMul(PRIME64_1, 614540362697595703, 379806830464837242);
    MachineMul(PRIME64_2, 839798700976720815, 638699622168397319);
    MachineMul(PRIME64_3, 16855272203555305545, 1470722560960728959);
    MachineMul(PRIME64_5, 14236653164957433613, 2215118327355546487);
    forall r | r in {11, 23, 27, 31} ensures RotlUndoable(MACHINE, r) {
      MachineRotl(r);
    }
    forall k | k in {29, 32, 33} ensures XorShiftUndoable(MACHINE, k) {
      MachineXorShift(k);
    }
  }
}
