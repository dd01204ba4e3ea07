/**
 The 32-bit arithmetic under xxh32, and what follows from every step of the hash being
 undoable: messages that differ in one place only never have the same hash.
 */
module XXHash32Words {
  import opened Binary
  import opened Buffers
  import opened XXHash32

  // ----- the machine's operations

  lemma WordSize()
    ensures Pow2(32) == 0x1_0000_0000
  {
    assert Pow2(8) == 256;
    Pow2Add(8, 8);
    Pow2Add(16, 16);
  }

  function Add32(x: u32, y: u32): u32 { (x + y) % 0x1_0000_0000 }

  function Sub32(x: u32, y: u32): u32 { (x - y) % 0x1_0000_0000 }

  function Mul32(x: u32, y: u32): u32 { (x * y) % 0x1_0000_0000 }

  /** xxh_rotl32; the code never rotates by more than the word size. */
  function Rotl32(x: u32, r: nat): u32 {
    WordSize();
    if r <= 32 then
      RotlParts(32, x, r);
      Rotl(32, x, r)
    else 0
  }

  function Xor32(x: u32, y: u32): u32 {
    WordSize();
    XorBound(x, y, 32);
    Xor(x, y)
  }

  function Shr32(x: u32, k: nat): u32 {
    Shr(x, k)
  }

  /** get_unaligned_le32 at the start of `m` */
  function Load32(m: seq<byte>): u32 {
    if |m| < 4 then 0
    else
      WordSize();
      LittleEndianBound(m[..4]);
      LittleEndian(m[..4])
  }

  const MACHINE := Alu(Add32, Sub32, Mul32, Rotl32, Xor32, Shr32, Load32)

  // ----- every operation can be undone

  ghost predicate AddUndoable(a: Alu) {
    && (forall x, y, z {:trigger a.add(x, z), a.add(y, z)} :: a.add(x, z) == a.add(y, z) ==> x == y)
    && (forall x, y, z {:trigger a.add(z, x), a.add(z, y)} :: a.add(z, x) == a.add(z, y) ==> x == y)
  }

  ghost predicate MulUndoable(a: Alu, p: u32) {
    forall x, y :: a.mul(x, p) == a.mul(y, p) ==> x == y
  }

  ghost predicate RotlUndoable(a: Alu, r: nat) {
    forall x, y :: a.rotl(x, r) == a.rotl(y, r) ==> x == y
  }

  ghost predicate XorShiftUndoable(a: Alu, k: nat) {
    forall x, y :: a.xor(x, a.shr(x, k)) == a.xor(y, a.shr(y, k)) ==> x == y
  }

  ghost predicate LoadUndoable(a: Alu) {
    forall s, t | |s| == |t| == 4 :: a.load(s) == a.load(t) ==> s == t
  }

  /** Adding, multiplying by a prime, rotating, xor-shifting and loading lose nothing. */
  ghost predicate Undoable(a: Alu) {
    && AddUndoable(a) && LoadUndoable(a)
    && (forall p | p in {PRIME32_1, PRIME32_2, PRIME32_3, PRIME32_4, PRIME32_5} :: MulUndoable(a, p))
    && (forall r | r in {1, 7, 11, 12, 13, 17, 18} :: RotlUndoable(a, r))
    && (forall k | k in {13, 15, 16} :: XorShiftUndoable(a, k))
  }

  lemma MachineAdd()
    ensures AddUndoable(MACHINE)
  {
    forall x: u32, y: u32, z: u32 | Add32(x, z) == Add32(y, z) ensures x == y {
      AddInjective(x, y, z, 0x1_0000_0000);
    }
    forall x: u32, y: u32, z: u32 | Add32(z, x) == Add32(z, y) ensures x == y {
      AddInjective(x, y, z, 0x1_0000_0000);
    }
  }

  lemma MachineMul(p: u32, q: nat, j: nat)
    requires p * q == 1 + j * 0x1_0000_0000
    ensures MulUndoable(MACHINE, p)
  {
    forall x: u32, y: u32 | Mul32(x, p) == Mul32(y, p) ensures x == y {
      MulInjective(x, y, p, q, j, 0x1_0000_0000);
    }
  }

  lemma MachineRotl(r: nat)
    requires r <= 32
    ensures RotlUndoable(MACHINE, r)
  {
    forall x: u32, y: u32 | Rotl32(x, r) == Rotl32(y, r) ensures x == y {
      WordSize();
      RotlInjective(32, x, y, r);
    }
  }

  lemma MachineXorShift(k: nat)
    requires k > 0
    ensures XorShiftUndoable(MACHINE, k)
  {
    forall x: u32, y: u32 | Xor32(x, Shr32(x, k)) == Xor32(y, Shr32(y, k)) ensures x == y {
      XorShiftInjective(x, y, k);
    }
  }

  lemma MachineLoad()
    ensures LoadUndoable(MACHINE)
  {
    forall s: seq<byte>, t: seq<byte> | |s| == |t| == 4 && Load32(s) == Load32(t) ensures s == t {
      assert s[..4] == s && t[..4] == t;
      LittleEndianInjective(s, t);
    }
  }

  lemma MachineIsUndoable()
    ensures Undoable(MACHINE)
  {
    MachineAdd();
    MachineLoad();
    MachineMul(PRIME32_1, 244002641, 150801925);
    MachineMul(PRIME32_2, 3066638151, 1604247758);
    MachineMul(PRIME32_3, 2828982549, 2151551417);
    MachineMul(PRIME32_4, 2701016015, 420258189);
    MachineMul(PRIME32_5, 2923004241, 255049472);
    forall r | r in {1, 7, 11, 12, 13, 17, 18} ensures RotlUndoable(MACHINE, r) {
      MachineRotl(r);
    }
    forall k | k in {13, 15, 16} ensures XorShiftUndoable(MACHINE, k) {
      MachineXorShift(k);
    }
  }
}
