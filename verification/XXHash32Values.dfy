/**
 Hash values of xxh32. The machine of XXHash32Words is described once in plain integer arithmetic; with that,
 hash values are computed step by step, from the constants of the algorithm written out.
 */
module XXHash32Values {
  import opened Binary
  import opened BitVectors
  import opened Buffers
  import opened XXHash32
  import opened XXHash32Words

  // ----- the machine in plain arithmetic

  function Turn(x: int, p: nat, q: nat): int
    requires q > 0
  {
    (x * p) % 0x1_0000_0000 + x / q
  }

  /** Rotating by `r` digits, where `p` is the power of two and `q` is 2^32 / `p`. */
  ghost predicate RotatesBy(a: Alu, r: nat, p: nat, q: nat)
    requires q > 0
  {
    forall x: u32 {:trigger Turn(x, p, q)} :: a.rotl(x, r) == Turn(x, p, q)
  }

  ghost predicate ShiftsBy(a: Alu, k: nat, q: nat)
    requires q > 0
  {
    forall x: u32 :: a.shr(x, k) == x / q
  }

  ghost predicate Loads(a: Alu) {
    forall m: seq<byte> | |m| == 4 :: a.load(m) == FourBytes(m)
  }

  ghost predicate Plain(a: Alu) {
    && (forall x, y {:trigger Add32(x, y)} :: a.add(x, y) == Add32(x, y))
    && (forall x, y {:trigger Sub32(x, y)} :: a.sub(x, y) == Sub32(x, y))
    && (forall x, y {:trigger Mul32(x, y)} :: a.mul(x, y) == Mul32(x, y))
    && RotatesBy(a, 1, 2, 0x8000_0000) && RotatesBy(a, 7, 0x80, 0x200_0000) && RotatesBy(a, 11, 0x800, 0x20_0000)
    && RotatesBy(a, 12, 0x1000, 0x10_0000) && RotatesBy(a, 13, 0x2000, 0x8_0000)
    && RotatesBy(a, 17, 0x2_0000, 0x8000) && RotatesBy(a, 18, 0x4_0000, 0x4000)
    && ShiftsBy(a, 13, 0x2000) && ShiftsBy(a, 15, 0x8000) && ShiftsBy(a, 16, 0x1_0000)
    && Loads(a)
  }

  lemma Powers()
    ensures Pow2(1) == 2 && Pow2(7) == 0x80 && Pow2(11) == 0x800 && Pow2(12) == 0x1000 && Pow2(13) == 0x2000
    ensures Pow2(15) == 0x8000 && Pow2(16) == 0x1_0000 && Pow2(17) == 0x2_0000 && Pow2(18) == 0x4_0000
  {
    assert Pow2(4) == 0x10;
    Pow2Add(7, 4);
    Pow2Add(11, 4);
    Pow2Add(11, 7);
  }

  lemma Rotates(x: u32, r: nat, p: nat, q: nat)
    requires r <= 32 && p == Pow2(r) && q == Pow2(32 - r) && p * q == 0x1_0000_0000
    ensures Rotl32(x, r) == Turn(x, p, q)
  {
    Pow2Add(r, 32 - r);
    Shifts(x, 32 - r, q);
    RotlParts(32, x, r);
    Split(x, 32 - r);
    LowBound(x, 32 - r);
    RotateArithmetic(x, p, q, Shr(x, 32 - r), Low(x, 32 - r));
  }

  /** The other power of two. */
  lemma OtherPower(r: nat, p: nat, q: nat)
    requires r <= 32 && p == Pow2(r) && p * q == 0x1_0000_0000
    ensures q == Pow2(32 - r)
  {
    WordSize();
    Pow2Add(r, 32 - r);
    SameFactor(p, q, Pow2(32 - r));
  }

  lemma MachineRotates(r: nat, p: nat, q: nat)
    requires r <= 32 && p == Pow2(r) && p * q == 0x1_0000_0000
    ensures q > 0 && RotatesBy(MACHINE, r, p, q)
  {
    OtherPower(r, p, q);
    forall x: u32 ensures MACHINE.rotl(x, r) == Turn(x, p, q) {
      Rotates(x, r, p, q);
    }
  }

  lemma MachineShifts(k: nat, q: nat)
    requires q == Pow2(k)
    ensures ShiftsBy(MACHINE, k, q)
  {
    forall x: u32 ensures MACHINE.shr(x, k) == x / q {
      Shifts(x, k, q);
    }
  }

  lemma MachineLoads()
    ensures Loads(MACHINE)
  {
    forall m: seq<byte> | |m| == 4 ensures MACHINE.load(m) == FourBytes(m) {
      assert m[..4] == m && m[4..] == [];
      LittleEndianStep(m);
    }
  }

  lemma MachineIsPlain()
    ensures Plain(MACHINE)
  {
    Powers();
    MachineRotates(1, 2, 0x8000_0000);
    MachineRotates(7, 0x80, 0x200_0000);
    MachineRotates(11, 0x800, 0x20_0000);
    MachineRotates(12, 0x1000, 0x10_0000);
    MachineRotates(13, 0x2000, 0x8_0000);
    MachineRotates(17, 0x2_0000, 0x8000);
    MachineRotates(18, 0x4_0000, 0x4000);
    MachineShifts(13, 0x2000);
    MachineShifts(15, 0x8000);
    MachineShifts(16, 0x1_0000);
    MachineLoads();
  }

  // ----- the steps, with the quotients that remainders and shifts need

  /** `z` is `x` wrapped around, `q` times. */
  ghost predicate Wraps(x: int, q: int, z: int) {
    x == q * 0x1_0000_0000 + z && 0 <= z < 0x1_0000_0000
  }

  lemma WrapsIs(x: int, q: int, z: int)
    requires Wraps(x, q, z)
    ensures x % 0x1_0000_0000 == z
  {
    QuotientUnique(x / 0x1_0000_0000, x % 0x1_0000_0000, q, z, 0x1_0000_0000);
  }

  lemma AddIs(a: Alu, x: u32, y: u32, c: int, z: int)
    requires Plain(a) && Wraps(x + y, c, z)
    ensures a.add(x, y) == z
  {
    WrapsIs(x + y, c, z);
    assert Add32(x, y) == z;
  }

  lemma MulIs(a: Alu, x: u32, y: u32, k: int, z: int)
    requires Plain(a) && Wraps(x * y, k, z)
    ensures a.mul(x, y) == z
  {
    WrapsIs(x * y, k, z);
    assert Mul32(x, y) == z;
  }

  lemma RotlIs(a: Alu, x: u32, r: nat, p: nat, q: nat, hi: int, lo: int, z: int)
    requires p > 0 && q > 0 && p * q == 0x1_0000_0000 && RotatesBy(a, r, p, q)
    requires Parts(x, q, hi, lo) && z == lo * p + hi
    ensures a.rotl(x, r) == z
  {
    PartsTurn(x, p, q, hi, lo);
  }

  lemma PartsTurn(x: u32, p: nat, q: nat, hi: int, lo: int)
    requires p > 0 && q > 0 && p * q == 0x1_0000_0000 && Parts(x, q, hi, lo)
    ensures Turn(x, p, q) == lo * p + hi
  {
    QuotientUnique(x / q, x % q, hi, lo, q);
    RotateArithmetic(x, p, q, hi, lo);
  }

  lemma ShrIs(a: Alu, x: u32, k: nat, q: nat, hi: int, lo: int)
    requires q > 0 && ShiftsBy(a, k, q) && Parts(x, q, hi, lo)
    ensures a.shr(x, k) == hi
  {
    QuotientUnique(x / q, x % q, hi, lo, q);
  }

  lemma StartIs(a: Alu, seed: u32, c0: int, v0: int, c1: int, v1: u32, c2: int, v2: u32, c4: int, v4: u32)
    requires Plain(a) && Wraps(seed + 2654435761, c0, v0) && Wraps(v0 + 2246822519, c1, v1)
    requires Wraps(seed + 2246822519, c2, v2) && Wraps(seed - 2654435761, c4, v4)
    ensures Start(a, seed) == Lanes(v1, v2, seed, v4)
  {
    AddIs(a, seed, 2654435761, c0, v0);
    AddIs(a, v0, 2246822519, c1, v1);
    AddIs(a, seed, 2246822519, c2, v2);
    WrapsIs(seed - 2654435761, c4, v4);
    assert Sub32(seed, 2654435761) == v4;
  }

  /** Multiplying `y` by `m`, adding that to `x`, rotating, and multiplying by `n`. */
  ghost predicate MixSteps(x: int, y: int, m: int, p: int, q: int, n: int, k: int, f: int, c: int, s: int, hi: int,
                           lo: int, j: int, z: int) {
    && Wraps(y * m, k, f) && Wraps(x + f, c, s) && Parts(s, q, hi, lo) && Wraps((lo * p + hi) * n, j, z)
  }

  lemma MixIs(a: Alu, x: u32, y: u32, m: u32, r: nat, p: nat, q: nat, n: u32, k: int, f: int, c: int, s: int, hi: int,
              lo: int, j: int, z: int)
    requires Plain(a) && p > 0 && q > 0 && p * q == 0x1_0000_0000 && RotatesBy(a, r, p, q)
    requires MixSteps(x, y, m, p, q, n, k, f, c, s, hi, lo, j, z)
    ensures a.mul(a.rotl(a.add(x, a.mul(y, m)), r), n) == z
  {
    MulIs(a, y, m, k, f);
    AddIs(a, x, f, c, s);
    RotlIs(a, s, r, p, q, hi, lo, lo * p + hi);
    MulIs(a, a.rotl(s, r), n, j, z);
  }

  lemma RoundIs(a: Alu, x: u32, y: u32, k: int, f: int, c: int, s: int, hi: int, lo: int, j: int, z: int)
    requires Plain(a)
    requires MixSteps(x, y, 2246822519, 0x2000, 0x8_0000, 2654435761, k, f, c, s, hi, lo, j, z)
    ensures Round(a, x, y) == z
  {
    MixIs(a, x, y, 2246822519, 13, 0x2000, 0x8_0000, 2654435761, k, f, c, s, hi, lo, j, z);
  }

  lemma TailWordIs(a: Alu, x: u32, y: u32, k: int, f: int, c: int, s: int, hi: int, lo: int, j: int, z: int)
    requires Plain(a)
    requires MixSteps(x, y, 3266489917, 0x2_0000, 0x8000, 668265263, k, f, c, s, hi, lo, j, z)
    ensures TailWord(a, x, y) == z
  {
    MixIs(a, x, y, 3266489917, 17, 0x2_0000, 0x8000, 668265263, k, f, c, s, hi, lo, j, z);
  }

  lemma TailByteIs(a: Alu, x: u32, y: byte, k: int, f: int, c: int, s: int, hi: int, lo: int, j: int, z: int)
    requires Plain(a)
    requires MixSteps(x, y, 374761393, 0x800, 0x20_0000, 2654435761, k, f, c, s, hi, lo, j, z)
    ensures TailByte(a, x, y) == z
  {
    MixIs(a, x, y, 374761393, 11, 0x800, 0x20_0000, 2654435761, k, f, c, s, hi, lo, j, z);
  }

  lemma AvalancheIs(a: Alu, h: u32, s: u32, d: int, x: u32, k: int, h1: u32, s1: u32, d1: int, x1: u32, j: int,
                    h2: u32, s2: u32, d2: int, z: u32)
    requires Plain(a)
    requires Parts(h, 0x8000, s, d) && Wraps(x * 2246822519, k, h1) && Parts(h1, 0x2000, s1, d1)
    requires Wraps(x1 * 3266489917, j, h2) && Parts(h2, 0x1_0000, s2, d2)
    requires a.xor(h, s) == x && a.xor(h1, s1) == x1 && a.xor(h2, s2) == z
    ensures Avalanche(a, h) == z
  {
    ShrIs(a, h, 15, 0x8000, s, d);
    MulIs(a, x, 2246822519, k, h1);
    ShrIs(a, h1, 13, 0x2000, s1, d1);
    MulIs(a, x1, 3266489917, j, h2);
    ShrIs(a, h2, 16, 0x1_0000, s2, d2);
  }

  lemma LoadIs(a: Alu, m: seq<byte>, b0: byte, b1: byte, b2: byte, b3: byte, z: u32)
    requires Plain(a) && m == [b0, b1, b2, b3]
    requires z == b0 as int + 0x100 * b1 as int + 0x1_0000 * b2 as int + 0x100_0000 * b3 as int
    ensures a.load(m) == z
  {
  }

  // ----- messages by their length

  lemma ShortMessage(a: Alu, m: seq<byte>, seed: u32, d: int, s: u32, c: int, h: u32, t: u32)
    requires Plain(a) && |m| < 16
    requires Wraps(seed + 374761393, d, s) && Wraps(s + |m|, c, h) && Tail(a, h, m) == t
    ensures Hash(a, m, seed) == Avalanche(a, t)
  {
    AddIs(a, seed, 374761393, d, s);
    AddIs(a, s, |m|, c, h);
    ShortHash(a, m, seed);
  }

  lemma ShortHash(a: Alu, m: seq<byte>, seed: u32)
    requires |m| < 16
    ensures Hash(a, m, seed) == Avalanche(a, Tail(a, a.add(a.add(seed, PRIME32_5), |m|), m))
  {
  }

  lemma LongMessage(a: Alu, m: seq<byte>, seed: u32, s: u32, c: int, h: u32, t: u32)
    requires Plain(a) && 16 <= |m| < 32 && Wraps(s + |m|, c, h) && Tail(a, h, m[16..]) == t
    requires Converge(a, Stripe(a, Start(a, seed), m)) == s
    ensures Hash(a, m, seed) == Avalanche(a, t)
  {
    AddIs(a, s, |m|, c, h);
    LongHash(a, m, seed);
  }

  lemma LongHash(a: Alu, m: seq<byte>, seed: u32)
    requires 16 <= |m| < 32
    ensures var s := Converge(a, Stripe(a, Start(a, seed), m));
      Hash(a, m, seed) == Avalanche(a, Tail(a, a.add(s, |m|), m[16..]))
  {
    assert Stripes(a, Stripe(a, Start(a, seed), m), m[16..]) == Stripe(a, Start(a, seed), m);
    assert Rest(m[16..]) == m[16..];
  }

  lemma ThreeBytes(a: Alu, h: u32, x: byte, y: byte, z: byte, h1: u32, h2: u32, h3: u32)
    requires TailByte(a, h, x) == h1 && TailByte(a, h1, y) == h2 && TailByte(a, h2, z) == h3
    ensures Tail(a, h, [x, y, z]) == h3
  {
    assert [x, y, z][1..] == [y, z] && [y, z][1..] == [z] && [z][1..] == [];
    assert Tail(a, h2, [z]) == h3;
  }

  lemma WordAndByte(a: Alu, h: u32, m: seq<byte>, w: u32, h1: u32, h2: u32)
    requires |m| == 5 && a.load(m[..4]) == w && TailWord(a, h, w) == h1 && TailByte(a, h1, m[4]) == h2
    ensures Tail(a, h, m) == h2
  {
    assert m[4..] == [m[4]] && [m[4]][1..] == [];
    assert Tail(a, h1, [m[4]]) == h2;
  }

  /** The words of the first stripe. */
  lemma Words(a: Alu, n: nat)
    requires Plain(a) && 16 <= n <= 256
    ensures a.load(CountingBytes(n)[0..4]) == 0x03020100
    ensures a.load(CountingBytes(n)[4..8]) == 0x07060504
    ensures a.load(CountingBytes(n)[8..12]) == 0x0B0A0908
    ensures a.load(CountingBytes(n)[12..16]) == 0x0F0E0D0C
  {
    LoadIs(a, CountingBytes(n)[0..4], 0, 1, 2, 3, 0x03020100);
    LoadIs(a, CountingBytes(n)[4..8], 4, 5, 6, 7, 0x07060504);
    LoadIs(a, CountingBytes(n)[8..12], 8, 9, 10, 11, 0x0B0A0908);
    LoadIs(a, CountingBytes(n)[12..16], 12, 13, 14, 15, 0x0F0E0D0C);
  }

  // ----- values

  ghost predicate EmptyXors(a: Alu) {
    && a.xor(0x165667B1, 0x00002CAC) == 0x16564B1D
    && a.xor(0x7E00CC7B, 0x0003F006) == 0x7E033C7D
    && a.xor(0x02CC5FC9, 0x000002CC) == 0x02CC5D05
  }

  lemma MachineEmptyXors()
    ensures EmptyXors(MACHINE)
  {
    XorIs(0x165667B1, 0x00002CAC);
    XorIs(0x7E00CC7B, 0x0003F006);
    XorIs(0x02CC5FC9, 0x000002CC);
  }

  lemma EmptyHash(a: Alu)
    requires Plain(a) && EmptyXors(a)
    ensures Hash(a, [], 0) == 0x02CC5D05
  {
    ShortMessage(a, [], 0, 0, 0x165667B1, 0, 0x165667B1, 0x165667B1);
    AvalancheIs(a, 0x165667B1, 0x00002CAC, 0x000067B1, 0x16564B1D, 0x0BAF67E7, 0x7E00CC7B, 0x0003F006, 0x00000C7B,
                   0x7E033C7D, 0x5FD667DB, 0x02CC5FC9, 0x000002CC, 0x00005FC9, 0x02CC5D05);
  }

  /** The hash of the empty message. */
  lemma EmptyMessage()
    ensures Hash(MACHINE, [], 0) == 0x02CC5D05
  {
    MachineIsPlain();
    MachineEmptyXors();
    EmptyHash(MACHINE);
  }

  lemma AbcTails(a: Alu)
    requires Plain(a)
    ensures Tail(a, 0x165667B4, [0x61, 0x62, 0x63]) == 0x760A1E67
  {
    TailByteIs(a, 0x165667B4, 0x61, 8, 0x76BD4A11, 0, 0x8D13B1C5, 0x00000468, 0x0013B1C5, 0x615FE3D8, 0xDCA1DBE8);
    TailByteIs(a, 0xDCA1DBE8, 0x62, 8, 0x8D13B1C2, 1, 0x69B58DAA, 0x0000034D, 0x00158DAA, 0x6A90D6DD, 0x4F80FD3D);
    TailByteIs(a, 0x4F80FD3D, 0x63, 8, 0xA36A1973, 0, 0xF2EB16B0, 0x00000797, 0x000B16B0, 0x36D342DA, 0x760A1E67);
    ThreeBytes(a, 0x165667B4, 0x61, 0x62, 0x63, 0xDCA1DBE8, 0x4F80FD3D, 0x760A1E67);
  }

  ghost predicate AbcXors(a: Alu) {
    && a.xor(0x760A1E67, 0x0000EC14) == 0x760AF273
    && a.xor(0xD0F67175, 0x000687B3) == 0xD0F0F6C6
    && a.xor(0x32D1612E, 0x000032D1) == 0x32D153FF
  }

  lemma MachineAbcXors()
    ensures AbcXors(MACHINE)
  {
    XorIs(0x760A1E67, 0x0000EC14);
    XorIs(0xD0F67175, 0x000687B3);
    XorIs(0x32D1612E, 0x000032D1);
  }

  lemma AbcHash(a: Alu)
    requires Plain(a) && AbcXors(a)
    ensures Hash(a, [0x61, 0x62, 0x63], 0) == 0x32D153FF
  {
    AbcTails(a);
    ShortMessage(a, [0x61, 0x62, 0x63], 0, 0, 0x165667B1, 0, 0x165667B4, 0x760A1E67);
    AvalancheIs(a, 0x760A1E67, 0x0000EC14, 0x00001E67, 0x760AF273, 0x3DC0695D, 0xD0F67175, 0x000687B3, 0x00001175,
                   0xD0F0F6C6, 0x9EE870C3, 0x32D1612E, 0x000032D1, 0x0000612E, 0x32D153FF);
  }

  /** "abc": three bytes and no whole word. */
  lemma AbcMessage()
    ensures Hash(MACHINE, [0x61, 0x62, 0x63], 0) == 0x32D153FF
  {
    MachineIsPlain();
    MachineAbcXors();
    AbcHash(MACHINE);
  }

  lemma StripeRounds(a: Alu)
    requires Plain(a)
    ensures Stripe(a, Lanes(0x24234428, 0x85EBCA77, 0, 0x61C8864F), CountingBytes(16)) ==
      Lanes(0xF817BCCB, 0x0222719B, 0xD4B0C0A4, 0xDEBB7574)
  {
    Words(a, 16);
    RoundIs(a, 0x24234428, 0x03020100, 0x0192CFBC, 0xE5B87700, 1, 0x09DBBB28, 0x0000013B, 0x0003BB28, 0x49CA3636,
               0xF817BCCB);
    RoundIs(a, 0x85EBCA77, 0x07060504, 0x03AC98AF, 0xB26D7CDC, 1, 0x38594753, 0x0000070B, 0x00014753, 0x19498968,
               0x0222719B);
    RoundIs(a, 0, 0x0B0A0908, 0x05C661A2, 0x7F2282B8, 0, 0x7F2282B8, 0x00000FE4, 0x000282B8, 0x31A724B3, 0xD4B0C0A4);
    RoundIs(a, 0x61C8864F, 0x0F0E0D0C, 0x07E02A95, 0x4BD78894, 0, 0xADA00EE3, 0x000015B4, 0x00000EE3, 0x012677E4,
               0xDEBB7574);
  }

  lemma StripeLanes(a: Alu)
    requires Plain(a)
    ensures Converge(a, Stripe(a, Start(a, 0), CountingBytes(16))) == 0xE3460F50
  {
    StripeRounds(a);
    StartIs(a, 0, 0, 0x9E3779B1, 1, 0x24234428, 0, 0x85EBCA77, -1, 0x61C8864F);
    RotlIs(a, 0xF817BCCB, 1, 2, 0x8000_0000, 1, 0x7817BCCB, 0xF02F7997);
    RotlIs(a, 0x0222719B, 7, 0x80, 0x200_0000, 1, 0x0022719B, 0x1138CD81);
    RotlIs(a, 0xD4B0C0A4, 12, 0x1000, 0x10_0000, 0x00000D4B, 0x0000C0A4, 0x0C0A4D4B);
    RotlIs(a, 0xDEBB7574, 18, 0x4_0000, 0x4000, 0x00037AED, 0x00003574, 0xD5D37AED);
    AddIs(a, 0xF02F7997, 0x1138CD81, 1, 0x01684718);
    AddIs(a, 0x01684718, 0x0C0A4D4B, 0, 0x0D729463);
    AddIs(a, 0x0D729463, 0xD5D37AED, 0, 0xE3460F50);
  }

  ghost predicate StripeXors(a: Alu) {
    && a.xor(0xE3460F60, 0x0001C68C) == 0xE347C9EC
    && a.xor(0x435714B4, 0x00021AB8) == 0x43550E0C
    && a.xor(0xB72880DC, 0x0000B728) == 0xB72837F4
  }

  lemma MachineStripeXors()
    ensures StripeXors(MACHINE)
  {
    XorIs(0xE3460F60, 0x0001C68C);
    XorIs(0x435714B4, 0x00021AB8);
    XorIs(0xB72880DC, 0x0000B728);
  }

  lemma StripeHash(a: Alu)
    requires Plain(a) && StripeXors(a)
    ensures Hash(a, CountingBytes(16), 0) == 0xB72837F4
  {
    StripeLanes(a);
    LongMessage(a, CountingBytes(16), 0, 0xE3460F50, 0, 0xE3460F60, 0xE3460F60);
    AvalancheIs(a, 0xE3460F60, 0x0001C68C, 0x00000F60, 0xE347C9EC, 0x76E5A28E, 0x435714B4, 0x00021AB8, 0x000014B4,
                   0x43550E0C, 0x3335739C, 0xB72880DC, 0x0000B728, 0x000080DC, 0xB72837F4);
  }

  /** The bytes 0 to 15: one stripe. */
  lemma StripeMessage()
    ensures Hash(MACHINE, CountingBytes(16), 0) == 0xB72837F4
  {
    MachineIsPlain();
    MachineStripeXors();
    StripeHash(MACHINE);
  }

  lemma MixedRounds(a: Alu)
    requires Plain(a)
    ensures Stripe(a, Lanes(0x02D10317, 0x64998966, 0xDEADBEEF, 0x4076453E), CountingBytes(21)) ==
      Lanes(0x339501C1, 0xB0321CE0, 0x20F7E59A, 0x8CCB20B9)
  {
    Words(a, 21);
    RoundIs(a, 0x02D10317, 0x03020100, 0x0192CFBC, 0xE5B87700, 0, 0xE8897A17, 0x00001D11, 0x00017A17, 0x1D35960C,
               0x339501C1);
    RoundIs(a, 0x64998966, 0x07060504, 0x03AC98AF, 0xB26D7CDC, 1, 0x17070642, 0x000002E0, 0x00070642, 0x8AEC4F26,
               0xB0321CE0);
    RoundIs(a, 0xDEADBEEF, 0x0B0A0908, 0x05C661A2, 0x7F2282B8, 1, 0x5DD041A7, 0x00000BBA, 0x000041A7, 0x051270C2,
               0x20F7E59A);
    RoundIs(a, 0x4076453E, 0x0F0E0D0C, 0x07E02A95, 0x4BD78894, 0, 0x8C4DCDD2, 0x00001189, 0x0005CDD2, 0x72C93DA3,
               0x8CCB20B9);
  }

  lemma MixedLanes(a: Alu)
    requires Plain(a)
    ensures Converge(a, Stripe(a, Start(a, 0xDEADBEEF), CountingBytes(21))) == 0x81784915
  {
    MixedRounds(a);
    StartIs(a, 0xDEADBEEF, 1, 0x7CE538A0, 1, 0x02D10317, 1, 0x64998966, 0, 0x4076453E);
    RotlIs(a, 0x339501C1, 1, 2, 0x8000_0000, 0, 0x339501C1, 0x672A0382);
    RotlIs(a, 0xB0321CE0, 7, 0x80, 0x200_0000, 0x58, 0x00321CE0, 0x190E7058);
    RotlIs(a, 0x20F7E59A, 12, 0x1000, 0x10_0000, 0x0000020F, 0x0007E59A, 0x7E59A20F);
    RotlIs(a, 0x8CCB20B9, 18, 0x4_0000, 0x4000, 0x0002332C, 0x000020B9, 0x82E6332C);
    AddIs(a, 0x672A0382, 0x190E7058, 0, 0x803873DA);
    AddIs(a, 0x803873DA, 0x7E59A20F, 0, 0xFE9215E9);
    AddIs(a, 0xFE9215E9, 0x82E6332C, 1, 0x81784915);
  }

  lemma MixedTails(a: Alu)
    requires Plain(a)
    ensures Tail(a, 0x8178492A, CountingBytes(21)[16..]) == 0xD2AC43A5
  {
    LoadIs(a, CountingBytes(21)[16..][..4], 0x10, 0x11, 0x12, 0x13, 0x13121110);
    TailWordIs(a, 0x8178492A, 0x13121110, 0x0E810078, 0xD006F0D0, 1, 0x517F39FA, 0x0000A2FE, 0x000039FA, 0x120AB5F2,
                  0x87E116A2);
    TailByteIs(a, 0x87E116A2, 0x14, 1, 0xBEC019D4, 1, 0x46A13076, 0x00000235, 0x00013076, 0x05E157CD, 0xD2AC43A5);
    WordAndByte(a, 0x8178492A, CountingBytes(21)[16..], 0x13121110, 0x87E116A2, 0xD2AC43A5);
  }

  ghost predicate MixedXors(a: Alu) {
    && a.xor(0xD2AC43A5, 0x0001A558) == 0xD2ADE6FD
    && a.xor(0xA259019B, 0x000512C8) == 0xA25C1353
    && a.xor(0x9AC904C7, 0x00009AC9) == 0x9AC99E0E
  }

  lemma MachineMixedXors()
    ensures MixedXors(MACHINE)
  {
    XorIs(0xD2AC43A5, 0x0001A558);
    XorIs(0xA259019B, 0x000512C8);
    XorIs(0x9AC904C7, 0x00009AC9);
  }

  lemma MixedHash(a: Alu)
    requires Plain(a) && MixedXors(a)
    ensures Hash(a, CountingBytes(21), 0xDEADBEEF) == 0x9AC99E0E
  {
    MixedLanes(a);
    MixedTails(a);
    LongMessage(a, CountingBytes(21), 0xDEADBEEF, 0x81784915, 0, 0x8178492A, 0xD2AC43A5);
    AvalancheIs(a, 0xD2AC43A5, 0x0001A558, 0x000043A5, 0xD2ADE6FD, 0x6E366543, 0xA259019B, 0x000512C8, 0x0000019B,
                   0xA25C1353, 0x7B7B192B, 0x9AC904C7, 0x00009AC9, 0x000004C7, 0x9AC99E0E);
  }

  /** The bytes 0 to 20, with a seed: a stripe, a word and a byte. */
  lemma MixedMessage()
    ensures Hash(MACHINE, CountingBytes(21), 0xDEADBEEF) == 0x9AC99E0E
  {
    MachineIsPlain();
    MachineMixedXors();
    MixedHash(MACHINE);
  }
}
