/**
 Hash values of xxh64. The machine of XXHash64Words is described once in plain integer arithmetic; with that,
 hash values are computed step by step, from the constants of the algorithm written out.
 */
module XXHash64Values {
  import opened Binary
  import opened BitVectors
  import opened Buffers
  import opened XXHash64
  import opened XXHash64Words

  // ----- the machine in plain arithmetic

  function Turn(x: int, p: nat, q: nat): int
    requires q > 0
  {
    (x * p) % 0x1_0000_0000_0000_0000 + x / q
  }

  /** Rotating by `r` digits, where `p` is the power of two and `q` is 2^64 / `p`. */
  ghost predicate RotatesBy(a: Alu, r: nat, p: nat, q: nat)
    requires q > 0
  {
    forall x: u64 {:trigger Turn(x, p, q)} :: a.rotl(x, r) == Turn(x, p, q)
  }

  ghost predicate ShiftsBy(a: Alu, k: nat, q: nat)
    requires q > 0
  {
    forall x: u64 :: a.shr(x, k) == x / q
  }

  ghost predicate Loads4(a: Alu) {
    forall m: seq<byte> | |m| == 4 :: a.load4(m) == FourBytes(m)
  }

  ghost predicate Loads8(a: Alu) {
    forall m: seq<byte> | |m| == 8 :: a.load8(m) == FourBytes(m) + 0x1_0000_0000 * FourBytes(m[4..])
  }

  ghost predicate Plain(a: Alu) {
    && (forall x, y {:trigger Add64(x, y)} :: a.add(x, y) == Add64(x, y))
    && (forall x, y {:trigger Sub64(x, y)} :: a.sub(x, y) == Sub64(x, y))
    && (forall x, y {:trigger Mul64(x, y)} :: a.mul(x, y) == Mul64(x, y))
    && RotatesBy(a, 1, 2, 0x8000_0000_0000_0000) && RotatesBy(a, 7, 0x80, 0x200_0000_0000_0000)
    && RotatesBy(a, 11, 0x800, 0x20_0000_0000_0000) && RotatesBy(a, 12, 0x1000, 0x10_0000_0000_0000)
    && RotatesBy(a, 18, 0x4_0000, 0x4000_0000_0000) && RotatesBy(a, 23, 0x80_0000, 0x200_0000_0000)
    && RotatesBy(a, 27, 0x800_0000, 0x20_0000_0000) && RotatesBy(a, 31, 0x8000_0000, 0x2_0000_0000)
    && ShiftsBy(a, 29, 0x2000_0000) && ShiftsBy(a, 32, 0x1_0000_0000) && ShiftsBy(a, 33, 0x2_0000_0000)
    && Loads8(a) && Loads4(a)
  }

  lemma Powers()
    ensures Pow2(1) == 2 && Pow2(7) == 0x80 && Pow2(11) == 0x800 && Pow2(12) == 0x1000 && Pow2(18) == 0x4_0000
    ensures Pow2(23) == 0x80_0000 && Pow2(27) == 0x800_0000 && Pow2(29) == 0x2000_0000 && Pow2(31) == 0x8000_0000
    ensures Pow2(32) == 0x1_0000_0000 && Pow2(33) == 0x2_0000_0000
  {
    assert Pow2(4) == 0x10;
    Pow2Add(7, 4);
    Pow2Add(11, 7);
    Pow2Add(11, 12);
    Pow2Add(23, 4);
    Pow2Add(18, 11);
    Pow2Add(27, 4);
  }

  lemma Rotates(x: u64, r: nat, p: nat, q: nat)
    requires r <= 64 && p == Pow2(r) && q == Pow2(64 - r) && p * q == 0x1_0000_0000_0000_0000
    ensures Rotl64(x, r) == Turn(x, p, q)
  {
    Pow2Add(r, 64 - r);
    Shifts(x, 64 - r, q);
    RotlParts(64, x, r);
    Split(x, 64 - r);
    LowBound(x, 64 - r);
    RotateArithmetic(x, p, q, Shr(x, 64 - r), Low(x, 64 - r));
  }

  /** The other power of two. */
  lemma OtherPower(r: nat, p: nat, q: nat)
    requires r <= 64 && p == Pow2(r) && p * q == 0x1_0000_0000_0000_0000
    ensures q == Pow2(64 - r)
  {
    WordSizes();
    Pow2Add(r, 64 - r);
    SameFactor(p, q, Pow2(64 - r));
  }

  lemma MachineRotates(r: nat, p: nat, q: nat)
    requires r <= 64 && p == Pow2(r) && p * q == 0x1_0000_0000_0000_0000
    ensures q > 0 && RotatesBy(MACHINE, r, p, q)
  {
    OtherPower(r, p, q);
    forall x: u64 ensures MACHINE.rotl(x, r) == Turn(x, p, q) {
      Rotates(x, r, p, q);
    }
  }

  lemma MachineShifts(k: nat, q: nat)
    requires q == Pow2(k)
    ensures ShiftsBy(MACHINE, k, q)
  {
    forall x: u64 ensures MACHINE.shr(x, k) == x / q {
      Shifts(x, k, q);
    }
  }

  lemma MachineLoads()
    ensures Loads4(MACHINE) && Loads8(MACHINE)
  {
    forall m: seq<byte> | |m| == 4 ensures MACHINE.load4(m) == FourBytes(m) {
      assert m[..4] == m && m[4..] == [];
      LittleEndianStep(m);
    }
    forall m: seq<byte> | |m| == 8 ensures MACHINE.load8(m) == FourBytes(m) + 0x1_0000_0000 * FourBytes(m[4..]) {
      assert m[..8] == m && m[4..][4..] == [];
      LittleEndianStep(m);
      LittleEndianStep(m[4..]);
    }
  }

  lemma MachineIsPlain()
    ensures Plain(MACHINE)
  {
    Powers();
    MachineRotates(1, 2, 0x8000_0000_0000_0000);
    MachineRotates(7, 0x80, 0x200_0000_0000_0000);
    MachineRotates(11, 0x800, 0x20_0000_0000_0000);
    MachineRotates(12, 0x1000, 0x10_0000_0000_0000);
    MachineRotates(18, 0x4_0000, 0x4000_0000_0000);
    MachineRotates(23, 0x80_0000, 0x200_0000_0000);
    MachineRotates(27, 0x800_0000, 0x20_0000_0000);
    MachineRotates(31, 0x8000_0000, 0x2_0000_0000);
    MachineShifts(29, 0x2000_0000);
    MachineShifts(32, 0x1_0000_0000);
    MachineShifts(33, 0x2_0000_0000);
    MachineLoads();
  }

  // ----- the steps, with the quotients that remainders and shifts need

  /** `z` is `x` wrapped around, `q` times. */
  ghost predicate Wraps(x: int, q: int, z: int) {
    x == q * 0x1_0000_0000_0000_0000 + z && 0 <= z < 0x1_0000_0000_0000_0000
  }

  lemma WrapsIs(x: int, q: int, z: int)
    requires Wraps(x, q, z)
    ensures x % 0x1_0000_0000_0000_0000 == z
  {
    QuotientUnique(x / 0x1_0000_0000_0000_0000, x % 0x1_0000_0000_0000_0000, q, z, 0x1_0000_0000_0000_0000);
  }

  lemma AddIs(a: Alu, x: u64, y: u64, c: int, z: int)
    requires Plain(a) && Wraps(x + y, c, z)
    ensures a.add(x, y) == z
  {
    WrapsIs(x + y, c, z);
    assert Add64(x, y) == z;
  }

  lemma MulIs(a: Alu, x: u64, y: u64, k: int, z: int)
    requires Plain(a) && Wraps(x * y, k, z)
    ensures a.mul(x, y) == z
  {
    WrapsIs(x * y, k, z);
    assert Mul64(x, y) == z;
  }

  lemma RotlIs(a: Alu, x: u64, r: nat, p: nat, q: nat, hi: int, lo: int, z: int)
    requires p > 0 && q > 0 && p * q == 0x1_0000_0000_0000_0000 && RotatesBy(a, r, p, q)
    requires Parts(x, q, hi, lo) && z == lo * p + hi
    ensures a.rotl(x, r) == z
  {
    PartsTurn(x, p, q, hi, lo);
  }

  lemma PartsTurn(x: u64, p: nat, q: nat, hi: int, lo: int)
    requires p > 0 && q > 0 && p * q == 0x1_0000_0000_0000_0000 && Parts(x, q, hi, lo)
    ensures Turn(x, p, q) == lo * p + hi
  {
    QuotientUnique(x / q, x % q, hi, lo, q);
    RotateArithmetic(x, p, q, hi, lo);
  }

  lemma ShrIs(a: Alu, x: u64, k: nat, q: nat, hi: int, lo: int)
    requires q > 0 && ShiftsBy(a, k, q) && Parts(x, q, hi, lo)
    ensures a.shr(x, k) == hi
  {
    QuotientUnique(x / q, x % q, hi, lo, q);
  }

  lemma StartIs(a: Alu, seed: u64, c0: int, v0: int, c1: int, v1: u64, c2: int, v2: u64, c4: int, v4: u64)
    requires Plain(a)
    requires Wraps(seed + 11400714785074694791, c0, v0) && Wraps(v0 + 14029467366897019727, c1, v1)
    requires Wraps(seed + 14029467366897019727, c2, v2) && Wraps(seed - 11400714785074694791, c4, v4)
    ensures Start(a, seed) == Lanes(v1, v2, seed, v4)
  {
    AddIs(a, seed, 11400714785074694791, c0, v0);
    AddIs(a, v0, 14029467366897019727, c1, v1);
    AddIs(a, seed, 14029467366897019727, c2, v2);
    WrapsIs(seed - 11400714785074694791, c4, v4);
    assert Sub64(seed, 11400714785074694791) == v4;
  }

  /** Multiplying `y` by `m`, adding that to `x`, rotating, and multiplying by `n`. */
  ghost predicate MixSteps(x: int, y: int, m: int, p: int, q: int, n: int, k: int, f: int, c: int, s: int, hi: int,
                           lo: int, j: int, z: int) {
    && Wraps(y * m, k, f) && Wraps(x + f, c, s) && Parts(s, q, hi, lo) && Wraps((lo * p + hi) * n, j, z)
  }

  lemma MixIs(a: Alu, x: u64, y: u64, m: u64, r: nat, p: nat, q: nat, n: u64, k: int, f: int, c: int, s: int, hi: int,
              lo: int, j: int, z: int)
    requires Plain(a) && p > 0 && q > 0 && p * q == 0x1_0000_0000_0000_0000 && RotatesBy(a, r, p, q)
    requires MixSteps(x, y, m, p, q, n, k, f, c, s, hi, lo, j, z)
    ensures a.mul(a.rotl(a.add(x, a.mul(y, m)), r), n) == z
  {
    MulIs(a, y, m, k, f);
    AddIs(a, x, f, c, s);
    RotlIs(a, s, r, p, q, hi, lo, lo * p + hi);
    MulIs(a, a.rotl(s, r), n, j, z);
  }

  lemma RoundIs(a: Alu, x: u64, y: u64, k: int, f: int, c: int, s: int, hi: int, lo: int, j: int, z: int)
    requires Plain(a)
    requires MixSteps(x, y, 14029467366897019727, 0x8000_0000, 0x2_0000_0000, 11400714785074694791, k, f, c, s, hi, lo,
                      j, z)
    ensures Round(a, x, y) == z
  {
    MixIs(a, x, y, 14029467366897019727, 31, 0x8000_0000, 0x2_0000_0000, 11400714785074694791, k, f, c, s, hi, lo,
          j, z);
  }

  lemma MergeRoundIs(a: Alu, acc: u64, val: u64, y: u64, x: u64, k: int, p: int, c: int, z: int)
    requires Plain(a)
    requires Wraps(x * 11400714785074694791, k, p) && Wraps(p + 9650029242287828579, c, z)
    requires Round(a, 0, val) == y && a.xor(acc, y) == x
    ensures MergeRound(a, acc, val) == z
  {
    MulIs(a, x, 11400714785074694791, k, p);
    AddIs(a, p, 9650029242287828579, c, z);
  }

  lemma Tail8Is(a: Alu, h: u64, input: u64, y: u64, x: u64, hi: int, lo: int, k: int, p: int, c: int, z: int)
    requires Plain(a)
    requires Parts(x, 0x20_0000_0000, hi, lo) && Wraps((lo * 0x800_0000 + hi) * 11400714785074694791, k, p)
    requires Wraps(p + 9650029242287828579, c, z) && Round(a, 0, input) == y && a.xor(h, y) == x
    ensures Tail8(a, h, input) == z
  {
    RotlIs(a, x, 27, 0x800_0000, 0x20_0000_0000, hi, lo, lo * 0x800_0000 + hi);
    MulIs(a, a.rotl(x, 27), 11400714785074694791, k, p);
    AddIs(a, p, 9650029242287828579, c, z);
  }

  lemma Tail4Is(a: Alu, h: u64, input: u64, f: int, y: u64, x: u64, hi: int, lo: int, k: int, p: int, c: int, z: int)
    requires Plain(a)
    requires Wraps(input * 11400714785074694791, f, y) && Parts(x, 0x200_0000_0000, hi, lo)
    requires Wraps((lo * 0x80_0000 + hi) * 14029467366897019727, k, p) && Wraps(p + 1609587929392839161, c, z)
    requires a.xor(h, y) == x
    ensures Tail4(a, h, input) == z
  {
    MulIs(a, input, 11400714785074694791, f, y);
    RotlIs(a, x, 23, 0x80_0000, 0x200_0000_0000, hi, lo, lo * 0x80_0000 + hi);
    MulIs(a, a.rotl(x, 23), 14029467366897019727, k, p);
    AddIs(a, p, 1609587929392839161, c, z);
  }

  lemma Tail1Is(a: Alu, h: u64, input: byte, f: int, y: u64, x: u64, hi: int, lo: int, k: int, z: int)
    requires Plain(a)
    requires Wraps(input * 2870177450012600261, f, y) && Parts(x, 0x20_0000_0000_0000, hi, lo)
    requires Wraps((lo * 0x800 + hi) * 11400714785074694791, k, z) && a.xor(h, y) == x
    ensures Tail1(a, h, input) == z
  {
    MulIs(a, input, 2870177450012600261, f, y);
    RotlIs(a, x, 11, 0x800, 0x20_0000_0000_0000, hi, lo, lo * 0x800 + hi);
    MulIs(a, a.rotl(x, 11), 11400714785074694791, k, z);
  }

  lemma AvalancheIs(a: Alu, h: u64, s: u64, d: int, x: u64, k: int, h1: u64, s1: u64, d1: int, x1: u64, j: int,
                    h2: u64, s2: u64, d2: int, z: u64)
    requires Plain(a)
    requires Parts(h, 0x2_0000_0000, s, d) && Wraps(x * 14029467366897019727, k, h1) && Parts(h1, 0x2000_0000, s1, d1)
    requires Wraps(x1 * 1609587929392839161, j, h2) && Parts(h2, 0x1_0000_0000, s2, d2)
    requires a.xor(h, s) == x && a.xor(h1, s1) == x1 && a.xor(h2, s2) == z
    ensures Avalanche(a, h) == z
  {
    ShrIs(a, h, 33, 0x2_0000_0000, s, d);
    MulIs(a, x, 14029467366897019727, k, h1);
    ShrIs(a, h1, 29, 0x2000_0000, s1, d1);
    MulIs(a, x1, 1609587929392839161, j, h2);
    ShrIs(a, h2, 32, 0x1_0000_0000, s2, d2);
  }

  // ----- messages by their length

  lemma ShortMessage(a: Alu, m: seq<byte>, seed: u64, d: int, s: u64, c: int, h: u64, t: u64)
    requires Plain(a) && |m| < 32
    requires Wraps(seed + 2870177450012600261, d, s) && Wraps(s + |m|, c, h) && Tail(a, h, m) == t
    ensures Hash(a, m, seed) == Avalanche(a, t)
  {
    AddIs(a, seed, 2870177450012600261, d, s);
    AddIs(a, s, |m|, c, h);
    ShortHash(a, m, seed);
  }

  lemma ShortHash(a: Alu, m: seq<byte>, seed: u64)
    requires |m| < 32
    ensures Hash(a, m, seed) == Avalanche(a, Tail(a, a.add(a.add(seed, PRIME64_5), |m|), m))
  {
    assert Stripes(a, Start(a, seed), m) == Start(a, seed) && Rest(m) == m;
  }

  lemma LongMessage(a: Alu, m: seq<byte>, seed: u64, s: u64, c: int, h: u64, t: u64)
    requires Plain(a) && 32 <= |m| < 64 && Wraps(s + |m|, c, h) && Tail(a, h, m[32..]) == t
    requires Converge(a, Stripe(a, Start(a, seed), m)) == s
    ensures Hash(a, m, seed) == Avalanche(a, t)
  {
    AddIs(a, s, |m|, c, h);
    LongHash(a, m, seed);
  }

  lemma LongHash(a: Alu, m: seq<byte>, seed: u64)
    requires 32 <= |m| < 64
    ensures var s := Converge(a, Stripe(a, Start(a, seed), m));
      Hash(a, m, seed) == Avalanche(a, Tail(a, a.add(s, |m|), m[32..]))
  {
    assert Stripes(a, Stripe(a, Start(a, seed), m), m[32..]) == Stripe(a, Start(a, seed), m);
    assert Rest(m[32..]) == m[32..];
  }

  lemma MergeLanesIs(a: Alu, l: Lanes, h: u64, h2: u64, z: u64)
    requires a.add(a.add(a.add(a.rotl(l.v1, 1), a.rotl(l.v2, 7)), a.rotl(l.v3, 12)), a.rotl(l.v4, 18)) == h
    requires MergeRound(a, MergeRound(a, h, l.v1), l.v2) == h2 && MergeRound(a, MergeRound(a, h2, l.v3), l.v4) == z
    ensures Converge(a, l) == z
  {
  }

  lemma ThreeBytes(a: Alu, h: u64, x: byte, y: byte, z: byte, h1: u64, h2: u64, h3: u64)
    requires Tail1(a, h, x) == h1 && Tail1(a, h1, y) == h2 && Tail1(a, h2, z) == h3
    ensures Tail(a, h, [x, y, z]) == h3
  {
    assert [x, y, z][1..] == [y, z] && [y, z][1..] == [z] && [z][1..] == [];
    assert Tail(a, h2, [z]) == h3;
  }

  lemma HalfWord(a: Alu, h: u64, m: seq<byte>, w: u64, h1: u64)
    requires |m| == 4 && a.load4(m) == w && Tail4(a, h, w) == h1
    ensures Tail(a, h, m) == h1
  {
    assert m[..4] == m && m[4..] == [];
  }

  lemma EveryUnit(a: Alu, h: u64, m: seq<byte>, w: u64, v: u64, h1: u64, h3: u64)
    requires |m| == 13 && a.load8(m[..8]) == w && a.load4(m[8..][..4]) == v
    requires Tail8(a, h, w) == h1 && Tail1(a, Tail4(a, h1, v), m[12]) == h3
    ensures Tail(a, h, m) == h3
  {
    assert m[8..][4..] == [m[12]] && [m[12]][1..] == [];
    assert Tail(a, Tail4(a, h1, v), [m[12]]) == h3;
    assert Tail(a, h1, m[8..]) == h3;
  }

  lemma Load8Is(a: Alu, m: seq<byte>, b0: byte, lo: nat, hi: nat, z: u64)
    requires Plain(a) && |m| == 8 && b0 <= 248 && forall i | 0 <= i < 8 :: m[i] == b0 + i
    requires lo == b0 * 0x0101_0101 + 0x0302_0100 && hi == lo + 0x0404_0404 && z == lo + 0x1_0000_0000 * hi
    ensures a.load8(m) == z
  {
    assert FourBytes(m) == lo && FourBytes(m[4..]) == hi;
  }

  lemma Load4Is(a: Alu, m: seq<byte>, b0: byte, b1: byte, b2: byte, b3: byte, z: u64)
    requires Plain(a) && m == [b0, b1, b2, b3]
    requires z == b0 as int + 0x100 * b1 as int + 0x1_0000 * b2 as int + 0x100_0000 * b3 as int
    ensures a.load4(m) == z
  {
  }

  /** The words of the first stripe. */
  lemma Words(a: Alu, n: nat)
    requires Plain(a) && 32 <= n <= 256
    ensures a.load8(CountingBytes(n)[0..8]) == 0x0706050403020100
    ensures a.load8(CountingBytes(n)[8..16]) == 0x0F0E0D0C0B0A0908
    ensures a.load8(CountingBytes(n)[16..24]) == 0x1716151413121110
    ensures a.load8(CountingBytes(n)[24..32]) == 0x1F1E1D1C1B1A1918
  {
    Load8Is(a, CountingBytes(n)[0..8], 0, 0x03020100, 0x07060504, 0x0706050403020100);
    Load8Is(a, CountingBytes(n)[8..16], 8, 0x0B0A0908, 0x0F0E0D0C, 0x0F0E0D0C0B0A0908);
    Load8Is(a, CountingBytes(n)[16..24], 16, 0x13121110, 0x17161514, 0x1716151413121110);
    Load8Is(a, CountingBytes(n)[24..32], 24, 0x1B1A1918, 0x1F1E1D1C, 0x1F1E1D1C1B1A1918);
  }

  // ----- values

  ghost predicate EmptyHashXors(a: Alu) {
    && a.xor(0x27D4EB2F165667C5, 0x13EA7597) == 0x27D4EB2F05BC1252
    && a.xor(0xBEB13DDA13C2ED4E, 0x00000005F589EED0) == 0xBEB13DDFE64B039E
    && a.xor(0xEF46DB37BE9E32AE, 0xEF46DB37) == 0xEF46DB3751D8E999
  }

  lemma MachineEmptyHashXors()
    ensures EmptyHashXors(MACHINE)
  {
    XorIs(0x27D4EB2F165667C5, 0x13EA7597);
    XorIs(0xBEB13DDA13C2ED4E, 0x00000005F589EED0);
    XorIs(0xEF46DB37BE9E32AE, 0xEF46DB37);
  }

  lemma EmptyHashIs(a: Alu)
    requires Plain(a) && EmptyHashXors(a)
    ensures Hash(a, [], 0) == 0xEF46DB3751D8E999
  {
    ShortMessage(a, [], 0, 0, 0x27D4EB2F165667C5, 0, 0x27D4EB2F165667C5, 0x27D4EB2F165667C5);
    AvalancheIs(a, 0x27D4EB2F165667C5, 0x13EA7597, 0x00000001165667C5, 0x27D4EB2F05BC1252, 0x1E4B276164D31384,
                   0xBEB13DDA13C2ED4E, 0x00000005F589EED0, 0x13C2ED4E, 0xBEB13DDFE64B039E, 0x10A39819A54D6418,
                   0xEF46DB37BE9E32AE, 0xEF46DB37, 0xBE9E32AE, 0xEF46DB3751D8E999);
  }

  /** The hash of the empty message. */
  lemma EmptyMessage()
    ensures Hash(MACHINE, [], 0) == 0xEF46DB3751D8E999
  {
    MachineIsPlain();
    MachineEmptyHashXors();
    EmptyHashIs(MACHINE);
  }

  ghost predicate AbcTailXors(a: Alu) {
    && a.xor(0x27D4EB2F165667C8, 0x17AD1CD776BD51A5) == 0x3079F7F860EB366D
    && a.xor(0x0E6D11BDC91F0215, 0x3F8208068D13B96A) == 0x31EF19BB440CBB7F
    && a.xor(0x791983E9AB307069, 0x6756F335A36A212F) == 0x1E4F70DC085A5146
  }

  lemma MachineAbcTailXors()
    ensures AbcTailXors(MACHINE)
  {
    XorIs(0x27D4EB2F165667C8, 0x17AD1CD776BD51A5);
    XorIs(0x0E6D11BDC91F0215, 0x3F8208068D13B96A);
    XorIs(0x791983E9AB307069, 0x6756F335A36A212F);
  }

  lemma AbcTailIs(a: Alu)
    requires Plain(a) && AbcTailXors(a)
    ensures Tail(a, 0x27D4EB2F165667C8, [0x61, 0x62, 0x63]) == 0xE87A46F8B9A4C39E
  {
    Tail1Is(a, 0x27D4EB2F165667C8, 0x61, 0xF, 0x17AD1CD776BD51A5, 0x3079F7F860EB366D, 0x00000183, 0x0019F7F860EB366D,
               0x80655F5323634BDB, 0x0E6D11BDC91F0215);
    Tail1Is(a, 0x0E6D11BDC91F0215, 0x62, 0xF, 0x3F8208068D13B96A, 0x31EF19BB440CBB7F, 0x0000018F, 0x000F19BB440CBB7F,
               0x4AA93A46ED72FDB0, 0x791983E9AB307069);
    Tail1Is(a, 0x791983E9AB307069, 0x63, 0xF, 0x6756F335A36A212F, 0x1E4F70DC085A5146, 0xF2, 0x000F70DC085A5146,
               0x4C58031BD52C02A8, 0xE87A46F8B9A4C39E);
    ThreeBytes(a, 0x27D4EB2F165667C8, 0x61, 0x62, 0x63, 0x0E6D11BDC91F0215, 0x791983E9AB307069, 0xE87A46F8B9A4C39E);
  }

  ghost predicate AbcHashXors(a: Alu) {
    && a.xor(0xE87A46F8B9A4C39E, 0x743D237C) == 0xE87A46F8CD99E0E2
    && a.xor(0xDFE7320E5D13DBBE, 0x00000006FF399072) == 0xDFE73208A22A4BCC
    && a.xor(0x44BC2CF5E9CB256C, 0x44BC2CF5) == 0x44BC2CF5AD770999
  }

  lemma MachineAbcHashXors()
    ensures AbcHashXors(MACHINE)
  {
    XorIs(0xE87A46F8B9A4C39E, 0x743D237C);
    XorIs(0xDFE7320E5D13DBBE, 0x00000006FF399072);
    XorIs(0x44BC2CF5E9CB256C, 0x44BC2CF5);
  }

  lemma AbcHashIs(a: Alu)
    requires Plain(a) && AbcTailXors(a) && AbcHashXors(a)
    ensures Hash(a, [0x61, 0x62, 0x63], 0) == 0x44BC2CF5AD770999
  {
    AbcTailIs(a);
    ShortMessage(a, [0x61, 0x62, 0x63], 0, 0, 0x27D4EB2F165667C5, 0, 0x27D4EB2F165667C8, 0xE87A46F8B9A4C39E);
    AvalancheIs(a, 0xE87A46F8B9A4C39E, 0x743D237C, 0xB9A4C39E, 0xE87A46F8CD99E0E2, 0xB0CEED088A599233,
                   0xDFE7320E5D13DBBE, 0x00000006FF399072, 0x1D13DBBE, 0xDFE73208A22A4BCC, 0x138970A8EB32642B,
                   0x44BC2CF5E9CB256C, 0x44BC2CF5, 0xE9CB256C, 0x44BC2CF5AD770999);
  }

  /** "abc": three bytes and no whole word. */
  lemma AbcMessage()
    ensures Hash(MACHINE, [0x61, 0x62, 0x63], 0) == 0x44BC2CF5AD770999
  {
    MachineIsPlain();
    MachineAbcTailXors();
    MachineAbcHashXors();
    AbcHashIs(MACHINE);
  }

  ghost predicate AbcdTailXors(a: Alu) {
    && a.xor(0x27D4EB2F165667C9, 0x9791F6D410146B27) == 0xB0451DFB06420CEE
  }

  lemma MachineAbcdTailXors()
    ensures AbcdTailXors(MACHINE)
  {
    XorIs(0x27D4EB2F165667C9, 0x9791F6D410146B27);
  }

  lemma AbcdTailIs(a: Alu)
    requires Plain(a) && AbcdTailXors(a)
    ensures Tail(a, 0x27D4EB2F165667C9, [0x61, 0x62, 0x63, 0x64]) == 0x00E08A5499BA7DCB
  {
    Load4Is(a, [0x61, 0x62, 0x63, 0x64], 0x61, 0x62, 0x63, 0x64, 0x64636261);
    Tail4Is(a, 0x27D4EB2F165667C9, 0x64636261, 0x3E0B17CA, 0x9791F6D410146B27, 0xB0451DFB06420CEE, 0x0058228E,
               0x000001FB06420CEE, 0xC0CE50BF8D12DCC4, 0xEA8A22A2FB8303D2, 1, 0x00E08A5499BA7DCB);
    HalfWord(a, 0x27D4EB2F165667C9, [0x61, 0x62, 0x63, 0x64], 0x64636261, 0x00E08A5499BA7DCB);
  }

  ghost predicate AbcdHashXors(a: Alu) {
    && a.xor(0x00E08A5499BA7DCB, 0x0070452A) == 0x00E08A5499CA38E1
    && a.xor(0xFC0DFF0678F2186F, 0x00000007E06FF833) == 0xFC0DFF01989DE05C
    && a.xor(0xDE0327B00C5EB57C, 0xDE0327B0) == 0xDE0327B0D25D92CC
  }

  lemma MachineAbcdHashXors()
    ensures AbcdHashXors(MACHINE)
  {
    XorIs(0x00E08A5499BA7DCB, 0x0070452A);
    XorIs(0xFC0DFF0678F2186F, 0x00000007E06FF833);
    XorIs(0xDE0327B00C5EB57C, 0xDE0327B0);
  }

  lemma AbcdHashIs(a: Alu)
    requires Plain(a) && AbcdTailXors(a) && AbcdHashXors(a)
    ensures Hash(a, [0x61, 0x62, 0x63, 0x64], 0) == 0xDE0327B0D25D92CC
  {
    AbcdTailIs(a);
    ShortMessage(a, [0x61, 0x62, 0x63, 0x64], 0, 0, 0x27D4EB2F165667C5, 0, 0x27D4EB2F165667C9, 0x00E08A5499BA7DCB);
    AvalancheIs(a, 0x00E08A5499BA7DCB, 0x0070452A, 0x99BA7DCB, 0x00E08A5499CA38E1, 0x00AAC58D1F079439,
                   0xFC0DFF0678F2186F, 0x00000007E06FF833, 0x18F2186F, 0xFC0DFF01989DE05C, 0x15FE46B650B50D4F,
                   0xDE0327B00C5EB57C, 0xDE0327B0, 0x0C5EB57C, 0xDE0327B0D25D92CC);
  }

  /** "abcd": half a word. */
  lemma AbcdMessage()
    ensures Hash(MACHINE, [0x61, 0x62, 0x63, 0x64], 0) == 0xDE0327B0D25D92CC
  {
    MachineIsPlain();
    MachineAbcdTailXors();
    MachineAbcdHashXors();
    AbcdHashIs(MACHINE);
  }

  lemma MixedRoundIs(a: Alu)
    requires Plain(a)
    ensures Stripe(a, Lanes(0x620D6D56376C83C5, 0xC3D5F3A4B180B93E, 0x0123456789ABCDEF, 0x62EBCBB603C00368),
                   CountingBytes(45)) ==
      Lanes(0x4DCD1B4950EA68FE, 0xBB22A4F4B62DFA4D, 0xC27619AB5F0C2A2B, 0x919429A53E63F0F3)
  {
    Words(a, 45);
    RoundIs(a, 0x620D6D56376C83C5, 0x0706050403020100, 0x055776C44C014A5B, 0x3B6643CF98894F00, 0, 0x9D73B125CFF5D2C5,
               0x4EB9D892, 0x00000001CFF5D2C5, 0x8F5F213995F734B9, 0x4DCD1B4950EA68FE);
    RoundIs(a, 0xC3D5F3A4B180B93E, 0x0F0E0D0C0B0A0908, 0x0B7327E7584C3CA7, 0xFA0F577151032178, 1, 0xBDE54B160283DAB6,
               0x5EF2A58B, 0x0283DAB6, 0x00C6F6416BA8DD2E, 0xBB22A4F4B62DFA4D);
    RoundIs(a, 0x0123456789ABCDEF, 0x1716151413121110, 0x118ED90A64972EF4, 0xB8B86B13097CF3F0, 0, 0xB9DBB07A9328C1DF,
               0x5CEDD83D, 0x9328C1DF, 0x2D7985AF05C9839A, 0xC27619AB5F0C2A2B);
    RoundIs(a, 0x62EBCBB603C00368, 0x1F1E1D1C1B1A1918, 0x17AA8A2D70E22141, 0x77617EB4C1F6C668, 0, 0xDA4D4A6AC5B6C9D0,
               0x6D26A535, 0xC5B6C9D0, 0x3D18D4686166F696, 0x919429A53E63F0F3);
  }

  lemma MixedSumIs(a: Alu)
    requires Plain(a)
    ensures a.add(a.add(a.add(a.rotl(0x4DCD1B4950EA68FE, 1),
                        a.rotl(0xBB22A4F4B62DFA4D, 7)), a.rotl(0xC27619AB5F0C2A2B, 12)),
                  a.rotl(0x919429A53E63F0F3, 18)) ==
      0x351C606E3F42FB50
  {
    RotlIs(a, 0x4DCD1B4950EA68FE, 1, 2, 0x8000_0000_0000_0000, 0, 0x4DCD1B4950EA68FE, 0x9B9A3692A1D4D1FC);
    RotlIs(a, 0xBB22A4F4B62DFA4D, 7, 0x80, 0x200_0000_0000_0000, 0x5D, 0x0122A4F4B62DFA4D, 0x91527A5B16FD26DD);
    RotlIs(a, 0xC27619AB5F0C2A2B, 12, 0x1000, 0x10_0000_0000_0000, 0x00000C27, 0x000619AB5F0C2A2B, 0x619AB5F0C2A2BC27);
    RotlIs(a, 0x919429A53E63F0F3, 18, 0x4_0000, 0x4000_0000_0000, 0x00024650, 0x000029A53E63F0F3, 0xA694F98FC3CE4650);
    AddIs(a, 0x9B9A3692A1D4D1FC, 0x91527A5B16FD26DD, 1, 0x2CECB0EDB8D1F8D9);
    AddIs(a, 0x2CECB0EDB8D1F8D9, 0x619AB5F0C2A2BC27, 0, 0x8E8766DE7B74B500);
    AddIs(a, 0x8E8766DE7B74B500, 0xA694F98FC3CE4650, 1, 0x351C606E3F42FB50);
  }

  ghost predicate MixedFirstXors(a: Alu) {
    && a.xor(0x351C606E3F42FB50, 0x459AD3A07D2E2DE3) == 0x7086B3CE426CD6B3
    && a.xor(0x56DEEEDDC0D224C8, 0xBACE983EE3F83891) == 0xEC1076E3232A1C59
  }

  lemma MachineMixedFirstXors()
    ensures MixedFirstXors(MACHINE)
  {
    XorIs(0x351C606E3F42FB50, 0x459AD3A07D2E2DE3);
    XorIs(0x56DEEEDDC0D224C8, 0xBACE983EE3F83891);
  }

  lemma MixedFirstIs(a: Alu)
    requires Plain(a) && MixedFirstXors(a)
    ensures MergeRound(a, MergeRound(a, 0x351C606E3F42FB50, 0x4DCD1B4950EA68FE), 0xBB22A4F4B62DFA4D) ==
      0x60D288E9CAF8DB52
  {
    RoundIs(a, 0, 0x4DCD1B4950EA68FE, 0x3B2BBC3E86D2308B, 0x2636198ACB0F9062, 0, 0x2636198ACB0F9062, 0x131B0CC5,
               0xCB0F9062, 0x3EBFCDFDE1F377A0, 0x459AD3A07D2E2DE3);
    MergeRoundIs(a, 0x351C606E3F42FB50, 0x4DCD1B4950EA68FE, 0x459AD3A07D2E2DE3, 0x7086B3CE426CD6B3, 0x458B8567A14BE0FC,
                    0xD0F32465FE1F7665, 1, 0x56DEEEDDC0D224C8);
    RoundIs(a, 0, 0xBB22A4F4B62DFA4D, 0x8E52DE7664B3119D, 0x7C24644E6FB8ECC3, 0, 0x7C24644E6FB8ECC3, 0x3E123227,
               0x6FB8ECC3, 0x22862BFBB2EA1A5A, 0xBACE983EE3F83891);
    MergeRoundIs(a, 0x56DEEEDDC0D224C8, 0xBB22A4F4B62DFA4D, 0xBACE983EE3F83891, 0xEC1076E3232A1C59, 0x91E55121359215D7,
                    0xDAE6BE7208462CEF, 1, 0x60D288E9CAF8DB52);
  }

  ghost predicate MixedSecondXors(a: Alu) {
    && a.xor(0x60D288E9CAF8DB52, 0x9ACA28A82B0CDA10) == 0xFA18A041E1F40142
    && a.xor(0xBDB589C6E4F36C31, 0x185EC67EFB599BB7) == 0xA5EB4FB81FAAF786
  }

  lemma MachineMixedSecondXors()
    ensures MixedSecondXors(MACHINE)
  {
    XorIs(0x60D288E9CAF8DB52, 0x9ACA28A82B0CDA10);
    XorIs(0xBDB589C6E4F36C31, 0x185EC67EFB599BB7);
  }

  lemma MixedSecondIs(a: Alu)
    requires Plain(a) && MixedSecondXors(a)
    ensures MergeRound(a, MergeRound(a, 0x60D288E9CAF8DB52, 0xC27619AB5F0C2A2B), 0x919429A53E63F0F3) ==
      0x1E607BBD332CF20D
  {
    RoundIs(a, 0, 0xC27619AB5F0C2A2B, 0x93E539EC7107A14E, 0x9BDD12E0F8127C45, 0, 0x9BDD12E0F8127C45, 0x4DEE8970,
               0xF8127C45, 0x4CA8954C3638EC5D, 0x9ACA28A82B0CDA10);
    MergeRoundIs(a, 0x60D288E9CAF8DB52, 0xC27619AB5F0C2A2B, 0x9ACA28A82B0CDA10, 0xFA18A041E1F40142, 0x9A91651629373B45,
                    0x37C9BF4F2240BDCE, 0, 0xBDB589C6E4F36C31);
    RoundIs(a, 0, 0x919429A53E63F0F3, 0x6EB7E3A9A97001B8, 0x12D802A38D426BFD, 0, 0x12D802A38D426BFD, 0x096C0151,
               0x000000018D426BFD, 0x7AC28A61A2648723, 0x185EC67EFB599BB7);
    MergeRoundIs(a, 0xBDB589C6E4F36C31, 0x919429A53E63F0F3, 0x185EC67EFB599BB7, 0xA5EB4FB81FAAF786, 0x668B2FA10B468A75,
                    0x9874B145707A43AA, 1, 0x1E607BBD332CF20D);
  }

  lemma MixedConvergeIs(a: Alu)
    requires Plain(a) && MixedFirstXors(a) && MixedSecondXors(a)
    ensures Converge(a, Lanes(0x4DCD1B4950EA68FE, 0xBB22A4F4B62DFA4D, 0xC27619AB5F0C2A2B, 0x919429A53E63F0F3)) ==
      0x1E607BBD332CF20D
  {
    MixedSumIs(a);
    MixedFirstIs(a);
    MixedSecondIs(a);
    MergeLanesIs(a, Lanes(0x4DCD1B4950EA68FE, 0xBB22A4F4B62DFA4D, 0xC27619AB5F0C2A2B, 0x919429A53E63F0F3),
                    0x351C606E3F42FB50, 0x60D288E9CAF8DB52, 0x1E607BBD332CF20D);
  }

  ghost predicate MixedWordXors(a: Alu) {
    && a.xor(0x1E607BBD332CF23A, 0x8E6D3B08ECFE83AD) == 0x900D40B5DFD27197
  }

  lemma MachineMixedWordXors()
    ensures MixedWordXors(MACHINE)
  {
    XorIs(0x1E607BBD332CF23A, 0x8E6D3B08ECFE83AD);
  }

  lemma MixedWordIs(a: Alu)
    requires Plain(a) && MixedWordXors(a)
    ensures Tail8(a, 0x1E607BBD332CF23A, 0x2726252423222120) == 0x22B111D769A98906
  {
    RoundIs(a, 0, 0x2726252423222120, 0x1DC63B507D2D138E, 0x360A92567A7098E0, 0, 0x360A92567A7098E0, 0x1B05492B,
               0x7A7098E0, 0x25D6035FACD78A66, 0x8E6D3B08ECFE83AD);
    Tail8Is(a, 0x1E607BBD332CF23A, 0x2726252423222120, 0x8E6D3B08ECFE83AD, 0x900D40B5DFD27197, 0x04806A05,
               0x00000015DFD27197, 0x6C270AF23CE0BB37, 0x9CC5475FA6F6DAA3, 1, 0x22B111D769A98906);
  }

  ghost predicate MixedUnitXors(a: Alu) {
    && a.xor(0x22B111D769A98906, 0x63C705E3976D4418) == 0x41761434FEC4CD1E
    && a.xor(0x4A97CBB63F4B600F, 0xD8986C17D6D9D5DC) == 0x920FA7A1E992B5D3
  }

  lemma MachineMixedUnitXors()
    ensures MixedUnitXors(MACHINE)
  {
    XorIs(0x22B111D769A98906, 0x63C705E3976D4418);
    XorIs(0x4A97CBB63F4B600F, 0xD8986C17D6D9D5DC);
  }

  lemma MixedUnitIs(a: Alu)
    requires Plain(a) && MixedUnitXors(a)
    ensures Tail1(a, Tail4(a, 0x22B111D769A98906, 0x2B2A2928), 0x2C) == 0x9700EDAF3ECE2FF0
  {
    Tail4Is(a, 0x22B111D769A98906, 0x2B2A2928, 0x1AAD5FFA, 0x63C705E3976D4418, 0x41761434FEC4CD1E, 0x0020BB0A,
               0x00000034FEC4CD1E, 0x1427072D0D21EC0E, 0x34416404A113E616, 0, 0x4A97CBB63F4B600F);
    Tail1Is(a, 0x4A97CBB63F4B600F, 0x2C, 6, 0xD8986C17D6D9D5DC, 0x920FA7A1E992B5D3, 0x00000490, 0x000FA7A1E992B5D3,
               0x4D66D31842CCC6EB, 0x9700EDAF3ECE2FF0);
  }

  lemma MixedTailIs(a: Alu)
    requires Plain(a) && MixedWordXors(a) && MixedUnitXors(a)
    ensures Tail(a, 0x1E607BBD332CF23A, CountingBytes(45)[32..]) == 0x9700EDAF3ECE2FF0
  {
    Load8Is(a, CountingBytes(45)[32..][..8], 0x20, 0x23222120, 0x27262524, 0x2726252423222120);
    Load4Is(a, CountingBytes(45)[32..][8..][..4], 0x28, 0x29, 0x2A, 0x2B, 0x2B2A2928);
    MixedWordIs(a);
    MixedUnitIs(a);
    EveryUnit(a, 0x1E607BBD332CF23A, CountingBytes(45)[32..], 0x2726252423222120, 0x2B2A2928, 0x22B111D769A98906,
                 0x9700EDAF3ECE2FF0);
  }

  ghost predicate MixedHashXors(a: Alu) {
    && a.xor(0x9700EDAF3ECE2FF0, 0x4B8076D7) == 0x9700EDAF754E5927
    && a.xor(0xC3073E95E4505009, 0x000000061839F4AF) == 0xC3073E93FC69A4A6
    && a.xor(0x8041DF55453D9B76, 0x8041DF55) == 0x8041DF55C57C4423
  }

  lemma MachineMixedHashXors()
    ensures MixedHashXors(MACHINE)
  {
    XorIs(0x9700EDAF3ECE2FF0, 0x4B8076D7);
    XorIs(0xC3073E95E4505009, 0x000000061839F4AF);
    XorIs(0x8041DF55453D9B76, 0x8041DF55);
  }

  lemma MixedHashIs(a: Alu)
    requires Plain(a) && MixedFirstXors(a) && MixedSecondXors(a) && MixedWordXors(a) && MixedUnitXors(a)
    requires MixedHashXors(a)
    ensures Hash(a, CountingBytes(45), 0x0123456789ABCDEF) == 0x8041DF55C57C4423
  {
    MixedRoundIs(a);
    MixedConvergeIs(a);
    MixedTailIs(a);
    StartIs(a, 0x0123456789ABCDEF, 0, 0x9F5ABF190F979876, 1, 0x620D6D56376C83C5, 0, 0xC3D5F3A4B180B93E, -1,
               0x62EBCBB603C00368);
    LongMessage(a, CountingBytes(45), 0x0123456789ABCDEF, 0x1E607BBD332CF20D, 0, 0x1E607BBD332CF23A,
                   0x9700EDAF3ECE2FF0);
    AvalancheIs(a, 0x9700EDAF3ECE2FF0, 0x4B8076D7, 0x000000013ECE2FF0, 0x9700EDAF754E5927, 0x72D8198AEF29905A,
                   0xC3073E95E4505009, 0x000000061839F4AF, 0x04505009, 0xC3073E93FC69A4A6, 0x110472CEF8206A9D,
                   0x8041DF55453D9B76, 0x8041DF55, 0x453D9B76, 0x8041DF55C57C4423);
  }

  /** The bytes 0 to 44, with a seed: a stripe, a word, half a word and a byte. */
  lemma MixedMessage()
    ensures Hash(MACHINE, CountingBytes(45), 0x0123456789ABCDEF) == 0x8041DF55C57C4423
  {
    MachineIsPlain();
    MachineMixedFirstXors();
    MachineMixedSecondXors();
    MachineMixedWordXors();
    MachineMixedUnitXors();
    MachineMixedHashXors();
    MixedHashIs(MACHINE);
  }
}
