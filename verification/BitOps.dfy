/**
 The bit operations of bitops.h, as they are computed without compiler builtins. A u32 or u64 is a
 natural number below two to the power of 32 or 64.
 */
module BitOps {
  import opened Binary
  import opened Bits

  const U32: nat := 0x1_0000_0000
  const U64: nat := 0x1_0000_0000_0000_0000

  // ----- ilog2

  const ILOG2_32: seq<nat> :=
    [0,  9,  1, 10, 13, 21,  2, 29] +
    [11, 14, 16, 18, 22, 25,  3, 30] +
    [8, 12, 20, 28, 15, 17, 24,  7] +
    [19, 27, 23,  6, 26,  5,  4, 31]

  const ILOG2_64: seq<nat> :=
    [63,  0, 58,  1, 59, 47, 53,  2] +
    [60, 39, 48, 27, 54, 33, 42,  3] +
    [61, 51, 37, 40, 49, 18, 28, 20] +
    [55, 30, 34, 11, 43, 14, 22,  4] +
    [62, 57, 46, 52, 38, 26, 32, 41] +
    [50, 36, 17, 19, 29, 10, 13, 21] +
    [56, 45, 25, 31, 35, 16,  9, 12] +
    [44, 24, 15,  8, 23,  7,  6,  5]

  /** The top five, or six, digits of a product, which select an entry of the table. */
  function Top32(x: nat): (i: nat)
    ensures i < 32
  {
    x % U32 / 0x800_0000
  }

  function Top64(x: nat): (i: nat)
    ensures i < 64
  {
    x % U64 / 0x400_0000_0000_0000
  }

  /** `c << k` */
  function Doubled(c: nat, k: nat): nat {
    if k == 0 then c else 2 * Doubled(c, k - 1)
  }

  lemma {:induction false} DoubledIs(c: nat, k: nat)
    ensures Doubled(c, k) == Pow2(k) * c
  {
    if k > 0 {
      DoubledIs(c, k - 1);
    }
  }

  lemma TopDigits(x: nat, m: nat, u: nat, n: nat, q: int, i: nat, rest: nat)
    requires m == n * u && x == q * m + i * u + rest && i < n && rest < u
    ensures (x % m) / u == i
  {
    AtLeast2(n, i + 1, u);
    assert (i + 1) * u == i * u + u;
    QuotientUnique(x / m, x % m, q, i * u + rest, m);
    QuotientUnique((x % m) / u, (x % m) % u, i, rest, u);
  }

  /**
   `i` is the top five digits, and `rest` the others, of the constant times two to the power of
   `k + 1`. Doubling carries one digit over. Taking the constant away leaves the product of a word
   of `k + 1` ones, and everywhere on the way the table is right about it.
   */
  predicate Walk32(table: seq<nat>, k: nat, i: nat, rest: nat)
    requires |table| == 32 && k <= 32 && i < 32
    decreases 32 - k
  {
    k == 32 || (table[if rest >= 0x07C4ACDD then i else if i > 0 then i - 1 else 31] == k &&
      if 2 * rest < 0x800_0000 then
        (if i < 16 then Walk32(table, k + 1, 2 * i, 2 * rest) else Walk32(table, k + 1, 2 * i - 32, 2 * rest))
      else
        (if i < 16 then Walk32(table, k + 1, 2 * i + 1, 2 * rest - 0x800_0000)
         else Walk32(table, k + 1, 2 * i - 31, 2 * rest - 0x800_0000)))
  }

  lemma Table32()
    ensures Walk32(ILOG2_32, 0, 1, 0x78959ba)
  {
    assert Walk32(ILOG2_32, 24, 23, 0x2000000);
    assert Walk32(ILOG2_32, 16, 11, 0x1ba0000);
    assert Walk32(ILOG2_32, 8, 17, 0x159ba00);
  }

  lemma {:induction false} Walked32(table: seq<nat>, k: nat, i: nat, rest: nat, q: nat, j: nat)
    returns (p: int, t: nat, low: nat)
    requires |table| == 32 && k <= j < 32 && i < 32 && Walk32(table, k, i, rest)
    requires Doubled(0xF8959BA, k) == q * U32 + i * 0x800_0000 + rest && rest < 0x800_0000
    ensures Doubled(0xF8959BA, j) - 0x07C4ACDD == p * U32 + t * 0x800_0000 + low
    ensures low < 0x800_0000 && t < 32 && table[t] == j
    decreases 32 - k
  {
    if k < j {
      var c := if 2 * rest < 0x800_0000 then 0 else 1;
      var d := if i < 16 then 0 else 1;
      p, t, low := Walked32(table, k + 1, 2 * i + c - 32 * d, 2 * rest - c * 0x800_0000, 2 * q + d, j);
    } else if rest >= 0x07C4ACDD {
      p, t, low := q, i, rest - 0x07C4ACDD;
    } else if i > 0 {
      p, t, low := q, i - 1, rest + 0x800_0000 - 0x07C4ACDD;
    } else {
      p, t, low := q - 1, 31, rest + 0x800_0000 - 0x07C4ACDD;
    }
  }

  /** A word of `k + 1` ones selects the entry `k`. */
  lemma Table32Is(k: nat)
    requires k < 32
    ensures ILOG2_32[Top32((Pow2(k + 1) - 1) * 0x07C4ACDD)] == k
  {
    var x := (Pow2(k + 1) - 1) * 0x07C4ACDD;
    assert x == Doubled(0xF8959BA, k) - 0x07C4ACDD by {
      DoubledIs(0xF8959BA, k);
    }
    Table32();
    var p, t, low := Walked32(ILOG2_32, 0, 1, 0x78959ba, 0, k);
    TopDigits(x, U32, 0x800_0000, 32, p, t, low);
    assert Top32(x) == t;
  }

  /** The same for the wider table and the product of a single bit. */
  predicate Walk64(table: seq<nat>, k: nat, i: nat, rest: nat)
    requires |table| == 64 && k <= 64 && i < 64
    decreases 64 - k
  {
    k == 64 || (table[i] == k &&
      if 2 * rest < 0x400_0000_0000_0000 then
        (if i < 32 then Walk64(table, k + 1, 2 * i, 2 * rest) else Walk64(table, k + 1, 2 * i - 64, 2 * rest))
      else
        (if i < 32 then Walk64(table, k + 1, 2 * i + 1, 2 * rest - 0x400_0000_0000_0000)
         else Walk64(table, k + 1, 2 * i - 63, 2 * rest - 0x400_0000_0000_0000)))
  }

  lemma TableFrom48()
    ensures Walk64(ILOG2_64, 48, 10, 0xc2000000000000)
  {
    assert Walk64(ILOG2_64, 60, 8, 0x0);
    assert Walk64(ILOG2_64, 56, 48, 0x200000000000000);
    assert Walk64(ILOG2_64, 52, 35, 0x20000000000000);
  }

  lemma TableFrom32()
    ensures Walk64(ILOG2_64, 32, 38, 0x24e28c200000000)
  {
    TableFrom48();
    assert Walk64(ILOG2_64, 44, 56, 0x28c200000000000);
    assert Walk64(ILOG2_64, 40, 19, 0x228c20000000000);
    assert Walk64(ILOG2_64, 36, 41, 0xe28c2000000000);
  }

  lemma TableFrom16()
    ensures Walk64(ILOG2_64, 16, 53, 0x1e59a4e28c20000)
  {
    TableFrom32();
    assert Walk64(ILOG2_64, 28, 22, 0x1a4e28c20000000);
    assert Walk64(ILOG2_64, 24, 57, 0x19a4e28c2000000);
    assert Walk64(ILOG2_64, 20, 23, 0x259a4e28c200000);
  }

  lemma Table64()
    ensures Walk64(ILOG2_64, 0, 1, 0x3edd5e59a4e28c2)
  {
    TableFrom16();
    assert Walk64(ILOG2_64, 12, 55, 0x15e59a4e28c2000);
    assert Walk64(ILOG2_64, 8, 59, 0x1d5e59a4e28c200);
    assert Walk64(ILOG2_64, 4, 31, 0x2dd5e59a4e28c20);
  }

  lemma {:induction false} Walked64(table: seq<nat>, k: nat, i: nat, rest: nat, q: nat, j: nat)
    returns (p: int, t: nat, low: nat)
    requires |table| == 64 && k <= j < 64 && i < 64 && Walk64(table, k, i, rest)
    requires Doubled(0x07EDD5E59A4E28C2, k) == q * U64 + i * 0x400_0000_0000_0000 + rest && rest < 0x400_0000_0000_0000
    ensures Doubled(0x07EDD5E59A4E28C2, j) == p * U64 + t * 0x400_0000_0000_0000 + low
    ensures low < 0x400_0000_0000_0000 && t < 64 && table[t] == j
    decreases 64 - k
  {
    if k < j {
      var c := if 2 * rest < 0x400_0000_0000_0000 then 0 else 1;
      var d := if i < 32 then 0 else 1;
      p, t, low := Walked64(table, k + 1, 2 * i + c - 64 * d, 2 * rest - c * 0x400_0000_0000_0000, 2 * q + d, j);
    } else {
      p, t, low := q, i, rest;
    }
  }

  /** A single bit selects its own position. */
  lemma Table64Is(k: nat)
    requires k < 64
    ensures ILOG2_64[Top64(Pow2(k) * 0x07EDD5E59A4E28C2)] == k
  {
    Table64();
    var p, t, low := Walked64(ILOG2_64, 0, 1, 0x3edd5e59a4e28c2, 0, k);
    DoubledIs(0x07EDD5E59A4E28C2, k);
    TopDigits(Pow2(k) * 0x07EDD5E59A4E28C2, U64, 0x400_0000_0000_0000, 64, p, t, low);
  }

  lemma SmallPowers()
    ensures Pow2(0) == 1 && Pow2(1) == 2 && Pow2(2) == 4 && Pow2(3) == 8 && Pow2(4) == 0x10
    ensures Pow2(5) == 0x20 && Pow2(6) == 0x40 && Pow2(8) == 0x100
  {
    assert Pow2(6) == 0x40;
  }

  lemma Words()
    ensures Pow2(16) == 0x1_0000 && Pow2(32) == U32 && Pow2(64) == U64
  {
    SmallPowers();
    Pow2Add(8, 8);
    Pow2Add(16, 16);
    Pow2Add(32, 32);
  }

  lemma Powers()
    ensures Pow2(0) == 1 && Pow2(1) == 2 && Pow2(2) == 4 && Pow2(3) == 8 && Pow2(4) == 0x10
    ensures Pow2(5) == 0x20 && Pow2(6) == 0x40 && Pow2(8) == 0x100 && Pow2(16) == 0x1_0000
    ensures Pow2(32) == U32 && Pow2(64) == U64
  {
    SmallPowers();
    Words();
  }

  lemma Log2Below(n: nat, w: nat)
    requires 0 < n < Pow2(w)
    ensures Log2(n) < w && Pow2(Log2(n)) <= n < Pow2(Log2(n) + 1)
  {
    LengthBound(n, w);
    Log2Is(n, Log2(n));
  }

  lemma Ilog2Found32(l: nat, m: nat, k: nat)
    requires l < 32 && m == Pow2(l + 1) - 1 && k == ILOG2_32[Top32(m * 0x07C4ACDD)]
    ensures k == l
  {
    Table32Is(l);
  }

  lemma Ilog2Found64(l: nat, m: nat, k: nat)
    requires l < 64 && m == Pow2(l) && k == ILOG2_64[Top64(m * 0x07EDD5E59A4E28C2)]
    ensures k == l
  {
    Table64Is(l);
  }

  /** __ilog2_32_emulated */
  method Ilog2For32(n: nat) returns (k: nat)
    requires n < U32
    ensures n > 0 ==> Pow2(k) <= n < Pow2(k + 1)
  {
    var m := n;
    Powers();
    m := Or(m, Shr(m, 1));
    assert m == Spread(n, 1);
    m := Or(m, Shr(m, 2));
    assert m == Spread(n, 2);
    m := Or(m, Shr(m, 4));
    assert m == Spread(n, 3);
    m := Or(m, Shr(m, 8));
    assert m == Spread(n, 4);
    m := Or(m, Shr(m, 16));
    assert m == Spread(n, 5);
    k := ILOG2_32[Top32(m * 0x07C4ACDD)];
    if n > 0 {
      SpreadIs(n, 5);
      Log2Below(n, 32);
      Ilog2Found32(Log2(n), m, k);
    }
  }

  /** __ilog2_64_emulated */
  method Ilog2For64(n: nat) returns (k: nat)
    requires n < U64
    ensures n > 0 ==> Pow2(k) <= n < Pow2(k + 1)
  {
    var m := n;
    Powers();
    m := Or(m, Shr(m, 1));
    assert m == Spread(n, 1);
    m := Or(m, Shr(m, 2));
    assert m == Spread(n, 2);
    m := Or(m, Shr(m, 4));
    assert m == Spread(n, 3);
    m := Or(m, Shr(m, 8));
    assert m == Spread(n, 4);
    m := Or(m, Shr(m, 16));
    assert m == Spread(n, 5);
    m := Or(m, Shr(m, 32));
    assert m == Spread(n, 6);
    k := ILOG2_64[Top64((m - Shr(m, 1)) * 0x07EDD5E59A4E28C2)];
    if n > 0 {
      SpreadIs(n, 6);
      Log2Below(n, 64);
      Ilog2Found64(Log2(n), m - Shr(m, 1), k);
    }
  }

  // ----- clz and msb

  /** The highest bit of `n0` is `r` above that of `n`, which is one of the lowest two to the power of `t`. */
  ghost predicate Leads(n0: nat, n: nat, r: nat, t: nat) {
    n0 > 0 && n > 0 && Log2(n0) == r + Log2(n) && Log2(n) < Pow2(t) && r % Pow2(t) == 0
  }

  lemma OrAligned(r: nat, q: nat, t: nat)
    requires r % Pow2(t) == 0 && q < Pow2(t)
    ensures Or(r, q) == r + q
  {
    assert r == (r / Pow2(t)) * Pow2(t);
    OrIsSum(r / Pow2(t), q, t);
  }

  /** One step of the binary search: `q` is the half of the range that `n` reaches into. */
  lemma LeadStep(n0: nat, n: nat, r: nat, t: nat, q: nat)
    requires Leads(n0, n, r, t + 1) && q == if n >= Pow2(Pow2(t)) then Pow2(t) else 0
    ensures Or(r, q) == r + q && Leads(n0, Shr(n, q), r + q, t)
  {
    OrAligned(r, q, t + 1);
    HalfDivides(r, q, Pow2(t));
    HalfLog2(n, q, Pow2(t));
  }

  lemma HalfLog2(n: nat, q: nat, s: nat)
    requires n > 0 && Log2(n) < 2 * s && q == if n >= Pow2(s) then s else 0
    ensures Shr(n, q) > 0 && Log2(n) == q + Log2(Shr(n, q)) && Log2(Shr(n, q)) < s
  {
    LengthBound(n, s);
    if q > 0 {
      Log2Shifted(n, q);
    }
  }

  lemma HalfDivides(r: nat, q: nat, s: nat)
    requires s > 0 && r % (2 * s) == 0 && (q == 0 || q == s)
    ensures (r + q) % s == 0
  {
    var k := r / (2 * s);
    assert r == k * (2 * s) == (2 * k) * s;
    var j := if q == 0 then 2 * k else 2 * k + 1;
    assert r + q == j * s;
    QuotientUnique((r + q) / s, (r + q) % s, j, 0, s);
  }

  /** One line of the search; for `n0 == 0` nothing is promised. */
  method Narrow(n: nat, r: nat, q: nat, ghost n0: nat, ghost t: nat) returns (m: nat, s: nat)
    requires n0 > 0 ==> Leads(n0, n, r, t + 1) && q == if n >= Pow2(Pow2(t)) then Pow2(t) else 0
    ensures n0 > 0 ==> Leads(n0, m, s, t)
  {
    if n0 > 0 {
      LeadStep(n0, n, r, t, q);
    }
    m, s := Shr(n, q), Or(r, q);
  }

  /** The last line: `r |= n >> 1` */
  lemma LastStep(n0: nat, n: nat, r: nat)
    requires Leads(n0, n, r, 1)
    ensures Or(r, Shr(n, 1)) == Log2(n0)
  {
    LengthBound(n, 2);
    Powers();
    assert Shr(n, 1) == n / 2;
    LeadStep(n0, n, r, 0, Shr(n, 1));
  }

  lemma FirstStep(n: nat, t: nat)
    requires 0 < n < Pow2(Pow2(t))
    ensures Leads(n, n, 0, t)
  {
    LengthBound(n, Pow2(t));
  }

  /** __clz32_emulated */
  method Clz32(n0: nat) returns (zeros: int)
    requires n0 < U32
    ensures n0 > 0 ==> zeros == 31 - Log2(n0)
  {
    Powers();
    if n0 > 0 {
      FirstStep(n0, 5);
    }
    var n, r := n0, 0;
    n, r := Narrow(n, r, if n > 0xFFFF then 16 else 0, n0, 4);
    n, r := Narrow(n, r, if n > 0xFF then 8 else 0, n0, 3);
    n, r := Narrow(n, r, if n > 0xF then 4 else 0, n0, 2);
    n, r := Narrow(n, r, if n > 0x3 then 2 else 0, n0, 1);
    if n0 > 0 {
      LengthBound(n0, 32);
      LastStep(n0, n, r);
    }
    r := Or(r, Shr(n, 1));
    zeros := 31 - r as int;
  }

  /** __clz64_emulated */
  method Clz64(n0: nat) returns (zeros: int)
    requires n0 < U64
    ensures n0 > 0 ==> zeros == 63 - Log2(n0)
  {
    Powers();
    if n0 > 0 {
      FirstStep(n0, 6);
    }
    var n, r := n0, 0;
    n, r := Narrow(n, r, if n > 0xFFFF_FFFF then 32 else 0, n0, 5);
    n, r := Narrow(n, r, if n > 0xFFFF then 16 else 0, n0, 4);
    n, r := Narrow(n, r, if n > 0xFF then 8 else 0, n0, 3);
    n, r := Narrow(n, r, if n > 0xF then 4 else 0, n0, 2);
    n, r := Narrow(n, r, if n > 0x3 then 2 else 0, n0, 1);
    if n0 > 0 {
      LengthBound(n0, 64);
      LastStep(n0, n, r);
    }
    r := Or(r, Shr(n, 1));
    zeros := 63 - r as int;
  }

  /** `(2^t - 1) ^ clz(n)` on words of two to the power of `t` bits */
  lemma MsbIs(n: nat, t: nat, zeros: nat)
    requires 0 < n < Pow2(Pow2(t)) && zeros == Pow2(t) - 1 - Log2(n)
    ensures Pow2(Xor(Pow2(t) - 1, zeros)) <= n < Pow2(Xor(Pow2(t) - 1, zeros) + 1)
  {
    XorOnes(t, zeros);
    Log2Is(n, Log2(n));
  }

  /** msb32, which is ilog2_32 */
  method Msb32(n: nat) returns (k: nat)
    requires 0 < n < U32
    ensures Pow2(k) <= n < Pow2(k + 1)
  {
    SmallPowers();
    Words();
    Log2Below(n, 32);
    var zeros := Clz32(n);
    MsbIs(n, 5, zeros);
    k := Xor(31, zeros);
  }

  /** msb64, which is ilog2_64 */
  method Msb64(n: nat) returns (k: nat)
    requires 0 < n < U64
    ensures Pow2(k) <= n < Pow2(k + 1)
  {
    SmallPowers();
    Words();
    Log2Below(n, 64);
    var zeros := Clz64(n);
    MsbIs(n, 6, zeros);
    k := Xor(63, zeros);
  }

  // ----- ctz

  /** The lowest set bit of `n0` is `r` above that of `n`, which is one of the lowest two to the power of `t`. */
  ghost predicate Trails(n0: nat, n: nat, r: nat, t: nat) {
    n0 > 0 && n > 0 && Lowest(n0) == r + Lowest(n) && Lowest(n) < Pow2(t)
  }

  /** `mask` has two to the power of `t` ones. */
  ghost predicate Ones(mask: nat, s: nat, t: nat) {
    s == Pow2(t) && mask == Pow2(s) - 1
  }

  lemma Masks()
    ensures Ones(0xFFFF_FFFF, 32, 5) && Ones(0xFFFF, 16, 4) && Ones(0xFF, 8, 3)
    ensures Ones(0xF, 4, 2) && Ones(3, 2, 1) && Ones(1, 1, 0)
    ensures Pow2(Pow2(5)) == U32 && Pow2(Pow2(6)) == U64
  {
    SmallPowers();
    Words();
  }

  /** One step of the search: if the low half is empty, it is shifted out. */
  method Skip(n: nat, r: nat, mask: nat, s: nat, ghost n0: nat, ghost t: nat) returns (m: nat, q: nat)
    requires Ones(mask, s, t)
    requires n0 > 0 ==> Trails(n0, n, r, t + 1)
    ensures n0 > 0 ==> Trails(n0, m, q, t)
  {
    m, q := n, r;
    AndOnes(n, s);
    if n0 > 0 {
      LowestDigits(n, s);
    }
    if And(n, mask) == 0 {
      if n0 > 0 {
        LowestShifted(n, s);
      }
      m := Shr(n, s);
      q := r + s;
    }
  }

  lemma StartsTrailing(n: nat, t: nat)
    requires 0 < n < Pow2(Pow2(t))
    ensures Trails(n, n, 0, t)
  {
    LowestBound(n, Pow2(t));
  }

  /** __ctz32_emulated */
  method Ctz32(n0: nat) returns (zeros: nat)
    requires n0 < U32
    ensures n0 > 0 ==> zeros == Lowest(n0)
  {
    Masks();
    if n0 > 0 {
      StartsTrailing(n0, 5);
    }
    var n, r := n0, 0;
    n, r := Skip(n, r, 0xFFFF, 16, n0, 4);
    n, r := Skip(n, r, 0xFF, 8, n0, 3);
    n, r := Skip(n, r, 0xF, 4, n0, 2);
    n, r := Skip(n, r, 3, 2, n0, 1);
    n, r := Skip(n, r, 1, 1, n0, 0);
    zeros := r;
  }

  /** __ctz64_emulated */
  method Ctz64(n0: nat) returns (zeros: nat)
    requires n0 < U64
    ensures n0 > 0 ==> zeros == Lowest(n0)
  {
    Masks();
    if n0 > 0 {
      StartsTrailing(n0, 6);
    }
    var n, r := n0, 0;
    n, r := Skip(n, r, 0xFFFF_FFFF, 32, n0, 5);
    n, r := Skip(n, r, 0xFFFF, 16, n0, 4);
    n, r := Skip(n, r, 0xFF, 8, n0, 3);
    n, r := Skip(n, r, 0xF, 4, n0, 2);
    n, r := Skip(n, r, 3, 2, n0, 1);
    n, r := Skip(n, r, 1, 1, n0, 0);
    zeros := r;
  }

  // ----- popcount, ffs and the loops over the set bits

  /** `n & (n - 1)` drops the first of the set bits. */
  lemma DropLowest(n: nat)
    requires n > 0
    ensures And(n, n - 1) == Xor(n, Pow2(Lowest(n))) == n - Pow2(Lowest(n))
    ensures SetBits(n) != [] && SetBits(n)[0] == Lowest(n) && SetBits(And(n, n - 1)) == SetBits(n)[1..]
  {
    AndPredecessor(n);
    XorLowest(n);
    LowestIsFirst(n, 0);
  }

  /** __popcount_emulated */
  method Popcount(n0: nat) returns (count: nat)
    ensures count == |SetBits(n0)|
  {
    var n := n0;
    count := 0;
    while n > 0
      invariant count + |SetBits(n)| == |SetBits(n0)|
    {
      DropLowest(n);
      count := count + 1;
      n := And(n, n - 1);
    }
  }

  /** is_pow2: exactly one bit is set. */
  method IsPow2(n: nat) returns (yes: bool)
    ensures yes <==> |SetBits(n)| == 1
    ensures yes <==> n > 0 && n == Pow2(Log2(n))
  {
    yes := n != 0 && And(n, n - 1) == 0;
    if n > 0 {
      DropLowest(n);
      SetBitsEmpty(And(n, n - 1));
      PowerBits(Lowest(n));
      PowerBits(Log2(n));
    }
  }

  /** `~-n` on words of `w` bits */
  function NotMinus(w: nat, n: nat): nat
    requires n < Pow2(w)
  {
    Pow2(w) - 1 - (Pow2(w) - n) % Pow2(w)
  }

  lemma NotMinusIs(w: nat, n: nat)
    requires n < Pow2(w)
    ensures NotMinus(w, n) == if n == 0 then Pow2(w) - 1 else n - 1
  {
    Remainder(Pow2(w) - n, Pow2(w), if n == 0 then 1 else 0, if n == 0 then 0 else Pow2(w) - n);
  }

  lemma Remainder(x: nat, p: nat, q: nat, r: nat)
    requires x == q * p + r && r < p
    ensures x % p == r
  {
    QuotientUnique(x / p, x % p, q, r, p);
  }

  /** __ffs32_emulated and __ffs64_emulated: one more than the lowest set bit, but the word size for 0. */
  method Ffs(w: nat, n: nat) returns (pos: nat)
    requires n < Pow2(w)
    ensures pos == if n == 0 then w else Lowest(n) + 1
  {
    if n > 0 {
      XorPredecessor(n);
      OnesCount(Lowest(n) + 1, 0);
    } else {
      XorZero(Pow2(w) - 1);
      OnesCount(w, 0);
    }
    NotMinusIs(w, n);
    pos := Popcount(Xor(n, NotMinus(w, n)));
  }

  /** bit_for_each32 and bit_for_each64: all set bits, lowest first. */
  method BitForEach(u: nat, wide: bool) returns (visited: seq<nat>)
    requires u < if wide then U64 else U32
    ensures visited == SetBits(u)
  {
    var tmp: nat := u;
    var pos := Ctz(tmp, wide);
    visited := [];
    while tmp > 0
      invariant tmp <= u && SetBits(u) == visited + SetBits(tmp)
      invariant tmp > 0 ==> pos == Lowest(tmp)
    {
      visited := visited + [pos];
      DropLowest(tmp);
      tmp := Xor(tmp, Pow2(pos));
      pos := Ctz(tmp, wide);
    }
  }

  method Ctz(n: nat, wide: bool) returns (zeros: nat)
    requires n < if wide then U64 else U32
    ensures n > 0 ==> zeros == Lowest(n)
  {
    if wide {
      zeros := Ctz64(n);
    } else {
      zeros := Ctz32(n);
    }
  }

  /** bit_for_each32_ffs and bit_for_each64_ffs: the same, counted from one. */
  method BitForEachFfs(w: nat, u: nat) returns (visited: seq<nat>)
    requires u < Pow2(w)
    ensures |visited| == |SetBits(u)|
    ensures forall i | 0 <= i < |visited| :: visited[i] == SetBits(u)[i] + 1
  {
    var tmp: nat := u;
    var pos := Ffs(w, tmp);
    visited := [];
    while tmp > 0
      invariant tmp <= u && |visited| <= |SetBits(u)| && SetBits(tmp) == SetBits(u)[|visited|..]
      invariant forall i | 0 <= i < |visited| :: visited[i] == SetBits(u)[i] + 1
      invariant tmp > 0 ==> pos == Lowest(tmp) + 1
    {
      visited := visited + [pos];
      DropLowest(tmp);
      tmp := And(tmp, tmp - 1);
      pos := Ffs(w, tmp);
    }
  }
}
