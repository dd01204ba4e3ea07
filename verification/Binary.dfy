/**
 Natural numbers as strings of binary digits.
 */
module Binary {

  function Pow2(k: nat): (p: nat)
    ensures p >= 1
  {
    if k == 0 then 1 else 2 * Pow2(k - 1)
  }

  /** The number written by the `j` lowest binary digits of `c`. */
  function Low(c: nat, j: nat): nat {
    if j == 0 then 0 else c % 2 + 2 * Low(c / 2, j - 1)
  }

  /** `x >> k` */
  function Shr(x: nat, k: nat): (s: nat)
    ensures s <= x && (0 < k && 0 < x ==> s < x)
  {
    if k == 0 then x else Shr(x / 2, k - 1)
  }

  lemma {:induction false} LowBound(c: nat, j: nat)
    ensures Low(c, j) < Pow2(j)
  {
    if j > 0 {
      LowBound(c / 2, j - 1);
    }
  }

  lemma Doubled(s: int, p: int)
    ensures s * (2 * p) == 2 * (s * p)
  {
  }

  /** A number is what is left of a digit position together with what is right of it. */
  lemma {:induction false} Split(x: nat, k: nat)
    ensures x == Shr(x, k) * Pow2(k) + Low(x, k)
  {
    if k > 0 {
      Split(x / 2, k - 1);
      var s, p := Shr(x / 2, k - 1), Pow2(k - 1);
      assert Shr(x, k) == s && Pow2(k) == 2 * p;
      Doubled(s, p);
    }
  }

  lemma {:induction false} Pow2Add(a: nat, b: nat)
    ensures Pow2(a + b) == Pow2(a) * Pow2(b)
  {
    if a > 0 {
      Pow2Add(a - 1, b);
      assert Pow2(a) * Pow2(b) == 2 * (Pow2(a - 1) * Pow2(b));
    }
  }

  lemma QuotientUnique(q: int, r: int, q': int, r': int, d: int)
    requires q * d + r == q' * d + r' && 0 <= r < d && 0 <= r' < d
    ensures q == q' && r == r'
  {
    if q < q' {
      AtLeast(q' - q, d);
      Distribute(q', q, d);
    } else if q' < q {
      AtLeast(q - q', d);
      Distribute(q, q', d);
    }
  }

  /** `x` divided by `q`, and what remains. */
  ghost predicate Parts(x: int, q: int, hi: int, lo: int) {
    x == hi * q + lo && 0 <= lo < q
  }

  lemma SameFactor(p: nat, q: nat, t: nat)
    requires p > 0 && p * q == p * t
    ensures q == t
  {
    QuotientUnique(q, 0, t, 0, p);
  }

  lemma AtLeast(a: int, d: int)
    requires a >= 1 && d >= 0
    ensures a * d >= d
  {
  }

  lemma Distribute(a: int, b: int, d: int)
    ensures (a - b) * d == a * d - b * d
  {
  }

  // ----- single digits

  /** The number of binary digits of `c`: 0 for 0, and floor(log2(c)) + 1 otherwise. */
  function BitLength(c: nat): nat {
    if c == 0 then 0 else 1 + BitLength(c / 2)
  }

  function Bit(c: nat, i: nat): (b: nat)
    ensures b <= 1
  {
    if i == 0 then c % 2 else Bit(c / 2, i - 1)
  }

  lemma {:induction false} BitLengthIsLog2(c: nat)
    requires c > 0
    ensures Pow2(BitLength(c) - 1) <= c < Pow2(BitLength(c))
  {
    if c > 1 {
      BitLengthIsLog2(c / 2);
    }
  }

  lemma {:induction false} TopBit(c: nat)
    requires c > 0
    ensures Bit(c, BitLength(c) - 1) == 1
  {
    if c > 1 {
      TopBit(c / 2);
    }
  }

  // ----- exclusive or

  /** Bitwise exclusive or. */
  function Xor(x: nat, y: nat): nat
    decreases x + y
  {
    if x == 0 && y == 0 then 0 else (x + y) % 2 + 2 * Xor(x / 2, y / 2)
  }

  lemma {:induction false} XorBound(x: nat, y: nat, k: nat)
    requires x < Pow2(k) && y < Pow2(k)
    ensures Xor(x, y) < Pow2(k)
  {
    if k > 0 {
      XorBound(x / 2, y / 2, k - 1);
    }
  }

  lemma XorParts(x: nat, y: nat)
    ensures Xor(x, y) == (x + y) % 2 + 2 * Xor(x / 2, y / 2)
    ensures Xor(x, y) / 2 == Xor(x / 2, y / 2)
  {
  }

  lemma Halves(r: int, a: int, s: int, b: int)
    requires r + 2 * a == s + 2 * b && 0 <= r < 2 && 0 <= s < 2
    ensures r == s && a == b
  {
  }

  lemma SameParity(x: nat, y: nat, z: nat)
    requires (x + z) % 2 == (y + z) % 2 && x / 2 == y / 2
    ensures x == y
  {
  }

  lemma {:induction false} XorCancel(x: nat, y: nat, z: nat)
    requires Xor(x, z) == Xor(y, z)
    ensures x == y
    decreases x + y + z
  {
    if x + y + z > 0 {
      XorParts(x, z);
      XorParts(y, z);
      Halves((x + z) % 2, Xor(x / 2, z / 2), (y + z) % 2, Xor(y / 2, z / 2));
      XorCancel(x / 2, y / 2, z / 2);
      SameParity(x, y, z);
    }
  }

  lemma {:induction false} XorSymmetric(x: nat, y: nat)
    ensures Xor(x, y) == Xor(y, x)
    decreases x + y
  {
    if x + y > 0 {
      XorSymmetric(x / 2, y / 2);
    }
  }

  lemma {:induction false} XorShr(x: nat, y: nat, k: nat)
    ensures Shr(Xor(x, y), k) == Xor(Shr(x, k), Shr(y, k))
  {
    if k > 0 {
      XorParts(x, y);
      XorShr(x / 2, y / 2, k - 1);
    }
  }

  /** `x ^= x >> k` can be undone. */
  lemma {:induction false} XorShiftInjective(x: nat, y: nat, k: nat)
    requires k > 0
    requires Xor(x, Shr(x, k)) == Xor(y, Shr(y, k))
    ensures x == y
    decreases x + y
  {
    if x + y > 0 {
      XorShr(x, Shr(x, k), k);
      XorShr(y, Shr(y, k), k);
      XorShiftInjective(Shr(x, k), Shr(y, k), k);
      XorCancel(x, y, Shr(x, k));
    }
  }

  // ----- inclusive or

  /** Bitwise inclusive or. */
  function Or(x: nat, y: nat): nat
    decreases x + y
  {
    if x == 0 && y == 0 then 0
    else (if x % 2 == 1 || y % 2 == 1 then 1 else 0) + 2 * Or(x / 2, y / 2)
  }

  lemma {:induction false} OrZero(z: nat)
    ensures Or(z, 0) == z
  {
    if z > 0 {
      OrZero(z / 2);
    }
  }

  /** The inclusive or of numbers whose digits do not overlap is their sum. */
  lemma {:induction false} OrIsSum(z: nat, y: nat, k: nat)
    requires y < Pow2(k)
    ensures Or(z * Pow2(k), y) == z * Pow2(k) + y
  {
    if k == 0 {
      OrZero(z);
    } else {
      var x := z * Pow2(k);
      assert x == 2 * (z * Pow2(k - 1));
      OrIsSum(z, y / 2, k - 1);
    }
  }

  // ----- rotation and multiplication modulo a power of two

  /** `(x << r) | (x >> (w - r))` on words of `w` bits. */
  function Rotl(w: nat, x: nat, r: nat): nat
    requires r <= w
  {
    Or((x * Pow2(r)) % Pow2(w), Shr(x, w - r))
  }

  lemma RotlParts(w: nat, x: nat, r: nat)
    requires r <= w && x < Pow2(w)
    ensures Rotl(w, x, r) == Low(x, w - r) * Pow2(r) + Shr(x, w - r)
    ensures Shr(x, w - r) < Pow2(r) && Rotl(w, x, r) < Pow2(w)
  {
    var a, b, hi, lo := Pow2(r), Pow2(w - r), Shr(x, w - r), Low(x, w - r);
    Pow2Add(r, w - r);
    Split(x, w - r);
    LowBound(x, w - r);
    RotateArithmetic(x, a, b, hi, lo);
    OrIsSum(lo, hi, r);
  }

  lemma RotateArithmetic(x: nat, a: nat, b: nat, hi: nat, lo: nat)
    requires x == hi * b + lo && lo < b && x < a * b && a > 0
    ensures hi < a && (x * a) % (a * b) == lo * a && lo * a + hi < a * b
  {
    if hi >= a {
      AtLeast2(hi, a, b);
    }
    AtLeast2(b, lo + 1, a);
    assert (lo + 1) * a == lo * a + a;
    Shifted(x, a, b, hi, lo);
    RemainderIs(x * a, hi, lo * a, a * b);
  }

  lemma Shifted(x: nat, a: nat, b: nat, hi: nat, lo: nat)
    requires x == hi * b + lo
    ensures x * a == hi * (a * b) + lo * a
  {
    assert x * a == (hi * b) * a + lo * a;
  }

  lemma RemainderIs(y: nat, q: nat, r: nat, d: nat)
    requires y == q * d + r && r < d
    ensures y / d == q && y % d == r
  {
    QuotientUnique(y / d, y % d, q, r, d);
  }

  lemma AtLeast2(x: nat, y: nat, z: nat)
    requires x >= y
    ensures x * z >= y * z
  {
  }

  lemma RotlInjective(w: nat, x: nat, y: nat, r: nat)
    requires r <= w && x < Pow2(w) && y < Pow2(w) && Rotl(w, x, r) == Rotl(w, y, r)
    ensures x == y
  {
    RotlParts(w, x, r);
    RotlParts(w, y, r);
    QuotientUnique(Low(x, w - r), Shr(x, w - r), Low(y, w - r), Shr(y, w - r), Pow2(r));
    Split(x, w - r);
    Split(y, w - r);
  }

  /** Multiplication by a constant with an inverse can be undone. */
  lemma MulInjective(x: nat, y: nat, p: nat, q: nat, j: nat, m: nat)
    requires x < m && y < m && p * q == 1 + j * m && (x * p) % m == (y * p) % m
    ensures x == y
  {
    var d, k := x - y, (x * p) / m - (y * p) / m;
    Distribute(x, y, p);
    Distribute((x * p) / m, (y * p) / m, m);
    assert d * p == k * m;
    InverseStep(d, k, p, q, j, m);
    var t := k * q - d * j;
    if t >= 1 {
      AtLeast(t, m);
    } else if t <= -1 {
      AtLeast(-t, m);
    }
  }

  lemma InverseStep(d: int, k: int, p: int, q: int, j: int, m: int)
    requires d * p == k * m && p * q == 1 + j * m
    ensures d == (k * q - d * j) * m
  {
    assert d * p * q == d * (p * q) == d + d * (j * m);
    assert k * m * q == (k * q) * m;
    assert d * (j * m) == (d * j) * m;
    Distribute(k * q, d * j, m);
  }

  /** Adding the same number modulo `m` can be undone. */
  lemma AddInjective(x: nat, y: nat, z: nat, m: nat)
    requires x < m && y < m && (x + z) % m == (y + z) % m
    ensures x == y
  {
    QuotientUnique(0, x, (x + z) / m - (y + z) / m, y, m);
  }
}
