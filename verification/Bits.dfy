/**
 Words as sets of bits: the positions of the set bits, the lowest and the highest one, and what the
 usual tricks with `n - 1` and shifts do to them.
 */
module Bits {
  import opened Binary

  ghost predicate Increasing(s: seq<nat>) {
    forall i, j | 0 <= i < j < |s| :: s[i] < s[j]
  }

  /** Bitwise and. */
  function And(x: nat, y: nat): (a: nat)
    ensures a <= x && a <= y
  {
    if x == 0 || y == 0 then 0
    else (if x % 2 == 1 && y % 2 == 1 then 1 else 0) + 2 * And(x / 2, y / 2)
  }

  /** The positions of the set bits of `n`, lowest first, counted from `from`. */
  function SetBitsFrom(n: nat, from: nat): seq<nat> {
    if n == 0 then [] else (if n % 2 == 1 then [from] else []) + SetBitsFrom(n / 2, from + 1)
  }

  function SetBits(n: nat): seq<nat> {
    SetBitsFrom(n, 0)
  }

  lemma {:induction false} BitOfZero(i: nat)
    ensures Bit(0, i) == 0
  {
    if i > 0 {
      BitOfZero(i - 1);
    }
  }

  lemma {:induction false} SetBitsFromAre(n: nat, from: nat, i: nat)
    ensures i in SetBitsFrom(n, from) <==> i >= from && Bit(n, i - from) == 1
    ensures Increasing(SetBitsFrom(n, from))
    ensures forall k | 0 <= k < |SetBitsFrom(n, from)| :: SetBitsFrom(n, from)[k] >= from
  {
    if n == 0 {
      if i >= from {
        BitOfZero(i - from);
      }
    } else {
      SetBitsFromAre(n / 2, from + 1, i);
    }
  }

  /** SetBits lists exactly the set bits, each once, in increasing order. */
  lemma SetBitsAre(n: nat)
    ensures Increasing(SetBits(n))
    ensures forall i: nat :: i in SetBits(n) <==> Bit(n, i) == 1
  {
    SetBitsFromAre(n, 0, 0);
    forall i: nat ensures i in SetBits(n) <==> Bit(n, i) == 1 {
      SetBitsFromAre(n, 0, i);
    }
  }

  // ----- the lowest set bit

  /** The number of trailing zeros. */
  function Lowest(n: nat): nat
    requires n > 0
  {
    if n % 2 == 1 then 0 else 1 + Lowest(n / 2)
  }

  lemma {:induction false} LowestBelow(n: nat)
    requires n > 0
    ensures Pow2(Lowest(n)) <= n
  {
    if n % 2 == 0 {
      LowestBelow(n / 2);
    }
  }

  lemma {:induction false} LowestIsFirst(n: nat, from: nat)
    requires n > 0
    ensures SetBitsFrom(n, from) != [] && SetBitsFrom(n, from)[0] == from + Lowest(n)
    ensures Pow2(Lowest(n)) <= n && SetBitsFrom(n - Pow2(Lowest(n)), from) == SetBitsFrom(n, from)[1..]
  {
    LowestBelow(n);
    if n % 2 == 0 {
      var p := Pow2(Lowest(n / 2));
      LowestIsFirst(n / 2, from + 1);
      EvenLess(n, p);
      assert SetBitsFrom(n, from) == SetBitsFrom(n / 2, from + 1);
      assert SetBitsFrom(n - 2 * p, from) == SetBitsFrom(n / 2 - p, from + 1);
    } else {
      assert (n - 1) / 2 == n / 2;
    }
  }

  lemma EvenLess(n: nat, p: nat)
    requires n % 2 == 0 && p <= n / 2
    ensures 2 * p <= n && (n - 2 * p) % 2 == 0 && (n - 2 * p) / 2 == n / 2 - p
  {
  }

  /** Below the lowest set bit there is none. */
  lemma {:induction false} LowestDigits(n: nat, k: nat)
    requires n > 0
    ensures Low(n, k) == 0 <==> k <= Lowest(n)
  {
    if k > 0 {
      if n % 2 == 0 {
        LowestDigits(n / 2, k - 1);
      }
    }
  }

  lemma {:induction false} LowestShifted(n: nat, k: nat)
    requires n > 0 && Low(n, k) == 0
    ensures Shr(n, k) > 0 && Lowest(n) == k + Lowest(Shr(n, k))
  {
    if k > 0 {
      LowestShifted(n / 2, k - 1);
    }
  }

  lemma {:induction false} AndSelf(n: nat)
    ensures And(n, n) == n && Xor(n, n) == 0
  {
    if n > 0 {
      AndSelf(n / 2);
    }
  }

  /** `n & (n - 1)` clears the lowest set bit. */
  lemma {:induction false} AndPredecessor(n: nat)
    requires n > 0
    ensures And(n, n - 1) == n - Pow2(Lowest(n))
  {
    if n % 2 == 0 {
      AndPredecessor(n / 2);
      assert (n - 1) / 2 == n / 2 - 1;
    } else {
      AndSelf(n / 2);
      assert (n - 1) / 2 == n / 2;
    }
  }

  lemma {:induction false} XorZero(n: nat)
    ensures Xor(n, 0) == n == Xor(0, n)
  {
    if n > 0 {
      XorZero(n / 2);
    }
  }

  /** `n ^ (1 << ctz(n))` clears the lowest set bit, too. */
  lemma {:induction false} XorLowest(n: nat)
    requires n > 0
    ensures Xor(n, Pow2(Lowest(n))) == n - Pow2(Lowest(n))
  {
    var p := Pow2(Lowest(n));
    XorParts(n, p);
    if n % 2 == 0 {
      XorLowest(n / 2);
      assert p / 2 == Pow2(Lowest(n / 2));
    } else {
      XorZero(n / 2);
    }
  }

  /** `n ^ (n - 1)` has ones up to the lowest set bit. */
  lemma {:induction false} XorPredecessor(n: nat)
    requires n > 0
    ensures Xor(n, n - 1) == Pow2(Lowest(n) + 1) - 1
  {
    XorParts(n, n - 1);
    if n % 2 == 0 {
      XorPredecessor(n / 2);
      assert (n - 1) / 2 == n / 2 - 1 && (n + (n - 1)) % 2 == 1;
      assert Lowest(n) == Lowest(n / 2) + 1;
    } else {
      AndSelf(n / 2);
      assert (n - 1) / 2 == n / 2 && Lowest(n) == 0;
    }
  }

  lemma {:induction false} OnesCount(k: nat, from: nat)
    ensures |SetBitsFrom(Pow2(k) - 1, from)| == k
  {
    if k > 0 {
      var n := Pow2(k) - 1;
      assert n % 2 == 1 && n / 2 == Pow2(k - 1) - 1;
      OnesCount(k - 1, from + 1);
      assert SetBitsFrom(n, from) == [from] + SetBitsFrom(n / 2, from + 1);
    }
  }

  lemma OnesParts(p: nat, y: nat)
    requires p > 0
    ensures Xor(2 * p - 1, y) == 1 - y % 2 + 2 * Xor(p - 1, y / 2)
  {
    XorParts(2 * p - 1, y);
    assert (2 * p - 1) / 2 == p - 1 && (2 * p - 1 + y) % 2 == 1 - y % 2;
  }

  lemma {:induction false} XorOnes(k: nat, y: nat)
    requires y < Pow2(k)
    ensures Xor(Pow2(k) - 1, y) == Pow2(k) - 1 - y
  {
    if k > 0 {
      var p := Pow2(k - 1);
      XorOnes(k - 1, y / 2);
      OnesParts(p, y);
    }
  }

  /** Masking with ones keeps the low digits. */
  lemma {:induction false} AndOnes(n: nat, k: nat)
    ensures And(n, Pow2(k) - 1) == Low(n, k)
  {
    if k > 0 {
      assert (Pow2(k) - 1) / 2 == Pow2(k - 1) - 1;
      AndOnes(n / 2, k - 1);
      LowOfZero(n, k);
    }
  }

  lemma {:induction false} LowOfZero(n: nat, k: nat)
    ensures n == 0 ==> Low(n, k) == 0
  {
    if k > 0 {
      LowOfZero(n / 2, k - 1);
    }
  }

  // ----- the highest set bit

  /** floor(log2(n)) */
  function Log2(n: nat): nat
    requires n > 0
  {
    BitLength(n) - 1
  }

  lemma {:induction false} Log2Is(n: nat, k: nat)
    requires n > 0
    ensures k == Log2(n) <==> Pow2(k) <= n < Pow2(k + 1)
  {
    if n > 1 && k > 0 {
      Log2Is(n / 2, k - 1);
    } else if n > 1 {
      BitLengthIsLog2(n / 2);
    }
  }

  lemma {:induction false} Log2Shifted(n: nat, k: nat)
    requires n >= Pow2(k)
    ensures Shr(n, k) > 0 && Log2(n) == k + Log2(Shr(n, k))
  {
    if k > 0 {
      Log2Shifted(n / 2, k - 1);
    }
  }

  lemma {:induction false} ShrBit(n: nat, k: nat, i: nat)
    ensures Bit(Shr(n, k), i) == Bit(n, k + i)
  {
    if k > 0 {
      ShrBit(n / 2, k - 1, i);
    }
  }

  lemma {:induction false} OrBit(x: nat, y: nat, i: nat)
    ensures Bit(Or(x, y), i) == if Bit(x, i) == 1 || Bit(y, i) == 1 then 1 else 0
  {
    if i > 0 {
      OrBit(x / 2, y / 2, i - 1);
    }
  }

  lemma {:induction false} OrLength(x: nat, y: nat)
    requires y <= x
    ensures BitLength(Or(x, y)) == BitLength(x)
  {
    if x > 0 {
      OrLength(x / 2, y / 2);
    }
  }

  /** The `m` highest digits of `n`, or all of them, are ones. */
  ghost predicate TopOnes(n: nat, m: nat) {
    forall i | 0 <= i < BitLength(n) && BitLength(n) - m <= i :: Bit(n, i) == 1
  }

  /** `n |= n >> m` doubles the ones at the top. */
  lemma Smear(n: nat, m: nat)
    requires TopOnes(n, m)
    ensures var s := Or(n, Shr(n, m)); BitLength(s) == BitLength(n) && TopOnes(s, 2 * m)
  {
    var s := Or(n, Shr(n, m));
    OrLength(n, Shr(n, m));
    forall i | 0 <= i < BitLength(s) && BitLength(s) - 2 * m <= i ensures Bit(s, i) == 1 {
      OrBit(n, Shr(n, m), i);
      ShrBit(n, m, i);
    }
  }

  lemma {:induction false} LengthBound(n: nat, k: nat)
    ensures BitLength(n) <= k <==> n < Pow2(k)
  {
    if n > 0 && k > 0 {
      LengthBound(n / 2, k - 1);
    }
  }

  lemma LowestBound(n: nat, k: nat)
    requires 0 < n < Pow2(k)
    ensures Lowest(n) < k
  {
    LowestIsFirst(n, 0);
    LengthBound(Pow2(Lowest(n)), k);
    LengthBound(Pow2(Lowest(n)), Lowest(n));
  }

  lemma {:induction false} AllOnes(n: nat)
    requires forall i | 0 <= i < BitLength(n) :: Bit(n, i) == 1
    ensures n == Pow2(BitLength(n)) - 1
  {
    if n > 0 {
      assert Bit(n, 0) == 1;
      forall i | 0 <= i < BitLength(n / 2) ensures Bit(n / 2, i) == 1 {
        assert Bit(n, i + 1) == 1;
      }
      AllOnes(n / 2);
    }
  }

  lemma TopOne(n: nat)
    ensures TopOnes(n, 1)
  {
    if n > 0 {
      TopBit(n);
    }
  }

  /** `m` has the length of `n`, and `w` ones at the top. */
  ghost predicate Smeared(n: nat, m: nat, w: nat) {
    BitLength(m) == BitLength(n) && TopOnes(m, w)
  }

  lemma SmearStep(n: nat, m: nat, w: nat)
    requires Smeared(n, m, w)
    ensures Smeared(n, Or(m, Shr(m, w)), 2 * w)
  {
    Smear(m, w);
  }

  /** `n |= n >> 1`, `n |= n >> 2`, `n |= n >> 4` and so on, `k` times. */
  function Spread(n: nat, k: nat): nat {
    if k == 0 then n else Or(Spread(n, k - 1), Shr(Spread(n, k - 1), Pow2(k - 1)))
  }

  lemma {:induction false} SpreadSmears(n: nat, k: nat)
    ensures Smeared(n, Spread(n, k), Pow2(k))
  {
    if k == 0 {
      TopOne(n);
    } else {
      SpreadSmears(n, k - 1);
      SmearStep(n, Spread(n, k - 1), Pow2(k - 1));
    }
  }

  /** With enough shifts all bits below the highest one are set. */
  lemma SpreadIs(n: nat, k: nat)
    requires 0 < n < Pow2(Pow2(k))
    ensures Spread(n, k) == Pow2(Log2(n) + 1) - 1
    ensures Spread(n, k) - Shr(Spread(n, k), 1) == Pow2(Log2(n))
  {
    var m := Spread(n, k);
    SpreadSmears(n, k);
    LengthBound(n, Pow2(k));
    AllOnes(m);
    assert Shr(m, 1) == m / 2;
  }

  lemma {:induction false} SetBitsFromEmpty(n: nat, from: nat)
    ensures SetBitsFrom(n, from) == [] <==> n == 0
  {
    if n > 1 {
      SetBitsFromEmpty(n / 2, from + 1);
    }
  }

  lemma SetBitsEmpty(n: nat)
    ensures SetBits(n) == [] <==> n == 0
  {
    SetBitsFromEmpty(n, 0);
  }

  lemma {:induction false} PowerBits(k: nat)
    ensures Lowest(Pow2(k)) == k && Log2(Pow2(k)) == k
  {
    if k > 0 {
      PowerBits(k - 1);
      assert Pow2(k) % 2 == 0 && Pow2(k) / 2 == Pow2(k - 1);
    }
  }
}
