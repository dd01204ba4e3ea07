/** Exclusive or on numbers is the exclusive or of bit vectors. */
module BitVectors {
  import opened Binary

  function Digit(b: bv64): nat {
    if b & 1 == 1 then 1 else 0
  }

  lemma Joined(a: bv1, b: bv64)
    requires b < 0x8000_0000_0000_0000
    ensures ((b << 1) | (a as bv64)) as nat == a as nat + 2 * (b as nat)
  {
  }

  lemma Half(b: bv64)
    ensures b as nat == ((b & 1) as bv1) as nat + 2 * ((b >> 1) as nat)
  {
    Joined((b & 1) as bv1, b >> 1);
    assert ((b >> 1) << 1) | (((b & 1) as bv1) as bv64) == b;
  }

  lemma Lowest(b: bv64)
    ensures ((b & 1) as bv1) as nat == Digit(b)
  {
  }

  lemma Halved(b: bv64)
    ensures b as nat == Digit(b) + 2 * ((b >> 1) as nat)
  {
    Half(b);
    Lowest(b);
  }

  lemma NoDigits(b: bv64)
    requires b as nat == 0
    ensures b == 0
  {
  }

  lemma XorDigits(a: bv64, b: bv64)
    ensures Digit(a ^ b) == (Digit(a) + Digit(b)) % 2
    ensures (a ^ b) >> 1 == (a >> 1) ^ (b >> 1)
  {
  }

  lemma XorDigit(p: nat, x: nat, q: nat, y: nat)
    requires p <= 1 && q <= 1
    ensures Xor(p + 2 * x, q + 2 * y) == (p + q) % 2 + 2 * Xor(x, y)
  {
    BackInHalves(p, x);
    BackInHalves(q, y);
    BackInHalves((p + q) % 2, (p + q) / 2 + x + y);
    XorParts(p + 2 * x, q + 2 * y);
  }

  lemma BackInHalves(p: nat, x: nat)
    requires p <= 1
    ensures (p + 2 * x) / 2 == x && (p + 2 * x) % 2 == p
  {
  }

  /** `f` reads a bit vector as a number. */
  ghost predicate Reads(f: bv64 -> nat) {
    && (forall b {:trigger Digit(b)} :: f(b) == Digit(b) + 2 * f(b >> 1))
    && (forall b :: f(b) == 0 ==> b == 0)
  }

  lemma XorNext(f: bv64 -> nat, a: bv64, b: bv64)
    requires Reads(f) && Xor(f(a >> 1), f(b >> 1)) == f((a ^ b) >> 1)
    ensures Xor(f(a), f(b)) == f(a ^ b)
  {
    XorDigits(a, b);
    assert f(a) == Digit(a) + 2 * f(a >> 1) && f(b) == Digit(b) + 2 * f(b >> 1);
    XorDigit(Digit(a), f(a >> 1), Digit(b), f(b >> 1));
  }

  lemma {:induction false} XorRead(f: bv64 -> nat, a: bv64, b: bv64)
    requires Reads(f)
    ensures Xor(f(a), f(b)) == f(a ^ b)
    decreases f(a) + f(b)
  {
    if f(a) == 0 && f(b) == 0 {
      assert a == 0 && b == 0 && a ^ b == 0;
    } else {
      assert f(a) == Digit(a) + 2 * f(a >> 1) && f(b) == Digit(b) + 2 * f(b >> 1);
      XorRead(f, a >> 1, b >> 1);
      XorDigits(a, b);
      XorNext(f, a, b);
    }
  }

  ghost function Number(b: bv64): nat {
    b as nat
  }

  lemma NumberReads()
    ensures Reads(Number)
  {
    forall b: bv64 ensures Number(b) == Digit(b) + 2 * Number(b >> 1) {
      Halved(b);
    }
    forall b: bv64 | Number(b) == 0 ensures b == 0 {
      NoDigits(b);
    }
  }

  lemma XorNumber(a: bv64, b: bv64)
    ensures Xor(Number(a), Number(b)) == Number(a ^ b)
  {
    NumberReads();
    XorRead(Number, a, b);
  }

  lemma XorIs(a: bv64, b: bv64)
    ensures Xor(a as nat, b as nat) == (a ^ b) as nat
  {
    XorNumber(a, b);
  }
  lemma Shifts(x: nat, k: nat, b: nat)
    requires b == Pow2(k)
    ensures Shr(x, k) == x / b
  {
    Split(x, k);
    LowBound(x, k);
    RemainderIs(x, Shr(x, k), Low(x, k), b);
  }
}
