/**
 xxh64: the one-shot hash and the streaming hash of xxhash.c, over a record of operations on
 64-bit words, as in module XXHash32.
 */
module XXHash64 {
  import opened Sequences
  import opened Buffers

  type u64 = x: int | 0 <= x < 0x1_0000_0000_0000_0000

  const PRIME64_1: u64 := 11400714785074694791
  const PRIME64_2: u64 := 14029467366897019727
  const PRIME64_3: u64 := 1609587929392839161
  const PRIME64_4: u64 := 9650029242287828579
  const PRIME64_5: u64 := 2870177450012600261

  /** The operations of the machine; `load8` and `load4` are get_unaligned_le64 and get_unaligned_le32. */
  datatype Alu = Alu(
    add: (u64, u64) -> u64,
    sub: (u64, u64) -> u64,
    mul: (u64, u64) -> u64,
    rotl: (u64, nat) -> u64,
    xor: (u64, u64) -> u64,
    shr: (u64, nat) -> u64,
    load8: seq<byte> -> u64,
    load4: seq<byte> -> u64)

  function Wrap(n: nat): u64 {
    n % 0x1_0000_0000_0000_0000
  }

  // ----- the algorithm as a function of the message

  datatype Lanes = Lanes(v1: u64, v2: u64, v3: u64, v4: u64)

  /** xxh64_round */
  function Round(a: Alu, acc: u64, input: u64): u64 {
    a.mul(a.rotl(a.add(acc, a.mul(input, PRIME64_2)), 31), PRIME64_1)
  }

  /** xxh64_merge_round */
  function MergeRound(a: Alu, acc: u64, val: u64): u64 {
    a.add(a.mul(a.xor(acc, Round(a, 0, val)), PRIME64_1), PRIME64_4)
  }

  function Start(a: Alu, seed: u64): Lanes {
    Lanes(a.add(a.add(seed, PRIME64_1), PRIME64_2), a.add(seed, PRIME64_2), seed, a.sub(seed, PRIME64_1))
  }

  /** One round of every lane, on the first 32 bytes of `m`. */
  function Stripe(a: Alu, l: Lanes, m: seq<byte>): Lanes
    requires |m| >= 32
  {
    Lanes(Round(a, l.v1, a.load8(m[0..8])), Round(a, l.v2, a.load8(m[8..16])),
          Round(a, l.v3, a.load8(m[16..24])), Round(a, l.v4, a.load8(m[24..32])))
  }

  /** The lanes after all complete stripes of `m`. */
  function Stripes(a: Alu, l: Lanes, m: seq<byte>): Lanes
    decreases |m|
  {
    if |m| < 32 then l else Stripes(a, Stripe(a, l, m), m[32..])
  }

  /** What is left of `m` after all complete stripes. */
  function Rest(m: seq<byte>): (rest: seq<byte>)
    ensures |rest| == |m| % 32
  {
    if |m| < 32 then m else Rest(m[32..])
  }

  function Converge(a: Alu, l: Lanes): u64 {
    var h := a.add(a.add(a.add(a.rotl(l.v1, 1), a.rotl(l.v2, 7)), a.rotl(l.v3, 12)), a.rotl(l.v4, 18));
    MergeRound(a, MergeRound(a, MergeRound(a, MergeRound(a, h, l.v1), l.v2), l.v3), l.v4)
  }

  function Tail8(a: Alu, h: u64, input: u64): u64 {
    a.add(a.mul(a.rotl(a.xor(h, Round(a, 0, input)), 27), PRIME64_1), PRIME64_4)
  }

  function Tail4(a: Alu, h: u64, input: u64): u64 {
    a.add(a.mul(a.rotl(a.xor(h, a.mul(input, PRIME64_1)), 23), PRIME64_2), PRIME64_3)
  }

  function Tail1(a: Alu, h: u64, input: byte): u64 {
    a.mul(a.rotl(a.xor(h, a.mul(input, PRIME64_5)), 11), PRIME64_1)
  }

  /** Whole words first, then half a word if there is one, then single bytes. */
  function Tail(a: Alu, h: u64, m: seq<byte>): u64
    decreases |m|
  {
    if |m| >= 8 then Tail(a, Tail8(a, h, a.load8(m[..8])), m[8..])
    else if |m| >= 4 then Tail(a, Tail4(a, h, a.load4(m[..4])), m[4..])
    else if |m| > 0 then Tail(a, Tail1(a, h, m[0]), m[1..])
    else h
  }

  function Avalanche(a: Alu, h: u64): u64 {
    var h1 := a.mul(a.xor(h, a.shr(h, 33)), PRIME64_2);
    var h2 := a.mul(a.xor(h1, a.shr(h1, 29)), PRIME64_3);
    a.xor(h2, a.shr(h2, 32))
  }

  /** The hash of `m` if the lanes are to be used, or else the seed. */
  function HashBy(a: Alu, m: seq<byte>, seed: u64, long: bool): u64 {
    var l := Stripes(a, Start(a, seed), m);
    var h := if long then Converge(a, l) else a.add(l.v3, PRIME64_5);
    Avalanche(a, Tail(a, a.add(h, Wrap(|m|)), Rest(m)))
  }

  /** The 64-bit hash of the message `m`. */
  function Hash(a: Alu, m: seq<byte>, seed: u64): u64 {
    HashBy(a, m, seed, |m| >= 32)
  }

  /** A message may be consumed in two steps, if what is left of the first is kept for the second. */
  lemma {:induction false} StripesAppend(a: Alu, l: Lanes, x: seq<byte>, y: seq<byte>)
    ensures Stripes(a, l, x + y) == Stripes(a, Stripes(a, l, x), Rest(x) + y)
    ensures Rest(x + y) == Rest(Rest(x) + y)
    decreases |x|
  {
    if |x| >= 32 {
      assert (x + y)[32..] == x[32..] + y;
      StripeOfPrefix(a, l, x, x + y);
      StripesAppend(a, Stripe(a, l, x), x[32..], y);
    }
  }

  lemma StripeOfPrefix(a: Alu, l: Lanes, x: seq<byte>, m: seq<byte>)
    requires |x| >= 32 && x <= m
    ensures Stripe(a, l, x) == Stripe(a, l, m)
  {
    assert m[0..8] == x[0..8] && m[8..16] == x[8..16] && m[16..24] == x[16..24] && m[24..32] == x[24..32];
  }

  // ----- the loops that the one-shot and the streaming functions share

  /** The four rounds of the loops over stripes, on bytes `p` to `p + 32` of `input`. */
  method Rounds(a: Alu, l: Lanes, input: array<byte>, p: nat) returns (r: Lanes)
    requires p + 32 <= input.Length
    ensures forall m | input[p..p + 32] <= m :: r == Stripe(a, l, m)
  {
    r := Lanes(Round(a, l.v1, a.load8(input[p..p + 8])), Round(a, l.v2, a.load8(input[p + 8..p + 16])),
      Round(a, l.v3, a.load8(input[p + 16..p + 24])), Round(a, l.v4, a.load8(input[p + 24..p + 32])));
    ghost var m := input[p..p + 32];
    assert forall i | 0 <= i < 32 :: m[i] == input[p + i];
    assert m[0..8] == input[p..p + 8] && m[8..16] == input[p + 8..p + 16];
    assert m[16..24] == input[p + 16..p + 24] && m[24..32] == input[p + 24..p + 32];
    forall m' | m <= m' ensures r == Stripe(a, l, m') {
      StripeOfPrefix(a, l, m, m');
    }
  }

  lemma FirstStripe(input: array<byte>, p: nat, len: nat)
    requires p + 32 <= len <= input.Length
    ensures input[p..p + 32] <= input[p..len] && input[p..len][32..] == input[p + 32..len]
  {
  }

  /** The loop over stripes in xxh64 and xxh64_update, from byte `from` up to `len`. */
  method ConsumeStripes(a: Alu, l0: Lanes, input: array<byte>, from: nat, len: nat)
    returns (l: Lanes, p: nat)
    requires from <= len <= input.Length
    ensures l == Stripes(a, l0, input[from..len])
    ensures from <= p <= len && input[p..len] == Rest(input[from..len])
  {
    p, l := from, l0;
    while p + 32 <= len
      invariant from <= p <= len
      invariant Stripes(a, l, input[p..len]) == Stripes(a, l0, input[from..len])
      invariant Rest(input[p..len]) == Rest(input[from..len])
    {
      FirstStripe(input, p, len);
      l := Rounds(a, l, input, p);
      p := p + 32;
    }
  }

  /** The convergence of the lanes in xxh64 and xxh64_digest. */
  method MergeLanes(a: Alu, v1: u64, v2: u64, v3: u64, v4: u64) returns (h64: u64)
    ensures h64 == Converge(a, Lanes(v1, v2, v3, v4))
  {
    h64 := a.add(a.add(a.add(a.rotl(v1, 1), a.rotl(v2, 7)), a.rotl(v3, 12)), a.rotl(v4, 18));
    h64 := MergeRound(a, h64, v1);
    h64 := MergeRound(a, h64, v2);
    h64 := MergeRound(a, h64, v3);
    h64 := MergeRound(a, h64, v4);
  }

  method FinalMix(a: Alu, h: u64) returns (h64: u64)
    ensures h64 == Avalanche(a, h)
  {
    h64 := a.xor(h, a.shr(h, 33));
    h64 := a.mul(h64, PRIME64_2);
    h64 := a.xor(h64, a.shr(h64, 29));
    h64 := a.mul(h64, PRIME64_3);
    h64 := a.xor(h64, a.shr(h64, 32));
  }

  /** The loop over the words of what is left. */
  method TailWords(a: Alu, h: u64, input: array<byte>, from: nat, end: nat) returns (h64: u64, p: nat)
    requires from <= end <= input.Length
    ensures from <= p <= end < p + 8 && Tail(a, h64, input[p..end]) == Tail(a, h, input[from..end])
  {
    p := from;
    h64 := h;
    while p + 8 <= end
      invariant from <= p <= end
      invariant Tail(a, h64, input[p..end]) == Tail(a, h, input[from..end])
    {
      Slices(input, p, p + 8, end);
      var k1 := Round(a, 0, a.load8(input[p..p + 8]));
      h64 := a.xor(h64, k1);
      h64 := a.add(a.mul(a.rotl(h64, 27), PRIME64_1), PRIME64_4);
      p := p + 8;
    }
  }

  /** The loop over the last bytes. */
  method TailBytes(a: Alu, h: u64, input: array<byte>, from: nat, end: nat) returns (h64: u64)
    requires from <= end <= input.Length && end < from + 4
    ensures h64 == Tail(a, h, input[from..end])
  {
    var p := from;
    h64 := h;
    while p < end
      invariant from <= p <= end
      invariant Tail(a, h64, input[p..end]) == Tail(a, h, input[from..end])
    {
      Slices(input, p, p + 1, end);
      h64 := a.xor(h64, a.mul(input[p], PRIME64_5));
      h64 := a.mul(a.rotl(h64, 11), PRIME64_1);
      p := p + 1;
    }
  }

  /** The end of xxh64 and xxh64_digest: what is left of the message, then the final mix. */
  method Finish(a: Alu, h: u64, input: array<byte>, from: nat, end: nat) returns (h64: u64)
    requires from <= end <= input.Length
    ensures h64 == Avalanche(a, Tail(a, h, input[from..end]))
  {
    var p;
    h64, p := TailWords(a, h, input, from, end);
    if p + 4 <= end {
      Slices(input, p, p + 4, end);
      h64 := a.xor(h64, a.mul(a.load4(input[p..p + 4]), PRIME64_1));
      h64 := a.add(a.mul(a.rotl(h64, 23), PRIME64_2), PRIME64_3);
      p := p + 4;
    }
    h64 := TailBytes(a, h64, input, p, end);
    h64 := FinalMix(a, h64);
  }

  /** xxh64: the hash of the first `len` bytes of `input` in one call. */
  method Xxh64(a: Alu, input: array<byte>, len: nat, seed: u64) returns (h64: u64)
    requires len <= input.Length
    ensures h64 == Hash(a, input[..len], seed)
  {
    var p := 0;
    assert input[0..len] == input[..len];
    if len >= 32 {
      var v1 := a.add(a.add(seed, PRIME64_1), PRIME64_2);
      var v2 := a.add(seed, PRIME64_2);
      var v3 := seed;
      var v4 := a.sub(seed, PRIME64_1);
      var l;
      l, p := ConsumeStripes(a, Lanes(v1, v2, v3, v4), input, p, len);
      h64 := MergeLanes(a, l.v1, l.v2, l.v3, l.v4);
    } else {
      h64 := a.add(seed, PRIME64_5);
    }
    h64 := a.add(h64, Wrap(len));
    h64 := Finish(a, h64, input, p, len);
  }

  // ----- the streaming state

  const EINVAL := 22

  class Xxh64State {
    const alu: Alu
    var totalLen: u64
    var v1: u64
    var v2: u64
    var v3: u64
    var v4: u64
    const mem64: array<byte>
    var memsize: nat
    ghost var seed: u64
    ghost var msg: seq<byte>  // everything hashed since the last reset

    /** The accumulators are `l`, the bytes put by are `rest`, and `n` bytes have been counted. */
    ghost predicate Holds(l: Lanes, rest: seq<byte>, n: nat)
      reads this, mem64
    {
      && mem64.Length == 32
      && Lanes(v1, v2, v3, v4) == l
      && memsize == |rest| < 32 && mem64[..memsize] == rest
      && totalLen == Wrap(n)
    }

    /** The state is that of a hash of `msg` from `seed`. */
    ghost predicate Valid()
      reads this, mem64
    {
      Holds(Stripes(alu, Start(alu, seed), msg), Rest(msg), |msg|)
    }

    /** A state of its own, not yet reset. */
    constructor (alu: Alu)
      ensures this.alu == alu && fresh(mem64) && mem64.Length == 32
    {
      this.alu := alu;
      mem64 := new byte[32];
    }

    /** xxh64_reset */
    method Reset(seed: u64)
      requires mem64.Length == 32
      modifies this, mem64
      ensures Valid() && this.seed == seed && msg == []
    {
      totalLen, memsize := 0, 0;
      forall i | 0 <= i < 32 {
        mem64[i] := 0;
      }
      v1 := alu.add(alu.add(seed, PRIME64_1), PRIME64_2);
      v2 := alu.add(seed, PRIME64_2);
      v3 := seed;
      v4 := alu.sub(seed, PRIME64_1);
      this.seed, msg := seed, [];
    }

    /** "Tmp buffer is full": it is filled up and consumed as one stripe. */
    method TakeBuffer(input: array<byte>) returns (p: nat)
      requires mem64.Length == 32 && input != mem64 && 0 < memsize < 32 <= memsize + input.Length
      modifies this`v1, this`v2, this`v3, this`v4, this`memsize, mem64
      ensures p == 32 - old(memsize) && memsize == 0
      ensures forall m | old(mem64[..memsize]) + input[..p] <= m ::
        Lanes(v1, v2, v3, v4) == Stripe(alu, old(Lanes(v1, v2, v3, v4)), m)
    {
      Copy(mem64, memsize, input, 0, 32 - memsize);
      p := 32 - memsize;
      assert mem64[0..32] == old(mem64[..memsize]) + input[..p];
      var l := Rounds(alu, Lanes(v1, v2, v3, v4), mem64, 0);
      v1, v2, v3, v4 := l.v1, l.v2, l.v3, l.v4;
      memsize := 0;
    }

    /** What is left is put by in the empty buffer. */
    method PutBy(input: array<byte>, p: nat, len: nat)
      requires mem64.Length == 32 && input != mem64 && p <= len <= input.Length && len - p < 32 && memsize == 0
      modifies this`memsize, mem64
      ensures memsize == len - p && mem64[..memsize] == input[p..len]
    {
      if p < len {
        Copy(mem64, 0, input, p, len - p);
        memsize := len - p;
      }
    }

    /** The loop over the stripes of `input` from byte `p` on, and the bytes put by for the next call. */
    method TakeInput(input: array<byte>, from: nat, len: nat, ghost m: seq<byte>)
      requires mem64.Length == 32 && input != mem64 && from <= len <= input.Length && memsize == 0
      requires m == input[from..len]
      modifies this`v1, this`v2, this`v3, this`v4, this`memsize, mem64
      ensures Lanes(v1, v2, v3, v4) == Stripes(alu, old(Lanes(v1, v2, v3, v4)), m)
      ensures memsize == |Rest(m)| && mem64[..memsize] == Rest(m)
    {
      var p := from;
      if p + 32 <= len {
        var l;
        l, p := ConsumeStripes(alu, Lanes(v1, v2, v3, v4), input, p, len);
        v1, v2, v3, v4 := l.v1, l.v2, l.v3, l.v4;
      }
      PutBy(input, p, len);
    }

    /** The part of xxh64_update that runs once there is enough for a stripe. */
    method TakeStripes(input: array<byte>, len: nat, ghost m: seq<byte>)
      requires mem64.Length == 32 && input != mem64 && len <= input.Length
      requires memsize < 32 <= memsize + len && m == mem64[..memsize] + input[..len]
      modifies this`v1, this`v2, this`v3, this`v4, this`memsize, mem64
      ensures Lanes(v1, v2, v3, v4) == Stripes(alu, old(Lanes(v1, v2, v3, v4)), m)
      ensures memsize == |Rest(m)| && mem64[..memsize] == Rest(m)
    {
      var p := 0;
      ghost var rest := m;
      if memsize > 0 {
        rest := m[32..];
        assert mem64[..memsize] + input[..32 - memsize] <= m && rest == input[32 - memsize..len];
        p := TakeBuffer(input);
      }
      TakeInput(input, p, len, rest);
    }

    /** "Fill in tmp buffer": not enough for a stripe yet. */
    method Keep(input: array<byte>, len: nat, ghost m: seq<byte>)
      requires mem64.Length == 32 && input != mem64 && len <= input.Length
      requires memsize + len < 32 && m == mem64[..memsize] + input[..len]
      modifies this`memsize, mem64
      ensures memsize == |m| && mem64[..memsize] == m
    {
      Copy(mem64, memsize, input, 0, len);
      memsize := memsize + len;
    }

    /** The length so far, modulo 2^64. */
    method CountLength(len: nat, ghost n: nat)
      requires totalLen == Wrap(n)
      modifies this`totalLen
      ensures totalLen == Wrap(n + len)
    {
      ghost var m := 0x1_0000_0000_0000_0000;
      assert n + len == Wrap(n) + Wrap(len) + (n / m + len / m) * m;
      totalLen := Wrap(totalLen + Wrap(len));
    }

    /** xxh64_update once the input is known not to be null. */
    method Absorb(input: array<byte>, len: nat, ghost l: Lanes, ghost rest: seq<byte>, ghost m: seq<byte>, ghost n: nat,
                  ghost l': Lanes, ghost rest': seq<byte>)
      requires Holds(l, rest, n) && input != mem64 && len <= input.Length && m == rest + input[..len]
      requires l' == Stripes(alu, l, m) && rest' == Rest(m)
      modifies this`v1, this`v2, this`v3, this`v4, this`memsize, this`totalLen, mem64
      ensures Holds(l', rest', n + len)
    {
      CountLength(len, n);
      if memsize + len < 32 {
        Keep(input, len, m);
        return;
      }
      TakeStripes(input, len, m);
    }

    method Extend(input: array<byte>, len: nat)
      requires Valid() && input != mem64 && len <= input.Length
      modifies this`v1, this`v2, this`v3, this`v4, this`memsize, this`totalLen, this`msg, mem64
      ensures Valid() && msg == old(msg + input[..len])
    {
      ghost var was, data := msg, input[..len];
      StripesAppend(alu, Start(alu, seed), was, data);
      msg := was + data;
      Absorb(input, len, Stripes(alu, Start(alu, seed), was), Rest(was), Rest(was) + data, |was|,
             Stripes(alu, Start(alu, seed), msg), Rest(msg));
      assert |msg| == |was| + len;
    }

    /** xxh64_update: `msg` grows by the first `len` bytes of `input`. */
    method Update(input: array?<byte>, len: nat) returns (rc: int)
      requires Valid()
      requires input != null ==> input != mem64 && len <= input.Length
      modifies this, mem64
      ensures Valid() && seed == old(seed)
      ensures input == null ==> rc == -EINVAL && msg == old(msg)
      ensures input != null ==> rc == 0 && msg == old(msg) + old(input[..len])
    {
      if input == null {
        return -EINVAL;
      }
      Extend(input, len);
      return 0;
    }

    /**
     xxh64_digest. Whether the lanes are used is decided by the wrapped length, so that the
     result is the hash of `msg` as long as that agrees with the true length.
     */
    method Digest() returns (h64: u64)
      requires Valid()
      ensures h64 == HashBy(alu, msg, seed, Wrap(|msg|) >= 32)
    {
      if totalLen >= 32 {
        h64 := MergeLanes(alu, v1, v2, v3, v4);
      } else {
        h64 := alu.add(v3, PRIME64_5);
      }
      h64 := alu.add(h64, totalLen);
      assert mem64[0..memsize] == mem64[..memsize];
      h64 := Finish(alu, h64, mem64, 0, memsize);
    }
  }

  /** The wrapped length and the true one agree unless the length has just passed a multiple of 2^64. */
  lemma LongEnough(n: nat)
    ensures (Wrap(n) >= 32 <==> n >= 32) <==> (n < 0x1_0000_0000_0000_0000 || n % 0x1_0000_0000_0000_0000 >= 32)
  {
  }

  /**
   `d` is the hash of `m`, unless the length of `m` has just passed a multiple of 2^64; then the lanes are
   left out.
   */
  ghost predicate IsDigest(a: Alu, m: seq<byte>, seed: u64, d: u64) {
    && d == HashBy(a, m, seed, Wrap(|m|) >= 32)
    && (|m| < 0x1_0000_0000_0000_0000 || |m| % 0x1_0000_0000_0000_0000 >= 32 ==> d == Hash(a, m, seed))
  }

  /** Such a message has the one-shot hash as its digest. */
  lemma DigestIsHash(a: Alu, m: seq<byte>, seed: u64)
    requires |m| < 0x1_0000_0000_0000_0000 || |m| % 0x1_0000_0000_0000_0000 >= 32
    ensures HashBy(a, m, seed, Wrap(|m|) >= 32) == Hash(a, m, seed)
  {
    LongEnough(|m|);
  }

  /** A new digest is taken after one more chunk has been hashed. */
  method Feed(state: Xxh64State, chunk: seq<byte>) returns (h64: u64)
    requires state.Valid()
    modifies state, state.mem64
    ensures state.Valid() && state.seed == old(state.seed) && state.msg == old(state.msg) + chunk
    ensures IsDigest(state.alu, state.msg, state.seed, h64)
  {
    var input := new byte[|chunk|](i requires 0 <= i < |chunk| => chunk[i]);
    assert input[..|chunk|] == chunk;
    var _ := state.Update(input, |chunk|);
    h64 := Close(state);
  }

  method Close(state: Xxh64State) returns (h64: u64)
    requires state.Valid()
    ensures IsDigest(state.alu, state.msg, state.seed, h64)
  {
    h64 := state.Digest();
    if |state.msg| < 0x1_0000_0000_0000_0000 || |state.msg| % 0x1_0000_0000_0000_0000 >= 32 {
      DigestIsHash(state.alu, state.msg, state.seed);
    }
  }

  /**
   Streaming equals one-shot: for every way to cut a message into chunks, every digest taken on the
   way is the hash of the message so far. Only if its length has just passed a multiple of 2^64,
   more than a one-shot call can be given, the digest leaves the lanes out.
   */
  method HashChunks(alu: Alu, chunks: seq<seq<byte>>, seed: u64) returns (digests: seq<u64>)
    ensures |digests| == |chunks| + 1
    ensures forall i | 0 <= i <= |chunks| :: IsDigest(alu, Concat(chunks[..i]), seed, digests[i])
  {
    var state := new Xxh64State(alu);
    state.Reset(seed);
    var h := Close(state);
    digests := [h];
    for n := 0 to |chunks|
      invariant state.Valid() && state.seed == seed && fresh(state) && fresh(state.mem64) && state.alu == alu
      invariant state.msg == Concat(chunks[..n])
      invariant |digests| == n + 1
      invariant forall i | 0 <= i <= n :: IsDigest(alu, Concat(chunks[..i]), seed, digests[i])
    {
      h := Feed(state, chunks[n]);
      ConcatNext(chunks, n);
      digests := digests + [h];
    }
  }
}
