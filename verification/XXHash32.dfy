/**
 xxh32: the one-shot hash and the streaming hash of xxhash.c. Both are written over a record of
 operations on 32-bit words, because that they agree does not depend on what the operations do;
 module XXHash32Words supplies the machine's.
 */
module XXHash32 {
  import opened Sequences
  import opened Buffers

  type u32 = x: int | 0 <= x < 0x1_0000_0000

  const PRIME32_1: u32 := 2654435761
  const PRIME32_2: u32 := 2246822519
  const PRIME32_3: u32 := 3266489917
  const PRIME32_4: u32 := 668265263
  const PRIME32_5: u32 := 374761393

  /** The operations of the machine; `load` is get_unaligned_le32. */
  datatype Alu = Alu(
    add: (u32, u32) -> u32,
    sub: (u32, u32) -> u32,
    mul: (u32, u32) -> u32,
    rotl: (u32, nat) -> u32,
    xor: (u32, u32) -> u32,
    shr: (u32, nat) -> u32,
    load: seq<byte> -> u32)

  function Wrap(n: nat): u32 {
    n % 0x1_0000_0000
  }

  // ----- the algorithm as a function of the message

  datatype Lanes = Lanes(v1: u32, v2: u32, v3: u32, v4: u32)

  /** xxh32_round */
  function Round(a: Alu, seed: u32, input: u32): u32 {
    a.mul(a.rotl(a.add(seed, a.mul(input, PRIME32_2)), 13), PRIME32_1)
  }

  function Start(a: Alu, seed: u32): Lanes {
    Lanes(a.add(a.add(seed, PRIME32_1), PRIME32_2), a.add(seed, PRIME32_2), seed, a.sub(seed, PRIME32_1))
  }

  /** One round of every lane, on the first 16 bytes of `m`. */
  function Stripe(a: Alu, l: Lanes, m: seq<byte>): Lanes
    requires |m| >= 16
  {
    Lanes(Round(a, l.v1, a.load(m[0..4])), Round(a, l.v2, a.load(m[4..8])),
          Round(a, l.v3, a.load(m[8..12])), Round(a, l.v4, a.load(m[12..16])))
  }

  /** The lanes after all complete stripes of `m`. */
  function Stripes(a: Alu, l: Lanes, m: seq<byte>): Lanes
    decreases |m|
  {
    if |m| < 16 then l else Stripes(a, Stripe(a, l, m), m[16..])
  }

  /** What is left of `m` after all complete stripes. */
  function Rest(m: seq<byte>): (rest: seq<byte>)
    ensures |rest| == |m| % 16
  {
    if |m| < 16 then m else Rest(m[16..])
  }

  function Converge(a: Alu, l: Lanes): u32 {
    a.add(a.add(a.add(a.rotl(l.v1, 1), a.rotl(l.v2, 7)), a.rotl(l.v3, 12)), a.rotl(l.v4, 18))
  }

  function TailWord(a: Alu, h: u32, input: u32): u32 {
    a.mul(a.rotl(a.add(h, a.mul(input, PRIME32_3)), 17), PRIME32_4)
  }

  function TailByte(a: Alu, h: u32, input: byte): u32 {
    a.mul(a.rotl(a.add(h, a.mul(input, PRIME32_5)), 11), PRIME32_1)
  }

  function Tail(a: Alu, h: u32, m: seq<byte>): u32
    decreases |m|
  {
    if |m| >= 4 then Tail(a, TailWord(a, h, a.load(m[..4])), m[4..])
    else if |m| > 0 then Tail(a, TailByte(a, h, m[0]), m[1..])
    else h
  }

  function Avalanche(a: Alu, h: u32): u32 {
    var h1 := a.mul(a.xor(h, a.shr(h, 15)), PRIME32_2);
    var h2 := a.mul(a.xor(h1, a.shr(h1, 13)), PRIME32_3);
    a.xor(h2, a.shr(h2, 16))
  }

  /** The 32-bit hash of the message `m`. */
  function Hash(a: Alu, m: seq<byte>, seed: u32): u32 {
    var h := if |m| >= 16 then Converge(a, Stripes(a, Start(a, seed), m)) else a.add(seed, PRIME32_5);
    Avalanche(a, Tail(a, a.add(h, Wrap(|m|)), Rest(m)))
  }

  /** A message may be consumed in two steps, if what is left of the first is kept for the second. */
  lemma {:induction false} StripesAppend(a: Alu, l: Lanes, x: seq<byte>, y: seq<byte>)
    ensures Stripes(a, l, x + y) == Stripes(a, Stripes(a, l, x), Rest(x) + y)
    ensures Rest(x + y) == Rest(Rest(x) + y)
    decreases |x|
  {
    if |x| >= 16 {
      assert (x + y)[16..] == x[16..] + y;
      StripeOfPrefix(a, l, x, x + y);
      StripesAppend(a, Stripe(a, l, x), x[16..], y);
    }
  }

  lemma StripeOfPrefix(a: Alu, l: Lanes, x: seq<byte>, m: seq<byte>)
    requires |x| >= 16 && x <= m
    ensures Stripe(a, l, x) == Stripe(a, l, m)
  {
    assert m[0..4] == x[0..4] && m[4..8] == x[4..8] && m[8..12] == x[8..12] && m[12..16] == x[12..16];
  }

  // ----- the loops that the one-shot and the streaming functions share

  /** The four rounds of the loops over stripes, on bytes `p` to `p + 16` of `input`. */
  method Rounds(a: Alu, l: Lanes, input: array<byte>, p: nat) returns (r: Lanes)
    requires p + 16 <= input.Length
    ensures forall m | input[p..p + 16] <= m :: r == Stripe(a, l, m)
  {
    r := Lanes(Round(a, l.v1, a.load(input[p..p + 4])), Round(a, l.v2, a.load(input[p + 4..p + 8])),
      Round(a, l.v3, a.load(input[p + 8..p + 12])), Round(a, l.v4, a.load(input[p + 12..p + 16])));
    ghost var m := input[p..p + 16];
    assert forall i | 0 <= i < 16 :: m[i] == input[p + i];
    assert m[0..4] == input[p..p + 4] && m[4..8] == input[p + 4..p + 8];
    assert m[8..12] == input[p + 8..p + 12] && m[12..16] == input[p + 12..p + 16];
    forall m' | m <= m' ensures r == Stripe(a, l, m') {
      StripeOfPrefix(a, l, m, m');
    }
  }

  lemma FirstStripe(input: array<byte>, p: nat, len: nat)
    requires p + 16 <= len <= input.Length
    ensures input[p..p + 16] <= input[p..len] && input[p..len][16..] == input[p + 16..len]
  {
  }

  /** The loop over stripes in xxh32 and xxh32_update, from byte `from` up to `len`. */
  method ConsumeStripes(a: Alu, l0: Lanes, input: array<byte>, from: nat, len: nat)
    returns (l: Lanes, p: nat)
    requires from <= len <= input.Length
    ensures l == Stripes(a, l0, input[from..len])
    ensures from <= p <= len && input[p..len] == Rest(input[from..len])
  {
    p, l := from, l0;
    while p + 16 <= len
      invariant from <= p <= len
      invariant Stripes(a, l, input[p..len]) == Stripes(a, l0, input[from..len])
      invariant Rest(input[p..len]) == Rest(input[from..len])
    {
      FirstStripe(input, p, len);
      l := Rounds(a, l, input, p);
      p := p + 16;
    }
  }

  /** The end of xxh32 and xxh32_digest: what is left of the message, then the final mix. */
  method Finish(a: Alu, h: u32, input: array<byte>, from: nat, end: nat) returns (h32: u32)
    requires from <= end <= input.Length
    ensures h32 == Avalanche(a, Tail(a, h, input[from..end]))
  {
    var p := from;
    h32 := h;
    while p + 4 <= end
      invariant from <= p <= end
      invariant Tail(a, h32, input[p..end]) == Tail(a, h, input[from..end])
    {
      h32 := a.add(h32, a.mul(a.load(input[p..p + 4]), PRIME32_3));
      h32 := a.mul(a.rotl(h32, 17), PRIME32_4);
      Slices(input, p, p + 4, end);
      p := p + 4;
    }
    while p < end
      invariant from <= p <= end && end < p + 4
      invariant Tail(a, h32, input[p..end]) == Tail(a, h, input[from..end])
    {
      h32 := a.add(h32, a.mul(input[p], PRIME32_5));
      h32 := a.mul(a.rotl(h32, 11), PRIME32_1);
      Slices(input, p, p + 1, end);
      p := p + 1;
    }
    h32 := a.xor(h32, a.shr(h32, 15));
    h32 := a.mul(h32, PRIME32_2);
    h32 := a.xor(h32, a.shr(h32, 13));
    h32 := a.mul(h32, PRIME32_3);
    h32 := a.xor(h32, a.shr(h32, 16));
  }

  /** xxh32: the hash of the first `len` bytes of `input` in one call. */
  method Xxh32(a: Alu, input: array<byte>, len: nat, seed: u32) returns (h32: u32)
    requires len <= input.Length
    ensures h32 == Hash(a, input[..len], seed)
  {
    var p := 0;
    assert input[0..len] == input[..len];
    if len >= 16 {
      var v1 := a.add(a.add(seed, PRIME32_1), PRIME32_2);
      var v2 := a.add(seed, PRIME32_2);
      var v3 := seed;
      var v4 := a.sub(seed, PRIME32_1);
      var l;
      l, p := ConsumeStripes(a, Lanes(v1, v2, v3, v4), input, p, len);
      h32 := a.add(a.add(a.add(a.rotl(l.v1, 1), a.rotl(l.v2, 7)), a.rotl(l.v3, 12)), a.rotl(l.v4, 18));
    } else {
      h32 := a.add(seed, PRIME32_5);
    }
    h32 := a.add(h32, Wrap(len));
    h32 := Finish(a, h32, input, p, len);
  }

  // ----- the streaming state

  const EINVAL := 22

  /** The wrapping 32-bit length and the flag together know whether 16 bytes have been seen. */
  lemma LengthStep(n: nat, len: nat)
    ensures Wrap(Wrap(n) + Wrap(len)) == Wrap(n + len)
    ensures n >= 16 || len >= 16 || Wrap(n + len) >= 16 <==> n + len >= 16
  {
    var m := 0x1_0000_0000;
    assert n + len == Wrap(n) + Wrap(len) + (n / m + len / m) * m;
  }

  class Xxh32State {
    const alu: Alu
    var totalLen32: u32
    var largeLen: bool
    var v1: u32
    var v2: u32
    var v3: u32
    var v4: u32
    const mem32: array<byte>
    var memsize: nat
    ghost var seed: u32
    ghost var msg: seq<byte>  // everything hashed since the last reset

    /** The accumulators are `l`, the bytes put by are `rest`, and `n` bytes have been counted. */
    ghost predicate Holds(l: Lanes, rest: seq<byte>, n: nat)
      reads this, mem32
    {
      && mem32.Length == 16
      && Lanes(v1, v2, v3, v4) == l
      && memsize == |rest| < 16 && mem32[..memsize] == rest
      && totalLen32 == Wrap(n)
      && (largeLen <==> n >= 16)
    }

    /** The state is that of a hash of `msg` from `seed`. */
    ghost predicate Valid()
      reads this, mem32
    {
      Holds(Stripes(alu, Start(alu, seed), msg), Rest(msg), |msg|)
    }

    /** A state of its own, not yet reset. */
    constructor (alu: Alu)
      ensures this.alu == alu && fresh(mem32) && mem32.Length == 16
    {
      this.alu := alu;
      mem32 := new byte[16];
    }

    /** xxh32_reset */
    method Reset(seed: u32)
      requires mem32.Length == 16
      modifies this, mem32
      ensures Valid() && this.seed == seed && msg == []
    {
      totalLen32, largeLen, memsize := 0, false, 0;
      forall i | 0 <= i < 16 {
        mem32[i] := 0;
      }
      v1 := alu.add(alu.add(seed, PRIME32_1), PRIME32_2);
      v2 := alu.add(seed, PRIME32_2);
      v3 := seed;
      v4 := alu.sub(seed, PRIME32_1);
      this.seed, msg := seed, [];
    }

    /** "Some data left from previous update": the buffer is filled up and consumed as one stripe. */
    method TakeBuffer(input: array<byte>) returns (p: nat)
      requires mem32.Length == 16 && input != mem32 && 0 < memsize < 16 <= memsize + input.Length
      modifies this`v1, this`v2, this`v3, this`v4, this`memsize, mem32
      ensures p == 16 - old(memsize) && memsize == 0
      ensures forall m | old(mem32[..memsize]) + input[..p] <= m ::
        Lanes(v1, v2, v3, v4) == Stripe(alu, old(Lanes(v1, v2, v3, v4)), m)
    {
      Copy(mem32, memsize, input, 0, 16 - memsize);
      p := 16 - memsize;
      assert mem32[0..16] == old(mem32[..memsize]) + input[..p];
      var l := Rounds(alu, Lanes(v1, v2, v3, v4), mem32, 0);
      v1, v2, v3, v4 := l.v1, l.v2, l.v3, l.v4;
      memsize := 0;
    }

    /** What is left is put by in the empty buffer. */
    method PutBy(input: array<byte>, p: nat, len: nat)
      requires mem32.Length == 16 && input != mem32 && p <= len <= input.Length && len - p < 16 && memsize == 0
      modifies this`memsize, mem32
      ensures memsize == len - p && mem32[..memsize] == input[p..len]
    {
      if p < len {
        Copy(mem32, 0, input, p, len - p);
        memsize := len - p;
      }
    }

    /** The loop over the stripes of `input` from byte `p` on, and the bytes put by for the next call. */
    method TakeInput(input: array<byte>, from: nat, len: nat, ghost m: seq<byte>)
      requires mem32.Length == 16 && input != mem32 && from <= len <= input.Length && memsize == 0
      requires m == input[from..len]
      modifies this`v1, this`v2, this`v3, this`v4, this`memsize, mem32
      ensures Lanes(v1, v2, v3, v4) == Stripes(alu, old(Lanes(v1, v2, v3, v4)), m)
      ensures memsize == |Rest(m)| && mem32[..memsize] == Rest(m)
    {
      var p := from;
      if p + 16 <= len {
        var l;
        l, p := ConsumeStripes(alu, Lanes(v1, v2, v3, v4), input, p, len);
        v1, v2, v3, v4 := l.v1, l.v2, l.v3, l.v4;
      }
      PutBy(input, p, len);
    }

    /** The part of xxh32_update that runs once there is enough for a stripe. */
    method TakeStripes(input: array<byte>, len: nat, ghost m: seq<byte>)
      requires mem32.Length == 16 && input != mem32 && len <= input.Length
      requires memsize < 16 <= memsize + len && m == mem32[..memsize] + input[..len]
      modifies this`v1, this`v2, this`v3, this`v4, this`memsize, mem32
      ensures Lanes(v1, v2, v3, v4) == Stripes(alu, old(Lanes(v1, v2, v3, v4)), m)
      ensures memsize == |Rest(m)| && mem32[..memsize] == Rest(m)
    {
      var p := 0;
      ghost var rest := m;
      if memsize > 0 {
        rest := m[16..];
        assert mem32[..memsize] + input[..16 - memsize] <= m && rest == input[16 - memsize..len];
        p := TakeBuffer(input);
      }
      TakeInput(input, p, len, rest);
    }

    /** The length so far, modulo 2^32, and whether it has ever reached 16. */
    method CountLength(len: nat, ghost n: nat)
      requires totalLen32 == Wrap(n) && (largeLen <==> n >= 16)
      modifies this`totalLen32, this`largeLen
      ensures totalLen32 == Wrap(n + len) && (largeLen <==> n + len >= 16)
    {
      LengthStep(n, len);
      totalLen32 := Wrap(totalLen32 + Wrap(len));
      largeLen := largeLen || len >= 16 || totalLen32 >= 16;
    }

    /** "Fill in tmp buffer": not enough for a stripe yet. */
    method Keep(input: array<byte>, len: nat, ghost m: seq<byte>)
      requires mem32.Length == 16 && input != mem32 && len <= input.Length
      requires memsize + len < 16 && m == mem32[..memsize] + input[..len]
      modifies this`memsize, mem32
      ensures memsize == |m| && mem32[..memsize] == m
    {
      Copy(mem32, memsize, input, 0, len);
      memsize := memsize + len;
    }

    /** xxh32_update once the input is known not to be null. */
    method Absorb(input: array<byte>, len: nat, ghost l: Lanes, ghost rest: seq<byte>, ghost m: seq<byte>, ghost n: nat,
                  ghost l': Lanes, ghost rest': seq<byte>)
      requires Holds(l, rest, n) && input != mem32 && len <= input.Length && m == rest + input[..len]
      requires l' == Stripes(alu, l, m) && rest' == Rest(m)
      modifies this`v1, this`v2, this`v3, this`v4, this`memsize, this`totalLen32, this`largeLen, mem32
      ensures Holds(l', rest', n + len)
    {
      CountLength(len, n);
      if memsize + len < 16 {
        Keep(input, len, m);
        return;
      }
      TakeStripes(input, len, m);
    }

    method Extend(input: array<byte>, len: nat)
      requires Valid() && input != mem32 && len <= input.Length
      modifies this`v1, this`v2, this`v3, this`v4, this`memsize, this`totalLen32, this`largeLen, this`msg, mem32
      ensures Valid() && msg == old(msg + input[..len])
    {
      ghost var was, data := msg, input[..len];
      StripesAppend(alu, Start(alu, seed), was, data);
      msg := was + data;
      Absorb(input, len, Stripes(alu, Start(alu, seed), was), Rest(was), Rest(was) + data, |was|,
             Stripes(alu, Start(alu, seed), msg), Rest(msg));
      assert |msg| == |was| + len;
    }

    /** xxh32_update: `msg` grows by the first `len` bytes of `input`. */
    method Update(input: array?<byte>, len: nat) returns (rc: int)
      requires Valid()
      requires input != null ==> input != mem32 && len <= input.Length
      modifies this, mem32
      ensures Valid() && seed == old(seed)
      ensures input == null ==> rc == -EINVAL && msg == old(msg)
      ensures input != null ==> rc == 0 && msg == old(msg) + old(input[..len])
    {
      if input == null {
        return -EINVAL;
      }
      Extend(input, len);
      return 0;
    }

    /** xxh32_digest: the hash of everything so far; the state is left as it is. */
    method Digest() returns (h32: u32)
      requires Valid()
      ensures h32 == Hash(alu, msg, seed)
    {
      if largeLen {
        h32 := alu.add(alu.add(alu.add(alu.rotl(v1, 1), alu.rotl(v2, 7)), alu.rotl(v3, 12)), alu.rotl(v4, 18));
      } else {
        h32 := alu.add(v3, PRIME32_5);
      }
      h32 := alu.add(h32, totalLen32);
      assert mem32[0..memsize] == mem32[..memsize];
      h32 := Finish(alu, h32, mem32, 0, memsize);
    }
  }

  /** A new digest is taken after one more chunk has been hashed. */
  method Feed(state: Xxh32State, chunk: seq<byte>) returns (h32: u32)
    requires state.Valid()
    modifies state, state.mem32
    ensures state.Valid() && state.seed == old(state.seed) && state.msg == old(state.msg) + chunk
    ensures h32 == Hash(state.alu, state.msg, state.seed)
  {
    var input := new byte[|chunk|](i requires 0 <= i < |chunk| => chunk[i]);
    assert input[..|chunk|] == chunk;
    var _ := state.Update(input, |chunk|);
    h32 := state.Digest();
  }

  /**
   Streaming equals one-shot: for every way to cut a message into chunks, empty ones included,
   every digest taken on the way is the hash of the message so far.
   */
  method HashChunks(alu: Alu, chunks: seq<seq<byte>>, seed: u32) returns (digests: seq<u32>)
    ensures |digests| == |chunks| + 1
    ensures forall i | 0 <= i <= |chunks| :: digests[i] == Hash(alu, Concat(chunks[..i]), seed)
  {
    var state := new Xxh32State(alu);
    state.Reset(seed);
    var h := state.Digest();
    digests := [h];
    for n := 0 to |chunks|
      invariant state.Valid() && state.seed == seed && fresh(state) && fresh(state.mem32) && state.alu == alu
      invariant state.msg == Concat(chunks[..n])
      invariant |digests| == n + 1
      invariant forall i | 0 <= i <= n :: digests[i] == Hash(alu, Concat(chunks[..i]), seed)
    {
      h := Feed(state, chunks[n]);
      ConcatNext(chunks, n);
      digests := digests + [h];
    }
  }
}
