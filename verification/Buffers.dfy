/** Buffers of bytes: copying them, and reading numbers from them. */
module Buffers {
  import opened Binary

  type byte = x: int | 0 <= x < 256

  /** memcpy(to + at, from + p, n) */
  method Copy(to: array<byte>, at: nat, from: array<byte>, p: nat, n: nat)
    requires to != from && at + n <= to.Length && p + n <= from.Length
    modifies to
    ensures to[..at + n] == old(to[..at]) + from[p..p + n]
    ensures to[at + n..] == old(to[at + n..])
  {
    forall i | 0 <= i < n {
      to[at + i] := from[p + i];
    }
  }

  lemma Slices(a: array<byte>, p: nat, q: nat, end: nat)
    requires p <= q <= end <= a.Length
    ensures a[p..end][..q - p] == a[p..q] && a[p..end][q - p..] == a[q..end]
    ensures p < end ==> a[p..end][0] == a[p]
  {
  }

  /** The number that the bytes of `m` write, the lowest byte first. */
  function LittleEndian(m: seq<byte>): nat {
    if m == [] then 0 else m[0] as int + 0x100 * LittleEndian(m[1..])
  }

  lemma {:induction false} LittleEndianBound(m: seq<byte>)
    ensures LittleEndian(m) < Pow2(8 * |m|)
  {
    if m != [] {
      LittleEndianBound(m[1..]);
      Pow2Add(8, 8 * |m[1..]|);
      assert Pow2(8) == 0x100;
    }
  }

  /** The number that the first four bytes of `m` write. */
  function FourBytes(m: seq<byte>): nat
    requires |m| >= 4
  {
    m[0] as int + 0x100 * m[1] as int + 0x1_0000 * m[2] as int + 0x100_0000 * m[3] as int
  }

  /** The bytes 0, 1, 2 and so on. */
  function CountingBytes(n: nat): seq<byte>
    requires n <= 256
  {
    seq(n, i requires 0 <= i < n => i)
  }

  lemma LittleEndianStep(m: seq<byte>)
    requires |m| >= 4
    ensures LittleEndian(m) == FourBytes(m) + 0x1_0000_0000 * LittleEndian(m[4..])
  {
    var m1, m2, m3 := m[1..], m[2..], m[3..];
    assert m1[1..] == m2 && m2[1..] == m3 && m3[1..] == m[4..];
    assert LittleEndian(m3) == m3[0] as int + 0x100 * LittleEndian(m[4..]);
    assert LittleEndian(m2) == m2[0] as int + 0x100 * LittleEndian(m3);
    assert LittleEndian(m1) == m1[0] as int + 0x100 * LittleEndian(m2);
  }

  /** No two buffers of the same length hold the same number. */
  lemma {:induction false} LittleEndianInjective(m: seq<byte>, n: seq<byte>)
    requires |m| == |n| && LittleEndian(m) == LittleEndian(n)
    ensures m == n
  {
    if m != [] {
      LittleEndianInjective(m[1..], n[1..]);
      assert m == [m[0]] + m[1..] && n == [n[0]] + n[1..];
    }
  }
}
