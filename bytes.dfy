/**
 * Byte strings as numbers: the unsigned value of a little-endian byte string
 * and the two's-complement byte string of a signed value. The C# casts
 * `unchecked((ushort)x)`, `unchecked((int)u)` and friends reinterpret such
 * byte strings, so the numeric types are defined on top of this module.
 */
module Bytes {

  /** The sequence `s` back to front. */
  function Reverse<T>(s: seq<T>): (r: seq<T>)
    ensures |r| == |s|
    ensures forall i :: 0 <= i < |s| ==> r[i] == s[|s| - 1 - i]
  {
    seq(|s|, i requires 0 <= i < |s| => s[|s| - 1 - i])
  }

  lemma ReverseReverse<T>(s: seq<T>)
    ensures Reverse(Reverse(s)) == s
  {
  }

  lemma ReverseAppend<T>(a: seq<T>, b: seq<T>)
    ensures Reverse(a + b) == Reverse(b) + Reverse(a)
  {
  }

  /** Reverse spelled out for the widths of the machine words. */
  lemma Reverse2<T>(s: seq<T>)
    requires |s| == 2
    ensures Reverse(s) == [s[1], s[0]]
  {
  }

  lemma Reverse4<T>(s: seq<T>)
    requires |s| == 4
    ensures Reverse(s) == [s[3], s[2], s[1], s[0]]
  {
  }

  lemma Reverse8<T>(s: seq<T>)
    requires |s| == 8
    ensures Reverse(s) == [s[7], s[6], s[5], s[4], s[3], s[2], s[1], s[0]]
  {
  }

  /** 256 to the power k: the number of distinct k-byte strings. */
  function Pow256(k: nat): (p: nat)
    ensures p >= 1
  {
    if k == 0 then 1 else 256 * Pow256(k - 1)
  }

  lemma Pow256Values()
    ensures Pow256(1) == 0x100 && Pow256(2) == 0x1_0000
    ensures Pow256(4) == 0x1_0000_0000 && Pow256(8) == 0x1_0000_0000_0000_0000
  {
  }

  /** The unsigned value of a byte string read least-significant byte first. */
  function NatOfLeBytes(s: seq<bv8>): (n: nat)
    ensures n < Pow256(|s|)
  {
    if s == [] then 0 else s[0] as nat + 256 * NatOfLeBytes(s[1..])
  }

  /** The value of two, four and eight little-endian bytes, written out as a polynomial in 256. */
  lemma NatOfLeBytes2(s: seq<bv8>)
    requires |s| == 2
    ensures NatOfLeBytes(s) == s[0] as nat + 0x100 * s[1] as nat
  {
    assert s[1..][1..] == [];
  }

  lemma NatOfLeBytes4(s: seq<bv8>)
    requires |s| == 4
    ensures NatOfLeBytes(s) == s[0] as nat + 0x100 * s[1] as nat + 0x1_0000 * s[2] as nat + 0x100_0000 * s[3] as nat
  {
    assert s[3..][1..] == [];
    var n3 := NatOfLeBytes(s[3..]);
    assert s[2..][1..] == s[3..];
    var n2 := NatOfLeBytes(s[2..]);
    assert n2 == s[2] as nat + 0x100 * n3;
    assert s[1..][1..] == s[2..];
    var n1 := NatOfLeBytes(s[1..]);
    assert n1 == s[1] as nat + 0x100 * n2;
  }

  /** Horner's rule for eight digits in base 256, on plain integers. */
  lemma Horner8(d0: int, d1: int, d2: int, d3: int, d4: int, d5: int, d6: int, d7: int,
                n1: int, n2: int, n3: int, n4: int, n5: int, n6: int, n7: int)
    requires n7 == d7 && n6 == d6 + 0x100 * n7 && n5 == d5 + 0x100 * n6 && n4 == d4 + 0x100 * n5
    requires n3 == d3 + 0x100 * n4 && n2 == d2 + 0x100 * n3 && n1 == d1 + 0x100 * n2
    ensures d0 + 0x100 * n1 == d0 + 0x100 * d1 + 0x1_0000 * d2 + 0x100_0000 * d3
                               + 0x1_0000_0000 * d4 + 0x100_0000_0000 * d5
                               + 0x1_0000_0000_0000 * d6 + 0x100_0000_0000_0000 * d7
  {
  }

  lemma NatOfLeBytes8(s: seq<bv8>)
    requires |s| == 8
    ensures NatOfLeBytes(s) == s[0] as nat + 0x100 * s[1] as nat + 0x1_0000 * s[2] as nat + 0x100_0000 * s[3] as nat
                             + 0x1_0000_0000 * s[4] as nat + 0x100_0000_0000 * s[5] as nat
                             + 0x1_0000_0000_0000 * s[6] as nat + 0x100_0000_0000_0000 * s[7] as nat
  {
    assert s[7..][1..] == [];
    assert s[6..][1..] == s[7..];
    assert s[5..][1..] == s[6..];
    assert s[4..][1..] == s[5..];
    assert s[3..][1..] == s[4..];
    assert s[2..][1..] == s[3..];
    assert s[1..][1..] == s[2..];
    Horner8(s[0] as int, s[1] as int, s[2] as int, s[3] as int, s[4] as int, s[5] as int, s[6] as int, s[7] as int,
            NatOfLeBytes(s[1..]), NatOfLeBytes(s[2..]), NatOfLeBytes(s[3..]), NatOfLeBytes(s[4..]),
            NatOfLeBytes(s[5..]), NatOfLeBytes(s[6..]), NatOfLeBytes(s[7..]));
  }

  /**
   * The byte whose unsigned value is m. It is counted up from zero rather
   * than converted from the integer, which keeps the solver in bit-vector
   * arithmetic.
   */
  function ByteOf(m: nat): bv8
    requires m < 256
  {
    if m == 0 then 0 else ByteOf(m - 1) + 1
  }

  lemma {:induction false} ByteOfValue(m: nat)
    requires m < 256
    ensures ByteOf(m) as nat == m
  {
    if m > 0 {
      ByteOfValue(m - 1);
      var b := ByteOf(m - 1);
      assert (b + 1) as int == b as int + 1;
    }
  }

  lemma ByteOfValues()
    ensures forall m: nat :: m < 256 ==> ByteOf(m) as nat == m
  {
    forall m: nat | m < 256 {
      ByteOfValue(m);
    }
  }

  /** Every byte is the ByteOf its value. */
  lemma ByteOfByte(b: bv8)
    ensures ByteOf(b as nat) == b
  {
    ByteOfValue(b as nat);
  }

  /** The k-byte little-endian byte string of an unsigned value below 256^k. */
  function LeBytesOfNat(n: nat, k: nat): (s: seq<bv8>)
    requires n < Pow256(k)
    ensures |s| == k
  {
    if k == 0 then [] else [ByteOf(n % 256)] + LeBytesOfNat(n / 256, k - 1)
  }

  /** Writing a value as k bytes and reading them back gives the value. */
  lemma {:induction false} NatOfLeBytesOfNat(n: nat, k: nat)
    requires n < Pow256(k)
    ensures NatOfLeBytes(LeBytesOfNat(n, k)) == n
  {
    if k > 0 {
      NatOfLeBytesOfNat(n / 256, k - 1);
      ByteOfValue(n % 256);
      var s := LeBytesOfNat(n, k);
      assert s[0] == ByteOf(n % 256);
      assert s[1..] == LeBytesOfNat(n / 256, k - 1);
    }
  }

  /** Reading a byte string as a value and writing it back gives the byte string. */
  lemma {:induction false} LeBytesOfNatOfLeBytes(s: seq<bv8>)
    ensures LeBytesOfNat(NatOfLeBytes(s), |s|) == s
  {
    if s != [] {
      LeBytesOfNatOfLeBytes(s[1..]);
      var n := NatOfLeBytes(s);
      assert n % 256 == s[0] as nat && n / 256 == NatOfLeBytes(s[1..]);
      ByteOfByte(s[0]);
      assert LeBytesOfNat(n, |s|) == [s[0]] + LeBytesOfNat(NatOfLeBytes(s[1..]), |s| - 1);
    }
  }

  /** The signed range of k bytes is [-Half(k), Half(k)). */
  function Half(k: nat): nat
    requires k > 0
  {
    128 * Pow256(k - 1)
  }

  predicate InSignedRange(x: int, k: nat)
  {
    k > 0 && -(Half(k) as int) <= x < Half(k)
  }

  /** The k-byte two's-complement encoding of x, least-significant byte first. */
  function TwosComplementBytes(x: int, k: nat): (s: seq<bv8>)
    requires InSignedRange(x, k)
    ensures |s| == k
    ensures NatOfLeBytes(s) == if x < 0 then x + Pow256(k) else x
  {
    var u := if x < 0 then x + Pow256(k) else x;
    NatOfLeBytesOfNat(u, k);
    LeBytesOfNat(u, k)
  }

  /** The signed value of a non-empty two's-complement byte string. */
  function SignedOfBytes(s: seq<bv8>): (x: int)
    requires |s| > 0
    ensures InSignedRange(x, |s|)
    ensures TwosComplementBytes(x, |s|) == s
  {
    var u := NatOfLeBytes(s);
    LeBytesOfNatOfLeBytes(s);
    if u < Half(|s|) then u else u - Pow256(|s|)
  }

  /** Encoding a signed value and decoding it again gives the value. */
  lemma SignedOfTwosComplementBytes(x: int, k: nat)
    requires InSignedRange(x, k)
    ensures SignedOfBytes(TwosComplementBytes(x, k)) == x
  {
  }
}
