/**
 * Byte orders and the byte layout of 16-, 32- and 64-bit unsigned words:
 * what `BitConverter.GetBytes` produces and `BitConverter.ToUInt16/32/64`
 * consume, once the platform's byte order is fixed.
 */
module Words {
  import opened Bytes

  datatype ByteOrder = LittleEndian | BigEndian

  function Opposite(o: ByteOrder): (r: ByteOrder)
    ensures r != o
  {
    match o
    case LittleEndian => BigEndian
    case BigEndian => LittleEndian
  }

  /** The order BitConverter uses on a platform whose IsLittleEndian is `littleEndian`. */
  function PlatformOrder(littleEndian: bool): (o: ByteOrder)
    ensures o == LittleEndian <==> littleEndian
  {
    if littleEndian then LittleEndian else BigEndian
  }

  // ---------------------------------------------------------------- 16 bits

  /** The two bytes of x, least-significant first: byte i is bits 8i to 8i+7. */
  function LeBytes16(x: bv16): seq<bv8>
  {
    [(x & 0xFF) as bv8, (x >> 8) as bv8]
  }

  /** The two bytes of x, most-significant first. */
  function BeBytes16(x: bv16): seq<bv8>
  {
    [(x >> 8) as bv8, (x & 0xFF) as bv8]
  }

  function FromLeBytes16(s: seq<bv8>): bv16
    requires |s| == 2
  {
    s[0] as bv16 | (s[1] as bv16 << 8)
  }

  lemma FromLeBytes16Inverse(x: bv16)
    ensures FromLeBytes16(LeBytes16(x)) == x
  {
  }

  lemma LeBytes16Inverse(s: seq<bv8>)
    requires |s| == 2
    ensures LeBytes16(FromLeBytes16(s)) == s
  {
  }

  lemma Compose16Value(a: bv8, b: bv8)
    ensures (a as bv16 | (b as bv16 << 8)) as nat == a as nat + 0x100 * b as nat
  {
  }

  /** Assembling two bytes into a word keeps their little-endian value. */
  lemma FromLeBytes16Value(s: seq<bv8>)
    requires |s| == 2
    ensures FromLeBytes16(s) as nat == NatOfLeBytes(s)
  {
    NatOfLeBytes2(s);
    Compose16Value(s[0], s[1]);
  }

  /** The little-endian layout of x is least-significant byte first: its bytes read back as x. */
  lemma LeBytes16Value(x: bv16)
    ensures NatOfLeBytes(LeBytes16(x)) == x as nat
  {
    FromLeBytes16Inverse(x);
    FromLeBytes16Value(LeBytes16(x));
  }

  /** Most-significant-first is least-significant-first reversed. */
  lemma BeBytes16Reverse(x: bv16)
    ensures BeBytes16(x) == Reverse(LeBytes16(x))
  {
    Reverse2(LeBytes16(x));
  }

  lemma LeBytes16Facts(x: bv16, s: seq<bv8>)
    requires |s| == 2
    ensures FromLeBytes16(LeBytes16(x)) == x
    ensures LeBytes16(FromLeBytes16(s)) == s
    ensures BeBytes16(x) == Reverse(LeBytes16(x))
  {
    FromLeBytes16Inverse(x);
    LeBytes16Inverse(s);
    BeBytes16Reverse(x);
  }

  /** The two bytes of x in order o. */
  function EncodeUInt16(o: ByteOrder, x: bv16): (s: seq<bv8>)
    ensures |s| == 2
  {
    match o
    case LittleEndian => LeBytes16(x)
    case BigEndian => BeBytes16(x)
  }

  /**
   * GetBytes at order o lays x out least-significant byte first when o is
   * little-endian and most-significant byte first when it is big-endian:
   * read in that order, the bytes have the value of x.
   */
  lemma EncodeUInt16Value(o: ByteOrder, x: bv16)
    ensures NatOfLeBytes(match o case LittleEndian => EncodeUInt16(o, x) case BigEndian => Reverse(EncodeUInt16(o, x))) == x as nat
  {
    LeBytes16Value(x);
    BeBytes16Reverse(x);
    ReverseReverse(LeBytes16(x));
  }

  /** The word whose two bytes in order o are s. */
  function DecodeUInt16(o: ByteOrder, s: seq<bv8>): (x: bv16)
    requires |s| == 2
    ensures EncodeUInt16(o, x) == s
  {
    match o
    case LittleEndian =>
      LeBytes16Facts(0, s);
      FromLeBytes16(s)
    case BigEndian =>
      var x := FromLeBytes16(Reverse(s));
      LeBytes16Facts(x, Reverse(s));
      ReverseReverse(s);
      x
  }

  /** Decoding the bytes of x in the order they were encoded gives back x. */
  lemma DecodeEncodeUInt16(o: ByteOrder, x: bv16)
    ensures DecodeUInt16(o, EncodeUInt16(o, x)) == x
  {
    LeBytes16Facts(x, LeBytes16(x));
    ReverseReverse(LeBytes16(x));
  }

  /** The two orders lay out the same word back to front. */
  lemma EncodeUInt16Opposite(o: ByteOrder, x: bv16)
    ensures EncodeUInt16(Opposite(o), x) == Reverse(EncodeUInt16(o, x))
  {
    LeBytes16Facts(x, LeBytes16(x));
    ReverseReverse(LeBytes16(x));
  }

  // ---------------------------------------------------------------- 32 bits

  /** The four bytes of x, least-significant first: byte i is bits 8i to 8i+7. */
  function LeBytes32(x: bv32): seq<bv8>
  {
    [(x & 0xFF) as bv8, ((x >> 8) & 0xFF) as bv8, ((x >> 16) & 0xFF) as bv8, (x >> 24) as bv8]
  }

  /** The four bytes of x, most-significant first. */
  function BeBytes32(x: bv32): seq<bv8>
  {
    [(x >> 24) as bv8, ((x >> 16) & 0xFF) as bv8, ((x >> 8) & 0xFF) as bv8, (x & 0xFF) as bv8]
  }

  function FromLeBytes32(s: seq<bv8>): bv32
    requires |s| == 4
  {
    s[0] as bv32 | (s[1] as bv32 << 8) | (s[2] as bv32 << 16) | (s[3] as bv32 << 24)
  }

  lemma FromLeBytes32Inverse(x: bv32)
    ensures FromLeBytes32(LeBytes32(x)) == x
  {
  }

  lemma LeBytes32Inverse(s: seq<bv8>)
    requires |s| == 4
    ensures LeBytes32(FromLeBytes32(s)) == s
  {
  }

  lemma Compose32Value(a: bv8, b: bv8, c: bv8, d: bv8)
    ensures (a as bv32 | (b as bv32 << 8) | (c as bv32 << 16) | (d as bv32 << 24)) as nat
         == a as nat + 0x100 * b as nat + 0x1_0000 * c as nat + 0x100_0000 * d as nat
  {
  }

  /** Assembling four bytes into a word keeps their little-endian value. */
  lemma FromLeBytes32Value(s: seq<bv8>)
    requires |s| == 4
    ensures FromLeBytes32(s) as nat == NatOfLeBytes(s)
  {
    NatOfLeBytes4(s);
    Compose32Value(s[0], s[1], s[2], s[3]);
  }

  /** The little-endian layout of x is least-significant byte first: its bytes read back as x. */
  lemma LeBytes32Value(x: bv32)
    ensures NatOfLeBytes(LeBytes32(x)) == x as nat
  {
    FromLeBytes32Inverse(x);
    FromLeBytes32Value(LeBytes32(x));
  }

  /** Most-significant-first is least-significant-first reversed. */
  lemma BeBytes32Reverse(x: bv32)
    ensures BeBytes32(x) == Reverse(LeBytes32(x))
  {
    Reverse4(LeBytes32(x));
  }

  lemma LeBytes32Facts(x: bv32, s: seq<bv8>)
    requires |s| == 4
    ensures FromLeBytes32(LeBytes32(x)) == x
    ensures LeBytes32(FromLeBytes32(s)) == s
    ensures BeBytes32(x) == Reverse(LeBytes32(x))
  {
    FromLeBytes32Inverse(x);
    LeBytes32Inverse(s);
    BeBytes32Reverse(x);
  }

  /** The four bytes of x in order o. */
  function EncodeUInt32(o: ByteOrder, x: bv32): (s: seq<bv8>)
    ensures |s| == 4
  {
    match o
    case LittleEndian => LeBytes32(x)
    case BigEndian => BeBytes32(x)
  }

  /**
   * GetBytes at order o lays x out least-significant byte first when o is
   * little-endian and most-significant byte first when it is big-endian:
   * read in that order, the bytes have the value of x.
   */
  lemma EncodeUInt32Value(o: ByteOrder, x: bv32)
    ensures NatOfLeBytes(match o case LittleEndian => EncodeUInt32(o, x) case BigEndian => Reverse(EncodeUInt32(o, x))) == x as nat
  {
    LeBytes32Value(x);
    BeBytes32Reverse(x);
    ReverseReverse(LeBytes32(x));
  }

  /** The word whose four bytes in order o are s. */
  function DecodeUInt32(o: ByteOrder, s: seq<bv8>): (x: bv32)
    requires |s| == 4
    ensures EncodeUInt32(o, x) == s
  {
    match o
    case LittleEndian =>
      LeBytes32Facts(0, s);
      FromLeBytes32(s)
    case BigEndian =>
      var x := FromLeBytes32(Reverse(s));
      LeBytes32Facts(x, Reverse(s));
      ReverseReverse(s);
      x
  }

  /** Decoding the bytes of x in the order they were encoded gives back x. */
  lemma DecodeEncodeUInt32(o: ByteOrder, x: bv32)
    ensures DecodeUInt32(o, EncodeUInt32(o, x)) == x
  {
    LeBytes32Facts(x, LeBytes32(x));
    ReverseReverse(LeBytes32(x));
  }

  /** The two orders lay out the same word back to front. */
  lemma EncodeUInt32Opposite(o: ByteOrder, x: bv32)
    ensures EncodeUInt32(Opposite(o), x) == Reverse(EncodeUInt32(o, x))
  {
    LeBytes32Facts(x, LeBytes32(x));
    ReverseReverse(LeBytes32(x));
  }

  // ---------------------------------------------------------------- 64 bits

  /** The eight bytes of x, least-significant first: byte i is bits 8i to 8i+7. */
  function LeBytes64(x: bv64): seq<bv8>
  {
    [(x & 0xFF) as bv8, ((x >> 8) & 0xFF) as bv8, ((x >> 16) & 0xFF) as bv8, ((x >> 24) & 0xFF) as bv8,
     ((x >> 32) & 0xFF) as bv8, ((x >> 40) & 0xFF) as bv8, ((x >> 48) & 0xFF) as bv8, (x >> 56) as bv8]
  }

  /** The eight bytes of x, most-significant first. */
  function BeBytes64(x: bv64): seq<bv8>
  {
    [(x >> 56) as bv8, ((x >> 48) & 0xFF) as bv8, ((x >> 40) & 0xFF) as bv8, ((x >> 32) & 0xFF) as bv8,
     ((x >> 24) & 0xFF) as bv8, ((x >> 16) & 0xFF) as bv8, ((x >> 8) & 0xFF) as bv8, (x & 0xFF) as bv8]
  }

  function FromLeBytes64(s: seq<bv8>): bv64
    requires |s| == 8
  {
    s[0] as bv64 | (s[1] as bv64 << 8) | (s[2] as bv64 << 16) | (s[3] as bv64 << 24)
    | (s[4] as bv64 << 32) | (s[5] as bv64 << 40) | (s[6] as bv64 << 48) | (s[7] as bv64 << 56)
  }

  lemma FromLeBytes64Inverse(x: bv64)
    ensures FromLeBytes64(LeBytes64(x)) == x
  {
  }

  lemma LeBytes64Inverse(s: seq<bv8>)
    requires |s| == 8
    ensures LeBytes64(FromLeBytes64(s)) == s
  {
  }

  lemma Compose64Value(b0: bv8, b1: bv8, b2: bv8, b3: bv8, b4: bv8, b5: bv8, b6: bv8, b7: bv8)
    ensures (b0 as bv64 | (b1 as bv64 << 8) | (b2 as bv64 << 16) | (b3 as bv64 << 24)
             | (b4 as bv64 << 32) | (b5 as bv64 << 40) | (b6 as bv64 << 48) | (b7 as bv64 << 56)) as nat
         == b0 as nat + 0x100 * b1 as nat + 0x1_0000 * b2 as nat + 0x100_0000 * b3 as nat
            + 0x1_0000_0000 * b4 as nat + 0x100_0000_0000 * b5 as nat
            + 0x1_0000_0000_0000 * b6 as nat + 0x100_0000_0000_0000 * b7 as nat
  {
  }

  /** Assembling eight bytes into a word keeps their little-endian value. */
  lemma FromLeBytes64Value(s: seq<bv8>)
    requires |s| == 8
    ensures FromLeBytes64(s) as nat == NatOfLeBytes(s)
  {
    NatOfLeBytes8(s);
    Compose64Value(s[0], s[1], s[2], s[3], s[4], s[5], s[6], s[7]);
  }

  /** The little-endian layout of x is least-significant byte first: its bytes read back as x. */
  lemma LeBytes64Value(x: bv64)
    ensures NatOfLeBytes(LeBytes64(x)) == x as nat
  {
    FromLeBytes64Inverse(x);
    FromLeBytes64Value(LeBytes64(x));
  }

  /** Most-significant-first is least-significant-first reversed. */
  lemma BeBytes64Reverse(x: bv64)
    ensures BeBytes64(x) == Reverse(LeBytes64(x))
  {
    Reverse8(LeBytes64(x));
  }

  lemma LeBytes64Facts(x: bv64, s: seq<bv8>)
    requires |s| == 8
    ensures FromLeBytes64(LeBytes64(x)) == x
    ensures LeBytes64(FromLeBytes64(s)) == s
    ensures BeBytes64(x) == Reverse(LeBytes64(x))
  {
    FromLeBytes64Inverse(x);
    LeBytes64Inverse(s);
    BeBytes64Reverse(x);
  }

  /** The eight bytes of x in order o. */
  function EncodeUInt64(o: ByteOrder, x: bv64): (s: seq<bv8>)
    ensures |s| == 8
  {
    match o
    case LittleEndian => LeBytes64(x)
    case BigEndian => BeBytes64(x)
  }

  /**
   * GetBytes at order o lays x out least-significant byte first when o is
   * little-endian and most-significant byte first when it is big-endian:
   * read in that order, the bytes have the value of x.
   */
  lemma EncodeUInt64Value(o: ByteOrder, x: bv64)
    ensures NatOfLeBytes(match o case LittleEndian => EncodeUInt64(o, x) case BigEndian => Reverse(EncodeUInt64(o, x))) == x as nat
  {
    LeBytes64Value(x);
    BeBytes64Reverse(x);
    ReverseReverse(LeBytes64(x));
  }

  /** The word whose eight bytes in order o are s. */
  function DecodeUInt64(o: ByteOrder, s: seq<bv8>): (x: bv64)
    requires |s| == 8
    ensures EncodeUInt64(o, x) == s
  {
    match o
    case LittleEndian =>
      LeBytes64Facts(0, s);
      FromLeBytes64(s)
    case BigEndian =>
      var x := FromLeBytes64(Reverse(s));
      LeBytes64Facts(x, Reverse(s));
      ReverseReverse(s);
      x
  }

  /** Decoding the bytes of x in the order they were encoded gives back x. */
  lemma DecodeEncodeUInt64(o: ByteOrder, x: bv64)
    ensures DecodeUInt64(o, EncodeUInt64(o, x)) == x
  {
    LeBytes64Facts(x, LeBytes64(x));
    ReverseReverse(LeBytes64(x));
  }

  /** The two orders lay out the same word back to front. */
  lemma EncodeUInt64Opposite(o: ByteOrder, x: bv64)
    ensures EncodeUInt64(Opposite(o), x) == Reverse(EncodeUInt64(o, x))
  {
    LeBytes64Facts(x, LeBytes64(x));
    ReverseReverse(LeBytes64(x));
  }
}
