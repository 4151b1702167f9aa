/**
 * Byte-order swaps for every width. Each swap reverses the bytes of its
 * argument's bit pattern; swapping converts a value decoded in one byte
 * order into the value decoded in the other. The platform's byte order
 * (IsLittleEndian) is not a function here: it is the `littleEndian`
 * constant of each reader and writer.
 */
module ByteOrderUtility {
  import opened Bytes
  import opened Words
  import opened Numerics

  // ---------------------------------------------------------------- unsigned

  /** Swap(ushort): the low byte moves to the high position and the high byte to the low one. */
  function SwapUInt16(x: bv16): (r: bv16)
    ensures EncodeUInt16(LittleEndian, r) == Reverse(EncodeUInt16(LittleEndian, x))
  {
    var r := ((x & 0xff) << 8) | ((x >> 8) & 0xff);
    assert LeBytes16(r) == BeBytes16(x);
    BeBytes16Reverse(x);
    r
  }

  /** Swap(uint): the four masked terms are added, as the source does. */
  function SwapUInt32(x: bv32): (r: bv32)
    ensures EncodeUInt32(LittleEndian, r) == Reverse(EncodeUInt32(LittleEndian, x))
  {
    var r := ((x & 0x000000ff) << 24) + ((x & 0x0000ff00) << 8) + ((x & 0x00ff0000) >> 8) + ((x & 0xff000000) >> 24);
    assert LeBytes32(r) == BeBytes32(x);
    BeBytes32Reverse(x);
    r
  }

  /** The terms Swap(uint) adds share no bit, so the sum never carries and equals their bitwise or. */
  lemma SwapUInt32TermsDisjoint(x: bv32)
    ensures ((x & 0x000000ff) << 24) & ((x & 0x0000ff00) << 8) == 0
    ensures (((x & 0x000000ff) << 24) | ((x & 0x0000ff00) << 8)) & ((x & 0x00ff0000) >> 8) == 0
    ensures (((x & 0x000000ff) << 24) | ((x & 0x0000ff00) << 8) | ((x & 0x00ff0000) >> 8)) & ((x & 0xff000000) >> 24) == 0
    ensures SwapUInt32(x)
         == ((x & 0x000000ff) << 24) | ((x & 0x0000ff00) << 8) | ((x & 0x00ff0000) >> 8) | ((x & 0xff000000) >> 24)
  {
  }

  /** Swap(ulong): output byte i is input byte 7 - i. */
  function SwapUInt64(x: bv64): (r: bv64)
    ensures EncodeUInt64(LittleEndian, r) == Reverse(EncodeUInt64(LittleEndian, x))
  {
    var r :=
      (0x00000000000000FF & (x >> 56))
      | (0x000000000000FF00 & (x >> 40))
      | (0x0000000000FF0000 & (x >> 24))
      | (0x00000000FF000000 & (x >> 8))
      | (0x000000FF00000000 & (x << 8))
      | (0x0000FF0000000000 & (x << 24))
      | (0x00FF000000000000 & (x << 40))
      | (0xFF00000000000000 & (x << 56));
    assert LeBytes64(r) == BeBytes64(x);
    BeBytes64Reverse(x);
    r
  }

  lemma SwapUInt16Involution(x: bv16)
    ensures SwapUInt16(SwapUInt16(x)) == x
  {
  }

  /** Swapping a word exchanges its byte layouts: x in order o reads as Swap(x) in the opposite order. */
  lemma SwapUInt16Order(o: ByteOrder, x: bv16, s: seq<bv8>)
    requires |s| == 2
    ensures EncodeUInt16(o, SwapUInt16(x)) == EncodeUInt16(Opposite(o), x)
    ensures SwapUInt16(DecodeUInt16(o, s)) == DecodeUInt16(Opposite(o), s)
  {
    EncodeUInt16Opposite(LittleEndian, x);
    EncodeUInt16Opposite(LittleEndian, SwapUInt16(x));
    var y := DecodeUInt16(o, s);
    EncodeUInt16Opposite(LittleEndian, y);
    EncodeUInt16Opposite(LittleEndian, SwapUInt16(y));
    ReverseReverse(EncodeUInt16(LittleEndian, y));
    DecodeEncodeUInt16(Opposite(o), SwapUInt16(y));
  }

  lemma SwapUInt32Involution(x: bv32)
    ensures SwapUInt32(SwapUInt32(x)) == x
  {
  }

  /** Swapping a word exchanges its byte layouts: x in order o reads as Swap(x) in the opposite order. */
  lemma SwapUInt32Order(o: ByteOrder, x: bv32, s: seq<bv8>)
    requires |s| == 4
    ensures EncodeUInt32(o, SwapUInt32(x)) == EncodeUInt32(Opposite(o), x)
    ensures SwapUInt32(DecodeUInt32(o, s)) == DecodeUInt32(Opposite(o), s)
  {
    EncodeUInt32Opposite(LittleEndian, x);
    EncodeUInt32Opposite(LittleEndian, SwapUInt32(x));
    var y := DecodeUInt32(o, s);
    EncodeUInt32Opposite(LittleEndian, y);
    EncodeUInt32Opposite(LittleEndian, SwapUInt32(y));
    ReverseReverse(EncodeUInt32(LittleEndian, y));
    DecodeEncodeUInt32(Opposite(o), SwapUInt32(y));
  }

  lemma SwapUInt64Involution(x: bv64)
    ensures SwapUInt64(SwapUInt64(x)) == x
  {
  }

  /** Swapping a word exchanges its byte layouts: x in order o reads as Swap(x) in the opposite order. */
  lemma SwapUInt64Order(o: ByteOrder, x: bv64, s: seq<bv8>)
    requires |s| == 8
    ensures EncodeUInt64(o, SwapUInt64(x)) == EncodeUInt64(Opposite(o), x)
    ensures SwapUInt64(DecodeUInt64(o, s)) == DecodeUInt64(Opposite(o), s)
  {
    EncodeUInt64Opposite(LittleEndian, x);
    EncodeUInt64Opposite(LittleEndian, SwapUInt64(x));
    var y := DecodeUInt64(o, s);
    EncodeUInt64Opposite(LittleEndian, y);
    EncodeUInt64Opposite(LittleEndian, SwapUInt64(y));
    ReverseReverse(EncodeUInt64(LittleEndian, y));
    DecodeEncodeUInt64(Opposite(o), SwapUInt64(y));
  }

  // ---------------------------------------------------------------- signed

  /** Swap(short): swaps the unsigned two's-complement pattern and reinterprets it. */
  function SwapInt16(x: int16): (r: int16)
    ensures TwosComplementBytes(r as int, 2) == Reverse(TwosComplementBytes(x as int, 2))
  {
    UInt16ToInt16(SwapUInt16(Int16ToUInt16(x)))
  }

  /** The signed swap is the unsigned swap seen through the casts. */
  lemma SwapInt16Pattern(x: int16)
    ensures Int16ToUInt16(SwapInt16(x)) == SwapUInt16(Int16ToUInt16(x))
  {
    Int16Casts(0, SwapUInt16(Int16ToUInt16(x)));
  }

  lemma SwapInt16Involution(x: int16)
    ensures SwapInt16(SwapInt16(x)) == x
  {
    var b := Int16ToUInt16(x);
    Int16Casts(x, SwapUInt16(b));
    SwapUInt16Involution(b);
  }

  /** x in order o reads as Swap(x) in the opposite order. */
  lemma SwapInt16Order(o: ByteOrder, x: int16, s: seq<bv8>)
    requires |s| == 2
    ensures EncodeInt16(o, SwapInt16(x)) == EncodeInt16(Opposite(o), x)
    ensures SwapInt16(DecodeInt16(o, s)) == DecodeInt16(Opposite(o), s)
  {
    SwapInt16EncodeOrder(o, x);
    SwapInt16DecodeOrder(o, s);
  }

  lemma SwapInt16EncodeOrder(o: ByteOrder, x: int16)
    ensures EncodeInt16(o, SwapInt16(x)) == EncodeInt16(Opposite(o), x)
  {
    var b := Int16ToUInt16(x);
    SwapInt16Pattern(x);
    SwapUInt16Order(o, b, EncodeUInt16(o, b));
    assert EncodeInt16(o, SwapInt16(x)) == EncodeUInt16(o, SwapUInt16(b));
  }

  lemma SwapInt16DecodeOrder(o: ByteOrder, s: seq<bv8>)
    requires |s| == 2
    ensures SwapInt16(DecodeInt16(o, s)) == DecodeInt16(Opposite(o), s)
  {
    var d := DecodeUInt16(o, s);
    var y := UInt16ToInt16(d);
    assert DecodeInt16(o, s) == y;
    Int16Casts(y, d);
    assert SwapInt16(y) == UInt16ToInt16(SwapUInt16(d));
    SwapUInt16Order(o, d, s);
    assert SwapUInt16(d) == DecodeUInt16(Opposite(o), s);
  }


  /** Swap(int): swaps the unsigned two's-complement pattern and reinterprets it. */
  function SwapInt32(x: int32): (r: int32)
    ensures TwosComplementBytes(r as int, 4) == Reverse(TwosComplementBytes(x as int, 4))
  {
    UInt32ToInt32(SwapUInt32(Int32ToUInt32(x)))
  }

  /** The signed swap is the unsigned swap seen through the casts. */
  lemma SwapInt32Pattern(x: int32)
    ensures Int32ToUInt32(SwapInt32(x)) == SwapUInt32(Int32ToUInt32(x))
  {
    Int32Casts(0, SwapUInt32(Int32ToUInt32(x)));
  }

  lemma SwapInt32Involution(x: int32)
    ensures SwapInt32(SwapInt32(x)) == x
  {
    var b := Int32ToUInt32(x);
    Int32Casts(x, SwapUInt32(b));
    SwapUInt32Involution(b);
  }

  /** x in order o reads as Swap(x) in the opposite order. */
  lemma SwapInt32Order(o: ByteOrder, x: int32, s: seq<bv8>)
    requires |s| == 4
    ensures EncodeInt32(o, SwapInt32(x)) == EncodeInt32(Opposite(o), x)
    ensures SwapInt32(DecodeInt32(o, s)) == DecodeInt32(Opposite(o), s)
  {
    SwapInt32EncodeOrder(o, x);
    SwapInt32DecodeOrder(o, s);
  }

  lemma SwapInt32EncodeOrder(o: ByteOrder, x: int32)
    ensures EncodeInt32(o, SwapInt32(x)) == EncodeInt32(Opposite(o), x)
  {
    var b := Int32ToUInt32(x);
    SwapInt32Pattern(x);
    SwapUInt32Order(o, b, EncodeUInt32(o, b));
    assert EncodeInt32(o, SwapInt32(x)) == EncodeUInt32(o, SwapUInt32(b));
  }

  lemma SwapInt32DecodeOrder(o: ByteOrder, s: seq<bv8>)
    requires |s| == 4
    ensures SwapInt32(DecodeInt32(o, s)) == DecodeInt32(Opposite(o), s)
  {
    var d := DecodeUInt32(o, s);
    var y := UInt32ToInt32(d);
    assert DecodeInt32(o, s) == y;
    Int32Casts(y, d);
    assert SwapInt32(y) == UInt32ToInt32(SwapUInt32(d));
    SwapUInt32Order(o, d, s);
    assert SwapUInt32(d) == DecodeUInt32(Opposite(o), s);
  }


  /** Swap(long): swaps the unsigned two's-complement pattern and reinterprets it. */
  function SwapInt64(x: int64): (r: int64)
    ensures TwosComplementBytes(r as int, 8) == Reverse(TwosComplementBytes(x as int, 8))
  {
    UInt64ToInt64(SwapUInt64(Int64ToUInt64(x)))
  }

  /** The signed swap is the unsigned swap seen through the casts. */
  lemma SwapInt64Pattern(x: int64)
    ensures Int64ToUInt64(SwapInt64(x)) == SwapUInt64(Int64ToUInt64(x))
  {
    Int64Casts(0, SwapUInt64(Int64ToUInt64(x)));
  }

  lemma SwapInt64Involution(x: int64)
    ensures SwapInt64(SwapInt64(x)) == x
  {
    var b := Int64ToUInt64(x);
    Int64Casts(x, SwapUInt64(b));
    SwapUInt64Involution(b);
  }

  /** x in order o reads as Swap(x) in the opposite order. */
  lemma SwapInt64Order(o: ByteOrder, x: int64, s: seq<bv8>)
    requires |s| == 8
    ensures EncodeInt64(o, SwapInt64(x)) == EncodeInt64(Opposite(o), x)
    ensures SwapInt64(DecodeInt64(o, s)) == DecodeInt64(Opposite(o), s)
  {
    SwapInt64EncodeOrder(o, x);
    SwapInt64DecodeOrder(o, s);
  }

  lemma SwapInt64EncodeOrder(o: ByteOrder, x: int64)
    ensures EncodeInt64(o, SwapInt64(x)) == EncodeInt64(Opposite(o), x)
  {
    var b := Int64ToUInt64(x);
    SwapInt64Pattern(x);
    SwapUInt64Order(o, b, EncodeUInt64(o, b));
    assert EncodeInt64(o, SwapInt64(x)) == EncodeUInt64(o, SwapUInt64(b));
  }

  lemma SwapInt64DecodeOrder(o: ByteOrder, s: seq<bv8>)
    requires |s| == 8
    ensures SwapInt64(DecodeInt64(o, s)) == DecodeInt64(Opposite(o), s)
  {
    var d := DecodeUInt64(o, s);
    var y := UInt64ToInt64(d);
    assert DecodeInt64(o, s) == y;
    Int64Casts(y, d);
    assert SwapInt64(y) == UInt64ToInt64(SwapUInt64(d));
    SwapUInt64Order(o, d, s);
    assert SwapUInt64(d) == DecodeUInt64(Opposite(o), s);
  }


  // ---------------------------------------------------------------- floating point

  /** Swap(float): swaps the bit pattern through the overlay; no arithmetic on the value. */
  function SwapSingle(x: Single): (r: Single)
    ensures EncodeSingle(LittleEndian, r) == Reverse(EncodeSingle(LittleEndian, x))
  {
    SingleBits(SwapUInt32(x.bits))
  }

  lemma SwapSingleInvolution(x: Single)
    ensures SwapSingle(SwapSingle(x)) == x
  {
    SwapUInt32Involution(x.bits);
  }

  lemma SwapSingleOrder(o: ByteOrder, x: Single, s: seq<bv8>)
    requires |s| == 4
    ensures EncodeSingle(o, SwapSingle(x)) == EncodeSingle(Opposite(o), x)
    ensures SwapSingle(DecodeSingle(o, s)) == DecodeSingle(Opposite(o), s)
  {
    SwapUInt32Order(o, x.bits, s);
  }

  /** Swap(double): swaps the bit pattern through the overlay; no arithmetic on the value. */
  function SwapDouble(x: Double): (r: Double)
    ensures EncodeDouble(LittleEndian, r) == Reverse(EncodeDouble(LittleEndian, x))
  {
    DoubleBits(SwapUInt64(x.bits))
  }

  lemma SwapDoubleInvolution(x: Double)
    ensures SwapDouble(SwapDouble(x)) == x
  {
    SwapUInt64Involution(x.bits);
  }

  lemma SwapDoubleOrder(o: ByteOrder, x: Double, s: seq<bv8>)
    requires |s| == 8
    ensures EncodeDouble(o, SwapDouble(x)) == EncodeDouble(Opposite(o), x)
    ensures SwapDouble(DecodeDouble(o, s)) == DecodeDouble(Opposite(o), s)
  {
    SwapUInt64Order(o, x.bits, s);
  }

  // ---------------------------------------------------------------- decimal

  /** The sixteen bytes of a decimal in memory on a platform of order o: word 0, then word 8. */
  function DecimalBytes(o: ByteOrder, x: Decimal): (s: seq<bv8>)
    ensures |s| == 16
  {
    EncodeUInt64(o, x.word0) + EncodeUInt64(o, x.word8)
  }

  /**
   * Swap(decimal): the new word at offset 0 is the swapped old word at offset 8
   * and the reverse, which reverses all sixteen bytes on either platform.
   */
  function SwapDecimal(x: Decimal): (r: Decimal)
    ensures DecimalBytes(LittleEndian, r) == Reverse(DecimalBytes(LittleEndian, x))
    ensures DecimalBytes(BigEndian, r) == Reverse(DecimalBytes(BigEndian, x))
  {
    var tmp := SwapUInt64(x.word0);
    var r := DecimalWords(SwapUInt64(x.word8), tmp);
    SwapDecimalReverses(LittleEndian, x.word0, x.word8);
    SwapDecimalReverses(BigEndian, x.word0, x.word8);
    r
  }

  lemma SwapDecimalReverses(o: ByteOrder, w0: bv64, w8: bv64)
    ensures EncodeUInt64(o, SwapUInt64(w8)) + EncodeUInt64(o, SwapUInt64(w0))
         == Reverse(EncodeUInt64(o, w0) + EncodeUInt64(o, w8))
  {
    SwapUInt64Order(o, w0, EncodeUInt64(o, w0));
    SwapUInt64Order(o, w8, EncodeUInt64(o, w8));
    EncodeUInt64Opposite(o, w0);
    EncodeUInt64Opposite(o, w8);
    ReverseAppend(EncodeUInt64(o, w0), EncodeUInt64(o, w8));
  }

  lemma SwapDecimalInvolution(x: Decimal)
    ensures SwapDecimal(SwapDecimal(x)) == x
  {
    SwapUInt64Involution(x.word0);
    SwapUInt64Involution(x.word8);
  }
}
