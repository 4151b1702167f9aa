/**
 * The C# numeric types the reader and writer handle, the `unchecked` casts
 * between signed integers and their unsigned bit patterns, and the
 * BitConverter layout of every type: `GetBytes` is EncodeXxx and `ToXxx` is
 * DecodeXxx, at the platform's byte order.
 */
module Numerics {
  import opened Bytes
  import opened Words

  newtype int8 = x: int | -0x80 <= x < 0x80
  newtype int16 = x: int | -0x8000 <= x < 0x8000
  newtype int32 = x: int | -0x8000_0000 <= x < 0x8000_0000
  newtype int64 = x: int | -0x8000_0000_0000_0000 <= x < 0x8000_0000_0000_0000

  /** A float, seen only as its IEEE-754 binary32 bit pattern. */
  datatype Single = SingleBits(bits: bv32)

  /** A double, seen only as its IEEE-754 binary64 bit pattern. */
  datatype Double = DoubleBits(bits: bv64)

  /** A decimal, seen only as the two 64-bit words stored at byte offsets 0 and 8. */
  datatype Decimal = DecimalWords(word0: bv64, word8: bv64)

  // ---------------------------------------------------------------- sbyte

  /** unchecked((byte)x): the two's-complement bit pattern of an sbyte. */
  function SByteToByte(x: int8): (b: bv8)
    ensures [b] == TwosComplementBytes(x as int, 1)
  {
    Pow256Values();
    TwosComplementBytes(x as int, 1)[0]
  }

  /** unchecked((sbyte)b): the sbyte whose two's-complement bit pattern is b. */
  function ByteToSByte(b: bv8): (x: int8)
    ensures TwosComplementBytes(x as int, 1) == [b]
  {
    Pow256Values();
    SignedOfBytes([b]) as int8
  }

  lemma ByteToSByteInverse(x: int8, b: bv8)
    ensures ByteToSByte(SByteToByte(x)) == x
    ensures SByteToByte(ByteToSByte(b)) == b
  {
    Pow256Values();
    SignedOfTwosComplementBytes(x as int, 1);
  }

  // ---------------------------------------------------------------- 16-bit integers

  /** unchecked((ushort)x): the two's-complement bit pattern of x. */
  function Int16ToUInt16(x: int16): (b: bv16)
    ensures EncodeUInt16(LittleEndian, b) == TwosComplementBytes(x as int, 2)
  {
    Pow256Values();
    DecodeUInt16(LittleEndian, TwosComplementBytes(x as int, 2))
  }

  /** The reverse cast: the signed value whose two's-complement bit pattern is b. */
  function UInt16ToInt16(b: bv16): (x: int16)
    ensures TwosComplementBytes(x as int, 2) == EncodeUInt16(LittleEndian, b)
  {
    Pow256Values();
    SignedOfBytes(EncodeUInt16(LittleEndian, b)) as int16
  }

  /** unchecked((ushort)x) is x modulo 2^16: a negative x becomes x + 2^16. */
  lemma Int16ToUInt16Value(x: int16)
    ensures Int16ToUInt16(x) as int == if x < 0 then x as int + 0x1_0000 else x as int
  {
    Pow256Values();
    EncodeUInt16Value(LittleEndian, Int16ToUInt16(x));
  }

  /** The two casts are inverse to each other. */
  lemma Int16Casts(x: int16, b: bv16)
    ensures UInt16ToInt16(Int16ToUInt16(x)) == x
    ensures Int16ToUInt16(UInt16ToInt16(b)) == b
  {
    Pow256Values();
    SignedOfTwosComplementBytes(x as int, 2);
    DecodeEncodeUInt16(LittleEndian, b);
  }

  /** BitConverter.GetBytes(x) at order o: the two-byte two's complement of x. */
  function EncodeInt16(o: ByteOrder, x: int16): (s: seq<bv8>)
    ensures |s| == 2
    ensures s == (match o
                  case LittleEndian => TwosComplementBytes(x as int, 2)
                  case BigEndian => Reverse(TwosComplementBytes(x as int, 2)))
  {
    EncodeUInt16Opposite(LittleEndian, Int16ToUInt16(x));
    EncodeUInt16(o, Int16ToUInt16(x))
  }

  /** BitConverter.ToInt16(s, 0) at order o. */
  function DecodeInt16(o: ByteOrder, s: seq<bv8>): (x: int16)
    requires |s| == 2
    ensures EncodeInt16(o, x) == s
  {
    var b := DecodeUInt16(o, s);
    Int16Casts(0, b);
    UInt16ToInt16(b)
  }

  /** Decoding the bytes of x in the order they were encoded gives back x. */
  lemma DecodeEncodeInt16(o: ByteOrder, x: int16)
    ensures DecodeInt16(o, EncodeInt16(o, x)) == x
  {
    var b := Int16ToUInt16(x);
    DecodeEncodeUInt16(o, b);
    Int16Casts(x, b);
  }

  // ---------------------------------------------------------------- 32-bit integers

  /** unchecked((uint)x): the two's-complement bit pattern of x. */
  function Int32ToUInt32(x: int32): (b: bv32)
    ensures EncodeUInt32(LittleEndian, b) == TwosComplementBytes(x as int, 4)
  {
    Pow256Values();
    DecodeUInt32(LittleEndian, TwosComplementBytes(x as int, 4))
  }

  /** The reverse cast: the signed value whose two's-complement bit pattern is b. */
  function UInt32ToInt32(b: bv32): (x: int32)
    ensures TwosComplementBytes(x as int, 4) == EncodeUInt32(LittleEndian, b)
  {
    Pow256Values();
    SignedOfBytes(EncodeUInt32(LittleEndian, b)) as int32
  }

  /** unchecked((uint)x) is x modulo 2^32: a negative x becomes x + 2^32. */
  lemma Int32ToUInt32Value(x: int32)
    ensures Int32ToUInt32(x) as int == if x < 0 then x as int + 0x1_0000_0000 else x as int
  {
    Pow256Values();
    EncodeUInt32Value(LittleEndian, Int32ToUInt32(x));
  }

  /** The two casts are inverse to each other. */
  lemma Int32Casts(x: int32, b: bv32)
    ensures UInt32ToInt32(Int32ToUInt32(x)) == x
    ensures Int32ToUInt32(UInt32ToInt32(b)) == b
  {
    Pow256Values();
    SignedOfTwosComplementBytes(x as int, 4);
    DecodeEncodeUInt32(LittleEndian, b);
  }

  /** BitConverter.GetBytes(x) at order o: the four-byte two's complement of x. */
  function EncodeInt32(o: ByteOrder, x: int32): (s: seq<bv8>)
    ensures |s| == 4
    ensures s == (match o
                  case LittleEndian => TwosComplementBytes(x as int, 4)
                  case BigEndian => Reverse(TwosComplementBytes(x as int, 4)))
  {
    EncodeUInt32Opposite(LittleEndian, Int32ToUInt32(x));
    EncodeUInt32(o, Int32ToUInt32(x))
  }

  /** BitConverter.ToInt32(s, 0) at order o. */
  function DecodeInt32(o: ByteOrder, s: seq<bv8>): (x: int32)
    requires |s| == 4
    ensures EncodeInt32(o, x) == s
  {
    var b := DecodeUInt32(o, s);
    Int32Casts(0, b);
    UInt32ToInt32(b)
  }

  /** Decoding the bytes of x in the order they were encoded gives back x. */
  lemma DecodeEncodeInt32(o: ByteOrder, x: int32)
    ensures DecodeInt32(o, EncodeInt32(o, x)) == x
  {
    var b := Int32ToUInt32(x);
    DecodeEncodeUInt32(o, b);
    Int32Casts(x, b);
  }

  // ---------------------------------------------------------------- 64-bit integers

  /** unchecked((ulong)x): the two's-complement bit pattern of x. */
  function Int64ToUInt64(x: int64): (b: bv64)
    ensures EncodeUInt64(LittleEndian, b) == TwosComplementBytes(x as int, 8)
  {
    Pow256Values();
    DecodeUInt64(LittleEndian, TwosComplementBytes(x as int, 8))
  }

  /** The reverse cast: the signed value whose two's-complement bit pattern is b. */
  function UInt64ToInt64(b: bv64): (x: int64)
    ensures TwosComplementBytes(x as int, 8) == EncodeUInt64(LittleEndian, b)
  {
    Pow256Values();
    SignedOfBytes(EncodeUInt64(LittleEndian, b)) as int64
  }

  /** unchecked((ulong)x) is x modulo 2^64: a negative x becomes x + 2^64. */
  lemma Int64ToUInt64Value(x: int64)
    ensures Int64ToUInt64(x) as int == if x < 0 then x as int + 0x1_0000_0000_0000_0000 else x as int
  {
    Pow256Values();
    EncodeUInt64Value(LittleEndian, Int64ToUInt64(x));
  }

  /** The two casts are inverse to each other. */
  lemma Int64Casts(x: int64, b: bv64)
    ensures UInt64ToInt64(Int64ToUInt64(x)) == x
    ensures Int64ToUInt64(UInt64ToInt64(b)) == b
  {
    Pow256Values();
    SignedOfTwosComplementBytes(x as int, 8);
    DecodeEncodeUInt64(LittleEndian, b);
  }

  /** BitConverter.GetBytes(x) at order o: the eight-byte two's complement of x. */
  function EncodeInt64(o: ByteOrder, x: int64): (s: seq<bv8>)
    ensures |s| == 8
    ensures s == (match o
                  case LittleEndian => TwosComplementBytes(x as int, 8)
                  case BigEndian => Reverse(TwosComplementBytes(x as int, 8)))
  {
    EncodeUInt64Opposite(LittleEndian, Int64ToUInt64(x));
    EncodeUInt64(o, Int64ToUInt64(x))
  }

  /** BitConverter.ToInt64(s, 0) at order o. */
  function DecodeInt64(o: ByteOrder, s: seq<bv8>): (x: int64)
    requires |s| == 8
    ensures EncodeInt64(o, x) == s
  {
    var b := DecodeUInt64(o, s);
    Int64Casts(0, b);
    UInt64ToInt64(b)
  }

  /** Decoding the bytes of x in the order they were encoded gives back x. */
  lemma DecodeEncodeInt64(o: ByteOrder, x: int64)
    ensures DecodeInt64(o, EncodeInt64(o, x)) == x
  {
    var b := Int64ToUInt64(x);
    DecodeEncodeUInt64(o, b);
    Int64Casts(x, b);
  }

  // ---------------------------------------------------------------- single

  /** BitConverter.GetBytes(x) at order o: the four bytes of the bit pattern. */
  function EncodeSingle(o: ByteOrder, x: Single): (s: seq<bv8>)
    ensures |s| == 4
  {
    EncodeUInt32(o, x.bits)
  }

  /** BitConverter.ToSingle(s, 0) at order o. */
  function DecodeSingle(o: ByteOrder, s: seq<bv8>): (x: Single)
    requires |s| == 4
    ensures EncodeSingle(o, x) == s
  {
    SingleBits(DecodeUInt32(o, s))
  }

  lemma DecodeEncodeSingle(o: ByteOrder, x: Single)
    ensures DecodeSingle(o, EncodeSingle(o, x)) == x
  {
    DecodeEncodeUInt32(o, x.bits);
  }

  // ---------------------------------------------------------------- double

  /** BitConverter.GetBytes(x) at order o: the eight bytes of the bit pattern. */
  function EncodeDouble(o: ByteOrder, x: Double): (s: seq<bv8>)
    ensures |s| == 8
  {
    EncodeUInt64(o, x.bits)
  }

  /** BitConverter.ToDouble(s, 0) at order o. */
  function DecodeDouble(o: ByteOrder, s: seq<bv8>): (x: Double)
    requires |s| == 8
    ensures EncodeDouble(o, x) == s
  {
    DoubleBits(DecodeUInt64(o, s))
  }

  lemma DecodeEncodeDouble(o: ByteOrder, x: Double)
    ensures DecodeDouble(o, EncodeDouble(o, x)) == x
  {
    DecodeEncodeUInt64(o, x.bits);
  }
}
