/**
 * The writer over a growable, ordered byte collection, together with the
 * typed writes the abstract writer layers on its primitives. The caller's
 * collection is the `output` field; every write appends to it.
 */
module Writer {
  import opened Errors
  import opened Words
  import opened Numerics
  import opened ByteOrderUtility
  import opened BlockArgs
  import opened Text

  /** A fresh array holding s, as BitConverter.GetBytes and Encoding.GetBytes return. */
  method NewBytes(s: seq<bv8>) returns (a: array<bv8>)
    ensures fresh(a) && a[..] == s
  {
    a := new bv8[|s|](i requires 0 <= i < |s| => s[i]);
  }

  class BinaryCollectionWriter {
    /** The caller's collection, in the order bytes were added. */
    var output: seq<bv8>
    /** BitConverter.IsLittleEndian on the platform the writer runs on. */
    const littleEndian: bool

    /** Wraps the caller's collection without clearing it: writes go after what it holds. */
    constructor (output: seq<bv8>, littleEndian: bool)
      ensures this.output == output && this.littleEndian == littleEndian
    {
      this.output := output;
      this.littleEndian := littleEndian;
    }

    /** Close does nothing: the collection belongs to the caller. */
    method Close()
    {
    }

    /** Write(byte): adds one byte at the end of the collection. */
    method Write(data: bv8)
      modifies this
      ensures output == old(output) + [data]
    {
      output := output + [data];
    }

    /**
     * The inherited default Write(buffer, startIndex, length): the argument
     * checks, then Write(buffer[i]) for each i in the range, in order.
     */
    method WriteBlock(buffer: array?<bv8>, startIndex: int, length: int) returns (o: Outcome)
      modifies this
      ensures o == if buffer == null then Fail(ArgumentNull("buffer"))
                   else match CheckBlock(buffer.Length, startIndex, length)
                        case Some(e) => Fail(e)
                        case None => Pass
      ensures o.Fail? ==> output == old(output)
      ensures o.Pass? ==> buffer != null && 0 <= startIndex <= startIndex + length <= buffer.Length
      ensures o.Pass? ==> output == old(output) + buffer[startIndex..startIndex + length]
    {
      if buffer == null {
        return Fail(ArgumentNull("buffer"));
      }
      var check := CheckBlock(buffer.Length, startIndex, length);
      if check.Some? {
        return Fail(check.value);
      }
      var ic, i := startIndex + length, startIndex;
      while i < ic
        invariant startIndex <= i <= ic
        invariant output == old(output) + buffer[startIndex..i]
      {
        Write(buffer[i]);
        i := i + 1;
      }
      return Pass;
    }

    /** WriteByte: exactly Write(byte). */
    method WriteByte(value: bv8)
      modifies this
      ensures output == old(output) + [value]
    {
      Write(value);
    }

    /** WriteSbyte: writes the two's-complement byte of value. */
    method WriteSbyte(value: int8)
      modifies this
      ensures output == old(output) + [SByteToByte(value)]
    {
      Write(SByteToByte(value));
    }

    /**
     * WriteBytes(values): the block write of the whole array. A null array
     * fails on values.Length; an empty array fails the start-index check.
     */
    method WriteBytes(values: array?<bv8>) returns (o: Outcome)
      modifies this
      ensures values == null ==> o == Fail(NullReference)
      ensures values != null && values.Length == 0 ==> o == Fail(ArgumentOutOfRange("startIndex"))
      ensures values != null && values.Length > 0 ==> o == Pass
      ensures output == if o.Pass? then old(output) + values[..] else old(output)
    {
      if values == null {
        return Fail(NullReference);
      }
      o := WriteBlock(values, 0, values.Length);
    }

    /** WriteString: appends the encoded bytes and nothing else; empty encoded text fails as WriteBytes does. */
    method WriteString(text: string, encoding: Encoding) returns (o: Outcome)
      modifies this
      ensures o == if encoding.GetBytes(text) == [] then Fail(ArgumentOutOfRange("startIndex")) else Pass
      ensures output == old(output) + encoding.GetBytes(text)
    {
      var bytes := NewBytes(encoding.GetBytes(text));
      o := WriteBytes(bytes);
    }

    /** WriteInt16: the 2 bytes of value in the platform's byte order. */
    method WriteInt16(value: int16)
      modifies this
      ensures output == old(output) + EncodeInt16(PlatformOrder(littleEndian), value)
    {
      var bytes := NewBytes(EncodeInt16(PlatformOrder(littleEndian), value));
      var o := WriteBytes(bytes);
    }

    /** WriteInt16BE: swapped first on a little-endian platform; most-significant byte first. */
    method WriteInt16BE(value: int16)
      modifies this
      ensures output == old(output) + EncodeInt16(BigEndian, value)
    {
      SwapInt16Order(LittleEndian, value, EncodeInt16(LittleEndian, value));
      var bytes := NewBytes(EncodeInt16(PlatformOrder(littleEndian), if littleEndian then SwapInt16(value) else value));
      var o := WriteBytes(bytes);
    }

    /** WriteInt16LE: swapped first on a big-endian platform; least-significant byte first. */
    method WriteInt16LE(value: int16)
      modifies this
      ensures output == old(output) + EncodeInt16(LittleEndian, value)
    {
      SwapInt16Order(BigEndian, value, EncodeInt16(BigEndian, value));
      var bytes := NewBytes(EncodeInt16(PlatformOrder(littleEndian), if !littleEndian then SwapInt16(value) else value));
      var o := WriteBytes(bytes);
    }

    /** WriteUInt16: the 2 bytes of value in the platform's byte order. */
    method WriteUInt16(value: bv16)
      modifies this
      ensures output == old(output) + EncodeUInt16(PlatformOrder(littleEndian), value)
    {
      var bytes := NewBytes(EncodeUInt16(PlatformOrder(littleEndian), value));
      var o := WriteBytes(bytes);
    }

    /** WriteUInt16BE: swapped first on a little-endian platform; most-significant byte first. */
    method WriteUInt16BE(value: bv16)
      modifies this
      ensures output == old(output) + EncodeUInt16(BigEndian, value)
    {
      SwapUInt16Order(LittleEndian, value, EncodeUInt16(LittleEndian, value));
      var bytes := NewBytes(EncodeUInt16(PlatformOrder(littleEndian), if littleEndian then SwapUInt16(value) else value));
      var o := WriteBytes(bytes);
    }

    /** WriteUInt16LE: swapped first on a big-endian platform; least-significant byte first. */
    method WriteUInt16LE(value: bv16)
      modifies this
      ensures output == old(output) + EncodeUInt16(LittleEndian, value)
    {
      SwapUInt16Order(BigEndian, value, EncodeUInt16(BigEndian, value));
      var bytes := NewBytes(EncodeUInt16(PlatformOrder(littleEndian), if !littleEndian then SwapUInt16(value) else value));
      var o := WriteBytes(bytes);
    }

    /** WriteInt32: the 4 bytes of value in the platform's byte order. */
    method WriteInt32(value: int32)
      modifies this
      ensures output == old(output) + EncodeInt32(PlatformOrder(littleEndian), value)
    {
      var bytes := NewBytes(EncodeInt32(PlatformOrder(littleEndian), value));
      var o := WriteBytes(bytes);
    }

    /** WriteInt32BE: swapped first on a little-endian platform; most-significant byte first. */
    method WriteInt32BE(value: int32)
      modifies this
      ensures output == old(output) + EncodeInt32(BigEndian, value)
    {
      SwapInt32Order(LittleEndian, value, EncodeInt32(LittleEndian, value));
      var bytes := NewBytes(EncodeInt32(PlatformOrder(littleEndian), if littleEndian then SwapInt32(value) else value));
      var o := WriteBytes(bytes);
    }

    /** WriteInt32LE: swapped first on a big-endian platform; least-significant byte first. */
    method WriteInt32LE(value: int32)
      modifies this
      ensures output == old(output) + EncodeInt32(LittleEndian, value)
    {
      SwapInt32Order(BigEndian, value, EncodeInt32(BigEndian, value));
      var bytes := NewBytes(EncodeInt32(PlatformOrder(littleEndian), if !littleEndian then SwapInt32(value) else value));
      var o := WriteBytes(bytes);
    }

    /** WriteUInt32: the 4 bytes of value in the platform's byte order. */
    method WriteUInt32(value: bv32)
      modifies this
      ensures output == old(output) + EncodeUInt32(PlatformOrder(littleEndian), value)
    {
      var bytes := NewBytes(EncodeUInt32(PlatformOrder(littleEndian), value));
      var o := WriteBytes(bytes);
    }

    /** WriteUInt32BE: swapped first on a little-endian platform; most-significant byte first. */
    method WriteUInt32BE(value: bv32)
      modifies this
      ensures output == old(output) + EncodeUInt32(BigEndian, value)
    {
      SwapUInt32Order(LittleEndian, value, EncodeUInt32(LittleEndian, value));
      var bytes := NewBytes(EncodeUInt32(PlatformOrder(littleEndian), if littleEndian then SwapUInt32(value) else value));
      var o := WriteBytes(bytes);
    }

    /** WriteUInt32LE: swapped first on a big-endian platform; least-significant byte first. */
    method WriteUInt32LE(value: bv32)
      modifies this
      ensures output == old(output) + EncodeUInt32(LittleEndian, value)
    {
      SwapUInt32Order(BigEndian, value, EncodeUInt32(BigEndian, value));
      var bytes := NewBytes(EncodeUInt32(PlatformOrder(littleEndian), if !littleEndian then SwapUInt32(value) else value));
      var o := WriteBytes(bytes);
    }

    /** WriteInt64: the 8 bytes of value in the platform's byte order. */
    method WriteInt64(value: int64)
      modifies this
      ensures output == old(output) + EncodeInt64(PlatformOrder(littleEndian), value)
    {
      var bytes := NewBytes(EncodeInt64(PlatformOrder(littleEndian), value));
      var o := WriteBytes(bytes);
    }

    /** WriteInt64BE: swapped first on a little-endian platform; most-significant byte first. */
    method WriteInt64BE(value: int64)
      modifies this
      ensures output == old(output) + EncodeInt64(BigEndian, value)
    {
      SwapInt64Order(LittleEndian, value, EncodeInt64(LittleEndian, value));
      var bytes := NewBytes(EncodeInt64(PlatformOrder(littleEndian), if littleEndian then SwapInt64(value) else value));
      var o := WriteBytes(bytes);
    }

    /** WriteInt64LE: swapped first on a big-endian platform; least-significant byte first. */
    method WriteInt64LE(value: int64)
      modifies this
      ensures output == old(output) + EncodeInt64(LittleEndian, value)
    {
      SwapInt64Order(BigEndian, value, EncodeInt64(BigEndian, value));
      var bytes := NewBytes(EncodeInt64(PlatformOrder(littleEndian), if !littleEndian then SwapInt64(value) else value));
      var o := WriteBytes(bytes);
    }

    /** WriteUInt64: the 8 bytes of value in the platform's byte order. */
    method WriteUInt64(value: bv64)
      modifies this
      ensures output == old(output) + EncodeUInt64(PlatformOrder(littleEndian), value)
    {
      var bytes := NewBytes(EncodeUInt64(PlatformOrder(littleEndian), value));
      var o := WriteBytes(bytes);
    }

    /** WriteUInt64BE: swapped first on a little-endian platform; most-significant byte first. */
    method WriteUInt64BE(value: bv64)
      modifies this
      ensures output == old(output) + EncodeUInt64(BigEndian, value)
    {
      SwapUInt64Order(LittleEndian, value, EncodeUInt64(LittleEndian, value));
      var bytes := NewBytes(EncodeUInt64(PlatformOrder(littleEndian), if littleEndian then SwapUInt64(value) else value));
      var o := WriteBytes(bytes);
    }

    /** WriteUInt64LE: swapped first on a big-endian platform; least-significant byte first. */
    method WriteUInt64LE(value: bv64)
      modifies this
      ensures output == old(output) + EncodeUInt64(LittleEndian, value)
    {
      SwapUInt64Order(BigEndian, value, EncodeUInt64(BigEndian, value));
      var bytes := NewBytes(EncodeUInt64(PlatformOrder(littleEndian), if !littleEndian then SwapUInt64(value) else value));
      var o := WriteBytes(bytes);
    }

    /** WriteSingle: the 4 bytes of value in the platform's byte order. */
    method WriteSingle(value: Single)
      modifies this
      ensures output == old(output) + EncodeSingle(PlatformOrder(littleEndian), value)
    {
      var bytes := NewBytes(EncodeSingle(PlatformOrder(littleEndian), value));
      var o := WriteBytes(bytes);
    }

    /** WriteSingleBE: swapped first on a little-endian platform; most-significant byte first. */
    method WriteSingleBE(value: Single)
      modifies this
      ensures output == old(output) + EncodeSingle(BigEndian, value)
    {
      SwapSingleOrder(LittleEndian, value, EncodeSingle(LittleEndian, value));
      var bytes := NewBytes(EncodeSingle(PlatformOrder(littleEndian), if littleEndian then SwapSingle(value) else value));
      var o := WriteBytes(bytes);
    }

    /** WriteSingleLE: swapped first on a big-endian platform; least-significant byte first. */
    method WriteSingleLE(value: Single)
      modifies this
      ensures output == old(output) + EncodeSingle(LittleEndian, value)
    {
      SwapSingleOrder(BigEndian, value, EncodeSingle(BigEndian, value));
      var bytes := NewBytes(EncodeSingle(PlatformOrder(littleEndian), if !littleEndian then SwapSingle(value) else value));
      var o := WriteBytes(bytes);
    }

    /** WriteDouble: the 8 bytes of value in the platform's byte order. */
    method WriteDouble(value: Double)
      modifies this
      ensures output == old(output) + EncodeDouble(PlatformOrder(littleEndian), value)
    {
      var bytes := NewBytes(EncodeDouble(PlatformOrder(littleEndian), value));
      var o := WriteBytes(bytes);
    }

    /** WriteDoubleBE: swapped first on a little-endian platform; most-significant byte first. */
    method WriteDoubleBE(value: Double)
      modifies this
      ensures output == old(output) + EncodeDouble(BigEndian, value)
    {
      SwapDoubleOrder(LittleEndian, value, EncodeDouble(LittleEndian, value));
      var bytes := NewBytes(EncodeDouble(PlatformOrder(littleEndian), if littleEndian then SwapDouble(value) else value));
      var o := WriteBytes(bytes);
    }

    /** WriteDoubleLE: swapped first on a big-endian platform; least-significant byte first. */
    method WriteDoubleLE(value: Double)
      modifies this
      ensures output == old(output) + EncodeDouble(LittleEndian, value)
    {
      SwapDoubleOrder(BigEndian, value, EncodeDouble(BigEndian, value));
      var bytes := NewBytes(EncodeDouble(PlatformOrder(littleEndian), if !littleEndian then SwapDouble(value) else value));
      var o := WriteBytes(bytes);
    }
  }
}
