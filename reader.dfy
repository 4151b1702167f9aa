/**
 * The reader over an in-memory byte collection, together with the typed
 * reads the abstract reader layers on its two primitives. The enumerator
 * over the collection is the collection itself plus the number of bytes it
 * has moved past; Position counts the bytes consumed since construction.
 */
module Reader {
  import opened Errors
  import opened Words
  import opened Numerics
  import opened ByteOrderUtility
  import opened BlockArgs
  import opened Text

  class BinaryCollectionReader {
    /** The bytes the collection's enumerator yields, in order. */
    const source: seq<bv8>
    /** BitConverter.IsLittleEndian on the platform the reader runs on. */
    const littleEndian: bool
    /** How many times the enumerator's MoveNext has returned true. */
    var consumed: nat
    var Position: int

    /** Position is the number of bytes taken from the collection so far. */
    ghost predicate Valid()
      reads this
    {
      consumed <= |source| && Position == consumed
    }

    /** The bytes not yet consumed. */
    ghost function Remaining(): seq<bv8>
      reads this
      requires Valid()
    {
      source[consumed..]
    }

    constructor (input: seq<bv8>, littleEndian: bool)
      ensures Valid() && Position == 0
      ensures source == input && Remaining() == input && this.littleEndian == littleEndian
    {
      source := input;
      this.littleEndian := littleEndian;
      consumed := 0;
      Position := 0;
    }

    /** Disposes the enumerator; nothing the model observes changes. */
    method Close()
    {
    }

    /** Read(): the next byte as 0..255 and one more byte consumed, or -1 when the collection is exhausted. */
    method Read() returns (r: int)
      requires Valid()
      modifies this
      ensures Valid()
      ensures old(Remaining()) != [] ==> r == old(Remaining())[0] as int && Position == old(Position) + 1
      ensures old(Remaining()) == [] ==> r == -1 && Position == old(Position)
    {
      if consumed < |source| {  // _input.MoveNext()
        r := source[consumed] as int;
        consumed := consumed + 1;
        Position := Position + 1;
      } else {
        r := -1;
      }
    }

    /**
     * Read(buffer, startIndex, length): after the argument checks, copies
     * bytes into buffer[startIndex..] until length bytes are copied or the
     * collection is exhausted, and returns how many were copied.
     */
    method ReadBlock(buffer: array?<bv8>, startIndex: int, length: int) returns (r: Result<int>)
      requires Valid()
      modifies this, buffer
      ensures Valid()
      ensures r == if buffer == null then Err(ArgumentNull("buffer"))
                   else match CheckBlock(buffer.Length, startIndex, length)
                        case Some(e) => Err(e)
                        case None => Ok(Min(length, |old(Remaining())|))
      ensures r.Err? ==> Position == old(Position) && (buffer != null ==> buffer[..] == old(buffer[..]))
      ensures r.Ok? ==> buffer != null && 0 <= startIndex && 0 <= r.value && startIndex + r.value <= buffer.Length
      ensures r.Ok? ==> Position == old(Position) + r.value
      ensures r.Ok? ==> buffer[..] == old(buffer[..startIndex]) + old(Remaining())[..r.value]
                                      + old(buffer[startIndex + r.value..])
    {
      if buffer == null {
        return Err(ArgumentNull("buffer"));
      }
      var check := CheckBlock(buffer.Length, startIndex, length);
      if check.Some? {
        return Err(check.value);
      }
      var result := 0;
      var ic, i := startIndex + length, startIndex;
      while i < ic
        invariant startIndex <= i <= ic
        invariant result == i - startIndex
        invariant Valid() && consumed == old(consumed) + result
        invariant forall k :: 0 <= k < startIndex ==> buffer[k] == old(buffer[k])
        invariant forall k :: startIndex <= k < i ==> buffer[k] == source[old(consumed) + (k - startIndex)]
        invariant forall k :: i <= k < buffer.Length ==> buffer[k] == old(buffer[k])
      {
        if consumed == |source| {  // !_input.MoveNext()
          break;
        }
        buffer[i] := source[consumed];
        consumed := consumed + 1;
        Position := Position + 1;
        result := result + 1;
        i := i + 1;
      }
      assert buffer[..] == old(buffer[..startIndex]) + source[old(consumed)..consumed] + old(buffer[i..]);
      return Ok(result);
    }

    /** ReadByte: the next byte, or "Unexpected end of stream" when there is none. */
    method ReadByte() returns (r: Result<bv8>)
      requires Valid()
      modifies this
      ensures Valid()
      ensures Position == old(Position) + Min(1, |old(Remaining())|)
      ensures r == if old(Remaining()) != [] then Ok(old(Remaining())[0]) else Err(UnexpectedEndOfStream)
    {
      var i := Read();
      if 0 > i {
        return Err(UnexpectedEndOfStream);
      }
      return Ok(i as bv8);
    }

    /** ReadSByte: the next byte reinterpreted as two's complement, under the same failure rule. */
    method ReadSByte() returns (r: Result<int8>)
      requires Valid()
      modifies this
      ensures Valid()
      ensures Position == old(Position) + Min(1, |old(Remaining())|)
      ensures r == if old(Remaining()) != [] then Ok(ByteToSByte(old(Remaining())[0])) else Err(UnexpectedEndOfStream)
    {
      var i := Read();
      if 0 > i {
        return Err(UnexpectedEndOfStream);
      }
      return Ok(ByteToSByte(i as bv8));
    }

    /**
     * ReadBytes(count): a fresh array of the next count bytes. A count of 0
     * reads nothing; otherwise one block read, which must deliver all count
     * bytes. The bytes a short read consumed stay consumed.
     */
    method ReadBytes(count: int) returns (r: Result<array<bv8>>)
      requires Valid()
      requires count >= 0
      modifies this
      ensures Valid()
      ensures Position == old(Position) + Min(count, |old(Remaining())|)
      ensures r.Ok? <==> count <= |old(Remaining())|
      ensures r.Err? ==> r.error == UnexpectedEndOfStream
      ensures r.Ok? ==> fresh(r.value) && r.value[..] == old(Remaining())[..count]
    {
      var result := new bv8[count];
      if 0 < count {
        var n := ReadBlock(result, 0, count);
        if n != Ok(count) {
          return Err(UnexpectedEndOfStream);
        }
      }
      return Ok(result);
    }

    /** ReadFixedString(byteLength, encoding): the decoding of the next byteLength bytes. */
    method ReadFixedString(byteLength: int, encoding: Encoding) returns (r: Result<string>)
      requires Valid()
      requires byteLength >= 0
      modifies this
      ensures Valid()
      ensures Position == old(Position) + Min(byteLength, |old(Remaining())|)
      ensures r == if byteLength <= |old(Remaining())|
                   then Ok(encoding.GetString(old(Remaining())[..byteLength]))
                   else Err(UnexpectedEndOfStream)
    {
      var ba :- ReadBytes(byteLength);
      return Ok(encoding.GetString(ba[..]));
    }

    /**
     * The start of every fixed-width read: `new byte[width]` filled by one
     * block read, which must deliver all width bytes.
     */
    method ReadScratch(width: nat) returns (r: Result<seq<bv8>>)
      requires Valid()
      requires width > 0
      modifies this
      ensures Valid()
      ensures Position == old(Position) + Min(width, |old(Remaining())|)
      ensures r == if width <= |old(Remaining())| then Ok(old(Remaining())[..width]) else Err(UnexpectedEndOfStream)
    {
      var ba := new bv8[width];
      ghost var rest := Remaining();
      var n := ReadBlock(ba, 0, width);
      if n != Ok(width) {
        return Err(UnexpectedEndOfStream);
      }
      assert ba[..] == rest[..width];
      return Ok(ba[..]);
    }

    /** ReadInt16: the next 2 bytes decoded in the platform's byte order. */
    method ReadInt16() returns (r: Result<int16>)
      requires Valid()
      modifies this
      ensures Valid()
      ensures Position == old(Position) + Min(2, |old(Remaining())|)
      ensures r == if 2 <= |old(Remaining())|
                   then Ok(DecodeInt16(PlatformOrder(littleEndian), old(Remaining())[..2]))
                   else Err(UnexpectedEndOfStream)
    {
      var ba :- ReadScratch(2);
      return Ok(DecodeInt16(PlatformOrder(littleEndian), ba));
    }

    /** ReadInt16BE: swaps the native read on a little-endian platform; decodes most-significant byte first. */
    method ReadInt16BE() returns (r: Result<int16>)
      requires Valid()
      modifies this
      ensures Valid()
      ensures Position == old(Position) + Min(2, |old(Remaining())|)
      ensures r == if 2 <= |old(Remaining())|
                   then Ok(DecodeInt16(BigEndian, old(Remaining())[..2]))
                   else Err(UnexpectedEndOfStream)
    {
      ghost var rest := Remaining();
      if littleEndian {
        var x :- ReadInt16();
        SwapInt16Order(LittleEndian, x, rest[..2]);
        return Ok(SwapInt16(x));
      } else {
        r := ReadInt16();
      }
    }

    /** ReadInt16LE: swaps the native read on a big-endian platform; decodes least-significant byte first. */
    method ReadInt16LE() returns (r: Result<int16>)
      requires Valid()
      modifies this
      ensures Valid()
      ensures Position == old(Position) + Min(2, |old(Remaining())|)
      ensures r == if 2 <= |old(Remaining())|
                   then Ok(DecodeInt16(LittleEndian, old(Remaining())[..2]))
                   else Err(UnexpectedEndOfStream)
    {
      ghost var rest := Remaining();
      if !littleEndian {
        var x :- ReadInt16();
        SwapInt16Order(BigEndian, x, rest[..2]);
        return Ok(SwapInt16(x));
      } else {
        r := ReadInt16();
      }
    }

    /** ReadUInt16: the next 2 bytes decoded in the platform's byte order. */
    method ReadUInt16() returns (r: Result<bv16>)
      requires Valid()
      modifies this
      ensures Valid()
      ensures Position == old(Position) + Min(2, |old(Remaining())|)
      ensures r == if 2 <= |old(Remaining())|
                   then Ok(DecodeUInt16(PlatformOrder(littleEndian), old(Remaining())[..2]))
                   else Err(UnexpectedEndOfStream)
    {
      var ba :- ReadScratch(2);
      return Ok(DecodeUInt16(PlatformOrder(littleEndian), ba));
    }

    /** ReadUInt16BE: swaps the native read on a little-endian platform; decodes most-significant byte first. */
    method ReadUInt16BE() returns (r: Result<bv16>)
      requires Valid()
      modifies this
      ensures Valid()
      ensures Position == old(Position) + Min(2, |old(Remaining())|)
      ensures r == if 2 <= |old(Remaining())|
                   then Ok(DecodeUInt16(BigEndian, old(Remaining())[..2]))
                   else Err(UnexpectedEndOfStream)
    {
      ghost var rest := Remaining();
      if littleEndian {
        var x :- ReadUInt16();
        SwapUInt16Order(LittleEndian, x, rest[..2]);
        return Ok(SwapUInt16(x));
      } else {
        r := ReadUInt16();
      }
    }

    /** ReadUInt16LE: swaps the native read on a big-endian platform; decodes least-significant byte first. */
    method ReadUInt16LE() returns (r: Result<bv16>)
      requires Valid()
      modifies this
      ensures Valid()
      ensures Position == old(Position) + Min(2, |old(Remaining())|)
      ensures r == if 2 <= |old(Remaining())|
                   then Ok(DecodeUInt16(LittleEndian, old(Remaining())[..2]))
                   else Err(UnexpectedEndOfStream)
    {
      ghost var rest := Remaining();
      if !littleEndian {
        var x :- ReadUInt16();
        SwapUInt16Order(BigEndian, x, rest[..2]);
        return Ok(SwapUInt16(x));
      } else {
        r := ReadUInt16();
      }
    }

    /** ReadInt32: the next 4 bytes decoded in the platform's byte order. */
    method ReadInt32() returns (r: Result<int32>)
      requires Valid()
      modifies this
      ensures Valid()
      ensures Position == old(Position) + Min(4, |old(Remaining())|)
      ensures r == if 4 <= |old(Remaining())|
                   then Ok(DecodeInt32(PlatformOrder(littleEndian), old(Remaining())[..4]))
                   else Err(UnexpectedEndOfStream)
    {
      var ba :- ReadScratch(4);
      return Ok(DecodeInt32(PlatformOrder(littleEndian), ba));
    }

    /** ReadInt32BE: swaps the native read on a little-endian platform; decodes most-significant byte first. */
    method ReadInt32BE() returns (r: Result<int32>)
      requires Valid()
      modifies this
      ensures Valid()
      ensures Position == old(Position) + Min(4, |old(Remaining())|)
      ensures r == if 4 <= |old(Remaining())|
                   then Ok(DecodeInt32(BigEndian, old(Remaining())[..4]))
                   else Err(UnexpectedEndOfStream)
    {
      ghost var rest := Remaining();
      if littleEndian {
        var x :- ReadInt32();
        SwapInt32Order(LittleEndian, x, rest[..4]);
        return Ok(SwapInt32(x));
      } else {
        r := ReadInt32();
      }
    }

    /** ReadInt32LE: swaps the native read on a big-endian platform; decodes least-significant byte first. */
    method ReadInt32LE() returns (r: Result<int32>)
      requires Valid()
      modifies this
      ensures Valid()
      ensures Position == old(Position) + Min(4, |old(Remaining())|)
      ensures r == if 4 <= |old(Remaining())|
                   then Ok(DecodeInt32(LittleEndian, old(Remaining())[..4]))
                   else Err(UnexpectedEndOfStream)
    {
      ghost var rest := Remaining();
      if !littleEndian {
        var x :- ReadInt32();
        SwapInt32Order(BigEndian, x, rest[..4]);
        return Ok(SwapInt32(x));
      } else {
        r := ReadInt32();
      }
    }

    /** ReadUInt32: the next 4 bytes decoded in the platform's byte order. */
    method ReadUInt32() returns (r: Result<bv32>)
      requires Valid()
      modifies this
      ensures Valid()
      ensures Position == old(Position) + Min(4, |old(Remaining())|)
      ensures r == if 4 <= |old(Remaining())|
                   then Ok(DecodeUInt32(PlatformOrder(littleEndian), old(Remaining())[..4]))
                   else Err(UnexpectedEndOfStream)
    {
      var ba :- ReadScratch(4);
      return Ok(DecodeUInt32(PlatformOrder(littleEndian), ba));
    }

    /** ReadUInt32BE: swaps the native read on a little-endian platform; decodes most-significant byte first. */
    method ReadUInt32BE() returns (r: Result<bv32>)
      requires Valid()
      modifies this
      ensures Valid()
      ensures Position == old(Position) + Min(4, |old(Remaining())|)
      ensures r == if 4 <= |old(Remaining())|
                   then Ok(DecodeUInt32(BigEndian, old(Remaining())[..4]))
                   else Err(UnexpectedEndOfStream)
    {
      ghost var rest := Remaining();
      if littleEndian {
        var x :- ReadUInt32();
        SwapUInt32Order(LittleEndian, x, rest[..4]);
        return Ok(SwapUInt32(x));
      } else {
        r := ReadUInt32();
      }
    }

    /** ReadUInt32LE: swaps the native read on a big-endian platform; decodes least-significant byte first. */
    method ReadUInt32LE() returns (r: Result<bv32>)
      requires Valid()
      modifies this
      ensures Valid()
      ensures Position == old(Position) + Min(4, |old(Remaining())|)
      ensures r == if 4 <= |old(Remaining())|
                   then Ok(DecodeUInt32(LittleEndian, old(Remaining())[..4]))
                   else Err(UnexpectedEndOfStream)
    {
      ghost var rest := Remaining();
      if !littleEndian {
        var x :- ReadUInt32();
        SwapUInt32Order(BigEndian, x, rest[..4]);
        return Ok(SwapUInt32(x));
      } else {
        r := ReadUInt32();
      }
    }

    /** ReadInt64: the next 8 bytes decoded in the platform's byte order. */
    method ReadInt64() returns (r: Result<int64>)
      requires Valid()
      modifies this
      ensures Valid()
      ensures Position == old(Position) + Min(8, |old(Remaining())|)
      ensures r == if 8 <= |old(Remaining())|
                   then Ok(DecodeInt64(PlatformOrder(littleEndian), old(Remaining())[..8]))
                   else Err(UnexpectedEndOfStream)
    {
      var ba :- ReadScratch(8);
      return Ok(DecodeInt64(PlatformOrder(littleEndian), ba));
    }

    /** ReadInt64BE: swaps the native read on a little-endian platform; decodes most-significant byte first. */
    method ReadInt64BE() returns (r: Result<int64>)
      requires Valid()
      modifies this
      ensures Valid()
      ensures Position == old(Position) + Min(8, |old(Remaining())|)
      ensures r == if 8 <= |old(Remaining())|
                   then Ok(DecodeInt64(BigEndian, old(Remaining())[..8]))
                   else Err(UnexpectedEndOfStream)
    {
      ghost var rest := Remaining();
      if littleEndian {
        var x :- ReadInt64();
        SwapInt64Order(LittleEndian, x, rest[..8]);
        return Ok(SwapInt64(x));
      } else {
        r := ReadInt64();
      }
    }

    /** ReadInt64LE: swaps the native read on a big-endian platform; decodes least-significant byte first. */
    method ReadInt64LE() returns (r: Result<int64>)
      requires Valid()
      modifies this
      ensures Valid()
      ensures Position == old(Position) + Min(8, |old(Remaining())|)
      ensures r == if 8 <= |old(Remaining())|
                   then Ok(DecodeInt64(LittleEndian, old(Remaining())[..8]))
                   else Err(UnexpectedEndOfStream)
    {
      ghost var rest := Remaining();
      if !littleEndian {
        var x :- ReadInt64();
        SwapInt64Order(BigEndian, x, rest[..8]);
        return Ok(SwapInt64(x));
      } else {
        r := ReadInt64();
      }
    }

    /** ReadUInt64: the next 8 bytes decoded in the platform's byte order. */
    method ReadUInt64() returns (r: Result<bv64>)
      requires Valid()
      modifies this
      ensures Valid()
      ensures Position == old(Position) + Min(8, |old(Remaining())|)
      ensures r == if 8 <= |old(Remaining())|
                   then Ok(DecodeUInt64(PlatformOrder(littleEndian), old(Remaining())[..8]))
                   else Err(UnexpectedEndOfStream)
    {
      var ba :- ReadScratch(8);
      return Ok(DecodeUInt64(PlatformOrder(littleEndian), ba));
    }

    /** ReadUInt64BE: swaps the native read on a little-endian platform; decodes most-significant byte first. */
    method ReadUInt64BE() returns (r: Result<bv64>)
      requires Valid()
      modifies this
      ensures Valid()
      ensures Position == old(Position) + Min(8, |old(Remaining())|)
      ensures r == if 8 <= |old(Remaining())|
                   then Ok(DecodeUInt64(BigEndian, old(Remaining())[..8]))
                   else Err(UnexpectedEndOfStream)
    {
      ghost var rest := Remaining();
      if littleEndian {
        var x :- ReadUInt64();
        SwapUInt64Order(LittleEndian, x, rest[..8]);
        return Ok(SwapUInt64(x));
      } else {
        r := ReadUInt64();
      }
    }

    /** ReadUInt64LE: swaps the native read on a big-endian platform; decodes least-significant byte first. */
    method ReadUInt64LE() returns (r: Result<bv64>)
      requires Valid()
      modifies this
      ensures Valid()
      ensures Position == old(Position) + Min(8, |old(Remaining())|)
      ensures r == if 8 <= |old(Remaining())|
                   then Ok(DecodeUInt64(LittleEndian, old(Remaining())[..8]))
                   else Err(UnexpectedEndOfStream)
    {
      ghost var rest := Remaining();
      if !littleEndian {
        var x :- ReadUInt64();
        SwapUInt64Order(BigEndian, x, rest[..8]);
        return Ok(SwapUInt64(x));
      } else {
        r := ReadUInt64();
      }
    }

    /** ReadSingle: the next 4 bytes decoded in the platform's byte order. */
    method ReadSingle() returns (r: Result<Single>)
      requires Valid()
      modifies this
      ensures Valid()
      ensures Position == old(Position) + Min(4, |old(Remaining())|)
      ensures r == if 4 <= |old(Remaining())|
                   then Ok(DecodeSingle(PlatformOrder(littleEndian), old(Remaining())[..4]))
                   else Err(UnexpectedEndOfStream)
    {
      var ba :- ReadScratch(4);
      return Ok(DecodeSingle(PlatformOrder(littleEndian), ba));
    }

    /** ReadSingleBE: swaps the native read on a little-endian platform; decodes most-significant byte first. */
    method ReadSingleBE() returns (r: Result<Single>)
      requires Valid()
      modifies this
      ensures Valid()
      ensures Position == old(Position) + Min(4, |old(Remaining())|)
      ensures r == if 4 <= |old(Remaining())|
                   then Ok(DecodeSingle(BigEndian, old(Remaining())[..4]))
                   else Err(UnexpectedEndOfStream)
    {
      ghost var rest := Remaining();
      if littleEndian {
        var x :- ReadSingle();
        SwapSingleOrder(LittleEndian, x, rest[..4]);
        return Ok(SwapSingle(x));
      } else {
        r := ReadSingle();
      }
    }

    /** ReadSingleLE: swaps the native read on a big-endian platform; decodes least-significant byte first. */
    method ReadSingleLE() returns (r: Result<Single>)
      requires Valid()
      modifies this
      ensures Valid()
      ensures Position == old(Position) + Min(4, |old(Remaining())|)
      ensures r == if 4 <= |old(Remaining())|
                   then Ok(DecodeSingle(LittleEndian, old(Remaining())[..4]))
                   else Err(UnexpectedEndOfStream)
    {
      ghost var rest := Remaining();
      if !littleEndian {
        var x :- ReadSingle();
        SwapSingleOrder(BigEndian, x, rest[..4]);
        return Ok(SwapSingle(x));
      } else {
        r := ReadSingle();
      }
    }

    /** ReadDouble: the next 8 bytes decoded in the platform's byte order. */
    method ReadDouble() returns (r: Result<Double>)
      requires Valid()
      modifies this
      ensures Valid()
      ensures Position == old(Position) + Min(8, |old(Remaining())|)
      ensures r == if 8 <= |old(Remaining())|
                   then Ok(DecodeDouble(PlatformOrder(littleEndian), old(Remaining())[..8]))
                   else Err(UnexpectedEndOfStream)
    {
      var ba :- ReadScratch(8);
      return Ok(DecodeDouble(PlatformOrder(littleEndian), ba));
    }

    /** ReadDoubleBE: swaps the native read on a little-endian platform; decodes most-significant byte first. */
    method ReadDoubleBE() returns (r: Result<Double>)
      requires Valid()
      modifies this
      ensures Valid()
      ensures Position == old(Position) + Min(8, |old(Remaining())|)
      ensures r == if 8 <= |old(Remaining())|
                   then Ok(DecodeDouble(BigEndian, old(Remaining())[..8]))
                   else Err(UnexpectedEndOfStream)
    {
      ghost var rest := Remaining();
      if littleEndian {
        var x :- ReadDouble();
        SwapDoubleOrder(LittleEndian, x, rest[..8]);
        return Ok(SwapDouble(x));
      } else {
        r := ReadDouble();
      }
    }

    /** ReadDoubleLE: swaps the native read on a big-endian platform; decodes least-significant byte first. */
    method ReadDoubleLE() returns (r: Result<Double>)
      requires Valid()
      modifies this
      ensures Valid()
      ensures Position == old(Position) + Min(8, |old(Remaining())|)
      ensures r == if 8 <= |old(Remaining())|
                   then Ok(DecodeDouble(LittleEndian, old(Remaining())[..8]))
                   else Err(UnexpectedEndOfStream)
    {
      ghost var rest := Remaining();
      if !littleEndian {
        var x :- ReadDouble();
        SwapDoubleOrder(BigEndian, x, rest[..8]);
        return Ok(SwapDouble(x));
      } else {
        r := ReadDouble();
      }
    }
  }
}
