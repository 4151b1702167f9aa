/**
 * End-to-end uses of the collection reader and writer: the byte layout of
 * the big- and little-endian writes, the MIDI header a client reads, and
 * every typed value written and read back in both explicit byte orders.
 * Each scenario holds on either platform byte order.
 */
module Scenarios {
  import opened Errors
  import opened Bytes
  import opened Words
  import opened Numerics
  import opened Text
  import opened Reader
  import opened Writer

  /** 0x01020304 written big-endian and then little-endian, on an empty collection. */
  method ByteOrderExample(littleEndian: bool) returns (bytes: seq<bv8>)
    ensures bytes == [0x01, 0x02, 0x03, 0x04, 0x04, 0x03, 0x02, 0x01]
  {
    Int32Layout();
    Reverse4(TwosComplementBytes(0x01020304, 4));
    assert EncodeInt32(BigEndian, 0x01020304) == [0x01, 0x02, 0x03, 0x04];
    assert EncodeInt32(LittleEndian, 0x01020304) == [0x04, 0x03, 0x02, 0x01];
    var w := new BinaryCollectionWriter([], littleEndian);
    w.WriteInt32BE(0x01020304);
    w.WriteInt32LE(0x01020304);
    bytes := w.output;
  }

  /** The two's-complement bytes of 0x01020304, least-significant first. */
  lemma Int32Layout()
    ensures TwosComplementBytes(0x01020304, 4) == [0x04, 0x03, 0x02, 0x01]
  {
    Pow256Values();
    assert LeBytesOfNat(0x01, 1) == [0x01];
    assert LeBytesOfNat(0x0102, 2) == [0x02, 0x01];
    assert LeBytesOfNat(0x010203, 3) == [0x03, 0x02, 0x01];
    assert LeBytesOfNat(0x01020304, 4) == [0x04, 0x03, 0x02, 0x01];
  }

  /** The header tag of a standard MIDI file, in ASCII. */
  const MidiTag: string := "MThd"

  /** The tag is plain ASCII, so it survives encoding and decoding. */
  lemma MidiTagAscii()
    ensures AsciiGetString(AsciiGetBytes(MidiTag)) == MidiTag
  {
    assert MidiTag == ['M', 'T', 'h', 'd'];
    assert forall i :: 0 <= i < |MidiTag| ==> MidiTag[i] as int < 0x80;
    AsciiRoundTrip(MidiTag);
  }

  /**
   * The start of a MIDI file: the four-byte tag, which must read as "MThd",
   * a big-endian 32-bit length, and that many bytes of header payload; or
   * the exception the client meets first.
   */
  function MidiHeader(file: seq<bv8>): Result<seq<bv8>>
  {
    if |file| < 4 then Err(UnexpectedEndOfStream)
    else if AsciiGetString(file[..4]) != MidiTag then Err(Application("The file is not a MIDI file"))
    else if |file| < 8 then Err(UnexpectedEndOfStream)
    else
      var len := DecodeInt32(BigEndian, file[4..8]) as int;
      if len < 0 then Err(Overflow)
      else if |file| < 8 + len then Err(UnexpectedEndOfStream)
      else Ok(file[8..8 + len])
  }

  /** The client's reads: ReadFixedString(4, ASCII), ReadInt32BE, ReadBytes(len). */
  method ReadMidiHeader(file: seq<bv8>, littleEndian: bool) returns (r: Result<seq<bv8>>)
    ensures r == MidiHeader(file)
  {
    var br := new BinaryCollectionReader(file, littleEndian);
    var tag := br.ReadFixedString(4, Ascii);
    if tag.Err? {
      return Err(tag.error);
    }
    if tag.value != MidiTag {
      return Err(Application("The file is not a MIDI file"));
    }
    r := ReadLengthAndPayload(br);
  }

  /** The length and payload reads, on a reader past the tag. */
  method ReadLengthAndPayload(br: BinaryCollectionReader) returns (r: Result<seq<bv8>>)
    requires br.Valid() && br.consumed == 4
    modifies br
    ensures r == if |br.source| < 8 then Err(UnexpectedEndOfStream)
                 else
                   var len := DecodeInt32(BigEndian, br.source[4..8]) as int;
                   if len < 0 then Err(Overflow)
                   else if |br.source| < 8 + len then Err(UnexpectedEndOfStream)
                   else Ok(br.source[8..8 + len])
  {
    ghost var file := br.source;
    assert 4 <= |br.Remaining()| ==> br.Remaining()[..4] == file[4..8];
    var len := br.ReadInt32BE();
    if len.Err? {
      return Err(len.error);
    }
    if len.value < 0 {
      return Err(Overflow);
    }
    assert br.Remaining() == file[8..];
    var ba :- br.ReadBytes(len.value as int);
    assert ba[..] == file[8..8 + len.value as int];
    return Ok(ba[..]);
  }

  /** The bytes a writer produces for a header: the ASCII tag, the big-endian length, the payload. */
  function MidiHeaderBytes(payload: seq<bv8>): seq<bv8>
    requires |payload| < 0x8000_0000
  {
    AsciiGetBytes(MidiTag) + EncodeInt32(BigEndian, |payload| as int32) + payload
  }

  /** A file with the tag, a length n and at least n further bytes has those n bytes as its header. */
  lemma MidiHeaderOk(file: seq<bv8>, n: nat)
    requires |file| >= 8 + n
    requires AsciiGetString(file[..4]) == MidiTag
    requires DecodeInt32(BigEndian, file[4..8]) as int == n
    ensures MidiHeader(file) == Ok(file[8..8 + n])
  {
  }

  /** A written header reads back as its payload, whatever follows it. */
  lemma MidiHeaderOfBytes(payload: seq<bv8>, rest: seq<bv8>)
    requires |payload| < 0x8000_0000
    ensures MidiHeader(MidiHeaderBytes(payload) + rest) == Ok(payload)
  {
    var file := MidiHeaderBytes(payload) + rest;
    var len := |payload| as int32;
    assert AsciiGetString(file[..4]) == MidiTag by {
      assert file[..4] == AsciiGetBytes(MidiTag);
      MidiTagAscii();
    }
    assert DecodeInt32(BigEndian, file[4..8]) == len by {
      assert file[4..8] == EncodeInt32(BigEndian, len);
      DecodeEncodeInt32(BigEndian, len);
    }
    assert file[8..8 + |payload|] == payload;
    MidiHeaderOk(file, |payload|);
  }

  /**
   * Writing a header with WriteString, WriteInt32BE and WriteBytes produces
   * MidiHeaderBytes. The tag always writes; an empty payload makes WriteBytes
   * throw the start-index exception after the tag and length are out.
   */
  method WriteMidiHeader(payload: seq<bv8>, littleEndian: bool) returns (o: Outcome, bytes: seq<bv8>)
    requires |payload| < 0x8000_0000
    ensures o == if payload == [] then Fail(ArgumentOutOfRange("startIndex")) else Pass
    ensures bytes == MidiHeaderBytes(payload)
  {
    var w := new BinaryCollectionWriter([], littleEndian);
    var t := w.WriteString(MidiTag, Ascii);
    assert t == Pass;
    w.WriteInt32BE(|payload| as int32);
    var ba := NewBytes(payload);
    o := w.WriteBytes(ba);
    bytes := w.output;
  }

  /** WriteInt16BE then WriteInt16LE of the same value, on an empty collection. */
  method WriteBothInt16(value: int16, littleEndian: bool) returns (bytes: seq<bv8>)
    ensures bytes == EncodeInt16(BigEndian, value) + EncodeInt16(LittleEndian, value)
  {
    var w := new BinaryCollectionWriter([], littleEndian);
    w.WriteInt16BE(value);
    w.WriteInt16LE(value);
    bytes := w.output;
  }

  /** ReadInt16BE then ReadInt16LE over 4 bytes. */
  method ReadBothInt16(bytes: seq<bv8>, littleEndian: bool) returns (be: Result<int16>, le: Result<int16>)
    requires |bytes| == 4
    ensures be == Ok(DecodeInt16(BigEndian, bytes[..2]))
    ensures le == Ok(DecodeInt16(LittleEndian, bytes[2..]))
  {
    var br := new BinaryCollectionReader(bytes, littleEndian);
    be := br.ReadInt16BE();
    assert br.Remaining() == bytes[2..];
    assert br.Remaining()[..2] == bytes[2..];
    le := br.ReadInt16LE();
  }

  /** An Int16 written big-endian then little-endian reads back unchanged with ReadInt16BE then ReadInt16LE. */
  method RoundTripInt16(value: int16, littleEndian: bool) returns (be: Result<int16>, le: Result<int16>)
    ensures be == Ok(value) && le == Ok(value)
  {
    ghost var eb := EncodeInt16(BigEndian, value);
    ghost var el := EncodeInt16(LittleEndian, value);
    assert DecodeInt16(BigEndian, eb) == value by { DecodeEncodeInt16(BigEndian, value); }
    assert DecodeInt16(LittleEndian, el) == value by { DecodeEncodeInt16(LittleEndian, value); }
    assert (eb + el)[..2] == eb && (eb + el)[2..] == el;
    var bytes := WriteBothInt16(value, littleEndian);
    be, le := ReadBothInt16(bytes, littleEndian);
  }

  /** WriteUInt16BE then WriteUInt16LE of the same value, on an empty collection. */
  method WriteBothUInt16(value: bv16, littleEndian: bool) returns (bytes: seq<bv8>)
    ensures bytes == EncodeUInt16(BigEndian, value) + EncodeUInt16(LittleEndian, value)
  {
    var w := new BinaryCollectionWriter([], littleEndian);
    w.WriteUInt16BE(value);
    w.WriteUInt16LE(value);
    bytes := w.output;
  }

  /** ReadUInt16BE then ReadUInt16LE over 4 bytes. */
  method ReadBothUInt16(bytes: seq<bv8>, littleEndian: bool) returns (be: Result<bv16>, le: Result<bv16>)
    requires |bytes| == 4
    ensures be == Ok(DecodeUInt16(BigEndian, bytes[..2]))
    ensures le == Ok(DecodeUInt16(LittleEndian, bytes[2..]))
  {
    var br := new BinaryCollectionReader(bytes, littleEndian);
    be := br.ReadUInt16BE();
    assert br.Remaining() == bytes[2..];
    assert br.Remaining()[..2] == bytes[2..];
    le := br.ReadUInt16LE();
  }

  /** An UInt16 written big-endian then little-endian reads back unchanged with ReadUInt16BE then ReadUInt16LE. */
  method RoundTripUInt16(value: bv16, littleEndian: bool) returns (be: Result<bv16>, le: Result<bv16>)
    ensures be == Ok(value) && le == Ok(value)
  {
    ghost var eb := EncodeUInt16(BigEndian, value);
    ghost var el := EncodeUInt16(LittleEndian, value);
    assert DecodeUInt16(BigEndian, eb) == value by { DecodeEncodeUInt16(BigEndian, value); }
    assert DecodeUInt16(LittleEndian, el) == value by { DecodeEncodeUInt16(LittleEndian, value); }
    assert (eb + el)[..2] == eb && (eb + el)[2..] == el;
    var bytes := WriteBothUInt16(value, littleEndian);
    be, le := ReadBothUInt16(bytes, littleEndian);
  }

  /** WriteInt32BE then WriteInt32LE of the same value, on an empty collection. */
  method WriteBothInt32(value: int32, littleEndian: bool) returns (bytes: seq<bv8>)
    ensures bytes == EncodeInt32(BigEndian, value) + EncodeInt32(LittleEndian, value)
  {
    var w := new BinaryCollectionWriter([], littleEndian);
    w.WriteInt32BE(value);
    w.WriteInt32LE(value);
    bytes := w.output;
  }

  /** ReadInt32BE then ReadInt32LE over 8 bytes. */
  method ReadBothInt32(bytes: seq<bv8>, littleEndian: bool) returns (be: Result<int32>, le: Result<int32>)
    requires |bytes| == 8
    ensures be == Ok(DecodeInt32(BigEndian, bytes[..4]))
    ensures le == Ok(DecodeInt32(LittleEndian, bytes[4..]))
  {
    var br := new BinaryCollectionReader(bytes, littleEndian);
    be := br.ReadInt32BE();
    assert br.Remaining() == bytes[4..];
    assert br.Remaining()[..4] == bytes[4..];
    le := br.ReadInt32LE();
  }

  /** An Int32 written big-endian then little-endian reads back unchanged with ReadInt32BE then ReadInt32LE. */
  method RoundTripInt32(value: int32, littleEndian: bool) returns (be: Result<int32>, le: Result<int32>)
    ensures be == Ok(value) && le == Ok(value)
  {
    ghost var eb := EncodeInt32(BigEndian, value);
    ghost var el := EncodeInt32(LittleEndian, value);
    assert DecodeInt32(BigEndian, eb) == value by { DecodeEncodeInt32(BigEndian, value); }
    assert DecodeInt32(LittleEndian, el) == value by { DecodeEncodeInt32(LittleEndian, value); }
    assert (eb + el)[..4] == eb && (eb + el)[4..] == el;
    var bytes := WriteBothInt32(value, littleEndian);
    be, le := ReadBothInt32(bytes, littleEndian);
  }

  /** WriteUInt32BE then WriteUInt32LE of the same value, on an empty collection. */
  method WriteBothUInt32(value: bv32, littleEndian: bool) returns (bytes: seq<bv8>)
    ensures bytes == EncodeUInt32(BigEndian, value) + EncodeUInt32(LittleEndian, value)
  {
    var w := new BinaryCollectionWriter([], littleEndian);
    w.WriteUInt32BE(value);
    w.WriteUInt32LE(value);
    bytes := w.output;
  }

  /** ReadUInt32BE then ReadUInt32LE over 8 bytes. */
  method ReadBothUInt32(bytes: seq<bv8>, littleEndian: bool) returns (be: Result<bv32>, le: Result<bv32>)
    requires |bytes| == 8
    ensures be == Ok(DecodeUInt32(BigEndian, bytes[..4]))
    ensures le == Ok(DecodeUInt32(LittleEndian, bytes[4..]))
  {
    var br := new BinaryCollectionReader(bytes, littleEndian);
    be := br.ReadUInt32BE();
    assert br.Remaining() == bytes[4..];
    assert br.Remaining()[..4] == bytes[4..];
    le := br.ReadUInt32LE();
  }

  /** An UInt32 written big-endian then little-endian reads back unchanged with ReadUInt32BE then ReadUInt32LE. */
  method RoundTripUInt32(value: bv32, littleEndian: bool) returns (be: Result<bv32>, le: Result<bv32>)
    ensures be == Ok(value) && le == Ok(value)
  {
    ghost var eb := EncodeUInt32(BigEndian, value);
    ghost var el := EncodeUInt32(LittleEndian, value);
    assert DecodeUInt32(BigEndian, eb) == value by { DecodeEncodeUInt32(BigEndian, value); }
    assert DecodeUInt32(LittleEndian, el) == value by { DecodeEncodeUInt32(LittleEndian, value); }
    assert (eb + el)[..4] == eb && (eb + el)[4..] == el;
    var bytes := WriteBothUInt32(value, littleEndian);
    be, le := ReadBothUInt32(bytes, littleEndian);
  }

  /** WriteInt64BE then WriteInt64LE of the same value, on an empty collection. */
  method WriteBothInt64(value: int64, littleEndian: bool) returns (bytes: seq<bv8>)
    ensures bytes == EncodeInt64(BigEndian, value) + EncodeInt64(LittleEndian, value)
  {
    var w := new BinaryCollectionWriter([], littleEndian);
    w.WriteInt64BE(value);
    w.WriteInt64LE(value);
    bytes := w.output;
  }

  /** ReadInt64BE then ReadInt64LE over 16 bytes. */
  method ReadBothInt64(bytes: seq<bv8>, littleEndian: bool) returns (be: Result<int64>, le: Result<int64>)
    requires |bytes| == 16
    ensures be == Ok(DecodeInt64(BigEndian, bytes[..8]))
    ensures le == Ok(DecodeInt64(LittleEndian, bytes[8..]))
  {
    var br := new BinaryCollectionReader(bytes, littleEndian);
    be := br.ReadInt64BE();
    assert br.Remaining() == bytes[8..];
    assert br.Remaining()[..8] == bytes[8..];
    le := br.ReadInt64LE();
  }

  /** An Int64 written big-endian then little-endian reads back unchanged with ReadInt64BE then ReadInt64LE. */
  method RoundTripInt64(value: int64, littleEndian: bool) returns (be: Result<int64>, le: Result<int64>)
    ensures be == Ok(value) && le == Ok(value)
  {
    ghost var eb := EncodeInt64(BigEndian, value);
    ghost var el := EncodeInt64(LittleEndian, value);
    assert DecodeInt64(BigEndian, eb) == value by { DecodeEncodeInt64(BigEndian, value); }
    assert DecodeInt64(LittleEndian, el) == value by { DecodeEncodeInt64(LittleEndian, value); }
    assert (eb + el)[..8] == eb && (eb + el)[8..] == el;
    var bytes := WriteBothInt64(value, littleEndian);
    be, le := ReadBothInt64(bytes, littleEndian);
  }

  /** WriteUInt64BE then WriteUInt64LE of the same value, on an empty collection. */
  method WriteBothUInt64(value: bv64, littleEndian: bool) returns (bytes: seq<bv8>)
    ensures bytes == EncodeUInt64(BigEndian, value) + EncodeUInt64(LittleEndian, value)
  {
    var w := new BinaryCollectionWriter([], littleEndian);
    w.WriteUInt64BE(value);
    w.WriteUInt64LE(value);
    bytes := w.output;
  }

  /** ReadUInt64BE then ReadUInt64LE over 16 bytes. */
  method ReadBothUInt64(bytes: seq<bv8>, littleEndian: bool) returns (be: Result<bv64>, le: Result<bv64>)
    requires |bytes| == 16
    ensures be == Ok(DecodeUInt64(BigEndian, bytes[..8]))
    ensures le == Ok(DecodeUInt64(LittleEndian, bytes[8..]))
  {
    var br := new BinaryCollectionReader(bytes, littleEndian);
    be := br.ReadUInt64BE();
    assert br.Remaining() == bytes[8..];
    assert br.Remaining()[..8] == bytes[8..];
    le := br.ReadUInt64LE();
  }

  /** An UInt64 written big-endian then little-endian reads back unchanged with ReadUInt64BE then ReadUInt64LE. */
  method RoundTripUInt64(value: bv64, littleEndian: bool) returns (be: Result<bv64>, le: Result<bv64>)
    ensures be == Ok(value) && le == Ok(value)
  {
    ghost var eb := EncodeUInt64(BigEndian, value);
    ghost var el := EncodeUInt64(LittleEndian, value);
    assert DecodeUInt64(BigEndian, eb) == value by { DecodeEncodeUInt64(BigEndian, value); }
    assert DecodeUInt64(LittleEndian, el) == value by { DecodeEncodeUInt64(LittleEndian, value); }
    assert (eb + el)[..8] == eb && (eb + el)[8..] == el;
    var bytes := WriteBothUInt64(value, littleEndian);
    be, le := ReadBothUInt64(bytes, littleEndian);
  }

  /** WriteSingleBE then WriteSingleLE of the same value, on an empty collection. */
  method WriteBothSingle(value: Single, littleEndian: bool) returns (bytes: seq<bv8>)
    ensures bytes == EncodeSingle(BigEndian, value) + EncodeSingle(LittleEndian, value)
  {
    var w := new BinaryCollectionWriter([], littleEndian);
    w.WriteSingleBE(value);
    w.WriteSingleLE(value);
    bytes := w.output;
  }

  /** ReadSingleBE then ReadSingleLE over 8 bytes. */
  method ReadBothSingle(bytes: seq<bv8>, littleEndian: bool) returns (be: Result<Single>, le: Result<Single>)
    requires |bytes| == 8
    ensures be == Ok(DecodeSingle(BigEndian, bytes[..4]))
    ensures le == Ok(DecodeSingle(LittleEndian, bytes[4..]))
  {
    var br := new BinaryCollectionReader(bytes, littleEndian);
    be := br.ReadSingleBE();
    assert br.Remaining() == bytes[4..];
    assert br.Remaining()[..4] == bytes[4..];
    le := br.ReadSingleLE();
  }

  /** A Single written big-endian then little-endian reads back unchanged with ReadSingleBE then ReadSingleLE. */
  method RoundTripSingle(value: Single, littleEndian: bool) returns (be: Result<Single>, le: Result<Single>)
    ensures be == Ok(value) && le == Ok(value)
  {
    ghost var eb := EncodeSingle(BigEndian, value);
    ghost var el := EncodeSingle(LittleEndian, value);
    assert DecodeSingle(BigEndian, eb) == value by { DecodeEncodeSingle(BigEndian, value); }
    assert DecodeSingle(LittleEndian, el) == value by { DecodeEncodeSingle(LittleEndian, value); }
    assert (eb + el)[..4] == eb && (eb + el)[4..] == el;
    var bytes := WriteBothSingle(value, littleEndian);
    be, le := ReadBothSingle(bytes, littleEndian);
  }

  /** WriteDoubleBE then WriteDoubleLE of the same value, on an empty collection. */
  method WriteBothDouble(value: Double, littleEndian: bool) returns (bytes: seq<bv8>)
    ensures bytes == EncodeDouble(BigEndian, value) + EncodeDouble(LittleEndian, value)
  {
    var w := new BinaryCollectionWriter([], littleEndian);
    w.WriteDoubleBE(value);
    w.WriteDoubleLE(value);
    bytes := w.output;
  }

  /** ReadDoubleBE then ReadDoubleLE over 16 bytes. */
  method ReadBothDouble(bytes: seq<bv8>, littleEndian: bool) returns (be: Result<Double>, le: Result<Double>)
    requires |bytes| == 16
    ensures be == Ok(DecodeDouble(BigEndian, bytes[..8]))
    ensures le == Ok(DecodeDouble(LittleEndian, bytes[8..]))
  {
    var br := new BinaryCollectionReader(bytes, littleEndian);
    be := br.ReadDoubleBE();
    assert br.Remaining() == bytes[8..];
    assert br.Remaining()[..8] == bytes[8..];
    le := br.ReadDoubleLE();
  }

  /** A Double written big-endian then little-endian reads back unchanged with ReadDoubleBE then ReadDoubleLE. */
  method RoundTripDouble(value: Double, littleEndian: bool) returns (be: Result<Double>, le: Result<Double>)
    ensures be == Ok(value) && le == Ok(value)
  {
    ghost var eb := EncodeDouble(BigEndian, value);
    ghost var el := EncodeDouble(LittleEndian, value);
    assert DecodeDouble(BigEndian, eb) == value by { DecodeEncodeDouble(BigEndian, value); }
    assert DecodeDouble(LittleEndian, el) == value by { DecodeEncodeDouble(LittleEndian, value); }
    assert (eb + el)[..8] == eb && (eb + el)[8..] == el;
    var bytes := WriteBothDouble(value, littleEndian);
    be, le := ReadBothDouble(bytes, littleEndian);
  }
}
