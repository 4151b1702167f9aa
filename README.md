# BinaryIO in Dafny

A model of BinaryIO, a small C# library that reads and writes binary data
over byte collections: single bytes, byte blocks, 16-, 32- and 64-bit
integers, floats and doubles in the platform's byte order or explicitly
big- or little-endian, and fixed-length strings in a caller-chosen encoding.

The model covers:

- **Byte orders and layouts** (`bytes.dfy`, `words.dfy`, `numerics.dfy`).
  These give what `BitConverter.GetBytes` and `BitConverter.ToXxx` produce
  and consume at a given byte order. They also give the `unchecked` casts
  between signed integers and their unsigned bit patterns, stated as
  two's-complement byte strings. The platform's `IsLittleEndian` is a
  boolean parameter, so every property is proved for both platforms.
- **`ByteOrderUtility`** (`byte_order_utility.dfy`): every `Swap` overload.
  Each one reverses the bytes of its argument and undoes itself, and
  swapping converts between the two byte orders. The `decimal` swap
  reverses all sixteen bytes.
- **The block argument checks** (`block_args.dfy`). These are shared by the
  collection reader's block `Read` and the writer's default block `Write`.
- **`BinaryCollectionReader`** (`reader.dfy`): a class over the bytes its
  enumerator yields. It holds the number of bytes consumed and `Position`.
  It also carries every typed read of the abstract `BinaryReader`, each
  specified by the `DecodeXxx` function at the byte order it uses.
- **`BinaryCollectionWriter`** (`writer.dfy`): a class whose `output` field
  is the caller's collection. It also carries every typed write of the
  abstract `BinaryWriter`, each specified as appending the `EncodeXxx`
  bytes.
- **End-to-end scenarios** (`scenarios.dfy`):
  - the byte layout of `WriteInt32BE` followed by `WriteInt32LE`;
  - the MIDI header read (tag, big-endian length, payload);
  - a write-then-read round trip for every typed value in both explicit
    byte orders.

Exceptions are the `Error` datatype in `errors.dfy`. A method that can throw
returns a `Result` (with a value) or an `Outcome` (without one). A method
that throws has changed only what its contract says it has: for example, a
failed `ReadInt32` still advances `Position` by the bytes it consumed.

## Model

| member | source | states |
|---|---|---|
| Words.PlatformOrder | BinaryIO/ByteOrderUtility.cs:17 | BitConverter lays words out least-significant byte first exactly when IsLittleEndian holds |
| Words.EncodeUInt16 | BinaryIO/BinaryWriter.cs:100 | GetBytes(ushort) at order o yields exactly two bytes; which byte holds which bits is stated by Words.EncodeUInt16Value |
| Words.EncodeUInt16Value | BinaryIO/BinaryWriter.cs:100 | GetBytes(ushort) is least-significant byte first at little-endian order and most-significant first at big-endian order: read in that order, the two bytes have the value of x |
| Words.DecodeUInt16 | BinaryIO/BinaryReader.cs:120-126 | GetBytes at order o of the value ToUInt16 decodes at o gives the same two bytes back (every two-byte string is some value's layout) |
| Words.DecodeEncodeUInt16 | BinaryIO/BinaryWriter.cs:98-101 | decoding the two bytes GetBytes produced at order o gives the word back |
| Words.EncodeUInt16Opposite | BinaryIO/BinaryWriter.cs:106-117 | the big-endian layout of a ushort is its little-endian layout reversed |
| Words.EncodeUInt32 | BinaryIO/BinaryWriter.cs:150 | GetBytes(uint) at order o yields exactly four bytes; which byte holds which bits is stated by Words.EncodeUInt32Value |
| Words.EncodeUInt32Value | BinaryIO/BinaryWriter.cs:150 | GetBytes(uint) is least-significant byte first at little-endian order and most-significant first at big-endian order: read in that order, the four bytes have the value of x |
| Words.DecodeUInt32 | BinaryIO/BinaryReader.cs:181-187 | GetBytes at order o of the value ToUInt32 decodes at o gives the same four bytes back (every four-byte string is some value's layout) |
| Words.DecodeEncodeUInt32 | BinaryIO/BinaryWriter.cs:148-151 | decoding the four bytes GetBytes produced at order o gives the word back |
| Words.EncodeUInt32Opposite | BinaryIO/BinaryWriter.cs:156-167 | the big-endian layout of a uint is its little-endian layout reversed |
| Words.EncodeUInt64 | BinaryIO/BinaryWriter.cs:200 | GetBytes(ulong) at order o yields exactly eight bytes; which byte holds which bits is stated by Words.EncodeUInt64Value |
| Words.EncodeUInt64Value | BinaryIO/BinaryWriter.cs:200 | GetBytes(ulong) is least-significant byte first at little-endian order and most-significant first at big-endian order: read in that order, the eight bytes have the value of x |
| Words.DecodeUInt64 | BinaryIO/BinaryReader.cs:241-247 | GetBytes at order o of the value ToUInt64 decodes at o gives the same eight bytes back (every eight-byte string is some value's layout) |
| Words.DecodeEncodeUInt64 | BinaryIO/BinaryWriter.cs:198-201 | decoding the eight bytes GetBytes produced at order o gives the word back |
| Words.EncodeUInt64Opposite | BinaryIO/BinaryWriter.cs:206-217 | the big-endian layout of a ulong is its little-endian layout reversed |
| Bytes.NatOfLeBytesOfNat | BinaryIO/ByteOrderUtility.cs:35-41 | writing an unsigned value below 256^k as k little-endian bytes and reading them back gives the value (the base of the unchecked casts) |
| Bytes.LeBytesOfNatOfLeBytes | BinaryIO/ByteOrderUtility.cs:35-41 | reading k little-endian bytes as a value and writing it back gives the same bytes |
| Bytes.TwosComplementBytes | BinaryIO/ByteOrderUtility.cs:35-41 | the k-byte pattern of a signed value reads back as the value plus 256^k when negative, else the value |
| Bytes.SignedOfBytes | BinaryIO/ByteOrderUtility.cs:35-41 | every k-byte pattern is the pattern of exactly one value in the signed k-byte range |
| Bytes.SignedOfTwosComplementBytes | BinaryIO/ByteOrderUtility.cs:35-41 | reinterpreting the pattern of a signed value as signed gives the value back |
| Numerics.SByteToByte | BinaryIO/BinaryWriter.cs:58-61 | the byte written for an sbyte is its one-byte two's-complement pattern |
| Numerics.ByteToSByte | BinaryIO/BinaryReader.cs:78-84 | the sbyte read from a byte is the value whose one-byte pattern is that byte |
| Numerics.ByteToSByteInverse | BinaryIO/BinaryReader.cs:78-84 | the sbyte and byte reinterpretations are inverse to each other |
| Numerics.Int16ToUInt16 | BinaryIO/ByteOrderUtility.cs:35 | unchecked((ushort)x) is the word whose little-endian bytes are the 2-byte two's-complement pattern of x |
| Numerics.Int16ToUInt16Value | BinaryIO/ByteOrderUtility.cs:35 | unchecked((ushort)x) is x modulo 2^16: x itself when x is non-negative, x + 2^16 otherwise |
| Numerics.UInt16ToInt16 | BinaryIO/ByteOrderUtility.cs:35 | the reverse cast: the signed value whose 2-byte two's-complement pattern is the word's little-endian bytes |
| Numerics.Int16Casts | BinaryIO/ByteOrderUtility.cs:35 | the two unchecked casts are inverse to each other in both directions |
| Numerics.EncodeInt16 | BinaryIO/BinaryWriter.cs:73-76 | GetBytes of an int16 at little-endian order is its 2-byte two's-complement pattern, and at big-endian order that pattern reversed |
| Numerics.DecodeInt16 | BinaryIO/BinaryReader.cs:90-96 | GetBytes at order o of the value ToInt16 decodes at o gives the same two bytes back (every two-byte string is some value's layout) |
| Numerics.DecodeEncodeInt16 | BinaryIO/BinaryWriter.cs:73-76 | decoding the bytes GetBytes produced at order o gives the value back |
| Numerics.Int32ToUInt32 | BinaryIO/ByteOrderUtility.cs:41 | unchecked((uint)x) is the word whose little-endian bytes are the 4-byte two's-complement pattern of x |
| Numerics.Int32ToUInt32Value | BinaryIO/ByteOrderUtility.cs:41 | unchecked((uint)x) is x modulo 2^32: x itself when x is non-negative, x + 2^32 otherwise |
| Numerics.UInt32ToInt32 | BinaryIO/ByteOrderUtility.cs:41 | the reverse cast: the signed value whose 4-byte two's-complement pattern is the word's little-endian bytes |
| Numerics.Int32Casts | BinaryIO/ByteOrderUtility.cs:41 | the two unchecked casts are inverse to each other in both directions |
| Numerics.EncodeInt32 | BinaryIO/BinaryWriter.cs:123-126 | GetBytes of an int32 at little-endian order is its 4-byte two's-complement pattern, and at big-endian order that pattern reversed |
| Numerics.DecodeInt32 | BinaryIO/BinaryReader.cs:151-157 | GetBytes at order o of the value ToInt32 decodes at o gives the same four bytes back (every four-byte string is some value's layout) |
| Numerics.DecodeEncodeInt32 | BinaryIO/BinaryWriter.cs:123-126 | decoding the bytes GetBytes produced at order o gives the value back |
| Numerics.Int64ToUInt64 | BinaryIO/ByteOrderUtility.cs:64-65 | unchecked((ulong)x) is the word whose little-endian bytes are the 8-byte two's-complement pattern of x |
| Numerics.Int64ToUInt64Value | BinaryIO/ByteOrderUtility.cs:64-65 | unchecked((ulong)x) is x modulo 2^64: x itself when x is non-negative, x + 2^64 otherwise |
| Numerics.UInt64ToInt64 | BinaryIO/ByteOrderUtility.cs:64-65 | the reverse cast: the signed value whose 8-byte two's-complement pattern is the word's little-endian bytes |
| Numerics.Int64Casts | BinaryIO/ByteOrderUtility.cs:64-65 | the two unchecked casts are inverse to each other in both directions |
| Numerics.EncodeInt64 | BinaryIO/BinaryWriter.cs:173-176 | GetBytes of an int64 at little-endian order is its 8-byte two's-complement pattern, and at big-endian order that pattern reversed |
| Numerics.DecodeInt64 | BinaryIO/BinaryReader.cs:211-217 | GetBytes at order o of the value ToInt64 decodes at o gives the same eight bytes back (every eight-byte string is some value's layout) |
| Numerics.DecodeEncodeInt64 | BinaryIO/BinaryWriter.cs:173-176 | decoding the bytes GetBytes produced at order o gives the value back |
| Numerics.EncodeSingle | BinaryIO/BinaryWriter.cs:224 | GetBytes(float) at order o yields exactly four bytes, the layout of the bit pattern |
| Numerics.DecodeSingle | BinaryIO/BinaryReader.cs:271-277 | GetBytes at order o of the value ToSingle decodes at o gives the same four bytes back (every four-byte string is some value's layout), on bit patterns |
| Numerics.DecodeEncodeSingle | BinaryIO/BinaryWriter.cs:222-225 | decoding the four bytes of a float gives back its bit pattern |
| Numerics.EncodeDouble | BinaryIO/BinaryWriter.cs:248 | GetBytes(double) at order o yields exactly eight bytes, the layout of the bit pattern |
| Numerics.DecodeDouble | BinaryIO/BinaryReader.cs:302-308 | GetBytes at order o of the value ToDouble decodes at o gives the same eight bytes back (every eight-byte string is some value's layout), on bit patterns |
| Numerics.DecodeEncodeDouble | BinaryIO/BinaryWriter.cs:246-249 | decoding the eight bytes of a double gives back its bit pattern |
| ByteOrderUtility.SwapUInt16 | BinaryIO/ByteOrderUtility.cs:23 | the little-endian bytes of Swap(x) are those of x reversed |
| ByteOrderUtility.SwapUInt16Involution | BinaryIO/ByteOrderUtility.cs:23 | swapping twice gives the word back |
| ByteOrderUtility.SwapUInt16Order | BinaryIO/ByteOrderUtility.cs:23 | Swap(x) laid out at order o equals x laid out at the opposite order, and swapping a word decoded at o gives the word decoded at the opposite order |
| ByteOrderUtility.SwapUInt32 | BinaryIO/ByteOrderUtility.cs:29 | the little-endian bytes of Swap(x) are those of x reversed, with the four terms added as the source does |
| ByteOrderUtility.SwapUInt32TermsDisjoint | BinaryIO/ByteOrderUtility.cs:29 | the four added terms share no bit, so the addition never carries and equals their bitwise or |
| ByteOrderUtility.SwapUInt32Involution | BinaryIO/ByteOrderUtility.cs:29 | swapping twice gives the word back |
| ByteOrderUtility.SwapUInt32Order | BinaryIO/ByteOrderUtility.cs:29 | Swap exchanges the two byte orders, for encoding and for decoding |
| ByteOrderUtility.SwapUInt64 | BinaryIO/ByteOrderUtility.cs:47-58 | the little-endian bytes of Swap(x) are those of x reversed: output byte i is input byte 7 - i |
| ByteOrderUtility.SwapUInt64Involution | BinaryIO/ByteOrderUtility.cs:47-58 | swapping twice gives the word back |
| ByteOrderUtility.SwapUInt64Order | BinaryIO/ByteOrderUtility.cs:47-58 | Swap exchanges the two byte orders, for encoding and for decoding |
| ByteOrderUtility.SwapInt16 | BinaryIO/ByteOrderUtility.cs:35 | the 2-byte two's-complement pattern of Swap(x) is that of x reversed |
| ByteOrderUtility.SwapInt16Pattern | BinaryIO/ByteOrderUtility.cs:35 | the signed swap is the unsigned swap of the unchecked bit pattern |
| ByteOrderUtility.SwapInt16Involution | BinaryIO/ByteOrderUtility.cs:35 | swapping twice gives the value back, negative values included |
| ByteOrderUtility.SwapInt16Order | BinaryIO/ByteOrderUtility.cs:35 | Swap exchanges the two byte orders of a signed value, for encoding and for decoding |
| ByteOrderUtility.SwapInt16EncodeOrder | BinaryIO/ByteOrderUtility.cs:35 | Swap(x) laid out at order o equals x laid out at the opposite order |
| ByteOrderUtility.SwapInt16DecodeOrder | BinaryIO/ByteOrderUtility.cs:35 | swapping a value decoded at order o gives the value decoded at the opposite order |
| ByteOrderUtility.SwapInt32 | BinaryIO/ByteOrderUtility.cs:41 | the 4-byte two's-complement pattern of Swap(x) is that of x reversed |
| ByteOrderUtility.SwapInt32Pattern | BinaryIO/ByteOrderUtility.cs:41 | the signed swap is the unsigned swap of the unchecked bit pattern |
| ByteOrderUtility.SwapInt32Involution | BinaryIO/ByteOrderUtility.cs:41 | swapping twice gives the value back, negative values included |
| ByteOrderUtility.SwapInt32Order | BinaryIO/ByteOrderUtility.cs:41 | Swap exchanges the two byte orders of a signed value, for encoding and for decoding |
| ByteOrderUtility.SwapInt32EncodeOrder | BinaryIO/ByteOrderUtility.cs:41 | Swap(x) laid out at order o equals x laid out at the opposite order |
| ByteOrderUtility.SwapInt32DecodeOrder | BinaryIO/ByteOrderUtility.cs:41 | swapping a value decoded at order o gives the value decoded at the opposite order |
| ByteOrderUtility.SwapInt64 | BinaryIO/ByteOrderUtility.cs:64-65 | the 8-byte two's-complement pattern of Swap(x) is that of x reversed |
| ByteOrderUtility.SwapInt64Pattern | BinaryIO/ByteOrderUtility.cs:64-65 | the signed swap is the unsigned swap of the unchecked bit pattern |
| ByteOrderUtility.SwapInt64Involution | BinaryIO/ByteOrderUtility.cs:64-65 | swapping twice gives the value back, negative values included |
| ByteOrderUtility.SwapInt64Order | BinaryIO/ByteOrderUtility.cs:64-65 | Swap exchanges the two byte orders of a signed value, for encoding and for decoding |
| ByteOrderUtility.SwapInt64EncodeOrder | BinaryIO/ByteOrderUtility.cs:64-65 | Swap(x) laid out at order o equals x laid out at the opposite order |
| ByteOrderUtility.SwapInt64DecodeOrder | BinaryIO/ByteOrderUtility.cs:64-65 | swapping a value decoded at order o gives the value decoded at the opposite order |
| ByteOrderUtility.SwapSingle | BinaryIO/ByteOrderUtility.cs:73-78 | the four bytes of Swap(x) are those of x reversed; the bit pattern is moved, never the numeric value |
| ByteOrderUtility.SwapSingleInvolution | BinaryIO/ByteOrderUtility.cs:73-78 | swapping twice gives the same bit pattern back |
| ByteOrderUtility.SwapSingleOrder | BinaryIO/ByteOrderUtility.cs:73-78 | Swap exchanges the two byte orders of a float, for encoding and for decoding |
| ByteOrderUtility.SwapDouble | BinaryIO/ByteOrderUtility.cs:84-89 | the eight bytes of Swap(x) are those of x reversed; the bit pattern is moved, never the numeric value |
| ByteOrderUtility.SwapDoubleInvolution | BinaryIO/ByteOrderUtility.cs:84-89 | swapping twice gives the same bit pattern back |
| ByteOrderUtility.SwapDoubleOrder | BinaryIO/ByteOrderUtility.cs:84-89 | Swap exchanges the two byte orders of a double, for encoding and for decoding |
| ByteOrderUtility.DecimalBytes | BinaryIO/ByteOrderUtility.cs:118-124 | a decimal occupies sixteen bytes: the word at offset 0, then the word at offset 8 |
| ByteOrderUtility.SwapDecimal | BinaryIO/ByteOrderUtility.cs:96-103 | the sixteen bytes of Swap(x) are those of x reversed, on a little-endian and on a big-endian platform |
| ByteOrderUtility.SwapDecimalReverses | BinaryIO/ByteOrderUtility.cs:96-103 | swapping each word and exchanging the two words reverses the sixteen bytes at either order |
| ByteOrderUtility.SwapDecimalInvolution | BinaryIO/ByteOrderUtility.cs:96-103 | swapping twice gives the same two words back |
| BlockArgs.CheckBlock | BinaryIO/BinaryCollectionReader.cs:53-60 | the block arguments are accepted exactly when startIndex is inside the buffer, length is non-negative and the range ends inside the buffer; every refusal is an ArgumentOutOfRange |
| BlockArgs.CheckBlockRejectsEndIndex | BinaryIO/BinaryWriter.cs:30-31 | a start index equal to the buffer length is refused even for an empty range |
| BlockArgs.AddInt32 | BinaryIO/BinaryWriter.cs:34 | unchecked int addition stays in the int range and differs from the true sum by 0 or 2^32 |
| BlockArgs.CheckBlockAsWritten | BinaryIO/BinaryWriter.cs:28-35 | the checks as evaluated with a wrapping sum: an accepted range has an in-buffer start and a length no longer than the buffer, and the result agrees with CheckBlock for buffers of at most 2^30 bytes |
| BlockArgs.LoopCountAsWritten | BinaryIO/BinaryCollectionReader.cs:62 | with non-negative arguments the copy loop never runs more than length times |
| BlockArgs.CheckBlockOverflowExample | BinaryIO/BinaryCollectionReader.cs:59-62 | a range that runs past the end of a 2^30 + 1 byte buffer passes the as-written checks and moves no byte, while the corrected check refuses it |
| Text.AsciiGetString | BinaryIODemo/Program.cs:14 | ASCII decoding maps each byte below 0x80 to its character and every other byte to '?' |
| Text.AsciiGetBytes | BinaryIODemo/Program.cs:14 | ASCII encoding maps each character below 0x80 to its byte and every other character to 0x3F |
| Text.AsciiRoundTrip | BinaryIODemo/Program.cs:14 | ASCII text survives encoding then decoding |
| Reader.BinaryCollectionReader.constructor | BinaryIO/BinaryCollectionReader.cs:20-23 | a new reader is positioned at the start of the collection, with Position 0 |
| Reader.BinaryCollectionReader.Read | BinaryIO/BinaryCollectionReader.cs:35-43 | on a non-exhausted collection returns the next byte (0..255) and advances Position by 1; on an exhausted one returns -1 and leaves Position unchanged |
| Reader.BinaryCollectionReader.ReadBlock | BinaryIO/BinaryCollectionReader.cs:51-71 | a null buffer or a failing argument check throws before anything moves; otherwise copies min(length, remaining) bytes into buffer[startIndex..], leaves the rest of the buffer as it was, advances Position by the count and returns it |
| Reader.BinaryCollectionReader.ReadByte | BinaryIO/BinaryReader.cs:50-56 | the next byte, or "Unexpected end of stream" on an exhausted collection; Position advances by the bytes consumed |
| Reader.BinaryCollectionReader.ReadSByte | BinaryIO/BinaryReader.cs:78-84 | the next byte reinterpreted as an sbyte, or "Unexpected end of stream" |
| Reader.BinaryCollectionReader.ReadBytes | BinaryIO/BinaryReader.cs:63-72 | succeeds exactly when count bytes remain and then returns a fresh array holding them; Position advances by min(count, remaining) even when it fails |
| Reader.BinaryCollectionReader.ReadFixedString | BinaryIO/BinaryReader.cs:333-339 | the encoding's decoding of the next byteLength bytes, or "Unexpected end of stream"; no bytes beyond byteLength are consumed |
| Reader.BinaryCollectionReader.ReadScratch | BinaryIO/BinaryReader.cs:92-94 | a fresh buffer of width bytes filled by one block read: the next width bytes when that many remain, otherwise UnexpectedEndOfStream; Position advances by what the block read consumed |
| Reader.BinaryCollectionReader.ReadInt16 | BinaryIO/BinaryReader.cs:90-96 | the next 2 bytes decoded at the platform's byte order, or "Unexpected end of stream" when fewer remain; Position advances by the bytes consumed either way |
| Reader.BinaryCollectionReader.ReadInt16BE | BinaryIO/BinaryReader.cs:102-105 | the next 2 bytes decoded most-significant first on either platform, or "Unexpected end of stream" |
| Reader.BinaryCollectionReader.ReadInt16LE | BinaryIO/BinaryReader.cs:111-114 | the next 2 bytes decoded least-significant first on either platform, or "Unexpected end of stream" |
| Reader.BinaryCollectionReader.ReadUInt16 | BinaryIO/BinaryReader.cs:120-126 | the next 2 bytes decoded at the platform's byte order, or "Unexpected end of stream" when fewer remain; Position advances by the bytes consumed either way |
| Reader.BinaryCollectionReader.ReadUInt16BE | BinaryIO/BinaryReader.cs:132-135 | the next 2 bytes decoded most-significant first on either platform, or "Unexpected end of stream" |
| Reader.BinaryCollectionReader.ReadUInt16LE | BinaryIO/BinaryReader.cs:141-144 | the next 2 bytes decoded least-significant first on either platform, or "Unexpected end of stream" |
| Reader.BinaryCollectionReader.ReadInt32 | BinaryIO/BinaryReader.cs:151-157 | the next 4 bytes decoded at the platform's byte order, or "Unexpected end of stream" when fewer remain; Position advances by the bytes consumed either way |
| Reader.BinaryCollectionReader.ReadInt32BE | BinaryIO/BinaryReader.cs:163-166 | the next 4 bytes decoded most-significant first on either platform, or "Unexpected end of stream" |
| Reader.BinaryCollectionReader.ReadInt32LE | BinaryIO/BinaryReader.cs:172-175 | the next 4 bytes decoded least-significant first on either platform, or "Unexpected end of stream" |
| Reader.BinaryCollectionReader.ReadUInt32 | BinaryIO/BinaryReader.cs:181-187 | the next 4 bytes decoded at the platform's byte order, or "Unexpected end of stream" when fewer remain; Position advances by the bytes consumed either way |
| Reader.BinaryCollectionReader.ReadUInt32BE | BinaryIO/BinaryReader.cs:193-196 | the next 4 bytes decoded most-significant first on either platform, or "Unexpected end of stream" |
| Reader.BinaryCollectionReader.ReadUInt32LE | BinaryIO/BinaryReader.cs:202-205 | the next 4 bytes decoded least-significant first on either platform, or "Unexpected end of stream" |
| Reader.BinaryCollectionReader.ReadInt64 | BinaryIO/BinaryReader.cs:211-217 | the next 8 bytes decoded at the platform's byte order, or "Unexpected end of stream" when fewer remain; Position advances by the bytes consumed either way |
| Reader.BinaryCollectionReader.ReadInt64BE | BinaryIO/BinaryReader.cs:223-226 | the next 8 bytes decoded most-significant first on either platform, or "Unexpected end of stream" |
| Reader.BinaryCollectionReader.ReadInt64LE | BinaryIO/BinaryReader.cs:232-235 | the next 8 bytes decoded least-significant first on either platform, or "Unexpected end of stream" |
| Reader.BinaryCollectionReader.ReadUInt64 | BinaryIO/BinaryReader.cs:241-247 | the next 8 bytes decoded at the platform's byte order, or "Unexpected end of stream" when fewer remain; Position advances by the bytes consumed either way |
| Reader.BinaryCollectionReader.ReadUInt64BE | BinaryIO/BinaryReader.cs:253-256 | the next 8 bytes decoded most-significant first on either platform, or "Unexpected end of stream" |
| Reader.BinaryCollectionReader.ReadUInt64LE | BinaryIO/BinaryReader.cs:262-265 | the next 8 bytes decoded least-significant first on either platform, or "Unexpected end of stream" |
| Reader.BinaryCollectionReader.ReadSingle | BinaryIO/BinaryReader.cs:271-277 | the next 4 bytes decoded at the platform's byte order, or "Unexpected end of stream" when fewer remain; Position advances by the bytes consumed either way |
| Reader.BinaryCollectionReader.ReadSingleBE | BinaryIO/BinaryReader.cs:283-286 | the next 4 bytes decoded most-significant first on either platform, or "Unexpected end of stream" |
| Reader.BinaryCollectionReader.ReadSingleLE | BinaryIO/BinaryReader.cs:292-295 | the next 4 bytes decoded least-significant first on either platform, or "Unexpected end of stream" |
| Reader.BinaryCollectionReader.ReadDouble | BinaryIO/BinaryReader.cs:302-308 | the next 8 bytes decoded at the platform's byte order, or "Unexpected end of stream" when fewer remain; Position advances by the bytes consumed either way |
| Reader.BinaryCollectionReader.ReadDoubleBE | BinaryIO/BinaryReader.cs:314-317 | the next 8 bytes decoded most-significant first on either platform, or "Unexpected end of stream" |
| Reader.BinaryCollectionReader.ReadDoubleLE | BinaryIO/BinaryReader.cs:323-326 | the next 8 bytes decoded least-significant first on either platform, or "Unexpected end of stream" |
| Writer.NewBytes | BinaryIO/BinaryWriter.cs:75 | a fresh array holding exactly the given bytes, as GetBytes returns |
| Writer.BinaryCollectionWriter.constructor | BinaryIO/BinaryCollectionWriter.cs:19-22 | the writer keeps the caller's collection as it is: later writes go after what it already holds |
| Writer.BinaryCollectionWriter.Write | BinaryIO/BinaryCollectionWriter.cs:34-37 | appends exactly one byte at the end of the collection |
| Writer.BinaryCollectionWriter.WriteBlock | BinaryIO/BinaryWriter.cs:26-38 | a null buffer or a failing argument check throws and appends nothing; otherwise appends buffer[startIndex..startIndex + length] in order |
| Writer.BinaryCollectionWriter.WriteByte | BinaryIO/BinaryWriter.cs:52-53 | appends the byte, exactly as Write(byte) |
| Writer.BinaryCollectionWriter.WriteSbyte | BinaryIO/BinaryWriter.cs:58-61 | appends the two's-complement byte of the sbyte |
| Writer.BinaryCollectionWriter.WriteBytes | BinaryIO/BinaryWriter.cs:66-67 | a null array throws NullReference, an empty array throws ArgumentOutOfRange("startIndex"); otherwise the whole array is appended |
| Writer.BinaryCollectionWriter.WriteString | BinaryIO/BinaryWriter.cs:272-277 | appends only the encoded bytes, with no length prefix; text that encodes to no bytes throws as WriteBytes does |
| Writer.BinaryCollectionWriter.WriteInt16 | BinaryIO/BinaryWriter.cs:73-76 | appends exactly the 2 bytes of the value at the platform's byte order |
| Writer.BinaryCollectionWriter.WriteInt16BE | BinaryIO/BinaryWriter.cs:81-84 | appends the 2 bytes of the value most-significant first on either platform |
| Writer.BinaryCollectionWriter.WriteInt16LE | BinaryIO/BinaryWriter.cs:89-92 | appends the 2 bytes of the value least-significant first on either platform |
| Writer.BinaryCollectionWriter.WriteUInt16 | BinaryIO/BinaryWriter.cs:98-101 | appends exactly the 2 bytes of the value at the platform's byte order |
| Writer.BinaryCollectionWriter.WriteUInt16BE | BinaryIO/BinaryWriter.cs:106-109 | appends the 2 bytes of the value most-significant first on either platform |
| Writer.BinaryCollectionWriter.WriteUInt16LE | BinaryIO/BinaryWriter.cs:114-117 | appends the 2 bytes of the value least-significant first on either platform |
| Writer.BinaryCollectionWriter.WriteInt32 | BinaryIO/BinaryWriter.cs:123-126 | appends exactly the 4 bytes of the value at the platform's byte order |
| Writer.BinaryCollectionWriter.WriteInt32BE | BinaryIO/BinaryWriter.cs:131-134 | appends the 4 bytes of the value most-significant first on either platform |
| Writer.BinaryCollectionWriter.WriteInt32LE | BinaryIO/BinaryWriter.cs:139-142 | appends the 4 bytes of the value least-significant first on either platform |
| Writer.BinaryCollectionWriter.WriteUInt32 | BinaryIO/BinaryWriter.cs:148-151 | appends exactly the 4 bytes of the value at the platform's byte order |
| Writer.BinaryCollectionWriter.WriteUInt32BE | BinaryIO/BinaryWriter.cs:156-159 | appends the 4 bytes of the value most-significant first on either platform |
| Writer.BinaryCollectionWriter.WriteUInt32LE | BinaryIO/BinaryWriter.cs:164-167 | appends the 4 bytes of the value least-significant first on either platform |
| Writer.BinaryCollectionWriter.WriteInt64 | BinaryIO/BinaryWriter.cs:173-176 | appends exactly the 8 bytes of the value at the platform's byte order |
| Writer.BinaryCollectionWriter.WriteInt64BE | BinaryIO/BinaryWriter.cs:181-184 | appends the 8 bytes of the value most-significant first on either platform |
| Writer.BinaryCollectionWriter.WriteInt64LE | BinaryIO/BinaryWriter.cs:189-192 | appends the 8 bytes of the value least-significant first on either platform |
| Writer.BinaryCollectionWriter.WriteUInt64 | BinaryIO/BinaryWriter.cs:198-201 | appends exactly the 8 bytes of the value at the platform's byte order |
| Writer.BinaryCollectionWriter.WriteUInt64BE | BinaryIO/BinaryWriter.cs:206-209 | appends the 8 bytes of the value most-significant first on either platform |
| Writer.BinaryCollectionWriter.WriteUInt64LE | BinaryIO/BinaryWriter.cs:214-217 | appends the 8 bytes of the value least-significant first on either platform |
| Writer.BinaryCollectionWriter.WriteSingle | BinaryIO/BinaryWriter.cs:222-225 | appends exactly the 4 bytes of the value at the platform's byte order |
| Writer.BinaryCollectionWriter.WriteSingleBE | BinaryIO/BinaryWriter.cs:230-233 | appends the 4 bytes of the value most-significant first on either platform |
| Writer.BinaryCollectionWriter.WriteSingleLE | BinaryIO/BinaryWriter.cs:238-241 | appends the 4 bytes of the value least-significant first on either platform |
| Writer.BinaryCollectionWriter.WriteDouble | BinaryIO/BinaryWriter.cs:246-249 | appends exactly the 8 bytes of the value at the platform's byte order |
| Writer.BinaryCollectionWriter.WriteDoubleBE | BinaryIO/BinaryWriter.cs:254-257 | appends the 8 bytes of the value most-significant first on either platform |
| Writer.BinaryCollectionWriter.WriteDoubleLE | BinaryIO/BinaryWriter.cs:262-265 | appends the 8 bytes of the value least-significant first on either platform |
| Scenarios.ByteOrderExample | BinaryIO/BinaryWriter.cs:131-142 | WriteInt32BE(0x01020304) then WriteInt32LE(0x01020304) on an empty collection yields 01 02 03 04 04 03 02 01 on either platform |
| Scenarios.Int32Layout | BinaryIO/BinaryWriter.cs:123-126 | the little-endian two's-complement bytes of 0x01020304 are 04 03 02 01 |
| Scenarios.ReadMidiHeader | BinaryIODemo/Program.cs:14-20 | reading the tag with ReadFixedString(4, ASCII), the length with ReadInt32BE and the payload with ReadBytes yields the header payload, or the first exception the client meets |
| Scenarios.ReadLengthAndPayload | BinaryIODemo/Program.cs:18-20 | past the tag, ReadInt32BE then ReadBytes(len) yields the len bytes after the length, or the first exception |
| Scenarios.MidiHeaderOfBytes | BinaryIODemo/Program.cs:14-20 | a header laid out as the ASCII tag, the big-endian length and the payload reads back as the payload, whatever follows it |
| Scenarios.WriteMidiHeader | BinaryIO/BinaryWriter.cs:26-67 | WriteString("MThd", ASCII), WriteInt32BE(len) and WriteBytes(payload) lay a header out as tag, big-endian length, payload; the tag write always succeeds, and an empty payload makes WriteBytes fail with ArgumentOutOfRange("startIndex") after tag and length are written |
| Scenarios.RoundTripInt16 | BinaryIO/BinaryWriter.cs:81-84 | a value written with WriteInt16BE then WriteInt16LE reads back unchanged with ReadInt16BE then ReadInt16LE, on either platform |
| Scenarios.RoundTripUInt16 | BinaryIO/BinaryWriter.cs:106-109 | a value written with WriteUInt16BE then WriteUInt16LE reads back unchanged with ReadUInt16BE then ReadUInt16LE, on either platform |
| Scenarios.RoundTripInt32 | BinaryIO/BinaryWriter.cs:131-134 | a value written with WriteInt32BE then WriteInt32LE reads back unchanged with ReadInt32BE then ReadInt32LE, on either platform |
| Scenarios.RoundTripUInt32 | BinaryIO/BinaryWriter.cs:156-159 | a value written with WriteUInt32BE then WriteUInt32LE reads back unchanged with ReadUInt32BE then ReadUInt32LE, on either platform |
| Scenarios.RoundTripInt64 | BinaryIO/BinaryWriter.cs:181-184 | a value written with WriteInt64BE then WriteInt64LE reads back unchanged with ReadInt64BE then ReadInt64LE, on either platform |
| Scenarios.RoundTripUInt64 | BinaryIO/BinaryWriter.cs:206-209 | a value written with WriteUInt64BE then WriteUInt64LE reads back unchanged with ReadUInt64BE then ReadUInt64LE, on either platform |
| Scenarios.RoundTripSingle | BinaryIO/BinaryWriter.cs:230-233 | a value written with WriteSingleBE then WriteSingleLE reads back unchanged with ReadSingleBE then ReadSingleLE, on either platform |
| Scenarios.RoundTripDouble | BinaryIO/BinaryWriter.cs:254-257 | a value written with WriteDoubleBE then WriteDoubleLE reads back unchanged with ReadDoubleBE then ReadDoubleLE, on either platform |

## Left out

- `IsLittleEndian` (ByteOrderUtility and BinaryReader): the platform's byte order is not a function. It is the `littleEndian` constant of each reader and writer and a parameter of the layout functions, and both values are proved.
- `Close` on both classes: lifecycle and disposal are not modelled. The reader's `Close` disposes an enumerator the model does not represent; the writer's does nothing. Both are methods that change no state, and use after close is out of scope.
- Text encodings: an `Encoding` is a pair of caller-supplied functions. The UTF-8 default that `ReadFixedString` and `WriteString` use when no encoding is passed is not modelled. ASCII is defined only for the scenarios.
- `BinaryStreamReader` and `BinaryStreamWriter` are not part of this model. Their behaviour belongs to `System.IO.Stream`.
- Floating-point and decimal values are bit patterns only. There is no arithmetic, NaN canonicalisation or decimal validity.
- BitConverter internals: only the byte layout it produces at each byte order is specified.
- Reader.BinaryCollectionReader.ReadBytes: requires `count >= 0`. A negative count fails in the runtime's array allocation, which is outside the library.
- Reader.BinaryCollectionReader.ReadFixedString: requires `byteLength >= 0`, for the same reason.
- Reader.BinaryCollectionReader: the collection is a sequence fixed at construction. Changes to the underlying collection during enumeration are not modelled, and neither are unordered collections.
- Writer.BinaryCollectionWriter: the caller's collection is the `output` field. Aliasing between that collection and other references the caller holds is not modelled, and `Add` is taken to append in order.
- `Position` is an unbounded integer. The 64-bit `long` of the source cannot overflow within any collection a program can hold.
- Arguments typed `int` in the source (`startIndex`, `length`, `count`) are unbounded integers in the reader and writer, which use the corrected check `BlockArgs.CheckBlock`. The 32-bit evaluation is modelled separately; see Findings.
- Words.EncodeUInt16: the contract states the byte count only. The little-endian meaning of the layout is the separate lemma Words.EncodeUInt16Value, kept out of the function's contract so that every proof that uses the encoding does not carry the arithmetic.
- Words.EncodeUInt32: the contract states the byte count only. The layout's value is Words.EncodeUInt32Value, for the same reason.
- Words.EncodeUInt64: the contract states the byte count only. The layout's value is Words.EncodeUInt64Value, for the same reason.
- Null collections and null text: `seq` and `string` values cannot be null. The NullReferenceException that `new BinaryCollectionReader(null)` meets at `GetEnumerator`, the one every `Write` of a `BinaryCollectionWriter` built over null meets at `Add`, and the ArgumentNullException of `WriteString(null, encoding)` from `GetBytes` are not modelled. Null byte arrays are modelled.
- The demo program's track loop and console output are not modelled. Only its header reads are a scenario.

## Findings

| source | as written | input that shows it | evidently intended | confidence | as-written member | corrected member |
|---|---|---|---|---|---|---|
| BinaryIO/BinaryCollectionReader.cs:59, BinaryIO/BinaryCollectionReader.cs:62, BinaryIO/BinaryWriter.cs:34, BinaryIO/BinaryWriter.cs:36 | `buffer.Length < startIndex + length` adds two `int`s without overflow checking, so the sum can wrap negative and the check passes; the copy loop bound `startIndex + length` wraps the same way | buffer of 2^30 + 1 bytes, startIndex = 2^30, length = 2^30 + 1: each argument passes its own check, the sum wraps to a negative int, no exception is thrown and no byte is copied | refuse any range whose end `startIndex + length` lies beyond the buffer, computed without overflow | not executed | BlockArgs.CheckBlockAsWritten, BlockArgs.CheckBlockOverflowExample | BlockArgs.CheckBlock |
