/**
 * Text encodings are collaborators the reader and writer call but do not
 * implement: an encoding is the caller's pair of conversions.
 */
module Text {
  import opened Bytes

  /** Encoding.GetString and Encoding.GetBytes. */
  datatype Encoding = Encoding(GetString: seq<bv8> -> string, GetBytes: string -> seq<bv8>)

  /** ASCII decoding: bytes below 0x80 are their character, every other byte is '?'. */
  function AsciiGetString(s: seq<bv8>): (t: string)
    ensures |t| == |s|
    ensures forall i :: 0 <= i < |s| ==> (s[i] < 0x80 ==> t[i] as int == s[i] as int) && (s[i] >= 0x80 ==> t[i] == '?')
  {
    seq(|s|, i requires 0 <= i < |s| => if s[i] < 0x80 then (s[i] as int) as char else '?')
  }

  /** ASCII encoding: characters below 0x80 are their byte, every other character is '?'. */
  function AsciiGetBytes(t: string): (s: seq<bv8>)
    ensures |s| == |t|
    ensures forall i :: 0 <= i < |t| ==> (t[i] as int < 0x80 ==> s[i] as int == t[i] as int) && (t[i] as int >= 0x80 ==> s[i] == 0x3F)
  {
    ByteOfValues();
    seq(|t|, i requires 0 <= i < |t| => if t[i] as int < 0x80 then ByteOf(t[i] as int) else 0x3F)
  }

  const Ascii: Encoding := Encoding(AsciiGetString, AsciiGetBytes)

  /** ASCII text survives encoding and decoding. */
  lemma AsciiRoundTrip(t: string)
    requires forall i :: 0 <= i < |t| ==> t[i] as int < 0x80
    ensures AsciiGetString(AsciiGetBytes(t)) == t
  {
  }
}
