/**
 * The argument checks shared by the collection reader's block Read and the
 * writer's default block Write: a non-null buffer, a start index inside it,
 * a length no longer than it and a range that ends inside it.
 */
module BlockArgs {
  import opened Errors

  /**
   * The error the checks raise for a non-null buffer of length bufferLength,
   * in the order the source tests them, or None when the range is valid.
   * The sum startIndex + length is taken without wrap-around.
   */
  function CheckBlock(bufferLength: nat, startIndex: int, length: int): (e: Option<Error>)
    ensures e == None <==> 0 <= startIndex < bufferLength && 0 <= length && startIndex + length <= bufferLength
    ensures e.Some? ==> e.value.ArgumentOutOfRange?
  {
    if 0 > startIndex || bufferLength <= startIndex then Some(ArgumentOutOfRange("startIndex"))
    else if 0 > length || bufferLength < length then Some(ArgumentOutOfRange("length"))
    else if bufferLength < startIndex + length then Some(ArgumentOutOfRange(""))
    else None
  }

  /** A start index equal to the buffer's length is refused even for an empty range. */
  lemma CheckBlockRejectsEndIndex(bufferLength: nat)
    ensures CheckBlock(bufferLength, bufferLength, 0) == Some(ArgumentOutOfRange("startIndex"))
  {
  }

  // ---------------------------------------------------------------- as written, with 32-bit ints

  predicate IsInt32(n: int)
  {
    -0x8000_0000 <= n < 0x8000_0000
  }

  /** C#'s unchecked int addition: the sum wrapped into the 32-bit range. */
  function AddInt32(a: int, b: int): (r: int)
    requires IsInt32(a) && IsInt32(b)
    ensures IsInt32(r)
    ensures r == a + b || r == a + b - 0x1_0000_0000 || r == a + b + 0x1_0000_0000
  {
    var s := a + b;
    if s >= 0x8000_0000 then s - 0x1_0000_0000
    else if s < -0x8000_0000 then s + 0x1_0000_0000
    else s
  }

  /**
   * The checks exactly as the source evaluates them, with int arguments and a
   * wrapping startIndex + length. They agree with CheckBlock while the buffer
   * is at most 2^30 bytes long, since the sum then cannot leave the int range.
   */
  function CheckBlockAsWritten(bufferLength: int, startIndex: int, length: int): (e: Option<Error>)
    requires 0 <= bufferLength < 0x8000_0000 && IsInt32(startIndex) && IsInt32(length)
    ensures e == None ==> 0 <= startIndex < bufferLength && 0 <= length <= bufferLength
    ensures bufferLength <= 0x4000_0000 ==> e == CheckBlock(bufferLength, startIndex, length)
  {
    if 0 > startIndex || bufferLength <= startIndex then Some(ArgumentOutOfRange("startIndex"))
    else if 0 > length || bufferLength < length then Some(ArgumentOutOfRange("length"))
    else if bufferLength < AddInt32(startIndex, length) then Some(ArgumentOutOfRange(""))
    else None
  }

  /** How many times `for (ic = startIndex + length, i = startIndex; i < ic; ++i)` runs, as written. */
  function LoopCountAsWritten(startIndex: int, length: int): (n: nat)
    requires IsInt32(startIndex) && IsInt32(length)
    ensures 0 <= startIndex && 0 <= length ==> n <= length
  {
    var ic := AddInt32(startIndex, length);
    if startIndex < ic then ic - startIndex else 0
  }

  /**
   * A buffer of 2^30 + 1 bytes, start index 2^30 and length 2^30 + 1: the range
   * runs past the end, but startIndex + length wraps to a negative int, so the
   * last check passes and the loop bound is negative: no exception, no byte moved.
   */
  lemma CheckBlockOverflowExample()
    ensures CheckBlock(0x4000_0001, 0x4000_0000, 0x4000_0001) == Some(ArgumentOutOfRange(""))
    ensures CheckBlockAsWritten(0x4000_0001, 0x4000_0000, 0x4000_0001) == None
    ensures LoopCountAsWritten(0x4000_0000, 0x4000_0001) == 0
  {
  }
}
