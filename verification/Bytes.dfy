/** Bytes, the integers of the program's widths, and data that comes in chunks. */
module Bytes {
  const U64_LIMIT := 0x1_0000_0000_0000_0000

  type Byte = b: int | 0 <= b < 256

  type U64 = n: nat | n < U64_LIMIT

  type I32 = n: int | -0x8000_0000 <= n < 0x8000_0000

  function Flatten(chunks: seq<seq<Byte>>): seq<Byte> {
    if chunks == [] then [] else Flatten(chunks[..|chunks| - 1]) + chunks[|chunks| - 1]
  }

  lemma {:induction false} NotLonger(chunks: seq<seq<Byte>>, i: nat)
    requires i <= |chunks|
    ensures |Flatten(chunks[..i])| <= |Flatten(chunks)|
    decreases |chunks| - i
  {
    if i < |chunks| {
      NotLonger(chunks, i + 1);
      assert chunks[..i + 1][..i] == chunks[..i];
    } else {
      assert chunks[..i] == chunks;
    }
  }
}
