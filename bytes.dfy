/**
 * Byte-level helpers shared by the wire formats of the model: fixed-width
 * unsigned integers and their big- and little-endian byte encodings.
 */
module Bytes {
  newtype byte = x: int | 0 <= x < 0x100

  const U8_LIMIT: nat := 0x100
  const U16_LIMIT: nat := 0x1_0000
  const U32_LIMIT: nat := 0x1_0000_0000

  predicate IsU8(x: int) { 0 <= x < U8_LIMIT }
  predicate IsU16(x: int) { 0 <= x < U16_LIMIT }
  predicate IsU32(x: int) { 0 <= x < U32_LIMIT }

  /** C unsigned arithmetic on uint32_t: the result wraps modulo 2^32. */
  function Wrap32(x: int): (r: nat)
    ensures IsU32(r)
    ensures IsU32(x) ==> r == x
  {
    x % U32_LIMIT
  }

  /** Truncation to uint8_t. */
  function Wrap8(x: int): (r: nat)
    ensures IsU8(r)
    ensures IsU8(x) ==> r == x
  {
    x % U8_LIMIT
  }

  function Byte(x: int): byte
    requires IsU8(x)
  {
    x as byte
  }

  function BE16(x: nat): (r: seq<byte>)
    requires IsU16(x)
    ensures |r| == 2
  {
    [Byte(x / 0x100), Byte(x % 0x100)]
  }

  function LE16(x: nat): (r: seq<byte>)
    requires IsU16(x)
    ensures |r| == 2
  {
    [Byte(x % 0x100), Byte(x / 0x100)]
  }

  function BE32(x: nat): (r: seq<byte>)
    requires IsU32(x)
    ensures |r| == 4
  {
    BE16(x / U16_LIMIT) + BE16(x % U16_LIMIT)
  }

  function LE32(x: nat): (r: seq<byte>)
    requires IsU32(x)
    ensures |r| == 4
  {
    LE16(x % U16_LIMIT) + LE16(x / U16_LIMIT)
  }

  function DecodeBE16(s: seq<byte>): (r: nat)
    requires |s| == 2
    ensures IsU16(r)
  {
    s[0] as nat * 0x100 + s[1] as nat
  }

  function DecodeLE16(s: seq<byte>): (r: nat)
    requires |s| == 2
    ensures IsU16(r)
  {
    s[1] as nat * 0x100 + s[0] as nat
  }

  function DecodeBE32(s: seq<byte>): (r: nat)
    requires |s| == 4
    ensures IsU32(r)
  {
    DecodeBE16(s[..2]) * U16_LIMIT + DecodeBE16(s[2..])
  }

  function DecodeLE32(s: seq<byte>): (r: nat)
    requires |s| == 4
    ensures IsU32(r)
  {
    DecodeLE16(s[2..]) * U16_LIMIT + DecodeLE16(s[..2])
  }

  lemma BE16RoundTrip(x: nat)
    requires IsU16(x)
    ensures DecodeBE16(BE16(x)) == x
  {
  }

  lemma LE16RoundTrip(x: nat)
    requires IsU16(x)
    ensures DecodeLE16(LE16(x)) == x
  {
  }

  lemma BE32RoundTrip(x: nat)
    requires IsU32(x)
    ensures DecodeBE32(BE32(x)) == x
  {
    var e := BE32(x);
    assert e[..2] == BE16(x / U16_LIMIT);
    assert e[2..] == BE16(x % U16_LIMIT);
    BE16RoundTrip(x / U16_LIMIT);
    BE16RoundTrip(x % U16_LIMIT);
  }

  lemma LE32RoundTrip(x: nat)
    requires IsU32(x)
    ensures DecodeLE32(LE32(x)) == x
  {
    var e := LE32(x);
    assert e[..2] == LE16(x % U16_LIMIT);
    assert e[2..] == LE16(x / U16_LIMIT);
    LE16RoundTrip(x % U16_LIMIT);
    LE16RoundTrip(x / U16_LIMIT);
  }

  /** Decoding big-endian bytes and re-encoding gives the same bytes. */
  lemma BE16Canonical(s: seq<byte>)
    requires |s| == 2
    ensures BE16(DecodeBE16(s)) == s
  {
  }

  lemma LE16Canonical(s: seq<byte>)
    requires |s| == 2
    ensures LE16(DecodeLE16(s)) == s
  {
  }

  /** XOR of all bytes, the checksum of a firmware chunk. */
  function XorAll(s: seq<byte>): byte
  {
    if s == [] then 0 else ((XorAll(s[..|s| - 1]) as bv8) ^ (s[|s| - 1] as bv8)) as byte
  }
}
