/**
 * CRC-16/CCITT-FALSE (polynomial 0x1021, initial value 0xFFFF, no
 * reflection, no final XOR), the checksum of every frame on the
 * ESP32-Pico link. Both ends compute it with the same bitwise loop.
 */
module Crc16Ccitt {
  import opened Bytes

  const CRC16_INIT: bv16 := 0xFFFF
  const CRC16_POLY: bv16 := 0x1021

  /** One iteration of the inner bit loop. */
  function ShiftBit(crc: bv16): bv16 {
    if crc & 0x8000 != 0 then (crc << 1) ^ CRC16_POLY else crc << 1
  }

  /** `k` iterations of the inner bit loop. */
  function ShiftBits(crc: bv16, k: nat): bv16 {
    if k == 0 then crc else ShiftBit(ShiftBits(crc, k - 1))
  }

  /** Feeding one byte: XOR it into the high half, then shift eight times. */
  function Update(crc: bv16, b: byte): bv16 {
    var x := crc ^ ((b as bv16) << 8);
    ShiftBit(ShiftBit(ShiftBit(ShiftBit(ShiftBit(ShiftBit(ShiftBit(ShiftBit(x))))))))
  }

  /** The inner loop runs exactly the eight shifts of `Update`. */
  lemma EightShifts(crc: bv16, b: byte)
    ensures ShiftBits(crc ^ ((b as bv16) << 8), 8) == Update(crc, b)
  {
    var x := crc ^ ((b as bv16) << 8);
    assert ShiftBits(x, 0) == x;
    assert ShiftBits(x, 1) == ShiftBit(ShiftBits(x, 0));
    assert ShiftBits(x, 2) == ShiftBit(ShiftBits(x, 1));
    assert ShiftBits(x, 3) == ShiftBit(ShiftBits(x, 2));
    assert ShiftBits(x, 4) == ShiftBit(ShiftBits(x, 3));
    assert ShiftBits(x, 5) == ShiftBit(ShiftBits(x, 4));
    assert ShiftBits(x, 6) == ShiftBit(ShiftBits(x, 5));
    assert ShiftBits(x, 7) == ShiftBit(ShiftBits(x, 6));
  }

  /** The register after feeding `s`, starting from `crc`. */
  function CrcFrom(crc: bv16, s: seq<byte>): bv16
    decreases |s|
  {
    if s == [] then crc else Update(CrcFrom(crc, s[..|s| - 1]), s[|s| - 1])
  }

  function Crc16(s: seq<byte>): bv16 {
    CrcFrom(CRC16_INIT, s)
  }

  /** The register as a number, for the little-endian trailer. */
  function Crc16Value(s: seq<byte>): (r: nat)
    ensures IsU16(r)
  {
    Crc16(s) as nat
  }

  /** Feeding `a` then `b` is feeding `a + b`. */
  lemma {:induction false} CrcFromAppend(crc: bv16, a: seq<byte>, b: seq<byte>)
    ensures CrcFrom(crc, a + b) == CrcFrom(CrcFrom(crc, a), b)
    decreases |b|
  {
    if b == [] {
      assert a + b == a;
    } else {
      var b' := b[..|b| - 1];
      assert (a + b)[..|a + b| - 1] == a + b';
      CrcFromAppend(crc, a, b');
    }
  }

  /** The standard check value of CRC-16/CCITT-FALSE, and the empty input. */
  lemma Crc16CheckValue()
    ensures Crc16([]) == 0xFFFF
    ensures Crc16([0x31, 0x32, 0x33, 0x34, 0x35, 0x36, 0x37, 0x38, 0x39]) == 0x29B1
  {
    var s: seq<byte> := [0x31, 0x32, 0x33, 0x34, 0x35, 0x36, 0x37, 0x38, 0x39];
    assert Update(0xFFFF, 0x31) == 0xC782;
    assert Update(0xC782, 0x32) == 0x3DBA;
    assert Update(0x3DBA, 0x33) == 0x5BCE;
    assert Update(0x5BCE, 0x34) == 0x5349;
    assert Update(0x5349, 0x35) == 0x4560;
    assert Update(0x4560, 0x36) == 0x2EF4;
    assert Update(0x2EF4, 0x37) == 0x7718;
    assert Update(0x7718, 0x38) == 0xA12B;
    assert Update(0xA12B, 0x39) == 0x29B1;
    assert s[..1][..0] == [];
    assert CrcFrom(CRC16_INIT, s[..1]) == 0xC782;
    assert s[..2][..1] == s[..1];
    assert CrcFrom(CRC16_INIT, s[..2]) == 0x3DBA;
    assert s[..3][..2] == s[..2];
    assert CrcFrom(CRC16_INIT, s[..3]) == 0x5BCE;
    assert s[..4][..3] == s[..3];
    assert CrcFrom(CRC16_INIT, s[..4]) == 0x5349;
    assert s[..5][..4] == s[..4];
    assert CrcFrom(CRC16_INIT, s[..5]) == 0x4560;
    assert s[..6][..5] == s[..5];
    assert CrcFrom(CRC16_INIT, s[..6]) == 0x2EF4;
    assert s[..7][..6] == s[..6];
    assert CrcFrom(CRC16_INIT, s[..7]) == 0x7718;
    assert s[..8][..7] == s[..7];
    assert CrcFrom(CRC16_INIT, s[..8]) == 0xA12B;
    assert s[..9] == s;
  }
}
