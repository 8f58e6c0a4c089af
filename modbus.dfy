/**
 * The Modbus RTU side of the Pico's power meter driver: the CRC, the
 * "read registers" request frame, the completion test of the receive
 * loop, the response check and the extraction of big-endian registers.
 *
 * The CRC is the one of section 6.2.2 of Modbus over Serial Line V1.02:
 * initial value 0xFFFF, reflected polynomial 0xA001, no final XOR, sent
 * low byte first.
 */
module Modbus {
  import opened Bytes

  const MODBUS_CRC_INIT: bv16 := 0xFFFF
  const MODBUS_POLY: bv16 := 0xA001

  const MODBUS_FC_READ_HOLDING_REGS: byte := 0x03
  const MODBUS_FC_READ_INPUT_REGS: byte := 0x04

  // ---------------------------------------------------------------------------
  // CRC
  // ---------------------------------------------------------------------------

  /**
   * One iteration of the inner bit loop: shift right, and XOR in the
   * polynomial when the bit shifted out was set (`0 - 1` is all ones).
   */
  function ShiftBit(crc: bv16): bv16 {
    (crc >> 1) ^ (MODBUS_POLY & (0 - (crc & 0x0001)))
  }

  /** The branch of the source's bit loop computes the same step. */
  lemma ShiftBitCases(crc: bv16)
    ensures ShiftBit(crc) == if crc & 0x0001 != 0 then (crc >> 1) ^ MODBUS_POLY else crc >> 1
  {
  }

  /** `k` iterations of the inner bit loop. */
  function ShiftBits(crc: bv16, k: nat): bv16 {
    if k == 0 then crc else ShiftBit(ShiftBits(crc, k - 1))
  }

  /** Feeding one byte: XOR it into the low half, then shift eight times. */
  function Update(crc: bv16, b: byte): bv16 {
    var x := crc ^ (b as bv16);
    ShiftBit(ShiftBit(ShiftBit(ShiftBit(ShiftBit(ShiftBit(ShiftBit(ShiftBit(x))))))))
  }

  /** The inner loop runs exactly the eight shifts of `Update`. */
  lemma EightShifts(crc: bv16, b: byte)
    ensures ShiftBits(crc ^ (b as bv16), 8) == Update(crc, b)
  {
    var x := crc ^ (b as bv16);
    assert ShiftBits(x, 0) == x;
    assert ShiftBits(x, 1) == ShiftBit(ShiftBits(x, 0));
    assert ShiftBits(x, 2) == ShiftBit(ShiftBits(x, 1));
    assert ShiftBits(x, 3) == ShiftBit(ShiftBits(x, 2));
    assert ShiftBits(x, 4) == ShiftBit(ShiftBits(x, 3));
    assert ShiftBits(x, 5) == ShiftBit(ShiftBits(x, 4));
    assert ShiftBits(x, 6) == ShiftBit(ShiftBits(x, 5));
    assert ShiftBits(x, 7) == ShiftBit(ShiftBits(x, 6));
  }

  /** The register after feeding `s`, starting from `crc`. */
  function CrcFrom(crc: bv16, s: seq<byte>): bv16
    decreases |s|
  {
    if s == [] then crc else Update(CrcFrom(crc, s[..|s| - 1]), s[|s| - 1])
  }

  function ModbusCrc(s: seq<byte>): bv16 {
    CrcFrom(MODBUS_CRC_INIT, s)
  }

  /** The CRC as a number, for the little-endian trailer. */
  function ModbusCrcValue(s: seq<byte>): (r: nat)
    ensures IsU16(r)
  {
    ModbusCrc(s) as nat
  }

  /** Feeding `a` then `b` is feeding `a + b`. */
  lemma {:induction false} CrcFromAppend(crc: bv16, a: seq<byte>, b: seq<byte>)
    ensures CrcFrom(crc, a + b) == CrcFrom(CrcFrom(crc, a), b)
    decreases |b|
  {
    if b == [] {
      assert a + b == a;
    } else {
      var b' := b[..|b| - 1];
      assert (a + b)[..|a + b| - 1] == a + b';
      CrcFromAppend(crc, a, b');
    }
  }

  /** The check value of CRC-16/MODBUS, and the empty input. */
  lemma ModbusCheckValue()
    ensures ModbusCrc([]) == 0xFFFF
    ensures ModbusCrc([0x31, 0x32, 0x33, 0x34, 0x35, 0x36, 0x37, 0x38, 0x39]) == 0x4B37
  {
    var s: seq<byte> := [0x31, 0x32, 0x33, 0x34, 0x35, 0x36, 0x37, 0x38, 0x39];
    assert Update(0xFFFF, 0x31) == 0x947E;
    assert Update(0x947E, 0x32) == 0xF595;
    assert Update(0xF595, 0x33) == 0x7A75;
    assert Update(0x7A75, 0x34) == 0x30BA;
    assert Update(0x30BA, 0x35) == 0xA471;
    assert Update(0xA471, 0x36) == 0x32E4;
    assert Update(0x32E4, 0x37) == 0x9D73;
    assert Update(0x9D73, 0x38) == 0x37DD;
    assert Update(0x37DD, 0x39) == 0x4B37;
    assert s[..1][..0] == [];
    assert CrcFrom(MODBUS_CRC_INIT, s[..1]) == 0x947E;
    assert s[..2][..1] == s[..1];
    assert CrcFrom(MODBUS_CRC_INIT, s[..2]) == 0xF595;
    assert s[..3][..2] == s[..2];
    assert CrcFrom(MODBUS_CRC_INIT, s[..3]) == 0x7A75;
    assert s[..4][..3] == s[..3];
    assert CrcFrom(MODBUS_CRC_INIT, s[..4]) == 0x30BA;
    assert s[..5][..4] == s[..4];
    assert CrcFrom(MODBUS_CRC_INIT, s[..5]) == 0xA471;
    assert s[..6][..5] == s[..5];
    assert CrcFrom(MODBUS_CRC_INIT, s[..6]) == 0x32E4;
    assert s[..7][..6] == s[..6];
    assert CrcFrom(MODBUS_CRC_INIT, s[..7]) == 0x9D73;
    assert s[..8][..7] == s[..7];
    assert CrcFrom(MODBUS_CRC_INIT, s[..8]) == 0x37DD;
    assert s[..9] == s;
  }

  /** `modbus_crc16(buffer, length)`: the bitwise loop over the first `length` bytes. */
  method ModbusCrc16(buffer: array<byte>, length: nat) returns (crc: bv16)
    requires length <= buffer.Length
    ensures crc == ModbusCrc(buffer[..length])
  {
    crc := MODBUS_CRC_INIT;
    var i := 0;
    while i < length
      invariant i <= length
      invariant crc == ModbusCrc(buffer[..i])
    {
      ghost var before := crc;
      crc := crc ^ (buffer[i] as bv16);
      ghost var start8 := crc;
      var j := 0;
      while j < 8
        invariant j <= 8
        invariant crc == ShiftBits(start8, j)
      {
        ShiftBitCases(crc);
        if crc & 0x0001 != 0 {
          crc := (crc >> 1) ^ MODBUS_POLY;
        } else {
          crc := crc >> 1;
        }
        j := j + 1;
      }
      EightShifts(before, buffer[i]);
      assert buffer[..i + 1][..i] == buffer[..i];
      i := i + 1;
    }
  }

  // ---------------------------------------------------------------------------
  // The request frame
  // ---------------------------------------------------------------------------

  /** Address, function code, first register and register count, big-endian. */
  function RequestBody(slave: byte, fc: byte, startReg: nat, numRegs: nat): (r: seq<byte>)
    requires IsU16(startReg) && IsU16(numRegs)
    ensures |r| == 6
  {
    [slave, fc] + BE16(startReg) + BE16(numRegs)
  }

  /** The whole request: the body and its CRC, low byte first. */
  function RequestFrame(slave: byte, fc: byte, startReg: nat, numRegs: nat): (r: seq<byte>)
    requires IsU16(startReg) && IsU16(numRegs)
    ensures |r| == 8
  {
    var body := RequestBody(slave, fc, startReg, numRegs);
    body + LE16(ModbusCrcValue(body))
  }

  /** A request decodes back to its fields, and its trailer is the CRC of the rest. */
  lemma RequestFrameDecodes(slave: byte, fc: byte, startReg: nat, numRegs: nat)
    requires IsU16(startReg) && IsU16(numRegs)
    ensures var f := RequestFrame(slave, fc, startReg, numRegs);
            f[0] == slave && f[1] == fc
            && DecodeBE16(f[2..4]) == startReg && DecodeBE16(f[4..6]) == numRegs
            && DecodeLE16(f[6..]) == ModbusCrcValue(f[..6])
  {
    var f := RequestFrame(slave, fc, startReg, numRegs);
    var body := RequestBody(slave, fc, startReg, numRegs);
    assert f[..6] == body;
    assert f[2..4] == BE16(startReg);
    assert f[4..6] == BE16(numRegs);
    assert f[6..] == LE16(ModbusCrcValue(body));
    BE16RoundTrip(startReg);
    BE16RoundTrip(numRegs);
    LE16RoundTrip(ModbusCrcValue(body));
  }

  /** The first six bytes of the request. */
  method WriteRequestBody(request: array<byte>, slave: byte, fc: byte, startReg: nat, numRegs: nat)
    requires IsU16(startReg) && IsU16(numRegs) && request.Length == 8
    modifies request
    ensures request[..6] == RequestBody(slave, fc, startReg, numRegs)
  {
    request[0] := slave;
    request[1] := fc;
    request[2] := Byte(startReg / 0x100);
    request[3] := Byte(startReg % 0x100);
    request[4] := Byte(numRegs / 0x100);
    request[5] := Byte(numRegs % 0x100);
  }

  /** `send_modbus_request`: the eight bytes written to the UART. */
  method BuildRequest(slave: byte, fc: byte, startReg: nat, numRegs: nat) returns (request: array<byte>)
    requires IsU16(startReg) && IsU16(numRegs)
    ensures fresh(request)
    ensures request[..] == RequestFrame(slave, fc, startReg, numRegs)
  {
    request := new byte[8];
    WriteRequestBody(request, slave, fc, startReg, numRegs);
    ghost var body := request[..6];
    var crc := ModbusCrc16(request, 6);
    var value := crc as nat;
    request[6] := Byte(value % 0x100);
    request[7] := Byte(value / 0x100);
    assert request[..6] == body;
    assert request[6..] == LE16(value);
    assert request[..] == body + LE16(value);
  }

  // ---------------------------------------------------------------------------
  // Receiving and checking a response
  // ---------------------------------------------------------------------------

  /**
   * The receive loop stops once at least five bytes arrived and the count
   * reaches the declared data length (byte 2) plus five.
   */
  predicate Complete(r: seq<byte>) {
    |r| >= 5 && |r| >= r[2] as int + 5
  }

  /**
   * The same test with the expected length held in a `uint8_t`, as the
   * receive loop computes it: the sum wraps modulo 256.
   */
  predicate CompleteAsWritten(r: seq<byte>)
    ensures CompleteAsWritten(r) <==> |r| >= 5 && (r[2] as int >= 251 || Complete(r))
  {
    |r| >= 5 && |r| >= (r[2] as int + 5) % 256
  }

  /** A declared length of 251 or more makes a five-byte prefix look complete. */
  lemma ExpectedLengthWraps()
    ensures var r: seq<byte> := [0x01, 0x04, 0xFB, 0x00, 0x00];
            CompleteAsWritten(r) && !Complete(r)
  {
  }

  /**
   * The receive loop over the bytes that arrive before the 500 ms gap,
   * from `n` bytes read: take a byte, stop if the response is complete,
   * give up when the buffer of `maxLen` bytes is full or nothing more
   * arrives. The result is whether it completed and how many bytes it read.
   */
  function ReceiveFrom(incoming: seq<byte>, maxLen: nat, n: nat): (r: (bool, nat))
    requires n <= |incoming| && n < maxLen
    ensures n <= r.1 <= |incoming| && r.1 <= maxLen
    decreases |incoming| - n
  {
    if n == |incoming| then (false, n)
    else if Complete(incoming[..n + 1]) then (true, n + 1)
    else if n + 1 >= maxLen then (false, n + 1)
    else ReceiveFrom(incoming, maxLen, n + 1)
  }

  function Receive(incoming: seq<byte>, maxLen: nat): (r: (bool, nat))
    requires maxLen > 0
    ensures r.1 <= |incoming| && r.1 <= maxLen
  {
    ReceiveFrom(incoming, maxLen, 0)
  }

  /**
   * A completed receive stops at the first complete prefix: exactly the
   * declared length plus five bytes.
   */
  lemma {:induction false} ReceiveStopsAtFrameEnd(incoming: seq<byte>, maxLen: nat, n: nat)
    requires n <= |incoming| && n < maxLen
    requires forall k :: 0 <= k <= n ==> !Complete(incoming[..k])
    ensures ReceiveFrom(incoming, maxLen, n).0 ==>
              Complete(incoming[..ReceiveFrom(incoming, maxLen, n).1])
              && ReceiveFrom(incoming, maxLen, n).1 == incoming[2] as int + 5
    decreases |incoming| - n
  {
    if n < |incoming| && !Complete(incoming[..n + 1]) && n + 1 < maxLen {
      forall k | 0 <= k <= n + 1
        ensures !Complete(incoming[..k])
      {
      }
      ReceiveStopsAtFrameEnd(incoming, maxLen, n + 1);
    } else if n < |incoming| && Complete(incoming[..n + 1]) {
      if n + 1 > 5 {
        assert !Complete(incoming[..n]);
        assert incoming[..n][2] == incoming[2];
      }
    }
  }

  /** A whole response that fits the buffer completes the receive. */
  lemma {:induction false} ReceiveCompletes(incoming: seq<byte>, maxLen: nat, n: nat)
    requires n <= |incoming| && n < maxLen
    requires |incoming| >= 5 && incoming[2] as int + 5 <= |incoming| && incoming[2] as int + 5 <= maxLen
    requires n < incoming[2] as int + 5
    ensures ReceiveFrom(incoming, maxLen, n).0
    decreases |incoming| - n
  {
    if !Complete(incoming[..n + 1]) {
      assert n + 1 < incoming[2] as int + 5;
      ReceiveCompletes(incoming, maxLen, n + 1);
    }
  }

  /**
   * `receive_modbus_response`, with the expected length computed without
   * truncation; `incoming` are the bytes that arrive before the receive
   * timeout.
   */
  method ReceiveResponse(incoming: seq<byte>, buffer: array<byte>) returns (ok: bool, bytesRead: nat)
    requires buffer.Length > 0
    modifies buffer
    ensures (ok, bytesRead) == Receive(incoming, buffer.Length)
    ensures buffer[..] == incoming[..bytesRead] + old(buffer[..])[bytesRead..]
  {
    ghost var before := buffer[..];
    bytesRead := 0;
    while bytesRead < |incoming|
      invariant bytesRead <= |incoming| && bytesRead < buffer.Length
      invariant ReceiveFrom(incoming, buffer.Length, bytesRead) == Receive(incoming, buffer.Length)
      invariant forall j :: 0 <= j < bytesRead ==> buffer[j] == incoming[j]
      invariant forall j :: bytesRead <= j < buffer.Length ==> buffer[j] == before[j]
      decreases |incoming| - bytesRead
    {
      buffer[bytesRead] := incoming[bytesRead];
      bytesRead := bytesRead + 1;
      if bytesRead >= 5 {
        var expectedLen := buffer[2] as int + 5;
        assert Complete(incoming[..bytesRead]) <==> bytesRead >= expectedLen;
        if bytesRead >= expectedLen {
          Settled(incoming, buffer[..], before, bytesRead);
          return true, bytesRead;
        }
      } else {
        assert !Complete(incoming[..bytesRead]);
      }
      if bytesRead >= buffer.Length {
        Settled(incoming, buffer[..], before, bytesRead);
        return false, bytesRead;
      }
    }
    Settled(incoming, buffer[..], before, bytesRead);
    return false, bytesRead;
  }

  /** The buffer after `n` bytes were received into it. */
  lemma Settled(incoming: seq<byte>, cells: seq<byte>, before: seq<byte>, n: nat)
    requires n <= |incoming| && n <= |cells| == |before|
    requires forall j :: 0 <= j < n ==> cells[j] == incoming[j]
    requires forall j :: n <= j < |cells| ==> cells[j] == before[j]
    ensures cells == incoming[..n] + before[n..]
  {
  }

  /**
   * `verify_modbus_response`: at least five bytes, the expected slave
   * address and function code, and a little-endian trailer equal to the
   * CRC of everything before it.
   */
  predicate ResponseValid(slave: byte, fc: byte, r: seq<byte>) {
    |r| >= 5 && r[0] == slave && r[1] == fc
    && DecodeLE16(r[|r| - 2..]) == ModbusCrcValue(r[..|r| - 2])
  }

  /** A response is valid exactly when it is its own first part followed by that part's CRC. */
  lemma ResponseValidIff(slave: byte, fc: byte, r: seq<byte>)
    requires |r| >= 5
    ensures ResponseValid(slave, fc, r) <==>
              r[0] == slave && r[1] == fc && r == r[..|r| - 2] + LE16(ModbusCrcValue(r[..|r| - 2]))
  {
    var body := r[..|r| - 2];
    assert r == body + r[|r| - 2..];
    if DecodeLE16(r[|r| - 2..]) == ModbusCrcValue(body) {
      LE16Canonical(r[|r| - 2..]);
    }
    if r == body + LE16(ModbusCrcValue(body)) {
      assert r[|r| - 2..] == LE16(ModbusCrcValue(body));
      LE16RoundTrip(ModbusCrcValue(body));
    }
  }

  method VerifyResponse(slave: byte, fc: byte, buffer: array<byte>, length: int) returns (ok: bool)
    requires length <= buffer.Length
    ensures ok <==> length >= 5 && ResponseValid(slave, fc, buffer[..length])
  {
    if length < 5 {
      return false;
    }
    if buffer[0] != slave {
      return false;
    }
    if buffer[1] != fc {
      return false;
    }
    var received := buffer[length - 2] as nat + buffer[length - 1] as nat * 0x100;
    var calculated := ModbusCrc16(buffer, length - 2);
    assert buffer[..length][..length - 2] == buffer[..length - 2];
    ok := received == calculated as nat;
  }

  // ---------------------------------------------------------------------------
  // Registers
  // ---------------------------------------------------------------------------

  /** `extract_uint16`: two bytes, big-endian. */
  function ExtractU16(buffer: seq<byte>, offset: nat): (r: nat)
    requires offset + 2 <= |buffer|
    ensures IsU16(r) && BE16(r) == buffer[offset..offset + 2]
  {
    BE16Canonical(buffer[offset..offset + 2]);
    buffer[offset] as nat * 0x100 + buffer[offset + 1] as nat
  }

  /** `extract_uint32`: four bytes, big-endian. */
  function ExtractU32(buffer: seq<byte>, offset: nat): (r: nat)
    requires offset + 4 <= |buffer|
    ensures IsU32(r) && BE32(r) == buffer[offset..offset + 4]
  {
    var hi := ExtractU16(buffer, offset);
    var lo := ExtractU16(buffer, offset + 2);
    assert BE32(hi * U16_LIMIT + lo) == BE16(hi) + BE16(lo);
    assert buffer[offset..offset + 4] == buffer[offset..offset + 2] + buffer[offset + 2..offset + 4];
    hi * U16_LIMIT + lo
  }

  /** The data part of a response carrying the 16-bit register values `regs`. */
  function Registers(regs: seq<nat>): (r: seq<byte>)
    requires forall i :: 0 <= i < |regs| ==> IsU16(regs[i])
    ensures |r| == 2 * |regs|
    decreases |regs|
  {
    if regs == [] then [] else Registers(regs[..|regs| - 1]) + BE16(regs[|regs| - 1])
  }

  /** Register `k` sits big-endian at byte `2k` of the data. */
  lemma {:induction false} RegisterAt(regs: seq<nat>, k: nat)
    requires forall i :: 0 <= i < |regs| ==> IsU16(regs[i])
    requires k < |regs|
    ensures Registers(regs)[2 * k..2 * k + 2] == BE16(regs[k])
    decreases |regs|
  {
    var init := regs[..|regs| - 1];
    if k < |regs| - 1 {
      RegisterAt(init, k);
      assert Registers(regs)[2 * k..2 * k + 2] == Registers(init)[2 * k..2 * k + 2];
    }
  }

  /** Reading register `k` back out of encoded data gives its value. */
  lemma ExtractRegister(regs: seq<nat>, data: seq<byte>, k: nat)
    requires forall i :: 0 <= i < |regs| ==> IsU16(regs[i])
    requires k < |regs| && |data| >= 2 * |regs| && data[..2 * |regs|] == Registers(regs)
    ensures ExtractU16(data, 2 * k) == regs[k]
  {
    RegisterAt(regs, k);
    assert data[2 * k..2 * k + 2] == Registers(regs)[2 * k..2 * k + 2];
    BE16RoundTrip(regs[k]);
  }
}
