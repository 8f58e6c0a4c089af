/**
 * The wire format shared by the ESP32 and the Pico:
 *
 *   | 0xAA | type | length | seq | payload (0..32) | crc16 low | crc16 high |
 *
 * The CRC-16/CCITT-FALSE covers type, length, seq and the payload.
 */
module ProtocolDefs {
  import opened Bytes
  import opened Crc16Ccitt

  const PROTOCOL_SYNC_BYTE: byte := 0xAA
  const PROTOCOL_MAX_PAYLOAD: nat := 32
  const PROTOCOL_HEADER_SIZE: nat := 4
  const PROTOCOL_CRC_SIZE: nat := 2
  const PROTOCOL_MAX_PACKET: nat := PROTOCOL_HEADER_SIZE + PROTOCOL_MAX_PAYLOAD + PROTOCOL_CRC_SIZE

  const MSG_PING: byte := 0x00
  const MSG_ACK: byte := 0x04
  const MSG_HANDSHAKE: byte := 0x0C
  const MSG_NACK: byte := 0x0D
  const MSG_CMD_SET_TEMP: byte := 0x10
  const MSG_CMD_GET_CONFIG: byte := 0x16
  const MSG_CMD_GET_BOOT: byte := 0x23
  const MSG_LOG: byte := 0x25

  /** A received frame as handed to the packet callback. */
  datatype Packet = Packet(msgType: byte, length: byte, seqNum: byte, payload: seq<byte>, crc: nat)

  /** The bytes the CRC covers: type, length, seq, payload. */
  function FrameBody(msgType: byte, sq: byte, payload: seq<byte>): (r: seq<byte>)
    requires |payload| <= PROTOCOL_MAX_PAYLOAD
    ensures |r| == 3 + |payload| && r[3..] == payload
  {
    [msgType, |payload| as byte, sq] + payload
  }

  /** The complete frame for one packet. */
  function Frame(msgType: byte, sq: byte, payload: seq<byte>): (r: seq<byte>)
    requires |payload| <= PROTOCOL_MAX_PAYLOAD
    ensures |r| == PROTOCOL_HEADER_SIZE + |payload| + PROTOCOL_CRC_SIZE <= PROTOCOL_MAX_PACKET
    ensures r[0] == PROTOCOL_SYNC_BYTE && r[1] == msgType && r[2] as nat == |payload| && r[3] == sq
    ensures r[4..4 + |payload|] == payload
    ensures r[1..4 + |payload|] == FrameBody(msgType, sq, payload)
    ensures DecodeLE16(r[4 + |payload|..]) == Crc16Value(r[1..4 + |payload|])
  {
    var body := FrameBody(msgType, sq, payload);
    LE16RoundTrip(Crc16Value(body));
    var r := [PROTOCOL_SYNC_BYTE] + body + LE16(Crc16Value(body));
    assert r[1..4 + |payload|] == body;
    assert r[4 + |payload|..] == LE16(Crc16Value(body));
    r
  }

  /** Commands in [MSG_CMD_SET_TEMP, MSG_LOG) are tracked until acknowledged. */
  predicate NeedsAck(msgType: byte) {
    MSG_CMD_SET_TEMP <= msgType < MSG_LOG
  }
}
