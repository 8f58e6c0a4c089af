/**
 * The Pico end of the ESP32 link (protocol.c): frame transmission with
 * sequence numbers, the byte-by-byte receive parser, the table of commands
 * awaiting an ACK with its backpressure flag, and the error counters.
 */
module PicoProtocol {
  import opened Wrappers
  import opened Bytes
  import opened Crc16Ccitt
  import opened ProtocolDefs

  /** `sizeof(g_rx_buffer)` */
  const RX_BUFFER_SIZE: nat := 72
  /** `g_last_seq_received` before the first packet. */
  const NO_SEQ_RECEIVED: byte := 0xFF

  datatype RxState = WaitSync | GotType | GotLength | GotSeq | ReadingPayload | ReadingCrc

  /** The parser: `g_rx_state`, `g_rx_buffer[0..g_rx_index)` and `g_rx_length`. */
  datatype Rx = Rx(state: RxState, buf: seq<byte>, length: byte)

  const RX_RESET: Rx := Rx(WaitSync, [], 0)

  /** What one byte did besides moving the parser. */
  datatype RxEvent =
    | NoEvent
    | Accepted(packet: Packet)   // CRC matched; the packet goes to the callback
    | CrcMismatch                // crc_errors++
    | Oversize                   // length field above the maximum; packet_errors++
    | Overflow                   // index reached the buffer size; packet_errors++

  /** The shape the parser keeps between bytes. */
  predicate WellFormed(rx: Rx) {
    |rx.buf| < RX_BUFFER_SIZE &&
    match rx.state
    case WaitSync => true
    case GotType => rx.buf == []
    case GotLength => |rx.buf| == 1
    case GotSeq => |rx.buf| == 2 && rx.buf[1] == rx.length
    case ReadingPayload =>
      3 <= |rx.buf| < 3 + rx.length as nat && rx.buf[1] == rx.length
    case ReadingCrc =>
      3 + rx.length as nat <= |rx.buf| < 5 + rx.length as nat && rx.buf[1] == rx.length
  }

  /** The switch of `process_byte`, before the overflow check. */
  function Advance(rx: Rx, b: byte): (Rx, RxEvent)
    requires WellFormed(rx)
  {
    match rx.state
    case WaitSync =>
      if b == PROTOCOL_SYNC_BYTE then (Rx(GotType, [], rx.length), NoEvent) else (rx, NoEvent)
    case GotType => (Rx(GotLength, rx.buf + [b], rx.length), NoEvent)
    case GotLength => (Rx(GotSeq, rx.buf + [b], b), NoEvent)
    case GotSeq =>
      (Rx(if rx.length > 0 then ReadingPayload else ReadingCrc, rx.buf + [b], rx.length), NoEvent)
    case ReadingPayload =>
      var buf := rx.buf + [b];
      (Rx(if |buf| >= 3 + rx.length as nat then ReadingCrc else ReadingPayload, buf, rx.length), NoEvent)
    case ReadingCrc =>
      var buf := rx.buf + [b];
      var len := buf[1] as nat;
      if |buf| < 5 + rx.length as nat then (Rx(ReadingCrc, buf, rx.length), NoEvent)
      else if len > PROTOCOL_MAX_PAYLOAD then (Rx(WaitSync, [], rx.length), Oversize)
      else (Rx(WaitSync, buf, rx.length), CheckCrc(buf))
  }

  /**
   * A complete frame of legal length (type, length, seq, payload, CRC low,
   * CRC high) is accepted when the CRC it carries is that of the bytes
   * before it.
   */
  function CheckCrc(buf: seq<byte>): RxEvent
    requires 3 <= |buf| && |buf| == 5 + buf[1] as nat && buf[1] as nat <= PROTOCOL_MAX_PAYLOAD
  {
    var len := buf[1] as nat;
    var received := DecodeLE16(buf[3 + len..5 + len]);
    if received == Crc16Value(buf[..3 + len]) then
      Accepted(Packet(buf[0], buf[1], buf[2], buf[3..3 + len], received))
    else
      CrcMismatch
  }

  /** The check of a frame, given its stored CRC and the CRC computed over type, length, seq and payload. */
  lemma CheckCrcIs(buf: seq<byte>, received: nat, expected: bv16)
    requires 3 <= |buf| && |buf| == 5 + buf[1] as nat && buf[1] as nat <= PROTOCOL_MAX_PAYLOAD
    requires received == buf[3 + buf[1] as nat] as nat + buf[4 + buf[1] as nat] as nat * 0x100
    requires expected == Crc16(buf[..3 + buf[1] as nat])
    ensures CheckCrc(buf) == if received == expected as nat
      then Accepted(Packet(buf[0], buf[1], buf[2], buf[3..3 + buf[1] as nat], received))
      else CrcMismatch
  {
    var len := buf[1] as nat;
    assert buf[3 + len..5 + len] == [buf[3 + len], buf[4 + len]];
  }

  /**
   * One byte through the parser (`process_byte` while the bootloader is
   * idle). Every completed frame, good or bad, returns it to WAIT_SYNC,
   * and the overflow reset never hides a completed frame.
   */
  function RxStep(rx: Rx, b: byte): (r: (Rx, RxEvent))
    requires WellFormed(rx)
    ensures WellFormed(r.0)
    ensures r.1 != NoEvent ==> r.0.state == WaitSync
    ensures r.1 == Overflow ==> Advance(rx, b).1 == NoEvent && r.0 == RX_RESET
    ensures r.1.Accepted? ==> r.1.packet.length as nat == |r.1.packet.payload| <= PROTOCOL_MAX_PAYLOAD
  {
    var a := Advance(rx, b);
    if |a.0.buf| >= RX_BUFFER_SIZE then (RX_RESET, Overflow) else a
  }

  /** The parser after a byte stream. */
  function FeedState(rx: Rx, bytes: seq<byte>): (r: Rx)
    requires WellFormed(rx)
    ensures WellFormed(r)
    decreases |bytes|
  {
    if bytes == [] then rx else FeedState(RxStep(rx, bytes[0]).0, bytes[1..])
  }

  /** The events of a byte stream, one per byte. */
  function FeedEvents(rx: Rx, bytes: seq<byte>): (r: seq<RxEvent>)
    requires WellFormed(rx)
    ensures |r| == |bytes|
    decreases |bytes|
  {
    if bytes == [] then []
    else [RxStep(rx, bytes[0]).1] + FeedEvents(RxStep(rx, bytes[0]).0, bytes[1..])
  }

  function NoEvents(n: nat): (r: seq<RxEvent>)
    ensures |r| == n && forall i :: 0 <= i < n ==> r[i] == NoEvent
  {
    seq(n, _ => NoEvent)
  }

  /**
   * A completed frame is accepted exactly when its little-endian trailer
   * equals the CRC of the bytes before it; otherwise it is a CRC error.
   */
  lemma AcceptedIffCrcMatches(rx: Rx, b: byte)
    requires WellFormed(rx) && rx.state == ReadingCrc
    requires |rx.buf| + 1 == 5 + rx.length as nat && rx.length as nat <= PROTOCOL_MAX_PAYLOAD
    ensures var buf := rx.buf + [b];
      var len := rx.length as nat;
      (RxStep(rx, b).1.Accepted? <==> DecodeLE16(buf[3 + len..]) == Crc16Value(buf[..3 + len]))
      && (!RxStep(rx, b).1.Accepted? ==> RxStep(rx, b).1 == CrcMismatch)
  {
    var buf := rx.buf + [b];
    assert buf[3 + rx.length as nat..] == buf[3 + rx.length as nat..5 + rx.length as nat];
  }

  /** Feeding one byte, then the rest. */
  lemma FeedCons(rx: Rx, b: byte, rest: seq<byte>)
    requires WellFormed(rx)
    ensures FeedState(rx, [b] + rest) == FeedState(RxStep(rx, b).0, rest)
    ensures FeedEvents(rx, [b] + rest) == [RxStep(rx, b).1] + FeedEvents(RxStep(rx, b).0, rest)
  {
    assert ([b] + rest)[0] == b && ([b] + rest)[1..] == rest;
  }

  /** A payload byte is stored; the parser moves to the CRC after the last one. */
  lemma PayloadByte(rx: Rx, b: byte)
    requires WellFormed(rx) && rx.state == ReadingPayload && rx.length as nat <= PROTOCOL_MAX_PAYLOAD
    ensures RxStep(rx, b).1 == NoEvent
    ensures RxStep(rx, b).0
      == Rx(if |rx.buf| + 1 == 3 + rx.length as nat then ReadingCrc else ReadingPayload, rx.buf + [b], rx.length)
  {
  }

  lemma NoEventsCons(n: nat, rest: seq<RxEvent>)
    ensures [NoEvent] + (NoEvents(n) + rest) == NoEvents(n + 1) + rest
  {
    assert NoEvents(n + 1) == [NoEvent] + NoEvents(n);
  }

  /** The first byte of the rest of a payload, then the others. */
  lemma PayloadHead(rx: Rx, ps: seq<byte>, tail: seq<byte>)
    requires WellFormed(rx) && rx.state == ReadingPayload
    requires |rx.buf| + |ps| == 3 + rx.length as nat && rx.length as nat <= PROTOCOL_MAX_PAYLOAD && ps != []
    ensures var rx1 := Rx(if |ps| == 1 then ReadingCrc else ReadingPayload, rx.buf + [ps[0]], rx.length);
      WellFormed(rx1)
      && FeedState(rx, ps + tail) == FeedState(rx1, ps[1..] + tail)
      && FeedEvents(rx, ps + tail) == [NoEvent] + FeedEvents(rx1, ps[1..] + tail)
  {
    var rx1 := Rx(if |ps| == 1 then ReadingCrc else ReadingPayload, rx.buf + [ps[0]], rx.length);
    assert WellFormed(rx1);
    PayloadByte(rx, ps[0]);
    assert ps + tail == [ps[0]] + (ps[1..] + tail);
    FeedCons(rx, ps[0], ps[1..] + tail);
  }

  /** Feeding the rest of a payload: no events, and the parser waits for the CRC. */
  lemma {:induction false} FeedPayload(rx: Rx, ps: seq<byte>, tail: seq<byte>)
    requires WellFormed(rx) && rx.state == ReadingPayload
    requires |rx.buf| + |ps| == 3 + rx.length as nat && rx.length as nat <= PROTOCOL_MAX_PAYLOAD
    ensures WellFormed(Rx(ReadingCrc, rx.buf + ps, rx.length))
    ensures FeedState(rx, ps + tail) == FeedState(Rx(ReadingCrc, rx.buf + ps, rx.length), tail)
    ensures FeedEvents(rx, ps + tail) == NoEvents(|ps|) + FeedEvents(Rx(ReadingCrc, rx.buf + ps, rx.length), tail)
    decreases |ps|
  {
    var rx1 := Rx(if |ps| == 1 then ReadingCrc else ReadingPayload, rx.buf + [ps[0]], rx.length);
    PayloadHead(rx, ps, tail);
    if |ps| == 1 {
      assert ps[1..] + tail == tail;
      assert rx.buf + ps == rx1.buf;
    } else {
      var crc := Rx(ReadingCrc, rx.buf + ps, rx.length);
      var rest := FeedEvents(crc, tail);
      assert rx1.buf + ps[1..] == rx.buf + ps;
      FeedPayload(rx1, ps[1..], tail);
      assert FeedState(rx, ps + tail) == FeedState(crc, tail);
      assert FeedEvents(rx, ps + tail) == [NoEvent] + (NoEvents(|ps| - 1) + rest);
      NoEventsCons(|ps| - 1, rest);
    }
  }

  /** The four header bytes, one at a time. */
  lemma HeaderSteps(rx: Rx, msgType: byte, len: byte, sq: byte)
    requires WellFormed(rx) && rx.state == WaitSync
    ensures var r1 := Rx(GotType, [], rx.length);
      var r2 := Rx(GotLength, [msgType], rx.length);
      var r3 := Rx(GotSeq, [msgType, len], len);
      var r4 := Rx(if len > 0 then ReadingPayload else ReadingCrc, [msgType, len, sq], len);
      WellFormed(r1) && WellFormed(r2) && WellFormed(r3) && WellFormed(r4)
      && RxStep(rx, PROTOCOL_SYNC_BYTE).0 == r1 && RxStep(rx, PROTOCOL_SYNC_BYTE).1 == NoEvent
      && RxStep(r1, msgType).0 == r2 && RxStep(r1, msgType).1 == NoEvent
      && RxStep(r2, len).0 == r3 && RxStep(r2, len).1 == NoEvent
      && RxStep(r3, sq).0 == r4 && RxStep(r3, sq).1 == NoEvent
  {
    var r1 := Rx(GotType, [], rx.length);
    var r2 := Rx(GotLength, [msgType], rx.length);
    var r3 := Rx(GotSeq, [msgType, len], len);
    assert WellFormed(r1) && WellFormed(r2) && WellFormed(r3);
    assert Advance(rx, PROTOCOL_SYNC_BYTE).0 == r1;
    assert Advance(r1, msgType).0 == r2;
    assert Advance(r2, len).0 == r3;
  }

  /** The four header bytes: no events, and the parser expects the payload (or the CRC). */
  lemma FeedHeader(rx: Rx, msgType: byte, len: byte, sq: byte, rest: seq<byte>)
    requires WellFormed(rx) && rx.state == WaitSync
    ensures WellFormed(Rx(if len > 0 then ReadingPayload else ReadingCrc, [msgType, len, sq], len))
    ensures var r4 := Rx(if len > 0 then ReadingPayload else ReadingCrc, [msgType, len, sq], len);
      FeedState(rx, [PROTOCOL_SYNC_BYTE, msgType, len, sq] + rest) == FeedState(r4, rest)
      && FeedEvents(rx, [PROTOCOL_SYNC_BYTE, msgType, len, sq] + rest) == NoEvents(4) + FeedEvents(r4, rest)
  {
    var r1 := Rx(GotType, [], rx.length);
    var r2 := Rx(GotLength, [msgType], rx.length);
    var r3 := Rx(GotSeq, [msgType, len], len);
    HeaderSteps(rx, msgType, len, sq);
    FeedCons(r3, sq, rest);
    FeedCons(r2, len, [sq] + rest);
    FeedCons(r1, msgType, [len] + ([sq] + rest));
    FeedCons(rx, PROTOCOL_SYNC_BYTE, [msgType] + ([len] + ([sq] + rest)));
    assert [PROTOCOL_SYNC_BYTE, msgType, len, sq] + rest
      == [PROTOCOL_SYNC_BYTE] + ([msgType] + ([len] + ([sq] + rest)));
    assert NoEvents(4) == [NoEvent, NoEvent, NoEvent, NoEvent];
  }

  /** The two CRC bytes of a matching trailer complete the packet. */
  lemma FeedTrailer(body: seq<byte>, len: byte)
    requires |body| == 3 + len as nat && len as nat <= PROTOCOL_MAX_PAYLOAD && body[1] == len
    ensures WellFormed(Rx(ReadingCrc, body, len))
    ensures var crc := Crc16Value(body);
      var pkt := Packet(body[0], len, body[2], body[3..], crc);
      FeedState(Rx(ReadingCrc, body, len), LE16(crc)) == Rx(WaitSync, body + LE16(crc), len)
      && FeedEvents(Rx(ReadingCrc, body, len), LE16(crc)) == [NoEvent, Accepted(pkt)]
  {
    var crc := Crc16Value(body);
    var trailer := LE16(crc);
    var n := len as nat;
    var whole := body + trailer;
    var c0 := Rx(ReadingCrc, body, len);
    var c1 := Rx(ReadingCrc, body + [trailer[0]], len);
    var pkt := Packet(body[0], len, body[2], body[3..], crc);
    LE16RoundTrip(crc);
    assert whole[3 + n..5 + n] == trailer;
    assert whole[..3 + n] == body;
    assert whole[3..3 + n] == body[3..];
    assert WellFormed(c0) && WellFormed(c1);
    assert Advance(c0, trailer[0]).0 == c1 && Advance(c0, trailer[0]).1 == NoEvent;
    assert c1.buf + [trailer[1]] == whole;
    assert Advance(c1, trailer[1]).0 == Rx(WaitSync, whole, len) && Advance(c1, trailer[1]).1 == Accepted(pkt);
    FeedCons(c1, trailer[1], []);
    FeedCons(c0, trailer[0], [trailer[1]]);
    assert trailer == [trailer[0]] + [trailer[1]] && [trailer[1]] + [] == [trailer[1]];
  }

  lemma NoEventsAppend(a: nat, b: nat)
    ensures NoEvents(a) + NoEvents(b) == NoEvents(a + b)
  {
  }

  /** A frame is the header, the payload, then the trailer. */
  lemma FrameParts(msgType: byte, sq: byte, payload: seq<byte>)
    requires |payload| <= PROTOCOL_MAX_PAYLOAD
    ensures Frame(msgType, sq, payload)
      == [PROTOCOL_SYNC_BYTE, msgType, |payload| as byte, sq]
         + (payload + LE16(Crc16Value(FrameBody(msgType, sq, payload))))
  {
  }

  /**
   * Round trip between the transmitter and the parser: a frame built for
   * any payload within the limit, fed to a parser waiting for sync,
   * produces exactly one event, the acceptance of the same packet on its
   * last byte, and leaves the parser waiting for sync.
   */
  lemma {:induction false} FrameIsAccepted(rx: Rx, msgType: byte, sq: byte, payload: seq<byte>)
    requires WellFormed(rx) && rx.state == WaitSync
    requires |payload| <= PROTOCOL_MAX_PAYLOAD
    ensures var frame := Frame(msgType, sq, payload);
      var crc := Crc16Value(FrameBody(msgType, sq, payload));
      FeedState(rx, frame).state == WaitSync
      && FeedEvents(rx, frame) == NoEvents(|frame| - 1) + [Accepted(Packet(msgType, |payload| as byte, sq, payload, crc))]
  {
    var crc := Crc16Value(FrameBody(msgType, sq, payload));
    var n := |payload|;
    var len := n as byte;
    var trailer := LE16(crc);
    var pkt := Packet(msgType, len, sq, payload, crc);
    var r4 := Rx(if n > 0 then ReadingPayload else ReadingCrc, [msgType, len, sq], len);
    FeedAfterHeader(msgType, sq, payload);
    FeedHeader(rx, msgType, len, sq, payload + trailer);
    FrameParts(msgType, sq, payload);
    NoEventsAppend(4, n);
    NoEventsAppend(4 + n, 1);
  }

  /** After the header: the payload bytes, then the trailer that completes the packet. */
  lemma FeedAfterHeader(msgType: byte, sq: byte, payload: seq<byte>)
    requires |payload| <= PROTOCOL_MAX_PAYLOAD
    ensures var n := |payload|;
      var len := n as byte;
      var body := FrameBody(msgType, sq, payload);
      var crc := Crc16Value(body);
      var r4 := Rx(if n > 0 then ReadingPayload else ReadingCrc, [msgType, len, sq], len);
      WellFormed(r4)
      && FeedState(r4, payload + LE16(crc)) == Rx(WaitSync, body + LE16(crc), len)
      && FeedEvents(r4, payload + LE16(crc)) == NoEvents(n) + [NoEvent, Accepted(Packet(msgType, len, sq, payload, crc))]
  {
    if payload != [] {
      FeedPayloadThenTrailer(msgType, sq, payload);
    } else {
      EmptyPayloadThenTrailer(msgType, sq, payload);
    }
  }

  /** A non-empty payload: its bytes take the parser to the CRC, then the trailer completes the packet. */
  lemma FeedPayloadThenTrailer(msgType: byte, sq: byte, payload: seq<byte>)
    requires 0 < |payload| <= PROTOCOL_MAX_PAYLOAD
    ensures var len := |payload| as byte;
      var body := FrameBody(msgType, sq, payload);
      var crc := Crc16Value(body);
      var r4 := Rx(ReadingPayload, [msgType, len, sq], len);
      WellFormed(r4)
      && FeedState(r4, payload + LE16(crc)) == Rx(WaitSync, body + LE16(crc), len)
      && FeedEvents(r4, payload + LE16(crc)) == NoEvents(|payload|) + [NoEvent, Accepted(Packet(msgType, len, sq, payload, crc))]
  {
    var len := |payload| as byte;
    var header := [msgType, len, sq];
    var body := FrameBody(msgType, sq, payload);
    assert body == header + payload && body[0] == msgType && body[1] == len && body[2] == sq;
    FeedTrailer(body, len);
    assert WellFormed(Rx(ReadingPayload, header, len));
    FeedPayload(Rx(ReadingPayload, header, len), payload, LE16(Crc16Value(body)));
  }

  /** An empty payload: the header leaves the parser at the CRC, and the trailer completes the packet. */
  lemma EmptyPayloadThenTrailer(msgType: byte, sq: byte, payload: seq<byte>)
    requires payload == []
    ensures var body := FrameBody(msgType, sq, payload);
      var crc := Crc16Value(body);
      var r4 := Rx(ReadingCrc, [msgType, 0, sq], 0);
      WellFormed(r4)
      && FeedState(r4, payload + LE16(crc)) == Rx(WaitSync, body + LE16(crc), 0)
      && FeedEvents(r4, payload + LE16(crc)) == NoEvents(0) + [NoEvent, Accepted(Packet(msgType, 0, sq, payload, crc))]
  {
    var body := FrameBody(msgType, sq, payload);
    assert body == [msgType, 0, sq];
    FeedTrailer(body, 0);
    assert body[3..] == [];
    assert payload + LE16(Crc16Value(body)) == LE16(Crc16Value(body));
    assert NoEvents(0) == [];
  }

  // ---------------------------------------------------------------------------
  // Commands awaiting an ACK
  // ---------------------------------------------------------------------------

  /** One slot of `g_pending_cmds`. */
  datatype PendingCmd = PendingCmd(
    active: bool, msgType: byte, seqNum: byte, payload: seq<byte>, retryCount: nat, sentTimeMs: nat)

  const FREE_SLOT: PendingCmd := PendingCmd(false, 0, 0, [], 0, 0)

  /** Number of active slots. */
  function CountActive(slots: seq<PendingCmd>): (r: nat)
    ensures r <= |slots|
    decreases |slots|
  {
    if slots == [] then 0
    else CountActive(slots[..|slots| - 1]) + (if slots[|slots| - 1].active then 1 else 0)
  }

  /** Replacing one slot changes the count by the change in that slot. */
  lemma {:induction false} CountActiveUpdate(slots: seq<PendingCmd>, i: nat, c: PendingCmd)
    requires i < |slots|
    ensures CountActive(slots[i := c])
      == CountActive(slots) - (if slots[i].active then 1 else 0) + (if c.active then 1 else 0)
    decreases |slots|
  {
    var s' := slots[i := c];
    var n := |slots| - 1;
    assert s'[..n] == if i == n then slots[..n] else slots[..n][i := c];
    if i < n {
      CountActiveUpdate(slots[..n], i, c);
    }
  }

  /** The table is full exactly when every slot is active. */
  lemma {:induction false} CountActiveFull(slots: seq<PendingCmd>)
    ensures CountActive(slots) == |slots| <==> forall j :: 0 <= j < |slots| ==> slots[j].active
    decreases |slots|
  {
    if slots != [] {
      var n := |slots| - 1;
      CountActiveFull(slots[..n]);
      assert forall j :: 0 <= j < n ==> slots[..n][j] == slots[j];
    }
  }

  /** The first inactive slot, which `add_pending_command` takes. */
  function FirstFree(slots: seq<PendingCmd>): (r: Option<nat>)
    ensures r.Some? ==>
              r.value < |slots| && !slots[r.value].active
              && forall j :: 0 <= j < r.value ==> slots[j].active
    ensures r.None? ==> forall j :: 0 <= j < |slots| ==> slots[j].active
    decreases |slots|
  {
    if slots == [] then None
    else if !slots[0].active then Some(0)
    else match FirstFree(slots[1..])
      case None => None
      case Some(k) => Some(k + 1)
  }

  /** The first active slot for sequence number `sq`, which an ACK releases. */
  function FirstWithSeq(slots: seq<PendingCmd>, sq: byte): (r: Option<nat>)
    ensures r.Some? ==>
              r.value < |slots| && slots[r.value].active && slots[r.value].seqNum == sq
              && forall j :: 0 <= j < r.value ==> !(slots[j].active && slots[j].seqNum == sq)
    ensures r.None? ==> forall j :: 0 <= j < |slots| ==> !(slots[j].active && slots[j].seqNum == sq)
    decreases |slots|
  {
    if slots == [] then None
    else if slots[0].active && slots[0].seqNum == sq then Some(0)
    else match FirstWithSeq(slots[1..], sq)
      case None => None
      case Some(k) => Some(k + 1)
  }

  /** The table after `add_pending_command`. */
  function Tracked(slots: seq<PendingCmd>, cmd: PendingCmd): (r: seq<PendingCmd>)
    requires cmd.active
    ensures |r| == |slots|
    ensures FirstFree(slots).Some? ==> CountActive(r) == CountActive(slots) + 1
    ensures FirstFree(slots).None? ==> r == slots && CountActive(slots) == |slots|
  {
    match FirstFree(slots)
    case None => CountActiveFull(slots); slots
    case Some(i) => CountActiveUpdate(slots, i, cmd); slots[i := cmd]
  }

  /** The table after `remove_pending_command(sq)`. */
  function Released(slots: seq<PendingCmd>, sq: byte): (r: seq<PendingCmd>)
    ensures |r| == |slots|
    ensures FirstWithSeq(slots, sq).Some? ==> CountActive(r) == CountActive(slots) - 1
    ensures FirstWithSeq(slots, sq).None? ==> r == slots
    ensures forall j :: 0 <= j < |slots| ==> r[j] == slots[j] || (slots[j].seqNum == sq && !r[j].active)
  {
    match FirstWithSeq(slots, sq)
    case None => slots
    case Some(i) =>
      var c := slots[i].(active := false);
      CountActiveUpdate(slots, i, c);
      slots[i := c]
  }

  /** A packet that releases a pending command: an ACK carrying at least `ack_payload_t`. */
  predicate IsAck(p: Packet) {
    p.msgType == MSG_ACK && p.length >= 4
  }

  /**
   * A sequence error: a command-range packet whose seq does not follow the
   * last one received (wrapping at 256), once a packet has been seen.
   */
  predicate SequenceError(lastSeq: byte, p: Packet) {
    p.msgType >= MSG_CMD_SET_TEMP && lastSeq != NO_SEQ_RECEIVED
    && p.seqNum as int != (lastSeq as int + 1) % 256
  }

  /** Why `send_packet` refuses before building a frame. */
  predicate Refused(msgType: byte, length: nat, backpressure: bool) {
    length > PROTOCOL_MAX_PAYLOAD || (NeedsAck(msgType) && backpressure)
  }

  // ---------------------------------------------------------------------------
  // ACK timeouts and retries (process_pending_commands)
  // ---------------------------------------------------------------------------

  /** What one pass of the retry scan did to one slot. */
  datatype RetryOutcome =
    | NotDue                      // inactive, or its ACK timeout has not expired
    | Resent(frame: seq<byte>)    // retried, and the UART took the frame
    | ResendDropped               // retried, but the UART refused the frame
    | Expired                     // out of retries: the command is dropped

  datatype Retry = Retry(slot: PendingCmd, outcome: RetryOutcome)

  /** An active command whose ACK is late (`now - sent_time_ms`, in uint32_t). */
  predicate Overdue(c: PendingCmd, now: nat, ackTimeoutMs: nat) {
    c.active && Wrap32(now - c.sentTimeMs) > ackTimeoutMs
  }

  /**
   * One slot of the retry scan as written: the retry count and the send
   * time are updated before the write, so a refused write also restarts
   * the ACK timeout.
   */
  function RetrySlotAsWritten(c: PendingCmd, now: nat, ackTimeoutMs: nat, maxRetries: nat, uartReady: bool): (r: Retry)
    requires |c.payload| <= PROTOCOL_MAX_PAYLOAD
    ensures r.slot.sentTimeMs == (if Overdue(c, now, ackTimeoutMs) && c.retryCount < maxRetries then now else c.sentTimeMs)
  {
    if !Overdue(c, now, ackTimeoutMs) then Retry(c, NotDue)
    else if c.retryCount < maxRetries then
      var retried := c.(retryCount := c.retryCount + 1, sentTimeMs := now);
      Retry(retried, if uartReady then Resent(Frame(c.msgType, c.seqNum, c.payload)) else ResendDropped)
    else Retry(c.(active := false), Expired)
  }

  /**
   * One slot of the retry scan, with the send time kept when the UART
   * refuses the frame, so that the command is retried on the next pass.
   */
  function RetrySlot(c: PendingCmd, now: nat, ackTimeoutMs: nat, maxRetries: nat, uartReady: bool): Retry
    requires |c.payload| <= PROTOCOL_MAX_PAYLOAD
  {
    if !Overdue(c, now, ackTimeoutMs) then Retry(c, NotDue)
    else if c.retryCount < maxRetries then
      if uartReady then
        Retry(c.(retryCount := c.retryCount + 1, sentTimeMs := now), Resent(Frame(c.msgType, c.seqNum, c.payload)))
      else
        Retry(c.(retryCount := c.retryCount + 1), ResendDropped)
    else Retry(c.(active := false), Expired)
  }
  /**
   * What one slot's retry does: a slot that is not overdue is left alone;
   * an overdue one with retries left is resent (the frame is the one
   * `send_packet` built) or its resend dropped, with one more retry
   * counted; an overdue one with none left expires. The command itself
   * never changes.
   */
  lemma RetrySlotSpec(c: PendingCmd, now: nat, ackTimeoutMs: nat, maxRetries: nat, uartReady: bool)
    requires |c.payload| <= PROTOCOL_MAX_PAYLOAD
    ensures var r := RetrySlot(c, now, ackTimeoutMs, maxRetries, uartReady);
      r.slot.msgType == c.msgType && r.slot.seqNum == c.seqNum && r.slot.payload == c.payload
      && (r.outcome == NotDue <==> !Overdue(c, now, ackTimeoutMs))
      && (r.outcome == NotDue ==> r.slot == c)
      && (r.outcome == Expired <==> Overdue(c, now, ackTimeoutMs) && c.retryCount >= maxRetries)
      && (r.outcome == Expired ==> !r.slot.active)
      && (r.outcome.Resent? <==> Overdue(c, now, ackTimeoutMs) && c.retryCount < maxRetries && uartReady)
      && (r.outcome.Resent? ==> r.outcome.frame == Frame(c.msgType, c.seqNum, c.payload) && r.slot.sentTimeMs == now)
      && (r.outcome.Resent? || r.outcome == ResendDropped ==>
            r.slot.active && r.slot.retryCount == c.retryCount + 1 && r.slot.retryCount <= maxRetries)
      && (r.slot.active ==> c.active)
  {
  }


  /**
   * A retry the UART refused leaves the command due: at the same instant
   * it is still overdue, and only its retry count moved.
   */
  lemma DroppedRetryStaysDue(c: PendingCmd, now: nat, ackTimeoutMs: nat, maxRetries: nat)
    requires |c.payload| <= PROTOCOL_MAX_PAYLOAD
    requires Overdue(c, now, ackTimeoutMs) && c.retryCount < maxRetries
    ensures RetrySlot(c, now, ackTimeoutMs, maxRetries, false).outcome == ResendDropped
    ensures Overdue(RetrySlot(c, now, ackTimeoutMs, maxRetries, false).slot, now, ackTimeoutMs)
    ensures RetrySlot(c, now, ackTimeoutMs, maxRetries, false).slot == c.(retryCount := c.retryCount + 1)
  {
  }

  /**
   * As written, a refused retry is not retried on the next pass: a command
   * sent at 0 with a 100 ms timeout, retried at 101 while the UART is
   * busy, is no longer overdue at 102.
   */
  lemma DroppedRetryDeferredAsWritten()
    ensures var c := PendingCmd(true, MSG_CMD_SET_TEMP, 0, [], 0, 0);
      var r := RetrySlotAsWritten(c, 101, 100, 3, false);
      r.outcome == ResendDropped && !Overdue(r.slot, 102, 100)
      && Overdue(RetrySlot(c, 101, 100, 3, false).slot, 102, 100)
  {
  }

  /**
   * The retry count never passes the limit, so a command is put on the
   * wire at most 1 + maxRetries times before it expires.
   */
  lemma RetryCountBounded(c: PendingCmd, now: nat, ackTimeoutMs: nat, maxRetries: nat, uartReady: bool)
    requires |c.payload| <= PROTOCOL_MAX_PAYLOAD && c.retryCount <= maxRetries
    ensures RetrySlot(c, now, ackTimeoutMs, maxRetries, uartReady).slot.retryCount <= maxRetries
    ensures c.retryCount == maxRetries && Overdue(c, now, ackTimeoutMs) ==>
              RetrySlot(c, now, ackTimeoutMs, maxRetries, uartReady).outcome == Expired
  {
  }

  /** The counters one slot's retry adds to the statistics. */
  datatype RetryTally = RetryTally(retries: nat, dropped: nat, expired: nat, bytes: nat, frames: seq<seq<byte>>)

  const NO_RETRIES: RetryTally := RetryTally(0, 0, 0, 0, [])

  function Contribution(r: Retry): (t: RetryTally)
    ensures t.retries == t.dropped + |t.frames| && t.expired <= 1 && t.retries + t.expired <= 1
  {
    match r.outcome
    case NotDue => NO_RETRIES
    case Resent(f) => RetryTally(1, 0, 0, |f|, [f])
    case ResendDropped => RetryTally(1, 1, 0, 0, [])
    case Expired => RetryTally(0, 0, 1, 0, [])
  }

  function AddTally(a: RetryTally, b: RetryTally): RetryTally {
    RetryTally(a.retries + b.retries, a.dropped + b.dropped, a.expired + b.expired,
               a.bytes + b.bytes, a.frames + b.frames)
  }

  /** The counters of a whole scan, slot by slot. */
  function Tally(rs: seq<Retry>): (t: RetryTally)
    ensures t.retries == t.dropped + |t.frames|
    ensures t.retries + t.expired <= |rs|
    decreases |rs|
  {
    if rs == [] then NO_RETRIES else AddTally(Tally(rs[..|rs| - 1]), Contribution(rs[|rs| - 1]))
  }

  /** The statistics after a scan with tally `t`. */
  function Charge(s: ProtocolStats, t: RetryTally): ProtocolStats {
    s.(retries := s.retries + t.retries, packetsDropped := s.packetsDropped + t.dropped,
       bytesSent := s.bytesSent + t.bytes, ackTimeouts := s.ackTimeouts + t.expired)
  }
  /** An overdue command with retries left: one more retry, from now when the UART takes the frame. */
  lemma ResendCharged(c: PendingCmd, now: nat, ackTimeoutMs: nat, maxRetries: nat, uartReady: bool, s: ProtocolStats)
    requires |c.payload| <= PROTOCOL_MAX_PAYLOAD && Overdue(c, now, ackTimeoutMs) && c.retryCount < maxRetries
    ensures var r := RetrySlot(c, now, ackTimeoutMs, maxRetries, uartReady);
      var frame := Frame(c.msgType, c.seqNum, c.payload);
      r.slot == c.(retryCount := c.retryCount + 1, sentTimeMs := if uartReady then now else c.sentTimeMs)
      && Contribution(r).expired == 0
      && Contribution(r).frames == (if uartReady then [frame] else [])
      && Charge(s, Contribution(r)) == if uartReady
        then s.(retries := s.retries + 1, bytesSent := s.bytesSent + |frame|)
        else s.(retries := s.retries + 1, packetsDropped := s.packetsDropped + 1)
  {
  }

  /** An overdue command out of retries: dropped, one more ACK timeout. */
  lemma ExpireCharged(c: PendingCmd, now: nat, ackTimeoutMs: nat, maxRetries: nat, uartReady: bool, s: ProtocolStats)
    requires |c.payload| <= PROTOCOL_MAX_PAYLOAD && Overdue(c, now, ackTimeoutMs) && c.retryCount >= maxRetries
    ensures var r := RetrySlot(c, now, ackTimeoutMs, maxRetries, uartReady);
      r.slot == c.(active := false)
      && Contribution(r).expired == 1 && Contribution(r).frames == []
      && Charge(s, Contribution(r)) == s.(ackTimeouts := s.ackTimeouts + 1)
  {
  }

  /** Every payload fits the frame buffer. */
  predicate PayloadsFit(slots: seq<PendingCmd>) {
    forall j :: 0 <= j < |slots| ==> |slots[j].payload| <= PROTOCOL_MAX_PAYLOAD
  }

  /** One pass of the retry scan over the whole table. */
  function RetryAll(slots: seq<PendingCmd>, now: nat, ackTimeoutMs: nat, maxRetries: nat, uartReady: bool): (rs: seq<Retry>)
    requires PayloadsFit(slots)
    ensures |rs| == |slots|
  {
    seq(|slots|, j requires 0 <= j < |slots| => RetrySlot(slots[j], now, ackTimeoutMs, maxRetries, uartReady))
  }

  /** Slot j of a pass is the outcome of RetrySlot on slot j alone. */
  lemma RetryAllAt(slots: seq<PendingCmd>, now: nat, ackTimeoutMs: nat, maxRetries: nat, uartReady: bool, j: nat)
    requires PayloadsFit(slots) && j < |slots|
    ensures RetryAll(slots, now, ackTimeoutMs, maxRetries, uartReady)[j] == RetrySlot(slots[j], now, ackTimeoutMs, maxRetries, uartReady)
  {
  }

  /** Charging a scan slot by slot is charging it at once. */
  lemma ChargeStep(s: ProtocolStats, tx: seq<seq<byte>>, rs: seq<Retry>, i: nat, before: nat, after: nat)
    requires i < |rs|
    ensures Charge(Charge(s, Tally(rs[..i])).(pendingCmdCount := before), Contribution(rs[i])).(pendingCmdCount := after)
         == Charge(s, Tally(rs[..i + 1])).(pendingCmdCount := after)
    ensures tx + Tally(rs[..i]).frames + Contribution(rs[i]).frames == tx + Tally(rs[..i + 1]).frames
    ensures Tally(rs[..i + 1]).expired == Tally(rs[..i]).expired + Contribution(rs[i]).expired
  {
    assert rs[..i + 1][..i] == rs[..i];
  }

  /** The slots a scan leaves behind. */
  function SlotsOf(rs: seq<Retry>): (r: seq<PendingCmd>)
    ensures |r| == |rs| && forall j :: 0 <= j < |rs| ==> r[j] == rs[j].slot
  {
    seq(|rs|, j requires 0 <= j < |rs| => rs[j].slot)
  }

  /** An event ends a frame short of the buffer's end; an accepted packet carries its whole payload. */
  lemma AdvanceShape(rx: Rx, b: byte)
    requires WellFormed(rx)
    ensures Advance(rx, b).1 != NoEvent ==> |Advance(rx, b).0.buf| < RX_BUFFER_SIZE
    ensures Advance(rx, b).1 != Overflow
    ensures Advance(rx, b).1.Accepted? ==>
      var p := Advance(rx, b).1.packet;
      p.length as nat == |p.payload| <= PROTOCOL_MAX_PAYLOAD
  {
  }

  /** The counters a packet with a matching CRC moves. */
  function AcceptStats(s: ProtocolStats, lastSeq: byte, p: Packet, handshake: bool, pendingCount: nat): ProtocolStats {
    s.(sequenceErrors := s.sequenceErrors + (if SequenceError(lastSeq, p) then 1 else 0),
       nacksReceived := s.nacksReceived + (if p.msgType == MSG_NACK then 1 else 0),
       handshakeComplete := handshake,
       pendingCmdCount := pendingCount)
  }

  /** The error counters a rejected frame or an overflow moves. */
  function ErrorStats(s: ProtocolStats, ev: RxEvent): ProtocolStats {
    s.(crcErrors := s.crcErrors + (if ev == CrcMismatch then 1 else 0),
       packetErrors := s.packetErrors + (if ev == Oversize || ev == Overflow then 1 else 0))
  }

  /** An event whose packet, if any, carries as many payload bytes as its length field says. */
  predicate WholePayload(ev: RxEvent) {
    ev.Accepted? ==> |ev.packet.payload| == ev.packet.length as nat
  }

  /** The pending table after an event: an ACK releases the command it names. */
  function SlotsAfter(slots: seq<PendingCmd>, ev: RxEvent): seq<PendingCmd>
    requires WholePayload(ev)
  {
    if ev.Accepted? && IsAck(ev.packet) then Released(slots, ev.packet.payload[1]) else slots
  }

  /** The packets an event hands to the callback. */
  function DeliveredBy(ev: RxEvent): seq<Packet> {
    if ev.Accepted? then [ev.packet] else []
  }

  /** The packets a run of events hands to the callback, in order. */
  function DeliveredAll(evs: seq<RxEvent>): (r: seq<Packet>)
    ensures |r| <= |evs|
    decreases |evs|
  {
    if evs == [] then [] else DeliveredAll(evs[..|evs| - 1]) + DeliveredBy(evs[|evs| - 1])
  }

  lemma DeliveredSnoc(evs: seq<RxEvent>, ev: RxEvent)
    ensures DeliveredAll(evs + [ev]) == DeliveredAll(evs) + DeliveredBy(ev)
  {
    assert (evs + [ev])[..|evs|] == evs;
  }

  /** One more byte of an input stream: the parser state and the delivered packets. */
  lemma FeedPrefixStep(rx0: Rx, input: seq<byte>, i: nat)
    requires WellFormed(rx0) && i < |input|
    ensures var rx := FeedState(rx0, input[..i]);
      FeedState(rx0, input[..i + 1]) == RxStep(rx, input[i]).0
      && DeliveredAll(FeedEvents(rx0, input[..i + 1]))
         == DeliveredAll(FeedEvents(rx0, input[..i])) + DeliveredBy(RxStep(rx, input[i]).1)
  {
    assert input[..i + 1] == input[..i] + [input[i]];
    FeedSnoc(rx0, input[..i], input[i]);
    DeliveredSnoc(FeedEvents(rx0, input[..i]), RxStep(FeedState(rx0, input[..i]), input[i]).1);
  }

  /** One more byte of an input stream: the bookkeeping takes that byte's event. */
  lemma BookPrefixStep(bk0: Book, rx0: Rx, input: seq<byte>, i: nat)
    requires WellFormed(rx0) && i < |input|
    ensures BookFeed(bk0, rx0, input[..i + 1])
      == BookAfter(BookFeed(bk0, rx0, input[..i]), RxStep(FeedState(rx0, input[..i]), input[i]).1)
  {
    assert input[..i + 1] == input[..i] + [input[i]];
    BookFeedSnoc(bk0, rx0, input[..i], input[i]);
  }

  lemma PacketsAssoc(a: seq<Packet>, b: seq<Packet>, c: seq<Packet>)
    ensures a + (b + c) == (a + b) + c
  {
  }

  /** Feeding a stream and then one more byte. */
  lemma {:induction false} FeedSnoc(rx: Rx, bytes: seq<byte>, b: byte)
    requires WellFormed(rx)
    ensures FeedState(rx, bytes + [b]) == RxStep(FeedState(rx, bytes), b).0
    ensures FeedEvents(rx, bytes + [b]) == FeedEvents(rx, bytes) + [RxStep(FeedState(rx, bytes), b).1]
    decreases |bytes|
  {
    if bytes == [] {
      assert [b][1..] == [];
    } else {
      var rx1 := RxStep(rx, bytes[0]).0;
      assert (bytes + [b])[0] == bytes[0] && (bytes + [b])[1..] == bytes[1..] + [b];
      FeedSnoc(rx1, bytes[1..], b);
    }
  }

  /** The protocol's bookkeeping beside the parser: the pending table, the counters, the last sequence number and the handshake flag. */
  datatype Book = Book(slots: seq<PendingCmd>, stats: ProtocolStats, lastSeq: byte, handshake: bool)

  /**
   * The bookkeeping after `protocol_process`'s parser timeout (a timeout
   * error when the parser was stale) and its retry pass `rs` over the
   * pending table.
   */
  function PassBook(bk: Book, stale: bool, rs: seq<Retry>): (r: Book)
    ensures r.slots == SlotsOf(rs) && r.stats.pendingCmdCount == CountActive(r.slots)
    ensures r.lastSeq == bk.lastSeq && r.handshake == bk.handshake
  {
    var s := if stale then bk.stats.(timeoutErrors := bk.stats.timeoutErrors + 1) else bk.stats;
    Book(SlotsOf(rs), Charge(s, Tally(rs)).(pendingCmdCount := CountActive(SlotsOf(rs))), bk.lastSeq, bk.handshake)
  }

  /** Fields moved as one housekeeping pass moves them make up PassBook. */
  lemma PassBookOf(bk: Book, stale: bool, rs: seq<Retry>, charged: ProtocolStats, slots: seq<PendingCmd>, stats: ProtocolStats)
    requires charged == if stale then bk.stats.(timeoutErrors := bk.stats.timeoutErrors + 1) else bk.stats
    requires slots == SlotsOf(rs) && stats == Charge(charged, Tally(rs)).(pendingCmdCount := CountActive(slots))
    ensures Book(slots, stats, bk.lastSeq, bk.handshake) == PassBook(bk, stale, rs)
  {
  }

  /** The bookkeeping after one received byte and the event it completes. */
  function BookAfter(bk: Book, ev: RxEvent): (r: Book)
    requires WholePayload(ev)
    ensures r.stats.bytesReceived == bk.stats.bytesReceived + 1
  {
    var slots := SlotsAfter(bk.slots, ev);
    var hs := HandshakeAfter(bk.handshake, ev);
    Book(slots, StatsAfter(bk.stats.(bytesReceived := bk.stats.bytesReceived + 1), bk.lastSeq, ev, hs, CountActive(slots)),
         LastSeqAfter(bk.lastSeq, ev), hs)
  }

  /** Bookkeeping whose every part moved as one event moves it is that event's bookkeeping. */
  lemma BookAfterOf(bk: Book, ev: RxEvent, slots: seq<PendingCmd>, stats: ProtocolStats, lastSeq: byte, handshake: bool)
    requires WholePayload(ev)
    requires slots == SlotsAfter(bk.slots, ev) && lastSeq == LastSeqAfter(bk.lastSeq, ev)
    requires handshake == HandshakeAfter(bk.handshake, ev)
    requires stats == StatsAfter(bk.stats.(bytesReceived := bk.stats.bytesReceived + 1), bk.lastSeq, ev, handshake, CountActive(slots))
    ensures Book(slots, stats, lastSeq, handshake) == BookAfter(bk, ev)
  {
  }

  /** The bookkeeping after a byte stream fed to a parser starting at `rx`. */
  function BookFeed(bk: Book, rx: Rx, bytes: seq<byte>): (r: Book)
    requires WellFormed(rx)
    ensures r.stats.bytesReceived == bk.stats.bytesReceived + |bytes|
    decreases |bytes|
  {
    if bytes == [] then bk
    else BookFeed(BookAfter(bk, RxStep(rx, bytes[0]).1), RxStep(rx, bytes[0]).0, bytes[1..])
  }

  /** Feeding a stream and then one more byte: the bookkeeping takes that byte's event last. */
  lemma {:induction false} BookFeedSnoc(bk: Book, rx: Rx, bytes: seq<byte>, b: byte)
    requires WellFormed(rx)
    ensures BookFeed(bk, rx, bytes + [b]) == BookAfter(BookFeed(bk, rx, bytes), RxStep(FeedState(rx, bytes), b).1)
    decreases |bytes|
  {
    if bytes == [] {
      assert [b][1..] == [];
    } else {
      var st := RxStep(rx, bytes[0]);
      assert (bytes + [b])[0] == bytes[0] && (bytes + [b])[1..] == bytes[1..] + [b];
      BookFeedSnoc(BookAfter(bk, st.1), st.0, bytes[1..], b);
    }
  }

  /**
   * `protocol_process`'s parser timeout: a parser part-way through a frame
   * whose last byte arrived more than the timeout ago (on the 32-bit
   * millisecond clock) is abandoned. A last-byte time of 0 means none.
   */
  predicate ParserStale(state: RxState, lastByteTime: nat, now: nat, parserTimeoutMs: nat) {
    state != WaitSync && lastByteTime > 0 && Wrap32(now - lastByteTime) > parserTimeoutMs
  }

  /** `g_last_seq_received` after an event. */
  function LastSeqAfter(lastSeq: byte, ev: RxEvent): byte {
    if ev.Accepted? then ev.packet.seqNum else lastSeq
  }

  /** `g_handshake_complete` after an event. */
  predicate HandshakeAfter(handshake: bool, ev: RxEvent) {
    handshake || (ev.Accepted? && ev.packet.msgType == MSG_HANDSHAKE)
  }

  /** The statistics after an event, given the new handshake flag and pending count. */
  function StatsAfter(s: ProtocolStats, lastSeq: byte, ev: RxEvent, handshake: bool, pendingCount: nat): ProtocolStats {
    if ev.Accepted? then AcceptStats(s, lastSeq, ev.packet, handshake, pendingCount) else ErrorStats(s, ev)
  }

  /** A byte that completes nothing leaves the counters alone; an overflow is a packet error. */
  lemma QuietStats(s: ProtocolStats, lastSeq: byte, handshake: bool, pendingCount: nat)
    ensures StatsAfter(s, lastSeq, NoEvent, handshake, pendingCount) == s
    ensures StatsAfter(s, lastSeq, Overflow, handshake, pendingCount) == s.(packetErrors := s.packetErrors + 1)
  {
  }

  /** `protocol_stats_t`: counters are unbounded here. */
  datatype ProtocolStats = ProtocolStats(
    packetsSent: nat, bytesSent: nat, packetsDropped: nat, lastSeqSent: byte,
    bytesReceived: nat, crcErrors: nat, packetErrors: nat, timeoutErrors: nat,
    sequenceErrors: nat, nacksReceived: nat, retries: nat, ackTimeouts: nat,
    pendingCmdCount: nat, handshakeComplete: bool)

  const ZERO_STATS: ProtocolStats := ProtocolStats(0, 0, 0, 0, 0, 0, 0, 0, 0, 0, 0, 0, 0, false)

  /**
   * `protocol_crc16(data + start, length)`: the bitwise CRC loop over a
   * window of a byte array.
   */
  method ProtocolCrc16(data: array<byte>, start: nat, length: nat) returns (crc: bv16)
    requires start + length <= data.Length
    ensures crc == Crc16(data[start..start + length])
  {
    crc := CRC16_INIT;
    var i := 0;
    while i < length
      invariant i <= length
      invariant crc == Crc16(data[start..start + i])
    {
      ghost var before := crc;
      crc := crc ^ ((data[start + i] as bv16) << 8);
      ghost var start8 := crc;
      var j := 0;
      while j < 8
        invariant j <= 8
        invariant crc == ShiftBits(start8, j)
      {
        if crc & 0x8000 != 0 {
          crc := (crc << 1) ^ CRC16_POLY;
        } else {
          crc := crc << 1;
        }
        j := j + 1;
      }
      EightShifts(before, data[start + i]);
      assert data[start..start + i + 1][..i] == data[start..start + i];
      i := i + 1;
    }
  }

  /**
   * The frame assembly inside `send_packet`: header, payload copy, then
   * the CRC over type..payload appended low byte first.
   */
  /** Writes the header and the payload into the transmit buffer. */
  method WriteHeader(buffer: array<byte>, msgType: byte, sq: byte, payload: seq<byte>)
    requires buffer.Length == PROTOCOL_MAX_PACKET
    requires |payload| <= PROTOCOL_MAX_PAYLOAD
    modifies buffer
    ensures buffer[..4 + |payload|] == [PROTOCOL_SYNC_BYTE] + FrameBody(msgType, sq, payload)
  {
    var length := |payload|;
    buffer[0] := PROTOCOL_SYNC_BYTE;
    buffer[1] := msgType;
    buffer[2] := length as byte;
    buffer[3] := sq;
    var k := 0;
    while k < length
      invariant k <= length
      invariant buffer[..4] == [PROTOCOL_SYNC_BYTE, msgType, length as byte, sq]
      invariant buffer[4..4 + k] == payload[..k]
    {
      buffer[4 + k] := payload[k];
      k := k + 1;
    }
    assert buffer[4..4 + length] == payload;
    assert buffer[..4 + length] == buffer[..4] + buffer[4..4 + length];
  }

  /** Stores a 16-bit value low byte first at `at`, leaving the bytes before it alone. */
  method StoreLE16(buffer: array<byte>, at: nat, value: nat)
    requires IsU16(value) && at + 2 <= buffer.Length
    modifies buffer
    ensures buffer[..at] == old(buffer[..at])
    ensures buffer[at..at + 2] == LE16(value)
  {
    buffer[at] := Byte(value % 0x100);
    buffer[at + 1] := Byte(value / 0x100);
  }

  /** Appends the CRC, low byte first, after a buffer holding sync and body. */
  method WriteTrailer(buffer: array<byte>, body: seq<byte>) returns (frame: seq<byte>)
    requires buffer.Length == PROTOCOL_MAX_PACKET
    requires 3 <= |body| <= 3 + PROTOCOL_MAX_PAYLOAD
    requires buffer[..1 + |body|] == [PROTOCOL_SYNC_BYTE] + body
    modifies buffer
    ensures frame == [PROTOCOL_SYNC_BYTE] + body + LE16(Crc16Value(body))
  {
    var n := |body|;
    ghost var head := buffer[..1 + n];
    assert buffer[1..1 + n] == head[1..] == body;
    var crc := ProtocolCrc16(buffer, 1, n);
    var crcValue := crc as nat;
    assert crcValue == Crc16Value(body);
    StoreLE16(buffer, 1 + n, crcValue);
    frame := buffer[..3 + n];
    assert frame == buffer[..1 + n] + buffer[1 + n..3 + n];
    assert frame == head + LE16(crcValue);
  }

  /** send_packet's frame assembly: the bytes it hands to the UART. */
  method BuildFrame(msgType: byte, sq: byte, payload: seq<byte>) returns (frame: seq<byte>)
    requires |payload| <= PROTOCOL_MAX_PAYLOAD
    ensures frame == Frame(msgType, sq, payload)
  {
    var buffer := new byte[PROTOCOL_MAX_PACKET];
    WriteHeader(buffer, msgType, sq, payload);
    frame := WriteTrailer(buffer, FrameBody(msgType, sq, payload));
    FrameParts(msgType, sq, payload);
  }

  /**
   * The state of protocol.c: the receive parser, the transmit sequence
   * counter, the pending-command table and the statistics. The UART and
   * the packet callback are represented by the `transmitted` and
   * `delivered` logs.
   */
  class ProtocolLink {
    /** PROTOCOL_MAX_PENDING_CMDS and PROTOCOL_BACKPRESSURE_THRESHOLD. */
    const maxPending: nat
    const backpressureThreshold: nat
    /** PROTOCOL_PARSER_TIMEOUT_MS, PROTOCOL_ACK_TIMEOUT_MS and PROTOCOL_RETRY_COUNT. */
    const parserTimeoutMs: nat
    const ackTimeoutMs: nat
    const maxRetries: nat

    const rxBuffer: array<byte>
    const pending: array<PendingCmd>

    var rxState: RxState
    var rxIndex: nat
    var rxLength: byte
    var rxLastByteTime: nat
    var txSeq: byte
    var lastSeqReceived: byte
    var handshakeComplete: bool
    var backpressureActive: bool
    var stats: ProtocolStats

    /** Frames handed to the UART, oldest first. */
    var transmitted: seq<seq<byte>>
    /** Packets handed to the packet callback, oldest first. */
    var delivered: seq<Packet>

    function RxView(): Rx
      reads this, rxBuffer
      requires rxIndex <= rxBuffer.Length
    {
      Rx(rxState, rxBuffer[..rxIndex], rxLength)
    }

    /** The bookkeeping the received bytes update: the pending table, the counters, the last sequence number and the handshake flag. */
    function Bookkeeping(): Book
      reads this, pending
    {
      Book(pending[..], stats, lastSeqReceived, handshakeComplete)
    }

    /**
     * The count in the statistics is the number of active slots, and
     * backpressure is on exactly when that count has reached the threshold.
     */
    predicate Valid()
      reads this, rxBuffer, pending
    {
      rxBuffer.Length == RX_BUFFER_SIZE && rxIndex <= rxBuffer.Length && WellFormed(RxView())
      && Bookkept()
    }

    /** The invariant of the command table and the counters, apart from the parser. */
    predicate Bookkept()
      reads this, pending
    {
      pending.Length == maxPending && 1 <= backpressureThreshold
      && stats.pendingCmdCount == CountActive(pending[..])
      && (backpressureActive <==> stats.pendingCmdCount >= backpressureThreshold)
      && stats.handshakeComplete == handshakeComplete
      && (forall j :: 0 <= j < pending.Length ==> |pending[j].payload| <= PROTOCOL_MAX_PAYLOAD)
    }

    constructor (maxPending: nat, backpressureThreshold: nat, parserTimeoutMs: nat, ackTimeoutMs: nat, maxRetries: nat)
      requires 1 <= backpressureThreshold
      ensures Valid()
      ensures this.maxPending == maxPending && this.backpressureThreshold == backpressureThreshold
      ensures this.parserTimeoutMs == parserTimeoutMs && this.ackTimeoutMs == ackTimeoutMs
      ensures this.maxRetries == maxRetries
      ensures RxView() == RX_RESET && txSeq == 0 && lastSeqReceived == NO_SEQ_RECEIVED
      ensures stats == ZERO_STATS && !backpressureActive && !handshakeComplete
      ensures forall i :: 0 <= i < pending.Length ==> pending[i] == FREE_SLOT
      ensures transmitted == [] && delivered == []
    {
      this.maxPending := maxPending;
      this.backpressureThreshold := backpressureThreshold;
      this.parserTimeoutMs := parserTimeoutMs;
      this.ackTimeoutMs := ackTimeoutMs;
      this.maxRetries := maxRetries;
      rxBuffer := new byte[RX_BUFFER_SIZE](_ => 0);
      pending := new PendingCmd[maxPending](_ => FREE_SLOT);
      rxState := WaitSync;
      rxIndex := 0;
      rxLength := 0;
      rxLastByteTime := 0;
      txSeq := 0;
      lastSeqReceived := NO_SEQ_RECEIVED;
      handshakeComplete := false;
      backpressureActive := false;
      stats := ZERO_STATS;
      transmitted := [];
      delivered := [];
      new;
      assert forall i :: 0 <= i < |pending[..]| ==> !pending[..][i].active;
      CountActiveZero(pending[..]);
    }

    /**
     * `add_pending_command`: the first free slot takes the command, the
     * count goes up, and backpressure turns on at the threshold. A full
     * table refuses it and nothing changes.
     */
    method AddPendingCommand(msgType: byte, sq: byte, payload: seq<byte>, now: nat) returns (ok: bool)
      requires Bookkept() && |payload| <= PROTOCOL_MAX_PAYLOAD
      modifies pending, this`stats, this`backpressureActive
      ensures Bookkept()
      ensures ok <==> FirstFree(old(pending[..])).Some?
      ensures ok <==> old(stats.pendingCmdCount) < maxPending
      ensures pending[..] == Tracked(old(pending[..]), PendingCmd(true, msgType, sq, payload, 0, now))
      ensures stats == old(stats).(pendingCmdCount := CountActive(pending[..]))
    {
      CountActiveFull(pending[..]);
      var i := 0;
      while i < pending.Length
        invariant i <= pending.Length
        invariant forall j :: 0 <= j < i ==> pending[j].active
        invariant pending[..] == old(pending[..])
      {
        if !pending[i].active {
          assert FirstFree(pending[..]) == Some(i);
          CountActiveUpdate(pending[..], i, PendingCmd(true, msgType, sq, payload, 0, now));
          pending[i] := PendingCmd(true, msgType, sq, payload, 0, now);
          stats := stats.(pendingCmdCount := stats.pendingCmdCount + 1);
          if stats.pendingCmdCount >= backpressureThreshold {
            backpressureActive := true;
          }
          return true;
        }
        i := i + 1;
      }
      return false;
    }

    /**
     * `remove_pending_command`: the first active slot with this sequence
     * number is freed, the count goes down, and backpressure is released
     * below the threshold. An unknown sequence number changes nothing.
     */
    method RemovePendingCommand(sq: byte)
      requires Bookkept()
      modifies pending, this`stats, this`backpressureActive
      ensures Bookkept()
      ensures pending[..] == Released(old(pending[..]), sq)
      ensures stats == old(stats).(pendingCmdCount := CountActive(pending[..]))
    {
      var i := 0;
      while i < pending.Length
        invariant i <= pending.Length
        invariant forall j :: 0 <= j < i ==> !(pending[j].active && pending[j].seqNum == sq)
        invariant pending[..] == old(pending[..])
      {
        if pending[i].active && pending[i].seqNum == sq {
          assert FirstWithSeq(pending[..], sq) == Some(i);
          CountActiveUpdate(pending[..], i, pending[i].(active := false));
          pending[i] := pending[i].(active := false);
          stats := stats.(pendingCmdCount := stats.pendingCmdCount - 1);
          if stats.pendingCmdCount < backpressureThreshold {
            backpressureActive := false;
          }
          return;
        }
        i := i + 1;
      }
    }

    /**
     * `send_packet`: refuses a payload above the maximum, and a command
     * that needs an ACK while backpressure is on, without using a sequence
     * number. Otherwise the frame takes the next sequence number (mod 256);
     * if the UART accepts it, the statistics record it and a command that
     * needs an ACK is tracked.
     */
    method SendPacket(msgType: byte, payload: seq<byte>, uartReady: bool, now: nat) returns (ok: bool)
      requires Valid() && |payload| < 0x100
      modifies this`txSeq, this`stats, this`transmitted, this`backpressureActive, pending
      ensures Valid()
      ensures ok <==> !Refused(msgType, |payload|, old(backpressureActive)) && uartReady
      ensures Refused(msgType, |payload|, old(backpressureActive)) ==>
        txSeq == old(txSeq) && stats == old(stats) && transmitted == old(transmitted)
        && pending[..] == old(pending[..])
      ensures !Refused(msgType, |payload|, old(backpressureActive)) ==>
        txSeq as int == Wrap8(old(txSeq) as int + 1)
      ensures !Refused(msgType, |payload|, old(backpressureActive)) && !uartReady ==>
        stats == old(stats).(packetsDropped := old(stats.packetsDropped) + 1)
        && transmitted == old(transmitted) && pending[..] == old(pending[..])
      ensures ok ==>
        transmitted == old(transmitted) + [Frame(msgType, old(txSeq), payload)]
        && pending[..] == (if NeedsAck(msgType)
                           then Tracked(old(pending[..]), PendingCmd(true, msgType, old(txSeq), payload, 0, now))
                           else old(pending[..]))
        && stats == old(stats).(packetsSent := old(stats.packetsSent) + 1,
                                bytesSent := old(stats.bytesSent) + |payload| + PROTOCOL_HEADER_SIZE + PROTOCOL_CRC_SIZE,
                                lastSeqSent := old(txSeq),
                                pendingCmdCount := CountActive(pending[..]))
    {
      if |payload| > PROTOCOL_MAX_PAYLOAD {
        return false;
      }
      var needsAck := MSG_CMD_SET_TEMP <= msgType < MSG_LOG;
      if needsAck && backpressureActive {
        return false;
      }
      ok := SendNumbered(msgType, payload, uartReady, now);
    }

    /** The part of `send_packet` past its refusals: the next sequence number, then the write. */
    method SendNumbered(msgType: byte, payload: seq<byte>, uartReady: bool, now: nat) returns (ok: bool)
      requires Valid() && |payload| <= PROTOCOL_MAX_PAYLOAD
      modifies this`txSeq, this`stats, this`transmitted, this`backpressureActive, pending
      ensures Valid()
      ensures ok == uartReady
      ensures txSeq as int == Wrap8(old(txSeq) as int + 1)
      ensures !uartReady ==>
        stats == old(stats).(packetsDropped := old(stats.packetsDropped) + 1)
        && transmitted == old(transmitted) && pending[..] == old(pending[..])
      ensures uartReady ==>
        transmitted == old(transmitted) + [Frame(msgType, old(txSeq), payload)]
        && pending[..] == (if NeedsAck(msgType)
                           then Tracked(old(pending[..]), PendingCmd(true, msgType, old(txSeq), payload, 0, now))
                           else old(pending[..]))
        && stats == old(stats).(packetsSent := old(stats.packetsSent) + 1,
                                bytesSent := old(stats.bytesSent) + |payload| + PROTOCOL_HEADER_SIZE + PROTOCOL_CRC_SIZE,
                                lastSeqSent := old(txSeq),
                                pendingCmdCount := CountActive(pending[..]))
    {
      var sq := txSeq;
      txSeq := Wrap8(txSeq as int + 1) as byte;
      var frame := BuildFrame(msgType, sq, payload);
      ok := Transmit(msgType, sq, payload, frame, uartReady, now);
    }

    /**
     * The end of `send_packet`: the write to the UART, the statistics of a
     * sent or dropped frame, and the tracking of a command that needs an ACK.
     */
    method Transmit(msgType: byte, sq: byte, payload: seq<byte>, frame: seq<byte>, uartReady: bool, now: nat)
      returns (ok: bool)
      requires Bookkept() && |payload| <= PROTOCOL_MAX_PAYLOAD && frame == Frame(msgType, sq, payload)
      modifies this`stats, this`transmitted, this`backpressureActive, pending
      ensures Bookkept()
      ensures ok == uartReady
      ensures !uartReady ==>
        stats == old(stats).(packetsDropped := old(stats.packetsDropped) + 1)
        && transmitted == old(transmitted) && pending[..] == old(pending[..])
      ensures uartReady ==>
        transmitted == old(transmitted) + [frame]
        && pending[..] == (if NeedsAck(msgType)
                           then Tracked(old(pending[..]), PendingCmd(true, msgType, sq, payload, 0, now))
                           else old(pending[..]))
        && stats == old(stats).(packetsSent := old(stats.packetsSent) + 1,
                                bytesSent := old(stats.bytesSent) + |payload| + PROTOCOL_HEADER_SIZE + PROTOCOL_CRC_SIZE,
                                lastSeqSent := sq,
                                pendingCmdCount := CountActive(pending[..]))
    {
      if !uartReady {
        stats := stats.(packetsDropped := stats.packetsDropped + 1);
        return false;
      }
      transmitted := transmitted + [frame];
      stats := stats.(packetsSent := stats.packetsSent + 1,
                      bytesSent := stats.bytesSent + |frame|,
                      lastSeqSent := sq);
      if MSG_CMD_SET_TEMP <= msgType < MSG_LOG {
        var tracked := AddPendingCommand(msgType, sq, payload, now);
      }
      return true;
    }

    /** Stores a slot, keeping the count of active slots in step. */
    method SetSlot(i: nat, c: PendingCmd)
      requires i < pending.Length
      modifies pending
      ensures pending[..] == old(pending[..])[i := c]
      ensures CountActive(pending[..])
        == CountActive(old(pending[..])) - (if old(pending[i]).active then 1 else 0) + (if c.active then 1 else 0)
    {
      CountActiveUpdate(pending[..], i, c);
      pending[i] := c;
    }

    /**
     * The retry branch of `process_pending_commands`: the retry is counted
     * and the frame rebuilt; the UART takes it (and the send time moves on)
     * or refuses it (and the drop is counted).
     */
    method Resend(i: nat, now: nat, uartReady: bool)
      requires Bookkept() && i < pending.Length && pending[i].active && pending[i].retryCount < maxRetries
      modifies pending, this`stats, this`transmitted
      ensures Bookkept()
      ensures pending[..] == old(pending[..])[i := old(pending[i]).(
        retryCount := old(pending[i]).retryCount + 1,
        sentTimeMs := if uartReady then now else old(pending[i]).sentTimeMs)]
      ensures var c := old(pending[i]);
        var frame := Frame(c.msgType, c.seqNum, c.payload);
        if uartReady then
          stats == old(stats).(retries := old(stats.retries) + 1, bytesSent := old(stats.bytesSent) + |frame|)
          && transmitted == old(transmitted) + [frame]
        else
          stats == old(stats).(retries := old(stats.retries) + 1, packetsDropped := old(stats.packetsDropped) + 1)
          && transmitted == old(transmitted)
    {
      var c := pending[i];
      stats := stats.(retries := stats.retries + 1);
      var frame := BuildFrame(c.msgType, c.seqNum, c.payload);
      if !uartReady {
        RetryDropped(i, c);
        return;
      }
      RetrySent(i, c, frame, now);
    }

    /** A resend the UART refused: one more retry, the drop counted. */
    method RetryDropped(i: nat, ghost c: PendingCmd)
      requires Bookkept() && i < pending.Length && pending[i] == c && c.active
      modifies pending, this`stats
      ensures Bookkept()
      ensures pending[..] == old(pending[..])[i := c.(retryCount := c.retryCount + 1)]
      ensures stats == old(stats).(packetsDropped := old(stats.packetsDropped) + 1)
    {
      SetSlot(i, pending[i].(retryCount := pending[i].retryCount + 1));
      stats := stats.(packetsDropped := stats.packetsDropped + 1);
    }

    /** A resend the UART took: one more retry from now, the frame written and its bytes counted. */
    method RetrySent(i: nat, ghost c: PendingCmd, frame: seq<byte>, now: nat)
      requires Bookkept() && i < pending.Length && pending[i] == c && c.active
      modifies pending, this`stats, this`transmitted
      ensures Bookkept()
      ensures pending[..] == old(pending[..])[i := c.(retryCount := c.retryCount + 1, sentTimeMs := now)]
      ensures stats == old(stats).(bytesSent := old(stats.bytesSent) + |frame|)
      ensures transmitted == old(transmitted) + [frame]
    {
      SetSlot(i, pending[i].(retryCount := pending[i].retryCount + 1, sentTimeMs := now));
      transmitted := transmitted + [frame];
      stats := stats.(bytesSent := stats.bytesSent + |frame|);
    }

    /** The give-up branch: the command is dropped and backpressure may be released. */
    method Expire(i: nat)
      requires Bookkept() && i < pending.Length && pending[i].active
      modifies pending, this`stats, this`backpressureActive
      ensures Bookkept()
      ensures pending[..] == old(pending[..])[i := old(pending[i]).(active := false)]
      ensures stats.pendingCmdCount + 1 == old(stats.pendingCmdCount)
      ensures stats == old(stats).(ackTimeouts := old(stats.ackTimeouts) + 1, pendingCmdCount := stats.pendingCmdCount)
    {
      var c := pending[i];
      stats := stats.(ackTimeouts := stats.ackTimeouts + 1);
      SetSlot(i, c.(active := false));
      stats := stats.(pendingCmdCount := stats.pendingCmdCount - 1);
      if stats.pendingCmdCount < backpressureThreshold {
        backpressureActive := false;
      }
    }

    /**
     * One slot of `process_pending_commands`: an overdue command is resent
     * while it has retries left, and dropped once it has none.
     */
    method RetryOne(i: nat, now: nat, uartReady: bool)
      requires Bookkept() && i < pending.Length
      modifies pending, this`stats, this`transmitted, this`backpressureActive
      ensures Bookkept()
      ensures pending[..] == old(pending[..])[i := RetrySlot(old(pending[i]), now, ackTimeoutMs, maxRetries, uartReady).slot]
      ensures var t := Contribution(RetrySlot(old(pending[i]), now, ackTimeoutMs, maxRetries, uartReady));
        stats == Charge(old(stats), t).(pendingCmdCount := CountActive(pending[..]))
        && stats.pendingCmdCount + t.expired == old(stats.pendingCmdCount)
        && transmitted == old(transmitted) + t.frames
    {
      var c := pending[i];
      ghost var r := RetrySlot(c, now, ackTimeoutMs, maxRetries, uartReady);
      if !c.active || Wrap32(now - c.sentTimeMs) <= ackTimeoutMs {
        assert pending[..] == pending[..][i := c];
        return;
      }
      if c.retryCount < maxRetries {
        RetryResend(i, now, uartReady);
      } else {
        RetryExpire(i, now, uartReady);
      }
    }

    /** RetryOne for an overdue command with retries left. */
    method RetryResend(i: nat, now: nat, uartReady: bool)
      requires Bookkept() && i < pending.Length
      requires Overdue(pending[i], now, ackTimeoutMs) && pending[i].retryCount < maxRetries
      modifies pending, this`stats, this`transmitted
      ensures Bookkept()
      ensures pending[..] == old(pending[..])[i := RetrySlot(old(pending[i]), now, ackTimeoutMs, maxRetries, uartReady).slot]
      ensures var t := Contribution(RetrySlot(old(pending[i]), now, ackTimeoutMs, maxRetries, uartReady));
        stats == Charge(old(stats), t).(pendingCmdCount := CountActive(pending[..]))
        && stats.pendingCmdCount + t.expired == old(stats.pendingCmdCount)
        && transmitted == old(transmitted) + t.frames
    {
      ResendCharged(pending[i], now, ackTimeoutMs, maxRetries, uartReady, stats);
      Resend(i, now, uartReady);
    }

    /** RetryOne for an overdue command out of retries. */
    method RetryExpire(i: nat, now: nat, uartReady: bool)
      requires Bookkept() && i < pending.Length
      requires Overdue(pending[i], now, ackTimeoutMs) && pending[i].retryCount >= maxRetries
      modifies pending, this`stats, this`backpressureActive
      ensures Bookkept()
      ensures pending[..] == old(pending[..])[i := RetrySlot(old(pending[i]), now, ackTimeoutMs, maxRetries, uartReady).slot]
      ensures var t := Contribution(RetrySlot(old(pending[i]), now, ackTimeoutMs, maxRetries, uartReady));
        stats == Charge(old(stats), t).(pendingCmdCount := CountActive(pending[..]))
        && stats.pendingCmdCount + t.expired == old(stats.pendingCmdCount)
        && transmitted == old(transmitted) + t.frames
    {
      ExpireCharged(pending[i], now, ackTimeoutMs, maxRetries, uartReady, stats);
      Expire(i);
    }

    /**
     * `process_pending_commands`: every slot goes through RetrySlot, the
     * statistics are charged with the tally of the pass, the resent frames
     * go to the UART in slot order, and each expired command leaves the
     * pending count.
     */
    method ProcessPendingCommands(now: nat, uartReady: bool)
      requires Valid()
      modifies pending, this`stats, this`transmitted, this`backpressureActive
      ensures Valid()
      ensures PayloadsFit(old(pending[..]))
      ensures pending[..] == SlotsOf(RetryAll(old(pending[..]), now, ackTimeoutMs, maxRetries, uartReady))
      ensures var t := Tally(RetryAll(old(pending[..]), now, ackTimeoutMs, maxRetries, uartReady));
        stats == Charge(old(stats), t).(pendingCmdCount := CountActive(pending[..]))
        && stats.pendingCmdCount + t.expired == old(stats.pendingCmdCount)
        && transmitted == old(transmitted) + t.frames
    {
      ghost var slots := pending[..];
      ghost var rs := RetryAll(slots, now, ackTimeoutMs, maxRetries, uartReady);
      ghost var s0 := stats;
      ghost var tx0 := transmitted;
      assert PayloadsFit(slots);
      assert rs[..0] == [];
      var i := 0;
      while i < pending.Length
        invariant Bookkept() && i <= pending.Length
        invariant forall j :: 0 <= j < i ==> pending[j] == rs[j].slot
        invariant forall j :: i <= j < pending.Length ==> pending[j] == slots[j]
        invariant stats == Charge(s0, Tally(rs[..i])).(pendingCmdCount := CountActive(pending[..]))
        invariant stats.pendingCmdCount + Tally(rs[..i]).expired == s0.pendingCmdCount
        invariant transmitted == tx0 + Tally(rs[..i]).frames
      {
        ScanOne(i, now, uartReady, s0, tx0, slots, rs);
        i := i + 1;
      }
      assert rs[..i] == rs;
      assert pending[..] == SlotsOf(rs);
      assert RxView() == old(RxView());
    }

    /** One step of the scan: slot i joins the part already processed. */
    method ScanOne(i: nat, now: nat, uartReady: bool, ghost s0: ProtocolStats, ghost tx0: seq<seq<byte>>,
                   ghost slots: seq<PendingCmd>, ghost rs: seq<Retry>)
      requires Bookkept() && i < pending.Length == |slots| == |rs| && PayloadsFit(slots)
      requires rs == RetryAll(slots, now, ackTimeoutMs, maxRetries, uartReady)
      requires forall j :: 0 <= j < i ==> pending[j] == rs[j].slot
      requires forall j :: i <= j < pending.Length ==> pending[j] == slots[j]
      requires stats == Charge(s0, Tally(rs[..i])).(pendingCmdCount := CountActive(pending[..]))
      requires stats.pendingCmdCount + Tally(rs[..i]).expired == s0.pendingCmdCount
      requires transmitted == tx0 + Tally(rs[..i]).frames
      modifies pending, this`stats, this`transmitted, this`backpressureActive
      ensures Bookkept()
      ensures forall j :: 0 <= j < i + 1 ==> pending[j] == rs[j].slot
      ensures forall j :: i + 1 <= j < pending.Length ==> pending[j] == slots[j]
      ensures stats == Charge(s0, Tally(rs[..i + 1])).(pendingCmdCount := CountActive(pending[..]))
      ensures stats.pendingCmdCount + Tally(rs[..i + 1]).expired == s0.pendingCmdCount
      ensures transmitted == tx0 + Tally(rs[..i + 1]).frames
    {
      ghost var before := CountActive(pending[..]);
      RetryAllAt(slots, now, ackTimeoutMs, maxRetries, uartReady, i);
      assert pending[i] == slots[i];
      RetryOne(i, now, uartReady);
      ChargeStep(s0, tx0, rs, i, before, CountActive(pending[..]));
    }

    /** `g_rx_buffer[g_rx_index++] = byte` */
    method Append(b: byte)
      requires rxIndex < rxBuffer.Length
      modifies rxBuffer, this`rxIndex
      ensures rxIndex == old(rxIndex) + 1
      ensures rxBuffer[..rxIndex] == old(rxBuffer[..rxIndex]) + [b]
    {
      rxBuffer[rxIndex] := b;
      rxIndex := rxIndex + 1;
    }

    /**
     * The CRC check of a complete frame: the little-endian CRC stored after
     * the payload against `protocol_crc16` of type, length, seq and payload.
     */
    method VerifyCrc() returns (ev: RxEvent)
      requires 3 <= rxIndex <= rxBuffer.Length
      requires rxIndex == 5 + rxBuffer[1] as nat && rxBuffer[1] as nat <= PROTOCOL_MAX_PAYLOAD
      ensures ev == CheckCrc(rxBuffer[..rxIndex])
    {
      ghost var buf := rxBuffer[..rxIndex];
      var len := rxBuffer[1] as nat;
      var received := rxBuffer[3 + len] as nat + rxBuffer[4 + len] as nat * 0x100;
      var expected := ProtocolCrc16(rxBuffer, 0, 3 + len);
      assert rxBuffer[0..3 + len] == buf[..3 + len] && rxBuffer[3..3 + len] == buf[3..3 + len];
      CheckCrcIs(buf, received, expected);
      if received == expected as nat {
        ev := Accepted(Packet(rxBuffer[0], rxBuffer[1], rxBuffer[2], rxBuffer[3..3 + len], received));
      } else {
        ev := CrcMismatch;
      }
    }

    /** The `switch (g_rx_state)` of `process_byte`. */
    method ConsumeByte(b: byte) returns (ev: RxEvent)
      requires rxBuffer.Length == RX_BUFFER_SIZE && rxIndex <= rxBuffer.Length && WellFormed(RxView())
      modifies this`rxState, this`rxIndex, this`rxLength, rxBuffer
      ensures rxIndex <= rxBuffer.Length
      ensures RxView() == Advance(old(RxView()), b).0
      ensures ev == Advance(old(RxView()), b).1
      ensures ev != Overflow && WholePayload(ev)
      ensures ev != NoEvent ==> rxIndex < rxBuffer.Length && rxState == WaitSync
    {
      AdvanceShape(RxView(), b);
      match rxState
      case WaitSync =>
        if b == PROTOCOL_SYNC_BYTE {
          rxIndex := 0;
          rxState := GotType;
        }
        ev := NoEvent;
      case GotType =>
        Append(b);
        rxState := GotLength;
        ev := NoEvent;
      case GotLength =>
        Append(b);
        rxLength := b;
        rxState := GotSeq;
        ev := NoEvent;
      case GotSeq =>
        Append(b);
        rxState := if rxLength > 0 then ReadingPayload else ReadingCrc;
        ev := NoEvent;
      case ReadingPayload =>
        Append(b);
        if rxIndex >= 3 + rxLength as nat {
          rxState := ReadingCrc;
        }
        ev := NoEvent;
      case ReadingCrc =>
        Append(b);
        ev := NoEvent;
        if rxIndex >= 3 + rxLength as nat + 2 {
          if rxBuffer[1] as nat > PROTOCOL_MAX_PAYLOAD {
            ev := Oversize;
            rxState := WaitSync;
            rxIndex := 0;
          } else {
            ev := VerifyCrc();
            rxState := WaitSync;
          }
        }
    }

    /**
     * What `process_byte` does with a packet whose CRC matched: the
     * sequence check for command-range types, the handshake flag, the
     * release of the command an ACK acknowledges, the NACK counter, and
     * the hand-off to the callback.
     */
    method HandleAccepted(p: Packet)
      requires Bookkept() && |p.payload| == p.length as nat
      modifies this`stats, this`lastSeqReceived, this`handshakeComplete, this`backpressureActive,
               this`delivered, pending
      ensures Bookkept()
      ensures lastSeqReceived == p.seqNum
      ensures handshakeComplete == (old(handshakeComplete) || p.msgType == MSG_HANDSHAKE)
      ensures pending[..] == if IsAck(p) then Released(old(pending[..]), p.payload[1]) else old(pending[..])
      ensures delivered == old(delivered) + [p]
      ensures stats == AcceptStats(old(stats), old(lastSeqReceived), p, handshakeComplete, CountActive(pending[..]))
    {
      CheckSequence(p);
      lastSeqReceived := p.seqNum;
      if p.msgType == MSG_HANDSHAKE {
        handshakeComplete := true;
        stats := stats.(handshakeComplete := true);
      }
      if p.msgType == MSG_ACK && p.length >= 4 {
        RemovePendingCommand(p.payload[1]);
      }
      if p.msgType == MSG_NACK {
        stats := stats.(nacksReceived := stats.nacksReceived + 1);
      }
      delivered := delivered + [p];
    }

    /** The sequence check of `process_byte`: a command-range packet that does not follow the last one is counted. */
    method CheckSequence(p: Packet)
      modifies this`stats
      ensures stats == old(stats).(sequenceErrors := old(stats.sequenceErrors) + if SequenceError(lastSeqReceived, p) then 1 else 0)
    {
      if p.msgType >= MSG_CMD_SET_TEMP && lastSeqReceived != NO_SEQ_RECEIVED {
        var expected := Wrap8(lastSeqReceived as int + 1);
        if p.seqNum as int != expected {
          stats := stats.(sequenceErrors := stats.sequenceErrors + 1);
        }
      }
    }

    /**
     * `process_byte`. While the bootloader owns the UART the parser is
     * reset and the byte ignored. Otherwise the byte is timestamped and
     * counted, moves the parser as RxStep says, and its event updates the
     * statistics; an accepted packet is handled as HandleAccepted says.
     */
    method ProcessByte(b: byte, bootloaderActive: bool, now: nat) returns (ev: RxEvent)
      requires Valid()
      modifies this`rxState, this`rxIndex, this`rxLength, rxBuffer, this`rxLastByteTime, this`stats,
               this`lastSeqReceived, this`handshakeComplete, this`backpressureActive, this`delivered, pending
      ensures Valid()
      ensures bootloaderActive ==>
        ev == NoEvent && RxView() == RX_RESET && rxLastByteTime == old(rxLastByteTime)
      ensures !bootloaderActive ==>
        ev == RxStep(old(RxView()), b).1 && RxView() == RxStep(old(RxView()), b).0 && rxLastByteTime == now
      ensures WholePayload(ev)
      ensures pending[..] == SlotsAfter(old(pending[..]), ev)
      ensures delivered == old(delivered) + DeliveredBy(ev)
      ensures lastSeqReceived == LastSeqAfter(old(lastSeqReceived), ev)
      ensures handshakeComplete == HandshakeAfter(old(handshakeComplete), ev)
      ensures stats == StatsAfter(old(stats).(bytesReceived := old(stats.bytesReceived) + (if bootloaderActive then 0 else 1)), old(lastSeqReceived), ev, handshakeComplete, CountActive(pending[..]))
    {
      if bootloaderActive {
        rxState := WaitSync;
        rxIndex := 0;
        rxLength := 0;
        return NoEvent;
      }
      ev := ReceiveByte(b, now);
    }

    /** The part of `process_byte` after the bootloader check. */
    method ReceiveByte(b: byte, now: nat) returns (ev: RxEvent)
      requires Valid()
      modifies this`rxState, this`rxIndex, this`rxLength, rxBuffer, this`rxLastByteTime, this`stats,
               this`lastSeqReceived, this`handshakeComplete, this`backpressureActive, this`delivered, pending
      ensures Valid()
      ensures ev == RxStep(old(RxView()), b).1 && RxView() == RxStep(old(RxView()), b).0 && rxLastByteTime == now
      ensures WholePayload(ev)
      ensures pending[..] == SlotsAfter(old(pending[..]), ev)
      ensures delivered == old(delivered) + DeliveredBy(ev)
      ensures lastSeqReceived == LastSeqAfter(old(lastSeqReceived), ev)
      ensures handshakeComplete == HandshakeAfter(old(handshakeComplete), ev)
      ensures stats == StatsAfter(old(stats).(bytesReceived := old(stats.bytesReceived) + 1), old(lastSeqReceived), ev, handshakeComplete, CountActive(pending[..]))
    {
      ghost var rx := RxView();
      ghost var a := Advance(rx, b);
      ghost var st := RxStep(rx, b);
      rxLastByteTime := now;
      stats := stats.(bytesReceived := stats.bytesReceived + 1);
      ghost var counted := stats;
      ghost var seq0 := lastSeqReceived;
      assert counted == old(stats).(bytesReceived := old(stats.bytesReceived) + 1) && seq0 == old(lastSeqReceived);
      var ev0 := ConsumeByte(b);
      assert stats == counted && lastSeqReceived == seq0;
      assert RxView() == a.0 && ev0 == a.1 && |a.0.buf| == rxIndex;
      assert rxIndex < rxBuffer.Length ==> st == a;
      ev := Settle(ev0);
      assert ev == st.1 && RxView() == st.0;
      assert stats == StatsAfter(counted, seq0, ev, handshakeComplete, CountActive(pending[..]));
    }

    /** `ReceiveByte`, with its bookkeeping stated as one step of the receive fold. */
    method ReceiveBooked(b: byte, now: nat) returns (ev: RxEvent)
      requires Valid()
      modifies this`rxState, this`rxIndex, this`rxLength, rxBuffer, this`rxLastByteTime, this`stats,
               this`lastSeqReceived, this`handshakeComplete, this`backpressureActive, this`delivered, pending
      ensures Valid()
      ensures ev == RxStep(old(RxView()), b).1 && RxView() == RxStep(old(RxView()), b).0 && rxLastByteTime == now
      ensures WholePayload(ev) && delivered == old(delivered) + DeliveredBy(ev)
      ensures Bookkeeping() == BookAfter(old(Bookkeeping()), ev)
    {
      ev := ReceiveByte(b, now);
      BookAfterOf(old(Bookkeeping()), ev, pending[..], stats, lastSeqReceived, handshakeComplete);
    }

    /** The end of `process_byte`: the bookkeeping for the event, then the overflow check. */
    method Settle(ev0: RxEvent) returns (ev: RxEvent)
      requires rxBuffer.Length == RX_BUFFER_SIZE && rxIndex <= rxBuffer.Length && Bookkept()
      requires rxIndex < rxBuffer.Length ==> WellFormed(RxView())
      requires ev0 != Overflow && WholePayload(ev0)
      requires ev0 != NoEvent ==> rxIndex < rxBuffer.Length && rxState == WaitSync
      modifies this`rxState, this`rxIndex, this`rxLength, this`stats,
               this`lastSeqReceived, this`handshakeComplete, this`backpressureActive, this`delivered, pending
      ensures Valid()
      ensures ev == if old(rxIndex) >= rxBuffer.Length then Overflow else ev0
      ensures RxView() == if old(rxIndex) >= rxBuffer.Length then RX_RESET else old(RxView())
      ensures pending[..] == SlotsAfter(old(pending[..]), ev)
      ensures delivered == old(delivered) + DeliveredBy(ev)
      ensures lastSeqReceived == LastSeqAfter(old(lastSeqReceived), ev)
      ensures handshakeComplete == HandshakeAfter(old(handshakeComplete), ev)
      ensures stats == StatsAfter(old(stats), old(lastSeqReceived), ev, handshakeComplete, CountActive(pending[..]))
    {
      if ev0 == NoEvent {
        QuietStats(stats, lastSeqReceived, handshakeComplete, stats.pendingCmdCount);
        var overflowed := CheckOverflow();
        ev := if overflowed then Overflow else NoEvent;
      } else {
        ApplyEvent(ev0);
        var overflowed := CheckOverflow();
        ev := ev0;
      }
    }

    /** The bookkeeping `process_byte` does for the event of a completed frame. */
    method ApplyEvent(ev: RxEvent)
      requires Bookkept() && ev != NoEvent && ev != Overflow && WholePayload(ev)
      modifies this`stats, this`lastSeqReceived, this`handshakeComplete, this`backpressureActive,
               this`delivered, pending
      ensures Bookkept()
      ensures pending[..] == SlotsAfter(old(pending[..]), ev)
      ensures delivered == old(delivered) + DeliveredBy(ev)
      ensures lastSeqReceived == LastSeqAfter(old(lastSeqReceived), ev)
      ensures handshakeComplete == HandshakeAfter(old(handshakeComplete), ev)
      ensures stats == StatsAfter(old(stats), old(lastSeqReceived), ev, handshakeComplete, CountActive(pending[..]))
    {
      match ev {
        case Accepted(p) => HandleAccepted(p);
        case CrcMismatch => stats := stats.(crcErrors := stats.crcErrors + 1);
        case Oversize => stats := stats.(packetErrors := stats.packetErrors + 1);
        case _ =>
      }
    }

    /** The buffer overflow protection at the end of `process_byte`. */
    method CheckOverflow() returns (overflowed: bool)
      requires rxIndex <= rxBuffer.Length
      modifies this`rxState, this`rxIndex, this`rxLength, this`stats
      ensures overflowed <==> old(rxIndex) >= rxBuffer.Length
      ensures overflowed ==>
        rxState == WaitSync && rxIndex == 0 && rxLength == 0
        && stats == old(stats).(packetErrors := old(stats.packetErrors) + 1)
      ensures !overflowed ==>
        rxState == old(rxState) && rxIndex == old(rxIndex) && rxLength == old(rxLength) && stats == old(stats)
    {
      overflowed := rxIndex >= rxBuffer.Length;
      if overflowed {
        stats := stats.(packetErrors := stats.packetErrors + 1);
        rxState := WaitSync;
        rxIndex := 0;
        rxLength := 0;
      }
    }

    /**
     * The byte loop of `protocol_process`: the UART's bytes are fed to
     * `process_byte` until the bootloader takes over (before byte
     * `bootloaderFrom`, if that is within the input); the bytes after that
     * are drained unread.
     */
    method ReceiveAvailable(input: seq<byte>, bootloaderFrom: nat, now: nat) returns (consumed: nat)
      requires Valid()
      modifies this`rxState, this`rxIndex, this`rxLength, rxBuffer, this`rxLastByteTime, this`stats,
               this`lastSeqReceived, this`handshakeComplete, this`backpressureActive, this`delivered, pending
      ensures Valid()
      ensures consumed == if bootloaderFrom < |input| then bootloaderFrom else |input|
      ensures RxView() == FeedState(old(RxView()), input[..consumed])
      ensures delivered == old(delivered) + DeliveredAll(FeedEvents(old(RxView()), input[..consumed]))
      ensures Bookkeeping() == BookFeed(old(Bookkeeping()), old(RxView()), input[..consumed])
      ensures stats.bytesReceived == old(stats.bytesReceived) + consumed
      ensures rxLastByteTime == if consumed == 0 then old(rxLastByteTime) else now
    {
      ghost var rx0 := RxView();
      ghost var d0 := delivered;
      ghost var bk0 := Bookkeeping();
      ghost var t0 := rxLastByteTime;
      consumed := 0;
      assert input[..0] == [];
      while consumed < |input| && consumed < bootloaderFrom
        invariant Valid() && consumed <= |input| && consumed <= bootloaderFrom
        invariant WellFormed(rx0) && RxView() == FeedState(rx0, input[..consumed])
        invariant delivered == d0 + DeliveredAll(FeedEvents(rx0, input[..consumed]))
        invariant Bookkeeping() == BookFeed(bk0, rx0, input[..consumed])
        invariant rxLastByteTime == if consumed == 0 then t0 else now
      {
        ReceiveNext(input, consumed, now, rx0, d0, bk0);
        consumed := consumed + 1;
      }
    }

    /** One pass of the byte loop: byte `i` of the input goes through the parser. */
    method ReceiveNext(input: seq<byte>, i: nat, now: nat, ghost rx0: Rx, ghost d0: seq<Packet>, ghost bk0: Book)
      requires Valid() && i < |input| && WellFormed(rx0)
      requires RxView() == FeedState(rx0, input[..i])
      requires delivered == d0 + DeliveredAll(FeedEvents(rx0, input[..i]))
      requires Bookkeeping() == BookFeed(bk0, rx0, input[..i])
      modifies this`rxState, this`rxIndex, this`rxLength, rxBuffer, this`rxLastByteTime, this`stats,
               this`lastSeqReceived, this`handshakeComplete, this`backpressureActive, this`delivered, pending
      ensures Valid()
      ensures RxView() == FeedState(rx0, input[..i + 1])
      ensures delivered == d0 + DeliveredAll(FeedEvents(rx0, input[..i + 1]))
      ensures Bookkeeping() == BookFeed(bk0, rx0, input[..i + 1])
      ensures rxLastByteTime == now
    {
      ghost var rx := RxView();
      var ev := ReceiveBooked(input[i], now);
      FeedPrefixStep(rx0, input, i);
      BookPrefixStep(bk0, rx0, input, i);
      assert ev == RxStep(rx, input[i]).1;
      PacketsAssoc(d0, DeliveredAll(FeedEvents(rx0, input[..i])), DeliveredBy(ev));
    }

    /** The parser-timeout step of `protocol_process`. */
    method ParserTimeout(now: nat)
      requires Valid()
      modifies this`rxState, this`rxIndex, this`rxLength, this`rxLastByteTime, this`stats
      ensures Valid()
      ensures ParserStale(old(rxState), old(rxLastByteTime), now, parserTimeoutMs) ==>
        RxView() == RX_RESET && rxLastByteTime == 0
        && stats == old(stats).(timeoutErrors := old(stats.timeoutErrors) + 1)
      ensures !ParserStale(old(rxState), old(rxLastByteTime), now, parserTimeoutMs) ==>
        RxView() == old(RxView()) && rxLastByteTime == old(rxLastByteTime) && stats == old(stats)
    {
      if rxState != WaitSync && rxLastByteTime > 0 && Wrap32(now - rxLastByteTime) > parserTimeoutMs {
        stats := stats.(timeoutErrors := stats.timeoutErrors + 1);
        rxState := WaitSync;
        rxIndex := 0;
        rxLength := 0;
        rxLastByteTime := 0;
      }
    }

    /**
     * `protocol_process`: nothing while the bootloader owns the UART;
     * otherwise the parser timeout, the retry scan, then the available bytes.
     */
    method ProtocolProcess(now: nat, uartReady: bool, bootloaderActive: bool, input: seq<byte>, bootloaderFrom: nat)
      requires Valid()
      modifies this`rxState, this`rxIndex, this`rxLength, rxBuffer, this`rxLastByteTime, this`stats,
               this`lastSeqReceived, this`handshakeComplete, this`backpressureActive, this`delivered, pending,
               this`transmitted
      ensures Valid()
      ensures bootloaderActive ==>
        RxView() == old(RxView()) && stats == old(stats) && pending[..] == old(pending[..])
        && delivered == old(delivered) && transmitted == old(transmitted)
      ensures !bootloaderActive ==>
        var rx := if ParserStale(old(rxState), old(rxLastByteTime), now, parserTimeoutMs) then RX_RESET else old(RxView());
        var k := if bootloaderFrom < |input| then bootloaderFrom else |input|;
        RxView() == FeedState(rx, input[..k])
        && delivered == old(delivered) + DeliveredAll(FeedEvents(rx, input[..k]))
        && transmitted == old(transmitted) + Tally(RetryAll(old(pending[..]), now, ackTimeoutMs, maxRetries, uartReady)).frames
      ensures !bootloaderActive ==>
        var stale := ParserStale(old(rxState), old(rxLastByteTime), now, parserTimeoutMs);
        var k := if bootloaderFrom < |input| then bootloaderFrom else |input|;
        var rs := RetryAll(old(pending[..]), now, ackTimeoutMs, maxRetries, uartReady);
        Bookkeeping() == BookFeed(PassBook(old(Bookkeeping()), stale, rs), if stale then RX_RESET else old(RxView()), input[..k])
    {
      if bootloaderActive {
        return;
      }
      Housekeeping(now, uartReady);
      var consumed := ReceiveAvailable(input, bootloaderFrom, now);
    }

    /** The first two steps of `protocol_process`: the parser timeout, then the retry scan. */
    method Housekeeping(now: nat, uartReady: bool)
      requires Valid()
      modifies this`rxState, this`rxIndex, this`rxLength, this`rxLastByteTime, this`stats,
               pending, this`transmitted, this`backpressureActive
      ensures Valid()
      ensures var stale := ParserStale(old(rxState), old(rxLastByteTime), now, parserTimeoutMs);
        var rs := RetryAll(old(pending[..]), now, ackTimeoutMs, maxRetries, uartReady);
        RxView() == (if stale then RX_RESET else old(RxView()))
        && Bookkeeping() == PassBook(old(Bookkeeping()), stale, rs)
        && transmitted == old(transmitted) + Tally(rs).frames
    {
      ghost var bk := Bookkeeping();
      ghost var stale := ParserStale(rxState, rxLastByteTime, now, parserTimeoutMs);
      ParserTimeout(now);
      ghost var charged := stats;
      ghost var rs := RetryAll(pending[..], now, ackTimeoutMs, maxRetries, uartReady);
      ProcessPendingCommands(now, uartReady);
      PassBookOf(bk, stale, rs, charged, pending[..], stats);
    }

    /** `protocol_reset_state`: the parser waits for sync over a zeroed buffer. */
    method ResetState()
      requires Valid()
      modifies this`rxState, this`rxIndex, this`rxLength, this`rxLastByteTime, rxBuffer
      ensures Valid()
      ensures RxView() == RX_RESET && rxLastByteTime == 0
      ensures forall j :: 0 <= j < rxBuffer.Length ==> rxBuffer[j] == 0
    {
      var j := 0;
      while j < rxBuffer.Length
        invariant j <= rxBuffer.Length
        invariant forall k :: 0 <= k < j ==> rxBuffer[k] == 0
      {
        rxBuffer[j] := 0;
        j := j + 1;
      }
      rxState := WaitSync;
      rxIndex := 0;
      rxLength := 0;
      rxLastByteTime := 0;
    }

    /** `protocol_reset_error_counters` */
    method ResetErrorCounters()
      modifies this`stats
      ensures stats == old(stats).(crcErrors := 0, packetErrors := 0, timeoutErrors := 0, sequenceErrors := 0)
    {
      stats := stats.(crcErrors := 0, packetErrors := 0, timeoutErrors := 0, sequenceErrors := 0);
    }
  }

  lemma {:induction false} CountActiveZero(slots: seq<PendingCmd>)
    requires forall j :: 0 <= j < |slots| ==> !slots[j].active
    ensures CountActive(slots) == 0
    decreases |slots|
  {
    if slots != [] {
      CountActiveZero(slots[..|slots| - 1]);
    }
  }
}
