/**
 * The ESP32 end of the ESP32-Pico link (`PicoUART`): a byte-at-a-time
 * frame parser over a 64-byte buffer, the frame transmitter, the NACK
 * backoff gate in front of commands, the matcher for the bootloader's
 * 4-byte ACK and the framing of firmware chunks during an update of the
 * Pico.
 */
module Esp32PicoUart {
  import opened Wrappers
  import opened Bytes
  import opened Crc16Ccitt
  import opened ProtocolDefs

  /** `sizeof(_rxBuffer)`. */
  const UART_RX_BUFFER_SIZE: nat := 64
  /** `sizeof(PicoPacket::payload)`: longer payloads are not copied out. */
  const PACKET_PAYLOAD_CAPACITY: nat := 56
  /** A packet within this many milliseconds means the Pico is connected. */
  const CONNECTION_WINDOW_MS: nat := 2000
  /** The largest firmware chunk `streamFirmwareChunk` sends. */
  const MAX_CHUNK_SIZE: nat := 256
  /** The bootloader's acknowledgement, "BOOT-ACK". */
  const BOOT_ACK: seq<byte> := [0xB0, 0x07, 0xAC, 0x4B]

  // ---------------------------------------------------------------------------
  // Receive parser
  // ---------------------------------------------------------------------------

  datatype UartRxState = WaitStart | GotType | GotLength | GotSeq | ReadingPayload | ReadingCrc

  /** `_rxState`, `_rxBuffer[0.._rxIndex)` and `_rxLength`. */
  datatype UartRx = UartRx(state: UartRxState, buf: seq<byte>, length: byte)

  const UART_RX_RESET: UartRx := UartRx(WaitStart, [], 0)

  /** The shape the parser keeps between bytes. */
  predicate WellFormed(rx: UartRx) {
    |rx.buf| < UART_RX_BUFFER_SIZE &&
    match rx.state
    case WaitStart => true
    case GotType => rx.buf == []
    case GotLength => |rx.buf| == 1
    case GotSeq => |rx.buf| == 2 && rx.buf[1] == rx.length
    case ReadingPayload =>
      3 <= |rx.buf| < 3 + rx.length as nat && rx.buf[1] == rx.length
    case ReadingCrc =>
      3 + rx.length as nat <= |rx.buf| < 5 + rx.length as nat && rx.buf[1] == rx.length
  }

  /** The next byte is the last CRC byte of the frame in progress. */
  predicate FrameCompletes(rx: UartRx) {
    rx.state == ReadingCrc && |rx.buf| + 1 >= 5 + rx.length as nat
  }

  /** The switch of `processByte`: where one byte takes the parser. */
  function Advance(rx: UartRx, b: byte): UartRx
    requires WellFormed(rx)
  {
    match rx.state
    case WaitStart =>
      if b == PROTOCOL_SYNC_BYTE then UartRx(GotType, [], rx.length) else rx
    case GotType => UartRx(GotLength, rx.buf + [b], rx.length)
    case GotLength => UartRx(GotSeq, rx.buf + [b], b)
    case GotSeq =>
      UartRx(if rx.length > 0 then ReadingPayload else ReadingCrc, rx.buf + [b], rx.length)
    case ReadingPayload =>
      var buf := rx.buf + [b];
      UartRx(if |buf| >= 3 + rx.length as nat then ReadingCrc else ReadingPayload, buf, rx.length)
    case ReadingCrc =>
      var buf := rx.buf + [b];
      UartRx(if |buf| >= 5 + rx.length as nat then WaitStart else ReadingCrc, buf, rx.length)
  }

  /**
   * `processPacket` on a completed frame (type, length, seq, payload, CRC
   * low, CRC high): the packet when the little-endian CRC it carries is
   * that of the bytes before it. A payload longer than the packet's
   * 56-byte array is not copied, and is represented by `[]`.
   */
  function CheckFrame(buf: seq<byte>): Option<Packet>
    requires 3 <= |buf| && |buf| == 5 + buf[1] as nat
  {
    var len := buf[1] as nat;
    var received := DecodeLE16(buf[3 + len..5 + len]);
    if received == Crc16Value(buf[..3 + len]) then
      Some(Packet(buf[0], buf[1], buf[2], if len <= PACKET_PAYLOAD_CAPACITY then buf[3..3 + len] else [], received))
    else
      None
  }

  /** What one byte did: the parser afterwards, packets handed to the callback, `_packetErrors` added. */
  datatype Outcome = Outcome(rx: UartRx, delivered: seq<Packet>, errors: nat)

  function Received(p: Option<Packet>): seq<Packet> {
    if p.Some? then [p.value] else []
  }

  function Rejected(p: Option<Packet>): nat {
    if p.Some? then 0 else 1
  }

  /**
   * `processByte` exactly as written: the frame is processed, and then the
   * overflow check runs on an index that was not reset after it.
   */
  function StepAsWritten(rx: UartRx, b: byte): Outcome
    requires WellFormed(rx)
  {
    var a := Advance(rx, b);
    var p := if FrameCompletes(rx) then CheckFrame(a.buf) else None;
    var d := if FrameCompletes(rx) then Received(p) else [];
    var e := if FrameCompletes(rx) then Rejected(p) else 0;
    if |a.buf| >= UART_RX_BUFFER_SIZE then Outcome(UartRx(WaitStart, [], a.length), d, e + 1)
    else Outcome(a, d, e)
  }

  /**
   * `processByte` with the index cleared once a frame has been processed,
   * so the overflow check only fires for bytes that did not complete a frame.
   */
  function Step(rx: UartRx, b: byte): (r: Outcome)
    requires WellFormed(rx)
    ensures WellFormed(r.rx)
    ensures |r.delivered| + r.errors <= 1
    ensures r.delivered != [] ==> FrameCompletes(rx)
  {
    var a := Advance(rx, b);
    if FrameCompletes(rx) then
      var p := CheckFrame(a.buf);
      Outcome(UartRx(WaitStart, [], rx.length), Received(p), Rejected(p))
    else if |a.buf| >= UART_RX_BUFFER_SIZE then
      Outcome(UartRx(WaitStart, [], a.length), [], 1)
    else
      Outcome(a, [], 0)
  }

  /**
   * The byte that completes a frame has exactly one effect: the packet is
   * received, or one packet error is counted.
   */
  lemma FrameCountedOnce(rx: UartRx, b: byte)
    requires WellFormed(rx) && FrameCompletes(rx)
    ensures |Step(rx, b).delivered| + Step(rx, b).errors == 1
    ensures Step(rx, b).rx == UartRx(WaitStart, [], rx.length)
  {
  }

  /**
   * As written, the byte that completes a frame whose length field is 59
   * is counted twice: a frame with a good CRC is received and also counted
   * as a packet error, a frame with a bad CRC is counted as two errors.
   * Every other length is counted once.
   */
  lemma LongestFrameCountedTwiceAsWritten(rx: UartRx, b: byte)
    requires WellFormed(rx) && FrameCompletes(rx)
    ensures |StepAsWritten(rx, b).delivered| + StepAsWritten(rx, b).errors == (if rx.length == 59 then 2 else 1)
  {
  }

  /** A concrete parser state, with the last byte of a 59-byte-payload frame still to come. */
  lemma Length59FrameAsWritten()
    ensures var rx := UartRx(ReadingCrc, [MSG_LOG, 59, 0] + seq(60, _ => 0 as byte), 59);
      WellFormed(rx)
      && |StepAsWritten(rx, 0).delivered| + StepAsWritten(rx, 0).errors == 2
  {
    var rx := UartRx(ReadingCrc, [MSG_LOG, 59, 0] + seq(60, _ => 0 as byte), 59);
    LongestFrameCountedTwiceAsWritten(rx, 0);
  }

  /**
   * The correction changes nothing but the count of a completed 59-byte
   * frame and the index left behind by a completed frame.
   */
  lemma CorrectionOnlyClearsCompletedFrames(rx: UartRx, b: byte)
    requires WellFormed(rx)
    ensures Step(rx, b).delivered == StepAsWritten(rx, b).delivered
    ensures !FrameCompletes(rx) ==> Step(rx, b) == StepAsWritten(rx, b)
    ensures FrameCompletes(rx) ==>
      StepAsWritten(rx, b).errors == Step(rx, b).errors + (if rx.length == 59 then 1 else 0)
      && Step(rx, b).rx.state == StepAsWritten(rx, b).rx.state == WaitStart
  {
  }

  /**
   * A completed frame is received exactly when its trailer carries the
   * CRC of type, length, seq and payload; the packet is then the frame's
   * fields, with the payload copied when it fits the packet.
   */
  lemma ReceivedIffCrcMatches(rx: UartRx, b: byte)
    requires WellFormed(rx) && FrameCompletes(rx)
    ensures var buf := rx.buf + [b];
      var len := rx.length as nat;
      var crc := DecodeLE16(buf[3 + len..]);
      (Step(rx, b).delivered != [] <==> crc == Crc16Value(buf[..3 + len]))
      && (Step(rx, b).delivered != [] ==>
            Step(rx, b).delivered
            == [Packet(buf[0], rx.length, buf[2], if len <= PACKET_PAYLOAD_CAPACITY then buf[3..3 + len] else [], crc)])
  {
    var buf := rx.buf + [b];
    assert buf[3 + rx.length as nat..] == buf[3 + rx.length as nat..5 + rx.length as nat];
  }

  /** A byte stream through the parser. */
  function Feed(rx: UartRx, bytes: seq<byte>): (r: Outcome)
    requires WellFormed(rx)
    ensures WellFormed(r.rx)
    ensures |r.delivered| + r.errors <= |bytes|
    decreases |bytes|
  {
    if bytes == [] then Outcome(rx, [], 0)
    else
      var s := Step(rx, bytes[0]);
      var f := Feed(s.rx, bytes[1..]);
      Outcome(f.rx, s.delivered + f.delivered, s.errors + f.errors)
  }

  /** What a stream did, followed by what one more byte did. */
  function Then(f: Outcome, s: Outcome): Outcome {
    Outcome(s.rx, f.delivered + s.delivered, f.errors + s.errors)
  }

  /** Feeding a stream and then one more byte. */
  lemma {:induction false} FeedSnoc(rx: UartRx, bytes: seq<byte>, b: byte)
    requires WellFormed(rx)
    ensures Feed(rx, bytes + [b]) == Then(Feed(rx, bytes), Step(Feed(rx, bytes).rx, b))
    decreases |bytes|
  {
    if bytes == [] {
      FeedOne(rx, b);
      assert bytes + [b] == [b];
    } else {
      var s := Step(rx, bytes[0]);
      FeedSnoc(s.rx, bytes[1..], b);
      FeedFirst(rx, bytes, b, s, Feed(s.rx, bytes[1..]));
    }
  }

  /** A single byte. */
  lemma FeedOne(rx: UartRx, b: byte)
    requires WellFormed(rx)
    ensures Feed(rx, [b]) == Then(Outcome(rx, [], 0), Step(rx, b))
  {
    assert [b][1..] == [];
  }

  /** The first byte of a longer stream, then the rest with one more byte. */
  lemma FeedFirst(rx: UartRx, bytes: seq<byte>, b: byte, s: Outcome, f: Outcome)
    requires WellFormed(rx) && bytes != []
    requires s == Step(rx, bytes[0]) && f == Feed(s.rx, bytes[1..])
    requires Feed(s.rx, bytes[1..] + [b]) == Then(f, Step(f.rx, b))
    ensures Feed(rx, bytes + [b]) == Then(Feed(rx, bytes), Step(Feed(rx, bytes).rx, b))
  {
    var bb := bytes + [b];
    assert bb[0] == bytes[0] && bb[1..] == bytes[1..] + [b];
    var t := Step(f.rx, b);
    FeedCons(rx, bb);
    FeedCons(rx, bytes);
    ThenAssoc(s, f, t);
  }

  /** Running three outcomes one after another does not depend on how they are grouped. */
  lemma ThenAssoc(s: Outcome, f: Outcome, t: Outcome)
    ensures Then(s, Then(f, t)) == Then(Then(s, f), t)
  {
    PacketsAssoc(s.delivered, f.delivered, t.delivered);
  }

  /** Feeding a non-empty stream is its first byte's step, then the rest. */
  lemma FeedCons(rx: UartRx, bytes: seq<byte>)
    requires WellFormed(rx) && bytes != []
    ensures Feed(rx, bytes) == Then(Step(rx, bytes[0]), Feed(Step(rx, bytes[0]).rx, bytes[1..]))
  {
  }

  lemma PacketsAssoc(a: seq<Packet>, b: seq<Packet>, c: seq<Packet>)
    ensures a + (b + c) == (a + b) + c
  {
  }

  /** One more byte of an input stream. */
  lemma FeedPrefixStep(rx0: UartRx, input: seq<byte>, i: nat)
    requires WellFormed(rx0) && i < |input|
    ensures Feed(rx0, input[..i + 1]) == Then(Feed(rx0, input[..i]), Step(Feed(rx0, input[..i]).rx, input[i]))
  {
    assert input[..i + 1] == input[..i] + [input[i]];
    FeedSnoc(rx0, input[..i], input[i]);
  }

  /** A byte that neither completes a frame nor overflows the buffer only moves the parser, then the rest. */
  lemma QuietCons(rx: UartRx, b: byte, rest: seq<byte>)
    requires WellFormed(rx) && !FrameCompletes(rx) && |Advance(rx, b).buf| < UART_RX_BUFFER_SIZE
    ensures WellFormed(Advance(rx, b))
    ensures Feed(rx, [b] + rest) == Feed(Advance(rx, b), rest)
  {
    assert Step(rx, b) == Outcome(Advance(rx, b), [], 0);
    assert ([b] + rest)[0] == b && ([b] + rest)[1..] == rest;
  }

  /** The four header bytes move a waiting parser to the payload (or the CRC), quietly. */
  lemma FeedHeader(rx: UartRx, msgType: byte, len: byte, sq: byte, rest: seq<byte>)
    requires WellFormed(rx) && rx.state == WaitStart
    ensures WellFormed(UartRx(if len > 0 then ReadingPayload else ReadingCrc, [msgType, len, sq], len))
    ensures Feed(rx, [PROTOCOL_SYNC_BYTE, msgType, len, sq] + rest)
      == Feed(UartRx(if len > 0 then ReadingPayload else ReadingCrc, [msgType, len, sq], len), rest)
  {
    var r1 := UartRx(GotType, [], rx.length);
    var r2 := UartRx(GotLength, [msgType], rx.length);
    var r3 := UartRx(GotSeq, [msgType, len], len);
    var r4 := UartRx(if len > 0 then ReadingPayload else ReadingCrc, [msgType, len, sq], len);
    HeaderAdvances(rx, msgType, len, sq);
    var s3 := [sq] + rest;
    var s2 := [len] + s3;
    var s1 := [msgType] + s2;
    QuietCons(r3, sq, rest);
    assert Feed(r3, s3) == Feed(r4, rest);
    QuietCons(r2, len, s3);
    assert Feed(r2, s2) == Feed(r4, rest);
    QuietCons(r1, msgType, s2);
    assert Feed(r1, s1) == Feed(r4, rest);
    QuietCons(rx, PROTOCOL_SYNC_BYTE, s1);
    assert [PROTOCOL_SYNC_BYTE, msgType, len, sq] + rest == [PROTOCOL_SYNC_BYTE] + s1;
  }

  /** Sync, type, length and seq, one byte at a time. */
  lemma HeaderAdvances(rx: UartRx, msgType: byte, len: byte, sq: byte)
    requires WellFormed(rx) && rx.state == WaitStart
    ensures var r1 := UartRx(GotType, [], rx.length);
      var r2 := UartRx(GotLength, [msgType], rx.length);
      var r3 := UartRx(GotSeq, [msgType, len], len);
      WellFormed(r1) && WellFormed(r2) && WellFormed(r3)
      && Advance(rx, PROTOCOL_SYNC_BYTE) == r1 && Advance(r1, msgType) == r2 && Advance(r2, len) == r3
      && Advance(r3, sq) == UartRx(if len > 0 then ReadingPayload else ReadingCrc, [msgType, len, sq], len)
  {
  }

  /** The rest of a payload is stored quietly, and leaves the parser at the CRC. */
  lemma {:induction false} FeedPayload(rx: UartRx, ps: seq<byte>, tail: seq<byte>)
    requires WellFormed(rx) && rx.state == ReadingPayload
    requires |rx.buf| + |ps| == 3 + rx.length as nat && rx.length as nat <= PROTOCOL_MAX_PAYLOAD
    ensures WellFormed(UartRx(ReadingCrc, rx.buf + ps, rx.length))
    ensures Feed(rx, ps + tail) == Feed(UartRx(ReadingCrc, rx.buf + ps, rx.length), tail)
    decreases |ps|
  {
    var rx1 := UartRx(if |ps| == 1 then ReadingCrc else ReadingPayload, rx.buf + [ps[0]], rx.length);
    assert Advance(rx, ps[0]) == rx1;
    assert ps + tail == [ps[0]] + (ps[1..] + tail);
    QuietCons(rx, ps[0], ps[1..] + tail);
    if |ps| == 1 {
      assert ps[1..] + tail == tail;
      assert rx.buf + ps == rx1.buf;
    } else {
      assert rx1.buf + ps[1..] == rx.buf + ps;
      FeedPayload(rx1, ps[1..], tail);
    }
  }

  /** The two bytes of a matching trailer complete the packet. */
  lemma FeedTrailer(body: seq<byte>, len: byte)
    requires |body| == 3 + len as nat && len as nat <= PROTOCOL_MAX_PAYLOAD && body[1] == len
    ensures WellFormed(UartRx(ReadingCrc, body, len))
    ensures var crc := Crc16Value(body);
      Feed(UartRx(ReadingCrc, body, len), LE16(crc))
      == Outcome(UartRx(WaitStart, [], len), [Packet(body[0], len, body[2], body[3..], crc)], 0)
  {
    var crc := Crc16Value(body);
    var trailer := LE16(crc);
    var n := len as nat;
    var whole := body + trailer;
    var c0 := UartRx(ReadingCrc, body, len);
    var c1 := UartRx(ReadingCrc, body + [trailer[0]], len);
    var pkt := Packet(body[0], len, body[2], body[3..], crc);
    LE16RoundTrip(crc);
    assert whole[3 + n..5 + n] == trailer;
    assert whole[..3 + n] == body;
    assert whole[3..3 + n] == body[3..];
    assert Advance(c0, trailer[0]) == c1;
    assert c1.buf + [trailer[1]] == whole;
    assert CheckFrame(whole) == Some(pkt);
    assert Step(c1, trailer[1]) == Outcome(UartRx(WaitStart, [], len), [pkt], 0);
    assert trailer == [trailer[0]] + [trailer[1]];
    QuietCons(c0, trailer[0], [trailer[1]]);
    assert [trailer[1]][1..] == [];
  }

  /**
   * Round trip between the Pico's transmitter and this parser: a frame
   * built for any payload within the limit, fed to a parser waiting for
   * the sync byte, hands exactly that packet to the callback, counts no
   * error, and leaves the parser waiting with an empty buffer.
   */
  lemma {:induction false} FrameIsReceived(rx: UartRx, msgType: byte, sq: byte, payload: seq<byte>)
    requires WellFormed(rx) && rx.state == WaitStart
    requires |payload| <= PROTOCOL_MAX_PAYLOAD
    ensures var len := |payload| as byte;
      var crc := Crc16Value(FrameBody(msgType, sq, payload));
      Feed(rx, Frame(msgType, sq, payload))
      == Outcome(UartRx(WaitStart, [], len), [Packet(msgType, len, sq, payload, crc)], 0)
  {
    var body := FrameBody(msgType, sq, payload);
    var crc := Crc16Value(body);
    var len := |payload| as byte;
    var trailer := LE16(crc);
    assert body == [msgType, len, sq] + payload;
    assert Frame(msgType, sq, payload) == [PROTOCOL_SYNC_BYTE, msgType, len, sq] + (payload + trailer);
    FeedHeader(rx, msgType, len, sq, payload + trailer);
    FeedTrailer(body, len);
    assert body[3..] == payload;
    if payload != [] {
      var r4 := UartRx(ReadingPayload, [msgType, len, sq], len);
      FeedPayload(r4, payload, trailer);
      assert r4.buf + payload == body;
    } else {
      assert payload + trailer == trailer;
      assert [msgType, len, sq] == body;
    }
  }

  // ---------------------------------------------------------------------------
  // Bootloader ACK matcher
  // ---------------------------------------------------------------------------

  /** The matcher's index after one byte, as `waitForBootloaderAck` updates it. */
  function AckIndexAfter(index: nat, b: byte): nat
    requires index < |BOOT_ACK|
  {
    if b == BOOT_ACK[index] then index + 1 else if b == BOOT_ACK[0] then 1 else 0
  }

  /** The matcher's index after a stream; it stops at a complete match. */
  function AckProgress(s: seq<byte>): (r: nat)
    ensures r <= |BOOT_ACK|
    decreases |s|
  {
    if s == [] then 0
    else
      var p := AckProgress(s[..|s| - 1]);
      if p == |BOOT_ACK| then p else AckIndexAfter(p, s[|s| - 1])
  }

  /** The bootloader's ACK occurs somewhere in `s`. */
  predicate ContainsAck(s: seq<byte>) {
    exists i :: 0 <= i < |s| && AckAt(s, i)
  }

  /** The ACK occurs in `s` at position `i`. */
  predicate AckAt(s: seq<byte>, i: nat) {
    i + |BOOT_ACK| <= |s| && s[i..i + |BOOT_ACK|] == BOOT_ACK
  }

  /** `s` ends with the first `m` bytes of the ACK. */
  predicate EndsWithAckPrefix(s: seq<byte>, m: nat) {
    m <= |s| && m <= |BOOT_ACK| && s[|s| - m..] == BOOT_ACK[..m]
  }

  /**
   * Short of a match, the index is the longest prefix of the ACK that the
   * stream ends with; a match is reached exactly when the ACK occurs.
   */
  predicate MatcherInvariant(s: seq<byte>) {
    (AckProgress(s) == |BOOT_ACK| <==> ContainsAck(s))
    && (AckProgress(s) < |BOOT_ACK| ==>
          EndsWithAckPrefix(s, AckProgress(s))
          && forall m :: AckProgress(s) < m < |BOOT_ACK| ==> !EndsWithAckPrefix(s, m))
  }

  /** A stream that contains the ACK still contains it after one more byte. */
  lemma ContainsAckSnoc(s: seq<byte>, b: byte)
    requires ContainsAck(s)
    ensures ContainsAck(s + [b])
  {
    var i :| 0 <= i < |s| && AckAt(s, i);
    assert (s + [b])[i..i + |BOOT_ACK|] == s[i..i + |BOOT_ACK|];
    assert AckAt(s + [b], i);
  }

  /** A new occurrence after one more byte can only be at the end. */
  lemma NewAckAtEnd(s: seq<byte>, b: byte)
    requires !ContainsAck(s)
    ensures ContainsAck(s + [b]) <==> EndsWithAckPrefix(s, 3) && b == BOOT_ACK[3]
  {
    var t := s + [b];
    if ContainsAck(t) {
      var i :| 0 <= i < |t| && AckAt(t, i);
      if i + 4 <= |s| {
        assert s[i..i + 4] == t[i..i + 4];
        assert AckAt(s, i);
      }
      assert i == |s| - 3;
      assert s[|s| - 3..] == t[i..i + 3] == BOOT_ACK[..3];
    }
    if EndsWithAckPrefix(s, 3) && b == BOOT_ACK[3] {
      assert t[|s| - 3..|s| + 1] == s[|s| - 3..] + [b] == BOOT_ACK;
      assert AckAt(t, |s| - 3);
    }
  }

  /** Ending with a prefix of the ACK after one more byte. */
  lemma EndsWithSnoc(s: seq<byte>, b: byte, m: nat)
    requires 0 < m <= |BOOT_ACK|
    ensures EndsWithAckPrefix(s + [b], m) <==> EndsWithAckPrefix(s, m - 1) && b == BOOT_ACK[m - 1]
  {
    var t := s + [b];
    if m <= |t| {
      assert t[|t| - m..] == s[|s| - (m - 1)..] + [b];
      assert BOOT_ACK[..m] == BOOT_ACK[..m - 1] + [BOOT_ACK[m - 1]];
    }
  }

  /**
   * Only the first byte of the ACK is 0xB0, so a stream cannot end with
   * two different non-empty prefixes of it.
   */
  lemma PrefixesDoNotOverlap(s: seq<byte>, m: nat, p: nat)
    requires 0 < m < p < |BOOT_ACK| && EndsWithAckPrefix(s, p)
    ensures !EndsWithAckPrefix(s, m)
  {
    var k := |s| - m;
    assert s[k] == s[|s| - p..][p - m] == BOOT_ACK[p - m];
    assert s[|s| - m..][0] == s[k];
  }

  lemma {:induction false} MatcherInvariantHolds(s: seq<byte>)
    ensures MatcherInvariant(s)
    decreases |s|
  {
    if s == [] {
      assert EndsWithAckPrefix(s, 0);
      forall m | 0 < m < |BOOT_ACK|
        ensures !EndsWithAckPrefix(s, m)
      {
      }
    } else {
      var u := s[..|s| - 1];
      var b := s[|s| - 1];
      assert u + [b] == s;
      MatcherInvariantHolds(u);
      var p := AckProgress(u);
      if p == |BOOT_ACK| {
        ContainsAckSnoc(u, b);
      } else {
        MatcherStep(u, b);
      }
    }
  }

  /** The step of the invariant for a stream that has not matched yet. */
  lemma MatcherStep(u: seq<byte>, b: byte)
    requires MatcherInvariant(u) && AckProgress(u) < |BOOT_ACK|
    ensures MatcherInvariant(u + [b])
  {
    var s := u + [b];
    var p := AckProgress(u);
    assert s[..|s| - 1] == u;
    assert AckProgress(s) == AckIndexAfter(p, b);
    NewAckAtEnd(u, b);
    if EndsWithAckPrefix(u, 3) {
      assert p == 3;
    }
    MatchExtends(u, b, p);
    MatchLongest(u, b, p);
  }

  /** The matcher's new index is a prefix of the ACK that the stream ends with. */
  lemma MatchExtends(u: seq<byte>, b: byte, p: nat)
    requires p < |BOOT_ACK| && EndsWithAckPrefix(u, p)
    ensures AckIndexAfter(p, b) < |BOOT_ACK| ==> EndsWithAckPrefix(u + [b], AckIndexAfter(p, b))
  {
    var q := AckIndexAfter(p, b);
    if 0 < q < |BOOT_ACK| {
      EndsWithSnoc(u, b, q);
      if q == 1 {
        assert EndsWithAckPrefix(u, 0);
      }
    }
  }

  /** No longer prefix of the ACK ends the stream than the matcher's new index. */
  lemma MatchLongest(u: seq<byte>, b: byte, p: nat)
    requires p < |BOOT_ACK| && EndsWithAckPrefix(u, p)
    requires forall m :: p < m < |BOOT_ACK| ==> !EndsWithAckPrefix(u, m)
    ensures forall m :: AckIndexAfter(p, b) < m < |BOOT_ACK| ==> !EndsWithAckPrefix(u + [b], m)
  {
    var q := AckIndexAfter(p, b);
    forall m | q < m < |BOOT_ACK|
      ensures !EndsWithAckPrefix(u + [b], m)
    {
      EndsWithSnoc(u, b, m);
      if 0 < m - 1 < p {
        PrefixesDoNotOverlap(u, m - 1, p);
      }
    }
  }

  /** The matcher succeeds on a stream exactly when the ACK occurs in it. */
  lemma MatcherFindsAck(s: seq<byte>)
    ensures AckProgress(s) == |BOOT_ACK| <==> ContainsAck(s)
  {
    MatcherInvariantHolds(s);
  }

  // ---------------------------------------------------------------------------
  // Firmware chunks
  // ---------------------------------------------------------------------------

  /**
   * A chunk in the bootloader's format: magic 0x55 0xAA, the chunk number
   * (32 bits, little-endian), the size (16 bits, little-endian), the data,
   * and the XOR of the data bytes.
   */
  function ChunkFrame(chunkNumber: nat, data: seq<byte>): (r: seq<byte>)
    requires IsU32(chunkNumber) && |data| <= MAX_CHUNK_SIZE
    ensures |r| == 8 + |data| + 1
  {
    [0x55, 0xAA] + LE32(chunkNumber) + LE16(|data|) + data + [XorAll(data)]
  }

  /**
   * The bootloader can read a chunk back: its number, its size and its
   * data, and the XOR of the data and the checksum byte is zero.
   */
  lemma ChunkFrameDecodes(chunkNumber: nat, data: seq<byte>)
    requires IsU32(chunkNumber) && |data| <= MAX_CHUNK_SIZE
    ensures var f := ChunkFrame(chunkNumber, data);
      var n := |data|;
      f[..2] == [0x55, 0xAA]
      && DecodeLE32(f[2..6]) == chunkNumber
      && DecodeLE16(f[6..8]) == n
      && f[8..8 + n] == data
      && XorAll(f[8..]) == 0
  {
    var f := ChunkFrame(chunkNumber, data);
    var n := |data|;
    assert f[2..6] == LE32(chunkNumber);
    assert f[6..8] == LE16(n);
    assert f[8..8 + n] == data;
    assert f[8..] == data + [XorAll(data)];
    LE32RoundTrip(chunkNumber);
    LE16RoundTrip(n);
    XorWithChecksum(data);
  }

  /** Appending the XOR of a block to it gives a block whose XOR is zero. */
  lemma XorWithChecksum(data: seq<byte>)
    ensures XorAll(data + [XorAll(data)]) == 0
  {
    var t := data + [XorAll(data)];
    assert t[..|t| - 1] == data;
    var x := XorAll(data) as bv8;
    assert x ^ x == 0;
  }

  /** The checksum loop of `streamFirmwareChunk`. */
  method ChunkChecksum(data: seq<byte>) returns (checksum: byte)
    ensures checksum == XorAll(data)
  {
    checksum := 0;
    var i := 0;
    while i < |data|
      invariant i <= |data|
      invariant checksum == XorAll(data[..i])
    {
      assert data[..i + 1][..i] == data[..i];
      checksum := ((checksum as bv8) ^ (data[i] as bv8)) as byte;
      i := i + 1;
    }
    assert data[..i] == data;
  }

  // ---------------------------------------------------------------------------
  // Transmit side
  // ---------------------------------------------------------------------------

  /** `calculateCRC`: the bitwise CRC-16/CCITT-FALSE loop over `data[start..start + length)`. */
  method CalculateCrc(data: array<byte>, start: nat, length: nat) returns (crc: bv16)
    requires start + length <= data.Length
    ensures crc == Crc16(data[start..start + length])
  {
    crc := CRC16_INIT;
    var i := 0;
    while i < length
      invariant i <= length
      invariant crc == Crc16(data[start..start + i])
    {
      ghost var before := crc;
      crc := crc ^ ((data[start + i] as bv16) << 8);
      ghost var start8 := crc;
      var j := 0;
      while j < 8
        invariant j <= 8
        invariant crc == ShiftBits(start8, j)
      {
        if crc & 0x8000 != 0 {
          crc := (crc << 1) ^ CRC16_POLY;
        } else {
          crc := crc << 1;
        }
        j := j + 1;
      }
      EightShifts(before, data[start + i]);
      assert data[start..start + i + 1][..i] == data[start..start + i];
      i := i + 1;
    }
  }

  /** The frame assembly of `sendPacket`: header, payload, then the CRC of type..payload, low byte first. */
  method AssembleFrame(msgType: byte, sq: byte, payload: seq<byte>) returns (frame: seq<byte>)
    requires |payload| <= PROTOCOL_MAX_PAYLOAD
    ensures frame == Frame(msgType, sq, payload)
  {
    var buffer := new byte[PROTOCOL_MAX_PACKET];
    CopyHeader(buffer, msgType, sq, payload);
    var body := FrameBody(msgType, sq, payload);
    var length := |payload|;
    var crc := CalculateCrc(buffer, 1, 3 + length);
    var value := crc as nat;
    assert value == Crc16Value(body);
    buffer[4 + length] := Byte(value % 0x100);
    buffer[5 + length] := Byte(value / 0x100);
    frame := buffer[..6 + length];
    assert frame == buffer[..4 + length] + LE16(value);
  }

  /** The header and the payload copy of `sendPacket`. */
  method CopyHeader(buffer: array<byte>, msgType: byte, sq: byte, payload: seq<byte>)
    requires buffer.Length == PROTOCOL_MAX_PACKET && |payload| <= PROTOCOL_MAX_PAYLOAD
    modifies buffer
    ensures buffer[..4 + |payload|] == [PROTOCOL_SYNC_BYTE] + FrameBody(msgType, sq, payload)
    ensures buffer[1..4 + |payload|] == FrameBody(msgType, sq, payload)
  {
    var length := |payload|;
    buffer[0] := PROTOCOL_SYNC_BYTE;
    buffer[1] := msgType;
    buffer[2] := length as byte;
    buffer[3] := sq;
    var k := 0;
    while k < length
      invariant k <= length
      invariant buffer[..4] == [PROTOCOL_SYNC_BYTE, msgType, length as byte, sq]
      invariant buffer[4..4 + k] == payload[..k]
    {
      buffer[4 + k] := payload[k];
      k := k + 1;
    }
    assert buffer[4..4 + length] == payload;
    assert buffer[..4 + length] == buffer[..4] + buffer[4..4 + length];
  }

  /** The bytes a UART with room for `room` bytes takes from `bytes`. */
  function Accepted(bytes: seq<byte>, room: nat): (r: seq<byte>)
    ensures |r| <= |bytes| && r == bytes[..|r|]
    ensures |r| == |bytes| <==> room >= |bytes|
  {
    if room >= |bytes| then bytes else bytes[..room]
  }

  // ---------------------------------------------------------------------------
  // The PicoUART object
  // ---------------------------------------------------------------------------

  /**
   * The state of a `PicoUART`. `Serial1` is represented by the bytes it
   * has taken (`transmitted`) and by the bytes and room handed to each
   * method; the packet callback by the packets it was given (`delivered`);
   * `millis()` by a `now` parameter.
   */
  class PicoUart {
    const rxBuffer: array<byte>

    var rxState: UartRxState
    var rxIndex: nat
    var rxLength: byte
    var txSeq: byte
    var packetsReceived: nat
    var packetErrors: nat
    var lastPacketTime: nat
    var connected: bool
    var paused: bool
    var backoffUntil: nat

    /** Bytes taken by the UART, oldest first. */
    var transmitted: seq<byte>
    /** Packets handed to the packet callback, oldest first. */
    var delivered: seq<Packet>

    function RxView(): UartRx
      reads this, rxBuffer
      requires rxIndex <= rxBuffer.Length
    {
      UartRx(rxState, rxBuffer[..rxIndex], rxLength)
    }

    predicate Valid()
      reads this, rxBuffer
    {
      rxBuffer.Length == UART_RX_BUFFER_SIZE && rxIndex <= rxBuffer.Length && WellFormed(RxView())
    }

    constructor ()
      ensures Valid()
      ensures RxView() == UART_RX_RESET && txSeq == 0
      ensures packetsReceived == 0 && packetErrors == 0 && lastPacketTime == 0
      ensures !connected && !paused && backoffUntil == 0
      ensures transmitted == [] && delivered == []
    {
      rxBuffer := new byte[UART_RX_BUFFER_SIZE](_ => 0);
      rxState := WaitStart;
      rxIndex := 0;
      rxLength := 0;
      txSeq := 0;
      packetsReceived := 0;
      packetErrors := 0;
      lastPacketTime := 0;
      connected := false;
      paused := false;
      backoffUntil := 0;
      transmitted := [];
      delivered := [];
    }

    method Append(b: byte)
      requires rxIndex < rxBuffer.Length
      modifies rxBuffer, this`rxIndex
      ensures rxIndex == old(rxIndex) + 1
      ensures rxBuffer[..rxIndex] == old(rxBuffer[..rxIndex]) + [b]
    {
      rxBuffer[rxIndex] := b;
      rxIndex := rxIndex + 1;
    }

    /**
     * `processPacket`: the CRC check of a complete frame, then either the
     * hand-off to the callback (and the time of the last packet) or a
     * packet error.
     */
    method ProcessPacket(now: nat)
      requires 3 <= rxIndex <= rxBuffer.Length && rxIndex == 5 + rxBuffer[1] as nat
      modifies this`packetsReceived, this`packetErrors, this`lastPacketTime, this`delivered
      ensures var p := CheckFrame(rxBuffer[..rxIndex]);
        delivered == old(delivered) + Received(p)
        && packetsReceived == old(packetsReceived) + |Received(p)|
        && packetErrors == old(packetErrors) + Rejected(p)
        && lastPacketTime == (if p.Some? then now else old(lastPacketTime))
    {
      var p := ReadPacket();
      if p.Some? {
        packetsReceived := packetsReceived + 1;
        lastPacketTime := now;
        delivered := delivered + [p.value];
      } else {
        packetErrors := packetErrors + 1;
      }
    }

    /**
     * The field extraction and CRC comparison of `processPacket`: the
     * packet when the received CRC equals `calculateCRC` of the bytes
     * before it.
     */
    method ReadPacket() returns (p: Option<Packet>)
      requires 3 <= rxIndex <= rxBuffer.Length && rxIndex == 5 + rxBuffer[1] as nat
      ensures p == CheckFrame(rxBuffer[..rxIndex])
    {
      ghost var buf := rxBuffer[..rxIndex];
      var len := rxBuffer[1] as nat;
      var payload: seq<byte> := [];
      if len > 0 && len <= PACKET_PAYLOAD_CAPACITY {
        payload := rxBuffer[3..3 + len];
      }
      assert buf[3..3 + len] == rxBuffer[3..3 + len];
      var received := rxBuffer[3 + len] as nat + rxBuffer[4 + len] as nat * 0x100;
      assert buf[3 + len..5 + len] == [rxBuffer[3 + len], rxBuffer[4 + len]];
      assert received == DecodeLE16(buf[3 + len..5 + len]);
      var expected := CalculateCrc(rxBuffer, 0, 3 + len);
      assert rxBuffer[0..3 + len] == buf[..3 + len];
      assert expected as nat == Crc16Value(buf[..3 + len]);
      if received == expected as nat {
        p := Some(Packet(rxBuffer[0], rxBuffer[1], rxBuffer[2], payload, received));
      } else {
        p := None;
      }
    }

    /**
     * `processByte`: the state machine, with the index cleared after a
     * completed frame, then the overflow reset.
     */
    method ProcessByte(b: byte, now: nat)
      requires Valid()
      modifies this`rxState, this`rxIndex, this`rxLength, rxBuffer,
               this`packetsReceived, this`packetErrors, this`lastPacketTime, this`delivered
      ensures Valid()
      ensures var s := Step(old(RxView()), b);
        RxView() == s.rx
        && delivered == old(delivered) + s.delivered
        && packetsReceived == old(packetsReceived) + |s.delivered|
        && packetErrors == old(packetErrors) + s.errors
        && lastPacketTime == (if s.delivered == [] then old(lastPacketTime) else now)
    {
      ConsumeByte(b, now);
      if rxIndex >= rxBuffer.Length {
        rxState := WaitStart;
        rxIndex := 0;
        packetErrors := packetErrors + 1;
      }
    }

    /** The `switch (_rxState)` of `processByte`. */
    method ConsumeByte(b: byte, now: nat)
      requires Valid()
      modifies this`rxState, this`rxIndex, this`rxLength, rxBuffer,
               this`packetsReceived, this`packetErrors, this`lastPacketTime, this`delivered
      ensures rxBuffer.Length == UART_RX_BUFFER_SIZE && rxIndex <= rxBuffer.Length
      ensures !FrameCompletes(old(RxView())) ==>
        RxView() == Advance(old(RxView()), b)
        && delivered == old(delivered) && packetsReceived == old(packetsReceived)
        && packetErrors == old(packetErrors) && lastPacketTime == old(lastPacketTime)
      ensures FrameCompletes(old(RxView())) ==>
        var p := CheckFrame(Advance(old(RxView()), b).buf);
        RxView() == UartRx(WaitStart, [], old(rxLength))
        && delivered == old(delivered) + Received(p)
        && packetsReceived == old(packetsReceived) + |Received(p)|
        && packetErrors == old(packetErrors) + Rejected(p)
        && lastPacketTime == (if p.Some? then now else old(lastPacketTime))
    {
      match rxState
      case WaitStart =>
        if b == PROTOCOL_SYNC_BYTE {
          rxIndex := 0;
          rxState := GotType;
        }
      case GotType =>
        Append(b);
        rxState := GotLength;
      case GotLength =>
        Append(b);
        rxLength := b;
        rxState := GotSeq;
      case GotSeq =>
        Append(b);
        rxState := if rxLength > 0 then ReadingPayload else ReadingCrc;
      case ReadingPayload =>
        Append(b);
        if rxIndex >= 3 + rxLength as nat {
          rxState := ReadingCrc;
        }
      case ReadingCrc =>
        CrcByte(b, now);
    }

    /** The READING_CRC case: a completed frame is processed and the parser waits again. */
    method CrcByte(b: byte, now: nat)
      requires Valid() && rxState == ReadingCrc
      modifies this`rxState, this`rxIndex, rxBuffer,
               this`packetsReceived, this`packetErrors, this`lastPacketTime, this`delivered
      ensures rxIndex <= rxBuffer.Length && rxLength == old(rxLength)
      ensures !FrameCompletes(old(RxView())) ==>
        RxView() == Advance(old(RxView()), b)
        && delivered == old(delivered) && packetsReceived == old(packetsReceived)
        && packetErrors == old(packetErrors) && lastPacketTime == old(lastPacketTime)
      ensures FrameCompletes(old(RxView())) ==>
        var p := CheckFrame(Advance(old(RxView()), b).buf);
        RxView() == UartRx(WaitStart, [], old(rxLength))
        && delivered == old(delivered) + Received(p)
        && packetsReceived == old(packetsReceived) + |Received(p)|
        && packetErrors == old(packetErrors) + Rejected(p)
        && lastPacketTime == (if p.Some? then now else old(lastPacketTime))
    {
      Append(b);
      if rxIndex >= 3 + rxLength as nat + 2 {
        ProcessPacket(now);
        rxState := WaitStart;
        rxIndex := 0;
      }
    }

    /**
     * `loop`: nothing while paused; otherwise the connection status from
     * the time of the last packet (on the 32-bit millisecond clock), then
     * every available byte through the parser.
     */
    method Loop(input: seq<byte>, now: nat)
      requires Valid()
      modifies this`rxState, this`rxIndex, this`rxLength, rxBuffer, this`connected,
               this`packetsReceived, this`packetErrors, this`lastPacketTime, this`delivered
      ensures Valid()
      ensures old(paused) ==>
        RxView() == old(RxView()) && connected == old(connected) && delivered == old(delivered)
        && packetsReceived == old(packetsReceived) && packetErrors == old(packetErrors)
        && lastPacketTime == old(lastPacketTime)
      ensures !old(paused) ==>
        var f := Feed(old(RxView()), input);
        connected == (old(lastPacketTime) > 0 && Wrap32(now - old(lastPacketTime)) < CONNECTION_WINDOW_MS)
        && RxView() == f.rx
        && delivered == old(delivered) + f.delivered
        && packetsReceived == old(packetsReceived) + |f.delivered|
        && packetErrors == old(packetErrors) + f.errors
        && lastPacketTime == (if f.delivered == [] then old(lastPacketTime) else now)
    {
      if paused {
        return;
      }
      if lastPacketTime > 0 {
        connected := Wrap32(now - lastPacketTime) < CONNECTION_WINDOW_MS;
      } else {
        connected := false;
      }
      ghost var rx0 := RxView();
      ghost var d0 := delivered;
      ghost var r0 := packetsReceived;
      ghost var e0 := packetErrors;
      ghost var t0 := lastPacketTime;
      var i := 0;
      assert input[..0] == [];
      while i < |input|
        invariant Valid() && i <= |input| && WellFormed(rx0)
        invariant connected == (old(lastPacketTime) > 0 && Wrap32(now - old(lastPacketTime)) < CONNECTION_WINDOW_MS)
        invariant RxView() == Feed(rx0, input[..i]).rx
        invariant delivered == d0 + Feed(rx0, input[..i]).delivered
        invariant packetsReceived == r0 + |Feed(rx0, input[..i]).delivered|
        invariant packetErrors == e0 + Feed(rx0, input[..i]).errors
        invariant lastPacketTime == (if Feed(rx0, input[..i]).delivered == [] then t0 else now)
      {
        ReceiveNext(input, i, now, rx0, d0, r0, e0, t0);
        i := i + 1;
      }
      assert input[..i] == input;
    }

    /** One pass of the byte loop of `loop`. */
    method ReceiveNext(input: seq<byte>, i: nat, now: nat, ghost rx0: UartRx, ghost d0: seq<Packet>,
                       ghost r0: nat, ghost e0: nat, ghost t0: nat)
      requires Valid() && i < |input| && WellFormed(rx0)
      requires RxView() == Feed(rx0, input[..i]).rx
      requires delivered == d0 + Feed(rx0, input[..i]).delivered
      requires packetsReceived == r0 + |Feed(rx0, input[..i]).delivered|
      requires packetErrors == e0 + Feed(rx0, input[..i]).errors
      requires lastPacketTime == (if Feed(rx0, input[..i]).delivered == [] then t0 else now)
      modifies this`rxState, this`rxIndex, this`rxLength, rxBuffer,
               this`packetsReceived, this`packetErrors, this`lastPacketTime, this`delivered
      ensures Valid()
      ensures RxView() == Feed(rx0, input[..i + 1]).rx
      ensures delivered == d0 + Feed(rx0, input[..i + 1]).delivered
      ensures packetsReceived == r0 + |Feed(rx0, input[..i + 1]).delivered|
      ensures packetErrors == e0 + Feed(rx0, input[..i + 1]).errors
      ensures lastPacketTime == (if Feed(rx0, input[..i + 1]).delivered == [] then t0 else now)
    {
      FeedPrefixStep(rx0, input, i);
      ghost var f := Feed(rx0, input[..i]);
      ghost var s := Step(f.rx, input[i]);
      ProcessByte(input[i], now);
      assert d0 + (f.delivered + s.delivered) == (d0 + f.delivered) + s.delivered;
    }

    /**
     * `sendPacket`: a payload above the protocol maximum is refused with
     * nothing sent; otherwise the sequence number advances (wrapping at 8
     * bits) and the frame goes to the UART, which succeeds when the UART
     * takes all of it.
     */
    method SendPacket(msgType: byte, payload: seq<byte>, room: nat) returns (ok: bool)
      requires |payload| < 0x100
      modifies this`txSeq, this`transmitted
      ensures |payload| > PROTOCOL_MAX_PAYLOAD ==>
        !ok && txSeq == old(txSeq) && transmitted == old(transmitted)
      ensures |payload| <= PROTOCOL_MAX_PAYLOAD ==>
        var frame := Frame(msgType, old(txSeq), payload);
        txSeq as int == Wrap8(old(txSeq) as int + 1)
        && transmitted == old(transmitted) + Accepted(frame, room)
        && (ok <==> room >= |frame|)
    {
      if |payload| > PROTOCOL_MAX_PAYLOAD {
        return false;
      }
      var sq := txSeq;
      txSeq := Wrap8(txSeq as int + 1) as byte;
      var frame := AssembleFrame(msgType, sq, payload);
      var written := Accepted(frame, room);
      transmitted := transmitted + written;
      ok := |written| == |frame|;
    }

    /**
     * `sendCommand`: while a NACK backoff is in force the command is
     * deferred (nothing sent, `false`); otherwise the backoff is cleared
     * and the command goes out as a packet.
     */
    method SendCommand(cmdType: byte, data: seq<byte>, now: nat, room: nat) returns (ok: bool)
      requires |data| < 0x100
      modifies this`txSeq, this`transmitted, this`backoffUntil
      ensures old(backoffUntil) > 0 && now < old(backoffUntil) ==>
        !ok && txSeq == old(txSeq) && transmitted == old(transmitted) && backoffUntil == old(backoffUntil)
      ensures !(old(backoffUntil) > 0 && now < old(backoffUntil)) ==>
        backoffUntil == 0
        && (|data| > PROTOCOL_MAX_PAYLOAD ==> !ok && txSeq == old(txSeq) && transmitted == old(transmitted))
        && (|data| <= PROTOCOL_MAX_PAYLOAD ==>
              txSeq as int == Wrap8(old(txSeq) as int + 1)
              && transmitted == old(transmitted) + Accepted(Frame(cmdType, old(txSeq), data), room)
              && (ok <==> room >= |Frame(cmdType, old(txSeq), data)|))
    {
      if backoffUntil > 0 && now < backoffUntil {
        return false;
      }
      backoffUntil := 0;
      ok := SendPacket(cmdType, data, room);
    }

    /** `setBackoffUntil`. */
    method SetBackoffUntil(timestamp: nat)
      modifies this`backoffUntil
      ensures backoffUntil == timestamp
    {
      backoffUntil := timestamp;
    }

    /** `pause`: `loop` stops reading the UART. */
    method Pause()
      modifies this`paused
      ensures paused
    {
      paused := true;
    }

    /** `resume`: `loop` reads again, and the parser waits for a sync byte (the index is left as it was). */
    method Resume()
      requires Valid()
      modifies this`paused, this`rxState
      ensures Valid()
      ensures !paused && RxView() == old(RxView()).(state := WaitStart)
    {
      paused := false;
      rxState := WaitStart;
    }

    /** `clearConnectionState`. */
    method ClearConnectionState()
      modifies this`connected, this`lastPacketTime
      ensures !connected && lastPacketTime == 0
    {
      connected := false;
      lastPacketTime := 0;
    }

    /**
     * `waitForBootloaderAck`: `input` is what arrives before the timeout.
     * The bytes are read until the bootloader's ACK has been seen; the
     * parser state is saved before and restored after.
     */
    method WaitForBootloaderAck(input: seq<byte>) returns (found: bool, bytesRead: nat)
      modifies this`rxState
      ensures rxState == old(rxState)
      ensures found <==> ContainsAck(input)
      ensures found ==> 0 < bytesRead <= |input| && ContainsAck(input[..bytesRead])
                        && !ContainsAck(input[..bytesRead - 1])
      ensures !found ==> bytesRead == |input|
    {
      var index: nat := 0;
      bytesRead := 0;
      var savedState := rxState;
      rxState := WaitStart;
      assert input[..0] == [];
      while bytesRead < |input|
        invariant bytesRead <= |input|
        invariant index < |BOOT_ACK| && index == AckProgress(input[..bytesRead])
      {
        var b := input[bytesRead];
        assert input[..bytesRead + 1][..bytesRead] == input[..bytesRead];
        bytesRead := bytesRead + 1;
        if b == BOOT_ACK[index] {
          index := index + 1;
          if index == |BOOT_ACK| {
            rxState := savedState;
            MatcherFindsAck(input[..bytesRead]);
            MatcherFindsAck(input[..bytesRead - 1]);
            assert input[..bytesRead - 1] == input[..bytesRead][..bytesRead - 1];
            PrefixAck(input, bytesRead);
            return true, bytesRead;
          }
        } else if b == BOOT_ACK[0] {
          index := 1;
        } else {
          index := 0;
        }
      }
      rxState := savedState;
      assert input[..bytesRead] == input;
      MatcherFindsAck(input);
      return false, bytesRead;
    }

    /**
     * `streamFirmwareChunk`: a chunk above 256 bytes is refused (0, nothing
     * sent); otherwise header, data and checksum go to the UART in turn,
     * the first short write ends the call with 0, and a complete chunk
     * returns its size. `room` is how many bytes the UART takes.
     */
    method StreamFirmwareChunk(data: seq<byte>, chunkNumber: nat, room: nat) returns (sent: nat)
      requires IsU32(chunkNumber)
      modifies this`transmitted
      ensures |data| > MAX_CHUNK_SIZE ==> sent == 0 && transmitted == old(transmitted)
      ensures |data| <= MAX_CHUNK_SIZE ==>
        var chunk := ChunkFrame(chunkNumber, data);
        transmitted == old(transmitted) + Accepted(chunk, room)
        && sent == (if room >= |chunk| then |data| else 0)
    {
      if |data| > MAX_CHUNK_SIZE {
        return 0;
      }
      var len := |data|;
      var header: seq<byte> := [0x55, 0xAA] + LE32(chunkNumber) + LE16(len);
      var checksum := ChunkChecksum(data);
      ghost var t0 := transmitted;
      assert ChunkFrame(chunkNumber, data) == header + (data + [checksum]);
      AcceptedSplit(header, data + [checksum], room);
      var written := Accepted(header, room);
      transmitted := transmitted + written;
      if |written| != 8 {
        return 0;
      }
      sent := StreamBody(data, checksum, room - 8);
      assert transmitted == t0 + (written + Accepted(data + [checksum], room - 8));
    }

    /** The data and checksum writes of `streamFirmwareChunk`, once the header went out whole. */
    method StreamBody(data: seq<byte>, checksum: byte, room: nat) returns (sent: nat)
      modifies this`transmitted
      ensures transmitted == old(transmitted) + Accepted(data + [checksum], room)
      ensures sent == if room >= |data| + 1 then |data| else 0
    {
      AcceptedSplit(data, [checksum], room);
      ghost var t0 := transmitted;
      var len := |data|;
      var dataWritten := Accepted(data, room);
      transmitted := transmitted + dataWritten;
      if |dataWritten| != len {
        return 0;
      }
      var sumWritten := Accepted([checksum], room - len);
      transmitted := transmitted + sumWritten;
      assert transmitted == t0 + (dataWritten + sumWritten);
      if |sumWritten| != 1 {
        return 0;
      }
      return len;
    }
  }

  /** What the UART takes of two writes in a row: the first as far as it fits, then the second from what is left. */
  lemma AcceptedSplit(a: seq<byte>, b: seq<byte>, room: nat)
    ensures Accepted(a + b, room) == Accepted(a, room) + (if room >= |a| then Accepted(b, room - |a|) else [])
  {
    if room >= |a| {
      if room < |a| + |b| {
        assert (a + b)[..room] == a + b[..room - |a|];
      }
    } else {
      assert (a + b)[..room] == a[..room];
    }
  }

  /** The first occurrence of the ACK ends where the matcher stopped. */
  lemma PrefixAck(input: seq<byte>, n: nat)
    requires 0 < n <= |input| && ContainsAck(input[..n])
    ensures ContainsAck(input)
  {
    var i :| 0 <= i < n && AckAt(input[..n], i);
    assert input[i..i + |BOOT_ACK|] == input[..n][i..i + |BOOT_ACK|];
    assert AckAt(input, i);
  }
}
