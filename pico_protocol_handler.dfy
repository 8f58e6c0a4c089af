/**
 * `PicoProtocolHandler` on the ESP32: the reaction to the Pico's NACKs
 * (a non-blocking backoff that `PicoUART::sendCommand` honours) and to
 * its handshake (an answer with the ESP32's own protocol parameters).
 */
module Esp32ProtocolHandler {
  import opened Wrappers
  import opened Bytes
  import opened ProtocolDefs
  import opened Esp32PicoUart

  /** NACKs closer together than this count as one burst. */
  const NACK_WINDOW_MS: nat := 5000
  /** More NACKs than this in one burst reset the count. */
  const NACK_OVERLOAD_COUNT: nat := 10
  /** Backoff per NACK in the count, and its cap. */
  const BACKOFF_STEP_MS: nat := 100
  const MAX_BACKOFF_MS: nat := 500

  // ---------------------------------------------------------------------------
  // NACK backoff
  // ---------------------------------------------------------------------------

  /** `_nackCount`, `_lastNackTime` (0 = no NACK yet) and `_backoffUntil`. */
  datatype NackState = NackState(nackCount: nat, lastNackTime: nat, backoffUntil: nat)

  const NO_NACKS: NackState := NackState(0, 0, 0)

  predicate NackValid(s: NackState) {
    s.nackCount <= NACK_OVERLOAD_COUNT && IsU32(s.lastNackTime) && IsU32(s.backoffUntil)
  }

  /** `now - last < 5000` on the 32-bit millisecond clock. */
  predicate WithinWindow(last: nat, now: nat) {
    Wrap32(now - last) < NACK_WINDOW_MS
  }

  /**
   * The counting half of `updateBackoff`: the first NACK, and one after a
   * quiet period, count 1; one within the window adds 1, and an eleventh
   * in a burst resets the count to 0.
   */
  function Counted(s: NackState, now: nat): (r: NackState)
    requires NackValid(s) && IsU32(now)
    ensures NackValid(r) && r.lastNackTime == now && r.backoffUntil == s.backoffUntil
    ensures r.nackCount == 0
            <==> s.lastNackTime != 0 && WithinWindow(s.lastNackTime, now) && s.nackCount == NACK_OVERLOAD_COUNT
  {
    if s.lastNackTime == 0 then
      s.(lastNackTime := now, nackCount := 1)
    else
      var n := s.nackCount + 1;
      var n' := if WithinWindow(s.lastNackTime, now) then (if n > NACK_OVERLOAD_COUNT then 0 else n) else 1;
      s.(nackCount := n', lastNackTime := now)
  }

  /** `min(100 * count, 500)`. */
  function BackoffMs(count: nat): (r: nat)
    ensures r <= MAX_BACKOFF_MS
    ensures count > 0 ==> BACKOFF_STEP_MS <= r
    ensures r == BACKOFF_STEP_MS * count || r == MAX_BACKOFF_MS
  {
    if BACKOFF_STEP_MS * count < MAX_BACKOFF_MS then BACKOFF_STEP_MS * count else MAX_BACKOFF_MS
  }

  /** `updateBackoff` as written: the backoff follows the count after the overload reset. */
  function UpdateBackoffAsWritten(s: NackState, now: nat): (r: NackState)
    requires NackValid(s) && IsU32(now)
    ensures r == UpdateBackoff(s, now).(backoffUntil := r.backoffUntil)
    ensures Wrap32(r.backoffUntil - now) <= MAX_BACKOFF_MS
    ensures r.nackCount == 0 ==> r.backoffUntil == now
  {
    var c := Counted(s, now);
    c.(backoffUntil := Wrap32(now + BackoffMs(c.nackCount)))
  }

  /**
   * `updateBackoff` with the backoff taken from the count before the
   * overload reset, so that every NACK defers commands by 100 to 500 ms.
   */
  function UpdateBackoff(s: NackState, now: nat): (r: NackState)
    requires NackValid(s) && IsU32(now)
    ensures NackValid(r) && r.lastNackTime == now
    ensures BACKOFF_STEP_MS <= Wrap32(r.backoffUntil - now) <= MAX_BACKOFF_MS
  {
    var c := Counted(s, now);
    var ms := BackoffMs(if c.nackCount == 0 then s.nackCount + 1 else c.nackCount);
    WrapAdd(now, ms);
    c.(backoffUntil := Wrap32(now + ms))
  }

  /** Adding a small delay to a 32-bit clock and taking the difference gives the delay back. */
  lemma WrapAdd(now: nat, ms: nat)
    requires IsU32(now) && ms <= MAX_BACKOFF_MS
    ensures Wrap32(Wrap32(now + ms) - now) == ms
  {
    if now + ms >= U32_LIMIT {
      assert Wrap32(now + ms) == now + ms - U32_LIMIT;
      assert Wrap32(now + ms) - now == ms - U32_LIMIT;
    }
  }

  /**
   * As written, the eleventh NACK of a burst sets no backoff at all: the
   * next command may go out at once, at the highest NACK rate.
   */
  lemma OverloadClearsBackoffAsWritten(s: NackState, now: nat)
    requires NackValid(s) && IsU32(now)
    requires s.lastNackTime != 0 && s.nackCount == NACK_OVERLOAD_COUNT
    requires WithinWindow(s.lastNackTime, now)
    ensures UpdateBackoffAsWritten(s, now).nackCount == 0
    ensures UpdateBackoffAsWritten(s, now).backoffUntil == now
  {
  }

  /** With the correction the same NACK keeps the 500 ms cap; elsewhere nothing changes. */
  lemma OverloadKeepsBackoff(s: NackState, now: nat)
    requires NackValid(s) && IsU32(now)
    ensures UpdateBackoff(s, now).nackCount == UpdateBackoffAsWritten(s, now).nackCount
    ensures UpdateBackoff(s, now).nackCount != 0 ==> UpdateBackoff(s, now) == UpdateBackoffAsWritten(s, now)
    ensures UpdateBackoff(s, now).nackCount == 0 ==> UpdateBackoff(s, now).backoffUntil == Wrap32(now + MAX_BACKOFF_MS)
  {
  }

  /** NACKs at the given times, oldest first. */
  function NackSeries(s: NackState, times: seq<nat>): (r: NackState)
    requires NackValid(s) && forall i :: 0 <= i < |times| ==> IsU32(times[i])
    ensures NackValid(r)
    decreases |times|
  {
    if times == [] then s
    else UpdateBackoff(NackSeries(s, times[..|times| - 1]), times[|times| - 1])
  }

  /** Consecutive times at most the window apart, none of them 0, on the 32-bit clock. */
  predicate Burst(times: seq<nat>) {
    (forall i :: 0 <= i < |times| ==> IsU32(times[i]) && times[i] != 0)
    && (forall i :: 0 < i < |times| ==> WithinWindow(times[i - 1], times[i]))
  }

  /**
   * From no NACKs, a burst of up to ten NACKs counts each of them, and the
   * backoff after the last is 100 ms per NACK, capped at 500 ms.
   */
  lemma {:induction false} BurstBackoff(times: seq<nat>)
    requires Burst(times) && 0 < |times| <= NACK_OVERLOAD_COUNT
    ensures NackSeries(NO_NACKS, times)
            == NackState(|times|, times[|times| - 1], Wrap32(times[|times| - 1] + BackoffMs(|times|)))
    decreases |times|
  {
    if |times| == 1 {
      assert NackSeries(NO_NACKS, times) == UpdateBackoff(NO_NACKS, times[0]);
      QuietPeriodRestarts(NO_NACKS, times[0]);
    } else {
      assert Burst(times[..|times| - 1]);
      BurstBackoff(times[..|times| - 1]);
      BurstStep(times);
    }
  }

  /** One more NACK in a burst, given the state after the earlier ones. */
  lemma BurstStep(times: seq<nat>)
    requires Burst(times) && 1 < |times| <= NACK_OVERLOAD_COUNT
    requires NackSeries(NO_NACKS, times[..|times| - 1])
             == NackState(|times| - 1, times[|times| - 2], Wrap32(times[|times| - 2] + BackoffMs(|times| - 1)))
    ensures NackSeries(NO_NACKS, times)
            == NackState(|times|, times[|times| - 1], Wrap32(times[|times| - 1] + BackoffMs(|times|)))
  {
    var s := NackSeries(NO_NACKS, times[..|times| - 1]);
    var last := times[|times| - 1];
    assert NackSeries(NO_NACKS, times) == UpdateBackoff(s, last);
    NackInBurst(s, last);
  }

  /** A NACK within the window of the previous one, below the overload count, adds one to the count. */
  lemma NackInBurst(s: NackState, now: nat)
    requires NackValid(s) && IsU32(now)
    requires s.lastNackTime != 0 && WithinWindow(s.lastNackTime, now)
    requires s.nackCount < NACK_OVERLOAD_COUNT
    ensures UpdateBackoff(s, now) == NackState(s.nackCount + 1, now, Wrap32(now + BackoffMs(s.nackCount + 1)))
  {
  }

  /** A NACK after a quiet period starts a new burst at 100 ms. */
  lemma QuietPeriodRestarts(s: NackState, now: nat)
    requires NackValid(s) && IsU32(now)
    requires s.lastNackTime == 0 || !WithinWindow(s.lastNackTime, now)
    ensures UpdateBackoff(s, now).nackCount == 1
    ensures UpdateBackoff(s, now).backoffUntil == Wrap32(now + BACKOFF_STEP_MS)
  {
  }

  // ---------------------------------------------------------------------------
  // Handshake
  // ---------------------------------------------------------------------------

  /** The fields of a handshake payload. */
  datatype Handshake = Handshake(major: byte, minor: byte, capabilities: byte, maxRetry: byte, ackTimeoutMs: nat)

  /** Protocol 1.1, no capabilities, 3 retries, a 1000 ms ACK timeout. */
  const ESP32_HANDSHAKE: Handshake := Handshake(1, 1, 0, 3, 1000)

  /** The 6-byte handshake payload; the ACK timeout is little-endian. */
  function EncodeHandshake(h: Handshake): (r: seq<byte>)
    requires IsU16(h.ackTimeoutMs)
    ensures |r| == 6
  {
    [h.major, h.minor, h.capabilities, h.maxRetry] + LE16(h.ackTimeoutMs)
  }

  /**
   * What `handleHandshake` reads from a packet: nothing from one shorter
   * than 6 bytes, otherwise the four bytes and the little-endian timeout.
   * A payload the packet did not copy out reads as nothing.
   */
  function ParseHandshake(p: Packet): (r: Option<Handshake>)
    ensures r.Some? ==> IsU16(r.value.ackTimeoutMs)
    ensures p.length < 6 ==> r.None?
  {
    if p.length < 6 || |p.payload| < 6 then None
    else Some(Handshake(p.payload[0], p.payload[1], p.payload[2], p.payload[3], DecodeLE16(p.payload[4..6])))
  }

  /** A handshake encoded and sent in a packet is read back unchanged. */
  lemma HandshakeRoundTrip(h: Handshake, sq: byte, crc: nat)
    requires IsU16(h.ackTimeoutMs)
    ensures ParseHandshake(Packet(MSG_HANDSHAKE, 6, sq, EncodeHandshake(h), crc)) == Some(h)
  {
    var e := EncodeHandshake(h);
    assert e[4..6] == LE16(h.ackTimeoutMs);
    LE16RoundTrip(h.ackTimeoutMs);
  }

  /** The bytes of the ESP32's answer: 1, 1, 0, 3, 0xE8, 0x03. */
  lemma Esp32HandshakeBytes()
    ensures EncodeHandshake(ESP32_HANDSHAKE) == [1, 1, 0, 3, 0xE8, 0x03]
  {
  }

  // ---------------------------------------------------------------------------
  // The handler object
  // ---------------------------------------------------------------------------

  /**
   * The state of a `PicoProtocolHandler`: the NACK bookkeeping and the
   * `PicoUART` it drives (none before `begin`). `millis()` is the `now`
   * parameter; `room` is how many bytes the UART takes.
   */
  class PicoProtocolHandler {
    var uart: PicoUart?
    var nackCount: nat
    var lastNackTime: nat
    var backoffUntil: nat

    /** The UART as a set, for frames: empty before `begin`. */
    function UartRef(): set<PicoUart>
      reads this
    {
      if uart == null then {} else {uart}
    }

    function State(): NackState
      reads this
    {
      NackState(nackCount, lastNackTime, backoffUntil)
    }

    predicate Valid()
      reads this
    {
      NackValid(State())
    }

    constructor ()
      ensures Valid() && uart == null && State() == NO_NACKS
    {
      uart := null;
      nackCount := 0;
      lastNackTime := 0;
      backoffUntil := 0;
    }

    /** `begin`, as far as the UART is concerned. */
    method Begin(u: PicoUart?)
      modifies this`uart
      ensures uart == u
    {
      uart := u;
    }

    /** `updateBackoff`, with the backoff taken from the count before an overload reset. */
    method UpdateBackoffAt(now: nat)
      requires Valid() && IsU32(now)
      modifies this`nackCount, this`lastNackTime, this`backoffUntil
      ensures Valid()
      ensures State() == UpdateBackoff(old(State()), now)
    {
      var before := nackCount + 1;
      if lastNackTime == 0 {
        lastNackTime := now;
        nackCount := 1;
      } else {
        nackCount := nackCount + 1;
        if WithinWindow(lastNackTime, now) {
          if nackCount > NACK_OVERLOAD_COUNT {
            nackCount := 0;
          }
        } else {
          nackCount := 1;
        }
        lastNackTime := now;
      }
      var backoffMs := if BACKOFF_STEP_MS * nackCount < MAX_BACKOFF_MS then BACKOFF_STEP_MS * nackCount else MAX_BACKOFF_MS;
      if nackCount == 0 {
        backoffMs := MAX_BACKOFF_MS;
        assert backoffMs == BackoffMs(before);
      }
      backoffUntil := Wrap32(now + backoffMs);
    }

    /**
     * `handleNACK`: a NACK shorter than 4 bytes is ignored; otherwise the
     * backoff is updated and handed to the UART.
     */
    method HandleNack(p: Packet, now: nat)
      requires Valid() && IsU32(now)
      modifies this`nackCount, this`lastNackTime, this`backoffUntil, UartRef()`backoffUntil
      ensures Valid() && uart == old(uart)
      ensures p.length < 4 ==> State() == old(State()) && (uart != null ==> uart.backoffUntil == old(uart.backoffUntil))
      ensures p.length >= 4 ==>
        State() == UpdateBackoff(old(State()), now)
        && (uart != null ==> uart.backoffUntil == backoffUntil)
    {
      if p.length < 4 {
        return;
      }
      UpdateBackoffAt(now);
      if uart != null {
        uart.SetBackoffUntil(backoffUntil);
      }
    }

    /**
     * `handleHandshake`: a handshake shorter than 6 bytes is ignored;
     * otherwise the ESP32 answers with its own handshake.
     */
    method HandleHandshake(p: Packet, room: nat)
      modifies UartRef()`txSeq, UartRef()`transmitted
      ensures uart != null && p.length < 6 ==>
        uart.txSeq == old(uart.txSeq) && uart.transmitted == old(uart.transmitted)
      ensures uart != null && p.length >= 6 ==>
        var frame := Frame(MSG_HANDSHAKE, old(uart.txSeq), EncodeHandshake(ESP32_HANDSHAKE));
        uart.txSeq as int == Wrap8(old(uart.txSeq) as int + 1)
        && uart.transmitted == old(uart.transmitted) + Accepted(frame, room)
    {
      if p.length < 6 {
        return;
      }
      var info := ParseHandshake(p);
      var payload: seq<byte> := [1, 1, 0, 3, Byte(1000 % 0x100), Byte(1000 / 0x100)];
      assert payload == EncodeHandshake(ESP32_HANDSHAKE);
      if uart != null {
        var sent := uart.SendPacket(MSG_HANDSHAKE, payload, room);
      }
    }

    /**
     * `handlePacket`: handshakes and NACKs are handled here; the other
     * types are routed to code outside this model and change nothing here.
     */
    method HandlePacket(p: Packet, now: nat, room: nat)
      requires Valid() && IsU32(now)
      modifies this`nackCount, this`lastNackTime, this`backoffUntil, UartRef()`backoffUntil,
               UartRef()`txSeq, UartRef()`transmitted
      ensures Valid() && uart == old(uart)
      ensures p.msgType == MSG_NACK && p.length >= 4 ==> State() == UpdateBackoff(old(State()), now)
      ensures !(p.msgType == MSG_NACK && p.length >= 4) ==> State() == old(State())
      ensures uart != null && p.msgType == MSG_HANDSHAKE && p.length >= 6 ==>
        uart.transmitted
        == old(uart.transmitted) + Accepted(Frame(MSG_HANDSHAKE, old(uart.txSeq), EncodeHandshake(ESP32_HANDSHAKE)), room)
      ensures uart != null && !(p.msgType == MSG_HANDSHAKE && p.length >= 6) ==>
        uart.transmitted == old(uart.transmitted) && uart.txSeq == old(uart.txSeq)
    {
      if p.msgType == MSG_HANDSHAKE {
        HandleHandshake(p, room);
      } else if p.msgType == MSG_NACK {
        HandleNack(p, now);
      }
    }
  }
}
