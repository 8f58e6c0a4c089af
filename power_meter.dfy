/**
 * The Pico's power meter driver: the table of supported Modbus meters,
 * the extraction of raw register values from a response, and the driver
 * state (selected meter, last reading, last error).
 *
 * Readings are kept as the raw register values; the driver multiplies
 * them by per-meter floating-point scales, which are not modelled apart
 * from the voltage plausibility test of auto-detection (see README).
 */
module PowerMeter {
  import opened Wrappers
  import opened Bytes
  import opened Modbus

  /**
   * `modbus_register_map_t` without its floating-point scales; the voltage
   * scale is kept as the divisor it stands for (0.1 is 1/10).
   */
  datatype MeterMap = MeterMap(
    name: string,
    slaveAddr: byte,
    baudRate: nat,
    isRs485: bool,
    voltageReg: nat,
    voltageScaleDivisor: nat,
    currentReg: nat,
    powerReg: nat,
    energyReg: nat,
    energyIs32Bit: bool,
    frequencyReg: nat,
    pfReg: nat,
    functionCode: byte,
    numRegisters: nat)

  /** `METER_MAPS`: PZEM-004T V3, JSY-MK-163T, JSY-MK-194T, Eastron SDM120 and SDM230. */
  const METER_MAPS: seq<MeterMap> := [
    MeterMap("PZEM-004T V3", 0xF8, 9600, false, 0x0000, 10, 0x0001, 0x0002, 0x0003, true, 0x0004, 0x0005,
             MODBUS_FC_READ_INPUT_REGS, 10),
    MeterMap("JSY-MK-163T", 0x01, 4800, false, 0x0048, 10000, 0x0049, 0x004A, 0x004B, true, 0x0057, 0x0056,
             MODBUS_FC_READ_HOLDING_REGS, 16),
    MeterMap("JSY-MK-194T", 0x01, 4800, false, 0x0000, 100, 0x0001, 0x0002, 0x0003, true, 0x0007, 0x0008,
             MODBUS_FC_READ_HOLDING_REGS, 10),
    MeterMap("Eastron SDM120", 0x01, 2400, true, 0x0000, 1, 0x0006, 0x000C, 0x0048, false, 0x0046, 0x001E,
             MODBUS_FC_READ_INPUT_REGS, 2),
    MeterMap("Eastron SDM230", 0x01, 9600, true, 0x0000, 1, 0x0006, 0x000C, 0x0156, false, 0x0046, 0x001E,
             MODBUS_FC_READ_INPUT_REGS, 2)]

  const METER_MAPS_COUNT: nat := 5

  /** The driver's receive buffer. */
  const RESPONSE_BUFFER_SIZE: nat := 128

  /** A reading stays fresh, and the meter connected, for 5 s after the last success. */
  const CONNECTION_TIMEOUT_MS: nat := 5000

  /** The meter index that asks for auto-detection. */
  const AUTO_DETECT: byte := 0xFF

  // ---------------------------------------------------------------------------
  // Parsing a response
  // ---------------------------------------------------------------------------

  /** The raw register values of a reading; fields not present in the response stay 0. */
  datatype RawReading = RawReading(
    voltage: nat, current: nat, power: nat, energy: nat, frequency: nat, powerFactor: nat)

  const ZERO_READING := RawReading(0, 0, 0, 0, 0, 0)

  /** Byte offset of register `reg` in the data, counted from the first register requested. */
  function Offset(m: MeterMap, reg: nat): int {
    (reg - m.voltageReg) * 2
  }

  /** `parse_response` reads a `width`-byte field only when the data announces it whole. */
  predicate Present(m: MeterMap, byteCount: int, reg: nat, width: nat) {
    Offset(m, reg) >= 0 && Offset(m, reg) + width - 1 < byteCount
  }

  /** The largest byte count whose data fit the receive buffer after the three-byte header. */
  const MAX_BYTE_COUNT: nat := RESPONSE_BUFFER_SIZE - 3

  /**
   * A frame that the receive loop accepts declares a byte count that fits
   * the buffer, so every field `parse_response` reads lies inside it.
   */
  lemma ReceivedFrameFits(incoming: seq<byte>)
    ensures var (ok, n) := Receive(incoming, RESPONSE_BUFFER_SIZE);
            ok ==> n >= 5 && n == incoming[2] as int + 5 && incoming[2] as int <= MAX_BYTE_COUNT
  {
    ReceiveStopsAtFrameEnd(incoming, RESPONSE_BUFFER_SIZE, 0);
  }

  /** A 16-bit field of the response in `buffer`, or 0 when it is not present. */
  function Field16(m: MeterMap, buffer: seq<byte>, reg: nat): nat
    requires |buffer| == RESPONSE_BUFFER_SIZE && buffer[2] as int <= MAX_BYTE_COUNT
  {
    if Present(m, buffer[2] as int, reg, 2) then ExtractU16(buffer, 3 + Offset(m, reg)) else 0
  }

  /** The energy field: one register, or two consecutive ones read big-endian. */
  function EnergyField(m: MeterMap, buffer: seq<byte>): nat
    requires |buffer| == RESPONSE_BUFFER_SIZE && buffer[2] as int <= MAX_BYTE_COUNT
  {
    if !Present(m, buffer[2] as int, m.energyReg, if m.energyIs32Bit then 4 else 2) then 0
    else if m.energyIs32Bit then ExtractU32(buffer, 3 + Offset(m, m.energyReg))
    else ExtractU16(buffer, 3 + Offset(m, m.energyReg))
  }

  /**
   * `parse_response` over the whole receive buffer (bytes past the
   * response are whatever the buffer held): fails only on a response
   * shorter than five bytes.
   */
  function ParseResponse(m: MeterMap, buffer: seq<byte>, length: int): (r: Option<RawReading>)
    requires |buffer| == RESPONSE_BUFFER_SIZE && buffer[2] as int <= MAX_BYTE_COUNT
    ensures r.Some? <==> length >= 5
  {
    if length < 5 then None
    else Some(RawReading(
      Field16(m, buffer, m.voltageReg), Field16(m, buffer, m.currentReg), Field16(m, buffer, m.powerReg),
      EnergyField(m, buffer), Field16(m, buffer, m.frequencyReg), Field16(m, buffer, m.pfReg)))
  }

  /** The buffer carries the register values `regs`, from the map's first register on. */
  predicate Carries(buffer: seq<byte>, regs: seq<nat>)
    requires forall i :: 0 <= i < |regs| ==> IsU16(regs[i])
  {
    |buffer| == RESPONSE_BUFFER_SIZE && 2 * |regs| <= MAX_BYTE_COUNT
    && buffer[2] as int == 2 * |regs| && buffer[3..3 + 2 * |regs|] == Registers(regs)
  }

  /**
   * A 16-bit field reads back its register when the data reach it, and is
   * 0 when they do not.
   */
  lemma FieldFromRegisters(m: MeterMap, buffer: seq<byte>, regs: seq<nat>, reg: nat)
    requires forall i :: 0 <= i < |regs| ==> IsU16(regs[i])
    requires Carries(buffer, regs) && reg >= m.voltageReg
    ensures reg - m.voltageReg < |regs| ==> Field16(m, buffer, reg) == regs[reg - m.voltageReg]
    ensures reg - m.voltageReg >= |regs| ==> Field16(m, buffer, reg) == 0
  {
    var k := reg - m.voltageReg;
    if k < |regs| {
      var data := buffer[3..];
      assert data[..2 * |regs|] == Registers(regs);
      ExtractRegister(regs, data, k);
    }
  }

  /**
   * A 32-bit energy field combines its register (high word) with the next
   * one (low word), and is 0 unless the data reach both.
   */
  lemma EnergyFromRegisters(m: MeterMap, buffer: seq<byte>, regs: seq<nat>)
    requires forall i :: 0 <= i < |regs| ==> IsU16(regs[i])
    requires Carries(buffer, regs) && m.energyReg >= m.voltageReg && m.energyIs32Bit
    ensures var k := m.energyReg - m.voltageReg;
            if k + 1 < |regs| then EnergyField(m, buffer) == regs[k] * U16_LIMIT + regs[k + 1]
            else EnergyField(m, buffer) == 0
  {
    var k := m.energyReg - m.voltageReg;
    if k + 1 < |regs| {
      var data := buffer[3..];
      assert data[..2 * |regs|] == Registers(regs);
      ExtractRegister(regs, data, k);
      ExtractRegister(regs, data, k + 1);
    }
  }

  /** Auto-detection accepts a meter whose voltage reads between 50 V and 300 V. */
  predicate PlausibleVoltage(m: MeterMap, r: RawReading)
    requires m.voltageScaleDivisor > 0
  {
    50 * m.voltageScaleDivisor < r.voltage < 300 * m.voltageScaleDivisor
  }

  // ---------------------------------------------------------------------------
  // One poll of a meter
  // ---------------------------------------------------------------------------

  /**
   * One request/response exchange with meter `m`: `incoming` are the bytes
   * that arrive before the receive timeout and `stale` the receive buffer's
   * previous contents. The error strings are the driver's `last_error`.
   */
  function PollOutcome(m: MeterMap, incoming: seq<byte>, stale: seq<byte>): (r: Result<RawReading, string>)
    requires |stale| == RESPONSE_BUFFER_SIZE
    ensures r.Ok? ==> var n := Receive(incoming, RESPONSE_BUFFER_SIZE).1;
                      Receive(incoming, RESPONSE_BUFFER_SIZE).0 && ResponseValid(m.slaveAddr, m.functionCode, incoming[..n])
    ensures r != Err("Parse error")
  {
    var (ok, n) := Receive(incoming, RESPONSE_BUFFER_SIZE);
    ReceivedFrameFits(incoming);
    if !ok then Err("No response from meter")
    else if !ResponseValid(m.slaveAddr, m.functionCode, incoming[..n]) then Err("Invalid response")
    else
      match ParseResponse(m, incoming[..n] + stale[n..], n)
      case None => Err("Parse error")
      case Some(reading) => Ok(reading)
  }

  /**
   * A meter that answers with a valid frame `frame`, complete within the
   * receive buffer, is read: the exchange succeeds.
   */
  lemma ValidFrameIsRead(m: MeterMap, frame: seq<byte>, rest: seq<byte>, stale: seq<byte>)
    requires |stale| == RESPONSE_BUFFER_SIZE
    requires |frame| >= 5 && |frame| == frame[2] as int + 5 && |frame| <= RESPONSE_BUFFER_SIZE
    requires ResponseValid(m.slaveAddr, m.functionCode, frame)
    ensures PollOutcome(m, frame + rest, stale).Ok?
  {
    var incoming := frame + rest;
    assert incoming[2] == frame[2];
    forall k | 0 <= k <= 0
      ensures !Complete(incoming[..k])
    {
    }
    ReceiveCompletes(incoming, RESPONSE_BUFFER_SIZE, 0);
    ReceiveStopsAtFrameEnd(incoming, RESPONSE_BUFFER_SIZE, 0);
    assert incoming[..|frame|] == frame;
  }

  // ---------------------------------------------------------------------------
  // The driver
  // ---------------------------------------------------------------------------

  /** `power_meter_config_t`. */
  datatype MeterConfig = MeterConfig(enabled: bool, meterIndex: byte, slaveAddr: byte, baudRate: nat)

  /** What `power_meter_init` falls back to when no configuration is stored. */
  const DEFAULT_CONFIG := MeterConfig(false, AUTO_DETECT, 0, 0)

  /** The raw values of `power_meter_reading_t`, its timestamp and its valid flag. */
  datatype Reading = Reading(raw: RawReading, timestamp: nat, valid: bool)

  const NO_READING := Reading(ZERO_READING, 0, false)

  /** What one auto-detection attempt receives: the reply bytes and the buffer's previous contents. */
  datatype Attempt = Attempt(incoming: seq<byte>, stale: seq<byte>)

  /** One attempt per meter of the table, each over a full-size receive buffer. */
  predicate AttemptsFit(attempts: seq<Attempt>) {
    |attempts| == METER_MAPS_COUNT
    && forall k :: 0 <= k < |attempts| ==> |attempts[k].stale| == RESPONSE_BUFFER_SIZE
  }

  /** The outcome of polling meter `k` during detection. */
  function Outcome(attempts: seq<Attempt>, k: nat): Result<RawReading, string>
    requires AttemptsFit(attempts) && k < METER_MAPS_COUNT
  {
    PollOutcome(METER_MAPS[k], attempts[k].incoming, attempts[k].stale)
  }

  /** Detection accepts an outcome that is a reading with a plausible voltage. */
  predicate Accepts(m: MeterMap, out: Result<RawReading, string>)
    requires m.voltageScaleDivisor > 0
  {
    out.Ok? && PlausibleVoltage(m, out.value)
  }

  /** The first meter, in table order from `i`, whose outcome detection accepts. */
  function Detect(attempts: seq<Attempt>, i: nat): (r: Option<(nat, RawReading)>)
    requires AttemptsFit(attempts) && i <= METER_MAPS_COUNT
    ensures r.Some? ==> i <= r.value.0 < METER_MAPS_COUNT
    decreases METER_MAPS_COUNT - i
  {
    if i == METER_MAPS_COUNT then None
    else if Accepts(METER_MAPS[i], Outcome(attempts, i)) then Some((i, Outcome(attempts, i).value))
    else Detect(attempts, i + 1)
  }

  /**
   * Detection picks a meter whose exchange gave a reading with a plausible
   * voltage, and every meter before it in the table was refused.
   */
  lemma {:induction false} DetectFindsFirst(attempts: seq<Attempt>, i: nat)
    requires AttemptsFit(attempts) && i <= METER_MAPS_COUNT
    ensures Detect(attempts, i).Some? ==>
              var (j, raw) := Detect(attempts, i).value;
              Outcome(attempts, j) == Ok(raw) && PlausibleVoltage(METER_MAPS[j], raw)
    ensures var end := if Detect(attempts, i).Some? then Detect(attempts, i).value.0 else METER_MAPS_COUNT;
            forall k :: i <= k < end ==> !Accepts(METER_MAPS[k], Outcome(attempts, k))
    decreases METER_MAPS_COUNT - i
  {
    if i < METER_MAPS_COUNT && !Accepts(METER_MAPS[i], Outcome(attempts, i)) {
      DetectFindsFirst(attempts, i + 1);
    }
  }

  /**
   * One exchange with meter `i`: the request sent, then receive, check
   * and parse over a 128-byte buffer that held `stale`.
   */
  method Poll(i: nat, incoming: seq<byte>, stale: seq<byte>) returns (request: seq<byte>, out: Result<RawReading, string>)
    requires i < METER_MAPS_COUNT && |stale| == RESPONSE_BUFFER_SIZE
    ensures request == RequestFrame(METER_MAPS[i].slaveAddr, METER_MAPS[i].functionCode,
                                     METER_MAPS[i].voltageReg, METER_MAPS[i].numRegisters)
    ensures out == PollOutcome(METER_MAPS[i], incoming, stale)
  {
    var m := METER_MAPS[i];
    var frame := BuildRequest(m.slaveAddr, m.functionCode, m.voltageReg, m.numRegisters);
    request := frame[..];
    var buffer := new byte[RESPONSE_BUFFER_SIZE];
    forall j | 0 <= j < RESPONSE_BUFFER_SIZE {
      buffer[j] := stale[j];
    }
    assert buffer[..] == stale;
    var ok, bytesRead := ReceiveResponse(incoming, buffer);
    ReceivedFrameFits(incoming);
    if !ok {
      return request, Err("No response from meter");
    }
    assert buffer[..bytesRead] == incoming[..bytesRead];
    var valid := VerifyResponse(m.slaveAddr, m.functionCode, buffer, bytesRead);
    if !valid {
      return request, Err("Invalid response");
    }
    assert buffer[2] == incoming[2];
    var parsed := ParseResponse(m, buffer[..], bytesRead);
    out := if parsed.Some? then Ok(parsed.value) else Err("Parse error");
  }

  /** The detection loop of `power_meter_auto_detect`: poll each meter in turn until one is accepted. */
  method Probe(attempts: seq<Attempt>) returns (r: Option<(nat, RawReading)>)
    requires AttemptsFit(attempts)
    ensures r == Detect(attempts, 0)
  {
    var i := 0;
    while i < METER_MAPS_COUNT
      invariant i <= METER_MAPS_COUNT
      invariant Detect(attempts, i) == Detect(attempts, 0)
    {
      var _, out := Poll(i, attempts[i].incoming, attempts[i].stale);
      if Accepts(METER_MAPS[i], out) {
        return Some((i, out.value));
      }
      i := i + 1;
    }
    return None;
  }

  class PowerMeterDriver {
    var initialized: bool
    /** Index of `current_map` in `METER_MAPS`, if any. */
    var currentMap: Option<nat>
    var lastReading: Reading
    var lastSuccessTime: nat
    var lastError: string
    var config: MeterConfig

    predicate Valid()
      reads this
    {
      (currentMap.Some? ==> currentMap.value < METER_MAPS_COUNT) && IsU32(lastSuccessTime)
    }

    /** The driver's static state before `power_meter_init`. */
    constructor ()
      ensures Valid()
      ensures !initialized && currentMap == None && lastReading == NO_READING
      ensures lastSuccessTime == 0 && lastError == "" && config == MeterConfig(false, 0, 0, 0)
    {
      initialized := false;
      currentMap := None;
      lastReading := NO_READING;
      lastSuccessTime := 0;
      lastError := "";
      config := MeterConfig(false, 0, 0, 0);
    }

    /**
     * `power_meter_update`: nothing before a successful init; otherwise one
     * exchange with the current meter, which on success becomes the
     * reading, stamped `now`, and clears the error.
     */
    method Update(incoming: seq<byte>, stale: seq<byte>, now: nat) returns (request: Option<seq<byte>>)
      requires Valid() && IsU32(now) && |stale| == RESPONSE_BUFFER_SIZE
      modifies this
      ensures Valid()
      ensures !old(initialized && currentMap.Some?) ==> request == None && unchanged(this)
      ensures old(initialized && currentMap.Some?) ==>
                var m := METER_MAPS[old(currentMap).value];
                request == Some(RequestFrame(m.slaveAddr, m.functionCode, m.voltageReg, m.numRegisters))
                && initialized == old(initialized) && currentMap == old(currentMap) && config == old(config)
                && match PollOutcome(m, incoming, stale)
                   case Ok(raw) =>
                     lastReading == Reading(raw, now, true) && lastSuccessTime == now && lastError == ""
                   case Err(msg) =>
                     lastError == msg && lastReading == old(lastReading) && lastSuccessTime == old(lastSuccessTime)
    {
      if !initialized || currentMap.None? {
        return None;
      }
      var sent, out := Poll(currentMap.value, incoming, stale);
      request := Some(sent);
      if out.Err? {
        lastError := out.error;
        return;
      }
      lastReading := Reading(out.value, now, true);
      lastSuccessTime := now;
      lastError := "";
    }

    /** The 32-bit millisecond clock's distance from the last success, with wrap-around. */
    function SinceSuccess(now: nat): nat
      reads this
    {
      Wrap32(now - lastSuccessTime)
    }

    /** `power_meter_get_reading`: the last reading, if it is valid and fresh. */
    method GetReading(now: nat) returns (r: Option<Reading>)
      ensures r.Some? <==> lastReading.valid && SinceSuccess(now) < CONNECTION_TIMEOUT_MS
      ensures r.Some? ==> r.value == lastReading
    {
      if lastReading.valid && Wrap32(now - lastSuccessTime) < CONNECTION_TIMEOUT_MS {
        return Some(lastReading);
      }
      return None;
    }

    /** `power_meter_is_connected`. */
    method IsConnected(now: nat) returns (connected: bool)
      ensures connected <==> initialized && SinceSuccess(now) < CONNECTION_TIMEOUT_MS
    {
      if !initialized {
        return false;
      }
      connected := Wrap32(now - lastSuccessTime) < CONNECTION_TIMEOUT_MS;
    }

    /** `power_meter_get_name`. */
    method GetName() returns (name: string)
      requires Valid()
      ensures currentMap.Some? ==> name == METER_MAPS[currentMap.value].name
      ensures currentMap.None? ==> name == "None"
    {
      name := if currentMap.Some? then METER_MAPS[currentMap.value].name else "None";
    }

    /** `power_meter_get_error`: the last error, or none when it is empty. */
    method GetError() returns (e: Option<string>)
      ensures e.Some? <==> lastError != ""
      ensures e.Some? ==> e.value == lastError
    {
      e := if lastError != "" then Some(lastError) else None;
    }

    /**
     * `power_meter_auto_detect`: try every meter in table order; the first
     * that answers validly with a plausible voltage is selected and its
     * reading kept (with the valid flag the parser left clear).
     */
    method AutoDetect(attempts: seq<Attempt>, now: nat) returns (found: bool)
      requires Valid() && IsU32(now) && AttemptsFit(attempts)
      modifies this
      ensures Valid()
      ensures found <==> Detect(attempts, 0).Some?
      ensures found ==> var (i, raw) := Detect(attempts, 0).value;
                        initialized && currentMap == Some(i) && lastReading == Reading(raw, 0, false)
                        && lastSuccessTime == now && config == old(config).(enabled := true, meterIndex := i as byte)
                        && lastError == old(lastError)
      ensures !found ==> !initialized && currentMap == None && lastError == "Auto-detection failed"
                         && lastReading == old(lastReading) && lastSuccessTime == old(lastSuccessTime)
                         && config == old(config)
    {
      var detected := Probe(attempts);
      if detected.None? {
        lastError := "Auto-detection failed";
        initialized := false;
        currentMap := None;
        return false;
      }
      var (i, raw) := detected.value;
      currentMap := Some(i);
      initialized := true;
      lastReading := Reading(raw, 0, false);
      lastSuccessTime := now;
      config := config.(enabled := true, meterIndex := i as byte);
      return true;
    }

    /**
     * `power_meter_init`: the given configuration, or the defaults (this
     * build stores none); a disabled meter needs nothing; a table index
     * selects that meter, 0xFF auto-detects, anything else is an error.
     */
    method Init(given: Option<MeterConfig>, attempts: seq<Attempt>, now: nat) returns (ok: bool)
      requires Valid() && IsU32(now) && AttemptsFit(attempts)
      modifies this
      ensures Valid()
      ensures var c := if given.Some? then given.value else DEFAULT_CONFIG;
              if !c.enabled then ok && config == c && initialized == old(initialized) && currentMap == old(currentMap)
              else if (c.meterIndex as nat) < METER_MAPS_COUNT then
                ok && config == c && initialized && currentMap == Some(c.meterIndex as nat)
              else if c.meterIndex == AUTO_DETECT then ok <==> Detect(attempts, 0).Some?
              else !ok && config == c && lastError == "Invalid meter index" && initialized == old(initialized)
    {
      config := if given.Some? then given.value else DEFAULT_CONFIG;
      if !config.enabled {
        return true;
      }
      if (config.meterIndex as nat) < METER_MAPS_COUNT {
        currentMap := Some(config.meterIndex as nat);
        initialized := true;
        return true;
      } else if config.meterIndex == AUTO_DETECT {
        ok := AutoDetect(attempts, now);
        return;
      }
      lastError := "Invalid meter index";
      return false;
    }
  }
}
