/**
 * The Pico's IEC 60730 Class B self-test monitor: the status record, the
 * individual tests, the incremental flash CRC, the GPIO shadow and the
 * startup, periodic and reset sequences.
 *
 * What the hardware would report is passed in as a `Hardware` value: the
 * stuck bits of the RAM test buffer and of the CPU test register, the GPIO
 * input levels, the PCB relay pin map, the measured system clock and the
 * current flash contents.
 */
module ClassB {
  import opened Wrappers
  import opened Bytes
  import opened ClassBTypes
  import opened ClassBCrc32
  import opened ClassBMarch

  const RAM_TEST_SIZE: nat := 64
  /** The RAM test buffer in 32-bit words. */
  const RAM_TEST_WORDS: nat := RAM_TEST_SIZE / 4
  const FLASH_SIZE: nat := 256 * 1024
  const FLASH_CRC_CHUNK_SIZE: nat := 4096
  const CLOCK_NOMINAL_HZ: nat := 125_000_000
  const CLOCK_TOLERANCE_PCT: nat := 5
  /** Test intervals in main-loop cycles (10 Hz). */
  const RAM_TEST_INTERVAL: nat := 10
  const CPU_TEST_INTERVAL: nat := 10
  const IO_TEST_INTERVAL: nat := 10
  const CLOCK_TEST_INTERVAL: nat := 100
  const STACK_CANARY: bv32 := 0xDEAD_BEEF
  const PC_MARKER_1: bv32 := 0x1234_5678
  const PC_MARKER_2: bv32 := 0x8765_4321
  const PC_MARKER_3: bv32 := 0xABCD_EF01

  // ---------------------------------------------------------------------------
  // The status record
  // ---------------------------------------------------------------------------

  /** `class_b_status_t`; the counters are `uint32_t`. */
  datatype Status = Status(
    lastResult: ClassBResult,
    ramTestCount: nat,
    flashTestCount: nat,
    cpuTestCount: nat,
    ioTestCount: nat,
    clockTestCount: nat,
    failCount: nat,
    lastTestTimeMs: nat,
    flashCrcReference: bv32,
    flashCrcCalculated: bv32,
    initialized: bool)

  /** The all-zero record (`last_result` 0 is PASS). */
  const ZERO_STATUS := Status(Pass, 0, 0, 0, 0, 0, 0, 0, 0, 0, false)

  function Inc(n: nat): nat {
    Wrap32(n + 1)
  }

  /**
   * A test that ran. The I/O test counts a pass only when it had something
   * to verify; the flash test carries the CRC of a completed pass, if any.
   */
  datatype Check =
    | RamCheck
    | CpuCheck
    | IoCheck(counted: bool)
    | ClockCheck
    | StackCheck
    | PcCheck
    | FlashCheck(done: Option<bv32>)

  /**
   * The status after check `c` returned `r`: a pass bumps that test's
   * counter (the stack and program counter tests have none); a failure
   * bumps the failure counter and becomes the last result.
   */
  function Record(s: Status, c: Check, r: ClassBResult): (t: Status)
    ensures r != Pass ==> t.lastResult == r && t.failCount == Inc(s.failCount)
    ensures r == Pass ==> t.lastResult == s.lastResult && t.failCount == s.failCount
    ensures t.flashCrcReference == s.flashCrcReference && t.initialized == s.initialized
    ensures t.lastTestTimeMs == s.lastTestTimeMs
  {
    match c
    case FlashCheck(Some(crc)) =>
      if r != Pass then s.(flashCrcCalculated := crc, failCount := Inc(s.failCount), lastResult := r)
      else s.(flashCrcCalculated := crc, flashTestCount := Inc(s.flashTestCount))
    case _ =>
      if r != Pass then s.(failCount := Inc(s.failCount), lastResult := r)
      else match c
        case RamCheck => s.(ramTestCount := Inc(s.ramTestCount))
        case CpuCheck => s.(cpuTestCount := Inc(s.cpuTestCount))
        case IoCheck(counted) => if counted then s.(ioTestCount := Inc(s.ioTestCount)) else s
        case ClockCheck => s.(clockTestCount := Inc(s.clockTestCount))
        case _ => s
  }

  datatype Run = Run(check: Check, result: ClassBResult)

  /** The result of a sequence of tests that stops at the first failure. */
  function FirstFailure(runs: seq<Run>): (r: ClassBResult)
    ensures r != Pass ==> exists i :: 0 <= i < |runs| && runs[i].result == r
    decreases |runs|
  {
    if runs == [] then Pass
    else if runs[0].result != Pass then runs[0].result
    else FirstFailure(runs[1..])
  }

  /** The status after running `runs` in order, stopping at the first failure. */
  function RunAll(s: Status, runs: seq<Run>): (t: Status)
    ensures t.flashCrcReference == s.flashCrcReference && t.initialized == s.initialized
    ensures t.lastTestTimeMs == s.lastTestTimeMs
    decreases |runs|
  {
    if runs == [] then s
    else if runs[0].result != Pass then Record(s, runs[0].check, runs[0].result)
    else RunAll(Record(s, runs[0].check, runs[0].result), runs[1..])
  }

  /** A sequence passes exactly when every test in it passes. */
  lemma {:induction false} FirstFailurePasses(runs: seq<Run>)
    ensures FirstFailure(runs) == Pass <==> forall i :: 0 <= i < |runs| ==> runs[i].result == Pass
    decreases |runs|
  {
    if runs != [] {
      FirstFailurePasses(runs[1..]);
      if runs[0].result == Pass {
        forall i | 1 <= i < |runs|
          ensures runs[i].result == runs[1..][i - 1].result
        {
        }
      }
    }
  }

  /**
   * After a sequence, the last result is its first failure and the failure
   * counter went up once; after a passing sequence both are unchanged.
   */
  lemma {:induction false} RunAllRecordsFailure(s: Status, runs: seq<Run>)
    ensures FirstFailure(runs) != Pass ==>
              RunAll(s, runs).lastResult == FirstFailure(runs) && RunAll(s, runs).failCount == Inc(s.failCount)
    ensures FirstFailure(runs) == Pass ==>
              RunAll(s, runs).lastResult == s.lastResult && RunAll(s, runs).failCount == s.failCount
    decreases |runs|
  {
    if runs != [] && runs[0].result == Pass {
      RunAllRecordsFailure(Record(s, runs[0].check, runs[0].result), runs[1..]);
    }
  }

  /** The scheduled tests of a cycle: `run` when it is due, nothing otherwise. */
  function When(due: bool, run: Run): seq<Run> {
    if due then [run] else []
  }

  lemma RunsStep(s: Status, due: bool, run: Run, rest: seq<Run>)
    ensures FirstFailure(When(due, run) + rest)
            == if !due then FirstFailure(rest) else if run.result != Pass then run.result else FirstFailure(rest)
    ensures RunAll(s, When(due, run) + rest)
            == if !due then RunAll(s, rest)
               else if run.result != Pass then Record(s, run.check, run.result)
               else RunAll(Record(s, run.check, run.result), rest)
  {
    if due {
      assert (When(due, run) + rest)[1..] == rest;
    } else {
      assert When(due, run) + rest == rest;
    }
  }

  /** Running `a` then `b` stops in `a` when `a` fails, and otherwise continues with `b`. */
  lemma {:induction false} RunAllAppend(s: Status, a: seq<Run>, b: seq<Run>)
    ensures FirstFailure(a + b) == if FirstFailure(a) != Pass then FirstFailure(a) else FirstFailure(b)
    ensures RunAll(s, a + b) == if FirstFailure(a) != Pass then RunAll(s, a) else RunAll(RunAll(s, a), b)
    decreases |a|
  {
    if a == [] {
      assert a + b == b;
    } else {
      assert (a + b)[0] == a[0];
      assert (a + b)[1..] == a[1..] + b;
      RunAllAppend(Record(s, a[0].check, a[0].result), a[1..], b);
    }
  }

  // ---------------------------------------------------------------------------
  // Clock tolerance
  // ---------------------------------------------------------------------------

  /** C `int` arithmetic on the Pico: 32-bit two's complement, wrapping. */
  function Int32(x: int): (r: int)
    ensures -0x8000_0000 <= r < 0x8000_0000
  {
    (x + 0x8000_0000) % 0x1_0000_0000 - 0x8000_0000
  }

  /** C integer division, truncating toward zero. */
  function CDiv(a: int, b: nat): int
    requires b > 0
  {
    if a >= 0 then a / b else -((-a) / b)
  }

  /** `min_freq` as written: the product is evaluated in 32-bit `int`. */
  function ClockMinAsWritten(): (r: nat)
    ensures r > ClockMax()
  {
    Wrap32(CDiv(Int32(CLOCK_NOMINAL_HZ * (100 - CLOCK_TOLERANCE_PCT)), 100))
  }

  /** `max_freq` as written. */
  function ClockMaxAsWritten(): (r: nat)
    ensures r < ClockMin()
  {
    Wrap32(CDiv(Int32(CLOCK_NOMINAL_HZ * (100 + CLOCK_TOLERANCE_PCT)), 100))
  }

  predicate ClockInRangeAsWritten(hz: nat) {
    !(hz < ClockMinAsWritten() || hz > ClockMaxAsWritten())
  }

  /**
   * 125000000 * 95 and 125000000 * 105 overflow a 32-bit `int`: the lower
   * bound comes out as 4284868278 and the upper as 2400981, so no clock
   * frequency, not even the nominal one, passes the test as written.
   */
  lemma ClockBoundsAsWritten(hz: nat)
    ensures ClockMinAsWritten() == 4_284_868_278 && ClockMaxAsWritten() == 2_400_981
    ensures !ClockInRangeAsWritten(hz)
  {
  }

  /** The bounds computed without overflow. */
  function ClockMin(): nat {
    CLOCK_NOMINAL_HZ * (100 - CLOCK_TOLERANCE_PCT) / 100
  }

  function ClockMax(): nat {
    CLOCK_NOMINAL_HZ * (100 + CLOCK_TOLERANCE_PCT) / 100
  }

  predicate ClockInRange(hz: nat) {
    ClockMin() <= hz <= ClockMax()
  }

  /** A clock passes exactly when it is within 5% of 125 MHz. */
  lemma ClockTolerance(hz: nat)
    ensures ClockInRange(hz) <==>
              100 * hz >= (100 - CLOCK_TOLERANCE_PCT) * CLOCK_NOMINAL_HZ
              && 100 * hz <= (100 + CLOCK_TOLERANCE_PCT) * CLOCK_NOMINAL_HZ
    ensures ClockInRange(CLOCK_NOMINAL_HZ)
  {
  }

  function ClockOutcome(hz: nat): ClassBResult {
    if ClockInRange(hz) then Pass else FailClock
  }

  // ---------------------------------------------------------------------------
  // GPIO shadow and the I/O test
  // ---------------------------------------------------------------------------

  /**
   * `gpio_shadow_t`. Its two 32-bit masks are modelled as the sets of pin
   * numbers whose bit is set: the outputs the firmware drove, and those it
   * drove high.
   */
  datatype GpioShadow = GpioShadow(outputMask: set<nat>, expectedHigh: set<nat>, valid: bool)

  const EMPTY_SHADOW := GpioShadow({}, {}, false)

  /**
   * `class_b_update_gpio_shadow`: output `pin` was driven to `on`. Pins
   * from 32 up are ignored.
   */
  function ShadowUpdate(sh: GpioShadow, pin: nat, on: bool): (r: GpioShadow)
    ensures pin >= 32 ==> r == sh
    ensures pin < 32 ==> r.valid && pin in r.outputMask && (pin in r.expectedHigh <==> on)
    ensures forall q :: q != pin ==> (q in r.outputMask <==> q in sh.outputMask)
    ensures forall q :: q != pin ==> (q in r.expectedHigh <==> q in sh.expectedHigh)
  {
    if pin < 32 then
      GpioShadow(sh.outputMask + {pin}, if on then sh.expectedHigh + {pin} else sh.expectedHigh - {pin}, true)
    else
      sh
  }

  /**
   * The relay outputs of the PCB pin map (`int8_t`, negative when the
   * board has none). The brew SSR is PWM-driven and is not read back.
   */
  datatype RelayPins = RelayPins(pump: int, brewSolenoid: int, waterLed: int)

  function RelayList(p: RelayPins): seq<int> {
    [p.pump, p.brewSolenoid, p.waterLed]
  }

  /**
   * A relay agrees unless it is a pin the firmware drove that reads back a
   * different level; `high` is the set of pins that read high.
   */
  predicate PinAgrees(sh: GpioShadow, high: set<nat>, pin: int) {
    !(0 <= pin < 32 && pin in sh.outputMask) || (pin in sh.expectedHigh <==> pin in high)
  }

  /** `class_b_test_io`: nothing to check without a shadow or a pin map. */
  function IoOutcome(sh: GpioShadow, high: set<nat>, pcb: Option<RelayPins>): ClassBResult {
    if !sh.valid || pcb.None? then Pass
    else if PinAgrees(sh, high, pcb.value.pump) && PinAgrees(sh, high, pcb.value.brewSolenoid)
            && PinAgrees(sh, high, pcb.value.waterLed) then Pass
    else FailIo
  }

  /** A relay driven through the shadow that reads back the other level fails the I/O test. */
  lemma IoDetectsMismatch(sh: GpioShadow, pin: nat, on: bool, high: set<nat>, pcb: Option<RelayPins>)
    requires pcb.Some? && pin < 32 && pin in RelayList(pcb.value)
    requires (pin in high) != on
    ensures IoOutcome(ShadowUpdate(sh, pin, on), high, pcb) == FailIo
  {
    assert !PinAgrees(ShadowUpdate(sh, pin, on), high, pin);
  }

  /** Outputs that all read back as driven pass the I/O test. */
  lemma IoPassesWhenOutputsMatch(sh: GpioShadow, high: set<nat>, pcb: Option<RelayPins>)
    requires forall q :: q in sh.outputMask ==> (q in high <==> q in sh.expectedHigh)
    ensures IoOutcome(sh, high, pcb) == Pass
  {
  }

  // ---------------------------------------------------------------------------
  // CPU, stack and program counter tests
  // ---------------------------------------------------------------------------

  /** The patterns written to and read back from the test register. */
  const CPU_PATTERNS: seq<bv32> := [0x0000_0000, 0xFFFF_FFFF, 0xAAAA_AAAA, 0x5555_5555, 0x1234_5678, 0x8765_4321]

  /** The CPU test fails exactly when the test register has a stuck bit. */
  function CpuOutcome(f: StuckBits): ClassBResult {
    if f.mask == 0 then Pass else FailCpu
  }

  function StackOutcome(top: bv32, bottom: bv32): ClassBResult {
    if top == STACK_CANARY && bottom == STACK_CANARY then Pass else FailStack
  }

  /**
   * `pc_test_func_1` to `_3`: the first sets marker 1; each later one
   * advances the marker only from its predecessor's marker.
   */
  function PcStep(marker: bv32, k: nat): bv32 {
    if k == 1 then PC_MARKER_1
    else if k == 2 then (if marker == PC_MARKER_1 then PC_MARKER_2 else marker)
    else if k == 3 then (if marker == PC_MARKER_2 then PC_MARKER_3 else marker)
    else marker
  }

  /** Of all orders of three calls, only 1, 2, 3 reaches the final marker. */
  lemma PcOrderDetected(a: nat, b: nat, c: nat)
    requires 1 <= a <= 3 && 1 <= b <= 3 && 1 <= c <= 3
    ensures PcStep(PcStep(PcStep(0, a), b), c) == PC_MARKER_3 <==> a == 1 && b == 2 && c == 3
  {
  }

  /** Skipping a call never reaches the final marker. */
  lemma PcSkipDetected(a: nat, b: nat)
    requires 1 <= a <= 3 && 1 <= b <= 3
    ensures PcStep(PcStep(0, a), b) != PC_MARKER_3
  {
  }

  // ---------------------------------------------------------------------------
  // Incremental flash CRC
  // ---------------------------------------------------------------------------

  /** The offset, running register and progress flag of the incremental flash CRC. */
  datatype FlashScan = FlashScan(offset: nat, running: bv32, inProgress: bool)

  const IDLE_SCAN := FlashScan(0, CRC32_INIT, false)

  predicate ScanValid(s: FlashScan) {
    s.offset <= FLASH_SIZE && (s.inProgress ==> s.offset < FLASH_SIZE)
  }

  /** The pass a call continues: the one in progress, or a fresh one from offset 0. */
  function PassStart(s: FlashScan): (r: FlashScan)
    requires ScanValid(s)
    ensures r.inProgress && r.offset < FLASH_SIZE
    ensures r.offset == if s.inProgress then s.offset else 0
  {
    if s.inProgress then s else FlashScan(0, CRC32_INIT, true)
  }

  /** The bytes one call feeds from `offset`: a full chunk, or what is left of the flash. */
  function ChunkLength(offset: nat): (n: nat)
    requires offset < FLASH_SIZE
    ensures 0 < n <= FLASH_CRC_CHUNK_SIZE && offset + n <= FLASH_SIZE
    ensures offset + n < FLASH_SIZE ==> n == FLASH_CRC_CHUNK_SIZE
  {
    var remaining := FLASH_SIZE - offset;
    if remaining < FLASH_CRC_CHUNK_SIZE then remaining else FLASH_CRC_CHUNK_SIZE
  }

  /** One call: the new scan state and, when the pass completed, its CRC. */
  datatype ScanStep = ScanStep(scan: FlashScan, done: Option<bv32>)

  /**
   * `class_b_crc32_flash_incremental`: start a new pass if none is in
   * progress, feed at most one chunk, and complete (with the final XOR)
   * once the end of flash is reached.
   */
  function NextScan(s: FlashScan, flash: seq<byte>): (r: ScanStep)
    requires ScanValid(s) && |flash| == FLASH_SIZE
    ensures ScanValid(r.scan)
    ensures var start := if s.inProgress then s.offset else 0;
            start < r.scan.offset <= start + FLASH_CRC_CHUNK_SIZE
    ensures r.done.Some? <==> r.scan.offset == FLASH_SIZE
    ensures r.done.Some? <==> !r.scan.inProgress
  {
    var start := PassStart(s);
    var chunk := ChunkLength(start.offset);
    var running := Crc32From(start.running, flash[start.offset..start.offset + chunk]);
    var offset := start.offset + chunk;
    if offset >= FLASH_SIZE then ScanStep(FlashScan(offset, running, false), Some(running ^ CRC32_INIT))
    else ScanStep(FlashScan(offset, running, true), None)
  }

  /** A pass in progress has fed exactly the flash bytes before its offset. */
  predicate Tracks(s: FlashScan, flash: seq<byte>)
    requires ScanValid(s) && |flash| == FLASH_SIZE
  {
    s.inProgress ==> s.running == Crc32From(CRC32_INIT, flash[..s.offset])
  }

  /** Feeding the next `n` flash bytes to the CRC of the first `off` gives the CRC of the first `off + n`. */
  lemma ChunkStep(flash: seq<byte>, off: nat, n: nat, running: bv32)
    requires off + n <= |flash| && running == Crc32From(CRC32_INIT, flash[..off])
    ensures Crc32From(running, flash[off..off + n]) == Crc32From(CRC32_INIT, flash[..off + n])
  {
    Crc32FromAppend(CRC32_INIT, flash[..off], flash[off..off + n]);
    assert flash[..off] + flash[off..off + n] == flash[..off + n];
  }

  /**
   * While the flash does not change, every call keeps the scan in step with
   * it, and a completed pass yields the CRC-32 of the whole flash.
   */
  lemma ScanTracksFlash(s: FlashScan, flash: seq<byte>)
    requires ScanValid(s) && |flash| == FLASH_SIZE && Tracks(s, flash)
    ensures NextScan(s, flash).scan.running == Crc32From(CRC32_INIT, flash[..NextScan(s, flash).scan.offset])
    ensures Tracks(NextScan(s, flash).scan, flash)
    ensures NextScan(s, flash).done.Some? ==> NextScan(s, flash).done.value == Crc32(flash)
  {
    ScanRunning(s, flash);
    var r := NextScan(s, flash);
    if r.done.Some? {
      NextScanParts(s, flash);
      assert flash[..FLASH_SIZE] == flash;
    }
  }

  /** After a call the running register is the CRC register of the flash bytes before the new offset. */
  lemma ScanRunning(s: FlashScan, flash: seq<byte>)
    requires ScanValid(s) && |flash| == FLASH_SIZE && Tracks(s, flash)
    ensures NextScan(s, flash).scan.running == Crc32From(CRC32_INIT, flash[..NextScan(s, flash).scan.offset])
  {
    var start := PassStart(s);
    var n := ChunkLength(start.offset);
    var r := NextScan(s, flash);
    NextScanParts(s, flash);
    StartTracks(s, flash);
    calc {
      r.scan.running;
      Crc32From(start.running, flash[start.offset..start.offset + n]);
      { ChunkStep(flash, start.offset, n, start.running); }
      Crc32From(CRC32_INIT, flash[..start.offset + n]);
    }
  }

  /** A call feeds one chunk from where its pass stands; a completed pass reports the register after the final XOR. */
  lemma NextScanParts(s: FlashScan, flash: seq<byte>)
    requires ScanValid(s) && |flash| == FLASH_SIZE
    ensures var start := PassStart(s);
            var n := ChunkLength(start.offset);
            var r := NextScan(s, flash);
            r.scan.offset == start.offset + n
            && r.scan.running == Crc32From(start.running, flash[start.offset..start.offset + n])
            && (r.done.Some? ==> r.done.value == r.scan.running ^ CRC32_INIT)
  {
  }

  /** The pass a call continues has fed exactly the flash bytes before its offset. */
  lemma StartTracks(s: FlashScan, flash: seq<byte>)
    requires ScanValid(s) && |flash| == FLASH_SIZE && Tracks(s, flash)
    ensures PassStart(s).running == Crc32From(CRC32_INIT, flash[..PassStart(s).offset])
  {
    if !s.inProgress {
      assert flash[..0] == [];
    }
  }

  /** What the flash test reports for a call. */
  function FlashOutcome(reference: bv32, done: Option<bv32>): ClassBResult {
    if done.Some? && done.value != reference then FailFlash else Pass
  }

  /** Unchanged flash never fails the flash test against the reference taken from it. */
  lemma IntactFlashPasses(s: FlashScan, flash: seq<byte>)
    requires ScanValid(s) && |flash| == FLASH_SIZE && Tracks(s, flash)
    ensures FlashOutcome(Crc32(flash), NextScan(s, flash).done) == Pass
  {
    ScanTracksFlash(s, flash);
  }

  // ---------------------------------------------------------------------------
  // Test sequences
  // ---------------------------------------------------------------------------

  /** What the hardware reports during one call. */
  datatype Hardware = Hardware(
    ramFaults: seq<seq<StuckBits>>,
    cpuFault: StuckBits,
    levels: set<nat>,
    pcb: Option<RelayPins>,
    clockHz: nat,
    flash: seq<byte>)

  predicate HardwareFits(hw: Hardware) {
    FaultsFit(hw.ramFaults, RAM_TEST_WORDS) && |hw.flash| == FLASH_SIZE
  }

  function RamOutcome(faults: seq<seq<StuckBits>>): ClassBResult
    requires |faults| == WRITE_PHASES
  {
    if MarchPasses(faults) then Pass else FailRam
  }

  /** The monitor's state apart from the RAM test buffer. */
  datatype Snap = Snap(
    status: Status,
    cycleCount: nat,
    scan: FlashScan,
    canaryTop: bv32,
    canaryBottom: bv32,
    pcMarker: bv32,
    shadow: GpioShadow)

  function FlashRun(m: Snap, hw: Hardware): Run
    requires ScanValid(m.scan) && HardwareFits(hw)
  {
    var done := NextScan(m.scan, hw.flash).done;
    Run(FlashCheck(done), FlashOutcome(m.status.flashCrcReference, done))
  }

  predicate RamDue(c: nat) { c % RAM_TEST_INTERVAL == 0 }
  predicate CpuDue(c: nat) { c % CPU_TEST_INTERVAL == 5 }
  predicate IoDue(c: nat) { c % IO_TEST_INTERVAL == 3 }
  predicate ClockDue(c: nat) { c % CLOCK_TEST_INTERVAL == 0 }
  predicate FlashDue(c: nat) { c % 10 == 0 }

  /** The first stage of cycle `c`: the RAM, CPU and I/O tests when due. */
  function FirstRuns(c: nat, m: Snap, hw: Hardware): seq<Run>
    requires HardwareFits(hw)
  {
    When(RamDue(c), Run(RamCheck, RamOutcome(hw.ramFaults)))
    + (When(CpuDue(c), Run(CpuCheck, CpuOutcome(hw.cpuFault)))
    + When(IoDue(c), Run(IoCheck(m.shadow.valid && hw.pcb.Some?), IoOutcome(m.shadow, hw.levels, hw.pcb))))
  }

  /** The second stage: the stack every cycle, then the clock when due. */
  function LaterRuns(c: nat, m: Snap, hz: nat): seq<Run> {
    When(true, Run(StackCheck, StackOutcome(m.canaryTop, m.canaryBottom)))
    + When(ClockDue(c), Run(ClockCheck, ClockOutcome(hz)))
  }

  /** The tests of cycle `c` before the flash chunk. */
  function EarlyRuns(c: nat, m: Snap, hw: Hardware): seq<Run>
    requires HardwareFits(hw)
  {
    FirstRuns(c, m, hw) + LaterRuns(c, m, hw.clockHz)
  }

  /**
   * The tests of periodic cycle `c`, in order: RAM, CPU, I/O when due, the
   * stack every cycle, then the clock and a flash chunk when due.
   */
  function PeriodicRuns(c: nat, m: Snap, hw: Hardware): seq<Run>
    requires ScanValid(m.scan) && HardwareFits(hw)
  {
    EarlyRuns(c, m, hw) + When(FlashDue(c), FlashRun(m, hw))
  }

  /**
   * One periodic cycle from state `m`: the cycle counter goes up (wrapping),
   * the time is stamped, the due tests run until the first failure, and the
   * flash scan advances when its chunk was reached.
   */
  predicate PeriodicCycle(m: Snap, hw: Hardware, nowMs: nat, m': Snap, r: ClassBResult)
    requires ScanValid(m.scan) && HardwareFits(hw)
  {
    var c := Wrap32(m.cycleCount + 1);
    var runs := PeriodicRuns(c, m, hw);
    var flashRan := FlashDue(c) && FirstFailure(EarlyRuns(c, m, hw)) == Pass;
    r == FirstFailure(runs)
    && m' == m.(status := RunAll(m.status.(lastTestTimeMs := nowMs), runs),
                cycleCount := c,
                scan := if flashRan then NextScan(m.scan, hw.flash).scan else m.scan)
  }

  /** Three stages run back to back: each later stage runs only when the earlier ones passed. */
  lemma StagesCompose(s0: Status, a: seq<Run>, b: seq<Run>, f: seq<Run>)
    ensures FirstFailure(a + b + f) == if FirstFailure(a) != Pass then FirstFailure(a)
                                       else if FirstFailure(b) != Pass then FirstFailure(b)
                                       else FirstFailure(f)
    ensures RunAll(s0, a + b + f) == if FirstFailure(a) != Pass then RunAll(s0, a)
                                     else if FirstFailure(b) != Pass then RunAll(RunAll(s0, a), b)
                                     else RunAll(RunAll(RunAll(s0, a), b), f)
  {
    RunAllAppend(s0, a, b);
    RunAllAppend(s0, a + b, f);
  }

  /** A cycle whose first stage fails stops there: the later tests and the flash chunk do not run. */
  lemma CycleStopsInFirst(m: Snap, hw: Hardware, nowMs: nat, r: ClassBResult)
    requires ScanValid(m.scan) && HardwareFits(hw)
    requires r == FirstFailure(FirstRuns(Wrap32(m.cycleCount + 1), m, hw)) && r != Pass
    ensures var c := Wrap32(m.cycleCount + 1);
            PeriodicCycle(m, hw, nowMs,
              m.(status := RunAll(m.status.(lastTestTimeMs := nowMs), FirstRuns(c, m, hw)), cycleCount := c), r)
  {
    var c := Wrap32(m.cycleCount + 1);
    var s0 := m.status.(lastTestTimeMs := nowMs);
    var first := FirstRuns(c, m, hw);
    var later := LaterRuns(c, m, hw.clockHz);
    var f := When(FlashDue(c), FlashRun(m, hw));
    var runs := PeriodicRuns(c, m, hw);
    assert runs == first + later + f;
    StagesCompose(s0, first, later, f);
    assert FirstFailure(runs) == r;
    assert FirstFailure(EarlyRuns(c, m, hw)) != Pass;
    assert RunAll(s0, runs) == RunAll(s0, first);
  }

  /** A cycle whose first stage passes and whose second fails stops after the second. */
  lemma CycleStopsInLater(m: Snap, hw: Hardware, nowMs: nat, r: ClassBResult)
    requires ScanValid(m.scan) && HardwareFits(hw)
    requires FirstFailure(FirstRuns(Wrap32(m.cycleCount + 1), m, hw)) == Pass
    requires r == FirstFailure(LaterRuns(Wrap32(m.cycleCount + 1), m, hw.clockHz)) && r != Pass
    ensures var c := Wrap32(m.cycleCount + 1);
            var s1 := RunAll(m.status.(lastTestTimeMs := nowMs), FirstRuns(c, m, hw));
            PeriodicCycle(m, hw, nowMs, m.(status := RunAll(s1, LaterRuns(c, m, hw.clockHz)), cycleCount := c), r)
  {
    var c := Wrap32(m.cycleCount + 1);
    var s0 := m.status.(lastTestTimeMs := nowMs);
    var first := FirstRuns(c, m, hw);
    var later := LaterRuns(c, m, hw.clockHz);
    var f := When(FlashDue(c), FlashRun(m, hw));
    var runs := PeriodicRuns(c, m, hw);
    assert runs == first + later + f;
    StagesCompose(s0, first, later, f);
    assert FirstFailure(runs) == r;
    assert FirstFailure(EarlyRuns(c, m, hw)) != Pass by {
      RunAllAppend(s0, first, later);
    }
    assert RunAll(s0, runs) == RunAll(RunAll(s0, first), later);
  }

  /** A cycle whose two stages pass ends with the flash chunk when it is due. */
  lemma CycleCompletes(m: Snap, hw: Hardware, nowMs: nat, s2: Status, r: ClassBResult, m': Snap)
    requires ScanValid(m.scan) && HardwareFits(hw)
    requires var c := Wrap32(m.cycleCount + 1);
             FirstFailure(FirstRuns(c, m, hw)) == Pass && FirstFailure(LaterRuns(c, m, hw.clockHz)) == Pass
             && s2 == RunAll(RunAll(m.status.(lastTestTimeMs := nowMs), FirstRuns(c, m, hw)), LaterRuns(c, m, hw.clockHz))
    requires var c := Wrap32(m.cycleCount + 1);
             var done := NextScan(m.scan, hw.flash).done;
             if FlashDue(c) then
               r == FlashOutcome(m.status.flashCrcReference, done)
               && m' == m.(status := Record(s2, FlashCheck(done), r), cycleCount := c, scan := NextScan(m.scan, hw.flash).scan)
             else r == Pass && m' == m.(status := s2, cycleCount := c)
    ensures PeriodicCycle(m, hw, nowMs, m', r)
  {
    var c := Wrap32(m.cycleCount + 1);
    var s0 := m.status.(lastTestTimeMs := nowMs);
    var first := FirstRuns(c, m, hw);
    var later := LaterRuns(c, m, hw.clockHz);
    var f := When(FlashDue(c), FlashRun(m, hw));
    var runs := PeriodicRuns(c, m, hw);
    assert runs == first + later + f;
    StagesCompose(s0, first, later, f);
    RunAllAppend(s0, first, later);
    assert FirstFailure(EarlyRuns(c, m, hw)) == Pass;
    RunsStep(s2, FlashDue(c), FlashRun(m, hw), []);
    assert f + [] == f;
    assert FirstFailure(runs) == FirstFailure(f) == r;
    assert RunAll(s0, runs) == RunAll(s2, f);
  }

  /** The value of the 32-bit cycle counter `k` cycles after `c`. */
  function CycleAfter(c: nat, k: nat): (r: nat)
    ensures IsU32(r)
  {
    Wrap32(c + k)
  }

  /** Every ten consecutive cycles, wrap-around included, run one RAM test. */
  lemma RamTestEveryTenCycles(c: nat)
    requires IsU32(c)
    ensures exists k :: 1 <= k <= 10 && RamDue(CycleAfter(c, k))
  {
    var k := 10 - c % 10;
    if c + k < U32_LIMIT {
      assert c + k == 10 * (c / 10 + 1);
      assert CycleAfter(c, k) == c + k;
      assert RamDue(CycleAfter(c, k));
    } else {
      var w := U32_LIMIT - c;
      assert 1 <= w <= 10;
      assert CycleAfter(c, w) == 0;
      assert RamDue(CycleAfter(c, w));
    }
  }

  /** Every ten consecutive cycles, wrap-around included, run one CPU test. */
  lemma CpuTestEveryTenCycles(c: nat)
    requires IsU32(c)
    ensures exists k :: 1 <= k <= 10 && CpuDue(CycleAfter(c, k))
  {
    if c == U32_LIMIT - 1 {
      assert CycleAfter(c, 6) == 5;
      assert CpuDue(CycleAfter(c, 6));
    } else {
      var k := if c % 10 < 5 then 5 - c % 10 else 15 - c % 10;
      assert c + k == 10 * (c / 10) + (if c % 10 < 5 then 5 else 15);
      assert c + k < U32_LIMIT;
      assert CycleAfter(c, k) == c + k;
      assert CpuDue(CycleAfter(c, k));
    }
  }

  /** RAM, CPU and I/O tests never share a cycle. */
  lemma TestsStaggered(c: nat)
    ensures !(RamDue(c) && CpuDue(c)) && !(RamDue(c) && IoDue(c)) && !(CpuDue(c) && IoDue(c))
  {
  }

  // ---------------------------------------------------------------------------
  // The monitor
  // ---------------------------------------------------------------------------

  class ClassBMonitor {
    var status: Status
    var cycleCount: nat
    var scan: FlashScan
    /** The dedicated March C- buffer. */
    const ramBuffer: array<bv32>
    var canaryTop: bv32
    var canaryBottom: bv32
    var pcMarker: bv32
    var shadow: GpioShadow

    predicate Valid()
      reads this
    {
      ramBuffer.Length == RAM_TEST_WORDS && ScanValid(scan) && IsU32(cycleCount)
    }

    function Snapshot(): Snap
      reads this
    {
      Snap(status, cycleCount, scan, canaryTop, canaryBottom, pcMarker, shadow)
    }

    /** The static initial state, before `class_b_init`. */
    constructor ()
      ensures Valid() && fresh(ramBuffer)
      ensures Snapshot() == Snap(ZERO_STATUS, 0, IDLE_SCAN, STACK_CANARY, STACK_CANARY, 0, EMPTY_SHADOW)
    {
      status := ZERO_STATUS;
      cycleCount := 0;
      scan := IDLE_SCAN;
      ramBuffer := new bv32[RAM_TEST_WORDS];
      canaryTop := STACK_CANARY;
      canaryBottom := STACK_CANARY;
      pcMarker := 0;
      shadow := EMPTY_SHADOW;
    }

    /** `class_b_test_ram`: March C- over the dedicated buffer. */
    method TestRam(faults: seq<seq<StuckBits>>) returns (r: ClassBResult)
      requires Valid() && FaultsFit(faults, RAM_TEST_WORDS)
      modifies this`status, ramBuffer
      ensures Valid()
      ensures r == RamOutcome(faults)
      ensures r == Pass ==> Written(ramBuffer[..], faults[Phase(3, 4)], 0x5555_5555)
      ensures Snapshot() == old(Snapshot()).(status := Record(old(status), RamCheck, r))
    {
      r := MarchC(ramBuffer, faults);
      status := Record(status, RamCheck, r);
    }

    /** `class_b_crc32_flash_incremental`. */
    method CrcFlashIncremental(flash: seq<byte>) returns (crc: bv32, complete: bool)
      requires Valid() && |flash| == FLASH_SIZE
      modifies this`scan
      ensures Valid()
      ensures complete <==> NextScan(old(scan), flash).done.Some?
      ensures complete ==> crc == NextScan(old(scan), flash).done.value
      ensures Snapshot() == old(Snapshot()).(scan := NextScan(old(scan), flash).scan)
    {
      ghost var s0 := scan;
      BeginPass();
      var start := scan.offset;
      var remaining := FLASH_SIZE - start;
      var chunk := if remaining < FLASH_CRC_CHUNK_SIZE then remaining else FLASH_CRC_CHUNK_SIZE;
      var running := Crc32Update(flash[start..start + chunk], scan.running);
      ghost var next := NextScan(s0, flash);
      assert next.scan.offset == start + chunk && next.scan.running == running;
      if start + chunk >= FLASH_SIZE {
        scan := FlashScan(start + chunk, running, false);
        crc, complete := running ^ CRC32_INIT, true;
      } else {
        scan := FlashScan(start + chunk, running, true);
        crc, complete := 0, false;
      }
      assert scan == next.scan;
      assert Snapshot() == old(Snapshot()).(scan := scan);
    }

    /** The start of `class_b_crc32_flash_incremental`: a new pass begins when none is in progress. */
    method BeginPass()
      requires Valid()
      modifies this`scan
      ensures Valid() && scan == PassStart(old(scan))
    {
      if !scan.inProgress {
        scan := FlashScan(0, CRC32_INIT, true);
      }
    }

    /** `class_b_test_flash`: one chunk; a completed pass is compared with the reference. */
    method TestFlash(flash: seq<byte>) returns (r: ClassBResult)
      requires Valid() && |flash| == FLASH_SIZE
      modifies this`status, this`scan
      ensures Valid()
      ensures r == FlashOutcome(old(status).flashCrcReference, NextScan(old(scan), flash).done)
      ensures Snapshot() == old(Snapshot()).(
                status := Record(old(status), FlashCheck(NextScan(old(scan), flash).done), r),
                scan := NextScan(old(scan), flash).scan)
    {
      var crc, complete := CrcFlashIncremental(flash);
      if complete {
        if crc != status.flashCrcReference {
          status := Record(status, FlashCheck(Some(crc)), FailFlash);
          return FailFlash;
        }
        status := Record(status, FlashCheck(Some(crc)), Pass);
      }
      return Pass;
    }

    /** `class_b_test_cpu_registers`. */
    method TestCpuRegisters(f: StuckBits) returns (r: ClassBResult)
      requires Valid()
      modifies this`status
      ensures Valid()
      ensures r == CpuOutcome(f)
      ensures Snapshot() == old(Snapshot()).(status := Record(old(status), CpuCheck, r))
    {
      var passed := true;
      var i := 0;
      while i < |CPU_PATTERNS| && passed
        invariant 0 <= i <= |CPU_PATTERNS|
        invariant passed ==> forall j :: 0 <= j < i ==> Holds(f, CPU_PATTERNS[j])
        invariant !passed ==> f.mask != 0
      {
        // The test register is written and read back through its stuck bits.
        var testVal := Stored(f, CPU_PATTERNS[i]);
        if testVal != CPU_PATTERNS[i] {
          FaultFreeHolds(f, CPU_PATTERNS[i]);
          passed := false;
          break;
        }
        i := i + 1;
      }
      if passed {
        assert Holds(f, CPU_PATTERNS[0]) && Holds(f, CPU_PATTERNS[1]);
        assert CPU_PATTERNS[1] == !CPU_PATTERNS[0];
        StuckBitShows(f, CPU_PATTERNS[0]);
      }
      // Arithmetic check: 0 + 1 + ... + 99 in uint32_t.
      var sum: nat := 0;
      var k: nat := 0;
      while k < 100 && passed
        invariant 0 <= k <= 100
        invariant passed ==> 2 * sum == k * (k - 1) && sum <= 100 * k
        invariant !passed ==> sum == 0
      {
        sum := Wrap32(sum + k);
        k := k + 1;
      }
      if sum != 4950 {
        passed := false;
      }
      var product := Wrap32(12345 * 67);
      if product != 827115 {
        passed := false;
      }
      r := if passed then Pass else FailCpu;
      status := Record(status, CpuCheck, r);
    }

    /** `class_b_update_gpio_shadow`. */
    method UpdateGpioShadow(pin: nat, on: bool)
      modifies this`shadow
      ensures Snapshot() == old(Snapshot()).(shadow := ShadowUpdate(old(shadow), pin, on))
    {
      if pin < 32 {
        shadow := shadow.(outputMask := shadow.outputMask + {pin});
        if on {
          shadow := shadow.(expectedHigh := shadow.expectedHigh + {pin});
        } else {
          shadow := shadow.(expectedHigh := shadow.expectedHigh - {pin});
        }
        shadow := shadow.(valid := true);
      }
    }

    /** `class_b_test_io`: the three relays are read back against the shadow. */
    method TestIo(high: set<nat>, pcb: Option<RelayPins>) returns (r: ClassBResult)
      requires Valid()
      modifies this`status
      ensures Valid()
      ensures r == IoOutcome(old(shadow), high, pcb)
      ensures Snapshot() == old(Snapshot()).(status := Record(old(status), IoCheck(old(shadow).valid && pcb.Some?), r))
    {
      if !shadow.valid || pcb.None? {
        return Pass;
      }
      var pins := RelayList(pcb.value);
      var passed := true;
      var i := 0;
      while i < 3
        invariant 0 <= i <= 3
        invariant passed <==> forall j :: 0 <= j < i ==> PinAgrees(shadow, high, pins[j])
      {
        var pin := pins[i];
        if 0 <= pin < 32 && pin in shadow.outputMask {
          var expected := pin in shadow.expectedHigh;
          var actual := pin in high;
          if expected != actual {
            passed := false;
          }
        }
        i := i + 1;
      }
      assert pins[0] == pcb.value.pump && pins[1] == pcb.value.brewSolenoid && pins[2] == pcb.value.waterLed;
      r := if passed then Pass else FailIo;
      status := Record(status, IoCheck(true), r);
    }

    /** `class_b_test_clock`, with the tolerance bounds computed without overflow. */
    method TestClock(hz: nat) returns (r: ClassBResult)
      requires Valid()
      modifies this`status
      ensures Valid()
      ensures r == ClockOutcome(hz)
      ensures Snapshot() == old(Snapshot()).(status := Record(old(status), ClockCheck, r))
    {
      var minFreq := CLOCK_NOMINAL_HZ * (100 - CLOCK_TOLERANCE_PCT) / 100;
      var maxFreq := CLOCK_NOMINAL_HZ * (100 + CLOCK_TOLERANCE_PCT) / 100;
      r := if hz < minFreq || hz > maxFreq then FailClock else Pass;
      status := Record(status, ClockCheck, r);
    }

    /** `class_b_test_stack`: both canaries must still hold their value. */
    method TestStack() returns (r: ClassBResult)
      requires Valid()
      modifies this`status
      ensures Valid()
      ensures r == StackOutcome(old(canaryTop), old(canaryBottom))
      ensures Snapshot() == old(Snapshot()).(status := Record(old(status), StackCheck, r))
    {
      r := if canaryTop != STACK_CANARY || canaryBottom != STACK_CANARY then FailStack else Pass;
      status := Record(status, StackCheck, r);
    }

    /** `class_b_test_program_counter`: the three marker functions in order. */
    method ProgramCounterTest() returns (r: ClassBResult)
      requires Valid()
      modifies this`status, this`pcMarker
      ensures Valid()
      ensures r == Pass
      ensures Snapshot() == old(Snapshot()).(pcMarker := PC_MARKER_3)
    {
      pcMarker := 0;
      pcMarker := PcStep(pcMarker, 1);
      pcMarker := PcStep(pcMarker, 2);
      pcMarker := PcStep(pcMarker, 3);
      // A pass leaves the status as it was: Record has no counter for it.
      r := if pcMarker != PC_MARKER_3 then FailPc else Pass;
      status := Record(status, PcCheck, r);
    }

    /**
     * `class_b_init`: zero the status and the shadow, set the canaries, take
     * the reference CRC of the whole flash and mark the monitor initialized.
     */
    method Init(flash: seq<byte>) returns (r: ClassBResult)
      requires Valid() && |flash| == FLASH_SIZE
      modifies this
      ensures Valid() && r == Pass
      ensures Snapshot() == old(Snapshot()).(
                status := ZERO_STATUS.(flashCrcReference := Crc32(flash), initialized := true),
                canaryTop := STACK_CANARY, canaryBottom := STACK_CANARY, shadow := EMPTY_SHADOW)
    {
      status := ZERO_STATUS;
      canaryTop := STACK_CANARY;
      canaryBottom := STACK_CANARY;
      shadow := EMPTY_SHADOW;
      var crc := Crc32Update(flash, CRC32_INIT);
      status := status.(flashCrcReference := crc ^ CRC32_INIT);
      status := status.(initialized := true, lastResult := Pass);
      return Pass;
    }

    /** `class_b_startup_test`: CPU, RAM, clock, stack, program counter. */
    method StartupTest(hw: Hardware) returns (r: ClassBResult)
      requires Valid() && HardwareFits(hw)
      modifies this`status, this`pcMarker, ramBuffer
      ensures Valid()
      ensures r == FirstFailure(StartupRuns(old(Snapshot()), hw))
      ensures Snapshot() == old(Snapshot()).(
                status := RunAll(old(status), StartupRuns(old(Snapshot()), hw)),
                pcMarker := if r == Pass then PC_MARKER_3 else old(pcMarker))
    {
      ghost var m := Snapshot();
      ghost var t4 := When(true, Run(PcCheck, Pass)) + [];
      ghost var t3 := When(true, Run(StackCheck, StackOutcome(m.canaryTop, m.canaryBottom))) + t4;
      ghost var t2 := When(true, Run(ClockCheck, ClockOutcome(hw.clockHz))) + t3;
      ghost var t1 := When(true, Run(RamCheck, RamOutcome(hw.ramFaults))) + t2;
      ghost var all := When(true, Run(CpuCheck, CpuOutcome(hw.cpuFault))) + t1;
      assert all == StartupRuns(m, hw);
      ghost var s0 := status;
      r := TestCpuRegisters(hw.cpuFault);
      RunsStep(s0, true, Run(CpuCheck, CpuOutcome(hw.cpuFault)), t1);
      if r != Pass {
        return;
      }
      ghost var s1 := status;
      r := TestRam(hw.ramFaults);
      RunsStep(s1, true, Run(RamCheck, RamOutcome(hw.ramFaults)), t2);
      if r != Pass {
        return;
      }
      ghost var s2 := status;
      r := TestClock(hw.clockHz);
      RunsStep(s2, true, Run(ClockCheck, ClockOutcome(hw.clockHz)), t3);
      if r != Pass {
        return;
      }
      ghost var s3 := status;
      r := TestStack();
      RunsStep(s3, true, Run(StackCheck, StackOutcome(m.canaryTop, m.canaryBottom)), t4);
      if r != Pass {
        return;
      }
      ghost var s4 := status;
      r := ProgramCounterTest();
      RunsStep(s4, true, Run(PcCheck, Pass), []);
    }

    /** The first stage of a periodic cycle: RAM, CPU and I/O tests when due. */
    method PeriodicFirst(hw: Hardware) returns (r: ClassBResult)
      requires Valid() && HardwareFits(hw)
      modifies this`status, ramBuffer
      ensures Valid()
      ensures r == FirstFailure(FirstRuns(old(cycleCount), old(Snapshot()), hw))
      ensures Snapshot() == old(Snapshot()).(status := RunAll(old(status), FirstRuns(old(cycleCount), old(Snapshot()), hw)))
    {
      ghost var m := Snapshot();
      ghost var c := cycleCount;
      ghost var ramRun := Run(RamCheck, RamOutcome(hw.ramFaults));
      ghost var cpuRun := Run(CpuCheck, CpuOutcome(hw.cpuFault));
      ghost var ioRun := Run(IoCheck(m.shadow.valid && hw.pcb.Some?), IoOutcome(m.shadow, hw.levels, hw.pcb));
      ghost var t2 := When(IoDue(c), ioRun);
      ghost var t1 := When(CpuDue(c), cpuRun) + t2;
      RunsStep(status, RamDue(c), ramRun, t1);
      r := Pass;
      if cycleCount % RAM_TEST_INTERVAL == 0 {
        r := TestRam(hw.ramFaults);
        if r != Pass {
          return;
        }
      }
      RunsStep(status, CpuDue(c), cpuRun, t2);
      if cycleCount % CPU_TEST_INTERVAL == 5 {
        r := TestCpuRegisters(hw.cpuFault);
        if r != Pass {
          return;
        }
      }
      RunsStep(status, IoDue(c), ioRun, []);
      assert t2 + [] == t2;
      if cycleCount % IO_TEST_INTERVAL == 3 {
        r := TestIo(hw.levels, hw.pcb);
      }
    }

    /** The second stage: the stack test, then the clock test when due. */
    method PeriodicLater(hz: nat) returns (r: ClassBResult)
      requires Valid()
      modifies this`status
      ensures Valid()
      ensures r == FirstFailure(LaterRuns(old(cycleCount), old(Snapshot()), hz))
      ensures Snapshot() == old(Snapshot()).(status := RunAll(old(status), LaterRuns(old(cycleCount), old(Snapshot()), hz)))
    {
      ghost var m := Snapshot();
      ghost var c := cycleCount;
      ghost var stackRun := Run(StackCheck, StackOutcome(m.canaryTop, m.canaryBottom));
      ghost var clockRun := Run(ClockCheck, ClockOutcome(hz));
      RunsStep(status, true, stackRun, When(ClockDue(c), clockRun));
      RunsStep(RunAll(status, [stackRun]), ClockDue(c), clockRun, []);
      assert When(ClockDue(c), clockRun) + [] == When(ClockDue(c), clockRun);
      r := TestStack();
      if r != Pass {
        return;
      }
      if cycleCount % CLOCK_TEST_INTERVAL == 0 {
        r := TestClock(hz);
      }
    }

    /**
     * `class_b_periodic_test`: refused before `class_b_init`; otherwise one
     * cycle of the staggered schedule.
     */
    method PeriodicTest(hw: Hardware, nowMs: nat) returns (r: ClassBResult)
      requires Valid() && HardwareFits(hw)
      modifies this`status, this`cycleCount, this`scan, ramBuffer
      ensures Valid()
      ensures !old(status.initialized) ==> r == NotInitialized && Snapshot() == old(Snapshot())
      ensures old(status.initialized) ==> PeriodicCycle(old(Snapshot()), hw, nowMs, Snapshot(), r)
    {
      if !status.initialized {
        return NotInitialized;
      }
      ghost var m := Snapshot();
      cycleCount := Wrap32(cycleCount + 1);
      status := status.(lastTestTimeMs := nowMs);
      r := Stages(hw, nowMs, m);
    }

    /** The three stages of one cycle, once the counter and the time stamp are updated. */
    method Stages(hw: Hardware, nowMs: nat, ghost m: Snap) returns (r: ClassBResult)
      requires Valid() && HardwareFits(hw) && ScanValid(m.scan)
      requires Snapshot() == m.(status := m.status.(lastTestTimeMs := nowMs), cycleCount := Wrap32(m.cycleCount + 1))
      modifies this`status, this`scan, ramBuffer
      ensures Valid()
      ensures PeriodicCycle(m, hw, nowMs, Snapshot(), r)
    {
      ghost var c := cycleCount;
      ghost var s0 := status;
      assert FirstRuns(c, Snapshot(), hw) == FirstRuns(c, m, hw);
      r := PeriodicFirst(hw);
      assert status == RunAll(s0, FirstRuns(c, m, hw));
      assert Snapshot() == m.(status := status, cycleCount := c);
      if r != Pass {
        CycleStopsInFirst(m, hw, nowMs, r);
        return;
      }
      ghost var s1 := status;
      assert LaterRuns(c, Snapshot(), hw.clockHz) == LaterRuns(c, m, hw.clockHz);
      r := PeriodicLater(hw.clockHz);
      assert status == RunAll(s1, LaterRuns(c, m, hw.clockHz));
      assert Snapshot() == m.(status := status, cycleCount := c);
      if r != Pass {
        CycleStopsInLater(m, hw, nowMs, r);
        return;
      }
      r := FlashStage(hw, nowMs, m, status);
    }

    /** The last stage of a cycle whose earlier stages passed: the flash chunk, on every tenth cycle. */
    method FlashStage(hw: Hardware, nowMs: nat, ghost m: Snap, ghost s2: Status) returns (r: ClassBResult)
      requires Valid() && HardwareFits(hw) && ScanValid(m.scan)
      requires var c := Wrap32(m.cycleCount + 1);
               FirstFailure(FirstRuns(c, m, hw)) == Pass && FirstFailure(LaterRuns(c, m, hw.clockHz)) == Pass
               && s2 == RunAll(RunAll(m.status.(lastTestTimeMs := nowMs), FirstRuns(c, m, hw)), LaterRuns(c, m, hw.clockHz))
      requires Snapshot() == m.(status := s2, cycleCount := Wrap32(m.cycleCount + 1))
      modifies this`status, this`scan
      ensures Valid()
      ensures PeriodicCycle(m, hw, nowMs, Snapshot(), r)
    {
      ghost var c := cycleCount;
      if cycleCount % 10 == 0 {
        r := TestFlash(hw.flash);
        ghost var next := NextScan(m.scan, hw.flash);
        assert FlashDue(c) && r == FlashOutcome(m.status.flashCrcReference, next.done);
        assert Snapshot() == m.(status := Record(s2, FlashCheck(next.done), r), cycleCount := c, scan := next.scan);
      } else {
        r := Pass;
        assert !FlashDue(c);
      }
      CycleCompletes(m, hw, nowMs, s2, r, Snapshot());
    }

    /** `class_b_get_status`: a copy of the status record. */
    method GetStatus() returns (s: Status)
      ensures s == status
    {
      s := status;
    }

    /** `class_b_is_failed`: the last recorded result was a failure. */
    method IsFailed() returns (failed: bool)
      ensures failed <==> status.lastResult != Pass
    {
      failed := status.lastResult != Pass;
    }

    /**
     * `class_b_reset`: the CPU, RAM and stack tests must pass again before
     * the failure state is cleared.
     */
    method Reset(hw: Hardware) returns (ok: bool)
      requires Valid() && HardwareFits(hw)
      modifies this`status, ramBuffer
      ensures Valid()
      ensures ok <==> FirstFailure(ResetRuns(old(Snapshot()), hw)) == Pass
      ensures Snapshot() == old(Snapshot()).(
                status := if ok then RunAll(old(status), ResetRuns(old(Snapshot()), hw)).(lastResult := Pass)
                          else RunAll(old(status), ResetRuns(old(Snapshot()), hw)))
    {
      ghost var m := Snapshot();
      ghost var t2 := When(true, Run(StackCheck, StackOutcome(m.canaryTop, m.canaryBottom))) + [];
      ghost var t1 := When(true, Run(RamCheck, RamOutcome(hw.ramFaults))) + t2;
      ghost var all := When(true, Run(CpuCheck, CpuOutcome(hw.cpuFault))) + t1;
      assert all == ResetRuns(m, hw);
      ghost var s := status;
      var r := TestCpuRegisters(hw.cpuFault);
      RunsStep(s, true, Run(CpuCheck, CpuOutcome(hw.cpuFault)), t1);
      if r != Pass {
        return false;
      }
      s := status;
      r := TestRam(hw.ramFaults);
      RunsStep(s, true, Run(RamCheck, RamOutcome(hw.ramFaults)), t2);
      if r != Pass {
        return false;
      }
      s := status;
      r := TestStack();
      RunsStep(s, true, Run(StackCheck, StackOutcome(m.canaryTop, m.canaryBottom)), []);
      if r != Pass {
        return false;
      }
      status := status.(lastResult := Pass);
      return true;
    }
  }

  /** The startup tests in order. */
  function StartupRuns(m: Snap, hw: Hardware): seq<Run>
    requires HardwareFits(hw)
  {
    [Run(CpuCheck, CpuOutcome(hw.cpuFault)),
     Run(RamCheck, RamOutcome(hw.ramFaults)),
     Run(ClockCheck, ClockOutcome(hw.clockHz)),
     Run(StackCheck, StackOutcome(m.canaryTop, m.canaryBottom)),
     Run(PcCheck, Pass)]
  }

  /** The tests `class_b_reset` requires, in order. */
  function ResetRuns(m: Snap, hw: Hardware): seq<Run>
    requires HardwareFits(hw)
  {
    [Run(CpuCheck, CpuOutcome(hw.cpuFault)),
     Run(RamCheck, RamOutcome(hw.ramFaults)),
     Run(StackCheck, StackOutcome(m.canaryTop, m.canaryBottom))]
  }
}
