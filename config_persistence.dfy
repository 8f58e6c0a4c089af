/**
 * The Pico's configuration store (`config_persistence.c`): one packed
 * `persisted_config_t` record held in RAM and saved to the first page of
 * the last flash sector, guarded by a magic number, a format version and
 * a CRC-32 over every byte before the CRC field.
 *
 * The record is modelled as its 98 bytes in memory (little-endian, the
 * packed layout of `config_persistence.h`), so `memcpy`, `memcmp` and the
 * CRC act on exactly what the C code acts on. Floats stay as their 32-bit
 * patterns; the only float the store compares, the current limit, is
 * compared through the IEEE-754 order of bit patterns.
 */
module ConfigPersistence {
  import opened Wrappers
  import opened Bytes
  import ClassBCrc32
  import PicoState

  const CONFIG_MAGIC: nat := 0x4543_4D43
  const CONFIG_VERSION: nat := 1
  const FLASH_PAGE_SIZE: nat := 256

  // Byte offsets of the fields of the packed record.
  const OFF_MAGIC: nat := 0
  const OFF_VERSION: nat := 4
  /** `environmental_electrical_t`: the voltage, two bytes of padding, four floats. */
  const OFF_ENV: nat := 8
  const ENV_SIZE: nat := 20
  const OFF_VOLTAGE: nat := 8
  const OFF_MAX_CURRENT: nat := 12
  const OFF_PID_BREW: nat := 28
  const OFF_PID_STEAM: nat := 40
  const PID_SIZE: nat := 12
  const OFF_BREW_SETPOINT: nat := 52
  const OFF_STEAM_SETPOINT: nat := 54
  const OFF_STRATEGY: nat := 56
  const OFF_PRE_ENABLED: nat := 57
  const OFF_PRE_ON: nat := 58
  const OFF_PRE_PAUSE: nat := 60
  const OFF_CLEAN_COUNT: nat := 62
  const OFF_CLEAN_THRESHOLD: nat := 64
  const OFF_ECO_ENABLED: nat := 66
  const OFF_ECO_TEMP: nat := 67
  const OFF_ECO_TIMEOUT: nat := 69
  /** `power_meter_config_t`: enabled, index, address, one byte of padding, baud rate. */
  const OFF_POWER_METER: nat := 71
  const POWER_METER_SIZE: nat := 8
  const OFF_CRC: nat := 94
  const CONFIG_SIZE: nat := 98

  /** IEEE-754 single-precision bit patterns of the PID defaults 2.0, 0.1 and 1.0, and of 50.0. */
  const FLOAT_2_0: nat := 0x4000_0000
  const FLOAT_0_1: nat := 0x3DCC_CCCD
  const FLOAT_1_0: nat := 0x3F80_0000
  const FLOAT_50_0: nat := 0x4248_0000

  const DEFAULT_BREW_TEMP: nat := 930
  const DEFAULT_STEAM_TEMP: nat := 1400

  // ---------------------------------------------------------------------------
  // Fields of the record in memory
  // ---------------------------------------------------------------------------

  function U16At(r: seq<byte>, off: nat): (v: nat)
    requires off + 2 <= |r|
    ensures IsU16(v)
  {
    DecodeLE16(r[off..off + 2])
  }

  function U32At(r: seq<byte>, off: nat): (v: nat)
    requires off + 4 <= |r|
    ensures IsU32(v)
  {
    DecodeLE32(r[off..off + 4])
  }

  /** An `int16_t` field: two's complement over the stored bits. */
  function I16At(r: seq<byte>, off: nat): (v: int)
    requires off + 2 <= |r|
    ensures -0x8000 <= v < 0x8000
  {
    var u := U16At(r, off);
    if u < 0x8000 then u else u - 0x1_0000
  }

  function BoolAt(r: seq<byte>, off: nat): bool
    requires off < |r|
  {
    r[off] != 0
  }

  /** The bytes `b` copied over the record at `off`. */
  function Put(r: seq<byte>, off: nat, b: seq<byte>): (r': seq<byte>)
    requires off + |b| <= |r|
    ensures |r'| == |r| && r'[off..off + |b|] == b
    ensures forall i :: 0 <= i < |r| && !(off <= i < off + |b|) ==> r'[i] == r[i]
  {
    r[..off] + b + r[off + |b|..]
  }

  function PutU16(r: seq<byte>, off: nat, v: nat): (r': seq<byte>)
    requires off + 2 <= |r| && IsU16(v)
    ensures |r'| == |r| && U16At(r', off) == v
    ensures forall i :: 0 <= i < |r| && !(off <= i < off + 2) ==> r'[i] == r[i]
  {
    LE16RoundTrip(v);
    Put(r, off, LE16(v))
  }

  function PutI16(r: seq<byte>, off: nat, v: int): (r': seq<byte>)
    requires off + 2 <= |r| && -0x8000 <= v < 0x8000
    ensures |r'| == |r| && I16At(r', off) == v
    ensures forall i :: 0 <= i < |r| && !(off <= i < off + 2) ==> r'[i] == r[i]
  {
    PutU16(r, off, if v < 0 then v + 0x1_0000 else v)
  }

  function PutU32(r: seq<byte>, off: nat, v: nat): (r': seq<byte>)
    requires off + 4 <= |r| && IsU32(v)
    ensures |r'| == |r| && U32At(r', off) == v
    ensures forall i :: 0 <= i < |r| && !(off <= i < off + 4) ==> r'[i] == r[i]
  {
    LE32RoundTrip(v);
    Put(r, off, LE32(v))
  }

  function PutBool(r: seq<byte>, off: nat, v: bool): (r': seq<byte>)
    requires off < |r|
    ensures |r'| == |r| && BoolAt(r', off) == v
    ensures forall i :: 0 <= i < |r| && i != off ==> r'[i] == r[i]
  {
    Put(r, off, [if v then 1 else 0])
  }

  // ---------------------------------------------------------------------------
  // CRC-32
  // ---------------------------------------------------------------------------

  /** The register after `n` single-bit steps. */
  function ShiftN(c: bv32, n: nat): bv32
  {
    if n == 0 then c else ClassBCrc32.ShiftBit(ShiftN(c, n - 1))
  }

  /** One byte of `crc32_calculate`: XOR the byte into the register, then eight bit steps. */
  function ByteStep(crc: bv32, b: byte): bv32 {
    ClassBCrc32.Shift8(crc ^ b as bv32)
  }

  function CrcFrom(crc: bv32, s: seq<byte>): bv32
    decreases |s|
  {
    if s == [] then crc else ByteStep(CrcFrom(crc, s[..|s| - 1]), s[|s| - 1])
  }

  /** `crc32_calculate`: start from 0xFFFFFFFF and complement the result. */
  function Crc32(s: seq<byte>): bv32 {
    !CrcFrom(0xFFFF_FFFF, s)
  }

  /** The CRC as the `uint32_t` stored in the record. */
  function CrcValue(s: seq<byte>): (v: nat)
    ensures IsU32(v)
  {
    Crc32(s) as nat
  }

  // ---------------------------------------------------------------------------
  // The flash record
  // ---------------------------------------------------------------------------

  /**
   * `flash_read_config`'s test: the magic number, the version, and the
   * CRC-32 of the bytes before the CRC field all match.
   */
  predicate Intact(rec: seq<byte>)
    requires |rec| == CONFIG_SIZE
  {
    U32At(rec, OFF_MAGIC) == CONFIG_MAGIC && U32At(rec, OFF_VERSION) == CONFIG_VERSION
    && U32At(rec, OFF_CRC) == CrcValue(rec[..OFF_CRC])
  }

  /** The record read from the start of the flash page, when intact. */
  function ReadRecord(page: seq<byte>): (r: Option<seq<byte>>)
    requires |page| >= CONFIG_SIZE
    ensures r.Some? <==> Intact(page[..CONFIG_SIZE])
    ensures r.Some? ==> r.value == page[..CONFIG_SIZE]
  {
    var rec := page[..CONFIG_SIZE];
    if U32At(rec, OFF_MAGIC) != CONFIG_MAGIC then None
    else if U32At(rec, OFF_VERSION) != CONFIG_VERSION then None
    else if CrcValue(rec[..OFF_CRC]) != U32At(rec, OFF_CRC) then None
    else Some(rec)
  }

  /** `config_with_crc`: the record with the CRC of its first 94 bytes in the CRC field. */
  function Sealed(rec: seq<byte>): (r: seq<byte>)
    requires |rec| == CONFIG_SIZE
    ensures |r| == CONFIG_SIZE && r[..OFF_CRC] == rec[..OFF_CRC]
  {
    PutU32(rec, OFF_CRC, CrcValue(rec[..OFF_CRC]))
  }

  /** The page `flash_write_config` programs: the sealed record, then 0xFF. */
  function Page(rec: seq<byte>): (p: seq<byte>)
    requires |rec| == CONFIG_SIZE
    ensures |p| == FLASH_PAGE_SIZE
  {
    Sealed(rec) + seq(FLASH_PAGE_SIZE - CONFIG_SIZE, _ => 0xFF)
  }

  function Erased(): (p: seq<byte>)
    ensures |p| == FLASH_PAGE_SIZE
  {
    seq(FLASH_PAGE_SIZE, _ => 0xFF)
  }

  /**
   * The page after `flash_write_config`: unchanged when the erase fails,
   * erased when the erase succeeds and the programming fails, and the new
   * page otherwise.
   */
  function Written(page: seq<byte>, rec: seq<byte>, eraseOk: bool, programOk: bool): (p: seq<byte>)
    requires |rec| == CONFIG_SIZE
  {
    if !eraseOk then page else if !programOk then Erased() else Page(rec)
  }

  // ---------------------------------------------------------------------------
  // Defaults and validation
  // ---------------------------------------------------------------------------

  function Zeros(n: nat): (z: seq<byte>)
    ensures |z| == n
  {
    seq(n, _ => 0)
  }

  /** Three PID gains: `kp`, `ki`, `kd` as float bit patterns. */
  function Gains(kp: nat, ki: nat, kd: nat): (g: seq<byte>)
    requires IsU32(kp) && IsU32(ki) && IsU32(kd)
    ensures |g| == PID_SIZE
  {
    LE32(kp) + LE32(ki) + LE32(kd)
  }

  /** `set_defaults`: zeroes, then the magic, the version and the default settings; the environment stays zero. */
  function Defaults(): (r: seq<byte>)
    ensures |r| == CONFIG_SIZE
  {
    LE32(CONFIG_MAGIC) + LE32(CONFIG_VERSION) + Zeros(ENV_SIZE)
    + Gains(FLOAT_2_0, FLOAT_0_1, FLOAT_1_0) + Gains(FLOAT_2_0, FLOAT_0_1, FLOAT_1_0)
    + LE16(DEFAULT_BREW_TEMP) + LE16(DEFAULT_STEAM_TEMP) + [1, 0]
    + LE16(3000) + LE16(5000) + LE16(0) + LE16(100)
    + [1] + LE16(800) + LE16(30)
    + Zeros(POWER_METER_SIZE + 15 + 4)
  }

  /** A NaN: all exponent bits set and a nonzero fraction. */
  predicate IsNaN(bits: nat) {
    (bits / 0x80_0000) % 0x100 == 0xFF && bits % 0x80_0000 != 0
  }

  /**
   * `x <= 0.0f`: false for a NaN; otherwise true for either zero and for
   * every pattern with the sign bit set.
   */
  predicate FloatAtMostZero(bits: nat)
    requires IsU32(bits)
  {
    !IsNaN(bits) && (bits >= 0x8000_0000 || bits == 0)
  }

  /**
   * `x > limit` for a positive finite `limit`: false for a NaN; otherwise
   * positive patterns are ordered as their values are.
   */
  predicate FloatAbove(bits: nat, limit: nat)
    requires IsU32(bits)
  {
    !IsNaN(bits) && bits < 0x8000_0000 && bits > limit
  }

  /** `validate_environmental_config` as written: the current test is two negated comparisons. */
  predicate EnvValidAsWritten(rec: seq<byte>)
    requires |rec| == CONFIG_SIZE
    ensures EnvValidAsWritten(rec) <==>
      EnvValid(rec) || (100 <= U16At(rec, OFF_VOLTAGE) <= 250 && IsNaN(U32At(rec, OFF_MAX_CURRENT)))
  {
    var v := U16At(rec, OFF_VOLTAGE);
    var c := U32At(rec, OFF_MAX_CURRENT);
    !(v < 100 || v > 250) && !(FloatAtMostZero(c) || FloatAbove(c, FLOAT_50_0))
  }

  /**
   * The intended test: a voltage of 100 to 250 V and a current limit that
   * is a number greater than 0 and at most 50 A.
   */
  predicate EnvValid(rec: seq<byte>)
    requires |rec| == CONFIG_SIZE
  {
    var v := U16At(rec, OFF_VOLTAGE);
    var c := U32At(rec, OFF_MAX_CURRENT);
    100 <= v <= 250 && !IsNaN(c) && !FloatAtMostZero(c) && !FloatAbove(c, FLOAT_50_0)
  }

  /** `config_persistence_reset_to_defaults`: the defaults with the environment of `rec` kept. */
  function Reset(rec: seq<byte>): (r: seq<byte>)
    requires |rec| == CONFIG_SIZE
    ensures |r| == CONFIG_SIZE
  {
    Defaults()[..OFF_ENV] + rec[OFF_ENV..OFF_ENV + ENV_SIZE] + Defaults()[OFF_ENV + ENV_SIZE..]
  }

  // ---------------------------------------------------------------------------
  // Savers
  // ---------------------------------------------------------------------------

  /** Every saver sets the magic number and the version before writing. */
  function Stamped(rec: seq<byte>): (r: seq<byte>)
    requires |rec| == CONFIG_SIZE
    ensures |r| == CONFIG_SIZE
  {
    PutU32(PutU32(rec, OFF_MAGIC, CONFIG_MAGIC), OFF_VERSION, CONFIG_VERSION)
  }

  predicate CleaningUnchanged(rec: seq<byte>, count: nat, threshold: nat)
    requires |rec| == CONFIG_SIZE
  {
    U16At(rec, OFF_CLEAN_COUNT) == count && U16At(rec, OFF_CLEAN_THRESHOLD) == threshold
  }

  /** The record `config_persistence_save_cleaning` writes when something changed. */
  function WithCleaning(rec: seq<byte>, count: nat, threshold: nat): (r: seq<byte>)
    requires |rec| == CONFIG_SIZE && IsU16(count) && IsU16(threshold)
    ensures |r| == CONFIG_SIZE
  {
    Stamped(PutU16(PutU16(rec, OFF_CLEAN_COUNT, count), OFF_CLEAN_THRESHOLD, threshold))
  }

  /** The eco settings `config_persistence_get_eco` reads back. */
  function EcoOf(rec: seq<byte>): PicoState.EcoConfig
    requires |rec| == CONFIG_SIZE
  {
    PicoState.EcoConfig(BoolAt(rec, OFF_ECO_ENABLED), I16At(rec, OFF_ECO_TEMP), U16At(rec, OFF_ECO_TIMEOUT))
  }

  predicate EcoUnchanged(rec: seq<byte>, enabled: bool, temp: int, timeout: nat)
    requires |rec| == CONFIG_SIZE
  {
    EcoOf(rec) == PicoState.EcoConfig(enabled, temp, timeout)
  }

  function WithEco(rec: seq<byte>, enabled: bool, temp: int, timeout: nat): (r: seq<byte>)
    requires |rec| == CONFIG_SIZE && -0x8000 <= temp < 0x8000 && IsU16(timeout)
    ensures |r| == CONFIG_SIZE
  {
    Stamped(PutU16(PutI16(PutBool(rec, OFF_ECO_ENABLED, enabled), OFF_ECO_TEMP, temp), OFF_ECO_TIMEOUT, timeout))
  }

  /** The power meter settings, as the eight bytes `memcmp` compares. */
  function PowerMeterOf(rec: seq<byte>): (pm: seq<byte>)
    requires |rec| == CONFIG_SIZE
    ensures |pm| == POWER_METER_SIZE
  {
    rec[OFF_POWER_METER..OFF_POWER_METER + POWER_METER_SIZE]
  }

  function WithPowerMeter(rec: seq<byte>, pm: seq<byte>): (r: seq<byte>)
    requires |rec| == CONFIG_SIZE && |pm| == POWER_METER_SIZE
    ensures |r| == CONFIG_SIZE
  {
    Stamped(Put(rec, OFF_POWER_METER, pm))
  }

  /** What `config_persistence_save` collects from the other modules. */
  datatype Live = Live(
    env: seq<byte>, pidBrew: seq<byte>, pidSteam: seq<byte>,
    brewSetpoint: int, steamSetpoint: int, strategy: nat,
    preinfusionEnabled: bool, preinfusionOnMs: nat, preinfusionPauseMs: nat)

  predicate LiveFits(l: Live) {
    |l.env| == ENV_SIZE && |l.pidBrew| == PID_SIZE && |l.pidSteam| == PID_SIZE
    && -0x8000 <= l.brewSetpoint < 0x8000 && -0x8000 <= l.steamSetpoint < 0x8000
    && IsU8(l.strategy) && IsU16(l.preinfusionOnMs) && IsU16(l.preinfusionPauseMs)
  }

  /** The record `config_persistence_save` writes: the live settings over the stored ones, stamped. */
  function Collected(rec: seq<byte>, l: Live): (r: seq<byte>)
    requires |rec| == CONFIG_SIZE && LiveFits(l)
    ensures |r| == CONFIG_SIZE
  {
    var r := Put(rec, OFF_ENV, l.env);
    var r := Put(r, OFF_PID_BREW, l.pidBrew);
    var r := Put(r, OFF_PID_STEAM, l.pidSteam);
    var r := PutI16(r, OFF_BREW_SETPOINT, l.brewSetpoint);
    var r := PutI16(r, OFF_STEAM_SETPOINT, l.steamSetpoint);
    var r := Put(r, OFF_STRATEGY, [l.strategy as byte]);
    var r := PutBool(r, OFF_PRE_ENABLED, l.preinfusionEnabled);
    var r := PutU16(r, OFF_PRE_ON, l.preinfusionOnMs);
    var r := PutU16(r, OFF_PRE_PAUSE, l.preinfusionPauseMs);
    Stamped(r)
  }

  // ---------------------------------------------------------------------------
  // Properties
  // ---------------------------------------------------------------------------

  /** The C code's branch on the low bit is the branch-free bit step. */
  lemma ShiftBitCases(c: bv32)
    ensures c & 1 == 1 ==> ClassBCrc32.ShiftBit(c) == (c >> 1) ^ ClassBCrc32.CRC32_POLY
    ensures c & 1 != 1 ==> ClassBCrc32.ShiftBit(c) == c >> 1
  {
  }

  /** Four more bit steps are one half-byte step. */
  lemma ShiftNFour(c: bv32, n: nat)
    ensures ShiftN(c, n + 4) == ClassBCrc32.Shift4(ShiftN(c, n))
  {
    assert ShiftN(c, n + 4) == ClassBCrc32.ShiftBit(ClassBCrc32.ShiftBit(ShiftN(c, n + 2)));
    assert ShiftN(c, n + 2) == ClassBCrc32.ShiftBit(ClassBCrc32.ShiftBit(ShiftN(c, n)));
  }

  /** Eight bit steps are one byte step. */
  lemma EightBitSteps(c: bv32)
    ensures ShiftN(c, 8) == ClassBCrc32.Shift8(c)
  {
    ShiftNFour(c, 0);
    ShiftNFour(c, 4);
  }

  /** A register trace that agrees with `ByteStep` at every byte ends at the CRC register. */
  lemma {:induction false} CrcFromTrace(crc: bv32, s: seq<byte>, regs: seq<bv32>)
    requires |regs| == |s| + 1 && regs[0] == crc
    requires forall k :: 0 <= k < |s| ==> ByteStep(regs[k], s[k]) == regs[k + 1]
    ensures CrcFrom(crc, s) == regs[|s|]
    decreases |s|
  {
    if s != [] {
      CrcFromTrace(crc, s[..|s| - 1], regs[..|s|]);
    }
  }

  lemma CheckBytesA(k: nat)
    requires k < 3
    ensures ByteStep(ClassBCrc32.CHECK_REGISTERS[k], ClassBCrc32.CHECK_INPUT[k]) == ClassBCrc32.CHECK_REGISTERS[k + 1]
  {
    if k == 0 {
      assert ByteStep(0xFFFF_FFFF, 0x31) == 0x7C23_1048;
    } else if k == 1 {
      assert ByteStep(0x7C23_1048, 0x32) == 0xB0AC_BB32;
    } else {
      assert ByteStep(0xB0AC_BB32, 0x33) == 0x77B7_9C2D;
    }
  }

  lemma CheckBytesB(k: nat)
    requires 3 <= k < 6
    ensures ByteStep(ClassBCrc32.CHECK_REGISTERS[k], ClassBCrc32.CHECK_INPUT[k]) == ClassBCrc32.CHECK_REGISTERS[k + 1]
  {
    if k == 3 {
      assert ByteStep(0x77B7_9C2D, 0x34) == 0x641C_1F5C;
    } else if k == 4 {
      assert ByteStep(0x641C_1F5C, 0x35) == 0x340A_C5E3;
    } else {
      assert ByteStep(0x340A_C5E3, 0x36) == 0xF68D_2C9E;
    }
  }

  lemma CheckBytesC(k: nat)
    requires 6 <= k < 9
    ensures ByteStep(ClassBCrc32.CHECK_REGISTERS[k], ClassBCrc32.CHECK_INPUT[k]) == ClassBCrc32.CHECK_REGISTERS[k + 1]
  {
    if k == 6 {
      assert ByteStep(0xF68D_2C9E, 0x37) == 0xAFFC_9660;
    } else if k == 7 {
      assert ByteStep(0xAFFC_9660, 0x38) == 0x651F_2550;
    } else {
      assert ByteStep(0x651F_2550, 0x39) == 0x340B_C6D9;
    }
  }

  /**
   * `crc32_calculate` is the standard CRC-32: "123456789" gives the check
   * value 0xCBF43926, the value the table-driven CRC of the self-tests
   * gives too.
   */
  lemma Crc32CheckValue()
    ensures Crc32(ClassBCrc32.CHECK_INPUT) == 0xCBF4_3926
    ensures Crc32(ClassBCrc32.CHECK_INPUT) == ClassBCrc32.Crc32(ClassBCrc32.CHECK_INPUT)
  {
    forall k | 0 <= k < 9
      ensures ByteStep(ClassBCrc32.CHECK_REGISTERS[k], ClassBCrc32.CHECK_INPUT[k]) == ClassBCrc32.CHECK_REGISTERS[k + 1]
    {
      if k < 3 {
        CheckBytesA(k);
      } else if k < 6 {
        CheckBytesB(k);
      } else {
        CheckBytesC(k);
      }
    }
    CrcFromTrace(0xFFFF_FFFF, ClassBCrc32.CHECK_INPUT, ClassBCrc32.CHECK_REGISTERS);
    ClassBCrc32.Crc32CheckValue();
  }

  /**
   * Write then read: the page `flash_write_config` programs reads back as
   * the record with its CRC filled in, whenever the record carries the
   * magic number and the version; an erased page reads back as nothing.
   */
  lemma WriteReadRoundTrip(rec: seq<byte>)
    requires |rec| == CONFIG_SIZE
    requires U32At(rec, OFF_MAGIC) == CONFIG_MAGIC && U32At(rec, OFF_VERSION) == CONFIG_VERSION
    ensures ReadRecord(Page(rec)) == Some(Sealed(rec))
    ensures Sealed(rec)[..OFF_CRC] == rec[..OFF_CRC]
    ensures ReadRecord(Erased()) == None
  {
    var p := Page(rec);
    var s := Sealed(rec);
    assert p[..CONFIG_SIZE] == s;
    assert s[OFF_MAGIC..OFF_MAGIC + 4] == rec[OFF_MAGIC..OFF_MAGIC + 4];
    assert s[OFF_VERSION..OFF_VERSION + 4] == rec[OFF_VERSION..OFF_VERSION + 4];
    assert s[..OFF_CRC] == rec[..OFF_CRC];
    var e := Erased()[..CONFIG_SIZE];
    assert e[0..4] == [0xFF, 0xFF, 0xFF, 0xFF];
  }

  /** Stamping sets the magic number and the version and leaves every other byte. */
  lemma StampedFields(rec: seq<byte>)
    requires |rec| == CONFIG_SIZE
    ensures var r := Stamped(rec);
      U32At(r, OFF_MAGIC) == CONFIG_MAGIC && U32At(r, OFF_VERSION) == CONFIG_VERSION
      && r[OFF_ENV..] == rec[OFF_ENV..]
  {
    var r1 := PutU32(rec, OFF_MAGIC, CONFIG_MAGIC);
    var r := PutU32(r1, OFF_VERSION, CONFIG_VERSION);
    assert r[OFF_MAGIC..OFF_MAGIC + 4] == r1[OFF_MAGIC..OFF_MAGIC + 4];
  }

  /**
   * Every saver stamps its record, so after a successful write a restart's
   * `flash_read_config` finds that record, with its CRC filled in.
   */
  lemma SavedRecordsReadBack(rec: seq<byte>, page: seq<byte>)
    requires |rec| == CONFIG_SIZE
    ensures ReadRecord(Written(page, Stamped(rec), true, true)) == Some(Sealed(Stamped(rec)))
  {
    StampedFields(rec);
    WriteReadRoundTrip(Stamped(rec));
  }

  /** The defaults: strategy 1, pre-infusion off with 3000/5000 ms, cleaning threshold 100, eco on at 80.0 C after 30 minutes. */
  lemma DefaultSettings()
    ensures var d := Defaults();
      U32At(d, OFF_MAGIC) == CONFIG_MAGIC && U32At(d, OFF_VERSION) == CONFIG_VERSION
      && d[OFF_ENV..OFF_ENV + ENV_SIZE] == Zeros(ENV_SIZE)
      && I16At(d, OFF_BREW_SETPOINT) == DEFAULT_BREW_TEMP && I16At(d, OFF_STEAM_SETPOINT) == DEFAULT_STEAM_TEMP
      && d[OFF_STRATEGY] == 1 && !BoolAt(d, OFF_PRE_ENABLED)
      && U16At(d, OFF_PRE_ON) == 3000 && U16At(d, OFF_PRE_PAUSE) == 5000
      && U16At(d, OFF_CLEAN_COUNT) == 0 && U16At(d, OFF_CLEAN_THRESHOLD) == 100
      && EcoOf(d) == PicoState.EcoConfig(true, 800, 30)
  {
    DefaultHeader();
    DefaultBrewing();
    DefaultCleaningAndEco();
  }

  /** The defaults carry the magic, the version and a zeroed environment. */
  lemma DefaultHeader()
    ensures var d := Defaults();
      U32At(d, OFF_MAGIC) == CONFIG_MAGIC && U32At(d, OFF_VERSION) == CONFIG_VERSION
      && d[OFF_ENV..OFF_ENV + ENV_SIZE] == Zeros(ENV_SIZE)
  {
    var d := Defaults();
    LE32RoundTrip(CONFIG_MAGIC);
    LE32RoundTrip(CONFIG_VERSION);
    assert d[OFF_MAGIC..OFF_MAGIC + 4] == LE32(CONFIG_MAGIC);
    assert d[OFF_VERSION..OFF_VERSION + 4] == LE32(CONFIG_VERSION);
  }

  /** The default setpoints, strategy and pre-infusion settings. */
  lemma DefaultBrewing()
    ensures var d := Defaults();
      I16At(d, OFF_BREW_SETPOINT) == DEFAULT_BREW_TEMP && I16At(d, OFF_STEAM_SETPOINT) == DEFAULT_STEAM_TEMP
      && d[OFF_STRATEGY] == 1 && !BoolAt(d, OFF_PRE_ENABLED)
      && U16At(d, OFF_PRE_ON) == 3000 && U16At(d, OFF_PRE_PAUSE) == 5000
  {
    var d := Defaults();
    assert d[OFF_BREW_SETPOINT..OFF_BREW_SETPOINT + 2] == LE16(DEFAULT_BREW_TEMP);
    assert d[OFF_STEAM_SETPOINT..OFF_STEAM_SETPOINT + 2] == LE16(DEFAULT_STEAM_TEMP);
    assert d[OFF_PRE_ON..OFF_PRE_ON + 2] == LE16(3000);
    assert d[OFF_PRE_PAUSE..OFF_PRE_PAUSE + 2] == LE16(5000);
  }

  /** The default cleaning counter and threshold, and eco mode on at 80.0 C after 30 minutes. */
  lemma DefaultCleaningAndEco()
    ensures var d := Defaults();
      U16At(d, OFF_CLEAN_COUNT) == 0 && U16At(d, OFF_CLEAN_THRESHOLD) == 100
      && EcoOf(d) == PicoState.EcoConfig(true, 800, 30)
  {
    var d := Defaults();
    assert d[OFF_CLEAN_COUNT..OFF_CLEAN_COUNT + 2] == LE16(0);
    assert d[OFF_CLEAN_THRESHOLD..OFF_CLEAN_THRESHOLD + 2] == LE16(100);
    assert d[OFF_ECO_TEMP..OFF_ECO_TEMP + 2] == LE16(800);
    assert d[OFF_ECO_TIMEOUT..OFF_ECO_TIMEOUT + 2] == LE16(30);
  }

  /** With no valid record the defaults leave the machine disabled: their environment is zero. */
  lemma DefaultsDisableMachine()
    ensures !EnvValid(Defaults()) && !EnvValidAsWritten(Defaults())
  {
    var d := Defaults();
    assert d[OFF_VOLTAGE..OFF_VOLTAGE + 2] == [0, 0];
  }

  /**
   * The intended test accepts exactly the voltages 100 to 250 with a
   * current limit whose pattern is a positive float no larger than 50.0.
   */
  lemma EnvValidMeans(rec: seq<byte>)
    requires |rec| == CONFIG_SIZE
    ensures EnvValid(rec) <==>
      100 <= U16At(rec, OFF_VOLTAGE) <= 250 && 0 < U32At(rec, OFF_MAX_CURRENT) <= FLOAT_50_0
  {
    var c := U32At(rec, OFF_MAX_CURRENT);
    if 0 < c <= FLOAT_50_0 {
      assert (c / 0x80_0000) % 0x100 < 0xFF;
    }
  }

  /** The two tests differ only on a NaN current limit, which the test as written lets through. */
  lemma EnvTestsDiffer(rec: seq<byte>)
    requires |rec| == CONFIG_SIZE
    ensures EnvValidAsWritten(rec) <==> EnvValid(rec) || (100 <= U16At(rec, OFF_VOLTAGE) <= 250 && IsNaN(U32At(rec, OFF_MAX_CURRENT)))
  {
  }

  /** 230 V with a NaN current limit (pattern 0x7FC00000) passes the test as written and fails the intended one. */
  lemma NaNCurrentAccepted(rec: seq<byte>)
    requires |rec| == CONFIG_SIZE
    requires U16At(rec, OFF_VOLTAGE) == 230 && U32At(rec, OFF_MAX_CURRENT) == 0x7FC0_0000
    ensures EnvValidAsWritten(rec) && !EnvValid(rec)
  {
    assert IsNaN(0x7FC0_0000);
  }

  /** Resetting keeps the environment (and so its validity) and takes every other byte from the defaults. */
  lemma ResetKeepsEnvironment(rec: seq<byte>)
    requires |rec| == CONFIG_SIZE
    ensures var r := Reset(rec);
      r[OFF_ENV..OFF_ENV + ENV_SIZE] == rec[OFF_ENV..OFF_ENV + ENV_SIZE]
      && r[..OFF_ENV] == Defaults()[..OFF_ENV] && r[OFF_ENV + ENV_SIZE..] == Defaults()[OFF_ENV + ENV_SIZE..]
      && EnvValid(r) == EnvValid(rec)
      && Reset(r) == r
  {
    var r := Reset(rec);
    assert r[OFF_ENV..OFF_ENV + ENV_SIZE] == rec[OFF_ENV..OFF_ENV + ENV_SIZE];
    assert forall k :: OFF_ENV <= k < OFF_ENV + ENV_SIZE ==> r[k] == rec[k] by {
      forall k | OFF_ENV <= k < OFF_ENV + ENV_SIZE
        ensures r[k] == rec[k]
      {
        assert r[k] == r[OFF_ENV..OFF_ENV + ENV_SIZE][k - OFF_ENV];
      }
    }
    assert r[OFF_VOLTAGE..OFF_VOLTAGE + 2] == rec[OFF_VOLTAGE..OFF_VOLTAGE + 2];
    assert r[OFF_MAX_CURRENT..OFF_MAX_CURRENT + 4] == rec[OFF_MAX_CURRENT..OFF_MAX_CURRENT + 4];
  }

  /**
   * The cleaning saver's record reads back the new count and threshold and
   * keeps everything but the magic and version; when the values are
   * unchanged in a stamped record, the write it skips would have changed nothing.
   */
  lemma CleaningSaved(rec: seq<byte>, count: nat, threshold: nat)
    requires |rec| == CONFIG_SIZE && IsU16(count) && IsU16(threshold)
    ensures var r := WithCleaning(rec, count, threshold);
      CleaningUnchanged(r, count, threshold)
      && (forall i :: OFF_ENV <= i < CONFIG_SIZE && !(OFF_CLEAN_COUNT <= i < OFF_CLEAN_THRESHOLD + 2) ==> r[i] == rec[i])
    ensures CleaningUnchanged(rec, count, threshold) && Stamped(rec) == rec ==> WithCleaning(rec, count, threshold) == rec
  {
    var r1 := PutU16(rec, OFF_CLEAN_COUNT, count);
    var r2 := PutU16(r1, OFF_CLEAN_THRESHOLD, threshold);
    StampedFields(r2);
    var r := Stamped(r2);
    assert r[OFF_CLEAN_COUNT..OFF_CLEAN_COUNT + 2] == r2[OFF_CLEAN_COUNT..OFF_CLEAN_COUNT + 2] == r1[OFF_CLEAN_COUNT..OFF_CLEAN_COUNT + 2];
    assert r[OFF_CLEAN_THRESHOLD..OFF_CLEAN_THRESHOLD + 2] == r2[OFF_CLEAN_THRESHOLD..OFF_CLEAN_THRESHOLD + 2];
    if CleaningUnchanged(rec, count, threshold) && Stamped(rec) == rec {
      LE16Canonical(rec[OFF_CLEAN_COUNT..OFF_CLEAN_COUNT + 2]);
      LE16Canonical(rec[OFF_CLEAN_THRESHOLD..OFF_CLEAN_THRESHOLD + 2]);
      assert r1 == rec;
      assert r2 == rec;
    }
  }

  /**
   * The eco saver's record reads back the new settings, which are what the
   * state machine starts from, and keeps everything but the magic and version.
   */
  lemma EcoSaved(rec: seq<byte>, enabled: bool, temp: int, timeout: nat)
    requires |rec| == CONFIG_SIZE && -0x8000 <= temp < 0x8000 && IsU16(timeout)
    ensures var r := WithEco(rec, enabled, temp, timeout);
      EcoUnchanged(r, enabled, temp, timeout)
      && (forall i :: OFF_ENV <= i < CONFIG_SIZE && !(OFF_ECO_ENABLED <= i < OFF_ECO_TIMEOUT + 2) ==> r[i] == rec[i])
  {
    var r1 := PutBool(rec, OFF_ECO_ENABLED, enabled);
    var r2 := PutI16(r1, OFF_ECO_TEMP, temp);
    var r3 := PutU16(r2, OFF_ECO_TIMEOUT, timeout);
    StampedFields(r3);
    var r := Stamped(r3);
    assert r[OFF_ECO_ENABLED] == r3[OFF_ECO_ENABLED] == r1[OFF_ECO_ENABLED];
    assert r[OFF_ECO_TEMP..OFF_ECO_TEMP + 2] == r3[OFF_ECO_TEMP..OFF_ECO_TEMP + 2] == r2[OFF_ECO_TEMP..OFF_ECO_TEMP + 2];
    assert r[OFF_ECO_TIMEOUT..OFF_ECO_TIMEOUT + 2] == r3[OFF_ECO_TIMEOUT..OFF_ECO_TIMEOUT + 2];
  }

  /** The power meter saver's record reads back the new settings and keeps everything but the magic and version. */
  lemma PowerMeterSaved(rec: seq<byte>, pm: seq<byte>)
    requires |rec| == CONFIG_SIZE && |pm| == POWER_METER_SIZE
    ensures var r := WithPowerMeter(rec, pm);
      PowerMeterOf(r) == pm
      && (forall i :: OFF_ENV <= i < CONFIG_SIZE && !(OFF_POWER_METER <= i < OFF_POWER_METER + POWER_METER_SIZE) ==> r[i] == rec[i])
    ensures PowerMeterOf(rec) == pm && Stamped(rec) == rec ==> WithPowerMeter(rec, pm) == rec
  {
    var r1 := Put(rec, OFF_POWER_METER, pm);
    StampedFields(r1);
    assert PowerMeterOf(Stamped(r1)) == PowerMeterOf(r1);
    if PowerMeterOf(rec) == pm {
      assert r1 == rec;
    }
  }

  /** A full save writes the live settings and keeps the cleaning, eco and power meter settings. */
  lemma CollectedKeepsSettings(rec: seq<byte>, l: Live)
    requires |rec| == CONFIG_SIZE && LiveFits(l)
    ensures var r := Collected(rec, l);
      r[OFF_ENV..OFF_ENV + ENV_SIZE] == l.env
      && r[OFF_CLEAN_COUNT..OFF_CRC] == rec[OFF_CLEAN_COUNT..OFF_CRC]
      && r[OFF_CRC..] == rec[OFF_CRC..]
  {
    var r := Collected(rec, l);
    var e := Put(rec, OFF_ENV, l.env);
    assert r[OFF_ENV..OFF_ENV + ENV_SIZE] == e[OFF_ENV..OFF_ENV + ENV_SIZE];
  }

  // ---------------------------------------------------------------------------
  // The store
  // ---------------------------------------------------------------------------

  class Store {
    /** `g_persisted_config`, as its bytes. */
    var config: seq<byte>
    /** `g_config_loaded`. */
    var loaded: bool
    /** `g_env_valid`. */
    var envValid: bool
    /** The first page of the configuration sector. */
    var flash: seq<byte>

    ghost predicate Valid()
      reads this
    {
      |config| == CONFIG_SIZE && |flash| == FLASH_PAGE_SIZE
    }

    /** The zero-initialised globals, over whatever the flash holds. */
    constructor(page: seq<byte>)
      requires |page| == FLASH_PAGE_SIZE
      ensures Valid() && config == Zeros(CONFIG_SIZE) && flash == page && !loaded && !envValid
    {
      config := Zeros(CONFIG_SIZE);
      loaded, envValid := false, false;
      flash := page;
    }

    /** The body of `crc32_calculate`'s loop: XOR in the byte, then eight bit steps of the register. */
    static method ShiftByte(before: bv32, b: byte) returns (crc: bv32)
      ensures crc == ByteStep(before, b)
    {
      var c0 := before ^ b as bv32;
      crc := c0;
      for j := 0 to 8
        invariant crc == ShiftN(c0, j)
      {
        ShiftBitCases(crc);
        if crc & 1 == 1 {
          crc := (crc >> 1) ^ ClassBCrc32.CRC32_POLY;
        } else {
          crc := crc >> 1;
        }
      }
      EightBitSteps(c0);
    }

    /** `crc32_calculate`: one byte at a time, eight bit steps per byte. */
    static method Crc32Calculate(data: seq<byte>) returns (crc: bv32)
      ensures crc == Crc32(data)
    {
      crc := 0xFFFF_FFFF;
      for i := 0 to |data|
        invariant crc == CrcFrom(0xFFFF_FFFF, data[..i])
      {
        assert data[..i + 1][..i] == data[..i];
        crc := ShiftByte(crc, data[i]);
      }
      assert data[..|data|] == data;
      crc := !crc;
    }

    /** `flash_read_config`. */
    method FlashReadConfig() returns (r: Option<seq<byte>>)
      requires Valid()
      ensures r == ReadRecord(flash)
    {
      var rec := flash[..CONFIG_SIZE];
      if U32At(rec, OFF_MAGIC) != CONFIG_MAGIC {
        return None;
      }
      if U32At(rec, OFF_VERSION) != CONFIG_VERSION {
        return None;
      }
      var calculated := Crc32Calculate(rec[..OFF_CRC]);
      if calculated as nat != U32At(rec, OFF_CRC) {
        return None;
      }
      return Some(rec);
    }

    /** `flash_write_config`; the erase and the programming report success through `eraseOk` and `programOk`. */
    method FlashWriteConfig(rec: seq<byte>, eraseOk: bool, programOk: bool) returns (ok: bool)
      requires Valid() && |rec| == CONFIG_SIZE
      modifies this`flash
      ensures Valid() && ok == (eraseOk && programOk)
      ensures flash == Written(old(flash), rec, eraseOk, programOk)
    {
      var crc := Crc32Calculate(rec[..OFF_CRC]);
      var withCrc := PutU32(rec, OFF_CRC, crc as nat);
      assert withCrc == Sealed(rec);
      var buffer := withCrc + seq(FLASH_PAGE_SIZE - CONFIG_SIZE, _ => 0xFF);
      if !eraseOk {
        return false;
      }
      flash := Erased();
      if !programOk {
        return false;
      }
      flash := buffer;
      return true;
    }

    /** `config_persistence_load`: an intact record replaces the RAM copy. */
    method Load() returns (ok: bool)
      requires Valid()
      modifies this`config, this`loaded
      ensures Valid() && ok == ReadRecord(flash).Some?
      ensures ok ==> config == flash[..CONFIG_SIZE] && loaded
      ensures !ok ==> config == old(config) && loaded == old(loaded)
    {
      var r := FlashReadConfig();
      if r.Some? {
        config := r.value;
        loaded := true;
        return true;
      }
      return false;
    }

    /**
     * `config_persistence_init`: with an intact record the environment
     * decides whether the machine may run; without one the defaults are
     * taken and the machine stays disabled. Applying the loaded settings to
     * the control and state modules is not part of this model.
     */
    method Init() returns (canOperate: bool)
      requires Valid()
      modifies this`config, this`loaded, this`envValid
      ensures Valid() && canOperate == envValid
      ensures ReadRecord(flash).Some? ==> config == flash[..CONFIG_SIZE] && loaded && envValid == EnvValid(config)
      ensures ReadRecord(flash).None? ==> config == Defaults() && !loaded && !envValid
    {
      var ok := Load();
      if ok {
        envValid := EnvValid(config);
        return envValid;
      }
      config := Defaults();
      loaded := false;
      envValid := false;
      return false;
    }

    /** `config_persistence_save`: collect the live settings, stamp, and write. */
    method Save(l: Live, eraseOk: bool, programOk: bool) returns (ok: bool)
      requires Valid() && LiveFits(l)
      modifies this
      ensures Valid() && ok == (eraseOk && programOk)
      ensures config == Collected(old(config), l)
      ensures flash == Written(old(flash), config, eraseOk, programOk)
      ensures loaded == (old(loaded) || ok) && envValid == old(envValid)
    {
      config := Collected(config, l);
      ok := FlashWriteConfig(config, eraseOk, programOk);
      if ok {
        loaded := true;
      }
    }

    /** `config_persistence_set`: replace the RAM copy (no write) and revalidate. */
    method Set(rec: seq<byte>)
      requires Valid() && |rec| == CONFIG_SIZE
      modifies this`config, this`loaded, this`envValid
      ensures Valid() && config == rec && loaded && envValid == EnvValid(rec)
    {
      config := rec;
      loaded := true;
      envValid := EnvValid(config);
    }

    /** `config_persistence_reset_to_defaults`: defaults with the environment kept (no write). */
    method ResetToDefaults()
      requires Valid()
      modifies this`config, this`envValid
      ensures Valid() && config == Reset(old(config)) && envValid == EnvValid(config)
    {
      var savedEnv := config[OFF_ENV..OFF_ENV + ENV_SIZE];
      var d := Defaults();
      config := d[..OFF_ENV] + savedEnv + d[OFF_ENV + ENV_SIZE..];
      envValid := EnvValid(config);
    }

    /** `config_persistence_is_setup_mode`. */
    function IsSetupMode(): (r: bool)
      reads this
      ensures r <==> !envValid
    {
      !envValid
    }

    /** `config_persistence_save_cleaning`, compare-before-write. */
    method SaveCleaning(count: nat, threshold: nat, eraseOk: bool, programOk: bool) returns (ok: bool)
      requires Valid() && IsU16(count) && IsU16(threshold)
      modifies this`config, this`loaded, this`flash
      ensures Valid()
      ensures CleaningUnchanged(old(config), count, threshold) ==>
        ok && config == old(config) && flash == old(flash) && loaded == old(loaded)
      ensures !CleaningUnchanged(old(config), count, threshold) ==>
        ok == (eraseOk && programOk) && config == WithCleaning(old(config), count, threshold)
        && flash == Written(old(flash), config, eraseOk, programOk) && loaded == (old(loaded) || ok)
    {
      if U16At(config, OFF_CLEAN_COUNT) == count && U16At(config, OFF_CLEAN_THRESHOLD) == threshold {
        return true;
      }
      config := WithCleaning(config, count, threshold);
      ok := FlashWriteConfig(config, eraseOk, programOk);
      if ok {
        loaded := true;
      }
    }

    /** `config_persistence_save_eco`, compare-before-write. */
    method SaveEco(enabled: bool, temp: int, timeout: nat, eraseOk: bool, programOk: bool) returns (ok: bool)
      requires Valid() && -0x8000 <= temp < 0x8000 && IsU16(timeout)
      modifies this`config, this`loaded, this`flash
      ensures Valid()
      ensures EcoUnchanged(old(config), enabled, temp, timeout) ==>
        ok && config == old(config) && flash == old(flash) && loaded == old(loaded)
      ensures !EcoUnchanged(old(config), enabled, temp, timeout) ==>
        ok == (eraseOk && programOk) && config == WithEco(old(config), enabled, temp, timeout)
        && flash == Written(old(flash), config, eraseOk, programOk) && loaded == (old(loaded) || ok)
    {
      var same := BoolAt(config, OFF_ECO_ENABLED) == enabled && I16At(config, OFF_ECO_TEMP) == temp
        && U16At(config, OFF_ECO_TIMEOUT) == timeout;
      assert same == EcoUnchanged(config, enabled, temp, timeout);
      if same {
        return true;
      }
      config := WithEco(config, enabled, temp, timeout);
      ok := FlashWriteConfig(config, eraseOk, programOk);
      if ok {
        loaded := true;
      }
    }

    /** `config_persistence_save_power_meter`: a null configuration is refused; otherwise compare-before-write. */
    method SavePowerMeter(pm: Option<seq<byte>>, eraseOk: bool, programOk: bool) returns (ok: bool)
      requires Valid() && (pm.Some? ==> |pm.value| == POWER_METER_SIZE)
      modifies this`config, this`loaded, this`flash
      ensures Valid()
      ensures pm.None? || PowerMeterOf(old(config)) == pm.value ==>
        ok == pm.Some? && config == old(config) && flash == old(flash) && loaded == old(loaded)
      ensures pm.Some? && PowerMeterOf(old(config)) != pm.value ==>
        ok == (eraseOk && programOk) && config == WithPowerMeter(old(config), pm.value)
        && flash == Written(old(flash), config, eraseOk, programOk) && loaded == (old(loaded) || ok)
    {
      if pm.None? {
        return false;
      }
      if config[OFF_POWER_METER..OFF_POWER_METER + POWER_METER_SIZE] == pm.value {
        return true;
      }
      config := WithPowerMeter(config, pm.value);
      ok := FlashWriteConfig(config, eraseOk, programOk);
      if ok {
        loaded := true;
      }
    }

    /** `config_persistence_get_eco`. */
    function GetEco(): (e: PicoState.EcoConfig)
      requires Valid()
      reads this
      ensures IsU16(e.timeoutMinutes) && -0x8000 <= e.ecoBrewTemp < 0x8000
    {
      EcoOf(config)
    }

    /** `config_persistence_get_cleaning`. */
    function GetCleaning(): (r: (nat, nat))
      requires Valid()
      reads this
      ensures IsU16(r.0) && IsU16(r.1)
    {
      (U16At(config, OFF_CLEAN_COUNT), U16At(config, OFF_CLEAN_THRESHOLD))
    }
  }
}
