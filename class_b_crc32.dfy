/**
 * The CRC-32 of the Pico's Class B self-tests: the reflected Ethernet
 * polynomial 0xEDB88320, driven one byte at a time through a 256-entry
 * table. Callers start from 0xFFFFFFFF and XOR the result with
 * 0xFFFFFFFF, which makes it the standard CRC-32.
 */
module ClassBCrc32 {
  import opened Bytes

  const CRC32_POLY: bv32 := 0xEDB88320
  /** The initial register and the final XOR of the callers. */
  const CRC32_INIT: bv32 := 0xFFFF_FFFF

  // ---------------------------------------------------------------------------
  // The bitwise definition and the table generated from it
  // ---------------------------------------------------------------------------

  /**
   * One step of the reflected shift register: shift right, and XOR in the
   * polynomial when the bit shifted out was set (`0 - 1` is all ones).
   */
  function ShiftBit(c: bv32): bv32 {
    (c >> 1) ^ (CRC32_POLY & (0 - (c & 1)))
  }

  /** Two steps of the register. */
  function Shift2(c: bv32): bv32 {
    ShiftBit(ShiftBit(c))
  }

  /** Four steps: half a byte through the register. */
  function Shift4(c: bv32): bv32 {
    Shift2(Shift2(c))
  }

  /** Eight steps: one byte through the register. */
  function Shift8(c: bv32): bv32 {
    Shift4(Shift4(c))
  }

  /** Entry `i` of the table generated for the polynomial. */
  function Table(i: bv8): bv32 {
    Shift8(i as bv32)
  }

  /** `crc32_table[(crc ^ byte) & 0xFF] ^ (crc >> 8)`. */
  function Step(crc: bv32, b: byte): bv32 {
    Table(((crc ^ b as bv32) & 0xFF) as bv8) ^ (crc >> 8)
  }

  /** The register after feeding `s`, starting from `crc`. */
  function Crc32From(crc: bv32, s: seq<byte>): bv32
    decreases |s|
  {
    if s == [] then crc else Step(Crc32From(crc, s[..|s| - 1]), s[|s| - 1])
  }

  /** The standard CRC-32: start from 0xFFFFFFFF, XOR the result with 0xFFFFFFFF. */
  function Crc32(s: seq<byte>): bv32 {
    Crc32From(CRC32_INIT, s) ^ CRC32_INIT
  }

  // ---------------------------------------------------------------------------
  // Properties of the CRC
  // ---------------------------------------------------------------------------

  /** Feeding `a` then `b` is feeding `a + b`: the incremental CRC is the whole CRC. */
  lemma {:induction false} Crc32FromAppend(crc: bv32, a: seq<byte>, b: seq<byte>)
    ensures Crc32From(crc, a + b) == Crc32From(Crc32From(crc, a), b)
    decreases |b|
  {
    if b == [] {
      assert a + b == a;
    } else {
      var b' := b[..|b| - 1];
      assert (a + b)[..|a + b| - 1] == a + b';
      Crc32FromAppend(crc, a, b');
    }
  }

  /** The standard check input "123456789" and the register after each of its bytes. */
  const CHECK_INPUT: seq<byte> := [0x31, 0x32, 0x33, 0x34, 0x35, 0x36, 0x37, 0x38, 0x39]
  const CHECK_REGISTERS: seq<bv32> := [
    0xFFFF_FFFF, 0x7C23_1048, 0xB0AC_BB32, 0x77B7_9C2D, 0x641C_1F5C,
    0x340A_C5E3, 0xF68D_2C9E, 0xAFFC_9660, 0x651F_2550, 0x340B_C6D9]

  /** Bytes 1 to 3 of the check input, each through one table step. */
  lemma CheckStepsA(k: nat)
    requires k < 3
    ensures Step(CHECK_REGISTERS[k], CHECK_INPUT[k]) == CHECK_REGISTERS[k + 1]
  {
    if k == 0 {
      assert Step(0xFFFF_FFFF, 0x31) == 0x7C23_1048;
    } else if k == 1 {
      assert Step(0x7C23_1048, 0x32) == 0xB0AC_BB32;
    } else {
      assert Step(0xB0AC_BB32, 0x33) == 0x77B7_9C2D;
    }
  }

  /** Bytes 4 to 6 of the check input. */
  lemma CheckStepsB(k: nat)
    requires 3 <= k < 6
    ensures Step(CHECK_REGISTERS[k], CHECK_INPUT[k]) == CHECK_REGISTERS[k + 1]
  {
    if k == 3 {
      assert Step(0x77B7_9C2D, 0x34) == 0x641C_1F5C;
    } else if k == 4 {
      assert Step(0x641C_1F5C, 0x35) == 0x340A_C5E3;
    } else {
      assert Step(0x340A_C5E3, 0x36) == 0xF68D_2C9E;
    }
  }

  /** Bytes 7 to 9 of the check input. */
  lemma CheckStepsC(k: nat)
    requires 6 <= k < 9
    ensures Step(CHECK_REGISTERS[k], CHECK_INPUT[k]) == CHECK_REGISTERS[k + 1]
  {
    if k == 6 {
      assert Step(0xF68D_2C9E, 0x37) == 0xAFFC_9660;
    } else if k == 7 {
      assert Step(0xAFFC_9660, 0x38) == 0x651F_2550;
    } else {
      assert Step(0x651F_2550, 0x39) == 0x340B_C6D9;
    }
  }

  /** A register trace that agrees with `Step` at every byte ends at the CRC register. */
  lemma {:induction false} Crc32FromTrace(crc: bv32, s: seq<byte>, regs: seq<bv32>)
    requires |regs| == |s| + 1 && regs[0] == crc
    requires forall k :: 0 <= k < |s| ==> Step(regs[k], s[k]) == regs[k + 1]
    ensures Crc32From(crc, s) == regs[|s|]
    decreases |s|
  {
    if s != [] {
      Crc32FromTrace(crc, s[..|s| - 1], regs[..|s|]);
    }
  }

  /**
   * The empty input leaves the register untouched, and "123456789" gives
   * the standard CRC-32 check value 0xCBF43926.
   */
  lemma Crc32CheckValue()
    ensures Crc32From(CRC32_INIT, []) == CRC32_INIT
    ensures Crc32(CHECK_INPUT) == 0xCBF4_3926
  {
    forall k | 0 <= k < 9
      ensures Step(CHECK_REGISTERS[k], CHECK_INPUT[k]) == CHECK_REGISTERS[k + 1]
    {
      if k < 3 {
        CheckStepsA(k);
      } else if k < 6 {
        CheckStepsB(k);
      } else {
        CheckStepsC(k);
      }
    }
    Crc32FromTrace(CRC32_INIT, CHECK_INPUT, CHECK_REGISTERS);
  }

  // ---------------------------------------------------------------------------
  // The firmware routine
  // ---------------------------------------------------------------------------

  /**
   * `class_b_crc32`: feeds `data` through the register one byte at a time,
   * starting from `initial`, with no final XOR. Called on consecutive
   * chunks, it yields the CRC of their concatenation (Crc32FromAppend).
   */
  method Crc32Update(data: seq<byte>, initial: bv32) returns (crc: bv32)
    ensures crc == Crc32From(initial, data)
  {
    crc := initial;
    var i := 0;
    while i < |data|
      invariant 0 <= i <= |data|
      invariant crc == Crc32From(initial, data[..i])
    {
      assert data[..i + 1][..i] == data[..i];
      crc := Step(crc, data[i]);
      i := i + 1;
    }
    assert data[..|data|] == data;
  }

  // ---------------------------------------------------------------------------
  // The table as written
  // ---------------------------------------------------------------------------

  /** `crc32_table`, eight entries per row. */
  const CRC32_TABLE_AS_WRITTEN: seq<seq<bv32>> := [
    [0x00000000, 0x77073096, 0xEE0E612C, 0x990951BA, 0x076DC419, 0x706AF48F, 0xE963A535, 0x9E6495A3],
    [0x0EDB8832, 0x79DCB8A4, 0xE0D5E91E, 0x97D2D988, 0x09B64C2B, 0x7EB17CBD, 0xE7B82D07, 0x90BF1D91],
    [0x1DB71064, 0x6AB020F2, 0xF3B97148, 0x84BE41DE, 0x1ADAD47D, 0x6DDDE4EB, 0xF4D4B551, 0x83D385C7],
    [0x136C9856, 0x646BA8C0, 0xFD62F97A, 0x8A65C9EC, 0x14015C4F, 0x63066CD9, 0xFA0F3D63, 0x8D080DF5],
    [0x3B6E20C8, 0x4C69105E, 0xD56041E4, 0xA2677172, 0x3C03E4D1, 0x4B04D447, 0xD20D85FD, 0xA50AB56B],
    [0x35B5A8FA, 0x42B2986C, 0xDBBBC9D6, 0xACBCF940, 0x32D86CE3, 0x45DF5C75, 0xDCD60DCF, 0xABD13D59],
    [0x26D930AC, 0x51DE003A, 0xC8D75180, 0xBFD06116, 0x21B4F4B5, 0x56B3C423, 0xCFBA9599, 0xB8BDA50F],
    [0x2802B89E, 0x5F058808, 0xC60CD9B2, 0xB10BE924, 0x2F6F7C87, 0x58684C11, 0xC1611DAB, 0xB6662D3D],
    [0x76DC4190, 0x01DB7106, 0x98D220BC, 0xEFD5102A, 0x71B18589, 0x06B6B51F, 0x9FBFE4A5, 0xE8B8D433],
    [0x7807C9A2, 0x0F00F934, 0x9609A88E, 0xE10E9818, 0x7F6A0DBB, 0x086D3D2D, 0x91646C97, 0xE6635C01],
    [0x6B6B51F4, 0x1C6C6162, 0x856530D8, 0xF262004E, 0x6C0695ED, 0x1B01A57B, 0x8208F4C1, 0xF50FC457],
    [0x65B0D9C6, 0x12B7E950, 0x8BBEB8EA, 0xFCB9887C, 0x62DD1DDF, 0x15DA2D49, 0x8CD37CF3, 0xFBD44C65],
    [0x4DB26158, 0x3AB551CE, 0xA3BC0074, 0xD4BB30E2, 0x4ADFA541, 0x3DD895D7, 0xA4D1C46D, 0xD3D6F4FB],
    [0x4369E96A, 0x346ED9FC, 0xAD678846, 0xDA60B8D0, 0x44042D73, 0x33031DE5, 0xAA0A4C5F, 0xDD0D7CC9],
    [0x5005713C, 0x270241AA, 0xBE0B1010, 0xC90C2086, 0x5768B525, 0x206F85B3, 0xB966D409, 0xCE61E49F],
    [0x5EDEF90E, 0x29D9C998, 0xB0D09822, 0xC7D7A8B4, 0x59B33D17, 0x2EB40D81, 0xB7BD5C3B, 0xC0BA6CAD],
    [0xEDB88320, 0x9ABFB3B6, 0x03B6E20C, 0x74B1D29A, 0xEAD54739, 0x9DD277AF, 0x04DB2615, 0x73DC1683],
    [0xE3630B12, 0x94643B84, 0x0D6D6A3E, 0x7A6A5AA8, 0xE40ECF0B, 0x9309FF9D, 0x0A00AE27, 0x7D079EB1],
    [0xF00F9344, 0x8708A3D2, 0x1E01F268, 0x6906C2FE, 0xF762575D, 0x806567CB, 0x196C3671, 0x6E6B06E7],
    [0xFED41B76, 0x89D32BE0, 0x10DA7A5A, 0x67DD4ACC, 0xF9B9DF6F, 0x8EBEEFF9, 0x17B7BE43, 0x60B08ED5],
    [0xD6D6A3E8, 0xA1D1937E, 0x38D8C2C4, 0x4FDFF252, 0xD1BB67F1, 0xA6BC5767, 0x3FB506DD, 0x48B2364B],
    [0xD80D2BDA, 0xAF0A1B4C, 0x36034AF6, 0x41047A60, 0xDF60EFC3, 0xA867DF55, 0x316E8EEF, 0x4669BE79],
    [0xCB61B38C, 0xBC66831A, 0x256FD2A0, 0x5268E236, 0xCC0C7795, 0xBB0B4703, 0x220216B9, 0x5505262F],
    [0xC5BA3BBE, 0xB2BD0B28, 0x2BB45A92, 0x5CB36A04, 0xC2D7FFA7, 0xB5D0CF31, 0x2CD99E8B, 0x5BDEAE1D],
    [0x9B64C2B0, 0xEC63F226, 0x756AA39C, 0x026D930A, 0x9C0906A9, 0xEB0E363F, 0x72076785, 0x05005713],
    [0x95BF4A82, 0xE2B87A14, 0x7BB12BAE, 0x0CB61B38, 0x92D28E9B, 0xE5D5BE0D, 0x7CDCEFB7, 0x0BDBDF21],
    [0x86D3D2D4, 0xF1D4E242, 0x68DDB3F8, 0x1FDA836E, 0x81BE16CD, 0xF6B9265B, 0x6FB077E1, 0x18B74777],
    [0x88085AE6, 0xFF0F6A70, 0x66063BCA, 0x11010B5C, 0x8F659EFF, 0xF862AE69, 0x616BFFD3, 0x166CCF45],
    [0xA00AE278, 0xD70DD2EE, 0x4E048354, 0x3903B3C2, 0xA7672661, 0xD06016F7, 0x4969474D, 0x3E6E77DB],
    [0xAED16A4A, 0xD9D65ADC, 0x40DF0B66, 0x37D83BF0, 0xA9BCAE53, 0xDEBB9EC5, 0x47B2CF7F, 0x30B5FFE9],
    [0xBDBDF21C, 0xCABAC28A, 0x53B39330, 0x24B4A3A6, 0xBAD03605, 0xCDD706B3, 0x54DE5729, 0x23D967BF],
    [0xB3667A2E, 0xC4614AB8, 0x5D681B02, 0x2A6F2B94, 0xB40BBE37, 0xC30C8EA1, 0x5A05DF1B, 0x2D02EF8D]
  ]

  function TableAsWritten(i: bv8): bv32 {
    var row := CRC32_TABLE_AS_WRITTEN[(i / 8) as int];
    if |row| == 8 then row[(i % 8) as int] else 0
  }

  function StepAsWritten(crc: bv32, b: byte): bv32 {
    TableAsWritten(((crc ^ b as bv32) & 0xFF) as bv8) ^ (crc >> 8)
  }

  function Crc32FromAsWritten(crc: bv32, s: seq<byte>): bv32
    decreases |s|
  {
    if s == [] then crc else StepAsWritten(Crc32FromAsWritten(crc, s[..|s| - 1]), s[|s| - 1])
  }

  /**
   * Entry 245 of the table as written has bit 5 set where the polynomial
   * clears it, so a single newline byte after the initial register gives
   * 0x32D706B3 instead of the standard CRC-32 0x32D70693.
   */
  lemma Entry245AsWritten()
    ensures TableAsWritten(245) == 0xCDD7_06B3
    ensures Table(245) == 0xCDD7_0693
    ensures Crc32FromAsWritten(CRC32_INIT, [0x0A]) ^ CRC32_INIT == 0x32D7_06B3
    ensures Crc32([0x0A]) == 0x32D7_0693
  {
    var s: seq<byte> := [0x0A];
    assert s[..0] == [];
    assert StepAsWritten(CRC32_INIT, 0x0A) == 0xCD28_F94C;
    assert Step(CRC32_INIT, 0x0A) == 0xCD28_F96C;
  }

  /**
   * Around the faulty entry, the table as written is the generated one:
   * rows 30 and 31 differ from the polynomial's table only at entry 245.
   */
  lemma AsWrittenLastRowsAgree()
    ensures CRC32_TABLE_AS_WRITTEN[30][0] == Table(240)
            && CRC32_TABLE_AS_WRITTEN[30][1] == Table(241)
            && CRC32_TABLE_AS_WRITTEN[30][2] == Table(242)
            && CRC32_TABLE_AS_WRITTEN[30][3] == Table(243)
            && CRC32_TABLE_AS_WRITTEN[30][4] == Table(244)
            && CRC32_TABLE_AS_WRITTEN[30][6] == Table(246)
            && CRC32_TABLE_AS_WRITTEN[30][7] == Table(247)
            && CRC32_TABLE_AS_WRITTEN[31][0] == Table(248)
            && CRC32_TABLE_AS_WRITTEN[31][1] == Table(249)
            && CRC32_TABLE_AS_WRITTEN[31][2] == Table(250)
            && CRC32_TABLE_AS_WRITTEN[31][3] == Table(251)
            && CRC32_TABLE_AS_WRITTEN[31][4] == Table(252)
            && CRC32_TABLE_AS_WRITTEN[31][5] == Table(253)
            && CRC32_TABLE_AS_WRITTEN[31][6] == Table(254)
            && CRC32_TABLE_AS_WRITTEN[31][7] == Table(255)
  {
  }
}
