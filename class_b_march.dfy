/**
 * The March C- RAM test of the Class B self-tests, run over a dedicated
 * buffer of 32-bit words.
 *
 * Memory faults are modelled as stuck-at bits: a write of `v` to a cell
 * stores `v` except in the bits of `mask`, which read back as `level`.
 * Faults may be intermittent: every writing march element (phase) has its
 * own fault set, so each read-back check of the algorithm can fail. A
 * permanent fault is the same fault set in every phase.
 */
module ClassBMarch {
  import opened ClassBTypes

  datatype StuckBits = StuckBits(mask: bv32, level: bv32)

  /** The value a cell with fault `f` holds after `v` is written to it. */
  function Stored(f: StuckBits, v: bv32): bv32 {
    (v & !f.mask) | (f.level & f.mask)
  }

  /** A write of `v` reads back unchanged. */
  predicate Holds(f: StuckBits, v: bv32) {
    Stored(f, v) == v
  }

  predicate AllHold(fs: seq<StuckBits>, v: bv32) {
    forall i :: 0 <= i < |fs| ==> Holds(fs[i], v)
  }

  predicate FaultFree(fs: seq<StuckBits>) {
    forall i :: 0 <= i < |fs| ==> fs[i].mask == 0
  }

  /** The buffer holds what a write of `v` leaves in cells with faults `fs`. */
  predicate Written(cells: seq<bv32>, fs: seq<StuckBits>, v: bv32) {
    |cells| == |fs| && forall i :: 0 <= i < |cells| ==> cells[i] == Stored(fs[i], v)
  }

  /** The four background patterns; the test ends on the last one. */
  const MARCH_PATTERNS: seq<bv32> := [0x0000_0000, 0xFFFF_FFFF, 0xAAAA_AAAA, 0x5555_5555]

  /** Five writing elements per pattern, four patterns. */
  const WRITE_PHASES: nat := 20

  /** The phase of writing element `e` (0 to 4) of pattern `p`. */
  function Phase(p: nat, e: nat): nat {
    5 * p + e
  }

  /** Fault sets for every phase, each covering the whole buffer. */
  predicate FaultsFit(faults: seq<seq<StuckBits>>, count: nat) {
    |faults| == WRITE_PHASES && forall k :: 0 <= k < |faults| ==> |faults[k]| == count
  }

  /**
   * Everything the six elements of pattern `p` read back: the pattern
   * written in phase 0, the inverse in phase 1, the pattern in phase 2,
   * the inverse in phase 3 and the pattern in phase 4.
   */
  predicate PatternPasses(faults: seq<seq<StuckBits>>, p: nat)
    requires p < 4 && |faults| == WRITE_PHASES
  {
    var v := MARCH_PATTERNS[p];
    AllHold(faults[Phase(p, 0)], v) && AllHold(faults[Phase(p, 1)], !v)
    && AllHold(faults[Phase(p, 2)], v) && AllHold(faults[Phase(p, 3)], !v)
    && AllHold(faults[Phase(p, 4)], v)
  }

  predicate MarchPasses(faults: seq<seq<StuckBits>>)
    requires |faults| == WRITE_PHASES
  {
    forall p :: 0 <= p < 4 ==> PatternPasses(faults, p)
  }

  // ---------------------------------------------------------------------------
  // What the fault model means for one cell
  // ---------------------------------------------------------------------------

  /** A cell without stuck bits reads back whatever was written. */
  lemma FaultFreeHolds(f: StuckBits, v: bv32)
    ensures f.mask == 0 ==> Holds(f, v)
  {
  }

  /** A stuck bit disagrees with either a value or its inverse. */
  lemma StuckBitShows(f: StuckBits, v: bv32)
    requires Holds(f, v) && Holds(f, !v)
    ensures f.mask == 0
  {
  }

  lemma FaultFreeAllHold(fs: seq<StuckBits>, v: bv32)
    requires FaultFree(fs)
    ensures AllHold(fs, v)
  {
    forall i | 0 <= i < |fs|
      ensures Holds(fs[i], v)
    {
      FaultFreeHolds(fs[i], v);
    }
  }

  // ---------------------------------------------------------------------------
  // The march elements
  // ---------------------------------------------------------------------------

  /** Element 1: write `v` to every cell, ascending. */
  method WriteAll(buf: array<bv32>, fs: seq<StuckBits>, v: bv32)
    requires |fs| == buf.Length
    modifies buf
    ensures Written(buf[..], fs, v)
  {
    var i := 0;
    while i < buf.Length
      invariant 0 <= i <= buf.Length
      invariant forall j :: 0 <= j < i ==> buf[j] == Stored(fs[j], v)
    {
      buf[i] := Stored(fs[i], v);
      i := i + 1;
    }
  }

  /**
   * An ascending read-then-write element: every cell must read `want`
   * (what phase `prev` wrote), then `write` is written to it under the
   * faults `fs`. The element stops at the first mismatch.
   */
  method ReadWriteUp(buf: array<bv32>, prev: seq<StuckBits>, fs: seq<StuckBits>, want: bv32, write: bv32)
    returns (ok: bool)
    requires Written(buf[..], prev, want) && |fs| == buf.Length
    modifies buf
    ensures ok <==> AllHold(prev, want)
    ensures ok ==> Written(buf[..], fs, write)
  {
    var i := 0;
    while i < buf.Length
      invariant 0 <= i <= buf.Length
      invariant forall j :: 0 <= j < i ==> Holds(prev[j], want) && buf[j] == Stored(fs[j], write)
      invariant forall j :: i <= j < buf.Length ==> buf[j] == Stored(prev[j], want)
    {
      if buf[i] != want {
        return false;
      }
      buf[i] := Stored(fs[i], write);
      i := i + 1;
    }
    return true;
  }

  /** The same element run from the last cell down to the first. */
  method ReadWriteDown(buf: array<bv32>, prev: seq<StuckBits>, fs: seq<StuckBits>, want: bv32, write: bv32)
    returns (ok: bool)
    requires Written(buf[..], prev, want) && |fs| == buf.Length
    modifies buf
    ensures ok <==> AllHold(prev, want)
    ensures ok ==> Written(buf[..], fs, write)
  {
    var i := buf.Length;
    while i > 0
      invariant 0 <= i <= buf.Length
      invariant forall j :: i <= j < buf.Length ==> Holds(prev[j], want) && buf[j] == Stored(fs[j], write)
      invariant forall j :: 0 <= j < i ==> buf[j] == Stored(prev[j], want)
    {
      if buf[i - 1] != want {
        return false;
      }
      buf[i - 1] := Stored(fs[i - 1], write);
      i := i - 1;
    }
    return true;
  }

  /** The final element: every cell must read `want`; nothing is written. */
  method VerifyAll(buf: array<bv32>, prev: seq<StuckBits>, want: bv32) returns (ok: bool)
    requires Written(buf[..], prev, want)
    ensures ok <==> AllHold(prev, want)
  {
    var i := 0;
    while i < buf.Length
      invariant 0 <= i <= buf.Length
      invariant forall j :: 0 <= j < i ==> Holds(prev[j], want)
    {
      if buf[i] != want {
        return false;
      }
      i := i + 1;
    }
    return true;
  }

  /** The six elements for pattern `p`. */
  method MarchPattern(buf: array<bv32>, faults: seq<seq<StuckBits>>, p: nat) returns (ok: bool)
    requires p < 4 && FaultsFit(faults, buf.Length)
    modifies buf
    ensures ok <==> PatternPasses(faults, p)
    ensures ok ==> Written(buf[..], faults[Phase(p, 4)], MARCH_PATTERNS[p])
  {
    var pattern := MARCH_PATTERNS[p];
    var inverse := !pattern;
    WriteAll(buf, faults[Phase(p, 0)], pattern);
    ok := ReadWriteUp(buf, faults[Phase(p, 0)], faults[Phase(p, 1)], pattern, inverse);
    if !ok {
      return;
    }
    ok := ReadWriteUp(buf, faults[Phase(p, 1)], faults[Phase(p, 2)], inverse, pattern);
    if !ok {
      return;
    }
    ok := ReadWriteDown(buf, faults[Phase(p, 2)], faults[Phase(p, 3)], pattern, inverse);
    if !ok {
      return;
    }
    ok := ReadWriteDown(buf, faults[Phase(p, 3)], faults[Phase(p, 4)], inverse, pattern);
    if !ok {
      return;
    }
    ok := VerifyAll(buf, faults[Phase(p, 4)], pattern);
  }

  /**
   * `march_c_test`: PASS exactly when every read-back of every element for
   * every pattern matched, and then the buffer holds the last pattern.
   */
  method MarchC(buf: array<bv32>, faults: seq<seq<StuckBits>>) returns (r: ClassBResult)
    requires FaultsFit(faults, buf.Length)
    modifies buf
    ensures r == Pass || r == FailRam
    ensures r == Pass <==> MarchPasses(faults)
    ensures r == Pass ==> Written(buf[..], faults[Phase(3, 4)], 0x5555_5555)
  {
    var p := 0;
    while p < 4
      invariant 0 <= p <= 4
      invariant forall q :: 0 <= q < p ==> PatternPasses(faults, q)
      invariant p > 0 ==> Written(buf[..], faults[Phase(p - 1, 4)], MARCH_PATTERNS[p - 1])
    {
      var ok := MarchPattern(buf, faults, p);
      if !ok {
        return FailRam;
      }
      p := p + 1;
    }
    return Pass;
  }

  // ---------------------------------------------------------------------------
  // What the test detects
  // ---------------------------------------------------------------------------

  /** The same fault set in every phase. */
  function Permanent(fs: seq<StuckBits>): (faults: seq<seq<StuckBits>>)
    ensures FaultsFit(faults, |fs|)
  {
    seq(WRITE_PHASES, _ => fs)
  }

  /** Fault-free memory passes, whatever phase. */
  lemma FaultFreePasses(faults: seq<seq<StuckBits>>)
    requires |faults| == WRITE_PHASES
    requires forall k :: 0 <= k < WRITE_PHASES ==> FaultFree(faults[k])
    ensures MarchPasses(faults)
  {
    forall p | 0 <= p < 4
      ensures PatternPasses(faults, p)
    {
      var v := MARCH_PATTERNS[p];
      FaultFreeAllHold(faults[Phase(p, 0)], v);
      FaultFreeAllHold(faults[Phase(p, 1)], !v);
      FaultFreeAllHold(faults[Phase(p, 2)], v);
      FaultFreeAllHold(faults[Phase(p, 3)], !v);
      FaultFreeAllHold(faults[Phase(p, 4)], v);
    }
  }

  /** A permanent stuck bit anywhere in the buffer makes the test fail. */
  lemma PermanentFaultDetected(fs: seq<StuckBits>)
    ensures MarchPasses(Permanent(fs)) <==> FaultFree(fs)
  {
    var faults := Permanent(fs);
    if MarchPasses(faults) {
      assert PatternPasses(faults, 0);
      assert faults[Phase(0, 0)] == fs && faults[Phase(0, 1)] == fs;
      forall i | 0 <= i < |fs|
        ensures fs[i].mask == 0
      {
        StuckBitShows(fs[i], 0);
      }
    } else if FaultFree(fs) {
      FaultFreePasses(faults);
    }
  }

  /** On fault-free memory the test passes and leaves 0x55555555 in every word. */
  lemma FaultFreeFinalPattern(cells: seq<bv32>, fs: seq<StuckBits>)
    requires FaultFree(fs) && Written(cells, fs, 0x5555_5555)
    ensures forall i :: 0 <= i < |cells| ==> cells[i] == 0x5555_5555
  {
    forall i | 0 <= i < |cells|
      ensures cells[i] == 0x5555_5555
    {
      FaultFreeHolds(fs[i], 0x5555_5555);
    }
  }
}
