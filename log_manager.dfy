/**
 * The ESP32's `LogManager`: a 50 KiB character ring that keeps the newest
 * log entries (each "[ms] [SOURCE] L: message\n") for download, fed by the
 * ESP32's own logging and by log messages forwarded from the Pico.
 *
 * The ring is described by `Ring` (cells, head, tail, wrapped); `Live` is
 * the text a download returns. `StepAsWritten` is the byte step the source
 * performs; `Step` is the one it evidently intends, which the `LogManager`
 * class implements.
 */
module LogManager {
  import opened Wrappers
  import opened Bytes
  import opened Text

  const LOG_BUFFER_SIZE: nat := 50 * 1024
  const LOG_ENTRY_MAX_SIZE: nat := 256
  /** The message buffer of `handlePicoLog`, terminator included. */
  const PICO_MESSAGE_MAX: nat := 200
  const NEWLINE: char := '\n'

  /** `BrewOSLogLevel`, ordered from error (0) to debug (3). */
  const LOG_ERROR: nat := 0
  const LOG_WARN: nat := 1
  const LOG_INFO: nat := 2
  const LOG_DEBUG: nat := 3

  datatype LogSource = Esp32 | Pico

  function LevelTag(level: nat): (r: string)
    ensures |r| == 1
    ensures r == "?" <==> level > LOG_DEBUG
  {
    match level
    case 0 => "E"
    case 1 => "W"
    case 2 => "I"
    case 3 => "D"
    case _ => "?"
  }

  function SourceTag(source: LogSource): (r: string)
    ensures 3 <= |r| <= 4
  {
    match source
    case Esp32 => "ESP"
    case Pico => "PICO"
  }

  // ---------------------------------------------------------------------------
  // Entries (addLog)
  // ---------------------------------------------------------------------------

  predicate NoNul(s: string) {
    forall k :: 0 <= k < |s| ==> s[k] != '\0'
  }

  /** "[ms] [SOURCE] L: ", what the first `snprintf` of `addLog` measures. */
  function EntryPrefix(now: nat, source: LogSource, level: nat): string {
    "[" + Decimal(now) + "] [" + SourceTag(source) + "] " + LevelTag(level) + ": "
  }

  lemma PrefixLength(now: nat, source: LogSource, level: nat)
    requires IsU32(now)
    ensures |EntryPrefix(now, source, level)| <= 23
  {
    assert now < Pow10(10);
    DecimalLength(now, 10);
  }

  /** The longest message text that fits after the prefix, with room for the newline and the terminator. */
  function MaxMessage(now: nat, source: LogSource, level: nat): (n: nat)
    requires IsU32(now)
    ensures |EntryPrefix(now, source, level)| + n + 2 == LOG_ENTRY_MAX_SIZE
  {
    PrefixLength(now, source, level);
    LOG_ENTRY_MAX_SIZE - |EntryPrefix(now, source, level)| - 2
  }

  /** The entry `addLog` writes: the prefix, the message cut to `MaxMessage`, and a newline. */
  function Entry(now: nat, source: LogSource, level: nat, message: string): (r: string)
    requires IsU32(now)
    ensures 0 < |r| < LOG_ENTRY_MAX_SIZE
  {
    var maxMsgLen := MaxMessage(now, source, level);
    EntryPrefix(now, source, level) + (if |message| <= maxMsgLen then message else message[..maxMsgLen]) + [NEWLINE]
  }

  /**
   * An entry is its prefix, then the start of the message (all of it when
   * it fits), then one newline that ends the entry.
   */
  lemma EntryFormat(now: nat, source: LogSource, level: nat, message: string)
    requires IsU32(now)
    ensures var r := Entry(now, source, level, message);
      var p := EntryPrefix(now, source, level);
      && r[|r| - 1] == NEWLINE && |p| < |r| && r[..|p|] == p
      && var text := r[|p|..|r| - 1];
      && |text| <= |message| && text == message[..|text|]
      && (|p| + |message| + 2 <= LOG_ENTRY_MAX_SIZE ==> text == message)
  {
    var p := EntryPrefix(now, source, level);
    var n := MaxMessage(now, source, level);
    var text := if |message| <= n then message else message[..n];
    var r := Entry(now, source, level, message);
    assert r == p + text + [NEWLINE];
    assert r[|p|..|r| - 1] == text;
  }

  /** The bytes of `payload` up to its first NUL, as `strncpy` copies a C string. */
  function CStr(s: seq<byte>): (r: string)
    ensures NoNul(r) && |r| <= |s|
    ensures forall k :: 0 <= k < |r| ==> r[k] == s[k] as int as char
    ensures |r| < |s| ==> s[|r|] == 0
  {
    if s == [] || s[0] == 0 then [] else [s[0] as int as char] + CStr(s[1..])
  }

  // ---------------------------------------------------------------------------
  // The ring
  // ---------------------------------------------------------------------------

  /** `_buffer`, `_head`, `_tail` and `_wrapped`. */
  datatype Ring = Ring(cells: seq<char>, head: nat, tail: nat, wrapped: bool)

  /** Before the first wrap the tail stays at 0. */
  predicate RingShape(r: Ring) {
    |r.cells| == LOG_BUFFER_SIZE && r.head < LOG_BUFFER_SIZE && r.tail < LOG_BUFFER_SIZE
    && (!r.wrapped ==> r.tail == 0)
  }

  /** The ring after `clear`: zeroed, head and tail at 0, not wrapped. */
  function Cleared(): (r: Ring)
    ensures RingShape(r)
  {
    Ring(seq(LOG_BUFFER_SIZE, _ => '\0'), 0, 0, false)
  }

  /** `(p + 1) % LOG_BUFFER_SIZE` */
  function Next(p: nat): (r: nat)
    requires p < LOG_BUFFER_SIZE
    ensures r < LOG_BUFFER_SIZE && r == (p + 1) % LOG_BUFFER_SIZE
  {
    if p + 1 == LOG_BUFFER_SIZE then 0 else p + 1
  }

  /** `p % LOG_BUFFER_SIZE` for a position less than twice around the ring. */
  function Slot(p: nat): (r: nat)
    requires p < 2 * LOG_BUFFER_SIZE
    ensures r < LOG_BUFFER_SIZE && r == p % LOG_BUFFER_SIZE
  {
    if p < LOG_BUFFER_SIZE then p else p - LOG_BUFFER_SIZE
  }

  /** How many characters the ring holds, from the tail up to the head. */
  function LiveLength(r: Ring): (n: nat)
    requires RingShape(r)
    ensures n <= LOG_BUFFER_SIZE
    ensures r.wrapped && r.head == r.tail ==> n == LOG_BUFFER_SIZE
    ensures !r.wrapped ==> n == r.head
  {
    if !r.wrapped then r.head
    else if r.tail < r.head then r.head - r.tail
    else LOG_BUFFER_SIZE - r.tail + r.head
  }

  /** The held text, oldest character first. */
  function Live(r: Ring): (s: seq<char>)
    requires RingShape(r)
    ensures |s| == LiveLength(r)
  {
    seq(LiveLength(r), i requires 0 <= i < LiveLength(r) => r.cells[Slot(r.tail + i)])
  }

  /**
   * The held text as slices of the buffer: the tail up to the head, or,
   * when the head is not past the tail of a wrapped ring, the tail to the
   * end followed by the start up to the head.
   */
  lemma LiveSlices(r: Ring)
    requires RingShape(r)
    ensures Live(r) == if r.wrapped && r.tail >= r.head then r.cells[r.tail..] + r.cells[..r.head]
      else r.cells[r.tail..r.head]
  {
    var s := if r.wrapped && r.tail >= r.head then r.cells[r.tail..] + r.cells[..r.head]
      else r.cells[r.tail..r.head];
    assert |s| == LiveLength(r);
    forall i | 0 <= i < |s|
      ensures Live(r)[i] == s[i]
    {
      assert Live(r)[i] == r.cells[Slot(r.tail + i)];
      if r.wrapped && r.tail >= r.head && i >= LOG_BUFFER_SIZE - r.tail {
        assert s[i] == r.cells[i - (LOG_BUFFER_SIZE - r.tail)];
      } else {
        assert s[i] == r.cells[r.tail + i];
      }
    }
  }

  /** `_size`: the whole buffer once wrapped, else the head. */
  function SizeField(r: Ring): (n: nat)
    requires RingShape(r)
    ensures LiveLength(r) <= n
  {
    if r.wrapped then LOG_BUFFER_SIZE else r.head
  }

  /**
   * How many of the oldest characters a full ring gives up before a write:
   * the oldest one and the rest of its line, or every character when the
   * ring holds no newline.
   */
  function EvictCount(r: Ring): (k: nat)
    requires RingShape(r)
    ensures 1 <= k <= LOG_BUFFER_SIZE
  {
    var ordered := r.cells[r.tail..] + r.cells[..r.tail];
    match IndexOf(ordered, NEWLINE)
    case Some(i) => i + 1
    case None => LOG_BUFFER_SIZE
  }

  /**
   * One character written: a full ring (wrapped, head on the tail) first
   * moves its tail past the end of the oldest line; then the character goes
   * to the head, which advances and marks the ring wrapped when it returns to 0.
   */
  function Step(r: Ring, c: char): (r': Ring)
    requires RingShape(r)
    ensures RingShape(r')
  {
    var t := if r.wrapped && r.head == r.tail then Slot(r.tail + EvictCount(r)) else r.tail;
    var h := Next(r.head);
    Ring(r.cells[r.head := c], h, t, r.wrapped || h == 0)
  }

  function WriteAll(r: Ring, data: seq<char>): (r': Ring)
    requires RingShape(r)
    ensures RingShape(r')
    decreases |data|
  {
    if data == [] then r else Step(WriteAll(r, data[..|data| - 1]), data[|data| - 1])
  }

  /** A character written to a ring that is not full is appended to the held text. */
  lemma StepAppends(r: Ring, c: char)
    requires RingShape(r) && !(r.wrapped && r.head == r.tail)
    ensures Live(Step(r, c)) == Live(r) + [c]
  {
    var r' := Step(r, c);
    var n := LiveLength(r);
    assert LiveLength(r') == n + 1;
    assert Slot(r.tail + n) == r.head;
    forall i | 0 <= i < n + 1
      ensures Live(r')[i] == (Live(r) + [c])[i]
    {
      if i < n {
        assert Slot(r.tail + i) != r.head;
      }
    }
  }

  /** A character written to a full ring drops the oldest line, then is appended. */
  lemma StepEvicts(r: Ring, c: char)
    requires RingShape(r) && r.wrapped && r.head == r.tail
    ensures Live(Step(r, c)) == Live(r)[EvictCount(r)..] + [c]
  {
    var r' := Step(r, c);
    var k := EvictCount(r);
    assert LiveLength(r') == LOG_BUFFER_SIZE - k + 1;
    forall i | 0 <= i < LOG_BUFFER_SIZE - k
      ensures Live(r')[i] == Live(r)[k + i]
    {
      assert Slot(r'.tail + i) == Slot(r.tail + k + i);
      assert Slot(r.tail + k + i) != r.head;
    }
    assert Slot(r'.tail + LOG_BUFFER_SIZE - k) == r.head;
  }

  /**
   * What writing a character does to the held text: it is appended, after
   * the oldest line has been dropped when the ring was full.
   */
  lemma StepLive(r: Ring, c: char)
    requires RingShape(r)
    ensures var full := r.wrapped && r.head == r.tail;
      Live(Step(r, c)) == (if full then Live(r)[EvictCount(r)..] else Live(r)) + [c]
  {
    if r.wrapped && r.head == r.tail {
      StepEvicts(r, c);
    } else {
      StepAppends(r, c);
    }
  }

  /** `s` ends with `t`. */
  predicate IsSuffix(t: seq<char>, s: seq<char>) {
    |t| <= |s| && s[|s| - |t|..] == t
  }

  /**
   * The held text is always the newest part of everything written since the
   * ring was cleared; before the first wrap it is all of it.
   */
  predicate Holds(r: Ring, history: seq<char>) {
    RingShape(r) && IsSuffix(Live(r), history) && (!r.wrapped ==> Live(r) == history)
  }

  /** Writing one character keeps the held text the newest part of what was written. */
  lemma HoldsStep(r: Ring, history: seq<char>, c: char)
    requires Holds(r, history)
    ensures Holds(Step(r, c), history + [c])
  {
    StepLive(r, c);
    var live := Live(r);
    var h1 := history + [c];
    if r.wrapped && r.head == r.tail {
      var k := EvictCount(r);
      assert h1[|h1| - (|live| - k + 1)..] == live[k..] + [c];
    } else {
      assert h1[|h1| - (|live| + 1)..] == live + [c];
    }
  }

  lemma {:induction false} WriteAllHolds(r: Ring, history: seq<char>, data: seq<char>)
    requires Holds(r, history)
    ensures Holds(WriteAll(r, data), history + data)
    decreases |data|
  {
    if data != [] {
      var init := data[..|data| - 1];
      WriteAllHolds(r, history, init);
      HoldsStep(WriteAll(r, init), history + init, data[|data| - 1]);
      assert history + init + [data[|data| - 1]] == history + data;
    }
  }

  /** Fewer characters than the ring holds, written from an empty ring, are held in full without wrapping. */
  lemma {:induction false} WriteFromEmpty(r: Ring, data: seq<char>)
    requires RingShape(r) && r.head == 0 && !r.wrapped && |data| < LOG_BUFFER_SIZE
    ensures WriteAll(r, data).head == |data| && !WriteAll(r, data).wrapped
    ensures Live(WriteAll(r, data)) == data
  {
    if data != [] {
      WriteFromEmpty(r, data[..|data| - 1]);
    }
    WriteAllHolds(r, [], data);
  }

  /** A cleared ring holds nothing. */
  lemma ClearedHolds()
    ensures Holds(Cleared(), [])
  {
  }

  // ---------------------------------------------------------------------------
  // The ring as written
  // ---------------------------------------------------------------------------

  /**
   * The byte step of `writeToBuffer` as written: on a full ring its scan
   * loop starts with the tail on the head, so it never runs, and the tail
   * only moves past the overwritten character when that character is a newline.
   */
  function StepAsWritten(r: Ring, c: char): (r': Ring)
    requires RingShape(r)
    ensures RingShape(r')
  {
    var t := if r.wrapped && r.head == r.tail && r.cells[r.tail] == NEWLINE then Next(r.tail) else r.tail;
    var h := Next(r.head);
    Ring(r.cells[r.head := c], h, t, r.wrapped || h == 0)
  }

  function WriteAllAsWritten(r: Ring, data: seq<char>): (r': Ring)
    requires RingShape(r)
    ensures RingShape(r')
    decreases |data|
  {
    if data == [] then r else StepAsWritten(WriteAllAsWritten(r, data[..|data| - 1]), data[|data| - 1])
  }

  /** `getLogs` as written: tail to the end, then the start to the head, whenever the ring has wrapped. */
  function GetLogsAsWritten(r: Ring): (s: seq<char>)
    requires RingShape(r)
    ensures |s| == LiveLength(r) + (if r.wrapped && r.tail < r.head then LOG_BUFFER_SIZE else 0)
  {
    if r.wrapped then r.cells[r.tail..] + r.cells[..r.head] else r.cells[..r.head]
  }

  /**
   * As written, `getLogs` on a wrapped ring whose head is past its tail
   * returns more than the buffer holds: the held text, then the rest of the
   * buffer, then the held text a second time.
   */
  lemma GetLogsRepeatsAsWritten(r: Ring)
    requires RingShape(r) && r.wrapped && r.tail < r.head
    ensures var s := GetLogsAsWritten(r);
      |s| == LOG_BUFFER_SIZE + LiveLength(r) > LOG_BUFFER_SIZE
      && s[..LiveLength(r)] == Live(r) && s[LOG_BUFFER_SIZE..] == Live(r)
  {
    LiveSlices(r);
    var s := GetLogsAsWritten(r);
    assert s[..LiveLength(r)] == r.cells[r.tail..r.head];
    assert s[LOG_BUFFER_SIZE..] == r.cells[r.tail..r.head];
  }

  predicate NewlineFree(s: seq<char>) {
    forall k :: 0 <= k < |s| ==> s[k] != NEWLINE
  }

  /** Without newlines the as-written tail never leaves 0. */
  lemma {:induction false} AsWrittenTailStays(r: Ring, data: seq<char>)
    requires RingShape(r) && r.tail == 0 && NewlineFree(r.cells) && NewlineFree(data)
    requires r.head + |data| < 2 * LOG_BUFFER_SIZE
    ensures var r' := WriteAllAsWritten(r, data);
      && r'.tail == 0 && NewlineFree(r'.cells)
      && r'.head == Slot(r.head + |data|)
      && r'.wrapped == (r.wrapped || r.head + |data| >= LOG_BUFFER_SIZE)
    decreases |data|
  {
    if data != [] {
      var init := data[..|data| - 1];
      AsWrittenTailStays(r, init);
      var r1 := WriteAllAsWritten(r, init);
      assert NewlineFree(StepAsWritten(r1, data[|data| - 1]).cells);
    }
  }

  /**
   * As written, writing one character more than the ring holds, with no
   * newline, makes `getLogs` return more characters than the ring holds
   * (and more than `getLogsSize` reports): the oldest part is followed by
   * the newest character a second time.
   */
  lemma AsWrittenOverlong(data: seq<char>)
    requires NewlineFree(data) && |data| == LOG_BUFFER_SIZE + 1
    ensures var r := WriteAllAsWritten(Cleared(), data);
      |GetLogsAsWritten(r)| == LOG_BUFFER_SIZE + 1 > SizeField(r)
  {
    AsWrittenTailStays(Cleared(), data);
  }

  /** With the intended step no download is longer than the ring or than `_size`. */
  lemma {:induction false} LiveFits(r: Ring, history: seq<char>, data: seq<char>)
    requires Holds(r, history)
    ensures var r' := WriteAll(r, data);
      |Live(r')| <= SizeField(r') <= LOG_BUFFER_SIZE && IsSuffix(Live(r'), history + data)
  {
    WriteAllHolds(r, history, data);
  }

  // ---------------------------------------------------------------------------
  // Pico log messages
  // ---------------------------------------------------------------------------

  /** The level of a forwarded Pico log: anything above debug is read as info. */
  function PicoLevel(b: byte): (level: nat)
    ensures level <= LOG_DEBUG
    ensures b as nat <= LOG_DEBUG ==> level == b as nat
    ensures b as nat > LOG_DEBUG ==> level == LOG_INFO
  {
    if b as nat > LOG_DEBUG then LOG_INFO else b as nat
  }

  /** The message of a forwarded Pico log: at most 199 bytes after the level, up to a NUL. */
  function PicoMessage(payload: seq<byte>): (m: string)
    requires |payload| >= 2
    ensures NoNul(m) && |m| < PICO_MESSAGE_MAX && |m| < |payload|
    ensures forall k :: 0 <= k < |m| ==> m[k] == payload[k + 1] as int as char
  {
    var body := payload[1..];
    CStr(if |body| >= PICO_MESSAGE_MAX then body[..PICO_MESSAGE_MAX - 1] else body)
  }

  /** The WebSocket level name of a broadcast Pico log, if it is broadcast at all. */
  function PicoBroadcast(level: nat, debugLogsEnabled: bool): (name: Option<string>)
    requires level <= LOG_DEBUG
    ensures level == LOG_DEBUG ==> (name.Some? <==> debugLogsEnabled)
    ensures level < LOG_INFO ==> name.None?
    ensures level == LOG_INFO ==> name == Some("info")
  {
    var broadcast := if level == LOG_DEBUG then debugLogsEnabled else level >= LOG_INFO;
    if !broadcast then None
    // Only debug and info get here, so the switch's "warn" and "error" arms are never taken.
    else Some(if level == LOG_DEBUG then "debug" else "info")
  }

  // ---------------------------------------------------------------------------
  // The manager
  // ---------------------------------------------------------------------------

  class LogManager {
    /** The buffer `enable` allocates; disabled, its contents do not matter. */
    const buffer: array<char>
    var head: nat
    var tail: nat
    var size: nat
    var wrapped: bool
    var enabled: bool
    var picoLogForwarding: bool
    /** Every character written since the buffer was last enabled or cleared. */
    ghost var history: seq<char>

    function RingOf(): Ring
      reads this`head, this`tail, this`wrapped, buffer
    {
      Ring(buffer[..], head, tail, wrapped)
    }

    /** The ring holds the newest part of its history, and `_size` is set from it. */
    ghost predicate RingValid()
      reads this`head, this`tail, this`wrapped, this`size, this`history, buffer
    {
      buffer.Length == LOG_BUFFER_SIZE
      && Holds(RingOf(), history)
      && size == SizeField(RingOf())
    }

    ghost predicate Valid()
      reads this, buffer
    {
      RingValid()
      && (!enabled ==> head == 0 && tail == 0 && size == 0 && !wrapped && !picoLogForwarding)
    }

    /** The constructed manager: disabled, with nothing held. */
    constructor()
      ensures Valid() && !enabled && !picoLogForwarding && fresh(buffer)
    {
      buffer := new char[LOG_BUFFER_SIZE](_ => '\0');
      head, tail, size := 0, 0, 0;
      wrapped := false;
      enabled := false;
      picoLogForwarding := false;
      history := [];
    }

    /** `getLogsSize`: 0 while disabled, else `_size`. */
    function LogsSize(): (n: nat)
      requires Valid()
      reads this, buffer
      ensures n <= LOG_BUFFER_SIZE
      ensures n == 0 ==> Live(RingOf()) == []
    {
      if !enabled then 0 else size
    }

    /** `memset` and the reset of the ring's indices shared by `enable` and `clear`. */
    method ResetRing()
      requires buffer.Length == LOG_BUFFER_SIZE
      modifies this`head, this`tail, this`size, this`wrapped, this`history, buffer
      ensures RingValid() && head == 0 && tail == 0 && size == 0 && !wrapped && history == []
      ensures forall i :: 0 <= i < buffer.Length ==> buffer[i] == '\0'
    {
      forall i | 0 <= i < buffer.Length {
        buffer[i] := '\0';
      }
      head, tail, size := 0, 0, 0;
      wrapped := false;
      history := [];
      assert Live(RingOf()) == [];
    }

    /**
     * Writes characters to the ring one at a time (the intended step: a full
     * ring first gives up its oldest line), then sets `_size`.
     */
    method WriteToBuffer(data: seq<char>)
      requires RingValid()
      modifies this`head, this`tail, this`size, this`wrapped, this`history, buffer
      ensures RingValid()
      ensures RingOf() == WriteAll(old(RingOf()), data) && history == old(history) + data
    {
      if |data| == 0 {
        return;
      }
      ghost var start := RingOf();
      ghost var h0 := history;
      var i := 0;
      while i < |data|
        invariant 0 <= i <= |data|
        invariant RingShape(start) && RingOf() == WriteAll(start, data[..i])
      {
        WriteChar(data[i]);
        assert data[..i + 1][..i] == data[..i];
        i := i + 1;
      }
      assert data[..i] == data;
      size := if wrapped then LOG_BUFFER_SIZE else head;
      history := h0 + data;
      WriteAllHolds(start, h0, data);
    }

    /** The loop body of `writeToBuffer`: one character through the intended step. */
    method WriteChar(c: char)
      requires buffer.Length == LOG_BUFFER_SIZE && RingShape(RingOf())
      modifies this`head, this`tail, this`wrapped, buffer
      ensures RingOf() == Step(old(RingOf()), c)
    {
      if wrapped && head == tail {
        EvictLine();
      }
      buffer[head] := c;
      head := (head + 1) % LOG_BUFFER_SIZE;
      if head == 0 {
        wrapped := true;
      }
    }

    /**
     * On a full ring: moves the tail past the oldest character and, unless
     * that was a newline, on to the character after the next newline,
     * stopping when it comes round to the head.
     */
    method EvictLine()
      requires buffer.Length == LOG_BUFFER_SIZE && RingShape(RingOf()) && wrapped && head == tail
      modifies this`tail
      ensures tail == Slot(old(tail) + EvictCount(old(RingOf())))
    {
      ghost var r := RingOf();
      ghost var ordered := r.cells[r.tail..] + r.cells[..r.tail];
      ghost var j := 1;
      var evicted := buffer[tail];
      tail := (tail + 1) % LOG_BUFFER_SIZE;
      while evicted != NEWLINE && tail != head
        invariant 1 <= j <= LOG_BUFFER_SIZE && tail == Slot(r.tail + j)
        invariant tail == head <==> j == LOG_BUFFER_SIZE
        invariant evicted == ordered[j - 1]
        invariant forall k :: 0 <= k < j - 1 ==> ordered[k] != NEWLINE
        decreases LOG_BUFFER_SIZE - j
      {
        evicted := buffer[tail];
        tail := (tail + 1) % LOG_BUFFER_SIZE;
        j := j + 1;
      }
      match IndexOf(ordered, NEWLINE)
      case Some(x) => assert x == j - 1 || j == LOG_BUFFER_SIZE;
      case None => assert j == LOG_BUFFER_SIZE;
    }

    /** `addLog`: while enabled, the formatted entry is written to the ring. */
    method AddLog(level: nat, source: LogSource, message: string, now: nat)
      requires Valid() && IsU32(now)
      modifies this, buffer
      ensures Valid() && enabled == old(enabled) && picoLogForwarding == old(picoLogForwarding)
      ensures var entry := if old(enabled) then Entry(now, source, level, message) else [];
        RingOf() == WriteAll(old(RingOf()), entry) && history == old(history) + entry
    {
      if !enabled {
        return;
      }
      var entry := Entry(now, source, level, message);
      WriteToBuffer(entry);
    }

    /**
     * `enable`: when not yet enabled and the allocation succeeds, the ring
     * is cleared and starts with the "Log buffer enabled" entry.
     */
    method Enable(allocOk: bool, now: nat) returns (ok: bool)
      requires Valid() && IsU32(now)
      modifies this, buffer
      ensures Valid() && picoLogForwarding == old(picoLogForwarding)
      ensures ok <==> old(enabled) || allocOk
      ensures enabled == ok
      ensures old(enabled) ==> RingOf() == old(RingOf()) && history == old(history)
      ensures !old(enabled) && ok ==> var entry := Entry(now, Esp32, LOG_INFO, "Log buffer enabled (50KB)");
        Live(RingOf()) == entry && history == entry
    {
      if enabled {
        ok := true;
      } else if !allocOk {
        ok := false;
      } else {
        var entry := Entry(now, Esp32, LOG_INFO, "Log buffer enabled (50KB)");
        enabled := true;
        Restart(entry);
        ok := true;
      }
    }

    /** The ring emptied, then holding only `entry`, the first line after `enable` or `clear`. */
    method Restart(entry: string)
      requires buffer.Length == LOG_BUFFER_SIZE && |entry| < LOG_BUFFER_SIZE
      modifies this`head, this`tail, this`size, this`wrapped, this`history, buffer
      ensures RingValid() && Live(RingOf()) == entry && history == entry
    {
      ResetRing();
      ghost var empty := RingOf();
      WriteToBuffer(entry);
      WriteFromEmpty(empty, entry);
    }

    /** `disable`: the ring is dropped and Pico forwarding switched off. */
    method Disable()
      requires Valid()
      modifies this
      ensures Valid() && !enabled && !picoLogForwarding
      ensures old(enabled) ==> history == []
      ensures !old(enabled) ==> history == old(history)
    {
      if !enabled {
        return;
      }
      enabled := false;
      head, tail, size := 0, 0, 0;
      wrapped := false;
      picoLogForwarding := false;
      history := [];
      assert Live(RingOf()) == [];
    }

    /** `clear`: while enabled, the ring is emptied and then holds only the "Logs cleared" entry. */
    method Clear(now: nat)
      requires Valid() && IsU32(now)
      modifies this, buffer
      ensures Valid() && enabled == old(enabled) && picoLogForwarding == old(picoLogForwarding)
      ensures !old(enabled) ==> RingOf() == old(RingOf()) && history == old(history)
      ensures old(enabled) ==> var entry := Entry(now, Esp32, LOG_INFO, "Logs cleared");
        Live(RingOf()) == entry && history == entry
    {
      if !enabled {
        return;
      }
      Restart(Entry(now, Esp32, LOG_INFO, "Logs cleared"));
    }

    /**
     * `getLogs`: the held text, oldest first (the tail to the end of the
     * buffer, then its start up to the head, once it has wrapped); nothing
     * while disabled.
     */
    method GetLogs() returns (text: string)
      requires Valid()
      ensures text == if enabled then Live(RingOf()) else []
      ensures |text| <= LogsSize()
      ensures enabled ==> IsSuffix(text, history)
    {
      if !enabled {
        return [];
      }
      if wrapped && tail >= head {
        var older := CopyRange(tail, LOG_BUFFER_SIZE);
        var newer := CopyRange(0, head);
        text := older + newer;
      } else {
        text := CopyRange(tail, head);
      }
      LiveSlices(RingOf());
    }

    /** The characters of the buffer from `from` up to `to`, copied one by one. */
    method CopyRange(from: nat, to: nat) returns (text: string)
      requires from <= to <= buffer.Length
      ensures text == buffer[from..to]
    {
      text := [];
      var i := from;
      while i < to
        invariant from <= i <= to
        invariant text == buffer[from..i]
      {
        text := text + [buffer[i]];
        i := i + 1;
      }
    }

    /**
     * `setPicoLogForwarding`: refused (nothing changes) when enabling while
     * the buffer is disabled; otherwise the flag is set and, when there is a
     * sender, the one-byte command is sent and the outcome logged.
     */
    method SetPicoLogForwarding(on: bool, sender: Option<bool>, now: nat) returns (sent: Option<seq<byte>>)
      requires Valid() && IsU32(now)
      modifies this, buffer
      ensures Valid() && enabled == old(enabled)
      ensures on && !old(enabled) ==>
        sent.None? && picoLogForwarding == old(picoLogForwarding) && RingOf() == old(RingOf()) && history == old(history)
      ensures !(on && !old(enabled)) ==>
        picoLogForwarding == on && sent == (if sender.Some? then Some([if on then 1 else 0]) else None)
      ensures !(on && !old(enabled)) && sender.Some? ==>
        var entry := if !old(enabled) then []
          else if sender.value then Entry(now, Esp32, LOG_INFO, "Pico log forwarding " + (if on then "enabled" else "disabled"))
          else Entry(now, Esp32, LOG_WARN, "Failed to send log config to Pico");
        RingOf() == WriteAll(old(RingOf()), entry) && history == old(history) + entry
    {
      if on && !enabled {
        return None;
      }
      picoLogForwarding := on;
      sent := None;
      if sender.Some? {
        sent := Some([if on then 1 else 0]);
        if sender.value {
          AddLog(LOG_INFO, Esp32, "Pico log forwarding " + (if on then "enabled" else "disabled"), now);
        } else {
          AddLog(LOG_WARN, Esp32, "Failed to send log config to Pico", now);
        }
      }
    }

    /**
     * `handlePicoLog`: while enabled, a payload of at least two bytes (a
     * level, then the message) is logged as a Pico entry; the result is the
     * WebSocket broadcast level, if any.
     */
    method HandlePicoLog(payload: seq<byte>, debugLogsEnabled: bool, now: nat) returns (broadcast: Option<string>)
      requires Valid() && IsU32(now)
      modifies this, buffer
      ensures Valid() && enabled == old(enabled) && picoLogForwarding == old(picoLogForwarding)
      ensures !old(enabled) || |payload| < 2 ==> broadcast.None? && RingOf() == old(RingOf()) && history == old(history)
      ensures old(enabled) && |payload| >= 2 ==>
        var level := PicoLevel(payload[0]);
        var entry := Entry(now, Pico, level, PicoMessage(payload));
        && RingOf() == WriteAll(old(RingOf()), entry) && history == old(history) + entry
        && broadcast == PicoBroadcast(level, debugLogsEnabled)
    {
      if !enabled || |payload| == 0 {
        return None;
      }
      if |payload| < 2 {
        return None;
      }
      var level := PicoLevel(payload[0]);
      var message := PicoMessage(payload);
      AddLog(level, Pico, message, now);
      broadcast := PicoBroadcast(level, debugLogsEnabled);
    }
  }
}
