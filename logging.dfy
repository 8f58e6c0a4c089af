/**
 * The Pico's logging: messages at or below the configured level are
 * formatted, cut to 95 characters and queued in a 1 KiB byte ring that the
 * background loop drains, and optionally forwarded to the ESP32.
 */
module PicoLogging {
  import opened Wrappers
  import opened Bytes

  const LOG_BUFFER_SIZE: nat := 1024
  const LOG_MAX_MESSAGE: nat := 96

  const LOG_LEVEL_ERROR: nat := 0
  const LOG_LEVEL_WARN: nat := 1
  const LOG_LEVEL_INFO: nat := 2
  const LOG_LEVEL_DEBUG: nat := 3
  const LOG_LEVEL_TRACE: nat := 4

  const LOG_FWD_ERROR: nat := 0
  const LOG_FWD_WARN: nat := 1
  const LOG_FWD_INFO: nat := 2
  const LOG_FWD_DEBUG: nat := 3

  /** The printable name of a level. */
  function LevelName(level: nat): (r: string)
    ensures r == "UNKNOWN" <==> level > LOG_LEVEL_TRACE
    ensures level <= LOG_LEVEL_TRACE ==> r == ["ERROR", "WARN", "INFO", "DEBUG", "TRACE"][level]
  {
    match level
    case 0 => "ERROR"
    case 1 => "WARN"
    case 2 => "INFO"
    case 3 => "DEBUG"
    case 4 => "TRACE"
    case _ => "UNKNOWN"
  }

  /** The forwarding level of a log level: trace is forwarded as debug, anything unknown as info. */
  function ForwardLevel(level: nat): (r: nat)
    ensures r <= LOG_FWD_DEBUG
    ensures level <= LOG_LEVEL_DEBUG ==> r == level
    ensures level == LOG_LEVEL_TRACE ==> r == LOG_FWD_DEBUG
    ensures level > LOG_LEVEL_TRACE ==> r == LOG_FWD_INFO
  {
    match level
    case 0 => LOG_FWD_ERROR
    case 1 => LOG_FWD_WARN
    case 2 => LOG_FWD_INFO
    case 3 => LOG_FWD_DEBUG
    case 4 => LOG_FWD_DEBUG
    case _ => LOG_FWD_INFO
  }

  /** What `vsnprintf` into the 96-byte stack buffer keeps of a formatted message. */
  function Truncated(text: seq<byte>): (r: seq<byte>)
    ensures |r| < LOG_MAX_MESSAGE
    ensures |text| < LOG_MAX_MESSAGE ==> r == text
    ensures |text| >= LOG_MAX_MESSAGE ==> r == text[..LOG_MAX_MESSAGE - 1]
  {
    if |text| >= LOG_MAX_MESSAGE then text[..LOG_MAX_MESSAGE - 1] else text
  }

  function Min(a: nat, b: nat): nat { if a <= b then a else b }

  /** The slot of a position less than twice the ring size: `p % LOG_BUFFER_SIZE`. */
  function Slot(p: nat): (r: nat)
    requires p < 2 * LOG_BUFFER_SIZE
    ensures r < LOG_BUFFER_SIZE
  {
    if p < LOG_BUFFER_SIZE then p else p - LOG_BUFFER_SIZE
  }

  class Logging {
    /** The ring's storage; `count` bytes from `readPos` on (wrapping) are queued. */
    const buffer: array<byte>
    var writePos: nat
    var readPos: nat
    var count: nat
    var level: nat
    var forwardEnabled: bool
    var initialized: bool

    ghost predicate Valid()
      reads this
    {
      buffer.Length == LOG_BUFFER_SIZE
      && readPos < LOG_BUFFER_SIZE && writePos < LOG_BUFFER_SIZE && count < LOG_BUFFER_SIZE
      && writePos == Slot(readPos + count)
      && level <= LOG_LEVEL_TRACE
    }

    /** The queued bytes, oldest first. */
    ghost function Contents(): (r: seq<byte>)
      requires Valid()
      reads this, buffer
      ensures |r| == count
    {
      var cells, start, n := buffer[..], readPos, count;
      seq(n, i requires 0 <= i < n => cells[Slot(start + i)])
    }

    /** The zero-initialised state: an empty ring, level info, forwarding off, not yet initialised. */
    constructor()
      ensures Valid() && fresh(buffer)
      ensures Contents() == [] && level == LOG_LEVEL_INFO && !forwardEnabled && !initialized
    {
      buffer := new byte[LOG_BUFFER_SIZE](_ => 0);
      writePos := 0;
      readPos := 0;
      count := 0;
      level := LOG_LEVEL_INFO;
      forwardEnabled := false;
      initialized := false;
    }

    /** The first call sets level info and forwarding off; later calls do nothing. */
    method Init()
      requires Valid()
      modifies this
      ensures Valid() && initialized
      ensures readPos == old(readPos) && writePos == old(writePos) && count == old(count)
      ensures if old(initialized) then level == old(level) && forwardEnabled == old(forwardEnabled)
        else level == LOG_LEVEL_INFO && !forwardEnabled
    {
      if initialized {
        return;
      }
      level := LOG_LEVEL_INFO;
      forwardEnabled := false;
      initialized := true;
    }

    /** Levels above trace are ignored. */
    method SetLevel(newLevel: nat)
      requires Valid()
      modifies this
      ensures Valid()
      ensures level == if newLevel <= LOG_LEVEL_TRACE then newLevel else old(level)
      ensures readPos == old(readPos) && writePos == old(writePos) && count == old(count)
      ensures forwardEnabled == old(forwardEnabled) && initialized == old(initialized)
    {
      if newLevel <= LOG_LEVEL_TRACE {
        level := newLevel;
      }
    }

    method SetForwardEnabled(enable: bool)
      requires Valid()
      modifies this
      ensures Valid() && forwardEnabled == enable
      ensures readPos == old(readPos) && writePos == old(writePos) && count == old(count)
      ensures level == old(level) && initialized == old(initialized)
    {
      forwardEnabled := enable;
    }

    /**
     * Appends a message when it is not empty, smaller than the ring, and fits
     * in the free space less the one byte kept to tell full from empty;
     * otherwise the ring is left as it was.
     */
    method Write(message: seq<byte>) returns (ok: bool)
      requires Valid()
      modifies this`writePos, this`count, buffer
      ensures Valid()
      ensures ok <==> 0 < |message| < LOG_BUFFER_SIZE && |message| <= LOG_BUFFER_SIZE - old(count) - 1
      ensures Contents() == if ok then old(Contents()) + message else old(Contents())
      ensures readPos == old(readPos)
      ensures level == old(level) && forwardEnabled == old(forwardEnabled) && initialized == old(initialized)
    {
      if |message| == 0 || |message| >= LOG_BUFFER_SIZE {
        return false;
      }
      var available := LOG_BUFFER_SIZE - count - 1;
      if |message| > available {
        return false;
      }
      ghost var before := Contents();
      ghost var oldCount := count;
      var wp := CopyIn(message);
      writePos := wp;
      count := count + |message|;
      forall k | 0 <= k < count
        ensures Contents()[k] == (before + message)[k]
      {
        if k >= oldCount {
          assert readPos + k == readPos + oldCount + (k - oldCount);
        }
      }
      return true;
    }

    /** The copy loop of `write`: the message goes into the free space after the queued bytes, which stay as they were. */
    method CopyIn(message: seq<byte>) returns (wp: nat)
      requires Valid() && |message| <= LOG_BUFFER_SIZE - count - 1
      modifies buffer
      ensures wp == Slot(readPos + count + |message|)
      ensures forall j :: 0 <= j < count ==> buffer[Slot(readPos + j)] == old(Contents())[j]
      ensures forall j :: 0 <= j < |message| ==> buffer[Slot(readPos + count + j)] == message[j]
    {
      ghost var before := Contents();
      wp := writePos;
      var i := 0;
      while i < |message|
        invariant 0 <= i <= |message|
        invariant wp == Slot(readPos + count + i)
        invariant forall j :: 0 <= j < count ==> buffer[Slot(readPos + j)] == before[j]
        invariant forall j :: 0 <= j < i ==> buffer[Slot(readPos + count + j)] == message[j]
      {
        buffer[wp] := message[i];
        wp := (wp + 1) % LOG_BUFFER_SIZE;
        i := i + 1;
      }
    }

    /** Takes up to `maxLen` of the oldest bytes: all of them when fewer are queued, none when the ring is empty. */
    method Read(maxLen: nat) returns (dest: seq<byte>)
      requires Valid()
      modifies this
      ensures Valid()
      ensures |dest| == Min(old(count), maxLen)
      ensures dest == old(Contents())[..|dest|] && Contents() == old(Contents())[|dest|..]
      ensures writePos == old(writePos)
      ensures level == old(level) && forwardEnabled == old(forwardEnabled) && initialized == old(initialized)
    {
      if maxLen == 0 || count == 0 {
        return [];
      }
      ghost var before := Contents();
      var toRead := if count < maxLen then count else maxLen;
      var rp := readPos;
      dest := [];
      var i := 0;
      while i < toRead
        invariant 0 <= i <= toRead
        invariant rp == Slot(readPos + i)
        invariant dest == before[..i]
      {
        dest := dest + [buffer[rp]];
        rp := (rp + 1) % LOG_BUFFER_SIZE;
        i := i + 1;
      }
      ghost var oldRead := readPos;
      readPos := rp;
      count := count - toRead;
      forall j | 0 <= j < count
        ensures Contents()[j] == before[toRead + j]
      {
        assert Slot(rp + j) == Slot(oldRead + toRead + j);
      }
    }

    /**
     * Logs a formatted message at `msgLevel`: nothing happens above the
     * current level; otherwise the text, cut to 95 bytes, is queued (or
     * dropped if it does not fit) and, when both forwarding switches are on,
     * also returned for the ESP32 with its forwarding level.
     */
    method LogMessage(msgLevel: nat, text: seq<byte>, persistedForward: bool) returns (forwarded: Option<(nat, seq<byte>)>)
      requires Valid()
      modifies this, buffer
      ensures Valid() && initialized
      ensures var lvl := if old(initialized) then old(level) else LOG_LEVEL_INFO;
        var fwd := old(initialized) && old(forwardEnabled);
        var msg := Truncated(text);
        if msgLevel > lvl then Contents() == old(Contents()) && forwarded == None
        else
          && Contents() == (if 0 < |msg| <= LOG_BUFFER_SIZE - old(count) - 1 then old(Contents()) + msg else old(Contents()))
          && forwarded == (if fwd && persistedForward then Some((ForwardLevel(msgLevel), msg)) else None)
    {
      if !initialized {
        Init();
      }
      forwarded := None;
      if msgLevel > level {
        return;
      }
      var msg := Truncated(text);
      var _ := Write(msg);
      if forwardEnabled && persistedForward {
        forwarded := Some((ForwardLevel(msgLevel), msg));
      }
    }

    /**
     * Drains the ring in chunks of up to 95 bytes, stopping once it is empty
     * or more than half the ring's size has been read; returns what it printed.
     */
    method ProcessPending() returns (printed: seq<byte>)
      requires Valid()
      modifies this
      ensures Valid()
      ensures printed == old(Contents())[..Min(old(count), 570)]
      ensures Contents() == old(Contents())[Min(old(count), 570)..]
      ensures writePos == old(writePos)
      ensures level == old(level) && forwardEnabled == old(forwardEnabled) && initialized == old(initialized)
    {
      ghost var before := Contents();
      printed := [];
      var total := 0;
      ghost var rounds := 0;
      while true
        invariant Valid() && writePos == old(writePos)
        invariant level == old(level) && forwardEnabled == old(forwardEnabled) && initialized == old(initialized)
        invariant total == |printed| && (total == (LOG_MAX_MESSAGE - 1) * rounds || total == |before|)
        invariant total <= |before| && total <= LOG_BUFFER_SIZE / 2
        invariant printed == before[..total] && Contents() == before[total..]
        decreases count
      {
        var chunk := Read(LOG_MAX_MESSAGE - 1);
        if |chunk| == 0 {
          break;
        }
        printed := printed + chunk;
        total := total + |chunk|;
        rounds := rounds + 1;
        if total > LOG_BUFFER_SIZE / 2 {
          break;
        }
      }
    }
  }
}
