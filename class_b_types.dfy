/**
 * The result codes of the Pico's IEC 60730 Class B self-tests and the
 * human-readable text the firmware logs for each.
 */
module ClassBTypes {
  import opened Wrappers

  /** `class_b_result_t`, in declaration order (PASS is 0). */
  datatype ClassBResult =
    | Pass
    | FailRam
    | FailFlash
    | FailCpu
    | FailIo
    | FailClock
    | FailStack
    | FailPc
    | NotInitialized

  const ALL_RESULTS: seq<ClassBResult> :=
    [Pass, FailRam, FailFlash, FailCpu, FailIo, FailClock, FailStack, FailPc, NotInitialized]

  /** The numeric value of a result: its position in the C enum. */
  function Code(r: ClassBResult): (c: nat)
    ensures c < |ALL_RESULTS| && ALL_RESULTS[c] == r
  {
    match r
    case Pass => 0
    case FailRam => 1
    case FailFlash => 2
    case FailCpu => 3
    case FailIo => 4
    case FailClock => 5
    case FailStack => 6
    case FailPc => 7
    case NotInitialized => 8
  }

  /** The enum value with a given number, if there is one. */
  function FromCode(c: int): (r: Option<ClassBResult>)
    ensures r.Some? <==> 0 <= c < |ALL_RESULTS|
    ensures r.Some? ==> Code(r.value) == c
  {
    if 0 <= c < |ALL_RESULTS| then Some(ALL_RESULTS[c]) else None
  }

  lemma CodeRoundTrip(r: ClassBResult)
    ensures FromCode(Code(r)) == Some(r)
  {
  }

  /** `class_b_result_string`: the text for a result code, "Unknown error" for any other number. */
  function ResultText(c: int): (s: string)
    ensures FromCode(c).None? <==> s == "Unknown error"
  {
    if c == 0 then "PASS"
    else if c == 1 then "RAM test failed"
    else if c == 2 then "Flash CRC mismatch"
    else if c == 3 then "CPU register test failed"
    else if c == 4 then "I/O verification failed"
    else if c == 5 then "Clock frequency error"
    else if c == 6 then "Stack overflow detected"
    else if c == 7 then "Program counter test failed"
    else if c == 8 then "Not initialized"
    else "Unknown error"
  }

  /** Every result has its own text: a logged text names the failing test. */
  lemma ResultTextDistinct(r1: ClassBResult, r2: ClassBResult)
    requires ResultText(Code(r1)) == ResultText(Code(r2))
    ensures r1 == r2
  {
  }
}
