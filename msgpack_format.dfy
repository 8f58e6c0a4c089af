/**
 * The MessagePack encoding the ESP32 uses for its status broadcasts, as
 * functions: the JSON values it packs, their encoding, and a decoder that
 * reads every encoding back.
 */
module MsgPackFormat {
  import opened Wrappers
  import opened Bytes

  /** A JSON value of the document being packed (floating-point numbers are not modelled). */
  datatype Json =
    | Null
    | Bool(b: bool)
    | Int(i: int)
    | Str(s: seq<byte>)
    | Object(members: seq<Member>)
    | Array(items: seq<Json>)

  /** A key/value pair of an object, in the object's iteration order. */
  datatype Member = Member(key: seq<byte>, value: Json)

  const INT32_MIN: int := -0x8000_0000
  const INT32_LIMIT: int := 0x8000_0000

  /** A NUL-terminated string whose `strlen` fits the 32-bit `size_t`. */
  predicate CString(s: seq<byte>) {
    |s| < U32_LIMIT && forall k :: 0 <= k < |s| ==> s[k] != 0
  }

  /**
   * The values the writer meets: integers are `int32_t` or `uint32_t`
   * (wider ones are not integers to the writer), strings are C strings and
   * counts fit 32 bits.
   */
  predicate WellFormed(v: Json)
    decreases v
  {
    match v
    case Null => true
    case Bool(_) => true
    case Int(i) => INT32_MIN <= i < U32_LIMIT
    case Str(s) => CString(s)
    case Object(ms) =>
      |ms| < U32_LIMIT && forall k :: 0 <= k < |ms| ==> CString(ms[k].key) && WellFormed(ms[k].value)
    case Array(items) =>
      |items| < U32_LIMIT && forall k :: 0 <= k < |items| ==> WellFormed(items[k])
  }

  // ---------------------------------------------------------------------------
  // Encoding
  // ---------------------------------------------------------------------------

  /** fixstr (0xA0 | n), str8 (0xD9), str16 (0xDA) or str32 (0xDB), lengths big-endian. */
  function StrHeader(n: nat): (r: seq<byte>)
    requires n < U32_LIMIT
    ensures 1 <= |r| <= 5
  {
    if n <= 31 then [Byte(0xA0 + n)]
    else if n <= 255 then [0xD9, Byte(n)]
    else if n <= 65535 then [0xDA] + BE16(n)
    else [0xDB] + BE32(n)
  }

  function EncodeStr(s: seq<byte>): (r: seq<byte>)
    requires |s| < U32_LIMIT
  {
    StrHeader(|s|) + s
  }

  /** A container header: fix form for up to 15 entries, then the 16- and 32-bit forms. */
  function CountHeader(fix: byte, tag16: byte, tag32: byte, n: nat): (r: seq<byte>)
    requires fix as int + 15 < 0x100 && n < U32_LIMIT
    ensures 1 <= |r| <= 5
  {
    if n <= 15 then [fix + n as byte]
    else if n <= 65535 then [tag16] + BE16(n)
    else [tag32] + BE32(n)
  }

  function MapHeader(n: nat): (r: seq<byte>)
    requires n < U32_LIMIT
    ensures 1 <= |r| <= 5
  {
    CountHeader(0x80, 0xDE, 0xDF, n)
  }

  function ArrayHeader(n: nat): (r: seq<byte>)
    requires n < U32_LIMIT
    ensures 1 <= |r| <= 5
  {
    CountHeader(0x90, 0xDC, 0xDD, n)
  }

  /**
   * An `int32_t`: positive fixint, negative fixint (0xE0 | low five bits),
   * then int8, int16 and int32 in two's complement, big-endian.
   */
  function EncodeInt32(i: int): (r: seq<byte>)
    requires INT32_MIN <= i < INT32_LIMIT
    ensures 1 <= |r| <= 5
  {
    if 0 <= i <= 127 then [Byte(i)]
    else if -32 <= i < 0 then [Byte(0xE0 + (i % 0x20))]
    else if -128 <= i < 128 then [0xD0, Byte(i % 0x100)]
    else if -32768 <= i < 32768 then [0xD1] + BE16(i % U16_LIMIT)
    else [0xD2] + BE32(i % U32_LIMIT)
  }

  /** A `uint32_t`: positive fixint, then uint8, uint16 and uint32, big-endian. */
  function EncodeUint32(u: nat): (r: seq<byte>)
    requires IsU32(u)
    ensures 1 <= |r| <= 5
  {
    if u <= 127 then [Byte(u)]
    else if u <= 255 then [0xCC, Byte(u)]
    else if u <= 65535 then [0xCD] + BE16(u)
    else [0xCE] + BE32(u)
  }

  /** An integer goes the signed way when it fits `int`, else the unsigned way. */
  function EncodeInteger(i: int): (r: seq<byte>)
    requires INT32_MIN <= i < U32_LIMIT
    ensures 1 <= |r| <= 5
  {
    if i < INT32_LIMIT then EncodeInt32(i) else EncodeUint32(i)
  }

  /** The encoding of a value. */
  function Encode(v: Json): (r: seq<byte>)
    requires WellFormed(v)
    ensures |r| >= 1
    decreases v
  {
    match v
    case Null => [0xC0]
    case Bool(b) => [if b then 0xC3 else 0xC2]
    case Int(i) => EncodeInteger(i)
    case Str(s) => EncodeStr(s)
    case Object(_) => EncodeObject(v)
    case Array(_) => EncodeArray(v)
  }

  /** A map header counting the members that are not null, then those members. */
  function EncodeObject(v: Json): (r: seq<byte>)
    requires WellFormed(v) && v.Object?
    decreases v, 2
  {
    MapHeader(PresentFrom(v, 0)) + MembersFrom(v, 0)
  }

  /** An array header, then every item in order. */
  function EncodeArray(v: Json): (r: seq<byte>)
    requires WellFormed(v) && v.Array?
    decreases v, 2
  {
    ArrayHeader(|v.items|) + ItemsFrom(v, 0)
  }

  /** The number of members from `lo` on whose value is not null. */
  function PresentFrom(v: Json, lo: nat): (r: nat)
    requires v.Object? && lo <= |v.members|
    ensures r <= |v.members| - lo
    decreases |v.members| - lo
  {
    if lo == |v.members| then 0
    else (if v.members[lo].value.Null? then 0 else 1) + PresentFrom(v, lo + 1)
  }

  /** The encoding of one member: key then value, or nothing for a null value. */
  function MemberBytes(v: Json, k: nat): (r: seq<byte>)
    requires WellFormed(v) && v.Object? && k < |v.members|
    decreases v, 0
  {
    var m := v.members[k];
    if m.value.Null? then [] else EncodeStr(m.key) + Encode(m.value)
  }

  /** The encoding of the members from `lo` on. */
  function MembersFrom(v: Json, lo: nat): (r: seq<byte>)
    requires WellFormed(v) && v.Object? && lo <= |v.members|
    decreases v, 1, |v.members| - lo
  {
    if lo == |v.members| then [] else MemberBytes(v, lo) + MembersFrom(v, lo + 1)
  }

  /** The encoding of the items from `lo` on. */
  function ItemsFrom(v: Json, lo: nat): (r: seq<byte>)
    requires WellFormed(v) && v.Array? && lo <= |v.items|
    decreases v, 1, |v.items| - lo
  {
    if lo == |v.items| then [] else Encode(v.items[lo]) + ItemsFrom(v, lo + 1)
  }

  // ---------------------------------------------------------------------------
  // What a reader sees: null members dropped
  // ---------------------------------------------------------------------------

  /** The value a reader of the encoding sees: objects lose their null-valued members. */
  function Dropped(v: Json): (r: Json)
    requires WellFormed(v)
    decreases v
  {
    match v
    case Object(_) => Object(DroppedFrom(v, 0))
    case Array(_) => Array(DroppedItemsFrom(v, 0))
    case _ => v
  }

  function DroppedFrom(v: Json, lo: nat): (r: seq<Member>)
    requires WellFormed(v) && v.Object? && lo <= |v.members|
    ensures |r| == PresentFrom(v, lo)
    ensures forall k :: 0 <= k < |r| ==> !r[k].value.Null?
    decreases v, |v.members| - lo
  {
    if lo == |v.members| then []
    else
      var m := v.members[lo];
      if m.value.Null? then DroppedFrom(v, lo + 1)
      else [Member(m.key, Dropped(m.value))] + DroppedFrom(v, lo + 1)
  }

  function DroppedItemsFrom(v: Json, lo: nat): (r: seq<Json>)
    requires WellFormed(v) && v.Array? && lo <= |v.items|
    ensures |r| == |v.items| - lo
    decreases v, |v.items| - lo
  {
    if lo == |v.items| then [] else [Dropped(v.items[lo])] + DroppedItemsFrom(v, lo + 1)
  }

  // ---------------------------------------------------------------------------
  // Decoding, at a position of a byte sequence
  // ---------------------------------------------------------------------------

  function Signed8(x: nat): int { if x >= 0x80 then x - 0x100 else x }
  function Signed16(x: nat): int { if x >= 0x8000 then x - U16_LIMIT else x }
  function Signed32(x: nat): int { if x >= INT32_LIMIT then x - U32_LIMIT else x }

  /** The bytes `e` sit in `s` from position `p` on. */
  predicate At(s: seq<byte>, p: nat, e: seq<byte>) {
    p + |e| <= |s| && forall i :: 0 <= i < |e| ==> s[p + i] == e[i]
  }

  lemma AtSplit(s: seq<byte>, p: nat, a: seq<byte>, b: seq<byte>)
    requires At(s, p, a + b)
    ensures At(s, p, a) && At(s, p + |a|, b)
  {
    assert forall i :: 0 <= i < |a| ==> (a + b)[i] == a[i];
    assert forall i :: 0 <= i < |b| ==> (a + b)[|a| + i] == b[i];
  }

  lemma AtSlice(s: seq<byte>, p: nat, e: seq<byte>)
    requires At(s, p, e)
    ensures s[p..p + |e|] == e
  {
  }

  /** A tag byte then a body: the tag is at `p` and the body right after it. */
  lemma AtTagged(s: seq<byte>, p: nat, t: byte, b: seq<byte>)
    requires At(s, p, [t] + b)
    ensures p < |s| && s[p] == t && s[p + 1..p + 1 + |b|] == b
  {
    assert s[p + 0] == ([t] + b)[0];
    AtSplit(s, p, [t], b);
    AtSlice(s, p + 1, b);
  }

  /** The length in a string header at `p`, and where the contents start. */
  function StrLength(s: seq<byte>, p: nat): (r: Option<(nat, nat)>)
    requires p < |s|
    ensures r.Some? ==> p < r.value.1 <= |s|
  {
    var t := s[p];
    if 0xA0 <= t <= 0xBF then Some(((t - 0xA0) as nat, p + 1))
    else if t == 0xD9 && p + 2 <= |s| then Some((s[p + 1] as nat, p + 2))
    else if t == 0xDA && p + 3 <= |s| then Some((DecodeBE16(s[p + 1..p + 3]), p + 3))
    else if t == 0xDB && p + 5 <= |s| then Some((DecodeBE32(s[p + 1..p + 5]), p + 5))
    else None
  }

  /** A string at `p`, and the position after it. */
  function DecodeStr(s: seq<byte>, p: nat): (r: Option<(seq<byte>, nat)>)
    requires p <= |s|
    ensures r.Some? ==> p < r.value.1 <= |s|
  {
    if p == |s| then None
    else
      match StrLength(s, p)
      case None => None
      case Some((n, q)) => if q + n > |s| then None else Some((s[q..q + n], q + n))
  }

  /** A container header with the given tags at `p`: the count and the position after it. */
  function DecodeCount(s: seq<byte>, p: nat, fix: byte, tag16: byte, tag32: byte): (r: Option<(nat, nat)>)
    requires p <= |s| && fix as int + 15 < 0x100
    ensures r.Some? ==> p < r.value.1 <= |s|
  {
    if p == |s| then None
    else if fix <= s[p] <= fix + 15 then Some(((s[p] - fix) as nat, p + 1))
    else if s[p] == tag16 && p + 3 <= |s| then Some((DecodeBE16(s[p + 1..p + 3]), p + 3))
    else if s[p] == tag32 && p + 5 <= |s| then Some((DecodeBE32(s[p + 1..p + 5]), p + 5))
    else None
  }

  /** A scalar (nil, boolean or integer) at `p`. */
  function DecodeScalar(s: seq<byte>, p: nat): (r: Option<(Json, nat)>)
    requires p < |s|
    ensures r.Some? ==> p < r.value.1 <= |s|
  {
    var t := s[p];
    if t == 0xC0 then Some((Null, p + 1))
    else if t == 0xC2 then Some((Bool(false), p + 1))
    else if t == 0xC3 then Some((Bool(true), p + 1))
    else if t <= 0x7F then Some((Int(t as int), p + 1))
    else if t >= 0xE0 then Some((Int(t as int - 0x100), p + 1))
    else if t == 0xD0 && p + 2 <= |s| then Some((Int(Signed8(s[p + 1] as nat)), p + 2))
    else if t == 0xD1 && p + 3 <= |s| then Some((Int(Signed16(DecodeBE16(s[p + 1..p + 3]))), p + 3))
    else if t == 0xD2 && p + 5 <= |s| then Some((Int(Signed32(DecodeBE32(s[p + 1..p + 5]))), p + 5))
    else if t == 0xCC && p + 2 <= |s| then Some((Int(s[p + 1] as int), p + 2))
    else if t == 0xCD && p + 3 <= |s| then Some((Int(DecodeBE16(s[p + 1..p + 3])), p + 3))
    else if t == 0xCE && p + 5 <= |s| then Some((Int(DecodeBE32(s[p + 1..p + 5])), p + 5))
    else None
  }

  /** A value at `p`, and the position after it. */
  function DecodeValue(s: seq<byte>, p: nat): (r: Option<(Json, nat)>)
    requires p <= |s|
    ensures r.Some? ==> p < r.value.1 <= |s|
    decreases |s| - p, 1
  {
    if p == |s| then None
    else if 0xA0 <= s[p] <= 0xBF || 0xD9 <= s[p] <= 0xDB then
      match DecodeStr(s, p)
      case None => None
      case Some((str, q)) => Some((Str(str), q))
    else if 0x80 <= s[p] <= 0x8F || s[p] == 0xDE || s[p] == 0xDF then DecodeObject(s, p)
    else if 0x90 <= s[p] <= 0x9F || s[p] == 0xDC || s[p] == 0xDD then DecodeArray(s, p)
    else DecodeScalar(s, p)
  }

  /** A map header, then as many pairs as it counts. */
  function DecodeObject(s: seq<byte>, p: nat): (r: Option<(Json, nat)>)
    requires p <= |s|
    ensures r.Some? ==> p < r.value.1 <= |s|
    decreases |s| - p, 0
  {
    match DecodeCount(s, p, 0x80, 0xDE, 0xDF)
    case None => None
    case Some((n, q)) =>
      match DecodeMembers(s, q, n)
      case None => None
      case Some((ms, q')) => Some((Object(ms), q'))
  }

  /** An array header, then as many values as it counts. */
  function DecodeArray(s: seq<byte>, p: nat): (r: Option<(Json, nat)>)
    requires p <= |s|
    ensures r.Some? ==> p < r.value.1 <= |s|
    decreases |s| - p, 0
  {
    match DecodeCount(s, p, 0x90, 0xDC, 0xDD)
    case None => None
    case Some((n, q)) =>
      match DecodeItems(s, q, n)
      case None => None
      case Some((items, q')) => Some((Array(items), q'))
  }

  /** A key/value pair at `p`. */
  function DecodePair(s: seq<byte>, p: nat): (r: Option<(Member, nat)>)
    requires p <= |s|
    ensures r.Some? ==> p < r.value.1 <= |s|
    decreases |s| - p, 0
  {
    match DecodeStr(s, p)
    case None => None
    case Some((key, q)) =>
      match DecodeValue(s, q)
      case None => None
      case Some((value, q')) => Some((Member(key, value), q'))
  }

  /** `n` key/value pairs from `p` on. */
  function DecodeMembers(s: seq<byte>, p: nat, n: nat): (r: Option<(seq<Member>, nat)>)
    requires p <= |s|
    ensures r.Some? ==> p <= r.value.1 <= |s|
    decreases |s| - p, 2, n
  {
    if n == 0 then Some(([], p))
    else
      match DecodePair(s, p)
      case None => None
      case Some((m, q)) =>
        match DecodeMembers(s, q, n - 1)
        case None => None
        case Some((rest, q')) => Some(([m] + rest, q'))
  }

  /** `n` values from `p` on. */
  function DecodeItems(s: seq<byte>, p: nat, n: nat): (r: Option<(seq<Json>, nat)>)
    requires p <= |s|
    ensures r.Some? ==> p <= r.value.1 <= |s|
    decreases |s| - p, 2, n
  {
    if n == 0 then Some(([], p))
    else
      match DecodeValue(s, p)
      case None => None
      case Some((value, q)) =>
        match DecodeItems(s, q, n - 1)
        case None => None
        case Some((rest, q')) => Some(([value] + rest, q'))
  }

  // ---------------------------------------------------------------------------
  // Round trips
  // ---------------------------------------------------------------------------

  lemma StrRoundTrip(key: seq<byte>, s: seq<byte>, p: nat)
    requires |key| < U32_LIMIT && At(s, p, EncodeStr(key))
    ensures DecodeStr(s, p) == Some((key, p + |EncodeStr(key)|))
  {
    var n := |key|;
    var h := StrHeader(n);
    AtSplit(s, p, h, key);
    AtSlice(s, p + |h|, key);
    if n <= 31 {
      AtTagged(s, p, Byte(0xA0 + n), []);
    } else if n <= 255 {
      assert h == [0xD9] + [Byte(n)];
      AtTagged(s, p, 0xD9, [Byte(n)]);
    } else if n <= 65535 {
      AtTagged(s, p, 0xDA, BE16(n));
      BE16RoundTrip(n);
    } else {
      AtTagged(s, p, 0xDB, BE32(n));
      BE32RoundTrip(n);
    }
  }

  lemma CountRoundTrip(fix: byte, tag16: byte, tag32: byte, n: nat, s: seq<byte>, p: nat)
    requires fix as int + 15 < 0x100 && n < U32_LIMIT
    requires !(fix <= tag16 <= fix + 15) && !(fix <= tag32 <= fix + 15) && tag16 != tag32
    requires At(s, p, CountHeader(fix, tag16, tag32, n))
    ensures DecodeCount(s, p, fix, tag16, tag32) == Some((n, p + |CountHeader(fix, tag16, tag32, n)|))
  {
    if n <= 15 {
      AtTagged(s, p, fix + n as byte, []);
    } else if n <= 65535 {
      AtTagged(s, p, tag16, BE16(n));
      BE16RoundTrip(n);
    } else {
      AtTagged(s, p, tag32, BE32(n));
      BE32RoundTrip(n);
    }
  }

  lemma Int16RoundTrip(i: int, s: seq<byte>, p: nat)
    requires (128 <= i < 32768 || -32768 <= i < -128) && At(s, p, EncodeInt32(i))
    ensures DecodeScalar(s, p) == Some((Int(i), p + 3))
  {
    AtTagged(s, p, 0xD1, BE16(i % U16_LIMIT));
    BE16RoundTrip(i % U16_LIMIT);
  }

  lemma Int32WideRoundTrip(i: int, s: seq<byte>, p: nat)
    requires (INT32_MIN <= i < -32768 || 32768 <= i < INT32_LIMIT) && At(s, p, EncodeInt32(i))
    ensures DecodeScalar(s, p) == Some((Int(i), p + 5))
  {
    AtTagged(s, p, 0xD2, BE32(i % U32_LIMIT));
    BE32RoundTrip(i % U32_LIMIT);
  }

  lemma Uint32RoundTrip(u: nat, s: seq<byte>, p: nat)
    requires INT32_LIMIT <= u < U32_LIMIT && At(s, p, EncodeUint32(u))
    ensures DecodeScalar(s, p) == Some((Int(u), p + 5))
  {
    AtTagged(s, p, 0xCE, BE32(u));
    BE32RoundTrip(u);
  }

  lemma IntegerRoundTrip(i: int, s: seq<byte>, p: nat)
    requires INT32_MIN <= i < U32_LIMIT && At(s, p, EncodeInteger(i))
    ensures DecodeScalar(s, p) == Some((Int(i), p + |EncodeInteger(i)|))
  {
    if i >= INT32_LIMIT {
      Uint32RoundTrip(i, s, p);
    } else if 0 <= i <= 127 {
      AtTagged(s, p, Byte(i), []);
    } else if -32 <= i < 0 {
      AtTagged(s, p, Byte(0xE0 + (i % 0x20)), []);
    } else if -128 <= i < 128 {
      assert EncodeInteger(i) == [0xD0] + [Byte(i % 0x100)];
      AtTagged(s, p, 0xD0, [Byte(i % 0x100)]);
    } else if -32768 <= i < 32768 {
      Int16RoundTrip(i, s, p);
    } else {
      Int32WideRoundTrip(i, s, p);
    }
  }

  /** Every value decodes back from its encoding, wherever it sits, as a reader sees it. */
  lemma {:induction false} RoundTrip(v: Json, s: seq<byte>, p: nat)
    requires WellFormed(v) && At(s, p, Encode(v))
    ensures DecodeValue(s, p) == Some((Dropped(v), p + |Encode(v)|))
    decreases v
  {
    match v
    case Null =>
      AtTagged(s, p, 0xC0, []);
    case Bool(b) =>
      AtTagged(s, p, if b then 0xC3 else 0xC2, []);
    case Int(i) =>
      IntegerRoundTrip(i, s, p);
    case Str(str) =>
      StrRoundTrip(str, s, p);
    case Object(_) =>
      ObjectRoundTrip(v, s, p);
    case Array(_) =>
      ArrayRoundTrip(v, s, p);
  }

  lemma {:induction false} ObjectRoundTrip(v: Json, s: seq<byte>, p: nat)
    requires WellFormed(v) && v.Object? && At(s, p, EncodeObject(v))
    ensures DecodeObject(s, p) == Some((Object(DroppedFrom(v, 0)), p + |EncodeObject(v)|))
    decreases v, 2
  {
    var n := PresentFrom(v, 0);
    var h := MapHeader(n);
    var body := MembersFrom(v, 0);
    assert EncodeObject(v) == h + body;
    AtSplit(s, p, h, body);
    CountRoundTrip(0x80, 0xDE, 0xDF, n, s, p);
    var q := p + |h|;
    MembersRoundTrip(v, 0, s, q);
    assert DecodeCount(s, p, 0x80, 0xDE, 0xDF) == Some((n, q));
    assert DecodeMembers(s, q, n) == Some((DroppedFrom(v, 0), q + |body|));
  }

  lemma {:induction false} ArrayRoundTrip(v: Json, s: seq<byte>, p: nat)
    requires WellFormed(v) && v.Array? && At(s, p, EncodeArray(v))
    ensures DecodeArray(s, p) == Some((Array(DroppedItemsFrom(v, 0)), p + |EncodeArray(v)|))
    decreases v, 2
  {
    var h := ArrayHeader(|v.items|);
    AtSplit(s, p, h, ItemsFrom(v, 0));
    CountRoundTrip(0x90, 0xDC, 0xDD, |v.items|, s, p);
    ItemsRoundTrip(v, 0, s, p + |h|);
  }

  /** A null member adds nothing to the encoding, the count or what a reader sees. */
  lemma MembersSkipNull(v: Json, lo: nat)
    requires WellFormed(v) && v.Object? && lo < |v.members| && v.members[lo].value.Null?
    ensures MembersFrom(v, lo) == MembersFrom(v, lo + 1)
    ensures PresentFrom(v, lo) == PresentFrom(v, lo + 1)
    ensures DroppedFrom(v, lo) == DroppedFrom(v, lo + 1)
  {
    assert MemberBytes(v, lo) == [];
  }

  /** The members from a non-null one on: its key and value, then the rest. */
  lemma MembersUnfold(v: Json, lo: nat)
    requires WellFormed(v) && v.Object? && lo < |v.members| && !v.members[lo].value.Null?
    ensures MembersFrom(v, lo) == MemberBytes(v, lo) + MembersFrom(v, lo + 1)
    ensures PresentFrom(v, lo) == PresentFrom(v, lo + 1) + 1
    ensures DroppedFrom(v, lo) == [Member(v.members[lo].key, Dropped(v.members[lo].value))] + DroppedFrom(v, lo + 1)
  {
  }

  /** A present member decodes back as one key/value pair. */
  lemma {:induction false} PairRoundTrip(v: Json, k: nat, s: seq<byte>, p: nat)
    requires WellFormed(v) && v.Object? && k < |v.members| && !v.members[k].value.Null?
    requires At(s, p, MemberBytes(v, k))
    ensures DecodePair(s, p) == Some((Member(v.members[k].key, Dropped(v.members[k].value)), p + |MemberBytes(v, k)|))
    decreases v, 0
  {
    var m := v.members[k];
    var ks := EncodeStr(m.key);
    AtSplit(s, p, ks, Encode(m.value));
    StrRoundTrip(m.key, s, p);
    RoundTrip(m.value, s, p + |ks|);
  }

  /** One pair, then `n` more, is `n + 1` pairs. */
  lemma MembersStep(s: seq<byte>, p: nat, m: Member, q: nat, n: nat, rest: seq<Member>, end: nat)
    requires p <= |s| && DecodePair(s, p) == Some((m, q))
    requires DecodeMembers(s, q, n) == Some((rest, end))
    ensures DecodeMembers(s, p, n + 1) == Some(([m] + rest, end))
  {
  }

  lemma {:induction false} MembersRoundTrip(v: Json, lo: nat, s: seq<byte>, p: nat)
    requires WellFormed(v) && v.Object? && lo <= |v.members| && At(s, p, MembersFrom(v, lo))
    ensures DecodeMembers(s, p, PresentFrom(v, lo)) == Some((DroppedFrom(v, lo), p + |MembersFrom(v, lo)|))
    decreases v, 1, |v.members| - lo, 2
  {
    if lo < |v.members| {
      if v.members[lo].value.Null? {
        NullMemberRoundTrip(v, lo, s, p);
      } else {
        PresentMemberRoundTrip(v, lo, s, p);
      }
    }
  }

  lemma {:induction false} NullMemberRoundTrip(v: Json, lo: nat, s: seq<byte>, p: nat)
    requires WellFormed(v) && v.Object? && lo < |v.members| && v.members[lo].value.Null?
    requires At(s, p, MembersFrom(v, lo))
    ensures DecodeMembers(s, p, PresentFrom(v, lo)) == Some((DroppedFrom(v, lo), p + |MembersFrom(v, lo)|))
    decreases v, 1, |v.members| - lo, 0
  {
    MembersSkipNull(v, lo);
    MembersRoundTrip(v, lo + 1, s, p);
  }

  lemma {:induction false} PresentMemberRoundTrip(v: Json, lo: nat, s: seq<byte>, p: nat)
    requires WellFormed(v) && v.Object? && lo < |v.members| && !v.members[lo].value.Null?
    requires At(s, p, MembersFrom(v, lo))
    ensures DecodeMembers(s, p, PresentFrom(v, lo)) == Some((DroppedFrom(v, lo), p + |MembersFrom(v, lo)|))
    decreases v, 1, |v.members| - lo, 1
  {
    HeadPair(v, lo, s, p);
    TailMembers(v, lo, s, p);
    PresentStep(v, lo, s, p, p + |MemberBytes(v, lo)|, p + |MembersFrom(v, lo)|);
  }

  /** A present member's pair, ending at `q`, then the members after it, ending at `end`,
      are the members from it on. */
  lemma PresentStep(v: Json, lo: nat, s: seq<byte>, p: nat, q: nat, end: nat)
    requires WellFormed(v) && v.Object? && lo < |v.members| && !v.members[lo].value.Null?
    requires p <= |s|
    requires DecodePair(s, p) == Some((Member(v.members[lo].key, Dropped(v.members[lo].value)), q))
    requires DecodeMembers(s, q, PresentFrom(v, lo + 1)) == Some((DroppedFrom(v, lo + 1), end))
    ensures DecodeMembers(s, p, PresentFrom(v, lo)) == Some((DroppedFrom(v, lo), end))
  {
    MembersStep(s, p, Member(v.members[lo].key, Dropped(v.members[lo].value)), q,
                PresentFrom(v, lo + 1), DroppedFrom(v, lo + 1), end);
  }

  /** The first of the members from a present one on decodes as its pair. */
  lemma {:induction false} HeadPair(v: Json, lo: nat, s: seq<byte>, p: nat)
    requires WellFormed(v) && v.Object? && lo < |v.members| && !v.members[lo].value.Null?
    requires At(s, p, MembersFrom(v, lo))
    ensures DecodePair(s, p) == Some((Member(v.members[lo].key, Dropped(v.members[lo].value)), p + |MemberBytes(v, lo)|))
    decreases v, 1, |v.members| - lo, 0
  {
    MembersUnfold(v, lo);
    AtSplit(s, p, MemberBytes(v, lo), MembersFrom(v, lo + 1));
    PairRoundTrip(v, lo, s, p);
  }

  /** The members after a present one decode from just past its pair. */
  lemma {:induction false} TailMembers(v: Json, lo: nat, s: seq<byte>, p: nat)
    requires WellFormed(v) && v.Object? && lo < |v.members| && !v.members[lo].value.Null?
    requires At(s, p, MembersFrom(v, lo))
    ensures p <= |s|
    ensures DecodeMembers(s, p + |MemberBytes(v, lo)|, PresentFrom(v, lo + 1))
         == Some((DroppedFrom(v, lo + 1), p + |MembersFrom(v, lo)|))
    decreases v, 1, |v.members| - lo, 0
  {
    MembersUnfold(v, lo);
    AtSplit(s, p, MemberBytes(v, lo), MembersFrom(v, lo + 1));
    MembersRoundTrip(v, lo + 1, s, p + |MemberBytes(v, lo)|);
  }

  lemma {:induction false} ItemsRoundTrip(v: Json, lo: nat, s: seq<byte>, p: nat)
    requires WellFormed(v) && v.Array? && lo <= |v.items| && At(s, p, ItemsFrom(v, lo))
    ensures DecodeItems(s, p, |v.items| - lo) == Some((DroppedItemsFrom(v, lo), p + |ItemsFrom(v, lo)|))
    decreases v, 1, |v.items| - lo
  {
    if lo < |v.items| {
      var val := Encode(v.items[lo]);
      AtSplit(s, p, val, ItemsFrom(v, lo + 1));
      RoundTrip(v.items[lo], s, p);
      ItemsRoundTrip(v, lo + 1, s, p + |val|);
    }
  }

  /** A whole encoding decodes to the value a reader sees, taking every byte. */
  lemma Decodes(v: Json)
    requires WellFormed(v)
    ensures DecodeValue(Encode(v), 0) == Some((Dropped(v), |Encode(v)|))
  {
    RoundTrip(v, Encode(v), 0);
  }
}
