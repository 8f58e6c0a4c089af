/**
 * The ESP32's MessagePack writer: bytes go into a caller's buffer at an
 * in/out offset, every write checks the room left first, and multi-byte
 * numbers are copied little-endian and then swapped in place to big-endian.
 * Each packer is proved to write exactly the encoding `MsgPackFormat.Encode`
 * defines, or to report 0 exactly when that encoding does not fit.
 */
module MsgPackWriter {
  import opened Wrappers
  import opened Bytes
  import opened MsgPackFormat

  // ---------------------------------------------------------------------------
  // What a write does to the buffer
  // ---------------------------------------------------------------------------

  /** `s` back to front: what the in-place swap makes of a little-endian word. */
  function Reversed(s: seq<byte>): (r: seq<byte>)
    ensures |r| == |s|
  {
    seq(|s|, k requires 0 <= k < |s| => s[|s| - 1 - k])
  }

  lemma ReversedAppend(a: seq<byte>, b: seq<byte>)
    ensures Reversed(a + b) == Reversed(b) + Reversed(a)
  {
    var r := Reversed(a + b);
    forall k | 0 <= k < |r|
      ensures r[k] == (Reversed(b) + Reversed(a))[k]
    {
      if k < |b| {
        assert r[k] == (a + b)[|a| + |b| - 1 - k] == b[|b| - 1 - k];
      } else {
        assert r[k] == (a + b)[|a| + |b| - 1 - k] == a[|a| - 1 - (k - |b|)];
      }
    }
  }

  /** A 16-bit word stored little-endian and swapped is the big-endian word. */
  lemma SwappedLE16(x: nat)
    requires IsU16(x)
    ensures Reversed(LE16(x)) == BE16(x)
  {
    assert Reversed(LE16(x))[0] == LE16(x)[1];
  }

  /** A 32-bit word stored little-endian and swapped is the big-endian word. */
  lemma SwappedLE32(x: nat)
    requires IsU32(x)
    ensures Reversed(LE32(x)) == BE32(x)
  {
    ReversedAppend(LE16(x % U16_LIMIT), LE16(x / U16_LIMIT));
    SwappedLE16(x % U16_LIMIT);
    SwappedLE16(x / U16_LIMIT);
  }

  /** `after` is `before` with `e` written at `pos`, and nothing else changed. */
  predicate Wrote(before: seq<byte>, after: seq<byte>, pos: nat, e: seq<byte>) {
    |after| == |before| && At(after, pos, e)
    && forall i :: 0 <= i < |after| && !(pos <= i < pos + |e|) ==> after[i] == before[i]
  }

  /** Nothing before `pos` changed. */
  predicate Kept(before: seq<byte>, after: seq<byte>, pos: nat) {
    |after| == |before| && forall i :: 0 <= i < pos && i < |after| ==> after[i] == before[i]
  }

  /**
   * The outcome of writing `e` at `pos`: it succeeds exactly when `e` fits,
   * and then the new offset is just past `e`, which is in place; either way
   * the bytes before `pos` are untouched and the offset stays in the buffer.
   */
  predicate WriteOutcome(before: seq<byte>, after: seq<byte>, pos: nat, e: seq<byte>, ok: bool, end: nat) {
    pos <= end <= |after| && Kept(before, after, pos)
    && (ok <==> pos + |e| <= |after|)
    && (ok ==> end == pos + |e| && Wrote(before, after, pos, e))
  }

  /** The outcome of a packer: the byte count it reports is 0 on failure, else the length written. */
  predicate Packed(before: seq<byte>, after: seq<byte>, pos: nat, e: seq<byte>, written: nat, end: nat) {
    WriteOutcome(before, after, pos, e, written > 0, end) && (written > 0 ==> written == |e|)
  }

  lemma WroteThen(a: seq<byte>, b: seq<byte>, c: seq<byte>, p: nat, e1: seq<byte>, e2: seq<byte>)
    requires Wrote(a, b, p, e1) && Wrote(b, c, p + |e1|, e2)
    ensures Wrote(a, c, p, e1 + e2)
  {
    forall i | 0 <= i < |e1 + e2|
      ensures c[p + i] == (e1 + e2)[i]
    {
      if i < |e1| {
        assert c[p + i] == b[p + i];
      } else {
        assert c[p + |e1| + (i - |e1|)] == e2[i - |e1|];
      }
    }
  }

  /** A successful write followed by another write is the write of both. */
  lemma Sequenced(a: seq<byte>, b: seq<byte>, c: seq<byte>, pos: nat, e1: seq<byte>, e2: seq<byte>,
                  mid: nat, ok: bool, end: nat)
    requires WriteOutcome(a, b, pos, e1, true, mid)
    requires WriteOutcome(b, c, mid, e2, ok, end)
    ensures WriteOutcome(a, c, pos, e1 + e2, ok, end)
  {
    if ok {
      WroteThen(a, b, c, pos, e1, e2);
    }
  }

  /** A failed write stays a failure for anything longer that starts where it started. */
  lemma Overflow(a: seq<byte>, b: seq<byte>, pos: nat, e: seq<byte>, whole: seq<byte>, end: nat)
    requires WriteOutcome(a, b, pos, e, false, end) && |e| <= |whole|
    ensures WriteOutcome(a, b, pos, whole, false, end)
  {
  }

  /** Writing over part of what was just written. */
  lemma Overwrote(a: seq<byte>, b: seq<byte>, c: seq<byte>, p: nat, e: seq<byte>, q: nat, f: seq<byte>)
    requires Wrote(a, b, p, e) && Wrote(b, c, q, f) && p <= q && q + |f| <= p + |e|
    ensures Wrote(a, c, p, e[..q - p] + f + e[q - p + |f|..])
  {
    var g := e[..q - p] + f + e[q - p + |f|..];
    forall i | 0 <= i < |g|
      ensures c[p + i] == g[i]
    {
      if i < q - p {
        assert c[p + i] == b[p + i];
      } else if i < q - p + |f| {
        assert c[q + (i - (q - p))] == f[i - (q - p)];
      } else {
        assert c[p + i] == b[p + i];
      }
    }
  }

  /** Moving the next piece of a loop's output from what is left to what is done. */
  lemma Regroup(header: seq<byte>, done: seq<byte>, next: seq<byte>, rest: seq<byte>)
    ensures header + done + (next + rest) == header + (done + next) + rest
    ensures header + done + next == header + (done + next)
  {
  }

  // ---------------------------------------------------------------------------
  // Raw writes (msgpack_helper.cpp writeBytes, writeByte)
  // ---------------------------------------------------------------------------

  /** Copies `data` to `pos` when it fits; otherwise writes nothing. */
  method WriteBytes(buffer: array<byte>, data: seq<byte>, pos: nat) returns (ok: bool, end: nat)
    requires pos <= buffer.Length
    modifies buffer
    ensures WriteOutcome(old(buffer[..]), buffer[..], pos, data, ok, end)
    ensures !ok ==> buffer[..] == old(buffer[..]) && end == pos
  {
    if pos + |data| > buffer.Length {
      return false, pos;
    }
    forall i | 0 <= i < |data| {
      buffer[pos + i] := data[i];
    }
    return true, pos + |data|;
  }

  /** Stores one byte at `pos` when there is room; otherwise writes nothing. */
  method WriteByte(buffer: array<byte>, b: byte, pos: nat) returns (ok: bool, end: nat)
    requires pos <= buffer.Length
    modifies buffer
    ensures WriteOutcome(old(buffer[..]), buffer[..], pos, [b], ok, end)
    ensures !ok ==> buffer[..] == old(buffer[..]) && end == pos
  {
    if pos >= buffer.Length {
      return false, pos;
    }
    buffer[pos] := b;
    return true, pos + 1;
  }

  /**
   * Byte `j` of the buffer once the first `i` pairs of the `width` bytes from
   * `at` have been swapped: mirrored inside the swapped pairs, as before elsewhere.
   */
  function Swapping(before: seq<byte>, at: nat, width: nat, i: nat, j: nat): byte
    requires at + width <= |before| && j < |before| && i <= width / 2
  {
    if at <= j < at + i || at + width - i <= j < at + width then before[2 * at + width - 1 - j] else before[j]
  }

  /** Reverses the `width` bytes from `at` in place: a little-endian word becomes big-endian. */
  method ToBigEndian(buffer: array<byte>, at: nat, width: nat)
    requires at + width <= buffer.Length
    modifies buffer
    ensures Wrote(old(buffer[..]), buffer[..], at, Reversed(old(buffer[at..at + width])))
  {
    ghost var before := buffer[..];
    var i := 0;
    while i < width / 2
      invariant 0 <= i <= width / 2
      invariant forall j :: 0 <= j < buffer.Length ==> buffer[j] == Swapping(before, at, width, i, j)
    {
      var tmp := buffer[at + i];
      buffer[at + i] := buffer[at + width - 1 - i];
      buffer[at + width - 1 - i] := tmp;
      i := i + 1;
    }
    ghost var e := Reversed(before[at..at + width]);
    forall k | 0 <= k < width
      ensures buffer[at + k] == e[k]
    {
      assert buffer[at + k] == Swapping(before, at, width, i, at + k);
    }
  }

  /** A tag byte, then a word copied little-endian and swapped: the tag and the big-endian word. */
  method WriteTaggedWord(buffer: array<byte>, tag: byte, le: seq<byte>, pos: nat) returns (ok: bool, end: nat)
    requires pos <= buffer.Length
    modifies buffer
    ensures WriteOutcome(old(buffer[..]), buffer[..], pos, [tag] + Reversed(le), ok, end)
  {
    ghost var before := buffer[..];
    ok, end := WriteByte(buffer, tag, pos);
    if !ok {
      return;
    }
    ghost var mid := buffer[..];
    var start := end;
    ok, end := WriteBytes(buffer, le, start);
    Sequenced(before, mid, buffer[..], pos, [tag], le, start, ok, end);
    if !ok {
      return;
    }
    ghost var copied := buffer[..];
    AtSlice(copied, start, le);
    ToBigEndian(buffer, start, |le|);
    Overwrote(before, copied, buffer[..], pos, [tag] + le, pos + 1, Reversed(le));
    assert ([tag] + le)[..1] + Reversed(le) + ([tag] + le)[1 + |le|..] == [tag] + Reversed(le);
  }

  /** Two single-byte writes: a tag, then one payload byte. */
  method WriteTagged8(buffer: array<byte>, tag: byte, b: byte, pos: nat) returns (ok: bool, end: nat)
    requires pos <= buffer.Length
    modifies buffer
    ensures WriteOutcome(old(buffer[..]), buffer[..], pos, [tag, b], ok, end)
  {
    ghost var before := buffer[..];
    ok, end := WriteByte(buffer, tag, pos);
    if !ok {
      return;
    }
    ghost var mid := buffer[..];
    var start := end;
    ok, end := WriteByte(buffer, b, start);
    Sequenced(before, mid, buffer[..], pos, [tag], [b], start, ok, end);
    assert [tag] + [b] == [tag, b];
  }

  // ---------------------------------------------------------------------------
  // Packers (msgpack_helper.cpp packString, packValue, packObject, packArray)
  // ---------------------------------------------------------------------------

  /** What `packString` writes: nil for a null pointer, else the string. */
  function StringEncoding(str: Option<seq<byte>>): (r: seq<byte>)
    requires str.Some? ==> CString(str.value)
  {
    match str
    case None => [0xC0]
    case Some(s) => EncodeStr(s)
  }

  /** The header of a string of `n` bytes: fixstr, str8, str16 or str32. */
  method WriteStrHeader(buffer: array<byte>, n: nat, pos: nat) returns (ok: bool, end: nat)
    requires n < U32_LIMIT && pos <= buffer.Length
    modifies buffer
    ensures WriteOutcome(old(buffer[..]), buffer[..], pos, StrHeader(n), ok, end)
  {
    if n <= 31 {
      ok, end := WriteByte(buffer, Byte(0xA0 + n), pos);
    } else if n <= 255 {
      ok, end := WriteTagged8(buffer, 0xD9, Byte(n), pos);
    } else if n <= 65535 {
      ok, end := WriteTaggedWord(buffer, 0xDA, LE16(n), pos);
      SwappedLE16(n);
    } else {
      ok, end := WriteTaggedWord(buffer, 0xDB, LE32(n), pos);
      SwappedLE32(n);
    }
  }

  /** Packs a C string, or nil for a null pointer. */
  method PackString(buffer: array<byte>, str: Option<seq<byte>>, pos: nat) returns (written: nat, end: nat)
    requires (str.Some? ==> CString(str.value)) && pos <= buffer.Length
    modifies buffer
    ensures Packed(old(buffer[..]), buffer[..], pos, StringEncoding(str), written, end)
  {
    var ok: bool;
    if str.None? {
      ok, end := WriteByte(buffer, 0xC0, pos);
      written := if ok then 1 else 0;
      return;
    }
    ghost var before := buffer[..];
    var s := str.value;
    ok, end := WriteStrHeader(buffer, |s|, pos);
    if !ok {
      Overflow(before, buffer[..], pos, StrHeader(|s|), EncodeStr(s), end);
      return 0, end;
    }
    ghost var mid := buffer[..];
    var start := end;
    ok, end := WriteBytes(buffer, s, start);
    Sequenced(before, mid, buffer[..], pos, StrHeader(|s|), s, start, ok, end);
    written := if ok then end - pos else 0;
  }

  /** The header of a map or array of `n` entries: the fix form, then the 16- and 32-bit forms. */
  method WriteCount(buffer: array<byte>, fix: byte, tag16: byte, tag32: byte, n: nat, pos: nat)
    returns (ok: bool, end: nat)
    requires fix as int + 15 < 0x100 && n < U32_LIMIT && pos <= buffer.Length
    modifies buffer
    ensures WriteOutcome(old(buffer[..]), buffer[..], pos, CountHeader(fix, tag16, tag32, n), ok, end)
  {
    if n <= 15 {
      ok, end := WriteByte(buffer, fix + n as byte, pos);
    } else if n <= 65535 {
      ok, end := WriteTaggedWord(buffer, tag16, LE16(n), pos);
      SwappedLE16(n);
    } else {
      ok, end := WriteTaggedWord(buffer, tag32, LE32(n), pos);
      SwappedLE32(n);
    }
  }

  /** The `int` branch: positive and negative fixint, then int8, int16 and int32. */
  method PackInt32(buffer: array<byte>, i: int, pos: nat) returns (written: nat, end: nat)
    requires INT32_MIN <= i < INT32_LIMIT && pos <= buffer.Length
    modifies buffer
    ensures Packed(old(buffer[..]), buffer[..], pos, EncodeInt32(i), written, end)
  {
    var ok: bool;
    if 0 <= i <= 127 {
      ok, end := WriteByte(buffer, Byte(i), pos);
    } else if -32 <= i < 0 {
      ok, end := WriteByte(buffer, Byte(0xE0 + i % 0x20), pos);
    } else if -128 <= i < 128 {
      ok, end := WriteTagged8(buffer, 0xD0, Byte(i % 0x100), pos);
    } else if -32768 <= i < 32768 {
      ok, end := WriteTaggedWord(buffer, 0xD1, LE16(i % U16_LIMIT), pos);
      SwappedLE16(i % U16_LIMIT);
    } else {
      ok, end := WriteTaggedWord(buffer, 0xD2, LE32(i % U32_LIMIT), pos);
      SwappedLE32(i % U32_LIMIT);
    }
    written := if ok then end - pos else 0;
  }

  /** The `unsigned` branch: positive fixint, then uint8, uint16 and uint32. */
  method PackUint32(buffer: array<byte>, u: nat, pos: nat) returns (written: nat, end: nat)
    requires IsU32(u) && pos <= buffer.Length
    modifies buffer
    ensures Packed(old(buffer[..]), buffer[..], pos, EncodeUint32(u), written, end)
  {
    var ok: bool;
    if u <= 127 {
      ok, end := WriteByte(buffer, Byte(u), pos);
    } else if u <= 255 {
      ok, end := WriteTagged8(buffer, 0xCC, Byte(u), pos);
    } else if u <= 65535 {
      ok, end := WriteTaggedWord(buffer, 0xCD, LE16(u), pos);
      SwappedLE16(u);
    } else {
      ok, end := WriteTaggedWord(buffer, 0xCE, LE32(u), pos);
      SwappedLE32(u);
    }
    written := if ok then end - pos else 0;
  }

  /** Packs any value: nil, boolean, integer, string, object or array. */
  method PackValue(buffer: array<byte>, v: Json, pos: nat) returns (written: nat, end: nat)
    requires WellFormed(v) && pos <= buffer.Length
    modifies buffer
    ensures Packed(old(buffer[..]), buffer[..], pos, Encode(v), written, end)
    decreases v, 2
  {
    var ok: bool;
    match v
    case Null =>
      ok, end := WriteByte(buffer, 0xC0, pos);
      written := if ok then 1 else 0;
    case Bool(b) =>
      ok, end := WriteByte(buffer, if b then 0xC3 else 0xC2, pos);
      written := if ok then 1 else 0;
    case Int(i) =>
      if i < INT32_LIMIT {
        written, end := PackInt32(buffer, i, pos);
      } else {
        written, end := PackUint32(buffer, i, pos);
      }
    case Str(s) =>
      written, end := PackString(buffer, Some(s), pos);
    case Object(_) =>
      written, end := PackObject(buffer, v, pos);
    case Array(_) =>
      written, end := PackArray(buffer, v, pos);
  }

  /** One member of an object: nothing for a null value, else its key and then its value. */
  method PackMember(buffer: array<byte>, v: Json, k: nat, pos: nat) returns (ok: bool, end: nat)
    requires WellFormed(v) && v.Object? && k < |v.members| && pos <= buffer.Length
    modifies buffer
    ensures WriteOutcome(old(buffer[..]), buffer[..], pos, MemberBytes(v, k), ok, end)
    decreases v, 0
  {
    var m := v.members[k];
    if m.value.Null? {
      return true, pos;
    }
    ghost var before := buffer[..];
    var w, e := PackString(buffer, Some(m.key), pos);
    if w == 0 {
      Overflow(before, buffer[..], pos, EncodeStr(m.key), MemberBytes(v, k), e);
      return false, e;
    }
    ghost var keyed := buffer[..];
    var w2, e2 := PackValue(buffer, m.value, e);
    Sequenced(before, keyed, buffer[..], pos, EncodeStr(m.key), Encode(m.value), e, w2 > 0, e2);
    return w2 > 0, e2;
  }

  /** The number of members whose value is not null: what the map header counts. */
  method CountPresent(v: Json) returns (count: nat)
    requires v.Object?
    ensures count == PresentFrom(v, 0)
  {
    count := 0;
    var k := 0;
    while k < |v.members|
      invariant 0 <= k <= |v.members|
      invariant count + PresentFrom(v, k) == PresentFrom(v, 0)
    {
      if !v.members[k].value.Null? {
        count := count + 1;
      }
      k := k + 1;
    }
  }

  /** Packs an object: a map header counting the non-null members, then those members in order. */
  method PackObject(buffer: array<byte>, v: Json, pos: nat) returns (written: nat, end: nat)
    requires WellFormed(v) && v.Object? && pos <= buffer.Length
    modifies buffer
    ensures Packed(old(buffer[..]), buffer[..], pos, EncodeObject(v), written, end)
    decreases v, 1
  {
    ghost var before := buffer[..];
    ghost var whole := EncodeObject(v);
    var count := CountPresent(v);
    var ok: bool;
    ok, end := WriteCount(buffer, 0x80, 0xDE, 0xDF, count, pos);
    ghost var header := MapHeader(count);
    if !ok {
      Overflow(before, buffer[..], pos, header, whole, end);
      return 0, end;
    }
    ghost var done: seq<byte> := [];
    var k := 0;
    while k < |v.members|
      invariant 0 <= k <= |v.members|
      invariant whole == header + done + MembersFrom(v, k)
      invariant WriteOutcome(before, buffer[..], pos, header + done, true, end)
    {
      ghost var mb := MemberBytes(v, k);
      assert MembersFrom(v, k) == mb + MembersFrom(v, k + 1);
      Regroup(header, done, mb, MembersFrom(v, k + 1));
      ghost var mid := buffer[..];
      var e;
      ok, e := PackMember(buffer, v, k, end);
      Sequenced(before, mid, buffer[..], pos, header + done, mb, end, ok, e);
      if !ok {
        Overflow(before, buffer[..], pos, header + (done + mb), whole, e);
        return 0, e;
      }
      end := e;
      done := done + mb;
      k := k + 1;
    }
    written := end - pos;
  }

  /** Packs an array: an array header, then every item in order. */
  method PackArray(buffer: array<byte>, v: Json, pos: nat) returns (written: nat, end: nat)
    requires WellFormed(v) && v.Array? && pos <= buffer.Length
    modifies buffer
    ensures Packed(old(buffer[..]), buffer[..], pos, EncodeArray(v), written, end)
    decreases v, 1
  {
    ghost var before := buffer[..];
    ghost var whole := EncodeArray(v);
    var count := |v.items|;
    var ok: bool;
    ok, end := WriteCount(buffer, 0x90, 0xDC, 0xDD, count, pos);
    if !ok {
      Overflow(before, buffer[..], pos, ArrayHeader(count), whole, end);
      return 0, end;
    }
    ghost var header := ArrayHeader(count);
    ghost var done: seq<byte> := [];
    var k := 0;
    while k < count
      invariant 0 <= k <= count
      invariant whole == header + done + ItemsFrom(v, k)
      invariant WriteOutcome(before, buffer[..], pos, header + done, true, end)
    {
      ghost var item := Encode(v.items[k]);
      assert ItemsFrom(v, k) == item + ItemsFrom(v, k + 1);
      Regroup(header, done, item, ItemsFrom(v, k + 1));
      ghost var mid := buffer[..];
      var w, e := PackValue(buffer, v.items[k], end);
      Sequenced(before, mid, buffer[..], pos, header + done, item, end, w > 0, e);
      if w == 0 {
        Overflow(before, buffer[..], pos, header + (done + item), whole, e);
        return 0, e;
      }
      end := e;
      done := done + item;
      k := k + 1;
    }
    written := end - pos;
  }

  // ---------------------------------------------------------------------------
  // Entry points (msgpack_helper.cpp MessagePackHelper::serialize, estimateSize)
  // ---------------------------------------------------------------------------

  /**
   * Packs a document from the start of the buffer and returns its length, or
   * 0 when it does not fit; what it writes reads back as the document with
   * its null members gone.
   */
  method Serialize(doc: Json, buffer: array<byte>) returns (n: nat)
    requires WellFormed(doc)
    modifies buffer
    ensures n > 0 <==> |Encode(doc)| <= buffer.Length
    ensures n > 0 ==> n == |Encode(doc)| && Wrote(old(buffer[..]), buffer[..], 0, Encode(doc))
    ensures n > 0 ==> DecodeValue(buffer[..], 0) == Some((Dropped(doc), n))
  {
    if buffer.Length == 0 {
      return 0;
    }
    var offset := 0;
    var written: nat;
    if doc.Object? {
      written, offset := PackObject(buffer, doc, offset);
    } else if doc.Array? {
      written, offset := PackArray(buffer, doc, offset);
    } else {
      written, offset := PackValue(buffer, doc, offset);
    }
    n := if written > 0 then offset else 0;
    if n > 0 {
      RoundTrip(doc, buffer[..], 0);
    }
  }

  /** The size guess for a document whose JSON text is `jsonSize` bytes: 55%, in 32-bit arithmetic. */
  function EstimateSize(jsonSize: nat): (r: nat)
    requires IsU32(jsonSize)
    ensures jsonSize * 55 < U32_LIMIT ==> 100 * r <= 55 * jsonSize < 100 * (r + 1)
    ensures r < U32_LIMIT / 100 + 1
  {
    Wrap32(jsonSize * 55) / 100
  }
}
