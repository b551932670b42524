/**
 * The AMF0 writers of common/codec_helpers/amf0.c: each stores through an advancing pointer
 * and answers null when its bytes do not fit. Put together they write any tree.
 */
module Amf0Writer {
  import opened Bytes
  import opened Amf0

  /** AMFWriteString16, the length cut to 16 bits. */
  method WriteText16(buf: array<byte>, ptr: nat, end: nat, s: seq<byte>) returns (r: Option<nat>)
    requires ptr <= end <= buf.Length
    modifies buf
    ensures r == if ptr + 2 + |s| > end then None else Some(ptr + 2 + |s|)
    ensures r.Some? ==> buf[..r.value] == old(buf[..ptr]) + U16(|s|) + s
  {
    if ptr + 2 + |s| > end { return None; }
    CopyTo(buf, ptr, U16(|s|));
    CopyTo(buf, ptr + 2, s);
    return Some(ptr + 2 + |s|);
  }

  /** AMFWriteObject. */
  method WriteObject(buf: array<byte>, ptr: nat, end: nat) returns (r: Option<nat>)
    requires ptr <= end <= buf.Length
    modifies buf
    ensures r == if ptr + 1 > end then None else Some(ptr + 1)
    ensures r.Some? ==> buf[..r.value] == old(buf[..ptr]) + [OBJECT]
  {
    if ptr + 1 > end { return None; }
    CopyTo(buf, ptr, [OBJECT]);
    return Some(ptr + 1);
  }

  /** AMFWriteObjectEnd. */
  method WriteObjectEnd(buf: array<byte>, ptr: nat, end: nat) returns (r: Option<nat>)
    requires ptr <= end <= buf.Length
    modifies buf
    ensures r == if ptr + 3 > end then None else Some(ptr + 3)
    ensures r.Some? ==> buf[..r.value] == old(buf[..ptr]) + END
  {
    if ptr + 3 > end { return None; }
    CopyTo(buf, ptr, END);
    return Some(ptr + 3);
  }

  /** AMFWriteString: short and long form. */
  method WriteText(buf: array<byte>, ptr: nat, end: nat, s: seq<byte>) returns (r: Option<nat>)
    requires ptr <= end <= buf.Length
    modifies buf
    ensures r == if ptr + |Encode(Text(s))| > end || |s| > UINT32_MAX then None else Some(ptr + |Encode(Text(s))|)
    ensures r.Some? ==> buf[..r.value] == old(buf[..ptr]) + Encode(Text(s))
  {
    hide U16, U32;
    var lengthSize := if |s| < 65536 then 2 else 4;
    assert |Encode(Text(s))| == 1 + lengthSize + |s|;
    if ptr + 1 + lengthSize + |s| > end || |s| > UINT32_MAX { return None; }
    if |s| < 65536 {
      CopyTo(buf, ptr, [STRING]);
      CopyTo(buf, ptr + 1, U16(|s|));
    } else {
      CopyTo(buf, ptr, [LONG_STRING]);
      CopyTo(buf, ptr + 1, U32(|s|));
    }
    CopyTo(buf, ptr + 1 + lengthSize, s);
    assert buf[..ptr + 1 + lengthSize + |s|] == old(buf[..ptr]) + Encode(Text(s));
    return Some(ptr + 1 + lengthSize + |s|);
  }

  /** AMFWriteNamedString; its own check does not count the two extra length bytes of a long value. */
  method WriteNamedText(buf: array<byte>, ptr: nat, end: nat, name: seq<byte>, s: seq<byte>) returns (r: Option<nat>)
    requires ptr <= end <= buf.Length
    modifies buf
    ensures var n := |Named(Field(name, Text(s)))|;
            r == if ptr + n > end || |s| > UINT32_MAX then None else Some(ptr + n)
    ensures r.Some? ==> buf[..r.value] == old(buf[..ptr]) + Named(Field(name, Text(s)))
  {
    hide U16, U32;
    assert Named(Field(name, Text(s))) == U16(|name|) + name + Encode(Text(s));
    assert |Encode(Text(s))| >= 3 + |s|;
    hide Encode, Named;
    if ptr + |name| + 2 + |s| + 3 > end { return None; }
    r := WriteText16(buf, ptr, end, name);
    if r.None? { return; }
    r := WriteText(buf, r.value, end, s);
    if r.Some? {
      assert old(buf[..ptr]) + U16(|name|) + name + Encode(Text(s)) == old(buf[..ptr]) + Named(Field(name, Text(s)));
    }
  }

  /** The one-byte writers AMFWriteNull and AMFWriteUndefined. */
  method WriteMarker(buf: array<byte>, ptr: nat, end: nat, marker: byte) returns (r: Option<nat>)
    requires ptr <= end <= buf.Length
    modifies buf
    ensures r == if ptr + 1 > end then None else Some(ptr + 1)
    ensures r.Some? ==> buf[..r.value] == old(buf[..ptr]) + [marker]
  {
    if ptr + 1 > end { return None; }
    CopyTo(buf, ptr, [marker]);
    return Some(ptr + 1);
  }

  /** AMFWriteBoolean. */
  method WriteBoolean(buf: array<byte>, ptr: nat, end: nat, b: bool) returns (r: Option<nat>)
    requires ptr <= end <= buf.Length
    modifies buf
    ensures r == if ptr + 2 > end then None else Some(ptr + 2)
    ensures r.Some? ==> buf[..r.value] == old(buf[..ptr]) + Encode(Boolean(b))
  {
    if ptr + 2 > end { return None; }
    CopyTo(buf, ptr, [BOOLEAN, if b then 1 else 0]);
    return Some(ptr + 2);
  }

  /** AMFWriteDouble: the bytes of the memory image, last one first. */
  method WriteDouble(buf: array<byte>, ptr: nat, end: nat, d: Double) returns (r: Option<nat>)
    requires ptr <= end <= buf.Length
    modifies buf
    ensures r == if ptr + 9 > end then None else Some(ptr + 9)
    ensures r.Some? ==> buf[..r.value] == old(buf[..ptr]) + Encode(Number(d))
  {
    if ptr + 9 > end { return None; }
    CopyTo(buf, ptr, [NUMBER]);
    CopyTo(buf, ptr + 1, Reversed(d));
    assert old(buf[..ptr]) + [NUMBER] + Reversed(d) == old(buf[..ptr]) + Encode(Number(d));
    return Some(ptr + 9);
  }

  /** AMFWriteDate: a number whose marker is then overwritten, and the zone. */
  method WriteDate(buf: array<byte>, ptr: nat, end: nat, ms: Double, zone: nat) returns (r: Option<nat>)
    requires ptr <= end <= buf.Length && zone <= UINT16_MAX
    modifies buf
    ensures r == if ptr + 11 > end then None else Some(ptr + 11)
    ensures r.Some? ==> buf[..r.value] == old(buf[..ptr]) + Encode(Date(ms, zone))
  {
    hide U16, Reversed;
    if ptr + 11 > end { return None; }
    var number := WriteDouble(buf, ptr, end, ms);
    buf[ptr] := DATE;
    assert buf[..ptr + 9] == old(buf[..ptr]) + ([DATE] + Reversed(ms));
    CopyTo(buf, ptr + 9, U16(zone));
    assert old(buf[..ptr]) + ([DATE] + Reversed(ms)) + U16(zone) == old(buf[..ptr]) + Encode(Date(ms, zone));
    return Some(ptr + 11);
  }

  /** AMFWriteECMAArarry; the marker is there even when the count does not fit. */
  method WriteEcmaArray(buf: array<byte>, ptr: nat, end: nat) returns (r: Option<nat>)
    requires ptr <= end <= buf.Length
    modifies buf
    ensures r == if ptr + 5 > end then None else Some(ptr + 5)
    ensures r.Some? ==> buf[..r.value] == old(buf[..ptr]) + ([ECMA_ARRAY] + U32(0))
  {
    if ptr + 1 > end { return None; }
    CopyTo(buf, ptr, [ECMA_ARRAY]);
    if ptr + 5 > end { return None; }
    CopyTo(buf, ptr + 1, U32(0));
    assert old(buf[..ptr]) + [ECMA_ARRAY] + U32(0) == old(buf[..ptr]) + ([ECMA_ARRAY] + U32(0));
    return Some(ptr + 5);
  }

  /** AMFWriteNamedBoolean. */
  method WriteNamedBoolean(buf: array<byte>, ptr: nat, end: nat, name: seq<byte>, b: bool) returns (r: Option<nat>)
    requires ptr <= end <= buf.Length
    modifies buf
    ensures var n := |Named(Field(name, Boolean(b)))|; r == if ptr + n > end then None else Some(ptr + n)
    ensures r.Some? ==> buf[..r.value] == old(buf[..ptr]) + Named(Field(name, Boolean(b)))
  {
    hide U16;
    if ptr + |name| + 2 + 2 > end { return None; }
    r := WriteText16(buf, ptr, end, name);
    if r.None? { return; }
    r := WriteBoolean(buf, r.value, end, b);
    assert old(buf[..ptr]) + U16(|name|) + name + Encode(Boolean(b)) == old(buf[..ptr]) + Named(Field(name, Boolean(b)));
  }

  /** AMFWriteNamedDouble. */
  method WriteNamedDouble(buf: array<byte>, ptr: nat, end: nat, name: seq<byte>, d: Double) returns (r: Option<nat>)
    requires ptr <= end <= buf.Length
    modifies buf
    ensures var n := |Named(Field(name, Number(d)))|; r == if ptr + n > end then None else Some(ptr + n)
    ensures r.Some? ==> buf[..r.value] == old(buf[..ptr]) + Named(Field(name, Number(d)))
  {
    hide U16, Reversed;
    if ptr + |name| + 2 + 8 + 1 > end { return None; }
    r := WriteText16(buf, ptr, end, name);
    if r.None? { return; }
    r := WriteDouble(buf, r.value, end, d);
    assert old(buf[..ptr]) + U16(|name|) + name + Encode(Number(d)) == old(buf[..ptr]) + Named(Field(name, Number(d)));
  }

  // ---- Whole trees -------------------------------------------------------------------------

  /** Any tree, with nothing but the writers above: its encoding, exactly when it fits. */
  method WriteTree(buf: array<byte>, ptr: nat, end: nat, v: Value) returns (r: Option<nat>)
    requires ptr <= end <= buf.Length && Proper(v)
    modifies buf
    ensures r == if ptr + |Encode(v)| > end then None else Some(ptr + |Encode(v)|)
    ensures r.Some? ==> buf[..r.value] == old(buf[..ptr]) + Encode(v)
    decreases v, 1
  {
    hide U16, U32, Reversed, Fields;
    match v
    case Object(fields) =>
      Nested(old(buf[..ptr]), [OBJECT], Fields(fields) + END, Encode(v));
      r := WriteObject(buf, ptr, end);
      if r.Some? { r := WriteFields(buf, r.value, end, fields); }
    case EcmaArray(fields) =>
      Nested(old(buf[..ptr]), [ECMA_ARRAY] + U32(0), Fields(fields) + END, Encode(v));
      r := WriteEcmaArray(buf, ptr, end);
      if r.Some? { r := WriteFields(buf, r.value, end, fields); }
    case _ => r := WriteScalar(buf, ptr, end, v);
  }

  lemma Nested(front: seq<byte>, head: seq<byte>, body: seq<byte>, all: seq<byte>)
    requires all == head + body
    ensures front + head + body == front + all
  {
  }

  /** A value without fields. */
  method WriteScalar(buf: array<byte>, ptr: nat, end: nat, v: Value) returns (r: Option<nat>)
    requires ptr <= end <= buf.Length && Proper(v) && !v.Object? && !v.EcmaArray?
    modifies buf
    ensures r == if ptr + |Encode(v)| > end then None else Some(ptr + |Encode(v)|)
    ensures r.Some? ==> buf[..r.value] == old(buf[..ptr]) + Encode(v)
  {
    hide U16, U32, Reversed;
    match v
    case Number(d) => r := WriteDouble(buf, ptr, end, d);
    case Boolean(b) => r := WriteBoolean(buf, ptr, end, b);
    case Text(s) => r := WriteText(buf, ptr, end, s);
    case Null => r := WriteMarker(buf, ptr, end, NULL);
    case Undefined => r := WriteMarker(buf, ptr, end, UNDEFINED);
    case Date(ms, zone) => r := WriteDate(buf, ptr, end, ms, zone);
  }

  /** The fields of an object, name and value in turn, and its end. */
  method WriteFields(buf: array<byte>, ptr: nat, end: nat, fields: seq<Field>) returns (r: Option<nat>)
    requires ptr <= end <= buf.Length && ProperFields(fields)
    modifies buf
    ensures r == if ptr + |Fields(fields) + END| > end then None else Some(ptr + |Fields(fields) + END|)
    ensures r.Some? ==> buf[..r.value] == old(buf[..ptr]) + (Fields(fields) + END)
    decreases fields, 0
  {
    hide U16, Encode, Named, Proper;
    if fields == [] {
      assert Fields(fields) + END == END;
      r := WriteObjectEnd(buf, ptr, end);
    } else {
      var f, rest := fields[0], fields[1..];
      FirstField(fields);
      Nested(old(buf[..ptr]), U16(|f.name|) + f.name, Encode(f.value), Named(f));
      Nested(old(buf[..ptr]), Named(f), Fields(rest) + END, Fields(fields) + END);
      r := WriteText16(buf, ptr, end, f.name);
      if r.None? { return; }
      assert buf[..r.value] == old(buf[..ptr]) + (U16(|f.name|) + f.name);
      r := WriteTree(buf, r.value, end, f.value);
      if r.None? { return; }
      r := WriteFields(buf, r.value, end, rest);
    }
  }

  lemma FirstField(fields: seq<Field>)
    requires fields != []
    ensures Named(fields[0]) == (U16(|fields[0].name|) + fields[0].name) + Encode(fields[0].value)
    ensures Fields(fields) + END == Named(fields[0]) + (Fields(fields[1..]) + END)
  {
    hide Payload, Marker, U16;
    var f := fields[0];
    assert U16(|f.name|) + f.name + [Marker(f.value)] + Payload(f.value) == U16(|f.name|) + f.name + ([Marker(f.value)] + Payload(f.value));
  }
}
