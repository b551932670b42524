/** Everything the AMF0 writers put together is read back, into the schema entries that match. */
module Amf0RoundTrip {
  import opened Bytes
  import opened Amf0

  /** `x` stands in `d` at `pos`. */
  predicate Has(d: seq<byte>, pos: nat, x: seq<byte>) { pos + |x| <= |d| && d[pos..pos + |x|] == x }

  lemma HasSplit(d: seq<byte>, pos: nat, a: seq<byte>, b: seq<byte>)
    requires Has(d, pos, a + b)
    ensures Has(d, pos, a) && Has(d, pos + |a|, b)
  {
    assert d[pos..pos + |a|] == (a + b)[..|a|];
    assert d[pos + |a|..pos + |a| + |b|] == (a + b)[|a|..];
  }

  lemma Get16Back(d: seq<byte>, pos: nat, n: nat)
    requires n <= UINT16_MAX && Has(d, pos, U16(n))
    ensures Get16(d, pos) == n
  {
    var x := d[pos..pos + 2];
    assert d[pos] == x[0] && d[pos + 1] == x[1];
  }

  lemma Get32Back(d: seq<byte>, pos: nat, n: nat)
    requires n <= UINT32_MAX && Has(d, pos, U32(n))
    ensures Get32(d, pos) == n
  {
    var x := d[pos..pos + 4];
    assert d[pos] == x[0] && d[pos + 1] == x[1] && d[pos + 2] == x[2] && d[pos + 3] == x[3];
    Base256(n);
  }

  lemma Base256(n: nat)
    requires n <= UINT32_MAX
    ensures n == n / 0x1000000 % 256 * 0x1000000 + n / 0x10000 % 256 * 0x10000 + n / 256 % 256 * 256 + n % 256
  {
    assert n / 0x10000 == n / 256 / 256;
    assert n / 0x1000000 == n / 256 / 256 / 256;
  }

  lemma ReversedTwice(s: Double)
    ensures Reversed(Reversed(s)) == s
  {
  }

  /** What a schema entry holds once `v` has been stored in it. */
  function Put(item: Option<Item>, v: Value): (r: Option<Item>)
    ensures r.Some? == item.Some?
    ensures item.Some? ==> r.value.ty == item.value.ty && r.value.name == item.value.name
    decreases v
  {
    match v
    case Number(d) => WithDouble(item, d)
    case Boolean(b) => WithFlag(item, if b then 1 else 0)
    case Text(s) => WithText(item, s)
    case Null => item
    case Undefined => item
    case Date(ms, zone) => WithZone(WithDouble(item, ms), zone)
    case Object(fields) => WithItems(item, PutAll(SubItems(item), fields))
    case EcmaArray(fields) => WithItems(item, PutAll(SubItems(item), fields))
  }

  /** The fields of an object, each into the first entry of its name and type. */
  function PutAll(items: seq<Item>, fields: seq<Field>): (r: seq<Item>)
    ensures |r| == |items|
    decreases fields
  {
    if fields == [] then items
    else
      var i := Match(items, fields[0].name, Marker(fields[0].value));
      PutAll(Replaced(items, i, Put(At(items, i), fields[0].value)), fields[1..])
  }

  lemma ReadsText(d: seq<byte>, pos: nat, s: seq<byte>, item: Option<Item>)
    requires |s| <= UINT32_MAX && Has(d, pos, Payload(Text(s)))
    ensures ReadText(d, pos, |s| >= 65536, item) == (Some(pos + |Payload(Text(s))|), WithText(item, s))
  {
    if |s| < 65536 {
      HasSplit(d, pos, U16(|s|), s);
      Get16Back(d, pos, |s|);
    } else {
      HasSplit(d, pos, U32(|s|), s);
      Get32Back(d, pos, |s|);
    }
    hide U16, U32, Get16, Get32;
  }

  lemma ReadsDate(d: seq<byte>, pos: nat, ms: Double, zone: nat, item: Option<Item>)
    requires zone <= UINT16_MAX && Has(d, pos, Payload(Date(ms, zone)))
    ensures ReadDate(d, pos, item) == (Some(pos + 10), WithZone(WithDouble(item, ms), zone))
  {
    HasSplit(d, pos, Reversed(ms), U16(zone));
    Get16Back(d, pos + 8, zone);
    ReversedTwice(ms);
  }

  /** The reader stops exactly behind the value and has stored it. */
  lemma {:induction false} ReadsValue(d: seq<byte>, pos: nat, v: Value, item: Option<Item>)
    requires Proper(v) && Has(d, pos, Payload(v))
    ensures ReadItem(d, pos, Marker(v), item) == (Some(pos + |Payload(v)|), Put(item, v))
    decreases v, 0
  {
    hide Get16, Get32, U16, U32, ReadText, ReadDate, ReadObject, ReadElements, Fields, Reversed, Match;
    match v
    case Number(x) => ReversedTwice(x);
    case Boolean(b) => assert d[pos..pos + 1][0] == d[pos];
    case Text(s) => ReadsText(d, pos, s, item);
    case Null =>
    case Undefined =>
    case Date(ms, zone) => ReadsDate(d, pos, ms, zone, item);
    case Object(fields) => ReadsFields(d, pos, fields, SubItems(item));
    case EcmaArray(fields) =>
      assert Payload(v) == U32(0) + (Fields(fields) + END);
      HasSplit(d, pos, U32(0), Fields(fields) + END);
      ReadsFields(d, pos + 4, fields, SubItems(item));
  }

  /** Where the parts of a field stand. */
  lemma FieldParts(d: seq<byte>, pos: nat, f: Field)
    requires 0 < |f.name| <= UINT16_MAX && Has(d, pos, Named(f))
    ensures var n := |f.name|;
            && |Named(f)| == 3 + n + |Payload(f.value)| && pos + 3 + n <= |d|
            && Get16(d, pos) == n && d[pos + 2..pos + 2 + n] == f.name
            && d[pos + 2 + n] == Marker(f.value) && Has(d, pos + 3 + n, Payload(f.value))
  {
    hide Payload, Marker, U16, Get16;
    var n, p := |f.name|, Payload(f.value);
    assert Named(f) == U16(n) + (f.name + ([Marker(f.value)] + p));
    HasSplit(d, pos, U16(n), f.name + ([Marker(f.value)] + p));
    HasSplit(d, pos + 2, f.name, [Marker(f.value)] + p);
    HasSplit(d, pos + 2 + n, [Marker(f.value)], p);
    Get16Back(d, pos, n);
    assert d[pos + 2 + n] == d[pos + 2 + n..pos + 3 + n][0];
  }

  /** One field: its name is matched and its value read. */
  lemma {:induction false} ReadsField(d: seq<byte>, pos: nat, f: Field, items: seq<Item>)
    requires 0 < |f.name| <= UINT16_MAX && Proper(f.value) && Has(d, pos, Named(f))
    ensures var i := Match(items, f.name, Marker(f.value));
            ReadObject(d, pos, items)
            == ReadObject(d, pos + |Named(f)|, Replaced(items, i, Put(At(items, i), f.value)))
    decreases f, 1
  {
    hide Payload, Marker, ReadItem, Match, Get16, At, Replaced, Put, ObjectEnd, Named;
    FieldParts(d, pos, f);
    var i := Match(items, f.name, Marker(f.value));
    ReadsValue(d, pos + 3 + |f.name|, f.value, At(items, i));
  }

  lemma ReadsEnd(d: seq<byte>, pos: nat, items: seq<Item>)
    requires Has(d, pos, END)
    ensures ReadObject(d, pos, items) == (Some(pos + 3), items)
  {
    var x := d[pos..pos + 3];
    assert d[pos] == x[0] && d[pos + 1] == x[1] && d[pos + 2] == x[2];
  }

  lemma {:induction false} ReadsFields(d: seq<byte>, pos: nat, fields: seq<Field>, items: seq<Item>)
    requires ProperFields(fields) && Has(d, pos, Fields(fields) + END)
    ensures ReadObject(d, pos, items) == (Some(pos + |Fields(fields)| + 3), PutAll(items, fields))
    decreases fields, 2
  {
    hide Named, ReadObject, Match, Put, Replaced, At, Marker, Proper;
    if fields == [] {
      assert Fields(fields) + END == END;
      ReadsEnd(d, pos, items);
    } else {
      var f, rest := fields[0], Fields(fields[1..]) + END;
      assert Fields(fields) + END == Named(f) + rest;
      HasSplit(d, pos, Named(f), rest);
      ReadsField(d, pos, f, items);
      var i := Match(items, f.name, Marker(f.value));
      ReadsFields(d, pos + |Named(f)|, fields[1..], Replaced(items, i, Put(At(items, i), f.value)));
    }
  }

  /** A value with its marker, met by amf_read_items. */
  lemma ReadsEncoded(d: seq<byte>, pos: nat, v: Value, i: nat, items: seq<Item>)
    requires Proper(v) && Has(d, pos, Encode(v)) && i < |items| && TypeFits(Marker(v), items[i].ty)
    ensures ReadItems(d, pos, i, items)
         == ReadItems(d, pos + |Encode(v)|, i + 1, Replaced(items, i, Put(Some(items[i]), v)))
  {
    hide ReadItem, Payload, Marker, Put, TypeFits, Proper;
    HasSplit(d, pos, [Marker(v)], Payload(v));
    assert d[pos] == d[pos..pos + 1][0];
    ReadsValue(d, pos + 1, v, Some(items[i]));
  }

  /** A message: values one after another. */
  function EncodeAll(vs: seq<Value>): (r: seq<byte>) {
    if vs == [] then [] else Encode(vs[0]) + EncodeAll(vs[1..])
  }

  /** The entries from `i` on, each holding the value of its place. */
  function PutFrom(items: seq<Item>, i: nat, vs: seq<Value>): (r: seq<Item>)
    requires i + |vs| <= |items|
    ensures |r| == |items|
    decreases |vs|
  {
    if vs == [] then items else PutFrom(Replaced(items, i, Put(Some(items[i]), vs[0])), i + 1, vs[1..])
  }

  predicate Expected(items: seq<Item>, i: nat, vs: seq<Value>) {
    i + |vs| == |items| && forall k :: 0 <= k < |vs| ==> Proper(vs[k]) && TypeFits(Marker(vs[k]), items[i + k].ty)
  }

  lemma ExpectedRest(items: seq<Item>, i: nat, vs: seq<Value>)
    requires Expected(items, i, vs) && vs != []
    ensures Expected(Replaced(items, i, Put(Some(items[i]), vs[0])), i + 1, vs[1..])
  {
    var items' := Replaced(items, i, Put(Some(items[i]), vs[0]));
    forall k | 0 <= k < |vs| - 1 ensures Proper(vs[1..][k]) && TypeFits(Marker(vs[1..][k]), items'[i + 1 + k].ty) {
      assert vs[1..][k] == vs[k + 1] && items'[i + 1 + k] == items[i + (k + 1)];
    }
  }

  /** A whole message of the expected types is read to its end, every value into its entry. */
  lemma {:induction false} MessageReads(d: seq<byte>, pos: nat, vs: seq<Value>, i: nat, items: seq<Item>)
    requires Expected(items, i, vs) && Has(d, pos, EncodeAll(vs))
    ensures ReadItems(d, pos, i, items) == (Some(pos + |EncodeAll(vs)|), PutFrom(items, i, vs))
    decreases |vs|
  {
    hide Encode, Put, TypeFits, Marker, ReadItem, Proper, Replaced;
    if vs != [] {
      var v := vs[0];
      assert Proper(v) && TypeFits(Marker(v), items[i + 0].ty);
      HasSplit(d, pos, Encode(v), EncodeAll(vs[1..]));
      ReadsEncoded(d, pos, v, i, items);
      ExpectedRest(items, i, vs);
      MessageReads(d, pos + |Encode(v)|, vs[1..], i + 1, Replaced(items, i, Put(Some(items[i]), v)));
    }
  }

  // ---- Which entry is filled ---------------------------------------------------------------

  predicate DistinctNames(fields: seq<Field>) {
    forall i, j :: 0 <= i < j < |fields| ==> fields[i].name != fields[j].name
  }

  /** The field that entry `i` takes: the one whose first match it is. */
  predicate Takes(items: seq<Item>, i: nat, f: Field) { Match(items, f.name, Marker(f.value)) == i }

  lemma MatchKept(items: seq<Item>, k: nat, item: Option<Item>, name: seq<byte>, ty: byte)
    requires k < |items| && item.Some? ==> item.value.ty == items[k].ty && item.value.name == items[k].name
    ensures Match(Replaced(items, k, item), name, ty) == Match(items, name, ty)
  {
    var items' := Replaced(items, k, item);
    assert forall j :: 0 <= j < |items| ==> items'[j].name == items[j].name && items'[j].ty == items[j].ty;
    var a, b := Match(items', name, ty), Match(items, name, ty);
  }

  /** With distinct field names an entry nobody takes stays as it is. */
  lemma {:induction false} EntryUntouched(items: seq<Item>, fields: seq<Field>, i: nat)
    requires i < |items| && forall j :: 0 <= j < |fields| ==> !Takes(items, i, fields[j])
    ensures PutAll(items, fields)[i] == items[i]
    decreases |fields|
  {
    if fields != [] {
      var f := fields[0];
      assert !Takes(items, i, f);
      var k := Match(items, f.name, Marker(f.value));
      var items' := Replaced(items, k, Put(At(items, k), f.value));
      forall j | 0 <= j < |fields| - 1 ensures !Takes(items', i, fields[1..][j]) {
        var g := fields[j + 1];
        assert !Takes(items, i, g);
        MatchKept(items, k, Put(At(items, k), f.value), g.name, Marker(g.value));
      }
      EntryUntouched(items', fields[1..], i);
    }
  }

  /** With distinct field names an entry holds exactly the value of the field it takes. */
  lemma {:induction false} EntryFilled(items: seq<Item>, fields: seq<Field>, i: nat, j: nat)
    requires DistinctNames(fields) && i < |items| && j < |fields| && Takes(items, i, fields[j])
    ensures PutAll(items, fields)[i] == Put(Some(items[i]), fields[j].value).value
    decreases |fields|
  {
    var f := fields[0];
    var k := Match(items, f.name, Marker(f.value));
    var items' := Replaced(items, k, Put(At(items, k), f.value));
    if j == 0 {
      forall g | 0 <= g < |fields| - 1 ensures !Takes(items', i, fields[1..][g]) {
        assert fields[0].name != fields[g + 1].name;
        MatchKept(items, k, Put(At(items, k), f.value), fields[g + 1].name, Marker(fields[g + 1].value));
      }
      EntryUntouched(items', fields[1..], i);
    } else {
      assert f.name != fields[j].name;
      MatchKept(items, k, Put(At(items, k), f.value), fields[j].name, Marker(fields[j].value));
      assert items'[i] == items[i];
      EntryFilled(items', fields[1..], i, j - 1);
    }
  }
}
