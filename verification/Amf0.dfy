/** AMF0 (section 2 of the AMF0 specification) as common/codec_helpers/amf0.c reads and writes it. */
module Amf0 {
  import opened Bytes

  const NUMBER: byte := 0
  const BOOLEAN: byte := 1
  const STRING: byte := 2
  const OBJECT: byte := 3
  const NULL: byte := 5
  const UNDEFINED: byte := 6
  const ECMA_ARRAY: byte := 8
  const OBJECT_END: byte := 9
  const STRICT_ARRAY: byte := 10
  const DATE: byte := 11
  const LONG_STRING: byte := 12

  /** The memory image of a double on a little-endian host. */
  type Double = s: seq<byte> | |s| == 8 witness [0, 0, 0, 0, 0, 0, 0, 0]

  function Reversed(s: Double): (r: Double) { [s[7], s[6], s[5], s[4], s[3], s[2], s[1], s[0]] }

  function U16(n: nat): (r: seq<byte>)
    ensures |r| == 2
  {
    [n / 256 % 256, n % 256]
  }

  function U32(n: nat): (r: seq<byte>)
    ensures |r| == 4
  {
    [n / 0x1000000 % 256, n / 0x10000 % 256, n / 256 % 256, n % 256]
  }

  function Get16(d: seq<byte>, at: nat): (n: nat)
    requires at + 2 <= |d|
  {
    (d[at] as int) * 256 + d[at + 1] as int
  }

  function Get32(d: seq<byte>, at: nat): (n: nat)
    requires at + 4 <= |d|
  {
    (d[at] as int) * 0x1000000 + (d[at + 1] as int) * 0x10000 + (d[at + 2] as int) * 256 + d[at + 3] as int
  }

  // ---- Values and their encoding -----------------------------------------------------------

  datatype Field = Field(name: seq<byte>, value: Value)

  /** What the writers can put together. */
  datatype Value =
    | Number(d: Double)
    | Boolean(b: bool)
    | Text(s: seq<byte>)
    | Null
    | Undefined
    | Date(ms: Double, zone: nat)
    | Object(fields: seq<Field>)
    | EcmaArray(fields: seq<Field>)

  function Marker(v: Value): byte {
    match v
    case Number(_) => NUMBER
    case Boolean(_) => BOOLEAN
    case Text(s) => if |s| < 65536 then STRING else LONG_STRING
    case Null => NULL
    case Undefined => UNDEFINED
    case Date(_, _) => DATE
    case Object(_) => OBJECT
    case EcmaArray(_) => ECMA_ARRAY
  }

  const END: seq<byte> := [0, 0, 9]

  /** The encoding of a value behind its type marker. */
  function Payload(v: Value): (r: seq<byte>) {
    match v
    case Number(d) => Reversed(d)
    case Boolean(b) => [if b then 1 else 0]
    case Text(s) => (if |s| < 65536 then U16(|s|) else U32(|s|)) + s
    case Null => []
    case Undefined => []
    case Date(ms, zone) => Reversed(ms) + U16(zone)
    case Object(fields) => Fields(fields) + END
    case EcmaArray(fields) => U32(0) + Fields(fields) + END
  }

  function Encode(v: Value): (r: seq<byte>) { [Marker(v)] + Payload(v) }

  function Named(f: Field): (r: seq<byte>) { U16(|f.name|) + f.name + [Marker(f.value)] + Payload(f.value) }

  function Fields(fields: seq<Field>): (r: seq<byte>) {
    if fields == [] then [] else Named(fields[0]) + Fields(fields[1..])
  }

  /** Names are there and fit their length field, at every level; lengths fit 32 bits. */
  predicate Proper(v: Value) {
    match v
    case Text(s) => |s| <= UINT32_MAX
    case Date(_, zone) => zone <= UINT16_MAX
    case Object(fields) => ProperFields(fields)
    case EcmaArray(fields) => ProperFields(fields)
    case _ => true
  }

  predicate ProperFields(fields: seq<Field>) {
    forall i :: 0 <= i < |fields| ==> 0 < |fields[i].name| <= UINT16_MAX && Proper(fields[i].value)
  }

  // ---- Schemas -----------------------------------------------------------------------------

  /** struct amf_object_item_t: where the reader stores a value of the named field. */
  datatype Item = Item(ty: byte, name: seq<byte>, cell: Cell)

  datatype Cell =
    | Nowhere
    | FlagCell(flag: byte)
    | DoubleCell(d: Double)
    | DateCell(ms: Double, zone: nat)
    | TextCell(text: seq<byte>)        // a char array of that length
    | ItemsCell(items: seq<Item>)

  /** amf_read_item_type_check. */
  predicate TypeFits(wire: byte, ty: byte) {
    wire == ty || (ty == OBJECT && (wire == ECMA_ARRAY || wire == NULL))
  }

  function SubItems(item: Option<Item>): seq<Item> {
    if item.Some? && item.value.cell.ItemsCell? then item.value.cell.items else []
  }

  /** strcpy into a char array if it fits with its terminator, else the empty string. */
  function TextStored(text: seq<byte>, s: seq<byte>): (r: seq<byte>)
    ensures |r| == |text|
  {
    if |text| > |s| then s + [0] + text[|s| + 1..]
    else if |text| > 0 then text[0 := 0]
    else text
  }

  // The stores through item->value; a cell of another kind is left alone.

  function WithFlag(item: Option<Item>, b: byte): Option<Item> {
    if item.Some? && item.value.cell.FlagCell? then Some(item.value.(cell := FlagCell(b))) else item
  }

  function WithDouble(item: Option<Item>, d: Double): Option<Item> {
    if item.Some? && item.value.cell.DoubleCell? then Some(item.value.(cell := DoubleCell(d)))
    else if item.Some? && item.value.cell.DateCell? then Some(item.value.(cell := item.value.cell.(ms := d)))
    else item
  }

  function WithZone(item: Option<Item>, zone: nat): Option<Item> {
    if item.Some? && item.value.cell.DateCell? then Some(item.value.(cell := item.value.cell.(zone := zone))) else item
  }

  function WithText(item: Option<Item>, s: seq<byte>): Option<Item> {
    if item.Some? && item.value.cell.TextCell?
    then Some(item.value.(cell := TextCell(TextStored(item.value.cell.text, s)))) else item
  }

  function WithItems(item: Option<Item>, items: seq<Item>): Option<Item> {
    if item.Some? && item.value.cell.ItemsCell? then Some(item.value.(cell := ItemsCell(items))) else item
  }

  // ---- The reader --------------------------------------------------------------------------

  /** First entry with that name and a fitting type, or |items|. */
  function Match(items: seq<Item>, name: seq<byte>, ty: byte): (i: nat)
    ensures i <= |items|
    ensures i < |items| ==> items[i].name == name && TypeFits(ty, items[i].ty)
    ensures forall j :: 0 <= j < i ==> !(items[j].name == name && TypeFits(ty, items[j].ty))
  {
    if items == [] || (items[0].name == name && TypeFits(ty, items[0].ty)) then 0
    else 1 + Match(items[1..], name, ty)
  }

  function At(items: seq<Item>, i: nat): Option<Item> { if i < |items| then Some(items[i]) else None }

  function Replaced(items: seq<Item>, i: nat, item: Option<Item>): (r: seq<Item>)
    ensures |r| == |items|
  {
    if i < |items| && item.Some? then items[i := item.value] else items
  }

  /** AMFReadString. */
  function ReadText(d: seq<byte>, pos: nat, long: bool, item: Option<Item>): (r: (Option<nat>, Option<Item>))
    ensures r.0.Some? ==> pos < r.0.value <= |d|
  {
    var h := if long then 4 else 2;
    if pos + h > |d| then (None, item)
    else
      var len := if long then Get32(d, pos) else Get16(d, pos);
      if pos + h + len > |d| then (None, item)
      else (Some(pos + h + len), WithText(item, d[pos + h..pos + h + len]))
  }

  /** AMFReadDate: the number is stored even when the zone is missing. */
  function ReadDate(d: seq<byte>, pos: nat, item: Option<Item>): (r: (Option<nat>, Option<Item>))
    ensures r.0.Some? ==> pos < r.0.value <= |d|
  {
    if pos + 8 > |d| then (None, item)
    else
      var dated := WithDouble(item, Reversed(d[pos..pos + 8]));
      if pos + 10 > |d| then (None, dated) else (Some(pos + 10), WithZone(dated, Get16(d, pos + 8)))
  }

  /** amf_read_item. The cursor never moves back and never past the end. */
  function ReadItem(d: seq<byte>, pos: nat, ty: byte, item: Option<Item>): (r: (Option<nat>, Option<Item>))
    requires pos <= |d|
    ensures r.0.Some? ==> pos <= r.0.value <= |d|
    ensures r.1.Some? == item.Some?
    ensures item.Some? ==> r.1.value.ty == item.value.ty && r.1.value.name == item.value.name
    decreases |d| - pos, 1
  {
    if ty == BOOLEAN then
      if pos + 1 > |d| then (None, item) else (Some(pos + 1), WithFlag(item, d[pos]))
    else if ty == NUMBER then
      if pos + 8 > |d| then (None, item) else (Some(pos + 8), WithDouble(item, Reversed(d[pos..pos + 8])))
    else if ty == STRING then ReadText(d, pos, false, item)
    else if ty == LONG_STRING then ReadText(d, pos, true, item)
    else if ty == DATE then ReadDate(d, pos, item)
    else if ty == NULL || ty == UNDEFINED then (Some(pos), item)
    else if ty == OBJECT then
      var (end, items) := ReadObject(d, pos, SubItems(item));
      (end, WithItems(item, items))
    else if ty == ECMA_ARRAY then
      if pos + 4 > |d| then (None, item)
      else
        var (end, items) := ReadObject(d, pos + 4, SubItems(item));
        (end, WithItems(item, items))
    else if ty == STRICT_ARRAY then
      if pos + 4 > |d| then (None, item)
      else
        var (end, items) := ReadElements(d, pos + 4, Get32(d, pos), 0, SubItems(item));
        (end, WithItems(item, items))
    else (None, item)
  }

  /** amf_read_object, from the head of its loop on. */
  function ReadObject(d: seq<byte>, pos: nat, items: seq<Item>): (r: (Option<nat>, seq<Item>))
    requires pos <= |d|
    ensures r.0.Some? ==> pos < r.0.value <= |d|
    ensures |r.1| == |items|
    decreases |d| - pos, 0
  {
    if pos + 2 > |d| then (ObjectEnd(d, pos), items)
    else
      var len, at := Get16(d, pos), pos + 2;
      if len == 0 then (ObjectEnd(d, at), items)
      else if at + len + 1 > |d| then (None, items)
      else
        var ty := d[at + len];
        var i := Match(items, d[at..at + len], ty);
        var (next, item) := ReadItem(d, at + len + 1, ty, At(items, i));
        var items' := Replaced(items, i, item);
        if next.None? then (None, items') else ReadObject(d, next.value, items')
  }

  /** The check behind the loop of amf_read_object. */
  function ObjectEnd(d: seq<byte>, pos: nat): (r: Option<nat>)
    ensures r.Some? ==> pos < r.value <= |d|
  {
    if pos < |d| && d[pos] == OBJECT_END then Some(pos + 1) else None
  }

  /** The loop of amf_read_strict_array, at element `i` of `count`. */
  function ReadElements(d: seq<byte>, pos: nat, count: nat, i: nat, items: seq<Item>): (r: (Option<nat>, seq<Item>))
    requires pos <= |d|
    ensures r.0.Some? ==> pos <= r.0.value <= |d|
    ensures |r.1| == |items|
    decreases |d| - pos, 0
  {
    if i >= count || pos >= |d| then (Some(pos), items)
    else
      var ty := d[pos];
      var fits := i < |items| && TypeFits(ty, items[i].ty);
      var (next, item) := ReadItem(d, pos + 1, ty, if fits then Some(items[i]) else None);
      var items' := if fits then Replaced(items, i, item) else items;
      if next.None? then (None, items') else ReadElements(d, next.value, count, i + 1, items')
  }

  /** amf_read_items, at entry `i`. */
  function ReadItems(d: seq<byte>, pos: nat, i: nat, items: seq<Item>): (r: (Option<nat>, seq<Item>))
    requires pos <= |d|
    ensures r.0.Some? ==> pos <= r.0.value <= |d|
    ensures |r.1| == |items|
    decreases |d| - pos
  {
    if i >= |items| || pos >= |d| then (Some(pos), items)
    else if !TypeFits(d[pos], items[i].ty) then (None, items)
    else
      var (next, item) := ReadItem(d, pos + 1, d[pos], Some(items[i]));
      var items' := Replaced(items, i, item);
      if next.None? then (None, items') else ReadItems(d, next.value, i + 1, items')
  }

  // ---- The reader as the source runs it: loops on a cursor ----------------------------------

  method FindEntry(items: seq<Item>, name: seq<byte>, ty: byte) returns (i: nat)
    ensures i == Match(items, name, ty)
  {
    i := 0;
    while i < |items|
      invariant 0 <= i <= |items|
      invariant Match(items, name, ty) == i + Match(items[i..], name, ty)
    {
      if items[i].name == name && TypeFits(ty, items[i].ty) { break; }
      assert items[i..][1..] == items[i + 1..];
      i := i + 1;
    }
  }

  method ScanItem(d: seq<byte>, pos: nat, ty: byte, item: Option<Item>) returns (end: Option<nat>, stored: Option<Item>)
    requires pos <= |d|
    ensures (end, stored) == ReadItem(d, pos, ty, item)
    decreases |d| - pos, 1
  {
    if ty == OBJECT {
      var items;
      end, items := ScanObject(d, pos, SubItems(item));
      stored := WithItems(item, items);
    } else if ty == ECMA_ARRAY {
      if pos + 4 > |d| { return None, item; }
      var items;
      end, items := ScanObject(d, pos + 4, SubItems(item));
      stored := WithItems(item, items);
    } else if ty == STRICT_ARRAY {
      if pos + 4 > |d| { return None, item; }
      var items;
      end, items := ScanElements(d, pos, SubItems(item));
      stored := WithItems(item, items);
    } else {
      var r := ReadItem(d, pos, ty, item);
      end, stored := r.0, r.1;
    }
  }

  method ScanObject(d: seq<byte>, start: nat, schema: seq<Item>) returns (end: Option<nat>, items: seq<Item>)
    requires start <= |d|
    ensures (end, items) == ReadObject(d, start, schema)
    decreases |d| - start, 0
  {
    hide Get16, ReadItem, Match, At, Replaced, ObjectEnd;
    var pos := start;
    items := schema;
    while pos + 2 <= |d|
      invariant start <= pos <= |d|
      invariant ReadObject(d, pos, items) == ReadObject(d, start, schema)
      decreases |d| - pos
    {
      var len := Get16(d, pos);
      if len == 0 {
        return ObjectEnd(d, pos + 2), items;
      }
      var at := pos + 2;
      if at + len + 1 > |d| { return None, items; }
      var ty := d[at + len];
      var i := FindEntry(items, d[at..at + len], ty);
      var next, item := ScanItem(d, at + len + 1, ty, At(items, i));
      items := Replaced(items, i, item);
      if next.None? { return None, items; }
      pos := next.value;
    }
    end := ObjectEnd(d, pos);
  }

  method ScanElements(d: seq<byte>, start: nat, schema: seq<Item>) returns (end: Option<nat>, items: seq<Item>)
    requires start + 4 <= |d|
    ensures (end, items) == ReadElements(d, start + 4, Get32(d, start), 0, schema)
    decreases |d| - start, 0
  {
    var count, pos, i := Get32(d, start), start + 4, 0;
    items := schema;
    while i < count && pos < |d|
      invariant start < pos <= |d|
      invariant ReadElements(d, pos, count, i, items) == ReadElements(d, start + 4, count, 0, schema)
      decreases |d| - pos
    {
      var ty := d[pos];
      var fits := i < |items| && TypeFits(ty, items[i].ty);
      var next, item := ScanItem(d, pos + 1, ty, if fits then Some(items[i]) else None);
      if fits { items := Replaced(items, i, item); }
      if next.None? { return None, items; }
      pos, i := next.value, i + 1;
    }
    end := Some(pos);
  }

  method ScanItems(d: seq<byte>, start: nat, schema: seq<Item>) returns (end: Option<nat>, items: seq<Item>)
    requires start <= |d|
    ensures (end, items) == ReadItems(d, start, 0, schema)
  {
    var pos, i := start, 0;
    items := schema;
    while i < |items| && pos < |d|
      invariant start <= pos <= |d| && |items| == |schema|
      invariant ReadItems(d, pos, i, items) == ReadItems(d, start, 0, schema)
      decreases |d| - pos
    {
      if !TypeFits(d[pos], items[i].ty) { return None, items; }
      var next, item := ScanItem(d, pos + 1, d[pos], Some(items[i]));
      items := Replaced(items, i, item);
      if next.None? { return None, items; }
      pos, i := next.value, i + 1;
    }
    end := Some(pos);
  }
}
