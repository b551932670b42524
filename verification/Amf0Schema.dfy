/**
 * What the memory behind a schema holds once a message has been read into it, said without
 * the reader: by the values that were written, entry by entry and at every level.
 */
module Amf0Schema {
  import opened Bytes
  import opened Amf0
  import opened Amf0RoundTrip

  /** The values an entry of that declared type accepts; an object entry also takes arrays and null. */
  predicate Accepts(ty: byte, v: Value) {
    match v
    case Number(_) => ty == 0
    case Boolean(_) => ty == 1
    case Text(s) => if |s| <= 65535 then ty == 2 else ty == 12
    case Null => ty == 5 || ty == 3
    case Undefined => ty == 6
    case Date(_, _) => ty == 11
    case Object(_) => ty == 3
    case EcmaArray(_) => ty == 8 || ty == 3
  }

  lemma AcceptsIsTypeFits(ty: byte, v: Value)
    ensures Accepts(ty, v) <==> TypeFits(Marker(v), ty)
  {
  }

  /** The memory behind an entry is of the declared kind, at every level, or there is none. */
  predicate WellTyped(item: Item)
    decreases item
  {
    match item.cell
    case Nowhere => true
    case FlagCell(_) => item.ty == 1
    case DoubleCell(_) => item.ty == 0
    case DateCell(_, _) => item.ty == 11
    case TextCell(_) => item.ty == 2 || item.ty == 12
    case ItemsCell(items) =>
      (item.ty == 3 || item.ty == 8 || item.ty == 10) && forall i :: 0 <= i < |items| ==> WellTyped(items[i])
  }

  /** Entry `i` receives field `f`: the first one of that name that accepts the value. */
  predicate Receives(items: seq<Item>, i: nat, f: Field) {
    && i < |items| && items[i].name == f.name && Accepts(items[i].ty, f.value)
    && forall j :: 0 <= j < i ==> !(items[j].name == f.name && Accepts(items[j].ty, f.value))
  }

  lemma ReceivesIsTakes(items: seq<Item>, i: nat, f: Field)
    requires i < |items|
    ensures Receives(items, i, f) <==> Takes(items, i, f)
  {
    forall j | 0 <= j < |items| ensures Accepts(items[j].ty, f.value) <==> TypeFits(Marker(f.value), items[j].ty) {
      AcceptsIsTypeFits(items[j].ty, f.value);
    }
    hide Accepts, TypeFits, Marker;
    var k := Match(items, f.name, Marker(f.value));
  }

  /** A char array that received the string: the string and its terminator, or nothing but an empty string. */
  predicate Holds(text: seq<byte>, after: seq<byte>, s: seq<byte>) {
    && |after| == |text|
    && (|s| < |text| ==> after[..|s|] == s && after[|s|] == 0 && after[|s| + 1..] == text[|s| + 1..])
    && (0 < |text| <= |s| ==> after[0] == 0 && after[1..] == text[1..])
  }

  /** `after` is `cell` once `v` has been read into it. */
  ghost predicate Shows(cell: Cell, after: Cell, v: Value)
    decreases v
  {
    if cell.Nowhere? then after == cell
    else match v
      case Number(d) => after == DoubleCell(d)
      case Boolean(b) => after == FlagCell(if b then 1 else 0)
      case Text(s) => cell.TextCell? && after.TextCell? && Holds(cell.text, after.text, s)
      case Null => after == cell
      case Undefined => after == cell
      case Date(ms, zone) => after == DateCell(ms, zone)
      case Object(fields) => cell.ItemsCell? && after.ItemsCell? && ItemsShow(cell.items, after.items, fields)
      case EcmaArray(fields) => cell.ItemsCell? && after.ItemsCell? && ItemsShow(cell.items, after.items, fields)
  }

  /** Every entry shows the field it receives, and is as before if it receives none. */
  ghost predicate ItemsShow(items: seq<Item>, after: seq<Item>, fields: seq<Field>)
    decreases fields
  {
    && |after| == |items|
    && (forall i :: 0 <= i < |items| ==> after[i].name == items[i].name && after[i].ty == items[i].ty)
    && (forall i, j :: 0 <= i < |items| && 0 <= j < |fields| && Receives(items, i, fields[j]) ==>
          Shows(items[i].cell, after[i].cell, fields[j].value))
    && forall i :: 0 <= i < |items| && (forall j :: 0 <= j < |fields| ==> !Receives(items, i, fields[j])) ==>
         after[i] == items[i]
  }

  /** No object of the tree has two fields of one name. */
  predicate Distinct(v: Value)
    decreases v
  {
    match v
    case Object(fields) => DistinctNames(fields) && forall i :: 0 <= i < |fields| ==> Distinct(fields[i].value)
    case EcmaArray(fields) => DistinctNames(fields) && forall i :: 0 <= i < |fields| ==> Distinct(fields[i].value)
    case _ => true
  }

  lemma TextHolds(text: seq<byte>, s: seq<byte>)
    ensures Holds(text, TextStored(text, s), s)
  {
  }

  /** What the reader leaves in an entry is what the entry should show. */
  lemma {:induction false} PutShows(item: Item, v: Value)
    requires WellTyped(item) && Accepts(item.ty, v) && Distinct(v)
    ensures var after := Put(Some(item), v).value;
            after.name == item.name && after.ty == item.ty && Shows(item.cell, after.cell, v)
    decreases v, 1
  {
    hide Holds, TextStored, ItemsShow, PutAll;
    match v
    case Text(s) => if item.cell.TextCell? { TextHolds(item.cell.text, s); }
    case Object(fields) => if item.cell.ItemsCell? { PutAllShows(item.cell.items, fields); }
    case EcmaArray(fields) => if item.cell.ItemsCell? { PutAllShows(item.cell.items, fields); }
    case _ =>
  }

  lemma {:induction false} NamesKept(items: seq<Item>, fields: seq<Field>, i: nat)
    requires i < |items|
    ensures PutAll(items, fields)[i].name == items[i].name && PutAll(items, fields)[i].ty == items[i].ty
    decreases |fields|
  {
    hide Put, Match, Marker;
    if fields != [] {
      var k := Match(items, fields[0].name, Marker(fields[0].value));
      NamesKept(Replaced(items, k, Put(At(items, k), fields[0].value)), fields[1..], i);
    }
  }

  lemma {:induction false} PutAllShows(items: seq<Item>, fields: seq<Field>)
    requires (forall i :: 0 <= i < |items| ==> WellTyped(items[i])) && DistinctNames(fields)
    requires forall j :: 0 <= j < |fields| ==> Distinct(fields[j].value)
    ensures ItemsShow(items, PutAll(items, fields), fields)
    decreases fields, 0
  {
    hide Put, PutAll, Takes, Receives, Accepts, Shows, WellTyped, DistinctNames, Distinct;
    var after := PutAll(items, fields);
    forall i | 0 <= i < |items| ensures after[i].name == items[i].name && after[i].ty == items[i].ty {
      NamesKept(items, fields, i);
    }
    forall i, j | 0 <= i < |items| && 0 <= j < |fields| && Receives(items, i, fields[j])
      ensures Shows(items[i].cell, after[i].cell, fields[j].value)
    {
      ReceivesIsTakes(items, i, fields[j]);
      EntryFilled(items, fields, i, j);
      ReceivesAccepts(items, i, fields[j]);
      PutShows(items[i], fields[j].value);
    }
    forall i | 0 <= i < |items| && (forall j :: 0 <= j < |fields| ==> !Receives(items, i, fields[j]))
      ensures after[i] == items[i]
    {
      forall j | 0 <= j < |fields| ensures !Takes(items, i, fields[j]) {
        ReceivesIsTakes(items, i, fields[j]);
      }
      EntryUntouched(items, fields, i);
    }
  }

  lemma ReceivesAccepts(items: seq<Item>, i: nat, f: Field)
    requires Receives(items, i, f)
    ensures i < |items| && Accepts(items[i].ty, f.value)
  {
  }

  // ---- The reader fills the schema ---------------------------------------------------------

  /** For every tree: the reader stops exactly behind it, and the entry shows it. */
  lemma ValueIsStored(d: seq<byte>, pos: nat, v: Value, item: Item)
    requires Proper(v) && Distinct(v) && Has(d, pos, Payload(v)) && WellTyped(item) && Accepts(item.ty, v)
    ensures var (end, after) := ReadItem(d, pos, Marker(v), Some(item));
            && end == Some(pos + |Payload(v)|) && after.Some?
            && after.value.name == item.name && after.value.ty == item.ty
            && Shows(item.cell, after.value.cell, v)
  {
    hide ReadItem, Put, Shows, Payload, Proper, Distinct, WellTyped, Accepts;
    ReadsValue(d, pos, v, Some(item));
    PutShows(item, v);
  }

  /** Reading an object fills every entry with the field it receives and leaves the others alone. */
  lemma ObjectFillsSchema(d: seq<byte>, pos: nat, fields: seq<Field>, items: seq<Item>)
    requires ProperFields(fields) && DistinctNames(fields) && Has(d, pos, Fields(fields) + END)
    requires forall j :: 0 <= j < |fields| ==> Distinct(fields[j].value)
    requires forall i :: 0 <= i < |items| ==> WellTyped(items[i])
    ensures ReadObject(d, pos, items).0 == Some(pos + |Fields(fields)| + 3)
    ensures ItemsShow(items, ReadObject(d, pos, items).1, fields)
  {
    hide ReadObject, PutAll, ItemsShow, Distinct, WellTyped, Fields, ProperFields, DistinctNames;
    ReadsFields(d, pos, fields, items);
    PutAllShows(items, fields);
  }

  predicate AcceptsAll(items: seq<Item>, vs: seq<Value>) {
    |items| == |vs| && forall i :: 0 <= i < |vs| ==>
      Proper(vs[i]) && Distinct(vs[i]) && WellTyped(items[i]) && Accepts(items[i].ty, vs[i])
  }

  lemma {:induction false} PutFromAt(items: seq<Item>, i: nat, vs: seq<Value>, k: nat)
    requires i + |vs| <= |items| && k < |items|
    ensures PutFrom(items, i, vs)[k] == if i <= k < i + |vs| then Put(Some(items[k]), vs[k - i]).value else items[k]
    decreases |vs|
  {
    hide Put;
    if vs != [] {
      var items' := Replaced(items, i, Put(Some(items[i]), vs[0]));
      PutFromAt(items', i + 1, vs[1..], k);
    }
  }

  /** A message of values the schema accepts is read to its end, and every entry shows its value. */
  lemma MessageIsStored(vs: seq<Value>, items: seq<Item>)
    requires AcceptsAll(items, vs)
    ensures var (end, after) := ReadItems(EncodeAll(vs), 0, 0, items);
            && end == Some(|EncodeAll(vs)|)
            && forall i :: 0 <= i < |vs| ==> after[i].name == items[i].name && Shows(items[i].cell, after[i].cell, vs[i])
  {
    hide ReadItems, Put, Shows, Proper, Distinct, WellTyped, Accepts, PutFrom, EncodeAll, TypeFits, Marker;
    var d := EncodeAll(vs);
    assert d[0..0 + |d|] == d;
    forall k | 0 <= k < |vs| ensures TypeFits(Marker(vs[k]), items[0 + k].ty) {
      AcceptsIsTypeFits(items[k].ty, vs[k]);
    }
    MessageReads(d, 0, vs, 0, items);
    forall i | 0 <= i < |vs|
      ensures PutFrom(items, 0, vs)[i].name == items[i].name
      ensures Shows(items[i].cell, PutFrom(items, 0, vs)[i].cell, vs[i])
    {
      PutFromAt(items, 0, vs, i);
      PutShows(items[i], vs[i]);
    }
  }

  /** A value the entry does not accept ends the reading with a failure and changes nothing. */
  lemma MismatchRefused(d: seq<byte>, pos: nat, v: Value, i: nat, items: seq<Item>)
    requires Has(d, pos, Encode(v)) && i < |items| && !Accepts(items[i].ty, v)
    ensures ReadItems(d, pos, i, items) == (None, items)
  {
    hide Payload, ReadItem;
    HasSplit(d, pos, [Marker(v)], Payload(v));
    assert d[pos] == d[pos..pos + 1][0];
    AcceptsIsTypeFits(items[i].ty, v);
  }

  function PutElement(items: seq<Item>, i: nat, v: Value): (r: seq<Item>)
    ensures |r| == |items|
  {
    if i < |items| && Accepts(items[i].ty, v) then items[i := Put(Some(items[i]), v).value] else items
  }

  function PutElements(items: seq<Item>, i: nat, vs: seq<Value>): (r: seq<Item>)
    ensures |r| == |items|
    decreases |vs|
  {
    if vs == [] then items else PutElements(PutElement(items, i, vs[0]), i + 1, vs[1..])
  }

  lemma {:induction false} PutElementsAt(items: seq<Item>, i: nat, vs: seq<Value>, k: nat)
    requires k < |items|
    ensures PutElements(items, i, vs)[k] ==
            if i <= k < i + |vs| && Accepts(items[k].ty, vs[k - i]) then Put(Some(items[k]), vs[k - i]).value else items[k]
    decreases |vs|
  {
    hide Put, Accepts;
    if vs != [] {
      PutElementsAt(PutElement(items, i, vs[0]), i + 1, vs[1..], k);
    }
  }

  lemma NoElements(d: seq<byte>, pos: nat, i: nat, items: seq<Item>)
    requires pos <= |d|
    ensures ReadElements(d, pos, i, i, items) == (Some(pos), items)
  {
  }

  lemma {:induction false} ElementsRead(d: seq<byte>, pos: nat, vs: seq<Value>, i: nat, items: seq<Item>)
    requires Has(d, pos, EncodeAll(vs)) && forall k :: 0 <= k < |vs| ==> Proper(vs[k])
    ensures ReadElements(d, pos, i + |vs|, i, items) == (Some(pos + |EncodeAll(vs)|), PutElements(items, i, vs))
    decreases |vs|
  {
    hide ReadElements, Proper, Encode, PutElement;
    if vs == [] {
      NoElements(d, pos, i, items);
    } else {
      HasSplit(d, pos, Encode(vs[0]), EncodeAll(vs[1..]));
      ElementRead(d, pos, vs[0], i, i + |vs|, items);
      ElementsRead(d, pos + |Encode(vs[0])|, vs[1..], i + 1, PutElement(items, i, vs[0]));
    }
  }

  /**
   * A strict array is read element by element, no more than it announces; an element goes into
   * the entry of its place if that accepts it and is passed over otherwise.
   */
  lemma ElementsAreStored(d: seq<byte>, pos: nat, vs: seq<Value>, items: seq<Item>)
    requires Has(d, pos, U32(|vs|) + EncodeAll(vs)) && |vs| <= UINT32_MAX
    requires forall k :: 0 <= k < |vs| ==> Proper(vs[k]) && Distinct(vs[k])
    requires forall k :: 0 <= k < |items| ==> WellTyped(items[k])
    ensures var (end, after) := ReadItem(d, pos, STRICT_ARRAY, Some(Item(STRICT_ARRAY, [], ItemsCell(items))));
            && end == Some(pos + 4 + |EncodeAll(vs)|)
            && after.Some? && after.value.cell.ItemsCell? && |after.value.cell.items| == |items|
            && forall k :: 0 <= k < |items| ==>
                 if k < |vs| && Accepts(items[k].ty, vs[k])
                 then after.value.cell.items[k].name == items[k].name
                      && Shows(items[k].cell, after.value.cell.items[k].cell, vs[k])
                 else after.value.cell.items[k] == items[k]
  {
    hide ReadElements, ReadObject, Put, Shows, Proper, Distinct, WellTyped, Accepts, EncodeAll, U32, Get32, PutElements;
    HasSplit(d, pos, U32(|vs|), EncodeAll(vs));
    Get32Back(d, pos, |vs|);
    ElementsRead(d, pos + 4, vs, 0, items);
    forall k | 0 <= k < |items|
      ensures var after := PutElements(items, 0, vs)[k];
              if k < |vs| && Accepts(items[k].ty, vs[k])
              then after.name == items[k].name && Shows(items[k].cell, after.cell, vs[k]) else after == items[k]
    {
      PutElementsAt(items, 0, vs, k);
      if k < |vs| && Accepts(items[k].ty, vs[k]) { PutShows(items[k], vs[k]); }
    }
  }

  lemma ElementRead(d: seq<byte>, pos: nat, v: Value, i: nat, count: nat, items: seq<Item>)
    requires Has(d, pos, Encode(v)) && Proper(v) && i < count
    ensures ReadElements(d, pos, count, i, items)
         == ReadElements(d, pos + |Encode(v)|, count, i + 1,
                         PutElement(items, i, v))
  {
    hide ReadItem, Put, Proper, Payload, Marker, TypeFits, Accepts;
    HasSplit(d, pos, [Marker(v)], Payload(v));
    assert d[pos] == d[pos..pos + 1][0];
    if i < |items| { AcceptsIsTypeFits(items[i].ty, v); }
    var fits := i < |items| && TypeFits(Marker(v), items[i].ty);
    ReadsValue(d, pos + 1, v, if fits then Some(items[i]) else None);
  }

  /** Bytes on the wire: markers, lengths and numbers most significant byte first (section 2 of the AMF0 specification). */
  lemma WireFormat(d: Double, n: nat)
    requires n <= UINT32_MAX
    ensures Encode(Number(d)) == [0, d[7], d[6], d[5], d[4], d[3], d[2], d[1], d[0]]
    ensures Encode(Boolean(true)) == [1, 1] && Encode(Boolean(false)) == [1, 0]
    ensures Encode(Text([104, 105])) == [2, 0, 2, 104, 105] && Encode(Null) == [5] && Encode(Undefined) == [6]
    ensures Encode(Object([])) == [3, 0, 0, 9] && Encode(EcmaArray([])) == [8, 0, 0, 0, 0, 0, 0, 9]
    ensures Encode(Date(d, 60)) == [11, d[7], d[6], d[5], d[4], d[3], d[2], d[1], d[0], 0, 60]
    ensures U32(n) == [n / 0x1000000, n / 0x10000 % 256, n / 256 % 256, n % 256]
  {
    hide Get16, Get32;
    assert Fields([]) == [];
    assert [] + END == END;
  }

  // ---- What is not a value -----------------------------------------------------------------

  /** A value without fields that breaks off anywhere is refused. */
  lemma ShortValueFails(d: seq<byte>, pos: nat, v: Value, item: Option<Item>)
    requires Proper(v) && !v.Object? && !v.EcmaArray? && pos <= |d| && d[pos..] < Payload(v)
    ensures ReadItem(d, pos, Marker(v), item).0 == None
  {
    hide ReadObject, ReadElements, Reversed;
    match v
    case Text(s) =>
      var h := if |s| < 65536 then 2 else 4;
      if |d| - pos >= h {
        var head := if |s| < 65536 then U16(|s|) else U32(|s|);
        assert Payload(v)[..h] == head;
        assert d[pos..pos + h] == d[pos..][..h] == head;
        if |s| < 65536 { Get16Back(d, pos, |s|); } else { Get32Back(d, pos, |s|); }
      }
    case _ =>
  }

  /** A byte that is no type marker of the reader is refused. */
  lemma UnknownMarkerFails(d: seq<byte>, pos: nat, ty: byte, item: Option<Item>)
    requires pos <= |d| && (ty == 4 || ty == 7 || ty == 9 || ty > 12)
    ensures ReadItem(d, pos, ty, item) == (None, item)
  {
    hide ReadObject, ReadElements, ReadText, ReadDate;
  }

  /** The fields at the front of an object are read, whatever comes behind them. */
  lemma {:induction false} FrontFieldsRead(d: seq<byte>, pos: nat, fields: seq<Field>, items: seq<Item>)
    requires ProperFields(fields) && Has(d, pos, Fields(fields))
    ensures ReadObject(d, pos, items) == ReadObject(d, pos + |Fields(fields)|, PutAll(items, fields))
    decreases |fields|
  {
    hide Named, ReadObject, Match, Put, Replaced, At, Marker, Proper;
    if fields != [] {
      var f := fields[0];
      HasSplit(d, pos, Named(f), Fields(fields[1..]));
      ReadsField(d, pos, f, items);
      var i := Match(items, f.name, Marker(f.value));
      FrontFieldsRead(d, pos + |Named(f)|, fields[1..], Replaced(items, i, Put(At(items, i), f.value)));
    }
  }

  /**
   * An object that breaks off behind some fields, before or inside the name of the next one, is
   * refused, but for one case: a single byte of a name of 2304 to 2559 bytes passes for the end.
   */
  lemma TruncatedObject(d: seq<byte>, pos: nat, fields: seq<Field>, f: Field, k: nat, items: seq<Item>)
    requires ProperFields(fields) && 0 < |f.name| <= UINT16_MAX && k < 3 + |f.name| && pos <= |d|
    requires d[pos..] == Fields(fields) + Named(f)[..k]
    ensures ReadObject(d, pos, items).0 == if k == 1 && |f.name| / 256 == 9 then Some(|d|) else None
  {
    hide ReadObject, Named, Fields, PutAll, ProperFields;
    var at, x := pos + |Fields(fields)|, Named(f);
    NamedHead(f);
    FrontAndTail(d, pos, Fields(fields), x[..k]);
    FrontFieldsRead(d, pos, fields, items);
    CutName(d, at, f, k, PutAll(items, fields));
  }

  /** The one byte 9, all that is left of an object with a field whose name is 2304 bytes long, is read as an object. */
  lemma EndMistakenExample(items: seq<Item>)
    ensures var f := Field(seq(2304, _ => 97), Null);
            Named(f)[..1] == [9] && ReadObject(Named(f)[..1], 0, items) == (Some(1), items)
  {
    var f := Field(seq(2304, _ => 97), Null);
    NamedHead(f);
    assert 2304 / 256 == 9;
    var d := Named(f)[..1];
    assert d == [9];
  }

  lemma FrontAndTail(d: seq<byte>, pos: nat, a: seq<byte>, b: seq<byte>)
    requires pos <= |d| && d[pos..] == a + b
    ensures Has(d, pos, a) && d[pos + |a|..] == b
  {
    assert d[pos..pos + |a|] == d[pos..][..|a|];
    assert d[pos + |a|..] == d[pos..][|a|..];
  }

  lemma NamedHead(f: Field)
    requires |f.name| <= UINT16_MAX
    ensures |Named(f)| >= 3 + |f.name| && Named(f)[0] == |f.name| / 256 && Named(f)[1] == |f.name| % 256
  {
    hide Payload, Marker;
  }

  lemma CutName(d: seq<byte>, at: nat, f: Field, k: nat, items: seq<Item>)
    requires 0 < |f.name| <= UINT16_MAX && k < 3 + |f.name| <= |Named(f)| && at <= |d| && d[at..] == Named(f)[..k]
    ensures ReadObject(d, at, items).0 == if k == 1 && |f.name| / 256 == 9 then Some(|d|) else None
  {
    hide ReadItem, Match, Named, At, Replaced;
    NamedHead(f);
    assert |d| == at + k;
    if k > 0 { assert d[at] == d[at..][0]; }
    if k > 1 { assert d[at + 1] == d[at..][1]; }
  }
}
