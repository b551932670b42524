/**
 * The onMetaData message that streamer/rtmp_streamer.c builds with the AMF0 writers into a
 * buffer of precomputed size.
 */
module RtmpMetadata {
  import opened Bytes
  import opened Amf0
  import opened Amf0RoundTrip
  import opened Amf0Schema
  import opened Amf0Writer

  const EVENT: seq<byte> := [111, 110, 77, 101, 116, 97, 68, 97, 116, 97]
  const TITLE: seq<byte> := [116, 105, 116, 108, 101]
  const AUTHOR: seq<byte> := [97, 117, 116, 104, 111, 114]

  /** rtmp_metadata_field_size. */
  function FieldSize(nameSize: nat, valueSize: nat): (r: Option<nat>)
    requires nameSize <= UINT64_MAX
  {
    if nameSize > UINT16_MAX || valueSize > UINT32_MAX then None
    else
      var lengthSize := if valueSize < UINT16_MAX + 1 then 2 else 4;
      if valueSize > UINT64_MAX - nameSize - lengthSize - 3 then None
      else Some(nameSize + valueSize + lengthSize + 3)
  }

  /** The precomputed size is what the writers emit, for short and for long values. */
  lemma FieldSizeExact(name: seq<byte>, s: seq<byte>)
    requires |name| <= UINT16_MAX
    ensures FieldSize(|name|, |s|) == if |s| > UINT32_MAX then None else Some(|Named(Field(name, Text(s)))|)
  {
  }

  datatype Failure = TooLarge | NoMemory | Mismatch
  datatype Message = Nothing | Failed(why: Failure) | Message(payload: seq<byte>)

  function MetadataFields(title: Option<seq<byte>>, author: Option<seq<byte>>): (r: seq<Field>) {
    (if title.None? then [] else [Field(TITLE, Text(title.value))])
    + (if author.None? then [] else [Field(AUTHOR, Text(author.value))])
  }

  function Metadata(title: Option<seq<byte>>, author: Option<seq<byte>>): (r: seq<byte>) {
    Encode(Text(EVENT)) + Encode(Object(MetadataFields(title, author)))
  }

  predicate Fits(text: Option<seq<byte>>) { text.None? || |text.value| <= UINT32_MAX }

  /** The bytes of an optional text field. */
  function FieldBytes(name: seq<byte>, text: Option<seq<byte>>): (r: seq<byte>) {
    if text.None? then [] else Named(Field(name, Text(text.value)))
  }

  lemma MetadataParts(title: Option<seq<byte>>, author: Option<seq<byte>>)
    ensures |Encode(Text(EVENT))| == 13
    ensures Metadata(title, author)
         == Encode(Text(EVENT)) + [OBJECT] + FieldBytes(TITLE, title) + FieldBytes(AUTHOR, author) + END
  {
    hide Named;
    var fields := MetadataFields(title, author);
    if fields != [] {
      assert Fields(fields) == Named(fields[0]) + Fields(fields[1..]);
      if |fields| == 2 {
        assert fields[1..] == [fields[1]];
        assert Fields(fields[1..]) == Named(fields[1]) + Fields(fields[1..][1..]);
      }
    }
    assert Fields(fields) == FieldBytes(TITLE, title) + FieldBytes(AUTHOR, author);
    assert Encode(Object(fields)) == [OBJECT] + (Fields(fields) + END);
  }

  /** A field is written if the text is there. */
  method WriteField(buf: array<byte>, ptr: nat, end: nat, name: seq<byte>, text: Option<seq<byte>>) returns (r: Option<nat>)
    requires ptr <= end <= buf.Length && Fits(text)
    modifies buf
    ensures r == if ptr + |FieldBytes(name, text)| > end then None else Some(ptr + |FieldBytes(name, text)|)
    ensures r.Some? ==> buf[..r.value] == old(buf[..ptr]) + FieldBytes(name, text)
  {
    if text.None? { return Some(ptr); }
    r := WriteNamedText(buf, ptr, end, name, text.value);
  }

  /** The size accumulation at the head of rtmp_streamer_send_metadata. */
  method PayloadSize(title: Option<seq<byte>>, author: Option<seq<byte>>) returns (size: Option<nat>)
    ensures size == if Fits(title) && Fits(author) then Some(|Metadata(title, author)|) else None
  {
    MetadataParts(title, author);
    hide Metadata, MetadataFields, Encode, Fields, FieldSize;
    var total := 1 + 2 + |EVENT| + 1 + 3;
    if title.Some? {
      FieldSizeExact(TITLE, title.value);
      hide Named;
      var f := FieldSize(|TITLE|, |title.value|);
      if f.None? || f.value > UINT64_MAX - total { return None; }
      total := total + f.value;
    }
    if author.Some? {
      FieldSizeExact(AUTHOR, author.value);
      hide Named;
      var f := FieldSize(|AUTHOR|, |author.value|);
      if f.None? || f.value > UINT64_MAX - total { return None; }
      total := total + f.value;
    }
    size := Some(total);
  }

  /** The writer calls of rtmp_streamer_send_metadata. */
  method FillMetadata(buf: array<byte>, end: nat, title: Option<seq<byte>>, author: Option<seq<byte>>)
    returns (ptr: Option<nat>)
    requires end == |Metadata(title, author)| == buf.Length && Fits(title) && Fits(author)
    modifies buf
    ensures ptr == Some(end) && buf[..end] == Metadata(title, author)
  {
    MetadataParts(title, author);
    hide Metadata, MetadataFields, Encode, FieldBytes, Fields;
    ptr := WriteText(buf, 0, end, EVENT);
    if ptr.Some? { ptr := WriteObject(buf, ptr.value, end); }
    if ptr.Some? { ptr := WriteField(buf, ptr.value, end, TITLE, title); }
    if ptr.Some? { ptr := WriteField(buf, ptr.value, end, AUTHOR, author); }
    if ptr.Some? { ptr := WriteObjectEnd(buf, ptr.value, end); }
  }

  /** rtmp_streamer_send_metadata up to the hand-over. The writers always end exactly at the end. */
  method BuildMetadata(title: Option<seq<byte>>, author: Option<seq<byte>>, memory: bool) returns (m: Message)
    ensures m != Failed(Mismatch)
    ensures m == Nothing <==> title.None? && author.None?
    ensures m == Failed(TooLarge) <==> !(Fits(title) && Fits(author))
    ensures m == Failed(NoMemory) ==> !memory
    ensures m.Message? ==> m.payload == Metadata(title, author)
  {
    if title.None? && author.None? { return Nothing; }
    var size := PayloadSize(title, author);
    if size.None? { return Failed(TooLarge); }
    if !memory { return Failed(NoMemory); }
    var end := size.value;
    var buf := new byte[end];
    var ptr := FillMetadata(buf, end, title, author);
    if ptr != Some(end) { return Failed(Mismatch); }
    m := Message(buf[..end]);
  }

  lemma MetadataProper(title: Option<seq<byte>>, author: Option<seq<byte>>)
    requires Fits(title) && Fits(author)
    ensures Proper(Object(MetadataFields(title, author))) && Proper(Text(EVENT))
    ensures Marker(Text(EVENT)) == STRING
  {
  }

  lemma MetadataDistinct(title: Option<seq<byte>>, author: Option<seq<byte>>)
    ensures Distinct(Object(MetadataFields(title, author))) && Distinct(Text(EVENT))
  {
    assert TITLE[0] != AUTHOR[0];
  }

  /** A receiver with a text for the event and any schema for the object reads the message to its exact end. */
  lemma MetadataReadsBack(title: Option<seq<byte>>, author: Option<seq<byte>>, text: seq<byte>, items: seq<Item>)
    requires Fits(title) && Fits(author) && forall i :: 0 <= i < |items| ==> WellTyped(items[i])
    ensures var d, schema := Metadata(title, author), [Item(STRING, [], TextCell(text)), Item(OBJECT, [], ItemsCell(items))];
            var (end, after) := ReadItems(d, 0, 0, schema);
            && end == Some(|d|)
            && after[0].cell.TextCell? && Holds(text, after[0].cell.text, EVENT)
            && after[1].cell.ItemsCell? && ItemsShow(items, after[1].cell.items, MetadataFields(title, author))
  {
    hide Encode, EncodeAll, MetadataFields, ReadItems, Holds, ItemsShow, AcceptsAll, Shows, WellTyped;
    var values := [Text(EVENT), Object(MetadataFields(title, author))];
    var schema := [Item(STRING, [], TextCell(text)), Item(OBJECT, [], ItemsCell(items))];
    SchemaAccepts(title, author, text, items);
    EncodeTwo(values[0], values[1]);
    MessageIsStored(values, schema);
    var after := ReadItems(Metadata(title, author), 0, 0, schema).1;
    assert Shows(schema[0].cell, after[0].cell, values[0]) && Shows(schema[1].cell, after[1].cell, values[1]);
    ShownText(text, after[0].cell, EVENT);
    ShownObject(items, after[1].cell, MetadataFields(title, author));
  }

  lemma SchemaAccepts(title: Option<seq<byte>>, author: Option<seq<byte>>, text: seq<byte>, items: seq<Item>)
    requires Fits(title) && Fits(author) && forall i :: 0 <= i < |items| ==> WellTyped(items[i])
    ensures AcceptsAll([Item(STRING, [], TextCell(text)), Item(OBJECT, [], ItemsCell(items))],
                       [Text(EVENT), Object(MetadataFields(title, author))])
  {
    hide Proper, Distinct, MetadataFields;
    MetadataProper(title, author);
    MetadataDistinct(title, author);
  }

  lemma ShownText(text: seq<byte>, after: Cell, s: seq<byte>)
    requires Shows(TextCell(text), after, Text(s))
    ensures after.TextCell? && Holds(text, after.text, s)
  {
  }

  lemma ShownObject(items: seq<Item>, after: Cell, fields: seq<Field>)
    requires Shows(ItemsCell(items), after, Object(fields))
    ensures after.ItemsCell? && ItemsShow(items, after.items, fields)
  {
    hide ItemsShow;
  }

  lemma EncodeTwo(v: Value, w: Value)
    ensures EncodeAll([v, w]) == Encode(v) + Encode(w)
  {
    hide Encode;
    var vs := [v, w];
    assert vs[1..] == [w] && vs[1..][1..] == [];
    assert EncodeAll(vs[1..]) == Encode(w) + EncodeAll([]);
  }

  /** An entry for the title, or for the author, that has the space then holds exactly that text. */
  lemma TextsComeBack(title: Option<seq<byte>>, author: Option<seq<byte>>, items: seq<Item>, after: seq<Item>, i: nat, s: seq<byte>)
    requires ItemsShow(items, after, MetadataFields(title, author)) && i < |items| && items[i].cell.TextCell?
    requires || (title == Some(s) && Receives(items, i, Field(TITLE, Text(s))))
             || (author == Some(s) && Receives(items, i, Field(AUTHOR, Text(s))))
    requires |s| < |items[i].cell.text|
    ensures after[i].cell.TextCell? && |s| < |after[i].cell.text| && after[i].cell.text[..|s|] == s && after[i].cell.text[|s|] == 0
  {
    hide Receives;
    var fields := MetadataFields(title, author);
    var j := if title == Some(s) && Receives(items, i, Field(TITLE, Text(s))) then 0 else |fields| - 1;
    assert Receives(items, i, fields[j]) && fields[j].value == Text(s);
    assert Shows(items[i].cell, after[i].cell, fields[j].value);
  }
}
