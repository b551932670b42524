/**
 * What vp8_depacketize and vp9_depacketize do with every payload: how long its descriptor is,
 * whatever optional fields it has, and what becomes of the bytes behind it.
 */
module VpxReception {
  import opened Bytes
  import opened Vpx

  /** `x` stands in `p` at `at`. */
  predicate At(p: seq<byte>, at: nat, x: seq<byte>) { at + |x| <= |p| && p[at..at + |x|] == x }

  lemma AtSplit(p: seq<byte>, at: nat, x: seq<byte>, y: seq<byte>)
    requires At(p, at, x + y)
    ensures At(p, at, x) && At(p, at + |x|, y)
  {
    assert p[at..at + |x|] == (x + y)[..|x|];
    assert p[at + |x|..at + |x| + |y|] == (x + y)[|x|..];
  }

  lemma AtFirst(p: seq<byte>, at: nat, x: seq<byte>)
    requires At(p, at, x) && x != []
    ensures at < |p| && p[at] == x[0]
  {
    assert p[at] == p[at..at + |x|][0];
  }

  /** A picture id: one byte below 128, or two bytes the first of which is not. */
  predicate IsPictureId(x: seq<byte>) { (|x| == 1 && x[0] < 128) || (|x| == 2 && x[0] >= 128) }

  lemma PictureIdReads(p: seq<byte>, at: nat, x: seq<byte>)
    requires At(p, at, x) && IsPictureId(x)
    ensures PictureId(p, at) == Some(at + |x|)
  {
    AtFirst(p, at, x);
  }

  // ---- VP8: figure 1 of RFC 7741 -----------------------------------------------------------

  /** The optional fields behind the first byte: extension bits, then what they announce. */
  predicate IsVp8Tail(first: byte, tail: seq<byte>, picture: seq<byte>, tl0: seq<byte>, tid: seq<byte>) {
    if first < 128 then tail == []
    else
      && tail != [] && tail == [tail[0]] + picture + tl0 + tid
      && (if tail[0] >= 128 then IsPictureId(picture) else picture == [])
      && |tl0| == (if tail[0] / 64 % 2 == 1 then 1 else 0)
      && |tid| == (if tail[0] / 32 % 2 == 1 || tail[0] / 16 % 2 == 1 then 1 else 0)
  }

  /** Whatever fields are there, the descriptor ends where they end. */
  lemma Vp8Length(first: byte, tail: seq<byte>, picture: seq<byte>, tl0: seq<byte>, tid: seq<byte>, body: seq<byte>)
    requires IsVp8Tail(first, tail, picture, tl0, tid)
    ensures DescriptorLength(VP8, [first] + tail + body) == Some(1 + |tail|)
  {
    hide PictureId, IsPictureId, Bit, At;
    var p := [first] + tail + body;
    Bits(first);
    assert p[0] == first;
    if first >= 128 {
      Vp8Places(first, tail, picture, tl0, tid, body);
      Bits(tail[0]);
      if tail[0] >= 128 { PictureIdReads(p, 2, picture); }
    }
  }

  lemma Vp8Places(first: byte, tail: seq<byte>, picture: seq<byte>, tl0: seq<byte>, tid: seq<byte>, body: seq<byte>)
    requires tail != [] && tail == [tail[0]] + picture + tl0 + tid
    ensures var p := [first] + tail + body; p[1] == tail[0] && At(p, 2, picture)
  {
    var p := [first] + tail + body;
    assert p == [first, tail[0]] + picture + (tl0 + tid + body);
    InTheMiddle([first, tail[0]], picture, tl0 + tid + body);
  }

  lemma InTheMiddle(a: seq<byte>, x: seq<byte>, b: seq<byte>)
    ensures At(a + x + b, |a|, x)
  {
  }

  /** The flag bits of a byte, as the fields above name them. */
  lemma Bits(b: byte)
    ensures Bit(b, 128) <==> b >= 128
    ensures Bit(b, 64) <==> b / 64 % 2 == 1
    ensures Bit(b, 32) <==> b / 32 % 2 == 1
    ensures Bit(b, 16) <==> b / 16 % 2 == 1
    ensures Bit(b, 8) <==> b / 8 % 2 == 1
    ensures Bit(b, 2) <==> b / 2 % 2 == 1
  {
  }

  // ---- VP9: figure 3 of RFC 9628 -----------------------------------------------------------

  /** Reference indices: every byte but the last says that another follows. */
  predicate AreReferences(x: seq<byte>) {
    x != [] && x[|x| - 1] % 2 == 0 && forall i :: 0 <= i < |x| - 1 ==> x[i] % 2 == 1
  }

  lemma {:induction false} ReferencesRead(p: seq<byte>, at: nat, x: seq<byte>)
    requires At(p, at, x) && AreReferences(x)
    ensures References(p, at) == Some(at + |x|)
    decreases |x|
  {
    AtFirst(p, at, x);
    if |x| > 1 {
      assert x[0] % 2 == 1;
      assert x == [x[0]] + x[1..];
      AtSplit(p, at, [x[0]], x[1..]);
      ReferencesRead(p, at + 1, x[1..]);
    }
  }

  /** The groups of a scalability structure, each with as many reference bytes as it says. */
  predicate AreGroups(groups: seq<seq<byte>>) {
    forall i :: 0 <= i < |groups| ==> groups[i] != [] && |groups[i]| == 1 + groups[i][0] % 4
  }

  lemma {:induction false} GroupsRead(p: seq<byte>, at: nat, groups: seq<seq<byte>>)
    requires At(p, at, Concat(groups)) && AreGroups(groups)
    ensures Groups(p, at, |groups|) == Some(at + |Concat(groups)|)
    decreases |groups|
  {
    if groups != [] {
      var g := groups[0];
      AtSplit(p, at, g, Concat(groups[1..]));
      AtFirst(p, at, g);
      GroupsRead(p, at + |g|, groups[1..]);
    }
  }

  /** A scalability structure: its header, four bytes for each spatial layer, and counted groups. */
  predicate IsStructure(x: seq<byte>, sizes: seq<byte>, groups: seq<seq<byte>>) {
    && x != [] && AreGroups(groups) && |groups| < 256
    && x == [x[0]] + sizes + (if x[0] / 8 % 2 == 1 then [|groups|] + Concat(groups) else [])
    && |sizes| == if x[0] / 16 % 2 == 1 then (x[0] / 32 + 1) * 4 else 0
  }

  lemma StructureReads(p: seq<byte>, at: nat, x: seq<byte>, sizes: seq<byte>, groups: seq<seq<byte>>)
    requires At(p, at, x) && IsStructure(x, sizes, groups)
    ensures Scalability(p, at) == Some(at + |x|)
  {
    hide Groups, AreGroups, Concat, Bit, At, IsStructure;
    StructurePlaces(p, at, x, sizes, groups);
    Bits(x[0]);
    if x[0] / 8 % 2 == 1 { GroupsRead(p, at + 2 + |sizes|, groups); }
  }

  lemma StructureForm(x: seq<byte>, sizes: seq<byte>, groups: seq<seq<byte>>)
    requires IsStructure(x, sizes, groups)
    ensures x != [] && AreGroups(groups) && |groups| < 256
    ensures |sizes| == if x[0] / 16 % 2 == 1 then (x[0] / 32 + 1) * 4 else 0
    ensures x[0] / 8 % 2 == 1 ==> x == ([x[0]] + sizes) + ([|groups|] + Concat(groups))
    ensures x[0] / 8 % 2 != 1 ==> |x| == 1 + |sizes|
  {
    hide AreGroups, Concat;
  }

  lemma StructurePlaces(p: seq<byte>, at: nat, x: seq<byte>, sizes: seq<byte>, groups: seq<seq<byte>>)
    requires At(p, at, x) && IsStructure(x, sizes, groups)
    ensures x != [] && at + |x| <= |p| && p[at] == x[0] && AreGroups(groups)
    ensures |sizes| == if x[0] / 16 % 2 == 1 then (x[0] / 32 + 1) * 4 else 0
    ensures if x[0] / 8 % 2 == 1
            then && |x| == 2 + |sizes| + |Concat(groups)|
                 && p[at + 1 + |sizes|] == |groups| && At(p, at + 2 + |sizes|, Concat(groups))
            else |x| == 1 + |sizes|
  {
    hide AreGroups, Concat, At, IsStructure;
    StructureForm(x, sizes, groups);
    AtBound(p, at, x);
    AtFirst(p, at, x);
    if x[0] / 8 % 2 == 1 {
      AtSplit(p, at, [x[0]] + sizes, [|groups|] + Concat(groups));
      AtSplit(p, at + 1 + |sizes|, [|groups|], Concat(groups));
      AtFirst(p, at + 1 + |sizes|, [|groups|]);
    }
  }

  lemma AtBound(p: seq<byte>, at: nat, x: seq<byte>)
    requires At(p, at, x)
    ensures at + |x| <= |p|
  {
  }

  /** The optional fields of a VP9 descriptor. */
  datatype Vp9Fields = Vp9Fields(
    picture: seq<byte>, layers: seq<byte>, references: seq<byte>, structure: seq<byte>,
    sizes: seq<byte>, groups: seq<seq<byte>>)
  {
    function Tail(): seq<byte> { picture + layers + references + structure }

    /** They are the ones the first byte announces. */
    predicate Match(first: byte) {
      && (if first >= 128 then IsPictureId(picture) else picture == [])
      && |layers| == (if first / 32 % 2 == 0 then 0 else if first / 16 % 2 == 1 then 1 else 2)
      && (if first / 16 % 2 == 1 && first / 64 % 2 == 1 then AreReferences(references) else references == [])
      && (if first / 2 % 2 == 1 then IsStructure(structure, sizes, groups) else structure == [])
    }
  }

  lemma Vp9Length(first: byte, f: Vp9Fields, body: seq<byte>)
    requires f.Match(first)
    ensures DescriptorLength(VP9, [first] + f.Tail() + body) == Some(1 + |f.Tail()|)
  {
    hide PictureId, References, Scalability, IsPictureId, AreReferences, IsStructure, At, Bit;
    var p := [first] + f.Tail() + body;
    Bits(first);
    Vp9Places(first, f, body);
    var b := 1 + |f.picture| + |f.layers|;
    if first >= 128 { PictureIdReads(p, 1, f.picture); }
    if first / 16 % 2 == 1 && first / 64 % 2 == 1 { ReferencesRead(p, b, f.references); }
    if first / 2 % 2 == 1 { StructureReads(p, b + |f.references|, f.structure, f.sizes, f.groups); }
  }

  lemma Vp9Places(first: byte, f: Vp9Fields, body: seq<byte>)
    ensures var p, b := [first] + f.Tail() + body, 1 + |f.picture| + |f.layers|;
            && p[0] == first && At(p, 1, f.picture) && At(p, b, f.references) && At(p, b + |f.references|, f.structure)
  {
    hide At;
    var p, b := [first] + f.Tail() + body, 1 + |f.picture| + |f.layers|;
    InTheMiddle([first], f.Tail(), body);
    Regrouped(f.picture, f.layers, f.references, f.structure);
    AtSplit(p, 1, f.picture, f.layers + (f.references + f.structure));
    AtSplit(p, 1 + |f.picture|, f.layers, f.references + f.structure);
    AtSplit(p, b, f.references, f.structure);
  }

  lemma Regrouped(a: seq<byte>, b: seq<byte>, c: seq<byte>, d: seq<byte>)
    ensures a + b + c + d == a + (b + (c + d))
  {
  }

  // ---- A descriptor that breaks off --------------------------------------------------------

  lemma {:induction false} ReferencesExtend(p: seq<byte>, rest: seq<byte>, at: nat)
    requires References(p, at).Some?
    ensures References(p + rest, at) == References(p, at) && References(p, at).value <= |p|
    decreases |p| - at
  {
    assert (p + rest)[at] == p[at];
    if Bit(p[at], 1) { ReferencesExtend(p, rest, at + 1); }
  }

  lemma {:induction false} GroupsExtend(p: seq<byte>, rest: seq<byte>, at: nat, count: nat)
    requires at <= |p| && Groups(p, at, count).Some?
    ensures Groups(p + rest, at, count) == Groups(p, at, count) && Groups(p, at, count).value <= |p|
    decreases count
  {
    if count > 0 {
      assert (p + rest)[at] == p[at];
      GroupsExtend(p, rest, at + 1 + p[at] % 4, count - 1);
    }
  }

  lemma ScalabilityExtends(p: seq<byte>, rest: seq<byte>, at: nat)
    requires Scalability(p, at).Some?
    ensures Scalability(p + rest, at) == Scalability(p, at) && Scalability(p, at).value <= |p|
  {
    hide Groups;
    assert (p + rest)[at] == p[at];
    var h := p[at];
    var sized := if Bit(h, 16) then at + 1 + (h / 32 + 1) * 4 else at + 1;
    if Bit(h, 8) {
      assert (p + rest)[sized] == p[sized];
      GroupsExtend(p, rest, sized + 1, p[sized]);
    }
  }

  lemma PictureIdExtends(p: seq<byte>, rest: seq<byte>, at: nat)
    requires PictureId(p, at).Some?
    ensures PictureId(p + rest, at) == PictureId(p, at) && PictureId(p, at).value <= |p|
  {
    assert (p + rest)[at] == p[at];
  }

  lemma Vp9Extends(p: seq<byte>, rest: seq<byte>)
    requires p != [] && Vp9Descriptor(p).Some?
    ensures Vp9Descriptor(p + rest) == Vp9Descriptor(p) && Vp9Descriptor(p).value <= |p|
  {
    hide PictureId, References, Scalability;
    var d := p[0];
    assert (p + rest)[0] == d;
    var a := if Bit(d, 128) then PictureId(p, 1) else Some(1);
    if Bit(d, 128) && a.Some? { PictureIdExtends(p, rest, 1); }
    var b := if Bit(d, 32) then Skip(p, a, if Bit(d, 16) then 1 else 2) else a;
    var c := if b.Some? && Bit(d, 16) && Bit(d, 64) then References(p, b.value) else b;
    if b.Some? && Bit(d, 16) && Bit(d, 64) && c.Some? { ReferencesExtend(p, rest, b.value); }
    if c.Some? && Bit(d, 2) { ScalabilityExtends(p, rest, c.value); }
  }

  lemma Vp8Extends(p: seq<byte>, rest: seq<byte>)
    requires p != [] && Vp8Descriptor(p).Some?
    ensures Vp8Descriptor(p + rest) == Vp8Descriptor(p) && Vp8Descriptor(p).value <= |p|
  {
    assert (p + rest)[0] == p[0];
    if |p| > 1 { assert (p + rest)[1] == p[1]; }
    if |p| > 2 { assert (p + rest)[2] == p[2]; }
  }

  /** A payload that breaks off inside its descriptor is refused. */
  lemma DescriptorCutShort(kind: Kind, cap: nat, s: Reassembly, whole: seq<byte>, k: nat, room: nat)
    requires whole != [] && DescriptorLength(kind, whole) == Some(|whole|) && 0 < k < |whole|
    ensures Depacketize(kind, cap, s, whole[..k], room) == Fail(s, Invalid)
  {
    hide Vp8Descriptor, Vp9Descriptor;
    var p := whole[..k];
    assert whole == p + whole[k..];
    if DescriptorLength(kind, p).Some? {
      if kind == VP8 { Vp8Extends(p, whole[k..]); } else { Vp9Extends(p, whole[k..]); }
    }
  }

  // ---- What becomes of the bytes -----------------------------------------------------------

  predicate StartBit(kind: Kind, first: byte) {
    if kind == VP8 then first / 16 % 2 == 1 && first % 8 == 0 else first / 8 % 2 == 1
  }

  predicate EndBit(kind: Kind, first: byte) { kind == VP9 && first / 4 % 2 == 1 }

  /**
   * A start packet begins a frame whatever was there, any other packet extends the frame in
   * progress and is refused without one; the frame so far is handed out, completed by the end
   * bit, and kept when the caller has no room for it.
   */
  lemma FeedLaw(kind: Kind, cap: nat, s: Reassembly, head: seq<byte>, body: seq<byte>, room: nat)
    requires head != [] && DescriptorLength(kind, head + body) == Some(|head|)
    ensures var start, end := StartBit(kind, head[0]), EndBit(kind, head[0]);
            var held, begun := (if start then [] else s.held) + body, if start then Reassembly([], true) else s;
            Depacketize(kind, cap, s, head + body, room)
            == if body == [] then Fail(s, NeedMore)
               else if !start && !s.started then Fail(s, Invalid)
               else if |held| > cap then Fail(begun, Buffer)
               else if |held| > room then Fail(Reassembly(held, true), Buffer)
               else Step(Reassembly(held, !end), Ok, held, end)
  {
    hide DescriptorLength;
    var p := head + body;
    assert p[0] == head[0] && p[|head|..] == body;
  }
}
