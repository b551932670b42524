/** RTP packetising and reassembly of VP8 (RFC 7741) and VP9 (RFC 9628) frames in codec/vpx_codec.c. */
module Vpx {
  import opened Bytes

  datatype Kind = VP8 | VP9

  datatype Fragment = Fragment(data: seq<byte>, marker: bool, start: bool, end: bool)

  datatype PackError = NoMem | BadCall | NoRoom
  datatype Packed = Done(fragments: seq<Fragment>) | Refused(why: PackError)

  const MAX_PACKETS := 64
  const DEFAULT_MTU := 1200

  // ---- Packetising -------------------------------------------------------------------------

  /** The one descriptor byte: S for VP8, B and E for VP9. */
  function Descriptor(kind: Kind, first: bool, last: bool): byte {
    match kind
    case VP8 => if first then 0x10 else 0
    case VP9 => (if first then 8 else 0) + (if last then 4 else 0)
  }

  function Packet(kind: Kind, frame: seq<byte>, off: nat, size: nat): (f: Fragment)
    requires off + size <= |frame|
  {
    var first, last := off == 0, off + size == |frame|;
    Fragment([Descriptor(kind, first, last)] + frame[off..off + size], last, first, last)
  }

  function Chunk(left: nat, mtu: nat): (n: nat)
    requires mtu > 1
    ensures n <= left && (left > 0 ==> n > 0)
  {
    if mtu - 1 > left then left else mtu - 1
  }

  /** The packets of the frame from `off` on. */
  function Packets(kind: Kind, frame: seq<byte>, off: nat, mtu: nat): (r: seq<Fragment>)
    requires off <= |frame| && mtu > 1
    ensures off < |frame| ==> r != []
    decreases |frame| - off
  {
    if off == |frame| then []
    else
      var n := Chunk(|frame| - off, mtu);
      [Packet(kind, frame, off, n)] + Packets(kind, frame, off + n, mtu)
  }

  /** vp8_packetize and vp9_packetize; `memory` says which packet buffers can be had. */
  method Packetize(kind: Kind, frame: seq<byte>, maxFragments: int, payloadBudget: nat, memory: nat -> bool) returns (r: Packed)
    ensures maxFragments < 1 ==> r == Refused(BadCall)
    ensures var mtu := if payloadBudget == 0 then DEFAULT_MTU else payloadBudget;
            maxFragments >= 1 ==>
              if mtu <= 1 then r == Refused(NoRoom)
              else
                && (r.Done? ==> r.fragments == Packets(kind, frame, 0, mtu) && |r.fragments| <= maxFragments)
                && (r == Refused(NoRoom) ==> |Packets(kind, frame, 0, mtu)| > maxFragments)
                && (r == Refused(BadCall) ==> |Packets(kind, frame, 0, mtu)| > MAX_PACKETS)
                && (r == Refused(NoMem) ==> exists k :: 0 <= k < MAX_PACKETS && !memory(k))
  {
    hide Packet, Chunk, Packets;
    if maxFragments < 1 { return Refused(BadCall); }
    var mtu := if payloadBudget == 0 then DEFAULT_MTU else payloadBudget;
    if mtu <= 1 { return Refused(NoRoom); }
    var off := 0;
    var out: seq<Fragment> := [];
    PacketsEnd(kind, frame, mtu);
    while off < |frame| && |out| < maxFragments
      invariant 0 <= off <= |frame| && |out| <= maxFragments
      invariant out + Packets(kind, frame, off, mtu) == Packets(kind, frame, 0, mtu)
      decreases |frame| - off
    {
      var size := Chunk(|frame| - off, mtu);
      PacketsUnfold(kind, frame, off, mtu);
      if |out| >= MAX_PACKETS { return Refused(BadCall); }
      if !memory(|out|) { return Refused(NoMem); }
      var packet := Packet(kind, frame, off, size);
      Regroup(out, packet, Packets(kind, frame, off + size, mtu));
      out := out + [packet];
      off := off + size;
    }
    r := if off == |frame| then Done(out) else Refused(NoRoom);
  }

  lemma PacketsEnd(kind: Kind, frame: seq<byte>, mtu: nat)
    requires mtu > 1
    ensures Packets(kind, frame, |frame|, mtu) == []
  {
  }

  lemma PacketsUnfold(kind: Kind, frame: seq<byte>, off: nat, mtu: nat)
    requires mtu > 1 && off < |frame|
    ensures var n := Chunk(|frame| - off, mtu);
            Packets(kind, frame, off, mtu) == [Packet(kind, frame, off, n)] + Packets(kind, frame, off + n, mtu)
  {
  }

  lemma Regroup(out: seq<Fragment>, p: Fragment, rest: seq<Fragment>)
    ensures out + ([p] + rest) == (out + [p]) + rest
  {
  }

  // ---- Payload descriptors -----------------------------------------------------------------

  function Bit(b: byte, mask: nat): bool
    requires mask > 0
  {
    b / mask % 2 == 1
  }

  /** A picture id of one or two bytes at `at`. */
  function PictureId(p: seq<byte>, at: nat): (r: Option<nat>) {
    if |p| < at + 1 then None
    else if Bit(p[at], 128) then if |p| < at + 2 then None else Some(at + 2)
    else Some(at + 1)
  }

  function Skip(p: seq<byte>, at: Option<nat>, n: nat): (r: Option<nat>) {
    if at.None? || |p| < at.value + n then None else Some(at.value + n)
  }

  /** Length of a VP8 descriptor, None when it is cut short. */
  function Vp8Descriptor(p: seq<byte>): (r: Option<nat>)
    requires p != []
  {
    if !Bit(p[0], 128) then Some(1)
    else if |p| < 2 then None
    else
      var ext := p[1];
      var a := if Bit(ext, 128) then PictureId(p, 2) else Some(2);
      var b := if Bit(ext, 64) then Skip(p, a, 1) else a;
      if Bit(ext, 32) || Bit(ext, 16) then Skip(p, b, 1) else b
  }

  /** The reference indices of flexible mode: bytes up to one with its low bit clear. */
  function References(p: seq<byte>, at: nat): (r: Option<nat>)
    decreases |p| - at
  {
    if |p| < at + 1 then None
    else if Bit(p[at], 1) then References(p, at + 1)
    else Some(at + 1)
  }

  /** The groups of a scalability structure. */
  function Groups(p: seq<byte>, at: nat, count: nat): (r: Option<nat>)
    decreases count
  {
    if count == 0 then Some(at)
    else if |p| < at + 1 then None
    else if |p| < at + 1 + p[at] % 4 then None
    else Groups(p, at + 1 + p[at] % 4, count - 1)
  }

  function Scalability(p: seq<byte>, at: nat): (r: Option<nat>) {
    if |p| < at + 1 then None
    else
      var h := p[at];
      var sized := if Bit(h, 16) then Skip(p, Some(at + 1), (h / 32 + 1) * 4) else Some(at + 1);
      if sized.None? || !Bit(h, 8) then sized
      else if |p| < sized.value + 1 then None
      else Groups(p, sized.value + 1, p[sized.value])
  }

  /** Length of a VP9 descriptor, None when it is cut short. */
  function Vp9Descriptor(p: seq<byte>): (r: Option<nat>)
    requires p != []
  {
    var d := p[0];
    var flexible := Bit(d, 16);
    var a := if Bit(d, 128) then PictureId(p, 1) else Some(1);
    var b := if Bit(d, 32) then Skip(p, a, if flexible then 1 else 2) else a;
    var c := if b.Some? && flexible && Bit(d, 64) then References(p, b.value) else b;
    if c.Some? && Bit(d, 2) then Scalability(p, c.value) else c
  }

  // ---- Reassembly --------------------------------------------------------------------------

  datatype Status = Ok | Invalid | Buffer | NeedMore

  datatype Reassembly = Reassembly(held: seq<byte>, started: bool)

  datatype Step = Step(next: Reassembly, status: Status, output: seq<byte>, complete: bool)

  function Fail(s: Reassembly, status: Status): Step { Step(s, status, [], false) }

  function DescriptorLength(kind: Kind, p: seq<byte>): (r: Option<nat>)
    requires p != []
  {
    if kind == VP8 then Vp8Descriptor(p) else Vp9Descriptor(p)
  }

  predicate Starts(kind: Kind, p: seq<byte>)
    requires p != []
  {
    if kind == VP8 then Bit(p[0], 16) && p[0] % 8 == 0 else Bit(p[0], 8)
  }

  /** VP8 leaves the end of a frame to the marker bit. */
  predicate Ends(kind: Kind, p: seq<byte>)
    requires p != []
  {
    kind == VP9 && Bit(p[0], 4)
  }

  /** One call of vp8_depacketize or vp9_depacketize; `room` is the capacity in *output_len. */
  function Depacketize(kind: Kind, cap: nat, s: Reassembly, p: seq<byte>, room: nat): (r: Step) {
    if p == [] then Fail(s, Invalid)
    else
      var d := DescriptorLength(kind, p);
      if d.None? then Fail(s, Invalid)
      else if |p| <= d.value then Fail(s, NeedMore)
      else
        var begun := if Starts(kind, p) then Reassembly([], true) else s;
        var held := begun.held + p[d.value..];
        if !begun.started then Fail(begun, Invalid)
        else if |held| > cap then Fail(begun, Buffer)
        else if room < |held| then Fail(Reassembly(held, true), Buffer)
        else Step(Reassembly(held, !Ends(kind, p)), Ok, held, Ends(kind, p))
  }

  class Depacketizer {
    const kind: Kind
    const buf: array<byte>
    var len: nat
    var started: bool

    ghost predicate Valid()
      reads this
    {
      len <= buf.Length
    }

    ghost function State(): Reassembly
      requires Valid()
      reads this, buf
    {
      Reassembly(buf[..len], started)
    }

    constructor (kind: Kind, cap: nat)
      ensures Valid() && State() == Reassembly([], false) && this.kind == kind && buf.Length == cap && fresh(buf)
    {
      this.kind := kind;
      buf := new byte[cap];
      len, started := 0, false;
    }

    method Feed(p: seq<byte>, output: array<byte>) returns (status: Status, outputLen: nat, complete: bool)
      requires Valid() && output != buf
      modifies this, buf, output
      ensures Valid()
      ensures var r := Depacketize(kind, buf.Length, old(State()), p, output.Length);
              && State() == r.next && status == r.status
              && (status == Ok ==> outputLen <= output.Length && output[..outputLen] == r.output && complete == r.complete)
    {
      hide DescriptorLength, Starts, Ends;
      outputLen, complete := 0, false;
      if p == [] { return Invalid, 0, false; }
      var d := DescriptorLength(kind, p);
      if d.None? { return Invalid, 0, false; }
      if |p| <= d.value { return NeedMore, 0, false; }
      if Starts(kind, p) {
        len, started := 0, true;
      }
      if !started { return Invalid, 0, false; }
      if len + (|p| - d.value) > buf.Length { return Buffer, 0, false; }
      CopyTo(buf, len, p[d.value..]);
      len := len + (|p| - d.value);
      if output.Length < len { return Buffer, 0, false; }
      CopyTo(output, 0, buf[..len]);
      outputLen, complete := len, Ends(kind, p);
      if complete { started := false; }
      status := Ok;
    }
  }

  // ---- Round trip --------------------------------------------------------------------------

  /** Every call succeeds and hands out what has arrived so far; VP9 reports completion at the last one only. */
  ghost predicate Rebuilds(kind: Kind, cap: nat, s: Reassembly, fragments: seq<Fragment>, rooms: seq<nat>, frame: seq<byte>)
    requires |rooms| == |fragments|
    decreases |fragments|
  {
    fragments == [] ||
    (var r := Depacketize(kind, cap, s, fragments[0].data, rooms[0]);
     && r.status == Ok && r.output <= frame
     && (r.output == frame <==> |fragments| == 1)
     && r.complete == (kind == VP9 && |fragments| == 1)
     && fragments[0].marker == fragments[0].end == (|fragments| == 1)
     && Rebuilds(kind, cap, r.next, fragments[1..], rooms[1..], frame))
  }

  lemma PlainDescriptor(kind: Kind, first: bool, last: bool, body: seq<byte>)
    ensures var p := [Descriptor(kind, first, last)] + body;
            DescriptorLength(kind, p) == Some(1) && Starts(kind, p) == first && Ends(kind, p) == (kind == VP9 && last)
  {
    var p := [Descriptor(kind, first, last)] + body;
    match kind
    case VP8 => assert p[0] == 0 || p[0] == 0x10;
    case VP9 => assert p[0] == 0 || p[0] == 4 || p[0] == 8 || p[0] == 12;
  }

  /** One packet taken in by a reassembler that is where it should be. */
  lemma PacketTakenIn(kind: Kind, cap: nat, s: Reassembly, frame: seq<byte>, off: nat, n: nat, room: nat)
    requires 0 < n && off + n <= |frame| <= cap && |frame| <= room
    requires off > 0 ==> s == Reassembly(frame[..off], true)
    ensures var end := kind == VP9 && off + n == |frame|;
            Depacketize(kind, cap, s, Packet(kind, frame, off, n).data, room)
            == Step(Reassembly(frame[..off + n], !end), Ok, frame[..off + n], end)
    ensures var f := Packet(kind, frame, off, n); f.marker == f.end == (off + n == |frame|)
  {
    var p := Packet(kind, frame, off, n).data;
    PlainDescriptor(kind, off == 0, off + n == |frame|, frame[off..off + n]);
    hide DescriptorLength, Starts, Ends, Descriptor;
    assert p[1..] == frame[off..off + n];
    assert frame[..off] + frame[off..off + n] == frame[..off + n];
    assert off == 0 ==> [] + frame[off..off + n] == frame[..off + n];
  }

  /** From any prior state, however a frame before was cut off, the packets rebuild the frame. */
  lemma {:induction false} FrameRebuilt(kind: Kind, cap: nat, s: Reassembly, frame: seq<byte>, off: nat, mtu: nat, rooms: seq<nat>)
    requires mtu > 1 && off < |frame| <= cap
    requires off > 0 ==> s == Reassembly(frame[..off], true)
    requires |rooms| == |Packets(kind, frame, off, mtu)| && forall i :: 0 <= i < |rooms| ==> rooms[i] >= |frame|
    ensures Rebuilds(kind, cap, s, Packets(kind, frame, off, mtu), rooms, frame)
    decreases |frame| - off
  {
    hide Depacketize, Packet;
    var n := Chunk(|frame| - off, mtu);
    PacketTakenIn(kind, cap, s, frame, off, n, rooms[0]);
    var ps := Packets(kind, frame, off, mtu);
    assert ps[0] == Packet(kind, frame, off, n) && ps[1..] == Packets(kind, frame, off + n, mtu);
    if off + n == |frame| {
      assert frame[..off + n] == frame;
    } else {
      FrameRebuilt(kind, cap, Reassembly(frame[..off + n], true), frame, off + n, mtu, rooms[1..]);
    }
  }

  /** Packets are within the budget; exactly the first one starts and exactly the last one ends the frame. */
  lemma {:induction false} PacketShape(kind: Kind, frame: seq<byte>, off: nat, mtu: nat, i: nat)
    requires mtu > 1 && off <= |frame| && i < |Packets(kind, frame, off, mtu)|
    ensures var ps := Packets(kind, frame, off, mtu);
            && |ps[i].data| <= mtu
            && ps[i].start == (off == 0 && i == 0) && ps[i].end == ps[i].marker == (i == |ps| - 1)
    decreases |frame| - off
  {
    var n := Chunk(|frame| - off, mtu);
    if i > 0 {
      PacketShape(kind, frame, off + n, mtu, i - 1);
    }
  }
}
