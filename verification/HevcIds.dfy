/**
 * How common/codec_helpers/hevc-annexbtomp4.c comes by the ids of a parameter set: it decodes
 * the unit into the free end of the arena and parses what fitted there.
 */
module HevcIds {
  import opened Bytes
  import opened HevcArena

  /** max_sps_luma_bit_depth_offset: no more input bytes than this are looked at. */
  const SCRATCH: nat := 256

  predicate Escape(nalu: seq<byte>, i: nat) {
    i + 2 < |nalu| && nalu[i] == 0 && nalu[i + 1] == 0 && nalu[i + 2] == 3
  }

  /** What hevc_rbsp_decode stores from input position `i` on, with `room` bytes left. */
  function Rbsp(nalu: seq<byte>, i: nat, room: int): (r: seq<byte>)
    decreases |nalu| - i
  {
    if i >= |nalu| || room <= 0 || i >= SCRATCH then []
    else if Escape(nalu, i) then [0, 0] + Rbsp(nalu, i + 3, room - 2)
    else [nalu[i]] + Rbsp(nalu, i + 1, room - 1)
  }

  /** hevc_rbsp_decode. */
  method DecodeRbsp(nalu: seq<byte>, len: nat) returns (sodb: seq<byte>)
    ensures sodb == Rbsp(nalu, 0, len)
  {
    var i := 0;
    sodb := [];
    while i < |nalu| && |sodb| < len && i < SCRATCH
      invariant sodb + Rbsp(nalu, i, len - |sodb|) == Rbsp(nalu, 0, len)
      decreases |nalu| - i
    {
      if i + 2 < |nalu| && nalu[i] == 0 && nalu[i + 1] == 0 && nalu[i + 2] == 3 {
        Regroup(sodb, [0, 0], Rbsp(nalu, i + 3, len - |sodb| - 2));
        sodb := sodb + [nalu[i], nalu[i + 1]];
        i := i + 3;
      } else {
        Regroup(sodb, [nalu[i]], Rbsp(nalu, i + 1, len - |sodb| - 1));
        sodb := sodb + [nalu[i]];
        i := i + 1;
      }
    }
  }

  lemma Regroup(a: seq<byte>, b: seq<byte>, c: seq<byte>)
    ensures a + (b + c) == (a + b) + c
  {
  }

  /** With SCRATCH bytes of room the decoder never runs out of it. */
  lemma {:induction false} RbspStable(nalu: seq<byte>, i: nat, room: int, room': int)
    requires room >= SCRATCH - i && room' >= SCRATCH - i
    ensures Rbsp(nalu, i, room) == Rbsp(nalu, i, room')
    decreases |nalu| - i
  {
    if i < |nalu| && i < SCRATCH {
      if Escape(nalu, i) {
        RbspStable(nalu, i + 3, room - 2, room' - 2);
      } else {
        RbspStable(nalu, i + 1, room - 1, room' - 1);
      }
    }
  }

  /** Emulation prevention (section 7.4.2 of ITU-T H.265): a 3 behind two zeros that a byte up to 3 follows. */
  function Protected(x: seq<byte>): (r: seq<byte>)
    ensures |r| >= |x| && (x != [] ==> r[0] == x[0])
  {
    if |x| < 3 then x
    else if x[0] == 0 && x[1] == 0 && x[2] <= 3 then [0, 0, 3] + Protected(x[2..])
    else [x[0]] + Protected(x[1..])
  }

  lemma NoFalseEscape(x: seq<byte>)
    requires x != [] && !(|x| >= 3 && x[0] == 0 && x[1] == 0 && x[2] <= 3)
    ensures !Escape(Protected(x), 0)
  {
    if |x| >= 3 {
      var p := Protected(x[1..]);
      assert Protected(x) == [x[0]] + p;
      assert p[0] == x[1];
      if !(|x| >= 4 && x[1] == 0 && x[2] == 0 && x[3] <= 3) && |x| >= 4 {
        assert p == [x[1]] + Protected(x[1..][1..]);
        assert p[1] == x[2];
      }
    }
  }

  lemma EscapeShift(nalu: seq<byte>, i: nat)
    requires i <= |nalu|
    ensures Escape(nalu, i) <==> Escape(nalu[i..], 0)
  {
  }

  /** The decoder undoes it, as far as it looks: all of a unit of up to 256 bytes, given the room. */
  lemma {:induction false} RbspRoundTrip(x: seq<byte>, nalu: seq<byte>, i: nat, room: nat)
    requires i <= |nalu| <= SCRATCH && nalu[i..] == Protected(x) && room >= |x|
    ensures Rbsp(nalu, i, room) == x
    decreases |x|
  {
    if x != [] {
      var p := Protected(x);
      assert nalu[i] == p[0];
      EscapeShift(nalu, i);
      if |x| >= 3 && x[0] == 0 && x[1] == 0 && x[2] <= 3 {
        assert nalu[i..][3..] == nalu[i + 3..];
        RbspRoundTrip(x[2..], nalu, i + 3, room - 2);
        assert x == [0, 0] + x[2..];
      } else {
        NoFalseEscape(x);
        assert nalu[i..][1..] == nalu[i + 1..];
        assert |x| < 3 ==> p[1..] == Protected(x[1..]);
        RbspRoundTrip(x[1..], nalu, i + 1, room - 1);
        assert x == [x[0]] + x[1..];
      }
    }
  }

  /** The bit parsing behind the decoder, whatever it does: two ids from a type and decoded bytes. */
  type Parser = (byte, seq<byte>) -> (int, int)

  /** hevc_vps_id, hevc_sps_id and hevc_pps_id as the arena calls them. */
  function IdsOf(parser: Parser): Ids {
    (ty: byte, nalu: seq<byte>, room: nat) => parser(ty, Rbsp(nalu, 0, room))
  }

  /** The ids no longer depend on the scratch space once there is enough of it. */
  ghost predicate Stable(ids: Ids) {
    forall ty, nalu, room :: room >= SCRATCH ==> ids(ty, nalu, room) == ids(ty, nalu, SCRATCH)
  }

  lemma IdsAreStable(parser: Parser)
    ensures Stable(IdsOf(parser))
  {
    forall ty, nalu, room: nat | room >= SCRATCH
      ensures IdsOf(parser)(ty, nalu, room) == IdsOf(parser)(ty, nalu, SCRATCH)
    {
      RbspStable(nalu, 0, room, SCRATCH);
    }
  }

  /** A unit without zero bytes is copied as far as there is room. */
  lemma {:induction false} RbspPlain(nalu: seq<byte>, i: nat, room: nat)
    requires i <= |nalu| <= SCRATCH && forall k :: 0 <= k < |nalu| ==> nalu[k] != 0
    ensures Rbsp(nalu, i, room) == if room >= |nalu| - i then nalu[i..] else nalu[i..i + room]
    decreases |nalu| - i
  {
    if i < |nalu| && room > 0 {
      RbspPlain(nalu, i + 1, room - 1);
    }
  }

  /** hevc_vps_id on the decoded bytes: 0xFF when there are too few of them. */
  function VpsId(d: seq<byte>): int { if |d| < 18 then 255 else d[2] / 16 }

  ghost predicate ParsesVps(parser: Parser) { forall d :: parser(VPS, d) == (VpsId(d), 0) }
}
