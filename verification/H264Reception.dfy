/**
 * What h264_depacketize does with every payload, well formed or not: the laws of an aggregate,
 * of a fragment and of a single unit, each in terms of the bytes that arrive.
 */
module H264Reception {
  import opened Bytes
  import opened H264AnnexB
  import P = H264Packetize
  import opened H264Depacketize

  // ---- Aggregates --------------------------------------------------------------------------

  lemma SizedReadsBack(nal: Nal)
    requires |nal| <= UINT16_MAX
    ensures var s := P.Sized(nal); (s[0] as int) * 256 + s[1] as int == |nal|
  {
  }

  lemma SizedAt(p: seq<byte>, pos: nat, nal: Nal, tail: seq<byte>)
    requires pos <= |p| && p[pos..] == P.Sized(nal) + tail && |nal| <= UINT16_MAX
    ensures pos + 2 + |nal| <= |p| && (p[pos] as int) * 256 + p[pos + 1] as int == |nal|
    ensures p[pos + 2..pos + 2 + |nal|] == nal
    ensures p[pos + 2 + |nal|..] == tail
  {
    var s, n := P.Sized(nal) + tail, |nal|;
    SizedReadsBack(nal);
    assert |p| == pos + |s|;
    assert p[pos] == p[pos..][0] && p[pos + 1] == p[pos..][1];
    forall i | 0 <= i < n ensures p[pos + 2 + i] == nal[i] {
      assert p[pos + 2 + i] == p[pos..][2 + i];
    }
    forall i | 0 <= i < |tail| ensures p[pos + 2 + n + i] == tail[i] {
      assert p[pos + 2 + n + i] == p[pos..][2 + n + i];
    }
  }

  predicate Sendable(nals: seq<Nal>) { forall i :: 0 <= i < |nals| ==> 0 < |nals[i]| <= UINT16_MAX }

  /** A coded slice, of an IDR picture or not. */
  predicate IsSlice(nal: Nal) { nal != [] && (nal[0] % 32 == 1 || nal[0] % 32 == 5) }

  predicate HasSlice(nals: seq<Nal>) { exists i :: 0 <= i < |nals| && IsSlice(nals[i]) }

  lemma HasSliceCons(nals: seq<Nal>)
    requires nals != []
    ensures HasSlice(nals) <==> IsSlice(nals[0]) || HasSlice(nals[1..])
  {
    if HasSlice(nals) {
      var i :| 0 <= i < |nals| && IsSlice(nals[i]);
      if i > 0 { assert nals[1..][i - 1] == nals[i]; }
    }
    if HasSlice(nals[1..]) {
      var i :| 0 <= i < |nals[1..]| && IsSlice(nals[1..][i]);
      assert nals[i + 1] == nals[1..][i];
    }
  }

  /** The STAP-A loop takes one unit off, or finds no room for it. */
  lemma StapTakesOne(p: seq<byte>, pos: nat, nal: Nal, tail: seq<byte>, output: seq<byte>, vcl: bool, room: nat)
    requires pos <= |p| && p[pos..] == P.Sized(nal) + tail && 0 < |nal| <= UINT16_MAX
    ensures pos + 2 + |nal| <= |p| && p[pos + 2 + |nal|..] == tail
    ensures StapFrom(p, pos, output, vcl, room)
         == if |output| + 4 + |nal| > room then StapError(Buffer)
            else StapFrom(p, pos + 2 + |nal|, output + START_CODE + nal, vcl || IsSlice(nal), room)
  {
    hide P.Sized;
    SizedAt(p, pos, nal, tail);
    assert p[pos + 2] == p[pos + 2..pos + 2 + |nal|][0];
  }

  /** The loop reads any units, whatever comes behind them. */
  lemma {:induction false} StapReads(p: seq<byte>, pos: nat, nals: seq<Nal>, tail: seq<byte>, output: seq<byte>, vcl: bool, room: nat)
    requires pos <= |p| && p[pos..] == P.SizedAll(nals) + tail && Sendable(nals)
    ensures pos + |P.SizedAll(nals)| <= |p| && p[pos + |P.SizedAll(nals)|..] == tail
    ensures |output| + |AnnexB(nals)| <= room ==>
              StapFrom(p, pos, output, vcl, room)
              == StapFrom(p, pos + |P.SizedAll(nals)|, output + AnnexB(nals), vcl || HasSlice(nals), room)
    ensures nals != [] && |output| + |AnnexB(nals)| > room ==> StapFrom(p, pos, output, vcl, room) == StapError(Buffer)
    decreases |nals|
  {
    hide P.Sized, StapFrom, HasSlice, IsSlice;
    if nals == [] {
      assert output + [] == output && [] + tail == tail;
      NoSlice();
    } else {
      var nal, rest := nals[0], P.SizedAll(nals[1..]) + tail;
      assert P.SizedAll(nals) + tail == P.Sized(nal) + rest;
      assert AnnexB(nals) == START_CODE + nal + AnnexB(nals[1..]);
      HasSliceCons(nals);
      StapTakesOne(p, pos, nal, rest, output, vcl, room);
      StapReads(p, pos + 2 + |nal|, nals[1..], tail, output + START_CODE + nal, vcl || IsSlice(nal), room);
      assert output + START_CODE + nal + AnnexB(nals[1..]) == output + AnnexB(nals);
      if nals[1..] == [] { assert AnnexB(nals[1..]) == []; }
    }
  }

  lemma NoSlice()
    ensures !HasSlice([])
  {
  }

  /** What stands behind the last whole unit cannot be a unit: less than a length, or a wrong length. */
  predicate Broken(tail: seq<byte>) {
    |tail| >= 2 && var len := (tail[0] as int) * 256 + tail[1] as int; len == 0 || 2 + len > |tail|
  }

  lemma StapStops(p: seq<byte>, pos: nat, tail: seq<byte>, output: seq<byte>, vcl: bool, room: nat)
    requires pos <= |p| && p[pos..] == tail && (|tail| < 2 || Broken(tail))
    ensures StapFrom(p, pos, output, vcl, room) == if Broken(tail) then StapError(Invalid) else Stap(output, vcl)
  {
    if |tail| >= 2 {
      assert p[pos] == tail[0] && p[pos + 1] == tail[1];
    }
  }

  /**
   * An aggregate of any units: they are handed out behind start codes; with a slice among them
   * that completes a frame and leaves the reassembler alone, otherwise they are kept for the
   * frame to come. A single byte behind the units is ignored, anything else is refused.
   */
  lemma StapLaw(cap: nat, s: Reassembly, header: byte, nals: seq<Nal>, tail: seq<byte>, prior: seq<byte>)
    requires header % 32 == 24 && Sendable(nals) && (|tail| < 2 || Broken(tail))
    ensures var r, out := Depacketize(cap, s, [header] + P.SizedAll(nals) + tail, prior), AnnexB(nals);
            r == if |out| > |prior| then Fail(s, Buffer)
                 else if Broken(tail) then Fail(s, Invalid)
                 else if HasSlice(nals) then Step(s, Ok, out, true)
                 else if |out| > cap then Fail(s, Buffer)
                 else Step(Reassembly(out, true), Ok, out, false)
  {
    hide StapFrom, P.SizedAll, HasSlice, AnnexB, Broken;
    var p, n := [header] + P.SizedAll(nals) + tail, 1 + |P.SizedAll(nals)|;
    assert p[0] == header && p[1..] == P.SizedAll(nals) + tail;
    StapReads(p, 1, nals, tail, [], false, |prior|);
    assert [] + AnnexB(nals) == AnnexB(nals);
    NoUnits(nals);
    StapStops(p, n, tail, AnnexB(nals), HasSlice(nals), |prior|);
  }

  lemma NoUnits(nals: seq<Nal>)
    ensures nals == [] ==> AnnexB(nals) == []
  {
  }

  /** Every payload behind its header is units and such a tail, so the law above speaks of all aggregates. */
  lemma {:induction false} EveryAggregate(body: seq<byte>) returns (nals: seq<Nal>, tail: seq<byte>)
    ensures body == P.SizedAll(nals) + tail && Sendable(nals) && (|tail| < 2 || Broken(tail))
    decreases |body|
  {
    if |body| < 2 || Broken(body) {
      nals, tail := [], body;
      assert body == [] + tail;
    } else {
      var len := (body[0] as int) * 256 + body[1] as int;
      var nal := body[2..2 + len];
      var more;
      more, tail := EveryAggregate(body[2 + len..]);
      nals := [nal] + more;
      LengthSplits(body[0], body[1]);
      assert body == P.Sized(nal) + body[2 + len..];
      assert nals[1..] == more;
      assert P.SizedAll(nals) + tail == P.Sized(nal) + (P.SizedAll(more) + tail);
    }
  }

  lemma LengthSplits(hi: byte, lo: byte)
    ensures var n := (hi as int) * 256 + lo as int; n / 256 % 256 == hi && n % 256 == lo
  {
  }

  // ---- Fragments, single units and the rest ------------------------------------------------

  /** The frame in progress with this fragment behind it. */
  function WithFragment(s: Reassembly, p: seq<byte>): seq<byte>
    requires |p| >= 2
  {
    if p[1] >= 128 then Pending(s) + START_CODE + [p[0] / 32 * 32 + p[1] % 32] + p[2..] else s.held + p[2..]
  }

  /**
   * A fragment is refused without its start; otherwise it extends the frame in progress, which
   * is handed out and completed by the end bit. Too little space in the reassembler changes
   * nothing, too little space at the caller leaves the fragment taken in.
   */
  lemma FuLaw(cap: nat, s: Reassembly, p: seq<byte>, prior: seq<byte>)
    requires p != [] && p[0] % 32 == 28
    ensures |p| == 1 || (p[1] < 128 && !s.started) ==> Depacketize(cap, s, p, prior) == Fail(s, Invalid)
    ensures |p| > 1 && (p[1] >= 128 || s.started) ==>
              var full, end := WithFragment(s, p), p[1] / 64 % 2 == 1;
              Depacketize(cap, s, p, prior)
              == if |full| > cap then Fail(s, Buffer)
                 else if |full| > |prior| then Fail(Reassembly(full, true), Buffer)
                 else Step(Reassembly(full, !end), Ok, full, end)
  {
  }

  /** A single unit always completes; it is refused only for lack of room at the caller. */
  lemma SingleLaw(cap: nat, s: Reassembly, p: seq<byte>, prior: seq<byte>)
    requires p != [] && p[0] % 32 < 24
    ensures var r := Depacketize(cap, s, p, prior);
            if |prior| < |s.held| + 4 + |p| then r == Fail(s, Buffer)
            else
              && r.status == Ok && r.complete && r.next == Reassembly([], false)
              && |r.output| == |s.held| + 4 + |p| && r.output[|s.held|..] == START_CODE + p
              && r.output[..|s.held|] == if s.started then s.held else prior[..|s.held|]
  {
  }

  /** Empty payloads and the packet types the receiver does not know are refused and change nothing. */
  lemma RefusedPayloads(cap: nat, s: Reassembly, p: seq<byte>, prior: seq<byte>)
    requires p == [] || (p[0] % 32 >= 24 && p[0] % 32 != 24 && p[0] % 32 != 28)
    ensures Depacketize(cap, s, p, prior) == Fail(s, Invalid)
  {
  }
}
