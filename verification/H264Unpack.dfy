/**
 * The packets determine the units: a reader that knows only RFC 6184, not the packetizer's
 * plan, gets every unit of a frame back from the payloads.
 */
module H264Unpack {
  import opened Bytes
  import opened H264AnnexB
  import P = H264Packetize
  import opened H264Reception
  import opened H264RoundTrip

  /** The units of a STAP-A payload from `pos` on (section 5.7.1 of RFC 6184). */
  function Split(p: seq<byte>, pos: nat): (r: Option<seq<Nal>>)
    decreases |p| - pos
  {
    if pos >= |p| then Some([])
    else if pos + 2 > |p| then None
    else
      var len := (p[pos] as int) * 256 + p[pos + 1] as int;
      if len == 0 || pos + 2 + len > |p| then None
      else Prepend([p[pos + 2..pos + 2 + len]], Split(p, pos + 2 + len))
  }

  function Prepend(nals: seq<Nal>, rest: Option<seq<Nal>>): Option<seq<Nal>> {
    if rest.None? then None else Some(nals + rest.value)
  }

  /** The units of a list of payloads; `part` is the unit whose fragments are being collected. */
  function Unpack(payloads: seq<seq<byte>>, part: seq<byte>): (r: Option<seq<Nal>>)
    decreases |payloads|
  {
    if payloads == [] then if part == [] then Some([]) else None
    else if payloads[0] == [] then None
    else
      var p, rest := payloads[0], payloads[1..];
      if p[0] % 32 == 28 then
        if |p| < 2 || ((p[1] / 128 % 2 == 1) != (part == [])) then None
        else
          var unit := (if part == [] then [p[0] / 32 * 32 + p[1] % 32] else part) + p[2..];
          if p[1] / 64 % 2 == 1 then Prepend([unit], Unpack(rest, [])) else Unpack(rest, unit)
      else if part != [] then None
      else if p[0] % 32 == 24 then
        var units := Split(p, 1);
        if units.None? then None else Prepend(units.value, Unpack(rest, []))
      else if p[0] % 32 >= 24 then None
      else Prepend([p], Unpack(rest, []))
  }

  lemma {:induction false} SplitReads(p: seq<byte>, pos: nat, nals: seq<Nal>)
    requires pos <= |p| && p[pos..] == P.SizedAll(nals)
    requires forall i :: 0 <= i < |nals| ==> 0 < |nals[i]| <= UINT16_MAX
    ensures Split(p, pos) == Some(nals)
    decreases |nals|
  {
    hide P.Sized;
    if nals == [] {
      assert |p| == pos;
    } else {
      SizedAt(p, pos, nals[0], P.SizedAll(nals[1..]));
      SplitReads(p, pos + 2 + |nals[0]|, nals[1..]);
      assert [nals[0]] + nals[1..] == nals;
    }
  }

  /** One fragment read by `Unpack`. */
  lemma FragmentReads(nal: Nal, off: nat, chunk: nat, closes: bool, rest: seq<seq<byte>>)
    requires 1 <= off && 0 < chunk && off + chunk <= |nal|
    ensures var part, unit := if off == 1 then [] else nal[..off], nal[..off + chunk];
            Unpack([P.FuPacket(nal, off, chunk, closes).data] + rest, part)
            == if off + chunk == |nal| then Prepend([nal], Unpack(rest, [])) else Unpack(rest, unit)
  {
    hide P.FuIndicator, P.FuHeader;
    var p := P.FuPacket(nal, off, chunk, closes).data;
    FuBits(nal, off == 1, off + chunk == |nal|);
    assert p[0] == P.FuIndicator(nal) && p[1] == P.FuHeader(nal, off == 1, off + chunk == |nal|);
    assert p[2..] == nal[off..off + chunk];
    assert nal[..1] == [nal[0]] && nal[..off] + nal[off..off + chunk] == nal[..off + chunk];
    assert off + chunk == |nal| ==> nal[..off + chunk] == nal;
    assert ([p] + rest)[1..] == rest;
  }

  lemma {:induction false} FragmentsRead(nal: Nal, off: nat, mtu: nat, closes: bool, rest: seq<seq<byte>>)
    requires mtu > 2 && 1 <= off < |nal|
    ensures Unpack(Data(P.FuA(nal, off, mtu, closes)) + rest, if off == 1 then [] else nal[..off])
         == Prepend([nal], Unpack(rest, []))
    decreases |nal| - off
  {
    hide Unpack, P.FuA, P.FuPacket, Data;
    var chunk := if mtu - 2 > |nal| - off then |nal| - off else mtu - 2;
    FuData(nal, off, mtu, closes);
    var first, more := P.FuPacket(nal, off, chunk, closes).data, Data(P.FuA(nal, off + chunk, mtu, closes));
    assert [first] + more + rest == [first] + (more + rest);
    FragmentReads(nal, off, chunk, closes, more + rest);
    if off + chunk == |nal| {
      FuEnds(nal, mtu, closes);
      assert [] + rest == rest;
    } else {
      FragmentsRead(nal, off + chunk, mtu, closes, rest);
    }
  }

  function UnitNals(u: P.Unit): seq<Nal> { match u case Aggregate(nals) => nals case Whole(nal) => [nal] }

  lemma AggregateReads(nals: seq<Nal>, rest: seq<seq<byte>>)
    requires nals != [] && forall i :: 0 <= i < |nals| ==> 0 < |nals[i]| <= UINT16_MAX
    ensures Unpack([P.StapA(nals)] + rest, []) == Prepend(nals, Unpack(rest, []))
  {
    hide P.SizedAll, Split;
    var p := P.StapA(nals);
    assert ([p] + rest)[1..] == rest && p[0] == 24;
    assert p[1..] == P.SizedAll(nals);
    SplitReads(p, 1, nals);
  }

  lemma LoneReads(nal: Nal, rest: seq<seq<byte>>)
    requires nal != [] && P.TypeOf(nal) < 24
    ensures Unpack([nal] + rest, []) == Prepend([nal], Unpack(rest, []))
  {
    hide Split;
    assert ([nal] + rest)[1..] == rest;
  }

  lemma UnitReads(u: P.Unit, mtu: nat, closes: bool, rest: seq<seq<byte>>)
    requires mtu > 2 && GoodUnit(u)
    ensures Unpack(Data(P.Emit(u, mtu, closes)) + rest, []) == Prepend(UnitNals(u), Unpack(rest, []))
  {
    hide Unpack, P.StapA, P.FuA;
    match u
    case Aggregate(nals) =>
      assert Data(P.Emit(u, mtu, closes)) == [P.StapA(nals)];
      AggregateReads(nals, rest);
    case Whole(nal) =>
      if |nal| > mtu {
        FragmentsRead(nal, 1, mtu, closes, rest);
      } else {
        assert Data(P.Emit(u, mtu, closes)) == [nal];
        LoneReads(nal, rest);
      }
  }

  lemma {:induction false} PlanReads(plan: seq<P.Unit>, mtu: nat)
    requires mtu > 2 && GoodPlan(plan) && P.WellFormed(plan)
    ensures Unpack(Sent(plan, mtu), []) == Some(P.Carried(plan))
    decreases |plan|
  {
    hide Unpack, P.Emit, P.EmitAll, Data, Sent;
    if plan == [] {
      NothingSent(mtu);
      NothingUnpacked();
    } else {
      SentUnfold(plan, mtu);
      assert GoodUnit(plan[0]);
      UnitReads(plan[0], mtu, |plan| == 1, Sent(plan[1..], mtu));
      PlanReads(plan[1..], mtu);
    }
  }

  lemma NothingUnpacked()
    ensures Unpack([], []) == Some([])
  {
  }

  /** All units of a frame, none lost, repeated or changed, can be read off its payloads. */
  lemma PacketsCarryAll(nals: seq<Nal>, mtu: nat)
    requires mtu > 2 && NonEmpty(nals) && Carriable(nals)
    ensures Unpack(Payloads(nals, mtu), []) == Some(nals)
  {
    hide Unpack, P.EmitAll, P.Plan, Data;
    PlanIsGood(nals, mtu);
    P.PlanWellFormed(nals, mtu);
    P.PlanCarriesAll(nals, mtu);
    PlanReads(P.Plan(nals, mtu), mtu);
  }
}
