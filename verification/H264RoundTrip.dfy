/** Packets of h264_packetize fed to h264_depacketize: which frames, and which streams of frames, survive. */
module H264RoundTrip {
  import opened Bytes
  import opened H264AnnexB
  import P = H264Packetize
  import opened H264Depacketize
  import opened H264Reception

  /**
   * Units of the types section 5.2 of RFC 6184 gives to single units, parameter sets within
   * the 16-bit length of an aggregate, and a frame that fits the reassembly buffer.
   */
  ghost predicate Legal(nals: seq<Nal>, mtu: nat, cap: nat) {
    && mtu > 2 && nals != [] && NonEmpty(nals) && Carriable(nals) && |AnnexB(nals)| <= cap
  }

  predicate Carriable(nals: seq<Nal>)
    requires NonEmpty(nals)
  {
    forall i :: 0 <= i < |nals| ==> P.TypeOf(nals[i]) < 24 && (P.IsParameterSet(nals[i]) ==> |nals[i]| <= UINT16_MAX)
  }

  /** The RTP payloads of a frame. */
  ghost function Payloads(nals: seq<Nal>, mtu: nat): (r: seq<seq<byte>>)
    requires mtu > 2 && NonEmpty(nals)
  {
    Data(P.Packets(nals, mtu, true))
  }

  function Data(frags: seq<P.Fragment>): (r: seq<seq<byte>>)
    ensures |r| == |frags|
  {
    seq(|frags|, i requires 0 <= i < |frags| => frags[i].data)
  }

  lemma DataAppend(a: seq<P.Fragment>, b: seq<P.Fragment>)
    ensures Data(a + b) == Data(a) + Data(b)
  {
  }

  /** Every buffer the caller offers is large enough for the whole frame. */
  ghost predicate Roomy(priors: seq<seq<byte>>, size: nat) {
    forall i :: 0 <= i < |priors| ==> |priors[i]| >= size
  }

  /**
   * All calls succeed, only the last one reports completion, and it hands out `expected`.
   */
  ghost predicate Delivers(cap: nat, s: Reassembly, payloads: seq<seq<byte>>, priors: seq<seq<byte>>, expected: seq<byte>)
    requires |payloads| == |priors|
    decreases |payloads|
  {
    && payloads != []
    && var r := Depacketize(cap, s, payloads[0], priors[0]);
       && r.status == Ok
       && if |payloads| == 1 then r.complete && r.output == expected
          else !r.complete && Delivers(cap, r.next, payloads[1..], priors[1..], expected)
  }

  ghost function FinalState(cap: nat, s: Reassembly, payloads: seq<seq<byte>>, priors: seq<seq<byte>>): Reassembly
    requires |payloads| == |priors|
    decreases |payloads|
  {
    if payloads == [] then s
    else FinalState(cap, Depacketize(cap, s, payloads[0], priors[0]).next, payloads[1..], priors[1..])
  }

  lemma {:induction false} DeliversUnique(cap: nat, s: Reassembly, payloads: seq<seq<byte>>, priors: seq<seq<byte>>, a: seq<byte>, b: seq<byte>)
    requires |payloads| == |priors| && Delivers(cap, s, payloads, priors, a) && Delivers(cap, s, payloads, priors, b)
    ensures a == b
    decreases |payloads|
  {
    hide Depacketize;
    if |payloads| > 1 {
      DeliversUnique(cap, Depacketize(cap, s, payloads[0], priors[0]).next, payloads[1..], priors[1..], a, b);
    }
  }

  /** Packets that complete, with more behind them, report completion too early. */
  lemma {:induction false} TooEarly(cap: nat, s: Reassembly, first: seq<seq<byte>>, more: seq<seq<byte>>,
                                    priors: seq<seq<byte>>, part: seq<byte>, whole: seq<byte>)
    requires |priors| == |first| + |more| && more != [] && Delivers(cap, s, first, priors[..|first|], part)
    ensures !Delivers(cap, s, first + more, priors, whole)
    decreases |first|
  {
    hide Depacketize;
    var all := first + more;
    assert all[0] == first[0] && all[1..] == first[1..] + more;
    assert priors[..|first|][0] == priors[0] && priors[..|first|][1..] == priors[1..][..|first| - 1];
    if |first| > 1 {
      TooEarly(cap, Depacketize(cap, s, first[0], priors[0]).next, first[1..], more, priors[1..], part, whole);
    }
  }

  // ---- STAP-A ------------------------------------------------------------------------------

  /** The STAP-A of a frame is taken in whole and does not complete the frame. */
  lemma StapStepReads(cap: nat, s: Reassembly, sets: seq<Nal>, prior: seq<byte>)
    requires forall i :: 0 <= i < |sets| ==> 0 < |sets[i]| <= UINT16_MAX && P.IsParameterSet(sets[i])
    requires |AnnexB(sets)| <= cap && |AnnexB(sets)| <= |prior|
    ensures Depacketize(cap, s, P.StapA(sets), prior)
         == Step(Reassembly(AnnexB(sets), true), Ok, AnnexB(sets), false)
  {
    hide Depacketize, P.SizedAll;
    assert P.StapA(sets) == [24] + P.SizedAll(sets) + [];
    StapLaw(cap, s, 24, sets, [], prior);
  }

  // ---- FU-A --------------------------------------------------------------------------------

  /** The fragment header gives the unit's own header back, and its start and end bits. */
  lemma FuBits(nal: Nal, start: bool, end: bool)
    requires nal != []
    ensures var i, h := P.FuIndicator(nal), P.FuHeader(nal, start, end);
            && i % 32 == 28 && i / 32 * 32 + h % 32 == nal[0]
            && (h / 128 % 2 == 1 <==> start) && (h / 64 % 2 == 1 <==> end)
  {
  }

  /** One FU-A packet fed to a reassembler that is where it should be. */
  lemma FuStepReads(cap: nat, s: Reassembly, nal: Nal, off: nat, chunk: nat, closes: bool, prior: seq<byte>, pending: seq<byte>)
    requires 1 <= off && off + chunk <= |nal|
    requires if off == 1 then pending == Pending(s) else s == Reassembly(pending + START_CODE + nal[..off], true)
    requires |pending| + 4 + |nal| <= cap && |pending| + 4 + |nal| <= |prior|
    ensures var held, end := pending + START_CODE + nal[..off + chunk], off + chunk == |nal|;
            Depacketize(cap, s, P.FuPacket(nal, off, chunk, closes).data, prior)
            == Step(Reassembly(held, !end), Ok, held, end)
  {
    hide P.FuIndicator, P.FuHeader;
    var p := P.FuPacket(nal, off, chunk, closes).data;
    FuBits(nal, off == 1, off + chunk == |nal|);
    assert p[0] == P.FuIndicator(nal) && p[1] == P.FuHeader(nal, off == 1, off + chunk == |nal|);
    assert p[2..] == nal[off..off + chunk];
    Grows(pending, nal, off, chunk);
  }

  lemma Grows(pending: seq<byte>, nal: Nal, off: nat, chunk: nat)
    requires 1 <= off && off + chunk <= |nal|
    ensures (pending + START_CODE + nal[..off]) + nal[off..off + chunk] == pending + START_CODE + nal[..off + chunk]
    ensures pending + START_CODE + [nal[0]] == pending + START_CODE + nal[..1]
  {
    assert nal[..1] == [nal[0]];
    assert nal[..off] + nal[off..off + chunk] == nal[..off + chunk];
  }

  lemma FuData(nal: Nal, off: nat, mtu: nat, closes: bool)
    requires mtu > 2 && 1 <= off < |nal|
    ensures var chunk := if mtu - 2 > |nal| - off then |nal| - off else mtu - 2;
            Data(P.FuA(nal, off, mtu, closes))
            == [P.FuPacket(nal, off, chunk, closes).data] + Data(P.FuA(nal, off + chunk, mtu, closes))
  {
    hide P.FuPacket;
    P.FuAUnfold(nal, off, mtu, closes);
  }

  lemma {:induction false} FuReads(cap: nat, s: Reassembly, nal: Nal, off: nat, mtu: nat, closes: bool,
                                   priors: seq<seq<byte>>, pending: seq<byte>)
    requires mtu > 2 && 1 <= off < |nal|
    requires if off == 1 then pending == Pending(s) else s == Reassembly(pending + START_CODE + nal[..off], true)
    requires |pending| + 4 + |nal| <= cap && Roomy(priors, |pending| + 4 + |nal|)
    requires |priors| == |Data(P.FuA(nal, off, mtu, closes))|
    ensures var whole, payloads := pending + START_CODE + nal, Data(P.FuA(nal, off, mtu, closes));
            && Delivers(cap, s, payloads, priors, whole)
            && FinalState(cap, s, payloads, priors) == Reassembly(whole, false)
    decreases |nal| - off
  {
    hide P.FuPacket, Depacketize, P.FuA, Data;
    var chunk := if mtu - 2 > |nal| - off then |nal| - off else mtu - 2;
    FuData(nal, off, mtu, closes);
    var payloads, rest := Data(P.FuA(nal, off, mtu, closes)), Data(P.FuA(nal, off + chunk, mtu, closes));
    FuStepReads(cap, s, nal, off, chunk, closes, priors[0], pending);
    assert payloads[1..] == rest;
    var held := pending + START_CODE + nal[..off + chunk];
    if off + chunk == |nal| {
      FuEnds(nal, mtu, closes);
      assert nal[..off + chunk] == nal;
    } else {
      FuReads(cap, Reassembly(held, true), nal, off + chunk, mtu, closes, priors[1..], pending);
    }
  }

  lemma FuEnds(nal: Nal, mtu: nat, closes: bool)
    requires mtu > 2 && nal != []
    ensures Data(P.FuA(nal, |nal|, mtu, closes)) == []
  {
    P.FuAEnd(nal, mtu, closes);
  }

  // ---- One unit of the plan ----------------------------------------------------------------

  /** A unit that travels alone, whole or in fragments, completes behind what is pending. */
  lemma WholeReads(cap: nat, s: Reassembly, nal: Nal, mtu: nat, closes: bool, priors: seq<seq<byte>>)
    requires mtu > 2 && nal != [] && P.TypeOf(nal) < 24
    requires s.started || s.held == [] || |nal| > mtu
    requires var n := |Pending(s)| + 4 + |nal|; n <= cap && Roomy(priors, n)
    requires |priors| == |Data(P.Emit(P.Whole(nal), mtu, closes))|
    ensures var whole, payloads := Pending(s) + START_CODE + nal, Data(P.Emit(P.Whole(nal), mtu, closes));
            && payloads != [] && Delivers(cap, s, payloads, priors, whole)
            && FinalState(cap, s, payloads, priors) == Reassembly(if |nal| > mtu then whole else [], false)
  {
    if |nal| > mtu {
      FuReads(cap, s, nal, 1, mtu, closes, priors, Pending(s));
    } else {
      assert Data(P.Emit(P.Whole(nal), mtu, closes)) == [nal];
      assert [nal][1..] == [];
    }
  }

  /** A lone packet on top of stale bytes is refused, or handed out behind them. */
  lemma LoneOnStale(cap: nat, s: Reassembly, nal: Nal, prior: seq<byte>)
    requires nal != [] && P.TypeOf(nal) < 24 && !s.started && s.held != []
    ensures var r := Depacketize(cap, s, nal, prior);
            r.status == Ok ==> r.complete && |r.output| == |s.held| + 4 + |nal| > |START_CODE + nal|
  {
  }

  predicate GoodUnit(u: P.Unit) {
    match u
    case Aggregate(nals) =>
      nals != [] && forall i :: 0 <= i < |nals| ==> 0 < |nals[i]| <= UINT16_MAX && P.IsParameterSet(nals[i])
    case Whole(nal) => nal != [] && P.TypeOf(nal) < 24
  }

  predicate GoodPlan(plan: seq<P.Unit>) { forall i :: 0 <= i < |plan| ==> GoodUnit(plan[i]) }

  /** The payloads of a plan. */
  function Sent(plan: seq<P.Unit>, mtu: nat): (r: seq<seq<byte>>)
    requires mtu > 2 && P.WellFormed(plan)
  {
    Data(P.EmitAll(plan, mtu, true))
  }

  lemma SentUnfold(plan: seq<P.Unit>, mtu: nat)
    requires mtu > 2 && P.WellFormed(plan) && plan != []
    ensures Sent(plan, mtu) == Data(P.Emit(plan[0], mtu, |plan| == 1)) + Sent(plan[1..], mtu)
    ensures P.Carried(plan) == (match plan[0] case Aggregate(nals) => nals case Whole(nal) => [nal]) + P.Carried(plan[1..])
    ensures plan[0].Aggregate? ==> Data(P.Emit(plan[0], mtu, |plan| == 1)) == [P.StapA(plan[0].nals)]
    ensures |plan| > 1 ==> Sent(plan[1..], mtu) != []
  {
    DataAppend(P.Emit(plan[0], mtu, |plan| == 1), P.EmitAll(plan[1..], mtu, true));
    P.PlanMarkers(plan[1..], mtu, true);
  }

  /** |AnnexB| of what a plan carries, unit by unit. */
  lemma CarriedSize(plan: seq<P.Unit>, mtu: nat)
    requires mtu > 2 && P.WellFormed(plan) && plan != []
    ensures AnnexB(P.Carried(plan))
         == AnnexB(match plan[0] case Aggregate(nals) => nals case Whole(nal) => [nal]) + AnnexB(P.Carried(plan[1..]))
  {
    SentUnfold(plan, mtu);
    AnnexBAppend(match plan[0] case Aggregate(nals) => nals case Whole(nal) => [nal], P.Carried(plan[1..]));
  }

  lemma RoomyParts(priors: seq<seq<byte>>, size: nat)
    requires Roomy(priors, size) && priors != []
    ensures |priors[0]| >= size && Roomy(priors[1..], size)
  {
  }

  /** A first packet that is taken in without completing, then the rest. */
  lemma DeliversAfter(cap: nat, s: Reassembly, next: Reassembly, payloads: seq<seq<byte>>, priors: seq<seq<byte>>, whole: seq<byte>)
    requires |payloads| == |priors| > 0
    requires var r := Depacketize(cap, s, payloads[0], priors[0]); r.status == Ok && !r.complete && r.next == next
    requires Delivers(cap, next, payloads[1..], priors[1..], whole)
    ensures Delivers(cap, s, payloads, priors, whole)
    ensures FinalState(cap, s, payloads, priors) == FinalState(cap, next, payloads[1..], priors[1..])
  {
    hide Depacketize;
  }

  // ---- Whole plans -------------------------------------------------------------------------

  /** A plan behind an aggregate, fed to a reassembler that holds `s.held`. */
  ghost predicate Fits(cap: nat, s: Reassembly, plan: seq<P.Unit>, mtu: nat, priors: seq<seq<byte>>) {
    && mtu > 2 && GoodPlan(plan) && P.WellFormed(plan)
    && |priors| == |Sent(plan, mtu)|
    && var n := |Pending(s)| + |AnnexB(P.Carried(plan))|; n <= cap && Roomy(priors, n)
  }

  /** The first unit of a plan that is an aggregate: what the call does, and what is left to fit. */
  lemma AggregateFirst(cap: nat, s: Reassembly, plan: seq<P.Unit>, mtu: nat, priors: seq<seq<byte>>)
    requires Fits(cap, s, plan, mtu, priors) && plan != [] && plan[0].Aggregate?
    ensures var next, sent := Reassembly(AnnexB(plan[0].nals), true), Sent(plan, mtu);
            && sent == [P.StapA(plan[0].nals)] + Sent(plan[1..], mtu) && next.held != []
            && Depacketize(cap, s, sent[0], priors[0]) == Step(next, Ok, next.held, false)
            && Fits(cap, next, plan[1..], mtu, priors[1..])
            && AnnexB(P.Carried(plan)) == next.held + AnnexB(P.Carried(plan[1..]))
  {
    hide P.EmitAll, Depacketize, Data, P.StapA, P.Carried, AnnexB, Sent;
    var sets := plan[0].nals;
    SentUnfold(plan, mtu);
    CarriedSize(plan, mtu);
    assert GoodUnit(plan[0]);
    RoomyParts(priors, |Pending(s)| + |AnnexB(P.Carried(plan))|);
    SetsNonEmpty(sets);
    StapStepReads(cap, s, sets, priors[0]);
    assert GoodPlan(plan[1..]);
    RoomyLess(priors[1..], |Pending(s)| + |AnnexB(P.Carried(plan))|, |AnnexB(P.Carried(plan))|);
  }

  lemma SetsNonEmpty(sets: seq<Nal>)
    requires sets != []
    ensures AnnexB(sets) != []
  {
  }

  lemma RoomyLess(priors: seq<seq<byte>>, size: nat, less: nat)
    requires Roomy(priors, size) && less <= size
    ensures Roomy(priors, less)
  {
  }

  /** The first unit of a plan that travels alone: it completes, and too early if it is not the last. */
  lemma WholeFirst(cap: nat, s: Reassembly, plan: seq<P.Unit>, mtu: nat, priors: seq<seq<byte>>, e: seq<byte>)
    requires Fits(cap, s, plan, mtu, priors) && plan != [] && plan[0].Whole?
    requires s.started || s.held == [] || |plan[0].nal| > mtu
    ensures |plan| > 1 ==> !Delivers(cap, s, Sent(plan, mtu), priors, e)
    ensures |plan| == 1 ==>
              && Delivers(cap, s, Sent(plan, mtu), priors, Pending(s) + AnnexB(P.Carried(plan)))
              && FinalState(cap, s, Sent(plan, mtu), priors)
                 == Reassembly(if |plan[0].nal| > mtu then Pending(s) + AnnexB(P.Carried(plan)) else [], false)
  {
    hide P.EmitAll, P.Emit, Depacketize, Data, P.Carried, AnnexB, Delivers, FinalState, Sent;
    var nal := plan[0].nal;
    SentUnfold(plan, mtu);
    CarriedSize(plan, mtu);
    AnnexBSingle(nal);
    assert GoodUnit(plan[0]);
    var first, more := Data(P.Emit(plan[0], mtu, |plan| == 1)), Sent(plan[1..], mtu);
    var mine := priors[..|first|];
    RoomyLess(priors, |Pending(s)| + |AnnexB(P.Carried(plan))|, |Pending(s)| + 4 + |nal|);
    RoomyPrefix(priors, |first|, |Pending(s)| + 4 + |nal|);
    WholeReads(cap, s, nal, mtu, |plan| == 1, mine);
    if |plan| > 1 {
      TooEarly(cap, s, first, more, priors, Pending(s) + START_CODE + nal, e);
    } else {
      NothingSent(mtu);
      assert plan[1..] == [] && first + [] == first && mine == priors;
      assert Pending(s) + START_CODE + nal == Pending(s) + (START_CODE + nal + []);
    }
  }

  lemma NothingSent(mtu: nat)
    requires mtu > 2
    ensures Sent([], mtu) == [] && AnnexB(P.Carried([])) == []
  {
  }

  lemma RoomyPrefix(priors: seq<seq<byte>>, k: nat, size: nat)
    requires Roomy(priors, size) && k <= |priors|
    ensures Roomy(priors[..k], size)
  {
  }

  /** Whatever comes out of a plan is no longer than what was pending and what the plan carries. */
  lemma {:induction false} OutputBound(cap: nat, s: Reassembly, plan: seq<P.Unit>, mtu: nat, priors: seq<seq<byte>>, e: seq<byte>)
    requires Fits(cap, s, plan, mtu, priors) && s.started && Delivers(cap, s, Sent(plan, mtu), priors, e)
    ensures |e| <= |s.held| + |AnnexB(P.Carried(plan))|
    decreases |plan|
  {
    hide P.EmitAll, Depacketize, Data, P.StapA, P.Carried, AnnexB, GoodPlan, Roomy, P.WellFormed, Sent;
    if plan == [] {
      FitsNothing(cap, s, mtu, priors);
    } else if plan[0].Aggregate? {
      AggregateFirst(cap, s, plan, mtu, priors);
      var sent := Sent(plan, mtu);
      assert sent[1..] == Sent(plan[1..], mtu);
      OutputBound(cap, Reassembly(AnnexB(plan[0].nals), true), plan[1..], mtu, priors[1..], e);
    } else {
      WholeFirst(cap, s, plan, mtu, priors, e);
      DeliversUnique(cap, s, Sent(plan, mtu), priors, e, s.held + AnnexB(P.Carried(plan)));
    }
  }

  lemma FitsNothing(cap: nat, s: Reassembly, mtu: nat, priors: seq<seq<byte>>)
    requires Fits(cap, s, [], mtu, priors)
    ensures Sent([], mtu) == []
  {
  }

  /** Behind an aggregate only one unit that travels alone brings both out. */
  lemma StartedLaw(cap: nat, s: Reassembly, plan: seq<P.Unit>, mtu: nat, priors: seq<seq<byte>>)
    requires Fits(cap, s, plan, mtu, priors) && s.started && s.held != [] && plan != []
    ensures Delivers(cap, s, Sent(plan, mtu), priors, s.held + AnnexB(P.Carried(plan))) <==> |plan| == 1 && plan[0].Whole?
    ensures |plan| == 1 && plan[0].Whole? ==>
              FinalState(cap, s, Sent(plan, mtu), priors)
              == Reassembly(if |plan[0].nal| > mtu then s.held + AnnexB(P.Carried(plan)) else [], false)
  {
    hide P.EmitAll, Depacketize, Data, P.StapA, P.Carried, AnnexB, GoodPlan, Roomy, P.WellFormed, Sent;
    var whole, sent := s.held + AnnexB(P.Carried(plan)), Sent(plan, mtu);
    if plan[0].Whole? {
      WholeFirst(cap, s, plan, mtu, priors, whole);
    } else {
      AggregateFirst(cap, s, plan, mtu, priors);
      assert sent[1..] == Sent(plan[1..], mtu);
      if Delivers(cap, s, sent, priors, whole) && |sent| > 1 {
        OutputBound(cap, Reassembly(AnnexB(plan[0].nals), true), plan[1..], mtu, priors[1..], whole);
      }
    }
  }

  /** The plans that can come out: one unit alone, or one aggregate and one unit. */
  predicate Shape(plan: seq<P.Unit>) {
    (|plan| == 1 && plan[0].Whole?) || (|plan| == 2 && plan[0].Aggregate? && plan[1].Whole?)
  }

  /** The first unit is one packet that would go behind the stale bytes of `s`. */
  predicate Stale(s: Reassembly, plan: seq<P.Unit>, mtu: nat)
    requires plan != []
  {
    s.held != [] && plan[0].Whole? && |plan[0].nal| <= mtu
  }

  lemma StaleLost(cap: nat, s: Reassembly, plan: seq<P.Unit>, mtu: nat, priors: seq<seq<byte>>)
    requires Fits(cap, s, plan, mtu, priors) && !s.started && plan != [] && Stale(s, plan, mtu)
    ensures !Delivers(cap, s, Sent(plan, mtu), priors, AnnexB(P.Carried(plan)))
  {
    hide P.EmitAll, Depacketize, P.Carried, AnnexB, Sent;
    var nal := plan[0].nal;
    SentUnfold(plan, mtu);
    CarriedSize(plan, mtu);
    AnnexBSingle(nal);
    NothingSent(mtu);
    assert GoodUnit(plan[0]);
    assert Data(P.Emit(plan[0], mtu, |plan| == 1)) == [nal];
    var sent := Sent(plan, mtu);
    assert sent[0] == nal;
    LoneOnStale(cap, s, nal, priors[0]);
    if |plan| == 1 {
      assert plan[1..] == [];
    } else {
      assert |sent| > 1;
    }
  }

  /** From a rested reassembler exactly those plans come out, unless stale bytes are in the way. */
  lemma PlanLaw(cap: nat, s: Reassembly, plan: seq<P.Unit>, mtu: nat, priors: seq<seq<byte>>)
    requires Fits(cap, s, plan, mtu, priors) && !s.started && plan != []
    ensures Delivers(cap, s, Sent(plan, mtu), priors, AnnexB(P.Carried(plan))) <==> Shape(plan) && !Stale(s, plan, mtu)
    ensures Shape(plan) && !Stale(s, plan, mtu) ==>
              FinalState(cap, s, Sent(plan, mtu), priors)
              == Reassembly(if |plan[|plan| - 1].nal| > mtu then AnnexB(P.Carried(plan)) else [], false)
  {
    hide P.EmitAll, Depacketize, Data, P.StapA, P.Carried, AnnexB, GoodPlan, Roomy, P.WellFormed, Sent;
    var whole, sent := AnnexB(P.Carried(plan)), Sent(plan, mtu);
    assert Pending(s) + whole == whole;
    if plan[0].Whole? {
      if Stale(s, plan, mtu) {
        StaleLost(cap, s, plan, mtu, priors);
      } else {
        WholeFirst(cap, s, plan, mtu, priors, whole);
      }
    } else {
      AggregateFirst(cap, s, plan, mtu, priors);
      var next := Reassembly(AnnexB(plan[0].nals), true);
      assert sent[1..] == Sent(plan[1..], mtu);
      if |plan| > 1 {
        StartedLaw(cap, next, plan[1..], mtu, priors[1..]);
        SentSome(plan[1..], mtu, cap, next, priors[1..]);
        if |plan| == 2 && plan[1].Whole? { DeliversAfter(cap, s, next, sent, priors, whole); }
      } else {
        assert plan[1..] == [];
        NothingSent(mtu);
      }
    }
  }

  lemma SentSome(plan: seq<P.Unit>, mtu: nat, cap: nat, s: Reassembly, priors: seq<seq<byte>>)
    requires Fits(cap, s, plan, mtu, priors) && plan != []
    ensures Sent(plan, mtu) != []
  {
    P.PlanMarkers(plan, mtu, true);
  }

  // ---- Frames ------------------------------------------------------------------------------

  /** Several parameter sets that fill one STAP-A, and one unit that is no set or has no place there. */
  predicate OneGroup(nals: seq<Nal>, mtu: nat)
    requires NonEmpty(nals)
  {
    var n := |nals| - 1;
    && n >= 2 && (forall i :: 0 <= i < n ==> P.IsParameterSet(nals[i])) && |P.StapA(nals[..n])| <= mtu
    && (!P.IsParameterSet(nals[n]) || |P.StapA(nals)| > mtu)
  }

  /** Sent as one packet that carries nothing else. */
  predicate Lone(nals: seq<Nal>, mtu: nat) { |nals| == 1 && |nals[0]| <= mtu }

  predicate Fragmented(nals: seq<Nal>, mtu: nat)
    requires nals != []
  {
    |nals[|nals| - 1]| > mtu
  }

  /** One unit, or one group and a unit; and no lone packet on top of stale bytes. */
  predicate Readable(s: Reassembly, nals: seq<Nal>, mtu: nat)
    requires NonEmpty(nals)
  {
    (|nals| == 1 || OneGroup(nals, mtu)) && (s.held == [] || !Lone(nals, mtu))
  }

  lemma OneGroupPlan(nals: seq<Nal>, mtu: nat)
    requires NonEmpty(nals) && |nals| >= 2
    ensures OneGroup(nals, mtu) <==> P.Aggregated(nals, mtu) > 0 && P.Aggregated(nals, mtu) == |nals| - 2
  {
    hide P.IsParameterSet, P.Joining, P.SizedAll;
    var n := |nals| - 1;
    assert nals[..n + 1] == nals;
    P.SizedAllCons(nals, n);
    P.SizedAllCons(nals, n + 1);
    P.JoiningIs(nals[1..], 3 + |nals[0]|, mtu, n - 1);
    assert forall i :: 0 < i <= n ==> nals[i] == nals[1..][i - 1];
  }

  lemma ShapeOfPlan(nals: seq<Nal>, mtu: nat)
    requires NonEmpty(nals) && nals != []
    ensures P.Plan(nals, mtu) != [] && (Shape(P.Plan(nals, mtu)) <==> |nals| == 1 || OneGroup(nals, mtu))
    ensures |nals| == 1 ==> P.Plan(nals, mtu) == [P.Whole(nals[0])]
    ensures OneGroup(nals, mtu) ==> P.Plan(nals, mtu)[0].Aggregate? && P.Plan(nals, mtu)[1] == P.Whole(nals[|nals| - 1])
    ensures P.Plan(nals, mtu)[0].Whole? ==> P.Plan(nals, mtu)[0].nal == nals[0]
  {
    hide OneGroup, P.Plan, P.Joining, P.IsParameterSet;
    var n := P.Aggregated(nals, mtu);
    var rest := nals[n + 1..];
    P.PlanUnfold(nals, mtu);
    EmptyPlan(mtu);
    if |nals| >= 2 { OneGroupPlan(nals, mtu); } else { NoGroup(nals, mtu); }
    if rest != [] {
      P.PlanUnfold(rest, mtu);
      if |rest| == 1 { assert rest[1..] == []; }
    }
  }

  lemma EmptyPlan(mtu: nat)
    ensures P.Plan([], mtu) == []
  {
  }

  lemma NoGroup(nals: seq<Nal>, mtu: nat)
    requires NonEmpty(nals) && |nals| < 2
    ensures !OneGroup(nals, mtu)
  {
  }

  lemma {:induction false} PlanIsGood(nals: seq<Nal>, mtu: nat)
    requires NonEmpty(nals) && Carriable(nals)
    ensures GoodPlan(P.Plan(nals, mtu))
    decreases |nals|
  {
    hide P.Plan, P.Joining, P.IsParameterSet;
    if nals == [] {
      EmptyPlan(mtu);
    } else {
      var n := P.Aggregated(nals, mtu);
      P.PlanUnfold(nals, mtu);
      if n > 0 {
        P.JoiningIs(nals[1..], 3 + |nals[0]|, mtu, n);
        FirstIsSet(nals, mtu);
        forall i | 0 <= i <= n ensures P.IsParameterSet(nals[i]) {
          if i > 0 { assert nals[1..][i - 1] == nals[i]; }
        }
      }
      PlanIsGood(nals[n + 1..], mtu);
    }
  }

  lemma FirstIsSet(nals: seq<Nal>, mtu: nat)
    requires NonEmpty(nals) && nals != [] && P.Aggregated(nals, mtu) > 0
    ensures P.IsParameterSet(nals[0])
  {
  }

  /** What a legal frame brings to the law of plans. */
  lemma FrameFits(cap: nat, s: Reassembly, nals: seq<Nal>, mtu: nat, priors: seq<seq<byte>>)
    requires Legal(nals, mtu, cap) && !s.started
    requires |priors| == |Payloads(nals, mtu)| && Roomy(priors, |AnnexB(nals)|)
    ensures var plan := P.Plan(nals, mtu);
            Fits(cap, s, plan, mtu, priors) && Sent(plan, mtu) == Payloads(nals, mtu) && P.Carried(plan) == nals
  {
    hide P.Plan, P.EmitAll, AnnexB, Data;
    PlanIsGood(nals, mtu);
    P.PlanWellFormed(nals, mtu);
    P.PlanCarriesAll(nals, mtu);
  }

  /**
   * The frame law, for frames of any units: from a rested reassembler a frame comes out, byte
   * for byte and with completion at its last packet only, exactly when it is readable there.
   */
  lemma FrameLaw(cap: nat, s: Reassembly, nals: seq<Nal>, mtu: nat, priors: seq<seq<byte>>)
    requires Legal(nals, mtu, cap) && !s.started
    requires |priors| == |Payloads(nals, mtu)| && Roomy(priors, |AnnexB(nals)|)
    ensures Delivers(cap, s, Payloads(nals, mtu), priors, AnnexB(nals)) <==> Readable(s, nals, mtu)
    ensures Readable(s, nals, mtu) ==>
              FinalState(cap, s, Payloads(nals, mtu), priors)
              == Reassembly(if Fragmented(nals, mtu) then AnnexB(nals) else [], false)
  {
    hide P.Plan, P.EmitAll, AnnexB, Data, Fits, Sent, Payloads, Delivers, FinalState, OneGroup, Carriable;
    FrameFits(cap, s, nals, mtu, priors);
    ShapeOfPlan(nals, mtu);
    NotOne(nals, mtu);
    PlanLaw(cap, s, P.Plan(nals, mtu), mtu, priors);
  }

  lemma NotOne(nals: seq<Nal>, mtu: nat)
    requires NonEmpty(nals)
    ensures OneGroup(nals, mtu) ==> |nals| >= 3
  {
  }

  /** The frames an encoder usually makes: no parameter set or several that fit one packet, and one slice. */
  lemma SetsAndSlice(s: Reassembly, sets: seq<Nal>, slice: Nal, mtu: nat)
    requires NonEmpty(sets + [slice]) && slice != [] && !P.IsParameterSet(slice) && (s.held == [] || sets != [] || |slice| > mtu)
    requires |sets| != 1 && forall i :: 0 <= i < |sets| ==> sets[i] != [] && P.IsParameterSet(sets[i])
    requires sets != [] ==> |P.StapA(sets)| <= mtu
    ensures Readable(s, sets + [slice], mtu)
  {
    hide P.IsParameterSet, P.StapA;
    var nals := sets + [slice];
    assert nals[..|sets|] == sets && nals[|sets|] == slice;
    assert forall i :: 0 <= i < |sets| ==> nals[i] == sets[i];
  }

  /** One parameter set in front of a slice is a packet of its own, and that packet reports completion. */
  lemma SingleSetCompletesEarly(cap: nat, s: Reassembly, only: Nal, slice: Nal, mtu: nat, prior: seq<byte>)
    requires Legal([only, slice], mtu, cap) && only != [] && slice != [] && P.IsParameterSet(only) && !P.IsParameterSet(slice) && |only| <= mtu
    requires |prior| >= |s.held| + 4 + |only|
    ensures var payloads := Payloads([only, slice], mtu);
            && |payloads| > 1 && payloads[0] == only
            && Depacketize(cap, s, payloads[0], prior).status == Ok && Depacketize(cap, s, payloads[0], prior).complete
    ensures !Readable(s, [only, slice], mtu)
  {
    hide P.Packets;
    var nals := [only, slice];
    assert nals[1..] == [slice];
    assert P.Joining([slice], 3 + |only|, mtu) == 0;
    P.PacketsUnfold(nals, mtu, true);
    P.PacketsNonEmpty([slice], mtu, true);
    assert P.Emit(P.Whole(only), mtu, false) == [P.Fragment(only, false, true, true)];
  }

  /** Such a frame: a sequence parameter set and a slice of two bytes each. */
  lemma SingleSetExample(s: Reassembly)
    ensures Legal([[0x67, 1], [0x65, 2]], 1200, 100) && !Readable(s, [[0x67, 1], [0x65, 2]], 1200)
  {
    var nals: seq<Nal> := [[0x67, 1], [0x65, 2]];
    assert nals[0][0] == 0x67 && nals[1][0] == 0x65 && 0x67 % 32 == 7 && 0x65 % 32 == 5;
    assert nals[1..] == [nals[1]];
    AnnexBSingle(nals[1]);
    assert AnnexB(nals) == START_CODE + nals[0] + AnnexB(nals[1..]);
  }

  /**
   * End to end: the bytes of a legal frame, with start codes of either length and units that
   * hide none, are scanned, packetized and reassembled into the same units, and into the very
   * same bytes if all start codes were long.
   */
  lemma BytesSurvive(cap: nat, s: Reassembly, units: seq<Coded>, mtu: nat, priors: seq<seq<byte>>)
    requires Legal(NalsOf(units), mtu, cap) && AllClean(units) && !s.started && Readable(s, NalsOf(units), mtu)
    requires |priors| == |Payloads(NalsOf(units), mtu)| && Roomy(priors, |AnnexB(NalsOf(units))|)
    ensures var (nals, all) := Scan(Stream(units), 0);
            && all && nals == NalsOf(units)
            && Delivers(cap, s, Data(P.Packets(nals, mtu, all)), priors, AnnexB(nals))
            && ((forall i :: 0 <= i < |units| ==> units[i].long) ==> AnnexB(nals) == Stream(units))
  {
    hide Delivers, P.Packets, Scan, FinalState, OneGroup;
    ScanStream(units);
    LongStream(NalsOf(units));
    if forall i :: 0 <= i < |units| ==> units[i].long { assert units == Longs(NalsOf(units)); }
    FrameLaw(cap, s, NalsOf(units), mtu, priors);
  }

  // ---- Streams of frames -------------------------------------------------------------------

  /** Each frame of the stream, fed in turn, comes out exactly. */
  ghost predicate StreamSurvives(cap: nat, s: Reassembly, frames: seq<seq<Nal>>, mtu: nat, priors: seq<seq<seq<byte>>>)
    requires |priors| == |frames|
    requires forall i :: 0 <= i < |frames| ==> Legal(frames[i], mtu, cap) && |priors[i]| == |Payloads(frames[i], mtu)|
    decreases |frames|
  {
    frames == [] ||
    (assert Legal(frames[0], mtu, cap);
     var p := Payloads(frames[0], mtu);
     && Delivers(cap, s, p, priors[0], AnnexB(frames[0]))
     && StreamSurvives(cap, FinalState(cap, s, p, priors[0]), frames[1..], mtu, priors[1..]))
  }

  /** Every frame is one unit, or one group and a unit, and no lone packet comes straight after a fragmented frame. */
  predicate Survivable(stale: bool, frames: seq<seq<Nal>>, mtu: nat)
    requires forall i :: 0 <= i < |frames| ==> frames[i] != [] && NonEmpty(frames[i])
    decreases |frames|
  {
    frames == [] ||
    (&& (|frames[0]| == 1 || OneGroup(frames[0], mtu)) && !(stale && Lone(frames[0], mtu))
     && Survivable(Fragmented(frames[0], mtu), frames[1..], mtu))
  }

  lemma {:induction false} LegalNonEmpty(frames: seq<seq<Nal>>, mtu: nat, cap: nat)
    requires forall i :: 0 <= i < |frames| ==> Legal(frames[i], mtu, cap)
    ensures forall i :: 0 <= i < |frames| ==> frames[i] != [] && NonEmpty(frames[i])
  {
  }

  /** The stream law: every frame comes out exactly when the stream is survivable. */
  lemma {:induction false} StreamLaw(cap: nat, s: Reassembly, frames: seq<seq<Nal>>, mtu: nat, priors: seq<seq<seq<byte>>>)
    requires |priors| == |frames| && !s.started
    requires forall i :: 0 <= i < |frames| ==>
               && Legal(frames[i], mtu, cap) && |priors[i]| == |Payloads(frames[i], mtu)|
               && Roomy(priors[i], |AnnexB(frames[i])|)
    ensures forall i :: 0 <= i < |frames| ==> frames[i] != [] && NonEmpty(frames[i])
    ensures StreamSurvives(cap, s, frames, mtu, priors) <==> Survivable(s.held != [], frames, mtu)
    decreases |frames|
  {
    hide Delivers, FinalState, Payloads, OneGroup, Roomy, AnnexB, Carriable;
    LegalNonEmpty(frames, mtu, cap);
    if frames != [] {
      var f := frames[0];
      assert Legal(f, mtu, cap);
      FrameLaw(cap, s, f, mtu, priors[0]);
      if Readable(s, f, mtu) {
        var next := FinalState(cap, s, Payloads(f, mtu), priors[0]);
        SetsNonEmpty(f);
        StreamLaw(cap, next, frames[1..], mtu, priors[1..]);
      }
    }
  }

  /** Two small frames of one slice each, with a budget of three bytes. */
  const FIRST: seq<Nal> := [[0x65, 1, 2, 3]]
  const SECOND: seq<Nal> := [[0x41, 9]]

  lemma ExampleIsLegal()
    ensures Legal(FIRST, 3, 100) && Legal(SECOND, 3, 100)
    ensures |AnnexB(FIRST)| == 8 && |AnnexB(SECOND)| == 6
  {
    AnnexBSingle(FIRST[0]);
    AnnexBSingle(SECOND[0]);
    assert FIRST[0][0] == 0x65 && SECOND[0][0] == 0x41;
    assert 0x65 % 32 == 5 && 0x41 % 32 == 1;
    assert P.TypeOf(FIRST[0]) == 5 && P.TypeOf(SECOND[0]) == 1;
  }

  /** The second one, sent whole behind the fragments of the first, does not come out. */
  lemma StaleBytesExample(priors: seq<seq<seq<byte>>>)
    requires |priors| == 2 && Roomy(priors[0], 8) && Roomy(priors[1], 8)
    requires NonEmpty(FIRST) && |priors[0]| == |Payloads(FIRST, 3)|
    requires NonEmpty(SECOND) && |priors[1]| == |Payloads(SECOND, 3)|
    ensures Legal(FIRST, 3, 100) && Legal(SECOND, 3, 100)
    ensures !StreamSurvives(100, Reassembly([], false), [FIRST, SECOND], 3, priors)
  {
    hide Legal, Payloads, StreamSurvives, AnnexB, OneGroup;
    ExampleIsLegal();
    var frames := [FIRST, SECOND];
    assert frames[1..] == [SECOND];
    forall i | 0 <= i < 2
      ensures Legal(frames[i], 3, 100) && |priors[i]| == |Payloads(frames[i], 3)|
      ensures Roomy(priors[i], |AnnexB(frames[i])|)
    {
      assert frames[i] == if i == 0 then FIRST else SECOND;
    }
    StreamLaw(100, Reassembly([], false), frames, 3, priors);
    assert Fragmented(FIRST, 3) && Lone(SECOND, 3);
  }
}
