/** h264_packetize of codec/h264_codec.c: STAP-A, single NAL unit and FU-A packets (RFC 6184). */
module H264Packetize {
  import opened Bytes
  import opened H264AnnexB

  datatype Status = NoMem | Invalid | Buffer

  datatype Result<T> = Done(value: T) | Error(error: Status)

  datatype Fragment = Fragment(data: seq<byte>, marker: bool, start: bool, end: bool)

  /** TURBO_CODEC_MAX_PACKETS. */
  const MAX_PACKETS := 64

  function TypeOf(nal: Nal): byte
    requires nal != []
  {
    nal[0] % 32
  }

  predicate IsParameterSet(nal: Nal)
    requires nal != []
  {
    TypeOf(nal) == 7 || TypeOf(nal) == 8
  }

  // ---- What is sent ------------------------------------------------------------------------

  /** Units share a STAP-A packet or travel alone. */
  datatype Unit = Aggregate(nals: seq<Nal>) | Whole(nal: Nal)

  /** How many of the next units join a STAP-A that is `used` bytes long so far. */
  function Joining(nals: seq<Nal>, used: nat, mtu: nat): (n: nat)
    requires NonEmpty(nals)
    ensures n <= |nals|
  {
    if nals == [] || !IsParameterSet(nals[0]) || used + 2 + |nals[0]| > mtu then 0
    else 1 + Joining(nals[1..], used + 2 + |nals[0]|, mtu)
  }

  function Aggregated(nals: seq<Nal>, mtu: nat): (n: nat)
    requires NonEmpty(nals) && nals != []
    ensures n < |nals|
  {
    if IsParameterSet(nals[0]) then Joining(nals[1..], 3 + |nals[0]|, mtu) else 0
  }

  function Plan(nals: seq<Nal>, mtu: nat): (r: seq<Unit>)
    requires NonEmpty(nals)
  {
    if nals == [] then []
    else
      var n := Aggregated(nals, mtu);
      if n > 0 then [Aggregate(nals[..n + 1])] + Plan(nals[n + 1..], mtu)
      else [Whole(nals[0])] + Plan(nals[1..], mtu)
  }

  /** The units a plan carries, in order. */
  function Carried(plan: seq<Unit>): (r: seq<Nal>) {
    if plan == [] then []
    else (match plan[0] case Aggregate(nals) => nals case Whole(nal) => [nal]) + Carried(plan[1..])
  }

  /** Every unit is sent once, in order. */
  lemma {:induction false} PlanCarriesAll(nals: seq<Nal>, mtu: nat)
    requires NonEmpty(nals)
    ensures Carried(Plan(nals, mtu)) == nals
    decreases |nals|
  {
    if nals != [] {
      var n := Aggregated(nals, mtu);
      PlanCarriesAll(nals[n + 1..], mtu);
      assert Plan(nals, mtu)[1..] == Plan(nals[n + 1..], mtu);
      assert nals == nals[..n + 1] + nals[n + 1..];
      assert n == 0 ==> nals[..1] == [nals[0]];
    }
  }

  /** One unit inside a STAP-A: its 16-bit length, truncated as the cast truncates it, and its bytes. */
  function Sized(nal: Nal): (r: seq<byte>)
    ensures |r| == 2 + |nal|
  {
    [|nal| / 256 % 256, |nal| % 256] + nal
  }

  function SizedAll(nals: seq<Nal>): (r: seq<byte>) {
    if nals == [] then [] else Sized(nals[0]) + SizedAll(nals[1..])
  }

  lemma {:induction false} SizedAllSnoc(nals: seq<Nal>, nal: Nal)
    ensures SizedAll(nals + [nal]) == SizedAll(nals) + Sized(nal)
  {
    if nals == [] {
      assert (nals + [nal])[1..] == [];
    } else {
      assert (nals + [nal])[1..] == nals[1..] + [nal];
      SizedAllSnoc(nals[1..], nal);
    }
  }

  function StapA(nals: seq<Nal>): (r: seq<byte>) { [24] + SizedAll(nals) }

  function FuIndicator(nal: Nal): byte
    requires nal != []
  {
    nal[0] / 32 * 32 + 28
  }

  function FuHeader(nal: Nal, start: bool, end: bool): byte
    requires nal != []
  {
    TypeOf(nal) + (if start then 128 else 0) + (if end then 64 else 0)
  }

  function FuPacket(nal: Nal, off: nat, chunk: nat, closes: bool): (r: Fragment)
    requires 1 <= off && off + chunk <= |nal|
    ensures |r.data| == chunk + 2
  {
    var start, end := off == 1, off + chunk == |nal|;
    Fragment([FuIndicator(nal), FuHeader(nal, start, end)] + nal[off..off + chunk], end && closes, start, end)
  }

  /** The FU-A packets of the bytes of `nal` from `off` on. */
  function FuA(nal: Nal, off: nat, mtu: nat, closes: bool): (r: seq<Fragment>)
    requires 1 <= off <= |nal| && mtu > 2
    decreases |nal| - off
  {
    if off == |nal| then []
    else
      var chunk := if mtu - 2 > |nal| - off then |nal| - off else mtu - 2;
      [FuPacket(nal, off, chunk, closes)] + FuA(nal, off + chunk, mtu, closes)
  }

  function Emit(u: Unit, mtu: nat, closes: bool): (r: seq<Fragment>)
    requires mtu > 2 && (u.Whole? ==> u.nal != [])
  {
    match u
    case Aggregate(nals) => [Fragment(StapA(nals), false, true, false)]
    case Whole(nal) =>
      if |nal| <= mtu then [Fragment(nal, closes, true, true)] else FuA(nal, 1, mtu, closes)
  }

  predicate WellFormed(plan: seq<Unit>) {
    forall i :: 0 <= i < |plan| ==> (plan[i].Whole? ==> plan[i].nal != [])
  }

  /** All packets of a plan; `closes` says that its last unit ends the frame. */
  function EmitAll(plan: seq<Unit>, mtu: nat, closes: bool): (r: seq<Fragment>)
    requires mtu > 2 && WellFormed(plan)
  {
    if plan == [] then [] else Emit(plan[0], mtu, closes && |plan| == 1) + EmitAll(plan[1..], mtu, closes)
  }

  lemma {:induction false} PlanWellFormed(nals: seq<Nal>, mtu: nat)
    requires NonEmpty(nals)
    ensures WellFormed(Plan(nals, mtu))
    decreases |nals|
  {
    if nals != [] {
      PlanWellFormed(nals[Aggregated(nals, mtu) + 1..], mtu);
    }
  }

  /** The packets of a frame made of `nals`. */
  function Packets(nals: seq<Nal>, mtu: nat, closes: bool): (r: seq<Fragment>)
    requires mtu > 2 && NonEmpty(nals)
  {
    PlanWellFormed(nals, mtu);
    EmitAll(Plan(nals, mtu), mtu, closes)
  }

  function FirstUnit(nals: seq<Nal>, mtu: nat): (u: Unit)
    requires NonEmpty(nals) && nals != []
    ensures u.Whole? ==> u.nal != []
  {
    var n := Aggregated(nals, mtu);
    if n > 0 then Aggregate(nals[..n + 1]) else Whole(nals[0])
  }

  lemma PacketsUnfold(nals: seq<Nal>, mtu: nat, closes: bool)
    requires mtu > 2 && NonEmpty(nals) && nals != []
    ensures var rest := nals[Aggregated(nals, mtu) + 1..];
            Packets(nals, mtu, closes)
            == Emit(FirstUnit(nals, mtu), mtu, closes && rest == []) + Packets(rest, mtu, closes)
  {
    hide Plan, Aggregated, Emit;
    var rest := nals[Aggregated(nals, mtu) + 1..];
    PlanUnfold(nals, mtu);
    PlanWellFormed(nals, mtu);
    PlanWellFormed(rest, mtu);
  }

  lemma {:induction false} FuASizes(nal: Nal, off: nat, mtu: nat, closes: bool)
    requires 1 <= off <= |nal| && mtu > 2
    ensures forall i :: 0 <= i < |FuA(nal, off, mtu, closes)| ==> |FuA(nal, off, mtu, closes)[i].data| <= mtu
    decreases |nal| - off
  {
    if off < |nal| {
      FuASizes(nal, off + if mtu - 2 > |nal| - off then |nal| - off else mtu - 2, mtu, closes);
    }
  }

  /** A STAP-A holds what the sizing pass added up, and that is within the budget. */
  lemma {:induction false} JoiningFits(nals: seq<Nal>, used: nat, mtu: nat)
    requires NonEmpty(nals) && used <= mtu
    ensures used + |SizedAll(nals[..Joining(nals, used, mtu)])| <= mtu
    decreases |nals|
  {
    var n := Joining(nals, used, mtu);
    if n > 0 {
      JoiningFits(nals[1..], used + 2 + |nals[0]|, mtu);
      assert nals[..n][1..] == nals[1..][..n - 1];
    }
  }

  lemma AggregateFits(nals: seq<Nal>, mtu: nat)
    requires NonEmpty(nals) && nals != [] && Aggregated(nals, mtu) > 0
    ensures |StapA(nals[..Aggregated(nals, mtu) + 1])| <= mtu
  {
    var n := Aggregated(nals, mtu);
    JoiningFits(nals[1..], 3 + |nals[0]|, mtu);
    assert nals[..n + 1][1..] == nals[1..][..n];
  }

  /** Every packet is within the budget. */
  lemma {:induction false} PacketsFit(nals: seq<Nal>, mtu: nat, closes: bool)
    requires NonEmpty(nals) && mtu > 2
    ensures var p := Packets(nals, mtu, closes); forall i :: 0 <= i < |p| ==> |p[i].data| <= mtu
    decreases |nals|
  {
    if nals != [] {
      var n := Aggregated(nals, mtu);
      PacketsFit(nals[n + 1..], mtu, closes);
      PacketsUnfold(nals, mtu, closes);
      hide Packets;
      var last := closes && nals[n + 1..] == [];
      if n > 0 {
        AggregateFits(nals, mtu);
      } else if |nals[0]| > mtu {
        FuASizes(nals[0], 1, mtu, last);
      }
    }
  }

  /** The frame ends with a unit of its own, not with an aggregate of parameter sets. */
  predicate EndsWhole(nals: seq<Nal>, mtu: nat)
    requires NonEmpty(nals)
  {
    var plan := Plan(nals, mtu);
    plan != [] && plan[|plan| - 1].Whole?
  }

  lemma {:induction false} FuAMarkers(nal: Nal, off: nat, mtu: nat, closes: bool)
    requires 1 <= off < |nal| && mtu > 2
    ensures var p := FuA(nal, off, mtu, closes);
            p != [] && forall i :: 0 <= i < |p| ==> p[i].marker == (closes && i == |p| - 1)
    decreases |nal| - off
  {
    var chunk := if mtu - 2 > |nal| - off then |nal| - off else mtu - 2;
    if off + chunk < |nal| {
      FuAMarkers(nal, off + chunk, mtu, closes);
    }
  }

  lemma EmitMarkers(u: Unit, mtu: nat, closes: bool)
    requires mtu > 2 && (u.Whole? ==> u.nal != [])
    ensures var p := Emit(u, mtu, closes);
            p != [] && forall i :: 0 <= i < |p| ==> p[i].marker == (closes && u.Whole? && i == |p| - 1)
  {
    if u.Whole? && |u.nal| > mtu {
      FuAMarkers(u.nal, 1, mtu, closes);
    }
  }

  lemma {:induction false} PlanMarkers(plan: seq<Unit>, mtu: nat, closes: bool)
    requires mtu > 2 && WellFormed(plan)
    ensures var p := EmitAll(plan, mtu, closes);
            && (plan != [] ==> p != [])
            && forall i :: 0 <= i < |p| ==> p[i].marker == (closes && i == |p| - 1 && plan[|plan| - 1].Whole?)
    decreases |plan|
  {
    hide Emit;
    if plan != [] {
      EmitMarkers(plan[0], mtu, closes && |plan| == 1);
      PlanMarkers(plan[1..], mtu, closes);
    }
  }

  /** The marker bit is on the last packet of a complete frame and on no other, unless the frame ends with an aggregate. */
  lemma MarkerOnLast(nals: seq<Nal>, mtu: nat, closes: bool)
    requires NonEmpty(nals) && mtu > 2
    ensures var p := Packets(nals, mtu, closes);
            forall i :: 0 <= i < |p| ==> p[i].marker == (closes && i == |p| - 1 && EndsWhole(nals, mtu))
  {
    PlanWellFormed(nals, mtu);
    PlanMarkers(Plan(nals, mtu), mtu, closes);
  }

  /** How many units join, said without the loop: all of them parameter sets, as many as fit. */
  lemma {:induction false} JoiningIs(nals: seq<Nal>, used: nat, mtu: nat, k: nat)
    requires NonEmpty(nals) && k <= |nals|
    ensures Joining(nals, used, mtu) == k <==>
            && (forall i :: 0 <= i < k ==> IsParameterSet(nals[i]))
            && (k > 0 ==> used + |SizedAll(nals[..k])| <= mtu)
            && (k < |nals| ==> !IsParameterSet(nals[k]) || used + |SizedAll(nals[..k + 1])| > mtu)
    decreases |nals|
  {
    hide IsParameterSet;
    if nals != [] {
      SizedAllCons(nals, k);
      if k < |nals| { SizedAllCons(nals, k + 1); }
      if k > 0 {
        JoiningIs(nals[1..], used + 2 + |nals[0]|, mtu, k - 1);
        assert forall i :: 0 < i <= k && i < |nals| ==> nals[i] == nals[1..][i - 1];
      }
    }
  }

  lemma SizedAllCons(nals: seq<Nal>, k: nat)
    requires k <= |nals| && nals != []
    ensures |SizedAll(nals[..k])| == if k == 0 then 0 else 2 + |nals[0]| + |SizedAll(nals[1..][..k - 1])|
  {
    if k > 0 { assert nals[..k][1..] == nals[1..][..k - 1]; }
  }

  /** Seen from the caller: a frame whose last unit is no parameter set does not end with an aggregate. */
  lemma {:induction false} SliceEndsWhole(nals: seq<Nal>, mtu: nat)
    requires NonEmpty(nals) && nals != [] && !IsParameterSet(nals[|nals| - 1])
    ensures EndsWhole(nals, mtu)
    decreases |nals|
  {
    hide IsParameterSet, Plan, Joining;
    var n := Aggregated(nals, mtu);
    var rest := nals[n + 1..];
    PlanUnfold(nals, mtu);
    if n > 0 {
      JoiningIs(nals[1..], 3 + |nals[0]|, mtu, n);
      assert nals[1..][n - 1] == nals[n];
    }
    if rest != [] {
      SliceEndsWhole(rest, mtu);
    }
  }

  lemma PlanUnfold(nals: seq<Nal>, mtu: nat)
    requires NonEmpty(nals) && nals != []
    ensures var rest := nals[Aggregated(nals, mtu) + 1..];
            Plan(nals, mtu) == [FirstUnit(nals, mtu)] + Plan(rest, mtu) && (Plan(rest, mtu) == [] <==> rest == [])
  {
    hide Aggregated;
  }

  /** A frame of two parameter sets only: one packet, and no marker although the frame ends with it. */
  lemma MarkerMissingExample()
    ensures var nals := [[0x67, 1], [0x68, 1]];
            && !EndsWhole(nals, 1200) && |Packets(nals, 1200, true)| == 1 && !Packets(nals, 1200, true)[0].marker
  {
    var nals: seq<Nal> := [[0x67, 1], [0x68, 1]];
    var rest := nals[1..];
    assert rest == [[0x68, 1]] && rest[1..] == [];
    assert 0x67 % 32 == 7 && 0x68 % 32 == 8;
    assert IsParameterSet(nals[0]) && IsParameterSet(rest[0]);
    assert Joining([], 9, 1200) == 0;
    assert Joining(rest, 5, 1200) == 1;
    assert Aggregated(nals, 1200) == 1;
    assert nals[2..] == [] && Plan([], 1200) == [];
    assert Plan(nals, 1200) == [Aggregate(nals[..2])] + [];
    PacketsUnfold(nals, 1200, true);
    NoPackets(1200, true);
  }

  // ---- How it is sent ----------------------------------------------------------------------

  /** Position behind the first `k` units found from `pos` on. */
  ghost function After(d: seq<byte>, pos: nat, k: nat): (r: nat)
    requires k <= |Scan(d, pos).0|
    decreases k
  {
    if k == 0 then pos else After(d, NextNal(d, pos).value.1, k - 1)
  }

  lemma {:induction false} AfterSplits(d: seq<byte>, pos: nat, k: nat)
    requires k <= |Scan(d, pos).0|
    ensures Scan(d, After(d, pos, k)) == (Scan(d, pos).0[k..], Scan(d, pos).1)
    ensures k > 0 ==> pos < After(d, pos, k) <= |d|
    decreases k
  {
    if k > 0 {
      hide NextNal;
      var (start, e) := NextNal(d, pos).value;
      AfterSplits(d, e, k - 1);
      assert Scan(d, pos).0 == [d[start..e]] + Scan(d, e).0;
      assert Scan(d, pos).0[k..] == Scan(d, e).0[k - 1..];
    }
  }

  /** After steps one unit further, and never back. */
  lemma {:induction false} AfterNext(d: seq<byte>, pos: nat, k: nat)
    requires k < |Scan(d, pos).0|
    ensures var here := After(d, pos, k);
            && here < |d| && NextNal(d, here).Some?
            && After(d, pos, k + 1) == NextNal(d, here).value.1 > here
            && Scan(d, pos).0[k] == d[NextNal(d, here).value.0..NextNal(d, here).value.1]
    decreases k
  {
    hide NextNal;
    if k > 0 {
      AfterNext(d, NextNal(d, pos).value.1, k - 1);
    }
  }

  lemma {:induction false} AfterIncreases(d: seq<byte>, pos: nat, j: nat, k: nat)
    requires j < k <= |Scan(d, pos).0|
    ensures After(d, pos, j) < After(d, pos, k)
    decreases k - j
  {
    hide NextNal;
    AfterNext(d, pos, j);
    if j + 1 < k {
      AfterIncreases(d, pos, j + 1, k);
    }
  }

  lemma {:induction false} SizedAllSplit(nals: seq<Nal>, k: nat)
    requires k <= |nals|
    ensures SizedAll(nals) == SizedAll(nals[..k]) + SizedAll(nals[k..])
  {
    if k > 0 {
      SizedAllSplit(nals[1..], k - 1);
      assert nals[..k][1..] == nals[1..][..k - 1];
      assert nals[k..] == nals[1..][k - 1..];
    }
  }

  /** The sizing pass over the parameter sets behind the first one. */
  method SizeStap(d: seq<byte>, pos: nat, nalEnd: nat, nalLen: nat, mtu: nat)
    returns (payloadLen: nat, stapEnd: nat, count: nat)
    requires pos < |d| && NextNal(d, pos).Some? && NextNal(d, pos).value.1 == nalEnd
    requires nalLen == |Scan(d, pos).0[0]| && IsParameterSet(Scan(d, pos).0[0])
    ensures var nals := Scan(d, pos).0;
            && count == Aggregated(nals, mtu) + 1
            && payloadLen == |StapA(nals[..count])|
            && stapEnd == After(d, pos, count)
  {
    hide NextNal, Joining, SizedAll, Scan, After;
    ghost var nals := Scan(d, pos).0;
    var scanPos := nalEnd;
    payloadLen, stapEnd, count := 1 + 2 + nalLen, nalEnd, 1;
    FirstBehind(d, pos);
    while scanPos < |d|
      invariant 1 <= count <= |nals| && scanPos == stapEnd == After(d, pos, count)
      invariant payloadLen == |StapA(nals[..count])| && (count > 1 ==> payloadLen <= mtu)
      invariant forall i :: 0 < i < count ==> IsParameterSet(nals[i])
      decreases |d| - scanPos
    {
      NextUnit(d, pos, count);
      var found, start, end := FindNal(d, scanPos);
      if !found { break; }
      if d[start] % 32 != 7 && d[start] % 32 != 8 { break; }
      if payloadLen + 2 + (end - start) > mtu { break; }
      StapGrows(nals, count);
      payloadLen := payloadLen + 2 + (end - start);
      stapEnd, scanPos := end, end;
      count := count + 1;
    }
    NextUnit(d, pos, count);
    if count < |nals| { StapGrows(nals, count); }
    AggregatedIs(nals, mtu, count);
  }

  lemma FirstBehind(d: seq<byte>, pos: nat)
    requires pos < |d| && NextNal(d, pos).Some?
    ensures var nals := Scan(d, pos).0; nals != [] && After(d, pos, 1) == NextNal(d, pos).value.1
    ensures |StapA(Scan(d, pos).0[..1])| == 3 + |Scan(d, pos).0[0]|
  {
    hide NextNal, Sized;
    var nals := Scan(d, pos).0;
    assert After(d, pos, 1) == After(d, NextNal(d, pos).value.1, 0);
    assert nals[..1] == [nals[0]];
    assert SizedAll(nals[..1]) == Sized(nals[0]) + SizedAll([]);
  }

  /** What the scanner meets behind the first `k` units: the next one, or none. */
  lemma NextUnit(d: seq<byte>, pos: nat, k: nat)
    requires k <= |Scan(d, pos).0|
    ensures var nals, here := Scan(d, pos).0, After(d, pos, k);
            if k < |nals|
            then here < |d| && NextNal(d, here).Some? &&
                 var (start, end) := NextNal(d, here).value;
                 here < end == After(d, pos, k + 1) && nals[k] == d[start..end]
            else here >= |d| || NextNal(d, here).None?
  {
    hide NextNal;
    AfterSplits(d, pos, k);
    if k < |Scan(d, pos).0| { AfterNext(d, pos, k); }
  }

  lemma StapGrows(nals: seq<Nal>, k: nat)
    requires k < |nals|
    ensures |StapA(nals[..k + 1])| == |StapA(nals[..k])| + 2 + |nals[k]|
  {
    SizedAllSnoc(nals[..k], nals[k]);
    assert nals[..k] + [nals[k]] == nals[..k + 1];
  }

  lemma AggregatedIs(nals: seq<Nal>, mtu: nat, count: nat)
    requires NonEmpty(nals) && 1 <= count <= |nals| && IsParameterSet(nals[0])
    requires (forall i :: 0 < i < count ==> IsParameterSet(nals[i])) && (count > 1 ==> |StapA(nals[..count])| <= mtu)
    requires count < |nals| ==> !IsParameterSet(nals[count]) || |StapA(nals[..count + 1])| > mtu
    ensures Aggregated(nals, mtu) == count - 1
  {
    hide IsParameterSet, Joining, SizedAll;
    SizedAllCons(nals, count);
    if count < |nals| { SizedAllCons(nals, count + 1); }
    JoiningIs(nals[1..], 3 + |nals[0]|, mtu, count - 1);
  }

  /** One length-prefixed unit, at `at`. */
  method WriteSized(buf: array<byte>, at: nat, nal: Nal)
    requires at + 2 + |nal| <= buf.Length
    modifies buf
    ensures buf[..at + 2 + |nal|] == old(buf[..at]) + Sized(nal)
  {
    buf[at] := |nal| / 256 % 256;
    buf[at + 1] := |nal| % 256;
    forall i | 0 <= i < |nal| { buf[at + 2 + i] := nal[i]; }
    assert buf[..at] == old(buf[..at]);
    assert buf[at..at + 2 + |nal|] == Sized(nal);
    assert buf[..at + 2 + |nal|] == buf[..at] + buf[at..at + 2 + |nal|];
  }

  /** The writing pass: the same units again, into a buffer of the size just computed. */
  method WriteStap(d: seq<byte>, pos: nat, stapEnd: nat, payloadLen: nat, ghost count: nat)
    returns (packet: seq<byte>)
    requires 0 < count <= |Scan(d, pos).0| && stapEnd == After(d, pos, count)
    requires payloadLen == |StapA(Scan(d, pos).0[..count])|
    ensures packet == StapA(Scan(d, pos).0[..count])
  {
    hide NextNal, Sized;
    ghost var nals := Scan(d, pos).0[..count];
    ghost var k := 0;
    var buf := new byte[payloadLen];
    buf[0] := 24;
    var writePos, writeScan := 1, pos;
    while writeScan < stapEnd
      invariant 0 <= k <= count && writeScan == After(d, pos, k)
      invariant writePos == |StapA(nals[..k])| <= payloadLen
      invariant buf[..writePos] == StapA(nals[..k])
      decreases count - k
    {
      if k == count { assert false; }
      AfterNext(d, pos, k);
      var found, start, end := FindNal(d, writeScan);
      var len := end - start;
      assert nals[k] == d[start..end];
      assert nals[..k] + [nals[k]] == nals[..k + 1];
      SizedAllSnoc(nals[..k], nals[k]);
      SizedAllSplit(nals, k + 1);
      WriteSized(buf, writePos, d[start..end]);
      writePos := writePos + 2 + len;
      writeScan := end;
      k := k + 1;
    }
    if k < count {
      AfterIncreases(d, pos, k, count);
    }
    assert nals[..count] == nals;
    packet := buf[..writePos];
  }

  lemma FuAEnd(nal: Nal, mtu: nat, closes: bool)
    requires mtu > 2 && nal != []
    ensures FuA(nal, |nal|, mtu, closes) == []
  {
  }

  lemma FuAUnfold(nal: Nal, off: nat, mtu: nat, closes: bool)
    requires mtu > 2 && 1 <= off < |nal|
    ensures var chunk := if mtu - 2 > |nal| - off then |nal| - off else mtu - 2;
            FuA(nal, off, mtu, closes) == [FuPacket(nal, off, chunk, closes)] + FuA(nal, off + chunk, mtu, closes)
  {
  }

  /** The FU-A loop for one unit too large for a packet; `sent` packets precede it. */
  method FragmentNal(nal: Nal, mtu: nat, closes: bool, sent: nat, maxFragments: int, memory: nat -> bool)
    returns (r: Result<seq<Fragment>>)
    requires mtu > 2 && |nal| > 1
    ensures r.Done? ==> r.value == FuA(nal, 1, mtu, closes) && sent + |r.value| <= maxFragments
    ensures r == Error(Buffer) ==> sent + |FuA(nal, 1, mtu, closes)| > maxFragments
    ensures r == Error(Invalid) ==> sent + |FuA(nal, 1, mtu, closes)| > MAX_PACKETS
    ensures r == Error(NoMem) ==> exists k :: 0 <= k < MAX_PACKETS && !memory(k)
  {
    hide FuPacket, FuA;
    assert FuA(nal, |nal|, mtu, closes) == [] by { FuAEnd(nal, mtu, closes); }
    var off := 1;
    var out: seq<Fragment> := [];
    while off < |nal|
      invariant 1 <= off <= |nal|
      invariant out + FuA(nal, off, mtu, closes) == FuA(nal, 1, mtu, closes)
      invariant off > 1 ==> sent + |out| <= maxFragments
    {
      var remaining := |nal| - off;
      var chunk := mtu - 2;
      FuAUnfold(nal, off, mtu, closes);
      if sent + |out| >= maxFragments { return Error(Buffer); }
      if chunk > remaining { chunk := remaining; }
      if sent + |out| >= MAX_PACKETS { return Error(Invalid); }
      if !memory(sent + |out|) { return Error(NoMem); }
      ghost var rest := FuA(nal, off + chunk, mtu, closes);
      assert out + ([FuPacket(nal, off, chunk, closes)] + rest) == out + [FuPacket(nal, off, chunk, closes)] + rest;
      out := out + [FuPacket(nal, off, chunk, closes)];
      off := off + chunk;
    }
    r := Done(out);
  }

  /** One round of the packetizing loop: the packets of the next unit or group, and where it ends. */
  method SendUnit(d: seq<byte>, pos: nat, nalStart: nat, nalEnd: nat, mtu: nat, sent: nat, maxFragments: int, memory: nat -> bool)
    returns (r: Result<(seq<Fragment>, nat)>)
    requires pos < |d| && NextNal(d, pos) == Some((nalStart, nalEnd)) && mtu > 2 && sent < maxFragments
    ensures var (nals, all) := Scan(d, pos);
            && (r.Done? ==>
                  var (out, next) := r.value;
                  && pos < next <= |d| && sent + |out| <= maxFragments && Scan(d, next).1 == all
                  && out + Packets(Scan(d, next).0, mtu, all) == Packets(nals, mtu, all))
            && (r == Error(Buffer) ==> sent + |Packets(nals, mtu, all)| > maxFragments)
            && (r == Error(Invalid) ==> sent + |Packets(nals, mtu, all)| > MAX_PACKETS)
            && (r == Error(NoMem) ==> exists k :: 0 <= k < MAX_PACKETS && !memory(k))
  {
    hide NextNal, Joining, FuA, SizedAll, Packets;
    ghost var (nals, all) := Scan(d, pos);
    var nal := d[nalStart..nalEnd];
    assert nals == [nal] + Scan(d, nalEnd).0;
    PacketsUnfold(nals, mtu, all);
    if nal[0] % 32 == 7 || nal[0] % 32 == 8 {
      var payloadLen, stapEnd, count := SizeStap(d, pos, nalEnd, |nal|, mtu);
      AfterSplits(d, pos, count);
      if count > 1 {
        if sent >= MAX_PACKETS { return Error(Invalid); }
        if !memory(sent) { return Error(NoMem); }
        var packet := WriteStap(d, pos, stapEnd, payloadLen, count);
        return Done(([Fragment(packet, false, true, false)], stapEnd));
      }
    }
    assert FirstUnit(nals, mtu) == Whole(nal) && nals[1..] == Scan(d, nalEnd).0;
    ClosesAtEnd(d, nalEnd);
    if |nal| <= mtu {
      r := Done(([Fragment(nal, nalEnd == |d|, true, true)], nalEnd));
    } else {
      var fu := FragmentNal(nal, mtu, nalEnd == |d|, sent, maxFragments, memory);
      r := if fu.Error? then Error(fu.error) else Done((fu.value, nalEnd));
    }
  }

  /**
   * h264_packetize. Success means the scan reached the end of the frame and the packets are
   * those of all units found; Buffer means it did not, or that the packets do not fit the array.
   * `memory` says which packet buffers can be had.
   */
  method Packetize(d: seq<byte>, maxFragments: int, payloadBudget: nat, memory: nat -> bool) returns (r: Result<seq<Fragment>>)
    ensures maxFragments == 0 ==> r == Error(Invalid)
    ensures var mtu := if payloadBudget == 0 then 1200 else payloadBudget;
            maxFragments != 0 ==>
              if mtu <= 2 then r == Error(Buffer)
              else
                var (nals, all) := Scan(d, 0);
                && (r.Done? ==>
                      && all && r.value == Packets(nals, mtu, true)
                      && |r.value| <= if d == [] then 0 else maxFragments)
                && (r == Error(Buffer) ==> !all || |Packets(nals, mtu, all)| > maxFragments)
                && (r == Error(Invalid) ==> |Packets(nals, mtu, all)| > MAX_PACKETS)
                && (r == Error(NoMem) ==> exists k :: 0 <= k < MAX_PACKETS && !memory(k))
  {
    hide Packets, NextNal;
    if maxFragments == 0 { return Error(Invalid); }
    var mtu := if payloadBudget == 0 then 1200 else payloadBudget;
    if mtu <= 2 { return Error(Buffer); }
    ghost var (nals, all) := Scan(d, 0);
    var frags: seq<Fragment> := [];
    var pos := 0;
    NoPackets(mtu, all);
    while pos < |d| && |frags| < maxFragments
      invariant 0 <= pos <= |d| && Scan(d, pos).1 == all
      invariant frags + Packets(Scan(d, pos).0, mtu, all) == Packets(nals, mtu, all)
      invariant if pos > 0 then |frags| <= maxFragments else frags == []
      decreases |d| - pos
    {
      var found, nalStart, nalEnd := FindNal(d, pos);
      if !found { break; }
      var sent := SendUnit(d, pos, nalStart, nalEnd, mtu, |frags|, maxFragments, memory);
      if sent.Error? { return Error(sent.error); }
      frags := frags + sent.value.0;
      pos := sent.value.1;
    }
    if pos >= |d| { return Done(frags); }
    if all { PacketsNonEmpty(Scan(d, pos).0, mtu, all); }
    return Error(Buffer);
  }

  /** A unit ends the frame exactly when the scan is complete and finds nothing behind it. */
  lemma ClosesAtEnd(d: seq<byte>, e: nat)
    requires e <= |d|
    ensures Scan(d, e) == ([], true) <==> e == |d|
  {
  }

  lemma NoPackets(mtu: nat, closes: bool)
    requires mtu > 2
    ensures Packets([], mtu, closes) == []
  {
  }

  lemma PacketsNonEmpty(nals: seq<Nal>, mtu: nat, closes: bool)
    requires mtu > 2 && NonEmpty(nals) && nals != []
    ensures |Packets(nals, mtu, closes)| >= 1
  {
    PacketsUnfold(nals, mtu, closes);
  }
}
