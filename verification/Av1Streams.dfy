/**
 * OBU streams as an encoder writes them (section 5.3 of the AV1 specification): the splitter
 * reads them back, and the record builder takes them exactly when their headers fit.
 */
module Av1Streams {
  import opened Bytes
  import opened Av1Config

  function ExtensionBytes(o: Obu): seq<byte> { if o.extension.Some? then [o.extension.value] else [] }

  /** An OBU on the wire: with its size if the header says so, else reaching to the end of the stream. */
  function Written(o: Obu): (r: seq<byte>) {
    [o.header] + ExtensionBytes(o) + (if o.header / 2 % 2 == 1 then WriteLeb(|o.payload|) else []) + o.payload
  }

  /** Sizes fit 64 bits, the extension is there when announced, and there are at least two bytes. */
  predicate Wellwritten(o: Obu) {
    (o.extension.Some? <==> o.header / 4 % 2 == 1) && |o.payload| <= UINT64_MAX && |Written(o)| >= 2
  }

  /** Only the last OBU of a stream may go without its size. */
  predicate IsStream(obus: seq<Obu>) {
    forall i :: 0 <= i < |obus| ==> Wellwritten(obus[i]) && (i < |obus| - 1 ==> obus[i].header / 2 % 2 == 1)
  }

  function WrittenAll(obus: seq<Obu>): (r: seq<byte>) {
    if obus == [] then [] else Written(obus[0]) + WrittenAll(obus[1..])
  }

  function Power(k: nat): nat { if k == 0 then 1 else 128 * Power(k - 1) }

  lemma {:induction false} LebFits(n: nat, k: nat)
    requires 0 < k && n < Power(k)
    ensures 1 <= |WriteLeb(n)| <= k
  {
    WriteLebUnfold(n);
    if n >= 128 {
      assert Power(1) == 128 * Power(0) == 128;
      LebFits(n / 128, k - 1);
    }
  }

  /** Every 64-bit size takes at most the ten bytes the reader looks at. */
  lemma LebSize(n: nat)
    requires n <= UINT64_MAX
    ensures 1 <= |WriteLeb(n)| <= 10
  {
    assert Power(5) == 0x8_0000_0000;
    assert Power(10) == 128 * 128 * 128 * 128 * 128 * Power(5);
    LebFits(n, 10);
  }

  /** The groups of seven bits stand least significant first, all but the last marked. */
  lemma LebFormat()
    ensures WriteLeb(5) == [5] && WriteLeb(300) == [172, 2] && WriteLeb(0x4000) == [128, 128, 1]
  {
    WriteLebUnfold(5);
    WriteLebUnfold(300);
    WriteLebUnfold(300 / 128);
    WriteLebUnfold(0x4000);
    WriteLebUnfold(0x4000 / 128);
    WriteLebUnfold(0x4000 / 128 / 128);
  }

  /** A size is read back wherever it stands. */
  lemma SizeReads(a: seq<byte>, n: nat, c: seq<byte>)
    requires n <= UINT64_MAX
    ensures var d := a + WriteLeb(n) + c; ReadLeb(d, |a|, |d| - |a|) == (n, |WriteLeb(n)|)
  {
    hide WriteLeb, Leb;
    var d := a + WriteLeb(n) + c;
    var avail := |d| - |a|;
    LebSize(n);
    SliceInside(a, WriteLeb(n), c);
    LebReadsBack(d, |a|, if avail < 10 then avail else 10, n);
  }

  /** An OBU in front of others is split off by its size; one without a size takes everything. */
  lemma SplitsOff(o: Obu, rest: seq<byte>)
    requires Wellwritten(o) && (o.header / 2 % 2 == 1 || rest == [])
    ensures ObuLength(Written(o) + rest, 0) == Some(|Written(o)|)
  {
    hide WriteLeb, ReadLeb;
    var d, front, n := Written(o) + rest, [o.header] + ExtensionBytes(o), |o.payload|;
    assert d[0] == o.header && |front| == Offset(o.header);
    if o.header / 2 % 2 == 1 {
      assert d == front + WriteLeb(n) + (o.payload + rest);
      SizeReads(front, n, o.payload + rest);
    } else {
      assert d == Written(o);
    }
  }

  /** The handler sees header, extension and every byte of the payload. */
  lemma ParsesWritten(o: Obu)
    requires Wellwritten(o)
    ensures Parse(Written(o)) == Some(o)
  {
    hide WriteLeb, ReadLeb;
    var d, front, n := Written(o), [o.header] + ExtensionBytes(o), |o.payload|;
    assert d[0] == o.header && |front| == Offset(o.header);
    if o.extension.Some? { assert d[1] == o.extension.value; }
    if o.header / 2 % 2 == 1 {
      assert d == front + WriteLeb(n) + o.payload;
      SizeReads(front, n, o.payload);
      var at := |front| + |WriteLeb(n)|;
      assert at + n == |d| && d[at..at + n] == o.payload;
    } else {
      assert d == front + o.payload;
      assert d[|front|..] == o.payload;
    }
  }

  /** Splitting a stream gives its OBUs back, in order and whole. */
  lemma {:induction false} StreamSplits(obus: seq<Obu>)
    requires IsStream(obus)
    ensures Obus(WrittenAll(obus), 0) == Some(obus)
    decreases |obus|
  {
    hide Parse, ObuLength, Written;
    if obus != [] {
      var o, rest := obus[0], WrittenAll(obus[1..]);
      var d, n := WrittenAll(obus), |Written(obus[0])|;
      FirstOfStream(obus);
      SplitsOff(o, rest);
      ParsesWritten(o);
      assert d[0..0 + n] == Written(o) && d[n..] == rest;
      ObusShift(d, n, n);
      StreamSplits(obus[1..]);
      assert [o] + obus[1..] == obus;
    }
  }

  lemma FirstOfStream(obus: seq<Obu>)
    requires IsStream(obus) && obus != []
    ensures Wellwritten(obus[0]) && |Written(obus[0])| >= 2 && IsStream(obus[1..])
    ensures obus[0].header / 2 % 2 == 1 || WrittenAll(obus[1..]) == []
  {
    hide Written;
    if |obus| == 1 { assert obus[1..] == []; }
    assert Wellwritten(obus[0]);
  }

  // ---- What the record takes ---------------------------------------------------------------

  /** The OBUs that belong into a configuration record: sequence headers and metadata. */
  predicate Belongs(o: Obu) { o.header / 8 % 16 == 1 || o.header / 8 % 16 == 5 }

  /** Kept, in order: exactly those, each with the size bit set and nothing else changed. */
  lemma {:induction false} KeptIs(a: seq<Obu>, b: seq<Obu>, o: Obu)
    ensures Kept(a + b) == Kept(a) + Kept(b)
    ensures Kept([o]) == if !Belongs(o) then []
                         else [Obu(if o.header / 2 % 2 == 1 then o.header else o.header + 2, o.extension, o.payload)]
    decreases |a|
  {
    assert [o][1..] == [];
    if a == [] {
      assert a + b == b;
    } else {
      assert (a + b)[1..] == a[1..] + b;
      KeptIs(a[1..], b, o);
    }
  }

  /** Each OBU that belongs finds room for itself and eight bytes, and each sequence header can be parsed. */
  predicate Acceptable(obus: seq<Obu>, stored: nat, parses: seq<byte> -> bool) {
    obus == [] ||
    (if Belongs(obus[0])
     then && stored + |Written(obus[0])| + 8 < 2048 && (obus[0].header / 8 % 16 == 1 ==> parses(obus[0].payload))
          && Acceptable(obus[1..], stored + |Stored(obus[0])|, parses)
     else Acceptable(obus[1..], stored, parses))
  }

  /** Building a record from a stream succeeds exactly when it is acceptable. */
  lemma {:induction false} BuildSucceedsIff(obus: seq<Obu>, front: seq<byte>, stored: seq<byte>, parses: seq<byte> -> bool)
    requires IsStream(obus)
    ensures Build(front + WrittenAll(obus), |front|, stored, parses).1 == 0 <==> Acceptable(obus, |stored|, parses)
    decreases |obus|
  {
    hide Parse, ObuLength, Written, Stored, Handle, Build, Belongs;
    if obus == [] {
      BuildUnfold(front + [], |front|, stored, parses);
    } else {
      var o, rest := obus[0], WrittenAll(obus[1..]);
      FirstOfStream(obus);
      BuildStep(o, front, rest, stored, parses);
      ParsesWritten(o);
      HandleOutcome(stored, o, parses);
      assert front + WrittenAll(obus) == front + Written(o) + rest;
      BuildSucceedsIff(obus[1..], front + Written(o), Handle(stored, Written(o), parses).0, parses);
    }
  }

  lemma BuildStep(o: Obu, front: seq<byte>, rest: seq<byte>, stored: seq<byte>, parses: seq<byte> -> bool)
    requires Wellwritten(o) && (o.header / 2 % 2 == 1 || rest == [])
    ensures var d, h := front + Written(o) + rest, Handle(stored, Written(o), parses);
            Build(d, |front|, stored, parses) == if h.1 != 0 then h else Build(d, |front + Written(o)|, h.0, parses)
  {
    hide Parse, ObuLength, Written, Handle, Build;
    var d, n := front + Written(o) + rest, |Written(o)|;
    BuildUnfold(d, |front|, stored, parses);
    SplitsOff(o, rest);
    assert d[|front|..] == Written(o) + rest;
    assert n >= 2;
    ObuLengthShift(d, |front|, |front|);
    SliceInside(front, Written(o), rest);
  }

  lemma HandleOutcome(stored: seq<byte>, o: Obu, parses: seq<byte> -> bool)
    requires Parse(Written(o)) == Some(o)
    ensures var (stored', r), fits := Handle(stored, Written(o), parses), |stored| + |Written(o)| + 8 < 2048;
            && (r == 0 <==> !Belongs(o) || (fits && (o.header / 8 % 16 == 1 ==> parses(o.payload))))
            && (r == 0 || r == -1)
            && stored' == if Belongs(o) && fits then stored + Stored(o) else stored
  {
    hide Parse, Stored, Written;
  }

  /** So a record can be built from a stream exactly then, and it splits into the OBUs that belong. */
  lemma RecordOfStream(obus: seq<Obu>, parses: seq<byte> -> bool)
    requires IsStream(obus)
    ensures var (record, r) := Build(WrittenAll(obus), 0, [], parses);
            && (r == 0 <==> Acceptable(obus, 0, parses))
            && (r == 0 ==> Obus(record, 0) == Some(Kept(obus)))
  {
    hide Build, Obus, WrittenAll, Acceptable;
    assert [] + WrittenAll(obus) == WrittenAll(obus);
    BuildSucceedsIff(obus, [], [], parses);
    if Build(WrittenAll(obus), 0, [], parses).1 == 0 {
      RecordIsStream(WrittenAll(obus), parses);
      StreamSplits(obus);
    }
  }
}
