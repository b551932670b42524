/** Annex B scanning in codec/h264_codec.c: start codes and the NAL units between them. */
module H264AnnexB {
  import opened Bytes

  type Nal = seq<byte>

  predicate NonEmpty(nals: seq<Nal>) { forall i :: 0 <= i < |nals| ==> nals[i] != [] }

  const START_CODE: seq<byte> := [0, 0, 0, 1]

  /** Length of the start code recognised at `i`, or 0. Four bytes must remain, even for a short code. */
  function CodeAt(d: seq<byte>, i: nat): (n: nat)
    requires i + 3 < |d|
    ensures n == 0 || n == 3 || n == 4
  {
    if d[i] != 0 || d[i + 1] != 0 then 0
    else if d[i + 2] == 1 then 3
    else if d[i + 2] == 0 && d[i + 3] == 1 then 4
    else 0
  }

  /** First start code at or after `pos`: its place and length, or (|d|, 0). */
  function FindCode(d: seq<byte>, pos: nat): (r: (nat, nat))
    ensures r.1 == 0 ==> r.0 == |d|
    ensures r.1 > 0 ==> pos <= r.0 && r.0 + 3 < |d| && r.1 == CodeAt(d, r.0)
    ensures forall i :: pos <= i < r.0 && i + 3 < |d| ==> CodeAt(d, i) == 0
    decreases |d| - pos
  {
    if pos + 3 >= |d| then (|d|, 0)
    else if CodeAt(d, pos) > 0 then (pos, CodeAt(d, pos))
    else FindCode(d, pos + 1)
  }

  /** h264_find_start_code_at. */
  method FindStartCodeAt(d: seq<byte>, pos: nat) returns (index: nat, codeLen: nat)
    ensures (index, codeLen) == FindCode(d, pos)
  {
    if pos >= |d| { return |d|, 0; }
    var i := pos;
    while i + 3 < |d|
      invariant pos <= i
      invariant FindCode(d, i) == FindCode(d, pos)
    {
      if d[i] == 0 && d[i + 1] == 0 && ((d[i + 2] == 0 && d[i + 3] == 1) || d[i + 2] == 1) {
        return i, if d[i + 2] == 1 then 3 else 4;
      }
      i := i + 1;
    }
    return |d|, 0;
  }

  /** Bounds of the next NAL unit, or None when there is none or it is empty. */
  function NextNal(d: seq<byte>, pos: nat): (r: Option<(nat, nat)>)
    ensures r.Some? ==> pos < r.value.0 < r.value.1 <= |d|
  {
    var (start, codeLen) := FindCode(d, pos);
    if codeLen == 0 then None
    else
      var end := FindCode(d, start + codeLen).0;
      if start + codeLen < end then Some((start + codeLen, end)) else None
  }

  /** h264_find_nal. */
  method FindNal(d: seq<byte>, pos: nat) returns (found: bool, nalStart: nat, nalEnd: nat)
    ensures found == NextNal(d, pos).Some?
    ensures found ==> NextNal(d, pos) == Some((nalStart, nalEnd))
  {
    var start, codeLen := FindStartCodeAt(d, pos);
    if start >= |d| || codeLen == 0 { return false, 0, 0; }
    nalStart := start + codeLen;
    var next, _ := FindStartCodeAt(d, nalStart);
    nalEnd := if next < |d| then next else |d|;
    found := nalStart < nalEnd;
  }

  /** The NAL units enumerated from `pos`, and whether the enumeration reaches the end of the data. */
  function Scan(d: seq<byte>, pos: nat): (r: (seq<Nal>, bool))
    ensures NonEmpty(r.0)
    decreases |d| - pos
  {
    if pos >= |d| then ([], true)
    else match NextNal(d, pos)
      case None => ([], false)
      case Some((s, e)) => var (rest, all) := Scan(d, e); ([d[s..e]] + rest, all)
  }

  /** An Annex B stream with 4-byte start codes. */
  function AnnexB(nals: seq<Nal>): (r: seq<byte>) {
    if nals == [] then [] else START_CODE + nals[0] + AnnexB(nals[1..])
  }

  lemma {:induction false} AnnexBAppend(a: seq<Nal>, b: seq<Nal>)
    ensures AnnexB(a + b) == AnnexB(a) + AnnexB(b)
  {
    if a == [] {
      assert a + b == b;
    } else {
      assert (a + b)[1..] == a[1..] + b;
      AnnexBAppend(a[1..], b);
    }
  }

  lemma AnnexBSingle(nal: Nal)
    ensures AnnexB([nal]) == START_CODE + nal
  {
    assert AnnexB([nal][1..]) == [];
  }

  predicate LongCode(d: seq<byte>, i: nat) {
    i + 3 < |d| && d[i] == 0 && d[i + 1] == 0 && d[i + 2] == 0 && d[i + 3] == 1
  }

  predicate ShortCode(d: seq<byte>, i: nat) {
    i + 3 < |d| && d[i] == 0 && d[i + 1] == 0 && d[i + 2] == 1
  }

  /** No 00 00 01 in the first `n` bytes. */
  predicate NoCode(nal: Nal, n: nat)
    requires n <= |nal|
  {
    forall i :: 0 <= i && i + 2 < n ==> !(nal[i] == 0 && nal[i + 1] == 0 && nal[i + 2] == 1)
  }

  /** A unit and whether a start code of four or of three bytes stands before it. */
  datatype Coded = Coded(long: bool, nal: Nal)

  function Code(long: bool): (r: seq<byte>) { if long then START_CODE else [0, 0, 1] }

  /** An Annex B stream with start codes of both lengths. */
  function Stream(units: seq<Coded>): (r: seq<byte>) {
    if units == [] then [] else Code(units[0].long) + units[0].nal + Stream(units[1..])
  }

  function NalsOf(units: seq<Coded>): (r: seq<Nal>)
    ensures |r| == |units|
  {
    seq(|units|, i requires 0 <= i < |units| => units[i].nal)
  }

  /** What stands behind a unit: nothing, or a start code. */
  datatype Next = End | Long | Short

  function NextOf(rest: seq<Coded>): Next { if rest == [] then End else if rest[0].long then Long else Short }

  /**
   * The unit contains nothing the scanner takes for a start code. At the end of a stream a
   * 00 00 01 in the final three bytes is overlooked, a final 00 00 00 01 is not; before a short
   * start code a final zero byte would make it a long one.
   */
  predicate Clean(nal: Nal, next: Next)
    requires nal != []
  {
    match next
    case End => NoCode(nal, |nal| - 1) && !(|nal| >= 4 && LongCode(nal, |nal| - 4))
    case Long => NoCode(nal, |nal|)
    case Short => NoCode(nal, |nal|) && nal[|nal| - 1] != 0
  }

  predicate AllClean(units: seq<Coded>)
    requires NonEmpty(NalsOf(units))
  {
    units != [] ==>
      (assert NalsOf(units)[0] != []; assert NalsOf(units[1..]) == NalsOf(units)[1..];
       Clean(units[0].nal, NextOf(units[1..])) && AllClean(units[1..]))
  }

  lemma {:induction false} FindCodeShift(d: seq<byte>, k: nat, pos: nat)
    requires k <= pos
    requires k <= |d|
    ensures FindCode(d, pos) == (FindCode(d[k..], pos - k).0 + k, FindCode(d[k..], pos - k).1)
    decreases |d| - pos
  {
    if pos + 3 < |d| {
      assert CodeAt(d, pos) == CodeAt(d[k..], pos - k);
      FindCodeShift(d, k, pos + 1);
    }
  }

  lemma NextNalShift(d: seq<byte>, k: nat, pos: nat)
    requires k <= pos && k <= |d|
    ensures var a, b := NextNal(d, pos), NextNal(d[k..], pos - k);
            a == if b.None? then None else Some((b.value.0 + k, b.value.1 + k))
  {
    FindCodeShift(d, k, pos);
    var (start, codeLen) := FindCode(d, pos);
    if codeLen > 0 {
      FindCodeShift(d, k, start + codeLen);
    }
  }

  lemma {:induction false} ScanShift(d: seq<byte>, k: nat, pos: nat)
    requires k <= pos && k <= |d|
    ensures Scan(d, pos) == Scan(d[k..], pos - k)
    decreases |d| - pos
  {
    hide NextNal;
    NextNalShift(d, k, pos);
    if pos < |d| && NextNal(d, pos).Some? {
      var (s, e) := NextNal(d, pos).value;
      assert d[s..e] == d[k..][s - k..e - k];
      ScanShift(d, k, e);
    }
  }

  /** `d` is one unit behind a start code of `c` bytes, followed by nothing or by another start code. */
  predicate Framed(d: seq<byte>, c: nat, nal: Nal, next: Next) {
    && nal != [] && 3 <= c && |d| >= c + |nal| && CodeAt(d, 0) == c
    && (forall k :: 0 <= k < |nal| ==> nal[k] == d[c + k])
    && match next
       case End => |d| == c + |nal|
       case Long => LongCode(d, c + |nal|)
       case Short => ShortCode(d, c + |nal|)
  }

  lemma CleanUnit(d: seq<byte>, c: nat, nal: Nal, next: Next, i: nat)
    requires Framed(d, c, nal, next) && Clean(nal, next)
    requires i < |nal| && c + i + 3 < |d|
    ensures CodeAt(d, c + i) == 0
  {
    if i + 2 < |nal| {
      assert !(nal[i] == 0 && nal[i + 1] == 0 && nal[i + 2] == 1);
      if i + 3 < |nal| && !(next == End && i + 4 == |nal|) {
        var k := i + 1;
        assert !(nal[k] == 0 && nal[k + 1] == 0 && nal[k + 2] == 1);
      }
    }
  }

  lemma DirtyUnit(d: seq<byte>, c: nat, nal: Nal, next: Next) returns (i: nat)
    requires Framed(d, c, nal, next) && !Clean(nal, next)
    ensures i < |nal| && c + i + 3 < |d| && CodeAt(d, c + i) > 0
  {
    var n := if next == End then |nal| - 1 else |nal|;
    if !NoCode(nal, n) {
      i :| 0 <= i && i + 2 < n && nal[i] == 0 && nal[i + 1] == 0 && nal[i + 2] == 1;
    } else if next == End {
      i := |nal| - 4;
      assert nal[i] == 0 && nal[i + 1] == 0 && nal[i + 2] == 0 && nal[i + 3] == 1;
    } else {
      i := |nal| - 1;
    }
  }

  lemma StreamStarts(units: seq<Coded>)
    requires NonEmpty(NalsOf(units))
    ensures match NextOf(units)
            case End => Stream(units) == []
            case Long => LongCode(Stream(units), 0)
            case Short => ShortCode(Stream(units), 0)
  {
    if units != [] {
      assert NalsOf(units)[0] != [];
      assert Stream(units) == Code(units[0].long) + (units[0].nal + Stream(units[1..]));
    }
  }

  lemma FramedUnit(long: bool, nal: Nal, rest: seq<byte>, next: Next)
    requires nal != []
    requires match next case End => rest == [] case Long => LongCode(rest, 0) case Short => ShortCode(rest, 0)
    ensures Framed(Code(long) + nal + rest, |Code(long)|, nal, next)
  {
    var d, c := Code(long) + nal + rest, |Code(long)|;
    assert d == Code(long) + (nal + rest);
    assert forall k :: 0 <= k < |nal| ==> d[c + k] == nal[k];
    if rest != [] {
      var e := c + |nal|;
      assert d[e] == rest[0] && d[e + 1] == rest[1] && d[e + 2] == rest[2] && d[e + 3] == rest[3];
    }
  }

  /** The first unit of a stream ends where it should exactly when it is clean. */
  lemma FirstUnit(d: seq<byte>, c: nat, nal: Nal, next: Next)
    requires Framed(d, c, nal, next)
    ensures FindCode(d, 0) == (0, c)
    ensures FindCode(d, c).0 == c + |nal| <==> Clean(nal, next)
  {
    var e := c + |nal|;
    if next != End {
      assert CodeAt(d, e) > 0;
    }
    if Clean(nal, next) {
      forall i | c <= i < e && i + 3 < |d| ensures CodeAt(d, i) == 0 {
        CleanUnit(d, c, nal, next, i - c);
      }
      FindsAt(d, c, e);
    } else {
      var i := DirtyUnit(d, c, nal, next);
      FindsBefore(d, c, c + i);
    }
  }

  lemma FindsAt(d: seq<byte>, pos: nat, e: nat)
    requires pos <= e <= |d| && (e < |d| ==> e + 3 < |d| && CodeAt(d, e) > 0)
    requires forall i :: pos <= i < e && i + 3 < |d| ==> CodeAt(d, i) == 0
    ensures FindCode(d, pos).0 == e
  {
    hide CodeAt;
    var r := FindCode(d, pos);
  }

  lemma FindsBefore(d: seq<byte>, pos: nat, i: nat)
    requires pos <= i && i + 3 < |d| && CodeAt(d, i) > 0
    ensures FindCode(d, pos).0 <= i
  {
    hide CodeAt;
    var r := FindCode(d, pos);
  }

  /** How scanning begins: with the unit that reaches up to `end`, or not at all. */
  lemma ScanFirst(d: seq<byte>, c: nat, end: nat)
    requires 0 < |d| && 0 < c && FindCode(d, 0) == (0, c) && end == FindCode(d, c).0
    ensures end <= |d|
    ensures c < end ==> Scan(d, 0) == ([d[c..end]] + Scan(d, end).0, Scan(d, end).1)
    ensures c >= end ==> Scan(d, 0) == ([], false)
  {
    hide FindCode;
    FindCodeBound(d, c);
  }

  lemma FindCodeBound(d: seq<byte>, pos: nat)
    ensures FindCode(d, pos).0 <= |d|
  {
  }

  /** Scanning a stream gives back its units exactly when every unit is clean. */
  lemma {:induction false} ScanStream(units: seq<Coded>)
    requires NonEmpty(NalsOf(units))
    ensures Scan(Stream(units), 0) == (NalsOf(units), true) <==> AllClean(units)
    decreases |units|
  {
    if units != [] {
      ScanStreamCons(units);
    }
  }

  lemma {:induction false} ScanStreamCons(units: seq<Coded>)
    requires NonEmpty(NalsOf(units)) && units != []
    ensures Scan(Stream(units), 0) == (NalsOf(units), true) <==> AllClean(units)
    decreases |units|, 0
  {
    hide Scan, FindCode, Framed, Clean, LongCode, ShortCode, CodeAt;
    var u, tail, nals := units[0], units[1..], NalsOf(units);
    assert NalsOf(tail) == nals[1..] && nals[0] == u.nal;
    var d, c, rest := Stream(units), |Code(u.long)|, Stream(tail);
    var e := c + |u.nal|;
    StreamStarts(tail);
    FramedUnit(u.long, u.nal, rest, NextOf(tail));
    FirstUnit(d, c, u.nal, NextOf(tail));
    ScanStream(tail);
    Slices(Code(u.long), u.nal, rest);
    var end := FindCode(d, c).0;
    ScanFirst(d, c, end);
    if end == e {
      ScanShift(d, e, e);
      assert nals == [u.nal] + nals[1..];
    } else if c < end {
      assert |d[c..end]| != |u.nal|;
    }
  }

  lemma Slices(a: seq<byte>, b: seq<byte>, r: seq<byte>)
    ensures (a + b + r)[|a|..|a| + |b|] == b && (a + b + r)[|a| + |b|..] == r
  {
  }

  /** The stream with long start codes only. */
  function Longs(nals: seq<Nal>): (r: seq<Coded>)
    ensures |r| == |nals|
  {
    seq(|nals|, i requires 0 <= i < |nals| => Coded(true, nals[i]))
  }

  lemma {:induction false} LongStream(nals: seq<Nal>)
    ensures NalsOf(Longs(nals)) == nals && Stream(Longs(nals)) == AnnexB(nals)
  {
    if nals != [] {
      assert Longs(nals)[1..] == Longs(nals[1..]);
      LongStream(nals[1..]);
    }
  }

  lemma ScanStep(d: seq<byte>, pos: nat, start: nat, end: nat)
    requires pos < |d| && NextNal(d, pos) == Some((start, end))
    ensures Scan(d, pos) == ([d[start..end]] + Scan(d, end).0, Scan(d, end).1)
    ensures end == |d| ==> Scan(d, end) == ([], true)
  {
    hide NextNal;
  }

  /** A start code inside a unit splits it. */
  lemma DirtyUnitExample()
    ensures !Clean([0x65, 0, 0, 1, 9], End)
    ensures Scan(AnnexB([[0x65, 0, 0, 1, 9]]), 0) == ([[0x65], [9]], true)
  {
    var nal: Nal := [0x65, 0, 0, 1, 9];
    AnnexBSingle(nal);
    var d: seq<byte> := [0, 0, 0, 1, 0x65, 0, 0, 1, 9];
    assert START_CODE + nal == d;
    assert nal[1] == 0 && nal[2] == 0 && nal[3] == 1;
    assert CodeAt(d, 0) == 4 && CodeAt(d, 4) == 0 && CodeAt(d, 5) == 3;
    assert FindCode(d, 4) == (5, 3) && FindCode(d, 5) == (5, 3) && FindCode(d, 8) == (9, 0);
    assert NextNal(d, 0) == Some((4, 5)) && NextNal(d, 5) == Some((8, 9));
    assert d[4..5] == [0x65] && d[8..9] == [9];
    ScanStep(d, 5, 8, 9);
    ScanStep(d, 0, 4, 5);
    assert [d[8..9]] + [] == [[9]] && [d[4..5]] + [[9]] == [[0x65], [9]];
  }

  /** The same start code is overlooked in the last three bytes of the stream. */
  lemma OverlookedExample()
    ensures Clean([0x65, 0, 0, 1], End) && !Clean([0x65, 0, 0, 1], Long)
    ensures Scan(AnnexB([[0x65, 0, 0, 1]]), 0) == ([[0x65, 0, 0, 1]], true)
  {
    var nal: Nal := [0x65, 0, 0, 1];
    AnnexBSingle(nal);
    var d: seq<byte> := [0, 0, 0, 1, 0x65, 0, 0, 1];
    assert START_CODE + nal == d;
    assert nal[1] == 0 && nal[2] == 0 && nal[3] == 1;
    assert CodeAt(d, 0) == 4 && CodeAt(d, 4) == 0;
    assert FindCode(d, 4) == (8, 0);
    assert NextNal(d, 0) == Some((4, 8));
    assert d[4..8] == nal;
    ScanStep(d, 0, 4, 8);
    assert [d[4..8]] + [] == [nal];
  }
}
