/**
 * Chunked transfer coding (section 7.1 of RFC 9112) as streamer/http_flv_streamer.c writes
 * it, and a reader for it.
 */
module ChunkedBody {
  import opened Bytes

  const CRLF: seq<byte> := [13, 10]
  const TERMINATOR: seq<byte> := [48, 13, 10, 13, 10]

  /** HTTP_FLV_SEND_SLICE_BYTES. */
  const SLICE := 65536

  function Digit(v: nat): byte
    requires v < 16
  {
    if v < 10 then 48 + v else 87 + v
  }

  predicate IsHex(b: byte) { 48 <= b <= 57 || 97 <= b <= 102 || 65 <= b <= 70 }

  function DigitValue(b: byte): (v: nat)
    requires IsHex(b)
    ensures v < 16
  {
    if b <= 57 then b - 48 else if b >= 97 then b - 87 else b - 55
  }

  /** The "%zx" rendering of a size. */
  function Hex(n: nat): (r: seq<byte>)
    ensures r != [] && AllHex(r)
  {
    if n < 16 then [Digit(n)] else Hex(n / 16) + [Digit(n % 16)]
  }

  predicate AllHex(s: seq<byte>) { forall i :: 0 <= i < |s| ==> IsHex(s[i]) }

  function HexValue(s: seq<byte>): (v: nat)
    requires AllHex(s)
  {
    if s == [] then 0 else HexValue(s[..|s| - 1]) * 16 + DigitValue(s[|s| - 1])
  }

  lemma {:induction false} HexReadsBack(n: nat)
    ensures HexValue(Hex(n)) == n
  {
    if n < 16 {
      assert HexValue([Digit(n)][..0]) == 0;
    } else {
      HexReadsBack(n / 16);
      assert Hex(n)[..|Hex(n)| - 1] == Hex(n / 16);
    }
  }

  /** A positive size never starts with the digit zero. */
  lemma {:induction false} HexLeadingDigit(n: nat)
    requires n > 0
    ensures Hex(n)[0] != 48
  {
    if n >= 16 { HexLeadingDigit(n / 16); }
  }

  /** How many hexadecimal digits `b` starts with. */
  function LeadingHex(b: seq<byte>): (k: nat)
    ensures k <= |b| && (forall i :: 0 <= i < k ==> IsHex(b[i])) && (k < |b| ==> !IsHex(b[k]))
  {
    if b == [] || !IsHex(b[0]) then 0 else 1 + LeadingHex(b[1..])
  }

  lemma LeadingHexExact(b: seq<byte>, k: nat)
    requires k <= |b| && (forall i :: 0 <= i < k ==> IsHex(b[i])) && (k < |b| ==> !IsHex(b[k]))
    ensures LeadingHex(b) == k
  {
    var j := LeadingHex(b);
  }

  /** What http_flv_send_chunk puts on the wire. */
  function Chunk(data: seq<byte>): (r: seq<byte>) { Hex(|data|) + CRLF + data + CRLF }

  function Body(chunks: seq<seq<byte>>): (r: seq<byte>) {
    if chunks == [] then [] else Chunk(chunks[0]) + Body(chunks[1..])
  }

  lemma {:induction false} BodySnoc(chunks: seq<seq<byte>>, c: seq<byte>)
    ensures Body(chunks + [c]) == Body(chunks) + Chunk(c)
  {
    if chunks == [] {
      assert (chunks + [c])[1..] == [];
    } else {
      assert (chunks + [c])[1..] == chunks[1..] + [c];
      BodySnoc(chunks[1..], c);
    }
  }

  predicate NonEmptyChunks(chunks: seq<seq<byte>>) { forall i :: 0 <= i < |chunks| ==> chunks[i] != [] }

  /** The size line at the front of `b`: its value and its length, line end included. */
  function SizeLine(b: seq<byte>): (r: Option<(nat, nat)>)
    ensures r.Some? ==> 3 <= r.value.1 <= |b|
  {
    var k := LeadingHex(b);
    if k == 0 || |b| < k + 2 || b[k..k + 2] != CRLF then None else Some((HexValue(b[..k]), k + 2))
  }

  /** The whole body, terminator included and nothing behind it. */
  function Decode(b: seq<byte>): (r: Option<seq<byte>>)
    decreases |b|
  {
    match SizeLine(b)
    case None => None
    case Some((n, h)) =>
      if n == 0 then if b[h..] == CRLF then Some([]) else None
      else if |b| < h + n + 2 || b[h + n..h + n + 2] != CRLF then None
      else
        match Decode(b[h + n + 2..])
        case None => None
        case Some(rest) => Some(b[h..h + n] + rest)
  }

  /** The data a reader can make out in a body that may break off anywhere. */
  function Readable(b: seq<byte>): (r: seq<byte>)
    decreases |b|
  {
    match SizeLine(b)
    case None => []
    case Some((n, h)) =>
      if n == 0 then []
      else if |b| < h + n then b[h..]
      else if |b| < h + n + 2 || b[h + n..h + n + 2] != CRLF then b[h..h + n]
      else b[h..h + n] + Readable(b[h + n + 2..])
  }

  lemma SizeLineOf(data: seq<byte>, rest: seq<byte>)
    ensures SizeLine(Hex(|data|) + CRLF + rest) == Some((|data|, |Hex(|data|)| + 2))
  {
    var h := Hex(|data|);
    var b := h + CRLF + rest;
    assert b[..|h|] == h && b[|h|..|h| + 2] == CRLF;
    assert !IsHex(b[|h|]);
    LeadingHexExact(b, |h|);
    HexReadsBack(|data|);
  }

  /** `b` is a size line of `h` bytes, `c`, a line end and `tail`. */
  predicate Parts(b: seq<byte>, h: nat, c: seq<byte>, tail: seq<byte>) {
    && |b| == h + |c| + 2 + |tail| && b[h..h + |c|] == c
    && b[h + |c|..h + |c| + 2] == CRLF && b[h + |c| + 2..] == tail
  }

  lemma ReadableParts(b: seq<byte>, h: nat, c: seq<byte>, tail: seq<byte>)
    requires c != [] && Parts(b, h, c, tail) && SizeLine(b) == Some((|c|, h))
    ensures Readable(b) == c + Readable(tail)
  {
    hide SizeLine;
  }

  lemma DecodeParts(b: seq<byte>, h: nat, c: seq<byte>, tail: seq<byte>)
    requires c != [] && Parts(b, h, c, tail) && SizeLine(b) == Some((|c|, h))
    ensures Decode(b) == if Decode(tail).None? then None else Some(c + Decode(tail).value)
  {
    hide SizeLine;
  }

  lemma ChunkHasParts(c: seq<byte>, tail: seq<byte>)
    ensures var h := |Hex(|c|)| + 2;
            Parts(Chunk(c) + tail, h, c, tail) && SizeLine(Chunk(c) + tail) == Some((|c|, h))
  {
    hide SizeLine, Hex;
    var b, line := Chunk(c) + tail, Hex(|c|) + CRLF;
    SizeLineOf(c, c + CRLF + tail);
    assert b == line + (c + CRLF + tail);
    Slices(line, c, CRLF, tail);
    assert b == line + c + CRLF + tail;
  }

  /** A whole chunk is read off, whatever follows it. */
  lemma ChunkReads(c: seq<byte>, tail: seq<byte>)
    requires c != []
    ensures Readable(Chunk(c) + tail) == c + Readable(tail)
    ensures Decode(Chunk(c) + tail) == if Decode(tail).None? then None else Some(c + Decode(tail).value)
  {
    hide SizeLine, Hex, Readable, Decode, Chunk, Parts;
    ChunkHasParts(c, tail);
    ReadableParts(Chunk(c) + tail, |Hex(|c|)| + 2, c, tail);
    DecodeParts(Chunk(c) + tail, |Hex(|c|)| + 2, c, tail);
  }

  lemma Slices(a: seq<byte>, b: seq<byte>, c: seq<byte>, d: seq<byte>)
    ensures var s := a + b + c + d;
            && s[|a|..|a| + |b|] == b
            && s[|a| + |b|..|a| + |b| + |c|] == c
            && s[|a| + |b| + |c|..] == d
  {
  }

  /** Reading the finished body gives the concatenation of the chunks. */
  lemma {:induction false} DecodeBody(chunks: seq<seq<byte>>)
    requires NonEmptyChunks(chunks)
    ensures Decode(Body(chunks) + TERMINATOR) == Some(Concat(chunks))
    decreases |chunks|
  {
    if chunks == [] {
      assert Body(chunks) + TERMINATOR == TERMINATOR;
      assert TERMINATOR == Hex(0) + CRLF + CRLF;
      SizeLineOf([], CRLF);
    } else {
      hide Chunk, Decode;
      var tail := Body(chunks[1..]) + TERMINATOR;
      assert Body(chunks) + TERMINATOR == Chunk(chunks[0]) + tail;
      ChunkReads(chunks[0], tail);
      DecodeBody(chunks[1..]);
    }
  }

  /** A broken-off chunk, cut anywhere, shows a prefix of its data. */
  lemma CutChunk(c: seq<byte>, w: seq<byte>)
    requires c != [] && w <= Hex(|c|) + CRLF + (c + CRLF) && |w| < |Chunk(c)|
    ensures Readable(w) <= c
  {
    hide Hex;
    var line := Hex(|c|) + CRLF;
    var h := |line|;
    if |w| < h {
      CutSizeLine(|c|, w);
    } else {
      assert w == line + w[h..];
      SizeLineOf(c, w[h..]);
      hide SizeLine;
      assert w[h..] == (c + CRLF)[..|w| - h];
      if |w| < h + |c| {
        assert w[h..] == c[..|w| - h];
      } else {
        assert w[h..h + |c|] == c;
      }
    }
  }

  lemma CutSizeLine(n: nat, w: seq<byte>)
    requires w <= Hex(n) + CRLF && |w| < |Hex(n)| + 2
    ensures SizeLine(w).None?
  {
    var hex := Hex(n);
    hide Hex;
    var k := if |w| < |hex| then |w| else |hex|;
    assert forall i :: 0 <= i < |w| ==> w[i] == (hex + CRLF)[i];
    assert forall i :: 0 <= i < k ==> w[i] == hex[i];
    LeadingHexExact(w, k);
  }

  lemma ChunkParts(c: seq<byte>)
    ensures Chunk(c) == Hex(|c|) + CRLF + (c + CRLF)
  {
  }

  lemma PrefixOfSum(a: seq<byte>, b: seq<byte>, w: seq<byte>)
    requires w <= a + b
    ensures if |w| < |a| then w <= a else w == a + w[|a|..] && w[|a|..] <= b
  {
    assert w == (a + b)[..|w|];
    if |w| < |a| {
      assert w == a[..|w|];
    } else {
      assert w[..|a|] == a;
      assert w[|a|..] == b[..|w| - |a|];
    }
  }

  /** Whatever prefix of the body reached the wire, its data is a prefix of what was queued. */
  lemma {:induction false} ReadablePrefix(chunks: seq<seq<byte>>, w: seq<byte>)
    requires NonEmptyChunks(chunks) && w <= Body(chunks) + TERMINATOR
    ensures Readable(w) <= Concat(chunks)
    decreases |chunks|
  {
    hide Chunk, Readable;
    if chunks == [] {
      assert Body(chunks) + TERMINATOR == TERMINATOR;
      TerminatorReadsNothing(w);
    } else {
      var c, n := chunks[0], |Chunk(chunks[0])|;
      var tail := Body(chunks[1..]) + TERMINATOR;
      var all := Chunk(c) + tail;
      assert Body(chunks) + TERMINATOR == all;
      PrefixOfSum(Chunk(c), tail, w);
      if |w| < n {
        ChunkParts(c);
        CutChunk(c, w);
      } else {
        ChunkReads(c, w[n..]);
        ReadablePrefix(chunks[1..], w[n..]);
      }
    }
  }

  lemma TerminatorReadsNothing(w: seq<byte>)
    requires w <= TERMINATOR
    ensures Readable(w) == []
  {
    var k := if |w| < 1 then |w| else 1;
    LeadingHexExact(w, k);
    if k == 1 {
      assert w[..1] == [48];
      assert HexValue([48][..0]) == 0;
    }
  }

  /** A data chunk is never mistaken for the terminator. */
  lemma ChunkIsNotTerminator(c: seq<byte>)
    requires c != []
    ensures Chunk(c)[0] != TERMINATOR[0]
  {
    HexLeadingDigit(|c|);
  }

  // ---- Sending -----------------------------------------------------------------------------

  /** A transport: it takes all bytes of a call, or reports less and may have taken some. */
  class Transport {
    ghost var wire: seq<byte>

    constructor ()
      ensures wire == []
    {
      wire := [];
    }

    method Send(part: seq<byte>) returns (n: int)
      modifies this
      ensures n == |part| ==> wire == old(wire) + part
      ensures old(wire) <= wire <= old(wire) + part
    {
      n := *;
      ghost var taken :| 0 <= taken <= |part| && (n == |part| ==> taken == |part|);
      wire := wire + part[..taken];
    }
  }

  lemma NextPart(wire: seq<byte>, data: seq<byte>, at: nat, part: nat, wire': seq<byte>)
    requires at + part <= |data| && wire + data[..at] <= wire' <= wire + data[..at] + data[at..at + part]
    ensures wire + data[..at] + data[at..at + part] == wire + data[..at + part]
    ensures wire <= wire' <= wire + data
  {
    assert data[..at] + data[at..at + part] == data[..at + part];
    assert wire + data == wire + data[..at + part] + data[at + part..];
  }

  /** http_flv_send_all: slices of at most 64 KiB. */
  method SendAll(t: Transport, data: seq<byte>) returns (ok: bool)
    modifies t
    ensures ok ==> t.wire == old(t.wire) + data
    ensures old(t.wire) <= t.wire <= old(t.wire) + data
  {
    var at := 0;
    while at < |data|
      invariant 0 <= at <= |data|
      invariant t.wire == old(t.wire) + data[..at]
    {
      var part := if |data| - at < SLICE then |data| - at else SLICE;
      var n := t.Send(data[at..at + part]);
      NextPart(old(t.wire), data, at, part, t.wire);
      if n != part { return false; }
      at := at + part;
    }
    return true;
  }

  /** http_flv_send_chunk. */
  method SendChunk(t: Transport, data: seq<byte>) returns (ok: bool)
    modifies t
    ensures ok ==> t.wire == old(t.wire) + Chunk(data)
    ensures old(t.wire) <= t.wire <= old(t.wire) + Chunk(data)
  {
    ghost var before := t.wire;
    ok := SendAll(t, Hex(|data|) + CRLF);
    if !ok { return; }
    ok := SendAll(t, data);
    if !ok { return; }
    ok := SendAll(t, CRLF);
    assert before + (Hex(|data|) + CRLF) + data + CRLF == before + Chunk(data);
  }
}
