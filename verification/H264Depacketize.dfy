/** h264_depacketize of codec/h264_codec.c: the stateful reassembler. */
module H264Depacketize {
  import opened Bytes
  import opened H264AnnexB

  datatype Status = Ok | Invalid | Buffer

  /** reassembly_buf[..reassembly_len] and reassembly_started. */
  datatype Reassembly = Reassembly(held: seq<byte>, started: bool)

  /** Result of a call: the new state, the bytes handed out and the completion flag. */
  datatype Step = Step(next: Reassembly, status: Status, output: seq<byte>, complete: bool)

  function Fail(s: Reassembly, status: Status): Step { Step(s, status, [], false) }

  /** What the reassembler already holds for the frame in progress. */
  function Pending(s: Reassembly): seq<byte> { if s.started then s.held else [] }

  function FuStep(cap: nat, s: Reassembly, p: seq<byte>, room: nat): Step
    requires p != []
  {
    if |p| < 2 then Fail(s, Invalid)
    else
      var start, end, body := p[1] / 128 % 2 == 1, p[1] / 64 % 2 == 1, p[2..];
      if start && cap < |Pending(s)| + |body| + 5 then Fail(s, Buffer)
      else if !start && !s.started then Fail(s, Invalid)
      else
        var base :=
          if start then Pending(s) + START_CODE + [p[0] / 32 * 32 + p[1] % 32] else s.held;
        if |base| + |body| > cap then Fail(Reassembly(base, true), Buffer)
        else
          var held := base + body;
          if room < |held| then Fail(Reassembly(held, true), Buffer)
          else Step(Reassembly(held, !end), Ok, held, end)
  }

  datatype Stap = StapError(status: Status) | Stap(output: seq<byte>, hasVcl: bool)

  /** The STAP-A loop from `pos`, with what it has written and seen so far. */
  function StapFrom(p: seq<byte>, pos: nat, output: seq<byte>, hasVcl: bool, room: nat): (r: Stap)
    decreases |p| - pos
  {
    if pos + 2 > |p| then Stap(output, hasVcl)
    else
      var len: nat := (p[pos] as int) * 256 + p[pos + 1] as int;
      var at := pos + 2;
      if len == 0 || at + len > |p| then StapError(Invalid)
      else if |output| + len + 4 > room then StapError(Buffer)
      else
        var t := p[at] % 32;
        StapFrom(p, at + len, output + START_CODE + p[at..at + len], hasVcl || t == 1 || t == 5, room)
  }

  function StapStep(cap: nat, s: Reassembly, p: seq<byte>, room: nat): Step {
    match StapFrom(p, 1, [], false, room)
    case StapError(status) => Fail(s, status)
    case Stap(output, hasVcl) =>
      if hasVcl then Step(s, Ok, output, true)
      else if |output| > cap then Fail(s, Buffer)
      else Step(Reassembly(output, true), Ok, output, false)
  }

  /** A single unit goes behind reassembly_len bytes, whether or not they belong to this frame. */
  function SingleStep(s: Reassembly, p: seq<byte>, prior: seq<byte>): Step {
    if |prior| < |p| + 4 + |s.held| then Fail(s, Buffer)
    else Step(Reassembly([], false), Ok,
              (if s.started then s.held else prior[..|s.held|]) + START_CODE + p, true)
  }

  /** One call; `prior` is the caller's output buffer as it stands, as long as *output_len says. */
  function Depacketize(cap: nat, s: Reassembly, p: seq<byte>, prior: seq<byte>): (r: Step) {
    if p == [] then Fail(s, Invalid)
    else if p[0] % 32 == 28 then FuStep(cap, s, p, |prior|)
    else if p[0] % 32 == 24 then StapStep(cap, s, p, |prior|)
    else if p[0] % 32 >= 24 then Fail(s, Invalid)
    else SingleStep(s, p, prior)
  }

  class Depacketizer {
    const buf: array<byte>
    var len: nat
    var started: bool

    ghost predicate Valid()
      reads this
    {
      len <= buf.Length
    }

    ghost function State(): Reassembly
      requires Valid()
      reads this, buf
    {
      Reassembly(buf[..len], started)
    }

    constructor (cap: nat)
      ensures Valid() && State() == Reassembly([], false) && buf.Length == cap && fresh(buf)
    {
      buf := new byte[cap];
      len, started := 0, false;
    }

    /** A start fragment: what is pending, a start code and the unit's own header. */
    method FuOpen(p: seq<byte>) returns (ok: bool)
      requires Valid() && |p| >= 2
      modifies this, buf
      ensures Valid() && ok == (buf.Length >= |Pending(old(State()))| + |p| - 2 + 5)
      ensures State() == if ok then Reassembly(Pending(old(State())) + START_CODE + [p[0] / 32 * 32 + p[1] % 32], true)
                         else old(State())
    {
      var prefixLen := if started && len > 0 then len else 0;
      if buf.Length < prefixLen + (|p| - 2) + 5 { return false; }
      len := prefixLen;
      CopyTo(buf, len, START_CODE + [p[0] / 32 * 32 + p[1] % 32]);
      len := len + 5;
      started := true;
      ok := true;
    }

    method FuCall(p: seq<byte>, output: array<byte>)
      returns (status: Status, outputLen: nat, complete: bool)
      requires Valid() && output != buf && p != []
      modifies this, buf, output
      ensures Valid()
      ensures var r := FuStep(buf.Length, old(State()), p, output.Length);
              && State() == r.next && status == r.status
              && (status == Ok ==> outputLen <= output.Length && output[..outputLen] == r.output && complete == r.complete)
    {
      hide Pending;
      outputLen, complete := 0, false;
      if |p| < 2 { return Invalid, 0, false; }
      var start, end, body := p[1] / 128 % 2 == 1, p[1] / 64 % 2 == 1, p[2..];
      if start {
        var fits := FuOpen(p);
        if !fits { return Buffer, 0, false; }
      } else if !started {
        return Invalid, 0, false;
      }
      if len + |body| > buf.Length { return Buffer, 0, false; }
      CopyTo(buf, len, body);
      len := len + |body|;
      if output.Length < len { return Buffer, 0, false; }
      CopyTo(output, 0, buf[..len]);
      outputLen, complete := len, end;
      if end { started := false; }
      status := Ok;
    }

    method StapCall(p: seq<byte>, output: array<byte>)
      returns (status: Status, outputLen: nat, complete: bool)
      requires Valid() && output != buf
      modifies this, buf, output
      ensures Valid()
      ensures var r := StapStep(buf.Length, old(State()), p, output.Length);
              && State() == r.next && status == r.status
              && (status == Ok ==> outputLen <= output.Length && output[..outputLen] == r.output && complete == r.complete)
    {
      var pos, total, hasVcl := 1, 0, false;
      outputLen, complete := 0, false;
      while pos + 2 <= |p|
        invariant 0 <= pos && 0 <= total <= output.Length
        invariant StapFrom(p, pos, output[..total], hasVcl, output.Length) == StapFrom(p, 1, [], false, output.Length)
        invariant buf[..] == old(buf[..]) && len == old(len) && started == old(started)
        decreases |p| - pos
      {
        ghost var before := output[..total];
        var nalLen: nat := (p[pos] as int) * 256 + p[pos + 1] as int;
        var at := pos + 2;
        if nalLen == 0 || at + nalLen > |p| {
          assert StapFrom(p, pos, before, hasVcl, output.Length) == StapError(Invalid);
          return Invalid, 0, false;
        }
        var t := p[at] % 32;
        if total + nalLen + 4 > output.Length {
          assert StapFrom(p, pos, before, hasVcl, output.Length) == StapError(Buffer);
          return Buffer, 0, false;
        }
        if t == 1 || t == 5 { hasVcl := true; }
        CopyTo(output, total, START_CODE);
        total := total + 4;
        CopyTo(output, total, p[at..at + nalLen]);
        total := total + nalLen;
        assert output[..total] == before + START_CODE + p[at..at + nalLen];
        pos := at + nalLen;
      }
      outputLen, complete := total, hasVcl;
      if !hasVcl {
        if total > buf.Length { return Buffer, 0, false; }
        CopyTo(buf, 0, output[..total]);
        len, started := total, true;
      }
      status := Ok;
    }

    /** h264_depacketize; output.Length is the capacity passed in *output_len. */
    method Feed(p: seq<byte>, output: array<byte>)
      returns (status: Status, outputLen: nat, complete: bool)
      requires Valid() && output != buf
      modifies this, buf, output
      ensures Valid()
      ensures var r := Depacketize(buf.Length, old(State()), p, old(output[..]));
              && State() == r.next && status == r.status
              && (status == Ok ==> outputLen <= output.Length && output[..outputLen] == r.output && complete == r.complete)
    {
      if p == [] { return Invalid, 0, false; }
      var t := p[0] % 32;
      if t == 28 {
        status, outputLen, complete := FuCall(p, output);
        return;
      }
      if t == 24 {
        status, outputLen, complete := StapCall(p, output);
        return;
      }
      if t >= 24 { return Invalid, 0, false; }
      if output.Length < |p| + 4 + len { return Buffer, 0, false; }
      if started && len > 0 { CopyTo(output, 0, buf[..len]); }
      ghost var head := output[..len];
      CopyTo(output, len, START_CODE);
      CopyTo(output, len + 4, p);
      assert output[..len + 4 + |p|] == head + START_CODE + p;
      outputLen, complete := len + |p| + 4, true;
      started, len := false, 0;
      status := Ok;
    }
  }
}
