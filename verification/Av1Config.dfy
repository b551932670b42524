/**
 * The AV1 pieces of common/codec_helpers/aom-av1.c: leb128 (section 4.10.5 of the AV1
 * specification), the OBU splitter (section 5.3) and the configuration-record builder.
 */
module Av1Config {
  import opened Bytes

  const RECORD_BYTES: nat := 2048
  const SEQUENCE_HEADER := 1
  const METADATA := 5
  const TWO64: nat := UINT64_MAX + 1

  // ---- leb128 ------------------------------------------------------------------------------

  /** Value and length of the number at `pos`, looking at no more than `left` bytes. */
  function Leb(d: seq<byte>, pos: nat, left: nat): (r: (nat, nat))
    requires pos + left <= |d|
    ensures r.1 <= left
    decreases left
  {
    if left == 0 then (0, 0)
    else if d[pos] < 128 then (d[pos], 1)
    else
      var (v, n) := Leb(d, pos + 1, left - 1);
      (d[pos] - 128 + 128 * v, n + 1)
  }

  /** At most ten bytes are read and the value is kept in 64 bits; a negative `avail` reads nothing. */
  function ReadLeb(d: seq<byte>, pos: nat, avail: int): (r: (nat, nat))
    requires avail > 0 ==> pos + avail <= |d|
    ensures avail > 0 ==> r.1 <= avail
    ensures avail <= 0 ==> r == (0, 0)
  {
    if avail <= 0 then (0, 0)
    else
      var (v, n) := Leb(d, pos, if avail < 10 then avail else 10);
      (v % TWO64, n)
  }

  /** `v` shifted left by the groups read so far. */
  function Weighted(weight: nat, v: nat): nat { weight * v }

  /** Reduction to 64 bits. */
  function Cut(v: nat): nat { v % TWO64 }

  /** The leb128 function, as a loop that ors shifted groups of seven bits together. */
  method ScanLeb(d: seq<byte>, pos: nat, avail: int) returns (v: nat, n: nat)
    requires pos <= |d| && (avail > 0 ==> pos + avail <= |d|)
    ensures (v, n) == ReadLeb(d, pos, avail)
  {
    hide ReadLeb, Weighted, Cut, Leb;
    ghost var left := if avail <= 0 then 0 else if avail < 10 then avail else 10;
    ghost var exact: nat := 0;
    var weight: nat, more := 1, true;
    v, n := 0, 0;
    LebStarts(d, pos, avail, left);
    while n * 7 < 64 && n < avail && more
      invariant 0 <= n <= left && v == Cut(exact)
      invariant Leb(d, pos, left) ==
                if more then (exact + Weighted(weight, Leb(d, pos + n, left - n).0), n + Leb(d, pos + n, left - n).1)
                else (exact, n)
    {
      var b := d[pos + n];
      LebUnfold(d, pos + n, left - n);
      ghost var rest := if b < 128 then 0 else Leb(d, pos + n + 1, left - n - 1).0;
      var group := if b < 128 then b else b - 128;
      Horner(weight, group, rest);
      CutAdd(exact, Weighted(weight, group));
      more := b >= 128;
      v := Cut(v + Weighted(weight, group));
      exact := exact + Weighted(weight, group);
      weight := weight * 128;
      n := n + 1;
    }
    Horner(weight, 0, 0);
    if more { LebUnfold(d, pos + n, 0); }
  }

  lemma LebUnfold(d: seq<byte>, pos: nat, left: nat)
    requires pos + left <= |d|
    ensures left == 0 ==> Leb(d, pos, left) == (0, 0)
    ensures left > 0 && d[pos] < 128 ==> Leb(d, pos, left) == (d[pos], 1)
    ensures left > 0 && d[pos] >= 128 ==>
              Leb(d, pos, left) == (d[pos] - 128 + 128 * Leb(d, pos + 1, left - 1).0, Leb(d, pos + 1, left - 1).1 + 1)
  {
  }

  lemma LebStarts(d: seq<byte>, pos: nat, avail: int, left: nat)
    requires pos <= |d| && (avail > 0 ==> pos + avail <= |d|)
    requires left == if avail <= 0 then 0 else if avail < 10 then avail else 10
    ensures ReadLeb(d, pos, avail) == (Cut(Leb(d, pos, left).0), Leb(d, pos, left).1)
    ensures Weighted(1, Leb(d, pos, left).0) == Leb(d, pos, left).0 && Cut(0) == 0
  {
  }

  lemma Horner(w: nat, b: nat, v: nat)
    ensures Weighted(w, b + 128 * v) == Weighted(w, b) + Weighted(w * 128, v)
    ensures Weighted(w, 0) == 0
  {
  }

  lemma CutAdd(a: nat, b: nat)
    ensures Cut(Cut(a) + b) == Cut(a + b)
  {
    var q := a / TWO64;
    assert a + b == (a % TWO64 + b) + TWO64 * q;
    assert (a % TWO64 + b + TWO64 * q) % TWO64 == (a % TWO64 + b) % TWO64;
  }

  /** The encoding loop of aom_av1_extra_handler. */
  function WriteLeb(n: nat): (r: seq<byte>) {
    if n < 128 then [n] else [n % 128 + 128] + WriteLeb(n / 128)
  }

  lemma WriteLebUnfold(n: nat)
    ensures WriteLeb(n) == if n < 128 then [n] else [n % 128 + 128] + WriteLeb(n / 128)
    ensures WriteLeb(n) != []
  {
  }

  lemma {:induction false} LebReadsBack(d: seq<byte>, pos: nat, left: nat, n: nat)
    requires pos + left <= |d| && |WriteLeb(n)| <= left && d[pos..pos + |WriteLeb(n)|] == WriteLeb(n)
    ensures Leb(d, pos, left) == (n, |WriteLeb(n)|)
    decreases n
  {
    assert d[pos] == d[pos..pos + |WriteLeb(n)|][0];
    if n >= 128 {
      var rest := WriteLeb(n / 128);
      assert d[pos + 1..pos + 1 + |rest|] == d[pos..pos + |WriteLeb(n)|][1..];
      LebReadsBack(d, pos + 1, left - 1, n / 128);
    }
  }

  lemma SmallLeb(n: nat)
    requires n < RECORD_BYTES
    ensures |WriteLeb(n)| <= 2
  {
    if n >= 128 {
      assert n / 128 < 128;
      assert WriteLeb(n / 128) == [n / 128];
    }
  }

  // ---- OBUs --------------------------------------------------------------------------------

  datatype Obu = Obu(header: byte, extension: Option<byte>, payload: seq<byte>)

  function TypeOf(header: byte): nat { header / 8 % 16 }
  predicate HasExtension(header: byte) { header / 4 % 2 == 1 }
  predicate HasSize(header: byte) { header / 2 % 2 == 1 }
  function WithSize(header: byte): (r: byte)
    ensures HasSize(r) && TypeOf(r) == TypeOf(header) && HasExtension(r) == HasExtension(header)
  {
    if HasSize(header) then header
    else
      assert header % 4 < 2 && header == 4 * (header / 4) + header % 4;
      assert (header + 2) / 4 == header / 4 && (header + 2) / 8 == header / 8 && (header + 2) / 2 == header / 2 + 1;
      header + 2
  }

  /** Where the size field or the payload starts. */
  function Offset(header: byte): nat { if HasExtension(header) then 2 else 1 }

  /** Length of the OBU at `pos`, or None when it does not fit. */
  function ObuLength(d: seq<byte>, pos: nat): (r: Option<nat>)
    requires pos < |d|
    ensures r.Some? ==> 0 < r.value && pos + r.value <= |d|
  {
    var at := pos + Offset(d[pos]);
    if HasSize(d[pos]) then
      var (len, n) := ReadLeb(d, at, |d| - at);
      if at + n + len > |d| then None else Some(at + n + len - pos)
    else Some(|d| - pos)
  }

  /** What the handler makes of the bytes of one OBU. */
  function Parse(obu: seq<byte>): (r: Option<Obu>) {
    if |obu| < 2 then None
    else
      var h := obu[0];
      var at := Offset(h);
      var extension := if HasExtension(h) then Some(obu[1]) else None;
      if HasSize(h) then
        var (len, n) := ReadLeb(obu, at, |obu| - at);
        if at + n + len > |obu| then None else Some(Obu(h, extension, obu[at + n..at + n + len]))
      else Some(Obu(h, extension, obu[at..]))
  }

  /** All OBUs of a stream. */
  function Obus(d: seq<byte>, pos: nat): (r: Option<seq<Obu>>)
    decreases |d| - pos
  {
    if pos >= |d| then Some([])
    else match ObuLength(d, pos)
      case None => None
      case Some(n) =>
        match (Parse(d[pos..pos + n]), Obus(d, pos + n))
        case (Some(o), Some(rest)) => Some([o] + rest)
        case _ => None
  }

  predicate IsKept(o: Obu) { TypeOf(o.header) == SEQUENCE_HEADER || TypeOf(o.header) == METADATA }

  /** The OBUs that belong into the record, each marked as carrying its size. */
  function Kept(obus: seq<Obu>): (r: seq<Obu>) {
    if obus == [] then []
    else (if IsKept(obus[0]) then [obus[0].(header := WithSize(obus[0].header))] else []) + Kept(obus[1..])
  }

  /** The header, with the size bit set, and its extension. */
  function Head(o: Obu): (r: seq<byte>) {
    [WithSize(o.header)] + if o.extension.Some? then [o.extension.value] else []
  }

  /** An OBU as the record stores it. */
  function Stored(o: Obu): (r: seq<byte>) {
    Head(o) + WriteLeb(|o.payload|) + o.payload
  }

  predicate WellFormed(o: Obu) { o.extension.Some? == HasExtension(o.header) }

  /** aom_av1_extra_handler on the stored bytes; `parses` is the sequence-header parser. */
  function Handle(stored: seq<byte>, obu: seq<byte>, parses: seq<byte> -> bool): (r: (seq<byte>, int)) {
    match Parse(obu)
    case None => (stored, -1)
    case Some(o) =>
      if !IsKept(o) then (stored, 0)
      else if |stored| + |obu| + 8 >= RECORD_BYTES then (stored, -1)
      else (stored + Stored(o), if TypeOf(o.header) == SEQUENCE_HEADER && !parses(o.payload) then -1 else 0)
  }

  /** aom_av1_obu_split with that handler, from `pos` on. */
  function Build(d: seq<byte>, pos: nat, stored: seq<byte>, parses: seq<byte> -> bool): (r: (seq<byte>, int))
    decreases |d| - pos
  {
    if pos >= |d| then (stored, 0)
    else match ObuLength(d, pos)
      case None => (stored, -1)
      case Some(n) =>
        var (stored', r) := Handle(stored, d[pos..pos + n], parses);
        if r != 0 then (stored', r) else Build(d, pos + n, stored', parses)
  }

  // ---- The record is a stream of its own ---------------------------------------------------

  lemma ParseWellFormed(obu: seq<byte>)
    ensures Parse(obu).Some? ==> WellFormed(Parse(obu).value) && |Parse(obu).value.payload| < |obu|
  {
  }

  /** The size of a stored OBU is read back, wherever it stands. */
  lemma StoredSize(o: Obu, front: seq<byte>, rest: seq<byte>)
    requires WellFormed(o) && |o.payload| < RECORD_BYTES
    ensures var s := Stored(o);
            var d, at := front + s + rest, |front| + Offset(WithSize(o.header));
            && d[|front|] == WithSize(o.header) && at < |front| + |s|
            && ReadLeb(d, at, |d| - at) == (|o.payload|, |WriteLeb(|o.payload|)|)
            && at + |WriteLeb(|o.payload|)| + |o.payload| == |front| + |s|
  {
    hide WriteLeb, ReadLeb;
    var n, front' := |o.payload|, front + Head(o);
    LebInside(front', n, o.payload + rest);
    assert front + Stored(o) + rest == front' + WriteLeb(n) + (o.payload + rest);
    assert (front + Stored(o) + rest)[|front|] == Head(o)[0];
  }

  /** A size in front of anything that leaves the record's bound is read back. */
  lemma LebInside(a: seq<byte>, n: nat, c: seq<byte>)
    requires n < RECORD_BYTES
    ensures var d := a + WriteLeb(n) + c;
            WriteLeb(n) != [] && ReadLeb(d, |a|, |d| - |a|) == (n, |WriteLeb(n)|)
  {
    hide WriteLeb, Leb;
    var d := a + WriteLeb(n) + c;
    var avail := |d| - |a|;
    SmallLeb(n);
    WriteLebUnfold(n);
    SliceInside(a, WriteLeb(n), c);
    LebReadsBack(d, |a|, if avail < 10 then avail else 10, n);
  }

  lemma SliceInside(a: seq<byte>, b: seq<byte>, c: seq<byte>)
    ensures (a + b + c)[|a|..|a| + |b|] == b
  {
  }

  lemma StoredParses(o: Obu)
    requires WellFormed(o) && |o.payload| < RECORD_BYTES
    ensures Parse(Stored(o)) == Some(o.(header := WithSize(o.header)))
  {
    var s := Stored(o);
    StoredSize(o, [], []);
    assert [] + s + [] == s;
    var n := |s| - |o.payload|;
    assert s[n..] == o.payload;
    assert |s| >= 2 && s[0] == WithSize(o.header);
    if o.extension.Some? { assert s[1] == o.extension.value; }
    hide WriteLeb, ReadLeb, Stored;
    var at, h := Offset(s[0]), s[0];
    assert HasSize(h) && HasExtension(h) == o.extension.Some?;
    var (len, m) := ReadLeb(s, at, |s| - at);
    assert at + m == n && len == |o.payload| && s[n..n + len] == o.payload;
  }

  /** A stored OBU in front of anything is split off and read back. */
  lemma StoredSplitsOff(o: Obu, rest: seq<byte>)
    requires WellFormed(o) && |o.payload| < RECORD_BYTES
    ensures ObuLength(Stored(o) + rest, 0) == Some(|Stored(o)|)
  {
    hide Stored, ReadLeb, WriteLeb, WithSize;
    StoredSize(o, [], rest);
    assert [] + Stored(o) + rest == Stored(o) + rest;
  }

  lemma {:induction false} ObusShift(d: seq<byte>, k: nat, pos: nat)
    requires k <= |d| && k <= pos
    ensures Obus(d, pos) == Obus(d[k..], pos - k)
    decreases |d| - pos
  {
    hide ObuLength, Parse;
    if pos < |d| {
      ObuLengthShift(d, k, pos);
      if ObuLength(d, pos).Some? {
        var n := ObuLength(d, pos).value;
        SliceShift(d, k, pos, pos + n);
        ObusShift(d, k, pos + n);
      }
    }
  }

  lemma SliceShift(d: seq<byte>, k: nat, p: nat, q: nat)
    requires k <= p <= q <= |d|
    ensures d[p..q] == d[k..][p - k..q - k]
  {
  }

  lemma {:induction false} LebShift(d: seq<byte>, k: nat, pos: nat, left: nat)
    requires k <= pos && pos + left <= |d|
    ensures Leb(d, pos, left) == Leb(d[k..], pos - k, left)
    decreases left
  {
    if left > 0 {
      assert d[pos] == d[k..][pos - k];
      if d[pos] >= 128 { LebShift(d, k, pos + 1, left - 1); }
    }
  }

  lemma ObuLengthShift(d: seq<byte>, k: nat, pos: nat)
    requires k <= pos < |d|
    ensures ObuLength(d, pos) == ObuLength(d[k..], pos - k)
  {
    assert d[pos] == d[k..][pos - k];
    var at := pos + Offset(d[pos]);
    var avail := |d| - at;
    if avail > 0 {
      LebShift(d, k, at, if avail < 10 then avail else 10);
    }
  }

  /** The bytes of a list of stored OBUs. */
  function StoredAll(obus: seq<Obu>): (r: seq<byte>) {
    if obus == [] then [] else Stored(obus[0]) + StoredAll(obus[1..])
  }

  lemma {:induction false} StoredAllSnoc(obus: seq<Obu>, o: Obu)
    ensures StoredAll(obus + [o]) == StoredAll(obus) + Stored(o)
  {
    if obus == [] {
      assert (obus + [o])[1..] == [];
    } else {
      assert (obus + [o])[1..] == obus[1..] + [o];
      StoredAllSnoc(obus[1..], o);
    }
  }

  predicate Storable(obus: seq<Obu>) {
    forall i :: 0 <= i < |obus| ==> WellFormed(obus[i]) && |obus[i].payload| < RECORD_BYTES && HasSize(obus[i].header)
  }

  /** Splitting stored OBUs gives them back, in order, with their payloads. */
  lemma {:induction false} StoredAllSplits(obus: seq<Obu>)
    requires Storable(obus)
    ensures Obus(StoredAll(obus), 0) == Some(obus)
    decreases |obus|
  {
    hide Parse, ObuLength, Stored, Storable;
    if obus != [] {
      var o, rest := obus[0], StoredAll(obus[1..]);
      var d, n := StoredAll(obus), |Stored(obus[0])|;
      StorableParts(obus);
      FirstSplits(o, rest);
      ObusShift(d, n, n);
      StoredAllSplits(obus[1..]);
      assert d[0..0 + n] == d[..n];
      assert [o] + obus[1..] == obus;
    }
  }

  lemma StorableParts(obus: seq<Obu>)
    requires Storable(obus) && obus != []
    ensures WellFormed(obus[0]) && |obus[0].payload| < RECORD_BYTES && HasSize(obus[0].header) && Storable(obus[1..])
  {
  }

  lemma FirstSplits(o: Obu, rest: seq<byte>)
    requires WellFormed(o) && |o.payload| < RECORD_BYTES && HasSize(o.header)
    ensures var s, d := Stored(o), Stored(o) + rest;
            && s != [] && ObuLength(d, 0) == Some(|s|) && d[..|s|] == s && Parse(s) == Some(o) && d[|s|..] == rest
  {
    hide Parse, ObuLength, Stored;
    StoredSplitsOff(o, rest);
    StoredParses(o);
    assert o.(header := WithSize(o.header)) == o;
  }

  lemma HandleStoresKept(before: seq<Obu>, obu: seq<byte>, parses: seq<byte> -> bool)
    requires Storable(before) && Handle(StoredAll(before), obu, parses).1 == 0
    ensures Parse(obu).Some?
    ensures var all := before + Kept([Parse(obu).value]);
            Storable(all) && Handle(StoredAll(before), obu, parses).0 == StoredAll(all)
  {
    var o := Parse(obu).value;
    ParseWellFormed(obu);
    var k := o.(header := WithSize(o.header));
    assert Stored(k) == Stored(o);
    hide Parse, Stored, WithSize;
    StoredAllSnoc(before, k);
    assert Kept([o][1..]) == [];
    assert Kept([o]) == if IsKept(o) then [k] else [];
    assert before + [] == before;
  }

  lemma KeptCons(o: Obu, rest: seq<Obu>)
    ensures Kept([o] + rest) == Kept([o]) + Kept(rest)
  {
    assert Kept([o][1..]) == [];
    assert ([o] + rest)[1..] == rest;
  }

  /** The builder adds exactly the kept OBUs of the rest of the stream. */
  lemma {:induction false} BuildStoresKept(d: seq<byte>, pos: nat, before: seq<Obu>, parses: seq<byte> -> bool)
    requires Storable(before) && Build(d, pos, StoredAll(before), parses).1 == 0
    ensures Obus(d, pos).Some?
    ensures var all := before + Kept(Obus(d, pos).value);
            Storable(all) && Build(d, pos, StoredAll(before), parses).0 == StoredAll(all)
    decreases |d| - pos
  {
    hide Parse, ObuLength, Handle, Storable, StoredAll;
    if pos >= |d| {
      assert before + Kept([]) == before;
    } else {
      var n := ObuLength(d, pos).value;
      var obu := d[pos..pos + n];
      HandleStoresKept(before, obu, parses);
      var o := Parse(obu).value;
      BuildStoresKept(d, pos + n, before + Kept([o]), parses);
      var rest := Obus(d, pos + n).value;
      KeptCons(o, rest);
      assert (before + Kept([o])) + Kept(rest) == before + Kept([o] + rest);
    }
  }

  /**
   * When the build succeeds, the record is itself an OBU stream: splitting it yields exactly
   * the sequence headers and metadata of the input, in order, payloads unchanged.
   */
  lemma RecordIsStream(d: seq<byte>, parses: seq<byte> -> bool)
    requires Build(d, 0, [], parses).1 == 0
    ensures Obus(d, 0).Some?
    ensures Obus(Build(d, 0, [], parses).0, 0) == Some(Kept(Obus(d, 0).value))
  {
    assert StoredAll([]) == [];
    BuildStoresKept(d, 0, [], parses);
    var kept := Kept(Obus(d, 0).value);
    assert [] + kept == kept;
    StoredAllSplits(kept);
  }

  lemma BuildUnfold(d: seq<byte>, pos: nat, stored: seq<byte>, parses: seq<byte> -> bool)
    ensures Build(d, pos, stored, parses) ==
            if pos >= |d| then (stored, 0)
            else if ObuLength(d, pos).None? then (stored, -1)
            else
              var n := ObuLength(d, pos).value;
              var h := Handle(stored, d[pos..pos + n], parses);
              if h.1 != 0 then h else Build(d, pos + n, h.0, parses)
  {
    hide Handle, ObuLength;
  }

  // ---- The builder as the source runs it ---------------------------------------------------

  class Record {
    const data: array<byte>
    const parses: seq<byte> -> bool
    var bytes: nat
    var version: int
    var marker: int

    ghost predicate Valid()
      reads this
    {
      data.Length == RECORD_BYTES && bytes < RECORD_BYTES
    }

    /** A zeroed aom_av1_t. */
    constructor (parses: seq<byte> -> bool)
      ensures Valid() && bytes == 0 && this.parses == parses && fresh(data)
    {
      this.parses := parses;
      data := new byte[RECORD_BYTES](_ => 0);
      bytes, version, marker := 0, 0, 0;
    }

    /** The size loop of aom_av1_extra_handler. */
    method AppendLeb(len: nat)
      requires Valid() && bytes + |WriteLeb(len)| < RECORD_BYTES
      modifies this`bytes, data
      ensures Valid() && data[..bytes] == old(data[..bytes]) + WriteLeb(len)
    {
      hide WriteLeb;
      var i := len;
      ghost var written: seq<byte> := [];
      WriteLebUnfold(i);
      while i >= 128
        invariant written + WriteLeb(i) == WriteLeb(len) && WriteLeb(i) != []
        invariant Valid() && bytes == old(bytes) + |written|
        invariant data[..bytes] == old(data[..bytes]) + written
      {
        WriteLebUnfold(i);
        WriteLebUnfold(i / 128);
        assert written + ([i % 128 + 128] + WriteLeb(i / 128)) == written + [i % 128 + 128] + WriteLeb(i / 128);
        Put(i % 128 + 128);
        written := written + [i % 128 + 128];
        i := i / 128;
      }
      WriteLebUnfold(i);
      Put(i);
    }

    method Put(b: byte)
      requires Valid() && bytes + 1 < RECORD_BYTES
      modifies this`bytes, data
      ensures Valid() && bytes == old(bytes) + 1 && data[..bytes] == old(data[..bytes]) + [b]
    {
      data[bytes] := b;
      bytes := bytes + 1;
    }

    /** The storing part of aom_av1_extra_handler: header with the size bit, size, payload. */
    method Store(o: Obu)
      requires Valid() && bytes + |Stored(o)| < RECORD_BYTES
      modifies this`bytes, data
      ensures Valid() && data[..bytes] == old(data[..bytes]) + Stored(o)
    {
      hide Head, WriteLeb;
      var head := Head(o);
      CopyTo(data, bytes, head);
      bytes := bytes + |head|;
      AppendLeb(|o.payload|);
      CopyTo(data, bytes, o.payload);
      bytes := bytes + |o.payload|;
      assert old(data[..bytes]) + head + WriteLeb(|o.payload|) + o.payload == old(data[..bytes]) + Stored(o);
    }

    /** aom_av1_extra_handler. */
    method Handler(obu: seq<byte>) returns (r: int)
      requires Valid()
      modifies this`bytes, data
      ensures Valid()
      ensures (data[..bytes], r) == Handle(old(data[..bytes]), obu, parses)
    {
      var parsed := Parse(obu);
      if parsed.None? { return -1; }
      var o := parsed.value;
      ParseWellFormed(obu);
      if !IsKept(o) { return 0; }
      if bytes + |obu| + 8 >= RECORD_BYTES { return -1; }
      StoredFits(obu);
      hide Parse;
      Store(o);
      r := if TypeOf(o.header) == SEQUENCE_HEADER && !parses(o.payload) then -1 else 0;
    }

    /** aom_av1_obu_split with the handler above. */
    method Split(d: seq<byte>) returns (r: int)
      requires Valid()
      modifies this`bytes, data
      ensures Valid()
      ensures (data[..bytes], r) == Build(d, 0, old(data[..bytes]), parses)
    {
      hide Handle, ObuLength, Build;
      var i := 0;
      r := 0;
      while i < |d|
        invariant Valid() && 0 <= i <= |d| && r == 0
        invariant Build(d, i, data[..bytes], parses) == Build(d, 0, old(data[..bytes]), parses)
        decreases |d| - i
      {
        BuildUnfold(d, i, data[..bytes], parses);
        var len := ScanLength(d, i);
        if len.None? { return -1; }
        r := Handler(d[i..i + len.value]);
        if r != 0 { return; }
        i := i + len.value;
      }
      BuildUnfold(d, i, data[..bytes], parses);
    }

    /** aom_av1_codec_configuration_record_init. */
    method Init(d: seq<byte>) returns (r: int)
      requires Valid()
      modifies this, data
      ensures Valid() && version == 1 && marker == 1
      ensures (data[..bytes], r) == Build(d, 0, old(data[..bytes]), parses)
    {
      hide Build;
      version, marker := 1, 1;
      r := Split(d);
    }
  }

  /** The length computation of aom_av1_obu_split. */
  method ScanLength(d: seq<byte>, i: nat) returns (len: Option<nat>)
    requires i < |d|
    ensures len == ObuLength(d, i)
  {
    var at := i + Offset(d[i]);
    if HasSize(d[i]) {
      if at > |d| { return None; }
      var size, n := ScanLeb(d, at, |d| - at);
      if at + n + size > |d| { return None; }
      return Some(at + n + size - i);
    }
    return Some(|d| - i);
  }

  /** The capacity check leaves room for what is stored. */
  lemma StoredFits(obu: seq<byte>)
    requires Parse(obu).Some? && |obu| + 8 < RECORD_BYTES
    ensures var o := Parse(obu).value;
            |Stored(o)| <= |obu| + 8 && |WriteLeb(|o.payload|)| <= 2 && |o.payload| + (if o.extension.Some? then 2 else 1) <= |obu|
  {
    var o := Parse(obu).value;
    ParseWellFormed(obu);
    SmallLeb(|o.payload|);
  }
}
