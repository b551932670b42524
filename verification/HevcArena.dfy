/**
 * The parameter-set arena of common/codec_helpers/hevc-annexbtomp4.c: slots that point into
 * one byte buffer, which is compacted when a slot is removed or replaced. It refines a list.
 */
module HevcArena {
  import opened Bytes

  const CAPACITY: nat := 4096
  const MAX_SLOTS: nat := 64

  const VPS: byte := 32
  const SPS: byte := 33
  const PPS: byte := 34
  const SEI_PREFIX: byte := 39
  const SEI_SUFFIX: byte := 40

  datatype Slot = Slot(ty: byte, at: nat, size: nat)

  /** What the caller of the arena means by a slot. */
  datatype Entry = Entry(ty: byte, bytes: seq<byte>)

  // ---- The list ----------------------------------------------------------------------------

  function Total(list: seq<Entry>): (n: nat) {
    if list == [] then 0 else |list[0].bytes| + Total(list[1..])
  }

  /** The identity of a parameter set: ids parsed from its bytes with `room` bytes of scratch space. */
  type Ids = (byte, seq<byte>, nat) -> (int, int)

  /** First entry of that type with the same ids, or |list|. */
  function Find(list: seq<Entry>, ty: byte, nalu: seq<byte>, ids: Ids, room: nat): (i: nat)
    ensures i <= |list|
    ensures i < |list| ==> list[i].ty == ty && ids(ty, list[i].bytes, room) == ids(ty, nalu, room)
    ensures forall j :: 0 <= j < i ==> !(list[j].ty == ty && ids(ty, list[j].bytes, room) == ids(ty, nalu, room))
  {
    if list == [] || (list[0].ty == ty && ids(ty, list[0].bytes, room) == ids(ty, nalu, room)) then 0
    else 1 + Find(list[1..], ty, nalu, ids, room)
  }

  /** mpeg4_hevc_update2 on the list: 0 nothing to do, -1 too big, 1 replaced. */
  function Replace(list: seq<Entry>, i: nat, nalu: seq<byte>): (r: (seq<Entry>, int))
    requires i < |list|
  {
    if list[i].bytes == nalu then (list, 0)
    else if |nalu| > |list[i].bytes| && Total(list) + |nalu| - |list[i].bytes| > CAPACITY then (list, -1)
    else (list[i := Entry(list[i].ty, nalu)], 1)
  }

  /** mpeg4_hevc_add on the list. */
  function Add(list: seq<Entry>, ty: byte, nalu: seq<byte>): (r: (seq<Entry>, int)) {
    if |list| >= MAX_SLOTS || Total(list) + |nalu| > CAPACITY then (list, -1)
    else (list + [Entry(ty, nalu)], 1)
  }

  /** h265_vps_copy, h265_sps_copy and h265_pps_copy on the list. */
  function CopySet(list: seq<Entry>, ty: byte, nalu: seq<byte>, least: nat, ids: Ids): (r: (seq<Entry>, int))
    requires Total(list) <= CAPACITY
  {
    if |nalu| < least then (list, -1)
    else
      var i := Find(list, ty, nalu, ids, CAPACITY - Total(list));
      if i < |list| then Replace(list, i, nalu) else Add(list, ty, nalu)
  }

  predicate IsSei(ty: byte) { ty == SEI_PREFIX || ty == SEI_SUFFIX }

  function WithoutSei(list: seq<Entry>): (r: seq<Entry>)
    ensures |r| <= |list| && Total(r) <= Total(list)
  {
    if list == [] then []
    else if IsSei(list[0].ty) then WithoutSei(list[1..])
    else [list[0]] + WithoutSei(list[1..])
  }

  /** mpeg4_hevc_update on the list; SEI units are kept only in builds that ask for it. */
  function UpdateList(list: seq<Entry>, nalu: seq<byte>, ids: Ids, keepSei: bool): (r: (seq<Entry>, int))
    requires nalu != [] && Total(list) <= CAPACITY
  {
    var ty: byte := nalu[0] / 2 % 64;
    if ty == VPS then CopySet(WithoutSei(list), VPS, nalu, 3, ids)
    else if ty == SPS then CopySet(list, SPS, nalu, 15, ids)
    else if ty == PPS then CopySet(list, PPS, nalu, 3, ids)
    else if keepSei && IsSei(ty) then Add(list, ty, nalu)
    else (list, 0)
  }

  // ---- The layout --------------------------------------------------------------------------

  function Sizes(slots: seq<Slot>): (n: nat) {
    if slots == [] then 0 else slots[0].size + Sizes(slots[1..])
  }

  /** The slots tile data[..off): none empty, none overlapping, nothing left over. */
  ghost predicate Tiles(slots: seq<Slot>, off: nat) {
    && (forall i :: 0 <= i < |slots| ==> 0 < slots[i].size && slots[i].at + slots[i].size <= off)
    && (forall i, j :: 0 <= i < j < |slots| ==> Apart(slots[i], slots[j]))
    && Sizes(slots) == off
  }

  predicate Apart(a: Slot, b: Slot) { a.at + a.size <= b.at || b.at + b.size <= a.at }

  /** What a slot reads. */
  function Reads(s: Slot, data: seq<byte>): (e: Entry) {
    Entry(s.ty, if s.at + s.size <= |data| then data[s.at..s.at + s.size] else [])
  }

  function Content(slots: seq<Slot>, data: seq<byte>): (list: seq<Entry>)
    ensures |list| == |slots|
    ensures forall i :: 0 <= i < |slots| ==> list[i] == Reads(slots[i], data)
  {
    seq(|slots|, i requires 0 <= i < |slots| => Reads(slots[i], data))
  }

  /** The bytes after memmove has closed the gap of `n` bytes at `ptr`. */
  function Moved(data: seq<byte>, ptr: nat, n: nat, off: nat): (r: seq<byte>)
    requires ptr + n <= off <= |data|
    ensures |r| == |data|
  {
    data[..ptr] + data[ptr + n..off] + data[off - n..]
  }

  function Shift(s: Slot, ptr: nat, n: nat): (r: Slot)
    ensures r.size == s.size && r.ty == s.ty
  {
    if s.at > ptr && s.at >= n then s.(at := s.at - n) else s
  }

  function Shifted(slots: seq<Slot>, ptr: nat, n: nat): (r: seq<Slot>)
    ensures |r| == |slots|
  {
    seq(|slots|, i requires 0 <= i < |slots| => Shift(slots[i], ptr, n))
  }

  lemma {:induction false} SizesUpdate(slots: seq<Slot>, i: nat, s: Slot)
    requires i < |slots|
    ensures Sizes(slots[i := s]) == Sizes(slots) - slots[i].size + s.size
  {
    if i == 0 {
      assert slots[i := s][1..] == slots[1..];
    } else {
      assert slots[i := s][1..] == slots[1..][i - 1 := s];
      SizesUpdate(slots[1..], i - 1, s);
    }
  }

  lemma {:induction false} SizesAppend(slots: seq<Slot>, s: Slot)
    ensures Sizes(slots + [s]) == Sizes(slots) + s.size
  {
    if slots == [] {
      assert (slots + [s])[1..] == [];
    } else {
      assert (slots + [s])[1..] == slots[1..] + [s];
      SizesAppend(slots[1..], s);
    }
  }

  lemma {:induction false} SizesDrop(slots: seq<Slot>, i: nat)
    requires i < |slots|
    ensures Sizes(slots[..i] + slots[i + 1..]) == Sizes(slots) - slots[i].size
  {
    if i == 0 {
      assert slots[..0] + slots[1..] == slots[1..];
    } else {
      assert (slots[..i] + slots[i + 1..])[1..] == slots[1..][..i - 1] + slots[1..][i..];
      SizesDrop(slots[1..], i - 1);
    }
  }

  lemma {:induction false} SizesShifted(slots: seq<Slot>, ptr: nat, n: nat)
    ensures Sizes(Shifted(slots, ptr, n)) == Sizes(slots)
  {
    if slots != [] {
      assert Shifted(slots, ptr, n)[1..] == Shifted(slots[1..], ptr, n);
      SizesShifted(slots[1..], ptr, n);
    }
  }

  lemma {:induction false} SizesAreTotal(slots: seq<Slot>, data: seq<byte>)
    requires forall i :: 0 <= i < |slots| ==> slots[i].at + slots[i].size <= |data|
    ensures Total(Content(slots, data)) == Sizes(slots)
  {
    if slots != [] {
      assert Content(slots, data)[1..] == Content(slots[1..], data);
      SizesAreTotal(slots[1..], data);
    }
  }

  lemma SizesIsTotal(slots: seq<Slot>, off: nat, data: seq<byte>)
    requires Tiles(slots, off) && off <= |data|
    ensures Total(Content(slots, data)) == off
  {
    SizesAreTotal(slots, data);
  }

  /** What mpeg4_hevc_remove asserts, and that no pointer is shifted below zero. */
  lemma RemoveOk(slots: seq<Slot>, off: nat, i: nat)
    requires Tiles(slots, off) && i < |slots|
    ensures slots[i].at + slots[i].size <= off && 0 < slots[i].size
    ensures forall j :: 0 <= j < |slots| && slots[j].at > slots[i].at ==> slots[j].at >= slots[i].size
  {
    forall j | 0 <= j < |slots| && slots[j].at > slots[i].at ensures slots[j].at >= slots[i].size {
      AllApart(slots, off, i, j);
    }
  }

  lemma AllApart(slots: seq<Slot>, off: nat, i: nat, j: nat)
    requires Tiles(slots, off) && i < |slots| && j < |slots| && i != j
    ensures Apart(slots[i], slots[j]) && 0 < slots[i].size && 0 < slots[j].size
    ensures slots[i].at + slots[i].size <= off && slots[j].at + slots[j].size <= off
  {
    if i < j { assert Apart(slots[i], slots[j]); } else { assert Apart(slots[j], slots[i]); }
  }

  /** A slot apart from the removed one, its pointer shifted, still reads its own bytes. */
  lemma ShiftReads(gone: Slot, s: Slot, off: nat, data: seq<byte>)
    requires Apart(gone, s) && 0 < gone.size && 0 < s.size
    requires gone.at + gone.size <= off <= |data| && s.at + s.size <= off
    ensures var t := Shift(s, gone.at, gone.size);
            && t.at + t.size <= off - gone.size
            && Reads(t, Moved(data, gone.at, gone.size, off)) == Reads(s, data)
  {
    var t, moved := Shift(s, gone.at, gone.size), Moved(data, gone.at, gone.size, off);
    var a, b := moved[t.at..t.at + t.size], data[s.at..s.at + s.size];
    forall k | 0 <= k < |a| ensures a[k] == b[k] {
      MovedAt(data, gone.at, gone.size, off, t.at + k);
    }
    assert a == b;
  }

  lemma MovedAt(data: seq<byte>, ptr: nat, n: nat, off: nat, k: nat)
    requires ptr + n <= off <= |data| && k < off - n
    ensures Moved(data, ptr, n, off)[k] == if k < ptr then data[k] else data[k + n]
  {
  }

  lemma SliceOfPrefix(a: seq<byte>, m: nat, p: nat, q: nat)
    requires p <= q <= m <= |a|
    ensures a[..m][p..q] == a[p..q]
  {
  }

  lemma SliceOfSum(a: seq<byte>, b: seq<byte>, p: nat, q: nat)
    requires p <= q <= |a|
    ensures (a + b)[p..q] == a[p..q]
  {
  }

  lemma ShiftApart(gone: Slot, a: Slot, b: Slot)
    requires Apart(gone, a) && Apart(gone, b) && Apart(a, b) && 0 < gone.size && 0 < a.size && 0 < b.size
    ensures Apart(Shift(a, gone.at, gone.size), Shift(b, gone.at, gone.size))
  {
  }

  lemma ContentAt(slots: seq<Slot>, data: seq<byte>, i: nat)
    requires i < |slots|
    ensures Content(slots, data)[i] == Reads(slots[i], data)
  {
  }

  /** One step of the walk that leaves the SEI entries out. */
  lemma SeiAt(list: seq<Entry>, i: nat)
    requires i <= |list|
    ensures i == |list| ==> list[..i] + WithoutSei(list[i..]) == list
    ensures i < |list| && IsSei(list[i].ty) ==> WithoutSei(list[i..]) == WithoutSei(list[i + 1..])
    ensures i < |list| && !IsSei(list[i].ty) ==>
              list[..i] + WithoutSei(list[i..]) == list[..i + 1] + WithoutSei(list[i + 1..])
  {
    if i < |list| {
      assert list[i..][1..] == list[i + 1..];
      assert list[..i] + [list[i]] == list[..i + 1];
    }
  }

  lemma DropSlices(list: seq<Entry>, i: nat)
    requires i < |list|
    ensures var rest := list[..i] + list[i + 1..]; rest[..i] == list[..i] && rest[i..] == list[i + 1..]
  {
  }

  // ---- The arena ---------------------------------------------------------------------------

  class Arena {
    const data: array<byte>
    const ids: Ids
    const keepSei: bool
    var slots: seq<Slot>
    var off: nat

    ghost predicate Valid()
      reads this
    {
      data.Length == CAPACITY && |slots| <= MAX_SLOTS && off <= CAPACITY && Tiles(slots, off)
    }

    ghost function List(): seq<Entry>
      requires Valid()
      reads this, data
    {
      Content(slots, data[..])
    }

    /** A zeroed mpeg4_hevc_t. */
    constructor (ids: Ids, keepSei: bool)
      ensures Valid() && List() == [] && fresh(data)
      ensures this.ids == ids && this.keepSei == keepSei
    {
      this.ids, this.keepSei := ids, keepSei;
      data := new byte[CAPACITY](_ => 0);
      slots, off := [], 0;
    }

    /** The memmove of mpeg4_hevc_remove. */
    method CloseGap(ptr: nat, bytes: nat)
      requires ptr + bytes <= off <= data.Length
      modifies data
      ensures data[..] == Moved(old(data[..]), ptr, bytes, off)
    {
      forall k | 0 <= k < off - ptr - bytes { data[ptr + k] := data[ptr + bytes + k]; }
    }

    /** mpeg4_hevc_remove: close the gap, then walk the slots and shift the pointers behind it. */
    method Remove(ptr: nat, bytes: nat)
      requires ptr + bytes <= off <= data.Length
      requires forall i :: 0 <= i < |slots| && slots[i].at > ptr ==> slots[i].at >= bytes
      modifies this`slots, data
      ensures data[..] == Moved(old(data[..]), ptr, bytes, off)
      ensures slots == Shifted(old(slots), ptr, bytes)
    {
      hide Moved;
      CloseGap(ptr, bytes);
      ghost var moved := data[..];
      var i := 0;
      while i < |slots|
        invariant 0 <= i <= |slots| == |old(slots)|
        invariant forall k :: 0 <= k < i ==> slots[k] == Shift(old(slots)[k], ptr, bytes)
        invariant forall k :: i <= k < |slots| ==> slots[k] == old(slots)[k]
        invariant data[..] == moved
      {
        if slots[i].at > ptr {
          slots := slots[i := slots[i].(at := slots[i].at - bytes)];
        }
        i := i + 1;
      }
    }

    /** Takes slot `i` out of the buffer and puts `nalu` at the end in its place. */
    method Swap(i: nat, nalu: seq<byte>)
      requires Valid() && i < |slots| && nalu != [] && off - slots[i].size + |nalu| <= CAPACITY
      modifies this`slots, this`off, data
      ensures Valid()
      ensures List() == old(List())[i := Entry(old(List())[i].ty, nalu)]
    {
      hide Tiles, Shifted, Moved, Content;
      RemoveOk(slots, off, i);
      var s := slots[i];
      Remove(s.at, s.size);
      off := off - s.size;
      var t := Slot(s.ty, off, |nalu|);
      slots := slots[i := t];
      CopyTo(data, off, nalu);
      ReplacedTiles(old(slots), old(off), i, t);
      ReplacedContent(old(slots), old(off), old(data[..]), data[..], i, t, nalu);
      off := off + |nalu|;
    }

    /** mpeg4_hevc_update2. */
    method Update(i: nat, nalu: seq<byte>) returns (r: int)
      requires Valid() && i < |slots| && nalu != []
      modifies this`slots, this`off, data
      ensures Valid()
      ensures (List(), r) == Replace(old(List()), i, nalu)
    {
      hide Tiles, Content, Total;
      SizesIsTotal(slots, off, data[..]);
      RemoveOk(slots, off, i);
      var s := slots[i];
      ContentAt(slots, data[..], i);
      if |nalu| == s.size && nalu == data[s.at..s.at + s.size] { return 0; }
      if |nalu| > s.size && off + (|nalu| - s.size) > CAPACITY { return -1; }
      Swap(i, nalu);
      return 1;
    }

    /** Takes slot `i` out of the buffer and out of the table. */
    method Drop(i: nat)
      requires Valid() && i < |slots|
      modifies this`slots, this`off, data
      ensures Valid()
      ensures List() == old(List())[..i] + old(List())[i + 1..]
    {
      hide Tiles, Content, Shifted, Moved;
      RemoveOk(slots, off, i);
      DroppedTiles(slots, off, i);
      DroppedContent(slots, off, data[..], i);
      var s := slots[i];
      Remove(s.at, s.size);
      off := off - s.size;
      slots := slots[..i] + slots[i + 1..];
    }

    /** mpeg4_hevc_add. */
    method Append(ty: byte, nalu: seq<byte>) returns (r: int)
      requires Valid() && nalu != []
      modifies this`slots, this`off, data
      ensures Valid()
      ensures (List(), r) == Add(old(List()), ty, nalu)
    {
      hide Total, Content, Tiles;
      SizesIsTotal(slots, off, data[..]);
      if |slots| >= MAX_SLOTS || off + |nalu| > CAPACITY { return -1; }
      var s := Slot(ty, off, |nalu|);
      AppendedTiles(slots, off, s);
      slots := slots + [s];
      CopyTo(data, off, nalu);
      AppendedContent(old(slots), old(off), old(data[..]), data[..], s, nalu);
      off := off + |nalu|;
      return 1;
    }

    /** h265_sei_clear: remove every SEI slot while walking the table. */
    method ClearSei()
      requires Valid()
      modifies this`slots, this`off, data
      ensures Valid()
      ensures List() == WithoutSei(old(List()))
    {
      hide Tiles, WithoutSei, Content;
      ghost var list := List();
      var i := 0;
      assert list[..0] + WithoutSei(list[0..]) == WithoutSei(list) by { assert list[0..] == list; }
      while i < |slots|
        invariant Valid() && 0 <= i <= |slots|
        invariant List()[..i] + WithoutSei(List()[i..]) == WithoutSei(list)
        decreases |slots| - i
      {
        ghost var now := List();
        ContentAt(slots, data[..], i);
        SeiAt(now, i);
        if IsSei(slots[i].ty) {
          Drop(i);
          DropSlices(now, i);
        } else {
          i := i + 1;
        }
      }
      SeiAt(List(), i);
    }

    /** The bytes behind the pointer of slot `i`. */
    method Peek(i: nat) returns (bytes: seq<byte>)
      requires Valid() && i < |slots|
      ensures Entry(slots[i].ty, bytes) == List()[i]
    {
      RemoveOk(slots, off, i);
      assert List()[i] == Reads(slots[i], data[..]);
      bytes := data[slots[i].at..slots[i].at + slots[i].size];
    }

    /** The search loop of the three copy functions. */
    method Search(ty: byte, nalu: seq<byte>) returns (i: nat)
      requires Valid()
      ensures i == Find(List(), ty, nalu, ids, CAPACITY - off) <= |slots|
    {
      hide Tiles, Content;
      ghost var list := List();
      var room := CAPACITY - off;
      var wanted := ids(ty, nalu, room);
      i := 0;
      assert list[0..] == list;
      while i < |slots|
        invariant 0 <= i <= |slots|
        invariant Find(list, ty, nalu, ids, room) == i + Find(list[i..], ty, nalu, ids, room)
      {
        assert list[i..][1..] == list[i + 1..];
        var bytes := Peek(i);
        if slots[i].ty == ty && wanted == ids(ty, bytes, room) { break; }
        i := i + 1;
      }
    }

    /** h265_vps_copy, h265_sps_copy and h265_pps_copy: replace the set of the same ids, or add it. */
    method Copy(ty: byte, nalu: seq<byte>, least: nat) returns (r: int)
      requires Valid() && nalu != []
      modifies this`slots, this`off, data
      ensures Valid()
      ensures old(Total(List())) <= CAPACITY && (List(), r) == CopySet(old(List()), ty, nalu, least, ids)
    {
      hide Tiles, Content, Find, Replace, Add, Total;
      SizesIsTotal(slots, off, data[..]);
      if |nalu| < least { return -1; }
      var i := Search(ty, nalu);
      assert |List()| == |slots|;
      if i < |slots| {
        r := Update(i, nalu);
      } else {
        r := Append(ty, nalu);
      }
    }

    /** mpeg4_hevc_update. */
    method UpdateWith(nalu: seq<byte>) returns (r: int)
      requires Valid() && nalu != []
      modifies this`slots, this`off, data
      ensures Valid()
      ensures old(Total(List())) <= CAPACITY && (List(), r) == UpdateList(old(List()), nalu, ids, keepSei)
    {
      hide Tiles, Content, CopySet, WithoutSei, Add, Total;
      SizesIsTotal(slots, off, data[..]);
      var ty: byte := nalu[0] / 2 % 64;
      if ty == VPS {
        ClearSei();
        r := Copy(VPS, nalu, 3);
      } else if ty == SPS {
        r := Copy(SPS, nalu, 15);
      } else if ty == PPS {
        r := Copy(PPS, nalu, 3);
      } else if keepSei && IsSei(ty) {
        r := Append(ty, nalu);
      } else {
        r := 0;
      }
    }
  }

  lemma ReplacedTiles(slots: seq<Slot>, off: nat, i: nat, s: Slot)
    requires Tiles(slots, off) && i < |slots| && s.at == off - slots[i].size && s.size > 0
    ensures Tiles(Shifted(slots, slots[i].at, slots[i].size)[i := s], s.at + s.size)
  {
    var gone := slots[i];
    var moved := Shifted(slots, gone.at, gone.size);
    var after := moved[i := s];
    SizesShifted(slots, gone.at, gone.size);
    SizesUpdate(moved, i, s);
    forall j | 0 <= j < |after| && j != i ensures after[j].at + after[j].size <= s.at && after[j].size > 0 {
      AllApart(slots, off, i, j);
    }
    forall j, k | 0 <= j < k < |after| ensures Apart(after[j], after[k]) {
      if j != i && k != i {
        AllApart(slots, off, i, j);
        AllApart(slots, off, i, k);
        AllApart(slots, off, j, k);
        ShiftApart(gone, slots[j], slots[k]);
      }
    }
  }

  lemma ReplacedContent(slots: seq<Slot>, off: nat, data: seq<byte>, data': seq<byte>, i: nat, s: Slot, nalu: seq<byte>)
    requires Tiles(slots, off) && off <= |data| == |data'| && i < |slots|
    requires s == Slot(slots[i].ty, off - slots[i].size, |nalu|) && s.at + s.size <= |data|
    requires data'[..s.at + s.size] == Moved(data, slots[i].at, slots[i].size, off)[..s.at] + nalu
    ensures Content(Shifted(slots, slots[i].at, slots[i].size)[i := s], data')
         == Content(slots, data)[i := Entry(s.ty, nalu)]
  {
    hide Tiles, Moved, Shift, Reads;
    RemoveOk(slots, off, i);
    var gone := slots[i];
    var moved := Moved(data, gone.at, gone.size, off);
    var after := Shifted(slots, gone.at, gone.size)[i := s];
    SplitReads(data', moved, s, nalu, s);
    forall j | 0 <= j < |after| && j != i ensures Reads(after[j], data') == Reads(slots[j], data) {
      AllApart(slots, off, i, j);
      ShiftReads(gone, slots[j], off, data);
      SplitReads(data', moved, s, nalu, after[j]);
    }
  }

  /** With `nalu` stored at `s`, `s` reads it and whatever lies below `s` is untouched. */
  lemma SplitReads(data': seq<byte>, data: seq<byte>, s: Slot, nalu: seq<byte>, t: Slot)
    requires s.size == |nalu| && s.at + s.size <= |data| == |data'| && data'[..s.at + s.size] == data[..s.at] + nalu
    ensures Reads(s, data') == Entry(s.ty, nalu)
    ensures t.at + t.size <= s.at ==> Reads(t, data') == Reads(t, data)
  {
    assert data'[s.at..s.at + s.size] == data'[..s.at + s.size][s.at..] == nalu;
    if t.at + t.size <= s.at {
      SliceOfPrefix(data', s.at + s.size, t.at, t.at + t.size);
      SliceOfSum(data[..s.at], nalu, t.at, t.at + t.size);
      SliceOfPrefix(data, s.at, t.at, t.at + t.size);
    }
  }

  lemma AppendedTiles(slots: seq<Slot>, off: nat, s: Slot)
    requires Tiles(slots, off) && s.at == off && s.size > 0
    ensures Tiles(slots + [s], off + s.size)
  {
    SizesAppend(slots, s);
  }

  lemma AppendedContent(slots: seq<Slot>, off: nat, data: seq<byte>, data': seq<byte>, s: Slot, nalu: seq<byte>)
    requires Tiles(slots, off) && off + |nalu| <= |data| == |data'|
    requires s.at == off && s.size == |nalu| && data'[..off + |nalu|] == data[..off] + nalu
    ensures Content(slots + [s], data') == Content(slots, data) + [Entry(s.ty, nalu)]
  {
    SplitReads(data', data, s, nalu, s);
    forall j | 0 <= j < |slots| ensures Reads(slots[j], data') == Reads(slots[j], data) {
      SplitReads(data', data, s, nalu, slots[j]);
    }
  }

  lemma DroppedTiles(slots: seq<Slot>, off: nat, i: nat)
    requires Tiles(slots, off) && i < |slots|
    ensures var moved := Shifted(slots, slots[i].at, slots[i].size);
            Tiles(moved[..i] + moved[i + 1..], off - slots[i].size)
  {
    hide Sizes, Shift;
    var gone := slots[i];
    var moved := Shifted(slots, gone.at, gone.size);
    var after := moved[..i] + moved[i + 1..];
    SizesShifted(slots, gone.at, gone.size);
    SizesDrop(moved, i);
    forall j | 0 <= j < |after| ensures after[j].at + after[j].size <= off - gone.size && after[j].size > 0 {
      DroppedAt(slots, i, j);
      AllApart(slots, off, i, Past(i, j));
      ShiftFits(gone, slots[Past(i, j)], off);
    }
    forall j, k | 0 <= j < k < |after| ensures Apart(after[j], after[k]) {
      var j', k' := Past(i, j), Past(i, k);
      DroppedAt(slots, i, j);
      DroppedAt(slots, i, k);
      AllApart(slots, off, i, j');
      AllApart(slots, off, i, k');
      AllApart(slots, off, j', k');
      ShiftApart(gone, slots[j'], slots[k']);
    }
  }

  /** The index in the table of what stands at `j` once entry `i` is out. */
  function Past(i: nat, j: nat): nat { if j < i then j else j + 1 }

  lemma DroppedAt(slots: seq<Slot>, i: nat, j: nat)
    requires i < |slots| && j < |slots| - 1
    ensures var moved := Shifted(slots, slots[i].at, slots[i].size);
            (moved[..i] + moved[i + 1..])[j] == Shift(slots[Past(i, j)], slots[i].at, slots[i].size)
  {
  }

  lemma ShiftFits(gone: Slot, s: Slot, off: nat)
    requires Apart(gone, s) && 0 < gone.size && 0 < s.size
    requires gone.at + gone.size <= off && s.at + s.size <= off
    ensures var t := Shift(s, gone.at, gone.size); t.at + t.size <= off - gone.size && t.size == s.size
  {
  }

  lemma DroppedContent(slots: seq<Slot>, off: nat, data: seq<byte>, i: nat)
    requires Tiles(slots, off) && off <= |data| && i < |slots|
    ensures var moved, list := Shifted(slots, slots[i].at, slots[i].size), Content(slots, data);
            Content(moved[..i] + moved[i + 1..], Moved(data, slots[i].at, slots[i].size, off))
            == list[..i] + list[i + 1..]
  {
    hide Tiles, Moved, Shift, Reads, Shifted;
    RemoveOk(slots, off, i);
    var gone, list := slots[i], Content(slots, data);
    var moved, data' := Shifted(slots, gone.at, gone.size), Moved(data, gone.at, gone.size, off);
    var after := moved[..i] + moved[i + 1..];
    forall j | 0 <= j < |after|
      ensures Reads(after[j], data') == (list[..i] + list[i + 1..])[j]
    {
      DroppedAt(slots, i, j);
      AllApart(slots, off, i, Past(i, j));
      ShiftReads(gone, slots[Past(i, j)], off, data);
    }
  }
}
