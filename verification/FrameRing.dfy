/**
 * The storage shared by the two capture queues
 * (client_processing/core/client_processing_queues.c): a ring of slot records
 * over a second ring of bytes. The class refines a plain FIFO of payloads.
 */
module FrameRing {
  import opened Bytes

  datatype Slot<M> = Slot(offset: nat, size: nat, meta: M)

  datatype Entry<M> = Entry(payload: seq<byte>, meta: M)

  /** All queued bytes, oldest first. */
  function Flat<M>(q: seq<Entry<M>>): (r: seq<byte>) {
    if q == [] then [] else q[0].payload + Flat(q[1..])
  }

  lemma {:induction false} FlatAppend<M>(q: seq<Entry<M>>, e: Entry<M>)
    ensures Flat(q + [e]) == Flat(q) + e.payload
  {
    if q == [] {
      assert (q + [e])[1..] == [];
    } else {
      assert (q + [e])[1..] == q[1..] + [e];
      FlatAppend(q[1..], e);
    }
  }

  /** C's `x % n` on unsigned operands (WrapIsMod), by repeated subtraction. */
  function Wrap(x: nat, n: nat): (r: nat)
    requires 0 < n
    ensures r < n
  {
    if x < n then x else Wrap(x - n, n)
  }

  lemma {:induction false} WrapIsMod(x: nat, n: nat)
    requires 0 < n
    ensures Wrap(x, n) == x % n
  {
    if x >= n {
      WrapIsMod(x - n, n);
      RemainderUnique(x, n, (x - n) / n + 1, (x - n) % n);
    } else {
      RemainderUnique(x, n, 0, x);
    }
  }

  lemma RemainderUnique(x: nat, n: nat, q: nat, r: nat)
    requires r < n && x == n * q + r
    ensures x % n == r
  {
    var d := x / n - q;
    assert n * d == r - x % n;
    if d != 0 {
      assert false;
    }
  }

  lemma {:induction false} WrapAdd(a: nat, b: nat, n: nat)
    requires 0 < n
    ensures Wrap(Wrap(a, n) + b, n) == Wrap(a + b, n)
  {
    if a >= n {
      WrapAdd(a - n, b, n);
    }
  }

  /** Two positions of one stream that are less than a lap apart share no ring cell. */
  lemma {:induction false} DistinctCells(p: nat, q: nat, n: nat)
    requires 0 < n && p < q < p + n
    ensures Wrap(p, n) != Wrap(q, n)
  {
    if p >= n {
      DistinctCells(p - n, q - n, n);
    }
  }

  /** How many cells after `offset` the cell `j` lies, going round the ring. */
  function Distance(offset: nat, j: nat, n: nat): (d: nat)
    requires offset < n && j < n
    ensures d < n && Wrap(offset + d, n) == j
  {
    if j >= offset then j - offset else j - offset + n
  }

  /** `after` is `before` with `x` stored from `offset` on, round the ring. */
  ghost predicate Wrote(before: seq<byte>, after: seq<byte>, offset: nat, x: seq<byte>)
    requires offset < |before|
  {
    && |after| == |before| && |x| <= |before|
    && (forall k :: 0 <= k < |x| ==> after[Wrap(offset + k, |before|)] == x[k])
    && (forall j :: 0 <= j < |before| && Distance(offset, j, |before|) >= |x| ==> after[j] == before[j])
  }

  /** The byte ring holds the stream `s` from stream position `base` on. */
  ghost predicate BytesHold(storage: seq<byte>, base: nat, s: seq<byte>) {
    && 0 < |storage| && |s| <= |storage|
    && forall p :: 0 <= p < |s| ==> storage[Wrap(base + p, |storage|)] == s[p]
  }

  /** A cell `p` held before position `k` is not reached by writing `size` bytes from `k` on. */
  lemma FarCell(base: nat, p: nat, k: nat, size: nat, n: nat)
    requires p < k && k + size <= n
    ensures Distance(Wrap(base + k, n), Wrap(base + p, n), n) >= size
  {
    var d := Distance(Wrap(base + k, n), Wrap(base + p, n), n);
    WrapAdd(base + k, d, n);
    if d < size {
      DistinctCells(base + p, base + k + d, n);
    }
  }

  lemma BytesAppend(before: seq<byte>, after: seq<byte>, base: nat, s: seq<byte>, x: seq<byte>)
    requires BytesHold(before, base, s) && |s| + |x| <= |before|
    requires Wrote(before, after, Wrap(base + |s|, |before|), x)
    ensures BytesHold(after, base, s + x)
  {
    var n := |before|;
    forall p | 0 <= p < |s + x| ensures after[Wrap(base + p, n)] == (s + x)[p] {
      if p < |s| {
        FarCell(base, p, |s|, |x|, n);
        assert before[Wrap(base + p, n)] == s[p];
      } else {
        WrapAdd(base + |s|, p - |s|, n);
        assert base + |s| + (p - |s|) == base + p;
      }
    }
  }

  lemma BytesDrop(storage: seq<byte>, base: nat, s: seq<byte>, k: nat)
    requires BytesHold(storage, base, s) && k <= |s|
    ensures BytesHold(storage, base + k, s[k..])
  {
    forall p | 0 <= p < |s| - k ensures storage[Wrap(base + k + p, |storage|)] == s[k..][p] {
      assert base + (k + p) == base + k + p;
      assert storage[Wrap(base + (k + p), |storage|)] == s[k + p];
    }
  }

  /** The record of entry `i` of `q`, whose bytes start at stream position `base`. */
  ghost function Record<M>(q: seq<Entry<M>>, i: nat, base: nat, n: nat): Slot<M>
    requires i < |q| && 0 < n
  {
    Slot(Wrap(base + |Flat(q[..i])|, n), |q[i].payload|, q[i].meta)
  }

  /** The slot ring holds the records of `q`, oldest at `head`. */
  ghost predicate SlotsHold<M>(slots: seq<Slot<M>>, head: nat, base: nat, n: nat, q: seq<Entry<M>>) {
    && 0 < n && head < |slots| && |q| <= |slots|
    && forall i :: 0 <= i < |q| ==> slots[Wrap(head + i, |slots|)] == Record(q, i, base, n)
  }

  lemma SlotsAppend<M>(slots: seq<Slot<M>>, head: nat, base: nat, n: nat, q: seq<Entry<M>>, e: Entry<M>)
    requires SlotsHold(slots, head, base, n, q) && |q| < |slots|
    ensures SlotsHold(slots[Wrap(head + |q|, |slots|) := Slot(Wrap(base + |Flat(q)|, n), |e.payload|, e.meta)],
                      head, base, n, q + [e])
  {
    var slots' := slots[Wrap(head + |q|, |slots|) := Slot(Wrap(base + |Flat(q)|, n), |e.payload|, e.meta)];
    forall i | 0 <= i < |q + [e]|
      ensures slots'[Wrap(head + i, |slots|)] == Record(q + [e], i, base, n)
    {
      assert (q + [e])[..i] == q[..i];
      if i < |q| {
        DistinctCells(head + i, head + |q|, |slots|);
        assert slots[Wrap(head + i, |slots|)] == Record(q, i, base, n);
      } else {
        assert q[..i] == q;
      }
    }
  }

  lemma SlotsDrop<M>(slots: seq<Slot<M>>, head: nat, base: nat, n: nat, q: seq<Entry<M>>, zero: Slot<M>)
    requires SlotsHold(slots, head, base, n, q) && q != []
    ensures SlotsHold(slots[head := zero], Wrap(head + 1, |slots|), base + |q[0].payload|, n, q[1..])
  {
    var rest, base' := q[1..], base + |q[0].payload|;
    forall i | 0 <= i < |rest|
      ensures slots[head := zero][Wrap(Wrap(head + 1, |slots|) + i, |slots|)] == Record(rest, i, base', n)
    {
      WrapAdd(head + 1, i, |slots|);
      assert head + (i + 1) == head + 1 + i;
      DistinctCells(head, head + 1 + i, |slots|);
      assert q[..i + 1][1..] == rest[..i];
      assert slots[Wrap(head + (i + 1), |slots|)] == Record(q, i + 1, base, n);
    }
  }

  lemma RingSizes<M>(slots: seq<Slot<M>>, head: nat, base: nat, storage: seq<byte>, q: seq<Entry<M>>)
    requires SlotsHold(slots, head, base, |storage|, q) && BytesHold(storage, base, Flat(q))
    ensures head < |slots| && 0 < |storage| && |Flat(q)| <= |storage|
    ensures q != [] ==> Flat(q) == q[0].payload + Flat(q[1..])
  {
  }

  lemma HeadRecord<M>(slots: seq<Slot<M>>, head: nat, base: nat, n: nat, q: seq<Entry<M>>)
    requires SlotsHold(slots, head, base, n, q) && q != []
    ensures 0 < n && head < |slots| && slots[head] == Slot(Wrap(base, n), |q[0].payload|, q[0].meta)
  {
    assert Wrap(head + 0, |slots|) == head;
    assert slots[Wrap(head + 0, |slots|)] == Record(q, 0, base, n);
  }

  lemma EmptyHolds<M>(slots: seq<Slot<M>>, storage: seq<byte>)
    requires 0 < |slots| && 0 < |storage|
    ensures Flat<M>([]) == [] && Wrap(0, |storage|) == 0
    ensures SlotsHold(slots, 0, 0, |storage|, []) && BytesHold(storage, 0, [])
  {
  }

  lemma HeadBytes(storage: seq<byte>, base: nat, s: seq<byte>, x: seq<byte>)
    requires BytesHold(storage, base, s) && |x| <= |s|
    requires forall k :: 0 <= k < |x| ==> x[k] == storage[Wrap(Wrap(base, |storage|) + k, |storage|)]
    ensures x == s[..|x|]
  {
    forall k | 0 <= k < |x| ensures x[k] == s[k] {
      WrapAdd(base, k, |storage|);
      assert storage[Wrap(base + k, |storage|)] == s[k];
    }
  }

  /** turbo_client_processing_ring_copy_in: two straight copies around the wrap. */
  method CopyIn(storage: array<byte>, offset: nat, source: seq<byte>)
    requires offset < storage.Length && |source| <= storage.Length
    modifies storage
    ensures Wrote(old(storage[..]), storage[..], offset, source)
  {
    if |source| == 0 { return; }
    var first := storage.Length - offset;
    if first > |source| { first := |source|; }
    forall k | 0 <= k < first { storage[offset + k] := source[k]; }
    if first < |source| {
      forall k | 0 <= k < |source| - first { storage[k] := source[first + k]; }
    }
    forall k | 0 <= k < |source|
      ensures storage[Wrap(offset + k, storage.Length)] == source[k]
    {
      if k < first {
        assert Wrap(offset + k, storage.Length) == offset + k;
      } else {
        assert Wrap(offset + k, storage.Length) == k - first;
      }
    }
  }

  /** turbo_client_processing_ring_copy_out. */
  method CopyOut(destination: array<byte>, storage: array<byte>, offset: nat, size: nat)
    requires destination != storage
    requires offset < storage.Length && size <= storage.Length && size <= destination.Length
    modifies destination
    ensures forall k :: 0 <= k < size ==> destination[k] == storage[Wrap(offset + k, storage.Length)]
    ensures destination[size..] == old(destination[size..])
  {
    if size == 0 { return; }
    var first := storage.Length - offset;
    if first > size { first := size; }
    forall k | 0 <= k < first { destination[k] := storage[offset + k]; }
    if first < size {
      forall k | 0 <= k < size - first { destination[first + k] := storage[k]; }
    }
    forall k | 0 <= k < size
      ensures destination[k] == storage[Wrap(offset + k, storage.Length)]
    {
      if k < first {
        assert Wrap(offset + k, storage.Length) == offset + k;
      } else {
        assert destination[first + (k - first)] == storage[k - first];
        assert Wrap(offset + k, storage.Length) == k - first;
      }
    }
  }

  class Ring<M(0)> {
    const slots: array<Slot<M>>
    const storage: array<byte>
    const zero: M
    var head: nat
    var tail: nat
    var count: nat
    var bytes: nat

    /** The abstract queue, oldest entry first. */
    ghost var Contents: seq<Entry<M>>
    /** Position of the oldest byte in the stream of bytes stored since the last reset. */
    ghost var base: nat

    ghost predicate Valid()
      reads this, slots, storage
    {
      && SlotsHold(slots[..], head, base, storage.Length, Contents)
      && BytesHold(storage[..], base, Flat(Contents))
      && count == |Contents| && bytes == |Flat(Contents)|
      && tail == Wrap(base + bytes, storage.Length)
    }

    constructor (capacity: nat, maxBytes: nat, zero: M)
      requires 0 < capacity && 0 < maxBytes
      ensures Valid() && Contents == []
      ensures slots.Length == capacity && storage.Length == maxBytes
      ensures fresh(slots) && fresh(storage)
    {
      slots := new Slot<M>[capacity](_ => Slot(0, 0, zero));
      storage := new byte[maxBytes];
      this.zero := zero;
      head, tail, count, bytes := 0, 0, 0, 0;
      Contents, base := [], 0;
    }

    /** The oldest and the newest record, as the admission checks read them. */
    method Ends() returns (oldest: Slot<M>, newest: Slot<M>)
      requires Valid() && Contents != []
      ensures oldest.meta == Contents[0].meta && oldest.size == |Contents[0].payload|
      ensures newest.meta == Contents[|Contents| - 1].meta
    {
      assert Wrap(head + 0, slots.Length) == head;
      assert slots[..][Wrap(head + (count - 1), slots.Length)] == Record(Contents, count - 1, base, storage.Length);
      assert slots[..][Wrap(head + 0, slots.Length)] == Record(Contents, 0, base, storage.Length);
      oldest := slots[head];
      newest := slots[Wrap(head + count - 1, slots.Length)];
    }

    /** The tail half of both admit functions: copy the bytes, fill the slot, advance. */
    method Append(payload: seq<byte>, meta: M)
      requires Valid()
      requires count < slots.Length && |payload| <= storage.Length - bytes
      modifies this, slots, storage
      ensures Valid()
      ensures Contents == old(Contents) + [Entry(payload, meta)]
    {
      hide SlotsHold, BytesHold, Wrote, Flat;
      RingSizes(slots[..], head, base, storage[..], Contents);
      ghost var e := Entry(payload, meta);
      SlotsAppend(slots[..], head, base, storage.Length, Contents, e);
      FlatAppend(Contents, e);
      CopyIn(storage, tail, payload);
      BytesAppend(old(storage[..]), storage[..], base, Flat(Contents), payload);
      var slotIndex := Wrap(head + count, slots.Length);
      slots[slotIndex] := Slot(tail, |payload|, meta);
      assert slots[..] == old(slots[..])[slotIndex := Slot(old(tail), |payload|, meta)];
      WrapAdd(base + bytes, |payload|, storage.Length);
      tail := Wrap(tail + |payload|, storage.Length);
      count := count + 1;
      bytes := bytes + |payload|;
      Contents := Contents + [e];
    }

    /** Copies the oldest payload out. */
    method CopyHead(destination: array<byte>)
      requires Valid() && Contents != []
      requires destination != storage && |Contents[0].payload| <= destination.Length
      modifies destination
      ensures destination[..] == Contents[0].payload + old(destination[..])[|Contents[0].payload|..]
    {
      hide SlotsHold, BytesHold, Flat;
      RingSizes(slots[..], head, base, storage[..], Contents);
      HeadRecord(slots[..], head, base, storage.Length, Contents);
      var slot := slots[head];
      CopyOut(destination, storage, slot.offset, slot.size);
      HeadBytes(storage[..], base, Flat(Contents), destination[..slot.size]);
      assert destination[..] == destination[..slot.size] + destination[slot.size..];
      assert old(destination[..])[slot.size..] == old(destination[slot.size..]);
    }

    /** Zeroes the oldest slot and advances, and resets the ring when it is empty. */
    method Advance()
      requires Valid() && Contents != []
      modifies this, slots
      ensures Valid() && Contents == old(Contents)[1..]
    {
      hide SlotsHold, BytesHold, Flat;
      ghost var s := Flat(Contents);
      RingSizes(slots[..], head, base, storage[..], Contents);
      HeadRecord(slots[..], head, base, storage.Length, Contents);
      var slot := slots[head];
      BytesDrop(storage[..], base, s, slot.size);
      SlotsDrop(slots[..], head, base, storage.Length, Contents, Slot(0, 0, zero));
      bytes := bytes - slot.size;
      slots[head] := Slot(0, 0, zero);
      assert slots[..] == old(slots[..])[head := Slot(0, 0, zero)];
      head := Wrap(head + 1, slots.Length);
      count := count - 1;
      Contents, base := Contents[1..], base + slot.size;
      assert Flat(Contents) == s[slot.size..];
      if count == 0 {
        EmptyHolds(slots[..], storage[..]);
        head, tail, base := 0, 0, 0;
      }
    }

    /** The tail half of both pop functions: copy out, zero the slot, advance, reset when empty. */
    method RemoveHead(destination: array<byte>)
      requires Valid() && Contents != []
      requires destination != storage && |Contents[0].payload| <= destination.Length
      modifies this, slots, destination
      ensures Valid()
      ensures Contents == old(Contents)[1..]
      ensures destination[..] == old(Contents[0].payload) + old(destination[|Contents[0].payload|..])
    {
      hide SlotsHold, BytesHold, Flat, Wrap;
      CopyHead(destination);
      assert old(destination[..])[|Contents[0].payload|..] == old(destination[|Contents[0].payload|..]);
      Advance();
    }

    /** turbo_client_processing_queue_clear_locked and audio_clear_locked. */
    method Clear()
      requires Valid()
      modifies this, slots
      ensures Valid() && Contents == []
    {
      forall i | 0 <= i < slots.Length { slots[i] := Slot(0, 0, zero); }
      head, tail, count, bytes := 0, 0, 0, 0;
      Contents, base := [], 0;
    }
  }
}
