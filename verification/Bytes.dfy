/** Bytes and the fixed-width limits shared by every component. */
module Bytes {
  type byte = x: int | 0 <= x < 256

  const UINT16_MAX := 0xFFFF
  const UINT32_MAX := 0xFFFF_FFFF
  const UINT64_MAX := 0xFFFF_FFFF_FFFF_FFFF

  datatype Option<+T> = None | Some(value: T)

  /** Concatenation of a sequence of byte strings, first one first. */
  function Concat(parts: seq<seq<byte>>): (r: seq<byte>) {
    if parts == [] then [] else parts[0] + Concat(parts[1..])
  }

  lemma {:induction false} ConcatAppend(a: seq<seq<byte>>, b: seq<seq<byte>>)
    ensures Concat(a + b) == Concat(a) + Concat(b)
  {
    if a == [] {
      assert a + b == b;
    } else {
      assert (a + b)[1..] == a[1..] + b;
      ConcatAppend(a[1..], b);
    }
  }

  lemma ConcatSingle(x: seq<byte>)
    ensures Concat([x]) == x
  {
    assert Concat([x][1..]) == [];
  }

  /** Stores `x` into `a` from `at` on, as memcpy does. */
  method CopyTo(a: array<byte>, at: nat, x: seq<byte>)
    requires at + |x| <= a.Length
    modifies a
    ensures a[..at + |x|] == old(a[..at]) + x
    ensures a[at + |x|..] == old(a[at + |x|..])
  {
    forall i | 0 <= i < |x| { a[at + i] := x[i]; }
    assert a[..at] == old(a[..at]);
    assert a[at..at + |x|] == x;
    assert a[..at + |x|] == a[..at] + a[at..at + |x|];
  }
}
