/** What the parameter-set list keeps through any sequence of updates. */
module HevcRuns {
  import opened Bytes
  import opened HevcArena
  import opened HevcIds

  predicate Bounded(list: seq<Entry>) { |list| <= MAX_SLOTS && Total(list) <= CAPACITY }

  lemma {:induction false} TotalUpdate(list: seq<Entry>, i: nat, e: Entry)
    requires i < |list|
    ensures Total(list[i := e]) == Total(list) - |list[i].bytes| + |e.bytes|
  {
    if i == 0 {
      assert list[i := e][1..] == list[1..];
    } else {
      assert list[i := e][1..] == list[1..][i - 1 := e];
      TotalUpdate(list[1..], i - 1, e);
    }
  }

  lemma {:induction false} TotalAppend(list: seq<Entry>, e: Entry)
    ensures Total(list + [e]) == Total(list) + |e.bytes|
  {
    if list == [] {
      assert (list + [e])[1..] == [];
    } else {
      assert (list + [e])[1..] == list[1..] + [e];
      TotalAppend(list[1..], e);
    }
  }

  lemma CopyKeepsBounds(list: seq<Entry>, ty: byte, nalu: seq<byte>, least: nat, ids: Ids)
    requires Bounded(list)
    ensures Bounded(CopySet(list, ty, nalu, least, ids).0)
  {
    var i := Find(list, ty, nalu, ids, CAPACITY - Total(list));
    if i < |list| {
      TotalUpdate(list, i, Entry(list[i].ty, nalu));
    } else {
      TotalAppend(list, Entry(ty, nalu));
    }
  }

  lemma UpdateKeepsBounds(list: seq<Entry>, nalu: seq<byte>, ids: Ids, keepSei: bool)
    requires nalu != [] && Bounded(list)
    ensures Bounded(UpdateList(list, nalu, ids, keepSei).0)
  {
    hide CopySet;
    var ty: byte := nalu[0] / 2 % 64;
    if ty == VPS {
      CopyKeepsBounds(WithoutSei(list), VPS, nalu, 3, ids);
    } else if ty == SPS {
      CopyKeepsBounds(list, SPS, nalu, 15, ids);
    } else if ty == PPS {
      CopyKeepsBounds(list, PPS, nalu, 3, ids);
    } else {
      TotalAppend(list, Entry(ty, nalu));
    }
  }

  /** Two sets of one type whose ids, parsed with all the scratch space needed, are the same. */
  predicate SameSet(a: Entry, b: Entry, ids: Ids) {
    a.ty == b.ty && ids(a.ty, a.bytes, SCRATCH) == ids(b.ty, b.bytes, SCRATCH)
  }

  /** At most one parameter set for each type and ids. */
  predicate OnePerId(list: seq<Entry>, ids: Ids) {
    forall i, j :: 0 <= i < j < |list| && !IsSei(list[i].ty) ==> !SameSet(list[i], list[j], ids)
  }

  lemma {:induction false} WithoutSeiWithin(list: seq<Entry>, e: Entry)
    requires e in WithoutSei(list)
    ensures e in list
  {
    if e != list[0] {
      assert e in WithoutSei(list[1..]);
      WithoutSeiWithin(list[1..], e);
    }
  }

  lemma {:induction false} WithoutSeiOnePerId(list: seq<Entry>, ids: Ids)
    requires OnePerId(list, ids)
    ensures OnePerId(WithoutSei(list), ids)
  {
    if list != [] {
      var rest := WithoutSei(list[1..]);
      WithoutSeiOnePerId(list[1..], ids);
      forall j | 0 <= j < |rest| && !IsSei(list[0].ty) ensures !SameSet(list[0], rest[j], ids) {
        WithoutSeiWithin(list[1..], rest[j]);
        var k :| 0 <= k < |list[1..]| && list[1..][k] == rest[j];
        assert list[k + 1] == rest[j];
      }
    }
  }

  /** No other entry than `i` is the same set as `e`. */
  predicate OnlyAt(list: seq<Entry>, i: nat, e: Entry, ids: Ids) {
    forall j :: 0 <= j < |list| && j != i ==> !SameSet(list[j], e, ids)
  }

  lemma OnlyAtIff(list: seq<Entry>, i: nat, ty: byte, nalu: seq<byte>, ids: Ids)
    requires OnePerId(list, ids) && !IsSei(ty)
    ensures var t := Find(list, ty, nalu, ids, SCRATCH);
            OnlyAt(list, i, Entry(ty, nalu), ids) <==> t == |list| || t == i
  {
    var t, e := Find(list, ty, nalu, ids, SCRATCH), Entry(ty, nalu);
    if t < |list| {
      assert SameSet(list[t], e, ids);
      forall j | 0 <= j < |list| && j != t ensures !SameSet(list[j], e, ids) {
        assert j > t ==> !SameSet(list[t], list[j], ids);
      }
    }
  }

  lemma ReplacedIff(list: seq<Entry>, i: nat, e: Entry, ids: Ids)
    requires OnePerId(list, ids) && i < |list| && !IsSei(e.ty)
    ensures OnePerId(list[i := e], ids) <==> OnlyAt(list, i, e, ids)
  {
    var list' := list[i := e];
    assert forall j :: 0 <= j < |list| ==> list'[j] == if j == i then e else list[j];
    if OnePerId(list', ids) {
      forall j | 0 <= j < |list| && j != i ensures !SameSet(list[j], e, ids) {
        assert if j < i then list'[j].ty == e.ty ==> !SameSet(list'[j], list'[i], ids) else !SameSet(list'[i], list'[j], ids);
      }
    }
    if OnlyAt(list, i, e, ids) {
      forall a, b | 0 <= a < b < |list'| && !IsSei(list'[a].ty) ensures !SameSet(list'[a], list'[b], ids) {
        if a != i && b != i { assert !SameSet(list[a], list[b], ids); }
      }
    }
  }

  lemma AppendedIff(list: seq<Entry>, e: Entry, ids: Ids)
    requires OnePerId(list, ids) && !IsSei(e.ty)
    ensures OnePerId(list + [e], ids) <==> OnlyAt(list, |list|, e, ids)
  {
    var list' := list + [e];
    assert list'[|list|] == e && forall j :: 0 <= j < |list| ==> list'[j] == list[j];
    if OnePerId(list', ids) {
      forall j | 0 <= j < |list| ensures !SameSet(list[j], e, ids) {
        assert list'[j].ty == e.ty ==> !SameSet(list'[j], list'[|list|], ids);
      }
    }
  }

  /**
   * Exactly when storing a set keeps the sets distinct: the entry found with the scratch space
   * that is left is the one found with enough of it, or no entry is.
   */
  lemma CopyKeepsDistinctIff(list: seq<Entry>, ty: byte, nalu: seq<byte>, least: nat, ids: Ids)
    requires OnePerId(list, ids) && Total(list) <= CAPACITY && !IsSei(ty)
    requires CopySet(list, ty, nalu, least, ids).1 == 1
    ensures var found, right := Find(list, ty, nalu, ids, CAPACITY - Total(list)), Find(list, ty, nalu, ids, SCRATCH);
            OnePerId(CopySet(list, ty, nalu, least, ids).0, ids) <==> right == |list| || right == found
  {
    hide OnePerId, OnlyAt, Total;
    var i, e := Find(list, ty, nalu, ids, CAPACITY - Total(list)), Entry(ty, nalu);
    OnlyAtIff(list, i, ty, nalu, ids);
    if i < |list| {
      ReplacedIff(list, i, e, ids);
    } else {
      AppendedIff(list, e, ids);
    }
  }

  lemma {:induction false} FindStable(list: seq<Entry>, ty: byte, nalu: seq<byte>, ids: Ids, room: nat)
    requires Stable(ids) && room >= SCRATCH
    ensures Find(list, ty, nalu, ids, room) == Find(list, ty, nalu, ids, SCRATCH)
  {
    if list != [] { FindStable(list[1..], ty, nalu, ids, room); }
  }

  lemma CopyOnePerId(list: seq<Entry>, ty: byte, nalu: seq<byte>, least: nat, ids: Ids)
    requires Stable(ids) && OnePerId(list, ids) && Total(list) + SCRATCH <= CAPACITY && !IsSei(ty)
    ensures OnePerId(CopySet(list, ty, nalu, least, ids).0, ids)
  {
    hide OnePerId, Total, Stable;
    FindStable(list, ty, nalu, ids, CAPACITY - Total(list));
    if CopySet(list, ty, nalu, least, ids).1 == 1 {
      CopyKeepsDistinctIff(list, ty, nalu, least, ids);
    }
  }

  lemma AddSeiOnePerId(list: seq<Entry>, ty: byte, nalu: seq<byte>, ids: Ids)
    requires OnePerId(list, ids) && IsSei(ty)
    ensures OnePerId(Add(list, ty, nalu).0, ids)
  {
    var list' := Add(list, ty, nalu).0;
    forall a, b | 0 <= a < b < |list'| && !IsSei(list'[a].ty) ensures !SameSet(list'[a], list'[b], ids) {
      if b < |list| { assert !SameSet(list[a], list[b], ids); }
    }
  }

  lemma UpdateOnePerId(list: seq<Entry>, nalu: seq<byte>, ids: Ids, keepSei: bool)
    requires Stable(ids) && OnePerId(list, ids) && nalu != [] && Total(list) + SCRATCH <= CAPACITY
    ensures OnePerId(UpdateList(list, nalu, ids, keepSei).0, ids)
  {
    hide CopySet, Stable, OnePerId, Add;
    var ty: byte := nalu[0] / 2 % 64;
    if ty == VPS {
      WithoutSeiOnePerId(list, ids);
      CopyOnePerId(WithoutSei(list), VPS, nalu, 3, ids);
    } else if ty == SPS {
      CopyOnePerId(list, SPS, nalu, 15, ids);
    } else if ty == PPS {
      CopyOnePerId(list, PPS, nalu, 3, ids);
    } else if keepSei && IsSei(ty) {
      AddSeiOnePerId(list, ty, nalu, ids);
    }
  }

  /**
   * What an update means to a reader of the list: a refusal changes nothing, otherwise the new
   * set is there, and every set of another type or other ids is still there.
   */
  lemma CopyTakesEffect(list: seq<Entry>, ty: byte, nalu: seq<byte>, least: nat, ids: Ids, e: Entry)
    requires Total(list) <= CAPACITY && e in list
    ensures var (list', r) := CopySet(list, ty, nalu, least, ids);
            var room := CAPACITY - Total(list);
            && (r < 0 ==> list' == list) && (r >= 0 ==> Entry(ty, nalu) in list')
            && (!(e.ty == ty && ids(ty, e.bytes, room) == ids(ty, nalu, room)) ==> e in list')
  {
    var (list', r) := CopySet(list, ty, nalu, least, ids);
    var i := Find(list, ty, nalu, ids, CAPACITY - Total(list));
    var k :| 0 <= k < |list| && list[k] == e;
    if r >= 0 && i < |list| {
      assert list'[i] == Entry(ty, nalu);
      if k != i { assert list'[k] == e; }
    } else if r >= 0 {
      assert list'[|list|] == Entry(ty, nalu) && list'[k] == e;
    }
  }

  // ---- What an update means, by the type of the unit ---------------------------------------

  /** No SEI entry is left, every other entry is, and the order is kept. */
  lemma {:induction false} SeiDropped(a: seq<Entry>, b: seq<Entry>, e: Entry)
    ensures WithoutSei(a + b) == WithoutSei(a) + WithoutSei(b)
    ensures WithoutSei([e]) == if e.ty == 39 || e.ty == 40 then [] else [e]
    decreases |a|
  {
    assert [e][1..] == [];
    if a == [] {
      assert a + b == b;
    } else {
      assert (a + b)[1..] == a[1..] + b;
      SeiDropped(a[1..], b, e);
    }
  }

  /** Entry `i` is the first that is taken for the set: same type, same ids with the room that is left. */
  predicate FirstMatch(list: seq<Entry>, i: nat, ty: byte, nalu: seq<byte>, ids: Ids, room: nat) {
    && i < |list| && list[i].ty == ty && ids(ty, list[i].bytes, room) == ids(ty, nalu, room)
    && forall j :: 0 <= j < i ==> !(list[j].ty == ty && ids(ty, list[j].bytes, room) == ids(ty, nalu, room))
  }

  lemma FindIsFirst(list: seq<Entry>, ty: byte, nalu: seq<byte>, ids: Ids, room: nat, i: nat)
    requires i < |list|
    ensures FirstMatch(list, i, ty, nalu, ids, room) <==> Find(list, ty, nalu, ids, room) == i
  {
  }

  /**
   * Storing a parameter set: too short a unit is refused; a set taken for an entry replaces it
   * in place, unless it is the same or there is no room; any other set is appended if it fits.
   */
  ghost predicate SetStored(list: seq<Entry>, list': seq<Entry>, r: int, ty: byte, nalu: seq<byte>, least: nat, ids: Ids)
    requires Total(list) <= CAPACITY
  {
    var room := CAPACITY - Total(list);
    if |nalu| < least then list' == list && r == -1
    else
      && (forall i :: 0 <= i < |list| && FirstMatch(list, i, ty, nalu, ids, room) ==>
            if list[i].bytes == nalu then list' == list && r == 0
            else if Total(list) - |list[i].bytes| + |nalu| > 4096 then list' == list && r == -1
            else list' == list[i := Entry(ty, nalu)] && r == 1)
      && ((forall i :: 0 <= i < |list| ==> !FirstMatch(list, i, ty, nalu, ids, room)) ==>
            if |list| >= 64 || Total(list) + |nalu| > 4096 then list' == list && r == -1
            else list' == list + [Entry(ty, nalu)] && r == 1)
  }

  lemma CopyStores(list: seq<Entry>, ty: byte, nalu: seq<byte>, least: nat, ids: Ids)
    requires Total(list) <= CAPACITY
    ensures SetStored(list, CopySet(list, ty, nalu, least, ids).0, CopySet(list, ty, nalu, least, ids).1, ty, nalu, least, ids)
  {
    hide FirstMatch, Total;
    var room := CAPACITY - Total(list);
    forall i | 0 <= i < |list|
      ensures FirstMatch(list, i, ty, nalu, ids, room) <==> Find(list, ty, nalu, ids, room) == i
    {
      FindIsFirst(list, ty, nalu, ids, room, i);
    }
    var k := Find(list, ty, nalu, ids, room);
    if k < |list| { assert FirstMatch(list, k, ty, nalu, ids, room); }
  }

  /**
   * What a unit does to the list, by its type: video, sequence and picture parameter sets are
   * stored, the first of them after dropping all SEI entries; SEI units are appended in builds
   * that keep them; everything else leaves the list alone.
   */
  lemma UpdateLaw(list: seq<Entry>, nalu: seq<byte>, ids: Ids, keepSei: bool)
    requires nalu != [] && Total(list) <= CAPACITY
    ensures var (list', r), ty: byte := UpdateList(list, nalu, ids, keepSei), nalu[0] / 2 % 64;
            if ty == 32 then SetStored(WithoutSei(list), list', r, ty, nalu, 3, ids)
            else if ty == 33 then SetStored(list, list', r, ty, nalu, 15, ids)
            else if ty == 34 then SetStored(list, list', r, ty, nalu, 3, ids)
            else if keepSei && (ty == 39 || ty == 40)
            then if |list| < 64 && Total(list) + |nalu| <= 4096 then list' == list + [Entry(ty, nalu)] && r == 1
                 else list' == list && r == -1
            else list' == list && r == 0
  {
    hide CopySet, SetStored, Total, WithoutSei;
    var ty: byte := nalu[0] / 2 % 64;
    if ty == 32 {
      CopyStores(WithoutSei(list), VPS, nalu, 3, ids);
    } else if ty == 33 {
      CopyStores(list, SPS, nalu, 15, ids);
    } else if ty == 34 {
      CopyStores(list, PPS, nalu, 3, ids);
    }
  }

  /** After any accepted parameter set a reader finds it, and still finds every set it was not taken for. */
  lemma UpdateTakesEffect(list: seq<Entry>, nalu: seq<byte>, ids: Ids, keepSei: bool, e: Entry)
    requires nalu != [] && Total(list) <= CAPACITY && 32 <= nalu[0] / 2 % 64 <= 34
    requires e in list && e.ty != 39 && e.ty != 40
    ensures var (list', r), ty: byte := UpdateList(list, nalu, ids, keepSei), nalu[0] / 2 % 64;
            var kept := if ty == 32 then WithoutSei(list) else list;
            && (r >= 0 ==> Entry(ty, nalu) in list') && (r < 0 ==> list' == kept)
            && (e.ty != ty || ids(ty, e.bytes, CAPACITY - Total(kept)) != ids(ty, nalu, CAPACITY - Total(kept)) ==> e in list')
  {
    hide CopySet, Total, WithoutSei;
    var ty: byte := nalu[0] / 2 % 64;
    if ty == 32 {
      KeptEntry(list, e);
      CopyTakesEffect(WithoutSei(list), VPS, nalu, 3, ids, e);
    } else if ty == 33 {
      CopyTakesEffect(list, SPS, nalu, 15, ids, e);
    } else {
      CopyTakesEffect(list, PPS, nalu, 3, ids, e);
    }
  }

  lemma {:induction false} KeptEntry(list: seq<Entry>, e: Entry)
    requires e in list && !IsSei(e.ty)
    ensures e in WithoutSei(list)
  {
    if e != list[0] {
      assert e in list[1..];
      KeptEntry(list[1..], e);
    }
  }

  /** The list after a sequence of updates. */
  function Run(list: seq<Entry>, nalus: seq<seq<byte>>, ids: Ids, keepSei: bool): (r: seq<Entry>)
    requires Bounded(list) && forall i :: 0 <= i < |nalus| ==> nalus[i] != []
    decreases |nalus|
  {
    if nalus == [] then list
    else
      UpdateKeepsBounds(list, nalus[0], ids, keepSei);
      Run(UpdateList(list, nalus[0], ids, keepSei).0, nalus[1..], ids, keepSei)
  }

  /** However the units come and the ids are parsed, the table stays in bounds. */
  lemma {:induction false} RunKeepsBounds(list: seq<Entry>, nalus: seq<seq<byte>>, ids: Ids, keepSei: bool)
    requires Bounded(list) && forall i :: 0 <= i < |nalus| ==> nalus[i] != []
    ensures Bounded(Run(list, nalus, ids, keepSei))
    decreases |nalus|
  {
    if nalus != [] {
      UpdateKeepsBounds(list, nalus[0], ids, keepSei);
      RunKeepsBounds(UpdateList(list, nalus[0], ids, keepSei).0, nalus[1..], ids, keepSei);
    }
  }

  /** Every update of the run starts with SCRATCH bytes to spare. */
  predicate RunHasRoom(list: seq<Entry>, nalus: seq<seq<byte>>, ids: Ids, keepSei: bool)
    requires Bounded(list) && forall i :: 0 <= i < |nalus| ==> nalus[i] != []
    decreases |nalus|
  {
    nalus == [] ||
    (Total(list) + SCRATCH <= CAPACITY
     && (UpdateKeepsBounds(list, nalus[0], ids, keepSei);
         RunHasRoom(UpdateList(list, nalus[0], ids, keepSei).0, nalus[1..], ids, keepSei)))
  }

  /** With that much room, no sequence of updates ever leaves two sets of one type and ids. */
  lemma {:induction false} RunKeepsDistinct(list: seq<Entry>, nalus: seq<seq<byte>>, ids: Ids, keepSei: bool)
    requires Bounded(list) && Stable(ids) && OnePerId(list, ids)
    requires (forall i :: 0 <= i < |nalus| ==> nalus[i] != []) && RunHasRoom(list, nalus, ids, keepSei)
    ensures OnePerId(Run(list, nalus, ids, keepSei), ids)
    decreases |nalus|
  {
    hide Stable, OnePerId, UpdateList;
    if nalus != [] {
      UpdateKeepsBounds(list, nalus[0], ids, keepSei);
      UpdateOnePerId(list, nalus[0], ids, keepSei);
      RunKeepsDistinct(UpdateList(list, nalus[0], ids, keepSei).0, nalus[1..], ids, keepSei);
    }
  }

  /** The same for the source's own decoder, whatever its bit parser makes of the decoded bytes. */
  lemma ParserKeepsDistinct(parser: Parser, nalus: seq<seq<byte>>, keepSei: bool)
    requires (forall i :: 0 <= i < |nalus| ==> nalus[i] != []) && RunHasRoom([], nalus, IdsOf(parser), keepSei)
    ensures OnePerId(Run([], nalus, IdsOf(parser), keepSei), IdsOf(parser))
  {
    IdsAreStable(parser);
    RunKeepsDistinct([], nalus, IdsOf(parser), keepSei);
  }

  // ---- A full arena confuses parameter sets ------------------------------------------------

  /** A video parameter set of 18 bytes with that id. */
  function Vps(id: nat, tag: byte): (r: seq<byte>)
    requires id < 16
    ensures |r| == 18
  {
    [64, 1, id * 16 + 1] + seq(14, _ => 1) + [tag]
  }

  /** A picture parameter set that leaves no byte free behind two of those. */
  function Filler(): (r: seq<byte>)
    ensures |r| == CAPACITY - 36
  {
    [68, 1] + seq(CAPACITY - 38, _ => 1)
  }

  lemma VpsIds(parser: Parser, id: nat, tag: byte, room: nat)
    requires ParsesVps(parser) && id < 16 && tag != 0 && (room >= 18 || room == 0)
    ensures IdsOf(parser)(VPS, Vps(id, tag), room) == (if room == 0 then 255 else id, 0)
  {
    var v := Vps(id, tag);
    RbspPlain(v, 0, room);
    assert v[0..] == v && v[2] == id * 16 + 1;
  }

  lemma {:induction false} WithoutSeiSame(list: seq<Entry>)
    requires forall i :: 0 <= i < |list| ==> !IsSei(list[i].ty)
    ensures WithoutSei(list) == list
  {
    if list != [] { WithoutSeiSame(list[1..]); }
  }

  /** A set of type VPS or PPS that no entry is taken for is appended. */
  lemma SetIsAdded(list: seq<Entry>, nalu: seq<byte>, ids: Ids)
    requires |list| < MAX_SLOTS && Total(list) + |nalu| <= CAPACITY && |nalu| >= 3 && (nalu[0] == 64 || nalu[0] == 68)
    requires forall i :: 0 <= i < |list| ==> !IsSei(list[i].ty)
    requires var ty: byte := nalu[0] / 2; Find(list, ty, nalu, ids, CAPACITY - Total(list)) == |list|
    ensures UpdateList(list, nalu, ids, false) == (list + [Entry(nalu[0] / 2, nalu)], 1)
    ensures Total(list + [Entry(nalu[0] / 2, nalu)]) == Total(list) + |nalu|
  {
    hide Find, Total, WithoutSei;
    WithoutSeiSame(list);
    TotalAppend(list, Entry(nalu[0] / 2, nalu));
  }

  /** The lists the four updates lead through. */
  function One(): (r: seq<Entry>) { [Entry(VPS, Vps(3, 1))] }
  function Two(): (r: seq<Entry>) { One() + [Entry(VPS, Vps(5, 1))] }
  function Three(): (r: seq<Entry>) { Two() + [Entry(PPS, Filler())] }

  lemma Heads(id: nat, tag: byte)
    requires id < 16
    ensures Vps(id, tag)[0] == 64 && Vps(id, tag)[17] == tag && Filler()[0] == 68
  {
  }

  lemma FirstAdded(parser: Parser)
    ensures Total([]) == 0 && UpdateList([], Vps(3, 1), IdsOf(parser), false) == (One(), 1) && Total(One()) == 18
  {
    hide IdsOf, Vps, UpdateList;
    Heads(3, 1);
    SetIsAdded([], Vps(3, 1), IdsOf(parser));
    assert [] + One() == One();
  }

  lemma SecondAdded(parser: Parser)
    requires ParsesVps(parser)
    ensures Total(One()) == 18 && UpdateList(One(), Vps(5, 1), IdsOf(parser), false) == (Two(), 1) && Total(Two()) == 36
  {
    hide IdsOf, Vps, UpdateList, ParsesVps, Total;
    var ids := IdsOf(parser);
    FirstAdded(parser);
    Heads(5, 1);
    VpsIds(parser, 3, 1, CAPACITY - 18);
    VpsIds(parser, 5, 1, CAPACITY - 18);
    assert Find(One(), VPS, Vps(5, 1), ids, CAPACITY - 18) == 1;
    SetIsAdded(One(), Vps(5, 1), ids);
  }

  lemma ThirdFills(parser: Parser)
    requires ParsesVps(parser)
    ensures UpdateList(Two(), Filler(), IdsOf(parser), false) == (Three(), 1) && Total(Three()) == CAPACITY
  {
    hide IdsOf, Vps, Filler, UpdateList, ParsesVps, Total;
    SecondAdded(parser);
    Heads(3, 1);
    assert Two()[0].ty == VPS && Two()[1].ty == VPS && |Two()| == 2;
    assert Find(Two(), PPS, Filler(), IdsOf(parser), CAPACITY - 36) == 2;
    SetIsAdded(Two(), Filler(), IdsOf(parser));
  }

  /** What is left after the fourth: two sets of id 5, none of id 3. */
  function Confused(): (r: seq<Entry>) { [Entry(VPS, Vps(5, 2)), Entry(VPS, Vps(5, 1)), Entry(PPS, Filler())] }

  lemma FourthReplaces(parser: Parser)
    requires ParsesVps(parser) && Total(Three()) == CAPACITY
    ensures UpdateList(Three(), Vps(5, 2), IdsOf(parser), false) == (Confused(), 1)
  {
    hide IdsOf, Vps, Filler, ParsesVps, Total, Find;
    VpsIds(parser, 3, 1, 0);
    VpsIds(parser, 5, 2, 0);
    Heads(3, 1);
    Heads(5, 2);
    var three, nalu := Three(), Vps(5, 2);
    assert three[0] == Entry(VPS, Vps(3, 1)) && |three| == 3 && three[1].ty == VPS && three[2].ty == PPS;
    WithoutSeiSame(three);
    FindsFirst(three, VPS, nalu, IdsOf(parser), 0);
    assert three[0 := Entry(VPS, nalu)] == Confused();
  }

  lemma FindsFirst(list: seq<Entry>, ty: byte, nalu: seq<byte>, ids: Ids, room: nat)
    requires list != [] && list[0].ty == ty && ids(ty, list[0].bytes, room) == ids(ty, nalu, room)
    ensures Find(list, ty, nalu, ids, room) == 0
  {
  }

  lemma ConfusedNotDistinct(parser: Parser)
    requires ParsesVps(parser)
    ensures !OnePerId(Confused(), IdsOf(parser))
  {
    hide IdsOf, Vps, Filler, ParsesVps;
    VpsIds(parser, 5, 1, SCRATCH);
    VpsIds(parser, 5, 2, SCRATCH);
    assert SameSet(Confused()[0], Confused()[1], IdsOf(parser));
  }

  /**
   * Three units fill the arena. The next parameter set, of id 5, is then taken for the one of
   * id 3, because no scratch space is left to tell them apart: two sets of id 5 remain, none of id 3.
   */
  lemma FullArenaConfusesSets(parser: Parser)
    requires ParsesVps(parser)
    ensures var ids := IdsOf(parser);
            var list := Run([], [Vps(3, 1), Vps(5, 1), Filler(), Vps(5, 2)], ids, false);
            list == Confused() && !OnePerId(list, ids)
  {
    hide IdsOf, Vps, Filler, Total, Run, UpdateList, One, Two, Three, Confused, OnePerId, ParsesVps;
    var ids, a, b, c, d := IdsOf(parser), Vps(3, 1), Vps(5, 1), Filler(), Vps(5, 2);
    FirstAdded(parser);
    SecondAdded(parser);
    ThirdFills(parser);
    FourthReplaces(parser);
    ConfusedNotDistinct(parser);
    NothingBounded();
    RunCons([], a, [b, c, d], ids);
    RunCons(One(), b, [c, d], ids);
    RunCons(Two(), c, [d], ids);
    RunCons(Three(), d, [], ids);
    RunDone(Confused(), ids);
    assert [a] + [b, c, d] == [a, b, c, d] && [b] + [c, d] == [b, c, d] && [c] + [d] == [c, d] && [d] + [] == [d];
  }

  lemma NothingBounded()
    ensures Bounded([])
  {
  }

  lemma RunDone(list: seq<Entry>, ids: Ids)
    requires Bounded(list)
    ensures Run(list, [], ids, false) == list
  {
  }

  lemma RunCons(list: seq<Entry>, nalu: seq<byte>, rest: seq<seq<byte>>, ids: Ids)
    requires Bounded(list) && nalu != [] && forall i :: 0 <= i < |rest| ==> rest[i] != []
    ensures Bounded(UpdateList(list, nalu, ids, false).0)
    ensures Run(list, [nalu] + rest, ids, false) == Run(UpdateList(list, nalu, ids, false).0, rest, ids, false)
  {
    hide UpdateList;
    UpdateKeepsBounds(list, nalu, ids, false);
    assert ([nalu] + rest)[1..] == rest;
  }
}
