/** A media source of core/media_source.c: its GOP ring and its subscriber table. */
module MediaSource {
  import opened Bytes
  import FrameRing

  datatype Status = Ok | Invalid | NoMem | Exists | NotFound | Full | Callback

  datatype TrackType = Audio | Video | Data
  datatype Track = Track(id: int, ty: TrackType)
  datatype Frame = Frame(trackId: int, data: seq<byte>, isKeyframe: bool)

  // ---- The GOP cache -----------------------------------------------------------------------

  /** What decides about caching: is there a video track, has a video keyframe been cached. */
  datatype GopFlags = GopFlags(hasVideo: bool, hasKeyframe: bool)

  predicate StartsGop(flags: GopFlags, ty: TrackType, f: Frame) { flags.hasVideo && ty == Video && f.isKeyframe }

  predicate Cached(flags: GopFlags, ty: TrackType, f: Frame) {
    !flags.hasVideo || StartsGop(flags, ty, f) || flags.hasKeyframe
  }

  /** The frames cached since the latest video keyframe, or since creation. */
  function Since(since: seq<Frame>, flags: GopFlags, ty: TrackType, f: Frame): (r: seq<Frame>) {
    if !Cached(flags, ty, f) then since
    else if StartsGop(flags, ty, f) then [f]
    else since + [f]
  }

  function Last<T>(s: seq<T>, n: nat): (r: seq<T>)
    ensures |r| == if |s| < n then |s| else n
  {
    if |s| <= n then s else s[|s| - n..]
  }

  lemma LastSnoc<T>(s: seq<T>, x: T, n: nat)
    requires n > 0
    ensures Last(s + [x], n) == (if |Last(s, n)| < n then Last(s, n) else Last(s, n)[1..]) + [x]
  {
  }

  /** What a source has taken in: a track, or a frame of a track of that type. */
  datatype Event = Added(ty: TrackType) | Pushed(frame: Frame, ty: TrackType)

  /** Flags and history after all of `log`, from a new source. */
  function AfterAll(log: seq<Event>): (r: (GopFlags, seq<Frame>)) {
    if log == [] then (GopFlags(false, false), [])
    else
      var (flags, since) := AfterAll(log[..|log| - 1]);
      match log[|log| - 1]
      case Added(ty) => (flags.(hasVideo := flags.hasVideo || ty == Video), since)
      case Pushed(f, ty) =>
        (flags.(hasKeyframe := flags.hasKeyframe || StartsGop(flags, ty, f)), Since(since, flags, ty, f))
  }

  lemma AfterSnoc(log: seq<Event>, e: Event)
    ensures var (flags, since) := AfterAll(log);
            AfterAll(log + [e]) ==
            match e
            case Added(ty) => (flags.(hasVideo := flags.hasVideo || ty == Video), since)
            case Pushed(f, ty) =>
              (flags.(hasKeyframe := flags.hasKeyframe || StartsGop(flags, ty, f)), Since(since, flags, ty, f))
  {
    assert (log + [e])[..|log + [e]| - 1] == log;
  }

  predicate IsVideoKey(e: Event) { e.Pushed? && e.ty == Video && e.frame.isKeyframe }

  /** Index of the latest video keyframe, or |log|. */
  function LatestKey(log: seq<Event>): (k: nat)
    ensures k <= |log| && (k < |log| ==> IsVideoKey(log[k]))
    ensures forall i :: 0 <= i < |log| && (k == |log| || i > k) ==> !IsVideoKey(log[i])
  {
    if log == [] then 0
    else if IsVideoKey(log[|log| - 1]) then |log| - 1
    else
      var k := LatestKey(log[..|log| - 1]);
      if k == |log| - 1 then |log| else k
  }

  /** Index of the first video track, or |log|. */
  function FirstVideo(log: seq<Event>): (v: nat)
    ensures v <= |log| && (v < |log| ==> log[v] == Added(Video))
    ensures forall i :: 0 <= i < v ==> log[i] != Added(Video)
  {
    if log == [] then 0
    else
      var v := FirstVideo(log[..|log| - 1]);
      if v == |log| - 1 && log[v] != Added(Video) then |log| else v
  }

  /** A video frame needs a video track added before it. */
  predicate WellTyped(log: seq<Event>) {
    forall i :: 0 <= i < |log| && log[i].Pushed? && log[i].ty == Video ==> FirstVideo(log) < i
  }

  /** The frames of a log, in order. */
  function Frames(log: seq<Event>): (r: seq<Frame>) {
    if log == [] then []
    else Frames(log[..|log| - 1]) + (if log[|log| - 1].Pushed? then [log[|log| - 1].frame] else [])
  }

  lemma NoFrames()
    ensures Frames([]) == []
  {
  }

  lemma FramesSnoc(log: seq<Event>, e: Event)
    ensures Frames(log + [e]) == Frames(log) + (if e.Pushed? then [e.frame] else [])
  {
    assert (log + [e])[..|log + [e]| - 1] == log;
  }

  lemma IndexSnoc(log: seq<Event>, e: Event)
    ensures FirstVideo(log + [e]) == (if FirstVideo(log) == |log| && e != Added(Video) then |log| + 1 else FirstVideo(log))
    ensures LatestKey(log + [e]) ==
            (if IsVideoKey(e) then |log| else if LatestKey(log) == |log| then |log| + 1 else LatestKey(log))
  {
    assert (log + [e])[..|log + [e]| - 1] == log;
  }

  /** What one more event asks of a well-typed log. */
  lemma TypedSnoc(log: seq<Event>, e: Event)
    ensures WellTyped(log + [e]) <==> WellTyped(log) && (e.Pushed? && e.ty == Video ==> FirstVideo(log) < |log|)
  {
    hide FirstVideo;
    IndexSnoc(log, e);
    var all := log + [e];
    assert all[|log|] == e;
    assert forall i :: 0 <= i < |log| ==> all[i] == log[i];
    if WellTyped(all) {
      forall i | 0 <= i < |log| && log[i].Pushed? && log[i].ty == Video ensures FirstVideo(log) < i {
        assert all[i] == log[i];
      }
    }
  }

  /**
   * The history in closed form: everything from the latest video keyframe on; as long as there
   * was none, everything up to the moment the source got its first video track.
   */
  function Group(log: seq<Event>): (r: seq<Frame>) {
    if LatestKey(log) < |log| then Frames(log[LatestKey(log)..]) else Frames(log[..FirstVideo(log)])
  }

  lemma GroupStep(front: seq<Event>, e: Event)
    requires WellTyped(front + [e]) && WellTyped(front)
    ensures var j, v, log := LatestKey(front), FirstVideo(front), front + [e];
            Group(log) == (if IsVideoKey(e) then [e.frame]
                           else if e.Pushed? && (j < |front| || v == |front|) then Group(front) + [e.frame]
                           else Group(front))
  {
    hide FirstVideo, LatestKey, Frames, WellTyped;
    IndexSnoc(front, e);
    var log := front + [e];
    var j, k, v, w := LatestKey(front), LatestKey(log), FirstVideo(front), FirstVideo(log);
    if IsVideoKey(e) {
      assert log[k..] == [] + [e];
      FramesSnoc([], e);
      NoFrames();
    } else if j < |front| {
      assert log[k..] == front[j..] + [e];
      FramesSnoc(front[j..], e);
    } else if w == |log| {
      assert log[..w] == front + [e] && front[..v] == front;
      FramesSnoc(front, e);
    } else {
      assert log[..w] == front[..v];
    }
  }

  /** Whatever the order of tracks and frames, what the flags and the cache go by is that group. */
  lemma {:induction false} HistoryIsGroup(log: seq<Event>)
    requires WellTyped(log)
    ensures AfterAll(log) == (GopFlags(FirstVideo(log) < |log|, LatestKey(log) < |log|), Group(log))
    decreases |log|
  {
    hide Group, FirstVideo, LatestKey;
    if log != [] {
      var front, e := log[..|log| - 1], log[|log| - 1];
      assert log == front + [e];
      TypedSnoc(front, e);
      IndexSnoc(front, e);
      HistoryIsGroup(front);
      GroupStep(front, e);
      if IsVideoKey(e) { assert FirstVideo(log) < |log| - 1; }
      if LatestKey(front) < |front| { assert FirstVideo(front) < |front|; }
    } else {
      EmptyGroup();
    }
  }

  lemma EmptyGroup()
    ensures Group([]) == []
  {
  }

  lemma {:induction false} FramesCons(log: seq<Event>)
    requires log != [] && log[0].Pushed?
    ensures Frames(log) != [] && Frames(log)[0] == log[0].frame
    decreases |log|
  {
    if |log| > 1 {
      assert log[..|log| - 1][0] == log[0];
      FramesCons(log[..|log| - 1]);
    } else {
      assert log[..0] == [];
    }
  }

  /** Once a video keyframe has been taken in, the latest one stands in front of the history. */
  lemma KeyframeInFront(log: seq<Event>)
    requires WellTyped(log) && LatestKey(log) < |log|
    ensures AfterAll(log).1 != [] && AfterAll(log).1[0] == log[LatestKey(log)].frame
  {
    HistoryIsGroup(log);
    FramesCons(log[LatestKey(log)..]);
  }

  // ---- The subscriber table ----------------------------------------------------------------

  const LOCAL_ID_MAX: nat := UINT32_MAX

  /** A subscription id: the namespace of the source above 32 bits of local id. */
  function Token(space: nat, local: nat): (id: nat) { space * 0x1_0000_0000 + local }

  lemma TokenInjective(s: nat, l: nat, s': nat, l': nat)
    requires l <= LOCAL_ID_MAX && l' <= LOCAL_ID_MAX && Token(s, l) == Token(s', l')
    ensures s == s' && l == l'
  {
  }

  datatype Subs = Subs(space: nat, next: nat, ids: seq<nat>, max: nat)

  /** The checks of turbo_media_source_subscribe. */
  predicate CanSubscribe(s: Subs) { |s.ids| < s.max && s.next <= LOCAL_ID_MAX }

  /** turbo_media_source_subscribe; a failed replay takes the entry back but not the id. */
  function Subscribed(s: Subs, replayOk: bool): (r: Subs) {
    if !CanSubscribe(s) then s
    else s.(next := s.next + 1, ids := if replayOk then s.ids + [Token(s.space, s.next)] else s.ids)
  }

  function IndexOf(ids: seq<nat>, id: nat): (i: nat)
    ensures i <= |ids| && (i < |ids| ==> ids[i] == id)
    ensures forall j :: 0 <= j < i ==> ids[j] != id
  {
    if ids == [] || ids[0] == id then 0 else 1 + IndexOf(ids[1..], id)
  }

  /** turbo_media_source_unsubscribe. */
  function Unsubscribed(s: Subs, id: nat): (r: Subs) {
    var i := IndexOf(s.ids, id);
    if id == 0 || i == |s.ids| then s else s.(ids := s.ids[..i] + s.ids[i + 1..])
  }

  /** Track table and flags agree with what has been taken in; ids are distinct. */
  ghost predicate Consistent(tracks: seq<Track>, maxTracks: nat, flags: GopFlags, log: seq<Event>) {
    && flags == AfterAll(log).0 && WellTyped(log) && |tracks| <= maxTracks
    && (flags.hasVideo <==> FirstVideo(log) < |log|)
    && (flags.hasVideo <==> exists i :: 0 <= i < |tracks| && tracks[i].ty == Video)
    && forall i, j :: 0 <= i < j < |tracks| ==> tracks[i].id != tracks[j].id
  }

  lemma PushKeeps(tracks: seq<Track>, maxTracks: nat, flags: GopFlags, log: seq<Event>, f: Frame, ty: TrackType)
    requires Consistent(tracks, maxTracks, flags, log) && (ty == Video ==> flags.hasVideo)
    ensures AfterAll(log + [Pushed(f, ty)]).1 == Since(AfterAll(log).1, flags, ty, f)
    ensures Consistent(tracks, maxTracks, flags.(hasKeyframe := flags.hasKeyframe || StartsGop(flags, ty, f)),
                       log + [Pushed(f, ty)])
  {
    hide AfterAll, WellTyped, FirstVideo, LatestKey;
    AfterSnoc(log, Pushed(f, ty));
    TypedSnoc(log, Pushed(f, ty));
    IndexSnoc(log, Pushed(f, ty));
  }

  lemma AddKeeps(tracks: seq<Track>, maxTracks: nat, flags: GopFlags, log: seq<Event>, track: Track)
    requires Consistent(tracks, maxTracks, flags, log) && |tracks| < maxTracks
    requires forall k :: 0 <= k < |tracks| ==> tracks[k].id != track.id
    ensures AfterAll(log + [Added(track.ty)]).1 == AfterAll(log).1
    ensures Consistent(tracks + [track], maxTracks, flags.(hasVideo := flags.hasVideo || track.ty == Video),
                       log + [Added(track.ty)])
  {
    hide AfterAll, WellTyped, FirstVideo, LatestKey;
    AfterSnoc(log, Added(track.ty));
    TypedSnoc(log, Added(track.ty));
    IndexSnoc(log, Added(track.ty));
    var all := tracks + [track];
    assert all[|tracks|] == track;
    if flags.hasVideo {
      var i :| 0 <= i < |tracks| && tracks[i].ty == Video;
      assert all[i].ty == Video;
    }
  }

  lemma VideoTrackKnown(tracks: seq<Track>, maxTracks: nat, flags: GopFlags, log: seq<Event>, i: nat)
    requires Consistent(tracks, maxTracks, flags, log) && i < |tracks|
    ensures tracks[i].ty == Video ==> flags.hasVideo
  {
  }

  // ---- Adding a list of tracks -------------------------------------------------------------

  predicate HasId(tracks: seq<Track>, id: int) { exists k :: 0 <= k < |tracks| && tracks[k].id == id }

  /** The table and the status after adding `new[i..]`, up to the first that is refused. */
  function AddAll(tracks: seq<Track>, next: int, max: nat, added: seq<Track>, i: nat, copied: nat -> Status)
    : (r: (seq<Track>, Status))
    decreases |added| - i
  {
    if i >= |added| then (tracks, Ok)
    else
      var id := if added[i].id >= 0 then added[i].id else next;
      if |tracks| >= max then (tracks, Full)
      else if HasId(tracks, id) then (tracks, Exists)
      else if copied(i) != Ok then (tracks, copied(i))
      else AddAll(tracks + [Track(id, added[i].ty)], if id >= next then id + 1 else next, max, added, i + 1, copied)
  }

  /** When all are added, they stand behind the old ones in order, with their types and the ids they asked for. */
  lemma {:induction false} AddAllAdds(tracks: seq<Track>, next: int, max: nat, added: seq<Track>, i: nat, copied: nat -> Status)
    requires i <= |added| && AddAll(tracks, next, max, added, i, copied).1 == Ok
    ensures var after := AddAll(tracks, next, max, added, i, copied).0;
            && |after| == |tracks| + |added| - i && after[..|tracks|] == tracks
            && forall j :: i <= j < |added| ==>
                 var t := after[|tracks| + j - i]; t.ty == added[j].ty && (added[j].id >= 0 ==> t.id == added[j].id)
    decreases |added| - i
  {
    hide HasId;
    if i < |added| {
      var id := if added[i].id >= 0 then added[i].id else next;
      var tracks' := tracks + [Track(id, added[i].ty)];
      AddAllAdds(tracks', if id >= next then id + 1 else next, max, added, i + 1, copied);
      var after := AddAll(tracks, next, max, added, i, copied).0;
      assert after[..|tracks|] == after[..|tracks'|][..|tracks|];
      assert after[|tracks|] == after[..|tracks'|][|tracks|];
    }
  }

  /** Ids the caller chose himself: none given twice, none in the table. */
  predicate NoClash(tracks: seq<Track>, added: seq<Track>, i: nat) {
    forall j :: i <= j < |added| ==> !HasId(tracks, added[j].id) && forall k :: i <= k < j ==> added[k].id != added[j].id
  }

  /** A list of tracks with ids of their own is added exactly when there is room, no id clashes and each can be copied. */
  lemma {:induction false} AddAllIff(tracks: seq<Track>, next: int, max: nat, added: seq<Track>, i: nat, copied: nat -> Status)
    requires i <= |added| && forall j :: i <= j < |added| ==> added[j].id >= 0
    ensures AddAll(tracks, next, max, added, i, copied).1 == Ok <==>
            && (i < |added| ==> |tracks| + |added| - i <= max) && NoClash(tracks, added, i)
            && forall j :: i <= j < |added| ==> copied(j) == Ok
    decreases |added| - i
  {
    if i < |added| {
      var t := Track(added[i].id, added[i].ty);
      var next' := if t.id >= next then t.id + 1 else next;
      AddAllIff(tracks + [t], next', max, added, i + 1, copied);
      NoClashStep(tracks, added, i, t);
    }
  }

  lemma NoClashStep(tracks: seq<Track>, added: seq<Track>, i: nat, t: Track)
    requires i < |added| && t.id == added[i].id
    ensures NoClash(tracks, added, i) <==> !HasId(tracks, t.id) && NoClash(tracks + [t], added, i + 1)
  {
    forall id ensures HasId(tracks + [t], id) <==> HasId(tracks, id) || id == t.id {
      var all := tracks + [t];
      assert all[|tracks|] == t;
      if HasId(tracks, id) {
        var k :| 0 <= k < |tracks| && tracks[k].id == id;
        assert all[k].id == id;
      }
    }
    hide HasId;
    if NoClash(tracks + [t], added, i + 1) && !HasId(tracks, t.id) {
      forall j | i <= j < |added| ensures !HasId(tracks, added[j].id) && forall k :: i <= k < j ==> added[k].id != added[j].id {
        if j > i { assert !HasId(tracks + [t], added[j].id); }
      }
    }
    if NoClash(tracks, added, i) {
      forall j | i + 1 <= j < |added|
        ensures !HasId(tracks + [t], added[j].id) && forall k :: i + 1 <= k < j ==> added[k].id != added[j].id
      {
        assert !HasId(tracks, added[j].id) && added[i].id != added[j].id;
      }
    }
  }

  // ---- The source --------------------------------------------------------------------------

  class Source {
    const frames: array<Option<Frame>>
    const maxTracks: nat
    var gopStart: nat
    var gopCount: nat
    var flags: GopFlags
    var tracks: seq<Track>
    var nextTrack: int
    var subs: Subs

    /** Every track added and every frame taken in, in order. */
    ghost var Log: seq<Event>

    ghost predicate Valid()
      reads this, frames
    {
      && RingHolds(Gop()) && Consistent(tracks, maxTracks, flags, Log)
      && forall i :: 0 <= i < |tracks| ==> tracks[i].id < nextTrack
    }

    /** The ring, read from gop_start on, is `s`. */
    ghost predicate RingHolds(s: seq<Frame>)
      reads this`gopStart, this`gopCount, frames
    {
      && 0 < frames.Length && gopStart < frames.Length && gopCount == |s| <= frames.Length
      && forall i :: 0 <= i < gopCount ==> frames[Cell(i)] == Some(s[i])
    }

    /** The cache in replay order: the last gop_capacity frames of the history. */
    ghost function Gop(): seq<Frame>
      reads this`Log
    {
      Last(AfterAll(Log).1, frames.Length)
    }

    /** (gop_start + i) % gop_capacity, for i up to the capacity. */
    function Cell(i: nat): (c: nat)
      requires gopStart < frames.Length && i <= frames.Length
      reads this`gopStart
      ensures c < frames.Length
    {
      if gopStart + i < frames.Length then gopStart + i else gopStart + i - frames.Length
    }

    lemma CellIsMod(i: nat)
      requires gopStart < frames.Length && i <= frames.Length
      ensures Cell(i) == (gopStart + i) % frames.Length
    {
      if gopStart + i < frames.Length {
        FrameRing.RemainderUnique(gopStart + i, frames.Length, 0, gopStart + i);
      } else {
        FrameRing.RemainderUnique(gopStart + i, frames.Length, 1, gopStart + i - frames.Length);
      }
    }

    /**
     * What a newcomer is shown: the last frames of the group, and the latest video keyframe
     * first whenever there was one and the group fits the ring.
     */
    lemma ReplayIsGroup()
      requires Valid()
      ensures Gop() == Last(Group(Log), frames.Length)
      ensures LatestKey(Log) < |Log| && |Group(Log)| <= frames.Length ==>
                Gop() != [] && Gop()[0] == Log[LatestKey(Log)].frame && IsVideoKey(Log[LatestKey(Log)])
    {
      HistoryIsGroup(Log);
      if LatestKey(Log) < |Log| { KeyframeInFront(Log); }
    }

    constructor (capacity: nat, maxTracks: nat, maxSubscribers: nat, space: nat)
      requires capacity > 0
      ensures Valid() && Log == [] && subs == Subs(space, 1, [], maxSubscribers) && tracks == []
      ensures frames.Length == capacity && fresh(frames) && this.maxTracks == maxTracks && nextTrack == 0
    {
      frames := new Option<Frame>[capacity](_ => None);
      this.maxTracks := maxTracks;
      gopStart, gopCount, flags, Log := 0, 0, GopFlags(false, false), [];
      tracks, nextTrack := [], 0;
      subs := Subs(space, 1, [], maxSubscribers);
    }

    method TrackIndex(id: int) returns (i: int)
      ensures -1 <= i < |tracks|
      ensures i >= 0 ==> tracks[i].id == id
      ensures i < 0 ==> forall k :: 0 <= k < |tracks| ==> tracks[k].id != id
    {
      i := 0;
      while i < |tracks|
        invariant 0 <= i <= |tracks| && forall k :: 0 <= k < i ==> tracks[k].id != id
      {
        if tracks[i].id == id { return; }
        i := i + 1;
      }
      i := -1;
    }

    /** turbo_media_clear_gop. */
    method ClearGop()
      requires 0 < frames.Length
      modifies this`gopStart, this`gopCount, frames
      ensures RingHolds([])
    {
      forall i | 0 <= i < frames.Length { frames[i] := None; }
      gopStart, gopCount := 0, 0;
    }

    /** The tail of turbo_media_cache_frame: take the next cell, or the oldest one when the ring is full. */
    method Insert(f: Frame, ghost s: seq<Frame>)
      requires RingHolds(s)
      modifies this`gopStart, this`gopCount, frames
      ensures RingHolds(Last(s + [f], frames.Length))
    {
      LastSnoc(s, f, frames.Length);
      hide Last;
      var index;
      if gopCount < frames.Length {
        index := Cell(gopCount);
        gopCount := gopCount + 1;
      } else {
        index := gopStart;
        gopStart := Cell(1);
      }
      frames[index] := Some(f);
    }

    /** turbo_media_cache_frame; `copied` says whether the copy could be allocated. */
    method CacheFrame(f: Frame, ty: TrackType, copied: bool) returns (status: Status)
      requires Valid() && (ty == Video ==> flags.hasVideo)
      modifies this`gopStart, this`gopCount, this`flags, this`Log, frames
      ensures Valid()
      ensures status == if Cached(old(flags), ty, f) && f.data != [] && !copied then NoMem else Ok
      ensures Log == if status == Ok then old(Log) + [Pushed(f, ty)] else old(Log)
    {
      hide AfterAll, Consistent, Last;
      ghost var since, log := AfterAll(Log).1, Log + [Pushed(f, ty)];
      PushKeeps(tracks, maxTracks, flags, Log, f, ty);
      if !Cached(flags, ty, f) {
        Log := log;
        return Ok;
      }
      if f.data != [] && !copied { return NoMem; }
      if StartsGop(flags, ty, f) {
        ClearGop();
        flags := flags.(hasKeyframe := true);
        Insert(f, []);
        assert [] + [f] == [f];
      } else {
        Insert(f, Last(since, frames.Length));
        LastTwice(since, f, frames.Length);
      }
      Log := log;
      return Ok;
    }

    /** turbo_media_source_add_track; `copied` is the verdict of copying the description. */
    method AddTrack(track: Track, copied: Status) returns (status: Status, id: int)
      requires Valid()
      modifies this`tracks, this`nextTrack, this`flags, this`Log
      ensures Valid()
      ensures id == if |old(tracks)| >= maxTracks then 0 else if track.id >= 0 then track.id else old(nextTrack)
      ensures status == if |old(tracks)| >= maxTracks then Full
                        else if HasId(old(tracks), id) then Exists
                        else copied
      ensures status == Exists ==> track.id >= 0 || copied == Exists
      ensures status == Ok ==>
                && tracks == old(tracks) + [Track(id, track.ty)] && Log == old(Log) + [Added(track.ty)]
                && nextTrack == if id >= old(nextTrack) then id + 1 else old(nextTrack)
      ensures status != Ok ==> tracks == old(tracks) && Log == old(Log) && nextTrack == old(nextTrack)
    {
      hide AfterAll, Consistent, Last;
      if |tracks| >= maxTracks { return Full, 0; }
      id := if track.id >= 0 then track.id else nextTrack;
      var known := TrackIndex(id);
      if known >= 0 { return Exists, id; }
      if copied != Ok { return copied, id; }
      AddKeeps(tracks, maxTracks, flags, Log, Track(id, track.ty));
      tracks := tracks + [Track(id, track.ty)];
      if id >= nextTrack { nextTrack := id + 1; }
      if track.ty == Video { flags := flags.(hasVideo := true); }
      Log := Log + [Added(track.ty)];
      status := Ok;
    }

    /**
     * turbo_media_source_publish; `accepts` says which subscriber's callback succeeds. The
     * frame is taken in before the first delivery and stays, whatever the callbacks answer.
     */
    method Publish(f: Frame, copied: bool, accepts: nat -> bool) returns (status: Status, delivered: nat)
      requires Valid()
      modifies this`gopStart, this`gopCount, this`flags, this`Log, frames
      ensures Valid()
      ensures status == NotFound <==> forall k :: 0 <= k < |tracks| ==> tracks[k].id != f.trackId
      ensures status == NotFound || status == NoMem ==> Log == old(Log) && delivered == 0
      ensures status != NotFound && status != NoMem ==>
                exists k :: 0 <= k < |tracks| && tracks[k].id == f.trackId && Log == old(Log) + [Pushed(f, tracks[k].ty)]
      ensures status == NoMem ==> f.data != [] && !copied
      ensures status == Ok ==> delivered == |subs.ids|
      ensures status == Callback ==> delivered < |subs.ids| && !accepts(delivered)
      ensures status == Ok || status == Callback ==> forall j :: 0 <= j < delivered ==> accepts(j)
      ensures status in {Ok, NotFound, NoMem, Callback}
    {
      hide AfterAll, Consistent, Last;
      delivered := 0;
      var i := TrackIndex(f.trackId);
      if i < 0 { return NotFound, 0; }
      VideoTrackKnown(tracks, maxTracks, flags, Log, i);
      status := CacheFrame(f, tracks[i].ty, copied);
      if status != Ok { return; }
      assert tracks[i].id == f.trackId;
      while delivered < |subs.ids|
        invariant 0 <= delivered <= |subs.ids| && forall j :: 0 <= j < delivered ==> accepts(j)
      {
        if !accepts(delivered) { return Callback, delivered; }
        delivered := delivered + 1;
      }
    }

    /** The replay loop: frames in ring order until a delivery is refused. */
    method Replay(accepts: nat -> bool) returns (ok: bool, shown: seq<Frame>)
      requires Valid()
      ensures ok <==> forall i :: 0 <= i < |Gop()| ==> accepts(i)
      ensures ok ==> shown == Gop()
      ensures !ok ==> shown <= Gop() && |shown| < |Gop()| && !accepts(|shown|)
    {
      hide AfterAll, Consistent, Last;
      shown := [];
      var i := 0;
      while i < gopCount
        invariant 0 <= i <= gopCount && shown == Gop()[..i]
        invariant forall j :: 0 <= j < i ==> accepts(j)
      {
        if !accepts(i) { return false, shown; }
        shown := shown + [frames[Cell(i)].value];
        i := i + 1;
      }
      ok := true;
    }

    /** Whether a replay to this subscriber goes through. */
    ghost predicate ReplayOk(replay: bool, accepts: nat -> bool)
      reads this`Log
    {
      replay ==> forall i :: 0 <= i < |Gop()| ==> accepts(i)
    }

    /** turbo_media_source_subscribe: the new subscriber is shown the cache in replay order. */
    method Subscribe(replay: bool, accepts: nat -> bool) returns (status: Status, id: nat, shown: seq<Frame>)
      requires Valid()
      modifies this`subs
      ensures Valid()
      ensures subs == Subscribed(old(subs), ReplayOk(replay, accepts))
      ensures status == Full <==> |old(subs).ids| >= old(subs).max || old(subs).next > 0xFFFF_FFFF
      ensures subs.ids == if status == Ok then old(subs).ids + [id] else old(subs).ids
      ensures status == if !CanSubscribe(old(subs)) then Full else if ReplayOk(replay, accepts) then Ok else Callback
      ensures status != Full ==> id == Token(old(subs).space, old(subs).next)
      ensures status == Ok ==> shown == if replay then Gop() else []
      ensures status == Callback ==> shown <= Gop() && |shown| < |Gop()| && !accepts(|shown|)
    {
      hide AfterAll, Consistent, Last, RingHolds;
      shown, id := [], 0;
      if |subs.ids| >= subs.max { return Full, 0, []; }
      if subs.next > LOCAL_ID_MAX { return Full, 0, []; }
      id := Token(subs.space, subs.next);
      subs := subs.(next := subs.next + 1, ids := subs.ids + [id]);
      if replay {
        var ok;
        ok, shown := Replay(accepts);
        if !ok {
          subs := subs.(ids := subs.ids[..|subs.ids| - 1]);
          assert subs.ids == old(subs).ids;
          return Callback, id, shown;
        }
      }
      status := Ok;
    }

    /** turbo_media_source_unsubscribe: find the entry, close the gap. */
    method Unsubscribe(id: nat) returns (status: Status)
      requires Valid()
      modifies this`subs
      ensures Valid() && subs == Unsubscribed(old(subs), id)
      ensures status == if id == 0 then Invalid else if id in old(subs).ids then Ok else NotFound
    {
      hide AfterAll, Consistent, Last, RingHolds;
      if id == 0 { return Invalid; }
      var i := 0;
      assert subs.ids[0..] == subs.ids;
      while i < |subs.ids|
        invariant 0 <= i <= |subs.ids| && subs == old(subs)
        invariant forall j :: 0 <= j < i ==> subs.ids[j] != id
        invariant IndexOf(subs.ids, id) == i + IndexOf(subs.ids[i..], id)
      {
        assert subs.ids[i..][1..] == subs.ids[i + 1..];
        if subs.ids[i] == id {
          subs := subs.(ids := subs.ids[..i] + subs.ids[i + 1..]);
          return Ok;
        }
        i := i + 1;
      }
      status := NotFound;
    }
  }

  lemma LastTwice<T>(s: seq<T>, x: T, n: nat)
    requires n > 0
    ensures Last(Last(s, n) + [x], n) == Last(s + [x], n)
  {
  }
}
