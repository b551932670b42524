/** The per-session state machine of server/rtsp_server_adapter.c (Appendix A.2 of RFC 2326). */
module RtspAdapter {
  import opened Bytes

  const MAX_SESSIONS: nat := 64
  const MAX_TRACKS: nat := 8

  datatype State = Init | Announced | Described | Setup | Recording | Playing
  datatype Mode = Unspecified | Play | Record

  datatype Track = Track(id: int, control: string, rtp: int, rtcp: int, setup: bool)

  datatype Binding = Binding(
    state: State, mode: Mode, sessionId: string, tracks: seq<Track>, setupCount: nat,
    publisher: bool, player: bool)

  /** A binding just taken from the table. */
  function Fresh(sessionId: string): Binding { Binding(Init, Unspecified, sessionId, [], 0, false, false) }

  /** The interleaved channels and mode of a SETUP request; negative channels are absent. */
  datatype Transport = Transport(tcp: bool, mode: Mode, rtp: int, rtcp: int)

  datatype Request =
    | AnnounceReq(tracks: seq<Track>, ok: bool)      // tracks as left by the SDP parser, and its verdict
    | DescribeReq(tracks: seq<Track>, outcome: int)  // tracks as left by the SDP writer, and its status code
    | SetupReq(sessionId: string, uri: string, transport: Transport)
    | RecordReq(sessionId: string, outcome: int)   // status code of opening the publisher
    | PlayReq(sessionId: string, outcome: int)     // status code of opening the player

  predicate Untouched(tracks: seq<Track>) {
    |tracks| <= MAX_TRACKS && forall i :: 0 <= i < |tracks| ==> !tracks[i].setup
  }

  /** What the SDP code can leave behind: it never marks a track as set up. */
  predicate Possible(r: Request) {
    match r
    case AnnounceReq(tracks, _) => Untouched(tracks)
    case DescribeReq(tracks, _) => Untouched(tracks)
    case _ => true
  }

  predicate EndsWith(uri: string, control: string) {
    |control| <= |uri| && uri[|uri| - |control|..] == control
  }

  /** find_setup_track: first unset track whose control ends the URI, else the only track; |tracks| if none. */
  function ByControl(tracks: seq<Track>, uri: string): (i: nat)
    ensures i <= |tracks| && (i < |tracks| ==> !tracks[i].setup)
  {
    if tracks == [] || (!tracks[0].setup && EndsWith(uri, tracks[0].control)) then 0
    else 1 + ByControl(tracks[1..], uri)
  }

  function FindTrack(tracks: seq<Track>, uri: string): (i: nat)
    ensures i <= |tracks| && (i < |tracks| ==> !tracks[i].setup)
  {
    var i := ByControl(tracks, uri);
    if i == |tracks| && |tracks| == 1 && !tracks[0].setup then 0 else i
  }

  predicate Clash(t: Track, rtp: int, rtcp: int) { t.rtp == rtp || t.rtp == rtcp || t.rtcp == rtp || t.rtcp == rtcp }

  /** The channels format_transport settles on, or None when it refuses them. */
  function Channels(tracks: seq<Track>, i: nat, t: Transport): (r: Option<(int, int)>)
    requires i < |tracks|
  {
    var rtp := if t.rtp >= 0 then t.rtp else 0;
    var rtcp := if t.rtcp >= 0 then t.rtcp else rtp + 1;
    if !t.tcp || rtp > 255 || rtcp > 255 || rtp == rtcp then None
    else if exists j :: 0 <= j < |tracks| && j != i && tracks[j].setup && Clash(tracks[j], rtp, rtcp) then None
    else Some((rtp, rtcp))
  }

  /** The mode of a SETUP: asked for, chosen before, or implied by the state. */
  function EffectiveMode(b: Binding, asked: Mode): Mode {
    if asked != Unspecified then asked
    else if b.mode != Unspecified then b.mode
    else if b.state == Announced then Record else Play
  }

  function OnSetup(b: Binding, sessionId: string, uri: string, t: Transport): (r: (Binding, int))
    ensures |r.0.tracks| == |b.tracks|
  {
    if (b.setupCount > 0 || sessionId != "") && !(sessionId != "" && b.sessionId == sessionId) then (b, 454)
    else
      var mode := EffectiveMode(b, t.mode);
      if (mode == Record && b.state != Announced && b.state != Setup)
         || (mode == Play && b.state != Described && b.state != Setup)
         || (b.mode != Unspecified && b.mode != mode) then (b, 455)
      else
        var i := FindTrack(b.tracks, uri);
        if i == |b.tracks| then (b, 404)
        else match Channels(b.tracks, i, t)
          case None => (b, 461)
          case Some((rtp, rtcp)) =>
            (b.(tracks := b.tracks[i := b.tracks[i].(rtp := rtp, rtcp := rtcp, setup := true)],
                setupCount := b.setupCount + 1, mode := mode, state := Setup), 200)
  }

  function OnRequest(b: Binding, r: Request): (x: (Binding, int)) {
    match r
    case AnnounceReq(tracks, ok) =>
      if b.state != Init then (b, 455)
      else if !ok then (b.(tracks := tracks), 400)
      else (b.(tracks := tracks, state := Announced), 200)
    case DescribeReq(tracks, outcome) =>
      if b.state != Init then (b, 455)
      else if outcome != 200 then (b.(tracks := tracks, setupCount := 0), outcome)
      else (b.(tracks := tracks, setupCount := 0, state := Described), 200)
    case SetupReq(sessionId, uri, transport) => OnSetup(b, sessionId, uri, transport)
    case RecordReq(sessionId, outcome) =>
      if sessionId == "" || b.sessionId != sessionId then (b, 454)
      else if b.state != Setup || b.mode != Record || b.setupCount == 0 || b.tracks == [] then (b, 455)
      else if !b.publisher && outcome != 200 then (b, outcome)
      else (b.(publisher := true, state := Recording), 200)
    case PlayReq(sessionId, outcome) =>
      if sessionId == "" || b.sessionId != sessionId then (b, 454)
      else if b.state != Setup || b.mode != Play || b.setupCount == 0 then (b, 455)
      else if !b.player && outcome != 200 then (b, outcome)
      else (b.(player := true, state := Playing), 200)
  }

  lemma SetupRequest(b: Binding, r: Request)
    requires r.SetupReq?
    ensures OnRequest(b, r) == OnSetup(b, r.sessionId, r.uri, r.transport)
  {
  }

  // ---- What every session keeps ------------------------------------------------------------

  function CountSetup(tracks: seq<Track>): (n: nat)
    ensures n <= |tracks|
  {
    if tracks == [] then 0 else (if tracks[0].setup then 1 else 0) + CountSetup(tracks[1..])
  }

  lemma {:induction false} CountUpdate(tracks: seq<Track>, i: nat, t: Track)
    requires i < |tracks| && !tracks[i].setup && t.setup
    ensures CountSetup(tracks[i := t]) == CountSetup(tracks) + 1
  {
    if i == 0 {
      assert tracks[i := t][1..] == tracks[1..];
    } else {
      assert tracks[i := t][1..] == tracks[1..][i - 1 := t];
      CountUpdate(tracks[1..], i - 1, t);
    }
  }

  lemma {:induction false} CountUntouched(tracks: seq<Track>)
    requires forall i :: 0 <= i < |tracks| ==> !tracks[i].setup
    ensures CountSetup(tracks) == 0
  {
    if tracks != [] { CountUntouched(tracks[1..]); }
  }

  /** Set-up tracks own two channels each, and no channel has two owners. */
  ghost predicate ChannelsInv(tracks: seq<Track>) {
    && (forall i :: 0 <= i < |tracks| && tracks[i].setup ==>
          0 <= tracks[i].rtp <= 255 && 0 <= tracks[i].rtcp <= 255 && tracks[i].rtp != tracks[i].rtcp)
    && forall i, j :: 0 <= i < j < |tracks| && tracks[i].setup && tracks[j].setup ==>
         !Clash(tracks[i], tracks[j].rtp, tracks[j].rtcp)
  }

  ghost predicate Inv(b: Binding) {
    && ChannelsInv(b.tracks) && b.setupCount == CountSetup(b.tracks)
    && (b.state in {Init, Announced, Described} ==>
          b.setupCount == 0 && b.mode == Unspecified && !b.publisher && !b.player)
    && (b.state == Setup ==> b.setupCount > 0 && b.mode != Unspecified && !b.publisher && !b.player)
    && (b.state == Recording ==> b.setupCount > 0 && b.mode == Record && b.publisher && !b.player)
    && (b.state == Playing ==> b.setupCount > 0 && b.mode == Play && b.player && !b.publisher)
  }

  lemma SetupKeepsChannels(tracks: seq<Track>, i: nat, t: Transport)
    requires ChannelsInv(tracks) && i < |tracks| && !tracks[i].setup && Channels(tracks, i, t).Some?
    ensures var (rtp, rtcp) := Channels(tracks, i, t).value;
            ChannelsInv(tracks[i := tracks[i].(rtp := rtp, rtcp := rtcp, setup := true)])
  {
  }

  lemma RequestKeeps(b: Binding, r: Request)
    requires Inv(b) && Possible(r)
    ensures Inv(OnRequest(b, r).0)
    ensures b.mode != Unspecified ==> OnRequest(b, r).0.mode == b.mode
    ensures OnRequest(b, r).0.sessionId == b.sessionId
  {
    hide ChannelsInv, CountSetup, OnSetup;
    match r
    case AnnounceReq(tracks, _) => UntouchedTracks(tracks);
    case DescribeReq(tracks, _) => UntouchedTracks(tracks);
    case SetupReq(sessionId, uri, t) => SetupKeeps(b, sessionId, uri, t);
    case _ =>
  }

  lemma UntouchedTracks(tracks: seq<Track>)
    requires Untouched(tracks)
    ensures ChannelsInv(tracks) && CountSetup(tracks) == 0
  {
    CountUntouched(tracks);
  }

  lemma SetupKeeps(b: Binding, sessionId: string, uri: string, t: Transport)
    requires Inv(b)
    ensures var b' := OnSetup(b, sessionId, uri, t).0;
            Inv(b') && b'.sessionId == b.sessionId && (b.mode != Unspecified ==> b'.mode == b.mode)
  {
    hide ChannelsInv, CountSetup, Channels, FindTrack;
    var i := FindTrack(b.tracks, uri);
    if OnSetup(b, sessionId, uri, t).1 == 200 {
      var (rtp, rtcp) := Channels(b.tracks, i, t).value;
      SetupKeepsChannels(b.tracks, i, t);
      CountUpdate(b.tracks, i, b.tracks[i].(rtp := rtp, rtcp := rtcp, setup := true));
    }
  }

  function Run(b: Binding, requests: seq<Request>): (r: Binding)
    decreases |requests|
  {
    if requests == [] then b else Run(OnRequest(b, requests[0]).0, requests[1..])
  }

  /** In every session, whatever the requests, the invariant holds and a chosen mode stays. */
  lemma {:induction false} SessionKeeps(b: Binding, requests: seq<Request>)
    requires Inv(b) && forall i :: 0 <= i < |requests| ==> Possible(requests[i])
    ensures Inv(Run(b, requests)) && (b.mode != Unspecified ==> Run(b, requests).mode == b.mode)
    decreases |requests|
  {
    if requests != [] {
      RequestKeeps(b, requests[0]);
      SessionKeeps(OnRequest(b, requests[0]).0, requests[1..]);
    }
  }

  lemma FreshInv(sessionId: string)
    ensures Inv(Fresh(sessionId))
  {
  }

  // ---- What is refused, and how ------------------------------------------------------------

  /** The state a request needs, and the answer when it comes in another: nothing has changed then. */
  lemma WrongStateRefused(b: Binding, r: Request)
    requires b.sessionId != ""
    ensures (r.AnnounceReq? || r.DescribeReq?) && b.state != Init ==> OnRequest(b, r) == (b, 455)
    ensures r.SetupReq? && r.sessionId == b.sessionId && !(b.state == Announced || b.state == Described || b.state == Setup) ==>
              OnRequest(b, r) == (b, 455)
    ensures r.RecordReq? && r.sessionId == b.sessionId && (b.state != Setup || b.mode != Record) ==> OnRequest(b, r) == (b, 455)
    ensures r.PlayReq? && r.sessionId == b.sessionId && (b.state != Setup || b.mode != Play) ==> OnRequest(b, r) == (b, 455)
  {
    hide FindTrack, Channels;
  }

  /** A session id that is not this session's, or none where one is due, is answered 454. */
  lemma WrongSessionRefused(b: Binding, r: Request)
    requires b.sessionId != ""
    ensures r.SetupReq? && r.sessionId != b.sessionId && (r.sessionId != "" || b.setupCount > 0) ==> OnRequest(b, r) == (b, 454)
    ensures (r.RecordReq? || r.PlayReq?) && r.sessionId != b.sessionId ==> OnRequest(b, r) == (b, 454)
  {
    hide FindTrack, Channels;
  }

  /** A SETUP in step with the session fails only for want of a track, 404, or of channels, 461. */
  lemma SetupRefusals(b: Binding, sessionId: string, uri: string, t: Transport)
    requires Inv(b) && b.sessionId != "" && (sessionId == b.sessionId || (sessionId == "" && b.setupCount == 0))
    requires b.state == Announced || b.state == Described || b.state == Setup
    requires var role := if b.state == Announced || b.mode == Record then Record else Play; t.mode == Unspecified || t.mode == role
    ensures var (b', code) := OnSetup(b, sessionId, uri, t);
            var i := FindTrack(b.tracks, uri);
            && (code == 404 <==> i == |b.tracks|)
            && (code == 461 <==> i < |b.tracks| && Channels(b.tracks, i, t).None?)
            && code in {200, 404, 461} && (code != 200 ==> b' == b)
            && (code == 200 ==> b'.state == Setup && b'.mode == if b.state == Announced || b.mode == Record then Record else Play)
  {
    hide FindTrack, Channels, CountSetup, ChannelsInv;
  }

  /** Which track a URI means: one not yet set up whose control it ends with, else a lone track. */
  lemma {:induction false} ByControlIs(tracks: seq<Track>, uri: string)
    ensures var i := ByControl(tracks, uri);
            && (forall j :: 0 <= j < i ==> tracks[j].setup || !EndsWith(uri, tracks[j].control))
            && (i < |tracks| ==> !tracks[i].setup && EndsWith(uri, tracks[i].control))
  {
    if tracks != [] && (tracks[0].setup || !EndsWith(uri, tracks[0].control)) {
      ByControlIs(tracks[1..], uri);
      var i := ByControl(tracks, uri);
      forall j | 0 <= j < i ensures tracks[j].setup || !EndsWith(uri, tracks[j].control) {
        if j > 0 { assert tracks[1..][j - 1] == tracks[j]; }
      }
    }
  }

  lemma TrackIsFound(tracks: seq<Track>, uri: string)
    ensures var i := FindTrack(tracks, uri);
            && (i == |tracks| <==> && (forall j :: 0 <= j < |tracks| ==> tracks[j].setup || !EndsWith(uri, tracks[j].control))
                                   && !(|tracks| == 1 && !tracks[0].setup))
            && (i < |tracks| && |tracks| > 1 ==> EndsWith(uri, tracks[i].control))
  {
    ByControlIs(tracks, uri);
    hide ByControl, EndsWith;
  }

  /** Channels left out of a request: data on 0 and control on the one behind. */
  lemma DefaultChannels(tracks: seq<Track>, i: nat, mode: Mode, rtp: int)
    requires i < |tracks| && -1 <= rtp < 255
    requires forall j :: 0 <= j < |tracks| && j != i ==> !tracks[j].setup
    ensures Channels(tracks, i, Transport(true, mode, rtp, -1)) == if rtp < 0 then Some((0, 1)) else Some((rtp, rtp + 1))
    ensures Channels(tracks, i, Transport(false, mode, rtp, -1)) == None
  {
  }

  // ---- An orderly client gets through ------------------------------------------------------

  /** Tracks before `i` are set up on their pair of channels, the others are not. */
  predicate SetUpTo(tracks: seq<Track>, i: nat) {
    && i <= |tracks| <= MAX_TRACKS
    && forall j :: 0 <= j < |tracks| ==>
         tracks[j].setup == (j < i) && (j < i ==> tracks[j].rtp == 2 * j && tracks[j].rtcp == 2 * j + 1)
  }

  /** A session that has set up its first `i` tracks on the way to playing or recording. */
  predicate Progress(b: Binding, role: Mode, i: nat) {
    && b.sessionId != "" && SetUpTo(b.tracks, i) && b.setupCount == i && !b.player && !b.publisher && role != Unspecified
    && if i == 0 then b.state == (if role == Record then Announced else Described) && b.mode == Unspecified
       else b.state == Setup && b.mode == role
  }

  /** The SETUP of track `i`, with the session id once there is one; the mode may be left to the server. */
  function SetupNth(b: Binding, i: nat, base: string, asked: Mode): Request
    requires i < |b.tracks|
  {
    SetupReq(if i == 0 then "" else b.sessionId, base + b.tracks[i].control, Transport(true, asked, 2 * i, 2 * i + 1))
  }

  lemma {:induction false} FindNth(tracks: seq<Track>, k: nat, i: nat, uri: string)
    requires k <= i < |tracks| && SetUpTo(tracks, i) && EndsWith(uri, tracks[i].control)
    ensures ByControl(tracks[k..], uri) == i - k
    decreases i - k
  {
    if k < i {
      assert tracks[k..][1..] == tracks[k + 1..];
      FindNth(tracks, k + 1, i, uri);
    }
  }

  lemma ChannelsFree(tracks: seq<Track>, i: nat, asked: Mode)
    requires i < |tracks| && SetUpTo(tracks, i)
    ensures Channels(tracks, i, Transport(true, asked, 2 * i, 2 * i + 1)) == Some((2 * i, 2 * i + 1))
  {
  }

  /** `after` are the tracks of `before`, whatever has become of their channels. */
  predicate SameTracks(before: seq<Track>, after: seq<Track>) {
    |after| == |before| && forall j :: 0 <= j < |before| ==> after[j].control == before[j].control && after[j].id == before[j].id
  }

  lemma SetupAdvances(b: Binding, role: Mode, i: nat, base: string, asked: Mode)
    requires Progress(b, role, i) && i < |b.tracks| && (asked == role || asked == Unspecified)
    ensures var (b', code) := OnRequest(b, SetupNth(b, i, base, asked));
            code == 200 && Progress(b', role, i + 1) && b'.sessionId == b.sessionId && SameTracks(b.tracks, b'.tracks)
  {
    hide Channels, ByControl;
    var uri := base + b.tracks[i].control;
    assert uri[|uri| - |b.tracks[i].control|..] == b.tracks[i].control;
    assert b.tracks[0..] == b.tracks;
    FindNth(b.tracks, 0, i, uri);
    ChannelsFree(b.tracks, i, asked);
  }

  /** The binding after the SETUP requests of all tracks from `i` on. */
  function SetUpRest(b: Binding, i: nat, base: string, asked: Mode): (r: Binding)
    decreases |b.tracks| - i
  {
    if i >= |b.tracks| then b
    else SetUpRest(OnRequest(b, SetupNth(b, i, base, asked)).0, i + 1, base, asked)
  }

  lemma {:induction false} AllSetUp(b: Binding, role: Mode, i: nat, base: string, asked: Mode)
    requires Progress(b, role, i) && (asked == role || asked == Unspecified)
    ensures var ready := SetUpRest(b, i, base, asked);
            Progress(ready, role, |b.tracks|) && ready.sessionId == b.sessionId && SameTracks(b.tracks, ready.tracks)
    decreases |b.tracks| - i
  {
    hide OnSetup, SetUpTo;
    if i < |b.tracks| {
      SetupAdvances(b, role, i, base, asked);
      AllSetUp(OnRequest(b, SetupNth(b, i, base, asked)).0, role, i + 1, base, asked);
    } else {
      ProgressEnds(b, role, i);
    }
  }

  lemma ProgressEnds(b: Binding, role: Mode, i: nat)
    requires Progress(b, role, i) && i >= |b.tracks|
    ensures i == |b.tracks|
  {
  }

  /** A described presentation, all of whose tracks are set up in order on channels of their own, plays. */
  lemma PlayerGetsThrough(b: Binding, tracks: seq<Track>, base: string, asked: Mode)
    requires b == Fresh(b.sessionId) && b.sessionId != "" && tracks != [] && Untouched(tracks)
    requires asked == Play || asked == Unspecified
    ensures var (described, ok) := OnRequest(b, DescribeReq(tracks, 200));
            var ready := SetUpRest(described, 0, base, asked);
            var (playing, code) := OnRequest(ready, PlayReq(b.sessionId, 200));
            && ok == 200 && code == 200 && playing.state == Playing && playing.player
            && SetUpTo(playing.tracks, |tracks|) && SameTracks(tracks, playing.tracks)
  {
    hide SetUpRest, OnSetup;
    var described := OnRequest(b, DescribeReq(tracks, 200)).0;
    AllSetUp(described, Play, 0, base, asked);
  }

  /** An announced presentation, set up the same way, records, and each channel then leads to its track. */
  lemma PublisherGetsThrough(b: Binding, tracks: seq<Track>, base: string, asked: Mode, j: nat)
    requires b == Fresh(b.sessionId) && b.sessionId != "" && Untouched(tracks) && j < |tracks|
    requires asked == Record || asked == Unspecified
    ensures var (announced, ok) := OnRequest(b, AnnounceReq(tracks, true));
            var ready := SetUpRest(announced, 0, base, asked);
            var (recording, code) := OnRequest(ready, RecordReq(b.sessionId, 200));
            && ok == 200 && code == 200 && recording.state == Recording && recording.publisher
            && SetUpTo(recording.tracks, |tracks|) && SameTracks(tracks, recording.tracks)
            && RouteOf(recording, 2 * j) == ToTrack(tracks[j].id) && RouteOf(recording, 2 * j + 1) == Dropped
  {
    hide SetUpRest, OnSetup, RouteFrom;
    var announced := OnRequest(b, AnnounceReq(tracks, true)).0;
    AllSetUp(announced, Record, 0, base, asked);
    var ready := SetUpRest(announced, 0, base, asked);
    ChannelsApart(ready.tracks);
    RouteFromExact(ready.tracks, 0, j, 2 * j);
    RouteFromExact(ready.tracks, 0, j, 2 * j + 1);
  }

  lemma ChannelsApart(tracks: seq<Track>)
    requires SetUpTo(tracks, |tracks|)
    ensures ChannelsInv(tracks)
  {
  }

  /** When the publisher or the player cannot be opened, that is the answer, and nothing has changed. */
  lemma OpeningFails(b: Binding, outcome: int)
    requires Inv(b) && b.sessionId != "" && b.state == Setup && outcome != 200
    ensures b.mode == Record ==> OnRequest(b, RecordReq(b.sessionId, outcome)) == (b, outcome)
    ensures b.mode == Play ==> OnRequest(b, PlayReq(b.sessionId, outcome)) == (b, outcome)
  {
    hide ChannelsInv;
    assert b.tracks == [] ==> CountSetup(b.tracks) == 0;
  }

  /** A description that cannot be had, or read, leaves the session at its start. */
  lemma DescriptionFails(b: Binding, tracks: seq<Track>, outcome: int)
    requires b.state == Init && outcome != 200
    ensures OnRequest(b, DescribeReq(tracks, outcome)).1 == outcome && OnRequest(b, DescribeReq(tracks, outcome)).0.state == Init
    ensures OnRequest(b, AnnounceReq(tracks, false)).1 == 400 && OnRequest(b, AnnounceReq(tracks, false)).0.state == Init
  {
  }

  // ---- Interleaved data --------------------------------------------------------------------

  datatype Route = Refused | Dropped | ToTrack(id: int)

  /** The loop of on_interleaved from track `i` on. */
  function RouteFrom(tracks: seq<Track>, i: nat, channel: byte): (r: Route)
    decreases |tracks| - i
  {
    if i >= |tracks| then Refused
    else if tracks[i].setup && tracks[i].rtcp == channel then Dropped
    else if tracks[i].setup && tracks[i].rtp == channel then ToTrack(tracks[i].id)
    else RouteFrom(tracks, i + 1, channel)
  }

  function RouteOf(b: Binding, channel: byte): Route {
    if b.publisher && b.state == Recording then RouteFrom(b.tracks, 0, channel) else Refused
  }

  lemma {:induction false} RouteFromExact(tracks: seq<Track>, i: nat, j: nat, channel: byte)
    requires ChannelsInv(tracks) && i <= j < |tracks| && tracks[j].setup
    requires tracks[j].rtp == channel || tracks[j].rtcp == channel
    ensures RouteFrom(tracks, i, channel) == if tracks[j].rtp == channel then ToTrack(tracks[j].id) else Dropped
    decreases j - i
  {
    if i < j {
      assert tracks[i].setup ==> !Clash(tracks[i], tracks[j].rtp, tracks[j].rtcp);
      RouteFromExact(tracks, i + 1, j, channel);
    }
  }

  /** A channel leads to its one owner: data to that track, control nowhere. */
  lemma RouteExact(b: Binding, j: nat, channel: byte)
    requires Inv(b) && b.state == Recording && j < |b.tracks| && b.tracks[j].setup
    requires b.tracks[j].rtp == channel || b.tracks[j].rtcp == channel
    ensures RouteOf(b, channel) == if b.tracks[j].rtp == channel then ToTrack(b.tracks[j].id) else Dropped
  {
    RouteFromExact(b.tracks, 0, j, channel);
  }

  /** A channel nobody owns leads nowhere. */
  lemma {:induction false} RouteRefused(tracks: seq<Track>, i: nat, channel: byte)
    requires i <= |tracks|
    requires forall j :: i <= j < |tracks| && tracks[j].setup ==> tracks[j].rtp != channel && tracks[j].rtcp != channel
    ensures RouteFrom(tracks, i, channel) == Refused
    decreases |tracks| - i
  {
    if i < |tracks| { RouteRefused(tracks, i + 1, channel); }
  }

  // ---- The handlers' loops -----------------------------------------------------------------

  /** turbo_media_rtsp_adapter_find_setup_track. */
  method FindSetupTrack(tracks: seq<Track>, uri: string) returns (i: nat)
    ensures i == FindTrack(tracks, uri)
  {
    i := 0;
    while i < |tracks|
      invariant 0 <= i <= |tracks|
      invariant ByControl(tracks, uri) == i + ByControl(tracks[i..], uri)
    {
      if !tracks[i].setup && EndsWith(uri, tracks[i].control) { return; }
      assert tracks[i..][1..] == tracks[i + 1..];
      i := i + 1;
    }
    if |tracks| == 1 && !tracks[0].setup { return 0; }
  }

  /** turbo_media_rtsp_adapter_format_transport, up to the header text. */
  method FormatTransport(tracks: seq<Track>, i: nat, t: Transport) returns (r: Option<(int, int)>)
    requires i < |tracks|
    ensures r == Channels(tracks, i, t)
  {
    if !t.tcp { return None; }
    var rtp := if t.rtp >= 0 then t.rtp else 0;
    var rtcp := if t.rtcp >= 0 then t.rtcp else rtp + 1;
    if rtp > 255 || rtcp > 255 || rtp == rtcp { return None; }
    var k := 0;
    while k < |tracks|
      invariant 0 <= k <= |tracks|
      invariant forall j :: 0 <= j < k && j != i && tracks[j].setup ==> !Clash(tracks[j], rtp, rtcp)
    {
      if k != i && tracks[k].setup && Clash(tracks[k], rtp, rtcp) { return None; }
      k := k + 1;
    }
    return Some((rtp, rtcp));
  }

  /** turbo_media_rtsp_adapter_on_setup behind the lookup of the binding. */
  method ServeSetup(b: Binding, sessionId: string, uri: string, t: Transport) returns (b': Binding, code: int)
    ensures (b', code) == OnSetup(b, sessionId, uri, t)
  {
    b' := b;
    if (b.setupCount > 0 || sessionId != "") && !(sessionId != "" && b.sessionId == sessionId) { return b, 454; }
    var mode := EffectiveMode(b, t.mode);
    if mode == Record && b.state != Announced && b.state != Setup { return b, 455; }
    if mode == Play && b.state != Described && b.state != Setup { return b, 455; }
    if b.mode != Unspecified && b.mode != mode { return b, 455; }
    var i := FindSetupTrack(b.tracks, uri);
    if i == |b.tracks| { return b, 404; }
    var channels := FormatTransport(b.tracks, i, t);
    if channels.None? { return b, 461; }
    var track := b.tracks[i].(rtp := channels.value.0, rtcp := channels.value.1, setup := true);
    b' := b.(tracks := b.tracks[i := track], setupCount := b.setupCount + 1);
    b' := b'.(mode := mode, state := Setup);
    code := 200;
  }

  /** The loop of turbo_media_rtsp_adapter_on_interleaved. */
  method Interleaved(b: Binding, channel: byte) returns (route: Route)
    ensures route == RouteOf(b, channel)
  {
    if !b.publisher || b.state != Recording { return Refused; }
    var i := 0;
    while i < |b.tracks|
      invariant 0 <= i <= |b.tracks|
      invariant RouteFrom(b.tracks, i, channel) == RouteFrom(b.tracks, 0, channel)
    {
      if b.tracks[i].setup {
        if b.tracks[i].rtcp == channel { return Dropped; }
        if b.tracks[i].rtp == channel { return ToTrack(b.tracks[i].id); }
      }
      i := i + 1;
    }
    return Refused;
  }

  // ---- The table of bindings ---------------------------------------------------------------

  /** A slot of the table: the RTSP session it serves and its binding. */
  datatype Slot = Free | Used(session: nat, binding: Binding)

  class Adapter {
    const slots: array<Slot>

    ghost predicate Valid()
      reads this, slots
    {
      && slots.Length == MAX_SESSIONS
      && (forall i :: 0 <= i < slots.Length && slots[i].Used? ==> Inv(slots[i].binding))
      && forall i, j :: 0 <= i < j < slots.Length && slots[i].Used? && slots[j].Used? ==>
           slots[i].session != slots[j].session
    }

    constructor ()
      ensures Valid() && fresh(slots)
    {
      slots := new Slot[MAX_SESSIONS](_ => Free);
    }

    /** turbo_media_rtsp_adapter_find_binding. */
    method Find(session: nat) returns (i: int)
      requires Valid()
      ensures -1 <= i < slots.Length
      ensures i >= 0 ==> slots[i].Used? && slots[i].session == session
      ensures i < 0 ==> forall k :: 0 <= k < slots.Length && slots[k].Used? ==> slots[k].session != session
    {
      i := 0;
      while i < slots.Length
        invariant 0 <= i <= slots.Length
        invariant forall k :: 0 <= k < i && slots[k].Used? ==> slots[k].session != session
      {
        if slots[i].Used? && slots[i].session == session { return; }
        i := i + 1;
      }
      i := -1;
    }

    /** turbo_media_rtsp_adapter_get_binding; `newId` is the generated id, absent when generation fails. */
    method Get(session: nat, newId: Option<string>) returns (i: int)
      requires Valid()
      modifies slots
      ensures Valid() && -1 <= i < slots.Length
      ensures i >= 0 ==> slots[i].Used? && slots[i].session == session
      ensures i < 0 ==> forall k :: 0 <= k < slots.Length && slots[k].Used? ==> slots[k].session != session
      ensures i < 0 ==> newId.None? || forall k :: 0 <= k < slots.Length ==> slots[k].Used?
      ensures forall k :: 0 <= k < slots.Length && k != i ==> slots[k] == old(slots[k])
      ensures i >= 0 && old(slots[i]).Used? ==> slots[i] == old(slots[i])
      ensures i >= 0 && old(slots[i]).Free? ==> newId.Some? && slots[i] == Used(session, Fresh(newId.value))
    {
      i := Find(session);
      if i >= 0 { return; }
      var k := 0;
      while k < slots.Length
        invariant 0 <= k <= slots.Length && slots[..] == old(slots[..])
        invariant forall j :: 0 <= j < k ==> slots[j].Used?
      {
        if slots[k].Free? {
          if newId.None? { return -1; }
          FreshInv(newId.value);
          slots[k] := Used(session, Fresh(newId.value));
          return k;
        }
        k := k + 1;
      }
      return -1;
    }

    /** ANNOUNCE and DESCRIBE take a binding if need be; the other requests need one already. */
    method Handle(session: nat, r: Request, newId: Option<string>) returns (code: int)
      requires Valid() && Possible(r)
      modifies slots
      ensures Valid()
      ensures forall k :: 0 <= k < slots.Length && old(slots[k]).Used? ==>
                slots[k] == (if old(slots[k]).session == session
                             then Used(session, OnRequest(old(slots[k]).binding, r).0) else old(slots[k]))
      ensures forall k :: 0 <= k < slots.Length && old(slots[k]).Used? && old(slots[k]).session == session ==>
                code == OnRequest(old(slots[k]).binding, r).1 && forall j :: 0 <= j < slots.Length && j != k ==> slots[j] == old(slots[j])
      ensures (forall k :: 0 <= k < slots.Length && old(slots[k]).Used? ==> old(slots[k]).session != session) ==>
                if !(r.AnnounceReq? || r.DescribeReq?) then code == 455 && slots[..] == old(slots[..])
                else if newId.None? || forall k :: 0 <= k < slots.Length ==> old(slots[k]).Used?
                then code == 453 && slots[..] == old(slots[..])
                else exists i :: 0 <= i < slots.Length && old(slots[i]).Free?
                               && slots[..] == old(slots[..])[i := Used(session, OnRequest(Fresh(newId.value), r).0)]
                               && code == OnRequest(Fresh(newId.value), r).1
    {
      hide Inv, OnRequest;
      var i: int;
      if r.AnnounceReq? || r.DescribeReq? {
        i := Get(session, newId);
        if i < 0 { return 453; }
      } else {
        i := Find(session);
        if i < 0 { return 455; }
      }
      RequestKeeps(slots[i].binding, r);
      var b;
      if r.SetupReq? {
        b, code := ServeSetup(slots[i].binding, r.sessionId, r.uri, r.transport);
        SetupRequest(slots[i].binding, r);
      } else {
        var x := OnRequest(slots[i].binding, r);
        b, code := x.0, x.1;
      }
      slots[i] := Used(session, b);
      assert old(slots[i]).Free? ==> slots[..] == old(slots[..])[i := Used(session, b)];
    }

    /** TEARDOWN: only with the right session id. */
    method Teardown(session: nat, sessionId: string) returns (code: int)
      requires Valid()
      modifies slots
      ensures Valid()
      ensures forall k :: 0 <= k < slots.Length ==>
                slots[k] == (if old(slots[k]).Used? && old(slots[k]).session == session
                                && sessionId != "" && old(slots[k]).binding.sessionId == sessionId
                             then Free else old(slots[k]))
      ensures code == if exists k :: 0 <= k < slots.Length && old(slots[k]).Used? && old(slots[k]).session == session
                                     && sessionId != "" && old(slots[k]).binding.sessionId == sessionId
                      then 200 else 454
    {
      hide Inv;
      var i := Find(session);
      if i < 0 || sessionId == "" || slots[i].binding.sessionId != sessionId { return 454; }
      slots[i] := Free;
      code := 200;
    }
  }
}
