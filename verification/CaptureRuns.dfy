/** Whole runs of queue calls: what goes in comes out once, in order, or is discarded by a clear. */
module CaptureRuns {
  import opened Bytes
  import opened FrameRing
  import opened CaptureQueues

  /** What a run did to a FIFO: entries accepted, and entries gone with how they went. */
  datatype Log<M> = Log(accepted: seq<Entry<M>>, gone: seq<Gone<M>>) {
    function Then(next: Log<M>): Log<M> { Log(accepted + next.accepted, gone + next.gone) }
  }

  datatype Gone<M> = Delivered(entry: Entry<M>) | Discarded(entry: Entry<M>)

  function Entries<M>(gone: seq<Gone<M>>): (r: seq<Entry<M>>)
    ensures |r| == |gone|
  {
    seq(|gone|, i requires 0 <= i < |gone| => gone[i].entry)
  }

  function DiscardAll<M>(q: seq<Entry<M>>): (r: seq<Gone<M>>)
    ensures |r| == |q| && Entries(r) == q
  {
    seq(|q|, i requires 0 <= i < |q| => Discarded(q[i]))
  }

  /** The FIFO law: the old queue followed by what was accepted is what is gone followed by the new queue. */
  ghost predicate Fifo<M>(q: seq<Entry<M>>, log: Log<M>, q': seq<Entry<M>>) {
    q + log.accepted == Entries(log.gone) + q'
  }

  lemma FifoThen<M>(q: seq<Entry<M>>, a: Log<M>, mid: seq<Entry<M>>, b: Log<M>, q': seq<Entry<M>>)
    requires Fifo(q, a, mid) && Fifo(mid, b, q')
    ensures Fifo(q, a.Then(b), q')
  {
    assert Entries(a.gone + b.gone) == Entries(a.gone) + Entries(b.gone);
    calc {
      q + (a.accepted + b.accepted);
      (q + a.accepted) + b.accepted;
      (Entries(a.gone) + mid) + b.accepted;
      Entries(a.gone) + (mid + b.accepted);
      Entries(a.gone) + (Entries(b.gone) + q');
      (Entries(a.gone) + Entries(b.gone)) + q';
    }
  }

  /** What a caller who is told Ok has handed in. */
  function HandedIn<M>(status: Status, e: Entry<M>): (r: seq<Entry<M>>) { if status == Ok then [e] else [] }

  function TakenBy<M>(p: Popped<M>): (r: seq<Gone<M>>) {
    if p.entry.Some? then [Delivered(p.entry.value)] else []
  }

  datatype VideoCall =
    | VAdmit(state: State, frame: seq<byte>, width: int, height: int, ts: nat)
    | VPop(room: Option<nat>)
    | VClear

  function VideoStep(l: Limits, m: VideoQueue, c: VideoCall): (r: (VideoQueue, Log<VideoMeta>)) {
    match c
    case VAdmit(state, frame, w, h, ts) =>
      var (m', status) := AdmitVideo(l, m, state, frame, w, h, ts);
      (m', Log(HandedIn(status, Entry(frame, VideoMeta(w, h, ts))), []))
    case VPop(room) =>
      var (m', p) := PopVideo(m, room);
      (m', Log([], TakenBy(p)))
    case VClear => (ClearVideo(m), Log([], DiscardAll(m.q)))
  }

  function RunVideo(l: Limits, m: VideoQueue, calls: seq<VideoCall>): (r: (VideoQueue, Log<VideoMeta>))
    decreases |calls|
  {
    if calls == [] then (m, Log([], []))
    else
      var (m', first) := VideoStep(l, m, calls[0]);
      var (m'', rest) := RunVideo(l, m', calls[1..]);
      (m'', first.Then(rest))
  }

  lemma VideoStepFifo(l: Limits, m: VideoQueue, c: VideoCall)
    requires VideoInv(l, m)
    ensures var (m', log) := VideoStep(l, m, c);
            Fifo(m.q, log, m'.q) && VideoInv(l, m') && m'.admitted == m.admitted + |log.accepted|
  {
    hide VideoInv, Flat;
    match c
    case VAdmit(state, frame, w, h, ts) => AdmitVideoKeeps(l, m, state, frame, w, h, ts);
    case VPop(room) =>
      PopVideoKeeps(l, m, room);
      if PopVideo(m, room).1.entry.Some? {
        assert Entries([Delivered(m.q[0])]) == [m.q[0]];
      }
    case VClear => ClearVideoKeeps(l, m);
  }

  lemma ClearVideoKeeps(l: Limits, m: VideoQueue)
    requires VideoInv(l, m)
    ensures VideoInv(l, ClearVideo(m))
  {
  }

  /** Every run of admits, refused admits, pops, too-small pops and clears keeps order and the bounds. */
  lemma {:induction false} RunVideoFifo(l: Limits, m: VideoQueue, calls: seq<VideoCall>)
    requires VideoInv(l, m)
    ensures var (m', log) := RunVideo(l, m, calls);
            Fifo(m.q, log, m'.q) && VideoInv(l, m') && m'.admitted == m.admitted + |log.accepted|
    decreases |calls|
  {
    if calls != [] {
      var (m', first) := VideoStep(l, m, calls[0]);
      VideoStepFifo(l, m, calls[0]);
      RunVideoFifo(l, m', calls[1..]);
      var (m'', rest) := RunVideo(l, m', calls[1..]);
      FifoThen(m.q, first, m'.q, rest, m''.q);
    } else {
      assert m.q + [] == Entries<VideoMeta>([]) + m.q;
    }
  }

  datatype AudioCall =
    | AAdmit(state: State, samples: seq<byte>, ts: nat)
    | APop(room: Option<nat>)
    | AClear

  /** How long the payload lasts; zero stands for a length that cannot be given. */
  function LengthOf(config: Option<AudioConfig>, samples: seq<byte>): nat {
    if config.None? then 0
    else match PayloadDuration(config.value, |samples|) case Some(d) => d case None => 0
  }

  function AudioStep(m: AudioQueue, c: AudioCall): (r: (AudioQueue, Log<AudioMeta>))
    requires m.config.Some? ==> m.config.value.Valid()
    ensures r.0.config == m.config
  {
    match c
    case AAdmit(state, samples, ts) =>
      var (m', status) := AdmitAudio(m, state, samples, ts);
      (m', Log(HandedIn(status, Entry(samples, AudioMeta(ts, LengthOf(m.config, samples)))), []))
    case APop(room) =>
      var (m', p) := PopAudio(m, room);
      (m', Log([], TakenBy(p)))
    case AClear => (ClearAudio(m), Log([], if m.config.None? then [] else DiscardAll(m.q)))
  }

  function RunAudio(m: AudioQueue, calls: seq<AudioCall>): (r: (AudioQueue, Log<AudioMeta>))
    requires m.config.Some? ==> m.config.value.Valid()
    decreases |calls|
  {
    if calls == [] then (m, Log([], []))
    else
      var (m', first) := AudioStep(m, calls[0]);
      var (m'', rest) := RunAudio(m', calls[1..]);
      (m'', first.Then(rest))
  }

  lemma AudioStepFifo(m: AudioQueue, c: AudioCall)
    requires AudioInv(m)
    ensures var (m', log) := AudioStep(m, c);
            Fifo(m.q, log, m'.q) && AudioInv(m') && m'.admitted == m.admitted + |log.accepted|
  {
    hide PayloadDuration, AudioFramesInv, Flat, AudioConfig.FrameBytes;
    match c
    case AAdmit(state, samples, ts) => AdmitAudioKeeps(m, state, samples, ts);
    case APop(room) =>
      PopAudioKeeps(m, room);
      if PopAudio(m, room).1.entry.Some? {
        assert Entries([Delivered(m.q[0])]) == [m.q[0]];
      }
    case AClear => ClearAudioKeeps(m);
  }

  lemma ClearAudioKeeps(m: AudioQueue)
    requires AudioInv(m)
    ensures AudioInv(ClearAudio(m))
  {
  }

  lemma {:induction false} RunAudioFifo(m: AudioQueue, calls: seq<AudioCall>)
    requires AudioInv(m)
    ensures var (m', log) := RunAudio(m, calls);
            Fifo(m.q, log, m'.q) && AudioInv(m') && m'.admitted == m.admitted + |log.accepted|
    decreases |calls|
  {
    hide AudioFramesInv, AudioStep;
    if calls != [] {
      var (m', first) := AudioStep(m, calls[0]);
      AudioStepFifo(m, calls[0]);
      RunAudioFifo(m', calls[1..]);
      var (m'', rest) := RunAudio(m', calls[1..]);
      FifoThen(m.q, first, m'.q, rest, m''.q);
    } else {
      assert m.q + [] == Entries<AudioMeta>([]) + m.q;
    }
  }

  /** A refused admission and a refused pop leave the queue, and the bytes in it, alone. */
  lemma RefusedCallsChangeNothing(l: Limits, v: VideoQueue, a: AudioQueue, state: State, data: seq<byte>,
                                  width: int, height: int, ts: nat, room: Option<nat>)
    requires AudioInv(a)
    ensures AdmitVideo(l, v, state, data, width, height, ts).1 != Ok ==>
              AdmitVideo(l, v, state, data, width, height, ts).0.q == v.q
    ensures PopVideo(v, room).1.status != Ok ==> PopVideo(v, room).0 == v
    ensures AdmitAudio(a, state, data, ts).1 != Ok ==> AdmitAudio(a, state, data, ts).0.q == a.q
    ensures PopAudio(a, room).1.status != Ok ==> PopAudio(a, room).0 == a
  {
    hide PayloadDuration, AudioFramesInv;
  }

  // ---- What a caller is told ---------------------------------------------------------------

  /**
   * Each error of a video admission has its cause: bad arguments or a timestamp that runs
   * backwards; any state but running; a bound on frames, bytes or time.
   */
  lemma VideoStatusLaw(l: Limits, m: VideoQueue, state: State, frame: seq<byte>, width: int, height: int, ts: nat)
    requires VideoInv(l, m)
    ensures var (m', status) := AdmitVideo(l, m, state, frame, width, height, ts);
            var proper, space := frame != [] && width > 0 && height > 0, |m.q| < l.capacity && |Flat(m.q)| + |frame| <= l.maxBytes;
            var ordered := m.q == [] || m.q[|m.q| - 1].meta.ts <= ts;
            var long := m.q != [] && m.q[0].meta.ts + l.maxDuration < ts;
            && (status == EState <==> proper && state != Running)
            && (status == EInval <==> !proper || (state == Running && space && !ordered))
            && (status == EFull <==> proper && state == Running && (!space || (ordered && long)))
            && (status != Ok ==> m' == if proper then m.(rejected := m.rejected + 1) else m)
            && status != ENoMem
  {
    hide Flat;
  }

  /** A pop reports the size of the oldest frame, hands it out if there is room for it, and tells an empty queue apart. */
  lemma VideoPopLaw(m: VideoQueue, room: Option<nat>)
    ensures var (m', p) := PopVideo(m, room);
            && (m.q == [] ==> m' == m && p == Popped(EState, 0, None))
            && (m.q != [] ==>
                  var head := m.q[0];
                  if room.Some? && room.value >= |head.payload|
                  then p == Popped(Ok, |head.payload|, Some(head)) && [head] + m'.q == m.q
                       && m'.admitted == m.admitted && m'.rejected == m.rejected
                  else m' == m && p == Popped(EFull, |head.payload|, None))
  {
  }

  /** The same for audio, where a missing configuration counts as a wrong state and a payload must be whole samples. */
  lemma AudioStatusLaw(m: AudioQueue, state: State, samples: seq<byte>, ts: nat)
    requires AudioInv(m)
    ensures m.config.Some? ==> m.config.value.FrameBytes() > 0
    ensures var (m', status) := AdmitAudio(m, state, samples, ts);
            && (samples == [] ==> status == EInval && m' == m)
            && (samples != [] && m.config.None? ==> status == EState)
            && (samples != [] && m.config.Some? ==>
                  var c := m.config.value;
                  var whole, space := |samples| % c.FrameBytes() == 0, |m.q| < c.limits.capacity && |Flat(m.q)| + |samples| <= c.limits.maxBytes;
                  var d, ordered := PayloadDuration(c, |samples|), m.q == [] || m.q[|m.q| - 1].meta.ts <= ts;
                  var timed := d.Some? && ts + d.value <= UINT64_MAX;
                  var first := if m.q == [] then ts else m.q[0].meta.ts;
                  var long := timed && first + c.limits.maxDuration < ts + d.value;
                  && (status == EState <==> whole && state != Running)
                  && (status == EInval <==> !whole || (state == Running && space && !(timed && ordered)))
                  && (status == EFull <==> whole && state == Running && (!space || (timed && ordered && long))))
            && (status != Ok && samples != [] ==> m' == m.(rejected := m.rejected + 1))
            && status != ENoMem
  {
    hide Flat, PayloadDuration, AudioSpan, AudioFramesInv;
  }

  lemma AudioPopLaw(m: AudioQueue, room: Option<nat>)
    requires AudioInv(m)
    ensures var (m', p) := PopAudio(m, room);
            && (m.q == [] ==> m' == m && p == Popped(EState, 0, None))
            && (m.q != [] ==>
                  var head := m.q[0];
                  if room.Some? && room.value >= |head.payload|
                  then p == Popped(Ok, |head.payload|, Some(head)) && [head] + m'.q == m.q && m'.config == m.config
                       && m'.admitted == m.admitted && m'.rejected == m.rejected
                  else m' == m && p == Popped(EFull, |head.payload|, None))
  {
    hide AudioFramesInv, AudioSpan;
  }
}
