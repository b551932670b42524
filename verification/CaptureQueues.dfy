/**
 * The bounded video and audio capture queues of
 * client_processing/core/client_processing_queues.c. The functions say what each
 * call does to a plain FIFO; the classes carry the calls out on two rings and are
 * proved to do exactly that.
 */
module CaptureQueues {
  import opened Bytes
  import opened FrameRing

  datatype State = Created | Prepared | Running | Paused | Draining | Stopped | Failed

  datatype Status = Ok | EInval | EState | EFull | ENoMem

  datatype Limits = Limits(capacity: nat, maxBytes: nat, maxDuration: nat) {
    predicate Valid() { 0 < capacity && 0 < maxBytes && 0 < maxDuration <= UINT64_MAX }
  }

  /** Result of a pop: the size reported to the caller and, on success, the entry handed over. */
  datatype Popped<M> = Popped(status: Status, size: nat, entry: Option<Entry<M>>)

  // ---- Video -------------------------------------------------------------------------------

  datatype VideoMeta = VideoMeta(width: int, height: int, ts: nat)

  datatype VideoQueue =
    VideoQueue(q: seq<Entry<VideoMeta>>, duration: nat, admitted: nat, rejected: nat)
  {
    function Refuse(): VideoQueue { this.(rejected := rejected + 1) }
  }

  const EMPTY_VIDEO := VideoQueue([], 0, 0, 0)

  function Elapsed(first: nat, last: nat): nat { if last >= first then last - first else 0 }

  /** queue_recompute_duration_locked, with its fallback to 0. */
  function VideoSpan(q: seq<Entry<VideoMeta>>): nat {
    if |q| <= 1 then 0 else Elapsed(q[0].meta.ts, q[|q| - 1].meta.ts)
  }

  function AdmitVideo(l: Limits, m: VideoQueue, state: State, frame: seq<byte>, width: int, height: int, ts: nat)
    : (r: (VideoQueue, Status))
  {
    if frame == [] || width <= 0 || height <= 0 then (m, EInval)
    else if state != Running then (m.Refuse(), EState)
    else if |m.q| >= l.capacity || |frame| > l.maxBytes - |Flat(m.q)| then (m.Refuse(), EFull)
    else if m.q != [] && ts < m.q[|m.q| - 1].meta.ts then (m.Refuse(), EInval)
    else if m.q != [] && ts - m.q[0].meta.ts > l.maxDuration then (m.Refuse(), EFull)
    else (VideoQueue(m.q + [Entry(frame, VideoMeta(width, height, ts))],
                     if m.q == [] || ts < m.q[0].meta.ts then 0 else ts - m.q[0].meta.ts,
                     m.admitted + 1, m.rejected), Ok)
  }

  /** `room` is the destination capacity, absent when the destination is null. */
  function PopVideo(m: VideoQueue, room: Option<nat>): (r: (VideoQueue, Popped<VideoMeta>)) {
    if m.q == [] then (m, Popped(EState, 0, None))
    else if room.None? || room.value < |m.q[0].payload| then (m, Popped(EFull, |m.q[0].payload|, None))
    else (m.(q := m.q[1..], duration := VideoSpan(m.q[1..])), Popped(Ok, |m.q[0].payload|, Some(m.q[0])))
  }

  function ClearVideo(m: VideoQueue): VideoQueue { m.(q := [], duration := 0) }

  /** What every call keeps: the three hard bounds, ordered timestamps, an exact span. */
  ghost predicate VideoInv(l: Limits, m: VideoQueue) {
    && |m.q| <= l.capacity && |Flat(m.q)| <= l.maxBytes
    && (forall i, j :: 0 <= i < j < |m.q| ==> m.q[i].meta.ts <= m.q[j].meta.ts)
    && m.duration <= l.maxDuration
    && m.duration == if m.q == [] then 0 else m.q[|m.q| - 1].meta.ts - m.q[0].meta.ts
  }

  lemma AdmitVideoKeeps(l: Limits, m: VideoQueue, state: State, frame: seq<byte>, width: int, height: int, ts: nat)
    requires VideoInv(l, m)
    ensures VideoInv(l, AdmitVideo(l, m, state, frame, width, height, ts).0)
  {
    hide Flat;
    var e := Entry(frame, VideoMeta(width, height, ts));
    FlatAppend(m.q, e);
    var q' := m.q + [e];
    assert forall i :: 0 <= i < |q'| ==> q'[i] == if i < |m.q| then m.q[i] else e;
  }

  /** The queue with `e` behind it, whether or not that is allowed. */
  function WithVideo(m: VideoQueue, e: Entry<VideoMeta>): VideoQueue {
    m.(q := m.q + [e], duration := VideoSpan(m.q + [e]), admitted := m.admitted + 1)
  }

  /** A proper frame in the running state is turned away exactly when it would break one of the bounds or the order. */
  lemma AdmitVideoExact(l: Limits, m: VideoQueue, frame: seq<byte>, width: int, height: int, ts: nat)
    requires VideoInv(l, m) && l.Valid() && frame != [] && width > 0 && height > 0
    ensures var (m', status) := AdmitVideo(l, m, Running, frame, width, height, ts);
            var with := WithVideo(m, Entry(frame, VideoMeta(width, height, ts)));
            && (status == Ok <==> VideoInv(l, with))
            && m' == (if status == Ok then with else m.Refuse())
  {
    var e := Entry(frame, VideoMeta(width, height, ts));
    var q' := m.q + [e];
    hide Flat;
    FlatAppend(m.q, e);
    assert q'[|m.q|] == e;
    if m.q != [] {
      assert q'[0] == m.q[0] && q'[|m.q| - 1] == m.q[|m.q| - 1];
      AdmitVideoKeeps(l, m, Running, frame, width, height, ts);
    }
  }

  lemma PopVideoKeeps(l: Limits, m: VideoQueue, room: Option<nat>)
    requires VideoInv(l, m)
    ensures VideoInv(l, PopVideo(m, room).0)
  {
    if m.q != [] {
      assert Flat(m.q) == m.q[0].payload + Flat(m.q[1..]);
    }
  }

  class VideoCapture {
    const limits: Limits
    const ring: Ring<VideoMeta>
    var queuedDuration: nat
    var admitted: nat
    var rejected: nat

    ghost predicate Valid()
      reads this, ring, ring.slots, ring.storage
    {
      && limits.Valid() && ring.Valid()
      && ring.slots.Length == limits.capacity && ring.storage.Length == limits.maxBytes
      && VideoInv(limits, Model())
    }

    ghost function Model(): VideoQueue
      reads this, ring
    {
      VideoQueue(ring.Contents, queuedDuration, admitted, rejected)
    }

    constructor (limits: Limits)
      requires limits.Valid()
      ensures Valid() && Model() == EMPTY_VIDEO
      ensures fresh(ring) && fresh(ring.slots) && fresh(ring.storage)
    {
      this.limits := limits;
      ring := new Ring(limits.capacity, limits.maxBytes, VideoMeta(0, 0, 0));
      queuedDuration, admitted, rejected := 0, 0, 0;
    }

    /** The checks of turbo_client_processing_admit_video_frame made under the lock. */
    method Check(state: State, frame: seq<byte>, width: int, height: int, ts: nat)
      returns (status: Status, prospective: nat)
      requires Valid() && frame != [] && width > 0 && height > 0
      ensures var (m, st) := AdmitVideo(limits, Model(), state, frame, width, height, ts);
              status == st && (status == Ok ==> prospective == m.duration)
      ensures status == Ok ==> ring.count < ring.slots.Length && |frame| <= ring.storage.Length - ring.bytes
    {
      hide VideoInv, SlotsHold, BytesHold, Wrap;
      prospective := 0;
      if state != Running { return EState, 0; }
      if ring.count >= limits.capacity || |frame| > limits.maxBytes - ring.bytes { return EFull, 0; }
      if ring.count != 0 {
        var oldest, newest := ring.Ends();
        if ts < newest.meta.ts { return EInval, 0; }
        prospective := Elapsed(oldest.meta.ts, ts);
        if prospective > limits.maxDuration { return EFull, 0; }
      }
      status := Ok;
    }

    /** turbo_client_processing_admit_video_frame; `state` is the value read inside the lock. */
    method Admit(state: State, frame: seq<byte>, width: int, height: int, ts: nat) returns (status: Status)
      requires Valid() && ts <= UINT64_MAX
      modifies this, ring, ring.slots, ring.storage
      ensures Valid()
      ensures (Model(), status) == AdmitVideo(limits, old(Model()), state, frame, width, height, ts)
    {
      hide VideoInv, Ring.Valid, Flat;
      AdmitVideoKeeps(limits, Model(), state, frame, width, height, ts);
      if frame == [] || width <= 0 || height <= 0 { return EInval; }
      var prospective;
      status, prospective := Check(state, frame, width, height, ts);
      if status != Ok {
        rejected := rejected + 1;
        return;
      }
      ring.Append(frame, VideoMeta(width, height, ts));
      queuedDuration := prospective;
      admitted := admitted + 1;
    }

    /** turbo_client_processing_pop_video_frame. */
    method Pop(destination: array?<byte>) returns (status: Status, size: nat, info: VideoMeta)
      requires Valid() && destination != ring.storage
      modifies this, ring, ring.slots, destination
      ensures Valid()
      ensures var (m, p) := PopVideo(old(Model()), if destination == null then None else Some(destination.Length));
              && Model() == m && status == p.status && size == p.size
              && (p.entry.Some? ==>
                    && info == p.entry.value.meta
                    && destination[..] == p.entry.value.payload + old(destination[..])[size..])
      ensures status != Ok && destination != null ==> destination[..] == old(destination[..])
    {
      PopVideoKeeps(limits, Model(), if destination == null then None else Some(destination.Length));
      info := VideoMeta(0, 0, 0);
      if ring.count == 0 { return EState, 0, info; }
      var oldest, _ := ring.Ends();
      size := oldest.size;
      if destination == null || destination.Length < size { return EFull, size, info; }
      info := oldest.meta;
      ring.RemoveHead(destination);
      if ring.count <= 1 {
        queuedDuration := 0;
      } else {
        var first, last := ring.Ends();
        queuedDuration := Elapsed(first.meta.ts, last.meta.ts);
      }
      return Ok, size, info;
    }

    /** turbo_client_processing_queue_clear_locked. */
    method Clear()
      requires Valid()
      modifies this, ring, ring.slots
      ensures Valid() && Model() == ClearVideo(old(Model()))
    {
      ring.Clear();
      queuedDuration := 0;
    }
  }

  // ---- Audio -------------------------------------------------------------------------------

  datatype AudioMeta = AudioMeta(ts: nat, duration: nat)

  datatype AudioConfig = AudioConfig(limits: Limits, rate: nat, channels: nat, bits: nat) {
    /** audio_config_valid, as far as it concerns values. */
    predicate Valid() {
      && limits.Valid()
      && (rate == 8000 || rate == 16000 || rate == 24000 || rate == 48000)
      && (channels == 1 || channels == 2)
      && (bits == 16 || bits == 32)
    }

    function FrameBytes(): nat { channels * (bits / 8) }
  }

  /** What a successful pop tells about the payload. */
  datatype AudioInfo = AudioInfo(ts: nat, rate: nat, channels: nat, bits: nat)

  function InfoOf(c: AudioConfig, ts: nat): AudioInfo { AudioInfo(ts, c.rate, c.channels, c.bits) }

  datatype AudioQueue =
    AudioQueue(config: Option<AudioConfig>, q: seq<Entry<AudioMeta>>, duration: nat, admitted: nat, rejected: nat)
  {
    function Refuse(): AudioQueue { this.(rejected := rejected + 1) }
  }

  const MICROS := 1_000_000

  /** audio_payload_duration_us on sample frames: whole seconds first, the rest rounded up. */
  function FramesDuration(frames: nat, rate: nat): (d: Option<nat>)
    requires 0 < rate
  {
    var whole := frames / rate;
    if whole > UINT64_MAX / MICROS then None
    else
      var rest := (frames % rate * MICROS + rate - 1) / rate;
      if whole * MICROS > UINT64_MAX - rest then None else Some(whole * MICROS + rest)
  }

  function PayloadDuration(c: AudioConfig, len: nat): (d: Option<nat>) {
    if c.rate == 0 || c.FrameBytes() == 0 || len == 0 || len % c.FrameBytes() != 0 then None
    else FramesDuration(len / c.FrameBytes(), c.rate)
  }

  /** The least number of microseconds that covers `frames` sample frames at `rate`. */
  ghost predicate IsCeiling(frames: nat, rate: nat, d: int) {
    d * rate >= frames * MICROS && (d - 1) * rate < frames * MICROS
  }

  lemma Scaled(a: int, b: int, k: nat)
    requires a <= b
    ensures a * k <= b * k
  {
  }

  lemma CeilingUnique(frames: nat, rate: nat, d: int, e: int)
    requires 0 < rate && IsCeiling(frames, rate, d) && IsCeiling(frames, rate, e)
    ensures d == e
  {
    if d < e {
      Scaled(d, e - 1, rate);
    } else if e < d {
      Scaled(e, d - 1, rate);
    }
  }

  lemma CeilingDivision(a: nat, rate: nat)
    requires 0 < rate
    ensures var d := (a + rate - 1) / rate; d * rate >= a && (d - 1) * rate < a
  {
    var d := (a + rate - 1) / rate;
    assert a + rate - 1 == d * rate + (a + rate - 1) % rate;
  }

  /**
   * The duration is the exact ceiling of frames * 10^6 / rate, and it is refused
   * exactly when that number does not fit 64 bits.
   */
  lemma FramesDurationExact(frames: nat, rate: nat, exact: int)
    requires 0 < rate && IsCeiling(frames, rate, exact)
    ensures FramesDuration(frames, rate) == if exact <= UINT64_MAX then Some(exact) else None
  {
    var whole, rem := frames / rate, frames % rate;
    var rest := (rem * MICROS + rate - 1) / rate;
    CeilingDivision(rem * MICROS, rate);
    var d := whole * MICROS + rest;
    assert frames * MICROS == whole * MICROS * rate + rem * MICROS by {
      assert frames == whole * rate + rem;
      assert whole * rate * MICROS == whole * MICROS * rate;
    }
    assert d * rate == whole * MICROS * rate + rest * rate;
    assert (d - 1) * rate == whole * MICROS * rate + (rest - 1) * rate;
    CeilingUnique(frames, rate, d, exact);
  }

  /**
   * For every valid configuration: an aligned, non-empty payload lasts exactly the ceiling of
   * its sample frames times 10^6 over the rate, and is refused only when that needs more than 64 bits.
   */
  lemma PayloadDurationExact(c: AudioConfig, len: nat)
    requires c.Valid()
    ensures c.FrameBytes() > 0
    ensures var exact := (len / c.FrameBytes() * MICROS + c.rate - 1) / c.rate;
            && IsCeiling(len / c.FrameBytes(), c.rate, exact)
            && PayloadDuration(c, len) ==
               if len == 0 || len % c.FrameBytes() != 0 || exact > UINT64_MAX then None else Some(exact)
  {
    hide FramesDuration;
    FrameBytesPositive(c);
    var frames := len / c.FrameBytes();
    CeilingDivision(frames * MICROS, c.rate);
    FramesDurationExact(frames, c.rate, (frames * MICROS + c.rate - 1) / c.rate);
  }

  /** audio_recompute_duration_locked, with both of its UINT64_MAX fallbacks. */
  function SpanBetween(first: AudioMeta, last: AudioMeta): nat {
    if last.duration > UINT64_MAX - last.ts then UINT64_MAX
    else if last.ts + last.duration < first.ts then UINT64_MAX
    else last.ts + last.duration - first.ts
  }

  function AudioSpan(q: seq<Entry<AudioMeta>>): nat {
    if q == [] then 0 else SpanBetween(q[0].meta, q[|q| - 1].meta)
  }

  function AdmitAudio(m: AudioQueue, state: State, samples: seq<byte>, ts: nat): (r: (AudioQueue, Status))
    requires m.config.Some? ==> m.config.value.Valid()
  {
    if samples == [] then (m, EInval)
    else if m.config.None? then (m.Refuse(), EState)
    else
      var c := m.config.value;
      if |samples| % c.FrameBytes() != 0 then (m.Refuse(), EInval)
      else if state != Running then (m.Refuse(), EState)
      else if |m.q| >= c.limits.capacity || |samples| > c.limits.maxBytes - |Flat(m.q)| then (m.Refuse(), EFull)
      else
        var d := PayloadDuration(c, |samples|);
        if d.None? || d.value > UINT64_MAX - ts then (m.Refuse(), EInval)
        else if m.q != [] && ts < m.q[|m.q| - 1].meta.ts then (m.Refuse(), EInval)
        else
          var q' := m.q + [Entry(samples, AudioMeta(ts, d.value))];
          if ts + d.value - q'[0].meta.ts > c.limits.maxDuration then (m.Refuse(), EFull)
          else (m.(q := q', duration := AudioSpan(q'), admitted := m.admitted + 1), Ok)
  }

  function PopAudio(m: AudioQueue, room: Option<nat>): (r: (AudioQueue, Popped<AudioMeta>)) {
    if m.config.None? || m.q == [] then (m, Popped(EState, 0, None))
    else if room.None? || room.value < |m.q[0].payload| then (m, Popped(EFull, |m.q[0].payload|, None))
    else (m.(q := m.q[1..], duration := AudioSpan(m.q[1..])), Popped(Ok, |m.q[0].payload|, Some(m.q[0])))
  }

  function ClearAudio(m: AudioQueue): AudioQueue {
    if m.config.None? then m else m.(q := [], duration := 0)
  }

  function EndTime(e: Entry<AudioMeta>): nat { e.meta.ts + e.meta.duration }

  /** Timestamps are ordered and every queued frame ends within the bound, counted from the head. */
  ghost predicate AudioFramesInv(c: AudioConfig, q: seq<Entry<AudioMeta>>) {
    && |q| <= c.limits.capacity && |Flat(q)| <= c.limits.maxBytes
    && (forall i, j :: 0 <= i < j < |q| ==> q[i].meta.ts <= q[j].meta.ts)
    && forall i :: 0 <= i < |q| ==>
         && PayloadDuration(c, |q[i].payload|) == Some(q[i].meta.duration)
         && EndTime(q[i]) <= UINT64_MAX
         && EndTime(q[i]) - q[0].meta.ts <= c.limits.maxDuration
  }

  /** What every audio call keeps. */
  ghost predicate AudioInv(m: AudioQueue) {
    && (m.config.None? ==> m.q == [] && m.duration == 0)
    && (m.config.Some? ==>
          && m.config.value.Valid() && AudioFramesInv(m.config.value, m.q)
          && m.duration == if m.q == [] then 0 else EndTime(m.q[|m.q| - 1]) - m.q[0].meta.ts)
  }

  lemma AudioFramesAppend(c: AudioConfig, q: seq<Entry<AudioMeta>>, e: Entry<AudioMeta>)
    requires AudioFramesInv(c, q)
    requires |q| < c.limits.capacity && |e.payload| <= c.limits.maxBytes - |Flat(q)|
    requires PayloadDuration(c, |e.payload|) == Some(e.meta.duration) && EndTime(e) <= UINT64_MAX
    requires q != [] ==> q[|q| - 1].meta.ts <= e.meta.ts
    requires EndTime(e) - (q + [e])[0].meta.ts <= c.limits.maxDuration
    ensures AudioFramesInv(c, q + [e])
    ensures AudioSpan(q + [e]) == EndTime(e) - (q + [e])[0].meta.ts
  {
    hide PayloadDuration, Flat, AudioSpan;
    var q' := q + [e];
    FlatAppend(q, e);
    assert q'[0].meta.ts <= e.meta.ts;
    forall i | 0 <= i < |q'|
      ensures PayloadDuration(c, |q'[i].payload|) == Some(q'[i].meta.duration)
      ensures EndTime(q'[i]) <= UINT64_MAX && EndTime(q'[i]) - q'[0].meta.ts <= c.limits.maxDuration
    {
      assert q'[i] == if i < |q| then q[i] else e;
    }
    AudioSpanEnd(q', e);
  }

  lemma AudioSpanEnd(q: seq<Entry<AudioMeta>>, e: Entry<AudioMeta>)
    requires q != [] && q[|q| - 1] == e && q[0].meta.ts <= e.meta.ts && EndTime(e) <= UINT64_MAX
    ensures AudioSpan(q) == EndTime(e) - q[0].meta.ts
  {
  }

  lemma AdmitAudioKeeps(m: AudioQueue, state: State, samples: seq<byte>, ts: nat)
    requires AudioInv(m)
    ensures m.config.Some? ==> m.config.value.Valid()
    ensures samples == [] ==> AdmitAudio(m, state, samples, ts) == (m, EInval)
    ensures AudioInv(AdmitAudio(m, state, samples, ts).0)
  {
    hide PayloadDuration, AudioFramesInv, AudioSpan, AudioConfig.FrameBytes;
    var (m', status) := AdmitAudio(m, state, samples, ts);
    if status == Ok {
      AudioFramesAppend(m.config.value, m.q, m'.q[|m.q|]);
    }
  }

  /** A proper payload in the running state is turned away exactly when it would break the bounds or the order. */
  lemma AdmitAudioExact(m: AudioQueue, samples: seq<byte>, ts: nat, duration: nat)
    requires AudioInv(m) && m.config.Some? && PayloadDuration(m.config.value, |samples|) == Some(duration)
    ensures var e := Entry(samples, AudioMeta(ts, duration));
            var (m', status) := AdmitAudio(m, Running, samples, ts);
            && (status == Ok <==> AudioFramesInv(m.config.value, m.q + [e]))
            && m' == if status == Ok
                     then m.(q := m.q + [e], duration := AudioSpan(m.q + [e]), admitted := m.admitted + 1)
                     else m.Refuse()
  {
    var c, e := m.config.value, Entry(samples, AudioMeta(ts, duration));
    AlignedPayload(c, |samples|);
    hide PayloadDuration, Flat, AudioConfig.FrameBytes, AudioSpan;
    FlatAppend(m.q, e);
    var q' := m.q + [e];
    assert q'[|m.q|] == e;
    if m.q != [] {
      assert q'[0] == m.q[0] && q'[|m.q| - 1] == m.q[|m.q| - 1];
    }
    if AdmitAudio(m, Running, samples, ts).1 == Ok {
      AudioFramesAppend(c, m.q, e);
    }
  }

  lemma AlignedPayload(c: AudioConfig, len: nat)
    requires c.Valid() && PayloadDuration(c, len).Some?
    ensures len > 0 && c.FrameBytes() > 0 && len % c.FrameBytes() == 0
  {
  }

  lemma PopAudioKeeps(m: AudioQueue, room: Option<nat>)
    requires AudioInv(m)
    ensures AudioInv(PopAudio(m, room).0)
  {
    if m.q != [] {
      assert Flat(m.q) == m.q[0].payload + Flat(m.q[1..]);
    }
  }

  /** In a state that keeps the invariant neither UINT64_MAX fallback is ever taken. */
  lemma AudioSpanNeverFallsBack(m: AudioQueue)
    requires AudioInv(m) && m.q != []
    ensures AudioSpan(m.q) == m.duration == EndTime(m.q[|m.q| - 1]) - m.q[0].meta.ts
    ensures 0 < m.duration <= m.config.value.limits.maxDuration
  {
    var c, last := m.config.value, m.q[|m.q| - 1];
    PayloadDurationPositive(c, |last.payload|);
  }

  lemma PayloadDurationPositive(c: AudioConfig, len: nat)
    requires c.Valid() && PayloadDuration(c, len).Some?
    ensures PayloadDuration(c, len).value > 0
  {
    hide FramesDuration, AudioConfig.FrameBytes;
    PayloadDurationExact(c, len);
    assert len == c.FrameBytes() * (len / c.FrameBytes()) + len % c.FrameBytes();
  }

  /** A sample frame is two or four bytes for each channel. */
  lemma FrameBytesPositive(c: AudioConfig)
    requires c.Valid()
    ensures c.FrameBytes() == (if c.channels == 2 then 2 else 1) * (if c.bits == 32 then 4 else 2) > 0
  {
  }

  lemma OrderedEnds(m: AudioQueue)
    requires AudioInv(m)
    ensures m.q != [] ==> m.q[0].meta.ts <= m.q[|m.q| - 1].meta.ts
  {
  }

  class AudioCapture {
    var config: Option<AudioConfig>
    var ring: Ring?<AudioMeta>
    var queuedDuration: nat
    var admitted: nat
    var rejected: nat

    ghost function Footprint(): set<object>
      reads this
    {
      if ring == null then {this} else {this, ring, ring.slots, ring.storage}
    }

    ghost predicate Valid()
      reads this, Footprint()
    {
      && (config.Some? <==> ring != null)
      && (ring != null ==>
            && ring.Valid()
            && ring.slots.Length == config.value.limits.capacity
            && ring.storage.Length == config.value.limits.maxBytes)
      && AudioInv(Model())
    }

    ghost function Model(): AudioQueue
      reads this, Footprint()
    {
      AudioQueue(config, if ring == null then [] else ring.Contents, queuedDuration, admitted, rejected)
    }

    constructor ()
      ensures Valid() && Model() == AudioQueue(None, [], 0, 0, 0) && ring == null
    {
      config, ring := None, null;
      queuedDuration, admitted, rejected := 0, 0, 0;
    }

    /** turbo_client_processing_set_audio_capture_config; `memory` says whether the new rings could be allocated. */
    method Configure(state: State, c: AudioConfig, memory: bool) returns (status: Status)
      requires Valid()
      modifies this
      ensures Valid() && fresh(Footprint() - old(Footprint()))
      ensures status == if !c.Valid() then EInval else if state != Created then EState else if !memory then ENoMem else Ok
      ensures status == EInval <==>
              || c.limits.capacity == 0 || c.limits.maxBytes == 0 || c.limits.maxDuration == 0 || c.limits.maxDuration > UINT64_MAX
              || c.rate !in {8000, 16000, 24000, 48000} || c.channels !in {1, 2} || c.bits !in {16, 32}
      ensures Model() == if status == Ok then AudioQueue(Some(c), [], 0, 0, 0) else old(Model())
    {
      if !c.Valid() { return EInval; }
      if state != Created { return EState; }
      if !memory { return ENoMem; }
      ring := new Ring(c.limits.capacity, c.limits.maxBytes, AudioMeta(0, 0));
      config := Some(c);
      queuedDuration, admitted, rejected := 0, 0, 0;
      return Ok;
    }

    /** The checks of turbo_client_processing_admit_audio_frame made under the lock. */
    method Check(state: State, samples: seq<byte>, ts: nat) returns (status: Status, e: Entry<AudioMeta>, prospective: nat)
      requires Valid() && ts <= UINT64_MAX && samples != []
      ensures status == Ok ==> ring != null && |e.payload| <= ring.storage.Length - ring.bytes && ring.count < ring.slots.Length
      ensures AdmitAudio(Model(), state, samples, ts) == (
                if status == Ok
                then Model().(q := ring.Contents + [e], duration := prospective, admitted := admitted + 1)
                else Model().Refuse(), status)
    {
      hide PayloadDuration, SlotsHold, BytesHold, Wrap, AudioConfig.FrameBytes, AudioFramesInv, AudioConfig.Valid, Flat, AudioSpan;
      OrderedEnds(Model());
      e, prospective := Entry(samples, AudioMeta(ts, 0)), 0;
      if config.None? { return EState, e, 0; }
      var c := config.value;
      FrameBytesPositive(c);
      if |samples| % c.FrameBytes() != 0 { return EInval, e, 0; }
      if state != Running { return EState, e, 0; }
      if ring.count >= c.limits.capacity || |samples| > c.limits.maxBytes - ring.bytes { return EFull, e, 0; }
      var d := PayloadDuration(c, |samples|);
      if d.None? || d.value > UINT64_MAX - ts { return EInval, e, 0; }
      e := Entry(samples, AudioMeta(ts, d.value));
      var oldestTs := ts;
      if ring.count != 0 {
        var oldest, newest := ring.Ends();
        oldestTs := oldest.meta.ts;
        if ts < newest.meta.ts { return EInval, e, 0; }
      }
      prospective := ts + d.value - oldestTs;
      AudioSpanEnd(ring.Contents + [e], e);
      if prospective > c.limits.maxDuration { return EFull, e, 0; }
      status := Ok;
    }

    /** turbo_client_processing_admit_audio_frame; `state` is the value read inside the lock. */
    method Admit(state: State, samples: seq<byte>, ts: nat) returns (status: Status)
      requires Valid() && ts <= UINT64_MAX
      modifies Footprint()
      ensures Valid() && Footprint() == old(Footprint())
      ensures (Model(), status) == AdmitAudio(old(Model()), state, samples, ts)
    {
      hide AdmitAudio, AudioInv, Ring.Valid, AudioConfig.Valid;
      AdmitAudioKeeps(Model(), state, samples, ts);
      if samples == [] { return EInval; }
      var e, prospective;
      status, e, prospective := Check(state, samples, ts);
      if status != Ok {
        rejected := rejected + 1;
        return;
      }
      Store(e, prospective);
    }

    /** Appends the frame that passed every check and counts it. */
    method Store(e: Entry<AudioMeta>, prospective: nat)
      requires ring != null && ring.Valid()
      requires ring.count < ring.slots.Length && |e.payload| <= ring.storage.Length - ring.bytes
      modifies Footprint()
      ensures ring == old(ring) && ring != null && ring.Valid()
      ensures Model() == old(Model()).(q := old(ring.Contents) + [e], duration := prospective, admitted := old(admitted) + 1)
    {
      hide Ring.Valid;
      ring.Append(e.payload, e.meta);
      queuedDuration := prospective;
      admitted := admitted + 1;
    }

    /** turbo_client_processing_pop_audio_frame. */
    method Pop(destination: array?<byte>) returns (status: Status, size: nat, info: AudioInfo)
      requires Valid() && (destination != null ==> destination !in Footprint())
      modifies Footprint(), destination
      ensures Valid() && Footprint() == old(Footprint())
      ensures var (m, p) := PopAudio(old(Model()), if destination == null then None else Some(destination.Length));
              && Model() == m && status == p.status && size == p.size
              && (p.entry.Some? ==>
                    && config.Some? && info == InfoOf(config.value, p.entry.value.meta.ts)
                    && destination[..] == p.entry.value.payload + old(destination[..])[size..])
      ensures status != Ok && destination != null ==> destination[..] == old(destination[..])
    {
      hide AudioFramesInv, SlotsHold, BytesHold, Wrap, AudioConfig.Valid;
      PopAudioKeeps(Model(), if destination == null then None else Some(destination.Length));
      info := AudioInfo(0, 0, 0, 0);
      if config.None? || ring.count == 0 { return EState, 0, info; }
      var oldest, _ := ring.Ends();
      size := oldest.size;
      if destination == null || destination.Length < size { return EFull, size, info; }
      info := InfoOf(config.value, oldest.meta.ts);
      ring.RemoveHead(destination);
      if ring.count == 0 {
        queuedDuration := 0;
      } else {
        var first, last := ring.Ends();
        queuedDuration := SpanBetween(first.meta, last.meta);
      }
      return Ok, size, info;
    }

    /** turbo_client_processing_audio_clear_locked. */
    method Clear()
      requires Valid()
      modifies Footprint()
      ensures Valid() && Footprint() == old(Footprint())
      ensures Model() == ClearAudio(old(Model()))
    {
      if config.None? { return; }
      ring.Clear();
      queuedDuration := 0;
    }
  }
}
