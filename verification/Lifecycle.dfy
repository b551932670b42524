/**
 * The lifecycle calls of client_processing/client_processing.c, made one at a time by
 * the owner, interleaved with any number of capture callbacks and consumers. A step is
 * one atomic access or one critical section; a callback reads the state inside the lock
 * and stores the frame in a later step, while the owner may change the state in between.
 */
module Lifecycle {
  import opened Bytes
  import opened FrameRing
  import opened CaptureQueues
  import opened CaptureRuns

  datatype Flag = PermissionRevoked | CaptureLost | PlaybackLost | SurfaceLost | BackgroundDenied

  /** CAPTURE_BLOCKERS. */
  const BLOCKERS: set<Flag> := {PermissionRevoked, CaptureLost, BackgroundDenied}

  datatype Call =
    | Prepare(fileOk: bool) | Start | Pause | Resume | RequestStop | Drain
    | Lost(flag: Flag) | Restored(flag: Flag)
    | RunFile(planned: bool) | Configure(c: AudioConfig, memory: bool)

  /** Where the owner stands: idle, about to store a new state, or part way through drain. */
  datatype Owner =
    | Idle | Store(next: State) | FileStart | FileLoop
    | DrainVideo | DrainVideoHeld | DrainAudio | DrainAudioHeld | DrainStore

  datatype VideoArgs = VideoArgs(frame: seq<byte>, width: int, height: int, ts: nat)
  datatype AudioArgs = AudioArgs(samples: seq<byte>, ts: nat)

  /** A capture callback: it holds the lock, then it has also read the state. */
  datatype Callback<A> = Holding(args: A) | HasRead(args: A, seen: State)

  datatype Lock<A> = Free | ByOwner | ByCallback(cb: Callback<A>)

  datatype System = System(
    limits: Limits, state: State, flags: set<Flag>, owner: Owner,
    video: VideoQueue, videoLock: Lock<VideoArgs>,
    audio: AudioQueue, audioLock: Lock<AudioArgs>,
    fileFrames: nat,                 // the part of admitted_frames that the file path counted
    drained: bool)
  {
    /** admitted_frames, which capture callbacks and the file path share. */
    function AdmittedFrames(): nat { video.admitted + fileFrames }
  }

  datatype Step =
    | Begin(call: Call)
    | OwnerStep
    | FileFrame | FileEnds(ok: bool)
    | VideoLock(v: VideoArgs) | VideoRead | VideoCommit | VideoPop(room: Option<nat>)
    | AudioLock(a: AudioArgs) | AudioRead | AudioCommit | AudioPop(room: Option<nat>)

  ghost predicate Init(s: System) {
    && s.limits.Valid() && s.state == Created && s.owner == Idle && !s.drained
    && s.video == EMPTY_VIDEO && s.videoLock == Free
    && s.audio == AudioQueue(None, [], 0, 0, 0) && s.audioLock == Free && s.fileFrames == 0
  }

  /** The check a lifecycle call makes on the state it reads, and where it goes on success. */
  function Decision(s: System, call: Call): (o: Option<Owner>) {
    match call
    case Prepare(fileOk) => if s.state == Created then Some(Store(if fileOk then Prepared else Failed)) else None
    case Start => if s.state == Prepared && s.flags * BLOCKERS == {} then Some(Store(Running)) else None
    case Pause => if s.state == Running then Some(Store(Paused)) else None
    case Resume => if s.state == Paused && s.flags * BLOCKERS == {} then Some(Store(Running)) else None
    case RequestStop =>
      if s.state == Prepared || s.state == Running || s.state == Paused then Some(Store(Draining)) else None
    case Drain => if s.state == Draining then Some(DrainVideo) else None
    case Lost(flag) =>
      if s.state == Draining || s.state == Stopped || s.state == Failed then None
      else if flag in BLOCKERS && s.state == Running then Some(Store(Paused)) else Some(Idle)
    case Restored(flag) =>
      if s.state == Draining || s.state == Stopped || s.state == Failed then None else Some(Idle)
    case RunFile(planned) => if s.state == Prepared && planned then Some(FileStart) else None
    case Configure(c, memory) => if s.state == Created && c.Valid() && memory then Some(Idle) else None
  }

  ghost predicate Enabled(s: System, step: Step) {
    match step
    case Begin(call) => s.owner == Idle && (call.Configure? ==> s.audioLock == Free)
    case OwnerStep =>
      && !s.owner.Idle? && !s.owner.FileLoop?
      && (s.owner == DrainVideo ==> s.videoLock == Free)
      && (s.owner == DrainAudio ==> s.audioLock == Free)
    case FileFrame => s.owner == FileLoop && s.videoLock == Free
    case FileEnds(_) => s.owner == FileLoop
    case VideoLock(_) => s.videoLock == Free
    case VideoRead => s.videoLock.ByCallback? && s.videoLock.cb.Holding?
    case VideoCommit => s.videoLock.ByCallback? && s.videoLock.cb.HasRead?
    case VideoPop(_) => s.videoLock == Free
    case AudioLock(_) => s.audioLock == Free
    case AudioRead => s.audioLock.ByCallback? && s.audioLock.cb.Holding?
    case AudioCommit => s.audioLock.ByCallback? && s.audioLock.cb.HasRead?
    case AudioPop(_) => s.audioLock == Free
  }

  /** What a successful call does before it stores the new state. */
  function Begun(s: System, call: Call): System {
    match Decision(s, call)
    case None => s
    case Some(o) =>
      match call
      case Lost(flag) => s.(owner := o, flags := s.flags + {flag})
      case Restored(flag) => s.(owner := o, flags := s.flags - {flag})
      case Configure(c, _) => s.(owner := o, audio := AudioQueue(Some(c), [], 0, 0, 0))
      case _ => s.(owner := o)
  }

  function OwnerStepped(s: System): System {
    match s.owner
    case Store(next) => s.(state := next, owner := Idle)
    case FileStart => s.(state := Running, owner := FileLoop)
    case DrainVideo => s.(videoLock := ByOwner, owner := DrainVideoHeld)
    case DrainVideoHeld => s.(video := ClearVideo(s.video), videoLock := Free, owner := DrainAudio)
    case DrainAudio => s.(audioLock := ByOwner, owner := DrainAudioHeld)
    case DrainAudioHeld => s.(audio := ClearAudio(s.audio), audioLock := Free, owner := DrainStore)
    case DrainStore => s.(state := Stopped, owner := Idle, drained := true)
    case _ => s
  }

  ghost function Apply(s: System, step: Step): System
    requires Inv(s) && Enabled(s, step)
  {
    match step
    case Begin(call) => Begun(s, call)
    case OwnerStep => OwnerStepped(s)
    case FileFrame => s.(fileFrames := s.fileFrames + 1)
    case FileEnds(ok) => s.(owner := Store(if ok then Stopped else Failed))
    case VideoLock(v) => s.(videoLock := ByCallback(Holding(v)))
    case VideoRead => s.(videoLock := ByCallback(HasRead(s.videoLock.cb.args, s.state)))
    case VideoCommit =>
      var v := s.videoLock.cb.args;
      s.(video := AdmitVideo(s.limits, s.video, s.videoLock.cb.seen, v.frame, v.width, v.height, v.ts).0,
         videoLock := Free)
    case VideoPop(room) => s.(video := PopVideo(s.video, room).0)
    case AudioLock(a) => s.(audioLock := ByCallback(Holding(a)))
    case AudioRead => s.(audioLock := ByCallback(HasRead(s.audioLock.cb.args, s.state)))
    case AudioCommit =>
      var a := s.audioLock.cb.args;
      s.(audio := AdmitAudio(s.audio, s.audioLock.cb.seen, a.samples, a.ts).0, audioLock := Free)
    case AudioPop(room) => s.(audio := PopAudio(s.audio, room).0)
  }

  /** A callback that will still store a frame. */
  predicate MayAdmit<A(!new)>(lock: Lock<A>) {
    lock.ByCallback? && lock.cb.HasRead? && lock.cb.seen == Running
  }

  ghost predicate Inv(s: System) {
    && VideoInv(s.limits, s.video) && AudioInv(s.audio)
    // A pending store was decided in a state that drain has not reached.
    && (s.owner.Store? || s.owner.FileStart? ==> s.state in {Created, Prepared, Running, Paused})
    && (s.owner.Store? ==> s.owner.next != Created)
    && (s.owner.FileLoop? ==> s.state == Running)
    && (s.owner in {DrainVideo, DrainVideoHeld, DrainAudio, DrainAudioHeld, DrainStore} ==> s.state == Draining)
    // Locks held by the owner.
    && (s.videoLock == ByOwner <==> s.owner == DrainVideoHeld)
    && (s.audioLock == ByOwner <==> s.owner == DrainAudioHeld)
    // Once its queue has been cleared, a queue is empty and nobody is on the way to fill it.
    && (s.owner in {DrainAudio, DrainAudioHeld, DrainStore} || s.drained ==>
          s.video.q == [] && !MayAdmit(s.videoLock))
    && (s.owner == DrainStore || s.drained ==> s.audio.q == [] && !MayAdmit(s.audioLock))
    && (s.drained ==> s.state == Stopped && s.owner == Idle)
  }

  lemma InitInv(s: System)
    requires Init(s)
    ensures Inv(s)
  {
  }

  lemma StepInv(s: System, step: Step)
    requires Inv(s) && Enabled(s, step)
    ensures Inv(Apply(s, step))
    ensures s.drained ==> Apply(s, step).drained
  {
    hide AudioInv, VideoInv, PayloadDuration;
    match step
    case VideoCommit =>
      var v := s.videoLock.cb.args;
      AdmitVideoKeeps(s.limits, s.video, s.videoLock.cb.seen, v.frame, v.width, v.height, v.ts);
    case VideoPop(room) => PopVideoKeeps(s.limits, s.video, room);
    case AudioCommit =>
      AdmitAudioKeeps(s.audio, s.audioLock.cb.seen, s.audioLock.cb.args.samples, s.audioLock.cb.args.ts);
    case AudioPop(room) => PopAudioKeeps(s.audio, room);
    case OwnerStep => ClearsKeep(s);
    case Begin(Configure(c, _)) => if c.Valid() { ConfiguredInv(c); }
    case _ =>
  }

  lemma ClearsKeep(s: System)
    requires VideoInv(s.limits, s.video) && AudioInv(s.audio)
    ensures VideoInv(s.limits, ClearVideo(s.video)) && AudioInv(ClearAudio(s.audio))
  {
    ClearAudioKeeps(s.audio);
  }

  lemma ConfiguredInv(c: AudioConfig)
    requires c.Valid()
    ensures AudioInv(AudioQueue(Some(c), [], 0, 0, 0))
  {
  }

  /** A run: every step is taken where it is enabled. */
  ghost predicate IsRun(s: System, steps: seq<Step>)
    decreases |steps|
  {
    Inv(s) && (steps != [] ==> Enabled(s, steps[0]) && IsRun(Apply(s, steps[0]), steps[1..]))
  }

  ghost function Final(s: System, steps: seq<Step>): System
    requires IsRun(s, steps)
    decreases |steps|
  {
    if steps == [] then s else Final(Apply(s, steps[0]), steps[1..])
  }

  /** In every interleaving, from the moment drain has returned both queues are empty for good. */
  lemma {:induction false} DrainedStaysEmpty(s: System, steps: seq<Step>)
    requires IsRun(s, steps) && s.drained
    ensures var t := Final(s, steps);
            t.drained && t.video.q == [] && t.audio.q == [] && t.state == Stopped
            && t.AdmittedFrames() == s.AdmittedFrames() && t.audio.admitted == s.audio.admitted
    decreases |steps|
  {
    if steps != [] {
      StepInv(s, steps[0]);
      DrainedAdmitsNothing(s, steps[0]);
      DrainedStaysEmpty(Apply(s, steps[0]), steps[1..]);
    }
  }

  predicate Ended(state: State) { state == Draining || state == Stopped || state == Failed }

  lemma EndedStays(s: System, step: Step)
    requires Inv(s) && Enabled(s, step) && Ended(s.state)
    ensures Ended(Apply(s, step).state)
  {
    hide VideoInv, AudioInv, AdmitVideo, AdmitAudio, PopVideo, PopAudio;
  }

  /** No run leads from draining, stopped or failed back to a state that admits frames. */
  lemma {:induction false} NeverRunsAgain(s: System, steps: seq<Step>)
    requires IsRun(s, steps) && Ended(s.state)
    ensures Ended(Final(s, steps).state)
    decreases |steps|
  {
    hide Inv, Apply, Enabled;
    if steps != [] {
      EndedStays(s, steps[0]);
      NeverRunsAgain(Apply(s, steps[0]), steps[1..]);
    }
  }

  lemma DrainedAdmitsNothing(s: System, step: Step)
    requires Inv(s) && Enabled(s, step) && s.drained
    ensures Apply(s, step).AdmittedFrames() == s.AdmittedFrames()
    ensures Apply(s, step).audio.admitted == s.audio.admitted
  {
    hide AudioInv, VideoInv, PayloadDuration;
  }

  lemma {:induction false} RunsFrom(s: System, steps: seq<Step>)
    requires Inv(s) && AllEnabled(s, steps)
    ensures IsRun(s, steps)
    decreases |steps|
  {
    if steps != [] {
      StepInv(s, steps[0]);
      RunsFrom(Apply(s, steps[0]), steps[1..]);
    }
  }

  /** Every sequence of enabled steps from an initial state is a run: the invariant is never an extra demand. */
  lemma RunsFromInit(s: System, steps: seq<Step>)
    requires Init(s) && (InitInv(s); AllEnabled(s, steps))
    ensures IsRun(s, steps)
  {
    InitInv(s);
    RunsFrom(s, steps);
  }

  ghost predicate AllEnabled(s: System, steps: seq<Step>)
    requires Inv(s)
    decreases |steps|
  {
    steps == [] || (Enabled(s, steps[0]) && (StepInv(s, steps[0]); AllEnabled(Apply(s, steps[0]), steps[1..])))
  }

  // ---- Interleavings act like calls made one after another ---------------------------------

  /** The video call, if any, whose critical section a step completes. */
  ghost function StepCalls(s: System, step: Step): (r: seq<VideoCall>)
    requires Inv(s) && Enabled(s, step)
    ensures |r| <= 1
  {
    match step
    case VideoCommit =>
      var v := s.videoLock.cb;
      [VAdmit(v.seen, v.args.frame, v.args.width, v.args.height, v.args.ts)]
    case VideoPop(room) => [VPop(room)]
    case OwnerStep => if s.owner == DrainVideoHeld then [VClear] else []
    case _ => []
  }

  lemma StepLinearizes(s: System, step: Step)
    requires Inv(s) && Enabled(s, step)
    ensures Apply(s, step).limits == s.limits
    ensures Apply(s, step).fileFrames == s.fileFrames + if step.FileFrame? then 1 else 0
    ensures var c := StepCalls(s, step);
            Apply(s, step).video == if c == [] then s.video else VideoStep(s.limits, s.video, c[0]).0
  {
    hide AudioInv, VideoInv, PayloadDuration;
  }

  /** The video calls of a run, in the order of their critical sections. */
  ghost function VideoCalls(s: System, steps: seq<Step>): (r: seq<VideoCall>)
    requires IsRun(s, steps)
    decreases |steps|
  {
    if steps == [] then [] else StepCalls(s, steps[0]) + VideoCalls(Apply(s, steps[0]), steps[1..])
  }

  function FileFrames(steps: seq<Step>): nat {
    if steps == [] then 0 else (if steps[0].FileFrame? then 1 else 0) + FileFrames(steps[1..])
  }

  /** Every interleaving acts on the video queue like those calls made one after another. */
  lemma {:induction false} VideoLinearizes(s: System, steps: seq<Step>)
    requires IsRun(s, steps)
    ensures RunVideo(s.limits, s.video, VideoCalls(s, steps)).0 == Final(s, steps).video
    ensures Final(s, steps).fileFrames == s.fileFrames + FileFrames(steps)
    decreases |steps|
  {
    hide Inv, Apply, Enabled, StepCalls, VideoStep;
    if steps != [] {
      StepLinearizes(s, steps[0]);
      VideoLinearizes(Apply(s, steps[0]), steps[1..]);
      var c, rest := StepCalls(s, steps[0]), VideoCalls(Apply(s, steps[0]), steps[1..]);
      assert VideoCalls(s, steps) == c + rest;
      if c == [] {
        assert c + rest == rest;
      } else {
        assert (c + rest)[1..] == rest;
      }
    }
  }

  /**
   * In every interleaving the video queue is a FIFO, and admitted_frames grows by exactly
   * the frames callers were told were accepted plus those of the file path.
   */
  lemma VideoInterleavingsFifo(s: System, steps: seq<Step>)
    requires IsRun(s, steps)
    ensures var log, t := RunVideo(s.limits, s.video, VideoCalls(s, steps)).1, Final(s, steps);
            && Fifo(s.video.q, log, t.video.q) && VideoInv(s.limits, t.video)
            && t.AdmittedFrames() == s.AdmittedFrames() + |log.accepted| + FileFrames(steps)
  {
    VideoLinearizes(s, steps);
    RunVideoFifo(s.limits, s.video, VideoCalls(s, steps));
  }

  /** The audio call, if any, whose critical section a step completes. */
  ghost function StepAudioCalls(s: System, step: Step): (r: seq<AudioCall>)
    requires Inv(s) && Enabled(s, step)
    ensures |r| <= 1
  {
    match step
    case AudioCommit => [AAdmit(s.audioLock.cb.seen, s.audioLock.cb.args.samples, s.audioLock.cb.args.ts)]
    case AudioPop(room) => [APop(room)]
    case OwnerStep => if s.owner == DrainAudioHeld then [AClear] else []
    case _ => []
  }

  lemma StepAudioLinearizes(s: System, step: Step)
    requires Inv(s) && Enabled(s, step) && s.state != Created
    ensures Apply(s, step).state != Created && AudioInv(s.audio)
    ensures var c := StepAudioCalls(s, step);
            Apply(s, step).audio == if c == [] then s.audio else AudioStep(s.audio, c[0]).0
  {
    hide VideoInv, PayloadDuration, AudioFramesInv;
  }

  ghost function AudioCalls(s: System, steps: seq<Step>): (r: seq<AudioCall>)
    requires IsRun(s, steps)
    decreases |steps|
  {
    if steps == [] then [] else StepAudioCalls(s, steps[0]) + AudioCalls(Apply(s, steps[0]), steps[1..])
  }

  /** The same for audio, from the moment the configuration is fixed. */
  lemma {:induction false} AudioInterleavingsFifo(s: System, steps: seq<Step>)
    requires IsRun(s, steps) && s.state != Created
    ensures AudioInv(s.audio)
    ensures var (m, log) := RunAudio(s.audio, AudioCalls(s, steps));
            && m == Final(s, steps).audio && Fifo(s.audio.q, log, m.q)
            && m.admitted == s.audio.admitted + |log.accepted|
    decreases |steps|
  {
    hide Inv, Apply, Enabled, StepAudioCalls, AudioStep, AudioFramesInv;
    if steps != [] {
      StepAudioLinearizes(s, steps[0]);
      AudioInterleavingsFifo(Apply(s, steps[0]), steps[1..]);
      var c, rest := StepAudioCalls(s, steps[0]), AudioCalls(Apply(s, steps[0]), steps[1..]);
      assert AudioCalls(s, steps) == c + rest;
      if c == [] {
        assert c + rest == rest;
      } else {
        assert (c + rest)[1..] == rest;
      }
    } else {
      InvHasAudio(s);
    }
    RunAudioFifo(s.audio, AudioCalls(s, steps));
  }

  lemma InvHasAudio(s: System)
    requires Inv(s)
    ensures AudioInv(s.audio)
  {
  }
}
