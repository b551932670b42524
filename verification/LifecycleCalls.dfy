/**
 * What the lifecycle calls lead to: for every call the state and the flags it leaves, and what
 * that means for the frames that arrive.
 */
module LifecycleCalls {
  import opened Bytes
  import opened FrameRing
  import opened CaptureQueues
  import opened CaptureRuns
  import opened Lifecycle

  /** The system after a call that stores at most one new state: its decision, and the store if there is one. */
  ghost function Called(s: System, call: Call): System
    requires Inv(s) && Enabled(s, Begin(call))
  {
    var t := Apply(s, Begin(call));
    if t.owner.Store? then (StepInv(s, Begin(call)); Apply(t, OwnerStep)) else t
  }

  predicate Blocked(flags: set<Flag>) {
    PermissionRevoked in flags || CaptureLost in flags || BackgroundDenied in flags
  }

  lemma BlockedIsBlockers(flags: set<Flag>)
    ensures Blocked(flags) <==> flags * BLOCKERS != {}
  {
    if Blocked(flags) {
      var f := if PermissionRevoked in flags then PermissionRevoked else if CaptureLost in flags then CaptureLost else BackgroundDenied;
      assert f in flags * BLOCKERS;
    }
    if flags * BLOCKERS != {} {
      var f :| f in flags * BLOCKERS;
    }
  }

  /** The state a call leaves. */
  function StateAfter(state: State, flags: set<Flag>, call: Call): State {
    match (call, state)
    case (Prepare(true), Created) => Prepared
    case (Prepare(false), Created) => Failed
    case (Start, Prepared) => if Blocked(flags) then Prepared else Running
    case (Pause, Running) => Paused
    case (Resume, Paused) => if Blocked(flags) then Paused else Running
    case (RequestStop, Prepared) => Draining
    case (RequestStop, Running) => Draining
    case (RequestStop, Paused) => Draining
    case (Lost(flag), Running) => if Blocked({flag}) then Paused else Running
    case _ => state
  }

  /** The flags a call leaves: losses and recoveries count until the end. */
  function FlagsAfter(state: State, flags: set<Flag>, call: Call): set<Flag> {
    match call
    case Lost(flag) => if Ended(state) then flags else flags + {flag}
    case Restored(flag) => if Ended(state) then flags else flags - {flag}
    case _ => flags
  }

  /** Every call but drain and the file run ends with the owner idle, in that state and with those flags. */
  lemma CallOutcome(s: System, call: Call)
    requires Inv(s) && Enabled(s, Begin(call)) && !call.Drain? && !call.RunFile?
    ensures var t := Called(s, call);
            && t.owner == Idle && t.state == StateAfter(s.state, s.flags, call) && t.flags == FlagsAfter(s.state, s.flags, call)
            && t.video == s.video && t.videoLock == s.videoLock && t.audioLock == s.audioLock && t.fileFrames == s.fileFrames
            && t.audio == match call
               case Configure(c, memory) =>
                 if s.state == Created && c.Valid() && memory then AudioQueue(Some(c), [], 0, 0, 0) else s.audio
               case _ => s.audio
  {
    hide VideoInv, AudioInv, AdmitVideo, AdmitAudio, PopVideo, PopAudio, AudioConfig.Valid;
    BlockedIsBlockers(s.flags);
    match call
    case Lost(flag) => assert Blocked({flag}) <==> flag in BLOCKERS;
    case _ =>
  }

  /** Frames are admitted again only by a start from prepared or a resume from paused, with nothing in the way. */
  lemma RunningReached(s: System, call: Call)
    requires Inv(s) && Enabled(s, Begin(call)) && !call.Drain? && !call.RunFile? && s.state != Running
    ensures Called(s, call).state == Running <==>
            !Blocked(s.flags) && ((call == Start && s.state == Prepared) || (call == Resume && s.state == Paused))
  {
    hide Called;
    CallOutcome(s, call);
  }

  /** The file run: running while it lasts, then stopped or failed; it starts exactly from prepared with a plan. */
  lemma FileRunOutcome(s: System, planned: bool, ok: bool)
    requires Inv(s) && Enabled(s, Begin(RunFile(planned)))
    ensures var t := Apply(s, Begin(RunFile(planned)));
            if s.state != Prepared || !planned then t == s
            else
              && Inv(t) && Enabled(t, OwnerStep)
              && var running := Apply(t, OwnerStep);
                 && running.state == Running && running.flags == s.flags && Inv(running) && Enabled(running, FileEnds(ok))
                 && var ending := Apply(running, FileEnds(ok));
                    && Inv(ending) && Enabled(ending, OwnerStep) && ending.state == Running
                    && Apply(ending, OwnerStep).owner == Idle
                    && Apply(ending, OwnerStep).state == if ok then Stopped else Failed
  {
    hide VideoInv, AudioInv;
  }

  /** Drain does nothing outside draining; there, when it gets the locks, it empties both queues and stops. */
  lemma DrainOutcome(s: System)
    requires Inv(s) && Enabled(s, Begin(Drain)) && s.videoLock == Free && s.audioLock == Free
    ensures var t := Apply(s, Begin(Drain));
            if s.state != Draining then t == s
            else
              IsRun(s, [Begin(Drain), OwnerStep, OwnerStep, OwnerStep, OwnerStep, OwnerStep])
              && var done := Final(s, [Begin(Drain), OwnerStep, OwnerStep, OwnerStep, OwnerStep, OwnerStep]);
                 && done.state == Stopped && done.drained && done.owner == Idle && done.flags == s.flags
                 && done.video == s.video.(q := [], duration := 0)
                 && done.audio.q == [] && done.audio.config == s.audio.config
                 && done.videoLock == Free && done.audioLock == Free
  {
    hide VideoInv, AudioInv;
    if s.state == Draining {
      var five := [OwnerStep, OwnerStep, OwnerStep, OwnerStep, OwnerStep];
      var t := Apply(s, Begin(Drain));
      StepInv(s, Begin(Drain));
      DrainSteps(t);
      assert [Begin(Drain), OwnerStep, OwnerStep, OwnerStep, OwnerStep, OwnerStep][1..] == five;
    }
  }

  lemma DrainSteps(s: System)
    requires Inv(s) && s.owner == DrainVideo && s.videoLock == Free && s.audioLock == Free
    ensures var five := [OwnerStep, OwnerStep, OwnerStep, OwnerStep, OwnerStep];
            && IsRun(s, five)
            && Final(s, five) == s.(state := Stopped, owner := Idle, drained := true,
                                    video := ClearVideo(s.video), audio := ClearAudio(s.audio))
  {
    hide VideoInv, AudioInv;
    var five := [OwnerStep, OwnerStep, OwnerStep, OwnerStep, OwnerStep];
    assert five[1..] == [OwnerStep, OwnerStep, OwnerStep, OwnerStep];
    assert five[1..][1..] == [OwnerStep, OwnerStep, OwnerStep];
    assert five[1..][1..][1..] == [OwnerStep, OwnerStep];
    assert five[1..][1..][1..][1..] == [OwnerStep];
    assert five[1..][1..][1..][1..][1..] == [];
    var a := Apply(s, OwnerStep);
    StepInv(s, OwnerStep);
    var b := Apply(a, OwnerStep);
    StepInv(a, OwnerStep);
    var c := Apply(b, OwnerStep);
    StepInv(b, OwnerStep);
    var d := Apply(c, OwnerStep);
    StepInv(c, OwnerStep);
    StepInv(d, OwnerStep);
  }

  predicate OwnersOwn(step: Step) { step.Begin? || step.OwnerStep? || step.FileEnds? }

  /** What capture callbacks and consumers do in between changes neither state nor flags nor the owner's place. */
  lemma CallbacksLeaveState(s: System, step: Step)
    requires Inv(s) && Enabled(s, step) && !OwnersOwn(step)
    ensures var t := Apply(s, step); t.state == s.state && t.flags == s.flags && t.owner == s.owner && t.drained == s.drained
  {
    hide VideoInv, AudioInv, AdmitVideo, AdmitAudio, PopVideo, PopAudio;
  }

  // ---- What it means for frames ------------------------------------------------------------

  ghost function VideoFrame(v: VideoArgs): seq<Step> { [VideoLock(v), VideoRead, VideoCommit] }

  lemma ThreeSteps(s: System, p: Step, q: Step, r: Step, a: System, b: System, c: System)
    requires Inv(s) && Enabled(s, p) && a == Apply(s, p)
    requires Inv(a) && Enabled(a, q) && b == Apply(a, q)
    requires Inv(b) && Enabled(b, r) && c == Apply(b, r) && Inv(c)
    ensures IsRun(s, [p, q, r]) && Final(s, [p, q, r]) == c
  {
    hide Inv, Apply, Enabled;
    var steps := [p, q, r];
    assert steps[1..] == [q, r] && steps[1..][1..] == [r] && steps[1..][1..][1..] == [];
    assert IsRun(c, []) && Final(c, []) == c;
    assert IsRun(b, [r]) && Final(b, [r]) == c;
    assert IsRun(a, [q, r]) && Final(a, [q, r]) == c;
  }

  /** A callback that finds the lock free does what the admission call does in the state it reads. */
  lemma CallbackAdmits(s: System, v: VideoArgs)
    requires Inv(s) && s.videoLock == Free
    ensures IsRun(s, VideoFrame(v))
    ensures Final(s, VideoFrame(v))
         == s.(video := AdmitVideo(s.limits, s.video, s.state, v.frame, v.width, v.height, v.ts).0)
  {
    hide VideoInv, AudioInv, AdmitVideo, IsRun, Final;
    var a := Apply(s, VideoLock(v));
    StepInv(s, VideoLock(v));
    var b := Apply(a, VideoRead);
    StepInv(a, VideoRead);
    StepInv(b, VideoCommit);
    ThreeSteps(s, VideoLock(v), VideoRead, VideoCommit, a, b, Apply(b, VideoCommit));
  }

  /** While running, a proper frame that keeps bounds and order is stored. */
  lemma RunningAdmits(s: System, v: VideoArgs)
    requires Inv(s) && s.limits.Valid() && s.videoLock == Free && s.state == Running
    requires v.frame != [] && v.width > 0 && v.height > 0
    requires VideoInv(s.limits, WithVideo(s.video, FrameRing.Entry(v.frame, VideoMeta(v.width, v.height, v.ts))))
    ensures IsRun(s, VideoFrame(v))
    ensures Final(s, VideoFrame(v)).video.q == s.video.q + [FrameRing.Entry(v.frame, VideoMeta(v.width, v.height, v.ts))]
  {
    hide VideoInv, AdmitVideo;
    CallbackAdmits(s, v);
    InvHasVideo(s);
    AdmitVideoExact(s.limits, s.video, v.frame, v.width, v.height, v.ts);
  }

  lemma InvHasVideo(s: System)
    requires Inv(s)
    ensures VideoInv(s.limits, s.video)
  {
  }

  /** In every other state a proper frame is turned away and counted. */
  lemma NotRunningRefuses(s: System, v: VideoArgs)
    requires Inv(s) && s.videoLock == Free && s.state != Running && v.frame != [] && v.width > 0 && v.height > 0
    ensures IsRun(s, VideoFrame(v)) && Final(s, VideoFrame(v)) == s.(video := s.video.(rejected := s.video.rejected + 1))
  {
    hide VideoInv;
    CallbackAdmits(s, v);
  }

  /** Prepare, start, and the first proper frame that fits is in the queue. */
  lemma FirstFrameIsAdmitted(s: System, v: VideoArgs)
    requires Init(s) && !Blocked(s.flags) && v.frame != [] && |v.frame| <= s.limits.maxBytes && v.width > 0 && v.height > 0
    ensures Inv(s)
    ensures var prepared := Called(s, Prepare(true));
            && Inv(prepared) && Enabled(prepared, Begin(Start))
            && var running := Called(prepared, Start);
               && Inv(running) && IsRun(running, VideoFrame(v))
               && Final(running, VideoFrame(v)).video.q == [FrameRing.Entry(v.frame, VideoMeta(v.width, v.height, v.ts))]
  {
    hide Called, VideoInv, AudioInv, IsRun, Final;
    InitInv(s);
    CalledInv(s, Prepare(true));
    CallOutcome(s, Prepare(true));
    var prepared := Called(s, Prepare(true));
    CalledInv(prepared, Start);
    CallOutcome(prepared, Start);
    var running := Called(prepared, Start);
    var e := FrameRing.Entry(v.frame, VideoMeta(v.width, v.height, v.ts));
    FirstFits(s.limits, e);
    RunningAdmits(running, v);
    assert [] + [e] == [e];
  }

  lemma CalledInv(s: System, call: Call)
    requires Inv(s) && Enabled(s, Begin(call))
    ensures Inv(Called(s, call)) && Called(s, call).limits == s.limits
  {
    hide VideoInv, AudioInv;
    StepInv(s, Begin(call));
    if Apply(s, Begin(call)).owner.Store? { StepInv(Apply(s, Begin(call)), OwnerStep); }
  }

  lemma FirstFits(l: Limits, e: Entry<VideoMeta>)
    requires l.Valid() && |e.payload| <= l.maxBytes
    ensures VideoInv(l, WithVideo(EMPTY_VIDEO, e))
  {
    FlatAppend([], e);
  }

  ghost function AudioFrame(a: AudioArgs): seq<Step> { [AudioLock(a), AudioRead, AudioCommit] }

  /** The same for audio callbacks. */
  lemma AudioCallbackAdmits(s: System, a: AudioArgs)
    requires Inv(s) && s.audioLock == Free
    ensures IsRun(s, AudioFrame(a)) && AudioInv(s.audio)
    ensures Final(s, AudioFrame(a)) == s.(audio := AdmitAudio(s.audio, s.state, a.samples, a.ts).0)
  {
    hide VideoInv, AudioFramesInv, AdmitAudio, IsRun, Final;
    var x := Apply(s, AudioLock(a));
    StepInv(s, AudioLock(a));
    var y := Apply(x, AudioRead);
    StepInv(x, AudioRead);
    StepInv(y, AudioCommit);
    ThreeSteps(s, AudioLock(a), AudioRead, AudioCommit, x, y, Apply(y, AudioCommit));
  }
}
