/**
 * The HTTP-FLV upload as its callers see it: what goes into the body are the vectors of the
 * calls that returned success, in order, and the result is what the network reported.
 */
module HttpFlvCalls {
  import opened Bytes
  import opened ChunkedBody
  import opened HttpFlv

  // ---- What the producers hand over --------------------------------------------------------

  /** The vectors of the latest call of producer `id`. */
  function Given(steps: seq<Step>, id: nat): (r: seq<seq<byte>>) {
    if steps == [] then []
    else
      var last := steps[|steps| - 1];
      if last.Begin? && last.id == id then last.vectors else Given(steps[..|steps| - 1], id)
  }

  lemma GivenSnoc(steps: seq<Step>, step: Step, id: nat)
    ensures Given(steps + [step], id) == if step.Begin? && step.id == id then step.vectors else Given(steps, id)
  {
    assert (steps + [step])[..|steps + [step]| - 1] == steps;
  }

  /** Every producer on its way holds the concatenation of what its caller gave it. */
  ghost predicate HoldsGiven(producers: map<nat, Producer>, steps: seq<Step>) {
    forall id :: id in producers ==> producers[id].chunk == Concat(Given(steps, id))
  }

  /** No producer of `after` is new, and each still holds its chunk. */
  ghost predicate SameChunks(before: map<nat, Producer>, after: map<nat, Producer>) {
    forall id :: id in after ==> id in before && after[id].chunk == before[id].chunk
  }

  lemma WokenChunks(s: System, who: Sleeper)
    requires IsAsleep(s, who)
    ensures SameChunks(s.producers, Woken(s, who).producers)
  {
  }

  lemma EnterChunks(s: System, id: nat, pushed: bool, woken: Option<Sleeper>)
    requires Enabled(s, Enter(id, pushed, woken))
    ensures SameChunks(s.producers, Apply(s, Enter(id, pushed, woken)).producers)
  {
    hide Woken, LeftLoop, MustWait;
    var full := s.(producers := s.producers - {id});
    if Accepts(s, s.producers[id].chunk, pushed) && woken.Some? {
      assert IsAsleep(full, woken.value);
      var queued := s.(producers := s.producers - {id},
                       queue := s.queue + [s.producers[id].chunk], queueBytes := s.queueBytes + |s.producers[id].chunk|,
                       enqueued := s.enqueued + [s.producers[id].chunk], late := s.late || LeftLoop(s));
      WokenChunks(queued, woken.value);
    }
  }

  lemma StepChunks(s: System, step: Step)
    requires Enabled(s, step) && !step.Begin?
    ensures SameChunks(s.producers, Apply(s, step).producers)
  {
    hide Woken, Pushed, LeftLoop, MustWait, Chunk, Concat, SignalWakes;
    match step
    case Enter(id, pushed, woken) => EnterChunks(s, id, pushed, woken);
    case Wake(who) => WokenChunks(s, who);
    case _ =>
  }

  lemma GivenKeeps(s: System, step: Step, before: seq<Step>)
    requires Enabled(s, step) && HoldsGiven(s.producers, before)
    ensures HoldsGiven(Apply(s, step).producers, before + [step])
  {
    hide Apply, Enabled, Given, Concat;
    if step.Begin? {
      BeginKeeps(s, step.id, step.vectors, before);
    } else {
      StepChunks(s, step);
      var t := Apply(s, step);
      forall id | id in t.producers ensures t.producers[id].chunk == Concat(Given(before + [step], id)) {
        GivenSnoc(before, step, id);
      }
    }
  }

  lemma BeginKeeps(s: System, id: nat, vectors: seq<seq<byte>>, before: seq<Step>)
    requires Enabled(s, Begin(id, vectors)) && HoldsGiven(s.producers, before)
    ensures HoldsGiven(Apply(s, Begin(id, vectors)).producers, before + [Begin(id, vectors)])
  {
    hide Given, Concat;
    var t := Apply(s, Begin(id, vectors));
    forall k | k in t.producers ensures t.producers[k].chunk == Concat(Given(before + [Begin(id, vectors)], k)) {
      GivenSnoc(before, Begin(id, vectors), k);
    }
  }

  lemma {:induction false} ReachesGiven(run: seq<System>, steps: seq<Step>, i: nat)
    requires IsRun(run, steps) && i < |run|
    ensures HoldsGiven(run[i].producers, steps[..i])
  {
    hide Enabled, Apply;
    if i > 0 {
      ReachesGiven(run, steps, i - 1);
      assert Enabled(run[i - 1], steps[i - 1]) && run[i] == Apply(run[i - 1], steps[i - 1]);
      GivenKeeps(run[i - 1], steps[i - 1], steps[..i - 1]);
      assert steps[..i - 1] + [steps[i - 1]] == steps[..i];
    }
  }

  // ---- What a call comes to ----------------------------------------------------------------

  /** A call gets as far as the mutex exactly when it brings data that can ever fit, as one chunk. */
  lemma BeginOutcome(s: System, id: nat, vectors: seq<seq<byte>>)
    requires Enabled(s, Begin(id, vectors))
    ensures Apply(s, Begin(id, vectors)) ==
            if 0 < |Concat(vectors)| <= s.capacity
            then s.(producers := s.producers[id := Ready(Concat(vectors))]) else s
  {
    hide Concat;
  }

  /**
   * One turn of a producer under the mutex: it sleeps exactly when the upload is alive and its
   * chunk does not fit; its chunk is queued exactly when it fits, nothing has failed and the
   * deque takes it; in every other case the call gives up and leaves no trace.
   */
  lemma EnterOutcome(s: System, id: nat, pushed: bool, woken: Option<Sleeper>)
    requires Enabled(s, Enter(id, pushed, woken))
    ensures var t, chunk := Apply(s, Enter(id, pushed, woken)), s.producers[id].chunk;
            var alive, fits := s.connected && !s.done, s.queueBytes + |chunk| <= s.capacity;
            if alive && !fits then t == s.(producers := s.producers[id := Asleep(chunk)])
            else if alive && s.result == 0 && pushed
            then && t.queue == s.queue + [chunk] && t.queueBytes == s.queueBytes + |chunk|
                 && t.enqueued == s.enqueued + [chunk] && id !in t.producers
                 && t.wire == s.wire && t.popped == s.popped && t.result == s.result && t.done == s.done
            else t == s.(producers := s.producers - {id})
    ensures IsPush(s, Enter(id, pushed, woken)) <==>
              s.connected && !s.done && s.queueBytes + |s.producers[id].chunk| <= s.capacity && s.result == 0 && pushed
  {
    hide LeftLoop;
  }

  lemma OthersQueueNothing(s: System, step: Step)
    requires Enabled(s, step) && !IsPush(s, step)
    ensures Apply(s, step).enqueued == s.enqueued
  {
    hide AllReady, AllWoken, Woken, Concat, Chunk, LeftLoop, SignalWakes;
    match step
    case Enter(_, _, _) =>
    case Look =>
    case _ =>
  }

  /** The vectors of the accepted calls among the first `n` steps, in the order of acceptance. */
  ghost function AcceptedCalls(run: seq<System>, steps: seq<Step>, n: nat): (r: seq<seq<seq<byte>>>)
    requires n <= |steps| < |run|
  {
    if n == 0 then []
    else AcceptedCalls(run, steps, n - 1)
         + (if IsPush(run[n - 1], steps[n - 1]) then [Given(steps[..n - 1], steps[n - 1].id)] else [])
  }

  /** All bytes of a list of calls. */
  function AllBytes(calls: seq<seq<seq<byte>>>): (r: seq<byte>) {
    if calls == [] then [] else AllBytes(calls[..|calls| - 1]) + Concat(calls[|calls| - 1])
  }

  lemma AllBytesSnoc(calls: seq<seq<seq<byte>>>, call: seq<seq<byte>>)
    ensures AllBytes(calls + [call]) == AllBytes(calls) + Concat(call)
  {
    assert (calls + [call])[..|calls + [call]| - 1] == calls;
  }

  /** One accepted call puts the concatenation of its vectors behind what was enqueued before. */
  lemma PushIsGiven(run: seq<System>, steps: seq<Step>, i: nat)
    requires IsRun(run, steps) && i < |steps| && IsPush(run[i], steps[i])
    ensures run[i + 1].enqueued == run[i].enqueued + [Concat(Given(steps[..i], steps[i].id))]
  {
    hide Apply, Enabled, Concat, Given;
    ReachesGiven(run, steps, i);
    assert Enabled(run[i], steps[i]) && run[i + 1] == Apply(run[i], steps[i]);
    EnterOutcome(run[i], steps[i].id, steps[i].pushed, steps[i].woken);
  }

  /** In every run, everything enqueued is the stream header and the vectors of the accepted calls. */
  lemma {:induction false} EnqueuedIsAccepted(run: seq<System>, steps: seq<Step>, n: nat)
    requires IsRun(run, steps) && n <= |steps|
    ensures Concat(run[n].enqueued) == Concat(run[0].queue) + AllBytes(AcceptedCalls(run, steps, n))
  {
    hide Apply, Enabled, Concat, Given, Accepts;
    if n == 0 {
      assert Concat(run[0].queue) + [] == Concat(run[0].queue);
      StartsWithQueue(run, steps);
    } else {
      var i, calls := n - 1, AcceptedCalls(run, steps, n - 1);
      EnqueuedIsAccepted(run, steps, i);
      assert Enabled(run[i], steps[i]) && run[n] == Apply(run[i], steps[i]);
      if IsPush(run[i], steps[i]) {
        var call := Given(steps[..i], steps[i].id);
        PushIsGiven(run, steps, i);
        ConcatAppend(run[i].enqueued, [Concat(call)]);
        ConcatSingle(Concat(call));
        AllBytesSnoc(calls, call);
      } else {
        OthersQueueNothing(run[i], steps[i]);
        assert calls + [] == calls;
      }
    }
  }

  lemma StartsWithQueue(run: seq<System>, steps: seq<Step>)
    requires IsRun(run, steps)
    ensures run[0].enqueued == run[0].queue
  {
  }

  /** In every run, at every moment, the data on the wire is a prefix of what the accepted callers gave. */
  lemma BodyIsPrefixOfCalls(run: seq<System>, steps: seq<Step>, i: nat)
    requires IsRun(run, steps) && i <= |steps|
    ensures ChunkedBody.Readable(run[i].wire) <= Concat(run[0].queue) + AllBytes(AcceptedCalls(run, steps, i))
  {
    hide IsRun, Concat, AllBytes, AcceptedCalls, ChunkedBody.Readable;
    RunLength(run, steps);
    WireIsPrefix(run, steps, i);
    EnqueuedIsAccepted(run, steps, i);
  }

  lemma RunLength(run: seq<System>, steps: seq<Step>)
    requires IsRun(run, steps)
    ensures |run| == |steps| + 1
  {
  }

  /**
   * The upload law in the callers' terms: with result 0 the body decodes to the stream header
   * and the vectors of all accepted calls, in order, exactly when no call came too late.
   */
  lemma SuccessfulUploadOfCalls(run: seq<System>, steps: seq<Step>)
    requires IsRun(run, steps)
    requires var s := run[|steps|]; s.uploader == Ended && s.result == 0
    ensures var all := Concat(run[0].queue) + AllBytes(AcceptedCalls(run, steps, |steps|));
            Decode(run[|steps|].wire) == Some(all) <==> !run[|steps|].late
  {
    hide Concat, AllBytes, AcceptedCalls, Decode, Enabled, Apply;
    SuccessfulUpload(run, steps);
    EnqueuedIsAccepted(run, steps, |steps|);
  }

  /** An owner that lets its producers finish before it disconnects loses nothing they gave. */
  lemma OrderlyUploadIsComplete(run: seq<System>, steps: seq<Step>)
    requires IsRun(run, steps) && NoPushAfterClose(run, steps)
    requires var s := run[|steps|]; s.uploader == Ended && s.result == 0
    ensures Decode(run[|steps|].wire)
         == Some(Concat(run[0].queue) + AllBytes(AcceptedCalls(run, steps, |steps|)))
  {
    hide Concat, AllBytes, AcceptedCalls, Decode, Enabled, Apply, IsPush;
    NeverLate(run, steps, |steps|);
    SuccessfulUploadOfCalls(run, steps);
  }

  // ---- What the upload reports -------------------------------------------------------------

  /** The code of the latest step that ends an upload: a failure, or the server's response. */
  function Verdict(steps: seq<Step>): (r: Option<int>) {
    if steps == [] then None
    else
      match steps[|steps| - 1]
      case Connected(code) => if code != 0 then Some(code) else None
      case PopFails(code) => Some(code)
      case SendFails(_, code) => Some(code)
      case Response(code) => Some(code)
      case _ => Verdict(steps[..|steps| - 1])
  }

  ghost predicate Reports(s: System, steps: seq<Step>) {
    && (s.uploader.Leaving? ==> Verdict(steps) == Some(s.uploader.code))
    && (s.uploader == Ended ==> Verdict(steps) == Some(s.result))
  }

  /** The steps of producers and owner change neither the uploader, but for waking it, nor its result. */
  lemma OthersReportNothing(s: System, step: Step)
    requires Enabled(s, step) && !IsUploaderStep(step)
    ensures var t := Apply(s, step);
            t.result == s.result && (t.uploader == s.uploader || t.uploader == Looking)
  {
    hide Chunk, Concat, AllReady, LeftLoop, MustWait, Woken, AllWoken, SignalWakes;
    match step
    case Enter(_, _, _) =>
    case _ =>
  }

  lemma ReportKeeps(s: System, step: Step, before: seq<Step>)
    requires Enabled(s, step) && Reports(s, before)
    ensures Reports(Apply(s, step), before + [step])
  {
    hide Chunk, Concat, AllReady, AllWoken;
    assert (before + [step])[..|before + [step]| - 1] == before;
    if IsUploaderStep(step) {
      UploaderReports(s, step, before);
    } else {
      hide Apply, Enabled;
      OthersReportNothing(s, step);
    }
  }

  lemma UploaderReports(s: System, step: Step, before: seq<Step>)
    requires Enabled(s, step) && Reports(s, before) && IsUploaderStep(step)
    ensures Reports(Apply(s, step), before + [step])
  {
    hide Chunk, Concat, AllReady;
    assert (before + [step])[..|before + [step]| - 1] == before;
    match step
    case Publish =>
    case Look =>
    case Send(n) =>
    case _ =>
  }

  /** An upload that has ended reports the failure that ended it, or the server's answer. */
  lemma {:induction false} ResultIsVerdict(run: seq<System>, steps: seq<Step>, i: nat)
    requires IsRun(run, steps) && i < |run|
    ensures Reports(run[i], steps[..i])
  {
    hide Enabled, Apply, Reports;
    if i == 0 {
      NothingReported(run, steps);
    } else {
      ResultIsVerdict(run, steps, i - 1);
      assert Enabled(run[i - 1], steps[i - 1]) && run[i] == Apply(run[i - 1], steps[i - 1]);
      ReportKeeps(run[i - 1], steps[i - 1], steps[..i - 1]);
      assert steps[..i - 1] + [steps[i - 1]] == steps[..i];
    }
  }

  lemma NothingReported(run: seq<System>, steps: seq<Step>)
    requires IsRun(run, steps)
    ensures Reports(run[0], steps[..0])
  {
  }
}
