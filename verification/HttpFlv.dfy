/**
 * The bounded producer/consumer protocol of streamer/http_flv_streamer.c: producers, one
 * uploader and the owner that connects and disconnects share one mutex and one condition
 * variable. A step is one critical section or one transport call; wake-ups may be spurious.
 */
module HttpFlv {
  import opened Bytes
  import opened ChunkedBody

  /** A producer inside http_flv_enqueue_vectors: about to take the mutex, or asleep. */
  datatype Producer = Ready(chunk: seq<byte>) | Asleep(chunk: seq<byte>)

  datatype Uploader =
    | Connecting
    | Looking                        // about to take the mutex and look at the queue
    | Sleeping
    | Sending(rest: seq<byte>)       // bytes of the current chunk not yet on the wire
    | Closing(rest: seq<byte>)       // bytes of the terminator not yet on the wire
    | Awaiting                       // reading the response
    | Leaving(code: int)             // about to publish the result
    | Ended

  datatype Owner = Waiting | WaitAsleep | Open | Joining | Closed

  datatype System = System(
    capacity: nat,
    queue: seq<seq<byte>>, queueBytes: int,
    connected: bool, ready: bool, closed: bool, done: bool, result: int,
    uploader: Uploader, owner: Owner, producers: map<nat, Producer>,
    wire: seq<byte>,                 // body bytes handed to the transport
    enqueued: seq<seq<byte>>,        // every chunk ever accepted, in order
    popped: seq<seq<byte>>,          // every chunk the uploader took, in order
    late: bool)                      // some chunk was accepted after the uploader's last look

  datatype Sleeper = TheUploader | TheOwner | AProducer(id: nat)

  datatype Step =
    | Begin(id: nat, vectors: seq<seq<byte>>)
    | Enter(id: nat, pushed: bool, woken: Option<Sleeper>)
    | Wake(who: Sleeper)                                   // spurious
    | Connected(code: int)
    | Look
    | PopFails(code: int)
    | Send(n: nat)
    | SendFails(n: nat, code: int)
    | Response(code: int)
    | Publish
    | OwnerEnter
    | Close
    | Join

  predicate IsAsleep(s: System, who: Sleeper) {
    match who
    case TheUploader => s.uploader == Sleeping
    case TheOwner => s.owner == WaitAsleep
    case AProducer(id) => id in s.producers && s.producers[id].Asleep?
  }

  /** What cmeta_cond_signal wakes: one sleeper if there is any. */
  ghost predicate SignalWakes(s: System, woken: Option<Sleeper>) {
    match woken
    case None => forall who :: !IsAsleep(s, who)
    case Some(who) => IsAsleep(s, who)
  }

  function Woken(s: System, who: Sleeper): (t: System)
    requires IsAsleep(s, who)
    ensures t == s.(uploader := t.uploader, owner := t.owner, producers := t.producers)
    ensures t.uploader == s.uploader || (s.uploader == Sleeping && t.uploader == Looking)
  {
    match who
    case TheUploader => s.(uploader := Looking)
    case TheOwner => s.(owner := Waiting)
    case AProducer(id) => s.(producers := s.producers[id := Ready(s.producers[id].chunk)])
  }

  /** cmeta_cond_broadcast. */
  function AllReady(producers: map<nat, Producer>): map<nat, Producer> {
    map id | id in producers :: Ready(producers[id].chunk)
  }

  function AllWoken(s: System): (t: System)
    ensures t == s.(uploader := t.uploader, owner := t.owner, producers := AllReady(s.producers))
    ensures t.uploader == s.uploader || (s.uploader == Sleeping && t.uploader == Looking)
  {
    s.(uploader := if s.uploader == Sleeping then Looking else s.uploader,
       owner := if s.owner == WaitAsleep then Waiting else s.owner,
       producers := AllReady(s.producers))
  }

  /** The wait loop of a producer keeps waiting. */
  predicate MustWait(s: System, chunk: seq<byte>) {
    s.connected && !s.done && s.queueBytes > s.capacity - |chunk|
  }

  ghost predicate Enabled(s: System, step: Step) {
    match step
    case Begin(id, _) => id !in s.producers
    case Enter(id, pushed, woken) =>
      && id in s.producers && s.producers[id].Ready?
      && (Accepts(s, s.producers[id].chunk, pushed) ==> SignalWakes(s, woken))
    case Wake(who) => IsAsleep(s, who)
    case Connected(_) => s.uploader == Connecting
    case Look => s.uploader == Looking
    case PopFails(code) => s.uploader == Looking && s.queue != [] && code != 0
    case Send(n) => (s.uploader.Sending? || s.uploader.Closing?) && 0 < n <= |s.uploader.rest|
    case SendFails(n, code) =>
      (s.uploader.Sending? || s.uploader.Closing?) && n <= |s.uploader.rest| && code != 0
    case Response(_) => s.uploader == Awaiting
    case Publish => s.uploader.Leaving?
    case OwnerEnter => s.owner == Waiting
    case Close => s.owner == Open
    case Join => s.owner == Joining && s.uploader == Ended
  }

  /** The producer gets past its wait loop and deque_push_back succeeds. */
  predicate Accepts(s: System, chunk: seq<byte>, pushed: bool) {
    !MustWait(s, chunk) && s.connected && !s.done && s.result == 0 && pushed
  }

  datatype Gathered = Overflow | NoMemory | Built(chunk: seq<byte>)

  /** The sizing and the copying pass of http_flv_enqueue_vectors; the overflow check never decides anything else. */
  method Gather(vectors: seq<seq<byte>>, capacity: nat, memory: bool) returns (r: Gathered)
    requires capacity <= UINT64_MAX
    ensures r == Overflow <==> !(0 < |Concat(vectors)| <= capacity)
    ensures r == NoMemory ==> !memory
    ensures r.Built? ==> r.chunk == Concat(vectors)
  {
    var total, i := 0, 0;
    while i < |vectors|
      invariant 0 <= i <= |vectors| && total == |Concat(vectors[..i])|
    {
      ConcatUpTo(vectors, i);
      if |vectors[i]| > UINT64_MAX - total { return Overflow; }
      total := total + |vectors[i]|;
      i := i + 1;
    }
    assert vectors[..i] == vectors;
    if total == 0 || total > capacity { return Overflow; }
    if !memory { return NoMemory; }
    var data := new byte[total];
    var offset := 0;
    i := 0;
    while i < |vectors|
      invariant 0 <= i <= |vectors| && offset == |Concat(vectors[..i])| <= total
      invariant data[..offset] == Concat(vectors[..i])
    {
      ConcatUpTo(vectors, i);
      CopyTo(data, offset, vectors[i]);
      offset := offset + |vectors[i]|;
      i := i + 1;
    }
    assert vectors[..i] == vectors;
    assert offset == total && data[..offset] == data[..];
    r := Built(data[..]);
  }

  lemma ConcatUpTo(vectors: seq<seq<byte>>, i: nat)
    requires i < |vectors|
    ensures Concat(vectors[..i + 1]) == Concat(vectors[..i]) + vectors[i]
    ensures |Concat(vectors[..i + 1])| <= |Concat(vectors)|
  {
    assert vectors[..i + 1] == vectors[..i] + [vectors[i]];
    ConcatAppend(vectors[..i], [vectors[i]]);
    ConcatSingle(vectors[i]);
    assert vectors == vectors[..i + 1] + vectors[i + 1..];
    ConcatAppend(vectors[..i + 1], vectors[i + 1..]);
  }

  /** The start of http_flv_enqueue_vectors: refuse empty and oversized data, else build the chunk. */
  function Begun(s: System, id: nat, vectors: seq<seq<byte>>): (t: System)
    ensures t.capacity == s.capacity
  {
    var chunk := Concat(vectors);
    if chunk == [] || |chunk| > s.capacity then s else s.(producers := s.producers[id := Ready(chunk)])
  }

  /** deque_push_back, the counter and the signal. */
  function Pushed(s: System, id: nat, chunk: seq<byte>, woken: Option<Sleeper>): (t: System)
    requires woken.Some? ==> IsAsleep(s.(producers := s.producers - {id}), woken.value)
    ensures t.capacity == s.capacity
  {
    var full := s.(producers := s.producers - {id},
                   queue := s.queue + [chunk], queueBytes := s.queueBytes + |chunk|,
                   enqueued := s.enqueued + [chunk], late := s.late || LeftLoop(s));
    if woken.None? then full else Woken(full, woken.value)
  }

  /** One look at the queue by the uploader. */
  function Looked(s: System): (t: System)
    ensures t.capacity == s.capacity
  {
    if s.queue != [] then
      AllWoken(s.(queue := s.queue[1..], queueBytes := s.queueBytes - |s.queue[0]|,
                  popped := s.popped + [s.queue[0]], uploader := Sending(Chunk(s.queue[0]))))
    else if s.closed then s.(uploader := Closing(TERMINATOR))
    else s.(uploader := Sleeping)
  }

  function Sent(s: System, n: nat): (t: System)
    requires (s.uploader.Sending? || s.uploader.Closing?) && n <= |s.uploader.rest|
    ensures t.capacity == s.capacity
  {
    var rest := s.uploader.rest;
    s.(wire := s.wire + rest[..n],
       uploader := if s.uploader.Sending? then if n == |rest| then Looking else Sending(rest[n..])
                   else if n == |rest| then Awaiting else Closing(rest[n..]))
  }

  ghost function Apply(s: System, step: Step): System
    requires Enabled(s, step)
  {
    match step
    case Begin(id, vectors) => Begun(s, id, vectors)
    case Enter(id, pushed, woken) =>
      var chunk := s.producers[id].chunk;
      if MustWait(s, chunk) then s.(producers := s.producers[id := Asleep(chunk)])
      else if !Accepts(s, chunk, pushed) then s.(producers := s.producers - {id})
      else Pushed(s, id, chunk, woken)
    case Wake(who) => Woken(s, who)
    case Connected(code) =>
      AllWoken(if code == 0 then s.(ready := true, uploader := Looking)
               else s.(result := code, done := true, uploader := Leaving(code)))
    case Look => Looked(s)
    case PopFails(code) => AllWoken(s.(uploader := Leaving(code)))
    case Send(n) => Sent(s, n)
    case SendFails(n, code) => s.(wire := s.wire + s.uploader.rest[..n], uploader := Leaving(code))
    case Response(code) => s.(uploader := Leaving(code))
    case Publish => AllWoken(s.(result := s.uploader.code, done := true, uploader := Ended))
    case OwnerEnter =>
      if !s.ready && !s.done then s.(owner := WaitAsleep) else s.(owner := Open)
    case Close => AllWoken(s.(closed := true, owner := Joining))
    case Join => s.(connected := false, owner := Closed)
  }

  /** connect_impl has cleared the queue, written the stream header and started the thread. */
  ghost predicate Init(s: System) {
    && s.queueBytes == |Concat(s.queue)| <= s.capacity && NonEmptyChunks(s.queue)
    && s.connected && !s.ready && !s.closed && !s.done && s.result == 0
    && s.uploader == Connecting && s.owner == Waiting && s.producers == map[]
    && s.wire == [] && s.enqueued == s.queue && s.popped == [] && !s.late
  }

  // ---- Invariant ---------------------------------------------------------------------------

  /** The counter, the bound and the history of the queue. */
  ghost predicate QueueInv(s: System) {
    && s.queueBytes == |Concat(s.queue)| <= s.capacity
    && NonEmptyChunks(s.enqueued) && s.enqueued == s.popped + s.queue
    && ChunksFit(s.producers, s.capacity)
  }

  ghost predicate ChunksFit(producers: map<nat, Producer>, capacity: nat) {
    forall id :: id in producers ==> 0 < |producers[id].chunk| <= capacity
  }

  /** What is on the wire, seen from where the uploader stands. */
  ghost predicate WireInv(s: System) {
    var body := Body(s.popped);
    match s.uploader
    case Connecting => s.wire == [] && s.popped == []
    case Looking => s.wire == body
    case Sleeping => s.wire == body
    case Sending(rest) => rest != [] && s.wire + rest == body
    case Closing(rest) => rest != [] && s.wire + rest == body + TERMINATOR
    case Awaiting => s.wire == body + TERMINATOR
    case Leaving(code) => (code == 0 ==> s.wire == body + TERMINATOR) && s.wire <= body + TERMINATOR
    case Ended => (s.result == 0 ==> s.wire == body + TERMINATOR) && s.wire <= body + TERMINATOR
  }

  /** The uploader has seen the upload closed and the queue empty, and has not failed. */
  predicate LeftLoop(s: System) {
    || s.uploader.Closing? || s.uploader == Awaiting
    || s.uploader == Leaving(0) || (s.uploader == Ended && s.result == 0)
  }

  ghost predicate FlagInv(s: System) {
    && (s.uploader == Connecting ==> !s.ready && !s.done)
    && (s.uploader != Connecting ==> s.ready || s.done)
    && (s.uploader == Ended ==> s.done)
    && (s.done ==> s.uploader == Ended || (s.uploader.Leaving? && s.uploader.code != 0))
    && (!s.done ==> s.result == 0)
    && (s.owner in {Waiting, WaitAsleep, Open} ==> !s.closed && s.connected)
    && (s.owner == Joining ==> s.closed && s.connected)
    && (s.owner == Closed ==> s.uploader == Ended && !s.connected)
    && (LeftLoop(s) ==> s.closed && (s.late <==> s.queue != []))
    && (s.uploader in {Connecting, Looking, Sleeping} || s.uploader.Sending? ==> !s.late)
  }

  /** Nobody sleeps although he could go on: every sleeper's own wait condition holds. */
  ghost predicate NoLostWakeup(s: System) {
    && (s.uploader == Sleeping ==> s.queue == [] && !s.closed && s.ready && !s.done)
    && (s.owner == WaitAsleep ==> !s.ready && !s.done)
    && forall id :: id in s.producers && s.producers[id].Asleep? ==> MustWait(s, s.producers[id].chunk)
  }

  ghost predicate Inv(s: System) { QueueInv(s) && WireInv(s) && FlagInv(s) && NoLostWakeup(s) }

  lemma InitInv(s: System)
    requires Init(s)
    ensures Inv(s)
  {
    assert s.popped + s.queue == s.queue;
  }

  /** The uploader never sleeps next to a producer or the owner: one signal reaches the right thread. */
  lemma OneKindOfSleeper(s: System, who: Sleeper)
    requires QueueInv(s) && NoLostWakeup(s) && s.uploader == Sleeping && IsAsleep(s, who)
    ensures who == TheUploader
  {
  }

  lemma QueueSame(s: System, t: System)
    requires QueueInv(s)
    requires t.capacity == s.capacity && t.queue == s.queue && t.queueBytes == s.queueBytes
    requires t.enqueued == s.enqueued && t.popped == s.popped
    requires t.producers == s.producers || t.producers == AllReady(s.producers)
    ensures QueueInv(t)
  {
    hide Concat;
  }

  lemma PushQueue(s: System, id: nat, chunk: seq<byte>, woken: Option<Sleeper>)
    requires QueueInv(s) && 0 < |chunk| <= s.capacity - s.queueBytes
    requires woken.Some? ==> IsAsleep(s.(producers := s.producers - {id}), woken.value)
    ensures QueueInv(Pushed(s, id, chunk, woken))
  {
    hide Concat;
    ConcatAppend(s.queue, [chunk]);
    ConcatSingle(chunk);
    assert s.enqueued + [chunk] == s.popped + (s.queue + [chunk]);
  }

  lemma LookQueue(s: System)
    requires QueueInv(s)
    ensures QueueInv(Looked(s))
  {
    hide Chunk;
    if s.queue != [] {
      assert s.popped + s.queue == (s.popped + [s.queue[0]]) + s.queue[1..];
    }
  }

  lemma BeginQueue(s: System, id: nat, vectors: seq<seq<byte>>)
    requires QueueInv(s)
    ensures QueueInv(Begun(s, id, vectors))
  {
    hide Concat;
  }

  lemma WokenQueue(s: System, who: Sleeper)
    requires QueueInv(s) && IsAsleep(s, who)
    ensures QueueInv(Woken(s, who))
  {
    hide Concat;
  }

  lemma EnterQueue(s: System, id: nat, pushed: bool, woken: Option<Sleeper>)
    requires QueueInv(s) && Enabled(s, Enter(id, pushed, woken))
    ensures QueueInv(Apply(s, Enter(id, pushed, woken)))
  {
    hide Concat, Pushed;
    if Accepts(s, s.producers[id].chunk, pushed) {
      PushQueue(s, id, s.producers[id].chunk, woken);
    }
  }

  lemma SendQueue(s: System, n: nat)
    requires QueueInv(s) && Enabled(s, Send(n))
    ensures QueueInv(Sent(s, n))
  {
    hide QueueInv;
    QueueSame(s, Sent(s, n));
  }

  lemma QueueKeeps(s: System, step: Step)
    requires QueueInv(s) && Enabled(s, step)
    ensures QueueInv(Apply(s, step))
  {
    hide QueueInv, AllWoken, AllReady, Pushed, Looked, Begun, Woken, Sent, MustWait;
    match step
    case Begin(id, vectors) => BeginQueue(s, id, vectors);
    case Enter(id, pushed, woken) => EnterQueue(s, id, pushed, woken);
    case Wake(who) => WokenQueue(s, who);
    case Look => LookQueue(s);
    case Send(n) => SendQueue(s, n);
    case _ => QueueSame(s, Apply(s, step));
  }

  lemma SplitWire(wire: seq<byte>, rest: seq<byte>, n: nat)
    requires n <= |rest|
    ensures wire + rest == (wire + rest[..n]) + rest[n..]
    ensures n == |rest| ==> rest[..n] == rest
    ensures wire + rest[..n] <= wire + rest
  {
  }

  lemma SendWire(s: System, n: nat)
    requires WireInv(s) && Enabled(s, Send(n))
    ensures WireInv(Sent(s, n))
  {
    hide Body;
    SplitWire(s.wire, s.uploader.rest, n);
  }

  lemma SendFailsWire(s: System, n: nat, code: int)
    requires WireInv(s) && Enabled(s, SendFails(n, code))
    ensures WireInv(Apply(s, SendFails(n, code)))
  {
    hide Body;
    var rest := s.uploader.rest;
    SplitWire(s.wire, rest, n);
    if s.uploader.Sending? {
      assert s.wire + rest <= Body(s.popped) + TERMINATOR;
    }
  }

  lemma ChunkNonEmpty(x: seq<byte>)
    ensures Chunk(x) != []
  {
  }

  lemma LookWire(s: System)
    requires WireInv(s) && s.uploader == Looking
    ensures WireInv(Apply(s, Look))
  {
    hide Body, Chunk, AllReady;
    if s.queue != [] {
      BodySnoc(s.popped, s.queue[0]);
      ChunkNonEmpty(s.queue[0]);
    }
  }

  lemma EnterWire(s: System, id: nat, pushed: bool, woken: Option<Sleeper>)
    requires WireInv(s) && Enabled(s, Enter(id, pushed, woken))
    ensures WireInv(Apply(s, Enter(id, pushed, woken)))
  {
    hide WireInv, MustWait, Woken;
    SameWire(s, Apply(s, Enter(id, pushed, woken)));
  }

  lemma WireKeeps(s: System, step: Step)
    requires WireInv(s) && Enabled(s, step)
    ensures WireInv(Apply(s, step))
  {
    hide AllWoken, Woken, Pushed, Chunk, Looked, MustWait, Sent;
    match step
    case Enter(id, pushed, woken) => EnterWire(s, id, pushed, woken);
    case Look => LookWire(s);
    case PopFails(code) => assert s.wire <= Body(s.popped) + TERMINATOR;
    case Send(n) => SendWire(s, n);
    case SendFails(n, code) => SendFailsWire(s, n, code);
    case Connected(_) => assert Body([]) == [];
    case Response(_) =>
    case Publish =>
    case _ =>
      hide WireInv;
      SameWire(s, Apply(s, step));
  }

  lemma SameWire(s: System, t: System)
    requires WireInv(s) && t.wire == s.wire && t.popped == s.popped && t.result == s.result
    requires t.uploader == s.uploader || (s.uploader == Sleeping && t.uploader == Looking)
    ensures WireInv(t)
  {
    hide Body;
  }

  lemma PushFlags(s: System, id: nat, chunk: seq<byte>, woken: Option<Sleeper>)
    requires FlagInv(s)
    requires woken.Some? ==> IsAsleep(s.(producers := s.producers - {id}), woken.value)
    ensures FlagInv(Pushed(s, id, chunk, woken))
  {
  }

  lemma EnterFlags(s: System, id: nat, pushed: bool, woken: Option<Sleeper>)
    requires FlagInv(s) && Enabled(s, Enter(id, pushed, woken))
    ensures FlagInv(Apply(s, Enter(id, pushed, woken)))
  {
    hide MustWait, Pushed;
    var chunk := s.producers[id].chunk;
    if Accepts(s, chunk, pushed) {
      PushFlags(s, id, chunk, woken);
    }
  }

  lemma LookFlags(s: System)
    requires FlagInv(s) && s.uploader == Looking
    ensures FlagInv(Looked(s))
  {
    hide Chunk, AllReady;
  }

  /** The steps of the uploader outside its look at the queue. */
  lemma UploadFlags(s: System, step: Step)
    requires FlagInv(s) && Enabled(s, step)
    requires step.Connected? || step.Send? || step.SendFails? || step.PopFails? || step.Response? || step.Publish?
    ensures FlagInv(Apply(s, step))
  {
    hide AllReady;
  }

  lemma FlagKeeps(s: System, step: Step)
    requires FlagInv(s) && Enabled(s, step)
    ensures FlagInv(Apply(s, step))
  {
    hide Looked, Pushed, AllReady, Concat, Sent, MustWait;
    match step
    case Enter(id, pushed, woken) => EnterFlags(s, id, pushed, woken);
    case Look => LookFlags(s);
    case Begin(_, _) =>
    case Wake(_) =>
    case OwnerEnter =>
    case Close =>
    case Join =>
    case _ => UploadFlags(s, step);
  }

  lemma PushKeepsAwake(s: System, id: nat, woken: Option<Sleeper>)
    requires QueueInv(s) && FlagInv(s) && NoLostWakeup(s) && Enabled(s, Enter(id, true, woken))
    requires Accepts(s, s.producers[id].chunk, true)
    ensures NoLostWakeup(Apply(s, Enter(id, true, woken)))
  {
    hide Body, Chunk, Concat, FlagInv;
    if s.uploader == Sleeping {
      assert IsAsleep(s, TheUploader);
      OneKindOfSleeper(s, woken.value);
    }
  }

  lemma WakeKeeps(s: System, step: Step)
    requires QueueInv(s) && FlagInv(s) && NoLostWakeup(s) && Enabled(s, step)
    ensures NoLostWakeup(Apply(s, step))
  {
    hide Body, Chunk, Concat, QueueInv;
    if step.Enter? && Accepts(s, s.producers[step.id].chunk, step.pushed) {
      PushKeepsAwake(s, step.id, step.woken);
    }
  }

  lemma StepKeeps(s: System, step: Step)
    requires Inv(s) && Enabled(s, step)
    ensures Inv(Apply(s, step))
  {
    QueueKeeps(s, step);
    WireKeeps(s, step);
    FlagKeeps(s, step);
    WakeKeeps(s, step);
    hide Apply, Enabled, QueueInv, WireInv, FlagInv, NoLostWakeup;
  }

  // ---- Runs --------------------------------------------------------------------------------

  ghost predicate IsRun(run: seq<System>, steps: seq<Step>) {
    && |run| == |steps| + 1 && Init(run[0])
    && forall i :: 0 <= i < |steps| ==> Enabled(run[i], steps[i]) && run[i + 1] == Apply(run[i], steps[i])
  }

  lemma {:induction false} Reachable(run: seq<System>, steps: seq<Step>, i: nat)
    requires IsRun(run, steps) && i < |run|
    ensures Inv(run[i])
  {
    if i == 0 {
      InitInv(run[0]);
    } else {
      Reachable(run, steps, i - 1);
      StepKeeps(run[i - 1], steps[i - 1]);
    }
  }

  /** The counter counts, the bound holds, and nobody sleeps in vain, in every reachable state. */
  lemma QueueBoundedAndAwake(run: seq<System>, steps: seq<Step>, i: nat)
    requires IsRun(run, steps) && i < |run|
    ensures var s := run[i];
            && s.queueBytes == |Concat(s.queue)| <= s.capacity
            && NoLostWakeup(s)
            && (s.uploader == Sleeping ==> forall who :: IsAsleep(s, who) ==> who == TheUploader)
            && (s.done ==> forall id :: id in s.producers ==> !s.producers[id].Asleep?)
  {
    Reachable(run, steps, i);
    var s := run[i];
    if s.uploader == Sleeping {
      forall who | IsAsleep(s, who) ensures who == TheUploader { OneKindOfSleeper(s, who); }
    }
  }

  // ---- A waiting producer gets on ----------------------------------------------------------

  predicate IsUploaderStep(step: Step) {
    || step.Connected? || step.Look? || step.PopFails? || step.Send? || step.SendFails?
    || step.Response? || step.Publish?
  }

  /** While a producer must wait, the uploader is awake, has not ended and can take a step of its own. */
  lemma UploaderCanMove(s: System, chunk: seq<byte>) returns (step: Step)
    requires Inv(s) && MustWait(s, chunk) && |chunk| <= s.capacity
    ensures s.uploader != Sleeping && s.uploader != Ended && s.queue != []
    ensures IsUploaderStep(step) && Enabled(s, step)
  {
    hide Body, Chunk;
    assert s.queue != [];
    match s.uploader
    case Connecting => step := Connected(0);
    case Looking => step := Look;
    case Sending(rest) => step := Send(1);
    case Closing(rest) => step := Send(1);
    case Awaiting => step := Response(0);
    case Leaving(code) => step := Publish;
    case _ =>
      assert false;
      step := Look;
  }

  /** In every run, as long as a producer sleeps, the uploader is awake and has a step to take. */
  lemma SleepingProducerHasHelper(run: seq<System>, steps: seq<Step>, i: nat, id: nat) returns (step: Step)
    requires IsRun(run, steps) && i < |run| && IsAsleep(run[i], AProducer(id))
    ensures run[i].uploader != Sleeping && run[i].uploader != Ended
    ensures IsUploaderStep(step) && Enabled(run[i], step)
  {
    hide Enabled, WireInv, FlagInv;
    Reachable(run, steps, i);
    step := UploaderCanMove(run[i], run[i].producers[id].chunk);
  }

  function CountUploader(steps: seq<Step>): nat {
    if steps == [] then 0 else (if IsUploaderStep(steps[0]) then 1 else 0) + CountUploader(steps[1..])
  }

  /** How many steps the uploader can take before it must broadcast. */
  function Patience(u: Uploader): nat {
    match u
    case Sending(rest) => |rest| + 1
    case Closing(rest) => |rest| + 2
    case Awaiting => 2
    case Connecting => 1
    case Looking => 1
    case Leaving(_) => 1
    case _ => 0
  }

  lemma PatienceShrinks(s: System, step: Step, id: nat)
    requires Inv(s) && Enabled(s, step) && IsAsleep(s, AProducer(id)) && IsAsleep(Apply(s, step), AProducer(id))
    ensures Patience(Apply(s, step).uploader) + (if IsUploaderStep(step) then 1 else 0) <= Patience(s.uploader)
  {
    hide Body, Chunk, Concat;
    assert s.uploader != Sleeping && s.queue != [] by {
      var step := UploaderCanMove(s, s.producers[id].chunk);
    }
  }

  /** However the threads interleave, a producer sleeps through a bounded number of uploader steps. */
  lemma {:induction false} WokenInTime(run: seq<System>, steps: seq<Step>, i: nat, j: nat, id: nat)
    requires IsRun(run, steps) && i <= j < |run|
    requires forall k :: i <= k <= j ==> IsAsleep(run[k], AProducer(id))
    ensures CountUploader(steps[i..j]) + Patience(run[j].uploader) <= Patience(run[i].uploader)
    decreases j - i
  {
    hide Enabled, Apply, Inv, IsAsleep, Patience, IsUploaderStep;
    if i < j {
      Reachable(run, steps, i);
      assert Enabled(run[i], steps[i]) && run[i + 1] == Apply(run[i], steps[i]);
      PatienceShrinks(run[i], steps[i], id);
      assert steps[i..j][1..] == steps[i + 1..j];
      WokenInTime(run, steps, i + 1, j, id);
    }
  }

  /** The uploader steps it takes to send what is queued. */
  function QueueWork(queue: seq<seq<byte>>): nat {
    if queue == [] then 0 else |Chunk(queue[0])| + 1 + QueueWork(queue[1..])
  }

  /** An upper bound on the uploader steps until the queue is empty or the upload is over. */
  function Work(s: System): nat {
    match s.uploader
    case Connecting => 1 + QueueWork(s.queue)
    case Sending(rest) => |rest| + QueueWork(s.queue)
    case Closing(rest) => |rest| + 2
    case Awaiting => 2
    case Leaving(_) => 1
    case Ended => 0
    case _ => QueueWork(s.queue)
  }

  predicate IsPush(s: System, step: Step) {
    step.Enter? && step.id in s.producers && Accepts(s, s.producers[step.id].chunk, step.pushed)
  }

  lemma WorkShrinks(s: System, step: Step, chunk: seq<byte>)
    requires Inv(s) && Enabled(s, step) && !IsPush(s, step) && |chunk| <= s.capacity
    requires MustWait(s, chunk) && MustWait(Apply(s, step), chunk)
    ensures Work(Apply(s, step)) + (if IsUploaderStep(step) then 1 else 0) <= Work(s)
  {
    hide Body, Concat, Chunk, AllReady;
    assert s.uploader != Sleeping && s.queue != [] by {
      var step := UploaderCanMove(s, chunk);
    }
    ChunkNonEmpty(s.queue[0]);
    assert QueueWork(s.queue) == |Chunk(s.queue[0])| + 1 + QueueWork(s.queue[1..]);
    hide QueueWork;
  }

  /**
   * Unless others keep pushing, a waiting producer has room for its chunk, or learns that the
   * upload is over, after at most Work uploader steps.
   */
  lemma {:induction false} RoomInTime(run: seq<System>, steps: seq<Step>, i: nat, j: nat, chunk: seq<byte>)
    requires IsRun(run, steps) && i <= j < |run| && |chunk| <= run[i].capacity
    requires forall k :: i <= k <= j ==> MustWait(run[k], chunk)
    requires forall k :: i <= k < j ==> !IsPush(run[k], steps[k])
    ensures CountUploader(steps[i..j]) + Work(run[j]) <= Work(run[i])
    decreases j - i
  {
    hide Enabled, Apply, Inv, MustWait, Work, IsPush, IsUploaderStep;
    if i < j {
      Reachable(run, steps, i);
      assert Enabled(run[i], steps[i]) && run[i + 1] == Apply(run[i], steps[i]);
      SameCapacity(run[i], steps[i]);
      WorkShrinks(run[i], steps[i], chunk);
      assert steps[i..j][1..] == steps[i + 1..j];
      RoomInTime(run, steps, i + 1, j, chunk);
    }
  }

  lemma SameCapacity(s: System, step: Step)
    requires Enabled(s, step)
    ensures Apply(s, step).capacity == s.capacity
  {
    hide AllReady, AllWoken, Woken, Begun, Pushed, Looked, Sent, MustWait, Accepts, Concat, Chunk, LeftLoop;
    match step
    case Enter(_, _, _) =>
    case Wake(_) =>
    case Connected(_) =>
    case _ =>
  }

  // ---- What reaches the server -------------------------------------------------------------

  /** A chunk becomes late only when it is pushed after the owner has closed the upload. */
  lemma LateOnlyAfterClose(run: seq<System>, steps: seq<Step>, i: nat)
    requires IsRun(run, steps) && i < |steps| && !run[i].late && run[i + 1].late
    ensures run[i].closed && IsPush(run[i], steps[i]) && run[i + 1].enqueued == run[i].enqueued + [run[i].producers[steps[i].id].chunk]
  {
    hide Enabled, Apply, FlagInv;
    Reachable(run, steps, i);
    assert Enabled(run[i], steps[i]) && run[i + 1] == Apply(run[i], steps[i]);
    LateStep(run[i], steps[i]);
  }

  lemma LateStep(s: System, step: Step)
    requires FlagInv(s) && Enabled(s, step) && !s.late && Apply(s, step).late
    ensures s.closed && IsPush(s, step) && Apply(s, step).enqueued == s.enqueued + [s.producers[step.id].chunk]
  {
    hide Concat, Chunk, AllWoken, AllReady, Woken, MustWait;
    match step
    case Look =>
    case Enter(_, _, _) =>
    case _ =>
  }

  /**
   * The final law: result 0 means the body decodes to what the uploader took, which is
   * everything ever enqueued exactly when no chunk came after its last look.
   */
  lemma SuccessfulUpload(run: seq<System>, steps: seq<Step>)
    requires IsRun(run, steps)
    requires var s := run[|steps|]; s.uploader == Ended && s.result == 0
    ensures var s := run[|steps|];
            && Decode(s.wire) == Some(Concat(s.popped))
            && (Decode(s.wire) == Some(Concat(s.enqueued)) <==> !s.late)
  {
    var s := run[|steps|];
    Reachable(run, steps, |steps|);
    PoppedNonEmpty(s);
    DecodeBody(s.popped);
    ConcatAppend(s.popped, s.queue);
    if s.queue != [] {
      assert s.enqueued[|s.popped|] == s.queue[0];
      assert |Concat(s.queue)| > 0;
    } else {
      assert s.popped + s.queue == s.popped;
    }
  }

  /** No push of the run is accepted once the owner has closed the upload. */
  ghost predicate NoPushAfterClose(run: seq<System>, steps: seq<Step>)
    requires IsRun(run, steps)
  {
    forall i :: 0 <= i < |steps| ==> IsPush(run[i], steps[i]) ==> !run[i].closed
  }

  lemma {:induction false} NeverLate(run: seq<System>, steps: seq<Step>, i: nat)
    requires IsRun(run, steps) && i < |run| && NoPushAfterClose(run, steps)
    ensures !run[i].late
  {
    hide Enabled, Apply, Accepts;
    if i > 0 {
      NeverLate(run, steps, i - 1);
      if run[i].late { LateOnlyAfterClose(run, steps, i - 1); }
    }
  }

  lemma PoppedNonEmpty(s: System)
    requires QueueInv(s)
    ensures NonEmptyChunks(s.popped)
  {
    forall i | 0 <= i < |s.popped| ensures s.popped[i] != [] {
      assert s.popped[i] == s.enqueued[i];
    }
  }

  /** In every run, at every moment, the data on the wire is a prefix of what was enqueued. */
  lemma WireIsPrefix(run: seq<System>, steps: seq<Step>, i: nat)
    requires IsRun(run, steps) && i < |run|
    ensures Readable(run[i].wire) <= Concat(run[i].enqueued)
  {
    var s := run[i];
    Reachable(run, steps, i);
    PoppedNonEmpty(s);
    WirePrefixOfBody(s);
    ReadablePrefix(s.popped, s.wire);
    ConcatAppend(s.popped, s.queue);
  }

  lemma WirePrefixOfBody(s: System)
    requires WireInv(s)
    ensures s.wire <= Body(s.popped) + TERMINATOR
  {
    hide Body;
    match s.uploader
    case Sending(rest) => assert s.wire + (rest + TERMINATOR) == Body(s.popped) + TERMINATOR;
    case Closing(rest) =>
    case _ =>
  }

  /** A run of nine steps in which a chunk is accepted between the uploader's last look and its result. */
  ghost function LateState(chunk: seq<byte>, i: nat): System {
    var s := System(|chunk|, [], 0, true, i > 0, i > 3, i > 8, 0,
                    Looking, if i < 2 then Waiting else if i < 4 then Open else Joining,
                    map[], if i > 6 then TERMINATOR else [], [], [], false);
    if i == 0 then s.(uploader := Connecting)
    else if i < 3 then s
    else if i < 5 then s.(producers := map[0 := Ready(chunk)])
    else if i == 5 then s.(producers := map[0 := Ready(chunk)], uploader := Closing(TERMINATOR))
    else s.(queue := [chunk], queueBytes := |chunk|, enqueued := [chunk], late := true,
            uploader := if i == 6 then Closing(TERMINATOR) else if i == 7 then Awaiting
                        else if i == 8 then Leaving(0) else Ended)
  }

  ghost function LateSteps(chunk: seq<byte>): seq<Step> {
    [Connected(0), OwnerEnter, Begin(0, [chunk]), Close, Look, Enter(0, true, None), Send(5), Response(0), Publish]
  }

  lemma LateRunStarts(chunk: seq<byte>, i: nat)
    requires chunk != [] && i < 5
    ensures Enabled(LateState(chunk, i), LateSteps(chunk)[i])
    ensures Apply(LateState(chunk, i), LateSteps(chunk)[i]) == LateState(chunk, i + 1)
  {
    ConcatSingle(chunk);
    hide Concat, Chunk;
    assert AllReady(LateState(chunk, 3).producers) == LateState(chunk, 3).producers;
  }

  lemma LateRunEnds(chunk: seq<byte>, i: nat)
    requires chunk != [] && 5 <= i < 9
    ensures Enabled(LateState(chunk, i), LateSteps(chunk)[i])
    ensures Apply(LateState(chunk, i), LateSteps(chunk)[i]) == LateState(chunk, i + 1)
  {
    hide Concat, Chunk;
    if i == 5 {
      assert LateState(chunk, 5).producers - {0} == map[];
      assert [] + [chunk] == [chunk];
    } else if i == 6 {
      assert [] + TERMINATOR[..5] == TERMINATOR;
    }
  }

  lemma EmptyBodyDecodes()
    ensures Decode(TERMINATOR) == Some([])
  {
    DecodeBody([]);
    assert Body([]) + TERMINATOR == TERMINATOR;
  }

  /**
   * An upload can end with result 0 and still lose an accepted chunk: it is pushed after the
   * uploader has left its loop and before it publishes the result.
   */
  lemma LateChunkIsLost(chunk: seq<byte>)
    requires chunk != []
    ensures exists run: seq<System>, steps ::
              && IsRun(run, steps)
              && var s := run[|steps|];
                 s.uploader == Ended && s.result == 0 && s.enqueued == [chunk] && Decode(s.wire) == Some([])
  {
    hide Apply, Enabled, Decode, Body;
    var steps := LateSteps(chunk);
    var run := seq(10, i requires 0 <= i < 10 => LateState(chunk, i));
    EmptyBodyDecodes();
    assert Init(run[0]);
    forall i | 0 <= i < 9 ensures Enabled(run[i], steps[i]) && run[i + 1] == Apply(run[i], steps[i]) {
      if i < 5 { LateRunStarts(chunk, i); } else { LateRunEnds(chunk, i); }
    }
    assert IsRun(run, steps);
    assert run[9] == LateState(chunk, 9);
  }
}
