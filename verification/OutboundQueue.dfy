/**
 A peer's outbound queue: bounded in frames and bytes, drained by one worker, and fenced
 so that a frame is written only to the transport it was bound to.
 */
module OutboundQueue {
  import opened Wrappers
  import opened SessionReliability

  const MAX_FRAMES: nat := 256
  const MAX_BYTES: nat := 2 * 1024 * 1024

  /** The transport a frame is meant for, as read when the frame was queued. */
  datatype Binding = Binding(socket: nat, generation: nat)

  datatype Frame<+P> = Frame(binding: Binding, payload: P, size: nat)

  datatype Queue<+P> = Queue(frames: seq<Frame<P>>, bytes: nat, draining: bool) {
    ghost predicate Valid() {
      && |frames| <= MAX_FRAMES
      && bytes == TotalBytes(frames)
      && bytes <= MAX_BYTES
      && (frames != [] ==> draining)
    }

    predicate Overflows(size: nat) {
      |frames| >= MAX_FRAMES || size > MAX_BYTES - (if bytes <= MAX_BYTES then bytes else MAX_BYTES)
    }
  }

  function EmptyQueue<P>(): Queue<P> {
    Queue([], 0, false)
  }

  function TotalBytes<P>(frames: seq<Frame<P>>): nat {
    if frames == [] then 0 else frames[0].size + TotalBytes(frames[1..])
  }

  lemma {:induction false} TotalBytesAppend<P>(frames: seq<Frame<P>>, frame: Frame<P>)
    ensures TotalBytes(frames + [frame]) == TotalBytes(frames) + frame.size
  {
    if frames == [] {
      assert frames + [frame] == [frame];
    } else {
      assert (frames + [frame])[1..] == frames[1..] + [frame];
      TotalBytesAppend(frames[1..], frame);
    }
  }

  function Push<P>(queue: Queue<P>, frame: Frame<P>): Queue<P> {
    if queue.Overflows(frame.size) then queue
    else Queue(queue.frames + [frame], queue.bytes + frame.size, true)
  }

  function Pop<P>(queue: Queue<P>): Queue<P> {
    if queue.frames == [] then queue.(draining := false)
    else
      var size := queue.frames[0].size;
      Queue(queue.frames[1..], if size <= queue.bytes then queue.bytes - size else 0, queue.draining)
  }

  /** More than 256 frames, or more than 2 MiB. */
  predicate TooMuch<P>(frames: seq<Frame<P>>) {
    |frames| > 256 || TotalBytes(frames) > 2_097_152
  }

  /** A frame overflows a queue just when the queue with it would be too much. */
  lemma PushIsValid<P>(queue: Queue<P>, frame: Frame<P>)
    requires queue.Valid()
    ensures Push(queue, frame).Valid()
    ensures queue.Overflows(frame.size) <==> TooMuch(queue.frames + [frame])
  {
    TotalBytesAppend(queue.frames, frame);
  }

  // ---------- The peer's fields ----------

  class PeerOutbound<P> {
    var outboundFrames: seq<Frame<P>>
    var outboundBytes: nat
    var outboundDrainActive: bool

    ghost function State(): Queue<P>
      reads this
    {
      Queue(outboundFrames, outboundBytes, outboundDrainActive)
    }

    constructor ()
      ensures State() == EmptyQueue() && State().Valid()
    {
      outboundFrames, outboundBytes, outboundDrainActive := [], 0, false;
    }

    /** The part of sending that holds the queue's lock. */
    method PushFrame(frame: Frame<P>) returns (overflow: bool, startDrain: bool)
      requires State().Valid()
      modifies this
      ensures State() == Push(old(State()), frame) && State().Valid()
      ensures overflow <==> old(State()).Overflows(frame.size)
      ensures overflow <==> TooMuch(old(outboundFrames) + [frame])
      ensures outboundFrames == if overflow then old(outboundFrames) else old(outboundFrames) + [frame]
      ensures outboundBytes == if overflow then old(outboundBytes) else old(outboundBytes) + frame.size
      ensures outboundDrainActive <==> old(outboundDrainActive) || !overflow
      ensures startDrain <==> !overflow && !old(outboundDrainActive)
    {
      PushIsValid(State(), frame);
      var used := if outboundBytes <= MAX_BYTES then outboundBytes else MAX_BYTES;
      overflow := |outboundFrames| >= MAX_FRAMES || frame.size > MAX_BYTES - used;
      startDrain := false;
      if !overflow {
        outboundFrames := outboundFrames + [frame];
        outboundBytes := outboundBytes + frame.size;
        if !outboundDrainActive {
          outboundDrainActive := true;
          startDrain := true;
        }
      }
    }

    method TakeOutboundFrame() returns (frame: Option<Frame<P>>)
      requires State().Valid()
      modifies this
      ensures State() == Pop(old(State())) && State().Valid()
      ensures frame == if old(outboundFrames) == [] then None else Some(old(outboundFrames)[0])
      ensures frame.None? ==> outboundFrames == [] && !outboundDrainActive
      ensures frame.Some? ==>
                && outboundFrames == old(outboundFrames)[1..] && outboundDrainActive
                && outboundBytes == old(outboundBytes) - frame.value.size
    {
      if outboundFrames == [] {
        outboundDrainActive := false;
        return None;
      }
      frame := Some(outboundFrames[0]);
      outboundFrames := outboundFrames[1..];
      outboundBytes := outboundBytes - frame.value.size;
    }
  }

  // ---------- Every interleaving of senders, workers and transport changes ----------

  /** A drain worker between two frames, holding one, or about to write one. */
  datatype Worker<+P> = Ready | Taken(frame: Frame<P>) | Checked(frame: Frame<P>)

  /**
   One peer's transport, queue and workers.  `sent` and `wire` record, for each binding,
   the payloads queued for it and the payloads written to it; `dead` holds the bindings
   whose connection was invalidated or failed.
   */
  datatype Peer<+P> = Peer(
    fence: Fence,
    queue: Queue<P>,
    workers: seq<Worker<P>>,
    dead: set<Binding>,
    sent: map<Binding, seq<P>>,
    wire: map<Binding, seq<P>>)

  function NewPeer<P>(): Peer<P> {
    Peer(Fence(None, 0), EmptyQueue(), [], {}, map[], map[])
  }

  function At<P>(record: map<Binding, seq<P>>, binding: Binding): seq<P> {
    if binding in record then record[binding] else []
  }

  predicate IsCurrent<P>(p: Peer<P>, binding: Binding) {
    p.fence.IsCurrent(binding.socket, binding.generation)
  }

  /** One critical section each; `worker` is the index of the worker that moves. */
  datatype Step<+P> =
    | Replace(socket: nat)
    | Detach(socket: nat)
    | Send(binding: Binding, payload: P, size: nat)
    | Invalidate(binding: Binding)
    | Take(worker: nat)
    | Check(worker: nat)
    | Write(worker: nat)
    | WriteError(worker: nat)

  predicate Enabled<P>(p: Peer<P>, step: Step<P>) {
    match step
    case Replace(_) => true
    case Detach(_) => true
    case Send(binding, _, _) => binding.generation <= p.fence.generation
    case Invalidate(_) => true
    case Take(w) => w < |p.workers| && p.workers[w].Ready?
    case Check(w) => w < |p.workers| && p.workers[w].Taken?
    case Write(w) => w < |p.workers| && p.workers[w].Checked? && p.workers[w].frame.binding !in p.dead
    case WriteError(w) => w < |p.workers| && p.workers[w].Checked?
  }

  function Apply<P>(p: Peer<P>, step: Step<P>): Peer<P>
    requires Enabled(p, step)
  {
    match step
    case Replace(socket) =>
      p.(fence := p.fence.Replace(socket))
    case Detach(socket) =>
      p.(fence := p.fence.DetachIfCurrent(socket, p.fence.generation))
    case Send(binding, payload, size) =>
      var frame := Frame(binding, payload, size);
      if p.queue.Overflows(size) then p
      else p.(queue := Push(p.queue, frame),
              workers := if p.queue.draining then p.workers else p.workers + [Ready],
              sent := p.sent[binding := At(p.sent, binding) + [payload]])
    case Invalidate(binding) =>
      p.(dead := p.dead + {binding})
    case Take(w) =>
      if p.queue.frames == []
      then p.(queue := Pop(p.queue), workers := p.workers[..w] + p.workers[w + 1..])
      else p.(queue := Pop(p.queue), workers := p.workers[w := Taken(p.queue.frames[0])])
    case Check(w) =>
      var frame := p.workers[w].frame;
      p.(workers := p.workers[w := if IsCurrent(p, frame.binding) then Checked(frame) else Ready])
    case Write(w) =>
      var frame := p.workers[w].frame;
      p.(workers := p.workers[w := Ready],
         wire := p.wire[frame.binding := At(p.wire, frame.binding) + [frame.payload]])
    case WriteError(w) =>
      p.(workers := p.workers[w := Ready], dead := p.dead + {p.workers[w].frame.binding})
  }

  predicate Runs<P>(p: Peer<P>, steps: seq<Step<P>>)
    decreases |steps|
  {
    steps == [] || (Enabled(p, steps[0]) && Runs(Apply(p, steps[0]), steps[1..]))
  }

  function Run<P>(p: Peer<P>, steps: seq<Step<P>>): Peer<P>
    requires Runs(p, steps)
    decreases |steps|
  {
    if steps == [] then p else Run(Apply(p, steps[0]), steps[1..])
  }

  /** The payloads still on their way to `binding`, oldest first. */
  function Held<P>(worker: Worker<P>, binding: Binding): seq<P> {
    if !worker.Ready? && worker.frame.binding == binding then [worker.frame.payload] else []
  }

  function QueuedFor<P>(frames: seq<Frame<P>>, binding: Binding): seq<P> {
    if frames == [] then []
    else (if frames[0].binding == binding then [frames[0].payload] else []) + QueuedFor(frames[1..], binding)
  }

  function Pending<P>(p: Peer<P>, binding: Binding): seq<P> {
    (if p.workers == [] then [] else Held(p.workers[0], binding)) + QueuedFor(p.queue.frames, binding)
  }

  lemma {:induction false} QueuedForAppend<P>(frames: seq<Frame<P>>, frame: Frame<P>, binding: Binding)
    ensures QueuedFor(frames + [frame], binding)
         == QueuedFor(frames, binding) + (if frame.binding == binding then [frame.payload] else [])
  {
    if frames == [] {
      assert frames + [frame] == [frame];
    } else {
      assert (frames + [frame])[1..] == frames[1..] + [frame];
      QueuedForAppend(frames[1..], frame, binding);
    }
  }

  ghost predicate IsPrefix<P>(a: seq<P>, b: seq<P>) {
    |a| <= |b| && a == b[..|a|]
  }

  /** What holds of one binding: what was written is what was queued first. */
  ghost predicate BindingInv<P>(p: Peer<P>, binding: Binding) {
    && (binding.generation > p.fence.generation ==> At(p.sent, binding) == [])
    && IsPrefix(At(p.wire, binding), At(p.sent, binding))
    && (binding !in p.dead && IsCurrent(p, binding)
        ==> At(p.sent, binding) == At(p.wire, binding) + Pending(p, binding))
    && (binding !in p.dead && p.workers != [] && p.workers[0].Checked? && p.workers[0].frame.binding == binding
        ==> IsPrefix(At(p.wire, binding) + [p.workers[0].frame.payload], At(p.sent, binding)))
  }

  ghost predicate QueueInv<P>(p: Peer<P>) {
    && p.queue.Valid()
    && |p.workers| == (if p.queue.draining then 1 else 0)
    && (forall i :: 0 <= i < |p.queue.frames| ==> p.queue.frames[i].binding.generation <= p.fence.generation)
    && (p.workers != [] && !p.workers[0].Ready? ==> p.workers[0].frame.binding.generation <= p.fence.generation)
  }

  ghost predicate Inv<P>(p: Peer<P>) {
    && QueueInv(p)
    && (forall binding :: BindingInv(p, binding))
  }

  lemma NewPeerInv<P>()
    ensures Inv(NewPeer<P>())
  {
  }

  lemma ReplaceKeepsBinding<P>(p: Peer<P>, socket: nat, binding: Binding)
    requires QueueInv(p) && BindingInv(p, binding)
    ensures BindingInv(Apply(p, Replace(socket)), binding)
  {
    if binding.generation == p.fence.generation + 1 {
      NothingQueuedAhead(p, p.queue.frames, binding);
    }
  }

  /** A queued frame waits behind the others. */
  lemma PendingAfterSend<P>(p: Peer<P>, to: Binding, payload: P, size: nat, binding: Binding)
    requires QueueInv(p) && Enabled(p, Send(to, payload, size)) && !p.queue.Overflows(size)
    ensures Pending(Apply(p, Send(to, payload, size)), binding)
         == Pending(p, binding) + (if to == binding then [payload] else [])
  {
    hide QueuedFor, Queue.Valid;
    QueuedForAppend(p.queue.frames, Frame(to, payload, size), binding);
  }

  lemma SendKeepsBinding<P>(p: Peer<P>, to: Binding, payload: P, size: nat, binding: Binding)
    requires QueueInv(p) && BindingInv(p, binding) && Enabled(p, Send(to, payload, size))
    ensures BindingInv(Apply(p, Send(to, payload, size)), binding)
  {
    hide QueuedFor, Pending, Queue.Valid, Push;
    if !p.queue.Overflows(size) {
      var q := Apply(p, Send(to, payload, size));
      var added := if to == binding then [payload] else [];
      PendingAfterSend(p, to, payload, size, binding);
      assert q.fence == p.fence && q.dead == p.dead && q.wire == p.wire;
      assert At(q.sent, binding) == At(p.sent, binding) + added;
      assert At(p.wire, binding) + (Pending(p, binding) + added) == (At(p.wire, binding) + Pending(p, binding)) + added;
      assert q.workers != [] && q.workers[0].Checked? ==> q.workers == p.workers;
    }
  }

  lemma TakeKeepsBinding<P>(p: Peer<P>, w: nat, binding: Binding)
    requires QueueInv(p) && BindingInv(p, binding) && Enabled(p, Take(w))
    ensures BindingInv(Apply(p, Take(w)), binding)
  {
    hide TotalBytes;
    var q := Apply(p, Take(w));
    assert Pending(q, binding) == Pending(p, binding);
  }

  lemma CheckKeepsBinding<P>(p: Peer<P>, w: nat, binding: Binding)
    requires QueueInv(p) && BindingInv(p, binding) && Enabled(p, Check(w))
    ensures BindingInv(Apply(p, Check(w)), binding)
  {
    hide QueuedFor, TotalBytes, Queue.Valid;
    var frame, q := p.workers[w].frame, Apply(p, Check(w));
    assert w == 0 && p.workers == [Taken(frame)];
    assert q.fence == p.fence && q.queue == p.queue && q.dead == p.dead && q.sent == p.sent && q.wire == p.wire;
    if frame.binding == binding && IsCurrent(p, binding) {
      assert q.workers == [Checked(frame)];
      PendingAfterHead(p, frame, binding);
    } else {
      assert IsCurrent(p, binding) ==> Pending(q, binding) == Pending(p, binding);
    }
  }

  /** The frame a worker holds is the next one to be written. */
  lemma PendingAfterHead<P>(p: Peer<P>, frame: Frame<P>, binding: Binding)
    requires |p.workers| == 1 && !p.workers[0].Ready? && p.workers[0].frame == frame && frame.binding == binding
    ensures var after := QueuedFor(p.queue.frames, binding);
      Pending(p, binding) == [frame.payload] + after
      && At(p.wire, binding) + Pending(p, binding) == (At(p.wire, binding) + [frame.payload]) + after
  {
    hide QueuedFor;
  }

  lemma WriteKeepsBinding<P>(p: Peer<P>, w: nat, binding: Binding)
    requires QueueInv(p) && BindingInv(p, binding) && Enabled(p, Write(w))
    ensures BindingInv(Apply(p, Write(w)), binding)
  {
    hide QueuedFor, TotalBytes, Queue.Valid;
    var frame, q := p.workers[w].frame, Apply(p, Write(w));
    assert w == 0 && p.workers == [Checked(frame)] && q.workers == [Ready];
    assert q.fence == p.fence && q.queue == p.queue && q.dead == p.dead && q.sent == p.sent;
    if frame.binding == binding {
      PendingAfterHead(p, frame, binding);
      assert At(q.wire, binding) == At(p.wire, binding) + [frame.payload];
      assert Pending(q, binding) == QueuedFor(p.queue.frames, binding);
    } else {
      assert At(q.wire, binding) == At(p.wire, binding);
      assert Pending(q, binding) == Pending(p, binding);
    }
  }

  lemma BindingStep<P>(p: Peer<P>, step: Step<P>, binding: Binding)
    requires QueueInv(p) && BindingInv(p, binding) && Enabled(p, step)
    ensures BindingInv(Apply(p, step), binding)
  {
    match step
    case Replace(socket) => ReplaceKeepsBinding(p, socket, binding);
    case Detach(_) =>
    case Send(to, payload, size) => SendKeepsBinding(p, to, payload, size, binding);
    case Invalidate(_) =>
    case Take(w) => TakeKeepsBinding(p, w, binding);
    case Check(w) => CheckKeepsBinding(p, w, binding);
    case Write(w) => WriteKeepsBinding(p, w, binding);
    case WriteError(_) =>
  }

  lemma {:induction false} NothingQueuedAhead<P>(p: Peer<P>, frames: seq<Frame<P>>, binding: Binding)
    requires forall i :: 0 <= i < |frames| ==> frames[i].binding.generation <= p.fence.generation
    requires binding.generation > p.fence.generation
    ensures QueuedFor(frames, binding) == []
  {
    if frames != [] {
      NothingQueuedAhead(p, frames[1..], binding);
    }
  }

  lemma StepKeepsInv<P>(p: Peer<P>, step: Step<P>)
    requires Inv(p) && Enabled(p, step)
    ensures Inv(Apply(p, step))
  {
    var q := Apply(p, step);
    forall binding ensures BindingInv(q, binding) {
      assert BindingInv(p, binding);
      BindingStep(p, step, binding);
    }
    if step.Send? {
      PushIsValid(p.queue, Frame(step.binding, step.payload, step.size));
    }
  }

  lemma {:induction false} RunKeepsInv<P>(p: Peer<P>, steps: seq<Step<P>>)
    requires Inv(p) && Runs(p, steps)
    ensures Inv(Run(p, steps))
    decreases |steps|
  {
    if steps != [] {
      StepKeepsInv(p, steps[0]);
      RunKeepsInv(Apply(p, steps[0]), steps[1..]);
    }
  }

  /**
   In every run: at most 256 frames and 2 MiB are queued and the byte count is exact; at
   most one worker exists, and a non-empty queue has one; and what was written to a
   binding is exactly the beginning of what was queued for it, in order.
   */
  lemma QueueIsBoundedAndOrdered<P>(steps: seq<Step<P>>)
    requires Runs(NewPeer<P>(), steps)
    ensures var p := Run(NewPeer<P>(), steps);
      && !TooMuch(p.queue.frames) && p.queue.bytes == TotalBytes(p.queue.frames)
      && |p.workers| <= 1
      && (p.queue.frames != [] ==> |p.workers| == 1)
      && (forall binding :: IsPrefix(At(p.wire, binding), At(p.sent, binding)))
  {
    NewPeerInv<P>();
    RunKeepsInv(NewPeer<P>(), steps);
    var p := Run(NewPeer<P>(), steps);
    forall binding ensures IsPrefix(At(p.wire, binding), At(p.sent, binding)) {
      assert BindingInv(p, binding);
    }
  }

  /** In every run a frame sent to a known binding is queued last unless the queue would be too much. */
  lemma SendIsQueued<P>(steps: seq<Step<P>>, binding: Binding, payload: P, size: nat)
    requires Runs(NewPeer<P>(), steps) && Enabled(Run(NewPeer<P>(), steps), Send(binding, payload, size))
    ensures var p := Run(NewPeer<P>(), steps);
      var q, all := Apply(p, Send(binding, payload, size)), p.queue.frames + [Frame(binding, payload, size)];
      if TooMuch(all) then q == p
      else && q.queue.frames == all && q.queue.draining && |q.workers| == 1 && q.wire == p.wire
           && At(q.sent, binding) == At(p.sent, binding) + [payload]
  {
    hide Runs, Run, BindingInv, TooMuch, TotalBytes;
    NewPeerInv<P>();
    RunKeepsInv(NewPeer<P>(), steps);
    PushIsValid(Run(NewPeer<P>(), steps).queue, Frame(binding, payload, size));
  }

  // ---------- A live transport is served ----------

  /** How many moves of the worker are left. */
  function Moves<P>(p: Peer<P>): nat {
    3 * |p.queue.frames|
    + if p.workers == [] || p.workers[0].Ready? then 0 else if p.workers[0].Checked? then 1 else 2
  }

  /** The worker's next move, if it has anything to do. */
  function NextMove<P>(p: Peer<P>): Step<P>
    requires p.workers != []
  {
    match p.workers[0]
    case Ready => Take(0)
    case Taken(_) => Check(0)
    case Checked(frame) => if frame.binding in p.dead then WriteError(0) else Write(0)
  }

  lemma MoveServes<P>(p: Peer<P>, binding: Binding)
    requires QueueInv(p) && p.workers != [] && (p.queue.frames != [] || !p.workers[0].Ready?)
    requires IsCurrent(p, binding) && binding !in p.dead
    ensures Enabled(p, NextMove(p))
    ensures var q := Apply(p, NextMove(p));
      && Moves(q) < Moves(p) && q.fence == p.fence && q.sent == p.sent && binding !in q.dead
  {
    hide Queue.Valid;
  }

  /** Nothing is pending when the worker has nothing to do. */
  lemma IdleIsServed<P>(p: Peer<P>, binding: Binding)
    requires Inv(p) && (p.workers == [] || (p.workers[0].Ready? && p.queue.frames == []))
    requires IsCurrent(p, binding) && binding !in p.dead
    ensures At(p.wire, binding) == At(p.sent, binding)
  {
    assert BindingInv(p, binding);
    assert p.queue.frames == [];
    assert Pending(p, binding) == [];
  }

  lemma {:induction false} Serves<P>(p: Peer<P>, binding: Binding) returns (steps: seq<Step<P>>)
    requires Inv(p) && IsCurrent(p, binding) && binding !in p.dead
    ensures Runs(p, steps) && At(Run(p, steps).wire, binding) == At(p.sent, binding)
    decreases Moves(p)
  {
    hide Enabled, Apply, BindingInv, IsCurrent, NextMove, Moves;
    if p.workers == [] || (p.workers[0].Ready? && p.queue.frames == []) {
      IdleIsServed(p, binding);
      steps := [];
    } else {
      MoveServes(p, binding);
      StepKeepsInv(p, NextMove(p));
      SameFence(p, Apply(p, NextMove(p)), binding);
      var rest := Serves(Apply(p, NextMove(p)), binding);
      steps := [NextMove(p)] + rest;
      assert steps[1..] == rest;
    }
  }

  lemma SameFence<P>(p: Peer<P>, q: Peer<P>, binding: Binding)
    requires q.fence == p.fence
    ensures IsCurrent(p, binding) ==> IsCurrent(q, binding)
  {
  }

  /**
   In every run, while a transport is current and its connection alive, the worker can write
   everything that was queued for it.
   */
  lemma LiveIsServed<P>(steps: seq<Step<P>>, socket: nat) returns (more: seq<Step<P>>)
    requires Runs(NewPeer<P>(), steps)
    requires var p := Run(NewPeer<P>(), steps);
      p.fence.current == Some(socket) && Binding(socket, p.fence.generation) !in p.dead
    ensures var p := Run(NewPeer<P>(), steps); var binding := Binding(socket, p.fence.generation);
      Runs(p, more) && At(Run(p, more).wire, binding) == At(p.sent, binding)
  {
    hide BindingInv;
    NewPeerInv<P>();
    RunKeepsInv(NewPeer<P>(), steps);
    var p := Run(NewPeer<P>(), steps);
    more := Serves(p, Binding(socket, p.fence.generation));
  }

  // ---------- An acknowledgement never overtakes its event ----------

  lemma {:induction false} RunGrows<P>(p: Peer<P>, steps: seq<Step<P>>, binding: Binding)
    requires Inv(p) && Runs(p, steps)
    ensures IsPrefix(At(p.sent, binding), At(Run(p, steps).sent, binding))
    ensures p.dead <= Run(p, steps).dead
    ensures binding in p.dead ==> At(Run(p, steps).wire, binding) == At(p.wire, binding)
    decreases |steps|
  {
    if steps != [] {
      StepKeepsInv(p, steps[0]);
      RunGrows(Apply(p, steps[0]), steps[1..], binding);
    }
  }

  /**
   A command's thread queues the event, invalidates the connection if that overflowed,
   and queues the acknowledgement; other steps come in between.  Whenever the
   acknowledgement has been written, the event was written before it on that binding.
   */
  lemma AckFollowsEvent<P>(p: Peer<P>, event: P, eventSize: nat, ack: P, ackSize: nat, binding: Binding,
                           between: seq<Step<P>>, later: seq<Step<P>>,
                           p1: Peer<P>, p2: Peer<P>, p3: Peer<P>, end: Peer<P>)
    requires Inv(p)
    requires Enabled(p, Send(binding, event, eventSize)) && p1 == Apply(p, Send(binding, event, eventSize))
    requires Runs(p1, between) && p2 == Run(p1, between)
    requires p.queue.Overflows(eventSize) ==> binding in p2.dead
    requires Enabled(p2, Send(binding, ack, ackSize)) && p3 == Apply(p2, Send(binding, ack, ackSize))
    requires Runs(p3, later) && end == Run(p3, later)
    ensures !p2.queue.Overflows(ackSize) && |At(end.wire, binding)| > |At(p2.sent, binding)|
        ==> && |At(p.sent, binding)| < |At(p2.sent, binding)|
            && At(end.wire, binding)[|At(p.sent, binding)|] == event
            && At(end.wire, binding)[|At(p2.sent, binding)|] == ack
  {
    hide QueueInv, BindingInv, Runs, Run;
    StepKeepsInv(p, Send(binding, event, eventSize));
    RunGrows(p1, between, binding);
    RunKeepsInv(p1, between);
    StepKeepsInv(p2, Send(binding, ack, ackSize));
    RunGrows(p3, later, binding);
    RunKeepsInv(p3, later);
    WireIsPrefix(p2, binding);
    WireIsPrefix(end, binding);
    if !p2.queue.Overflows(ackSize) && !p.queue.Overflows(eventSize) {
      InOrder(At(p.sent, binding), event, At(p2.sent, binding), ack, At(end.sent, binding), At(end.wire, binding));
    }
  }

  lemma WireIsPrefix<P>(p: Peer<P>, binding: Binding)
    requires Inv(p)
    ensures IsPrefix(At(p.wire, binding), At(p.sent, binding))
  {
    assert BindingInv(p, binding);
  }

  /** Whatever was written up to the acknowledgement has the event in its place. */
  lemma InOrder<P>(before: seq<P>, event: P, between: seq<P>, ack: P, sent: seq<P>, wire: seq<P>)
    requires IsPrefix(before + [event], between) && IsPrefix(between + [ack], sent) && IsPrefix(wire, sent)
    ensures |before| < |between|
    ensures |wire| > |between| ==> wire[|before|] == event && wire[|between|] == ack
  {
    assert between[|before|] == (before + [event])[|before|];
    assert sent[|between|] == (between + [ack])[|between|] && sent[|before|] == (between + [ack])[|before|];
  }
}
