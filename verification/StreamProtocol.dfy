// AsioServerStreamCtx as a value, and what each callback case and each locked
// frontend call does to it.

module StreamProtocol {
  import opened Errors
  import opened OneShot
  import opened Buffers
  import LockedShutdown

  datatype Phase = Ok | PeerShutdown | PeerAbort | Complete

  /** What the receive channel carries: receive_t of the source. */
  datatype Received = Received(code: Code, buffers: seq<seq<Byte>>)

  datatype Context = Context(
    phase: Phase,
    start: Slot<Code>,
    send: Slot<Code>,
    receiveFrontend: bool,
    receiveBackend: bool,
    receive: Channel<Received>,
    shutdown: Slot<Code>)

  const INIT := Context(Ok, Slot(false, Unset), Slot(false, Unset), false, false, Unset, Slot(false, Unset))

  datatype Event =
    | StartComplete(status: int)
    | SendComplete
    | Receive(buffers: seq<seq<Byte>>)
    | PeerSendShutdown
    | PeerSendAborted
    | ShutdownComplete
    | Ignored

  /** The code of an empty receive in each phase after the peer's last byte. */
  function EndCode(phase: Phase): Code {
    match phase
    case Ok => Success
    case PeerShutdown => Success
    case PeerAbort => ConnectionAborted
    case Complete => BrokenPipe
  }

  /** A waiting frontend is told that no more data comes. */
  function EndReceive(c: Context, code: Code): Context {
    if c.receiveFrontend
    then c.(receiveFrontend := false, receive := c.receive.Send(Received(code, [])))
    else c
  }

  /** AsioServerStreamCallback. */
  function OnEvent(c: Context, event: Event): Context {
    match event
    case StartComplete(status) => c.(start := c.start.Complete(FromStatus(status)))
    case SendComplete => c.(send := c.send.Complete(Success))
    case Receive(buffers) =>
      if c.receiveFrontend
      then c.(receiveFrontend := false, receive := c.receive.Send(Received(Success, buffers)))
      else c.(receiveBackend := true, receive := c.receive.Create().Send(Received(Success, buffers)))
    case PeerSendShutdown => EndReceive(c.(phase := PeerShutdown), Success)
    case PeerSendAborted => EndReceive(c.(phase := PeerAbort), ConnectionAborted)
    case ShutdownComplete =>
      var ended := EndReceive(c.(phase := Complete), BrokenPipe);
      ended.(shutdown := ended.shutdown.Drain(Success))
    case Ignored => c
  }

  /** The asserts the callback makes, on the context before the event. */
  predicate Asserts(c: Context, event: Event) {
    match event
    case StartComplete(_) => c.start.pending
    case SendComplete => c.send.pending
    case Receive(_) => !c.receiveBackend
    case PeerSendAborted => !OnEvent(c, event).send.pending
    case ShutdownComplete =>
      var after := OnEvent(c, event);
      !after.send.pending && !after.receiveFrontend && !after.receiveBackend
    case _ => true
  }

  /** The locked part of async_receive. */
  function AsyncReceive(c: Context): Context {
    if c.receiveBackend then c.(receiveBackend := false)
    else
      var made := c.(receive := c.receive.Create());
      if c.phase != Ok
      then made.(receive := made.receive.Send(Received(EndCode(c.phase), [])))
      else made.(receiveFrontend := true)
  }

  /** The locked part of async_shutdown; `failure` is what StreamShutdown returns. */
  function AsyncShutdown(c: Context, failure: Option<int>): Context {
    c.(shutdown := LockedShutdown.WholeCall(c.shutdown, c.phase == Complete, failure))
  }
}

// An abstract ordered byte pipe.
module BytePipe {
  import opened Buffers

  datatype Pipe = Pipe(wire: seq<Byte>, taken: nat, app: seq<Byte>)

  ghost predicate Wrote(p: Pipe, q: Pipe) {
    p.wire <= q.wire && q == p.(wire := q.wire)
  }

  /** The reader takes the next `n` bytes, in order. */
  ghost predicate Read(p: Pipe, q: Pipe, n: nat) {
    && p.taken + n <= |p.wire|
    && q == p.(taken := p.taken + n, app := p.app + p.wire[p.taken..p.taken + n])
  }

  ghost predicate Next(p: Pipe, q: Pipe) {
    q == p || Wrote(p, q) || exists n: nat :: Read(p, q, n)
  }

  ghost predicate Ordered(p: Pipe) {
    p.taken <= |p.wire| && p.app == p.wire[..p.taken]
  }

  lemma NextKeepsOrdered(p: Pipe, q: Pipe)
    requires Ordered(p) && Next(p, q)
    ensures Ordered(q)
  {
    if n: nat :| Read(p, q, n) {
      assert p.wire[..p.taken] + p.wire[p.taken..p.taken + n] == p.wire[..p.taken + n];
    }
  }
}

// One stream: the context, its frontend operations and MsQuic, step by step.
module StreamSystem {
  import opened Errors
  import opened OneShot
  import opened Buffers
  import opened StreamProtocol
  import BytePipe
  import LockedShutdown
  import ReceiveCopy
  import UnlockedCall

  /** `begun` counts async_receive calls, `finished` their handlers. */
  datatype Receiver = Receiver(outstanding: bool, begun: nat, finished: nat)

  datatype System = System(
    ctx: Context,
    startCall: UnlockedCall.Call,
    sendCall: UnlockedCall.Call,
    shutdownCall: LockedShutdown.Call,
    receiver: Receiver,
    wire: seq<Byte>,                   // bytes the peer has written so far
    acked: nat,                        // total passed to StreamReceiveComplete
    offer: Option<seq<seq<Byte>>>,     // RECEIVE not yet completed
    app: seq<Byte>,                    // bytes seen by receive handlers, concatenated
    drained: bool)                     // a handler has been told of the end

  datatype Step =
    | Start(act: UnlockedCall.Act)     // every act but Callback
    | Send(act: UnlockedCall.Act)
    | Shutdown(shutdownAct: LockedShutdown.Act)
    | PeerWrites(bytes: seq<Byte>)
    | Callback(event: Event)
    | BeginReceive
    | HandleReceive(dest: seq<Byte>)   // the handler runs; old contents of its buffer

  const START := System(
    StreamProtocol.INIT, UnlockedCall.INIT.call, UnlockedCall.INIT.call, LockedShutdown.INIT.call,
    Receiver(false, 0, 0), [], 0, None, [], false)

  function StartOp(s: System): UnlockedCall.Op { UnlockedCall.Op(s.ctx.start, s.startCall) }

  function SendOp(s: System): UnlockedCall.Op { UnlockedCall.Op(s.ctx.send, s.sendCall) }

  function ShutdownOp(s: System): LockedShutdown.Op {
    LockedShutdown.Op(s.ctx.shutdown, s.shutdownCall, s.ctx.phase == Complete)
  }

  predicate LockFree(s: System) { !LockedShutdown.Holds(s.shutdownCall.pc) }

  /** What MsQuic keeps to when it raises events. */
  predicate EventAllowed(s: System, event: Event) {
    && LockFree(s)
    && s.ctx.phase != Complete          // SHUTDOWN_COMPLETE is the last event
    && match event
       case StartComplete(_) => s.startCall.inFlight
       case SendComplete => s.sendCall.inFlight
       case Receive(buffers) =>         // one at a time, none after the peer's end
         && s.ctx.phase == Ok && s.offer.None?
         && s.acked <= |s.wire| && Flatten(buffers) <= s.wire[s.acked..]
       case _ => true
  }

  predicate Enabled(s: System, step: Step) {
    match step
    case Start(act) => !act.Callback? && UnlockedCall.Enabled(StartOp(s), act)
    case Send(act) => !act.Callback? && UnlockedCall.Enabled(SendOp(s), act)
    case Shutdown(act) => !act.ShutdownComplete? && LockedShutdown.Enabled(ShutdownOp(s), act)
    case PeerWrites(_) => s.ctx.phase == Ok
    case Callback(event) => EventAllowed(s, event)
    case BeginReceive => LockFree(s) && !s.receiver.outstanding
    case HandleReceive(_) => s.receiver.outstanding && s.ctx.receive.Sent?
  }

  function Apply(s: System, step: Step): System
    requires Enabled(s, step)
  {
    match step
    case Start(act) =>
      var op := UnlockedCall.Apply(StartOp(s), act);
      s.(ctx := s.ctx.(start := op.slot), startCall := op.call)
    case Send(act) =>
      var op := UnlockedCall.Apply(SendOp(s), act);
      s.(ctx := s.ctx.(send := op.slot), sendCall := op.call)
    case Shutdown(act) =>
      var op := LockedShutdown.Apply(ShutdownOp(s), act);
      s.(ctx := s.ctx.(shutdown := op.slot), shutdownCall := op.call)
    case PeerWrites(bytes) => s.(wire := s.wire + bytes)
    case Callback(event) => ApplyEvent(s, event)
    case BeginReceive =>
      s.(ctx := AsyncReceive(s.ctx), receiver := s.receiver.(outstanding := true, begun := s.receiver.begun + 1))
    case HandleReceive(dest) => ApplyHandler(s, dest)
  }

  function ApplyEvent(s: System, event: Event): System {
    var s' := s.(ctx := OnEvent(s.ctx, event));
    match event
    case StartComplete(status) => s'.(startCall := s.startCall.(inFlight := false, verdict := FromStatus(status)))
    case SendComplete => s'.(sendCall := s.sendCall.(inFlight := false, verdict := Success))
    case Receive(buffers) => s'.(offer := Some(buffers))
    case _ => s'
  }

  function ApplyHandler(s: System, dest: seq<Byte>): System
    requires s.ctx.receive.Sent?
  {
    var buffers := s.ctx.receive.value.buffers;
    var copied := ReceiveCopy.Copied(|dest|, buffers);
    CopiedInDest(dest, buffers);
    s.(ctx := s.ctx.(receive := s.ctx.receive.Take()),
       receiver := s.receiver.(outstanding := false, finished := s.receiver.finished + 1),
       acked := s.acked + copied,
       offer := None,
       app := s.app + ReceiveCopy.Overlay(dest, |dest|, buffers)[..copied],
       drained := s.drained || s.offer.None?)
  }

  lemma CopiedInDest(dest: seq<Byte>, buffers: seq<seq<Byte>>)
    ensures ReceiveCopy.Copied(|dest|, buffers) <= |dest|
  {
    ReceiveCopy.CopiedIsMin(|dest|, buffers);
  }

  // ----- the invariant

  predicate IsEndCode(code: Code) { code == Success || code == ConnectionAborted || code == BrokenPipe }

  /** The rendezvous between async_receive and RECEIVE. */
  ghost predicate RendezvousInv(s: System) {
    var c := s.ctx;
    && !(c.receiveFrontend && c.receiveBackend)
    && s.receiver.begun == s.receiver.finished + (if s.receiver.outstanding then 1 else 0)
    && (c.receiveFrontend ==>
         s.receiver.outstanding && c.phase == Ok && c.receive.Armed? && s.offer.None?)
    && (c.receiveBackend ==>
         !s.receiver.outstanding && s.offer.Some? && c.receive == Sent(Received(Success, s.offer.value)))
    && (s.receiver.outstanding && !c.receiveFrontend ==>
         && c.receive.Sent?
         && (s.offer.Some? ==> c.receive.value == Received(Success, s.offer.value))
         && (s.offer.None? ==> c.phase != Ok && c.receive.value.buffers == [] && IsEndCode(c.receive.value.code)))
    && (!s.receiver.outstanding && !c.receiveBackend ==> c.receive.Quiet() && s.offer.None?)
    && (s.drained ==> c.phase != Ok && s.offer.None?)
  }

  /** Acknowledged bytes are bytes the peer wrote, and the open offer follows them. */
  ghost predicate AckInv(s: System) {
    && |s.app| == s.acked <= |s.wire|
    && (s.offer.Some? ==> Flatten(s.offer.value) <= s.wire[s.acked..])
  }

  ghost predicate Inv(s: System) {
    && UnlockedCall.Inv(StartOp(s))
    && UnlockedCall.Inv(SendOp(s))
    && LockedShutdown.Inv(ShutdownOp(s))
    && RendezvousInv(s)
    && AckInv(s)
  }

  lemma EventKeepsInv(s: System, event: Event)
    requires Inv(s) && EventAllowed(s, event)
    ensures Inv(ApplyEvent(s, event))
  {
    match event
    case StartComplete(status) =>
      UnlockedCall.StepKeepsInv(StartOp(s), UnlockedCall.Callback(FromStatus(status)));
    case SendComplete =>
      UnlockedCall.StepKeepsInv(SendOp(s), UnlockedCall.Callback(Success));
    case ShutdownComplete =>
      LockedShutdown.StepKeepsInv(ShutdownOp(s), LockedShutdown.ShutdownComplete);
    case _ =>
  }

  lemma HandlerKeepsInv(s: System, dest: seq<Byte>)
    requires Inv(s) && Enabled(s, HandleReceive(dest))
    ensures Inv(ApplyHandler(s, dest))
  {
    var buffers := s.ctx.receive.value.buffers;
    ReceiveCopy.CopiedIsMin(|dest|, buffers);
  }

  lemma StepKeepsInv(s: System, step: Step)
    requires Inv(s) && Enabled(s, step)
    ensures Inv(Apply(s, step))
  {
    match step
    case Start(act) => UnlockedCall.StepKeepsInv(StartOp(s), act);
    case Send(act) => UnlockedCall.StepKeepsInv(SendOp(s), act);
    case Shutdown(act) => LockedShutdown.StepKeepsInv(ShutdownOp(s), act);
    case PeerWrites(bytes) =>
      assert s.wire[s.acked..] <= (s.wire + bytes)[s.acked..];
    case Callback(event) => EventKeepsInv(s, event);
    case BeginReceive =>
    case HandleReceive(dest) => HandlerKeepsInv(s, dest);
  }

  // ----- runs

  predicate Run(s: System, steps: seq<Step>)
    decreases steps
  {
    steps == [] || (Enabled(s, steps[0]) && Run(Apply(s, steps[0]), steps[1..]))
  }

  function After(s: System, steps: seq<Step>): System
    requires Run(s, steps)
    decreases steps
  {
    if steps == [] then s else After(Apply(s, steps[0]), steps[1..])
  }

  lemma {:induction false} RunKeepsInv(s: System, steps: seq<Step>)
    requires Inv(s) && Run(s, steps)
    ensures Inv(After(s, steps))
    decreases steps
  {
    if steps != [] {
      StepKeepsInv(s, steps[0]);
      RunKeepsInv(Apply(s, steps[0]), steps[1..]);
    }
  }

  /** Exactly-once completion over whole stream runs. */
  lemma {:induction false} ExactlyOnce(steps: seq<Step>)
    requires Run(START, steps)
    ensures var s := After(START, steps);
      // no channel is sent on twice, read unsent, or replaced while live
      && !s.ctx.start.channel.Broken? && !s.ctx.send.channel.Broken?
      && !s.ctx.receive.Broken? && !s.ctx.shutdown.channel.Broken?
      // an armed flag means the current channel still waits
      && (s.ctx.start.pending ==> s.ctx.start.channel.Armed?)
      && (s.ctx.send.pending ==> s.ctx.send.channel.Armed?)
      && (s.ctx.receiveFrontend ==> s.ctx.receive.Armed?)
      && (s.ctx.shutdown.pending ==> s.ctx.shutdown.channel.Armed?)
      // every operation is finished or still outstanding
      && s.startCall.begun == s.startCall.finished + (if s.startCall.pc.Idle? then 0 else 1)
      && s.sendCall.begun == s.sendCall.finished + (if s.sendCall.pc.Idle? then 0 else 1)
      && s.shutdownCall.begun == s.shutdownCall.finished + (if s.shutdownCall.pc.Idle? then 0 else 1)
      && s.receiver.begun == s.receiver.finished + (if s.receiver.outstanding then 1 else 0)
  {
    RunKeepsInv(START, steps);
  }

  /**
   * After SHUTDOWN_COMPLETE no receive and no shutdown is left waiting for a send
   * that never comes; a start or a send is left waiting only if MsQuic dropped it.
   */
  lemma {:induction false} CompleteDrains(steps: seq<Step>)
    requires Run(START, steps) && After(START, steps).ctx.phase == Complete
    ensures var s := After(START, steps);
      && (s.receiver.outstanding ==> s.ctx.receive.Sent?)
      && (s.shutdownCall.pc.Waiting? ==> s.ctx.shutdown.channel.Sent?)
      && (s.startCall.pc.Waiting? ==> (s.ctx.start.channel.Sent? <==> !s.startCall.inFlight))
      && (s.sendCall.pc.Waiting? ==> (s.ctx.send.channel.Sent? <==> !s.sendCall.inFlight))
  {
    RunKeepsInv(START, steps);
  }

  /** Steps by which the application begins another operation. */
  predicate Begins(step: Step) {
    || step.BeginReceive? || step == Start(UnlockedCall.Make) || step == Send(UnlockedCall.Make)
    || step == Shutdown(LockedShutdown.Lock)
  }

  /** Steps that the outstanding operations can still take. */
  function Remaining(s: System): nat {
    UnlockedCall.Left(s.startCall.pc) + UnlockedCall.Left(s.sendCall.pc) + LockedShutdown.Left(s.shutdownCall.pc)
    + (if s.receiver.outstanding then 1 else 0)
  }

  /** Something is outstanding that MsQuic does not hold. */
  predicate Unheld(s: System) {
    || s.receiver.outstanding || !s.shutdownCall.pc.Idle?
    || (!s.startCall.pc.Idle? && !UnlockedCall.Held(s.startCall))
    || (!s.sendCall.pc.Idle? && !UnlockedCall.Held(s.sendCall))
  }

  /** A step that brings an outstanding operation on. */
  function Finishing(s: System): Step {
    if s.receiver.outstanding then HandleReceive([])
    else if !s.shutdownCall.pc.Idle? then Shutdown(LockedShutdown.NextAct(ShutdownOp(s)))
    else if !s.startCall.pc.Idle? && !UnlockedCall.Held(s.startCall) then Start(UnlockedCall.NextAct(StartOp(s)))
    else Send(UnlockedCall.NextAct(SendOp(s)))
  }

  /**
   * After SHUTDOWN_COMPLETE every step other than a new beginning brings the outstanding
   * operations nearer to their handlers; one is possible as long as any is outstanding that
   * MsQuic does not hold; and with none outstanding all that began has finished.
   */
  lemma CompleteFinishes(s: System, step: Step)
    requires Inv(s) && s.ctx.phase == Complete
    ensures Enabled(s, step) && !Begins(step) ==>
      Remaining(Apply(s, step)) < Remaining(s) && Apply(s, step).ctx.phase == Complete
    ensures Unheld(s) ==> Enabled(s, Finishing(s)) && !Begins(Finishing(s))
    ensures Remaining(s) == 0 <==>
      && s.receiver.begun == s.receiver.finished && s.shutdownCall.begun == s.shutdownCall.finished
      && s.startCall.begun == s.startCall.finished && s.sendCall.begun == s.sendCall.finished
  {
    if Unheld(s) {
      FinishingGoesOn(s);
    }
    if Enabled(s, step) && !Begins(step) {
      StepCountsDown(s, step);
    }
  }

  lemma FinishingGoesOn(s: System)
    requires Inv(s) && s.ctx.phase == Complete && Unheld(s)
    ensures Enabled(s, Finishing(s)) && !Begins(Finishing(s))
  {}

  lemma StepCountsDown(s: System, step: Step)
    requires s.ctx.phase == Complete && Enabled(s, step) && !Begins(step)
    ensures Remaining(Apply(s, step)) < Remaining(s) && Apply(s, step).ctx.phase == Complete
  {}

  /** So no run goes on for long without a new beginning. */
  lemma {:induction false} RestIsNear(s: System, steps: seq<Step>)
    requires Inv(s) && s.ctx.phase == Complete && Run(s, steps)
    requires forall i :: 0 <= i < |steps| ==> !Begins(steps[i])
    ensures |steps| + Remaining(After(s, steps)) <= Remaining(s)
    decreases steps
  {
    if steps != [] {
      CompleteFinishes(s, steps[0]);
      StepKeepsInv(s, steps[0]);
      RestIsNear(Apply(s, steps[0]), steps[1..]);
    }
  }

  /** And from every state after SHUTDOWN_COMPLETE, all operations can run to their handlers. */
  lemma {:induction false} AllCanFinish(s: System) returns (steps: seq<Step>)
    requires Inv(s) && s.ctx.phase == Complete && !s.startCall.inFlight && !s.sendCall.inFlight
    ensures Run(s, steps) && forall i :: 0 <= i < |steps| ==> !Begins(steps[i])
    ensures var s' := After(s, steps);
      && s'.receiver.begun == s'.receiver.finished && s'.shutdownCall.begun == s'.shutdownCall.finished
      && s'.startCall.begun == s'.startCall.finished && s'.sendCall.begun == s'.sendCall.finished
    decreases Remaining(s)
  {
    CompleteFinishes(s, Finishing(s));
    steps := [];
    if Remaining(s) > 0 {
      StepKeepsInv(s, Finishing(s));
      var rest := AllCanFinish(Apply(s, Finishing(s)));
      RunCons(s, Finishing(s), rest);
      steps := [Finishing(s)] + rest;
    }
  }

  // ----- where each answer comes from

  /** The operations whose channel carries a code alone. */
  datatype Operation = Starting | Sending | ShuttingDown

  function ChannelOf(s: System, o: Operation): Channel<Code> {
    match o
    case Starting => s.ctx.start.channel
    case Sending => s.ctx.send.channel
    case ShuttingDown => s.ctx.shutdown.channel
  }

  predicate Opens(o: Operation, step: Step) {
    match o
    case Starting => step == Start(UnlockedCall.Make)
    case Sending => step == Send(UnlockedCall.Make)
    case ShuttingDown => step == Shutdown(LockedShutdown.Make)
  }

  predicate Reads(o: Operation, step: Step) {
    match o
    case Starting => step == Start(UnlockedCall.Handle)
    case Sending => step == Send(UnlockedCall.Handle)
    case ShuttingDown => step == Shutdown(LockedShutdown.Handle)
  }

  /** The answer that a step brings, told by what MsQuic has reported or returned. */
  function Answer(s: System, o: Operation, step: Step): Option<Code> {
    match (o, step)
    case (Starting, Callback(StartComplete(status))) => Some(if status == 0 then Success else Native(status))
    case (Starting, Start(Fail)) =>
      if s.startCall.pc.Lowered? then Some(Native(s.startCall.pc.status)) else None
    case (Sending, Callback(SendComplete)) => Some(Success)
    case (Sending, Send(Fail)) =>
      if s.sendCall.pc.Lowered? then Some(Native(s.sendCall.pc.status)) else None
    case (ShuttingDown, Callback(ShutdownComplete)) =>
      if s.shutdownCall.pc.Waiting? && !s.ctx.shutdown.channel.Sent? then Some(Success) else None
    case (ShuttingDown, Shutdown(Settle)) =>
      if s.ctx.phase == Complete && s.shutdownCall.pc.Made? then Some(Success)
      else if s.shutdownCall.pc.Called? && s.shutdownCall.pc.failure.Some?
      then Some(Native(s.shutdownCall.pc.failure.value))
      else None
    case _ => None
  }

  lemma EventAnswers(s: System, o: Operation, event: Event)
    requires Inv(s) && EventAllowed(s, event)
    ensures var answer := Answer(s, o, Callback(event));
      && ChannelOf(ApplyEvent(s, event), o) == (if answer.Some? then Sent(answer.value) else ChannelOf(s, o))
      && (answer.Some? ==> ChannelOf(s, o) == Armed)
  {}

  /** A channel gets exactly that answer; otherwise only its own call and handler touch it. */
  lemma StepAnswers(s: System, o: Operation, step: Step)
    requires Inv(s) && Enabled(s, step)
    ensures ChannelOf(Apply(s, step), o) ==
      if Answer(s, o, step).Some? then Sent(Answer(s, o, step).value)
      else if Opens(o, step) then Armed
      else if Reads(o, step) then Taken
      else ChannelOf(s, o)
    ensures Answer(s, o, step).Some? ==> ChannelOf(s, o) == Armed
    ensures Opens(o, step) ==> ChannelOf(s, o).Quiet()
  {
    if step.Callback? {
      EventAnswers(s, o, step.event);
    }
  }

  lemma {:induction false} RunSnoc(s: System, steps: seq<Step>)
    requires Run(s, steps) && steps != []
    ensures var before := steps[..|steps| - 1];
      && Run(s, before) && Enabled(After(s, before), steps[|steps| - 1])
      && After(s, steps) == Apply(After(s, before), steps[|steps| - 1])
    decreases steps
  {
    if |steps| > 1 {
      RunSnoc(Apply(s, steps[0]), steps[1..]);
      assert steps[..|steps| - 1][1..] == steps[1..][..|steps| - 2];
    }
  }

  /** A step that leaves a value in a channel has answered, or left the channel as it was. */
  lemma StepAnswersOrLeaves(s: System, o: Operation, step: Step)
    requires Inv(s) && Enabled(s, step) && ChannelOf(Apply(s, step), o).Sent?
    ensures !Opens(o, step)
    ensures if Answer(s, o, step).Some? then Answer(s, o, step).value == ChannelOf(Apply(s, step), o).value
            else ChannelOf(s, o) == ChannelOf(Apply(s, step), o)
  {
    StepAnswers(s, o, step);
    assert Answer(s, o, step).Some? ==> !Opens(o, step);
  }

  /**
   * Whatever a handler of start, send or shutdown is about to read was put there by one step
   * of the run, the answer of that step, and no new call of the operation came after it.
   */
  lemma {:induction false} AnswerHasItsCause(s: System, o: Operation, steps: seq<Step>) returns (i: nat)
    requires Inv(s) && !ChannelOf(s, o).Sent? && Run(s, steps) && ChannelOf(After(s, steps), o).Sent?
    ensures i < |steps| && Run(s, steps[..i])
    ensures Answer(After(s, steps[..i]), o, steps[i]) == Some(ChannelOf(After(s, steps), o).value)
    ensures forall j :: i < j < |steps| ==> !Opens(o, steps[j])
    decreases |steps|
  {
    var last := |steps| - 1;
    RunSnoc(s, steps);
    RunKeepsInv(s, steps[..last]);
    StepAnswersOrLeaves(After(s, steps[..last]), o, steps[last]);
    i := last;
    if Answer(After(s, steps[..last]), o, steps[last]).None? {
      i := AnswerHasItsCause(s, o, steps[..last]);
      assert steps[..last][..i] == steps[..i];
      forall j | i < j < |steps| ensures !Opens(o, steps[j]) {
        assert j < last ==> steps[..last][j] == steps[j];
      }
    }
  }

  /** So a shutdown that gets success has met SHUTDOWN_COMPLETE, and one accepted before waits. */
  lemma {:induction false} ShutdownWaitsForComplete(steps: seq<Step>)
    requires Run(START, steps)
    ensures var s := After(START, steps);
      && (s.ctx.shutdown.channel == Sent(Success) ==> s.ctx.phase == Complete)
      && (s.shutdownCall.pc.Idle? && s.ctx.phase != Complete ==>
           AsyncShutdown(s.ctx, None) == s.ctx.(shutdown := Slot(true, Armed)))
      && (s.shutdownCall.pc.Idle? && s.ctx.phase == Complete ==>
           AsyncShutdown(s.ctx, None) == s.ctx.(shutdown := Slot(false, Sent(Success))))
  {
    RunKeepsInv(START, steps);
  }

  /** An async_receive is out and has no value. */
  predicate ReceiveWaits(s: System) { s.receiver.outstanding && !s.ctx.receive.Sent? }

  /** The value that a step brings to the receive channel. */
  function ReceiveAnswer(s: System, step: Step): Option<Received> {
    match step
    case Callback(Receive(buffers)) => Some(Received(Success, buffers))
    case Callback(PeerSendShutdown) => if ReceiveWaits(s) then Some(Received(Success, [])) else None
    case Callback(PeerSendAborted) => if ReceiveWaits(s) then Some(Received(ConnectionAborted, [])) else None
    case Callback(ShutdownComplete) => if ReceiveWaits(s) then Some(Received(BrokenPipe, [])) else None
    case BeginReceive =>
      if s.offer.Some? || s.ctx.phase == Ok then None
      else Some(Received(if s.ctx.phase == PeerShutdown then Success
                         else if s.ctx.phase == PeerAbort then ConnectionAborted
                         else BrokenPipe, []))
    case _ => None
  }

  /** The receive channel gets exactly that; an async_receive with data queued finds its value there. */
  lemma StepAnswersReceive(s: System, step: Step)
    requires Inv(s) && Enabled(s, step)
    ensures Apply(s, step).ctx.receive ==
      if ReceiveAnswer(s, step).Some? then Sent(ReceiveAnswer(s, step).value)
      else if step.BeginReceive? && s.offer.None? then Armed
      else if step.HandleReceive? then Taken
      else s.ctx.receive
    ensures step.BeginReceive? && s.offer.Some? ==>
      s.ctx.receive == Sent(Received(Success, s.offer.value)) && Apply(s, step).receiver.outstanding
  {}

  /** The whole locked call is its steps. */
  lemma ContextFollowsSteps(s: System, failure: Option<int>)
    requires s.shutdownCall.pc.Idle? && (failure.Some? ==> failure.value != 0)
    ensures var acts := LockedShutdown.ActsOf(s.ctx.phase == Complete, failure);
      && LockedShutdown.Run(ShutdownOp(s), acts)
      && AsyncShutdown(s.ctx, failure) == s.ctx.(shutdown := LockedShutdown.After(ShutdownOp(s), acts).slot)
  {
    LockedShutdown.WholeCallIsItsSteps(ShutdownOp(s), failure);
  }

  // ----- the asserts

  /** The receive rendezvous, and the asserts that follow from it in every run. */
  lemma {:induction false} ReceiveRendezvous(steps: seq<Step>)
    requires Run(START, steps)
    ensures var s := After(START, steps);
      && !(s.ctx.receiveFrontend && s.ctx.receiveBackend)
      && (s.ctx.receiveFrontend ==> s.ctx.phase == Ok)
      && (s.ctx.receiveBackend ==> s.offer.Some? && s.ctx.receive == Sent(Received(Success, s.offer.value)))
      && (!s.receiver.outstanding ==> !s.ctx.receiveFrontend)
      // the asserts of async_start and async_send, made once the channel is stored
      && (s.startCall.pc.Idle? || s.startCall.pc.Made? ==> !s.ctx.start.pending)
      && (s.sendCall.pc.Idle? || s.sendCall.pc.Made? ==> !s.ctx.send.pending)
  {
    RunKeepsInv(START, steps);
  }

  /**
   * The callback's asserts hold for every event in every run, with two exceptions that
   * constrain the application: PEER_SEND_ABORTED and SHUTDOWN_COMPLETE must not meet an
   * unfinished send, nor SHUTDOWN_COMPLETE a RECEIVE that no async_receive has claimed.
   */
  lemma {:induction false} CallbackAsserts(steps: seq<Step>, event: Event)
    requires Run(START, steps) && EventAllowed(After(START, steps), event)
    ensures var s := After(START, steps);
      Asserts(s.ctx, event) <==>
        match event
        case PeerSendAborted => !UnlockedCall.Unfinished(s.sendCall)
        case ShutdownComplete =>
          !UnlockedCall.Unfinished(s.sendCall) && (s.offer.Some? ==> s.receiver.outstanding)
        case _ => true
  {
    RunKeepsInv(START, steps);
  }

  /** A peer abort and SHUTDOWN_COMPLETE can meet a send in flight, and then break the assert. */
  lemma EventDuringSend(event: Event)
    requires event.PeerSendAborted? || event.ShutdownComplete?
    ensures var steps := [Send(UnlockedCall.Make), Send(UnlockedCall.Raise), Send(UnlockedCall.Accept)];
      && Run(START, steps) && EventAllowed(After(START, steps), event)
      && !Asserts(After(START, steps).ctx, event)
  {
    var make, raise, accept := Send(UnlockedCall.Make), Send(UnlockedCall.Raise), Send(UnlockedCall.Accept);
    var s2 := Apply(Apply(START, make), raise);
    RunCons(s2, accept, []);
    RunCons(Apply(START, make), raise, [accept]);
    RunCons(START, make, [raise] + [accept]);
    assert [make, raise, accept] == [make] + ([raise] + [accept]);
  }

  /** SHUTDOWN_COMPLETE can meet data that no async_receive has claimed. */
  lemma CompleteBeforeReceive()
    ensures var steps := [PeerWrites([1]), Callback(Receive([[1]]))];
      && Run(START, steps) && EventAllowed(After(START, steps), ShutdownComplete)
      && !Asserts(After(START, steps).ctx, ShutdownComplete)
  {
    var s1 := Apply(START, PeerWrites([1]));
    assert Flatten([[1]]) == [1] + Flatten([]) == [1];
    assert s1.wire[s1.acked..] == [1];
    RunCons(s1, Callback(Receive([[1]])), []);
    RunCons(START, PeerWrites([1]), [Callback(Receive([[1]]))]);
  }

  // ----- the byte pipe

  function Abs(s: System): BytePipe.Pipe { BytePipe.Pipe(s.wire, s.acked, s.app) }

  /** The buffers a handler is given fit its destination (see ReceiveCopy.Fits). */
  predicate StepFits(s: System, step: Step) {
    step.HandleReceive? && s.ctx.receive.Sent? ==>
      ReceiveCopy.Fits(|step.dest|, Sizes(s.ctx.receive.value.buffers))
  }

  predicate RunFits(s: System, steps: seq<Step>)
    requires Run(s, steps)
    decreases steps
  {
    steps == [] || (StepFits(s, steps[0]) && RunFits(Apply(s, steps[0]), steps[1..]))
  }

  /** Every stream step whose copy fits is a step of the pipe, or none. */
  lemma StepRefinesPipe(s: System, step: Step)
    requires Inv(s) && Enabled(s, step) && StepFits(s, step)
    ensures BytePipe.Next(Abs(s), Abs(Apply(s, step)))
  {
    match step
    case PeerWrites(bytes) => assert BytePipe.Wrote(Abs(s), Abs(Apply(s, step)));
    case HandleReceive(dest) =>
      var buffers := s.ctx.receive.value.buffers;
      var n := ReceiveCopy.Copied(|dest|, buffers);
      ReceiveCopy.FittingDelivers(dest, |dest|, buffers);
      ReceiveCopy.CopiedIsMin(|dest|, buffers);
      assert Flatten(buffers) <= s.wire[s.acked..];
      assert Flatten(buffers)[..n] == s.wire[s.acked..s.acked + n];
      assert BytePipe.Read(Abs(s), Abs(Apply(s, step)), n);
    case _ =>
  }

  lemma {:induction false} RunRefinesPipe(s: System, steps: seq<Step>)
    requires Inv(s) && Run(s, steps) && RunFits(s, steps) && BytePipe.Ordered(Abs(s))
    ensures BytePipe.Ordered(Abs(After(s, steps)))
    decreases steps
  {
    if steps != [] {
      StepKeepsInv(s, steps[0]);
      StepRefinesPipe(s, steps[0]);
      BytePipe.NextKeepsOrdered(Abs(s), Abs(Apply(s, steps[0])));
      RunRefinesPipe(Apply(s, steps[0]), steps[1..]);
    }
  }

  /**
   * The application's bytes are the acknowledged prefix of the peer's bytes, in every
   * run whose receives fit; their number is the acknowledged total in every run.
   */
  lemma {:induction false} StreamIsAPipe(steps: seq<Step>)
    requires Run(START, steps)
    ensures var s := After(START, steps);
      && |s.app| == s.acked <= |s.wire|
      && (RunFits(START, steps) ==> s.app == s.wire[..s.acked])
  {
    RunKeepsInv(START, steps);
    if RunFits(START, steps) {
      RunRefinesPipe(START, steps);
    }
  }

  /** One RECEIVE of the given buffers into a destination of `room` zero bytes. */
  function OneReceive(room: nat, buffers: seq<seq<Byte>>): seq<Step> {
    [PeerWrites(Flatten(buffers)), Callback(Receive(buffers)), BeginReceive, HandleReceive(seq(room, j => 0))]
  }

  /** What that run leaves behind. */
  lemma OneReceiveOutcome(room: nat, buffers: seq<seq<Byte>>)
    ensures Run(START, OneReceive(room, buffers))
    ensures ReceiveCopy.Copied(room, buffers) <= room
    ensures var s := After(START, OneReceive(room, buffers));
      && s.wire == Flatten(buffers)
      && s.acked == ReceiveCopy.Copied(room, buffers)
      && s.app == ReceiveCopy.Overlay(seq(room, j => 0), room, buffers)[..s.acked]
  {
    var dest: seq<Byte> := seq(room, j => 0);
    ReceiveCopy.CopiedIsMin(room, buffers);
    var s1 := Apply(START, PeerWrites(Flatten(buffers)));
    assert s1.wire == s1.wire[s1.acked..] == Flatten(buffers);
    var s2 := Apply(s1, Callback(Receive(buffers)));
    var s3 := Apply(s2, BeginReceive);
    RunCons(s3, HandleReceive(dest), []);
    RunCons(s2, BeginReceive, [HandleReceive(dest)]);
    RunCons(s1, Callback(Receive(buffers)), [BeginReceive] + [HandleReceive(dest)]);
    RunCons(START, PeerWrites(Flatten(buffers)),
            [Callback(Receive(buffers))] + ([BeginReceive] + [HandleReceive(dest)]));
    assert OneReceive(room, buffers)
        == [PeerWrites(Flatten(buffers))] + ([Callback(Receive(buffers))] + ([BeginReceive] + [HandleReceive(dest)]));
    assert Apply(s3, HandleReceive(dest)).app
        == ReceiveCopy.Overlay(dest, room, buffers)[..ReceiveCopy.Copied(room, buffers)];
  }

  /** The condition is needed: sizes that do not fit have a run that loses the order. */
  lemma MisfitRunScrambles(room: nat, sizes: seq<nat>)
    requires !ReceiveCopy.Fits(room, sizes)
    ensures var steps := OneReceive(room, ReceiveCopy.Clashing(sizes));
      && Run(START, steps)
      && var s := After(START, steps);
         s.acked <= |s.wire| && s.app != s.wire[..s.acked]
  {
    var buffers := ReceiveCopy.Clashing(sizes);
    var dest: seq<Byte> := seq(room, j => 0);
    OneReceiveOutcome(room, buffers);
    ReceiveCopy.ClashingIsLost(dest, room, sizes);
    ReceiveCopy.CopiedIsMin(room, buffers);
    var s := After(START, OneReceive(room, buffers));
    assert s.app[0] == 1 && s.wire[..s.acked][0] == 0;
  }

  lemma RunCons(s: System, step: Step, rest: seq<Step>)
    requires Enabled(s, step) && Run(Apply(s, step), rest)
    ensures Run(s, [step] + rest)
    ensures After(s, [step] + rest) == After(Apply(s, step), rest)
  {
    assert ([step] + rest)[1..] == rest;
  }

  // ----- the byte pipe with an advancing destination

  /** The steps of the stream, but with the copy that the handler's comment describes. */
  function IntendedApply(s: System, step: Step): System
    requires Enabled(s, step)
  {
    if step.HandleReceive? then
      var buffers := s.ctx.receive.value.buffers;
      CopiedInDest(step.dest, buffers);
      ApplyHandler(s, step.dest).(
        app := s.app + ReceiveCopy.Advancing(step.dest, |step.dest|, buffers)
                         [..ReceiveCopy.Copied(|step.dest|, buffers)])
    else Apply(s, step)
  }

  predicate IntendedRun(s: System, steps: seq<Step>)
    decreases steps
  {
    steps == [] || (Enabled(s, steps[0]) && IntendedRun(IntendedApply(s, steps[0]), steps[1..]))
  }

  function IntendedAfter(s: System, steps: seq<Step>): System
    requires IntendedRun(s, steps)
    decreases steps
  {
    if steps == [] then s else IntendedAfter(IntendedApply(s, steps[0]), steps[1..])
  }

  lemma IntendedStepRefinesPipe(s: System, step: Step)
    requires Inv(s) && Enabled(s, step)
    ensures Inv(IntendedApply(s, step))
    ensures BytePipe.Next(Abs(s), Abs(IntendedApply(s, step)))
  {
    StepKeepsInv(s, step);
    if step.HandleReceive? {
      var buffers := s.ctx.receive.value.buffers;
      var n := ReceiveCopy.Copied(|step.dest|, buffers);
      ReceiveCopy.AdvancingDelivers(step.dest, |step.dest|, buffers);
      assert Flatten(buffers) <= s.wire[s.acked..];
      assert Flatten(buffers)[..n] == s.wire[s.acked..s.acked + n];
      assert ReceiveCopy.Advancing(step.dest, |step.dest|, buffers)[..n] == Flatten(buffers)[..n];
      assert BytePipe.Read(Abs(s), Abs(IntendedApply(s, step)), n);
    } else {
      StepRefinesPipe(s, step);
    }
  }

  lemma {:induction false} IntendedRunRefinesPipe(s: System, steps: seq<Step>)
    requires Inv(s) && BytePipe.Ordered(Abs(s)) && IntendedRun(s, steps)
    ensures Inv(IntendedAfter(s, steps)) && BytePipe.Ordered(Abs(IntendedAfter(s, steps)))
    decreases steps
  {
    if steps != [] {
      IntendedStepRefinesPipe(s, steps[0]);
      BytePipe.NextKeepsOrdered(Abs(s), Abs(IntendedApply(s, steps[0])));
      IntendedRunRefinesPipe(IntendedApply(s, steps[0]), steps[1..]);
    }
  }

  /** With it the stream is an ordered pipe in every run, whatever the buffer sizes. */
  lemma {:induction false} IntendedStreamIsAPipe(steps: seq<Step>)
    requires IntendedRun(START, steps)
    ensures var s := IntendedAfter(START, steps);
      s.acked <= |s.wire| && s.app == s.wire[..s.acked]
  {
    IntendedRunRefinesPipe(START, steps);
  }

  /** Each acknowledgement takes bytes of the open offer; with none open it is 0. */
  lemma HandlerAcknowledges(s: System, dest: seq<Byte>)
    requires Inv(s) && Enabled(s, HandleReceive(dest))
    ensures var s' := Apply(s, HandleReceive(dest));
      && s'.acked == s.acked + (if s.offer.Some? then Min(|dest|, |Flatten(s.offer.value)|) else 0)
      && |s'.app| - |s.app| == s'.acked - s.acked
      && s'.offer.None? && (s.offer.None? ==> s'.drained)
  {
    ReceiveCopy.CopiedIsMin(|dest|, s.ctx.receive.value.buffers);
  }

  // ----- data comes before end

  /** A value that has been sent to an outstanding receive is what its handler gets. */
  lemma {:induction false} SentValueStays(s: System, steps: seq<Step>)
    requires Inv(s) && Run(s, steps) && s.receiver.outstanding && s.ctx.receive.Sent?
    requires forall i :: 0 <= i < |steps| ==> !steps[i].HandleReceive?
    ensures var s' := After(s, steps);
      s'.receiver.outstanding && s'.ctx.receive == s.ctx.receive && s'.offer == s.offer
    decreases steps
  {
    if steps != [] {
      StepKeepsInv(s, steps[0]);
      SentValueStays(Apply(s, steps[0]), steps[1..]);
    }
  }

  /**
   * Data queued by the backend survives every event, including the end of the stream,
   * and is what the next async_receive completes with.
   */
  lemma {:induction false} QueuedDataIsNext(s: System, steps: seq<Step>)
    requires Inv(s) && s.ctx.receiveBackend && Run(s, steps)
    requires forall i :: 0 <= i < |steps| ==> !steps[i].BeginReceive?
    ensures var s' := After(s, steps);
      && s'.ctx.receiveBackend && s'.offer == s.offer && !s'.receiver.outstanding
      && (LockFree(s') ==>
           var next := Apply(s', BeginReceive);
           next.receiver.outstanding && next.ctx.receive == Sent(Received(Success, s.offer.value)))
    decreases steps
  {
    if steps != [] {
      StepKeepsInv(s, steps[0]);
      QueuedDataIsNext(Apply(s, steps[0]), steps[1..]);
    }
  }

  /**
   * Once the peer has ended and nothing is queued, async_receive completes at once,
   * empty, with the code of the phase.
   */
  lemma EndedReceiveIsImmediate(s: System)
    requires Inv(s) && s.ctx.phase != Ok && !s.ctx.receiveBackend && Enabled(s, BeginReceive)
    ensures var s' := Apply(s, BeginReceive);
      && s'.ctx.receive == Sent(Received(if s.ctx.phase == PeerShutdown then Success
                                         else if s.ctx.phase == PeerAbort then ConnectionAborted
                                         else BrokenPipe, []))
      && s'.offer.None?
      && forall dest :: Enabled(s', HandleReceive(dest)) && Apply(s', HandleReceive(dest)).acked == s.acked
  {
    var s' := Apply(s, BeginReceive);
    forall dest ensures Enabled(s', HandleReceive(dest)) && Apply(s', HandleReceive(dest)).acked == s.acked {
      assert ReceiveCopy.Copied(|dest|, []) == 0;
    }
  }

  /**
   * Each end event fixes the phase, and wakes a waiting receive with the code of that end; only
   * SHUTDOWN_COMPLETE answers a shutdown, and no event but its own touches start or send.
   */
  lemma EndEvents(s: System, event: Event)
    requires Inv(s) && EventAllowed(s, event)
    ensures var c := Apply(s, Callback(event)).ctx;
      match event
      case PeerSendShutdown =>
        c.phase == PeerShutdown && (s.ctx.receiveFrontend ==> c.receive == Sent(Received(Success, [])))
      case PeerSendAborted =>
        c.phase == PeerAbort && (s.ctx.receiveFrontend ==> c.receive == Sent(Received(ConnectionAborted, [])))
      case ShutdownComplete =>
        && c.phase == Complete && (s.ctx.receiveFrontend ==> c.receive == Sent(Received(BrokenPipe, [])))
        && (s.ctx.shutdown.pending ==> c.shutdown == Slot(false, Sent(Success)))
      case _ => c.phase == s.ctx.phase
    ensures var c := Apply(s, Callback(event)).ctx;
      && (!event.ShutdownComplete? ==> c.shutdown == s.ctx.shutdown)
      && (!event.StartComplete? ==> c.start == s.ctx.start)
      && (!event.SendComplete? ==> c.send == s.ctx.send)
      && (event.StartComplete? ==>
           c.start == Slot(false, Sent(if event.status == 0 then Success else Native(event.status))))
      && (event.SendComplete? ==> c.send == Slot(false, Sent(Success)))
      && (event.Receive? ==>
           && c.receive == Sent(Received(Success, event.buffers)) && !c.receiveFrontend
           && (c.receiveBackend <==> !s.ctx.receiveFrontend))
    ensures !s.ctx.receiveFrontend && !event.Receive? ==> Apply(s, Callback(event)).ctx.receive == s.ctx.receive
  {}

  /** The end is final: after it was reported, no run delivers or acknowledges another byte. */
  lemma {:induction false} NothingAfterEnd(s: System, steps: seq<Step>)
    requires Inv(s) && s.drained && Run(s, steps)
    ensures var s' := After(s, steps);
      && s'.drained && s'.app == s.app && s'.acked == s.acked
      && (s'.receiver.outstanding ==> s'.ctx.receive.Sent? && s'.ctx.receive.value.buffers == [])
    decreases steps
  {
    if steps != [] {
      var s1 := Apply(s, steps[0]);
      StepKeepsInv(s, steps[0]);
      if steps[0].HandleReceive? {
        HandlerAcknowledges(s, steps[0].dest);
        assert s1.app == s.app;
      }
      NothingAfterEnd(s1, steps[1..]);
    }
  }
}
