// AsioServerConnectionCtx as a value, and a connection in every interleaving of its
// frontend operations with its callbacks, which MsQuic raises one at a time.

module ConnectionProtocol {
  import opened Errors
  import opened Handles
  import opened OneShot
  import opened Rendezvous
  import LockedShutdown

  datatype Phase = Ok | PeerShutdown | TransportShutdown | Complete

  datatype Context = Context(
    phase: Phase,
    clientStart: bool,
    serverConnect: bool,
    conn: Channel<Code>,       // one channel for both
    accept: Slot<Accepted>,
    permits: Semaphore,
    shutdown: Slot<Code>)

  const START := Context(Ok, false, false, Unset, Slot(false, Unset), Permits(0), Slot(false, Unset))

  datatype Event = Connected | ShutdownByTransport | ShutdownByPeer | ShutdownComplete | Ignored

  function FinishClientStart(c: Context): Context {
    if c.clientStart then c.(clientStart := false, conn := c.conn.Send(Success)) else c
  }

  function FinishServerConnect(c: Context, code: Code): Context {
    if c.serverConnect then c.(serverConnect := false, conn := c.conn.Send(code)) else c
  }

  /** What the three shutdown events drain; a pending client start is not among it. */
  function DrainPending(c: Context): Context {
    var connected := FinishServerConnect(c, ConnectionAborted);
    connected.(accept := connected.accept.Drain(REFUSED))
  }

  /** AsioMsQuicConnectionCallback, except PEER_STREAM_STARTED. */
  function OnEvent(c: Context, event: Event): Context {
    match event
    case Connected => FinishServerConnect(FinishClientStart(c), Success)
    case ShutdownByTransport => DrainPending(c.(phase := TransportShutdown))
    case ShutdownByPeer => DrainPending(c.(phase := PeerShutdown))
    case ShutdownComplete =>
      var drained := DrainPending(c.(phase := Complete));
      drained.(shutdown := drained.shutdown.Drain(Success))
    case Ignored => c
  }

  /** The asserts the callback makes, on the context before the event. */
  predicate Asserts(c: Context, event: Event) {
    match event
    case Connected => (c.clientStart || c.serverConnect) && !(c.clientStart && c.serverConnect)
    case ShutdownByTransport => !c.clientStart
    case ShutdownByPeer => !c.clientStart
    case ShutdownComplete => !c.clientStart
    case Ignored => true
  }

  /** PEER_STREAM_STARTED from acquire on. */
  function StreamStarted(c: Context, stream: Handle): Context
    requires c.permits.Permits? && c.permits.count > 0
  {
    var (accept, permits) := DeliverCall(c.accept, c.permits, stream);
    c.(accept := accept, permits := permits)
  }

  function AsyncConnect(c: Context): Context {
    var made := c.(conn := c.conn.Create());
    if c.phase == Complete then made.(conn := made.conn.Send(ConnectionAborted))
    else made.(serverConnect := true)
  }

  function AsyncAccept(c: Context): Context {
    var (accept, permits) := AcceptCall(c.accept, c.permits, c.phase == Complete);
    c.(accept := accept, permits := permits)
  }

  function AsyncShutdown(c: Context): Context {
    c.(shutdown := LockedShutdown.WholeCall(c.shutdown, c.phase == Complete, None))
  }
}

module ConnectionSystem {
  import opened Errors
  import opened Handles
  import opened OneShot
  import opened Rendezvous
  import opened ConnectionProtocol
  import LockedShutdown
  import UnlockedCall

  datatype Connector = Connector(outstanding: bool, begun: nat, finished: nat)

  datatype System = System(
    client: bool,                    // a client starts, a server connects; never both
    phase: Phase,
    clientStart: bool,
    serverConnect: bool,
    conn: Channel<Code>,
    startCall: UnlockedCall.Call,
    connector: Connector,
    acc: State,
    shutdown: Slot<Code>,
    shutdownCall: LockedShutdown.Call)

  datatype Step =
    | ClientStart(startAct: UnlockedCall.Act)
    | BeginConnect
    | HandleConnect
    | Accept(act: Act)               // async_accept, its handler and PEER_STREAM_STARTED
    | Shutdown(shutdownAct: LockedShutdown.Act)
    | Callback(event: Event)

  function New(client: bool): System {
    System(client, Ok, false, false, Unset, UnlockedCall.INIT.call, Connector(false, 0, 0),
           Rendezvous.Init(true), Slot(false, Unset), LockedShutdown.INIT.call)
  }

  function Ctx(s: System): Context {
    Context(s.phase, s.clientStart, s.serverConnect, s.conn, s.acc.slot, s.acc.sem, s.shutdown)
  }

  function StartOp(s: System): UnlockedCall.Op { UnlockedCall.Op(Slot(s.clientStart, s.conn), s.startCall) }

  function ShutdownOp(s: System): LockedShutdown.Op {
    LockedShutdown.Op(s.shutdown, s.shutdownCall, s.phase == Complete)
  }

  predicate LockFree(s: System) {
    s.acc.owner.Free? && !LockedShutdown.Holds(s.shutdownCall.pc)
  }

  predicate CanTake(s: System, step: Step) {
    match step
    case ClientStart(act) => s.client && !act.Callback? && UnlockedCall.Enabled(StartOp(s), act)
    case BeginConnect => !s.client && LockFree(s) && !s.connector.outstanding
    case HandleConnect => s.connector.outstanding && s.conn.Sent?
    case Accept(act) =>
      && !act.Abort? && !act.Close? && Enabled(s.acc, act)
      && (act.Lock? || act.BackLock? ==> LockFree(s))
    case Shutdown(act) =>
      && !act.ShutdownComplete? && LockedShutdown.Enabled(ShutdownOp(s), act)
      && (act.CallApi? ==> act.failure.None?)          // ConnectionShutdown returns nothing
      && (act.Lock? ==> LockFree(s))
    case Callback(event) => EventAllowed(s, event)
  }

  predicate EventAllowed(s: System, event: Event) {
    && LockFree(s)
    && s.acc.serial && s.acc.threads == map[]          // callbacks are serial
    && s.phase != Complete && !s.acc.closed            // SHUTDOWN_COMPLETE is last
    && (event.Connected? && s.client ==> s.startCall.inFlight)
  }

  function Take(s: System, step: Step): System
    requires CanTake(s, step)
  {
    match step
    case ClientStart(act) =>
      var op := UnlockedCall.Apply(StartOp(s), act);
      s.(clientStart := op.slot.pending, conn := op.slot.channel, startCall := op.call)
    case BeginConnect =>
      var c := AsyncConnect(Ctx(s));
      s.(serverConnect := c.serverConnect, conn := c.conn,
         connector := s.connector.(outstanding := true, begun := s.connector.begun + 1))
    case HandleConnect =>
      s.(conn := s.conn.Take(),
         connector := s.connector.(outstanding := false, finished := s.connector.finished + 1))
    case Accept(act) => s.(acc := Apply(s.acc, act))
    case Shutdown(act) =>
      var op := LockedShutdown.Apply(ShutdownOp(s), act);
      s.(shutdown := op.slot, shutdownCall := op.call)
    case Callback(event) => TakeEvent(s, event)
  }

  function TakeEvent(s: System, event: Event): System
    requires EventAllowed(s, event)
  {
    var c := OnEvent(Ctx(s), event);
    s.(phase := c.phase, clientStart := c.clientStart, serverConnect := c.serverConnect, conn := c.conn,
       shutdown := c.shutdown,
       startCall := if event.Connected? && s.client
                    then s.startCall.(inFlight := false, verdict := Success) else s.startCall,
       acc := match event
              case ShutdownByTransport => Apply(s.acc, Abort)
              case ShutdownByPeer => Apply(s.acc, Abort)
              case ShutdownComplete => Apply(s.acc, Close(ConnectionAborted))
              case _ => s.acc)
  }

  // ----- the invariant

  ghost predicate ConnectInv(s: System) {
    && s.connector.begun == s.connector.finished + (if s.connector.outstanding then 1 else 0)
    && if s.client then
         UnlockedCall.Inv(StartOp(s)) && !s.serverConnect && !s.connector.outstanding
       else
         && s.startCall == UnlockedCall.INIT.call && !s.clientStart
         && (s.serverConnect ==> s.connector.outstanding && s.conn.Armed? && s.phase != Complete)
         && (s.connector.outstanding && !s.serverConnect ==> s.conn.Sent?)
         && (!s.connector.outstanding ==> s.conn.Quiet())
  }

  /** The invariant without the accept rendezvous. */
  ghost predicate RestInv(s: System) {
    && (s.acc.closed <==> s.phase == Complete)
    && ShutdownInv(s)
    && (s.acc.owner.Free? || !LockedShutdown.Holds(s.shutdownCall.pc))
    && ConnectInv(s)
  }

  ghost predicate ShutdownInv(s: System) {
    LockedShutdown.Inv(ShutdownOp(s)) && s.shutdownCall.verdict == Success
  }

  ghost predicate SysInv(s: System) { Inv(s.acc) && RestInv(s) }

  /** Steps at which the accept side goes wrong: an overflow, or line 211's assert fails. */
  predicate GoesWrong(s: System, step: Step) { step.Accept? && Wrong(s.acc, step.act) }

  lemma StepKeepsRestInv(s: System, step: Step)
    requires RestInv(s) && CanTake(s, step)
    ensures RestInv(Take(s, step)) && Take(s, step).client == s.client
  {
    match step
    case ClientStart(act) => StartKeepsRestInv(s, act);
    case Shutdown(act) => ShutdownKeepsRestInv(s, act);
    case Callback(event) => EventKeepsRestInv(s, event);
    case _ =>
  }

  lemma StartKeepsRestInv(s: System, act: UnlockedCall.Act)
    requires RestInv(s) && CanTake(s, ClientStart(act))
    ensures RestInv(Take(s, ClientStart(act)))
  {
    UnlockedCall.StepKeepsInv(StartOp(s), act);
  }

  lemma ShutdownKeepsRestInv(s: System, act: LockedShutdown.Act)
    requires RestInv(s) && CanTake(s, Shutdown(act))
    ensures RestInv(Take(s, Shutdown(act)))
  {
    LockedShutdown.StepKeepsInv(ShutdownOp(s), act);
  }

  lemma EventKeepsRestInv(s: System, event: Event)
    requires RestInv(s) && EventAllowed(s, event)
    ensures RestInv(TakeEvent(s, event))
  {
    match event
    case Connected =>
      if s.client {
        UnlockedCall.StepKeepsInv(StartOp(s), UnlockedCall.Callback(Success));
      }
    case ShutdownComplete =>
      LockedShutdown.StepKeepsInv(ShutdownOp(s), LockedShutdown.ShutdownComplete);
    case _ =>
  }

  /** What a step does to the accept rendezvous. */
  function ActsOf(step: Step): seq<Act> {
    match step
    case Accept(act) => [act]
    case Callback(ShutdownByTransport) => [Abort]
    case Callback(ShutdownByPeer) => [Abort]
    case Callback(ShutdownComplete) => [Close(ConnectionAborted)]
    case _ => []
  }

  lemma StepKeepsSysInv(s: System, step: Step)
    requires SysInv(s) && CanTake(s, step) && !GoesWrong(s, step)
    ensures SysInv(Take(s, step))
  {
    StepKeepsRestInv(s, step);
    if ActsOf(step) != [] {
      StepKeepsInv(s.acc, ActsOf(step)[0]);
    }
  }

  lemma NoStalePermitGoesRight(s: System, step: Step)
    requires SysInv(s) && CanTake(s, step) && !Stale(s.acc)
    ensures !GoesWrong(s, step)
  {
    if step.Accept? {
      WrongExactlyWhenStale(s.acc, step.act);
    }
  }

  predicate SysRun(s: System, steps: seq<Step>)
    decreases steps
  {
    steps == [] || (CanTake(s, steps[0]) && SysRun(Take(s, steps[0]), steps[1..]))
  }

  function SysAfter(s: System, steps: seq<Step>): System
    requires SysRun(s, steps)
    decreases steps
  {
    if steps == [] then s else SysAfter(Take(s, steps[0]), steps[1..])
  }

  /** No step of the run goes wrong. */
  predicate GoesRight(s: System, steps: seq<Step>)
    requires SysRun(s, steps)
    decreases steps
  {
    steps == [] || (!GoesWrong(s, steps[0]) && GoesRight(Take(s, steps[0]), steps[1..]))
  }

  lemma {:induction false} SysRunKeepsInv(s: System, steps: seq<Step>)
    requires SysInv(s) && SysRun(s, steps) && GoesRight(s, steps)
    ensures SysInv(SysAfter(s, steps)) && SysAfter(s, steps).client == s.client
    decreases steps
  {
    if steps != [] {
      StepKeepsSysInv(s, steps[0]);
      SysRunKeepsInv(Take(s, steps[0]), steps[1..]);
    }
  }

  lemma SysRunCons(s: System, step: Step, rest: seq<Step>)
    requires CanTake(s, step) && SysRun(Take(s, step), rest)
    ensures SysRun(s, [step] + rest)
    ensures SysAfter(s, [step] + rest) == SysAfter(Take(s, step), rest)
    ensures GoesRight(s, [step] + rest) <==> !GoesWrong(s, step) && GoesRight(Take(s, step), rest)
  {
    assert ([step] + rest)[1..] == rest;
  }

  // ----- what holds in every run, also one that goes on after a step that goes wrong

  lemma {:induction false} RunKeepsRestInv(s: System, steps: seq<Step>)
    requires RestInv(s) && SysRun(s, steps)
    ensures RestInv(SysAfter(s, steps)) && SysAfter(s, steps).client == s.client
    decreases steps
  {
    if steps != [] {
      StepKeepsRestInv(s, steps[0]);
      RunKeepsRestInv(Take(s, steps[0]), steps[1..]);
    }
  }

  /**
   * Start, connect and shutdown do not depend on the accept side: in every run their channels
   * are never misused, each operation is finished or outstanding, a shutdown's value is
   * success, and after SHUTDOWN_COMPLETE a waiting connect or shutdown has its answer.
   */
  lemma {:induction false} ConnectAndShutdownAreSafe(client: bool, steps: seq<Step>)
    requires SysRun(New(client), steps)
    ensures var s := SysAfter(New(client), steps);
      && !s.conn.Broken? && !s.shutdown.channel.Broken?
      && s.connector.begun == s.connector.finished + (if s.connector.outstanding then 1 else 0)
      && s.startCall.begun == s.startCall.finished + (if s.startCall.pc.Idle? then 0 else 1)
      && s.shutdownCall.begun == s.shutdownCall.finished + (if s.shutdownCall.pc.Idle? then 0 else 1)
      && (s.shutdownCall.pc.Waiting? && s.shutdown.channel.Sent? ==> s.shutdown.channel.value == Success)
      && (s.phase == Complete ==> !s.serverConnect && !s.shutdown.pending)
      && (s.phase == Complete && s.connector.outstanding ==> s.conn.Sent?)
      && (s.phase == Complete && s.shutdownCall.pc.Waiting? ==> s.shutdown.channel == Sent(Success))
      // the asserts of async_start and async_connect
      && (s.startCall.pc.Idle? || s.startCall.pc.Made? ==> !s.clientStart)
      && (!s.connector.outstanding ==> !s.serverConnect)
  {
    RunKeepsRestInv(New(client), steps);
  }

  // ----- where each answer comes from

  /** Start and connect share a channel; a shutdown has its own. */
  datatype Operation = Connecting | ShuttingDown

  function ChannelOf(s: System, o: Operation): Channel<Code> {
    match o
    case Connecting => s.conn
    case ShuttingDown => s.shutdown.channel
  }

  predicate Opens(o: Operation, step: Step) {
    match o
    case Connecting => step == ClientStart(UnlockedCall.Make) || step.BeginConnect?
    case ShuttingDown => step == Shutdown(LockedShutdown.Make)
  }

  predicate Reads(o: Operation, step: Step) {
    match o
    case Connecting => step == ClientStart(UnlockedCall.Handle) || step.HandleConnect?
    case ShuttingDown => step == Shutdown(LockedShutdown.Handle)
  }

  /** A server's async_connect is out and not answered. */
  predicate ConnectWaits(s: System) { s.connector.outstanding && !s.conn.Sent? }

  /** The answer that a step brings, told by what MsQuic has reported or returned. */
  function Answer(s: System, o: Operation, step: Step): Option<Code> {
    match (o, step)
    case (Connecting, Callback(Connected)) => if s.client || ConnectWaits(s) then Some(Success) else None
    case (Connecting, Callback(ShutdownByTransport)) => if ConnectWaits(s) then Some(ConnectionAborted) else None
    case (Connecting, Callback(ShutdownByPeer)) => if ConnectWaits(s) then Some(ConnectionAborted) else None
    case (Connecting, Callback(ShutdownComplete)) => if ConnectWaits(s) then Some(ConnectionAborted) else None
    case (Connecting, BeginConnect) => if s.phase == Complete then Some(ConnectionAborted) else None
    case (Connecting, ClientStart(Fail)) =>
      if s.startCall.pc.Lowered? then Some(Native(s.startCall.pc.status)) else None
    case (ShuttingDown, Callback(ShutdownComplete)) =>
      if s.shutdownCall.pc.Waiting? && !s.shutdown.channel.Sent? then Some(Success) else None
    case (ShuttingDown, Shutdown(Settle)) => if s.phase == Complete then Some(Success) else None
    case _ => None
  }

  /** A channel gets exactly that answer; otherwise only its own call and handler touch it. */
  lemma StepAnswers(s: System, o: Operation, step: Step)
    requires RestInv(s) && CanTake(s, step)
    ensures ChannelOf(Take(s, step), o) ==
      if Answer(s, o, step).Some? then Sent(Answer(s, o, step).value)
      else if Opens(o, step) then Armed
      else if Reads(o, step) then Taken
      else ChannelOf(s, o)
    ensures Answer(s, o, step).Some? && !Opens(o, step) ==> ChannelOf(s, o) == Armed
    ensures Opens(o, step) ==> ChannelOf(s, o).Quiet()
  {}

  lemma {:induction false} SysRunSnoc(s: System, steps: seq<Step>)
    requires SysRun(s, steps) && steps != []
    ensures var before := steps[..|steps| - 1];
      && SysRun(s, before) && CanTake(SysAfter(s, before), steps[|steps| - 1])
      && SysAfter(s, steps) == Take(SysAfter(s, before), steps[|steps| - 1])
    decreases steps
  {
    if |steps| > 1 {
      SysRunSnoc(Take(s, steps[0]), steps[1..]);
      assert steps[..|steps| - 1][1..] == steps[1..][..|steps| - 2];
    }
  }

  /** A step that leaves a value in a channel has answered, or left the channel as it was. */
  lemma StepAnswersOrLeaves(s: System, o: Operation, step: Step)
    requires RestInv(s) && CanTake(s, step) && ChannelOf(Take(s, step), o).Sent?
    ensures if Answer(s, o, step).Some? then Answer(s, o, step).value == ChannelOf(Take(s, step), o).value
            else ChannelOf(s, o) == ChannelOf(Take(s, step), o) && !Opens(o, step)
  {
    StepAnswers(s, o, step);
  }

  /**
   * In every run, whatever a handler of start, connect or shutdown is about to read was put
   * there by one step, the answer of that step, and no new call of the operation came after.
   */
  lemma {:induction false} AnswerHasItsCause(s: System, o: Operation, steps: seq<Step>) returns (i: nat)
    requires RestInv(s) && !ChannelOf(s, o).Sent? && SysRun(s, steps) && ChannelOf(SysAfter(s, steps), o).Sent?
    ensures i < |steps| && SysRun(s, steps[..i])
    ensures Answer(SysAfter(s, steps[..i]), o, steps[i]) == Some(ChannelOf(SysAfter(s, steps), o).value)
    ensures forall j :: i < j < |steps| ==> !Opens(o, steps[j])
    decreases |steps|
  {
    var last := |steps| - 1;
    SysRunSnoc(s, steps);
    RunKeepsRestInv(s, steps[..last]);
    StepAnswersOrLeaves(SysAfter(s, steps[..last]), o, steps[last]);
    i := last;
    if Answer(SysAfter(s, steps[..last]), o, steps[last]).None? {
      i := AnswerHasItsCause(s, o, steps[..last]);
      assert steps[..last][..i] == steps[..i];
      forall j | i < j < |steps| ensures !Opens(o, steps[j]) {
        assert j < last ==> steps[..last][j] == steps[j];
      }
    }
  }

  /**
   * So a shutdown that has its value has met SHUTDOWN_COMPLETE, one begun before waits, and so
   * does a server's connect.
   */
  lemma {:induction false} ConnectAndShutdownWait(client: bool, steps: seq<Step>)
    requires SysRun(New(client), steps)
    ensures var s := SysAfter(New(client), steps);
      && (s.shutdown.channel.Sent? ==> s.phase == Complete)
      && (s.shutdownCall.pc.Idle? && s.phase != Complete ==>
           AsyncShutdown(Ctx(s)) == Ctx(s).(shutdown := Slot(true, Armed)))
      && (CanTake(s, BeginConnect) && s.phase != Complete ==>
           AsyncConnect(Ctx(s)) == Ctx(s).(serverConnect := true, conn := Armed))
  {
    RunKeepsRestInv(New(client), steps);
  }

  /** The context that the classes construct is the one the runs start from. */
  lemma RunsStartFresh(client: bool)
    ensures Ctx(New(client)) == ConnectionProtocol.START
    ensures Ctx(New(client))
         == Context(ConnectionProtocol.Ok, false, false, Unset, Slot(false, Unset), Permits(0), Slot(false, Unset))
  {}

  // ----- what holds until a step goes wrong

  /**
   * No channel is misused, the semaphore stays binary, the unlocked assert on the flag holds
   * on every permit but a stale one; every operation is finished or outstanding.
   */
  ghost predicate Safe(s: System) {
    && s.acc.sem.Permits? && s.acc.sem.count <= 1
    && (forall h :: At(s.acc, h, Acquired) && !Stale(s.acc) ==> s.acc.slot.pending && s.acc.slot.channel.Armed?)
    && (forall h :: At(s.acc, h, Cleared) ==> s.acc.slot.channel.Armed?)
    && !s.acc.slot.channel.Broken? && !s.conn.Broken? && !s.shutdown.channel.Broken?
    && s.acc.begun == s.acc.finished + (if s.acc.pc.Idle? then 0 else 1)
    && s.connector.begun == s.connector.finished + (if s.connector.outstanding then 1 else 0)
    && s.startCall.begun == s.startCall.finished + (if s.startCall.pc.Idle? then 0 else 1)
    && s.shutdownCall.begun == s.shutdownCall.finished + (if s.shutdownCall.pc.Idle? then 0 else 1)
    // the asserts of async_start, async_connect and async_accept
    && (s.startCall.pc.Idle? || s.startCall.pc.Made? ==> !s.clientStart)
    && (!s.connector.outstanding ==> !s.serverConnect)
    && (s.acc.pc.Idle? || s.acc.pc.Locked? ==> !s.acc.slot.pending)
  }

  lemma {:induction false} ConnectionIsSafe(client: bool, steps: seq<Step>)
    requires SysRun(New(client), steps) && GoesRight(New(client), steps)
    ensures Safe(SysAfter(New(client), steps))
  {
    SysRunKeepsInv(New(client), steps);
    InvIsSafe(SysAfter(New(client), steps));
  }

  lemma InvIsSafe(s: System)
    requires SysInv(s)
    ensures Safe(s)
  {
    FlagAndChannel(s.acc);
  }

  /** Streams are delivered one to one: in flight, unread or delivered, once and in one place. */
  lemma {:induction false} StreamsConserved(client: bool, steps: seq<Step>)
    requires SysRun(New(client), steps) && GoesRight(New(client), steps)
    ensures Conserved(SysAfter(New(client), steps).acc)
    ensures var s := SysAfter(New(client), steps);
      && Balanced(s.acc) && |PastThreads(s.acc)| <= 1
      && s.acc.sem.count + |PastThreads(s.acc)| <= 1 + One(Stale(s.acc))
  {
    SysRunKeepsInv(New(client), steps);
    PermitsAndThreads(SysAfter(New(client), steps).acc);
  }

  /**
   * What it takes to go wrong: an accept has been aborted, SHUTDOWN_COMPLETE has not been
   * handled, and either async_accept releases while the permit left over lies unclaimed, or
   * the callback that claimed it reaches its assert with no accept raised for it.
   */
  predicate UsesStalePermit(s: System, step: Step) {
    && s.acc.aborted && s.phase != Complete
    && match step
       case Accept(Release) => s.acc.inside.None? && s.acc.slot.channel.Armed?
       case Accept(Clear(_)) => s.acc.pc.Idle? || s.acc.pc.Locked? || s.acc.pc.Made? || s.acc.slot.channel.Sent?
       case _ => false
  }

  /** The next step goes wrong exactly then. */
  lemma {:induction false} GoesWrongExactly(client: bool, steps: seq<Step>, step: Step)
    requires SysRun(New(client), steps) && GoesRight(New(client), steps)
    requires CanTake(SysAfter(New(client), steps), step)
    ensures GoesWrong(SysAfter(New(client), steps), step) <==> UsesStalePermit(SysAfter(New(client), steps), step)
  {
    SysRunKeepsInv(New(client), steps);
    WrongStepExactly(SysAfter(New(client), steps), step);
  }

  lemma WrongStepExactly(s: System, step: Step)
    requires SysInv(s) && CanTake(s, step)
    ensures GoesWrong(s, step) <==> UsesStalePermit(s, step)
  {
    if step.Accept? {
      WrongExactlyWhenStale(s.acc, step.act);
    }
  }

  /**
   * With no accept outstanding the application can see it coming: a whole async_accept
   * overflows exactly when an accept handler has had an error, SHUTDOWN_COMPLETE has not been
   * handled and no callback has claimed the permit.
   */
  lemma {:induction false} AcceptOverflowsExactly(client: bool, steps: seq<Step>)
    requires SysRun(New(client), steps) && GoesRight(New(client), steps)
    requires SysAfter(New(client), steps).acc.pc.Idle?
    ensures var s := SysAfter(New(client), steps);
      AsyncAccept(Ctx(s)).permits.Overflow? <==> s.acc.refused && s.phase != Complete && !HasPermit(s.acc)
  {
    SysRunKeepsInv(New(client), steps);
    var s := SysAfter(New(client), steps);
    AbortedIsSeen(s.acc);
    CallOverflowsExactlyWhenStale(s.acc);
  }

  lemma {:induction false} WrongAt(s: System, steps: seq<Step>) returns (i: nat)
    requires SysRun(s, steps) && !GoesRight(s, steps)
    ensures i < |steps| && SysRun(s, steps[..i]) && GoesRight(s, steps[..i])
    ensures var s' := SysAfter(s, steps[..i]); CanTake(s', steps[i]) && GoesWrong(s', steps[i])
    decreases steps
  {
    i := 0;
    if !GoesWrong(s, steps[0]) {
      var later := WrongAt(Take(s, steps[0]), steps[1..]);
      i := later + 1;
      SysRunCons(s, steps[0], steps[1..][..later]);
      assert steps[..i] == [steps[0]] + steps[1..][..later];
    }
  }

  /** A run that does not go right has a first step that overflows or breaks the assert. */
  lemma {:induction false} OtherRunsGoWrong(client: bool, steps: seq<Step>) returns (i: nat)
    requires SysRun(New(client), steps) && !GoesRight(New(client), steps)
    ensures i < |steps| && SysRun(New(client), steps[..i]) && GoesRight(New(client), steps[..i])
    ensures var s := SysAfter(New(client), steps[..i]);
      && CanTake(s, steps[i]) && steps[i].Accept? && s.acc.aborted && s.phase != Complete
      && ( || (steps[i].act.Release? && Take(s, steps[i]).acc.sem.Overflow?)
           || (steps[i].act.Clear? && !s.acc.slot.pending))
  {
    i := WrongAt(New(client), steps);
    GoesWrongExactly(client, steps[..i], steps[i]);
  }

  /**
   * After SHUTDOWN_COMPLETE no connect, accept or shutdown is pending, those waiting have
   * their answer, and later ones are answered at once.
   */
  lemma {:induction false} CompleteDrains(client: bool, steps: seq<Step>)
    requires SysRun(New(client), steps) && GoesRight(New(client), steps)
    requires SysAfter(New(client), steps).phase == Complete
    ensures var s := SysAfter(New(client), steps);
      && !s.serverConnect && !s.acc.slot.pending && !s.shutdown.pending && s.acc.threads == map[]
      && (s.connector.outstanding ==> s.conn.Sent?)
      && (s.acc.pc.Waiting? ==> s.acc.slot.channel.Sent?)
      && (s.shutdownCall.pc.Waiting? ==> s.shutdown.channel.Sent?)
      && (!client && !s.connector.outstanding ==>
           AsyncConnect(Ctx(s)) == Ctx(s).(conn := Sent(ConnectionAborted)))
      && (s.acc.pc.Idle? ==>
           AsyncAccept(Ctx(s)) == Ctx(s).(accept := Slot(false, Sent(Accepted(ConnectionAborted, None)))))
      && (s.shutdownCall.pc.Idle? ==> AsyncShutdown(Ctx(s)) == Ctx(s).(shutdown := Slot(false, Sent(Success))))
  {
    SysRunKeepsInv(New(client), steps);
  }

  /** SHUTDOWN_COMPLETE is final. */
  lemma {:induction false} CompleteStays(s: System, steps: seq<Step>)
    requires RestInv(s) && s.phase == Complete && SysRun(s, steps)
    ensures SysAfter(s, steps).phase == Complete
    decreases steps
  {
    if steps != [] {
      StepKeepsRestInv(s, steps[0]);
      CompleteStays(Take(s, steps[0]), steps[1..]);
    }
  }

  predicate Shuts(event: Event) { event.ShutdownByTransport? || event.ShutdownByPeer? || event.ShutdownComplete? }

  /** What each event answers to whom, and what it leaves alone. */
  lemma EventAnswers(s: System, event: Event)
    requires SysInv(s) && EventAllowed(s, event)
    ensures var s' := TakeEvent(s, event);
      && Ctx(s') == OnEvent(Ctx(s), event)
      && s'.conn == (if event.Connected? && (s.clientStart || s.serverConnect) then Sent(Success)
                     else if Shuts(event) && s.serverConnect then Sent(ConnectionAborted)
                     else s.conn)
      && (s'.clientStart <==> s.clientStart && !event.Connected?)
      && (s'.serverConnect <==> s.serverConnect && event.Ignored?)
      && s'.acc.slot == (if Shuts(event) && s.acc.slot.pending
                         then Slot(false, Sent(Accepted(ConnectionAborted, None))) else s.acc.slot)
      && s'.acc.sem == s.acc.sem
      && s'.shutdown == (if event.ShutdownComplete? && s.shutdown.pending then Slot(false, Sent(Success))
                         else s.shutdown)
      && s'.phase == (match event
                      case ShutdownByTransport => TransportShutdown
                      case ShutdownByPeer => PeerShutdown
                      case ShutdownComplete => Complete
                      case _ => s.phase)
  {}

  /** Exactly when the callback's asserts hold, in every run. */
  lemma {:induction false} CallbackAsserts(client: bool, steps: seq<Step>, event: Event)
    requires SysRun(New(client), steps) && EventAllowed(SysAfter(New(client), steps), event)
    ensures var s := SysAfter(New(client), steps);
      Asserts(Ctx(s), event) <==>
        match event
        case Connected => client || (s.connector.outstanding && !s.conn.Sent?)
        case Ignored => true
        case _ => !UnlockedCall.Unfinished(s.startCall)
  {
    RunKeepsRestInv(New(client), steps);
  }

  /** A server that has not called async_connect when CONNECTED arrives breaks the assert. */
  lemma ConnectedBeforeConnect()
    ensures EventAllowed(New(false), Connected) && !Asserts(Ctx(New(false)), Connected)
  {}

  /**
   * A client start is the one operation SHUTDOWN_COMPLETE does not finish: it completes
   * afterwards exactly when MsQuic had already answered it.
   */
  lemma {:induction false} ClientStartStuck(s: System, steps: seq<Step>)
    requires RestInv(s) && s.phase == Complete && s.startCall.inFlight && SysRun(s, steps)
    ensures var s' := SysAfter(s, steps);
      s'.clientStart && s'.conn.Armed? && s'.startCall.inFlight && s'.startCall.finished == s.startCall.finished
    decreases steps
  {
    if steps != [] {
      StepKeepsRestInv(s, steps[0]);
      ClientStartStuck(Take(s, steps[0]), steps[1..]);
    }
  }

  lemma ClientStartFinishes(s: System)
    requires RestInv(s) && s.startCall.pc.Waiting?
    ensures CanTake(s, ClientStart(UnlockedCall.Handle)) <==> !s.startCall.inFlight
  {}

  /** A stream callback waits at acquire, and no accept is outstanding to release it. */
  predicate Blocked(s: System, h: Handle) {
    s.phase != Complete && !Stale(s.acc) && At(s.acc, h, Queued) && s.acc.pc.Idle?
  }

  lemma BlockedStep(s: System, h: Handle, step: Step)
    requires SysInv(s) && Blocked(s, h) && CanTake(s, step) && step != Accept(Lock)
    ensures Blocked(Take(s, step), h) && Take(s, step).phase == s.phase
    ensures s.shutdown.pending ==>
      Take(s, step).shutdown.pending && Take(s, step).shutdownCall.finished == s.shutdownCall.finished
  {
    assert h in s.acc.threads;
    assert s.acc.threads != map[];
    match step
    case Accept(act) => assert NoneOut(s.acc);
    case Shutdown(act) => assert LockedShutdown.Inv(ShutdownOp(s));
    case _ =>
  }

  /**
   * That holds up the whole connection: until the next async_accept no shutdown event is
   * handled, so no pending shutdown completes.
   */
  lemma {:induction false} ShutdownWaitsForAccept(s: System, h: Handle, steps: seq<Step>)
    requires SysInv(s) && Blocked(s, h) && SysRun(s, steps)
    requires forall i :: 0 <= i < |steps| ==> steps[i] != Accept(Lock)
    ensures var s' := SysAfter(s, steps);
      && Blocked(s', h) && s'.phase == s.phase
      && (s.shutdown.pending ==> s'.shutdown.pending && s'.shutdownCall.finished == s.shutdownCall.finished)
    decreases steps
  {
    if steps != [] {
      NoStalePermitGoesRight(s, steps[0]);
      StepKeepsSysInv(s, steps[0]);
      BlockedStep(s, h, steps[0]);
      ShutdownWaitsForAccept(Take(s, steps[0]), h, steps[1..]);
    }
  }

  /** Context functions and steps agree for the locked frontend calls. */
  lemma ContextFollowsSteps(s: System)
    requires SysInv(s)
    ensures CanTake(s, BeginConnect) ==> Ctx(Take(s, BeginConnect)) == AsyncConnect(Ctx(s))
    ensures CanTake(s, Accept(Lock)) ==>
      && Run(s.acc, AcceptActs(s.acc.closed))
      && var acc := After(s.acc, AcceptActs(s.acc.closed));
         (acc.slot, acc.sem) == (AsyncAccept(Ctx(s)).accept, AsyncAccept(Ctx(s)).permits)
    ensures forall h :: Enabled(s.acc, Acquire(h)) ==>
      && Run(s.acc, [Acquire(h), Clear(h), Deliver(h)])
      && var acc := After(s.acc, [Acquire(h), Clear(h), Deliver(h)]);
         (acc.slot, acc.sem) == (StreamStarted(Ctx(s), h).accept, StreamStarted(Ctx(s), h).permits)
    ensures s.shutdownCall.pc.Idle? ==>
      && LockedShutdown.Run(ShutdownOp(s), LockedShutdown.ActsOf(s.phase == Complete, None))
      && LockedShutdown.After(ShutdownOp(s), LockedShutdown.ActsOf(s.phase == Complete, None)).slot
         == AsyncShutdown(Ctx(s)).shutdown
  {
    if CanTake(s, Accept(Lock)) {
      AcceptCallIsItsSteps(s.acc);
    }
    forall h | Enabled(s.acc, Acquire(h))
      ensures Run(s.acc, [Acquire(h), Clear(h), Deliver(h)])
      ensures var acc := After(s.acc, [Acquire(h), Clear(h), Deliver(h)]);
        (acc.slot, acc.sem) == (StreamStarted(Ctx(s), h).accept, StreamStarted(Ctx(s), h).permits)
    {
      DeliverCallIsItsSteps(s.acc, h);
    }
    if s.shutdownCall.pc.Idle? {
      LockedShutdown.WholeCallIsItsSteps(ShutdownOp(s), None);
    }
  }

  // ----- everything finishes

  predicate Begins(step: Step) {
    || step.BeginConnect? || step == Accept(Lock) || step == Shutdown(LockedShutdown.Lock)
    || step == ClientStart(UnlockedCall.Make)
  }

  /** Steps left to the outstanding operations, once complete. */
  function Remaining(s: System): nat {
    Left(s.acc.pc) + LockedShutdown.Left(s.shutdownCall.pc) + UnlockedCall.Left(s.startCall.pc)
    + (if s.connector.outstanding then 1 else 0)
  }

  /** Something is outstanding that MsQuic does not hold. */
  predicate Unheld(s: System) {
    || s.connector.outstanding || !s.acc.pc.Idle? || !s.shutdownCall.pc.Idle?
    || (!s.startCall.pc.Idle? && !UnlockedCall.Held(s.startCall))
  }

  /** A step that brings an outstanding operation on. */
  function Finishing(s: System): Step {
    if s.connector.outstanding then HandleConnect
    else if !s.acc.pc.Idle? then Accept(NextAct(s.acc.pc))
    else if !s.shutdownCall.pc.Idle? then Shutdown(LockedShutdown.NextAct(ShutdownOp(s)))
    else ClientStart(UnlockedCall.NextAct(StartOp(s)))
  }

  /**
   * After SHUTDOWN_COMPLETE every step other than a new beginning brings the outstanding
   * operations nearer to their handlers; one is possible as long as any is outstanding but a
   * client start that MsQuic holds; with none outstanding all that began has finished.
   */
  lemma CompleteFinishes(s: System, step: Step)
    requires SysInv(s) && s.phase == Complete
    ensures CanTake(s, step) && !Begins(step) ==>
      Remaining(Take(s, step)) < Remaining(s) && Take(s, step).phase == Complete
    ensures Unheld(s) ==> CanTake(s, Finishing(s)) && !Begins(Finishing(s))
    ensures Remaining(s) == 0 <==>
      && s.acc.begun == s.acc.finished && s.connector.begun == s.connector.finished
      && s.shutdownCall.begun == s.shutdownCall.finished && s.startCall.begun == s.startCall.finished
  {
    if Unheld(s) {
      FinishingGoesOn(s);
    }
    if CanTake(s, step) && !Begins(step) {
      StepCountsDown(s, step);
    }
  }

  lemma FinishingGoesOn(s: System)
    requires SysInv(s) && s.phase == Complete && Unheld(s)
    ensures CanTake(s, Finishing(s)) && !Begins(Finishing(s))
  {
    ClosedAcceptFinishes(s.acc, Lock);
  }

  lemma StepCountsDown(s: System, step: Step)
    requires SysInv(s) && s.phase == Complete && CanTake(s, step) && !Begins(step)
    ensures Remaining(Take(s, step)) < Remaining(s) && Take(s, step).phase == Complete
  {
    if step.Accept? {
      ClosedAcceptFinishes(s.acc, step.act);
    }
  }

  /** So no run goes on for long without a new beginning. */
  lemma {:induction false} RestIsNear(s: System, steps: seq<Step>)
    requires SysInv(s) && s.phase == Complete && SysRun(s, steps)
    requires forall i :: 0 <= i < |steps| ==> !Begins(steps[i])
    ensures |steps| + Remaining(SysAfter(s, steps)) <= Remaining(s)
    decreases steps
  {
    if steps != [] {
      CompleteFinishes(s, steps[0]);
      NoStalePermitGoesRight(s, steps[0]);
      StepKeepsSysInv(s, steps[0]);
      RestIsNear(Take(s, steps[0]), steps[1..]);
    }
  }

  /** And from every state after SHUTDOWN_COMPLETE, all operations can run to their handlers. */
  lemma {:induction false} AllCanFinish(s: System) returns (steps: seq<Step>)
    requires SysInv(s) && s.phase == Complete && !s.startCall.inFlight
    ensures SysRun(s, steps) && forall i :: 0 <= i < |steps| ==> !Begins(steps[i])
    ensures var s' := SysAfter(s, steps);
      && s'.acc.begun == s'.acc.finished && s'.connector.begun == s'.connector.finished
      && s'.shutdownCall.begun == s'.shutdownCall.finished && s'.startCall.begun == s'.startCall.finished
    decreases Remaining(s)
  {
    CompleteFinishes(s, Finishing(s));
    steps := [];
    if Remaining(s) > 0 {
      NoStalePermitGoesRight(s, Finishing(s));
      StepKeepsSysInv(s, Finishing(s));
      var rest := AllCanFinish(Take(s, Finishing(s)));
      SysRunCons(s, Finishing(s), rest);
      steps := [Finishing(s)] + rest;
    }
  }

  // ----- delivery in every schedule of the whole connection

  function AllActsOf(steps: seq<Step>): seq<Act> {
    if steps == [] then [] else ActsOf(steps[0]) + AllActsOf(steps[1..])
  }

  lemma StepProjects(s: System, step: Step)
    requires CanTake(s, step)
    ensures ActsOf(step) == [] ==> Take(s, step).acc == s.acc
    ensures ActsOf(step) != [] ==>
      var act := ActsOf(step)[0];
      ActsOf(step) == [act] && Enabled(s.acc, act) && Take(s, step).acc == Apply(s.acc, act)
  {}

  /** A run of the connection is a run of its accept rendezvous. */
  lemma {:induction false} RunProjects(s: System, steps: seq<Step>)
    requires SysRun(s, steps)
    ensures Run(s.acc, AllActsOf(steps)) && After(s.acc, AllActsOf(steps)) == SysAfter(s, steps).acc
    decreases steps
  {
    if steps != [] {
      StepProjects(s, steps[0]);
      RunProjects(Take(s, steps[0]), steps[1..]);
      if ActsOf(steps[0]) == [] {
        assert AllActsOf(steps) == AllActsOf(steps[1..]);
      } else {
        RunCons(s.acc, ActsOf(steps[0])[0], AllActsOf(steps[1..]));
      }
    }
  }

  /**
   * With async_shutdown, connect and all events interleaved: one outstanding accept and a
   * blocked stream callback end in exactly one delivery after Rank pipeline steps, and until
   * then a pipeline step is always possible.
   */
  lemma EveryScheduleOfConnectionDelivers(s: System, steps: seq<Step>)
    requires SysInv(s) && OnTheWay(s.acc) && SysRun(s, steps)
    requires PipelineActs(AllActsOf(steps)) <= Rank(s.acc)
    ensures var acc := SysAfter(s, steps).acc;
      if PipelineActs(AllActsOf(steps)) < Rank(s.acc) then
        && acc.delivered == s.acc.delivered
        && exists act :: Pipeline(act) && CanTake(SysAfter(s, steps), Accept(act))
      else |acc.delivered| == |s.acc.delivered| + 1 && acc.finished == s.acc.finished + 1
  {
    RunProjects(s, steps);
    EveryScheduleDelivers(s.acc, AllActsOf(steps));
    var s' := SysAfter(s, steps);
    if PipelineActs(AllActsOf(steps)) < Rank(s.acc) {
      OnTheWayCanStep(s'.acc);
      var act :| Pipeline(act) && Enabled(s'.acc, act) && !Wrong(s'.acc, act);
      assert CanTake(s', Accept(act));
    }
  }

  /** A blocked stream callback is on its way as soon as async_accept has the lock. */
  lemma AcceptUnblocksConnection(s: System, h: Handle)
    requires SysInv(s) && Blocked(s, h) && LockFree(s)
    ensures CanTake(s, Accept(Lock))
    ensures var acc := Take(s, Accept(Lock)).acc; OnTheWay(acc) && Rank(acc) == 8
  {
    AcceptUnblocks(s.acc, h);
  }

  // ----- runs that reach the exceptional states

  /** A stream arrives with no accept outstanding. */
  function StreamArrives(h: Handle): seq<Step> {
    [Accept(Enter(h)), Accept(BackLock(h)), Accept(BackUnlock(h))]
  }

  lemma StreamArrivesBlocks(s: System, h: Handle)
    requires LockFree(s) && s.acc.threads == map[] && !s.acc.closed && h !in s.acc.offered
    ensures SysRun(s, StreamArrives(h)) && GoesRight(s, StreamArrives(h))
    ensures SysAfter(s, StreamArrives(h))
         == s.(acc := s.acc.(threads := map[h := Queued], offered := s.acc.offered + {h}))
  {
    var s1 := Take(s, Accept(Enter(h)));
    var s2 := Take(s1, Accept(BackLock(h)));
    SysRunCons(s2, Accept(BackUnlock(h)), []);
    SysRunCons(s1, Accept(BackLock(h)), [Accept(BackUnlock(h))]);
    SysRunCons(s, Accept(Enter(h)), [Accept(BackLock(h)), Accept(BackUnlock(h))]);
    assert s2.acc.threads[h := Queued] == map[h := Queued];
  }

  /** A blocked stream callback on a connection that has not started shutting down. */
  lemma BlockedIsReachable(client: bool)
    ensures SysRun(New(client), StreamArrives(7)) && Blocked(SysAfter(New(client), StreamArrives(7)), 7)
  {
    StreamArrivesBlocks(New(client), 7);
  }

  function AsSteps(acts: seq<Act>): (steps: seq<Step>)
    ensures |steps| == |acts|
  {
    seq(|acts|, i requires 0 <= i < |acts| => Accept(acts[i]))
  }

  /** A run of the accept rendezvous is a run of the connection, no other operation having the lock. */
  lemma {:induction false} ActsLift(s: System, acts: seq<Act>)
    requires Run(s.acc, acts) && !LockedShutdown.Holds(s.shutdownCall.pc)
    requires forall i :: 0 <= i < |acts| ==> !acts[i].Enter? && !acts[i].Abort? && !acts[i].Close?
    ensures SysRun(s, AsSteps(acts)) && SysAfter(s, AsSteps(acts)) == s.(acc := After(s.acc, acts))
    ensures GoesRight(s, AsSteps(acts)) <==> Rendezvous.GoesRight(s.acc, acts)
    decreases acts
  {
    if acts != [] {
      ActsLift(Take(s, Accept(acts[0])), acts[1..]);
      SysRunCons(s, Accept(acts[0]), AsSteps(acts[1..]));
      assert AsSteps(acts) == [Accept(acts[0])] + AsSteps(acts[1..]);
    }
  }

  /** One async_accept. */
  function OneAccept(): seq<Step> { AsSteps(AcceptActs(false)) }

  function Accepting(client: bool): System {
    New(client).(acc := Rendezvous.ACCEPTING)
  }

  lemma OneAcceptWaits(client: bool)
    ensures SysRun(New(client), OneAccept()) && GoesRight(New(client), OneAccept())
    ensures SysAfter(New(client), OneAccept()) == Accepting(client)
  {
    AbortIsReachable();
    AcceptCallIsItsSteps(New(client).acc);
    ActsLift(New(client), AcceptActs(false));
  }

  /** An accept, a shutdown by the transport, and the failed accept's handler. */
  function AbortedAccept(): seq<Step> {
    OneAccept() + [Callback(ShutdownByTransport), Accept(Handler)]
  }

  /** The state that leaves: idle, and one permit too many. */
  function Stranded(client: bool): System {
    New(client).(phase := TransportShutdown,
                 acc := Rendezvous.Init(true).(slot := Slot(false, Taken), sem := Permits(1), aborted := true,
                                         refused := true, begun := 1, finished := 1))
  }

  lemma AbortedAcceptStrands(client: bool)
    ensures SysRun(New(client), AbortedAccept()) && GoesRight(New(client), AbortedAccept())
    ensures SysAfter(New(client), AbortedAccept()) == Stranded(client)
  {
    var s1 := Take(Accepting(client), Callback(ShutdownByTransport));
    assert s1.acc.slot == Slot(false, Sent(REFUSED));
    assert Take(s1, Accept(Handler)) == Stranded(client);
    SysRunCons(s1, Accept(Handler), []);
    SysRunCons(Accepting(client), Callback(ShutdownByTransport), [Accept(Handler)]);
    OneAcceptWaits(client);
    SysRunConcat(New(client), OneAccept(), [Callback(ShutdownByTransport), Accept(Handler)]);
  }

  /** The same run, and where it leads. */
  lemma StrandedIsReachable(client: bool) returns (steps: seq<Step>)
    ensures SysRun(New(client), steps) && GoesRight(New(client), steps)
    ensures SysAfter(New(client), steps) == Stranded(client)
  {
    steps := AbortedAccept();
    AbortedAcceptStrands(client);
  }

  /** There the next async_accept overflows the semaphore. */
  lemma NextAcceptOverflows(client: bool) returns (steps: seq<Step>)
    ensures SysRun(New(client), steps) && SysAfter(New(client), steps).acc.sem.Overflow?
  {
    var stranding := StrandedIsReachable(client);
    AcceptCallIsItsSteps(Stranded(client).acc);
    ActsLift(Stranded(client), AcceptActs(false));
    SysRunConcat(New(client), stranding, OneAccept());
    steps := stranding + OneAccept();
  }

  /** A new stream finds the permit. */
  function Claimable(client: bool, h: Handle): System {
    Stranded(client).(acc := Stranded(client).acc.(threads := map[h := Queued], offered := {h}))
  }

  lemma ClaimableIsReachable(client: bool, h: Handle) returns (steps: seq<Step>)
    ensures SysRun(New(client), steps) && GoesRight(New(client), steps)
    ensures SysAfter(New(client), steps) == Claimable(client, h)
  {
    var stranding := StrandedIsReachable(client);
    StreamArrivesBlocks(Stranded(client), h);
    SysRunConcat(New(client), stranding, StreamArrives(h));
    steps := stranding + StreamArrives(h);
  }

  /** It passes acquire with no accept pending, which breaks the unlocked assert. */
  lemma NextStreamBreaksAssert(client: bool, h: Handle) returns (steps: seq<Step>)
    ensures SysRun(New(client), steps) && GoesRight(New(client), steps)
    ensures var s := SysAfter(New(client), steps);
      CanTake(s, Accept(Clear(h))) && GoesWrong(s, Accept(Clear(h)))
  {
    var arriving := ClaimableIsReachable(client, h);
    SysRunCons(Claimable(client, h), Accept(Acquire(h)), []);
    SysRunConcat(New(client), arriving, [Accept(Acquire(h))]);
    steps := arriving + [Accept(Acquire(h))];
  }

  /** But if an accept is raised before that assert, it completes with the stream. */
  lemma ClaimedPermitDelivers(client: bool, h: Handle) returns (steps: seq<Step>)
    ensures SysRun(New(client), steps) && GoesRight(New(client), steps)
    ensures var acc := SysAfter(New(client), steps).acc;
      acc.pc.Waiting? && acc.slot.channel == Sent(Accepted(Success, Some(h))) && acc.aborted && !acc.closed
  {
    var arriving := ClaimableIsReachable(client, h);
    SysRunKeepsInv(New(client), arriving);
    ClaimedAcceptLifts(Claimable(client, h), h);
    SysRunConcat(New(client), arriving, AsSteps(ClaimedAccept(h)));
    steps := arriving + AsSteps(ClaimedAccept(h));
  }

  lemma ClaimedAcceptLifts(s: System, h: Handle)
    requires SysInv(s) && Stale(s.acc) && s.acc.pc.Idle? && LockFree(s) && At(s.acc, h, Queued)
    ensures SysRun(s, AsSteps(ClaimedAccept(h))) && GoesRight(s, AsSteps(ClaimedAccept(h)))
    ensures var acc := SysAfter(s, AsSteps(ClaimedAccept(h))).acc;
      && acc.pc.Waiting? && acc.slot.channel == Sent(Accepted(Success, Some(h)))
      && acc.aborted == s.acc.aborted && acc.closed == s.acc.closed
  {
    ClaimedAcceptGoesRight(s.acc, h);
    ActsLift(s, ClaimedAccept(h));
  }

  lemma {:induction false} SysRunConcat(s: System, steps: seq<Step>, more: seq<Step>)
    requires SysRun(s, steps) && SysRun(SysAfter(s, steps), more)
    ensures SysRun(s, steps + more) && SysAfter(s, steps + more) == SysAfter(SysAfter(s, steps), more)
    ensures GoesRight(s, steps + more) <==> GoesRight(s, steps) && GoesRight(SysAfter(s, steps), more)
    decreases steps
  {
    if steps == [] {
      assert steps + more == more;
    } else {
      SysRunConcat(Take(s, steps[0]), steps[1..], more);
      assert (steps + more)[1..] == steps[1..] + more;
    }
  }

  /** A client start that ConnectionStart has accepted. */
  function HeldStart(): seq<Step> {
    [ClientStart(UnlockedCall.Make), ClientStart(UnlockedCall.Raise), ClientStart(UnlockedCall.Accept),
     ClientStart(UnlockedCall.Return)]
  }

  function Starting(): System {
    New(true).(clientStart := true, conn := Armed,
               startCall := UnlockedCall.Call(UnlockedCall.Waiting, true, Success, 1, 0))
  }

  lemma HeldStartWaits()
    ensures SysRun(New(true), HeldStart()) && SysAfter(New(true), HeldStart()) == Starting()
  {
    var s1 := Take(New(true), ClientStart(UnlockedCall.Make));
    var s2 := Take(s1, ClientStart(UnlockedCall.Raise));
    var s3 := Take(s2, ClientStart(UnlockedCall.Accept));
    var t3 := [ClientStart(UnlockedCall.Return)];
    var t2 := [ClientStart(UnlockedCall.Accept)] + t3;
    var t1 := [ClientStart(UnlockedCall.Raise)] + t2;
    SysRunCons(s3, ClientStart(UnlockedCall.Return), []);
    SysRunCons(s2, ClientStart(UnlockedCall.Accept), t3);
    SysRunCons(s1, ClientStart(UnlockedCall.Raise), t2);
    SysRunCons(New(true), ClientStart(UnlockedCall.Make), t1);
    assert HeldStart() == [ClientStart(UnlockedCall.Make)] + t1;
  }

  /** Each shutdown event can meet it, and then breaks the assert. */
  lemma ShutdownMeetsHeldStart(event: Event)
    requires event.ShutdownByTransport? || event.ShutdownByPeer? || event.ShutdownComplete?
    ensures SysRun(New(true), HeldStart())
    ensures var s := SysAfter(New(true), HeldStart());
      EventAllowed(s, event) && !Asserts(Ctx(s), event)
  {
    HeldStartWaits();
  }

  /** After SHUTDOWN_COMPLETE it waits for ever (see ClientStartStuck). */
  lemma HeldStartIsReachable()
    ensures var steps := HeldStart() + [Callback(ShutdownComplete)];
      && SysRun(New(true), steps)
      && var s := SysAfter(New(true), steps);
         s.phase == Complete && UnlockedCall.Held(s.startCall) && s.conn.Armed?
  {
    HeldStartWaits();
    SysRunCons(Starting(), Callback(ShutdownComplete), []);
    SysRunConcat(New(true), HeldStart(), [Callback(ShutdownComplete)]);
  }
}
