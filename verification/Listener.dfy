// AsioServerListenerCtx as a value, and a listener in every interleaving of async_accept,
// async_stop, NEW_CONNECTION callbacks and STOP_COMPLETE.

module ListenerProtocol {
  import opened Errors
  import opened Handles
  import opened OneShot
  import opened Rendezvous

  datatype Phase = Ok | Stopped

  datatype Context = Context(phase: Phase, accept: Slot<Accepted>, permits: Semaphore, stop: Slot<Code>)

  const START := Context(Ok, Slot(false, Unset), Permits(0), Slot(false, Unset))

  /** async_accept. */
  function AsyncAccept(c: Context): Context {
    var (accept, permits) := AcceptCall(c.accept, c.permits, c.phase == Stopped);
    c.(accept := accept, permits := permits)
  }

  /** NEW_CONNECTION from acquire on. */
  function NewConnection(c: Context, conn: Handle): Context
    requires c.permits.Permits? && c.permits.count > 0
  {
    var (accept, permits) := DeliverCall(c.accept, c.permits, conn);
    c.(accept := accept, permits := permits)
  }

  /** STOP_COMPLETE. */
  function StopComplete(c: Context): Context {
    c.(phase := Stopped, accept := c.accept.Drain(Accepted(ShutDown, None)), stop := c.stop.Drain(Success))
  }

  /** The locked part of async_stop; unless already stopped, ListenerStop is called next. */
  function AsyncStop(c: Context): Context {
    var made := c.stop.Make();
    c.(stop := if c.phase == Stopped then made.Answer(Success) else made.Raise())
  }
}

module ListenerSystem {
  import opened Errors
  import opened Handles
  import opened OneShot
  import opened Rendezvous
  import opened ListenerProtocol

  datatype StopPc =
    | AtRest
    | Stopping  // lock dropped, inside ListenerStop
    | Returned  // initiation done, handler not run

  datatype System = System(
    acc: State,
    stop: Slot<Code>,
    stopPc: StopPc,
    stopsBegun: nat,
    stopsFinished: nat)

  datatype Step =
    | Accept(act: Act)   // async_accept, its handler and NEW_CONNECTION callbacks
    | StopCall
    | StopReturns
    | StopComplete
    | HandleStop

  const NEW := System(Rendezvous.Init(false), Slot(false, Unset), AtRest, 0, 0)

  function Ctx(s: System): Context {
    Context(if s.acc.closed then Stopped else Ok, s.acc.slot, s.acc.sem, s.stop)
  }

  predicate CanTake(s: System, step: Step) {
    match step
    case Accept(act) => !act.Abort? && !act.Close? && Enabled(s.acc, act)
    case StopCall => s.stopPc.AtRest? && s.acc.owner.Free?
    case StopReturns => s.stopPc.Stopping? && s.acc.closed  // ListenerStop waits for STOP_COMPLETE
    case StopComplete => Enabled(s.acc, Close(ShutDown))
    case HandleStop => s.stopPc.Returned? && s.stop.channel.Sent?
  }

  function Take(s: System, step: Step): System
    requires CanTake(s, step)
  {
    match step
    case Accept(act) => s.(acc := Apply(s.acc, act))
    case StopCall =>
      s.(stop := AsyncStop(Ctx(s)).stop, stopsBegun := s.stopsBegun + 1,
         stopPc := if s.acc.closed then Returned else Stopping)
    case StopReturns => s.(stopPc := Returned)
    case StopComplete => s.(acc := Apply(s.acc, Close(ShutDown)), stop := s.stop.Drain(Success))
    case HandleStop => s.(stop := s.stop.Take(), stopPc := AtRest, stopsFinished := s.stopsFinished + 1)
  }

  ghost predicate StopInv(s: System) {
    && s.stopsBegun == s.stopsFinished + (if s.stopPc.AtRest? then 0 else 1)
    && match s.stopPc
       case AtRest => !s.stop.pending && s.stop.channel.Quiet()
       case Stopping => s.stop == if s.acc.closed then Slot(false, Sent(Success)) else Slot(true, Armed)
       case Returned => s.acc.closed && s.stop == Slot(false, Sent(Success))
  }

  ghost predicate SysInv(s: System) {
    Inv(s.acc) && !s.acc.aborted && StopInv(s)
  }

  lemma StepKeepsSysInv(s: System, step: Step)
    requires SysInv(s) && CanTake(s, step)
    ensures SysInv(Take(s, step))
  {
    match step
    case Accept(act) =>
      WrongExactlyWhenStale(s.acc, act);
      StepKeepsInv(s.acc, act);
    case StopComplete => StepKeepsInv(s.acc, Close(ShutDown));
    case _ =>
  }

  predicate SysRun(s: System, steps: seq<Step>)
    decreases steps
  {
    steps == [] || (CanTake(s, steps[0]) && SysRun(Take(s, steps[0]), steps[1..]))
  }

  function SysAfter(s: System, steps: seq<Step>): System
    requires SysRun(s, steps)
    decreases steps
  {
    if steps == [] then s else SysAfter(Take(s, steps[0]), steps[1..])
  }

  lemma {:induction false} SysRunKeepsInv(s: System, steps: seq<Step>)
    requires SysInv(s) && SysRun(s, steps)
    ensures SysInv(SysAfter(s, steps))
    decreases steps
  {
    if steps != [] {
      StepKeepsSysInv(s, steps[0]);
      SysRunKeepsInv(Take(s, steps[0]), steps[1..]);
    }
  }

  /**
   * With any number of NEW_CONNECTION callbacks: no release overflows and no unlocked assert
   * on the flag fails, the semaphore stays binary, no channel is misused and every operation
   * is finished or outstanding.
   */
  lemma {:induction false} AcceptIsSafe(steps: seq<Step>)
    requires SysRun(NEW, steps)
    ensures var s := SysAfter(NEW, steps);
      && (forall act :: Enabled(s.acc, act) ==> !Wrong(s.acc, act))
      && s.acc.sem.Permits? && s.acc.sem.count <= 1
      && (forall h :: At(s.acc, h, Acquired) ==> s.acc.slot.pending && s.acc.slot.channel.Armed?)
      && !s.acc.slot.channel.Broken? && !s.stop.channel.Broken?
      && s.acc.begun == s.acc.finished + (if s.acc.pc.Idle? then 0 else 1)
      && s.stopsBegun == s.stopsFinished + (if s.stopPc.AtRest? then 0 else 1)
      // the asserts of async_accept and async_stop
      && (s.acc.pc.Idle? || s.acc.pc.Locked? ==> !s.acc.slot.pending)
      && (s.stopPc.AtRest? ==> !s.stop.pending)
  {
    SysRunKeepsInv(NEW, steps);
    var s := SysAfter(NEW, steps);
    FlagAndChannel(s.acc);
    forall act | Enabled(s.acc, act) ensures !Wrong(s.acc, act) {
      WrongExactlyWhenStale(s.acc, act);
    }
  }

  /**
   * Permits and callbacks between acquire and send never exceed one, and every offered
   * connection is in flight, unread or delivered, once and in one place.
   */
  lemma {:induction false} ConnectionsConserved(steps: seq<Step>)
    requires SysRun(NEW, steps)
    ensures Conserved(SysAfter(NEW, steps).acc)
    ensures var s := SysAfter(NEW, steps);
      s.acc.sem.Permits? && s.acc.sem.count + |PastThreads(s.acc)| <= 1
  {
    SysRunKeepsInv(NEW, steps);
    PermitsAndThreads(SysAfter(NEW, steps).acc);
  }

  /**
   * Releasing at count one never happens: wherever async_accept reaches its release, and
   * also for a whole call made from rest, the semaphore is left at one.
   */
  lemma {:induction false} ReleaseNeverOverflows(steps: seq<Step>)
    requires SysRun(NEW, steps)
    ensures var s := SysAfter(NEW, steps);
      && (s.acc.pc.Raised? ==> s.acc.sem.Release() == Permits(1))
      && (s.acc.pc.Idle? ==> !AsyncAccept(Ctx(s)).permits.Overflow?)
  {
    SysRunKeepsInv(NEW, steps);
    var s := SysAfter(NEW, steps);
    if s.acc.pc.Raised? {
      WrongExactlyWhenStale(s.acc, Release);
    } else if s.acc.pc.Idle? {
      CallOverflowsExactlyWhenStale(s.acc);
    }
  }

  /**
   * Once STOP_COMPLETE is handled nothing is pending, every accept and stop waiting has its
   * answer, and later calls are answered at once.
   */
  lemma {:induction false} StopDrains(steps: seq<Step>)
    requires SysRun(NEW, steps) && SysAfter(NEW, steps).acc.closed
    ensures var s := SysAfter(NEW, steps);
      && !s.acc.slot.pending && !s.stop.pending && s.acc.threads == map[]
      && (s.acc.pc.Waiting? ==> s.acc.slot.channel.Sent?)
      && (!s.stopPc.AtRest? ==> s.stop.channel == Sent(Success))
      && (s.acc.pc.Idle? ==>
           AsyncAccept(Ctx(s)) == Ctx(s).(accept := Slot(false, Sent(Accepted(ConnectionAborted, None)))))
      && (s.stopPc.AtRest? ==> AsyncStop(Ctx(s)) == Ctx(s).(stop := Slot(false, Sent(Success))))
  {
    SysRunKeepsInv(NEW, steps);
  }

  /** A stop that has its value has met STOP_COMPLETE, and one begun before waits for it. */
  lemma {:induction false} StopWaitsForComplete(steps: seq<Step>)
    requires SysRun(NEW, steps)
    ensures var s := SysAfter(NEW, steps);
      && (s.stop.channel.Sent? ==> s.acc.closed && s.stop.channel.value == Success)
      && (s.stopPc.AtRest? && !s.acc.closed ==> AsyncStop(Ctx(s)) == Ctx(s).(stop := Slot(true, Armed)))
  {
    SysRunKeepsInv(NEW, steps);
  }

  /** The context that the classes construct is the one the runs start from. */
  lemma RunsStartFresh()
    ensures Ctx(NEW) == ListenerProtocol.START
    ensures Ctx(NEW) == Context(ListenerProtocol.Ok, Slot(false, Unset), Permits(0), Slot(false, Unset))
  {}

  /** STOP_COMPLETE answers a pending accept with shut_down and a pending stop with success. */
  lemma StopCompleteAnswers(s: System)
    requires SysInv(s) && CanTake(s, StopComplete)
    ensures var s' := Take(s, StopComplete);
      && Ctx(s') == ListenerProtocol.StopComplete(Ctx(s))
      && (s.acc.slot.pending ==> s'.acc.slot == Slot(false, Sent(Accepted(ShutDown, None))))
      && (s.stopPc.Stopping? ==> s'.stop == Slot(false, Sent(Success)) && CanTake(s', StopReturns))
      && (s.acc.pc.Waiting? && !s.acc.slot.pending ==> s'.acc.slot == s.acc.slot)
  {}

  /** Context functions and steps agree for async_stop, async_accept and NEW_CONNECTION. */
  lemma ContextFollowsSteps(s: System)
    requires SysInv(s)
    ensures CanTake(s, StopCall) ==> Ctx(Take(s, StopCall)) == AsyncStop(Ctx(s))
    ensures Enabled(s.acc, Lock) ==>
      && Run(s.acc, AcceptActs(s.acc.closed))
      && var acc := After(s.acc, AcceptActs(s.acc.closed));
         (acc.slot, acc.sem) == (AsyncAccept(Ctx(s)).accept, AsyncAccept(Ctx(s)).permits)
    ensures forall h :: Enabled(s.acc, Acquire(h)) ==>
      && Run(s.acc, [Acquire(h), Clear(h), Deliver(h)])
      && var acc := After(s.acc, [Acquire(h), Clear(h), Deliver(h)]);
         (acc.slot, acc.sem) == (NewConnection(Ctx(s), h).accept, NewConnection(Ctx(s), h).permits)
  {
    if Enabled(s.acc, Lock) {
      AcceptCallIsItsSteps(s.acc);
    }
    forall h | Enabled(s.acc, Acquire(h))
      ensures Run(s.acc, [Acquire(h), Clear(h), Deliver(h)])
      ensures var acc := After(s.acc, [Acquire(h), Clear(h), Deliver(h)]);
        (acc.slot, acc.sem) == (NewConnection(Ctx(s), h).accept, NewConnection(Ctx(s), h).permits)
    {
      DeliverCallIsItsSteps(s.acc, h);
    }
  }

  /** A callback waits at acquire, and no accept is outstanding to release it. */
  predicate Blocked(s: System, h: Handle) { At(s.acc, h, Queued) && s.acc.pc.Idle? }

  lemma BlockedStep(s: System, h: Handle, step: Step)
    requires SysInv(s) && Blocked(s, h) && CanTake(s, step) && step != Accept(Lock)
    ensures Blocked(Take(s, step), h) && Take(s, step).acc.delivered == s.acc.delivered
    ensures !step.StopReturns? && !step.StopComplete?
  {
    assert s.acc.threads != map[];
    assert NoneOut(s.acc);
  }

  /**
   * That blocks the stop as well: however the run goes on, until the next async_accept the
   * callback stays blocked and ListenerStop does not return.
   */
  lemma {:induction false} StopWaitsForAccept(s: System, h: Handle, steps: seq<Step>)
    requires SysInv(s) && Blocked(s, h) && SysRun(s, steps)
    requires forall i :: 0 <= i < |steps| ==> steps[i] != Accept(Lock)
    ensures var s' := SysAfter(s, steps);
      && Blocked(s', h) && s'.acc.delivered == s.acc.delivered
      && (s.stopPc.Stopping? ==> s'.stopPc.Stopping?)
    decreases steps
  {
    if steps != [] {
      StepKeepsSysInv(s, steps[0]);
      BlockedStep(s, h, steps[0]);
      StopWaitsForAccept(Take(s, steps[0]), h, steps[1..]);
    }
  }

  predicate Begins(step: Step) { step == Accept(Lock) || step.StopCall? }

  /** Steps left to the outstanding accept and stop, once stopped. */
  function Remaining(s: System): nat {
    Left(s.acc.pc)
    + (match s.stopPc case AtRest => 0 case Stopping => 2 case Returned => 1)
  }

  /** A step that brings the outstanding accept or stop on. */
  function Finishing(s: System): Step {
    if !s.acc.pc.Idle? then Accept(NextAct(s.acc.pc))
    else if s.stopPc.Stopping? then StopReturns
    else HandleStop
  }

  /**
   * After STOP_COMPLETE every step other than a new beginning brings the outstanding accept
   * or stop nearer to its handler, one is possible as long as either is outstanding, and
   * with neither outstanding all accepts and stops that began have finished.
   */
  lemma StoppedFinishes(s: System, step: Step)
    requires SysInv(s) && s.acc.closed
    ensures CanTake(s, step) && !Begins(step) ==>
      Remaining(Take(s, step)) < Remaining(s) && Take(s, step).acc.closed
    ensures Remaining(s) > 0 ==> CanTake(s, Finishing(s)) && !Begins(Finishing(s))
    ensures Remaining(s) == 0 <==> s.acc.begun == s.acc.finished && s.stopsBegun == s.stopsFinished
  {
    ClosedAcceptFinishes(s.acc, if step.Accept? then step.act else Lock);
  }

  /** So no run goes on for long without a new beginning. */
  lemma {:induction false} RestIsNear(s: System, steps: seq<Step>)
    requires SysInv(s) && s.acc.closed && SysRun(s, steps)
    requires forall i :: 0 <= i < |steps| ==> !Begins(steps[i])
    ensures |steps| + Remaining(SysAfter(s, steps)) <= Remaining(s)
    decreases steps
  {
    if steps != [] {
      StoppedFinishes(s, steps[0]);
      StepKeepsSysInv(s, steps[0]);
      RestIsNear(Take(s, steps[0]), steps[1..]);
    }
  }

  /** And from every state after STOP_COMPLETE, accept and stop can run to their handlers. */
  lemma {:induction false} AllCanFinish(s: System) returns (steps: seq<Step>)
    requires SysInv(s) && s.acc.closed
    ensures SysRun(s, steps) && forall i :: 0 <= i < |steps| ==> !Begins(steps[i])
    ensures var s' := SysAfter(s, steps);
      s'.acc.begun == s'.acc.finished && s'.stopsBegun == s'.stopsFinished
    decreases Remaining(s)
  {
    StoppedFinishes(s, Finishing(s));
    steps := [];
    if Remaining(s) > 0 {
      StepKeepsSysInv(s, Finishing(s));
      var rest := AllCanFinish(Take(s, Finishing(s)));
      SysRunCons(s, Finishing(s), rest);
      steps := [Finishing(s)] + rest;
    }
  }

  // ----- delivery in every schedule of the whole listener

  /** What a step does to the accept rendezvous. */
  function ActsOf(step: Step): seq<Act> {
    match step
    case Accept(act) => [act]
    case StopComplete => [Close(ShutDown)]
    case _ => []
  }

  function AllActsOf(steps: seq<Step>): seq<Act> {
    if steps == [] then [] else ActsOf(steps[0]) + AllActsOf(steps[1..])
  }

  /** A run of the listener is a run of its accept rendezvous. */
  lemma {:induction false} RunProjects(s: System, steps: seq<Step>)
    requires SysRun(s, steps)
    ensures Run(s.acc, AllActsOf(steps)) && After(s.acc, AllActsOf(steps)) == SysAfter(s, steps).acc
    decreases steps
  {
    if steps != [] {
      RunProjects(Take(s, steps[0]), steps[1..]);
      if ActsOf(steps[0]) == [] {
        assert AllActsOf(steps) == AllActsOf(steps[1..]);
      } else {
        RunCons(s.acc, ActsOf(steps[0])[0], AllActsOf(steps[1..]));
      }
    }
  }

  /**
   * With async_stop, STOP_COMPLETE and any other callbacks interleaved: one outstanding
   * accept and a blocked callback end in exactly one delivery after Rank pipeline steps, and
   * until then a pipeline step is always possible.
   */
  lemma EveryScheduleOfListenerDelivers(s: System, steps: seq<Step>)
    requires SysInv(s) && OnTheWay(s.acc) && SysRun(s, steps)
    requires PipelineActs(AllActsOf(steps)) <= Rank(s.acc)
    ensures var acc := SysAfter(s, steps).acc;
      if PipelineActs(AllActsOf(steps)) < Rank(s.acc) then
        && acc.delivered == s.acc.delivered
        && exists act :: Pipeline(act) && CanTake(SysAfter(s, steps), Accept(act))
      else |acc.delivered| == |s.acc.delivered| + 1 && acc.finished == s.acc.finished + 1
  {
    RunProjects(s, steps);
    EveryScheduleDelivers(s.acc, AllActsOf(steps));
    var s' := SysAfter(s, steps);
    if PipelineActs(AllActsOf(steps)) < Rank(s.acc) {
      OnTheWayCanStep(s'.acc);
      var act :| Pipeline(act) && Enabled(s'.acc, act) && !Wrong(s'.acc, act);
      assert CanTake(s', Accept(act));
    }
  }

  /** A blocked callback is on its way as soon as async_accept has the lock. */
  lemma AcceptUnblocksListener(s: System, h: Handle)
    requires SysInv(s) && Blocked(s, h) && s.acc.owner.Free?
    ensures CanTake(s, Accept(Lock))
    ensures var acc := Take(s, Accept(Lock)).acc; OnTheWay(acc) && Rank(acc) == 8
  {
    AcceptUnblocks(s.acc, h);
  }

  /** A NEW_CONNECTION callback that finds no accept outstanding is blocked, here during a stop. */
  lemma BlockedIsReachable()
    ensures var steps := [Accept(Enter(7)), Accept(BackLock(7)), Accept(BackUnlock(7)), StopCall];
      SysRun(NEW, steps) && Blocked(SysAfter(NEW, steps), 7) && SysAfter(NEW, steps).stopPc.Stopping?
  {
    var s1 := Take(NEW, Accept(Enter(7)));
    var s2 := Take(s1, Accept(BackLock(7)));
    var s3 := Take(s2, Accept(BackUnlock(7)));
    SysRunCons(s3, StopCall, []);
    SysRunCons(s2, Accept(BackUnlock(7)), [StopCall]);
    SysRunCons(s1, Accept(BackLock(7)), [Accept(BackUnlock(7)), StopCall]);
    SysRunCons(NEW, Accept(Enter(7)), [Accept(BackLock(7)), Accept(BackUnlock(7)), StopCall]);
  }

  lemma SysRunCons(s: System, step: Step, rest: seq<Step>)
    requires CanTake(s, step) && SysRun(Take(s, step), rest)
    ensures SysRun(s, [step] + rest)
    ensures SysAfter(s, [step] + rest) == SysAfter(Take(s, step), rest)
  {
    assert ([step] + rest)[1..] == rest;
  }
}
