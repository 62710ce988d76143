// async_shutdown of streams and connections: lock, store the channel, call MsQuic,
// set the flag, unlock. The flag is raised only after the call, but the mutex is held
// across both, so SHUTDOWN_COMPLETE is handled either before the lock or after it.

module LockedShutdown {
  import opened Errors
  import opened OneShot

  datatype Pc =
    | Idle
    | Locked
    | Made
    | Called(failure: Option<int>)  // back from MsQuic, flag not raised yet
    | Settled                       // flag raised or channel answered, still locked
    | Waiting

  /** `verdict` is the code this call's handler must get. */
  datatype Call = Call(pc: Pc, verdict: Code, begun: nat, finished: nat)

  /** `complete` says whether SHUTDOWN_COMPLETE has been handled. */
  datatype Op = Op(slot: Slot<Code>, call: Call, complete: bool)

  datatype Act =
    | Lock | Make | CallApi(failure: Option<int>) | Settle | Unlock | Handle
    | ShutdownComplete

  const INIT := Op(Slot(false, Unset), Call(Idle, Success, 0, 0), false)

  predicate Holds(pc: Pc) {
    pc.Locked? || pc.Made? || pc.Called? || pc.Settled?
  }

  predicate Enabled(op: Op, act: Act) {
    match act
    case Lock => op.call.pc.Idle?
    case Make => op.call.pc.Locked?
    case CallApi(failure) => op.call.pc.Made? && !op.complete && (failure.Some? ==> failure.value != 0)
    case Settle => op.call.pc.Called? || (op.call.pc.Made? && op.complete)
    case Unlock => op.call.pc.Settled?
    case Handle => op.call.pc.Waiting? && op.slot.channel.Sent?
    case ShutdownComplete => !Holds(op.call.pc) && !op.complete
  }

  function Apply(op: Op, act: Act): Op
    requires Enabled(op, act)
  {
    var Op(slot, call, complete) := op;
    match act
    case Lock => op.(call := call.(pc := Locked, verdict := Success, begun := call.begun + 1))
    case Make => op.(slot := slot.Make(), call := call.(pc := Made))
    case CallApi(failure) =>
      op.(call := call.(pc := Called(failure),
                        verdict := if failure.Some? then FromStatus(failure.value) else Success))
    case Settle =>
      op.(slot := if call.pc.Made? then slot.Answer(Success)
                  else if call.pc.failure.Some? then slot.Answer(FromStatus(call.pc.failure.value))
                  else slot.Raise(),
          call := call.(pc := Settled))
    case Unlock => op.(call := call.(pc := Waiting))
    case Handle => op.(slot := slot.Take(), call := call.(pc := Idle, finished := call.finished + 1))
    case ShutdownComplete => op.(slot := slot.Drain(Success), complete := true)
  }

  /** The call has its verdict; success comes from SHUTDOWN_COMPLETE only. */
  predicate Answered(op: Op) {
    op.slot.channel == Sent(op.call.verdict) && (op.call.verdict == Success ==> op.complete)
  }

  ghost predicate Inv(op: Op) {
    var Op(slot, call, complete) := op;
    && call.begun == call.finished + (if call.pc.Idle? then 0 else 1)
    && (slot.pending ==>
         slot.channel.Armed? && !complete && call.verdict == Success && (call.pc.Settled? || call.pc.Waiting?))
    && match call.pc
       case Idle => slot.channel.Quiet()
       case Locked => slot.channel.Quiet() && call.verdict == Success
       case Made => slot.channel.Armed? && call.verdict == Success
       case Called(failure) =>
         && slot.channel.Armed? && !complete && (failure.Some? ==> failure.value != 0)
         && call.verdict == if failure.Some? then Native(failure.value) else Success
       case Settled => slot.pending || Answered(op)
       case Waiting => slot.pending || Answered(op)
  }

  lemma StepKeepsInv(op: Op, act: Act)
    requires Inv(op) && Enabled(op, act)
    ensures Inv(Apply(op, act))
  {}

  predicate Run(op: Op, acts: seq<Act>)
    decreases acts
  {
    acts == [] || (Enabled(op, acts[0]) && Run(Apply(op, acts[0]), acts[1..]))
  }

  function After(op: Op, acts: seq<Act>): Op
    requires Run(op, acts)
    decreases acts
  {
    if acts == [] then op else After(Apply(op, acts[0]), acts[1..])
  }

  lemma {:induction false} RunKeepsInv(op: Op, acts: seq<Act>)
    requires Inv(op) && Run(op, acts)
    ensures Inv(After(op, acts))
    decreases acts
  {
    if acts != [] {
      StepKeepsInv(op, acts[0]);
      RunKeepsInv(Apply(op, acts[0]), acts[1..]);
    }
  }

  /**
   * No lost wakeup for shutdown, wherever SHUTDOWN_COMPLETE falls: the channel is
   * never misused, a shutdown is left waiting on an unsent channel only while
   * SHUTDOWN_COMPLETE is still to come, and the flag is then up to meet it. The value sent
   * is success, and SHUTDOWN_COMPLETE has been handled, or the status with which MsQuic
   * refused this very call.
   */
  lemma {:induction false} NoLostWakeup(acts: seq<Act>)
    requires Run(INIT, acts)
    ensures var op := After(INIT, acts);
      && !op.slot.channel.Broken?
      && op.call.begun == op.call.finished + (if op.call.pc.Idle? then 0 else 1)
      && (op.call.pc.Waiting? && op.complete ==> op.slot.channel == Sent(op.call.verdict))
      && (op.slot.channel == Sent(Success) ==> op.complete)
      && (op.call.pc.Called? && op.call.pc.failure.Some? ==> op.call.verdict == Native(op.call.pc.failure.value))
      && (op.call.pc.Waiting? && op.slot.channel.Sent? ==> op.slot.channel.value == op.call.verdict)
      && (op.call.pc.Waiting? && !op.slot.channel.Sent? ==> op.slot.pending && op.slot.channel.Armed?)
  {
    RunKeepsInv(INIT, acts);
  }

  /** The whole call under the lock, as one change of the slot. */
  function WholeCall(slot: Slot<Code>, complete: bool, failure: Option<int>): Slot<Code> {
    var made := slot.Make();
    if complete then made.Answer(Success)
    else if failure.Some? then made.Answer(FromStatus(failure.value))
    else made.Raise()
  }

  function ActsOf(complete: bool, failure: Option<int>): seq<Act> {
    [Lock, Make] + (if complete then [] else [CallApi(failure)]) + [Settle, Unlock]
  }

  /** The locked call is exactly its steps run without interruption. */
  lemma WholeCallIsItsSteps(op: Op, failure: Option<int>)
    requires op.call.pc.Idle? && (failure.Some? ==> failure.value != 0)
    ensures Run(op, ActsOf(op.complete, failure))
    ensures After(op, ActsOf(op.complete, failure)).slot == WholeCall(op.slot, op.complete, failure)
    ensures After(op, ActsOf(op.complete, failure)).call.pc.Waiting?
  {
    var o2 := Apply(Apply(op, Lock), Make);
    if op.complete {
      var o3 := Apply(o2, Settle);
      RunCons(o3, Unlock, []);
      RunCons(o2, Settle, [Unlock]);
      RunCons(Apply(op, Lock), Make, [Settle] + [Unlock]);
      RunCons(op, Lock, [Make] + ([Settle] + [Unlock]));
      assert ActsOf(op.complete, failure) == [Lock] + ([Make] + ([Settle] + [Unlock]));
    } else {
      var o3 := Apply(o2, CallApi(failure));
      RunCons(Apply(o3, Settle), Unlock, []);
      RunCons(o3, Settle, [Unlock]);
      RunCons(o2, CallApi(failure), [Settle] + [Unlock]);
      RunCons(Apply(op, Lock), Make, [CallApi(failure)] + ([Settle] + [Unlock]));
      RunCons(op, Lock, [Make] + ([CallApi(failure)] + ([Settle] + [Unlock])));
      assert ActsOf(op.complete, failure)
          == [Lock] + ([Make] + ([CallApi(failure)] + ([Settle] + [Unlock])));
    }
  }

  lemma RunCons(op: Op, act: Act, rest: seq<Act>)
    requires Enabled(op, act) && Run(Apply(op, act), rest)
    ensures Run(op, [act] + rest)
    ensures After(op, [act] + rest) == After(Apply(op, act), rest)
  {
    assert ([act] + rest)[1..] == rest;
  }

  /** Acts left to the call. */
  function Left(pc: Pc): nat {
    match pc
    case Idle => 0
    case Locked => 5
    case Made => 4
    case Called(_) => 3
    case Settled => 2
    case Waiting => 1
  }

  /** What the call can do next once SHUTDOWN_COMPLETE has been handled. */
  function NextAct(op: Op): Act {
    match op.call.pc
    case Idle => Lock
    case Locked => Make
    case Made => Settle
    case Called(_) => Settle
    case Settled => Unlock
    case Waiting => Handle
  }
}
