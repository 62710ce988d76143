// The three operations that touch their flag and channel without the mutex:
// stream start, stream send and client connection start. Each arms its channel,
// raises its flag and calls MsQuic; the completion callback may run at any point
// after MsQuic has taken the request, before or after the call returns.

module UnlockedCall {
  import opened Errors
  import opened OneShot

  /** Where the calling thread is. */
  datatype Pc =
    | Idle                  // no operation outstanding
    | Made                  // channel stored
    | Raised                // flag set, MsQuic not called yet
    | Accepted              // MsQuic took the request, call not returned
    | Refused(status: int)  // MsQuic returned a failure
    | Lowered(status: int)  // failure path has cleared the flag
    | Waiting               // initiation done, handler not run

  /** `verdict` is the code that the last answer to this call fixed. */
  datatype Call = Call(pc: Pc, inFlight: bool, verdict: Code, begun: nat, finished: nat)

  datatype Op = Op(slot: Slot<Code>, call: Call)

  datatype Act =
    | Make | Raise | Accept | Refuse(status: int) | Return | Lower | Fail | Handle
    | Callback(code: Code)

  const INIT := Op(Slot(false, Unset), Call(Idle, false, Success, 0, 0))

  predicate Enabled(op: Op, act: Act) {
    match act
    case Make => op.call.pc.Idle?
    case Raise => op.call.pc.Made?
    case Accept => op.call.pc.Raised?
    case Refuse(status) => op.call.pc.Raised? && status != 0
    case Return => op.call.pc.Accepted?
    case Lower => op.call.pc.Refused?
    case Fail => op.call.pc.Lowered?
    case Handle => op.call.pc.Waiting? && op.slot.channel.Sent?
    case Callback(_) => op.call.inFlight
  }

  function Apply(op: Op, act: Act): Op
    requires Enabled(op, act)
  {
    var Op(slot, call) := op;
    match act
    case Make => Op(slot.Make(), call.(pc := Made, begun := call.begun + 1))
    case Raise => Op(slot.Raise(), call.(pc := Raised))
    case Accept => Op(slot, call.(pc := Accepted, inFlight := true))
    case Refuse(status) => Op(slot, call.(pc := Refused(status), verdict := FromStatus(status)))
    case Return => Op(slot, call.(pc := Waiting))
    case Lower => Op(slot.Lower(), call.(pc := Lowered(call.pc.status)))
    case Fail => Op(slot.Answer(FromStatus(call.pc.status)), call.(pc := Waiting))
    case Handle => Op(slot.Take(), call.(pc := Idle, finished := call.finished + 1))
    case Callback(code) => Op(slot.Complete(code), call.(inFlight := false, verdict := code))
  }

  /** The flag is up: raised by the caller and not yet answered by either side. */
  predicate Unfinished(call: Call) {
    call.inFlight || call.pc.Raised? || call.pc.Refused?
  }

  ghost predicate Inv(op: Op) {
    var Op(slot, call) := op;
    && (slot.pending <==> Unfinished(call))
    && call.begun == call.finished + (if call.pc.Idle? then 0 else 1)
    && match call.pc
       case Idle => slot.channel.Quiet() && !call.inFlight
       case Made => slot.channel.Armed? && !call.inFlight
       case Raised => slot.channel.Armed? && !call.inFlight
       case Refused(status) => slot.channel.Armed? && !call.inFlight && status != 0 && call.verdict == Native(status)
       case Lowered(status) => slot.channel.Armed? && !call.inFlight && status != 0 && call.verdict == Native(status)
       case Accepted => slot.channel == if call.inFlight then Armed else Sent(call.verdict)
       case Waiting => slot.channel == if call.inFlight then Armed else Sent(call.verdict)
  }

  lemma StepKeepsInv(op: Op, act: Act)
    requires Inv(op) && Enabled(op, act)
    ensures Inv(Apply(op, act))
  {}

  predicate Run(op: Op, acts: seq<Act>)
    decreases acts
  {
    acts == [] || (Enabled(op, acts[0]) && Run(Apply(op, acts[0]), acts[1..]))
  }

  function After(op: Op, acts: seq<Act>): Op
    requires Run(op, acts)
    decreases acts
  {
    if acts == [] then op else After(Apply(op, acts[0]), acts[1..])
  }

  lemma {:induction false} RunKeepsInv(op: Op, acts: seq<Act>)
    requires Inv(op) && Run(op, acts)
    ensures Inv(After(op, acts))
    decreases acts
  {
    if acts != [] {
      StepKeepsInv(op, acts[0]);
      RunKeepsInv(Apply(op, acts[0]), acts[1..]);
    }
  }

  /**
   * No lost wakeup: in every interleaving of the caller with the completion callback
   * the channel is never misused, a callback always finds the flag raised and its
   * own channel waiting, and a call left waiting on an unsent channel still has its
   * request at MsQuic. Otherwise the value waiting is the answer to this very call.
   */
  lemma {:induction false} NoLostWakeup(acts: seq<Act>)
    requires Run(INIT, acts)
    ensures var op := After(INIT, acts);
      && !op.slot.channel.Broken?
      && op.call.begun == op.call.finished + (if op.call.pc.Idle? then 0 else 1)
      && (op.call.inFlight ==> op.slot.pending && op.slot.channel.Armed?)
      && (op.call.pc.Refused? || op.call.pc.Lowered? ==>
           op.slot.channel.Armed? && !op.call.inFlight && op.call.verdict == Native(op.call.pc.status))
      && (op.call.pc.Waiting? && !op.call.inFlight ==> op.slot.channel == Sent(op.call.verdict))
  {
    RunKeepsInv(INIT, acts);
  }

  /** Everything before the call of MsQuic. */
  function BeginCall(slot: Slot<Code>): Slot<Code> { slot.Make().Raise() }

  /** Everything after it: a refusal is answered on the spot. */
  function EndCall(slot: Slot<Code>, failure: Option<int>): Slot<Code> {
    if failure.None? then slot else slot.Complete(FromStatus(failure.value))
  }

  /** The two halves are their steps, run without interruption. */
  lemma HalvesAreTheirSteps(op: Op, failure: Option<int>)
    requires op.call.pc.Idle? && (failure.Some? ==> failure.value != 0)
    ensures var begun := Apply(Apply(op, Make), Raise);
      && begun.slot == BeginCall(op.slot)
      && var ended := if failure.None? then Apply(Apply(begun, Accept), Return)
                      else Apply(Apply(Apply(begun, Refuse(failure.value)), Lower), Fail);
         ended.slot == EndCall(BeginCall(op.slot), failure) && ended.call.pc.Waiting?
  {}

  /** Upper bound on the acts left to the call's thread. */
  function Left(pc: Pc): nat {
    match pc
    case Idle => 0
    case Made => 5
    case Raised => 4
    case Accepted => 2
    case Refused(_) => 3
    case Lowered(_) => 2
    case Waiting => 1
  }

  /** The call waits for an answer that is still MsQuic's to give. */
  predicate Held(call: Call) { call.pc.Waiting? && call.inFlight }

  /** What a call that is not held can do next; a request made late is refused. */
  function NextAct(op: Op): Act {
    match op.call.pc
    case Idle => Make
    case Made => Raise
    case Raised => Refuse(1)
    case Accepted => Return
    case Refused(_) => Lower
    case Lowered(_) => Fail
    case Waiting => Handle
  }
}
