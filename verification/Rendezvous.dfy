// The accept rendezvous shared by listeners and connections. async_accept works under
// the mutex; the callback drops the mutex, waits on a binary semaphore and then clears
// the flag and sends without it. Any number of callback threads may be under way.

module Rendezvous {
  import opened Errors
  import opened Handles
  import opened OneShot

  datatype Accepted = Accepted(code: Code, handle: Option<Handle>)

  /** std::binary_semaphore: releasing above one permit is undefined behaviour. */
  datatype Semaphore = Permits(count: nat) | Overflow {
    function Release(): Semaphore { if this == Permits(0) then Permits(1) else Overflow }

    function Acquire(): Semaphore
      requires Permits? && count > 0
    {
      Permits(count - 1)
    }
  }

  datatype Owner = Free | Caller | Thread(handle: Handle)

  /** Where async_accept is. */
  datatype Pc =
    | Idle      // no accept outstanding
    | Locked
    | Made      // channel stored
    | Raised    // flag set
    | Released  // semaphore released, still locked
    | Answered  // closed: channel answered at once, still locked
    | Waiting   // unlocked, handler not run

  /** Where a callback thread is. */
  datatype Back =
    | Entered   // about to lock
    | Holding   // locked
    | Queued    // unlocked, at acquire
    | Acquired
    | Cleared   // flag cleared, about to send

  datatype State = State(
    serial: bool,               // callbacks are raised one at a time, and accepts can be aborted
    slot: Slot<Accepted>,
    sem: Semaphore,
    owner: Owner,
    pc: Pc,
    threads: map<Handle, Back>, // a callback is named by the handle it delivers
    inside: Option<Handle>,     // the last thread past acquire that has not sent
    closed: bool,               // no further callbacks; accepts are refused
    aborted: bool,              // an accept was aborted while still open
    refused: bool,              // an accept handler has received an error
    offered: set<Handle>,       // every handle a callback was raised for
    delivered: seq<Handle>,     // handles that accept handlers received
    begun: nat,
    finished: nat)

  datatype Act =
    | Lock | Make | Raise | Release | AnswerLate | Unlock | Handler
    | Enter(h: Handle) | BackLock(h: Handle) | BackUnlock(h: Handle)
    | Acquire(h: Handle) | Clear(h: Handle) | Deliver(h: Handle)
    | Abort               // a pending accept is aborted, the object stays open
    | Close(code: Code)   // as Abort, and the object is closed

  function Init(serial: bool): State {
    State(serial, Slot(false, Unset), Permits(0), Free, Idle, map[], None, false, false, false, {}, [], 0, 0)
  }

  predicate At(s: State, h: Handle, back: Back) { h in s.threads && s.threads[h] == back }

  predicate Enabled(s: State, act: Act) {
    match act
    case Lock => s.pc.Idle? && s.owner.Free?
    case Make => s.pc.Locked?
    case Raise => s.pc.Made? && !s.closed
    case Release => s.pc.Raised?
    case AnswerLate => s.pc.Made? && s.closed
    case Unlock => s.pc.Released? || s.pc.Answered?
    case Handler => s.pc.Waiting? && s.slot.channel.Sent?
    case Enter(h) => !s.closed && h !in s.offered && (s.serial ==> s.threads == map[])
    case BackLock(h) => At(s, h, Entered) && s.owner.Free?
    case BackUnlock(h) => At(s, h, Holding)
    case Acquire(h) => At(s, h, Queued) && s.sem.Permits? && s.sem.count > 0
    case Clear(h) => At(s, h, Acquired)
    case Deliver(h) => At(s, h, Cleared)
    case Abort => s.serial && s.owner.Free? && s.threads == map[] && !s.closed
    case Close(code) => s.owner.Free? && s.threads == map[] && !s.closed && code != Success
  }

  const REFUSED := Accepted(ConnectionAborted, None)

  function Apply(s: State, act: Act): State
    requires Enabled(s, act)
  {
    match act
    case Lock => s.(owner := Caller, pc := Locked, begun := s.begun + 1)
    case Make => s.(slot := s.slot.Make(), pc := Made)
    case Raise => s.(slot := s.slot.Raise(), pc := Raised)
    case Release => s.(sem := s.sem.Release(), pc := Released)
    case AnswerLate => s.(slot := s.slot.Answer(REFUSED), pc := Answered)
    case Unlock => s.(owner := Free, pc := Waiting)
    case Handler =>
      var got := s.slot.channel.value.handle;
      s.(slot := s.slot.Take(), pc := Idle, finished := s.finished + 1, refused := s.refused || got.None?,
         delivered := if got.Some? then s.delivered + [got.value] else s.delivered)
    case Enter(h) => s.(threads := s.threads[h := Entered], offered := s.offered + {h})
    case BackLock(h) => s.(threads := s.threads[h := Holding], owner := Thread(h))
    case BackUnlock(h) => s.(threads := s.threads[h := Queued], owner := Free)
    case Acquire(h) => s.(threads := s.threads[h := Acquired], sem := s.sem.Acquire(), inside := Some(h))
    case Clear(h) => s.(threads := s.threads[h := Cleared], slot := s.slot.Lower())
    case Deliver(h) =>
      s.(threads := s.threads - {h}, slot := s.slot.Answer(Accepted(Success, Some(h))), inside := None)
    case Abort => s.(slot := s.slot.Drain(REFUSED), aborted := s.aborted || s.slot.pending)
    case Close(code) => s.(slot := s.slot.Drain(Accepted(code, None)), closed := true)
  }

  /**
   * Where the code goes wrong: the semaphore is released above one permit, or the assert that
   * the callback makes after acquire, without the lock, finds the flag down. The assert is
   * part of Clear: from one to the other nobody else lowers the flag.
   */
  predicate Wrong(s: State, act: Act) {
    (act.Release? && s.sem != Permits(0)) || (act.Clear? && !s.slot.pending)
  }

  // ----- the invariant

  /**
   * A permit that no accept stands behind is under way. A caller sees it coming
   * (AbortedIsSeen): an accept has completed with an error and the object is not closed yet.
   */
  predicate Stale(s: State) { s.aborted && !s.closed }

  predicate Past(back: Back) { back.Acquired? || back.Cleared? }

  ghost predicate LockInv(s: State) {
    && (s.owner.Caller? <==> !s.pc.Idle? && !s.pc.Waiting?)
    && (forall h :: h in s.threads ==> (s.threads[h].Holding? <==> s.owner == Thread(h)))
    && (s.owner.Thread? ==> s.owner.handle in s.threads)
  }

  ghost predicate InsideInv(s: State) {
    && (forall h :: h in s.threads ==> (Past(s.threads[h]) <==> s.inside == Some(h)))
    && (s.inside.Some? ==> s.inside.value in s.threads)
    && (s.closed ==> s.threads == map[])
    && (s.serial ==> forall h, k :: h in s.threads && k in s.threads ==> h == k)
    && (s.aborted ==> s.serial)
  }

  function One(b: bool): nat { if b then 1 else 0 }

  /** A callback is past acquire and has not cleared the flag. */
  predicate HasPermit(s: State) { s.inside.Some? && At(s, s.inside.value, Acquired) }

  /** A callback has cleared the flag and is about to send. */
  predicate Serving(s: State) { s.inside.Some? && At(s, s.inside.value, Cleared) }

  /**
   * Until the object is closed, the permits in the semaphore, with a callback or about to be
   * released are one for a pending accept and one more once an accept has been aborted.
   */
  predicate Balanced(s: State) {
    && s.sem.Permits? && s.sem.count <= 1
    && (!s.closed ==>
         s.sem.count + One(HasPermit(s)) + One(s.pc.Raised?) == One(s.slot.pending) + One(s.aborted))
  }

  predicate SentWell(channel: Channel<Accepted>) {
    channel.Sent? && (channel.value.code == Success <==> channel.value.handle.Some?)
  }

  predicate NoneOut(s: State) { !s.slot.pending && !Serving(s) }

  /** An accept is out: its flag is up, or a callback is about to send. */
  predicate OneOut(s: State) {
    !s.closed && s.slot.channel.Armed? && (s.slot.pending <==> !Serving(s))
  }

  ghost predicate SlotInv(s: State) {
    match s.pc
    case Idle => NoneOut(s) && s.slot.channel.Quiet()
    case Locked => NoneOut(s) && s.slot.channel.Quiet()
    case Made => NoneOut(s) && s.slot.channel.Armed?
    case Raised => !s.closed && (OneOut(s) || (NoneOut(s) && SentWell(s.slot.channel)))
    case Answered => NoneOut(s) && s.closed && SentWell(s.slot.channel)
    case Released => OneOut(s) || (NoneOut(s) && SentWell(s.slot.channel))
    case Waiting => OneOut(s) || (NoneOut(s) && SentWell(s.slot.channel))
  }

  function Carried(channel: Channel<Accepted>): set<Handle> {
    if channel.Sent? && channel.value.handle.Some? then {channel.value.handle.value} else {}
  }

  function Elements(handles: seq<Handle>): set<Handle> { set h | h in handles }

  /** Every offered handle is in flight, in the channel or delivered: once, and in one place. */
  ghost predicate Conserved(s: State) {
    && s.offered == s.threads.Keys + Carried(s.slot.channel) + Elements(s.delivered)
    && s.threads.Keys !! Carried(s.slot.channel) !! Elements(s.delivered)
    && Distinct(s.delivered)
  }

  /** While open, an abort is what makes an accept fail. */
  predicate SeenInv(s: State) {
    !s.closed ==> (s.aborted <==> s.refused || (s.slot.channel.Sent? && s.slot.channel.value.handle.None?))
  }

  /** Every accept is finished or outstanding. */
  predicate CountInv(s: State) { s.begun == s.finished + (if s.pc.Idle? then 0 else 1) }

  ghost predicate Inv(s: State) {
    && LockInv(s) && InsideInv(s) && Balanced(s) && SlotInv(s) && Conserved(s) && SeenInv(s) && CountInv(s)
  }

  lemma StepKeepsInv(s: State, act: Act)
    requires Inv(s) && Enabled(s, act) && !Wrong(s, act)
    ensures Inv(Apply(s, act))
  {
    StepKeepsLock(s, act);
    StepKeepsInside(s, act);
    StepKeepsBalance(s, act);
    StepKeepsSlot(s, act);
    StepConserves(s, act);
    StepKeepsSeen(s, act);
  }

  lemma StepKeepsSeen(s: State, act: Act)
    requires Inv(s) && Enabled(s, act) && !Wrong(s, act)
    ensures SeenInv(Apply(s, act)) && CountInv(Apply(s, act))
  {}

  lemma StepKeepsLock(s: State, act: Act)
    requires Inv(s) && Enabled(s, act)
    ensures LockInv(Apply(s, act))
  {}

  lemma StepKeepsInside(s: State, act: Act)
    requires Inv(s) && Enabled(s, act) && !Wrong(s, act)
    ensures InsideInv(Apply(s, act))
  {
    if act.Deliver? {
      assert Past(s.threads[act.h]);
    }
  }

  lemma StepKeepsBalance(s: State, act: Act)
    requires Inv(s) && Enabled(s, act) && !Wrong(s, act)
    ensures Balanced(Apply(s, act))
  {
    if act.Clear? || act.Deliver? {
      assert Past(s.threads[act.h]);
    }
  }

  lemma StepKeepsSlot(s: State, act: Act)
    requires Inv(s) && Enabled(s, act) && !Wrong(s, act)
    ensures SlotInv(Apply(s, act))
  {
    if act.Clear? || act.Deliver? {
      assert Past(s.threads[act.h]);
    }
  }

  lemma HandlerConserves(s: State)
    requires Inv(s) && Enabled(s, Handler)
    ensures Conserved(Apply(s, Handler))
  {
    var got := s.slot.channel.value.handle;
    if got.Some? {
      assert Elements(Apply(s, Handler).delivered) == Elements(s.delivered) + {got.value};
    }
  }

  lemma DeliverConserves(s: State, h: Handle)
    requires Inv(s) && Enabled(s, Deliver(h))
    ensures Conserved(Apply(s, Deliver(h)))
  {
    assert Past(s.threads[h]);
    assert Apply(s, Deliver(h)).threads.Keys == s.threads.Keys - {h};
  }

  lemma StepConserves(s: State, act: Act)
    requires Inv(s) && Enabled(s, act) && !Wrong(s, act)
    ensures Conserved(Apply(s, act))
  {
    match act
    case Handler => HandlerConserves(s);
    case Deliver(h) => DeliverConserves(s, h);
    case _ => assert Apply(s, act).delivered == s.delivered;
  }

  // ----- runs

  predicate Run(s: State, acts: seq<Act>)
    decreases acts
  {
    acts == [] || (Enabled(s, acts[0]) && Run(Apply(s, acts[0]), acts[1..]))
  }

  function After(s: State, acts: seq<Act>): State
    requires Run(s, acts)
    decreases acts
  {
    if acts == [] then s else After(Apply(s, acts[0]), acts[1..])
  }

  /** No act of the run goes wrong. */
  predicate GoesRight(s: State, acts: seq<Act>)
    requires Run(s, acts)
    decreases acts
  {
    acts == [] || (!Wrong(s, acts[0]) && GoesRight(Apply(s, acts[0]), acts[1..]))
  }

  lemma {:induction false} RunKeepsInv(s: State, acts: seq<Act>)
    requires Inv(s) && Run(s, acts) && GoesRight(s, acts)
    ensures Inv(After(s, acts))
    decreases acts
  {
    if acts != [] {
      StepKeepsInv(s, acts[0]);
      RunKeepsInv(Apply(s, acts[0]), acts[1..]);
    }
  }

  lemma RunCons(s: State, act: Act, rest: seq<Act>)
    requires Enabled(s, act) && Run(Apply(s, act), rest)
    ensures Run(s, [act] + rest)
    ensures After(s, [act] + rest) == After(Apply(s, act), rest)
    ensures GoesRight(s, [act] + rest) <==> !Wrong(s, act) && GoesRight(Apply(s, act), rest)
  {
    assert ([act] + rest)[1..] == rest;
  }

  /** Callback threads between acquire and send. */
  function PastThreads(s: State): set<Handle> { set h | h in s.threads && Past(s.threads[h]) }

  lemma PermitsAndThreads(s: State)
    requires Inv(s)
    ensures s.sem.Permits? && s.sem.count <= 1 && |PastThreads(s)| <= 1
    ensures s.sem.count + |PastThreads(s)| <= 1 + One(Stale(s))
  {
    if s.inside.Some? {
      assert PastThreads(s) == {s.inside.value};
      assert HasPermit(s) || Serving(s);
    } else {
      assert PastThreads(s) == {};
    }
  }

  /** With no stale permit the assert holds, and the channel a thread sends on waits for it. */
  lemma FlagAndChannel(s: State)
    requires Inv(s)
    ensures s.sem.Permits? && s.sem.count <= 1
    ensures forall h :: At(s, h, Acquired) && !Stale(s) ==> s.slot.pending && s.slot.channel.Armed?
    ensures forall h :: At(s, h, Cleared) ==> !s.slot.pending && s.slot.channel.Armed?
    ensures !s.slot.channel.Broken? && (s.slot.pending ==> s.slot.channel.Armed?)
  {}

  /** A successful handler call and a delivered handle are the same thing. */
  lemma HandlerDelivers(s: State)
    requires Inv(s) && Enabled(s, Handler)
    ensures var s' := Apply(s, Handler);
      var got := s.slot.channel.value;
      if got.code == Success
      then got.handle.Some? && got.handle.value in s.offered && got.handle.value !in s.delivered
           && s'.delivered == s.delivered + [got.handle.value]
      else s'.delivered == s.delivered
  {
    if s.slot.channel.value.handle.Some? {
      var h := s.slot.channel.value.handle.value;
      assert h in Carried(s.slot.channel);
      assert h !in Elements(s.delivered);
    }
  }

  /** Nothing is lost: with no callback under way and nothing unread, all was delivered. */
  lemma QuietMeansAllDelivered(s: State)
    requires Inv(s) && s.threads == map[] && (s.pc.Idle? || s.slot.channel.Armed?)
    ensures Elements(s.delivered) == s.offered && |s.delivered| == |s.offered|
  {
    DistinctCount(s.delivered);
  }

  lemma {:induction false} DistinctCount(handles: seq<Handle>)
    requires Distinct(handles)
    ensures |Elements(handles)| == |handles|
  {
    if handles != [] {
      var last := |handles| - 1;
      DistinctCount(handles[..last]);
      assert Elements(handles) == Elements(handles[..last]) + {handles[last]};
      assert handles[last] !in Elements(handles[..last]);
    }
  }

  /** The answer that an act brings to the outstanding accept. */
  function Answer(s: State, act: Act): Option<Accepted> {
    match act
    case Deliver(h) => Some(Accepted(Success, Some(h)))
    case AnswerLate => Some(Accepted(ConnectionAborted, None))
    case Abort => if s.slot.pending then Some(Accepted(ConnectionAborted, None)) else None
    case Close(code) => if s.slot.pending then Some(Accepted(code, None)) else None
    case _ => None
  }

  /** Its channel gets exactly that answer; otherwise only its own call and handler touch it. */
  lemma StepAnswers(s: State, act: Act)
    requires Inv(s) && Enabled(s, act)
    ensures Apply(s, act).slot.channel ==
      if Answer(s, act).Some? then Sent(Answer(s, act).value)
      else if act.Make? then Armed
      else if act.Handler? then Taken
      else s.slot.channel
    ensures Answer(s, act).Some? ==> s.slot.channel.Armed? && !s.pc.Idle? && !Apply(s, act).slot.pending
  {}

  // ----- exactly when the semaphore and the unlocked assert are safe

  /** An accept call, all of it, in a state where it can begin. */
  function AcceptActs(closed: bool): seq<Act> {
    [Lock, Make] + (if closed then [AnswerLate] else [Raise, Release]) + [Unlock]
  }

  /** What a whole accept call does to the flag, the channel and the semaphore. */
  function AcceptCall(slot: Slot<Accepted>, sem: Semaphore, closed: bool): (Slot<Accepted>, Semaphore) {
    if closed then (slot.Make().Answer(REFUSED), sem) else (slot.Make().Raise(), sem.Release())
  }

  /** What the callback does to them once it has its permit. */
  function DeliverCall(slot: Slot<Accepted>, sem: Semaphore, h: Handle): (Slot<Accepted>, Semaphore)
    requires sem.Permits? && sem.count > 0
  {
    (slot.Complete(Accepted(Success, Some(h))), sem.Acquire())
  }

  /** The second half of a call, once its channel is made. */
  lemma MadeCallIsItsSteps(s: State)
    requires s.pc.Made?
    ensures var rest := (if s.closed then [AnswerLate] else [Raise, Release]) + [Unlock];
      && Run(s, rest)
      && After(s, rest) == s.(slot := if s.closed then s.slot.Answer(REFUSED) else s.slot.Raise(),
                              sem := if s.closed then s.sem else s.sem.Release(), pc := Waiting, owner := Free)
      && (GoesRight(s, rest) <==> s.closed || s.sem == Permits(0))
  {
    if s.closed {
      RunCons(Apply(s, AnswerLate), Unlock, []);
      RunCons(s, AnswerLate, [Unlock]);
    } else {
      var raised := Apply(s, Raise);
      RunCons(Apply(raised, Release), Unlock, []);
      RunCons(raised, Release, [Unlock]);
      RunCons(s, Raise, [Release] + [Unlock]);
      assert [Raise, Release] + [Unlock] == [Raise] + ([Release] + [Unlock]);
    }
  }

  /** The call is its steps, run without interruption, which go right unless it overflows. */
  lemma AcceptCallIsItsSteps(s: State)
    requires Enabled(s, Lock) && s.sem.Permits?
    ensures Run(s, AcceptActs(s.closed))
    ensures var call := AcceptCall(s.slot, s.sem, s.closed);
      && After(s, AcceptActs(s.closed)) == s.(slot := call.0, sem := call.1, pc := Waiting, begun := s.begun + 1)
      && (GoesRight(s, AcceptActs(s.closed)) <==> !call.1.Overflow?)
  {
    var made := Apply(Apply(s, Lock), Make);
    var rest := (if s.closed then [AnswerLate] else [Raise, Release]) + [Unlock];
    MadeCallIsItsSteps(made);
    RunCons(Apply(s, Lock), Make, rest);
    RunCons(s, Lock, [Make] + rest);
    assert AcceptActs(s.closed) == [Lock] + ([Make] + rest);
  }

  /** Uninterrupted, it overflows exactly on a stale permit that no callback has taken. */
  lemma CallOverflowsExactlyWhenStale(s: State)
    requires Inv(s) && s.pc.Idle?
    ensures AcceptCall(s.slot, s.sem, s.closed).1.Overflow? <==> Stale(s) && !HasPermit(s)
  {}

  /** The callback's delivery is its steps, run without interruption; and when it goes wrong. */
  lemma DeliverCallIsItsSteps(s: State, h: Handle)
    requires Enabled(s, Acquire(h))
    ensures Run(s, [Acquire(h), Clear(h), Deliver(h)])
    ensures var s' := After(s, [Acquire(h), Clear(h), Deliver(h)]);
      (s'.slot, s'.sem) == DeliverCall(s.slot, s.sem, h)
    ensures GoesRight(s, [Acquire(h), Clear(h), Deliver(h)]) <==> s.slot.pending
  {
    var s1 := Apply(s, Acquire(h));
    var s2 := Apply(s1, Clear(h));
    RunCons(s2, Deliver(h), []);
    RunCons(s1, Clear(h), [Deliver(h)]);
    RunCons(s, Acquire(h), [Clear(h)] + [Deliver(h)]);
    assert [Acquire(h), Clear(h), Deliver(h)] == [Acquire(h)] + ([Clear(h)] + [Deliver(h)]);
  }

  /**
   * A release overflows exactly when an aborted accept has left its permit behind and no
   * callback has taken it for the accept that is being made; the assert fails exactly when a
   * callback has taken it and there is no accept for it, not raised yet or served already.
   */
  lemma WrongExactlyWhenStale(s: State, act: Act)
    requires Inv(s) && Enabled(s, act)
    ensures Wrong(s, act) <==>
      Stale(s) && match act
                  case Release => s.inside.None? && s.slot.channel.Armed?
                  case Clear(_) => s.pc.Idle? || s.pc.Locked? || s.pc.Made? || s.slot.channel.Sent?
                  case _ => false
  {
    if act.Clear? {
      assert Past(s.threads[act.h]);
    }
  }

  /** So on a stale permit no accept gets past its release before a callback takes the permit. */
  lemma {:induction false} StalePermitIsInTheWay(s: State, acts: seq<Act>)
    requires Inv(s) && Stale(s) && s.sem == Permits(1) && Run(s, acts) && GoesRight(s, acts)
    requires forall i :: 0 <= i < |acts| ==> !acts[i].Acquire? && !acts[i].Close?
    ensures forall i :: 0 <= i < |acts| ==> !acts[i].Release?
    decreases acts
  {
    if acts != [] {
      StepKeepsInv(s, acts[0]);
      StalePermitIsInTheWay(Apply(s, acts[0]), acts[1..]);
      forall i | 0 <= i < |acts| ensures !acts[i].Release? {
        assert i > 0 ==> acts[i] == acts[1..][i - 1];
      }
    }
  }

  /** An accept that goes right on a stale permit: a callback has claimed the permit before. */
  function ClaimedAccept(h: Handle): seq<Act> {
    [Acquire(h), Lock, Make, Raise] + [Clear(h), Deliver(h), Release, Unlock]
  }

  lemma ClaimedAcceptGoesRight(s: State, h: Handle)
    requires Inv(s) && Stale(s) && s.pc.Idle? && s.owner.Free? && At(s, h, Queued)
    ensures Run(s, ClaimedAccept(h)) && GoesRight(s, ClaimedAccept(h))
    ensures var s' := After(s, ClaimedAccept(h));
      && s'.pc.Waiting? && s'.slot == Slot(false, Sent(Accepted(Success, Some(h)))) && s'.sem == Permits(1)
      && s'.aborted == s.aborted && s'.closed == s.closed
  {
    assert s.sem == Permits(1);
    var s1 := Apply(s, Acquire(h));
    var s2 := Apply(s1, Lock);
    var s3 := Apply(s2, Make);
    RunCons(s3, Raise, []);
    RunCons(s2, Make, [Raise]);
    RunCons(s1, Lock, [Make, Raise]);
    RunCons(s, Acquire(h), [Lock, Make, Raise]);
    ClaimedEnd(Apply(s3, Raise), h);
    RunConcat(s, [Acquire(h), Lock, Make, Raise], [Clear(h), Deliver(h), Release, Unlock]);
  }

  lemma ClaimedEnd(s: State, h: Handle)
    requires s.pc.Raised? && s.slot == Slot(true, Armed) && s.sem == Permits(0) && At(s, h, Acquired)
    ensures var acts := [Clear(h), Deliver(h), Release, Unlock];
      && Run(s, acts) && GoesRight(s, acts)
      && var s' := After(s, acts);
         && s'.pc.Waiting? && s'.slot == Slot(false, Sent(Accepted(Success, Some(h)))) && s'.sem == Permits(1)
         && s'.aborted == s.aborted && s'.closed == s.closed
  {
    var s1 := Apply(s, Clear(h));
    var s2 := Apply(s1, Deliver(h));
    var s3 := Apply(s2, Release);
    RunCons(s3, Unlock, []);
    RunCons(s2, Release, [Unlock]);
    RunCons(s1, Deliver(h), [Release, Unlock]);
    RunCons(s, Clear(h), [Deliver(h), Release, Unlock]);
  }

  lemma {:induction false} RunConcat(s: State, acts: seq<Act>, more: seq<Act>)
    requires Run(s, acts) && Run(After(s, acts), more)
    ensures Run(s, acts + more) && After(s, acts + more) == After(After(s, acts), more)
    ensures GoesRight(s, acts + more) <==> GoesRight(s, acts) && GoesRight(After(s, acts), more)
    decreases acts
  {
    if acts == [] {
      assert acts + more == more;
    } else {
      RunConcat(Apply(s, acts[0]), acts[1..], more);
      assert (acts + more)[1..] == acts[1..] + more;
    }
  }

  // ----- blocking and progress

  /** Nobody waits on the semaphore while holding the mutex, and whoever holds it can go on. */
  lemma LockHolderNeverBlocks(s: State)
    requires Inv(s)
    ensures forall h :: At(s, h, Queued) ==> s.owner != Thread(h)
    ensures s.owner.Thread? ==> Enabled(s, BackUnlock(s.owner.handle))
    ensures s.owner.Caller? ==>
      Enabled(s, Make) || Enabled(s, Raise) || Enabled(s, Release) || Enabled(s, AnswerLate) || Enabled(s, Unlock)
  {}

  predicate CanStep(s: State, h: Handle) {
    || Enabled(s, BackLock(h)) || Enabled(s, BackUnlock(h)) || Enabled(s, Acquire(h))
    || Enabled(s, Clear(h)) || Enabled(s, Deliver(h))
  }

  /**
   * With the mutex free, a callback is blocked exactly when it is at acquire and there is
   * no permit; and then no accept is out for it: either none is outstanding, or another
   * thread is serving it, or its value is already in the channel.
   */
  lemma BlockedExactly(s: State, h: Handle)
    requires Inv(s) && s.owner.Free? && h in s.threads
    ensures !CanStep(s, h) <==> At(s, h, Queued) && s.sem == Permits(0)
    ensures !CanStep(s, h) ==> s.pc.Idle? || s.inside.Some? || s.slot.channel.Sent?
  {
    assert s.threads[h].Holding? ==> s.owner == Thread(h);
  }

  /** The acts that carry one accept from its call to its handler. */
  predicate Pipeline(act: Act) {
    act.Make? || act.Raise? || act.Release? || act.Unlock? || act.Acquire? || act.Clear? || act.Deliver? || act.Handler?
  }

  /** Pipeline acts still to come for the outstanding accept. */
  function Rank(s: State): nat {
    (match s.pc
     case Idle => 0
     case Locked => 4
     case Made => 3
     case Raised => 2
     case Released => 1
     case Answered => 1
     case Waiting => 0)
    + (if s.pc.Idle? then 0
       else if s.slot.channel.Sent? then 1
       else if s.inside.None? then 4
       else if s.inside.value in s.threads && s.threads[s.inside.value].Acquired? then 3
       else 2)
  }

  /** An accept is outstanding and bound to get a handle. */
  ghost predicate OnTheWay(s: State) {
    && !s.pc.Idle? && !Stale(s)
    && ( || (s.slot.channel.Sent? && s.slot.channel.value.code == Success)
         || (!s.slot.channel.Sent? && !s.closed
             && exists h :: h in s.threads && (s.threads[h].Queued? || Past(s.threads[h]))))
  }

  /** Some pipeline act is always possible, so progress never waits for a lock. */
  lemma OnTheWayCanStep(s: State)
    requires Inv(s) && OnTheWay(s)
    ensures Rank(s) > 0
    ensures exists act :: Pipeline(act) && Enabled(s, act) && !Wrong(s, act)
  {
    if s.pc.Waiting? && !s.slot.channel.Sent? {
      var h :| h in s.threads && (s.threads[h].Queued? || Past(s.threads[h]));
      if s.inside.Some? {
        var i := s.inside.value;
        assert Past(s.threads[i]);
        assert Enabled(s, Clear(i)) || Enabled(s, Deliver(i));
      } else {
        assert Enabled(s, Acquire(h));
      }
    } else {
      assert Enabled(s, Make) || Enabled(s, Raise) || Enabled(s, Release) || Enabled(s, Unlock) || Enabled(s, Handler);
    }
  }

  lemma StaysOnTheWay(s: State, act: Act)
    requires Inv(s) && OnTheWay(s) && Enabled(s, act) && !Wrong(s, act) && !act.Handler?
    ensures OnTheWay(Apply(s, act)) && Apply(s, act).delivered == s.delivered
  {
    var s' := Apply(s, act);
    if !s.slot.channel.Sent? {
      var h :| h in s.threads && (s.threads[h].Queued? || Past(s.threads[h]));
      assert s.threads != map[];
      if !act.Deliver? {
        assert h in s'.threads && (s'.threads[h].Queued? || Past(s'.threads[h]));
      }
    }
  }

  lemma RankFalls(s: State, act: Act)
    requires Inv(s) && OnTheWay(s) && Enabled(s, act) && !Wrong(s, act)
    ensures Rank(s) == Rank(Apply(s, act)) + (if Pipeline(act) then 1 else 0)
  {
    if act.Abort? || act.Close? {
      assert s.threads == map[];
    }
  }

  /** Each pipeline act takes one off the rank, no other act touches it. */
  lemma RankCountsDown(s: State, act: Act)
    requires Inv(s) && OnTheWay(s) && Enabled(s, act) && !Wrong(s, act)
    ensures var s' := Apply(s, act);
      && Rank(s) == Rank(s') + (if Pipeline(act) then 1 else 0)
      && (if act.Handler? then Rank(s') == 0 && |s'.delivered| == |s.delivered| + 1
          else OnTheWay(s') && s'.delivered == s.delivered)
  {
    RankFalls(s, act);
    if !act.Handler? {
      StaysOnTheWay(s, act);
    }
  }

  function PipelineActs(acts: seq<Act>): nat {
    if acts == [] then 0 else (if Pipeline(acts[0]) then 1 else 0) + PipelineActs(acts[1..])
  }

  /**
   * Whatever the schedule, a blocked callback and one outstanding accept meet: a run
   * leaves the accept on its way until Rank pipeline acts have been taken, and the last
   * of them hands over exactly one handle.
   */
  lemma {:induction false} EveryScheduleDelivers(s: State, acts: seq<Act>)
    requires Inv(s) && OnTheWay(s) && Run(s, acts)
    requires PipelineActs(acts) <= Rank(s)
    ensures var s' := After(s, acts);
      if PipelineActs(acts) < Rank(s) then Inv(s') && OnTheWay(s') && s'.delivered == s.delivered
      else |s'.delivered| == |s.delivered| + 1 && s'.finished == s.finished + 1
    decreases acts
  {
    if acts != [] {
      var s1 := Apply(s, acts[0]);
      WrongExactlyWhenStale(s, acts[0]);
      StepKeepsInv(s, acts[0]);
      RankCountsDown(s, acts[0]);
      if acts[0].Handler? {
        NoPipelineLeft(s1, acts[1..]);
      } else {
        FinishedOnlyByHandler(s, acts[0]);
        EveryScheduleDelivers(s1, acts[1..]);
      }
    } else {
      OnTheWayCanStep(s);
    }
  }

  lemma FinishedOnlyByHandler(s: State, act: Act)
    requires Enabled(s, act) && !act.Handler?
    ensures Apply(s, act).finished == s.finished && Apply(s, act).delivered == s.delivered
  {}

  lemma {:induction false} NoPipelineLeft(s: State, acts: seq<Act>)
    requires Run(s, acts) && PipelineActs(acts) == 0
    ensures After(s, acts).delivered == s.delivered && After(s, acts).finished == s.finished
    decreases acts
  {
    if acts != [] {
      FinishedOnlyByHandler(s, acts[0]);
      NoPipelineLeft(Apply(s, acts[0]), acts[1..]);
    }
  }

  /** A blocked callback becomes part of the way as soon as async_accept takes the lock. */
  lemma AcceptUnblocks(s: State, h: Handle)
    requires Inv(s) && At(s, h, Queued) && s.pc.Idle? && s.owner.Free? && !Stale(s)
    ensures Enabled(s, Lock) && OnTheWay(Apply(s, Lock)) && Rank(Apply(s, Lock)) == 8
  {
    assert At(Apply(s, Lock), h, Queued);
  }

  /** Aborting a pending accept leaves its permit behind, and the next accept overflows. */
  lemma AbortStrandsPermit(s: State)
    requires Inv(s) && Enabled(s, Abort) && s.slot.pending
    ensures var s' := Apply(s, Abort);
      && Stale(s') && s'.slot == Slot(false, Sent(REFUSED)) && Enabled(s', Handler)
      && var next := Apply(s', Handler);
         Run(next, AcceptActs(false)) && After(next, AcceptActs(false)).sem.Overflow?
  {
    var s' := Apply(s, Abort);
    StepKeepsInv(s, Abort);
    StepKeepsInv(s', Handler);
    AcceptCallIsItsSteps(Apply(s', Handler));
  }

  /** With no accept outstanding, a stale permit shows: some handler has had an error. */
  lemma AbortedIsSeen(s: State)
    requires Inv(s) && s.pc.Idle?
    ensures Stale(s) <==> s.refused && !s.closed
  {}

  /** The first accept, waiting. */
  const ACCEPTING := Init(true).(slot := Slot(true, Armed), sem := Permits(1), pc := Waiting, begun := 1)

  /** It does happen: one accept, then a shutdown event. */
  lemma AbortIsReachable()
    ensures Run(Init(true), AcceptActs(false)) && After(Init(true), AcceptActs(false)) == ACCEPTING
    ensures Enabled(ACCEPTING, Abort) && ACCEPTING.slot.pending
  {
    AcceptCallIsItsSteps(Init(true));
  }

  /** Acts left to an accept once the object is closed. */
  function Left(pc: Pc): nat {
    match pc
    case Idle => 0
    case Locked => 4
    case Made => 3
    case Raised => 4
    case Released => 2
    case Answered => 2
    case Waiting => 1
  }

  /** What an accept can do next once the object is closed. */
  function NextAct(pc: Pc): Act {
    match pc
    case Idle => Lock
    case Locked => Make
    case Made => AnswerLate
    case Raised => Release
    case Released => Unlock
    case Answered => Unlock
    case Waiting => Handler
  }

  /** Once closed, an outstanding accept can always go on, and only towards its handler. */
  lemma ClosedAcceptFinishes(s: State, act: Act)
    requires Inv(s) && s.closed
    ensures !s.pc.Idle? ==> Enabled(s, NextAct(s.pc)) && !NextAct(s.pc).Lock?
    ensures Enabled(s, act) && !act.Lock? ==> Left(Apply(s, act).pc) < Left(s.pc) && Apply(s, act).closed
    ensures s.pc.Idle? <==> s.begun == s.finished
  {}
}
