// One-shot channels, as the three contexts use them: each channel is created by
// one side, sent on once and read once.

module Errors {
  datatype Option<+T> = None | Some(value: T)

  /** The error codes the contexts hand to completion handlers. */
  datatype Code =
    | Success
    | ConnectionAborted
    | BrokenPipe
    | ShutDown
    | Native(status: int)

  /** error_code::assign with a QUIC_STATUS: zero is the success value. */
  function FromStatus(status: int): Code {
    if status == 0 then Success else Native(status)
  }
}

module Handles {
  /** A native MsQuic handle (HQUIC). */
  type Handle = nat

  predicate Distinct(handles: seq<Handle>) {
    forall i, j :: 0 <= i < j < |handles| ==> handles[i] != handles[j]
  }
}

module OneShot {
  /**
   * The tx/rx pair of one channel slot. Every operation is total; misuse is
   * recorded in Broken, which no operation leaves:
   *  - Create over a channel that still has a waiter or an unread value,
   *  - Send on a channel that is not waiting for its value,
   *  - Take from a channel that holds none.
   * "Exactly once" is therefore the claim that no reachable channel is Broken.
   */
  datatype Channel<T> = Unset | Armed | Sent(value: T) | Taken | Broken {
    predicate Quiet() { Unset? || Taken? }

    function Create(): Channel<T> { if Quiet() then Armed else Broken }

    function Send(v: T): Channel<T> { if Armed? then Sent(v) else Broken }

    function Take(): Channel<T> { if Sent? then Taken else Broken }
  }

  datatype Use<T> = Creates | Sends(value: T) | Takes

  /** What a series of uses leaves of a slot that holds no channel yet. */
  function Used<T>(uses: seq<Use<T>>): Channel<T> {
    if uses == [] then Unset
    else
      var before := Used(uses[..|uses| - 1]);
      match uses[|uses| - 1]
      case Creates => before.Create()
      case Sends(v) => before.Send(v)
      case Takes => before.Take()
  }

  /** Created, sent on, taken, and again from the start. */
  predicate InTurn<T>(uses: seq<Use<T>>) {
    forall i :: 0 <= i < |uses| ==>
      if i % 3 == 0 then uses[i].Creates? else if i % 3 == 1 then uses[i].Sends? else uses[i].Takes?
  }

  /** A slot is Broken exactly when its channels are not each created, sent on and taken once. */
  lemma {:induction false} BrokenExactlyOutOfTurn<T>(uses: seq<Use<T>>)
    ensures Used(uses).Broken? <==> !InTurn(uses)
    ensures InTurn(uses) && uses != [] ==>
      var last := |uses| - 1;
      Used(uses) == if last % 3 == 0 then Armed else if last % 3 == 1 then Sent(uses[last].value) else Taken
  {
    if uses != [] {
      var before := uses[..|uses| - 1];
      BrokenExactlyOutOfTurn(before);
      assert InTurn(uses) ==> InTurn(before);
      assert forall i :: 0 <= i < |before| ==> before[i] == uses[i];
    }
  }

  /** A pending flag together with the channel it guards. */
  datatype Slot<T> = Slot(pending: bool, channel: Channel<T>) {
    function Make(): Slot<T> { this.(channel := channel.Create()) }

    function Raise(): Slot<T> { this.(pending := true) }

    function Lower(): Slot<T> { this.(pending := false) }

    /** Send without looking at the flag. */
    function Answer(v: T): Slot<T> { this.(channel := channel.Send(v)) }

    /** Lower the flag and send. */
    function Complete(v: T): Slot<T> { Lower().Answer(v) }

    /** `if (pending) { pending = false; tx.send(v); }` */
    function Drain(v: T): Slot<T> { if pending then Complete(v) else this }

    function Take(): Slot<T> { this.(channel := channel.Take()) }
  }
}
