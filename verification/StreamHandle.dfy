// basic_stream_handle and its context, as the objects the library allocates. Every
// method is proved against the function of StreamProtocol that the runs of StreamSystem
// are made of. async_start and async_send call MsQuic without the lock, so a callback
// may run inside that call: each is split there, into Begin and End.

module StreamHandle {
  import opened Errors
  import opened OneShot
  import opened Buffers
  import opened StreamProtocol
  import ReceiveCopy
  import SendLength
  import UnlockedCall

  class StreamContext {
    var state: Phase
    var pendingStart: bool
    var pendingSend: bool
    var pendingReceiveFrontend: bool
    var pendingReceiveBackend: bool
    var pendingShutdown: bool
    var startComplete: Channel<Code>
    var sendComplete: Channel<Code>
    var received: Channel<Received>
    var shutdownComplete: Channel<Code>

    constructor ()
      ensures View() == StreamProtocol.INIT
    {
      state := Ok;
      pendingStart, pendingSend, pendingShutdown := false, false, false;
      pendingReceiveFrontend, pendingReceiveBackend := false, false;
      startComplete, sendComplete, shutdownComplete := Unset, Unset, Unset;
      received := Unset;
    }

    ghost function View(): Context
      reads this
    {
      Context(state, Slot(pendingStart, startComplete), Slot(pendingSend, sendComplete),
              pendingReceiveFrontend, pendingReceiveBackend, received,
              Slot(pendingShutdown, shutdownComplete))
    }

    /** AsioServerStreamCallback; `retained` stands for QUIC_STATUS_PENDING. */
    method Callback(event: Event) returns (retained: bool)
      modifies this
      ensures View() == OnEvent(old(View()), event)
      ensures retained <==> event.Receive?
    {
      retained := false;
      match event {
        case StartComplete(status) =>
          pendingStart := false;
          startComplete := startComplete.Send(FromStatus(status));
        case SendComplete =>
          pendingSend := false;
          sendComplete := sendComplete.Send(Success);
        case Receive(eventBuffers) =>
          if pendingReceiveFrontend {
            pendingReceiveFrontend := false;
          } else {
            pendingReceiveBackend := true;
            received := received.Create();
          }
          var buffs: seq<seq<Byte>> := [];
          for i := 0 to |eventBuffers|
            invariant buffs == eventBuffers[..i]
          {
            buffs := buffs + [eventBuffers[i]];
          }
          assert eventBuffers[..|eventBuffers|] == eventBuffers;
          received := received.Send(Received(Success, buffs));
          retained := true;
        case PeerSendShutdown =>
          state := PeerShutdown;
          EndWaitingReceive(Success);
        case PeerSendAborted =>
          state := PeerAbort;
          EndWaitingReceive(ConnectionAborted);
        case ShutdownComplete =>
          state := Complete;
          EndWaitingReceive(BrokenPipe);
          if pendingShutdown {
            pendingShutdown := false;
            shutdownComplete := shutdownComplete.Send(Success);
          }
        case Ignored =>
      }
    }

    method EndWaitingReceive(code: Code)
      modifies this
      ensures View() == EndReceive(old(View()), code)
    {
      if pendingReceiveFrontend {
        pendingReceiveFrontend := false;
        received := received.Send(Received(code, []));
      }
    }
  }

  /** The part of MsQuic that the receive handler drives. */
  class StreamApi {
    var acknowledged: nat

    method StreamReceiveComplete(len: nat)
      modifies this
      ensures acknowledged == old(acknowledged) + len
    {
      acknowledged := acknowledged + len;
    }
  }

  class BasicStreamHandle {
    const ctx: StreamContext
    const api: StreamApi

    constructor (api: StreamApi)
      ensures this.api == api && fresh(ctx) && ctx.View() == StreamProtocol.INIT
    {
      this.api := api;
      ctx := new StreamContext();
    }

    /** async_start up to the call of StreamStart. */
    method BeginStart()
      modifies ctx
      ensures ctx.View() == old(ctx.View()).(start := UnlockedCall.BeginCall(old(ctx.View()).start))
    {
      ctx.startComplete := ctx.startComplete.Create();
      ctx.pendingStart := true;
    }

    /** async_start after StreamStart returned; `failure` is a failing status. */
    method EndStart(failure: Option<int>)
      modifies ctx
      ensures ctx.View() == old(ctx.View()).(start := UnlockedCall.EndCall(old(ctx.View()).start, failure))
      ensures failure.Some? && failure.value != 0 && old(ctx.startComplete).Armed? ==>
        ctx.startComplete == Sent(Native(failure.value))
    {
      if failure.Some? {
        ctx.pendingStart := false;
        ctx.startComplete := ctx.startComplete.Send(FromStatus(failure.value));
      }
    }

    method StartHandler() returns (code: Code)
      requires ctx.startComplete.Sent?
      modifies ctx
      ensures code == old(ctx.startComplete.value)
      ensures ctx.View() == old(ctx.View()).(start := old(ctx.View()).start.Take())
    {
      code := ctx.startComplete.value;
      ctx.startComplete := ctx.startComplete.Take();
    }

    /** async_send up to the call of StreamSend. */
    method BeginSend()
      modifies ctx
      ensures ctx.View() == old(ctx.View()).(send := UnlockedCall.BeginCall(old(ctx.View()).send))
    {
      ctx.sendComplete := ctx.sendComplete.Create();
      ctx.pendingSend := true;
    }

    /**
     * async_send after StreamSend returned: a refused send is answered here and queues
     * nothing; an accepted one has queued every byte of every buffer.
     */
    method EndSend(lengths: seq<nat>, failure: Option<int>) returns (len: nat)
      requires |lengths| < SendLength.UINT32
      requires forall i :: 0 <= i < |lengths| ==> lengths[i] < SendLength.UINT32
      modifies ctx
      ensures len == if failure.Some? then 0 else Sum(lengths)
      ensures ctx.View() == old(ctx.View()).(send := UnlockedCall.EndCall(old(ctx.View()).send, failure))
      ensures failure.Some? && failure.value != 0 && old(ctx.sendComplete).Armed? ==>
        ctx.sendComplete == Sent(Native(failure.value))
    {
      len := 0;
      if failure.Some? {
        ctx.pendingSend := false;
        ctx.sendComplete := ctx.sendComplete.Send(FromStatus(failure.value));
      } else {
        len := SendLength.QueuedLength(lengths);
      }
    }

    /** The handler of async_send has captured what EndSend returned. */
    method SendHandler(queued: nat) returns (code: Code, len: nat)
      requires ctx.sendComplete.Sent?
      modifies ctx
      ensures code == old(ctx.sendComplete.value) && len == queued
      ensures ctx.View() == old(ctx.View()).(send := old(ctx.View()).send.Take())
    {
      code := ctx.sendComplete.value;
      len := queued;
      ctx.sendComplete := ctx.sendComplete.Take();
    }

    method AsyncReceive()
      modifies ctx
      ensures ctx.View() == StreamProtocol.AsyncReceive(old(ctx.View()))
    {
      if ctx.pendingReceiveBackend {
        ctx.pendingReceiveBackend := false;
      } else {
        ctx.received := ctx.received.Create();
        if ctx.state != Ok {
          var code := Success;
          if ctx.state == PeerShutdown {
          } else if ctx.state == PeerAbort {
            code := ConnectionAborted;
          } else if ctx.state == Complete {
            code := BrokenPipe;
          }
          ctx.received := ctx.received.Send(Received(code, []));
        } else {
          ctx.pendingReceiveFrontend := true;
        }
      }
    }

    /** Copy the received buffers out, then let MsQuic receive again. */
    method ReceiveHandler(lpBuffer: array<Byte>, bufferLen: nat) returns (code: Code, copied: nat)
      requires ctx.received.Sent? && bufferLen <= lpBuffer.Length
      modifies ctx, api, lpBuffer
      ensures ctx.View() == old(ctx.View()).(receive := old(ctx.received).Take())
      ensures code == old(ctx.received.value.code)
      ensures copied == Min(bufferLen, |Flatten(old(ctx.received.value.buffers))|)
      ensures lpBuffer[..] == ReceiveCopy.Overlay(old(lpBuffer[..]), bufferLen, old(ctx.received.value.buffers))
      ensures api.acknowledged == old(api.acknowledged) + copied
    {
      var Received(ec, buffs) := ctx.received.value;
      ctx.received := ctx.received.Take();
      copied := ReceiveCopy.CopyOut(lpBuffer, bufferLen, buffs);
      api.StreamReceiveComplete(copied);
      code := ec;
    }

    /** async_shutdown; `failure` is the failing status StreamShutdown would return. */
    method AsyncShutdown(failure: Option<int>)
      modifies ctx
      ensures ctx.View() == StreamProtocol.AsyncShutdown(old(ctx.View()), failure)
    {
      ctx.shutdownComplete := ctx.shutdownComplete.Create();
      if ctx.state == Complete {
        ctx.shutdownComplete := ctx.shutdownComplete.Send(Success);
      } else if failure.Some? {
        ctx.shutdownComplete := ctx.shutdownComplete.Send(FromStatus(failure.value));
      } else {
        ctx.pendingShutdown := true;
      }
    }

    method ShutdownHandler() returns (code: Code)
      requires ctx.shutdownComplete.Sent?
      modifies ctx
      ensures code == old(ctx.shutdownComplete.value)
      ensures ctx.View() == old(ctx.View()).(shutdown := old(ctx.View()).shutdown.Take())
    {
      code := ctx.shutdownComplete.value;
      ctx.shutdownComplete := ctx.shutdownComplete.Take();
    }
  }
}
