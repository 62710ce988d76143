// basic_connection_handle and its context as objects, proved against ConnectionProtocol.
// async_start calls MsQuic without the lock, so it is split at that call.

module ConnectionHandle {
  import opened Errors
  import opened Handles
  import opened OneShot
  import opened Rendezvous
  import opened ConnectionProtocol
  import UnlockedCall

  class ConnectionContext {
    var state: Phase
    var pendingClientStart: bool
    var pendingServerConnect: bool
    var pendingAccept: bool
    var pendingShutdown: bool
    var connected: Channel<Code>
    var permits: Semaphore
    var accepted: Channel<Accepted>
    var shutdownComplete: Channel<Code>

    constructor ()
      ensures View() == ConnectionProtocol.START
    {
      state := Ok;
      pendingClientStart, pendingServerConnect, pendingAccept, pendingShutdown := false, false, false, false;
      connected, accepted, shutdownComplete := Unset, Unset, Unset;
      permits := Permits(0);
    }

    ghost function View(): Context
      reads this
    {
      Context(state, pendingClientStart, pendingServerConnect, connected,
              Slot(pendingAccept, accepted), permits, Slot(pendingShutdown, shutdownComplete))
    }

    /** AsioMsQuicConnectionCallback, except PEER_STREAM_STARTED. */
    method Callback(event: Event)
      modifies this
      ensures View() == OnEvent(old(View()), event)
    {
      match event {
        case Connected =>
          if pendingClientStart {
            pendingClientStart := false;
            connected := connected.Send(Success);
          }
          if pendingServerConnect {
            pendingServerConnect := false;
            connected := connected.Send(Success);
          }
        case ShutdownByTransport =>
          state := TransportShutdown;
          CleanUpPending();
        case ShutdownByPeer =>
          state := PeerShutdown;
          CleanUpPending();
        case ShutdownComplete =>
          state := Complete;
          CleanUpPending();
          if pendingShutdown {
            pendingShutdown := false;
            shutdownComplete := shutdownComplete.Send(Success);
          }
        case Ignored =>
      }
    }

    method CleanUpPending()
      modifies this
      ensures View() == DrainPending(old(View()))
    {
      if pendingServerConnect {
        pendingServerConnect := false;
        connected := connected.Send(ConnectionAborted);
      }
      if pendingAccept {
        pendingAccept := false;
        accepted := accepted.Send(REFUSED);
      }
    }

    /** PEER_STREAM_STARTED; acquire returns only when there is a permit. */
    method PeerStreamStarted(stream: Handle)
      requires permits.Permits? && permits.count > 0
      modifies this
      ensures View() == StreamStarted(old(View()), stream)
    {
      permits := permits.Acquire();
      pendingAccept := false;
      accepted := accepted.Send(Accepted(Success, Some(stream)));
    }
  }

  class BasicConnectionHandle {
    const ctx: ConnectionContext

    constructor ()
      ensures fresh(ctx) && ctx.View() == ConnectionProtocol.START
    {
      ctx := new ConnectionContext();
    }

    /** async_start up to the call of ConnectionStart. */
    method BeginStart()
      modifies ctx
      ensures var slot := UnlockedCall.BeginCall(old(Slot(ctx.pendingClientStart, ctx.connected)));
        ctx.View() == old(ctx.View()).(clientStart := slot.pending, conn := slot.channel)
    {
      ctx.connected := ctx.connected.Create();
      ctx.pendingClientStart := true;
    }

    /** async_start after ConnectionStart returned; `failure` is a failing status. */
    method EndStart(failure: Option<int>)
      modifies ctx
      ensures var slot := UnlockedCall.EndCall(old(Slot(ctx.pendingClientStart, ctx.connected)), failure);
        ctx.View() == old(ctx.View()).(clientStart := slot.pending, conn := slot.channel)
      ensures failure.Some? && failure.value != 0 && old(ctx.connected).Armed? ==>
        ctx.connected == Sent(Native(failure.value))
    {
      if failure.Some? {
        ctx.pendingClientStart := false;
        ctx.connected := ctx.connected.Send(FromStatus(failure.value));
      }
    }

    method AsyncConnect()
      modifies ctx
      ensures ctx.View() == ConnectionProtocol.AsyncConnect(old(ctx.View()))
    {
      ctx.connected := ctx.connected.Create();
      if ctx.state == Complete {
        ctx.connected := ctx.connected.Send(ConnectionAborted);
      } else {
        ctx.pendingServerConnect := true;
      }
    }

    /** The handler of async_start and of async_connect. */
    method ConnectHandler() returns (code: Code)
      requires ctx.connected.Sent?
      modifies ctx
      ensures code == old(ctx.connected.value)
      ensures ctx.View() == old(ctx.View()).(conn := old(ctx.connected).Take())
    {
      code := ctx.connected.value;
      ctx.connected := ctx.connected.Take();
    }

    method AsyncAccept()
      modifies ctx
      ensures ctx.View() == ConnectionProtocol.AsyncAccept(old(ctx.View()))
    {
      ctx.accepted := ctx.accepted.Create();
      if ctx.state == Complete {
        ctx.accepted := ctx.accepted.Send(REFUSED);
      } else {
        ctx.pendingAccept := true;
        ctx.permits := ctx.permits.Release();
      }
    }

    method AcceptHandler() returns (result: Accepted)
      requires ctx.accepted.Sent?
      modifies ctx
      ensures result == old(ctx.accepted.value)
      ensures ctx.View() == old(ctx.View()).(accept := old(ctx.View()).accept.Take())
    {
      result := ctx.accepted.value;
      ctx.accepted := ctx.accepted.Take();
    }

    method AsyncShutdown()
      modifies ctx
      ensures ctx.View() == ConnectionProtocol.AsyncShutdown(old(ctx.View()))
    {
      ctx.shutdownComplete := ctx.shutdownComplete.Create();
      if ctx.state == Complete {
        ctx.shutdownComplete := ctx.shutdownComplete.Send(Success);
      } else {
        ctx.pendingShutdown := true;
      }
    }

    method ShutdownHandler() returns (code: Code)
      requires ctx.shutdownComplete.Sent?
      modifies ctx
      ensures code == old(ctx.shutdownComplete.value)
      ensures ctx.View() == old(ctx.View()).(shutdown := old(ctx.View()).shutdown.Take())
    {
      code := ctx.shutdownComplete.value;
      ctx.shutdownComplete := ctx.shutdownComplete.Take();
    }
  }
}
