// basic_listener_handle and its context as objects, proved against ListenerProtocol.

module ListenerHandle {
  import opened Errors
  import opened Handles
  import opened OneShot
  import opened Rendezvous
  import opened ListenerProtocol

  class ListenerContext {
    var state: Phase
    var pendingAccept: bool
    var pendingStop: bool
    var permits: Semaphore
    var accepted: Channel<Accepted>
    var stopped: Channel<Code>

    constructor ()
      ensures View() == ListenerProtocol.START
    {
      state := Ok;
      pendingAccept, pendingStop := false, false;
      permits := Permits(0);
      accepted, stopped := Unset, Unset;
    }

    ghost function View(): Context
      reads this
    {
      Context(state, Slot(pendingAccept, accepted), permits, Slot(pendingStop, stopped))
    }

    /** NEW_CONNECTION; acquire returns only when there is a permit. */
    method NewConnection(conn: Handle)
      requires permits.Permits? && permits.count > 0
      modifies this
      ensures View() == ListenerProtocol.NewConnection(old(View()), conn)
    {
      permits := permits.Acquire();
      pendingAccept := false;
      accepted := accepted.Send(Accepted(Success, Some(conn)));
    }

    /** STOP_COMPLETE. */
    method StopComplete()
      modifies this
      ensures View() == ListenerProtocol.StopComplete(old(View()))
    {
      state := Stopped;
      if pendingAccept {
        pendingAccept := false;
        accepted := accepted.Send(Accepted(ShutDown, None));
      }
      if pendingStop {
        pendingStop := false;
        stopped := stopped.Send(Success);
      }
    }
  }

  class BasicListenerHandle {
    const ctx: ListenerContext

    constructor ()
      ensures fresh(ctx) && ctx.View() == ListenerProtocol.START
    {
      ctx := new ListenerContext();
    }

    method AsyncAccept()
      modifies ctx
      ensures ctx.View() == ListenerProtocol.AsyncAccept(old(ctx.View()))
    {
      ctx.accepted := ctx.accepted.Create();
      if ctx.state == Stopped {
        ctx.accepted := ctx.accepted.Send(Accepted(ConnectionAborted, None));
      } else {
        ctx.pendingAccept := true;
        ctx.permits := ctx.permits.Release();
      }
    }

    method AcceptHandler() returns (result: Accepted)
      requires ctx.accepted.Sent?
      modifies ctx
      ensures result == old(ctx.accepted.value)
      ensures ctx.View() == old(ctx.View()).(accept := old(ctx.View()).accept.Take())
    {
      result := ctx.accepted.value;
      ctx.accepted := ctx.accepted.Take();
    }

    /** async_stop up to its unlock; `callStop` says that ListenerStop is called next. */
    method AsyncStop() returns (callStop: bool)
      modifies ctx
      ensures ctx.View() == ListenerProtocol.AsyncStop(old(ctx.View()))
      ensures callStop <==> old(ctx.state) != Stopped
    {
      ctx.stopped := ctx.stopped.Create();
      callStop := false;
      if ctx.state == Stopped {
        ctx.stopped := ctx.stopped.Send(Success);
      } else {
        ctx.pendingStop := true;
        callStop := true;
      }
    }

    method StopHandler() returns (code: Code)
      requires ctx.stopped.Sent?
      modifies ctx
      ensures code == old(ctx.stopped.value)
      ensures ctx.View() == old(ctx.View()).(stop := old(ctx.View()).stop.Take())
    {
      code := ctx.stopped.value;
      ctx.stopped := ctx.stopped.Take();
    }
  }
}
