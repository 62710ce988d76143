// Native handles, their wrappers and the callback contexts registered for them.

module Ownership {
  import opened Errors
  import opened Handles

  type CtxId = nat
  type Name = nat

  datatype Kind = Listener | Connection | Stream

  /** A wrapper object: the native handle it owns and the context it holds. */
  datatype Wrapper = Wrapper(kind: Kind, handle: Option<Handle>, ctx: Option<CtxId>) {
    predicate IsOpen() { handle.Some? }

    /** The null handle is None. */
    function Assign(h: Option<Handle>): Wrapper { this.(handle := h) }

    /** release, and also what close leaves. */
    function Empty(): Wrapper { Assign(None) }

    /** What a move leaves: a connection is given a new context, a stream is not. */
    function LeftBehind(newCtx: CtxId): Wrapper {
      Empty().(ctx := if kind.Connection? then Some(newCtx) else None)
    }
  }

  datatype World = World(
    wrappers: map<Name, Wrapper>,
    owner: map<Handle, Name>,             // the wrapper holding an open handle
    loose: set<Handle>,                   // open, held by MsQuic's event or released
    seen: set<Handle>,                    // every handle MsQuic ever gave out
    open: set<Handle>,
    closed: seq<Handle>,                  // every close call, in order
    registered: map<Handle, Option<CtxId>>,
    unbound: set<Handle>,                 // open, handed out or released and not registered since
    nextCtx: CtxId)

  const EMPTY := World(map[], map[], {}, {}, {}, [], map[], {}, 0)

  datatype Step =
    | Construct(name: Name, kind: Kind)
    | Deliver(h: Handle)                  // MsQuic hands out a handle in an event
    | Open(name: Name, h: Handle)         // ListenerOpen, ConnectionOpen, StreamOpen
    | Assign(name: Name, taken: Option<Handle>)
    | SetCallback(name: Name)
    | Release(name: Name)
    | Move(from: Name, to: Name)
    | Close(name: Name)
    | Destroy(name: Name)

  predicate Fresh(w: World, h: Handle) { h !in w.seen }

  predicate Enabled(w: World, step: Step) {
    match step
    case Construct(name, _) => name !in w.wrappers
    case Deliver(h) => Fresh(w, h)
    case Open(name, h) =>
      name in w.wrappers && Fresh(w, h) && (w.wrappers[name].kind.Connection? ==> !w.wrappers[name].IsOpen())
    case Assign(name, _) => name in w.wrappers  // any handle, null or one that native_handle() showed
    case SetCallback(name) => name in w.wrappers && w.wrappers[name].IsOpen()
    case Release(name) => name in w.wrappers
    case Move(from, to) => from in w.wrappers && to !in w.wrappers && !w.wrappers[from].kind.Listener?
    case Close(name) => name in w.wrappers
    case Destroy(name) => name in w.wrappers
  }

  /**
   * A wrapper takes a handle only while it is empty and only one that no other wrapper has,
   * or is assigned what it has, be it null; and it registers its context only if it has one:
   * a stream that was moved from has none.
   */
  predicate Careful(w: World, step: Step) {
    match step
    case Open(name, _) => name in w.wrappers && !w.wrappers[name].IsOpen() && w.wrappers[name].ctx.Some?
    case Assign(name, h) =>
      && name in w.wrappers
      && ((h.Some? && h.value in w.loose && !w.wrappers[name].IsOpen()) || w.wrappers[name].handle == h)
    case SetCallback(name) => name in w.wrappers && w.wrappers[name].ctx.Some?
    case _ => true
  }

  /** MsQuic calls back for `h` with this context. */
  predicate RegisteredTo(w: World, h: Handle, ctx: Option<CtxId>) {
    ctx.Some? && h in w.registered && w.registered[h] == ctx
  }

  /** The handle in `name` changes: whatever it held is no longer owned. */
  function Taken(w: World, name: Name, h: Option<Handle>): World
    requires name in w.wrappers
  {
    var prev := w.wrappers[name];
    var others := if prev.IsOpen() then w.owner - {prev.handle.value} else w.owner;
    w.(wrappers := w.wrappers[name := prev.Assign(h)],
       owner := if h.Some? then others[h.value := name] else others,
       loose := if h.Some? then w.loose - {h.value} else w.loose)
  }

  function Closed(w: World, name: Name): World
    requires name in w.wrappers
  {
    var prev := w.wrappers[name];
    if !prev.IsOpen() then w
    else
      var h := prev.handle.value;
      w.(wrappers := w.wrappers[name := prev.Empty()], owner := w.owner - {h},
         open := w.open - {h}, closed := w.closed + [h], unbound := w.unbound - {h})
  }

  function Apply(w: World, step: Step): World
    requires Enabled(w, step)
  {
    match step
    case Construct(name, kind) =>
      w.(wrappers := w.wrappers[name := Wrapper(kind, None, Some(w.nextCtx))], nextCtx := w.nextCtx + 1)
    case Deliver(h) =>
      w.(loose := w.loose + {h}, seen := w.seen + {h}, open := w.open + {h}, unbound := w.unbound + {h})
    case Open(name, h) =>
      Taken(w, name, Some(h)).(seen := w.seen + {h}, open := w.open + {h},
                               registered := w.registered[h := w.wrappers[name].ctx])
    case Assign(name, h) => Taken(w, name, h)
    case SetCallback(name) =>
      var h := w.wrappers[name].handle.value;
      w.(registered := w.registered[h := w.wrappers[name].ctx], unbound := w.unbound - {h})
    case Release(name) =>
      var prev := w.wrappers[name];
      if !prev.IsOpen() then w
      else
        var h := prev.handle.value;
        w.(wrappers := w.wrappers[name := prev.Empty()], owner := w.owner - {h},
           loose := w.loose + {h}, unbound := w.unbound + {h})
    case Move(from, to) =>
      var prev := w.wrappers[from];
      w.(wrappers := w.wrappers[from := prev.LeftBehind(w.nextCtx)][to := prev], nextCtx := w.nextCtx + 1,
         owner := if prev.IsOpen() then w.owner[prev.handle.value := to] else w.owner)
    case Close(name) => Closed(w, name)
    case Destroy(name) => var c := Closed(w, name); c.(wrappers := c.wrappers - {name})
  }

  // ----- the invariant

  /** Each open handle has one wrapper, or is loose. */
  ghost predicate OwnedOnce(w: World) {
    && (forall n :: n in w.wrappers && w.wrappers[n].IsOpen() ==>
         w.wrappers[n].handle.value in w.owner && w.owner[w.wrappers[n].handle.value] == n)
    && (forall h :: h in w.owner ==> w.owner[h] in w.wrappers && w.wrappers[w.owner[h]].handle == Some(h))
    && w.open == w.owner.Keys + w.loose
    && w.owner.Keys !! w.loose
  }

  /** A handle given out is open or has been closed once, never both. */
  ghost predicate ClosedOnce(w: World) {
    && Distinct(w.closed)
    && (forall h :: h in w.seen <==> h in w.open || h in w.closed)
    && (forall h :: h in w.closed ==> h !in w.open)
  }

  /** No two wrappers hold one context. */
  ghost predicate ContextsApart(w: World) {
    && (forall n :: n in w.wrappers && w.wrappers[n].ctx.Some? ==> w.wrappers[n].ctx.value < w.nextCtx)
    && (forall m, n :: m in w.wrappers && n in w.wrappers && m != n && w.wrappers[m].ctx.Some? ==>
         w.wrappers[m].ctx != w.wrappers[n].ctx)
  }

  /** An owned handle that is not unbound calls back into its owner's context. */
  ghost predicate Bound(w: World) {
    && w.loose <= w.unbound <= w.open
    && w.registered.Keys <= w.seen
    && (forall h :: h in w.owner ==>
         w.owner[h] in w.wrappers && (h !in w.unbound ==> RegisteredTo(w, h, w.wrappers[w.owner[h]].ctx)))
  }

  ghost predicate Inv(w: World) { OwnedOnce(w) && ClosedOnce(w) && ContextsApart(w) && Bound(w) }

  lemma ClosedKeepsInv(w: World, name: Name)
    requires Inv(w) && name in w.wrappers
    ensures Inv(Closed(w, name)) && !Closed(w, name).wrappers[name].IsOpen()
    ensures name in Closed(w, name).wrappers
  {}

  lemma TakingKeepsOwned(w: World, step: Step)
    requires Inv(w) && Enabled(w, step) && Careful(w, step) && (step.Open? || step.Assign?)
    ensures OwnedOnce(Apply(w, step))
  {}

  lemma TakingKeepsRest(w: World, step: Step)
    requires Inv(w) && Enabled(w, step) && Careful(w, step) && (step.Open? || step.Assign?)
    ensures ClosedOnce(Apply(w, step)) && ContextsApart(Apply(w, step))
  {}

  lemma TakingKeepsBound(w: World, step: Step)
    requires Inv(w) && Enabled(w, step) && Careful(w, step) && (step.Open? || step.Assign?)
    ensures Bound(Apply(w, step))
  {}

  lemma MoveKeepsOwned(w: World, from: Name, to: Name)
    requires Inv(w) && Enabled(w, Move(from, to))
    ensures OwnedOnce(Apply(w, Move(from, to)))
  {}

  lemma MoveKeepsContexts(w: World, from: Name, to: Name)
    requires Inv(w) && Enabled(w, Move(from, to))
    ensures ContextsApart(Apply(w, Move(from, to)))
  {}

  lemma MoveKeepsBound(w: World, from: Name, to: Name)
    requires Inv(w) && Enabled(w, Move(from, to))
    ensures Bound(Apply(w, Move(from, to))) && ClosedOnce(Apply(w, Move(from, to)))
  {}

  lemma ReleaseKeepsInv(w: World, name: Name)
    requires Inv(w) && Enabled(w, Release(name))
    ensures Inv(Apply(w, Release(name)))
  {}

  lemma DestroyKeepsInv(w: World, name: Name)
    requires Inv(w) && Enabled(w, Destroy(name))
    ensures Inv(Apply(w, Destroy(name)))
  {
    ClosedKeepsInv(w, name);
  }

  /** The steps that change no owner. */
  lemma PlainStepKeepsInv(w: World, step: Step)
    requires Inv(w) && Enabled(w, step) && Careful(w, step)
    requires step.Construct? || step.Deliver? || step.SetCallback?
    ensures Inv(Apply(w, step))
  {
    var w' := Apply(w, step);
    assert OwnedOnce(w');
    assert ClosedOnce(w');
    assert ContextsApart(w');
  }

  lemma StepKeepsInv(w: World, step: Step)
    requires Inv(w) && Enabled(w, step) && Careful(w, step)
    ensures Inv(Apply(w, step))
  {
    if step.Open? || step.Assign? {
      TakingKeepsOwned(w, step);
      TakingKeepsRest(w, step);
      TakingKeepsBound(w, step);
    } else if step.Move? {
      MoveKeepsOwned(w, step.from, step.to);
      MoveKeepsContexts(w, step.from, step.to);
      MoveKeepsBound(w, step.from, step.to);
    } else if step.Release? {
      ReleaseKeepsInv(w, step.name);
    } else if step.Destroy? {
      DestroyKeepsInv(w, step.name);
    } else if step.Close? {
      ClosedKeepsInv(w, step.name);
    } else {
      PlainStepKeepsInv(w, step);
    }
  }

  /**
   * A careless step always breaks it: a handle is lost, gets a second owner or is owned though
   * closed, or a null context is registered.
   */
  lemma KeptExactlyWhenCareful(w: World, step: Step)
    requires Inv(w) && Enabled(w, step)
    ensures Inv(Apply(w, step)) <==> Careful(w, step)
  {
    if Careful(w, step) {
      StepKeepsInv(w, step);
    } else if step.SetCallback? {
      var h := w.wrappers[step.name].handle.value;
      assert h in w.owner && h !in Apply(w, step).unbound;
    } else {
      CarelessTakingBreaks(w, step);
    }
  }

  lemma CarelessTakingBreaks(w: World, step: Step)
    requires Inv(w) && Enabled(w, step) && !Careful(w, step) && (step.Open? || step.Assign?)
    ensures !Inv(Apply(w, step))
  {
    var w' := Apply(w, step);
    var prev := w.wrappers[step.name];
    if prev.IsOpen() {
      var lost := prev.handle.value;
      assert lost in w'.open && lost !in w'.owner && lost !in w'.loose;
    } else if step.Open? {
      assert step.h in w'.owner && step.h !in w'.unbound;
    } else if step.taken.value in w.owner {
      var h := step.taken.value;
      var m := w.owner[h];
      assert m != step.name && w'.wrappers[m].handle == Some(h) && w'.owner[h] == step.name;
    } else {
      assert step.taken.value in w'.owner && step.taken.value !in w'.open;
    }
  }

  // ----- runs

  predicate Run(w: World, steps: seq<Step>)
    decreases steps
  {
    steps == [] || (Enabled(w, steps[0]) && Run(Apply(w, steps[0]), steps[1..]))
  }

  function After(w: World, steps: seq<Step>): World
    requires Run(w, steps)
    decreases steps
  {
    if steps == [] then w else After(Apply(w, steps[0]), steps[1..])
  }

  predicate AllCareful(w: World, steps: seq<Step>)
    requires Run(w, steps)
    decreases steps
  {
    steps == [] || (Careful(w, steps[0]) && AllCareful(Apply(w, steps[0]), steps[1..]))
  }

  lemma {:induction false} RunKeepsInv(w: World, steps: seq<Step>)
    requires Inv(w) && Run(w, steps) && AllCareful(w, steps)
    ensures Inv(After(w, steps))
    decreases steps
  {
    if steps != [] {
      StepKeepsInv(w, steps[0]);
      RunKeepsInv(Apply(w, steps[0]), steps[1..]);
    }
  }

  lemma RunCons(w: World, step: Step, rest: seq<Step>)
    requires Enabled(w, step) && Run(Apply(w, step), rest)
    ensures Run(w, [step] + rest)
    ensures After(w, [step] + rest) == After(Apply(w, step), rest)
    ensures AllCareful(w, [step] + rest) <==> Careful(w, step) && AllCareful(Apply(w, step), rest)
  {
    assert ([step] + rest)[1..] == rest;
  }

  /**
   * In every careful run an open handle sits in at most one wrapper and is closed at most
   * once; unless it was handed out or released and not registered since, it calls back into
   * its wrapper's context, which is alive as that wrapper holds it; and when no wrapper and
   * no loose handle is left, every handle ever given out has been closed.
   */
  lemma {:induction false} HandlesConserved(steps: seq<Step>)
    requires Run(EMPTY, steps) && AllCareful(EMPTY, steps)
    ensures var w := After(EMPTY, steps);
      && (forall m, n :: m in w.wrappers && n in w.wrappers && m != n && w.wrappers[m].IsOpen() ==>
           w.wrappers[m].handle != w.wrappers[n].handle)
      && Distinct(w.closed)
      && (forall n :: n in w.wrappers && w.wrappers[n].IsOpen() ==> w.wrappers[n].handle.value !in w.closed)
      && (forall n :: n in w.wrappers && w.wrappers[n].IsOpen() ==>
           w.wrappers[n].handle.value in w.unbound
           || RegisteredTo(w, w.wrappers[n].handle.value, w.wrappers[n].ctx))
      && (w.wrappers == map[] && w.loose == {} ==> forall h :: h in w.seen ==> h in w.closed)
  {
    RunKeepsInv(EMPTY, steps);
  }

  /** A handle is closed only by its owner's close or destruction, and only while open. */
  lemma OnlyOwnersClose(w: World, step: Step)
    requires Inv(w) && Enabled(w, step)
    ensures var w' := Apply(w, step);
      w'.closed == w.closed
      || ((step.Close? || step.Destroy?) && w.wrappers[step.name].IsOpen()
          && var h := w.wrappers[step.name].handle.value;
             h in w.open && h in w.owner && w.owner[h] == step.name && w'.closed == w.closed + [h])
  {}

  // ----- owned handles call back into their owner's context

  ghost predicate AllBound(w: World) {
    forall h :: h in w.owner ==> w.owner[h] in w.wrappers && RegisteredTo(w, h, w.wrappers[w.owner[h]].ctx)
  }

  /** The wrapper is assigned a handle that does not call back into its context. */
  predicate Adopts(w: World, step: Step) {
    && step.Assign? && step.taken.Some? && step.name in w.wrappers
    && !RegisteredTo(w, step.taken.value, w.wrappers[step.name].ctx)
  }

  /** Among careful steps it is exactly such an assign that leaves an owner not called back. */
  lemma BoundExactlyWhenNotAdopting(w: World, step: Step)
    requires Inv(w) && AllBound(w) && Enabled(w, step) && Careful(w, step)
    ensures AllBound(Apply(w, step)) <==> !Adopts(w, step)
  {
    if Adopts(w, step) {
      assert step.taken.value in Apply(w, step).owner;
    }
  }

  /** And set_callback after the assign makes up for it, whatever the handle called back before. */
  lemma AssignAndSetCallbackBind(w: World, name: Name, h: Handle)
    requires Inv(w) && AllBound(w) && Enabled(w, Assign(name, Some(h))) && Careful(w, Assign(name, Some(h)))
    requires w.wrappers[name].ctx.Some?
    ensures var steps := [Assign(name, Some(h)), SetCallback(name)];
      && Run(w, steps) && AllCareful(w, steps)
      && var w' := After(w, steps);
         Inv(w') && AllBound(w') && h in w'.owner && w'.owner[h] == name && h !in w'.unbound
  {
    var w1 := Apply(w, Assign(name, Some(h)));
    StepKeepsInv(w, Assign(name, Some(h)));
    StepKeepsInv(w1, SetCallback(name));
    RunCons(w1, SetCallback(name), []);
    RunCons(w, Assign(name, Some(h)), [SetCallback(name)]);
  }

  // ----- contexts outlive the handles registered with them

  predicate Held(w: World, c: CtxId) { exists n :: n in w.wrappers && w.wrappers[n].ctx == Some(c) }

  /** No open handle calls back into a context that has been destroyed. */
  ghost predicate LiveContexts(w: World) {
    forall h :: h in w.open && h in w.registered ==> w.registered[h].Some? && Held(w, w.registered[h].value)
  }

  /**
   * The destroyed wrapper leaves behind an open handle, released earlier, for which MsQuic
   * still calls back with the context that dies.
   */
  predicate Orphans(w: World, step: Step) {
    && step.Destroy? && step.name in w.wrappers
    && exists h :: h in w.open && Some(h) != w.wrappers[step.name].handle
                   && RegisteredTo(w, h, w.wrappers[step.name].ctx)
  }

  /** Among careful steps it is exactly such a destruction that leaves a dangling context. */
  lemma LiveExactlyWhenNotOrphaning(w: World, step: Step)
    requires Inv(w) && LiveContexts(w) && Enabled(w, step) && Careful(w, step)
    ensures LiveContexts(Apply(w, step)) <==> !Orphans(w, step)
  {
    if step.Destroy? {
      DestroyOrphans(w, step.name);
    } else {
      OthersKeepLive(w, step);
    }
  }

  lemma DestroyOrphans(w: World, name: Name)
    requires Inv(w) && LiveContexts(w) && Enabled(w, Destroy(name))
    ensures LiveContexts(Apply(w, Destroy(name))) <==> !Orphans(w, Destroy(name))
  {
    var w' := Apply(w, Destroy(name));
    forall c: CtxId | Held(w, c) && Some(c) != w.wrappers[name].ctx ensures Held(w', c) {
      var n :| n in w.wrappers && w.wrappers[n].ctx == Some(c);
      assert n in w'.wrappers && w'.wrappers[n].ctx == Some(c);
    }
    if h :| h in w.open && Some(h) != w.wrappers[name].handle && RegisteredTo(w, h, w.wrappers[name].ctx) {
      assert h in w'.open && w'.registered[h] == w.wrappers[name].ctx;
      assert !Held(w', w.wrappers[name].ctx.value);
    }
  }

  lemma OthersKeepLive(w: World, step: Step)
    requires Inv(w) && LiveContexts(w) && Enabled(w, step) && Careful(w, step) && !step.Destroy?
    ensures LiveContexts(Apply(w, step))
  {
    var w' := Apply(w, step);
    forall c: CtxId | Held(w, c) ensures Held(w', c) {
      var n :| n in w.wrappers && w.wrappers[n].ctx == Some(c);
      var n' := if step.Move? && n == step.from then step.to else n;
      assert n' in w'.wrappers && w'.wrappers[n'].ctx == Some(c);
    }
    if step.Open? || step.SetCallback? {
      assert step.name in w'.wrappers && w'.wrappers[step.name].ctx == w.wrappers[step.name].ctx;
      assert Held(w', w.wrappers[step.name].ctx.value);
    }
  }

  predicate AllOrderly(w: World, steps: seq<Step>)
    requires Run(w, steps)
    decreases steps
  {
    steps == []
    || (Careful(w, steps[0]) && !Orphans(w, steps[0]) && AllOrderly(Apply(w, steps[0]), steps[1..]))
  }

  /** In a careful run without such a destruction every registered context outlives its handle. */
  lemma {:induction false} ContextsOutlive(w: World, steps: seq<Step>)
    requires Inv(w) && LiveContexts(w) && Run(w, steps) && AllOrderly(w, steps)
    ensures Inv(After(w, steps)) && LiveContexts(After(w, steps))
    decreases steps
  {
    if steps != [] {
      StepKeepsInv(w, steps[0]);
      LiveExactlyWhenNotOrphaning(w, steps[0]);
      ContextsOutlive(Apply(w, steps[0]), steps[1..]);
    }
  }

  // ----- runs that break ownership

  function Share(): seq<Step> {
    [Construct(0, Connection), Open(0, 7), Construct(1, Connection), Assign(1, Some(7))]
  }

  /** Both wrappers hold handle 7. */
  const SHARED := World(
    map[0 := Wrapper(Connection, Some(7), Some(0)), 1 := Wrapper(Connection, Some(7), Some(1))],
    map[7 := 1], {}, {7}, {7}, [], map[7 := Some(0)], {}, 2)

  lemma NativeHandleIsShared()
    ensures Run(EMPTY, Share()) && After(EMPTY, Share()) == SHARED
  {
    var w1 := Apply(EMPTY, Construct(0, Connection));
    var w2 := Apply(w1, Open(0, 7));
    var w3 := Apply(w2, Construct(1, Connection));
    assert Apply(w3, Assign(1, Some(7))) == SHARED;
    RunCons(w3, Assign(1, Some(7)), []);
    RunCons(w2, Construct(1, Connection), [Assign(1, Some(7))]);
    RunCons(w1, Open(0, 7), [Construct(1, Connection), Assign(1, Some(7))]);
    RunCons(EMPTY, Construct(0, Connection), [Open(0, 7), Construct(1, Connection), Assign(1, Some(7))]);
  }

  /** Assigning another wrapper's native_handle() closes the handle twice. */
  lemma SharedHandleClosedTwice()
    ensures var steps := Share() + [Close(0), Close(1)];
      Run(EMPTY, steps) && After(EMPTY, steps).closed == [7, 7] && !Distinct(After(EMPTY, steps).closed)
  {
    NativeHandleIsShared();
    var w1 := Apply(SHARED, Close(0));
    assert w1.wrappers[1].handle == Some(7) && w1.closed == [7];
    RunCons(w1, Close(1), []);
    RunCons(SHARED, Close(0), [Close(1)]);
    RunConcat(EMPTY, Share(), [Close(0), Close(1)]);
    assert [7, 7][0] == [7, 7][1];
  }

  /** Opening an open stream loses its first handle: open, and no longer owned. */
  lemma ReopenedStreamLeaks()
    ensures var steps := [Construct(0, Stream), Open(0, 1), Open(0, 2)];
      && Run(EMPTY, steps)
      && var w := After(EMPTY, steps);
         1 in w.open && 1 !in w.owner && 1 !in w.loose
  {
    var w1 := Apply(EMPTY, Construct(0, Stream));
    var w2 := Apply(w1, Open(0, 1));
    RunCons(w2, Open(0, 2), []);
    RunCons(w1, Open(0, 1), [Open(0, 2)]);
    RunCons(EMPTY, Construct(0, Stream), [Open(0, 1), Open(0, 2)]);
  }

  /** Assigning null to an open wrapper loses its handle too. */
  lemma NullAssignLeaks()
    ensures var steps := [Construct(0, Stream), Open(0, 1), Assign(0, None)];
      && Run(EMPTY, steps)
      && var w := After(EMPTY, steps);
         1 in w.open && 1 !in w.owner && 1 !in w.loose
  {
    var w1 := Apply(EMPTY, Construct(0, Stream));
    var w2 := Apply(w1, Open(0, 1));
    RunCons(w2, Assign(0, None), []);
    RunCons(w1, Open(0, 1), [Assign(0, None)]);
    RunCons(EMPTY, Construct(0, Stream), [Open(0, 1), Assign(0, None)]);
  }

  /** A stream that was moved from registers a null context. */
  lemma MovedFromStreamRegistersNull()
    ensures var steps := [Construct(0, Stream), Move(0, 1), Open(0, 5)];
      && Run(EMPTY, steps)
      && var w := After(EMPTY, steps);
         5 in w.open && 5 in w.registered && w.registered[5] == None
  {
    var w1 := Apply(EMPTY, Construct(0, Stream));
    var w2 := Apply(w1, Move(0, 1));
    RunCons(w2, Open(0, 5), []);
    RunCons(w1, Move(0, 1), [Open(0, 5)]);
    RunCons(EMPTY, Construct(0, Stream), [Move(0, 1), Open(0, 5)]);
  }

  function ReleaseAndAssign(): seq<Step> {
    [Construct(0, Connection), Open(0, 7), Release(0), Construct(1, Connection), Assign(1, Some(7))]
  }

  /** Wrapper 1 owns handle 7, for which MsQuic calls back into the context of wrapper 0. */
  const ADOPTED := World(
    map[0 := Wrapper(Connection, None, Some(0)), 1 := Wrapper(Connection, Some(7), Some(1))],
    map[7 := 1], {}, {7}, {7}, [], map[7 := Some(0)], {7}, 2)

  lemma ReleasedHandleIsAdopted()
    ensures Run(EMPTY, ReleaseAndAssign()) && AllCareful(EMPTY, ReleaseAndAssign())
    ensures After(EMPTY, ReleaseAndAssign()) == ADOPTED
  {
    var w1 := Apply(EMPTY, Construct(0, Connection));
    var w2 := Apply(w1, Open(0, 7));
    var w3 := Apply(w2, Release(0));
    var w4 := Apply(w3, Construct(1, Connection));
    assert w3 == World(map[0 := Wrapper(Connection, None, Some(0))], map[], {7}, {7}, {7}, [],
                       map[7 := Some(0)], {7}, 1);
    assert Apply(w4, Assign(1, Some(7))) == ADOPTED;
    RunCons(w4, Assign(1, Some(7)), []);
    RunCons(w3, Construct(1, Connection), [Assign(1, Some(7))]);
    RunCons(w2, Release(0), [Construct(1, Connection), Assign(1, Some(7))]);
    RunCons(w1, Open(0, 7), [Release(0), Construct(1, Connection), Assign(1, Some(7))]);
    RunCons(EMPTY, Construct(0, Connection), [Open(0, 7), Release(0), Construct(1, Connection), Assign(1, Some(7))]);
  }

  /**
   * release and assign leave the callback context alone: a careful run in which the owner of
   * an open handle is not the one called back, and the one called back is then destroyed.
   */
  lemma ReleasedHandleDangles()
    ensures var steps := ReleaseAndAssign() + [Destroy(0)];
      && Run(EMPTY, steps) && AllCareful(EMPTY, steps)
      && var w := After(EMPTY, steps);
         && 7 in w.open && 1 in w.wrappers && w.wrappers[1].handle == Some(7)
         && 7 in w.registered && w.registered[7] == Some(0) && !Held(w, 0) && !LiveContexts(w)
  {
    ReleasedHandleIsAdopted();
    RunCons(ADOPTED, Destroy(0), []);
    RunConcat(EMPTY, ReleaseAndAssign(), [Destroy(0)]);
    var w := Apply(ADOPTED, Destroy(0));
    assert forall n :: n in w.wrappers ==> n == 1;
    assert !Held(w, 0);
  }

  lemma {:induction false} RunConcat(w: World, steps: seq<Step>, more: seq<Step>)
    requires Run(w, steps) && Run(After(w, steps), more)
    ensures Run(w, steps + more) && After(w, steps + more) == After(After(w, steps), more)
    ensures AllCareful(w, steps) && AllCareful(After(w, steps), more) ==> AllCareful(w, steps + more)
    decreases steps
  {
    if steps == [] {
      assert steps + more == more;
    } else {
      RunConcat(Apply(w, steps[0]), steps[1..], more);
      assert (steps + more)[1..] == steps[1..] + more;
    }
  }

  // ----- the accept path

  /** What the callback does: a new wrapper takes the handle and registers its context. */
  function TakeIn(kind: Kind, h: Handle, name: Name): seq<Step> {
    [Construct(name, kind), Assign(name, Some(h)), SetCallback(name)]
  }

  function TakenIn(w: World, kind: Kind, h: Handle, name: Name): World {
    w.(wrappers := w.wrappers[name := Wrapper(kind, Some(h), Some(w.nextCtx))], owner := w.owner[h := name],
       loose := w.loose - {h}, registered := w.registered[h := Some(w.nextCtx)], unbound := w.unbound - {h},
       nextCtx := w.nextCtx + 1)
  }

  lemma TakeInBinds(w: World, kind: Kind, h: Handle, name: Name)
    requires Inv(w) && h in w.loose && name !in w.wrappers
    ensures Run(w, TakeIn(kind, h, name)) && AllCareful(w, TakeIn(kind, h, name))
    ensures After(w, TakeIn(kind, h, name)) == TakenIn(w, kind, h, name)
  {
    var w1 := Apply(w, Construct(name, kind));
    var w2 := Apply(w1, Assign(name, Some(h)));
    RunCons(w2, SetCallback(name), []);
    RunCons(w1, Assign(name, Some(h)), [SetCallback(name)]);
    RunCons(w, Construct(name, kind), [Assign(name, Some(h)), SetCallback(name)]);
  }

  /** A wrapper is moved into the channel, or out of it, and the emptied one is destroyed. */
  function HandOver(from: Name, to: Name): seq<Step> { [Move(from, to), Destroy(from)] }

  function HandedOver(w: World, from: Name, to: Name): World
    requires from in w.wrappers && w.wrappers[from].IsOpen()
  {
    w.(wrappers := (w.wrappers - {from})[to := w.wrappers[from]],
       owner := w.owner[w.wrappers[from].handle.value := to], nextCtx := w.nextCtx + 1)
  }

  lemma HandOverMoves(w: World, from: Name, to: Name)
    requires from in w.wrappers && to !in w.wrappers && !w.wrappers[from].kind.Listener?
    requires w.wrappers[from].IsOpen()
    ensures Run(w, HandOver(from, to)) && AllCareful(w, HandOver(from, to))
    ensures After(w, HandOver(from, to)) == HandedOver(w, from, to)
  {
    var w1 := Apply(w, Move(from, to));
    RunCons(w1, Destroy(from), []);
    RunCons(w, Move(from, to), [Destroy(from)]);
    assert Apply(w1, Destroy(from)).wrappers == (w.wrappers - {from})[to := w.wrappers[from]];
  }

  function AcceptPath(kind: Kind, h: Handle, local: Name, carried: Name, accepted: Name): seq<Step> {
    TakeIn(kind, h, local) + (HandOver(local, carried) + HandOver(carried, accepted))
  }

  /** Both hand-overs together: only the name of the owner is new. */
  lemma HandedOverTwice(w: World, kind: Kind, h: Handle, local: Name, carried: Name, accepted: Name)
    requires local !in w.wrappers && carried !in w.wrappers && accepted !in w.wrappers && local != carried
    ensures var w1 := TakenIn(w, kind, h, local);
      && HandedOver(w1, local, carried).wrappers.Keys == w.wrappers.Keys + {carried}
      && HandedOver(HandedOver(w1, local, carried), carried, accepted)
         == TakenIn(w, kind, h, accepted).(nextCtx := w.nextCtx + 3)
  {
    var w3 := HandedOver(HandedOver(TakenIn(w, kind, h, local), local, carried), carried, accepted);
    assert w3.wrappers == w.wrappers[accepted := Wrapper(kind, Some(h), Some(w.nextCtx))];
    assert w3.owner == w.owner[h := accepted];
  }

  /**
   * From the event to the accept handler: the handler's wrapper ends up owning the handle,
   * bound to its own context, and nothing else has changed hands.
   */
  lemma AcceptPathBinds(w: World, kind: Kind, h: Handle, local: Name, carried: Name, accepted: Name)
    requires Inv(w) && h in w.loose && !kind.Listener?
    requires local !in w.wrappers && carried !in w.wrappers && accepted !in w.wrappers
    requires local != carried && carried != accepted
    ensures var path := AcceptPath(kind, h, local, carried, accepted);
      && Run(w, path) && AllCareful(w, path)
      && After(w, path) == TakenIn(w, kind, h, accepted).(nextCtx := w.nextCtx + 3)
    ensures var w' := TakenIn(w, kind, h, accepted);
      && w'.owner[h] == accepted && w'.wrappers[accepted].handle == Some(h)
      && h !in w'.unbound && RegisteredTo(w', h, w'.wrappers[accepted].ctx)
  {
    HandedOverTwice(w, kind, h, local, carried, accepted);
    var w1 := TakenIn(w, kind, h, local);
    var w2 := HandedOver(w1, local, carried);
    TakeInBinds(w, kind, h, local);
    HandOverMoves(w1, local, carried);
    HandOverMoves(w2, carried, accepted);
    RunConcat(w1, HandOver(local, carried), HandOver(carried, accepted));
    RunConcat(w, TakeIn(kind, h, local), HandOver(local, carried) + HandOver(carried, accepted));
  }

  /**
   * A move takes handle and context along and keeps the registration valid. It leaves an
   * empty wrapper, of a stream without a context and of a connection with one of its own,
   * whether or not it was open.
   */
  lemma MoveCarriesContext(w: World, from: Name, to: Name)
    requires Inv(w) && Enabled(w, Move(from, to))
    ensures var w' := Apply(w, Move(from, to));
      && w'.wrappers[to] == w.wrappers[from]
      && w'.wrappers[from].kind == w.wrappers[from].kind && !w'.wrappers[from].IsOpen()
      && (w'.wrappers[from].ctx.None? <==> w.wrappers[from].kind.Stream?)
      && (forall n :: n in w'.wrappers && n != from && w'.wrappers[from].ctx.Some? ==>
           w'.wrappers[n].ctx != w'.wrappers[from].ctx)
      && (w.wrappers[from].IsOpen() ==>
           var h := w.wrappers[from].handle.value;
           h in w'.owner && w'.owner[h] == to && (h in w.unbound || RegisteredTo(w', h, w'.wrappers[to].ctx)))
      && (forall n :: n in w.wrappers && n != from ==> n in w'.wrappers && w'.wrappers[n] == w.wrappers[n])
  {
    assert w.wrappers[from].IsOpen() ==> w.wrappers[from].handle.value in w.owner;
  }
}

// basic_quic_handle with the parts of the derived wrappers that own things.
module QuicHandle {
  import opened Errors
  import opened Handles
  import opened Ownership

  /** The entries of the MsQuic function table that wrappers use to own handles. */
  class ApiTable {
    var registered: map<Handle, Option<CtxId>>
    var closed: seq<Handle>

    constructor ()
      ensures registered == map[] && closed == []
    {
      registered, closed := map[], [];
    }

    method SetCallbackHandler(h: Handle, ctx: Option<CtxId>)
      modifies this
      ensures registered == old(registered)[h := ctx] && closed == old(closed)
    {
      registered := registered[h := ctx];
    }

    method CloseHandle(h: Handle)
      modifies this
      ensures closed == old(closed) + [h] && registered == old(registered)
    {
      closed := closed + [h];
    }
  }

  class BasicQuicHandle {
    const kind: Kind
    const api: ApiTable
    var h: Option<Handle>
    var ctx: Option<CtxId>

    ghost function View(): Wrapper
      reads this
    {
      Wrapper(kind, h, ctx)
    }

    constructor (kind: Kind, api: ApiTable, newCtx: CtxId)
      ensures View() == Wrapper(kind, None, Some(newCtx)) && this.api == api
    {
      this.kind, this.api := kind, api;
      h, ctx := None, Some(newCtx);
    }

    /** The move constructors of streams and connections; listeners have none. */
    constructor Move(other: BasicQuicHandle, newCtx: CtxId)
      requires !other.kind.Listener?
      modifies other
      ensures View() == old(other.View()) && api == other.api
      ensures other.View() == old(other.View()).LeftBehind(newCtx)
    {
      kind, api := other.kind, other.api;
      h, ctx := other.h, other.ctx;
      new;
      var moved := other.Release();
      other.ctx := if other.kind.Connection? then Some(newCtx) else None;
    }

    method Assign(handle: Option<Handle>)
      modifies this
      ensures View() == old(View()).Assign(handle)
    {
      h := handle;
    }

    method Release() returns (copy: Option<Handle>)
      modifies this
      ensures copy == old(h) && View() == old(View()).Empty()
    {
      copy := h;
      h := None;
    }

    method IsOpen() returns (open: bool)
      ensures open == View().IsOpen()
    {
      open := h != None;
    }

    method SetCallback()
      requires h.Some?
      modifies api
      ensures api.registered == old(api.registered)[h.value := ctx] && api.closed == old(api.closed)
    {
      api.SetCallbackHandler(h.value, ctx);
    }

    /** Also what the destructors run. */
    method Close()
      modifies this, api
      ensures View() == if old(h).Some? then old(View()).Empty() else old(View())
      ensures api.closed == old(api.closed) + (if old(h).Some? then [old(h.value)] else [])
      ensures api.registered == old(api.registered)
    {
      if h.Some? {
        api.CloseHandle(h.value);
        h := None;
      }
    }
  }
}
