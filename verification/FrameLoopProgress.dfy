/**
 What the frame loop gets done: deferred requests, wanted repaints, giving up the
 terminal and shutting down; and the exact conditions under which two of its steps
 keep the invariant.
 */
module FrameLoopProgress {
  import opened Basics
  import opened FrameLoop
  import opened FrameLoopInvariant
  import opened FrameLoopSafety

  // ------------------------------------------------------ deferred requests

  /** The actions that concern output i, oldest first. */
  function Own(t: Trace, i: nat): seq<Action> {
    match t
    case Start => []
    case Then(past, a) => Own(past, i) + if About(a, i) then [a] else []
  }

  predicate About(a: Action, i: nat) {
    (a.Swap? || a.Flip? || a.Surface? || a.Slept? || a.Removed?) && a.output == i
  }

  function SurfaceActions(o: Output, i: nat, start: Startup): seq<Action> {
    if o.taskSurface.NoTask? then [] else [Surface(i, o.taskSurface.Attach? && start.Comes?)]
  }

  function SleepActions(o: Output, i: nat): seq<Action> {
    if o.taskSleep then [Slept(i)] else []
  }

  /** Removing an output drops its surface, unless a deferred request has just done so. */
  function RemoveActions(o: Output, i: nat, start: Startup): seq<Action> {
    if !o.taskTerminate then []
    else if o.taskSurface.NoTask? || (o.taskSurface.Attach? && start.Comes?) then [Removed(i), Surface(i, false)]
    else [Removed(i)]
  }

  lemma RespondOwn(st: State, i: nat)
    ensures Own(RespondTty(st).trace, i) == Own(st.trace, i)
  {
  }

  lemma SetSurfaceOwn(st: State, i: nat, b: Option<Backend>, start: Startup)
    requires i < |st.outputs|
    ensures
      var o := st.outputs[i];
      Own(SetSurface(st, i, b, start).trace, i)
        == Own(st.trace, i)
          + if SameSurface(o.surface, b) || o.pending then [] else [Surface(i, b.Some? && start.Comes?)]
  {
    var o := st.outputs[i];
    if !SameSurface(o.surface, b) && !o.pending {
      var held := if start.Comes? then b else None;
      var a := Log(Put(st, i, Resurfaced(o, held, start == Comes(true))), Surface(i, held.Some?));
      assert Own(a.trace, i) == Own(st.trace, i) + [Surface(i, b.Some? && start.Comes?)];
      RespondOwn(a, i);
    }
  }

  lemma FinishSurfaceOwn(st: State, i: nat, start: Startup)
    requires i < |st.outputs| && !st.outputs[i].pending && TasksNeeded(st.outputs[i]) && st.outputs[i].surface.Some?
    ensures
      var r, o := FinishSurface(st, i, start), st.outputs[i];
      && Own(r.trace, i) == Own(st.trace, i) + SurfaceActions(o, i, start)
      && r.outputs[i].taskSleep == o.taskSleep && r.outputs[i].taskTerminate == o.taskTerminate
        && r.outputs[i].sleeping == o.sleeping
      && !r.outputs[i].pending && (r.outputs[i].surface.Some?
        <==> o.taskSurface.NoTask? || (o.taskSurface.Attach? && start.Comes?))
  {
    SetSurfaceOwn(st, i, TaskSurface(st.outputs[i]), start);
    FinishSurfaceCarries(st, i, start);
  }

  lemma FinishSleepOwn(st: State, i: nat)
    requires i < |st.outputs| && !st.outputs[i].pending && (st.outputs[i].taskSleep ==> !st.outputs[i].sleeping)
    ensures
      var r, o := FinishSleep(st, i), st.outputs[i];
      && Own(r.trace, i) == Own(st.trace, i) + SleepActions(o, i)
      && r.outputs[i].taskTerminate == o.taskTerminate && !r.outputs[i].pending && r.outputs[i].surface == o.surface
  {
    SetSleepEffect(st, i, true);
  }

  lemma FinishTerminateOwn(st: State, i: nat)
    requires i < |st.outputs| && !st.outputs[i].pending
    ensures
      var o := st.outputs[i];
      Own(FinishTerminate(st, i).trace, i)
        == Own(st.trace, i)
          + if !o.taskTerminate then [] else [Removed(i)] + if o.surface.Some? then [Surface(i, false)] else []
  {
    RefocusedEffect(st, i);
    SetSurfaceOwn(Log(Refocused(st, i), Removed(i)), i, None, Fails);
  }

  lemma TasksOwn(st: State, i: nat, start: Startup)
    requires i < |st.outputs| && !st.outputs[i].pending && TasksNeeded(st.outputs[i]) && st.outputs[i].surface.Some?
    ensures
      var o := st.outputs[i];
      Own(FinishTasks(st, i, start).trace, i)
        == Own(st.trace, i) + SurfaceActions(o, i, start) + SleepActions(o, i) + RemoveActions(o, i, start)
  {
    FinishSurfaceOwn(st, i, start);
    var b := FinishSurface(st, i, start);
    FinishSleepOwn(b, i);
    FinishTerminateOwn(FinishSleep(b, i), i);
  }

  /** The flight has ended, and nothing that was deferred has been done yet. */
  function Landed(st: State, i: nat): State
    requires i < |st.outputs|
  {
    Log(Put(st, i, FrameDone(st.outputs[i])), Flip(i))
  }

  lemma LandedOwn(st: State, i: nat, start: Startup)
    requires i < |st.outputs|
    ensures
      var r, o, o' := Landed(st, i), st.outputs[i], FrameDone(st.outputs[i]);
      && Own(r.trace, i) == Own(st.trace, i) + [Flip(i)]
      && SurfaceActions(o', i, start) == SurfaceActions(o, i, start) && SleepActions(o', i) == SleepActions(o, i)
      && RemoveActions(o', i, start) == RemoveActions(o, i, start)
  {
  }

  /**
   A completed flight carries out every request that was deferred during it, in the
   order surface, sleep, terminate, and leaves none recorded.
   */
  lemma CompletionPerformsAll(st: State, i: nat, start: Startup)
    requires Inv(st) && i < |st.outputs| && Flying(st.outputs[i])
    ensures
      var r, o := FinishFrame(st, i, start), st.outputs[i];
      && Own(r.trace, i) == Own(st.trace, i) + [Flip(i)] + SurfaceActions(o, i, start) + SleepActions(o, i)
        + RemoveActions(o, i, start)
      && NoTasks(r.outputs[i]) && !r.outputs[i].pending
  {
    FinishFrameOk(st, i, start);
    TasksOwn(Landed(st, i), i, start);
    LandedOwn(st, i, start);
  }

  // -------------------------------------------------------- wanted repaints

  /** Nothing but the frame loop itself, as far as output i is concerned. */
  predicate Calm(e: Event, i: nat) {
    || e.TimerFires? || e.FlipCompletes? || e.RequestRepaint? || e.FocusOutput? || e.IdleRuns?
    || ((e.Sleep? || e.SetBackend? || e.OutputGone?) && e.output != i)
  }

  predicate Ready(st: State, i: nat) {
    i < |st.outputs| && st.active && st.outputs[i].surface.Some? && NoTasks(st.outputs[i])
  }

  /** The flight of i ends, if there is one, and then its timer fires. */
  predicate WillFire(es: seq<Event>, i: nat, inFlight: bool)
    decreases |es|
  {
    es != [] &&
    if inFlight then WillFire(es[1..], i, !(es[0].FlipCompletes? && es[0].output == i))
    else (es[0].TimerFires? && es[0].output == i) || WillFire(es[1..], i, false)
  }

  /** From st to r there was a swap of i, which may have been completed at once. */
  predicate Swaps(st: State, r: State, i: nat) {
    r.trace == Then(st.trace, Swap(i)) || r.trace == Then(Then(st.trace, Swap(i)), Flip(i))
  }

  /** Some event of the run is the timer of i, and it starts a swap. */
  ghost predicate Served(st: State, es: seq<Event>, i: nat)
    requires AllowedRun(st, es)
    decreases |es|
  {
    es != [] &&
    ((es[0].TimerFires? && es[0].output == i && Swaps(st, Step(st, es[0]), i)) || Served(Step(st, es[0]), es[1..], i))
  }

  lemma FinishSurfaceActive(st: State, i: nat, start: Startup)
    requires i < |st.outputs|
    ensures FinishSurface(st, i, start).active == st.active
    ensures FinishSurface(st, i, start).outputs[i].pending == st.outputs[i].pending
  {
    SetSurfaceEffect(st, i, TaskSurface(st.outputs[i]), start);
  }

  lemma FinishSleepActive(st: State, i: nat)
    requires i < |st.outputs|
    ensures FinishSleep(st, i).active == st.active && FinishSleep(st, i).outputs[i].pending == st.outputs[i].pending
  {
    SetSleepEffect(st, i, true);
  }

  lemma FinishTerminateActive(st: State, i: nat)
    requires i < |st.outputs| && !st.outputs[i].pending
    ensures FinishTerminate(st, i).active == st.active
  {
    RemoveOutputEffect(st, i);
  }

  lemma FinishFrameActive(st: State, i: nat, start: Startup)
    requires i < |st.outputs|
    ensures FinishFrame(st, i, start).active == st.active
  {
    var a := Log(Put(st, i, FrameDone(st.outputs[i])), Flip(i));
    FinishSurfaceActive(a, i, start);
    FinishSleepActive(FinishSurface(a, i, start), i);
    FinishTerminateActive(FinishSleep(FinishSurface(a, i, start), i), i);
  }

  /** Output i is as before, or has been asked to repaint. */
  predicate AtMostScheduled(st: State, r: State, i: nat) {
    && r.active == st.active && i < |r.outputs| && i < |st.outputs|
    && var o, o' := st.outputs[i], r.outputs[i];
       o' == o || o' == Schedule(o)
  }

  lemma CalmFrame(st: State, i: nat, j: nat, swapped: bool, start: Startup)
    requires Inv(st) && i < |st.outputs| && j < |st.outputs| && i != j
    requires swapped || !Late(st.outputs[j])
    ensures st.outputs[j].armed ==> AtMostScheduled(st, Repaint(st, j, swapped, start), i)
    ensures Flying(st.outputs[j]) ==> AtMostScheduled(st, FinishFrame(st, j, start), i)
  {
    if st.outputs[j].armed {
      RepaintOk(st, j, swapped, start);
    }
    if Flying(st.outputs[j]) {
      FinishFrameOk(st, j, start);
      FinishFrameActive(st, j, start);
    }
  }

  /** Calm events other than its own timer and flip leave an output alone or ask it to repaint. */
  lemma CalmStep(st: State, e: Event, i: nat)
    requires Inv(st) && Allowed(st, e) && Calm(e, i) && i < |st.outputs|
    requires !((e.TimerFires? || e.FlipCompletes?) && e.output == i)
    ensures AtMostScheduled(st, Step(st, e), i)
  {
    match e
    case TimerFires(j, swapped, start) => CalmFrame(st, i, j, swapped, start);
    case FlipCompletes(j, start) => CalmFrame(st, i, j, true, start);
    case Sleep(j, sleep) => SetSleepEffect(st, j, sleep);
    case SetBackend(j, b, start) => SetSurfaceEffect(st, j, b, start);
    case OutputGone(j) => OutputGoneStep(st, j);
    case FocusOutput(f) => FocusEffect(st, f);
    case RequestRepaint(j) =>
    case IdleRuns =>
  }

  lemma OutputGoneStep(st: State, j: nat)
    requires j < |st.outputs|
    ensures OthersScheduled(st, OutputTerminate(st, j), j) && OutputTerminate(st, j).active == st.active
  {
    if !st.outputs[j].pending {
      RemoveOutputEffect(st, j);
    }
  }

  lemma OwnFlip(st: State, i: nat, start: Startup)
    requires Inv(st) && Ready(st, i) && st.outputs[i].pending && st.outputs[i].activity
    ensures
      var r := FinishFrame(st, i, start);
      Ready(r, i) && r.outputs[i].armed && !r.outputs[i].pending
  {
  }

  /**
   No requested repaint is lost: once a repaint of a running output is wanted, the end of
   the flight (if it is in flight) and then the timer bring about a new swap.
   */
  lemma {:induction false} WantedRepaintIsServed(st: State, es: seq<Event>, i: nat)
    requires Inv(st) && Ready(st, i) && AllowedRun(st, es)
    requires st.outputs[i].activity || st.outputs[i].armed
    requires forall e :: e in es ==> Calm(e, i)
    requires WillFire(es, i, st.outputs[i].pending)
    ensures Served(st, es, i)
    decreases |es|
  {
    var e := es[0];
    var r := Step(st, e);
    StepOk(st, e);
    if e.TimerFires? && e.output == i {
      RepaintOk(st, i, e.swapped, e.start);
    } else {
      if e.FlipCompletes? && e.output == i {
        OwnFlip(st, i, e.start);
      } else {
        CalmStep(st, e, i);
      }
      WantedRepaintIsServed(r, es[1..], i);
    }
  }

  // --------------------------------------------- giving up, and shutting down

  /** No output gains a surface, and the terminal does not come back. */
  predicate Steady(e: Event) {
    !e.AddedOutput? && !(e.SetBackend? && e.backend.Some?) && !(e.SetActive? && e.active)
  }

  /** Flights go on, and nothing is gained. */
  predicate Ebb(o: Output, o': Output) {
    && (o'.surface.Some? ==> o.surface.Some?)
    && (o.pending && o.surface.Some? ==> o'.pending && o'.surface.Some? && (o.taskTerminate ==> o'.taskTerminate))
    && (Leaving(o) ==> Leaving(o'))
  }

  predicate Ebbs(st: State, r: State) {
    && |r.outputs| == |st.outputs|
    && (forall j :: 0 <= j < |st.outputs| ==> Ebb(st.outputs[j], r.outputs[j]))
    && (Announced(st.trace) ==> Announced(r.trace))
  }

  lemma RespondAnnounced(st: State)
    ensures Announced(st.trace) ==> Announced(RespondTty(st).trace)
  {
  }

  lemma SetSurfaceAnnounced(st: State, i: nat, b: Option<Backend>, start: Startup)
    requires i < |st.outputs|
    ensures Announced(st.trace) ==> Announced(SetSurface(st, i, b, start).trace)
  {
    var o := st.outputs[i];
    if !SameSurface(o.surface, b) && !o.pending {
      var held := if start.Comes? then b else None;
      RespondAnnounced(Log(Put(st, i, Resurfaced(o, held, start == Comes(true))), Surface(i, held.Some?)));
    }
  }

  lemma SetSurfaceEbbs(st: State, i: nat, start: Startup)
    requires i < |st.outputs|
    ensures Ebbs(st, SetSurface(st, i, None, start))
  {
    SetSurfaceEffect(st, i, None, start);
    SetSurfaceAnnounced(st, i, None, start);
  }

  lemma RemoveOutputEbbs(st: State, i: nat)
    requires i < |st.outputs| && !st.outputs[i].pending
    ensures Ebbs(st, RemoveOutput(st, i))
  {
    RefocusedEffect(st, i);
    var a := Log(Refocused(st, i), Removed(i));
    SetSurfaceEbbs(a, i, Fails);
    RemoveOutputEffect(st, i);
  }

  lemma OutputTerminateEbbs(st: State, i: nat)
    requires i < |st.outputs|
    ensures Ebbs(st, OutputTerminate(st, i))
  {
    if !st.outputs[i].pending {
      RemoveOutputEbbs(st, i);
    }
  }

  lemma {:induction false} RemoveFromEbbs(st: State, k: nat)
    requires k <= |st.outputs|
    ensures Ebbs(st, RemoveFrom(st, k))
    decreases |st.outputs| - k
  {
    if k < |st.outputs| {
      SetSurfaceEbbs(st, k, Fails);
      RemoveFromEbbs(SetSurface(st, k, None, Fails), k + 1);
    }
  }

  lemma {:induction false} TerminateFromEbbs(st: State, k: nat)
    requires k <= |st.outputs|
    ensures Ebbs(st, TerminateFrom(st, k))
    decreases |st.outputs| - k
  {
    if k < |st.outputs| {
      OutputTerminateEbbs(st, k);
      TerminateFromEbbs(OutputTerminate(st, k), k + 1);
    }
  }

  lemma LeaveEbbs(st: State, vt: int)
    ensures Ebbs(st, Leave(st, vt))
  {
    RemoveFromEbbs(Log(st.(tty := DEACTIVATING, vt := vt), Deactivate), 0);
  }

  lemma StepEbbs(st: State, e: Event)
    requires Inv(st) && Allowed(st, e) && Steady(e) && !e.FlipCompletes?
    ensures Ebbs(st, Step(st, e))
  {
    match e
    case TimerFires(i, swapped, start) => RepaintEbbs(st, i, swapped, start);
    case Sleep(i, sleep) => SleepEbbs(st, i, sleep);
    case SetBackend(i, b, start) => SetSurfaceEbbs(st, i, start);
    case OutputGone(i) => OutputTerminateEbbs(st, i);
    case FocusOutput(f) => FocusEbbs(st, f);
    case SetActive(active, changes) => LeaveEbbs(st.(active := active), 0);
    case VtKey(vt) => LeaveEbbs(st, vt);
    case Terminate => TerminateEbbs(st);
    case RequestRepaint(i) =>
    case IdleRuns =>
  }

  lemma TerminateEbbs(st: State)
    ensures Ebbs(st, CompositorTerminate(st))
  {
    TerminateFromEbbs(Log(st.(terminating := true), TerminateRequested), 0);
  }

  lemma FocusEbbs(st: State, f: Option<nat>)
    requires f.Some? ==> f.value < |st.outputs|
    ensures Ebbs(st, Focus(st, f))
  {
    FocusEffect(st, f);
  }

  lemma RepaintEbbs(st: State, i: nat, swapped: bool, start: Startup)
    requires Inv(st) && i < |st.outputs| && st.outputs[i].armed && (swapped || !Late(st.outputs[i]))
    ensures Ebbs(st, Repaint(st, i, swapped, start))
  {
    RepaintOk(st, i, swapped, start);
    DrawnEbbs(st, Repaint(st, i, swapped, start), i);
  }

  lemma DrawnEbbs(st: State, r: State, i: nat)
    requires i < |st.outputs| && st.outputs[i].armed && OutputOk(st.outputs[i])
    requires r == Put(st, i, Cancel(st.outputs[i])) || r == Lapsed(st, i) || r == Swapped(st, i) || r == Finished(st, i)
    ensures Ebbs(st, r)
  {
    assert OnlyOutput(st, r, i);
    assert r.outputs[i].surface == st.outputs[i].surface && r.outputs[i].taskTerminate == st.outputs[i].taskTerminate;
    assert Ebb(st.outputs[i], r.outputs[i]);
    OneEbbs(st, r, i);
  }

  lemma OneEbbs(st: State, r: State, i: nat)
    requires i < |st.outputs| && OnlyOutput(st, r, i) && Ebb(st.outputs[i], r.outputs[i])
    requires Announced(st.trace) ==> Announced(r.trace)
    ensures Ebbs(st, r)
  {
    forall j | 0 <= j < |st.outputs| && j != i ensures Ebb(st.outputs[j], r.outputs[j]) {}
  }

  lemma SleepEbbs(st: State, i: nat, sleep: bool)
    requires i < |st.outputs|
    ensures Ebbs(st, SetSleep(st, i, sleep))
  {
    SetSleepEffect(st, i, sleep);
    OneEbbs(st, SetSleep(st, i, sleep), i);
  }

  /** All surfaces are gone or about to go, if the terminal is being given up. */
  predicate Clearing(st: State) {
    st.tty == DEACTIVATING ==> forall j :: 0 <= j < |st.outputs| ==> Leaving(st.outputs[j])
  }

  lemma FinishTerminateAnnounced(st: State, i: nat)
    requires i < |st.outputs| && !st.outputs[i].pending
    ensures Announced(st.trace) ==> Announced(FinishTerminate(st, i).trace)
    ensures st.outputs[i].taskTerminate && st.terminating ==>
      Announced(FinishTerminate(st, i).trace) || SomeHolder(FinishTerminate(st, i))
  {
    if st.outputs[i].taskTerminate {
      RemoveOutputEbbs(st, i);
      if st.terminating {
        RemoveOutputAnnounces(st, i);
        var a := RemoveOutput(st, i);
        if SomeHolder(a) {
          var j :| 0 <= j < |a.outputs| && Holder(a, j);
          assert Holder(FinishTerminate(st, i), j);
        }
      }
    }
  }

  /** While a flight's end is awaited to give up the terminal or to shut down, it comes with the surface's removal. */
  lemma FlipRemoves(st: State, i: nat, start: Startup)
    requires Inv(st) && i < |st.outputs| && Flying(st.outputs[i])
    requires (Leaving(st.outputs[i]) || st.outputs[i].taskTerminate)
    ensures
      var r := FinishFrame(st, i, start);
      && OthersScheduled(st, r, i) && r.terminating == st.terminating && !Holder(r, i)
  {
    FinishFrameOk(st, i, start);
    if !st.outputs[i].taskTerminate {
      TasksRemove(Log(Put(st, i, FrameDone(st.outputs[i])), Flip(i)), i, start);
    }
  }

  lemma TasksRemove(st: State, i: nat, start: Startup)
    requires i < |st.outputs| && !st.outputs[i].pending && st.outputs[i].taskSurface == Remove
    requires !st.outputs[i].taskTerminate
    ensures !Holder(FinishTasks(st, i, start), i)
  {
    SetSurfaceEffect(st, i, None, start);
    SetSleepEffect(FinishSurface(st, i, start), i, true);
  }

  lemma FlipAnnounces(st: State, i: nat, start: Startup)
    requires Inv(st) && i < |st.outputs| && Flying(st.outputs[i]) && st.outputs[i].taskTerminate && st.terminating
    ensures Announced(FinishFrame(st, i, start).trace) || SomeHolder(FinishFrame(st, i, start))
  {
    var a := Log(Put(st, i, FrameDone(st.outputs[i])), Flip(i));
    LandedOk(st, i);
    SettledKept(st, a);
    FinishSurfaceOk(a, i, start);
    FinishSurfaceEffect(a, i, start);
    FinishSleepOk(FinishSurface(a, i, start), i);
    FinishTerminateAnnounced(FinishSleep(FinishSurface(a, i, start), i), i);
  }

  /** From st to r nobody takes a new surface. */
  predicate NoneGained(st: State, r: State) {
    |r.outputs| == |st.outputs| && forall j :: 0 <= j < |r.outputs| && Holder(r, j) ==> Holder(st, j)
  }

  lemma EbbsClearing(st: State, r: State)
    requires Ebbs(st, r) && Clearing(st) && st.tty == DEACTIVATING
    ensures NoneGained(st, r) && Clearing(r)
  {
  }

  lemma FlipClearing(st: State, r: State, i: nat)
    requires i < |st.outputs| && OthersScheduled(st, r, i) && !Holder(r, i) && Clearing(st) && st.tty == DEACTIVATING
    ensures NoneGained(st, r) && Clearing(r)
  {
  }

  /** Giving up the terminal stays under way: nobody takes a new surface, and each flight's end removes one. */
  lemma ClearingStep(st: State, e: Event)
    requires Inv(st) && Allowed(st, e) && Steady(e) && Clearing(st) && st.tty == DEACTIVATING
    ensures NoneGained(st, Step(st, e)) && Clearing(Step(st, e))
    ensures e.FlipCompletes? ==> !Holder(Step(st, e), e.output)
  {
    if e.FlipCompletes? {
      FlipRemoves(st, e.output, e.start);
      FlipClearing(st, FinishFrame(st, e.output, e.start), e.output);
    } else {
      StepEbbs(st, e);
      EbbsClearing(st, Step(st, e));
    }
  }

  lemma EbbsClosing(st: State, r: State)
    requires Ebbs(st, r) && Ending(st, |st.outputs|)
    ensures NoneGained(st, r) && Ending(r, |r.outputs|)
  {
    forall j: nat | Holder(st, j)
      ensures Holder(r, j)
    {
    }
    assert SomeHolder(st) ==> SomeHolder(r);
  }

  lemma FlipClosing(st: State, r: State, i: nat)
    requires i < |st.outputs| && OthersScheduled(st, r, i) && !Holder(r, i) && Ending(st, |st.outputs|)
    requires Announced(r.trace) || SomeHolder(r)
    ensures NoneGained(st, r) && Ending(r, |r.outputs|)
  {
    forall j | 0 <= j < |r.outputs| && Holder(r, j)
      ensures Holder(st, j) && r.outputs[j].pending && r.outputs[j].taskTerminate
    {
      assert Holder(st, j);
    }
  }

  /** Shutdown stays under way in the same manner, and the last removal is announced. */
  lemma ClosingStep(st: State, e: Event)
    requires Inv(st) && Allowed(st, e) && Steady(e) && Ending(st, |st.outputs|) && st.terminating && |st.outputs| > 0
    ensures NoneGained(st, Step(st, e)) && Ending(Step(st, e), |Step(st, e).outputs|) && Step(st, e).terminating
    ensures e.FlipCompletes? ==> !Holder(Step(st, e), e.output)
  {
    if e.FlipCompletes? {
      ClosingFlip(st, e.output, e.start);
    } else {
      StepEbbs(st, e);
      StaysTerminating(st, e);
      EbbsClosing(st, Step(st, e));
    }
  }

  lemma ClosingFlip(st: State, i: nat, start: Startup)
    requires Inv(st) && i < |st.outputs| && Flying(st.outputs[i]) && Ending(st, |st.outputs|) && st.terminating
    ensures
      var r := FinishFrame(st, i, start);
      NoneGained(st, r) && Ending(r, |r.outputs|) && r.terminating && !Holder(r, i)
  {
    assert Holder(st, i);
    FlipRemoves(st, i, start);
    FlipAnnounces(st, i, start);
    FlipClosing(st, FinishFrame(st, i, start), i);
  }

  lemma StaysTerminating(st: State, e: Event)
    requires Inv(st) && Allowed(st, e) && Steady(e) && st.terminating && !e.FlipCompletes?
    ensures Step(st, e).terminating
  {
    match e
    case TimerFires(i, swapped, start) => RepaintOk(st, i, swapped, start);
    case Sleep(i, sleep) => SetSleepEffect(st, i, sleep);
    case SetBackend(i, b, start) => SetSurfaceEffect(st, i, b, start);
    case OutputGone(i) => OutputTerminateEffect(st, i);
    case FocusOutput(f) => FocusEffect(st, f);
    case SetActive(active, changes) =>
      ActiveOk(st, active);
      LeaveOk(st.(active := active), 0);
    case VtKey(vt) => LeaveOk(st, vt);
    case Terminate => TerminateOk(st);
    case RequestRepaint(i) =>
    case IdleRuns =>
  }

  /** The flight of output j ends during the run. */
  predicate Lands(es: seq<Event>, j: nat) {
    exists k :: 0 <= k < |es| && es[k].FlipCompletes? && es[k].output == j
  }

  lemma LandsLater(es: seq<Event>, j: nat)
    requires Lands(es, j) && !(es[0].FlipCompletes? && es[0].output == j)
    ensures Lands(es[1..], j)
  {
    var k :| 0 <= k < |es| && es[k].FlipCompletes? && es[k].output == j;
    assert es[1..][k - 1] == es[k];
  }

  ghost predicate LeavesDeactivating(st: State, es: seq<Event>)
    requires AllowedRun(st, es)
    decreases |es|
  {
    st.tty != DEACTIVATING || (es != [] && LeavesDeactivating(Step(st, es[0]), es[1..]))
  }

  lemma {:induction false} ClearingEnds(st: State, es: seq<Event>)
    requires Inv(st) && Clearing(st) && AllowedRun(st, es)
    requires forall e :: e in es ==> Steady(e)
    requires forall j :: 0 <= j < |st.outputs| && Holder(st, j) ==> Lands(es, j)
    ensures LeavesDeactivating(st, es)
    decreases |es|
  {
    if st.tty == DEACTIVATING {
      var h :| 0 <= h < |st.outputs| && Holder(st, h);
      assert Lands(es, h);
      var r := Step(st, es[0]);
      StepOk(st, es[0]);
      ClearingStep(st, es[0]);
      forall j | 0 <= j < |r.outputs| && Holder(r, j)
        ensures Lands(es[1..], j)
      {
        LandsLater(es, j);
      }
      ClearingEnds(r, es[1..]);
    }
  }

  lemma LeaveClears(st: State, e: Event)
    requires Inv(st) && (e.VtKey? || (e.SetActive? && !e.active && st.active))
    ensures Clearing(Step(st, e))
  {
    if e.VtKey? {
      LeaveOk(st, e.vt);
    } else {
      ActiveOk(st, e.active);
      LeaveOk(st.(active := e.active), 0);
    }
  }

  /**
   Giving up the terminal never hangs: with no surface gained meanwhile, once every frame
   that was in flight has completed, DEACTIVATING has been left, and (by the legality of
   the trace) that happened with no surface held.
   */
  lemma TerminalIsGivenUp(st: State, e: Event, es: seq<Event>)
    requires Inv(st) && (e.VtKey? || (e.SetActive? && !e.active && st.active))
    requires AllowedRun(Step(st, e), es) && forall d :: d in es ==> Steady(d)
    requires forall j :: 0 <= j < |Step(st, e).outputs| && Step(st, e).outputs[j].pending ==> Lands(es, j)
    ensures LeavesDeactivating(Step(st, e), es)
  {
    var r := Step(st, e);
    StepOk(st, e);
    LeaveClears(st, e);
    if r.tty == DEACTIVATING {
      ClearingEnds(r, es);
    }
  }

  lemma {:induction false} ClosingEnds(st: State, es: seq<Event>)
    requires Inv(st) && Ending(st, |st.outputs|) && st.terminating && |st.outputs| > 0 && AllowedRun(st, es)
    requires forall e :: e in es ==> Steady(e)
    requires forall j :: 0 <= j < |st.outputs| && Holder(st, j) ==> Lands(es, j)
    ensures Announced(Run(st, es).trace)
    decreases |es|
  {
    if es == [] {
      assert !SomeHolder(st);
    } else {
      var r := Step(st, es[0]);
      StepOk(st, es[0]);
      ClosingStep(st, es[0]);
      forall j | 0 <= j < |r.outputs| && Holder(r, j)
        ensures Lands(es[1..], j)
      {
        LandsLater(es, j);
      }
      ClosingEnds(r, es[1..]);
    }
  }

  /**
   Shutdown never hangs: with at least one output and no surface gained, once every frame
   that was in flight has completed, termination has been announced.
   */
  lemma TerminationIsAnnounced(st: State, es: seq<Event>)
    requires Inv(st) && !st.terminating && |st.outputs| > 0
    requires AllowedRun(Step(st, Terminate), es) && forall e :: e in es ==> Steady(e)
    requires forall j :: 0 <= j < |Step(st, Terminate).outputs| && Step(st, Terminate).outputs[j].pending ==>
      Lands(es, j)
    ensures Announced(Run(Step(st, Terminate), es).trace)
  {
    StepOk(st, Terminate);
    TerminateOk(st);
    ClosingEnds(Step(st, Terminate), es);
  }

  // --------------------------------------------------- without a sleep hook

  /** Falling asleep leaves the timer armed and unrecorded exactly when it was armed and there is no hook to stop it. */
  lemma SleepIsLateExactly(o: Output)
    requires OutputOk(o) && !o.pending && !o.sleeping
    ensures Late(Asleep(o)) <==> o.armed && !Hooked(o)
    ensures OutputOk(Asleep(o))
  {
  }

  /** That lasts until the timer fires at the latest; the frame it draws, if any, is finished in the same event. */
  lemma LateEndsWithTimer(st: State, i: nat, start: Startup)
    requires Inv(st) && i < |st.outputs| && Late(st.outputs[i])
    ensures
      var r := Repaint(st, i, true, start);
      && !Late(r.outputs[i]) && !r.outputs[i].armed && NoTasks(r.outputs[i])
      && r.trace == (if st.active && Holder(st, i) then Then(Then(st.trace, Swap(i)), Flip(i)) else st.trace)
  {
    RepaintOk(st, i, true, start);
  }

  // ------------------------------------------------- leaving at once, or not

  lemma {:induction false} RemoveFromWaits(st: State, k: nat, j: nat)
    requires k <= |st.outputs| && j < |st.outputs| && Holder(st, j) && st.outputs[j].pending && st.tty == DEACTIVATING
    ensures var r := RemoveFrom(st, k); Holder(r, j) && r.tty == DEACTIVATING
    decreases |st.outputs| - k
  {
    if k < |st.outputs| {
      var r := SetSurface(st, k, None, Fails);
      SetSurfaceEffect(st, k, None, Fails);
      assert Holder(r, j);
      SetSurfaceWaits(st, k, j);
      RemoveFromWaits(r, k + 1, j);
    }
  }

  lemma SetSurfaceWaits(st: State, k: nat, j: nat)
    requires k < |st.outputs| && j < |st.outputs| && Holder(st, j) && st.outputs[j].pending && st.tty == DEACTIVATING
    ensures SetSurface(st, k, None, Fails).tty == DEACTIVATING
  {
    if !st.outputs[k].pending && Holder(st, k) {
      var a := Log(Put(st, k, Resurfaced(st.outputs[k], None, false)), Surface(k, false));
      assert Holder(a, j);
    }
  }

  /** The terminal is given up in the very event that asks for it exactly when no frame is in flight. */
  lemma LeaveAtOnceExactly(st: State, vt: int)
    requires Inv(st)
    ensures Leave(st, vt).tty == IDLE <==> forall j :: 0 <= j < |st.outputs| ==> !st.outputs[j].pending
    ensures Leave(st, vt).tty == IDLE ==> !SomeHolder(Leave(st, vt))
  {
    LeaveOk(st, vt);
    var r := Leave(st, vt);
    if j :| 0 <= j < |st.outputs| && st.outputs[j].pending {
      var a := Log(st.(tty := DEACTIVATING, vt := vt), Deactivate);
      RemoveFromWaits(a, 0, j);
      assert Holder(RemoveFrom(a, 0), j);
    } else {
      assert !SomeHolder(r) by {
        if h :| 0 <= h < |r.outputs| && Holder(r, h) { assert r.outputs[h].pending == st.outputs[h].pending; }
      }
    }
  }

  /** Without sleep hooks there is no frame to wait for, unless a swap failed. */
  lemma HooklessLeavesAtOnce(st: State, vt: int)
    requires Inv(st) && forall j :: 0 <= j < |st.outputs| ==> !Hooked(st.outputs[j])
    ensures forall j :: 0 <= j < |st.outputs| && !st.outputs[j].dead ==>
      !st.outputs[j].pending && NoTasks(st.outputs[j])
    ensures Leave(st, vt).tty == IDLE <==> forall j :: 0 <= j < |st.outputs| ==> !st.outputs[j].dead
    ensures Leave(st, vt).tty == IDLE ==> !SomeHolder(Leave(st, vt))
  {
    LeaveAtOnceExactly(st, vt);
  }

  // --------------------------------------------------- waking up in flight

  lemma FinishSurfaceSleep(st: State, i: nat, start: Startup)
    requires i < |st.outputs| && !st.outputs[i].pending
    ensures
      var r, o := FinishSurface(st, i, start), st.outputs[i];
      r.outputs[i].sleeping == o.sleeping && r.outputs[i].taskSleep == o.taskSleep && !r.outputs[i].pending
  {
    var b := TaskSurface(st.outputs[i]);
    SetSurfaceEffect(st, i, b, start);
    StruckEffect(st, SetSurface(st, i, b, start), i);
  }

  lemma FinishSleepSleep(st: State, i: nat)
    requires i < |st.outputs| && !st.outputs[i].pending
    ensures
      var r, o := FinishSleep(st, i), st.outputs[i];
      r.outputs[i].sleeping == (o.sleeping || o.taskSleep) && !r.outputs[i].pending
  {
    SetSleepEffect(st, i, true);
  }

  lemma FinishTerminateSleep(st: State, i: nat)
    requires i < |st.outputs| && !st.outputs[i].pending
    ensures FinishTerminate(st, i).outputs[i].sleeping == st.outputs[i].sleeping
  {
    RemoveOutputEffect(st, i);
  }

  lemma FinishFrameSleep(st: State, i: nat, start: Startup)
    requires i < |st.outputs|
    ensures FinishFrame(st, i, start).outputs[i].sleeping == (st.outputs[i].sleeping || st.outputs[i].taskSleep)
  {
    var a := Log(Put(st, i, FrameDone(st.outputs[i])), Flip(i));
    var b := FinishSurface(a, i, start);
    FinishSurfaceSleep(a, i, start);
    FinishSleepSleep(b, i);
    FinishTerminateSleep(FinishSleep(b, i), i);
  }

  /**
   After a wake-up in flight the output is asleep at the end of the flight exactly if a sleep
   had been deferred before.
   */
  lemma WakeInFlightExactly(st: State, i: nat, start: Startup)
    requires Inv(st) && i < |st.outputs| && st.outputs[i].pending
    ensures FinishFrame(SetSleep(st, i, false), i, start).outputs[i].sleeping <==> st.outputs[i].taskSleep
  {
    FinishFrameSleep(SetSleep(st, i, false), i, start);
  }

  // ------------------------------------------------- a second request to terminate

  /** A sleep asked for in flight changes nothing until the flight ends, and then the output sleeps. */
  lemma SleepInFlightIsKept(st: State, i: nat, start: Startup)
    requires i < |st.outputs| && st.outputs[i].pending && !st.outputs[i].sleeping
    ensures SetSleep(st, i, true) == Put(st, i, st.outputs[i].(taskSleep := true))
    ensures FinishFrame(SetSleep(st, i, true), i, start).outputs[i].sleeping
  {
    FinishFrameSleep(SetSleep(st, i, true), i, start);
  }

  /** A timer that fires with nothing to draw on performs a deferred sleep all the same. */
  lemma IdleTimerSleeps(st: State, i: nat, swapped: bool, start: Startup)
    requires i < |st.outputs| && !st.outputs[i].pending && (!st.active || st.outputs[i].surface.None?)
    ensures Repaint(st, i, swapped, start).outputs[i].sleeping == (st.outputs[i].sleeping || st.outputs[i].taskSleep)
  {
    var a := Put(st, i, st.outputs[i].(armed := false, activity := false, scheduled := false));
    FinishSurfaceSleep(a, i, start);
    FinishSleepSleep(FinishSurface(a, i, start), i);
    FinishTerminateSleep(FinishSleep(FinishSurface(a, i, start), i), i);
  }

  /** A timer that fires during a flight draws nothing. */
  lemma TimerInFlightDrawsNothing(st: State, i: nat, swapped: bool, start: Startup)
    requires i < |st.outputs| && st.outputs[i].pending && NoTasks(st.outputs[i])
    ensures Repaint(st, i, swapped, start)
      == Put(st, i, st.outputs[i].(armed := false, activity := false, scheduled := false))
  {
  }

  /**
   A flight with nothing deferred ends with the timer armed exactly if a repaint was asked for since
   the flight before it ended; the request that led to it counts, since a swap does not clear it.
   */
  lemma FlightEndsExactly(st: State, i: nat, start: Startup)
    requires Inv(st) && i < |st.outputs| && st.outputs[i].pending && NoTasks(st.outputs[i])
    ensures
      var o := st.outputs[i];
      FinishFrame(st, i, start).outputs[i]
        == o.(pending := false, armed := o.activity, scheduled := o.activity, activity := false)
  {
    UntaskedFinish(st, i, start);
    assert OutputOk(st.outputs[i]);
  }

  /** A frame that nobody asks to repeat is the last: one more at most, and the output is quiet. */
  lemma QuietAfterOneMore(st: State, i: nat, start: Startup)
    requires Inv(st) && i < |st.outputs| && Flying(st.outputs[i]) && NoTasks(st.outputs[i])
    ensures
      var a := FinishFrame(st, i, start);
      a.outputs[i].armed ==>
        var r := Repaint(a, i, true, start);
        var q := if r.outputs[i].pending then FinishFrame(r, i, start) else r;
        !q.outputs[i].armed && !q.outputs[i].scheduled && !q.outputs[i].activity && !q.outputs[i].pending
  {
    var a := FinishFrame(st, i, start);
    FlightEndsExactly(st, i, start);
    FinishFrameOk(st, i, start);
    if a.outputs[i].armed {
      RepaintOk(a, i, true, start);
      var r := Repaint(a, i, true, start);
      if r.outputs[i].pending { FlightEndsExactly(r, i, start); }
    }
  }

  lemma OutputTerminateFlights(st: State, k: nat, j: nat)
    requires k < |st.outputs| && j < |st.outputs|
    ensures OutputTerminate(st, k).outputs[j].pending == st.outputs[j].pending
  {
    OutputTerminateEffect(st, k);
    if !st.outputs[k].pending { RemoveOutputEffect(st, k); }
  }

  lemma {:induction false} TerminateFromFlights(st: State, k: nat, j: nat)
    requires k <= |st.outputs| && j < |st.outputs|
    ensures var r := TerminateFrom(st, k); |r.outputs| == |st.outputs| && r.outputs[j].pending == st.outputs[j].pending
    decreases |st.outputs| - k
  {
    if k < |st.outputs| {
      OutputTerminateFlights(st, k, j);
      TerminateFromFlights(OutputTerminate(st, k), k + 1, j);
    }
  }

  /** A request to terminate leaves a surface held exactly when a frame is in flight. */
  lemma TerminateHolds(st: State)
    requires Inv(st) && !st.terminating && |st.outputs| > 0
    ensures
      var r := CompositorTerminate(st);
      && Inv(r) && r.terminating
      && (SomeHolder(r) <==> exists j :: 0 <= j < |st.outputs| && st.outputs[j].pending)
  {
    TerminateOk(st);
    var r, a := CompositorTerminate(st), Log(st.(terminating := true), TerminateRequested);
    forall j: nat | j < |st.outputs| ensures r.outputs[j].pending == st.outputs[j].pending {
      TerminateFromFlights(a, 0, j);
    }
    if j :| 0 <= j < |st.outputs| && st.outputs[j].pending { assert Holder(r, j); }
    if j :| 0 <= j < |r.outputs| && Holder(r, j) { assert st.outputs[j].pending; }
  }

  /**
   A second request right after the first announces the end although a surface is held,
   exactly when a frame was in flight at the first.
   */
  lemma SecondTerminateExactly(st: State)
    requires Inv(st) && !st.terminating && |st.outputs| > 0
    ensures
      Legal(CompositorTerminate(CompositorTerminate(st)).trace) <==>
        forall j :: 0 <= j < |st.outputs| ==> !st.outputs[j].pending
  {
    TerminateHolds(st);
    var r := CompositorTerminate(st);
    if SomeHolder(r) {
      var j :| 0 <= j < |r.outputs| && Holder(r, j);
      assert Holds(r.trace, j);
    } else {
      TerminateOk(r);
    }
  }

  // ------------------------------------------------------ the switch itself

  /** Since the last request to switch, the last change of surface of output i gave it one. */
  predicate Regained(t: Trace, i: nat) {
    match t
    case Start => false
    case Then(past, SwitchRequested(_)) => false
    case Then(past, Surface(j, holds)) => if i == j then holds else Regained(past, i)
    case Then(past, _) => Regained(past, i)
  }

  /** Since the last request to switch, no output was given a surface. */
  predicate NoneGiven(t: Trace) {
    match t
    case Start => true
    case Then(past, SwitchRequested(_)) => true
    case Then(past, Surface(_, holds)) => !holds && NoneGiven(past)
    case Then(past, _) => NoneGiven(past)
  }

  lemma {:induction false} HeldIsRegained(t: Trace, i: nat)
    requires Legal(t) && SwitchPending(t)
    ensures Holds(t, i) == Regained(t, i)
    ensures NoneGiven(t) ==> !Regained(t, i)
  {
    if !t.last.SwitchRequested? {
      HeldIsRegained(t.past, i);
    }
  }

  /**
   The terminal is switched by an idle callback after the request; no surface is held then
   exactly if every output given one since the request has lost it again, in particular if
   none was given one.
   */
  lemma SwitchHoldsNothingExactly(st: State)
    requires Inv(st) && st.idle
    ensures Step(st, IdleRuns) == st.(vt := 0, idle := false, trace := Then(st.trace, VtActivated(st.vt)))
    ensures NoneHeld(st.trace) <==> forall i: nat :: !Regained(st.trace, i)
    ensures NoneGiven(st.trace) ==> NoneHeld(st.trace)
  {
    if NoneGiven(st.trace) {
      forall i: nat ensures !Holds(st.trace, i) { HeldIsRegained(st.trace, i); }
    }
    if NoneHeld(st.trace) {
      forall i: nat ensures !Regained(st.trace, i) { HeldIsRegained(st.trace, i); }
    } else {
      var i: nat :| Holds(st.trace, i);
      HeldIsRegained(st.trace, i);
    }
  }
}
