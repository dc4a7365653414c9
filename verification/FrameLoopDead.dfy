/**
 Flights that never end, and flights that outlast the absence of the terminal: what a failed
 swap holds up for good, and what the return of the terminal does not withdraw.
 */
module FrameLoopDead {
  import opened Basics
  import opened FrameLoop
  import opened FrameLoopInvariant
  import opened FrameLoopProgress
  import opened FrameLoopSafety

  /** Output j holds a surface and waits for a completion that will not come. */
  predicate Stuck(st: State, j: nat) {
    && j < |st.outputs| && st.outputs[j].dead && st.outputs[j].pending && st.outputs[j].surface.Some?
    && st.tty != ACTIVATING
  }

  /** Stuck in both, with the terminal in the same state. */
  predicate Waits(st: State, r: State, j: nat) {
    Stuck(st, j) ==> Stuck(r, j) && r.tty == st.tty
  }

  lemma RespondWaits(st: State, j: nat)
    ensures Waits(st, RespondTty(st), j)
  {
    if Stuck(st, j) { assert Holder(st, j); }
  }

  lemma SetSurfaceWaits(st: State, k: nat, b: Option<Backend>, start: Startup, j: nat)
    requires k < |st.outputs|
    ensures Waits(st, SetSurface(st, k, b, start), j)
  {
    var o := st.outputs[k];
    if Stuck(st, j) && !o.pending {
      var held := if start.Comes? then b else None;
      RespondWaits(Log(Put(st, k, Resurfaced(o, held, start == Comes(true))), Surface(k, held.Some?)), j);
    }
  }

  lemma SetSleepWaits(st: State, k: nat, sleep: bool, j: nat)
    requires k < |st.outputs|
    ensures Waits(st, SetSleep(st, k, sleep), j)
  {
  }

  lemma FocusWaits(st: State, f: Option<nat>, j: nat)
    requires f.Some? ==> f.value < |st.outputs|
    ensures Waits(st, Focus(st, f), j)
  {
  }

  lemma RefocusedWaits(st: State, k: nat, j: nat)
    requires k < |st.outputs|
    ensures Waits(st, Refocused(st, k), j)
  {
    FocusWaits(st.(focused := None), AliveFrom(st, k, 0), j);
  }

  lemma RemoveOutputWaits(st: State, k: nat, j: nat)
    requires k < |st.outputs|
    ensures Waits(st, RemoveOutput(st, k), j)
  {
    RefocusedWaits(st, k, j);
    SetSurfaceWaits(Log(Refocused(st, k), Removed(k)), k, None, Fails, j);
  }

  lemma OutputTerminateWaits(st: State, k: nat, j: nat)
    requires k < |st.outputs|
    ensures Waits(st, OutputTerminate(st, k), j)
  {
    if !st.outputs[k].pending { RemoveOutputWaits(st, k, j); }
  }

  lemma FinishTasksWaits(st: State, k: nat, start: Startup, j: nat)
    requires k < |st.outputs| && k != j
    ensures Waits(st, FinishTasks(st, k, start), j)
  {
    SetSurfaceWaits(st, k, TaskSurface(st.outputs[k]), start, j);
    var a := FinishSurface(st, k, start);
    assert Waits(st, a, j);
    SetSleepWaits(a, k, true, j);
    var b := FinishSleep(a, k);
    assert Waits(a, b, j);
    OutputTerminateWaits(b, k, j);
  }

  lemma FinishFrameWaits(st: State, k: nat, start: Startup, j: nat)
    requires k < |st.outputs| && k != j
    ensures Waits(st, FinishFrame(st, k, start), j)
  {
    FinishTasksWaits(Landed(st, k), k, start, j);
  }

  lemma AddOutputWaits(st: State, b: Backend, resized: bool, accepted: bool, created: bool, start: Startup, j: nat)
    ensures Waits(st, AddOutput(st, b, resized, accepted, created, start), j)
  {
    var i := Surfaceless(st, 0);
    if i < |st.outputs| || created {
      var grown := if i < |st.outputs| then st else st.(outputs := st.outputs + [NEW_OUTPUT]);
      var s := if resized then ScheduleAt(grown, i) else grown;
      assert Waits(st, s, j);
      if !accepted { OutputTerminateWaits(s, i, j); } else { PopulatedWaits(s, i, b, start, j); }
    }
  }

  lemma PopulatedWaits(st: State, i: nat, b: Backend, start: Startup, j: nat)
    requires i < |st.outputs|
    ensures Waits(st, Populated(st, i, b, true, start), j)
  {
    var a := SetSurface(st, i, Some(b), start);
    SetSurfaceWaits(st, i, Some(b), start, j);
    FocusWaits(a, Some(i), j);
  }

  lemma {:induction false} UpdatedWaits(st: State, cs: seq<Change>, j: nat)
    ensures Waits(st, Updated(st, cs), j)
    decreases |cs|
  {
    if cs != [] {
      match cs[0] {
        case Lost(i) => if i < |st.outputs| { OutputTerminateWaits(st, i, j); }
        case Found(b, resized, accepted, created, start) => AddOutputWaits(st, b, resized, accepted, created, start, j);
      }
      UpdatedWaits(Changed(st, cs[0]), cs[1..], j);
    }
  }

  lemma {:induction false} RemoveFromStuck(st: State, k: nat, j: nat)
    requires k <= |st.outputs|
    ensures Waits(st, RemoveFrom(st, k), j)
    decreases |st.outputs| - k
  {
    if k < |st.outputs| {
      SetSurfaceWaits(st, k, None, Fails, j);
      RemoveFromStuck(SetSurface(st, k, None, Fails), k + 1, j);
    }
  }

  lemma {:induction false} WakeFromStuck(st: State, k: nat, j: nat)
    requires k <= |st.outputs|
    ensures Waits(st, WakeFrom(st, k), j)
    decreases |st.outputs| - k
  {
    if k < |st.outputs| {
      SetSleepWaits(st, k, false, j);
      WakeFromStuck(SetSleep(st, k, false), k + 1, j);
    }
  }

  lemma {:induction false} TerminateFromStuck(st: State, k: nat, j: nat)
    requires k <= |st.outputs|
    ensures Waits(st, TerminateFrom(st, k), j)
    decreases |st.outputs| - k
  {
    if k < |st.outputs| {
      OutputTerminateWaits(st, k, j);
      TerminateFromStuck(OutputTerminate(st, k), k + 1, j);
    }
  }

  /** Leaving the terminal enters DEACTIVATING for good; coming back is all that ends it. */
  lemma LeaveStuck(st: State, vt: int, j: nat)
    requires Stuck(st, j)
    ensures Stuck(Leave(st, vt), j) && Leave(st, vt).tty == DEACTIVATING
  {
    var a := Log(st.(tty := DEACTIVATING, vt := vt), Deactivate);
    RemoveFromStuck(a, 0, j);
    assert Holder(RemoveFrom(a, 0), j);
  }

  predicate Returns(e: Event) {
    e.SetActive? && e.active
  }

  lemma StepStuck(st: State, e: Event, j: nat)
    requires Inv(st) && Allowed(st, e) && Stuck(st, j)
    ensures Stuck(Step(st, e), j)
    ensures st.tty == DEACTIVATING && !Returns(e) ==> Step(st, e).tty == DEACTIVATING
  {
    match e
    case TimerFires(i, swapped, start) =>
      RepaintOk(st, i, swapped, start);
    case FlipCompletes(i, start) => FinishFrameWaits(st, i, start, j);
    case RequestRepaint(i) =>
    case Sleep(i, sleep) => SetSleepWaits(st, i, sleep, j);
    case SetBackend(i, b, start) => SetSurfaceWaits(st, i, b, start, j);
    case OutputGone(i) => OutputTerminateWaits(st, i, j);
    case FocusOutput(f) => FocusWaits(st, f, j);
    case AddedOutput(b, resized, accepted, created, start) =>
      AddOutputWaits(st, b, resized, accepted, created, start, j);
    case SetActive(active, changes) => ActiveStuck(st, active, changes, j);
    case VtKey(vt) => LeaveStuck(st, vt, j);
    case IdleRuns =>
    case Terminate => TerminateFromStuck(Log(st.(terminating := true), TerminateRequested), 0, j);
  }

  lemma ActiveStuck(st: State, active: bool, changes: seq<Change>, j: nat)
    requires Stuck(st, j)
    ensures Stuck(Step(st, SetActive(active, changes)), j)
    ensures st.tty == DEACTIVATING && !active ==> Step(st, SetActive(active, changes)).tty == DEACTIVATING
  {
    var s := st.(active := active);
    if active != st.active && active {
      var a := ActivateTty(s.(tty := ACTIVATING, vt := 0));
      assert Stuck(a, j);
      UpdatedWaits(a, changes, j);
      WakeFromStuck(Updated(a, changes), 0, j);
    } else if active != st.active {
      LeaveStuck(s, 0, j);
    }
  }

  /**
   Once a swap has failed, its output holds its surface for good, whatever happens; and
   DEACTIVATING lasts, once entered, for as long as the terminal does not come back.
   */
  lemma {:induction false} DeadFlightHolds(st: State, es: seq<Event>, j: nat)
    requires Inv(st) && AllowedRun(st, es) && Stuck(st, j)
    ensures Stuck(Run(st, es), j)
    ensures st.tty == DEACTIVATING && (forall e :: e in es ==> !Returns(e)) ==>
      Run(st, es).tty == DEACTIVATING && !LeavesDeactivating(st, es)
    decreases |es|
  {
    if es != [] {
      StepOk(st, es[0]);
      StepStuck(st, es[0], j);
      DeadFlightHolds(Step(st, es[0]), es[1..], j);
    }
  }

  /**
   Giving up the terminal, with no surface gained meanwhile and every frame completing whose
   swap reached the backend, comes to an end exactly if no swap in flight had failed.
   */
  lemma GivenUpExactly(st: State, e: Event, es: seq<Event>)
    requires Inv(st) && (e.VtKey? || (e.SetActive? && !e.active && st.active))
    requires AllowedRun(Step(st, e), es) && forall d :: d in es ==> Steady(d)
    requires forall j :: 0 <= j < |Step(st, e).outputs| && Flying(Step(st, e).outputs[j]) ==> Lands(es, j)
    ensures LeavesDeactivating(Step(st, e), es) <==> forall j :: 0 <= j < |st.outputs| ==> !st.outputs[j].dead
  {
    StepOk(st, e);
    if j :| 0 <= j < |st.outputs| && st.outputs[j].dead {
      StepStuck(st, e, j);
      assert Step(st, e).tty == DEACTIVATING by { LeaveEnters(st, e, j); }
      DeadFlightHolds(Step(st, e), es, j);
    } else {
      LeaveKeepsLive(st, e);
      TerminalIsGivenUp(st, e, es);
    }
  }

  lemma LeaveEnters(st: State, e: Event, j: nat)
    requires Stuck(st, j) && (e.VtKey? || (e.SetActive? && !e.active && st.active))
    ensures Step(st, e).tty == DEACTIVATING
  {
    if e.VtKey? { LeaveStuck(st, e.vt, j); } else { LeaveStuck(st.(active := false), 0, j); }
  }

  lemma {:induction false} RemoveFromLive(st: State, k: nat)
    requires k <= |st.outputs|
    ensures
      var r := RemoveFrom(st, k);
      |r.outputs| == |st.outputs| && forall j :: 0 <= j < |st.outputs| ==> r.outputs[j].dead == st.outputs[j].dead
    decreases |st.outputs| - k
  {
    if k < |st.outputs| {
      SetSurfaceEffect(st, k, None, Fails);
      RemoveFromLive(SetSurface(st, k, None, Fails), k + 1);
    }
  }

  lemma LeaveKeepsLive(st: State, e: Event)
    requires e.VtKey? || (e.SetActive? && !e.active && st.active)
    ensures
      var r := Step(st, e);
      |r.outputs| == |st.outputs| && forall j :: 0 <= j < |st.outputs| ==> r.outputs[j].dead == st.outputs[j].dead
  {
    var s := if e.VtKey? then st else st.(active := false);
    RemoveFromLive(Log(s.(tty := DEACTIVATING, vt := if e.VtKey? then e.vt else 0), Deactivate), 0);
  }

  /**
   A swap that fails keeps the invariant exactly if the output had not fallen asleep with its timer
   left armed; otherwise a frame is in flight that is not scheduled.
   */
  lemma LapseKeepsExactly(st: State, i: nat)
    requires Inv(st) && i < |st.outputs| && st.outputs[i].armed && ShouldRender(st, st.outputs[i])
    ensures Inv(Repaint(st, i, false, Fails)) <==> !Late(st.outputs[i])
    ensures Late(st.outputs[i]) ==> !OutputOk(Repaint(st, i, false, Fails).outputs[i])
  {
    if !Late(st.outputs[i]) {
      RepaintOk(st, i, false, Fails);
    } else {
      var r := Repaint(st, i, false, Fails);
      assert r == Lapsed(st, i);
      assert r.outputs[i].pending && !r.outputs[i].scheduled && !OutputOk(r.outputs[i]);
    }
  }

  // ---------------------------------------------------------- coming back

  /** Nothing but the wish to repaint has changed. */
  predicate Undisturbed(o: Output, o': Output) {
    && o'.surface == o.surface && o'.taskSurface == o.taskSurface && o'.taskTerminate == o.taskTerminate
    && o'.pending == o.pending && o'.dead == o.dead
  }

  predicate Leaves(st: State, r: State, i: nat) {
    i < |st.outputs| && st.outputs[i].pending && st.outputs[i].surface.Some? ==>
      i < |r.outputs| && Undisturbed(st.outputs[i], r.outputs[i])
  }

  lemma FocusLeaves(st: State, f: Option<nat>, i: nat)
    requires f.Some? ==> f.value < |st.outputs|
    ensures Leaves(st, Focus(st, f), i)
  {
    if i < |st.outputs| { FocusEffect(st, f); }
  }

  lemma SetSurfaceLeaves(st: State, k: nat, b: Option<Backend>, start: Startup, i: nat)
    requires k < |st.outputs| && k != i
    ensures Leaves(st, SetSurface(st, k, b, start), i)
  {
  }

  lemma RefocusedLeaves(st: State, k: nat, i: nat)
    requires k < |st.outputs|
    ensures Leaves(st, Refocused(st, k), i)
  {
    FocusLeaves(st.(focused := None), AliveFrom(st, k, 0), i);
  }

  lemma TerminateLeaves(st: State, k: nat, i: nat)
    requires k < |st.outputs| && k != i
    ensures Leaves(st, OutputTerminate(st, k), i)
  {
    if !st.outputs[k].pending {
      RefocusedLeaves(st, k, i);
      SetSurfaceLeaves(Log(Refocused(st, k), Removed(k)), k, None, Fails, i);
    }
  }

  /** A new output is put where no surface is held, and so not on one in flight. */
  lemma AddOutputLeaves(st: State, b: Backend, resized: bool, accepted: bool, created: bool, start: Startup, i: nat)
    ensures Leaves(st, AddOutput(st, b, resized, accepted, created, start), i)
  {
    var k := Surfaceless(st, 0);
    if (k < |st.outputs| || created) && Holder(st, i) {
      var grown := if k < |st.outputs| then st else st.(outputs := st.outputs + [NEW_OUTPUT]);
      var s := if resized then ScheduleAt(grown, k) else grown;
      assert Leaves(st, s, i);
      assert Holder(s, i);
      if accepted { PopulatedLeaves(s, k, b, start, i); } else { TerminateLeaves(s, k, i); }
    }
  }

  lemma PopulatedLeaves(st: State, k: nat, b: Backend, start: Startup, i: nat)
    requires k < |st.outputs| && k != i
    ensures Leaves(st, Populated(st, k, b, true, start), i)
  {
    var a := SetSurface(st, k, Some(b), start);
    SetSurfaceLeaves(st, k, Some(b), start, i);
    FocusLeaves(a, Some(k), i);
  }

  lemma {:induction false} UpdatedLeaves(st: State, cs: seq<Change>, i: nat)
    requires Lost(i) !in cs
    ensures Leaves(st, Updated(st, cs), i)
    decreases |cs|
  {
    if cs != [] {
      match cs[0] {
        case Lost(k) => if k < |st.outputs| { TerminateLeaves(st, k, i); }
        case Found(b, resized, accepted, created, start) =>
          AddOutputLeaves(st, b, resized, accepted, created, start, i);
      }
      UpdatedLeaves(Changed(st, cs[0]), cs[1..], i);
    }
  }

  lemma {:induction false} WakeFromLeaves(st: State, k: nat, i: nat)
    requires k <= |st.outputs|
    ensures Leaves(st, WakeFrom(st, k), i)
    decreases |st.outputs| - k
  {
    if k < |st.outputs| { WakeFromLeaves(SetSleep(st, k, false), k + 1, i); }
  }

  /** Nobody falls asleep or wakes up, and no flight begins or ends; new outputs are awake. */
  predicate Rests(st: State, r: State) {
    && |st.outputs| <= |r.outputs|
    && (forall i :: 0 <= i < |st.outputs| ==>
      r.outputs[i].sleeping == st.outputs[i].sleeping && r.outputs[i].pending == st.outputs[i].pending)
    && (forall i :: |st.outputs| <= i < |r.outputs| ==> !r.outputs[i].sleeping)
  }

  lemma FocusRests(st: State, f: Option<nat>)
    requires f.Some? ==> f.value < |st.outputs|
    ensures Rests(st, Focus(st, f))
  {
    FocusEffect(st, f);
  }

  lemma SetSurfaceRests(st: State, k: nat, b: Option<Backend>, start: Startup)
    requires k < |st.outputs|
    ensures Rests(st, SetSurface(st, k, b, start))
  {
    SetSurfaceEffect(st, k, b, start);
  }

  lemma TerminateRests(st: State, k: nat)
    requires k < |st.outputs|
    ensures Rests(st, OutputTerminate(st, k))
  {
    if !st.outputs[k].pending {
      var a := Refocused(st, k);
      RefocusedEffect(st, k);
      FocusRests(st.(focused := None), AliveFrom(st, k, 0));
      assert Rests(st, a);
      SetSurfaceRests(Log(a, Removed(k)), k, None, Fails);
    }
  }

  lemma PopulatedRests(st: State, k: nat, b: Backend, accepted: bool, start: Startup)
    requires k < |st.outputs|
    ensures Rests(st, Populated(st, k, b, accepted, start))
  {
    if accepted {
      SetSurfaceRests(st, k, Some(b), start);
      FocusRests(SetSurface(st, k, Some(b), start), Some(k));
    } else {
      TerminateRests(st, k);
    }
  }

  lemma AddOutputRests(st: State, b: Backend, resized: bool, accepted: bool, created: bool, start: Startup)
    ensures Rests(st, AddOutput(st, b, resized, accepted, created, start))
  {
    var i := Surfaceless(st, 0);
    if i < |st.outputs| || created {
      var grown := if i < |st.outputs| then st else st.(outputs := st.outputs + [NEW_OUTPUT]);
      var s := if resized then ScheduleAt(grown, i) else grown;
      assert Rests(st, grown);
      RestsOn(st, grown, s);
      PopulatedRests(s, i, b, accepted, start);
      RestsOn(st, s, AddOutput(st, b, resized, accepted, created, start));
    }
  }

  lemma RestsOn(st: State, s: State, r: State)
    requires Rests(st, s) && Rests(s, r)
    ensures Rests(st, r)
  {
  }

  lemma {:induction false} UpdatedRests(st: State, cs: seq<Change>)
    ensures Rests(st, Updated(st, cs))
    decreases |cs|
  {
    if cs != [] {
      match cs[0] {
        case Lost(k) => if k < |st.outputs| { TerminateRests(st, k); }
        case Found(b, resized, accepted, created, start) => AddOutputRests(st, b, resized, accepted, created, start);
      }
      UpdatedRests(Changed(st, cs[0]), cs[1..]);
    }
  }

  /** The output that has just been woken is due for a repaint. */
  lemma {:induction false} WakeFromWakes(st: State, k: nat)
    requires k <= |st.outputs| && forall i :: 0 <= i < k ==> !st.outputs[i].sleeping
    ensures
      var r := WakeFrom(st, k);
      && |r.outputs| == |st.outputs|
      && (forall i :: 0 <= i < |r.outputs| ==> !r.outputs[i].sleeping)
      && (forall i :: 0 <= i < k ==> r.outputs[i] == st.outputs[i])
      && (forall i :: k <= i < |r.outputs| ==>
        r.outputs[i] == if st.outputs[i].sleeping then Schedule(st.outputs[i].(sleeping := false)) else st.outputs[i])
    decreases |st.outputs| - k
  {
    if k < |st.outputs| { WakeFromWakes(SetSleep(st, k, false), k + 1); }
  }

  /**
   When the terminal has come back no output is asleep, whatever was found or lost; and one that
   was asleep, and has no frame in flight, is going to repaint.
   */
  lemma ReturnWakes(st: State, cs: seq<Change>)
    requires Inv(st) && !st.active
    ensures
      var r := Step(st, SetActive(true, cs));
      && |st.outputs| <= |r.outputs|
      && (forall i :: 0 <= i < |r.outputs| ==> !r.outputs[i].sleeping)
      && (forall i :: 0 <= i < |st.outputs| && st.outputs[i].sleeping && !st.outputs[i].pending ==>
        r.outputs[i].scheduled && r.outputs[i].armed && r.outputs[i].activity)
  {
    var a := ActivateTty(st.(active := true, tty := ACTIVATING, vt := 0));
    var b := Updated(a, cs);
    UpdatedRests(a, cs);
    assert b.outputs == Updated(a, cs).outputs;
    assert Inv(b) by { BackOk(st); UpdatedOk(a, cs); }
    WakeFromWakes(b, 0);
    forall i | 0 <= i < |st.outputs| && st.outputs[i].sleeping && !st.outputs[i].pending
      ensures Schedule(b.outputs[i].(sleeping := false)).armed
    {
      assert OutputOk(b.outputs[i]);
    }
  }

  lemma BackOk(st: State)
    requires Inv(st)
    ensures Inv(ActivateTty(st.(active := true, tty := ACTIVATING, vt := 0)))
  {
    ActiveOk(st, true);
    TtyOk(st.(active := true), IDLE, 0, Activate);
  }

  /** What the end of a flight leaves of the surface. */
  lemma FlightEnds(st: State, i: nat, start: Startup)
    requires Inv(st) && i < |st.outputs| && Flying(st.outputs[i])
    ensures Holder(FinishFrame(st, i, start), i) <==> KeepsSurface(st.outputs[i], start)
  {
    var a := Landed(st, i);
    FinishSurfaceOwn(a, i, start);
    var b := FinishSurface(a, i, start);
    FinishSleepOwn(b, i);
    var c := FinishSleep(b, i);
    if c.outputs[i].taskTerminate { RemoveOutputEffect(c, i); }
  }

  /** Neither a removal nor a termination is deferred, and a surface that is can be set. */
  predicate KeepsSurface(o: Output, start: Startup) {
    o.taskSurface != Remove && !o.taskTerminate && (o.taskSurface.Attach? ==> start.Comes?)
  }

  /**
   The terminal comes back during a flight: the output holds a surface when the flight ends
   exactly if what had been deferred before the return leaves it one.  The return itself,
   whatever it finds, withdraws nothing.
   */
  lemma ReturnHoldsExactly(st: State, cs: seq<Change>, i: nat, start: Startup)
    requires Inv(st) && !st.active && i < |st.outputs| && Flying(st.outputs[i]) && Lost(i) !in cs
    ensures
      var r := Step(st, SetActive(true, cs));
      && i < |r.outputs| && Flying(r.outputs[i])
      && (Holder(FinishFrame(r, i, start), i) <==> KeepsSurface(st.outputs[i], start))
  {
    var s := st.(active := true);
    StepOk(st, SetActive(true, cs));
    var a := ActivateTty(s.(tty := ACTIVATING, vt := 0));
    assert Leaves(st, a, i);
    UpdatedLeaves(a, cs, i);
    WakeFromLeaves(Updated(a, cs), 0, i);
    FlightEnds(Step(st, SetActive(true, cs)), i, start);
  }
}
