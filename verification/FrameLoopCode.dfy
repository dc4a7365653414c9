/**
 The frame loop as the code has it: methods that update the fields of the outputs and of
 the compositor in place, each proved to do what its function in FrameLoop says.
 */
module FrameLoopCode {
  import opened Basics
  import opened FrameLoop
  import opened FrameLoopInvariant
  import opened FrameLoopSafety

  class Compositor {
    var outputs: seq<Output>
    var focused: Option<nat>
    var active: bool
    var tty: Tty
    var vt: int
    var idle: bool
    var terminating: bool
    ghost var trace: Trace

    constructor ()
      ensures Snapshot() == State([], None, false, IDLE, 0, false, false, Start)
    {
      outputs, focused, active, tty, vt, idle, terminating := [], None, false, IDLE, 0, false, false;
      trace := Start;
    }

    ghost function Snapshot(): State
      reads this
    {
      State(outputs, focused, active, tty, vt, idle, terminating, trace)
    }

    // ---------------------------------------------------------------- output.c

    method ScheduleRepaint(i: nat)
      requires i < |outputs|
      modifies this
      ensures Snapshot() == ScheduleAt(old(Snapshot()), i)
    {
      outputs := outputs[i := outputs[i].(activity := true)];
      if outputs[i].scheduled {
        return;
      }
      outputs := outputs[i := outputs[i].(scheduled := true)];
      outputs := outputs[i := outputs[i].(armed := true)];
    }

    method CancelRepaint(i: nat)
      requires i < |outputs|
      modifies this
      ensures Snapshot() == Put(old(Snapshot()), i, Cancel(old(outputs[i])))
    {
      outputs := outputs[i := outputs[i].(armed := false)];
      outputs := outputs[i := outputs[i].(scheduled := false, activity := false)];
    }

    method SetBackendSurface(i: nat, b: Option<Backend>, start: Startup) returns (result: bool)
      requires i < |outputs|
      modifies this
      ensures Snapshot() == SetSurface(old(Snapshot()), i, b, start)
      ensures result <==>
        (SameSurface(old(outputs[i].surface), b) || old(outputs[i].pending) || b.None? || start.Comes?)
      decreases b.Some?
    {
      if SameSurface(outputs[i].surface, b) {
        return true;
      }
      if outputs[i].pending {
        outputs := outputs[i := outputs[i].(taskSurface := if b.Some? then Attach(b.value) else Remove)];
        return true;
      }
      outputs := outputs[i := outputs[i].(surface := b)];
      if b.Some? {
        if start.Fails? {
          assert Put(Snapshot(), i, Resurfaced(outputs[i], None, false))
            == Put(old(Snapshot()), i, Resurfaced(old(outputs[i]), None, false));
          var _ := SetBackendSurface(i, None, Fails);
          return false;
        }
        if start.attached {
          ScheduleRepaint(i);
        }
      } else {
        CancelRepaint(i);
      }
      trace := Then(trace, Surface(i, b.Some?));
      assert outputs == old(outputs)[i := Resurfaced(old(outputs[i]), b, start == Comes(true))];
      RespondTtyActivate();
      return true;
    }

    method SetSleepPtr(i: nat, sleep: bool)
      requires i < |outputs|
      modifies this
      ensures Snapshot() == SetSleep(old(Snapshot()), i, sleep)
    {
      if outputs[i].sleeping == sleep {
        return;
      }
      if sleep && outputs[i].pending {
        outputs := outputs[i := outputs[i].(taskSleep := true)];
        return;
      }
      outputs := outputs[i := outputs[i].(sleeping := sleep)];
      if !sleep {
        ScheduleRepaint(i);
      } else {
        StopTimer(i);
        trace := Then(trace, Slept(i));
        assert outputs == old(outputs)[i := Asleep(old(outputs[i]))];
      }
    }

    /** What falling asleep does to the timer and its flags. */
    method StopTimer(i: nat)
      requires i < |outputs| && outputs[i].sleeping
      modifies this
      ensures Snapshot() == Put(old(Snapshot()), i, Asleep(old(outputs[i])))
    {
      if outputs[i].surface.Some? && outputs[i].surface.value.sleepHook {
        CancelRepaint(i);
      }
      outputs := outputs[i := outputs[i].(scheduled := false, activity := false)];
    }

    method TerminateOutput(i: nat)
      requires i < |outputs|
      modifies this
      ensures Snapshot() == OutputTerminate(old(Snapshot()), i)
      decreases !terminating, 2
    {
      if outputs[i].pending {
        outputs := outputs[i := outputs[i].(taskTerminate := true)];
        ScheduleRepaint(i);
        return;
      }
      DropOutput(i);
    }

    method FinishFrameTasks(i: nat, start: Startup)
      requires i < |outputs|
      modifies this
      ensures Snapshot() == FinishTasks(old(Snapshot()), i, start)
    {
      FinishSurfaceTask(i, start);
      FinishSleepTask(i);
      FinishTerminateTask(i);
    }

    method FinishSurfaceTask(i: nat, start: Startup)
      requires i < |outputs|
      modifies this
      ensures Snapshot() == FinishSurface(old(Snapshot()), i, start)
    {
      if !outputs[i].taskSurface.NoTask? {
        var _ := SetBackendSurface(i, TaskSurface(outputs[i]), start);
        outputs := outputs[i := outputs[i].(taskSurface := NoTask)];
      }
    }

    method FinishSleepTask(i: nat)
      requires i < |outputs|
      modifies this
      ensures Snapshot() == FinishSleep(old(Snapshot()), i)
    {
      if outputs[i].taskSleep {
        SetSleepPtr(i, true);
        outputs := outputs[i := outputs[i].(taskSleep := false)];
      }
    }

    method FinishTerminateTask(i: nat)
      requires i < |outputs|
      modifies this
      ensures Snapshot() == FinishTerminate(old(Snapshot()), i)
    {
      if outputs[i].taskTerminate {
        TerminateOutput(i);
        outputs := outputs[i := outputs[i].(taskTerminate := false)];
      }
    }

    /** cb_idle_timer and repaint: the timer is one-shot. */
    method IdleTimer(i: nat, swapped: bool, start: Startup) returns (drawn: bool)
      requires i < |outputs|
      modifies this
      ensures Snapshot() == Repaint(old(Snapshot()), i, swapped, start)
      ensures drawn <==> old(ShouldRender(Snapshot(), outputs[i]))
    {
      if !(active && !outputs[i].pending && outputs[i].surface.Some?) {
        SkipRepaint(i, start);
        return false;
      }
      SwapBuffers(i);
      if !swapped {
        outputs := outputs[i := outputs[i].(dead := true)];
        return true;
      }
      if !Hooked(outputs[i]) {
        FinishFrame(i, start);
      }
      return true;
    }

    method SkipRepaint(i: nat, start: Startup)
      requires i < |outputs|
      modifies this
      ensures Snapshot() == FinishTasks(Put(old(Snapshot()), i, Cancel(old(outputs[i]))), i, start)
    {
      outputs := outputs[i := outputs[i].(armed := false)];
      outputs := outputs[i := outputs[i].(activity := false, scheduled := false)];
      assert outputs == old(outputs)[i := Cancel(old(outputs[i]))];
      FinishFrameTasks(i, start);
    }

    method SwapBuffers(i: nat)
      requires i < |outputs|
      modifies this
      ensures Snapshot() == Swapped(old(Snapshot()), i)
    {
      outputs := outputs[i := outputs[i].(armed := false)];
      outputs := outputs[i := outputs[i].(pending := true)];
      trace := Then(trace, Swap(i));
    }

    method FinishFrame(i: nat, start: Startup)
      requires i < |outputs|
      modifies this
      ensures Snapshot() == FrameLoop.FinishFrame(old(Snapshot()), i, start)
    {
      trace := Then(trace, Flip(i));
      outputs := outputs[i := outputs[i].(pending := false)];
      if outputs[i].activity && !outputs[i].taskTerminate {
        outputs := outputs[i := outputs[i].(armed := true)];
        outputs := outputs[i := outputs[i].(scheduled := true, activity := false)];
      } else {
        outputs := outputs[i := outputs[i].(scheduled := false)];
      }
      assert outputs == old(outputs)[i := FrameDone(old(outputs[i]))];
      FinishFrameTasks(i, start);
    }

    // ------------------------------------------------------------ compositor.c

    method LeaveTty()
      modifies this
      ensures Snapshot() == DeactivateTty(old(Snapshot()))
    {
      if tty != DEACTIVATING {
        return;
      }
      var k := 0;
      while k < |outputs|
        invariant k <= |outputs| && forall j :: 0 <= j < k ==> outputs[j].surface.None?
      {
        if outputs[k].surface.Some? {
          assert Holder(Snapshot(), k);
          return;
        }
        k := k + 1;
      }
      tty := IDLE;
      if vt != 0 {
        idle := true;
        trace := Then(trace, SwitchRequested(vt));
      } else {
        trace := Then(trace, TtyReleased);
      }
    }

    method EnterTty()
      modifies this
      ensures Snapshot() == ActivateTty(old(Snapshot()))
    {
      if tty != ACTIVATING {
        return;
      }
      tty := IDLE;
      trace := Then(trace, Activate);
    }

    method RespondTtyActivate()
      modifies this
      ensures Snapshot() == RespondTty(old(Snapshot()))
    {
      if tty == ACTIVATING {
        EnterTty();
      } else if tty == DEACTIVATING {
        LeaveTty();
      }
    }

    /** activate_event; `number` is the terminal to switch to, 0 for a release. */
    method ActivateEvent(on: bool, number: int, changes: seq<Change>)
      modifies this
      ensures Snapshot() == if on then Return(old(Snapshot()), changes) else Leave(old(Snapshot()), number)
    {
      if !on {
        tty, vt := DEACTIVATING, number;
        trace := Then(trace, Deactivate);
        ghost var goal := RemoveFrom(Snapshot(), 0);
        var k := 0;
        while k < |outputs|
          invariant k <= |outputs| && RemoveFrom(Snapshot(), k) == goal
        {
          var _ := SetBackendSurface(k, None, Fails);
          k := k + 1;
        }
        LeaveTty();
      } else {
        tty, vt := ACTIVATING, 0;
        EnterTty();
        UpdateOutputs(changes);
        ghost var goal := WakeFrom(Snapshot(), 0);
        var k := 0;
        while k < |outputs|
          invariant k <= |outputs| && WakeFrom(Snapshot(), k) == goal
        {
          SetSleepPtr(k, false);
          k := k + 1;
        }
      }
    }

    /** wlc_backend_update_outputs, with what the backend finds. */
    method UpdateOutputs(changes: seq<Change>)
      modifies this
      ensures Snapshot() == Updated(old(Snapshot()), changes)
    {
      var k := 0;
      while k < |changes|
        invariant 0 <= k <= |changes| && Updated(Snapshot(), changes[k..]) == Updated(old(Snapshot()), changes)
      {
        assert changes[k..][1..] == changes[k + 1..];
        match changes[k] {
          case Lost(i) => if i < |outputs| { TerminateOutput(i); }
          case Found(b, resized, accepted, created, start) => Add(b, resized, accepted, created, start);
        }
        k := k + 1;
      }
      assert changes[k..] == [];
    }

    method ActiveOutput(o: Option<nat>)
      requires o.Some? ==> o.value < |outputs|
      modifies this
      ensures Snapshot() == Focus(old(Snapshot()), o)
    {
      if focused == o {
        return;
      }
      if focused.Some? && focused.value < |outputs| {
        ScheduleRepaint(focused.value);
      }
      focused := o;
      if o.Some? {
        ScheduleRepaint(o.value);
      }
    }

    /** The first output other than i that still holds a surface. */
    method FindAlive(i: nat) returns (alive: Option<nat>)
      ensures alive == AliveFrom(Snapshot(), i, 0)
    {
      var k := 0;
      while k < |outputs|
        invariant k <= |outputs| && AliveFrom(Snapshot(), i, k) == AliveFrom(Snapshot(), i, 0)
      {
        if outputs[k].surface.Some? && k != i {
          return Some(k);
        }
        k := k + 1;
      }
      return None;
    }

    /** remove_output. */
    method DropOutput(i: nat)
      requires i < |outputs|
      modifies this
      ensures Snapshot() == RemoveOutput(old(Snapshot()), i)
      decreases !terminating, 1
    {
      var alive := FindAlive(i);
      if focused == Some(i) {
        focused := None;
        ActiveOutput(alive);
      }
      assert Snapshot() == Refocused(old(Snapshot()), i);
      trace := Then(trace, Removed(i));
      var _ := SetBackendSurface(i, None, Fails);
      RefocusedEffect(old(Snapshot()), i);
      SetSurfaceEffect(Log(Refocused(old(Snapshot()), i), Removed(i)), i, None, Fails);
      if terminating && alive.None? {
        Terminate();
      }
    }

    /** wlc_compositor_terminate. */
    method Terminate()
      modifies this
      ensures Snapshot() == CompositorTerminate(old(Snapshot()))
      decreases !terminating, 0
    {
      if !terminating {
        terminating := true;
        trace := Then(trace, TerminateRequested);
        if |outputs| > 0 {
          ghost var goal := TerminateFrom(Snapshot(), 0);
          var k := 0;
          while k < |outputs|
            invariant k <= |outputs| && terminating && TerminateFrom(Snapshot(), k) == goal
          {
            OutputTerminateEffect(Snapshot(), k);
            TerminateOutput(k);
            k := k + 1;
          }
          return;
        }
      }
      trace := Then(trace, Terminated);
    }

    /** add_output. */
    method Add(b: Backend, resized: bool, accepted: bool, created: bool, start: Startup)
      modifies this
      ensures Snapshot() == AddOutput(old(Snapshot()), b, resized, accepted, created, start)
    {
      var i := 0;
      while i < |outputs| && outputs[i].surface.Some?
        invariant i <= |outputs| && Surfaceless(Snapshot(), i) == Surfaceless(Snapshot(), 0)
      {
        i := i + 1;
      }
      if i == |outputs| {
        if !created {
          return;
        }
        outputs := outputs + [NEW_OUTPUT];
      }
      if resized {
        ScheduleRepaint(i);
      }
      if !accepted {
        TerminateOutput(i);
        return;
      }
      var _ := SetBackendSurface(i, Some(b), start);
      if focused.None? {
        ActiveOutput(Some(i));
      }
      ScheduleRepaint(i);
    }

    /** cb_idle_vt_switch. */
    method IdleVtSwitch()
      requires idle
      modifies this
      ensures Snapshot() == FrameLoop.Step(old(Snapshot()), IdleRuns)
    {
      trace := Then(trace, VtActivated(vt));
      vt, idle := 0, false;
    }
  }
}
