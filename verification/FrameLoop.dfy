/**
 The frame loop of the outputs, the hand-over of the virtual terminal and shutdown, as
 one step system: src/compositor/output.c emits signals from inside its own state
 changes, and the handlers in src/compositor/compositor.c look at all outputs again.
 Every function here is one C function; `Step` is one event of the main loop.
 */
module FrameLoop {
  import opened Basics

  /**
   A backend surface.  The DRM backend has an api.sleep function, and its flips complete
   later; the X11 and Wayland backends have none, and finish the frame inside the swap.
   */
  datatype Backend = Backend(display: nat, sleepHook: bool)

  /** What setting a surface comes to: no context or renderer, or both, with client surfaces attached again or not. */
  datatype Startup = Fails | Comes(attached: bool)

  /** task.bsurface: empty, the INVALID_DISPLAY marker, or a surface to set. */
  datatype SurfaceTask = NoTask | Remove | Attach(backend: Backend)

  /** `armed` is the idle timer; `dead` says that the swap in flight failed, and no completion will come. */
  datatype Output = Output(
    surface: Option<Backend>,
    taskSurface: SurfaceTask, taskSleep: bool, taskTerminate: bool,
    pending: bool, scheduled: bool, activity: bool, sleeping: bool, armed: bool, dead: bool)

  datatype Tty = IDLE | ACTIVATING | DEACTIVATING

  /** What can be seen from outside, in the order it happens. */
  datatype Action =
    | Swap(output: nat)
    | Flip(output: nat)
    | Surface(output: nat, holds: bool)
    | Slept(output: nat)
    | Removed(output: nat)
    | Deactivate
    | Activate
    | TtyReleased
    | SwitchRequested(vt: int)
    | VtActivated(vt: int)
    | TerminateRequested
    | Terminated

  datatype Trace = Start | Then(past: Trace, last: Action)

  datatype State = State(
    outputs: seq<Output>, focused: Option<nat>, active: bool,
    tty: Tty, vt: int, idle: bool, terminating: bool, trace: Trace)

  function Put(st: State, i: nat, o: Output): State
    requires i < |st.outputs|
  {
    st.(outputs := st.outputs[i := o])
  }

  function Log(st: State, a: Action): State {
    st.(trace := Then(st.trace, a))
  }

  // ------------------------------------------------------------------ output.c

  /** wlc_output_schedule_repaint. */
  function Schedule(o: Output): Output {
    o.(activity := true, scheduled := true, armed := o.armed || !o.scheduled)
  }

  /** cancel_repaint. */
  function Cancel(o: Output): Output {
    o.(armed := false, scheduled := false, activity := false)
  }

  function ScheduleAt(st: State, i: nat): (r: State)
    requires i < |st.outputs|
    ensures |r.outputs| == |st.outputs|
  {
    Put(st, i, Schedule(st.outputs[i]))
  }

  predicate SameSurface(a: Option<Backend>, b: Option<Backend>) {
    (a.None? && b.None?) || (a.Some? && b.Some? && a.value.display == b.value.display)
  }

  /** wlc_output_set_backend_surface. */
  function SetSurface(st: State, i: nat, b: Option<Backend>, start: Startup): (r: State)
    requires i < |st.outputs|
    ensures |r.outputs| == |st.outputs|
  {
    var o := st.outputs[i];
    if SameSurface(o.surface, b) then st
    else if o.pending then Put(st, i, o.(taskSurface := if b.Some? then Attach(b.value) else Remove))
    else
      var held := if start.Comes? then b else None;
      RespondTty(Log(Put(st, i, Resurfaced(o, held, start == Comes(true))), Surface(i, held.Some?)))
  }

  /** The record after its surface has been replaced: client surfaces attach again, or the timer stops. */
  function Resurfaced(o: Output, b: Option<Backend>, attached: bool): Output {
    if b.None? then Cancel(o.(surface := None))
    else if attached then Schedule(o.(surface := b))
    else o.(surface := b)
  }

  /** wlc_output_set_sleep_ptr. */
  function SetSleep(st: State, i: nat, sleep: bool): (r: State)
    requires i < |st.outputs|
    ensures |r.outputs| == |st.outputs|
  {
    var o := st.outputs[i];
    if o.sleeping == sleep then st
    else if sleep && o.pending then Put(st, i, o.(taskSleep := true))
    else if !sleep then ScheduleAt(Put(st, i, o.(sleeping := false)), i)
    else Log(Put(st, i, Asleep(o)), Slept(i))
  }

  /** The record after going to sleep: only a backend with a sleep hook stops the timer. */
  function Asleep(o: Output): Output {
    o.(sleeping := true, scheduled := false, activity := false, armed := o.armed && !Hooked(o))
  }

  predicate Hooked(o: Output) {
    o.surface.Some? && o.surface.value.sleepHook
  }

  /** wlc_output_terminate. */
  function OutputTerminate(st: State, i: nat): (r: State)
    requires i < |st.outputs|
    ensures |r.outputs| == |st.outputs|
  {
    var o := st.outputs[i];
    if o.pending then ScheduleAt(Put(st, i, o.(taskTerminate := true)), i) else RemoveOutput(st, i)
  }

  function TaskSurface(o: Output): Option<Backend> {
    if o.taskSurface.Attach? then Some(o.taskSurface.backend) else None
  }

  /** finish_frame_tasks. */
  function FinishTasks(st: State, i: nat, start: Startup): State
    requires i < |st.outputs|
  {
    FinishTerminate(FinishSleep(FinishSurface(st, i, start), i), i)
  }

  function FinishSurface(st: State, i: nat, start: Startup): (r: State)
    requires i < |st.outputs|
    ensures |r.outputs| == |st.outputs|
  {
    if st.outputs[i].taskSurface.NoTask? then st
    else
      var st' := SetSurface(st, i, TaskSurface(st.outputs[i]), start);
      Put(st', i, st'.outputs[i].(taskSurface := NoTask))
  }

  function FinishSleep(st: State, i: nat): (r: State)
    requires i < |st.outputs|
    ensures |r.outputs| == |st.outputs|
  {
    if !st.outputs[i].taskSleep then st
    else
      var st' := SetSleep(st, i, true);
      Put(st', i, st'.outputs[i].(taskSleep := false))
  }

  function FinishTerminate(st: State, i: nat): (r: State)
    requires i < |st.outputs|
    ensures |r.outputs| == |st.outputs|
  {
    if !st.outputs[i].taskTerminate then st
    else
      var st' := OutputTerminate(st, i);
      Put(st', i, st'.outputs[i].(taskTerminate := false))
  }

  predicate ShouldRender(st: State, o: Output) {
    st.active && !o.pending && o.surface.Some?
  }

  /** The swap has been started. */
  function Swapped(st: State, i: nat): (r: State)
    requires i < |st.outputs|
    ensures |r.outputs| == |st.outputs|
  {
    Log(Put(st, i, st.outputs[i].(armed := false, pending := true)), Swap(i))
  }

  /** A swap that fails, or a flip that cannot be queued: the output waits all the same. */
  function Lapsed(st: State, i: nat): (r: State)
    requires i < |st.outputs|
    ensures |r.outputs| == |st.outputs|
  {
    var r := Swapped(st, i);
    Put(r, i, r.outputs[i].(dead := true))
  }

  /**
   cb_idle_timer and repaint: the timer has fired, and is no longer armed.  `swapped` says that
   the buffers could be swapped and flipped; some backends finish the frame at once then.
   */
  function Repaint(st: State, i: nat, swapped: bool, start: Startup): State
    requires i < |st.outputs|
  {
    var o := st.outputs[i].(armed := false);
    if !ShouldRender(st, o) then FinishTasks(Put(st, i, o.(activity := false, scheduled := false)), i, start)
    else if !swapped then Lapsed(st, i)
    else if Hooked(o) then Swapped(st, i)
    else FinishFrame(Swapped(st, i), i, start)
  }

  /** wlc_output_finish_frame, up to the deferred tasks. */
  function FrameDone(o: Output): Output {
    var p := o.(pending := false);
    if o.activity && !o.taskTerminate then p.(armed := true, scheduled := true, activity := false)
    else p.(scheduled := false)
  }

  function FinishFrame(st: State, i: nat, start: Startup): State
    requires i < |st.outputs|
  {
    FinishTasks(Log(Put(st, i, FrameDone(st.outputs[i])), Flip(i)), i, start)
  }

  // -------------------------------------------------------------- compositor.c

  predicate Holder(st: State, i: nat) {
    i < |st.outputs| && st.outputs[i].surface.Some?
  }

  predicate SomeHolder(st: State) {
    exists i :: 0 <= i < |st.outputs| && Holder(st, i)
  }

  /** deactivate_tty. */
  function DeactivateTty(st: State): (r: State)
    ensures r.outputs == st.outputs
  {
    if st.tty != DEACTIVATING || SomeHolder(st) then st
    else if st.vt != 0 then Log(st.(tty := IDLE, idle := true), SwitchRequested(st.vt))
    else Log(st.(tty := IDLE), TtyReleased)
  }

  /** activate_tty. */
  function ActivateTty(st: State): (r: State)
    ensures r.outputs == st.outputs
  {
    if st.tty != ACTIVATING then st else Log(st.(tty := IDLE), Activate)
  }

  /** respond_tty_activate, the handler of the signal a surface change emits. */
  function RespondTty(st: State): (r: State)
    ensures r.outputs == st.outputs
  {
    if st.tty == ACTIVATING then ActivateTty(st)
    else if st.tty == DEACTIVATING then DeactivateTty(st)
    else st
  }

  /** wlc_output_set_backend_surface(NULL) on every output from k on. */
  function RemoveFrom(st: State, k: nat): State
    requires k <= |st.outputs|
    decreases |st.outputs| - k
  {
    if k == |st.outputs| then st else RemoveFrom(SetSurface(st, k, None, Fails), k + 1)
  }

  /** wlc_output_set_sleep_ptr(false) on every output from k on. */
  function WakeFrom(st: State, k: nat): State
    requires k <= |st.outputs|
    decreases |st.outputs| - k
  {
    if k == |st.outputs| then st else WakeFrom(SetSleep(st, k, false), k + 1)
  }

  /** activate_event when leaving the terminal, for good (vt == 0) or to another one. */
  function Leave(st: State, vt: int): State {
    DeactivateTty(RemoveFrom(Log(st.(tty := DEACTIVATING, vt := vt), Deactivate), 0))
  }

  /** The first output other than i that holds a surface. */
  function AliveFrom(st: State, i: nat, k: nat): (r: Option<nat>)
    requires k <= |st.outputs|
    ensures r.Some? ==> r.value != i && Holder(st, r.value)
    ensures r.None? ==> forall j: nat :: k <= j && Holder(st, j) ==> j == i
    decreases |st.outputs| - k
  {
    if k == |st.outputs| then None
    else if k != i && Holder(st, k) then Some(k)
    else AliveFrom(st, i, k + 1)
  }

  /** active_output. */
  function Focus(st: State, o: Option<nat>): (r: State)
    requires o.Some? ==> o.value < |st.outputs|
    ensures |r.outputs| == |st.outputs|
  {
    if st.focused == o then st
    else
      var st' := if st.focused.Some? && st.focused.value < |st.outputs| then ScheduleAt(st, st.focused.value) else st;
      var st'' := st'.(focused := o);
      if o.Some? then ScheduleAt(st'', o.value) else st''
  }

  /** remove_output; the compositor it asks to terminate is already terminating. */
  function RemoveOutput(st: State, i: nat): (r: State)
    requires i < |st.outputs|
    ensures |r.outputs| == |st.outputs|
  {
    var st' := SetSurface(Log(Refocused(st, i), Removed(i)), i, None, Fails);
    if st'.terminating && AliveFrom(st, i, 0).None? then Log(st', Terminated) else st'
  }

  /** The part of remove_output that moves the focus to an output that is alive. */
  function Refocused(st: State, i: nat): (r: State)
    requires i < |st.outputs|
    ensures |r.outputs| == |st.outputs|
  {
    if st.focused == Some(i) then Focus(st.(focused := None), AliveFrom(st, i, 0)) else st
  }

  /** wlc_output_terminate on every output from k on. */
  function TerminateFrom(st: State, k: nat): State
    requires k <= |st.outputs|
    decreases |st.outputs| - k
  {
    if k == |st.outputs| then st else TerminateFrom(OutputTerminate(st, k), k + 1)
  }

  /** wlc_compositor_terminate. */
  function CompositorTerminate(st: State): State {
    if !st.terminating && |st.outputs| > 0 then TerminateFrom(Log(st.(terminating := true), TerminateRequested), 0)
    else if !st.terminating then Log(Log(st.(terminating := true), TerminateRequested), Terminated)
    else Log(st, Terminated)
  }

  /** get_surfaceless_output, or the index a new output would get. */
  function Surfaceless(st: State, k: nat): (r: nat)
    requires k <= |st.outputs|
    ensures k <= r <= |st.outputs| && !Holder(st, r)
    decreases |st.outputs| - k
  {
    if k == |st.outputs| || !Holder(st, k) then k else Surfaceless(st, k + 1)
  }

  /** A freshly constructed output: setting its mask has scheduled a repaint. */
  const NEW_OUTPUT := Schedule(Output(None, NoTask, false, false, false, false, false, false, false, false))

  /**
   add_output; `accepted` is the answer of the application, `resized` a change of resolution,
   and `created` says that a new output could be created if none was free.
   */
  function AddOutput(st: State, b: Backend, resized: bool, accepted: bool, created: bool, start: Startup): State {
    var i := Surfaceless(st, 0);
    if i == |st.outputs| && !created then st
    else
      var grown := if i < |st.outputs| then st else st.(outputs := st.outputs + [NEW_OUTPUT]);
      Populated(if resized then ScheduleAt(grown, i) else grown, i, b, accepted, start)
  }

  /** The rest of add_output, for the output it has found or made. */
  function Populated(st: State, i: nat, b: Backend, accepted: bool, start: Startup): State
    requires i < |st.outputs|
  {
    if !accepted then OutputTerminate(st, i)
    else
      var st' := SetSurface(st, i, Some(b), start);
      ScheduleAt(if st'.focused.None? then Focus(st', Some(i)) else st', i)
  }

  /** One thing the backend finds when it looks for its outputs again. */
  datatype Change =
    | Lost(output: nat)
    | Found(backend: Backend, resized: bool, accepted: bool, created: bool, start: Startup)

  function Changed(st: State, c: Change): State {
    match c
    case Lost(i) => if i < |st.outputs| then OutputTerminate(st, i) else st
    case Found(b, resized, accepted, created, start) => AddOutput(st, b, resized, accepted, created, start)
  }

  /** wlc_backend_update_outputs. */
  function Updated(st: State, cs: seq<Change>): State
    decreases |cs|
  {
    if cs == [] then st else Updated(Changed(st, cs[0]), cs[1..])
  }

  /** activate_event when the terminal is given back. */
  function Return(st: State, cs: seq<Change>): State {
    WakeFrom(Updated(ActivateTty(st.(tty := ACTIVATING, vt := 0)), cs), 0)
  }

  // -------------------------------------------------------------------- events

  datatype Event =
    | TimerFires(output: nat, swapped: bool, start: Startup)
    | FlipCompletes(output: nat, start: Startup)
    | RequestRepaint(output: nat)
    | Sleep(output: nat, sleep: bool)
    | SetBackend(output: nat, backend: Option<Backend>, start: Startup)
    | OutputGone(output: nat)
    | FocusOutput(focus: Option<nat>)
    | AddedOutput(added: Backend, resized: bool, accepted: bool, created: bool, start: Startup)
    | SetActive(active: bool, changes: seq<Change>)
    | VtKey(vt: int)
    | IdleRuns
    | Terminate

  predicate Targets(e: Event) {
    !e.FocusOutput? && !e.AddedOutput? && !e.SetActive? && !e.VtKey? && !e.IdleRuns? && !e.Terminate?
  }

  /** When the main loop can deliver e at all. */
  predicate Possible(st: State, e: Event) {
    && (Targets(e) ==> e.output < |st.outputs|)
    && (e.TimerFires? ==> st.outputs[e.output].armed)
    && (e.FlipCompletes? ==> st.outputs[e.output].pending && !st.outputs[e.output].dead)
    && (e.FocusOutput? && e.focus.Some? ==> e.focus.value < |st.outputs|)
    && (e.IdleRuns? ==> st.idle)
  }

  function Step(st: State, e: Event): State
    requires Possible(st, e)
  {
    match e
    case TimerFires(i, swapped, start) => Repaint(st, i, swapped, start)
    case FlipCompletes(i, start) => FinishFrame(st, i, start)
    case RequestRepaint(i) => ScheduleAt(st, i)
    case Sleep(i, sleep) => SetSleep(st, i, sleep)
    case SetBackend(i, b, start) => SetSurface(st, i, b, start)
    case OutputGone(i) => OutputTerminate(st, i)
    case FocusOutput(f) => Focus(st, f)
    case AddedOutput(b, resized, accepted, created, start) => AddOutput(st, b, resized, accepted, created, start)
    case SetActive(active, changes) =>
      if active == st.active then st
      else if active then Return(st.(active := true), changes)
      else Leave(st.(active := false), 0)
    case VtKey(vt) => Leave(st, vt)
    case IdleRuns => Log(st.(vt := 0, idle := false), VtActivated(st.vt))
    case Terminate => CompositorTerminate(st)
  }
}
