/** Which traces of the frame loop are legal, and what holds of every state between two events. */
module FrameLoopInvariant {
  import opened Basics
  import opened FrameLoop

  // -------------------------------------------------------------- traces

  /** The last swap of output i has not been answered by a flip. */
  predicate InFlight(t: Trace, i: nat) {
    match t
    case Start => false
    case Then(past, Swap(j)) => i == j || InFlight(past, i)
    case Then(past, Flip(j)) => i != j && InFlight(past, i)
    case Then(past, _) => InFlight(past, i)
  }

  predicate Holds(t: Trace, i: nat) {
    match t
    case Start => false
    case Then(past, Surface(j, holds)) => if i == j then holds else Holds(past, i)
    case Then(past, _) => Holds(past, i)
  }

  ghost predicate NoneHeld(t: Trace) {
    forall i :: !Holds(t, i)
  }

  /** The terminal is being given up, and neither that nor a return has been carried out. */
  predicate Deactivating(t: Trace) {
    match t
    case Start => false
    case Then(past, Deactivate) => true
    case Then(past, Activate) => false
    case Then(past, TtyReleased) => false
    case Then(past, SwitchRequested(_)) => false
    case Then(past, _) => Deactivating(past)
  }

  predicate Terminating(t: Trace) {
    t.Then? && (t.last.TerminateRequested? || Terminating(t.past))
  }

  /** A switch has been requested and not carried out. */
  predicate SwitchPending(t: Trace) {
    match t
    case Start => false
    case Then(past, SwitchRequested(_)) => true
    case Then(past, VtActivated(_)) => false
    case Then(past, _) => SwitchPending(past)
  }

  predicate Announced(t: Trace) {
    t.Then? && (t.last.Terminated? || Announced(t.past))
  }

  /** What may happen after a given past. */
  ghost predicate MayFollow(past: Trace, a: Action) {
    match a
    case Swap(i) => !InFlight(past, i) && Holds(past, i)
    case Flip(i) => InFlight(past, i)
    case Surface(i, _) => !InFlight(past, i)
    case Slept(i) => !InFlight(past, i)
    case Removed(i) => !InFlight(past, i)
    case TtyReleased => Deactivating(past) && NoneHeld(past)
    case SwitchRequested(vt) => Deactivating(past) && NoneHeld(past) && vt != 0
    case Terminated => Terminating(past) && NoneHeld(past)
    case _ => true
  }

  ghost predicate Legal(t: Trace) {
    t.Start? || (MayFollow(t.past, t.last) && Legal(t.past))
  }

  // -------------------------------------------------------------- invariant

  /**
   The flag `scheduled` holds exactly when the timer is armed or a frame is in flight, with
   one exception; the two are never both; a repaint that is wanted is scheduled; a flight
   needs a surface.  The wish is dropped when a flight ends in the removal of the output.
   */
  predicate OutputOk(o: Output) {
    && ((o.scheduled <==> (o.armed || o.pending)) || Late(o))
    && !(o.armed && o.pending)
    && (o.activity ==> o.scheduled || (o.taskTerminate && !o.pending))
    && (o.pending ==> o.surface.Some?)
    && (o.dead ==> o.pending)
  }

  /** Asleep without having stopped the timer, for want of a sleep hook. */
  predicate Late(o: Output) {
    o.sleeping && o.armed && !o.scheduled && !o.pending && !Hooked(o)
  }

  /** In flight, with a completion to come. */
  predicate Flying(o: Output) {
    o.pending && !o.dead
  }

  predicate NoTasks(o: Output) {
    o.taskSurface.NoTask? && !o.taskSleep && !o.taskTerminate
  }

  /**
   Requests are deferred only while a frame is in flight, and only when they change something;
   between events a frame is in flight only where flips complete later or never.
   */
  predicate TasksOk(o: Output) {
    && (NoTasks(o) || o.pending)
    && TasksNeeded(o)
    && (o.pending ==> Hooked(o) || o.dead)
  }

  predicate TasksNeeded(o: Output) {
    && (o.taskSleep ==> !o.sleeping)
    && (!o.taskSurface.NoTask? ==> !SameSurface(o.surface, TaskSurface(o)))
  }

  /** The state agrees with the trace. */
  ghost predicate Tied(st: State) {
    && Legal(st.trace)
    && (forall i: nat :: InFlight(st.trace, i) == (i < |st.outputs| && st.outputs[i].pending))
    && (forall i: nat :: Holds(st.trace, i) == Holder(st, i))
    && Deactivating(st.trace) == (st.tty == DEACTIVATING)
    && Terminating(st.trace) == st.terminating
    && SwitchPending(st.trace) == st.idle
    && st.tty != ACTIVATING
  }

  /** The invariant, with output x in the middle of finish_frame_tasks. */
  ghost predicate InvBut(st: State, x: int) {
    && Tied(st)
    && (forall i :: 0 <= i < |st.outputs| ==> OutputOk(st.outputs[i]) && (i != x ==> TasksOk(st.outputs[i])))
    && (st.focused.Some? ==> st.focused.value < |st.outputs|)
  }

  /** The terminal is kept only as long as some output holds a surface. */
  predicate Settled(st: State) {
    st.tty == DEACTIVATING ==> SomeHolder(st)
  }

  ghost predicate Inv(st: State) {
    InvBut(st, -1) && Settled(st)
  }
}
