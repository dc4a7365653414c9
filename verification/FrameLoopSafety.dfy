/**
 Every event of the frame loop keeps the invariant, and so every run does: swaps and flips
 alternate, surfaces do not change in flight, and the terminal is given up and termination is
 announced only when no output holds a surface.
 */
module FrameLoopSafety {
  import opened Basics
  import opened FrameLoop
  import opened FrameLoopInvariant

  // ------------------------------------------------------- single writes

  /** Everything else about the outputs is as before. */
  ghost predicate OnlyOutput(st: State, r: State, i: nat) {
    |r.outputs| == |st.outputs| && forall j :: 0 <= j < |st.outputs| && j != i ==> r.outputs[j] == st.outputs[j]
  }

  lemma PutOk(st: State, i: nat, o: Output, x: int)
    requires InvBut(st, x) && i < |st.outputs|
    requires OutputOk(o) && (i != x ==> TasksOk(o))
    requires o.pending == st.outputs[i].pending && o.surface.Some? == st.outputs[i].surface.Some?
    ensures InvBut(Put(st, i, o), x)
  {
    var r := Put(st, i, o);
    forall j: nat
      ensures Holder(r, j) == Holder(st, j)
    {
    }
  }

  lemma ScheduleOk(st: State, i: nat, x: int)
    requires InvBut(st, x) && i < |st.outputs|
    ensures InvBut(ScheduleAt(st, i), x)
  {
    PutOk(st, i, Schedule(st.outputs[i]), x);
  }

  /** An action that changes neither flights, surfaces, terminal nor termination. */
  lemma LogOk(st: State, a: Action, x: int)
    requires InvBut(st, x) && MayFollow(st.trace, a)
    requires a.Slept? || a.Removed? || a.Terminated?
    ensures InvBut(Log(st, a), x)
  {
    var r := Log(st, a);
    forall i: nat
      ensures InFlight(r.trace, i) == InFlight(st.trace, i) && Holds(r.trace, i) == Holds(st.trace, i)
      ensures Holder(r, i) == Holder(st, i)
    {
    }
  }

  lemma SurfaceOk(st: State, i: nat, o: Output, x: int)
    requires InvBut(st, x) && i < |st.outputs| && !st.outputs[i].pending && !o.pending
    requires OutputOk(o) && (i != x ==> TasksOk(o))
    ensures InvBut(Log(Put(st, i, o), Surface(i, o.surface.Some?)), x)
  {
    var r := Log(Put(st, i, o), Surface(i, o.surface.Some?));
    assert !InFlight(st.trace, i);
    forall j: nat
      ensures InFlight(r.trace, j) == InFlight(st.trace, j) && Holds(r.trace, j) == Holder(r, j)
    {
      assert j != i ==> Holder(r, j) == Holder(st, j);
    }
  }

  lemma DeactivateOk(st: State, x: int)
    requires InvBut(st, x)
    ensures InvBut(DeactivateTty(st), x)
    ensures DeactivateTty(st).tty == DEACTIVATING ==> SomeHolder(st)
    ensures DeactivateTty(st).terminating == st.terminating && DeactivateTty(st).focused == st.focused
  {
    var r := DeactivateTty(st);
    if r != st {
      forall i
        ensures !Holds(st.trace, i)
      {
        assert Holds(st.trace, i) == Holder(st, i);
      }
      forall i: nat
        ensures InFlight(r.trace, i) == InFlight(st.trace, i) && Holds(r.trace, i) == Holds(st.trace, i)
        ensures Holder(r, i) == Holder(st, i)
      {
      }
    }
  }

  lemma RespondOk(st: State, x: int)
    requires InvBut(st, x)
    ensures InvBut(RespondTty(st), x)
    ensures RespondTty(st).terminating == st.terminating && RespondTty(st).focused == st.focused
  {
    DeactivateOk(st, x);
  }

  /**
   What the signal of a surface change does to the terminal: a return is carried out at once, and
   leaving it once nobody holds a surface, towards the terminal asked for if there is one.
   */
  lemma RespondTtyExactly(st: State)
    ensures
      var r := RespondTty(st);
      match st.tty
      case IDLE => r == st
      case ACTIVATING => r == st.(tty := IDLE, trace := Then(st.trace, Activate))
      case DEACTIVATING =>
        if exists i :: 0 <= i < |st.outputs| && st.outputs[i].surface.Some? then r == st
        else if st.vt == 0 then r == st.(tty := IDLE, trace := Then(st.trace, TtyReleased))
        else r == st.(tty := IDLE, idle := true, trace := Then(st.trace, SwitchRequested(st.vt)))
  {
    assert SomeHolder(st) <==> exists i :: 0 <= i < |st.outputs| && st.outputs[i].surface.Some? by {
      if i :| 0 <= i < |st.outputs| && st.outputs[i].surface.Some? { assert Holder(st, i); }
    }
  }

  // ------------------------------------------------------- the C functions

  /** What a call changes besides the output's own record, and what it leaves of that. */
  lemma SetSurfaceEffect(st: State, i: nat, b: Option<Backend>, start: Startup)
    requires i < |st.outputs|
    ensures
      var r, o := SetSurface(st, i, b, start), st.outputs[i];
      var o' := r.outputs[i];
      && OnlyOutput(st, r, i) && r.terminating == st.terminating && r.focused == st.focused && r.active == st.active
      && Carried(o, o') && (st.tty == IDLE ==> r.tty == IDLE)
      && (if SameSurface(o.surface, b) then r == st
          else if o.pending then
            && r.trace == st.trace && r.tty == st.tty && o'.surface == o.surface
            && o'.taskSurface == (if b.Some? then Attach(b.value) else Remove)
          else
            && o'.surface == (if start.Comes? then b else None) && (o'.surface.None? ==> !o'.armed && !o'.activity)
            && o'.taskSurface == o.taskSurface)
  {
    var o := st.outputs[i];
    if !SameSurface(o.surface, b) && !o.pending {
      var held := if start.Comes? then b else None;
      ResurfacedEffect(o, held, start == Comes(true));
      RespondFrame(Log(Put(st, i, Resurfaced(o, held, start == Comes(true))), Surface(i, held.Some?)));
    }
  }

  /**
   Out of flight: the surface an output has already, or none where there is none, is no change; any
   other one is taken, or none if it fails; if client surfaces attach again a repaint is due, and
   without a surface none is.
   */
  lemma SurfaceSetExactly(st: State, i: nat, b: Option<Backend>, start: Startup)
    requires i < |st.outputs| && !st.outputs[i].pending && (st.outputs[i].scheduled ==> st.outputs[i].armed)
    ensures Step(st, SetBackend(i, b, start)) == SetSurface(st, i, b, start)
    ensures
      var r, o := SetSurface(st, i, b, start), st.outputs[i];
      var o' := r.outputs[i];
      if o.surface.None? && b.None? then r == st
      else if o.surface.Some? && b.Some? && o.surface.value.display == b.value.display then r == st
      else
        && o'.surface == (if start == Fails then None else b)
        && (o'.surface.Some? && start == Comes(true) ==> o'.armed && o'.scheduled && o'.activity)
        && (o'.surface.Some? && start == Comes(false) ==> o' == o.(surface := b))
        && (o'.surface.None? ==> !o'.armed && !o'.scheduled && !o'.activity)
  {
    var o := st.outputs[i];
    var held := if start.Comes? then b else None;
    RespondFrame(Log(Put(st, i, Resurfaced(o, held, start == Comes(true))), Surface(i, held.Some?)));
  }

  /** The same for the surface deferred in a flight. */
  lemma FinishSurfaceCarries(st: State, i: nat, start: Startup)
    requires i < |st.outputs| && !st.outputs[i].pending
    ensures
      var r, o, b := FinishSurface(st, i, start), st.outputs[i], TaskSurface(st.outputs[i]);
      && OnlyOutput(st, r, i) && r.active == st.active && (st.tty == IDLE ==> r.tty == IDLE)
      && Carried(o, r.outputs[i])
      && r.outputs[i].surface == (if o.taskSurface.NoTask? || SameSurface(o.surface, b) then o.surface
        else if start.Comes? then b else None)
  {
    var o := st.outputs[i];
    if !o.taskSurface.NoTask? {
      SetSurfaceEffect(st, i, TaskSurface(o), start);
      var a := SetSurface(st, i, TaskSurface(o), start);
      var done := a.outputs[i].(taskSurface := NoTask);
      assert Carried(o, done) && done.surface == a.outputs[i].surface;
      assert FinishSurface(st, i, start) == Put(a, i, done) && Put(a, i, done).outputs[i] == done;
    }
  }

  /** What a new surface leaves of the record. */
  predicate Carried(o: Output, o': Output) {
    && o'.dead == o.dead && o'.pending == o.pending && o'.sleeping == o.sleeping
    && o'.taskSleep == o.taskSleep && o'.taskTerminate == o.taskTerminate
  }

  lemma ResurfacedEffect(o: Output, b: Option<Backend>, attached: bool)
    ensures
      var o' := Resurfaced(o, b, attached);
      && Carried(o, o') && o'.surface == b && o'.taskSurface == o.taskSurface
      && (b.None? ==> !o'.armed && !o'.activity)
  {
  }

  lemma RespondFrame(st: State)
    ensures
      var r := RespondTty(st);
      && r.outputs == st.outputs && r.terminating == st.terminating && r.focused == st.focused && r.active == st.active
      && (st.tty == IDLE ==> r == st)
  {
  }

  lemma SetSurfaceOk(st: State, i: nat, b: Option<Backend>, start: Startup, x: int)
    requires InvBut(st, x) && i < |st.outputs| && (b.Some? ==> !Late(st.outputs[i]))
    requires i == x ==> !st.outputs[i].pending
    ensures InvBut(SetSurface(st, i, b, start), x)
  {
    var o := st.outputs[i];
    if SameSurface(o.surface, b) {
    } else if o.pending {
      PutOk(st, i, o.(taskSurface := if b.Some? then Attach(b.value) else Remove), x);
    } else {
      ReplaceSurfaceOk(st, i, if start.Comes? then b else None, start == Comes(true), x);
    }
  }

  lemma ReplaceSurfaceOk(st: State, i: nat, b: Option<Backend>, attached: bool, x: int)
    requires InvBut(st, x) && i < |st.outputs| && (b.Some? ==> !Late(st.outputs[i]))
    requires !st.outputs[i].pending
    ensures InvBut(RespondTty(Log(Put(st, i, Resurfaced(st.outputs[i], b, attached)), Surface(i, b.Some?))), x)
  {
    var o := Resurfaced(st.outputs[i], b, attached);
    assert o.surface == b && OutputOk(o) && !o.pending && (i != x ==> TasksOk(o));
    SurfaceOk(st, i, o, x);
    RespondOk(Log(Put(st, i, o), Surface(i, b.Some?)), x);
  }

  lemma SetSleepEffect(st: State, i: nat, sleep: bool)
    requires i < |st.outputs|
    ensures
      var r, o := SetSleep(st, i, sleep), st.outputs[i];
      var o' := r.outputs[i];
      && OnlyOutput(st, r, i) && r.terminating == st.terminating && r.focused == st.focused && r.tty == st.tty
        && r.active == st.active
      && o'.surface == o.surface && o'.pending == o.pending && o'.taskTerminate == o.taskTerminate
        && o'.taskSurface == o.taskSurface
      && (!o.pending ==> o'.sleeping == sleep && o'.taskSleep == o.taskSleep)
      && (sleep && !o.pending && Quiet(o) ==> Quiet(o'))
  {
    var o := st.outputs[i];
    if o.sleeping == sleep || (sleep && o.pending) || !sleep {
    } else {
      assert OnlyOutput(st, SetSleep(st, i, sleep), i);
    }
  }

  lemma SetSleepOk(st: State, i: nat, sleep: bool, x: int)
    requires InvBut(st, x) && i < |st.outputs|
    requires i == x ==> !st.outputs[i].pending
    ensures InvBut(SetSleep(st, i, sleep), x)
  {
    var o := st.outputs[i];
    if o.sleeping == sleep {
    } else if sleep && o.pending {
      PutOk(st, i, o.(taskSleep := true), x);
    } else if !sleep {
      PutOk(st, i, Schedule(o.(sleeping := false)), x);
      assert SetSleep(st, i, false) == Put(st, i, Schedule(o.(sleeping := false)));
    } else {
      FallAsleepOk(st, i, x);
    }
  }

  lemma FallAsleepOk(st: State, i: nat, x: int)
    requires InvBut(st, x) && i < |st.outputs|
    requires !st.outputs[i].sleeping && !st.outputs[i].pending
    ensures InvBut(SetSleep(st, i, true), x)
  {
    var o := st.outputs[i];
    var o' := Asleep(o);
    PutOk(st, i, o', x);
    assert !InFlight(st.trace, i);
    LogOk(Put(st, i, o'), Slept(i), x);
  }

  lemma FocusOk(st: State, f: Option<nat>, x: int)
    requires InvBut(st, x) && (f.Some? ==> f.value < |st.outputs|)
    ensures InvBut(Focus(st, f), x)
  {
    if st.focused != f {
      var a := if st.focused.Some? then ScheduleAt(st, st.focused.value) else st;
      if st.focused.Some? {
        ScheduleOk(st, st.focused.value, x);
      }
      RefocusOk(a, f, x);
      if f.Some? {
        ScheduleOk(a.(focused := f), f.value, x);
      }
    }
  }

  lemma RefocusOk(st: State, f: Option<nat>, x: int)
    requires InvBut(st, x) && (f.Some? ==> f.value < |st.outputs|)
    ensures InvBut(st.(focused := f), x)
  {
    var r := st.(focused := f);
    forall j: nat
      ensures Holder(r, j) == Holder(st, j)
    {
    }
  }

  /** Outputs other than i may have been asked to repaint, and that is all. */
  ghost predicate OthersScheduled(st: State, r: State, i: nat) {
    |r.outputs| == |st.outputs| && forall j :: 0 <= j < |st.outputs| && j != i ==>
      r.outputs[j] == st.outputs[j] || r.outputs[j] == Schedule(st.outputs[j])
  }

  lemma FocusEffect(st: State, f: Option<nat>)
    requires f.Some? ==> f.value < |st.outputs|
    ensures
      var r := Focus(st, f);
      && |r.outputs| == |st.outputs| && r.terminating == st.terminating && r.tty == st.tty && r.trace == st.trace
        && r.active == st.active
      && (forall j :: 0 <= j < |st.outputs| ==>
        r.outputs[j] == st.outputs[j] || r.outputs[j] == Schedule(st.outputs[j]))
      && (forall j :: 0 <= j < |st.outputs| && st.focused != Some(j) && f != Some(j) ==> r.outputs[j] == st.outputs[j])
  {
  }

  /** The focus goes where it is sent, and the output that had it and the one that gets it repaint. */
  lemma FocusExactly(st: State, f: Option<nat>)
    requires f.Some? ==> f.value < |st.outputs|
    ensures Step(st, FocusOutput(f)) == Focus(st, f)
    ensures
      var r := Focus(st, f);
      && r.focused == f
      && (forall j :: 0 <= j < |st.outputs| ==>
        r.outputs[j] == if f != st.focused && (st.focused == Some(j) || f == Some(j)) then Schedule(st.outputs[j])
          else st.outputs[j])
  {
  }

  /** An output that goes while it has the focus hands it to one that holds a surface, if there is another. */
  lemma RemovalRefocuses(st: State, i: nat)
    requires i < |st.outputs|
    ensures
      var r := RemoveOutput(st, i);
      && (st.focused != Some(i) ==> r.focused == st.focused)
      && (st.focused == Some(i) ==>
        && r.focused != Some(i)
        && (r.focused.Some? ==> Holder(st, r.focused.value))
        && (r.focused.None? ==> forall j: nat :: Holder(st, j) ==> j == i))
  {
    var alive := AliveFrom(st, i, 0);
    FocusExactly(st.(focused := None), alive);
    SetSurfaceEffect(Log(Refocused(st, i), Removed(i)), i, None, Fails);
  }

  lemma RefocusedEffect(st: State, i: nat)
    requires i < |st.outputs|
    ensures
      var r := Refocused(st, i);
      OthersScheduled(st, r, i) && r.outputs[i] == st.outputs[i] && r.terminating == st.terminating && r.tty == st.tty
        && r.trace == st.trace && r.active == st.active
  {
    FocusEffect(st.(focused := None), AliveFrom(st, i, 0));
  }

  lemma RefocusedOk(st: State, i: nat, x: int)
    requires InvBut(st, x) && i < |st.outputs|
    ensures InvBut(Refocused(st, i), x)
  {
    if st.focused == Some(i) {
      RefocusOk(st, None, x);
      FocusOk(st.(focused := None), AliveFrom(st, i, 0), x);
    }
  }

  lemma RemoveOutputEffect(st: State, i: nat)
    requires i < |st.outputs| && !st.outputs[i].pending
    ensures
      var r, o := RemoveOutput(st, i), st.outputs[i];
      var o' := r.outputs[i];
      && OthersScheduled(st, r, i) && r.terminating == st.terminating && r.active == st.active
      && o'.surface.None? && !o'.pending && o'.taskSurface == o.taskSurface && o'.taskSleep == o.taskSleep
        && o'.sleeping == o.sleeping && o'.taskTerminate == o.taskTerminate
      && (Quiet(o) ==> Quiet(o'))
  {
    RefocusedEffect(st, i);
    SetSurfaceEffect(Log(Refocused(st, i), Removed(i)), i, None, Fails);
  }

  /** While terminating, removing the last holder announces it. */
  lemma RemoveOutputAnnounces(st: State, i: nat)
    requires i < |st.outputs| && !st.outputs[i].pending && st.terminating
    ensures Announced(RemoveOutput(st, i).trace) || SomeHolder(RemoveOutput(st, i))
  {
    RemoveOutputEffect(st, i);
    var alive := AliveFrom(st, i, 0);
    if alive.Some? {
      assert Holder(RemoveOutput(st, i), alive.value);
    } else {
      RefocusedEffect(st, i);
      SetSurfaceEffect(Log(Refocused(st, i), Removed(i)), i, None, Fails);
    }
  }

  lemma RemoveOutputOk(st: State, i: nat, x: int)
    requires InvBut(st, x) && i < |st.outputs| && !st.outputs[i].pending
    ensures InvBut(RemoveOutput(st, i), x)
  {
    RefocusedOk(st, i, x);
    RefocusedEffect(st, i);
    var a := Refocused(st, i);
    assert !InFlight(a.trace, i);
    LogOk(a, Removed(i), x);
    var b := Log(a, Removed(i));
    SetSurfaceEffect(b, i, None, Fails);
    SetSurfaceOk(b, i, None, Fails, x);
    var c := SetSurface(b, i, None, Fails);
    if c.terminating && AliveFrom(st, i, 0).None? {
      forall j: nat
        ensures !Holds(c.trace, j)
      {
        assert Holds(c.trace, j) == Holder(c, j);
        assert j < |st.outputs| && j != i ==> Holder(c, j) == Holder(st, j);
      }
      LogOk(c, Terminated, x);
    }
  }

  lemma OutputTerminateEffect(st: State, i: nat)
    requires i < |st.outputs|
    ensures
      var r, o := OutputTerminate(st, i), st.outputs[i];
      && OthersScheduled(st, r, i) && r.terminating == st.terminating
      && (if o.pending then r.outputs[i] == Schedule(o.(taskTerminate := true)) && r.trace == st.trace
        && r.tty == st.tty
          else r == RemoveOutput(st, i))
  {
    if !st.outputs[i].pending {
      RemoveOutputEffect(st, i);
    }
  }

  lemma OutputTerminateOk(st: State, i: nat, x: int)
    requires InvBut(st, x) && i < |st.outputs|
    requires i == x ==> !st.outputs[i].pending
    ensures InvBut(OutputTerminate(st, i), x)
  {
    var o := st.outputs[i];
    if o.pending {
      PutOk(st, i, o.(taskTerminate := true), x);
      ScheduleOk(Put(st, i, o.(taskTerminate := true)), i, x);
    } else {
      RemoveOutputOk(st, i, x);
    }
  }

  // ------------------------------------------------------- nobody is forgotten

  lemma SettledKept(st: State, r: State)
    requires Settled(st) && r.tty == st.tty && |st.outputs| <= |r.outputs|
    requires forall j :: 0 <= j < |st.outputs| && Holder(st, j) ==> Holder(r, j)
    ensures Settled(r)
  {
    if r.tty == DEACTIVATING {
      var j :| 0 <= j < |st.outputs| && Holder(st, j);
      assert Holder(r, j);
    }
  }

  lemma SetSurfaceSettled(st: State, i: nat, b: Option<Backend>, start: Startup)
    requires Settled(st) && i < |st.outputs|
    ensures Settled(SetSurface(st, i, b, start))
  {
    var o := st.outputs[i];
    if !SameSurface(o.surface, b) && o.pending {
      SettledKept(st, SetSurface(st, i, b, start));
    }
  }

  lemma RemoveOutputSettled(st: State, i: nat)
    requires Settled(st) && i < |st.outputs|
    ensures Settled(RemoveOutput(st, i))
  {
    RefocusedEffect(st, i);
    var a := Log(Refocused(st, i), Removed(i));
    SettledKept(st, a);
    SetSurfaceSettled(a, i, None, Fails);
    SettledKept(SetSurface(a, i, None, Fails), RemoveOutput(st, i));
  }

  lemma OutputTerminateSettled(st: State, i: nat)
    requires Settled(st) && i < |st.outputs|
    ensures Settled(OutputTerminate(st, i))
  {
    if st.outputs[i].pending {
      SettledKept(st, OutputTerminate(st, i));
    } else {
      RemoveOutputSettled(st, i);
    }
  }

  // ------------------------------------------------------------ a frame ends

  /** An output without a surface has nothing to stop when it is put to sleep or removed. */
  predicate Quiet(o: Output) {
    o.surface.Some? || (!o.armed && (o.activity ==> o.scheduled))
  }

  /** Striking a performed request off the record. */
  lemma StruckOk(st: State, i: nat, o: Output)
    requires InvBut(st, i) && Settled(st) && i < |st.outputs|
    requires o == st.outputs[i].(taskSurface := o.taskSurface, taskSleep := o.taskSleep,
      taskTerminate := o.taskTerminate)
    requires OutputOk(o)
    ensures InvBut(Put(st, i, o), i) && Settled(Put(st, i, o))
  {
    PutOk(st, i, o, i);
    SettledKept(st, Put(st, i, o));
  }

  lemma SetSurfaceQuiet(st: State, i: nat, b: Option<Backend>, start: Startup)
    requires i < |st.outputs| && !st.outputs[i].pending && Quiet(st.outputs[i])
    ensures Quiet(SetSurface(st, i, b, start).outputs[i])
  {
  }

  lemma StruckEffect(st: State, a: State, i: nat)
    requires i < |st.outputs| && OnlyOutput(st, a, i)
    ensures
      var r, o := Put(a, i, a.outputs[i].(taskSurface := NoTask)), a.outputs[i];
      OnlyOutput(st, r, i) && r.outputs[i].taskSurface.NoTask? && (Quiet(o) ==> Quiet(r.outputs[i]))
  {
  }

  lemma FinishSurfaceEffect(st: State, i: nat, start: Startup)
    requires i < |st.outputs| && !st.outputs[i].pending && Quiet(st.outputs[i])
    ensures
      var r, o := FinishSurface(st, i, start), st.outputs[i];
      && r.terminating == st.terminating && OnlyOutput(st, r, i)
      && !r.outputs[i].pending && r.outputs[i].taskSurface.NoTask? && Quiet(r.outputs[i])
      && r.outputs[i].taskSleep == o.taskSleep && r.outputs[i].taskTerminate == o.taskTerminate
  {
    var b := TaskSurface(st.outputs[i]);
    SetSurfaceEffect(st, i, b, start);
    SetSurfaceQuiet(st, i, b, start);
    StruckEffect(st, SetSurface(st, i, b, start), i);
  }

  lemma FinishSurfaceOk(st: State, i: nat, start: Startup)
    requires InvBut(st, i) && Settled(st) && i < |st.outputs| && !st.outputs[i].pending && !Late(st.outputs[i])
    ensures InvBut(FinishSurface(st, i, start), i) && Settled(FinishSurface(st, i, start))
  {
    var o := st.outputs[i];
    if !o.taskSurface.NoTask? {
      SetSurfaceOk(st, i, TaskSurface(o), start, i);
      SetSurfaceSettled(st, i, TaskSurface(o), start);
      var a := SetSurface(st, i, TaskSurface(o), start);
      StruckOk(a, i, a.outputs[i].(taskSurface := NoTask));
    }
  }

  lemma FinishSleepOk(st: State, i: nat)
    requires InvBut(st, i) && Settled(st) && i < |st.outputs| && !st.outputs[i].pending && Quiet(st.outputs[i])
    ensures
      var r := FinishSleep(st, i);
      && InvBut(r, i) && Settled(r) && r.terminating == st.terminating && OnlyOutput(st, r, i)
      && !r.outputs[i].pending && !r.outputs[i].taskSleep && Quiet(r.outputs[i])
      && r.outputs[i].taskSurface == st.outputs[i].taskSurface
        && r.outputs[i].taskTerminate == st.outputs[i].taskTerminate
  {
    if st.outputs[i].taskSleep {
      SetSleepOk(st, i, true, i);
      SetSleepEffect(st, i, true);
      var a := SetSleep(st, i, true);
      SettledKept(st, a);
      StruckOk(a, i, a.outputs[i].(taskSleep := false));
    }
  }

  lemma FinishTerminateOk(st: State, i: nat)
    requires InvBut(st, i) && Settled(st) && i < |st.outputs| && !st.outputs[i].pending && Quiet(st.outputs[i])
    requires st.outputs[i].taskSurface.NoTask? && !st.outputs[i].taskSleep
    ensures
      var r := FinishTerminate(st, i);
      && InvBut(r, -1) && Settled(r) && r.terminating == st.terminating && OthersScheduled(st, r, i)
      && !r.outputs[i].pending && NoTasks(r.outputs[i])
      && (st.outputs[i].taskTerminate ==> r.outputs[i].surface.None?)
  {
    if st.outputs[i].taskTerminate {
      OutputTerminateOk(st, i, i);
      OutputTerminateEffect(st, i);
      RemoveOutputEffect(st, i);
      OutputTerminateSettled(st, i);
      var a := OutputTerminate(st, i);
      PutOk(a, i, a.outputs[i].(taskTerminate := false), i);
      SettledKept(a, FinishTerminate(st, i));
    }
  }

  lemma FinishTasksOk(st: State, i: nat, start: Startup)
    requires InvBut(st, i) && Settled(st) && i < |st.outputs| && !st.outputs[i].pending && Quiet(st.outputs[i])
    requires !Late(st.outputs[i])
    ensures
      var r := FinishTasks(st, i, start);
      && Inv(r) && r.terminating == st.terminating && OthersScheduled(st, r, i)
      && !r.outputs[i].pending && NoTasks(r.outputs[i])
      && (st.outputs[i].taskTerminate ==> r.outputs[i].surface.None?)
  {
    FinishSurfaceOk(st, i, start);
    FinishSurfaceEffect(st, i, start);
    var a := FinishSurface(st, i, start);
    FinishSleepOk(a, i);
    FinishTerminateOk(FinishSleep(a, i), i);
  }

  /** A frame in flight ends. */
  lemma LandedOk(st: State, i: nat)
    requires InvBut(st, -1) && i < |st.outputs| && Flying(st.outputs[i])
    ensures InvBut(Log(Put(st, i, FrameDone(st.outputs[i])), Flip(i)), i)
  {
    var r := Log(Put(st, i, FrameDone(st.outputs[i])), Flip(i));
    assert InFlight(st.trace, i) == st.outputs[i].pending && OutputOk(r.outputs[i]);
    SameHolders(st, r);
    forall j: nat
      ensures Holds(r.trace, j) == Holder(r, j)
    {
      assert Holds(r.trace, j) == Holds(st.trace, j) == Holder(st, j);
    }
  }

  /** A swap starts, and its frame is in flight. */
  lemma SwappedOk(st: State, i: nat)
    requires InvBut(st, -1) && i < |st.outputs| && st.outputs[i].armed && Hooked(st.outputs[i])
    ensures InvBut(Swapped(st, i), -1)
  {
    assert !InFlight(st.trace, i) && Holds(st.trace, i) by {
      assert InFlight(st.trace, i) == st.outputs[i].pending && Holds(st.trace, i) == Holder(st, i);
    }
    SameHolders(st, Swapped(st, i));
    assert OutputOk(Swapped(st, i).outputs[i]) && TasksOk(Swapped(st, i).outputs[i]);
  }

  /** A swap fails, and the output waits for nothing. */
  lemma LapsedOk(st: State, i: nat)
    requires InvBut(st, -1) && i < |st.outputs| && st.outputs[i].armed && st.outputs[i].surface.Some?
    requires !Late(st.outputs[i])
    ensures InvBut(Lapsed(st, i), -1)
  {
    assert !InFlight(st.trace, i) && Holds(st.trace, i) by {
      assert InFlight(st.trace, i) == st.outputs[i].pending && Holds(st.trace, i) == Holder(st, i);
    }
    SameHolders(st, Lapsed(st, i));
    assert OutputOk(Lapsed(st, i).outputs[i]) && TasksOk(Lapsed(st, i).outputs[i]);
  }

  /** A frame that is finished inside the swap. */
  function Finished(st: State, i: nat): State
    requires i < |st.outputs|
  {
    var s := Swapped(st, i);
    Log(Put(s, i, FrameDone(s.outputs[i])), Flip(i))
  }

  lemma FinishedOk(st: State, i: nat)
    requires InvBut(st, -1) && i < |st.outputs| && st.outputs[i].armed && st.outputs[i].surface.Some?
    ensures InvBut(Finished(st, i), -1) && !Late(Finished(st, i).outputs[i])
  {
    var r := Finished(st, i);
    assert InFlight(st.trace, i) == st.outputs[i].pending && Holds(st.trace, i) == Holder(st, i);
    SameHolders(st, r);
    forall j: nat
      ensures InFlight(r.trace, j) == InFlight(st.trace, j) && Holds(r.trace, j) == Holds(st.trace, j)
    {
    }
  }

  lemma SameHolders(st: State, r: State)
    requires |r.outputs| == |st.outputs|
    requires forall j :: 0 <= j < |st.outputs| ==> r.outputs[j].surface.Some? == st.outputs[j].surface.Some?
    ensures forall j: nat :: Holder(r, j) == Holder(st, j)
  {
  }

  lemma FinishFrameOk(st: State, i: nat, start: Startup)
    requires Inv(st) && i < |st.outputs| && Flying(st.outputs[i])
    ensures
      var r := FinishFrame(st, i, start);
      && Inv(r) && r.terminating == st.terminating && OthersScheduled(st, r, i)
      && !r.outputs[i].pending && NoTasks(r.outputs[i])
      && (st.outputs[i].taskTerminate ==> r.outputs[i].surface.None?)
  {
    LandedOk(st, i);
    var a := Log(Put(st, i, FrameDone(st.outputs[i])), Flip(i));
    SettledKept(st, a);
    FinishTasksOk(a, i, start);
  }

  lemma UntaskedFinish(st: State, i: nat, start: Startup)
    requires i < |st.outputs| && NoTasks(st.outputs[i])
    ensures FinishFrame(st, i, start) == Log(Put(st, i, FrameDone(st.outputs[i])), Flip(i))
  {
  }

  /** The timer starts one swap, which ends at once without a sleep hook, or cancels the repaint. */
  lemma RepaintOk(st: State, i: nat, swapped: bool, start: Startup)
    requires Inv(st) && i < |st.outputs| && st.outputs[i].armed && (swapped || !Late(st.outputs[i]))
    ensures
      var r := Repaint(st, i, swapped, start);
      && Inv(r) && r.terminating == st.terminating && OnlyOutput(st, r, i) && !Late(r.outputs[i])
      && (if !ShouldRender(st, st.outputs[i]) then r == Put(st, i, Cancel(st.outputs[i]))
          else if !swapped then r == Lapsed(st, i)
          else if Hooked(st.outputs[i]) then r == Swapped(st, i)
          else r == Finished(st, i))
  {
    var o := st.outputs[i];
    if ShouldRender(st, o) && !swapped {
      LapsedOk(st, i);
      SettledKept(st, Lapsed(st, i));
    } else if ShouldRender(st, o) && Hooked(o) {
      SwappedOk(st, i);
      SettledKept(st, Swapped(st, i));
    } else if ShouldRender(st, o) {
      FinishedAtOnce(st, i, start);
    } else {
      RepaintCancels(st, i, swapped, start);
    }
  }

  lemma FinishedAtOnce(st: State, i: nat, start: Startup)
    requires Inv(st) && i < |st.outputs| && st.outputs[i].armed && st.outputs[i].surface.Some?
    ensures FinishFrame(Swapped(st, i), i, start) == Finished(st, i) && Inv(Finished(st, i))
    ensures !Late(Finished(st, i).outputs[i])
  {
    FinishedOk(st, i);
    SettledKept(st, Finished(st, i));
    UntaskedFinish(Swapped(st, i), i, start);
  }

  lemma RepaintCancels(st: State, i: nat, swapped: bool, start: Startup)
    requires Inv(st) && i < |st.outputs| && st.outputs[i].armed && !ShouldRender(st, st.outputs[i])
    ensures Repaint(st, i, swapped, start) == Put(st, i, Cancel(st.outputs[i]))
    ensures Inv(Put(st, i, Cancel(st.outputs[i])))
  {
    PutOk(st, i, Cancel(st.outputs[i]), -1);
    SettledKept(st, Put(st, i, Cancel(st.outputs[i])));
  }

  // ------------------------------------------------- loops over all outputs

  lemma {:induction false} RemoveFromOk(st: State, k: nat)
    requires InvBut(st, -1) && k <= |st.outputs|
    ensures InvBut(RemoveFrom(st, k), -1)
    decreases |st.outputs| - k
  {
    if k < |st.outputs| {
      SetSurfaceOk(st, k, None, Fails, -1);
      RemoveFromOk(SetSurface(st, k, None, Fails), k + 1);
    }
  }

  lemma {:induction false} RemoveFromEffect(st: State, k: nat)
    requires k <= |st.outputs| && forall j :: 0 <= j < k ==> Leaving(st.outputs[j])
    ensures
      var r := RemoveFrom(st, k);
      && r.terminating == st.terminating && |r.outputs| == |st.outputs|
      && forall j :: 0 <= j < |r.outputs| ==> Leaving(r.outputs[j]) && OnlyLeaves(st.outputs[j], r.outputs[j])
    decreases |st.outputs| - k
  {
    if k < |st.outputs| {
      SetSurfaceEffect(st, k, None, Fails);
      RemoveFromEffect(SetSurface(st, k, None, Fails), k + 1);
    }
  }

  predicate OnlyLeaves(o: Output, o': Output) {
    o'.pending == o.pending && o'.taskTerminate == o.taskTerminate && (o'.surface.Some? ==> o.surface.Some?)
  }

  /** No surface, or its removal is recorded for the end of the flight. */
  predicate Leaving(o: Output) {
    o.surface.None? || (o.pending && o.taskSurface == Remove)
  }

  lemma {:induction false} WakeFromOk(st: State, k: nat)
    requires Inv(st) && k <= |st.outputs|
    ensures Inv(WakeFrom(st, k)) && WakeFrom(st, k).tty == st.tty && WakeFrom(st, k).terminating == st.terminating
    decreases |st.outputs| - k
  {
    if k < |st.outputs| {
      SetSleepOk(st, k, false, -1);
      SetSleepEffect(st, k, false);
      SettledKept(st, SetSleep(st, k, false));
      WakeFromOk(SetSleep(st, k, false), k + 1);
    }
  }

  lemma TtyOk(st: State, tty: Tty, vt: int, a: Action)
    requires InvBut(st, -1)
    requires (tty == DEACTIVATING && a == Deactivate) || (tty == IDLE && a == Activate)
    ensures InvBut(Log(st.(tty := tty, vt := vt), a), -1)
  {
    var r := Log(st.(tty := tty, vt := vt), a);
    forall i: nat
      ensures InFlight(r.trace, i) == InFlight(st.trace, i) && Holds(r.trace, i) == Holds(st.trace, i)
      ensures Holder(r, i) == Holder(st, i)
    {
    }
  }

  lemma LeaveOk(st: State, vt: int)
    requires Inv(st)
    ensures
      var r := Leave(st, vt);
      && Inv(r) && r.terminating == st.terminating && |r.outputs| == |st.outputs|
      && forall j :: 0 <= j < |r.outputs| ==> Leaving(r.outputs[j]) && OnlyLeaves(st.outputs[j], r.outputs[j])
  {
    TtyOk(st, DEACTIVATING, vt, Deactivate);
    var a := Log(st.(tty := DEACTIVATING, vt := vt), Deactivate);
    RemoveFromOk(a, 0);
    RemoveFromEffect(a, 0);
    DeactivateOk(RemoveFrom(a, 0), -1);
  }

  /**
   While terminating: every holder will be removed when its flight ends, and the end is
   announced when none is left.
   */
  predicate Ending(st: State, k: int) {
    && (forall j :: 0 <= j < |st.outputs| && j < k && Holder(st, j) ==>
      st.outputs[j].pending && st.outputs[j].taskTerminate)
    && (|st.outputs| > 0 && k > 0 && !SomeHolder(st) ==> Announced(st.trace))
  }

  lemma {:induction false} TerminateFromOk(st: State, k: nat)
    requires Inv(st) && st.terminating && k <= |st.outputs| && Ending(st, k)
    ensures
      var r := TerminateFrom(st, k);
      Inv(r) && r.terminating && |r.outputs| == |st.outputs| && Ending(r, |r.outputs|)
    decreases |st.outputs| - k
  {
    if k < |st.outputs| {
      OutputTerminateOk(st, k, -1);
      OutputTerminateSettled(st, k);
      OutputTerminateEnds(st, k);
      TerminateFromOk(OutputTerminate(st, k), k + 1);
    }
  }

  lemma OutputTerminateEnds(st: State, k: nat)
    requires st.terminating && k < |st.outputs| && Ending(st, k) && OutputOk(st.outputs[k])
    ensures
      var r := OutputTerminate(st, k);
      Ending(r, k + 1) && r.terminating && |r.outputs| == |st.outputs|
  {
    OutputTerminateEffect(st, k);
    var r := OutputTerminate(st, k);
    if st.outputs[k].pending {
      assert Holder(r, k);
    } else {
      RemoveOutputEffect(st, k);
      RemoveOutputAnnounces(st, k);
    }
    forall j | 0 <= j < k && Holder(r, j)
      ensures r.outputs[j].pending && r.outputs[j].taskTerminate
    {
      assert Holder(st, j);
    }
  }

  lemma AskedOk(st: State)
    requires Inv(st)
    ensures Inv(Log(st.(terminating := true), TerminateRequested))
  {
    var r := Log(st.(terminating := true), TerminateRequested);
    forall i: nat
      ensures InFlight(r.trace, i) == InFlight(st.trace, i) && Holds(r.trace, i) == Holds(st.trace, i)
      ensures Holder(r, i) == Holder(st, i)
    {
    }
    SettledKept(st, r);
  }

  /** Without an output the end is announced at once, and a second time if it is asked for again. */
  lemma NothingToTerminate(st: State)
    requires st.outputs == [] || st.terminating
    ensures
      var asked := if st.terminating then st.trace else Then(st.trace, TerminateRequested);
      CompositorTerminate(st) == st.(terminating := true, trace := Then(asked, Terminated))
  {
  }

  lemma TerminateOk(st: State)
    requires Inv(st) && (st.terminating ==> !SomeHolder(st))
    ensures
      var r := CompositorTerminate(st);
      Inv(r) && r.terminating && |r.outputs| == |st.outputs| && (!st.terminating ==> Ending(r, |r.outputs|))
  {
    AskedOk(st);
    var a := Log(st.(terminating := true), TerminateRequested);
    if !st.terminating && |st.outputs| > 0 {
      TerminateFromOk(a, 0);
    } else {
      var b := if st.terminating then st else a;
      forall j: nat
        ensures !Holds(b.trace, j)
      {
        assert Holds(b.trace, j) == Holder(b, j);
      }
      LogOk(b, Terminated, -1);
      SettledKept(b, Log(b, Terminated));
    }
  }

  // ----------------------------------------------------------- new outputs

  lemma GrowOk(st: State)
    requires Inv(st)
    ensures Inv(st.(outputs := st.outputs + [NEW_OUTPUT]))
  {
    var r := st.(outputs := st.outputs + [NEW_OUTPUT]);
    forall i: nat
      ensures Holder(r, i) == Holder(st, i)
    {
    }
    SettledKept(st, r);
  }

  function Shown(s: State, i: nat): State
    requires i < |s.outputs|
  {
    ScheduleAt(if s.focused.None? then Focus(s, Some(i)) else s, i)
  }

  lemma RescheduledSame(s: State, i: nat, y: Output)
    requires i < |s.outputs| && Schedule(s.outputs[i]) == Schedule(y) && s.outputs[i].surface.Some? == y.surface.Some?
    ensures Shown(RespondTty(s), i) == Shown(RespondTty(Put(s, i, y)), i)
  {
    var t := Put(s, i, y);
    SameHolders(s, t);
    assert SomeHolder(s) <==> SomeHolder(t) by {
      if j :| 0 <= j < |s.outputs| && Holder(s, j) { assert Holder(t, j); }
      if j :| 0 <= j < |t.outputs| && Holder(t, j) { assert Holder(s, j); }
    }
    assert RespondTty(t) == RespondTty(s).(outputs := t.outputs);
    ShownSame(RespondTty(s), i, y);
  }

  lemma ShownSame(a: State, i: nat, y: Output)
    requires i < |a.outputs| && Schedule(a.outputs[i]) == Schedule(y)
    ensures Shown(a, i) == Shown(Put(a, i, y), i)
  {
    var b := Put(a, i, y);
    assert ScheduleAt(a, i) == ScheduleAt(b, i);
    if a.focused.None? {
      assert Focus(a, Some(i)) == ScheduleAt(a.(focused := Some(i)), i);
      assert Focus(b, Some(i)) == ScheduleAt(b.(focused := Some(i)), i);
      assert ScheduleAt(a.(focused := Some(i)), i) == ScheduleAt(b.(focused := Some(i)), i);
    }
  }

  function Set(st: State, i: nat, o: Output): State
    requires i < |st.outputs|
  {
    Log(Put(st, i, o), Surface(i, o.surface.Some?))
  }

  /** The record of an output that add_output gives a surface. */
  function Started(o: Output, b: Backend, start: Startup): Output {
    Resurfaced(o, if start.Comes? then Some(b) else None, start == Comes(true))
  }

  /** What is left of add_output once the surface has been set. */
  lemma PopulatedIs(st: State, i: nat, b: Backend, start: Startup)
    requires i < |st.outputs| && st.outputs[i].surface.None? && !st.outputs[i].pending
    ensures Populated(st, i, b, true, start) == Shown(RespondTty(Set(st, i, Started(st.outputs[i], b, start))), i)
  {
  }

  lemma StartedSame(o: Output, b: Backend, start: Startup)
    ensures
      var x, y := Started(o, b, start), Started(Schedule(o), b, start);
      Schedule(x) == Schedule(y) && x.surface == y.surface
  {
  }

  lemma SetSame(st: State, i: nat, x: Output, y: Output)
    requires i < |st.outputs| && x.surface == y.surface
    ensures Set(ScheduleAt(st, i), i, y) == Put(Set(st, i, x), i, y)
  {
  }

  /** add_output schedules a repaint at the end; having scheduled one before makes no difference. */
  lemma PopulatedEarlier(st: State, i: nat, b: Backend, start: Startup)
    requires i < |st.outputs| && st.outputs[i].surface.None? && !st.outputs[i].pending
    ensures Populated(st, i, b, true, start) == Populated(ScheduleAt(st, i), i, b, true, start)
  {
    var x, y := Started(st.outputs[i], b, start), Started(Schedule(st.outputs[i]), b, start);
    PopulatedIs(st, i, b, start);
    PopulatedIs(ScheduleAt(st, i), i, b, start);
    StartedSame(st.outputs[i], b, start);
    SetSame(st, i, x, y);
    RescheduledSame(Set(st, i, x), i, y);
  }

  lemma PopulatedOk(st: State, i: nat, b: Backend, accepted: bool, start: Startup)
    requires Inv(st) && i < |st.outputs| && st.outputs[i].surface.None?
    ensures Inv(Populated(st, i, b, accepted, start))
  {
    if !accepted {
      OutputTerminateOk(st, i, -1);
      OutputTerminateSettled(st, i);
    } else {
      var s := ScheduleAt(st, i);
      ScheduleInv(st, i);
      PopulatedEarlier(st, i, b, start);
      SetSurfaceOk(s, i, Some(b), start, -1);
      SetSurfaceSettled(s, i, Some(b), start);
      var s' := SetSurface(s, i, Some(b), start);
      FocusInv(s', Some(i));
      ScheduleInv(if s'.focused.None? then Focus(s', Some(i)) else s', i);
    }
  }

  lemma AddOutputOk(st: State, b: Backend, resized: bool, accepted: bool, created: bool, start: Startup)
    requires Inv(st)
    ensures Inv(AddOutput(st, b, resized, accepted, created, start))
  {
    var i := Surfaceless(st, 0);
    GrowOk(st);
    var s := if i < |st.outputs| then st else st.(outputs := st.outputs + [NEW_OUTPUT]);
    ScheduleInv(s, i);
    PopulatedOk(if resized then ScheduleAt(s, i) else s, i, b, accepted, start);
  }

  lemma {:induction false} FirstSurfaceless(st: State, k: nat, i: nat)
    requires k <= i <= |st.outputs| && !Holder(st, i) && forall j: nat :: k <= j < i ==> Holder(st, j)
    ensures Surfaceless(st, k) == i
    decreases i - k
  {
    if k < i { FirstSurfaceless(st, k + 1, i); }
  }

  /**
   The first output without a surface is used again, and only if there is none a new one is needed.
   When the application accepts it, it has the surface if that could be set, repaints, and has the
   focus if nobody had it.
   */
  lemma AddedExactly(st: State, b: Backend, resized: bool, created: bool, start: Startup, i: nat)
    requires Inv(st) && i <= |st.outputs| && !Holder(st, i) && forall j: nat :: j < i ==> Holder(st, j)
    ensures
      var r := AddOutput(st, b, resized, true, created, start);
      if i == |st.outputs| && !created then r == st
      else
        && |r.outputs| == (if i < |st.outputs| then |st.outputs| else i + 1)
        && r.outputs[i].surface == (if start == Fails then None else Some(b))
        && r.outputs[i].armed && r.outputs[i].scheduled && r.outputs[i].activity
        && r.focused == (if st.focused.None? then Some(i) else st.focused)
        && forall j :: 0 <= j < |st.outputs| && j != i ==> r.outputs[j] == st.outputs[j]
  {
    FirstSurfaceless(st, 0, i);
    if i < |st.outputs| || created {
      var grown := if i < |st.outputs| then st else st.(outputs := st.outputs + [NEW_OUTPUT]);
      var s := if resized then ScheduleAt(grown, i) else grown;
      assert grown.outputs[i].surface.None? && OutputOk(grown.outputs[i]) && !grown.outputs[i].pending;
      PopulatedExactly(s, i, b, start);
    }
  }

  /** An output that the application refuses is removed, without ever having had a surface. */
  lemma RefusedIsRemoved(st: State, b: Backend, resized: bool, created: bool, start: Startup, i: nat)
    requires Inv(st) && i <= |st.outputs| && !Holder(st, i) && (forall j: nat :: j < i ==> Holder(st, j))
    requires i < |st.outputs| || created
    ensures
      var r := AddOutput(st, b, resized, false, created, start);
      && (forall j: nat :: Holder(r, j) == Holder(st, j)) && r.focused != Some(i)
      && r.trace == (if st.terminating && !SomeHolder(st) then Then(Then(st.trace, Removed(i)), Terminated)
        else Then(st.trace, Removed(i)))
  {
    FirstSurfaceless(st, 0, i);
    var s := Taken(st, i, resized);
    TakenSame(st, i, resized);
    SurfacelessGoes(s, i);
    assert AddOutput(st, b, resized, false, created, start) == OutputTerminate(s, i);
  }

  /** The output found or made for a new surface, before the application is asked. */
  function Taken(st: State, i: nat, resized: bool): State
    requires i <= |st.outputs|
  {
    var grown := if i < |st.outputs| then st else st.(outputs := st.outputs + [NEW_OUTPUT]);
    if resized then ScheduleAt(grown, i) else grown
  }

  lemma TakenSame(st: State, i: nat, resized: bool)
    requires Inv(st) && i <= |st.outputs| && !Holder(st, i)
    ensures
      var s := Taken(st, i, resized);
      && i < |s.outputs| && s.outputs[i].surface.None? && !s.outputs[i].pending && s.trace == st.trace
      && s.terminating == st.terminating && (SomeHolder(s) <==> SomeHolder(st))
      && forall j: nat :: Holder(s, j) == Holder(st, j)
  {
    var s := Taken(st, i, resized);
    assert i < |st.outputs| ==> OutputOk(st.outputs[i]);
    if j :| 0 <= j < |s.outputs| && Holder(s, j) { assert Holder(st, j); }
    if j :| 0 <= j < |st.outputs| && Holder(st, j) { assert Holder(s, j); }
  }

  lemma SurfacelessGoes(st: State, i: nat)
    requires i < |st.outputs| && st.outputs[i].surface.None? && !st.outputs[i].pending
    ensures
      var r := OutputTerminate(st, i);
      && (forall j: nat :: Holder(r, j) == Holder(st, j)) && r.focused != Some(i)
      && r.trace == (if st.terminating && !SomeHolder(st) then Then(Then(st.trace, Removed(i)), Terminated)
        else Then(st.trace, Removed(i)))
  {
    var a := Refocused(st, i);
    RefocusedEffect(st, i);
    RemovalRefocuses(st, i);
    var l := Log(a, Removed(i));
    assert SetSurface(l, i, None, Fails) == l;
    assert forall j: nat :: Holder(a, j) == Holder(st, j);
    assert AliveFrom(st, i, 0).None? <==> !SomeHolder(st) by {
      if SomeHolder(st) {
        var j :| 0 <= j < |st.outputs| && Holder(st, j);
        assert j != i && AliveFrom(st, i, 0).Some?;
      }
    }
  }

  /** An output the backend has lost goes at once, or when its flight ends. */
  lemma LostIsRemoved(st: State, i: nat)
    requires i < |st.outputs|
    ensures
      var r := Updated(st, [Lost(i)]);
      |r.outputs| == |st.outputs| &&
      if st.outputs[i].pending then
        r.trace == st.trace && r.outputs[i].taskTerminate && r.outputs[i].surface == st.outputs[i].surface
      else !Holder(r, i) && r.focused != Some(i)
  {
    assert [Lost(i)][1..] == [];
    assert Updated(st, [Lost(i)]) == Changed(st, Lost(i));
    if !st.outputs[i].pending {
      RemoveOutputEffect(st, i);
      RemovalRefocuses(st, i);
    }
  }

  lemma PopulatedExactly(st: State, i: nat, b: Backend, start: Startup)
    requires i < |st.outputs| && st.outputs[i].surface.None? && !st.outputs[i].pending
    requires OutputOk(st.outputs[i])
    ensures
      var r := Populated(st, i, b, true, start);
      && |r.outputs| == |st.outputs|
      && r.outputs[i].surface == (if start == Fails then None else Some(b))
      && r.outputs[i].armed && r.outputs[i].scheduled && r.outputs[i].activity
      && r.focused == (if st.focused.None? then Some(i) else st.focused)
      && forall j :: 0 <= j < |st.outputs| && j != i ==> r.outputs[j] == st.outputs[j]
  {
    var a := SetSurface(st, i, Some(b), start);
    SetSurfaceEffect(st, i, Some(b), start);
    SurfaceSetExactly(st, i, Some(b), start);
    ShownExactly(a, i);
  }

  lemma ShownExactly(st: State, i: nat)
    requires i < |st.outputs| && (st.outputs[i].scheduled ==> st.outputs[i].armed)
    ensures
      var r := Shown(st, i);
      && |r.outputs| == |st.outputs| && r.outputs[i].surface == st.outputs[i].surface
      && r.outputs[i].armed && r.outputs[i].scheduled && r.outputs[i].activity
      && r.focused == (if st.focused.None? then Some(i) else st.focused)
      && forall j :: 0 <= j < |st.outputs| && j != i ==> r.outputs[j] == st.outputs[j]
  {
    if st.focused.None? { FocusExactly(st, Some(i)); }
  }

  lemma {:induction false} UpdatedOk(st: State, cs: seq<Change>)
    requires Inv(st)
    ensures Inv(Updated(st, cs))
    decreases |cs|
  {
    if cs != [] {
      match cs[0] {
        case Lost(i) =>
          if i < |st.outputs| {
            OutputTerminateOk(st, i, -1);
            OutputTerminateSettled(st, i);
          }
        case Found(b, resized, accepted, created, start) => AddOutputOk(st, b, resized, accepted, created, start);
      }
      UpdatedOk(Changed(st, cs[0]), cs[1..]);
    }
  }

  lemma ReturnOk(st: State, cs: seq<Change>)
    requires Inv(st)
    ensures Inv(Return(st, cs))
  {
    TtyOk(st, IDLE, 0, Activate);
    var a := Log(st.(tty := IDLE, vt := 0), Activate);
    UpdatedOk(a, cs);
    WakeFromOk(Updated(a, cs), 0);
  }

  lemma FocusInv(st: State, f: Option<nat>)
    requires Inv(st) && (f.Some? ==> f.value < |st.outputs|)
    ensures Inv(Focus(st, f))
  {
    FocusOk(st, f, -1);
    FocusEffect(st, f);
    SettledKept(st, Focus(st, f));
  }

  lemma ScheduleInv(st: State, i: nat)
    requires Inv(st) && i < |st.outputs|
    ensures Inv(ScheduleAt(st, i))
  {
    ScheduleOk(st, i, -1);
    SettledKept(st, ScheduleAt(st, i));
  }

  // --------------------------------------------------------------- all steps

  /**
   What the code needs of its surroundings, each a test on the state before the event.  Only
   add_output sets a surface, and it schedules a repaint with it.
   */
  predicate Allowed(st: State, e: Event) {
    && Possible(st, e)
    && (e.SetBackend? && e.backend.Some? ==> !Late(st.outputs[e.output]))
    && (e.TimerFires? && !e.swapped ==> !Late(st.outputs[e.output]))
    && (e.Terminate? && st.terminating ==> !SomeHolder(st))
  }

  /** Every event keeps the invariant. */
  lemma StepOk(st: State, e: Event)
    requires Inv(st) && Allowed(st, e)
    ensures Inv(Step(st, e))
  {
    match e
    case TimerFires(i, swapped, start) => RepaintOk(st, i, swapped, start);
    case FlipCompletes(i, start) => FinishFrameOk(st, i, start);
    case RequestRepaint(i) => ScheduleInv(st, i);
    case Sleep(i, sleep) => SleepInv(st, i, sleep);
    case SetBackend(i, b, start) =>
      SetSurfaceOk(st, i, b, start, -1);
      SetSurfaceSettled(st, i, b, start);
    case OutputGone(i) =>
      OutputTerminateOk(st, i, -1);
      OutputTerminateSettled(st, i);
    case FocusOutput(f) => FocusInv(st, f);
    case AddedOutput(b, resized, accepted, created, start) => AddOutputOk(st, b, resized, accepted, created, start);
    case SetActive(active, changes) =>
      ActiveOk(st, active);
      if active != st.active {
        if active {
          ReturnOk(st.(active := active), changes);
        } else {
          LeaveOk(st.(active := active), 0);
        }
      }
    case VtKey(vt) => LeaveOk(st, vt);
    case IdleRuns => IdleOk(st);
    case Terminate => TerminateOk(st);
  }

  lemma SleepInv(st: State, i: nat, sleep: bool)
    requires Inv(st) && i < |st.outputs|
    ensures Inv(SetSleep(st, i, sleep))
  {
    SetSleepOk(st, i, sleep, -1);
    SetSleepEffect(st, i, sleep);
    SettledKept(st, SetSleep(st, i, sleep));
  }

  lemma ActiveOk(st: State, active: bool)
    requires Inv(st)
    ensures Inv(st.(active := active))
  {
    var r := st.(active := active);
    forall i: nat
      ensures Holder(r, i) == Holder(st, i)
    {
    }
    SettledKept(st, r);
  }

  lemma IdleOk(st: State)
    requires Inv(st)
    ensures Inv(Log(st.(vt := 0, idle := false), VtActivated(st.vt)))
  {
    var r := Log(st.(vt := 0, idle := false), VtActivated(st.vt));
    forall i: nat
      ensures InFlight(r.trace, i) == InFlight(st.trace, i) && Holds(r.trace, i) == Holds(st.trace, i)
      ensures Holder(r, i) == Holder(st, i)
    {
    }
    SettledKept(st, r);
  }

  const START := State([], None, false, IDLE, 0, false, false, Start)

  ghost predicate AllowedRun(st: State, es: seq<Event>)
    decreases |es|
  {
    es == [] || (Allowed(st, es[0]) && AllowedRun(Step(st, es[0]), es[1..]))
  }

  ghost function Run(st: State, es: seq<Event>): State
    requires AllowedRun(st, es)
    decreases |es|
  {
    if es == [] then st else Run(Step(st, es[0]), es[1..])
  }

  lemma {:induction false} RunOk(st: State, es: seq<Event>)
    requires Inv(st) && AllowedRun(st, es)
    ensures Inv(Run(st, es))
    decreases |es|
  {
    if es != [] {
      StepOk(st, es[0]);
      RunOk(Step(st, es[0]), es[1..]);
    }
  }

  /**
   Safety over every run: each output is scheduled exactly when its timer is armed or its
   frame is in flight, never both, unless it fell asleep without a sleep hook; requests are
   deferred only in flight; and the trace is legal from its first action to its last.
   */
  lemma EveryRunIsSafe(es: seq<Event>)
    requires AllowedRun(START, es)
    ensures
      var st := Run(START, es);
      && Legal(st.trace)
      && (forall i :: 0 <= i < |st.outputs| ==>
        var o := st.outputs[i];
        && ((o.scheduled <==> (o.armed || o.pending)) || Late(o))
        && !(o.armed && o.pending) && (o.activity ==> o.scheduled)
        && (!NoTasks(o) ==> o.pending) && (o.pending ==> Hooked(o) || o.dead)
        && (o.pending <==> InFlight(st.trace, i)) && (o.surface.Some? <==> Holds(st.trace, i)))
      && (st.tty == DEACTIVATING <==> Deactivating(st.trace))
  {
    RunOk(START, es);
    var st := Run(START, es);
    forall i | 0 <= i < |st.outputs|
      ensures (st.outputs[i].pending <==> InFlight(st.trace, i))
      ensures (st.outputs[i].surface.Some? <==> Holds(st.trace, i))
    {
      assert Holds(st.trace, i) == Holder(st, i);
    }
  }
}
