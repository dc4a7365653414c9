/** Short runs from the start of a compositor that end where one would not expect. */
module FrameLoopRuns {
  import opened Basics
  import opened FrameLoop
  import opened FrameLoopDead
  import opened FrameLoopInvariant
  import opened FrameLoopProgress
  import opened FrameLoopSafety

  const X11 := Backend(1, false)
  const DRM := Backend(1, true)

  /** The compositor is activated before its main loop begins, and finds an output then. */
  function Launch(b: Backend): Event {
    SetActive(true, [Found(b, false, true, true, Comes(false))])
  }

  function Launched(b: Backend): State {
    State([First(b)], Some(0), true, IDLE, 0, false, false, Then(Then(Start, Activate), Surface(0, true)))
  }

  /** The first output of a compositor, with its surface. */
  function First(b: Backend): Output {
    Schedule(NEW_OUTPUT.(surface := Some(b)))
  }

  lemma FirstOutput(st: State, b: Backend)
    requires st.outputs == [] && st.focused.None? && st.tty == IDLE
    ensures AddOutput(st, b, false, true, true, Comes(false))
         == st.(outputs := [First(b)], focused := Some(0), trace := Then(st.trace, Surface(0, true)))
  {
    var o := NEW_OUTPUT.(surface := Some(b));
    var grown := st.(outputs := [NEW_OUTPUT]);
    assert SetSurface(grown, 0, Some(b), Comes(false))
      == st.(outputs := [o], trace := Then(st.trace, Surface(0, true)));
    assert Schedule(Schedule(o)) == Schedule(o);
  }

  /** One more event at the front of a run. */
  lemma RunsOn(st: State, e: Event, es: seq<Event>)
    requires Allowed(st, e) && AllowedRun(Step(st, e), es)
    ensures AllowedRun(st, [e] + es) && Run(st, [e] + es) == Run(Step(st, e), es)
  {
    assert ([e] + es)[1..] == es;
  }

  lemma RunsOnce(st: State, e: Event)
    requires Allowed(st, e)
    ensures AllowedRun(st, [e]) && Run(st, [e]) == Step(st, e)
  {
    assert [e] + [] == [e];
    RunsOn(st, e, []);
  }

  lemma Launches(b: Backend, es: seq<Event>)
    requires AllowedRun(Launched(b), es)
    ensures AllowedRun(START, [Launch(b)] + es) && Run(START, [Launch(b)] + es) == Run(Launched(b), es)
  {
    var a := ActivateTty(START.(active := true, tty := ACTIVATING));
    assert a == START.(active := true, trace := Then(Start, Activate));
    FirstOutput(a, b);
    var cs := [Found(b, false, true, true, Comes(false))];
    assert cs[1..] == [];
    assert Updated(a, cs) == Changed(a, cs[0]);
    assert WakeFrom(Launched(b), 0) == WakeFrom(Launched(b), 1);
    RunsOn(START, Launch(b), es);
  }

  /** An output of the X11 backend that is put to sleep before its first frame keeps its timer. */
  lemma HooklessSleepIsLate()
    ensures
      var es := [Launch(X11)] + [Sleep(0, true)];
      AllowedRun(START, es) && |Run(START, es).outputs| == 1 && Late(Run(START, es).outputs[0])
  {
    RunsOnce(Launched(X11), Sleep(0, true));
    Launches(X11, [Sleep(0, true)]);
  }

  /** When its first frame fails after that, a frame is in flight unscheduled, and the timer can be armed during it. */
  lemma LateSwapFails()
    ensures
      var late := Run(START, [Launch(X11)] + [Sleep(0, true)]);
      && |late.outputs| == 1 && Possible(late, TimerFires(0, false, Fails))
      && var r := Step(late, TimerFires(0, false, Fails));
      && |r.outputs| == 1 && r.outputs[0].pending && !r.outputs[0].scheduled
      && var again := Step(r, RequestRepaint(0)).outputs[0]; again.pending && again.armed
  {
    var late := Step(Launched(X11), Sleep(0, true));
    RunsOnce(Launched(X11), Sleep(0, true));
    Launches(X11, [Sleep(0, true)]);
    assert late.outputs == [Asleep(First(X11))];
    assert Repaint(late, 0, false, Fails) == Lapsed(late, 0);
  }

  const ADD_DRM := AddedOutput(DRM, false, true, true, Comes(false))

  /** The terminal is left before the first frame of the only output, so that its switch is due at once. */
  const LEFT := State(
    [Cancel(NEW_OUTPUT)], Some(0), true, IDLE, 2, true, false,
    Then(Then(Then(Launched(DRM).trace, Deactivate), Surface(0, false)), SwitchRequested(2)))

  /** After that, an output appears before the switch. */
  const BACK := LEFT.(outputs := [First(DRM)], trace := Then(LEFT.trace, Surface(0, true)))

  lemma LeavesAndComesBack(es: seq<Event>)
    requires AllowedRun(BACK, es)
    ensures
      var run := [Launch(DRM)] + ([VtKey(2)] + ([ADD_DRM] + es));
      AllowedRun(START, run) && Run(START, run) == Run(BACK, es)
  {
    var a := Log(Launched(DRM).(tty := DEACTIVATING, vt := 2), Deactivate);
    var b := Log(Put(a, 0, Cancel(NEW_OUTPUT)), Surface(0, false));
    assert Resurfaced(First(DRM), None, false) == Cancel(NEW_OUTPUT);
    assert !SomeHolder(b);
    assert SetSurface(a, 0, None, Fails) == RespondTty(b) == LEFT;
    assert RemoveFrom(a, 0) == RemoveFrom(LEFT, 1) == LEFT;
    assert Step(Launched(DRM), VtKey(2)) == LEFT;
    ComesBack();
    RunsOn(LEFT, ADD_DRM, es);
    RunsOn(Launched(DRM), VtKey(2), [ADD_DRM] + es);
    Launches(DRM, [VtKey(2)] + ([ADD_DRM] + es));
  }

  lemma ComesBack()
    ensures Step(LEFT, ADD_DRM) == BACK
  {
    var o := Cancel(NEW_OUTPUT).(surface := Some(DRM));
    assert Surfaceless(LEFT, 0) == 0;
    assert SetSurface(LEFT, 0, Some(DRM), Comes(false)) == Log(Put(LEFT, 0, o), Surface(0, true));
    assert Schedule(o) == First(DRM);
    assert Put(LEFT, 0, o).outputs[0 := First(DRM)] == [First(DRM)];
  }

  /** An output appears between the request to switch and the switch, which is carried out with a surface held. */
  lemma SwitchWithSurface()
    ensures
      var es := [Launch(DRM)] + ([VtKey(2)] + ([ADD_DRM] + [IdleRuns]));
      && AllowedRun(START, es)
      && var t := Run(START, es).trace; t.Then? && t.last == VtActivated(2) && Holds(t.past, 0)
  {
    var r := Step(BACK, IdleRuns);
    assert Holds(BACK.trace, 0);
    assert BACK.vt == 2 && r.trace == Then(BACK.trace, VtActivated(2));
    RunsOnce(BACK, IdleRuns);
    LeavesAndComesBack([IdleRuns]);
  }

  /** The only output of a compositor is removed between frames. */
  lemma LosesIt(st: State)
    requires |st.outputs| == 1 && !st.outputs[0].pending && st.outputs[0].surface.Some?
    requires st.focused == Some(0) && st.tty == IDLE && !st.terminating
    ensures
      var o := Cancel(st.outputs[0].(surface := None));
      OutputTerminate(st, 0)
        == st.(outputs := [o], focused := None, trace := Then(Then(st.trace, Removed(0)), Surface(0, false)))
  {
    var a := Refocused(st, 0);
    assert a == st.(focused := None);
    var b := Log(a, Removed(0));
    assert Put(b, 0, Cancel(st.outputs[0].(surface := None))).outputs == [Cancel(st.outputs[0].(surface := None))];
  }

  /** The same with the output removed again in time: a surface was given, but none is held. */
  lemma SwitchAfterLoss()
    ensures
      var es := [Launch(DRM)] + ([VtKey(2)] + ([ADD_DRM] + ([OutputGone(0)] + [IdleRuns])));
      && AllowedRun(START, es)
      && var t := Run(START, es).trace; t.Then? && t.last == VtActivated(2) && !NoneGiven(t.past) && NoneHeld(t.past)
  {
    var b := Step(BACK, OutputGone(0));
    assert b.idle && b.vt == 2 && b.trace == GONE by { LosesIt(BACK); }
    assert Step(b, IdleRuns).trace == Then(GONE, VtActivated(2));
    OnlyTheFirst();
    RunsOnce(b, IdleRuns);
    RunsOn(BACK, OutputGone(0), [IdleRuns]);
    LeavesAndComesBack([OutputGone(0)] + [IdleRuns]);
  }

  const GONE := Then(Then(BACK.trace, Removed(0)), Surface(0, false))

  lemma OnlyTheFirst()
    ensures NoneHeld(GONE) && !NoneGiven(GONE)
  {
    var t := Launched(DRM).trace;
    var u := Then(Then(Then(t, Deactivate), Surface(0, false)), SwitchRequested(2));
    var v := Then(Then(u, Surface(0, true)), Removed(0));
    assert v == Then(BACK.trace, Removed(0));
    forall i: nat ensures !Holds(Then(v, Surface(0, false)), i) {
      if i != 0 {
        assert !Holds(Start, i) && !Holds(Then(Start, Activate), i) && !Holds(t, i);
        assert !Holds(Then(t, Deactivate), i) && !Holds(u, i) && !Holds(Then(u, Surface(0, true)), i) && !Holds(v, i);
      }
    }
  }

  /** An output of the DRM backend draws its first frame. */
  const DRAW := [Launch(DRM)] + [TimerFires(0, true, Fails)]

  const DRAWN := Launched(DRM).(
    outputs := [First(DRM).(armed := false, pending := true)], trace := Then(Launched(DRM).trace, Swap(0)))

  lemma Draws(es: seq<Event>)
    requires AllowedRun(DRAWN, es)
    ensures AllowedRun(START, DRAW + es) && Run(START, DRAW + es) == Run(DRAWN, es)
  {
    assert Step(Launched(DRM), TimerFires(0, true, Fails)) == DRAWN;
    RunsOn(Launched(DRM), TimerFires(0, true, Fails), es);
    Launches(DRM, [TimerFires(0, true, Fails)] + es);
    assert [Launch(DRM)] + ([TimerFires(0, true, Fails)] + es) == DRAW + es;
  }

  lemma DrawnOk()
    ensures Inv(DRAWN) && DRAWN.outputs[0].pending
  {
    Draws([]);
    RunOk(START, DRAW + []);
  }

  /** Asked to sleep and then to wake up, both in one flight, an output is asleep when the flight ends. */
  lemma WakeInFlightIsLost()
    ensures
      var es := DRAW + ([Sleep(0, true)] + ([Sleep(0, false)] + [FlipCompletes(0, Fails)]));
      AllowedRun(START, es) && |Run(START, es).outputs| == 1 && Run(START, es).outputs[0].sleeping
  {
    var st := Step(DRAWN, Sleep(0, true));
    assert Step(st, Sleep(0, false)) == st;
    RunsOnce(st, FlipCompletes(0, Fails));
    RunsOn(st, Sleep(0, false), [FlipCompletes(0, Fails)]);
    RunsOn(DRAWN, Sleep(0, true), [Sleep(0, false)] + [FlipCompletes(0, Fails)]);
    Draws([Sleep(0, true)] + ([Sleep(0, false)] + [FlipCompletes(0, Fails)]));
    FinishFrameSleep(st, 0, Fails);
  }

  lemma TwiceInFlight(st: State)
    requires Inv(st) && !st.terminating && |st.outputs| > 0 && st.outputs[0].pending
    ensures
      var r := Step(st, Terminate);
      Allowed(st, Terminate) && r.terminating && SomeHolder(r) && !Legal(Step(r, Terminate).trace)
  {
    TerminateHolds(st);
    SecondTerminateExactly(st);
  }

  /** Asked to terminate during the first frame, and then once more: the end is announced with a surface held. */
  lemma TerminateTwice()
    ensures
      var es := DRAW + [Terminate];
      && AllowedRun(START, es)
      && var st := Run(START, es); st.terminating && SomeHolder(st) && !Legal(Step(st, Terminate).trace)
  {
    DrawnOk();
    TwiceInFlight(DRAWN);
    RunsOnce(DRAWN, Terminate);
    Draws([Terminate]);
  }

  /** Leaving the terminal while the only output is in flight leaves a removal behind. */
  lemma LeavesInFlight(st: State, vt: int)
    requires |st.outputs| == 1 && st.outputs[0].pending && st.outputs[0].surface.Some?
    ensures Leave(st, vt) == State([st.outputs[0].(taskSurface := Remove)], st.focused, st.active, DEACTIVATING, vt,
      st.idle, st.terminating, Then(st.trace, Deactivate))
  {
    var a := Log(st.(tty := DEACTIVATING, vt := vt), Deactivate);
    var b := SetSurface(a, 0, None, Fails);
    assert b.outputs == [st.outputs[0].(taskSurface := Remove)];
    assert Holder(b, 0);
    assert RemoveFrom(a, 0) == RemoveFrom(b, 1) == b;
  }

  /** The first frame could not be swapped, and the terminal is left. */
  const WAITING := Launched(X11).(
    outputs := [First(X11).(armed := false, pending := true, dead := true, taskSurface := Remove)],
    tty := DEACTIVATING, vt := 2, trace := Then(Then(Launched(X11).trace, Swap(0)), Deactivate))

  lemma Waiting(es: seq<Event>)
    requires AllowedRun(WAITING, es)
    ensures
      var run := [Launch(X11)] + ([TimerFires(0, false, Fails)] + ([VtKey(2)] + es));
      AllowedRun(START, run) && Run(START, run) == Run(WAITING, es)
  {
    var a := Step(Launched(X11), TimerFires(0, false, Fails));
    LeavesInFlight(a, 2);
    assert Step(a, VtKey(2)) == WAITING;
    RunsOn(a, VtKey(2), es);
    RunsOn(Launched(X11), TimerFires(0, false, Fails), [VtKey(2)] + es);
    Launches(X11, [TimerFires(0, false, Fails)] + ([VtKey(2)] + es));
  }

  /** It is never given up then, unless it comes back first. */
  lemma DeadFlightWaits(es: seq<Event>)
    requires AllowedRun(WAITING, es) && forall e :: e in es ==> !Returns(e)
    ensures
      var run := [Launch(X11)] + ([TimerFires(0, false, Fails)] + ([VtKey(2)] + es));
      AllowedRun(START, run) && Run(START, run).tty == DEACTIVATING
  {
    Waiting(es);
    assert Inv(WAITING) by {
      Waiting([]);
      RunOk(START, [Launch(X11)] + ([TimerFires(0, false, Fails)] + ([VtKey(2)] + [])));
    }
    DeadFlightHolds(WAITING, es, 0);
  }

  /** The terminal is lost and comes back within one frame: the active compositor has nothing to draw on then. */
  lemma ReturnWithoutSurface()
    ensures
      var es := DRAW + ([SetActive(false, [])] + ([SetActive(true, [])] + [FlipCompletes(0, Fails)]));
      && AllowedRun(START, es)
      && var r := Run(START, es); r.active && r.tty == IDLE && !SomeHolder(r)
  {
    var a := Step(DRAWN, SetActive(false, []));
    LeavesInFlight(DRAWN.(active := false), 0);
    ReturnsInFlight(a.(active := true));
    var b := Step(a, SetActive(true, []));
    LosesAtEnd(b);
    RunsOnce(b, FlipCompletes(0, Fails));
    RunsOn(a, SetActive(true, []), [FlipCompletes(0, Fails)]);
    RunsOn(DRAWN, SetActive(false, []), [SetActive(true, [])] + [FlipCompletes(0, Fails)]);
    Draws([SetActive(false, [])] + ([SetActive(true, [])] + [FlipCompletes(0, Fails)]));
  }

  lemma ReturnsInFlight(st: State)
    requires |st.outputs| == 1 && !st.outputs[0].sleeping
    ensures Return(st, []) == st.(tty := IDLE, vt := 0, trace := Then(st.trace, Activate))
  {
    var a := ActivateTty(st.(tty := ACTIVATING, vt := 0));
    assert a == st.(tty := IDLE, vt := 0, trace := Then(st.trace, Activate));
    assert Updated(a, []) == a;
    assert SetSleep(a, 0, false) == a;
    assert WakeFrom(a, 0) == WakeFrom(a, 1) == a;
  }

  lemma LosesAtEnd(st: State)
    requires |st.outputs| == 1 && st.outputs[0].pending && st.outputs[0].surface.Some? && st.tty == IDLE
    requires st.outputs[0].taskSurface == Remove && !st.outputs[0].taskSleep && !st.outputs[0].taskTerminate
    ensures
      var r := FinishFrame(st, 0, Fails);
      !SomeHolder(r) && r.active == st.active && r.tty == IDLE
  {
    TasksRemove(Landed(st, 0), 0, Fails);
    FinishSurfaceKeeps(Landed(st, 0), 0);
  }

  lemma FinishSurfaceKeeps(st: State, i: nat)
    requires i < |st.outputs| && !st.outputs[i].pending && st.tty == IDLE
    requires !st.outputs[i].taskSleep && !st.outputs[i].taskTerminate
    ensures
      var r := FinishTasks(st, i, Fails);
      |r.outputs| == |st.outputs| && r.active == st.active && r.tty == IDLE
  {
    var a := FinishSurface(st, i, Fails);
    FinishSurfaceCarries(st, i, Fails);
    assert FinishSleep(a, i) == a && FinishTerminate(a, i) == a;
  }
}
