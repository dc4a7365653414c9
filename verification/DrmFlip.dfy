/**
 The two framebuffer slots behind DRM page flips: which scan-out buffers the compositor
 keeps locked, when each is given back, and what failed flips do to the picture.
 */
module DrmFlip {
  import opened Basics

  const NUM_FBS := 2

  /** A locked buffer object with its DRM framebuffer; 0 is NULL. */
  datatype Slot = Slot(bo: nat, fd: nat, stride: nat)

  /**
   The other side of the foreign calls. `shown` is being scanned out, `queued` waits for the
   next completion; `faults` counts misuse: a buffer given back twice or while it is on
   screen or queued, an unknown framebuffer removed, the not-flipping assertion broken.
   */
  datatype Device = Device(locked: set<nat>, fbs: set<nat>, shown: nat, queued: nat, locks: nat, releases: nat,
    faults: nat)

  /** `pending` is the output's own flag that a frame is in flight. */
  datatype State = State(fb: seq<Slot>, index: nat, flipping: bool, stride: nat, pending: bool, dev: Device)

  /** What the foreign calls of one page flip answer; `front` and `fd` are 0 when their call fails. */
  datatype Outcome = Outcome(free: bool, front: nat, fd: nat, stride: nat, crtc: bool, flip: bool)

  predicate Shaped(w: State) {
    |w.fb| == NUM_FBS && w.index < NUM_FBS
  }

  function RmFb(d: Device, fd: nat): Device {
    d.(fbs := d.fbs - {fd}, faults := d.faults + One(fd !in d.fbs))
  }

  function Unlock(d: Device, bo: nat): Device {
    d.(locked := d.locked - {bo}, releases := d.releases + 1,
      faults := d.faults + One(bo !in d.locked || bo == d.shown || bo == d.queued))
  }

  function Fault(d: Device): Device {
    d.(faults := d.faults + 1)
  }

  /** release_fb. */
  function ReleaseFb(w: State, i: nat): State
    requires i < |w.fb|
  {
    var removed := if w.fb[i].fd > 0 then RmFb(w.dev, w.fb[i].fd) else w.dev;
    var unlocked := if w.fb[i].bo != 0 then Unlock(removed, w.fb[i].bo) else removed;
    w.(fb := w.fb[i := w.fb[i].(bo := 0, fd := 0)], dev := unlocked)
  }

  function Lock(d: Device, bo: nat): Device {
    d.(locked := d.locked + {bo}, locks := d.locks + 1)
  }

  predicate Created(o: Outcome) {
    o.free && o.front != 0 && o.fd != 0
  }

  /** create_gbm_fb on slot `i`; it succeeds when `Created(o)`. */
  function CreateFb(w: State, i: nat, o: Outcome): State
    requires i < |w.fb|
  {
    if !o.free then ReleaseFb(w, i)
    else if o.front == 0 then ReleaseFb(w.(fb := w.fb[i := w.fb[i].(bo := 0)]), i)
    else
      var locked := w.(fb := w.fb[i := w.fb[i].(bo := o.front)], dev := Lock(w.dev, o.front));
      if o.fd == 0 then ReleaseFb(locked, i)
      else locked.(fb := locked.fb[i := Slot(o.front, o.fd, o.stride)],
        dev := locked.dev.(fbs := locked.dev.fbs + {o.fd}))
  }

  /** page_flip. */
  function PageFlip(w: State, o: Outcome): State
    requires Shaped(w)
  {
    if w.flipping then w.(dev := Fault(w.dev))
    else
      var made := CreateFb(ReleaseFb(w, w.index), w.index, o);
      if !Created(o) then made
      else if o.stride != w.stride && !o.crtc then ReleaseFb(made, w.index)
      else
        var set_ := if o.stride != w.stride then made.(stride := o.stride, dev := made.dev.(shown := o.front))
          else made;
        if !o.flip then ReleaseFb(set_, w.index)
        else set_.(flipping := true, dev := set_.dev.(queued := o.front))
  }

  /** The output's repaint: it stands back while a frame is in flight, and marks one before it swaps. */
  function Repaint(w: State, o: Outcome): State
    requires Shaped(w)
  {
    if w.pending then w else PageFlip(w.(pending := true), o)
  }

  /** page_flip_handler: the queued buffer is on screen now; the slot before it is given back. */
  function Complete(w: State): State
    requires Shaped(w)
  {
    var next := (w.index + 1) % NUM_FBS;
    var r := ReleaseFb(w.(dev := w.dev.(shown := w.dev.queued, queued := 0)), next);
    r.(index := next, pending := false, flipping := false)
  }

  /** surface_sleep; the output defers it while a frame is in flight. */
  function Sleep(w: State): State {
    if w.pending then w else w.(stride := 0, dev := w.dev.(shown := 0))
  }

  /** The framebuffer part of surface_release. */
  function SurfaceRelease(w: State): State
    requires Shaped(w)
  {
    ReleaseFb(w, w.index)
  }

  /** The slot that is not the current one. */
  function Other(w: State): (s: Slot)
    requires Shaped(w)
  {
    w.fb[1 - w.index]
  }

  /** Nothing was misused; exactly the slots' buffers are locked; what is on screen is one of them. */
  predicate Inv(w: State) {
    && Shaped(w)
    && var s, t := w.fb[w.index], Other(w);
    && w.dev.faults == 0
    && (s.bo == 0 <==> s.fd == 0) && (t.bo == 0 <==> t.fd == 0)
    && (s.bo != 0 ==> s.bo != t.bo && s.fd != t.fd)
    && w.dev.locked == Only(s.bo) + Only(t.bo) && w.dev.fbs == Only(s.fd) + Only(t.fd)
    && w.dev.locks == w.dev.releases + One(s.bo != 0) + One(t.bo != 0)
    && (w.flipping ==> w.pending && s.bo != 0)
    && (!w.flipping ==> s.bo == 0)
    && w.dev.queued == s.bo
    && (w.dev.shown == 0 || w.dev.shown == s.bo || w.dev.shown == t.bo)
  }

  function Only(x: nat): set<nat> {
    if x == 0 then {} else {x}
  }

  /** The foreign side's promise: a buffer handed out is not locked already, a new framebuffer is new. */
  predicate Honest(w: State, o: Outcome) {
    o.front !in w.dev.locked && o.fd !in w.dev.fbs
  }

  /** The mode is set to the new buffer, which shows it, and then the flip to it fails. */
  predicate ShownThenFailed(w: State, o: Outcome) {
    !w.pending && Created(o) && o.stride != w.stride && o.crtc && !o.flip
  }

  predicate Flips(w: State, o: Outcome) {
    Created(o) && (o.stride == w.stride || o.crtc) && o.flip
  }

  /** State `r` is `w` with slot `i` empty, nothing locked or registered anew, and `faults` more faults. */
  predicate GivenBack(w: State, r: State, i: nat, faults: nat)
    requires i < |w.fb|
  {
    && |r.fb| == |w.fb| && r.fb == w.fb[i := Slot(0, 0, r.fb[i].stride)]
    && r.dev.locked == w.dev.locked && r.dev.fbs == w.dev.fbs && r.dev.faults == w.dev.faults + faults
    && r.dev.locks - r.dev.releases == w.dev.locks - w.dev.releases
  }

  lemma CreateFails(w: State, i: nat, o: Outcome)
    requires i < |w.fb| && w.fb[i].bo == 0 && w.fb[i].fd == 0 && !Created(o)
    requires Honest(w, o) && (o.front != 0 ==> o.front != w.dev.shown && o.front != w.dev.queued)
    ensures GivenBack(w, CreateFb(w, i, o), i, 0)
    ensures CreateFb(w, i, o).dev.shown == w.dev.shown && CreateFb(w, i, o).dev.queued == w.dev.queued
  {
    assert w.dev.locked + {o.front} - {o.front} == w.dev.locked;
  }

  /** A framebuffer that cannot be made leaves its slot empty, whatever was in it, and no buffer locked for it. */
  lemma FailedCreateEmpties(w: State, i: nat, o: Outcome)
    requires i < |w.fb| && !Created(o)
    ensures
      var r := CreateFb(w, i, o);
      && r.fb == w.fb[i := Slot(0, 0, w.fb[i].stride)]
      && (!o.free ==> w.fb[i].bo !in r.dev.locked || w.fb[i].bo == 0)
      && (o.free && o.front == 0 ==> r.dev.locked == w.dev.locked && r.dev.releases == w.dev.releases)
      && (o.free && o.front != 0 ==> o.front !in r.dev.locked)
  {
  }

  /** A flip uses the current slot again: what was in it is given back first, even if nothing comes of the flip. */
  lemma FlipGivesBackFirst(w: State, o: Outcome)
    requires Shaped(w) && !w.flipping && w.fb[w.index].bo != 0 && w.fb[w.index].bo != o.front
    ensures w.fb[w.index].bo !in PageFlip(w, o).dev.locked
    ensures PageFlip(w, o).fb[w.index].bo in {0, o.front}
  {
  }

  /** A flip during another one is a fault, and does nothing else. */
  lemma FlipMeetsFlip(w: State, o: Outcome)
    requires Shaped(w) && w.flipping
    ensures PageFlip(w, o) == w.(dev := PageFlip(w, o).dev)
    ensures PageFlip(w, o).dev == w.dev.(faults := w.dev.faults + 1)
  {
  }

  lemma MadeIsUndone(w: State, i: nat, o: Outcome, shown: nat, stride: nat)
    requires i < |w.fb| && Created(o) && Honest(w, o) && o.front != w.dev.queued
    ensures
      var made := CreateFb(w, i, o);
      GivenBack(w, ReleaseFb(made.(stride := stride, dev := made.dev.(shown := shown)), i), i, One(o.front == shown))
  {
    assert w.dev.locked + {o.front} - {o.front} == w.dev.locked;
    assert w.dev.fbs + {o.fd} - {o.fd} == w.dev.fbs;
  }

  /** A flip that fails anywhere gives back what it locked, and only that. */
  lemma RepaintFails(w: State, o: Outcome)
    requires Inv(w) && Honest(w, o) && !w.pending && !Flips(w, o)
    ensures
      var r := Repaint(w, o);
      && GivenBack(w, r, w.index, One(ShownThenFailed(w, o)))
      && r.index == w.index && !r.flipping && r.pending && r.dev.queued == 0
      && r.dev.shown == (if ShownThenFailed(w, o) then o.front else w.dev.shown)
  {
    var v := w.(pending := true);
    var cleared := ReleaseFb(v, w.index);
    assert cleared.dev == w.dev && cleared.fb == w.fb;
    if !Created(o) {
      CreateFails(cleared, w.index, o);
    } else {
      MadeIsUndone(cleared, w.index, o, w.dev.shown, w.stride);
      MadeIsUndone(cleared, w.index, o, o.front, o.stride);
      var made := CreateFb(cleared, w.index, o);
      assert made.(stride := w.stride, dev := made.dev.(shown := w.dev.shown)) == made;
    }
  }

  lemma RepaintQueues(w: State, o: Outcome)
    requires Inv(w) && Honest(w, o) && !w.pending && Flips(w, o)
    ensures
      var r := Repaint(w, o);
      && Shaped(r) && r.index == w.index && r.flipping && r.pending && Other(r) == Other(w) && r.stride == o.stride
      && r.fb[r.index] == Slot(o.front, o.fd, o.stride)
      && r.dev.locked == w.dev.locked + {o.front} && r.dev.fbs == w.dev.fbs + {o.fd} && r.dev.queued == o.front
      && r.dev.shown == (if o.stride != w.stride then o.front else w.dev.shown)
      && r.dev.faults == 0
      && r.dev.locks == w.dev.locks + 1 && r.dev.releases == w.dev.releases
  {
    var v := w.(pending := true);
    var cleared := ReleaseFb(v, w.index);
    assert cleared.dev == w.dev && cleared.fb[w.index] == w.fb[w.index] && Other(cleared) == Other(w);
  }

  /** A repaint keeps the invariant in every case but one, where the buffer on screen is given back. */
  lemma RepaintKeepsExactly(w: State, o: Outcome)
    requires Inv(w) && Honest(w, o)
    ensures Inv(Repaint(w, o)) <==> !ShownThenFailed(w, o)
    ensures ShownThenFailed(w, o) ==> Repaint(w, o).dev.shown == o.front && o.front !in Repaint(w, o).dev.locked
  {
    if !w.pending {
      if Flips(w, o) { RepaintQueues(w, o); } else { RepaintFails(w, o); }
    }
  }

  /** The state of a new surface. */
  const FRESH := State([Slot(0, 0, 0), Slot(0, 0, 0)], 0, false, 0, false, Device({}, {}, 0, 0, 0, 0, 0))

  /** The very first frame: the mode is set to buffer 7, which is on screen from then on, and the flip to it fails. */
  lemma FirstFlipFails()
    ensures
      var r := Repaint(FRESH, Outcome(true, 7, 3, 256, true, false));
      Inv(FRESH) && r.dev.shown == 7 && r.dev.locked == {} && r.dev.fbs == {} && r.dev.faults == 1
  {
    var o := Outcome(true, 7, 3, 256, true, false);
    RepaintFails(FRESH, o);
    RepaintKeepsExactly(FRESH, o);
  }

  lemma CompleteKeeps(w: State)
    requires Inv(w) && w.flipping
    ensures Inv(Complete(w))
  {
  }

  /** A flip that succeeds and completes leaves the new buffer on screen and every other buffer given back. */
  lemma FlipReplaces(w: State, o: Outcome)
    requires Inv(w) && !w.pending && Honest(w, o) && Flips(w, o)
    ensures
      var r := Complete(Repaint(w, o));
      && r.dev.shown == o.front && r.dev.locked == {o.front} && r.dev.fbs == {o.fd}
      && r.index == 1 - w.index && !r.pending && r.stride == o.stride
  {
    RepaintQueues(w, o);
  }

  /** After a sleep the next frame that succeeds sets the mode again: it is on screen before its flip completes. */
  lemma WakingSetsTheMode(w: State, o: Outcome)
    requires Inv(w) && !w.pending && Honest(w, o) && o.stride > 0
    ensures Sleep(w).dev.shown == 0
    ensures Flips(Sleep(w), o) <==> Created(o) && o.crtc && o.flip
    ensures Flips(Sleep(w), o) ==> Repaint(Sleep(w), o).dev.shown == o.front
  {
    if Flips(Sleep(w), o) { RepaintQueues(Sleep(w), o); }
  }

  datatype Event = Paint(o: Outcome) | Vblank | Asleep

  /** A completion arrives only for a queued flip. */
  function Step(w: State, e: Event): State
    requires Shaped(w)
  {
    match e
    case Paint(o) => Repaint(w, o)
    case Vblank => if w.dev.queued != 0 then Complete(w) else w
    case Asleep => Sleep(w)
  }

  function Run(w: State, es: seq<Event>): State
    requires Shaped(w)
    decreases |es|
  {
    if es == [] then w else Run(Step(w, es[0]), es[1..])
  }

  /** The foreign calls keep their promise throughout, and no mode set is followed by a failed flip. */
  predicate Kind(w: State, es: seq<Event>)
    requires Shaped(w)
    decreases |es|
  {
    es != [] ==>
      (es[0].Paint? ==> Honest(w, es[0].o) && !ShownThenFailed(w, es[0].o)) && Kind(Step(w, es[0]), es[1..])
  }

  /**
   Over every run what is on screen is locked, two buffers at most are, every lock is given
   back once unless a slot still holds it, and a flip never meets another one.
   */
  lemma {:induction false} RotationIsSafe(w: State, es: seq<Event>)
    requires Inv(w) && Kind(w, es)
    ensures
      var r := Run(w, es);
      && Inv(r) && r.dev.faults == 0
      && (r.dev.shown != 0 ==> r.dev.shown in r.dev.locked)
      && (r.dev.queued != 0 ==> r.dev.queued in r.dev.locked)
      && r.dev.releases <= r.dev.locks <= r.dev.releases + 2
    decreases |es|
  {
    if es != [] {
      if es[0].Paint? {
        RepaintKeepsExactly(w, es[0].o);
      } else if es[0].Vblank? && w.dev.queued != 0 {
        CompleteKeeps(w);
      }
      RotationIsSafe(Step(w, es[0]), es[1..]);
    }
  }

  /** The first failed flip leaves the output waiting for a completion that never comes: nothing changes any more. */
  lemma FailedFlipFreezes(w: State, o: Outcome, es: seq<Event>)
    requires Inv(w) && !w.pending && Honest(w, o)
    ensures !Repaint(w, o).flipping <==> !Flips(w, o)
    ensures !Flips(w, o) ==> Run(Repaint(w, o), es) == Repaint(w, o)
  {
    if Flips(w, o) { RepaintQueues(w, o); } else {
      RepaintFails(w, o);
      Frozen(Repaint(w, o), es);
    }
  }

  lemma {:induction false} Frozen(w: State, es: seq<Event>)
    requires Shaped(w) && w.pending && w.dev.queued == 0
    ensures Run(w, es) == w
    decreases |es|
  {
    if es != [] {
      assert Step(w, es[0]) == w;
      Frozen(w, es[1..]);
    }
  }

  /**
   Releasing the surface between frames empties the slot that is empty already; the shown one
   keeps its framebuffer.
   */
  lemma SurfaceReleaseLeavesShown(w: State)
    requires Inv(w) && !w.flipping
    ensures SurfaceRelease(w).dev == w.dev
    ensures SurfaceRelease(w).dev.fbs == {} <==> Other(w).bo == 0
  {
  }

  /** Released during a flight, it gives back the buffer that is queued. */
  lemma ReleaseInFlight(w: State)
    requires Inv(w) && w.flipping
    ensures
      var r := SurfaceRelease(w);
      r.dev.queued == w.fb[w.index].bo != 0 && r.dev.queued !in r.dev.locked && r.dev.faults == 1
  {
  }

  lemma RunsOn(w: State, e: Event, es: seq<Event>)
    requires Shaped(w)
    ensures Run(w, [e] + es) == Run(Step(w, e), es)
  {
    assert ([e] + es)[1..] == es;
  }

  /** A good frame and its completion, at the front of a run: the new buffer alone is locked, and on screen. */
  lemma FramesGoOn(w: State, o: Outcome, es: seq<Event>)
    requires Inv(w) && !w.pending && Honest(w, o) && Flips(w, o)
    ensures
      exists r :: Inv(r) && !r.pending && r.dev.shown == o.front && r.dev.locked == {o.front} && r.dev.fbs == {o.fd}
        && Run(w, [Paint(o)] + ([Vblank] + es)) == Run(r, es)
  {
    var r := Complete(Repaint(w, o));
    FlipReplaces(w, o);
    RepaintQueues(w, o);
    RepaintKeepsExactly(w, o);
    CompleteKeeps(Repaint(w, o));
    RunsOn(w, Paint(o), [Vblank] + es);
    RunsOn(Repaint(w, o), Vblank, es);
  }

  /** Asleep in between frames the screen is dark, and a stray completion changes nothing. */
  lemma AsleepIsDark(w: State)
    requires Inv(w) && !w.pending
    ensures
      var r := Run(w, [Asleep] + [Vblank]);
      r.dev.shown == 0 && r.stride == 0 && r.fb == w.fb && r.dev.locked == w.dev.locked && r.dev.faults == 0
  {
    assert [Vblank] + [] == [Vblank];
    RunsOn(w, Asleep, [Vblank]);
    RunsOn(Step(w, Asleep), Vblank, []);
  }

  /** After one good frame the surface is released: framebuffer 3 stays registered, and buffer 7 stays locked. */
  lemma ReleaseAfterFirstFrame()
    ensures
      var shown := Complete(Repaint(FRESH, Outcome(true, 7, 3, 256, true, true)));
      var r := SurfaceRelease(shown);
      shown.dev.shown == 7 && r.dev.shown == 7 && r.dev.fbs == {3} && r.dev.locked == {7}
  {
    var o := Outcome(true, 7, 3, 256, true, true);
    RepaintQueues(FRESH, o);
    RepaintKeepsExactly(FRESH, o);
    CompleteKeeps(Repaint(FRESH, o));
    FlipReplaces(FRESH, o);
    SurfaceReleaseLeavesShown(Complete(Repaint(FRESH, o)));
  }

  /** One output's DRM surface. */
  class DrmSurface {
    const fb: array<Slot>
    var index: nat
    var flipping: bool
    var stride: nat
    var pending: bool
    var dev: Device

    constructor ()
      ensures Snapshot() == FRESH && Inv(Snapshot()) && fresh(fb)
    {
      fb := new Slot[NUM_FBS](_ => Slot(0, 0, 0));
      index, flipping, stride, pending := 0, false, 0, false;
      dev := Device({}, {}, 0, 0, 0, 0, 0);
    }

    function Snapshot(): State
      reads this, fb
    {
      State(fb[..], index, flipping, stride, pending, dev)
    }

    method ReleaseSlot(i: nat)
      requires i < fb.Length
      modifies `dev, fb
      ensures Snapshot() == ReleaseFb(old(Snapshot()), i)
    {
      if fb[i].fd > 0 { dev := RmFb(dev, fb[i].fd); }
      if fb[i].bo != 0 { dev := Unlock(dev, fb[i].bo); }
      fb[i] := fb[i].(bo := 0);
      fb[i] := fb[i].(fd := 0);
      assert fb[..] == old(fb[..])[i := old(fb[i]).(bo := 0, fd := 0)];
    }

    method CreateGbmFb(i: nat, o: Outcome) returns (ok: bool)
      requires i < fb.Length
      modifies `dev, fb
      ensures Snapshot() == CreateFb(old(Snapshot()), i, o) && ok == Created(o)
    {
      if !o.free {
        ReleaseSlot(i);
        return false;
      }
      fb[i] := fb[i].(bo := o.front);
      assert fb[..] == old(fb[..])[i := old(fb[i]).(bo := o.front)];
      if o.front == 0 {
        ReleaseSlot(i);
        return false;
      }
      dev := Lock(dev, o.front);
      if o.fd == 0 {
        ReleaseSlot(i);
        return false;
      }
      dev := dev.(fbs := dev.fbs + {o.fd});
      fb[i] := fb[i].(fd := o.fd);
      fb[i] := fb[i].(stride := o.stride);
      assert fb[..] == old(fb[..])[i := Slot(o.front, o.fd, o.stride)];
      return true;
    }

    method Flip(o: Outcome) returns (ok: bool)
      requires Shaped(Snapshot())
      modifies `dev, `stride, `flipping, fb
      ensures Snapshot() == PageFlip(old(Snapshot()), o)
      ensures ok == (!old(flipping) && Flips(old(Snapshot()), o))
      ensures old(flipping) ==> fb[..] == old(fb[..]) && dev.faults == old(dev.faults) + 1
    {
      if flipping {
        dev := Fault(dev);
        return false;
      }
      ReleaseSlot(index);
      var created := CreateGbmFb(index, o);
      if !created { return false; }
      if fb[index].stride != stride {
        if !o.crtc {
          ReleaseSlot(index);
          return false;
        }
        dev := dev.(shown := fb[index].bo);
        stride := fb[index].stride;
      }
      if !o.flip {
        ReleaseSlot(index);
        return false;
      }
      dev := dev.(queued := fb[index].bo);
      flipping := true;
      return true;
    }

    method PageFlipHandler()
      requires Shaped(Snapshot())
      modifies this, fb
      ensures Snapshot() == Complete(old(Snapshot()))
    {
      dev := dev.(shown := dev.queued, queued := 0);
      var next := (index + 1) % NUM_FBS;
      ReleaseSlot(next);
      index := next;
      pending := false;
      flipping := false;
    }
  }
}
