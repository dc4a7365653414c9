/**
 Reference counts of client buffers: a buffer counts the surface states that name it, is
 released (with an event to the client) when the last of them lets go, and the states
 forget it when the client destroys it first.
 */
module Buffers {
  import opened Basics

  /** A resource number; 0 is NULL. */
  type Id = nat

  /** `resource` is cleared once the client has destroyed the wl_buffer. */
  datatype Buffer = Buffer(surface: Id, references: nat, resource: bool)

  datatype Surface = Surface(pending: Id, commit: Id, attached: bool)

  /** `released` lists the buffers a release event was sent for. */
  datatype World = World(buffers: map<Id, Buffer>, surfaces: map<Id, Surface>, released: seq<Id>)

  datatype Slot = Pending | Committed

  const UINT16 := 0x1_0000

  function Named(w: World, s: Id, slot: Slot): Id
    requires s in w.surfaces
  {
    if slot == Pending then w.surfaces[s].pending else w.surfaces[s].commit
  }

  function WithName(w: World, s: Id, slot: Slot, b: Id): World
    requires s in w.surfaces
  {
    w.(surfaces := w.surfaces[s := if slot == Pending then w.surfaces[s].(pending := b)
      else w.surfaces[s].(commit := b)])
  }

  /** wlc_resource_release with wlc_buffer_release as destructor. */
  function Release(w: World, b: Id): World {
    if b !in w.buffers then w
    else
      var s := w.buffers[b].surface;
      var forgotten := if s in w.surfaces then
          w.surfaces[s := w.surfaces[s].(
            commit := if w.surfaces[s].commit == b then 0 else w.surfaces[s].commit,
            pending := if w.surfaces[s].pending == b then 0 else w.surfaces[s].pending)]
        else w.surfaces;
      World(w.buffers - {b}, forgotten, if w.buffers[b].resource then w.released + [b] else w.released)
  }

  /** wlc_buffer_dispose. */
  function Dispose(w: World, b: Id): World {
    if b !in w.buffers then w
    else
      var n := w.buffers[b].references;
      if n > 1 then w.(buffers := w.buffers[b := w.buffers[b].(references := n - 1)])
      else Release(w, b)
  }

  /** wlc_buffer_use; the counter is a uint16_t. */
  function Use(w: World, b: Id): World {
    if b !in w.buffers then w
    else w.(buffers := w.buffers[b := w.buffers[b].(references := (w.buffers[b].references + 1) % UINT16)])
  }

  /** state_set_buffer; a number that does not resolve counts as NULL. */
  function SetBuffer(w: World, s: Id, slot: Slot, b: Id): World
    requires s in w.surfaces
  {
    var target := if b in w.buffers then b else 0;
    if Named(w, s, slot) == target then w
    else
      var w' := Dispose(w, Named(w, s, slot));
      WithName(Use(w', target), s, slot, target)
  }

  /** The buffer as the attach request finds or makes it, moved to surface `s`. */
  function Moved(w: World, s: Id, b: Id): World {
    w.(buffers := w.buffers[b := (if b in w.buffers then w.buffers[b] else Buffer(0, 0, true)).(surface := s)])
  }

  function Flag(w: World, s: Id, attached: bool): World
    requires s in w.surfaces
  {
    w.(surfaces := w.surfaces[s := w.surfaces[s].(attached := attached)])
  }

  /** wl_cb_surface_attach; attaching NULL sets the flag but leaves the pending buffer. */
  function Attach(w: World, s: Id, b: Id): World
    requires s in w.surfaces
  {
    Flag(if b == 0 then w else SetBuffer(Moved(w, s, b), s, Pending, b), s, true)
  }

  /** The request as it comes: for a new buffer a resource has to be `made`, or nothing happens. */
  function AttachRequest(w: World, s: Id, b: Id, made: bool): World
    requires s in w.surfaces
  {
    if b != 0 && b !in w.buffers && !made then w else Attach(w, s, b)
  }

  /** The end of commit_state: the pending buffer becomes the committed one. */
  function Commit(w: World, s: Id): World
    requires s in w.surfaces
  {
    var w' := Flag(w, s, false);
    SetBuffer(SetBuffer(w', s, Committed, w'.surfaces[s].pending), s, Pending, 0)
  }

  /** wl_destructor for a wl_buffer: the resource is gone before the buffer is released. */
  function ClientDestroy(w: World, b: Id): World {
    if b !in w.buffers then w else Release(w.(buffers := w.buffers[b := w.buffers[b].(resource := false)]), b)
  }

  /** The buffer part of wlc_surface_release: both states let go, the committed one first. */
  function SurfaceDestroy(w: World, s: Id): World
    requires s in w.surfaces
  {
    var r := SetBuffer(SetBuffer(w, s, Committed, 0), s, Pending, 0);
    r.(surfaces := r.surfaces - {s})
  }

  /** wlc_surface: a new surface names no buffer. */
  function SurfaceCreate(w: World, s: Id): World {
    w.(surfaces := w.surfaces[s := Surface(0, 0, false)])
  }

  /** How many of the states of surface `s` name buffer `b`. */
  function NamesBy(surfaces: map<Id, Surface>, s: Id, b: Id): nat {
    if s in surfaces then One(surfaces[s].pending == b) + One(surfaces[s].commit == b) else 0
  }

  /** A state names nothing, or a live buffer of its own surface. */
  predicate NameOk(w: World, s: Id, b: Id) {
    b == 0 || (b in w.buffers && w.buffers[b].surface == s)
  }

  /** A live buffer counts its names, and has one unless it is the new buffer `x`. */
  predicate CountOk(w: World, b: Id, x: Id) {
    b in w.buffers ==>
      && w.buffers[b].resource
      && w.buffers[b].references == NamesBy(w.surfaces, w.buffers[b].surface, b)
      && (b != x ==> w.buffers[b].references > 0)
  }

  /** The states of a surface name live buffers of that surface. */
  predicate StatesOk(w: World, s: Id) {
    s in w.surfaces ==> NameOk(w, s, w.surfaces[s].pending) && NameOk(w, s, w.surfaces[s].commit)
  }

  /** The invariant, except that buffer x may be new and not named yet. */
  ghost predicate InvBut(w: World, x: Id) {
    && 0 !in w.buffers && 0 !in w.surfaces
    && (forall b :: CountOk(w, b, x))
    && (forall s :: StatesOk(w, s))
  }

  /** A buffer is live exactly as long as it is named, and counts its names; nothing dead is named. */
  ghost predicate Inv(w: World) {
    InvBut(w, 0)
  }

  /** The state lets go of its buffer. */
  function Drop(w: World, s: Id, slot: Slot): World
    requires s in w.surfaces
  {
    var w' := Dispose(w, Named(w, s, slot));
    WithName(w', s, slot, 0)
  }

  /** The state takes hold of a buffer. */
  function Take(w: World, s: Id, slot: Slot, b: Id): World
    requires s in w.surfaces
  {
    WithName(Use(w, b), s, slot, b)
  }

  /** The table after one name of `d` has gone. */
  function Lowered(buffers: map<Id, Buffer>, d: Id): map<Id, Buffer> {
    if d !in buffers then buffers
    else if buffers[d].references > 1 then buffers[d := buffers[d].(references := buffers[d].references - 1)]
    else buffers - {d}
  }

  lemma SetBufferIs(w: World, s: Id, slot: Slot, b: Id)
    requires s in w.surfaces && (b == 0 || b in w.buffers) && 0 !in w.buffers && Named(w, s, slot) != b
    ensures SetBuffer(w, s, slot, b) == Take(Drop(w, s, slot), s, slot, b)
  {
    var w' := Dispose(w, Named(w, s, slot));
    assert Use(WithName(w', s, slot, 0), b) == WithName(Use(w', b), s, slot, 0);
    var u := Use(w', b);
    assert WithName(WithName(u, s, slot, 0), s, slot, b).surfaces == WithName(u, s, slot, b).surfaces;
  }

  /** Letting go of the last name releases the buffer and nothing else; of another, only the count falls. */
  lemma DropIs(w: World, s: Id, slot: Slot, x: Id)
    requires InvBut(w, x) && s in w.surfaces && Named(w, s, slot) != 0 && Named(w, s, slot) != x
    ensures
      var r, d := Drop(w, s, slot), Named(w, s, slot);
      && d in w.buffers && w.buffers[d].surface == s
      && r.surfaces == WithName(w, s, slot, 0).surfaces
      && r.buffers == Lowered(w.buffers, d)
      && r.released == w.released + (if w.buffers[d].references == 1 then [d] else [])
  {
    var d := Named(w, s, slot);
    assert StatesOk(w, s) && CountOk(w, d, x);
    if w.buffers[d].references == 1 {
      assert WithName(Release(w, d), s, slot, 0).surfaces == WithName(w, s, slot, 0).surfaces;
    }
  }

  lemma DropInv(w: World, s: Id, slot: Slot, x: Id)
    requires InvBut(w, x) && s in w.surfaces && Named(w, s, slot) != x
    ensures InvBut(Drop(w, s, slot), x)
  {
    var d := Named(w, s, slot);
    if d != 0 {
      DropIs(w, s, slot, x);
      var r := Drop(w, s, slot);
      forall b ensures CountOk(r, b, x) { assert CountOk(w, b, x); }
      forall t ensures StatesOk(r, t) { assert StatesOk(w, t); DropKeepsNames(w, r, s, slot, t, x); }
    } else {
      assert WithName(w, s, slot, 0).surfaces == w.surfaces;
    }
  }

  lemma DropKeepsNames(w: World, r: World, s: Id, slot: Slot, t: Id, x: Id)
    requires InvBut(w, x) && s in w.surfaces
    requires Named(w, s, slot) in w.buffers && w.buffers[Named(w, s, slot)].surface == s
    requires r.surfaces == WithName(w, s, slot, 0).surfaces && r.buffers == Lowered(w.buffers, Named(w, s, slot))
    ensures StatesOk(r, t)
  {
    assert StatesOk(w, t) && CountOk(w, Named(w, s, slot), x);
  }

  lemma TakeInv(w: World, s: Id, slot: Slot, b: Id)
    requires InvBut(w, b) && s in w.surfaces && NameOk(w, s, b) && Named(w, s, slot) == 0
    ensures Inv(Take(w, s, slot, b)) && Named(Take(w, s, slot, b), s, slot) == b
  {
    var r := Take(w, s, slot, b);
    forall c ensures CountOk(r, c, 0) { assert CountOk(w, c, b); }
    forall t ensures StatesOk(r, t) { assert StatesOk(w, t); }
  }

  /** Replacing one name keeps every count right. */
  lemma SetBufferInv(w: World, s: Id, slot: Slot, b: Id)
    requires InvBut(w, b) && s in w.surfaces && NameOk(w, s, b)
    ensures Inv(SetBuffer(w, s, slot, b)) && Named(SetBuffer(w, s, slot, b), s, slot) == b
  {
    if Named(w, s, slot) != b {
      SetBufferIs(w, s, slot, b);
      DropInv(w, s, slot, b);
      if Named(w, s, slot) != 0 { DropIs(w, s, slot, b); }
      TakeInv(Drop(w, s, slot), s, slot, b);
    } else {
      forall c ensures CountOk(w, c, 0) { assert CountOk(w, c, b); }
    }
  }

  /** The buffers that go and the release events sent: the old name's buffer if nothing else names it, and no other. */
  lemma SetBufferReleases(w: World, s: Id, slot: Slot, b: Id)
    requires InvBut(w, b) && s in w.surfaces && NameOk(w, s, b)
    ensures
      var r, d := SetBuffer(w, s, slot, b), Named(w, s, slot);
      var other := Named(w, s, if slot == Pending then Committed else Pending);
      var gone := if d != 0 && d != b && d != other then [d] else [];
      && r.released == w.released + gone
      && r.buffers.Keys == w.buffers.Keys - (if gone == [] then {} else {d})
      && r.surfaces == WithName(w, s, slot, b).surfaces
  {
    var d := Named(w, s, slot);
    if d != b {
      SetBufferIs(w, s, slot, b);
      assert StatesOk(w, s) && CountOk(w, d, b);
      if d != 0 { DropIs(w, s, slot, b); }
      var m := Drop(w, s, slot);
      assert WithName(m, s, slot, b).surfaces == WithName(w, s, slot, b).surfaces;
      assert Use(m, b).buffers.Keys == m.buffers.Keys;
    } else {
      assert WithName(w, s, slot, b).surfaces == w.surfaces;
    }
  }

  /** The condition a client has to keep: a buffer is attached to the surface it already serves, or to its first one. */
  predicate Shareless(w: World, s: Id, b: Id) {
    b in w.buffers ==> w.buffers[b].surface == s
  }

  lemma MovedInv(w: World, s: Id, b: Id)
    requires Inv(w) && s in w.surfaces && b != 0 && Shareless(w, s, b)
    ensures InvBut(Moved(w, s, b), b)
  {
    var m := Moved(w, s, b);
    assert StatesOk(w, s);
    forall c ensures CountOk(m, c, b) { assert CountOk(w, c, 0); }
    forall t ensures StatesOk(m, t) { assert StatesOk(w, t); }
  }

  /** An attach keeps the invariant and releases the buffer it replaces, unless that one is committed or is the same. */
  lemma AttachExactly(w: World, s: Id, b: Id)
    requires Inv(w) && s in w.surfaces && b != 0 && Shareless(w, s, b)
    ensures
      var r, p := Attach(w, s, b), w.surfaces[s].pending;
      var gone := p != 0 && p != b && p != w.surfaces[s].commit;
      && Inv(r)
      && r.surfaces == w.surfaces[s := Surface(b, w.surfaces[s].commit, true)]
      && r.released == w.released + (if gone then [p] else [])
      && r.buffers.Keys == w.buffers.Keys + {b} - (if gone then {p} else {})
  {
    MovedInv(w, s, b);
    var m := Moved(w, s, b);
    SetBufferInv(m, s, Pending, b);
    SetBufferReleases(m, s, Pending, b);
    var r := SetBuffer(m, s, Pending, b);
    FlagKeeps(r, s, true);
  }

  /** The attached flag is no name. */
  lemma FlagKeeps(w: World, s: Id, attached: bool)
    requires Inv(w) && s in w.surfaces
    ensures Inv(Flag(w, s, attached))
  {
    var r := Flag(w, s, attached);
    forall c ensures CountOk(r, c, 0) { assert CountOk(w, c, 0); }
    forall t ensures StatesOk(r, t) { assert StatesOk(w, t); }
  }

  /** A commit moves the pending buffer over and releases exactly the committed one it replaces. */
  lemma CommitExactly(w: World, s: Id)
    requires Inv(w) && s in w.surfaces
    ensures
      var r, p, c := Commit(w, s), w.surfaces[s].pending, w.surfaces[s].commit;
      && Inv(r)
      && r.surfaces == w.surfaces[s := Surface(0, p, false)]
      && r.released == w.released + (if c != 0 && c != p then [c] else [])
      && r.buffers.Keys == w.buffers.Keys - (if c != p then {c} else {})
  {
    var m := Flag(w, s, false);
    var p := w.surfaces[s].pending;
    FlagKeeps(w, s, false);
    assert StatesOk(m, s) && StatesOk(w, s);
    InvSpare(m, p);
    SetBufferInv(m, s, Committed, p);
    SetBufferReleases(m, s, Committed, p);
    var n := SetBuffer(m, s, Committed, p);
    SetBufferInv(n, s, Pending, 0);
    SetBufferReleases(n, s, Pending, 0);
  }

  lemma InvSpare(w: World, x: Id)
    requires Inv(w)
    ensures InvBut(w, x)
  {
    forall c ensures CountOk(w, c, x) { assert CountOk(w, c, 0); }
  }

  function Cleared(s: Surface, b: Id): Surface {
    s.(pending := if s.pending == b then 0 else s.pending, commit := if s.commit == b then 0 else s.commit)
  }

  /** When the client destroys a buffer every state forgets it at once and no release is sent. */
  lemma ClientDestroyExactly(w: World, b: Id)
    requires Inv(w)
    ensures
      var r := ClientDestroy(w, b);
      && Inv(r) && r.buffers == w.buffers - {b} && r.released == w.released
      && r.surfaces == map s | s in w.surfaces :: Cleared(w.surfaces[s], b)
  {
    var r := ClientDestroy(w, b);
    forall s | s in w.surfaces ensures StatesOk(w, s) {}
    forall c ensures CountOk(r, c, 0) { assert CountOk(w, c, 0); }
    forall t ensures StatesOk(r, t) { assert StatesOk(w, t); }
  }

  /**
   A surface that dies takes each of its buffers with it, once; nothing is left for the release
   of its source of buffers.
   */
  lemma SurfaceDestroyExactly(w: World, s: Id)
    requires Inv(w) && s in w.surfaces
    ensures
      var r, p, c := SurfaceDestroy(w, s), w.surfaces[s].pending, w.surfaces[s].commit;
      && Inv(r) && r.surfaces == w.surfaces - {s}
      && r.released == w.released + (if c != 0 && c != p then [c] else []) + (if p != 0 then [p] else [])
      && r.buffers.Keys == w.buffers.Keys - {c, p}
      && (forall b :: b in r.buffers ==> r.buffers[b].surface != s)
  {
    var p := w.surfaces[s].pending;
    SetBufferInv(w, s, Committed, 0);
    SetBufferReleases(w, s, Committed, 0);
    var m := SetBuffer(w, s, Committed, 0);
    SetBufferInv(m, s, Pending, 0);
    SetBufferReleases(m, s, Pending, 0);
    var n := SetBuffer(m, s, Pending, 0);
    assert m.surfaces[s] == w.surfaces[s].(commit := 0) && n.surfaces[s] == m.surfaces[s].(pending := 0);
    assert n.surfaces - {s} == w.surfaces - {s};
    NamelessGoes(n, s);
  }

  lemma SurfaceCreateInv(w: World, s: Id)
    requires Inv(w) && s != 0 && s !in w.surfaces
    ensures Inv(SurfaceCreate(w, s))
  {
    var r := SurfaceCreate(w, s);
    forall b ensures CountOk(r, b, 0) { assert CountOk(w, b, 0); }
    forall t ensures StatesOk(r, t) { assert StatesOk(w, t); }
  }

  /** A surface that names nothing can go. */
  lemma NamelessGoes(w: World, s: Id)
    requires Inv(w) && s in w.surfaces && w.surfaces[s].pending == 0 && w.surfaces[s].commit == 0
    ensures
      var r := w.(surfaces := w.surfaces - {s});
      Inv(r) && forall b :: b in r.buffers ==> r.buffers[b].surface != s
  {
    var r := w.(surfaces := w.surfaces - {s});
    forall b ensures CountOk(r, b, 0) && (b in r.buffers ==> r.buffers[b].surface != s) { assert CountOk(w, b, 0); }
    forall t ensures StatesOk(r, t) { assert StatesOk(w, t); }
  }

  /** Attaching keeps the invariant exactly when the buffer serves no other surface. */
  lemma AttachKeepsExactly(w: World, s: Id, b: Id)
    requires Inv(w) && s in w.surfaces && b != 0
    ensures Inv(Attach(w, s, b)) <==> Shareless(w, s, b)
  {
    if Shareless(w, s, b) {
      AttachExactly(w, s, b);
    } else {
      var t := w.buffers[b].surface;
      assert CountOk(w, b, 0) && StatesOk(w, t) && StatesOk(w, s);
      var m := Moved(w, s, b);
      var d := w.surfaces[s].pending;
      assert CountOk(w, d, 0);
      var r := Attach(w, s, b);
      assert r.surfaces[t] == w.surfaces[t];
      assert b in r.buffers && r.buffers[b].surface == s;
      assert !StatesOk(r, t);
    }
  }

  /** Whatever was shared, a commit does not show a buffer that is dead. */
  lemma DeadIsNotShown(w: World, s: Id)
    requires s in w.surfaces && w.surfaces[s].pending !in w.buffers && 0 !in w.buffers
    ensures Commit(w, s).surfaces[s] == Surface(0, 0, false)
  {
  }

  /** An attach does nothing at all exactly if it needs a new buffer and that cannot be made. */
  lemma AttachRefusedExactly(w: World, s: Id, b: Id, made: bool)
    requires Inv(w) && s in w.surfaces && !w.surfaces[s].attached && Shareless(w, s, b)
    ensures AttachRequest(w, s, b, made) == w <==> b != 0 && b !in w.buffers && !made
    ensures b == 0 || b in w.buffers || made ==> AttachRequest(w, s, b, made).surfaces[s].attached
  {
    if b != 0 { AttachExactly(w, s, b); }
  }

  datatype Request =
    | AttachTo(s: Id, b: Id, made: bool)
    | CommitOf(s: Id)
    | DestroyOf(b: Id)
    | SurfaceNew(s: Id)
    | SurfaceGone(s: Id)

  /** A request on a surface that is gone does nothing; the number of a new one is not in use. */
  function Step(w: World, r: Request): World {
    match r
    case AttachTo(s, b, made) => if s in w.surfaces then AttachRequest(w, s, b, made) else w
    case CommitOf(s) => if s in w.surfaces then Commit(w, s) else w
    case DestroyOf(b) => ClientDestroy(w, b)
    case SurfaceNew(s) => if s == 0 || s in w.surfaces then w else SurfaceCreate(w, s)
    case SurfaceGone(s) => if s in w.surfaces then SurfaceDestroy(w, s) else w
  }

  function Run(w: World, rs: seq<Request>): World
    decreases |rs|
  {
    if rs == [] then w else Run(Step(w, rs[0]), rs[1..])
  }

  /** Each buffer is attached to one surface only. */
  predicate SharesNothing(w: World, rs: seq<Request>)
    decreases |rs|
  {
    rs != [] ==>
      (rs[0].AttachTo? && rs[0].s in w.surfaces ==> Shareless(w, rs[0].s, rs[0].b))
        && SharesNothing(Step(w, rs[0]), rs[1..])
  }

  /** Over every such history of requests the counts are right and no state names a dead buffer. */
  lemma {:induction false} RunsKeepCounts(w: World, rs: seq<Request>)
    requires Inv(w) && SharesNothing(w, rs)
    ensures Inv(Run(w, rs))
    decreases |rs|
  {
    if rs != [] {
      StepKeepsCounts(w, rs[0]);
      RunsKeepCounts(Step(w, rs[0]), rs[1..]);
    }
  }

  lemma StepKeepsCounts(w: World, r: Request)
    requires Inv(w) && (r.AttachTo? && r.s in w.surfaces ==> Shareless(w, r.s, r.b))
    ensures Inv(Step(w, r))
  {
    match r
    case AttachTo(s, b, _) =>
      if s in w.surfaces { if b == 0 { FlagKeeps(w, s, true); } else { AttachExactly(w, s, b); } }
    case CommitOf(s) => if s in w.surfaces { CommitExactly(w, s); }
    case DestroyOf(b) => ClientDestroyExactly(w, b);
    case SurfaceNew(s) => if s != 0 && s !in w.surfaces { SurfaceCreateInv(w, s); }
    case SurfaceGone(s) => if s in w.surfaces { SurfaceDestroyExactly(w, s); }
  }

  /** The surface is attached one buffer after the other. */
  function Attaches(s: Id, bs: seq<Id>): (rs: seq<Request>)
    ensures |rs| == |bs|
  {
    if bs == [] then [] else [AttachTo(s, bs[0], true)] + Attaches(s, bs[1..])
  }

  /** The last buffer of a series of attaches, NULL not counted. */
  function LastBuffer(p: Id, bs: seq<Id>): Id
    decreases |bs|
  {
    if bs == [] then p else LastBuffer(if bs[0] != 0 then bs[0] else p, bs[1..])
  }

  lemma {:induction false} PendingAfter(w: World, s: Id, bs: seq<Id>)
    requires Inv(w) && s in w.surfaces && SharesNothing(w, Attaches(s, bs))
    ensures
      var r := Run(w, Attaches(s, bs));
      Inv(r) && s in r.surfaces && r.surfaces[s].pending == LastBuffer(w.surfaces[s].pending, bs)
    decreases |bs|
  {
    if bs != [] {
      var rs := Attaches(s, bs);
      assert rs[0] == AttachTo(s, bs[0], true) && rs[1..] == Attaches(s, bs[1..]);
      if bs[0] == 0 { FlagKeeps(w, s, true); } else { AttachExactly(w, s, bs[0]); }
      PendingAfter(Step(w, rs[0]), s, bs[1..]);
    }
  }

  predicate AllNull(bs: seq<Id>) {
    forall i :: 0 <= i < |bs| ==> bs[i] == 0
  }

  lemma {:induction false} LastBufferIs(p: Id, bs: seq<Id>)
    requires bs != []
    ensures LastBuffer(p, bs) == bs[|bs| - 1] <==> bs[|bs| - 1] != 0 || (p == 0 && AllNull(bs))
    decreases |bs|
  {
    if |bs| > 1 {
      var p', tail := if bs[0] != 0 then bs[0] else p, bs[1..];
      LastBufferIs(p', tail);
      assert tail[|tail| - 1] == bs[|bs| - 1] && LastBuffer(p, bs) == LastBuffer(p', tail);
      assert AllNull(bs) <==> bs[0] == 0 && AllNull(tail);
    } else {
      assert LastBuffer(p, bs) == if bs[0] != 0 then bs[0] else p;
    }
  }

  /**
   A commit shows what was attached last exactly if that was a buffer, or nothing but NULL was
   attached and nothing was pending before: NULL does not withdraw a buffer that is pending.
   */
  lemma CommitShowsLastExactly(w: World, s: Id, bs: seq<Id>)
    requires Inv(w) && s in w.surfaces && bs != [] && SharesNothing(w, Attaches(s, bs))
    ensures
      var r, last := Run(w, Attaches(s, bs)), bs[|bs| - 1];
      && s in r.surfaces
      && (Commit(r, s).surfaces[s].commit == last
        <==> last != 0 || (w.surfaces[s].pending == 0 && AllNull(bs)))
  {
    PendingAfter(w, s, bs);
    CommitExactly(Run(w, Attaches(s, bs)), s);
    LastBufferIs(w.surfaces[s].pending, bs);
  }

  lemma RunsOn(w: World, r: Request, rs: seq<Request>)
    ensures Run(w, [r] + rs) == Run(Step(w, r), rs)
  {
    assert ([r] + rs)[1..] == rs;
  }

  /** A surface that shows nothing but its committed buffer is given another one, and shows that instead. */
  lemma Shows(w: World, b: Id, r: World, rs: seq<Request>)
    requires Inv(w) && w.surfaces.Keys == {1} && b != 0 && b !in w.buffers && w.surfaces[1].pending == 0
    requires w.buffers.Keys == if w.surfaces[1].commit == 0 then {} else {w.surfaces[1].commit}
    requires
      var c := w.surfaces[1].commit;
      r == World(map[b := Buffer(1, 1, true)], map[1 := Surface(0, b, false)], w.released + if c == 0 then [] else [c])
    ensures Run(w, [AttachTo(1, b, true)] + ([CommitOf(1)] + rs)) == Run(r, rs) && Inv(r)
  {
    AttachExactly(w, 1, b);
    var a := Attach(w, 1, b);
    CommitExactly(a, 1);
    var t := Commit(a, 1);
    assert CountOk(t, b, 0);
    assert t.buffers == r.buffers && t.surfaces == r.surfaces;
    RunsOn(a, CommitOf(1), rs);
    RunsOn(w, AttachTo(1, b, true), [CommitOf(1)] + rs);
  }

  const NOTHING := World(map[], map[], [])

  const SHOWS_7 := World(map[7 := Buffer(1, 1, true)], map[1 := Surface(0, 7, false)], [])

  const SHOWS_8 := World(map[8 := Buffer(1, 1, true)], map[1 := Surface(0, 8, false)], [7])

  /** From first to last: two buffers are shown one after the other, and each is released when its turn is over. */
  lemma Lifecycle()
    ensures
      var second := [AttachTo(1, 8, true)] + ([CommitOf(1)] + [SurfaceGone(1)]);
      var first := [AttachTo(1, 7, true)] + ([CommitOf(1)] + second);
      Run(NOTHING, [SurfaceNew(1)] + first) == World(map[], map[], [7, 8])
  {
    var second := [AttachTo(1, 8, true)] + ([CommitOf(1)] + [SurfaceGone(1)]);
    var first := [AttachTo(1, 7, true)] + ([CommitOf(1)] + second);
    RunsOn(NOTHING, SurfaceNew(1), first);
    MadeInv();
    assert Step(NOTHING, SurfaceNew(1)) == MADE;
    Shows(MADE, 7, SHOWS_7, second);
    SecondHalf();
  }

  const MADE := World(map[], map[1 := Surface(0, 0, false)], [])

  lemma MadeInv()
    ensures Inv(MADE)
  {
    assert forall b :: CountOk(MADE, b, 0);
    assert forall s :: StatesOk(MADE, s);
  }

  lemma SecondHalf()
    requires Inv(SHOWS_7)
    ensures Run(SHOWS_7, [AttachTo(1, 8, true)] + ([CommitOf(1)] + [SurfaceGone(1)])) == World(map[], map[], [7, 8])
  {
    Shows(SHOWS_7, 8, SHOWS_8, [SurfaceGone(1)]);
    LastGoes(SHOWS_8);
    assert [SurfaceGone(1)] + [] == [SurfaceGone(1)];
    RunsOn(SHOWS_8, SurfaceGone(1), []);
  }

  lemma LastGoes(w: World)
    requires w == SHOWS_8
    ensures SurfaceDestroy(w, 1) == World(map[], map[], [7, 8])
  {
    assert forall b :: CountOk(w, b, 0);
    assert forall s :: StatesOk(w, s);
    SurfaceDestroyExactly(w, 1);
    var r := SurfaceDestroy(w, 1);
    assert r.buffers == map[] && r.surfaces == map[];
  }

  lemma RunOfThree(w: World, a: Request, b: Request, c: Request)
    ensures Run(w, [a, b, c]) == Step(Step(Step(w, a), b), c)
  {
    assert [a, b, c][1..] == [b, c] && [b, c][1..] == [c] && [c][1..] == [];
    var v, u := Step(w, a), Step(Step(w, a), b);
    assert Run(u, [c]) == Run(Step(u, c), []);
    assert Run(v, [b, c]) == Run(u, [c]);
    assert Run(w, [a, b, c]) == Run(v, [b, c]);
  }

  const TWO_SURFACES := World(map[], map[1 := Surface(0, 0, false), 2 := Surface(0, 0, false)], [])

  const ONCE := World(map[7 := Buffer(1, 1, true)], map[1 := Surface(7, 0, true), 2 := Surface(0, 0, false)], [])

  lemma FirstShare()
    ensures Inv(TWO_SURFACES) && Attach(TWO_SURFACES, 1, 7) == ONCE
  {
    assert forall b :: CountOk(TWO_SURFACES, b, 0);
    assert forall s :: StatesOk(TWO_SURFACES, s);
    var w := Attach(TWO_SURFACES, 1, 7);
    assert w.buffers == ONCE.buffers && w.surfaces == ONCE.surfaces;
  }

  lemma SecondShare()
    ensures
      var w := Attach(ONCE, 2, 7);
      w.buffers == map[7 := Buffer(2, 2, true)] && w.surfaces == map[1 := Surface(7, 0, true), 2 := Surface(7, 0, true)]
  {
  }

  /** Two surfaces show one buffer; its destruction leaves the first naming it. */
  lemma SharedBufferDangles()
    ensures
      var r := Run(TWO_SURFACES, [AttachTo(1, 7, true), AttachTo(2, 7, true), DestroyOf(7)]);
      Inv(TWO_SURFACES) && 7 !in r.buffers && r.surfaces[1].pending == 7
  {
    RunOfThree(TWO_SURFACES, AttachTo(1, 7, true), AttachTo(2, 7, true), DestroyOf(7));
    FirstShare();
    SecondShare();
  }

  /** The compositor's buffers and surfaces, changed in place by the requests. */
  class Compositor {
    var buffers: map<Id, Buffer>
    var surfaces: map<Id, Surface>
    var released: seq<Id>

    constructor ()
      ensures Inv(Snapshot())
    {
      buffers, surfaces, released := map[], map[], [];
    }

    ghost function Snapshot(): World
      reads this
    {
      World(buffers, surfaces, released)
    }

    method CreateSurface(s: Id)
      requires s != 0 && s !in surfaces
      modifies this
      ensures surfaces == old(surfaces)[s := Surface(0, 0, false)]
      ensures Snapshot() == SurfaceCreate(old(Snapshot()), s)
    {
      surfaces := surfaces[s := Surface(0, 0, false)];
    }

    method ReleaseBuffer(b: Id)
      modifies this
      ensures Snapshot() == Release(old(Snapshot()), b)
    {
      if b !in buffers { return; }
      var s := buffers[b].surface;
      if s in surfaces {
        if surfaces[s].commit == b {
          surfaces := surfaces[s := surfaces[s].(commit := 0)];
        }
        if surfaces[s].pending == b {
          surfaces := surfaces[s := surfaces[s].(pending := 0)];
        }
      }
      if buffers[b].resource { released := released + [b]; }
      buffers := buffers - {b};
    }

    method DisposeBuffer(b: Id)
      modifies this
      ensures Snapshot() == Dispose(old(Snapshot()), b)
    {
      if b !in buffers { return; }
      if buffers[b].references > 0 {
        buffers := buffers[b := buffers[b].(references := buffers[b].references - 1)];
        if buffers[b].references > 0 { return; }
      }
      ReleaseBuffer(b);
      assert buffers == old(buffers) - {b};
    }

    method UseBuffer(b: Id) returns (id: Id)
      modifies this
      ensures Snapshot() == Use(old(Snapshot()), b)
      ensures id == (if b in old(buffers) then b else 0)
    {
      if b !in buffers { return 0; }
      buffers := buffers[b := buffers[b].(references := (buffers[b].references + 1) % UINT16)];
      return b;
    }

    method StateSetBuffer(s: Id, slot: Slot, b: Id)
      requires s in surfaces
      modifies this
      ensures Snapshot() == SetBuffer(old(Snapshot()), s, slot, b)
    {
      var target := if b in buffers then b else 0;
      var current := if slot == Pending then surfaces[s].pending else surfaces[s].commit;
      if current == target { return; }
      DisposeBuffer(current);
      var id := UseBuffer(target);
      surfaces := surfaces[s := if slot == Pending then surfaces[s].(pending := id) else surfaces[s].(commit := id)];
    }

    method SurfaceAttach(s: Id, b: Id, made: bool)
      requires s in surfaces
      modifies this
      ensures Snapshot() == AttachRequest(old(Snapshot()), s, b, made)
    {
      if b != 0 && b !in buffers && !made { return; }
      if b != 0 {
        if b !in buffers { buffers := buffers[b := Buffer(0, 0, true)]; }
        buffers := buffers[b := buffers[b].(surface := s)];
        assert Snapshot() == Moved(old(Snapshot()), s, b);
        StateSetBuffer(s, Pending, b);
      }
      surfaces := surfaces[s := surfaces[s].(attached := true)];
    }

    method CommitState(s: Id)
      requires s in surfaces
      modifies this
      ensures Snapshot() == Commit(old(Snapshot()), s)
    {
      surfaces := surfaces[s := surfaces[s].(attached := false)];
      StateSetBuffer(s, Committed, surfaces[s].pending);
      StateSetBuffer(s, Pending, 0);
    }

    method ReleaseSurface(s: Id)
      requires s in surfaces
      modifies this
      ensures Snapshot() == SurfaceDestroy(old(Snapshot()), s)
    {
      StateSetBuffer(s, Committed, 0);
      StateSetBuffer(s, Pending, 0);
      surfaces := surfaces - {s};
    }

    method DestroyedByClient(b: Id)
      modifies this
      ensures Snapshot() == ClientDestroy(old(Snapshot()), b)
    {
      if b !in buffers { return; }
      buffers := buffers[b := buffers[b].(resource := false)];
      ReleaseBuffer(b);
    }
  }
}
