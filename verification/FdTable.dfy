/**
 The privileged child's descriptor table: 32 slots searched from the front, held,
 closed by device number, and cut down when the session leaves its virtual terminal.
 */
module FdTable {

  const SLOTS := 32

  datatype Kind = Input | Drm

  /** A slot is live while fd is not negative; a closed one keeps its device number. */
  datatype Slot = Slot(device: (int, int), fd: int, kind: Kind)

  /** The table with the kernel's side of it: the descriptors open, and those that are DRM master. */
  datatype Table = Table(slots: seq<Slot>, held: set<int>, masters: set<int>)

  /** What opening a path comes to: refused before or by the kernel, or a new descriptor. */
  datatype Opening = Refused | Opened(device: (int, int), fd: int, master: bool)

  predicate Live(s: Slot) {
    s.fd >= 0
  }

  predicate LiveOf(s: Slot, kind: Kind) {
    Live(s) && s.kind == kind
  }

  /** The first slot that is free, |slots| if there is none. */
  function FirstFree(slots: seq<Slot>): (k: nat)
    ensures k <= |slots| && (k < |slots| ==> !Live(slots[k])) && (forall i :: 0 <= i < k ==> Live(slots[i]))
  {
    if slots == [] || !Live(slots[0]) then 0 else 1 + FirstFree(slots[1..])
  }

  /** The first slot with that device number, live or not. */
  function FirstOf(slots: seq<Slot>, device: (int, int)): (k: nat)
    ensures k <= |slots| && (k < |slots| ==> slots[k].device == device)
    ensures (forall i :: 0 <= i < k ==> slots[i].device != device)
  {
    if slots == [] || slots[0].device == device then 0 else 1 + FirstOf(slots[1..], device)
  }

  /** The first live slot of the kind whose descriptor is among the failing ones. */
  function FirstFailing(slots: seq<Slot>, kind: Kind, failing: set<int>): (k: nat)
    ensures k <= |slots| && (k < |slots| ==> LiveOf(slots[k], kind) && slots[k].fd in failing)
    ensures forall i :: 0 <= i < k && LiveOf(slots[i], kind) ==> slots[i].fd !in failing
  {
    if slots == [] || (LiveOf(slots[0], kind) && slots[0].fd in failing) then 0
      else 1 + FirstFailing(slots[1..], kind, failing)
  }

  /** fd_open. */
  function Open(t: Table, o: Opening, kind: Kind): Table {
    var k := FirstFree(t.slots);
    if k == |t.slots| || o.Refused? then t
    else
      var masters := if kind == Drm && o.master then t.masters + {o.fd} else t.masters;
      Table(t.slots[k := Slot(o.device, o.fd, kind)], t.held + {o.fd}, masters)
  }

  /** fd_close. */
  function Close(t: Table, device: (int, int)): Table {
    var k := FirstOf(t.slots, device);
    if k == |t.slots| then t
    else
      var s := t.slots[k];
      Table(t.slots[k := s.(fd := -1)], t.held - {s.fd}, if s.kind == Drm then t.masters - {s.fd} else t.masters)
  }

  /** The slots after the live inputs before `k` have been closed. */
  function Revoked(slots: seq<Slot>, k: nat): (r: seq<Slot>)
    requires k <= |slots|
    ensures |r| == |slots|
    ensures forall i :: 0 <= i < |slots| ==>
      r[i] == if i < k && LiveOf(slots[i], Input) then slots[i].(fd := -1) else slots[i]
  {
    seq(|slots|, i requires 0 <= i < |slots| =>
      if i < k && LiveOf(slots[i], Input) then slots[i].(fd := -1) else slots[i])
  }

  /** The descriptors of the live slots of a kind before `k`. */
  function FdsOf(slots: seq<Slot>, kind: Kind, k: nat): set<int>
    requires k <= |slots|
  {
    set i | 0 <= i < k && LiveOf(slots[i], kind) :: slots[i].fd
  }

  /** The table part of deactivate: `drop` and `revoke` are the descriptors for which that call fails. */
  function Deactivate(t: Table, drop: set<int>, revoke: set<int>): Table {
    var k := FirstFailing(t.slots, Drm, drop);
    var dropped := t.(masters := t.masters - FdsOf(t.slots, Drm, k));
    if k < |t.slots| then dropped
    else
      var m := FirstFailing(t.slots, Input, revoke);
      dropped.(slots := Revoked(t.slots, m), held := t.held - FdsOf(t.slots, Input, m))
  }

  /** The table part of activate: `refuse` are the descriptors that cannot be made master. */
  function Activate(t: Table, refuse: set<int>): Table {
    t.(masters := t.masters + FdsOf(t.slots, Drm, FirstFailing(t.slots, Drm, refuse)))
  }

  predicate Activated(t: Table, refuse: set<int>) {
    FirstFailing(t.slots, Drm, refuse) == |t.slots|
  }

  predicate Deactivated(t: Table, drop: set<int>, revoke: set<int>) {
    FirstFailing(t.slots, Drm, drop) == |t.slots| && FirstFailing(t.slots, Input, revoke) == |t.slots|
  }

  /** A live slot is the first one with its device number, and no other has its descriptor. */
  predicate SlotOk(slots: seq<Slot>, i: nat, j: nat) {
    i < j < |slots| && Live(slots[j]) ==> slots[i].device != slots[j].device && slots[i].fd != slots[j].fd
  }

  ghost predicate Inv(t: Table) {
    && |t.slots| == SLOTS
    && (forall i: nat, j: nat :: SlotOk(t.slots, i, j))
    && (forall i :: 0 <= i < |t.slots| && Live(t.slots[i]) ==> t.slots[i].fd in t.held)
    && (forall f :: f in t.held ==> f >= 0 && exists i :: 0 <= i < |t.slots| && t.slots[i].fd == f)
    && (forall f :: f in t.masters ==> exists i :: 0 <= i < |t.slots| && LiveOf(t.slots[i], Drm) && t.slots[i].fd == f)
  }

  predicate IsOpen(t: Table, device: (int, int)) {
    exists i :: 0 <= i < |t.slots| && Live(t.slots[i]) && t.slots[i].device == device
  }

  /** The kernel hands out a descriptor that is not open. */
  predicate Honest(t: Table, o: Opening) {
    o.Opened? ==> o.fd >= 0 && o.fd !in t.held
  }

  predicate Opens(t: Table, o: Opening) {
    o.Opened? && FirstFree(t.slots) < |t.slots|
  }

  /** Opening keeps the table in order exactly when it does not open a device that is open already. */
  lemma OpenKeepsExactly(t: Table, o: Opening, kind: Kind)
    requires Inv(t) && Honest(t, o)
    ensures Inv(Open(t, o, kind)) <==> !(Opens(t, o) && IsOpen(t, o.device))
  {
    if Opens(t, o) {
      var k := FirstFree(t.slots);
      var r := Open(t, o, kind);
      if IsOpen(t, o.device) {
        var q :| 0 <= q < |t.slots| && Live(t.slots[q]) && t.slots[q].device == o.device;
        assert r.slots[q] == t.slots[q] && r.slots[k].device == o.device;
        assert !SlotOk(r.slots, if q < k then q else k, if q < k then k else q);
      } else {
        OpenKeeps(t, o, kind);
      }
    }
  }

  lemma OpenKeeps(t: Table, o: Opening, kind: Kind)
    requires Inv(t) && Honest(t, o) && Opens(t, o) && !IsOpen(t, o.device)
    ensures Inv(Open(t, o, kind))
  {
    var k := FirstFree(t.slots);
    var r := Open(t, o, kind);
    forall i: nat, j: nat ensures SlotOk(r.slots, i, j) { assert SlotOk(t.slots, i, j); }
    forall f | f in r.held ensures f >= 0 && exists i :: 0 <= i < |r.slots| && r.slots[i].fd == f {
      if f == o.fd { assert r.slots[k].fd == f; } else {
        var i :| 0 <= i < |t.slots| && t.slots[i].fd == f;
        assert r.slots[i].fd == f;
      }
    }
    forall f | f in r.masters ensures exists i :: 0 <= i < |r.slots| && LiveOf(r.slots[i], Drm) && r.slots[i].fd == f {
      if f in t.masters {
        var i :| 0 <= i < |t.slots| && LiveOf(t.slots[i], Drm) && t.slots[i].fd == f;
        assert r.slots[i] == t.slots[i];
      } else {
        assert r.slots[k].fd == f && LiveOf(r.slots[k], Drm);
      }
    }
  }

  /** The slot that an open fills, and what it holds. */
  lemma OpenedSlot(t: Table, o: Opening, kind: Kind) returns (k: nat)
    requires Inv(t) && Opens(t, o)
    ensures
      var r := Open(t, o, kind);
      && k < |t.slots| && !Live(t.slots[k]) && (forall i :: 0 <= i < k ==> Live(t.slots[i]))
      && r.slots == t.slots[k := Slot(o.device, o.fd, kind)] && r.held == t.held + {o.fd}
  {
    k := FirstFree(t.slots);
  }

  /** Closing what was just opened gives its descriptor back and drops it as master; every live slot is as before. */
  lemma OpenThenClose(t: Table, o: Opening, kind: Kind)
    requires Inv(t) && Honest(t, o) && Opens(t, o) && !IsOpen(t, o.device)
    ensures
      var r := Close(Open(t, o, kind), o.device);
      && r.held == t.held && r.masters == t.masters
      && (forall i :: 0 <= i < |t.slots| ==> Live(r.slots[i]) == Live(t.slots[i]))
      && (forall i :: 0 <= i < |t.slots| && Live(t.slots[i]) ==> r.slots[i] == t.slots[i])
  {
    var a := Open(t, o, kind);
    var k := OpenedSlot(t, o, kind);
    OpenKeeps(t, o, kind);
    CloseExactly(a, o.device);
    assert Live(a.slots[k]) && a.slots[k].device == o.device;
    assert o.fd !in t.masters;
    MasterOpened(t, o, kind);
    SlotOkAt(a, o.device, k);
  }

  lemma SlotOkAt(t: Table, device: (int, int), k: nat)
    requires Inv(t) && k < |t.slots| && Live(t.slots[k]) && t.slots[k].device == device
    ensures FirstOf(t.slots, device) == k
  {
    assert SlotOk(t.slots, FirstOf(t.slots, device), k);
  }

  lemma MasterOpened(t: Table, o: Opening, kind: Kind)
    requires Opens(t, o)
    ensures Open(t, o, kind).masters == if kind == Drm && o.master then t.masters + {o.fd} else t.masters
  {
  }

  /** When the terminal is left, a device just opened stays open exactly if it was opened as a DRM one. */
  lemma OpenThenLeave(t: Table, o: Opening, kind: Kind, drop: set<int>, revoke: set<int>)
    requires Inv(t) && Honest(t, o) && Opens(t, o) && !IsOpen(t, o.device)
    requires Deactivated(Open(t, o, kind), drop, revoke)
    ensures o.fd in Deactivate(Open(t, o, kind), drop, revoke).held <==> kind == Drm
  {
    var a := Open(t, o, kind);
    var k := OpenedSlot(t, o, kind);
    OpenKeeps(t, o, kind);
    assert a.slots[k] == Slot(o.device, o.fd, kind);
    DeactivateKeeps(a, drop, revoke);
    if kind == Input {
      assert o.fd in FdsOf(a.slots, Input, |a.slots|);
    } else {
      forall j | 0 <= j < |a.slots| && LiveOf(a.slots[j], Input) ensures a.slots[j].fd != o.fd {
        assert SlotOk(a.slots, j, k) && SlotOk(a.slots, k, j);
      }
    }
  }

  /** Closing a device closes the descriptor opened for it, and nothing at all when it is not open. */
  lemma CloseExactly(t: Table, device: (int, int))
    requires Inv(t)
    ensures Inv(Close(t, device)) && !IsOpen(Close(t, device), device)
    ensures forall q :: 0 <= q < |t.slots| && Live(t.slots[q]) && t.slots[q].device == device ==>
        Close(t, device).held == t.held - {t.slots[q].fd}
          && Close(t, device).slots == t.slots[q := t.slots[q].(fd := -1)]
    ensures !IsOpen(t, device) ==> Close(t, device).held == t.held
    ensures forall q :: 0 <= q < |t.slots| && t.slots[q].device != device ==> Close(t, device).slots[q] == t.slots[q]
  {
    var k := FirstOf(t.slots, device);
    forall q | 0 <= q < |t.slots| && Live(t.slots[q]) && t.slots[q].device == device ensures q == k {
      assert SlotOk(t.slots, k, q);
    }
    CloseKeeps(t, device);
    if k < |t.slots| && !Live(t.slots[k]) {
      assert t.slots[k].fd !in t.held;
    }
  }

  lemma CloseKeeps(t: Table, device: (int, int))
    requires Inv(t)
    ensures Inv(Close(t, device))
  {
    var k := FirstOf(t.slots, device);
    if k < |t.slots| {
      var r := Close(t, device);
      forall i: nat, j: nat ensures SlotOk(r.slots, i, j) { assert SlotOk(t.slots, i, j); }
      forall i | 0 <= i < |r.slots| && Live(r.slots[i]) ensures r.slots[i].fd in r.held {
        assert SlotOk(t.slots, i, k) && SlotOk(t.slots, k, i);
      }
      forall f | f in r.held ensures f >= 0 && exists i :: 0 <= i < |r.slots| && r.slots[i].fd == f {
        var i :| 0 <= i < |t.slots| && t.slots[i].fd == f;
        assert r.slots[i].fd == f;
      }
      forall f | f in r.masters
        ensures exists i :: 0 <= i < |r.slots| && LiveOf(r.slots[i], Drm) && r.slots[i].fd == f
      {
        var i :| 0 <= i < |t.slots| && LiveOf(t.slots[i], Drm) && t.slots[i].fd == f;
        assert i != k && r.slots[i] == t.slots[i];
      }
    }
  }

  /**
   Leaving the terminal: on success no master and no input is left, on failure no input was lost
   before every master was dropped.
   */
  lemma DeactivateExactly(t: Table, drop: set<int>, revoke: set<int>)
    requires Inv(t)
    ensures
      var r := Deactivate(t, drop, revoke);
      && Inv(r)
      && (Deactivated(t, drop, revoke) ==> r.masters == {} && forall i :: 0 <= i < |r.slots| ==>
        !LiveOf(r.slots[i], Input))
      && (r.slots != t.slots ==> r.masters == {})
      && (forall i :: 0 <= i < |t.slots| && t.slots[i].kind == Drm ==> r.slots[i] == t.slots[i])
  {
    var k := FirstFailing(t.slots, Drm, drop);
    var r := Deactivate(t, drop, revoke);
    forall f | f in t.masters && k == |t.slots| ensures f in FdsOf(t.slots, Drm, k) {
      var i :| 0 <= i < |t.slots| && LiveOf(t.slots[i], Drm) && t.slots[i].fd == f;
    }
    DeactivateKeeps(t, drop, revoke);
  }

  lemma DeactivateKeeps(t: Table, drop: set<int>, revoke: set<int>)
    requires Inv(t)
    ensures Inv(Deactivate(t, drop, revoke))
  {
    var k := FirstFailing(t.slots, Drm, drop);
    var m := if k < |t.slots| then 0 else FirstFailing(t.slots, Input, revoke);
    var r := Deactivate(t, drop, revoke);
    assert r.slots == Revoked(t.slots, m);
    assert r.held == t.held - FdsOf(t.slots, Input, m);
    forall i: nat, j: nat ensures SlotOk(r.slots, i, j) { assert SlotOk(t.slots, i, j); }
    forall i | 0 <= i < |r.slots| && Live(r.slots[i]) ensures r.slots[i].fd in r.held {
      forall j | 0 <= j < m && LiveOf(t.slots[j], Input) ensures t.slots[j].fd != t.slots[i].fd {
        assert SlotOk(t.slots, i, j) && SlotOk(t.slots, j, i);
      }
    }
    forall f | f in r.held ensures f >= 0 && exists i :: 0 <= i < |r.slots| && r.slots[i].fd == f {
      var i :| 0 <= i < |t.slots| && t.slots[i].fd == f;
      assert r.slots[i].fd == f;
    }
    forall f | f in r.masters ensures exists i :: 0 <= i < |r.slots| && LiveOf(r.slots[i], Drm) && r.slots[i].fd == f {
      var i :| 0 <= i < |t.slots| && LiveOf(t.slots[i], Drm) && t.slots[i].fd == f;
      assert r.slots[i] == t.slots[i];
    }
  }

  lemma ActivateKeeps(t: Table, refuse: set<int>)
    requires Inv(t)
    ensures Inv(Activate(t, refuse))
  {
    var r := Activate(t, refuse);
    forall i: nat, j: nat ensures SlotOk(r.slots, i, j) { assert SlotOk(t.slots, i, j); }
  }

  /**
   Leaving the terminal and coming back, both without a failure, ends with every DRM descriptor
   master and every input gone; the DRM slots have not changed.
   */
  lemma ReturnExactly(t: Table, drop: set<int>, revoke: set<int>, refuse: set<int>)
    requires Inv(t) && Deactivated(t, drop, revoke) && Activated(Deactivate(t, drop, revoke), refuse)
    ensures
      var r := Activate(Deactivate(t, drop, revoke), refuse);
      && Inv(r) && r.masters == FdsOf(t.slots, Drm, |t.slots|) && t.masters <= r.masters
      && r.held == t.held - FdsOf(t.slots, Input, |t.slots|)
      && (forall i :: 0 <= i < |t.slots| ==>
        r.slots[i] == if LiveOf(t.slots[i], Input) then t.slots[i].(fd := -1) else t.slots[i])
  {
    var left := Deactivate(t, drop, revoke);
    DeactivateExactly(t, drop, revoke);
    ActivateKeeps(left, refuse);
    assert left.slots == Revoked(t.slots, |t.slots|);
    SameDrm(t.slots, left.slots);
    forall f | f in t.masters ensures f in FdsOf(t.slots, Drm, |t.slots|) {
      var i :| 0 <= i < |t.slots| && LiveOf(t.slots[i], Drm) && t.slots[i].fd == f;
    }
  }

  lemma SameDrm(a: seq<Slot>, b: seq<Slot>)
    requires |a| == |b| && forall i :: 0 <= i < |a| ==> a[i] == b[i] || (LiveOf(a[i], Input) && !Live(b[i]))
    ensures FdsOf(a, Drm, |a|) == FdsOf(b, Drm, |b|)
  {
    forall f ensures f in FdsOf(a, Drm, |a|) <==> f in FdsOf(b, Drm, |b|) {
      if i :| 0 <= i < |a| && LiveOf(a[i], Drm) && a[i].fd == f { assert LiveOf(b[i], Drm) && b[i].fd == f; }
      if i :| 0 <= i < |b| && LiveOf(b[i], Drm) && b[i].fd == f { assert LiveOf(a[i], Drm) && a[i].fd == f; }
    }
  }

  datatype Request =
    | OpenOf(o: Opening, kind: Kind)
    | CloseOf(device: (int, int))
    | DeactivateWith(drop: set<int>, revoke: set<int>)
    | ActivateWith(refuse: set<int>)

  function Step(t: Table, r: Request): Table {
    match r
    case OpenOf(o, kind) => Open(t, o, kind)
    case CloseOf(device) => Close(t, device)
    case DeactivateWith(drop, revoke) => Deactivate(t, drop, revoke)
    case ActivateWith(refuse) => Activate(t, refuse)
  }

  function Run(t: Table, rs: seq<Request>): Table
    decreases |rs|
  {
    if rs == [] then t else Run(Step(t, rs[0]), rs[1..])
  }

  /** No device is opened while it is open. */
  predicate OpensOnce(t: Table, rs: seq<Request>)
    decreases |rs|
  {
    rs != [] ==>
      && (rs[0].OpenOf? ==> Honest(t, rs[0].o) && !(Opens(t, rs[0].o) && IsOpen(t, rs[0].o.device)))
      && OpensOnce(Step(t, rs[0]), rs[1..])
  }

  /**
   Over every such history the descriptors open are exactly the live slots', and each closes by
   its own device number.
   */
  lemma {:induction false} HistoriesStayInOrder(t: Table, rs: seq<Request>)
    requires Inv(t) && OpensOnce(t, rs)
    ensures Inv(Run(t, rs))
    decreases |rs|
  {
    if rs != [] {
      match rs[0] {
        case OpenOf(o, kind) => OpenKeepsExactly(t, o, kind);
        case CloseOf(device) => CloseKeeps(t, device);
        case DeactivateWith(drop, revoke) => DeactivateKeeps(t, drop, revoke);
        case ActivateWith(refuse) => ActivateKeeps(t, refuse);
      }
      HistoriesStayInOrder(Step(t, rs[0]), rs[1..]);
    }
  }

  lemma RunsOn(t: Table, r: Request, rs: seq<Request>)
    ensures Run(t, [r] + rs) == Run(Step(t, r), rs)
  {
    assert ([r] + rs)[1..] == rs;
  }

  /**
   A session: a device opened as DRM master stays open while the terminal is away, and is master
   again after it, until it is closed.
   */
  lemma Session(t: Table, o: Opening)
    requires Inv(t) && Honest(t, o) && Opens(t, o) && !IsOpen(t, o.device) && o.master
    ensures
      var away := Run(t, [OpenOf(o, Drm)] + [DeactivateWith({}, {})]);
      var back := Run(away, [ActivateWith({})] + []);
      var closed := Run(back, [CloseOf(o.device)] + []);
      && o.fd in away.held && away.masters == {}
      && o.fd in back.held && o.fd in back.masters
      && o.fd !in closed.held && o.fd !in closed.masters
  {
    var a := Open(t, o, Drm);
    var b := Deactivate(a, {}, {});
    assert [DeactivateWith({}, {})] + [] == [DeactivateWith({}, {})];
    RunsOn(t, OpenOf(o, Drm), [DeactivateWith({}, {})]);
    RunsOn(a, DeactivateWith({}, {}), []);
    RunsOn(b, ActivateWith({}), []);
    RunsOn(Activate(b, {}), CloseOf(o.device), []);
    OpenKeeps(t, o, Drm);
    DeactivateExactly(a, {}, {});
    OpenThenLeave(t, o, Drm, {}, {});
    BackAndClosed(t, o);
  }

  lemma BackAndClosed(t: Table, o: Opening)
    requires Inv(t) && Honest(t, o) && Opens(t, o) && !IsOpen(t, o.device)
    ensures
      var c := Activate(Deactivate(Open(t, o, Drm), {}, {}), {});
      && o.fd in c.held && o.fd in c.masters
      && o.fd !in Close(c, o.device).held && o.fd !in Close(c, o.device).masters
  {
    var a := Open(t, o, Drm);
    var k := OpenedSlot(t, o, Drm);
    OpenKeeps(t, o, Drm);
    ReturnExactly(a, {}, {}, {});
    var c := Activate(Deactivate(a, {}, {}), {});
    assert c.slots[k] == a.slots[k] == Slot(o.device, o.fd, Drm);
    assert a.slots[k].fd in FdsOf(a.slots, Drm, |a.slots|);
    SlotOkAt(c, o.device, k);
  }

  function Empty(): Table {
    Table(seq(SLOTS, _ => Slot((-1, -1), -1, Input)), {}, {})
  }

  lemma EmptyInv()
    ensures Inv(Empty())
  {
    forall i: nat, j: nat ensures SlotOk(Empty().slots, i, j) {}
  }

  /** A device opened twice: both closes find the first slot, and the second descriptor stays open. */
  lemma DoubleOpenLeaks(device: (int, int))
    ensures
      var two := Open(Open(Empty(), Opened(device, 5, false), Input), Opened(device, 6, false), Input);
      Close(Close(two, device), device).held == {6}
  {
    var one := Open(Empty(), Opened(device, 5, false), Input);
    var two := Open(one, Opened(device, 6, false), Input);
    assert FirstFree(Empty().slots) == 0;
    assert FirstFree(one.slots) == 1 by { assert !Live(one.slots[1]); }
    assert two.slots[0] == Slot(device, 5, Input);
    assert FirstOf(two.slots, device) == 0;
    var three := Close(two, device);
    assert three.slots[0].device == device;
    assert FirstOf(three.slots, device) == 0;
  }

  /** The child process's table, searched and updated in place. */
  class Child {
    const fds: array<Slot>
    var held: set<int>
    var masters: set<int>

    constructor ()
      ensures Snapshot() == Empty() && Inv(Snapshot()) && fresh(fds)
    {
      fds := new Slot[SLOTS](_ => Slot((-1, -1), -1, Input));
      held, masters := {}, {};
      new;
      assert fds[..] == Empty().slots;
      EmptyInv();
    }

    function Snapshot(): Table
      reads this, fds
    {
      Table(fds[..], held, masters)
    }

    method FdOpen(o: Opening, kind: Kind) returns (fd: int)
      modifies `held, `masters, fds
      ensures Snapshot() == Open(old(Snapshot()), o, kind)
      ensures fd == if Opens(old(Snapshot()), o) then o.fd else -1
    {
      var k := 0;
      while k < fds.Length && Live(fds[k])
        invariant k <= FirstFree(fds[..])
      {
        assert Live(fds[..][k]);
        k := k + 1;
      }
      if k == fds.Length || o.Refused? { return -1; }
      fds[k] := Slot(o.device, o.fd, kind);
      held := held + {o.fd};
      if kind == Drm && o.master { masters := masters + {o.fd}; }
      assert fds[..] == old(fds[..])[k := Slot(o.device, o.fd, kind)];
      return o.fd;
    }

    method FdClose(device: (int, int))
      modifies `held, `masters, fds
      ensures Snapshot() == Close(old(Snapshot()), device)
    {
      var k := 0;
      while k < fds.Length && fds[k].device != device
        invariant k <= FirstOf(fds[..], device)
      {
        assert fds[..][k].device != device;
        k := k + 1;
      }
      if k == fds.Length { return; }
      if fds[k].kind == Drm { masters := masters - {fds[k].fd}; }
      held := held - {fds[k].fd};
      fds[k] := fds[k].(fd := -1);
      assert fds[..] == old(fds[..])[k := old(fds[k]).(fd := -1)];
    }

    method DropMasters(drop: set<int>) returns (ok: bool)
      modifies `masters
      ensures
        var k := FirstFailing(fds[..], Drm, drop);
        ok == (k == fds.Length) && masters == old(masters) - FdsOf(fds[..], Drm, k)
    {
      var i := 0;
      while i < fds.Length
        invariant i <= FirstFailing(fds[..], Drm, drop)
        invariant masters == old(masters) - FdsOf(fds[..], Drm, i)
      {
        assert fds[..][i] == fds[i];
        if LiveOf(fds[i], Drm) {
          if fds[i].fd in drop {
            assert i == FirstFailing(fds[..], Drm, drop);
            return false;
          }
          masters := masters - {fds[i].fd};
          assert FdsOf(fds[..], Drm, i + 1) == FdsOf(fds[..], Drm, i) + {fds[i].fd};
        } else {
          assert FdsOf(fds[..], Drm, i + 1) == FdsOf(fds[..], Drm, i);
        }
        i := i + 1;
      }
      return true;
    }

    method SetMasters(refuse: set<int>) returns (ok: bool)
      modifies `masters
      ensures Snapshot() == Activate(old(Snapshot()), refuse)
      ensures ok == Activated(old(Snapshot()), refuse)
    {
      var i := 0;
      while i < fds.Length
        invariant i <= FirstFailing(fds[..], Drm, refuse)
        invariant masters == old(masters) + FdsOf(fds[..], Drm, i)
      {
        assert fds[..][i] == fds[i];
        if LiveOf(fds[i], Drm) {
          if fds[i].fd in refuse {
            assert i == FirstFailing(fds[..], Drm, refuse);
            return false;
          }
          masters := masters + {fds[i].fd};
          assert FdsOf(fds[..], Drm, i + 1) == FdsOf(fds[..], Drm, i) + {fds[i].fd};
        } else {
          assert FdsOf(fds[..], Drm, i + 1) == FdsOf(fds[..], Drm, i);
        }
        i := i + 1;
      }
      return true;
    }

    method RevokeInputs(revoke: set<int>) returns (ok: bool)
      modifies `held, fds
      ensures
        var m := FirstFailing(old(fds[..]), Input, revoke);
        && ok == (m == fds.Length) && held == old(held) - FdsOf(old(fds[..]), Input, m)
        && fds[..] == Revoked(old(fds[..]), m)
    {
      ghost var before := fds[..];
      var i := 0;
      while i < fds.Length
        invariant i <= FirstFailing(before, Input, revoke)
        invariant fds[..] == Revoked(before, i)
        invariant held == old(held) - FdsOf(before, Input, i)
      {
        assert fds[..][i] == fds[i] == before[i];
        if LiveOf(fds[i], Input) {
          if fds[i].fd in revoke {
            assert i == FirstFailing(before, Input, revoke);
            return false;
          }
          held := held - {fds[i].fd};
          assert FdsOf(before, Input, i + 1) == FdsOf(before, Input, i) + {before[i].fd};
          fds[i] := fds[i].(fd := -1);
          assert fds[..] == Revoked(before, i)[i := before[i].(fd := -1)];
        } else {
          assert FdsOf(before, Input, i + 1) == FdsOf(before, Input, i);
        }
        assert fds[..] == Revoked(before, i + 1);
        i := i + 1;
      }
      return true;
    }

    /** activate; `tty` is the answer of the terminal, which is asked only when every descriptor is master. */
    method EnterTerminal(refuse: set<int>, tty: bool) returns (ok: bool)
      modifies `masters
      ensures Snapshot() == Activate(old(Snapshot()), refuse)
      ensures ok == (Activated(old(Snapshot()), refuse) && tty)
    {
      var set_ := SetMasters(refuse);
      return set_ && tty;
    }

    /** deactivate; `tty` is the answer of the terminal, which is asked only when both loops succeed. */
    method LeaveTerminal(drop: set<int>, revoke: set<int>, tty: bool) returns (ok: bool)
      modifies `held, `masters, fds
      ensures Snapshot() == Deactivate(old(Snapshot()), drop, revoke)
      ensures ok == (Deactivated(old(Snapshot()), drop, revoke) && tty)
    {
      var dropped := DropMasters(drop);
      if !dropped { return false; }
      var revoked := RevokeInputs(revoke);
      if !revoked { return false; }
      return tty;
    }
  }
}
