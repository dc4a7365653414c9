/**
 Frame callbacks: requested on a surface, committed with its state, collected into an
 output's queue when the surface tree is drawn there or flushed, and answered after that
 output's next swap.
 */
module FrameCallbacks {
  import opened Basics

  type Id = nat

  /** A callback of one surface.  Callbacks and surfaces are numbered anew when they are created. */
  datatype Callback = Callback(surface: Id, number: nat)

  /** `issued` remembers every callback of the living surfaces; `live` holds the resources not yet released. */
  datatype Callbacks = Callbacks(
    pending: map<Id, seq<Callback>>, committed: map<Id, seq<Callback>>,
    queues: map<Id, seq<Callback>>, sent: seq<Callback>,
    issued: map<Id, seq<Callback>>, live: set<Callback>, next: nat)

  /** The callbacks waiting in the pool of output o. */
  function Queue(c: Callbacks, o: Id): seq<Callback> {
    if o in c.queues then c.queues[o] else []
  }

  // ------------------------------------------------------------- operations

  /** wl_surface.frame. */
  function Request(c: Callbacks, s: Id): Callbacks
    requires s in c.pending && s in c.issued
  {
    var a := Callback(s, c.next);
    c.(pending := c.pending[s := c.pending[s] + [a]], issued := c.issued[s := c.issued[s] + [a]],
       live := c.live + {a}, next := c.next + 1)
  }

  /** The part of commit_state that moves the callbacks of one surface. */
  function Commit(c: Callbacks, s: Id): Callbacks {
    if s in c.pending && s in c.committed then
      c.(pending := c.pending[s := []], committed := c.committed[s := c.committed[s] + c.pending[s]])
    else c
  }

  /** Drawing one surface on output o, or flushing it there; a number that no longer resolves is skipped. */
  function Collect(c: Callbacks, s: Id, o: Id): Callbacks {
    if s in c.committed then
      c.(committed := c.committed[s := []], queues := c.queues[o := Queue(c, o) + c.committed[s]])
    else c
  }

  /** Answering the front of output o's queue; a released callback is passed over. */
  function AnswerOne(c: Callbacks, o: Id): Callbacks
    requires Queue(c, o) != []
  {
    var a, rest := Queue(c, o)[0], c.queues[o := Queue(c, o)[1..]];
    if a in c.live then c.(queues := rest, sent := c.sent + [a], live := c.live - {a}) else c.(queues := rest)
  }

  function Create(c: Callbacks, s: Id): Callbacks {
    c.(pending := c.pending[s := []], committed := c.committed[s := []], issued := c.issued[s := []])
  }

  /** wlc_surface_release: its callbacks are released wherever they are, the queues keep dead numbers. */
  function Destroy(c: Callbacks, s: Id): Callbacks {
    c.(pending := c.pending - {s}, committed := c.committed - {s}, issued := c.issued - {s},
       live := set a | a in c.live && a.surface != s)
  }

  // -------------------------------------------------------------- invariant

  datatype Place = Answered | Waiting(output: Id) | Committed | Pending

  predicate IsAt(c: Callbacks, a: Callback, p: Place) {
    match p
    case Answered => a in c.sent
    case Waiting(o) => a in Queue(c, o)
    case Committed => a.surface in c.committed && a in c.committed[a.surface]
    case Pending => a.surface in c.pending && a in c.pending[a.surface]
  }

  predicate Issued(c: Callbacks, a: Callback) {
    a.surface in c.issued && a in c.issued[a.surface]
  }

  /** A callback of a living surface is in exactly one place. */
  ghost predicate OnePlace(c: Callbacks, a: Callback) {
    && (exists p :: IsAt(c, a, p))
    && (forall p, q :: IsAt(c, a, p) && IsAt(c, a, q) ==> p == q)
  }

  predicate Rising(list: seq<Callback>, s: Id, next: nat) {
    && (forall i :: 0 <= i < |list| ==> list[i].surface == s && list[i].number < next)
    && (forall i, j :: 0 <= i < j < |list| ==> list[i].number < list[j].number)
  }

  /** Whatever is anywhere has been issued, unless its surface is gone. */
  predicate KnownAt(c: Callbacks, a: Callback, p: Place) {
    IsAt(c, a, p) && a.surface in c.issued ==> Issued(c, a)
  }

  predicate Lists(c: Callbacks, s: Id)
    requires s in c.issued && s in c.committed && s in c.pending
  {
    && Rising(c.issued[s], s, c.next) && Distinct(c.committed[s]) && Distinct(c.pending[s])
    && (forall a :: a in c.committed[s] ==> a in c.issued[s])
    && (forall a :: a in c.pending[s] ==> a in c.issued[s])
  }

  /** The lists of every living surface are in order, and no pool holds a callback twice. */
  ghost predicate Listed(c: Callbacks) {
    && c.pending.Keys == c.issued.Keys && c.committed.Keys == c.issued.Keys
    && (forall s :: s in c.issued ==> Lists(c, s))
    && (forall o :: Distinct(Queue(c, o))) && Distinct(c.sent)
  }

  ghost predicate Placed(c: Callbacks) {
    && (forall a, p :: KnownAt(c, a, p))
    && (forall a :: Issued(c, a) ==> OnePlace(c, a))
  }

  /**
   Every callback of a living surface is in one place, once; a resource lives until its answer
   or its surface's end.
   */
  ghost predicate Inv(c: Callbacks) {
    && Listed(c) && Placed(c)
    && (forall a :: a in c.live <==> Issued(c, a) && a !in c.sent)
  }

  /** From c to r the given callbacks have gone from place p to place q, and nothing else has changed its place. */
  ghost predicate Moved(c: Callbacks, r: Callbacks, moved: seq<Callback>, p: Place, q: Place) {
    && r.issued == c.issued && p != q
    && (forall a :: a in moved ==> IsAt(c, a, p) && IsAt(r, a, q) && !IsAt(r, a, p))
    && (forall a, x :: !(a in moved && (x == p || x == q)) ==> IsAt(r, a, x) == IsAt(c, a, x))
  }

  lemma MovedPlaced(c: Callbacks, r: Callbacks, moved: seq<Callback>, p: Place, q: Place)
    requires Placed(c) && Moved(c, r, moved, p, q)
    ensures Placed(r)
  {
    forall a, x ensures KnownAt(r, a, x) { assert KnownAt(c, a, x) && KnownAt(c, a, p); }
    forall a | Issued(r, a) ensures OnePlace(r, a) {
      assert OnePlace(c, a);
      var x :| IsAt(c, a, x);
      if a in moved { assert IsAt(c, a, p) && IsAt(r, a, q); } else { assert IsAt(r, a, x); }
    }
  }

  /** Nothing of a living surface is in two places. */
  lemma Apart(c: Callbacks, a: Callback, p: Place, q: Place)
    requires Placed(c) && Issued(c, a) && IsAt(c, a, p) && p != q
    ensures !IsAt(c, a, q)
  {
    assert OnePlace(c, a);
  }

  /** One pool emptied into another stays without repetition. */
  lemma DistinctCat(x: seq<Callback>, y: seq<Callback>)
    requires Distinct(x) && Distinct(y) && forall a :: a in y ==> a !in x
    ensures Distinct(x + y)
  {
    forall i, j | 0 <= i < j < |x + y| ensures (x + y)[i] != (x + y)[j] {
      if i < |x| <= j { assert y[j - |x|] in y; }
    }
  }

  lemma PendingOwn(c: Callbacks, s: Id)
    requires Listed(c) && s in c.issued
    ensures forall a :: a in c.pending[s] ==> a.surface == s && Issued(c, a)
    ensures forall a :: a in c.committed[s] ==> a.surface == s && Issued(c, a)
  {
    assert Lists(c, s);
  }

  lemma CommitInv(c: Callbacks, s: Id)
    requires Inv(c)
    ensures Inv(Commit(c, s))
  {
    if s in c.issued {
      var r := Commit(c, s);
      PendingOwn(c, s);
      assert Moved(c, r, c.pending[s], Pending, Committed);
      MovedPlaced(c, r, c.pending[s], Pending, Committed);
      forall a | a in c.pending[s] ensures a !in c.committed[s] { Apart(c, a, Pending, Committed); }
      CommitListed(c, s);
    }
  }

  lemma CommitListed(c: Callbacks, s: Id)
    requires Listed(c) && s in c.issued && forall a :: a in c.pending[s] ==> a !in c.committed[s]
    ensures Listed(Commit(c, s))
  {
    var r := Commit(c, s);
    assert Lists(c, s);
    DistinctCat(c.committed[s], c.pending[s]);
    forall t | t in r.issued ensures Lists(r, t) { CommitLists(c, s, t); }
    forall o ensures Distinct(Queue(r, o)) { assert Queue(r, o) == Queue(c, o); }
  }

  lemma CommitLists(c: Callbacks, s: Id, t: Id)
    requires c.pending.Keys == c.issued.Keys == c.committed.Keys && s in c.issued && t in c.issued
    requires Lists(c, s) && Lists(c, t) && Distinct(c.committed[s] + c.pending[s])
    ensures Lists(Commit(c, s), t)
  {
  }

  lemma CollectInv(c: Callbacks, s: Id, o: Id)
    requires Inv(c)
    ensures Inv(Collect(c, s, o))
  {
    if s in c.issued {
      var r := Collect(c, s, o);
      PendingOwn(c, s);
      assert Moved(c, r, c.committed[s], Committed, Waiting(o));
      MovedPlaced(c, r, c.committed[s], Committed, Waiting(o));
      forall a | a in c.committed[s] ensures a !in Queue(c, o) { Apart(c, a, Committed, Waiting(o)); }
      CollectListed(c, s, o);
    }
  }

  lemma CollectListed(c: Callbacks, s: Id, o: Id)
    requires Listed(c) && s in c.issued && forall a :: a in c.committed[s] ==> a !in Queue(c, o)
    ensures Listed(Collect(c, s, o))
  {
    var r := Collect(c, s, o);
    assert Lists(c, s);
    DistinctCat(Queue(c, o), c.committed[s]);
    forall t | t in r.issued ensures Lists(r, t) { assert Lists(c, t); }
    forall p ensures Distinct(Queue(r, p)) { assert p != o ==> Queue(r, p) == Queue(c, p); }
  }

  /** The head of a queue is live exactly if its surface is. */
  lemma HeadLives(c: Callbacks, o: Id)
    requires Inv(c) && Queue(c, o) != []
    ensures var a := Queue(c, o)[0]; a in c.live <==> a.surface in c.issued
    ensures var a := Queue(c, o)[0]; a in c.live ==> a !in c.sent
  {
    var a := Queue(c, o)[0];
    assert IsAt(c, a, Waiting(o)) && KnownAt(c, a, Waiting(o));
    if a.surface in c.issued { Apart(c, a, Waiting(o), Answered); }
  }

  lemma AnswerInv(c: Callbacks, o: Id)
    requires Inv(c) && Queue(c, o) != []
    ensures Inv(AnswerOne(c, o))
  {
    var r, a := AnswerOne(c, o), Queue(c, o)[0];
    HeadLives(c, o);
    AnswerListed(c, o);
    TailLacksHead(Queue(c, o));
    if a in c.live {
      assert Moved(c, r, [a], Waiting(o), Answered);
      MovedPlaced(c, r, [a], Waiting(o), Answered);
    } else {
      DroppedPlaced(c, r, a, Waiting(o));
    }
  }

  lemma TailLacksHead(list: seq<Callback>)
    requires list != [] && Distinct(list)
    ensures forall a :: a in list[1..] <==> a in list && a != list[0]
    ensures Distinct(list[1..])
  {
  }

  /** A callback whose surface is gone may leave its place for good. */
  lemma DroppedPlaced(c: Callbacks, r: Callbacks, a: Callback, p: Place)
    requires Placed(c) && r.issued == c.issued && a.surface !in c.issued
    requires forall b, x :: !(b == a && x == p) ==> IsAt(r, b, x) == IsAt(c, b, x)
    ensures Placed(r)
  {
    forall b, x ensures KnownAt(r, b, x) { assert KnownAt(c, b, x); }
    forall b | Issued(r, b) ensures OnePlace(r, b) {
      assert OnePlace(c, b);
      var x :| IsAt(c, b, x);
      assert IsAt(r, b, x);
    }
  }

  lemma AnswerListed(c: Callbacks, o: Id)
    requires Inv(c) && Queue(c, o) != []
    ensures Listed(AnswerOne(c, o))
  {
    var r := AnswerOne(c, o);
    HeadLives(c, o);
    TailLacksHead(Queue(c, o));
    forall t | t in r.issued ensures Lists(r, t) { assert Lists(c, t); }
    forall p ensures Distinct(Queue(r, p)) { assert p != o ==> Queue(r, p) == Queue(c, p); }
  }

  lemma RequestInv(c: Callbacks, s: Id)
    requires Inv(c) && s in c.issued
    ensures Inv(Request(c, s))
  {
    var a := Callback(s, c.next);
    FreshIsNowhere(c, s);
    RequestListed(c, s);
    RequestPlaced(c, s);
    assert !IsAt(c, a, Answered);
  }

  lemma RequestListed(c: Callbacks, s: Id)
    requires Listed(c) && s in c.issued
    ensures Listed(Request(c, s))
  {
    var r := Request(c, s);
    forall t | t in r.issued ensures Lists(r, t) {
      assert Lists(c, t);
      RequestLists(c, s, t);
    }
    forall o ensures Distinct(Queue(r, o)) { assert Queue(r, o) == Queue(c, o); }
  }

  lemma FreshIsNowhere(c: Callbacks, s: Id)
    requires Inv(c) && s in c.issued
    ensures !Issued(c, Callback(s, c.next)) && forall p :: !IsAt(c, Callback(s, c.next), p)
  {
    var a := Callback(s, c.next);
    assert Lists(c, s);
    forall p ensures !IsAt(c, a, p) { assert KnownAt(c, a, p); }
  }

  lemma RequestLists(c: Callbacks, s: Id, t: Id)
    requires c.pending.Keys == c.issued.Keys == c.committed.Keys && s in c.issued && t in c.issued && Lists(c, t)
    ensures Lists(Request(c, s), t)
  {
    var a := Callback(s, c.next);
    assert t == s ==> a !in c.pending[s];
  }

  lemma RequestPlaced(c: Callbacks, s: Id)
    requires Listed(c) && Placed(c) && s in c.issued && forall p :: !IsAt(c, Callback(s, c.next), p)
    ensures Placed(Request(c, s))
  {
    var r, a := Request(c, s), Callback(s, c.next);
    forall b, p ensures IsAt(r, b, p) == (IsAt(c, b, p) || (b == a && p == Pending)) {}
    forall b, p ensures KnownAt(r, b, p) { assert KnownAt(c, b, p); }
    forall b | Issued(r, b) ensures OnePlace(r, b) {
      if b == a {
        assert IsAt(r, a, Pending);
      } else {
        assert Issued(c, b) && OnePlace(c, b);
        var x :| IsAt(c, b, x);
        assert IsAt(r, b, x);
      }
    }
  }

  /** The lists of the surfaces other than s, and the queues, are as before. */
  lemma OthersListed(c: Callbacks, r: Callbacks, s: Id)
    requires Listed(c) && r.queues == c.queues && r.sent == c.sent && r.next == c.next
    requires r.pending.Keys == r.issued.Keys == r.committed.Keys
    requires r.issued.Keys - {s} <= c.issued.Keys
    requires forall t :: t in r.issued && t != s ==>
      r.issued[t] == c.issued[t] && r.pending[t] == c.pending[t] && r.committed[t] == c.committed[t]
    requires s in r.issued ==> r.issued[s] == r.pending[s] == r.committed[s] == []
    ensures Listed(r)
  {
    forall t | t in r.issued ensures Lists(r, t) { assert t != s ==> Lists(c, t); }
    forall o ensures Distinct(Queue(r, o)) { assert Queue(r, o) == Queue(c, o); }
  }

  lemma DestroyInv(c: Callbacks, s: Id)
    requires Inv(c)
    ensures Inv(Destroy(c, s))
  {
    OthersListed(c, Destroy(c, s), s);
    OthersPlaced(c, Destroy(c, s), s);
  }

  /** Whatever happens to s alone, the callbacks of the others keep their places. */
  lemma OthersPlaced(c: Callbacks, r: Callbacks, s: Id)
    requires Placed(c) && forall b: Callback, x :: b.surface != s ==> IsAt(r, b, x) == IsAt(c, b, x)
    requires forall t :: t != s ==> (t in r.issued <==> t in c.issued) && (t in c.issued ==> r.issued[t] == c.issued[t])
    requires s in r.issued ==> r.issued[s] == [] && forall b: Callback, x :: b.surface == s ==> !IsAt(r, b, x)
    ensures Placed(r)
  {
    forall b: Callback, x ensures KnownAt(r, b, x) { assert KnownAt(c, b, x); }
    forall b | Issued(r, b) ensures OnePlace(r, b) {
      assert Issued(c, b) && OnePlace(c, b);
      var x :| IsAt(c, b, x);
      assert IsAt(r, b, x);
    }
  }

  /** No callback with that surface number is anywhere. */
  ghost predicate Unused(c: Callbacks, s: Id) {
    s !in c.issued && forall a: Callback, p :: a.surface == s ==> !IsAt(c, a, p)
  }

  lemma CreatePlaced(c: Callbacks, s: Id)
    requires Placed(c) && Unused(c, s)
    ensures Placed(Create(c, s))
  {
    forall b: Callback, x | b.surface == s ensures !IsAt(Create(c, s), b, x) { assert !IsAt(c, b, x); }
    OthersPlaced(c, Create(c, s), s);
  }

  lemma CreateInv(c: Callbacks, s: Id)
    requires Inv(c) && Unused(c, s)
    ensures Inv(Create(c, s))
  {
    OthersListed(c, Create(c, s), s);
    CreatePlaced(c, s);
  }

  // ---------------------------------------------------------- trees and runs

  /** A surface with its subsurfaces; `follows` is set when it commits with its parent. */
  datatype Tree = Tree(id: Id, follows: bool, subs: seq<Tree>)

  /** The surfaces below t from position k of its list on, each after its own subsurfaces. */
  function PostOrder(t: Tree, k: nat): seq<Id>
    requires k <= |t.subs|
    decreases t, |t.subs| - k
  {
    if k == |t.subs| then [t.id] else PostOrder(t.subs[k], 0) + PostOrder(t, k + 1)
  }

  /** t itself, then the surfaces below it from position k on, each before its own subsurfaces. */
  function PreOrder(t: Tree, k: nat): seq<Id>
    requires k <= |t.subs|
    decreases t, |t.subs| - k
  {
    if k == |t.subs| then [] else ([t.subs[k].id] + PreOrder(t.subs[k], 0)) + PreOrder(t, k + 1)
  }

  /** The same, but only through subsurfaces that commit with their parent. */
  function CommitOrder(t: Tree, k: nat): seq<Id>
    requires k <= |t.subs|
    decreases t, |t.subs| - k
  {
    if k == |t.subs| then []
    else (if t.subs[k].follows then [t.subs[k].id] + CommitOrder(t.subs[k], 0) else []) + CommitOrder(t, k + 1)
  }

  function CollectAll(c: Callbacks, ids: seq<Id>, o: Id): Callbacks
    decreases |ids|
  {
    if ids == [] then c else CollectAll(Collect(c, ids[0], o), ids[1..], o)
  }

  function CommitAll(c: Callbacks, ids: seq<Id>): Callbacks
    decreases |ids|
  {
    if ids == [] then c else CommitAll(Commit(c, ids[0]), ids[1..])
  }

  function AnswerAll(c: Callbacks, o: Id): Callbacks
    decreases |Queue(c, o)|
  {
    if Queue(c, o) == [] then c else AnswerAll(AnswerOne(c, o), o)
  }

  lemma {:induction false} CollectAppend(c: Callbacks, a: seq<Id>, b: seq<Id>, o: Id)
    ensures CollectAll(c, a + b, o) == CollectAll(CollectAll(c, a, o), b, o)
    decreases |a|
  {
    if a == [] {
      assert a + b == b;
    } else {
      assert (a + b)[1..] == a[1..] + b;
      CollectAppend(Collect(c, a[0], o), a[1..], b, o);
    }
  }

  lemma {:induction false} CommitAppend(c: Callbacks, a: seq<Id>, b: seq<Id>)
    ensures CommitAll(c, a + b) == CommitAll(CommitAll(c, a), b)
    decreases |a|
  {
    if a == [] {
      assert a + b == b;
    } else {
      assert (a + b)[1..] == a[1..] + b;
      CommitAppend(Commit(c, a[0]), a[1..], b);
    }
  }

  lemma {:induction false} CollectAllInv(c: Callbacks, ids: seq<Id>, o: Id)
    requires Inv(c)
    ensures Inv(CollectAll(c, ids, o))
    decreases |ids|
  {
    if ids != [] {
      CollectInv(c, ids[0], o);
      CollectAllInv(Collect(c, ids[0], o), ids[1..], o);
    }
  }

  lemma {:induction false} CommitAllInv(c: Callbacks, ids: seq<Id>)
    requires Inv(c)
    ensures Inv(CommitAll(c, ids))
    decreases |ids|
  {
    if ids != [] {
      CommitInv(c, ids[0]);
      CommitAllInv(Commit(c, ids[0]), ids[1..]);
    }
  }

  lemma {:induction false} AnswerAllInv(c: Callbacks, o: Id)
    requires Inv(c)
    ensures Inv(AnswerAll(c, o)) && Queue(AnswerAll(c, o), o) == []
    decreases |Queue(c, o)|
  {
    if Queue(c, o) != [] {
      AnswerInv(c, o);
      AnswerAllInv(AnswerOne(c, o), o);
    }
  }

  /** Drawing, flushing and answering name the output they happen on. */
  datatype Event =
    | Created(id: Id)
    | Requested(id: Id)
    | CommittedTree(tree: Tree)
    | Rendered(tree: Tree, output: Id)
    | Flushed(tree: Tree, output: Id)
    | AnsweredOn(output: Id)
    | Destroyed(id: Id)

  /** Requests come on living surfaces, and the number of a new surface has not been used before. */
  ghost predicate Possible(c: Callbacks, e: Event) {
    && (e.Requested? ==> e.id in c.issued && e.id in c.pending)
    && (e.Created? ==> Unused(c, e.id))
  }

  /** The surfaces whose callbacks an event collects, in order. */
  function Collected(e: Event): seq<Id>
    requires e.Rendered? || e.Flushed?
  {
    if e.Rendered? then PostOrder(e.tree, 0) else [e.tree.id] + PreOrder(e.tree, 0)
  }

  ghost function Step(c: Callbacks, e: Event): Callbacks
    requires Possible(c, e)
  {
    match e
    case Created(s) => Create(c, s)
    case Requested(s) => Request(c, s)
    case CommittedTree(t) => CommitAll(c, [t.id] + CommitOrder(t, 0))
    case Rendered(t, o) => CollectAll(c, Collected(e), o)
    case Flushed(t, o) => CollectAll(c, Collected(e), o)
    case AnsweredOn(o) => AnswerAll(c, o)
    case Destroyed(s) => Destroy(c, s)
  }

  const START := Callbacks(map[], map[], map[], [], map[], {}, 0)

  ghost predicate PossibleRun(c: Callbacks, es: seq<Event>)
    decreases |es|
  {
    es == [] || (Possible(c, es[0]) && PossibleRun(Step(c, es[0]), es[1..]))
  }

  ghost function Run(c: Callbacks, es: seq<Event>): Callbacks
    requires PossibleRun(c, es)
    decreases |es|
  {
    if es == [] then c else Run(Step(c, es[0]), es[1..])
  }

  lemma StepInv(c: Callbacks, e: Event)
    requires Inv(c) && Possible(c, e)
    ensures Inv(Step(c, e))
  {
    match e
    case Created(s) => CreateInv(c, s);
    case Requested(s) => RequestInv(c, s);
    case CommittedTree(t) => CommitAllInv(c, [t.id] + CommitOrder(t, 0));
    case Rendered(t, o) => CollectAllInv(c, Collected(e), o);
    case Flushed(t, o) => CollectAllInv(c, Collected(e), o);
    case AnsweredOn(o) => AnswerAllInv(c, o);
    case Destroyed(s) => DestroyInv(c, s);
  }

  lemma {:induction false} RunInv(c: Callbacks, es: seq<Event>)
    requires Inv(c) && PossibleRun(c, es)
    ensures Inv(Run(c, es))
    decreases |es|
  {
    if es != [] {
      StepInv(c, es[0]);
      RunInv(Step(c, es[0]), es[1..]);
    }
  }

  lemma StartInv()
    ensures Inv(START)
  {
    forall a, p ensures KnownAt(START, a, p) {}
  }

  /**
   After any run: each callback of a living surface is in exactly one place, be it answered,
   in one output's queue, committed or pending; no place holds it twice, so none is answered
   twice; and it is live until it is answered.
   */
  lemma EveryRunConserves(es: seq<Event>)
    requires PossibleRun(START, es)
    ensures
      var c := Run(START, es);
      && Distinct(c.sent) && (forall o :: Distinct(Queue(c, o)))
      && (forall a :: Issued(c, a) ==> OnePlace(c, a) && (a in c.live <==> a !in c.sent))
  {
    StartInv();
    RunInv(START, es);
  }
}
