/**
 Which surfaces of a tree an event reaches: drawing and flushing take the callbacks of every
 surface of the tree at any depth and of no other, in the order of the tree; a commit takes the
 surfaces that are reached through subsurfaces that commit with their parent.
 */
module FrameCallbacksTrees {
  import opened Basics
  import opened FrameCallbacks

  predicate InTree(t: Tree, s: Id) {
    t.id == s || exists k :: 0 <= k < |t.subs| && InTree(t.subs[k], s)
  }

  /** s is t, or is reached from it through subsurfaces each of which commits with its parent. */
  predicate CommitsWith(t: Tree, s: Id) {
    t.id == s || exists k :: 0 <= k < |t.subs| && t.subs[k].follows && CommitsWith(t.subs[k], s)
  }

  /** u is t or one of the trees in it. */
  predicate Part(t: Tree, u: Tree) {
    t == u || exists k :: 0 <= k < |t.subs| && Part(t.subs[k], u)
  }

  /** No surface is in the tree twice. */
  ghost predicate Unique(t: Tree) {
    forall k :: 0 <= k < |t.subs| ==>
      && Unique(t.subs[k]) && !InTree(t.subs[k], t.id)
      && forall m, s :: k < m < |t.subs| && InTree(t.subs[k], s) ==> !InTree(t.subs[m], s)
  }

  // ------------------------------------------------------- what is reached

  lemma {:induction false} PostOrderReaches(t: Tree, k: nat, s: Id)
    requires k <= |t.subs|
    ensures s in PostOrder(t, k) <==> t.id == s || exists j :: k <= j < |t.subs| && InTree(t.subs[j], s)
    decreases t, |t.subs| - k
  {
    if k < |t.subs| {
      PostOrderReaches(t.subs[k], 0, s);
      PostOrderReaches(t, k + 1, s);
    }
  }

  lemma {:induction false} PreOrderReaches(t: Tree, k: nat, s: Id)
    requires k <= |t.subs|
    ensures s in PreOrder(t, k) <==> exists j :: k <= j < |t.subs| && InTree(t.subs[j], s)
    decreases t, |t.subs| - k
  {
    if k < |t.subs| {
      PreOrderReaches(t.subs[k], 0, s);
      PreOrderReaches(t, k + 1, s);
    }
  }

  lemma {:induction false} CommitOrderReaches(t: Tree, k: nat, s: Id)
    requires k <= |t.subs|
    ensures s in CommitOrder(t, k) <==>
      exists j :: k <= j < |t.subs| && t.subs[j].follows && CommitsWith(t.subs[j], s)
    decreases t, |t.subs| - k
  {
    if k < |t.subs| {
      CommitOrderReaches(t.subs[k], 0, s);
      CommitOrderReaches(t, k + 1, s);
    }
  }

  lemma CollectedReaches(e: Event, s: Id)
    requires e.Rendered? || e.Flushed?
    ensures s in Collected(e) <==> InTree(e.tree, s)
  {
    PostOrderReaches(e.tree, 0, s);
    PreOrderReaches(e.tree, 0, s);
  }

  /** What collecting a list of surfaces leaves of the others, and of the queues. */
  lemma {:induction false} CollectAllIs(c: Callbacks, ids: seq<Id>, o: Id)
    ensures
      var r := CollectAll(c, ids, o);
      && r == c.(committed := r.committed, queues := r.queues) && r.committed.Keys == c.committed.Keys
      && (forall s :: s in c.committed ==> r.committed[s] == if s in ids then [] else c.committed[s])
      && (forall p :: p != o ==> Queue(r, p) == Queue(c, p))
      && Queue(c, o) <= Queue(r, o)
      && (forall a :: a in Queue(r, o) <==>
        a in Queue(c, o) || exists s :: s in ids && s in c.committed && a in c.committed[s])
    decreases |ids|
  {
    if ids != [] { CollectAllIs(Collect(c, ids[0], o), ids[1..], o); }
  }

  /**
   Drawing or flushing a tree empties the committed callbacks of each of its surfaces, at any
   depth, behind what the output's queue held, and touches nothing else.
   */
  lemma TreeIsCollected(c: Callbacks, e: Event)
    requires e.Rendered? || e.Flushed?
    ensures
      var r := Step(c, e);
      && r == c.(committed := r.committed, queues := r.queues) && r.committed.Keys == c.committed.Keys
      && (forall s :: s in c.committed ==> r.committed[s] == if InTree(e.tree, s) then [] else c.committed[s])
      && (forall p :: p != e.output ==> Queue(r, p) == Queue(c, p))
      && Queue(c, e.output) <= Queue(r, e.output)
      && (forall a :: a in Queue(r, e.output) <==>
        a in Queue(c, e.output) || exists s :: InTree(e.tree, s) && s in c.committed && a in c.committed[s])
  {
    CollectAllIs(c, Collected(e), e.output);
    forall s ensures s in Collected(e) <==> InTree(e.tree, s) { CollectedReaches(e, s); }
  }

  lemma {:induction false} CommitAllIs(c: Callbacks, ids: seq<Id>)
    ensures
      var r := CommitAll(c, ids);
      && r == c.(pending := r.pending, committed := r.committed)
      && r.pending.Keys == c.pending.Keys && r.committed.Keys == c.committed.Keys
      && (forall s :: s in c.pending && s in c.committed ==>
        && r.pending[s] == (if s in ids then [] else c.pending[s])
        && r.committed[s] == if s in ids then c.committed[s] + c.pending[s] else c.committed[s])
    decreases |ids|
  {
    if ids != [] { CommitAllIs(Commit(c, ids[0]), ids[1..]); }
  }

  /** A commit moves the pending callbacks of exactly the surfaces that commit along, behind the committed ones. */
  lemma TreeIsCommitted(c: Callbacks, t: Tree)
    ensures
      var r := Step(c, CommittedTree(t));
      && r == c.(pending := r.pending, committed := r.committed)
      && r.pending.Keys == c.pending.Keys && r.committed.Keys == c.committed.Keys
      && (forall s :: s in c.pending && s in c.committed ==>
        && r.pending[s] == (if CommitsWith(t, s) then [] else c.pending[s])
        && r.committed[s] == if CommitsWith(t, s) then c.committed[s] + c.pending[s] else c.committed[s])
  {
    var ids := [t.id] + CommitOrder(t, 0);
    CommitAllIs(c, ids);
    forall s ensures s in ids <==> CommitsWith(t, s) { CommitOrderReaches(t, 0, s); }
  }

  // --------------------------------------------------------- in which order

  ghost predicate Precedes<T>(list: seq<T>, a: T, b: T) {
    exists i, j :: 0 <= i < j < |list| && list[i] == a && list[j] == b
  }

  lemma PrecedesWithin<T>(front: seq<T>, list: seq<T>, back: seq<T>, a: T, b: T)
    requires Precedes(list, a, b)
    ensures Precedes(front + list + back, a, b)
  {
    var i, j :| 0 <= i < j < |list| && list[i] == a && list[j] == b;
    var whole := front + list + back;
    assert whole[|front| + i] == a && whole[|front| + j] == b;
  }

  lemma PrecedesAcross<T>(front: seq<T>, back: seq<T>, a: T, b: T)
    requires a in front && b in back
    ensures Precedes(front + back, a, b)
  {
    var i :| 0 <= i < |front| && front[i] == a;
    var j :| 0 <= j < |back| && back[j] == b;
    assert (front + back)[i] == a && (front + back)[|front| + j] == b;
  }

  /** Drawing: what is below subsurface k of u comes before u, and before what is below later ones. */
  predicate DrawnBefore(u: Tree, k: nat, x: Id, y: Id)
    requires k < |u.subs|
  {
    InTree(u.subs[k], x) && (y == u.id || exists m :: k < m < |u.subs| && InTree(u.subs[m], y))
  }

  /** Flushing: u comes before what is below its subsurface k, and that before what is below later ones. */
  predicate FlushedBefore(u: Tree, k: nat, x: Id, y: Id)
    requires k < |u.subs|
  {
    if x == u.id then InTree(u.subs[k], y)
    else InTree(u.subs[k], x) && exists m :: k < m < |u.subs| && InTree(u.subs[m], y)
  }

  lemma {:induction false} PostOrderHere(u: Tree, i: nat, k: nat, x: Id, y: Id)
    requires i <= k < |u.subs| && DrawnBefore(u, k, x, y)
    ensures Precedes(PostOrder(u, i), x, y)
    decreases k - i
  {
    PostOrderReaches(u.subs[k], 0, x);
    PostOrderReaches(u, k + 1, y);
    if i == k {
      PrecedesAcross(PostOrder(u.subs[k], 0), PostOrder(u, k + 1), x, y);
    } else {
      PostOrderHere(u, i + 1, k, x, y);
      PrecedesWithin(PostOrder(u.subs[i], 0), PostOrder(u, i + 1), [], x, y);
      assert PostOrder(u.subs[i], 0) + PostOrder(u, i + 1) + [] == PostOrder(u, i);
    }
  }

  lemma {:induction false} PostOrderPart(t: Tree, i: nat, u: Tree, x: Id, y: Id)
    requires i <= |t.subs| && Precedes(PostOrder(u, 0), x, y)
    requires (i == 0 && t == u) || exists j :: i <= j < |t.subs| && Part(t.subs[j], u)
    ensures Precedes(PostOrder(t, i), x, y)
    decreases t, |t.subs| - i
  {
    if !(i == 0 && t == u) {
      var first, rest := PostOrder(t.subs[i], 0), PostOrder(t, i + 1);
      if Part(t.subs[i], u) {
        PostOrderPart(t.subs[i], 0, u, x, y);
        PrecedesWithin([], first, rest, x, y);
        assert [] + first + rest == PostOrder(t, i);
      } else {
        PostOrderPart(t, i + 1, u, x, y);
        PrecedesWithin(first, rest, [], x, y);
        assert first + rest + [] == PostOrder(t, i);
      }
    }
  }

  lemma {:induction false} PreOrderHere(u: Tree, i: nat, k: nat, x: Id, y: Id)
    requires i <= k < |u.subs| && x != u.id && FlushedBefore(u, k, x, y)
    ensures Precedes(PreOrder(u, i), x, y)
    decreases k - i
  {
    PreOrderReaches(u.subs[k], 0, x);
    PreOrderReaches(u, k + 1, y);
    var first := [u.subs[i].id] + PreOrder(u.subs[i], 0);
    if i == k {
      PrecedesAcross(first, PreOrder(u, k + 1), x, y);
    } else {
      PreOrderHere(u, i + 1, k, x, y);
      PrecedesWithin(first, PreOrder(u, i + 1), [], x, y);
      assert first + PreOrder(u, i + 1) + [] == PreOrder(u, i);
    }
  }

  lemma FlushHere(u: Tree, k: nat, x: Id, y: Id)
    requires k < |u.subs| && FlushedBefore(u, k, x, y)
    ensures Precedes([u.id] + PreOrder(u, 0), x, y)
  {
    if x == u.id {
      PreOrderReaches(u, 0, y);
      PrecedesAcross([u.id], PreOrder(u, 0), x, y);
    } else {
      PreOrderHere(u, 0, k, x, y);
      PrecedesWithin([u.id], PreOrder(u, 0), [], x, y);
      assert [u.id] + PreOrder(u, 0) + [] == [u.id] + PreOrder(u, 0);
    }
  }

  lemma {:induction false} PreOrderPart(t: Tree, i: nat, u: Tree, x: Id, y: Id)
    requires i <= |t.subs| && Precedes([u.id] + PreOrder(u, 0), x, y)
    requires exists j :: i <= j < |t.subs| && Part(t.subs[j], u)
    ensures Precedes(PreOrder(t, i), x, y)
    decreases t, |t.subs| - i, 0
  {
    var first, rest := [t.subs[i].id] + PreOrder(t.subs[i], 0), PreOrder(t, i + 1);
    if Part(t.subs[i], u) {
      FlushPart(t.subs[i], u, x, y);
      PrecedesWithin([], first, rest, x, y);
      assert [] + first + rest == PreOrder(t, i);
    } else {
      PreOrderPart(t, i + 1, u, x, y);
      PrecedesWithin(first, rest, [], x, y);
      assert first + rest + [] == PreOrder(t, i);
    }
  }

  lemma {:induction false} FlushPart(t: Tree, u: Tree, x: Id, y: Id)
    requires Part(t, u) && Precedes([u.id] + PreOrder(u, 0), x, y)
    ensures Precedes([t.id] + PreOrder(t, 0), x, y)
    decreases t, |t.subs| + 1
  {
    if t != u {
      PreOrderPart(t, 0, u, x, y);
      PrecedesWithin([t.id], PreOrder(t, 0), [], x, y);
      assert [t.id] + PreOrder(t, 0) + [] == [t.id] + PreOrder(t, 0);
    }
  }

  lemma {:induction false} PostOrderDistinct(t: Tree, k: nat)
    requires k <= |t.subs| && Unique(t)
    ensures Distinct(PostOrder(t, k))
    decreases t, |t.subs| - k
  {
    if k < |t.subs| {
      var first, rest := PostOrder(t.subs[k], 0), PostOrder(t, k + 1);
      PostOrderDistinct(t.subs[k], 0);
      PostOrderDistinct(t, k + 1);
      forall s | s in first ensures s !in rest {
        PostOrderReaches(t.subs[k], 0, s);
        PostOrderReaches(t, k + 1, s);
        assert InTree(t.subs[k], s);
      }
      DistinctAppend(first, rest);
    }
  }

  lemma {:induction false} PreOrderDistinct(t: Tree, k: nat)
    requires k <= |t.subs| && Unique(t)
    ensures Distinct(PreOrder(t, k))
    decreases t, |t.subs| - k, 0
  {
    if k < |t.subs| {
      var first, rest := [t.subs[k].id] + PreOrder(t.subs[k], 0), PreOrder(t, k + 1);
      FlushDistinct(t.subs[k]);
      PreOrderDistinct(t, k + 1);
      forall s | s in first ensures s !in rest {
        PreOrderReaches(t.subs[k], 0, s);
        PreOrderReaches(t, k + 1, s);
        assert InTree(t.subs[k], s);
      }
      DistinctAppend(first, rest);
    }
  }

  lemma {:induction false} FlushDistinct(t: Tree)
    requires Unique(t)
    ensures Distinct([t.id] + PreOrder(t, 0))
    decreases t, |t.subs| + 1
  {
    PreOrderDistinct(t, 0);
    PreOrderReaches(t, 0, t.id);
    DistinctAppend([t.id], PreOrder(t, 0));
  }

  lemma DistinctAppend(a: seq<Id>, b: seq<Id>)
    requires Distinct(a) && Distinct(b) && forall s :: s in a ==> s !in b
    ensures Distinct(a + b)
  {
    forall i, j | 0 <= i < j < |a + b| ensures (a + b)[i] != (a + b)[j] {
      if i < |a| <= j { assert a[i] in a && b[j - |a|] in b; }
    }
  }

  /** The callbacks that collecting a list of surfaces adds to the queue. */
  function Added(c: Callbacks, ids: seq<Id>): seq<Callback> {
    if ids == [] then []
    else (if ids[0] in c.committed then c.committed[ids[0]] else []) + Added(c, ids[1..])
  }

  lemma {:induction false} CollectAllAdds(c: Callbacks, ids: seq<Id>, o: Id)
    requires Distinct(ids)
    ensures Queue(CollectAll(c, ids, o), o) == Queue(c, o) + Added(c, ids)
    decreases |ids|
  {
    if ids != [] {
      var r := Collect(c, ids[0], o);
      CollectAllAdds(r, ids[1..], o);
      AddedSame(c, r, ids[1..]);
      var own := if ids[0] in c.committed then c.committed[ids[0]] else [];
      assert Queue(r, o) == Queue(c, o) + own;
    }
  }

  lemma {:induction false} AddedSame(c: Callbacks, r: Callbacks, ids: seq<Id>)
    requires forall s :: s in ids ==> (s in c.committed <==> s in r.committed)
    requires forall s :: s in ids && s in c.committed ==> c.committed[s] == r.committed[s]
    ensures Added(c, ids) == Added(r, ids)
  {
    if ids != [] { AddedSame(c, r, ids[1..]); }
  }

  lemma {:induction false} AddedHas(c: Callbacks, ids: seq<Id>, s: Id, a: Callback)
    requires s in ids && s in c.committed && a in c.committed[s]
    ensures a in Added(c, ids)
  {
    if ids[0] != s { AddedHas(c, ids[1..], s, a); }
  }

  lemma {:induction false} AddedInOrder(c: Callbacks, ids: seq<Id>, x: Id, y: Id, a: Callback, b: Callback)
    requires Precedes(ids, x, y) && x in c.committed && y in c.committed
    requires a in c.committed[x] && b in c.committed[y]
    ensures Precedes(Added(c, ids), a, b)
  {
    var i, j :| 0 <= i < j < |ids| && ids[i] == x && ids[j] == y;
    var own := if ids[0] in c.committed then c.committed[ids[0]] else [];
    if i == 0 {
      assert ids[1..][j - 1] == y;
      AddedHas(c, ids[1..], y, b);
      PrecedesAcross(own, Added(c, ids[1..]), a, b);
    } else {
      assert ids[1..][i - 1] == x && ids[1..][j - 1] == y;
      AddedInOrder(c, ids[1..], x, y, a, b);
      PrecedesWithin(own, Added(c, ids[1..]), [], a, b);
      assert own + Added(c, ids[1..]) + [] == Added(c, ids);
    }
  }

  /**
   Drawing queues the callbacks of all below a subsurface before those of its parent, and before
   those of all below the later siblings; flushing queues a surface before all below it, and the
   siblings in order too.
   */
  lemma TreeIsQueuedInOrder(c: Callbacks, e: Event, u: Tree, k: nat, x: Id, y: Id, a: Callback, b: Callback)
    requires (e.Rendered? || e.Flushed?) && Unique(e.tree) && Part(e.tree, u) && k < |u.subs|
    requires if e.Rendered? then DrawnBefore(u, k, x, y) else FlushedBefore(u, k, x, y)
    requires x in c.committed && y in c.committed && a in c.committed[x] && b in c.committed[y]
    ensures Precedes(Queue(Step(c, e), e.output), a, b)
  {
    var ids := Collected(e);
    if e.Rendered? {
      PostOrderDistinct(e.tree, 0);
      PostOrderHere(u, 0, k, x, y);
      PostOrderPart(e.tree, 0, u, x, y);
    } else {
      FlushDistinct(e.tree);
      FlushHere(u, k, x, y);
      FlushPart(e.tree, u, x, y);
    }
    CollectAllAdds(c, ids, e.output);
    AddedInOrder(c, ids, x, y, a, b);
    PrecedesWithin(Queue(c, e.output), Added(c, ids), [], a, b);
    assert Queue(c, e.output) + Added(c, ids) + [] == Queue(Step(c, e), e.output);
  }
}
