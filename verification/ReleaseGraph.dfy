/**
 Destructors that release other handles: a surface takes its view, buffers and callbacks with
 it, and a view its shell surface.  A handle still resolves while its destructor runs, so a
 destructor that comes back to it would run it again.
 */
module ReleaseGraph {
  import opened Basics

  type Handle = nat

  /** The handles that the destructor of each one releases, in order. */
  type Graph = map<Handle, seq<Handle>>

  /** Either a destructor has come back to a handle that is being destroyed, or what is left and what went, in order. */
  datatype Outcome = Reentered | Done(live: set<Handle>, order: seq<Handle>)

  function Refs(g: Graph, h: Handle): seq<Handle> {
    if h in g then g[h] else []
  }

  function Elems(s: seq<Handle>): set<Handle> {
    set x | x in s
  }

  predicate Keeps(live: set<Handle>, stack: seq<Handle>, r: Outcome) {
    r.Done? ==> r.live <= live && forall x :: x in stack && x in live ==> x in r.live
  }

  /** handle_release: the destructor first, then the handle goes; `stack` are those whose destructors are running. */
  function Release(g: Graph, live: set<Handle>, stack: seq<Handle>, h: Handle): (r: Outcome)
    ensures Keeps(live, stack, r)
    decreases live - Elems(stack), 0, 0
  {
    if h !in live then Done(live, [])
    else if h in stack then Reentered
    else
      assert h in live - Elems(stack) && h in Elems(stack + [h]);
      assert forall x :: x in stack ==> x in stack + [h];
      var inner := ReleaseAll(g, live, stack + [h], Refs(g, h));
      if inner.Reentered? then Reentered else Done(inner.live - {h}, inner.order + [h])
  }

  /** One release after the other: the body of a destructor, or the walk over a source. */
  function ReleaseAll(g: Graph, live: set<Handle>, stack: seq<Handle>, hs: seq<Handle>): (r: Outcome)
    ensures Keeps(live, stack, r)
    decreases live - Elems(stack), 1, |hs|
  {
    if hs == [] then Done(live, [])
    else
      var first := Release(g, live, stack, hs[0]);
      if first.Reentered? then Reentered
      else
        assert first.live - Elems(stack) <= live - Elems(stack);
        var rest := ReleaseAll(g, first.live, stack, hs[1..]);
        if rest.Reentered? then Reentered else Done(rest.live, first.order + rest.order)
  }

  // --------------------------------------------------------------- walks

  /** The destructor of h releases k. */
  predicate Releases(g: Graph, h: Handle, k: Handle) {
    h in g && k in g[h]
  }

  /** Each handle on the walk is live, and released by the destructor of the one before. */
  predicate Walk(g: Graph, live: set<Handle>, p: seq<Handle>) {
    && |p| > 0
    && (forall i :: 0 <= i < |p| ==> p[i] in live)
    && (forall i :: 0 < i < |p| ==> Releases(g, p[i - 1], p[i]))
  }

  ghost predicate Reaches(g: Graph, live: set<Handle>, h: Handle, x: Handle) {
    exists p :: Walk(g, live, p) && p[0] == h && p[|p| - 1] == x
  }

  /** Some walk from h comes back to where it has been. */
  ghost predicate Loops(g: Graph, live: set<Handle>, h: Handle) {
    exists p :: Walk(g, live, p) && p[0] == h && p[|p| - 1] in p[..|p| - 1]
  }

  lemma LoopsMore(g: Graph, live: set<Handle>, more: set<Handle>, h: Handle)
    requires live <= more && Loops(g, live, h)
    ensures Loops(g, more, h)
  {
    var p :| Walk(g, live, p) && p[0] == h && p[|p| - 1] in p[..|p| - 1];
    assert Walk(g, more, p);
  }

  lemma ReachesMore(g: Graph, live: set<Handle>, more: set<Handle>, h: Handle, x: Handle)
    requires live <= more && Reaches(g, live, h, x)
    ensures Reaches(g, more, h, x)
  {
    var p :| Walk(g, live, p) && p[0] == h && p[|p| - 1] == x;
    assert Walk(g, more, p);
  }

  lemma ReachesFurther(g: Graph, live: set<Handle>, h: Handle, k: Handle, x: Handle)
    requires h in live && k in Refs(g, h) && Reaches(g, live, k, x)
    ensures Reaches(g, live, h, x)
  {
    var p :| Walk(g, live, p) && p[0] == k && p[|p| - 1] == x;
    var q := [h] + p;
    assert forall i :: 0 < i < |q| ==> q[i] == p[i - 1];
    assert Walk(g, live, q);
  }

  // ------------------------------------------------------- what has gone

  /** Everything live that a destructor releases has gone before its own handle does. */
  ghost predicate Ordered(g: Graph, live: set<Handle>, order: seq<Handle>) {
    forall k, y :: 0 <= k < |order| && Releases(g, order[k], y) && y in live ==> y in order[..k]
  }

  /** `order` are the handles that went, each once. */
  ghost predicate Gone(g: Graph, live: set<Handle>, r: Outcome)
    requires r.Done?
  {
    Distinct(r.order) && Elems(r.order) == live - r.live && Ordered(g, live, r.order)
  }

  lemma GoneThen(g: Graph, live: set<Handle>, a: Outcome, b: Outcome)
    requires a.Done? && b.Done? && a.live <= live && b.live <= a.live && Gone(g, live, a) && Gone(g, a.live, b)
    ensures Gone(g, live, Done(b.live, a.order + b.order))
  {
    var order := a.order + b.order;
    forall x ensures x in Elems(order) <==> x in live - b.live {
      assert x in Elems(a.order) <==> x in live - a.live;
      assert x in Elems(b.order) <==> x in a.live - b.live;
    }
    forall i, j | 0 <= i < j < |order| ensures order[i] != order[j] {
      if i < |a.order| <= j {
        assert order[i] in Elems(a.order) && order[j] in Elems(b.order);
      }
    }
    forall k, y | 0 <= k < |order| && Releases(g, order[k], y) && y in live ensures y in order[..k] {
      if k < |a.order| {
        assert y in a.order[..k] && order[..k] == a.order[..k];
      } else {
        assert order[..k] == a.order + b.order[..k - |a.order|];
        if y in a.live { assert y in b.order[..k - |a.order|]; } else { assert y in Elems(a.order); }
      }
    }
  }

  lemma GoneLast(g: Graph, live: set<Handle>, a: Outcome, h: Handle)
    requires a.Done? && h in a.live && a.live <= live && Gone(g, live, a)
    requires forall y :: y in Refs(g, h) ==> y !in a.live
    ensures Gone(g, live, Done(a.live - {h}, a.order + [h]))
  {
    var order := a.order + [h];
    assert h !in Elems(a.order);
    forall x ensures x in Elems(order) <==> x in live - (a.live - {h}) {
      assert x in Elems(a.order) <==> x in live - a.live;
    }
    forall k, y | 0 <= k < |order| && Releases(g, order[k], y) && y in live ensures y in order[..k] {
      assert order[..k] == a.order[..k];
      if k == |a.order| { assert y in Elems(a.order); }
    }
  }

  lemma {:induction false} ReleaseGone(g: Graph, live: set<Handle>, stack: seq<Handle>, h: Handle)
    requires Release(g, live, stack, h).Done?
    ensures Gone(g, live, Release(g, live, stack, h)) && h !in Release(g, live, stack, h).live
    decreases live - Elems(stack), 0, 0
  {
    if h in live {
      assert h in live - Elems(stack) && h in Elems(stack + [h]);
      assert forall x :: x in stack ==> x in stack + [h];
      ReleaseAllGone(g, live, stack + [h], Refs(g, h));
      GoneLast(g, live, ReleaseAll(g, live, stack + [h], Refs(g, h)), h);
    }
  }

  lemma {:induction false} ReleaseAllGone(g: Graph, live: set<Handle>, stack: seq<Handle>, hs: seq<Handle>)
    requires ReleaseAll(g, live, stack, hs).Done?
    ensures Gone(g, live, ReleaseAll(g, live, stack, hs))
    ensures forall h :: h in hs ==> h !in ReleaseAll(g, live, stack, hs).live
    decreases live - Elems(stack), 1, |hs|
  {
    if hs != [] {
      var first := Release(g, live, stack, hs[0]);
      ReleaseGone(g, live, stack, hs[0]);
      assert first.live - Elems(stack) <= live - Elems(stack);
      ReleaseAllGone(g, first.live, stack, hs[1..]);
      GoneThen(g, live, first, ReleaseAll(g, first.live, stack, hs[1..]));
      assert forall h :: h in hs ==> h == hs[0] || h in hs[1..];
    }
  }

  /** Along a walk from a handle that went, handles go earlier and earlier. */
  lemma {:induction false} WalkBack(g: Graph, live: set<Handle>, order: seq<Handle>, p: seq<Handle>,
                                    k: nat, i: nat, j: nat) returns (m: nat)
    requires Ordered(g, live, order) && Walk(g, live, p)
    requires i <= j < |p| && k < |order| && order[k] == p[i]
    ensures m <= k && order[m] == p[j] && (i < j ==> m < k)
    decreases j
  {
    m := k;
    if i < j {
      var n := WalkBack(g, live, order, p, k, i, j - 1);
      assert p[j] in order[..n];
      m :| 0 <= m < n && order[m] == p[j];
    }
  }

  // ------------------------------------------------ nothing else has gone

  lemma {:induction false} ReleaseReached(g: Graph, live: set<Handle>, stack: seq<Handle>, h: Handle, x: Handle)
    requires var r := Release(g, live, stack, h); r.Done? && x in live && x !in r.live
    ensures Reaches(g, live, h, x)
    decreases live - Elems(stack), 0, 0
  {
    if x == h {
      assert Walk(g, live, [h]);
    } else {
      assert h in live - Elems(stack) && h in Elems(stack + [h]);
      assert forall y :: y in stack ==> y in stack + [h];
      var k := ReleaseAllReached(g, live, stack + [h], Refs(g, h), x);
      ReachesFurther(g, live, h, Refs(g, h)[k], x);
    }
  }

  lemma {:induction false} ReleaseAllReached(g: Graph, live: set<Handle>, stack: seq<Handle>, hs: seq<Handle>,
                                             x: Handle) returns (k: nat)
    requires var r := ReleaseAll(g, live, stack, hs); r.Done? && x in live && x !in r.live
    ensures k < |hs| && Reaches(g, live, hs[k], x)
    decreases live - Elems(stack), 1, |hs|
  {
    var first := Release(g, live, stack, hs[0]);
    if x !in first.live {
      ReleaseReached(g, live, stack, hs[0], x);
      k := 0;
    } else {
      assert first.live - Elems(stack) <= live - Elems(stack);
      k := ReleaseAllReached(g, first.live, stack, hs[1..], x);
      ReachesMore(g, first.live, live, hs[1..][k], x);
      k := k + 1;
    }
  }

  // ------------------------------------------------------------ re-entry

  /** The running destructors are a walk, and h is released by the innermost one, or there is none. */
  predicate Nested(g: Graph, live: set<Handle>, stack: seq<Handle>, h: Handle) {
    stack == [] || (Walk(g, live, stack) && h in Refs(g, stack[|stack| - 1]))
  }

  lemma {:induction false} ReleaseReenters(g: Graph, live: set<Handle>, stack: seq<Handle>, h: Handle)
    requires Release(g, live, stack, h).Reentered? && Nested(g, live, stack, h)
    ensures Loops(g, live, (stack + [h])[0])
    decreases live - Elems(stack), 0, 0
  {
    var p := stack + [h];
    assert Walk(g, live, p);
    if h in stack {
      assert p[..|p| - 1] == stack;
    } else {
      assert h in live - Elems(stack) && h in Elems(p);
      assert forall x :: x in stack ==> x in p;
      var k := ReleaseAllReenters(g, live, p, Refs(g, h));
    }
  }

  lemma {:induction false} ReleaseAllReenters(g: Graph, live: set<Handle>, stack: seq<Handle>, hs: seq<Handle>)
    returns (k: nat)
    requires ReleaseAll(g, live, stack, hs).Reentered? && forall h :: h in hs ==> Nested(g, live, stack, h)
    ensures k < |hs| && Loops(g, live, (stack + [hs[k]])[0])
    decreases live - Elems(stack), 1, |hs|
  {
    var first := Release(g, live, stack, hs[0]);
    k := 0;
    if first.Reentered? {
      ReleaseReenters(g, live, stack, hs[0]);
    } else {
      assert first.live - Elems(stack) <= live - Elems(stack);
      forall h | h in hs[1..] ensures Nested(g, first.live, stack, h) { assert h in hs; }
      k := ReleaseAllReenters(g, first.live, stack, hs[1..]);
      LoopsMore(g, first.live, live, (stack + [hs[1..][k]])[0]);
      k := k + 1;
    }
  }

  // -------------------------------------------------------- the theorems

  /** No destructor is entered twice exactly if no live handle that the releases reach leads back to itself. */
  lemma ReentersExactly(g: Graph, live: set<Handle>, hs: seq<Handle>)
    ensures ReleaseAll(g, live, [], hs).Reentered? <==> exists k :: 0 <= k < |hs| && Loops(g, live, hs[k])
  {
    var r := ReleaseAll(g, live, [], hs);
    if r.Reentered? {
      var k := ReleaseAllReenters(g, live, [], hs);
      assert ([] + [hs[k]])[0] == hs[k];
    } else if k :| 0 <= k < |hs| && Loops(g, live, hs[k]) {
      ReleaseAllGone(g, live, [], hs);
      var p :| Walk(g, live, p) && p[0] == hs[k] && p[|p| - 1] in p[..|p| - 1];
      var i :| 0 <= i < |p| - 1 && p[i] == p[|p| - 1];
      var a := WentAt(live, r, hs[k]);
      var b := WalkBack(g, live, r.order, p, a, 0, i);
      var c := WalkBack(g, live, r.order, p, b, i, |p| - 1);
      assert false;
    }
  }

  lemma WentAt(live: set<Handle>, r: Outcome, x: Handle) returns (k: nat)
    requires r.Done? && Elems(r.order) == live - r.live && x in live && x !in r.live
    ensures k < |r.order| && r.order[k] == x
  {
    assert x in Elems(r.order);
    k :| 0 <= k < |r.order| && r.order[k] == x;
  }

  /**
   Releasing handles one after the other, as a destructor or the release of a source does: what
   goes is exactly what can be reached from them through live handles, each handle once and after
   all that its destructor releases.
   */
  lemma ReleasesReachable(g: Graph, live: set<Handle>, hs: seq<Handle>)
    requires ReleaseAll(g, live, [], hs).Done?
    ensures
      var r := ReleaseAll(g, live, [], hs);
      && (forall x :: x in r.live <==> x in live && !exists k :: 0 <= k < |hs| && Reaches(g, live, hs[k], x))
      && Distinct(r.order) && Elems(r.order) == live - r.live && Ordered(g, live, r.order)
  {
    var r := ReleaseAll(g, live, [], hs);
    ReleaseAllGone(g, live, [], hs);
    forall x | x in live && x !in r.live ensures exists k :: 0 <= k < |hs| && Reaches(g, live, hs[k], x) {
      var k := ReleaseAllReached(g, live, [], hs, x);
    }
    forall x, k | x in live && 0 <= k < |hs| && Reaches(g, live, hs[k], x) ensures x !in r.live {
      var p :| Walk(g, live, p) && p[0] == hs[k] && p[|p| - 1] == x;
      var a := WentAt(live, r, hs[k]);
      var b := WalkBack(g, live, r.order, p, a, 0, |p| - 1);
      assert x in Elems(r.order);
    }
  }

  /** What has a destructor that releases something: surfaces, views, and nothing among the rest. */
  datatype Kind = SurfaceKind | ViewKind | PlainKind

  function Height(k: Kind): nat {
    match k case SurfaceKind => 2 case ViewKind => 1 case PlainKind => 0
  }

  /** Surfaces release views, buffers and callbacks; views release shell surfaces. */
  ghost predicate Typed(g: Graph, kinds: Handle -> Kind) {
    forall h, k :: Releases(g, h, k) ==> Height(kinds(k)) < Height(kinds(h))
  }

  lemma {:induction false} WalkFalls(g: Graph, live: set<Handle>, kinds: Handle -> Kind, p: seq<Handle>, i: nat, j: nat)
    requires Typed(g, kinds) && Walk(g, live, p) && i < j < |p|
    ensures Height(kinds(p[j])) < Height(kinds(p[i]))
    decreases j
  {
    assert Releases(g, p[j - 1], p[j]);
    if i < j - 1 { WalkFalls(g, live, kinds, p, i, j - 1); }
  }

  /** The destructors of this program cannot come back to a handle, whatever it is they release. */
  lemma TypedNeverReenters(g: Graph, live: set<Handle>, kinds: Handle -> Kind, hs: seq<Handle>)
    requires Typed(g, kinds)
    ensures ReleaseAll(g, live, [], hs).Done?
  {
    ReentersExactly(g, live, hs);
    if k :| 0 <= k < |hs| && Loops(g, live, hs[k]) {
      var p :| Walk(g, live, p) && p[0] == hs[k] && p[|p| - 1] in p[..|p| - 1];
      var i :| 0 <= i < |p| - 1 && p[i] == p[|p| - 1];
      WalkFalls(g, live, kinds, p, i, |p| - 1);
    }
  }

  /** The pool of live handles, with what went, in order. */
  class Pool {
    const refs: Graph
    var live: set<Handle>
    var gone: seq<Handle>

    constructor (refs: Graph, live: set<Handle>)
      ensures this.refs == refs && this.live == live && gone == []
    {
      this.refs, this.live, this.gone := refs, live, [];
    }

    /** handle_release, while the destructors of the handles on the stack are running. */
    method Destroy(h: Handle, ghost stack: seq<Handle>)
      requires Release(refs, live, stack, h).Done?
      modifies this
      ensures
        var r := Release(refs, old(live), stack, h);
        live == r.live && gone == old(gone) + r.order
      decreases live - Elems(stack), 0, 0
    {
      if h !in live { return; }
      assert h in live - Elems(stack) && h in Elems(stack + [h]);
      assert forall x :: x in stack ==> x in stack + [h];
      Destructor(if h in refs then refs[h] else [], stack + [h]);
      live, gone := live - {h}, gone + [h];
    }

    /** What a destructor releases, or the elements of a source. */
    method Destructor(hs: seq<Handle>, ghost stack: seq<Handle>)
      requires ReleaseAll(refs, live, stack, hs).Done?
      modifies this
      ensures
        var r := ReleaseAll(refs, old(live), stack, hs);
        live == r.live && gone == old(gone) + r.order
      decreases live - Elems(stack), 1, 0
    {
      var i := 0;
      ghost var goal := ReleaseAll(refs, live, stack, hs);
      assert hs[0..] == hs;
      while i < |hs|
        invariant 0 <= i <= |hs| && live <= old(live)
        invariant
          var r := ReleaseAll(refs, live, stack, hs[i..]);
          r.Done? && r.live == goal.live && gone + r.order == old(gone) + goal.order
      {
        assert hs[i..][1..] == hs[i + 1..];
        assert live - Elems(stack) <= old(live) - Elems(stack);
        Destroy(hs[i], stack);
        i := i + 1;
      }
    }
  }
}
