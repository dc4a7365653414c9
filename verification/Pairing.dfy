/**
 Linking surfaces and views.  wlc_surface_attach_to_view and wlc_view_set_surface call
 each other, and on the way undo and redo each other's writes.  The functions below say
 what the calls do from any state whatever, since the calls in the middle start from
 broken ones; the theorem is about what is left at the end.
 */
module Pairing {

  /** A handle; 0 is NULL, and so is a handle that no longer resolves. */
  type Handle = nat

  datatype Surface = Surface(view: Handle, parentView: Handle, attached: bool)

  /** `created` is set while the view is mapped. */
  datatype View = View(surface: Handle, created: bool)

  datatype Links = Links(surfaces: map<Handle, Surface>, views: map<Handle, View>)

  function ViewOf(l: Links, s: Handle): Handle {
    if s in l.surfaces then l.surfaces[s].view else 0
  }

  function SurfaceOf(l: Links, v: Handle): Handle {
    if v in l.views then l.views[v].surface else 0
  }

  function WithView(l: Links, s: Handle, v: Handle): Links {
    if s in l.surfaces then l.(surfaces := l.surfaces[s := l.surfaces[s].(view := v, parentView := v)]) else l
  }

  function WithSurface(l: Links, v: Handle, s: Handle): Links {
    if v in l.views then l.(views := l.views[v := l.views[v].(surface := s)]) else l
  }

  function WithCreated(l: Links, v: Handle, created: bool): Links {
    if v in l.views then l.(views := l.views[v := l.views[v].(created := created)]) else l
  }

  function Attached(l: Links, s: Handle): bool {
    s in l.surfaces && l.surfaces[s].attached
  }

  predicate NullFree(l: Links) {
    0 !in l.surfaces && 0 !in l.views
  }

  ghost predicate SameKeys(l: Links, m: Links) {
    l.surfaces.Keys == m.surfaces.Keys && l.views.Keys == m.views.Keys
  }

  /** m has no link that l did not have. */
  ghost predicate Fewer(l: Links, m: Links) {
    && SameKeys(l, m)
    && (forall t :: t in l.surfaces ==> m.surfaces[t].view == l.surfaces[t].view || m.surfaces[t].view == 0)
    && (forall w :: w in l.views ==> m.views[w].surface == l.views[w].surface || m.views[w].surface == 0)
  }

  ghost function LinkedSurfaces(l: Links): set<Handle> {
    set s | s in l.surfaces && l.surfaces[s].view != 0
  }

  ghost function LinkedViews(l: Links): set<Handle> {
    set v | v in l.views && l.views[v].surface != 0
  }

  // ------------------------------------------------ calls with a NULL partner

  /** wlc_surface_attach_to_view(s, NULL). */
  function ClearSurface(l: Links, s: Handle): (m: Links)
    ensures Fewer(l, m)
    decreases LinkedSurfaces(l), LinkedViews(l)
  {
    if ViewOf(l, s) == 0 then l
    else
      assert s in LinkedSurfaces(l) && s !in LinkedSurfaces(WithView(l, s, 0));
      ClearView(WithView(l, s, 0), ViewOf(l, s))
  }

  /** wlc_view_set_surface(v, NULL). */
  function ClearView(l: Links, v: Handle): (m: Links)
    ensures Fewer(l, m)
    decreases LinkedSurfaces(l), LinkedViews(l)
  {
    if SurfaceOf(l, v) == 0 then l
    else
      assert v in LinkedViews(l) && v !in LinkedViews(WithSurface(l, v, 0));
      WithCreated(ClearSurface(WithSurface(l, v, 0), SurfaceOf(l, v)), v, false)
  }

  // ------------------------------------------------ calls with both partners

  /**
   Distance from s and v being linked.  An end that points at a third party weighs more
   than two empty ends, because clearing the third party can clear the other end too.
   */
  function Rank(l: Links, s: Handle, v: Handle): nat {
    var a, b := ViewOf(l, s), SurfaceOf(l, v);
    (if a == v then 0 else if a == 0 then 1 else 4) + (if b == s then 0 else if b == 0 then 1 else 4)
  }

  lemma RankFallsFromSurface(l: Links, m: Links, s: Handle, v: Handle)
    requires NullFree(l) && s in l.surfaces && v in l.views && ViewOf(l, s) != v
    requires m == ClearView(WithView(l, s, v), ViewOf(l, s))
    ensures Rank(m, s, v) < Rank(l, s, v)
  {
    assert ViewOf(WithView(l, s, v), s) == v;
    assert SurfaceOf(WithView(l, s, v), v) == SurfaceOf(l, v);
  }

  lemma RankFallsFromView(l: Links, m: Links, s: Handle, v: Handle)
    requires NullFree(l) && s in l.surfaces && v in l.views && SurfaceOf(l, v) != s
    requires m == ClearSurface(WithSurface(l, v, s), SurfaceOf(l, v))
    ensures Rank(m, s, v) < Rank(l, s, v)
  {
    assert SurfaceOf(WithSurface(l, v, s), v) == s;
    assert ViewOf(WithSurface(l, v, s), s) == ViewOf(l, s);
  }

  /** wlc_surface_attach_to_view(s, v). */
  function LinkSurface(l: Links, s: Handle, v: Handle): (m: Links)
    requires NullFree(l) && s in l.surfaces && v in l.views
    ensures SameKeys(l, m)
    decreases Rank(l, s, v)
  {
    if ViewOf(l, s) == v then l
    else
      var m := ClearView(WithView(l, s, v), ViewOf(l, s));
      RankFallsFromSurface(l, m, s, v);
      LinkView(m, v, s)
  }

  /** wlc_view_set_surface(v, s). */
  function LinkView(l: Links, v: Handle, s: Handle): (m: Links)
    requires NullFree(l) && s in l.surfaces && v in l.views
    ensures SameKeys(l, m)
    decreases Rank(l, s, v)
  {
    if SurfaceOf(l, v) == s then l
    else
      var m := ClearSurface(WithSurface(l, v, s), SurfaceOf(l, v));
      RankFallsFromView(l, m, s, v);
      var n := LinkSurface(m, s, v);
      WithCreated(n, v, Attached(n, s))
  }

  function Attach(l: Links, s: Handle, v: Handle): (m: Links)
    requires NullFree(l) && (v == 0 || v in l.views)
    ensures SameKeys(l, m)
  {
    if s !in l.surfaces then l else if v == 0 then ClearSurface(l, s) else LinkSurface(l, s, v)
  }

  function Assign(l: Links, v: Handle, s: Handle): (m: Links)
    requires NullFree(l) && (s == 0 || s in l.surfaces)
    ensures SameKeys(l, m)
  {
    if v !in l.views then l else if s == 0 then ClearView(l, v) else LinkView(l, v, s)
  }

  function SurfaceNew(l: Links, s: Handle): Links {
    l.(surfaces := l.surfaces[s := Surface(0, 0, false)])
  }

  function ViewNew(l: Links, v: Handle): Links {
    l.(views := l.views[v := View(0, false)])
  }

  /** wlc_view_release: its surface lets go of it, while the view still resolves. */
  function ViewGone(l: Links, v: Handle): Links {
    if v !in l.views then l
    else
      var m := ClearSurface(WithCreated(l, v, false), SurfaceOf(l, v));
      m.(views := m.views - {v})
  }

  /** wlc_surface_release: the surface takes its view with it. */
  function SurfaceGone(l: Links, s: Handle): Links {
    if s !in l.surfaces then l
    else
      var m := ViewGone(l, ViewOf(l, s));
      m.(surfaces := m.surfaces - {s})
  }

  /** The two pools of the compositor, and the two methods as the code has them. */
  class Compositor {
    var surfaces: map<Handle, Surface>
    var views: map<Handle, View>

    constructor ()
      ensures Valid() && State() == Links(map[], map[])
    {
      surfaces, views := map[], map[];
    }

    predicate Valid()
      reads this
    {
      NullFree(State())
    }

    function State(): Links
      reads this
    {
      Links(surfaces, views)
    }

    method CreateSurface(s: Handle)
      requires Valid() && s != 0 && s !in surfaces
      modifies this`surfaces
      ensures Valid() && surfaces == old(surfaces)[s := Surface(0, 0, false)]
      ensures State() == SurfaceNew(old(State()), s)
    {
      surfaces := surfaces[s := Surface(0, 0, false)];
    }

    method CreateView(v: Handle)
      requires Valid() && v != 0 && v !in views
      modifies this`views
      ensures Valid() && views == old(views)[v := View(0, false)]
      ensures State() == ViewNew(old(State()), v)
    {
      views := views[v := View(0, false)];
    }

    /** The destructor of a view, and its removal after that. */
    method ReleaseView(v: Handle)
      requires Valid()
      modifies this
      ensures Valid() && State() == ViewGone(old(State()), v)
    {
      if v !in views {
        return;
      }
      Unmap(v);
      AttachToView(views[v].surface, 0);
      views := views - {v};
    }

    /** The destructor of a surface, and its removal after that. */
    method ReleaseSurface(s: Handle)
      requires Valid()
      modifies this
      ensures Valid() && State() == SurfaceGone(old(State()), s)
    {
      if s !in surfaces {
        return;
      }
      ReleaseView(surfaces[s].view);
      surfaces := surfaces - {s};
    }

    /** wlc_surface_attach_to_view. */
    method AttachToView(s: Handle, v: Handle)
      requires Valid() && (v == 0 || v in views)
      modifies this
      ensures Valid() && State() == Attach(old(State()), s, v)
      decreases if v == 0 || s == 0 then 0 else 1 + Rank(State(), s, v), LinkedSurfaces(State()), LinkedViews(State())
    {
      if s !in surfaces || surfaces[s].view == v {
        return;
      }
      var before := surfaces[s].view;
      ghost var l := State();
      surfaces := surfaces[s := surfaces[s].(view := v, parentView := v)];
      assert State() == WithView(l, s, v);
      assert s in LinkedSurfaces(l) || before == 0;
      SetSurface(before, 0);
      ghost var m := State();
      assert m == ClearView(WithView(l, s, v), before);
      SetSurface(v, s);
      assert State() == if v == 0 then m else LinkView(m, v, s);
    }

    /** wlc_view_set_surface. */
    method SetSurface(v: Handle, s: Handle)
      requires Valid() && (s == 0 || s in surfaces)
      modifies this
      ensures Valid() && State() == Assign(old(State()), v, s)
      decreases if v == 0 || s == 0 then 0 else 1 + Rank(State(), s, v), LinkedSurfaces(State()), LinkedViews(State())
    {
      if v !in views || views[v].surface == s {
        return;
      }
      var before := views[v].surface;
      ghost var l := State();
      views := views[v := views[v].(surface := s)];
      assert State() == WithSurface(l, v, s);
      assert v in LinkedViews(l) || before == 0;
      AttachToView(before, 0);
      ghost var m := State();
      assert m == ClearSurface(WithSurface(l, v, s), before);
      AttachToView(s, v);
      ghost var n := State();
      assert n == if s == 0 then m else LinkSurface(m, s, v);
      if s != 0 && surfaces[s].attached {
        Map(v);
      } else {
        Unmap(v);
      }
      assert State() == WithCreated(n, v, Attached(n, s));
    }

    /** wlc_view_map, as far as this view's mapped flag is concerned. */
    method Map(v: Handle)
      requires v in views
      modifies this`views
      ensures views == old(views)[v := old(views)[v].(created := true)]
    {
      views := views[v := views[v].(created := true)];
    }

    /** wlc_view_unmap, likewise. */
    method Unmap(v: Handle)
      requires v in views
      modifies this`views
      ensures views == old(views)[v := old(views)[v].(created := false)]
    {
      views := views[v := views[v].(created := false)];
    }
  }

  // ------------------------------------------------------------- the theorem

  /** A one-to-one partial matching: every link is answered by the opposite link. */
  predicate Matching(l: Links) {
    && NullFree(l)
    && (forall s :: s in l.surfaces && l.surfaces[s].view != 0 ==>
      l.surfaces[s].view in l.views && l.views[l.surfaces[s].view].surface == s)
    && (forall v :: v in l.views && l.views[v].surface != 0 ==>
      l.views[v].surface in l.surfaces && l.surfaces[l.views[v].surface].view == v)
  }

  /**
   What a request to link s and v (or to unlink s, when v is NULL) ought to leave: the
   pair linked both ways and mapped when s has a buffer, both old partners cleared and
   unmapped, and everything else as it was.
   */
  function Relinked(l: Links, s: Handle, v: Handle): Links {
    if ViewOf(l, s) == v then l
    else
      var s0, v0 := SurfaceOf(l, v), ViewOf(l, s);
      Links(
        map t | t in l.surfaces :: if t == s then l.surfaces[t].(view := v, parentView := v)
                                   else if t == s0 then l.surfaces[t].(view := 0, parentView := 0)
                                   else l.surfaces[t],
        map w | w in l.views :: if w == v then View(s, Attached(l, s)) else if w == v0 then View(0, false)
          else l.views[w])
  }

  function Unlinked(l: Links, s: Handle, v: Handle): Links
    requires s in l.surfaces && v in l.views
  {
    Links(l.surfaces[s := Surface(0, 0, l.surfaces[s].attached)], l.views[v := View(0, false)])
  }

  function Joined(l: Links, s: Handle, v: Handle): Links
    requires s in l.surfaces && v in l.views
  {
    Links(l.surfaces[s := Surface(v, v, l.surfaces[s].attached)], l.views[v := View(s, l.surfaces[s].attached)])
  }

  /** A view that has s, and is no longer what s points at, takes the new link of s down with it. */
  lemma ClearViewOnce(l: Links, s: Handle, v: Handle)
    requires NullFree(l) && s in l.surfaces && v in l.views && l.views[v].surface == s && ViewOf(l, s) == 0
    ensures ClearView(l, v) == WithCreated(WithSurface(l, v, 0), v, false)
  {
  }

  lemma ClearPair(l: Links, s: Handle, v: Handle)
    requires NullFree(l) && s in l.surfaces && v in l.views && l.surfaces[s].view == v && l.views[v].surface == s
    ensures ClearSurface(l, s) == Unlinked(l, s, v)
  {
    ClearViewOnce(WithView(l, s, 0), s, v);
  }

  lemma ClearHalf(l: Links, s: Handle, v: Handle)
    requires NullFree(l) && s in l.surfaces && v in l.views && l.surfaces[s].view == v && l.views[v].surface == 0
    ensures ClearSurface(l, s) == WithView(l, s, 0)
  {
  }

  /** Two free ends are joined in one round. */
  lemma JoinFree(l: Links, s: Handle, v: Handle)
    requires NullFree(l) && s in l.surfaces && v in l.views && l.surfaces[s].view == 0 && l.views[v].surface == 0
    ensures LinkView(l, v, s) == Joined(l, s, v)
    ensures LinkSurface(l, s, v) == Joined(l, s, v)
  {
    var a := WithSurface(l, v, s);
    assert ClearSurface(a, 0) == a;
    var b := WithView(a, s, v);
    assert ClearView(b, 0) == b;
    assert LinkView(b, v, s) == b;
    var c := WithView(l, s, v);
    assert ClearView(c, 0) == c;
    JoinHalf(c, s, v);
  }

  lemma JoinHalf(l: Links, s: Handle, v: Handle)
    requires NullFree(l) && s in l.surfaces && v in l.views && l.surfaces[s].view == v && l.surfaces[s].parentView == v
    requires l.views[v].surface == 0
    ensures LinkView(l, v, s) == Joined(l, s, v)
  {
    var a := WithSurface(l, v, s);
    assert ClearSurface(a, 0) == a;
    assert LinkSurface(a, s, v) == a;
    assert WithView(l, s, v) == l;
  }

  /** Clearing the view of a linked pair clears both ends. */
  lemma ClearThrough(l: Links, s: Handle, v: Handle)
    requires NullFree(l) && s in l.surfaces && v in l.views && l.surfaces[s].view == v && l.views[v].surface == s
    ensures ClearView(l, v) == Unlinked(l, s, v)
  {
    ClearHalf(WithSurface(l, v, 0), s, v);
  }

  /** Undoing a first write to s, by way of the view it was about to join. */
  lemma Undo(l: Links, s0: Handle, s: Handle, v: Handle)
    requires NullFree(l) && s in l.surfaces && v in l.views && s0 in l.surfaces && s0 != s
    requires l.surfaces[s].view == 0 && l.surfaces[s0].view == v && l.views[v].surface == s0
    ensures ClearSurface(WithSurface(WithView(l, s, v), v, s), s0) == WithView(Unlinked(l, s0, v), s, 0)
  {
    var a := WithSurface(WithView(l, s, v), v, s);
    assert ViewOf(a, s0) == v;
    assert ClearSurface(a, s0) == ClearView(WithView(a, s0, 0), v);
    ClearThrough(WithView(a, s0, 0), s, v);
    UndoneWrites(l, s0, s, v);
  }

  lemma UndoneWrites(l: Links, s0: Handle, s: Handle, v: Handle)
    requires s in l.surfaces && v in l.views && s0 in l.surfaces && s0 != s
    ensures Unlinked(WithView(WithSurface(WithView(l, s, v), v, s), s0, 0), s, v) == WithView(Unlinked(l, s0, v), s, 0)
  {
    var ss := l.surfaces;
    var x, x', y := ss[s].(view := v, parentView := v), ss[s].(view := 0, parentView := 0),
      ss[s0].(view := 0, parentView := 0);
    assert ss[s := x][s0 := y][s := x'] == ss[s0 := y][s := x'];
    assert l.views[v := l.views[v].(surface := s)][v := View(0, false)] == l.views[v := View(0, false)];
  }

  lemma JoinedForgets(l: Links, s: Handle, v: Handle)
    requires s in l.surfaces && v in l.views
    ensures Joined(WithView(l, s, 0), s, v) == Joined(l, s, v)
    ensures WithCreated(Joined(l, s, v), v, Attached(Joined(l, s, v), s)) == Joined(l, s, v)
  {
    var m, n := Joined(WithView(l, s, 0), s, v), Joined(l, s, v);
    assert m.surfaces == n.surfaces && m.views == n.views;
  }

  /** s was free and v had s0: the first write to s is undone and done again. */
  lemma LinkFree(l: Links, s0: Handle, s: Handle, v: Handle)
    requires NullFree(l) && s in l.surfaces && v in l.views && s0 in l.surfaces && s0 != s
    requires l.surfaces[s].view == 0 && l.surfaces[s0].view == v && l.views[v].surface == s0
    ensures LinkSurface(l, s, v) == Joined(Unlinked(l, s0, v), s, v)
  {
    var a := WithView(l, s, v);
    assert ClearView(a, 0) == a;
    Undo(l, s0, s, v);
    var m := Unlinked(l, s0, v);
    JoinFree(WithView(m, s, 0), s, v);
    JoinedForgets(m, s, v);
  }

  /** s had v0: clearing v0 runs into s again, and through it into v. */
  lemma LinkTaken(l: Links, v0: Handle, s: Handle, v: Handle)
    requires NullFree(l) && s in l.surfaces && v in l.views && v0 in l.views && v0 != v
    requires l.surfaces[s].view == v0 && l.views[v0].surface == s
    requires var s0 := l.views[v].surface; s0 == 0 || (s0 in l.surfaces && l.surfaces[s0].view == v && s0 != s)
    ensures
      var m := Unlinked(l, s, v0);
      LinkSurface(l, s, v) == Joined(if l.views[v].surface == 0 then m else Unlinked(m, l.views[v].surface, v), s, v)
  {
    var s0, m := l.views[v].surface, Unlinked(l, s, v0);
    ClearRound(l, v0, s, v);
    JoinFree(if s0 == 0 then m else Unlinked(m, s0, v), s, v);
  }

  lemma ClearRound(l: Links, v0: Handle, s: Handle, v: Handle)
    requires NullFree(l) && s in l.surfaces && v in l.views && v0 in l.views && v0 != v
    requires l.surfaces[s].view == v0 && l.views[v0].surface == s
    requires var s0 := l.views[v].surface; s0 == 0 || (s0 in l.surfaces && l.surfaces[s0].view == v && s0 != s)
    ensures
      var m := Unlinked(l, s, v0);
      ClearView(WithView(l, s, v), v0) == if l.views[v].surface == 0 then m else Unlinked(m, l.views[v].surface, v)
  {
    var s0 := l.views[v].surface;
    var a := WithSurface(WithView(l, s, v), v0, 0);
    var b := WithView(a, s, 0);
    if s0 != 0 {
      ClearThrough(b, s0, v);
    }
    var c := WithCreated(if s0 == 0 then b else Unlinked(b, s0, v), v0, false);
    assert ClearSurface(a, s) == ClearView(b, v);
    assert ClearView(WithView(l, s, v), v0) == WithCreated(ClearSurface(a, s), v0, false);
    ClearedRound(l, v0, s0, s, v);
  }

  lemma ClearedRound(l: Links, v0: Handle, s0: Handle, s: Handle, v: Handle)
    requires s in l.surfaces && v in l.views && v0 in l.views && v0 != v && s0 != s
    ensures
      var b := WithView(WithSurface(WithView(l, s, v), v0, 0), s, 0);
      && WithCreated(b, v0, false) == Unlinked(l, s, v0)
      && (s0 in l.surfaces ==> WithCreated(Unlinked(b, s0, v), v0, false) == Unlinked(Unlinked(l, s, v0), s0, v))
  {
    var b := WithView(WithSurface(WithView(l, s, v), v0, 0), s, 0);
    assert b.surfaces == Unlinked(l, s, v0).surfaces;
    assert b.views == l.views[v0 := View(0, l.views[v0].created)];
    assert b.views[v := View(0, false)][v0 := View(0, false)] == l.views[v0 := View(0, false)][v := View(0, false)];
  }

  lemma RelinkedIs(l: Links, s: Handle, v: Handle)
    requires NullFree(l) && s in l.surfaces && v in l.views && l.surfaces[s].view != v && l.views[v].surface != s
    requires (l.surfaces[s].view == 0 || l.surfaces[s].view in l.views)
    requires (l.views[v].surface == 0 || l.views[v].surface in l.surfaces)
    ensures
      var m := if l.surfaces[s].view == 0 then l else Unlinked(l, s, l.surfaces[s].view);
      Relinked(l, s, v) == Joined(if l.views[v].surface == 0 then m else Unlinked(m, l.views[v].surface, v), s, v)
  {
    var m := if l.surfaces[s].view == 0 then l else Unlinked(l, s, l.surfaces[s].view);
    var s0, v0 := l.views[v].surface, l.surfaces[s].view;
    var n := Joined(if s0 == 0 then m else Unlinked(m, s0, v), s, v);
    assert Relinked(l, s, v).surfaces == n.surfaces;
    assert Relinked(l, s, v).views == n.views;
  }

  /**
   From any matching, the two mutually recursive methods end with exactly the requested
   pair linked both ways, both old partners cleared and every other pair untouched.
   */
  lemma AttachRelinks(l: Links, s: Handle, v: Handle)
    requires Matching(l) && s in l.surfaces && (v == 0 || v in l.views)
    ensures Attach(l, s, v) == Relinked(l, s, v)
  {
    var v0 := l.surfaces[s].view;
    if v0 == v {
    } else if v == 0 {
      ClearPair(l, s, v0);
      assert Unlinked(l, s, v0).surfaces == Relinked(l, s, 0).surfaces;
      assert Unlinked(l, s, v0).views == Relinked(l, s, 0).views;
    } else {
      RelinkedIs(l, s, v);
      if v0 != 0 {
        LinkTaken(l, v0, s, v);
      } else if l.views[v].surface != 0 {
        LinkFree(l, l.views[v].surface, s, v);
      } else {
        JoinFree(l, s, v);
      }
    }
  }

  /**
   The other way in: giving a view a surface, or none, ends as the request from the surface's side
   does, although it undoes and redoes the writes of the two in another order.
   */
  lemma AssignRelinks(l: Links, v: Handle, s: Handle)
    requires Matching(l) && v in l.views && (s == 0 || s in l.surfaces)
    ensures
      Assign(l, v, s) == if s != 0 then Relinked(l, s, v)
        else if SurfaceOf(l, v) != 0 then Relinked(l, SurfaceOf(l, v), 0) else l
  {
    var s0 := l.views[v].surface;
    if s0 == s {
    } else if s == 0 {
      ClearThrough(l, s0, v);
      assert Unlinked(l, s0, v).surfaces == Relinked(l, s0, 0).surfaces;
      assert Unlinked(l, s0, v).views == Relinked(l, s0, 0).views;
    } else {
      RelinkedIs(l, s, v);
      if s0 != 0 {
        LinkHeld(l, s0, s, v);
        if l.surfaces[s].view != 0 { UnlinkedSwap(l, s0, v, s, l.surfaces[s].view); }
      } else if l.surfaces[s].view != 0 {
        LinkVacant(l, l.surfaces[s].view, s, v);
      } else {
        JoinFree(l, s, v);
      }
    }
  }

  lemma UnlinkedSwap(l: Links, s: Handle, v: Handle, t: Handle, w: Handle)
    requires s in l.surfaces && v in l.views && t in l.surfaces && w in l.views && s != t && v != w
    ensures Unlinked(Unlinked(l, s, v), t, w) == Unlinked(Unlinked(l, t, w), s, v)
  {
    var m, n := Unlinked(Unlinked(l, s, v), t, w), Unlinked(Unlinked(l, t, w), s, v);
    assert m.surfaces == n.surfaces;
    assert m.views == n.views;
  }

  /** v was free and s had v0: the first write to v is undone and done again. */
  lemma LinkVacant(l: Links, v0: Handle, s: Handle, v: Handle)
    requires NullFree(l) && s in l.surfaces && v in l.views && v0 in l.views && v0 != v
    requires l.views[v].surface == 0 && l.surfaces[s].view == v0 && l.views[v0].surface == s
    ensures LinkView(l, v, s) == Joined(Unlinked(l, s, v0), s, v)
  {
    var a := WithSurface(l, v, s);
    assert ClearSurface(a, 0) == a;
    var b := WithSurface(WithView(a, s, v), v0, 0);
    ClearPair(b, s, v);
    var m := WithCreated(Unlinked(b, s, v), v0, false);
    assert ClearView(WithView(a, s, v), v0) == m;
    JoinFree(m, s, v);
    VacantWrites(l, v0, s, v);
    assert LinkSurface(a, s, v) == Joined(m, s, v);
    JoinedForgets(m, s, v);
  }

  lemma VacantWrites(l: Links, v0: Handle, s: Handle, v: Handle)
    requires s in l.surfaces && v in l.views && v0 in l.views && v0 != v
    ensures
      var b := WithSurface(WithView(WithSurface(l, v, s), s, v), v0, 0);
      Joined(WithCreated(Unlinked(b, s, v), v0, false), s, v) == Joined(Unlinked(l, s, v0), s, v)
  {
    var b := WithSurface(WithView(WithSurface(l, v, s), s, v), v0, 0);
    var m, n := Joined(WithCreated(Unlinked(b, s, v), v0, false), s, v), Joined(Unlinked(l, s, v0), s, v);
    assert m.surfaces == n.surfaces;
    assert m.views == n.views;
  }

  /** v had s0: clearing s0 runs into v again, and through it into s. */
  lemma LinkHeld(l: Links, s0: Handle, s: Handle, v: Handle)
    requires NullFree(l) && s in l.surfaces && v in l.views && s0 in l.surfaces && s0 != s
    requires l.views[v].surface == s0 && l.surfaces[s0].view == v
    requires var v0 := l.surfaces[s].view; v0 == 0 || (v0 in l.views && l.views[v0].surface == s && v0 != v)
    ensures
      var m := Unlinked(l, s0, v);
      LinkView(l, v, s) == Joined(if l.surfaces[s].view == 0 then m else Unlinked(m, s, l.surfaces[s].view), s, v)
  {
    var a, v0 := WithSurface(l, v, s), l.surfaces[s].view;
    var c := WithSurface(WithView(a, s0, 0), v, 0);
    if v0 != 0 { ClearPair(c, s, v0); }
    var d := if v0 == 0 then c else Unlinked(c, s, v0);
    assert ClearSurface(a, s0) == ClearView(WithView(a, s0, 0), v) == WithCreated(d, v, false);
    HeldWrites(l, s0, s, v, v0);
    var m := WithCreated(d, v, false);
    JoinFree(m, s, v);
    JoinedForgets(m, s, v);
  }

  lemma HeldWrites(l: Links, s0: Handle, s: Handle, v: Handle, v0: Handle)
    requires s in l.surfaces && v in l.views && s0 in l.surfaces && s0 != s && v0 != v
    ensures
      var c := WithSurface(WithView(WithSurface(l, v, s), s0, 0), v, 0);
      && WithCreated(c, v, false) == Unlinked(l, s0, v)
      && (v0 in l.views ==> WithCreated(Unlinked(c, s, v0), v, false) == Unlinked(Unlinked(l, s0, v), s, v0))
  {
    var c := WithSurface(WithView(WithSurface(l, v, s), s0, 0), v, 0);
    assert WithCreated(c, v, false).views == Unlinked(l, s0, v).views;
    if v0 in l.views {
      var m, n := WithCreated(Unlinked(c, s, v0), v, false), Unlinked(Unlinked(l, s0, v), s, v0);
      assert m.surfaces == n.surfaces;
      assert m.views == n.views;
    }
  }

  lemma RelinkedIsMatching(l: Links, s: Handle, v: Handle)
    requires Matching(l) && s in l.surfaces && (v == 0 || v in l.views)
    ensures Matching(Relinked(l, s, v)) && ViewOf(Relinked(l, s, v), s) == v
  {
  }

  /** A view that dies leaves its surface without one, and nothing else changes. */
  lemma ViewGoneExactly(l: Links, v: Handle)
    requires Matching(l) && v in l.views
    ensures
      var r, s := ViewGone(l, v), SurfaceOf(l, v);
      && Matching(r) && r.views == l.views - {v}
      && r.surfaces == if s == 0 then l.surfaces else l.surfaces[s := Surface(0, 0, l.surfaces[s].attached)]
  {
    var m, s := WithCreated(l, v, false), SurfaceOf(l, v);
    if s != 0 {
      ClearPair(m, s, v);
      assert Unlinked(m, s, v).views - {v} == l.views - {v};
    } else {
      assert m.views - {v} == l.views - {v};
    }
  }

  /** A surface that dies takes its own view with it, and no link to either is left. */
  lemma SurfaceGoneExactly(l: Links, s: Handle)
    requires Matching(l) && s in l.surfaces
    ensures SurfaceGone(l, s) == Links(l.surfaces - {s}, l.views - {ViewOf(l, s)}) && Matching(SurfaceGone(l, s))
  {
    var v := ViewOf(l, s);
    if v != 0 {
      ViewGoneExactly(l, v);
      var a := l.surfaces[s := Surface(0, 0, l.surfaces[s].attached)];
      assert a - {s} == l.surfaces - {s};
    } else {
      assert l.views - {0} == l.views;
    }
  }

  datatype Request =
    | AttachTo(s: Handle, v: Handle)
    | MakeSurface(s: Handle)
    | MakeView(v: Handle)
    | ReleaseOfSurface(s: Handle)
    | ReleaseOfView(v: Handle)

  /** A request that names what does not exist, or would make what does, does nothing. */
  function Step(l: Links, r: Request): (m: Links)
    requires NullFree(l)
    ensures NullFree(m)
  {
    match r
    case AttachTo(s, v) => if v == 0 || v in l.views then Attach(l, s, v) else l
    case MakeSurface(s) => if s == 0 || s in l.surfaces then l else SurfaceNew(l, s)
    case MakeView(v) => if v == 0 || v in l.views then l else ViewNew(l, v)
    case ReleaseOfSurface(s) => SurfaceGone(l, s)
    case ReleaseOfView(v) => ViewGone(l, v)
  }

  lemma StepStaysMatched(l: Links, r: Request)
    requires Matching(l)
    ensures Matching(Step(l, r))
  {
    match r
    case AttachTo(s, v) =>
      if s in l.surfaces && (v == 0 || v in l.views) {
        AttachRelinks(l, s, v);
        RelinkedIsMatching(l, s, v);
      }
    case MakeSurface(s) =>
    case MakeView(v) =>
    case ReleaseOfSurface(s) => if s in l.surfaces { SurfaceGoneExactly(l, s); }
    case ReleaseOfView(v) => if v in l.views { ViewGoneExactly(l, v); }
  }

  function Run(l: Links, requests: seq<Request>): Links
    requires NullFree(l)
    decreases |requests|
  {
    if requests == [] then l else Run(Step(l, requests[0]), requests[1..])
  }

  /** Over any run of requests, with surfaces and views coming and going, the links stay a one-to-one matching. */
  lemma {:induction false} RunsStayMatched(l: Links, requests: seq<Request>)
    requires Matching(l)
    ensures Matching(Run(l, requests))
    decreases |requests|
  {
    if requests != [] {
      StepStaysMatched(l, requests[0]);
      RunsStayMatched(Step(l, requests[0]), requests[1..]);
    }
  }
}
