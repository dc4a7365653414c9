/**
 Finding the surface under the pointer: a recursion over the subsurfaces with one shared
 accumulator for the offset, against a plain list of absolute rectangles; and what it finds
 against what is drawn last at the same pixel.
 */
module HitTest {
  import opened Basics
  import opened Geometry

  /**
   A surface as the search sees it: its offset from its parent, already scaled and
   truncated, its size, and its list of subsurfaces; None is one that no longer resolves.
   `drawn` is the offset that drawing uses, which adds the offset of the attached buffer.
   */
  datatype Surface = Surface(id: nat, dx: int, dy: int, drawn: Point, size: Size, subs: seq<Option<Surface>>)

  /** A surface with its absolute rectangle. */
  datatype Placed = Placed(id: nat, area: Geometry)

  function Offset(p: Point, s: Surface): Point {
    Point(p.x + s.dx, p.y + s.dy)
  }

  /** The subsurfaces of s from position i on, in post-order: children before self, siblings in list order. */
  function PostOrder(s: Surface, i: nat, origin: Point): seq<Placed>
    requires i <= |s.subs|
    decreases s, |s.subs| - i
  {
    if i == |s.subs| then []
    else PlacedSub(s, i, origin) + PostOrder(s, i + 1, origin)
  }

  function PlacedSub(s: Surface, i: nat, origin: Point): seq<Placed>
    requires i < |s.subs|
    decreases s, |s.subs| - i, 0
  {
    match s.subs[i]
    case None => []
    case Some(c) =>
      var o := Offset(origin, c);
      PostOrder(c, 0, o) + [Placed(c.id, Geometry(o, c.size))]
  }

  /** The first rectangle of the list that contains the point. */
  function First(list: seq<Placed>, point: Geometry): (r: Option<Placed>)
    ensures r.None? ==> forall k :: 0 <= k < |list| ==> !Contains(list[k].area, point)
    ensures r.Some? ==> exists k :: 0 <= k < |list| && list[k] == r.value && Contains(list[k].area, point)
                                    && forall j :: 0 <= j < k ==> !Contains(list[j].area, point)
  {
    if list == [] then None
    else if Contains(list[0].area, point) then
      assert list[0].area == list[0].area;
      Some(list[0])
    else
      var r := First(list[1..], point);
      assert r.Some? ==> exists k :: 0 <= k < |list| && list[k] == r.value && Contains(list[k].area, point)
                                     && (forall j :: 0 <= j < k ==> !Contains(list[j].area, point)) by {
        if r.Some? {
          var k :| 0 <= k < |list[1..]| && list[1..][k] == r.value && Contains(list[1..][k].area, point)
                   && forall j :: 0 <= j < k ==> !Contains(list[1..][j].area, point);
          assert list[k + 1] == r.value;
          assert forall j :: 1 <= j < k + 1 ==> list[j] == list[1..][j - 1];
        }
      }
      r
  }

  lemma {:induction false} FirstAppend(a: seq<Placed>, b: seq<Placed>, point: Geometry)
    ensures First(a + b, point) == if First(a, point).Some? then First(a, point) else First(b, point)
  {
    if a == [] {
      assert a + b == b;
    } else {
      assert (a + b)[1..] == a[1..] + b;
      FirstAppend(a[1..], b, point);
    }
  }

  /** struct wlc_focused_surface. */
  class Focus {
    var id: nat
    var offset: Point

    constructor ()
      ensures id == 0
    {
      id, offset := 0, Point(0, 0);
    }
  }

  /** No resource number is 0. */
  predicate Numbered(s: Surface) {
    forall c :: c in s.subs && c.Some? ==> c.value.id != 0 && Numbered(c.value)
  }

  /** A hit leaves its number and absolute origin in the accumulator, a miss leaves it as it was. */
  predicate Reports(hit: Option<Placed>, before: Point, id: nat, offset: Point) {
    if hit.Some? then id == hit.value.id != 0 && offset == hit.value.area.origin else id == 0 && offset == before
  }

  /** find_surface_at_position_recursive. */
  method Find(point: Geometry, parent: Surface, out: Focus)
    requires out.id == 0 && Numbered(parent)
    modifies out
    ensures Reports(First(PostOrder(parent, 0, old(out.offset)), point), old(out.offset), out.id, out.offset)
    decreases parent, 0
  {
    var i := 0;
    ghost var origin := out.offset;
    while i < |parent.subs|
      invariant 0 <= i <= |parent.subs| && out.id == 0 && out.offset == origin
      invariant First(PostOrder(parent, 0, origin), point) == First(PostOrder(parent, i, origin), point)
    {
      FirstAppend(PlacedSub(parent, i, origin), PostOrder(parent, i + 1, origin), point);
      var sub := parent.subs[i];
      if sub.Some? {
        assert sub in parent.subs;
        FindSub(point, sub.value, out);
        if out.id != 0 {
          return;
        }
      }
      i := i + 1;
    }
  }

  /** The body of its loop, for one subsurface that resolves. */
  method FindSub(point: Geometry, c: Surface, out: Focus)
    requires out.id == 0 && Numbered(c) && c.id != 0
    modifies out
    ensures
      var o := Offset(old(out.offset), c);
      Reports(First(PostOrder(c, 0, o) + [Placed(c.id, Geometry(o, c.size))], point), old(out.offset), out.id,
        out.offset)
    decreases c, 1
  {
    ghost var o := Offset(out.offset, c);
    FirstAppend(PostOrder(c, 0, o), [Placed(c.id, Geometry(o, c.size))], point);
    out.offset := Point(out.offset.x + c.dx, out.offset.y + c.dy);
    Find(point, c, out);
    if out.id != 0 {
      return;
    }
    if Contains(Geometry(out.offset, c.size), point) {
      out.id := c.id;
      return;
    }
    out.offset := Point(out.offset.x - c.dx, out.offset.y - c.dy);
  }

  /** p is some subsurface below s, at any depth, at the sum of the offsets on the way to it. */
  predicate Stands(s: Surface, origin: Point, p: Placed) {
    exists c :: c in s.subs && c.Some? && (
      var o := Offset(origin, c.value);
      p == Placed(c.value.id, Geometry(o, c.value.size)) || Stands(c.value, o, p))
  }

  /** Exactly the subsurfaces that resolve are tested, each where it stands. */
  lemma {:induction false} TestedStand(s: Surface, i: nat, o: Point, p: Placed)
    requires i <= |s.subs|
    ensures p in PostOrder(s, i, o) <==> Stands(s.(subs := s.subs[i..]), o, p)
    decreases s, |s.subs| - i
  {
    var rest := s.(subs := s.subs[i..]);
    if i < |s.subs| {
      TestedStand(s, i + 1, o, p);
      assert s.subs[i..] == [s.subs[i]] + s.subs[i + 1..];
      if s.subs[i].Some? {
        var c := s.subs[i].value;
        TestedStand(c, 0, Offset(o, c), p);
        assert c.(subs := c.subs[0..]) == c;
      }
      var next := s.(subs := s.subs[i + 1..]);
      assert Stands(rest, o, p) <==> Stands(next, o, p) || p in PlacedSub(s, i, o) by {
        if Stands(rest, o, p) {
          var c :| c in rest.subs && c.Some? && (
            var o' := Offset(o, c.value);
            p == Placed(c.value.id, Geometry(o', c.value.size)) || Stands(c.value, o', p));
          assert c == s.subs[i] || c in next.subs;
        }
        if Stands(next, o, p) {
          var c :| c in next.subs && c.Some? && (
            var o' := Offset(o, c.value);
            p == Placed(c.value.id, Geometry(o', c.value.size)) || Stands(c.value, o', p));
          assert c in rest.subs;
        }
      }
    }
  }

  /** The whole search goes through exactly these. */
  lemma AllThatStandIsTested(s: Surface, o: Point, p: Placed)
    ensures p in PostOrder(s, 0, o) <==> Stands(s, o, p)
  {
    TestedStand(s, 0, o, p);
    assert s.subs[0..] == s.subs && s.(subs := s.subs) == s;
  }

  /** A view of the output: `shown` when it resolves and its mask matches; its bounds and visible area. */
  datatype View = View(shown: bool, bounds: Geometry, area: Geometry, surface: Option<Surface>)

  /** What is tested below the view's own surface, in order. */
  function Tested(v: View): seq<Placed> {
    if v.surface.None? then [] else PostOrder(v.surface.value, 0, v.bounds.origin)
  }

  predicate SomeHas(list: seq<Placed>, px: int, py: int) {
    exists k :: 0 <= k < |list| && Has(list[k].area, px, py)
  }

  predicate FirstHas(list: seq<Placed>, k: nat, px: int, py: int)
    requires k < |list|
  {
    Has(list[k].area, px, py) && forall j :: 0 <= j < k ==> !Has(list[j].area, px, py)
  }

  /** View k is the topmost one that has the pixel. */
  predicate Topmost(views: seq<View>, k: nat, px: int, py: int)
    requires k < |views|
  {
    Under(views[k], px, py) && forall j :: k < j < |views| ==> !Under(views[j], px, py)
  }

  /** The view is shown, and a subsurface of it or its own visible area has the pixel. */
  predicate Under(v: View, px: int, py: int) {
    v.shown && v.surface.Some? && (SomeHas(Tested(v), px, py) || Has(v.area, px, py))
  }

  /** The first subsurface with the pixel is the answer; only without one is it the view's own surface. */
  predicate Answers(v: View, px: int, py: int, id: nat, offset: Point)
    requires v.surface.Some?
  {
    var list := Tested(v);
    if SomeHas(list, px, py) then
      exists k :: 0 <= k < |list| && FirstHas(list, k, px, py) && list[k].id == id && list[k].area.origin == offset
    else Has(v.area, px, py) && id == v.surface.value.id && offset == v.bounds.origin
  }

  /** surface_under_pointer: the topmost view that has the pixel decides. */
  method SurfaceUnderPointer(px: int, py: int, views: seq<View>, out: Focus) returns (found: bool)
    requires forall v :: v in views && v.surface.Some? ==> v.surface.value.id != 0 && Numbered(v.surface.value)
    modifies out
    ensures found <==> exists k :: 0 <= k < |views| && Under(views[k], px, py)
    ensures found ==>
      exists k :: 0 <= k < |views| && Topmost(views, k, px, py) && Answers(views[k], px, py, out.id, out.offset)
    ensures !found ==> out.id == 0
  {
    out.id := 0;
    var point := Geometry(Point(px, py), Size(1, 1));
    var k := |views|;
    while k > 0
      invariant 0 <= k <= |views| && out.id == 0
      invariant forall j :: k <= j < |views| ==> !Under(views[j], px, py)
    {
      k := k - 1;
      var v := views[k];
      assert v in views;
      if v.shown && v.surface.Some? {
        out.offset := v.bounds.origin;
        Find(point, v.surface.value, out);
        FirstByPixel(Tested(v), px, py);
        ContainsPixel(v.area, px, py);
        if out.id != 0 {
          assert Topmost(views, k, px, py);
          return true;
        } else if Contains(v.area, point) {
          out.id := v.surface.value.id;
          assert Topmost(views, k, px, py);
          return true;
        }
      }
    }
    return false;
  }

  /** The search of a list, by pixels. */
  lemma FirstByPixel(list: seq<Placed>, px: int, py: int)
    ensures
      var hit := First(list, Geometry(Point(px, py), Size(1, 1)));
      && (hit.Some? <==> SomeHas(list, px, py))
      && (hit.Some? ==> exists k :: 0 <= k < |list| && FirstHas(list, k, px, py) && list[k] == hit.value)
  {
    forall k | 0 <= k < |list|
      ensures Contains(list[k].area, Geometry(Point(px, py), Size(1, 1))) <==> Has(list[k].area, px, py)
    {
      ContainsPixel(list[k].area, px, py);
    }
  }

  /** A pointer position is inside a rectangle exactly when its pixel is one of the rectangle's. */
  lemma ContainsPixel(area: Geometry, px: int, py: int)
    ensures Contains(area, Geometry(Point(px, py), Size(1, 1))) <==> Has(area, px, py)
  {
  }

  // ------------------------------------------------------ against the picture

  /** The rectangles that are tested, in the order of drawing: a surface before its subsurfaces. */
  function PreOrder(s: Surface, i: nat, origin: Point): seq<Placed>
    requires i <= |s.subs|
    decreases s, |s.subs| - i
  {
    if i == |s.subs| then [] else PreSub(s, i, origin) + PreOrder(s, i + 1, origin)
  }

  function PreSub(s: Surface, i: nat, origin: Point): seq<Placed>
    requires i < |s.subs|
    decreases s, |s.subs| - i, 0
  {
    match s.subs[i]
    case None => []
    case Some(c) =>
      var o := Offset(origin, c);
      [Placed(c.id, Geometry(o, c.size))] + PreOrder(c, 0, o)
  }

  /** subsurfaces_render: what is drawn, in order.  The offsets of the parents in between are not added up. */
  function Painted(s: Surface, i: nat, base: Point): seq<Placed>
    requires i <= |s.subs|
    decreases s, |s.subs| - i
  {
    if i == |s.subs| then [] else PaintedSub(s, i, base) + Painted(s, i + 1, base)
  }

  function PaintedSub(s: Surface, i: nat, base: Point): seq<Placed>
    requires i < |s.subs|
    decreases s, |s.subs| - i, 0
  {
    match s.subs[i]
    case None => []
    case Some(c) =>
      [Placed(c.id, Geometry(Point(base.x + c.drawn.x, base.y + c.drawn.y), c.size))] + Painted(c, 0, base)
  }

  /** The last rectangle of the list that contains the point: what is seen there. */
  function Last(list: seq<Placed>, point: Geometry): (r: Option<Placed>)
    ensures r.Some? ==> r.value in list && Contains(r.value.area, point)
    ensures r.None? ==> forall p :: p in list ==> !Contains(p.area, point)
  {
    if list == [] then None
    else
      var r := Last(list[1..], point);
      assert list == [list[0]] + list[1..];
      if r.Some? then r else if Contains(list[0].area, point) then Some(list[0]) else None
  }

  lemma {:induction false} LastAppend(a: seq<Placed>, b: seq<Placed>, point: Geometry)
    ensures Last(a + b, point) == if Last(b, point).Some? then Last(b, point) else Last(a, point)
  {
    if a == [] {
      assert a + b == b;
    } else {
      assert (a + b)[1..] == a[1..] + b;
      LastAppend(a[1..], b, point);
    }
  }

  /** Drawing and testing go through the same rectangles. */
  lemma {:induction false} SamePlaces(s: Surface, i: nat, o: Point)
    requires i <= |s.subs|
    ensures multiset(PreOrder(s, i, o)) == multiset(PostOrder(s, i, o))
    decreases s, |s.subs| - i
  {
    if i < |s.subs| {
      SamePlacesSub(s, i, o);
      SamePlaces(s, i + 1, o);
    }
  }

  lemma {:induction false} SamePlacesSub(s: Surface, i: nat, o: Point)
    requires i < |s.subs|
    ensures multiset(PreSub(s, i, o)) == multiset(PlacedSub(s, i, o))
    decreases s, |s.subs| - i, 0
  {
    if s.subs[i].Some? { SamePlaces(s.subs[i].value, 0, Offset(o, s.subs[i].value)); }
  }

  lemma SomeSame(pre: seq<Placed>, post: seq<Placed>, point: Geometry)
    requires multiset(pre) == multiset(post)
    ensures First(post, point).Some? <==> Last(pre, point).Some?
  {
    assert forall p :: p in post <==> p in multiset(post);
    assert forall p :: p in pre <==> p in multiset(pre);
  }

  /** The subtree of the i-th subsurface has the point. */
  predicate Covers(s: Surface, i: nat, o: Point, point: Geometry)
    requires i < |s.subs|
  {
    First(PlacedSub(s, i, o), point).Some?
  }

  /** Nowhere in the tree do two siblings, each with all below it, have the point both. */
  predicate Apart(s: Surface, o: Point, point: Geometry)
    decreases s
  {
    && (forall j, k :: 0 <= j < k < |s.subs| ==> !(Covers(s, j, o, point) && Covers(s, k, o, point)))
    && (forall c :: c in s.subs && c.Some? ==> Apart(c.value, Offset(o, c.value), point))
  }

  function Names(s: Surface, i: nat): set<nat>
    requires i <= |s.subs|
    decreases s, |s.subs| - i
  {
    if i == |s.subs| then {} else NamesSub(s, i) + Names(s, i + 1)
  }

  function NamesSub(s: Surface, i: nat): set<nat>
    requires i < |s.subs|
    decreases s, |s.subs| - i, 0
  {
    match s.subs[i]
    case None => {}
    case Some(c) => {c.id} + Names(c, 0)
  }

  /** No surface is in the trees of two siblings. */
  predicate Separate(s: Surface) {
    && (forall j, k :: 0 <= j < k < |s.subs| ==> NamesSub(s, j) !! NamesSub(s, k))
    && (forall c :: c in s.subs && c.Some? ==> Separate(c.value))
  }

  lemma {:induction false} Named(s: Surface, i: nat, o: Point)
    requires i <= |s.subs|
    ensures forall p :: p in PostOrder(s, i, o) ==> p.id in Names(s, i)
    decreases s, |s.subs| - i
  {
    if i < |s.subs| {
      NamedSub(s, i, o);
      Named(s, i + 1, o);
    }
  }

  lemma {:induction false} NamedSub(s: Surface, i: nat, o: Point)
    requires i < |s.subs|
    ensures forall p :: p in PlacedSub(s, i, o) ==> p.id in NamesSub(s, i)
    decreases s, |s.subs| - i, 0
  {
    if s.subs[i].Some? { Named(s.subs[i].value, 0, Offset(o, s.subs[i].value)); }
  }

  /** The hit is in the first sibling that has the point. */
  lemma {:induction false} FirstAt(s: Surface, i: nat, o: Point, point: Geometry) returns (j: nat)
    requires i <= |s.subs|
    ensures i <= j <= |s.subs| && forall m :: i <= m < j ==> !Covers(s, m, o, point)
    ensures j == |s.subs| ==> First(PostOrder(s, i, o), point).None?
    ensures j < |s.subs| ==> Covers(s, j, o, point)
    ensures j < |s.subs| ==> First(PostOrder(s, i, o), point) == First(PlacedSub(s, j, o), point)
    decreases |s.subs| - i
  {
    j := i;
    if i < |s.subs| {
      FirstAppend(PlacedSub(s, i, o), PostOrder(s, i + 1, o), point);
      if !Covers(s, i, o, point) { j := FirstAt(s, i + 1, o, point); }
    }
  }

  lemma SeenWhereCovered(s: Surface, i: nat, o: Point, point: Geometry)
    requires i < |s.subs|
    ensures Covers(s, i, o, point) <==> Last(PreSub(s, i, o), point).Some?
  {
    SamePlacesSub(s, i, o);
    SomeSame(PreSub(s, i, o), PlacedSub(s, i, o), point);
  }

  /** What is seen is in the last one. */
  lemma {:induction false} LastAt(s: Surface, i: nat, o: Point, point: Geometry) returns (k: nat)
    requires i <= |s.subs|
    ensures i <= k <= |s.subs|
    ensures k == |s.subs| ==> Last(PreOrder(s, i, o), point).None? && forall m :: i <= m < k ==> !Covers(s, m, o, point)
    ensures k < |s.subs| ==> Covers(s, k, o, point) && forall m :: k < m < |s.subs| ==> !Covers(s, m, o, point)
    ensures k < |s.subs| ==> Last(PreOrder(s, i, o), point) == Last(PreSub(s, k, o), point)
    decreases |s.subs| - i
  {
    k := i;
    if i < |s.subs| {
      var rest := PreOrder(s, i + 1, o);
      k := LastAt(s, i + 1, o, point);
      assert PreOrder(s, i, o) == PreSub(s, i, o) + rest;
      LastAppend(PreSub(s, i, o), rest, point);
      SeenWhereCovered(s, if k < |s.subs| then k else i, o, point);
      if k == |s.subs| && Covers(s, i, o, point) { k := i; }
    }
  }

  /** In one sibling, with all below it. */
  lemma {:induction false} TopOfSub(s: Surface, i: nat, o: Point, point: Geometry)
    requires i < |s.subs| && Separate(s) && s.subs[i].Some?
    ensures
      var c := s.subs[i].value;
      && (First(PlacedSub(s, i, o), point) == Last(PreSub(s, i, o), point) <==> Apart(c, Offset(o, c), point))
      && (!Covers(s, i, o, point) ==> Apart(c, Offset(o, c), point))
    decreases s, 0
  {
    var c := s.subs[i].value;
    var o' := Offset(o, c);
    var own := [Placed(c.id, Geometry(o', c.size))];
    assert s.subs[i] in s.subs;
    HitIsTopmostExactly(c, o', point);
    SamePlaces(c, 0, o');
    SomeSame(PreOrder(c, 0, o'), PostOrder(c, 0, o'), point);
    FirstAppend(PostOrder(c, 0, o'), own, point);
    LastAppend(own, PreOrder(c, 0, o'), point);
    assert own[1..] == [];
  }

  /** Siblings that do not have the point are apart in themselves. */
  lemma {:induction false} ApartElsewhere(s: Surface, o: Point, point: Geometry, j: nat)
    requires Separate(s) && j <= |s.subs| && forall m :: 0 <= m < |s.subs| && m != j ==> !Covers(s, m, o, point)
    ensures
      var here := if j < |s.subs| then s.subs[j] else None;
      Apart(s, o, point) <==> here.None? || Apart(here.value, Offset(o, here.value), point)
    decreases s, 1
  {
    forall c | c in s.subs && c.Some? && (j < |s.subs| ==> c != s.subs[j])
      ensures Apart(c.value, Offset(o, c.value), point)
    {
      var m :| 0 <= m < |s.subs| && s.subs[m] == c;
      TopOfSub(s, m, o, point);
    }
    if j < |s.subs| { assert s.subs[j] in s.subs; }
  }

  lemma Differ(s: Surface, o: Point, point: Geometry, j: nat, k: nat)
    requires Separate(s) && j < k < |s.subs| && Covers(s, j, o, point) && Covers(s, k, o, point)
    ensures First(PlacedSub(s, j, o), point) != Last(PreSub(s, k, o), point)
  {
    NamedSub(s, j, o);
    NamedSub(s, k, o);
    SeenWhereCovered(s, k, o, point);
    SamePlacesSub(s, k, o);
    assert Last(PreSub(s, k, o), point).value in multiset(PreSub(s, k, o));
    assert NamesSub(s, j) !! NamesSub(s, k);
  }

  /**
   The surface that is hit is the last in the order of drawing that has the pixel, exactly if no
   two siblings compete for it: of those the search takes the first, and the picture shows the last.
   */
  lemma {:induction false} HitIsTopmostExactly(s: Surface, o: Point, point: Geometry)
    requires Separate(s)
    ensures First(PostOrder(s, 0, o), point) == Last(PreOrder(s, 0, o), point) <==> Apart(s, o, point)
    decreases s, 2
  {
    var j := FirstAt(s, 0, o, point);
    var k := LastAt(s, 0, o, point);
    if j < k < |s.subs| {
      Differ(s, o, point, j, k);
    } else {
      ApartElsewhere(s, o, point, j);
      if j < |s.subs| && s.subs[j].Some? { TopOfSub(s, j, o, point); }
    }
  }

  // --------------------------------------- where a nested subsurface is drawn

  lemma {:induction false} SameLength(s: Surface, i: nat, origin: Point, base: Point)
    requires i <= |s.subs|
    ensures |Painted(s, i, base)| == |PreOrder(s, i, origin)|
    ensures PreOrder(s, i, origin) == [] <==> Bare(s, i)
    decreases s, |s.subs| - i
  {
    if i < |s.subs| {
      SameLength(s, i + 1, origin, base);
      SameLengthSub(s, i, origin, base);
    }
  }

  lemma {:induction false} SameLengthSub(s: Surface, i: nat, origin: Point, base: Point)
    requires i < |s.subs|
    ensures |PaintedSub(s, i, base)| == |PreSub(s, i, origin)|
    ensures PreSub(s, i, origin) == [] <==> s.subs[i].None?
    decreases s, |s.subs| - i, 0
  {
    if s.subs[i].Some? { SameLength(s.subs[i].value, 0, Offset(origin, s.subs[i].value), base); }
  }

  /** No subsurface from i on resolves. */
  predicate Bare(s: Surface, i: nat) {
    forall k :: i <= k < |s.subs| ==> s.subs[k].None?
  }

  /** No offset of an attached buffer, and no rounding, comes between the two offsets. */
  predicate Plain(s: Surface) {
    forall c :: c in s.subs && c.Some? ==> c.value.drawn == Point(c.value.dx, c.value.dy) && Plain(c.value)
  }

  /** Whatever has subsurfaces of its own sits at the origin of its parent. */
  predicate Level(s: Surface, i: nat)
    decreases s
  {
    forall k :: i <= k < |s.subs| && s.subs[k].Some? ==>
      var c := s.subs[k].value;
      Bare(c, 0) || (c.dx == 0 && c.dy == 0 && Level(c, 0))
  }

  lemma {:induction false} PaintedAgrees(s: Surface, i: nat, origin: Point, base: Point)
    requires i <= |s.subs| && Plain(s)
    ensures Painted(s, i, base) == PreOrder(s, i, origin) <==> Bare(s, i) || (base == origin && Level(s, i))
    decreases s, |s.subs| - i
  {
    if i < |s.subs| {
      PaintedSubAgrees(s, i, origin, base);
      PaintedAgrees(s, i + 1, origin, base);
      SameLengthSub(s, i, origin, base);
      SameConcat(PaintedSub(s, i, base), Painted(s, i + 1, base), PreSub(s, i, origin), PreOrder(s, i + 1, origin));
      LevelSplit(s, i);
    }
  }

  lemma LevelSplit(s: Surface, i: nat)
    requires i < |s.subs|
    ensures Bare(s, i) <==> s.subs[i].None? && Bare(s, i + 1)
    ensures Level(s, i) <==> LevelAt(s, i) && Level(s, i + 1)
    ensures Bare(s, i + 1) ==> Level(s, i + 1)
  {
  }

  predicate LevelAt(s: Surface, i: nat)
    requires i < |s.subs|
  {
    s.subs[i].Some? ==>
      var c := s.subs[i].value;
      Bare(c, 0) || (c.dx == 0 && c.dy == 0 && Level(c, 0))
  }

  lemma {:induction false} PaintedSubAgrees(s: Surface, i: nat, origin: Point, base: Point)
    requires i < |s.subs| && Plain(s)
    ensures PaintedSub(s, i, base) == PreSub(s, i, origin) <==> s.subs[i].None? || (base == origin && LevelAt(s, i))
    decreases s, |s.subs| - i, 0
  {
    if s.subs[i].Some? {
      var c := s.subs[i].value;
      assert s.subs[i] in s.subs;
      var o := Offset(origin, c);
      PaintedAgrees(c, 0, o, base);
      var p, q := Placed(c.id, Geometry(Offset(base, c), c.size)), Placed(c.id, Geometry(o, c.size));
      SameLength(c, 0, o, base);
      SameConcat([p], Painted(c, 0, base), [q], PreOrder(c, 0, o));
      assert [p] == [q] <==> base == origin by { assert [p][0] == p && [q][0] == q; }
    }
  }

  lemma SameConcat(a: seq<Placed>, b: seq<Placed>, c: seq<Placed>, d: seq<Placed>)
    requires |a| == |c|
    ensures a + b == c + d <==> a == c && b == d
  {
    if a + b == c + d {
      assert a == (a + b)[..|a|] && c == (c + d)[..|c|] && b == (a + b)[|a|..] && d == (c + d)[|c|..];
    }
  }

  /**
   Every subsurface is drawn where it is tested exactly if those with subsurfaces of their own sit
   at the origin of their parents, since drawing does not add up the offsets in between.
   */
  lemma PaintedWhereTestedExactly(s: Surface, o: Point)
    requires Plain(s)
    ensures Painted(s, 0, o) == PreOrder(s, 0, o) <==> Level(s, 0)
  {
    PaintedAgrees(s, 0, o, o);
  }

  /** Then what is hit is what is seen, exactly if no two siblings compete for the pixel. */
  lemma HitIsSeenExactly(s: Surface, o: Point, point: Geometry)
    requires Plain(s) && Level(s, 0) && Separate(s)
    ensures First(PostOrder(s, 0, o), point) == Last(Painted(s, 0, o), point) <==> Apart(s, o, point)
  {
    PaintedWhereTestedExactly(s, o);
    HitIsTopmostExactly(s, o, point);
  }

  lemma OneSub(s: Surface, c: Surface, o: Point, base: Point)
    requires s.subs == [Some(c)]
    ensures PostOrder(s, 0, o) == PostOrder(c, 0, Offset(o, c)) + [Placed(c.id, Geometry(Offset(o, c), c.size))]
    ensures Painted(s, 0, base)
      == [Placed(c.id, Geometry(Point(base.x + c.drawn.x, base.y + c.drawn.y), c.size))] + Painted(c, 0, base)
  {
    assert PostOrder(s, 1, o) == [] && Painted(s, 1, base) == [];
  }

  /** A subsurface at (10, 0) with one of its own at its origin: the inner one is hit where the outer one is seen. */
  lemma NestedExample()
    ensures
      var inner := Surface(3, 0, 0, Point(0, 0), Size(5, 5), []);
      var outer := Surface(2, 10, 0, Point(10, 0), Size(5, 5), [Some(inner)]);
      var view := Surface(1, 0, 0, Point(0, 0), Size(20, 5), [Some(outer)]);
      var pixel := Geometry(Point(12, 0), Size(1, 1));
      && First(PostOrder(view, 0, Point(0, 0)), pixel) == Some(Placed(3, Geometry(Point(10, 0), Size(5, 5))))
      && Last(Painted(view, 0, Point(0, 0)), pixel) == Some(Placed(2, Geometry(Point(10, 0), Size(5, 5))))
  {
    var inner := Surface(3, 0, 0, Point(0, 0), Size(5, 5), []);
    var outer := Surface(2, 10, 0, Point(10, 0), Size(5, 5), [Some(inner)]);
    var view := Surface(1, 0, 0, Point(0, 0), Size(20, 5), [Some(outer)]);
    var there, here := Geometry(Point(10, 0), Size(5, 5)), Geometry(Point(0, 0), Size(5, 5));
    OneSub(outer, inner, Point(10, 0), Point(0, 0));
    OneSub(view, outer, Point(0, 0), Point(0, 0));
    assert PostOrder(view, 0, Point(0, 0)) == [Placed(3, there), Placed(2, there)];
    var drawn := [Placed(2, there), Placed(3, here)];
    assert Painted(view, 0, Point(0, 0)) == drawn;
    assert drawn[1..] == [Placed(3, here)] && drawn[1..][1..] == [];
  }
}
