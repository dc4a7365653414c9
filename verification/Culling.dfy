/**
 Occlusion culling of src/compositor/output.c: a boolean grid of the size of the
 virtual resolution is filled front to back, and only views that still touch an
 unfilled cell are drawn.  The main theorem says that the pixels on the screen do
 not notice.
 */
module Culling {
  import opened Geometry

  /**
   One entry of the output's view list.  `live` says that the view and its surface
   still resolve.  `rect` and `solid` are what wlc_view_get_opaque returns: with an opaque
   region its extents, though the region itself may have gaps.  `painted` are the rectangles
   the renderer draws: the view's own surface and its subsurfaces, which may stick out of it.
   */
  datatype View = View(
    live: bool, attached: bool, mask: bv32, solid: bool, rect: Geometry, region: seq<Geometry>,
    painted: seq<Geometry>)

  predicate InRegion(region: seq<Geometry>, x: int, y: int) {
    exists k :: 0 <= k < |region| && Has(region[k], x, y)
  }

  const TWO_TO_32 := 0x1_0000_0000

  predicate OnScreen(screen: Size, x: int, y: int) {
    0 <= x < screen.w && 0 <= y < screen.h
  }

  predicate Visible(v: View, activeMask: bv32) {
    v.live && v.attached && (v.mask & activeMask) != 0
  }

  /** Near corner of the cells that a view tests and fills. */
  function NearCorner(g: Geometry, screen: Size): Point {
    Point(Clamp(g.origin.x, 0, screen.w), Clamp(g.origin.y, 0, screen.h))
  }

  /** Far corner: clamped to at least 1, which is where phantom cells come from. */
  function FarCorner(g: Geometry, screen: Size): Point
    requires screen.w >= 1 && screen.h >= 1
  {
    Point(Clamp(g.origin.x + g.size.w, 1, screen.w), Clamp(g.origin.y + g.size.h, 1, screen.h))
  }

  predicate InBox(a: Point, b: Point, x: int, y: int) {
    a.x <= x < b.x && a.y <= y < b.y
  }

  /** The cells a view with this rectangle tests, and fills when it is opaque. */
  predicate Touches(g: Geometry, screen: Size, x: int, y: int)
    requires screen.w >= 1 && screen.h >= 1
  {
    InBox(NearCorner(g, screen), FarCorner(g, screen), x, y)
  }

  /** Some visible opaque view at position k or above fills the cell (x, y). */
  ghost predicate Covered(views: seq<View>, k: nat, activeMask: bv32, screen: Size, x: int, y: int)
    requires screen.w >= 1 && screen.h >= 1
  {
    exists j :: k <= j < |views| && Visible(views[j], activeMask) && views[j].solid
      && Touches(views[j].rect, screen, x, y)
  }

  lemma CoveredStep(views: seq<View>, k: nat, activeMask: bv32, screen: Size, x: int, y: int)
    requires k < |views| && screen.w >= 1 && screen.h >= 1
    ensures Covered(views, k, activeMask, screen, x, y)
       <==> (Covered(views, k + 1, activeMask, screen, x, y)
             || (Visible(views[k], activeMask) && views[k].solid && Touches(views[k].rect, screen, x, y)))
  {
  }

  /** View k is visible and touches a cell that no view above it fills. */
  ghost predicate Drawn(views: seq<View>, k: nat, activeMask: bv32, screen: Size)
    requires k < |views| && screen.w >= 1 && screen.h >= 1
  {
    && Visible(views[k], activeMask)
    && (exists x, y ::
          && OnScreen(screen, x, y) && Touches(views[k].rect, screen, x, y)
          && !Covered(views, k + 1, activeMask, screen, x, y))
  }

  /** The views drawn among positions k and above, bottom to top. */
  ghost function DrawnFrom(views: seq<View>, k: nat, activeMask: bv32, screen: Size): seq<View>
    requires k <= |views| && screen.w >= 1 && screen.h >= 1
    decreases |views| - k
  {
    if k == |views| then []
    else (if Drawn(views, k, activeMask, screen) then [views[k]] else []) + DrawnFrom(views, k + 1, activeMask, screen)
  }

  /** The views whose surface is there and attached, and that share an active bit, bottom to top. */
  function Mapped(views: seq<View>, activeMask: bv32): seq<View> {
    if views == [] then []
    else
      var v := views[0];
      (if v.live && v.attached && (v.mask & activeMask) != 0 then [v] else []) + Mapped(views[1..], activeMask)
  }

  lemma {:induction false} ListedAreMapped(views: seq<View>, k: nat, activeMask: bv32, screen: Size)
    requires k <= |views| && screen.w >= 1 && screen.h >= 1
    ensures forall v :: v in DrawnFrom(views, k, activeMask, screen) ==>
      v.live && v.attached && (v.mask & activeMask) != 0
    decreases |views| - k
  {
    if k < |views| { ListedAreMapped(views, k + 1, activeMask, screen); }
  }

  /** From these positions on, the two lists draw the same views and cover the same cells. */
  ghost predicate Alike(a: seq<View>, i: nat, b: seq<View>, k: nat, activeMask: bv32, screen: Size)
    requires i <= |a| && k <= |b| && screen.w >= 1 && screen.h >= 1
  {
    && DrawnFrom(a, i, activeMask, screen) == DrawnFrom(b, k, activeMask, screen)
    && forall x, y :: Covered(a, i, activeMask, screen, x, y) <==> Covered(b, k, activeMask, screen, x, y)
  }

  /** A view in front of a position does not matter behind it. */
  lemma {:induction false} Behind(v: View, views: seq<View>, k: nat, activeMask: bv32, screen: Size)
    requires k <= |views| && screen.w >= 1 && screen.h >= 1
    ensures Alike([v] + views, k + 1, views, k, activeMask, screen)
    decreases |views| - k
  {
    var whole := [v] + views;
    if k < |views| {
      Behind(v, views, k + 1, activeMask, screen);
      forall x, y
        ensures Covered(whole, k + 1, activeMask, screen, x, y) <==> Covered(views, k, activeMask, screen, x, y)
      {
        CoveredStep(whole, k + 1, activeMask, screen, x, y);
        CoveredStep(views, k, activeMask, screen, x, y);
      }
      assert whole[k + 1] == views[k];
    }
  }

  lemma AlikeOn(a: seq<View>, b: seq<View>, c: seq<View>, activeMask: bv32, screen: Size)
    requires screen.w >= 1 && screen.h >= 1
    requires Alike(a, 0, b, 0, activeMask, screen) && Alike(b, 0, c, 0, activeMask, screen)
    ensures Alike(a, 0, c, 0, activeMask, screen)
  {
  }

  lemma AlikeBehind(v: View, a: seq<View>, b: seq<View>, activeMask: bv32, screen: Size)
    requires screen.w >= 1 && screen.h >= 1 && Alike(a, 0, b, 0, activeMask, screen)
    ensures Alike([v] + a, 0, [v] + b, 0, activeMask, screen)
  {
    Behind(v, a, 0, activeMask, screen);
    Behind(v, b, 0, activeMask, screen);
    forall x, y
      ensures Covered([v] + a, 0, activeMask, screen, x, y) <==> Covered([v] + b, 0, activeMask, screen, x, y)
    {
      CoveredStep([v] + a, 0, activeMask, screen, x, y);
      CoveredStep([v] + b, 0, activeMask, screen, x, y);
    }
    assert Drawn([v] + a, 0, activeMask, screen) <==> Drawn([v] + b, 0, activeMask, screen);
  }

  lemma UnmappedIsNothing(v: View, views: seq<View>, activeMask: bv32, screen: Size)
    requires screen.w >= 1 && screen.h >= 1 && !(v.live && v.attached && (v.mask & activeMask) != 0)
    ensures Alike([v] + views, 0, views, 0, activeMask, screen)
  {
    var whole := [v] + views;
    Behind(v, views, 0, activeMask, screen);
    assert whole[0] == v && !Visible(v, activeMask);
    assert DrawnFrom(whole, 0, activeMask, screen) == [] + DrawnFrom(whole, 1, activeMask, screen);
    forall x, y
      ensures Covered(whole, 0, activeMask, screen, x, y) <==> Covered(views, 0, activeMask, screen, x, y)
    {
      CoveredStep(whole, 0, activeMask, screen, x, y);
    }
  }

  /**
   Striking from the list every view that is gone or unattached, or shares no active bit, changes
   neither what is listed nor what is covered.
   */
  lemma {:induction false} OnlyMappedCount(views: seq<View>, activeMask: bv32, screen: Size)
    requires screen.w >= 1 && screen.h >= 1
    ensures Alike(views, 0, Mapped(views, activeMask), 0, activeMask, screen)
  {
    if views != [] {
      OnlyMappedCount(views[1..], activeMask, screen);
      assert views == [views[0]] + views[1..];
      OneMore(views[0], views[1..], activeMask, screen);
    }
  }

  lemma OneMore(v: View, rest: seq<View>, activeMask: bv32, screen: Size)
    requires screen.w >= 1 && screen.h >= 1 && Alike(rest, 0, Mapped(rest, activeMask), 0, activeMask, screen)
    ensures Alike([v] + rest, 0, Mapped([v] + rest, activeMask), 0, activeMask, screen)
  {
    var kept := Mapped(rest, activeMask);
    assert ([v] + rest)[1..] == rest;
    if v.live && v.attached && (v.mask & activeMask) != 0 {
      assert Mapped([v] + rest, activeMask) == [v] + kept;
      AlikeBehind(v, rest, kept, activeMask, screen);
    } else {
      assert Mapped([v] + rest, activeMask) == [] + kept == kept;
      UnmappedIsNothing(v, rest, activeMask, screen);
      AlikeOn([v] + rest, rest, kept, activeMask, screen);
    }
  }

  /** What is painted without culling are exactly these, bottom to top. */
  lemma {:induction false} AllMappedPainted(views: seq<View>, k: nat, activeMask: bv32)
    requires k <= |views|
    ensures VisibleFrom(views, k, activeMask) == Mapped(views[k..], activeMask)
    decreases |views| - k
  {
    if k < |views| {
      AllMappedPainted(views, k + 1, activeMask);
      assert views[k..][1..] == views[k + 1..];
    }
  }

  // ---------------------------------------------------------------- the grid

  /** Index of the pixel (x, y) in a row-major grid of width w. */
  function Cell(w: nat, x: int, y: int): int {
    x + y * w
  }

  /** Row z starts at least one row width after row y. */
  lemma {:induction false} RowsApart(w: nat, y: nat, z: nat)
    requires y < z
    ensures y * w + w <= z * w
    decreases z
  {
    assert z * w == (z - 1) * w + w;
    if y < z - 1 {
      RowsApart(w, y, z - 1);
    }
  }

  /** The slice of row y between columns x0 and x1 lies inside the grid. */
  lemma RowSlice(screen: Size, x0: nat, x1: nat, y: nat)
    requires x0 <= x1 <= screen.w && y < screen.h
    ensures 0 <= Cell(screen.w, x0, y) <= Cell(screen.w, x1, y) <= screen.w * screen.h
  {
    RowsApart(screen.w, y, screen.h);
    assert 0 <= y * screen.w;
  }

  /** Distinct pixels of the screen have distinct cells; row y is the stretch [y * w, y * w + w). */
  lemma SameRow(screen: Size, x: nat, y: nat, x0: nat, x1: nat, y1: nat)
    requires OnScreen(screen, x, y) && x0 <= x1 <= screen.w
    ensures Cell(screen.w, x0, y1) <= Cell(screen.w, x, y) < Cell(screen.w, x1, y1) <==> y == y1 && x0 <= x < x1
  {
    if y < y1 {
      RowsApart(screen.w, y, y1);
    } else if y1 < y {
      RowsApart(screen.w, y1, y);
    }
  }

  /** Every cell of the grid is the cell of a pixel. */
  lemma PixelOf(screen: Size, i: nat) returns (x: nat, y: nat)
    requires i < screen.w * screen.h
    ensures OnScreen(screen, x, y) && Cell(screen.w, x, y) == i
  {
    if screen.w == 0 {
      assert false;
    }
    x, y := i, 0;
    while x >= screen.w
      invariant Cell(screen.w, x, y) == i
      decreases x
    {
      x, y := x - screen.w, y + 1;
    }
    if y > screen.h {
      RowsApart(screen.w, screen.h, y);
    }
  }

  /** memchr for `false` over a stretch of the grid. */
  method FindUnset(g: array<bool>, from: nat, to: nat) returns (found: bool)
    requires from <= to <= g.Length
    ensures found <==> exists i :: from <= i < to && !g[i]
  {
    var i := from;
    while i < to
      invariant from <= i <= to
      invariant forall j :: from <= j < i ==> g[j]
    {
      if !g[i] {
        return true;
      }
      i := i + 1;
    }
    return false;
  }

  /** memset over a stretch of the grid. */
  method Fill(g: array<bool>, from: nat, to: nat, value: bool)
    requires from <= to <= g.Length
    modifies g
    ensures forall i :: 0 <= i < g.Length ==> g[i] == if from <= i < to then value else old(g[i])
  {
    var i := from;
    while i < to
      invariant from <= i <= to
      invariant forall j :: 0 <= j < g.Length ==> g[j] == if from <= j < i then value else old(g[j])
    {
      g[i] := value;
      i := i + 1;
    }
  }

  function Area(r: Size): nat {
    r.w * r.h
  }

  /** The part of struct wlc_output that culling reads and writes. */
  class Output {
    var resolution: Size
    var virtual: Size
    var scale: nat
    var blit: array<bool>
    var views: seq<View>
    var activeMask: bv32

    /** The grid has exactly one cell for every virtual pixel. */
    predicate Valid()
      reads this
    {
      blit.Length == virtual.w * virtual.h
    }

    constructor ()
      ensures Valid() && fresh(blit) && virtual == Size(0, 0) && scale == 1
    {
      resolution, virtual, scale := Size(0, 0), Size(0, 0), 1;
      blit := new bool[0];
      views, activeMask := [], 1;
    }

    ghost predicate CellSet(x: int, y: int)
      reads this, blit
      requires Valid() && OnScreen(virtual, x, y)
    {
      RowSlice(virtual, x, x + 1, y);
      blit[Cell(virtual.w, x, y)]
    }

    /**
     Returns whether anything changed; a zero extent, the current setting or a size that overflows
     when multiplied changes nothing.  `max` is the largest size_t.
     */
    method SetResolution(r: Size, s: nat, max: nat) returns (changed: bool)
      requires Valid()
      modifies this
      ensures Valid()
      ensures changed <==> (r.w != 0 && r.h != 0 && s != 0 && !(s == old(scale) && r == old(resolution))
        && Area(Size(r.w / s, r.h / s)) <= max)
      ensures !changed ==> blit == old(blit) && resolution == old(resolution)
      ensures !changed ==> virtual == old(virtual) && scale == old(scale)
      ensures changed ==> resolution == r && scale == s && virtual == Size(r.w / s, r.h / s) && blit.Length <= max
      ensures changed ==> fresh(blit) && forall i :: 0 <= i < blit.Length ==> !blit[i]
      ensures views == old(views) && activeMask == old(activeMask)
    {
      if r.w == 0 || r.h == 0 || s == 0 || (scale == s && r == resolution) {
        return false;
      }
      var v := Size(r.w / s, r.h / s);
      if Area(v) > max {
        return false;
      }
      blit := new bool[v.w * v.h](_ => false);
      resolution, virtual, scale := r, v, s;
      return true;
    }

    /** One round of the loop of Blit, on row y. */
    method BlitRow(x0: nat, x1: nat, y: nat, shouldBlit: bool, seen: bool) returns (visible: bool)
      requires Valid() && x0 <= x1 <= virtual.w && y < virtual.h
      modifies blit
      ensures visible <==> (seen || exists x :: x0 <= x < x1 && !old(CellSet(x, y)))
      ensures forall x, z :: OnScreen(virtual, x, z) ==>
        CellSet(x, z) == (old(CellSet(x, z)) || (shouldBlit && z == y && x0 <= x < x1))
    {
      RowSlice(virtual, x0, x1, y);
      var off, memb := Cell(virtual.w, x0, y), x1 - x0;
      visible := seen;
      if !visible {
        visible := FindUnset(blit, off, off + memb);
        if visible {
          ghost var i :| off <= i < off + memb && !blit[i];
          assert !CellSet(x0 + (i - off), y);
        }
      }
      if shouldBlit {
        Fill(blit, off, off + memb, true);
      }
      forall x, z | OnScreen(virtual, x, z)
        ensures CellSet(x, z) == (old(CellSet(x, z)) || (shouldBlit && z == y && x0 <= x < x1))
      {
        SameRow(virtual, x, z, x0, x1, y);
        RowSlice(virtual, x, x + 1, z);
      }
    }

    /**
     Tests the box [a, b) of the grid for an unset cell, and sets the whole box when
     shouldBlit.  A box that is only tested is left early.
     */
    method Blit(a: Point, b: Point, shouldBlit: bool) returns (visible: bool)
      requires Valid() && virtual.w >= 1
      requires 0 <= a.x <= b.x <= virtual.w && 0 <= a.y && b.y <= virtual.h
      modifies blit
      ensures visible <==> exists x, y :: OnScreen(virtual, x, y) && InBox(a, b, x, y) && !old(CellSet(x, y))
      ensures forall x, y :: OnScreen(virtual, x, y) ==>
        CellSet(x, y) == (old(CellSet(x, y)) || (shouldBlit && InBox(a, b, x, y)))
    {
      visible := false;
      var y := a.y;
      while y < b.y
        invariant a.y <= y && (y <= b.y || y == a.y)
        invariant visible <==>
          exists x, z :: OnScreen(virtual, x, z) && z < y && InBox(a, b, x, z) && !old(CellSet(x, z))
        invariant visible ==> shouldBlit
        invariant forall x, z :: OnScreen(virtual, x, z) ==>
          CellSet(x, z) == (old(CellSet(x, z)) || (shouldBlit && z < y && InBox(a, b, x, z)))
      {
        var visible' := BlitRow(a.x, b.x, y, shouldBlit, visible);
        if visible' && !shouldBlit {
          return true;
        }
        visible := visible';
        y := y + 1;
      }
    }

    /** One round of the scan: tests view k against the grid and adds it when it is solid. */
    method ScanView(k: nat) returns (seen: bool)
      requires Valid() && virtual.w >= 1 && virtual.h >= 1 && k < |views|
      requires forall x, y :: OnScreen(virtual, x, y) ==>
        (CellSet(x, y) <==> Covered(views, k + 1, activeMask, virtual, x, y))
      modifies blit
      ensures seen <==> Drawn(views, k, activeMask, virtual)
      ensures forall x, y :: OnScreen(virtual, x, y) ==>
        (CellSet(x, y) <==> Covered(views, k, activeMask, virtual, x, y))
    {
      var v := views[k];
      seen := false;
      if Visible(v, activeMask) {
        seen := Blit(NearCorner(v.rect, virtual), FarCorner(v.rect, virtual), v.solid);
      }
      forall x, y | OnScreen(virtual, x, y)
        ensures CellSet(x, y) <==> Covered(views, k, activeMask, virtual, x, y)
      {
        CoveredStep(views, k, activeMask, virtual, x, y);
      }
    }

    method ClearGrid(gsz: nat)
      requires Valid() && gsz == blit.Length
      modifies blit
      ensures forall x, y :: OnScreen(virtual, x, y) ==> !CellSet(x, y)
    {
      Fill(blit, 0, gsz, false);
      forall x, y | OnScreen(virtual, x, y)
        ensures !CellSet(x, y)
      {
        RowSlice(virtual, x, x + 1, y);
      }
    }

    method AnyUnset(gsz: nat) returns (found: bool)
      requires Valid() && gsz == blit.Length
      ensures found <==> exists x, y :: OnScreen(virtual, x, y) && !CellSet(x, y)
    {
      found := FindUnset(blit, 0, gsz);
      if found {
        ghost var i: nat :| i < gsz && !blit[i];
        ghost var x, y := PixelOf(virtual, i);
        assert OnScreen(virtual, x, y) && !CellSet(x, y);
      }
      forall x, y | OnScreen(virtual, x, y) && !CellSet(x, y)
        ensures found
      {
        RowSlice(virtual, x, x + 1, y);
      }
    }

    /**
     Scans the views front to back.  Returns those to draw, bottom to top, and whether
     the background still shows.  The grid ends as the union of the filled boxes.
     */
    method GetVisibleViews() returns (visible: seq<View>, background: bool)
      requires Valid() && virtual.w >= 1 && virtual.h >= 1 && virtual.w * virtual.h < TWO_TO_32
      modifies blit
      ensures visible == DrawnFrom(views, 0, activeMask, virtual) == DrawnFrom(Mapped(views, activeMask), 0,
        activeMask, virtual)
      ensures forall v :: v in visible ==> v.live && v.attached && (v.mask & activeMask) != 0
      ensures forall x, y :: OnScreen(virtual, x, y) ==>
        (CellSet(x, y) <==> Covered(views, 0, activeMask, virtual, x, y))
      ensures background <==> exists x, y :: OnScreen(virtual, x, y) && !Covered(views, 0, activeMask, virtual, x, y)
    {
      var gsz := (virtual.w * virtual.h) % TWO_TO_32;
      ClearGrid(gsz);
      visible := [];
      var k: nat := |views|;
      while k > 0
        invariant k <= |views|
        invariant visible == DrawnFrom(views, k, activeMask, virtual)
        invariant forall x, y :: OnScreen(virtual, x, y) ==>
          (CellSet(x, y) <==> Covered(views, k, activeMask, virtual, x, y))
      {
        k := k - 1;
        var seen := ScanView(k);
        if seen {
          visible := [views[k]] + visible;
        }
      }
      background := AnyUnset(gsz);
      OnlyMappedCount(views, activeMask, virtual);
      ListedAreMapped(views, 0, activeMask, virtual);
    }
  }

  // ------------------------------------------------------- pixels on the screen

  /** What drawing does to one pixel: solid parts replace it, the rest blends over it. */
  datatype Brush<!C> = Brush(replace: (View, int, int) -> C, over: (View, int, int, C) -> C)

  predicate Solid(v: View, x: int, y: int) {
    v.solid && InRegion(v.region, x, y)
  }

  /** The colour of the pixel (x, y) after drawing v on top of c. */
  function Layer<C>(v: View, brush: Brush<C>, x: int, y: int, c: C): C {
    if !InRegion(v.painted, x, y) then c
    else if Solid(v, x, y) then brush.replace(v, x, y)
    else brush.over(v, x, y, c)
  }

  /** Painter's algorithm: every listed view in order, bottom to top. */
  function Paint<C>(views: seq<View>, brush: Brush<C>, x: int, y: int, c: C): C {
    if views == [] then c else Paint(views[1..], brush, x, y, Layer(views[0], brush, x, y, c))
  }

  /** All mapped and masked views from position k upwards. */
  function VisibleFrom(views: seq<View>, k: nat, activeMask: bv32): seq<View>
    requires k <= |views|
    decreases |views| - k
  {
    if k == |views| then []
    else (if Visible(views[k], activeMask) then [views[k]] else []) + VisibleFrom(views, k + 1, activeMask)
  }

  /**
   What culling needs of one view: it paints only where it tests, and a solid view
   really is solid wherever it fills the grid.
   */
  ghost predicate Admissible(v: View, screen: Size)
    requires screen.w >= 1 && screen.h >= 1
  {
    forall x, y :: OnScreen(screen, x, y) ==>
      && (InRegion(v.painted, x, y) ==> Touches(v.rect, screen, x, y))
      && (v.solid && Touches(v.rect, screen, x, y) ==> InRegion(v.painted, x, y) && Solid(v, x, y))
  }

  ghost predicate AllAdmissible(views: seq<View>, activeMask: bv32, screen: Size)
    requires screen.w >= 1 && screen.h >= 1
  {
    forall v :: v in views && Visible(v, activeMask) ==> Admissible(v, screen)
  }

  lemma {:induction false} CullingFrom<C>(views: seq<View>, k: nat, activeMask: bv32, screen: Size,
                                          brush: Brush<C>, x: int, y: int, c: C, d: C)
    requires screen.w >= 1 && screen.h >= 1 && k <= |views| && OnScreen(screen, x, y)
    requires AllAdmissible(views, activeMask, screen)
    requires c == d || Covered(views, k, activeMask, screen, x, y)
    ensures Paint(VisibleFrom(views, k, activeMask), brush, x, y, c)
      == Paint(DrawnFrom(views, k, activeMask, screen), brush, x, y, d)
    decreases |views| - k
  {
    if k == |views| {
      return;
    }
    var v := views[k];
    var c' := if Visible(v, activeMask) then Layer(v, brush, x, y, c) else c;
    var d' := if Drawn(views, k, activeMask, screen) then Layer(v, brush, x, y, d) else d;
    assert v in views;
    if !Covered(views, k + 1, activeMask, screen, x, y) {
      if Visible(v, activeMask) {
        assert Admissible(v, screen);
        assert Touches(v.rect, screen, x, y) ==> Drawn(views, k, activeMask, screen);
      }
      assert c' == d';
    }
    CullingFrom(views, k + 1, activeMask, screen, brush, x, y, c', d');
    var vs, ds := VisibleFrom(views, k + 1, activeMask), DrawnFrom(views, k + 1, activeMask, screen);
    assert ([v] + vs)[1..] == vs && ([v] + ds)[1..] == ds;
    assert [] + vs == vs && [] + ds == ds;
  }

  /** The pixel as the render loop leaves it: the background hook runs only when the flag says so. */
  ghost function Culled<C>(views: seq<View>, activeMask: bv32, screen: Size, brush: Brush<C>, x: int, y: int,
    wallpaper: C, black: C): C
    requires screen.w >= 1 && screen.h >= 1
  {
    var shows := exists i, j :: OnScreen(screen, i, j) && !Covered(views, 0, activeMask, screen, i, j);
    Paint(DrawnFrom(views, 0, activeMask, screen), brush, x, y, if shows then wallpaper else black)
  }

  /**
   Culling never changes a pixel: painting only the list that GetVisibleViews builds,
   and the background only when its flag is set, gives the picture of painting
   everything bottom to top.
   */
  lemma CullingPreservesImage<C>(views: seq<View>, activeMask: bv32, screen: Size,
                                 brush: Brush<C>, x: int, y: int, wallpaper: C, black: C)
    requires screen.w >= 1 && screen.h >= 1 && OnScreen(screen, x, y)
    requires AllAdmissible(views, activeMask, screen)
    ensures Culled(views, activeMask, screen, brush, x, y, wallpaper, black)
         == Paint(VisibleFrom(views, 0, activeMask), brush, x, y, wallpaper)
  {
    var shows := exists i, j :: OnScreen(screen, i, j) && !Covered(views, 0, activeMask, screen, i, j);
    CullingFrom(views, 0, activeMask, screen, brush, x, y, wallpaper, if shows then wallpaper else black);
  }

  // ------------------------------------------------- exactly when culling is safe

  /**
   The guard a caller can test: a solid rectangle that ends left of or above the
   screen fills a phantom column or row, unless it is empty in the other direction.
   */
  predicate NoPhantom(g: Geometry, screen: Size) {
    || (g.origin.x + g.size.w >= 1 && g.origin.y + g.size.h >= 1)
    || g.origin.x >= screen.w || g.origin.y >= screen.h
    || (g.size.w == 0 && g.origin.x >= 1)
    || (g.size.h == 0 && g.origin.y >= 1)
  }

  /** For a view that paints exactly the rectangle it tests, without gaps, being safe to cull around is that guard. */
  lemma AdmissibleIffNoPhantom(v: View, screen: Size)
    requires screen.w >= 1 && screen.h >= 1 && v.painted == [v.rect] && v.region == [v.rect]
    ensures Admissible(v, screen) <==> (v.solid ==> NoPhantom(v.rect, screen))
  {
    forall x, y ensures InRegion(v.region, x, y) == Has(v.rect, x, y) { assert v.region[0] == v.rect; }
    if v.solid && !NoPhantom(v.rect, screen) {
      var a := NearCorner(v.rect, screen);
      assert OnScreen(screen, a.x, a.y) && Touches(v.rect, screen, a.x, a.y) && !Has(v.rect, a.x, a.y);
    }
  }

  /** No stack of otherwise admissible views around v shows a wrong pixel. */
  ghost predicate Harmless(v: View, activeMask: bv32, screen: Size)
    requires screen.w >= 1 && screen.h >= 1
  {
    forall views: seq<View>, brush: Brush<int>, x, y, wallpaper, black ::
      OnScreen(screen, x, y) && (forall u :: u in views && u != v && Visible(u, activeMask) ==>
        Admissible(u, screen)) ==>
      Culled(views, activeMask, screen, brush, x, y, wallpaper, black)
        == Paint(VisibleFrom(views, 0, activeMask), brush, x, y, wallpaper)
  }

  lemma TwoViews(v: View, u: View, activeMask: bv32, screen: Size)
    requires screen.w >= 1 && screen.h >= 1 && Visible(v, activeMask) && Visible(u, activeMask)
    ensures VisibleFrom([v, u], 0, activeMask) == [v, u]
    ensures DrawnFrom([v, u], 0, activeMask, screen)
         == (if Drawn([v, u], 0, activeMask, screen) then [v] else [])
           + (if Drawn([v, u], 1, activeMask, screen) then [u] else [])
  {
    assert VisibleFrom([v, u], 1, activeMask) == [u];
    assert DrawnFrom([v, u], 2, activeMask, screen) == [];
  }

  lemma PaintOne<C>(v: View, brush: Brush<C>, x: int, y: int, c: C)
    ensures Paint([], brush, x, y, c) == c
    ensures Paint([v], brush, x, y, c) == Layer(v, brush, x, y, c)
  {
    assert [v][1..] == [];
  }

  lemma PaintTwo<C>(v: View, u: View, brush: Brush<C>, x: int, y: int, c: C)
    ensures Paint([v, u], brush, x, y, c) == Layer(u, brush, x, y, Layer(v, brush, x, y, c))
  {
    assert [v, u][1..] == [u];
    PaintOne(u, brush, x, y, Layer(v, brush, x, y, c));
  }

  /** The brush of the counterexamples: solid paint is 1, anything else adds 1. */
  function Counting(): Brush<int> {
    Brush((_, _, _) => 1, (_, _, _, c) => c + 1)
  }

  /** When the lower of two visible views is culled, only the upper one can colour a pixel. */
  lemma LowerCulled(v: View, u: View, activeMask: bv32, screen: Size, x: int, y: int)
    requires screen.w >= 1 && screen.h >= 1 && Visible(v, activeMask) && Visible(u, activeMask)
    requires forall i, j :: OnScreen(screen, i, j) && Touches(v.rect, screen, i, j) ==>
      u.solid && Touches(u.rect, screen, i, j)
    ensures Culled([v, u], activeMask, screen, Counting(), x, y, 0, 0)
         == if Drawn([v, u], 1, activeMask, screen) then Layer(u, Counting(), x, y, 0) else 0
    ensures Paint(VisibleFrom([v, u], 0, activeMask), Counting(), x, y, 0)
      == Layer(u, Counting(), x, y, Layer(v, Counting(), x, y, 0))
  {
    var views := [v, u];
    assert views[1] == u;
    TwoViews(v, u, activeMask, screen);
    assert !Drawn(views, 0, activeMask, screen);
    assert DrawnFrom(views, 0, activeMask, screen) == if Drawn(views, 1, activeMask, screen) then [u] else [];
    PaintOne(u, Counting(), x, y, 0);
    PaintTwo(v, u, Counting(), x, y, 0);
  }

  lemma NotHarmless(views: seq<View>, v: View, activeMask: bv32, screen: Size, x: int, y: int)
    requires screen.w >= 1 && screen.h >= 1 && OnScreen(screen, x, y)
    requires forall u :: u in views && u != v && Visible(u, activeMask) ==> Admissible(u, screen)
    requires Culled(views, activeMask, screen, Counting(), x, y, 0, 0)
      != Paint(VisibleFrom(views, 0, activeMask), Counting(), x, y, 0)
    ensures !Harmless(v, activeMask, screen)
  {
  }

  /** A view that paints outside the box it tests is dropped once something else fills that box. */
  lemma TestedBoxTooSmall(v: View, activeMask: bv32, screen: Size, x: int, y: int)
    requires screen.w >= 1 && screen.h >= 1 && OnScreen(screen, x, y) && Visible(v, activeMask)
    requires InRegion(v.painted, x, y) && !Touches(v.rect, screen, x, y)
    ensures !Harmless(v, activeMask, screen)
  {
    var a, b := NearCorner(v.rect, screen), FarCorner(v.rect, screen);
    var box := Geometry(a, Size(b.x - a.x, b.y - a.y));
    var u := View(true, true, v.mask, true, box, [box], [box]);
    AdmissibleIffNoPhantom(u, screen);
    LowerCulled(v, u, activeMask, screen, x, y);
    NotHarmless([v, u], v, activeMask, screen, x, y);
  }

  /** A view that fills a cell it does not paint solidly hides whatever lies below. */
  lemma FilledBoxTooLarge(v: View, activeMask: bv32, screen: Size, x: int, y: int)
    requires screen.w >= 1 && screen.h >= 1 && OnScreen(screen, x, y) && Visible(v, activeMask)
    requires v.solid && Touches(v.rect, screen, x, y) && !(InRegion(v.painted, x, y) && Solid(v, x, y))
    ensures !Harmless(v, activeMask, screen)
  {
    var cell := Geometry(Point(x, y), Size(1, 1));
    var u := View(true, true, v.mask, true, cell, [cell], [cell]);
    AdmissibleIffNoPhantom(u, screen);
    LowerCulled(u, v, activeMask, screen, x, y);
    TopView(u, v, activeMask, screen, x, y);
    NotHarmless([u, v], v, activeMask, screen, x, y);
  }

  /** The topmost view is drawn when it touches the screen at all. */
  lemma TopView(v: View, u: View, activeMask: bv32, screen: Size, x: int, y: int)
    requires screen.w >= 1 && screen.h >= 1 && OnScreen(screen, x, y) && Visible(u, activeMask)
    requires Touches(u.rect, screen, x, y)
    ensures Drawn([v, u], 1, activeMask, screen)
  {
    assert !Covered([v, u], 2, activeMask, screen, x, y);
  }

  /** Culling is right around v, whatever else is on the screen, exactly when v is admissible. */
  lemma HarmlessIffAdmissible(v: View, activeMask: bv32, screen: Size)
    requires screen.w >= 1 && screen.h >= 1 && Visible(v, activeMask)
    ensures Harmless(v, activeMask, screen) <==> Admissible(v, screen)
  {
    if Admissible(v, screen) {
      forall views: seq<View>, brush: Brush<int>, x, y, wallpaper, black |
        OnScreen(screen, x, y) && (forall u :: u in views && u != v && Visible(u, activeMask) ==> Admissible(u, screen))
        ensures Culled(views, activeMask, screen, brush, x, y, wallpaper, black)
          == Paint(VisibleFrom(views, 0, activeMask), brush, x, y, wallpaper)
      {
        CullingPreservesImage(views, activeMask, screen, brush, x, y, wallpaper, black);
      }
    } else {
      var x, y :| OnScreen(screen, x, y) && !(
        && (InRegion(v.painted, x, y) ==> Touches(v.rect, screen, x, y))
        && (v.solid && Touches(v.rect, screen, x, y) ==> InRegion(v.painted, x, y) && Solid(v, x, y)));
      if InRegion(v.painted, x, y) && !Touches(v.rect, screen, x, y) {
        TestedBoxTooSmall(v, activeMask, screen, x, y);
      } else {
        FilledBoxTooLarge(v, activeMask, screen, x, y);
      }
    }
  }

  /** The view's rectangle is the extents of its region: nothing of the region lies outside. */
  ghost predicate Extended(v: View) {
    forall x, y :: InRegion(v.region, x, y) ==> Has(v.rect, x, y)
  }

  /**
   wlc_surface_get_opaque answers with the extents of the opaque region, while the view paints
   its whole surface and its subsurfaces.  Culling is right around such a view exactly when its
   extents make no phantom cells, are the pixels of the screen that it paints, and the region has
   no gaps there; a window with a translucent shadow is not such a view.
   */
  lemma HarmlessIffOpaqueIsPainted(v: View, activeMask: bv32, screen: Size)
    requires screen.w >= 1 && screen.h >= 1 && Visible(v, activeMask) && v.solid && Extended(v)
    ensures Harmless(v, activeMask, screen)
       <==> (&& NoPhantom(v.rect, screen)
             && forall x, y :: OnScreen(screen, x, y) ==>
                  && (InRegion(v.painted, x, y) <==> Has(v.rect, x, y))
                  && (Has(v.rect, x, y) ==> InRegion(v.region, x, y)))
  {
    HarmlessIffAdmissible(v, activeMask, screen);
    if NoPhantom(v.rect, screen) {
      TouchesWhereItIs(v.rect, screen);
    } else {
      var a := NearCorner(v.rect, screen);
      assert OnScreen(screen, a.x, a.y) && Touches(v.rect, screen, a.x, a.y) && !Has(v.rect, a.x, a.y);
    }
  }

  lemma TouchesWhereItIs(g: Geometry, screen: Size)
    requires screen.w >= 1 && screen.h >= 1 && NoPhantom(g, screen)
    ensures forall x, y :: OnScreen(screen, x, y) ==> (Touches(g, screen, x, y) <==> Has(g, x, y))
  {
  }

  /**
   A window with a shadow of two pixels around its opaque part, below a view that covers just
   that part: the shadow goes.
   */
  lemma ShadowExample()
    ensures
      var whole, inner := Geometry(Point(0, 0), Size(8, 8)), Geometry(Point(2, 2), Size(4, 4));
      var low, top := View(true, true, 1, true, inner, [inner], [whole]),
        View(true, true, 1, true, inner, [inner], [inner]);
      && Paint(VisibleFrom([low, top], 0, 1), Counting(), 0, 0, 0) == 1
      && Culled([low, top], 1, Size(8, 8), Counting(), 0, 0, 0, 0) == 0
  {
    var whole, inner := Geometry(Point(0, 0), Size(8, 8)), Geometry(Point(2, 2), Size(4, 4));
    var low, top := View(true, true, 1, true, inner, [inner], [whole]),
      View(true, true, 1, true, inner, [inner], [inner]);
    assert low.painted[0] == whole;
    LowerCulled(low, top, 1, Size(8, 8), 0, 0);
  }

  /**
   A window with a menu drawn as a subsurface to its right, below a view that covers just the
   window: the menu goes.
   */
  lemma SubsurfaceExample()
    ensures
      var body, menu := Geometry(Point(0, 0), Size(4, 4)), Geometry(Point(4, 0), Size(2, 2));
      var low, top := View(true, true, 1, true, body, [body], [body, menu]),
        View(true, true, 1, true, body, [body], [body]);
      && Paint(VisibleFrom([low, top], 0, 1), Counting(), 4, 0, 0) == 1
      && Culled([low, top], 1, Size(8, 8), Counting(), 4, 0, 0, 0) == 0
  {
    var body, menu := Geometry(Point(0, 0), Size(4, 4)), Geometry(Point(4, 0), Size(2, 2));
    var low, top := View(true, true, 1, true, body, [body], [body, menu]),
      View(true, true, 1, true, body, [body], [body]);
    assert low.painted[1] == menu;
    LowerCulled(low, top, 1, Size(8, 8), 4, 0);
  }

  /** A concrete failure: a solid view wholly left of a 4x4 screen makes the view under column 0 vanish. */
  lemma PhantomColumnExample()
    ensures
      var column, left := Geometry(Point(0, 0), Size(1, 4)), Geometry(Point(-10, 0), Size(5, 4));
      var low, off := View(true, true, 1, true, column, [column], [column]),
        View(true, true, 1, true, left, [left], [left]);
      && Paint(VisibleFrom([low, off], 0, 1), Counting(), 0, 0, 0) == 1
      && Culled([low, off], 1, Size(4, 4), Counting(), 0, 0, 0, 0) == 0
  {
    var column, left := Geometry(Point(0, 0), Size(1, 4)), Geometry(Point(-10, 0), Size(5, 4));
    var low, off := View(true, true, 1, true, column, [column], [column]),
      View(true, true, 1, true, left, [left], [left]);
    assert low.painted[0] == column && low.region[0] == column;
    LowerCulled(low, off, 1, Size(4, 4), 0, 0);
  }
}
