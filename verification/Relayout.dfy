/**
 The tiling of the example compositor: views without an anchor share the output in rows of
 two, the others are placed at their anchor relative to their parent.
 */
module Relayout {
  import opened Basics
  import opened Geometry

  /** A view handle; 0 is none. */
  type Id = nat

  /** What the positioner and the parent link say about a view; `anchor` is None for a tiled one. */
  datatype Info = Info(anchor: Option<Point>, requested: Size, parent: Id)

  datatype Scene = Scene(size: Size, views: seq<Id>, info: map<Id, Info>)

  predicate Tiled(s: Scene, v: Id) {
    v in s.info && s.info[v].anchor.None?
  }

  /** The number of tiled views among the first `i`. */
  function Count(s: Scene, i: nat): (c: nat)
    requires i <= |s.views|
    ensures c <= i
  {
    if i == 0 then 0 else Count(s, i - 1) + if Tiled(s, s.views[i - 1]) then 1 else 0
  }

  function Rows(p: nat): (n: nat)
    ensures n >= 1
  {
    if (1 + p) / 2 > 1 then (1 + p) / 2 else 1
  }

  /** Height of row `k`; the first takes the remainder. */
  function RowHeight(h: nat, n: nat, k: nat): nat
    requires n > 0
  {
    if k == 0 then h / n + h % n else h / n
  }

  /** Top edge of row `k`. */
  function Top(h: nat, n: nat, k: nat): nat
    requires n > 0
  {
    if k == 0 then 0 else Top(h, n, k - 1) + RowHeight(h, n, k - 1)
  }

  /** The rectangle of the tiled view number `j` of `p`. */
  function Tile(size: Size, p: nat, j: nat): Geometry {
    var n, w, ew := Rows(p), size.w / 2, size.w % 2;
    var right := j % 2 == 1;
    Geometry(
      Point(if right then w + ew else 0, Top(size.h, n, j / 2)),
      Size(if !right && j + 1 == p then size.w else if right then w else w + ew, RowHeight(size.h, n, j / 2)))
  }

  lemma {:induction false} TopIs(h: nat, n: nat, k: nat)
    requires n > 0 && k > 0
    ensures Top(h, n, k) == h / n * k + h % n
  {
    if k > 1 { TopIs(h, n, k - 1); }
  }

  /** The rows end at the bottom edge. */
  lemma TopEnds(h: nat, n: nat)
    requires n > 0
    ensures Top(h, n, n) == h
  {
    TopIs(h, n, n);
  }

  lemma {:induction false} TopGrows(h: nat, n: nat, a: nat, b: nat)
    requires n > 0 && a <= b
    ensures Top(h, n, a) <= Top(h, n, b)
    decreases b
  {
    if a < b { TopGrows(h, n, a, b - 1); }
  }

  /** The row a line lies in. */
  lemma {:induction false} RowOf(h: nat, n: nat, m: nat, y: nat) returns (k: nat)
    requires n > 0 && y < Top(h, n, m)
    ensures k < m && Top(h, n, k) <= y < Top(h, n, k + 1)
  {
    if y >= Top(h, n, m - 1) { k := m - 1; } else { k := RowOf(h, n, m - 1, y); }
  }

  /** Every pixel of the output lies in exactly one tile, and no tile reaches outside. */
  lemma TilesPartition(size: Size, p: nat, x: int, y: int)
    requires p > 0
    ensures
      var output := Geometry(Point(0, 0), size);
      && (Has(output, x, y) ==> exists j: nat :: j < p && Has(Tile(size, p, j), x, y))
      && (forall i: nat, j: nat :: i < p && j < p && Has(Tile(size, p, i), x, y) && Has(Tile(size, p, j), x, y) ==>
        i == j)
      && (forall j: nat :: j < p && Has(Tile(size, p, j), x, y) ==> Has(output, x, y))
  {
    var n := Rows(p);
    TopEnds(size.h, n);
    if 0 <= x < size.w && 0 <= y < size.h {
      var k := RowOf(size.h, n, n, y);
      var j := if x < size.w / 2 + size.w % 2 || 2 * k + 1 == p then 2 * k else 2 * k + 1;
      assert j / 2 == k && Has(Tile(size, p, j), x, y);
    }
    forall i: nat, j: nat | i < p && j < p && Has(Tile(size, p, i), x, y) && Has(Tile(size, p, j), x, y)
      ensures i == j
    {
      SameRow(size.h, n, i / 2, j / 2, y);
    }
    forall j: nat | j < p && Has(Tile(size, p, j), x, y) ensures Has(Geometry(Point(0, 0), size), x, y) {
      TopGrows(size.h, n, j / 2 + 1, n);
    }
  }

  /**
   The tiles fill the output in reading order: from the left top corner, each odd one to the right
   of the one before it, each row below the row before, the first row with the height left over.
   */
  lemma TilesInOrder(size: Size, p: nat, j: nat)
    requires j < p
    ensures
      var t, n := Tile(size, p, j), if (1 + p) / 2 > 1 then (1 + p) / 2 else 1;
      && t.size.h == (if j < 2 then size.h / n + size.h % n else size.h / n)
      && (j == 0 ==> t.origin == Point(0, 0))
      && (j % 2 == 1 ==>
        var left := Tile(size, p, j - 1);
        t.origin == Point(left.origin.x + left.size.w, left.origin.y) && t.size.w == size.w / 2)
      && (j % 2 == 0 && j > 0 ==>
        var above := Tile(size, p, j - 2);
        t.origin == Point(0, above.origin.y + above.size.h))
      && (j % 2 == 0 ==> t.size.w == if j == p - 1 then size.w else size.w - size.w / 2)
  {
    if j % 2 == 1 {
      assert (j - 1) / 2 == j / 2;
    } else if j > 0 {
      assert (j - 2) / 2 == j / 2 - 1;
    }
  }

  lemma SameRow(h: nat, n: nat, a: nat, b: nat, y: int)
    requires n > 0 && Top(h, n, a) <= y < Top(h, n, a + 1) && Top(h, n, b) <= y < Top(h, n, b + 1)
    ensures a == b
  {
    if a < b { TopGrows(h, n, a + 1, b); } else if b < a { TopGrows(h, n, b + 1, a); }
  }

  /** Every view of the output, and every parent, is known. */
  predicate Known(s: Scene, geometry: map<Id, Geometry>) {
    forall v :: v in s.views ==>
      v in s.info && v in geometry && (s.info[v].parent != 0 ==> s.info[v].parent in geometry)
  }

  /** Where an anchored view goes: its anchor, relative to its parent's place at that moment. */
  function Popup(info: Info, geometry: map<Id, Geometry>, v: Id): Geometry
    requires info.anchor.Some? && v in geometry && (info.parent != 0 ==> info.parent in geometry)
  {
    var size := if info.requested.w == 0 || info.requested.h == 0 then geometry[v].size else info.requested;
    var at := if info.parent == 0 then Point(0, 0) else geometry[info.parent].origin;
    Geometry(Point(info.anchor.value.x + at.x, info.anchor.value.y + at.y), size)
  }

  /** The geometries once the first `i` views have been placed. */
  function After(s: Scene, geometry: map<Id, Geometry>, i: nat): (r: map<Id, Geometry>)
    requires i <= |s.views| && Known(s, geometry)
    ensures r.Keys == geometry.Keys
  {
    if i == 0 then geometry
    else
      var before, v := After(s, geometry, i - 1), s.views[i - 1];
      before[v := if Tiled(s, v) then Tile(s.size, Count(s, |s.views|), Count(s, i - 1))
        else Popup(s.info[v], before, v)]
  }

  /** A view keeps the place it got at its turn. */
  lemma {:induction false} StaysPut(s: Scene, geometry: map<Id, Geometry>, v: Id, i: nat, m: nat)
    requires Known(s, geometry) && i <= m <= |s.views| && v in geometry
    requires forall k :: i <= k < |s.views| ==> s.views[k] != v
    ensures After(s, geometry, m)[v] == After(s, geometry, i)[v]
    decreases m
  {
    if i < m { StaysPut(s, geometry, v, i, m - 1); }
  }

  lemma {:induction false} NotYet(s: Scene, geometry: map<Id, Geometry>, v: Id, i: nat)
    requires Known(s, geometry) && i <= |s.views| && v in geometry && forall k :: 0 <= k < i ==> s.views[k] != v
    ensures After(s, geometry, i)[v] == geometry[v]
  {
    if i > 0 { NotYet(s, geometry, v, i - 1); }
  }

  /**
   At the end every tiled view has the tile of its rank, and every anchored view whose parent
   comes before it, or not at all, stands at its anchor in the parent's final place, with the size
   it asked for, or the one it had if it asked for none.
   */
  lemma PlacedExactly(s: Scene, geometry: map<Id, Geometry>, i: nat)
    requires Known(s, geometry) && Distinct(s.views) && i < |s.views|
    ensures
      var r, v := After(s, geometry, |s.views|), s.views[i];
      && (s.info[v].anchor.None? ==>
        Rank(s, i) < Rank(s, |s.views|) && r[v] == Tile(s.size, Rank(s, |s.views|), Rank(s, i)))
      && (s.info[v].anchor.Some? && (forall k :: i <= k < |s.views| ==> s.views[k] != s.info[v].parent) ==>
        && var at := if s.info[v].parent == 0 then Point(0, 0) else r[s.info[v].parent].origin;
        r[v].origin == Point(s.info[v].anchor.value.x + at.x, s.info[v].anchor.value.y + at.y))
      && (s.info[v].anchor.Some? ==>
        && var q := s.info[v].requested;
        r[v].size == if q.w > 0 && q.h > 0 then q else geometry[v].size)
  {
    RankIs(s, i);
    RankIs(s, |s.views|);
    if Tiled(s, s.views[i]) { TilePlaced(s, geometry, i); } else { PopupPlaced(s, geometry, i); }
  }

  /** The positions before i of views without an anchor. */
  function Anchorless(s: Scene, i: nat): set<nat>
    requires i <= |s.views| && forall k :: 0 <= k < |s.views| ==> s.views[k] in s.info
  {
    set k: nat | k < i && s.info[s.views[k]].anchor.None?
  }

  /** How many of the first i views have no anchor. */
  function Rank(s: Scene, i: nat): nat
    requires i <= |s.views| && forall k :: 0 <= k < |s.views| ==> s.views[k] in s.info
  {
    |Anchorless(s, i)|
  }

  lemma AnchorlessStep(s: Scene, i: nat)
    requires 0 < i <= |s.views| && forall k :: 0 <= k < |s.views| ==> s.views[k] in s.info
    ensures Anchorless(s, i)
      == Anchorless(s, i - 1) + if s.info[s.views[i - 1]].anchor.None? then {i - 1} else {}
  {
  }

  lemma {:induction false} RankIs(s: Scene, i: nat)
    requires i <= |s.views| && forall k :: 0 <= k < |s.views| ==> s.views[k] in s.info
    ensures Rank(s, i) == Count(s, i)
  {
    if i == 0 {
      assert Anchorless(s, 0) == {};
    } else {
      AnchorlessStep(s, i);
      RankIs(s, i - 1);
      assert i - 1 !in Anchorless(s, i - 1);
    }
  }

  lemma TilePlaced(s: Scene, geometry: map<Id, Geometry>, i: nat)
    requires Known(s, geometry) && Distinct(s.views) && i < |s.views| && Tiled(s, s.views[i])
    ensures
      var p := Count(s, |s.views|);
      Count(s, i) < p && After(s, geometry, |s.views|)[s.views[i]] == Tile(s.size, p, Count(s, i))
  {
    PlacedAtItsTurn(s, geometry, i);
    CountGrows(s, i + 1, |s.views|);
  }

  lemma PopupPlaced(s: Scene, geometry: map<Id, Geometry>, i: nat)
    requires Known(s, geometry) && Distinct(s.views) && i < |s.views| && !Tiled(s, s.views[i])
    ensures
      var r, v, q := After(s, geometry, |s.views|), s.views[i], s.info[s.views[i]].requested;
      && r[v].size == (if q.w > 0 && q.h > 0 then q else geometry[v].size)
      && ((forall k :: i <= k < |s.views| ==> s.views[k] != s.info[v].parent) ==>
        var at := if s.info[v].parent == 0 then Point(0, 0) else r[s.info[v].parent].origin;
        r[v].origin == Point(s.info[v].anchor.value.x + at.x, s.info[v].anchor.value.y + at.y))
  {
    var v := s.views[i];
    PlacedAtItsTurn(s, geometry, i);
    if s.info[v].parent != 0 && forall k :: i <= k < |s.views| ==> s.views[k] != s.info[v].parent {
      StaysPut(s, geometry, s.info[v].parent, i, |s.views|);
    }
  }

  lemma PlacedAtItsTurn(s: Scene, geometry: map<Id, Geometry>, i: nat)
    requires Known(s, geometry) && Distinct(s.views) && i < |s.views|
    ensures
      var v, before := s.views[i], After(s, geometry, i);
      && After(s, geometry, |s.views|)[v] == (if Tiled(s, v) then Tile(s.size, Count(s, |s.views|), Count(s, i))
        else Popup(s.info[v], before, v))
      && before[v] == geometry[v]
  {
    StaysPut(s, geometry, s.views[i], i + 1, |s.views|);
    NotYet(s, geometry, s.views[i], i);
  }

  lemma {:induction false} CountGrows(s: Scene, a: nat, b: nat)
    requires a <= b <= |s.views|
    ensures Count(s, a) <= Count(s, b)
    decreases b
  {
    if a < b { CountGrows(s, a, b - 1); }
  }

  /** Every rank below the number of tiled views is some tiled view's. */
  lemma {:induction false} RankTaken(s: Scene, m: nat, j: nat) returns (i: nat)
    requires m <= |s.views| && j < Count(s, m)
    ensures i < m && Tiled(s, s.views[i]) && Count(s, i) == j
  {
    if j < Count(s, m - 1) { i := RankTaken(s, m - 1, j); } else { i := m - 1; }
  }

  /** With a tiled view on the output, each of its pixels lies in exactly one tiled view. */
  lemma TiledViewsPartition(s: Scene, geometry: map<Id, Geometry>, x: int, y: int)
    requires Known(s, geometry) && Distinct(s.views) && Count(s, |s.views|) > 0
    requires Has(Geometry(Point(0, 0), s.size), x, y)
    ensures exists i :: 0 <= i < |s.views| && Covers(s, geometry, i, x, y)
    ensures forall i, k :: 0 <= i < k < |s.views| ==> !(Covers(s, geometry, i, x, y) && Covers(s, geometry, k, x, y))
  {
    var p := Count(s, |s.views|);
    TilesPartition(s.size, p, x, y);
    var j: nat :| j < p && Has(Tile(s.size, p, j), x, y);
    var i := RankTaken(s, |s.views|, j);
    TilePlaced(s, geometry, i);
    assert Covers(s, geometry, i, x, y);
    forall a, b | 0 <= a < b < |s.views| ensures !(Covers(s, geometry, a, x, y) && Covers(s, geometry, b, x, y)) {
      CoversOnce(s, geometry, a, b, x, y);
    }
  }

  lemma CoversOnce(s: Scene, geometry: map<Id, Geometry>, a: nat, b: nat, x: int, y: int)
    requires Known(s, geometry) && Distinct(s.views) && a < b < |s.views|
    ensures !(Covers(s, geometry, a, x, y) && Covers(s, geometry, b, x, y))
  {
    if Tiled(s, s.views[a]) && Tiled(s, s.views[b]) {
      TilePlaced(s, geometry, a);
      TilePlaced(s, geometry, b);
      CountGrows(s, a + 1, b);
      TilesPartition(s.size, Count(s, |s.views|), x, y);
    }
  }

  predicate Covers(s: Scene, geometry: map<Id, Geometry>, i: nat, x: int, y: int)
    requires Known(s, geometry) && i < |s.views|
  {
    s.info[s.views[i]].anchor.None? && Has(After(s, geometry, |s.views|)[s.views[i]], x, y)
  }

  /** Width and height of a plain tile, and what the divisions leave over. */
  predicate Measured(size: Size, n: nat, w: nat, h: nat, ew: nat, eh: nat) {
    n > 0 && w == size.w / 2 && ew == size.w % 2 && h == size.h / n && eh == size.h % n
  }

  /** The tile as the loop computes it. */
  function Computed(size: Size, p: nat, j: nat, toggle: bool, y: nat, w: nat, h: nat, ew: nat, eh: nat): Geometry {
    Geometry(
      Point(if toggle then w + ew else 0, y),
      Size(if !toggle && j == p - 1 then size.w else if toggle then w else w + ew, if j < 2 then h + eh else h))
  }

  lemma ComputedIsTile(size: Size, p: nat, row: nat, toggle: bool, y: nat, w: nat, h: nat, ew: nat, eh: nat)
    requires Measured(size, Rows(p), w, h, ew, eh) && y == Top(size.h, Rows(p), row)
    ensures
      var j := 2 * row + if toggle then 1 else 0;
      var g := Computed(size, p, j, toggle, y, w, h, ew, eh);
      g == Tile(size, p, j) && Top(size.h, Rows(p), row + 1) == y + g.size.h
  {
    var j := 2 * row + if toggle then 1 else 0;
    assert j / 2 == row && j % 2 == if toggle then 1 else 0;
  }

  /** The compositor's views, placed in place. */
  class Compositor {
    var geometry: map<Id, Geometry>

    constructor (geometry: map<Id, Geometry>)
      ensures this.geometry == geometry
    {
      this.geometry := geometry;
    }

    method Relayout(s: Scene)
      requires Known(s, geometry)
      modifies this
      ensures geometry == After(s, old(geometry), |s.views|)
    {
      var positioned := 0;
      for i := 0 to |s.views|
        invariant positioned == Count(s, i)
        invariant geometry == old(geometry)
      {
        if s.info[s.views[i]].anchor.None? { positioned := positioned + 1; }
      }
      var n := Rows(positioned);
      var w, h, ew, eh := Measure(s.size, n);
      var toggle, y, j := false, 0, 0;
      ghost var row := 0;
      for i := 0 to |s.views|
        invariant j == Count(s, i) && j == 2 * row + (if toggle then 1 else 0) && y == Top(s.size.h, n, row)
        invariant geometry == After(s, old(geometry), i)
      {
        var v := s.views[i];
        if s.info[v].anchor.None? {
          ComputedIsTile(s.size, positioned, row, toggle, y, w, h, ew, eh);
          var g := Computed(s.size, positioned, j, toggle, y, w, h, ew, eh);
          geometry := geometry[v := g];
          toggle := !toggle;
          if !toggle {
            y := y + g.size.h;
            row := row + 1;
          }
          j := j + 1;
        } else {
          PlacePopup(v, s.info[v]);
        }
      }
    }

    method Measure(size: Size, n: nat) returns (w: nat, h: nat, ew: nat, eh: nat)
      requires n > 0
      ensures Measured(size, n, w, h, ew, eh)
    {
      w, h := size.w / 2, size.h / n;
      ew, eh := size.w - w * 2, size.h - h * n;
    }

    method PlacePopup(v: Id, info: Info)
      requires info.anchor.Some? && v in geometry && (info.parent != 0 ==> info.parent in geometry)
      modifies this
      ensures geometry == old(geometry)[v := Popup(info, old(geometry), v)]
    {
      var size := info.requested;
      if size.w <= 0 || size.h <= 0 { size := geometry[v].size; }
      var g := Geometry(info.anchor.value, size);
      if info.parent != 0 {
        var at := geometry[info.parent].origin;
        g := Geometry(Point(g.origin.x + at.x, g.origin.y + at.y), size);
      }
      geometry := geometry[v := g];
    }
  }
}
