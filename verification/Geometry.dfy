/** Integer rectangles of include/wlc/geometry.h. */
module Geometry {

  datatype Point = Point(x: int, y: int)

  datatype Size = Size(w: nat, h: nat)

  /** The pixels (x, y) with origin.x <= x < origin.x + size.w, and the same for y. */
  datatype Geometry = Geometry(origin: Point, size: Size)

  predicate Has(g: Geometry, x: int, y: int) {
    && g.origin.x <= x < g.origin.x + g.size.w
    && g.origin.y <= y < g.origin.y + g.size.h
  }

  /** wlc_geometry_contains: b lies inside a. */
  predicate Contains(a: Geometry, b: Geometry) {
    && a.origin.x <= b.origin.x
    && a.origin.y <= b.origin.y
    && a.origin.x + a.size.w >= b.origin.x + b.size.w
    && a.origin.y + a.size.h >= b.origin.y + b.size.h
  }

  function Clamp(v: int, lo: int, hi: int): (r: int)
    requires lo <= hi
    ensures lo <= r <= hi
    ensures lo <= v <= hi ==> r == v
  {
    if v < lo then lo else if v > hi then hi else v
  }
}
