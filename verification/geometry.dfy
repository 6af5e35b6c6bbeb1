/** Pixel positions, extents and the componentwise maximum of extents. */
module Geometry {

  /** A pixel position, or the number of pixels moved per frame along each axis. */
  datatype Vec = Vec(x: int, y: int)

  /** A pixel extent (width, height): a tile footprint or a rendered content size. */
  datatype Size = Size(w: int, h: int)

  function Add(a: Vec, b: Vec): Vec
  {
    Vec(a.x + b.x, a.y + b.y)
  }

  function Max(a: int, b: int): int
  {
    if a >= b then a else b
  }

  /** `r` is the componentwise maximum of `sizes`, starting from (0, 0):
      each component bounds every size and is either attained or 0. */
  ghost predicate IsComponentwiseMax(sizes: seq<Size>, r: Size)
  {
    && 0 <= r.w && 0 <= r.h
    && (forall i :: 0 <= i < |sizes| ==> sizes[i].w <= r.w && sizes[i].h <= r.h)
    && (r.w == 0 || exists i :: 0 <= i < |sizes| && sizes[i].w == r.w)
    && (r.h == 0 || exists i :: 0 <= i < |sizes| && sizes[i].h == r.h)
  }

  /** The running maximum `max(size, acc)` folded over `sizes` from (0, 0),
      the loop shared by the tile managers and the route tile. */
  function MaxSize(sizes: seq<Size>): (r: Size)
    ensures IsComponentwiseMax(sizes, r)
  {
    if |sizes| == 0 then Size(0, 0)
    else
      var init := sizes[..|sizes| - 1];
      var acc := MaxSize(init);
      var s := sizes[|sizes| - 1];
      assert forall i :: 0 <= i < |init| ==> init[i] == sizes[i];
      Size(Max(s.w, acc.w), Max(s.h, acc.h))
  }

  /** The componentwise maximum is unique, so any computation meeting
      `IsComponentwiseMax` agrees with `MaxSize`. */
  lemma MaxSizeUnique(sizes: seq<Size>, r: Size)
    requires IsComponentwiseMax(sizes, r)
    ensures r == MaxSize(sizes)
  {
  }
}
