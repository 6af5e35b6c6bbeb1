/** The blank filler tile: a base tile whose frame count is always 1, so it
    leaves the screen after one frame. */
module Blank {
  import opened Wrappers
  import opened Geometry
  import opened BaseTile

  /** A blank tile; the default is static at (0, 0). */
  function NewBlank(x: int, y: int, scroll: Vec): (r: Tile)
    ensures r.kind.Blank? && !r.displayed && r.currentFrame == 0
    ensures r.start == Vec(x, y) && r.pos == r.start && r.scroll == scroll
  {
    NewTile(Blank, x, y, scroll)
  }

  function DefaultBlank(): Tile
  {
    NewBlank(0, 0, Vec(0, 0))
  }

  /** A blank tile reports one frame whatever its scroll vector, start
      position or frame-count override. */
  lemma BlankAlwaysOneFrame(t: Tile, n: int)
    requires t.kind.Blank?
    ensures MaxFrames(t) == 1
    ensures GetMaxFrames(t) == (t, 1)
    ensures MaxFrames(SetMaxFrameCount(t, n)) == 1
  {
  }

  /** The default blank is static and has the inherited 32x32 footprint. */
  lemma BlankDefaults()
    ensures DefaultBlank().scroll == Vec(0, 0)
    ensures Footprint(DefaultBlank().kind) == Size(32, 32)
    ensures MaxFrames(NewBlank(0, 0, Vec(-1, 2))) == 1
    ensures MaxFrames(SetMaxFrameCount(DefaultBlank(), 5)) == 1
  {
  }
}
