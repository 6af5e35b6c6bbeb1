/** The tile record shared by every tile type, its animation clock and its
    frame-state transitions (step, reset, render). */
module BaseTile {
  import opened Wrappers
  import opened Geometry

  /** Default tile footprint in pixels. */
  const TILE_WIDTH := 32
  const TILE_HEIGHT := 32

  /** A colour as an (r, g, b) triple. */
  datatype Rgb = Rgb(r: int, g: int, b: int)

  const WHITE := Rgb(255, 255, 255)
  const GRAY := Rgb(110, 110, 110)
  const GREEN := Rgb(0, 255, 0)
  const YELLOW := Rgb(255, 255, 0)
  const RED := Rgb(255, 0, 0)
  const BLUE := Rgb(0, 0, 255)
  const BLACK := Rgb(0, 0, 0)

  /** One upcoming stop of a route: its arrival time in whole seconds on the
      same clock as `now`, and the pixel size the font gives its "HH:MM, "
      label (font metrics are an input, not computed). It is declared here,
      not in `Route`, because the closed `Kind` datatype carries it. */
  datatype Stop = Stop(at: int, labelSize: Size)

  /** The tile types. `Opaque` stands for a tile type whose content is not
      modelled (the weather tiles) and is described only by its footprint and
      the extent of its rendered content. */
  datatype Kind =
    | Base
    | Blank
    | Route(name: string, stops: seq<Stop>)
    | Opaque(footprint: Size, renderSize: Size)

  /** A tile: its type, start position, current position, scroll vector,
      displayed flag, frame counter and memoised frame count (`None` until the
      count is first asked for or set). */
  datatype Tile = Tile(
    kind: Kind,
    start: Vec,
    pos: Vec,
    scroll: Vec,
    displayed: bool,
    currentFrame: nat,
    cache: Option<int>)

  /** A freshly constructed tile at (x, y). */
  function NewTile(kind: Kind, x: int, y: int, scroll: Vec): Tile
  {
    Tile(kind, Vec(x, y), Vec(x, y), scroll, false, 0, None)
  }

  /** The largest extent the tile will ever occupy. */
  function Footprint(k: Kind): Size
  {
    match k
    case Opaque(footprint, _) => footprint
    case _ => Size(TILE_WIDTH, TILE_HEIGHT)
  }

  /** The label sizes of a route's stops; here because `RenderSize`
      dispatches on `Kind`. */
  function StopLabelSizes(stops: seq<Stop>): (r: seq<Size>)
    ensures |r| == |stops|
    ensures forall i :: 0 <= i < |stops| ==> r[i] == stops[i].labelSize
  {
    seq(|stops|, i requires 0 <= i < |stops| => stops[i].labelSize)
  }

  /** The extent of the content a tile draws, which may exceed its footprint.
      The base default is the footprint; a route tile draws its widest and
      tallest stop label. */
  function RenderSize(k: Kind): Size
  {
    match k
    case Base => Size(TILE_WIDTH, TILE_HEIGHT)
    case Blank => Size(TILE_WIDTH, TILE_HEIGHT)
    case Route(_, stops) => MaxSize(StopLabelSizes(stops))
    case Opaque(_, renderSize) => renderSize
  }

  function Abs(n: int): nat
  {
    if n < 0 then -n else n
  }

  /** Integer ceiling of a / b. */
  function CeilDiv(a: nat, b: nat): (q: nat)
    requires b > 0
    ensures q * b >= a
    ensures q == 0 || (q - 1) * b < a
  {
    (a + b - 1) / b
  }

  /** The distance one axis must travel before its content has left the
      window: towards the far edge for positive scrolling, the whole content
      past the near edge for negative scrolling. */
  function Move(scrolling: int, startPos: int, tileWidth: int, renderWidth: int): int
  {
    if scrolling > 0 then tileWidth - startPos else startPos + renderWidth
  }

  /** Frames needed on one axis: none when the axis does not scroll, otherwise
      the least number of steps of |scrolling| pixels covering `Move`. */
  function FrameCount(scrolling: int, startPos: int, tileWidth: int, renderWidth: int): (r: nat)
    ensures scrolling == 0 ==> r == 0
    ensures scrolling != 0 ==> r * Abs(scrolling) >= Move(scrolling, startPos, tileWidth, renderWidth)
    ensures scrolling != 0 ==> r == 0 || (r - 1) * Abs(scrolling) < Move(scrolling, startPos, tileWidth, renderWidth)
  {
    if scrolling == 0 then 0
    else
      var move := Move(scrolling, startPos, tileWidth, renderWidth);
      if move < 0 then 0 else CeilDiv(move, Abs(scrolling))
  }

  /** The count a tile computes when its cache is empty: the larger of the
      two per-axis counts. */
  function ComputedFrames(t: Tile): nat
  {
    var fp := Footprint(t.kind);
    var rs := RenderSize(t.kind);
    Max(FrameCount(t.scroll.x, t.start.x, fp.w, rs.w),
        FrameCount(t.scroll.y, t.start.y, fp.h, rs.h))
  }

  /** The value `GetMaxFrames` answers: always 1 for a blank tile, otherwise
      the memoised count if there is one and the computed count if not. */
  function MaxFrames(t: Tile): int
  {
    if t.kind.Blank? then 1
    else match t.cache
      case Some(n) => n
      case None => ComputedFrames(t)
  }

  /** Asks a tile for its frame count: returns the tile (with the count now
      memoised, except for a blank tile, which overrides the method) and the
      count. */
  function GetMaxFrames(t: Tile): (r: (Tile, int))
    ensures r.1 == MaxFrames(t)
    ensures MaxFrames(r.0) == r.1
    ensures !t.kind.Blank? ==> r.0.cache == Some(r.1)
    ensures t.kind.Blank? ==> r.0 == t
    ensures r.0 == t.(cache := r.0.cache)
    ensures t.cache.Some? ==> r.0 == t
  {
    if t.kind.Blank? then (t, 1)
    else match t.cache
      case Some(n) => (t, n)
      case None =>
        var n := ComputedFrames(t);
        (t.(cache := Some(n)), n)
  }

  /** Overrides the memoised frame count. */
  function SetMaxFrameCount(t: Tile, n: int): (r: Tile)
    ensures !t.kind.Blank? ==> MaxFrames(r) == n
    ensures t.kind.Blank? ==> MaxFrames(r) == 1
    ensures r == t.(cache := r.cache)
  {
    t.(cache := Some(n))
  }

  /** Advances the tile one frame: the counter by one, the position by the
      scroll vector; nothing else changes. */
  function StepFrame(t: Tile): (r: Tile)
    ensures r.currentFrame == t.currentFrame + 1
    ensures r.pos == Add(t.pos, t.scroll)
    ensures r.kind == t.kind && r.start == t.start && r.scroll == t.scroll
    ensures r.displayed == t.displayed && r.cache == t.cache
    ensures MaxFrames(r) == MaxFrames(t)
  {
    t.(currentFrame := t.currentFrame + 1, pos := Add(t.scroll, t.pos))
  }

  /** `StepFrame` applied `n` times. */
  function StepFrames(t: Tile, n: nat): Tile
  {
    if n == 0 then t else StepFrame(StepFrames(t, n - 1))
  }

  /** The initial frame state of `t`: back at its start position, frame 0, not
      displayed; type, scroll vector and memoised count kept. */
  ghost predicate IsResetOf(r: Tile, t: Tile)
  {
    && r.pos == t.start && r.currentFrame == 0 && !r.displayed
    && r.kind == t.kind && r.start == t.start && r.scroll == t.scroll
    && r.cache == t.cache
  }

  function Reset(t: Tile): (r: Tile)
    ensures IsResetOf(r, t)
  {
    t.(pos := t.start, currentFrame := 0, displayed := false)
  }

  /** The frame-state effect of rendering: the tile is marked displayed;
      position, frame and count are unchanged (pixels are not modelled). */
  function Render(t: Tile): (r: Tile)
    ensures r.displayed
    ensures r == t.(displayed := r.displayed)
  {
    t.(displayed := true)
  }

  /** Stepping `n` times moves the tile `n` scroll vectors and `n` frames. */
  lemma {:induction false} StepFramesAdvance(t: Tile, n: nat)
    ensures StepFrames(t, n).currentFrame == t.currentFrame + n
    ensures StepFrames(t, n).pos == Vec(t.pos.x + n * t.scroll.x, t.pos.y + n * t.scroll.y)
    ensures StepFrames(t, n) == t.(currentFrame := StepFrames(t, n).currentFrame, pos := StepFrames(t, n).pos)
  {
    if n > 0 {
      StepFramesAdvance(t, n - 1);
      assert n * t.scroll.x == (n - 1) * t.scroll.x + t.scroll.x;
      assert n * t.scroll.y == (n - 1) * t.scroll.y + t.scroll.y;
    }
  }

  /** Reset after any number of steps gives the same state as resetting
      straight away. */
  lemma {:induction false} StepsThenReset(t: Tile, n: nat)
    ensures Reset(StepFrames(t, n)) == Reset(t)
  {
    StepFramesAdvance(t, n);
  }

  lemma ResetIdempotent(t: Tile)
    ensures Reset(Reset(t)) == Reset(t)
  {
  }

  /** A new tile is already in its reset state. */
  lemma NewTileIsReset(kind: Kind, x: int, y: int, scroll: Vec)
    ensures Reset(NewTile(kind, x, y, scroll)) == NewTile(kind, x, y, scroll)
  {
  }

  /** Rendering twice without a step is the same as rendering once. */
  lemma RenderIdempotent(t: Tile)
    ensures Render(Render(t)) == Render(t)
  {
  }

  /** Asking for the count twice gives the same answer and memoises nothing
      more the second time. */
  lemma GetMaxFramesMemoised(t: Tile)
    ensures GetMaxFrames(GetMaxFrames(t).0) == GetMaxFrames(t)
  {
  }

  /** An uncached count is the larger of the two axis counts. */
  lemma ComputedFramesIsAxisMax(t: Tile)
    ensures var fp := Footprint(t.kind); var rs := RenderSize(t.kind);
      var fx := FrameCount(t.scroll.x, t.start.x, fp.w, rs.w);
      var fy := FrameCount(t.scroll.y, t.start.y, fp.h, rs.h);
      ComputedFrames(t) >= fx && ComputedFrames(t) >= fy
      && (ComputedFrames(t) == fx || ComputedFrames(t) == fy)
  {
  }

  /** The per-axis count is the least cover: no smaller number of steps
      moves the content `Move` pixels. */
  lemma FrameCountLeast(scrolling: int, startPos: int, tileWidth: int, renderWidth: int, n: nat)
    requires scrolling != 0
    requires n * Abs(scrolling) >= Move(scrolling, startPos, tileWidth, renderWidth)
    ensures FrameCount(scrolling, startPos, tileWidth, renderWidth) <= n
  {
    var r := FrameCount(scrolling, startPos, tileWidth, renderWidth);
    if r > n {
      assert (r - 1) * Abs(scrolling) >= n * Abs(scrolling) by {
        MulMonotone(n, r - 1, Abs(scrolling));
      }
    }
  }

  lemma MulMonotone(a: nat, b: nat, c: nat)
    requires a <= b
    ensures a * c <= b * c
  {
  }

  /** With positive scrolling the content extent plays no part. */
  lemma PositiveScrollIgnoresRender(scrolling: int, startPos: int, tileWidth: int, r1: int, r2: int)
    requires scrolling > 0
    ensures FrameCount(scrolling, startPos, tileWidth, r1) == FrameCount(scrolling, startPos, tileWidth, r2)
  {
  }

  /** A tile starting at the origin whose content fills its footprint needs
      the same number of frames whichever way it scrolls. */
  lemma FrameCountSignSymmetric(v: int, tileWidth: int)
    ensures FrameCount(v, 0, tileWidth, tileWidth) == FrameCount(-v, 0, tileWidth, tileWidth)
  {
  }

  /** The frame counts of a default 32x32 tile starting at (0, 0). */
  lemma ExpectedFrameCounts()
    ensures MaxFrames(NewTile(Base, 0, 0, Vec(0, 0))) == 0
    ensures MaxFrames(NewTile(Base, 0, 0, Vec(2, 0))) == 16
    ensures MaxFrames(NewTile(Base, 0, 0, Vec(-2, 0))) == 16
    ensures MaxFrames(NewTile(Base, 0, 0, Vec(0, 2))) == 16
    ensures MaxFrames(NewTile(Base, 0, 0, Vec(0, -2))) == 16
    ensures MaxFrames(NewTile(Base, 0, 0, Vec(2, 2))) == 16
    ensures MaxFrames(NewTile(Base, 0, 0, Vec(-2, -2))) == 16
    ensures MaxFrames(NewTile(Base, 0, 0, Vec(-1, 2))) == 32
    ensures Footprint(Base) == Size(32, 32) && RenderSize(Base) == Size(32, 32)
  {
  }

  /** Overriding the count of a static tile makes later queries answer the
      override. */
  lemma SetMaxFrameCountThenGet(n: int)
    ensures MaxFrames(SetMaxFrameCount(NewTile(Base, 0, 0, Vec(0, 0)), n)) == n
    ensures GetMaxFrames(SetMaxFrameCount(NewTile(Base, 0, 0, Vec(0, 0)), n)).1 == n
  {
  }

  /** Once a tile has shown all its frames, further steps keep it so. */
  lemma {:induction false} FramesDoneStaysDone(t: Tile, n: nat)
    requires t.currentFrame >= MaxFrames(t)
    ensures StepFrames(t, n).currentFrame >= MaxFrames(StepFrames(t, n))
    ensures MaxFrames(StepFrames(t, n)) == MaxFrames(t)
  {
    if n > 0 {
      FramesDoneStaysDone(t, n - 1);
    }
  }
}
