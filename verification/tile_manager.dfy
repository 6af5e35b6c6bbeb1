/** The tile manager: startup size check and static-lifespan assignment, the
    next-tile lookup, the cycle-completion test, and the prune-then-step and
    completion decisions of the run loop. */
module TileManager {
  import opened Wrappers
  import opened Geometry
  import opened BaseTile
  import opened Blank
  import opened Route

  datatype Error = TileBiggerThanScreen

  /** A constructed manager: the tiles (after static-lifespan assignment),
      the screen extent, the frame rate, the static lifespan in seconds and
      the biggest footprint among the tiles. */
  datatype Manager = Manager(
    tiles: seq<Tile>,
    screenWidth: int,
    screenHeight: int,
    fps: int,
    staticLifespan: int,
    maxTile: Size)

  /** The screen of `chainLength` square matrices of side `matrixSize`
      chained horizontally. */
  function ScreenWidth(matrixSize: int, chainLength: int): int
  {
    matrixSize * chainLength
  }

  function ScreenHeight(matrixSize: int): int
  {
    matrixSize
  }

  /** The footprint of every tile, in order. */
  function Footprints(tiles: seq<Tile>): (r: seq<Size>)
    ensures |r| == |tiles|
    ensures forall i :: 0 <= i < |tiles| ==> r[i] == Footprint(tiles[i].kind)
  {
    seq(|tiles|, i requires 0 <= i < |tiles| => Footprint(tiles[i].kind))
  }

  /** One tile's initialisation: ask for its count (memoising it) and, if it
      is 0, override it with the static frame count. */
  function InitTile(t: Tile, staticFrames: int): (r: Tile)
    ensures r == t.(cache := r.cache)
    ensures MaxFrames(t) == 0 ==> MaxFrames(r) == staticFrames
    ensures MaxFrames(t) != 0 ==> MaxFrames(r) == MaxFrames(t)
  {
    var (t1, n) := GetMaxFrames(t);
    if n == 0 then SetMaxFrameCount(t1, staticFrames) else t1
  }

  /** Initialises every tile and returns the biggest footprint: tiles with no
      frames get `staticLifespan * fps` frames, every other tile keeps its
      count, and nothing but the memoised count changes. */
  function InitializeTiles(tiles: seq<Tile>, staticLifespan: int, fps: int): (r: (seq<Tile>, Size))
    ensures |r.0| == |tiles|
    ensures IsComponentwiseMax(Footprints(tiles), r.1)
    ensures forall i :: 0 <= i < |tiles| ==> r.0[i] == tiles[i].(cache := r.0[i].cache)
    ensures forall i :: 0 <= i < |tiles| && MaxFrames(tiles[i]) == 0 ==>
      MaxFrames(r.0[i]) == staticLifespan * fps
    ensures forall i :: 0 <= i < |tiles| && MaxFrames(tiles[i]) != 0 ==>
      MaxFrames(r.0[i]) == MaxFrames(tiles[i])
  {
    var staticFrames := staticLifespan * fps;
    (seq(|tiles|, i requires 0 <= i < |tiles| => InitTile(tiles[i], staticFrames)),
     MaxSize(Footprints(tiles)))
  }

  ghost predicate FitsScreen(s: Size, screenWidth: int, screenHeight: int)
  {
    s.w <= screenWidth && s.h <= screenHeight
  }

  /** Builds a manager, refusing a tile set with a tile bigger than the
      screen. (The empty set's maximum is (0, 0), so it is refused only by a
      screen of negative extent.) */
  function New(tiles: seq<Tile>, matrixSize: int, chainLength: int, fps: int, staticLifespan: int)
    : (r: Result<Manager, Error>)
    ensures var sw := ScreenWidth(matrixSize, chainLength); var sh := ScreenHeight(matrixSize);
      r.Failure? <==>
        (exists i :: 0 <= i < |tiles| && !FitsScreen(Footprint(tiles[i].kind), sw, sh))
        || !FitsScreen(Size(0, 0), sw, sh)
    ensures r.Success? ==>
      && r.value.tiles == InitializeTiles(tiles, staticLifespan, fps).0
      && r.value.maxTile == MaxSize(Footprints(tiles))
      && r.value.screenWidth == ScreenWidth(matrixSize, chainLength)
      && r.value.screenHeight == ScreenHeight(matrixSize)
      && (forall i :: 0 <= i < |tiles| ==>
            FitsScreen(Footprint(r.value.tiles[i].kind), r.value.screenWidth, r.value.screenHeight))
  {
    var (initialised, biggest) := InitializeTiles(tiles, staticLifespan, fps);
    var sw := ScreenWidth(matrixSize, chainLength);
    var sh := ScreenHeight(matrixSize);
    MaxSizeUnique(Footprints(tiles), biggest);
    if biggest.w > sw || biggest.h > sh then
      Failure(TileBiggerThanScreen)
    else
      Success(Manager(initialised, sw, sh, fps, staticLifespan, biggest))
  }

  /** A tile `_GetNextTile` may hand out for a gap of `size`. */
  predicate Available(t: Tile, size: Size)
  {
    !t.displayed && Footprint(t.kind) == size
  }

  /** The first tile, in list order, that is not yet displayed and whose
      footprint is exactly `size`; `None` if there is none. */
  method GetNextTile(tiles: seq<Tile>, size: Size) returns (r: Option<nat>)
    ensures r.Some? ==> r.value < |tiles| && Available(tiles[r.value], size)
    ensures r.Some? ==> forall j :: 0 <= j < r.value ==> !Available(tiles[j], size)
    ensures r.None? <==> forall j :: 0 <= j < |tiles| ==> !Available(tiles[j], size)
  {
    var index := 0;
    while index < |tiles|
      invariant index <= |tiles|
      invariant forall j :: 0 <= j < index ==> !Available(tiles[j], size)
    {
      if !tiles[index].displayed && Footprint(tiles[index].kind) == size {
        return Some(index);
      }
      index := index + 1;
    }
    return None;
  }

  /** A tile that has been displayed and has shown all its frames. */
  predicate Finished(t: Tile)
  {
    t.displayed && t.currentFrame >= MaxFrames(t)
  }

  /** True when every tile is finished (vacuously so for no tiles). */
  function AllTilesDisplayed(tiles: seq<Tile>): (r: bool)
    ensures r <==> forall i :: 0 <= i < |tiles| ==> Finished(tiles[i])
  {
    if |tiles| == 0 then true
    else if !tiles[0].displayed then false
    else if tiles[0].currentFrame < MaxFrames(tiles[0]) then false
    else AllTilesDisplayed(tiles[1..])
  }

  function ResetTiles(tiles: seq<Tile>): (r: seq<Tile>)
    ensures |r| == |tiles|
    ensures forall i :: 0 <= i < |tiles| ==> IsResetOf(r[i], tiles[i])
  {
    seq(|tiles|, i requires 0 <= i < |tiles| => Reset(tiles[i]))
  }

  /** A pipeline tile stays on screen while it has not run past its count. */
  predicate Keep(t: Tile)
  {
    t.currentFrame <= MaxFrames(t)
  }

  /** The positions, in increasing order, of the tiles that `Keep` retains. */
  function KeptIndices(p: seq<Tile>): (idx: seq<nat>)
    ensures forall k :: 0 <= k < |idx| ==> idx[k] < |p| && Keep(p[idx[k]])
    ensures forall k, l :: 0 <= k < l < |idx| ==> idx[k] < idx[l]
    ensures forall i :: 0 <= i < |p| && Keep(p[i]) ==> i in idx
  {
    if |p| == 0 then []
    else
      var init := p[..|p| - 1];
      assert forall i :: 0 <= i < |init| ==> init[i] == p[i];
      KeptIndices(init) + (if Keep(p[|p| - 1]) then [|p| - 1] else [])
  }

  /** A tile after the loop has asked for its count and stepped it once. */
  function Advance(t: Tile): (r: Tile)
    ensures r.currentFrame == t.currentFrame + 1
    ensures r.pos == Add(t.pos, t.scroll)
    ensures r.kind == t.kind && r.start == t.start && r.scroll == t.scroll
    ensures r.displayed == t.displayed
    ensures MaxFrames(r) == MaxFrames(t)
  {
    StepFrame(GetMaxFrames(t).0)
  }

  /** The top of the run loop: drop every pipeline tile that has run past its
      count, then step each survivor once. The result lists exactly the kept
      tiles, in their original order, each advanced one frame. */
  function PruneAndStep(p: seq<Tile>): (r: seq<Tile>)
    ensures |r| == |KeptIndices(p)|
    ensures forall k :: 0 <= k < |r| ==> r[k] == Advance(p[KeptIndices(p)[k]])
  {
    if |p| == 0 then []
    else
      var init := p[..|p| - 1];
      assert forall i :: 0 <= i < |init| ==> init[i] == p[i];
      PruneAndStep(init) + (if Keep(p[|p| - 1]) then [Advance(p[|p| - 1])] else [])
  }

  /** What the run loop does after a tick. */
  datatype Next = Halt | Continue(tiles: seq<Tile>)

  /** The completion check at the end of a tick: stop once every tile is
      finished unless looping; when looping, start again from reset tiles;
      otherwise carry on unchanged. */
  function AfterTick(tiles: seq<Tile>, loop: bool): (r: Next)
    ensures r.Halt? <==> !loop && forall i :: 0 <= i < |tiles| ==> Finished(tiles[i])
    ensures r.Continue? && AllTilesDisplayed(tiles) ==> r.tiles == ResetTiles(tiles)
    ensures !AllTilesDisplayed(tiles) ==> r == Continue(tiles)
  {
    if AllTilesDisplayed(tiles) then
      if !loop then Halt else Continue(ResetTiles(tiles))
    else Continue(tiles)
  }

  /** After a reset no non-empty tile set is complete. */
  lemma ResetClearsCompletion(tiles: seq<Tile>)
    requires |tiles| > 0
    ensures !AllTilesDisplayed(ResetTiles(tiles))
  {
    assert !Finished(ResetTiles(tiles)[0]);
  }

  /** When looping, a completed non-empty cycle restarts as not complete. */
  lemma LoopRestartsCycle(tiles: seq<Tile>)
    requires |tiles| > 0 && AllTilesDisplayed(tiles)
    ensures AfterTick(tiles, true).Continue?
    ensures !AllTilesDisplayed(AfterTick(tiles, true).tiles)
  {
    ResetClearsCompletion(tiles);
  }

  /** A tile exactly at its count is both kept by pruning and finished for
      the completion check; one frame later it is pruned. */
  lemma BoundaryFrame(t: Tile)
    requires t.displayed && t.currentFrame == MaxFrames(t)
    ensures Keep(t) && Finished(t)
    ensures !Keep(StepFrame(t)) && Finished(StepFrame(t))
  {
  }

  /** A finished tile stays finished under further pruning steps. */
  lemma AdvancePreservesFinished(t: Tile)
    requires Finished(t)
    ensures Finished(Advance(t))
  {
  }

  /** The static-lifespan override never touches a blank tile. */
  lemma BlankSkipsStaticOverride(t: Tile, staticFrames: int)
    requires t.kind.Blank?
    ensures InitTile(t, staticFrames) == t
    ensures MaxFrames(InitTile(t, staticFrames)) == 1
  {
  }

  /** A displayed blank in the pipeline is finished after one step, still
      kept for a second, and pruned on the third tick. */
  lemma BlankLifecycle(x: int, y: int, scroll: Vec)
    ensures var b := Render(NewBlank(x, y, scroll));
      && PruneAndStep([b]) == [StepFrame(b)]
      && Finished(StepFrame(b))
      && PruneAndStep([StepFrame(b)]) == [StepFrames(b, 2)]
      && PruneAndStep([StepFrames(b, 2)]) == []
  {
    var b := Render(NewBlank(x, y, scroll));
    assert KeptIndices([b]) == [0];
    assert KeptIndices([StepFrame(b)]) == [0];
    assert StepFrames(b, 1) == StepFrame(b);
    assert StepFrames(b, 2) == StepFrame(StepFrame(b));
    assert !Keep(StepFrames(b, 2));
    assert KeptIndices([StepFrames(b, 2)]) == [];
  }

  /** Construction examples: a 32x32 blank does not fit an 8x8 screen, and a
      static route tile gets a 5-frame lifespan with the defaults. */
  lemma ConstructionExamples(now: int, nowLabel: Size)
    ensures New([DefaultBlank()], 8, 1, 1, 5).Failure?
    ensures var route := NewRoute(0, 0, Vec(0, 0), "", [], now, nowLabel);
      && New([route], 32, 2, 1, 5).Success?
      && MaxFrames(New([route], 32, 2, 1, 5).value.tiles[0]) == 5
  {
    var route := NewRoute(0, 0, Vec(0, 0), "", [], now, nowLabel);
    assert MaxFrames(route) == 0;
  }

  /** The completion check on a small tile set: false before any tile is
      shown, false when shown but at frame 0, true once all frames ran. */
  lemma CompletionExamples(now: int, nowLabel: Size)
    ensures var tiles := [DefaultBlank(), NewRoute(0, 0, Vec(2, 0), "", [], now, nowLabel)];
      && !AllTilesDisplayed(tiles)
      && !AllTilesDisplayed(seq(2, i requires 0 <= i < 2 => Render(tiles[i])))
      && AllTilesDisplayed(seq(2, i requires 0 <= i < 2 => Render(tiles[i]).(currentFrame := 100)))
      && AllTilesDisplayed([])
  {
    var tiles := [DefaultBlank(), NewRoute(0, 0, Vec(2, 0), "", [], now, nowLabel)];
    assert !Finished(Render(tiles[0]));
    assert MaxFrames(tiles[1]) == 16;
  }
}
