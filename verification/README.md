# Tile clock and tile scheduling for an RGB matrix display

This project models the scheduling core of a Raspberry Pi LED-matrix display
driver. The display cycles a list of rectangular *tiles* (route times, weather,
blanks) across a screen made of `chain_length` square matrices of side
`matrix_size`.

The model covers four parts:

- **The tile clock.** Each tile works out how many frames it needs to scroll
  its content out of the window. This is done per axis with an integer ceiling
  division, and the two axes are combined by taking the larger count. The
  result is memoised. The model also has the frame-state transitions
  `StepFrame`, `Reset` and the `displayed` flag that rendering sets.
- **The blank filler tile.** It always reports one frame.
- **The tile manager.** This covers the startup footprint check and the
  static-lifespan override, the first-match next-tile lookup, the
  cycle-completion test, the tile reset, and the two decisions of the run loop:
  prune-then-step at the top and complete/loop at the bottom.
- **The older manager variant and the route tile.** The older manager finds the
  biggest tile and checks it against the screen. It is proved to agree with the
  newer manager. The route tile contributes its stop-urgency colours, its
  content extent and its default scroll vector.

Everything is pure functions over an immutable `Tile` record. The memoised
frame count is an `Option<int>` field. A query that fills it returns the
updated tile together with the value. `MaxFrames(t)` is the value such a query
answers, and `GetMaxFrames` is proved never to change it. This is why the
manager's predicates can be stated with `MaxFrames`. Tile subclasses are the
variants of `Kind`: `Base`, `Blank`, `Route(name, stops)`, and
`Opaque(footprint, renderSize)`. `Opaque` stands for a tile type whose content
is not modelled, such as the 64x32 weather tile.

Inputs that the source takes from the outside world are parameters here:

- The screen size is `matrix_size * chain_length` by `matrix_size`.
- The route tile's `utcnow()` is a `now` parameter in whole seconds.
- A stop's arrival time is also in whole seconds.
- Font text sizes are given as `Size` values.

Where the code and its tests differ:

- `SetMaxFrameCount` is called by `tile_manager/tile_manager.py` and by the
  tests, but `tile_manager/base_tile.py` does not define it. So, as written,
  `tile_manager/tile_manager.py:53` raises AttributeError for a 0-count
  non-blank tile. It is modelled as writing the memoised count, which is what
  the tests expect.
- `tile_manager/base_tile_test.py:83-87` expects `Render` to set `displayed`.
  As written, the base render raises at line 186 before it does. The model
  follows the test.
- `tile_manager/tile_manager_test.py:46` expects `_GetNextTile` to mark the tile
  as displayed. The code does not do this. The model follows the code, so the
  lookup changes nothing.

## Model

| member | source | states |
|---|---|---|
| Geometry.MaxSize | tile_manager/tile_manager.py:45-51 | the running `max(size, acc)` from (0, 0) over a list of sizes is its componentwise maximum: each component is at least 0, bounds every entry, and is either 0 or some entry's value |
| Geometry.MaxSizeUnique | tile_manager.py:46-51 | a size that bounds every entry and is attained-or-0 per component can only be `MaxSize`, so two computations of the biggest tile must agree |
| BaseTile.CeilDiv | tile_manager/base_tile.py:146 | the ceiling of a/b: q·b covers a, and (q−1)·b does not |
| BaseTile.FrameCount | tile_manager/base_tile.py:137-146 | an axis with scroll 0 needs 0 frames; otherwise the count is the least n ≥ 0 with n·\|scroll\| ≥ move, where move is tile_width − start for positive scroll and start + render_width for negative scroll (so a negative move gives 0) |
| BaseTile.FrameCountLeast | tile_manager/base_tile.py:146 | no number of steps smaller than the frame count covers the move |
| BaseTile.PositiveScrollIgnoresRender | tile_manager/base_tile.py:139-140 | for positive scroll the render extent has no effect on the count |
| BaseTile.FrameCountSignSymmetric | tile_manager/base_tile.py:139-142 | a tile starting at 0 whose content fills its footprint needs the same count for scroll v and −v |
| BaseTile.ComputedFramesIsAxisMax | tile_manager/base_tile.py:106-109 | the uncached count is at least each axis count and equal to one of them |
| BaseTile.GetMaxFrames | tile_manager/base_tile.py:105-110 | the answer is the tile's frame count; afterwards a non-blank tile has that value memoised; nothing but the cache changes; an already cached tile is returned unchanged |
| BaseTile.GetMaxFramesMemoised | tile_manager/base_tile.py:105-110 | asking a second time returns the same value and the same tile, so the count is computed only once |
| BaseTile.SetMaxFrameCount | tile_manager/base_tile_test.py:44-48 | after an override a non-blank tile reports the override and a blank still reports 1; nothing else changes |
| BaseTile.SetMaxFrameCountThenGet | tile_manager/base_tile_test.py:44-48 | a static tile given an override of n reports n from then on |
| BaseTile.ExpectedFrameCounts | tile_manager/base_tile_test.py:16-42 | a default 32x32 tile at (0, 0) needs 0 frames when static, 16 for (±2,0), (0,±2), (2,2) and (−2,−2), and 32 for (−1,2); its footprint and render size are 32x32 |
| BaseTile.StepFrame | tile_manager/base_tile.py:167-168 | the frame counter goes up by exactly 1 and the position moves by the scroll vector; the displayed flag, the scroll vector, the start and the frame count are unchanged |
| BaseTile.StepFramesAdvance | tile_manager/base_tile.py:155-168 | n steps advance the frame by n and the position by n scroll vectors and change nothing else, independent of time |
| BaseTile.Reset | tile_manager/base_tile.py:150-153 | the tile is back at its start position, at frame 0 and not displayed; its scroll vector and memoised count are kept |
| BaseTile.StepsThenReset | tile_manager/base_tile.py:148-168 | resetting after any number of steps gives the same state as resetting at once |
| BaseTile.ResetIdempotent | tile_manager/base_tile.py:150-153 | resetting twice is the same as resetting once |
| BaseTile.NewTileIsReset | tile_manager/base_tile.py:63-68 | a newly built tile is already in its reset state |
| BaseTile.Render | tile_manager/base_tile.py:186-189 | rendering marks the tile displayed, as base_tile_test.py:83-87 expects, and leaves position, frame and count unchanged (line 186 as written raises first; see Left out) |
| BaseTile.RenderIdempotent | tile_manager/base_tile.py:186-189 | rendering twice without a step equals rendering once |
| BaseTile.FramesDoneStaysDone | tile_manager/base_tile.py:167-168 | once a tile's frame reaches its count it stays at or past it under any number of steps, and the count does not change |
| Blank.NewBlank | tile_manager/blank.py:13-23 | a blank tile starts at (x, y) with the given scroll vector, not displayed, at frame 0 |
| Blank.BlankAlwaysOneFrame | tile_manager/blank.py:25-35 | a blank reports 1 frame for every scroll vector, start and override, and asking for its count changes nothing |
| Blank.BlankDefaults | tile_manager/blank.py:13-23 | the default blank is static with the inherited 32x32 footprint; an override of 5 still leaves it at 1 |
| Route.NewRoute | tile_manager/route.py:39-59 | a missing name becomes "TEST" and a missing stop list becomes the single stop `now`, so the stop list is never empty |
| Route.StopFill | tile_manager/route.py:103-108 | a stop under 5 minutes away (including a past one) is RED, one at least 5 but under 10 minutes away is YELLOW, and one 10 minutes or more away is GREEN, each an if-and-only-if |
| Route.UrgencyMonotone | tile_manager/route.py:103-108 | a later stop never gets a more urgent colour |
| BaseTile.StopLabelSizes | tile_manager/route.py:74-77 | the per-stop label-size list: one entry per stop, in stop order, each that stop's measured `FONT.getsize` result |
| Route.StopFills | tile_manager/route.py:102-108 | one fill per stop, in order, each classified by its own time to stop |
| Route.SortedStopsUrgency | tile_manager/route.py:102-108 | for stops in time order the fills have non-increasing urgency |
| Route.RenderRoute | tile_manager/route.py:96-120 | the evident intent of the route render: the tile is marked displayed, as the base render does, and each stop is coloured by its time from `now` (as written the file does not parse and the render raises; see Left out) |
| Route.RouteRenderSizeIsLabelMax | tile_manager/route.py:71-80 | a route tile's content extent is the componentwise maximum of its stop label sizes, with the label sizes left uninterpreted |
| Route.DefaultRouteFrames | tile_manager/route.py:39 | the default route tile scrolls (2, 0) from x = 0 and needs 16 frames whatever its labels measure |
| TileManager.Footprints | tile_manager/tile_manager.py:48-49 | the per-tile footprint list: one entry per tile, in tile order, each that tile's `GetTileDiemensions()` |
| TileManager.InitTile | tile_manager/tile_manager.py:52-53 | a tile with 0 frames gets the static frame count; any other tile keeps its count; only the cache changes |
| TileManager.InitializeTiles | tile_manager/tile_manager.py:45-54 | returns the componentwise maximum footprint, or (0, 0) for no tiles; every 0-frame tile gets `static_lifespan * fps` frames and every other tile keeps its count |
| TileManager.New | tile_manager/tile_manager.py:27-34 | construction fails if and only if some tile is wider than `matrix_size * chain_length` or taller than `matrix_size` (or the screen has negative extent, which even (0, 0) exceeds); on success every tile fits and the tiles are the initialised ones |
| TileManager.BlankSkipsStaticOverride | tile_manager/tile_manager.py:52-53 | the static-lifespan override never changes a blank tile |
| TileManager.ConstructionExamples | tile_manager/tile_manager_test.py:30-39 | a blank is refused on an 8x8 screen; a static route tile on the default screen gets 5 frames with fps 1 and a 5-second lifespan |
| TileManager.GetNextTile | tile_manager/tile_manager.py:66-68 | returns the smallest index whose tile is not displayed and whose footprint equals `size` exactly, or `None` when no tile qualifies |
| TileManager.AllTilesDisplayed | tile_manager/tile_manager.py:76-81 | true if and only if every tile is displayed and has `current_frame ≥` its frame count; true for no tiles |
| TileManager.CompletionExamples | tile_manager/tile_manager_test.py:55-67 | a fresh tile set is not complete, a displayed set at frame 0 is not complete, and a displayed set at frame 100 is complete |
| TileManager.ResetTiles | tile_manager/tile_manager.py:83-86 | every tile is put in its reset state and the list keeps its length |
| TileManager.ResetClearsCompletion | tile_manager/tile_manager.py:83-86 | after a reset no non-empty tile set is complete |
| TileManager.KeptIndices | tile_manager/tile_manager.py:101 | the increasing list of exactly those positions whose tile has `current_frame ≤` its count |
| TileManager.Advance | tile_manager/tile_manager.py:101-104 | a survivor advances exactly one frame and one scroll vector, keeps its displayed flag, and keeps its count |
| TileManager.PruneAndStep | tile_manager/tile_manager.py:101-104 | the new pipeline holds exactly the kept tiles in their original order, each stepped exactly once |
| TileManager.BoundaryFrame | tile_manager/tile_manager.py:101 | a displayed tile at exactly its count is both kept by pruning (`<=`) and finished for the completion check (line 79, `<`); one step later it is pruned and still finished |
| TileManager.AdvancePreservesFinished | tile_manager/tile_manager.py:101-104 | stepping a finished tile keeps it finished |
| TileManager.BlankLifecycle | tile_manager/tile_manager.py:101-104 | a displayed blank is finished after one step, still kept after the second, and dropped on the third prune |
| TileManager.AfterTick | tile_manager/tile_manager.py:131-134 | the evident intent of the loop decision (as written line 113 raises first; see Left out): the loop stops exactly when every tile is finished and looping is off; when complete and looping, it continues from the reset tiles; otherwise it continues unchanged |
| TileManager.LoopRestartsCycle | tile_manager/tile_manager.py:131-134 | when looping, a complete non-empty cycle restarts as not complete |
| LegacyTileManager.FindBiggestTile | tile_manager.py:40-52 | each result component bounds every tile's footprint and is either some tile's value or 0 |
| LegacyTileManager.New | tile_manager.py:19-24 | the older constructor fails if and only if some tile is wider than `matrix_size * chain_length` or taller than `matrix_size` (or the screen has negative extent), the same condition as `TileManager.New`; on success it keeps the tiles unchanged, frame counts included, and records the componentwise maximum footprint |
| LegacyTileManager.BiggestTileAgrees | tile_manager.py:40-52 | the biggest size the older `_FindBiggestTile` finds equals the size pair the newer `_InitalizeTiles` returns for the same tiles, whatever the fps and lifespan |

## Left out

- Pixel work is not modelled: drawing, pasting, compositing and pushing the
  buffer to the matrix (`tile_manager/tile_manager.py:116-121` and the image
  side of every `Render`). A render keeps only its `displayed` effect and, for
  a route, the stop colours.
- Font metrics (`FONT.getsize`, `_RenderText`) are not computed. Text sizes are
  inputs.
- Frame pacing (`tile_manager/tile_manager.py:123-128`) is not modelled,
  because it depends on wall-clock time, float arithmetic and sleeping.
- The fill loop (`tile_manager/tile_manager.py:106-114`) is not modelled. As
  written it fails on the first tick: `operator` is never imported (lines 5-7).
  For any screen of positive width, `(w, h) > (0, 0)` at line 107 enters the
  loop, and line 113 raises NameError. Even with the import it could not
  terminate:
  - the result of the subtraction at line 113 is discarded;
  - `if tile_index:` at line 109 treats index 0 as "no tile".
- TileManager.AfterTick: because line 113 raises NameError on the first tick,
  lines 116-134 never run as written, and that includes the completion and loop
  decision at lines 131-134. The model gives the evident intent of those lines.
- The `screen_space` update at line 103 is not modelled for the same reason. It
  only feeds the fill loop, and it too uses the unimported `operator`.
- Aliasing is not modelled. In the source the pipeline and the manager's tile
  list share tile objects. Here the pipeline is a separate sequence.
- TileManager.InitTile: `SetMaxFrameCount` is not defined in
  `tile_manager/base_tile.py`. So, as written, line 53 raises AttributeError
  for any non-blank tile whose count is 0. Examples are the default `BaseTile()`
  and a `RouteTile` with scrolling (0, 0). The override here, and so in
  `TileManager.InitializeTiles` and the 5-frame case of
  `TileManager.ConstructionExamples`, follows what
  `tile_manager/tile_manager_test.py:35-39` expects, not the code.
- TileManager.New: its "fails exactly when a tile is too big" holds only with
  the `SetMaxFrameCount` the model supplies. As written, a 0-count non-blank
  tile makes line 53 raise AttributeError before the size check at lines 32-34.
  In the source, `_InitalizeTiles` (lines 27 and 31) also changes the caller's
  own tile objects before that check: line 52 memoises their counts. So a
  refused construction still leaves the caller's tiles changed. The model's
  `Failure` carries no tiles, and the caller's sequence is a value that nothing
  changes.
- TileManager.PruneAndStep: `tile_manager/tile_manager.py` never imports
  `operator` (lines 5-7). So for any non-empty pipeline, line 103 raises
  NameError before line 104 runs, and as written no surviving tile is ever
  stepped. The model gives the evident intent of lines 101-104: keep the
  tiles with `current_frame <=` their count, then step each survivor once.
- The grid packer that the later tests call is not modelled:
  `_RenderPruneAndTick`, `_RenderAddNewTiles`, `_RenderToMatrix`,
  `render_pipeline` and `tile_size`. Its implementation is not part of this
  model.
- The hardware wrappers are not modelled: both `matrix_manager.py` files and
  the matrix mock. Only their screen width and height formulas are used.
- The weather tiles' icon loading and text layout are not modelled. Only their
  footprint and render extent enter, through the `Opaque` tile kind.
- `tile_manager/unittest_tiletest.py` is not modelled, because its image
  comparison uses float RMS.
- BaseTile.CeilDiv: Python's `math.ceil(move/abs(scrolling))` divides in
  floating point. Exact integer ceiling division is used instead. The two
  agree for all moves small enough to be represented exactly.
- Route.StopFill: stop times and `now` are whole seconds on one common clock.
  The source compares `datetime` differences to microsecond precision. Time
  zones matter too. Line 96 takes a naive `utcnow()`, but documented stops are
  timezone-aware (route.py:54, route_test.py:19-21). Subtracting one from the
  other at line 104 raises TypeError. Only the naive default stop from line 59
  can get a colour. The model classifies every stop by its seconds away,
  because that is the evident intent of lines 103-108.
- BaseTile.Render: `tile_manager/base_tile.py:186` calls `rectangle` on the
  PIL `Image` created at line 69. An `Image` has no such method; the drawing
  object is `_image_draw`, from line 70. So the call raises AttributeError
  before line 188 can set `displayed`. A blank tile inherits this `Render`
  and fails the same way. The model follows the behaviour
  base_tile_test.py:83-87 expects: rendering marks the tile displayed.
- Route.RenderRoute: route.py does not parse as written. At line 111 the
  `_RenderText(` call opened at line 110 is closed too early, so lines 112-113
  have an unexpected indent and an unmatched `)`. Even with that repaired:
  - line 97 calls `_RenderText`, which base_tile.py does not define;
  - line 104 subtracts a naive `now` from timezone-aware stops, which raises
    TypeError.

  So lines 103-108 and 119 never run for documented input. The model gives the
  evident intent: each stop is coloured by its time from `now`, and the tile
  is marked displayed.
- The older manager's `ArrangeTiles` and `Run` have empty bodies in the source,
  so they are not modelled.
