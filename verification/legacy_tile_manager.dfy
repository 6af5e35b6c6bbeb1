/** The older tile manager: it only finds the biggest tile and refuses a tile
    set that does not fit the screen. It agrees with the newer manager on
    both, and leaves the tiles as given. */
module LegacyTileManager {
  import opened Wrappers
  import opened Geometry
  import opened BaseTile
  import TileManager

  datatype LegacyManager = LegacyManager(
    tiles: seq<Tile>,
    screenWidth: int,
    screenHeight: int,
    maxTile: Size)

  /** The componentwise maximum footprint of the tiles, (0, 0) for none. */
  method FindBiggestTile(tiles: seq<Tile>) returns (maxWidth: int, maxHeight: int)
    ensures IsComponentwiseMax(TileManager.Footprints(tiles), Size(maxWidth, maxHeight))
  {
    var sizes := TileManager.Footprints(tiles);
    maxWidth, maxHeight := 0, 0;
    var i := 0;
    while i < |tiles|
      invariant i <= |tiles|
      invariant IsComponentwiseMax(sizes[..i], Size(maxWidth, maxHeight))
    {
      var fp := Footprint(tiles[i].kind);
      assert sizes[..i + 1] == sizes[..i] + [fp];
      maxWidth := Max(fp.w, maxWidth);
      maxHeight := Max(fp.h, maxHeight);
      i := i + 1;
    }
    assert sizes[..i] == sizes;
  }

  /** Builds the older manager: it fails exactly when the newer manager's
      constructor does (a tile larger than the screen, or a screen of
      negative extent), keeps the tiles as given (so no frame count changes),
      and records the componentwise maximum footprint. */
  method New(tiles: seq<Tile>, matrixSize: int, chainLength: int) returns (r: Result<LegacyManager, TileManager.Error>)
    ensures var sw := TileManager.ScreenWidth(matrixSize, chainLength);
      var sh := TileManager.ScreenHeight(matrixSize);
      r.Failure? <==>
        (exists i :: 0 <= i < |tiles| && !TileManager.FitsScreen(Footprint(tiles[i].kind), sw, sh))
        || !TileManager.FitsScreen(Size(0, 0), sw, sh)
    ensures r.Success? ==> r.value.tiles == tiles
    ensures r.Success? ==> IsComponentwiseMax(TileManager.Footprints(tiles), r.value.maxTile)
  {
    var w, h := FindBiggestTile(tiles);
    var sw := TileManager.ScreenWidth(matrixSize, chainLength);
    var sh := TileManager.ScreenHeight(matrixSize);
    if w > sw || h > sh {
      return Failure(TileManager.TileBiggerThanScreen);
    }
    return Success(LegacyManager(tiles, sw, sh, Size(w, h)));
  }

  /** The biggest size the older manager finds is the one the newer
      manager's initialisation returns, whatever its lifespan settings. */
  lemma BiggestTileAgrees(tiles: seq<Tile>, biggest: Size, staticLifespan: int, fps: int)
    requires IsComponentwiseMax(TileManager.Footprints(tiles), biggest)
    ensures biggest == TileManager.InitializeTiles(tiles, staticLifespan, fps).1
  {
    MaxSizeUnique(TileManager.Footprints(tiles), biggest);
  }
}
