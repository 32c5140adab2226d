/** Static platforms (entities/platform.py). A platform is built from tile
    images laid left to right; its collision rectangle is the size of the
    tiled image, not the size that was asked for. Platforms never change
    after construction, so they are values. */
module Platforms {
  import opened Config
  import opened Rects

  datatype Tile = LeftEdge | Middle | RightEdge

  /** One blit of a tile image into the platform image, at x offset. */
  datatype Placement = Placement(tile: Tile, offset: int)

  datatype Platform = Platform(rect: Rect, tiles: seq<Placement>)

  /** max(1, width // tileWidth): at least one tile, otherwise as many whole
      tiles as fit in the requested width (a partial tile is dropped). */
  function NumTiles(width: int, tileWidth: nat): (n: nat)
    requires tileWidth > 0
    ensures n >= 1
    ensures width >= tileWidth ==> n * tileWidth <= width < (n + 1) * tileWidth
    ensures width < tileWidth ==> n == 1
  {
    if width / tileWidth < 1 then 1 else width / tileWidth
  }

  /** The blits of the tiling loop, in order: a single middle tile for one
      tile; a left and a right edge for two; otherwise a left edge, middle
      tiles and a right edge. Tile i sits at offset i * tileWidth. */
  function Layout(n: nat, tileWidth: nat): (ts: seq<Placement>)
    requires n >= 1
    ensures |ts| == n
    ensures forall i :: 0 <= i < n ==> ts[i].offset == i * tileWidth
    ensures n == 1 ==> ts == [Placement(Middle, 0)]
    ensures n == 2 ==> ts == [Placement(LeftEdge, 0), Placement(RightEdge, tileWidth)]
    ensures n >= 3 ==> ts[0].tile == LeftEdge && ts[n - 1].tile == RightEdge
    ensures n >= 3 ==> forall i :: 0 < i < n - 1 ==> ts[i].tile == Middle
  {
    if n == 1 then [Placement(Middle, 0)]
    else if n == 2 then [Placement(LeftEdge, 0), Placement(RightEdge, tileWidth)]
    else
      [Placement(LeftEdge, 0)]
      + seq(n - 2, i requires 0 <= i < n - 2 => Placement(Middle, (i + 1) * tileWidth))
      + [Placement(RightEdge, (n - 1) * tileWidth)]
  }

  /** The tiles cover the platform image exactly: each starts where the
      previous one ends, the first at 0 and the last ends at the image's
      right edge. */
  lemma LayoutTilesExactly(n: nat, tileWidth: nat)
    requires n >= 1
    ensures Layout(n, tileWidth)[0].offset == 0
    ensures forall i :: 0 <= i < n - 1 ==> Layout(n, tileWidth)[i].offset + tileWidth == Layout(n, tileWidth)[i + 1].offset
    ensures Layout(n, tileWidth)[n - 1].offset + tileWidth == n * tileWidth
  {
  }

  /** Platform(x, y, width, height) with tiles of the given size. The
      requested height is not used. */
  function Build(x: int, y: int, width: int, height: int, tileWidth: nat, tileHeight: nat): (p: Platform)
    requires tileWidth > 0
    ensures p.rect.x == x && p.rect.y == y
    ensures p.rect.h == tileHeight
    ensures p.rect.w >= tileWidth
    ensures p.rect.w <= (if width < tileWidth then tileWidth else width)
    ensures width >= tileWidth ==> width - tileWidth < p.rect.w
    ensures |p.tiles| * tileWidth == p.rect.w
  {
    var n := NumTiles(width, tileWidth);
    WholeTiles(n, tileWidth);
    Platform(Rect(x, y, n * tileWidth, tileHeight), Layout(n, tileWidth))
  }

  lemma WholeTiles(n: nat, tileWidth: nat)
    requires n >= 1 && tileWidth > 0
    ensures n * tileWidth >= tileWidth
  {
    assert n * tileWidth == (n - 1) * tileWidth + tileWidth;
  }

  /** A platform as the game builds it: every tile image is TILE_SIZE square. */
  function NewPlatform(x: int, y: int, width: int, height: int): (p: Platform)
    ensures p.rect.x == x && p.rect.y == y && p.rect.h == TILE_SIZE
    ensures p.rect == Rect(x, y, NumTiles(width, TILE_SIZE) * TILE_SIZE, TILE_SIZE)
  {
    Build(x, y, width, height, TILE_SIZE, TILE_SIZE)
  }
}
