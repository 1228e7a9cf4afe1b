/** The tile range the operator is run on: its size in tiles and in pixels,
    the order in which `main` visits its tiles, and the operator's `poll` gate.
    Tile coordinates follow the slippy-map convention: x grows eastward and
    y grows southward. */
module TileGrid {
  import Arith

  /** Edge length, in pixels, of one map tile. */
  const TileSize: nat := 256

  datatype Coord = Coord(x: int, y: int)

  /** How many integers `range(lo, hi + 1)` yields. */
  function Span(lo: int, hi: int): nat
  {
    if lo <= hi then hi - lo + 1 else 0
  }

  /** Width of the combined image, `combined_x_px`. */
  function CompositeWidthPx(topleftX: int, bottomrightX: int): (w: int)
    ensures topleftX <= bottomrightX ==> w == Span(topleftX, bottomrightX) * TileSize && w >= TileSize
    ensures topleftX > bottomrightX ==> w <= 0
  {
    (bottomrightX - topleftX + 1) * TileSize
  }

  /** Height of the combined image, `combined_y_px`. */
  function CompositeHeightPx(topleftY: int, bottomrightY: int): (h: int)
    ensures topleftY <= bottomrightY ==> h == Span(topleftY, bottomrightY) * TileSize && h >= TileSize
    ensures topleftY > bottomrightY ==> h <= 0
  {
    (bottomrightY - topleftY + 1) * TileSize
  }

  /** Whether `c` lies in the tile range. */
  predicate InRange(c: Coord, topleftX: int, topleftY: int, bottomrightX: int, bottomrightY: int)
  {
    topleftX <= c.x <= bottomrightX && topleftY <= c.y <= bottomrightY
  }

  /** Entry `k` of the download order, for a range `columns` tiles wide: rows
      are visited from the bottom one (y = bottomrightY) up, each row from west to east. */
  function TileAt(topleftX: int, bottomrightY: int, columns: nat, k: nat): Coord
    requires columns > 0
  {
    Coord(topleftX + k % columns, bottomrightY - k / columns)
  }

  /** Position of tile `c` in the download order. */
  function TileIndex(topleftX: int, bottomrightY: int, columns: nat, c: Coord): int
  {
    (bottomrightY - c.y) * columns + (c.x - topleftX)
  }

  /** Tile `a` is downloaded before tile `b`: it lies in a lower row (larger
      y), or in the same row further west. */
  predicate Before(a: Coord, b: Coord)
  {
    a.y > b.y || (a.y == b.y && a.x < b.x)
  }

  /** `TileIndex` numbers the tiles of the range in download order. */
  lemma TileIndexOrder(topleftX: int, topleftY: int, bottomrightX: int, bottomrightY: int, a: Coord, b: Coord)
    requires InRange(a, topleftX, topleftY, bottomrightX, bottomrightY)
    requires InRange(b, topleftX, topleftY, bottomrightX, bottomrightY)
    ensures var columns := Span(topleftX, bottomrightX);
      Before(a, b) <==> TileIndex(topleftX, bottomrightY, columns, a) < TileIndex(topleftX, bottomrightY, columns, b)
  {
    var columns := Span(topleftX, bottomrightX);
    if a.y > b.y {
      Arith.MulMonotone(bottomrightY - a.y + 1, bottomrightY - b.y, columns);
      assert (bottomrightY - a.y + 1) * columns == (bottomrightY - a.y) * columns + columns;
    } else if a.y < b.y {
      Arith.MulMonotone(bottomrightY - b.y + 1, bottomrightY - a.y, columns);
      assert (bottomrightY - b.y + 1) * columns == (bottomrightY - b.y) * columns + columns;
    }
  }

  /** Every position of the download order names a tile of the range, and
      `TileIndex` recovers the position from the tile. */
  lemma TileAtInRange(topleftX: int, topleftY: int, bottomrightX: int, bottomrightY: int, k: nat)
    requires k < Span(topleftX, bottomrightX) * Span(topleftY, bottomrightY)
    ensures Span(topleftX, bottomrightX) > 0
    ensures var columns := Span(topleftX, bottomrightX);
      && InRange(TileAt(topleftX, bottomrightY, columns, k), topleftX, topleftY, bottomrightX, bottomrightY)
      && TileIndex(topleftX, bottomrightY, columns, TileAt(topleftX, bottomrightY, columns, k)) == k
  {
    var columns, rows := Span(topleftX, bottomrightX), Span(topleftY, bottomrightY);
    Arith.RowMajorSplit(k, rows, columns);
  }

  /** Every tile of the range occurs in the download order, at position `TileIndex`. */
  lemma TileIndexInOrder(topleftX: int, topleftY: int, bottomrightX: int, bottomrightY: int, c: Coord)
    requires InRange(c, topleftX, topleftY, bottomrightX, bottomrightY)
    ensures var columns := Span(topleftX, bottomrightX);
      && columns > 0
      && 0 <= TileIndex(topleftX, bottomrightY, columns, c) < columns * Span(topleftY, bottomrightY)
      && TileAt(topleftX, bottomrightY, columns, TileIndex(topleftX, bottomrightY, columns, c)) == c
  {
    var columns, rows := Span(topleftX, bottomrightX), Span(topleftY, bottomrightY);
    var k := TileIndex(topleftX, bottomrightY, columns, c);
    Arith.RowMajorBound(bottomrightY - c.y, c.x - topleftX, rows, columns);
    assert rows * columns == columns * rows;
    Arith.DivModUnique(k, columns, bottomrightY - c.y, c.x - topleftX);
  }

  /** `GsiTileToStaticMap.poll`: the operator is enabled only when the
      top-left tile lies strictly west of and strictly north of the bottom-right one. */
  predicate Poll(topleftX: int, topleftY: int, bottomrightX: int, bottomrightY: int)
  {
    topleftX < bottomrightX && topleftY < bottomrightY
  }

  /** The gate admits exactly the ranges at least two tiles wide and two tiles
      high; in particular a single row, a single column or a single tile is refused. */
  lemma PollAdmitsAtLeastTwoByTwo(topleftX: int, topleftY: int, bottomrightX: int, bottomrightY: int)
    ensures Poll(topleftX, topleftY, bottomrightX, bottomrightY)
        <==> Span(topleftX, bottomrightX) >= 2 && Span(topleftY, bottomrightY) >= 2
    ensures Poll(topleftX, topleftY, bottomrightX, bottomrightY) ==>
      (CompositeWidthPx(topleftX, bottomrightX) >= 2 * TileSize &&
       CompositeHeightPx(topleftY, bottomrightY) >= 2 * TileSize)
  {
  }

  /** The default range (zoom 18, tiles (229732, 104096) to (229740, 104101))
      is 9 by 6 tiles, 54 tiles in all, and a 2304 by 1536 pixel image. */
  lemma DefaultRange()
    ensures Span(229732, 229740) == 9 && Span(104096, 104101) == 6
    ensures Span(229732, 229740) * Span(104096, 104101) == 54
    ensures CompositeWidthPx(229732, 229740) == 2304 && CompositeHeightPx(104096, 104101) == 1536
    ensures Poll(229732, 104096, 229740, 104101)
  {
  }
}
