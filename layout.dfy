/** The pixel buffers `main` works on, as flat sequences of channel values.
    A buffer `widthPx` pixels wide keeps pixel (row, col) in four consecutive
    cells R, G, B, A starting at `(row * widthPx + col) * 4`; this is the
    layout behind the stride-4 channel views of an array reshaped to
    `(height, width * 4)`. Rows count from the bottom of the image, as
    Blender's pixel rows do. */
module PixelLayout {
  import Arith
  import opened TileGrid

  /** Channels per pixel: R, G, B, A. */
  const Channels: nat := 4

  /** Cells of one decoded tile. */
  const TileCells: nat := TileSize * TileSize * Channels

  /** Cell holding channel `ch` of pixel (row, col). */
  function PixelIndex(row: nat, col: nat, ch: nat, widthPx: nat): nat
  {
    (row * widthPx + col) * Channels + ch
  }

  /** Cell holding channel `ch` of pixel (y, x) of a tile. */
  function TileCell(y: nat, x: nat, ch: nat): nat
  {
    PixelIndex(y, x, ch, TileSize)
  }

  function ChannelOf(i: nat): nat
  {
    i % Channels
  }

  function PixelRow(i: nat, widthPx: nat): nat
    requires widthPx > 0
  {
    i / Channels / widthPx
  }

  function PixelCol(i: nat, widthPx: nat): nat
    requires widthPx > 0
  {
    i / Channels % widthPx
  }

  /** Reading a cell index back gives the pixel and channel it was made from. */
  lemma PixelIndexCoords(row: nat, col: nat, ch: nat, widthPx: nat)
    requires col < widthPx && ch < Channels
    ensures ChannelOf(PixelIndex(row, col, ch, widthPx)) == ch
    ensures PixelRow(PixelIndex(row, col, ch, widthPx), widthPx) == row
    ensures PixelCol(PixelIndex(row, col, ch, widthPx), widthPx) == col
  {
    var i := PixelIndex(row, col, ch, widthPx);
    Arith.DivModUnique(i, Channels, row * widthPx + col, ch);
    Arith.DivModUnique(row * widthPx + col, widthPx, row, col);
  }

  /** Every cell of a `widthPx` by `heightPx` buffer is channel `ChannelOf(i)`
      of a pixel inside the image, and `PixelIndex` maps that pixel back to `i`;
      with PixelIndexCoords, pixel and channel number the cells one to one. */
  lemma CellCoords(i: nat, widthPx: nat, heightPx: nat)
    requires i < heightPx * widthPx * Channels
    ensures widthPx > 0
    ensures PixelRow(i, widthPx) < heightPx && PixelCol(i, widthPx) < widthPx && ChannelOf(i) < Channels
    ensures PixelIndex(PixelRow(i, widthPx), PixelCol(i, widthPx), ChannelOf(i), widthPx) == i
  {
    var p := i / Channels;
    assert i == p * Channels + ChannelOf(i);
    Arith.RowMajorSplit(p, heightPx, widthPx);
  }

  /** Pixels inside the image have cells inside the buffer. */
  lemma PixelIndexBound(row: nat, col: nat, ch: nat, widthPx: nat, heightPx: nat)
    requires row < heightPx && col < widthPx && ch < Channels
    ensures PixelIndex(row, col, ch, widthPx) < heightPx * widthPx * Channels
  {
    Arith.RowMajorBound(row, col, heightPx, widthPx);
  }

  /** Cells of a combined image `columns` tiles wide and `rows` tiles high. */
  function CompositeCells(columns: nat, rows: nat): nat
  {
    (rows * TileSize) * (columns * TileSize) * Channels
  }

  /** Cell of the combined image that receives cell (y, x, ch) of tile number
      `k` of the download order: the tile's block starts at pixel row
      `(k / columns) * 256` and pixel column `(k % columns) * 256`. */
  function BlockCell(k: nat, y: nat, x: nat, ch: nat, columns: nat): nat
    requires columns > 0
  {
    PixelIndex((k / columns) * TileSize + y, (k % columns) * TileSize + x, ch, columns * TileSize)
  }

  /** Tile whose block covers cell `i` of the combined image. */
  function BlockOf(i: nat, columns: nat): nat
    requires columns > 0
  {
    var widthPx := columns * TileSize;
    (PixelRow(i, widthPx) / TileSize) * columns + PixelCol(i, widthPx) / TileSize
  }

  /** Cell of that tile which cell `i` of the combined image copies. */
  function OffsetInBlock(i: nat, columns: nat): (o: nat)
    requires columns > 0
    ensures o < TileCells
  {
    var widthPx := columns * TileSize;
    TileCell(PixelRow(i, widthPx) % TileSize, PixelCol(i, widthPx) % TileSize, ChannelOf(i))
  }

  /** Tile cells land inside the combined image, in the block of their own
      tile, at their own offset. */
  lemma BlockCellLocation(k: nat, y: nat, x: nat, ch: nat, columns: nat, rows: nat)
    requires columns > 0 && k < columns * rows
    requires y < TileSize && x < TileSize && ch < Channels
    ensures BlockCell(k, y, x, ch, columns) < CompositeCells(columns, rows)
    ensures BlockOf(BlockCell(k, y, x, ch, columns), columns) == k
    ensures OffsetInBlock(BlockCell(k, y, x, ch, columns), columns) == TileCell(y, x, ch)
  {
    var widthPx := columns * TileSize;
    var row, col := (k / columns) * TileSize + y, (k % columns) * TileSize + x;
    Arith.RowMajorSplit(k, rows, columns);
    assert col < widthPx;
    PixelIndexCoords(row, col, ch, widthPx);
    PixelIndexBound(row, col, ch, widthPx, rows * TileSize);
    Arith.DivModUnique(row, TileSize, k / columns, y);
    Arith.DivModUnique(col, TileSize, k % columns, x);
  }

  /** Every cell of the combined image lies in the block of exactly one tile:
      `BlockOf` names a tile of the range and `BlockCell` rebuilds the cell. */
  lemma CellInBlock(i: nat, columns: nat, rows: nat)
    requires columns > 0 && i < CompositeCells(columns, rows)
    ensures BlockOf(i, columns) < columns * rows
    ensures OffsetInBlock(i, columns) < TileCells
    ensures var widthPx := columns * TileSize;
      BlockCell(BlockOf(i, columns), PixelRow(i, widthPx) % TileSize, PixelCol(i, widthPx) % TileSize, ChannelOf(i), columns) == i
  {
    var widthPx, heightPx := columns * TileSize, rows * TileSize;
    CellCoords(i, widthPx, heightPx);
    var row, col := PixelRow(i, widthPx), PixelCol(i, widthPx);
    var k := BlockOf(i, columns);
    Arith.RowMajorBound(row / TileSize, col / TileSize, rows, columns);
    Arith.DivModUnique(k, columns, row / TileSize, col / TileSize);
  }

  /** Two tile cells share a combined-image cell only if they are the same
      cell of the same tile: the blocks of distinct tiles do not overlap. */
  lemma BlockCellInjective(k: nat, y: nat, x: nat, ch: nat, k': nat, y': nat, x': nat, ch': nat, columns: nat, rows: nat)
    requires columns > 0 && k < columns * rows && k' < columns * rows
    requires y < TileSize && x < TileSize && ch < Channels
    requires y' < TileSize && x' < TileSize && ch' < Channels
    requires BlockCell(k, y, x, ch, columns) == BlockCell(k', y', x', ch', columns)
    ensures k == k' && y == y' && x == x' && ch == ch'
  {
    BlockCellLocation(k, y, x, ch, columns, rows);
    BlockCellLocation(k', y', x', ch', columns, rows);
    assert TileCell(y, x, ch) == TileCell(y', x', ch');
    PixelIndexCoords(y, x, ch, TileSize);
    PixelIndexCoords(y', x', ch', TileSize);
  }

  /** A cell of block `k` at offset `TileCell(y, x, ch)` is `BlockCell(k, y, x, ch)`. */
  lemma BlockCellOfOffset(i: nat, columns: nat, rows: nat, k: nat, y: nat, x: nat, ch: nat)
    requires columns > 0 && i < CompositeCells(columns, rows)
    requires y < TileSize && x < TileSize && ch < Channels
    requires BlockOf(i, columns) == k && OffsetInBlock(i, columns) == TileCell(y, x, ch)
    ensures i == BlockCell(k, y, x, ch, columns)
  {
    var widthPx := columns * TileSize;
    var y', x', ch' := PixelRow(i, widthPx) % TileSize, PixelCol(i, widthPx) % TileSize, ChannelOf(i);
    CellInBlock(i, columns, rows);
    PixelIndexCoords(y, x, ch, TileSize);
    PixelIndexCoords(y', x', ch', TileSize);
  }

  /** Well-sized tiles, one per block of a `columns` by `rows` grid. */
  predicate TileList<T>(tiles: seq<seq<T>>, columns: nat, rows: nat)
  {
    |tiles| == columns * rows && forall k :: 0 <= k < |tiles| ==> |tiles[k]| == TileCells
  }

  function StitchedCell<T>(tiles: seq<seq<T>>, columns: nat, rows: nat, i: nat): T
    requires columns > 0 && TileList(tiles, columns, rows) && i < CompositeCells(columns, rows)
  {
    CellInBlock(i, columns, rows);
    tiles[BlockOf(i, columns)][OffsetInBlock(i, columns)]
  }

  /** The combined image: tile `k` of the download order copied, unchanged,
      into its block. */
  function Stitched<T>(tiles: seq<seq<T>>, columns: nat, rows: nat): seq<T>
    requires columns > 0 && TileList(tiles, columns, rows)
  {
    seq(CompositeCells(columns, rows), i requires 0 <= i < CompositeCells(columns, rows) => StitchedCell(tiles, columns, rows, i))
  }

  /** The block of tile `k` in the combined image is an exact copy of tile `k`. */
  lemma StitchedBlock<T>(tiles: seq<seq<T>>, columns: nat, rows: nat, k: nat, y: nat, x: nat, ch: nat)
    requires columns > 0 && TileList(tiles, columns, rows) && k < columns * rows
    requires y < TileSize && x < TileSize && ch < Channels
    ensures BlockCell(k, y, x, ch, columns) < |Stitched(tiles, columns, rows)|
    ensures Stitched(tiles, columns, rows)[BlockCell(k, y, x, ch, columns)] == tiles[k][TileCell(y, x, ch)]
  {
    BlockCellLocation(k, y, x, ch, columns, rows);
  }

  /** A one-tile grid stitches to that tile, cell for cell. */
  lemma StitchedSingleTile<T>(tile: seq<T>)
    requires |tile| == TileCells
    ensures Stitched([tile], 1, 1) == tile
  {
    var s := Stitched([tile], 1, 1);
    assert |s| == |tile|;
    forall i | 0 <= i < |tile| ensures s[i] == tile[i] {
      CellCoords(i, TileSize, TileSize);
      assert PixelRow(i, TileSize) % TileSize == PixelRow(i, TileSize);
      assert PixelCol(i, TileSize) % TileSize == PixelCol(i, TileSize);
    }
  }
}
