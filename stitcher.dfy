/** The body of `main`: download the tiles of a range in the order the
    combined image needs them, then copy each tile into its 256x256 block of
    one RGBA pixel buffer. Pixels are of any type `T`; fetching a URL and
    decoding the image is the parameter `fetch`. */
module Stitcher {
  import opened Wrappers
  import Arith
  import opened TileGrid
  import opened PixelLayout
  import opened TileUrl
  import opened TileNaming

  /** A downloaded tile: its asset name and its flat RGBA pixels. */
  datatype Tile<T> = Tile(name: string, pixels: seq<T>)

  /** `re.search(...)` found nothing in this tile URL, so `.group(1)` fails. */
  datatype Error = NoTileType(url: string)

  /** The combined image `main` creates. */
  datatype StaticMap<T> = StaticMap(widthPx: int, heightPx: int, tiles: seq<Tile<T>>, pixels: seq<T>)

  /** `tile_pxs.resize(256, 256*4)` on a fresh array: numpy's in-place resize
      keeps the first cells and fills any missing ones with zeros. */
  function Resized<T>(pixels: seq<T>, zero: T): (r: seq<T>)
    ensures |r| == TileCells
    ensures forall i :: 0 <= i < TileCells ==> r[i] == if i < |pixels| then pixels[i] else zero
  {
    if |pixels| >= TileCells then pixels[..TileCells]
    else pixels + seq(TileCells - |pixels|, _ => zero)
  }

  /** A tile of the expected size is left as it is. */
  lemma ResizedExact<T>(pixels: seq<T>, zero: T)
    requires |pixels| == TileCells
    ensures Resized(pixels, zero) == pixels
  {
  }

  /** Pixels of every tile after the resize. */
  function ResizedPixels<T>(tiles: seq<Tile<T>>, zero: T): (r: seq<seq<T>>)
    ensures |r| == |tiles|
    ensures forall k :: 0 <= k < |tiles| ==> r[k] == Resized(tiles[k].pixels, zero)
  {
    seq(|tiles|, k requires 0 <= k < |tiles| => Resized(tiles[k].pixels, zero))
  }

  /** The URL of tile `c`. */
  function TileUrlAt(urlfmt: string, zoomlevel: int, c: Coord): string
  {
    FormatUrl(urlfmt, zoomlevel, c.x, c.y)
  }

  /** The asset name of tile `c`, if its URL has a tile type. */
  function NameAt(urlfmt: string, zoomlevel: int, c: Coord): Option<string>
  {
    TileName(TileUrlAt(urlfmt, zoomlevel, c), zoomlevel, c.x, c.y)
  }

  /** What one iteration of the download loop appends for tile `c`. */
  function FetchTile<T>(urlfmt: string, zoomlevel: int, c: Coord, fetch: string -> seq<T>): Option<Tile<T>>
  {
    match NameAt(urlfmt, zoomlevel, c)
    case None => None
    case Some(name) => Some(Tile(name, fetch(TileUrlAt(urlfmt, zoomlevel, c))))
  }

  /** Every tile of the range has a name. */
  ghost predicate AllNamed(urlfmt: string, zoomlevel: int, topleftX: int, topleftY: int, bottomrightX: int, bottomrightY: int)
  {
    forall c :: InRange(c, topleftX, topleftY, bottomrightX, bottomrightY) ==> NameAt(urlfmt, zoomlevel, c).Some?
  }

  /** The tiles of the range downloaded before `next`, each at its place in
      the download order. */
  ghost predicate DownloadedBefore<T>(tiles: seq<Tile<T>>, next: Coord, urlfmt: string, zoomlevel: int,
                                      topleftX: int, topleftY: int, bottomrightX: int, bottomrightY: int,
                                      fetch: string -> seq<T>)
  {
    forall c :: InRange(c, topleftX, topleftY, bottomrightX, bottomrightY) && Before(c, next) ==>
      var k := TileIndex(topleftX, bottomrightY, Span(topleftX, bottomrightX), c);
      0 <= k < |tiles| && FetchTile(urlfmt, zoomlevel, c, fetch) == Some(tiles[k])
  }

  /** `tiles` is the whole download: exactly one entry per tile of the range,
      tile `c` at position `TileIndex(c)` of the download order. */
  ghost predicate Downloaded<T>(tiles: seq<Tile<T>>, urlfmt: string, zoomlevel: int, topleftX: int, topleftY: int,
                                bottomrightX: int, bottomrightY: int, fetch: string -> seq<T>)
  {
    && |tiles| == Span(topleftX, bottomrightX) * Span(topleftY, bottomrightY)
    && forall c :: InRange(c, topleftX, topleftY, bottomrightX, bottomrightY) ==>
         var k := TileIndex(topleftX, bottomrightY, Span(topleftX, bottomrightX), c);
         0 <= k < |tiles| && FetchTile(urlfmt, zoomlevel, c, fetch) == Some(tiles[k])
  }

  /** `err` reports the first tile, in download order, whose URL has no tile type. */
  ghost predicate FirstUnnamed(err: Error, urlfmt: string, zoomlevel: int, topleftX: int, topleftY: int, bottomrightX: int, bottomrightY: int)
  {
    exists c :: InRange(c, topleftX, topleftY, bottomrightX, bottomrightY)
      && NameAt(urlfmt, zoomlevel, c).None?
      && err == NoTileType(TileUrlAt(urlfmt, zoomlevel, c))
      && forall c' :: InRange(c', topleftX, topleftY, bottomrightX, bottomrightY) && Before(c', c) ==>
           NameAt(urlfmt, zoomlevel, c').Some?
  }

  /** The download loop: rows from `bottomrightY` up to `topleftY`, each row
      from `topleftX` to `bottomrightX`; each tile is fetched and named, and
      the first URL without a tile type ends `main` with an error. */
  method DownloadTiles<T>(urlfmt: string, zoomlevel: int, topleftX: int, topleftY: int,
                          bottomrightX: int, bottomrightY: int, fetch: string -> seq<T>)
    returns (r: Result<seq<Tile<T>>, Error>)
    ensures r.Ok? <==> AllNamed(urlfmt, zoomlevel, topleftX, topleftY, bottomrightX, bottomrightY)
    ensures r.Ok? ==> Downloaded(r.value, urlfmt, zoomlevel, topleftX, topleftY, bottomrightX, bottomrightY, fetch)
    ensures r.Err? ==> FirstUnnamed(r.error, urlfmt, zoomlevel, topleftX, topleftY, bottomrightX, bottomrightY)
  {
    hide TileName, FormatUrl;
    var columns, rows := Span(topleftX, bottomrightX), Span(topleftY, bottomrightY);
    var tiles: seq<Tile<T>> := [];
    var y := bottomrightY;
    while y >= topleftY
      invariant bottomrightY - rows <= y <= bottomrightY
      invariant |tiles| == (bottomrightY - y) * columns
      invariant DownloadedBefore(tiles, Coord(topleftX, y), urlfmt, zoomlevel, topleftX, topleftY, bottomrightX, bottomrightY, fetch)
      decreases y - topleftY
    {
      var x := topleftX;
      while x <= bottomrightX
        invariant topleftX <= x <= topleftX + columns
        invariant |tiles| == (bottomrightY - y) * columns + (x - topleftX)
        invariant DownloadedBefore(tiles, Coord(x, y), urlfmt, zoomlevel, topleftX, topleftY, bottomrightX, bottomrightY, fetch)
        decreases bottomrightX - x
      {
        var url := FormatUrl(urlfmt, zoomlevel, x, y);
        var name := TileName(url, zoomlevel, x, y);
        if name.None? {
          assert NameAt(urlfmt, zoomlevel, Coord(x, y)).None?;
          r := Err(NoTileType(url));
          return;
        }
        var tile := Tile(name.value, fetch(url));
        assert FetchTile(urlfmt, zoomlevel, Coord(x, y), fetch) == Some(tile);
        tiles := tiles + [tile];
        x := x + 1;
      }
      assert (bottomrightY - (y - 1)) * columns == (bottomrightY - y) * columns + columns;
      y := y - 1;
    }
    assert |tiles| == columns * rows;
    r := Ok(tiles);
  }

  /** Entry `k` of the download is the tile at position `k` of the order:
      `(topleftX + k % columns, bottomrightY - k / columns)`. */
  lemma DownloadedInOrder<T>(tiles: seq<Tile<T>>, urlfmt: string, zoomlevel: int, topleftX: int, topleftY: int,
                             bottomrightX: int, bottomrightY: int, fetch: string -> seq<T>, k: nat)
    requires Downloaded(tiles, urlfmt, zoomlevel, topleftX, topleftY, bottomrightX, bottomrightY, fetch)
    requires k < |tiles|
    ensures Span(topleftX, bottomrightX) > 0
    ensures Some(tiles[k]) == FetchTile(urlfmt, zoomlevel, TileAt(topleftX, bottomrightY, Span(topleftX, bottomrightX), k), fetch)
  {
    TileAtInRange(topleftX, topleftY, bottomrightX, bottomrightY, k);
  }

  /** The two innermost loops for one tile: pixel (y, x) of `tile` goes to
      pixel (yy + y, xx + x) of the combined image, channel by channel. The
      block at (yy, xx) is that of tile number `k` of the download order. */
  method CopyTile<T>(combined: array<T>, tile: seq<T>, columns: nat, rows: nat, ghost k: nat, yy: nat, xx: nat)
    requires columns > 0 && k < columns * rows
    requires |tile| == TileCells && combined.Length == CompositeCells(columns, rows)
    requires yy == (k / columns) * TileSize && xx == (k % columns) * TileSize
    modifies combined
    ensures forall i :: 0 <= i < combined.Length ==>
      combined[i] == if BlockOf(i, columns) == k then tile[OffsetInBlock(i, columns)] else old(combined[i])
  {
    var y := 0;
    while y < TileSize
      invariant 0 <= y <= TileSize
      invariant forall i :: 0 <= i < combined.Length ==>
        combined[i] == if BlockOf(i, columns) == k && OffsetInBlock(i, columns) < TileCell(y, 0, 0)
                       then tile[OffsetInBlock(i, columns)] else old(combined[i])
    {
      var x := 0;
      while x < TileSize
        invariant 0 <= x <= TileSize
        invariant forall i :: 0 <= i < combined.Length ==>
          combined[i] == if BlockOf(i, columns) == k && OffsetInBlock(i, columns) < TileCell(y, x, 0)
                         then tile[OffsetInBlock(i, columns)] else old(combined[i])
      {
        CopyPixel(combined, tile, columns, rows, k, yy, xx, y, x);
        x := x + 1;
      }
      y := y + 1;
    }
  }

  /** One pixel of the copy: the R, G, B and A writes of `combined_R[y+yy][x+xx]
      = tile_R[y][x]` and its three siblings. Exactly the four cells of pixel
      (y, x) of block `k` change, and they take the tile's four channel values. */
  method CopyPixel<T>(combined: array<T>, tile: seq<T>, columns: nat, rows: nat, ghost k: nat, yy: nat, xx: nat, y: nat, x: nat)
    requires columns > 0 && k < columns * rows
    requires |tile| == TileCells && combined.Length == CompositeCells(columns, rows)
    requires yy == (k / columns) * TileSize && xx == (k % columns) * TileSize
    requires y < TileSize && x < TileSize
    modifies combined
    ensures forall i :: 0 <= i < combined.Length ==>
      combined[i] == if BlockOf(i, columns) == k && TileCell(y, x, 0) <= OffsetInBlock(i, columns) < TileCell(y, x, 0) + Channels
                     then tile[OffsetInBlock(i, columns)] else old(combined[i])
  {
    hide BlockOf, OffsetInBlock;
    var widthPx := columns * TileSize;
    BlockCellLocation(k, y, x, 0, columns, rows);
    BlockCellLocation(k, y, x, 1, columns, rows);
    BlockCellLocation(k, y, x, 2, columns, rows);
    BlockCellLocation(k, y, x, 3, columns, rows);
    combined[((y + yy) * widthPx + (x + xx)) * 4 + 0] := tile[(y * 256 + x) * 4 + 0];
    combined[((y + yy) * widthPx + (x + xx)) * 4 + 1] := tile[(y * 256 + x) * 4 + 1];
    combined[((y + yy) * widthPx + (x + xx)) * 4 + 2] := tile[(y * 256 + x) * 4 + 2];
    combined[((y + yy) * widthPx + (x + xx)) * 4 + 3] := tile[(y * 256 + x) * 4 + 3];
    forall i | 0 <= i < combined.Length && BlockOf(i, columns) == k
      && TileCell(y, x, 0) <= OffsetInBlock(i, columns) < TileCell(y, x, 0) + Channels
      ensures i == BlockCell(k, y, x, OffsetInBlock(i, columns) - TileCell(y, x, 0), columns)
    {
      BlockCellOfOffset(i, columns, rows, k, y, x, OffsetInBlock(i, columns) - TileCell(y, x, 0));
    }
  }

  /** The block loop: `yy` and `xx` step through the combined image 256
      pixels at a time, bottom band first, and `tile_idx` picks the next tile
      of the download order, so tile `k` fills the block at band `k / columns`,
      column `k % columns`. Every cell ends up holding its tile's pixel,
      whatever the buffer held before. */
  method CombineTiles<T>(combined: array<T>, tiles: seq<Tile<T>>, columns: nat, rows: nat, zero: T) returns (tileIdx: nat)
    requires columns > 0 && |tiles| == columns * rows
    requires combined.Length == CompositeCells(columns, rows)
    modifies combined
    ensures tileIdx == |tiles|
    ensures combined[..] == Stitched(ResizedPixels(tiles, zero), columns, rows)
  {
    var widthPx, heightPx := columns * TileSize, rows * TileSize;
    ghost var pixels := ResizedPixels(tiles, zero);
    assert TileList(pixels, columns, rows);
    tileIdx := 0;
    var yy := 0;
    ghost var band := 0;
    while yy < heightPx
      invariant band <= rows && yy == band * TileSize
      invariant tileIdx == band * columns
      invariant forall i :: 0 <= i < combined.Length ==>
        combined[i] == if BlockOf(i, columns) < tileIdx then StitchedCell(pixels, columns, rows, i) else old(combined[i])
    {
      var xx := 0;
      ghost var column := 0;
      while xx < widthPx
        invariant column <= columns && xx == column * TileSize
        invariant tileIdx == band * columns + column
        invariant forall i :: 0 <= i < combined.Length ==>
          combined[i] == if BlockOf(i, columns) < tileIdx then StitchedCell(pixels, columns, rows, i) else old(combined[i])
      {
        Arith.RowMajorBound(band, column, rows, columns);
        Arith.DivModUnique(tileIdx, columns, band, column);
        var tile := Resized(tiles[tileIdx].pixels, zero);
        CopyTile(combined, tile, columns, rows, tileIdx, yy, xx);
        tileIdx := tileIdx + 1;
        xx := xx + TileSize;
        column := column + 1;
      }
      assert (band + 1) * columns == band * columns + columns;
      yy := yy + TileSize;
      band := band + 1;
    }
    forall i | 0 <= i < combined.Length
      ensures combined[i] == Stitched(pixels, columns, rows)[i]
    {
      CellInBlock(i, columns, rows);
    }
  }

  /** `main` from the grid size to the filled pixel buffer: download, then
      allocate the combined image and copy every tile into it. */
  method BuildStaticMap<T>(urlfmt: string, zoomlevel: int, topleftX: int, topleftY: int,
                           bottomrightX: int, bottomrightY: int, fetch: string -> seq<T>, zero: T)
    returns (r: Result<StaticMap<T>, Error>)
    requires topleftX <= bottomrightX && topleftY <= bottomrightY
    ensures r.Ok? <==> AllNamed(urlfmt, zoomlevel, topleftX, topleftY, bottomrightX, bottomrightY)
    ensures r.Err? ==> FirstUnnamed(r.error, urlfmt, zoomlevel, topleftX, topleftY, bottomrightX, bottomrightY)
    ensures r.Ok? ==>
      && r.value.widthPx == CompositeWidthPx(topleftX, bottomrightX)
      && r.value.heightPx == CompositeHeightPx(topleftY, bottomrightY)
      && Downloaded(r.value.tiles, urlfmt, zoomlevel, topleftX, topleftY, bottomrightX, bottomrightY, fetch)
      && r.value.pixels == Stitched(ResizedPixels(r.value.tiles, zero), Span(topleftX, bottomrightX), Span(topleftY, bottomrightY))
  {
    var downloaded := DownloadTiles(urlfmt, zoomlevel, topleftX, topleftY, bottomrightX, bottomrightY, fetch);
    if downloaded.Err? {
      return Err(downloaded.error);
    }
    var tiles := downloaded.value;
    var columns, rows := Span(topleftX, bottomrightX), Span(topleftY, bottomrightY);
    var widthPx, heightPx := CompositeWidthPx(topleftX, bottomrightX), CompositeHeightPx(topleftY, bottomrightY);
    var combined := new T[CompositeCells(columns, rows)](_ => zero);
    var tileIdx := CombineTiles(combined, tiles, columns, rows, zero);
    r := Ok(StaticMap(widthPx, heightPx, tiles, combined[..]));
  }

  /** Where a tile's pixel ends up. Pixel (py, px) of tile (x, y) lands in
      buffer row (bottomrightY - y) * 256 + py and column (x - topleftX) * 256 + px.
      The buffer's rows run from the bottom of the image up, so counted from
      the top that row is (y - topleftY) * 256 + (255 - py): north is up,
      west is left. */
  lemma TilePlacement<T>(tiles: seq<Tile<T>>, urlfmt: string, zoomlevel: int, topleftX: int, topleftY: int,
                         bottomrightX: int, bottomrightY: int, fetch: string -> seq<T>, zero: T,
                         c: Coord, py: nat, px: nat, ch: nat)
    requires Downloaded(tiles, urlfmt, zoomlevel, topleftX, topleftY, bottomrightX, bottomrightY, fetch)
    requires InRange(c, topleftX, topleftY, bottomrightX, bottomrightY)
    requires py < TileSize && px < TileSize && ch < Channels
    ensures hide FetchTile; var columns, rows := Span(topleftX, bottomrightX), Span(topleftY, bottomrightY);
      var row: nat, col: nat := (bottomrightY - c.y) * TileSize + py, (c.x - topleftX) * TileSize + px;
      && row < rows * TileSize && col < columns * TileSize
      && rows * TileSize - 1 - row == (c.y - topleftY) * TileSize + (TileSize - 1 - py)
      && PixelIndex(row, col, ch, columns * TileSize) < CompositeCells(columns, rows)
      && TileCell(py, px, ch) < TileCells
      && Stitched(ResizedPixels(tiles, zero), columns, rows)[PixelIndex(row, col, ch, columns * TileSize)]
         == Resized(fetch(TileUrlAt(urlfmt, zoomlevel, c)), zero)[TileCell(py, px, ch)]
  {
    var columns, rows := Span(topleftX, bottomrightX), Span(topleftY, bottomrightY);
    var k := TileIndex(topleftX, bottomrightY, columns, c);
    DownloadedPixels(tiles, urlfmt, zoomlevel, topleftX, topleftY, bottomrightX, bottomrightY, fetch, zero, c);
    BlockOfTile(topleftX, topleftY, bottomrightX, bottomrightY, c, py, px, ch);
    StitchedBlock(ResizedPixels(tiles, zero), columns, rows, k, py, px, ch);
  }

  lemma DownloadedPixels<T>(tiles: seq<Tile<T>>, urlfmt: string, zoomlevel: int, topleftX: int, topleftY: int,
                            bottomrightX: int, bottomrightY: int, fetch: string -> seq<T>, zero: T, c: Coord)
    requires Downloaded(tiles, urlfmt, zoomlevel, topleftX, topleftY, bottomrightX, bottomrightY, fetch)
    requires InRange(c, topleftX, topleftY, bottomrightX, bottomrightY)
    ensures var k := TileIndex(topleftX, bottomrightY, Span(topleftX, bottomrightX), c);
      0 <= k < |tiles| && ResizedPixels(tiles, zero)[k] == Resized(fetch(TileUrlAt(urlfmt, zoomlevel, c)), zero)
  {
    var k := TileIndex(topleftX, bottomrightY, Span(topleftX, bottomrightX), c);
    var url := TileUrlAt(urlfmt, zoomlevel, c);
    match NameAt(urlfmt, zoomlevel, c)
    case None =>
    case Some(name) => assert FetchTile(urlfmt, zoomlevel, c, fetch) == Some(Tile(name, fetch(url)));
  }

  /** Tile `c`'s block in the buffer: the one of its position in the download order. */
  lemma BlockOfTile(topleftX: int, topleftY: int, bottomrightX: int, bottomrightY: int, c: Coord, py: nat, px: nat, ch: nat)
    requires InRange(c, topleftX, topleftY, bottomrightX, bottomrightY)
    requires py < TileSize && px < TileSize && ch < Channels
    ensures var columns, rows := Span(topleftX, bottomrightX), Span(topleftY, bottomrightY);
      var k := TileIndex(topleftX, bottomrightY, columns, c);
      var row: nat, col: nat := (bottomrightY - c.y) * TileSize + py, (c.x - topleftX) * TileSize + px;
      && 0 <= k < columns * rows
      && row < rows * TileSize && col < columns * TileSize
      && rows * TileSize - 1 - row == (c.y - topleftY) * TileSize + (TileSize - 1 - py)
      && BlockCell(k, py, px, ch, columns) == PixelIndex(row, col, ch, columns * TileSize)
  {
    var columns := Span(topleftX, bottomrightX);
    var k := TileIndex(topleftX, bottomrightY, columns, c);
    TileIndexInOrder(topleftX, topleftY, bottomrightX, bottomrightY, c);
    Arith.DivModUnique(k, columns, bottomrightY - c.y, c.x - topleftX);
  }

  /** For a template of the preset shape and a range with non-negative
      coordinates, no tile URL lacks a tile type, so the download never fails. */
  lemma PresetAllNamed(prefix: string, tileType: string, ext: string, zoomlevel: int,
                       topleftX: int, topleftY: int, bottomrightX: int, bottomrightY: int)
    requires BraceFree(prefix) && (prefix == [] || prefix[|prefix| - 1] == '/')
    requires |tileType| > 0 && '/' !in tileType && BraceFree(tileType)
    requires |ext| > 0 && AllWordChars(ext)
    requires zoomlevel >= 0 && topleftX >= 0 && topleftY >= 0
    ensures AllNamed(PresetTemplate(prefix + (tileType + "/"), ext), zoomlevel, topleftX, topleftY, bottomrightX, bottomrightY)
  {
    forall c | InRange(c, topleftX, topleftY, bottomrightX, bottomrightY)
      ensures NameAt(PresetTemplate(prefix + (tileType + "/"), ext), zoomlevel, c).Some?
    {
      PresetTileName(prefix, tileType, ext, zoomlevel, c.x, c.y);
    }
  }

  /** The add-on's default URL format. */
  const DefaultUrlFormat: string := "https://cyberjapandata.gsi.go.jp/xyz/" + "seamlessphoto" + "/{z}/{x}/{y}.jpg"

  /** The default template has the preset shape, with `seamlessphoto` as
      the segment before `/{z}`. */
  lemma DefaultUrlFormatShape()
    ensures DefaultUrlFormat == PresetTemplate("https://cyberjapandata.gsi.go.jp/xyz/" + ("seamlessphoto" + "/"), "jpg")
  {
  }

  /** With the default settings (zoom 18, tiles (229732, 104096) to
      (229740, 104101)) every tile gets a name, so the download completes. */
  lemma DefaultSettingsDownload()
    ensures AllNamed(DefaultUrlFormat, 18, 229732, 104096, 229740, 104101)
  {
    DefaultUrlFormatShape();
    hide TileName, FormatUrl, PresetTemplate;
    var prefix, tileType, ext := "https://cyberjapandata.gsi.go.jp/xyz/", "seamlessphoto", "jpg";
    assert AllWordChars(ext) by {
      assert IsWordChar(ext[0]) && IsWordChar(ext[1]) && IsWordChar(ext[2]);
    }
    PresetAllNamed(prefix, tileType, ext, 18, 229732, 104096, 229740, 104101);
  }
}
