# GSI Tile To Static Map — a verified model of the stitching core

The Blender add-on `GSI Tile To Static Map` builds one static map image from
a rectangle of map tiles served by the Geospatial Information Authority of
Japan (GSI). The operator `GsiTileToStaticMap`'s `execute` calls `main`,
which does four things:

- It computes the size of the combined image: 256 pixels per tile in each direction.
- It visits the tiles of the range from the bottom row up, each row from west to east.
- For each tile it fills the URL template (`{z}`, `{x}`, `{y}`), downloads and loads the image, and names the image asset `tiletype-z-x-y`. The tile type comes from a regular expression.
- It copies every tile, channel by channel, into its own 256 × 256 block of one RGBA buffer. It walks the blocks with a running `tile_idx`.

The operator's `poll` enables it only when the top-left tile is strictly west
of and strictly north of the bottom-right tile.

The model is split into six modules, one file each:

- `TileGrid` (`grid.dfy`): the range, the image size, the download order and `poll`.
- `PixelLayout` (`layout.dfy`): flat RGBA cell arithmetic. Blender stores pixel rows bottom-up, and a reshaped array is read through stride-4 channel views. `Stitched` is the specification of the combined image.
- `TileUrl` (`url.dfy`): Python's `str(int)` and a left-to-right, non-overlapping model of `str.replace`, plus the URL formatting they make up.
- `TileNaming` (`naming.dfy`): `re.search("([^/]+)/\d+/\d+/\d+\.\w+$", url).group(1)` and the asset name.
- `Stitcher` (`stitcher.dfy`): the imperative part of `main`. It has the download loop, the block-copy loops over an `array`, and the whole pipeline.
- `Arith` and `Wrappers`: helpers.

How the model is written:

- Pixel values have an arbitrary type `T`.
- Downloading and decoding an image is a function parameter `fetch`, from URL to pixels.
- The exception `main` raises when the regular expression finds nothing (`None.group`) is the error value `NoTileType(url)`.

The operator's `poll` tests strict `<` (`tilemapdownloader.py:141-144`), so
it refuses ranges one tile wide or one tile high, although `main` itself
handles them: `PixelLayout.StitchedSingleTile` shows that a single tile
stitches to itself.

## Model

| member | source | states |
|---|---|---|
| TileGrid.CompositeWidthPx | tilemapdownloader.py:53 | `combined_x_px` is 256 times the number of columns, and at least 256 for a non-empty range; it is not positive for an empty one |
| TileGrid.CompositeHeightPx | tilemapdownloader.py:54 | `combined_y_px` is 256 times the number of rows, and at least 256 for a non-empty range; it is not positive for an empty one |
| TileGrid.TileAtInRange | tilemapdownloader.py:76-77 | entry k of the visit order, `(x0 + k % W, y1 - k / W)`, lies in the range, and `TileIndex` gives back k |
| TileGrid.TileIndexInOrder | tilemapdownloader.py:76-77 | every tile of the range has a position in `[0, W·H)` in the visit order, and entry `TileIndex(c)` is `c` |
| TileGrid.TileIndexOrder | tilemapdownloader.py:76-77 | tile a is visited before tile b (lower row, or same row further west) if and only if its position is smaller |
| TileGrid.PollAdmitsAtLeastTwoByTwo | tilemapdownloader.py:139-145 | `poll` is true exactly for ranges at least 2 tiles wide and 2 tiles high, so the image is at least 512 × 512 pixels |
| TileGrid.Poll | tilemapdownloader.py:139-145 | the gate: true exactly when `topleftX < bottomrightX` and `topleftY < bottomrightY`; `PollAdmitsAtLeastTwoByTwo` states what ranges that admits |
| TileGrid.DefaultRange | tilemapdownloader.py:28-32 | the default range is 9 × 6 = 54 tiles and 2304 × 1536 pixels, and `poll` admits it |
| TileUrl.NatToDecimal | tilemapdownloader.py:79 | `str(n)` is non-empty, all digits, and has no leading zero unless it is `"0"` |
| TileUrl.DecimalRoundTrip | tilemapdownloader.py:79 | reading the digits of `str(n)` back gives `n` |
| TileUrl.DecimalInjective | tilemapdownloader.py:79 | distinct numbers get distinct decimal strings |
| TileUrl.IntToDecimal | tilemapdownloader.py:79 | `str(i)` is digits with an optional leading `-`, and it is all digits exactly when `i >= 0` |
| TileUrl.IntToDecimalValue | tilemapdownloader.py:79 | `str(i)` stands for `i`: its digits read back as `i` when `i >= 0`, and for negative `i` it is `-` followed by digits that read back as `-i` |
| TileUrl.ReplaceAll | tilemapdownloader.py:79 | `str.replace`: scans left to right, replacing each occurrence and resuming after it; `ReplaceAbsent`, `ReplaceAppend`, `ReplaceLeavesNoPattern` and `ReplaceAddsNoOccurrence` state its behaviour |
| TileUrl.ReplaceAbsent | tilemapdownloader.py:79 | `replace` leaves a string without the pattern unchanged |
| TileUrl.ReplaceAppend | tilemapdownloader.py:79 | `replace` splits over a concatenation when no occurrence can straddle the seam |
| TileUrl.ReplaceLeavesNoPattern | tilemapdownloader.py:79 | after `replace(pat, rep)`, where `rep` is non-empty and shares no character with `pat`, `pat` does not occur |
| TileUrl.ReplaceAddsNoOccurrence | tilemapdownloader.py:79 | `replace` with a non-empty `rep` sharing no character with `q` creates no new occurrence of `q` |
| TileUrl.BraceFreeReplace | tilemapdownloader.py:79 | replacing a placeholder leaves brace-free text unchanged, also in front of other text |
| TileUrl.PlaceholderReplace | tilemapdownloader.py:79 | a placeholder token becomes `rep` if it is the pattern and stays otherwise |
| TileUrl.ReplaceInPreset | tilemapdownloader.py:79 | one `replace` on a preset-shaped template rewrites exactly the matching placeholder positions |
| TileUrl.FormatUrl | tilemapdownloader.py:79 | the tile URL: `{z}`, then `{x}`, then `{y}` replaced by the decimal numbers; `FormatPresetUrl` and `FormatUrlLeavesNoPlaceholder` state what it yields |
| TileUrl.FormatPresetUrl | tilemapdownloader.py:79 | for a preset-shaped template, the tile URL is the template with `str(z)`, `str(x)` and `str(y)` in the placeholder positions |
| TileUrl.FormatUrlLeavesNoPlaceholder | tilemapdownloader.py:79 | whatever the template, no `{z}`, `{x}` or `{y}` survives the three chained replaces |
| TileNaming.NextSlash | tilemapdownloader.py:82 | the greedy `[^/]+` run from i stops at the first `/` or at the end, and holds no `/` |
| TileNaming.ReadTail | tilemapdownloader.py:82 | a match of `/\d+/\d+/\d+\.\w+$` yields a well-formed tail whose text is exactly the matched string |
| TileNaming.ReadTailOfText | tilemapdownloader.py:82 | the tail pattern reads every well-formed tail back from its text, including the one before a final newline |
| TileNaming.TailUnique | tilemapdownloader.py:82 | the anchored tail can match at one position of a string at most |
| TileNaming.Search | tilemapdownloader.py:82 | `re.search` returns a start position inside the string |
| TileNaming.SearchSkips | tilemapdownloader.py:82 | the search passes over positions where the pattern does not match |
| TileNaming.SearchIsLeftmost | tilemapdownloader.py:82 | no match starts before the position the search returns |
| TileNaming.SearchFindsMatch | tilemapdownloader.py:82 | the pattern matches at the position the search returns |
| TileNaming.SearchStartsSegment | tilemapdownloader.py:82 | the leftmost match starts at the start of the URL or right after a `/` |
| TileNaming.PartsAtAssemble | tilemapdownloader.py:82 | at the leftmost match, the URL splits into a well-formed prefix, group 1 and tail that put back together give the URL |
| TileNaming.TileType | tilemapdownloader.py:82 | `re.search(...).group(1)`, or none when nothing matches; `TileTypeOfWellFormed`, `TileTypeFound` and `TileTypeSpec` state which URLs have a tile type and what it is |
| TileNaming.TileTypeOfWellFormed | tilemapdownloader.py:82 | for a URL `prefix/tiletype/z/x/y.ext`, group 1 is `tiletype` |
| TileNaming.TileTypeFound | tilemapdownloader.py:82 | a group 1 that is found is the tile type of a well-formed split of the URL |
| TileNaming.TileTypeSpec | tilemapdownloader.py:82 | the search finds a tile type if and only if the URL has the form `prefix/tiletype/z/x/y.ext` |
| TileNaming.TileName | tilemapdownloader.py:82-83 | the asset name `tiletype-z-x-y`, or none when the URL has no tile type; `PresetTileName` states it for preset-shaped templates |
| TileNaming.PresetTileName | tilemapdownloader.py:79-83 | for a preset-shaped template, with non-negative zoom, x and y, the asset name is `tiletype-z-x-y` |
| Stitcher.Resized | tilemapdownloader.py:110-111 | `resize(256, 1024)` gives 262144 cells: the original ones while they last, then zeros |
| Stitcher.ResizedExact | tilemapdownloader.py:110-111 | a tile of 256 × 256 RGBA pixels is left as it is by the resize |
| Stitcher.DownloadTiles | tilemapdownloader.py:76-88 | the download succeeds if and only if every tile's URL has a tile type. On success tile c is at position `TileIndex(c)`, with its name and `fetch(url)`, and there are W·H entries. On failure the error names the URL of the first unnamed tile in visit order |
| Stitcher.DownloadedInOrder | tilemapdownloader.py:76-87 | entry k of a finished download is the tile `(x0 + k % W, y1 - k / W)` |
| Stitcher.CopyPixel | tilemapdownloader.py:121-124 | the four writes for pixel (y, x) fill exactly the four cells of that pixel in block k with the tile's channels, and change nothing else |
| Stitcher.CopyTile | tilemapdownloader.py:119-124 | the two pixel loops copy the tile into block k cell for cell, and change no cell outside block k |
| Stitcher.CombineTiles | tilemapdownloader.py:103-124 | `tile_idx` ends at `len(tiles)` without going past it, and the buffer becomes `Stitched` of the resized tiles, whatever it held before |
| Stitcher.BuildStaticMap | tilemapdownloader.py:53-127 | `main` succeeds if and only if every tile is named. On success the image is `combined_x_px` × `combined_y_px`, the tiles are the download, and the pixels are the stitched tiles. On failure it reports the first unnamed tile |
| Stitcher.TilePlacement | tilemapdownloader.py:94-124 | pixel (py, px) of tile c lands in buffer row `(y1 - c.y) * 256 + py`, column `(c.x - x0) * 256 + px`, which is row `(c.y - y0) * 256 + 255 - py` from the top. It holds the resized downloaded tile's value, so north is up and west is left |
| Stitcher.DownloadedPixels | tilemapdownloader.py:109-111 | the resized pixels at position `TileIndex(c)` are those fetched from tile c's URL |
| Stitcher.BlockOfTile | tilemapdownloader.py:104-124 | block `TileIndex(c)` of the buffer starts at row `(y1 - c.y) * 256` and column `(c.x - x0) * 256` |
| Stitcher.PresetAllNamed | tilemapdownloader.py:79-83 | for a preset-shaped template and non-negative coordinates, every tile of the range gets a name, so the download cannot fail |
| Stitcher.DefaultUrlFormatShape | tilemapdownloader.py:33 | the default URL format is preset-shaped, with `seamlessphoto` as its tile type |
| Stitcher.DefaultSettingsDownload | tilemapdownloader.py:28-33 | with the default settings every tile is named, so `main` completes |
| PixelLayout.PixelIndexCoords | tilemapdownloader.py:96-101 | a cell index of the reshaped `(height, width * 4)` buffer gives back its row, column and channel |
| PixelLayout.CellCoords | tilemapdownloader.py:96-101 | every cell of the buffer is the cell of one pixel inside the image and one channel |
| PixelLayout.OffsetInBlock | tilemapdownloader.py:119-124 | the tile cell a buffer cell copies lies inside the tile |
| PixelLayout.BlockCellLocation | tilemapdownloader.py:104-124 | cell (y, x, ch) of tile k lands inside the buffer, in block k, at offset (y, x, ch) |
| PixelLayout.CellInBlock | tilemapdownloader.py:104-124 | every buffer cell lies in the block of a tile of the range, so the blocks cover the buffer |
| PixelLayout.BlockCellInjective | tilemapdownloader.py:104-124 | two tile cells share a buffer cell only if they are the same cell of the same tile, so the blocks do not overlap |
| PixelLayout.BlockCellOfOffset | tilemapdownloader.py:119-124 | a cell of block k at tile offset (y, x, ch) is the cell that pixel write targets |
| PixelLayout.StitchedBlock | tilemapdownloader.py:104-124 | block k of the stitched image is an exact copy of tile k |
| PixelLayout.StitchedSingleTile | tilemapdownloader.py:104-124 | a 1 × 1 grid stitches to its one tile |

## Left out

- Blender integration is not modelled: add-on registration, scene properties, the panel, `execute` and `report`.
- Image assets are not modelled: `use_fake_user`, `pack`, `filepath` and `os.remove`. Neither are the asset names Blender truncates or suffixes with `.001`.
- The HTTP download, the temporary file and image decoding are not modelled. They are the parameter `fetch`, a total function, so network errors and decode failures are not modelled.
- `print` output is left out.
- Pixels are of an arbitrary type, so float channel values are not modelled.
- TileNaming.ReadTail: `\d` and `\w` are ASCII classes. Python 3's Unicode digits and word characters are not modelled.
- TileUrl.ReplaceAll: assumes a non-empty pattern, since `main` only replaces `{z}`, `{x}` and `{y}`. Python's `replace` with an empty pattern is not modelled.
- Stitcher.BuildStaticMap: requires a non-empty range. The code passes a non-positive size to `bpy.data.images.new` for an empty range, and what Blender then does is not part of this model. `poll` refuses such ranges anyway.
- Stitcher.BuildStaticMap: starts from a buffer of `zero` values rather than the blank image's pixels. `CombineTiles` overwrites every cell, so the start value does not show in the result.
- Stitcher.DownloadTiles: fetches only tiles whose URL has a tile type. The code downloads the tile before it runs the regular expression, so one extra download happens before the error. The model cannot observe it, because `fetch` has no effect.
