# patch_to_map core, modelled in Dafny

`patch_to_map` turns per-patch values into a map. It joins four aligned integer rasters with a table of
(patch id, value) rows, and it writes the result as a single-band output raster. The patch id is a
key `"basin:hillslope:zone:patch"`. This project models the four pieces of logic in
`patch_to_map/main.cpp` and proves properties of each:

- **Alignment check** (`Alignment`, `_read_raster`). A candidate raster must open and must have a
  geotransform. Its pixel height, pixel width, X size, Y size and projection string must then equal the
  reference raster's; the asserts are checked in that order.
- **Composite key indexer** (`Indexer`, `_index_raster`).
  - First, the data types of the four layers are checked.
  - Then a row-major scan reads the four scanlines of each row.
  - Every pixel where no layer value equals the threshold is stored as `key -> (x, y)`, and later
    pixels overwrite earlier ones.
  - The key is built with `%d` in `Keys`, so each value appears as its signed 32-bit
    reinterpretation. The `snprintf` into a 64-byte buffer is modelled explicitly.
- **Join resolver** (`Join`, the `while` loop of `main`). Each row resolves its id with `operator[]`,
  creates the row bucket when it is missing, and stores the value in the nested map. Later rows win.
- **Rasterizer** (`Rasterizer`, the output loop of `main`). The model is a log of cell writes in
  row-major order. An applied form of the log shows the resulting band contents.

Each imperative piece of the source is a Dafny `method` with loops:
- `Indexer.IndexRaster`;
- `Join.ResolveRows`;
- `Rasterizer.Rasterize`.

Each method is proved equal to a recursive specification function: `Indexer.ScanRows`,
`Join.JoinAll` and `Rasterizer.GridWrites`. Characterization lemmas then state what those functions
compute: soundness, completeness, last-write-wins, ordering and frame conditions.

The model follows the code in three places where a plain reading of the program's intent suggests
otherwise:
- All four no-data thresholds are taken from the basin band (`Indexer.Thresholds`,
  `Indexer.OtherNoDataValuesIgnored`).
- A join row whose id is not in the index is not dropped. `operator[]` inserts the id at (0, 0), and
  the value is written to cell (0, 0) (`Join.UnknownIdWritesOrigin`).
- Rows of the output that have no bucket receive no writes. They keep whatever the band held before
  (`Rasterizer.RasterizedBand`, `Rasterizer.TwoByTwoExample`).

## Model

| member | source | states |
|---|---|---|
| Keys.AsInt32 | patch_to_map/main.cpp:125-126 | `%d` applied to a `uint32_t` prints a value in the signed 32-bit range that is congruent to it modulo 2^32 |
| Keys.HighValuesPrintNegative | patch_to_map/main.cpp:125-126 | a value of 2^31 or more appears in the key with a leading minus sign |
| Keys.NatToDecimal | patch_to_map/main.cpp:125 | the decimal rendering is a non-empty digit string without a leading zero |
| Keys.NatToDecimalRoundTrip | patch_to_map/main.cpp:125 | reading the decimal rendering back gives the number |
| Keys.IntToDecimal | patch_to_map/main.cpp:125 | a `%d` field is non-empty and has no `:`; it starts with `-` exactly for negative values, followed by digits |
| Keys.IntToDecimalRoundTrip | patch_to_map/main.cpp:125 | a `%d` field can be parsed back to the integer it prints |
| Keys.NatToDecimalLength | patch_to_map/main.cpp:125 | a number below 10^k renders in at most k digits |
| Keys.Int32DecimalLength | patch_to_map/main.cpp:125 | a signed 32-bit value renders in at most 11 characters |
| Keys.Snprintf | patch_to_map/main.cpp:103-125 | `snprintf` into a buffer of `size` bytes keeps a prefix shorter than `size`; the text is unchanged exactly when it is shorter than `size`, and otherwise exactly `size - 1` characters are kept |
| Keys.KeyFitsBuffer | patch_to_map/main.cpp:103-128 | every key is at most 4×11+3 = 47 characters, so the 64-byte `snprintf` never truncates it |
| Keys.FirstColonAfterField | patch_to_map/main.cpp:125 | in `a:b` with a colon-free field `a`, the first colon sits right after `a` |
| Keys.SplitAtFirstColon | patch_to_map/main.cpp:125 | `a:b == a':b'` with colon-free `a` and `a'` forces `a == a'` and `b == b'` |
| Keys.FormatKey | patch_to_map/main.cpp:125-126 | definition of the `"%d:%d:%d:%d"` text; characterized by KeyFitsBuffer and PatchKeyInjective |
| Keys.PatchKey | patch_to_map/main.cpp:103-128 | definition of the stored key; characterized by KeyFitsBuffer and PatchKeyInjective |
| Keys.PatchKeyInjective | patch_to_map/main.cpp:103-128 | distinct 4-tuples give distinct keys |
| Alignment.ReadRaster | patch_to_map/main.cpp:36-50 | open failure and a missing geotransform are reported before any comparison; the outcome is success exactly when all five attributes equal the reference; otherwise it names the first attribute that differs, in the asserts' order |
| Alignment.ReadRasterAgreesWithMismatches | patch_to_map/main.cpp:45-50 | for a raster with a geotransform, success is the same as an empty set of mismatching attributes |
| Alignment.OriginAndRotationIgnored | patch_to_map/main.cpp:46-47 | only entries 1 and 5 of the geotransform matter; origin and rotation are never compared |
| Indexer.Thresholds | patch_to_map/main.cpp:65-89 | all four thresholds equal the basin band's no-data value |
| Indexer.FirstUnsupported | patch_to_map/main.cpp:59-89 | it is none exactly when all four types are Byte/UInt16/Int16/UInt32/Int32; otherwise it names the first unsupported layer in basin, hillslope, zone, patch order |
| Indexer.Visit | patch_to_map/main.cpp:121-129 | definition of one inner iteration; characterized by ScanRowEntry and ScanRowPixel |
| Indexer.ScanRow | patch_to_map/main.cpp:119-130 | definition of the inner loop; characterized by ScanRowEntry and ScanRowPixel |
| Indexer.ScanRows | patch_to_map/main.cpp:105-131 | definition of the outer loop; characterized by ScanRowsEntry and ScanRowsPixel |
| Indexer.Index | patch_to_map/main.cpp:105-131 | definition of the index built with the formatted key; characterized by ScanCharacterized |
| Indexer.ScanRowEntry | patch_to_map/main.cpp:119-130 | visiting one row keeps old keys, and each touched entry points at a visited pixel that counts and carries that key |
| Indexer.ScanRowPixel | patch_to_map/main.cpp:119-130 | after visiting one row, a visited pixel that counts has its key mapped to a visited pixel with the same key that is not earlier in scan order |
| Indexer.ScanRowsEntry | patch_to_map/main.cpp:105-131 | the same entry property as ScanRowEntry, over rows 0 .. y-1 |
| Indexer.ScanRowsPixel | patch_to_map/main.cpp:105-131 | the same pixel property as ScanRowPixel, over rows 0 .. y-1 |
| Indexer.ScanCharacterized | patch_to_map/main.cpp:105-131 | after the full scan, old keys stay; every new entry is an in-grid pixel that counts and has that key; every counting pixel's key maps to the row-major last pixel with the same four values |
| Indexer.IndexEntriesSound | patch_to_map/main.cpp:105-129 | every entry of the index maps to an in-bounds pixel without no-data whose four values render to the key |
| Indexer.NoDataPixelNotIndexed | patch_to_map/main.cpp:121-124 | a pixel with a threshold value in any layer is the target of no entry |
| Indexer.DuplicateTupleKeepsLast | patch_to_map/main.cpp:105-129 | of two pixels with the same four values, the earlier one in row-major order is not the one stored |
| Indexer.ScanRowSameScanlines | patch_to_map/main.cpp:119-130 | one row scans alike for two band sets with the same scanlines, whatever their types and declared no-data values |
| Indexer.ScanRowsSameScanlines | patch_to_map/main.cpp:105-131 | the same over rows 0 .. y-1 |
| Indexer.OtherNoDataValuesIgnored | patch_to_map/main.cpp:73-89 | changing the no-data values the hillslope, zone and patch bands declare leaves the index unchanged: only the basin's value filters |
| Indexer.ReadLog | patch_to_map/main.cpp:105-117 | the log holds four scanline reads per row |
| Indexer.ReadLogRow | patch_to_map/main.cpp:105-117 | reads 4r .. 4r+3 of the log are row r's basin, hillslope, zone and patch scanlines, in that order |
| Indexer.IndexRaster | patch_to_map/main.cpp:55-132 | an unsupported type fails exactly when FirstUnsupported names a layer, and then no scanline has been read; otherwise the index is the row-major scan with the basin thresholds, and the reads are four per row in layer order |
| Join.Resolve | patch_to_map/main.cpp:269 | definition of the coordinate `patch_index[patchid]` yields; characterized by JoinRow and JoinAllIndex |
| Join.JoinAll | patch_to_map/main.cpp:257-277 | definition of the loop as a fold; characterized by JoinAllCharacterized |
| Join.LastValueAt | patch_to_map/main.cpp:257-277 | reference definition of the last value resolving to a cell; related to JoinAll by JoinAllCell |
| Join.JoinRow | patch_to_map/main.cpp:269-276 | with `c = patch_index[id]`: the id is in the index and old entries keep their coordinate; a bucket exists at `c.y`; `grid[c.y][c.x]` is the row's value; every other cell is unchanged |
| Join.JoinAllIndex | patch_to_map/main.cpp:257-277 | after the loop, known ids keep their coordinate; every other id in the index is the id of some row and sits at (0, 0); every row's id is in the index; and every id resolves as before |
| Join.JoinAllIdsSeen | patch_to_map/main.cpp:269 | the loop adds to the index only ids that some row carries |
| Join.JoinAllCell | patch_to_map/main.cpp:257-277 | each cell holds the value of the last row resolving to it, or its old content when no row did |
| Join.JoinAllBucket | patch_to_map/main.cpp:257-277 | a row bucket exists exactly where one existed or some row resolved into that row |
| Join.JoinAllCharacterized | patch_to_map/main.cpp:257-277 | the conjunction of the index, cell and bucket properties over the whole result set: the index gains exactly the rows' unknown ids at (0, 0), each cell holds its last value, and buckets exist exactly where rows resolved |
| Join.UnknownIdWritesOrigin | patch_to_map/main.cpp:269-276 | one row with an unknown id makes the grid `{0: {0: v}}` and adds the id at (0, 0) |
| Join.KnownIdExample | patch_to_map/main.cpp:269-276 | one row with a known id writes its value at the indexed cell and leaves the index unchanged |
| Join.ResolveRows | patch_to_map/main.cpp:257-277 | the loop computes exactly the fold JoinAll over the rows, starting from an empty grid |
| Rasterizer.OutputValue | patch_to_map/main.cpp:311-316 | definition of the value written for a cell; used by RowWritesSound and RowWritesComplete |
| Rasterizer.RowWrites | patch_to_map/main.cpp:310-322 | definition of one row's writes; characterized by RowWritesSound, RowWritesComplete and RowWritesOrdered |
| Rasterizer.GridWrites | patch_to_map/main.cpp:309-324 | definition of the write log; characterized by GridWritesSound, GridWritesComplete and GridWritesOrdered |
| Rasterizer.WriteCell | patch_to_map/main.cpp:319-321 | definition of one cell write to the band; characterized by WriteCellEffect |
| Rasterizer.ApplyWrites | patch_to_map/main.cpp:309-324 | definition of the band after the log; characterized by ApplyGridWrites and RasterizedBand |
| Rasterizer.RowWritesSound | patch_to_map/main.cpp:310-322 | a row without a bucket gets no writes; every write of a row is in that row, in range, and carries the stored value or destNoData |
| Rasterizer.RowWritesComplete | patch_to_map/main.cpp:310-322 | in a row with a bucket, every column gets a write with the stored value or destNoData |
| Rasterizer.RowWritesOrdered | patch_to_map/main.cpp:310 | the writes of one row are in strictly increasing column order |
| Rasterizer.GridWritesSound | patch_to_map/main.cpp:309-324 | every write is at an in-range cell of a row that has a bucket, with the stored value or destNoData |
| Rasterizer.GridWritesComplete | patch_to_map/main.cpp:309-324 | every cell of every row with a bucket is written, with the stored value or destNoData |
| Rasterizer.GridWritesOrdered | patch_to_map/main.cpp:309-310 | the write log is in strictly row-major order |
| Rasterizer.WrittenAtMostOnce | patch_to_map/main.cpp:309-324 | no cell is written twice |
| Rasterizer.Rasterize | patch_to_map/main.cpp:309-324 | the nested loops emit exactly the write log GridWrites |
| Rasterizer.WriteCellEffect | patch_to_map/main.cpp:319-321 | a write changes only its own cell and keeps the band's shape |
| Rasterizer.ApplyRowWrites | patch_to_map/main.cpp:310-322 | applying a row's writes fixes that row's cells and leaves every other row alone |
| Rasterizer.ApplyGridWrites | patch_to_map/main.cpp:309-324 | after rows 0 .. y-1 have been applied, rows with a bucket hold their values or destNoData, all other rows are unchanged |
| Rasterizer.RasterizedBand | patch_to_map/main.cpp:309-324 | in the output band, a row with a bucket holds `grid[y][x]` where present and destNoData elsewhere; a row without a bucket keeps its old contents |
| Rasterizer.TwoByTwoExample | patch_to_map/main.cpp:309-324 | with a 2×2 band and a grid holding only (0, 0) = 3.0, row 0 becomes [3.0, destNoData] and row 1 is not written |

## Left out

- GDAL I/O is replaced by plain inputs: `GDALOpen`, `GetGeoTransform`, `GetRasterBand` and
  `GetNoDataValue`; the `RasterIO` reads and writes; the driver `Create`; `SetGeoTransform` and
  `SetProjection`; and `GDALClose`. Concretely:
  - a dataset is a record with an optional geotransform;
  - a band is a record holding its data type, its no-data value already cast to `uint32_t`, and its
    scanlines;
  - an output write is a log entry.
- The conversion GDAL applies when it reads a band into a `GDT_UInt32` buffer is not modelled. The
  grids hold the values GDAL delivers. The `(uint32_t)` cast of the double no-data value is likewise
  an input.
- `SetNoDataValue` on the output band is a metadata call with no effect on the cell values, and it is
  not modelled.
- The Cassandra client is replaced by a sequence of (patch id, value) rows. This covers the cluster
  and session, the connect and execute futures, the error paths that return `EXIT_FAILURE`, the query
  string, and column extraction. The id is taken as a complete string. In the source, the
  `std::string` that `operator[]` receives is built from the `const char*` alone, so it ends at the
  first NUL byte and the reported `patchid_length` is ignored; that NUL may come before or after
  `patchid_length` bytes. The model does not capture this cut: a row's id is the whole text.
- The orchestration in `main` is not modelled: argument parsing, the diagnostics printed with
  `printf`, the reference taken from the basin raster, the calls to `_read_raster` for the other three
  layers, and the creation of the output dataset. The stages are modelled separately and are not
  chained into one run.
- Memory management (`CPLMalloc` buffers, frees, closes) is not modelled. It does not affect results.
- Doubles are modelled as `real`, so NaN, signed zero and rounding are not modelled. The source only
  copies doubles and compares them with `==`.
- `std::map` is modelled as a Dafny `map`, whose iteration order is not used by any modelled code.
- `int` coordinates are unbounded integers. Grid sizes are `nat`, because a negative size makes the
  source's loops do nothing.
- Alignment.ReadRaster and Indexer.IndexRaster assume a build with assertions enabled. The
  alignment checks and the four data type checks are `assert`s. In a build with `NDEBUG` they
  vanish: `_read_raster` then succeeds whenever the file opens and its geotransform is fetched, and
  `_index_raster` scans bands of any data type. That build is not modelled.
- Indexer.IndexRaster: an unsupported data type fails an `assert`, which aborts the process. The
  model returns an `UnsupportedType` outcome that names the layer instead, with no scanline read.
- Alignment.ReadRaster: an `assert` failure aborts the process. The model returns it as an outcome
  that names the failing attribute instead.
- Indexer.At: a cell outside the grid reads as 0. The scan never consults such a cell, because the
  layers are shaped nX by nY.
- Rasterizer.WriteCell: a write outside the band is ignored, and the rasterizer never issues one.
