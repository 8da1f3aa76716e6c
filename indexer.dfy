/**
 * The composite key indexer `_index_raster`: a row-major scan of the four layers that maps the
 * key of every pixel without no-data to that pixel's (column, row), later pixels overwriting
 * earlier ones with the same key.
 */
module Indexer {
  import opened PatchTypes
  import opened Keys

  /** GDAL band data types. */
  datatype DataType =
    | Unknown | Byte | UInt16 | Int16 | UInt32 | Int32
    | Float32 | Float64 | CInt16 | CInt32 | CFloat32 | CFloat64

  /** The five integer types the indexer accepts for a layer. */
  predicate Supported(t: DataType) {
    t == Byte || t == UInt16 || t == Int16 || t == UInt32 || t == Int32
  }

  datatype Layer = Basin | Hillslope | Zone | Patch

  /** Scanlines of a layer as read into a `GDT_UInt32` buffer: `rows[y][x]` is the value at column x of row y. */
  type Grid = seq<seq<uint32>>

  /** Band 1 of one layer: its data type, its no-data value cast to `uint32_t`, and its scanlines. */
  datatype Band = Band(dataType: DataType, noData: uint32, rows: Grid)

  datatype Bands = Bands(basin: Band, hills: Band, zone: Band, patch: Band)

  /** The four thresholds `basinND`, `hillsND`, `zoneND`, `patchND` the scan compares against. */
  datatype NoData = NoData(basin: uint32, hills: uint32, zone: uint32, patch: uint32)

  /** Every threshold is read from the basin band, whatever the other bands declare. */
  function Thresholds(bands: Bands): (nd: NoData)
    ensures nd.basin == nd.hills == nd.zone == nd.patch == bands.basin.noData
  {
    var v := bands.basin.noData;
    NoData(v, v, v, v)
  }

  /** The first layer, in basin, hillslope, zone, patch order, whose data type is not supported. */
  function FirstUnsupported(bands: Bands): (r: Option<Layer>)
    ensures r.None? <==>
      Supported(bands.basin.dataType) && Supported(bands.hills.dataType) &&
      Supported(bands.zone.dataType) && Supported(bands.patch.dataType)
    ensures r == Some(Hillslope) ==> Supported(bands.basin.dataType) && !Supported(bands.hills.dataType)
    ensures r == Some(Zone) ==>
      Supported(bands.basin.dataType) && Supported(bands.hills.dataType) && !Supported(bands.zone.dataType)
    ensures r == Some(Patch) ==>
      Supported(bands.basin.dataType) && Supported(bands.hills.dataType) &&
      Supported(bands.zone.dataType) && !Supported(bands.patch.dataType)
    ensures r == Some(Basin) ==> !Supported(bands.basin.dataType)
  {
    if !Supported(bands.basin.dataType) then Some(Basin)
    else if !Supported(bands.hills.dataType) then Some(Hillslope)
    else if !Supported(bands.zone.dataType) then Some(Zone)
    else if !Supported(bands.patch.dataType) then Some(Patch)
    else None
  }

  predicate GridShaped(g: Grid, nX: nat, nY: nat) {
    |g| == nY && forall y :: 0 <= y < nY ==> |g[y]| == nX
  }

  /** Every layer has nY scanlines of nX values (what the alignment check establishes). */
  predicate Shaped(bands: Bands, nX: nat, nY: nat) {
    GridShaped(bands.basin.rows, nX, nY) && GridShaped(bands.hills.rows, nX, nY) &&
    GridShaped(bands.zone.rows, nX, nY) && GridShaped(bands.patch.rows, nX, nY)
  }

  predicate InGrid(c: Coord, nX: nat, nY: nat) {
    0 <= c.x < nX && 0 <= c.y < nY
  }

  /** The value of a grid at `c`; only ever consulted inside the grid (0 elsewhere). */
  function At(g: Grid, c: Coord): (r: uint32) {
    if 0 <= c.y < |g| && 0 <= c.x < |g[c.y]| then g[c.y][c.x] else 0
  }

  /** The four layer values at pixel `c`. */
  function PixelAt(bands: Bands, c: Coord): (r: Quad) {
    Quad(At(bands.basin.rows, c), At(bands.hills.rows, c), At(bands.zone.rows, c), At(bands.patch.rows, c))
  }

  /** A pixel is skipped when any one of its four values equals that layer's threshold. */
  predicate IsNoData(q: Quad, nd: NoData) {
    q.basin == nd.basin || q.hills == nd.hills || q.zone == nd.zone || q.patch == nd.patch
  }

  predicate Counts(bands: Bands, nd: NoData, c: Coord) {
    !IsNoData(PixelAt(bands, c), nd)
  }

  function KeyAt(bands: Bands, c: Coord): (r: string) {
    PatchKey(PixelAt(bands, c))
  }

  /** The key function of the indexer: pixel `c` is stored under the key of its four values. */
  function KeyOf(bands: Bands): (r: Coord -> string) {
    c => KeyAt(bands, c)
  }

  /*
   * The scan below takes the key function as a parameter `key` (the indexer passes `KeyOf(bands)`),
   * so that the proofs about which pixel wins a key never look inside the key formatting.
   */

  /** One iteration of the inner loop: skip a no-data pixel, else `raster_index[key(c)] = c`. */
  function Visit(m: map<string, Coord>, bands: Bands, nd: NoData, key: Coord -> string, c: Coord): (r: map<string, Coord>) {
    if IsNoData(PixelAt(bands, c), nd) then m else m[key(c) := c]
  }

  /** The index after columns 0 .. x-1 of row y have been visited, starting from `m`. */
  function ScanRow(m: map<string, Coord>, bands: Bands, nd: NoData, key: Coord -> string, y: int, x: nat): (r: map<string, Coord>) {
    if x == 0 then m else Visit(ScanRow(m, bands, nd, key, y, x - 1), bands, nd, key, Coord(x - 1, y))
  }

  /** The index after rows 0 .. y-1 have been scanned, starting from `m`. */
  function ScanRows(m: map<string, Coord>, bands: Bands, nd: NoData, key: Coord -> string, nX: nat, y: nat): (r: map<string, Coord>) {
    if y == 0 then m else ScanRow(ScanRows(m, bands, nd, key, nX, y - 1), bands, nd, key, y - 1, nX)
  }

  /** The index `_index_raster` builds from `m` over an nX by nY grid. */
  function Index(m: map<string, Coord>, bands: Bands, nd: NoData, nX: nat, nY: nat): (r: map<string, Coord>) {
    ScanRows(m, bands, nd, KeyOf(bands), nX, nY)
  }

  /** The pixel `c` has been visited once the scan stands at column x of row y. */
  predicate Scanned(c: Coord, nX: nat, y: int, x: int) {
    0 <= c.x < nX && 0 <= c.y && (c.y < y || (c.y == y && c.x < x))
  }

  /**
   * What the index `m` says about key `k` once the scan stands at column x of row y: a key of
   * `prior` is still present, and the entry is either untouched from `prior` or points at a
   * visited pixel that counts and has key `k`.
   */
  predicate EntryOk(prior: map<string, Coord>, m: map<string, Coord>, bands: Bands, nd: NoData,
                    key: Coord -> string, nX: nat, y: int, x: int, k: string) {
    && (k in prior ==> k in m)
    && (k in m ==>
          (k in prior && m[k] == prior[k]) ||
          (Scanned(m[k], nX, y, x) && Counts(bands, nd, m[k]) && key(m[k]) == k))
  }

  /**
   * What the index `m` says about pixel `c` once the scan stands at column x of row y: if `c` has
   * been visited and counts, its key maps to a visited pixel with the same key that is not before
   * `c` in row-major order.
   */
  predicate PixelOk(m: map<string, Coord>, bands: Bands, nd: NoData, key: Coord -> string, nX: nat, y: int, x: int, c: Coord) {
    Scanned(c, nX, y, x) && Counts(bands, nd, c) ==>
      && key(c) in m
      && Scanned(m[key(c)], nX, y, x)
      && Counts(bands, nd, m[key(c)])
      && key(m[key(c)]) == key(c)
      && !RowMajorBefore(m[key(c)], c)
  }

  lemma {:induction false} ScanRowEntry(prior: map<string, Coord>, m: map<string, Coord>, bands: Bands, nd: NoData,
                                        key: Coord -> string, nX: nat, y: nat, x: nat, k: string)
    requires x <= nX
    requires EntryOk(prior, m, bands, nd, key, nX, y, 0, k)
    ensures EntryOk(prior, ScanRow(m, bands, nd, key, y, x), bands, nd, key, nX, y, x, k)
  {
    if x > 0 {
      ScanRowEntry(prior, m, bands, nd, key, nX, y, x - 1, k);
    }
  }

  lemma {:induction false} ScanRowPixel(m: map<string, Coord>, bands: Bands, nd: NoData,
                                        key: Coord -> string, nX: nat, y: nat, x: nat, c: Coord)
    requires x <= nX
    requires PixelOk(m, bands, nd, key, nX, y, 0, c)
    ensures PixelOk(ScanRow(m, bands, nd, key, y, x), bands, nd, key, nX, y, x, c)
  {
    if x > 0 {
      ScanRowPixel(m, bands, nd, key, nX, y, x - 1, c);
    }
  }

  lemma {:induction false} ScanRowsEntry(prior: map<string, Coord>, bands: Bands, nd: NoData, key: Coord -> string, nX: nat, y: nat, k: string)
    ensures EntryOk(prior, ScanRows(prior, bands, nd, key, nX, y), bands, nd, key, nX, y, 0, k)
  {
    if y > 0 {
      ScanRowsEntry(prior, bands, nd, key, nX, y - 1, k);
      ScanRowEntry(prior, ScanRows(prior, bands, nd, key, nX, y - 1), bands, nd, key, nX, y - 1, nX, k);
    }
  }

  lemma {:induction false} ScanRowsPixel(prior: map<string, Coord>, bands: Bands, nd: NoData, key: Coord -> string, nX: nat, y: nat, c: Coord)
    ensures PixelOk(ScanRows(prior, bands, nd, key, nX, y), bands, nd, key, nX, y, 0, c)
  {
    if y > 0 {
      ScanRowsPixel(prior, bands, nd, key, nX, y - 1, c);
      ScanRowPixel(ScanRows(prior, bands, nd, key, nX, y - 1), bands, nd, key, nX, y - 1, nX, c);
    }
  }

  /**
   * The full scan of an nX by nY grid, characterized: keys already in the index stay; every entry is
   * either untouched or the coordinate of an in-grid pixel that counts and whose key it is; and for
   * every in-grid pixel that counts, its key is present and maps to the row-major last pixel with
   * that key (last write wins).
   */
  lemma ScanCharacterized(prior: map<string, Coord>, bands: Bands, nd: NoData, nX: nat, nY: nat)
    ensures var m := Index(prior, bands, nd, nX, nY);
      && prior.Keys <= m.Keys
      && (forall k :: k in m ==>
            (k in prior && m[k] == prior[k]) ||
            (InGrid(m[k], nX, nY) && Counts(bands, nd, m[k]) && KeyAt(bands, m[k]) == k))
      && (forall c :: InGrid(c, nX, nY) && Counts(bands, nd, c) ==>
            && KeyAt(bands, c) in m
            && InGrid(m[KeyAt(bands, c)], nX, nY)
            && Counts(bands, nd, m[KeyAt(bands, c)])
            && PixelAt(bands, m[KeyAt(bands, c)]) == PixelAt(bands, c)
            && !RowMajorBefore(m[KeyAt(bands, c)], c))
  {
    var m := Index(prior, bands, nd, nX, nY);
    forall k | k in prior ensures k in m {
      ScanRowsEntry(prior, bands, nd, KeyOf(bands), nX, nY, k);
    }
    forall k | k in m
      ensures (k in prior && m[k] == prior[k]) ||
              (InGrid(m[k], nX, nY) && Counts(bands, nd, m[k]) && KeyAt(bands, m[k]) == k)
    {
      ScanRowsEntry(prior, bands, nd, KeyOf(bands), nX, nY, k);
    }
    forall c | InGrid(c, nX, nY) && Counts(bands, nd, c)
      ensures KeyAt(bands, c) in m && InGrid(m[KeyAt(bands, c)], nX, nY)
      ensures Counts(bands, nd, m[KeyAt(bands, c)]) && PixelAt(bands, m[KeyAt(bands, c)]) == PixelAt(bands, c)
      ensures !RowMajorBefore(m[KeyAt(bands, c)], c)
    {
      ScanRowsPixel(prior, bands, nd, KeyOf(bands), nX, nY, c);
      var last := m[KeyAt(bands, c)];
      PatchKeyInjective(PixelAt(bands, last), PixelAt(bands, c));
    }
  }

  /** Starting from an empty index: every entry maps the key of a pixel's own four values to that in-grid pixel. */
  lemma IndexEntriesSound(bands: Bands, nd: NoData, nX: nat, nY: nat, k: string)
    requires k in Index(map[], bands, nd, nX, nY)
    ensures var c := Index(map[], bands, nd, nX, nY)[k];
      InGrid(c, nX, nY) && !IsNoData(PixelAt(bands, c), nd) && k == PatchKey(PixelAt(bands, c))
  {
    ScanCharacterized(map[], bands, nd, nX, nY);
  }

  /** A pixel with a no-data value in any layer is the target of no entry. */
  lemma NoDataPixelNotIndexed(bands: Bands, nd: NoData, nX: nat, nY: nat, c: Coord, k: string)
    requires IsNoData(PixelAt(bands, c), nd)
    requires k in Index(map[], bands, nd, nX, nY)
    ensures Index(map[], bands, nd, nX, nY)[k] != c
  {
    ScanCharacterized(map[], bands, nd, nX, nY);
  }

  /**
   * Of two distinct pixels with the same four values, the one later in row-major order is the one
   * the index keeps; the earlier one is shadowed.
   */
  lemma DuplicateTupleKeepsLast(bands: Bands, nd: NoData, nX: nat, nY: nat, c1: Coord, c2: Coord)
    requires InGrid(c1, nX, nY) && InGrid(c2, nX, nY) && RowMajorBefore(c1, c2)
    requires PixelAt(bands, c1) == PixelAt(bands, c2) && Counts(bands, nd, c2)
    ensures KeyAt(bands, c1) in Index(map[], bands, nd, nX, nY)
    ensures Index(map[], bands, nd, nX, nY)[KeyAt(bands, c1)] != c1
  {
    ScanCharacterized(map[], bands, nd, nX, nY);
  }

  /** Only the basin band's no-data value filters: a hillslope value equal to its own band's no-data is indexed. */
  /** Two band sets with the same scanlines scan alike, whatever else (types, no-data values) differs. */
  lemma {:induction false} ScanRowSameScanlines(m: map<string, Coord>, b1: Bands, b2: Bands, nd: NoData, y: int, x: nat)
    requires b1.basin.rows == b2.basin.rows && b1.hills.rows == b2.hills.rows
    requires b1.zone.rows == b2.zone.rows && b1.patch.rows == b2.patch.rows
    ensures ScanRow(m, b1, nd, KeyOf(b1), y, x) == ScanRow(m, b2, nd, KeyOf(b2), y, x)
  {
    if x > 0 {
      ScanRowSameScanlines(m, b1, b2, nd, y, x - 1);
      assert PixelAt(b1, Coord(x - 1, y)) == PixelAt(b2, Coord(x - 1, y));
    }
  }

  lemma {:induction false} ScanRowsSameScanlines(m: map<string, Coord>, b1: Bands, b2: Bands, nd: NoData, nX: nat, y: nat)
    requires b1.basin.rows == b2.basin.rows && b1.hills.rows == b2.hills.rows
    requires b1.zone.rows == b2.zone.rows && b1.patch.rows == b2.patch.rows
    ensures ScanRows(m, b1, nd, KeyOf(b1), nX, y) == ScanRows(m, b2, nd, KeyOf(b2), nX, y)
  {
    if y > 0 {
      ScanRowsSameScanlines(m, b1, b2, nd, nX, y - 1);
      ScanRowSameScanlines(ScanRows(m, b1, nd, KeyOf(b1), nX, y - 1), b1, b2, nd, y - 1, nX);
    }
  }

  /**
   * Only the basin band's no-data value filters: changing the no-data value the hillslope, zone or
   * patch band declares leaves the index unchanged, so a value equal to that band's own no-data
   * value is indexed like any other.
   */
  lemma OtherNoDataValuesIgnored(m: map<string, Coord>, bands: Bands, hillsND: uint32, zoneND: uint32, patchND: uint32,
                                 nX: nat, nY: nat)
    ensures var other := bands.(hills := bands.hills.(noData := hillsND), zone := bands.zone.(noData := zoneND),
                                patch := bands.patch.(noData := patchND));
      Index(m, other, Thresholds(other), nX, nY) == Index(m, bands, Thresholds(bands), nX, nY)
  {
    var other := bands.(hills := bands.hills.(noData := hillsND), zone := bands.zone.(noData := zoneND),
                        patch := bands.patch.(noData := patchND));
    ScanRowsSameScanlines(m, other, bands, Thresholds(bands), nX, nY);
  }

  /** The effect of visiting in-grid pixel (x, y), in terms of the values read from the four scanlines. */
  lemma VisitAt(m: map<string, Coord>, bands: Bands, nd: NoData, nX: nat, nY: nat, x: nat, y: nat)
    requires Shaped(bands, nX, nY) && x < nX && y < nY
    ensures var q := Quad(bands.basin.rows[y][x], bands.hills.rows[y][x], bands.zone.rows[y][x], bands.patch.rows[y][x]);
      Visit(m, bands, nd, KeyOf(bands), Coord(x, y)) == if IsNoData(q, nd) then m else m[PatchKey(q) := Coord(x, y)]
  {
  }

  datatype ScanlineRead = ScanlineRead(layer: Layer, row: int)

  /** The `RasterIO` scanline reads of rows 0 .. y-1: basin, hillslope, zone, patch for each row in turn. */
  function ReadLog(y: nat): (log: seq<ScanlineRead>)
    ensures |log| == 4 * y
  {
    if y == 0 then []
    else ReadLog(y - 1) + [ScanlineRead(Basin, y - 1), ScanlineRead(Hillslope, y - 1),
                           ScanlineRead(Zone, y - 1), ScanlineRead(Patch, y - 1)]
  }

  /** Reads 4r .. 4r+3 of the log are row r's basin, hillslope, zone and patch scanlines, in that order. */
  lemma {:induction false} ReadLogRow(y: nat, r: nat)
    requires r < y
    ensures ReadLog(y)[4 * r .. 4 * r + 4] ==
      [ScanlineRead(Basin, r), ScanlineRead(Hillslope, r), ScanlineRead(Zone, r), ScanlineRead(Patch, r)]
  {
    if r < y - 1 {
      ReadLogRow(y - 1, r);
      assert ReadLog(y)[4 * r .. 4 * r + 4] == ReadLog(y - 1)[4 * r .. 4 * r + 4];
    }
  }

  /** An assertion failure on a layer's data type, or the completed index. */
  datatype IndexOutcome = UnsupportedType(layer: Layer) | Indexed(index: map<string, Coord>)

  /**
   * `_index_raster`: checks the four data types, then scans row by row, refilling the four
   * scanline buffers for each row, and stores `key -> (x, y)` for every pixel without no-data.
   * `scanlineReads` records the scanline reads performed, in order.
   */
  method IndexRaster(rasterIndex: map<string, Coord>, nXSize: nat, nYSize: nat, bands: Bands)
    returns (outcome: IndexOutcome, scanlineReads: seq<ScanlineRead>)
    requires Shaped(bands, nXSize, nYSize)
    ensures outcome.UnsupportedType? <==> FirstUnsupported(bands).Some?
    ensures outcome.UnsupportedType? ==> outcome.layer == FirstUnsupported(bands).value && scanlineReads == []
    ensures outcome.Indexed? ==>
      && outcome.index == Index(rasterIndex, bands, Thresholds(bands), nXSize, nYSize)
      && scanlineReads == ReadLog(nYSize)
  {
    scanlineReads := [];
    if !Supported(bands.basin.dataType) { return UnsupportedType(Basin), scanlineReads; }
    var basinND := bands.basin.noData;
    if !Supported(bands.hills.dataType) { return UnsupportedType(Hillslope), scanlineReads; }
    var hillsND := bands.basin.noData;
    if !Supported(bands.zone.dataType) { return UnsupportedType(Zone), scanlineReads; }
    var zoneND := bands.basin.noData;
    if !Supported(bands.patch.dataType) { return UnsupportedType(Patch), scanlineReads; }
    var patchND := bands.basin.noData;
    ghost var nd := NoData(basinND, hillsND, zoneND, patchND);
    assert nd == Thresholds(bands);

    var index := rasterIndex;
    var y := 0;
    while y < nYSize
      invariant 0 <= y <= nYSize
      invariant index == ScanRows(rasterIndex, bands, nd, KeyOf(bands), nXSize, y)
      invariant scanlineReads == ReadLog(y)
    {
      var basinScanline := bands.basin.rows[y];
      var hillsScanline := bands.hills.rows[y];
      var zoneScanline := bands.zone.rows[y];
      var patchScanline := bands.patch.rows[y];
      scanlineReads := scanlineReads + [ScanlineRead(Basin, y), ScanlineRead(Hillslope, y),
                        ScanlineRead(Zone, y), ScanlineRead(Patch, y)];
      ghost var before := index;
      var x := 0;
      while x < nXSize
        invariant 0 <= x <= nXSize
        invariant index == ScanRow(before, bands, nd, KeyOf(bands), y, x)
      {
        VisitAt(index, bands, nd, nXSize, nYSize, x, y);
        if basinScanline[x] == basinND || hillsScanline[x] == hillsND ||
           zoneScanline[x] == zoneND || patchScanline[x] == patchND {
          x := x + 1;
          continue;
        }
        var patchKey := PatchKey(Quad(basinScanline[x], hillsScanline[x], zoneScanline[x], patchScanline[x]));
        index := index[patchKey := Coord(x, y)];
        x := x + 1;
      }
      y := y + 1;
    }
    outcome := Indexed(index);
  }
}
