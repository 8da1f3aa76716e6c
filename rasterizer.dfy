/**
 * The output loop of `main`: walks the output grid in row-major order and, for every row that has
 * a bucket in the value grid, writes each cell with its joined value or the band's no-data value.
 * Rows without a bucket are not written at all.
 */
module Rasterizer {
  import opened PatchTypes
  import opened Join

  /** One `RasterIO(GF_Write, x, y, 1, 1, &value, ...)` call on the output band. */
  datatype Write = Write(x: int, y: int, value: real)

  function Position(w: Write): (r: Coord) {
    Coord(w.x, w.y)
  }

  /** The value written at column x of a row that has a bucket. */
  function OutputValue(grid: ValueGrid, y: int, x: int, destNoData: real): (r: real)
    requires y in grid
  {
    if x in grid[y] then grid[y][x] else destNoData
  }

  /** Every write comes strictly after the previous one in row-major order. */
  ghost predicate StrictlyRowMajor(ws: seq<Write>) {
    forall i, j :: 0 <= i < j < |ws| ==> RowMajorBefore(Position(ws[i]), Position(ws[j]))
  }

  /** The writes issued for columns 0 .. x-1 of row y. */
  function RowWrites(grid: ValueGrid, destNoData: real, y: int, x: nat): (r: seq<Write>) {
    if x == 0 then []
    else RowWrites(grid, destNoData, y, x - 1) +
         (if y in grid then [Write(x - 1, y, OutputValue(grid, y, x - 1, destNoData))] else [])
  }

  /** The writes issued for rows 0 .. y-1 of an output nX columns wide. */
  function GridWrites(grid: ValueGrid, destNoData: real, nX: nat, y: nat): (r: seq<Write>) {
    if y == 0 then [] else GridWrites(grid, destNoData, nX, y - 1) + RowWrites(grid, destNoData, y - 1, nX)
  }

  /** Row y's writes: none if the row has no bucket; otherwise each lies in row y, below column x, with its output value. */
  lemma {:induction false} RowWritesSound(grid: ValueGrid, destNoData: real, y: int, x: nat)
    ensures y !in grid ==> RowWrites(grid, destNoData, y, x) == []
    ensures forall w :: w in RowWrites(grid, destNoData, y, x) ==>
      w.y == y && 0 <= w.x < x && y in grid && w.value == OutputValue(grid, y, w.x, destNoData)
  {
    if x > 0 {
      RowWritesSound(grid, destNoData, y, x - 1);
    }
  }

  /** A row with a bucket gets a write for each of columns 0 .. x-1. */
  lemma {:induction false} RowWritesComplete(grid: ValueGrid, destNoData: real, y: int, x: nat)
    requires y in grid
    ensures forall x' :: 0 <= x' < x ==> Write(x', y, OutputValue(grid, y, x', destNoData)) in RowWrites(grid, destNoData, y, x)
  {
    if x > 0 {
      RowWritesComplete(grid, destNoData, y, x - 1);
    }
  }

  /** Row y's writes are in increasing column order. */
  lemma {:induction false} RowWritesOrdered(grid: ValueGrid, destNoData: real, y: int, x: nat)
    ensures StrictlyRowMajor(RowWrites(grid, destNoData, y, x))
  {
    if x > 0 {
      RowWritesOrdered(grid, destNoData, y, x - 1);
      RowWritesSound(grid, destNoData, y, x - 1);
      var front := RowWrites(grid, destNoData, y, x - 1);
      assert forall i :: 0 <= i < |front| ==> front[i] in front;
    }
  }

  /** Write `w` lies in the first y rows of an output nX columns wide, in a row with a bucket, with that cell's output value. */
  predicate WriteFits(w: Write, grid: ValueGrid, destNoData: real, nX: nat, y: int) {
    0 <= w.y < y && 0 <= w.x < nX && w.y in grid && w.value == OutputValue(grid, w.y, w.x, destNoData)
  }

  /** Each write for rows 0 .. y-1 lies in the output, in a row with a bucket, and carries that cell's output value. */
  lemma {:induction false} GridWritesSound(grid: ValueGrid, destNoData: real, nX: nat, y: nat)
    ensures forall w :: w in GridWrites(grid, destNoData, nX, y) ==> WriteFits(w, grid, destNoData, nX, y)
  {
    if y > 0 {
      GridWritesSound(grid, destNoData, nX, y - 1);
      RowWritesSound(grid, destNoData, y - 1, nX);
      var front := GridWrites(grid, destNoData, nX, y - 1);
      var row := RowWrites(grid, destNoData, y - 1, nX);
      forall w | w in front ensures WriteFits(w, grid, destNoData, nX, y) {
        assert WriteFits(w, grid, destNoData, nX, y - 1);
      }
      forall w | w in row ensures WriteFits(w, grid, destNoData, nX, y) {
      }
    }
  }

  /** Every cell of every row below y that has a bucket is written. */
  lemma {:induction false} GridWritesComplete(grid: ValueGrid, destNoData: real, nX: nat, y: nat)
    ensures forall y', x' :: 0 <= y' < y && 0 <= x' < nX && y' in grid ==>
      Write(x', y', OutputValue(grid, y', x', destNoData)) in GridWrites(grid, destNoData, nX, y)
  {
    if y > 0 {
      GridWritesComplete(grid, destNoData, nX, y - 1);
      if y - 1 in grid {
        RowWritesComplete(grid, destNoData, y - 1, nX);
      }
      var front := GridWrites(grid, destNoData, nX, y - 1);
      var row := RowWrites(grid, destNoData, y - 1, nX);
      forall y', x' | 0 <= y' < y && 0 <= x' < nX && y' in grid
        ensures Write(x', y', OutputValue(grid, y', x', destNoData)) in front + row
      {
        if y' < y - 1 {
          assert Write(x', y', OutputValue(grid, y', x', destNoData)) in front;
        } else {
          assert Write(x', y', OutputValue(grid, y', x', destNoData)) in row;
        }
      }
    }
  }

  /** The writes for rows 0 .. y-1 are strictly increasing in row-major order. */
  lemma {:induction false} GridWritesOrdered(grid: ValueGrid, destNoData: real, nX: nat, y: nat)
    ensures StrictlyRowMajor(GridWrites(grid, destNoData, nX, y))
  {
    if y > 0 {
      GridWritesOrdered(grid, destNoData, nX, y - 1);
      GridWritesSound(grid, destNoData, nX, y - 1);
      RowWritesSound(grid, destNoData, y - 1, nX);
      RowWritesOrdered(grid, destNoData, y - 1, nX);
      var front := GridWrites(grid, destNoData, nX, y - 1);
      var row := RowWrites(grid, destNoData, y - 1, nX);
      var ws := front + row;
      forall i, j | 0 <= i < j < |ws|
        ensures RowMajorBefore(Position(ws[i]), Position(ws[j]))
      {
        if j < |front| {
          assert ws[i] == front[i] && ws[j] == front[j];
        } else if |front| <= i {
          assert ws[i] == row[i - |front|] && ws[j] == row[j - |front|];
        } else {
          assert ws[i] == front[i] && front[i] in front;
          assert ws[j] == row[j - |front|] && row[j - |front|] in row;
        }
      }
    }
  }

  /** No cell is written twice. */
  lemma WrittenAtMostOnce(grid: ValueGrid, destNoData: real, nX: nat, nY: nat, i: nat, j: nat)
    requires var ws := GridWrites(grid, destNoData, nX, nY);
      i < |ws| && j < |ws| && Position(ws[i]) == Position(ws[j])
    ensures i == j
  {
    GridWritesOrdered(grid, destNoData, nX, nY);
  }

  /** The output loop: one write per cell of each row that has a bucket, none for the other rows. */
  method Rasterize(rasterIndex: ValueGrid, outSizeX: nat, outSizeY: nat, destNoData: real)
    returns (writes: seq<Write>)
    ensures writes == GridWrites(rasterIndex, destNoData, outSizeX, outSizeY)
  {
    writes := [];
    var y := 0;
    while y < outSizeY
      invariant 0 <= y <= outSizeY
      invariant writes == GridWrites(rasterIndex, destNoData, outSizeX, y)
    {
      ghost var before := writes;
      var x := 0;
      while x < outSizeX
        invariant 0 <= x <= outSizeX
        invariant writes == before + RowWrites(rasterIndex, destNoData, y, x)
      {
        if y in rasterIndex {
          var row := rasterIndex[y];
          var value := destNoData;
          if x in row {
            value := rasterIndex[y][x];
          }
          writes := writes + [Write(x, y, value)];
        }
        x := x + 1;
      }
      y := y + 1;
    }
  }

  /** A raster's cells, `cells[y][x]`. */
  type Raster = seq<seq<real>>

  predicate RasterShaped(r: Raster, nX: nat, nY: nat) {
    |r| == nY && forall y :: 0 <= y < nY ==> |r[y]| == nX
  }

  /** The effect of one write on the band; a write outside the raster (never issued) is ignored. */
  function WriteCell(r: Raster, w: Write): (r': Raster) {
    if 0 <= w.y < |r| && 0 <= w.x < |r[w.y]| then r[w.y := r[w.y][w.x := w.value]] else r
  }

  /** The band after the writes `ws`, in order, starting from contents `r`. */
  function ApplyWrites(r: Raster, ws: seq<Write>): (r': Raster) {
    if ws == [] then r else WriteCell(ApplyWrites(r, ws[..|ws| - 1]), ws[|ws| - 1])
  }

  /** `r` is `r1` with columns 0 .. x-1 of row y set to their output values, when row y has a bucket. */
  ghost predicate RowApplied(r: Raster, r1: Raster, grid: ValueGrid, destNoData: real, nX: nat, nY: nat, y: int, x: int) {
    && RasterShaped(r, nX, nY) && RasterShaped(r1, nX, nY)
    && forall y', x' {:trigger r[y'][x']} :: 0 <= y' < nY && 0 <= x' < nX ==>
         r[y'][x'] == if y' == y && x' < x && y in grid then OutputValue(grid, y, x', destNoData) else r1[y'][x']
  }

  lemma ApplyOneMore(r0: Raster, ws: seq<Write>, w: Write)
    ensures ApplyWrites(r0, ws + [w]) == WriteCell(ApplyWrites(r0, ws), w)
  {
  }

  /** A write inside the raster changes exactly its own cell. */
  lemma WriteCellEffect(r: Raster, w: Write, nX: nat, nY: nat)
    requires RasterShaped(r, nX, nY) && 0 <= w.y < nY && 0 <= w.x < nX
    ensures RasterShaped(WriteCell(r, w), nX, nY)
    ensures forall y', x' {:trigger WriteCell(r, w)[y'][x']} :: 0 <= y' < nY && 0 <= x' < nX ==>
      WriteCell(r, w)[y'][x'] == if y' == w.y && x' == w.x then w.value else r[y'][x']
  {
  }

  lemma {:induction false} ApplyRowWrites(r0: Raster, before: seq<Write>, grid: ValueGrid, destNoData: real,
                                          nX: nat, nY: nat, y: nat, x: nat)
    requires RasterShaped(ApplyWrites(r0, before), nX, nY) && y < nY && x <= nX
    ensures RowApplied(ApplyWrites(r0, before + RowWrites(grid, destNoData, y, x)), ApplyWrites(r0, before),
                       grid, destNoData, nX, nY, y, x)
  {
    if x > 0 {
      ApplyRowWrites(r0, before, grid, destNoData, nX, nY, y, x - 1);
      var front := before + RowWrites(grid, destNoData, y, x - 1);
      if y in grid {
        var w := Write(x - 1, y, OutputValue(grid, y, x - 1, destNoData));
        assert before + RowWrites(grid, destNoData, y, x) == front + [w];
        ApplyOneMore(r0, front, w);
        WriteCellEffect(ApplyWrites(r0, front), w, nX, nY);
      } else {
        assert before + RowWrites(grid, destNoData, y, x) == front;
      }
    } else {
      assert before + RowWrites(grid, destNoData, y, x) == before;
    }
  }

  lemma {:induction false} ApplyGridWrites(r0: Raster, grid: ValueGrid, destNoData: real, nX: nat, nY: nat, y: nat)
    requires RasterShaped(r0, nX, nY) && y <= nY
    ensures var r := ApplyWrites(r0, GridWrites(grid, destNoData, nX, y));
      && RasterShaped(r, nX, nY)
      && forall y', x' :: 0 <= y' < nY && 0 <= x' < nX ==>
           r[y'][x'] == if y' < y && y' in grid then OutputValue(grid, y', x', destNoData) else r0[y'][x']
  {
    if y > 0 {
      ApplyGridWrites(r0, grid, destNoData, nX, nY, y - 1);
      ApplyRowWrites(r0, GridWrites(grid, destNoData, nX, y - 1), grid, destNoData, nX, nY, y - 1, nX);
    } else {
      assert GridWrites(grid, destNoData, nX, y) == [];
    }
  }

  /**
   * The band after the output loop, whatever it held before (`r0`): a row with a bucket holds, in
   * each column, the joined value or the no-data value; a row without a bucket keeps its contents.
   */
  lemma RasterizedBand(r0: Raster, grid: ValueGrid, destNoData: real, nX: nat, nY: nat)
    requires RasterShaped(r0, nX, nY)
    ensures var r := ApplyWrites(r0, GridWrites(grid, destNoData, nX, nY));
      && RasterShaped(r, nX, nY)
      && forall y, x :: 0 <= y < nY && 0 <= x < nX ==>
           r[y][x] == if y in grid then (if x in grid[y] then grid[y][x] else destNoData) else r0[y][x]
  {
    ApplyGridWrites(r0, grid, destNoData, nX, nY, nY);
  }

  /**
   * A 2 by 2 output where only cell (0, 0) has a value, 3.0, and the no-data value is -9999: row 0
   * becomes [3.0, -9999], and row 1, which has no bucket, keeps whatever the band held.
   */
  lemma TwoByTwoExample(r0: Raster)
    requires RasterShaped(r0, 2, 2)
    ensures ApplyWrites(r0, GridWrites(map[0 := map[0 := 3.0]], -9999.0, 2, 2)) == [[3.0, -9999.0], r0[1]]
  {
    var grid: ValueGrid := map[0 := map[0 := 3.0]];
    var r := ApplyWrites(r0, GridWrites(grid, -9999.0, 2, 2));
    RasterizedBand(r0, grid, -9999.0, 2, 2);
    assert r[0] == [3.0, -9999.0];
    assert r[1] == r0[1];
  }
}
