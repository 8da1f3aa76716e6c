/**
 * The join resolver: the `while` loop over the query's result rows, which resolves each row's
 * patch id through the patch index and stores its value in the sparse row -> column -> value grid.
 */
module Join {
  import opened PatchTypes

  type PatchIndex = map<string, Coord>

  /** `map<int, map<int, double>>`: row -> column -> value; doubles are modelled as `real`. */
  type ValueGrid = map<int, map<int, real>>

  /** One result row: the `patchid` text column and the `value` double column. */
  datatype ExternalRow = ExternalRow(patchId: string, value: real)

  /** The two maps the loop updates. */
  datatype JoinState = JoinState(patchIndex: PatchIndex, grid: ValueGrid)

  /** The coordinate `patch_index[id]` yields: the stored one, or the default-constructed (0, 0). */
  function Resolve(index: PatchIndex, id: string): (r: Coord) {
    if id in index then index[id] else Coord(0, 0)
  }

  /** The value stored for cell `c`, if any. */
  function Cell(grid: ValueGrid, c: Coord): (r: Option<real>) {
    if c.y in grid && c.x in grid[c.y] then Some(grid[c.y][c.x]) else None
  }

  /** One loop iteration. */
  function JoinRow(s: JoinState, row: ExternalRow): (s': JoinState)
    ensures var c := Resolve(s.patchIndex, row.patchId);
      && s'.patchIndex.Keys == s.patchIndex.Keys + {row.patchId}
      && (forall k :: k in s.patchIndex ==> s'.patchIndex[k] == s.patchIndex[k])
      && s'.patchIndex[row.patchId] == c
      && s'.grid.Keys == s.grid.Keys + {c.y}
      && Cell(s'.grid, c) == Some(row.value)
      && (forall d :: d != c ==> Cell(s'.grid, d) == Cell(s.grid, d))
  {
    var index := if row.patchId in s.patchIndex then s.patchIndex else s.patchIndex[row.patchId := Coord(0, 0)];
    var coord := index[row.patchId];
    var grid := if coord.y !in s.grid then s.grid[coord.y := map[]] else s.grid;
    JoinState(index, grid[coord.y := grid[coord.y][coord.x := row.value]])
  }

  /** The state after the loop has consumed `rows` in order. */
  function JoinAll(s: JoinState, rows: seq<ExternalRow>): (r: JoinState) {
    if rows == [] then s else JoinRow(JoinAll(s, rows[..|rows| - 1]), rows[|rows| - 1])
  }

  /** Reference definition: the value of the last row, in iteration order, whose id resolves to `c`. */
  function LastValueAt(index: PatchIndex, rows: seq<ExternalRow>, c: Coord): (r: Option<real>) {
    if rows == [] then None
    else if Resolve(index, rows[|rows| - 1].patchId) == c then Some(rows[|rows| - 1].value)
    else LastValueAt(index, rows[..|rows| - 1], c)
  }

  /** Reference definition: some row's id resolves to a cell of row `y`. */
  predicate RowTouched(index: PatchIndex, rows: seq<ExternalRow>, y: int) {
    exists i :: 0 <= i < |rows| && Resolve(index, rows[i].patchId).y == y
  }

  /** Reference definition: some row carries the id `k`. */
  predicate IdSeen(rows: seq<ExternalRow>, k: string) {
    exists i :: 0 <= i < |rows| && rows[i].patchId == k
  }

  /**
   * The loop over all rows, on the patch index: ids already in the index keep their coordinate,
   * every other id in the index is one of the rows' ids, added at (0, 0), and so every id resolves
   * as it did before the loop.
   */
  lemma {:induction false} JoinAllIndex(s: JoinState, rows: seq<ExternalRow>)
    ensures var r := JoinAll(s, rows);
      && (forall k :: k in s.patchIndex ==> k in r.patchIndex && r.patchIndex[k] == s.patchIndex[k])
      && (forall k :: k in r.patchIndex ==> k in s.patchIndex || (r.patchIndex[k] == Coord(0, 0) && IdSeen(rows, k)))
      && (forall i :: 0 <= i < |rows| ==> rows[i].patchId in r.patchIndex)
      && (forall id :: Resolve(r.patchIndex, id) == Resolve(s.patchIndex, id))
  {
    if rows != [] {
      var front := rows[..|rows| - 1];
      JoinAllIndex(s, front);
      var p := JoinAll(s, front);
      var r := JoinAll(s, rows);
      forall id ensures Resolve(r.patchIndex, id) == Resolve(s.patchIndex, id) {
        assert Resolve(r.patchIndex, id) == Resolve(p.patchIndex, id);
      }
      forall i | 0 <= i < |rows| ensures rows[i].patchId in r.patchIndex {
        if i < |rows| - 1 { assert rows[i] == front[i]; }
      }
    }
    JoinAllIdsSeen(s, rows);
  }

  /** The loop adds to the index no id that is not one of the rows' own. */
  lemma {:induction false} JoinAllIdsSeen(s: JoinState, rows: seq<ExternalRow>)
    ensures forall k :: k in JoinAll(s, rows).patchIndex ==> k in s.patchIndex || IdSeen(rows, k)
  {
    if rows != [] {
      var front := rows[..|rows| - 1];
      JoinAllIdsSeen(s, front);
      forall k | k in JoinAll(s, rows).patchIndex && k !in s.patchIndex ensures IdSeen(rows, k) {
        if k == rows[|rows| - 1].patchId {
          assert IdSeen(rows, k);
        } else {
          var i :| 0 <= i < |front| && front[i].patchId == k;
          assert rows[i] == front[i];
        }
      }
    }
  }

  /** The loop over all rows, on one cell: it holds the value of the last row resolving to it, or what it held before. */
  lemma {:induction false} JoinAllCell(s: JoinState, rows: seq<ExternalRow>, c: Coord)
    ensures Cell(JoinAll(s, rows).grid, c) ==
      if LastValueAt(s.patchIndex, rows, c).Some? then LastValueAt(s.patchIndex, rows, c) else Cell(s.grid, c)
  {
    if rows != [] {
      var front := rows[..|rows| - 1];
      JoinAllCell(s, front, c);
      JoinAllIndex(s, front);
    }
  }

  /** The loop over all rows, on one row bucket: it exists exactly when it existed before or some row resolved into it. */
  lemma {:induction false} JoinAllBucket(s: JoinState, rows: seq<ExternalRow>, y: int)
    ensures y in JoinAll(s, rows).grid <==> y in s.grid || RowTouched(s.patchIndex, rows, y)
  {
    if rows != [] {
      var front := rows[..|rows| - 1];
      JoinAllBucket(s, front, y);
      JoinAllIndex(s, front);
      if RowTouched(s.patchIndex, rows, y) {
        var i :| 0 <= i < |rows| && Resolve(s.patchIndex, rows[i].patchId).y == y;
        if i < |rows| - 1 { assert front[i] == rows[i]; assert RowTouched(s.patchIndex, front, y); }
      }
      if RowTouched(s.patchIndex, front, y) {
        var i :| 0 <= i < |front| && Resolve(s.patchIndex, front[i].patchId).y == y;
        assert rows[i] == front[i];
      }
    }
  }

  /**
   * The loop over all rows: ids already in the index keep their coordinate, and the only other
   * ids in the index are the rows' own, added at (0, 0); each cell ends up holding the value of the last row resolving to it (or what it
   * held before); and a row bucket exists exactly where one existed or some row resolved into it.
   */
  lemma JoinAllCharacterized(s: JoinState, rows: seq<ExternalRow>)
    ensures var r := JoinAll(s, rows);
      && (forall k :: k in s.patchIndex ==> k in r.patchIndex && r.patchIndex[k] == s.patchIndex[k])
      && (forall k :: k in r.patchIndex ==> k in s.patchIndex || (r.patchIndex[k] == Coord(0, 0) && IdSeen(rows, k)))
      && (forall i :: 0 <= i < |rows| ==> rows[i].patchId in r.patchIndex)
      && (forall id :: Resolve(r.patchIndex, id) == Resolve(s.patchIndex, id))
      && (forall c :: Cell(r.grid, c) ==
            if LastValueAt(s.patchIndex, rows, c).Some? then LastValueAt(s.patchIndex, rows, c) else Cell(s.grid, c))
      && (forall y :: y in r.grid <==> y in s.grid || RowTouched(s.patchIndex, rows, y))
  {
    var r := JoinAll(s, rows);
    JoinAllIndex(s, rows);
    forall c ensures Cell(r.grid, c) ==
      if LastValueAt(s.patchIndex, rows, c).Some? then LastValueAt(s.patchIndex, rows, c) else Cell(s.grid, c)
    {
      JoinAllCell(s, rows, c);
    }
    forall y ensures y in r.grid <==> y in s.grid || RowTouched(s.patchIndex, rows, y) {
      JoinAllBucket(s, rows, y);
    }
  }

  /** An id the index does not know is not dropped: its value lands in cell (0, 0) and the id is added. */
  lemma UnknownIdWritesOrigin(index: PatchIndex, id: string, v: real)
    requires id !in index
    ensures var r := JoinAll(JoinState(index, map[]), [ExternalRow(id, v)]);
      r.grid == map[0 := map[0 := v]] && r.patchIndex == index[id := Coord(0, 0)]
  {
  }

  /** A known id resolves to its indexed cell: index {"1:2:3:4" -> (10, 20)} and row ("1:2:3:4", 7.5) give grid[20][10] == 7.5. */
  lemma KnownIdExample()
    ensures var r := JoinAll(JoinState(map["1:2:3:4" := Coord(10, 20)], map[]), [ExternalRow("1:2:3:4", 7.5)]);
      r.grid == map[20 := map[10 := 7.5]] && r.patchIndex == map["1:2:3:4" := Coord(10, 20)]
  {
  }

  /**
   * The join loop of `main`, starting from an empty value grid. It updates the patch index too,
   * since `operator[]` inserts ids it does not find.
   */
  method ResolveRows(patchIndex: PatchIndex, rows: seq<ExternalRow>) returns (index: PatchIndex, rasterIndex: ValueGrid)
    ensures JoinState(index, rasterIndex) == JoinAll(JoinState(patchIndex, map[]), rows)
  {
    index := patchIndex;
    rasterIndex := map[];
    var i := 0;
    while i < |rows|
      invariant 0 <= i <= |rows|
      invariant JoinState(index, rasterIndex) == JoinAll(JoinState(patchIndex, map[]), rows[..i])
    {
      var patchid := rows[i].patchId;
      var varValue := rows[i].value;
      if patchid !in index {
        index := index[patchid := Coord(0, 0)];
      }
      var coord := index[patchid];
      if coord.y !in rasterIndex {
        rasterIndex := rasterIndex[coord.y := map[]];
      }
      // The source's else branch only copies the existing bucket into a local.
      rasterIndex := rasterIndex[coord.y := rasterIndex[coord.y][coord.x := varValue]];
      assert rows[..i + 1][..i] == rows[..i];
      i := i + 1;
    }
    assert rows[..i] == rows;
  }
}
