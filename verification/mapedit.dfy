/** Map edits done by the world engine: blowing up a rectangular section of
    the map into flying tile debris (Map_DestroySection and the debris
    animation), and moving a section of the map down (Map_MoveSection). */
module MapEdit {
  import opened Words
  import opened Wrappers
  import CoreUtil

  /** The map as Map_GetTile sees it: the tile value at each (x, y). */
  type TileMap = (word, word) -> word

  /** A map cell, (x, y). */
  type Cell = (word, word)

  /** Map_SetTile(value, x, y). */
  function SetTile(m: TileMap, value: word, x: word, y: word): (m': TileMap)
    ensures m'(x, y) == value
    ensures forall x': word, y': word :: x' != x || y' != y ==> m'(x', y') == m(x', y')
  {
    (x': word, y': word) => if x' == x && y' == y then value else m(x', y')
  }

  // ---------------------------------------------------------------------
  // Row-major enumeration of a section
  // ---------------------------------------------------------------------

  /** The cells of row y with from <= x < to, left to right. */
  function RowCells(y: word, from: word, to: word): seq<Cell>
    decreases (to as int) - (from as int)
  {
    if to <= from then [] else RowCells(y, from, to - 1) + [(to - 1, y)]
  }

  /** The cells with left <= x < right and top <= y < bottom, row by row. */
  function SectionCells(left: word, right: word, top: word, bottom: word): seq<Cell>
    decreases (bottom as int) - (top as int)
  {
    if bottom <= top then [] else SectionCells(left, right, top, bottom - 1) + RowCells(bottom - 1, left, right)
  }

  predicate InSection(c: Cell, left: word, right: word, top: word, bottom: word)
  {
    left <= c.0 < right && top <= c.1 < bottom
  }

  /** a comes before b when the map is read row by row. */
  predicate RowMajorBefore(a: Cell, b: Cell)
  {
    a.1 < b.1 || (a.1 == b.1 && a.0 < b.0)
  }

  predicate RowMajorSorted(cells: seq<Cell>)
  {
    forall i, j :: 0 <= i < j < |cells| ==> RowMajorBefore(cells[i], cells[j])
  }

  lemma {:induction false} RowCellsSpec(y: word, from: word, to: word)
    ensures |RowCells(y, from, to)| == (if to <= from then 0 else (to as int) - (from as int))
    ensures forall i :: 0 <= i < |RowCells(y, from, to)| ==> RowCells(y, from, to)[i] == (((from as int) + i) as word, y)
    decreases (to as int) - (from as int)
  {
    if from < to {
      RowCellsSpec(y, from, to - 1);
    }
  }

  /** The enumeration lists exactly the cells of the section. */
  lemma {:induction false} SectionCellsMembers(left: word, right: word, top: word, bottom: word)
    ensures forall c: Cell :: c in SectionCells(left, right, top, bottom) <==> InSection(c, left, right, top, bottom)
    decreases (bottom as int) - (top as int)
  {
    if top < bottom {
      var prev := SectionCells(left, right, top, bottom - 1);
      var row := RowCells(bottom - 1, left, right);
      SectionCellsMembers(left, right, top, bottom - 1);
      RowCellsSpec(bottom - 1, left, right);
      assert SectionCells(left, right, top, bottom) == prev + row;
      forall c: Cell
        ensures c in prev + row <==> InSection(c, left, right, top, bottom)
      {
        if c in row {
          var i :| 0 <= i < |row| && row[i] == c;
        }
        if InSection(c, left, right, top, bottom) && c.1 == bottom - 1 {
          assert row[c.0 - left] == c;
        }
      }
    }
  }

  /** The enumeration is in row-major order, so no cell appears twice. */
  lemma {:induction false} SectionCellsSorted(left: word, right: word, top: word, bottom: word)
    ensures RowMajorSorted(SectionCells(left, right, top, bottom))
    decreases (bottom as int) - (top as int)
  {
    if top < bottom {
      var prev := SectionCells(left, right, top, bottom - 1);
      var row := RowCells(bottom - 1, left, right);
      SectionCellsSorted(left, right, top, bottom - 1);
      SectionCellsMembers(left, right, top, bottom - 1);
      RowCellsSpec(bottom - 1, left, right);
      assert SectionCells(left, right, top, bottom) == prev + row;
      forall i, j | 0 <= i < j < |prev + row|
        ensures RowMajorBefore((prev + row)[i], (prev + row)[j])
      {
        if j < |prev| {
          assert (prev + row)[i] == prev[i] && (prev + row)[j] == prev[j];
        } else if i < |prev| {
          assert prev[i] in prev;
        }
      }
    }
  }

  /** The cells among `cells` whose tile is non-zero, in the same order. */
  function NonZeroCells(m: TileMap, cells: seq<Cell>): (nz: seq<Cell>)
  {
    if cells == [] then []
    else
      var last := cells[|cells| - 1];
      NonZeroCells(m, cells[..|cells| - 1]) + (if m(last.0, last.1) != 0 then [last] else [])
  }

  lemma NonZeroCellsAppend(m: TileMap, cells: seq<Cell>, c: Cell)
    ensures NonZeroCells(m, cells + [c]) == NonZeroCells(m, cells) + (if m(c.0, c.1) != 0 then [c] else [])
  {
    assert (cells + [c])[..|cells|] == cells;
  }

  /** The filter keeps exactly the non-zero cells. */
  lemma {:induction false} NonZeroCellsMembers(m: TileMap, cells: seq<Cell>)
    ensures forall c: Cell :: c in NonZeroCells(m, cells) <==> c in cells && m(c.0, c.1) != 0
    ensures |NonZeroCells(m, cells)| <= |cells|
  {
    if cells != [] {
      var init := cells[..|cells| - 1];
      NonZeroCellsMembers(m, init);
      assert cells == init + [cells[|cells| - 1]];
    }
  }

  /** The filter keeps the cells in their original order. */
  lemma {:induction false} NonZeroCellsSorted(m: TileMap, cells: seq<Cell>)
    requires RowMajorSorted(cells)
    ensures RowMajorSorted(NonZeroCells(m, cells))
  {
    if cells != [] {
      var init := cells[..|cells| - 1];
      var last := cells[|cells| - 1];
      assert RowMajorSorted(init) by {
        forall i, j | 0 <= i < j < |init| ensures RowMajorBefore(init[i], init[j]) {
          assert init[i] == cells[i] && init[j] == cells[j];
        }
      }
      NonZeroCellsSorted(m, init);
      NonZeroCellsMembers(m, init);
      var prev := NonZeroCells(m, init);
      forall c: Cell | c in prev
        ensures RowMajorBefore(c, last)
      {
        var i :| 0 <= i < |init| && init[i] == c;
        assert cells[i] == c;
      }
      var tail := if m(last.0, last.1) != 0 then [last] else [];
      forall i, j | 0 <= i < j < |prev + tail|
        ensures RowMajorBefore((prev + tail)[i], (prev + tail)[j])
      {
        if j < |prev| {
          assert (prev + tail)[i] == prev[i] && (prev + tail)[j] == prev[j];
        } else {
          assert (prev + tail)[i] == prev[i] && prev[i] in prev;
        }
      }
    }
  }

  // ---------------------------------------------------------------------
  // Map_DestroySection
  // ---------------------------------------------------------------------

  /** One record of gmTileDebrisStates: horizontal speed, index into the
      vertical movement table, tile value and screen position in tiles
      relative to the camera. */
  datatype Debris = Debris(dx: word, step: word, tile: word, x: word, y: word)

  /** The gmExplodingSection* bounds; right and bottom are exclusive. */
  datatype Explosion = Explosion(left: word, top: word, right: word, bottom: word, ticksElapsed: byte)

  /** The record written for the non-zero cell c. */
  predicate DebrisFor(d: Debris, m: TileMap, c: Cell, cameraX: word, cameraY: word)
  {
    d.tile == m(c.0, c.1) && d.tile != 0 && d.x == Wrap16(c.0 - cameraX) && d.y == Wrap16(c.1 - cameraY)
      && -2 <= AsSigned(d.dx) <= 3 && d.step <= 4
  }

  predicate DebrisMatches(debris: seq<Debris>, m: TileMap, cells: seq<Cell>, cameraX: word, cameraY: word)
  {
    |debris| == |cells| && forall k :: 0 <= k < |debris| ==> DebrisFor(debris[k], m, cells[k], cameraX, cameraY)
  }

  lemma DebrisMatchesAppend(debris: seq<Debris>, m: TileMap, cells: seq<Cell>, d: Debris, c: Cell, cameraX: word, cameraY: word)
    requires DebrisMatches(debris, m, cells, cameraX, cameraY)
    requires DebrisFor(d, m, c, cameraX, cameraY)
    ensures DebrisMatches(debris + [d], m, cells + [c], cameraX, cameraY)
  {
    forall k | 0 <= k < |debris| + 1
      ensures DebrisFor((debris + [d])[k], m, (cells + [c])[k], cameraX, cameraY)
    {
      if k < |debris| {
        assert (debris + [d])[k] == debris[k] && (cells + [c])[k] == cells[k];
      }
    }
  }

  /** The record for the tile at (x, y), from two random numbers: the
      horizontal speed `3 - RandomNumber() % 6` stored in a word, and the
      starting step `RandomNumber() % 5`. */
  function MakeDebris(speedDraw: byte, stepDraw: byte, tile: word, x: word, y: word, cameraX: word, cameraY: word): (d: Debris)
    ensures -2 <= AsSigned(d.dx) <= 3 && d.step <= 4
    ensures d.tile == tile && d.x == Wrap16(x - cameraX) && d.y == Wrap16(y - cameraY)
  {
    Debris(Wrap16(3 - (speedDraw as int) % 6), stepDraw % 5, tile, Wrap16(x - cameraX), Wrap16(y - cameraY))
  }

  /** Drawing a then b random numbers is drawing a + b of them. */
  lemma {:induction false} IndexAfterCompose(table: seq<byte>, index: byte, a: nat, b: nat)
    requires |table| == 256
    ensures CoreUtil.RngIndexAfter(table, CoreUtil.RngIndexAfter(table, index, a), b) == CoreUtil.RngIndexAfter(table, index, a + b)
    decreases a
  {
    if a > 0 {
      IndexAfterCompose(table, CoreUtil.Draw(table, index).0, a - 1, b);
    }
  }

  /** The state Map_DestroySection threads through its loops: the map, the
      RandomNumber index and the records written so far. */
  datatype Destroyed = Destroyed(tiles: TileMap, rng: byte, debris: seq<Debris>)

  /** The loop body of Map_DestroySection applied to `cells` in order: a
      non-zero tile draws two random numbers, gets a record and is cleared;
      a zero tile is skipped. */
  function DestroyCells(table: seq<byte>, m: TileMap, rng: byte, cells: seq<Cell>, cameraX: word, cameraY: word): (d: Destroyed)
    requires |table| == 256
    decreases |cells|
  {
    if cells == [] then Destroyed(m, rng, [])
    else
      var prev := DestroyCells(table, m, rng, cells[..|cells| - 1], cameraX, cameraY);
      var c := cells[|cells| - 1];
      var tile := prev.tiles(c.0, c.1);
      if tile == 0 then prev
      else
        var d1 := CoreUtil.Draw(table, prev.rng);
        var d2 := CoreUtil.Draw(table, d1.0);
        Destroyed(SetTile(prev.tiles, 0, c.0, c.1), d2.0,
                  prev.debris + [MakeDebris(d1.1, d2.1, tile, c.0, c.1, cameraX, cameraY)])
  }

  /** Every visited cell is empty afterwards and every other cell keeps its
      tile. */
  lemma {:induction false} DestroyCellsTiles(table: seq<byte>, m: TileMap, rng: byte, cells: seq<Cell>, cameraX: word, cameraY: word)
    requires |table| == 256
    ensures forall x: word, y: word :: DestroyCells(table, m, rng, cells, cameraX, cameraY).tiles(x, y) == if (x, y) in cells then 0 else m(x, y)
    decreases |cells|
  {
    if cells != [] {
      var init := cells[..|cells| - 1];
      DestroyCellsTiles(table, m, rng, init, cameraX, cameraY);
      assert cells == init + [cells[|cells| - 1]];
    }
  }

  /** Two random numbers are drawn per record. */
  lemma {:induction false} DestroyCellsDraws(table: seq<byte>, m: TileMap, rng: byte, cells: seq<Cell>, cameraX: word, cameraY: word)
    requires |table| == 256
    ensures DestroyCells(table, m, rng, cells, cameraX, cameraY).rng
            == CoreUtil.RngIndexAfter(table, rng, 2 * |DestroyCells(table, m, rng, cells, cameraX, cameraY).debris|)
    decreases |cells|
  {
    if cells != [] {
      var init := cells[..|cells| - 1];
      var prev := DestroyCells(table, m, rng, init, cameraX, cameraY);
      DestroyCellsDraws(table, m, rng, init, cameraX, cameraY);
      IndexAfterCompose(table, rng, 2 * |prev.debris|, 2);
      var d1 := CoreUtil.Draw(table, prev.rng);
      assert CoreUtil.RngIndexAfter(table, prev.rng, 2) == CoreUtil.RngIndexAfter(table, d1.0, 1);
    }
  }

  /** Over distinct cells in row-major order, the records are exactly those
      of the non-zero cells, in the same order. */
  lemma {:induction false} DestroyCellsRecords(table: seq<byte>, m: TileMap, rng: byte, cells: seq<Cell>, cameraX: word, cameraY: word)
    requires |table| == 256
    requires RowMajorSorted(cells)
    ensures DebrisMatches(DestroyCells(table, m, rng, cells, cameraX, cameraY).debris, m, NonZeroCells(m, cells), cameraX, cameraY)
    decreases |cells|
  {
    if cells != [] {
      var init := cells[..|cells| - 1];
      var c := cells[|cells| - 1];
      assert cells == init + [c];
      assert RowMajorSorted(init) by {
        forall i, j | 0 <= i < j < |init| ensures RowMajorBefore(init[i], init[j]) {
          assert init[i] == cells[i] && init[j] == cells[j];
        }
      }
      var prev := DestroyCells(table, m, rng, init, cameraX, cameraY);
      DestroyCellsRecords(table, m, rng, init, cameraX, cameraY);
      DestroyCellsTiles(table, m, rng, init, cameraX, cameraY);
      forall i | 0 <= i < |init|
        ensures init[i] != c
      {
        assert init[i] == cells[i];
        assert RowMajorBefore(cells[i], cells[|cells| - 1]);
      }
      assert prev.tiles(c.0, c.1) == m(c.0, c.1);
      NonZeroCellsAppend(m, init, c);
      if m(c.0, c.1) != 0 {
        var d1 := CoreUtil.Draw(table, prev.rng);
        var d2 := CoreUtil.Draw(table, d1.0);
        DebrisMatchesAppend(prev.debris, m, NonZeroCells(m, init), MakeDebris(d1.1, d2.1, m(c.0, c.1), c.0, c.1, cameraX, cameraY), c, cameraX, cameraY);
      }
    }
  }

  /** Map_DestroySection(left, top, right, bottom): right and bottom are
      inclusive (both are incremented, in 16 bits, before the loops). Every
      non-zero tile of the section, row by row and left to right, gets a
      debris record and is cleared from the map; two random numbers are
      drawn per record. `table` and `rng` are RandomNumber's table
      (RANDOM_NR_TABLE) and index. */
  function DestroySection(table: seq<byte>, m: TileMap, rng: byte, cameraX: word, cameraY: word,
                          left: word, top: word, right: word, bottom: word): (r: (Explosion, Destroyed))
    requires |table| == 256
    ensures r.0 == Explosion(left, top, Wrap16(right + 1), Wrap16(bottom + 1), 1)
    ensures DebrisMatches(r.1.debris, m, NonZeroCells(m, SectionCells(left, r.0.right, top, r.0.bottom)), cameraX, cameraY)
    ensures forall x: word, y: word :: r.1.tiles(x, y) == if InSection((x, y), left, r.0.right, top, r.0.bottom) then 0 else m(x, y)
    ensures r.1.rng == (rng + 2 * |r.1.debris|) % 256
  {
    var explosion := Explosion(left, top, Wrap16(right + 1), Wrap16(bottom + 1), 1);
    var cells := SectionCells(left, explosion.right, top, explosion.bottom);
    var d := DestroyCells(table, m, rng, cells, cameraX, cameraY);
    SectionCellsMembers(left, explosion.right, top, explosion.bottom);
    SectionCellsSorted(left, explosion.right, top, explosion.bottom);
    DestroyCellsTiles(table, m, rng, cells, cameraX, cameraY);
    DestroyCellsRecords(table, m, rng, cells, cameraX, cameraY);
    DestroyCellsDraws(table, m, rng, cells, cameraX, cameraY);
    CoreUtil.RngIndexAfterIsSum(table, rng, 2 * |d.debris|);
    (explosion, d)
  }

  /** Every non-zero tile of the inclusive rectangle has a debris record
      carrying its value and its position relative to the camera, and there
      are at most as many records as cells. */
  lemma DestroySectionRecordsEveryTile(m: TileMap, debris: seq<Debris>, cameraX: word, cameraY: word,
                                       left: word, top: word, right: word, bottom: word)
    requires right < 0xFFFF && bottom < 0xFFFF
    requires DebrisMatches(debris, m, NonZeroCells(m, SectionCells(left, right + 1, top, bottom + 1)), cameraX, cameraY)
    ensures forall x: word, y: word :: left <= x <= right && top <= y <= bottom && m(x, y) != 0 ==>
              HasRecord(debris, m(x, y), Wrap16(x - cameraX), Wrap16(y - cameraY))
  {
    forall x: word, y: word | left <= x <= right && top <= y <= bottom && m(x, y) != 0
      ensures HasRecord(debris, m(x, y), Wrap16(x - cameraX), Wrap16(y - cameraY))
    {
      SectionCellHasRecord(m, debris, cameraX, cameraY, left, top, right + 1, bottom + 1, (x, y));
    }
  }

  /** One non-zero cell of a section and its record. */
  lemma SectionCellHasRecord(m: TileMap, debris: seq<Debris>, cameraX: word, cameraY: word,
                             left: word, top: word, right: word, bottom: word, c: Cell)
    requires DebrisMatches(debris, m, NonZeroCells(m, SectionCells(left, right, top, bottom)), cameraX, cameraY)
    requires InSection(c, left, right, top, bottom) && m(c.0, c.1) != 0
    ensures HasRecord(debris, m(c.0, c.1), Wrap16(c.0 - cameraX), Wrap16(c.1 - cameraY))
  {
    NonZeroSectionCell(m, left, right, top, bottom, c);
    RecordForCell(m, debris, SectionCells(left, right, top, bottom), cameraX, cameraY, c);
  }

  /** A non-zero cell of a section is kept by the filter. */
  lemma NonZeroSectionCell(m: TileMap, left: word, right: word, top: word, bottom: word, c: Cell)
    requires InSection(c, left, right, top, bottom) && m(c.0, c.1) != 0
    ensures c in NonZeroCells(m, SectionCells(left, right, top, bottom))
  {
    SectionCellsMembers(left, right, top, bottom);
    NonZeroCellsMembers(m, SectionCells(left, right, top, bottom));
  }

  /** There are at most as many records as cells in the rectangle, so a
      section of more than 700 cells can overflow the debris buffer. */
  lemma DestroySectionRecordCount(m: TileMap, debris: seq<Debris>, cameraX: word, cameraY: word,
                                  left: word, top: word, right: word, bottom: word)
    requires left <= right < 0xFFFF && top <= bottom < 0xFFFF
    requires DebrisMatches(debris, m, NonZeroCells(m, SectionCells(left, right + 1, top, bottom + 1)), cameraX, cameraY)
    ensures |debris| <= (right + 1 - left) * (bottom + 1 - top)
  {
    var cells := SectionCells(left, right + 1, top, bottom + 1);
    var nz := NonZeroCells(m, cells);
    MatchedCount(debris, m, nz, cameraX, cameraY);
    NonZeroCellsShorter(m, cells);
    SectionCellsLength(left, right + 1, top, bottom + 1);
    assert |debris| == |nz| <= |cells|;
  }

  /** The filter never adds cells. */
  lemma NonZeroCellsShorter(m: TileMap, cells: seq<Cell>)
    ensures |NonZeroCells(m, cells)| <= |cells|
  {
    NonZeroCellsMembers(m, cells);
  }

  /** A section without empty cells yields exactly one record per cell. */
  lemma DestroySectionFullRectangle(m: TileMap, debris: seq<Debris>, cameraX: word, cameraY: word,
                                    left: word, top: word, right: word, bottom: word)
    requires left <= right < 0xFFFF && top <= bottom < 0xFFFF
    requires DebrisMatches(debris, m, NonZeroCells(m, SectionCells(left, right + 1, top, bottom + 1)), cameraX, cameraY)
    requires forall x: word, y: word :: left <= x <= right && top <= y <= bottom ==> m(x, y) != 0
    ensures |debris| == (right + 1 - left) * (bottom + 1 - top)
  {
    var cells := SectionCells(left, right + 1, top, bottom + 1);
    assert |debris| == |cells| by {
      FullSectionKept(m, left, top, right, bottom);
      MatchedCount(debris, m, NonZeroCells(m, cells), cameraX, cameraY);
    }
    SectionCellsLength(left, right + 1, top, bottom + 1);
  }

  /** The filter keeps every cell of a section without empty cells. */
  lemma FullSectionKept(m: TileMap, left: word, top: word, right: word, bottom: word)
    requires right < 0xFFFF && bottom < 0xFFFF
    requires forall x: word, y: word :: left <= x <= right && top <= y <= bottom ==> m(x, y) != 0
    ensures NonZeroCells(m, SectionCells(left, right + 1, top, bottom + 1)) == SectionCells(left, right + 1, top, bottom + 1)
  {
    FullSectionCells(m, left, top, right, bottom);
    NonZeroCellsAll(m, SectionCells(left, right + 1, top, bottom + 1));
  }

  /** Matching records are as many as the cells they match. */
  lemma MatchedCount(debris: seq<Debris>, m: TileMap, cells: seq<Cell>, cameraX: word, cameraY: word)
    requires DebrisMatches(debris, m, cells, cameraX, cameraY)
    ensures |debris| == |cells|
  {
  }

  lemma FullSectionCells(m: TileMap, left: word, top: word, right: word, bottom: word)
    requires right < 0xFFFF && bottom < 0xFFFF
    requires forall x: word, y: word :: left <= x <= right && top <= y <= bottom ==> m(x, y) != 0
    ensures forall c: Cell :: c in SectionCells(left, right + 1, top, bottom + 1) ==> m(c.0, c.1) != 0
  {
    SectionCellsMembers(left, right + 1, top, bottom + 1);
    forall c: Cell | c in SectionCells(left, right + 1, top, bottom + 1)
      ensures m(c.0, c.1) != 0
    {
      assert InSection(c, left, right + 1, top, bottom + 1);
    }
  }

  /** When every cell is non-zero the filter keeps all of them. */
  lemma {:induction false} NonZeroCellsAll(m: TileMap, cells: seq<Cell>)
    requires forall c: Cell :: c in cells ==> m(c.0, c.1) != 0
    ensures NonZeroCells(m, cells) == cells
  {
    if cells != [] {
      var init := cells[..|cells| - 1];
      NonZeroCellsAll(m, init);
      assert cells == init + [cells[|cells| - 1]];
    }
  }

  /** Some record carries this tile value and screen position. */
  predicate HasRecord(debris: seq<Debris>, tile: word, x: word, y: word)
  {
    exists k :: 0 <= k < |debris| && debris[k].tile == tile && debris[k].x == x && debris[k].y == y
  }

  lemma RecordForCell(m: TileMap, debris: seq<Debris>, cells: seq<Cell>, cameraX: word, cameraY: word, c: Cell)
    requires DebrisMatches(debris, m, NonZeroCells(m, cells), cameraX, cameraY)
    requires c in NonZeroCells(m, cells)
    ensures HasRecord(debris, m(c.0, c.1), Wrap16(c.0 - cameraX), Wrap16(c.1 - cameraY))
  {
    var nz := NonZeroCells(m, cells);
    var k :| 0 <= k < |nz| && nz[k] == c;
    assert DebrisFor(debris[k], m, nz[k], cameraX, cameraY);
  }

  /** The records come in row-major order of the cells they were taken
      from. */
  lemma DestroySectionRowMajor(m: TileMap, debris: seq<Debris>, cameraX: word, cameraY: word,
                               left: word, top: word, right: word, bottom: word)
    requires DebrisMatches(debris, m, NonZeroCells(m, SectionCells(left, right, top, bottom)), cameraX, cameraY)
    ensures forall i, j :: 0 <= i < j < |debris| ==>
              RowMajorBefore((Wrap16(debris[i].x + cameraX), Wrap16(debris[i].y + cameraY)),
                             (Wrap16(debris[j].x + cameraX), Wrap16(debris[j].y + cameraY)))
  {
    var nz := NonZeroCells(m, SectionCells(left, right, top, bottom));
    SectionCellsSorted(left, right, top, bottom);
    NonZeroCellsSorted(m, SectionCells(left, right, top, bottom));
    forall k | 0 <= k < |debris|
      ensures (Wrap16(debris[k].x + cameraX), Wrap16(debris[k].y + cameraY)) == nz[k]
    {
      assert DebrisFor(debris[k], m, nz[k], cameraX, cameraY);
    }
  }

  lemma {:induction false} SectionCellsLength(left: word, right: word, top: word, bottom: word)
    ensures left <= right && top <= bottom ==> |SectionCells(left, right, top, bottom)| == (right - left) * (bottom - top)
    decreases (bottom as int) - (top as int)
  {
    if top < bottom {
      SectionCellsLength(left, right, top, bottom - 1);
      RowCellsSpec(bottom - 1, left, right);
      if left <= right {
        assert (right - left) * (bottom - top) == (right - left) * (bottom - 1 - top) + (right - left);
      }
    }
  }

  // ---------------------------------------------------------------------
  // UpdateAndDrawTileDebris
  // ---------------------------------------------------------------------

  /** Y_MOVEMENT: the vertical speed of a debris tile by animation step. */
  const Y_MOVEMENT: seq<int> := [-3, -3, -2, -2, -1, 0, 0, 1, 2, 2, 3]

  /** The explosion lasts while gmExplodingSectionTicksElapsed is non-zero:
      it counts up from 1 and is reset to 0 on reaching 80. */
  function NextTick(ticks: byte): (t: byte)
    requires ticks != 0
    ensures t == 0 <==> ticks == 79 || ticks == 255
    ensures t != 0 ==> t == ticks + 1
  {
    if Wrap8(ticks + 1) == 80 then 0 else Wrap8(ticks + 1)
  }

  /** An explosion started by DestroySection is updated exactly 79 times. */
  lemma {:induction false} ExplosionLength(ticks: byte)
    requires 1 <= ticks < 80
    ensures TicksLeft(ticks) == 80 - ticks
    decreases 80 - ticks
  {
    if ticks < 79 {
      ExplosionLength(ticks + 1);
    }
  }

  /** Number of updates before the counter returns to 0. */
  function TicksLeft(ticks: byte): nat
    requires ticks != 0
    decreases 0x100 - ticks
  {
    if NextTick(ticks) == 0 then 1 else 1 + TicksLeft(NextTick(ticks))
  }

  /** Capacity of gmTileDebrisStates, in records. */
  const DEBRIS_CAPACITY: nat := 700

  /** The size, in words, the update loop walks: five per cell of the
      section, whether or not the cell held a tile, computed in 16 bits. */
  function DebrisWords(e: Explosion): word
  {
    Wrap16(Wrap16(e.right - e.left) * Wrap16(e.bottom - e.top) * 5)
  }

  /** Number of records the loop `for (i = 0; i < size; i += 5)` visits. */
  function DebrisCount(e: Explosion): nat
  {
    (DebrisWords(e) + 4) / 5
  }

  /** The per-record update as written: the step index is incremented up
      to 13 while Y_MOVEMENT has 11 entries. `None` marks a read past the
      end of the table. */
  function StepDebrisAsWritten(d: Debris): (r: Option<Debris>)
    ensures r.None? <==> d.step >= |Y_MOVEMENT|
  {
    if d.step >= |Y_MOVEMENT| then None
    else
      Some(Debris(d.dx, if d.step < 13 then d.step + 1 else d.step, d.tile,
                  Wrap16(d.x + d.dx), Wrap16(d.y + Y_MOVEMENT[d.step])))
  }

  /** Applying the update as written n times, stopping at the first read
      past the table. */
  function StepDebrisAsWrittenN(d: Debris, n: nat): Option<Debris>
    decreases n
  {
    if n == 0 then Some(d)
    else match StepDebrisAsWritten(d)
      case None => None
      case Some(d') => StepDebrisAsWrittenN(d', n - 1)
  }

  /** Any freshly written record reads past Y_MOVEMENT within 11 of the 79
      updates an explosion gets. */
  lemma DebrisOverrunsTable(d: Debris)
    requires d.step <= 4
    ensures StepDebrisAsWrittenN(d, 11 - d.step).Some?
    ensures StepDebrisAsWrittenN(d, 11 - d.step).value.step == 11
    ensures StepDebrisAsWrittenN(d, 12 - d.step).None?
  {
    StepsReachEnd(d, 11 - d.step);
  }

  lemma {:induction false} StepsReachEnd(d: Debris, n: nat)
    requires d.step + n <= 11
    ensures StepDebrisAsWrittenN(d, n).Some?
    ensures StepDebrisAsWrittenN(d, n).value.step == d.step + n
    ensures StepDebrisAsWrittenN(d, n).value.tile == d.tile
    ensures d.step + n == 11 ==> StepDebrisAsWrittenN(d, n + 1).None?
    decreases n
  {
    if n > 0 {
      StepsReachEnd(StepDebrisAsWritten(d).value, n - 1);
    } else if d.step == 11 {
      assert StepDebrisAsWrittenN(d, 1) == None;
    }
  }

  /** The last index of Y_MOVEMENT, where the corrected update stops. */
  const LAST_STEP: nat := 10

  /** The corrected per-record update: the step saturates at the table's
      last entry, so the falling speed stays at its maximum. */
  function StepDebris(d: Debris): (r: Debris)
    requires d.step <= LAST_STEP
    ensures r.step <= LAST_STEP
    ensures r.step == if d.step < LAST_STEP then d.step + 1 else LAST_STEP
    ensures r.tile == d.tile && r.dx == d.dx
    ensures r.x == Wrap16(d.x + d.dx)
    ensures AsSigned(d.dx) == 0 ==> r.x == d.x
  {
    Debris(d.dx, if d.step < LAST_STEP then d.step + 1 else d.step, d.tile,
           Wrap16(d.x + d.dx), Wrap16(d.y + Y_MOVEMENT[d.step]))
  }

  /** Records written by DestroySection stay inside the table for any
      number of corrected updates; before reaching the last step they
      agree with the update as written. */
  lemma {:induction false} StepDebrisStaysInTable(d: Debris, n: nat)
    requires d.step <= LAST_STEP
    ensures StepDebrisN(d, n).step <= LAST_STEP
    ensures d.step + n <= LAST_STEP ==> StepDebrisAsWrittenN(d, n) == Some(StepDebrisN(d, n))
    decreases n
  {
    if n > 0 {
      StepDebrisStaysInTable(StepDebris(d), n - 1);
    }
  }

  function StepDebrisN(d: Debris, n: nat): (r: Debris)
    requires d.step <= LAST_STEP
    decreases n
  {
    if n == 0 then d else StepDebrisN(StepDebris(d), n - 1)
  }

  /** DrawTileDebris: the tile is drawn only strictly inside the viewport,
      at screen byte offset x + y * 320. */
  function DebrisDest(d: Debris): (dest: Option<nat>)
    ensures dest.Some? <==> 0 < d.x < 32 && 0 < d.y < 21
    ensures dest.Some? ==> dest.value % 320 == d.x && dest.value / 320 == d.y
  {
    if d.x > 0 && d.x < 32 && d.y > 0 && d.y < 21 then Some(d.x + d.y * 320) else None
  }

  /** UpdateAndDrawTileDebris over the corrected step: nothing happens once
      the explosion is over; otherwise every record of the section moves
      and the tick counter advances. */
  function UpdateTileDebris(e: Explosion, buffer: seq<Debris>): (r: (Explosion, seq<Debris>))
    requires |buffer| == DEBRIS_CAPACITY && DebrisCount(e) <= DEBRIS_CAPACITY
    requires forall k :: 0 <= k < |buffer| ==> buffer[k].step <= LAST_STEP
    ensures e.ticksElapsed == 0 ==> r == (e, buffer)
    ensures |r.1| == |buffer|
    ensures forall k :: 0 <= k < |buffer| ==> r.1[k].step <= LAST_STEP
    ensures e.ticksElapsed != 0 ==>
              r.0.ticksElapsed == NextTick(e.ticksElapsed)
              && forall k :: 0 <= k < |buffer| ==>
                   r.1[k] == if k < DebrisCount(e) then StepDebris(buffer[k]) else buffer[k]
  {
    if e.ticksElapsed == 0 then (e, buffer)
    else
      var n := DebrisCount(e);
      (e.(ticksElapsed := NextTick(e.ticksElapsed)),
       seq(|buffer|, k requires 0 <= k < |buffer| => if k < n then StepDebris(buffer[k]) else buffer[k]))
  }

  // ---------------------------------------------------------------------
  // Map_MoveSection
  // ---------------------------------------------------------------------

  /** Size, in tiles, of the temporary buffer Map_MoveSection copies through. */
  const TEMP_TILE_BUFFER_SIZE: nat := 3000

  predicate InRect(x: word, y: word, left: word, right: word, top: word, bottom: word)
  {
    left <= x <= right && top <= y <= bottom
  }

  /** Cells of columns left..right in rows top up to but excluding `below`. */
  predicate InRows(x: word, y: word, left: word, right: word, top: int, below: int)
  {
    left <= x <= right && top <= y < below
  }

  /** Map_MoveSection(left, top, right, bottom, distance): the inclusive
      rectangle is copied into the temporary buffer and erased, then written
      back `distance` rows lower. The buffer is kept as a sequence of rows. */
  method MoveSection(m: TileMap, left: word, top: word, right: word, bottom: word, distance: word)
    returns (m': TileMap)
    requires left <= right && top <= bottom
    requires (right - left + 1) * (bottom - top + 1) <= TEMP_TILE_BUFFER_SIZE
    requires right < 0xFFFF && bottom + distance < 0xFFFF
    ensures forall x: word, y: word :: InRect(x, y, left, right, top, bottom) ==> m'(x, y + distance) == m(x, y)
    ensures forall x: word, y: word :: InRect(x, y, left, right, top, bottom) && !InRect(x, y, left, right, top + distance, bottom + distance) ==> m'(x, y) == 0
    ensures forall x: word, y: word :: !InRect(x, y, left, right, top, bottom) && !InRect(x, y, left, right, top + distance, bottom + distance) ==> m'(x, y) == m(x, y)
  {
    var width := right - left + 1;
    var buffer: seq<seq<word>> := [];
    m' := m;
    var y: int := top;
    while y <= bottom
      invariant top <= y <= bottom + 1
      invariant |buffer| == y - top
      invariant forall j :: 0 <= j < |buffer| ==> |buffer[j]| == width
      invariant forall j, i :: 0 <= j < |buffer| && 0 <= i < width ==> buffer[j][i] == m(left + i, top + j)
      invariant forall x': word, y': word :: m'(x', y') == if InRows(x', y', left, right, top, y) then 0 else m(x', y')
    {
      var row: seq<word> := [];
      var x: int := left;
      while x <= right
        invariant left <= x <= right + 1
        invariant |row| == x - left
        invariant forall i :: 0 <= i < |row| ==> row[i] == m(left + i, y)
        invariant forall x': word, y': word :: m'(x', y') ==
                    if (InRows(x', y', left, right, top, y)) || (y' == y && left <= x' < x) then 0 else m(x', y')
      {
        row := row + [m'(x, y)];
        m' := SetTile(m', 0, x, y);
        x := x + 1;
      }
      buffer := buffer + [row];
      y := y + 1;
    }
    ghost var erased := m';
    var newTop := top + distance;
    var newBottom := bottom + distance;
    y := newTop;
    while y <= newBottom
      invariant newTop <= y <= newBottom + 1
      invariant forall x': word, y': word :: m'(x', y') ==
                  if InRows(x', y', left, right, newTop, y) then buffer[y' - newTop][x' - left] else erased(x', y')
    {
      var x: int := left;
      while x <= right
        invariant left <= x <= right + 1
        invariant forall x': word, y': word :: m'(x', y') ==
                    if InRows(x', y', left, right, newTop, y) then buffer[y' - newTop][x' - left]
                    else if y' == y && left <= x' < x then buffer[y' - newTop][x' - left]
                    else erased(x', y')
      {
        m' := SetTile(m', buffer[y - newTop][x - left], x, y);
        x := x + 1;
      }
      y := y + 1;
    }
  }
}
