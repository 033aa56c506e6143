/** The Sudoku board: its 9x9 tiles, the loading of a level into them, and the
    three-pass check that decides whether the puzzle is solved. */
module Game {
  import opened SudokuRules

  /** A puzzle definition, read only: its digits, and which tiles it shows (and
      so fixes) at the start. Both are indexed [x][y] like the board. */
  datatype Level = Level(board: seq<seq<int>>, display: seq<seq<bool>>) {
    predicate WellFormed() {
      IsGrid(board) && |display| == 9 && forall x :: 0 <= x < 9 ==> |display[x]| == 9
    }
  }

  /** The passes of the check, in the order they run. */
  datatype Pass = Rows | Columns | Boxes

  /** The grid that loading a level over grid g gives: shown tiles take the
      level's digit, hidden tiles keep what they held. */
  function Overlay(g: Grid, level: Level): (r: Grid)
    requires IsGrid(g) && level.WellFormed()
    ensures IsGrid(r)
    ensures forall x, y :: 0 <= x < 9 && 0 <= y < 9 ==>
      r[x][y] == if level.display[x][y] then level.board[x][y] else g[x][y]
  {
    seq(9, x requires 0 <= x < 9 =>
      seq(9, y requires 0 <= y < 9 => if level.display[x][y] then level.board[x][y] else g[x][y]))
  }

  /** Loading the same level twice leaves the same board as loading it once. */
  lemma OverlayIdempotent(g: Grid, level: Level)
    requires IsGrid(g) && level.WellFormed()
    ensures Overlay(Overlay(g, level), level) == Overlay(g, level)
  {
    var once := Overlay(g, level);
    var twice := Overlay(once, level);
    forall x | 0 <= x < 9 ensures twice[x] == once[x] {
      assert forall y :: 0 <= y < 9 ==> twice[x][y] == once[x][y];
    }
  }

  /** A level that shows every tile replaces the whole board, whatever it held
      before; so the board is then solved exactly when the level's digits are. */
  lemma OverlayShowingAll(g: Grid, level: Level)
    requires IsGrid(g) && level.WellFormed()
    requires forall x, y :: 0 <= x < 9 && 0 <= y < 9 ==> level.display[x][y]
    ensures Overlay(g, level) == level.board
    ensures Solved(Overlay(g, level)) <==> Solved(level.board)
  {
    var r := Overlay(g, level);
    forall x | 0 <= x < 9 ensures r[x] == level.board[x] {
      assert forall y :: 0 <= y < 9 ==> r[x][y] == level.board[x][y];
    }
  }

  /** The board a cleared grid of tiles gives is the empty grid. */
  lemma AllEmptyIsEmptyGrid(g: Grid)
    requires IsGrid(g)
    requires forall x, y :: 0 <= x < 9 && 0 <= y < 9 ==> g[x][y] == Empty
    ensures g == EmptyGrid()
  {
    var e := EmptyGrid();
    forall x | 0 <= x < 9 ensures g[x] == e[x] {
      assert forall y :: 0 <= y < 9 ==> g[x][y] == e[x][y];
    }
  }

  predicate IsDigit3(d: int) {
    0 <= d < 3
  }

  // ---------------------------------------------------------------------------
  // Where each tile goes
  // ---------------------------------------------------------------------------

  /** The slot in the 9x9 tile array that LoadTilesToArray gives the tile whose
      name has tileX at index 0 and tileY at index 2, inside the group (3x3 box)
      whose name has groupX at index 0 and groupY at index 2. */
  function TileSlot(groupX: int, groupY: int, tileX: int, tileY: int): (slot: (int, int))
    ensures IsDigit3(groupX) && IsDigit3(groupY) && IsDigit3(tileX) && IsDigit3(tileY) ==>
      0 <= slot.0 < 9 && 0 <= slot.1 < 9 && (slot.0 / 3, slot.1 / 3) == (groupX, groupY)
  {
    (groupX * 3 + tileX, groupY * 3 + tileY)
  }

  /** Group and tile coordinates in 0..2 give a slot on the board. */
  lemma TileSlotInRange(groupX: int, groupY: int, tileX: int, tileY: int)
    requires IsDigit3(groupX) && IsDigit3(groupY) && IsDigit3(tileX) && IsDigit3(tileY)
    ensures 0 <= TileSlot(groupX, groupY, tileX, tileY).0 < 9
    ensures 0 <= TileSlot(groupX, groupY, tileX, tileY).1 < 9
  {
  }

  /** Two different (group, tile) pairs never share a slot, so no slot is assigned twice. */
  lemma TileSlotInjective(gx: int, gy: int, tx: int, ty: int, gx': int, gy': int, tx': int, ty': int)
    requires IsDigit3(gx) && IsDigit3(gy) && IsDigit3(tx) && IsDigit3(ty)
    requires IsDigit3(gx') && IsDigit3(gy') && IsDigit3(tx') && IsDigit3(ty')
    requires TileSlot(gx, gy, tx, ty) == TileSlot(gx', gy', tx', ty')
    ensures gx == gx' && gy == gy' && tx == tx' && ty == ty'
  {
  }

  /** The slot determines the group and the tile: the group is the slot divided
      by 3 and the tile the remainder, on each axis. */
  lemma TileSlotInverse(groupX: int, groupY: int, tileX: int, tileY: int)
    requires IsDigit3(groupX) && IsDigit3(groupY) && IsDigit3(tileX) && IsDigit3(tileY)
    ensures TileSlot(groupX, groupY, tileX, tileY).0 / 3 == groupX
    ensures TileSlot(groupX, groupY, tileX, tileY).0 % 3 == tileX
    ensures TileSlot(groupX, groupY, tileX, tileY).1 / 3 == groupY
    ensures TileSlot(groupX, groupY, tileX, tileY).1 % 3 == tileY
  {
  }

  /** Every slot is reached, by the tile of the box holding it. */
  lemma TileSlotCoversBoard(x: int, y: int)
    requires 0 <= x < 9 && 0 <= y < 9
    ensures IsDigit3(x / 3) && IsDigit3(y / 3) && IsDigit3(x % 3) && IsDigit3(y % 3)
    ensures TileSlot(x / 3, y / 3, x % 3, y % 3) == (x, y)
  {
  }

  // ---------------------------------------------------------------------------
  // The board
  // ---------------------------------------------------------------------------

  class Board {
    /** The value of each tile, indexed [x, y]; 0 is an empty tile. */
    var tiles: array2<int>
    /** Whether each tile holds a constant given by the level. */
    var fixed: array2<bool>

    ghost predicate Valid()
      reads this
    {
      tiles.Length0 == 9 && tiles.Length1 == 9 && fixed.Length0 == 9 && fixed.Length1 == 9
    }

    /** The board's values as a grid. */
    ghost function Cells(): (g: Grid)
      reads this, tiles
      requires Valid()
      ensures IsGrid(g)
      ensures forall x, y :: 0 <= x < 9 && 0 <= y < 9 ==> g[x][y] == tiles[x, y]
    {
      var t := tiles;
      seq(9, x requires 0 <= x < 9 reads t =>
        seq(9, y requires 0 <= y < 9 reads t => t[x, y]))
    }

    /** A board of empty, non-constant tiles: the state once LoadTilesToArray
        has put a fresh tile of value 0 into every slot. */
    constructor ()
      ensures Valid() && fresh(tiles) && fresh(fixed)
      ensures Cells() == EmptyGrid()
      ensures forall x, y :: 0 <= x < 9 && 0 <= y < 9 ==> !fixed[x, y]
    {
      tiles := new int[9, 9]((x, y) => Empty);
      fixed := new bool[9, 9]((x, y) => false);
      new;
      AllEmptyIsEmptyGrid(Cells());
    }

    /** Clears every tile: it becomes empty and no longer constant. */
    method Clear()
      requires Valid()
      modifies tiles, fixed
      ensures Valid()
      ensures Cells() == EmptyGrid()
      ensures forall x, y :: 0 <= x < 9 && 0 <= y < 9 ==> !fixed[x, y]
    {
      for x := 0 to 9
        invariant forall i, j :: 0 <= i < x && 0 <= j < 9 ==> tiles[i, j] == Empty && !fixed[i, j]
      {
        for y := 0 to 9
          invariant forall i, j :: 0 <= i < x && 0 <= j < 9 ==> tiles[i, j] == Empty && !fixed[i, j]
          invariant forall j :: 0 <= j < y ==> tiles[x, j] == Empty && !fixed[x, j]
        {
          tiles[x, y] := Empty;
          fixed[x, y] := false;
        }
      }
      AllEmptyIsEmptyGrid(Cells());
    }

    /** Gives every tile the level shows its digit, as a constant; every other
        tile keeps its value and its constant mark. */
    method SetLevel(level: Level)
      requires Valid() && level.WellFormed()
      modifies tiles, fixed
      ensures Valid()
      ensures Cells() == Overlay(old(Cells()), level)
      ensures forall x, y :: 0 <= x < 9 && 0 <= y < 9 ==>
        fixed[x, y] == (level.display[x][y] || old(fixed[x, y]))
    {
      for y := 0 to 9
        invariant forall i, j :: 0 <= i < 9 && 0 <= j < 9 ==>
          tiles[i, j] == (if j < y && level.display[i][j] then level.board[i][j] else old(tiles[i, j])) &&
          fixed[i, j] == ((j < y && level.display[i][j]) || old(fixed[i, j]))
      {
        for x := 0 to 9
          invariant forall i, j :: 0 <= i < 9 && 0 <= j < 9 ==>
            tiles[i, j] == (if (j < y || (j == y && i < x)) && level.display[i][j] then level.board[i][j] else old(tiles[i, j])) &&
            fixed[i, j] == (((j < y || (j == y && i < x)) && level.display[i][j]) || old(fixed[i, j]))
        {
          if level.display[x][y] {
            tiles[x, y] := level.board[x][y];
            fixed[x, y] := true;
          }
        }
      }
      ghost var r := Overlay(old(Cells()), level);
      ghost var g := Cells();
      forall x | 0 <= x < 9 ensures g[x] == r[x] {
        assert forall y :: 0 <= y < 9 ==> g[x][y] == r[x][y];
      }
    }

    /** The row pass. The seen-set is emptied after each row, so each row is
        judged on its own; the pass stops at the first failing row (the one it logs). */
    method CheckRows() returns (ok: bool, ghost badRow: int)
      requires Valid()
      ensures ok <==> AllRowsOk(Cells())
      ensures !ok ==> 0 <= badRow < 9 && !RowOk(Cells(), badRow)
      ensures !ok ==> forall y :: 0 <= y < badRow ==> RowOk(Cells(), y)
    {
      ghost var g := Cells();
      var hash: set<int> := {};
      for y := 0 to 9
        invariant hash == {}
        invariant forall j :: 0 <= j < y ==> RowOk(g, j)
      {
        ghost var row := Row(g, y);
        for x := 0 to 9
          invariant hash == Elems(row[..x]) && UnitOk(row[..x])
        {
          var value := tiles[x, y];
          ScanNext(row, x, hash, value);
          if value == Empty || value in hash {
            assert !RowOk(g, y);
            return false, y;
          }
          hash := hash + {value};
        }
        assert row[..9] == row;
        hash := {};
      }
      return true, -1;
    }

    /** The column pass: the row pass transposed. */
    method CheckColumns() returns (ok: bool, ghost badColumn: int)
      requires Valid()
      ensures ok <==> AllColumnsOk(Cells())
      ensures !ok ==> 0 <= badColumn < 9 && !ColumnOk(Cells(), badColumn)
      ensures !ok ==> forall x :: 0 <= x < badColumn ==> ColumnOk(Cells(), x)
    {
      ghost var g := Cells();
      var hash: set<int> := {};
      for x := 0 to 9
        invariant hash == {}
        invariant forall i :: 0 <= i < x ==> ColumnOk(g, i)
      {
        ghost var column := Column(g, x);
        for y := 0 to 9
          invariant hash == Elems(column[..y]) && UnitOk(column[..y])
        {
          var value := tiles[x, y];
          ScanNext(column, y, hash, value);
          if value == Empty || value in hash {
            assert !ColumnOk(g, x);
            return false, x;
          }
          hash := hash + {value};
        }
        assert column[..9] == column;
        hash := {};
      }
      return true, -1;
    }

    /** The check of one box: it reads exactly the tiles with x in
        [3*boxX, 3*boxX+3) and y in [3*boxY, 3*boxY+3). */
    method CheckSingleBox(boxX: int, boxY: int) returns (ok: bool)
      requires Valid() && 0 <= boxX < 3 && 0 <= boxY < 3
      ensures ok <==> BoxOk(Cells(), boxX, boxY)
    {
      ghost var g := Cells();
      ghost var box := Box(g, boxX, boxY);
      ghost var seen := 0;
      var hash: set<int> := {};
      var startX := boxX * 3;
      var startY := boxY * 3;
      for y := startY to startY + 3
        invariant seen == 3 * (y - startY)
        invariant hash == Elems(box[..seen]) && UnitOk(box[..seen])
      {
        for x := startX to startX + 3
          invariant seen == 3 * (y - startY) + (x - startX)
          invariant hash == Elems(box[..seen]) && UnitOk(box[..seen])
        {
          var value := tiles[x, y];
          BoxTile(g, boxX, boxY, x, y);
          ScanNext(box, seen, hash, value);
          if value == Empty || value in hash {
            assert !BoxOk(g, boxX, boxY);
            return false;
          }
          hash := hash + {value};
          seen := seen + 1;
        }
      }
      assert box[..9] == box;
      return true;
    }

    /** The box pass: boxes in order, row of boxes by row of boxes, stopping at
        the first failing box (the one it logs). */
    method CheckBoxes() returns (ok: bool, ghost badBox: (int, int))
      requires Valid()
      ensures ok <==> AllBoxesOk(Cells())
      ensures !ok ==> 0 <= badBox.0 < 3 && 0 <= badBox.1 < 3 && !BoxOk(Cells(), badBox.0, badBox.1)
      ensures !ok ==> forall i, j :: 0 <= i < 3 && 0 <= j < 3 && (j < badBox.1 || (j == badBox.1 && i < badBox.0)) ==>
        BoxOk(Cells(), i, j)
    {
      for y := 0 to 3
        invariant forall i, j :: 0 <= i < 3 && 0 <= j < y ==> BoxOk(Cells(), i, j)
      {
        for x := 0 to 3
          invariant forall i, j :: 0 <= i < 3 && 0 <= j < 3 && (j < y || (j == y && i < x)) ==> BoxOk(Cells(), i, j)
        {
          var boxOk := CheckSingleBox(x, y);
          if !boxOk {
            return false, (x, y);
          }
        }
      }
      return true, (-1, -1);
    }

    /** The whole check, which LoadTilesToArray subscribes to each tile's
        ValueChanged on a non-constant board: rows, then columns, then boxes,
        each pass only if the one before passed. It returns whether
        SudokuCorrect is raised, and (as a ghost) the passes that ran. */
    method CheckBoard() returns (correct: bool, ghost passes: seq<Pass>)
      requires Valid()
      ensures correct <==> Solved(Cells())
      ensures 1 <= |passes| <= 3 && passes == [Rows, Columns, Boxes][..|passes|]
      ensures Columns in passes <==> AllRowsOk(Cells())
      ensures Boxes in passes <==> AllRowsOk(Cells()) && AllColumnsOk(Cells())
    {
      passes := [Rows];
      var rowsOk, badRow := CheckRows();
      if !rowsOk {
        return false, passes;
      }
      passes := passes + [Columns];
      var columnsOk, badColumn := CheckColumns();
      if !columnsOk {
        return false, passes;
      }
      passes := passes + [Boxes];
      var boxesOk, badBox := CheckBoxes();
      if !boxesOk {
        return false, passes;
      }
      correct := true;
    }
  }
}
