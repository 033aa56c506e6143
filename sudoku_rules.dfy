/** The rules the Sudoku board checker decides, stated over values.

    A grid is a snapshot of the 9x9 board, indexed column first: g[x][y] is the
    value of the tile in column x and row y, exactly as the board's tile array
    tiles[x, y] is indexed. The value 0 marks an empty tile. */
module SudokuRules {

  type Grid = seq<seq<int>>

  /** The value an empty tile holds. */
  const Empty := 0

  predicate IsGrid(g: Grid) {
    |g| == 9 && forall x :: 0 <= x < 9 ==> |g[x]| == 9
  }

  /** The set of values occurring in s. */
  function Elems(s: seq<int>): set<int> {
    set i | 0 <= i < |s| :: s[i]
  }

  predicate NoEmpty(s: seq<int>) {
    forall i :: 0 <= i < |s| ==> s[i] != Empty
  }

  predicate Distinct(s: seq<int>) {
    forall i, j :: 0 <= i < j < |s| ==> s[i] != s[j]
  }

  /** A row, a column or a box passes when it holds no empty tile and no value twice. */
  predicate UnitOk(s: seq<int>) {
    NoEmpty(s) && Distinct(s)
  }

  /** Row y, left to right. */
  function Row(g: Grid, y: int): (r: seq<int>)
    requires IsGrid(g) && 0 <= y < 9
    ensures |r| == 9 && forall x :: 0 <= x < 9 ==> r[x] == g[x][y]
  {
    seq(9, x requires 0 <= x < 9 => g[x][y])
  }

  /** Column x, top to bottom. */
  function Column(g: Grid, x: int): (c: seq<int>)
    requires IsGrid(g) && 0 <= x < 9
    ensures |c| == 9 && forall y :: 0 <= y < 9 ==> c[y] == g[x][y]
  {
    g[x]
  }

  /** The place, in a box's visiting order, of the tile i to the right of and
      j below the box's top-left tile. */
  function BoxIndex(i: int, j: int): (k: int)
    requires 0 <= i < 3 && 0 <= j < 3
    ensures 0 <= k < 9
  {
    3 * j + i
  }

  /** The nine tiles of box (boxX, boxY), that is columns [3*boxX, 3*boxX+3) and rows
      [3*boxY, 3*boxY+3), in the order the checker visits them: row by row, and
      left to right inside a row. */
  function Box(g: Grid, boxX: int, boxY: int): (b: seq<int>)
    requires IsGrid(g) && 0 <= boxX < 3 && 0 <= boxY < 3
    ensures |b| == 9
    ensures forall i, j :: 0 <= i < 3 && 0 <= j < 3 ==> b[BoxIndex(i, j)] == g[3 * boxX + i][3 * boxY + j]
  {
    var r := seq(9, k requires 0 <= k < 9 => g[3 * boxX + k % 3][3 * boxY + k / 3]);
    assert forall i, j :: 0 <= i < 3 && 0 <= j < 3 ==> BoxIndex(i, j) % 3 == i && BoxIndex(i, j) / 3 == j;
    r
  }

  /** Tile (x, y) of box (boxX, boxY) sits at place 3 * (y - 3 * boxY) + (x - 3 * boxX)
      of the box's visiting order. */
  lemma BoxTile(g: Grid, boxX: int, boxY: int, x: int, y: int)
    requires IsGrid(g) && 0 <= boxX < 3 && 0 <= boxY < 3
    requires 3 * boxX <= x < 3 * boxX + 3 && 3 * boxY <= y < 3 * boxY + 3
    ensures Box(g, boxX, boxY)[3 * (y - 3 * boxY) + (x - 3 * boxX)] == g[x][y]
  {
  }

  predicate RowOk(g: Grid, y: int)
    requires IsGrid(g) && 0 <= y < 9
  {
    UnitOk(Row(g, y))
  }

  predicate ColumnOk(g: Grid, x: int)
    requires IsGrid(g) && 0 <= x < 9
  {
    UnitOk(Column(g, x))
  }

  predicate BoxOk(g: Grid, boxX: int, boxY: int)
    requires IsGrid(g) && 0 <= boxX < 3 && 0 <= boxY < 3
  {
    UnitOk(Box(g, boxX, boxY))
  }

  predicate AllRowsOk(g: Grid)
    requires IsGrid(g)
  {
    forall y :: 0 <= y < 9 ==> RowOk(g, y)
  }

  predicate AllColumnsOk(g: Grid)
    requires IsGrid(g)
  {
    forall x :: 0 <= x < 9 ==> ColumnOk(g, x)
  }

  predicate AllBoxesOk(g: Grid)
    requires IsGrid(g)
  {
    forall boxX, boxY :: 0 <= boxX < 3 && 0 <= boxY < 3 ==> BoxOk(g, boxX, boxY)
  }

  /** The board is solved when every row, every column and every box passes. */
  predicate Solved(g: Grid)
    requires IsGrid(g)
  {
    AllRowsOk(g) && AllColumnsOk(g) && AllBoxesOk(g)
  }

  // ---------------------------------------------------------------------------
  // The running-set scan
  // ---------------------------------------------------------------------------

  /** One step of the checker's scan of a unit: hash holds the values of the
      tiles visited so far, none of them empty or repeated, and value is the
      next tile's value. If it is empty or already seen, the whole unit fails
      (the pass may stop there); otherwise adding it to hash keeps the set
      exact and the prefix passing. */
  lemma ScanNext(u: seq<int>, k: int, hash: set<int>, value: int)
    requires 0 <= k < |u| && value == u[k]
    requires hash == Elems(u[..k]) && UnitOk(u[..k])
    ensures value == Empty || value in hash ==> !UnitOk(u)
    ensures !(value == Empty || value in hash) ==>
      hash + {value} == Elems(u[..k + 1]) && UnitOk(u[..k + 1])
  {
  }

  // ---------------------------------------------------------------------------
  // Empty tiles
  // ---------------------------------------------------------------------------

  /** The box that holds tile (x, y), and that tile's place in the box's visiting order. */
  lemma BoxOfCell(g: Grid, x: int, y: int)
    requires IsGrid(g) && 0 <= x < 9 && 0 <= y < 9
    ensures 0 <= x / 3 < 3 && 0 <= y / 3 < 3
    ensures Box(g, x / 3, y / 3)[BoxIndex(x % 3, y % 3)] == g[x][y]
  {
  }

  /** A grid with an empty tile fails all three passes, so it is never reported solved. */
  lemma EmptyCellNeverSolved(g: Grid, x: int, y: int)
    requires IsGrid(g) && 0 <= x < 9 && 0 <= y < 9 && g[x][y] == Empty
    ensures !AllRowsOk(g) && !AllColumnsOk(g) && !AllBoxesOk(g)
    ensures !Solved(g)
  {
    assert Row(g, y)[x] == Empty;
    assert !RowOk(g, y);
    assert Column(g, x)[y] == Empty;
    assert !ColumnOk(g, x);
    BoxOfCell(g, x, y);
    assert !BoxOk(g, x / 3, y / 3);
  }

  /** The grid a cleared board holds. */
  function EmptyGrid(): (g: Grid)
    ensures IsGrid(g)
  {
    seq(9, x => seq(9, y => Empty))
  }

  /** A cleared board is not solved. */
  lemma EmptyGridNotSolved()
    ensures !Solved(EmptyGrid())
  {
    EmptyCellNeverSolved(EmptyGrid(), 0, 0);
  }

  // ---------------------------------------------------------------------------
  // Each unit is judged on its own tiles
  // ---------------------------------------------------------------------------

  /** Whether row y passes depends on row y alone; what the other rows hold,
      including the same values again, does not matter. */
  lemma RowOkLocal(g: Grid, h: Grid, y: int)
    requires IsGrid(g) && IsGrid(h) && 0 <= y < 9
    requires forall x :: 0 <= x < 9 ==> g[x][y] == h[x][y]
    ensures RowOk(g, y) <==> RowOk(h, y)
  {
  }

  /** Whether column x passes depends on column x alone. */
  lemma ColumnOkLocal(g: Grid, h: Grid, x: int)
    requires IsGrid(g) && IsGrid(h) && 0 <= x < 9
    requires forall y :: 0 <= y < 9 ==> g[x][y] == h[x][y]
    ensures ColumnOk(g, x) <==> ColumnOk(h, x)
  {
  }

  /** Whether box (boxX, boxY) passes depends only on the tiles with x in
      [3*boxX, 3*boxX+3) and y in [3*boxY, 3*boxY+3). */
  lemma BoxOkLocal(g: Grid, h: Grid, boxX: int, boxY: int)
    requires IsGrid(g) && IsGrid(h) && 0 <= boxX < 3 && 0 <= boxY < 3
    requires forall x, y :: 3 * boxX <= x < 3 * boxX + 3 && 3 * boxY <= y < 3 * boxY + 3 ==> g[x][y] == h[x][y]
    ensures BoxOk(g, boxX, boxY) <==> BoxOk(h, boxX, boxY)
  {
    forall k | 0 <= k < 9 ensures Box(g, boxX, boxY)[k] == Box(h, boxX, boxY)[k] {
      var i, j := k % 3, k / 3;
      assert k == BoxIndex(i, j);
      assert g[3 * boxX + i][3 * boxY + j] == h[3 * boxX + i][3 * boxY + j];
    }
    assert Box(g, boxX, boxY) == Box(h, boxX, boxY);
  }

  /** The grid whose every row reads 1..9 left to right. */
  function Stripes(): (g: Grid)
    ensures IsGrid(g)
  {
    seq(9, x => seq(9, y => x + 1))
  }

  /** Because the seen-set is emptied between rows, a value repeated in two
      different rows is no failure: every row of Stripes passes although each
      value occurs in all nine rows. */
  lemma RepeatAcrossRowsAllowed()
    ensures AllRowsOk(Stripes())
    ensures forall x, y :: 0 <= x < 9 && 0 <= y < 9 ==> Stripes()[x][y] == Stripes()[x][0]
  {
  }

  // ---------------------------------------------------------------------------
  // The check is the Sudoku rule
  // ---------------------------------------------------------------------------

  /** The digits a solved unit holds. */
  function Digits(): (d: set<int>)
    ensures forall v :: v in d <==> 1 <= v <= 9
  {
    {1, 2, 3, 4, 5, 6, 7, 8, 9}
  }

  predicate DigitsOnly(s: seq<int>) {
    forall i :: 0 <= i < |s| ==> 0 <= s[i] <= 9
  }

  lemma DigitsSize()
    ensures |Digits()| == 9
  {
  }

  /** A sequence has as many distinct values as elements exactly when no value repeats. */
  lemma {:induction false} DistinctSize(s: seq<int>)
    ensures |Elems(s)| <= |s|
    ensures |Elems(s)| == |s| <==> Distinct(s)
  {
    if s != [] {
      var t := s[1..];
      DistinctSize(t);
      assert Elems(s) == {s[0]} + Elems(t) by {
        forall v | v in Elems(s) ensures v in {s[0]} + Elems(t) {
          var i :| 0 <= i < |s| && s[i] == v;
          if i > 0 { assert t[i - 1] == v; }
        }
        forall v | v in Elems(t) ensures v in Elems(s) {
          var i :| 0 <= i < |t| && t[i] == v;
          assert s[i + 1] == v;
        }
      }
      if s[0] in Elems(t) {
        var i :| 0 <= i < |t| && t[i] == s[0];
        assert s[i + 1] == s[0];
        assert !Distinct(s);
      } else {
        assert Distinct(s) <==> Distinct(t) by {
          if Distinct(t) {
            forall i, j | 0 <= i < j < |s| ensures s[i] != s[j] {
              if i == 0 {
                assert s[j] == t[j - 1];
              } else {
                assert s[i] == t[i - 1] && s[j] == t[j - 1];
              }
            }
          }
          if Distinct(s) {
            forall i, j | 0 <= i < j < |t| ensures t[i] != t[j] {
              assert t[i] == s[i + 1] && t[j] == s[j + 1];
            }
          }
        }
      }
    }
  }

  /** A subset as large as its superset is the superset. */
  lemma SubsetOfSameSize(a: set<int>, b: set<int>)
    requires a <= b && |a| == |b|
    ensures a == b
  {
    assert a + b == b;
    assert a * b == a;
    assert a - b == {};
    assert |b - a| == 0;
  }

  /** For a unit of nine tiles holding digits 0..9 (0 for empty, as the board
      holds), passing the check means holding each of 1..9 exactly once. */
  lemma UnitOkIffDigits(s: seq<int>)
    requires |s| == 9 && DigitsOnly(s)
    ensures UnitOk(s) <==> Elems(s) == Digits()
  {
    DistinctSize(s);
    DigitsSize();
    if UnitOk(s) {
      assert Elems(s) <= Digits();
      SubsetOfSameSize(Elems(s), Digits());
    }
    if Elems(s) == Digits() {
      assert Empty !in Elems(s);
    }
  }

  predicate GridDigitsOnly(g: Grid)
    requires IsGrid(g)
  {
    forall x, y :: 0 <= x < 9 && 0 <= y < 9 ==> 0 <= g[x][y] <= 9
  }

  /** For a board of digits, the three passes together decide the Sudoku rule:
      every row, every column and every box holds 1..9 exactly once. */
  lemma SolvedIffSudoku(g: Grid)
    requires IsGrid(g) && GridDigitsOnly(g)
    ensures Solved(g) <==>
      (forall y :: 0 <= y < 9 ==> Elems(Row(g, y)) == Digits()) &&
      (forall x :: 0 <= x < 9 ==> Elems(Column(g, x)) == Digits()) &&
      (forall boxX, boxY :: 0 <= boxX < 3 && 0 <= boxY < 3 ==> Elems(Box(g, boxX, boxY)) == Digits())
  {
    forall y | 0 <= y < 9 ensures RowOk(g, y) <==> Elems(Row(g, y)) == Digits() {
      UnitOkIffDigits(Row(g, y));
    }
    forall x | 0 <= x < 9 ensures ColumnOk(g, x) <==> Elems(Column(g, x)) == Digits() {
      UnitOkIffDigits(Column(g, x));
    }
    forall boxX, boxY | 0 <= boxX < 3 && 0 <= boxY < 3 ensures BoxOk(g, boxX, boxY) <==> Elems(Box(g, boxX, boxY)) == Digits() {
      UnitOkIffDigits(Box(g, boxX, boxY));
    }
  }

  // ---------------------------------------------------------------------------
  // Two witnesses: a solved board, and why the box pass is needed
  // ---------------------------------------------------------------------------

  /** The digit n + 1 brought back into 1..9, for n in 0..17. */
  function Wrap(n: int): int {
    if n < 9 then n + 1 else n - 8
  }

  /** Shifting two different values of 0..8 by the same amount in 0..8 keeps
      their wrapped digits different. */
  lemma ShiftDistinct(a: int, b: int, c: int)
    requires 0 <= a < 9 && 0 <= b < 9 && a != b && 0 <= c < 9
    ensures Wrap(a + c) != Wrap(b + c)
  {
  }

  /** How far the standard solution rotates row y. */
  function Shift(y: int): (s: int)
    requires 0 <= y < 9
    ensures 0 <= s < 9
  {
    3 * (y % 3) + y / 3
  }

  /** Rows of the same row of boxes are rotated by 3 apart; row j of box row boxY by 3 * j + boxY. */
  lemma ShiftInBox(boxY: int, j: int)
    requires 0 <= boxY < 3 && 0 <= j < 3
    ensures Shift(3 * boxY + j) == BoxIndex(boxY, j)
  {
    assert (3 * boxY + j) % 3 == j && (3 * boxY + j) / 3 == boxY;
  }

  /** Every place of a box's visiting order is BoxIndex of one (i, j). */
  lemma BoxIndexOnto(k: int)
    requires 0 <= k < 9
    ensures exists i, j :: 0 <= i < 3 && 0 <= j < 3 && BoxIndex(i, j) == k
  {
    assert BoxIndex(k % 3, k / 3) == k;
  }

  /** The nine rows are rotated by nine different amounts in 0..8. */
  lemma ShiftDistinctRows(a: int, b: int)
    requires 0 <= a < b < 9
    ensures 0 <= Shift(a) < 9 && 0 <= Shift(b) < 9 && Shift(a) != Shift(b)
  {
    assert Shift(a) == BoxIndex(a / 3, a % 3) && Shift(b) == BoxIndex(b / 3, b % 3);
    assert a == BoxIndex(a % 3, a / 3) && b == BoxIndex(b % 3, b / 3);
  }

  /** The standard solution: row y is 1..9 rotated by Shift(y). */
  function Canonical(): (g: Grid)
    ensures IsGrid(g)
    ensures forall x, y :: 0 <= x < 9 && 0 <= y < 9 ==> g[x][y] == Wrap(x + Shift(y))
  {
    seq(9, x => seq(9, y requires 0 <= y < 9 => Wrap(x + Shift(y))))
  }

  lemma CanonicalRowsOk()
    ensures AllRowsOk(Canonical())
  {
    var g := Canonical();
    forall y | 0 <= y < 9 ensures RowOk(g, y) {
      var r := Row(g, y);
      forall a, b | 0 <= a < b < 9 ensures r[a] != r[b] {
        ShiftDistinct(a, b, Shift(y));
      }
    }
  }

  lemma CanonicalColumnsOk()
    ensures AllColumnsOk(Canonical())
  {
    var g := Canonical();
    forall x | 0 <= x < 9 ensures ColumnOk(g, x) {
      var c := Column(g, x);
      forall a, b | 0 <= a < b < 9 ensures c[a] != c[b] {
        ShiftDistinctRows(a, b);
        ShiftDistinct(Shift(a), Shift(b), x);
      }
    }
  }

  /** Tile (i, j) of box (boxX, boxY) of the standard solution. */
  lemma CanonicalBoxTile(boxX: int, boxY: int, i: int, j: int)
    requires 0 <= boxX < 3 && 0 <= boxY < 3 && 0 <= i < 3 && 0 <= j < 3
    ensures Canonical()[3 * boxX + i][3 * boxY + j] == Wrap(BoxIndex(i, j) + 3 * boxX + boxY)
  {
    ShiftInBox(boxY, j);
  }

  /** Place k of box (boxX, boxY) of the standard solution. */
  lemma CanonicalBoxAt(boxX: int, boxY: int, k: int)
    requires 0 <= boxX < 3 && 0 <= boxY < 3 && 0 <= k < 9
    ensures Box(Canonical(), boxX, boxY)[k] == Wrap(k + 3 * boxX + boxY)
  {
    BoxIndexOnto(k);
    var i, j :| 0 <= i < 3 && 0 <= j < 3 && BoxIndex(i, j) == k;
    CanonicalBoxTile(boxX, boxY, i, j);
  }

  lemma CanonicalBoxOk(boxX: int, boxY: int)
    requires 0 <= boxX < 3 && 0 <= boxY < 3
    ensures BoxOk(Canonical(), boxX, boxY)
  {
    var box := Box(Canonical(), boxX, boxY);
    forall a, b | 0 <= a < b < 9 ensures box[a] != box[b] {
      CanonicalBoxAt(boxX, boxY, a);
      CanonicalBoxAt(boxX, boxY, b);
      ShiftDistinct(a, b, 3 * boxX + boxY);
    }
  }

  /** A board holding a complete valid solution passes all three passes. */
  lemma CanonicalSolved()
    ensures GridDigitsOnly(Canonical())
    ensures Solved(Canonical())
  {
    CanonicalRowsOk();
    CanonicalColumnsOk();
    forall boxX, boxY | 0 <= boxX < 3 && 0 <= boxY < 3 ensures BoxOk(Canonical(), boxX, boxY) {
      CanonicalBoxOk(boxX, boxY);
    }
  }

  /** The Latin square with Wrap(x + y) in tile (x, y). */
  function Latin(): (g: Grid)
    ensures IsGrid(g)
    ensures forall x, y :: 0 <= x < 9 && 0 <= y < 9 ==> g[x][y] == Wrap(x + y)
  {
    seq(9, x => seq(9, y => Wrap(x + y)))
  }

  /** Rows and columns alone do not make a solution: every row and column of
      Latin passes, yet its top-left box holds 2 twice, so the box pass fails. */
  lemma BoxPassNeeded()
    ensures AllRowsOk(Latin()) && AllColumnsOk(Latin())
    ensures !BoxOk(Latin(), 0, 0) && !Solved(Latin())
  {
    var g := Latin();
    forall y | 0 <= y < 9 ensures RowOk(g, y) {
      var r := Row(g, y);
      forall a, b | 0 <= a < b < 9 ensures r[a] != r[b] {
        ShiftDistinct(a, b, y);
      }
    }
    forall x | 0 <= x < 9 ensures ColumnOk(g, x) {
      var c := Column(g, x);
      forall a, b | 0 <= a < b < 9 ensures c[a] != c[b] {
        ShiftDistinct(a, b, x);
      }
    }
    var box := Box(g, 0, 0);
    assert box[BoxIndex(1, 0)] == g[1][0] == 2 == g[0][1] == box[BoxIndex(0, 1)];
  }
}
