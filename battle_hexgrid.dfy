/**
 * The grid rules of the second battle screen, battle_hexgrid.js: Chebyshev
 * distance and adjacency, the cells within a radius, the cost of a drawn
 * path, and the step that extends or cuts back the path as the mouse moves.
 * The page globals and the handlers that change them are the class
 * `BattleCombat.BattlePage`.
 */
module BattleGrid {
  import opened Common
  import Geometry
  import HexGrid

  /** `getDistance`: the larger of the two coordinate differences. */
  function GetDistance(col1: int, row1: int, col2: int, row2: int): (d: nat)
    ensures d == Geometry.Chebyshev(Cell(col1, row1), Cell(col2, row2))
    ensures d == 0 <==> col1 == col2 && row1 == row2
  {
    Geometry.ChebyshevZeroIffEqual(Cell(col1, row1), Cell(col2, row2));
    Max(Abs(col2 - col1), Abs(row2 - row1))
  }

  /** `isCellAdjacent`: at most one column and one row apart, the cell itself included. */
  predicate IsCellAdjacent(a: Cell, b: Cell)
  {
    GetDistance(a.col, a.row, b.col, b.row) <= 1
  }

  /** Adjacency is reflexive and symmetric, and every hex neighbour of the other screen is adjacent here. */
  lemma AdjacencyFacts(a: Cell, b: Cell, cols: int, rows: int)
    ensures IsCellAdjacent(a, a)
    ensures IsCellAdjacent(a, b) <==> IsCellAdjacent(b, a)
    ensures b in Geometry.Neighbors(a, cols, rows) ==> IsCellAdjacent(a, b)
  {
    Geometry.ChebyshevSymmetric(a, b);
  }

  /** The cell at column 0, row 0 is adjacent to (1, 1) here although the offset hex grid does not join them. */
  lemma AdjacencyWiderThanHex(cols: int, rows: int)
    ensures IsCellAdjacent(Cell(0, 0), Cell(1, 1))
    ensures Cell(1, 1) !in Geometry.Neighbors(Cell(0, 0), cols, rows)
  {
    Geometry.NeighborsMembers(Cell(0, 0), cols, rows);
    assert Cell(1, 1) !in Geometry.Candidates(Cell(0, 0));
  }

  // ---------------------------------------------------------------------------
  // Cells within a radius

  /** `a` comes before `b` in the column-by-column order of the nested loops. */
  predicate Before(a: Cell, b: Cell)
  {
    a.col < b.col || (a.col == b.col && a.row < b.row)
  }

  /** Strictly increasing in column-by-column order, hence free of duplicates. */
  predicate ColumnMajor(s: seq<Cell>)
  {
    forall i, j :: 0 <= i < j < |s| ==> Before(s[i], s[j])
  }

  /** A grid cell within `radius` of `center`. */
  predicate Within(c: Cell, center: Cell, radius: int, cols: int, rows: int)
  {
    0 <= c.col < cols && 0 <= c.row < rows && Geometry.Chebyshev(center, c) <= radius
  }

  /**
   * `getCellsInAOE` (and the same loops in `highlightCellsInRange`): every
   * grid cell within `radius` of `center`, column by column, each once.
   */
  method CellsWithin(center: Cell, radius: int, cols: int, rows: int) returns (cells: seq<Cell>)
    ensures forall c :: c in cells <==> Within(c, center, radius, cols, rows)
    ensures ColumnMajor(cells)
  {
    cells := [];
    var col := 0;
    while col < cols
      invariant cols <= 0 || 0 <= col <= cols
      invariant forall c :: c in cells <==> c.col < col && Within(c, center, radius, cols, rows)
      invariant ColumnMajor(cells)
      invariant forall c :: c in cells ==> c.col < col
    {
      var row := 0;
      while row < rows
        invariant rows <= 0 || 0 <= row <= rows
        invariant forall c :: c in cells <==>
                    (c.col < col || (c.col == col && c.row < row)) && Within(c, center, radius, cols, rows)
        invariant ColumnMajor(cells)
        invariant forall c :: c in cells ==> Before(c, Cell(col, row))
      {
        if GetDistance(center.col, center.row, col, row) <= radius {
          cells := cells + [Cell(col, row)];
        }
        row := row + 1;
      }
      col := col + 1;
    }
  }

  // ---------------------------------------------------------------------------
  // Path cost

  /** The cost `calculatePathCost` adds up: nothing for a single cell, the per-hex cost for every later one. */
  function PathCost(length: nat, t: HexGrid.Terrain): (cost: nat)
    ensures cost == 0 <==> length <= 1
  {
    if length <= 1 then 0 else (length - 1) * HexGrid.HexCost(t)
  }

  /** Both battle screens charge the same for a path of the same length. */
  lemma PathCostAgrees(length: nat, t: HexGrid.Terrain)
    requires length >= 2
    ensures PathCost(length, t) == HexGrid.MoveCost(length - 1, t)
  {
  }

  /** A longer path never costs less. */
  lemma PathCostMonotone(m: nat, n: nat, t: HexGrid.Terrain)
    requires m <= n
    ensures PathCost(m, t) <= PathCost(n, t)
  {
    if m >= 2 {
      assert (m - 1) * HexGrid.HexCost(t) <= (n - 1) * HexGrid.HexCost(t);
    }
  }

  /** `calculatePathCost`: the loop adding base cost times terrain multiplier for each step. */
  method CalculatePathCost(path: seq<Cell>, t: HexGrid.Terrain) returns (cost: nat)
    ensures cost == PathCost(|path|, t)
  {
    if |path| <= 1 {
      return 0;
    }
    cost := 0;
    var i := 1;
    while i < |path|
      invariant 1 <= i <= |path|
      invariant cost == (i - 1) * HexGrid.HexCost(t)
    {
      cost := cost + HexGrid.HexCost(t);
      i := i + 1;
    }
  }

  // ---------------------------------------------------------------------------
  // Drawing a path

  /** A drawn path: no cell twice, each cell adjacent to the one before. */
  predicate Drawable(path: seq<Cell>)
  {
    (forall i, j :: 0 <= i < j < |path| ==> path[i] != path[j]) &&
    (forall i :: 1 <= i < |path| ==> IsCellAdjacent(path[i - 1], path[i]))
  }

  /** `findIndex`: the first position holding `cell`. */
  function IndexOf(path: seq<Cell>, cell: Cell): (i: nat)
    requires cell in path
    ensures i < |path| && path[i] == cell
    ensures forall j :: 0 <= j < i ==> path[j] != cell
  {
    if path[0] == cell then 0 else 1 + IndexOf(path[1..], cell)
  }

  /**
   * The path-editing step of `handleMouseMove`: a hovered cell adjacent to
   * the last cell is appended when new, and otherwise cuts the path back to
   * it; any other cell leaves the path alone. An empty path is left alone too
   * (the handler would fail on its missing last cell).
   */
  function EditPath(path: seq<Cell>, cell: Cell): seq<Cell>
  {
    if path == [] || !IsCellAdjacent(path[|path| - 1], cell) then path
    else if cell !in path then path + [cell]
    else path[..IndexOf(path, cell) + 1]
  }

  /** Editing keeps a drawable path drawable, keeps its first cell, and ends it on the hovered cell when adjacent. */
  lemma EditKeepsDrawable(path: seq<Cell>, cell: Cell)
    requires Drawable(path)
    ensures Drawable(EditPath(path, cell))
    ensures path != [] ==> EditPath(path, cell) != [] && EditPath(path, cell)[0] == path[0]
    ensures path != [] && IsCellAdjacent(path[|path| - 1], cell) ==> EditPath(path, cell)[|EditPath(path, cell)| - 1] == cell
    ensures path != [] && !IsCellAdjacent(path[|path| - 1], cell) ==> EditPath(path, cell) == path
  {
    if path != [] && IsCellAdjacent(path[|path| - 1], cell) {
      if cell !in path {
        var r := path + [cell];
        forall i, j | 0 <= i < j < |r| ensures r[i] != r[j] {
          if j == |path| {
            assert r[i] in path;
          } else {
            assert r[i] == path[i] && r[j] == path[j];
          }
        }
        forall i | 1 <= i < |r| ensures IsCellAdjacent(r[i - 1], r[i]) {
          if i < |path| {
            assert r[i - 1] == path[i - 1] && r[i] == path[i];
          }
        }
      }
    }
  }
}
