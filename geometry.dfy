/**
 * Grid geometry shared by the battle screens and the battle servers:
 * the Chebyshev distance used as "hex distance", the one-step approach of an
 * enemy toward the player, and the neighbours of a cell in an offset hex grid
 * whose even and odd columns are shifted by half a row.
 */
module Geometry {
  import opened Common

  /** max(|dcol|, |drow|): the distance every battle screen and server uses. */
  function Chebyshev(a: Cell, b: Cell): (d: nat)
    ensures Abs(a.col - b.col) <= d && Abs(a.row - b.row) <= d
    ensures d == Abs(a.col - b.col) || d == Abs(a.row - b.row)
  {
    if Abs(a.col - b.col) < Abs(a.row - b.row) then Abs(a.row - b.row) else Abs(a.col - b.col)
  }

  /** The squared straight-line distance; the square root is monotone, so comparisons agree. */
  function Dist2(a: Cell, b: Cell): nat
  {
    (a.col - b.col) * (a.col - b.col) + (a.row - b.row) * (a.row - b.row)
  }

  lemma ChebyshevSymmetric(a: Cell, b: Cell)
    ensures Chebyshev(a, b) == Chebyshev(b, a)
  {
  }

  lemma ChebyshevZeroIffEqual(a: Cell, b: Cell)
    ensures Chebyshev(a, b) == 0 <==> a == b
  {
  }

  lemma ChebyshevTriangle(a: Cell, b: Cell, c: Cell)
    ensures Chebyshev(a, c) <= Chebyshev(a, b) + Chebyshev(b, c)
  {
  }

  /** Move one coordinate one unit toward a target value, never past it. */
  function StepCoord(x: int, target: int): (y: int)
    ensures Abs(y - x) <= 1
    ensures Abs(y - target) == if x == target then 0 else Abs(x - target) - 1
  {
    if x < target then x + 1 else if x > target then x - 1 else x
  }

  /**
   * One step of the "move toward the player" rule: each coordinate moves at
   * most one unit toward the player's and never overshoots it.
   */
  function StepToward(from: Cell, to: Cell): (next: Cell)
    ensures Chebyshev(from, next) <= 1
    ensures Abs(next.col - to.col) == if from.col == to.col then 0 else Abs(from.col - to.col) - 1
    ensures Abs(next.row - to.row) == if from.row == to.row then 0 else Abs(from.row - to.row) - 1
  {
    Cell(StepCoord(from.col, to.col), StepCoord(from.row, to.row))
  }

  /** A positive distance shrinks by exactly one per step; a zero one stays zero. */
  lemma StepTowardCloses(from: Cell, to: Cell)
    ensures Chebyshev(StepToward(from, to), to) == if from == to then 0 else Chebyshev(from, to) - 1
  {
  }

  /** The six candidate neighbours, in the order both implementations list them. */
  function Candidates(c: Cell): seq<Cell>
  {
    if c.col % 2 == 0 then
      [Cell(c.col, c.row - 1), Cell(c.col, c.row + 1), Cell(c.col + 1, c.row - 1),
       Cell(c.col + 1, c.row), Cell(c.col - 1, c.row - 1), Cell(c.col - 1, c.row)]
    else
      [Cell(c.col, c.row - 1), Cell(c.col, c.row + 1), Cell(c.col + 1, c.row),
       Cell(c.col + 1, c.row + 1), Cell(c.col - 1, c.row), Cell(c.col - 1, c.row + 1)]
  }

  predicate InGrid(c: Cell, cols: int, rows: int)
  {
    0 <= c.col < cols && 0 <= c.row < rows
  }

  /** The cells of `s` that lie inside the grid, in their original order. */
  function KeepInGrid(s: seq<Cell>, cols: int, rows: int): (r: seq<Cell>)
    ensures |r| <= |s|
  {
    if s == [] then []
    else if InGrid(s[0], cols, rows) then [s[0]] + KeepInGrid(s[1..], cols, rows)
    else KeepInGrid(s[1..], cols, rows)
  }

  /** `KeepInGrid` keeps exactly the cells of `s` inside the grid. */
  lemma {:induction false} KeepInGridMembers(s: seq<Cell>, cols: int, rows: int)
    ensures forall x :: x in KeepInGrid(s, cols, rows) <==> x in s && InGrid(x, cols, rows)
  {
    if s != [] {
      KeepInGridMembers(s[1..], cols, rows);
      assert forall x :: x in s <==> x == s[0] || x in s[1..];
    }
  }

  /** The in-grid neighbours of `c` in a grid of `cols` x `rows` cells. */
  function Neighbors(c: Cell, cols: int, rows: int): (ns: seq<Cell>)
    ensures |ns| <= 6
    ensures c !in ns
    ensures forall n {:trigger n in ns} :: n in ns ==> InGrid(n, cols, rows) && Chebyshev(c, n) == 1
  {
    KeepInGridMembers(Candidates(c), cols, rows);
    KeepInGrid(Candidates(c), cols, rows)
  }

  /** The neighbours are exactly the candidate cells that lie inside the grid. */
  lemma NeighborsMembers(c: Cell, cols: int, rows: int)
    ensures forall n :: n in Neighbors(c, cols, rows) <==> n in Candidates(c) && InGrid(n, cols, rows)
  {
    KeepInGridMembers(Candidates(c), cols, rows);
  }

  lemma ParityStep(x: int)
    ensures (x + 1) % 2 == 0 <==> x % 2 != 0
    ensures (x - 1) % 2 == 0 <==> x % 2 != 0
  {
  }

  /** Being neighbours is symmetric for cells inside the grid. */
  lemma NeighborsSymmetric(a: Cell, b: Cell, cols: int, rows: int)
    requires InGrid(a, cols, rows)
    requires b in Neighbors(a, cols, rows)
    ensures a in Neighbors(b, cols, rows)
  {
    NeighborsMembers(a, cols, rows);
    NeighborsMembers(b, cols, rows);
    ParityStep(a.col);
    assert a in Candidates(b);
  }

  // ---------------------------------------------------------------------------
  // Reachability through a neighbour function

  /** The cells reachable from `start` in at most `d` neighbour steps. */
  ghost function Ball(start: Cell, d: nat, adj: Cell -> seq<Cell>): set<Cell>
  {
    if d == 0 then {start}
    else
      var b := Ball(start, d - 1, adj);
      b + Step(b, adj)
  }

  /** The neighbours of the cells of `b`. */
  ghost function Step(b: set<Cell>, adj: Cell -> seq<Cell>): set<Cell>
  {
    set c, n | c in b && n in adj(c) :: n
  }

  lemma {:induction false} BallGrows(start: Cell, d: nat, e: nat, adj: Cell -> seq<Cell>)
    requires d <= e
    ensures Ball(start, d, adj) <= Ball(start, e, adj)
    decreases e - d
  {
    if d < e {
      BallWidens(start, d + 1, adj);
      BallGrows(start, d + 1, e, adj);
    }
  }

  lemma BallWidens(start: Cell, e: nat, adj: Cell -> seq<Cell>)
    requires e > 0
    ensures Ball(start, e - 1, adj) <= Ball(start, e, adj)
  {
  }

  lemma BallStep(start: Cell, d: nat, c: Cell, n: Cell, adj: Cell -> seq<Cell>)
    requires c in Ball(start, d, adj) && n in adj(c)
    ensures n in Ball(start, d + 1, adj)
  {
    var b := Ball(start, d, adj);
    assert n in Step(b, adj);
  }

  /** A cell of a ball is in the smaller ball, or a neighbour of a cell `c` of it. */
  lemma BallCases(start: Cell, d: nat, n: Cell, adj: Cell -> seq<Cell>) returns (inner: bool, c: Cell)
    requires d > 0 && n in Ball(start, d, adj)
    ensures inner ==> n in Ball(start, d - 1, adj)
    ensures !inner ==> c in Ball(start, d - 1, adj) && n in adj(c)
  {
    var b := Ball(start, d - 1, adj);
    assert Ball(start, d, adj) == b + Step(b, adj);
    inner := n in b;
    c := start;
    if !inner {
      assert n in Step(b, adj);
      c :| c in b && n in adj(c);
    }
  }

  /** Through a neighbour function whose steps move one unit, `d` steps reach Chebyshev distance at most `d`. */
  lemma {:induction false} BallWithinSteps(start: Cell, d: nat, n: Cell, adj: Cell -> seq<Cell>)
    requires forall c, m :: m in adj(c) ==> Chebyshev(c, m) <= 1
    requires n in Ball(start, d, adj)
    ensures Chebyshev(start, n) <= d
  {
    if d == 0 {
      assert n == start;
      ChebyshevZeroIffEqual(start, start);
    } else {
      var inner, c := BallCases(start, d, n, adj);
      if inner {
        BallWithinSteps(start, d - 1, n, adj);
      } else {
        BallWithinSteps(start, d - 1, c, adj);
        ChebyshevTriangle(start, c, n);
      }
    }
  }
}
