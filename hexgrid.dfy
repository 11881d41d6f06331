/**
 * The first battle grid script, hexgrid.js: neighbours on the configured
 * offset hex grid, the breadth-first set of cells within a number of steps,
 * the greedy path the mouse draws and the move that spends speed on it.
 * Its page globals are the fields of `HexBattle`.
 */
module HexGrid {
  import opened Common
  import Geometry

  // ---------------------------------------------------------------------------
  // Terrain and movement cost

  /** A terrain's movement multiplier as an exact fraction. */
  datatype Ratio = Ratio(num: nat, den: nat)

  datatype Terrain = Cave | Forest | Desert | Winter

  /** The configured multipliers: 1.0 everywhere except the desert's 1.2. */
  function MovementCost(t: Terrain): (r: Ratio)
    ensures r.num >= 1 && r.den >= 1
  {
    match t
    case Desert => Ratio(6, 5)
    case _ => Ratio(1, 1)
  }

  /** The base cost of one hex of movement. */
  const BaseCost := 5

  /** `Math.floor(x * multiplier)` for the exact multiplier. */
  function Scaled(x: int, m: Ratio): int
    requires m.den >= 1
  {
    (x * m.num) / m.den
  }

  /** The per-hex cost in the configured terrains: 5, or 6 in the desert. */
  function HexCost(t: Terrain): nat
  {
    if t == Desert then 6 else 5
  }

  /** `Math.floor(steps * base_cost * movement_cost)`, a whole multiple of the per-hex cost. */
  function MoveCost(steps: nat, t: Terrain): (r: nat)
    ensures r == steps * HexCost(t)
  {
    var m := MovementCost(t);
    assert steps * BaseCost * m.num == (steps * HexCost(t)) * m.den;
    Scaled(steps * BaseCost, m)
  }

  /** `Math.floor(speed / (base_cost * movement_cost))`: the most hexes the speed pays for. */
  function MaxSteps(speed: int, t: Terrain): (r: int)
    ensures r * HexCost(t) <= speed < (r + 1) * HexCost(t)
  {
    var m := MovementCost(t);
    (speed * m.den) / (BaseCost * m.num)
  }

  /** Whatever `MaxSteps` allows, `MoveCost` charges no more than the speed it came from. */
  lemma BudgetCoversPath(speed: int, t: Terrain, steps: nat)
    requires steps <= MaxSteps(speed, t)
    ensures MoveCost(steps, t) <= speed
  {
    assert steps * HexCost(t) <= MaxSteps(speed, t) * HexCost(t);
  }

  // ---------------------------------------------------------------------------
  // Cells within a number of steps
  //
  // The search and the ball it reaches are stated for any neighbour function
  // `adj`; the grid's own is `GridNeighbors`.

  /** The neighbour function of a `cols` x `rows` grid. */
  function GridNeighbors(cols: int, rows: int): Cell -> seq<Cell>
  {
    c => Geometry.Neighbors(c, cols, rows)
  }

  /**
   * A cell within `d` neighbour steps of the grid is within Chebyshev
   * distance `d`: the range of hexgrid.js never reaches further than the
   * distance of the other battle screens.
   */
  lemma BallWithinChebyshev(start: Cell, d: nat, n: Cell, cols: int, rows: int)
    requires n in Geometry.Ball(start, d, GridNeighbors(cols, rows))
    ensures Geometry.Chebyshev(start, n) <= d
  {
    var adj := GridNeighbors(cols, rows);
    forall c, m | m in adj(c) ensures Geometry.Chebyshev(c, m) <= 1 {
      assert m in Geometry.Neighbors(c, cols, rows);
    }
    Geometry.BallWithinSteps(start, d, n, adj);
  }

  /** The grid's cells. */
  function GridCells(cols: int, rows: int): set<Cell>
  {
    set col: int, row: int | 0 <= col < cols && 0 <= row < rows :: Cell(col, row)
  }

  lemma NeighborsInGrid(c: Cell, n: Cell, cols: int, rows: int)
    requires n in Geometry.Neighbors(c, cols, rows)
    ensures n in GridCells(cols, rows)
  {
    assert n == Cell(n.col, n.row);
  }

  /** The neighbours of `c` not yet visited, queued one step further than `c`. */
  function Fresh(ns: seq<Cell>, visited: set<Cell>, d: int): seq<(Cell, int)>
  {
    if ns == [] then []
    else (if ns[0] in visited then [] else [(ns[0], d)]) + Fresh(ns[1..], visited, d)
  }

  /** Exactly the unvisited neighbours are queued, each at distance `d`. */
  lemma {:induction false} FreshMembers(ns: seq<Cell>, visited: set<Cell>, d: int)
    ensures forall e :: e in Fresh(ns, visited, d) ==> e.1 == d && e.0 in ns && e.0 !in visited
    ensures forall n :: n in ns && n !in visited ==> (n, d) in Fresh(ns, visited, d)
  {
    if ns != [] {
      FreshMembers(ns[1..], visited, d);
      forall n | n in ns && n !in visited ensures (n, d) in Fresh(ns, visited, d) {
        if n != ns[0] {
          assert n in ns[1..];
        }
      }
    }
  }

  /** The inner loop of `getCellsInRange`. */
  method QueueFresh(ns: seq<Cell>, visited: set<Cell>, d: int, queue: seq<(Cell, int)>) returns (q: seq<(Cell, int)>)
    ensures q == queue + Fresh(ns, visited, d)
  {
    q := queue;
    var i := 0;
    assert ns[0..] == ns;
    while i < |ns|
      invariant 0 <= i <= |ns|
      invariant q + Fresh(ns[i..], visited, d) == queue + Fresh(ns, visited, d)
    {
      assert ns[i..][1..] == ns[i + 1..];
      var head: seq<(Cell, int)> := if ns[i] in visited then [] else [(ns[i], d)];
      assert Fresh(ns[i..], visited, d) == head + Fresh(ns[i + 1..], visited, d);
      assert (q + head) + Fresh(ns[i + 1..], visited, d) == q + (head + Fresh(ns[i + 1..], visited, d));
      q := q + head;
      i := i + 1;
    }
  }

  /** Every queued cell is reachable within its queued distance. */
  ghost predicate QueueSound(start: Cell, queue: seq<(Cell, int)>, adj: Cell -> seq<Cell>)
  {
    forall i :: 0 <= i < |queue| ==> queue[i].1 >= 0 && queue[i].0 in Geometry.Ball(start, queue[i].1, adj)
  }

  /** Queued distances never decrease and span at most one step. */
  predicate Layered(queue: seq<(Cell, int)>)
  {
    (forall i, j :: 0 <= i <= j < |queue| ==> queue[i].1 <= queue[j].1) &&
    (forall i :: 0 <= i < |queue| ==> queue[i].1 <= queue[0].1 + 1)
  }

  /** Every visited cell is reachable within its recorded distance. */
  ghost predicate VisitedSound(start: Cell, rd: map<Cell, int>, adj: Cell -> seq<Cell>)
  {
    forall v :: v in rd ==> rd[v] >= 0 && v in Geometry.Ball(start, rd[v], adj)
  }

  /** No visited cell was recorded further than the head of the queue. */
  predicate Behind(rd: map<Cell, int>, queue: seq<(Cell, int)>)
  {
    queue != [] ==> forall v :: v in rd ==> rd[v] <= queue[0].1
  }

  /** A neighbour of `v` is visited at most one step further, or waits in the queue at most one step further. */
  predicate Covered(rd: map<Cell, int>, queue: seq<(Cell, int)>, v: Cell, n: Cell)
    requires v in rd
  {
    (n in rd && rd[n] <= rd[v] + 1) || exists i :: 0 <= i < |queue| && queue[i].0 == n && queue[i].1 <= rd[v] + 1
  }

  /** Every neighbour of a visited cell inside the range is covered. */
  predicate Closed(range: int, rd: map<Cell, int>, queue: seq<(Cell, int)>, adj: Cell -> seq<Cell>)
  {
    forall v, n :: v in rd && rd[v] <= range && n in adj(v) ==> Covered(rd, queue, v, n)
  }

  lemma LayeredTail(queue: seq<(Cell, int)>)
    requires Layered(queue) && queue != []
    ensures Layered(queue[1..])
    ensures queue[1..] != [] ==> queue[0].1 <= queue[1..][0].1
  {
  }

  lemma BehindTail(rd: map<Cell, int>, queue: seq<(Cell, int)>, c: Cell, d: int)
    requires Layered(queue) && Behind(rd, queue) && queue != [] && d <= queue[0].1
    ensures Behind(rd[c := d], queue[1..])
  {
    if queue[1..] != [] {
      assert queue[1..][0] == queue[1];
    }
  }

  /** Dropping the head keeps coverage when the head's cell is (now) visited no further than its distance. */
  lemma ClosedTail(range: int, rd: map<Cell, int>, queue: seq<(Cell, int)>, c: Cell, d: int, x: int, adj: Cell -> seq<Cell>)
    requires Closed(range, rd, queue, adj) && Behind(rd, queue) && queue != [] && queue[0] == (c, d)
    requires x <= d && (c in rd ==> x == rd[c])
    ensures forall v, n :: v in rd && rd[v] <= range && n in adj(v) ==>
              Covered(rd[c := x], queue[1..], v, n)
  {
    var rd' := rd[c := x];
    var q := queue[1..];
    forall v, n | v in rd && rd[v] <= range && n in adj(v)
      ensures Covered(rd', q, v, n)
    {
      assert Covered(rd, queue, v, n);
      assert rd'[v] == rd[v];
      if !(n in rd && rd[n] <= rd[v] + 1) {
        var i :| 0 <= i < |queue| && queue[i].0 == n && queue[i].1 <= rd[v] + 1;
        if i == 0 {
          assert n == c && rd'[n] <= d;
        } else {
          assert q[i - 1] == queue[i];
        }
      } else if n == c {
        assert rd'[n] <= rd[n];
      }
    }
  }

  lemma SkipVisited(start: Cell, range: int, rd: map<Cell, int>, queue: seq<(Cell, int)>, adj: Cell -> seq<Cell>)
    requires QueueSound(start, queue, adj) && Layered(queue) && Behind(rd, queue)
    requires Closed(range, rd, queue, adj)
    requires queue != [] && queue[0].0 in rd
    ensures QueueSound(start, queue[1..], adj) && Layered(queue[1..]) && Behind(rd, queue[1..])
    ensures Closed(range, rd, queue[1..], adj)
  {
    var c, d := queue[0].0, queue[0].1;
    LayeredTail(queue);
    BehindTail(rd, queue, c, rd[c]);
    assert rd[c := rd[c]] == rd;
    ClosedTail(range, rd, queue, c, d, rd[c], adj);
  }

  lemma VisitFar(start: Cell, range: int, rd: map<Cell, int>, queue: seq<(Cell, int)>, adj: Cell -> seq<Cell>)
    requires QueueSound(start, queue, adj) && Layered(queue) && Behind(rd, queue)
    requires VisitedSound(start, rd, adj) && Closed(range, rd, queue, adj)
    requires queue != [] && queue[0].0 !in rd && queue[0].1 > range
    ensures var rd' := rd[queue[0].0 := queue[0].1];
      QueueSound(start, queue[1..], adj) && Layered(queue[1..]) && Behind(rd', queue[1..]) &&
      VisitedSound(start, rd', adj) && Closed(range, rd', queue[1..], adj)
  {
    var c, d := queue[0].0, queue[0].1;
    var rd' := rd[c := d];
    LayeredTail(queue);
    BehindTail(rd, queue, c, d);
    ClosedTail(range, rd, queue, c, d, d, adj);
  }

  /** Visiting a cell inside the range: the queue side. */
  lemma NearQueue(start: Cell, queue: seq<(Cell, int)>, added: seq<(Cell, int)>, adj: Cell -> seq<Cell>)
    requires QueueSound(start, queue, adj) && Layered(queue) && queue != []
    requires forall e :: e in added ==> e.1 == queue[0].1 + 1 && e.0 in adj(queue[0].0)
    ensures QueueSound(start, queue[1..] + added, adj) && Layered(queue[1..] + added)
  {
    var c, d := queue[0].0, queue[0].1;
    assert d >= 0 && c in Geometry.Ball(start, d, adj);
    QueueSoundAppend(start, c, d, queue[1..], added, adj);
    LayeredAppend(d, queue, added);
  }

  /** Visiting a cell inside the range: nothing visited lies beyond the new head. */
  lemma NearBehind(rd: map<Cell, int>, queue: seq<(Cell, int)>, added: seq<(Cell, int)>)
    requires Behind(rd, queue) && Layered(queue) && queue != []
    requires forall e :: e in added ==> e.1 == queue[0].1 + 1
    ensures Behind(rd[queue[0].0 := queue[0].1], queue[1..] + added)
  {
    LayeredAppend(queue[0].1, queue, added);
  }

  /** Visiting a cell inside the range: the coverage side. */
  lemma NearClosed(range: int, rd: map<Cell, int>, queue: seq<(Cell, int)>, added: seq<(Cell, int)>, adj: Cell -> seq<Cell>)
    requires Closed(range, rd, queue, adj) && Behind(rd, queue) && Layered(queue)
    requires queue != [] && queue[0].0 !in rd
    requires forall e :: e in added ==> e.1 == queue[0].1 + 1
    requires forall n :: n in adj(queue[0].0) && n !in rd && n != queue[0].0 ==>
               (n, queue[0].1 + 1) in added
    ensures Closed(range, rd[queue[0].0 := queue[0].1], queue[1..] + added, adj)
  {
    var c, d := queue[0].0, queue[0].1;
    var rd' := rd[c := d];
    OldCellsCovered(range, rd, queue, added, adj);
    assert forall v :: v in rd' ==> rd'[v] <= d;
    NewCellCovered(rd', queue[1..], added, c, d, adj(c));
    ClosedJoin(range, rd.Keys, rd', queue[1..] + added, c, adj);
  }

  /** Visiting a cell inside the range: the cells visited before it stay covered. */
  lemma OldCellsCovered(range: int, rd: map<Cell, int>, queue: seq<(Cell, int)>, added: seq<(Cell, int)>,
                        adj: Cell -> seq<Cell>)
    requires Closed(range, rd, queue, adj) && Behind(rd, queue) && queue != [] && queue[0].0 !in rd
    ensures var rd' := rd[queue[0].0 := queue[0].1];
      forall v, n :: v in rd.Keys && rd'[v] <= range && n in adj(v) ==> Covered(rd', queue[1..] + added, v, n)
  {
    var c, d := queue[0].0, queue[0].1;
    var rd' := rd[c := d];
    ClosedTail(range, rd, queue, c, d, d, adj);
    assert forall v :: v in rd ==> rd'[v] == rd[v];
    ClosedAppend(range, rd.Keys, rd', queue[1..], added, adj);
  }

  lemma NewCellCovered(rd: map<Cell, int>, q: seq<(Cell, int)>, added: seq<(Cell, int)>, c: Cell, d: int, ns: seq<Cell>)
    requires c in rd && rd[c] == d && forall v :: v in rd ==> rd[v] <= d
    requires forall n :: n in ns && n !in rd ==> (n, d + 1) in added
    ensures forall n :: n in ns ==> Covered(rd, q + added, c, n)
  {
    forall n | n in ns ensures Covered(rd, q + added, c, n) {
      if n !in rd {
        var i :| 0 <= i < |added| && added[i] == (n, d + 1);
        assert (q + added)[|q| + i] == (n, d + 1);
      }
    }
  }

  lemma ClosedJoin(range: int, keys: set<Cell>, rd: map<Cell, int>, q: seq<(Cell, int)>, c: Cell, adj: Cell -> seq<Cell>)
    requires rd.Keys == keys + {c}
    requires forall v, n :: v in keys && rd[v] <= range && n in adj(v) ==> Covered(rd, q, v, n)
    requires forall n :: n in adj(c) ==> Covered(rd, q, c, n)
    ensures Closed(range, rd, q, adj)
  {
  }

  lemma VisitedAdd(start: Cell, rd: map<Cell, int>, c: Cell, d: int, adj: Cell -> seq<Cell>)
    requires VisitedSound(start, rd, adj) && d >= 0 && c in Geometry.Ball(start, d, adj)
    ensures VisitedSound(start, rd[c := d], adj)
  {
  }

  lemma QueueSoundAppend(start: Cell, c: Cell, d: nat, q: seq<(Cell, int)>, added: seq<(Cell, int)>, adj: Cell -> seq<Cell>)
    requires QueueSound(start, q, adj) && c in Geometry.Ball(start, d, adj)
    requires forall e :: e in added ==> e.1 == d + 1 && e.0 in adj(c)
    ensures QueueSound(start, q + added, adj)
  {
    var q' := q + added;
    forall i | |q| <= i < |q'| ensures q'[i].1 >= 0 && q'[i].0 in Geometry.Ball(start, q'[i].1, adj) {
      var e := added[i - |q|];
      assert q'[i] == e && e in added;
      Geometry.BallStep(start, d, c, e.0, adj);
    }
    forall i | 0 <= i < |q| ensures q'[i] == q[i] {
    }
  }

  lemma LayeredAppend(d: int, queue: seq<(Cell, int)>, added: seq<(Cell, int)>)
    requires Layered(queue) && queue != [] && queue[0].1 == d
    requires forall e :: e in added ==> e.1 == d + 1
    ensures Layered(queue[1..] + added)
    ensures queue[1..] + added != [] ==> d <= (queue[1..] + added)[0].1
  {
    var q' := queue[1..] + added;
    forall i | 0 <= i < |q'| ensures d <= q'[i].1 <= d + 1 {
      if i < |queue| - 1 { assert q'[i] == queue[i + 1]; } else { assert q'[i] in added; }
    }
    forall i, j | 0 <= i <= j < |q'| ensures q'[i].1 <= q'[j].1 {
      if j < |queue| - 1 {
        assert q'[i] == queue[i + 1] && q'[j] == queue[j + 1];
      } else {
        assert q'[j] in added;
      }
    }
  }

  lemma ClosedAppend(range: int, keys: set<Cell>, rd: map<Cell, int>, q: seq<(Cell, int)>, added: seq<(Cell, int)>,
                     adj: Cell -> seq<Cell>)
    requires keys <= rd.Keys
    requires forall v, n :: v in keys && rd[v] <= range && n in adj(v) ==> Covered(rd, q, v, n)
    ensures forall v, n :: v in keys && rd[v] <= range && n in adj(v) ==>
              Covered(rd, q + added, v, n)
  {
    forall v, n | v in keys && rd[v] <= range && n in adj(v)
      ensures Covered(rd, q + added, v, n)
    {
      assert Covered(rd, q, v, n);
      if !(n in rd && rd[n] <= rd[v] + 1) {
        var i :| 0 <= i < |q| && q[i].0 == n && q[i].1 <= rd[v] + 1;
        assert (q + added)[i] == q[i];
      }
    }
  }

  /** With the queue drained, a cell within `k <= range` steps was visited at distance at most `k`. */
  lemma {:induction false} Complete(start: Cell, range: int, rd: map<Cell, int>, k: nat, c: Cell, adj: Cell -> seq<Cell>)
    requires Closed(range, rd, [], adj) && start in rd && rd[start] == 0 && k <= range
    requires c in Geometry.Ball(start, k, adj)
    ensures c in rd && rd[c] <= k
  {
    if k == 0 {
      assert c == start;
    } else {
      var inner, p := Geometry.BallCases(start, k, c, adj);
      if inner {
        Complete(start, range, rd, k - 1, c, adj);
      } else {
        Complete(start, range, rd, k - 1, p, adj);
        assert Covered(rd, [], p, c);
      }
    }
  }

  lemma VisitShrinks(dom: set<Cell>, visited: set<Cell>, c: Cell)
    requires c in dom && c !in visited
    ensures |dom - (visited + {c})| < |dom - visited|
  {
    assert dom - (visited + {c}) == (dom - visited) - {c};
  }

  /** What the search of `getCellsInRange` keeps between iterations. */
  ghost predicate SearchInv(start: Cell, range: int, adj: Cell -> seq<Cell>, dom: set<Cell>,
                            visited: set<Cell>, queue: seq<(Cell, int)>, rd: map<Cell, int>)
  {
    visited == rd.Keys && visited <= dom &&
    (forall e :: e in queue ==> e.0 in dom) &&
    QueueSound(start, queue, adj) && Layered(queue) && Behind(rd, queue) &&
    VisitedSound(start, rd, adj) && Closed(range, rd, queue, adj) &&
    (rd == map[] ==> queue == [(start, 0)]) &&
    (rd != map[] ==> start in rd && rd[start] == 0)
  }

  /** The cells kept so far are exactly the visited cells inside the range, once each, the start first. */
  ghost predicate CellsInv(start: Cell, range: int, cells: seq<Cell>, rd: map<Cell, int>)
  {
    (forall c :: c in cells <==> c in rd && rd[c] <= range) &&
    (forall i, j :: 0 <= i < j < |cells| ==> cells[i] != cells[j]) &&
    (cells != [] ==> cells[0] == start) &&
    (rd == map[] ==> cells == []) &&
    (range >= 0 && rd != map[] ==> cells != [])
  }

  /** A queued cell already visited is dropped. */
  lemma SkipStep(start: Cell, range: int, adj: Cell -> seq<Cell>, dom: set<Cell>,
                 visited: set<Cell>, queue: seq<(Cell, int)>, rd: map<Cell, int>)
    requires SearchInv(start, range, adj, dom, visited, queue, rd)
    requires queue != [] && queue[0].0 in visited
    ensures SearchInv(start, range, adj, dom, visited, queue[1..], rd)
  {
    SkipVisited(start, range, rd, queue, adj);
    assert forall e :: e in queue[1..] ==> e in queue;
  }

  /** A queued cell beyond the range is visited but neither kept nor expanded. */
  lemma FarStep(start: Cell, range: int, adj: Cell -> seq<Cell>, dom: set<Cell>, cells: seq<Cell>,
                visited: set<Cell>, queue: seq<(Cell, int)>, rd: map<Cell, int>)
    requires SearchInv(start, range, adj, dom, visited, queue, rd) && CellsInv(start, range, cells, rd)
    requires queue != [] && queue[0].0 !in visited && queue[0].1 > range
    ensures SearchInv(start, range, adj, dom, visited + {queue[0].0}, queue[1..], rd[queue[0].0 := queue[0].1])
    ensures CellsInv(start, range, cells, rd[queue[0].0 := queue[0].1])
  {
    assert queue[0] in queue;
    VisitFar(start, range, rd, queue, adj);
    assert forall e :: e in queue[1..] ==> e in queue;
  }

  /** A queued cell inside the range: the search side. */
  lemma NearSearch(start: Cell, range: int, adj: Cell -> seq<Cell>, dom: set<Cell>,
                   visited: set<Cell>, queue: seq<(Cell, int)>, rd: map<Cell, int>, added: seq<(Cell, int)>)
    requires SearchInv(start, range, adj, dom, visited, queue, rd)
    requires queue != [] && queue[0].0 !in visited && queue[0].1 <= range
    requires forall n :: n in adj(queue[0].0) ==> n in dom
    requires added == Fresh(adj(queue[0].0), visited + {queue[0].0}, queue[0].1 + 1)
    ensures SearchInv(start, range, adj, dom, visited + {queue[0].0}, queue[1..] + added, rd[queue[0].0 := queue[0].1])
  {
    var c, d := queue[0].0, queue[0].1;
    assert queue[0] in queue;
    FreshMembers(adj(c), visited + {c}, d + 1);
    NearQueue(start, queue, added, adj);
    NearBehind(rd, queue, added);
    NearClosed(range, rd, queue, added, adj);
    VisitedAdd(start, rd, c, d, adj);
    forall e | e in queue[1..] + added ensures e.0 in dom {
      if e in queue[1..] {
        assert e in queue;
      }
    }
  }

  /** A queued cell inside the range: the kept cells. */
  lemma NearCells(start: Cell, range: int, cells: seq<Cell>, rd: map<Cell, int>, queue: seq<(Cell, int)>)
    requires CellsInv(start, range, cells, rd) && queue != [] && queue[0].0 !in rd && 0 <= queue[0].1 <= range
    requires rd == map[] ==> queue == [(start, 0)]
    ensures CellsInv(start, range, cells + [queue[0].0], rd[queue[0].0 := queue[0].1])
  {
    var c := queue[0].0;
    assert c !in cells;
  }

  /** One iteration of the loop of `getCellsInRange`. */
  method RangeStep(start: Cell, range: int, cols: int, rows: int, ghost dom: set<Cell>,
                   cells: seq<Cell>, visited: set<Cell>, queue: seq<(Cell, int)>, ghost rd: map<Cell, int>)
    returns (cells': seq<Cell>, visited': set<Cell>, queue': seq<(Cell, int)>, ghost rd': map<Cell, int>)
    requires dom == GridCells(cols, rows) + {start}
    requires SearchInv(start, range, GridNeighbors(cols, rows), dom, visited, queue, rd) && CellsInv(start, range, cells, rd)
    requires queue != []
    ensures SearchInv(start, range, GridNeighbors(cols, rows), dom, visited', queue', rd') && CellsInv(start, range, cells', rd')
    ensures |dom - visited'| < |dom - visited| || (visited' == visited && |queue'| < |queue|)
  {
    ghost var adj := GridNeighbors(cols, rows);
    var c, d := queue[0].0, queue[0].1;
    if c in visited {
      SkipStep(start, range, adj, dom, visited, queue, rd);
      return cells, visited, queue[1..], rd;
    }
    assert queue[0] in queue;
    VisitShrinks(dom, visited, c);
    if d > range {
      FarStep(start, range, adj, dom, cells, visited, queue, rd);
      return cells, visited + {c}, queue[1..], rd[c := d];
    }
    var ns := Geometry.Neighbors(c, cols, rows);
    assert ns == adj(c);
    forall n | n in ns ensures n in dom {
      NeighborsInGrid(c, n, cols, rows);
    }
    NearSearch(start, range, adj, dom, visited, queue, rd, Fresh(ns, visited + {c}, d + 1));
    NearCells(start, range, cells, rd, queue);
    cells', visited', rd' := cells + [c], visited + {c}, rd[c := d];
    queue' := QueueFresh(ns, visited', d + 1, queue[1..]);
  }

  /**
   * `getCellsInRange`: breadth-first from `start`, skipping visited cells,
   * keeping each cell reached within `range` steps and expanding only those.
   * The result lists every cell within `range` neighbour steps exactly once,
   * the start first.
   */
  method GetCellsInRange(start: Cell, range: int, cols: int, rows: int) returns (cells: seq<Cell>)
    ensures range < 0 ==> cells == []
    ensures range >= 0 ==> |cells| >= 1 && cells[0] == start
    ensures forall i, j :: 0 <= i < j < |cells| ==> cells[i] != cells[j]
    ensures range >= 0 ==> forall c :: c in cells <==> c in Geometry.Ball(start, range, GridNeighbors(cols, rows))
  {
    ghost var adj := GridNeighbors(cols, rows);
    cells := [];
    var visited: set<Cell> := {};
    var queue: seq<(Cell, int)> := [(start, 0)];
    ghost var rd: map<Cell, int> := map[];
    ghost var dom := GridCells(cols, rows) + {start};
    SearchStart(start, range, adj, dom);
    while queue != []
      invariant SearchInv(start, range, adj, dom, visited, queue, rd)
      invariant CellsInv(start, range, cells, rd)
      decreases |dom - visited|, |queue|
    {
      cells, visited, queue, rd := RangeStep(start, range, cols, rows, dom, cells, visited, queue, rd);
    }
    SearchDone(start, range, adj, dom, visited, cells, rd);
  }

  /** Before the loop: only the start is queued, at distance 0. */
  lemma SearchStart(start: Cell, range: int, adj: Cell -> seq<Cell>, dom: set<Cell>)
    requires start in dom
    ensures SearchInv(start, range, adj, dom, {}, [(start, 0)], map[]) && CellsInv(start, range, [], map[])
  {
    assert start in Geometry.Ball(start, 0, adj);
  }

  /** When the queue is empty the kept cells are exactly the ball of radius `range`. */
  lemma SearchDone(start: Cell, range: int, adj: Cell -> seq<Cell>, dom: set<Cell>, visited: set<Cell>,
                   cells: seq<Cell>, rd: map<Cell, int>)
    requires SearchInv(start, range, adj, dom, visited, [], rd) && CellsInv(start, range, cells, rd)
    ensures range < 0 ==> cells == []
    ensures range >= 0 ==> |cells| >= 1 && cells[0] == start
    ensures forall i, j :: 0 <= i < j < |cells| ==> cells[i] != cells[j]
    ensures range >= 0 ==> forall c :: c in cells <==> c in Geometry.Ball(start, range, adj)
  {
    if range >= 0 {
      forall c | c in Geometry.Ball(start, range, adj) ensures c in rd && rd[c] <= range {
        Complete(start, range, rd, range, c, adj);
      }
      forall c | c in cells ensures c in Geometry.Ball(start, range, adj) {
        Geometry.BallGrows(start, rd[c], range, adj);
      }
    }
  }

  // ---------------------------------------------------------------------------
  // The greedy path of the mouse

  /**
   * `ns[i]` is the neighbour the inner loop of `computePath` picks: not the
   * enemy cell, no further from `end` than any other such neighbour, and
   * strictly closer than every such neighbour before it (`d < bestDist`).
   */
  predicate FirstClosest(ns: seq<Cell>, i: int, end: Cell, enemy: Cell)
  {
    0 <= i < |ns| && ns[i] != enemy &&
    (forall j :: 0 <= j < |ns| && ns[j] != enemy ==> Geometry.Dist2(ns[i], end) <= Geometry.Dist2(ns[j], end)) &&
    (forall j :: 0 <= j < i && ns[j] != enemy ==> Geometry.Dist2(ns[i], end) < Geometry.Dist2(ns[j], end))
  }

  /** The greedy choice is unique. */
  lemma FirstClosestUnique(ns: seq<Cell>, i: int, k: int, end: Cell, enemy: Cell)
    requires FirstClosest(ns, i, end, enemy) && FirstClosest(ns, k, end, enemy)
    ensures i == k
  {
  }

  /** `n` is the greedy step from `c` toward `end`. */
  predicate GreedyStep(c: Cell, n: Cell, end: Cell, enemy: Cell, cols: int, rows: int)
  {
    var ns := Geometry.Neighbors(c, cols, rows);
    exists i :: 0 <= i < |ns| && FirstClosest(ns, i, end, enemy) && ns[i] == n
  }

  /** Every neighbour of `c` is the enemy cell: the greedy walk has nowhere to go. */
  predicate Stuck(c: Cell, enemy: Cell, cols: int, rows: int)
  {
    var ns := Geometry.Neighbors(c, cols, rows);
    forall n :: n in ns ==> n == enemy
  }

  /** Each cell of `path` after the first is a neighbour of the one before and not the enemy cell. */
  predicate AvoidingWalk(path: seq<Cell>, enemy: Cell, cols: int, rows: int)
  {
    forall i :: 1 <= i < |path| ==> path[i] in Geometry.Neighbors(path[i - 1], cols, rows) && path[i] != enemy
  }

  /** Each step of `path` is the greedy step toward `end`, taken before `end` was reached. */
  predicate GreedyWalk(path: seq<Cell>, end: Cell, enemy: Cell, cols: int, rows: int)
  {
    forall i :: 0 <= i < |path| - 1 ==> path[i] != end && GreedyStep(path[i], path[i + 1], end, enemy, cols, rows)
  }

  /** Extending a greedy walk by its greedy step keeps both walk properties. */
  lemma GreedyExtend(path: seq<Cell>, end: Cell, enemy: Cell, cols: int, rows: int, k: int)
    requires path != [] && AvoidingWalk(path, enemy, cols, rows) && GreedyWalk(path, end, enemy, cols, rows)
    requires path[|path| - 1] != end
    requires FirstClosest(Geometry.Neighbors(path[|path| - 1], cols, rows), k, end, enemy)
    ensures var p := path + [Geometry.Neighbors(path[|path| - 1], cols, rows)[k]];
            AvoidingWalk(p, enemy, cols, rows) && GreedyWalk(p, end, enemy, cols, rows)
  {
    var ns := Geometry.Neighbors(path[|path| - 1], cols, rows);
    var p := path + [ns[k]];
    assert ns[k] in ns;
    assert GreedyStep(path[|path| - 1], ns[k], end, enemy, cols, rows);
    forall i | 0 <= i < |p| - 1
      ensures p[i] != end && GreedyStep(p[i], p[i + 1], end, enemy, cols, rows)
    {
      if i < |path| - 1 {
        assert p[i] == path[i] && p[i + 1] == path[i + 1];
      }
    }
    forall i | 1 <= i < |p|
      ensures p[i] in Geometry.Neighbors(p[i - 1], cols, rows) && p[i] != enemy
    {
      if i < |path| {
        assert p[i] == path[i] && p[i - 1] == path[i - 1];
      }
    }
  }

  /** The inner loop of `computePath`: the closest neighbour of `end` that is not the enemy cell. */
  method ClosestNeighbor(ns: seq<Cell>, end: Cell, enemy: Cell) returns (best: Option<Cell>, ghost bi: int)
    ensures best.None? <==> forall n :: n in ns ==> n == enemy
    ensures best.Some? ==> FirstClosest(ns, bi, end, enemy) && ns[bi] == best.value
  {
    best, bi := None, 0;
    var bestDist := 0;
    var i := 0;
    while i < |ns|
      invariant 0 <= i <= |ns|
      invariant best.None? ==> forall j :: 0 <= j < i ==> ns[j] == enemy
      invariant best.Some? ==> 0 <= bi < i && ns[bi] == best.value && ns[bi] != enemy
      invariant best.Some? ==> bestDist == Geometry.Dist2(best.value, end)
      invariant best.Some? ==> forall j :: 0 <= j < i && ns[j] != enemy ==> bestDist <= Geometry.Dist2(ns[j], end)
      invariant best.Some? ==> forall j :: 0 <= j < bi && ns[j] != enemy ==> bestDist < Geometry.Dist2(ns[j], end)
    {
      if ns[i] != enemy {
        var d := Geometry.Dist2(ns[i], end);
        if best.None? || d < bestDist {
          best, bi, bestDist := Some(ns[i]), i, d;
        }
      }
      i := i + 1;
    }
    if best.None? {
      forall n | n in ns ensures n == enemy {
        var j :| 0 <= j < |ns| && ns[j] == n;
      }
    } else {
      assert ns[bi] in ns && ns[bi] != enemy;
    }
  }

  // ---------------------------------------------------------------------------
  // The page state of hexgrid.js

  /** Why `applyMove` refused, or what the move cost. */
  datatype MoveOutcome = NoPath | OntoEnemy | NotEnoughSpeed(need: int, have: int) | Moved(steps: nat, cost: nat)

  class HexBattle {
    const cols: int
    const rows: int
    var terrain: Terrain
    var playerPos: Cell
    var enemyPos: Cell
    var playerSpeed: int
    var currentPath: seq<Cell>
    var drawingPath: bool
    var highlightedCells: seq<Cell>
    var currentRange: int

    /** The globals as the script declares them: the configured start or (0, 0), the enemy at (5, 4), speed 30. */
    constructor(cols: int, rows: int, terrain: Terrain, startingPosition: Option<Cell>)
      ensures this.cols == cols && this.rows == rows && this.terrain == terrain
      ensures playerPos == (if startingPosition.Some? then startingPosition.value else Cell(0, 0))
      ensures enemyPos == Cell(5, 4) && playerSpeed == 30
      ensures currentPath == [] && !drawingPath && highlightedCells == [] && currentRange == 0
    {
      this.cols, this.rows, this.terrain := cols, rows, terrain;
      playerPos := if startingPosition.Some? then startingPosition.value else Cell(0, 0);
      enemyPos := Cell(5, 4);
      playerSpeed := 30;
      currentPath, drawingPath, highlightedCells, currentRange := [], false, [], 0;
    }

    /** `changeTerrain`: only the multiplier matters here; the colours are not modelled. */
    method ChangeTerrain(t: Terrain)
      modifies this
      ensures terrain == t
      ensures playerPos == old(playerPos) && enemyPos == old(enemyPos) && playerSpeed == old(playerSpeed)
      ensures currentPath == old(currentPath) && drawingPath == old(drawingPath)
      ensures highlightedCells == old(highlightedCells) && currentRange == old(currentRange)
    {
      terrain := t;
    }

    /**
     * `computePath`: from `start`, repeatedly take the greedy neighbour toward
     * `end`, never the enemy cell, until `end` is reached, the path outgrows
     * what the speed pays for, or no neighbour is left.
     */
    method ComputePath(start: Cell, end: Cell) returns (path: seq<Cell>)
      ensures |path| >= 1 && path[0] == start
      ensures end == enemyPos ==> path == [start]
      ensures |path| <= Max(MaxSteps(playerSpeed, terrain), 0) + 1
      ensures AvoidingWalk(path, enemyPos, cols, rows)
      ensures GreedyWalk(path, end, enemyPos, cols, rows)
      ensures end == enemyPos || path[|path| - 1] == end || |path| > MaxSteps(playerSpeed, terrain) ||
              Stuck(path[|path| - 1], enemyPos, cols, rows)
    {
      path := [start];
      if end == enemyPos {
        return;
      }
      var maxSteps := MaxSteps(playerSpeed, terrain);
      var current := start;
      while current != end
        invariant |path| >= 1 && path[0] == start && current == path[|path| - 1]
        invariant |path| <= Max(maxSteps, 0) + 1
        invariant AvoidingWalk(path, enemyPos, cols, rows)
        invariant GreedyWalk(path, end, enemyPos, cols, rows)
        decreases Max(maxSteps, 0) + 1 - |path|
      {
        if |path| > maxSteps {
          return;
        }
        var best, k := ClosestNeighbor(Geometry.Neighbors(current, cols, rows), end, enemyPos);
        if best.None? {
          return;
        }
        GreedyExtend(path, end, enemyPos, cols, rows, k);
        current := best.value;
        path := path + [current];
      }
    }

    /** The mouse goes down on the player's cell: drawing starts from it. */
    method StartDrawing(cell: Option<Cell>)
      modifies this
      ensures cell == Some(old(playerPos)) ==> drawingPath && currentPath == [old(playerPos)]
      ensures cell != Some(old(playerPos)) ==> drawingPath == old(drawingPath) && currentPath == old(currentPath)
      ensures playerPos == old(playerPos) && enemyPos == old(enemyPos) && playerSpeed == old(playerSpeed)
      ensures terrain == old(terrain) && highlightedCells == old(highlightedCells) && currentRange == old(currentRange)
    {
      if cell == Some(playerPos) {
        drawingPath := true;
        currentPath := [playerPos];
      }
    }

    /** The mouse moves while drawing: the path becomes the greedy path to the hovered cell. */
    method DrawTo(cell: Option<Cell>)
      modifies this
      ensures !old(drawingPath) || cell.None? ==> currentPath == old(currentPath)
      ensures old(drawingPath) && cell.Some? ==>
                |currentPath| >= 1 && currentPath[0] == playerPos &&
                |currentPath| <= Max(MaxSteps(playerSpeed, terrain), 0) + 1
      ensures old(drawingPath) && cell.Some? ==>
                AvoidingWalk(currentPath, enemyPos, cols, rows) && GreedyWalk(currentPath, cell.value, enemyPos, cols, rows)
      ensures playerPos == old(playerPos) && enemyPos == old(enemyPos) && playerSpeed == old(playerSpeed)
      ensures terrain == old(terrain) && drawingPath == old(drawingPath)
      ensures highlightedCells == old(highlightedCells) && currentRange == old(currentRange)
    {
      if drawingPath && cell.Some? {
        currentPath := ComputePath(playerPos, cell.value);
      }
    }

    /** The mouse goes up: drawing stops, the path stays. */
    method StopDrawing()
      modifies this
      ensures !drawingPath && currentPath == old(currentPath)
      ensures playerPos == old(playerPos) && enemyPos == old(enemyPos) && playerSpeed == old(playerSpeed)
      ensures terrain == old(terrain) && highlightedCells == old(highlightedCells) && currentRange == old(currentRange)
    {
      drawingPath := false;
    }

    /**
     * `applyMove`: refuses a path of fewer than two cells, a destination on the
     * enemy and a cost above the remaining speed, changing nothing; otherwise
     * moves to the last cell, pays the cost and clears the path.
     */
    method ApplyMove() returns (outcome: MoveOutcome)
      modifies this
      ensures outcome == NoPath <==> |old(currentPath)| < 2
      ensures outcome == OntoEnemy <==> |old(currentPath)| >= 2 && old(currentPath)[|old(currentPath)| - 1] == enemyPos
      ensures outcome.Moved? <==>
                |old(currentPath)| >= 2 && old(currentPath)[|old(currentPath)| - 1] != enemyPos &&
                MoveCost(|old(currentPath)| - 1, terrain) <= old(playerSpeed)
      ensures outcome.Moved? ==>
                outcome.steps == |old(currentPath)| - 1 && outcome.cost == MoveCost(outcome.steps, terrain) &&
                playerSpeed == old(playerSpeed) - outcome.cost &&
                playerPos == old(currentPath)[|old(currentPath)| - 1] && currentPath == []
      ensures !outcome.Moved? ==>
                playerSpeed == old(playerSpeed) && playerPos == old(playerPos) && currentPath == old(currentPath)
      ensures old(playerSpeed) >= 0 ==> playerSpeed >= 0
      ensures enemyPos == old(enemyPos) && terrain == old(terrain) && drawingPath == old(drawingPath)
      ensures highlightedCells == old(highlightedCells) && currentRange == old(currentRange)
    {
      if |currentPath| < 2 {
        return NoPath;
      }
      var dest := currentPath[|currentPath| - 1];
      if dest == enemyPos {
        return OntoEnemy;
      }
      var steps := |currentPath| - 1;
      var totalCost := Scaled(steps * BaseCost, MovementCost(terrain));
      assert totalCost == MoveCost(steps, terrain);
      if totalCost > playerSpeed {
        return NotEnoughSpeed(totalCost, playerSpeed);
      }
      playerSpeed := playerSpeed - totalCost;
      playerPos := dest;
      currentPath := [];
      outcome := Moved(steps, totalCost);
    }

    /** `highlightRange`: the highlighted cells become the cells within `range` steps of the player. */
    method HighlightRange(range: int)
      modifies this
      ensures currentRange == range
      ensures range >= 0 ==> forall c :: c in highlightedCells <==> c in Geometry.Ball(playerPos, range, GridNeighbors(cols, rows))
      ensures range < 0 ==> highlightedCells == []
      ensures playerPos == old(playerPos) && enemyPos == old(enemyPos) && playerSpeed == old(playerSpeed)
      ensures terrain == old(terrain) && currentPath == old(currentPath) && drawingPath == old(drawingPath)
    {
      currentRange := range;
      highlightedCells := GetCellsInRange(playerPos, range, cols, rows);
    }

    /** `clearHighlight`. */
    method ClearHighlight()
      modifies this
      ensures highlightedCells == [] && currentRange == 0
      ensures playerPos == old(playerPos) && enemyPos == old(enemyPos) && playerSpeed == old(playerSpeed)
      ensures terrain == old(terrain) && currentPath == old(currentPath) && drawingPath == old(drawingPath)
    {
      highlightedCells, currentRange := [], 0;
    }

    /** `isInRange`: the target is within `range` neighbour steps of the player. */
    method IsInRange(targetCol: int, targetRow: int, range: int) returns (b: bool)
      ensures b <==> range >= 0 && Cell(targetCol, targetRow) in Geometry.Ball(playerPos, range, GridNeighbors(cols, rows))
    {
      var cells := GetCellsInRange(playerPos, range, cols, rows);
      b := Cell(targetCol, targetRow) in cells;
    }

    /** `checkAdjacent`: the enemy is a neighbour of the player. */
    method CheckAdjacent() returns (b: bool)
      ensures b <==> enemyPos in Geometry.Neighbors(playerPos, cols, rows)
    {
      b := enemyPos in Geometry.Neighbors(playerPos, cols, rows);
    }
  }
}
