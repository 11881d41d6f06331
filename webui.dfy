/**
 * The stand-alone battle web UI of webui.py: neighbours on its 10 x 8 offset
 * hex grid, the bounded breadth-first path search the goblin uses to close in,
 * and the attack, spell and enemy-attack routes acting on the session's
 * character and enemy.
 */
module WebUI {
  import opened Common
  import Text
  import Geometry

  const Cols := 10
  const Rows := 8

  /** The cells of the 10 x 8 grid. */
  function Grid(): set<Cell>
  {
    set col: int, row: int | 0 <= col < Cols && 0 <= row < Rows :: Cell(col, row)
  }

  /** `get_neighbors`: the even/odd-column offsets, kept inside the grid. */
  function GetNeighbors(c: Cell): (ns: seq<Cell>)
    ensures |ns| <= 6 && c !in ns
  {
    Geometry.NeighborsMembers(c, Cols, Rows);
    Geometry.Neighbors(c, Cols, Rows)
  }

  /** The neighbours are exactly the even/odd-column offsets that stay on the grid. */
  lemma GetNeighborsMembers(c: Cell)
    ensures forall n :: n in GetNeighbors(c) <==> n in Geometry.Candidates(c) && Geometry.InGrid(n, Cols, Rows)
    ensures forall n :: n in GetNeighbors(c) ==> n in Grid()
  {
    var ns := GetNeighbors(c);
    Geometry.NeighborsMembers(c, Cols, Rows);
    assert forall n :: n in ns ==> n == Cell(n.col, n.row) && n in Grid();
  }

  /** A walk from `start`: each cell is a neighbour of the one before. */
  predicate IsWalk(start: Cell, path: seq<Cell>)
  {
    |path| >= 1 && path[0] in GetNeighbors(start) &&
    forall i :: 1 <= i < |path| ==> path[i] in GetNeighbors(path[i - 1])
  }

  /**
   * What every queued entry of `compute_path` satisfies: the start with the
   * empty path, or a walk from the start ending at the cell, not at the
   * target, and no longer than `max_steps`.
   */
  predicate ValidEntry(start: Cell, target: Cell, maxSteps: Option<int>, cell: Cell, path: seq<Cell>)
  {
    (path == [] && cell == start) ||
    (IsWalk(start, path) && path[|path| - 1] == cell && cell != target &&
     (maxSteps.Some? ==> |path| <= maxSteps.value))
  }

  lemma ExtendEntry(start: Cell, target: Cell, maxSteps: Option<int>, cell: Cell, path: seq<Cell>, n: Cell)
    requires ValidEntry(start, target, maxSteps, cell, path)
    requires n in GetNeighbors(cell) && n != target
    requires maxSteps.Some? ==> |path| < maxSteps.value
    ensures ValidEntry(start, target, maxSteps, n, path + [n])
  {
    var p := path + [n];
    if path != [] {
      forall i | 1 <= i < |p| ensures p[i] in GetNeighbors(p[i - 1]) {
        if i < |path| { assert p[i] == path[i] && p[i - 1] == path[i - 1]; }
      }
    }
  }

  /** Every queued entry is valid and its cell already visited. */
  predicate QueueOk(start: Cell, target: Cell, maxSteps: Option<int>, queue: seq<(Cell, seq<Cell>)>, visited: set<Cell>)
  {
    forall e :: e in queue ==> ValidEntry(start, target, maxSteps, e.0, e.1) && e.0 in visited
  }

  /** The kept path ends at the first explored cell of least distance to the target. */
  predicate BestSoFar(start: Cell, target: Cell, maxSteps: Option<int>, explored: seq<Cell>, k: nat, best: seq<Cell>)
  {
    explored != [] && explored[0] == start && k < |explored| && |best| >= 1 && best[|best| - 1] == explored[k] &&
    ValidEntry(start, target, maxSteps, best[|best| - 1], best[..|best| - 1]) &&
    (forall d :: d in explored ==> Geometry.Dist2(best[|best| - 1], target) <= Geometry.Dist2(d, target)) &&
    (forall j :: 0 <= j < k ==> Geometry.Dist2(best[|best| - 1], target) < Geometry.Dist2(explored[j], target))
  }

  /** Keeping the dequeued cell when it is strictly closer than the best so far. */
  lemma KeepCloser(start: Cell, target: Cell, maxSteps: Option<int>, explored: seq<Cell>, k: nat, best: seq<Cell>,
                   cell: Cell, path: seq<Cell>)
    requires explored == [] || BestSoFar(start, target, maxSteps, explored, k, best)
    requires explored == [] ==> cell == start
    requires ValidEntry(start, target, maxSteps, cell, path)
    ensures explored == [] || Geometry.Dist2(cell, target) < Geometry.Dist2(best[|best| - 1], target) ==>
              BestSoFar(start, target, maxSteps, explored + [cell], |explored|, path + [cell])
    ensures explored != [] && Geometry.Dist2(best[|best| - 1], target) <= Geometry.Dist2(cell, target) ==>
              BestSoFar(start, target, maxSteps, explored + [cell], k, best)
  {
    var e := explored + [cell];
    assert (path + [cell])[..|path|] == path;
    if explored != [] {
      assert e[0] == explored[0] && e[k] == explored[k];
      forall j | 0 <= j < |explored| ensures e[j] == explored[j] { }
    }
  }

  /** Visiting a new grid cell leaves fewer grid cells unvisited. */
  lemma VisitShrinks(visited: set<Cell>, n: Cell)
    requires n in Grid() && n !in visited
    ensures |Grid() - (visited + {n})| < |Grid() - visited|
  {
    assert Grid() - (visited + {n}) == (Grid() - visited) - {n};
  }

  lemma QueueAppend(start: Cell, target: Cell, maxSteps: Option<int>, queue: seq<(Cell, seq<Cell>)>, visited: set<Cell>,
                    n: Cell, p: seq<Cell>)
    requires QueueOk(start, target, maxSteps, queue, visited)
    requires ValidEntry(start, target, maxSteps, n, p)
    ensures QueueOk(start, target, maxSteps, queue + [(n, p)], visited + {n})
  {
  }

  /** The cells of the queued entries. */
  function QueueCells(queue: seq<(Cell, seq<Cell>)>): set<Cell>
  {
    set e | e in queue :: e.0
  }

  /** An entry the inner loop adds while expanding `cell`: a neighbour, not the target, not visited before. */
  predicate Added(target: Cell, cell: Cell, path: seq<Cell>, visited0: set<Cell>, e: (Cell, seq<Cell>))
  {
    e.0 in GetNeighbors(cell) && e.0 != target && e.0 !in visited0 && e.1 == path + [e.0]
  }

  /**
   * What the inner loop of `compute_path` keeps: the queue stays sound and
   * only grows, each added entry is a distinct fresh neighbour, every newly
   * visited cell is queued, and a newly visited cell leaves fewer grid cells
   * unvisited.
   */
  predicate Enqueued(start: Cell, target: Cell, maxSteps: Option<int>, cell: Cell, path: seq<Cell>,
                     visited0: set<Cell>, queue0: seq<(Cell, seq<Cell>)>,
                     visited: set<Cell>, queue: seq<(Cell, seq<Cell>)>)
  {
    QueueOk(start, target, maxSteps, queue, visited) &&
    visited0 <= visited && queue0 <= queue &&
    (forall i :: |queue0| <= i < |queue| ==> Added(target, cell, path, visited0, queue[i])) &&
    (forall i, j :: |queue0| <= i < j < |queue| ==> queue[i].0 != queue[j].0) &&
    (forall v :: v in visited && v !in visited0 ==> v in QueueCells(queue)) &&
    (visited == visited0 ==> queue == queue0) &&
    (visited != visited0 ==> |Grid() - visited| < |Grid() - visited0|)
  }

  /** One step of the inner loop of `compute_path` keeps what the loop promises. */
  lemma EnqueueStep(start: Cell, target: Cell, maxSteps: Option<int>, cell: Cell, path: seq<Cell>, n: Cell,
                    visited0: set<Cell>, queue0: seq<(Cell, seq<Cell>)>, visited: set<Cell>, queue: seq<(Cell, seq<Cell>)>)
    requires ValidEntry(start, target, maxSteps, cell, path)
    requires maxSteps.Some? ==> |path| < maxSteps.value
    requires n in GetNeighbors(cell) && n !in visited && n != target
    requires Enqueued(start, target, maxSteps, cell, path, visited0, queue0, visited, queue)
    ensures Enqueued(start, target, maxSteps, cell, path, visited0, queue0, visited + {n}, queue + [(n, path + [n])])
  {
    var q := queue + [(n, path + [n])];
    ExtendEntry(start, target, maxSteps, cell, path, n);
    VisitShrinks(visited, n);
    QueueAppend(start, target, maxSteps, queue, visited, n, path + [n]);
    assert q[|queue|].0 == n;
    forall i | 0 <= i < |queue| ensures q[i] == queue[i] && q[i].0 in visited {
      assert queue[i] in queue;
    }
    forall v | v in visited + {n} && v !in visited0 ensures v in QueueCells(q) {
      if v == n {
        assert q[|queue|] in q;
      } else {
        var e :| e in queue && e.0 == v;
        assert e in q;
      }
    }
  }

  /** Every cell of `cells` other than the target has been visited. */
  predicate AllVisited(cells: seq<Cell>, target: Cell, visited: set<Cell>)
  {
    forall c :: c in cells && c != target ==> c in visited
  }

  lemma AllVisitedStep(ns: seq<Cell>, i: nat, target: Cell, visited: set<Cell>, visited': set<Cell>)
    requires i < |ns| && AllVisited(ns[..i], target, visited) && visited <= visited'
    requires ns[i] == target || ns[i] in visited'
    ensures AllVisited(ns[..i + 1], target, visited')
  {
    assert ns[..i + 1] == ns[..i] + [ns[i]];
  }

  /** The distance check of `compute_path`: keep `path + [cell]` when the cell is strictly closer than the best so far. */
  method KeepIfCloser(start: Cell, target: Cell, maxSteps: Option<int>, ghost explored: seq<Cell>, ghost k: nat,
                      best: seq<Cell>, minDist: Option<nat>, cell: Cell, path: seq<Cell>, ghost rd: map<Cell, nat>)
    returns (best': seq<Cell>, minDist': Option<nat>, ghost explored': seq<Cell>, ghost k': nat)
    requires explored == [] ==> cell == start && minDist.None?
    requires explored != [] ==> BestSoFar(start, target, maxSteps, explored, k, best) &&
                                minDist == Some(Geometry.Dist2(best[|best| - 1], target)) &&
                                best[|best| - 1] in rd && |best| - 1 == rd[best[|best| - 1]]
    requires ValidEntry(start, target, maxSteps, cell, path)
    requires cell in rd && rd[cell] == |path|
    ensures explored' == explored + [cell]
    ensures BestSoFar(start, target, maxSteps, explored', k', best') &&
            minDist' == Some(Geometry.Dist2(best'[|best'| - 1], target)) &&
            best'[|best'| - 1] in rd && |best'| - 1 == rd[best'[|best'| - 1]]
    ensures explored == [] ==> best' == path + [cell]
    ensures best' == best || best' == path + [cell]
  {
    KeepCloser(start, target, maxSteps, explored, k, best, cell, path);
    best', minDist', k' := best, minDist, k;
    var d := Geometry.Dist2(cell, target);
    if minDist.None? || d < minDist.value {
      minDist' := Some(d);
      best' := path + [cell];
      k' := |explored|;
    }
    explored' := explored + [cell];
  }

  /** The inner loop of `compute_path`: enqueue the unvisited neighbours other than the target. */
  method EnqueueNeighbors(start: Cell, target: Cell, maxSteps: Option<int>, cell: Cell, path: seq<Cell>,
                          visited0: set<Cell>, queue0: seq<(Cell, seq<Cell>)>)
    returns (visited: set<Cell>, queue: seq<(Cell, seq<Cell>)>)
    requires ValidEntry(start, target, maxSteps, cell, path)
    requires maxSteps.Some? ==> |path| < maxSteps.value
    requires QueueOk(start, target, maxSteps, queue0, visited0)
    ensures Enqueued(start, target, maxSteps, cell, path, visited0, queue0, visited, queue)
    ensures forall n :: n in GetNeighbors(cell) && n != target ==> n in visited
  {
    visited, queue := visited0, queue0;
    var ns := GetNeighbors(cell);
    var i := 0;
    while i < |ns|
      invariant 0 <= i <= |ns|
      invariant Enqueued(start, target, maxSteps, cell, path, visited0, queue0, visited, queue)
      invariant AllVisited(ns[..i], target, visited)
    {
      var n := ns[i];
      ghost var before := visited;
      if n !in visited && n != target {
        EnqueueStep(start, target, maxSteps, cell, path, n, visited0, queue0, visited, queue);
        visited := visited + {n};
        queue := queue + [(n, path + [n])];
      }
      AllVisitedStep(ns, i, target, before, visited);
      i := i + 1;
    }
    assert ns[..i] == ns;
  }

  // ---------------------------------------------------------------------------
  // What the search of `compute_path` explores

  /** The cells of `ns` other than `x`, in order. */
  function Without(ns: seq<Cell>, x: Cell): (r: seq<Cell>)
    ensures forall n :: n in r <==> n in ns && n != x
  {
    if ns == [] then []
    else
      assert forall n :: n in ns <==> n == ns[0] || n in ns[1..];
      (if ns[0] == x then [] else [ns[0]]) + Without(ns[1..], x)
  }

  /** The steps `compute_path` may take: to a neighbour other than the target. */
  function Moves(target: Cell): Cell -> seq<Cell>
  {
    c => Without(GetNeighbors(c), target)
  }

  lemma MovesAt(target: Cell, c: Cell)
    ensures forall n :: n in Moves(target)(c) <==> n in GetNeighbors(c) && n != target
  {
  }

  /** `c` is reachable from `start` through `adj`, in at most `max_steps` steps when there is a bound. */
  ghost predicate Reachable(start: Cell, adj: Cell -> seq<Cell>, maxSteps: Option<int>, c: Cell)
  {
    match maxSteps
    case Some(m) => c in Geometry.Ball(start, Max(m, 0), adj)
    case None => exists d: nat :: c in Geometry.Ball(start, d, adj)
  }

  /** `d` is the fewest steps through `adj` that reach `c` from `start`. */
  ghost predicate Shortest(start: Cell, adj: Cell -> seq<Cell>, c: Cell, d: nat)
  {
    c in Geometry.Ball(start, d, adj) &&
    forall e: nat :: e < d ==> c !in Geometry.Ball(start, e, adj)
  }

  /**
   * `c` is a reachable cell no further from the target than any other
   * reachable cell, and `d` is the fewest steps to it.
   */
  ghost predicate ClosestReach(start: Cell, target: Cell, adj: Cell -> seq<Cell>, maxSteps: Option<int>, c: Cell, d: nat)
  {
    Reachable(start, adj, maxSteps, c) && Shortest(start, adj, c, d) &&
    forall x :: Reachable(start, adj, maxSteps, x) ==> Geometry.Dist2(c, target) <= Geometry.Dist2(x, target)
  }

  /** A dequeued entry whose path is shorter than `max_steps` is expanded. */
  predicate Expands(maxSteps: Option<int>, depth: int)
  {
    maxSteps.None? || depth < maxSteps.value
  }

  /** Queued path lengths never decrease along the queue and exceed the head's by at most one. */
  predicate Layered(queue: seq<(Cell, seq<Cell>)>)
  {
    (forall i, j :: 0 <= i <= j < |queue| ==> |queue[i].1| <= |queue[j].1|) &&
    (forall e :: e in queue ==> |e.1| <= |queue[0].1| + 1)
  }

  /** Queued cells are distinct, not yet explored, and recorded at their path's length. */
  predicate QueueFresh(queue: seq<(Cell, seq<Cell>)>, explored: seq<Cell>, rd: map<Cell, nat>)
  {
    (forall e :: e in queue ==> e.0 in rd && rd[e.0] == |e.1| && e.0 !in explored) &&
    (forall i, j :: 0 <= i < j < |queue| ==> queue[i].0 != queue[j].0)
  }

  /** Each visited cell is explored or queued; explored cells are visited, once each. */
  predicate Partitioned(queue: seq<(Cell, seq<Cell>)>, visited: set<Cell>, explored: seq<Cell>, rd: map<Cell, nat>)
  {
    rd.Keys == visited &&
    (forall v :: v in visited ==> v in explored || v in QueueCells(queue)) &&
    (forall v :: v in explored ==> v in visited) &&
    (forall i, j :: 0 <= i < j < |explored| ==> explored[i] != explored[j])
  }

  /**
   * Explored cells were recorded no deeper than the queue's head, and every
   * expanded cell has its steps recorded at most one step deeper.
   */
  predicate Frontier(adj: Cell -> seq<Cell>, maxSteps: Option<int>, queue: seq<(Cell, seq<Cell>)>, explored: seq<Cell>,
                     rd: map<Cell, nat>)
  {
    (queue != [] ==> forall v :: v in explored && v in rd ==> rd[v] <= |queue[0].1|) &&
    (forall v, n :: v in explored && v in rd && Expands(maxSteps, rd[v]) && n in adj(v) ==>
                    n in rd && rd[n] <= rd[v] + 1)
  }

  /** Every recorded depth is a number of steps that reaches its cell, within the bound. */
  ghost predicate DepthsSound(start: Cell, adj: Cell -> seq<Cell>, maxSteps: Option<int>, rd: map<Cell, nat>)
  {
    start in rd && rd[start] == 0 &&
    forall v :: v in rd ==> v in Geometry.Ball(start, rd[v], adj) && (maxSteps.Some? ==> rd[v] <= Max(maxSteps.value, 0))
  }

  /**
   * What the outer loop of `compute_path` keeps, with `adj` its steps and
   * `rd` the depth at which each cell was visited.
   */
  ghost predicate Searching(start: Cell, target: Cell, maxSteps: Option<int>, adj: Cell -> seq<Cell>,
                            queue: seq<(Cell, seq<Cell>)>, visited: set<Cell>, explored: seq<Cell>, rd: map<Cell, nat>)
  {
    QueueOk(start, target, maxSteps, queue, visited) && Layered(queue) && QueueFresh(queue, explored, rd) &&
    Partitioned(queue, visited, explored, rd) && Frontier(adj, maxSteps, queue, explored, rd) &&
    DepthsSound(start, adj, maxSteps, rd)
  }

  /** The depths after expanding: newly visited cells at depth `d`. */
  ghost function Record(rd: map<Cell, nat>, visited: set<Cell>, d: nat): map<Cell, nat>
  {
    map v | v in visited :: if v in rd then rd[v] else d
  }

  /** Before the loop: only the start is queued and visited, at depth 0. */
  lemma SearchBegins(start: Cell, target: Cell, maxSteps: Option<int>, adj: Cell -> seq<Cell>)
    ensures Searching(start, target, maxSteps, adj, [(start, [])], {start}, [], map[start := 0])
  {
    assert start in Geometry.Ball(start, 0, adj);
    var q: seq<(Cell, seq<Cell>)> := [(start, [])];
    assert q[0] in q;
  }

  lemma QueueOkTail(start: Cell, target: Cell, maxSteps: Option<int>, queue: seq<(Cell, seq<Cell>)>, visited: set<Cell>)
    requires QueueOk(start, target, maxSteps, queue, visited) && queue != []
    ensures QueueOk(start, target, maxSteps, queue[1..], visited)
  {
    assert forall e :: e in queue[1..] ==> e in queue;
  }

  lemma LayeredTail(queue: seq<(Cell, seq<Cell>)>)
    requires Layered(queue) && queue != []
    ensures Layered(queue[1..])
  {
    var q := queue[1..];
    forall e | e in q ensures |e.1| <= |q[0].1| + 1 {
      var i :| 0 <= i < |q| && q[i] == e;
      assert q[0] == queue[1] && queue[i + 1] == e && queue[i + 1] in queue;
    }
  }

  /** The head leaves the queue for the explored cells: the queued cells stay fresh. */
  lemma FreshTail(queue: seq<(Cell, seq<Cell>)>, explored: seq<Cell>, rd: map<Cell, nat>)
    requires QueueFresh(queue, explored, rd) && queue != []
    ensures QueueFresh(queue[1..], explored + [queue[0].0], rd)
  {
    var q := queue[1..];
    forall e | e in q ensures e in queue && e.0 != queue[0].0 {
      var i :| 0 <= i < |q| && q[i] == e;
      assert queue[i + 1] == e;
    }
  }

  /** The head leaves the queue for the explored cells: every visited cell is still explored or queued. */
  lemma PartitionedTail(queue: seq<(Cell, seq<Cell>)>, visited: set<Cell>, explored: seq<Cell>, rd: map<Cell, nat>)
    requires Partitioned(queue, visited, explored, rd) && QueueFresh(queue, explored, rd) && queue != []
    requires queue[0].0 in visited
    ensures Partitioned(queue[1..], visited, explored + [queue[0].0], rd)
  {
    var c, q, ex := queue[0].0, queue[1..], explored + [queue[0].0];
    assert queue[0] in queue;
    forall v | v in visited ensures v in ex || v in QueueCells(q) {
      if v !in explored && v != c {
        var e :| e in queue && e.0 == v;
        var i :| 0 <= i < |queue| && queue[i] == e;
        assert i != 0 && q[i - 1] == e;
      }
    }
  }

  /** A head that is not expanded leaves the queue for the explored cells: the frontier is kept. */
  lemma FrontierSkip(adj: Cell -> seq<Cell>, maxSteps: Option<int>, queue: seq<(Cell, seq<Cell>)>, explored: seq<Cell>,
                     rd: map<Cell, nat>)
    requires Frontier(adj, maxSteps, queue, explored, rd) && Layered(queue) && queue != []
    requires queue[0].0 in rd && rd[queue[0].0] == |queue[0].1| && !Expands(maxSteps, |queue[0].1|)
    ensures Frontier(adj, maxSteps, queue[1..], explored + [queue[0].0], rd)
  {
    if |queue| > 1 {
      assert queue[1..][0] == queue[1];
    }
  }

  /** A dequeued entry that is not expanded moves from the queue to the explored cells. */
  lemma DequeueSkip(start: Cell, target: Cell, maxSteps: Option<int>, adj: Cell -> seq<Cell>,
                    queue: seq<(Cell, seq<Cell>)>, visited: set<Cell>, explored: seq<Cell>, rd: map<Cell, nat>)
    requires Searching(start, target, maxSteps, adj, queue, visited, explored, rd) && queue != []
    requires !Expands(maxSteps, |queue[0].1|)
    ensures Searching(start, target, maxSteps, adj, queue[1..], visited, explored + [queue[0].0], rd)
  {
    assert queue[0] in queue;
    QueueOkTail(start, target, maxSteps, queue, visited);
    LayeredTail(queue);
    FreshTail(queue, explored, rd);
    PartitionedTail(queue, visited, explored, rd);
    FrontierSkip(adj, maxSteps, queue, explored, rd);
  }

  /** A newly visited cell is a neighbour of the expanded cell other than the target. */
  lemma NewCell(target: Cell, cell: Cell, path: seq<Cell>, visited0: set<Cell>, queue0: seq<(Cell, seq<Cell>)>,
                visited: set<Cell>, queue: seq<(Cell, seq<Cell>)>, v: Cell)
    requires queue0 <= queue && (forall e :: e in queue0 ==> e.0 in visited0)
    requires forall i :: |queue0| <= i < |queue| ==> Added(target, cell, path, visited0, queue[i])
    requires forall v :: v in visited && v !in visited0 ==> v in QueueCells(queue)
    requires v in visited && v !in visited0
    ensures v in GetNeighbors(cell) && v != target
  {
    var e :| e in queue && e.0 == v;
    var i :| 0 <= i < |queue| && queue[i] == e;
  }

  /** Every recorded depth is at most one past the queue's head. */
  lemma DepthsNearHead(adj: Cell -> seq<Cell>, maxSteps: Option<int>, queue: seq<(Cell, seq<Cell>)>, visited: set<Cell>,
                       explored: seq<Cell>, rd: map<Cell, nat>)
    requires queue != [] && Layered(queue) && QueueFresh(queue, explored, rd)
    requires Partitioned(queue, visited, explored, rd) && Frontier(adj, maxSteps, queue, explored, rd)
    ensures forall v :: v in rd ==> rd[v] <= |queue[0].1| + 1
  {
    forall v | v in rd ensures rd[v] <= |queue[0].1| + 1 {
      if v !in explored {
        var e :| e in queue && e.0 == v;
      }
    }
  }

  /** Expanding the head: the queue side. */
  lemma ExpandQueue(target: Cell, cell: Cell, path: seq<Cell>, queue: seq<(Cell, seq<Cell>)>, visited: set<Cell>,
                    explored: seq<Cell>, rd: map<Cell, nat>, visited': set<Cell>, queue': seq<(Cell, seq<Cell>)>)
    requires queue != [] && queue[0] == (cell, path)
    requires Layered(queue) && QueueFresh(queue, explored, rd) && rd.Keys == visited
    requires forall e :: e in queue ==> e.0 in visited
    requires forall v :: v in explored ==> v in visited
    requires visited <= visited' && queue[1..] <= queue'
    requires forall i :: |queue| - 1 <= i < |queue'| ==> Added(target, cell, path, visited, queue'[i])
    requires forall i, j :: |queue| - 1 <= i < j < |queue'| ==> queue'[i].0 != queue'[j].0
    requires forall e :: e in queue' ==> e.0 in visited'
    ensures Layered(queue')
    ensures QueueFresh(queue', explored + [cell], Record(rd, visited', |path| + 1))
  {
    var q1, d, rd' := queue[1..], |path|, Record(rd, visited', |path| + 1);
    assert queue[0] in queue;
    forall i | 0 <= i < |q1| ensures queue'[i] == q1[i] == queue[i + 1] && queue[i + 1] in queue {
    }
    forall i | |q1| <= i < |queue'| ensures |queue'[i].1| == d + 1 && queue'[i].0 !in visited {
      assert Added(target, cell, path, visited, queue'[i]);
    }
    forall i, j | 0 <= i <= j < |queue'| ensures |queue'[i].1| <= |queue'[j].1| {
      if j < |q1| {
        assert queue'[i] == queue[i + 1] && queue'[j] == queue[j + 1];
      } else if i < |q1| {
        assert queue[i + 1] in queue;
      }
    }
    if queue' != [] {
      forall e | e in queue' ensures |e.1| <= |queue'[0].1| + 1 {
        var i :| 0 <= i < |queue'| && queue'[i] == e;
        if i < |q1| {
          assert queue[i + 1] in queue;
        }
        if q1 != [] {
          assert |queue[0].1| <= |queue[1].1|;
        }
      }
    }
    forall e | e in queue'
      ensures e.0 in rd' && rd'[e.0] == |e.1| && e.0 !in explored + [cell]
    {
      var i :| 0 <= i < |queue'| && queue'[i] == e;
      if i < |q1| {
        assert queue[i + 1] == e && e in queue;
        assert queue[0].0 != queue[i + 1].0;
      } else {
        assert Added(target, cell, path, visited, e);
      }
    }
    forall i, j | 0 <= i < j < |queue'| ensures queue'[i].0 != queue'[j].0 {
      if j < |q1| {
        assert queue'[i] == queue[i + 1] && queue'[j] == queue[j + 1];
      } else if i < |q1| {
        assert queue[i + 1] in queue;
      }
    }
  }

  /** Expanding the head: every visited cell is still explored or queued. */
  lemma ExpandPartitioned(queue: seq<(Cell, seq<Cell>)>, visited: set<Cell>, explored: seq<Cell>, rd: map<Cell, nat>,
                          visited': set<Cell>, queue': seq<(Cell, seq<Cell>)>, d: nat)
    requires queue != [] && QueueFresh(queue, explored, rd) && Partitioned(queue, visited, explored, rd)
    requires visited <= visited' && queue[1..] <= queue'
    requires forall v :: v in visited' && v !in visited ==> v in QueueCells(queue')
    ensures Partitioned(queue', visited', explored + [queue[0].0], Record(rd, visited', d))
  {
    var c, q1, ex := queue[0].0, queue[1..], explored + [queue[0].0];
    assert queue[0] in queue;
    forall v | v in visited' ensures v in ex || v in QueueCells(queue') {
      if v in visited && v !in ex {
        var e :| e in queue && e.0 == v;
        var i :| 0 <= i < |queue| && queue[i] == e;
        assert i != 0 && queue'[i - 1] == q1[i - 1] == e;
      }
    }
  }

  /** Expanding the head: explored cells, the head among them, stay no deeper than the new head. */
  lemma ExpandBelowHead(adj: Cell -> seq<Cell>, maxSteps: Option<int>,
                        queue: seq<(Cell, seq<Cell>)>, visited: set<Cell>, explored: seq<Cell>, rd: map<Cell, nat>,
                        visited': set<Cell>, queue': seq<(Cell, seq<Cell>)>)
    requires queue != [] && Layered(queue) && QueueFresh(queue, explored, rd)
    requires Partitioned(queue, visited, explored, rd) && Frontier(adj, maxSteps, queue, explored, rd)
    requires queue[1..] <= queue'
    requires forall i :: |queue| - 1 <= i < |queue'| ==> |queue'[i].1| == |queue[0].1| + 1
    ensures var rd' := Record(rd, visited', |queue[0].1| + 1);
      queue' != [] ==> forall v :: v in explored + [queue[0].0] && v in rd' ==> rd'[v] <= |queue'[0].1|
  {
    var c, d, q1 := queue[0].0, |queue[0].1|, queue[1..];
    assert queue[0] in queue;
    if queue' != [] {
      var h := queue'[0];
      if q1 != [] {
        assert h == queue[1] && |queue[0].1| <= |queue[1].1|;
      }
      assert d <= |h.1|;
    }
  }

  /** Expanding the head: the steps of every expanded explored cell are recorded at most one step deeper. */
  lemma ExpandSteps(adj: Cell -> seq<Cell>, maxSteps: Option<int>,
                    queue: seq<(Cell, seq<Cell>)>, visited: set<Cell>, explored: seq<Cell>, rd: map<Cell, nat>,
                    visited': set<Cell>)
    requires queue != [] && Layered(queue) && QueueFresh(queue, explored, rd)
    requires Partitioned(queue, visited, explored, rd) && Frontier(adj, maxSteps, queue, explored, rd)
    requires visited <= visited'
    requires forall n :: n in adj(queue[0].0) ==> n in visited'
    ensures var rd' := Record(rd, visited', |queue[0].1| + 1);
      forall v, n :: v in explored + [queue[0].0] && v in rd' && Expands(maxSteps, rd'[v]) && n in adj(v) ==>
                     n in rd' && rd'[n] <= rd'[v] + 1
  {
    var c, d := queue[0].0, |queue[0].1|;
    var rd', ex := Record(rd, visited', d + 1), explored + [c];
    assert queue[0] in queue;
    DepthsNearHead(adj, maxSteps, queue, visited, explored, rd);
    forall v, n | v in ex && v in rd' && Expands(maxSteps, rd'[v]) && n in adj(v)
      ensures n in rd' && rd'[n] <= rd'[v] + 1
    {
      if v != c {
        assert v in explored && rd'[v] == rd[v];
      }
    }
  }

  /** Expanding the head keeps the frontier closed. */
  lemma ExpandClosed(adj: Cell -> seq<Cell>, maxSteps: Option<int>,
                     queue: seq<(Cell, seq<Cell>)>, visited: set<Cell>, explored: seq<Cell>, rd: map<Cell, nat>,
                     visited': set<Cell>, queue': seq<(Cell, seq<Cell>)>)
    requires queue != [] && Layered(queue) && QueueFresh(queue, explored, rd)
    requires Partitioned(queue, visited, explored, rd) && Frontier(adj, maxSteps, queue, explored, rd)
    requires visited <= visited' && queue[1..] <= queue'
    requires forall i :: |queue| - 1 <= i < |queue'| ==> |queue'[i].1| == |queue[0].1| + 1
    requires forall n :: n in adj(queue[0].0) ==> n in visited'
    ensures Frontier(adj, maxSteps, queue', explored + [queue[0].0], Record(rd, visited', |queue[0].1| + 1))
  {
    ExpandBelowHead(adj, maxSteps, queue, visited, explored, rd, visited', queue');
    ExpandSteps(adj, maxSteps, queue, visited, explored, rd, visited');
  }

  /** The entries added while expanding the head sit one step deeper than it. */
  lemma AddedDeeper(target: Cell, cell: Cell, path: seq<Cell>, visited: set<Cell>, k: nat, queue': seq<(Cell, seq<Cell>)>)
    requires forall i :: k <= i < |queue'| ==> Added(target, cell, path, visited, queue'[i])
    ensures forall i :: k <= i < |queue'| ==> |queue'[i].1| == |path| + 1
  {
    forall i | k <= i < |queue'| ensures |queue'[i].1| == |path| + 1 {
      assert Added(target, cell, path, visited, queue'[i]);
    }
  }

  /** Expanding the head: the recorded depths stay sound. */
  lemma ExpandDepths(start: Cell, target: Cell, maxSteps: Option<int>, adj: Cell -> seq<Cell>,
                     queue: seq<(Cell, seq<Cell>)>, visited: set<Cell>, explored: seq<Cell>, rd: map<Cell, nat>,
                     visited': set<Cell>, queue': seq<(Cell, seq<Cell>)>)
    requires queue != [] && Expands(maxSteps, |queue[0].1|)
    requires DepthsSound(start, adj, maxSteps, rd) && rd.Keys == visited
    requires queue[0].0 in rd && rd[queue[0].0] == |queue[0].1|
    requires forall e :: e in queue ==> e.0 in visited
    requires visited <= visited' && queue[1..] <= queue'
    requires forall i :: |queue| - 1 <= i < |queue'| ==> Added(target, queue[0].0, queue[0].1, visited, queue'[i])
    requires forall v :: v in visited' && v !in visited ==> v in QueueCells(queue')
    requires forall n :: n in GetNeighbors(queue[0].0) && n != target ==> n in adj(queue[0].0)
    ensures DepthsSound(start, adj, maxSteps, Record(rd, visited', |queue[0].1| + 1))
  {
    var c, d := queue[0].0, |queue[0].1|;
    var rd' := Record(rd, visited', d + 1);
    forall e | e in queue[1..] ensures e.0 in visited {
      assert e in queue;
    }
    forall v | v in rd' && v !in rd ensures v in Geometry.Ball(start, d + 1, adj) {
      NewCell(target, c, queue[0].1, visited, queue[1..], visited', queue', v);
      Geometry.BallStep(start, d, c, v, adj);
    }
  }

  /** Expanding the head moves it to the explored cells and queues its fresh steps one step deeper. */
  lemma DequeueExpand(start: Cell, target: Cell, maxSteps: Option<int>, adj: Cell -> seq<Cell>,
                      queue: seq<(Cell, seq<Cell>)>, visited: set<Cell>, explored: seq<Cell>, rd: map<Cell, nat>,
                      visited': set<Cell>, queue': seq<(Cell, seq<Cell>)>)
    requires Searching(start, target, maxSteps, adj, queue, visited, explored, rd) && queue != []
    requires Expands(maxSteps, |queue[0].1|)
    requires Enqueued(start, target, maxSteps, queue[0].0, queue[0].1, visited, queue[1..], visited', queue')
    requires forall n :: n in adj(queue[0].0) <==> n in GetNeighbors(queue[0].0) && n != target
    requires forall n :: n in GetNeighbors(queue[0].0) && n != target ==> n in visited'
    ensures Searching(start, target, maxSteps, adj, queue', visited', explored + [queue[0].0],
                      Record(rd, visited', |queue[0].1| + 1))
  {
    ExpandOrder(start, target, maxSteps, adj, queue, visited, explored, rd, visited', queue');
    ExpandReach(start, target, maxSteps, adj, queue, visited, explored, rd, visited', queue');
  }

  /** After expanding the head, the queue is still well formed, layered, fresh and partitioned. */
  lemma ExpandOrder(start: Cell, target: Cell, maxSteps: Option<int>, adj: Cell -> seq<Cell>,
                    queue: seq<(Cell, seq<Cell>)>, visited: set<Cell>, explored: seq<Cell>, rd: map<Cell, nat>,
                    visited': set<Cell>, queue': seq<(Cell, seq<Cell>)>)
    requires Searching(start, target, maxSteps, adj, queue, visited, explored, rd) && queue != []
    requires Enqueued(start, target, maxSteps, queue[0].0, queue[0].1, visited, queue[1..], visited', queue')
    ensures QueueOk(start, target, maxSteps, queue', visited') && Layered(queue')
    ensures var rd' := Record(rd, visited', |queue[0].1| + 1);
            QueueFresh(queue', explored + [queue[0].0], rd') && Partitioned(queue', visited', explored + [queue[0].0], rd')
  {
    var c, path := queue[0].0, queue[0].1;
    assert queue[0] in queue;
    forall e | e in queue ensures e.0 in visited {
    }
    forall e | e in queue' ensures e.0 in visited' {
    }
    ExpandQueue(target, c, path, queue, visited, explored, rd, visited', queue');
    ExpandPartitioned(queue, visited, explored, rd, visited', queue', |path| + 1);
  }

  /** After expanding the head, every expanded cell's steps are recorded and every depth is sound. */
  lemma ExpandReach(start: Cell, target: Cell, maxSteps: Option<int>, adj: Cell -> seq<Cell>,
                    queue: seq<(Cell, seq<Cell>)>, visited: set<Cell>, explored: seq<Cell>, rd: map<Cell, nat>,
                    visited': set<Cell>, queue': seq<(Cell, seq<Cell>)>)
    requires Searching(start, target, maxSteps, adj, queue, visited, explored, rd) && queue != []
    requires Expands(maxSteps, |queue[0].1|)
    requires Enqueued(start, target, maxSteps, queue[0].0, queue[0].1, visited, queue[1..], visited', queue')
    requires forall n :: n in adj(queue[0].0) <==> n in GetNeighbors(queue[0].0) && n != target
    requires forall n :: n in GetNeighbors(queue[0].0) && n != target ==> n in visited'
    ensures var rd' := Record(rd, visited', |queue[0].1| + 1);
            Frontier(adj, maxSteps, queue', explored + [queue[0].0], rd') && DepthsSound(start, adj, maxSteps, rd')
  {
    var c, path := queue[0].0, queue[0].1;
    assert queue[0] in queue;
    forall e | e in queue ensures e.0 in visited {
    }
    AddedDeeper(target, c, path, visited, |queue| - 1, queue');
    ExpandClosed(adj, maxSteps, queue, visited, explored, rd, visited', queue');
    HeadRecorded(queue, explored, rd);
    ExpandDepths(start, target, maxSteps, adj, queue, visited, explored, rd, visited', queue');
  }

  /** An expanded cell's steps are recorded at most one step deeper. */
  lemma FrontierAt(adj: Cell -> seq<Cell>, maxSteps: Option<int>, queue: seq<(Cell, seq<Cell>)>, explored: seq<Cell>,
                   rd: map<Cell, nat>, v: Cell, n: Cell)
    requires Frontier(adj, maxSteps, queue, explored, rd)
    requires v in explored && v in rd && Expands(maxSteps, rd[v]) && n in adj(v)
    ensures n in rd && rd[n] <= rd[v] + 1
  {
  }

  /** With the queue drained, a cell reachable in `k` steps within the bound was visited at depth at most `k`. */
  lemma {:induction false} Reached(start: Cell, maxSteps: Option<int>, adj: Cell -> seq<Cell>,
                                   explored: seq<Cell>, rd: map<Cell, nat>, k: nat, c: Cell)
    requires Frontier(adj, maxSteps, [], explored, rd) && start in rd && rd[start] == 0
    requires forall v :: v in rd ==> v in explored
    requires maxSteps.Some? ==> k <= Max(maxSteps.value, 0)
    requires c in Geometry.Ball(start, k, adj)
    ensures c in rd && rd[c] <= k
  {
    if k == 0 {
      assert c == start;
    } else {
      var inner, p := Geometry.BallCases(start, k, c, adj);
      if inner {
        Reached(start, maxSteps, adj, explored, rd, k - 1, c);
      } else {
        Reached(start, maxSteps, adj, explored, rd, k - 1, p);
        assert p in explored && Expands(maxSteps, rd[p]);
        FrontierAt(adj, maxSteps, [], explored, rd, p, c);
      }
    }
  }

  /**
   * With the queue drained, the explored cells are exactly those reachable
   * within the bound, each recorded at the fewest steps that reach it.
   */
  lemma SearchEnds(start: Cell, target: Cell, maxSteps: Option<int>, adj: Cell -> seq<Cell>, visited: set<Cell>,
                   explored: seq<Cell>, rd: map<Cell, nat>)
    requires Searching(start, target, maxSteps, adj, [], visited, explored, rd)
    ensures forall c :: c in explored <==> Reachable(start, adj, maxSteps, c)
    ensures forall c :: c in explored ==> c in rd && Shortest(start, adj, c, rd[c])
  {
    forall v | v in rd ensures v in explored {
      assert v !in QueueCells([]);
    }
    forall c | Reachable(start, adj, maxSteps, c) ensures c in explored {
      var k: nat := if maxSteps.Some? then Max(maxSteps.value, 0) else
        var d: nat :| c in Geometry.Ball(start, d, adj); d;
      Reached(start, maxSteps, adj, explored, rd, k, c);
    }
    forall c | c in explored ensures Reachable(start, adj, maxSteps, c) && Shortest(start, adj, c, rd[c]) {
      if maxSteps.Some? {
        Geometry.BallGrows(start, rd[c], Max(maxSteps.value, 0), adj);
      }
      forall e: nat | e < rd[c] ensures c !in Geometry.Ball(start, e, adj) {
        if c in Geometry.Ball(start, e, adj) {
          Reached(start, maxSteps, adj, explored, rd, e, c);
        }
      }
    }
  }

  /** The queue's head is recorded at its path's length. */
  lemma HeadRecorded(queue: seq<(Cell, seq<Cell>)>, explored: seq<Cell>, rd: map<Cell, nat>)
    requires queue != [] && QueueFresh(queue, explored, rd)
    ensures queue[0].0 in rd && rd[queue[0].0] == |queue[0].1|
  {
    assert queue[0] in queue;
  }

  /** Recording new depths keeps the old ones. */
  lemma RecordKeeps(rd: map<Cell, nat>, visited: set<Cell>, d: nat, v: Cell)
    requires rd.Keys <= visited && v in rd
    ensures v in Record(rd, visited, d) && Record(rd, visited, d)[v] == rd[v]
  {
  }

  /**
   * What the outer loop of `compute_path` keeps: the search state, and the
   * kept path once a cell has been dequeued. With `start == target` the loop
   * only goes round again after skipping the start for `max_steps <= 0`.
   */
  ghost predicate Outer(start: Cell, target: Cell, maxSteps: Option<int>, adj: Cell -> seq<Cell>,
                        queue: seq<(Cell, seq<Cell>)>, visited: set<Cell>, explored: seq<Cell>, rd: map<Cell, nat>,
                        k: nat, best: seq<Cell>, minDist: Option<nat>)
  {
    Searching(start, target, maxSteps, adj, queue, visited, explored, rd) &&
    (explored == [] ==> queue == [(start, [])] && minDist.None?) &&
    (explored != [] ==> BestSoFar(start, target, maxSteps, explored, k, best) &&
                        minDist == Some(Geometry.Dist2(best[|best| - 1], target)) &&
                        best[|best| - 1] in rd && |best| - 1 == rd[best[|best| - 1]]) &&
    (start == target && explored != [] ==> queue == [] && best == [start] && maxSteps.Some? && maxSteps.value <= 0)
  }

  lemma OuterBegins(start: Cell, target: Cell, maxSteps: Option<int>, adj: Cell -> seq<Cell>)
    ensures Outer(start, target, maxSteps, adj, [(start, [])], {start}, [], map[start := 0], 0, [], None)
  {
    SearchBegins(start, target, maxSteps, adj);
  }

  /** What the head of the queue brings to the distance check and to the expansion. */
  lemma OuterHead(start: Cell, target: Cell, maxSteps: Option<int>, adj: Cell -> seq<Cell>,
                  queue: seq<(Cell, seq<Cell>)>, visited: set<Cell>, explored: seq<Cell>, rd: map<Cell, nat>,
                  k: nat, best: seq<Cell>, minDist: Option<nat>)
    requires Outer(start, target, maxSteps, adj, queue, visited, explored, rd, k, best, minDist) && queue != []
    ensures ValidEntry(start, target, maxSteps, queue[0].0, queue[0].1)
    ensures queue[0].0 in rd && rd[queue[0].0] == |queue[0].1|
    ensures QueueOk(start, target, maxSteps, queue[1..], visited)
    ensures explored == [] ==> queue[0].0 == start && queue[0].1 == [] && minDist.None?
    ensures explored != [] ==> BestSoFar(start, target, maxSteps, explored, k, best) &&
                               minDist == Some(Geometry.Dist2(best[|best| - 1], target)) &&
                               best[|best| - 1] in rd && |best| - 1 == rd[best[|best| - 1]]
    ensures queue[0].0 == target ==> start == target && queue[0].1 == []
  {
    assert queue[0] in queue;
    HeadRecorded(queue, explored, rd);
    QueueOkTail(start, target, maxSteps, queue, visited);
  }

  /** A dequeued path of `max_steps` cells is not expanded. */
  lemma OuterSkip(start: Cell, target: Cell, maxSteps: Option<int>, adj: Cell -> seq<Cell>,
                  queue: seq<(Cell, seq<Cell>)>, visited: set<Cell>, explored: seq<Cell>, rd: map<Cell, nat>,
                  k: nat, best: seq<Cell>, minDist: Option<nat>,
                  explored': seq<Cell>, k': nat, best': seq<Cell>, minDist': Option<nat>)
    requires Outer(start, target, maxSteps, adj, queue, visited, explored, rd, k, best, minDist) && queue != []
    requires !Expands(maxSteps, |queue[0].1|)
    requires explored' == explored + [queue[0].0]
    requires BestSoFar(start, target, maxSteps, explored', k', best') &&
             minDist' == Some(Geometry.Dist2(best'[|best'| - 1], target)) &&
             best'[|best'| - 1] in rd && |best'| - 1 == rd[best'[|best'| - 1]]
    requires explored == [] ==> best' == queue[0].1 + [queue[0].0]
    ensures Outer(start, target, maxSteps, adj, queue[1..], visited, explored', rd, k', best', minDist')
  {
    DequeueSkip(start, target, maxSteps, adj, queue, visited, explored, rd);
    SkipStart(start, target, maxSteps, queue, explored, best');
  }

  /** The start, when it is the target, is dequeued first and alone, and is skipped only when `max_steps <= 0`. */
  lemma SkipStart(start: Cell, target: Cell, maxSteps: Option<int>, queue: seq<(Cell, seq<Cell>)>,
                  explored: seq<Cell>, best': seq<Cell>)
    requires queue != [] && (explored == [] ==> queue == [(start, [])]) && (start == target && explored != [] ==> queue == [])
    requires !Expands(maxSteps, |queue[0].1|) && (explored == [] ==> best' == queue[0].1 + [queue[0].0])
    ensures start == target ==> queue[1..] == [] && best' == [start] && maxSteps.Some? && maxSteps.value <= 0
  {
  }

  /** A dequeued cell other than the target, on a path shorter than `max_steps`, is expanded. */
  lemma OuterExpand(start: Cell, target: Cell, maxSteps: Option<int>, adj: Cell -> seq<Cell>,
                    queue: seq<(Cell, seq<Cell>)>, visited: set<Cell>, explored: seq<Cell>, rd: map<Cell, nat>,
                    k: nat, best: seq<Cell>, minDist: Option<nat>,
                    explored': seq<Cell>, k': nat, best': seq<Cell>, minDist': Option<nat>,
                    visited': set<Cell>, queue': seq<(Cell, seq<Cell>)>)
    requires Outer(start, target, maxSteps, adj, queue, visited, explored, rd, k, best, minDist) && queue != []
    requires Expands(maxSteps, |queue[0].1|) && queue[0].0 != target
    requires explored' == explored + [queue[0].0]
    requires BestSoFar(start, target, maxSteps, explored', k', best') &&
             minDist' == Some(Geometry.Dist2(best'[|best'| - 1], target)) &&
             best'[|best'| - 1] in rd && |best'| - 1 == rd[best'[|best'| - 1]]
    requires Enqueued(start, target, maxSteps, queue[0].0, queue[0].1, visited, queue[1..], visited', queue')
    requires forall n :: n in adj(queue[0].0) <==> n in GetNeighbors(queue[0].0) && n != target
    requires forall n :: n in GetNeighbors(queue[0].0) && n != target ==> n in visited'
    ensures Outer(start, target, maxSteps, adj, queue', visited', explored', Record(rd, visited', |queue[0].1| + 1),
                  k', best', minDist')
  {
    DequeueExpand(start, target, maxSteps, adj, queue, visited, explored, rd, visited', queue');
    RecordKeeps(rd, visited', |queue[0].1| + 1, best'[|best'| - 1]);
  }

  /**
   * With the queue drained, the explored cells are the reachable ones, once
   * each, and the kept cell is a closest one, reached in the fewest steps.
   */
  lemma OuterEnds(start: Cell, target: Cell, maxSteps: Option<int>, adj: Cell -> seq<Cell>, visited: set<Cell>,
                  explored: seq<Cell>, rd: map<Cell, nat>, k: nat, best: seq<Cell>, minDist: Option<nat>)
    requires Outer(start, target, maxSteps, adj, [], visited, explored, rd, k, best, minDist)
    ensures start == target ==> best == [start] && maxSteps.Some? && maxSteps.value <= 0
    ensures start != target ==> BestSoFar(start, target, maxSteps, explored, k, best)
    ensures start != target ==> (forall i, j :: 0 <= i < j < |explored| ==> explored[i] != explored[j]) &&
                                (forall c :: c in explored <==> Reachable(start, adj, maxSteps, c))
    ensures start != target ==> |best| >= 1 && ClosestReach(start, target, adj, maxSteps, best[|best| - 1], |best| - 1)
    ensures start != target && maxSteps.Some? ==> |best| - 1 <= Max(maxSteps.value, 0)
  {
    SearchEnds(start, target, maxSteps, adj, visited, explored, rd);
    var c := best[|best| - 1];
    assert c in explored;
  }

  /**
   * One turn of the loop of `compute_path`: dequeue the head, keep it when it
   * is closer, and expand it unless its path has `max_steps` cells. `found`
   * is the early return on dequeuing the target, which only the start can be.
   */
  method VisitHead(start: Cell, target: Cell, maxSteps: Option<int>, queue: seq<(Cell, seq<Cell>)>, visited: set<Cell>,
                   best: seq<Cell>, minDist: Option<nat>, ghost adj: Cell -> seq<Cell>, ghost explored: seq<Cell>,
                   ghost rd: map<Cell, nat>, ghost k: nat)
    returns (found: bool, queue': seq<(Cell, seq<Cell>)>, visited': set<Cell>, best': seq<Cell>, minDist': Option<nat>,
             ghost explored': seq<Cell>, ghost rd': map<Cell, nat>, ghost k': nat)
    requires adj == Moves(target)
    requires Outer(start, target, maxSteps, adj, queue, visited, explored, rd, k, best, minDist) && queue != []
    ensures found ==> start == target && (maxSteps.None? || maxSteps.value > 0)
    ensures !found ==> Outer(start, target, maxSteps, adj, queue', visited', explored', rd', k', best', minDist')
    ensures !found ==> |Grid() - visited'| < |Grid() - visited| ||
                       (|Grid() - visited'| == |Grid() - visited| && |queue'| < |queue|)
  {
    var (cell, path) := queue[0];
    OuterHead(start, target, maxSteps, adj, queue, visited, explored, rd, k, best, minDist);
    found, rd' := false, rd;
    best', minDist', explored', k' := KeepIfCloser(start, target, maxSteps, explored, k, best, minDist, cell, path, rd);
    if maxSteps.Some? && |path| >= maxSteps.value {
      queue', visited' := queue[1..], visited;
      OuterSkip(start, target, maxSteps, adj, queue, visited, explored, rd, k, best, minDist,
                explored', k', best', minDist');
      return;
    }
    if cell == target {
      found, queue', visited' := true, queue[1..], visited;
      return;
    }
    queue', visited', rd' := ExpandHead(start, target, maxSteps, queue, visited, adj, explored, rd, k, best, minDist,
                                        explored', k', best', minDist');
  }

  /** The expanding half of a loop turn: the head's fresh neighbours are queued one step deeper. */
  method ExpandHead(start: Cell, target: Cell, maxSteps: Option<int>, queue: seq<(Cell, seq<Cell>)>, visited: set<Cell>,
                    ghost adj: Cell -> seq<Cell>, ghost explored: seq<Cell>, ghost rd: map<Cell, nat>, ghost k: nat,
                    ghost best: seq<Cell>, ghost minDist: Option<nat>,
                    ghost explored': seq<Cell>, ghost k': nat, ghost best': seq<Cell>, ghost minDist': Option<nat>)
    returns (queue': seq<(Cell, seq<Cell>)>, visited': set<Cell>, ghost rd': map<Cell, nat>)
    requires adj == Moves(target)
    requires Outer(start, target, maxSteps, adj, queue, visited, explored, rd, k, best, minDist) && queue != []
    requires Expands(maxSteps, |queue[0].1|) && queue[0].0 != target
    requires explored' == explored + [queue[0].0]
    requires BestSoFar(start, target, maxSteps, explored', k', best') &&
             minDist' == Some(Geometry.Dist2(best'[|best'| - 1], target)) &&
             best'[|best'| - 1] in rd && |best'| - 1 == rd[best'[|best'| - 1]]
    ensures Outer(start, target, maxSteps, adj, queue', visited', explored', rd', k', best', minDist')
    ensures |Grid() - visited'| < |Grid() - visited| || (|Grid() - visited'| == |Grid() - visited| && |queue'| < |queue|)
  {
    OuterHead(start, target, maxSteps, adj, queue, visited, explored, rd, k, best, minDist);
    visited', queue' := EnqueueNeighbors(start, target, maxSteps, queue[0].0, queue[0].1, visited, queue[1..]);
    MovesAt(target, queue[0].0);
    rd' := Record(rd, visited', |queue[0].1| + 1);
    OuterExpand(start, target, maxSteps, adj, queue, visited, explored, rd, k, best, minDist,
                explored', k', best', minDist', visited', queue');
  }

  /**
   * The loop of `compute_path`: breadth-first from `start`, never enqueueing
   * the target or a visited cell and not expanding paths of `max_steps`
   * cells. `found` is the early return on dequeuing the target, which only
   * the start can be; otherwise the queue runs empty and `best` is the
   * dequeued cell strictly closest to the target (the first on ties) as
   * `path + [cell]`, and `explored` the order in which cells were dequeued.
   */
  method Explore(start: Cell, target: Cell, maxSteps: Option<int>)
    returns (found: bool, best: seq<Cell>, minDist: Option<nat>, ghost explored: seq<Cell>, ghost k: nat,
             visited: set<Cell>, ghost rd: map<Cell, nat>)
    ensures found ==> start == target && (maxSteps.None? || maxSteps.value > 0)
    ensures !found ==> Outer(start, target, maxSteps, Moves(target), [], visited, explored, rd, k, best, minDist)
  {
    var queue: seq<(Cell, seq<Cell>)> := [(start, [])];
    visited := {start};
    best, minDist := [], None;
    rd := map[start := 0];
    explored, k := [], 0;
    OuterBegins(start, target, maxSteps, Moves(target));
    while queue != []
      invariant Outer(start, target, maxSteps, Moves(target), queue, visited, explored, rd, k, best, minDist)
      decreases |Grid() - visited|, |queue|
    {
      found, queue, visited, best, minDist, explored, rd, k :=
        VisitHead(start, target, maxSteps, queue, visited, best, minDist, Moves(target), explored, rd, k);
      if found {
        return;
      }
    }
    found := false;
  }

  /**
   * `compute_path`: the path to the target when it is dequeued (the empty
   * path of the start), otherwise the kept `path + [cell]`, which repeats
   * that cell at the end.
   */
  method ComputePath(start: Cell, target: Cell, maxSteps: Option<int>)
    returns (r: seq<Cell>, ghost explored: seq<Cell>, ghost k: nat)
    ensures start == target && (maxSteps.None? || maxSteps.value > 0) ==> r == []
    ensures start == target && maxSteps.Some? && maxSteps.value <= 0 ==> r == [start]
    ensures start != target ==> BestSoFar(start, target, maxSteps, explored, k, r)
    ensures start != target ==> (forall i, j :: 0 <= i < j < |explored| ==> explored[i] != explored[j]) &&
                                (forall c :: c in explored <==> Reachable(start, Moves(target), maxSteps, c))
    ensures start != target ==> |r| >= 1 && ClosestReach(start, target, Moves(target), maxSteps, r[|r| - 1], |r| - 1)
    ensures start != target && maxSteps.Some? ==> |r| - 1 <= Max(maxSteps.value, 0)
  {
    var found, best, minDist, visited;
    ghost var rd;
    found, best, minDist, explored, k, visited, rd := Explore(start, target, maxSteps);
    r := if found then [] else best;
    if !found {
      OuterEnds(start, target, maxSteps, Moves(target), visited, explored, rd, k, r, minDist);
    }
  }

  // ---------------------------------------------------------------------------
  // The session's battle

  datatype Character = Character(name: string, hp: int, spellSlots: int, spells: seq<string>, speed: int)

  datatype SessionEnemy = SessionEnemy(name: string, hp: int, attack: int, pos: Cell)

  datatype RouteError = NoBattle | InvalidSpell | NoSpellSlots | NoPlayerPosition | BadRoll

  datatype AttackReply = AttackReply(hit: bool, damage: int, characterHp: int, enemyHp: int, enemyDefeated: bool)

  datatype EnemyReply = EnemyReply(steps: int, attacked: bool, hit: bool, characterHp: int, enemyHp: int,
                                   characterDefeated: bool, enemyPos: Cell)

  const MagicMissile := "Magic Missile"
  const Shield := "Shield"
  const GoblinSteps := 6

  /** The first neighbour in order that is not `avoid`. */
  function FirstOther(ns: seq<Cell>, avoid: Cell): (r: Option<nat>)
    ensures r.Some? ==> r.value < |ns| && ns[r.value] != avoid && forall j :: 0 <= j < r.value ==> ns[j] == avoid
    ensures r.None? ==> forall j :: 0 <= j < |ns| ==> ns[j] == avoid
  {
    if ns == [] then None
    else if ns[0] != avoid then Some(0)
    else match FirstOther(ns[1..], avoid)
      case None => None
      case Some(j) => Some(j + 1)
  }

  /** A cell the goblin jumps to beside an on-grid player has the player as its neighbour, so it attacks. */
  lemma JumpEndsAdjacent(player: Cell, avoid: Cell)
    requires Geometry.InGrid(player, Cols, Rows)
    requires FirstOther(GetNeighbors(player), avoid).Some?
    ensures player in GetNeighbors(GetNeighbors(player)[FirstOther(GetNeighbors(player), avoid).value])
  {
    var n := GetNeighbors(player)[FirstOther(GetNeighbors(player), avoid).value];
    Geometry.NeighborsSymmetric(player, n, Cols, Rows);
  }

  /** The player's cell from the form fields; a missing or non-integer field is the position error. */
  function PlayerPosition(col: Option<string>, row: Option<string>): (r: Option<Cell>)
    ensures r.Some? <==> col.Some? && row.Some? && Text.PyInt(col.value).Some? && Text.PyInt(row.value).Some?
    ensures r.Some? ==> r.value == Cell(Text.PyInt(col.value).value, Text.PyInt(row.value).value)
  {
    if col.None? || row.None? then None
    else match (Text.PyInt(col.value), Text.PyInt(row.value))
      case (Some(c), Some(r)) => Some(Cell(c, r))
      case _ => None
  }

  /**
   * After walking to `mid`, the goblin jumps to the player's first neighbour
   * other than its old cell `from` when `mid` is more than 1.5 away from the
   * player (squared distance over 2) and there is such a neighbour.
   */
  function Landing(from: Cell, player: Cell, mid: Cell): (to: Cell)
    ensures Geometry.Dist2(mid, player) <= 2 || FirstOther(GetNeighbors(player), from).None? ==> to == mid
    ensures Geometry.Dist2(mid, player) > 2 && FirstOther(GetNeighbors(player), from).Some? ==>
              to in GetNeighbors(player) && to != from &&
              exists i :: 0 <= i < |GetNeighbors(player)| && GetNeighbors(player)[i] == to &&
                          forall j :: 0 <= j < i ==> GetNeighbors(player)[j] == from
  {
    var jump := FirstOther(GetNeighbors(player), from);
    if Geometry.Dist2(mid, player) > 2 && jump.Some? then GetNeighbors(player)[jump.value] else mid
  }

  /**
   * Where the goblin ends up: it stays when already beside the player or on
   * the player's cell; otherwise `steps` is the fewest steps, at most 6,
   * through cells other than the player's, to a cell `mid` closest to the
   * player among all it can reach so, and it lands at `Landing` from `mid`
   * (from its own cell when `steps` is 0).
   */
  ghost predicate Approached(from: Cell, player: Cell, to: Cell, steps: int)
  {
    if player in GetNeighbors(from) || from == player then to == from && steps == 0
    else
      0 <= steps <= GoblinSteps &&
      exists mid :: ClosestReach(from, player, Moves(player), Some(GoblinSteps), mid, steps) &&
                    to == Landing(from, player, if steps > 0 then mid else from)
  }

  /** The movement half of `api_enemy_attack`. */
  method Approach(from: Cell, player: Cell) returns (to: Cell, steps: int)
    ensures Approached(from, player, to, steps)
  {
    to, steps := from, 0;
    if player !in GetNeighbors(from) {
      var path, _, _ := ComputePath(from, player, Some(GoblinSteps));
      steps := if |path| > 0 then |path| - 1 else 0;
      var mid := if steps > 0 then path[steps] else from;
      to := Landing(from, player, mid);
    }
  }

  /** The goblin's move and attack of `api_enemy_attack` once the battle and the player's cell are known. */
  method GoblinTurn(c: Character, e: SessionEnemy, player: Cell, hitRoll: int, damageRoll: int)
    returns (reply: EnemyReply, c': Character, e': SessionEnemy)
    ensures e' == e.(pos := reply.enemyPos) && reply.enemyHp == e'.hp
    ensures Approached(e.pos, player, reply.enemyPos, reply.steps)
    ensures reply.attacked == (player in GetNeighbors(reply.enemyPos))
    ensures reply.hit == (reply.attacked && hitRoll >= 10)
    ensures c' == c.(hp := reply.characterHp) && reply.characterHp == c.hp - (if reply.hit then damageRoll else 0) &&
            reply.characterDefeated == (reply.characterHp <= 0)
  {
    var to, steps := Approach(e.pos, player);
    e' := e.(pos := to);
    var attacked := player in GetNeighbors(to);
    var hit := attacked && hitRoll >= 10;
    c' := if hit then c.(hp := c.hp - damageRoll) else c;
    reply := EnemyReply(steps, attacked, hit, c'.hp, e'.hp, c'.hp <= 0, to);
  }

  class BattleSession {
    var character: Option<Character>
    var enemy: Option<SessionEnemy>

    constructor()
      ensures character.None? && enemy.None?
    {
      character, enemy := None, None;
    }

    /** `character_creation`: hp is constitution + 10, two slots, two spells, speed 30, and a 15 hp goblin at (5, 4). */
    method CreateCharacter(name: string, constitution: int)
      modifies this
      ensures character == Some(Character(name, constitution + 10, 2, [MagicMissile, Shield], 30))
      ensures enemy == Some(SessionEnemy("Goblin", 15, 4, Cell(5, 4)))
    {
      character := Some(Character(name, constitution + 10, 2, [MagicMissile, Shield], 30));
      enemy := Some(SessionEnemy("Goblin", 15, 4, Cell(5, 4)));
    }

    /**
     * `api_attack`: with both rolls given they are read as ints (a bad one
     * fails before anything changes), otherwise the d20 and d6 are rolled;
     * 10 or more hits and takes the damage off the enemy.
     */
    method Attack(hitRoll: Option<string>, damageRoll: Option<string>, autoHit: int, autoDamage: int)
      returns (r: Result<AttackReply, RouteError>)
      requires 1 <= autoHit <= 20 && 1 <= autoDamage <= 6
      modifies this
      ensures character == old(character)
      ensures (old(character).None? || old(enemy).None?) ==> r == Err(NoBattle) && enemy == old(enemy)
      ensures old(character).Some? && old(enemy).Some? ==>
        var manual := hitRoll.Some? && damageRoll.Some?;
        if manual && (Text.PyInt(hitRoll.value).None? || Text.PyInt(damageRoll.value).None?) then
          r == Err(BadRoll) && enemy == old(enemy)
        else
          var roll := if manual then Text.PyInt(hitRoll.value).value else autoHit;
          var damage := if manual then Text.PyInt(damageRoll.value).value else autoDamage;
          var hp := old(enemy).value.hp - (if roll >= 10 then damage else 0);
          enemy == Some(old(enemy).value.(hp := hp)) &&
          r == Ok(AttackReply(roll >= 10, if roll >= 10 then damage else 0, old(character).value.hp, hp, hp <= 0))
    {
      if character.None? || enemy.None? {
        return Err(NoBattle);
      }
      var roll, damage := autoHit, autoDamage;
      if hitRoll.Some? && damageRoll.Some? {
        var h, d := Text.PyInt(hitRoll.value), Text.PyInt(damageRoll.value);
        if h.None? || d.None? {
          return Err(BadRoll);
        }
        roll, damage := h.value, d.value;
      }
      var e := enemy.value;
      var dealt := 0;
      if roll >= 10 {
        dealt := damage;
        e := e.(hp := e.hp - damage);
      }
      enemy := Some(e);
      r := Ok(AttackReply(roll >= 10, dealt, character.value.hp, e.hp, e.hp <= 0));
    }

    /**
     * `api_cast_spell`: a spell the character does not know, or no slot left,
     * is refused with nothing changed; otherwise one slot is spent (Shield
     * included) and Magic Missile deals its 3..8 damage.
     */
    method CastSpell(spell: Option<string>, missileDamage: int) returns (r: Result<AttackReply, RouteError>)
      requires 3 <= missileDamage <= 8
      modifies this
      ensures (old(character).None? || old(enemy).None?) ==>
                r == Err(NoBattle) && character == old(character) && enemy == old(enemy)
      ensures old(character).Some? && old(enemy).Some? ==>
        var c, e := old(character).value, old(enemy).value;
        if spell.None? || spell.value !in c.spells then
          r == Err(InvalidSpell) && character == old(character) && enemy == old(enemy)
        else if c.spellSlots <= 0 then
          r == Err(NoSpellSlots) && character == old(character) && enemy == old(enemy)
        else
          var dealt := if spell.value == MagicMissile then missileDamage else 0;
          character == Some(c.(spellSlots := c.spellSlots - 1)) &&
          enemy == Some(e.(hp := e.hp - dealt)) &&
          r == Ok(AttackReply(dealt > 0, dealt, c.hp, e.hp - dealt, e.hp - dealt <= 0))
    {
      if character.None? || enemy.None? {
        return Err(NoBattle);
      }
      var c, e := character.value, enemy.value;
      if spell.None? || spell.value !in c.spells {
        return Err(InvalidSpell);
      }
      if c.spellSlots <= 0 {
        return Err(NoSpellSlots);
      }
      var dealt := 0;
      if spell.value == MagicMissile {
        dealt := missileDamage;
        e := e.(hp := e.hp - missileDamage);
      }
      c := c.(spellSlots := c.spellSlots - 1);
      character, enemy := Some(c), Some(e);
      r := Ok(AttackReply(dealt > 0, dealt, c.hp, e.hp, e.hp <= 0));
    }

    /**
     * `api_enemy_attack`: the goblin moves (see `Approach`) unless it is
     * already beside the player, and from beside the player it attacks: 10 or
     * more on the d20 takes the d6 off the character's hp.
     */
    method EnemyAttack(playerCol: Option<string>, playerRow: Option<string>, hitRoll: int, damageRoll: int)
      returns (r: Result<EnemyReply, RouteError>)
      requires 1 <= hitRoll <= 20 && 1 <= damageRoll <= 6
      modifies this
      ensures (old(character).None? || old(enemy).None?) ==>
                r == Err(NoBattle) && character == old(character) && enemy == old(enemy)
      ensures old(character).Some? && old(enemy).Some? && PlayerPosition(playerCol, playerRow).None? ==>
                r == Err(NoPlayerPosition) && character == old(character) && enemy == old(enemy)
      ensures r.Ok? ==> old(character).Some? && old(enemy).Some? && PlayerPosition(playerCol, playerRow).Some?
      ensures r.Ok? ==> enemy == Some(old(enemy).value.(pos := r.value.enemyPos)) && r.value.enemyHp == enemy.value.hp
      ensures r.Ok? ==> Approached(old(enemy).value.pos, PlayerPosition(playerCol, playerRow).value, r.value.enemyPos, r.value.steps)
      ensures r.Ok? ==> r.value.attacked == (PlayerPosition(playerCol, playerRow).value in GetNeighbors(r.value.enemyPos))
      ensures r.Ok? ==> r.value.hit == (r.value.attacked && hitRoll >= 10)
      ensures r.Ok? ==> character == Some(old(character).value.(hp := r.value.characterHp)) &&
                        r.value.characterHp == old(character).value.hp - (if r.value.hit then damageRoll else 0) &&
                        r.value.characterDefeated == (r.value.characterHp <= 0)
    {
      if character.None? || enemy.None? {
        return Err(NoBattle);
      }
      var position := PlayerPosition(playerCol, playerRow);
      if position.None? {
        return Err(NoPlayerPosition);
      }
      var reply, c, e := GoblinTurn(character.value, enemy.value, position.value, hitRoll, damageRoll);
      character, enemy := Some(c), Some(e);
      r := Ok(reply);
    }
  }
}
