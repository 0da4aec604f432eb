/**
 * Day 12, "Hill Climbing Algorithm": a grid of heights `a`..`z`. A step
 * goes to one of the four orthogonal neighbours and may climb at most one
 * unit (any descent is allowed). Part 1 is the fewest steps from the start
 * to the best-signal cell, found by breadth-first search; part 2 is the
 * fewest steps from any cell of height `a`.
 */
module Day12 {
  import opened Wrappers

  datatype Pos = Pos(x: int, y: int)

  /** Heights row by row (`at(x, y)` is `rows[y][x]`), the start and the best-signal cell. */
  datatype Heightmap = Heightmap(rows: seq<seq<nat>>, start: Pos, bestSignal: Pos) {

    /** Every row as wide as the first (`is_inside` reads the width off `rows[0]`). */
    predicate Valid() {
      |rows| >= 1 && forall y :: 0 <= y < |rows| ==> |rows[y]| == |rows[0]|
    }

    function Width(): nat
      requires Valid()
    {
      |rows[0]|
    }

    function Height(): nat {
      |rows|
    }

    predicate IsInside(p: Pos)
      requires Valid()
    {
      0 <= p.x < Width() && 0 <= p.y < Height()
    }

    function At(p: Pos): nat
      requires Valid() && IsInside(p)
    {
      rows[p.y][p.x]
    }
  }

  /** The four neighbours, in the order right, left, down, up. */
  function Adjacent(p: Pos): seq<Pos> {
    [Pos(p.x + 1, p.y), Pos(p.x - 1, p.y), Pos(p.x, p.y + 1), Pos(p.x, p.y - 1)]
  }

  /** `Adjacent` yields exactly the positions at Manhattan distance one, each once. */
  lemma AdjacentMeaning(p: Pos, q: Pos)
    ensures q in Adjacent(p) <==> (q.x - p.x) * (q.x - p.x) + (q.y - p.y) * (q.y - p.y) == 1
    ensures |Adjacent(p)| == 4
    ensures forall i, j :: 0 <= i < j < 4 ==> Adjacent(p)[i] != Adjacent(p)[j]
  {
    var dx, dy := q.x - p.x, q.y - p.y;
    if dx * dx + dy * dy == 1 {
      if dx != 0 {
        assert dy == 0 by {
          if dy != 0 {
            SquareAtLeastOne(dx);
            SquareAtLeastOne(dy);
          }
        }
        assert dx == 1 || dx == -1 by {
          if dx > 1 || dx < -1 {
            SquareAtLeastOne(dx - 1);
            SquareAtLeastOne(dx + 1);
          }
        }
      } else {
        assert dy == 1 || dy == -1 by {
          if dy > 1 || dy < -1 {
            SquareAtLeastOne(dy - 1);
            SquareAtLeastOne(dy + 1);
          }
        }
      }
    }
  }

  lemma SquareAtLeastOne(d: int)
    requires d != 0
    ensures d * d >= 1 && (d * d >= 4 || d == 1 || d == -1)
  {
    if d >= 2 {
      assert d * d >= 2 * d;
    } else if d <= -2 {
      assert d * d >= -2 * d;
    }
  }

  /** A step from `p` to its neighbour `q` is allowed: both in bounds, climbing at most one. */
  predicate Edge(m: Heightmap, p: Pos, q: Pos)
    requires m.Valid()
  {
    q in Adjacent(p) && Climbable(m, p, q)
  }

  /** Both cells are inside the grid and `q` is at most one unit higher than `p`. */
  predicate Climbable(m: Heightmap, p: Pos, q: Pos)
    requires m.Valid()
  {
    m.IsInside(p) && m.IsInside(q) && m.At(q) <= m.At(p) + 1
  }

  /**
   * `p` is reachable from `s` in at most `n` allowed steps: it is `s`, or it
   * is reachable in fewer, or one of its neighbours is and may step onto it.
   */
  ghost predicate Reach(m: Heightmap, s: Pos, p: Pos, n: nat)
    requires m.Valid()
    decreases n, 1
  {
    if n == 0 then p == s
    else
      var adj := Adjacent(p);
      Reach(m, s, p, n - 1) ||
      StepsOnto(m, s, adj[0], p, n) || StepsOnto(m, s, adj[1], p, n) ||
      StepsOnto(m, s, adj[2], p, n) || StepsOnto(m, s, adj[3], p, n)
  }

  /** `q` is reachable in at most `n - 1` steps and may step onto `p`. */
  ghost predicate StepsOnto(m: Heightmap, s: Pos, q: Pos, p: Pos, n: nat)
    requires m.Valid() && n > 0
    decreases n, 0
  {
    Climbable(m, q, p) && Reach(m, s, q, n - 1)
  }

  /** `p` is reachable in exactly `k` steps and no fewer. */
  ghost predicate Dist(m: Heightmap, s: Pos, p: Pos, k: nat)
    requires m.Valid()
  {
    Reach(m, s, p, k) && (k == 0 || !Reach(m, s, p, k - 1))
  }

  /** One more allowed step extends a walk by one. */
  lemma ReachStep(m: Heightmap, s: Pos, n: nat, p: Pos, q: Pos)
    requires m.Valid() && Reach(m, s, p, n) && Edge(m, p, q)
    ensures Reach(m, s, q, n + 1)
  {
    var adj := Adjacent(q);
    assert StepsOnto(m, s, p, q, n + 1);
    if q == Pos(p.x + 1, p.y) {
      assert p == adj[1];
    } else if q == Pos(p.x - 1, p.y) {
      assert p == adj[0];
    } else if q == Pos(p.x, p.y + 1) {
      assert p == adj[3];
    } else {
      assert p == adj[2];
    }
  }

  lemma {:induction false} ReachMonotone(m: Heightmap, s: Pos, p: Pos, a: nat, b: nat)
    requires m.Valid() && a <= b && Reach(m, s, p, a)
    ensures Reach(m, s, p, b)
    decreases b - a
  {
    if a < b {
      ReachMonotone(m, s, p, a + 1, b);
    }
  }

  /** A distance is a lower bound on every way of getting there. */
  lemma DistLeast(m: Heightmap, s: Pos, p: Pos, k: nat, n: nat)
    requires m.Valid() && Dist(m, s, p, k) && Reach(m, s, p, n)
    ensures k <= n
  {
    if n < k {
      ReachMonotone(m, s, p, n, k - 1);
    }
  }

  /** The distance is unique. */
  lemma DistUnique(m: Heightmap, s: Pos, p: Pos, k: nat, k': nat)
    requires m.Valid() && Dist(m, s, p, k) && Dist(m, s, p, k')
    ensures k == k'
  {
    DistLeast(m, s, p, k, k');
    DistLeast(m, s, p, k', k);
  }

  /** Zero steps reach only the start itself. */
  lemma DistZero(m: Heightmap, s: Pos, p: Pos)
    requires m.Valid()
    ensures Dist(m, s, p, 0) <==> p == s
  {
  }

  // ---------------------------------------------------------------------
  // Breadth-first search
  // ---------------------------------------------------------------------

  /** A queued position with the step count it was reached with. */
  datatype Entry = Entry(pos: Pos, steps: nat)

  /** The positions in the queue. */
  function Positions(queue: seq<Entry>): set<Pos> {
    if queue == [] then {} else Positions(queue[..|queue| - 1]) + {queue[|queue| - 1].pos}
  }

  lemma {:induction false} PositionsFront(queue: seq<Entry>)
    requires queue != []
    ensures Positions(queue) == {queue[0].pos} + Positions(queue[1..])
  {
    var n := |queue|;
    if n > 1 {
      assert queue[1..][..n - 2] == queue[..n - 1][1..];
      PositionsFront(queue[..n - 1]);
    } else {
      assert queue[1..] == [];
    }
  }

  lemma PositionsAppend(queue: seq<Entry>, e: Entry)
    ensures Positions(queue + [e]) == Positions(queue) + {e.pos}
  {
    assert (queue + [e])[..|queue|] == queue;
  }

  /** The cells `(0, y)` .. `(w - 1, y)`. */
  function Row(y: int, w: nat): set<Pos> {
    if w == 0 then {} else Row(y, w - 1) + {Pos(w - 1, y)}
  }

  /** The cells of the first `h` rows, each `w` wide. */
  function Grid(w: nat, h: nat): set<Pos> {
    if h == 0 then {} else Grid(w, h - 1) + Row(h - 1, w)
  }

  /** Every cell of the grid. */
  function Cells(m: Heightmap): set<Pos>
    requires m.Valid()
  {
    Grid(m.Width(), m.Height())
  }

  lemma {:induction false} RowMeaning(y: int, w: nat, p: Pos)
    ensures p in Row(y, w) <==> p.y == y && 0 <= p.x < w
  {
    if w > 0 {
      RowMeaning(y, w - 1, p);
    }
  }

  lemma {:induction false} GridMeaning(w: nat, h: nat, p: Pos)
    ensures p in Grid(w, h) <==> 0 <= p.x < w && 0 <= p.y < h
  {
    if h > 0 {
      GridMeaning(w, h - 1, p);
      RowMeaning(h - 1, w, p);
    }
  }

  /** `Cells` holds exactly the positions inside the grid. */
  lemma CellsMeaning(m: Heightmap, p: Pos)
    requires m.Valid()
    ensures p in Cells(m) <==> m.IsInside(p)
  {
    GridMeaning(m.Width(), m.Height(), p);
  }

  /** Every neighbour that `p` may step onto is in `visited`. */
  predicate Closed(m: Heightmap, p: Pos, visited: map<Pos, nat>)
    requires m.Valid()
  {
    var adj := Adjacent(p);
    (Climbable(m, p, adj[0]) ==> adj[0] in visited) && (Climbable(m, p, adj[1]) ==> adj[1] in visited) &&
    (Climbable(m, p, adj[2]) ==> adj[2] in visited) && (Climbable(m, p, adj[3]) ==> adj[3] in visited)
  }

  /** From a closed position `q`, every neighbour `p` of which `q` is a neighbour too is visited. */
  lemma ClosedCovers(m: Heightmap, q: Pos, p: Pos, visited: map<Pos, nat>)
    requires m.Valid() && Closed(m, q, visited) && q in Adjacent(p) && Climbable(m, q, p)
    ensures p in visited
  {
    var adj := Adjacent(q);
    if q == Pos(p.x + 1, p.y) {
      assert p == adj[1];
    } else if q == Pos(p.x - 1, p.y) {
      assert p == adj[0];
    } else if q == Pos(p.x, p.y + 1) {
      assert p == adj[3];
    } else {
      assert p == adj[2];
    }
  }

  /** The start is visited and every visited position is recorded with its exact distance. */
  ghost predicate Explored(m: Heightmap, start: Pos, visited: map<Pos, nat>)
    requires m.Valid()
  {
    start in visited && forall p | p in visited :: Dist(m, start, p, visited[p])
  }

  /**
   * The queue agrees with `visited`, is ordered by step count and holds
   * counts `d` and `d + 1` only.
   */
  ghost predicate QueueOk(visited: map<Pos, nat>, queue: seq<Entry>, d: nat) {
    (forall i | 0 <= i < |queue| :: queue[i].pos in visited && visited[queue[i].pos] == queue[i].steps) &&
    (forall i, j | 0 <= i <= j < |queue| :: queue[i].steps <= queue[j].steps) &&
    (forall i | 0 <= i < |queue| :: d <= queue[i].steps <= d + 1) &&
    (forall p | p in Positions(queue) :: p in visited && d <= visited[p] <= d + 1)
  }

  /**
   * Breadth-first search pays off: when every visited position closer than
   * `d` has had its neighbours visited, every position within `d` steps has
   * been visited.
   */
  lemma {:induction false} Complete(m: Heightmap, start: Pos, visited: map<Pos, nat>, d: nat, p: Pos, j: nat)
    requires m.Valid() && Explored(m, start, visited)
    requires forall q | q in visited && visited[q] < d :: Closed(m, q, visited)
    requires j <= d && Reach(m, start, p, j)
    ensures p in visited
    decreases j
  {
    if j > 0 {
      if Reach(m, start, p, j - 1) {
        Complete(m, start, visited, d, p, j - 1);
      } else {
        var q := Predecessor(m, start, p, j);
        Complete(m, start, visited, d, q, j - 1);
        assert Dist(m, start, q, visited[q]);
        DistLeast(m, start, q, visited[q], j - 1);
        ClosedCovers(m, q, p, visited);
      }
    }
  }

  /** A position first reached in `j` steps has a neighbour reached in `j - 1` that may step onto it. */
  lemma Predecessor(m: Heightmap, s: Pos, p: Pos, j: nat) returns (q: Pos)
    requires m.Valid() && j > 0 && Reach(m, s, p, j) && !Reach(m, s, p, j - 1)
    ensures q in Adjacent(p) && Climbable(m, q, p) && Reach(m, s, q, j - 1)
  {
    var adj := Adjacent(p);
    if StepsOnto(m, s, adj[0], p, j) {
      q := adj[0];
    } else if StepsOnto(m, s, adj[1], p, j) {
      q := adj[1];
    } else if StepsOnto(m, s, adj[2], p, j) {
      q := adj[2];
    } else {
      q := adj[3];
    }
  }

  /**
   * The search state while position `pos`, reached in `steps`, is being
   * expanded: `visited` is exact and in the grid, the queue holds counts
   * `steps` and `steps + 1` in order, every visited position that is
   * neither queued nor `pos` has had its neighbours visited, and the
   * target, once visited, is still waiting in the queue.
   */
  ghost predicate Frontier(m: Heightmap, start: Pos, visited: map<Pos, nat>, queue: seq<Entry>, pos: Pos, steps: nat)
    requires m.Valid()
  {
    Explored(m, start, visited) && (forall p | p in visited :: m.IsInside(p)) &&
    pos in visited && visited[pos] == steps && QueueOk(visited, queue, steps) &&
    (forall p | p in visited && p !in Positions(queue) && p != pos :: Closed(m, p, visited)) &&
    m.bestSignal != pos && (m.bestSignal in visited ==> m.bestSignal in Positions(queue))
  }

  /**
   * Expands one dequeued position `e`: each in-bounds neighbour not yet
   * visited with at most `e.steps + 1` steps, and no more than one unit
   * higher, is queued and recorded with `e.steps + 1`.
   */
  method Expand(m: Heightmap, ghost start: Pos, e: Entry, queue: seq<Entry>, visited: map<Pos, nat>)
    returns (queue': seq<Entry>, visited': map<Pos, nat>)
    requires m.Valid() && Frontier(m, start, visited, queue, e.pos, e.steps)
    ensures Explored(m, start, visited') && forall p | p in visited' :: m.IsInside(p)
    ensures QueueOk(visited', queue', e.steps)
    ensures forall p | p in visited' && p !in Positions(queue') :: Closed(m, p, visited')
    ensures m.bestSignal in visited' ==> m.bestSignal in Positions(queue')
    ensures 2 * |Cells(m) - visited'.Keys| + |queue'| <= 2 * |Cells(m) - visited.Keys| + |queue|
  {
    var pos, steps := e.pos, e.steps;
    forall q | Reach(m, start, q, steps)
      ensures q in visited
    {
      Complete(m, start, visited, steps, q, steps);
    }
    queue', visited' := queue, visited;
    var adj := Adjacent(pos);
    for i := 0 to 4
      invariant Frontier(m, start, visited', queue', pos, steps)
      invariant visited.Keys <= visited'.Keys
      invariant 0 < i && Climbable(m, pos, adj[0]) ==> adj[0] in visited'
      invariant 1 < i && Climbable(m, pos, adj[1]) ==> adj[1] in visited'
      invariant 2 < i && Climbable(m, pos, adj[2]) ==> adj[2] in visited'
      invariant 3 < i && Climbable(m, pos, adj[3]) ==> adj[3] in visited'
      invariant 2 * |Cells(m) - visited'.Keys| + |queue'| <= 2 * |Cells(m) - visited.Keys| + |queue|
    {
      queue', visited' := Visit(m, start, pos, steps, adj[i], queue', visited', visited);
    }
    assert Closed(m, pos, visited');
  }

  /** The body of the neighbour loop in `Expand`, for the neighbour `next`. */
  method Visit(m: Heightmap, ghost start: Pos, pos: Pos, steps: nat, next: Pos,
               queue: seq<Entry>, visited: map<Pos, nat>, ghost before: map<Pos, nat>)
    returns (queue': seq<Entry>, visited': map<Pos, nat>)
    requires m.Valid() && Frontier(m, start, visited, queue, pos, steps) && next in Adjacent(pos)
    requires before.Keys <= visited.Keys && forall q | Reach(m, start, q, steps) :: q in before
    ensures Frontier(m, start, visited', queue', pos, steps)
    ensures visited.Keys <= visited'.Keys
    ensures Climbable(m, pos, next) ==> next in visited'
    ensures if Climbable(m, pos, next) && next !in visited
            then queue' == queue + [Entry(next, steps + 1)] && visited' == visited[next := steps + 1]
            else queue' == queue && visited' == visited
    ensures 2 * |Cells(m) - visited'.Keys| + |queue'| <= 2 * |Cells(m) - visited.Keys| + |queue|
  {
    queue', visited' := queue, visited;
    if !m.IsInside(next) {
      return;
    }
    if next in visited && visited[next] <= steps + 1 {
      return;
    }
    var height := m.At(next);
    if height > m.At(pos) + 1 {
      return;
    }
    assert Edge(m, pos, next);
    NewlyReached(m, start, pos, steps, next, before, visited);
    queue' := queue + [Entry(next, steps + 1)];
    visited' := visited[next := steps + 1];
    PushKeepsFrontier(m, start, visited, queue, pos, steps, next);
    PushShrinks(m, visited, next, steps + 1);
  }

  /** Queueing and recording a newly reached position keeps the search state. */
  lemma PushKeepsFrontier(m: Heightmap, start: Pos, visited: map<Pos, nat>, queue: seq<Entry>, pos: Pos, steps: nat, next: Pos)
    requires m.Valid() && Frontier(m, start, visited, queue, pos, steps)
    requires m.IsInside(next) && next !in visited && Dist(m, start, next, steps + 1)
    ensures Frontier(m, start, visited[next := steps + 1], queue + [Entry(next, steps + 1)], pos, steps)
  {
    var visited', queue' := visited[next := steps + 1], queue + [Entry(next, steps + 1)];
    ExploredPush(m, start, visited, next, steps + 1);
    QueueOkPush(visited, queue, steps, next);
    PositionsAppend(queue, Entry(next, steps + 1));
    forall p | p in visited' && p !in Positions(queue') && p != pos
      ensures Closed(m, p, visited')
    {
      assert Closed(m, p, visited);
    }
  }

  /** Recording a position at its exact distance keeps `visited` exact. */
  lemma ExploredPush(m: Heightmap, start: Pos, visited: map<Pos, nat>, next: Pos, k: nat)
    requires m.Valid() && Explored(m, start, visited) && Dist(m, start, next, k)
    ensures Explored(m, start, visited[next := k])
  {
  }

  /** Queueing a new position one step further keeps the queue in order. */
  lemma QueueOkPush(visited: map<Pos, nat>, queue: seq<Entry>, steps: nat, next: Pos)
    requires QueueOk(visited, queue, steps) && next !in visited
    ensures QueueOk(visited[next := steps + 1], queue + [Entry(next, steps + 1)], steps)
  {
    PositionsAppend(queue, Entry(next, steps + 1));
    QueueOkSnoc(visited, queue, steps, Entry(next, steps + 1), visited[next := steps + 1],
                queue + [Entry(next, steps + 1)], Positions(queue));
  }

  lemma QueueOkSnoc(visited: map<Pos, nat>, queue: seq<Entry>, steps: nat, e: Entry,
                    visited': map<Pos, nat>, queue': seq<Entry>, ps: set<Pos>)
    requires QueueOk(visited, queue, steps) && e.pos !in visited && e.steps == steps + 1
    requires visited' == visited[e.pos := e.steps] && queue' == queue + [e]
    requires ps == Positions(queue) && Positions(queue') == ps + {e.pos}
    ensures QueueOk(visited', queue', steps)
  {
    SnocRecorded(visited, queue, e, visited', queue');
    SnocOrdered(queue, steps, e, queue');
    SnocPositions(visited, steps, e, visited', ps);
  }

  /** The queued counts still agree with `visited` after a push. */
  lemma SnocRecorded(visited: map<Pos, nat>, queue: seq<Entry>, e: Entry, visited': map<Pos, nat>, queue': seq<Entry>)
    requires forall i | 0 <= i < |queue| :: queue[i].pos in visited && visited[queue[i].pos] == queue[i].steps
    requires e.pos !in visited && visited' == visited[e.pos := e.steps] && queue' == queue + [e]
    ensures forall i | 0 <= i < |queue'| :: queue'[i].pos in visited' && visited'[queue'[i].pos] == queue'[i].steps
  {
    forall i | 0 <= i < |queue'|
      ensures queue'[i].pos in visited' && visited'[queue'[i].pos] == queue'[i].steps
    {
      if i < |queue| {
        assert queue'[i] == queue[i];
      }
    }
  }

  /** Pushing a count of `steps + 1` keeps the queue ordered and within its band. */
  lemma SnocOrdered(queue: seq<Entry>, steps: nat, e: Entry, queue': seq<Entry>)
    requires forall i, j | 0 <= i <= j < |queue| :: queue[i].steps <= queue[j].steps
    requires forall i | 0 <= i < |queue| :: steps <= queue[i].steps <= steps + 1
    requires e.steps == steps + 1 && queue' == queue + [e]
    ensures forall i, j | 0 <= i <= j < |queue'| :: queue'[i].steps <= queue'[j].steps
    ensures forall i | 0 <= i < |queue'| :: steps <= queue'[i].steps <= steps + 1
  {
  }

  /** The queued positions stay within the band after a push. */
  lemma SnocPositions(visited: map<Pos, nat>, steps: nat, e: Entry, visited': map<Pos, nat>, ps: set<Pos>)
    requires forall p | p in ps :: p in visited && steps <= visited[p] <= steps + 1
    requires e.steps == steps + 1 && visited' == visited[e.pos := e.steps]
    ensures forall p | p in ps + {e.pos} :: p in visited' && steps <= visited'[p] <= steps + 1
  {
  }

  /** Recording one more grid cell leaves one fewer unvisited. */
  lemma PushShrinks(m: Heightmap, visited: map<Pos, nat>, next: Pos, k: nat)
    requires m.Valid() && m.IsInside(next) && next !in visited
    ensures |Cells(m) - visited[next := k].Keys| + 1 == |Cells(m) - visited.Keys|
  {
    CellsMeaning(m, next);
    assert Cells(m) - visited[next := k].Keys == (Cells(m) - visited.Keys) - {next};
  }

  /**
   * A neighbour that passes the checks of `Expand` is new and lies exactly
   * one step further than the position being expanded.
   */
  lemma NewlyReached(m: Heightmap, start: Pos, pos: Pos, steps: nat, next: Pos,
                     visited: map<Pos, nat>, visited': map<Pos, nat>)
    requires m.Valid() && Explored(m, start, visited') && visited.Keys <= visited'.Keys
    requires pos in visited' && visited'[pos] == steps && Edge(m, pos, next)
    requires forall q | Reach(m, start, q, steps) :: q in visited
    requires !(next in visited' && visited'[next] <= steps + 1)
    ensures next !in visited' && Dist(m, start, next, steps + 1)
  {
    ReachStep(m, start, steps, pos, next);
    if next in visited' {
      DistLeast(m, start, next, visited'[next], steps + 1);
    }
  }

  /** Every position in the queue has an index there. */
  lemma {:induction false} PositionsIndex(queue: seq<Entry>, p: Pos)
    requires p in Positions(queue)
    ensures exists i :: 0 <= i < |queue| && queue[i].pos == p
  {
    var n := |queue|;
    if p != queue[n - 1].pos {
      PositionsIndex(queue[..n - 1], p);
      var i :| 0 <= i < n - 1 && queue[..n - 1][i].pos == p;
      assert queue[i].pos == p;
    }
  }

  /** A queue that is in order for `d` is in order for the count at its head. */
  lemma QueueOkAtHead(visited: map<Pos, nat>, queue: seq<Entry>, d: nat)
    requires QueueOk(visited, queue, d) && queue != []
    ensures QueueOk(visited, queue, queue[0].steps)
  {
    forall p | p in Positions(queue)
      ensures p in visited && queue[0].steps <= visited[p] <= queue[0].steps + 1
    {
      PositionsIndex(queue, p);
    }
  }

  /** Taking the head off an ordered queue leaves an ordered queue. */
  lemma QueueOkTail(visited: map<Pos, nat>, queue: seq<Entry>, d: nat)
    requires QueueOk(visited, queue, d) && queue != []
    ensures QueueOk(visited, queue[1..], d)
    ensures Positions(queue) == {queue[0].pos} + Positions(queue[1..])
  {
    PositionsFront(queue);
  }

  /**
   * The state of the search between dequeues: `visited` is exact and inside
   * the grid, the queue is in order for the count at its head, every
   * visited position no longer queued has had its neighbours visited, and
   * the target, once visited, is still waiting in the queue.
   */
  ghost predicate Searching(m: Heightmap, start: Pos, visited: map<Pos, nat>, queue: seq<Entry>)
    requires m.Valid()
  {
    Explored(m, start, visited) && (forall p | p in visited :: m.IsInside(p)) &&
    (queue != [] ==> QueueOk(visited, queue, queue[0].steps)) &&
    (forall p | p in visited && p !in Positions(queue) :: Closed(m, p, visited)) &&
    (m.bestSignal in visited ==> m.bestSignal in Positions(queue))
  }

  /** The search state at the start: only `start` is known, with no steps. */
  lemma SearchingInitially(m: Heightmap, start: Pos)
    requires m.Valid() && m.IsInside(start)
    ensures Searching(m, start, map[start := 0], [Entry(start, 0)])
  {
    DistZero(m, start, start);
    assert Positions([Entry(start, 0)]) == {start} by {
      assert [Entry(start, 0)][..0] == [];
    }
  }

  /** Dequeuing a position other than the target leaves it ready to expand. */
  lemma DequeueToExpand(m: Heightmap, start: Pos, visited: map<Pos, nat>, queue: seq<Entry>)
    requires m.Valid() && Searching(m, start, visited, queue) && queue != []
    requires queue[0].pos != m.bestSignal
    ensures Frontier(m, start, visited, queue[1..], queue[0].pos, queue[0].steps)
  {
    QueueOkTail(visited, queue, queue[0].steps);
  }

  /** What `Expand` leaves is a search state again. */
  lemma ExpandedSearching(m: Heightmap, start: Pos, d: nat, visited: map<Pos, nat>, queue: seq<Entry>)
    requires m.Valid() && Explored(m, start, visited) && (forall p | p in visited :: m.IsInside(p))
    requires QueueOk(visited, queue, d)
    requires forall p | p in visited && p !in Positions(queue) :: Closed(m, p, visited)
    requires m.bestSignal in visited ==> m.bestSignal in Positions(queue)
    ensures Searching(m, start, visited, queue)
  {
    if queue != [] {
      QueueOkAtHead(visited, queue, d);
    }
  }

  /** With the queue empty, every position reachable at all has been visited. */
  lemma Exhausted(m: Heightmap, start: Pos, visited: map<Pos, nat>, p: Pos, n: nat)
    requires m.Valid() && Searching(m, start, visited, []) && Reach(m, start, p, n)
    ensures p in visited
  {
    Complete(m, start, visited, n, p, n);
  }

  /**
   * Breadth-first search from `start` for the best-signal cell: the answer
   * is its distance when that is positive, and nothing when the target is
   * unreachable or is the start itself.
   */
  method LeastStepsToSignal(m: Heightmap, start: Pos) returns (r: Option<nat>)
    requires m.Valid() && m.IsInside(start)
    ensures r.Some? ==> r.value > 0 && Dist(m, start, m.bestSignal, r.value)
    ensures r.None? ==> m.bestSignal == start || forall n: nat :: !Reach(m, start, m.bestSignal, n)
  {
    var queue := [Entry(start, 0)];
    var visited := map[start := 0];
    var leastSteps := 0;
    ghost var found := false;
    SearchingInitially(m, start);
    while queue != []
      invariant Searching(m, start, visited, queue)
      invariant leastSteps == 0 && !found
      decreases 2 * |Cells(m) - visited.Keys| + |queue|
    {
      var e := queue[0];
      if e.pos == m.bestSignal {
        assert Dist(m, start, e.pos, e.steps);
        leastSteps := e.steps;
        found := true;
        break;
      }
      DequeueToExpand(m, start, visited, queue);
      queue := queue[1..];
      queue, visited := Expand(m, start, e, queue, visited);
      ExpandedSearching(m, start, e.steps, visited, queue);
    }
    if leastSteps > 0 {
      r := Some(leastSteps);
    } else {
      r := None;
      if found {
        DistZero(m, start, m.bestSignal);
      } else {
        forall n: nat
          ensures !Reach(m, start, m.bestSignal, n)
        {
          if Reach(m, start, m.bestSignal, n) {
            Exhausted(m, start, visited, m.bestSignal, n);
          }
        }
      }
    }
  }

  /** Part 1: the distance from the marked start, or 0 when there is none. */
  method Part1(m: Heightmap) returns (steps: nat)
    requires m.Valid() && m.IsInside(m.start)
    ensures steps > 0 ==> Dist(m, m.start, m.bestSignal, steps)
    ensures steps == 0 ==> m.bestSignal == m.start || forall n: nat :: !Reach(m, m.start, m.bestSignal, n)
  {
    var r := LeastStepsToSignal(m, m.start);
    steps := if r.Some? then r.value else 0;
  }

  /** A cell of height `a`: a candidate start for part 2. */
  predicate LowPoint(m: Heightmap, p: Pos)
    requires m.Valid()
  {
    m.IsInside(p) && m.At(p) == 'a' as nat
  }

  /**
   * Part 2: the fewest steps to the target from any cell of height `a`,
   * counting only starts from which the search reports a positive count.
   */
  method Part2(m: Heightmap) returns (fewest: nat)
    requires m.Valid()
    requires exists a, n :: LowPoint(m, a) && a != m.bestSignal && Reach(m, a, m.bestSignal, n)
    ensures exists a :: LowPoint(m, a) && a != m.bestSignal && Dist(m, a, m.bestSignal, fewest)
    ensures forall a, n | LowPoint(m, a) && a != m.bestSignal && Reach(m, a, m.bestSignal, n) :: fewest <= n
  {
    var points := StartingPoints(m);
    var steps: seq<nat> := [];
    ghost var from: seq<Pos> := [];
    for i := 0 to |points|
      invariant |from| == |steps|
      invariant forall k | 0 <= k < |steps| :: LowPoint(m, from[k]) && from[k] != m.bestSignal && Dist(m, from[k], m.bestSignal, steps[k])
      invariant forall j | 0 <= j < i :: points[j] == m.bestSignal || points[j] in from || forall n: nat :: !Reach(m, points[j], m.bestSignal, n)
    {
      var r := LeastStepsToSignal(m, points[i]);
      if r.Some? {
        assert points[i] != m.bestSignal by {
          if points[i] == m.bestSignal {
            DistZero(m, points[i], m.bestSignal);
            DistUnique(m, points[i], m.bestSignal, 0, r.value);
          }
        }
        steps := steps + [r.value];
        from := from + [points[i]];
      }
    }
    ghost var a, n :| LowPoint(m, a) && a != m.bestSignal && Reach(m, a, m.bestSignal, n);
    assert a in points;
    assert |steps| > 0;
    fewest := steps[0];
    ghost var at := 0;
    for i := 1 to |steps|
      invariant 0 <= at < |steps| && fewest == steps[at]
      invariant forall k | 0 <= k < i :: fewest <= steps[k]
    {
      if steps[i] < fewest {
        fewest, at := steps[i], i;
      }
    }
    assert LowPoint(m, from[at]) && from[at] != m.bestSignal && Dist(m, from[at], m.bestSignal, fewest);
    forall a, n | LowPoint(m, a) && a != m.bestSignal && Reach(m, a, m.bestSignal, n)
      ensures fewest <= n
    {
      assert a in points;
      var k :| 0 <= k < |from| && from[k] == a;
      DistLeast(m, a, m.bestSignal, steps[k], n);
    }
  }

  /** The cells of height `a`, row by row. */
  method StartingPoints(m: Heightmap) returns (points: seq<Pos>)
    requires m.Valid()
    ensures forall i | 0 <= i < |points| :: LowPoint(m, points[i])
    ensures forall p | LowPoint(m, p) :: p in points
  {
    points := [];
    for y := 0 to m.Height()
      invariant forall i | 0 <= i < |points| :: LowPoint(m, points[i])
      invariant forall p | LowPoint(m, p) && p.y < y :: p in points
    {
      for x := 0 to m.Width()
        invariant forall i | 0 <= i < |points| :: LowPoint(m, points[i])
        invariant forall p | LowPoint(m, p) && (p.y < y || (p.y == y && p.x < x)) :: p in points
      {
        if m.At(Pos(x, y)) == 'a' as nat {
          points := points + [Pos(x, y)];
        }
      }
    }
  }

  // ---------------------------------------------------------------------
  // Reading the map
  // ---------------------------------------------------------------------

  /** The height of a map character: `S` is an `a`, `E` a `z`, and any other character its low byte. */
  function CellHeight(c: char): (h: nat)
    ensures h < 256
    ensures c == 'S' ==> h == 'a' as nat
    ensures c == 'E' ==> h == 'z' as nat
    ensures 'a' <= c <= 'z' ==> h == c as nat
  {
    if c == 'S' then 'a' as nat else if c == 'E' then 'z' as nat else c as nat % 256
  }

  /** Character `c` stands at column `p.x` of line `p.y`. */
  predicate MarkAt(lines: seq<string>, p: Pos, c: char) {
    0 <= p.y < |lines| && 0 <= p.x < |lines[p.y]| && lines[p.y][p.x] == c
  }

  /** `p` comes no later than `q` in reading order. */
  predicate NotAfter(p: Pos, q: Pos) {
    p.y < q.y || (p.y == q.y && p.x <= q.x)
  }

  /** `p` holds the last `c` of the text in reading order. */
  ghost predicate LastMark(lines: seq<string>, p: Pos, c: char) {
    MarkAt(lines, p, c) && forall q | MarkAt(lines, q, c) :: NotAfter(q, p)
  }

  /**
   * Reads the map, one row per line: the start is the last `S` and the
   * target the last `E`, and both must be present.
   */
  method ReadHeightmap(lines: seq<string>) returns (m: Heightmap)
    requires exists p :: MarkAt(lines, p, 'S')
    requires exists p :: MarkAt(lines, p, 'E')
    ensures |m.rows| == |lines|
    ensures forall y | 0 <= y < |lines| :: |m.rows[y]| == |lines[y]|
    ensures forall y, x | 0 <= y < |lines| && 0 <= x < |lines[y]| :: m.rows[y][x] == CellHeight(lines[y][x])
    ensures LastMark(lines, m.start, 'S') && LastMark(lines, m.bestSignal, 'E')
  {
    var rows: seq<seq<nat>> := [];
    var start: Option<Pos> := None;
    var bestSignal: Option<Pos> := None;
    for y := 0 to |lines|
      invariant |rows| == y
      invariant forall j | 0 <= j < y :: |rows[j]| == |lines[j]|
      invariant forall j, x | 0 <= j < y && 0 <= x < |lines[j]| :: rows[j][x] == CellHeight(lines[j][x])
      invariant Seen(lines, start, 'S', Pos(0, y)) && Seen(lines, bestSignal, 'E', Pos(0, y))
    {
      var row;
      row, start, bestSignal := ReadRow(lines, y, start, bestSignal);
      SeenNextLine(lines, start, 'S', y);
      SeenNextLine(lines, bestSignal, 'E', y);
      rows := rows + [row];
    }
    m := Heightmap(rows, start.value, bestSignal.value);
  }

  /** Reads line `y`, noting every `S` and `E` on it. */
  method ReadRow(lines: seq<string>, y: nat, start: Option<Pos>, bestSignal: Option<Pos>)
    returns (row: seq<nat>, start': Option<Pos>, bestSignal': Option<Pos>)
    requires y < |lines|
    requires Seen(lines, start, 'S', Pos(0, y)) && Seen(lines, bestSignal, 'E', Pos(0, y))
    ensures |row| == |lines[y]| && forall x | 0 <= x < |row| :: row[x] == CellHeight(lines[y][x])
    ensures Seen(lines, start', 'S', Pos(|lines[y]|, y)) && Seen(lines, bestSignal', 'E', Pos(|lines[y]|, y))
  {
    row, start', bestSignal' := [], start, bestSignal;
    for x := 0 to |lines[y]|
      invariant |row| == x
      invariant forall i | 0 <= i < x :: row[i] == CellHeight(lines[y][i])
      invariant Seen(lines, start', 'S', Pos(x, y)) && Seen(lines, bestSignal', 'E', Pos(x, y))
    {
      var c := lines[y][x];
      SeenStep(lines, start', 'S', x, y);
      SeenStep(lines, bestSignal', 'E', x, y);
      if c == 'S' {
        start' := Some(Pos(x, y));
      } else if c == 'E' {
        bestSignal' := Some(Pos(x, y));
      }
      row := row + [CellHeight(c)];
    }
  }

  /** One more character read: a `c` there becomes the last one seen. */
  lemma SeenStep(lines: seq<string>, found: Option<Pos>, c: char, x: nat, y: nat)
    requires y < |lines| && x < |lines[y]| && Seen(lines, found, c, Pos(x, y))
    ensures lines[y][x] == c ==> Seen(lines, Some(Pos(x, y)), c, Pos(x + 1, y))
    ensures lines[y][x] != c ==> Seen(lines, found, c, Pos(x + 1, y))
  {
  }

  /** Nothing stands past the end of line `y`. */
  lemma SeenNextLine(lines: seq<string>, found: Option<Pos>, c: char, y: nat)
    requires y < |lines| && Seen(lines, found, c, Pos(|lines[y]|, y))
    ensures Seen(lines, found, c, Pos(0, y + 1))
  {
  }

  /**
   * `found` is the last `c` strictly before `upTo` in reading order, or
   * nothing when there is none there.
   */
  ghost predicate Seen(lines: seq<string>, found: Option<Pos>, c: char, upTo: Pos) {
    (found.Some? ==> MarkAt(lines, found.value, c) && !NotAfter(upTo, found.value)) &&
    forall q | MarkAt(lines, q, c) && !NotAfter(upTo, q) :: found.Some? && NotAfter(q, found.value)
  }
}
