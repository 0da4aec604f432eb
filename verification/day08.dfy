/**
 * Day 8, "Treetop Tree House": a rectangular grid of tree heights.
 * Part 1 counts the trees visible from outside the grid, by scanning inward
 * from every edge tree and keeping the running maximum; part 2 finds the
 * largest scenic score, the product of the four viewing distances.
 */
module Day08 {

  /** A move by one step; the offsets are `(-1, 0)`, `(1, 0)`, `(0, -1)`, `(0, 1)`. */
  datatype Dir = Left | Right | Up | Down

  /** The directions in the order `scenic_score` visits them. */
  const DIRECTIONS: seq<Dir> := [Left, Right, Up, Down]

  function Opposite(d: Dir): Dir {
    match d
    case Left => Right
    case Right => Left
    case Up => Down
    case Down => Up
  }

  /** The cell `t` steps from `(x, y)` in direction `d`. */
  function Cell(x: int, y: int, d: Dir, t: int): (int, int) {
    match d
    case Left => (x - t, y)
    case Right => (x + t, y)
    case Up => (x, y - t)
    case Down => (x, y + t)
  }

  /** The grid, row by row; `at(x, y)` is `rows[y][x]`. */
  datatype Map = Map(rows: seq<seq<nat>>) {

    /**
     * At least one tree, and no row shorter than the first: `width` reads
     * `rows[0]`, and the grid is its first `width` columns (what a longer
     * row holds past them is never read).
     */
    predicate Valid() {
      |rows| >= 1 && |rows[0]| >= 1 &&
      forall y :: 0 <= y < |rows| ==> |rows[y]| >= |rows[0]|
    }

    function Width(): nat
      requires Valid()
    {
      |rows[0]|
    }

    function Height(): nat {
      |rows|
    }

    predicate IsInside(x: int, y: int)
      requires Valid()
    {
      0 <= x < Width() && 0 <= y < Height()
    }

    /** Strictly inside the border ring. */
    predicate IsInsideEdge(x: int, y: int)
      requires Valid()
    {
      1 <= x < Width() - 1 && 1 <= y < Height() - 1
    }

    function At(x: int, y: int): nat
      requires Valid() && IsInside(x, y)
    {
      rows[y][x]
    }

    /** How many steps fit between `(x, y)` and the edge in direction `d`. */
    function Reach(x: int, y: int, d: Dir): int
      requires Valid()
    {
      match d
      case Left => x
      case Right => Width() - 1 - x
      case Up => y
      case Down => Height() - 1 - y
    }
  }

  lemma InsideEdgeIsInside(m: Map, x: int, y: int)
    requires m.Valid()
    ensures m.IsInsideEdge(x, y) <==>
      m.IsInside(x, y) && m.Reach(x, y, Left) > 0 && m.Reach(x, y, Right) > 0 &&
      m.Reach(x, y, Up) > 0 && m.Reach(x, y, Down) > 0
  {
  }

  /** Exactly the first `Reach` steps stay inside the grid. */
  lemma CellInside(m: Map, x: int, y: int, d: Dir, t: int)
    requires m.Valid() && m.IsInside(x, y) && t >= 0
    ensures m.IsInside(Cell(x, y, d, t).0, Cell(x, y, d, t).1) <==> t <= m.Reach(x, y, d)
  {
  }

  // ---------------------------------------------------------------------------
  // Scenic score (part 2)
  // ---------------------------------------------------------------------------

  /** The height of the tree at cell `c`; outside the grid there is no tree, written `0`. */
  function HeightAt(m: Map, c: (int, int)): nat
    requires m.Valid()
  {
    if m.IsInside(c.0, c.1) then m.At(c.0, c.1) else 0
  }

  /**
   * The viewing distance from `(x, y)` towards `d`, counted from step `t` on
   * when the first `t - 1` trees are all lower.
   */
  function ViewFrom(m: Map, x: int, y: int, d: Dir, t: nat): (n: nat)
    requires m.Valid() && m.IsInside(x, y)
    requires 1 <= t <= m.Reach(x, y, d) + 1
    ensures t - 1 <= n <= m.Reach(x, y, d)
    ensures forall s :: t <= s < n ==> HeightAt(m, Cell(x, y, d, s)) < m.At(x, y)
    ensures n == m.Reach(x, y, d) || (n >= t && HeightAt(m, Cell(x, y, d, n)) >= m.At(x, y))
    decreases m.Reach(x, y, d) + 1 - t
  {
    if t > m.Reach(x, y, d) then t - 1
    else if HeightAt(m, Cell(x, y, d, t)) >= m.At(x, y) then t
    else ViewFrom(m, x, y, d, t + 1)
  }

  /**
   * `n` trees are seen from `(x, y)` towards `d`: all trees before the `n`-th
   * are lower, and the `n`-th is the first one at least as tall, or the last
   * one before the edge.
   */
  predicate ViewStops(m: Map, x: int, y: int, d: Dir, n: nat)
    requires m.Valid() && m.IsInside(x, y)
  {
    n <= m.Reach(x, y, d) &&
    (forall s :: 1 <= s < n ==> HeightAt(m, Cell(x, y, d, s)) < m.At(x, y)) &&
    (n == m.Reach(x, y, d) || (n >= 1 && HeightAt(m, Cell(x, y, d, n)) >= m.At(x, y)))
  }

  /** The number of trees seen from `(x, y)` towards `d`. */
  function ViewDistance(m: Map, x: int, y: int, d: Dir): nat
    requires m.Valid() && m.IsInside(x, y)
  {
    ViewFrom(m, x, y, d, 1)
  }

  /** The view is stopped by the first tree at least as tall: `ViewDistance` is the one count that fits. */
  lemma ViewDistanceMeaning(m: Map, x: int, y: int, d: Dir, n: nat)
    requires m.Valid() && m.IsInside(x, y)
    ensures n == ViewDistance(m, x, y, d) <==> ViewStops(m, x, y, d, n)
  {
    var v := ViewDistance(m, x, y, d);
    assert ViewStops(m, x, y, d, v);
  }

  /** The product of the viewing distances in the first `i` directions of `DIRECTIONS`. */
  function ScoreUpTo(m: Map, x: int, y: int, i: nat): int
    requires m.Valid() && m.IsInside(x, y) && i <= |DIRECTIONS|
  {
    if i == 0 then 1 else ScoreUpTo(m, x, y, i - 1) * ViewDistance(m, x, y, DIRECTIONS[i - 1])
  }

  /** The scenic score: the product of the four viewing distances. */
  function Score(m: Map, x: int, y: int): int
    requires m.Valid() && m.IsInside(x, y)
  {
    ScoreUpTo(m, x, y, |DIRECTIONS|)
  }

  /** A tree on the border sees nothing on its outer side, so its score is 0. */
  lemma BorderScoreZero(m: Map, x: int, y: int)
    requires m.Valid() && m.IsInside(x, y) && !m.IsInsideEdge(x, y)
    ensures Score(m, x, y) == 0
  {
    var k :=
      if m.Reach(x, y, Left) == 0 then 0
      else if m.Reach(x, y, Right) == 0 then 1
      else if m.Reach(x, y, Up) == 0 then 2
      else 3;
    ViewDistanceMeaning(m, x, y, DIRECTIONS[k], ViewDistance(m, x, y, DIRECTIONS[k]));
    ZeroFactor(m, x, y, k, |DIRECTIONS|);
  }

  /** A zero viewing distance among the first `i` directions makes the product zero. */
  lemma {:induction false} ZeroFactor(m: Map, x: int, y: int, k: nat, i: nat)
    requires m.Valid() && m.IsInside(x, y) && k < i <= |DIRECTIONS|
    requires ViewDistance(m, x, y, DIRECTIONS[k]) == 0
    ensures ScoreUpTo(m, x, y, i) == 0
  {
    if k < i - 1 {
      ZeroFactor(m, x, y, k, i - 1);
    }
  }

  /** One direction of `scenic_score`: walk while inside, counting, and stop on a tall tree. */
  method CountTrees(m: Map, x: int, y: int, d: Dir) returns (n: nat)
    requires m.Valid() && m.IsInside(x, y)
    ensures n == ViewDistance(m, x, y, d)
  {
    var h := m.At(x, y);
    var cx, cy := Cell(x, y, d, 1).0, Cell(x, y, d, 1).1;
    n := 0;
    while m.IsInside(cx, cy)
      invariant n <= m.Reach(x, y, d)
      invariant (cx, cy) == Cell(x, y, d, n + 1)
      invariant forall s :: 1 <= s <= n ==> HeightAt(m, Cell(x, y, d, s)) < h
      decreases m.Reach(x, y, d) - n
    {
      CellInside(m, x, y, d, n + 1);
      n := n + 1;
      if m.At(cx, cy) >= h {
        ViewDistanceMeaning(m, x, y, d, n);
        return;
      }
      cx, cy := Cell(cx, cy, d, 1).0, Cell(cx, cy, d, 1).1;
    }
    CellInside(m, x, y, d, n + 1);
    ViewDistanceMeaning(m, x, y, d, n);
  }

  method ScenicScore(m: Map, x: int, y: int) returns (score: int)
    requires m.Valid() && m.IsInside(x, y)
    ensures score == Score(m, x, y)
  {
    score := 1;
    for i := 0 to |DIRECTIONS|
      invariant score == ScoreUpTo(m, x, y, i)
    {
      var n := CountTrees(m, x, y, DIRECTIONS[i]);
      score := score * n;
    }
  }

  /** The largest scenic score of any tree. */
  method Part2(m: Map) returns (score: int)
    requires m.Valid()
    ensures exists x, y :: m.IsInside(x, y) && Score(m, x, y) == score
    ensures forall x, y :: m.IsInside(x, y) ==> Score(m, x, y) <= score
  {
    score := 0;
    BorderScoreZero(m, 0, 0);
    ghost var bestX, bestY := 0, 0;
    for y := 0 to m.Height()
      invariant m.IsInside(bestX, bestY) && Score(m, bestX, bestY) == score
      invariant forall x', y' :: m.IsInside(x', y') && y' < y ==> Score(m, x', y') <= score
    {
      for x := 0 to m.Width()
        invariant m.IsInside(bestX, bestY) && Score(m, bestX, bestY) == score
        invariant forall x', y' :: m.IsInside(x', y') && (y' < y || (y' == y && x' < x)) ==>
          Score(m, x', y') <= score
      {
        var s := ScenicScore(m, x, y);
        if s > score {
          score := s;
          bestX, bestY := x, y;
        }
      }
    }
  }

  // ---------------------------------------------------------------------------
  // Visibility (part 1)
  // ---------------------------------------------------------------------------

  /** Every tree between `(x, y)` and the edge towards `d` is strictly lower. */
  predicate VisibleFrom(m: Map, x: int, y: int, d: Dir)
    requires m.Valid()
  {
    forall s :: 1 <= s <= m.Reach(x, y, d) ==> HeightAt(m, Cell(x, y, d, s)) < HeightAt(m, (x, y))
  }

  predicate Visible(m: Map, x: int, y: int)
    requires m.Valid()
  {
    VisibleFrom(m, x, y, Left) || VisibleFrom(m, x, y, Right) ||
    VisibleFrom(m, x, y, Up) || VisibleFrom(m, x, y, Down)
  }

  /** A tree on the border has nothing between it and the outside. */
  lemma BorderVisible(m: Map, x: int, y: int)
    requires m.Valid() && m.IsInside(x, y) && !m.IsInsideEdge(x, y)
    ensures Visible(m, x, y)
  {
    if m.Reach(x, y, Left) == 0 {
      assert VisibleFrom(m, x, y, Left);
    } else if m.Reach(x, y, Right) == 0 {
      assert VisibleFrom(m, x, y, Right);
    } else if m.Reach(x, y, Up) == 0 {
      assert VisibleFrom(m, x, y, Up);
    } else {
      assert VisibleFrom(m, x, y, Down);
    }
  }

  /** The interior trees visible from outside the grid. */
  ghost function VisibleInterior(m: Map): set<(int, int)>
    requires m.Valid()
  {
    set x, y | 0 <= x < m.Width() && 0 <= y < m.Height() &&
      m.IsInsideEdge(x, y) && Visible(m, x, y) :: (x, y)
  }

  /** The tallest of the first `t` trees of the ray from `(sx, sy)` towards `d`. */
  function RayMax(m: Map, sx: int, sy: int, d: Dir, t: nat): nat
    requires m.Valid() && t >= 1
  {
    if t == 1 then HeightAt(m, Cell(sx, sy, d, 0))
    else
      var prev := RayMax(m, sx, sy, d, t - 1);
      var here := HeightAt(m, Cell(sx, sy, d, t - 1));
      if here > prev then here else prev
  }

  lemma {:induction false} RayMaxIsMax(m: Map, sx: int, sy: int, d: Dir, t: nat)
    requires m.Valid() && t >= 1
    ensures forall s :: 0 <= s < t ==> HeightAt(m, Cell(sx, sy, d, s)) <= RayMax(m, sx, sy, d, t)
    ensures exists s :: 0 <= s < t && HeightAt(m, Cell(sx, sy, d, s)) == RayMax(m, sx, sy, d, t)
  {
    if t == 1 {
      assert HeightAt(m, Cell(sx, sy, d, 0)) == RayMax(m, sx, sy, d, t);
    } else {
      RayMaxIsMax(m, sx, sy, d, t - 1);
      if HeightAt(m, Cell(sx, sy, d, t - 1)) > RayMax(m, sx, sy, d, t - 1) {
        assert HeightAt(m, Cell(sx, sy, d, t - 1)) == RayMax(m, sx, sy, d, t);
      } else {
        var s :| 0 <= s < t - 1 && HeightAt(m, Cell(sx, sy, d, s)) == RayMax(m, sx, sy, d, t - 1);
        assert HeightAt(m, Cell(sx, sy, d, s)) == RayMax(m, sx, sy, d, t);
      }
    }
  }

  /** A ray from an edge tree into the grid, along a row or column that is not itself on the border. */
  predicate EdgeRay(m: Map, sx: int, sy: int, d: Dir)
    requires m.Valid()
  {
    m.IsInside(sx, sy) && m.Reach(sx, sy, Opposite(d)) == 0 &&
    match d
    case Left | Right => 1 <= sy < m.Height() - 1
    case Up | Down => 1 <= sx < m.Width() - 1
  }

  /** Walking back `s` steps from step `t` of a ray lands on step `t - s`. */
  lemma CellBack(x: int, y: int, d: Dir, t: int, s: int)
    ensures Cell(Cell(x, y, d, t).0, Cell(x, y, d, t).1, Opposite(d), s) == Cell(x, y, d, t - s)
  {
  }

  lemma CellNext(x: int, y: int, d: Dir, t: int)
    ensures Cell(Cell(x, y, d, t).0, Cell(x, y, d, t).1, d, 1) == Cell(x, y, d, t + 1)
  {
  }

  /** From step `t` of an edge ray, the edge behind is `t` steps away. */
  lemma ReachBack(m: Map, sx: int, sy: int, d: Dir, t: int)
    requires m.Valid() && EdgeRay(m, sx, sy, d)
    ensures m.Reach(Cell(sx, sy, d, t).0, Cell(sx, sy, d, t).1, Opposite(d)) == t
  {
  }

  /**
   * Looking back from step `t` of an edge ray, the trees before it are the
   * first `t` trees of the ray, so it is visible that way exactly when it is
   * taller than all of them.
   */
  lemma RayVisibility(m: Map, sx: int, sy: int, d: Dir, t: nat)
    requires m.Valid() && EdgeRay(m, sx, sy, d)
    requires 1 <= t <= m.Reach(sx, sy, d)
    ensures VisibleFrom(m, Cell(sx, sy, d, t).0, Cell(sx, sy, d, t).1, Opposite(d)) <==>
      HeightAt(m, Cell(sx, sy, d, t)) > RayMax(m, sx, sy, d, t)
  {
    var c := Cell(sx, sy, d, t);
    var o := Opposite(d);
    ReachBack(m, sx, sy, d, t);
    RayMaxIsMax(m, sx, sy, d, t);
    var mx := RayMax(m, sx, sy, d, t);
    if VisibleFrom(m, c.0, c.1, o) {
      var s :| 0 <= s < t && HeightAt(m, Cell(sx, sy, d, s)) == mx;
      CellBack(sx, sy, d, t, t - s);
      assert HeightAt(m, Cell(c.0, c.1, o, t - s)) < HeightAt(m, c);
    } else {
      var s :| 1 <= s <= t && HeightAt(m, Cell(c.0, c.1, o, s)) >= HeightAt(m, c);
      CellBack(sx, sy, d, t, s);
      assert HeightAt(m, Cell(sx, sy, d, t - s)) <= mx;
    }
  }

  /** The cells of steps `1 .. t - 1` of an edge ray that are visible looking back to its start. */
  ghost function RaySeen(m: Map, sx: int, sy: int, d: Dir, t: nat): set<(int, int)>
    requires m.Valid()
  {
    if t <= 1 then {}
    else
      var c := Cell(sx, sy, d, t - 1);
      RaySeen(m, sx, sy, d, t - 1) +
      if VisibleFrom(m, c.0, c.1, Opposite(d)) then {c} else {}
  }

  lemma {:induction false} RaySeenMembers(m: Map, sx: int, sy: int, d: Dir, t: nat, c: (int, int))
    requires m.Valid()
    ensures c in RaySeen(m, sx, sy, d, t) <==>
      exists s :: 1 <= s < t && c == Cell(sx, sy, d, s) && VisibleFrom(m, c.0, c.1, Opposite(d))
  {
    if t > 1 {
      RaySeenMembers(m, sx, sy, d, t - 1, c);
    }
  }

  /** Whether step `t` of a ray is on the border ring, given the ray runs along an interior lane. */
  lemma RayInsideEdge(m: Map, sx: int, sy: int, d: Dir, t: nat)
    requires m.Valid() && EdgeRay(m, sx, sy, d) && t >= 1
    ensures m.IsInsideEdge(Cell(sx, sy, d, t).0, Cell(sx, sy, d, t).1) <==> t < m.Reach(sx, sy, d)
  {
  }

  /** What one step of a scan adds, and how it moves the running maximum. */
  lemma ScanStep(m: Map, sx: int, sy: int, d: Dir, t: nat)
    requires m.Valid() && EdgeRay(m, sx, sy, d)
    requires 1 <= t < m.Reach(sx, sy, d)
    ensures m.IsInside(Cell(sx, sy, d, t).0, Cell(sx, sy, d, t).1)
    ensures RaySeen(m, sx, sy, d, t + 1) == RaySeen(m, sx, sy, d, t) +
      if HeightAt(m, Cell(sx, sy, d, t)) > RayMax(m, sx, sy, d, t) then {Cell(sx, sy, d, t)} else {}
  {
    CellInside(m, sx, sy, d, t);
    RayVisibility(m, sx, sy, d, t);
  }

  /**
   * One scan of `part1`: walk inward from an edge tree while strictly inside
   * the border, adding each tree taller than all before it on the ray.
   */
  method Scan(m: Map, sx: int, sy: int, d: Dir, visible: set<(int, int)>) returns (r: set<(int, int)>)
    requires m.Valid() && EdgeRay(m, sx, sy, d)
    ensures r == visible + RaySeen(m, sx, sy, d, m.Reach(sx, sy, d))
  {
    r := visible;
    var x, y := sx, sy;
    var maxH := m.At(x, y);
    x, y := Cell(x, y, d, 1).0, Cell(x, y, d, 1).1;
    ghost var t := 1;
    while m.IsInsideEdge(x, y)
      invariant 1 <= t && (t <= m.Reach(sx, sy, d) || t == 1)
      invariant (x, y) == Cell(sx, sy, d, t)
      invariant maxH == RayMax(m, sx, sy, d, t)
      invariant r == visible + RaySeen(m, sx, sy, d, t)
      decreases m.Reach(sx, sy, d) - t
    {
      RayInsideEdge(m, sx, sy, d, t);
      ScanStep(m, sx, sy, d, t);
      var h := m.At(x, y);
      ghost var seen := RaySeen(m, sx, sy, d, t);
      if h > maxH {
        assert RaySeen(m, sx, sy, d, t + 1) == seen + {(x, y)};
        r := r + {(x, y)};
        maxH := h;
      } else {
        assert RaySeen(m, sx, sy, d, t + 1) == seen;
      }
      CellNext(sx, sy, d, t);
      x, y := Cell(x, y, d, 1).0, Cell(x, y, d, 1).1;
      t := t + 1;
    }
    RayInsideEdge(m, sx, sy, d, t);
    if m.Reach(sx, sy, d) == 0 {
      assert RaySeen(m, sx, sy, d, t) == {} == RaySeen(m, sx, sy, d, 0);
    } else {
      assert t == m.Reach(sx, sy, d);
    }
  }

  /**
   * The scans of `part1` that have been run: columns `1 .. top - 1` from the
   * top edge, `1 .. bottom - 1` from the bottom edge, rows `1 .. left - 1`
   * from the left edge and `1 .. right - 1` from the right edge.
   */
  ghost predicate Collected(m: Map, c: (int, int), top: int, bottom: int, left: int, right: int)
    requires m.Valid()
  {
    m.IsInsideEdge(c.0, c.1) &&
    ((c.0 < top && VisibleFrom(m, c.0, c.1, Up)) ||
     (c.0 < bottom && VisibleFrom(m, c.0, c.1, Down)) ||
     (c.1 < left && VisibleFrom(m, c.0, c.1, Left)) ||
     (c.1 < right && VisibleFrom(m, c.0, c.1, Right)))
  }

  /** The trees one scan collects: the interior trees of its lane visible towards the scan's edge. */
  lemma ScanMembers(m: Map, sx: int, sy: int, d: Dir, c: (int, int))
    requires m.Valid() && EdgeRay(m, sx, sy, d)
    ensures c in RaySeen(m, sx, sy, d, m.Reach(sx, sy, d)) <==>
      m.IsInsideEdge(c.0, c.1) && (if d in {Left, Right} then c.1 == sy else c.0 == sx) &&
      VisibleFrom(m, c.0, c.1, Opposite(d))
  {
    var n := m.Reach(sx, sy, d);
    RaySeenMembers(m, sx, sy, d, n, c);
    if c in RaySeen(m, sx, sy, d, n) {
      var s :| 1 <= s < n && c == Cell(sx, sy, d, s) && VisibleFrom(m, c.0, c.1, Opposite(d));
      RayInsideEdge(m, sx, sy, d, s);
    } else if m.IsInsideEdge(c.0, c.1) && (if d in {Left, Right} then c.1 == sy else c.0 == sx) {
      var s := match d
        case Right => c.0
        case Left => m.Width() - 1 - c.0
        case Down => c.1
        case Up => m.Height() - 1 - c.1;
      assert c == Cell(sx, sy, d, s);
      RayInsideEdge(m, sx, sy, d, s);
    }
  }

  /** After every scan, the collected trees are exactly the visible interior trees. */
  lemma CollectedAll(m: Map, visible: set<(int, int)>)
    requires m.Valid()
    requires forall c :: c in visible <==>
      Collected(m, c, m.Width() - 1, m.Width() - 1, m.Height() - 1, m.Height() - 1)
    ensures visible == VisibleInterior(m)
  {
    forall c | c in VisibleInterior(m)
      ensures c in visible
    {
    }
    forall c | c in visible
      ensures c in VisibleInterior(m)
    {
      assert m.IsInsideEdge(c.0, c.1) && Visible(m, c.0, c.1);
    }
  }

  /** The scans down from the top edge, one per interior column. */
  method ScanTop(m: Map, visible: set<(int, int)>) returns (r: set<(int, int)>)
    requires m.Valid()
    requires forall c :: c in visible <==> Collected(m, c, 1, 1, 1, 1)
    ensures forall c :: c in r <==> Collected(m, c, m.Width() - 1, 1, 1, 1)
  {
    r := visible;
    var x := 1;
    while x < m.Width() - 1
      invariant 1 <= x && (x <= m.Width() - 1 || x == 1)
      invariant forall c :: c in r <==> Collected(m, c, x, 1, 1, 1)
    {
      forall c ensures c in RaySeen(m, x, 0, Down, m.Reach(x, 0, Down)) <==>
        m.IsInsideEdge(c.0, c.1) && c.0 == x && VisibleFrom(m, c.0, c.1, Up)
      {
        ScanMembers(m, x, 0, Down, c);
      }
      r := Scan(m, x, 0, Down, r);
      x := x + 1;
    }
  }

  /** The scans up from the bottom edge. */
  method ScanBottom(m: Map, visible: set<(int, int)>) returns (r: set<(int, int)>)
    requires m.Valid()
    requires forall c :: c in visible <==> Collected(m, c, m.Width() - 1, 1, 1, 1)
    ensures forall c :: c in r <==> Collected(m, c, m.Width() - 1, m.Width() - 1, 1, 1)
  {
    r := visible;
    var x := 1;
    while x < m.Width() - 1
      invariant 1 <= x && (x <= m.Width() - 1 || x == 1)
      invariant forall c :: c in r <==> Collected(m, c, m.Width() - 1, x, 1, 1)
    {
      forall c ensures c in RaySeen(m, x, m.Height() - 1, Up, m.Reach(x, m.Height() - 1, Up)) <==>
        m.IsInsideEdge(c.0, c.1) && c.0 == x && VisibleFrom(m, c.0, c.1, Down)
      {
        ScanMembers(m, x, m.Height() - 1, Up, c);
      }
      r := Scan(m, x, m.Height() - 1, Up, r);
      x := x + 1;
    }
  }

  /** The scans rightwards from the left edge, one per interior row. */
  method ScanLeft(m: Map, visible: set<(int, int)>) returns (r: set<(int, int)>)
    requires m.Valid()
    requires forall c :: c in visible <==> Collected(m, c, m.Width() - 1, m.Width() - 1, 1, 1)
    ensures forall c :: c in r <==> Collected(m, c, m.Width() - 1, m.Width() - 1, m.Height() - 1, 1)
  {
    r := visible;
    var y := 1;
    while y < m.Height() - 1
      invariant 1 <= y && (y <= m.Height() - 1 || y == 1)
      invariant forall c :: c in r <==> Collected(m, c, m.Width() - 1, m.Width() - 1, y, 1)
    {
      forall c ensures c in RaySeen(m, 0, y, Right, m.Reach(0, y, Right)) <==>
        m.IsInsideEdge(c.0, c.1) && c.1 == y && VisibleFrom(m, c.0, c.1, Left)
      {
        ScanMembers(m, 0, y, Right, c);
      }
      r := Scan(m, 0, y, Right, r);
      y := y + 1;
    }
  }

  /** The scans leftwards from the right edge. */
  method ScanRight(m: Map, visible: set<(int, int)>) returns (r: set<(int, int)>)
    requires m.Valid()
    requires forall c :: c in visible <==> Collected(m, c, m.Width() - 1, m.Width() - 1, m.Height() - 1, 1)
    ensures r == VisibleInterior(m)
  {
    r := visible;
    var y := 1;
    while y < m.Height() - 1
      invariant 1 <= y && (y <= m.Height() - 1 || y == 1)
      invariant forall c :: c in r <==> Collected(m, c, m.Width() - 1, m.Width() - 1, m.Height() - 1, y)
    {
      forall c ensures c in RaySeen(m, m.Width() - 1, y, Left, m.Reach(m.Width() - 1, y, Left)) <==>
        m.IsInsideEdge(c.0, c.1) && c.1 == y && VisibleFrom(m, c.0, c.1, Right)
      {
        ScanMembers(m, m.Width() - 1, y, Left, c);
      }
      r := Scan(m, m.Width() - 1, y, Left, r);
      y := y + 1;
    }
    CollectedAll(m, r);
  }

  /**
   * `part1`: scan inward from every edge tree that is not a corner, in the
   * order top, bottom, left, right, collecting the interior trees taller than
   * everything between them and that edge; then add `2 * w + 2 * h - 4` for
   * the border ring. That is the number of visible trees whenever the grid is
   * at least two trees wide and high (see `AsWrittenAgrees`; a single row or
   * column is miscounted, see `AsWrittenOvercounts` and `AsWrittenSingleTree`).
   */
  method Part1(m: Map) returns (n: int)
    requires m.Valid()
    ensures n == Part1AsWritten(m)
    ensures m.Width() >= 2 && m.Height() >= 2 ==> n == VisibleCount(m)
  {
    var visible: set<(int, int)> := {};
    visible := ScanTop(m, visible);
    visible := ScanBottom(m, visible);
    visible := ScanLeft(m, visible);
    visible := ScanRight(m, visible);
    n := |visible| + m.Width() * 2 + m.Height() * 2 - 4;
    if m.Width() >= 2 && m.Height() >= 2 {
      AsWrittenAgrees(m);
    }
  }

  // ---------------------------------------------------------------------------
  // Counting the border ring
  // ---------------------------------------------------------------------------

  /** All trees visible from outside the grid, border trees included. */
  ghost function AllVisible(m: Map): set<(int, int)>
    requires m.Valid()
  {
    set x, y | 0 <= x < m.Width() && 0 <= y < m.Height() && Visible(m, x, y) :: (x, y)
  }

  /** The answer to part 1: how many trees are visible from outside the grid. */
  ghost function VisibleCount(m: Map): nat
    requires m.Valid()
  {
    |AllVisible(m)|
  }

  ghost function Rect(x0: int, x1: int, y0: int, y1: int): set<(int, int)> {
    set x, y | x0 <= x < x1 && y0 <= y < y1 :: (x, y)
  }

  ghost function BorderCells(m: Map): set<(int, int)>
    requires m.Valid()
  {
    set x, y | 0 <= x < m.Width() && 0 <= y < m.Height() && !m.IsInsideEdge(x, y) :: (x, y)
  }

  /** The number of trees on the border ring of a `w` by `h` grid. */
  function BorderCount(w: int, h: int): int {
    if w == 1 || h == 1 then w * h else 2 * w + 2 * h - 4
  }

  lemma {:induction false} RowCard(x0: int, x1: int, y: int)
    requires x0 <= x1
    ensures |Rect(x0, x1, y, y + 1)| == x1 - x0
    decreases x1 - x0
  {
    if x0 < x1 {
      RowCard(x0, x1 - 1, y);
      assert Rect(x0, x1, y, y + 1) == Rect(x0, x1 - 1, y, y + 1) + {(x1 - 1, y)};
    } else {
      assert Rect(x0, x1, y, y + 1) == {};
    }
  }

  lemma {:induction false} RectCard(x0: int, x1: int, y0: int, y1: int)
    requires x0 <= x1 && y0 <= y1
    ensures |Rect(x0, x1, y0, y1)| == (x1 - x0) * (y1 - y0)
    decreases y1 - y0
  {
    if y0 < y1 {
      RectCard(x0, x1, y0, y1 - 1);
      RowCard(x0, x1, y1 - 1);
      assert Rect(x0, x1, y0, y1) == Rect(x0, x1, y0, y1 - 1) + Rect(x0, x1, y1 - 1, y1);
      assert Rect(x0, x1, y0, y1 - 1) * Rect(x0, x1, y1 - 1, y1) == {};
      assert (x1 - x0) * (y1 - y0) == (x1 - x0) * (y1 - 1 - y0) + (x1 - x0);
    } else {
      assert Rect(x0, x1, y0, y1) == {};
    }
  }

  /** The border ring holds `BorderCount` trees: every tree when the grid is one tree wide or high. */
  lemma BorderCard(m: Map)
    requires m.Valid()
    ensures |BorderCells(m)| == BorderCount(m.Width(), m.Height())
  {
    var w, h := m.Width(), m.Height();
    RectCard(0, w, 0, h);
    if w == 1 || h == 1 {
      assert BorderCells(m) == Rect(0, w, 0, h);
    } else {
      RectCard(1, w - 1, 1, h - 1);
      assert BorderCells(m) == Rect(0, w, 0, h) - Rect(1, w - 1, 1, h - 1);
      assert Rect(1, w - 1, 1, h - 1) <= Rect(0, w, 0, h);
      assert w * h - (w - 2) * (h - 2) == 2 * w + 2 * h - 4;
    }
  }

  /** The visible trees are the visible interior trees plus the whole border ring. */
  lemma VisibleSplit(m: Map)
    requires m.Valid()
    ensures VisibleCount(m) == |VisibleInterior(m)| + BorderCount(m.Width(), m.Height())
  {
    forall c | c in BorderCells(m)
      ensures c in AllVisible(m)
    {
      BorderVisible(m, c.0, c.1);
    }
    assert AllVisible(m) == VisibleInterior(m) + BorderCells(m);
    assert VisibleInterior(m) * BorderCells(m) == {};
    BorderCard(m);
  }

  /** `part1` as written adds `2 * w + 2 * h - 4` for the border ring. */
  ghost function Part1AsWritten(m: Map): int
    requires m.Valid()
  {
    |VisibleInterior(m)| + m.Width() * 2 + m.Height() * 2 - 4
  }

  /**
   * As written, a single row or a single column of three or more trees
   * counts more trees than the grid holds.
   */
  lemma AsWrittenOvercounts(m: Map)
    requires m.Valid()
    requires (m.Height() == 1 && m.Width() >= 3) || (m.Width() == 1 && m.Height() >= 3)
    ensures Part1AsWritten(m) > m.Width() * m.Height()
    ensures Part1AsWritten(m) != VisibleCount(m)
  {
    assert VisibleInterior(m) == {};
    VisibleSplit(m);
  }

  /** As written, a grid of one tree counts none, though that tree is visible. */
  lemma AsWrittenSingleTree(m: Map)
    requires m.Valid() && m.Width() == 1 && m.Height() == 1
    ensures Part1AsWritten(m) == 0
    ensures VisibleCount(m) == 1
  {
    assert VisibleInterior(m) == {};
    VisibleSplit(m);
  }

  /** Where the grid is at least two trees wide and high, the written formula is right. */
  lemma AsWrittenAgrees(m: Map)
    requires m.Valid() && m.Width() >= 2 && m.Height() >= 2
    ensures Part1AsWritten(m) == VisibleCount(m)
  {
    VisibleSplit(m);
  }

  // ---------------------------------------------------------------------------
  // Reading the grid
  // ---------------------------------------------------------------------------

  /** `c as u8 - b'0'` does not underflow: the low byte of `c` is at least `'0'`. */
  predicate HeightChar(c: char) {
    c as int % 256 >= '0' as int
  }

  /** A character's low byte minus `'0'`. */
  function HeightOf(c: char): nat
    requires HeightChar(c)
  {
    c as int % 256 - '0' as int
  }

  /** One line of the input, read character by character. */
  function ParseRow(line: string): seq<nat>
    requires forall i :: 0 <= i < |line| ==> HeightChar(line[i])
  {
    seq(|line|, i requires 0 <= i < |line| => HeightOf(line[i]))
  }

  function RenderRow(row: seq<nat>): string
    requires forall i :: 0 <= i < |row| ==> row[i] <= 9
  {
    seq(|row|, i requires 0 <= i < |row| => ('0' as int + row[i]) as char)
  }

  /** A line of decimal digits reads as the heights 0 to 9 it shows, and writing them back gives the line. */
  lemma DigitRowRoundTrip(line: string)
    requires forall i :: 0 <= i < |line| ==> '0' <= line[i] <= '9'
    ensures forall i :: 0 <= i < |ParseRow(line)| ==> ParseRow(line)[i] <= 9
    ensures RenderRow(ParseRow(line)) == line
  {
  }

  /** Heights 0 to 9 written as digits read back unchanged. */
  lemma HeightRowRoundTrip(row: seq<nat>)
    requires forall i :: 0 <= i < |row| ==> row[i] <= 9
    ensures forall i :: 0 <= i < |RenderRow(row)| ==> HeightChar(RenderRow(row)[i])
    ensures ParseRow(RenderRow(row)) == row
  {
  }

  /** `read_input`: one row per line. */
  function ReadInput(lines: seq<string>): (m: Map)
    requires forall j, i :: 0 <= j < |lines| && 0 <= i < |lines[j]| ==> HeightChar(lines[j][i])
    ensures |m.rows| == |lines|
    ensures forall j :: 0 <= j < |lines| ==> m.rows[j] == ParseRow(lines[j])
    ensures m.Valid() <==>
      |lines| >= 1 && |lines[0]| >= 1 && forall j :: 0 <= j < |lines| ==> |lines[j]| >= |lines[0]|
  {
    Map(seq(|lines|, j requires 0 <= j < |lines| => ParseRow(lines[j])))
  }
}
