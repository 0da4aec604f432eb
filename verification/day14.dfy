/**
 * Day 14, "Regolith Reservoir": a falling-sand cave.
 *
 * Rock paths (axis-aligned polylines) are rasterised into a set of rock
 * cells; grains of sand are then poured one at a time from (500, 0). A grain
 * tries to move down, then down-left, then down-right, and rests when all
 * three are blocked. Without a floor a grain that passes the lowest rock is
 * lost; with the floor at `rocks_max_y + 2` every grain rests. `Solve` pours
 * until the first failure, once without and then once with the floor; the
 * floored run keeps the sand of the first one.
 */
module Day14 {
  import opened Wrappers
  import opened Text

  datatype Pos = Pos(x: int, y: int) {
    /** `Pos::translate`: the position moved by (dx, dy). */
    function Translate(dx: int, dy: int): (q: Pos)
      ensures q.x - x == dx && q.y - y == dy
    {
      Pos(x + dx, y + dy)
    }
  }

  /** One line of the scan: the corner points of a rock polyline. */
  datatype Path = Path(rocks: seq<Pos>)

  /** Every grain enters the cave here; the source is a constant of the program. */
  const SOURCE := Pos(500, 0)

  function Min(a: int, b: int): int { if a <= b then a else b }
  function Max(a: int, b: int): int { if a <= b then b else a }

  // ---------------------------------------------------------------------
  // Rasterisation

  predicate Orthogonal(a: Pos, b: Pos) { a.x == b.x || a.y == b.y }

  /**
   * What `from_scan` accepts without panicking: a path has a first point and
   * every segment is horizontal or vertical.
   */
  predicate ValidPath(p: Path) {
    |p.rocks| >= 1 &&
    forall i :: 0 <= i < |p.rocks| - 1 ==> Orthogonal(p.rocks[i], p.rocks[i + 1])
  }

  predicate ValidScan(scan: seq<Path>) {
    forall i :: 0 <= i < |scan| ==> ValidPath(scan[i])
  }

  /**
   * The cells of one segment, both ends included. As in the source, a segment
   * whose ends share y is walked along x (this arm is tried first), otherwise
   * one whose ends share x is walked along y.
   */
  ghost function SegmentCells(a: Pos, b: Pos): set<Pos> {
    if a.y == b.y then set x | Min(a.x, b.x) <= x <= Max(a.x, b.x) :: Pos(x, a.y)
    else if a.x == b.x then set y | Min(a.y, b.y) <= y <= Max(a.y, b.y) :: Pos(a.x, y)
    else {}
  }

  /** The cells of a polyline: the union of its segments (none for a single point). */
  ghost function PathCells(rs: seq<Pos>): set<Pos> {
    if |rs| < 2 then {}
    else PathCells(rs[..|rs| - 1]) + SegmentCells(rs[|rs| - 2], rs[|rs| - 1])
  }

  /** The rock set of a whole scan. */
  ghost function ScanCells(scan: seq<Path>): set<Pos> {
    if scan == [] then {}
    else ScanCells(scan[..|scan| - 1]) + PathCells(scan[|scan| - 1].rocks)
  }

  /** An orthogonal segment covers exactly the cells of its bounding box, whichever end comes first. */
  lemma SegmentIsBox(a: Pos, b: Pos, c: Pos)
    requires Orthogonal(a, b)
    ensures c in SegmentCells(a, b) <==>
              Min(a.x, b.x) <= c.x <= Max(a.x, b.x) && Min(a.y, b.y) <= c.y <= Max(a.y, b.y)
    ensures SegmentCells(a, b) == SegmentCells(b, a)
  {
    if a.y == b.y {
      if Min(a.x, b.x) <= c.x <= Max(a.x, b.x) && c.y == a.y {
        assert c == Pos(c.x, a.y);
      }
    } else {
      if Min(a.y, b.y) <= c.y <= Max(a.y, b.y) && c.x == a.x {
        assert c == Pos(a.x, c.y);
      }
    }
  }

  /** A polyline of two or more points covers all of its corner points. */
  lemma {:induction false} PathCoversCorners(rs: seq<Pos>, i: nat)
    requires ValidPath(Path(rs)) && |rs| >= 2 && i < |rs|
    ensures rs[i] in PathCells(rs)
  {
    var n := |rs|;
    if i >= n - 2 {
      SegmentIsBox(rs[n - 2], rs[n - 1], rs[i]);
    } else {
      assert ValidPath(Path(rs[..n - 1]));
      PathCoversCorners(rs[..n - 1], i);
    }
  }

  /** A cell is rock exactly when some path of the scan covers it. */
  lemma {:induction false} ScanCellsUnion(scan: seq<Path>, c: Pos)
    ensures c in ScanCells(scan) <==> exists i :: 0 <= i < |scan| && c in PathCells(scan[i].rocks)
  {
    if scan != [] {
      var n := |scan|;
      ScanCellsUnion(scan[..n - 1], c);
      if c in ScanCells(scan[..n - 1]) {
        var i :| 0 <= i < n - 1 && c in PathCells(scan[..n - 1][i].rocks);
        assert c in PathCells(scan[i].rocks);
      }
      if i :| 0 <= i < n && c in PathCells(scan[i].rocks) {
        if i < n - 1 {
          assert c in PathCells(scan[..n - 1][i].rocks);
        }
      }
    }
  }

  /** The rasterising loops of `Cave::from_scan`: every path of the scan in turn. */
  method Rasterize(scan: seq<Path>) returns (rocks: set<Pos>)
    requires ValidScan(scan)
    ensures rocks == ScanCells(scan)
  {
    rocks := {};
    for i := 0 to |scan|
      invariant rocks == ScanCells(scan[..i])
    {
      assert ValidPath(scan[i]);
      rocks := DrawPath(rocks, scan[i].rocks);
      assert scan[..i + 1][..i] == scan[..i];
    }
    assert scan[..|scan|] == scan;
  }

  /** One path: each segment from the previous corner to the next. */
  method DrawPath(rocks0: set<Pos>, rs: seq<Pos>) returns (rocks: set<Pos>)
    requires ValidPath(Path(rs))
    ensures rocks == rocks0 + PathCells(rs)
  {
    rocks := rocks0;
    var pos := rs[0];
    for j := 1 to |rs|
      invariant pos == rs[j - 1]
      invariant rocks == rocks0 + PathCells(rs[..j])
    {
      var r := rs[j];
      assert Orthogonal(rs[j - 1], rs[j]);
      rocks := DrawSegment(rocks, pos, r);
      assert rs[..j + 1][..j] == rs[..j];
      pos := r;
    }
    assert rs[..|rs|] == rs;
  }

  /** One segment: a run along x when the ends share y, otherwise a run along y. */
  method DrawSegment(rocks0: set<Pos>, pos: Pos, r: Pos) returns (rocks: set<Pos>)
    requires Orthogonal(pos, r)
    ensures rocks == rocks0 + SegmentCells(pos, r)
  {
    rocks := rocks0;
    if pos.y == r.y {
      var sx, ex := if pos.x > r.x then r.x else pos.x, if pos.x > r.x then pos.x else r.x;
      var y := pos.y;
      for x := sx to ex + 1
        invariant rocks == rocks0 + set x' | sx <= x' < x :: Pos(x', y)
      {
        rocks := rocks + {Pos(x, y)};
      }
    } else {
      var sy, ey := if pos.y > r.y then r.y else pos.y, if pos.y > r.y then pos.y else r.y;
      var x := pos.x;
      for y := sy to ey + 1
        invariant rocks == rocks0 + set y' | sy <= y' < y :: Pos(x, y')
      {
        rocks := rocks + {Pos(x, y)};
      }
    }
  }

  /** `rocks.iter().map(|r| r.y).max().unwrap()`: the deepest rock row. */
  method MaxY(rocks: set<Pos>) returns (m: int)
    requires rocks != {}
    ensures exists r :: r in rocks && r.y == m
    ensures forall r :: r in rocks ==> r.y <= m
  {
    var r :| r in rocks;
    m := r.y;
    var rest := rocks - {r};
    while rest != {}
      invariant rest <= rocks
      invariant exists r :: r in rocks && r.y == m
      invariant forall r :: r in rocks && r !in rest ==> r.y <= m
      decreases |rest|
    {
      var s :| s in rest;
      if s.y > m {
        m := s.y;
      }
      rest := rest - {s};
    }
  }

  // ---------------------------------------------------------------------
  // The cave

  /** How a poured grain ends: at rest in a cell, or lost below the rocks. */
  datatype Fate = Rest(at: Pos) | Lost

  /** The cells a grain from the source can reach down to row `depth`: it drifts at most one column per row. */
  ghost function Cone(depth: int): set<Pos> {
    set y: int, x: int | 0 <= y <= depth && SOURCE.x - y <= x <= SOURCE.x + y :: Pos(x, y)
  }

  /**
   * The part of the cave that pouring never changes: the rocks, the deepest
   * rock row and the floor, if any. Where a grain goes depends on it and on
   * the sand already at rest.
   */
  datatype Terrain = Terrain(rocks: set<Pos>, rocksMaxY: int, floorY: Option<int>) {
    /** The row below which a grain is lost (no floor) or the floor row. */
    function Limit(): int {
      if floorY.Some? then floorY.value else rocksMaxY
    }

    /** `free`: neither sand nor rock, and not on the floor row when there is one. */
    predicate Free(sand: set<Pos>, p: Pos) {
      !(p in sand || p in rocks) && (floorY.None? || floorY.value != p.y)
    }

    /** There is no floor, or it lies below the source. */
    predicate FloorBelowSource() {
      floorY.None? || floorY.value > 0
    }

    /**
     * The fate of a grain that stands at `p` at the top of an iteration of
     * the fall loop of `pour_sand`: it steps one row down, then tries that
     * cell, the one to its left and the one to its right, in this order.
     */
    ghost function Fall(sand: set<Pos>, p: Pos): Fate
      decreases Limit() + 1 - p.y
    {
      var down := p.Translate(0, 1);
      if down.y > Limit() then (if floorY.Some? then Rest(down) else Lost)
      else if Free(sand, down) then Fall(sand, down)
      else if Free(sand, down.Translate(-1, 0)) then Fall(sand, down.Translate(-1, 0))
      else if Free(sand, down.Translate(1, 0)) then Fall(sand, down.Translate(1, 0))
      else Rest(p)
    }

    /**
     * The sand once grains have been poured onto `sand` until one is refused
     * (the source holds sand) or lost: each grain accepted rests where its
     * fall ends. The result keeps the sand it started from, stays within
     * the cone when the start did, and the next grain would be refused or
     * lost.
     */
    ghost function Poured(sand: set<Pos>): (r: set<Pos>)
      requires FloorBelowSource()
      ensures sand <= r
      ensures sand <= Cone(Limit()) ==> r <= Cone(Limit())
      ensures SOURCE in r || Fall(r, SOURCE).Lost?
      decreases |Cone(Limit()) - sand|
    {
      if SOURCE in sand then sand
      else
        match Fall(sand, SOURCE)
        case Lost => sand
        case Rest(q) =>
          NewGrainInCone(this, sand);
          assert Cone(Limit()) - (sand + {q}) == (Cone(Limit()) - sand) - {q};
          Poured(sand + {q})
    }
  }

  class Cave {
    var rocks: set<Pos>
    var rocksMaxY: int
    var sand: set<Pos>
    var floorY: Option<int>

    /** `Cave::from_scan`; the scan must hold at least one rock cell, or `max().unwrap()` panics. */
    constructor FromScan(scan: seq<Path>)
      requires ValidScan(scan)
      requires ScanCells(scan) != {}
      ensures rocks == ScanCells(scan)
      ensures IsDeepest(rocks, rocksMaxY)
      ensures sand == {} && floorY == None
    {
      var rs := Rasterize(scan);
      var m := MaxY(rs);
      rocks := rs;
      rocksMaxY := m;
      sand := {};
      floorY := None;
    }

    /** `with_floor`: the floor lies two rows below the deepest rock; rocks and sand stay. */
    method WithFloor()
      modifies this`floorY
      ensures floorY == Some(rocksMaxY + 2)
    {
      floorY := Some(rocksMaxY + 2);
    }

    /** The cave without its sand. */
    function Fixed(): Terrain
      reads this
    {
      Terrain(rocks, rocksMaxY, floorY)
    }

    predicate Free(p: Pos)
      reads this
    {
      Fixed().Free(sand, p)
    }

    ghost function Fall(p: Pos): Fate
      reads this
    {
      Fixed().Fall(sand, p)
    }

    /**
     * `pour_sand`: a grain is refused when the source already holds sand
     * (rock at the source is not checked); otherwise it falls, and the cell
     * where it rests is added to the sand.
     */
    method PourSand() returns (atRest: bool)
      modifies this`sand
      ensures atRest == (SOURCE !in old(sand) && old(Fall(SOURCE)).Rest?)
      ensures sand == if atRest then old(sand) + {old(Fall(SOURCE)).at} else old(sand)
    {
      var sandPos := Pos(500, 0);
      if sandPos in sand {
        return false;
      }
      var maxY := if floorY.Some? then floorY.value else rocksMaxY;
      ghost var fate := Fall(SOURCE);
      while true
        invariant Fall(sandPos) == fate
        decreases maxY + 1 - sandPos.y
      {
        sandPos := sandPos.Translate(0, 1);
        if sandPos.y > maxY {
          atRest := floorY.Some?;
          break;
        }
        if Free(sandPos) {
          continue;
        }
        sandPos := sandPos.Translate(-1, 0);
        if Free(sandPos) {
          continue;
        }
        sandPos := sandPos.Translate(2, 0);
        if Free(sandPos) {
          continue;
        }
        sandPos := sandPos.Translate(-1, -1);
        atRest := true;
        break;
      }
      if atRest {
        sand := sand + {sandPos};
      }
    }
  }

  /** `m` is the row of the deepest rock. */
  ghost predicate IsDeepest(rocks: set<Pos>, m: int) {
    (exists r :: r in rocks && r.y == m) && forall r :: r in rocks ==> r.y <= m
  }

  /** A grain is lost only when there is no floor. */
  lemma {:induction false} LostOnlyWithoutFloor(t: Terrain, sand: set<Pos>, p: Pos)
    ensures t.Fall(sand, p).Lost? ==> t.floorY.None?
    decreases t.Limit() + 1 - p.y
  {
    var down := p.Translate(0, 1);
    if down.y <= t.Limit() {
      if t.Free(sand, down) {
        LostOnlyWithoutFloor(t, sand, down);
      } else if t.Free(sand, down.Translate(-1, 0)) {
        LostOnlyWithoutFloor(t, sand, down.Translate(-1, 0));
      } else if t.Free(sand, down.Translate(1, 0)) {
        LostOnlyWithoutFloor(t, sand, down.Translate(1, 0));
      }
    }
  }

  /**
   * Where a grain rests (starting above the floor, if any): below its start,
   * within one column per row of it, above the lowest rock or the floor, in
   * the start cell or a free one, and with the cells down, down-left and
   * down-right all blocked.
   */
  lemma {:induction false} RestIsStable(t: Terrain, sand: set<Pos>, p: Pos)
    requires t.floorY.None? || p.y < t.floorY.value
    ensures t.Fall(sand, p).Rest? ==>
              var q := t.Fall(sand, p).at;
              && p.y <= q.y < t.Limit()
              && q.x - p.x <= q.y - p.y && p.x - q.x <= q.y - p.y
              && (q == p || t.Free(sand, q))
              && !t.Free(sand, Pos(q.x, q.y + 1))
              && !t.Free(sand, Pos(q.x - 1, q.y + 1))
              && !t.Free(sand, Pos(q.x + 1, q.y + 1))
    decreases t.Limit() + 1 - p.y
  {
    var down := p.Translate(0, 1);
    if down.y <= t.Limit() {
      if t.Free(sand, down) {
        RestIsStable(t, sand, down);
      } else if t.Free(sand, down.Translate(-1, 0)) {
        RestIsStable(t, sand, down.Translate(-1, 0));
      } else if t.Free(sand, down.Translate(1, 0)) {
        RestIsStable(t, sand, down.Translate(1, 0));
      }
    }
  }

  /** With a floor, a grain that starts above it always comes to rest. */
  lemma FloorCatches(t: Terrain, sand: set<Pos>, p: Pos)
    requires t.floorY.Some? && p.y < t.floorY.value
    ensures t.Fall(sand, p).Rest? && t.Fall(sand, p).at.y < t.floorY.value
  {
    LostOnlyWithoutFloor(t, sand, p);
    RestIsStable(t, sand, p);
  }

  /**
   * A grain poured onto a free source above the floor either is lost or
   * rests in a new cell of the cone below the source.
   */
  lemma NewGrainInCone(t: Terrain, sand: set<Pos>)
    requires SOURCE !in sand && t.FloorBelowSource()
    ensures t.Fall(sand, SOURCE).Rest? ==>
              t.Fall(sand, SOURCE).at !in sand && t.Fall(sand, SOURCE).at in Cone(t.Limit())
  {
    RestIsStable(t, sand, SOURCE);
  }

  /**
   * One pouring loop of `solve`: pour grains until one is refused or lost,
   * then count the sand. The cave ends with the sand `Poured` gives; every
   * grain lands in the cone below the source, so the loop ends.
   */
  method PourAll(cave: Cave) returns (n: nat)
    requires cave.Fixed().FloorBelowSource()
    requires cave.sand <= Cone(cave.Fixed().Limit())
    modifies cave`sand
    ensures cave.sand == cave.Fixed().Poured(old(cave.sand))
    ensures n == |cave.sand|
  {
    ghost var t := cave.Fixed();
    ghost var goal := t.Poured(cave.sand);
    while true
      invariant cave.Fixed() == t
      invariant cave.sand <= Cone(t.Limit())
      invariant t.Poured(cave.sand) == goal
      decreases |Cone(t.Limit()) - cave.sand|
    {
      ghost var before := cave.sand;
      if SOURCE !in cave.sand {
        NewGrainInCone(t, cave.sand);
      }
      var ok := cave.PourSand();
      if !ok {
        n := |cave.sand|;
        return;
      }
      assert Cone(t.Limit()) - cave.sand < Cone(t.Limit()) - before;
    }
  }

  /**
   * `solve`: pour until a grain is refused or lost, count the sand, add the
   * floor and pour on over the same sand, count again. The scan must be
   * valid, hold a rock, and have its deepest rock at row -1 or below it.
   * When every rock lies at row -2 or above, the floor is at row 0 or above,
   * so each floored grain falls to row 1, comes to rest there, and the
   * source never fills: the second loop would not end. The counts are the
   * sizes of the two pourings; the floored count includes the grain at the
   * source, and is at least the first count.
   */
  method Solve(scan: seq<Path>) returns (p1: nat, p2: nat)
    requires ValidScan(scan)
    requires exists r :: r in ScanCells(scan) && r.y >= -1
    ensures forall m :: IsDeepest(ScanCells(scan), m) ==>
              var open := Terrain(ScanCells(scan), m, None);
              var floored := Terrain(ScanCells(scan), m, Some(m + 2));
              && p1 == |open.Poured({})|
              && p2 == |floored.Poured(open.Poured({}))|
    ensures p1 <= p2
    ensures p2 >= 1
  {
    var cave := new Cave.FromScan(scan);
    p1 := PourAll(cave);
    ghost var sand1 := cave.sand;
    assert Cone(cave.rocksMaxY) <= Cone(cave.rocksMaxY + 2);
    cave.WithFloor();
    p2 := PourAll(cave);
    forall m | IsDeepest(ScanCells(scan), m)
      ensures m == cave.rocksMaxY
    {
      var r :| r in ScanCells(scan) && r.y == m;
      var s :| s in ScanCells(scan) && s.y == cave.rocksMaxY;
    }
    if SOURCE !in cave.sand {
      FloorCatches(cave.Fixed(), cave.sand, SOURCE);
    }
    assert cave.sand == sand1 + (cave.sand - sand1);
    assert cave.sand == {SOURCE} + (cave.sand - {SOURCE});
  }

  // ---------------------------------------------------------------------
  // Parsing the scan: "x,y -> x,y -> ..."

  /** `FromStr for Pos`: "x,y" with two `i32`s; pieces after the second are ignored. */
  function ParsePos(s: string): (r: Result<Pos>)
    ensures r.Ok? ==> I32_MIN <= r.value.x <= I32_MAX && I32_MIN <= r.value.y <= I32_MAX
  {
    var parts := Split(s, ',');
    match ParseSigned(parts[0], I32_MIN, I32_MAX)
    case None => Err("invalid x")
    case Some(x) =>
      if |parts| < 2 then Err("No y")
      else
        match ParseSigned(parts[1], I32_MIN, I32_MAX)
        case None => Err("invalid y")
        case Some(y) => Ok(Pos(x, y))
  }

  function ParsePoints(parts: seq<string>): Result<seq<Pos>> {
    if parts == [] then Ok([])
    else
      match ParsePos(parts[0])
      case Err(e) => Err(e)
      case Ok(p) =>
        match ParsePoints(parts[1..])
        case Err(e) => Err(e)
        case Ok(ps) => Ok([p] + ps)
  }

  /** `FromStr for Path`: points separated by " -> "; the first bad point is the error. */
  function ParsePath(s: string): (r: Result<Path>)
    ensures r.Ok? ==> |r.value.rocks| == |SplitOn(s, " -> ")|
  {
    match ParsePoints(SplitOn(s, " -> "))
    case Err(e) => Err(e)
    case Ok(ps) => ParsedAll(SplitOn(s, " -> "), ps); Ok(Path(ps))
  }

  lemma {:induction false} ParsedAll(parts: seq<string>, ps: seq<Pos>)
    requires ParsePoints(parts) == Ok(ps)
    ensures |ps| == |parts|
  {
    if parts != [] {
      ParsedAll(parts[1..], ps[1..]);
    }
  }

  /** How the scan writes a point. */
  function RenderPos(p: Pos): string {
    SignedDecimal(p.x) + "," + SignedDecimal(p.y)
  }

  function RenderPoints(ps: seq<Pos>): seq<string> {
    if ps == [] then [] else [RenderPos(ps[0])] + RenderPoints(ps[1..])
  }

  predicate InI32(p: Pos) {
    I32_MIN <= p.x <= I32_MAX && I32_MIN <= p.y <= I32_MAX
  }

  lemma PosRoundTrip(p: Pos)
    requires InI32(p)
    ensures ParsePos(RenderPos(p)) == Ok(p)
  {
    var sx, sy := SignedDecimal(p.x), SignedDecimal(p.y);
    assert Join([sx, sy], ",") == RenderPos(p);
    assert ',' !in sx && ',' !in sy by { SignedDecimalHasNo(p.x, ','); SignedDecimalHasNo(p.y, ','); }
    SplitJoin([sx, sy], ",");
    ParseSignedDecimal(p.x, I32_MIN, I32_MAX);
    ParseSignedDecimal(p.y, I32_MIN, I32_MAX);
  }

  lemma SignedDecimalHasNo(n: int, c: char)
    requires c != '-' && !IsDigit(c)
    ensures c !in SignedDecimal(n)
  {
    var s := SignedDecimal(n);
    if n < 0 {
      assert s == "-" + Decimal(-n);
      assert forall i :: 1 <= i < |s| ==> s[i] == Decimal(-n)[i - 1];
    }
  }

  /** Parsing a path written in the scan's own format gives the path back. */
  lemma {:induction false} PathRoundTrip(ps: seq<Pos>)
    requires |ps| >= 1
    requires forall i :: 0 <= i < |ps| ==> InI32(ps[i])
    ensures ParsePath(Join(RenderPoints(ps), " -> ")) == Ok(Path(ps))
  {
    var pieces := RenderPoints(ps);
    RenderPointsFacts(ps);
    SplitJoin(pieces, " -> ");
    ParsePointsRendered(ps);
  }

  lemma {:induction false} RenderPointsFacts(ps: seq<Pos>)
    ensures |RenderPoints(ps)| == |ps|
    ensures forall k :: 0 <= k < |ps| ==> RenderPoints(ps)[k] == RenderPos(ps[k])
    ensures forall k :: 0 <= k < |ps| ==> ' ' !in RenderPoints(ps)[k]
  {
    if ps != [] {
      RenderPointsFacts(ps[1..]);
      var p := ps[0];
      SignedDecimalHasNo(p.x, ' ');
      SignedDecimalHasNo(p.y, ' ');
      assert RenderPos(p) == SignedDecimal(p.x) + [','] + SignedDecimal(p.y);
    }
  }

  lemma {:induction false} ParsePointsRendered(ps: seq<Pos>)
    requires forall i :: 0 <= i < |ps| ==> InI32(ps[i])
    ensures ParsePoints(RenderPoints(ps)) == Ok(ps)
  {
    if ps != [] {
      var tail := ps[1..];
      assert InI32(ps[0]);
      PosRoundTrip(ps[0]);
      forall i | 0 <= i < |tail| ensures InI32(tail[i]) {
        assert tail[i] == ps[i + 1];
      }
      ParsePointsRendered(tail);
      ParsePointsCons(RenderPos(ps[0]), RenderPoints(tail), ps[0], tail);
      assert [ps[0]] + tail == ps;
    }
  }

  /** Parsing a list of points that starts with one good point. */
  lemma ParsePointsCons(h: string, t: seq<string>, p: Pos, ps: seq<Pos>)
    requires ParsePos(h) == Ok(p) && ParsePoints(t) == Ok(ps)
    ensures ParsePoints([h] + t) == Ok([p] + ps)
  {
    var parts := [h] + t;
    assert parts[0] == h && parts[1..] == t;
  }
}
