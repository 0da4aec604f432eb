/**
 * Day 9, "Rope Bridge": a rope of knots on an unbounded grid. The head takes
 * single steps, every other knot follows the knot before it, and the answer
 * is the number of distinct cells the last knot visits.
 */
module Day09 {
  import opened Wrappers
  import opened Text

  datatype Direction = Left | Right | Up | Down

  datatype Move = Move(dir: Direction, num: nat)

  datatype Pos = Pos(x: int, y: int)

  function Opposite(d: Direction): Direction {
    match d
    case Left => Right
    case Right => Left
    case Up => Down
    case Down => Up
  }

  function Abs(n: int): nat {
    if n < 0 then -n else n
  }

  /** `i32::signum`. */
  function Sign(n: int): int {
    if n > 0 then 1 else if n < 0 then -1 else 0
  }

  /** `Pos::step`: Up adds one to `y`, Down takes one away, Right and Left do the same to `x`. */
  function Step(p: Pos, d: Direction): (q: Pos)
    ensures Abs(q.x - p.x) + Abs(q.y - p.y) == 1
    ensures d in {Up, Down} ==> q.x == p.x && q.y - p.y == (if d == Up then 1 else -1)
    ensures d in {Left, Right} ==> q.y == p.y && q.x - p.x == (if d == Right then 1 else -1)
  {
    match d
    case Up => p.(y := p.y + 1)
    case Down => p.(y := p.y - 1)
    case Right => p.(x := p.x + 1)
    case Left => p.(x := p.x - 1)
  }

  /** A step is undone by a step the opposite way. */
  lemma StepBack(p: Pos, d: Direction)
    ensures Step(Step(p, d), Opposite(d)) == p
  {
  }

  /** Two knots touch when they are at most one cell apart on each axis (diagonal neighbours included). */
  predicate Touching(a: Pos, b: Pos) {
    Abs(a.x - b.x) <= 1 && Abs(a.y - b.y) <= 1
  }

  /** The distance that a single step of either knot changes by at most one. */
  function Chebyshev(a: Pos, b: Pos): nat {
    if Abs(a.x - b.x) < Abs(a.y - b.y) then Abs(a.y - b.y) else Abs(a.x - b.x)
  }

  /**
   * Where a knot goes when the knot before it has moved: nowhere while they
   * touch, otherwise one cell towards it on each axis where they differ.
   */
  function Follow(head: Pos, tail: Pos): (r: Pos)
    ensures Touching(head, tail) ==> r == tail
    ensures !Touching(head, tail) ==>
      r == Pos(tail.x + Sign(head.x - tail.x), tail.y + Sign(head.y - tail.y))
    ensures Touching(r, tail)
    ensures Chebyshev(head, tail) <= 2 ==> Touching(head, r)
  {
    var dx := head.x - tail.x;
    var dy := head.y - tail.y;
    if Abs(dx) > 1 || Abs(dy) > 1 then
      if dx == 0 then tail.(y := tail.y + Sign(dy))
      else if dy == 0 then tail.(x := tail.x + Sign(dx))
      else Pos(tail.x + Sign(dx), tail.y + Sign(dy))
    else tail
  }

  /** Knot `i` after the head of `parts` steps towards `d`. */
  function Knot(parts: seq<Pos>, d: Direction, i: nat): Pos
    requires i < |parts|
  {
    if i == 0 then Step(parts[0], d) else Follow(Knot(parts, d, i - 1), parts[i])
  }

  /** No knot moves more than one cell per axis in one step of the head. */
  lemma KnotMovesLittle(parts: seq<Pos>, d: Direction, i: nat)
    requires i < |parts|
    ensures Touching(Knot(parts, d, i), parts[i])
  {
  }

  /** The whole rope after one step of its head. */
  function HeadMoved(parts: seq<Pos>, d: Direction): (r: seq<Pos>)
    requires |parts| >= 1
    ensures |r| == |parts|
    ensures r[0] == Step(parts[0], d)
    ensures forall i :: 1 <= i < |r| ==> r[i] == Follow(r[i - 1], parts[i])
  {
    seq(|parts|, i requires 0 <= i < |parts| => Knot(parts, d, i))
  }

  /** Every knot touches the next one. */
  predicate Taut(parts: seq<Pos>) {
    forall i :: 0 <= i < |parts| - 1 ==> Touching(parts[i], parts[i + 1])
  }

  /** A knot that moved at most one cell per axis is at most two cells from a knot that touched it. */
  lemma NearAfterMove(a: Pos, a': Pos, b: Pos)
    requires Touching(a, b) && Touching(a', a)
    ensures Chebyshev(a', b) <= 2
  {
  }

  /** A taut rope stays taut when its head takes a step. */
  lemma HeadMovedKeepsTaut(parts: seq<Pos>, d: Direction)
    requires |parts| >= 1 && Taut(parts)
    ensures Taut(HeadMoved(parts, d))
  {
    var r := HeadMoved(parts, d);
    forall i | 0 <= i < |r| - 1
      ensures Touching(r[i], r[i + 1])
    {
      KnotMovesLittle(parts, d, i);
      NearAfterMove(parts[i], r[i], parts[i + 1]);
    }
  }

  /** The rope of `parts`, its first knot being the head. */
  class Rope {
    const parts: array<Pos>

    /** `Rope::new`: `len` knots, all at `start`. */
    constructor (len: nat, start: Pos)
      ensures parts[..] == seq(len, _ => start)
      ensures fresh(parts)
    {
      parts := new Pos[len](_ => start);
    }

    /** `move_head`: the head steps, then each knot in turn follows its predecessor's new place. */
    method MoveHead(d: Direction)
      requires parts.Length >= 1
      modifies parts
      ensures parts[..] == HeadMoved(old(parts[..]), d)
    {
      ghost var before := parts[..];
      ghost var after := HeadMoved(before, d);
      parts[0] := Step(parts[0], d);
      var i := 0;
      while i < parts.Length - 1
        invariant 0 <= i < parts.Length
        invariant forall j :: 0 <= j <= i ==> parts[j] == after[j]
        invariant forall j :: i < j < parts.Length ==> parts[j] == before[j]
      {
        var tail := Follow(parts[i], parts[i + 1]);
        parts[i + 1] := tail;
        i := i + 1;
      }
    }

    /** `tail`: the last knot. */
    function Tail(): (p: Pos)
      requires parts.Length >= 1
      reads parts
      ensures p == parts[..][parts.Length - 1]
    {
      parts[parts.Length - 1]
    }
  }

  // ---------------------------------------------------------------------------
  // A whole run
  // ---------------------------------------------------------------------------

  /** `n` copies of the step `d`. */
  function Repeat(d: Direction, n: nat): seq<Direction> {
    seq(n, _ => d)
  }

  /** The head's single steps: each move `dir num` is `num` steps towards `dir`. */
  function Expand(moves: seq<Move>): seq<Direction> {
    if moves == [] then []
    else Expand(moves[..|moves| - 1]) + Repeat(moves[|moves| - 1].dir, moves[|moves| - 1].num)
  }

  /** The rope after its head has taken the steps `steps`. */
  function Final(start: seq<Pos>, steps: seq<Direction>): (r: seq<Pos>)
    requires |start| >= 1
    ensures |r| == |start|
  {
    if steps == [] then start
    else HeadMoved(Final(start, steps[..|steps| - 1]), steps[|steps| - 1])
  }

  /** The cells the last knot occupies during the steps, the starting cell included. */
  function Tails(start: seq<Pos>, steps: seq<Direction>): set<Pos>
    requires |start| >= 1
  {
    if steps == [] then {start[|start| - 1]}
    else
      var r := Final(start, steps);
      Tails(start, steps[..|steps| - 1]) + {r[|r| - 1]}
  }

  /** One more step of the head: the rope moves once and its new last knot is visited. */
  lemma RunStep(start: seq<Pos>, steps: seq<Direction>, d: Direction)
    requires |start| >= 1
    ensures Final(start, steps + [d]) == HeadMoved(Final(start, steps), d)
    ensures var r := Final(start, steps + [d]); Tails(start, steps + [d]) == Tails(start, steps) + {r[|r| - 1]}
  {
    assert (steps + [d])[..|steps|] == steps;
  }

  /** The last knot's starting cell is always among the cells visited. */
  lemma {:induction false} StartVisited(start: seq<Pos>, steps: seq<Direction>)
    requires |start| >= 1
    ensures start[|start| - 1] in Tails(start, steps)
  {
    if steps != [] {
      StartVisited(start, steps[..|steps| - 1]);
    }
  }

  /** A rope that starts taut is taut after every step. */
  lemma {:induction false} RunKeepsTaut(start: seq<Pos>, steps: seq<Direction>)
    requires |start| >= 1 && Taut(start)
    ensures Taut(Final(start, steps))
  {
    if steps != [] {
      RunKeepsTaut(start, steps[..|steps| - 1]);
      HeadMovedKeepsTaut(Final(start, steps[..|steps| - 1]), steps[|steps| - 1]);
    }
  }

  /** All knots start on the same cell, so the starting rope is taut. */
  lemma StartTaut(len: nat, start: Pos)
    requires len >= 1
    ensures Taut(seq(len, _ => start))
  {
  }

  /**
   * `solve`: a rope of `len` knots at the origin, the head following every
   * step of every move, counting the distinct cells of the last knot.
   */
  method Solve(moves: seq<Move>, len: nat) returns (n: nat)
    requires len >= 1
    ensures n == |Tails(seq(len, _ => Pos(0, 0)), Expand(moves))|
    ensures n >= 1
  {
    ghost var start := seq(len, _ => Pos(0, 0));
    var rope := new Rope(len, Pos(0, 0));
    var tailVisited := {rope.Tail()};
    ghost var done: seq<Direction> := [];
    for i := 0 to |moves|
      invariant done == Expand(moves[..i])
      invariant rope.parts[..] == Final(start, done)
      invariant tailVisited == Tails(start, done)
    {
      tailVisited, done := Perform(rope, moves[i], tailVisited, start, done);
      assert moves[..i + 1][..i] == moves[..i];
    }
    assert moves[..|moves|] == moves;
    n := |tailVisited|;
    StartVisited(start, done);
  }

  /** One move of the input: `num` single steps of the head, noting the last knot after each. */
  method Perform(rope: Rope, m: Move, tailVisited: set<Pos>, ghost start: seq<Pos>, ghost done: seq<Direction>)
    returns (tailVisited': set<Pos>, ghost done': seq<Direction>)
    requires |start| >= 1 && rope.parts[..] == Final(start, done) && tailVisited == Tails(start, done)
    modifies rope.parts
    ensures done' == done + Repeat(m.dir, m.num)
    ensures rope.parts[..] == Final(start, done') && tailVisited' == Tails(start, done')
  {
    tailVisited', done' := tailVisited, done;
    for k := 0 to m.num
      invariant done' == done + Repeat(m.dir, k)
      invariant rope.parts[..] == Final(start, done')
      invariant tailVisited' == Tails(start, done')
    {
      ghost var prev, prevVisited := done', tailVisited';
      rope.MoveHead(m.dir);
      tailVisited' := tailVisited' + {rope.Tail()};
      done' := done' + [m.dir];
      PerformStep(start, done, m.dir, k, prev, done', rope.parts[..], prevVisited, tailVisited');
    }
  }

  /** The loop of `Perform` keeps its invariant over one step of the head. */
  lemma PerformStep(start: seq<Pos>, done: seq<Direction>, d: Direction, k: nat, prev: seq<Direction>,
                    cur: seq<Direction>, parts: seq<Pos>, prevVisited: set<Pos>, visited: set<Pos>)
    requires |start| >= 1 && prev == done + Repeat(d, k) && cur == prev + [d]
    requires parts == HeadMoved(Final(start, prev), d) && prevVisited == Tails(start, prev)
    requires |parts| >= 1 && visited == prevVisited + {parts[|parts| - 1]}
    ensures cur == done + Repeat(d, k + 1)
    ensures parts == Final(start, cur) && visited == Tails(start, cur)
  {
    TailsStep(start, prev, d, parts, prevVisited);
    RepeatSnoc(done, d, k);
  }

  /** The rope after one more step, and its last knot joining the cells visited. */
  lemma TailsStep(start: seq<Pos>, steps: seq<Direction>, d: Direction, parts: seq<Pos>, visited: set<Pos>)
    requires |start| >= 1 && parts == HeadMoved(Final(start, steps), d) && visited == Tails(start, steps)
    ensures |parts| == |start| && parts == Final(start, steps + [d])
    ensures visited + {parts[|parts| - 1]} == Tails(start, steps + [d])
  {
    RunStep(start, steps, d);
  }

  lemma RepeatSnoc(done: seq<Direction>, d: Direction, k: nat)
    ensures done + Repeat(d, k + 1) == (done + Repeat(d, k)) + [d]
  {
    assert Repeat(d, k + 1) == Repeat(d, k) + [d];
  }

  /** Part 1: a rope of two knots. */
  method Part1(moves: seq<Move>) returns (n: nat)
    ensures n == |Tails(seq(2, _ => Pos(0, 0)), Expand(moves))|
  {
    n := Solve(moves, 2);
  }

  /** Part 2: a rope of ten knots. */
  method Part2(moves: seq<Move>) returns (n: nat)
    ensures n == |Tails(seq(10, _ => Pos(0, 0)), Expand(moves))|
  {
    n := Solve(moves, 10);
  }

  // ---------------------------------------------------------------------------
  // Parsing
  // ---------------------------------------------------------------------------

  function ParseDirection(s: string): (r: Result<Direction>)
    ensures r.Err? <==> s !in {"U", "D", "L", "R"}
  {
    if s == "U" then Ok(Up)
    else if s == "D" then Ok(Down)
    else if s == "L" then Ok(Left)
    else if s == "R" then Ok(Right)
    else Err("Unknown direction " + s)
  }

  function DirectionLetter(d: Direction): string {
    match d
    case Up => "U"
    case Down => "D"
    case Left => "L"
    case Right => "R"
  }

  /** `Move::from_str`: a direction letter and a step count, separated by white space; further words are ignored. */
  function ParseMove(line: string): (r: Result<Move>)
    ensures r.Ok? ==> |Words(line)| >= 2 && r.value.num <= USIZE_MAX
  {
    var ws := Words(line);
    if |ws| == 0 then Err("No direction")
    else
      match ParseDirection(ws[0])
      case Err(msg) => Err(msg)
      case Ok(dir) =>
        if |ws| == 1 then Err("No num")
        else
          match ParseUnsigned(ws[1], USIZE_MAX)
          case None => Err("invalid digit found in string")
          case Some(num) => Ok(Move(dir, num))
  }

  /** A move written as its letter, a space and its decimal count reads back as itself. */
  lemma MoveRoundTrip(m: Move)
    requires m.num <= USIZE_MAX
    ensures ParseMove(Join([DirectionLetter(m.dir), Decimal(m.num)], " ")) == Ok(m)
  {
    var ws := [DirectionLetter(m.dir), Decimal(m.num)];
    DecimalIsWord(m.num);
    WordsOfSpaced(ws);
    ParseDecimal(m.num, USIZE_MAX);
  }

  /** `read_input`: every line must hold a move; the first failure is the result. */
  function ParseMoves(lines: seq<string>): (r: Result<seq<Move>>)
    ensures r.Ok? <==> forall k :: 0 <= k < |lines| ==> ParseMove(lines[k]).Ok?
    ensures r.Ok? ==> |r.value| == |lines|
    ensures r.Ok? ==> forall k :: 0 <= k < |lines| ==> r.value[k] == ParseMove(lines[k]).value
  {
    if lines == [] then Ok([])
    else
      match ParseMove(lines[0])
      case Err(msg) => Err(msg)
      case Ok(m) =>
        match ParseMoves(lines[1..])
        case Err(msg) => Err(msg)
        case Ok(ms) => Ok([m] + ms)
  }
}
