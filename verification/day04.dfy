/**
 * Day 4, "Camp Cleanup": each line holds two section ranges "s-e,s-e".
 * Part 1 counts the pairs where one range contains the other, part 2 the
 * pairs that overlap.
 */
module Day04 {
  import opened Wrappers
  import opened Text

  /** A range of section ids, both ends included (`u32` in the source). */
  datatype Assignment = Assignment(start: nat, end: nat) {
    /** `fully_contains`: this range starts no later and ends no earlier. */
    predicate FullyContains(other: Assignment) {
      start <= other.start && end >= other.end
    }

    /** `overlaps`: this range's start or its end lies inside `other`. */
    predicate Overlaps(other: Assignment) {
      (start >= other.start && start <= other.end) || (end >= other.start && end <= other.end)
    }

    /** Section `x` belongs to the range. */
    predicate Has(x: int) { start <= x <= end }

    predicate Proper() { start <= end }
  }

  datatype AssignmentPair = AssignmentPair(a: Assignment, b: Assignment) {
    predicate IsFullyContaining() { a.FullyContains(b) || b.FullyContains(a) }
    predicate IsOverlapping() { a.Overlaps(b) || b.Overlaps(a) }
    function Swap(): AssignmentPair { AssignmentPair(b, a) }
  }

  /** Containment is reflexive, and the pair predicates do not depend on the order of the two elves. */
  lemma PairSymmetry(p: AssignmentPair)
    ensures p.a.FullyContains(p.a)
    ensures p.IsFullyContaining() == p.Swap().IsFullyContaining()
    ensures p.IsOverlapping() == p.Swap().IsOverlapping()
  {
  }

  /** For a proper range, `fully_contains` is inclusion of the sections. */
  lemma ContainsIsInclusion(a: Assignment, b: Assignment)
    requires b.Proper()
    ensures a.FullyContains(b) <==> forall x :: b.Has(x) ==> a.Has(x)
  {
    if forall x :: b.Has(x) ==> a.Has(x) {
      assert b.Has(b.start) && b.Has(b.end);
    }
  }

  /** For proper ranges, a pair overlaps exactly when some section belongs to both ranges. */
  lemma OverlapIsSharedSection(p: AssignmentPair)
    requires p.a.Proper() && p.b.Proper()
    ensures p.IsOverlapping() <==> exists x :: p.a.Has(x) && p.b.Has(x)
  {
    if exists x :: p.a.Has(x) && p.b.Has(x) {
      var x :| p.a.Has(x) && p.b.Has(x);
      if p.a.start >= p.b.start {
        assert p.a.Overlaps(p.b);
      } else {
        assert p.b.Overlaps(p.a);
      }
    }
    if p.a.Overlaps(p.b) {
      if p.a.start >= p.b.start && p.a.start <= p.b.end {
        assert p.a.Has(p.a.start) && p.b.Has(p.a.start);
      } else {
        assert p.a.Has(p.a.end) && p.b.Has(p.a.end);
      }
    } else if p.b.Overlaps(p.a) {
      // a range whose end lies in `a` but whose start does not would also contain `a.start`
      assert p.b.start >= p.a.start && p.b.start <= p.a.end;
      assert p.a.Has(p.b.start) && p.b.Has(p.b.start);
    }
  }

  /** For proper ranges, containment implies overlap. */
  lemma ContainingOverlaps(p: AssignmentPair)
    requires p.a.Proper() && p.b.Proper()
    ensures p.IsFullyContaining() ==> p.IsOverlapping()
  {
  }

  /** `part1`: the pairs where one range contains the other. */
  function Part1(input: seq<AssignmentPair>): (n: nat)
    ensures n <= |input|
  {
    if input == [] then 0
    else Part1(input[..|input| - 1]) + if input[|input| - 1].IsFullyContaining() then 1 else 0
  }

  /** `part2`: the pairs that overlap. */
  function Part2(input: seq<AssignmentPair>): (n: nat)
    ensures n <= |input|
  {
    if input == [] then 0
    else Part2(input[..|input| - 1]) + if input[|input| - 1].IsOverlapping() then 1 else 0
  }

  /** With proper ranges, part 1 never exceeds part 2. */
  lemma {:induction false} Part1AtMostPart2(input: seq<AssignmentPair>)
    requires forall k :: 0 <= k < |input| ==> input[k].a.Proper() && input[k].b.Proper()
    ensures Part1(input) <= Part2(input)
  {
    if input != [] {
      Part1AtMostPart2(input[..|input| - 1]);
      ContainingOverlaps(input[|input| - 1]);
    }
  }

  /**
   * `FromStr for Assignment`: split at '-', parse the first two pieces as
   * `u32`; extra pieces are ignored. When the start parses but there is no
   * second piece, `unwrap` panics.
   */
  predicate AssignmentParses(s: string) {
    var parts := Split(s, '-');
    |parts| >= 2 || ParseUnsigned(parts[0], U32_MAX).None?
  }

  function ParseAssignment(s: string): (r: Result<Assignment>)
    requires AssignmentParses(s)
    ensures r.Ok? ==> r.value.start <= U32_MAX && r.value.end <= U32_MAX
  {
    var parts := Split(s, '-');
    match ParseUnsigned(parts[0], U32_MAX)
    case None => Err("invalid digit")
    case Some(start) =>
      match ParseUnsigned(parts[1], U32_MAX)
      case None => Err("invalid digit")
      case Some(end) => Ok(Assignment(start, end))
  }

  /** `FromStr for AssignmentPair`: split at ',' and parse both halves in order; a missing second half panics. */
  predicate PairParses(s: string) {
    var parts := Split(s, ',');
    AssignmentParses(parts[0]) &&
    (ParseAssignment(parts[0]).Ok? ==> |parts| >= 2 && AssignmentParses(parts[1]))
  }

  function ParsePair(s: string): (r: Result<AssignmentPair>)
    requires PairParses(s)
  {
    var parts := Split(s, ',');
    match ParseAssignment(parts[0])
    case Err(e) => Err(e)
    case Ok(a) =>
      match ParseAssignment(parts[1])
      case Err(e) => Err(e)
      case Ok(b) => Ok(AssignmentPair(a, b))
  }

  function RenderAssignment(a: Assignment): string {
    Decimal(a.start) + "-" + Decimal(a.end)
  }

  function RenderPair(p: AssignmentPair): string {
    RenderAssignment(p.a) + "," + RenderAssignment(p.b)
  }

  lemma DecimalHasNo(n: nat, c: char)
    requires !IsDigit(c)
    ensures c !in Decimal(n)
  {
  }

  lemma AssignmentRoundTrip(a: Assignment)
    requires a.start <= U32_MAX && a.end <= U32_MAX
    ensures AssignmentParses(RenderAssignment(a))
    ensures ParseAssignment(RenderAssignment(a)) == Ok(a)
    ensures ',' !in RenderAssignment(a)
  {
    var x, y := Decimal(a.start), Decimal(a.end);
    DecimalHasNo(a.start, '-');
    DecimalHasNo(a.end, '-');
    DecimalHasNo(a.start, ',');
    DecimalHasNo(a.end, ',');
    assert RenderAssignment(a) == Join([x, y], "-");
    SplitJoin([x, y], "-");
    ParseDecimal(a.start, U32_MAX);
    ParseDecimal(a.end, U32_MAX);
  }

  /** A pair written as "s-e,s-e" parses back to itself. */
  lemma PairRoundTrip(p: AssignmentPair)
    requires p.a.start <= U32_MAX && p.a.end <= U32_MAX && p.b.start <= U32_MAX && p.b.end <= U32_MAX
    ensures PairParses(RenderPair(p)) && ParsePair(RenderPair(p)) == Ok(p)
  {
    AssignmentRoundTrip(p.a);
    AssignmentRoundTrip(p.b);
    var x, y := RenderAssignment(p.a), RenderAssignment(p.b);
    assert RenderPair(p) == Join([x, y], ",");
    SplitJoin([x, y], ",");
  }

  /** The worked example: 2 pairs with containment and 4 overlapping pairs. */
  lemma Example(input: seq<AssignmentPair>)
    requires input == [
      AssignmentPair(Assignment(2, 4), Assignment(6, 8)), AssignmentPair(Assignment(2, 3), Assignment(4, 5)),
      AssignmentPair(Assignment(5, 7), Assignment(7, 9)), AssignmentPair(Assignment(2, 8), Assignment(3, 7)),
      AssignmentPair(Assignment(6, 6), Assignment(4, 6)), AssignmentPair(Assignment(2, 6), Assignment(4, 8))]
    ensures Part1(input) == 2 && Part2(input) == 4
  {
    assert input[..5][..4][..3][..2][..1][..0] == [];
    assert input[..|input| - 1] == input[..5] && input[..5][..4] == input[..4] && input[..4][..3] == input[..3];
    assert input[..3][..2] == input[..2] && input[..2][..1] == input[..1] && input[..1][..0] == [];
    assert Part1(input[..1]) == 0 && Part2(input[..1]) == 0;
    assert Part1(input[..2]) == 0 && Part2(input[..2]) == 0;
    assert Part1(input[..3]) == 0 && Part2(input[..3]) == 1;
    assert Part1(input[..4]) == 1 && Part2(input[..4]) == 2;
    assert Part1(input[..5]) == 2 && Part2(input[..5]) == 3;
  }
}
