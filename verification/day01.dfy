/**
 * Day 1, "Calorie Counting": lines of numbers separated by blank lines;
 * each block is one elf's food. The answers are the largest block sum and
 * the sum of the three largest.
 */
module Day01 {
  import opened Wrappers
  import opened Text
  import opened Sorting

  /**
   * The block sums of the input: a number adds to the current block, a
   * `None` (a line that is not a number) closes it and opens a new one. The
   * last block counts even when no separator follows it.
   */
  function Groups(input: seq<Option<nat>>): (gs: seq<int>)
    ensures |gs| >= 1
  {
    if input == [] then [0]
    else
      var prev := Groups(input[..|input| - 1]);
      match input[|input| - 1]
      case None => prev + [0]
      case Some(v) => prev[..|prev| - 1] + [prev[|prev| - 1] + v]
  }

  function CountNone(input: seq<Option<nat>>): nat {
    if input == [] then 0
    else CountNone(input[..|input| - 1]) + if input[|input| - 1].None? then 1 else 0
  }

  function SumSome(input: seq<Option<nat>>): nat {
    if input == [] then 0
    else SumSome(input[..|input| - 1]) + input[|input| - 1].GetOr(0)
  }

  /** There is one block more than there are separators. */
  lemma {:induction false} GroupCount(input: seq<Option<nat>>)
    ensures |Groups(input)| == CountNone(input) + 1
  {
    if input != [] {
      GroupCount(input[..|input| - 1]);
    }
  }

  /** Grouping loses no calories: the blocks add up to every number in the input. */
  lemma {:induction false} GroupTotal(input: seq<Option<nat>>)
    ensures Sum(Groups(input)) == SumSome(input)
  {
    if input != [] {
      var prev := Groups(input[..|input| - 1]);
      GroupTotal(input[..|input| - 1]);
      match input[|input| - 1]
      case None =>
      case Some(v) =>
        var init := prev[..|prev| - 1];
        assert prev == init + [prev[|prev| - 1]];
        SumAppend(init, [prev[|prev| - 1]]);
        SumAppend(init, [prev[|prev| - 1] + v]);
    }
  }

  /** Block sums are never negative. */
  lemma {:induction false} GroupsNonNegative(input: seq<Option<nat>>)
    ensures forall k :: 0 <= k < |Groups(input)| ==> Groups(input)[k] >= 0
  {
    if input != [] {
      GroupsNonNegative(input[..|input| - 1]);
    }
  }

  /** Part 1: the largest block sum. */
  function Part1(input: seq<Option<nat>>): (r: int)
    ensures r in Groups(input)
    ensures forall k :: 0 <= k < |Groups(input)| ==> Groups(input)[k] <= r
  {
    Max(Groups(input))
  }

  /** Part 2: the sum of the three largest block sums (of all of them when there are fewer). */
  function Part2(input: seq<Option<nat>>): int {
    Sum(TakeLargest(Sort(Groups(input)), 3))
  }

  /**
   * Part 2 is the best three blocks: no three distinct places of the sorted
   * block sums add up to more.
   */
  lemma Part2IsTopThree(input: seq<Option<nat>>, i: int, j: int, k: int)
    requires 0 <= i < j < k < |Groups(input)|
    ensures var t := Sort(Groups(input)); t[i] + t[j] + t[k] <= Part2(input)
  {
    GroupsNonNegative(input);
    TopThreeOfSorted(Groups(input), Sort(Groups(input)), i, j, k);
  }

  /** With at least three blocks, part 2 is at least part 1. */
  lemma Part1AtMostPart2(input: seq<Option<nat>>)
    requires |Groups(input)| >= 3
    ensures Part1(input) <= Part2(input)
  {
    GroupsNonNegative(input);
    TopThreeOfSorted(Groups(input), Sort(Groups(input)), 0, 1, 2);
  }

  lemma TopThreeOfSorted(g: seq<int>, t: seq<int>, i: int, j: int, k: int)
    requires forall x :: 0 <= x < |g| ==> g[x] >= 0
    requires Sorted(t) && multiset(t) == multiset(g) && |t| == |g|
    requires 0 <= i < j < k < |g|
    ensures t[i] + t[j] + t[k] <= Sum(TakeLargest(t, 3))
    ensures t[|t| - 1] <= Sum(TakeLargest(t, 3))
  {
    var n := |t|;
    NonNegativeMember(g, t[n - 2]);
    NonNegativeMember(g, t[n - 3]);
    TopThreeAtLeastMax(t, i, j, k);
  }

  lemma NonNegativeMember(g: seq<int>, x: int)
    requires forall y :: 0 <= y < |g| ==> g[y] >= 0
    requires x in multiset(g)
    ensures x >= 0
  {
    assert x in g;
  }

  lemma TopThreeAtLeastMax(t: seq<int>, i: int, j: int, k: int)
    requires Sorted(t) && |t| >= 3 && t[|t| - 2] >= 0 && t[|t| - 3] >= 0
    requires 0 <= i < j < k < |t|
    ensures t[i] + t[j] + t[k] <= Sum(TakeLargest(t, 3))
    ensures t[|t| - 1] <= Sum(TakeLargest(t, 3))
  {
    TopThreeIsLargest(t, i, j, k);
    LargestThree(t);
  }

  /** `solve`: the accumulating loop, the final push, the sort and the two answers. */
  method Solve(input: seq<Option<nat>>) returns (p1: int, p2: int)
    ensures p1 == Part1(input) && p2 == Part2(input)
  {
    var cals: seq<int> := [];
    var curr := 0;
    for i := 0 to |input|
      invariant cals + [curr] == Groups(input[..i])
    {
      assert input[..i + 1][..i] == input[..i];
      match input[i]
      case Some(v) =>
        curr := curr + v;
      case None =>
        cals := cals + [curr];
        curr := 0;
    }
    assert input[..|input|] == input;
    cals := cals + [curr];
    cals := Sort(cals);
    p1 := cals[|cals| - 1];
    p2 := Sum(TakeLargest(cals, 3));
  }

  /** A line becomes a number when it parses as a `u32`, and a separator otherwise. */
  function ParseLine(line: string): (r: Option<nat>)
    ensures r.Some? ==> r.value <= U32_MAX && |line| >= 1
  {
    ParseUnsigned(line, U32_MAX)
  }

  function ReadInput(lines: seq<string>): (input: seq<Option<nat>>)
    ensures |input| == |lines|
    ensures forall k :: 0 <= k < |lines| ==> input[k] == ParseLine(lines[k])
  {
    if lines == [] then [] else [ParseLine(lines[0])] + ReadInput(lines[1..])
  }

  /** A blank line separates blocks, and a written calorie count reads back as itself. */
  lemma ParseLineCases(n: nat)
    requires n <= U32_MAX
    ensures ParseLine("") == None
    ensures ParseLine(Decimal(n)) == Some(n)
  {
    ParseDecimal(n, U32_MAX);
  }

  function Numbers(vs: seq<nat>): (input: seq<Option<nat>>)
    ensures |input| == |vs| && forall k :: 0 <= k < |vs| ==> input[k] == Some(vs[k])
  {
    if vs == [] then [] else Numbers(vs[..|vs| - 1]) + [Some(vs[|vs| - 1])]
  }

  /** Blocks of calorie counts written one number per line, with a blank line between blocks. */
  function Layout(blocks: seq<seq<nat>>): seq<Option<nat>>
    requires |blocks| >= 1
  {
    if |blocks| == 1 then Numbers(blocks[0])
    else Layout(blocks[..|blocks| - 1]) + [None] + Numbers(blocks[|blocks| - 1])
  }

  function Sums(blocks: seq<seq<nat>>): (r: seq<int>)
    ensures |r| == |blocks| && forall k :: 0 <= k < |blocks| ==> r[k] == Sum(blocks[k])
  {
    if blocks == [] then [] else Sums(blocks[..|blocks| - 1]) + [Sum(blocks[|blocks| - 1])]
  }

  /** A run of numbers adds its total to the open block and leaves the closed ones alone. */
  lemma {:induction false} GroupsOfRun(s: seq<Option<nat>>, vs: seq<nat>)
    ensures var prev := Groups(s);
            var g := Groups(s + Numbers(vs));
            |g| == |prev| && g[..|g| - 1] == prev[..|prev| - 1] &&
            g[|g| - 1] == prev[|prev| - 1] + Sum(vs)
  {
    if vs == [] {
      assert s + Numbers(vs) == s;
    } else {
      var vs' := vs[..|vs| - 1];
      GroupsOfRun(s, vs');
      var t := s + Numbers(vs');
      assert s + Numbers(vs) == t + [Some(vs[|vs| - 1])];
      assert (t + [Some(vs[|vs| - 1])])[..|t|] == t;
      var g, g' := Groups(s + Numbers(vs)), Groups(t);
      assert g == g'[..|g'| - 1] + [g'[|g'| - 1] + vs[|vs| - 1]];
    }
  }

  lemma GroupsOfSeparator(s: seq<Option<nat>>)
    ensures Groups(s + [None]) == Groups(s) + [0]
  {
    assert (s + [None])[..|s|] == s;
  }

  /** Grouping an input laid out in blocks gives back the block totals, one per block. */
  lemma {:induction false} GroupsOfLayout(blocks: seq<seq<nat>>)
    requires |blocks| >= 1
    ensures Groups(Layout(blocks)) == Sums(blocks)
  {
    if |blocks| == 1 {
      GroupsOfBlock(blocks);
    } else {
      GroupsOfLayout(blocks[..|blocks| - 1]);
      GroupsOfNextBlock(blocks);
    }
  }

  lemma {:induction false} GroupsOfBlock(blocks: seq<seq<nat>>)
    requires |blocks| == 1
    ensures Groups(Layout(blocks)) == Sums(blocks)
  {
    var b := blocks[0];
    var none: seq<Option<nat>> := [];
    GroupsOfRun(none, b);
    assert none + Numbers(b) == Numbers(b);
    assert Groups(none) == [0];
    var g := Groups(Numbers(b));
    assert |g| == 1 && g[0] == Sum(b);
    assert g == [Sum(b)];
    assert blocks[..0] == [];
    assert Sums(blocks) == [Sum(b)];
  }

  lemma {:induction false} GroupsOfNextBlock(blocks: seq<seq<nat>>)
    requires |blocks| > 1
    requires Groups(Layout(blocks[..|blocks| - 1])) == Sums(blocks[..|blocks| - 1])
    ensures Groups(Layout(blocks)) == Sums(blocks)
  {
    var init, b := blocks[..|blocks| - 1], blocks[|blocks| - 1];
    var p := Layout(init);
    assert Layout(blocks) == (p + [None]) + Numbers(b);
    assert Sums(blocks) == Sums(init) + [Sum(b)];
    GroupsOfSeparator(p);
    ClosedThenRun(p + [None], b, Sums(init));
  }

  /** A run of numbers after a separator becomes one new block. */
  lemma ClosedThenRun(q: seq<Option<nat>>, b: seq<nat>, closed: seq<int>)
    requires Groups(q) == closed + [0]
    ensures Groups(q + Numbers(b)) == closed + [Sum(b)]
  {
    GroupsOfRun(q, b);
    var g := Groups(q + Numbers(b));
    assert g[..|g| - 1] == closed;
    assert g == g[..|g| - 1] + [g[|g| - 1]];
  }

  lemma ExampleSums(blocks: seq<seq<nat>>)
    requires blocks == [[1000, 2000, 3000], [4000], [5000, 6000], [7000, 8000, 9000], [10000]]
    ensures Sums(blocks) == [6000, 4000, 11000, 24000, 10000]
  {
    SumOfThree(blocks[0]);
    SumOfThree(blocks[3]);
    assert blocks[2][..1] == [5000];
    assert Sum(blocks[2]) == 11000;
  }

  lemma ExampleSorted(g: seq<int>)
    requires g == [6000, 4000, 11000, 24000, 10000]
    ensures Sort(g) == [4000, 6000, 10000, 11000, 24000]
  {
    var t := [4000, 6000, 10000, 11000, 24000];
    ExamplePermutation(g, t);
    SortIsUnique(g, t);
  }

  lemma ExamplePermutation(g: seq<int>, t: seq<int>)
    requires g == [6000, 4000, 11000, 24000, 10000] && t == [4000, 6000, 10000, 11000, 24000]
    ensures multiset(t) == multiset(g) && Sorted(t)
  {
    assert t == [g[1], g[0], g[4], g[2], g[3]];
  }

  /** The worked example of the puzzle, five blocks, gives 24000 and 45000. */
  lemma Example(input: seq<Option<nat>>)
    requires input == Layout([[1000, 2000, 3000], [4000], [5000, 6000], [7000, 8000, 9000], [10000]])
    ensures Part1(input) == 24000 && Part2(input) == 45000
  {
    var blocks := [[1000, 2000, 3000], [4000], [5000, 6000], [7000, 8000, 9000], [10000]];
    GroupsOfLayout(blocks);
    ExampleSums(blocks);
    var g := Groups(input);
    ExampleSorted(g);
    LargestThree(Sort(g));
  }
}
