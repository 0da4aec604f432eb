/**
 * Day 3, "Rucksack Reorganization": each line lists the items of a
 * rucksack, one letter per item. Part 1 scores the item that the two halves
 * share; part 2 scores the item common to each group of three lines.
 */
module Day03 {
  import opened Wrappers

  predicate IsLower(c: char) { 'a' <= c <= 'z' }
  predicate IsUpper(c: char) { 'A' <= c <= 'Z' }
  predicate IsLetter(c: char) { IsLower(c) || IsUpper(c) }

  /** `prio`: a..z score 1..26 and A..Z score 27..52; any other character panics. */
  function Prio(c: char): (p: int)
    requires IsLetter(c)
    ensures 1 <= p <= 52
    ensures p <= 26 <==> IsLower(c)
  {
    if IsLower(c) then c as int - 'a' as int + 1 else c as int - 'A' as int + 27
  }

  /** The item type with a given priority. */
  function PrioChar(p: int): (c: char)
    requires 1 <= p <= 52
    ensures IsLetter(c)
  {
    if p <= 26 then ('a' as int + p - 1) as char else ('A' as int + p - 27) as char
  }

  /** Priorities name item types one to one. */
  lemma PrioBijective(c: char, d: char, p: int)
    requires IsLetter(c) && IsLetter(d) && 1 <= p <= 52
    ensures Prio(PrioChar(p)) == p && PrioChar(Prio(c)) == c
    ensures Prio(c) == Prio(d) ==> c == d
  {
  }

  /** The first item of `a`, in order, that also occurs in `b`. */
  function FirstShared(a: string, b: string): (r: Option<char>)
    ensures r.Some? ==> r.value in a && r.value in b
    ensures r.Some? ==> exists i :: 0 <= i < |a| && a[i] == r.value && forall j :: 0 <= j < i ==> a[j] !in b
    ensures r.None? <==> forall i :: 0 <= i < |a| ==> a[i] !in b
  {
    if a == [] then None
    else if a[0] in b then Some(a[0])
    else
      var r := FirstShared(a[1..], b);
      assert forall i :: 1 <= i < |a| ==> a[i] == a[1..][i - 1];
      if r.Some? then
        var i :| 0 <= i < |a[1..]| && a[1..][i] == r.value && forall j :: 0 <= j < i ==> a[1..][j] !in b;
        assert a[i + 1] == r.value && forall j :: 0 <= j < i + 1 ==> a[j] !in b;
        r
      else r
  }

  /** The two compartments: `split_at(len / 2)`. */
  function Halves(line: string): (string, string) {
    (line[..|line| / 2], line[|line| / 2..])
  }

  /** Scoring a line panics only when its shared item is not a letter. */
  predicate Part1Defined(line: string) {
    var (a, b) := Halves(line);
    FirstShared(a, b).None? || IsLetter(FirstShared(a, b).value)
  }

  function LineScore(line: string): (s: int)
    requires Part1Defined(line)
    ensures 0 <= s <= 52
  {
    var (a, b) := Halves(line);
    match FirstShared(a, b)
    case None => 0
    case Some(c) => Prio(c)
  }

  function Part1(input: seq<string>): (total: int)
    requires forall k :: 0 <= k < |input| ==> Part1Defined(input[k])
    ensures 0 <= total <= 52 * |input|
  {
    if input == [] then 0 else Part1(input[..|input| - 1]) + LineScore(input[|input| - 1])
  }

  /** The search loop of `part1` for one rucksack. */
  method FindShared(a: string, b: string) returns (found: Option<char>)
    ensures found == FirstShared(a, b)
  {
    found := None;
    var k := 0;
    while k < |a|
      invariant 0 <= k <= |a|
      invariant FirstShared(a, b) == FirstShared(a[k..], b)
    {
      assert a[k..][1..] == a[k + 1..];
      if a[k] in b {
        found := Some(a[k]);
        return;
      }
      k := k + 1;
    }
  }

  /** `part1`: the sum over all rucksacks. */
  method SolvePart1(input: seq<string>) returns (total: int)
    requires forall k :: 0 <= k < |input| ==> Part1Defined(input[k])
    ensures total == Part1(input)
  {
    total := 0;
    for i := 0 to |input|
      invariant total == Part1(input[..i])
    {
      var line := input[i];
      var found := FindShared(line[..|line| / 2], line[|line| / 2..]);
      var score := if found.Some? then Prio(found.value) else 0;
      assert input[..i + 1][..i] == input[..i];
      total := total + score;
    }
    assert input[..|input|] == input;
  }

  // ---------------------------------------------------------------------
  // Part 2

  /** The items of `s` that also occur in `g`, in their order in `s`. */
  function Keep(s: string, g: string): (r: string)
    ensures |r| <= |s|
    ensures forall c :: c in r <==> c in s && c in g
  {
    if s == [] then []
    else
      var rest := Keep(s[..|s| - 1], g);
      assert forall c :: c in s <==> c in s[..|s| - 1] || c == s[|s| - 1] by {
        assert s == s[..|s| - 1] + [s[|s| - 1]];
      }
      if s[|s| - 1] in g then rest + [s[|s| - 1]] else rest
  }

  /** `sub` can be obtained from `s` by deleting items. */
  predicate IsSubsequence(sub: string, s: string)
    decreases |s|
  {
    if sub == [] then true
    else if s == [] then false
    else if sub[|sub| - 1] == s[|s| - 1] then IsSubsequence(sub[..|sub| - 1], s[..|s| - 1])
    else IsSubsequence(sub, s[..|s| - 1])
  }

  /** Filtering keeps the original order. */
  lemma {:induction false} KeepIsSubsequence(s: string, g: string)
    ensures IsSubsequence(Keep(s, g), s)
  {
    if s != [] {
      KeepIsSubsequence(s[..|s| - 1], g);
      var rest := Keep(s[..|s| - 1], g);
      if s[|s| - 1] in g {
        assert (rest + [s[|s| - 1]])[..|rest|] == rest;
      } else {
        if rest != [] {
          SubsequenceSkipsLast(rest, s);
        }
      }
    }
  }

  lemma {:induction false} SubsequenceSkipsLast(sub: string, s: string)
    requires s != [] && IsSubsequence(sub, s[..|s| - 1])
    ensures IsSubsequence(sub, s)
    decreases |s|, 1
  {
    if sub != [] && sub[|sub| - 1] == s[|s| - 1] {
      var t := s[..|s| - 1];
      if t != [] && sub[|sub| - 1] == t[|t| - 1] {
        assert IsSubsequence(sub[..|sub| - 1], t[..|t| - 1]);
        assert t[..|t| - 1] == s[..|s| - 1][..|t| - 1];
        SubsequenceSkipsLast(sub[..|sub| - 1], t);
        assert IsSubsequence(sub[..|sub| - 1], t);
      } else if t != [] {
        SubsequenceDropLast(sub, t);
      }
    }
  }

  lemma {:induction false} SubsequenceDropLast(sub: string, s: string)
    requires sub != [] && IsSubsequence(sub, s)
    ensures IsSubsequence(sub[..|sub| - 1], s)
    decreases |s|, 2
  {
    if s != [] {
      if sub[|sub| - 1] == s[|s| - 1] {
        SubsequenceSkipsLast(sub[..|sub| - 1], s);
      } else {
        SubsequenceDropLast(sub, s[..|s| - 1]);
        SubsequenceSkipsLast(sub[..|sub| - 1], s);
      }
    }
  }

  /** The inner loop of `part2`: `next_buffer` collects the items of `buffer` found in `group`. */
  method Narrow(buffer: string, group: string) returns (next: string)
    ensures next == Keep(buffer, group)
  {
    next := [];
    for i := 0 to |buffer|
      invariant next == Keep(buffer[..i], group)
    {
      assert buffer[..i + 1][..i] == buffer[..i];
      if buffer[i] in group {
        next := next + [buffer[i]];
      }
    }
    assert buffer[..|buffer|] == buffer;
  }

  /** The items of the chunk's first line that survive narrowing by each following line (three lines at most). */
  function Common(chunk: seq<string>): (r: string)
    requires |chunk| >= 1
    ensures |chunk| > 3 ==> r == Common(chunk[..3])
  {
    if |chunk| == 1 then chunk[0]
    else if |chunk| > 3 then Common(chunk[..3])
    else Keep(Common(chunk[..|chunk| - 1]), chunk[|chunk| - 1])
  }

  /** An item survives exactly when it is in the first line and in every other line of the (at most three line) chunk. */
  lemma {:induction false} CommonMeans(chunk: seq<string>, c: char)
    requires 1 <= |chunk| <= 3
    ensures c in Common(chunk) <==> forall k :: 0 <= k < |chunk| ==> c in chunk[k]
  {
    if |chunk| > 1 {
      CommonMeans(chunk[..|chunk| - 1], c);
    }
  }

  /** The chunk keeps the first line's order. */
  lemma {:induction false} CommonIsSubsequence(chunk: seq<string>)
    requires 1 <= |chunk| <= 3
    ensures IsSubsequence(Common(chunk), chunk[0])
  {
    if |chunk| == 1 {
      SubsequenceRefl(chunk[0]);
    } else {
      CommonIsSubsequence(chunk[..|chunk| - 1]);
      var prev := Common(chunk[..|chunk| - 1]);
      KeepIsSubsequence(prev, chunk[|chunk| - 1]);
      SubsequenceTrans(Common(chunk), prev, chunk[0]);
    }
  }

  lemma {:induction false} SubsequenceRefl(s: string)
    ensures IsSubsequence(s, s)
  {
    if s != [] {
      SubsequenceRefl(s[..|s| - 1]);
    }
  }

  lemma {:induction false} SubsequenceTrans(a: string, b: string, c: string)
    requires IsSubsequence(a, b) && IsSubsequence(b, c)
    ensures IsSubsequence(a, c)
    decreases |c|
  {
    if a != [] {
      assert b != [] && c != [];
      if b[|b| - 1] == c[|c| - 1] {
        if a[|a| - 1] == b[|b| - 1] {
          SubsequenceTrans(a[..|a| - 1], b[..|b| - 1], c[..|c| - 1]);
        } else {
          SubsequenceTrans(a, b[..|b| - 1], c[..|c| - 1]);
          SubsequenceSkipsLast(a, c);
        }
      } else {
        SubsequenceTrans(a, b, c[..|c| - 1]);
        SubsequenceSkipsLast(a, c);
      }
    }
  }

  /** The groups of `chunks(3)`: consecutive runs of three lines, the last one possibly shorter. */
  function Chunks(input: seq<string>): (cs: seq<seq<string>>)
    ensures forall k :: 0 <= k < |cs| ==> 1 <= |cs[k]| <= 3
    ensures |cs| == (|input| + 2) / 3
    decreases |input|
  {
    if input == [] then []
    else if |input| <= 3 then [input]
    else [input[..3]] + Chunks(input[3..])
  }

  predicate Part2Defined(chunk: seq<string>)
    requires |chunk| >= 1
  {
    Common(chunk) == [] || IsLetter(Common(chunk)[0])
  }

  function ChunkScore(chunk: seq<string>): (s: int)
    requires 1 <= |chunk| && Part2Defined(chunk)
    ensures 0 <= s <= 52
  {
    if Common(chunk) == [] then 0 else Prio(Common(chunk)[0])
  }

  function SumChunks(cs: seq<seq<string>>): int
    requires forall k :: 0 <= k < |cs| ==> 1 <= |cs[k]| && Part2Defined(cs[k])
  {
    if cs == [] then 0 else SumChunks(cs[..|cs| - 1]) + ChunkScore(cs[|cs| - 1])
  }

  /** The buffer loop of `part2` for one chunk. */
  method Badge(chunk: seq<string>) returns (buffer: string)
    requires 1 <= |chunk| <= 3
    ensures buffer == Common(chunk)
  {
    buffer := chunk[0];
    var k := 1;
    while k < |chunk|
      invariant 1 <= k <= |chunk|
      invariant buffer == Common(chunk[..k])
    {
      assert chunk[..k + 1][..k] == chunk[..k];
      buffer := Narrow(buffer, chunk[k]);
      k := k + 1;
    }
    assert chunk[..k] == chunk;
  }

  /** `part2`: the sum over the chunks of three lines. */
  method SolvePart2(input: seq<string>) returns (total: int)
    requires forall k :: 0 <= k < |Chunks(input)| ==> Part2Defined(Chunks(input)[k])
    ensures total == SumChunks(Chunks(input))
  {
    var cs := Chunks(input);
    total := 0;
    for i := 0 to |cs|
      invariant total == SumChunks(cs[..i])
    {
      var buffer := Badge(cs[i]);
      var score := if buffer == [] then 0 else Prio(buffer[0]);
      assert cs[..i + 1][..i] == cs[..i];
      total := total + score;
    }
    assert cs[..|cs|] == cs;
  }
}
