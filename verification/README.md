# Advent of Code 2022, days 1 to 14, in Dafny

This project models the fourteen puzzle solvers of the Rust repository
`advent-of-code-2022` (one binary per day under `rust/src/bin/`). For each
day it models the input parser, the puzzle's data model, and both parts of
the solution. It also proves what each part computes, in the puzzle's own
terms. The code's own form is kept:

- Pure functions and recursion become Dafny functions and lemmas.
- Loops become methods with loop invariants, proved against a specification function.
- Objects updated in place become classes: the day 7 directory tree, the day 9 rope, the day 10 CPU and screen, and the day 14 cave.

One module per day (`Day01` … `Day14`, in `day01.dfy` … `day14.dfy`).
Three shared modules:

- `Wrappers`: `Option` and `Result`. Parse errors and panics of the source become `Err` or `None` where the source can reach them.
- `Text`: the parts of Rust's `str` API the parsers use: `split`, `split_ascii_whitespace`, decimal `parse` and decimal rendering.
- `Sorting`: a reference sort standing in for `Vec::sort`, with sums, maxima and top-k selection.

What each day covers:

- Day 1: block sums of calories; the largest block and the three largest.
- Day 2: rock-paper-scissors scoring under both readings of the guide.
- Day 3: rucksack priorities, and the item shared by two halves or by three rucksacks.
- Day 4: section ranges that contain or overlap each other.
- Day 5: crate stacks moved one crate at a time or as a block.
- Day 6: the first window of distinct characters; part 2's window wraps around the stream.
- Day 7: the directory tree replayed from a shell session, its cached sizes, the pre-order walk, and both size questions.
- Day 8: tree visibility from the edges, and scenic scores.
- Day 9: a rope of knots following its head; the cells its tail visits.
- Day 10: the CPU's signal strengths and the pixels the screen lights.
- Day 11: monkeys passing worry levels, reduced by division by three or modulo a common multiple of their divisors.
- Day 12: breadth-first search on a heightmap, proved complete and optimal.
- Day 13: the packet order, its stack-based parser and printer, the index sum, and the decoder key.
- Day 14: rock paths rasterised into a cave, and sand poured until it stops.

## Model

| member | source | states |
|---|---|---|
| Day01.GroupCount | rust/src/bin/day01.rs:12-23 | the final block is pushed even without a separator, so there is one block more than there are non-number lines |
| Day01.GroupTotal | rust/src/bin/day01.rs:13-23 | numbers add into the open block and a separator starts a new one at 0, so the blocks add up to every number of the input |
| Day01.GroupsOfLayout | rust/src/bin/day01.rs:13-23 | input written as blocks of numbers separated by blank lines yields exactly the sum of each block, in order |
| Day01.Part1 | rust/src/bin/day01.rs:24-25 | the first answer is one of the block sums and no block sum exceeds it |
| Day01.Part2IsTopThree | rust/src/bin/day01.rs:24-25 | no three distinct places of the sorted block sums add up to more than the second answer |
| Day01.Part1AtMostPart2 | rust/src/bin/day01.rs:24-25 | with at least three blocks the largest block never exceeds the three largest together |
| Day01.Solve | rust/src/bin/day01.rs:12-26 | the accumulating loop, the final push, the sort and the two answers compute exactly the largest block and the sum of the three largest |
| Day01.ParseLine | rust/src/bin/day01.rs:41 | a line becomes a number only when it is non-empty and parses within the `u32` range |
| Day01.ParseLineCases | rust/src/bin/day01.rs:41 | a blank line is a separator and a written calorie count reads back as itself |
| Day01.ReadInput | rust/src/bin/day01.rs:38-43 | one entry per input line, each the line's parse |
| Day01.Example | rust/src/bin/day01.rs:56-93 | the worked example gives 24000 and 45000 |
| Day02.Shape.Score | rust/src/bin/day02.rs:34-40 | rock scores 1, paper 2, scissors 3 |
| Day02.Shape.Draw | rust/src/bin/day02.rs:54-56 | the shape `draw` picks neither beats nor is beaten by the opponent's, by `is_win` and by the game's rules |
| Day02.WinLooseRules | rust/src/bin/day02.rs:46-64 | `win` gives the shape that beats the argument and `loose` the one it beats, by the game's rules; each undoes the other and neither is the identity |
| Day02.IsWinIsBeats | rust/src/bin/day02.rs:42-44 | `you.is_win(opp)` holds exactly when the rules say `you` beats `opp` |
| Day02.OneOutcome | rust/src/bin/day02.rs:76-80 | every round is exactly one of a draw, a win or a loss |
| Day02.RoundScore | rust/src/bin/day02.rs:73-81 | a round scores the shape played plus 3 for a draw, 6 for a win, 0 for a loss, so between 1 and 9 |
| Day02.Solve | rust/src/bin/day02.rs:67-84 | the total of n rounds lies between n and 9n |
| Day02.Part2Choice | rust/src/bin/day02.rs:94-100 | X picks a shape the opponent beats, Y the same shape, Z a shape that beats the opponent (each an if and only if) |
| Day02.Part2RoundScore | rust/src/bin/day02.rs:94-100 | under part 2 a round scores 0, 3 or 6 for X, Y, Z plus the shape played |
| Day02.UnicodeWordLength | rust/src/bin/day02.rs:114 | the first word runs up to the first Unicode white space character |
| Day02.UnicodeWords | rust/src/bin/day02.rs:114 | `split_whitespace` gives non-empty words free of Unicode white space |
| Day02.WordLengthsAgree | rust/src/bin/day02.rs:114 | where the two notions of whitespace agree, the first word has the same length under both |
| Day02.UnicodeWordsAgree | rust/src/bin/day02.rs:114 | where the two notions of whitespace agree, `split_whitespace` and `split_ascii_whitespace` give the same words |
| Day02.ParseRound | rust/src/bin/day02.rs:111-132 | a line parses exactly when its first word is `A`, `B` or `C` and its second `X`, `Y` or `Z`, and the round then holds the shape and strategy those letters name |
| Day02.ParseRejectsUnknown | rust/src/bin/day02.rs:116-121 | a line whose first word is not `A`, `B` or `C` is rejected as an unknown opponent |
| Day02.RoundRoundTrip | rust/src/bin/day02.rs:111-132 | a round written as "A Y" parses back to itself |
| Day02.Example | rust/src/bin/day02.rs:149-175 | the worked example gives 15 and 12 |
| Day03.Prio | rust/src/bin/day03.rs:12-18 | a priority lies in 1..52 and is at most 26 exactly for lower-case letters; non-letters are excluded because they panic |
| Day03.PrioBijective | rust/src/bin/day03.rs:12-18 | priorities and letters correspond one to one (a..z to 1..26, A..Z to 27..52) |
| Day03.FirstShared | rust/src/bin/day03.rs:26-32 | the result is the first item of the first compartment that also occurs in the second, and there is none exactly when no item is shared |
| Day03.LineScore | rust/src/bin/day03.rs:24-34 | one rucksack scores the priority of its shared item or 0, so between 0 and 52 |
| Day03.Part1 | rust/src/bin/day03.rs:20-37 | the sum over n rucksacks lies between 0 and 52n |
| Day03.FindShared | rust/src/bin/day03.rs:26-32 | the search loop with its early break finds exactly the first shared item |
| Day03.SolvePart1 | rust/src/bin/day03.rs:20-37 | the loop over rucksacks computes the part 1 sum |
| Day03.Keep | rust/src/bin/day03.rs:45-51 | filtering keeps exactly the items that occur in both strings and never lengthens the buffer |
| Day03.KeepIsSubsequence | rust/src/bin/day03.rs:45-51 | filtering keeps the buffer's original order |
| Day03.Narrow | rust/src/bin/day03.rs:45-51 | the inner loop builds `next_buffer` as the filtered buffer |
| Day03.Common | rust/src/bin/day03.rs:43-52 | only the first three lines of a chunk take part |
| Day03.CommonMeans | rust/src/bin/day03.rs:43-52 | an item survives exactly when it occurs in every line of the chunk |
| Day03.CommonIsSubsequence | rust/src/bin/day03.rs:43-52 | the survivors are a subsequence of the chunk's first line |
| Day03.Chunks | rust/src/bin/day03.rs:41 | the input splits into ceil(n/3) chunks of one to three lines |
| Day03.ChunkScore | rust/src/bin/day03.rs:54 | a chunk scores the first survivor's priority or 0, between 0 and 52 |
| Day03.Badge | rust/src/bin/day03.rs:43-52 | the buffer loop computes the chunk's survivors |
| Day03.SolvePart2 | rust/src/bin/day03.rs:39-57 | the loop over chunks computes the part 2 sum |
| Day04.PairSymmetry | rust/src/bin/day04.rs:21-27 | containment is reflexive, and both pair predicates give the same answer with the two elves swapped |
| Day04.ContainsIsInclusion | rust/src/bin/day04.rs:37-39 | for a proper range, `fully_contains` holds exactly when every section of the other range is in this one |
| Day04.OverlapIsSharedSection | rust/src/bin/day04.rs:25-27 | for proper ranges, a pair overlaps exactly when some section belongs to both ranges (checking either range's ends in the other suffices) |
| Day04.ContainingOverlaps | rust/src/bin/day04.rs:21-27 | for proper ranges, a containing pair also overlaps |
| Day04.Part1 | rust/src/bin/day04.rs:47-49 | the count of containing pairs is at most the number of pairs |
| Day04.Part2 | rust/src/bin/day04.rs:51-53 | the count of overlapping pairs is at most the number of pairs |
| Day04.Part1AtMostPart2 | rust/src/bin/day04.rs:47-53 | with proper ranges the part 1 count never exceeds the part 2 count |
| Day04.ParseAssignment | rust/src/bin/day04.rs:75-84 | a parsed range has both ends within the `u32` range; a bad number is an error |
| Day04.AssignmentRoundTrip | rust/src/bin/day04.rs:75-84 | a range written as "s-e" parses back to itself |
| Day04.PairRoundTrip | rust/src/bin/day04.rs:64-84 | a pair written as "s-e,s-e" splits at the comma and parses back to itself |
| Day04.Example | rust/src/bin/day04.rs:104-133 | the worked example gives 2 and 4 |
| Day05.Reverse | rust/src/bin/day05.rs:141-143 | `chars().rev()` keeps the length and puts character i at place n-1-i |
| Day05.ReverseReverse | rust/src/bin/day05.rs:57 | reading a reversed buffer backwards gives it back, so the part 2 crane keeps the block's order |
| Day05.ZeroStepLeavesStacks | rust/src/bin/day05.rs:33-36 | a step of zero crates never panics, whatever its stack numbers, and leaves the stacks as they are |
| Day05.MoveEffect | rust/src/bin/day05.rs:27-37 | a step between two different existing stacks takes `num` crates from one, adds `num` to the other, leaves every other stack alone and keeps the total |
| Day05.CranesAgreeOnSingleCrates | rust/src/bin/day05.rs:33-36 | for a step of at most one crate both cranes do the same |
| Day05.MoveOneAtATime | rust/src/bin/day05.rs:33-36 | popping and pushing one crate `num` times moves the top `num` crates reversed; a step of zero crates needs no stack to exist |
| Day05.PendingStep | rust/src/bin/day05.rs:33-36 | each pass of the pop/push loop takes the current top crate of `from` onto `to` |
| Day05.MoveBlock | rust/src/bin/day05.rs:52-59 | popping into a buffer and pushing the buffer back to front moves the top `num` crates in their order; a step of zero crates needs no stack to exist |
| Day05.PopInto | rust/src/bin/day05.rs:52-56 | the pop loop leaves `from` without its top `num` crates and the buffer holds them top first; with `num` zero it touches nothing, and `from` need not exist |
| Day05.PushAll | rust/src/bin/day05.rs:57-59 | pushing the buffer back to front appends it reversed; an empty buffer touches nothing, and `to` need not exist |
| Day05.BlockMoved | rust/src/bin/day05.rs:52-59 | popping into the buffer and pushing it reversed is the block move |
| Day05.Run | rust/src/bin/day05.rs:27-37 | the procedure keeps the number of stacks |
| Day05.RunConserves | rust/src/bin/day05.rs:27-37 | a procedure never creates or loses a crate |
| Day05.RunOkPrefix | rust/src/bin/day05.rs:27-37 | a procedure that does not panic does not panic on any prefix either |
| Day05.TopLetters | rust/src/bin/day05.rs:65-70 | there is at most one letter per stack |
| Day05.TopLettersOfFullStacks | rust/src/bin/day05.rs:65-70 | when no stack is empty the answer is exactly the top crate of each stack, in stack order |
| Day05.TopLettersSkipsEmpty | rust/src/bin/day05.rs:65-70 | empty stacks contribute nothing: the answer is that of the non-empty stacks alone |
| Day05.Solve | rust/src/bin/day05.rs:24-63 | running every step with the chosen crane and reading the tops gives the top letters of the final stacks; steps of zero crates may name any stacks |
| Day05.ParseStep | rust/src/bin/day05.rs:81-95 | a step parses only from a line with at least six words |
| Day05.StepRoundTrip | rust/src/bin/day05.rs:81-95 | "move n from a to b" with 1-based stack numbers parses back to the step with 0-based numbers |
| Day05.StackPos | rust/src/bin/day05.rs:100-106 | a cell holds a crate exactly when it starts with `[`, and the crate is its second character |
| Day05.RowCells | rust/src/bin/day05.rs:116-126 | entry i of a drawing row is the cell at columns 4i..4i+3 |
| Day05.ReadRow | rust/src/bin/day05.rs:116-126 | the cell-walking loop reads the whole row |
| Day05.ReadStacks | rust/src/bin/day05.rs:108-143 | there is one stack per cell of the first row, and each stack is its column of crates read bottom to top |
| Day05.ExamplePart1 | rust/src/bin/day05.rs:163-188 | the worked example with the one-at-a-time crane ends with tops "CMZ" |
| Day05.ExamplePart2 | rust/src/bin/day05.rs:163-194 | the worked example with the block crane ends with tops "MCD" |
| Day06.Elems | rust/src/bin/day06.rs:15 | collecting a window into a `BTreeSet` keeps exactly its characters |
| Day06.ElemsCount | rust/src/bin/day06.rs:15-16 | the set is never larger than the window, and as large exactly when the window's characters are pairwise distinct |
| Day06.WindowAt | rust/src/bin/day06.rs:15 | `skip(i).take(k)` yields at most k characters (fewer near the end unless the input is cycled) |
| Day06.MarkerIsSetSize | rust/src/bin/day06.rs:16 | a window is a marker exactly when its set has k elements |
| Day06.FirstMarker | rust/src/bin/day06.rs:14-19 | the search returns a marker position and no earlier position is one, and returns none only when no position from the start is one |
| Day06.Part1Meaning | rust/src/bin/day06.rs:13-21 | a non-zero answer is the end of a window of four distinct characters, and every such window ends at or after the answer (so the answer is 0 only when there is none) |
| Day06.Part2Meaning | rust/src/bin/day06.rs:23-36 | a non-zero answer is the end of a wrapping window of fourteen distinct characters, and every non-wrapping such window ends at or after the answer |
| Day06.CyclicInside | rust/src/bin/day06.rs:25-29 | a window that fits inside the input is the same whether or not the input is cycled |
| Day06.CyclicWithin | rust/src/bin/day06.rs:25-30 | a wrapping window only holds characters of the input |
| Day06.Part2Short | rust/src/bin/day06.rs:23-36 | an input of fewer than fourteen characters has no message marker, even with wrapping |
| Day06.SearchFinds | rust/src/bin/day06.rs:14-20 | the first marker position m gives the answer m + k |
| Day06.ExamplePart1 | rust/src/bin/day06.rs:60-76 | the example's first packet marker ends at 7 |
| Day06.ExamplePart2 | rust/src/bin/day06.rs:60-82 | the example's first message marker ends at 19 |
| Day07.Tree.Root | rust/src/bin/day07.rs:33-41 | the tree starts as the root "/" alone: no parent, no subdirectories, no files, nothing cached |
| Day07.Tree.ComputeSize | rust/src/bin/day07.rs:43-59 | `size` returns the directory's full size (its files plus every subdirectory's size) and leaves it cached, and every size already cached stays correct and cached |
| Day07.Tree.SizeOfSubdirectories | rust/src/bin/day07.rs:50-52 | the loop over subdirectories adds up their sizes, filling the cache for them |
| Day07.Tree.AddFileSizes | rust/src/bin/day07.rs:53-55 | the loop over files adds every file size |
| Day07.Tree.Visit | rust/src/bin/day07.rs:61-69 | `visit` calls the visitor on the directory, then on each subdirectory's subtree in order: a pre-order walk |
| Day07.Tree.PreOrderCovers | rust/src/bin/day07.rs:61-69 | every directory built from the session is visited from the root |
| Day07.Tree.SizeBound | rust/src/bin/day07.rs:43-59 | a directory is never smaller than any directory inside it |
| Day07.Tree.Part1 | rust/src/bin/day07.rs:91-100 | the answer is the sum of the sizes below 100000 over the walk from the root (by `Part1Sum`, over all directories once each) |
| Day07.Tree.SmallSizesTotal | rust/src/bin/day07.rs:93-98 | the visitor adds each visited size below 100000 |
| Day07.Tree.Part1Counts | rust/src/bin/day07.rs:91-100 | every directory smaller than 100000 is counted in the answer |
| Day07.Tree.Part2 | rust/src/bin/day07.rs:102-115 | the answer starts at the root's size and is the least size over the walk that reaches the space needed |
| Day07.Tree.SmallestCovering | rust/src/bin/day07.rs:106-113 | the visitor keeps the least size that reaches the space needed |
| Day07.Tree.SmallestIsLeast | rust/src/bin/day07.rs:106-113 | the kept size never grows, is either the starting size or a visited size that is large enough, and is at most every visited size that is large enough |
| Day07.Tree.Part2Meaning | rust/src/bin/day07.rs:102-115 | when the subtractions do not underflow, the answer is the size of some directory, frees enough space, and no directory that frees enough is smaller |
| Day07.Tree.AddDir | rust/src/bin/day07.rs:168-175 | `dir name` appends a new empty directory under the current one, whether or not one of that name exists |
| Day07.Tree.AddFile | rust/src/bin/day07.rs:176-182 | a size line appends a file to the current directory and changes nothing else |
| Day07.Tree.FindChild | rust/src/bin/day07.rs:144-150 | the search returns the first subdirectory with the name, and none only when no subdirectory has it |
| Day07.Tree.Enter | rust/src/bin/day07.rs:143-166 | `cd name` enters the first subdirectory of that name and changes nothing else; when there is none it appends a new empty directory of that name under the current one, exactly as `dir name` does, and enters it |
| Day07.Tree.Apply | rust/src/bin/day07.rs:135-184 | each command line leaves the tree and the current directory as `Step` gives them, and new directories start with nothing cached |
| Day07.FirstNamed | rust/src/bin/day07.rs:144-150 | the position found is that of the first subdirectory with the name, or the end when none has it |
| Day07.Arena.AddDir | rust/src/bin/day07.rs:168-175 | appending a new empty directory under an existing one keeps the arena a tree, with one node more |
| Day07.Arena.AddFile | rust/src/bin/day07.rs:176-182 | appending a file to an existing directory keeps the arena a tree, with the same nodes |
| Day07.Step | rust/src/bin/day07.rs:135-184 | one line, replayed from a directory of a tree, gives a tree with no fewer directories and a current directory inside it: `cd /` goes to the root, `cd ..` to the parent (staying at the root), `cd name` to the first subdirectory of that name (created when missing), `ls` changes nothing, `dir name` adds a directory, a size line a file |
| Day07.Replay | rust/src/bin/day07.rs:126-187 | replaying any session from the root gives a tree and a current directory inside it |
| Day07.AllFilesAdd | rust/src/bin/day07.rs:176-182 | adding a file to one directory adds its size to the total of all files |
| Day07.AddDirKeepsFiles | rust/src/bin/day07.rs:168-175 | a new directory adds nothing to the total of all files |
| Day07.StepKeepsFiles | rust/src/bin/day07.rs:135-184 | one line adds to the total of all files exactly the size it lists, if it is a size line, and nothing otherwise |
| Day07.ReplayKeepsFiles | rust/src/bin/day07.rs:126-187 | the files of the tree a session builds add up to the sizes on its size lines |
| Day07.Commands | rust/src/bin/day07.rs:130-135 | the commands of a session that parses line by line, one per line |
| Day07.ParseCommand | rust/src/bin/day07.rs:133-183 | a size line's size fits in `u32` |
| Day07.CommandRoundTrip | rust/src/bin/day07.rs:133-183 | every command written out as its words parses back to itself |
| Day07.ParseRejects | rust/src/bin/day07.rs:183 | a line of neither two nor three words is unhandled |
| Day07.ReadInput | rust/src/bin/day07.rs:126-188 | the session builds a tree exactly when every line parses; the tree is the one `Replay` builds from the parsed lines, well linked, with nothing cached |
| Day07.Tree.SubtreeClosed | rust/src/bin/day07.rs:61-69 | whatever the walk from a directory reaches, the walk from any directory it reaches stays inside it |
| Day07.Tree.SmallTotalCounts | rust/src/bin/day07.rs:93-98 | each visited directory below 100000 contributes its size to the total |
| Day07.Tree.Part1Sum | rust/src/bin/day07.rs:91-100 | in a tree whose subdirectories are listed in creation order (every tree a session builds, by `ReplayOrdered`), the total over the walk from the root is the total of the sizes below 100000 over all directories, each counted once |
| Day07.Tree.WalkIsPermutation | rust/src/bin/day07.rs:61-69 | in such a tree the walk from the root visits every directory exactly once: it is a permutation of all directories and as long as their number |
| Day07.Tree.PreOrderDistinct | rust/src/bin/day07.rs:61-69 | in such a tree the walk from any directory visits no directory twice |
| Day07.Tree.SubtreesDistinct | rust/src/bin/day07.rs:64-66 | the walks below the first subdirectories of a directory, one after another, visit no directory twice |
| Day07.Tree.PreOrderBelow | rust/src/bin/day07.rs:61-69 | the walk from a directory only reaches directories of its own subtree |
| Day07.Tree.SubtreesBelow | rust/src/bin/day07.rs:64-66 | the walks below the subdirectories of a directory stay in that directory's subtree |
| Day07.Tree.SubtreesAvoid | rust/src/bin/day07.rs:64-66 | the walks below the earlier subdirectories never enter the subtree of a later one |
| Day07.Tree.BelowParent | rust/src/bin/day07.rs:14-19 | whatever lies in the subtree of a subdirectory lies in the subtree of the directory holding it |
| Day07.Tree.BelowOneChild | rust/src/bin/day07.rs:14-19 | no directory lies in the subtrees of two different subdirectories of the same directory |
| Day07.Tree.SmallTotalPermutation | rust/src/bin/day07.rs:93-98 | the visitor's total does not depend on the order the directories are visited in |
| Day07.Tree.SmallTotalAppend | rust/src/bin/day07.rs:93-98 | the total over two walks one after the other is the sum of their totals |
| Day07.AddDirOrdered | rust/src/bin/day07.rs:168-175 | a new directory is appended after its siblings with an index larger than theirs, so siblings stay in creation order |
| Day07.ReplayOrdered | rust/src/bin/day07.rs:126-187 | every tree a session builds lists each directory's subdirectories in creation order |
| Day07.ReplayLine | rust/src/bin/day07.rs:135-184 | one parsed line leaves the tree as `Step` gives it, still well linked, with nothing cached |
| Day08.InsideEdgeIsInside | rust/src/bin/day08.rs:31-37 | `is_inside_edge` holds exactly for the cells of the grid that have a neighbour on all four sides |
| Day08.ViewFrom | rust/src/bin/day08.rs:43-54 | the walk from a tree counts every shorter tree it passes and stops at the first tree at least as tall, or at the edge |
| Day08.ViewDistanceMeaning | rust/src/bin/day08.rs:43-54 | a viewing distance is the number the source's walk counts exactly when all trees before it are shorter and it ends at the edge or at a tree at least as tall |
| Day08.CountTrees | rust/src/bin/day08.rs:43-54 | the loop counts the trees seen in one direction, as the viewing distance defines them |
| Day08.ScenicScore | rust/src/bin/day08.rs:39-59 | `scenic_score` is the product of the four viewing distances |
| Day08.BorderScoreZero | rust/src/bin/day08.rs:39-59 | a tree on the border has scenic score zero |
| Day08.ZeroFactor | rust/src/bin/day08.rs:41-57 | once one direction has viewing distance zero, the running product stays zero |
| Day08.Part2 | rust/src/bin/day08.rs:98-111 | the answer is the scenic score of some tree and no tree scores higher |
| Day08.BorderVisible | rust/src/bin/day08.rs:95 | every tree on the border is visible |
| Day08.RayMaxIsMax | rust/src/bin/day08.rs:80-88 | `max_h` is the tallest tree from the start of the ray up to the current cell, and is the height of one of them |
| Day08.RayVisibility | rust/src/bin/day08.rs:84-92 | a tree on a ray is visible from the ray's edge exactly when it is taller than every tree before it on the ray |
| Day08.RaySeenMembers | rust/src/bin/day08.rs:84-92 | the cells inserted along a ray so far are exactly the ray's cells visible from its edge |
| Day08.ScanStep | rust/src/bin/day08.rs:84-92 | one step of the inner loop inserts the current cell exactly when it is taller than the running maximum |
| Day08.Scan | rust/src/bin/day08.rs:77-93 | walking one ray adds exactly its cells visible from its edge to the set |
| Day08.ScanMembers | rust/src/bin/day08.rs:77-93 | a ray collects exactly the interior cells in its row or column that are visible from the ray's edge |
| Day08.ScanTop | rust/src/bin/day08.rs:69 | the top rays collect the interior trees visible from the top |
| Day08.ScanBottom | rust/src/bin/day08.rs:70 | the bottom rays add the interior trees visible from the bottom |
| Day08.ScanLeft | rust/src/bin/day08.rs:71 | the left rays add the interior trees visible from the left |
| Day08.ScanRight | rust/src/bin/day08.rs:72 | the right rays complete the set of interior trees visible from some edge |
| Day08.CollectedAll | rust/src/bin/day08.rs:66-93 | after all four sides the set is exactly the interior trees visible from outside |
| Day08.BorderCard | rust/src/bin/day08.rs:95 | the border of a grid at least two wide and high holds `2w + 2h - 4` trees |
| Day08.VisibleSplit | rust/src/bin/day08.rs:62-96 | the visible trees are the visible interior trees plus the border, for every grid size |
| Day08.Part1 | rust/src/bin/day08.rs:62-96 | the answer is the visible interior trees plus `w * 2 + h * 2 - 4`, as written; on grids at least two wide and high that is the number of trees visible from outside the grid |
| Day08.AsWrittenAgrees | rust/src/bin/day08.rs:95 | on grids at least two wide and high, the formula as written counts the visible trees |
| Day08.AsWrittenOvercounts | rust/src/bin/day08.rs:95 | on a single row or a single column of three or more trees, the formula as written counts more trees than the grid holds |
| Day08.AsWrittenSingleTree | rust/src/bin/day08.rs:95 | on a grid of one tree, the formula as written counts no tree though that tree is visible |
| Day08.DigitRowRoundTrip | rust/src/bin/day08.rs:122-133 | a line of digits read as heights and written back is the same line, with every height at most 9 |
| Day08.HeightRowRoundTrip | rust/src/bin/day08.rs:122-133 | heights of at most 9 written as digits read back as the same heights |
| Day08.ReadInput | rust/src/bin/day08.rs:122-133 | there is one row per line and each row holds that line's heights; the map is well formed exactly when there is a first line, it is not empty, and no line is shorter than it |
| Day09.Step | rust/src/bin/day09.rs:35-42 | a step moves the knot to one of its four neighbours: up and down change only `y`, right and left only `x` |
| Day09.StepBack | rust/src/bin/day09.rs:35-42 | a step followed by the opposite step returns to the start |
| Day09.Follow | rust/src/bin/day09.rs:61-77 | a touching tail stays put, otherwise it moves one unit towards the head on each axis where they differ; it moves at most one cell, and ends touching a head that was at most two away |
| Day09.KnotMovesLittle | rust/src/bin/day09.rs:56-79 | in one move of the head every knot ends within one cell of where it was |
| Day09.HeadMoved | rust/src/bin/day09.rs:56-79 | `move_head` steps the first knot and then updates each later knot, in order, from the already moved knot before it |
| Day09.NearAfterMove | rust/src/bin/day09.rs:56-79 | a knot that touched the next one and moved one cell is at most two cells away from it |
| Day09.HeadMovedKeepsTaut | rust/src/bin/day09.rs:56-79 | if all adjacent knots touch before a move of the head, they all touch after it |
| Day09.Rope.constructor | rust/src/bin/day09.rs:51-54 | a new rope has the requested number of knots, all at the start position |
| Day09.Rope.MoveHead | rust/src/bin/day09.rs:56-79 | the in-place loop leaves the knots the head move defines |
| Day09.Rope.Tail | rust/src/bin/day09.rs:81-83 | the tail is the last knot |
| Day09.RunStep | rust/src/bin/day09.rs:93-98 | one more step moves the rope by that step and adds the new tail position to the visited set |
| Day09.StartVisited | rust/src/bin/day09.rs:90-91 | the tail's start position always counts as visited |
| Day09.RunKeepsTaut | rust/src/bin/day09.rs:93-98 | a rope whose adjacent knots touch keeps them touching through any sequence of steps |
| Day09.StartTaut | rust/src/bin/day09.rs:51-54 | a new rope's adjacent knots touch |
| Day09.Solve | rust/src/bin/day09.rs:86-101 | the answer is the number of distinct tail positions over the expanded moves, and is at least one |
| Day09.Perform | rust/src/bin/day09.rs:94-97 | repeating one move `num` times leaves the rope and visited set of the steps taken so far plus `num` copies of the direction |
| Day09.PerformStep | rust/src/bin/day09.rs:94-97 | one turn of the inner loop keeps the rope and the visited set equal to those of the steps taken |
| Day09.TailsStep | rust/src/bin/day09.rs:95-96 | moving the head and inserting the tail gives the rope and visited set of the steps plus one |
| Day09.Part1 | rust/src/bin/day09.rs:103-105 | part 1 counts the tail positions of a rope of two knots |
| Day09.Part2 | rust/src/bin/day09.rs:107-109 | part 2 counts the tail positions of a rope of ten knots |
| Day09.ParseDirection | rust/src/bin/day09.rs:120-131 | a direction fails to parse exactly when it is not one of `U`, `D`, `L`, `R` |
| Day09.ParseMove | rust/src/bin/day09.rs:133-143 | a parsed move had a direction and a count word, and its count fits in `usize` |
| Day09.MoveRoundTrip | rust/src/bin/day09.rs:133-143 | every move written as letter and count parses back to itself |
| Day09.ParseMoves | rust/src/bin/day09.rs:145-150 | the input parses exactly when every line parses, giving one move per line in order |
| Day10.CyclesCount | rust/src/bin/day10.rs:33-43 | a program takes one cycle per `noop` and two per `addx` |
| Day10.CyclesMonotone | rust/src/bin/day10.rs:87-94 | the cycle counter never decreases as the program runs |
| Day10.Cpu.constructor | rust/src/bin/day10.rs:26-31 | the register starts at 1 and the cycle count at 0 |
| Day10.Cpu.Execute | rust/src/bin/day10.rs:33-43 | `addx` adds its value to the register and takes two cycles; `noop` keeps the register and takes one |
| Day10.CapturedMeaning | rust/src/bin/day10.rs:84-94 | the k-th capture happens exactly when the program reaches that capture point, and it records the register during that cycle |
| Day10.StrengthIsSignalSum | rust/src/bin/day10.rs:96-100 | zipping the captured values with the capture points and summing the products gives the sum of cycle times register over the points reached |
| Day10.Part1 | rust/src/bin/day10.rs:81-101 | the answer is the sum of the signal strengths at cycles 20, 60, 100, 140, 180 and 220, counting only those the program reaches |
| Day10.Crt.constructor | rust/src/bin/day10.rs:53-58 | the screen is 40 by 6, all dark, with nothing drawn yet |
| Day10.Crt.Draw | rust/src/bin/day10.rs:60-69 | drawing lights each pixel from the last drawn cycle up to the new one exactly when its column is within one of the sprite position, and leaves the other pixels alone |
| Day10.Part2 | rust/src/bin/day10.rs:103-111 | each pixel of the screen is lit exactly when its cycle is reached and the register during that cycle is within one of its column |
| Day10.ParseInstruction | rust/src/bin/day10.rs:126-138 | an `addx` value fits in `i32`, and `noop` is accepted only alone on its line |
| Day10.InstructionRoundTrip | rust/src/bin/day10.rs:126-138 | every instruction written out parses back to itself |
| Day10.ParseProgram | rust/src/bin/day10.rs:140-145 | the input parses exactly when every line parses, giving one instruction per line in order |
| Day11.Gcd | rust/src/bin/day11.rs:92-103 | the loop returns the greatest common divisor, with `gcd(a, 0) == a`, `gcd(0, b) == b` and `gcd(a, a) == a` as its early exits give |
| Day11.Lcm | rust/src/bin/day11.rs:88-90 | `(a * b) / gcd(a, b)` is a positive common multiple of `a` and `b` |
| Day11.LcmDivisible | rust/src/bin/day11.rs:88-90 | dividing `a * b` by any positive common divisor gives a positive multiple of both |
| Day11.ModOfMod | rust/src/bin/day11.rs:83-85 | reducing modulo a multiple of a divisor leaves the remainder by that divisor unchanged |
| Day11.ReliefMeaning | rust/src/bin/day11.rs:74-85 | dividing by three rounds down; reducing modulo `l` gives a smaller value that differs by a multiple of `l` |
| Day11.ThrowsOf | rust/src/bin/day11.rs:41-61 | each item in the queue, in order, becomes one throw: inspected, relieved, checked against the divisor and aimed at `true_to` or `false_to` |
| Day11.Deliver | rust/src/bin/day11.rs:63-65 | delivering throws changes nothing about the monkeys except their queues |
| Day11.DeliverAppends | rust/src/bin/day11.rs:63-65 | each monkey's queue gains exactly the worries thrown to it, in throw order, at its back |
| Day11.DeliverTotal | rust/src/bin/day11.rs:63-65 | delivering adds one item to the troop per throw |
| Day11.Turn | rust/src/bin/day11.rs:37-66 | a turn changes only queues and counts, and every target stays a monkey of the troop |
| Day11.TurnMeaning | rust/src/bin/day11.rs:37-66 | after monkey `m`'s turn its own queue holds only what it threw to itself, every other queue has gained what it was thrown, and only `m`'s count grows, by the length of its queue |
| Day11.TurnEmptiesQueue | rust/src/bin/day11.rs:41-61 | a monkey that does not throw to itself ends its turn with an empty queue |
| Day11.TurnConserves | rust/src/bin/day11.rs:37-66 | a turn keeps the number of items in the troop |
| Day11.InspectAll | rust/src/bin/day11.rs:39-61 | popping the whole queue empties it, counts each item, and buffers its throws in order |
| Day11.DeliverAll | rust/src/bin/day11.rs:63-65 | pushing the buffered throws performs the delivery |
| Day11.TakeTurn | rust/src/bin/day11.rs:37-66 | one pass of the loop over monkeys performs that monkey's turn |
| Day11.Solve | rust/src/bin/day11.rs:29-71 | the answer is the monkey business of the inspection counts after the given number of rounds |
| Day11.Part1 | rust/src/bin/day11.rs:73-75 | twenty rounds, dividing worry by three |
| Day11.Part2 | rust/src/bin/day11.rs:77-86 | ten thousand rounds, reducing worry modulo a positive multiple of every monkey's divisor |
| Day11.ModuloKeepsRouting | rust/src/bin/day11.rs:52-58 | reducing the worry of one inspection modulo a common multiple of the divisors leaves that inspection's test, and so its receiver, unchanged |
| Day11.ModMulLeft | rust/src/bin/day11.rs:44-48 | a product's remainder modulo `l` depends only on the remainder of its first factor |
| Day11.InspectCongruent | rust/src/bin/day11.rs:44-48 | every operation (add, multiply, square) maps worries congruent modulo `l` to worries congruent modulo `l` |
| Day11.ReducedWorryTracksUnreduced | rust/src/bin/day11.rs:52-58 | when the carried worry is congruent modulo a common multiple to the unreduced worry, one inspection throws to the monkey the unreduced worry would reach, and the new worries stay congruent |
| Day11.MonkeyBusinessTopTwo | rust/src/bin/day11.rs:69-70 | sorting, reversing and taking two gives the product of the two largest counts |
| Day11.ProductOfLargestTwo | rust/src/bin/day11.rs:70 | the product of the last two of a sorted sequence is taken |
| Day12.AdjacentMeaning | rust/src/bin/day12.rs:49-54 | `adjacent` lists exactly the four distinct positions at distance one |
| Day12.ReachStep | rust/src/bin/day12.rs:73-89 | a climbable step from a position reachable in `n` steps reaches its neighbour in `n + 1` |
| Day12.ReachMonotone | rust/src/bin/day12.rs:57-97 | a position reachable within `a` steps is reachable within any larger bound |
| Day12.DistLeast | rust/src/bin/day12.rs:57-97 | the distance is at most the length of any climb that reaches the position |
| Day12.DistUnique | rust/src/bin/day12.rs:57-97 | a position has at most one distance |
| Day12.DistZero | rust/src/bin/day12.rs:61-62 | distance zero means the start itself |
| Day12.CellsMeaning | rust/src/bin/day12.rs:21-23 | the cells of the map are exactly the positions `is_inside` accepts |
| Day12.ClosedCovers | rust/src/bin/day12.rs:73-89 | once a position has been expanded, every neighbour climbable from it is visited |
| Day12.Complete | rust/src/bin/day12.rs:65-90 | when every visited position closer than `d` has been expanded, every position reachable within `d` steps is visited |
| Day12.Predecessor | rust/src/bin/day12.rs:73-89 | a position first reached in `j` steps has a neighbour reached in `j - 1` from which it is climbable |
| Day12.Expand | rust/src/bin/day12.rs:71-89 | expanding a dequeued position keeps every visited position at its true distance and the queue ordered by steps, closes that position, and shrinks the measure of work left |
| Day12.Visit | rust/src/bin/day12.rs:74-88 | a neighbour is skipped when outside, already visited at no more than `steps + 1`, or too high, and is otherwise queued and recorded at `steps + 1` |
| Day12.PushKeepsFrontier | rust/src/bin/day12.rs:87-88 | queueing and recording a neighbour at its distance keeps the search's invariants |
| Day12.ExploredPush | rust/src/bin/day12.rs:88 | recording a position at its distance keeps every visited entry a true distance |
| Day12.QueueOkPush | rust/src/bin/day12.rs:87-88 | pushing `steps + 1` on the back keeps the queue sorted by steps, within one of the front, and matching the visited map |
| Day12.PushShrinks | rust/src/bin/day12.rs:88 | recording a new cell of the map leaves one cell fewer unvisited |
| Day12.NewlyReached | rust/src/bin/day12.rs:77-85 | a climbable neighbour that passes the visited check is new and its distance is `steps + 1` |
| Day12.QueueOkAtHead | rust/src/bin/day12.rs:65 | the front of the queue holds the fewest steps |
| Day12.QueueOkTail | rust/src/bin/day12.rs:65 | popping the front keeps the queue's order and its link to the visited map |
| Day12.SearchingInitially | rust/src/bin/day12.rs:58-62 | the queue and map holding only the start satisfy the search's invariant |
| Day12.DequeueToExpand | rust/src/bin/day12.rs:65-71 | popping a position that is not the signal leaves the invariant needed to expand it |
| Day12.ExpandedSearching | rust/src/bin/day12.rs:65-90 | after an expansion the search's invariant holds again |
| Day12.Exhausted | rust/src/bin/day12.rs:65-90 | when the queue runs dry, every reachable position has been visited |
| Day12.LeastStepsToSignal | rust/src/bin/day12.rs:57-97 | a result is the positive fewest number of climbing steps from the start to the signal; none means the signal is the start or cannot be reached |
| Day12.Part1 | rust/src/bin/day12.rs:99-101 | the answer is the fewest steps from `S` to `E`, or 0 when `E` is `S` or unreachable |
| Day12.Part2 | rust/src/bin/day12.rs:103-122 | the answer is the distance to `E` from some cell of height `a`, and no cell of height `a` reaches `E` in fewer steps |
| Day12.StartingPoints | rust/src/bin/day12.rs:104-111 | the starting points are exactly the cells of height `a` |
| Day12.CellHeight | rust/src/bin/day12.rs:140-148 | `S` reads as height `a`, `E` as height `z`, and a letter as itself, always within a byte |
| Day12.ReadHeightmap | rust/src/bin/day12.rs:133-161 | the map has one row per line and one height per character, and `S` and `E` are the last of their kind read |
| Day12.ReadRow | rust/src/bin/day12.rs:137-151 | one line becomes one row of heights, and the last `S` and `E` seen so far are carried to its end |
| Day12.SeenStep | rust/src/bin/day12.rs:141-147 | reading a character updates the last `S` or `E` seen exactly when it is that letter |
| Day12.SeenNextLine | rust/src/bin/day12.rs:137 | the last marks seen at the end of a line are those at the start of the next |
| Day13.Append | rust/src/bin/day13.rs:28-33 | appending to a list adds the value at its end; appending to an integer fails |
| Day13.WrapInteger | rust/src/bin/day13.rs:68-69 | an integer met by a list compares as the one-element list holding it, on either side |
| Day13.CheckOrderSelf | rust/src/bin/day13.rs:61-87 | every packet compares to itself as `Continue` |
| Day13.CheckOrderFlip | rust/src/bin/day13.rs:61-87 | swapping the arguments swaps `CorrectOrder` and `IncorrectOrder` and keeps `Continue` |
| Day13.ListCompare | rust/src/bin/day13.rs:70-85 | two lists compare as their first deciding element, or by length when one is a prefix of the other in order |
| Day13.CheckListFrom | rust/src/bin/day13.rs:71-83 | the index loop, from any point before the first deciding index, gives the lexicographic result |
| Day13.FirstDifference | rust/src/bin/day13.rs:71-83 | past an equal prefix there is always an index that decides the comparison |
| Day13.ContinueWithoutEquality | rust/src/bin/day13.rs:68 | `Continue` does not mean equal: `1` and `[1]` compare as `Continue` |
| Day13.CheckOrderTrans | rust/src/bin/day13.rs:61-87 | the comparison is transitive: `CorrectOrder` (and `Continue`) chain through a middle packet |
| Day13.CheckListTrans | rust/src/bin/day13.rs:70-85 | the element-by-element comparison chains through a middle list |
| Day13.ListOf | rust/src/bin/day13.rs:61-87 | every comparison is the list comparison of the two packets' items, integers being wrapped |
| Day13.Print | rust/src/bin/day13.rs:36-52 | a list prints in brackets and an integer as its digits |
| Day13.DigitRun | rust/src/bin/day13.rs:167-170 | the digit run is the longest prefix of digits |
| Day13.Step | rust/src/bin/day13.rs:150-177 | each pass of the parser's loop consumes at least one and at most all remaining characters |
| Day13.Parse | rust/src/bin/day13.rs:143-184 | the stack-based loop gives the parse the recursive definition gives, including its errors |
| Day13.StepAt | rust/src/bin/day13.rs:150-177 | one pass of the loop at an index does what the step definition does on the rest of the text |
| Day13.DigitRunOf | rust/src/bin/day13.rs:167-170 | a run of digits followed by a non-digit is read whole |
| Day13.RunOpen | rust/src/bin/day13.rs:151-154 | `[` pushes an empty list |
| Day13.RunComma | rust/src/bin/day13.rs:163-165 | `,` is skipped |
| Day13.RunClose | rust/src/bin/day13.rs:155-162 | `]` pops the finished list and appends it to its parent |
| Day13.RunCloseRoot | rust/src/bin/day13.rs:155-162 | `]` on the outermost list leaves the stack alone |
| Day13.StepInteger | rust/src/bin/day13.rs:166-176 | a number of at most 255 is appended to the open list and its digits consumed |
| Day13.RunInteger | rust/src/bin/day13.rs:166-176 | reading a number appends it to the open list |
| Day13.RunPrint | rust/src/bin/day13.rs:36-52 | reading a printed packet appends that packet to the open list |
| Day13.RunItems | rust/src/bin/day13.rs:40-48 | reading printed items separated by commas appends them all, in order |
| Day13.RunFirstItem | rust/src/bin/day13.rs:42-46 | reading a comma-separated item list takes its first item and continues after the comma |
| Day13.ParsePrint | rust/src/bin/day13.rs:36-52 | a list packet with integers of at most 255, printed and parsed, gives itself back |
| Day13.Part1 | rust/src/bin/day13.rs:89-103 | the answer is the sum of the 1-based indices of the pairs in correct order |
| Day13.InOrderSumNext | rust/src/bin/day13.rs:92-100 | each pair adds its 1-based index exactly when it is in correct order |
| Day13.Swapped | rust/src/bin/day13.rs:16-19 | swapping every pair keeps their positions and exchanges left and right |
| Day13.InOrderSumSwapped | rust/src/bin/day13.rs:89-103 | a pair is in order exactly when its swap is not, so the two sums add up to `n(n+1)/2` |
| Day13.DividerParses | rust/src/bin/day13.rs:111-112 | `[[2]]` and `[[6]]` parse as the two divider packets |
| Day13.Packets | rust/src/bin/day13.rs:106-110 | every pair contributes two packets |
| Day13.LessTrans | rust/src/bin/day13.rs:116-120 | the order the sort uses is transitive |
| Day13.Part2 | rust/src/bin/day13.rs:105-132 | the key is the product of the 1-based sorted positions of the two dividers, each one more than the number of packets ordered before it |
| Day13.DividersInOrder | rust/src/bin/day13.rs:111-112 | `[[2]]` comes before `[[6]]` |
| Day13.BelowMonotone | rust/src/bin/day13.rs:116-130 | a packet ordered before another has fewer packets before it |
| Day13.DividerPositions | rust/src/bin/day13.rs:122-130 | the `[[2]]` divider is placed before the `[[6]]` divider |
| Day13.Locate | rust/src/bin/day13.rs:124-130 | in the sorted packets a packet is found at one more than the number of packets ordered before it |
| Day13.CollectPackets | rust/src/bin/day13.rs:106-110 | the loop collects every left and right packet, pair by pair |
| Day13.ParseDividers | rust/src/bin/day13.rs:111-112 | the two divider packets parse without error |
| Day13.Found | rust/src/bin/day13.rs:124-130 | finding a packet in the sorted vector gives its rank |
| Day13.Position | rust/src/bin/day13.rs:125-129 | the search returns the 1-based position of the first equal packet, or none when there is none |
| Day13.AscendingBelow | rust/src/bin/day13.rs:116-120 | in a strictly ascending sequence, the packet at index `k` has exactly `k` packets before it |
| Day13.BelowPerm | rust/src/bin/day13.rs:116-120 | sorting does not change how many packets are ordered before a given one |
| Day13.SortPackets | rust/src/bin/day13.rs:116-120 | the sort leaves the packets strictly ascending and a permutation of the input |
| Day13.InsertAt | rust/src/bin/day13.rs:116-120 | inserting the next packet extends the ascending prefix and keeps the contents |
| Day14.Pos.Translate | rust/src/bin/day14.rs:26-29 | translating moves a position by exactly `dx` and `dy` |
| Day14.SegmentIsBox | rust/src/bin/day14.rs:47-69 | a horizontal or vertical segment covers exactly the cells between its two ends, whichever end comes first |
| Day14.PathCoversCorners | rust/src/bin/day14.rs:44-76 | every point of a path of two or more points is rock |
| Day14.ScanCellsUnion | rust/src/bin/day14.rs:44-76 | a cell is rock exactly when some path of the scan covers it |
| Day14.Rasterize | rust/src/bin/day14.rs:42-76 | the loops over paths insert exactly the cells of every path |
| Day14.DrawPath | rust/src/bin/day14.rs:45-75 | one path adds the cells of its consecutive segments to the rocks |
| Day14.DrawSegment | rust/src/bin/day14.rs:47-73 | one segment adds every cell between its ends, in either direction |
| Day14.MaxY | rust/src/bin/day14.rs:78 | the result is the largest `y` of any rock |
| Day14.Cave.FromScan | rust/src/bin/day14.rs:41-86 | a new cave holds the scanned rocks and their deepest `y`, no sand and no floor |
| Day14.Cave.WithFloor | rust/src/bin/day14.rs:88-91 | the floor lies two below the deepest rock, and nothing else changes |
| Day14.Cave.PourSand | rust/src/bin/day14.rs:98-131 | a grain comes to rest exactly when the source is free and its fall ends at rest, and then its resting cell is added to the sand |
| Day14.LostOnlyWithoutFloor | rust/src/bin/day14.rs:107-108 | a grain falls into the abyss only when there is no floor |
| Day14.RestIsStable | rust/src/bin/day14.rs:105-124 | a resting grain is below its start, within the cone the falls allow, on a free cell, with the cells below, below-left and below-right all blocked |
| Day14.FloorCatches | rust/src/bin/day14.rs:103-108 | with a floor, every grain comes to rest above it |
| Day14.NewGrainInCone | rust/src/bin/day14.rs:98-131 | a grain poured from a free source rests on a new cell inside the cone below the source |
| Day14.Terrain.Poured | rust/src/bin/day14.rs:98-131 | pouring onto some sand until a grain is refused or lost adds each accepted grain where its fall ends; the result keeps the old sand, stays within the cone, and the next grain would be refused or lost |
| Day14.PourAll | rust/src/bin/day14.rs:137-149 | the pouring loop leaves exactly the sand `Terrain.Poured` gives from the sand it started with, and returns its size |
| Day14.Solve | rust/src/bin/day14.rs:134-152 | the first answer is the size of the pouring from an empty cave without floor, the second the size of the pouring with the floor two below the deepest rock, continued from the first one's sand; the second is at least the first and at least one |
| Day14.ParsePos | rust/src/bin/day14.rs:164-172 | a parsed position has coordinates within `i32` |
| Day14.ParsePath | rust/src/bin/day14.rs:174-184 | a parsed path has one point per part separated by ` -> ` |
| Day14.ParsedAll | rust/src/bin/day14.rs:178-181 | parsing all parts gives one point per part |
| Day14.PosRoundTrip | rust/src/bin/day14.rs:164-172 | a position written as `x,y` parses back to itself |
| Day14.PathRoundTrip | rust/src/bin/day14.rs:174-184 | a path written with ` -> ` between its points parses back to itself |
| Day14.ParsePointsRendered | rust/src/bin/day14.rs:178-181 | the written points parse back, one by one, to the points |
| Day14.ParsePointsCons | rust/src/bin/day14.rs:178-181 | parsing stops at the first failing part, and otherwise collects the points in order |
| Sorting.Insert | rust/src/bin/day01.rs:24 | inserting into a sorted sequence keeps it sorted and adds exactly the one element |
| Sorting.Sort | rust/src/bin/day01.rs:24 | the result of `sort` is ascending and a permutation of the input |
| Sorting.SortedUnique | rust/src/bin/day01.rs:24 | two ascending arrangements of the same elements are equal, so any correct sort gives the same result |
| Sorting.SortIsUnique | rust/src/bin/day11.rs:69 | every ascending permutation of the input is the sorted input |
| Sorting.SumAppend | rust/src/bin/day01.rs:25 | a sum over two concatenated parts is the sum of the parts |
| Sorting.TakeLargest | rust/src/bin/day01.rs:25 | `rev().take(k)` gives the last `k` elements, last first, or all of them when there are fewer |
| Sorting.Max | rust/src/bin/day01.rs:25 | the maximum is an element and no element exceeds it |
| Sorting.LastIsMax | rust/src/bin/day01.rs:24-25 | the last element of the sorted input is the input's maximum |
| Sorting.TopThreeIsLargest | rust/src/bin/day01.rs:25 | no three distinct positions of a sorted sequence add up to more than its last three |
| Sorting.LargestThree | rust/src/bin/day01.rs:25 | the sum taken is that of the last three elements |
| Sorting.SortedTopTwo | rust/src/bin/day11.rs:69-70 | after sorting, the last element is a largest count and the one before it a largest of the rest |
| Sorting.LastIsLargest | rust/src/bin/day11.rs:69-70 | the last element of a sorted sequence is a largest element |
| Text.DecimalValue | rust/src/bin/day01.rs:41 | the decimal text of a number denotes that number |
| Text.ParseUnsigned | rust/src/bin/day01.rs:41 | an unsigned parse accepts only non-empty text, with a value no larger than the type's maximum |
| Text.ParseDecimal | rust/src/bin/day01.rs:41 | the decimal text of any value within the type parses back to it |
| Text.ParseSigned | rust/src/bin/day10.rs:133 | a signed parse gives a value within the type's range |
| Text.ParseSignedDecimal | rust/src/bin/day10.rs:133 | the decimal text of any value within the type, with its sign, parses back to it |
| Text.Find | rust/src/bin/day14.rs:177 | the search finds the first occurrence of the separator, and none only when there is none |
| Text.SplitOn | rust/src/bin/day14.rs:177 | splitting on a separator always gives at least one piece |
| Text.Split | rust/src/bin/day04.rs:67 | splitting on a character always gives at least one piece |
| Text.JoinSplit | rust/src/bin/day14.rs:177 | joining the pieces with the separator gives back the text |
| Text.SplitPiecesFree | rust/src/bin/day14.rs:177 | no piece contains the separator |
| Text.SplitJoin | rust/src/bin/day14.rs:177 | pieces free of the separator's first character, joined with it, split back into the same pieces |
| Text.WordLength | rust/src/bin/day07.rs:133 | the first word runs up to the first ASCII whitespace |
| Text.Words | rust/src/bin/day07.rs:133 | whitespace splitting gives non-empty words free of ASCII whitespace |
| Text.WordsOfSpaced | rust/src/bin/day07.rs:133 | words joined with single spaces split back into the same words |

## Left out

- Program entry and I/O: `main`, `input()`, reading the file named on the command line, the `BufReader` line loops, and `utils::measure`. Each parser takes the input's lines as a sequence of strings.
- The debug printing of the day 7 tree and the day 10 `Crt::print`. The screen's pixels are modelled; writing them out is not.
- Machine integers: all values are unbounded. Overflow is not modelled: the day 1 running total (`u32`), the day 7 sizes (`u32`), the day 11 worry levels (`u64`, including `(a * b)` in `lcm`), and the day 12 `u8` heights (`curr_height + 1`).
- Integer parsing is bounded. `parse::<u8>()`, `parse::<u32>()`, `parse::<i32>()` and `parse::<usize>()` reject out-of-range text exactly as the source does. `usize` is taken to be 64 bits.
- Panics that only malformed input reaches become preconditions: an `unwrap` on a missing piece, an index out of range, and `unreachable!()`. This applies to day 5's stack number 0 (the `- 1` underflows), day 12's missing `S` or `E` and its `part2` when no low point reaches the signal, day 13 `part1` on a pair that compares as `Continue` and `part2` on packets the sort cannot order, and day 14 `from_scan` on a diagonal rock segment or an empty scan.
- Inputs are taken to be ASCII: strings are sequences of characters, while the source slices and measures bytes. `Day03.Halves` splits at half the character count where `split_at(len / 2)` splits at half the byte count (rust/src/bin/day03.rs:24). `Day13.Step` and `Day13.StepAt` index and count characters where the parser takes one-byte slices `&s[idx..idx + 1]` and `s.len()` (rust/src/bin/day13.rs:149-150). On non-ASCII input the source may split differently or panic at a character boundary.
- Panics inside the day 13 packet parser become `Err` results. These are an append to an integer, a number with no open list, and text that leaves no value.
- `Vec::sort` and `sort_by` are library code. Days 1 and 11 use `Sorting.Sort`, an insertion sort on sequences. `Sorting.SortIsUnique` shows that every ascending permutation equals its result, so nothing depends on the library's algorithm. Day 13 sorts its packet array in place with an insertion sort (`Day13.SortPackets`), proved ascending and a permutation.
- `HashSet` and `HashMap` are modelled as mathematical sets and maps. No result depends on their iteration order.
- Day 11 `Monkey::read_input` (the monkey-description parser) is not part of this model. Monkeys are given as values.
- Day 11 item conservation is proved per turn (`Day11.TurnConserves`), not lifted to whole rounds.
- Day11.Part2: states that the modulus is a positive multiple of every divisor, not that it is the least one folded by `lcm`. Two lemmas cover one inspection with any such multiple. `Day11.ModuloKeepsRouting` shows that reducing the inspected worry leaves that inspection's test unchanged. `Day11.ReducedWorryTracksUnreduced` shows that a carried worry congruent to the unreduced one is thrown to the same monkey and stays congruent. Lifting this to whole rounds, against an unreduced simulation that the source does not have, is not part of this model.
- Day11.Lcm: states that the result is a positive common multiple of `a` and `b`, not that it is the least one.
- Day14.Solve: requires some rock at depth `y >= -1`. This excludes exactly the scans on which the source's floored loop never ends (rust/src/bin/day14.rs:143-147). When every rock lies at `y <= -2`, the floor `rocks_max_y + 2` is at `y <= 0` (rust/src/bin/day14.rs:88-91). Every floored grain then steps to `y = 1`, which is past the floor, and is stored there as at rest (rust/src/bin/day14.rs:105-108). So `(500, 0)` never fills and `pour_sand` never returns false. An example is the single path `500,-5 -> 501,-5`.
- Day 12 assumes rectangular rows. `is_inside` reads the width from the first row only, so ragged rows are outside the model.
- Day 8 `Map::at`, `width` and `height` are plain accessors and carry no contracts of their own.
- Day 8 grids with a later row shorter than the first are not modelled (`Map.Valid` excludes them): `part2` reads every cell of the first `width` columns and panics on such a row; `part1` alone would still finish when only the last row is shorter, and by exactly one tree, since it never reads that row's last corner. Rows longer than the first are modelled, and only their first `width` trees are read.
- The worked examples in the source's tests are proved for days 1, 2, 4, 5 and 6. For the other days they are not: those runs go through classes, arrays or search loops that the verifier cannot evaluate within its limits.
- Day 14: where the code differs from the puzzle text, the model follows the code. A path of a single point draws no rock. The floored run keeps the sand left by the open run. The sand source is checked against sand only, never against rock.
- Day 7: that the root's size equals the total of all files (every directory reachable from the root and counted once) is not proved; `Day07.ReplayKeepsFiles` proves that all files of the built tree together total the size lines.
- Day 7 `part2` underflows when the used space exceeds 70000000, or when the free space exceeds 30000000 (used space below 40000000). `Day07.Tree.Part2` requires that neither subtraction underflows.

## Findings

| source | as written | input that shows it | evidently intended | confidence | as-written member | corrected member |
|---|---|---|---|---|---|---|
| rust/src/bin/day08.rs:95 | part 1 adds `w * 2 + h * 2 - 4` for the border, which is more than the number of cells when the grid is a single row or column of three or more trees, and is 0 for a single tree | a grid of one row of three trees, such as `111`: the formula gives 4 visible trees out of 3; the column `1`, `1`, `1` likewise; the one-tree grid `5` gives 0 where 1 tree is visible | add the number of border cells, which is `w * h` when the grid is one row or one column wide | not executed | Day08.AsWrittenOvercounts, Day08.AsWrittenSingleTree | Day08.VisibleSplit |
