/**
 * Day 5, "Supply Stacks": a drawing of crate stacks and a procedure of
 * moves "move n from a to b". Part 1's crane moves crates one at a time,
 * part 2's moves the block at once; both report the top crate of every
 * stack. Stacks are strings running from bottom to top.
 */
module Day05 {
  import opened Wrappers
  import opened Text

  /** One move; `from` and `to` are already 0-based. */
  datatype Step = Step(num: nat, from: nat, to: nat)

  /** The crane of part 1 (one crate at a time) or of part 2 (the whole block). */
  datatype Crane = OneAtATime | Block

  function Reverse(s: string): (r: string)
    ensures |r| == |s|
    ensures forall i :: 0 <= i < |s| ==> r[i] == s[|s| - 1 - i]
  {
    if s == [] then [] else Reverse(s[1..]) + [s[0]]
  }

  lemma ReverseReverse(s: string)
    ensures Reverse(Reverse(s)) == s
  {
  }

  /**
   * What a step needs in order not to panic. A step of zero crates never
   * touches the stacks, so it needs nothing. Otherwise both stacks exist and
   * `pop` never meets an empty stack: part 1 pops and pushes alternately, so
   * a move onto the same stack needs just one crate; part 2 pops the whole
   * block first.
   */
  predicate StepOk(crane: Crane, stacks: seq<string>, st: Step) {
    st.num == 0 ||
    (st.from < |stacks| && st.to < |stacks| &&
     |stacks[st.from]| >= if crane == OneAtATime && st.from == st.to then 1 else st.num)
  }

  /**
   * The effect of a step: the top `num` crates leave `from` and land on `to`,
   * reversed by the part 1 crane and in their order by the part 2 crane. A
   * move of zero crates or onto the same stack changes nothing.
   */
  function Move(crane: Crane, stacks: seq<string>, st: Step): (r: seq<string>)
    requires StepOk(crane, stacks, st)
    ensures |r| == |stacks|
  {
    if st.num == 0 || st.from == st.to then stacks
    else
      var src := stacks[st.from];
      var moved := src[|src| - st.num..];
      stacks[st.from := src[..|src| - st.num]][st.to := stacks[st.to] + if crane == OneAtATime then Reverse(moved) else moved]
  }

  /** A step of zero crates is allowed whatever its stack numbers, and leaves the stacks as they are. */
  lemma ZeroStepLeavesStacks(crane: Crane, stacks: seq<string>, st: Step)
    requires st.num == 0
    ensures StepOk(crane, stacks, st) && Move(crane, stacks, st) == stacks
  {
  }

  function TotalCrates(stacks: seq<string>): nat {
    if stacks == [] then 0 else TotalCrates(stacks[..|stacks| - 1]) + |stacks[|stacks| - 1]|
  }

  lemma {:induction false} TotalCratesUpdate(stacks: seq<string>, i: nat, s: string)
    requires i < |stacks|
    ensures TotalCrates(stacks[i := s]) == TotalCrates(stacks) - |stacks[i]| + |s|
  {
    var n := |stacks|;
    if i < n - 1 {
      assert stacks[i := s][..n - 1] == stacks[..n - 1][i := s];
      TotalCratesUpdate(stacks[..n - 1], i, s);
    } else {
      assert stacks[i := s][..n - 1] == stacks[..n - 1];
    }
  }

  /**
   * A step shrinks the source stack by `num`, grows the target by `num`,
   * leaves every other stack alone and keeps the number of crates.
   */
  lemma MoveEffect(crane: Crane, stacks: seq<string>, st: Step)
    requires StepOk(crane, stacks, st) && st.from < |stacks| && st.to < |stacks| && st.from != st.to
    ensures var r := Move(crane, stacks, st);
            && |r[st.from]| == |stacks[st.from]| - st.num
            && |r[st.to]| == |stacks[st.to]| + st.num
            && (forall i :: 0 <= i < |stacks| && i != st.from && i != st.to ==> r[i] == stacks[i])
            && TotalCrates(r) == TotalCrates(stacks)
  {
    var src := stacks[st.from];
    var moved := src[|src| - st.num..];
    var s1 := stacks[st.from := src[..|src| - st.num]];
    var t := stacks[st.to] + if crane == OneAtATime then Reverse(moved) else moved;
    TotalCratesUpdate(stacks, st.from, src[..|src| - st.num]);
    TotalCratesUpdate(s1, st.to, t);
  }

  /** The two cranes leave the same stacks when a step moves at most one crate. */
  lemma CranesAgreeOnSingleCrates(stacks: seq<string>, st: Step)
    requires StepOk(Block, stacks, st) && st.num <= 1
    ensures StepOk(OneAtATime, stacks, st)
    ensures Move(OneAtATime, stacks, st) == Move(Block, stacks, st)
  {
    if st.num > 0 && st.from != st.to {
      var src := stacks[st.from];
      var moved := src[|src| - st.num..];
      assert Reverse(moved) == moved;
    }
  }

  /** The inner loop of `part1`: `num` times, pop a crate from `from` and push it on `to`. */
  method MoveOneAtATime(stacks: seq<string>, st: Step) returns (r: seq<string>)
    requires StepOk(OneAtATime, stacks, st)
    ensures r == Move(OneAtATime, stacks, st)
  {
    r := stacks;
    PendingStart(stacks, st);
    for j := 0 to st.num
      invariant r == Pending(stacks, st, j)
    {
      PendingStep(stacks, st, j);
      var top := r[st.from];
      var c := top[|top| - 1];
      r := r[st.from := top[..|top| - 1]];
      r := r[st.to := r[st.to] + [c]];
    }
  }

  /** The stacks once `j` crates of a part 1 step have been moved. */
  ghost function Pending(stacks: seq<string>, st: Step, j: nat): seq<string>
    requires StepOk(OneAtATime, stacks, st) && j <= st.num
  {
    if st.num == 0 || st.from == st.to then stacks
    else
      var src := stacks[st.from];
      var n := |src|;
      stacks[st.from := src[..n - j]][st.to := stacks[st.to] + Reverse(src[n - j..])]
  }

  lemma PendingStart(stacks: seq<string>, st: Step)
    requires StepOk(OneAtATime, stacks, st)
    ensures Pending(stacks, st, 0) == stacks
  {
    if st.num > 0 && st.from != st.to {
      var src := stacks[st.from];
      var n := |src|;
      assert src[..n] == src && src[n..] == [];
      assert stacks[st.to] + [] == stacks[st.to];
      assert stacks[st.from := src][st.to := stacks[st.to]] == stacks;
    }
  }

  /** Popping the top crate of `from` and pushing it on `to` moves one more crate of the step. */
  lemma PendingStep(stacks: seq<string>, st: Step, j: nat)
    requires StepOk(OneAtATime, stacks, st) && j < st.num
    ensures var r := Pending(stacks, st, j); var top := r[st.from];
      |top| > 0 &&
      var r' := r[st.from := top[..|top| - 1]];
      r'[st.to := r'[st.to] + [top[|top| - 1]]] == Pending(stacks, st, j + 1)
  {
    var r := Pending(stacks, st, j);
    var top := r[st.from];
    if st.from == st.to {
      assert top[..|top| - 1] + [top[|top| - 1]] == top;
    } else {
      var src := stacks[st.from];
      var n := |src|;
      var c := src[n - j - 1];
      assert top == src[..n - j] && top[|top| - 1] == c;
      assert src[n - j - 1..][1..] == src[n - j..];
      assert Reverse(src[n - (j + 1)..]) == Reverse(src[n - j..]) + [c];
      assert src[..n - j][..n - j - 1] == src[..n - (j + 1)];
      var r' := r[st.from := top[..|top| - 1]];
      var r2, goal := r'[st.to := r'[st.to] + [c]], Pending(stacks, st, j + 1);
      assert |r2| == |goal| && forall i :: 0 <= i < |r2| ==> r2[i] == goal[i];
    }
  }

  /** The inner loops of `part2`: pop `num` crates into `buf`, then push `buf` back in reverse. */
  method MoveBlock(stacks: seq<string>, st: Step) returns (r: seq<string>)
    requires StepOk(Block, stacks, st)
    ensures r == Move(Block, stacks, st)
  {
    var base, buf := PopInto(stacks, st.from, st.num);
    r := PushAll(base, st.to, buf);
    if st.num > 0 {
      BlockMoved(stacks, st, buf);
    }
  }

  /** Popping the block and pushing it back from the end of `buf` moves it with its order kept. */
  lemma BlockMoved(stacks: seq<string>, st: Step, buf: string)
    requires StepOk(Block, stacks, st) && st.from < |stacks| && st.to < |stacks|
    requires var src := stacks[st.from]; buf == Reverse(src[|src| - st.num..])
    ensures var src := stacks[st.from]; var base := stacks[st.from := src[..|src| - st.num]];
      base[st.to := base[st.to] + Reverse(buf)] == Move(Block, stacks, st)
  {
    var src := stacks[st.from];
    var n := |src|;
    var moved := src[n - st.num..];
    var base := stacks[st.from := src[..n - st.num]];
    ReverseReverse(moved);
    assert Reverse(buf) == moved;
    BlockPushed(stacks, st);
  }

  /** The block taken off the top of `from` and put on top of `to` is the effect of a part 2 step. */
  lemma BlockPushed(stacks: seq<string>, st: Step)
    requires StepOk(Block, stacks, st) && st.from < |stacks| && st.to < |stacks|
    ensures var src := stacks[st.from]; var base := stacks[st.from := src[..|src| - st.num]];
      base[st.to := base[st.to] + src[|src| - st.num..]] == Move(Block, stacks, st)
  {
    var src := stacks[st.from];
    var n := |src|;
    var moved := src[n - st.num..];
    var base := stacks[st.from := src[..n - st.num]];
    if st.from == st.to {
      assert Move(Block, stacks, st) == stacks;
      assert base[st.to] + moved == src;
      assert base[st.to := src] == stacks;
    } else if st.num == 0 {
      assert src[..n - st.num] == src && moved == [];
      assert base == stacks && stacks[st.to] + moved == stacks[st.to];
      assert base[st.to := stacks[st.to]] == stacks;
    } else {
      assert Move(Block, stacks, st) == base[st.to := stacks[st.to] + moved];
    }
  }

  /** The popping loop of `part2`: the top `num` crates leave `from` and gather in `buf`, topmost first. */
  method PopInto(stacks: seq<string>, from: nat, num: nat) returns (r: seq<string>, buf: string)
    requires num == 0 || (from < |stacks| && num <= |stacks[from]|)
    ensures num == 0 ==> r == stacks && buf == []
    ensures from < |stacks| ==> var src := stacks[from]; var n := |src|;
      r == stacks[from := src[..n - num]] && buf == Reverse(src[n - num..])
  {
    r := stacks;
    ghost var src := if from < |stacks| then stacks[from] else [];
    ghost var n := |src|;
    buf := [];
    assert src[..n] == src && src[n..] == [];
    for j := 0 to num
      invariant from < |stacks| ==> r == stacks[from := src[..n - j]] && buf == Reverse(src[n - j..])
      invariant from >= |stacks| ==> r == stacks && buf == []
    {
      var top := r[from];
      var c := top[|top| - 1];
      assert top == src[..n - j] && c == src[n - j - 1];
      assert src[n - j - 1..][1..] == src[n - j..];
      assert src[..n - j][..n - j - 1] == src[..n - (j + 1)];
      r := r[from := top[..|top| - 1]];
      buf := buf + [c];
    }
  }

  /** The pushing loop of `part2`: `buf` is pushed onto `to` from its end, restoring the block's order. */
  method PushAll(base: seq<string>, to: nat, buf: string) returns (r: seq<string>)
    requires buf == [] || to < |base|
    ensures buf == [] ==> r == base
    ensures to < |base| ==> r == base[to := base[to] + Reverse(buf)]
  {
    r := base;
    var k := |buf|;
    assert buf[k..] == [];
    if to < |base| {
      assert base[to] + [] == base[to];
      assert base[to := base[to]] == base;
    }
    while k > 0
      invariant 0 <= k <= |buf|
      invariant to < |base| ==> r == base[to := base[to] + Reverse(buf[k..])]
      invariant to >= |base| ==> r == base && k == 0
    {
      k := k - 1;
      assert buf[k..][1..] == buf[k + 1..];
      assert Reverse(buf[k..]) == Reverse(buf[k + 1..]) + [buf[k]];
      ghost var goal := base[to := base[to] + Reverse(buf[k..])];
      r := r[to := r[to] + [buf[k]]];
      assert forall i :: 0 <= i < |r| ==> r[i] == goal[i];
    }
    assert buf[0..] == buf;
  }

  /** The procedure applies without panicking. */
  predicate RunOk(crane: Crane, stacks: seq<string>, steps: seq<Step>)
    decreases |steps|, 0
  {
    steps == [] ||
    (RunOk(crane, stacks, steps[..|steps| - 1]) &&
     StepOk(crane, Run(crane, stacks, steps[..|steps| - 1]), steps[|steps| - 1]))
  }

  /** The stacks after the whole procedure. */
  function Run(crane: Crane, stacks: seq<string>, steps: seq<Step>): (r: seq<string>)
    requires RunOk(crane, stacks, steps)
    ensures |r| == |stacks|
    decreases |steps|, 1
  {
    if steps == [] then stacks
    else Move(crane, Run(crane, stacks, steps[..|steps| - 1]), steps[|steps| - 1])
  }

  /** A procedure never creates or loses a crate. */
  lemma {:induction false} RunConserves(crane: Crane, stacks: seq<string>, steps: seq<Step>)
    requires RunOk(crane, stacks, steps)
    ensures TotalCrates(Run(crane, stacks, steps)) == TotalCrates(stacks)
  {
    if steps != [] {
      var init, last := steps[..|steps| - 1], steps[|steps| - 1];
      RunConserves(crane, stacks, init);
      if last.num > 0 && last.from != last.to {
        MoveEffect(crane, Run(crane, stacks, init), last);
      }
    }
  }

  /** `top_letters`: the top crate of each non-empty stack, in stack order; empty stacks are skipped. */
  function TopLetters(stacks: seq<string>): (r: string)
    ensures |r| <= |stacks|
  {
    if stacks == [] then []
    else
      var last := stacks[|stacks| - 1];
      TopLetters(stacks[..|stacks| - 1]) + if last == [] then [] else [last[|last| - 1]]
  }

  /** When no stack is empty, the letters are the tops of all stacks, in order. */
  lemma {:induction false} TopLettersOfFullStacks(stacks: seq<string>)
    requires forall i :: 0 <= i < |stacks| ==> |stacks[i]| > 0
    ensures |TopLetters(stacks)| == |stacks|
    ensures forall i :: 0 <= i < |stacks| ==> TopLetters(stacks)[i] == stacks[i][|stacks[i]| - 1]
  {
    if stacks != [] {
      var n := |stacks|;
      var init, last := stacks[..n - 1], stacks[n - 1];
      assert forall i :: 0 <= i < |init| ==> init[i] == stacks[i];
      TopLettersOfFullStacks(init);
      var t := TopLetters(init);
      assert stacks == init + [last];
      TopLettersSnoc(init, last);
      forall i | 0 <= i < n ensures TopLetters(stacks)[i] == stacks[i][|stacks[i]| - 1] {
        if i < n - 1 {
          assert TopLetters(stacks)[i] == t[i];
        }
      }
    }
  }

  /** The non-empty stacks, in order. */
  function NonEmpty(stacks: seq<string>): (r: seq<string>)
    ensures forall i :: 0 <= i < |r| ==> |r[i]| > 0
  {
    if stacks == [] then []
    else NonEmpty(stacks[..|stacks| - 1]) + if stacks[|stacks| - 1] == [] then [] else [stacks[|stacks| - 1]]
  }

  /** Empty stacks contribute nothing: the letters are exactly the tops of the non-empty stacks. */
  lemma {:induction false} TopLettersSkipsEmpty(stacks: seq<string>)
    ensures TopLetters(stacks) == TopLetters(NonEmpty(stacks))
  {
    if stacks != [] {
      var init, last := stacks[..|stacks| - 1], stacks[|stacks| - 1];
      TopLettersSkipsEmpty(init);
      if last != [] {
        assert NonEmpty(stacks) == NonEmpty(init) + [last];
        TopLettersSnoc(NonEmpty(init), last);
      } else {
        assert NonEmpty(stacks) == NonEmpty(init) + [] == NonEmpty(init);
        assert TopLetters(stacks) == TopLetters(init) + [] == TopLetters(init);
      }
    }
  }

  lemma TopLettersSnoc(p: seq<string>, last: string)
    requires last != []
    ensures TopLetters(p + [last]) == TopLetters(p) + [last[|last| - 1]]
  {
    assert (p + [last])[..|p|] == p;
  }

  /** `part1` and `part2`: run the procedure with the given crane on a copy of the stacks, then read the tops. */
  method Solve(crane: Crane, stacks: seq<string>, procedure: seq<Step>) returns (tops: string)
    requires RunOk(crane, stacks, procedure)
    ensures tops == TopLetters(Run(crane, stacks, procedure))
  {
    var current := stacks;
    for i := 0 to |procedure|
      invariant RunOk(crane, stacks, procedure[..i])
      invariant current == Run(crane, stacks, procedure[..i])
    {
      RunOkPrefix(crane, stacks, procedure, i + 1);
      assert procedure[..i + 1][..i] == procedure[..i];
      if crane == OneAtATime {
        current := MoveOneAtATime(current, procedure[i]);
      } else {
        current := MoveBlock(current, procedure[i]);
      }
    }
    assert procedure[..|procedure|] == procedure;
    tops := TopLetters(current);
  }

  lemma {:induction false} RunOkPrefix(crane: Crane, stacks: seq<string>, steps: seq<Step>, k: nat)
    requires RunOk(crane, stacks, steps) && k <= |steps|
    ensures RunOk(crane, stacks, steps[..k])
    decreases |steps|
  {
    if k < |steps| {
      assert steps[..|steps| - 1][..k] == steps[..k];
      RunOkPrefix(crane, stacks, steps[..|steps| - 1], k);
    } else {
      assert steps[..k] == steps;
    }
  }

  // ---------------------------------------------------------------------
  // Parsing

  /**
   * `FromStr for Step`: "move n from a to b" read as the words at positions
   * 1, 3 and 5 (the others are not checked), the stack numbers made
   * 0-based. Subtracting 1 from a stack number 0 overflows and panics.
   */
  predicate StepParses(s: string) {
    var ws := Words(s);
    (|ws| >= 4 && ParseUnsigned(ws[1], USIZE_MAX).Some? && ParseUnsigned(ws[3], USIZE_MAX).Some? ==>
       ParseUnsigned(ws[3], USIZE_MAX).value >= 1) &&
    ((|ws| >= 6 && ParseUnsigned(ws[1], USIZE_MAX).Some? && ParseUnsigned(ws[3], USIZE_MAX).Some? &&
      ParseUnsigned(ws[5], USIZE_MAX).Some?) ==> ParseUnsigned(ws[5], USIZE_MAX).value >= 1)
  }

  function ParseStep(s: string): (r: Result<Step>)
    requires StepParses(s)
    ensures r.Ok? ==> |Words(s)| >= 6
  {
    var ws := Words(s);
    if |ws| < 2 then Err("No num")
    else match ParseUnsigned(ws[1], USIZE_MAX)
      case None => Err("invalid digit")
      case Some(num) =>
        if |ws| < 4 then Err("No from")
        else match ParseUnsigned(ws[3], USIZE_MAX)
          case None => Err("invalid digit")
          case Some(from) =>
            if |ws| < 6 then Err("No to")
            else match ParseUnsigned(ws[5], USIZE_MAX)
              case None => Err("invalid digit")
              case Some(to) => Ok(Step(num, from - 1, to - 1))
  }

  function RenderStep(st: Step): string {
    Join(["move", Decimal(st.num), "from", Decimal(st.from + 1), "to", Decimal(st.to + 1)], " ")
  }

  /** A step written in the puzzle's words parses back with its stack numbers made 0-based again. */
  lemma StepRoundTrip(st: Step)
    requires st.num <= USIZE_MAX && st.from + 1 <= USIZE_MAX && st.to + 1 <= USIZE_MAX
    ensures StepParses(RenderStep(st)) && ParseStep(RenderStep(st)) == Ok(st)
  {
    var ws := ["move", Decimal(st.num), "from", Decimal(st.from + 1), "to", Decimal(st.to + 1)];
    assert Words(RenderStep(st)) == ws by {
      DecimalIsWord(st.num);
      DecimalIsWord(st.from + 1);
      DecimalIsWord(st.to + 1);
      WordsOfSpaced(ws);
    }
    ParseStepOfWords(RenderStep(st), st);
  }

  lemma ParseStepOfWords(s: string, st: Step)
    requires st.num <= USIZE_MAX && st.from + 1 <= USIZE_MAX && st.to + 1 <= USIZE_MAX
    requires Words(s) == ["move", Decimal(st.num), "from", Decimal(st.from + 1), "to", Decimal(st.to + 1)]
    ensures StepParses(s) && ParseStep(s) == Ok(st)
  {
    var ws := Words(s);
    ParseDecimal(st.num, USIZE_MAX);
    ParseDecimal(st.from + 1, USIZE_MAX);
    ParseDecimal(st.to + 1, USIZE_MAX);
    assert ParseUnsigned(ws[1], USIZE_MAX) == Some(st.num);
    assert ParseUnsigned(ws[3], USIZE_MAX) == Some(st.from + 1);
    assert ParseUnsigned(ws[5], USIZE_MAX) == Some(st.to + 1);
    assert StepParses(s);
  }

  /** `parse_stack_pos`: a cell "[c]" holds crate `c`; any other cell is empty. */
  function StackPos(cell: string): (r: Option<char>)
    requires |cell| == 3
    ensures r.Some? <==> cell[0] == '['
    ensures r.Some? ==> r.value == cell[1]
  {
    if cell[0] == '[' then Some(cell[1]) else None
  }

  /** Slicing `curr[0..3]` panics unless every cell, at offsets 0, 4, 8, ..., is complete. */
  predicate RowParses(line: string)
    decreases |line|
  {
    line == [] || (|line| >= 3 && (|line| <= 4 || RowParses(line[4..])))
  }

  /** The cells of one drawing line, from the left. */
  function Row(line: string): (row: seq<Option<char>>)
    requires RowParses(line)
    ensures line != [] ==> |row| >= 1
    decreases |line|
  {
    if line == [] then []
    else if |line| <= 4 then [StackPos(line[..3])]
    else [StackPos(line[..3])] + Row(line[4..])
  }

  /** Column i of a line is the three characters at offset 4i. */
  lemma {:induction false} RowCells(line: string, i: nat)
    requires RowParses(line) && i < |Row(line)|
    ensures 4 * i + 3 <= |line| && Row(line)[i] == StackPos(line[4 * i..4 * i + 3])
    decreases |line|
  {
    if i > 0 {
      RowCells(line[4..], i - 1);
      assert line[4..][4 * (i - 1)..4 * (i - 1) + 3] == line[4 * i..4 * i + 3];
    }
  }

  /** The row loop of `read_input` for one line, `while !curr.is_empty()`. */
  method ReadRow(line: string) returns (row: seq<Option<char>>)
    requires RowParses(line)
    ensures row == Row(line)
  {
    row := [];
    var curr := line;
    while curr != []
      invariant RowParses(curr)
      invariant row + Row(curr) == Row(line)
      decreases |curr|
    {
      row := row + [StackPos(curr[..3])];
      if |curr| <= 4 {
        assert row == Row(line);
        return;
      }
      curr := curr[4..];
    }
    assert row + [] == row;
  }

  /** Column `i` of the drawing, top to bottom: the crates in the rows that have one there. */
  function Column(rows: seq<seq<Option<char>>>, i: nat): string {
    if rows == [] then []
    else
      var last := rows[|rows| - 1];
      Column(rows[..|rows| - 1], i) + if i < |last| && last[i].Some? then [last[i].value] else []
  }

  /** `stacks[i].push(c)` panics unless every crate sits in a column that the first row has. */
  predicate DrawingFits(rows: seq<seq<Option<char>>>) {
    (forall r :: 0 <= r < |rows| ==> |rows[r]| >= 1) &&
    forall r, i :: 0 <= r < |rows| && 0 <= i < |rows[r]| && rows[r][i].Some? ==> i < |rows[0]|
  }

  /**
   * The drawing part of `read_input`: one stack per column of the first row,
   * filled top to bottom, then every stack reversed so that it runs from
   * bottom to top.
   */
  method ReadStacks(rows: seq<seq<Option<char>>>) returns (stacks: seq<string>)
    requires DrawingFits(rows)
    ensures |stacks| == if rows == [] then 0 else |rows[0]|
    ensures forall i :: 0 <= i < |stacks| ==> stacks[i] == Reverse(Column(rows, i))
  {
    stacks := [];
    for r := 0 to |rows|
      invariant r >= 1 ==> |stacks| == |rows[0]|
      invariant r == 0 ==> stacks == []
      invariant forall i :: 0 <= i < |stacks| ==> stacks[i] == Column(rows[..r], i)
    {
      var row := rows[r];
      if stacks == [] {
        assert r == 0 && rows[..r] == [];
        stacks := seq(|row|, _ => []);
      }
      assert rows[..r + 1][..r] == rows[..r];
      ghost var before := stacks;
      for i := 0 to |row|
        invariant |stacks| == |before|
        invariant forall k :: 0 <= k < i && k < |stacks| ==> stacks[k] == Column(rows[..r + 1], k)
        invariant forall k :: i <= k < |stacks| ==> stacks[k] == before[k]
      {
        if row[i].Some? {
          stacks := stacks[i := stacks[i] + [row[i].value]];
        }
      }
      forall k | |row| <= k < |stacks| ensures stacks[k] == Column(rows[..r + 1], k) {
      }
    }
    assert rows[..|rows|] == rows;
    ghost var tops := stacks;
    for i := 0 to |stacks|
      invariant |stacks| == |tops|
      invariant forall k :: 0 <= k < i ==> stacks[k] == Reverse(tops[k])
      invariant forall k :: i <= k < |stacks| ==> stacks[k] == tops[k]
    {
      stacks := stacks[i := Reverse(stacks[i])];
    }
  }

  lemma ExampleReversals()
    ensures Reverse("D") == "D" && Reverse("M") == "M" && Reverse("MC") == "CM" && Reverse("ZND") == "DNZ"
  {
    assert Reverse("D") == "D" && Reverse("M") == "M";
    assert "MC"[1..] == "C" && Reverse("MC") == Reverse("C") + "M";
    assert "ND"[1..] == "D" && Reverse("ND") == Reverse("D") + "N";
    assert "ZND"[1..] == "ND" && Reverse("ZND") == Reverse("ND") + "Z";
  }

  /** Extending a run by its next step. */
  lemma RunStep(crane: Crane, stacks: seq<string>, steps: seq<Step>, k: nat, before: seq<string>, after: seq<string>)
    requires k < |steps|
    requires RunOk(crane, stacks, steps[..k]) && Run(crane, stacks, steps[..k]) == before
    requires StepOk(crane, before, steps[k]) && Move(crane, before, steps[k]) == after
    ensures RunOk(crane, stacks, steps[..k + 1]) && Run(crane, stacks, steps[..k + 1]) == after
  {
    assert steps[..k + 1][..k] == steps[..k];
  }

  /** A step computed from a split of the source stack into what stays and what moves. */
  lemma MoveBySplit(crane: Crane, stacks: seq<string>, st: Step, keep: string, moved: string)
    requires st.from < |stacks| && st.to < |stacks| && st.from != st.to
    requires stacks[st.from] == keep + moved && |moved| == st.num
    ensures StepOk(crane, stacks, st)
    ensures Move(crane, stacks, st) ==
              stacks[st.from := keep][st.to := stacks[st.to] + if crane == OneAtATime then Reverse(moved) else moved]
  {
    var src := stacks[st.from];
    assert src[..|src| - st.num] == keep && src[|src| - st.num..] == moved;
    if st.num == 0 {
      assert moved == [] && keep == src && stacks[st.to] + [] == stacks[st.to];
      assert stacks[st.from := keep][st.to := stacks[st.to]] == stacks;
    }
  }

  /** One step of the worked example, from three stacks to three stacks. */
  lemma ExampleStep(crane: Crane, before: seq<string>, st: Step, keep: string, moved: string, landed: string,
                    after: seq<string>)
    requires |before| == 3 && st.from < 3 && st.to < 3 && st.from != st.to
    requires before[st.from] == keep + moved && |moved| == st.num
    requires landed == before[st.to] + if crane == OneAtATime then Reverse(moved) else moved
    requires |after| == 3 && after[st.from] == keep && after[st.to] == landed
    requires forall i :: 0 <= i < 3 && i != st.from && i != st.to ==> after[i] == before[i]
    ensures StepOk(crane, before, st) && Move(crane, before, st) == after
  {
    MoveBySplit(crane, before, st, keep, moved);
    var r := Move(crane, before, st);
    assert |r| == 3 && forall i :: 0 <= i < 3 ==> r[i] == after[i];
  }

  // The four moves of the worked example; the stacks after the second move differ by crane.

  lemma ExampleMove0(crane: Crane, b: seq<string>, st: Step)
    requires b == ["ZN", "MCD", "P"] && st == Step(1, 1, 0)
    ensures StepOk(crane, b, st) && Move(crane, b, st) == ["ZND", "MC", "P"]
  {
    ExampleReversals();
    ExampleStep(crane, b, st, "MC", "D", "ZND", ["ZND", "MC", "P"]);
  }

  lemma ExampleMove1(crane: Crane, b: seq<string>, st: Step)
    requires b == ["ZND", "MC", "P"] && st == Step(3, 0, 2)
    ensures StepOk(crane, b, st)
    ensures Move(crane, b, st) == ["", "MC", if crane == OneAtATime then "PDNZ" else "PZND"]
  {
    ExampleReversals();
    var landed := if crane == OneAtATime then "PDNZ" else "PZND";
    ExampleStep(crane, b, st, "", "ZND", landed, ["", "MC", landed]);
  }

  lemma ExampleMove2(crane: Crane, b: seq<string>, st: Step)
    requires b == ["", "MC", if crane == OneAtATime then "PDNZ" else "PZND"] && st == Step(2, 1, 0)
    ensures StepOk(crane, b, st)
    ensures Move(crane, b, st) == [if crane == OneAtATime then "CM" else "MC", "", b[2]]
  {
    ExampleReversals();
    var landed := if crane == OneAtATime then "CM" else "MC";
    ExampleStep(crane, b, st, "", "MC", landed, [landed, "", b[2]]);
  }

  lemma ExampleMove3(crane: Crane, b: seq<string>, st: Step)
    requires b == [if crane == OneAtATime then "CM" else "MC", "", if crane == OneAtATime then "PDNZ" else "PZND"]
    requires st == Step(1, 0, 1)
    ensures StepOk(crane, b, st)
    ensures Move(crane, b, st) == [if crane == OneAtATime then "C" else "M", if crane == OneAtATime then "M" else "C", b[2]]
  {
    ExampleReversals();
    var keep := if crane == OneAtATime then "C" else "M";
    var moved := if crane == OneAtATime then "M" else "C";
    ExampleStep(crane, b, st, keep, moved, moved, [keep, moved, b[2]]);
  }

  /** Four steps in a row, each one possible in the stacks the previous one left. */
  lemma RunFour(crane: Crane, stacks: seq<string>, steps: seq<Step>, s1: seq<string>, s2: seq<string>,
                s3: seq<string>, s4: seq<string>)
    requires |steps| == 4
    requires StepOk(crane, stacks, steps[0]) && Move(crane, stacks, steps[0]) == s1
    requires StepOk(crane, s1, steps[1]) && Move(crane, s1, steps[1]) == s2
    requires StepOk(crane, s2, steps[2]) && Move(crane, s2, steps[2]) == s3
    requires StepOk(crane, s3, steps[3]) && Move(crane, s3, steps[3]) == s4
    ensures RunOk(crane, stacks, steps) && Run(crane, stacks, steps) == s4
  {
    assert steps[..0] == [];
    RunStep(crane, stacks, steps, 0, stacks, s1);
    RunStep(crane, stacks, steps, 1, s1, s2);
    RunStep(crane, stacks, steps, 2, s2, s3);
    RunStep(crane, stacks, steps, 3, s3, s4);
    assert steps[..4] == steps;
  }

  lemma TopLettersOfThree(s: seq<string>)
    requires |s| == 3 && |s[0]| > 0 && |s[1]| > 0 && |s[2]| > 0
    ensures TopLetters(s) == [s[0][|s[0]| - 1], s[1][|s[1]| - 1], s[2][|s[2]| - 1]]
  {
    assert s[..2][..1][..0] == [];
    assert TopLetters(s[..2][..1]) == [s[0][|s[0]| - 1]];
    assert TopLetters(s[..2]) == [s[0][|s[0]| - 1], s[1][|s[1]| - 1]];
  }

  /** The worked example with the part 1 crane: stacks ZN, MCD and P end with tops "CMZ". */
  lemma ExamplePart1(stacks: seq<string>, steps: seq<Step>)
    requires stacks == ["ZN", "MCD", "P"]
    requires steps == [Step(1, 1, 0), Step(3, 0, 2), Step(2, 1, 0), Step(1, 0, 1)]
    ensures RunOk(OneAtATime, stacks, steps) && TopLetters(Run(OneAtATime, stacks, steps)) == "CMZ"
  {
    var s1 := ["ZND", "MC", "P"];
    var s2 := ["", "MC", "PDNZ"];
    var s3 := ["CM", "", "PDNZ"];
    var s4 := ["C", "M", "PDNZ"];
    ExampleMove0(OneAtATime, stacks, steps[0]);
    ExampleMove1(OneAtATime, s1, steps[1]);
    ExampleMove2(OneAtATime, s2, steps[2]);
    ExampleMove3(OneAtATime, s3, steps[3]);
    RunFour(OneAtATime, stacks, steps, s1, s2, s3, s4);
    TopLettersOfThree(s4);
  }

  /** The worked example with the part 2 crane: the tops are "MCD". */
  lemma ExamplePart2(stacks: seq<string>, steps: seq<Step>)
    requires stacks == ["ZN", "MCD", "P"]
    requires steps == [Step(1, 1, 0), Step(3, 0, 2), Step(2, 1, 0), Step(1, 0, 1)]
    ensures RunOk(Block, stacks, steps) && TopLetters(Run(Block, stacks, steps)) == "MCD"
  {
    var s1 := ["ZND", "MC", "P"];
    var s2 := ["", "MC", "PZND"];
    var s3 := ["MC", "", "PZND"];
    var s4 := ["M", "C", "PZND"];
    ExampleMove0(Block, stacks, steps[0]);
    ExampleMove1(Block, s1, steps[1]);
    ExampleMove2(Block, s2, steps[2]);
    ExampleMove3(Block, s3, steps[3]);
    RunFour(Block, stacks, steps, s1, s2, s3, s4);
    TopLettersOfThree(s4);
  }
}
