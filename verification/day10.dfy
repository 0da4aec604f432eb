/**
 * Day 10, "Cathode-Ray Tube": a CPU with one register runs `addx` (two
 * cycles) and `noop` (one cycle). Part 1 sums the signal strengths at six
 * cycles; part 2 lights the pixels of a 40 by 6 screen where the three-pixel
 * sprite, centred on the register, covers the pixel being drawn.
 */
module Day10 {
  import opened Wrappers
  import opened Text

  datatype Instruction = Addx(value: int) | Noop

  /** The cycles, counted from 1, at which part 1 samples the signal. */
  const CAPTURE_POINTS: seq<nat> := [20, 60, 100, 140, 180, 220]

  /** The screen: six rows of forty pixels. */
  const WIDTH: nat := 40
  const HEIGHT: nat := 6

  function Duration(ins: Instruction): nat {
    match ins
    case Addx(_) => 2
    case Noop => 1
  }

  function Delta(ins: Instruction): int {
    match ins
    case Addx(v) => v
    case Noop => 0
  }

  /** The cycles a program takes. */
  function Cycles(prog: seq<Instruction>): nat {
    if prog == [] then 0 else Cycles(prog[..|prog| - 1]) + Duration(prog[|prog| - 1])
  }

  /** The register once a program has run; it starts at 1. */
  function RegisterAfter(prog: seq<Instruction>): int {
    if prog == [] then 1 else RegisterAfter(prog[..|prog| - 1]) + Delta(prog[|prog| - 1])
  }

  /**
   * The register during each cycle of a program: entry `i` is its value
   * during cycle `i + 1`, which an instruction only changes once it completes.
   */
  function Trace(prog: seq<Instruction>): (t: seq<int>)
    ensures |t| == Cycles(prog)
  {
    if prog == [] then []
    else
      var before := prog[..|prog| - 1];
      Trace(before) + seq(Duration(prog[|prog| - 1]), _ => RegisterAfter(before))
  }

  function CountAddx(prog: seq<Instruction>): nat {
    if prog == [] then 0 else CountAddx(prog[..|prog| - 1]) + if prog[|prog| - 1].Addx? then 1 else 0
  }

  function CountNoop(prog: seq<Instruction>): nat {
    if prog == [] then 0 else CountNoop(prog[..|prog| - 1]) + if prog[|prog| - 1].Noop? then 1 else 0
  }

  /** A program takes one cycle per `noop` and two per `addx`. */
  lemma {:induction false} CyclesCount(prog: seq<Instruction>)
    ensures Cycles(prog) == CountNoop(prog) + 2 * CountAddx(prog)
  {
    if prog != [] {
      CyclesCount(prog[..|prog| - 1]);
    }
  }

  /** Running more instructions never takes fewer cycles. */
  lemma {:induction false} CyclesMonotone(prog: seq<Instruction>, k: nat)
    requires k <= |prog|
    ensures Cycles(prog[..k]) <= Cycles(prog)
    decreases |prog|
  {
    if k < |prog| {
      assert prog[..|prog| - 1][..k] == prog[..k];
      CyclesMonotone(prog[..|prog| - 1], k);
    } else {
      assert prog[..k] == prog;
    }
  }

  class Cpu {
    var register: int
    var cycle: nat

    /** `Cpu::new`: register 1, no cycle run yet. */
    constructor ()
      ensures register == 1 && cycle == 0
    {
      register := 1;
      cycle := 0;
    }

    /** `execute`: `addx v` adds `v` and takes two cycles; `noop` takes one. */
    method Execute(ins: Instruction)
      modifies this
      ensures ins.Addx? ==> register == old(register) + ins.value && cycle == old(cycle) + 2
      ensures ins.Noop? ==> register == old(register) && cycle == old(cycle) + 1
    {
      match ins {
        case Addx(value) =>
          register := register + value;
          cycle := cycle + 2;
        case Noop =>
          cycle := cycle + 1;
      }
    }
  }

  // ---------------------------------------------------------------------------
  // Part 1
  // ---------------------------------------------------------------------------

  /**
   * The values `part1` captures after running `prog`: after each
   * instruction, if a capture point is still pending and the cycle count has
   * reached it, the register from before that instruction.
   */
  function Captured(prog: seq<Instruction>): (c: seq<int>)
    ensures |c| <= |CAPTURE_POINTS|
  {
    if prog == [] then []
    else
      var before := prog[..|prog| - 1];
      var c := Captured(before);
      if |c| < |CAPTURE_POINTS| && Cycles(prog) >= CAPTURE_POINTS[|c|] then c + [RegisterAfter(before)]
      else c
  }

  /**
   * The capture points are reached one at a time, so exactly those the
   * program's cycles reach are captured, and each captured value is the
   * register during that cycle.
   */
  lemma {:induction false} CapturedMeaning(prog: seq<Instruction>)
    ensures forall k :: 0 <= k < |CAPTURE_POINTS| ==>
      (k < |Captured(prog)| <==> CAPTURE_POINTS[k] <= Cycles(prog))
    ensures forall k :: 0 <= k < |Captured(prog)| ==>
      Captured(prog)[k] == Trace(prog)[CAPTURE_POINTS[k] - 1]
  {
    if prog != [] {
      var before := prog[..|prog| - 1];
      CapturedMeaning(before);
      var c := Captured(before);
      assert forall k :: 0 <= k < |CAPTURE_POINTS| ==> CAPTURE_POINTS[k] == 20 + 40 * k;
      assert forall i :: 0 <= i < Cycles(before) ==> Trace(prog)[i] == Trace(before)[i];
      if |c| < |CAPTURE_POINTS| && Cycles(prog) >= CAPTURE_POINTS[|c|] {
        assert Trace(prog)[CAPTURE_POINTS[|c|] - 1] == RegisterAfter(before);
      }
    }
  }

  /** `captured.zip(capture_points).map(|(a, b)| a * b).sum()`. */
  function Strength(c: seq<int>): int
    requires |c| <= |CAPTURE_POINTS|
  {
    if c == [] then 0 else Strength(c[..|c| - 1]) + c[|c| - 1] * CAPTURE_POINTS[|c| - 1]
  }

  /**
   * The sum of the signal strengths, cycle times register during that cycle,
   * at the first `k` capture points the program reaches.
   */
  function SignalSum(prog: seq<Instruction>, k: nat): int
    requires k <= |CAPTURE_POINTS|
  {
    if k == 0 then 0
    else
      var p := CAPTURE_POINTS[k - 1];
      SignalSum(prog, k - 1) + if p <= Cycles(prog) then p * Trace(prog)[p - 1] else 0
  }

  lemma {:induction false} StrengthIsSignalSum(prog: seq<Instruction>, k: nat)
    requires k <= |CAPTURE_POINTS|
    requires forall j :: 0 <= j < |CAPTURE_POINTS| ==>
      (j < |Captured(prog)| <==> CAPTURE_POINTS[j] <= Cycles(prog))
    requires forall j :: 0 <= j < |Captured(prog)| ==>
      Captured(prog)[j] == Trace(prog)[CAPTURE_POINTS[j] - 1]
    ensures Strength(Captured(prog)[..if k < |Captured(prog)| then k else |Captured(prog)|]) == SignalSum(prog, k)
  {
    var c := Captured(prog);
    if k > 0 {
      StrengthIsSignalSum(prog, k - 1);
      var p := CAPTURE_POINTS[k - 1];
      if k <= |c| {
        assert p <= Cycles(prog);
        assert c[..k][..k - 1] == c[..k - 1];
        assert Strength(c[..k]) == Strength(c[..k - 1]) + c[k - 1] * p;
      } else {
        assert !(p <= Cycles(prog));
      }
    }
  }

  /** `part1`: the sum of the signal strengths at the capture points the program reaches. */
  method Part1(prog: seq<Instruction>) returns (total: int)
    ensures total == SignalSum(prog, |CAPTURE_POINTS|)
  {
    var cpu := new Cpu();
    var captured: seq<int> := [];
    for k := 0 to |prog|
      invariant cpu.register == RegisterAfter(prog[..k]) && cpu.cycle == Cycles(prog[..k])
      invariant captured == Captured(prog[..k])
    {
      var prevRegister := cpu.register;
      cpu.Execute(prog[k]);
      assert prog[..k + 1][..k] == prog[..k];
      if |captured| < |CAPTURE_POINTS| && cpu.cycle >= CAPTURE_POINTS[|captured|] {
        captured := captured + [prevRegister];
      }
    }
    assert prog[..|prog|] == prog;
    total := Strength(captured);
    CapturedMeaning(prog);
    StrengthIsSignalSum(prog, |CAPTURE_POINTS|);
    assert captured[..|captured|] == captured;
  }

  // ---------------------------------------------------------------------------
  // Part 2
  // ---------------------------------------------------------------------------

  /** The pixel in column `x` is lit when the sprite, centred on `pos`, covers it. */
  predicate Lit(x: int, pos: int) {
    -1 <= x - pos <= 1
  }

  class Crt {
    const pixels: array2<bool>
    var lastCycle: nat

    /** `Crt::new`: a dark screen, nothing drawn. */
    constructor ()
      ensures pixels.Length0 == HEIGHT && pixels.Length1 == WIDTH && fresh(pixels)
      ensures forall y, x :: 0 <= y < HEIGHT && 0 <= x < WIDTH ==> !pixels[y, x]
      ensures lastCycle == 0
    {
      pixels := new bool[HEIGHT, WIDTH]((_, _) => false);
      lastCycle := 0;
    }

    /**
     * `draw`: every cycle `i` from `lastCycle` up to `cycle` sets pixel
     * `(i % 40, i / 40)`, lit when the sprite at `pos` covers column `i % 40`.
     * Drawing past the sixth row would index out of the screen.
     */
    method Draw(pos: int, cycle: nat)
      requires pixels.Length0 == HEIGHT && pixels.Length1 == WIDTH
      requires cycle <= lastCycle || cycle <= WIDTH * HEIGHT
      modifies this, pixels
      ensures lastCycle == cycle
      ensures forall y, x :: 0 <= y < HEIGHT && 0 <= x < WIDTH ==>
        pixels[y, x] == if old(lastCycle) <= WIDTH * y + x < cycle then Lit(x, pos) else old(pixels[y, x])
    {
      var i := lastCycle;
      while i < cycle
        invariant lastCycle == old(lastCycle)
        invariant lastCycle <= i && (i <= cycle || i == lastCycle)
        invariant forall y, x :: 0 <= y < HEIGHT && 0 <= x < WIDTH ==>
          pixels[y, x] == if lastCycle <= WIDTH * y + x < i then Lit(x, pos) else old(pixels[y, x])
      {
        var x := i % WIDTH;
        var y := i / WIDTH;
        var ix := i % WIDTH;
        var lit := -1 <= ix - pos <= 1;
        pixels[y, x] := lit;
        i := i + 1;
      }
      lastCycle := cycle;
    }
  }

  /** What the screen shows once a program has run: pixel `i` lit as the sprite stood during cycle `i + 1`. */
  ghost predicate Shows(pixels: array2<bool>, prog: seq<Instruction>)
    requires pixels.Length0 == HEIGHT && pixels.Length1 == WIDTH
    reads pixels
  {
    forall y, x :: 0 <= y < HEIGHT && 0 <= x < WIDTH ==>
      pixels[y, x] == (WIDTH * y + x < Cycles(prog) && Lit(x, Trace(prog)[WIDTH * y + x]))
  }

  /**
   * `part2`: run the program, drawing the cycles of each instruction with the
   * register from before it. The program must end within the 240 cycles of
   * the screen. The screen is returned rather than printed.
   */
  method Part2(prog: seq<Instruction>) returns (crt: Crt)
    requires Cycles(prog) <= WIDTH * HEIGHT
    ensures crt.pixels.Length0 == HEIGHT && crt.pixels.Length1 == WIDTH
    ensures Shows(crt.pixels, prog)
  {
    var cpu := new Cpu();
    crt := new Crt();
    for k := 0 to |prog|
      invariant cpu.register == RegisterAfter(prog[..k]) && cpu.cycle == Cycles(prog[..k])
      invariant crt.lastCycle == cpu.cycle
      invariant crt.pixels.Length0 == HEIGHT && crt.pixels.Length1 == WIDTH
      invariant Shows(crt.pixels, prog[..k])
      invariant fresh(crt) && fresh(crt.pixels)
    {
      ghost var before := prog[..k];
      var prevRegister := cpu.register;
      cpu.Execute(prog[k]);
      assert prog[..k + 1][..k] == before;
      CyclesMonotone(prog, k + 1);
      crt.Draw(prevRegister, cpu.cycle);
      assert forall i :: 0 <= i < Cycles(before) ==> Trace(prog[..k + 1])[i] == Trace(before)[i];
    }
    assert prog[..|prog|] == prog;
  }

  // ---------------------------------------------------------------------------
  // Parsing
  // ---------------------------------------------------------------------------

  /**
   * `Insruction::from_str`: `addx` and an `i32` (further words ignored), or
   * `noop` alone.
   */
  function ParseInstruction(line: string): (r: Result<Instruction>)
    ensures r.Ok? && r.value.Addx? ==> I32_MIN <= r.value.value <= I32_MAX
    ensures r.Ok? && r.value.Noop? ==> Words(line) == ["noop"]
  {
    var ws := Words(line);
    if |ws| >= 2 && ws[0] == "addx" then
      match ParseSigned(ws[1], I32_MIN, I32_MAX)
      case Some(v) => Ok(Addx(v))
      case None => Err("invalid digit found in string")
    else if |ws| == 1 && ws[0] == "noop" then Ok(Noop)
    else Err("Unknown instruction: " + line)
  }

  function RenderInstruction(ins: Instruction): seq<string> {
    match ins
    case Addx(v) => ["addx", SignedDecimal(v)]
    case Noop => ["noop"]
  }

  /** An instruction written out as its words reads back as itself. */
  lemma InstructionRoundTrip(ins: Instruction)
    requires ins.Addx? ==> I32_MIN <= ins.value <= I32_MAX
    ensures ParseInstruction(Join(RenderInstruction(ins), " ")) == Ok(ins)
  {
    var ws := RenderInstruction(ins);
    if ins.Addx? {
      SignedDecimalIsWord(ins.value);
    }
    WordsOfSpaced(ws);
    if ins.Addx? {
      ParseSignedDecimal(ins.value, I32_MIN, I32_MAX);
    }
  }

  /** `read_input`: every line must hold an instruction; the first failure is the result. */
  function ParseProgram(lines: seq<string>): (r: Result<seq<Instruction>>)
    ensures r.Ok? <==> forall k :: 0 <= k < |lines| ==> ParseInstruction(lines[k]).Ok?
    ensures r.Ok? ==> |r.value| == |lines|
    ensures r.Ok? ==> forall k :: 0 <= k < |lines| ==> r.value[k] == ParseInstruction(lines[k]).value
  {
    if lines == [] then Ok([])
    else
      match ParseInstruction(lines[0])
      case Err(msg) => Err(msg)
      case Ok(ins) =>
        match ParseProgram(lines[1..])
        case Err(msg) => Err(msg)
        case Ok(rest) => Ok([ins] + rest)
  }
}
