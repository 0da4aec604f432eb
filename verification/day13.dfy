/**
 * Day 13, "Distress Signal": packets are nested lists of small integers.
 * `check_order` compares two packets element by element, wrapping an
 * integer into a one-element list when it meets a list. Part 1 sums the
 * 1-based indices of the pairs already in order; part 2 sorts every packet
 * together with the dividers `[[2]]` and `[[6]]` and multiplies the
 * dividers' 1-based positions.
 */
module Day13 {
  import opened Wrappers
  import opened Text
  import Sorting

  /** A packet value; the integers are `u8` in the source. */
  datatype Value = Integer(n: nat) | List(items: seq<Value>)

  datatype Pair = Pair(left: Value, right: Value)

  datatype CmpResult = CorrectOrder | IncorrectOrder | Continue

  /** Every integer fits in a `u8`. */
  predicate WellFormed(v: Value) {
    match v
    case Integer(n) => n <= U8_MAX
    case List(xs) => forall i | 0 <= i < |xs| :: WellFormed(xs[i])
  }

  /** `Value::append`: pushes onto a list, and panics on an integer (reported here as an error). */
  function Append(v: Value, x: Value): (r: Result<Value>)
    ensures v.List? <==> r.Ok?
    ensures r.Ok? ==> r.value == List(v.items + [x])
  {
    match v
    case Integer(_) => Err("Can't append Integer")
    case List(xs) => Ok(List(xs + [x]))
  }

  // ---------------------------------------------------------------------
  // Size, for termination
  // ---------------------------------------------------------------------

  function Size(v: Value): nat
    decreases v, 1
  {
    match v
    case Integer(_) => 1
    case List(xs) => 1 + SeqSize(xs)
  }

  function SeqSize(xs: seq<Value>): nat
    decreases xs, 0
  {
    if xs == [] then 0 else Size(xs[0]) + SeqSize(xs[1..])
  }

  lemma SeqSizeOne(v: Value)
    ensures SeqSize([v]) == Size(v)
  {
    assert [v][1..] == [];
  }

  lemma SeqSizeFrom(xs: seq<Value>, i: nat)
    requires i < |xs|
    ensures SeqSize(xs[i..]) == Size(xs[i]) + SeqSize(xs[i + 1..])
  {
    assert xs[i..][1..] == xs[i + 1..];
  }

  // ---------------------------------------------------------------------
  // Comparison
  // ---------------------------------------------------------------------

  /**
   * `check_order`. An integer meeting a list is compared as the
   * one-element list holding it, which is the list comparison of `[left]`
   * (or `[right]`) with the other side's items from index 0.
   */
  function CheckOrder(left: Value, right: Value): CmpResult
    decreases Size(left) + Size(right), 1
  {
    match (left, right)
    case (Integer(l), Integer(r)) =>
      if l < r then CorrectOrder else if l == r then Continue else IncorrectOrder
    case (Integer(_), List(r)) => SeqSizeOne(left); CheckList([left], r, 0)
    case (List(l), Integer(_)) => SeqSizeOne(right); CheckList(l, [right], 0)
    case (List(l), List(r)) => CheckList(l, r, 0)
  }

  /**
   * The index loop of `check_order` from index `i`: a side that runs out
   * first decides (the shorter side is the smaller), otherwise the first
   * element comparison that is not `Continue` decides.
   */
  function CheckList(l: seq<Value>, r: seq<Value>, i: nat): CmpResult
    requires i <= |l| && i <= |r|
    decreases SeqSize(l[i..]) + SeqSize(r[i..]), 2
  {
    if i >= |l| && i >= |r| then Continue
    else if i >= |l| && |l| != |r| then CorrectOrder
    else if i >= |r| && |l| != |r| then IncorrectOrder
    else
      SeqSizeFrom(l, i);
      SeqSizeFrom(r, i);
      var c := CheckOrder(l[i], r[i]);
      if c != Continue then c else CheckList(l, r, i + 1)
  }

  /** An integer against a list is compared exactly as the list `[integer]`. */
  lemma WrapInteger(n: nat, r: seq<Value>)
    ensures CheckOrder(Integer(n), List(r)) == CheckOrder(List([Integer(n)]), List(r))
    ensures CheckOrder(List(r), Integer(n)) == CheckOrder(List(r), List([Integer(n)]))
  {
  }

  function Flip(c: CmpResult): CmpResult {
    match c
    case CorrectOrder => IncorrectOrder
    case IncorrectOrder => CorrectOrder
    case Continue => Continue
  }

  /** A packet compared with itself gives `Continue`. */
  lemma {:induction false} CheckOrderSelf(v: Value)
    ensures CheckOrder(v, v) == Continue
    decreases Size(v) + Size(v), 1
  {
    match v
    case Integer(_) =>
    case List(xs) => CheckListSelf(xs, 0);
  }

  lemma {:induction false} CheckListSelf(xs: seq<Value>, i: nat)
    requires i <= |xs|
    ensures CheckList(xs, xs, i) == Continue
    decreases SeqSize(xs[i..]) + SeqSize(xs[i..]), 2
  {
    if i < |xs| {
      SeqSizeFrom(xs, i);
      CheckOrderSelf(xs[i]);
      CheckListSelf(xs, i + 1);
    }
  }

  /** Swapping the arguments swaps `CorrectOrder` and `IncorrectOrder`. */
  lemma {:induction false} CheckOrderFlip(a: Value, b: Value)
    ensures CheckOrder(b, a) == Flip(CheckOrder(a, b))
    decreases Size(a) + Size(b), 1
  {
    match (a, b)
    case (Integer(_), Integer(_)) =>
    case (Integer(_), List(r)) => SeqSizeOne(a); CheckListFlip([a], r, 0);
    case (List(l), Integer(_)) => SeqSizeOne(b); CheckListFlip(l, [b], 0);
    case (List(l), List(r)) => CheckListFlip(l, r, 0);
  }

  lemma {:induction false} CheckListFlip(l: seq<Value>, r: seq<Value>, i: nat)
    requires i <= |l| && i <= |r|
    ensures CheckList(r, l, i) == Flip(CheckList(l, r, i))
    decreases SeqSize(l[i..]) + SeqSize(r[i..]), 2
  {
    if i < |l| && i < |r| {
      SeqSizeFrom(l, i);
      SeqSizeFrom(r, i);
      CheckOrderFlip(l[i], r[i]);
      CheckListFlip(l, r, i + 1);
    }
  }

  /**
   * The lists agree (compare as `Continue`) element by element before
   * index `k`, and `k` is where one of them ends or the first index whose
   * elements differ.
   */
  ghost predicate DecidedAt(l: seq<Value>, r: seq<Value>, k: nat) {
    k <= |l| && k <= |r| && (forall i | 0 <= i < k :: CheckOrder(l[i], r[i]) == Continue) &&
    (k == |l| || k == |r| || CheckOrder(l[k], r[k]) != Continue)
  }

  /** Lexicographic order: the verdict at the first difference, or the shorter list first. */
  function Lexicographic(l: seq<Value>, r: seq<Value>, k: nat): CmpResult
    requires k <= |l| && k <= |r|
  {
    if k < |l| && k < |r| then CheckOrder(l[k], r[k])
    else if |l| < |r| then CorrectOrder
    else if |l| > |r| then IncorrectOrder
    else Continue
  }

  /** Two lists compare lexicographically, decided at their first difference. */
  lemma ListCompare(l: seq<Value>, r: seq<Value>, k: nat)
    requires DecidedAt(l, r, k)
    ensures CheckOrder(List(l), List(r)) == Lexicographic(l, r, k)
  {
    CheckListFrom(l, r, k, 0);
  }

  lemma {:induction false} CheckListFrom(l: seq<Value>, r: seq<Value>, k: nat, i: nat)
    requires DecidedAt(l, r, k) && i <= k
    ensures CheckList(l, r, i) == Lexicographic(l, r, k)
    decreases k - i
  {
    if i < k {
      CheckListFrom(l, r, k, i + 1);
    }
  }

  /** Every pair of lists has a first difference. */
  lemma {:induction false} FirstDifference(l: seq<Value>, r: seq<Value>, i: nat) returns (k: nat)
    requires i <= |l| && i <= |r| && forall j | 0 <= j < i :: CheckOrder(l[j], r[j]) == Continue
    ensures i <= k && DecidedAt(l, r, k)
    decreases |l| - i
  {
    if i == |l| || i == |r| || CheckOrder(l[i], r[i]) != Continue {
      k := i;
    } else {
      k := FirstDifference(l, r, i + 1);
    }
  }

  /** Distinct packets may still compare as `Continue`: `1` against `[1]`. */
  lemma ContinueWithoutEquality()
    ensures Integer(1) != List([Integer(1)]) && CheckOrder(Integer(1), List([Integer(1)])) == Continue
  {
    assert CheckList([Integer(1)], [Integer(1)], 1) == Continue;
  }

  /**
   * How three comparisons along `a`, `b`, `c` fit together: `Continue`
   * is neutral on either side and two equal verdicts carry over.
   */
  predicate Chains(ab: CmpResult, bc: CmpResult, ac: CmpResult) {
    (ab == Continue ==> ac == bc) && (bc == Continue ==> ac == ab) && (ab == bc ==> ac == ab)
  }

  /** The comparison is transitive, and `Continue` behaves as an equivalence. */
  lemma {:induction false} CheckOrderTrans(a: Value, b: Value, c: Value)
    ensures Chains(CheckOrder(a, b), CheckOrder(b, c), CheckOrder(a, c))
    decreases Size(a) + Size(b) + Size(c), 1
  {
    if a.Integer? && b.Integer? && c.Integer? {
    } else {
      ListOf(a, b);
      ListOf(b, c);
      ListOf(a, c);
      CheckListTrans(Items(a), Items(b), Items(c), 0);
    }
  }

  /** The list an integer is compared as, or a list's own items. */
  function Items(v: Value): (xs: seq<Value>)
    ensures v.List? ==> SeqSize(xs) + 1 == Size(v)
    ensures v.Integer? ==> SeqSize(xs) == Size(v)
  {
    match v
    case Integer(_) => [v]
    case List(xs) => xs
  }

  /** Every comparison is the list comparison of the two sides' `Items`. */
  lemma ListOf(a: Value, b: Value)
    ensures CheckOrder(a, b) == CheckList(Items(a), Items(b), 0)
  {
    if a.Integer? && b.Integer? {
      assert CheckList([a], [b], 1) == Continue;
    }
  }

  lemma {:induction false} CheckListTrans(l: seq<Value>, m: seq<Value>, r: seq<Value>, i: nat)
    requires i <= |l| && i <= |m| && i <= |r|
    ensures Chains(CheckList(l, m, i), CheckList(m, r, i), CheckList(l, r, i))
    decreases SeqSize(l[i..]) + SeqSize(m[i..]) + SeqSize(r[i..]), 2
  {
    if i < |l| && i < |m| && i < |r| {
      SeqSizeFrom(l, i);
      SeqSizeFrom(m, i);
      SeqSizeFrom(r, i);
      CheckOrderTrans(l[i], m[i], r[i]);
      CheckListTrans(l, m, r, i + 1);
    }
  }

  // ---------------------------------------------------------------------
  // Printing and parsing
  // ---------------------------------------------------------------------

  /** `Display for Value`: integers in decimal, lists as `[a,b,...]`. */
  function Print(v: Value): (s: string)
    ensures |s| >= 1
    ensures v.List? ==> s[0] == '[' && s[|s| - 1] == ']'
    ensures v.Integer? ==> AllDigits(s)
    decreases v, 1
  {
    match v
    case Integer(n) => Decimal(n)
    case List(xs) => "[" + PrintItems(xs) + "]"
  }

  /** The items of a list, separated by commas. */
  function PrintItems(xs: seq<Value>): string
    decreases xs, 0
  {
    if xs == [] then ""
    else if |xs| == 1 then Print(xs[0])
    else Print(xs[0]) + "," + PrintItems(xs[1..])
  }

  /** The leading run of decimal digits of `s`. */
  function DigitRun(s: string): (d: string)
    ensures d <= s && AllDigits(d)
    ensures |d| < |s| ==> !IsDigit(s[|d|])
  {
    if s == [] || !IsDigit(s[0]) then "" else [s[0]] + DigitRun(s[1..])
  }

  /** The parser's state: the stack of open lists and how far the text has been read. */
  datatype Cursor = Cursor(stack: seq<Value>, consumed: nat)

  /**
   * One pass of the parser's loop on the remaining text `s`: `[` pushes an
   * empty list, `]` pops the top onto the list below it unless the top is
   * the only entry, `,` is skipped, and anything else must start a decimal
   * `u8`, which is appended to the top. It fails where the source returns
   * an error (no digits, out of range) and where it panics (no list to
   * append to).
   */
  function Step(stack: seq<Value>, s: string): (r: Result<Cursor>)
    requires s != []
    ensures r.Ok? ==> 1 <= r.value.consumed <= |s|
  {
    if s[0] == '[' then Ok(Cursor(stack + [List([])], 1))
    else if s[0] == ']' then
      if |stack| > 1 then
        match Append(stack[|stack| - 2], stack[|stack| - 1])
        case Err(e) => Err(e)
        case Ok(v) => Ok(Cursor(stack[..|stack| - 2] + [v], 1))
      else Ok(Cursor(stack, 1))
    else if s[0] == ',' then Ok(Cursor(stack, 1))
    else
      var digits := DigitRun(s);
      match ParseUnsigned(digits, U8_MAX)
      case None => Err("invalid digit")
      case Some(n) =>
        if stack == [] then Err("attempt to subtract with overflow")
        else
          match Append(stack[|stack| - 1], Integer(n))
          case Err(e) => Err(e)
          case Ok(v) => Ok(Cursor(stack[..|stack| - 1] + [v], |digits|))
  }

  /** The parser's loop from the stack `stack` to the end of `s`. */
  function Run(stack: seq<Value>, s: string): Result<seq<Value>>
    decreases |s|
  {
    if s == [] then Ok(stack)
    else
      match Step(stack, s)
      case Err(e) => Err(e)
      case Ok(c) => Run(c.stack, s[c.consumed..])
  }

  /** `FromStr for Value`: the value left on top of the stack at the end. */
  function ParseValue(s: string): Result<Value> {
    match Run([], s)
    case Err(e) => Err(e)
    case Ok(stack) => if stack == [] then Err("called `Option::unwrap()` on a `None` value") else Ok(stack[|stack| - 1])
  }

  /** The stack-based parser itself. */
  method Parse(s: string) returns (r: Result<Value>)
    ensures r == ParseValue(s)
  {
    var stack: seq<Value> := [];
    var idx := 0;
    while idx < |s|
      invariant 0 <= idx <= |s|
      invariant Run([], s) == Run(stack, s[idx..])
      decreases |s| - idx
    {
      var step := StepAt(s, idx, stack);
      if step.Err? {
        return Err(step.msg);
      }
      stack, idx := step.value.stack, idx + step.value.consumed;
      assert s[idx - step.value.consumed..][step.value.consumed..] == s[idx..];
    }
    if stack == [] {
      return Err("called `Option::unwrap()` on a `None` value");
    }
    r := Ok(stack[|stack| - 1]);
  }

  /** One pass of the loop in `Parse`, at index `idx`. */
  method StepAt(s: string, idx: nat, stack0: seq<Value>) returns (r: Result<Cursor>)
    requires idx < |s|
    ensures r == Step(stack0, s[idx..])
  {
    var stack := stack0;
    var c := s[idx];
    ghost var t := s[idx..];
    assert t != [] && t[0] == c;
    if c == '[' {
      stack := stack + [List([])];
      return Ok(Cursor(stack, 1));
    } else if c == ']' {
      if |stack| > 1 {
        ghost var before := stack;
        var top := stack[|stack| - 1];
        stack := stack[..|stack| - 1];
        var last := |stack| - 1;
        var parent := Append(stack[last], top);
        if parent.Err? {
          return Err(parent.msg);
        }
        stack := stack[last := parent.value];
        assert stack == before[..|before| - 2] + [parent.value];
      }
      return Ok(Cursor(stack, 1));
    } else if c == ',' {
      return Ok(Cursor(stack, 1));
    } else {
      var digits := DigitRun(s[idx..]);
      var v := ParseUnsigned(digits, U8_MAX);
      if v.None? {
        return Err("invalid digit");
      }
      if |stack| == 0 {
        return Err("attempt to subtract with overflow");
      }
      var last := |stack| - 1;
      var top := Append(stack[last], Integer(v.value));
      if top.Err? {
        return Err(top.msg);
      }
      ghost var before := stack;
      stack := stack[last := top.value];
      assert stack == before[..last] + [top.value];
      return Ok(Cursor(stack, |digits|));
    }
  }

  // ---------------------------------------------------------------------
  // Parsing what was printed
  // ---------------------------------------------------------------------

  /** `s` does not continue a run of digits. */
  predicate NoDigitFirst(s: string) {
    s == [] || !IsDigit(s[0])
  }

  lemma {:induction false} DigitRunOf(d: string, rest: string)
    requires AllDigits(d) && NoDigitFirst(rest)
    ensures DigitRun(d + rest) == d
  {
    if d != [] {
      assert (d + rest)[1..] == d[1..] + rest;
      DigitRunOf(d[1..], rest);
    }
  }

  /** The stack after `v` is appended to the list on top. */
  function Pushed(stack: seq<Value>, v: Value): seq<Value>
    requires stack != [] && stack[|stack| - 1].List?
  {
    stack[..|stack| - 1] + [List(stack[|stack| - 1].items + [v])]
  }

  lemma RunOpen(stack: seq<Value>, t: string)
    ensures Run(stack, "[" + t) == Run(stack + [List([])], t)
  {
    assert ("[" + t)[1..] == t;
  }

  lemma RunComma(stack: seq<Value>, t: string)
    ensures Run(stack, "," + t) == Run(stack, t)
  {
    assert ("," + t)[1..] == t;
  }

  lemma RunClose(stack: seq<Value>, v: Value, t: string)
    requires stack != [] && stack[|stack| - 1].List?
    ensures Run(stack + [v], "]" + t) == Run(Pushed(stack, v), t)
  {
    assert ("]" + t)[1..] == t;
    assert (stack + [v])[..|stack| - 1] == stack[..|stack| - 1];
  }

  lemma RunCloseRoot(v: Value, t: string)
    ensures Run([v], "]" + t) == Run([v], t)
  {
    assert ("]" + t)[1..] == t;
  }

  lemma RunInteger(stack: seq<Value>, n: nat, rest: string)
    requires stack != [] && stack[|stack| - 1].List? && n <= U8_MAX && NoDigitFirst(rest)
    ensures Run(stack, Decimal(n) + rest) == Run(Pushed(stack, Integer(n)), rest)
  {
    var d := Decimal(n);
    StepInteger(stack, n, rest);
    assert (d + rest)[|d|..] == rest;
  }

  lemma StepInteger(stack: seq<Value>, n: nat, rest: string)
    requires stack != [] && stack[|stack| - 1].List? && n <= U8_MAX && NoDigitFirst(rest)
    ensures Decimal(n) + rest != []
    ensures Step(stack, Decimal(n) + rest) == Ok(Cursor(Pushed(stack, Integer(n)), |Decimal(n)|))
  {
    var d := Decimal(n);
    var s := d + rest;
    DigitRunOf(d, rest);
    ParseDecimal(n, U8_MAX);
    assert s[0] == d[0] && IsDigit(d[0]);
    assert DigitRun(s) == d && ParseUnsigned(d, U8_MAX) == Some(n);
  }

  /** Reading a printed value appends it to the list on top of the stack. */
  lemma {:induction false} RunPrint(stack: seq<Value>, v: Value, rest: string)
    requires stack != [] && stack[|stack| - 1].List? && WellFormed(v) && NoDigitFirst(rest)
    ensures Run(stack, Print(v) + rest) == Run(Pushed(stack, v), rest)
    decreases v, 1
  {
    match v
    case Integer(n) =>
      RunInteger(stack, n, rest);
    case List(xs) =>
      assert Print(v) + rest == "[" + (PrintItems(xs) + ("]" + rest));
      RunOpen(stack, PrintItems(xs) + ("]" + rest));
      RunItems(stack, [], xs, "]" + rest);
      assert [] + xs == xs;
      RunClose(stack, List(xs), rest);
  }

  /** Reading printed items appends them, in order, to the list on top of the stack. */
  lemma {:induction false} RunItems(stack: seq<Value>, pre: seq<Value>, items: seq<Value>, rest: string)
    requires forall i | 0 <= i < |items| :: WellFormed(items[i])
    requires NoDigitFirst(rest)
    ensures Run(stack + [List(pre)], PrintItems(items) + rest) == Run(stack + [List(pre + items)], rest)
    decreases items, 1
  {
    var st := stack + [List(pre)];
    assert st[..|st| - 1] == stack;
    if items == [] {
      assert pre + items == pre;
      assert PrintItems(items) + rest == rest;
    } else if |items| == 1 {
      RunPrint(st, items[0], rest);
      assert items == [items[0]];
      assert Pushed(st, items[0]) == stack + [List(pre + items)];
    } else {
      var x, tail := items[0], items[1..];
      RunFirstItem(stack, pre, items, rest);
      RunItems(stack, pre + [x], tail, rest);
      assert pre + [x] + tail == pre + items;
    }
  }

  /** Reading the first of several printed items and the comma after it. */
  lemma RunFirstItem(stack: seq<Value>, pre: seq<Value>, items: seq<Value>, rest: string)
    requires |items| >= 2 && forall i | 0 <= i < |items| :: WellFormed(items[i])
    requires NoDigitFirst(rest)
    ensures Run(stack + [List(pre)], PrintItems(items) + rest) ==
            Run(stack + [List(pre + [items[0]])], PrintItems(items[1..]) + rest)
    decreases items, 0
  {
    var st := stack + [List(pre)];
    assert st[..|st| - 1] == stack;
    var x := items[0];
    var after := PrintItems(items[1..]) + rest;
    var mid := stack + [List(pre + [x])];
    assert PrintItems(items) + rest == Print(x) + ("," + after);
    RunPrint(st, x, "," + after);
    assert Pushed(st, x) == mid;
    RunComma(mid, after);
  }

  /** Parsing the printed form of a list gives the list back. */
  lemma ParsePrint(v: Value)
    requires v.List? && WellFormed(v)
    ensures ParseValue(Print(v)) == Ok(v)
  {
    var xs := v.items;
    assert Print(v) == "[" + (PrintItems(xs) + "]");
    RunOpen([], PrintItems(xs) + "]");
    assert [] + [List([])] == [List([])];
    RunItems([], [], xs, "]");
    assert [] + xs == xs;
    assert List(xs) == v;
    var empty: seq<Value> := [];
    assert empty + [List(xs)] == [v];
    RunCloseRoot(v, []);
    assert "]" + [] == "]";
  }

  // ---------------------------------------------------------------------
  // Part 1
  // ---------------------------------------------------------------------

  /** The pair is already in the right order. */
  predicate InOrder(p: Pair) {
    CheckOrder(p.left, p.right) == CorrectOrder
  }

  /** The sum of the 1-based indices of the pairs in the right order. */
  function InOrderSum(pairs: seq<Pair>): nat {
    if pairs == [] then 0
    else InOrderSum(pairs[..|pairs| - 1]) + (if InOrder(pairs[|pairs| - 1]) then |pairs| else 0)
  }

  /** Part 1; a pair whose comparison is undecided is unreachable in the source. */
  method Part1(pairs: seq<Pair>) returns (sum: nat)
    requires forall i | 0 <= i < |pairs| :: CheckOrder(pairs[i].left, pairs[i].right) != Continue
    ensures sum == InOrderSum(pairs)
  {
    var idxs: seq<int> := [];
    for idx := 0 to |pairs|
      invariant Sorting.Sum(idxs) == InOrderSum(pairs[..idx])
    {
      InOrderSumNext(pairs, idx);
      match CheckOrder(pairs[idx].left, pairs[idx].right)
      case CorrectOrder =>
        Sorting.SumSnoc(idxs, idx + 1);
        idxs := idxs + [idx + 1];
      case IncorrectOrder =>
      case Continue =>
        assert false;
    }
    assert pairs[..|pairs|] == pairs;
    sum := Sorting.Sum(idxs);
  }

  lemma InOrderSumNext(pairs: seq<Pair>, idx: nat)
    requires idx < |pairs|
    ensures InOrderSum(pairs[..idx + 1]) == InOrderSum(pairs[..idx]) + if InOrder(pairs[idx]) then idx + 1 else 0
  {
    assert pairs[..idx + 1][..idx] == pairs[..idx];
  }

  /** Each pair with its sides exchanged. */
  function Swapped(pairs: seq<Pair>): (r: seq<Pair>)
    ensures |r| == |pairs|
    ensures forall i | 0 <= i < |pairs| :: r[i] == Pair(pairs[i].right, pairs[i].left)
  {
    seq(|pairs|, i requires 0 <= i < |pairs| => Pair(pairs[i].right, pairs[i].left))
  }

  /**
   * With no undecided pair, every index counts either for the pairs or
   * for the pairs with their sides exchanged: the two sums add up to
   * `1 + 2 + ... + n`.
   */
  lemma {:induction false} InOrderSumSwapped(pairs: seq<Pair>)
    requires forall i | 0 <= i < |pairs| :: CheckOrder(pairs[i].left, pairs[i].right) != Continue
    ensures 2 * (InOrderSum(pairs) + InOrderSum(Swapped(pairs))) == |pairs| * (|pairs| + 1)
  {
    var n := |pairs|;
    if n > 0 {
      var init, sw := pairs[..n - 1], Swapped(pairs);
      var inOrder := InOrder(pairs[n - 1]);
      assert sw[..n - 1] == Swapped(init);
      InOrderSumSwapped(init);
      assert InOrderSum(pairs) == InOrderSum(init) + if inOrder then n else 0 by {
        InOrderSumNext(pairs, n - 1);
        assert pairs[..n] == pairs;
      }
      assert InOrderSum(sw) == InOrderSum(Swapped(init)) + if inOrder then 0 else n by {
        InOrderSumNext(sw, n - 1);
        assert sw[..n] == sw;
        CheckOrderFlip(pairs[n - 1].left, pairs[n - 1].right);
      }
      CountsStep(InOrderSum(init), InOrderSum(Swapped(init)), InOrderSum(pairs), InOrderSum(sw), n, inOrder);
    }
  }

  lemma CountsStep(a0: int, b0: int, a: int, b: int, n: int, inA: bool)
    requires 2 * (a0 + b0) == (n - 1) * n
    requires a == a0 + (if inA then n else 0) && b == b0 + (if inA then 0 else n)
    ensures 2 * (a + b) == n * (n + 1)
  {
    assert (n - 1) * n + 2 * n == n * (n + 1);
  }

  // ---------------------------------------------------------------------
  // Part 2
  // ---------------------------------------------------------------------

  /** The divider packet `[[n]]`. */
  function Divider(n: nat): Value {
    List([List([Integer(n)])])
  }

  lemma DividerParses()
    ensures ParseValue("[[2]]") == Ok(Divider(2))
    ensures ParseValue("[[6]]") == Ok(Divider(6))
  {
    assert Print(Divider(2)) == "[[2]]";
    assert Print(Divider(6)) == "[[6]]";
    ParsePrint(Divider(2));
    ParsePrint(Divider(6));
  }

  /** Every packet of the pairs, left then right, pair by pair. */
  function Packets(pairs: seq<Pair>): (r: seq<Value>)
    ensures |r| == 2 * |pairs|
  {
    if pairs == [] then []
    else Packets(pairs[..|pairs| - 1]) + [pairs[|pairs| - 1].left, pairs[|pairs| - 1].right]
  }

  /** `check_order` as the sort's "less than". */
  predicate Less(x: Value, y: Value) {
    CheckOrder(x, y) == CorrectOrder
  }

  lemma LessTrans(x: Value, y: Value, z: Value)
    requires Less(x, y) && Less(y, z)
    ensures Less(x, z)
  {
    CheckOrderTrans(x, y, z);
  }

  /** No two packets (at different places) compare as `Continue`; the sort panics otherwise. */
  ghost predicate Comparable(s: seq<Value>) {
    forall i, j | 0 <= i < j < |s| :: CheckOrder(s[i], s[j]) != Continue
  }

  /** Strictly ascending under `Less`. */
  ghost predicate Ascending(s: seq<Value>) {
    forall i, j | 0 <= i < j < |s| :: Less(s[i], s[j])
  }

  /** How many packets of `s` come before `x`. */
  ghost function Below(s: seq<Value>, x: Value): nat {
    |set y | y in s && Less(y, x)|
  }

  /**
   * Part 2: sorts the packets with the two dividers and multiplies the
   * dividers' 1-based positions. Each position is one more than the number
   * of packets that come before that divider.
   */
  method Part2(pairs: seq<Pair>) returns (key: nat)
    requires Comparable(Packets(pairs) + [Divider(2), Divider(6)])
    ensures key == (Below(Packets(pairs) + [Divider(2), Divider(6)], Divider(2)) + 1) *
                   (Below(Packets(pairs) + [Divider(2), Divider(6)], Divider(6)) + 1)
  {
    var packets := CollectPackets(pairs);
    var dp1, dp2 := ParseDividers();
    packets := packets + [dp1, dp2];
    var a := new Value[|packets|](k requires 0 <= k < |packets| => packets[k]);
    assert a[..] == packets;
    SortPackets(a);
    assert dp1 in packets && dp2 in packets;
    var p1 := Locate(a, packets, dp1);
    var p2 := Locate(a, packets, dp2);
    ghost var all := Packets(pairs) + [Divider(2), Divider(6)];
    assert p1.value == Below(all, Divider(2)) + 1;
    assert p2.value == Below(all, Divider(6)) + 1;
    key := 1;
    if p1.Some? {
      key := Times(key, p1.value);
    }
    if p2.Some? {
      key := Times(key, p2.value);
    }
  }

  lemma DividersInOrder()
    ensures Less(Divider(2), Divider(6))
  {
    assert CheckList([Integer(2)], [Integer(6)], 0) == CorrectOrder;
    assert CheckList([List([Integer(2)])], [List([Integer(6)])], 0) == CorrectOrder;
  }

  /** A packet before `y` has fewer packets before it than `y` has. */
  lemma BelowMonotone(s: seq<Value>, x: Value, y: Value)
    requires Less(x, y) && x in s
    ensures Below(s, x) < Below(s, y)
  {
    var bx, bY := set z | z in s && Less(z, x), set z | z in s && Less(z, y);
    forall z | z in bx
      ensures z in bY
    {
      LessTrans(z, x, y);
    }
    CheckOrderSelf(x);
    var extra := bY - bx;
    assert x in extra;
    assert bY == bx + extra && bx !! extra;
    assert |extra| >= 1;
  }

  /** The `[[2]]` divider always ends up before `[[6]]`, so part 2's two factors differ. */
  lemma DividerPositions(pairs: seq<Pair>)
    ensures Below(Packets(pairs) + [Divider(2), Divider(6)], Divider(2)) <
            Below(Packets(pairs) + [Divider(2), Divider(6)], Divider(6))
  {
    DividersInOrder();
    BelowMonotone(Packets(pairs) + [Divider(2), Divider(6)], Divider(2), Divider(6));
  }

  /** The 1-based position of `x` in the sorted packets. */
  method Locate(a: array<Value>, ghost packets: seq<Value>, x: Value) returns (p: Option<nat>)
    requires Ascending(a[..]) && multiset(a[..]) == multiset(packets) && x in packets
    ensures p == Some(Below(packets, x) + 1)
  {
    p := Position(a, x);
    Found(a[..], packets, x, p);
  }

  /** The packets of every pair, left then right. */
  method CollectPackets(pairs: seq<Pair>) returns (packets: seq<Value>)
    ensures packets == Packets(pairs)
  {
    packets := [];
    for i := 0 to |pairs|
      invariant packets == Packets(pairs[..i])
    {
      assert pairs[..i + 1][..i] == pairs[..i];
      packets := packets + [pairs[i].left, pairs[i].right];
    }
    assert pairs[..|pairs|] == pairs;
  }

  /** The two dividers, parsed from their text as the source does. */
  method ParseDividers() returns (dp1: Value, dp2: Value)
    ensures dp1 == Divider(2) && dp2 == Divider(6)
  {
    DividerParses();
    var r1 := Parse("[[2]]");
    var r2 := Parse("[[6]]");
    dp1, dp2 := r1.value, r2.value;
  }

  /** The running product of `product()`. */
  function Times(x: nat, y: nat): nat {
    x * y
  }

  /** A packet of `t` is found in its sorted permutation `s` one place after the packets before it. */
  lemma Found(s: seq<Value>, t: seq<Value>, x: Value, p: Option<nat>)
    requires Ascending(s) && multiset(s) == multiset(t) && x in t
    requires p.Some? ==> 1 <= p.value <= |s| && s[p.value - 1] == x
    requires p.None? ==> x !in s
    ensures p.Some? && p.value == Below(t, x) + 1
  {
    assert x in multiset(t);
    if p.Some? {
      AscendingBelow(s, p.value - 1);
      BelowPerm(s, t, x);
    }
  }

  /** The 1-based position of the first occurrence of `x`. */
  method Position(a: array<Value>, x: Value) returns (p: Option<nat>)
    ensures p.Some? ==> 1 <= p.value <= a.Length && a[p.value - 1] == x && x !in a[..p.value - 1]
    ensures p.None? ==> x !in a[..]
  {
    for i := 0 to a.Length
      invariant x !in a[..i]
    {
      if a[i] == x {
        return Some(i + 1);
      }
    }
    return None;
  }

  /** In an ascending sequence, the packets before `s[k]` are exactly the first `k`. */
  lemma AscendingBelow(s: seq<Value>, k: nat)
    requires Ascending(s) && k < |s|
    ensures Below(s, s[k]) == k
  {
    var before := set y | y in s && Less(y, s[k]);
    forall y | y in before
      ensures y in s[..k]
    {
      var j :| 0 <= j < |s| && s[j] == y;
      if j == k {
        CheckOrderSelf(y);
      } else if j > k {
        CheckOrderFlip(s[k], s[j]);
      }
    }
    assert before == set y | y in s[..k];
    forall i, j | 0 <= i < j < k
      ensures s[..k][i] != s[..k][j]
    {
      if s[i] == s[j] {
        CheckOrderSelf(s[i]);
      }
    }
    DistinctCount(s[..k]);
  }

  /** A sequence without repeats has as many distinct elements as entries. */
  lemma {:induction false} DistinctCount(s: seq<Value>)
    requires forall i, j | 0 <= i < j < |s| :: s[i] != s[j]
    ensures |set y | y in s| == |s|
  {
    if s != [] {
      var t := s[..|s| - 1];
      var last := s[|s| - 1];
      DistinctCount(t);
      assert last !in t;
      assert (set y | y in s) == (set y | y in t) + {last};
    }
  }

  lemma BelowPerm(s: seq<Value>, t: seq<Value>, x: Value)
    requires multiset(s) == multiset(t)
    ensures Below(s, x) == Below(t, x)
  {
    assert forall y :: y in s <==> y in multiset(s);
    assert forall y :: y in t <==> y in multiset(t);
    assert (set y | y in s && Less(y, x)) == (set y | y in t && Less(y, x));
  }

  /**
   * The in-place sort of the packets, by insertion: each packet moves left
   * past every larger one.
   */
  method SortPackets(a: array<Value>)
    modifies a
    requires Comparable(a[..])
    ensures Ascending(a[..]) && multiset(a[..]) == multiset(old(a[..]))
  {
    if a.Length == 0 {
      return;
    }
    for i := 1 to a.Length
      invariant Ascending(a[..i]) && Comparable(a[..]) && multiset(a[..]) == multiset(old(a[..]))
    {
      InsertAt(a, i);
    }
    assert a[..] == a[..a.Length];
  }

  /** `o` with `o[i]` moved to index `j`, the entries `o[j..i]` shifted one place right. */
  function Inserted(o: seq<Value>, i: nat, j: nat): seq<Value>
    requires j <= i < |o|
  {
    o[..j] + [o[i]] + o[j..i] + o[i + 1..]
  }

  /** Moves `a[i]` left into the ascending prefix `a[..i]`. */
  method InsertAt(a: array<Value>, i: nat)
    modifies a
    requires 0 < i < a.Length && Ascending(a[..i]) && Comparable(a[..])
    ensures Ascending(a[..i + 1]) && Comparable(a[..]) && multiset(a[..]) == multiset(old(a[..]))
  {
    ghost var o := a[..];
    var j := i;
    assert o[..i] + [o[i]] + o[i..i] + o[i + 1..] == o;
    while j > 0 && Less(a[j], a[j - 1])
      invariant 0 <= j <= i
      invariant a[..] == Inserted(o, i, j)
      invariant forall l | j <= l < i :: Less(o[i], o[l])
    {
      InsertedStep(o, i, j);
      a[j - 1], a[j] := a[j], a[j - 1];
      j := j - 1;
    }
    if j > 0 {
      CheckOrderFlip(o[j - 1], o[i]);
    }
    InsertedAscending(o, i, j);
    InsertedComparable(o, i, j);
    InsertedPerm(o, i, j);
  }

  lemma InsertedAt(o: seq<Value>, i: nat, j: nat, p: nat)
    requires j <= i < |o| && p < |o|
    ensures Inserted(o, i, j)[p] == if p < j then o[p] else if p == j then o[i] else if p <= i then o[p - 1] else o[p]
  {
  }

  lemma InsertedStep(o: seq<Value>, i: nat, j: nat)
    requires 0 < j <= i < |o|
    ensures Inserted(o, i, j)[j - 1 := o[i]][j := o[j - 1]] == Inserted(o, i, j - 1)
  {
    var r, r' := Inserted(o, i, j)[j - 1 := o[i]][j := o[j - 1]], Inserted(o, i, j - 1);
    forall p | 0 <= p < |o|
      ensures r[p] == r'[p]
    {
      InsertedAt(o, i, j, p);
      InsertedAt(o, i, j - 1, p);
    }
  }

  lemma InsertedAscending(o: seq<Value>, i: nat, j: nat)
    requires j <= i < |o| && Ascending(o[..i])
    requires forall l | j <= l < i :: Less(o[i], o[l])
    requires j > 0 ==> Less(o[j - 1], o[i])
    ensures Ascending(Inserted(o, i, j)[..i + 1])
  {
    var r := Inserted(o, i, j);
    var prefix := r[..i + 1];
    forall p, q | 0 <= p < q < i + 1
      ensures Less(prefix[p], prefix[q])
    {
      InsertedAt(o, i, j, p);
      InsertedAt(o, i, j, q);
      if q == j && p < j - 1 {
        LessTrans(o[p], o[j - 1], o[i]);
      }
    }
  }

  lemma InsertedComparable(o: seq<Value>, i: nat, j: nat)
    requires j <= i < |o| && Comparable(o)
    ensures Comparable(Inserted(o, i, j))
  {
    var r := Inserted(o, i, j);
    forall p, q | 0 <= p < q < |r|
      ensures CheckOrder(r[p], r[q]) != Continue
    {
      InsertedAt(o, i, j, p);
      InsertedAt(o, i, j, q);
      var p' := if p < j then p else if p == j then i else if p <= i then p - 1 else p;
      var q' := if q < j then q else if q == j then i else if q <= i then q - 1 else q;
      if p' > q' {
        CheckOrderFlip(o[q'], o[p']);
      }
    }
  }

  lemma InsertedPerm(o: seq<Value>, i: nat, j: nat)
    requires j <= i < |o|
    ensures multiset(Inserted(o, i, j)) == multiset(o)
  {
    assert o == o[..j] + o[j..i] + [o[i]] + o[i + 1..];
  }
}
