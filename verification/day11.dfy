/**
 * Day 11, "Monkey in the Middle": monkeys pass worry levels between their
 * queues for a number of rounds; the answer is the product of the two
 * largest inspection counts. Part 2 keeps worry levels small by reducing
 * them modulo the least common multiple of every monkey's divisor.
 */
module Day11 {
  import opened Sorting

  // ---------------------------------------------------------------------
  // Divisibility, gcd and lcm
  // ---------------------------------------------------------------------

  /** `d` divides `n`; zero divides only zero. */
  predicate Divides(d: nat, n: nat) {
    if d == 0 then n == 0 else n % d == 0
  }

  /** `g` is a greatest common divisor of `a` and `b` in the divisibility order. */
  ghost predicate IsGcd(g: nat, a: nat, b: nat) {
    Divides(g, a) && Divides(g, b) &&
    forall d: nat {:trigger Divides(d, g)} :: Divides(d, a) && Divides(d, b) ==> Divides(d, g)
  }

  /** Euclidean division is unique. */
  lemma DivModUnique(x: int, d: int, q: int, r: int)
    requires d > 0 && 0 <= r < d && x == d * q + r
    ensures x / d == q && x % d == r
  {
    var q', r' := x / d, x % d;
    assert d * q' + r' == d * q + r;
    if q' > q {
      assert d * (q' - q) == r - r';
      MulAtLeast(d, q' - q);
    } else if q' < q {
      assert d * (q - q') == r' - r;
      MulAtLeast(d, q - q');
    }
  }

  lemma MulAtLeast(d: int, k: int)
    requires d > 0 && k >= 1
    ensures d * k >= d
  {
  }

  /** Adding a multiple of `d` does not change the remainder modulo `d`. */
  lemma ModShift(m: nat, d: nat, r: nat)
    requires d > 0
    ensures (d * m + r) % d == r % d
  {
    var q, s := r / d, r % d;
    assert d * m + r == d * (m + q) + s;
    DivModUnique(d * m + r, d, m + q, s);
  }

  /** A multiple of a multiple of `d` is a multiple of `d`. */
  lemma DividesTrans(d: nat, a: nat, b: nat)
    requires Divides(d, a) && Divides(a, b)
    ensures Divides(d, b)
  {
    if d != 0 && a != 0 {
      var k, j := a / d, b / a;
      assert a == d * k;
      assert b == a * j;
      assert b == d * (k * j) + 0;
      DivModUnique(b, d, k * j, 0);
    }
  }

  /**
   * One Euclidean step keeps the common divisors: for `a > b > 0`, `d`
   * divides `a` and `b` exactly when it divides `a % b` and `b`.
   */
  lemma EuclidStep(a: nat, b: nat, d: nat)
    requires b > 0
    ensures Divides(d, a) && Divides(d, b) <==> Divides(d, a % b) && Divides(d, b)
  {
    if d != 0 && Divides(d, b) {
      var k, q := b / d, a / b;
      assert b == d * k;
      assert a == b * q + a % b;
      assert a == d * (k * q) + a % b;
      ModShift(k * q, d, a % b);
    }
  }

  /**
   * The greatest common divisor by repeated remainders, breaking out as
   * soon as the two values are equal or one of them is zero.
   */
  method Gcd(a0: nat, b0: nat) returns (g: nat)
    ensures IsGcd(g, a0, b0)
    ensures b0 == 0 ==> g == a0
    ensures a0 == 0 ==> g == b0
    ensures a0 == b0 ==> g == a0
  {
    var a: nat, b: nat := a0, b0;
    while true
      invariant forall d: nat {:trigger Divides(d, a0)} ::
        Divides(d, a) && Divides(d, b) <==> Divides(d, a0) && Divides(d, b0)
      invariant a0 == 0 || b0 == 0 || a0 == b0 ==> a == a0 && b == b0
      decreases a + b
    {
      if a == b || b == 0 {
        g := a;
        break;
      } else if a == 0 {
        g := b;
        break;
      } else if b > a {
        a, b := b, a;
      }
      forall d: nat
        ensures Divides(d, a % b) && Divides(d, b) <==> Divides(d, a0) && Divides(d, b0)
      {
        EuclidStep(a, b, d);
      }
      a := a % b;
    }
    assert Divides(g, a) && Divides(g, b) by {
      if g != 0 {
        assert g % g == 0;
      }
    }
  }

  /** The least common multiple through the greatest common divisor. */
  method Lcm(a: nat, b: nat) returns (l: nat)
    requires a > 0 && b > 0
    ensures Divides(a, l) && Divides(b, l)
    ensures l > 0
  {
    var g := Gcd(a, b);
    assert g > 0;
    LcmDivisible(a, b, g);
    l := a * b / g;
  }

  /** With `g` dividing both, `a * b / g` is a positive multiple of `a` and of `b`. */
  lemma LcmDivisible(a: nat, b: nat, g: nat)
    requires a > 0 && b > 0 && g > 0 && Divides(g, a) && Divides(g, b)
    ensures a * b / g > 0
    ensures Divides(a, a * b / g) && Divides(b, a * b / g)
  {
    var i, j := a / g, b / g;
    assert a == g * i && b == g * j;
    assert i > 0 && j > 0;
    assert a * b == g * (a * j) + 0;
    DivModUnique(a * b, g, a * j, 0);
    assert a * b / g == a * j == b * i;
    DivModUnique(a * j, a, j, 0);
    DivModUnique(b * i, b, i, 0);
    MulAtLeast(a, j);
  }

  /**
   * Reducing modulo a multiple `l` of `d` leaves the remainder modulo `d`
   * unchanged, so every divisibility test gives the same answer.
   */
  lemma ModOfMod(x: nat, l: nat, d: nat)
    requires l > 0 && d > 0 && Divides(d, l)
    ensures (x % l) % d == x % d
  {
    var q, k, r := x / l, l / d, x % l;
    assert l == d * k;
    assert x == l * q + r;
    MulAssoc(d, k, q);
    assert x == d * (k * q) + r;
    ModShift(k * q, d, r);
  }

  lemma MulAssoc(a: int, b: int, c: int)
    ensures (a * b) * c == a * (b * c)
  {
  }

  /** A positive number's divisors are no larger than it, so `Gcd` is also greatest in size. */
  lemma DivisorAtMost(d: nat, n: nat)
    requires n > 0 && Divides(d, n)
    ensures d <= n
  {
    var k := n / d;
    assert n == d * k;
    MulAtLeast(d, k);
  }

  // ---------------------------------------------------------------------
  // Monkeys
  // ---------------------------------------------------------------------

  datatype Operation = Plus(value: nat) | Multiply(value: nat) | Square

  datatype Monkey = Monkey(items: seq<nat>, operation: Operation, testDiv: nat, falseTo: nat, trueTo: nat)

  /**
   * The worry-management closure handed to the simulation: part 1 divides
   * by three, part 2 reduces modulo the lcm of the divisors.
   */
  datatype Manage = DivideBy3 | Modulo(l: nat)

  /** A throw: the receiving monkey and the worry level it receives. */
  datatype Throw = Throw(target: nat, worry: nat)

  /** The simulation's state: the monkeys (with their queues) and the inspection counts. */
  datatype State = State(monkeys: seq<Monkey>, counts: seq<nat>)

  /** Every divisor is positive and every target is a monkey of the troop. */
  predicate ValidTroop(monkeys: seq<Monkey>) {
    forall m :: 0 <= m < |monkeys| ==>
      monkeys[m].testDiv > 0 && monkeys[m].trueTo < |monkeys| && monkeys[m].falseTo < |monkeys|
  }

  predicate ValidManage(f: Manage) {
    f.Modulo? ==> f.l > 0
  }

  /** The two troops have the same monkeys apart from the contents of their queues. */
  predicate SameRules(a: seq<Monkey>, b: seq<Monkey>) {
    |a| == |b| &&
    forall m :: 0 <= m < |a| ==> a[m].(items := []) == b[m].(items := [])
  }

  /** The new worry level while a monkey inspects an item. */
  function Inspect(op: Operation, w: nat): nat {
    match op
    case Plus(v) => w + v
    case Multiply(v) => w * v
    case Square => w * w
  }

  /** The worry-management closure applied to a worry level. */
  function Relief(f: Manage, w: nat): nat
    requires ValidManage(f)
  {
    match f
    case DivideBy3 => w / 3
    case Modulo(l) => w % l
  }

  /**
   * Dividing by three rounds down; reducing modulo `l` gives a smaller
   * value that differs from the original by a multiple of `l`.
   */
  lemma ReliefMeaning(f: Manage, w: nat)
    requires ValidManage(f)
    ensures f.DivideBy3? ==> Relief(f, w) * 3 <= w < Relief(f, w) * 3 + 3
    ensures f.Modulo? ==> Relief(f, w) <= w && Relief(f, w) < f.l && Divides(f.l, w - Relief(f, w))
  {
    if f.Modulo? {
      var l := f.l;
      assert w == l * (w / l) + w % l;
      DivModUnique(w - w % l, l, w / l, 0);
    }
  }

  /** What a monkey does with one item: inspect, relieve, test and pick the receiver. */
  function ThrowOf(monkey: Monkey, f: Manage, w: nat): Throw
    requires monkey.testDiv > 0 && ValidManage(f)
  {
    var nw := Relief(f, Inspect(monkey.operation, w));
    Throw(if nw % monkey.testDiv == 0 then monkey.trueTo else monkey.falseTo, nw)
  }

  /** The throws of a whole queue, in inspection order. */
  function ThrowsOf(monkey: Monkey, f: Manage, items: seq<nat>): (r: seq<Throw>)
    requires monkey.testDiv > 0 && ValidManage(f)
    ensures |r| == |items|
    ensures forall i :: 0 <= i < |items| ==> r[i] == ThrowOf(monkey, f, items[i])
  {
    seq(|items|, i requires 0 <= i < |items| => ThrowOf(monkey, f, items[i]))
  }

  /** Appends each thrown worry to its receiver's queue, in order. */
  function Deliver(monkeys: seq<Monkey>, throws: seq<Throw>): (r: seq<Monkey>)
    requires forall i :: 0 <= i < |throws| ==> throws[i].target < |monkeys|
    ensures SameRules(monkeys, r)
  {
    if throws == [] then monkeys
    else
      var before := Deliver(monkeys, throws[..|throws| - 1]);
      var t := throws[|throws| - 1];
      before[t.target := before[t.target].(items := before[t.target].items + [t.worry])]
  }

  /** The worries among `throws` aimed at monkey `m`, in order. */
  function Received(throws: seq<Throw>, m: nat): seq<nat> {
    if throws == [] then []
    else
      var t := throws[|throws| - 1];
      Received(throws[..|throws| - 1], m) + (if t.target == m then [t.worry] else [])
  }

  /** Monkey `m`'s turn: it inspects its whole queue, then its throws are delivered. */
  function Turn(s: State, f: Manage, m: nat): (r: State)
    requires ValidTroop(s.monkeys) && |s.counts| == |s.monkeys| && m < |s.monkeys| && ValidManage(f)
    ensures |r.counts| == |s.counts| && SameRules(s.monkeys, r.monkeys) && ValidTroop(r.monkeys)
  {
    var monkey := s.monkeys[m];
    var throws := ThrowsOf(monkey, f, monkey.items);
    var emptied := s.monkeys[m := monkey.(items := [])];
    State(Deliver(emptied, throws), s.counts[m := s.counts[m] + |monkey.items|])
  }

  /** The first `k` turns of a round, in monkey order. */
  function TurnsUpTo(s: State, f: Manage, k: nat): (r: State)
    requires ValidTroop(s.monkeys) && |s.counts| == |s.monkeys| && k <= |s.monkeys| && ValidManage(f)
    ensures |r.counts| == |s.counts| && |r.monkeys| == |s.monkeys| && ValidTroop(r.monkeys)
  {
    if k == 0 then s else Turn(TurnsUpTo(s, f, k - 1), f, k - 1)
  }

  function Rounds(s: State, f: Manage, n: nat): (r: State)
    requires ValidTroop(s.monkeys) && |s.counts| == |s.monkeys| && ValidManage(f)
    ensures |r.counts| == |s.counts| && |r.monkeys| == |s.monkeys| && ValidTroop(r.monkeys)
  {
    if n == 0 then s
    else
      var before := Rounds(s, f, n - 1);
      TurnsUpTo(before, f, |before.monkeys|)
  }

  /** The troop as read, with nobody having inspected anything yet. */
  function Start(troop: seq<Monkey>): State {
    State(troop, seq(|troop|, _ => 0))
  }

  function Product(s: seq<int>): int {
    if s == [] then 1 else Product(s[..|s| - 1]) * s[|s| - 1]
  }

  /** The product of the two largest counts (or of all of them when there are fewer). */
  function MonkeyBusiness(counts: seq<nat>): int {
    Product(TakeLargest(Sort(counts), 2))
  }

  /**
   * One monkey's turn: pop every item off its queue, counting and
   * buffering the throws, then push each buffered worry onto its receiver.
   */
  method TakeTurn(monkeys: seq<Monkey>, counts: seq<nat>, f: Manage, m: nat)
    returns (monkeys': seq<Monkey>, counts': seq<nat>)
    requires ValidTroop(monkeys) && |counts| == |monkeys| && m < |monkeys| && ValidManage(f)
    ensures State(monkeys', counts') == Turn(State(monkeys, counts), f, m)
  {
    var buf;
    monkeys', counts', buf := InspectAll(monkeys, counts, f, m);
    monkeys' := DeliverAll(monkeys', buf);
  }

  /** The pop loop of a turn: empties monkey `m`'s queue into the throw buffer. */
  method InspectAll(monkeys: seq<Monkey>, counts: seq<nat>, f: Manage, m: nat)
    returns (monkeys': seq<Monkey>, counts': seq<nat>, buf: seq<Throw>)
    requires ValidTroop(monkeys) && |counts| == |monkeys| && m < |monkeys| && ValidManage(f)
    ensures monkeys' == monkeys[m := monkeys[m].(items := [])]
    ensures counts' == counts[m := counts[m] + |monkeys[m].items|]
    ensures buf == ThrowsOf(monkeys[m], f, monkeys[m].items)
  {
    monkeys', counts' := monkeys, counts;
    buf := [];
    ghost var queue := monkeys[m].items;
    ghost var k := 0;
    while |monkeys'[m].items| > 0
      invariant 0 <= k <= |queue|
      invariant monkeys' == monkeys[m := monkeys[m].(items := queue[k..])]
      invariant counts' == counts[m := counts[m] + k]
      invariant buf == ThrowsOf(monkeys[m], f, queue[..k])
      decreases |monkeys'[m].items|
    {
      var monkey := monkeys'[m];
      var worry := monkey.items[0];
      monkeys' := monkeys'[m := monkey.(items := monkey.items[1..])];
      counts' := counts'[m := counts'[m] + 1];
      var next := match monkey.operation
        case Plus(v) => worry + v
        case Multiply(v) => worry * v
        case Square => worry * worry;
      next := Relief(f, next);
      var target := if next % monkey.testDiv == 0 then monkey.trueTo else monkey.falseTo;
      buf := buf + [Throw(target, next)];
      assert queue[k..][1..] == queue[k + 1..];
      assert queue[..k + 1] == queue[..k] + [worry];
      k := k + 1;
    }
    assert queue[..k] == queue;
  }

  /** The push loop of a turn: hands each buffered worry to its receiver. */
  method DeliverAll(monkeys: seq<Monkey>, buf: seq<Throw>) returns (monkeys': seq<Monkey>)
    requires forall i :: 0 <= i < |buf| ==> buf[i].target < |monkeys|
    ensures monkeys' == Deliver(monkeys, buf)
  {
    monkeys' := monkeys;
    for j := 0 to |buf|
      invariant monkeys' == Deliver(monkeys, buf[..j])
    {
      var t := buf[j];
      monkeys' := monkeys'[t.target := monkeys'[t.target].(items := monkeys'[t.target].items + [t.worry])];
      assert buf[..j + 1][..j] == buf[..j];
    }
    assert buf[..|buf|] == buf;
  }

  /**
   * Runs `rounds` rounds over a copy of the troop and multiplies the two
   * largest inspection counts.
   */
  method Solve(troop: seq<Monkey>, rounds: nat, f: Manage) returns (business: int)
    requires ValidTroop(troop) && ValidManage(f)
    ensures business == MonkeyBusiness(Rounds(Start(troop), f, rounds).counts)
  {
    var monkeys := troop;
    var counts: seq<nat> := seq(|troop|, _ => 0);
    for r := 0 to rounds
      invariant State(monkeys, counts) == Rounds(Start(troop), f, r)
    {
      ghost var before := State(monkeys, counts);
      for m := 0 to |monkeys|
        invariant State(monkeys, counts) == TurnsUpTo(before, f, m)
      {
        monkeys, counts := TakeTurn(monkeys, counts, f, m);
      }
    }
    var sorted := Sort(counts);
    business := Product(TakeLargest(sorted, 2));
  }

  /** Part 1: twenty rounds, dividing worry by three after each inspection. */
  method Part1(troop: seq<Monkey>) returns (business: int)
    requires ValidTroop(troop)
    ensures business == MonkeyBusiness(Rounds(Start(troop), DivideBy3, 20).counts)
  {
    business := Solve(troop, 20, DivideBy3);
  }

  /**
   * Part 2: ten thousand rounds, reducing worry modulo the lcm of every
   * divisor, folded from the first monkey's divisor onwards.
   */
  method Part2(troop: seq<Monkey>) returns (business: int)
    requires ValidTroop(troop) && |troop| >= 1
    ensures exists l: nat ::
      CommonMultiple(troop, l) && business == MonkeyBusiness(Rounds(Start(troop), Modulo(l), 10000).counts)
  {
    var l := troop[0].testDiv;
    for i := 1 to |troop|
      invariant l > 0
      invariant forall j :: 0 <= j < i ==> Divides(troop[j].testDiv, l)
    {
      var next := Lcm(l, troop[i].testDiv);
      forall j | 0 <= j < i
        ensures Divides(troop[j].testDiv, next)
      {
        DividesTrans(troop[j].testDiv, l, next);
      }
      l := next;
    }
    business := Solve(troop, 10000, Modulo(l));
  }

  /** `l` is a positive multiple of every monkey's divisor. */
  predicate CommonMultiple(troop: seq<Monkey>, l: nat) {
    l > 0 && forall m :: 0 <= m < |troop| ==> Divides(troop[m].testDiv, l)
  }

  // ---------------------------------------------------------------------
  // What a turn does
  // ---------------------------------------------------------------------

  /** Delivering appends to each queue exactly the worries aimed at it, in order. */
  lemma {:induction false} DeliverAppends(monkeys: seq<Monkey>, throws: seq<Throw>, t: nat)
    requires forall i :: 0 <= i < |throws| ==> throws[i].target < |monkeys|
    requires t < |monkeys|
    ensures Deliver(monkeys, throws)[t].items == monkeys[t].items + Received(throws, t)
  {
    if throws != [] {
      DeliverAppends(monkeys, throws[..|throws| - 1], t);
    }
  }

  /**
   * A turn empties the monkey's queue and then appends to every queue the
   * worries thrown to it in inspection order; the monkey's count grows by
   * its queue length and no other count changes.
   */
  lemma TurnMeaning(s: State, f: Manage, m: nat, t: nat)
    requires ValidTroop(s.monkeys) && |s.counts| == |s.monkeys| && m < |s.monkeys| && ValidManage(f)
    requires t < |s.monkeys|
    ensures Turn(s, f, m).monkeys[t].items ==
      (if t == m then [] else s.monkeys[t].items) + Received(ThrowsOf(s.monkeys[m], f, s.monkeys[m].items), t)
    ensures Turn(s, f, m).counts[t] == s.counts[t] + (if t == m then |s.monkeys[m].items| else 0)
  {
    var monkey := s.monkeys[m];
    DeliverAppends(s.monkeys[m := monkey.(items := [])], ThrowsOf(monkey, f, monkey.items), t);
  }

  /** Nothing is received from throws that all aim elsewhere. */
  lemma {:induction false} ReceivedNone(throws: seq<Throw>, m: nat)
    requires forall i :: 0 <= i < |throws| ==> throws[i].target != m
    ensures Received(throws, m) == []
  {
    if throws != [] {
      ReceivedNone(throws[..|throws| - 1], m);
    }
  }

  /** A monkey that never throws to itself ends its turn with an empty queue. */
  lemma TurnEmptiesQueue(s: State, f: Manage, m: nat)
    requires ValidTroop(s.monkeys) && |s.counts| == |s.monkeys| && m < |s.monkeys| && ValidManage(f)
    requires s.monkeys[m].trueTo != m && s.monkeys[m].falseTo != m
    ensures Turn(s, f, m).monkeys[m].items == []
  {
    TurnMeaning(s, f, m, m);
    ReceivedNone(ThrowsOf(s.monkeys[m], f, s.monkeys[m].items), m);
  }

  /** The number of items held by the whole troop. */
  function TotalItems(monkeys: seq<Monkey>): nat {
    if monkeys == [] then 0 else TotalItems(monkeys[..|monkeys| - 1]) + |monkeys[|monkeys| - 1].items|
  }

  lemma {:induction false} TotalUpdate(monkeys: seq<Monkey>, i: nat, x: Monkey)
    requires i < |monkeys|
    ensures TotalItems(monkeys[i := x]) + |monkeys[i].items| == TotalItems(monkeys) + |x.items|
    decreases |monkeys|
  {
    var n := |monkeys|;
    if i < n - 1 {
      assert monkeys[i := x][..n - 1] == monkeys[..n - 1][i := x];
      TotalUpdate(monkeys[..n - 1], i, x);
    } else {
      assert monkeys[i := x][..n - 1] == monkeys[..n - 1];
    }
  }

  /** Each delivered throw adds exactly one item to the troop. */
  lemma {:induction false} DeliverTotal(monkeys: seq<Monkey>, throws: seq<Throw>)
    requires forall i :: 0 <= i < |throws| ==> throws[i].target < |monkeys|
    ensures TotalItems(Deliver(monkeys, throws)) == TotalItems(monkeys) + |throws|
  {
    if throws != [] {
      var before := Deliver(monkeys, throws[..|throws| - 1]);
      var t := throws[|throws| - 1];
      DeliverTotal(monkeys, throws[..|throws| - 1]);
      TotalUpdate(before, t.target, before[t.target].(items := before[t.target].items + [t.worry]));
    }
  }

  /** A turn neither creates nor loses items. */
  lemma TurnConserves(s: State, f: Manage, m: nat)
    requires ValidTroop(s.monkeys) && |s.counts| == |s.monkeys| && m < |s.monkeys| && ValidManage(f)
    ensures TotalItems(Turn(s, f, m).monkeys) == TotalItems(s.monkeys)
  {
    var monkey := s.monkeys[m];
    TotalUpdate(s.monkeys, m, monkey.(items := []));
    DeliverTotal(s.monkeys[m := monkey.(items := [])], ThrowsOf(monkey, f, monkey.items));
  }

  // ---------------------------------------------------------------------
  // Worry management and the answer
  // ---------------------------------------------------------------------

  /**
   * Reducing the worry of one inspection modulo a common multiple of the
   * divisors leaves that inspection's test, and so its receiver, unchanged.
   */
  lemma ModuloKeepsRouting(troop: seq<Monkey>, l: nat, m: nat, w: nat)
    requires ValidTroop(troop) && CommonMultiple(troop, l) && m < |troop|
    ensures var monkey := troop[m]; var raw := Inspect(monkey.operation, w);
      ThrowOf(monkey, Modulo(l), w).target == (if Divides(monkey.testDiv, raw) then monkey.trueTo else monkey.falseTo)
  {
    ModOfMod(Inspect(troop[m].operation, w), l, troop[m].testDiv);
  }

  /** A product's remainder depends only on the remainder of its first factor. */
  lemma ModMulLeft(a: nat, b: nat, l: nat)
    requires l > 0
    ensures (a * b) % l == ((a % l) * b) % l
  {
    var q, r := a / l, a % l;
    assert a == l * q + r;
    assert a * b == (l * q) * b + r * b;
    MulAssoc(l, q, b);
    ModShift(q * b, l, r * b);
  }

  /** Every operation maps worries that agree modulo `l` to worries that agree modulo `l`. */
  lemma InspectCongruent(op: Operation, c: nat, w: nat, l: nat)
    requires l > 0 && c % l == w % l
    ensures Inspect(op, c) % l == Inspect(op, w) % l
  {
    match op
    case Plus(v) =>
      ModPlus(c, v, l);
      ModPlus(w, v, l);
    case Multiply(v) =>
      ModMulLeft(c, v, l);
      ModMulLeft(w, v, l);
    case Square =>
      ModSquare(c, l);
      ModSquare(w, l);
  }

  lemma ModPlus(a: nat, v: nat, l: nat)
    requires l > 0
    ensures (a + v) % l == (a % l + v) % l
  {
    assert a + v == l * (a / l) + (a % l + v);
    ModShift(a / l, l, a % l + v);
  }

  lemma ModSquare(a: nat, l: nat)
    requires l > 0
    ensures (a * a) % l == ((a % l) * (a % l)) % l
  {
    var r := a % l;
    ModMulLeft(a, a, l);
    assert r * a == a * r;
    ModMulLeft(a, r, l);
  }

  /**
   * Part 2 carries each worry reduced modulo `l`. When the carried worry
   * `c` agrees modulo `l` with the unreduced worry `w`, one inspection
   * throws the item to the monkey the unreduced worry would reach, and the
   * carried new worry again agrees with the unreduced new worry modulo `l`.
   */
  lemma ReducedWorryTracksUnreduced(troop: seq<Monkey>, l: nat, m: nat, c: nat, w: nat)
    requires ValidTroop(troop) && CommonMultiple(troop, l) && m < |troop| && c % l == w % l
    ensures var monkey := troop[m]; var raw := Inspect(monkey.operation, w);
      var t := ThrowOf(monkey, Modulo(l), c);
      t.target == (if Divides(monkey.testDiv, raw) then monkey.trueTo else monkey.falseTo) &&
      t.worry % l == raw % l
  {
    var monkey := troop[m];
    var raw := Inspect(monkey.operation, w);
    InspectCongruent(monkey.operation, c, w, l);
    ModOfMod(raw, l, monkey.testDiv);
    ModOfMod(Inspect(monkey.operation, c), l, l);
  }

  /**
   * With at least two monkeys the answer multiplies the two counts at the
   * top of the sorted counts, which `Sorting.SortedTopTwo` shows are the
   * largest count and the largest of those left once one occurrence of it
   * is removed.
   */
  lemma MonkeyBusinessTopTwo(counts: seq<nat>)
    requires |counts| >= 2
    ensures var t := Sort(counts); MonkeyBusiness(counts) == t[|t| - 1] * t[|t| - 2]
  {
    ProductOfLargestTwo(Sort(counts));
  }

  lemma ProductOfLargestTwo(t: seq<int>)
    requires |t| >= 2
    ensures Product(TakeLargest(t, 2)) == t[|t| - 1] * t[|t| - 2]
  {
    var top := TakeLargest(t, 2);
    assert top == [t[|t| - 1], t[|t| - 2]];
    ProductOfTwo(top);
  }

  lemma ProductOfTwo(r: seq<int>)
    requires |r| == 2
    ensures Product(r) == r[0] * r[1]
  {
    assert r[..1][..0] == [];
    assert Product(r[..1]) == r[0];
  }
}
