/**
 * Day 2, "Rock Paper Scissors": a strategy guide of rounds "A Y", scored as
 * the shape you play plus the outcome of the round. Part 1 reads X/Y/Z as
 * the shape to play, part 2 as the outcome to reach.
 */
module Day02 {
  import opened Wrappers
  import opened Text

  datatype Shape = Rock | Paper | Scissors {
    /** The shape's own score, 1 to 3. */
    function Score(): (s: nat)
      ensures 1 <= s <= 3
      ensures s == 1 <==> this == Rock
      ensures s == 2 <==> this == Paper
    {
      match this
      case Rock => 1
      case Paper => 2
      case Scissors => 3
    }

    /** The shape this one beats (the Rust name `loose` is kept in spirit: playing it loses). */
    function Loose(): Shape {
      match this
      case Rock => Scissors
      case Paper => Rock
      case Scissors => Paper
    }

    /** Playing the same shape draws: neither shape beats the other. */
    function Draw(): (s: Shape)
      ensures !s.IsWin(this) && !this.IsWin(s)
      ensures Beats(s, this) == false && Beats(this, s) == false
    {
      this
    }

    /** The shape that beats this one. */
    function Win(): Shape {
      match this
      case Rock => Paper
      case Paper => Scissors
      case Scissors => Rock
    }

    /** `is_win`: this shape beats `other`. */
    predicate IsWin(other: Shape) {
      this == other.Win()
    }
  }

  /** The rules of the game, written independently of `Win`/`Loose`: rock crushes scissors, and so on. */
  predicate Beats(a: Shape, b: Shape) {
    (a, b) in {(Rock, Scissors), (Paper, Rock), (Scissors, Paper)}
  }

  /** `win` and `loose` follow the rules and undo each other. */
  lemma WinLooseRules(s: Shape)
    ensures Beats(s.Win(), s) && Beats(s, s.Loose())
    ensures s.Win().Loose() == s && s.Loose().Win() == s
    ensures s.Win() != s && s.Loose() != s && s.Win() != s.Loose()
  {
  }

  /** `you.is_win(opp)` holds exactly when the rules say `you` beats `opp`. */
  lemma IsWinIsBeats(you: Shape, opp: Shape)
    ensures you.IsWin(opp) <==> Beats(you, opp)
  {
  }

  /** Every round has exactly one outcome: a draw, a win or a loss. */
  lemma OneOutcome(you: Shape, opp: Shape)
    ensures (you == opp) || Beats(you, opp) || Beats(opp, you)
    ensures !(Beats(you, opp) && Beats(opp, you)) && !(you == opp && Beats(you, opp))
  {
  }

  /** The score of one round: the shape played plus 3 for a draw and 6 for a win. */
  function RoundScore(opp: Shape, you: Shape): (r: nat)
    ensures 1 <= r <= 9
    ensures r == you.Score() + (if you == opp then 3 else if Beats(you, opp) then 6 else 0)
  {
    var outcome := if opp == you then 3 else if you.IsWin(opp) then 6 else 0;
    you.Score() + outcome
  }

  datatype Strategy = X | Y | Z

  datatype Round = Round(opp: Shape, strat: Strategy)

  /** `solve`: the total score of the rounds when `choose` picks the shape to play. */
  function Solve(input: seq<Round>, choose: (Shape, Strategy) -> Shape): (total: nat)
    ensures |input| <= total <= 9 * |input|
  {
    if input == [] then 0
    else
      var r := input[|input| - 1];
      Solve(input[..|input| - 1], choose) + RoundScore(r.opp, choose(r.opp, r.strat))
  }

  /** Part 1: X, Y and Z name the shape to play. */
  function Part1Choice(opp: Shape, strat: Strategy): Shape {
    match strat
    case X => Rock
    case Y => Paper
    case Z => Scissors
  }

  /** Part 2: X means lose, Y draw and Z win. */
  function Part2Choice(opp: Shape, strat: Strategy): (you: Shape)
    ensures strat == X <==> Beats(opp, you)
    ensures strat == Y <==> you == opp
    ensures strat == Z <==> Beats(you, opp)
  {
    match strat
    case X => opp.Loose()
    case Y => opp.Draw()
    case Z => opp.Win()
  }

  function Part1(input: seq<Round>): nat { Solve(input, Part1Choice) }

  function Part2(input: seq<Round>): nat { Solve(input, Part2Choice) }

  /** Part 2 rounds score the outcome that the strategy letter asks for: 0, 3 or 6 plus the shape. */
  lemma Part2RoundScore(opp: Shape, strat: Strategy)
    ensures RoundScore(opp, Part2Choice(opp, strat)) ==
              Part2Choice(opp, strat).Score() + match strat case X => 0 case Y => 3 case Z => 6
  {
  }

  /**
   * `char::is_whitespace`: the Unicode White_Space property. Besides the
   * ASCII whitespace it holds for the vertical tab, U+0085, the no-break
   * spaces and the typographic spaces and separators.
   */
  predicate IsWhiteSpace(c: char) {
    ('\t' <= c <= '\r') || c == ' ' || c == '\U{85}' || c == '\U{A0}' || c == '\U{1680}'
    || ('\U{2000}' <= c <= '\U{200A}') || c == '\U{2028}' || c == '\U{2029}'
    || c == '\U{202F}' || c == '\U{205F}' || c == '\U{3000}'
  }

  /** Length of the leading run of characters that are not Unicode white space. */
  function UnicodeWordLength(s: string): (n: nat)
    ensures n <= |s|
    ensures forall i :: 0 <= i < n ==> !IsWhiteSpace(s[i])
    ensures n < |s| ==> IsWhiteSpace(s[n])
  {
    if s == [] || IsWhiteSpace(s[0]) then 0 else 1 + UnicodeWordLength(s[1..])
  }

  /** `s.split_whitespace()`: the maximal runs of characters that are not Unicode white space. */
  function UnicodeWords(s: string): (ws: seq<string>)
    ensures forall k :: 0 <= k < |ws| ==> |ws[k]| > 0
    ensures forall k, i :: 0 <= k < |ws| && 0 <= i < |ws[k]| ==> !IsWhiteSpace(ws[k][i])
    decreases |s|
  {
    if s == [] then []
    else if IsWhiteSpace(s[0]) then UnicodeWords(s[1..])
    else
      var n := UnicodeWordLength(s);
      [s[..n]] + UnicodeWords(s[n..])
  }

  /** On text where the two notions of whitespace agree, both splits give the same words. */
  lemma {:induction false} UnicodeWordsAgree(s: string)
    requires forall i :: 0 <= i < |s| ==> (IsWhiteSpace(s[i]) <==> IsAsciiSpace(s[i]))
    ensures UnicodeWords(s) == Words(s)
    decreases |s|
  {
    if s != [] {
      if IsWhiteSpace(s[0]) {
        UnicodeWordsAgree(s[1..]);
      } else {
        WordLengthsAgree(s);
        var n := WordLength(s);
        UnicodeWordsAgree(s[n..]);
      }
    }
  }

  lemma {:induction false} WordLengthsAgree(s: string)
    requires forall i :: 0 <= i < |s| ==> (IsWhiteSpace(s[i]) <==> IsAsciiSpace(s[i]))
    ensures UnicodeWordLength(s) == WordLength(s)
  {
    if s != [] && !IsWhiteSpace(s[0]) {
      WordLengthsAgree(s[1..]);
    }
  }

  /**
   * `FromStr for Round`: the first two words of `split_whitespace`, A/B/C
   * then X/Y/Z; later words are ignored.
   */
  function ParseRound(s: string): (r: Result<Round>)
    ensures var ws := UnicodeWords(s);
      r.Ok? <==> |ws| >= 2 && ws[0] in {"A", "B", "C"} && ws[1] in {"X", "Y", "Z"}
    ensures r.Ok? ==> OpponentLetter(r.value.opp) == UnicodeWords(s)[0]
    ensures r.Ok? ==> StrategyLetter(r.value.strat) == UnicodeWords(s)[1]
  {
    var ws := UnicodeWords(s);
    var opp :=
      if |ws| >= 1 && ws[0] == "A" then Some(Rock)
      else if |ws| >= 1 && ws[0] == "B" then Some(Paper)
      else if |ws| >= 1 && ws[0] == "C" then Some(Scissors)
      else None;
    if opp.None? then Err("Unknown opponent")
    else if |ws| >= 2 && ws[1] == "X" then Ok(Round(opp.value, X))
    else if |ws| >= 2 && ws[1] == "Y" then Ok(Round(opp.value, Y))
    else if |ws| >= 2 && ws[1] == "Z" then Ok(Round(opp.value, Z))
    else Err("Unknown strategy")
  }

  function OpponentLetter(o: Shape): string {
    match o case Rock => "A" case Paper => "B" case Scissors => "C"
  }

  function StrategyLetter(x: Strategy): string {
    match x case X => "X" case Y => "Y" case Z => "Z"
  }

  function RenderRound(r: Round): string {
    OpponentLetter(r.opp) + " " + StrategyLetter(r.strat)
  }

  /** A round written as in the guide parses back to itself. */
  lemma RoundRoundTrip(r: Round)
    ensures ParseRound(RenderRound(r)) == Ok(r)
  {
    var a, b := OpponentLetter(r.opp), StrategyLetter(r.strat);
    assert UnicodeWords(RenderRound(r)) == [a, b] by {
      assert RenderRound(r) == Join([a, b], " ");
      WordsOfSpaced([a, b]);
      UnicodeWordsAgree(RenderRound(r));
    }
    ParseRoundOfWords(RenderRound(r), r);
  }

  lemma ParseRoundOfWords(s: string, r: Round)
    requires UnicodeWords(s) == [OpponentLetter(r.opp), StrategyLetter(r.strat)]
    ensures ParseRound(s) == Ok(r)
  {
    var ws := UnicodeWords(s);
    assert ws[0][0] == OpponentLetter(r.opp)[0] && ws[1][0] == StrategyLetter(r.strat)[0];
    assert "A"[0] == 'A' && "B"[0] == 'B' && "C"[0] == 'C';
    assert "X"[0] == 'X' && "Y"[0] == 'Y' && "Z"[0] == 'Z';
  }

  /** Only A/B/C are opponents: a line opening with anything else is an error. */
  lemma ParseRejectsUnknown(s: string)
    requires |UnicodeWords(s)| >= 1 && UnicodeWords(s)[0] !in {"A", "B", "C"}
    ensures ParseRound(s) == Err("Unknown opponent")
  {
  }

  /** The worked example "A Y", "B X", "C Z": 15 with part 1 and 12 with part 2. */
  lemma Example(input: seq<Round>)
    requires input == [Round(Rock, Y), Round(Paper, X), Round(Scissors, Z)]
    ensures Part1(input) == 15 && Part2(input) == 12
  {
    assert input[..2][..1][..0] == [];
    assert input[..2][..1] == input[..1] && input[..|input| - 1] == input[..2];
    assert Part1(input[..1]) == 8 && Part2(input[..1]) == 4;
    assert Part1(input[..2]) == 9 && Part2(input[..2]) == 5;
  }
}
