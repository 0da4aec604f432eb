/**
 * The small pieces of Rust's `str` API that the puzzle parsers use, on
 * ASCII strings: `split` by a separator, `split_ascii_whitespace`,
 * `parse::<uN>()` / `parse::<iN>()` for decimal integers, and the decimal
 * rendering used by `Display`.
 */
module Text {
  import opened Wrappers

  // Bounds of the Rust integer types that the parsers target.
  const U8_MAX: nat := 255
  const U32_MAX: nat := 4294967295
  const U64_MAX: nat := 18446744073709551615
  const USIZE_MAX: nat := U64_MAX
  const I32_MIN: int := -2147483648
  const I32_MAX: int := 2147483647

  predicate IsDigit(c: char) { '0' <= c <= '9' }

  predicate AllDigits(s: string) { forall i :: 0 <= i < |s| ==> IsDigit(s[i]) }

  /** ASCII whitespace as `char::is_ascii_whitespace` defines it. */
  predicate IsAsciiSpace(c: char) {
    c == ' ' || c == '\t' || c == '\n' || c == '\r' || c == '\U{0C}'
  }

  function DigitValue(c: char): (d: nat)
    requires IsDigit(c)
    ensures d < 10
  {
    (c as int - '0' as int) as nat
  }

  function DigitChar(d: nat): (c: char)
    requires d < 10
    ensures IsDigit(c) && DigitValue(c) == d
  {
    ('0' as int + d) as char
  }

  /** The value of a run of decimal digits, most significant first. */
  function DigitsValue(s: string): nat
    requires AllDigits(s)
  {
    if s == [] then 0 else DigitsValue(s[..|s| - 1]) * 10 + DigitValue(s[|s| - 1])
  }

  /** Decimal rendering of a natural number, as `{}` formats an unsigned integer. */
  function Decimal(n: nat): (s: string)
    ensures |s| >= 1 && AllDigits(s)
  {
    if n < 10 then [DigitChar(n)] else Decimal(n / 10) + [DigitChar(n % 10)]
  }

  lemma {:induction false} DecimalValue(n: nat)
    ensures DigitsValue(Decimal(n)) == n
  {
    if n >= 10 {
      DecimalValue(n / 10);
      var s := Decimal(n);
      assert s[..|s| - 1] == Decimal(n / 10);
    }
  }

  /**
   * `str::parse` for an unsigned type whose largest value is `max`: an
   * optional `+`, then at least one decimal digit, and the value in range.
   */
  function ParseUnsigned(s: string, max: nat): (r: Option<nat>)
    ensures r.Some? ==> r.value <= max
    ensures r.Some? ==> |s| >= 1
  {
    var digits := if |s| > 0 && s[0] == '+' then s[1..] else s;
    if digits == [] || !AllDigits(digits) then None
    else if DigitsValue(digits) <= max then Some(DigitsValue(digits))
    else None
  }

  /** `str::parse` for a signed type with range [min, max]: an optional sign, then digits. */
  function ParseSigned(s: string, min: int, max: int): (r: Option<int>)
    ensures r.Some? ==> min <= r.value <= max
  {
    var negative := |s| > 0 && s[0] == '-';
    var digits := if |s| > 0 && (s[0] == '+' || s[0] == '-') then s[1..] else s;
    if digits == [] || !AllDigits(digits) then None
    else
      var v: int := if negative then 0 - DigitsValue(digits) as int else DigitsValue(digits);
      if min <= v <= max then Some(v) else None
  }

  lemma ParseDecimal(n: nat, max: nat)
    requires n <= max
    ensures ParseUnsigned(Decimal(n), max) == Some(n)
  {
    DecimalValue(n);
  }

  /** `sep` occurs in `s` starting at index `j`. */
  predicate MatchAt(s: string, sep: string, j: int) {
    0 <= j && j + |sep| <= |s| && s[j..j + |sep|] == sep
  }

  lemma MatchAtShift(s: string, sep: string, j: nat)
    requires |s| > 0
    ensures MatchAt(s, sep, j + 1) <==> MatchAt(s[1..], sep, j)
  {
    if j + 1 + |sep| <= |s| {
      assert s[j + 1..j + 1 + |sep|] == s[1..][j..j + |sep|];
    }
  }

  /** Index of the first occurrence of `sep` in `s`, if any. */
  function Find(s: string, sep: string): (r: Option<nat>)
    requires |sep| > 0
    ensures r.Some? ==> MatchAt(s, sep, r.value)
    ensures r.Some? ==> forall j :: 0 <= j < r.value ==> !MatchAt(s, sep, j)
    ensures r.None? ==> forall j :: !MatchAt(s, sep, j)
    decreases |s|
  {
    if |s| < |sep| then None
    else if s[..|sep|] == sep then Some(0)
    else
      var r := Find(s[1..], sep);
      forall j: int | j >= 1 ensures MatchAt(s, sep, j) <==> MatchAt(s[1..], sep, j - 1) {
        MatchAtShift(s, sep, j - 1);
      }
      assert !MatchAt(s, sep, 0);
      if r.None? then None else Some(r.value + 1)
  }

  /**
   * `s.split(sep)`: the pieces between the leftmost non-overlapping
   * occurrences of `sep`, empty pieces included; there is always one more
   * piece than there are separators.
   */
  function SplitOn(s: string, sep: string): (r: seq<string>)
    requires |sep| > 0
    ensures |r| >= 1
    decreases |s|
  {
    match Find(s, sep)
    case None => [s]
    case Some(i) => [s[..i]] + SplitOn(s[i + |sep|..], sep)
  }

  /** `s.split(c)` for a single-character separator. */
  function Split(s: string, c: char): (r: seq<string>)
    ensures |r| >= 1
  {
    SplitOn(s, [c])
  }

  function Join(pieces: seq<string>, sep: string): string
    requires |pieces| >= 1
  {
    if |pieces| == 1 then pieces[0] else pieces[0] + sep + Join(pieces[1..], sep)
  }

  /** Splitting loses nothing: joining the pieces with the separator gives back the text. */
  lemma {:induction false} JoinSplit(s: string, sep: string)
    requires |sep| > 0
    ensures Join(SplitOn(s, sep), sep) == s
    decreases |s|
  {
    match Find(s, sep)
    case None =>
    case Some(i) =>
      var a, b := s[..i], s[i + |sep|..];
      var rest := SplitOn(b, sep);
      JoinSplit(b, sep);
      assert SplitOn(s, sep) == [a] + rest;
      assert ([a] + rest)[0] == a && ([a] + rest)[1..] == rest;
      assert Join([a] + rest, sep) == a + sep + Join(rest, sep);
      assert s[i..i + |sep|] == sep;
      assert s == a + s[i..i + |sep|] + b;
  }

  /** No piece of a split contains the separator. */
  lemma {:induction false} SplitPiecesFree(s: string, sep: string, k: nat)
    requires |sep| > 0 && k < |SplitOn(s, sep)|
    ensures Find(SplitOn(s, sep)[k], sep).None?
    decreases |s|
  {
    match Find(s, sep)
    case None =>
    case Some(i) =>
      if k == 0 {
        FirstPieceFree(s, sep, i);
      } else {
        SplitPiecesFree(s[i + |sep|..], sep, k - 1);
      }
  }

  lemma FirstPieceFree(s: string, sep: string, i: nat)
    requires |sep| > 0 && Find(s, sep) == Some(i)
    ensures forall j :: !MatchAt(s[..i], sep, j)
  {
    var p := s[..i];
    forall j ensures !MatchAt(p, sep, j) {
      if 0 <= j && j + |sep| <= |p| {
        assert p[j..j + |sep|] == s[j..j + |sep|];
        assert !MatchAt(s, sep, j);
      }
    }
  }

  /** Length of the leading run of non-whitespace characters. */
  function WordLength(s: string): (n: nat)
    ensures n <= |s|
    ensures forall i :: 0 <= i < n ==> !IsAsciiSpace(s[i])
    ensures n < |s| ==> IsAsciiSpace(s[n])
  {
    if s == [] || IsAsciiSpace(s[0]) then 0 else 1 + WordLength(s[1..])
  }

  /** `s.split_ascii_whitespace()`: the maximal runs of non-whitespace characters. */
  function Words(s: string): (ws: seq<string>)
    ensures forall k :: 0 <= k < |ws| ==> |ws[k]| > 0
    ensures forall k, i :: 0 <= k < |ws| && 0 <= i < |ws[k]| ==> !IsAsciiSpace(ws[k][i])
    decreases |s|
  {
    if s == [] then []
    else if IsAsciiSpace(s[0]) then Words(s[1..])
    else
      var n := WordLength(s);
      [s[..n]] + Words(s[n..])
  }

  /** A non-empty run of non-whitespace characters. */
  predicate IsWord(w: string) {
    |w| > 0 && forall i :: 0 <= i < |w| ==> !IsAsciiSpace(w[i])
  }

  /** A written number is one word. */
  lemma DecimalIsWord(n: nat)
    ensures IsWord(Decimal(n))
  {
    var d := Decimal(n);
    forall i | 0 <= i < |d| ensures !IsAsciiSpace(d[i]) {
      assert IsDigit(d[i]);
    }
  }

  /** Words separated by single spaces come back as they were written. */
  lemma {:induction false} WordsOfSpaced(ws: seq<string>)
    requires |ws| >= 1
    requires forall k :: 0 <= k < |ws| ==> IsWord(ws[k])
    ensures Words(Join(ws, " ")) == ws
  {
    var w := ws[0];
    WordLengthOf(w, if |ws| == 1 then "" else " " + Join(ws[1..], " "));
    if |ws| == 1 {
      assert Join(ws, " ") == w + "";
      assert w + "" == w;
      assert w[|w|..] == [];
    } else {
      var rest := Join(ws[1..], " ");
      var s := w + (" " + rest);
      assert Join(ws, " ") == s;
      assert s[..|w|] == w;
      assert s[|w|..] == " " + rest;
      assert (" " + rest)[1..] == rest;
      WordsOfSpaced(ws[1..]);
    }
  }

  lemma {:induction false} WordLengthOf(w: string, rest: string)
    requires forall i :: 0 <= i < |w| ==> !IsAsciiSpace(w[i])
    requires rest == [] || IsAsciiSpace(rest[0])
    ensures WordLength(w + rest) == |w|
  {
    if w != [] {
      assert (w + rest)[1..] == w[1..] + rest;
      WordLengthOf(w[1..], rest);
    }
  }

  /** Decimal rendering of a signed integer, as `{}` formats an `i32`. */
  function SignedDecimal(n: int): (s: string)
    ensures |s| >= 1
  {
    if n < 0 then "-" + Decimal(-n) else Decimal(n)
  }

  /** A written signed number is one word. */
  lemma SignedDecimalIsWord(n: int)
    ensures IsWord(SignedDecimal(n))
  {
    var d := Decimal(if n < 0 then -n else n);
    DecimalIsWord(if n < 0 then -n else n);
    if n < 0 {
      var s := "-" + d;
      assert SignedDecimal(n) == s;
      forall i | 0 <= i < |s| ensures !IsAsciiSpace(s[i]) {
        if i > 0 {
          assert s[i] == d[i - 1];
        }
      }
    }
  }

  lemma ParseSignedDecimal(n: int, min: int, max: int)
    requires min <= n <= max
    ensures ParseSigned(SignedDecimal(n), min, max) == Some(n)
  {
    var s := SignedDecimal(n);
    if n < 0 {
      var d := Decimal(-n);
      assert s == "-" + d;
      assert s[0] == '-' && s[1..] == d;
      DecimalValue(-n);
      assert 0 - DigitsValue(d) as int == n;
    } else {
      assert s == Decimal(n);
      assert IsDigit(s[0]);
      DecimalValue(n);
    }
  }

  /**
   * Splitting the joined pieces gives them back, provided no piece contains
   * the separator's first character.
   */
  lemma {:induction false} SplitJoin(pieces: seq<string>, sep: string)
    requires |pieces| >= 1 && |sep| > 0
    requires forall k :: 0 <= k < |pieces| ==> sep[0] !in pieces[k]
    ensures SplitOn(Join(pieces, sep), sep) == pieces
  {
    var p := pieces[0];
    if |pieces| == 1 {
      NoMatchBefore(p, sep, |p|);
    } else {
      var rest := Join(pieces[1..], sep);
      var s := p + sep + rest;
      assert Join(pieces, sep) == s;
      NoMatchBefore(s, sep, |p|);
      assert s[|p|..|p| + |sep|] == sep;
      assert MatchAt(s, sep, |p|);
      assert Find(s, sep) == Some(|p|);
      assert s[..|p|] == p;
      assert s[|p| + |sep|..] == rest;
      SplitJoin(pieces[1..], sep);
    }
  }

  lemma NoMatchBefore(s: string, sep: string, n: nat)
    requires |sep| > 0 && n <= |s|
    requires sep[0] !in s[..n]
    ensures forall j :: 0 <= j < n ==> !MatchAt(s, sep, j)
    ensures n == |s| ==> Find(s, sep).None?
  {
    forall j | 0 <= j < n ensures !MatchAt(s, sep, j) {
      assert s[..n][j] == s[j];
      MatchAtStart(s, sep, j);
    }
    if n == |s| {
      assert s[..n] == s;
    }
  }

  lemma MatchAtStart(s: string, sep: string, j: int)
    requires |sep| > 0
    ensures MatchAt(s, sep, j) ==> s[j] == sep[0]
  {
    if MatchAt(s, sep, j) {
      assert s[j..j + |sep|][0] == s[j];
    }
  }
}
