/**
 * Day 6: finding the start-of-packet and start-of-message markers in the
 * datastream, the first position after a window of pairwise distinct
 * characters. Part 1 looks at windows of 4 characters that stop at the end
 * of the stream; part 2 at windows of 14 characters that wrap around to the
 * start (`chars().cycle()`).
 */
module Day06 {
  import opened Wrappers

  /** The characters of `w`, as the `BTreeSet` collected from a window. */
  function Elems(w: string): (r: set<char>)
    ensures forall c :: c in r <==> c in w
  {
    if w == [] then {} else Elems(w[..|w| - 1]) + {w[|w| - 1]}
  }

  predicate Distinct(w: string) {
    forall a, b :: 0 <= a < b < |w| ==> w[a] != w[b]
  }

  /**
   * The set of a window has as many characters as the window exactly when
   * they are pairwise distinct, and never more.
   */
  lemma {:induction false} ElemsCount(w: string)
    ensures |Elems(w)| <= |w|
    ensures |Elems(w)| == |w| <==> Distinct(w)
  {
    if w != [] {
      var p, x := w[..|w| - 1], w[|w| - 1];
      assert w == p + [x];
      ElemsCount(p);
      DistinctSnoc(p, x);
      if x in p {
        assert Elems(w) == Elems(p);
      } else {
        assert x !in Elems(p);
      }
    }
  }

  /** A window stays pairwise distinct when a character not in it is added, and only then. */
  lemma DistinctSnoc(p: string, x: char)
    ensures Distinct(p + [x]) <==> Distinct(p) && x !in p
  {
    var w := p + [x];
    if Distinct(w) {
      forall a, b | 0 <= a < b < |p| ensures p[a] != p[b] {
        assert p[a] == w[a] && p[b] == w[b];
      }
    }
    if x in p {
      var a :| 0 <= a < |p| && p[a] == x;
      assert w[a] == w[|p|];
    }
    if Distinct(p) && x !in p {
      forall a, b | 0 <= a < b < |w| ensures w[a] != w[b] {
        if b == |p| {
          assert w[a] == p[a];
        } else {
          assert w[a] == p[a] && w[b] == p[b];
        }
      }
    }
  }

  /**
   * The `k` characters starting at `i`: `skip(i).take(k)` over the stream,
   * or over the endlessly repeated stream when `cyclic`. Without wrapping a
   * window near the end is cut short.
   */
  function WindowAt(s: string, i: nat, k: nat, cyclic: bool): (w: string)
    ensures |w| <= k
  {
    if !cyclic then s[if i < |s| then i else |s|..if i + k < |s| then i + k else |s|]
    else if s == [] then []
    else seq(k, j requires 0 <= j < k => s[(i + j) % |s|])
  }

  /** A marker window: complete, and its characters pairwise distinct. */
  predicate IsMarker(s: string, i: nat, k: nat, cyclic: bool) {
    |WindowAt(s, i, k, cyclic)| == k && Distinct(WindowAt(s, i, k, cyclic))
  }

  /**
   * The source's check, that the set collected from the window holds `k`
   * characters, picks exactly the marker windows.
   */
  lemma MarkerIsSetSize(s: string, i: nat, k: nat, cyclic: bool)
    ensures IsMarker(s, i, k, cyclic) <==> |Elems(WindowAt(s, i, k, cyclic))| == k
  {
    ElemsCount(WindowAt(s, i, k, cyclic));
  }

  /**
   * The loop `for i in 0..len` from position `i` on: the start of the first
   * marker window, if one starts before the end of the stream.
   */
  function FirstMarker(s: string, k: nat, cyclic: bool, i: nat): (r: Option<nat>)
    requires i <= |s|
    ensures r.Some? ==> i <= r.value < |s| && IsMarker(s, r.value, k, cyclic)
    ensures forall j :: i <= j < r.GetOr(|s|) ==> !IsMarker(s, j, k, cyclic)
    decreases |s| - i
  {
    if i == |s| then None
    else if IsMarker(s, i, k, cyclic) then Some(i)
    else FirstMarker(s, k, cyclic, i + 1)
  }

  /** The answer: the position just after the first marker, or 0 when there is none. */
  function Search(s: string, k: nat, cyclic: bool): nat {
    match FirstMarker(s, k, cyclic, 0)
    case Some(m) => m + k
    case None => 0
  }

  /** Part 1: the end of the first 4-character window of distinct characters. */
  function Part1(s: string): nat {
    Search(s, 4, false)
  }

  /** Part 2: the end of the first 14-character wrapping window of distinct characters. */
  function Part2(s: string): nat {
    Search(s, 14, true)
  }

  /**
   * Part 1 in plain terms: a nonzero answer `r` ends a window `s[r-4..r]` of
   * distinct characters inside the stream, and no such window ends earlier;
   * 0 means there is none.
   */
  lemma Part1Meaning(s: string)
    ensures Part1(s) != 0 ==> 4 <= Part1(s) <= |s| && Distinct(s[Part1(s) - 4..Part1(s)])
    ensures forall j :: 0 <= j && j + 4 <= |s| && DistinctAt(s, j, 4) ==> Part1(s) != 0 && Part1(s) <= j + 4
  {
    var r := Part1(s);
    forall j | 0 <= j && j + 4 <= |s| && DistinctAt(s, j, 4) ensures r != 0 && r <= j + 4 {
      assert IsMarker(s, j, 4, false);
    }
  }

  /**
   * Part 2 in plain terms: a nonzero answer `r` ends a wrapping window of 14
   * distinct characters starting before the end of the stream; any 14
   * distinct characters lying inside the stream bound the answer.
   */
  lemma Part2Meaning(s: string)
    ensures Part2(s) != 0 ==> 14 <= Part2(s) < |s| + 14 && Distinct(WindowAt(s, Part2(s) - 14, 14, true))
    ensures forall j :: 0 <= j && j + 14 <= |s| && DistinctAt(s, j, 14) ==> Part2(s) != 0 && Part2(s) <= j + 14
  {
    var r := Part2(s);
    forall j | 0 <= j && j + 14 <= |s| && DistinctAt(s, j, 14) ensures r != 0 && r <= j + 14 {
      MarkerAt(s, j, 14, true);
    }
  }

  /** The `k` characters from `j` on are distinct. */
  predicate DistinctAt(s: string, j: nat, k: nat)
    requires j + k <= |s|
  {
    Distinct(s[j..j + k])
  }

  /**
   * Away from the end of the stream the wrapping window of part 2 is the
   * plain slice.
   */
  lemma CyclicInside(s: string, i: nat, k: nat)
    requires i + k <= |s|
    ensures WindowAt(s, i, k, true) == s[i..i + k] == WindowAt(s, i, k, false)
  {
    if s != [] {
      var w := WindowAt(s, i, k, true);
      forall j | 0 <= j < k ensures w[j] == s[i + j] {
        assert (i + j) % |s| == i + j;
      }
    }
  }

  /** A wrapping window takes its characters from the stream, so it holds no more distinct ones. */
  lemma CyclicWithin(s: string, i: nat, k: nat)
    ensures Elems(WindowAt(s, i, k, true)) <= Elems(s)
  {
    var w := WindowAt(s, i, k, true);
    if s != [] {
      forall c | c in Elems(w) ensures c in Elems(s) {
        var j :| 0 <= j < |w| && w[j] == c;
        var m := (i + j) % |s|;
        assert 0 <= m < |s| && w[j] == s[m];
      }
    }
  }

  /** A stream shorter than 14 characters has no start-of-message marker: part 2 is 0. */
  lemma Part2Short(s: string)
    requires |s| < 14
    ensures Part2(s) == 0
  {
    forall j | 0 <= j < |s| ensures !IsMarker(s, j, 14, true) {
      MarkerIsSetSize(s, j, 14, true);
      CyclicWithin(s, j, 14);
      ElemsCount(s);
      SubsetCard(Elems(WindowAt(s, j, 14, true)), Elems(s));
    }
  }

  lemma SubsetCard(a: set<char>, b: set<char>)
    requires a <= b
    ensures |a| <= |b|
  {
    assert b == a + (b - a);
  }

  /** A window with a repeated character, at positions `a` and `b`, is no marker. */
  lemma NoMarkerAt(s: string, i: nat, k: nat, cyclic: bool, a: nat, b: nat)
    requires i + k <= |s| && a < b < k && s[i + a] == s[i + b]
    ensures !IsMarker(s, i, k, cyclic)
  {
    CyclicInside(s, i, k);
    assert WindowAt(s, i, k, cyclic)[a] == WindowAt(s, i, k, cyclic)[b];
  }

  /** A window of distinct characters inside the stream is a marker. */
  lemma MarkerAt(s: string, i: nat, k: nat, cyclic: bool)
    requires i + k <= |s| && Distinct(s[i..i + k])
    ensures IsMarker(s, i, k, cyclic)
  {
    CyclicInside(s, i, k);
  }

  /** The search stops at the first marker. */
  lemma SearchFinds(s: string, k: nat, cyclic: bool, m: nat)
    requires m < |s| && IsMarker(s, m, k, cyclic)
    requires forall j :: 0 <= j < m ==> !IsMarker(s, j, k, cyclic)
    ensures Search(s, k, cyclic) == m + k
  {
    assert FirstMarker(s, k, cyclic, 0) == Some(m);
  }

  /** The worked example, part 1: the start-of-packet marker ends after character 7. */
  lemma ExamplePart1(s: string)
    requires s == "mjqjpqmgbljsphdztnvjfqwrcgsmlb"
    ensures Part1(s) == 7
  {
    forall j | 0 <= j < 3 ensures !IsMarker(s, j, 4, false) {
      ExampleRepeat4(s, j);
    }
    ExampleDistinct4(s);
    MarkerAt(s, 3, 4, false);
    SearchFinds(s, 4, false, 3);
  }

  /** The worked example, part 2: the start-of-message marker ends after character 19. */
  lemma ExamplePart2(s: string)
    requires s == "mjqjpqmgbljsphdztnvjfqwrcgsmlb"
    ensures Part2(s) == 19
  {
    forall j | 0 <= j < 5 ensures !IsMarker(s, j, 14, true) {
      ExampleRepeat14(s, j);
    }
    ExampleDistinctMessage(s);
    MarkerAt(s, 5, 14, true);
    SearchFinds(s, 14, true, 5);
  }

  /** Each of the first three 4-character windows of the example repeats a character. */
  lemma ExampleRepeat4(s: string, j: nat)
    requires |s| == 30 && j < 3
    requires s[1] == s[3] && s[2] == s[5]
    ensures !IsMarker(s, j, 4, false)
  {
    var a, b := if j == 0 then 1 else 0, if j == 0 then 3 else if j == 1 then 2 else 3;
    NoMarkerAt(s, j, 4, false, a, b);
  }

  /** Each of the first five 14-character windows of the example repeats a character. */
  lemma ExampleRepeat14(s: string, j: nat)
    requires |s| == 30 && j < 5
    requires s[0] == s[6] && s[1] == s[3] && s[2] == s[5] && s[3] == s[10] && s[4] == s[12]
    ensures !IsMarker(s, j, 14, true)
  {
    var b := if j == 0 then 6 else if j == 1 then 2 else if j == 2 then 3 else if j == 3 then 7 else 8;
    NoMarkerAt(s, j, 14, true, 0, b);
  }

  /**
   * A check that can be evaluated on a concrete stream: no two of the
   * characters at positions `i..hi` are equal, scanning the pairs `(i, j)`
   * with `j` running ahead of `i`.
   */
  predicate PairsDiffer(s: string, hi: nat, i: nat, j: nat)
    requires hi <= |s|
    decreases hi - i, hi - j
  {
    if i >= hi then true
    else if j >= hi then PairsDiffer(s, hi, i + 1, i + 2)
    else s[i] != s[j] && PairsDiffer(s, hi, i, j + 1)
  }

  lemma {:induction false} PairsDifferMeans(s: string, hi: nat, i: nat, j: nat)
    requires hi <= |s| && PairsDiffer(s, hi, i, j) && i < j
    ensures forall a, b :: i <= a < b < hi && (a > i || b >= j) ==> s[a] != s[b]
    decreases hi - i, hi - j
  {
    if i >= hi {
    } else if j >= hi {
      PairsDifferMeans(s, hi, i + 1, i + 2);
    } else {
      PairsDifferMeans(s, hi, i, j + 1);
    }
  }

  lemma DistinctSlice(s: string, lo: nat, hi: nat)
    requires lo < hi <= |s| && PairsDiffer(s, hi, lo, lo + 1)
    ensures Distinct(s[lo..hi])
  {
    PairsDifferMeans(s, hi, lo, lo + 1);
    var w := s[lo..hi];
    forall a, b | 0 <= a < b < |w| ensures w[a] != w[b] {
      assert w[a] == s[lo + a] && w[b] == s[lo + b];
    }
  }

  lemma ExampleDistinct4(s: string)
    requires s == "mjqjpqmgbljsphdztnvjfqwrcgsmlb"
    ensures Distinct(s[3..7])
  {
    assert PairsDiffer("mjqjpqmgbljsphdztnvjfqwrcgsmlb", 7, 3, 4);
    DistinctSlice(s, 3, 7);
  }

  lemma ExampleDistinctMessage(s: string)
    requires s == "mjqjpqmgbljsphdztnvjfqwrcgsmlb"
    ensures Distinct(s[5..19])
  {
    var w := "qmgbljsphdztnv";
    ExampleDistinct14();
    DistinctSlice(w, 0, 14);
    assert w[0..14] == w;
    ExampleMessageSlice(s);
  }

  lemma ExampleMessageSlice(s: string)
    requires s == "mjqjpqmgbljsphdztnvjfqwrcgsmlb"
    ensures s[5..19] == "qmgbljsphdztnv"
  {
    var w := "qmgbljsphdztnv";
    forall j | 0 <= j < 14 ensures s[5..19][j] == w[j] {
      assert s[5..19][j] == s[5 + j];
    }
  }

  /** The 14 characters of the example's start-of-message marker. */
  lemma ExampleDistinct14()
    ensures PairsDiffer("qmgbljsphdztnv", 14, 0, 1)
  {
    ExampleDistinctFrom5();
    assert PairsDiffer("qmgbljsphdztnv", 14, 4, 5);
    assert PairsDiffer("qmgbljsphdztnv", 14, 3, 4);
    assert PairsDiffer("qmgbljsphdztnv", 14, 2, 3);
    assert PairsDiffer("qmgbljsphdztnv", 14, 1, 2);
    assert PairsDiffer("qmgbljsphdztnv", 14, 0, 1);
  }

  lemma ExampleDistinctFrom5()
    ensures PairsDiffer("qmgbljsphdztnv", 14, 5, 6)
  {
    assert PairsDiffer("qmgbljsphdztnv", 14, 13, 14);
    assert PairsDiffer("qmgbljsphdztnv", 14, 12, 13);
    assert PairsDiffer("qmgbljsphdztnv", 14, 11, 12);
    assert PairsDiffer("qmgbljsphdztnv", 14, 10, 11);
    assert PairsDiffer("qmgbljsphdztnv", 14, 9, 10);
    assert PairsDiffer("qmgbljsphdztnv", 14, 8, 9);
    assert PairsDiffer("qmgbljsphdztnv", 14, 7, 8);
    assert PairsDiffer("qmgbljsphdztnv", 14, 6, 7);
    assert PairsDiffer("qmgbljsphdztnv", 14, 5, 6);
  }
}
