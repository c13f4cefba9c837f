/**
 * The frame-rate pattern of `log_glretrace_output`: `(\d+\.?\d*)\s*fps`,
 * searched with `re.search`, so the match is the leftmost one, and
 * case-sensitive ("FPS" does not match). `\d` is taken as the ASCII digits,
 * `\s` as `str.isspace`.
 */
module FpsPattern {
  import opened Wrappers
  import opened PyText

  // ---------------------------------------------------------------- the greedy reading

  /** End of the run of digits starting at `i`. */
  function DigitRunEnd(s: string, i: nat): (j: nat)
    requires i <= |s|
    ensures i <= j <= |s|
    ensures forall k :: i <= k < j ==> IsDigit(s[k])
    ensures j == |s| || !IsDigit(s[j])
    decreases |s| - i
  {
    if i == |s| || !IsDigit(s[i]) then i else DigitRunEnd(s, i + 1)
  }

  /** End of the run of whitespace starting at `i`. */
  function SpaceRunEnd(s: string, i: nat): (j: nat)
    requires i <= |s|
    ensures i <= j <= |s|
    ensures forall k :: i <= k < j ==> IsSpace(s[k])
    ensures j == |s| || !IsSpace(s[j])
    decreases |s| - i
  {
    if i == |s| || !IsSpace(s[i]) then i else SpaceRunEnd(s, i + 1)
  }

  /** Where the group `\d+\.?\d*` started at `i` ends when every part takes as much as it can. */
  function GroupEnd(s: string, i: nat): (e: nat)
    requires i <= |s|
    ensures i <= e <= |s|
  {
    var d := DigitRunEnd(s, i);
    if d < |s| && s[d] == '.' then DigitRunEnd(s, d + 1) else d
  }

  /** The literal `fps` of the pattern starts at `k`. */
  predicate FpsAt(s: string, k: int)
  {
    0 <= k && k + 3 <= |s| && s[k] == 'f' && s[k + 1] == 'p' && s[k + 2] == 's'
  }

  /** `\s*fps` matches at `e`. */
  predicate FpsFollows(s: string, e: nat)
    requires e <= |s|
  {
    FpsAt(s, SpaceRunEnd(s, e))
  }

  /** The pattern matches at `i` (as the greedy reading sees it). */
  predicate MatchesAt(s: string, i: nat)
    requires i <= |s|
  {
    i < |s| && IsDigit(s[i]) && FpsFollows(s, GroupEnd(s, i))
  }

  // ---------------------------------------------------------------- the pattern, declaratively

  /** `g` matches `\d+\.?\d*`: a non-empty run of digits, an optional '.', a run of digits. */
  ghost predicate GroupShape(g: string) {
    exists p :: 1 <= p <= |g| && AllDigits(g[..p]) &&
      (AllDigits(g[p..]) || (g[p] == '.' && AllDigits(g[p + 1..])))
  }

  /** `s[e..k]` is whitespace and "fps" follows it. */
  ghost predicate SpacesThenFps(s: string, e: int, k: int) {
    0 <= e <= k <= |s| && (forall m :: e <= m < k ==> IsSpace(s[m])) && FpsAt(s, k)
  }

  /** `s[e..]` starts with `\s*fps`. */
  ghost predicate TailShape(s: string, e: int) {
    exists k :: SpacesThenFps(s, e, k)
  }

  /** The whole pattern matches `s[i..]`, with group 1 being `s[i..e]`. */
  ghost predicate RegexMatch(s: string, i: int, e: int) {
    0 <= i <= e <= |s| && GroupShape(s[i..e]) && TailShape(s, e)
  }

  /** The greedy group end and the space-skipping test are the pattern's only way to match: for a start `i` there is at most one group, and it is the greedy one. */
  lemma RegexMatchIsGreedy(s: string, i: nat, e: nat)
    requires i <= e <= |s|
    ensures RegexMatch(s, i, e) <==> MatchesAt(s, i) && e == GroupEnd(s, i)
  {
    if RegexMatch(s, i, e) {
      MatchedGroupIsGreedy(s, i, e);
    }
    if MatchesAt(s, i) && e == GroupEnd(s, i) {
      GreedyGroupMatches(s, i);
    }
  }

  /** A matched tail starts at a character that is neither a digit nor '.'; its space run ends where "fps" begins. */
  lemma TailFacts(s: string, e: nat)
    requires e <= |s| && TailShape(s, e)
    ensures e < |s| && !IsDigit(s[e]) && s[e] != '.'
    ensures FpsFollows(s, e)
  {
    var k :| SpacesThenFps(s, e, k);
    var j := SpaceRunEnd(s, e);
    assert forall m :: e <= m < k ==> IsSpace(s[m]);
    assert j == k;
  }

  /** `s[a..b]` is all digits. */
  predicate DigitsIn(s: string, a: nat, b: nat)
    requires a <= b <= |s|
  {
    forall k :: a <= k < b ==> IsDigit(s[k])
  }

  lemma DigitSlice(s: string, a: nat, b: nat)
    requires a <= b <= |s|
    ensures AllDigits(s[a..b]) <==> DigitsIn(s, a, b)
  {
    if AllDigits(s[a..b]) {
      forall k | a <= k < b
        ensures IsDigit(s[k])
      {
        assert s[a..b][k - a] == s[k];
      }
    }
  }

  /** A group of digits only, followed by neither a digit nor '.', is the greedy group. */
  lemma IntegerGroupEnd(s: string, i: nat, q: nat, e: nat)
    requires i <= q <= e < |s| && DigitsIn(s, i, q) && DigitsIn(s, q, e)
    requires !IsDigit(s[e]) && s[e] != '.'
    ensures GroupEnd(s, i) == e
  {
    assert DigitsIn(s, i, e);
  }

  /** Digits, '.', digits, followed by neither a digit nor '.', is the greedy group. */
  lemma DecimalGroupEnd(s: string, i: nat, q: nat, e: nat)
    requires i <= q < e < |s|
    requires DigitsIn(s, i, q) && s[q] == '.' && DigitsIn(s, q + 1, e)
    requires !IsDigit(s[e])
    ensures GroupEnd(s, i) == e
  {
    assert DigitRunEnd(s, i) == q;
  }

  /** Digits at the front of `s[i..e]` are digits of `s`. */
  lemma PrefixDigits(s: string, i: nat, e: nat, p: nat)
    requires i <= e <= |s| && p <= e - i
    requires AllDigits(s[i..e][..p])
    ensures DigitsIn(s, i, i + p)
  {
    forall k | i <= k < i + p
      ensures IsDigit(s[k])
    {
      assert s[i..e][..p][k - i] == s[k];
    }
  }

  /** Digits at the back of `s[i..e]` are digits of `s`. */
  lemma SuffixDigits(s: string, i: nat, e: nat, p: nat)
    requires i <= e <= |s| && p <= e - i
    requires AllDigits(s[i..e][p..])
    ensures DigitsIn(s, i + p, e)
  {
    forall k | i + p <= k < e
      ensures IsDigit(s[k])
    {
      assert s[i..e][p..][k - i - p] == s[k];
    }
  }

  /** The parts of a group the pattern matched, as positions in `s`: digits up to `q`, then digits or '.' and digits. */
  lemma GroupParts(s: string, i: nat, e: nat) returns (q: nat)
    requires i <= e <= |s| && GroupShape(s[i..e])
    ensures i < q <= e && DigitsIn(s, i, q)
    ensures DigitsIn(s, q, e) || (q < e && s[q] == '.' && DigitsIn(s, q + 1, e))
  {
    var g := s[i..e];
    var p :| 1 <= p <= |g| && AllDigits(g[..p]) &&
      (AllDigits(g[p..]) || (g[p] == '.' && AllDigits(g[p + 1..])));
    q := i + p;
    PrefixDigits(s, i, e, p);
    if AllDigits(g[p..]) {
      SuffixDigits(s, i, e, p);
    } else {
      assert g[p] == s[q];
      SuffixDigits(s, i, e, p + 1);
    }
  }

  lemma MatchedGroupIsGreedy(s: string, i: nat, e: nat)
    requires RegexMatch(s, i, e)
    ensures MatchesAt(s, i) && e == GroupEnd(s, i)
  {
    var q := GroupParts(s, i, e);
    TailFacts(s, e);
    if DigitsIn(s, q, e) {
      IntegerGroupEnd(s, i, q, e);
    } else {
      DecimalGroupEnd(s, i, q, e);
    }
  }

  lemma GreedyGroupMatches(s: string, i: nat)
    requires i <= |s| && MatchesAt(s, i)
    ensures RegexMatch(s, i, GroupEnd(s, i))
  {
    var e := GroupEnd(s, i);
    var d := DigitRunEnd(s, i);
    var g := s[i..e];
    var p := d - i;
    assert g[..p] == s[i..d];
    DigitSlice(s, i, d);
    if d < |s| && s[d] == '.' {
      assert g[p] == '.';
      assert g[p + 1..] == s[d + 1..e];
      DigitSlice(s, d + 1, e);
    } else {
      assert g[p..] == [];
    }
    assert GroupShape(g);
    var k := SpaceRunEnd(s, e);
    assert SpacesThenFps(s, e, k);
  }

  /** The greedy group starting at a digit is a plain decimal, which `float()` reads as a non-negative number. */
  lemma GreedyGroupFloat(s: string, i: nat)
    requires i < |s| && IsDigit(s[i])
    ensures ParseFloat(s[i..GroupEnd(s, i)]).Some? && ParseFloat(s[i..GroupEnd(s, i)]).value >= 0.0
  {
    var d := DigitRunEnd(s, i);
    var e := GroupEnd(s, i);
    DigitSlice(s, i, d);
    if d < |s| && s[d] == '.' {
      DigitSlice(s, d + 1, e);
      assert s[i..e] == s[i..d] + "." + s[d + 1..e];
      ParseFloatOfDecimal(s[i..d], s[d + 1..e], true);
    } else {
      assert s[i..e] == s[i..d] + "" + [];
      ParseFloatOfDecimal(s[i..d], [], false);
    }
  }

  // ---------------------------------------------------------------- search

  /** `re.search`: the leftmost start at or after `from` where the pattern matches, with its group end. */
  function SearchFrom(s: string, from: nat): (r: Option<(nat, nat)>)
    requires from <= |s|
    ensures r.Some? ==> from <= r.value.0 <= |s| && MatchesAt(s, r.value.0) && r.value.1 == GroupEnd(s, r.value.0)
    ensures forall j :: from <= j < (if r.Some? then r.value.0 else |s|) ==> !MatchesAt(s, j)
    decreases |s| - from
  {
    if from == |s| then None
    else if MatchesAt(s, from) then Some((from, GroupEnd(s, from)))
    else SearchFrom(s, from + 1)
  }

  /** The search result is the leftmost match of the pattern, and it is absent exactly when the pattern matches nowhere. */
  lemma SearchIsLeftmost(s: string)
    ensures var r := SearchFrom(s, 0);
            && (r.Some? ==> RegexMatch(s, r.value.0, r.value.1))
            && (r.Some? ==> forall j, e :: 0 <= j < r.value.0 && j <= e <= |s| ==> !RegexMatch(s, j, e))
            && (r.None? <==> forall j, e :: 0 <= j <= e <= |s| ==> !RegexMatch(s, j, e))
  {
    var r := SearchFrom(s, 0);
    if r.Some? {
      RegexMatchIsGreedy(s, r.value.0, r.value.1);
    }
    forall j, e | 0 <= j <= e <= |s| && (r.None? || j < r.value.0)
      ensures !RegexMatch(s, j, e)
    {
      RegexMatchIsGreedy(s, j, e);
    }
  }

  /** The text of group 1 of the leftmost match. */
  function MatchedGroup(s: string): Option<string>
  {
    match SearchFrom(s, 0)
    case None => None
    case Some((i, e)) => Some(s[i..e])
  }

  /**
   * The frame rate a line of glretrace output reports: the line is stripped,
   * searched, and group 1 converted by `float()`; a conversion error is
   * ignored like a non-matching line.
   */
  function FpsOf(line: string): Option<real>
  {
    match MatchedGroup(Strip(line))
    case None => None
    case Some(g) => ParseFloat(g)
  }

  /** Group 1 is always a plain decimal, so `float()` accepts it and the reported frame rate is never negative; a line reports a rate exactly when the pattern matches it. */
  lemma FpsOfMatch(line: string)
    ensures FpsOf(line).Some? <==> MatchedGroup(Strip(line)).Some?
    ensures FpsOf(line).Some? ==> FpsOf(line).value >= 0.0
  {
    var s := Strip(line);
    var r := SearchFrom(s, 0);
    if r.Some? {
      GreedyGroupFloat(s, r.value.0);
    }
  }

  /** The match is case-sensitive: "FPS" is not a frame rate. */
  lemma UpperCaseIgnored()
    ensures FpsOf("60 FPS") == None
  {
    var s := "60 FPS";
    StripStripped(s);
    assert !MatchesAt(s, 0) by {
      assert DigitRunEnd(s, 0) == 2;
      assert SpaceRunEnd(s, 2) == 3;
    }
    assert !MatchesAt(s, 1) by {
      assert DigitRunEnd(s, 1) == 2;
      assert SpaceRunEnd(s, 2) == 3;
    }
    assert SearchFrom(s, 0) == None;
  }

  /** A line without a digit reports nothing. */
  lemma NoDigitNoFps(line: string)
    requires forall k :: 0 <= k < |line| ==> !IsDigit(line[k])
    ensures FpsOf(line) == None
  {
    var s := Strip(line);
    StripShape(line);
    var a := StripStart(line);
    assert forall k :: 0 <= k < |s| ==> !IsDigit(s[k]) by {
      forall k | 0 <= k < |s| ensures !IsDigit(s[k]) {
        assert s[k] == line[a + k];
      }
    }
  }
}
