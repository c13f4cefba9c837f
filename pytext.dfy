/**
 * The parts of Python's text handling the monitor and the GUI rely on:
 * `str.isspace`, `strip`, `split(sep)`, `split()`, `splitlines`, the `in`
 * operator on strings, `int(str)`, `float(str)`, and `os.path` joining.
 * Digits are the ASCII digits '0'..'9'.
 */
module PyText {
  import opened Wrappers

  /** The characters for which Python's `str.isspace()` holds. */
  predicate IsSpace(c: char) {
    || c == ' '
    || ('\t' <= c <= '\r')
    || ('\U{1c}' <= c <= '\U{1f}')
    || c == '\U{85}' || c == '\U{a0}' || c == '\U{1680}'
    || ('\U{2000}' <= c <= '\U{200a}')
    || c == '\U{2028}' || c == '\U{2029}' || c == '\U{202f}'
    || c == '\U{205f}' || c == '\U{3000}'
  }

  /** The line boundaries recognised by `str.splitlines()`. */
  predicate IsLineBreak(c: char) {
    || ('\n' <= c <= '\r')
    || ('\U{1c}' <= c <= '\U{1e}')
    || c == '\U{85}' || c == '\U{2028}' || c == '\U{2029}'
  }

  predicate IsDigit(c: char) { '0' <= c <= '9' }

  predicate AllDigits(s: string) { forall k :: 0 <= k < |s| ==> IsDigit(s[k]) }

  predicate NoSpace(s: string) { forall k :: 0 <= k < |s| ==> !IsSpace(s[k]) }

  predicate NoLineBreak(s: string) { forall k :: 0 <= k < |s| ==> !IsLineBreak(s[k]) }

  /** Index of the first occurrence of `c`, or `|s|` (Python's `str.find`, with `|s|` for -1). */
  function IndexOf(s: string, c: char): (i: nat)
    ensures i <= |s|
    ensures i < |s| ==> s[i] == c
    ensures forall k :: 0 <= k < i ==> s[k] != c
  {
    if s == [] then 0 else if s[0] == c then 0 else 1 + IndexOf(s[1..], c)
  }

  /** Index of the first whitespace character, or `|s|`. */
  function SpaceIndex(s: string): (i: nat)
    ensures i <= |s|
    ensures i < |s| ==> IsSpace(s[i])
    ensures forall k :: 0 <= k < i ==> !IsSpace(s[k])
  {
    if s == [] then 0 else if IsSpace(s[0]) then 0 else 1 + SpaceIndex(s[1..])
  }

  /** Index of the first line boundary at or after `j`, or `|s|`. */
  function LineBreakFrom(s: string, j: nat): (i: nat)
    requires j <= |s|
    ensures j <= i <= |s|
    ensures i < |s| ==> IsLineBreak(s[i])
    decreases |s| - j
  {
    if j == |s| || IsLineBreak(s[j]) then j else LineBreakFrom(s, j + 1)
  }

  /** No boundary lies between `j` and the first boundary at or after it. */
  lemma {:induction false} LineBreakFromClear(s: string, j: nat)
    requires j <= |s|
    ensures forall k :: j <= k < LineBreakFrom(s, j) ==> !IsLineBreak(s[k])
    decreases |s| - j
  {
    if j < |s| && !IsLineBreak(s[j]) {
      LineBreakFromClear(s, j + 1);
    }
  }

  // ---------------------------------------------------------------- strip

  /** `s.lstrip()`: the suffix of `s` after its leading whitespace. */
  function StripLeft(s: string): (r: string)
    ensures |r| <= |s|
    ensures r == [] || !IsSpace(r[0])
  {
    if s != [] && IsSpace(s[0]) then StripLeft(s[1..]) else s
  }

  /** What `lstrip()` removes is a run of whitespace at the front, and nothing else. */
  lemma {:induction false} StripLeftShape(s: string)
    ensures var r := StripLeft(s);
            && r == s[|s| - |r|..]
            && forall k :: 0 <= k < |s| - |r| ==> IsSpace(s[k])
    decreases |s|
  {
    if s != [] && IsSpace(s[0]) {
      var r := StripLeft(s[1..]);
      StripLeftShape(s[1..]);
      assert s[1..][|s| - 1 - |r|..] == s[|s| - |r|..];
      forall k | 1 <= k < |s| - |r| ensures IsSpace(s[k]) {
        assert s[k] == s[1..][k - 1];
      }
    }
  }

  /** `s.rstrip()`: the prefix of `s` before its trailing whitespace. */
  function StripRight(s: string): (r: string)
    ensures |r| <= |s|
    ensures r == [] || !IsSpace(r[|r| - 1])
  {
    if s != [] && IsSpace(s[|s| - 1]) then StripRight(s[..|s| - 1]) else s
  }

  /** What `rstrip()` removes is a run of whitespace at the end, and nothing else. */
  lemma {:induction false} StripRightShape(s: string)
    ensures var r := StripRight(s);
            && r == s[..|r|]
            && forall k :: |r| <= k < |s| ==> IsSpace(s[k])
    decreases |s|
  {
    if s != [] && IsSpace(s[|s| - 1]) {
      var p := s[..|s| - 1];
      var r := StripRight(p);
      StripRightShape(p);
      assert p[..|r|] == s[..|r|];
      forall k | |r| <= k < |s| - 1 ensures IsSpace(s[k]) {
        assert s[k] == p[k];
      }
    }
  }

  /** `s.strip()`. */
  function Strip(s: string): (r: string)
  {
    StripRight(StripLeft(s))
  }

  /** A string that neither starts nor ends with whitespace. */
  predicate IsStripped(s: string) {
    s == [] || (!IsSpace(s[0]) && !IsSpace(s[|s| - 1]))
  }

  /** Where `strip()` cuts: the number of leading whitespace characters. */
  function StripStart(s: string): nat
  {
    |s| - |StripLeft(s)|
  }

  /** `strip()` removes whitespace from both ends and nothing else: the result is the slice of the input between two runs of whitespace. */
  lemma StripShape(s: string)
    ensures IsStripped(Strip(s))
    ensures StripStart(s) + |Strip(s)| <= |s|
    ensures Strip(s) == s[StripStart(s)..StripStart(s) + |Strip(s)|]
    ensures forall k :: 0 <= k < StripStart(s) ==> IsSpace(s[k])
    ensures forall k :: StripStart(s) + |Strip(s)| <= k < |s| ==> IsSpace(s[k])
  {
    var l := StripLeft(s);
    StripLeftShape(s);
    StripRightShape(l);
    var r := StripRight(l);
    StripCut(s, l, r, |s| - |l|);
    assert r == [] || r[0] == l[0];
    assert IsStripped(r);
    assert Strip(s) == r && StripStart(s) == |s| - |l|;
  }

  /** The right cut of `l`, a suffix of `s` starting at `a`, read in `s`. */
  lemma StripCut(s: string, l: string, r: string, a: nat)
    requires a <= |s| && l == s[a..]
    requires |r| <= |l| && r == l[..|r|] && forall k :: |r| <= k < |l| ==> IsSpace(l[k])
    ensures a + |r| <= |s| && r == s[a..a + |r|]
    ensures forall k :: a + |r| <= k < |s| ==> IsSpace(s[k])
  {
    assert l[..|r|] == s[a..a + |r|];
    forall k | a + |r| <= k < |s| ensures IsSpace(s[k]) {
      assert s[k] == l[k - a];
    }
  }

  /** A string with no whitespace at either end is its own `strip()`. */
  lemma StripStripped(s: string)
    requires IsStripped(s)
    ensures Strip(s) == s
  {
  }

  /** `strip()` is idempotent. */
  lemma StripIdempotent(s: string)
    ensures Strip(Strip(s)) == Strip(s)
  {
    StripShape(s);
    StripStripped(Strip(s));
  }

  /** Trailing whitespace never survives `strip()`. */
  lemma StripTrailing(s: string, w: string)
    requires s == [] || !IsSpace(s[0])
    requires IsStripped(s)
    requires forall k :: 0 <= k < |w| ==> IsSpace(w[k])
    ensures Strip(s + w) == s
    decreases |w|
  {
    if w == [] {
      assert s + w == s;
    } else if s == [] {
      assert s + w == w;
      StripLeftShape(w);
      assert StripLeft(w) == [];
    } else {
      var t := s + w;
      assert StripLeft(t) == t;
      assert t[..|t| - 1] == s + w[..|w| - 1];
      StripTrailing(s, w[..|w| - 1]);
    }
  }

  // ---------------------------------------------------------------- split

  /** `s.split(sep)` for a one-character separator: always at least one part, no part contains `sep`. */
  function Split(s: string, sep: char): (parts: seq<string>)
    ensures |parts| >= 1
    ensures forall j :: 0 <= j < |parts| ==> sep !in parts[j]
    decreases |s|
  {
    var i := IndexOf(s, sep);
    if i == |s| then [s] else [s[..i]] + Split(s[i + 1..], sep)
  }

  /** Splitting a string made by joining `a` and `b` with `sep` yields `a` followed by the parts of `b`. */
  lemma SplitCons(a: string, sep: char, b: string)
    requires sep !in a
    ensures Split(a + [sep] + b, sep) == [a] + Split(b, sep)
  {
    var s := a + [sep] + b;
    assert s[|a|] == sep;
    assert forall k :: 0 <= k < |a| ==> s[k] == a[k];
    assert IndexOf(s, sep) == |a|;
    assert s[..|a|] == a;
    assert s[|a| + 1..] == b;
  }

  /** A string without the separator is a single part. */
  lemma SplitNone(s: string, sep: char)
    requires sep !in s
    ensures Split(s, sep) == [s]
  {
  }

  /** `s.split()`: the maximal runs of non-whitespace characters, in order. */
  function Tokens(s: string): (ts: seq<string>)
    ensures forall j :: 0 <= j < |ts| ==> ts[j] != [] && NoSpace(ts[j])
    decreases |s|
  {
    var r := StripLeft(s);
    if r == [] then []
    else
      var e := SpaceIndex(r);
      assert e > 0;
      [r[..e]] + Tokens(r[e..])
  }

  /** `s.splitlines()`: the lines of `s` without their line boundaries; `\r\n` is one boundary and a final boundary adds no empty line. */
  function SplitLines(s: string): (lines: seq<string>)
    ensures s == [] <==> lines == []
  {
    LinesFrom(s, 0)
  }

  /** The lines of `s[j..]`. */
  function LinesFrom(s: string, j: nat): (lines: seq<string>)
    requires j <= |s|
    ensures j == |s| <==> lines == []
    decreases |s| - j
  {
    if j == |s| then []
    else
      var i := LineBreakFrom(s, j);
      if i == |s| then [s[j..]]
      else [s[j..i]] + LinesFrom(s, i + BreakLength(s, i))
  }

  /** The length of the line boundary at index `i`: two for `\r\n`, else one. */
  function BreakLength(s: string, i: nat): (n: nat)
    requires i < |s|
    ensures 1 <= n <= 2
  {
    if s[i] == '\r' && i + 1 < |s| && s[i + 1] == '\n' then 2 else 1
  }

  /** `LinesFrom` when no boundary follows `j`: the rest of the text is the last line. */
  lemma LinesFromLast(s: string, j: nat)
    requires j < |s| && LineBreakFrom(s, j) == |s|
    ensures LinesFrom(s, j) == [s[j..]]
  {
  }

  /** `LinesFrom` at a boundary: the text up to it, then the lines after it. */
  lemma LinesFromStep(s: string, j: nat, i: nat)
    requires j < |s| && i == LineBreakFrom(s, j) < |s|
    ensures LinesFrom(s, j) == [s[j..i]] + LinesFrom(s, i + BreakLength(s, i))
  {
  }

  /**
   * `s` cut at every single line-boundary character: unlike `splitlines`,
   * `\r\n` gives an empty piece between its two characters and a final
   * boundary gives an empty last piece. The two agree on every non-empty line.
   */
  function BreakPieces(s: string): (ps: seq<string>)
    ensures ps != []
    decreases |s|
  {
    if s == [] then [[]]
    else
      var r := BreakPieces(s[1..]);
      if IsLineBreak(s[0]) then [[]] + r else [[s[0]] + r[0]] + r[1..]
  }

  /** The pieces of two texts put together: the last piece of the first and the first piece of the second fuse. */
  function FusePieces(a: seq<string>, y: seq<string>): seq<string>
    requires a != [] && y != []
  {
    a[..|a| - 1] + [a[|a| - 1] + y[0]] + y[1..]
  }

  /** Text without a boundary is one piece. */
  lemma {:induction false} PiecesNoBreak(s: string)
    requires NoLineBreak(s)
    ensures BreakPieces(s) == [s]
    decreases |s|
  {
    if s != [] {
      assert NoLineBreak(s[1..]) by {
        forall k | 0 <= k < |s[1..]| ensures !IsLineBreak(s[1..][k]) {
          assert s[1..][k] == s[k + 1];
        }
      }
      PiecesNoBreak(s[1..]);
      assert [s[0]] + s[1..] == s;
    }
  }

  /** A character put in front of some text: a boundary adds an empty first piece, any other character joins the first piece. */
  lemma PiecesCons(c: char, t: string)
    ensures var T := BreakPieces(t);
            BreakPieces([c] + t) == if IsLineBreak(c) then [[]] + T else [[c] + T[0]] + T[1..]
  {
    assert ([c] + t)[1..] == t;
  }

  /** The first piece of a text that starts at a boundary is empty. */
  lemma FuseAfterBreak(a: seq<string>, y: seq<string>)
    requires a != [] && y != []
    ensures FusePieces(a, [[]] + y) == a + y
  {
    var l := |a| - 1;
    assert a[l] + [] == a[l];
    assert a[..l] + [a[l]] == a;
  }

  /** Fusing commutes with a boundary put in front. */
  lemma FuseConsEmpty(a: seq<string>, y: seq<string>)
    requires a != [] && y != []
    ensures FusePieces([[]] + a, y) == [[]] + FusePieces(a, y)
  {
    var b := [[]] + a;
    assert b[..|b| - 1] == [[]] + a[..|a| - 1];
  }

  /** Fusing commutes with a character joining the first piece. */
  lemma FuseConsChar(c: char, a: seq<string>, y: seq<string>)
    requires a != [] && y != []
    ensures var f := FusePieces(a, y);
            FusePieces([[c] + a[0]] + a[1..], y) == [[c] + f[0]] + f[1..]
  {
    var f := FusePieces(a, y);
    var b := [[c] + a[0]] + a[1..];
    if |a| == 1 {
      assert f == [a[0] + y[0]] + y[1..];
      assert b == [[c] + a[0]];
      assert [c] + a[0] + y[0] == [c] + (a[0] + y[0]);
    } else {
      assert f[0] == a[0] && f[1..] == a[1..|a| - 1] + [a[|a| - 1] + y[0]] + y[1..];
      assert b[..|b| - 1] == [[c] + a[0]] + a[1..|a| - 1];
    }
  }

  /** The pieces of `a + y` are those of `a` and of `y`, the two pieces at the seam fused. */
  lemma {:induction false} PiecesAppend(a: string, y: string)
    ensures BreakPieces(a + y) == FusePieces(BreakPieces(a), BreakPieces(y))
    decreases |a|
  {
    var Y := BreakPieces(y);
    if a == [] {
      assert a + y == y;
      var e: seq<string> := [[]];
      assert [] + Y[0] == Y[0] && e[..0] == [];
      assert [Y[0]] + Y[1..] == Y;
    } else {
      var c, r := a[0], a[1..];
      assert a + y == [c] + (r + y) && a == [c] + r;
      PiecesCons(c, r + y);
      PiecesCons(c, r);
      PiecesAppend(r, y);
      if IsLineBreak(c) {
        FuseConsEmpty(BreakPieces(r), Y);
      } else {
        FuseConsChar(c, BreakPieces(r), Y);
      }
    }
  }

  /** Text without a boundary, a boundary, then more text: the first piece, then the pieces of the rest. */
  lemma PiecesAtBreak(x: string, b: char, y: string)
    requires NoLineBreak(x) && IsLineBreak(b)
    ensures BreakPieces(x + [b] + y) == [x] + BreakPieces(y)
  {
    PiecesNoBreak(x);
    PiecesAppend(x, [b] + y);
    PiecesCons(b, y);
    assert x + [b] + y == x + ([b] + y);
    assert x + [] == x && [x][..0] == [];
  }

  /** Text, a newline, then a line without a boundary: the text's pieces and that line. */
  lemma PiecesAppendLine(c: string, p: string)
    requires NoLineBreak(p)
    ensures BreakPieces(c + "\n" + p) == BreakPieces(c) + [p]
  {
    assert c + "\n" + p == c + (['\n'] + p);
    PiecesAppend(c, ['\n'] + p);
    PiecesCons('\n', p);
    PiecesNoBreak(p);
    FuseAfterBreak(BreakPieces(c), [p]);
  }

  /** The non-empty strings of `lines`, in order. */
  function NonEmpty(lines: seq<string>): (r: seq<string>)
    ensures |r| <= |lines|
    decreases |lines|
  {
    if lines == [] then [] else (if |lines[0]| == 0 then [] else [lines[0]]) + NonEmpty(lines[1..])
  }

  /** `NonEmpty` of a line followed by more lines. */
  lemma NonEmptyCons(x: string, rest: seq<string>)
    ensures NonEmpty([x] + rest) == NonEmpty([x]) + NonEmpty(rest)
    ensures NonEmpty([x]) == if x == [] then [] else [x]
  {
    assert ([x] + rest)[1..] == rest;
    assert [x][1..] == [];
  }

  /** The lines of `s[j..]` and its pieces between single boundary characters are the same once the empty ones are dropped. */
  lemma {:induction false} LinesAsPieces(s: string, j: nat)
    requires j <= |s|
    ensures NonEmpty(LinesFrom(s, j)) == NonEmpty(BreakPieces(s[j..]))
    decreases |s| - j
  {
    if j == |s| {
      assert s[j..] == [];
      NonEmptyCons([], []);
    } else {
      var x, m, last := FirstLine(s, j);
      if !last {
        LinesAsPieces(s, m);
      }
    }
  }

  /**
   * The first line of `s[j..]`, `x`, and where the text after its boundary
   * starts, `m`; `last` when no boundary follows. Both the lines and the
   * pieces start with `x` and go on with those of `s[m..]`, once the empty
   * ones are dropped.
   */
  lemma FirstLine(s: string, j: nat) returns (x: string, m: nat, last: bool)
    requires j < |s|
    ensures last ==> LinesFrom(s, j) == [x] && BreakPieces(s[j..]) == [x]
    ensures !last ==> j < m <= |s|
    ensures !last ==> NonEmpty(LinesFrom(s, j)) == NonEmpty([x]) + NonEmpty(LinesFrom(s, m))
    ensures !last ==> NonEmpty(BreakPieces(s[j..])) == NonEmpty([x]) + NonEmpty(BreakPieces(s[m..]))
  {
    var i := LineBreakFrom(s, j);
    last := i == |s|;
    x := s[j..i];
    if last {
      m := |s|;
      LinesFromLast(s, j);
      PiecesToEnd(s, j);
      assert x == s[j..];
    } else {
      m := i + BreakLength(s, i);
      LinesFromStep(s, j, i);
      NonEmptyCons(x, LinesFrom(s, m));
      PiecesAfterLine(s, j, i);
    }
  }

  /** The text from `j` on as one piece, when it has no line boundary. */
  lemma PiecesToEnd(s: string, j: nat)
    requires j <= |s| && LineBreakFrom(s, j) == |s|
    ensures BreakPieces(s[j..]) == [s[j..]]
  {
    LineBreakFromClear(s, j);
    assert NoLineBreak(s[j..]) by {
      forall k | 0 <= k < |s| - j ensures !IsLineBreak(s[j..][k]) {
        assert s[j..][k] == s[j + k];
      }
    }
    PiecesNoBreak(s[j..]);
  }

  /** The non-empty pieces of `s[j..]`: its first line if not empty, then those past the line's boundary (a `\r\n` boundary adds only an empty piece). */
  lemma PiecesAfterLine(s: string, j: nat, i: nat)
    requires j <= |s| && i == LineBreakFrom(s, j) < |s|
    ensures NonEmpty(BreakPieces(s[j..])) == NonEmpty([s[j..i]]) + NonEmpty(BreakPieces(s[i + BreakLength(s, i)..]))
  {
    var x, rest := s[j..i], BreakPieces(s[i + 1..]);
    PiecesPastBreak(s, j, i);
    NonEmptyCons(x, rest);
    if BreakLength(s, i) == 2 {
      var after := BreakPieces(s[i + 2..]);
      NonEmptyCons([], after);
      assert NonEmpty(rest) == [] + NonEmpty(after) == NonEmpty(after);
    } else {
      assert s[i + BreakLength(s, i)..] == s[i + 1..];
    }
  }

  /** `BreakPieces` of `s[j..]` at its first line boundary, with the empty piece inside a `\r\n`. */
  lemma PiecesPastBreak(s: string, j: nat, i: nat)
    requires j <= |s| && i == LineBreakFrom(s, j) < |s|
    ensures BreakPieces(s[j..]) == [s[j..i]] + BreakPieces(s[i + 1..])
    ensures BreakLength(s, i) == 2 ==> BreakPieces(s[i + 1..]) == [[]] + BreakPieces(s[i + 2..])
  {
    LineClear(s, j, i);
    assert s[j..] == s[j..i] + [s[i]] + s[i + 1..];
    PiecesAtBreak(s[j..i], s[i], s[i + 1..]);
    if BreakLength(s, i) == 2 {
      PiecesInsideCrLf(s, i);
    }
  }

  /** The text from `j` up to the next line boundary `i` has none. */
  lemma LineClear(s: string, j: nat, i: nat)
    requires j <= |s| && i == LineBreakFrom(s, j)
    ensures NoLineBreak(s[j..i])
  {
    LineBreakFromClear(s, j);
    forall k | 0 <= k < i - j ensures !IsLineBreak(s[j..i][k]) {
      assert s[j..i][k] == s[j + k];
    }
  }

  /** Past the `\r` of a `\r\n` at `i`, the pieces start with an empty one. */
  lemma PiecesInsideCrLf(s: string, i: nat)
    requires i < |s| && BreakLength(s, i) == 2
    ensures BreakPieces(s[i + 1..]) == [[]] + BreakPieces(s[i + 2..])
  {
    assert s[i + 1..] == [s[i + 1]] + s[i + 2..];
    PiecesCons(s[i + 1], s[i + 2..]);
  }

  // ---------------------------------------------------------------- substrings

  /** Python's `t in s` for strings. */
  predicate Contains(s: string, t: string)
    decreases |s|
  {
    (|t| <= |s| && s[..|t|] == t) || (s != [] && Contains(s[1..], t))
  }

  /** `t` occurs in `s` starting at index `i`. */
  ghost predicate OccursAt(s: string, t: string, i: int) {
    0 <= i && i + |t| <= |s| && s[i..i + |t|] == t
  }

  /** `Contains` holds exactly when `t` occurs at some position of `s`. */
  lemma ContainsAt(s: string, t: string)
    ensures Contains(s, t) <==> exists i :: OccursAt(s, t, i)
  {
    if Contains(s, t) {
      OccursOfContains(s, t);
    }
    if exists i :: OccursAt(s, t, i) {
      var i :| OccursAt(s, t, i);
      ContainsOfOccurs(s, t, i);
    }
  }

  /** A string that contains `t` has an occurrence of it. */
  lemma {:induction false} OccursOfContains(s: string, t: string)
    requires Contains(s, t)
    ensures exists i :: OccursAt(s, t, i)
    decreases |s|
  {
    if |t| <= |s| && s[..|t|] == t {
      assert OccursAt(s, t, 0);
    } else {
      OccursOfContains(s[1..], t);
      var i :| OccursAt(s[1..], t, i);
      assert s[i + 1..i + 1 + |t|] == s[1..][i..i + |t|];
      assert OccursAt(s, t, i + 1);
    }
  }

  /** An occurrence of `t` at any position makes `s` contain it. */
  lemma {:induction false} ContainsOfOccurs(s: string, t: string, i: int)
    requires OccursAt(s, t, i)
    ensures Contains(s, t)
    decreases i
  {
    if i > 0 {
      assert s[1..][i - 1..i - 1 + |t|] == s[i..i + |t|];
      ContainsOfOccurs(s[1..], t, i - 1);
    }
  }

  /** `s.replace(c, '')` for one character. */
  function RemoveChar(s: string, c: char): (r: string)
    ensures c !in r
    ensures |r| <= |s|
  {
    if s == [] then [] else (if s[0] == c then [] else [s[0]]) + RemoveChar(s[1..], c)
  }

  // ---------------------------------------------------------------- numbers

  function DigitValue(c: char): nat
    requires IsDigit(c)
  {
    c as int - '0' as int
  }

  function DigitChar(d: nat): (c: char)
    requires d < 10
    ensures IsDigit(c) && DigitValue(c) == d
  {
    ('0' as int + d) as char
  }

  /** The value of a string of decimal digits, most significant first. */
  function DigitsValue(s: string): nat
    requires AllDigits(s)
  {
    if s == [] then 0 else 10 * DigitsValue(s[..|s| - 1]) + DigitValue(s[|s| - 1])
  }

  /** `str(n)` for a natural number. */
  function NatToString(n: nat): (s: string)
    ensures s != [] && AllDigits(s)
  {
    if n < 10 then [DigitChar(n)] else NatToString(n / 10) + [DigitChar(n % 10)]
  }

  /** Reading back the digits `str(n)` writes gives `n`. */
  lemma {:induction false} DigitsRoundTrip(n: nat)
    ensures DigitsValue(NatToString(n)) == n
  {
    if n >= 10 {
      var s := NatToString(n);
      assert s[..|s| - 1] == NatToString(n / 10);
      DigitsRoundTrip(n / 10);
    }
  }

  /** The `digitpart` of Python's numeric grammar: digits, with single underscores between digits. */
  predicate IsDigitPart(s: string) {
    && s != []
    && IsDigit(s[0]) && IsDigit(s[|s| - 1])
    && (forall k :: 0 <= k < |s| ==> IsDigit(s[k]) || s[k] == '_')
    && (forall k :: 0 <= k < |s| - 1 ==> s[k] == '_' ==> s[k + 1] != '_')
  }

  function RemoveUnderscores(s: string): (r: string)
    requires forall k :: 0 <= k < |s| ==> IsDigit(s[k]) || s[k] == '_'
    ensures AllDigits(r)
  {
    if s == [] then [] else (if s[0] == '_' then [] else [s[0]]) + RemoveUnderscores(s[1..])
  }

  lemma {:induction false} RemoveUnderscoresOfDigits(s: string)
    requires AllDigits(s)
    ensures RemoveUnderscores(s) == s
  {
    if s != [] {
      RemoveUnderscoresOfDigits(s[1..]);
    }
  }

  function DigitPartValue(s: string): nat
    requires IsDigitPart(s)
  {
    DigitsValue(RemoveUnderscores(s))
  }

  /** Every non-empty digit string is a `digitpart` whose value is its plain decimal value. */
  lemma DigitPartOfDigits(s: string)
    requires s != [] && AllDigits(s)
    ensures IsDigitPart(s) && DigitPartValue(s) == DigitsValue(s)
  {
    RemoveUnderscoresOfDigits(s);
  }

  /** `int(s)` in base 10: surrounding whitespace, an optional sign, then a `digitpart`; `None` where Python raises ValueError. */
  function ParseInt(s: string): (r: Option<int>)
  {
    var t := Strip(s);
    if t != [] && (t[0] == '+' || t[0] == '-') then
      if IsDigitPart(t[1..]) then
        var v: int := DigitPartValue(t[1..]);
        Some(if t[0] == '-' then -v else v)
      else None
    else if IsDigitPart(t) then Some(DigitPartValue(t))
    else None
  }

  /** `int(str(n)) == n`. */
  lemma ParseIntRoundTrip(n: nat)
    ensures ParseInt(NatToString(n)) == Some(n)
  {
    var s := NatToString(n);
    StripStripped(s);
    DigitPartOfDigits(s);
    DigitsRoundTrip(n);
  }

  function Pow10(e: int): (r: real)
    ensures r > 0.0
    decreases if e < 0 then -e else e
  {
    if e == 0 then 1.0 else if e > 0 then 10.0 * Pow10(e - 1) else Pow10(e + 1) / 10.0
  }

  /** The value of a decimal fraction's digits: `0.fp`. */
  function FracValue(fp: string): (r: real)
    requires fp == [] || IsDigitPart(fp)
    ensures r >= 0.0
  {
    if fp == [] then 0.0 else (DigitPartValue(fp) as real) / Pow10(|RemoveUnderscores(fp)|)
  }

  /** The mantissa of a float literal: `digitpart`, `digitpart.`, `.digitpart` or `digitpart.digitpart`. */
  function MantissaValue(m: string): (r: Option<real>)
    ensures r.Some? ==> r.value >= 0.0
  {
    var d := IndexOf(m, '.');
    if d == |m| then
      if IsDigitPart(m) then Some(DigitPartValue(m) as real) else None
    else
      var ip, fp := m[..d], m[d + 1..];
      if (ip == [] && fp == []) || (ip != [] && !IsDigitPart(ip)) || (fp != [] && !IsDigitPart(fp)) then None
      else Some((if ip == [] then 0 else DigitPartValue(ip)) as real + FracValue(fp))
  }

  /** The exponent of a float literal: an optional sign and a `digitpart`. */
  function ExponentValue(x: string): Option<int>
  {
    if x != [] && (x[0] == '+' || x[0] == '-') then
      if IsDigitPart(x[1..]) then
        var v: int := DigitPartValue(x[1..]);
        Some(if x[0] == '-' then -v else v)
      else None
    else if IsDigitPart(x) then Some(DigitPartValue(x))
    else None
  }

  predicate IsExponentMark(c: char) { c == 'e' || c == 'E' }

  /** Index of the first exponent mark, or `|s|`. */
  function ExponentIndex(s: string): (i: nat)
    ensures i <= |s|
    ensures i < |s| ==> IsExponentMark(s[i])
    ensures forall k :: 0 <= k < i ==> !IsExponentMark(s[k])
  {
    if s == [] then 0 else if IsExponentMark(s[0]) then 0 else 1 + ExponentIndex(s[1..])
  }

  /** `float(s)` for finite decimal literals; `None` where Python raises ValueError. */
  function ParseFloat(s: string): (r: Option<real>)
  {
    var t := Strip(s);
    var signed := t != [] && (t[0] == '+' || t[0] == '-');
    var body := if signed then t[1..] else t;
    var e := ExponentIndex(body);
    var mant := MantissaValue(body[..e]);
    var exp := if e == |body| then Some(0) else ExponentValue(body[e + 1..]);
    if mant.None? || exp.None? then None
    else
      var v := mant.value * Pow10(exp.value);
      Some(if signed && t[0] == '-' then -v else v)
  }

  /** An unsigned literal without exponent and surrounding whitespace is read by its mantissa alone. */
  lemma ParseFloatOfMantissa(s: string)
    requires s != [] && IsStripped(s) && s[0] != '+' && s[0] != '-'
    requires forall k :: 0 <= k < |s| ==> !IsExponentMark(s[k])
    ensures ParseFloat(s) == MantissaValue(s)
  {
    StripStripped(s);
    assert ExponentIndex(s) == |s|;
    assert s[..|s|] == s;
    var m := MantissaValue(s);
    if m.Some? {
      assert m.value * Pow10(0) == m.value;
    }
  }

  /** `float(str(n)) == n` for a natural number. */
  lemma ParseFloatOfNat(n: nat)
    ensures ParseFloat(NatToString(n)) == Some(n as real)
  {
    var s := NatToString(n);
    assert !IsSpace(s[0]) && !IsSpace(s[|s| - 1]);
    assert forall k :: 0 <= k < |s| ==> !IsExponentMark(s[k]);
    ParseFloatOfMantissa(s);
    assert IndexOf(s, '.') == |s|;
    DigitPartOfDigits(s);
    DigitsRoundTrip(n);
  }

  /** The mantissa `ip.fp` of digits is read as a non-negative number. */
  lemma MantissaOfDecimal(ip: string, fp: string)
    requires ip != [] && AllDigits(ip) && AllDigits(fp)
    ensures MantissaValue(ip + "." + fp).Some?
  {
    var s := ip + "." + fp;
    assert s[|ip|] == '.';
    assert forall k :: 0 <= k < |ip| ==> s[k] == ip[k];
    assert IndexOf(s, '.') == |ip|;
    assert s[..|ip|] == ip;
    assert s[|ip| + 1..] == fp;
    DigitPartOfDigits(ip);
    if fp != [] {
      DigitPartOfDigits(fp);
    }
  }

  /** A plain unsigned decimal (`12`, `12.`, `12.5`) is accepted by `float()` and is never negative. */
  lemma ParseFloatOfDecimal(ip: string, fp: string, dot: bool)
    requires ip != [] && AllDigits(ip) && AllDigits(fp)
    requires !dot ==> fp == []
    ensures var s := ip + (if dot then "." else "") + fp;
            ParseFloat(s).Some? && ParseFloat(s).value >= 0.0
  {
    var s := ip + (if dot then "." else "") + fp;
    assert s[0] == ip[0];
    assert !IsSpace(s[|s| - 1]) by {
      if fp != [] { assert s[|s| - 1] == fp[|fp| - 1]; }
      else if dot { assert s[|s| - 1] == '.'; }
      else { assert s == ip; }
    }
    assert forall k :: 0 <= k < |s| ==> IsDigit(s[k]) || s[k] == '.';
    ParseFloatOfMantissa(s);
    if dot {
      MantissaOfDecimal(ip, fp);
    } else {
      assert s == ip;
      assert IndexOf(s, '.') == |s|;
      DigitPartOfDigits(ip);
    }
  }

  /** The mantissa `ip.fp` of digit strings: the whole part plus the fraction digits over ten to their count. */
  lemma MantissaOfPoint(ip: string, fp: string)
    requires ip != [] && AllDigits(ip) && fp != [] && AllDigits(fp)
    ensures var v := MantissaValue(ip + "." + fp); v.Some? && v.value - DigitsValue(ip) as real == DigitsValue(fp) as real / Pow10(|fp|)
  {
    var s := ip + "." + fp;
    PointSlices(ip, fp);
    DigitPartOfDigits(ip);
    FracOfDigits(fp);
    MantissaAtPoint(s, |ip|);
  }

  /** In `ip.fp`, with no point in `ip`, the first point is at `|ip|` and splits the text back into `ip` and `fp`. */
  lemma PointSlices(ip: string, fp: string)
    requires AllDigits(ip)
    ensures var s := ip + "." + fp; IndexOf(s, '.') == |ip| && s[..|ip|] == ip && s[|ip| + 1..] == fp
  {
    var s := ip + "." + fp;
    assert s[|ip|] == '.';
    assert forall k :: 0 <= k < |ip| ==> s[k] == ip[k];
  }

  /** A mantissa with a point at `d` between two digit parts is the whole part plus the fraction. */
  lemma MantissaAtPoint(m: string, d: nat)
    requires d < |m| && IndexOf(m, '.') == d
    requires IsDigitPart(m[..d]) && IsDigitPart(m[d + 1..])
    ensures MantissaValue(m).Some? && MantissaValue(m).value - DigitPartValue(m[..d]) as real == FracValue(m[d + 1..])
  {
  }

  /** The fraction digits `fp` stand for their plain value over ten to their count. */
  lemma FracOfDigits(fp: string)
    requires fp != [] && AllDigits(fp)
    ensures IsDigitPart(fp) && FracValue(fp) == DigitsValue(fp) as real / Pow10(|fp|)
  {
    DigitPartOfDigits(fp);
    RemoveUnderscoresOfDigits(fp);
  }

  /** `float("ip.fp")` for digit strings is the number those digits write. */
  lemma ParseFloatOfPoint(ip: string, fp: string)
    requires ip != [] && AllDigits(ip) && fp != [] && AllDigits(fp)
    ensures var v := ParseFloat(ip + "." + fp); v.Some? && v.value - DigitsValue(ip) as real == DigitsValue(fp) as real / Pow10(|fp|)
  {
    var s := ip + "." + fp;
    PointLiteral(ip, fp);
    ParseFloatOfMantissa(s);
    MantissaOfPoint(ip, fp);
  }

  /** `ip.fp` is a literal without sign, exponent or surrounding whitespace. */
  lemma PointLiteral(ip: string, fp: string)
    requires ip != [] && AllDigits(ip) && fp != [] && AllDigits(fp)
    ensures var s := ip + "." + fp;
            && s != [] && IsStripped(s) && s[0] != '+' && s[0] != '-'
            && forall k :: 0 <= k < |s| ==> !IsExponentMark(s[k])
  {
    var s := ip + "." + fp;
    assert s[0] == ip[0] && s[|s| - 1] == fp[|fp| - 1];
    assert forall k :: 0 <= k < |s| ==> IsDigit(s[k]) || s[k] == '.';
  }

  // ---------------------------------------------------------------- paths

  /** `os.path.basename(p)`: what follows the last '/'. */
  function Basename(p: string): (b: string)
    ensures '/' !in b
  {
    if p == [] || p[|p| - 1] == '/' then [] else Basename(p[..|p| - 1]) + [p[|p| - 1]]
  }

  /** `os.path.join(a, b)` for two components on POSIX. */
  function PathJoin(a: string, b: string): string
  {
    if b != [] && b[0] == '/' then b
    else if a == [] || a[|a| - 1] == '/' then a + b
    else a + "/" + b
  }

  /** The basename of a joined path is the last component when that component has no '/'. */
  lemma {:induction false} BasenameOfJoin(dir: string, name: string)
    requires '/' !in name
    ensures Basename(PathJoin(dir, name)) == name
    decreases |name|
  {
    var p := PathJoin(dir, name);
    var prefix := if dir == [] || dir[|dir| - 1] == '/' then dir else dir + "/";
    assert p == prefix + name;
    BasenameSuffix(prefix, name);
  }

  lemma {:induction false} BasenameSuffix(prefix: string, name: string)
    requires '/' !in name
    requires prefix == [] || prefix[|prefix| - 1] == '/'
    ensures Basename(prefix + name) == name
    decreases |name|
  {
    if name == [] {
      assert prefix + name == prefix;
    } else {
      var p := prefix + name;
      assert p[|p| - 1] == name[|name| - 1];
      assert p[..|p| - 1] == prefix + name[..|name| - 1];
      BasenameSuffix(prefix, name[..|name| - 1]);
      assert name == name[..|name| - 1] + [name[|name| - 1]];
    }
  }
}
