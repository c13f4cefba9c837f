/**
 * The "Input Configuration" panel: two multi-line driver-directory fields
 * (one path per line), the application path, the output directory, and
 * the check that runs before processing starts. The file dialogs and the
 * file system are parameters.
 */
module InputSection {
  import opened Wrappers
  import opened PyText

  // ---------------------------------------------------------------- directory lists

  /** What the comprehension keeps of one line: the stripped line, unless it is blank. */
  function Kept(line: string): seq<string>
  {
    if Strip(line) != [] then [Strip(line)] else []
  }

  /** `[d.strip() for d in lines if d.strip()]`. */
  function NonBlank(lines: seq<string>): seq<string>
    decreases |lines|
  {
    if lines == [] then [] else Kept(lines[0]) + NonBlank(lines[1..])
  }

  /** The directories a field's text lists (`get_ref_dirs`, `get_dis_dirs`): its lines, stripped, blank ones dropped. */
  function DirsOf(content: string): seq<string>
  {
    NonBlank(SplitLines(content))
  }

  /** Every entry is non-empty and has no whitespace at either end. */
  predicate CleanEntries(dirs: seq<string>) {
    forall j :: 0 <= j < |dirs| ==> dirs[j] != [] && IsStripped(dirs[j])
  }

  lemma CleanAppend(a: seq<string>, b: seq<string>)
    requires CleanEntries(a) && CleanEntries(b)
    ensures CleanEntries(a + b)
  {
    forall j | 0 <= j < |a + b| ensures (a + b)[j] != [] && IsStripped((a + b)[j]) {
      if j >= |a| {
        assert (a + b)[j] == b[j - |a|];
      }
    }
  }

  /** Every directory listed is non-empty and stripped, and there are no more of them than lines. */
  lemma {:induction false} NonBlankEntries(lines: seq<string>)
    ensures CleanEntries(NonBlank(lines))
    ensures |NonBlank(lines)| <= |lines|
    decreases |lines|
  {
    if lines != [] {
      NonBlankEntries(lines[1..]);
      StripShape(lines[0]);
      CleanAppend(Kept(lines[0]), NonBlank(lines[1..]));
    }
  }

  /** The kept entries of two blocks of lines are those of the first block, then those of the second: entries keep the order of their lines. */
  lemma {:induction false} NonBlankAppend(a: seq<string>, b: seq<string>)
    ensures NonBlank(a + b) == NonBlank(a) + NonBlank(b)
    decreases |a|
  {
    if a == [] {
      assert a + b == b;
    } else {
      assert (a + b)[0] == a[0] && (a + b)[1..] == a[1..] + b;
      NonBlankAppend(a[1..], b);
    }
  }

  /** Lines that are already non-empty and stripped are all kept, unchanged and in order. */
  lemma {:induction false} NonBlankOfClean(lines: seq<string>)
    requires CleanEntries(lines)
    ensures NonBlank(lines) == lines
    decreases |lines|
  {
    if lines != [] {
      StripStripped(lines[0]);
      assert CleanEntries(lines[1..]) by {
        forall j | 0 <= j < |lines[1..]| ensures lines[1..][j] != [] && IsStripped(lines[1..][j]) {
          assert lines[1..][j] == lines[j + 1];
        }
      }
      NonBlankOfClean(lines[1..]);
    }
  }

  lemma NonBlankSingle(x: string)
    ensures NonBlank([x]) == Kept(x)
  {
    assert [x][1..] == [];
  }

  /** A line of whitespace is dropped, and whitespace at either end of a line is not kept. */
  lemma KeptSpace(c: char, x: string)
    requires IsSpace(c)
    ensures Kept([]) == [] && Kept([c]) == []
    ensures Kept([c] + x) == Kept(x) && Kept(x + [c]) == Kept(x)
  {
    StripStripped([]);
    assert ([c] + x)[1..] == x;
    assert [c][1..] == [];
    StripAppendSpace(x, c);
  }

  lemma {:induction false} StripLeftAppendSpace(x: string, c: char)
    requires IsSpace(c)
    ensures StripLeft(x + [c]) == if StripLeft(x) == [] then [] else StripLeft(x) + [c]
    decreases |x|
  {
    if x == [] {
      assert ([] + [c])[1..] == [];
    } else if IsSpace(x[0]) {
      assert (x + [c])[1..] == x[1..] + [c];
      StripLeftAppendSpace(x[1..], c);
    }
  }

  lemma StripAppendSpace(x: string, c: char)
    requires IsSpace(c)
    ensures Strip(x + [c]) == Strip(x)
  {
    StripLeftAppendSpace(x, c);
    var l := StripLeft(x);
    if l != [] {
      assert (l + [c])[..|l|] == l;
    }
  }

  /** Dropping the empty lines first changes nothing: they list no entry. */
  lemma {:induction false} NonBlankNonEmpty(lines: seq<string>)
    ensures NonBlank(NonEmpty(lines)) == NonBlank(lines)
    decreases |lines|
  {
    if lines != [] {
      var x, r := lines[0], lines[1..];
      assert lines == [x] + r;
      NonBlankNonEmpty(r);
      NonEmptyCons(x, r);
      NonBlankCons(x, r);
      if x == [] {
        KeptSpace(' ', []);
        assert [] + NonEmpty(r) == NonEmpty(r);
        assert Kept(x) + NonBlank(r) == NonBlank(r);
      } else {
        NonBlankCons(x, NonEmpty(r));
      }
    }
  }

  /** The entries of a line followed by more lines: the line's entry, then theirs. */
  lemma NonBlankCons(x: string, rest: seq<string>)
    ensures NonBlank([x] + rest) == Kept(x) + NonBlank(rest)
  {
    NonBlankAppend([x], rest);
    NonBlankSingle(x);
  }

  /** A field lists the entries of the pieces of its text between single boundary characters. */
  lemma DirsAsPieces(content: string)
    ensures DirsOf(content) == NonBlank(BreakPieces(content))
  {
    LinesAsPieces(content, 0);
    assert content[0..] == content;
    NonBlankNonEmpty(SplitLines(content));
    NonBlankNonEmpty(BreakPieces(content));
  }

  /** Whitespace in front of the text does not change the directories it lists. */
  lemma DirsPrependSpace(c: char, t: string)
    requires IsSpace(c)
    ensures DirsOf([c] + t) == DirsOf(t)
  {
    DirsAsPieces([c] + t);
    DirsAsPieces(t);
    PiecesCons(c, t);
    var T := BreakPieces(t);
    KeptSpace(c, []);
    if IsLineBreak(c) {
      NonBlankAppend([[]], T);
      NonBlankSingle([]);
    } else {
      KeptSpace(c, T[0]);
      var M := [[c] + T[0]] + T[1..];
      assert M[0] == [c] + T[0] && M[1..] == T[1..];
    }
  }

  /** Whitespace after the text does not change the directories it lists. */
  lemma DirsAppendSpace(t: string, c: char)
    requires IsSpace(c)
    ensures DirsOf(t + [c]) == DirsOf(t)
  {
    DirsAsPieces(t + [c]);
    DirsAsPieces(t);
    PiecesAppendSpace(t, c);
  }

  /** `DirsAppendSpace` on the pieces: a boundary adds an empty piece, any other whitespace extends the last one. */
  lemma PiecesAppendSpace(t: string, c: char)
    requires IsSpace(c)
    ensures NonBlank(BreakPieces(t + [c])) == NonBlank(BreakPieces(t))
  {
    var A := BreakPieces(t);
    PiecesAppend(t, [c]);
    PiecesCons(c, []);
    assert [c] + [] == [c];
    KeptSpace(c, []);
    if IsLineBreak(c) {
      FuseAfterBreak(A, [[]]);
      NonBlankAppend(A, [[]]);
      NonBlankSingle([]);
    } else {
      NonBlankExtendLast(A, c);
    }
  }

  /** Whitespace appended to the last line does not change the entries. */
  lemma NonBlankExtendLast(A: seq<string>, c: char)
    requires A != [] && IsSpace(c)
    ensures NonBlank(FusePieces(A, [[c]])) == NonBlank(A)
  {
    var P, x := A[..|A| - 1], A[|A| - 1];
    assert A == P + [x];
    assert FusePieces(A, [[c]]) == P + [x + [c]];
    NonBlankAppend(P, [x + [c]]);
    NonBlankAppend(P, [x]);
    NonBlankSingle(x + [c]);
    NonBlankSingle(x);
    KeptSpace(c, x);
  }

  lemma {:induction false} DirsOfPadded(w1: string, t: string, w2: string)
    requires forall k :: 0 <= k < |w1| ==> IsSpace(w1[k])
    requires forall k :: 0 <= k < |w2| ==> IsSpace(w2[k])
    ensures DirsOf(w1 + t + w2) == DirsOf(t)
    decreases |w1| + |w2|
  {
    if w1 != [] {
      assert w1 + t + w2 == [w1[0]] + (w1[1..] + t + w2);
      DirsPrependSpace(w1[0], w1[1..] + t + w2);
      DirsOfPadded(w1[1..], t, w2);
    } else if w2 != [] {
      var w := w2[..|w2| - 1];
      assert w1 + t + w2 == (w1 + t + w) + [w2[|w2| - 1]];
      DirsAppendSpace(w1 + t + w, w2[|w2| - 1]);
      DirsOfPadded(w1, t, w);
    } else {
      assert w1 + t + w2 == t;
    }
  }

  /** Stripping a field's whole text does not change the directories it lists. */
  lemma DirsOfStrip(content: string)
    ensures DirsOf(Strip(content)) == DirsOf(content)
  {
    StripShape(content);
    var a := StripStart(content);
    var b := a + |Strip(content)|;
    assert content == content[..a] + Strip(content) + content[b..];
    DirsOfPadded(content[..a], Strip(content), content[b..]);
  }

  // ---------------------------------------------------------------- appending a directory

  /** The text `browse_and_append_dir` writes: the stripped old text, a newline and the chosen path, or just the path when the old text is blank. */
  function AppendedContent(current: string, dirPath: string): string
  {
    var c := Strip(current);
    if c != "" then c + "\n" + dirPath else dirPath
  }

  /** Appending a one-line path to a field adds exactly that path (stripped) to the end of its directory list, and nothing when the path is blank. */
  lemma AppendAddsPath(current: string, dirPath: string)
    requires NoLineBreak(dirPath)
    ensures DirsOf(AppendedContent(current, dirPath)) == DirsOf(current) + Kept(dirPath)
  {
    var c := Strip(current);
    DirsOfStrip(current);
    if c != "" {
      AppendLine(c, dirPath);
    } else {
      OnlyLine(dirPath);
    }
  }

  /** A path chosen in the dialog that has no surrounding whitespace is listed as it is, after the directories already there. */
  lemma AppendAddsCleanPath(current: string, dirPath: string)
    requires dirPath != [] && NoLineBreak(dirPath) && IsStripped(dirPath)
    ensures DirsOf(AppendedContent(current, dirPath)) == DirsOf(current) + [dirPath]
  {
    AppendAddsPath(current, dirPath);
    StripStripped(dirPath);
  }

  /** A text of one line lists that line's entry. */
  lemma OnlyLine(p: string)
    requires NoLineBreak(p)
    ensures DirsOf(p) == Kept(p)
  {
    DirsAsPieces(p);
    PiecesNoBreak(p);
    NonBlankSingle(p);
  }

  /** A line added after a newline lists that line's entry after the text's. */
  lemma AppendLine(c: string, p: string)
    requires NoLineBreak(p)
    ensures DirsOf(c + "\n" + p) == DirsOf(c) + Kept(p)
  {
    DirsAsPieces(c + "\n" + p);
    DirsAsPieces(c);
    PiecesAppendLine(c, p);
    NonBlankAppend(BreakPieces(c), [p]);
    NonBlankSingle(p);
  }

  // ---------------------------------------------------------------- validation

  /** What the file system answers: `os.path.exists`, `os.access(p, os.X_OK)`, `os.access(p, os.W_OK)`. */
  datatype FileSystem = FileSystem(existing: set<string>, executable: set<string>, writable: set<string>)

  /** The checks of `validate`, in the order it makes them. */
  datatype Failure =
    | RefMissing | DisMissing
    | AppMissing | AppNotFound | AppNotExecutable
    | OutputMissing | OutputNotFound | OutputNotWritable

  /** What `validate` reads from the panel. */
  datatype Inputs = Inputs(refDirs: seq<string>, disDirs: seq<string>, appPath: string, outputPath: string)

  function Rank(f: Failure): nat
  {
    match f
    case RefMissing => 0
    case DisMissing => 1
    case AppMissing => 2
    case AppNotFound => 3
    case AppNotExecutable => 4
    case OutputMissing => 5
    case OutputNotFound => 6
    case OutputNotWritable => 7
  }

  /** The check `f` fails on these inputs. */
  predicate Fails(f: Failure, x: Inputs, fs: FileSystem)
  {
    match f
    case RefMissing => x.refDirs == []
    case DisMissing => x.disDirs == []
    case AppMissing => x.appPath == []
    case AppNotFound => x.appPath !in fs.existing
    case AppNotExecutable => x.appPath !in fs.executable
    case OutputMissing => x.outputPath == []
    case OutputNotFound => x.outputPath !in fs.existing
    case OutputNotWritable => x.outputPath !in fs.writable
  }

  /** The check `validate` stops at, if any. */
  function FirstFailure(x: Inputs, fs: FileSystem): Option<Failure>
  {
    if x.refDirs == [] then Some(RefMissing)
    else if x.disDirs == [] then Some(DisMissing)
    else if x.appPath == [] then Some(AppMissing)
    else if x.appPath !in fs.existing then Some(AppNotFound)
    else if x.appPath !in fs.executable then Some(AppNotExecutable)
    else if x.outputPath == [] then Some(OutputMissing)
    else if x.outputPath !in fs.existing then Some(OutputNotFound)
    else if x.outputPath !in fs.writable then Some(OutputNotWritable)
    else None
  }

  /** `validate` stops at a check exactly when that check fails and every earlier one passes; it passes exactly when no check fails. */
  lemma FirstFailureIsFirst(x: Inputs, fs: FileSystem, f: Failure)
    ensures FirstFailure(x, fs) == Some(f) <==> Fails(f, x, fs) && forall g :: Rank(g) < Rank(f) ==> !Fails(g, x, fs)
    ensures FirstFailure(x, fs) == None <==> forall g :: !Fails(g, x, fs)
  {
    if FirstFailure(x, fs) == None {
      forall g ensures !Fails(g, x, fs) {
        match g
        case RefMissing =>
        case DisMissing =>
        case AppMissing =>
        case AppNotFound =>
        case AppNotExecutable =>
        case OutputMissing =>
        case OutputNotFound =>
        case OutputNotWritable =>
      }
    } else {
      var h := FirstFailure(x, fs).value;
      assert Fails(h, x, fs);
      forall g | Rank(g) < Rank(h) ensures !Fails(g, x, fs) {
        match g
        case RefMissing =>
        case DisMissing =>
        case AppMissing =>
        case AppNotFound =>
        case AppNotExecutable =>
        case OutputMissing =>
        case OutputNotFound =>
        case OutputNotWritable =>
      }
    }
  }

  // ---------------------------------------------------------------- the panel

  datatype DriverField = Reference | Distorted

  /** `InputSection`: the texts of its four fields. */
  class Panel {
    var refText: string
    var disText: string
    var appText: string
    var outputText: string

    function DriverText(d: DriverField): string
      reads this
    {
      if d == Reference then refText else disText
    }

    /** What `validate` sees: both directory lists, and the stripped application and output paths. */
    function CurrentInputs(): Inputs
      reads this
    {
      Inputs(DirsOf(refText), DirsOf(disText), Strip(appText), Strip(outputText))
    }

    constructor ()
      ensures refText == [] && disText == [] && appText == [] && outputText == []
    {
      refText, disText, appText, outputText := [], [], [], [];
    }

    /**
     * `browse_and_append_dir`: `dirPath` is what the directory dialog
     * returned, the empty text when it was cancelled.
     */
    method BrowseAndAppendDir(d: DriverField, dirPath: string)
      modifies this
      ensures DriverText(d) == if dirPath == [] then old(DriverText(d)) else AppendedContent(old(DriverText(d)), dirPath)
      ensures d == Reference ==> disText == old(disText)
      ensures d == Distorted ==> refText == old(refText)
      ensures appText == old(appText) && outputText == old(outputText)
    {
      if dirPath != "" {
        var currentContent := Strip(DriverText(d));
        var newContent;
        if currentContent != "" {
          newContent := currentContent + "\n" + dirPath;
        } else {
          newContent := dirPath;
        }
        if d == Reference {
          refText := newContent;
        } else {
          disText := newContent;
        }
      }
    }

    /** `clear_text_widget`: the field is emptied and lists no directory; the others stay. */
    method ClearTextWidget(d: DriverField)
      modifies this
      ensures DriverText(d) == [] && DirsOf(DriverText(d)) == []
      ensures d == Reference ==> disText == old(disText)
      ensures d == Distorted ==> refText == old(refText)
      ensures appText == old(appText) && outputText == old(outputText)
    {
      if d == Reference {
        refText := "";
      } else {
        disText := "";
      }
    }

    /**
     * `validate`: the chain of checks, stopping at the first that fails;
     * `failure` says which (the source logs it, shows it in the status bar
     * and a dialog, and focuses the field).
     */
    method Validate(fs: FileSystem) returns (ok: bool, failure: Option<Failure>)
      ensures failure == FirstFailure(CurrentInputs(), fs)
      ensures ok <==> forall g :: !Fails(g, CurrentInputs(), fs)
      ensures failure.Some? ==> Fails(failure.value, CurrentInputs(), fs)
    {
      var refDirs := DirsOf(refText);
      var disDirs := DirsOf(disText);
      var appPath := Strip(appText);
      var outputPath := Strip(outputText);
      ok := false;
      FirstFailureIsFirst(CurrentInputs(), fs, RefMissing);
      if refDirs == [] {
        return ok, Some(RefMissing);
      }
      if disDirs == [] {
        return ok, Some(DisMissing);
      }
      if appPath == "" {
        return ok, Some(AppMissing);
      } else if appPath !in fs.existing {
        return ok, Some(AppNotFound);
      } else if appPath !in fs.executable {
        return ok, Some(AppNotExecutable);
      }
      if outputPath == "" {
        return ok, Some(OutputMissing);
      } else if outputPath !in fs.existing {
        return ok, Some(OutputNotFound);
      } else if outputPath !in fs.writable {
        return ok, Some(OutputNotWritable);
      }
      return true, None;
    }

    /** `reset`: every field is emptied. */
    method Reset()
      modifies this
      ensures refText == [] && disText == [] && appText == [] && outputText == []
      ensures DirsOf(refText) == [] && DirsOf(disText) == []
    {
      refText, disText := "", "";
      appText, outputText := "", "";
    }
  }
}
