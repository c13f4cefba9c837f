/**
 * The application window: the log font-size counter and its bounds, the
 * light/dark theme switch, showing and hiding the log with the window size
 * that goes with it, the closing prompt, starting and finishing a run, the
 * drain of the worker's log queue, and the reset button. Screen size,
 * window measurements, the exit dialog's answer and wall-clock times are
 * parameters.
 */
module Gui {
  import opened Wrappers
  import opened PyText
  import InputSection
  import TimeSection
  import Tooltip
  import opened LogUtils

  // ---------------------------------------------------------------- window dimensions

  datatype Size = Size(width: int, height: int)

  /** `int(0.3 * screen_w)`, taking 0.3 as the exact decimal. */
  function MinWidth(screenWidth: nat): nat { 3 * screenWidth / 10 }

  /** `screen_h // 2`. */
  function MinHeightWithLog(screenHeight: nat): nat { screenHeight / 2 }

  /** `int((screen_h // 2) * 0.85)`, taking 0.85 as the exact decimal. */
  function MinHeightWithoutLog(screenHeight: nat): nat { screenHeight / 2 * 85 / 100 }

  /** The minimum window size for the log's visibility (`dimensions`). */
  function MinSize(screenWidth: nat, screenHeight: nat, logVisible: bool): Size
  {
    if logVisible then Size(MinWidth(screenWidth), MinHeightWithLog(screenHeight))
    else Size(MinWidth(screenWidth), MinHeightWithoutLog(screenHeight))
  }

  /** Hiding the log keeps the minimum width and lowers the minimum height, strictly as soon as the screen is two pixels high. */
  lemma MinSizes(screenWidth: nat, screenHeight: nat)
    ensures MinSize(screenWidth, screenHeight, false).width == MinSize(screenWidth, screenHeight, true).width
    ensures MinSize(screenWidth, screenHeight, false).height <= MinSize(screenWidth, screenHeight, true).height
    ensures MinSize(screenWidth, screenHeight, false).height < MinSize(screenWidth, screenHeight, true).height <==> screenHeight >= 2
    ensures MinSize(screenWidth, screenHeight, true).width <= screenWidth && MinSize(screenWidth, screenHeight, true).height <= screenHeight
  {
    var h := screenHeight / 2;
    assert h * 85 / 100 <= h;
    if h >= 1 {
      assert h * 85 < h * 100;
    }
  }

  // ---------------------------------------------------------------- font size

  const FontMin: int := 6
  const FontMax: int := 20

  /** `increase_font_size` on the counter. */
  function Increased(n: int): int { if n < FontMax then n + 1 else n }

  /** `decrease_font_size` on the counter. */
  function Decreased(n: int): int { if n > FontMin then n - 1 else n }

  function Min(a: int, b: int): int { if a < b then a else b }
  function Max(a: int, b: int): int { if a < b then b else a }

  /** The size after `k` presses of Ctrl+Plus. */
  function IncreasedTimes(n: int, k: nat): int
  {
    if k == 0 then n else Increased(IncreasedTimes(n, k - 1))
  }

  /** The size after `k` presses of Ctrl+Minus. */
  function DecreasedTimes(n: int, k: nat): int
  {
    if k == 0 then n else Decreased(DecreasedTimes(n, k - 1))
  }

  /** Each press moves the size by one until it reaches 20, and never beyond a size it already had. */
  lemma {:induction false} IncreaseSaturates(n: int, k: nat)
    ensures IncreasedTimes(n, k) == Min(n + k, Max(n, FontMax))
    decreases k
  {
    if k > 0 {
      IncreaseSaturates(n, k - 1);
    }
  }

  /** Each press moves the size by one until it reaches 6, and never below a size it already had. */
  lemma {:induction false} DecreaseSaturates(n: int, k: nat)
    ensures DecreasedTimes(n, k) == Max(n - k, Min(n, FontMin))
    decreases k
  {
    if k > 0 {
      DecreaseSaturates(n, k - 1);
    }
  }

  /** Within the bounds the two keys undo each other, and a size within 6..20 stays within it. */
  lemma FontSteps(n: int)
    ensures FontMin <= n <= FontMax ==> FontMin <= Increased(n) <= FontMax && FontMin <= Decreased(n) <= FontMax
    ensures FontMin <= n < FontMax ==> Decreased(Increased(n)) == n
    ensures FontMin < n <= FontMax ==> Increased(Decreased(n)) == n
    ensures Increased(n) == n <==> n >= FontMax
    ensures Decreased(n) == n <==> n <= FontMin
  {
  }

  /** The two font counters after `reset_all` as written: the log widget goes back to the default size, the counter does not. */
  function ResetFontAsWritten(counter: int, widget: int, default: int): (int, int)
  {
    (counter, default)
  }

  /** The two font counters after a reset that restores both. */
  function ResetFont(counter: int, widget: int, default: int): (int, int)
  {
    (default, default)
  }

  /** A press of Ctrl+Plus: the counter moves and the widget follows it when it moved. */
  function PressIncrease(fonts: (int, int)): (int, int)
  {
    if fonts.0 < FontMax then (fonts.0 + 1, fonts.0 + 1) else fonts
  }

  /** After the reset as written, one Ctrl+Plus jumps from the default 10 to the size before the reset plus one (here 13); after the corrected reset it gives 11. */
  lemma ResetFontFinding()
    ensures ResetFontAsWritten(12, 12, 10).1 == 10
    ensures PressIncrease(ResetFontAsWritten(12, 12, 10)).1 == 13
    ensures PressIncrease(ResetFont(12, 12, 10)).1 == 11
  {
  }

  /** The corrected reset leaves the widget showing the counter, and presses keep it so. */
  lemma ResetFontKeepsSync(counter: int, widget: int, default: int)
    ensures ResetFont(counter, widget, default).0 == ResetFont(counter, widget, default).1 == default
    ensures var f := PressIncrease(ResetFont(counter, widget, default)); f.0 == f.1 == Increased(default)
  {
  }

  // ---------------------------------------------------------------- theme

  /** `toggle_theme` on the mode string: "light" becomes "dark", anything else "light". */
  function ToggledMode(mode: string): string
  {
    if mode == "light" then "dark" else "light"
  }

  /** The theme a mode selects. */
  function ThemeFor(mode: string): Theme
  {
    if mode == "dark" then DarkTheme else LightTheme
  }

  /** A toggle always changes the mode to one of the two modes, and two toggles restore either of them. */
  lemma ToggleTwice(mode: string)
    ensures ToggledMode(mode) != mode
    ensures ToggledMode(mode) == "light" || ToggledMode(mode) == "dark"
    ensures mode == "light" || mode == "dark" ==> ToggledMode(ToggledMode(mode)) == mode
    ensures ThemeFor(ToggledMode(mode)) != ThemeFor(mode) || (mode != "light" && mode != "dark")
  {
  }

  /** The mode is one of the two, and the current theme is the one it selects. */
  predicate ThemeState(mode: string, theme: Theme)
  {
    (mode == "light" || mode == "dark") && theme == ThemeFor(mode)
  }

  // ---------------------------------------------------------------- closing

  const RunningMessage: string := "A process is currently running.\nAre you sure you want to stop the session?"
  const IdleMessage: string := "Are you sure you want to close the application?"

  /** The question `on_closing` asks. */
  function ClosingMessage(processingActive: bool): string
  {
    if processingActive then RunningMessage else IdleMessage
  }

  /** The question names a running process exactly when one is running. */
  lemma ClosingMessages(a: bool, b: bool)
    ensures ClosingMessage(a) == ClosingMessage(b) <==> a == b
    ensures ClosingMessage(a) == RunningMessage <==> a
  {
    assert |RunningMessage| != |IdleMessage|;
  }

  // ---------------------------------------------------------------- fixed log lines

  const ReadyMessage: string := "Application initialized. Ready to process files."
  const HotkeysMessage: string := "Hotkeys: Ctrl+/Ctrl- to adjust font size, Ctrl+Q to exit"
  const StoppedMessage: string := "Session stopped by user during processing"
  const ExitMessage: string := "Application exit confirmed by user"
  const ResetMessage: string := "System reset completed. Ready for new input."

  // ---------------------------------------------------------------- the log queue

  /** Every queued record can be read back. */
  ghost predicate Readable(records: seq<Record>)
  {
    forall i :: 0 <= i < |records| ==> ReadRecord(records[i]).Some?
  }

  /** The text one record is logged as, at wall-clock time `timestamp`. */
  function LoggedText(r: Record, timestamp: string): string
  {
    match ReadRecord(r)
    case Some((message, level, _)) => LogLine(timestamp, level, message)
    case None => []
  }

  /** The text `process_log_queue` appends for the records, each at its own clock reading. */
  function Drained(records: seq<Record>, clock: seq<string>): string
    requires |clock| == |records|
  {
    if records == [] then []
    else Drained(records[..|records| - 1], clock[..|clock| - 1]) + LoggedText(records[|records| - 1], clock[|clock| - 1])
  }

  /** Draining one record more appends its text, after whatever `text` the log already held. */
  lemma DrainedStep(records: seq<Record>, clock: seq<string>, i: nat, text: string)
    requires |clock| == |records| && i < |records|
    ensures Drained(records[..i + 1], clock[..i + 1]) == Drained(records[..i], clock[..i]) + LoggedText(records[i], clock[i])
    ensures text + Drained(records[..i + 1], clock[..i + 1]) == text + Drained(records[..i], clock[..i]) + LoggedText(records[i], clock[i])
  {
    assert records[..i + 1][..i] == records[..i];
    assert clock[..i + 1][..i] == clock[..i];
  }

  /** Messages queued by the worker come out in the log in the order they were queued, each as `log_message` writes it. */
  lemma {:induction false} DrainedLines(messages: seq<string>, levels: seq<string>, theme: Option<Theme>, clock: seq<string>)
    requires |levels| == |messages| == |clock|
    ensures Drained(QueueRecords(messages, levels, theme), clock) == LogLines(messages, levels, clock)
    decreases |messages|
  {
    if messages != [] {
      var n := |messages| - 1;
      var rs := QueueRecords(messages, levels, theme);
      DrainedLines(messages[..n], levels[..n], theme, clock[..n]);
      QueueRecordsPrefix(messages, levels, theme, n);
      assert LoggedText(rs[n], clock[n]) == LogLine(clock[n], levels[n], messages[n]);
      assert Drained(rs, clock) == Drained(rs[..n], clock[..n]) + LoggedText(rs[n], clock[n]);
    }
  }

  /** Queueing a prefix of the messages gives the prefix of the records. */
  lemma QueueRecordsPrefix(messages: seq<string>, levels: seq<string>, theme: Option<Theme>, n: nat)
    requires |levels| == |messages| && n <= |messages|
    ensures QueueRecords(messages, levels, theme)[..n] == QueueRecords(messages[..n], levels[..n], theme)
  {
  }

  /** The records of queueing each message with its level. */
  function QueueRecords(messages: seq<string>, levels: seq<string>, theme: Option<Theme>): (rs: seq<Record>)
    requires |levels| == |messages|
    ensures |rs| == |messages| && Readable(rs)
    ensures forall i :: 0 <= i < |rs| ==>
              && rs[i].Keys == {"message", "level", "theme"}
              && ReadRecord(rs[i]) == Some((messages[i], levels[i], theme))
  {
    seq(|messages|, i requires 0 <= i < |messages| => QueueRecord(messages[i], levels[i], theme))
  }

  /** The lines of logging each message with its level, in order. */
  function LogLines(messages: seq<string>, levels: seq<string>, clock: seq<string>): string
    requires |levels| == |messages| == |clock|
  {
    if messages == [] then []
    else
      var n := |messages| - 1;
      LogLines(messages[..n], levels[..n], clock[..n]) + LogLine(clock[n], levels[n], messages[n])
  }

  /** The body of the loop of `process_log_queue`: one record logged as `log_message` would. */
  method LogRecord(area: LogArea, r: Record, timestamp: string)
    requires ReadRecord(r).Some?
    modifies area
    ensures area.Text() == old(area.Text()) + LoggedText(r, timestamp)
  {
    var (message, level, theme) := ReadRecord(r).value;
    area.LogMessage(message, level, theme, timestamp);
  }

  /** The loop of `process_log_queue`: take records until the queue reports it is empty, logging each. */
  method Drain(queue: LogQueue, area: LogArea, clock: seq<string>)
    requires Readable(queue.items) && |clock| == |queue.items|
    modifies queue, area
    ensures queue.items == []
    ensures area.Text() == old(area.Text()) + Drained(old(queue.items), clock)
  {
    ghost var records := queue.items;
    ghost var text := area.Text();
    var i := 0;
    var empty := false;
    while !empty
      invariant 0 <= i <= |records|
      invariant queue.items == records[i..]
      invariant empty ==> queue.items == []
      invariant |clock| == |records| && Readable(records)
      invariant area.Text() == text + Drained(records[..i], clock[..i])
      decreases |queue.items|, !empty
    {
      var next := queue.GetNowait();
      match next {
        case None =>
          empty := true;
        case Some(r) =>
          assert r == records[i];
          LogRecord(area, r, clock[i]);
          DrainedStep(records, clock, i, text);
          i := i + 1;
      }
    }
    assert records[..i] == records;
    assert clock[..i] == clock;
  }

  // ---------------------------------------------------------------- a run

  /** What `start_process` hands to the analysis thread. */
  datatype Job = Job(refDirs: seq<string>, disDirs: seq<string>, appPath: string, outputPath: string, delayTime: int, benchTime: int)

  // ---------------------------------------------------------------- the application

  /** `QATAP`, the main window, with the parts of its components it reads and changes. */
  class App {
    const screenWidth: nat
    const screenHeight: nat
    /** `font['log_section']`. */
    const defaultFontSize: int
    var logFontSize: int
    /** The font size the log area is configured with. */
    var widgetFontSize: int
    var themeMode: string
    var currentTheme: Theme
    var logVisible: bool
    var logVisibleVar: bool
    /** The grid weight of the log's row. */
    var logRowWeight: int
    var minSize: Size
    var geometry: Size
    /** `processing_active`; its initial `None` is falsy like `false`. */
    var processingActive: bool
    var closed: bool
    const input: InputSection.Panel
    const time: TimeSection.Panel
    const tooltip: Tooltip.Tip
    const logArea: LogArea
    const logQueue: LogQueue

    /** The invariant between events: the parts of `Valid` that the log's visibility does not touch, and the layout that follows it. */
    ghost predicate Valid()
      reads this, tooltip, logQueue
    {
      && Settled()
      && logVisibleVar == logVisible
      && logRowWeight == (if logVisible then 1 else 0)
      && minSize == MinSize(screenWidth, screenHeight, logVisible)
    }

    /** Theme, font sizes, tooltip and queue are consistent; the check box may be ahead of the log, as when Tk has just flipped it. */
    ghost predicate Settled()
      reads this, tooltip, logQueue
    {
      && ThemeState(themeMode, currentTheme)
      && widgetFontSize == logFontSize
      && tooltip.Valid() && tooltip.delay == 500
      && Readable(logQueue.items)
    }

    /** A light window of the minimum size with the log shown, nothing running, and the two startup lines logged. */
    constructor (screenWidth: nat, screenHeight: nat, defaultFontSize: int, clock0: string, clock1: string)
      ensures Valid() && time.Valid()
      ensures this.screenWidth == screenWidth && this.screenHeight == screenHeight && this.defaultFontSize == defaultFontSize
      ensures themeMode == "light" && logVisible && !processingActive && !closed
      ensures logFontSize == defaultFontSize
      ensures geometry == minSize == MinSize(screenWidth, screenHeight, true)
      ensures logArea.Text() == LogLine(clock0, "INFO", ReadyMessage) + LogLine(clock1, "INFO", HotkeysMessage)
      ensures fresh(logArea) && fresh(logQueue) && fresh(input) && fresh(time) && fresh(tooltip)
    {
      var area := StartupLog(clock0, clock1);
      logArea := area;
      this.screenWidth := screenWidth;
      this.screenHeight := screenHeight;
      this.defaultFontSize := defaultFontSize;
      logFontSize := defaultFontSize;
      widgetFontSize := defaultFontSize;
      themeMode := "light";
      currentTheme := LightTheme;
      logVisible := true;
      logVisibleVar := true;
      logRowWeight := 1;
      minSize := MinSize(screenWidth, screenHeight, true);
      geometry := MinSize(screenWidth, screenHeight, true);
      processingActive := false;
      closed := false;
      tooltip := new Tooltip.Tip(500);
      input := new InputSection.Panel();
      time := new TimeSection.Panel();
      logQueue := new LogQueue();

    }

    /** The two lines `__init__` logs, in a new log area. */
    static method StartupLog(clock0: string, clock1: string) returns (area: LogArea)
      ensures fresh(area)
      ensures area.Text() == LogLine(clock0, "INFO", ReadyMessage) + LogLine(clock1, "INFO", HotkeysMessage)
    {
      area := new LogArea();
      area.LogMessage(ReadyMessage, "INFO", Some(LightTheme), clock0);
      area.LogMessage(HotkeysMessage, "INFO", Some(LightTheme), clock1);
    }

    /** `increase_font_size`. */
    method IncreaseFontSize()
      requires Valid()
      modifies this`logFontSize, this`widgetFontSize
      ensures Valid()
      ensures logFontSize == Increased(old(logFontSize))
      ensures old(logFontSize) <= FontMax ==> logFontSize <= FontMax
    {
      if logFontSize < FontMax {
        logFontSize := logFontSize + 1;
        widgetFontSize := logFontSize;
      }
    }

    /** `decrease_font_size`. */
    method DecreaseFontSize()
      requires Valid()
      modifies this`logFontSize, this`widgetFontSize
      ensures Valid()
      ensures logFontSize == Decreased(old(logFontSize))
      ensures old(logFontSize) >= FontMin ==> logFontSize >= FontMin
    {
      if logFontSize > FontMin {
        logFontSize := logFontSize - 1;
        widgetFontSize := logFontSize;
      }
    }

    /** `toggle_theme`: the other mode, its theme, and a log line saying so under the new theme. */
    method ToggleTheme(timestamp: string)
      requires Valid()
      modifies this`themeMode, this`currentTheme, logArea
      ensures Valid()
      ensures themeMode == ToggledMode(old(themeMode)) && themeMode != old(themeMode)
      ensures currentTheme == ThemeFor(themeMode)
      ensures logArea.Text() == old(logArea.Text()) + LogLine(timestamp, "INFO", "Switched to " + themeMode + " theme")
    {
      themeMode := if themeMode == "light" then "dark" else "light";
      currentTheme := if themeMode == "dark" then DarkTheme else LightTheme;
      logArea.LogMessage("Switched to " + themeMode + " theme", "INFO", Some(currentTheme), timestamp);
    }

    /**
     * `update_window_size`, given the window's current measurements: the
     * minimum follows the log's visibility; the width is kept, and so is the
     * height unless the log is hidden, which shrinks the window to the minimum.
     */
    method UpdateWindowSize(currentWidth: int, currentHeight: int)
      modifies this`minSize, this`geometry
      ensures minSize == MinSize(screenWidth, screenHeight, logVisible)
      ensures geometry == Size(currentWidth, if logVisible then currentHeight else MinHeightWithoutLog(screenHeight))
    {
      var minWidth, minHeight;
      var height := currentHeight;
      if logVisible {
        minWidth, minHeight := MinWidth(screenWidth), MinHeightWithLog(screenHeight);
      } else {
        minWidth, minHeight := MinWidth(screenWidth), MinHeightWithoutLog(screenHeight);
        height := minHeight;
      }
      minSize := Size(minWidth, minHeight);
      geometry := Size(currentWidth, height);
    }

    /**
     * `toggle_log_visibility`: a key press flips the check box first; either
     * way the log follows the check box, with its row weight and the window
     * size. Called without an event, the check box may already differ from
     * the log (the check box's own command, or `reset_all` after setting both).
     */
    method ToggleLogVisibility(fromKey: bool, currentWidth: int, currentHeight: int)
      requires Settled()
      modifies this`logVisible, this`logVisibleVar, this`logRowWeight, this`minSize, this`geometry
      ensures Valid()
      ensures logVisible == (if fromKey then !old(logVisibleVar) else old(logVisibleVar))
      ensures old(Valid()) && fromKey ==> logVisible == !old(logVisible)
      ensures geometry == Size(currentWidth, if logVisible then currentHeight else MinHeightWithoutLog(screenHeight))
    {
      if fromKey {
        logVisibleVar := !logVisibleVar;
      }
      logVisible := logVisibleVar;
      logRowWeight := if logVisible then 1 else 0;
      UpdateWindowSize(currentWidth, currentHeight);
    }

    /** A click on the "Show log panel" check box: Tk flips its variable, then runs `toggle_log_visibility` without an event. */
    method ClickLogCheckbox(currentWidth: int, currentHeight: int)
      requires Valid()
      modifies this`logVisible, this`logVisibleVar, this`logRowWeight, this`minSize, this`geometry
      ensures Valid()
      ensures logVisible == !old(logVisible)
      ensures geometry == Size(currentWidth, if logVisible then currentHeight else MinHeightWithoutLog(screenHeight))
    {
      logVisibleVar := !logVisibleVar;
      ToggleLogVisibility(false, currentWidth, currentHeight);
    }

    /** `start_process`: nothing unless the input panel validates; otherwise the job is built from the panels and the run is marked active. */
    method StartProcess(fs: InputSection.FileSystem) returns (job: Option<Job>)
      requires Valid() && time.Valid()
      modifies this`processingActive
      ensures Valid()
      ensures job.Some? <==> InputSection.FirstFailure(input.CurrentInputs(), fs) == None
      ensures job.None? ==> processingActive == old(processingActive)
      ensures job.Some? ==>
                && processingActive
                && job.value.refDirs == InputSection.DirsOf(input.refText) != []
                && job.value.disDirs == InputSection.DirsOf(input.disText) != []
                && job.value.appPath in fs.executable && job.value.outputPath in fs.writable
                && 0 <= job.value.delayTime <= 180 && 1 <= job.value.benchTime <= 180
    {
      var ok, failure := input.Validate(fs);
      if !ok {
        return None;
      }
      var x := input.CurrentInputs();
      assert !InputSection.Fails(InputSection.RefMissing, x, fs);
      assert !InputSection.Fails(InputSection.DisMissing, x, fs);
      assert !InputSection.Fails(InputSection.AppNotExecutable, x, fs);
      assert !InputSection.Fails(InputSection.OutputNotWritable, x, fs);
      var delay := time.GetDelayTime();
      var bench := time.GetBenchTime();
      job := Some(Job(x.refDirs, x.disDirs, x.appPath, x.outputPath, delay, bench));
      processingActive := true;
    }

    /** The completion callback of a run. */
    method FinishProcess()
      requires Valid()
      modifies this`processingActive
      ensures Valid()
      ensures !processingActive
    {
      processingActive := false;
    }

    /**
     * `on_closing` with the exit dialog's answer: the question depends on
     * whether a run is active; a confirmed exit logs it (and the stopped run),
     * destroys the tooltip and closes the window.
     */
    method OnClosing(confirmed: bool, clock0: string, clock1: string) returns (message: string, isProcessing: bool)
      requires Valid()
      modifies this`closed, tooltip, logArea
      ensures Valid()
      ensures message == ClosingMessage(old(processingActive)) && isProcessing == processingActive
      ensures closed == (old(closed) || confirmed)
      ensures !confirmed ==> logArea.Text() == old(logArea.Text())
      ensures confirmed ==> tooltip.window == None && tooltip.pending == {}
      ensures confirmed ==>
                logArea.Text() == old(logArea.Text())
                                  + (if processingActive then LogLine(clock0, "WARNING", StoppedMessage) else [])
                                  + LogLine(clock1, "INFO", ExitMessage)
    {
      if processingActive {
        message := RunningMessage;
        isProcessing := true;
      } else {
        message := IdleMessage;
        isProcessing := false;
      }
      if confirmed {
        ghost var before := logArea.Text();
        if processingActive {
          logArea.LogMessage(StoppedMessage, "WARNING", Some(currentTheme), clock0);
        }
        logArea.LogMessage(ExitMessage, "INFO", Some(currentTheme), clock1);
        tooltip.Destroy();
        closed := true;
      }
    }

    /** `_queue_log_message` from the worker thread. */
    method QueueLogMessage(message: string, level: string, theme: Option<Theme>)
      requires Valid()
      modifies logQueue
      ensures Valid()
      ensures logQueue.items == old(logQueue.items) + [QueueRecord(message, level, theme)]
    {
      QueueRecordRoundTrip(message, level, theme);
      logQueue.Put(message, level, theme);
    }

    /** One pass of `process_log_queue`, `clock` holding the time each record is logged at: the queue is emptied into the log, in order. */
    method ProcessLogQueue(clock: seq<string>)
      requires Valid() && |clock| == |logQueue.items|
      modifies logQueue, logArea
      ensures Valid()
      ensures logQueue.items == []
      ensures logArea.Text() == old(logArea.Text()) + Drained(old(logQueue.items), clock)
    {
      Drain(logQueue, logArea, clock);
    }

    /**
     * `reset_all`, with the window's measurements and the time of the
     * confirmation line: the panels and the log are cleared, the log is shown
     * again, the log holds only the confirmation line, and the font goes back
     * to its default, counter and widget both.
     */
    method ResetAll(currentWidth: int, currentHeight: int, timestamp: string)
      requires Valid()
      modifies input, time, logArea, this`logVisible, this`logVisibleVar, this`logRowWeight, this`minSize, this`geometry,
               this`logFontSize, this`widgetFontSize
      ensures Valid() && time.Valid()
      ensures input.refText == [] && input.disText == [] && input.appText == [] && input.outputText == []
      ensures time.delayText == TimeSection.DefaultText(TimeSection.Delay) && time.benchText == TimeSection.DefaultText(TimeSection.Bench)
      ensures logVisible && geometry == Size(currentWidth, currentHeight)
      ensures logArea.Text() == LogLine(timestamp, "INFO", ResetMessage)
      ensures (logFontSize, widgetFontSize) == ResetFont(old(logFontSize), old(widgetFontSize), defaultFontSize)
    {
      ResetComponents(timestamp);
      RestoreLayout(currentWidth, currentHeight);
    }

    /** The sections' resets in `reset_all` and its confirmation line, which the log section's reset leaves alone in the log. */
    method ResetComponents(timestamp: string)
      requires Valid()
      modifies input, time, logArea
      ensures Valid() && time.Valid()
      ensures input.refText == [] && input.disText == [] && input.appText == [] && input.outputText == []
      ensures time.delayText == TimeSection.DefaultText(TimeSection.Delay) && time.benchText == TimeSection.DefaultText(TimeSection.Bench)
      ensures logArea.Text() == LogLine(timestamp, "INFO", ResetMessage)
    {
      input.Reset();
      time.Reset();
      logArea.Clear();
      logArea.LogMessage(ResetMessage, "INFO", Some(currentTheme), timestamp);
    }

    /**
     * The window part of `reset_all`: both visibility flags set, then
     * `toggle_log_visibility()` without an event, which gives the log's row
     * its weight and keeps the measured size; and the font back to the default.
     */
    method RestoreLayout(currentWidth: int, currentHeight: int)
      requires Valid()
      modifies this`logVisible, this`logVisibleVar, this`logRowWeight, this`minSize, this`geometry,
               this`logFontSize, this`widgetFontSize
      ensures Valid()
      ensures logVisible && geometry == Size(currentWidth, currentHeight)
      ensures (logFontSize, widgetFontSize) == ResetFont(old(logFontSize), old(widgetFontSize), defaultFontSize)
    {
      logVisible := true;
      logVisibleVar := true;
      ToggleLogVisibility(false, currentWidth, currentHeight);
      logFontSize := defaultFontSize;
      widgetFontSize := defaultFontSize;
    }

    /** The font part of `reset_all` as written: only the widget is reset, so it stops showing the counter. */
    method ResetFontSizeAsWritten()
      modifies this`widgetFontSize
      ensures (logFontSize, widgetFontSize) == ResetFontAsWritten(logFontSize, old(widgetFontSize), defaultFontSize)
      ensures widgetFontSize == logFontSize <==> logFontSize == defaultFontSize
    {
      widgetFontSize := defaultFontSize;
    }
  }
}
