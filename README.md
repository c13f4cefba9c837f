# Quality And Performance Assessment Tool — a Dafny model of its core

The tool is a Tk desktop application. It collects reference and distorted
driver directories, an application path and an output directory, together
with a delay time and a bench time. It then starts an analysis in the
background and writes coloured, time-stamped lines into a log area. A
companion script, `perf_monitor.py`, samples CPU and GPU metrics on a timer
while `glretrace` replays a trace. It tracks the frames per second that
`glretrace` prints, fills the rows that were sampled before any frame rate
was known, and averages snapshots for a baseline.

This project models that core in Dafny and proves what it promises:

- `PyText` gives the Python text semantics the core relies on:
  - `str.isspace`, `strip`, `split(',')`, `split()`, `splitlines()` and `in`;
  - the grammars of `int()` and `float()`;
  - `os.path.basename` and `os.path.join`.
- `Gpu` covers vendor detection and the three vendor decoders:
  - the `nvidia-smi` CSV line, which round-trips;
  - the `intel_gpu_top` scan, where the last "Render/3D" reading wins;
  - the AMD sysfs reader, which warns once per file.
- `FpsPattern` covers the regular expression `(\d+\.?\d*)\s*fps`. The greedy
  scanner is proved to be the only way the pattern can match, and the search
  is proved to find the leftmost match.
- `PerfMonitor` covers:
  - snapshots and rows;
  - `get_averaged_snapshot`, as a function and as the loop it is;
  - `SystemMonitor` as a class: `update_fps`, `start`, one turn of the
    sampling loop, `stop` and `fill_final_fps`;
  - the `glretrace` reader.
- `LogUtils` covers `log_message`, which maps a level to a tag, a prefix and
  a colour and appends two inserts. It also covers the queue record and a
  `queue.Queue` with `put` and `get_nowait`.
- `TimeSection`, `InputSection` and `Tooltip` model the three components. Each
  is a class over the texts, flags and timers it updates.
- `Gui` covers the application window:
  - the window bounds;
  - font resizing;
  - the theme toggle;
  - log visibility and window size;
  - closing;
  - starting a process;
  - draining the log queue;
  - resetting.

The clock, the screen size, the file system, the dialogs' answers and the
outputs of external tools are all parameters.

## Model

| member | source | states |
|---|---|---|
| Gpu.Candidates | scripts/perf_monitor.py:73-92 | the vendors that are both in the probe order and usable on the host, and no others |
| Gpu.DetectIsFirstCandidate | scripts/perf_monitor.py:73-92 | about `Gpu.Detect`, the model of `detect`: `detect` returns the first usable vendor in the order NVIDIA, Intel, AMD, and the base monitor only when none is usable |
| Gpu.DetectFallsThrough | scripts/perf_monitor.py:78-92 | when i915 is loaded but `intel_gpu_top` is missing, detection goes on to AMD and then to the base monitor, as if i915 were absent |
| Gpu.StripEachStripped | scripts/perf_monitor.py:119 | the list comprehension keeps the number of fields, leaves every field without surrounding whitespace, and a second pass changes nothing |
| Gpu.NvidiaDecode | scripts/perf_monitor.py:116-128 | a short line or a field that is not a number gives the all-`None` result; a missing power reading means the field held "N/A" |
| Gpu.SplitJoined | scripts/perf_monitor.py:119 | `split(',')` undoes joining with commas when no part holds a comma |
| Gpu.JoinedEnds | scripts/perf_monitor.py:119 | a comma-joined line starts with its first part and ends with its last |
| Gpu.NotApplicableMarker | scripts/perf_monitor.py:122 | "[N/A]", the power field `nvidia-smi` prints when power is unsupported, is recognised as "N/A" |
| Gpu.DigitsNotApplicable | scripts/perf_monitor.py:122 | a numeral is never taken for "N/A" |
| Gpu.StripLeading | scripts/perf_monitor.py:119 | stripping removes the single space `nvidia-smi` prints after each comma |
| Gpu.PowerField | scripts/perf_monitor.py:122 | the printed power field, a decimal wattage such as "35.12" or "[N/A]", is non-empty, stripped and comma-free |
| Gpu.NumeralField | scripts/perf_monitor.py:119 | a printed decimal number ("35" or "35.12") is non-empty, stripped, comma-free and made of digits and a point |
| Gpu.StripPrintedRow | scripts/perf_monitor.py:119 | `stdout.strip()` removes the row's trailing newline and nothing else |
| Gpu.StripParts | scripts/perf_monitor.py:119 | stripping each part of a printed row gives back the printed fields |
| Gpu.FieldsOfRow | scripts/perf_monitor.py:119 | splitting and stripping a printed row gives exactly its four fields |
| Gpu.NvidiaFieldsOfLine | scripts/perf_monitor.py:119 | the fields of a line printed for given readings are their numerals, in query order |
| Gpu.NumeralParse | scripts/perf_monitor.py:120-125 | `float()` of a printed decimal number is the whole part plus the fraction digits over ten to their count, and a number is never "N/A" |
| Gpu.NumeralExample | scripts/perf_monitor.py:122 | the wattage "35.12" stands for 35.12 W |
| Gpu.PowerFieldValue | scripts/perf_monitor.py:122 | the power field is "N/A" exactly when no power was reported; otherwise `float()` gives the decimal wattage printed |
| Gpu.DecodeOfFields | scripts/perf_monitor.py:119-125 | four convertible fields decode to usage, memory, power (`None` for "N/A") and temperature, in that order |
| Gpu.NvidiaRoundTrip | scripts/perf_monitor.py:116-125 | decoding the line `nvidia-smi` prints for any decimal readings (with or without fraction digits) gives back those readings, power `None` exactly when "[N/A]" was printed |
| Gpu.NvidiaShortOutput | scripts/perf_monitor.py:126-128 | fewer than four fields raise IndexError, which gives the all-`None` result |
| Gpu.RenderIndex | scripts/perf_monitor.py:189-193 | the first "Render/3D" token that has a token two places after it, and no earlier one |
| Gpu.RenderIndexFrom | scripts/perf_monitor.py:190-193 | the inner `enumerate` loop: the first qualifying index at or after the start, and none before it |
| Gpu.IntelMetrics | scripts/perf_monitor.py:194 | the Intel decoder reports usage only; memory, power and temperature stay `None` |
| Gpu.ScanRenderLine | scripts/perf_monitor.py:188-193 | the loop over one line's tokens computes the line's reading: none, a value, or a ValueError |
| Gpu.IntelDecode | scripts/perf_monitor.py:180-197 | the loop is proved equal to `Gpu.IntelScan`, the model of the scan in `IntelGpuMonitor.get_metrics`: the loop over all lines computes the Intel decoder's result |
| Gpu.IntelNoReading | scripts/perf_monitor.py:186-194 | output with no usable "Render/3D" line gives usage `None`, not an error |
| Gpu.IntelLastReadingWins | scripts/perf_monitor.py:187-193 | the reading of the last line that has one is reported; `break` leaves only the inner loop |
| Gpu.IntelNoError | scripts/perf_monitor.py:187-194 | without an unparsable reading, the decoder returns normally |
| Gpu.IntelBadValue | scripts/perf_monitor.py:192-197 | one unparsable reading anywhere raises ValueError, which gives the all-`None` result |
| Gpu.AmdFields | scripts/perf_monitor.py:152-169 | about `Gpu.AmdMetrics`, the model of `AmdGpuMonitor.get_metrics`: VRAM is bytes / 1024², power is µW / 10⁶ and temperature is m°C / 1000; usage is `float()` of the busy text; an absent, unreadable or empty file gives `None` for its field; the reading raises exactly when a present counter does not parse |
| Gpu.WarnOnce | scripts/perf_monitor.py:146-149 | about `Gpu.WarnStep`, the model of the warning in `_read_sysfs`: each file name is warned about at most once, never again once warned, and exactly when a read of it failed |
| Gpu.AmdMonitor.constructor | scripts/perf_monitor.py:134-140 | the card path is `/sys/class/drm/card<i>/device` and nothing has been warned about yet |
| Gpu.AmdMonitor.ReadSysfs | scripts/perf_monitor.py:142-150 | the stripped contents, or `None` with a warning only on the first failure for that file name |
| Gpu.AmdMonitor.ConvertCounter | scripts/perf_monitor.py:155-162 | `int(text) / unit` when the text is present, `None` when absent, failure when `int()` raises |
| Gpu.AmdMonitor.GetMetrics | scripts/perf_monitor.py:152-169 | the sequence of reads and conversions computes the AMD reading, or the ValueError |
| Gpu.MetricsOf | scripts/perf_monitor.py:94-128 | the base monitor always gives the all-`None` result, and so does a vendor tool that fails to run |
| FpsPattern.DigitRunEnd | scripts/perf_monitor.py:318 | `\d+` eats the longest run of digits |
| FpsPattern.SpaceRunEnd | scripts/perf_monitor.py:318 | `\s*` eats the longest run of whitespace |
| FpsPattern.RegexMatchIsGreedy | scripts/perf_monitor.py:318 | the pattern matches at a start with a given group exactly when the greedy scanner accepts there and ends the group at the same place |
| FpsPattern.TailFacts | scripts/perf_monitor.py:318 | a group followed by `\s*fps` ends before a character that is neither a digit nor '.' |
| FpsPattern.MatchedGroupIsGreedy | scripts/perf_monitor.py:318 | every match of the pattern has the greedy group |
| FpsPattern.GreedyGroupMatches | scripts/perf_monitor.py:318 | whatever the scanner accepts is a match of the pattern |
| FpsPattern.GreedyGroupFloat | scripts/perf_monitor.py:325 | the captured group is always accepted by `float()`, and its value is not negative |
| FpsPattern.GroupParts | scripts/perf_monitor.py:318 | a group is digits, optionally followed by '.' and more digits |
| FpsPattern.SearchFrom | scripts/perf_monitor.py:324 | the scan returns the first start where the pattern matches, and none before it |
| FpsPattern.SearchIsLeftmost | scripts/perf_monitor.py:324 | `re.search` finds a match exactly when one exists, and it finds the leftmost |
| FpsPattern.FpsOfMatch | scripts/perf_monitor.py:322-330 | about `FpsPattern.FpsOf`, the model of the match and `float()` in the reader loop: a line yields a frame rate exactly when its stripped text matches, and that rate is not negative |
| FpsPattern.UpperCaseIgnored | scripts/perf_monitor.py:318 | the match is case-sensitive: "60 FPS" yields nothing |
| FpsPattern.NoDigitNoFps | scripts/perf_monitor.py:318 | a line without digits never changes the frame rate |
| PerfMonitor.RowKeysAreCsvHeaders | scripts/perf_monitor.py:223-255 | a sampled row has exactly the CSV headers as keys, with its elapsed time and frame rate |
| PerfMonitor.NumericKeysCounted | scripts/perf_monitor.py:290-298 | a key gets an average exactly when at least one number was counted for it |
| PerfMonitor.CountPositive | scripts/perf_monitor.py:290-294 | a key's count is positive exactly when some snapshot holds a number at it |
| PerfMonitor.AveragedKeys | scripts/perf_monitor.py:286-300 | about `PerfMonitor.Averaged`, the model of `get_averaged_snapshot`: the result has exactly the keys that hold a number in some snapshot |
| PerfMonitor.AveragedEmpty | scripts/perf_monitor.py:286-300 | no snapshots give an empty dictionary |
| PerfMonitor.TotalAppend | scripts/perf_monitor.py:290-294 | totals and counts add up over concatenated snapshot lists |
| PerfMonitor.AveragedSkipsNonNumeric | scripts/perf_monitor.py:292 | a snapshot without numbers (only `None` or text) changes no average |
| PerfMonitor.TotalBounds | scripts/perf_monitor.py:290-294 | numbers within `[lo, hi]` sum to between `lo` times their count and `hi` times their count |
| PerfMonitor.AveragedBounds | scripts/perf_monitor.py:296-298 | each average lies between the smallest and the largest number averaged |
| PerfMonitor.AveragedExample | scripts/perf_monitor.py:286-300 | 10, `None` and 20 average to 15: `None` is not counted |
| PerfMonitor.AddSnapshot | scripts/perf_monitor.py:291-294 | the inner loop adds every number of a snapshot to its key's sum and adds one to its count, and leaves other keys alone |
| PerfMonitor.SumStep | scripts/perf_monitor.py:293 | `avg_snapshot[key] += value` keeps the sums' loop invariant |
| PerfMonitor.CountStep | scripts/perf_monitor.py:294 | `valid_counts[key] += 1` keeps the counts' loop invariant |
| PerfMonitor.SkipStep | scripts/perf_monitor.py:292 | a value that is not a number changes neither map |
| PerfMonitor.AccumulateStep | scripts/perf_monitor.py:290-294 | after each snapshot the sums and counts are the totals and counts of the snapshots seen so far |
| PerfMonitor.DividedIsAveraged | scripts/perf_monitor.py:296-300 | dividing each sum by its positive count gives the averages |
| PerfMonitor.GetAveragedSnapshot | scripts/perf_monitor.py:286-300 | the two loops compute, for every key holding a number somewhere, the mean of those numbers |
| PerfMonitor.LastPositiveFps | scripts/perf_monitor.py:274-278 | the value found by the backward scan is positive |
| PerfMonitor.LastPositiveAt | scripts/perf_monitor.py:274-278 | the backward scan stops at the last row with a positive frame rate |
| PerfMonitor.NoLastPositive | scripts/perf_monitor.py:274-278 | the scan finds nothing exactly when no row has a positive frame rate |
| PerfMonitor.FillKeeps | scripts/perf_monitor.py:279-283 | filling keeps the row count, every reading and every elapsed time, and every row whose rate is not 0 |
| PerfMonitor.FillFromLastPositive | scripts/perf_monitor.py:273-283 | about `PerfMonitor.Filled`, the model of `fill_final_fps`: every 0 rate becomes the last positive rate |
| PerfMonitor.FillWithoutPositive | scripts/perf_monitor.py:273-283 | without a positive rate, every 0 becomes the current rate, and nothing changes exactly when that rate is 0 or there is no 0 |
| PerfMonitor.FillLeavesNoZero | scripts/perf_monitor.py:272-283 | a 0 rate survives only when no rate was ever positive and the current rate is 0 |
| PerfMonitor.FillIdempotent | scripts/perf_monitor.py:272-283 | a second fill changes nothing |
| PerfMonitor.FillExamples | scripts/perf_monitor.py:272-283 | [0, 0, 5, 0, 8, 0] fills to [8, 8, 5, 8, 8, 8]; all zeros with a current rate of 0 stay zeros |
| PerfMonitor.FillKeepsOrder | scripts/perf_monitor.py:279-283 | filling keeps the elapsed times ordered and bounded |
| PerfMonitor.LastValidFps | scripts/perf_monitor.py:273-278 | the backward loop picks the last positive rate, else `current_fps` |
| PerfMonitor.SystemMonitor.constructor | scripts/perf_monitor.py:203-211 | not running, no thread, no rows, no start time, frame rate 0, GPU vendor from `detect` |
| PerfMonitor.SystemMonitor.UpdateFps | scripts/perf_monitor.py:213-216 | the frame rate is replaced and the invariant kept |
| PerfMonitor.SystemMonitor.Start | scripts/perf_monitor.py:257-262 | a second `start` does nothing; otherwise the flag is set, a thread exists and its loop begins with `start_time` at now |
| PerfMonitor.SystemMonitor.LoopIteration | scripts/perf_monitor.py:220-233 | one turn appends a row with the elapsed time since start and the current rate, and sleeps the rest of the interval only when that is positive; a failing GPU read ends the loop |
| PerfMonitor.SystemMonitor.Stop | scripts/perf_monitor.py:264-270 | stopping a stopped monitor does nothing; otherwise the flag, the loop and the thread are gone |
| PerfMonitor.SystemMonitor.FillFinalFps | scripts/perf_monitor.py:272-283 | the rows become their filled version, and elapsed times stay ordered |
| PerfMonitor.FpsAfterNoMatch | scripts/perf_monitor.py:324-330 | output without a match leaves the frame rate unchanged |
| PerfMonitor.FpsAfterLastMatch | scripts/perf_monitor.py:324-330 | about `PerfMonitor.FpsAfter`, the rate after the reader loop of `log_glretrace_output`: the frame rate ends as the one in the last matching line |
| PerfMonitor.FpsAfterNonNegative | scripts/perf_monitor.py:325-327 | the reader never sets a negative frame rate |
| PerfMonitor.ReaderStep | scripts/perf_monitor.py:321-330 | each line adds one echoed line and updates the rate only when it matches |
| PerfMonitor.LogGlretraceOutput | scripts/perf_monitor.py:316-331 | the loop echoes every stripped line with the `[glretrace]` prefix and leaves the monitor at the last matched rate |
| PyText.StripShape | scripts/perf_monitor.py:322 | `strip()` removes exactly the leading and trailing whitespace |
| PyText.StripIdempotent | app/components/input_section.py:144 | stripping twice is stripping once |
| PyText.SplitCons | scripts/perf_monitor.py:119 | `split(',')` cuts at every comma |
| PyText.LinesAsPieces | app/components/input_section.py:216-222 | the non-empty lines of `splitlines()` are the non-empty pieces between line breaks |
| PyText.ParseIntRoundTrip | app/components/time_section.py:18 | `int(str(n)) == n` |
| PyText.ParseFloatOfDecimal | scripts/perf_monitor.py:325 | `float()` accepts every `\d+\.?\d*` text, with a value that is not negative |
| PyText.ParseFloatOfNat | scripts/perf_monitor.py:120-125 | `float(str(n)) == n` |
| PyText.ParseFloatOfPoint | scripts/perf_monitor.py:120-125 | `float("ip.fp")` for digit strings exceeds the whole part `ip` by the fraction digits over ten to their count |
| PyText.BasenameOfJoin | scripts/perf_monitor.py:147-153 | the basename of `os.path.join(dir, name)` is `name` |
| TimeSection.ValidateInteger | app/components/time_section.py:14-26 | the empty text is accepted; a non-empty text is accepted exactly when `int()` reads it as a number within the bounds and it has no leading zero |
| TimeSection.ValidateIntegerBounds | app/components/time_section.py:14-26 | `str(n)` is accepted exactly when `n` is within the bounds, and a number outside them is refused however it is written |
| TimeSection.LeadingZeroRejected | app/components/time_section.py:22-23 | "00", "05" and the like are refused |
| TimeSection.DefaultsAccepted | app/components/time_section.py:29-36 | "0" and "1" pass their fields' validators and parse to the minima |
| TimeSection.AcceptedTimeInBounds | app/components/time_section.py:101-113 | about `TimeSection.TimeOf`, the model of `get_delay_time` and `get_bench_time`: an accepted text gives a time within the field's bounds, and the empty text gives the minimum |
| TimeSection.Panel.constructor | app/components/time_section.py:65-84 | the fields start at "0" and "1" and are valid |
| TimeSection.Panel.Edit | app/components/time_section.py:70-89 | a keystroke is kept exactly when the validator accepts the text it proposes; the other field does not change |
| TimeSection.Panel.HandleFocusOut | app/components/time_section.py:95-99 | an emptied field is refilled with its default |
| TimeSection.Panel.GetDelayTime | app/components/time_section.py:101-106 | the delay is `int(text or "0")`, within 0..180 |
| TimeSection.Panel.GetBenchTime | app/components/time_section.py:108-113 | the bench time is `int(text or "1")`, within 1..180 |
| TimeSection.Panel.Reset | app/components/time_section.py:115-118 | both fields go back to their defaults |
| InputSection.NonBlankEntries | app/components/input_section.py:216-222 | every directory returned is non-empty and stripped, and there are no more than there are lines |
| InputSection.NonBlankAppend | app/components/input_section.py:216-222 | the directories of concatenated lines are the concatenated directories |
| InputSection.NonBlankOfClean | app/components/input_section.py:216-222 | clean lines are returned as they are |
| InputSection.DirsAsPieces | app/components/input_section.py:216-222 | about `InputSection.DirsOf`, the model of `get_ref_dirs` and `get_dis_dirs`: the directories are the stripped non-blank pieces between line breaks |
| InputSection.DirsOfPadded | app/components/input_section.py:216-222 | surrounding whitespace does not change the directories |
| InputSection.DirsOfStrip | app/components/input_section.py:216-222 | stripping the content does not change the directories |
| InputSection.AppendAddsPath | app/components/input_section.py:144-150 | about `InputSection.AppendedContent`, the model of `browse_and_append_dir`: appending a chosen path adds exactly its stripped form, if it is not blank, to the directories |
| InputSection.AppendAddsCleanPath | app/components/input_section.py:144-150 | appending a clean path adds exactly that path |
| InputSection.AppendLine | app/components/input_section.py:144-150 | `content + '\n' + path` has the directories of the content, then the path's |
| InputSection.FirstFailureIsFirst | app/components/input_section.py:232-295 | about `InputSection.FirstFailure`, the model of `validate`: `validate` reports the first failing check in source order, and none exactly when every check passes |
| InputSection.Panel.constructor | app/components/input_section.py:9-27 | all four inputs start empty |
| InputSection.Panel.BrowseAndAppendDir | app/components/input_section.py:138-159 | a cancelled dialog changes nothing; otherwise the field becomes the stripped content plus the new path on its own line; other fields do not change |
| InputSection.Panel.ClearTextWidget | app/components/input_section.py:161-165 | the field becomes empty and yields no directories; other fields do not change |
| InputSection.Panel.Validate | app/components/input_section.py:232-295 | the result is the first failing check, and success exactly when no check fails |
| InputSection.Panel.Reset | app/components/input_section.py:297-308 | all four inputs become empty |
| LogUtils.PrefixIdentifiesSeverity | app/utils.py:37-55 | the prefix names its severity back, different severities get different tags, and prefixes hold no space |
| LogUtils.LevelStyles | app/utils.py:37-55 | about `LogUtils.LevelStyle`, the level table of `log_message`: INFO, WARNING and ERROR map to their tags and prefixes; any other level, including "info", is DEBUG in #555555 |
| LogUtils.NoThemeIsLight | app/utils.py:37-50 | without a theme the light theme's colours apply; the dark theme differs for every non-debug level |
| LogUtils.ClockTextShape | app/utils.py:34 | `%H:%M:%S` is 8 characters, holds no space, and has colons at positions 2 and 5 |
| LogUtils.LogLineRoundTrip | app/utils.py:61-62 | about `LogUtils.LogLine`, the text `log_message` inserts: from an inserted line the timestamp, the severity and the message can be read back |
| LogUtils.ParseParts | app/utils.py:61-62 | a line assembled from a timestamp, a prefix and a message parses back into them |
| LogUtils.LogArea.constructor | app/components/log_section.py:20-57 | the log area starts empty and read-only |
| LogUtils.LogArea.Clear | app/components/log_section.py:75-79 | the log area is emptied and made read-only again |
| LogUtils.LogArea.LogMessage | app/utils.py:29-65 | the tag's colour is configured, the tagged head and the plain body are appended, and the area is made read-only again |
| LogUtils.QueueRecordRoundTrip | app/utils.py:68-70 | about `LogUtils.QueueRecord`, the model of `_queue_log_message`: a queued record has exactly the keys message, level and theme, and reads back the values put in |
| LogUtils.LogQueue.constructor | app/gui.py:49 | the queue starts empty |
| LogUtils.LogQueue.Put | app/utils.py:68-70 | a record is appended at the back |
| LogUtils.LogQueue.GetNowait | app/gui.py:206-216 | the front record is taken, or Empty when there is none |
| Tooltip.ClampPosition | app/components/tooltip.py:86-114 | the position is never negative; overflowing the right edge moves the tooltip left of it and overflowing the bottom moves it above the pointer |
| Tooltip.Tip.constructor | app/components/tooltip.py:6-14 | nothing shown, nothing scheduled |
| Tooltip.Tip.CreateTooltipWindow | app/components/tooltip.py:16-38 | a hidden window with an empty caption is made only when none exists |
| Tooltip.Tip.CancelScheduled | app/components/tooltip.py:58-62 | a scheduled show is removed from the timer queue and forgotten |
| Tooltip.Tip.ScheduleShow | app/components/tooltip.py:49-56 | the previous show is cancelled, the widget and text are kept, and one show is queued when the delay is positive |
| Tooltip.Tip.ShowTooltip | app/components/tooltip.py:64-84 | no widget or no text shows nothing; otherwise the caption is the text and the window is visible 15 px right of and below the pointer, pulled onto the screen |
| Tooltip.Tip.AdjustPosition | app/components/tooltip.py:86-114 | the window is moved as `ClampPosition` says and stays visible or hidden as it was |
| Tooltip.Tip.TimerFires | app/components/tooltip.py:54-56 | the queued callback is the scheduled one and leaves the queue; the tooltip then shows the current text, visible at the pointer offset by 15 and clamped to the screen, or nothing changes without a widget or text |
| Tooltip.Tip.HideTooltip | app/components/tooltip.py:116-122 | nothing stays scheduled, the window is hidden in place, and the widget and text are forgotten |
| Tooltip.Tip.Destroy | app/components/tooltip.py:124-130 | nothing stays scheduled and the window and caption are gone |
| Gui.MinSizes | app/gui.py:29-38 | about `Gui.MinSize`, the minimum sizes of the dimensions table: both layouts have the same minimum width; hiding the log lowers the minimum height exactly when the screen is at least 2 px tall; the minimum fits on the screen |
| Gui.IncreaseSaturates | app/gui.py:237-241 | k presses of Ctrl+Plus add k but stop at 20 |
| Gui.DecreaseSaturates | app/gui.py:243-247 | k presses of Ctrl+Minus take off k but stop at 6 |
| Gui.FontSteps | app/gui.py:237-247 | about `Gui.Increased` and `Gui.Decreased`, the counters of `increase_font_size` and `decrease_font_size`: the size stays within 6..20, one step is undone by the opposite step, and a step does nothing exactly at the matching bound |
| Gui.ToggleTwice | app/gui.py:516-519 | about `Gui.ToggledMode`, the mode switch of `toggle_theme`: the mode always changes to light or dark, two toggles restore light or dark, and the theme follows the mode |
| Gui.ClosingMessages | app/gui.py:146-156 | about `Gui.ClosingMessage`, the question `on_closing` asks: the closing question depends exactly on whether a process is running |
| Gui.DrainedStep | app/gui.py:203-216 | draining one more record appends that record's line |
| Gui.DrainedLines | app/gui.py:203-216 | draining queued records writes the same lines `log_message` would have written directly, in order |
| Gui.QueueRecords | app/utils.py:68-70 | queuing a list of messages gives one record per message, in order; each has exactly the keys message, level and theme, and the consumer reads back that message, its level and the theme |
| Gui.LogRecord | app/gui.py:207-213 | a record taken from the queue appends its line to the log area |
| Gui.Drain | app/gui.py:203-216 | the loop empties the queue and appends the lines of all its records, in order |
| Gui.App.constructor | app/gui.py:42-121 | light theme, log visible, nothing running, the default font size, the window at its minimum size, and the two startup lines in the log |
| Gui.App.StartupLog | app/gui.py:111-112 | the log holds the "ready" line and then the hotkeys line |
| Gui.App.IncreaseFontSize | app/gui.py:237-241 | the size grows by one up to 20, and the widget follows |
| Gui.App.DecreaseFontSize | app/gui.py:243-247 | the size shrinks by one down to 6, and the widget follows |
| Gui.App.ToggleTheme | app/gui.py:516-543 | the mode flips, the theme matches it, and "Switched to <mode> theme" is logged |
| Gui.App.UpdateWindowSize | app/gui.py:403-418 | the minimum size follows log visibility, and hiding the log snaps the height to the minimum |
| Gui.App.ToggleLogVisibility | app/gui.py:389-401 | the log ends up visible exactly when the check box is set, after a key press has flipped the check box; from a settled window a key press flips visibility; row weight, minimum size and window size follow |
| Gui.App.ClickLogCheckbox | app/components/options_section.py:56-61 | clicking "Show log panel" (Tk flips the variable, then runs the command without an event) flips the log's visibility and resizes the window to match |
| Gui.App.StartProcess | app/gui.py:420-481 | a job starts exactly when validation passes, with non-empty directories, an executable application, a writable output and times within bounds; the flag is set only then |
| Gui.App.FinishProcess | app/gui.py:458-461 | the callback clears the processing flag |
| Gui.App.OnClosing | app/gui.py:146-195 | the message reflects the processing flag; a confirmed exit logs the stop warning if a process was running, then the exit line, and destroys the tooltip; a refused exit changes nothing |
| Gui.App.QueueLogMessage | app/utils.py:68-70 | one record is queued at the back |
| Gui.App.ProcessLogQueue | app/gui.py:203-218 | the queue is emptied into the log area, in order |
| Gui.App.ResetAll | app/gui.py:483-509 | all inputs are empty, the times are at their defaults, the log holds only the reset line, the log is visible, and the font size and its widget are both back at the default |
| Gui.App.ResetComponents | app/gui.py:486-502 | the sections are reset and the reset line is the only line in the log |
| Gui.App.RestoreLayout | app/gui.py:492-505 | the log is visible at the current size and both font sizes are back at the default |
| Gui.App.ResetFontSizeAsWritten | app/gui.py:505 | as written, only the widget is reset; its size agrees with the stored size exactly when that size is already the default |
| Gui.ResetFontFinding | app/gui.py:505 | after a reset, a size of 12 and one Ctrl+Plus give a widget size of 13 rather than 11 |
| Gui.ResetFontKeepsSync | app/gui.py:505 | the corrected reset puts both sizes at the default, and they stay in step on the next press |

## Left out

- Threads, `join`, the `fps_lock` and the daemon flags are not modelled. The sampling loop is one method call per turn (`LoopIteration`), and the reader thread is a loop over the lines it would read.
- Subprocesses (`nvidia-smi`, `intel_gpu_top`, `glretrace`), `psutil`, sysfs files and `glob` are not run. Their outputs are parameters, and a tool that fails is the `None` output.
- `time.monotonic`, `time.sleep`, `datetime.now` and `strftime` are parameters. A sleep is returned as a duration rather than performed.
- `print` output is not modelled, except for the `[glretrace]` lines, which are returned as a list. Also not modelled: `write_csv`, `print_summary`, `main` and its `argparse`, `gen_averaged_snapshot`, and `run_analysis`.
- Floating point is modelled as exact reals. IEEE rounding and `round(…, 4)` on the elapsed time are not modelled, and the factors 0.3 and 0.85 are exact decimals.
- PyText.ParseInt: only ASCII digits are accepted. Other Unicode decimal digits, which Python's `int()` also accepts, are refused.
- PyText.ParseFloat: decimal notation with `_` separators and an exponent only. `inf` and `nan` are refused.
- FpsPattern.DigitRunEnd: `\d` is the ASCII digits '0'..'9'. Python's `re` on `str` also matches every other Unicode decimal digit, so a rate written in such digits is not found by the model. `\s` (FpsPattern.SpaceRunEnd) is `str.isspace`, as in Python.
- Gpu.AmdMonitor.constructor: the FileNotFoundError for a missing card directory is not modelled. `detect` picks AMD only when `card0/device/vendor` exists, so the directory exists.
- Gpu.MetricsOf: requires a vendor other than AMD. The AMD reading is the stateful `AmdMonitor.GetMetrics`, and its ValueError ends the sampling loop, as `LoopIteration` models with a `None` reading.
- Gpu.AmdMonitor.GetMetrics: states the reading but not how the warned set grows. Each read's effect on that set is stated by `ReadSysfs`, and `WarnOnce` states the overall effect.
- Widget styling is not modelled: colours other than the log tags, fonts, `update_theme`, scrollbars, focus and the status-bar text. Also not modelled: the exit and help dialogs, which are a boolean answer, the file dialogs, which are the chosen path, and the options section. `app/style/font.py` is not part of this model; the default font size is a parameter.
- `InputSection.Panel.Validate` and `Gui.App.StartProcess` do not model the error lines, the message boxes or the log lines that `start_process` writes. Their results and state changes are modelled.
- Gui.App.StartProcess: the time section's `Valid()` is a precondition rather than a field of `App.Valid()`, so the bounds of the delay and bench times are stated from it.
- The Tk event loop is not modelled. The `after` timers are the set of pending callback ids, and `process_log_queue` rescheduling itself is one call per drain.
- `processing_active` starts as `None` in the source; it is modelled as `false`, which is what `None` means to every test of it.
- The text of `fill_final_fps` reads as if rows should keep 0 when no rate was ever positive. In the code, `None or self.current_fps` makes the fallback `current_fps`, so the `is not None` test always passes. The model follows the code (`FillWithoutPositive`).

## Findings

| source | as written | input that shows it | evidently intended | confidence | as-written member | corrected member |
|---|---|---|---|---|---|---|
| app/gui.py:505 | `reset_all` sets only the log widget's font back to the default. `self.log_font_size` keeps the old size, and the next Ctrl+Plus or Ctrl+Minus continues from that size. | A default of 10, two presses of Ctrl+Plus (size 12), then Reset: the widget shows 10, and the next Ctrl+Plus shows 13. | The stored size is reset together with the widget, so the next Ctrl+Plus gives 11. | not executed | Gui.App.ResetFontSizeAsWritten, Gui.ResetFontFinding | Gui.App.ResetAll, Gui.ResetFontKeepsSync |
