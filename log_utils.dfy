/**
 * The log helpers: how a message level chooses a tag, a prefix and a
 * colour, the text `log_message` appends to the log area, and the record a
 * worker thread queues for the GUI to log later.
 */
module LogUtils {
  import opened Wrappers
  import opened PyText

  // ---------------------------------------------------------------- levels and themes

  /** The four ways a message is shown; every level other than the first three is shown as debug. */
  datatype Severity = Info | Warning | Error | Debug

  function SeverityOf(level: string): Severity
  {
    if level == "INFO" then Info
    else if level == "WARNING" then Warning
    else if level == "ERROR" then Error
    else Debug
  }

  /** The colours of a theme that logging reads. */
  datatype Theme = Theme(infoColor: string, warningColor: string, errorColor: string)

  /** The log colours of the light and the dark theme. */
  const LightTheme: Theme := Theme("#0072C6", "#D67F00", "#C00000")
  const DarkTheme: Theme := Theme("#569CD6", "#D7BA7D", "#F48771")

  /** The text-widget tag, the visible prefix and the tag's foreground colour. */
  datatype Style = Style(tag: string, prefix: string, color: string)

  /** The level's style under the theme; without a theme the colours fall back to fixed ones, and debug is always grey. */
  function StyleOf(s: Severity, theme: Option<Theme>): Style
  {
    match s
    case Info => Style("info", "[INFO]", if theme.Some? then theme.value.infoColor else "#0072C6")
    case Warning => Style("warning", "[WARN]", if theme.Some? then theme.value.warningColor else "#D67F00")
    case Error => Style("error", "[ERROR]", if theme.Some? then theme.value.errorColor else "#C00000")
    case Debug => Style("debug", "[DEBUG]", "#555555")
  }

  /** The if-chain of `log_message`. */
  function LevelStyle(level: string, theme: Option<Theme>): Style
  {
    StyleOf(SeverityOf(level), theme)
  }

  /** Which severity a prefix shows, if any. */
  function SeverityOfPrefix(prefix: string): Option<Severity>
  {
    if prefix == "[INFO]" then Some(Info)
    else if prefix == "[WARN]" then Some(Warning)
    else if prefix == "[ERROR]" then Some(Error)
    else if prefix == "[DEBUG]" then Some(Debug)
    else None
  }

  /** The prefix (and equally the tag) tells the severity back: the four styles are told apart by both. */
  lemma PrefixIdentifiesSeverity(s: Severity, t: Severity, theme: Option<Theme>, other: Option<Theme>)
    ensures SeverityOfPrefix(StyleOf(s, theme).prefix) == Some(s)
    ensures StyleOf(s, theme).tag == StyleOf(t, other).tag <==> s == t
    ensures ' ' !in StyleOf(s, theme).prefix
  {
  }

  /** The three named levels get their own style; every other level string, lower-case spellings included, gets the grey debug style whatever the theme. */
  lemma LevelStyles(level: string, theme: Option<Theme>)
    ensures level == "INFO" ==> LevelStyle(level, theme).tag == "info" && LevelStyle(level, theme).prefix == "[INFO]"
    ensures level == "WARNING" ==> LevelStyle(level, theme).tag == "warning" && LevelStyle(level, theme).prefix == "[WARN]"
    ensures level == "ERROR" ==> LevelStyle(level, theme).tag == "error" && LevelStyle(level, theme).prefix == "[ERROR]"
    ensures level !in {"INFO", "WARNING", "ERROR"} ==> LevelStyle(level, theme) == Style("debug", "[DEBUG]", "#555555")
    ensures LevelStyle("info", theme).tag == "debug"
  {
  }

  /** The fallback colours are exactly the light theme's: logging without a theme looks like logging under the light theme. */
  lemma NoThemeIsLight(level: string)
    ensures LevelStyle(level, None) == LevelStyle(level, Some(LightTheme))
    ensures SeverityOf(level) != Debug ==> LevelStyle(level, None).color != LevelStyle(level, Some(DarkTheme)).color
  {
  }

  // ---------------------------------------------------------------- the appended text

  /** `strftime('%H:%M:%S')` of a wall-clock time. */
  function ClockText(hour: nat, minute: nat, second: nat): (t: string)
    requires hour < 24 && minute < 60 && second < 61
  {
    TwoDigits(hour) + ":" + TwoDigits(minute) + ":" + TwoDigits(second)
  }

  function TwoDigits(n: nat): string
    requires n < 100
  {
    [DigitChar(n / 10), DigitChar(n % 10)]
  }

  /** A clock text is eight characters and has no blank in it. */
  lemma ClockTextShape(hour: nat, minute: nat, second: nat)
    requires hour < 24 && minute < 60 && second < 61
    ensures |ClockText(hour, minute, second)| == 8
    ensures ' ' !in ClockText(hour, minute, second)
    ensures ClockText(hour, minute, second)[2] == ':' && ClockText(hour, minute, second)[5] == ':'
  {
    var t := ClockText(hour, minute, second);
    forall k | 0 <= k < 8 ensures t[k] != ' ' {
      if k != 2 && k != 5 {
        assert IsDigit(t[k]);
      }
    }
  }

  /** The first insertion of `log_message`, shown in the level's tag. */
  function HeadText(timestamp: string, level: string): string
  {
    timestamp + " " + LevelStyle(level, None).prefix + " "
  }

  /** The second insertion, untagged. */
  function BodyText(message: string): string
  {
    message + "\n"
  }

  /** Everything one call of `log_message` appends. */
  function LogLine(timestamp: string, level: string, message: string): string
  {
    HeadText(timestamp, level) + BodyText(message)
  }

  /** Reading an appended line back: the timestamp up to the first blank, the prefix up to the next, then the message before the final newline. */
  function ParseLogLine(line: string): Option<(string, Severity, string)>
  {
    var i := IndexOf(line, ' ');
    if i == |line| then None
    else
      var rest := line[i + 1..];
      var j := IndexOf(rest, ' ');
      if j == |rest| then None
      else
        var body := rest[j + 1..];
        if body == [] || body[|body| - 1] != '\n' then None
        else
          match SeverityOfPrefix(rest[..j])
          case None => None
          case Some(s) => Some((line[..i], s, body[..|body| - 1]))
  }

  /** Whatever the message, a line logged with a blank-free timestamp reads back as that timestamp, the level's severity and the message. */
  lemma LogLineRoundTrip(timestamp: string, level: string, message: string)
    requires ' ' !in timestamp
    ensures ParseLogLine(LogLine(timestamp, level, message)) == Some((timestamp, SeverityOf(level), message))
  {
    var prefix := LevelStyle(level, None).prefix;
    PrefixIdentifiesSeverity(SeverityOf(level), SeverityOf(level), None, None);
    assert LogLine(timestamp, level, message) == timestamp + [' '] + (prefix + [' '] + (message + "\n"));
    ParseParts(timestamp, prefix, message, SeverityOf(level));
  }

  /** A blank-free timestamp, a blank, a known prefix, a blank and a message with a newline read back as their parts. */
  lemma ParseParts(timestamp: string, prefix: string, message: string, s: Severity)
    requires ' ' !in timestamp && ' ' !in prefix && SeverityOfPrefix(prefix) == Some(s)
    ensures ParseLogLine(timestamp + [' '] + (prefix + [' '] + (message + "\n"))) == Some((timestamp, s, message))
  {
    var rest := prefix + [' '] + (message + "\n");
    var line := timestamp + [' '] + rest;
    FirstOf(timestamp, ' ', rest);
    assert line[|timestamp| + 1..] == rest;
    assert line[..|timestamp|] == timestamp;
    FirstOf(prefix, ' ', message + "\n");
    assert rest[..|prefix|] == prefix;
    var body := rest[|prefix| + 1..];
    assert body == message + "\n";
    assert body[..|body| - 1] == message;
  }

  /** The first `c` of `a + [c] + b` is just after `a` when `a` has none. */
  lemma FirstOf(a: string, c: char, b: string)
    requires c !in a
    ensures IndexOf(a + [c] + b, c) == |a|
  {
    var s := a + [c] + b;
    assert s[|a|] == c;
  }

  // ---------------------------------------------------------------- the log area

  /** A run of inserted text with the tag it was inserted under, if any. */
  datatype Segment = Segment(text: string, tag: Option<string>)

  function SegmentsText(segments: seq<Segment>): string
  {
    if segments == [] then [] else SegmentsText(segments[..|segments| - 1]) + segments[|segments| - 1].text
  }

  /** The log text widget: its inserted runs, the colours configured for its tags, and whether the user may edit it. */
  class LogArea {
    var segments: seq<Segment>
    var tagColors: map<string, string>
    var editable: bool

    function Text(): string
      reads this
    {
      SegmentsText(segments)
    }

    /** An empty, read-only area. */
    constructor ()
      ensures segments == [] && tagColors == map[] && !editable
      ensures Text() == []
    {
      segments := [];
      tagColors := map[];
      editable := false;
    }

    /** The log section's `reset`: all text deleted, read-only again. */
    method Clear()
      modifies this
      ensures segments == [] && tagColors == old(tagColors) && !editable
      ensures Text() == []
    {
      editable := true;
      segments := [];
      editable := false;
    }

    /**
     * `log_message` at wall-clock time `timestamp`: the level's tag gets its
     * colour, the head is appended under that tag and the message with a
     * newline after it, and the area is left read-only.
     */
    method LogMessage(message: string, level: string, theme: Option<Theme>, timestamp: string)
      modifies this
      ensures var st := LevelStyle(level, theme);
              && segments == old(segments) + [Segment(timestamp + " " + st.prefix + " ", Some(st.tag)), Segment(message + "\n", None)]
              && tagColors == old(tagColors)[st.tag := st.color]
      ensures !editable
      ensures Text() == old(Text()) + LogLine(timestamp, level, message)
    {
      editable := true;
      var st := LevelStyle(level, theme);
      tagColors := tagColors[st.tag := st.color];
      var head := Segment(timestamp + " " + st.prefix + " ", Some(st.tag));
      var body := Segment(message + "\n", None);
      ghost var before := segments;
      segments := segments + [head];
      assert segments[..|segments| - 1] == before;
      assert SegmentsText(segments) == SegmentsText(before) + head.text;
      segments := segments + [body];
      assert segments[..|segments| - 1] == before + [head];
      assert SegmentsText(segments) == SegmentsText(before) + head.text + body.text;
      assert st.prefix == LevelStyle(level, None).prefix;
      assert head.text + body.text == LogLine(timestamp, level, message);
      editable := false;
    }
  }

  // ---------------------------------------------------------------- queued messages

  /** A value of a queued record. */
  datatype Field = Text(s: string) | ThemeField(theme: Option<Theme>)

  type Record = map<string, Field>

  /** The record `_queue_log_message` puts on the queue. */
  function QueueRecord(message: string, level: string, theme: Option<Theme>): Record
  {
    map["message" := Text(message), "level" := Text(level), "theme" := ThemeField(theme)]
  }

  /** What the consumer takes out of a record: the three arguments of `log_message`, or nothing when a key is missing or of the wrong kind. */
  function ReadRecord(r: Record): Option<(string, string, Option<Theme>)>
  {
    if "message" in r && "level" in r && "theme" in r && r["message"].Text? && r["level"].Text? && r["theme"].ThemeField? then
      Some((r["message"].s, r["level"].s, r["theme"].theme))
    else None
  }

  /** A queued record has exactly the three keys, and reading it gives back what was queued. */
  lemma QueueRecordRoundTrip(message: string, level: string, theme: Option<Theme>)
    ensures QueueRecord(message, level, theme).Keys == {"message", "level", "theme"}
    ensures ReadRecord(QueueRecord(message, level, theme)) == Some((message, level, theme))
  {
  }

  /** The thread-safe queue between the worker and the GUI. */
  class LogQueue {
    var items: seq<Record>

    constructor ()
      ensures items == []
    {
      items := [];
    }

    /** `_queue_log_message`. */
    method Put(message: string, level: string, theme: Option<Theme>)
      modifies this
      ensures items == old(items) + [QueueRecord(message, level, theme)]
    {
      items := items + [QueueRecord(message, level, theme)];
    }

    /** `get_nowait`: the oldest record, taken off the queue, or nothing (`queue.Empty`) when there is none. */
    method GetNowait() returns (r: Option<Record>)
      modifies this
      ensures old(items) == [] ==> r == None && items == []
      ensures old(items) != [] ==> r == Some(old(items)[0]) && items == old(items)[1..]
    {
      if items == [] {
        r := None;
      } else {
        r := Some(items[0]);
        items := items[1..];
      }
    }
  }
}
