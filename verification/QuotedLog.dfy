/**
 The text of a quoted container log: `dump_container_log` of
 packages/core/canyonos_core/controller/utils/container_log.py writes it into the deploy log, and
 `_log_message` of packages/cli/canyonos/deploy.py finds the sentinels again. Whatever a
 container prints, the reader meets one begin line, lines that are neither, and one end line.
 */
module QuotedLog {
  import opened Wrappers
  import opened PhaseTracker

  /** What the reader looks for; the writer has its own text, in `Begin` and `End`. */
  const BEGIN := "--- begin container log:"
  const END := "--- end container log:"

  // ------------------------------------------------------- lines of text

  predicate IsBreak(c: char) {
    c == '\n' || c == '\r'
  }

  predicate IsOneLine(s: string) {
    forall c | c in s :: !IsBreak(c)
  }

  function FirstBreak(s: string): (i: nat)
    ensures i <= |s| && IsOneLine(s[..i]) && (i < |s| ==> IsBreak(s[i]))
  {
    if s == "" || IsBreak(s[0]) then 0
    else
      assert s[..1 + FirstBreak(s[1..])] == [s[0]] + s[1..][..FirstBreak(s[1..])];
      1 + FirstBreak(s[1..])
  }

  /** The lines of some text; a carriage return and a line feed after it break once. */
  function SplitLines(s: string): seq<string>
    decreases |s|
  {
    var i := FirstBreak(s);
    if s == "" then []
    else if i == |s| then [s]
    else [s[..i]] + SplitLines(s[if s[i] == '\r' && i + 1 < |s| && s[i + 1] == '\n' then i + 2 else i + 1..])
  }

  /** A line feed, a carriage return, or both in this order end one line. */
  predicate IsLineEnd(end: string, rest: string) {
    end == "\n" || end == "\r\n" || (end == "\r" && !("\n" <= rest))
  }

  /** Whatever ends it, the first line is split off without its end, and the rest is split alike. */
  lemma FirstLineSplitsOff(line: string, end: string, rest: string)
    requires IsOneLine(line) && IsLineEnd(end, rest)
    ensures SplitLines(line + end + rest) == [line] + SplitLines(rest)
  {
    var tail := end[1..] + rest;
    SplitsAt(line, end[0], tail);
    hide SplitLines, IsOneLine;
    assert end == [end[0]] + end[1..] && line + end + rest == line + [end[0]] + tail;
    assert |end| == 2 ==> tail == "\n" + rest && tail[1..] == rest;
    assert |end| == 1 ==> tail == rest;
  }

  lemma SplitsAt(line: string, end: char, tail: string)
    requires IsOneLine(line) && IsBreak(end)
    ensures SplitLines(line + [end] + tail) ==
            [line] + SplitLines(if end == '\r' && "\n" <= tail then tail[1..] else tail)
  {
    var s := line + [end] + tail;
    BreakAt(line, end, tail);
    hide IsOneLine, FirstBreak;
    assert s[..|line|] == line && s[|line|] == end && s[|line| + 1..] == tail;
    assert "\n" <= tail <==> |line| + 1 < |s| && s[|line| + 1] == '\n';
    assert "\n" <= tail ==> s[|line| + 2..] == tail[1..];
  }

  lemma {:induction false} BreakAt(line: string, end: char, rest: string)
    requires IsOneLine(line) && IsBreak(end)
    ensures FirstBreak(line + [end] + rest) == |line|
  {
    var s := line + [end] + rest;
    if line == "" {
      assert s[0] == end;
    } else {
      assert s[1..] == line[1..] + [end] + rest && s[0] == line[0];
      BreakAt(line[1..], end, rest);
    }
  }

  lemma {:induction false} LinesAreOneLine(s: string)
    ensures forall line :: line in SplitLines(s) ==> IsOneLine(line)
    decreases |s|
  {
    var i := FirstBreak(s);
    if i < |s| {
      LinesAreOneLine(s[if s[i] == '\r' && i + 1 < |s| && s[i + 1] == '\n' then i + 2 else i + 1..]);
    } else {
      assert s[..i] == s;
    }
  }

  /** A log as it is written: every line ends in a line feed. */
  function Written(lines: seq<string>): string {
    if lines == [] then "" else lines[0] + "\n" + Written(lines[1..])
  }

  /** Reading a written log line by line gives its lines back. */
  lemma {:induction false} ReadBack(lines: seq<string>)
    requires forall line :: line in lines ==> IsOneLine(line)
    ensures SplitLines(Written(lines)) == lines
  {
    if lines != [] {
      var line, rest := lines[0], Written(lines[1..]);
      ReadBack(lines[1..]);
      FirstLineSplitsOff(line, "\n", rest);
    }
  }

  // ------------------------------------------------------------ log lines

  predicate IsUpper(c: char) {
    'A' <= c <= 'Z'
  }

  /** No colon and no white space. */
  predicate IsNameChar(c: char) {
    c != ':' && c != ' ' && c != '\t' && !IsBreak(c)
  }

  predicate IsLevel(s: string) {
    s != "" && forall c | c in s :: 'A' <= c <= 'Z'
  }

  predicate IsLogger(s: string) {
    s != "" && forall c | c in s :: c !in {':', ' ', '\t', '\n', '\r'}
  }

  /** How many of the first characters are upper-case letters. */
  function LevelLength(s: string): (i: nat)
    ensures i <= |s|
  {
    if s == "" || !IsUpper(s[0]) then 0 else 1 + LevelLength(s[1..])
  }

  function LoggerLength(s: string): (i: nat)
    ensures i <= |s|
  {
    if s == "" || !IsNameChar(s[0]) then 0 else 1 + LoggerLength(s[1..])
  }

  /** The logger and the message after `LEVEL:`, or nothing. */
  function AfterLevel(s: string): Option<string> {
    var i := LevelLength(s);
    if i > 0 && i < |s| && s[i] == ':' then Some(s[i + 1..]) else None
  }

  function AfterLogger(s: string): Option<string> {
    var i := LoggerLength(s);
    if i > 0 && i < |s| && s[i] == ':' then Some(s[i + 1..]) else None
  }

  /** `_log_message`. */
  function Message(line: string): string {
    var named := AfterLevel(line);
    if named.None? || AfterLogger(named.value).None? then ""
    else
      var message := AfterLogger(named.value).value;
      message[..FirstBreak(message)]
  }

  /** A record as the logging module prints it. */
  function LogLine(level: string, logger: string, message: string): string {
    level + ":" + logger + ":" + message
  }

  lemma {:induction false} LevelEnds(level: string, rest: string)
    requires forall c | c in level :: IsUpper(c)
    ensures LevelLength(level + ":" + rest) == |level|
  {
    var s := level + ":" + rest;
    if level == "" {
      assert s[0] == ':';
    } else {
      assert s[1..] == level[1..] + ":" + rest && s[0] == level[0];
      LevelEnds(level[1..], rest);
    }
  }

  lemma {:induction false} LoggerEnds(logger: string, rest: string)
    requires forall c | c in logger :: IsNameChar(c)
    ensures LoggerLength(logger + ":" + rest) == |logger|
  {
    var s := logger + ":" + rest;
    if logger == "" {
      assert s[0] == ':';
    } else {
      assert s[1..] == logger[1..] + ":" + rest && s[0] == logger[0];
      LoggerEnds(logger[1..], rest);
    }
  }

  lemma {:induction false} OneLineHasNoBreak(s: string)
    requires IsOneLine(s)
    ensures FirstBreak(s) == |s|
  {
    if s != "" {
      OneLineHasNoBreak(s[1..]);
    }
  }

  /** What is logged is read back, for every one-line message. */
  lemma MessageOfLogLine(level: string, logger: string, message: string)
    requires IsLevel(level) && IsLogger(logger) && IsOneLine(message)
    ensures Message(LogLine(level, logger, message)) == message
  {
    var tail := logger + ":" + message;
    var line := LogLine(level, logger, message);
    assert line == level + ":" + tail;
    LevelEnds(level, tail);
    assert AfterLevel(line) == Some(tail) by {
      assert line[|level|] == ':' && line[|level| + 1..] == tail;
    }
    LoggerEnds(logger, message);
    assert AfterLogger(tail) == Some(message) by {
      assert tail[|logger|] == ':' && tail[|logger| + 1..] == message;
    }
    OneLineHasNoBreak(message);
    assert message[..|message|] == message;
  }

  lemma {:induction false} LevelIsAll(s: string)
    ensures forall c | c in s[..LevelLength(s)] :: 'A' <= c <= 'Z'
  {
    if s != "" && IsUpper(s[0]) {
      LevelIsAll(s[1..]);
      assert s[..LevelLength(s)] == [s[0]] + s[1..][..LevelLength(s[1..])];
    }
  }

  lemma {:induction false} LoggerIsAll(s: string)
    ensures forall c | c in s[..LoggerLength(s)] :: c !in {':', ' ', '\t', '\n', '\r'}
  {
    if s != "" && IsNameChar(s[0]) {
      LoggerIsAll(s[1..]);
      assert s[..LoggerLength(s)] == [s[0]] + s[1..][..LoggerLength(s[1..])];
    }
  }

  /** Nothing is read from a line that is not of the logged form. */
  lemma OnlyLogLinesHaveMessages(line: string) returns (level: string, logger: string)
    requires Message(line) != ""
    ensures IsLevel(level) && IsLogger(logger)
    ensures LogLine(level, logger, Message(line)) <= line
  {
    hide LevelLength, LoggerLength, IsLevel, IsLogger, FirstBreak, AfterLevel, AfterLogger, LogLine;
    var named := AfterLevel(line).value;
    var message := AfterLogger(named).value;
    level := LevelCut(line);
    logger := LoggerCut(named);
    PartsTogether(level, logger, Message(line), message[FirstBreak(message)..], named, message, line);
  }

  lemma LevelCut(line: string) returns (level: string)
    requires AfterLevel(line).Some?
    ensures IsLevel(level) && line == level + ":" + AfterLevel(line).value
  {
    LevelIsAll(line);
    level := line[..LevelLength(line)];
  }

  lemma LoggerCut(named: string) returns (logger: string)
    requires AfterLogger(named).Some?
    ensures IsLogger(logger) && named == logger + ":" + AfterLogger(named).value
  {
    LoggerIsAll(named);
    logger := named[..LoggerLength(named)];
  }

  lemma PartsTogether(
      level: string, logger: string, text: string, rest: string, named: string, message: string, line: string)
    requires line == level + ":" + named && named == logger + ":" + message && message == text + rest
    ensures LogLine(level, logger, text) <= line
  {
    assert line == LogLine(level, logger, text) + rest;
  }

  // ------------------------------------------------------------- the dump

  const WARNING := "WARNING"

  function Begin(replica: string): string {
    "--- begin container log: " + replica
  }

  function End(name: string): string {
    "--- end container log: " + name + " ---"
  }

  function Indented(text: string): string {
    "  " + text
  }

  /** What `dump_container_log` logs: the start line, every line of the container indented, the end line. */
  function Messages(replica: string, name: string, output: seq<string>): (r: seq<string>)
    ensures |r| == |output| + 2
  {
    [Begin(replica)] + seq(|output|, i requires 0 <= i < |output| => Indented(output[i])) + [End(name)]
  }

  function Dumped(logger: string, replica: string, name: string, output: seq<string>): (r: seq<string>)
    ensures |r| == |output| + 2
  {
    var messages := Messages(replica, name, output);
    seq(|messages|, i requires 0 <= i < |messages| => LogLine(WARNING, logger, messages[i]))
  }

  /** The line carries what the tracker's sentinel tests find in the text. */
  predicate Carries(line: Line, text: string) {
    && (line.begins.Some? <==> BEGIN <= Message(text))
    && (line.ends <==> END <= Message(text))
  }

  ghost predicate CarryAll(lines: seq<Line>, texts: seq<string>) {
    |lines| == |texts| && forall i :: 0 <= i < |lines| ==> Carries(lines[i], texts[i])
  }

  lemma OneLineTogether(a: string, b: string)
    requires IsOneLine(a) && IsOneLine(b)
    ensures IsOneLine(a + b)
  {}

  /** An indented line is no sentinel, and an end line is no start line. */
  lemma SentinelsDiffer(text: string)
    ensures !(BEGIN <= Indented(text)) && !(END <= Indented(text))
    ensures BEGIN <= Begin(text)
    ensures END <= End(text) && !(BEGIN <= End(text))
  {
    assert Indented(text)[0] == ' ' && BEGIN[0] == '-' && END[0] == '-';
    assert End(text)[4] == 'e' && BEGIN[4] == 'b';
    assert "--- begin container log: " == BEGIN + " " && "--- end container log: " == END + " ";
    assert End(text) == END + (" " + text + " ---");
    assert Begin(text) == BEGIN + (" " + text);
  }

  lemma MessagesAreOneLine(text: string)
    requires IsOneLine(text)
    ensures IsOneLine(Begin(text)) && IsOneLine(End(text)) && IsOneLine(Indented(text))
  {
    var begin, end := "--- begin container log: ", "--- end container log: ";
    assert IsOneLine(begin) && IsOneLine(end) && IsOneLine(" ---") && IsOneLine("  ");
    OneLineTogether(begin, text);
    OneLineTogether(end, text);
    OneLineTogether(end + text, " ---");
    OneLineTogether("  ", text);
  }

  lemma AllMessagesAreOneLine(replica: string, name: string, output: string)
    requires IsOneLine(replica) && IsOneLine(name)
    ensures forall i :: 0 <= i < |SplitLines(output)| + 2 ==> IsOneLine(Messages(replica, name, SplitLines(output))[i])
  {
    hide Begin, End, Indented, IsOneLine, SplitLines;
    var shown := SplitLines(output);
    LinesAreOneLine(output);
    MessagesAreOneLine(replica);
    MessagesAreOneLine(name);
    forall i | 0 <= i < |shown| ensures IsOneLine(Indented(shown[i])) {
      assert shown[i] in shown;
      MessagesAreOneLine(shown[i]);
    }
  }

  lemma WarningIsLevel()
    ensures IsLevel(WARNING)
  {}

  /** The lines of a dump are a block, whatever the container printed. */
  lemma DumpIsBlock(logger: string, replica: string, name: string, output: string, lines: seq<Line>)
    requires IsLogger(logger) && IsOneLine(replica) && IsOneLine(name)
    requires CarryAll(lines, Dumped(logger, replica, name, SplitLines(output)))
    ensures IsBlock(lines)
  {
    hide Begin, End, Indented, IsOneLine, SplitLines, IsLogger, IsLevel, Message, LogLine;
    var shown := SplitLines(output);
    var messages, texts := Messages(replica, name, shown), Dumped(logger, replica, name, shown);
    AllMessagesAreOneLine(replica, name, output);
    WarningIsLevel();
    forall i | 0 <= i < |texts| ensures Carries(lines[i], texts[i]) && Message(texts[i]) == messages[i] {
      MessageOfLogLine(WARNING, logger, messages[i]);
    }
    SentinelsDiffer(replica);
    SentinelsDiffer(name);
    forall i | 0 < i < |texts| - 1 ensures lines[i].begins.None? && !lines[i].ends {
      assert messages[i] == Indented(shown[i - 1]);
      SentinelsDiffer(shown[i - 1]);
    }
    assert messages[0] == Begin(replica) && messages[|texts| - 1] == End(name);
  }

  /** Every line the container printed can be read back from its dump, without the indent. */
  lemma DumpKeepsOutput(logger: string, replica: string, name: string, output: string, i: nat)
    requires IsLogger(logger) && IsOneLine(replica) && IsOneLine(name) && i < |SplitLines(output)|
    ensures Message(Dumped(logger, replica, name, SplitLines(output))[i + 1]) == "  " + SplitLines(output)[i]
  {
    hide IsOneLine, SplitLines, IsLogger, IsLevel, Message, LogLine;
    AllMessagesAreOneLine(replica, name, output);
    WarningIsLevel();
    MessageOfLogLine(WARNING, logger, Messages(replica, name, SplitLines(output))[i + 1]);
  }

  lemma LogLineIsOneLine(logger: string, message: string)
    requires IsLogger(logger) && IsOneLine(message)
    ensures IsOneLine(LogLine(WARNING, logger, message))
  {
    assert IsOneLine(logger);
    OneLineTogether(WARNING, ":");
    OneLineTogether(WARNING + ":", logger);
    OneLineTogether(WARNING + ":" + logger, ":");
    OneLineTogether(WARNING + ":" + logger + ":", message);
  }

  lemma DumpIsOneLineEach(logger: string, replica: string, name: string, output: string)
    requires IsLogger(logger) && IsOneLine(replica) && IsOneLine(name)
    ensures forall text :: text in Dumped(logger, replica, name, SplitLines(output)) ==> IsOneLine(text)
  {
    hide Messages, IsOneLine, SplitLines, IsLogger, LogLine;
    var messages := Messages(replica, name, SplitLines(output));
    AllMessagesAreOneLine(replica, name, output);
    forall i | 0 <= i < |messages| ensures IsOneLine(LogLine(WARNING, logger, messages[i])) {
      LogLineIsOneLine(logger, messages[i]);
    }
  }

  /**
   Written into the log and read back line by line, a dump of any container output leaves every
   other line's output and all of the deploy's own state exactly as they were.
   */
  lemma DumpDoesNotInterfere(
      logger: string, replica: string, name: string, output: string,
      s: State, before: seq<Line>, block: seq<Line>, rest: seq<Line>)
    requires IsLogger(logger) && IsOneLine(replica) && IsOneLine(name)
    requires CarryAll(block, SplitLines(Written(Dumped(logger, replica, name, SplitLines(output)))))
    requires !After(s, before).inContainerLog
    ensures SameButQuotes(After(s, before + block + rest), After(s, before + rest))
    ensures Outputs(s, before + block + rest) ==
            Outputs(s, before) + Silence(|block|) + Outputs(After(s, before), rest)
  {
    DumpIsOneLineEach(logger, replica, name, output);
    ReadBack(Dumped(logger, replica, name, SplitLines(output)));
    DumpIsBlock(logger, replica, name, output, block);
    QuotedLogsDoNotInterfere(s, before, block, rest);
  }
}
