/**
 Class `PhaseTracker` of packages/cli/canyonos/deploy.py: it reads the deploy log line by
 line and says what the terminal shows. Container logs quoted between two sentinels are
 another process's output, and must decide nothing about the deploy itself.

 `Line` carries what the source's regular expressions and substring tests find in a line.
 */
module PhaseTracker {
  import opened Wrappers

  datatype Spinner = Text(text: string) | BuildingImages(count: string) | AgentsReady(ready: nat, total: nat)

  datatype Payload = Plain | ErrorLine(text: string) | ExceptionLine(text: string)

  datatype Line = Line(
    begins: Option<string>,
    ends: bool,
    payload: Payload,
    detail: Option<(string, string)>,
    benign: bool,
    error: bool,
    stepOpened: Option<(string, string)>,
    stepClosed: Option<string>,
    buildComplete: bool,
    building: Option<string>,
    waiting: Option<nat>,
    ready: Option<string>,
    markers: set<nat>,
    now: nat)

  /** What one line makes the caller show: spinner, completed message, and whether it failed. */
  datatype Shown = Shown(spinner: Option<Spinner>, done: Option<string>, isError: bool)

  const SILENT: Shown := Shown(None, None, false)

  /** `_PHASES`: the spinner and the completed message of each marker. */
  const PHASES: seq<(Option<Spinner>, Option<string>)> := [
    (Some(Text("Generating stubs and Docker contexts...")), None),
    (Some(Text("Generating stubs and Docker contexts...")), None),
    (Some(Text("Generating stubs and Docker contexts...")), None),
    (None, Some("No images to build")),
    (None, Some("Build complete")),
    (Some(Text("Starting deploy...")), None),
    (Some(Text("Removing stale containers...")), None),
    (None, Some("Redis ready")),
    (Some(Text("Starting agents...")), None)
  ]

  datatype Progress = Progress(
    spinner: Option<Spinner>,
    replicasTotal: nat,
    replicasReady: set<string>,
    openSteps: map<string, (string, nat)>,
    building: bool,
    stepDetails: map<string, seq<string>>)

  datatype Quote = Quote(agent: Option<string>, error: Option<string>, exception: Option<string>, errors: seq<string>)

  datatype State = State(progress: Progress, inContainerLog: bool, quote: Quote)

  // ------------------------------------------------- the specification

  /** The build step a line closes, if any. */
  function Closed(line: Line): set<string> {
    if line.stepClosed.Some? then {line.stepClosed.value} else {}
  }

  function AgentProgress(p: Progress): Spinner {
    if p.replicasTotal != 0 then AgentsReady(|p.replicasReady|, p.replicasTotal) else Text("Starting agents...")
  }

  function WithDetail(p: Progress, line: Line): Progress {
    if line.detail.None? then p
    else
      var (step, text) := line.detail.value;
      var before := if step in p.stepDetails then p.stepDetails[step] else [];
      p.(stepDetails := p.stepDetails[step := before + [text]])
  }

  function WithSteps(p: Progress, line: Line): Progress {
    var stepOpened :=
      if line.stepOpened.Some? && line.stepOpened.value.0 !in p.openSteps then
        p.openSteps[line.stepOpened.value.0 := (line.stepOpened.value.1, line.now)]
      else p.openSteps;
    var remaining := if line.stepClosed.Some? then stepOpened - {line.stepClosed.value} else stepOpened;
    if line.buildComplete then p.(openSteps := map[], building := false) else p.(openSteps := remaining)
  }

  /** The first phase at or after i whose marker is in the line. */
  function PhaseFrom(p: Progress, line: Line, i: nat): (Progress, Shown)
    decreases |PHASES| - i
  {
    if i >= |PHASES| then (p, SILENT)
    else if i !in line.markers then PhaseFrom(p, line, i + 1)
    else
      var (spinner, done) := PHASES[i];
      if spinner.Some? && spinner != p.spinner && !p.building then
        (p.(spinner := spinner), Shown(spinner, done, false))
      else (p, Shown(None, done, false))
  }

  /** A line of the deploy's own output. */
  function ParseOwn(p: Progress, line: Line): (Progress, Shown) {
    var detailed := WithDetail(p, line);
    if line.benign then (detailed, SILENT)
    else if line.error then (detailed, Shown(None, None, true))
    else
      var stepped := WithSteps(detailed, line);
      if line.building.Some? then
        var s := Some(BuildingImages(line.building.value));
        (stepped.(building := true, spinner := s), Shown(s, None, false))
      else if line.waiting.Some? then
        var t := stepped.(replicasTotal := line.waiting.value);
        (t.(spinner := Some(AgentProgress(t))), Shown(Some(AgentProgress(t)), None, false))
      else if line.ready.Some? then
        var t := stepped.(replicasReady := stepped.replicasReady + {line.ready.value});
        (t.(spinner := Some(AgentProgress(t))), Shown(Some(AgentProgress(t)), None, false))
      else PhaseFrom(stepped, line, 0)
  }

  function Quoted(q: Quote, payload: Payload): Quote {
    match payload
    case ErrorLine(text) => if q.error.None? then q.(error := Some(text)) else q
    case ExceptionLine(text) => q.(exception := Some(text))
    case Plain => q
  }

  function ClosedQuote(q: Quote): Quote {
    var error := if q.error.Some? then q.error else q.exception;
    if error.Some? then
      q.(errors := q.errors + [(if q.agent.Some? then q.agent.value else "None") + ": " + error.value])
    else q
  }

  function Parse(s: State, line: Line): (State, Shown) {
    if line.begins.Some? then
      (s.(inContainerLog := true, quote := Quote(line.begins, None, None, s.quote.errors)), SILENT)
    else if line.ends then (s.(inContainerLog := false, quote := ClosedQuote(s.quote)), SILENT)
    else if s.inContainerLog then (s.(quote := Quoted(s.quote, line.payload)), SILENT)
    else
      var (p, shown) := ParseOwn(s.progress, line);
      (s.(progress := p), shown)
  }

  /**
   What a line may decide. A sentinel, and any line between two, shows nothing and leaves the
   deploy's progress; a line of the deploy's own leaves the quotes; the spinner is what was shown
   last; an error line touches only the details; a step is closed by its own line or a whole build.
   */
  predicate Decides(s: State, line: Line, t: State, shown: Shown) {
    var quoted := line.begins.Some? || line.ends || s.inContainerLog;
    && (quoted ==> shown == SILENT && t.progress == s.progress)
    && (!quoted ==> t.quote == s.quote)
    && t.inContainerLog == (line.begins.Some? || (s.inContainerLog && !line.ends))
    && t.progress.spinner == (if shown.spinner.Some? then shown.spinner else s.progress.spinner)
    && (shown.isError ==> shown == Shown(None, None, true)
                          && t.progress == s.progress.(stepDetails := t.progress.stepDetails))
    && (!line.buildComplete ==> s.progress.openSteps.Keys - Closed(line) <= t.progress.openSteps.Keys)
  }

  lemma LineDecides(s: State, line: Line)
    ensures var (t, shown) := Parse(s, line); Decides(s, line, t, shown)
  {
    OwnDecides(s.progress, line);
    hide ParseOwn;
  }

  lemma OwnDecides(p: Progress, line: Line)
    ensures var (q, shown) := ParseOwn(p, line);
            && q.spinner == (if shown.spinner.Some? then shown.spinner else p.spinner)
            && (shown.isError ==> shown == Shown(None, None, true) && q == p.(stepDetails := q.stepDetails))
            && (!line.buildComplete ==> p.openSteps.Keys - Closed(line) <= q.openSteps.Keys)
  {
    PhaseDecides(WithSteps(WithDetail(p, line), line), line, 0);
    hide PhaseFrom;
  }

  lemma {:induction false} PhaseDecides(p: Progress, line: Line, i: nat)
    ensures var (q, shown) := PhaseFrom(p, line, i);
            && q.spinner == (if shown.spinner.Some? then shown.spinner else p.spinner)
            && q == p.(spinner := q.spinner) && !shown.isError
    decreases |PHASES| - i
  {
    if i < |PHASES| && i !in line.markers {
      PhaseDecides(p, line, i + 1);
    }
  }

  // ------------------------------------------------------- the class

  class Tracker {
    var spinner: Option<Spinner>
    var replicasTotal: nat
    var replicasReady: set<string>
    var openSteps: map<string, (string, nat)>
    var building: bool
    var inContainerLog: bool
    var stepDetails: map<string, seq<string>>
    var agentErrors: seq<string>
    var quotedAgent: Option<string>
    var quotedError: Option<string>
    var quotedException: Option<string>

    constructor ()
      ensures Now() == State(Progress(None, 0, {}, map[], false, map[]), false, Quote(None, None, None, []))
    {
      spinner, replicasTotal, replicasReady, openSteps, building := None, 0, {}, map[], false;
      inContainerLog, stepDetails, agentErrors := false, map[], [];
      quotedAgent, quotedError, quotedException := None, None, None;
    }

    function Now(): State
      reads this
    {
      State(
        Progress(spinner, replicasTotal, replicasReady, openSteps, building, stepDetails),
        inContainerLog,
        Quote(quotedAgent, quotedError, quotedException, agentErrors))
    }

    /** One line of the log: what it shows, and no more than `Decides` allows. */
    method ParseLine(line: Line) returns (shown: Shown)
      modifies this
      ensures (Now(), shown) == Parse(old(Now()), line)
      ensures Decides(old(Now()), line, Now(), shown)
    {
      LineDecides(Now(), line);
      hide ParseOwn, Decides;
      if line.begins.Some? {
        inContainerLog := true;
        quotedAgent, quotedError, quotedException := line.begins, None, None;
        return SILENT;
      }
      if line.ends {
        inContainerLog := false;
        var error := if quotedError.Some? then quotedError else quotedException;
        if error.Some? {
          agentErrors := agentErrors + [(if quotedAgent.Some? then quotedAgent.value else "None") + ": " + error.value];
        }
        return SILENT;
      }
      if inContainerLog {
        if line.payload.ErrorLine? {
          if quotedError.None? {
            quotedError := Some(line.payload.text);
          }
        } else if line.payload.ExceptionLine? {
          quotedException := Some(line.payload.text);
        }
        return SILENT;
      }
      shown := ParseOwnLine(line);
    }

    method ParseOwnLine(line: Line) returns (shown: Shown)
      modifies `spinner, `replicasTotal, `replicasReady, `openSteps, `building, `stepDetails
      ensures (Now().progress, shown) == ParseOwn(old(Now()).progress, line)
    {
      AddDetail(line);
      if line.benign {
        return SILENT;
      }
      if line.error {
        return Shown(None, None, true);
      }
      TrackSteps(line);
      if line.building.Some? {
        building := true;
        spinner := Some(BuildingImages(line.building.value));
        return Shown(spinner, None, false);
      }
      if line.waiting.Some? {
        replicasTotal := line.waiting.value;
        spinner := Some(AgentProgress(Now().progress));
        return Shown(spinner, None, false);
      }
      if line.ready.Some? {
        replicasReady := replicasReady + {line.ready.value};
        spinner := Some(AgentProgress(Now().progress));
        return Shown(spinner, None, false);
      }
      shown := ShowPhase(line);
    }

    method AddDetail(line: Line)
      modifies `stepDetails
      ensures Now().progress == WithDetail(old(Now()).progress, line)
    {
      if line.detail.Some? {
        var (step, text) := line.detail.value;
        var before := if step in stepDetails then stepDetails[step] else [];
        stepDetails := stepDetails[step := before + [text]];
      }
    }

    method TrackSteps(line: Line)
      modifies `openSteps, `building
      ensures Now().progress == WithSteps(old(Now()).progress, line)
    {
      if line.stepOpened.Some? && line.stepOpened.value.0 !in openSteps {
        openSteps := openSteps[line.stepOpened.value.0 := (line.stepOpened.value.1, line.now)];
      }
      if line.stepClosed.Some? {
        openSteps := openSteps - {line.stepClosed.value};
      }
      if line.buildComplete {
        openSteps, building := map[], false;
      }
    }

    method ShowPhase(line: Line) returns (shown: Shown)
      modifies `spinner
      ensures (Now().progress, shown) == PhaseFrom(old(Now()).progress, line, 0)
    {
      for i := 0 to |PHASES|
        invariant Now() == old(Now())
        invariant PhaseFrom(Now().progress, line, 0) == PhaseFrom(Now().progress, line, i)
      {
        if i in line.markers {
          var (message, done) := PHASES[i];
          if message.Some? && message != spinner && !building {
            spinner := message;
            return Shown(message, done, false);
          }
          return Shown(None, done, false);
        }
      }
      shown := SILENT;
    }
  }

  // ------------------------------------------------- non-interference

  function After(s: State, log: seq<Line>): State
    decreases |log|
  {
    if log == [] then s else After(Parse(s, log[0]).0, log[1..])
  }

  function Outputs(s: State, log: seq<Line>): seq<Shown>
    decreases |log|
  {
    if log == [] then [] else [Parse(s, log[0]).1] + Outputs(Parse(s, log[0]).0, log[1..])
  }

  /** A container log as it is quoted: begin, payload lines, end. */
  ghost predicate IsBlock(block: seq<Line>) {
    && |block| >= 2
    && block[0].begins.Some?
    && block[|block| - 1].begins.None? && block[|block| - 1].ends
    && forall i :: 0 < i < |block| - 1 ==> block[i].begins.None? && !block[i].ends
  }

  /** All state but the quoted fields and `agent_errors`. */
  ghost predicate SameButQuotes(s: State, t: State) {
    s.progress == t.progress && s.inContainerLog == t.inContainerLog
  }

  lemma {:induction false} RunsSplit(s: State, a: seq<Line>, b: seq<Line>)
    ensures After(s, a + b) == After(After(s, a), b)
    ensures Outputs(s, a + b) == Outputs(s, a) + Outputs(After(s, a), b)
    decreases |a|
  {
    if a == [] {
      assert a + b == b;
    } else {
      assert (a + b)[1..] == a[1..] + b;
      RunsSplit(Parse(s, a[0]).0, a[1..], b);
    }
  }

  lemma {:induction false} QuotesNeverMatter(s: State, t: State, log: seq<Line>)
    requires SameButQuotes(s, t)
    ensures SameButQuotes(After(s, log), After(t, log))
    ensures Outputs(s, log) == Outputs(t, log)
    decreases |log|
  {
    if log != [] {
      QuotesNeverMatter(Parse(s, log[0]).0, Parse(t, log[0]).0, log[1..]);
    }
  }

  function Silence(n: nat): seq<Shown> {
    seq(n, _ => SILENT)
  }

  lemma {:induction false} PayloadIsSilent(s: State, lines: seq<Line>)
    requires s.inContainerLog
    requires forall i :: 0 <= i < |lines| ==> lines[i].begins.None? && !lines[i].ends
    ensures SameButQuotes(After(s, lines), s)
    ensures Outputs(s, lines) == Silence(|lines|)
    decreases |lines|
  {
    if lines != [] {
      PayloadIsSilent(Parse(s, lines[0]).0, lines[1..]);
    }
  }

  lemma {:induction false} BlockIsSilent(s: State, block: seq<Line>)
    requires !s.inContainerLog && IsBlock(block)
    ensures SameButQuotes(After(s, block), s)
    ensures Outputs(s, block) == Silence(|block|)
  {
    var n := |block| - 1;
    var begun := Parse(s, block[0]).0;
    var lines := block[1..n];
    assert block[1..] == lines + [block[n]];
    forall i | 0 <= i < |lines| ensures lines[i].begins.None? && !lines[i].ends {
      assert lines[i] == block[i + 1];
    }
    PayloadIsSilent(begun, lines);
    RunsSplit(begun, lines, [block[n]]);
    assert Outputs(After(begun, lines), [block[n]]) == [SILENT] + Outputs(Parse(After(begun, lines), block[n]).0, []);
    assert Outputs(s, block) == [SILENT] + (Silence(|lines|) + [SILENT]);
  }

  /**
   Inserting a quoted container log anywhere outside another one leaves every other line's
   output, and all state but the quotes, exactly as they were; the block itself shows nothing.
   */
  lemma {:induction false} QuotedLogsDoNotInterfere(s: State, before: seq<Line>, block: seq<Line>, rest: seq<Line>)
    requires IsBlock(block) && !After(s, before).inContainerLog
    ensures SameButQuotes(After(s, before + block + rest), After(s, before + rest))
    ensures Outputs(s, before + rest) == Outputs(s, before) + Outputs(After(s, before), rest)
    ensures Outputs(s, before + block + rest) ==
            Outputs(s, before) + Silence(|block|) + Outputs(After(s, before), rest)
  {
    var here := After(s, before);
    RunsSplit(s, before, rest);
    RunsSplit(s, before + block, rest);
    RunsSplit(s, before, block);
    BlockIsSilent(here, block);
    QuotesNeverMatter(After(here, block), here, rest);
  }

  // ---------------------------------------------- what a block does leave

  /** The reason a block gives: its first ERROR line, or its last exception line. */
  function FirstError(lines: seq<Line>): Option<string> {
    if lines == [] then None
    else if lines[0].payload.ErrorLine? then Some(lines[0].payload.text)
    else FirstError(lines[1..])
  }

  function LastException(lines: seq<Line>): Option<string> {
    if lines == [] then None
    else
      var last := lines[|lines| - 1];
      if last.payload.ExceptionLine? then Some(last.payload.text) else LastException(lines[..|lines| - 1])
  }

  function Reason(lines: seq<Line>): Option<string> {
    if FirstError(lines).Some? then FirstError(lines) else LastException(lines)
  }

  lemma {:induction false} QuotesGather(s: State, lines: seq<Line>)
    requires s.inContainerLog && s.quote.error.None? && s.quote.exception.None?
    requires forall i :: 0 <= i < |lines| ==> lines[i].begins.None? && !lines[i].ends
    ensures var q := After(s, lines).quote;
            && q.error == FirstError(lines) && q.exception == LastException(lines)
            && q.agent == s.quote.agent && q.errors == s.quote.errors
  {
    if lines != [] {
      var front, last := lines[..|lines| - 1], lines[|lines| - 1];
      assert lines == front + [last];
      QuotesGather(s, front);
      RunsSplit(s, front, [last]);
      PayloadIsSilent(s, front);
      assert After(After(s, front), [last]) == Parse(After(s, front), last).0;
      FirstErrorSplits(front, last);
    }
  }

  lemma {:induction false} FirstErrorSplits(front: seq<Line>, last: Line)
    ensures FirstError(front + [last]) ==
            if FirstError(front).Some? then FirstError(front)
            else if last.payload.ErrorLine? then Some(last.payload.text) else None
  {
    if front != [] {
      assert (front + [last])[1..] == front[1..] + [last];
      FirstErrorSplits(front[1..], last);
    } else {
      assert (front + [last])[1..] == [];
    }
  }

  /** A block adds one agent error, its reason under the agent's name, or none. */
  lemma BlockReportsItsReason(s: State, block: seq<Line>)
    requires IsBlock(block)
    ensures var reason := Reason(block[1..|block| - 1]);
            After(s, block).quote.errors ==
            s.quote.errors + if reason.Some? then [block[0].begins.value + ": " + reason.value] else []
  {
    var n := |block| - 1;
    var begun := Parse(s, block[0]).0;
    var lines := block[1..n];
    assert block[1..] == lines + [block[n]];
    forall i | 0 <= i < |lines| ensures lines[i].begins.None? && !lines[i].ends {
      assert lines[i] == block[i + 1];
    }
    QuotesGather(begun, lines);
    RunsSplit(begun, lines, [block[n]]);
    assert After(After(begun, lines), [block[n]]) == Parse(After(begun, lines), block[n]).0;
  }

  // ------------------------------------------------- what the spinner counts

  /** The log ends inside a quoted container log. */
  predicate EndsQuoted(log: seq<Line>) {
    log != [] && (log[|log| - 1].begins.Some? || (!log[|log| - 1].ends && EndsQuoted(log[..|log| - 1])))
  }

  /** The lines outside quoted container logs, without the sentinels. */
  function OwnLines(log: seq<Line>): seq<Line> {
    if log == [] then []
    else
      var front, last := log[..|log| - 1], log[|log| - 1];
      OwnLines(front) + if last.begins.Some? || last.ends || EndsQuoted(front) then [] else [last]
  }

  /** The line is read for agents: it is no error, and no image is being built by it. */
  predicate IsAboutAgents(line: Line) {
    !line.benign && !line.error && line.building.None?
  }

  /** The replicas that these lines report as ready. */
  function ReadyNames(own: seq<Line>): set<string> {
    set line | line in own && IsAboutAgents(line) && line.waiting.None? && line.ready.Some? :: line.ready.value
  }

  /** How many replicas the last line that says so waits for. */
  function AwaitedTotal(own: seq<Line>): nat {
    if own == [] then 0
    else
      var last := own[|own| - 1];
      if IsAboutAgents(last) && last.waiting.Some? then last.waiting.value else AwaitedTotal(own[..|own| - 1])
  }

  /** The counts a tracker has when these are the own lines it has read. */
  ghost predicate Counts(p: Progress, own: seq<Line>) {
    p.replicasReady == ReadyNames(own) && p.replicasTotal == AwaitedTotal(own)
  }

  lemma NamesGrow(own: seq<Line>, line: Line)
    ensures ReadyNames(own + [line]) == ReadyNames(own) +
              if IsAboutAgents(line) && line.waiting.None? && line.ready.Some? then {line.ready.value} else {}
    ensures AwaitedTotal(own + [line]) ==
            if IsAboutAgents(line) && line.waiting.Some? then line.waiting.value else AwaitedTotal(own)
  {
    var more := own + [line];
    assert more[..|more| - 1] == own;
    assert forall l :: l in more <==> l in own || l == line;
  }

  /** What a line may show of the agents. */
  predicate ShowsCounts(shown: Shown, own: seq<Line>) {
    shown.spinner.Some? && shown.spinner.value.AgentsReady? ==>
      AwaitedTotal(own) > 0 && shown.spinner.value == AgentsReady(|ReadyNames(own)|, AwaitedTotal(own))
  }

  lemma OneLineCounts(p: Progress, own: seq<Line>, line: Line)
    requires Counts(p, own)
    ensures Counts(ParseOwn(p, line).0, own + [line])
    ensures ShowsCounts(ParseOwn(p, line).1, own + [line])
  {
    NamesGrow(own, line);
    PhaseDecides(WithSteps(WithDetail(p, line), line), line, 0);
    PhaseShowsText(WithSteps(WithDetail(p, line), line), line, 0);
    hide ReadyNames, AwaitedTotal, PhaseFrom;
  }

  lemma {:induction false} PhaseShowsText(p: Progress, line: Line, i: nat)
    ensures var shown := PhaseFrom(p, line, i).1; shown.spinner.Some? ==> shown.spinner.value.Text?
    decreases |PHASES| - i
  {
    if i < |PHASES| && i !in line.markers {
      PhaseShowsText(p, line, i + 1);
    }
  }

  lemma AfterLast(s: State, log: seq<Line>)
    requires log != []
    ensures After(s, log) == Parse(After(s, log[..|log| - 1]), log[|log| - 1]).0
  {
    var front, last := log[..|log| - 1], log[|log| - 1];
    RunsSplit(s, front, [last]);
    assert log == front + [last] && [last][1..] == [];
    assert After(After(s, front), [last]) == Parse(After(s, front), last).0;
  }

  lemma LastLineIs(log: seq<Line>)
    requires log != []
    ensures var front, last := log[..|log| - 1], log[|log| - 1];
            var quoted := last.begins.Some? || last.ends || EndsQuoted(front);
            && OwnLines(log) == (if quoted then OwnLines(front) else OwnLines(front) + [last])
            && EndsQuoted(log) == (last.begins.Some? || (!last.ends && EndsQuoted(front)))
  {}

  lemma LineIsCounted(t: State, own: seq<Line>, last: Line)
    requires Counts(t.progress, own)
    ensures var quoted := last.begins.Some? || last.ends || t.inContainerLog;
            var now := if quoted then own else own + [last];
            && Counts(Parse(t, last).0.progress, now)
            && ShowsCounts(Parse(t, last).1, now)
  {
    OneLineCounts(t.progress, own, last);
    hide ParseOwn, ReadyNames, AwaitedTotal;
  }

  /**
   Over any log the tracker counts the different replicas reported ready outside quoted logs and
   the last total waited for; whenever a line shows agents, it shows these, the ready ones first.
   */
  lemma {:induction false} SpinnerCounts(s: State, log: seq<Line>)
    requires !s.inContainerLog && Counts(s.progress, [])
    ensures Counts(After(s, log).progress, OwnLines(log)) && After(s, log).inContainerLog == EndsQuoted(log)
    ensures log != [] ==> ShowsCounts(Parse(After(s, log[..|log| - 1]), log[|log| - 1]).1, OwnLines(log))
  {
    if log != [] {
      var front, last := log[..|log| - 1], log[|log| - 1];
      SpinnerCounts(s, front);
      AfterLast(s, log);
      LastLineIs(log);
      LineIsCounted(After(s, front), OwnLines(front), last);
      hide After, OwnLines, EndsQuoted, Counts, ShowsCounts, ParseOwn;
    }
  }
}
