/**
 Usage delivery as a protocol (packages/cli/canyonos/usage/delivery.py, outbox.py,
 settings.py; packages/cli-usage-api/src/usage.repository.ts): any number of background
 senders, commands recording events, the API, crashes at any time and answers that get lost.

 `written` and `dropped` are history: every file ever put in the outbox, and every event
 that was deleted without having been stored, with the reason.
 */
module DeliveryProtocol {
  import opened Wrappers
  import opened Delivery

  type Proc = nat

  type Batch = seq<Event>

  datatype Cause = OutboxFull | ReportingOff | UnreadableFile

  /** Where a sender is; outside Idle it holds the delivery lock. */
  datatype Phase =
    | Idle
    | Checking
    | Reading(todo: seq<Id>, batch: Batch)
    | Awaiting(request: Batch, reached: bool)
    | Deleting(rest: Batch)

  datatype State = State(
    outbox: seq<Entry>,
    reporting: bool,
    purging: bool,
    lock: Option<Proc>,
    phases: map<Proc, Phase>,
    wire: set<Batch>,
    stored: seq<Batch>,
    written: map<Id, Body>,
    dropped: map<Id, Cause>)

  datatype Step =
    | Record(event: Event)
    | StrayFile(name: Id)
    | TurnOff
    | Purge
    | TurnOn
    | Start(p: Proc)
    | CheckReporting(p: Proc)
    | ReadNext(p: Proc, readable: bool)
    | Post(p: Proc)
    | ApiStores(p: Proc)
    | LateStore(batch: Batch)
    | Answer(p: Proc)
    | NoAnswer(p: Proc)
    | DeleteNext(p: Proc, fails: bool)
    | Crash(p: Proc)

  function PhaseOf(s: State, p: Proc): Phase {
    if p in s.phases then s.phases[p] else Idle
  }

  function NamesOf(files: seq<Entry>): seq<Id> {
    seq(|files|, i requires 0 <= i < |files| => files[i].name)
  }

  function Without(files: seq<Entry>, name: Id): seq<Entry> {
    if files == [] then []
    else (if files[0].name == name then [] else [files[0]]) + Without(files[1..], name)
  }

  function Find(files: seq<Entry>, name: Id): Option<Entry> {
    if files == [] then None
    else if files[0].name == name then Some(files[0])
    else Find(files[1..], name)
  }

  /** `_make_room`: how many of the oldest files a new event pushes out. */
  function Overflow(files: seq<Entry>): nat {
    if |files| >= MAX_PENDING_EVENTS then |files| - MAX_PENDING_EVENTS + 1 else 0
  }

  function Dropping(dropped: map<Id, Cause>, files: seq<Entry>, cause: Cause): map<Id, Cause> {
    dropped + map e | e in files && e.body.Valid? && e.name !in dropped :: e.name := cause
  }

  function Goes(s: State, p: Proc, phase: Phase): State {
    s.(phases := s.phases[p := phase])
  }

  /** The sender ends and the operating system frees its lock. */
  function Ends(s: State, p: Proc): State {
    Goes(s, p, Idle).(lock := None)
  }

  predicate Enabled(s: State, step: Step) {
    match step
    case Record(event) => event.id !in s.written
    case StrayFile(name) => name !in s.written
    case TurnOff => true
    case Purge => s.purging
    case TurnOn => true
    case Start(p) => s.lock.None? && PhaseOf(s, p).Idle?
    case CheckReporting(p) => PhaseOf(s, p).Checking?
    case ReadNext(p, _) =>
      PhaseOf(s, p).Reading? && PhaseOf(s, p).todo != [] && |PhaseOf(s, p).batch| < MAX_EVENTS_PER_REQUEST
    case Post(p) =>
      PhaseOf(s, p).Reading? && (PhaseOf(s, p).todo == [] || |PhaseOf(s, p).batch| == MAX_EVENTS_PER_REQUEST)
    case ApiStores(p) => PhaseOf(s, p).Awaiting?
    case LateStore(batch) => batch in s.wire
    case Answer(p) => PhaseOf(s, p).Awaiting? && PhaseOf(s, p).reached
    case NoAnswer(p) => PhaseOf(s, p).Awaiting?
    case DeleteNext(p, _) => PhaseOf(s, p).Deleting?
    case Crash(p) => !PhaseOf(s, p).Idle?
  }

  function Apply(s: State, step: Step): State
    requires Enabled(s, step)
  {
    match step
    case Record(event) =>
      var k := Overflow(s.outbox);
      s.(outbox := s.outbox[k..] + [Entry(event.id, Valid(event))],
         written := s.written[event.id := Valid(event)],
         dropped := Dropping(s.dropped, s.outbox[..k], OutboxFull))
    case StrayFile(name) =>
      s.(outbox := s.outbox + [Entry(name, Malformed)], written := s.written[name := Malformed])
    case TurnOff => s.(reporting := false, purging := true)
    case Purge =>
      s.(outbox := [], purging := false, dropped := Dropping(s.dropped, s.outbox, ReportingOff))
    case TurnOn => s.(reporting := true)
    case Start(p) => Goes(s, p, Checking).(lock := Some(p))
    case CheckReporting(p) =>
      if s.reporting then Goes(s, p, Reading(NamesOf(s.outbox), [])) else Ends(s, p)
    case ReadNext(p, readable) =>
      var Reading(todo, batch) := PhaseOf(s, p);
      var file := Find(s.outbox, todo[0]);
      if readable && file.Some? && file.value.body.Valid? then
        Goes(s, p, Reading(todo[1..], batch + [file.value.body.event]))
      else
        var gone := if file.Some? then [file.value] else [];
        Goes(s, p, Reading(todo[1..], batch))
        .(outbox := Without(s.outbox, todo[0]), dropped := Dropping(s.dropped, gone, UnreadableFile))
    case Post(p) =>
      if PhaseOf(s, p).batch == [] then Ends(s, p) else Goes(s, p, Awaiting(PhaseOf(s, p).batch, false))
    case ApiStores(p) =>
      Goes(s, p, PhaseOf(s, p).(reached := true)).(stored := s.stored + [PhaseOf(s, p).request])
    case LateStore(batch) => s.(stored := s.stored + [batch])
    case Answer(p) => Goes(s, p, Deleting(PhaseOf(s, p).request))
    case NoAnswer(p) => Ends(s, p).(wire := s.wire + {PhaseOf(s, p).request})
    case DeleteNext(p, fails) =>
      var rest := PhaseOf(s, p).rest;
      if rest == [] then Goes(s, p, Checking)
      else if fails then Ends(s, p)
      else Goes(s, p, Deleting(rest[1..])).(outbox := Without(s.outbox, rest[0].id))
    case Crash(p) =>
      Ends(s, p).(wire := s.wire + if PhaseOf(s, p).Awaiting? then {PhaseOf(s, p).request} else {})
  }

  predicate Init(s: State) {
    && s.outbox == [] && s.lock.None? && s.phases == map[] && s.wire == {} && s.stored == []
    && s.written == map[] && s.dropped == map[] && !s.purging
  }

  ghost predicate Reachable(s: State, n: nat)
    decreases n
  {
    if n == 0 then Init(s)
    else exists before, step :: Reachable(before, n - 1) && Enabled(before, step) && s == Apply(before, step)
  }

  // ------------------------------------------------------------ invariant

  ghost predicate IsStored(s: State, e: Event) {
    exists b :: b in s.stored && e in b
  }

  ghost predicate Sent(s: State, batch: Batch) {
    && |batch| <= MAX_EVENTS_PER_REQUEST
    && forall e :: e in batch ==> e.id in s.written && s.written[e.id] == Valid(e)
  }

  ghost predicate SenderOk(s: State, phase: Phase) {
    match phase
    case Reading(_, batch) => Sent(s, batch)
    case Awaiting(request, reached) =>
      Sent(s, request) && request != [] && (reached ==> forall e :: e in request ==> IsStored(s, e))
    case Deleting(rest) => Sent(s, rest) && forall e :: e in rest ==> IsStored(s, e)
    case _ => true
  }

  ghost predicate FilesOk(s: State) {
    forall f :: f in s.outbox ==> && f.name in s.written && s.written[f.name] == f.body
                                  && (f.body.Valid? ==> f.body.event.id == f.name)
  }

  ghost predicate DistinctNames(files: seq<Entry>) {
    forall i, j :: 0 <= i < j < |files| ==> files[i].name != files[j].name
  }

  ghost predicate NamesOk(s: State) {
    DistinctNames(s.outbox)
  }

  ghost predicate WrittenOk(s: State) {
    forall n :: n in s.written && s.written[n].Valid? ==> s.written[n].event.id == n
  }

  ghost predicate LockOk(s: State) {
    forall p: Proc :: PhaseOf(s, p) != Idle <==> s.lock == Some(p)
  }

  ghost predicate BatchesOk(s: State) {
    && (forall b :: b in s.stored ==> Sent(s, b))
    && (forall b :: b in s.wire ==> Sent(s, b))
  }

  ghost predicate Waits(s: State, e: Event) {
    Entry(e.id, Valid(e)) in s.outbox
  }

  /** No event is lost: it waits, is stored, or was dropped for a recorded reason. */
  ghost predicate Conserved(s: State) {
    forall n :: n in s.written && s.written[n].Valid? ==>
      Waits(s, s.written[n].event) || IsStored(s, s.written[n].event) || n in s.dropped
  }

  ghost predicate Inv(s: State) {
    && LockOk(s) && FilesOk(s) && NamesOk(s) && WrittenOk(s) && BatchesOk(s) && Conserved(s)
    && forall p: Proc :: SenderOk(s, PhaseOf(s, p))
  }

  lemma {:induction false} WithoutIs(files: seq<Entry>, name: Id)
    ensures forall f :: f in Without(files, name) <==> f in files && f.name != name
  {
    if files != [] {
      WithoutIs(files[1..], name);
      assert forall f :: f in files <==> f == files[0] || f in files[1..];
    }
  }

  lemma {:induction false} FindIs(files: seq<Entry>, name: Id)
    ensures Find(files, name).Some? ==> Find(files, name).value in files && Find(files, name).value.name == name
    ensures Find(files, name).None? ==> forall f :: f in files ==> f.name != name
  {
    if files != [] {
      FindIs(files[1..], name);
      assert forall f :: f in files <==> f == files[0] || f in files[1..];
    }
  }

  /** How one step may change what the invariant speaks of. */
  ghost predicate Extends(s: State, t: State) {
    && (forall n :: n in s.written ==> n in t.written && t.written[n] == s.written[n])
    && s.stored <= t.stored
    && (forall n :: n in s.dropped ==> n in t.dropped)
  }

  lemma StepExtends(s: State, step: Step)
    requires Enabled(s, step)
    ensures Extends(s, Apply(s, step))
  {}

  lemma PhasesKept(s: State, t: State, phase: Phase)
    requires Extends(s, t) && SenderOk(s, phase)
    ensures SenderOk(t, phase)
  {
    forall e | IsStored(s, e) ensures IsStored(t, e) {
      var b :| b in s.stored && e in b;
      assert b in t.stored;
    }
  }

  lemma SentKept(s: State, t: State, batch: Batch)
    requires Extends(s, t) && Sent(s, batch)
    ensures Sent(t, batch)
  {}

  lemma WrittenKept(s: State, step: Step)
    requires WrittenOk(s) && Enabled(s, step)
    ensures WrittenOk(Apply(s, step))
  {}

  lemma StoredRequests(s: State, step: Step, batch: Batch)
    requires Enabled(s, step) && batch in Apply(s, step).stored
    ensures batch in s.stored || batch in s.wire ||
            (step.ApiStores? && PhaseOf(s, step.p).Awaiting? && batch == PhaseOf(s, step.p).request)
  {}

  lemma LateRequests(s: State, step: Step, batch: Batch)
    requires Enabled(s, step) && batch in Apply(s, step).wire
    ensures batch in s.wire ||
            ((step.NoAnswer? || step.Crash?) && PhaseOf(s, step.p).Awaiting? && batch == PhaseOf(s, step.p).request)
  {}

  /** Every request a step stores or leaves behind was some sender's, or was on the wire. */
  lemma RequestsComeFromSenders(s: State, step: Step, batch: Batch)
    requires Enabled(s, step) && (batch in Apply(s, step).stored || batch in Apply(s, step).wire)
    ensures batch in s.stored || batch in s.wire ||
            ((step.ApiStores? || step.NoAnswer? || step.Crash?) && PhaseOf(s, step.p).Awaiting?
             && batch == PhaseOf(s, step.p).request)
  {
    hide Apply, Enabled, PhaseOf;
    if batch in Apply(s, step).stored {
      StoredRequests(s, step, batch);
    } else {
      LateRequests(s, step, batch);
    }
  }

  lemma BatchesKept(s: State, step: Step)
    requires Inv(s) && Enabled(s, step)
    ensures BatchesOk(Apply(s, step))
  {
    hide FilesOk, NamesOk, WrittenOk, Conserved, LockOk;
    StepExtends(s, step);
    var t := Apply(s, step);
    forall batch | batch in t.stored || batch in t.wire ensures Sent(t, batch) {
      RequestsComeFromSenders(s, step, batch);
      if step.ApiStores? || step.NoAnswer? || step.Crash? {
        assert SenderOk(s, PhaseOf(s, step.p));
      }
      SentKept(s, t, batch);
    }
  }

  lemma FilesKept(s: State, step: Step)
    requires Inv(s) && Enabled(s, step)
    ensures FilesOk(Apply(s, step))
  {
    var t := Apply(s, step);
    match step
    case Record(event) =>
      assert forall f :: f in t.outbox ==> f in s.outbox || f == Entry(event.id, Valid(event));
    case StrayFile(name) =>
      assert forall f :: f in t.outbox ==> f in s.outbox || f == Entry(name, Malformed);
    case ReadNext(p, readable) =>
      WithoutIs(s.outbox, PhaseOf(s, p).todo[0]);
    case DeleteNext(p, fails) =>
      if PhaseOf(s, p).rest != [] {
        WithoutIs(s.outbox, PhaseOf(s, p).rest[0].id);
      }
    case _ =>
  }

  lemma {:induction false} WithoutKeepsDistinct(files: seq<Entry>, name: Id)
    requires DistinctNames(files)
    ensures DistinctNames(Without(files, name))
  {
    if files != [] {
      var rest := Without(files[1..], name);
      WithoutKeepsDistinct(files[1..], name);
      WithoutIs(files[1..], name);
      forall j | 0 <= j < |rest| ensures rest[j].name != files[0].name {
        assert rest[j] in rest;
        var i :| 0 <= i < |files[1..]| && files[1..][i] == rest[j];
        assert files[i + 1] == rest[j];
      }
      assert Without(files, name) == (if files[0].name == name then [] else [files[0]]) + rest;
    }
  }

  lemma AddingKeepsDistinct(s: State, file: Entry, k: nat)
    requires FilesOk(s) && NamesOk(s) && file.name !in s.written && k <= |s.outbox|
    ensures DistinctNames(s.outbox[k..] + [file])
  {
    assert forall i :: 0 <= i < |s.outbox| ==> s.outbox[i] in s.outbox;
  }

  lemma NamesKept(s: State, step: Step)
    requires FilesOk(s) && NamesOk(s) && Enabled(s, step)
    ensures NamesOk(Apply(s, step))
  {
    hide DistinctNames, FilesOk;
    match step
    case Record(event) => AddingKeepsDistinct(s, Entry(event.id, Valid(event)), Overflow(s.outbox));
    case StrayFile(name) =>
      AddingKeepsDistinct(s, Entry(name, Malformed), 0);
      assert s.outbox[0..] == s.outbox;
    case Purge => EmptyIsDistinct();
    case ReadNext(p, readable) => WithoutKeepsDistinct(s.outbox, PhaseOf(s, p).todo[0]);
    case DeleteNext(p, fails) =>
      if PhaseOf(s, p).rest != [] {
        WithoutKeepsDistinct(s.outbox, PhaseOf(s, p).rest[0].id);
      }
    case _ =>
  }

  lemma EmptyIsDistinct()
    ensures DistinctNames([])
  {}

  lemma SendersKept(s: State, step: Step, p: Proc)
    requires Inv(s) && Enabled(s, step)
    ensures SenderOk(Apply(s, step), PhaseOf(Apply(s, step), p))
  {
    var t := Apply(s, step);
    StepExtends(s, step);
    PhasesKept(s, t, PhaseOf(s, p));
    if PhaseOf(t, p) != PhaseOf(s, p) {
      StepperKept(s, step, p);
    }
  }

  /** The sender that takes the step. */
  lemma StepperKept(s: State, step: Step, p: Proc)
    requires Inv(s) && Enabled(s, step) && PhaseOf(Apply(s, step), p) != PhaseOf(s, p)
    requires SenderOk(Apply(s, step), PhaseOf(s, p))
    ensures SenderOk(Apply(s, step), PhaseOf(Apply(s, step), p))
  {
    hide FilesOk, NamesOk, BatchesOk, WrittenOk, Conserved;
    if step.ReadNext? {
      ReaderKept(s, p, step.readable);
    } else if step.ApiStores? {
      ReachedKept(s, p);
    } else {
      StepFollows(s, step, p);
      FollowsKeeps(Apply(s, step), PhaseOf(s, p), PhaseOf(Apply(s, step), p));
    }
  }

  /** A phase that carries no event the phase before did not. */
  predicate Follows(from: Phase, to: Phase) {
    match to
    case Reading(_, batch) => batch == []
    case Awaiting(request, reached) => from.Reading? && request == from.batch && request != [] && !reached
    case Deleting(rest) =>
      || (from.Awaiting? && from.reached && rest == from.request)
      || (from.Deleting? && from.rest != [] && rest == from.rest[1..])
    case _ => true
  }

  lemma StepFollows(s: State, step: Step, p: Proc)
    requires Enabled(s, step) && !step.ReadNext? && !step.ApiStores?
    requires PhaseOf(Apply(s, step), p) != PhaseOf(s, p)
    ensures Follows(PhaseOf(s, p), PhaseOf(Apply(s, step), p))
  {}

  lemma FollowsKeeps(s: State, from: Phase, to: Phase)
    requires SenderOk(s, from) && Follows(from, to)
    ensures SenderOk(s, to)
  {
    if to.Deleting? && from.Deleting? {
      assert forall e :: e in to.rest ==> e in from.rest;
    }
  }

  lemma ReachedKept(s: State, p: Proc)
    requires Enabled(s, ApiStores(p)) && SenderOk(Apply(s, ApiStores(p)), PhaseOf(s, p))
    ensures var t := Apply(s, ApiStores(p)); SenderOk(t, PhaseOf(t, p))
  {
    var t, request := Apply(s, ApiStores(p)), PhaseOf(s, p).request;
    assert request in t.stored;
    StoredNow(t, request);
  }

  lemma StoredNow(s: State, batch: Batch)
    requires batch in s.stored
    ensures forall e :: e in batch ==> IsStored(s, e)
  {}

  lemma ReaderKept(s: State, p: Proc, readable: bool)
    requires Inv(s) && Enabled(s, ReadNext(p, readable)) && SenderOk(s, PhaseOf(s, p))
    ensures var t := Apply(s, ReadNext(p, readable)); SenderOk(t, PhaseOf(t, p))
  {
    var Reading(todo, batch) := PhaseOf(s, p);
    FindIs(s.outbox, todo[0]);
    var file := Find(s.outbox, todo[0]);
    if file.Some? && file.value.body.Valid? {
      var more := batch + [file.value.body.event];
      assert forall e :: e in more <==> e in batch || e == file.value.body.event;
      assert Sent(s, more);
    }
  }

  /** The step takes this event's file out of the outbox. */
  predicate Takes(s: State, step: Step, e: Event)
    requires Enabled(s, step)
  {
    match step
    case Record(_) => Entry(e.id, Valid(e)) in s.outbox[..Overflow(s.outbox)]
    case Purge => true
    case ReadNext(p, readable) => !readable && PhaseOf(s, p).todo[0] == e.id
    case DeleteNext(p, fails) => !fails && PhaseOf(s, p).rest != [] && PhaseOf(s, p).rest[0].id == e.id
    case _ => false
  }

  /** An event leaves exactly so: among the oldest of a full outbox, purged, unreadable, or acknowledged. */
  lemma LeavesExactlyWhenTaken(s: State, step: Step, e: Event)
    requires Inv(s) && Enabled(s, step) && Waits(s, e)
    ensures !Waits(Apply(s, step), e) <==> Takes(s, step, e)
  {
    match step
    case Record(event) => StaysUnlessOldest(s, event, e);
    case ReadNext(p, readable) =>
      if Takes(s, step, e) {
        WithoutIs(s.outbox, e.id);
      }
      if !Waits(Apply(s, step), e) {
        LeavesUnread(s, p, readable, e);
      }
    case DeleteNext(p, fails) =>
      if PhaseOf(s, p).rest != [] {
        WithoutIs(s.outbox, PhaseOf(s, p).rest[0].id);
      }
    case _ =>
  }

  lemma StaysUnlessOldest(s: State, event: Event, e: Event)
    requires FilesOk(s) && NamesOk(s) && Enabled(s, Record(event)) && Waits(s, e)
    ensures !Waits(Apply(s, Record(event)), e) <==> Entry(e.id, Valid(e)) in s.outbox[..Overflow(s.outbox)]
  {
    var k, f, added := Overflow(s.outbox), Entry(e.id, Valid(e)), Entry(event.id, Valid(event));
    assert f.name in s.written;
    assert s.outbox == s.outbox[..k] + s.outbox[k..];
    if f in s.outbox[..k] {
      var i :| 0 <= i < k && s.outbox[i] == f;
      forall j | 0 <= j < |s.outbox[k..]| ensures s.outbox[k..][j] != f {
        assert s.outbox[k..][j] == s.outbox[k + j];
      }
      assert f !in s.outbox[k..] && f != added;
    }
  }

  /** An event that leaves the outbox is stored, or is dropped with its cause. */
  lemma LeavingIsAccountedFor(s: State, step: Step, e: Event)
    requires Inv(s) && Enabled(s, step) && Waits(s, e) && !Waits(Apply(s, step), e)
    ensures IsStored(Apply(s, step), e) || e.id in Apply(s, step).dropped
    ensures step.DeleteNext? ==> IsStored(s, e)
  {
    LeavesExactlyWhenTaken(s, step, e);
    match step
    case Record(event) => LeavesByOverflow(s, event, e);
    case ReadNext(p, readable) => LeavesUnread(s, p, readable, e);
    case DeleteNext(p, fails) => LeavesDeleted(s, p, fails, e);
    case _ =>
  }

  lemma LeavesByOverflow(s: State, event: Event, e: Event)
    requires Enabled(s, Record(event)) && Waits(s, e) && !Waits(Apply(s, Record(event)), e)
    ensures |s.outbox| >= MAX_PENDING_EVENTS && e.id in Apply(s, Record(event)).dropped
  {
    var k, f := Overflow(s.outbox), Entry(e.id, Valid(e));
    assert s.outbox == s.outbox[..k] + s.outbox[k..];
    assert f !in s.outbox[k..];
    assert f in s.outbox[..k];
  }

  lemma LeavesUnread(s: State, p: Proc, readable: bool, e: Event)
    requires FilesOk(s) && Enabled(s, ReadNext(p, readable))
    requires Waits(s, e) && !Waits(Apply(s, ReadNext(p, readable)), e)
    ensures !readable && PhaseOf(s, p).todo[0] == e.id && e.id in Apply(s, ReadNext(p, readable)).dropped
  {
    var name, f := PhaseOf(s, p).todo[0], Entry(e.id, Valid(e));
    WithoutIs(s.outbox, name);
    FindIs(s.outbox, name);
    assert f.name == name;
    var file := Find(s.outbox, name).value;
    assert s.written[name] == file.body == f.body;
    assert file in [file];
  }

  lemma LeavesDeleted(s: State, p: Proc, fails: bool, e: Event)
    requires Inv(s) && Enabled(s, DeleteNext(p, fails))
    requires Waits(s, e) && !Waits(Apply(s, DeleteNext(p, fails)), e)
    ensures IsStored(s, e) && IsStored(Apply(s, DeleteNext(p, fails)), e)
  {
    var rest := PhaseOf(s, p).rest;
    WithoutIs(s.outbox, rest[0].id);
    assert SenderOk(s, PhaseOf(s, p)) && rest[0] in rest;
    assert s.written[e.id] == Valid(e) == Valid(rest[0]);
    var b :| b in s.stored && e in b;
    assert b in Apply(s, DeleteNext(p, fails)).stored;
  }

  lemma ConservationKept(s: State, step: Step)
    requires Inv(s) && Enabled(s, step)
    ensures Conserved(Apply(s, step))
  {
    var t := Apply(s, step);
    StepExtends(s, step);
    forall n | n in t.written && t.written[n].Valid?
      ensures Waits(t, t.written[n].event) || IsStored(t, t.written[n].event) || n in t.dropped
    {
      var e := t.written[n].event;
      if n in s.written {
        if Waits(s, e) && !Waits(t, e) {
          LeavingIsAccountedFor(s, step, e);
        }
        if IsStored(s, e) {
          var b :| b in s.stored && e in b;
          assert b in t.stored;
        }
      } else {
        assert t.outbox[|t.outbox| - 1] == Entry(n, Valid(e));
      }
    }
  }

  lemma LockKept(s: State, step: Step)
    requires LockOk(s) && Enabled(s, step)
    ensures LockOk(Apply(s, step))
  {
    forall p: Proc ensures PhaseOf(Apply(s, step), p) != Idle <==> Apply(s, step).lock == Some(p) {
      LockKeptFor(s, step, p);
    }
  }

  lemma LockKeptFor(s: State, step: Step, p: Proc)
    requires LockOk(s) && Enabled(s, step)
    ensures PhaseOf(Apply(s, step), p) != Idle <==> Apply(s, step).lock == Some(p)
  {
    var t := Apply(s, step);
    assert PhaseOf(s, p) != Idle <==> s.lock == Some(p);
    PhasesChangeWithLock(s, step, p);
    hide Apply, Enabled;
  }

  predicate HasSender(step: Step) {
    !(step.Record? || step.StrayFile? || step.TurnOff? || step.Purge? || step.TurnOn? || step.LateStore?)
  }

  lemma NoSenderMoves(s: State, step: Step, p: Proc)
    requires Enabled(s, step) && !HasSender(step)
    ensures PhaseOf(Apply(s, step), p) == PhaseOf(s, p) && Apply(s, step).lock == s.lock
  {}

  lemma OtherSendersStay(s: State, step: Step, p: Proc)
    requires Enabled(s, step) && HasSender(step) && p != step.p
    ensures PhaseOf(Apply(s, step), p) == PhaseOf(s, p)
  {}

  lemma OthersStay(s: State, step: Step, p: Proc)
    requires Enabled(s, step) && (HasSender(step) ==> p != step.p)
    ensures PhaseOf(Apply(s, step), p) == PhaseOf(s, p)
    ensures !HasSender(step) ==> Apply(s, step).lock == s.lock
  {
    hide Apply, PhaseOf, Enabled, HasSender;
    if HasSender(step) {
      OtherSendersStay(s, step, p);
    } else {
      NoSenderMoves(s, step, p);
    }
  }

  /** The sender of a step takes the free lock, lets its own go, or keeps it. */
  lemma SenderMoves(s: State, step: Step)
    requires Enabled(s, step) && HasSender(step)
    ensures var t, was, now := Apply(s, step), PhaseOf(s, step.p), PhaseOf(Apply(s, step), step.p);
            || (step.Start? && s.lock.None? && was == Idle && t.lock == Some(step.p) && now != Idle)
            || (was != Idle && now == Idle && t.lock.None?)
            || (was != Idle && now != Idle && t.lock == s.lock)
  {}

  /** A step keeps the lock or makes its sender take it or let it go; no other sender moves. */
  lemma PhasesChangeWithLock(s: State, step: Step, p: Proc)
    requires LockOk(s) && Enabled(s, step)
    ensures var t := Apply(s, step);
            || (t.lock == s.lock && (PhaseOf(t, p) == Idle <==> PhaseOf(s, p) == Idle))
            || (s.lock.None? && t.lock.Some? && (PhaseOf(t, p) != Idle <==> t.lock == Some(p)))
            || (s.lock.Some? && t.lock.None? && PhaseOf(t, p) == Idle)
  {
    assert PhaseOf(s, p) != Idle <==> s.lock == Some(p);
    if HasSender(step) {
      assert PhaseOf(s, step.p) != Idle <==> s.lock == Some(step.p);
      SenderMoves(s, step);
    }
    if HasSender(step) ==> p != step.p {
      OthersStay(s, step, p);
    }
    hide Apply, Enabled, PhaseOf;
  }

  lemma StepKeepsInv(s: State, step: Step)
    requires Inv(s) && Enabled(s, step)
    ensures Inv(Apply(s, step))
  {
    LockKept(s, step);
    BatchesKept(s, step);
    WrittenKept(s, step);
    FilesKept(s, step);
    NamesKept(s, step);
    ConservationKept(s, step);
    forall p: Proc ensures SenderOk(Apply(s, step), PhaseOf(Apply(s, step), p)) {
      SendersKept(s, step, p);
    }
    hide LockOk, BatchesOk, WrittenOk, FilesOk, NamesOk, Conserved, SenderOk, Apply, Enabled;
  }

  lemma InitHolds(s: State)
    requires Init(s)
    ensures Inv(s)
  {
    assert forall p: Proc :: PhaseOf(s, p) == Idle;
  }

  lemma {:induction false} ReachableKeepsInv(s: State, n: nat)
    requires Reachable(s, n)
    ensures Inv(s)
    decreases n
  {
    hide Inv, Init, Enabled, Apply;
    if n == 0 {
      InitHolds(s);
    } else {
      var before, step :| Reachable(before, n - 1) && Enabled(before, step) && s == Apply(before, step);
      ReachableKeepsInv(before, n - 1);
      StepKeepsInv(before, step);
    }
  }

  // ------------------------------------------------------- main results

  /** The lock works: one sender at a time, so one request awaits its answer. */
  lemma OneSender(s: State, n: nat, p: Proc, q: Proc)
    requires Reachable(s, n) && !PhaseOf(s, p).Idle? && !PhaseOf(s, q).Idle?
    ensures p == q
  {
    ReachableKeepsInv(s, n);
  }

  /**
   In every reachable state a waiting event leaves exactly when the step takes it, and a step
   that deletes after an answer takes only what the API has stored.
   */
  lemma EventLeavesExactlyWhen(s: State, n: nat, step: Step, e: Event)
    requires Reachable(s, n) && Enabled(s, step)
    ensures Waits(s, e) ==> (!Waits(Apply(s, step), e) <==> Takes(s, step, e))
    ensures Waits(s, e) && Takes(s, step, e) && step.DeleteNext? ==> IsStored(s, e)
  {
    ReachableKeepsInv(s, n);
    if Waits(s, e) {
      LeavesExactlyWhenTaken(s, step, e);
      if Takes(s, step, e) {
        LeavingIsAccountedFor(s, step, e);
      }
    }
  }

  /** At least once: what was recorded and never dropped waits or is stored. */
  lemma AtLeastOnce(s: State, n: nat, id: Id)
    requires Reachable(s, n) && id in s.written && s.written[id].Valid? && id !in s.dropped
    ensures Waits(s, s.written[id].event) || IsStored(s, s.written[id].event)
  {
    ReachableKeepsInv(s, n);
  }

  /** What a reader of the store keeps: the first event of every id. */
  function Deduplicated(events: seq<Event>): seq<Event> {
    if events == [] then []
    else
      var front, last := Deduplicated(events[..|events| - 1]), events[|events| - 1];
      if exists i | 0 <= i < |front| :: front[i].id == last.id then front else front + [last]
  }

  ghost predicate OnceEach(events: seq<Event>) {
    forall i, j :: 0 <= i < j < |events| ==> events[i].id != events[j].id
  }

  lemma {:induction false} DeduplicatedOnce(events: seq<Event>)
    requires forall a, b :: a in events && b in events && a.id == b.id ==> a == b
    ensures forall e :: e in Deduplicated(events) <==> e in events
    ensures OnceEach(Deduplicated(events))
  {
    if events != [] {
      var front, last := events[..|events| - 1], events[|events| - 1];
      assert forall e :: e in events <==> e in front || e == last;
      DeduplicatedOnce(front);
      var kept := Deduplicated(front);
      if i :| 0 <= i < |kept| && kept[i].id == last.id {
        assert kept[i] in front;
        assert kept[i] == last;
      }
    }
  }

  /** What a reader has kept stays where it is when more arrives. */
  lemma {:induction false} DeduplicationGrows(events: seq<Event>, more: seq<Event>)
    ensures Deduplicated(events) <= Deduplicated(events + more)
    decreases |more|
  {
    if more == [] {
      assert events + more == events;
    } else {
      var all := events + more;
      assert all[..|all| - 1] == events + more[..|more| - 1];
      DeduplicationGrows(events, more[..|more| - 1]);
    }
  }

  function Flat(batches: seq<Batch>): seq<Event> {
    if batches == [] then [] else Flat(batches[..|batches| - 1]) + batches[|batches| - 1]
  }

  lemma {:induction false} FlatIs(batches: seq<Batch>)
    ensures forall e :: e in Flat(batches) <==> exists b :: b in batches && e in b
  {
    if batches != [] {
      var front, last := batches[..|batches| - 1], batches[|batches| - 1];
      FlatIs(front);
      assert forall b :: b in batches <==> b in front || b == last;
      forall e ensures e in Flat(batches) <==> exists b :: b in batches && e in b {
        if e in last {
          assert last in batches;
        }
      }
    }
  }

  /** Resent batches are harmless: dropping repeats by id leaves each stored event once. */
  lemma ReadersSeeEachEventOnce(s: State, n: nat)
    requires Reachable(s, n)
    ensures var seen := Deduplicated(Flat(s.stored));
            && (forall e :: e in seen <==> IsStored(s, e))
            && OnceEach(seen)
  {
    ReachableKeepsInv(s, n);
    FlatIs(s.stored);
    forall a, b | a in Flat(s.stored) && b in Flat(s.stored) && a.id == b.id ensures a == b {
      var x :| x in s.stored && a in x;
      var y :| y in s.stored && b in y;
      assert Sent(s, x) && Sent(s, y);
    }
    DeduplicatedOnce(Flat(s.stored));
  }

  /** A recorded event waits, and pushes out the oldest files just as far as 1000 are left. */
  lemma RecordingMakesRoom(s: State, event: Event) returns (k: nat)
    requires Enabled(s, Record(event))
    ensures k <= |s.outbox|
    ensures Apply(s, Record(event)).outbox == s.outbox[k..] + [Entry(event.id, Valid(event))]
    ensures |Apply(s, Record(event)).outbox| <= 1000
    ensures k > 0 ==> |Apply(s, Record(event)).outbox| == 1000
    ensures Waits(Apply(s, Record(event)), event)
  {
    k := Overflow(s.outbox);
    assert Apply(s, Record(event)).outbox[|s.outbox| - k] == Entry(event.id, Valid(event));
  }

  /** No request, waiting or late, holds more events than the API accepts. */
  lemma RequestsFit(s: State, n: nat, p: Proc)
    requires Reachable(s, n)
    ensures PhaseOf(s, p).Awaiting? ==> 0 < |PhaseOf(s, p).request| <= 25
    ensures forall b :: b in s.stored ==> |b| <= 25
  {
    ReachableKeepsInv(s, n);
    assert SenderOk(s, PhaseOf(s, p));
  }

  // ------------------------------------------------- an undisturbed round

  /** Taken one after another, the steps lead from one state to the other. */
  ghost predicate Leads(s: State, steps: seq<Step>, t: State)
    decreases |steps|
  {
    if steps == [] then s == t else Enabled(s, steps[0]) && Leads(Apply(s, steps[0]), steps[1..], t)
  }

  lemma {:induction false} LeadsOn(s: State, a: seq<Step>, t: State, b: seq<Step>, u: State)
    requires Leads(s, a, t) && Leads(t, b, u)
    ensures Leads(s, a + b, u)
    decreases |a|
  {
    if a == [] {
      assert a + b == b;
    } else {
      assert (a + b)[0] == a[0] && (a + b)[1..] == a[1..] + b;
      LeadsOn(Apply(s, a[0]), a[1..], t, b, u);
    }
  }

  lemma LeadsOnce(s: State, step: Step)
    requires Enabled(s, step)
    ensures Leads(s, [step], Apply(s, step))
  {
    assert [step][1..] == [];
  }

  /** The sender has read the first i files. */
  function ReadState(s: State, p: Proc, i: nat): State
    requires i <= |s.outbox|
  {
    Goes(s, p, Reading(NamesOf(s.outbox[i..]), Events(s.outbox[..i]))).(lock := Some(p))
  }

  lemma {:induction false} FoundByName(files: seq<Entry>, i: nat)
    requires DistinctNames(files) && i < |files|
    ensures Find(files, files[i].name) == Some(files[i])
  {
    if i > 0 {
      FoundByName(files[1..], i - 1);
    }
  }

  lemma {:induction false} NothingWithout(files: seq<Entry>, name: Id)
    requires forall f :: f in files ==> f.name != name
    ensures Without(files, name) == files
  {
    if files != [] {
      NothingWithout(files[1..], name);
    }
  }

  lemma WithoutFirst(files: seq<Entry>)
    requires DistinctNames(files) && files != []
    ensures Without(files, files[0].name) == files[1..]
  {
    NothingWithout(files[1..], files[0].name);
  }

  lemma NextRead(files: seq<Entry>, i: nat)
    requires DistinctNames(files) && AllValid(files) && i < |files|
    ensures |Events(files[..i])| == i
    ensures NamesOf(files[i..]) == [files[i].name] + NamesOf(files[i + 1..])
    ensures Find(files, files[i].name) == Some(files[i])
    ensures Events(files[..i + 1]) == Events(files[..i]) + [files[i].body.event]
  {
    ValidCount(files[..i]);
    FoundByName(files, i);
    EventsSplit(files[..i], [files[i]]);
    EventsOfFront(files[i], []);
    assert files[..i + 1] == files[..i] + [files[i]];
    assert [files[i]] == [files[i]] + [];
  }

  lemma PhaseReplaced(s: State, p: Proc, a: Phase, b: Phase)
    ensures Goes(Goes(s, p, a), p, b) == Goes(s, p, b)
  {
    assert s.phases[p := a][p := b] == s.phases[p := b];
  }

  lemma ReadsOne(s: State, p: Proc, i: nat)
    requires DistinctNames(s.outbox) && AllValid(s.outbox)
    requires i < |s.outbox| && i < MAX_EVENTS_PER_REQUEST
    ensures Enabled(ReadState(s, p, i), ReadNext(p, true))
    ensures Apply(ReadState(s, p, i), ReadNext(p, true)) == ReadState(s, p, i + 1)
  {
    NextRead(s.outbox, i);
    var now := ReadState(s, p, i);
    var next := Reading(NamesOf(s.outbox[i + 1..]), Events(s.outbox[..i + 1]));
    PhaseReplaced(s, p, PhaseOf(now, p), next);
    hide Events, NamesOf, Find, DistinctNames, AllValid;
    assert PhaseOf(now, p).todo[1..] == NamesOf(s.outbox[i + 1..]);
    assert Apply(now, ReadNext(p, true)) == Goes(now, p, next);
  }

  lemma {:induction false} ReadsAll(s: State, p: Proc, i: nat) returns (steps: seq<Step>)
    requires DistinctNames(s.outbox) && AllValid(s.outbox) && i <= Least(MAX_EVENTS_PER_REQUEST, |s.outbox|)
    ensures Leads(ReadState(s, p, i), steps, ReadState(s, p, Least(MAX_EVENTS_PER_REQUEST, |s.outbox|)))
    decreases |s.outbox| - i
  {
    if i == Least(MAX_EVENTS_PER_REQUEST, |s.outbox|) {
      steps := [];
    } else {
      ReadsOne(s, p, i);
      LeadsOnce(ReadState(s, p, i), ReadNext(p, true));
      var rest := ReadsAll(s, p, i + 1);
      LeadsOn(ReadState(s, p, i), [ReadNext(p, true)], ReadState(s, p, i + 1), rest,
              ReadState(s, p, Least(MAX_EVENTS_PER_REQUEST, |s.outbox|)));
      steps := [ReadNext(p, true)] + rest;
    }
  }

  /** The batch is stored, and the first j of its k files are deleted. */
  function DeleteState(s: State, p: Proc, j: nat, k: nat): State
    requires j <= k <= |s.outbox|
  {
    Goes(s, p, Deleting(Events(s.outbox[j..k]))).(
      lock := Some(p), outbox := s.outbox[j..], stored := s.stored + [Events(s.outbox[..k])])
  }

  lemma NextDelete(s: State, j: nat, k: nat)
    requires DistinctNames(s.outbox) && AllValid(s.outbox) && FilesOk(s) && j < k <= |s.outbox|
    ensures Events(s.outbox[j..k]) == [s.outbox[j].body.event] + Events(s.outbox[j + 1..k])
    ensures s.outbox[j].body.event.id == s.outbox[j].name
    ensures Without(s.outbox[j..], s.outbox[j].name) == s.outbox[j + 1..]
  {
    var files := s.outbox;
    assert files[j..k] == [files[j]] + files[j + 1..k];
    EventsOfFront(files[j], files[j + 1..k]);
    assert files[j] in files;
    WithoutFirst(files[j..]);
    assert files[j..][1..] == files[j + 1..];
  }

  lemma DeletesOne(s: State, p: Proc, j: nat, k: nat)
    requires DistinctNames(s.outbox) && AllValid(s.outbox) && FilesOk(s) && j < k <= |s.outbox|
    ensures Enabled(DeleteState(s, p, j, k), DeleteNext(p, false))
    ensures Apply(DeleteState(s, p, j, k), DeleteNext(p, false)) == DeleteState(s, p, j + 1, k)
  {
    NextDelete(s, j, k);
    hide Events, Without, DistinctNames, AllValid, FilesOk;
    var now, rest := DeleteState(s, p, j, k), Events(s.outbox[j..k]);
    PhaseReplaced(s, p, Deleting(rest), Deleting(rest[1..]));
    assert rest[1..] == Events(s.outbox[j + 1..k]);
    assert PhaseOf(now, p) == Deleting(rest);
  }

  lemma {:induction false} DeletesAll(s: State, p: Proc, j: nat, k: nat) returns (steps: seq<Step>)
    requires DistinctNames(s.outbox) && AllValid(s.outbox) && FilesOk(s) && j <= k <= |s.outbox|
    ensures Leads(DeleteState(s, p, j, k), steps, DeleteState(s, p, k, k))
    decreases k - j
  {
    if j == k {
      steps := [];
    } else {
      DeletesOne(s, p, j, k);
      LeadsOnce(DeleteState(s, p, j, k), DeleteNext(p, false));
      var rest := DeletesAll(s, p, j + 1, k);
      LeadsOn(DeleteState(s, p, j, k), [DeleteNext(p, false)], DeleteState(s, p, j + 1, k), rest,
              DeleteState(s, p, k, k));
      steps := [DeleteNext(p, false)] + rest;
    }
  }

  /** From the full batch to its first deletion. */
  lemma SendsBatch(s: State, p: Proc, k: nat)
    requires AllValid(s.outbox) && k == Least(MAX_EVENTS_PER_REQUEST, |s.outbox|) > 0
    ensures Leads(ReadState(s, p, k), [Post(p), ApiStores(p), Answer(p)], DeleteState(s, p, 0, k))
  {
    var batch := Events(s.outbox[..k]);
    ValidCount(s.outbox[..k]);
    assert s.outbox[0..k] == s.outbox[..k] && s.outbox[0..] == s.outbox;
    hide Events, NamesOf, AllValid;
    var read := ReadState(s, p, k);
    assert Enabled(read, Post(p)) by {
      assert k == |s.outbox| ==> s.outbox[k..] == [];
      EmptyNames();
    }
    var posted := Apply(read, Post(p));
    PhaseReplaced(s, p, PhaseOf(read, p), Awaiting(batch, false));
    assert posted == Goes(s, p, Awaiting(batch, false)).(lock := Some(p));
    AnswersBatch(s, p, batch);
  }

  lemma EmptyNames()
    ensures NamesOf([]) == []
  {}

  lemma AnswersBatch(s: State, p: Proc, batch: Batch)
    ensures Leads(Goes(s, p, Awaiting(batch, false)).(lock := Some(p)), [ApiStores(p), Answer(p)],
                  Goes(s, p, Deleting(batch)).(lock := Some(p), stored := s.stored + [batch]))
  {
    var posted := Goes(s, p, Awaiting(batch, false)).(lock := Some(p));
    var stored := Apply(posted, ApiStores(p));
    PhaseReplaced(s, p, Awaiting(batch, false), Awaiting(batch, true));
    assert stored == Goes(s, p, Awaiting(batch, true)).(lock := Some(p), stored := s.stored + [batch]);
    PhaseReplaced(s, p, Awaiting(batch, true), Deleting(batch));
    LeadsOnce(stored, Answer(p));
    assert [ApiStores(p), Answer(p)][1..] == [Answer(p)];
  }

  /**
   A sender that nothing disturbs stores the oldest events, up to 25, in their order, in one
   request, and takes exactly their files out of the outbox; then it checks for more.
   */
  lemma UndisturbedRound(s: State, n: nat, p: Proc) returns (steps: seq<Step>, t: State)
    requires Reachable(s, n) && s.lock.None? && s.reporting
    requires s.outbox != [] && AllValid(s.outbox)
    ensures Leads(s, steps, t)
    ensures var k := if |s.outbox| < 25 then |s.outbox| else 25;
            && t.outbox == s.outbox[k..]
            && t.stored == s.stored + [Events(s.outbox[..k])]
            && PhaseOf(t, p) == Checking && t.dropped == s.dropped && t.written == s.written
            && t.reporting && t.purging == s.purging
  {
    ReachableKeepsInv(s, n);
    assert PhaseOf(s, p) == Idle;
    var k := Least(MAX_EVENTS_PER_REQUEST, |s.outbox|);
    var start, sending := [Start(p), CheckReporting(p)], [Post(p), ApiStores(p), Answer(p)];
    StartsReading(s, p);
    var reading := ReadsAll(s, p, 0);
    SendsBatch(s, p, k);
    var deleting := DeletesAll(s, p, 0, k);
    t := BackToChecking(s, p, k);
    hide Apply, Enabled, ReadState, DeleteState, Inv, Reachable, Leads, Events, AllValid, PhaseOf;
    LeadsOn(s, start, ReadState(s, p, 0), reading, ReadState(s, p, k));
    LeadsOn(s, start + reading, ReadState(s, p, k), sending, DeleteState(s, p, 0, k));
    LeadsOn(s, start + reading + sending, DeleteState(s, p, 0, k), deleting, DeleteState(s, p, k, k));
    steps := start + reading + sending + deleting + [DeleteNext(p, false)];
    LeadsOn(s, start + reading + sending + deleting, DeleteState(s, p, k, k), [DeleteNext(p, false)], t);
  }

  lemma StartsReading(s: State, p: Proc)
    requires s.lock.None? && s.reporting && PhaseOf(s, p) == Idle
    ensures Leads(s, [Start(p), CheckReporting(p)], ReadState(s, p, 0))
  {
    var started := Apply(s, Start(p));
    assert s.outbox[0..] == s.outbox && s.outbox[..0] == [];
    PhaseReplaced(s, p, Checking, Reading(NamesOf(s.outbox), []));
    assert Apply(started, CheckReporting(p)) == ReadState(s, p, 0);
    LeadsOnce(started, CheckReporting(p));
    assert [Start(p), CheckReporting(p)][1..] == [CheckReporting(p)];
  }

  lemma BackToChecking(s: State, p: Proc, k: nat) returns (t: State)
    requires k <= |s.outbox|
    ensures Leads(DeleteState(s, p, k, k), [DeleteNext(p, false)], t)
    ensures t == Goes(DeleteState(s, p, k, k), p, Checking)
    ensures t.outbox == s.outbox[k..] && t.stored == s.stored + [Events(s.outbox[..k])]
    ensures PhaseOf(t, p) == Checking && t.dropped == s.dropped && t.written == s.written
    ensures t.reporting == s.reporting && t.purging == s.purging
  {
    var now := DeleteState(s, p, k, k);
    assert s.outbox[k..k] == [];
    t := Apply(now, DeleteNext(p, false));
    LeadsOnce(now, DeleteNext(p, false));
  }

  lemma {:induction false} LeadsToReachable(s: State, n: nat, steps: seq<Step>, t: State)
    requires Reachable(s, n) && Leads(s, steps, t)
    ensures Reachable(t, n + |steps|)
    decreases |steps|
  {
    hide Enabled, Apply;
    if steps != [] {
      var next := Apply(s, steps[0]);
      assert Reachable(next, n + 1);
      LeadsToReachable(next, n + 1, steps[1..], t);
    }
  }

  lemma SendsUnanswered(s: State, p: Proc, k: nat) returns (t: State)
    requires AllValid(s.outbox) && k == Least(MAX_EVENTS_PER_REQUEST, |s.outbox|) > 0
    ensures Leads(ReadState(s, p, k), [Post(p), ApiStores(p), NoAnswer(p)], t)
    ensures t.outbox == s.outbox && t.reporting == s.reporting && t.lock.None?
    ensures t.stored == s.stored + [Events(s.outbox[..k])] && Events(s.outbox[..k]) in t.wire
  {
    var posted := PostsBatch(s, p, k);
    hide Events, AllValid;
    var stored := Apply(posted, ApiStores(p));
    t := Apply(stored, NoAnswer(p));
    LeadsOnce(stored, NoAnswer(p));
    var steps := [Post(p), ApiStores(p), NoAnswer(p)];
    assert steps[1..] == [ApiStores(p), NoAnswer(p)] && steps[1..][1..] == [NoAnswer(p)];
  }

  lemma PostsBatch(s: State, p: Proc, k: nat) returns (t: State)
    requires AllValid(s.outbox) && k == Least(MAX_EVENTS_PER_REQUEST, |s.outbox|) > 0
    ensures Enabled(ReadState(s, p, k), Post(p)) && t == Apply(ReadState(s, p, k), Post(p))
    ensures t == Goes(s, p, Awaiting(Events(s.outbox[..k]), false)).(lock := Some(p))
  {
    var batch := Events(s.outbox[..k]);
    ValidCount(s.outbox[..k]);
    hide Events, NamesOf, AllValid;
    var read := ReadState(s, p, k);
    assert Enabled(read, Post(p)) by {
      assert k == |s.outbox| ==> s.outbox[k..] == [];
      EmptyNames();
    }
    t := Apply(read, Post(p));
    PhaseReplaced(s, p, PhaseOf(read, p), Awaiting(batch, false));
  }

  lemma SendsInVain(s: State, p: Proc, k: nat) returns (t: State)
    requires AllValid(s.outbox) && k == Least(MAX_EVENTS_PER_REQUEST, |s.outbox|) > 0
    ensures Leads(ReadState(s, p, k), [Post(p), NoAnswer(p)], t)
    ensures t.outbox == s.outbox && t.reporting == s.reporting && t.lock.None?
    ensures t.stored == s.stored && Events(s.outbox[..k]) in t.wire
  {
    var posted := PostsBatch(s, p, k);
    hide Events, AllValid;
    t := Apply(posted, NoAnswer(p));
    LeadsOnce(posted, NoAnswer(p));
    assert [Post(p), NoAnswer(p)][1..] == [NoAnswer(p)];
  }

  /** A round without an answer leaves the files waiting, whether its batch was stored or not. */
  lemma UnansweredRound(s: State, n: nat, p: Proc, arrives: bool) returns (steps: seq<Step>, t: State)
    requires Reachable(s, n) && s.lock.None? && s.reporting && s.outbox != [] && AllValid(s.outbox)
    ensures Leads(s, steps, t)
    ensures t.outbox == s.outbox && t.reporting && t.lock.None?
    ensures var batch := Events(s.outbox[..Least(25, |s.outbox|)]);
            t.stored == s.stored + (if arrives then [batch] else []) && batch in t.wire
  {
    ReachableKeepsInv(s, n);
    assert PhaseOf(s, p) == Idle;
    var k := Least(MAX_EVENTS_PER_REQUEST, |s.outbox|);
    var start := [Start(p), CheckReporting(p)];
    StartsReading(s, p);
    var reading := ReadsAll(s, p, 0);
    hide Apply, Enabled, ReadState, Inv, Reachable, Leads, Events, AllValid, PhaseOf;
    var sending;
    if arrives {
      t := SendsUnanswered(s, p, k);
      sending := [Post(p), ApiStores(p), NoAnswer(p)];
    } else {
      t := SendsInVain(s, p, k);
      sending := [Post(p), NoAnswer(p)];
    }
    LeadsOn(s, start, ReadState(s, p, 0), reading, ReadState(s, p, k));
    LeadsOn(s, start + reading, ReadState(s, p, k), sending, t);
    steps := start + reading + sending;
  }

  /** At least once is all there is: when answers are lost, the same batch can be stored again, and late. */
  lemma LostAnswersRepeat(s: State, n: nat, p: Proc) returns (steps: seq<Step>, t: State)
    requires Reachable(s, n) && s.lock.None? && s.reporting && s.outbox != [] && AllValid(s.outbox)
    ensures Leads(s, steps, t)
    ensures var batch := Events(s.outbox[..Least(25, |s.outbox|)]);
            t.outbox == s.outbox && t.stored == s.stored + [batch, batch, batch]
  {
    hide Leads, Reachable, Events, AllValid;
    var batch := Events(s.outbox[..Least(25, |s.outbox|)]);
    var first, once := UnansweredRound(s, n, p, true);
    LeadsToReachable(s, n, first, once);
    var second, twice := UnansweredRound(once, n + |first|, p, true);
    LeadsOn(s, first, once, second, twice);
    LeadsOnce(twice, LateStore(batch));
    t := Apply(twice, LateStore(batch));
    LeadsOn(s, first + second, twice, [LateStore(batch)], t);
    steps := first + second + [LateStore(batch)];
  }

  /** Turned off, purged and turned on again, reporting starts anew: an event recorded then is stored, alone. */
  lemma OffAndOnAgain(s: State, n: nat, p: Proc, e: Event) returns (steps: seq<Step>, t: State)
    requires Reachable(s, n) && s.lock.None? && e.id !in s.written
    ensures Leads(s, steps, t)
    ensures t.outbox == [] && t.reporting && !t.purging && t.stored == s.stored + [[e]]
  {
    hide Leads, Reachable, Apply, Enabled, Events, PhaseOf;
    var turns, file := [TurnOff, Purge, TurnOn, Record(e)], Entry(e.id, Valid(e));
    var on := Restarted(s, e);
    LeadsToReachable(s, n, turns, on);
    var round, done := UndisturbedRound(on, n + 4, p);
    assert on.outbox[..1] == [file] && on.outbox[1..] == [];
    EventsOfOne(file);
    LeadsOn(s, turns, on, round, done);
    steps, t := turns + round, done;
  }

  lemma EventsOfOne(file: Entry)
    ensures Events([file]) == EventOf(file)
  {
    EventsOfFront(file, []);
    assert [file] + [] == [file];
  }

  lemma Restarted(s: State, e: Event) returns (t: State)
    requires e.id !in s.written
    ensures Leads(s, [TurnOff, Purge, TurnOn, Record(e)], t)
    ensures t.outbox == [Entry(e.id, Valid(e))] && t.reporting && !t.purging
    ensures t.lock == s.lock && t.stored == s.stored
  {
    var off := Apply(s, TurnOff);
    var purged := Apply(off, Purge);
    var on := Apply(purged, TurnOn);
    t := Apply(on, Record(e));
    var turns := [TurnOff, Purge, TurnOn, Record(e)];
    assert turns[1..] == [Purge, TurnOn, Record(e)] && turns[1..][1..] == [TurnOn, Record(e)];
    assert turns[1..][1..][1..] == [Record(e)];
    LeadsOnce(on, Record(e));
  }

  /** Wherever a sender is, it can crash; the lock is free then, nothing waiting is lost, and another can start. */
  lemma CrashFreesLock(s: State, n: nat, p: Proc, q: Proc)
    requires Reachable(s, n) && !PhaseOf(s, p).Idle?
    ensures Enabled(s, Crash(p))
    ensures var t := Apply(s, Crash(p));
            && t.outbox == s.outbox && t.stored == s.stored && t.dropped == s.dropped
            && Enabled(t, Start(q))
            && (PhaseOf(s, p).Awaiting? ==> Enabled(t, LateStore(PhaseOf(s, p).request)))
  {
    ReachableKeepsInv(s, n);
    StepKeepsInv(s, Crash(p));
  }

  // ------------------------------------------------ nothing is passed over

  /** While the sender reads: the event no longer waits, is in its batch, or is still to be read. */
  predicate NotPassed(s: State, p: Proc, e: Event) {
    PhaseOf(s, p).Reading? &&
    (Entry(e.id, Valid(e)) !in s.outbox || e in PhaseOf(s, p).batch || e.id in PhaseOf(s, p).todo)
  }

  lemma ReadingPassesNothing(s: State, p: Proc, readable: bool, e: Event)
    requires FilesOk(s) && NotPassed(s, p, e) && Enabled(s, ReadNext(p, readable))
    ensures NotPassed(Apply(s, ReadNext(p, readable)), p, e)
  {
    var Reading(todo, batch) := PhaseOf(s, p);
    var file := Find(s.outbox, todo[0]);
    FindIs(s.outbox, todo[0]);
    WithoutIs(s.outbox, todo[0]);
    if Waits(s, e) && todo[0] == e.id {
      assert s.written[e.id] == file.value.body == Valid(e);
    }
  }

  lemma OthersPassNothing(s: State, step: Step, p: Proc, e: Event)
    requires Inv(s) && NotPassed(s, p, e) && e.id in s.written && Enabled(s, step)
    requires HasSender(step) ==> step.p != p
    ensures NotPassed(Apply(s, step), p, e)
  {
    OthersStay(s, step, p);
    if Waits(Apply(s, step), e) {
      NothingComesBack(s, step, e);
    }
  }

  lemma NothingComesBack(s: State, step: Step, e: Event)
    requires FilesOk(s) && e.id in s.written && Enabled(s, step) && Waits(Apply(s, step), e)
    ensures Waits(s, e)
  {
    match step
    case ReadNext(p, readable) => WithoutIs(s.outbox, PhaseOf(s, p).todo[0]);
    case DeleteNext(p, fails) =>
      if PhaseOf(s, p).rest != [] {
        WithoutIs(s.outbox, PhaseOf(s, p).rest[0].id);
      }
    case _ =>
  }

  lemma StepPassesNothing(s: State, n: nat, step: Step, p: Proc, e: Event)
    requires Reachable(s, n) && Enabled(s, step) && NotPassed(s, p, e) && e.id in s.written
    requires HasSender(step) && step.p == p ==> step.ReadNext?
    ensures NotPassed(Apply(s, step), p, e) && e.id in Apply(s, step).written && Reachable(Apply(s, step), n + 1)
  {
    hide Enabled, Apply, NotPassed;
    ReachableKeepsInv(s, n);
    StepExtends(s, step);
    assert Reachable(Apply(s, step), n + 1);
    hide Reachable;
    if HasSender(step) && step.p == p {
      ReadingPassesNothing(s, p, step.readable, e);
    } else {
      OthersPassNothing(s, step, p, e);
    }
  }

  lemma {:induction false} ReadingOn(s: State, n: nat, steps: seq<Step>, t: State, p: Proc, e: Event)
    requires Reachable(s, n) && Leads(s, steps, t) && NotPassed(s, p, e) && e.id in s.written
    requires forall i :: 0 <= i < |steps| && HasSender(steps[i]) && steps[i].p == p ==> steps[i].ReadNext?
    ensures NotPassed(t, p, e)
    decreases |steps|
  {
    hide Enabled, Apply, NotPassed, Reachable, HasSender;
    if steps != [] {
      StepPassesNothing(s, n, steps[0], p, e);
      assert forall i :: 0 <= i < |steps[1..]| ==> steps[1..][i] == steps[i + 1];
      ReadingOn(Apply(s, steps[0]), n + 1, steps[1..], t, p, e);
    }
  }

  lemma NothingPassedAtFirst(s: State, n: nat, p: Proc, e: Event)
    requires Reachable(s, n) && Enabled(s, CheckReporting(p)) && s.reporting && Waits(s, e)
    ensures var begun := Apply(s, CheckReporting(p));
            NotPassed(begun, p, e) && e.id in begun.written && Reachable(begun, n + 1)
  {
    ReachableKeepsInv(s, n);
    assert Reachable(Apply(s, CheckReporting(p)), n + 1) by {
      hide Enabled, Apply;
    }
    hide Reachable;
    var i :| 0 <= i < |s.outbox| && s.outbox[i] == Entry(e.id, Valid(e));
    assert NamesOf(s.outbox)[i] == e.id;
    assert s.outbox[i] in s.outbox;
  }

  /**
   A request of fewer than 25 events passes nothing over: whatever waited when its sender began to
   read, and still waits when the request is made, is in it, whatever the others did meanwhile.
   */
  lemma NothingIsPassedOver(s: State, n: nat, steps: seq<Step>, t: State, p: Proc, e: Event)
    requires Reachable(s, n) && Enabled(s, CheckReporting(p)) && s.reporting && Waits(s, e)
    requires Leads(Apply(s, CheckReporting(p)), steps, t)
    requires forall i :: 0 <= i < |steps| && HasSender(steps[i]) && steps[i].p == p ==> steps[i].ReadNext?
    requires Enabled(t, Post(p)) && |PhaseOf(t, p).batch| < 25
    ensures Waits(t, e) ==> e in PhaseOf(t, p).batch
  {
    hide Reachable, Leads, Apply, Enabled, NotPassed, HasSender;
    NothingPassedAtFirst(s, n, p, e);
    ReadingOn(Apply(s, CheckReporting(p)), n + 1, steps, t, p, e);
    ReadToTheEnd(t, p, e);
  }

  lemma ReadToTheEnd(s: State, p: Proc, e: Event)
    requires NotPassed(s, p, e) && Enabled(s, Post(p)) && |PhaseOf(s, p).batch| < 25
    ensures Waits(s, e) ==> e in PhaseOf(s, p).batch
  {}

  // -------------------------------------------------- what counts as dropped

  /** The event leaves the outbox by this step, and not because an answer came. */
  ghost predicate LosesPlace(s: State, step: Step, e: Event)
    requires Enabled(s, step)
  {
    Waits(s, e) && !Waits(Apply(s, step), e) && !step.DeleteNext?
  }

  function CauseOf(step: Step): Cause {
    match step
    case Record(_) => OutboxFull
    case Purge => ReportingOff
    case _ => UnreadableFile
  }

  /** An event comes to be recorded as dropped exactly when it so loses its place, under that step's cause. */
  lemma DroppedExactly(s: State, n: nat, step: Step, e: Event)
    requires Reachable(s, n) && Enabled(s, step) && Waits(s, e) && e.id !in s.dropped
    ensures e.id in Apply(s, step).dropped <==> LosesPlace(s, step, e)
    ensures e.id in Apply(s, step).dropped ==> Apply(s, step).dropped[e.id] == CauseOf(step)
  {
    ReachableKeepsInv(s, n);
    LeavesExactlyWhenTaken(s, step, e);
    match step
    case Record(event) => DroppedByRecord(s, event, e);
    case ReadNext(p, readable) => DroppedByRead(s, p, readable, e);
    case _ =>
  }

  lemma DroppedByRecord(s: State, event: Event, e: Event)
    requires FilesOk(s) && NamesOk(s) && Enabled(s, Record(event)) && Waits(s, e) && e.id !in s.dropped
    ensures var t := Apply(s, Record(event));
            && (e.id in t.dropped <==> Entry(e.id, Valid(e)) in s.outbox[..Overflow(s.outbox)])
            && (e.id in t.dropped ==> t.dropped[e.id] == OutboxFull)
  {
    var k := Overflow(s.outbox);
    forall f | f in s.outbox[..k] && f.name == e.id ensures f == Entry(e.id, Valid(e)) {
      assert f in s.outbox;
    }
  }

  lemma DroppedByRead(s: State, p: Proc, readable: bool, e: Event)
    requires FilesOk(s) && NamesOk(s) && Enabled(s, ReadNext(p, readable)) && Waits(s, e) && e.id !in s.dropped
    ensures var t := Apply(s, ReadNext(p, readable));
            && (e.id in t.dropped <==> !readable && PhaseOf(s, p).todo[0] == e.id)
            && (e.id in t.dropped ==> t.dropped[e.id] == UnreadableFile)
  {
    var name := PhaseOf(s, p).todo[0];
    FindIs(s.outbox, name);
    if name == e.id {
      var file := Find(s.outbox, name).value;
      assert s.written[name] == file.body == Valid(e);
      assert file in [file];
    }
  }

  // --------------------------------------------------- while reporting is off

  /** No sender holds a batch it may yet send. */
  ghost predicate NobodySends(s: State) {
    forall p: Proc :: !PhaseOf(s, p).Reading? && !PhaseOf(s, p).Awaiting?
  }

  /** Nothing is purged, or dropped for that, before reporting was turned off. */
  lemma {:induction false} NoPurgeUnlessTurnedOff(s: State, steps: seq<Step>, t: State)
    requires Leads(s, steps, t) && !s.purging && forall n :: n in s.dropped ==> s.dropped[n] != ReportingOff
    requires forall i :: 0 <= i < |steps| ==> !steps[i].TurnOff?
    ensures !t.purging && forall n :: n in t.dropped ==> t.dropped[n] != ReportingOff
    decreases |steps|
  {
    if steps != [] {
      assert !steps[0].TurnOff?;
      NoPurgeUnlessTurnedOff(Apply(s, steps[0]), steps[1..], t);
    }
  }

  /** With reporting off, and until it is turned on, no sender reads a batch or makes a request. */
  lemma {:induction false} NothingIsSentWhileOff(s: State, steps: seq<Step>, t: State)
    requires Leads(s, steps, t) && !s.reporting && NobodySends(s)
    requires forall i :: 0 <= i < |steps| ==> !steps[i].TurnOn?
    ensures !t.reporting && NobodySends(t)
    decreases |steps|
  {
    if steps != [] {
      var next := Apply(s, steps[0]);
      forall p: Proc ensures !PhaseOf(next, p).Reading? && !PhaseOf(next, p).Awaiting? {
        assert !PhaseOf(s, p).Reading? && !PhaseOf(s, p).Awaiting?;
        if HasSender(steps[0]) {
          assert !PhaseOf(s, steps[0].p).Reading? && !PhaseOf(s, steps[0].p).Awaiting?;
        }
      }
      assert !steps[0].TurnOn?;
      NothingIsSentWhileOff(next, steps[1..], t);
    }
  }
}
