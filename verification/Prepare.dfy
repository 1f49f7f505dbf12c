/**
 `prepare` of skills/converting-to-canyonos/prepare.py: build the new artifact tree next
 to the old one, then swap the two by renaming, and undo the swap when a step fails.

 `Workspace` holds the three sibling locations the transaction uses. A `Fault` says which
 step, if any, fails with an operating-system error; the undoing steps do not fail.
 */
module Prepare {
  import opened Wrappers
  import opened FileTree
  import opened Refresh

  const CONFIG: Path := ["config"]
  const STATE_FILE: Path := ["config", ".porting-state.json"]
  const RESERVED_NAMES: set<string> := {"config", "docker_container", "grpc_stubs", "stubs"}

  datatype Mode = Plain | Force | RefreshPort

  datatype Error =
    | ReservedName
    | AlreadyExists
    | NothingToRefresh
    | ConfigIsFile
    | StateMissing
    | StateInvalid
    | EditedInBoth(conflicts: set<Path>)
    | Os

  /** The step that fails; a step writing into the staged tree may leave any part of it. */
  datatype Fault =
    | NoFault
    | CopyFails
    | StagingFails(partial: Nodes)
    | UpdateFails(partial: Nodes)
    | StateFails(partial: Nodes)
    | MoveAsideFails
    | SwapFails

  // -------------------------------------------------------- the new tree

  function LoadState(t: Nodes): Result<FileMap, Error> {
    if STATE_FILE !in t || t[STATE_FILE].Dir? then Err(StateMissing)
    else match t[STATE_FILE].content
      case Bytes(_) => Err(StateInvalid)
      case State(source) => if [] in source then Err(StateInvalid) else Ok(source)
  }

  /** config/.mkdir(exist_ok=True), then the state file. */
  function WithState(t: Nodes, source: FileMap): Result<Nodes, Error> {
    if CONFIG in t && t[CONFIG].File? then Err(Os)
    else if STATE_FILE in t && t[STATE_FILE].Dir? then Err(Os)
    else Ok(t[CONFIG := Dir][STATE_FILE := File(State(source))])
  }

  predicate InConfig(p: Path) {
    p == CONFIG || IsAbove(CONFIG, p)
  }

  /** shutil.copytree of the kept config directory; it refuses an existing destination. */
  function WithKeptConfig(source: Nodes, existing: Option<Nodes>): Result<Nodes, Error> {
    if existing.None? || CONFIG !in existing.value then Ok(source)
    else if CONFIG in source then Err(Os)
    else Ok(source + map p | p in existing.value && InConfig(p) :: existing.value[p])
  }

  predicate HasReservedName(source: Nodes) {
    exists name | name in RESERVED_NAMES :: [name] in source && source[[name]].Dir?
  }

  /** The checks made before anything is written. */
  function Checked(source: Nodes, mode: Mode, artifact: Option<Nodes>): Option<Error> {
    if HasReservedName(source) then Some(ReservedName)
    else if mode == RefreshPort && artifact.None? then Some(NothingToRefresh)
    else if artifact.Some? && mode == Plain then Some(AlreadyExists)
    else if artifact.Some? && CONFIG in artifact.value && artifact.value[CONFIG].File? then Some(ConfigIsFile)
    else None
  }

  /** The tree a run is to put at the artifact root, or why it must refuse. */
  ghost predicate Builds(source: Nodes, mode: Mode, artifact: Option<Nodes>, r: Result<Nodes, Error>) {
    if Checked(source, mode, artifact).Some? then r == Err(Checked(source, mode, artifact).value)
    else if mode == RefreshPort then
      var state := LoadState(artifact.value);
      if state.Err? then r == Err(state.error)
      else if NoConflict(state.value, Files(source), Files(artifact.value)) then
        r == WithState(TreeOf(Merged(state.value, Files(source), Files(artifact.value))), Files(source))
      else
        && r.Err? && r.error.EditedInBoth?
        && forall p :: p in r.error.conflicts <==> Conflicting(state.value, Files(source), Files(artifact.value), p)
    else
      var kept := WithKeptConfig(source, artifact);
      if kept.Err? then r == Err(kept.error) else r == WithState(kept.value, Files(source))
  }

  // --------------------------------------- when a run succeeds, and with what

  /** The source has no directory of a reserved name, and no file named config. */
  predicate SourceFits(source: Nodes) {
    && ["config"] !in source
    && !HasKind(source, ["docker_container"], Directory)
    && !HasKind(source, ["grpc_stubs"], Directory)
    && !HasKind(source, ["stubs"], Directory)
  }

  /** The artifact has a state file that records these files. */
  predicate Records(artifact: Nodes, recorded: FileMap) {
    && ["config", ".porting-state.json"] in artifact
    && artifact[["config", ".porting-state.json"]] == File(State(recorded))
    && [] !in recorded
  }

  /**
   A run has what it needs: no artifact in its way without a flag, one to refresh that records its
   source and needs no choice, and nothing of the wrong kind where the state file goes.
   */
  ghost predicate MayRun(source: Nodes, mode: Mode, artifact: Option<Nodes>) {
    && SourceFits(source)
    && match mode
       case Plain => artifact.None?
       case Force =>
         artifact.Some? ==>
           && !HasKind(artifact.value, ["config"], Entry)
           && !HasKind(artifact.value, ["config", ".porting-state.json"], Directory)
       case RefreshPort =>
         && artifact.Some?
         && exists recorded ::
              && Records(artifact.value, recorded)
              && forall p :: !NeedsChoice(recorded, Files(source), Files(artifact.value), p)
  }

  /** What a completed run leaves at a path: the state file, and elsewhere what the mode asks for. */
  ghost predicate LeavesAt(source: Nodes, mode: Mode, artifact: Option<Nodes>, t: Nodes, p: Path) {
    var after := Get(Files(t), p);
    if p == ["config", ".porting-state.json"] then after == Some(State(Files(source)))
    else match mode
      case Plain => after == Get(Files(source), p)
      case Force =>
        after == if artifact.Some? && p != [] && p[0] == "config" then Get(Files(artifact.value), p)
                 else Get(Files(source), p)
      case RefreshPort =>
        artifact.Some? && exists recorded ::
          Records(artifact.value, recorded) && HonoursAt(recorded, Files(source), Files(artifact.value), Files(t), p)
  }

  /** Why a run refused. */
  ghost predicate Explains(source: Nodes, mode: Mode, artifact: Option<Nodes>, error: Error) {
    match error
    case ReservedName =>
      || HasKind(source, ["config"], Directory) || HasKind(source, ["docker_container"], Directory)
      || HasKind(source, ["grpc_stubs"], Directory) || HasKind(source, ["stubs"], Directory)
    case AlreadyExists => mode == Plain && artifact.Some?
    case NothingToRefresh => mode == RefreshPort && artifact.None?
    case ConfigIsFile => mode != Plain && artifact.Some? && HasKind(artifact.value, ["config"], Entry)
    case StateMissing =>
      mode == RefreshPort && artifact.Some? && !HasKind(artifact.value, ["config", ".porting-state.json"], Entry)
    case StateInvalid =>
      && mode == RefreshPort && artifact.Some? && HasKind(artifact.value, ["config", ".porting-state.json"], Entry)
      && forall recorded :: !Records(artifact.value, recorded)
    case EditedInBoth(conflicts) =>
      && mode == RefreshPort && artifact.Some? && conflicts != {}
      && exists recorded ::
           && Records(artifact.value, recorded)
           && forall p :: p in conflicts <==> NeedsChoice(recorded, Files(source), Files(artifact.value), p)
    case Os =>
      || HasKind(source, ["config"], Entry)
      || (artifact.Some? && HasKind(artifact.value, ["config", ".porting-state.json"], Directory))
  }

  // ------------------------------------------------------ the transaction

  datatype Disk = Disk(artifact: Option<Nodes>, staged: Option<Nodes>, previous: Option<Nodes>)

  /** Where a run is; a crash stops it for good, wherever it is. */
  datatype Phase =
    | Checking | Staging | Filled | Aside | Swapped
    | Undoing(error: Error) | Failed(error: Error) | Done | Crashed

  datatype Moment = Moment(disk: Disk, phase: Phase)

  /** One action on the disk. Filling and deleting a tree may stop half way, at any tree. */
  datatype Step =
    | Refuse
    | Begin
    | Write(partial: Nodes)
    | Fill(t: Nodes)
    | StagingStops(error: Error)
    | MoveAside
    | MoveStops
    | Swap
    | SwapStops
    | Discard(left: Option<Nodes>)
    | Restore
    | DropPrevious(left: Option<Nodes>)
    | Crash

  ghost predicate Enabled(source: Nodes, mode: Mode, before: Option<Nodes>, s: Moment, step: Step) {
    match step
    case Refuse => s.phase.Checking? && Checked(source, mode, before).Some?
    case Begin => s.phase.Checking? && Checked(source, mode, before).None?
    case Write(_) => s.phase.Staging?
    case Fill(t) => s.phase.Staging? && Builds(source, mode, before, Ok(t))
    case StagingStops(error) => s.phase.Staging?
    case MoveAside => s.phase.Filled?
    case MoveStops => s.phase.Filled? && s.disk.artifact.Some?
    case Swap => s.phase.Aside?
    case SwapStops => s.phase.Aside?
    case Discard(_) => s.phase.Undoing? && s.disk.staged.Some?
    case Restore => s.phase.Undoing? && s.disk.staged.None?
    case DropPrevious(_) => s.phase.Swapped?
    case Crash => true
  }

  ghost function Apply(source: Nodes, mode: Mode, before: Option<Nodes>, s: Moment, step: Step): Moment
    requires Enabled(source, mode, before, s, step)
  {
    var d := s.disk;
    match step
    case Refuse => s.(phase := Failed(Checked(source, mode, before).value))
    case Begin => s.(phase := Staging)
    case Write(partial) => s.(disk := d.(staged := Some(partial)))
    case Fill(t) => Moment(d.(staged := Some(t)), Filled)
    case StagingStops(error) => s.(phase := Undoing(error))
    case MoveAside =>
      Moment(if d.artifact.Some? then d.(artifact := None, previous := d.artifact) else d, Aside)
    case MoveStops => s.(phase := Undoing(Os))
    case Swap => Moment(d.(artifact := d.staged, staged := None), Swapped)
    case SwapStops => s.(phase := Undoing(Os))
    case Discard(left) => s.(disk := d.(staged := left))
    case Restore =>
      Moment(if d.previous.Some? && d.artifact.None? then d.(artifact := d.previous, previous := None) else d,
            Failed(s.phase.error))
    case DropPrevious(left) =>
      if left.None? || d.previous.None? then Moment(d.(previous := None), Done) else s.(disk := d.(previous := left))
    case Crash => s.(phase := Crashed)
  }

  ghost predicate Reachable(source: Nodes, mode: Mode, before: Option<Nodes>, s: Moment, n: nat)
    decreases n
  {
    if n == 0 then s == Moment(Disk(before, None, None), Checking)
    else
      exists earlier, step ::
        && Reachable(source, mode, before, earlier, n - 1) && Enabled(source, mode, before, earlier, step)
        && s == Apply(source, mode, before, earlier, step)
  }

  ghost predicate Reached(source: Nodes, mode: Mode, before: Option<Nodes>, s: Moment) {
    exists n: nat :: Reachable(source, mode, before, s, n)
  }

  /** What a crash may leave at any moment: an old artifact is never lost, never half replaced. */
  ghost predicate Recoverable(d: Disk, before: Option<Nodes>, source: Nodes, mode: Mode) {
    || d.artifact == before
    || (d.artifact.None? && d.previous == before)
    || (d.artifact.Some? && Builds(source, mode, before, Ok(d.artifact.value)))
  }

  ghost predicate BuiltAt(t: Option<Nodes>, before: Option<Nodes>, source: Nodes, mode: Mode) {
    t.Some? && Builds(source, mode, before, Ok(t.value))
  }

  ghost predicate Inv(source: Nodes, mode: Mode, before: Option<Nodes>, s: Moment) {
    var d := s.disk;
    match s.phase
    case Checking => d == Disk(before, None, None)
    case Staging => d.artifact == before && d.previous.None?
    case Filled => d.artifact == before && d.previous.None? && BuiltAt(d.staged, before, source, mode)
    case Aside => d.artifact.None? && d.previous == before && BuiltAt(d.staged, before, source, mode)
    case Swapped => BuiltAt(d.artifact, before, source, mode) && d.staged.None?
    case Undoing(_) => (d.artifact == before && d.previous.None?) || (d.artifact.None? && d.previous == before)
    case Failed(_) => d == Disk(before, None, None)
    case Done => BuiltAt(d.artifact, before, source, mode) && d.staged.None? && d.previous.None?
    case Crashed => Recoverable(d, before, source, mode)
  }

  lemma StepKeepsInv(source: Nodes, mode: Mode, before: Option<Nodes>, s: Moment, step: Step)
    requires Inv(source, mode, before, s) && Enabled(source, mode, before, s, step)
    ensures Inv(source, mode, before, Apply(source, mode, before, s, step))
  {
    hide Builds, Checked;
  }

  lemma {:induction false} ReachableKeepsInv(source: Nodes, mode: Mode, before: Option<Nodes>, s: Moment, n: nat)
    requires Reachable(source, mode, before, s, n)
    ensures Inv(source, mode, before, s)
    decreases n
  {
    hide Enabled, Apply;
    if n > 0 {
      var earlier, step :| && Reachable(source, mode, before, earlier, n - 1)
                           && Enabled(source, mode, before, earlier, step)
                           && s == Apply(source, mode, before, earlier, step);
      ReachableKeepsInv(source, mode, before, earlier, n - 1);
      StepKeepsInv(source, mode, before, earlier, step);
    }
  }

  /**
   Whenever a run stops or crashes, the artifact is the old one or the complete new one, or
   the old one waits aside. A failed run has the old artifact back and no sibling left over; a
   completed one has the tree that `Builds` prescribes.
   */
  lemma AlwaysRecoverable(source: Nodes, mode: Mode, before: Option<Nodes>, s: Moment, n: nat)
    requires Reachable(source, mode, before, s, n)
    ensures Recoverable(s.disk, before, source, mode)
    ensures s.phase.Failed? ==> s.disk == Disk(before, None, None)
    ensures s.phase.Done? ==> s.disk.artifact.Some? && s.disk == Disk(s.disk.artifact, None, None)
                              && Builds(source, mode, before, Ok(s.disk.artifact.value))
  {
    hide Builds, Checked;
    ReachableKeepsInv(source, mode, before, s, n);
  }

  /** A crash can come at any moment, and filling or clearing a tree can stop at any tree. */
  lemma AnythingCanStop(source: Nodes, mode: Mode, before: Option<Nodes>, s: Moment, n: nat, partial: Nodes)
    requires Reachable(source, mode, before, s, n)
    ensures Reachable(source, mode, before, Moment(s.disk, Crashed), n + 1)
    ensures s.phase.Staging? ==>
              Reachable(source, mode, before, Moment(s.disk.(staged := Some(partial)), Staging), n + 1)
    ensures s.phase.Swapped? && s.disk.previous.Some? ==>
              Reachable(source, mode, before, Moment(s.disk.(previous := Some(partial)), Swapped), n + 1)
  {
    OneMore(source, mode, before, s, n, Crash);
    if s.phase.Staging? {
      OneMore(source, mode, before, s, n, Write(partial));
    }
    if s.phase.Swapped? {
      OneMore(source, mode, before, s, n, DropPrevious(Some(partial)));
    }
    hide Reachable;
  }

  lemma OneMore(source: Nodes, mode: Mode, before: Option<Nodes>, s: Moment, n: nat, step: Step)
    requires Reachable(source, mode, before, s, n) && Enabled(source, mode, before, s, step)
    ensures Reachable(source, mode, before, Apply(source, mode, before, s, step), n + 1)
  {
    hide Enabled, Apply;
  }

  lemma Started(source: Nodes, mode: Mode, before: Option<Nodes>)
    ensures Reached(source, mode, before, Moment(Disk(before, None, None), Checking))
  {
    assert Reachable(source, mode, before, Moment(Disk(before, None, None), Checking), 0);
  }

  lemma Stepped(source: Nodes, mode: Mode, before: Option<Nodes>, s: Moment, step: Step)
    requires Reached(source, mode, before, s) && Enabled(source, mode, before, s, step)
    ensures Reached(source, mode, before, Apply(source, mode, before, s, step))
  {
    hide Enabled, Apply;
    var n: nat :| Reachable(source, mode, before, s, n);
    assert Reachable(source, mode, before, Apply(source, mode, before, s, step), n + 1);
  }

  lemma RefusalReached(source: Nodes, mode: Mode, before: Option<Nodes>)
    requires Checked(source, mode, before).Some?
    ensures var error := Checked(source, mode, before).value;
            && Builds(source, mode, before, Err(error))
            && Reached(source, mode, before, Moment(Disk(before, None, None), Failed(error)))
  {
    Started(source, mode, before);
    hide Reached;
    Stepped(source, mode, before, Moment(Disk(before, None, None), Checking), Refuse);
  }

  /** Whatever staging left behind, and whether it succeeded. */
  lemma StagingReached(source: Nodes, mode: Mode, before: Option<Nodes>, left: Option<Nodes>, r: Result<(), Error>)
    requires Checked(source, mode, before).None?
    requires r.Ok? ==> left.Some? && Builds(source, mode, before, Ok(left.value))
    ensures Reached(source, mode, before, Moment(Disk(before, left, None), if r.Ok? then Filled else Undoing(r.error)))
  {
    Started(source, mode, before);
    hide Reached;
    var start := Moment(Disk(before, None, None), Checking);
    Stepped(source, mode, before, start, Begin);
    var begun := Moment(Disk(before, None, None), Staging);
    if r.Ok? {
      Stepped(source, mode, before, begun, Fill(left.value));
    } else if left.Some? {
      Stepped(source, mode, before, begun, Write(left.value));
      Stepped(source, mode, before, Moment(Disk(before, left, None), Staging), StagingStops(r.error));
    } else {
      Stepped(source, mode, before, begun, StagingStops(r.error));
    }
  }

  lemma FilledStep(source: Nodes, mode: Mode, before: Option<Nodes>, d: Disk, step: Step)
    requires Reached(source, mode, before, Moment(d, Filled))
    requires step == MoveAside || (step == MoveStops && d.artifact.Some?)
    ensures step == MoveStops ==> Reached(source, mode, before, Moment(d, Undoing(Os)))
    ensures step == MoveAside ==>
              var moved := if d.artifact.Some? then d.(artifact := None, previous := d.artifact) else d;
              Reached(source, mode, before, Moment(moved, Aside))
  {
    hide Reached;
    Stepped(source, mode, before, Moment(d, Filled), step);
  }

  lemma AsideStep(source: Nodes, mode: Mode, before: Option<Nodes>, d: Disk, step: Step)
    requires Reached(source, mode, before, Moment(d, Aside)) && (step == Swap || step == SwapStops)
    ensures step == SwapStops ==> Reached(source, mode, before, Moment(d, Undoing(Os)))
    ensures step == Swap ==> Reached(source, mode, before, Moment(d.(artifact := d.staged, staged := None), Swapped))
  {
    hide Reached;
    Stepped(source, mode, before, Moment(d, Aside), step);
  }

  lemma ClearStep(source: Nodes, mode: Mode, before: Option<Nodes>, d: Disk)
    requires Reached(source, mode, before, Moment(d, Swapped))
    ensures Reached(source, mode, before, Moment(d.(previous := None), Done))
  {
    hide Reached;
    Stepped(source, mode, before, Moment(d, Swapped), DropPrevious(None));
  }

  lemma UndoStep(source: Nodes, mode: Mode, before: Option<Nodes>, d: Disk, error: Error)
    requires Reached(source, mode, before, Moment(d, Undoing(error)))
    ensures var back := if d.previous.Some? && d.artifact.None? then Disk(d.previous, None, None)
                        else d.(staged := None);
            Reached(source, mode, before, Moment(back, Failed(error)))
  {
    hide Reached;
    if d.staged.Some? {
      Stepped(source, mode, before, Moment(d, Undoing(error)), Discard(None));
    }
    Stepped(source, mode, before, Moment(d.(staged := None), Undoing(error)), Restore);
  }

  class Workspace {
    var artifact: Tree?
    var staged: Tree?
    var previous: Tree?

    constructor (start: Option<Nodes>)
      ensures Now() == Disk(start, None, None)
      ensures artifact != null ==> fresh(artifact)
    {
      artifact, staged, previous := null, null, null;
      new;
      if start.Some? {
        artifact := new Tree(start.value);
      }
    }

    function Now(): Disk
      reads this, artifact, staged, previous
    {
      Disk(
        if artifact == null then None else Some(artifact.nodes),
        if staged == null then None else Some(staged.nodes),
        if previous == null then None else Some(previous.nodes))
    }

    /**
     A run takes only the steps of the transaction, so what `AlwaysRecoverable` says of every
     moment holds of it. Without a fault it succeeds exactly when it may. A failed run leaves the
     old artifact, the very same tree; no run leaves a sibling.
     */
    method Run(source: Nodes, mode: Mode, fault: Fault) returns (r: Result<(), Error>)
      requires staged == null && previous == null
      requires IsTree(source) && (artifact != null ==> IsTree(artifact.nodes))
      modifies this
      ensures staged == null && previous == null
      ensures r.Err? ==> artifact == old(artifact) && Now() == old(Now())
      ensures r.Ok? ==>
                artifact != null && fresh(artifact) && Builds(source, mode, old(Now()).artifact, Ok(artifact.nodes))
      ensures r.Ok? ==> MayRun(source, mode, old(Now()).artifact)
      ensures r.Ok? ==> forall p :: LeavesAt(source, mode, old(Now()).artifact, artifact.nodes, p)
      ensures fault == NoFault && r.Err? ==>
                !MayRun(source, mode, old(Now()).artifact) && Explains(source, mode, old(Now()).artifact, r.error)
      ensures Reached(source, mode, old(Now()).artifact, Moment(Now(), if r.Ok? then Done else Failed(r.error)))
    {
      hide Builds, Checked, Reached, IsTree, Enabled, Apply, MayRun, LeavesAt, Explains;
      ghost var before := Now().artifact;
      Started(source, mode, before);
      var refusal := Checked(source, mode, Now().artifact);
      if refusal.Some? {
        RefusalReached(source, mode, before);
        RunExactly(source, mode, before, Err(refusal.value));
        return Err(refusal.value);
      }
      var built := Stage(source, mode, fault);
      StagingReached(source, mode, before, Now().staged, built);
      if built.Err? {
        if fault == NoFault {
          RunExactly(source, mode, before, Err(built.error));
        }
        Undo(source, mode, before, built.error);
        return built;
      }
      RunExactly(source, mode, before, Ok(staged.nodes));
      r := Commit(source, mode, before, fault);
    }

    /** From the filled tree on: move the old artifact aside, put the new one in its place, clear up. */
    method Commit(source: Nodes, mode: Mode, ghost before: Option<Nodes>, fault: Fault) returns (r: Result<(), Error>)
      requires staged != null && previous == null && staged != artifact && Now().artifact == before
      requires Reached(source, mode, before, Moment(Now(), Filled))
      modifies this
      ensures staged == null && previous == null
      ensures r.Err? ==> artifact == old(artifact) && (fault == MoveAsideFails || fault == SwapFails)
      ensures r.Ok? ==> artifact == old(staged)
      ensures Reached(source, mode, before, Moment(Now(), if r.Ok? then Done else Failed(r.error)))
    {
      hide Builds, Checked, Reached, Enabled, Apply;
      if fault == MoveAsideFails && artifact != null {
        FilledStep(source, mode, before, Now(), MoveStops);
        Undo(source, mode, before, Os);
        return Err(Os);
      }
      FilledStep(source, mode, before, Now(), MoveAside);
      if artifact != null {
        previous := artifact;
        artifact := null;
      }
      if fault == SwapFails {
        AsideStep(source, mode, before, Now(), SwapStops);
        Undo(source, mode, before, Os);
        return Err(Os);
      }
      AsideStep(source, mode, before, Now(), Swap);
      artifact := staged;
      staged := null;
      ClearStep(source, mode, before, Now());
      previous := null;
      r := Ok(());
    }

    /** Discard the staged tree and bring the artifact back. */
    method Undo(source: Nodes, mode: Mode, ghost before: Option<Nodes>, error: Error)
      requires Reached(source, mode, before, Moment(Now(), Undoing(error)))
      requires if previous == null then Now().artifact == before else artifact == null && Now().previous == before
      modifies this
      ensures staged == null && previous == null
      ensures artifact == (if old(previous) == null then old(artifact) else old(previous))
      ensures Now().artifact == before && Reached(source, mode, before, Moment(Now(), Failed(error)))
    {
      hide Builds, Checked, Reached, Enabled, Apply;
      UndoStep(source, mode, before, Now(), error);
      staged := null;
      if previous != null && artifact == null {
        artifact := previous;
        previous := null;
      }
    }

    /** Fill the staged tree; the artifact itself is only read. */
    method Stage(source: Nodes, mode: Mode, fault: Fault) returns (r: Result<(), Error>)
      requires staged == null && previous == null
      requires IsTree(source) && (artifact != null ==> IsTree(artifact.nodes))
      requires Checked(source, mode, Now().artifact).None?
      modifies this`staged
      ensures staged != null ==> fresh(staged)
      ensures r.Ok? ==> staged != null && Builds(source, mode, Now().artifact, Ok(staged.nodes))
      ensures fault == NoFault && r.Err? ==> Builds(source, mode, Now().artifact, Err(r.error))
    {
      if fault == CopyFails {
        return Err(Os);
      }
      if fault.StagingFails? {
        staged := new Tree(fault.partial);
        return Err(Os);
      }
      if mode == RefreshPort {
        staged := new Tree(artifact.nodes);
        var recorded := LoadState(artifact.nodes);
        if recorded.Err? {
          return Err(recorded.error);
        }
        var outcome := Refresh.Refresh(staged, source, recorded.value);
        RefusedExactly(recorded.value, Files(source), Files(artifact.nodes));
        if outcome.Refused? {
          return Err(EditedInBoth(outcome.conflicts));
        }
      } else {
        var kept := WithKeptConfig(source, Now().artifact);
        staged := new Tree(if kept.Ok? then kept.value else source);
        if kept.Err? {
          return Err(kept.error);
        }
      }
      if fault.UpdateFails? || fault.StateFails? {
        staged.nodes := fault.partial;
        return Err(Os);
      }
      var final := WithState(staged.nodes, Files(source));
      if final.Err? {
        return Err(final.error);
      }
      staged.nodes := final.value;
      r := Ok(());
    }
  }

  // ------------------------------------------------------------ properties

  lemma BuiltIsTree(source: Nodes, mode: Mode, artifact: Option<Nodes>, t: Nodes)
    requires IsTree(source) && (artifact.Some? ==> IsTree(artifact.value))
    requires Builds(source, mode, artifact, Ok(t))
    ensures IsTree(t)
  {
    FilesOfTree(source);
    if mode == RefreshPort {
      FilesOfTree(artifact.value);
      var state := LoadState(artifact.value).value;
      var merged := Merged(state, Files(source), Files(artifact.value));
      MergedIsFileSet(state, Files(source), Files(artifact.value));
      TreeOfIsTree(merged);
      WithStateIsTree(TreeOf(merged), Files(source));
    } else {
      var kept := WithKeptConfig(source, artifact).value;
      assert IsTree(kept) by {
        forall a, p | IsAbove(a, p) && p in kept && a != [] ensures a in kept && kept[a].Dir? {
          if p !in source {
            assert InConfig(p) && a != [];
            assert a[0] == p[0] == "config";
            assert a == CONFIG || IsAbove(CONFIG, a);
          } else {
            assert a in source && (IsAbove(CONFIG, a) ==> CONFIG in source);
          }
        }
      }
      WithStateIsTree(kept, Files(source));
    }
  }

  lemma WithStateIsTree(t: Nodes, source: FileMap)
    requires IsTree(t) && WithState(t, source).Ok?
    ensures IsTree(WithState(t, source).value)
  {
    var n := WithState(t, source).value;
    forall a, p | IsAbove(a, p) && p in n && a != [] ensures a in n && n[a].Dir? {
      if p == STATE_FILE {
        assert |a| == 1 && a[0] == "config";
        assert a == CONFIG;
      }
    }
  }

  /** The state file written last is the one the next refresh reads back. */
  lemma StateRoundTrip(t: Nodes, source: Nodes)
    requires IsTree(source) && WithState(t, Files(source)).Ok?
    ensures LoadState(WithState(t, Files(source)).value) == Ok(Files(source))
    ensures Files(WithState(t, Files(source)).value) == Files(t)[STATE_FILE := State(Files(source))]
  {}

  /** A file cannot record itself: the recorded source is a proper part of the state file. */
  lemma StateIsNotInItself(m: FileMap, p: Path)
    requires p in m
    ensures m[p] != State(m)
  {}

  lemma NothingIncomingInConfig(source: Nodes, p: Path)
    requires IsTree(source) && !HasReservedName(source) && p in source
    ensures !IsAbove(CONFIG, p)
  {
    assert "config" in RESERVED_NAMES;
  }

  lemma AroundConfig()
    ensures IsAbove(CONFIG, STATE_FILE)
    ensures forall p :: IsAbove(p, STATE_FILE) ==> p == [] || p == CONFIG
    ensures forall p :: IsAbove(STATE_FILE, p) ==> IsAbove(CONFIG, p)
    ensures forall p, q :: IsAbove(p, q) && InConfig(q) ==> p == [] || InConfig(p)
    ensures forall p, q :: IsAbove(p, q) && InConfig(p) ==> IsAbove(CONFIG, q)
  {
    forall p | IsAbove(p, STATE_FILE) ensures p == [] || p == CONFIG {
      assert p == STATE_FILE[..|p|];
    }
    forall p, q | IsAbove(p, q) && InConfig(q) ensures p == [] || InConfig(p) {
      if p != [] {
        assert p[0] == q[0] == "config";
      }
    }
  }

  /** A source file named config meets the state file, which the port alone wrote. */
  lemma ConfigFileIsRefused(source: Nodes, artifact: Nodes)
    requires LoadState(artifact).Ok? && CONFIG in Files(source)
    ensures Conflicting(LoadState(artifact).value, Files(source), Files(artifact), STATE_FILE)
  {
    var state, cur := LoadState(artifact).value, Files(artifact);
    AroundConfig();
    assert cur[STATE_FILE] == State(state);
    assert PortChanged(state, cur, STATE_FILE) by {
      if STATE_FILE in state {
        StateIsNotInItself(state, STATE_FILE);
      }
    }
    assert Related(CONFIG, STATE_FILE);
  }

  /** After any successful run, no path of the source sits at or around the state file. */
  lemma SourceLeavesStateFileAlone(source: Nodes, mode: Mode, artifact: Option<Nodes>, t: Nodes)
    requires IsTree(source) && (artifact.Some? ==> IsTree(artifact.value))
    requires Builds(source, mode, artifact, Ok(t))
    ensures forall i :: i in Files(source) ==> i != [] && i != STATE_FILE && !Related(i, STATE_FILE) && !InConfig(i)
  {
    AroundConfig();
    if mode == RefreshPort && CONFIG in Files(source) {
      ConfigFileIsRefused(source, artifact.value);
    }
    forall i | i in Files(source) ensures i != [] && i != STATE_FILE && !Related(i, STATE_FILE) && !InConfig(i) {
      NothingIncomingInConfig(source, i);
    }
  }

  lemma ReservedAre(source: Nodes)
    ensures HasReservedName(source) <==>
            || HasKind(source, ["config"], Directory) || HasKind(source, ["docker_container"], Directory)
            || HasKind(source, ["grpc_stubs"], Directory) || HasKind(source, ["stubs"], Directory)
  {
    assert RESERVED_NAMES == {"config", "docker_container", "grpc_stubs", "stubs"};
  }

  lemma RecordedIs(artifact: Nodes, recorded: FileMap)
    ensures Records(artifact, recorded) <==> LoadState(artifact) == Ok(recorded)
  {}

  lemma FreshRunExactly(source: Nodes, mode: Mode, artifact: Option<Nodes>, r: Result<Nodes, Error>)
    requires IsTree(source) && (artifact.Some? ==> IsTree(artifact.value)) && mode != RefreshPort
    requires Builds(source, mode, artifact, r)
    ensures r.Ok? <==> MayRun(source, mode, artifact)
    ensures r.Ok? ==> forall p :: LeavesAt(source, mode, artifact, r.value, p)
    ensures r.Err? ==> Explains(source, mode, artifact, r.error)
  {
    ReservedAre(source);
    if r.Ok? {
      AroundConfig();
      SourceLeavesStateFileAlone(source, mode, artifact, r.value);
      if mode == Force && artifact.Some? {
        forall p ensures LeavesAt(source, mode, artifact, r.value, p) {
          InConfigIs(p);
          if p != STATE_FILE {
            ForceKeepsOnlyConfig(source, artifact.value, r.value, p);
          }
        }
      }
    }
  }

  lemma InConfigIs(p: Path)
    ensures InConfig(p) <==> p != [] && p[0] == "config"
  {
    if p != [] && p[0] == "config" {
      assert p[..1] == CONFIG;
    }
  }

  lemma RefreshRunExactly(source: Nodes, artifact: Option<Nodes>, r: Result<Nodes, Error>)
    requires IsTree(source) && (artifact.Some? ==> IsTree(artifact.value))
    requires Builds(source, RefreshPort, artifact, r)
    ensures r.Ok? <==> MayRun(source, RefreshPort, artifact)
    ensures r.Ok? ==> forall p :: LeavesAt(source, RefreshPort, artifact, r.value, p)
    ensures r.Err? ==> Explains(source, RefreshPort, artifact, r.error)
  {
    ReservedAre(source);
    if Checked(source, RefreshPort, artifact).None? {
      forall recorded ensures Records(artifact.value, recorded) <==> LoadState(artifact.value) == Ok(recorded) {
        RecordedIs(artifact.value, recorded);
      }
      if LoadState(artifact.value).Ok? {
        RecordedIs(artifact.value, LoadState(artifact.value).value);
        RefreshedExactly(source, artifact.value, LoadState(artifact.value).value, r);
      }
    }
  }

  lemma RefreshedExactly(source: Nodes, artifact: Nodes, recorded: FileMap, r: Result<Nodes, Error>)
    requires IsTree(source) && IsTree(artifact) && Records(artifact, recorded)
    requires Checked(source, RefreshPort, Some(artifact)).None? && Builds(source, RefreshPort, Some(artifact), r)
    ensures r.Ok? <==> CONFIG !in source && forall p :: !NeedsChoice(recorded, Files(source), Files(artifact), p)
    ensures r.Ok? ==> forall p :: LeavesAt(source, RefreshPort, Some(artifact), r.value, p)
    ensures r.Err? ==> Explains(source, RefreshPort, Some(artifact), r.error)
  {
    var inc, cur := Files(source), Files(artifact);
    RecordedIs(artifact, recorded);
    RefusedExactly(recorded, inc, cur);
    if CONFIG in source {
      ConfigNeedsChoice(source, artifact, recorded);
    }
    if NoConflict(recorded, inc, cur) {
      StateCanBeWritten(source, artifact, recorded);
      var merged := Merged(recorded, inc, cur);
      forall p ensures LeavesAt(source, RefreshPort, Some(artifact), r.value, p) {
        if p != STATE_FILE {
          assert HonoursAt(recorded, inc, cur, merged, p);
        }
      }
    } else {
      assert r.Err? && forall p :: p in r.error.conflicts <==> Conflicting(recorded, inc, cur, p);
      hide Conflicting, NeedsChoice, Files, Checked, Builds;
      var p :| Conflicting(recorded, inc, cur, p);
      assert p in r.error.conflicts;
    }
  }

  lemma ConfigNeedsChoice(source: Nodes, artifact: Nodes, recorded: FileMap)
    requires Records(artifact, recorded) && !HasReservedName(source) && CONFIG in source
    ensures Conflicting(recorded, Files(source), Files(artifact), STATE_FILE)
  {
    RecordedIs(artifact, recorded);
    ReservedAre(source);
    ConfigFileIsRefused(source, artifact);
  }

  /** Nothing is in the way of the state file in a merged tree. */
  lemma StateCanBeWritten(source: Nodes, artifact: Nodes, recorded: FileMap)
    requires IsTree(source) && IsTree(artifact) && Records(artifact, recorded)
    requires NoConflict(recorded, Files(source), Files(artifact))
    ensures var merged := Merged(recorded, Files(source), Files(artifact));
            && WithState(TreeOf(merged), Files(source)).Ok?
            && Files(WithState(TreeOf(merged), Files(source)).value) == merged[STATE_FILE := State(Files(source))]
  {
    var inc, cur := Files(source), Files(artifact);
    FilesOfTree(source);
    FilesOfTree(artifact);
    if STATE_FILE in recorded {
      StateIsNotInItself(recorded, STATE_FILE);
    }
    assert cur[STATE_FILE] == State(recorded);
    EditedPathIsKept(recorded, inc, cur, STATE_FILE);
    var merged := Merged(recorded, inc, cur);
    MergedIsFileSet(recorded, inc, cur);
    TreeOfIsTree(merged);
    hide Merged, NoConflict, TreeOf;
    AroundConfig();
    assert STATE_FILE in merged && CONFIG !in merged;
    StateRoundTrip(TreeOf(merged), source);
  }

  /** When a run succeeds, what it leaves, and why else it refuses. */
  lemma RunExactly(source: Nodes, mode: Mode, artifact: Option<Nodes>, r: Result<Nodes, Error>)
    requires IsTree(source) && (artifact.Some? ==> IsTree(artifact.value))
    requires Builds(source, mode, artifact, r)
    ensures r.Ok? <==> MayRun(source, mode, artifact)
    ensures r.Ok? ==> forall p :: LeavesAt(source, mode, artifact, r.value, p)
    ensures r.Err? ==> Explains(source, mode, artifact, r.error)
  {
    hide Builds, MayRun, LeavesAt, Explains;
    if mode == RefreshPort {
      RefreshRunExactly(source, artifact, r);
    } else {
      FreshRunExactly(source, mode, artifact, r);
    }
  }

  /** Refreshing from the source just prepared is accepted and changes no file. */
  lemma RefreshingAgainIsIdle(source: Nodes, mode: Mode, artifact: Option<Nodes>, t: Nodes)
    requires IsTree(source) && (artifact.Some? ==> IsTree(artifact.value))
    requires Builds(source, mode, artifact, Ok(t))
    ensures exists again :: Builds(source, RefreshPort, Some(t), Ok(again)) && Files(again) == Files(t)
  {
    var inc, cur := Files(source), Files(t);
    BuiltIsTree(source, mode, artifact, t);
    FilesOfTree(t);
    StateIsRecorded(source, mode, artifact, t);
    assert NoConflict(inc, inc, cur) by {
      forall p ensures !KindClash(inc, inc, cur, p) {
        BuiltFilesMeetNoSource(source, mode, artifact, t, p);
      }
    }
    assert Merged(inc, inc, cur) == cur by {
      SameGets(Merged(inc, inc, cur), cur);
    }
    StateRewritten(cur, inc);
    assert Builds(source, RefreshPort, Some(t), Ok(TreeOf(cur)));
    TreeOfIsTree(cur);
  }

  lemma StateIsRecorded(source: Nodes, mode: Mode, artifact: Option<Nodes>, t: Nodes)
    requires IsTree(source) && Builds(source, mode, artifact, Ok(t))
    ensures LoadState(t) == Ok(Files(source))
    ensures Get(Files(t), STATE_FILE) == Some(State(Files(source)))
    ensures Checked(source, RefreshPort, Some(t)) == None
  {}

  /** Writing the state file again changes nothing. */
  lemma StateRewritten(f: FileMap, source: FileMap)
    requires IsFileSet(f) && STATE_FILE in f && f[STATE_FILE] == State(source)
    ensures WithState(TreeOf(f), source) == Ok(TreeOf(f))
  {
    AroundConfig();
    AncestorsAre(f);
    assert HoldsFile(f, CONFIG);
    assert CONFIG !in f;
    var t := TreeOf(f);
    assert t[CONFIG] == Dir && t[STATE_FILE] == File(State(source));
    assert t[CONFIG := Dir][STATE_FILE := File(State(source))] == t;
  }

  lemma BuiltFilesMeetNoSource(source: Nodes, mode: Mode, artifact: Option<Nodes>, t: Nodes, p: Path)
    requires IsTree(source) && (artifact.Some? ==> IsTree(artifact.value))
    requires Builds(source, mode, artifact, Ok(t))
    ensures !KindClash(Files(source), Files(source), Files(t), p)
  {
    var inc := Files(source);
    SourceLeavesStateFileAlone(source, mode, artifact, t);
    if p in Files(t) && p != STATE_FILE && p !in inc {
      if mode == RefreshPort {
        FilesOfTree(source);
        FilesOfTree(artifact.value);
        var state, was := LoadState(artifact.value).value, Files(artifact.value);
        var merged := Merged(state, inc, was);
        MergedIsFileSet(state, inc, was);
        TreeOfIsTree(merged);
        RepeatedRefreshIsIdle(state, inc, was);
        assert !Conflicting(inc, inc, merged, p);
      } else {
        AroundConfig();
        assert InConfig(p);
      }
    } else if p in inc {
      FilesOfTree(source);
    }
  }

  /** --force: config/ keeps its files, apart from the state file; all else is the source. */
  lemma ForceKeepsOnlyConfig(source: Nodes, artifact: Nodes, t: Nodes, p: Path)
    requires IsTree(source) && IsTree(artifact)
    requires Builds(source, Force, Some(artifact), Ok(t)) && p != STATE_FILE
    ensures Get(Files(t), p) == if InConfig(p) then Get(Files(artifact), p) else Get(Files(source), p)
  {
    assert Builds(source, Force, Some(artifact), Ok(t));
    SourceLeavesStateFileAlone(source, Force, Some(artifact), t);
    AroundConfig();
  }
}
