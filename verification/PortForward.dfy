/**
 Class `PortForward` of packages/cli/canyonos/kubernetes_target.py: a thread restarts
 kubectl when it ends, while `close` may be called at any time. One lock guards the list
 of started processes and the closed flag.

 Each step is one action of one thread, or a kubectl dying. `spawned` and `released` are
 history: every process ever started, and whether a `close` has given the lock back.
 */
module PortForward {
  import opened Wrappers

  type Pid = nat

  datatype Thread = Restarter | Closer

  /** Where the restart thread is, between two actions. */
  datatype Restart =
    | Sleeping
    | Awake
    | WantsLock
    | HasLock
    | Spawned(child: Pid)
    | Listed(child: Pid)
    | ReadsLine(child: Pid)
    | Finished

  /** Where the thread that closes the forward is. */
  datatype Close =
    | NotClosing
    | AsksLock
    | Holds
    | Signals(next: nat)
    | Waits(next: nat)

  datatype State = State(
    lock: Option<Thread>,
    closed: bool,
    started: seq<Pid>,
    process: Pid,
    live: set<Pid>,
    signalled: set<Pid>,
    restart: Restart,
    close: Close,
    spawned: set<Pid>,
    released: bool)

  datatype Step =
    | Dies(pid: Pid)
    | Wakes
    | Polls
    | RestartLocks
    | ChecksClosed
    | Popen(pid: Pid)
    | PopenFails
    | Lists
    | RestartUnlocks
    | ReadsForwarding
    | ReadsFailure
    | CloseCalled
    | CloseLocks
    | SetsClosed
    | SignalsNext
    | CloseUnlocks
    | CloseWaits

  predicate Enabled(s: State, step: Step) {
    match step
    case Dies(pid) => pid in s.live
    case Wakes => s.restart.Sleeping?
    case Polls => s.restart.Awake?
    case RestartLocks => s.restart.WantsLock? && s.lock.None?
    case ChecksClosed => s.restart.HasLock? && s.closed
    case Popen(pid) => s.restart.HasLock? && !s.closed && pid !in s.spawned
    case PopenFails => s.restart.HasLock? && !s.closed
    case Lists => s.restart.Spawned?
    case RestartUnlocks => s.restart.Listed?
    case ReadsForwarding => s.restart.ReadsLine?
    case ReadsFailure => s.restart.ReadsLine?
    case CloseCalled => s.close.NotClosing?
    case CloseLocks => s.close.AsksLock? && s.lock.None?
    case SetsClosed => s.close.Holds?
    case SignalsNext => s.close.Signals? && s.close.next < |s.started|
    case CloseUnlocks => s.close.Signals? && s.close.next >= |s.started|
    case CloseWaits => s.close.Waits?
  }

  function Living(pids: seq<Pid>, live: set<Pid>): seq<Pid> {
    if pids == [] then []
    else (if pids[0] in live then [pids[0]] else []) + Living(pids[1..], live)
  }

  function Apply(s: State, step: Step): State
    requires Enabled(s, step)
  {
    match step
    case Dies(pid) => s.(live := s.live - {pid})
    case Wakes => s.(restart := if s.closed then Finished else Awake)
    case Polls => s.(restart := if s.process !in s.live && !s.closed then WantsLock else Sleeping)
    case RestartLocks => s.(restart := HasLock, lock := Some(Restarter))
    case ChecksClosed => s.(restart := Sleeping, lock := None)
    case Popen(pid) =>
      s.(restart := Spawned(pid), live := s.live + {pid}, spawned := s.spawned + {pid})
    case PopenFails => s.(restart := Sleeping, lock := None)
    case Lists => s.(restart := Listed(s.restart.child), started := Living(s.started, s.live) + [s.restart.child])
    case RestartUnlocks => s.(restart := ReadsLine(s.restart.child), lock := None)
    case ReadsForwarding => s.(restart := Sleeping, process := s.restart.child)
    case ReadsFailure => s.(restart := Sleeping, signalled := s.signalled + {s.restart.child})
    case CloseCalled => s.(close := AsksLock)
    case CloseLocks => s.(close := Holds, lock := Some(Closer))
    case SetsClosed => s.(close := Signals(0), closed := true)
    case SignalsNext =>
      s.(close := Signals(s.close.next + 1), signalled := s.signalled + {s.started[s.close.next]})
    case CloseUnlocks => s.(close := Waits(0), lock := None, released := true)
    case CloseWaits =>
      s.(close := if s.close.next < |s.started| then Waits(s.close.next + 1) else NotClosing)
  }

  /** What the constructor leaves: its own first process is started and listed. */
  predicate Init(s: State) {
    && s.lock.None? && !s.closed && !s.released
    && s.started == [s.process] && s.spawned == {s.process} && s.live <= s.spawned
    && s.signalled == {} && s.restart.Sleeping? && s.close.NotClosing?
  }

  ghost predicate Reachable(s: State, n: nat)
    decreases n
  {
    if n == 0 then Init(s)
    else exists before, step :: Reachable(before, n - 1) && Enabled(before, step) && s == Apply(before, step)
  }

  // ------------------------------------------------------------ invariant

  predicate RestarterLocked(r: Restart) {
    r.HasLock? || r.Spawned? || r.Listed?
  }

  ghost predicate LockOk(s: State) {
    && (s.lock == Some(Restarter) <==> RestarterLocked(s.restart))
    && (s.lock == Some(Closer) <==> s.close.Holds? || s.close.Signals?)
  }

  /** Every live process is listed, but for the one being listed right now. */
  ghost predicate LiveListed(s: State) {
    forall p :: p in s.live ==> p in s.started || s.restart == Spawned(p)
  }

  ghost predicate ClosedOk(s: State) {
    && (s.close.Signals? || s.close.Waits? || s.released ==> s.closed)
    && (s.closed ==> !s.restart.Spawned? && !s.restart.Listed?)
    && (s.close.Signals? ==>
          s.close.next <= |s.started| && forall i :: 0 <= i < s.close.next ==> s.started[i] in s.signalled)
    && (s.released ==> forall p :: p in s.live ==> p in s.signalled)
  }

  ghost predicate Inv(s: State) {
    && LockOk(s) && LiveListed(s) && ClosedOk(s)
    && s.live <= s.spawned
    && (s.restart.Spawned? ==> s.restart.child in s.spawned)
    && (forall p :: p in s.started ==> p in s.spawned)
  }

  lemma {:induction false} LivingIs(pids: seq<Pid>, live: set<Pid>)
    ensures forall p :: p in Living(pids, live) <==> p in pids && p in live
  {
    if pids != [] {
      LivingIs(pids[1..], live);
      assert forall p :: p in pids <==> p == pids[0] || p in pids[1..];
    }
  }

  lemma StepKeepsInv(s: State, step: Step)
    requires Inv(s) && Enabled(s, step)
    ensures Inv(Apply(s, step))
  {
    var t := Apply(s, step);
    if step.Lists? {
      LivingIs(s.started, s.live);
      assert t.started[|t.started| - 1] == s.restart.child;
    } else if step.CloseUnlocks? {
      forall p | p in t.live ensures p in t.signalled {
        var i :| 0 <= i < |s.started| && s.started[i] == p;
      }
    }
  }

  lemma {:induction false} ReachableKeepsInv(s: State, n: nat)
    requires Reachable(s, n)
    ensures Inv(s)
    decreases n
  {
    hide Enabled, Apply;
    if n > 0 {
      var before, step :| Reachable(before, n - 1) && Enabled(before, step) && s == Apply(before, step);
      ReachableKeepsInv(before, n - 1);
      StepKeepsInv(before, step);
    }
  }

  // -------------------------------------------------------- main results

  /** Whenever the lock is free, `_started` holds every live kubectl of this forward. */
  lemma EveryLiveProcessIsListed(s: State, n: nat, p: Pid)
    requires Reachable(s, n) && s.lock.None? && p in s.live
    ensures p in s.started
  {
    ReachableKeepsInv(s, n);
  }

  ghost predicate IsRun(run: seq<State>, steps: seq<Step>) {
    && |run| == |steps| + 1
    && forall i :: 0 <= i < |steps| ==> Enabled(run[i], steps[i]) && run[i + 1] == Apply(run[i], steps[i])
  }

  lemma ReleasedStep(s: State, step: Step)
    requires Inv(s) && s.released && Enabled(s, step)
    ensures var t := Apply(s, step);
            t.released && t.spawned == s.spawned && t.started == s.started && t.live <= s.live
  {}

  lemma RunTail(run: seq<State>, steps: seq<Step>)
    requires IsRun(run, steps) && steps != []
    ensures Enabled(run[0], steps[0]) && run[1] == Apply(run[0], steps[0])
    ensures IsRun(run[1..], steps[1..])
  {
    hide Enabled, Apply;
    var rest, later := run[1..], steps[1..];
    assert Enabled(run[0], steps[0]) && run[0 + 1] == Apply(run[0], steps[0]);
    forall i | 0 <= i < |later| ensures Enabled(rest[i], later[i]) && rest[i + 1] == Apply(rest[i], later[i]) {
      assert Enabled(run[i + 1], steps[i + 1]) && run[i + 2] == Apply(run[i + 1], steps[i + 1]);
    }
  }

  /**
   Once a `close` has given the lock back, every live process has been signalled, none is
   ever started again and the list no longer changes, in every continuation.
   */
  lemma {:induction false} ClosedForGood(run: seq<State>, steps: seq<Step>, n: nat)
    requires IsRun(run, steps) && Reachable(run[0], n) && run[0].released
    ensures var last := run[|steps|];
            && last.released
            && last.spawned == run[0].spawned
            && last.started == run[0].started
            && last.live <= run[0].live
            && forall p :: p in last.live ==> p in last.signalled
    decreases |steps|
  {
    ReachableKeepsInv(run[0], n);
    hide Enabled, Apply;
    if steps != [] {
      RunTail(run, steps);
      ReleasedStep(run[0], steps[0]);
      assert Reachable(run[1], n + 1);
      hide Reachable, IsRun;
      ClosedForGood(run[1..], steps[1..], n + 1);
      assert run[1..][|steps[1..]|] == run[|steps|];
    }
  }

  /** From the moment the flag is set, under the lock, no step starts a process. */
  lemma NothingStartsOnceClosedIsSet(s: State, n: nat, step: Step)
    requires Reachable(s, n) && s.closed && Enabled(s, step)
    ensures Apply(s, step).spawned == s.spawned && Apply(s, step).closed
  {
    ReachableKeepsInv(s, n);
  }

  // ------------------------------------------------------- the restart

  /** The thread is about to replace the process it forwards through. */
  predicate Replacing(r: Restart) {
    !r.Sleeping? && !r.Awake? && !r.Finished?
  }

  ghost predicate ReplacesDead(s: State) {
    && s.process in s.spawned
    && (s.restart.Listed? || s.restart.ReadsLine? ==> s.restart.child in s.spawned)
    && (Replacing(s.restart) ==> s.process !in s.live)
  }

  lemma StepReplacesDead(s: State, step: Step)
    requires Inv(s) && ReplacesDead(s) && Enabled(s, step)
    ensures ReplacesDead(Apply(s, step))
  {}

  lemma {:induction false} ReachableReplacesDead(s: State, n: nat)
    requires Reachable(s, n)
    ensures ReplacesDead(s)
    decreases n
  {
    hide Enabled, Apply;
    if n > 0 {
      var before, step :| Reachable(before, n - 1) && Enabled(before, step) && s == Apply(before, step);
      ReachableKeepsInv(before, n - 1);
      ReachableReplacesDead(before, n - 1);
      StepReplacesDead(before, step);
    }
  }

  /** A kubectl is started only when the one before it has died, and a live one is left alone. */
  lemma OnlyTheDeadAreReplaced(s: State, n: nat, step: Step)
    requires Reachable(s, n) && Enabled(s, step)
    ensures Apply(s, step).spawned != s.spawned || Apply(s, step).process != s.process ==> s.process !in s.live
    ensures step.Polls? ==> (Replacing(Apply(s, step).restart) <==> s.process !in s.live && !s.closed)
  {
    ReachableReplacesDead(s, n);
  }

  /** A forward starts open, with its first process listed; that one may be dead already, or die at any time. */
  lemma StartsOpen(first: Pid)
    ensures forall live :: live <= {first} ==>
              Reachable(State(None, false, [first], first, live, {}, Sleeping, NotClosing, {first}, false), 0)
    ensures forall s: State, p :: p in s.live ==> Enabled(s, Dies(p)) && Apply(s, Dies(p)) == s.(live := s.live - {p})
  {}

  // ------------------------------------------------ what the threads can do

  /** Taken one after another, the steps lead from one state to the other. */
  ghost predicate Leads(s: State, steps: seq<Step>, t: State)
    decreases |steps|
  {
    if steps == [] then s == t else Enabled(s, steps[0]) && Leads(Apply(s, steps[0]), steps[1..], t)
  }

  lemma {:induction false} LeadsOn(s: State, a: seq<Step>, t: State, b: seq<Step>, u: State)
    requires Leads(s, a, t) && Leads(t, b, u)
    ensures Leads(s, a + b, u)
    decreases |a|
  {
    hide Enabled, Apply;
    if a == [] {
      assert a + b == b;
    } else {
      assert (a + b)[0] == a[0] && (a + b)[1..] == a[1..] + b;
      LeadsOn(Apply(s, a[0]), a[1..], t, b, u);
    }
  }

  lemma LeadsOnce(s: State, step: Step)
    requires Enabled(s, step)
    ensures Leads(s, [step], Apply(s, step))
  {
    hide Enabled, Apply;
    assert [step][1..] == [];
  }

  /** One step more. */
  lemma ThenStep(s: State, steps: seq<Step>, t: State, step: Step)
    requires Leads(s, steps, t) && Enabled(t, step)
    ensures Leads(s, steps + [step], Apply(t, step))
  {
    hide Enabled, Apply, Leads;
    LeadsOnce(t, step);
    LeadsOn(s, steps, t, [step], Apply(t, step));
  }

  lemma SpawnsAnew(s: State, pid: Pid) returns (t: State)
    requires !s.closed && s.lock.None? && s.restart.Sleeping? && s.process !in s.live && pid !in s.spawned
    ensures Leads(s, [Wakes, Polls, RestartLocks, Popen(pid)], t)
    ensures t == s.(restart := Spawned(pid), lock := Some(Restarter), live := s.live + {pid}, spawned := s.spawned + {pid})
  {
    var a, b := s.(restart := Awake), s.(restart := WantsLock);
    var c := s.(restart := HasLock, lock := Some(Restarter));
    t := c.(restart := Spawned(pid), live := s.live + {pid}, spawned := s.spawned + {pid});
    assert Enabled(s, Wakes) && Apply(s, Wakes) == a;
    assert Enabled(a, Polls) && Apply(a, Polls) == b;
    assert Enabled(b, RestartLocks) && Apply(b, RestartLocks) == c;
    assert Enabled(c, Popen(pid)) && Apply(c, Popen(pid)) == t;
    hide Enabled, Apply;
    LeadsOnce(s, Wakes);
    ThenStep(s, [Wakes], a, Polls);
    ThenStep(s, [Wakes] + [Polls], b, RestartLocks);
    ThenStep(s, [Wakes] + [Polls] + [RestartLocks], c, Popen(pid));
    assert [Wakes] + [Polls] + [RestartLocks] + [Popen(pid)] == [Wakes, Polls, RestartLocks, Popen(pid)];
  }

  lemma ListsSpawned(d: State, pid: Pid) returns (t: State)
    requires d.restart == Spawned(pid)
    ensures Leads(d, [Lists, RestartUnlocks, ReadsForwarding], t)
    ensures t == d.(started := Living(d.started, d.live) + [pid], lock := None, restart := Sleeping, process := pid)
  {
    var e := d.(restart := Listed(pid), started := Living(d.started, d.live) + [pid]);
    var f := e.(restart := ReadsLine(pid), lock := None);
    t := f.(restart := Sleeping, process := pid);
    assert Enabled(d, Lists) && Apply(d, Lists) == e;
    assert Enabled(e, RestartUnlocks) && Apply(e, RestartUnlocks) == f;
    assert Enabled(f, ReadsForwarding) && Apply(f, ReadsForwarding) == t;
    hide Enabled, Apply;
    LeadsOnce(d, Lists);
    ThenStep(d, [Lists], e, RestartUnlocks);
    ThenStep(d, [Lists] + [RestartUnlocks], f, ReadsForwarding);
    assert [Lists] + [RestartUnlocks] + [ReadsForwarding] == [Lists, RestartUnlocks, ReadsForwarding];
  }

  /** While nobody closes the forward, a kubectl that dies can be replaced by a listed, live one. */
  lemma DeadIsReplaced(s: State, n: nat, pid: Pid) returns (steps: seq<Step>, t: State)
    requires Reachable(s, n) && !s.closed && s.lock.None? && s.restart.Sleeping?
    requires s.process in s.live && pid !in s.spawned
    ensures Leads(s, [Dies(s.process)] + steps, t)
    ensures t.process == pid && pid in t.live && pid in t.started && s.process !in t.live
    ensures t.lock.None? && t.restart.Sleeping? && t.close == s.close && t.closed == s.closed
  {
    ReachableReplacesDead(s, n);
    var dead := s.(live := s.live - {s.process});
    assert Enabled(s, Dies(s.process)) && Apply(s, Dies(s.process)) == dead;
    hide Enabled, Apply, Reachable, Leads, Living;
    LeadsOnce(s, Dies(s.process));
    var spawned := SpawnsAnew(dead, pid);
    t := ListsSpawned(spawned, pid);
    assert t.started[|t.started| - 1] == pid;
    var first, second := [Wakes, Polls, RestartLocks, Popen(pid)], [Lists, RestartUnlocks, ReadsForwarding];
    LeadsOn(dead, first, spawned, second, t);
    LeadsOn(s, [Dies(s.process)], dead, first + second, t);
    steps := first + second;
  }

  /** The thread that closes has signalled the first i processes. */
  function Closing(s: State, i: nat): State
    requires i <= |s.started|
  {
    s.(lock := Some(Closer), closed := true, close := Signals(i), signalled := s.signalled + SetOf(s.started[..i]))
  }

  function SetOf(pids: seq<Pid>): set<Pid> {
    set p | p in pids
  }

  lemma {:induction false} SignalsAll(s: State, i: nat) returns (steps: seq<Step>)
    requires i <= |s.started|
    ensures Leads(Closing(s, i), steps, Closing(s, |s.started|))
    decreases |s.started| - i
  {
    if i == |s.started| {
      steps := [];
    } else {
      var now, next := Closing(s, i), Closing(s, i + 1);
      assert s.started[..i + 1] == s.started[..i] + [s.started[i]];
      assert Enabled(now, SignalsNext) && Apply(now, SignalsNext) == next;
      hide Enabled, Apply, Closing;
      LeadsOnce(now, SignalsNext);
      var rest := SignalsAll(s, i + 1);
      LeadsOn(now, [SignalsNext], next, rest, Closing(s, |s.started|));
      steps := [SignalsNext] + rest;
    }
  }

  lemma {:induction false} WaitsAll(s: State, i: nat) returns (steps: seq<Step>)
    requires i <= |s.started|
    ensures Leads(s.(close := Waits(i)), steps, s.(close := NotClosing))
    ensures |steps| == |s.started| - i + 1 && forall k :: 0 <= k < |steps| ==> steps[k] == CloseWaits
    decreases |s.started| - i
  {
    var now := s.(close := Waits(i));
    assert Enabled(now, CloseWaits);
    LeadsOnce(now, CloseWaits);
    if i == |s.started| {
      steps := [CloseWaits];
    } else {
      assert Apply(now, CloseWaits) == s.(close := Waits(i + 1));
      hide Enabled, Apply;
      var rest := WaitsAll(s, i + 1);
      LeadsOn(now, [CloseWaits], s.(close := Waits(i + 1)), rest, s.(close := NotClosing));
      steps := [CloseWaits] + rest;
    }
  }

  /** With the lock free a `close` can always run until it gives the lock back. */
  lemma CloseReleases(s: State) returns (steps: seq<Step>, t: State)
    requires s.close.NotClosing? && s.lock.None?
    ensures Leads(s, steps, t)
    ensures t == s.(close := Waits(0), closed := true, released := true, signalled := s.signalled + SetOf(s.started))
  {
    var asks := s.(close := AsksLock);
    var holds := asks.(close := Holds, lock := Some(Closer));
    var last := Closing(s, |s.started|);
    t := last.(close := Waits(0), lock := None, released := true);
    assert Enabled(s, CloseCalled) && Apply(s, CloseCalled) == asks;
    assert Enabled(asks, CloseLocks) && Apply(asks, CloseLocks) == holds;
    assert s.signalled + SetOf(s.started[..0]) == s.signalled && s.started[..|s.started|] == s.started;
    assert Enabled(holds, SetsClosed) && Apply(holds, SetsClosed) == Closing(s, 0);
    assert Enabled(last, CloseUnlocks) && Apply(last, CloseUnlocks) == t;
    hide Enabled, Apply, Closing;
    var begin := [CloseCalled] + [CloseLocks] + [SetsClosed];
    LeadsOnce(s, CloseCalled);
    ThenStep(s, [CloseCalled], asks, CloseLocks);
    ThenStep(s, [CloseCalled] + [CloseLocks], holds, SetsClosed);
    var signals := SignalsAll(s, 0);
    LeadsOn(s, begin, Closing(s, 0), signals, last);
    ThenStep(s, begin + signals, last, CloseUnlocks);
    steps := begin + signals + [CloseUnlocks];
  }

  /** With the lock free a `close` can run to its end: every listed process is signalled, then waited for in turn. */
  lemma CloseCanRun(s: State) returns (steps: seq<Step>, t: State)
    requires s.close.NotClosing? && s.lock.None?
    ensures Leads(s, steps, t)
    ensures t == s.(closed := true, released := true, signalled := s.signalled + SetOf(s.started))
    ensures |steps| > |s.started| && forall k :: |steps| - |s.started| - 1 <= k < |steps| ==> steps[k] == CloseWaits
  {
    var first, released := CloseReleases(s);
    hide Leads;
    var waits := WaitsAll(released, 0);
    t := released.(close := NotClosing);
    LeadsOn(s, first, released, waits, t);
    steps := first + waits;
  }

  /** When kubectl cannot be started, or prints anything else first, it is ended and a start can follow again. */
  lemma FailedStartIsRetried(s: State, n: nat, pid: Pid) returns (t: State)
    requires Reachable(s, n) && !s.closed && pid !in s.spawned
    requires s.restart.HasLock? || (s.restart.ReadsLine? && s.lock.None?)
    ensures var step := if s.restart.HasLock? then PopenFails else ReadsFailure;
            Leads(s, [step] + [Wakes, Polls, RestartLocks, Popen(pid)], t)
    ensures t.restart == Spawned(pid) && pid in t.live && t.process == s.process
    ensures s.restart.ReadsLine? ==> s.restart.child in t.signalled
  {
    ReachableReplacesDead(s, n);
    ReachableKeepsInv(s, n);
    hide Reachable;
    var step := if s.restart.HasLock? then PopenFails else ReadsFailure;
    LeadsOnce(s, step);
    var failed := Apply(s, step);
    t := SpawnsAnew(failed, pid);
    LeadsOn(s, [step], failed, [Wakes, Polls, RestartLocks, Popen(pid)], t);
  }

  /** Once closed and with the lock free, the thread that restarts can end, and starts nothing on the way. */
  lemma RestarterCanEnd(s: State, n: nat) returns (steps: seq<Step>, t: State)
    requires Reachable(s, n) && s.closed && s.lock.None?
    ensures Leads(s, steps, t) && t.restart.Finished? && t.lock.None? && t.spawned == s.spawned
  {
    ReachableKeepsInv(s, n);
    hide Reachable;
    match s.restart
    case Finished => steps, t := [], s;
    case Sleeping =>
      steps, t := [Wakes], Apply(s, Wakes);
      LeadsOnce(s, Wakes);
    case Awake =>
      LeadsOnce(s, Polls);
      ThenStep(s, [Polls], Apply(s, Polls), Wakes);
      steps, t := [Polls] + [Wakes], Apply(Apply(s, Polls), Wakes);
    case WantsLock =>
      var locked := Apply(s, RestartLocks);
      var back := Apply(locked, ChecksClosed);
      LeadsOnce(s, RestartLocks);
      ThenStep(s, [RestartLocks], locked, ChecksClosed);
      ThenStep(s, [RestartLocks] + [ChecksClosed], back, Wakes);
      steps, t := [RestartLocks] + [ChecksClosed] + [Wakes], Apply(back, Wakes);
    case ReadsLine(child) =>
      LeadsOnce(s, ReadsForwarding);
      ThenStep(s, [ReadsForwarding], Apply(s, ReadsForwarding), Wakes);
      steps, t := [ReadsForwarding] + [Wakes], Apply(Apply(s, ReadsForwarding), Wakes);
    case _ =>
  }
}
