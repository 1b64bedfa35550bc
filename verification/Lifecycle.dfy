/** The life of one container as a protocol (src/container.rs, src/namespace.rs): the monitor, the
    child of each run, and any number of `stop` commands, interleaved in atomic steps. Monitor and
    child meet at a pipe; the monitor and the `stop` commands share `state.json`. */
module Lifecycle {
  import opened Wrappers
  import opened Restart

  // ---------- Clone flags ----------

  const CLONE_VM: bv32 := 0x0000_0100
  const CLONE_FILES: bv32 := 0x0000_0400
  const CLONE_NEWNS: bv32 := 0x0002_0000
  const CLONE_NEWUTS: bv32 := 0x0400_0000
  const CLONE_NEWIPC: bv32 := 0x0800_0000
  const CLONE_NEWUSER: bv32 := 0x1000_0000
  const CLONE_NEWPID: bv32 := 0x2000_0000
  const CLONE_NEWNET: bv32 := 0x4000_0000
  const SIGCHLD: bv32 := 17

  datatype NetworkMode = Bridge | NoNetwork | Host | Named(name: string)

  function CloneFlags(mode: NetworkMode, rootless: bool): (flags: bv32)
    ensures flags & CLONE_FILES == 0 && flags & CLONE_VM == 0
    ensures flags == 0x2c02_0011 | (if mode != Host then 0x4000_0000 else 0) | (if rootless then 0x1000_0000 else 0)
  {
    var base := CLONE_NEWPID | CLONE_NEWNS | CLONE_NEWUTS | CLONE_NEWIPC | SIGCHLD;
    var withNet := if mode != Host then base | CLONE_NEWNET else base;
    if rootless then withNet | CLONE_NEWUSER else withNet
  }

  // ---------- State ----------

  datatype Config = Config(mode: NetworkMode, rootless: bool, policy: RestartPolicy, autoRemove: bool)
  {
    predicate NeedsNetwork() {
      (mode.Bridge? || mode.Named?) && !rootless
    }
  }

  /** Where the monitor is: each point is named after what it has just finished. */
  datatype Pc =
    | Starting | Prepared | Cloned | Joined | Mapped | Networked | Signalled | Waiting
    | Reaped(code: nat) | Ended(code: nat) | Cleaning | Done | Failed

  /** A child and its run's pipe. `ownTable`: the child's descriptor table is a copy, so its write
      end stays open when the parent closes the parent's. */
  datatype Child = Child(
    pid: int, ownTable: bool, parentHolds: bool, bytes: nat,
    cgroup: bool, maps: bool, net: bool,
    passed: bool, exited: Option<int>)

  /** A `stop` command: `Loaded` holds the state it read. */
  datatype StopPc = Idle | Loaded(copy: ContainerState) | Finished | StopFailed

  datatype State = State(
    file: Option<ContainerState>,
    mem: ContainerState,
    pc: Pc,
    restartCount: nat,
    children: seq<Child>,
    stops: seq<StopPc>)

  predicate Init(s: State) {
    && s.file == None && s.mem == CREATED_STATE && s.pc == Starting
    && s.restartCount == 0 && s.children == []
    && forall j :: 0 <= j < |s.stops| ==> s.stops[j] == Idle
  }

  // ---------- Steps ----------

  datatype Action =
    // The monitor. `Fail` is an error return or the end of the process at a fallible step.
    | SaveCreated | Clone(pid: int) | JoinCgroup | WriteMaps | SetUpNetwork | Signal(written: bool)
    | SaveRunning | Reap | ReapError | Decide | SaveStopped | CleanUp | Fail
    // The child of run `i`: the three outcomes of its barrier read, and its end, by itself or killed.
    | ReadByte(i: nat) | ReadEof(i: nat) | ReadError(i: nat) | Exit(i: nat, status: int)
    // The `j`-th stop command.
    | StopLoad(j: nat) | StopSave(j: nat)

  predicate Fallible(pc: Pc) {
    pc.Starting? || pc.Prepared? || pc.Cloned? || pc.Joined? || pc.Mapped? || pc.Signalled? || pc.Ended?
  }

  function Last(s: State): Child
    requires s.children != []
  {
    s.children[|s.children| - 1]
  }

  function WithLast(s: State, c: Child, pc: Pc): State
    requires s.children != []
  {
    s.(children := s.children[|s.children| - 1 := c], pc := pc)
  }

  function Save(s: State, mem: ContainerState, pc: Pc): State {
    s.(file := Some(mem), mem := mem, pc := pc)
  }

  function DoMonitor(cfg: Config, s: State, a: Action): Option<State> {
    match a
    case SaveCreated => if s.pc.Starting? then Some(Save(s, s.mem, Prepared)) else None
    case Clone(pid) =>
      if s.pc.Prepared? then
        var own := CloneFlags(cfg.mode, cfg.rootless) & CLONE_FILES == 0;
        var c := Child(pid, own, true, 0, false, false, false, false, None);
        Some(s.(children := s.children + [c], pc := Cloned))
      else None
    case JoinCgroup =>
      if s.pc.Cloned? && s.children != [] then Some(WithLast(s, Last(s).(cgroup := !cfg.rootless), Joined)) else None
    case WriteMaps =>
      if s.pc.Joined? && s.children != [] then Some(WithLast(s, Last(s).(maps := cfg.rootless), Mapped)) else None
    case SetUpNetwork =>
      if s.pc.Mapped? && s.children != [] then Some(WithLast(s, Last(s).(net := cfg.NeedsNetwork()), Networked))
      else None
    case Signal(written) =>
      if s.pc.Networked? && s.children != [] then
        Some(WithLast(s, Last(s).(bytes := if written then 1 else 0, parentHolds := false), Signalled))
      else None
    case SaveRunning =>
      if s.pc.Signalled? && s.children != [] then
        Some(Save(s, s.mem.(status := Running, pid := Some(Last(s).pid)), Waiting))
      else None
    case Reap =>
      if s.pc.Waiting? && s.children != [] && Last(s).exited.Some?
      then Some(s.(pc := Reaped(ExitCode(Last(s).exited.value)))) else None
    case ReapError => if s.pc.Waiting? then Some(s.(pc := Reaped(0))) else None
    case Decide =>
      if !s.pc.Reaped? then None
      else if ShouldRestart(cfg.policy, s.pc.code, s.restartCount) then
        Some(s.(pc := Prepared, restartCount := (s.restartCount + 1) % 0x1_0000_0000))
      else Some(s.(pc := Ended(s.pc.code)))
    case SaveStopped =>
      if s.pc.Ended? then Some(Save(s, s.mem.(status := Stopped, exitCode := Some(s.pc.code)), Cleaning)) else None
    case CleanUp =>
      if s.pc.Cleaning? then Some(s.(file := if cfg.autoRemove then None else s.file, pc := Done)) else None
    case Fail =>
      if !Fallible(s.pc) then None
      else if s.children == [] then Some(s.(pc := Failed))
      else Some(WithLast(s, Last(s).(parentHolds := false), Failed))
    case _ => None
  }

  function DoChild(s: State, a: Action): Option<State> {
    match a
    case ReadByte(i) =>
      if i < |s.children| && Blocked(s.children[i]) && s.children[i].bytes > 0
      then Some(SetChild(s, i, s.children[i].(passed := true, bytes := s.children[i].bytes - 1))) else None
    case ReadEof(i) =>
      // `read` returns 0 and the child goes on, but only when no write end is left anywhere.
      if i < |s.children| && Blocked(s.children[i]) && s.children[i].bytes == 0
         && !s.children[i].parentHolds && !s.children[i].ownTable
      then Some(SetChild(s, i, s.children[i].(passed := true))) else None
    case ReadError(i) =>
      if i < |s.children| && Blocked(s.children[i])
      then Some(SetChild(s, i, s.children[i].(exited := Some(0x100)))) else None
    case Exit(i, status) =>
      if i < |s.children| && s.children[i].exited.None?
      then Some(SetChild(s, i, s.children[i].(exited := Some(status)))) else None
    case _ => None
  }

  predicate Blocked(c: Child) {
    !c.passed && c.exited.None?
  }

  function SetChild(s: State, i: nat, c: Child): State
    requires i < |s.children|
  {
    s.(children := s.children[i := c])
  }

  function SetStop(s: State, j: nat, p: StopPc): State
    requires j < |s.stops|
  {
    s.(stops := s.stops[j := p])
  }

  /** `stop` reads the state once, needs a pid in it, and in the end writes back its copy as stopped.
      Its signals only make the child exit, which it may do at any time anyway. */
  function DoStop(s: State, a: Action): Option<State> {
    match a
    case StopLoad(j) =>
      if j < |s.stops| && s.stops[j].Idle? then
        if s.file.Some? && s.file.value.pid.Some? then Some(SetStop(s, j, Loaded(s.file.value)))
        else Some(SetStop(s, j, StopFailed))
      else None
    case StopSave(j) =>
      if j < |s.stops| && s.stops[j].Loaded? then
        if s.file.Some? then
          Some(SetStop(s, j, Finished).(file := Some(s.stops[j].copy.(status := Stopped))))
        else Some(SetStop(s, j, StopFailed))
      else None
    case _ => None
  }

  function Do(cfg: Config, s: State, a: Action): Option<State> {
    if a.ReadByte? || a.ReadEof? || a.ReadError? || a.Exit? then DoChild(s, a)
    else if a.StopLoad? || a.StopSave? then DoStop(s, a)
    else DoMonitor(cfg, s, a)
  }

  /** The state after a sequence of actions, if each was possible. */
  function Run(cfg: Config, s: State, actions: seq<Action>): Option<State>
    decreases |actions|
  {
    if actions == [] then Some(s)
    else
      match Do(cfg, s, actions[0])
      case None => None
      case Some(next) => Run(cfg, next, actions[1..])
  }

  // ---------- The start barrier ----------

  /** Everything the parent owes this child before releasing it is done, and nothing else: a cgroup, unless
      rootless; id maps, if rootless; a network, if it is to have one of its own and is not rootless. */
  predicate SetUp(cfg: Config, c: Child) {
    && (c.cgroup <==> !cfg.rootless)
    && (c.maps <==> cfg.rootless)
    && (c.net <==> !cfg.rootless && (cfg.mode == Bridge || cfg.mode.Named?))
  }

  predicate ChildOk(cfg: Config, c: Child) {
    c.ownTable && (c.bytes > 0 || c.passed ==> SetUp(cfg, c))
  }

  /** How far the parent has got with the current child. */
  predicate Progress(cfg: Config, s: State) {
    (s.pc.Cloned? || s.pc.Joined? || s.pc.Mapped? || s.pc.Networked? || s.pc.Signalled? || s.pc.Waiting?) ==>
      && s.children != []
      && (!s.pc.Cloned? ==> Last(s).cgroup == !cfg.rootless)
      && (!s.pc.Cloned? && !s.pc.Joined? ==> Last(s).maps == cfg.rootless)
      && (!s.pc.Cloned? && !s.pc.Joined? && !s.pc.Mapped? ==> Last(s).net == cfg.NeedsNetwork())
  }

  ghost predicate BarrierInv(cfg: Config, s: State) {
    Progress(cfg, s) && forall i :: 0 <= i < |s.children| ==> ChildOk(cfg, s.children[i])
  }

  lemma BarrierMonitorStep(cfg: Config, s: State, a: Action)
    requires BarrierInv(cfg, s) && DoMonitor(cfg, s, a).Some?
    ensures BarrierInv(cfg, DoMonitor(cfg, s, a).value)
  {
  }

  lemma BarrierChildStep(cfg: Config, s: State, a: Action)
    requires BarrierInv(cfg, s) && DoChild(s, a).Some?
    ensures BarrierInv(cfg, DoChild(s, a).value)
  {
  }

  lemma BarrierStep(cfg: Config, s: State, a: Action)
    requires BarrierInv(cfg, s) && Do(cfg, s, a).Some?
    ensures BarrierInv(cfg, Do(cfg, s, a).value)
  {
    if a.ReadByte? || a.ReadEof? || a.ReadError? || a.Exit? {
      BarrierChildStep(cfg, s, a);
    } else if a.StopLoad? || a.StopSave? {
      assert DoStop(s, a).value.children == s.children;
    } else {
      BarrierMonitorStep(cfg, s, a);
    }
  }

  lemma {:induction false} BarrierHolds(cfg: Config, s: State, actions: seq<Action>)
    requires BarrierInv(cfg, s) && Run(cfg, s, actions).Some?
    ensures BarrierInv(cfg, Run(cfg, s, actions).value)
    decreases |actions|
  {
    if actions != [] {
      BarrierStep(cfg, s, actions[0]);
      BarrierHolds(cfg, Do(cfg, s, actions[0]).value, actions[1..]);
    }
  }

  /** In every interleaving, whatever fails in the parent and when, a child that got past its barrier
      read has its cgroup, id maps and network of the same run in place. */
  lemma ChildStartsSetUp(cfg: Config, init: State, actions: seq<Action>, i: nat)
    requires Init(init) && Run(cfg, init, actions).Some?
    requires i < |Run(cfg, init, actions).value.children|
    ensures var c := Run(cfg, init, actions).value.children[i];
      c.passed ==>
        && (c.cgroup <==> !cfg.rootless)
        && (c.maps <==> cfg.rootless)
        && (c.net <==> !cfg.rootless && (cfg.mode == Bridge || cfg.mode.Named?))
  {
    BarrierHolds(cfg, init, actions);
  }

  // ---------- Who gets past the barrier ----------

  /** How many children the actions make. */
  function Clones(actions: seq<Action>): nat {
    if actions == [] then 0
    else Clones(actions[..|actions| - 1]) + if actions[|actions| - 1].Clone? then 1 else 0
  }

  /** The parent of child `i` signalled it, and the write of the byte worked. */
  predicate Released(actions: seq<Action>, i: nat) {
    actions != [] &&
    var front := actions[..|actions| - 1];
    Released(front, i) || (actions[|actions| - 1] == Signal(true) && Clones(front) == i + 1)
  }

  /** The parent has made its newest child and not come to its signal. */
  predicate Pending(pc: Pc) {
    pc.Cloned? || pc.Joined? || pc.Mapped? || pc.Networked?
  }

  ghost predicate ReleaseInv(actions: seq<Action>, s: State) {
    && |s.children| == Clones(actions)
    && (Pending(s.pc) ==> s.children != [] && !Last(s).passed && Last(s).bytes == 0)
    && forall i :: 0 <= i < |s.children| ==>
         && s.children[i].ownTable
         && s.children[i].bytes <= 1 && (s.children[i].passed ==> s.children[i].bytes == 0)
         && (s.children[i].passed || s.children[i].bytes > 0 <==> Released(actions, i))
  }

  /** A run up to its last action. */
  lemma {:induction false} RunPrefix(cfg: Config, s: State, a: seq<Action>, b: seq<Action>)
    requires Run(cfg, s, a + b).Some?
    ensures Run(cfg, s, a).Some?
    decreases |a|
  {
    if a != [] {
      assert (a + b)[1..] == a[1..] + b;
      RunPrefix(cfg, Do(cfg, s, a[0]).value, a[1..], b);
    }
  }

  lemma RunLast(cfg: Config, s: State, actions: seq<Action>)
    requires actions != [] && Run(cfg, s, actions).Some?
    ensures var front := actions[..|actions| - 1];
      Run(cfg, s, front).Some? && Do(cfg, Run(cfg, s, front).value, actions[|actions| - 1]) == Run(cfg, s, actions)
  {
    var front, last := actions[..|actions| - 1], actions[|actions| - 1];
    assert actions == front + [last];
    RunPrefix(cfg, s, front, [last]);
    RunAppends(cfg, s, front, [last]);
    var mid := Run(cfg, s, front).value;
    if Do(cfg, mid, last).Some? {
      RunFirst(cfg, mid, last, []);
      assert [last] + [] == [last];
    }
  }

  lemma ReleaseClone(cfg: Config, front: seq<Action>, s: State, a: Action)
    requires ReleaseInv(front, s) && a.Clone? && DoMonitor(cfg, s, a).Some?
    ensures ReleaseInv(front + [a], DoMonitor(cfg, s, a).value)
  {
    OneMoreAction(front, a);
    ClonedOwnTable(cfg);
    ClonesBound(front);
  }

  lemma ReleaseSignal(cfg: Config, front: seq<Action>, s: State, a: Action)
    requires ReleaseInv(front, s) && a.Signal? && DoMonitor(cfg, s, a).Some?
    ensures ReleaseInv(front + [a], DoMonitor(cfg, s, a).value)
  {
    OneMoreAction(front, a);
  }

  lemma ReleaseMonitorStep(cfg: Config, front: seq<Action>, s: State, a: Action)
    requires ReleaseInv(front, s) && !a.Clone? && !a.Signal? && DoMonitor(cfg, s, a).Some?
    ensures ReleaseInv(front + [a], DoMonitor(cfg, s, a).value)
  {
    OneMoreAction(front, a);
  }

  lemma ReleaseChildStep(front: seq<Action>, s: State, a: Action)
    requires ReleaseInv(front, s) && DoChild(s, a).Some?
    ensures ReleaseInv(front + [a], DoChild(s, a).value)
  {
    OneMoreAction(front, a);
  }

  lemma OneMoreAction(front: seq<Action>, a: Action)
    ensures Clones(front + [a]) == Clones(front) + if a.Clone? then 1 else 0
    ensures forall i: nat :: Released(front + [a], i)
                             <==> Released(front, i) || (a == Signal(true) && Clones(front) == i + 1)
  {
    assert (front + [a])[..|front|] == front;
  }

  lemma ReleaseStep(cfg: Config, front: seq<Action>, s: State, a: Action)
    requires ReleaseInv(front, s) && Do(cfg, s, a).Some?
    ensures ReleaseInv(front + [a], Do(cfg, s, a).value)
  {
    if a.ReadByte? || a.ReadEof? || a.ReadError? || a.Exit? {
      ReleaseChildStep(front, s, a);
    } else if a.StopLoad? || a.StopSave? {
      OneMoreAction(front, a);
      assert DoStop(s, a).value.children == s.children && DoStop(s, a).value.pc == s.pc;
    } else if a.Clone? {
      ReleaseClone(cfg, front, s, a);
    } else if a.Signal? {
      ReleaseSignal(cfg, front, s, a);
    } else {
      ReleaseMonitorStep(cfg, front, s, a);
    }
  }

  lemma ClonedOwnTable(cfg: Config)
    ensures CloneFlags(cfg.mode, cfg.rootless) & CLONE_FILES == 0
  {
  }

  /** No child is released before it is made. */
  lemma {:induction false} ClonesBound(actions: seq<Action>)
    ensures !Released(actions, Clones(actions))
    ensures forall i: nat :: Released(actions, i) ==> i < Clones(actions)
    decreases |actions|
  {
    if actions != [] {
      ClonesBound(actions[..|actions| - 1]);
    }
  }

  lemma {:induction false} ReleaseHolds(cfg: Config, init: State, actions: seq<Action>)
    requires Init(init) && Run(cfg, init, actions).Some?
    ensures ReleaseInv(actions, Run(cfg, init, actions).value)
    decreases |actions|
  {
    if actions != [] {
      RunLast(cfg, init, actions);
      ReleaseHolds(cfg, init, actions[..|actions| - 1]);
      var front, last := actions[..|actions| - 1], actions[|actions| - 1];
      ReleaseStep(cfg, front, Run(cfg, init, front).value, last);
      assert actions == front + [last];
    }
  }

  /** Child `i` is past its barrier read after some continuation. */
  ghost predicate CanPass(cfg: Config, s: State, i: nat) {
    exists more :: Passes(cfg, s, i, more)
  }

  predicate Passes(cfg: Config, s: State, i: nat, more: seq<Action>) {
    var end := Run(cfg, s, more);
    end.Some? && i < |end.value.children| && end.value.children[i].passed
  }

  /** A child that will never get a byte and holds a write end itself. */
  ghost predicate Stuck(s: State, i: nat) {
    && i < |s.children| && !s.children[i].passed && s.children[i].bytes == 0 && s.children[i].ownTable
    && !(Pending(s.pc) && i == |s.children| - 1)
  }

  lemma StuckStep(cfg: Config, s: State, i: nat, a: Action)
    requires Stuck(s, i) && Do(cfg, s, a).Some?
    ensures Stuck(Do(cfg, s, a).value, i)
  {
  }

  lemma {:induction false} StuckHolds(cfg: Config, s: State, i: nat, more: seq<Action>)
    requires Stuck(s, i) && Run(cfg, s, more).Some?
    ensures Stuck(Run(cfg, s, more).value, i)
    decreases |more|
  {
    if more != [] {
      StuckStep(cfg, s, i, more[0]);
      StuckHolds(cfg, Do(cfg, s, more[0]).value, i, more[1..]);
    }
  }

  lemma StepThenPass(cfg: Config, s: State, i: nat, a: Action)
    requires Do(cfg, s, a).Some? && CanPass(cfg, Do(cfg, s, a).value, i)
    ensures CanPass(cfg, s, i)
  {
    var more :| Passes(cfg, Do(cfg, s, a).value, i, more);
    RunFirst(cfg, s, a, more);
    assert Passes(cfg, s, i, [a] + more);
  }

  /** A child with a byte in its pipe passes with its read. */
  lemma ByteLetsPass(cfg: Config, s: State, i: nat)
    requires i < |s.children| && Blocked(s.children[i]) && s.children[i].bytes > 0
    ensures Passes(cfg, s, i, [ReadByte(i)]) && CanPass(cfg, s, i)
  {
    RunFirst(cfg, s, ReadByte(i), []);
    assert [ReadByte(i)] + [] == [ReadByte(i)];
    assert Passes(cfg, s, i, [ReadByte(i)]);
  }

  /** A parent that has not come to its signal can still do the rest. */
  lemma PendingCanPass(cfg: Config, s: State)
    requires Pending(s.pc) && s.children != [] && Blocked(Last(s))
    ensures CanPass(cfg, s, |s.children| - 1)
    decreases if s.pc.Cloned? then 3 else if s.pc.Joined? then 2 else if s.pc.Mapped? then 1 else 0
  {
    var i := |s.children| - 1;
    if s.pc.Networked? {
      ByteLetsPass(cfg, Do(cfg, s, Signal(true)).value, i);
      StepThenPass(cfg, s, i, Signal(true));
    } else {
      var a := if s.pc.Cloned? then JoinCgroup else if s.pc.Joined? then WriteMaps else SetUpNetwork;
      PendingCanPass(cfg, Do(cfg, s, a).value);
      StepThenPass(cfg, s, i, a);
    }
  }

  /** In every interleaving: a child that has not exited can come to start if and only if its parent wrote
      its byte, or has made it and not yet come to the signal. */
  lemma ChildStartsExactly(cfg: Config, init: State, actions: seq<Action>, i: nat)
    requires Init(init) && Run(cfg, init, actions).Some?
    requires i < |Run(cfg, init, actions).value.children|
    requires Run(cfg, init, actions).value.children[i].exited.None?
    ensures var s := Run(cfg, init, actions).value;
      CanPass(cfg, s, i) <==> Released(actions, i) || (Pending(s.pc) && i == |s.children| - 1)
  {
    ReleaseHolds(cfg, init, actions);
    var s := Run(cfg, init, actions).value;
    if Released(actions, i) {
      if s.children[i].passed {
        assert Passes(cfg, s, i, []);
      } else {
        ByteLetsPass(cfg, s, i);
      }
    } else if Pending(s.pc) && i == |s.children| - 1 {
      PendingCanPass(cfg, s);
    } else {
      forall more | Run(cfg, s, more).Some?
        ensures !Passes(cfg, s, i, more)
      {
        StuckHolds(cfg, s, i, more);
      }
    }
  }

  /** A released child that still waits gets past its read by that read alone; and none gets past it that
      was not released, or leaves its byte in the pipe. */
  lemma ReleasedChildPasses(cfg: Config, init: State, actions: seq<Action>, i: nat)
    requires Init(init) && Run(cfg, init, actions).Some?
    requires i < |Run(cfg, init, actions).value.children|
    ensures var c := Run(cfg, init, actions).value.children[i];
      && (Released(actions, i) && !c.passed && c.exited.None? ==>
            Passes(cfg, Run(cfg, init, actions).value, i, [ReadByte(i)]))
      && (c.passed ==> Released(actions, i) && c.bytes == 0)
  {
    ReleaseHolds(cfg, init, actions);
    var s := Run(cfg, init, actions).value;
    if Released(actions, i) && Blocked(s.children[i]) {
      ByteLetsPass(cfg, s, i);
    }
  }

  // ---------- A child that never starts ----------

  ghost predicate Abandoned(s: State) {
    s.pc.Failed? && s.children != [] && !Last(s).passed && Last(s).bytes == 0 && Last(s).ownTable
  }

  lemma AbandonedStep(cfg: Config, s: State, a: Action)
    requires Abandoned(s) && Do(cfg, s, a).Some?
    ensures Abandoned(Do(cfg, s, a).value) && |Do(cfg, s, a).value.children| == |s.children|
  {
  }

  lemma {:induction false} AbandonedHolds(cfg: Config, s: State, actions: seq<Action>)
    requires Abandoned(s) && Run(cfg, s, actions).Some?
    ensures var end := Run(cfg, s, actions).value;
      Abandoned(end) && |end.children| == |s.children|
    decreases |actions|
  {
    if actions != [] {
      AbandonedStep(cfg, s, actions[0]);
      AbandonedHolds(cfg, Do(cfg, s, actions[0]).value, actions[1..]);
    }
  }

  /** A child whose parent gave up before the signal never starts: it holds a write end of the pipe
      itself, so its read neither returns a byte nor sees the end of the pipe. */
  lemma AbandonedChildNeverStarts(cfg: Config, init: State, before: seq<Action>, after: seq<Action>)
    requires Init(init) && Run(cfg, init, before).Some?
    requires var s := Run(cfg, init, before).value;
      s.pc.Failed? && s.children != [] && Last(s).bytes == 0 && !Last(s).passed
    requires Run(cfg, Run(cfg, init, before).value, after).Some?
    ensures var s := Run(cfg, init, before).value;
      var end := Run(cfg, s, after).value;
      |end.children| == |s.children| && !Last(end).passed
  {
    BarrierHolds(cfg, init, before);
    AbandonedHolds(cfg, Run(cfg, init, before).value, after);
  }

  /** An error of the parent between making a child and signalling it abandons the child: it fails at any
      of these steps, and nothing that comes later lets the child start. */
  lemma EarlyErrorAbandons(cfg: Config, init: State, actions: seq<Action>)
    requires Init(init) && Run(cfg, init, actions).Some?
    requires var s := Run(cfg, init, actions).value;
      s.children != [] && Blocked(Last(s)) && (s.pc.Cloned? || s.pc.Joined? || s.pc.Mapped?)
    ensures var s := Run(cfg, init, actions).value;
      && Do(cfg, s, Fail).Some? && Do(cfg, s, Fail).value.pc == Failed
      && !CanPass(cfg, Do(cfg, s, Fail).value, |s.children| - 1)
  {
    ReleaseHolds(cfg, init, actions);
    var s := Run(cfg, init, actions).value;
    var failed := Do(cfg, s, Fail).value;
    forall more | Run(cfg, failed, more).Some?
      ensures !Passes(cfg, failed, |s.children| - 1, more)
    {
      StuckHolds(cfg, failed, |s.children| - 1, more);
    }
  }

  /** It is the child's own copy of the write end that holds it back: if its table were the parent's, it
      would start with nothing set up, as soon as the parent has failed or signalled in vain; but not while
      the parent still holds its end. */
  lemma CopyHoldsBarrier(cfg: Config, s: State)
    requires s.children != [] && Blocked(Last(s)) && Last(s).bytes == 0 && !Last(s).ownTable && Last(s).parentHolds
    ensures var i := |s.children| - 1;
      && Do(cfg, s, ReadEof(i)).None?
      && (s.pc.Cloned? || s.pc.Joined? || s.pc.Mapped? ==> Passes(cfg, s, i, [Fail, ReadEof(i)]))
      && (s.pc.Networked? ==> Passes(cfg, s, i, [Signal(false), ReadEof(i)]))
  {
    var i := |s.children| - 1;
    if s.pc.Cloned? || s.pc.Joined? || s.pc.Mapped? {
      RunTwo(cfg, s, Fail, ReadEof(i));
    }
    if s.pc.Networked? {
      RunTwo(cfg, s, Signal(false), ReadEof(i));
    }
  }

  lemma RunTwo(cfg: Config, s: State, a: Action, b: Action)
    requires Do(cfg, s, a).Some? && Do(cfg, Do(cfg, s, a).value, b).Some?
    ensures Run(cfg, s, [a, b]) == Do(cfg, Do(cfg, s, a).value, b)
  {
    RunFirst(cfg, Do(cfg, s, a).value, b, []);
    RunFirst(cfg, s, a, [b]);
    assert [a, b] == [a] + [b] && [b] == [b] + [];
  }

  /** An error right after the signal leaves a container that runs on without a monitor, while its file still
      says created and names no pid, so that a `stop` cannot stop it. */
  lemma ErrorAfterSignal(cfg: Config, init: State) returns (actions: seq<Action>, end: State)
    requires init == State(None, CREATED_STATE, Starting, 0, [], [Idle])
    ensures Run(cfg, init, actions) == Some(end)
    ensures end.pc == Failed && end.file == Some(CREATED_STATE) && end.stops == [StopFailed]
    ensures |end.children| == 1 && end.children[0].passed && end.children[0].exited == None
  {
    var signalled := SignalledOnce(cfg, init);
    var before := [SaveCreated, Clone(1), JoinCgroup] + [WriteMaps, SetUpNetwork, Signal(true)];
    var after := [Fail, ReadByte(0), StopLoad(0)];
    RunThree(cfg, signalled, Fail, ReadByte(0), StopLoad(0));
    end := Run(cfg, signalled, after).value;
    actions := before + after;
    RunBoth(cfg, init, before, signalled, after, end);
  }

  lemma JoinedOnce(cfg: Config, init: State) returns (s: State)
    requires init == State(None, CREATED_STATE, Starting, 0, [], [Idle])
    ensures Run(cfg, init, [SaveCreated, Clone(1), JoinCgroup]) == Some(s)
    ensures s.pc == Joined && s.file == Some(CREATED_STATE) && s.stops == [Idle]
    ensures |s.children| == 1 && Blocked(s.children[0])
  {
    RunThree(cfg, init, SaveCreated, Clone(1), JoinCgroup);
    s := Run(cfg, init, [SaveCreated, Clone(1), JoinCgroup]).value;
  }

  lemma SignalledOnce(cfg: Config, init: State) returns (s: State)
    requires init == State(None, CREATED_STATE, Starting, 0, [], [Idle])
    ensures Run(cfg, init, [SaveCreated, Clone(1), JoinCgroup] + [WriteMaps, SetUpNetwork, Signal(true)]) == Some(s)
    ensures s.pc == Signalled && s.file == Some(CREATED_STATE) && s.stops == [Idle]
    ensures |s.children| == 1 && Blocked(s.children[0]) && s.children[0].bytes == 1
  {
    var joined := JoinedOnce(cfg, init);
    RunThree(cfg, joined, WriteMaps, SetUpNetwork, Signal(true));
    s := Run(cfg, joined, [WriteMaps, SetUpNetwork, Signal(true)]).value;
    RunBoth(cfg, init, [SaveCreated, Clone(1), JoinCgroup], joined, [WriteMaps, SetUpNetwork, Signal(true)], s);
  }

  // ---------- Stopped is final under policy "no" ----------

  predicate HasStatus(file: Option<ContainerState>, status: Status) {
    file.Some? && file.value.status == status
  }

  /** The monitor has not yet published a pid. */
  predicate Early(pc: Pc) {
    pc.Starting? || pc.Prepared? || pc.Cloned? || pc.Joined? || pc.Mapped? || pc.Networked? || pc.Signalled?
  }

  /** Until the single running save the file says created and no stop command gets past its load;
      after that save the monitor never returns to the loop. */
  ghost predicate SingleRunInv(s: State) {
    && (Early(s.pc) ==> s.mem == CREATED_STATE)
    && (Early(s.pc) ==> s.file == if s.pc.Starting? then None else Some(CREATED_STATE))
    && (Early(s.pc) ==> forall j :: 0 <= j < |s.stops| ==> !s.stops[j].Loaded?)
    && (s.file == None ==> s.pc.Starting? || s.pc.Done? || s.pc.Failed?)
  }

  /** `stopped` is saved, or was saved and then removed with the container. */
  predicate StoppedOrRemoved(s: State) {
    HasStatus(s.file, Stopped) || (s.file == None && s.pc.Done?)
  }

  lemma SingleRunStep(cfg: Config, s: State, a: Action)
    requires cfg.policy.No? && SingleRunInv(s) && Do(cfg, s, a).Some?
    ensures SingleRunInv(Do(cfg, s, a).value)
    ensures StoppedOrRemoved(s) ==> StoppedOrRemoved(Do(cfg, s, a).value)
  {
  }

  lemma {:induction false} SingleRunHolds(cfg: Config, s: State, actions: seq<Action>)
    requires cfg.policy.No? && SingleRunInv(s) && Run(cfg, s, actions).Some?
    ensures SingleRunInv(Run(cfg, s, actions).value)
    ensures StoppedOrRemoved(s) ==> StoppedOrRemoved(Run(cfg, s, actions).value)
    decreases |actions|
  {
    if actions != [] {
      SingleRunStep(cfg, s, actions[0]);
      SingleRunHolds(cfg, Do(cfg, s, actions[0]).value, actions[1..]);
    }
  }

  /** Once a run has saved `stopped`, no continuation of it ever has the file say anything else. */
  ghost predicate StoppedIsFinal(cfg: Config) {
    forall init, before, after ::
      Init(init) && Run(cfg, init, before).Some? && HasStatus(Run(cfg, init, before).value.file, Stopped)
      && Run(cfg, Run(cfg, init, before).value, after).Some? ==>
        StoppedOrRemoved(Run(cfg, Run(cfg, init, before).value, after).value)
  }

  lemma NoRestartStoppedIsFinal(cfg: Config)
    requires cfg.policy.No?
    ensures StoppedIsFinal(cfg)
  {
    forall init, before, after |
      Init(init) && Run(cfg, init, before).Some? && HasStatus(Run(cfg, init, before).value.file, Stopped)
      && Run(cfg, Run(cfg, init, before).value, after).Some?
      ensures StoppedOrRemoved(Run(cfg, Run(cfg, init, before).value, after).value)
    {
      SingleRunHolds(cfg, init, before);
      SingleRunHolds(cfg, Run(cfg, init, before).value, after);
    }
  }

  // ---------- Under every other policy it is not ----------

  /** The monitor's way from the loop's top to its running save. */
  function StartUp(pid: int): seq<Action> {
    [Clone(pid), JoinCgroup, WriteMaps] + RELEASE
  }

  const RELEASE: seq<Action> := [SetUpNetwork, Signal(true), SaveRunning]

  /** A container stopped while its policy restarts it: the `stop` saves between exit and restart. */
  const STOP_DURING_RUN: seq<Action> := [StopLoad(0), Exit(0, 15), StopSave(0)]

  lemma {:induction false} RunAppends(cfg: Config, s: State, a: seq<Action>, b: seq<Action>)
    requires Run(cfg, s, a).Some?
    ensures Run(cfg, s, a + b) == Run(cfg, Run(cfg, s, a).value, b)
    decreases |a|
  {
    if a == [] {
      assert a + b == b;
    } else {
      assert (a + b)[1..] == a[1..] + b;
      RunAppends(cfg, Do(cfg, s, a[0]).value, a[1..], b);
    }
  }

  lemma BringUpRuns(cfg: Config, s: State, pid: int)
    requires s.pc.Prepared?
    ensures var r := Run(cfg, s, [Clone(pid), JoinCgroup, WriteMaps]);
      && r.Some? && r.value.pc == Mapped && r.value.mem == s.mem && r.value.stops == s.stops
      && r.value.restartCount == s.restartCount && |r.value.children| == |s.children| + 1
      && Last(r.value).pid == pid && Blocked(Last(r.value))
  {
    RunThree(cfg, s, Clone(pid), JoinCgroup, WriteMaps);
  }

  lemma ReleaseRuns(cfg: Config, s: State)
    requires s.pc.Mapped? && s.children != [] && Blocked(Last(s))
    ensures var r := Run(cfg, s, RELEASE);
      && r.Some? && r.value.pc == Waiting && r.value.file == Some(r.value.mem)
      && r.value.mem == s.mem.(status := Running, pid := Some(Last(s).pid)) && r.value.stops == s.stops
      && r.value.restartCount == s.restartCount && |r.value.children| == |s.children|
      && Blocked(Last(r.value)) && Last(r.value).bytes == 1
  {
    RunThree(cfg, s, SetUpNetwork, Signal(true), SaveRunning);
  }

  lemma StartUpRuns(cfg: Config, s: State, pid: int)
    requires s.pc.Prepared?
    ensures var r := Run(cfg, s, StartUp(pid));
      && r.Some? && r.value.pc == Waiting && r.value.file == Some(r.value.mem)
      && r.value.mem == s.mem.(status := Running, pid := Some(pid)) && r.value.stops == s.stops
      && r.value.restartCount == s.restartCount && |r.value.children| == |s.children| + 1
      && Blocked(Last(r.value)) && Last(r.value).bytes == 1
  {
    var bringUp := [Clone(pid), JoinCgroup, WriteMaps];
    BringUpRuns(cfg, s, pid);
    var mapped := Run(cfg, s, bringUp).value;
    ReleaseRuns(cfg, mapped);
    RunAppends(cfg, s, bringUp, RELEASE);
  }

  lemma StopDuringRunRuns(cfg: Config, s: State)
    requires s.pc.Waiting? && s.file.Some? && s.file.value.pid.Some?
    requires s.stops == [Idle] && |s.children| == 1 && Last(s).exited == None
    ensures var r := Run(cfg, s, STOP_DURING_RUN);
      && r.Some? && HasStatus(r.value.file, Stopped) && r.value.pc.Waiting?
      && r.value.restartCount == s.restartCount
      && r.value.children != [] && Last(r.value).exited == Some(15)
  {
    RunThree(cfg, s, StopLoad(0), Exit(0, 15), StopSave(0));
  }

  /** With any restarting policy a stopped container can be saved as running again. */
  lemma RestartRevives(cfg: Config)
    requires !cfg.policy.No?
    ensures !StoppedIsFinal(cfg)
  {
    var init := State(None, CREATED_STATE, Starting, 0, [], [Idle]);
    var before := [SaveCreated] + (StartUp(1) + STOP_DURING_RUN);
    var after := [Reap] + ([Decide] + StartUp(1));
    var s := StopWhileWaiting(cfg, init);
    RestartAfterStop(cfg, s);
    assert Run(cfg, init, before) == Some(s) && !StoppedOrRemoved(Run(cfg, s, after).value);
  }

  lemma StopWhileWaiting(cfg: Config, init: State) returns (s: State)
    requires init == State(None, CREATED_STATE, Starting, 0, [], [Idle])
    ensures Run(cfg, init, [SaveCreated] + (StartUp(1) + STOP_DURING_RUN)) == Some(s)
    ensures HasStatus(s.file, Stopped) && s.pc.Waiting? && s.restartCount == 0
    ensures s.children != [] && Last(s).exited == Some(15)
  {
    var s0 := Do(cfg, init, SaveCreated).value;
    StartUpRuns(cfg, s0, 1);
    var s1 := Run(cfg, s0, StartUp(1)).value;
    StopDuringRunRuns(cfg, s1);
    s := Run(cfg, s1, STOP_DURING_RUN).value;
    RunAppends(cfg, s0, StartUp(1), STOP_DURING_RUN);
    RunFirst(cfg, init, SaveCreated, StartUp(1) + STOP_DURING_RUN);
  }

  /** The child died of SIGTERM, so its exit code is 143 and every restarting policy restarts it. */
  lemma RestartAfterStop(cfg: Config, s: State)
    requires !cfg.policy.No? && s.pc.Waiting? && s.restartCount == 0
    requires s.children != [] && Last(s).exited == Some(15)
    ensures var r := Run(cfg, s, [Reap] + ([Decide] + StartUp(1))); r.Some? && HasStatus(r.value.file, Running)
  {
    var s1 := Do(cfg, s, Reap).value;
    assert ExitCode(15) == 143 && s1.pc == Reaped(143);
    var s2 := Do(cfg, s1, Decide).value;
    StartUpRuns(cfg, s2, 1);
    RunFirst(cfg, s1, Decide, StartUp(1));
    RunFirst(cfg, s, Reap, [Decide] + StartUp(1));
  }

  lemma RunFirst(cfg: Config, s: State, a: Action, rest: seq<Action>)
    requires Do(cfg, s, a).Some?
    ensures Run(cfg, s, [a] + rest) == Run(cfg, Do(cfg, s, a).value, rest)
  {
    assert ([a] + rest)[1..] == rest;
  }

  lemma RunThree(cfg: Config, s: State, a: Action, b: Action, c: Action)
    requires Do(cfg, s, a).Some? && Do(cfg, Do(cfg, s, a).value, b).Some?
    requires Do(cfg, Do(cfg, Do(cfg, s, a).value, b).value, c).Some?
    ensures Run(cfg, s, [a, b, c]) == Do(cfg, Do(cfg, Do(cfg, s, a).value, b).value, c)
  {
    RunFirst(cfg, Do(cfg, Do(cfg, s, a).value, b).value, c, []);
    RunFirst(cfg, Do(cfg, s, a).value, b, [c]);
    RunFirst(cfg, s, a, [b, c]);
    assert [a, b, c] == [a] + [b, c] && [b, c] == [b] + [c] && [c] == [c] + [];
  }

  /** For every number of stop commands and every interleaving: `stopped` is final if and only if the
      policy never restarts. */
  lemma StoppedIsFinalExactly(cfg: Config)
    ensures StoppedIsFinal(cfg) <==> cfg.policy.No?
  {
    if cfg.policy.No? {
      NoRestartStoppedIsFinal(cfg);
    } else {
      RestartRevives(cfg);
    }
  }

  // ---------- How a container ends ----------

  /** Until the monitor's last save no exit code is known to anyone; from then on the file says
      stopped, or is gone if the container removes itself. */
  ghost predicate EndInv(cfg: Config, s: State) {
    && (s.pc.Cleaning? ==> HasStatus(s.file, Stopped))
    && (s.pc.Done? ==> if cfg.autoRemove then s.file == None else HasStatus(s.file, Stopped))
    && (!s.pc.Cleaning? && !s.pc.Done? ==>
          && s.mem.exitCode == None
          && (s.file.Some? ==> s.file.value.exitCode == None)
          && forall j :: 0 <= j < |s.stops| && s.stops[j].Loaded? ==> s.stops[j].copy.exitCode == None)
  }

  lemma EndStep(cfg: Config, s: State, a: Action)
    requires EndInv(cfg, s) && Do(cfg, s, a).Some?
    ensures EndInv(cfg, Do(cfg, s, a).value)
  {
  }

  lemma {:induction false} EndHolds(cfg: Config, s: State, actions: seq<Action>)
    requires EndInv(cfg, s) && Run(cfg, s, actions).Some?
    ensures EndInv(cfg, Run(cfg, s, actions).value)
    decreases |actions|
  {
    if actions != [] {
      EndStep(cfg, s, actions[0]);
      EndHolds(cfg, Do(cfg, s, actions[0]).value, actions[1..]);
    }
  }

  /** When the monitor has finished, under any policy and however many stop commands ran or still
      run, the container is saved as stopped, or removed if it was to be. */
  lemma FinishedIsStopped(cfg: Config, init: State, actions: seq<Action>)
    requires Init(init) && Run(cfg, init, actions).Some?
    requires Run(cfg, init, actions).value.pc.Done?
    ensures var end := Run(cfg, init, actions).value;
      if cfg.autoRemove then end.file == None else HasStatus(end.file, Stopped)
  {
    EndHolds(cfg, init, actions);
  }

  // ---------- Whether the exit code survives ----------

  ghost predicate StopInFlight(s: State) {
    exists j :: 0 <= j < |s.stops| && s.stops[j].Loaded?
  }

  /** From the final save on, the file and every copy loaded from it carry the exit code. */
  ghost predicate CodeInv(code: nat, s: State) {
    && (s.pc.Cleaning? || s.pc.Done?)
    && (s.file.Some? ==> s.file.value.exitCode == Some(code))
    && forall j :: 0 <= j < |s.stops| && s.stops[j].Loaded? ==> s.stops[j].copy.exitCode == Some(code)
  }

  lemma {:induction false} CodeHolds(cfg: Config, code: nat, s: State, actions: seq<Action>)
    requires CodeInv(code, s) && Run(cfg, s, actions).Some?
    ensures CodeInv(code, Run(cfg, s, actions).value)
    decreases |actions|
  {
    if actions != [] {
      var next := Do(cfg, s, actions[0]).value;
      assert CodeInv(code, next);
      CodeHolds(cfg, code, next, actions[1..]);
    }
  }

  /** No continuation of `s` loses the exit code from the saved state. */
  ghost predicate CodeKept(cfg: Config, code: nat, s: State) {
    forall actions :: Run(cfg, s, actions).Some? && Run(cfg, s, actions).value.file.Some? ==>
      Run(cfg, s, actions).value.file.value.exitCode == Some(code)
  }

  /** A stop command that loaded the state before the monitor's final save writes back a copy without
      the exit code. The code is safe if and only if none is between its load and its save then. */
  lemma ExitCodeKeptExactly(cfg: Config, init: State, actions: seq<Action>)
    requires Init(init) && Run(cfg, init, actions).Some?
    requires Run(cfg, init, actions).value.pc.Ended?
    ensures var s := Run(cfg, init, actions).value;
      CodeKept(cfg, s.pc.code, Do(cfg, s, SaveStopped).value) <==> !StopInFlight(s)
  {
    EndHolds(cfg, init, actions);
    var s := Run(cfg, init, actions).value;
    var code := s.pc.code;
    var t := Do(cfg, s, SaveStopped).value;
    if StopInFlight(s) {
      var j :| 0 <= j < |s.stops| && s.stops[j].Loaded?;
      RunFirst(cfg, t, StopSave(j), []);
      var u := Do(cfg, t, StopSave(j)).value;
      assert Run(cfg, t, [StopSave(j)] + []) == Some(u) && u.file.value.exitCode == None;
    } else {
      forall more | Run(cfg, t, more).Some? && Run(cfg, t, more).value.file.Some?
        ensures Run(cfg, t, more).value.file.value.exitCode == Some(code)
      {
        CodeHolds(cfg, code, t, more);
      }
    }
  }

  // ---------- A container left alone ----------

  /** What is done until run `k`, with this pid and wait status, is decided on. */
  function WholeRun(k: nat, pid: int, status: int): seq<Action> {
    StartUp(pid) + ([ReadByte(k), Exit(k, status), Reap] + [Decide])
  }

  /** The first `n` runs. */
  function WholeRuns(pids: seq<int>, statuses: seq<int>, n: nat): seq<Action>
    requires n <= |pids| == |statuses|
  {
    if n == 0 then [] else WholeRuns(pids, statuses, n - 1) + WholeRun(n - 1, pids[n - 1], statuses[n - 1])
  }

  lemma WholeRunRuns(cfg: Config, s: State, pid: int, status: int) returns (end: State)
    requires s.pc.Prepared?
    ensures Run(cfg, s, WholeRun(|s.children|, pid, status)) == Some(end)
    ensures end.mem == s.mem.(status := Running, pid := Some(pid)) && |end.children| == |s.children| + 1
    ensures if ShouldRestart(cfg.policy, ExitCode(status), s.restartCount)
            then end.pc == Prepared && end.restartCount == (s.restartCount + 1) % 0x1_0000_0000
            else end.pc == Ended(ExitCode(status))
  {
    var k := |s.children|;
    StartUpRuns(cfg, s, pid);
    var up := Run(cfg, s, StartUp(pid)).value;
    RunThree(cfg, up, ReadByte(k), Exit(k, status), Reap);
    var reaped := Run(cfg, up, [ReadByte(k), Exit(k, status), Reap]).value;
    end := Do(cfg, reaped, Decide).value;
    RunThen(cfg, up, [ReadByte(k), Exit(k, status), Reap], Decide);
    RunBoth(cfg, s, StartUp(pid), up, [ReadByte(k), Exit(k, status), Reap] + [Decide], end);
  }

  lemma RunBoth(cfg: Config, s: State, a: seq<Action>, mid: State, b: seq<Action>, end: State)
    requires Run(cfg, s, a) == Some(mid) && Run(cfg, mid, b) == Some(end)
    ensures Run(cfg, s, a + b) == Some(end)
  {
    RunAppends(cfg, s, a, b);
  }

  lemma RunThen(cfg: Config, s: State, actions: seq<Action>, a: Action)
    requires Run(cfg, s, actions).Some? && Do(cfg, Run(cfg, s, actions).value, a).Some?
    ensures Run(cfg, s, actions + [a]) == Do(cfg, Run(cfg, s, actions).value, a)
  {
    RunAppends(cfg, s, actions, [a]);
    RunFirst(cfg, Run(cfg, s, actions).value, a, []);
    assert [a] + [] == [a];
  }

  /** Where the monitor is after the first `n` runs. */
  ghost predicate AfterRuns(cfg: Config, pids: seq<int>, statuses: seq<int>, n: nat, s: State)
    requires n <= |pids| == |statuses|
  {
    && |s.children| == n
    && s.mem == (if n == 0 then CREATED_STATE else ContainerState(Running, Some(pids[n - 1]), None))
    && if n == 0 || RestartsAfter(cfg.policy, statuses, n - 1)
       then s.pc == Prepared && s.restartCount == n % 0x1_0000_0000
       else s.pc == Ended(ExitCode(statuses[n - 1]))
  }

  lemma NextRun(cfg: Config, pids: seq<int>, statuses: seq<int>, k: nat, s: State) returns (end: State)
    requires k < |pids| == |statuses| && AfterRuns(cfg, pids, statuses, k, s)
    requires k > 0 ==> RestartsAfter(cfg.policy, statuses, k - 1)
    ensures Run(cfg, s, WholeRun(k, pids[k], statuses[k])) == Some(end)
    ensures AfterRuns(cfg, pids, statuses, k + 1, end)
  {
    end := WholeRunRuns(cfg, s, pids[k], statuses[k]);
    CountsUp(k);
  }

  /** Several runs, each but the last followed by a restart. */
  lemma {:induction false} WholeRunsRun(cfg: Config, s: State, pids: seq<int>, statuses: seq<int>, n: nat)
    returns (end: State)
    requires n <= |pids| == |statuses| && AfterRuns(cfg, pids, statuses, 0, s)
    requires forall k :: 0 <= k < n - 1 ==> RestartsAfter(cfg.policy, statuses, k)
    ensures Run(cfg, s, WholeRuns(pids, statuses, n)) == Some(end)
    ensures AfterRuns(cfg, pids, statuses, n, end)
  {
    if n == 0 {
      end := s;
    } else {
      var k := n - 1;
      assert k > 0 ==> RestartsAfter(cfg.policy, statuses, k - 1);
      var mid := WholeRunsRun(cfg, s, pids, statuses, k);
      end := NextRun(cfg, pids, statuses, k, mid);
      RunBoth(cfg, s, WholeRuns(pids, statuses, k), mid, WholeRun(k, pids[k], statuses[k]), end);
    }
  }

  /** A container that nobody stops, with children that end as `endings` says, goes through the protocol to
      its end whenever one of the runs is the last for its policy: the state it saves last is stopped, with
      the last child's pid, and its code or 128 plus the signal that killed it. */
  lemma LeftAloneEnds(cfg: Config, init: State, pids: seq<int>, endings: seq<Ending>) returns (end: State)
    requires Init(init) && endings != [] && |pids| == |endings|
    requires forall k :: 0 <= k < |endings| ==> CanEnd(endings[k])
    requires IsLastRun(cfg.policy, WaitStatuses(endings), |endings| - 1)
    ensures Run(cfg, init, LeftAlone(pids, WaitStatuses(endings))) == Some(end)
    ensures var last := |endings| - 1;
      var code := match endings[last] case Exited(code) => code case Killed(signal, _) => 128 + signal;
      end.pc == Cleaning && end.file == Some(ContainerState(Stopped, Some(pids[last]), Some(code)))
  {
    end := LeftAloneRun(cfg, init, pids, WaitStatuses(endings));
    ExitCodeReadBack(endings[|endings| - 1]);
  }

  /** All the monitor and its children do, with nobody else. */
  function LeftAlone(pids: seq<int>, statuses: seq<int>): seq<Action>
    requires |pids| == |statuses|
  {
    [SaveCreated] + (WholeRuns(pids, statuses, |statuses|) + [SaveStopped])
  }

  lemma LeftAloneRun(cfg: Config, init: State, pids: seq<int>, statuses: seq<int>) returns (end: State)
    requires Init(init) && statuses != [] && |pids| == |statuses|
    requires IsLastRun(cfg.policy, statuses, |statuses| - 1)
    ensures var n := |statuses|;
      && Run(cfg, init, LeftAlone(pids, statuses)) == Some(end)
      && end.pc == Cleaning
      && end.file == Some(ContainerState(Stopped, Some(pids[n - 1]), Some(ExitCode(statuses[n - 1]))))
  {
    var all := WholeRuns(pids, statuses, |statuses|);
    var prepared := Prepares(cfg, init, pids, statuses);
    var ended := WholeRunsRun(cfg, prepared, pids, statuses, |statuses|);
    end := SaveAtEnd(cfg, prepared, all, ended);
    RunFirst(cfg, init, SaveCreated, all + [SaveStopped]);
  }

  lemma Prepares(cfg: Config, init: State, pids: seq<int>, statuses: seq<int>) returns (s: State)
    requires Init(init) && |pids| == |statuses|
    ensures Do(cfg, init, SaveCreated) == Some(s) && AfterRuns(cfg, pids, statuses, 0, s)
  {
    s := Do(cfg, init, SaveCreated).value;
  }

  lemma SaveAtEnd(cfg: Config, s: State, actions: seq<Action>, ended: State) returns (end: State)
    requires Run(cfg, s, actions) == Some(ended) && ended.pc.Ended?
    ensures Run(cfg, s, actions + [SaveStopped]) == Some(end)
    ensures end.pc == Cleaning
    ensures end.file == Some(ended.mem.(status := Stopped, exitCode := Some(ended.pc.code)))
  {
    end := Do(cfg, ended, SaveStopped).value;
    RunThen(cfg, s, actions, SaveStopped);
  }

  // ---------- Where the final code comes from ----------

  /** The code the monitor goes by is that of its last child. */
  ghost predicate CodeOfLast(s: State) {
    s.pc.Reaped? || s.pc.Ended? ==>
      s.children != [] && Last(s).exited.Some? && s.pc.code == ExitCode(Last(s).exited.value)
  }

  lemma {:induction false} CodeOfLastHolds(cfg: Config, s: State, actions: seq<Action>)
    requires CodeOfLast(s) && Run(cfg, s, actions).Some? && ReapError !in actions
    ensures CodeOfLast(Run(cfg, s, actions).value)
    decreases |actions|
  {
    if actions != [] {
      CodeOfLastStep(cfg, s, actions[0]);
      CodeOfLastHolds(cfg, Do(cfg, s, actions[0]).value, actions[1..]);
    }
  }

  lemma CodeOfLastStep(cfg: Config, s: State, a: Action)
    requires CodeOfLast(s) && Do(cfg, s, a).Some? && a != ReapError
    ensures CodeOfLast(Do(cfg, s, a).value)
  {
  }

  /** In every interleaving without a failing wait, the final save records the code of the last child. */
  lemma SavedCodeIsLastChilds(cfg: Config, init: State, actions: seq<Action>)
    requires Init(init) && Run(cfg, init, actions + [SaveStopped]).Some? && ReapError !in actions
    ensures var s := Run(cfg, init, actions + [SaveStopped]).value;
      && s.children != [] && Last(s).exited.Some? && HasStatus(s.file, Stopped)
      && s.file.value.exitCode == Some(ExitCode(Last(s).exited.value))
  {
    RunPrefix(cfg, init, actions, [SaveStopped]);
    CodeOfLastHolds(cfg, init, actions);
    RunAppends(cfg, init, actions, [SaveStopped]);
    var s := Run(cfg, init, actions).value;
    assert [SaveStopped] == [SaveStopped] + [];
    if Do(cfg, s, SaveStopped).Some? {
      RunFirst(cfg, s, SaveStopped, []);
    }
  }

  /** A failing wait counts as exit code 0: unless the policy is `always`, the container ends with it. */
  lemma FailedWaitEndsWithZero(cfg: Config, s: State)
    requires s.pc.Waiting? && !cfg.policy.Always?
    ensures var end := Run(cfg, s, [ReapError, Decide, SaveStopped]);
      end.Some? && HasStatus(end.value.file, Stopped) && end.value.file.value.exitCode == Some(0)
  {
    RunThree(cfg, s, ReapError, Decide, SaveStopped);
  }

  /** A child whose barrier read fails never starts, and its exit code is 1. */
  lemma FailedReadExitsOne(cfg: Config, s: State, i: nat)
    requires i < |s.children| && Blocked(s.children[i])
    ensures var next := Do(cfg, s, ReadError(i));
      && next.Some? && !next.value.children[i].passed && next.value.children[i].exited.Some?
      && ExitCode(next.value.children[i].exited.value) == 1
  {
    ExitCodeReadBack(Exited(1));
  }
}
