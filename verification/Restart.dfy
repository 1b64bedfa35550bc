/** The restart policy, exit codes and the monitor's run loop of src/container.rs, for containers
    without a terminal and without a concurrent `stop`. */
module Restart {
  import opened Wrappers
  import opened Decimal

  /** `OnFailure(0)` retries without limit. */
  datatype RestartPolicy = No | Always | OnFailure(max: nat)

  datatype Status = Created | Running | Stopped

  /** The saved state without its timestamps. */
  datatype ContainerState = ContainerState(status: Status, pid: Option<int>, exitCode: Option<nat>)

  // ---------- The policy string ----------

  function StripPrefix(s: string, prefix: string): Option<string> {
    if prefix <= s then Some(s[|prefix|..]) else None
  }

  function ParseRestartPolicy(s: string): RestartPolicy {
    if s == "always" then Always
    else if s == "no" || s == "" then No
    else
      match StripPrefix(s, "on-failure")
      case None => No
      case Some(rest) =>
        match StripPrefix(rest, ":")
        case None => OnFailure(0)
        case Some(n) => OnFailure(match ParseUnsigned(n, U32_MAX) case None => 0 case Some(max) => max)
  }

  /** A written limit is read back; one that does not fit in 32 bits becomes "no limit". */
  lemma OnFailureReadBack(n: nat)
    ensures ParseRestartPolicy("on-failure:" + Show(n)) == OnFailure(if n <= U32_MAX then n else 0)
  {
    var s := "on-failure:" + Show(n);
    assert s == "on-failure" + (":" + Show(n));
    assert s[0] == 'o' && s[1] == 'n' && s[2] == '-';
    PrefixStripped("on-failure", ":" + Show(n));
    PrefixStripped(":", Show(n));
    ShowThenParse(n, U32_MAX);
  }

  /** A limit that is no number is no limit. */
  lemma BadLimit(text: string)
    requires Numeral(text).None?
    ensures ParseRestartPolicy("on-failure:" + text) == OnFailure(0)
  {
    var s := "on-failure:" + text;
    assert s == "on-failure" + (":" + text);
    assert s[0] == 'o' && s[1] == 'n' && s[2] == '-';
    PrefixStripped("on-failure", ":" + text);
    PrefixStripped(":", text);
  }

  /** Every policy text: `always`; `on-failure`, followed by anything, for a limit only after a colon; any
      other text is no restart. */
  lemma PolicyReadExactly(s: string)
    ensures ParseRestartPolicy(s).Always? <==> s == "always"
    ensures ParseRestartPolicy(s).OnFailure? <==> "on-failure" <= s
    ensures "on-failure" <= s && !("on-failure:" <= s) ==> ParseRestartPolicy(s) == OnFailure(0)
    ensures ParseRestartPolicy(s).No? <==> s != "always" && !("on-failure" <= s)
  {
    assert "on-failure:"[..10] == "on-failure";
    if "on-failure" <= s {
      assert s[0] == 'o' && s[1] == 'n' && s[2] == '-';
      assert "on-failure:" <= s <==> ":" <= s[10..] by {
        assert "on-failure" + ":" == "on-failure:";
        assert s == "on-failure" + s[10..];
      }
    }
  }

  lemma PrefixStripped(prefix: string, rest: string)
    ensures StripPrefix(prefix + rest, prefix) == Some(rest)
  {
  }

  // ---------- Exit codes ----------

  /** The code of a wait status: the exit status, 128 plus the signal number, or 1 if it is neither.
      `WIFSIGNALED` holds when the low seven bits are neither 0 nor 127. */
  function ExitCode(waitStatus: int): (code: nat)
    ensures code <= 255
    ensures code == 0 <==> waitStatus % 0x80 == 0 && waitStatus / 0x100 % 0x100 == 0
  {
    var low := waitStatus % 0x80;
    if low == 0 then waitStatus / 0x100 % 0x100
    else if low < 0x7f then 128 + low
    else 1
  }

  /** How a child ends: by itself, with a code from 0 to 255, or by a signal from 1 to 126, with or without
      a core dump. */
  datatype Ending = Exited(code: nat) | Killed(signal: nat, core: bool)

  predicate CanEnd(e: Ending) {
    match e
    case Exited(code) => code <= 255
    case Killed(signal, _) => 1 <= signal <= 126
  }

  /** The wait status the kernel makes of it. */
  function WaitStatus(e: Ending): int {
    match e
    case Exited(code) => code * 0x100
    case Killed(signal, core) => signal + if core then 0x80 else 0
  }

  function WaitStatuses(endings: seq<Ending>): (statuses: seq<int>)
    ensures |statuses| == |endings|
  {
    seq(|endings|, k requires 0 <= k < |endings| => WaitStatus(endings[k]))
  }

  /** The code read back is the child's own, or 128 plus the signal. */
  lemma ExitCodeReadBack(e: Ending)
    requires CanEnd(e)
    ensures ExitCode(WaitStatus(e)) == match e case Exited(code) => code case Killed(signal, _) => 128 + signal
  {
  }

  lemma CodeOfEnding(status: int)
    ensures forall e :: CanEnd(e) && WaitStatus(e) == status ==>
      ExitCode(status) == match e case Exited(code) => code case Killed(signal, _) => 128 + signal
  {
    forall e | CanEnd(e) && WaitStatus(e) == status
      ensures ExitCode(status) == match e case Exited(code) => code case Killed(signal, _) => 128 + signal
    {
      ExitCodeReadBack(e);
    }
  }

  /** A status of the third kind, a stopped child, gives 1. */
  lemma StoppedGivesOne(signal: nat)
    ensures ExitCode(0x7f + 0x100 * signal) == 1
  {
  }

  function ShouldRestart(policy: RestartPolicy, code: nat, restartCount: nat): bool {
    match policy
    case No => false
    case Always => true
    case OnFailure(max) => code != 0 && (max == 0 || restartCount < max)
  }

  // ---------- Which run is the last ----------

  /** Whether the monitor restarts after run `k`; its counter is a u32. */
  predicate RestartsAfter(policy: RestartPolicy, statuses: seq<int>, k: nat)
    requires k < |statuses|
  {
    ShouldRestart(policy, ExitCode(statuses[k]), k % 0x1_0000_0000)
  }

  lemma CountsUp(n: nat)
    ensures (n % 0x1_0000_0000 + 1) % 0x1_0000_0000 == (n + 1) % 0x1_0000_0000
  {
  }

  predicate IsLastRun(policy: RestartPolicy, statuses: seq<int>, r: nat) {
    && r < |statuses|
    && !RestartsAfter(policy, statuses, r)
    && forall k :: 0 <= k < r ==> RestartsAfter(policy, statuses, k)
  }

  /** Which run is the last, for every policy a text can give: without a restart the first, under `always`
      none, and on failure the first with code zero or, under a limit, the one after that many restarts. */
  lemma LastRunExactly(policy: RestartPolicy, statuses: seq<int>, r: nat)
    requires r < |statuses| && (policy.OnFailure? ==> policy.max <= U32_MAX)
    ensures IsLastRun(policy, statuses, r) <==>
      match policy
      case No => r == 0
      case Always => false
      case OnFailure(max) =>
        && (forall k :: 0 <= k < r ==> ExitCode(statuses[k]) != 0)
        && (max == 0 ==> ExitCode(statuses[r]) == 0)
        && (max > 0 ==> r <= max && (ExitCode(statuses[r]) == 0 || r == max))
  {
    match policy {
      case No =>
        assert r > 0 ==> !RestartsAfter(policy, statuses, 0);
      case Always =>
        assert RestartsAfter(policy, statuses, r);
      case OnFailure(max) =>
        if max > 0 {
          LimitedRuns(max, statuses, r);
        } else {
          assert forall k :: 0 <= k <= r ==> (RestartsAfter(policy, statuses, k) <==> ExitCode(statuses[k]) != 0);
        }
    }
  }

  /** With a limit of `max` restarts: up to the first zero code, and at most `max + 1` runs. */
  lemma LimitedRuns(max: nat, statuses: seq<int>, r: nat)
    requires 0 < max <= U32_MAX && r < |statuses|
    ensures IsLastRun(OnFailure(max), statuses, r) <==>
      && r <= max
      && (forall k :: 0 <= k < r ==> ExitCode(statuses[k]) != 0)
      && (ExitCode(statuses[r]) == 0 || r == max)
  {
    if IsLastRun(OnFailure(max), statuses, r) {
      assert max < |statuses| ==> !RestartsAfter(OnFailure(max), statuses, max);
      forall k | 0 <= k < r
        ensures ExitCode(statuses[k]) != 0
      {
        assert RestartsAfter(OnFailure(max), statuses, k);
      }
    }
  }

  /** A limited container ends: one of its first `max + 1` runs is the last. */
  lemma {:induction false} LimitedRunsEnd(max: nat, statuses: seq<int>, from: nat)
    requires 0 < max <= U32_MAX && |statuses| == max + 1 && from <= max
    requires forall k :: 0 <= k < from ==> ExitCode(statuses[k]) != 0
    ensures exists r: nat :: r <= max && IsLastRun(OnFailure(max), statuses, r)
    decreases max - from
  {
    LimitedRuns(max, statuses, from);
    if ExitCode(statuses[from]) != 0 && from < max {
      LimitedRunsEnd(max, statuses, from + 1);
    }
  }

  /** With a limit the number of restarts never exceeds it, so a u32 counts them without wrapping. */
  lemma RestartsBounded(max: nat, statuses: seq<int>, restarts: nat)
    requires 0 < max <= U32_MAX && restarts <= |statuses|
    requires forall k :: 0 <= k < restarts ==> RestartsAfter(OnFailure(max), statuses, k)
    ensures restarts <= max
  {
    if max < |statuses| {
      assert !RestartsAfter(OnFailure(max), statuses, max);
    }
  }

  // ---------- The loop ----------

  predicate Limited(policy: RestartPolicy) {
    policy.OnFailure? && 0 < policy.max <= U32_MAX
  }

  function RunningStates(pids: seq<int>): seq<ContainerState> {
    seq(|pids|, i requires 0 <= i < |pids| => ContainerState(Running, Some(pids[i]), None))
  }

  const CREATED_STATE: ContainerState := ContainerState(Created, None, None)

  lemma NextRunning(pids: seq<int>, run: nat)
    requires run < |pids|
    ensures [CREATED_STATE] + RunningStates(pids[..run + 1])
         == [CREATED_STATE] + RunningStates(pids[..run]) + [ContainerState(Running, Some(pids[run]), None)]
  {
  }

  /** Created, then running once per run up to run `r`, then stopped with the final code. */
  function FinishedHistory(pids: seq<int>, r: nat, code: nat): seq<ContainerState>
    requires r < |pids|
  {
    [CREATED_STATE] + RunningStates(pids[..r + 1]) + [ContainerState(Stopped, Some(pids[r]), Some(code))]
  }

  /** The monitor process. `saved` is everything it writes to `state.json`, in order. */
  class Monitor {
    var state: ContainerState
    var restartCount: nat
    var saved: seq<ContainerState>

    constructor ()
      ensures state == CREATED_STATE && restartCount == 0 && saved == [CREATED_STATE]
    {
      state := ContainerState(Created, None, None);
      restartCount := 0;
      saved := [ContainerState(Created, None, None)];
    }

    /** The k-th run gets process id `pids[k]` and ends with wait status `statuses[k]`.
        Without a result the container was still being restarted when the given runs were used up. */
    method RunLoop(policy: RestartPolicy, pids: seq<int>, statuses: seq<int>) returns (final: Option<nat>)
      requires state == CREATED_STATE && restartCount == 0 && saved == [CREATED_STATE]
      requires |pids| == |statuses|
      modifies this
      ensures final.Some? ==>
        exists r: nat ::
          && IsLastRun(policy, statuses, r)
          && final.value == ExitCode(statuses[r])
          && (forall e :: CanEnd(e) && WaitStatus(e) == statuses[r] ==>
                final.value == match e case Exited(code) => code case Killed(signal, _) => 128 + signal)
          && saved != [] && saved[|saved| - 1] == ContainerState(Stopped, Some(pids[r]), final)
          && restartCount == r % 0x1_0000_0000
          && (Limited(policy) ==> restartCount == r <= policy.max)
          && saved == FinishedHistory(pids, r, final.value)
      ensures final.None? ==> forall r: nat :: !IsLastRun(policy, statuses, r)
      ensures final.None? && Limited(policy) ==> restartCount == |statuses| <= policy.max
      ensures final.None? ==> saved == [CREATED_STATE] + RunningStates(pids)
    {
      var run := 0;
      while run < |statuses|
        invariant 0 <= run <= |statuses|
        invariant restartCount == run % 0x1_0000_0000
        invariant forall k :: 0 <= k < run ==> RestartsAfter(policy, statuses, k)
        invariant saved == [CREATED_STATE] + RunningStates(pids[..run])
        invariant state == if run == 0 then CREATED_STATE else ContainerState(Running, Some(pids[run - 1]), None)
      {
        state := state.(status := Running, pid := Some(pids[run]));
        saved := saved + [state];
        NextRunning(pids, run);

        var exitCode := ExitCode(statuses[run]);
        if !ShouldRestart(policy, exitCode, restartCount) {
          state := state.(status := Stopped, exitCode := Some(exitCode));
          saved := saved + [state];
          assert IsLastRun(policy, statuses, run);
          CodeOfEnding(statuses[run]);
          if Limited(policy) {
            RestartsBounded(policy.max, statuses, run);
          }
          return Some(exitCode);
        }
        CountsUp(run);
        restartCount := (restartCount + 1) % 0x1_0000_0000;
        run := run + 1;
      }
      if Limited(policy) {
        RestartsBounded(policy.max, statuses, run);
      }
      assert pids[..run] == pids;
      return None;
    }
  }
}