/**
  The Unix process-tree supervisor: spawn, timed waits, group kills, pipe drains, the final
  reap and `Drop`. Answers of the operating system are arbitrary, so each contract speaks
  about every run. Times are in nanoseconds.
 */
module Supervisor {
  import opened Common
  import opened BoundedPipe

  const GRACE: nat := 5_000_000_000
  const POLL_SLEEP: nat := 5_000_000

  datatype Signalled = Sent | NoSuchProcess | NotPermitted | OtherErrno(code: nat)

  datatype Waited = ExitReported | WaiterError | WaitTimedOut | Disconnected

  datatype Polled = Status(status: int) | Running | PollError

  datatype Pipe = Stdout | Stderr

  datatype Event =
    | GroupKill(result: Signalled)    // SIGKILL sent to the process group
    | ChildKill(ok: bool)             // SIGKILL sent to the leader alone
    | LeaderCheck(exited: bool)       // whether the leader is a zombie
    | GroupCheck(gone: bool)          // verdict on an unsignallable group after the reap
    | Reaped(status: int)             // the leader is reaped: its group id may be reused from here on
    | ExitWait(answer: Waited)
    | Drained(pipe: Pipe)
    | NotDrained(pipe: Pipe)

  datatype Problem =
    | TreeKill | ChildKillFailed
    | NoExitInGrace | LeaderWait
    | DrainTimedOut(pipe: Pipe)
    | FinalTreeKill | LiveMember | EpermUnverified
    | NotReapedInGrace | LeaderReap

  predicate LeaderReaped(log: seq<Event>) {
    exists i :: 0 <= i < |log| && log[i].Reaped?
  }

  /** The group is killed only while its leader is unreaped. */
  predicate Safe(log: seq<Event>) {
    forall i, j :: 0 <= i < j < |log| && log[i].Reaped? ==> !log[j].GroupKill?
  }

  /** The event is in the log at or after position `start`. */
  predicate Since(log: seq<Event>, start: nat, e: Event) {
    exists i :: start <= i < |log| && log[i] == e
  }

  /** An answer to the final kill that is not reported as a problem by itself. */
  predicate Tolerated(answer: Signalled, zombieEperm: bool) {
    answer.Sent? || answer.NoSuchProcess? || (answer.NotPermitted? && zombieEperm)
  }

  /** From `start` on no group kill had to fall back to the leader. */
  predicate NoFallback(log: seq<Event>, start: nat) {
    forall i :: start <= i < |log| ==> !log[i].ChildKill?
  }

  /** The last kill was answered well, and an unsignallable group was seen to vanish. */
  predicate CleanEnd(log: seq<Event>, final: nat, zombieEperm: bool) {
    && final < |log| && log[final].GroupKill? && Tolerated(log[final].result, zombieEperm)
    && forall i :: final < i < |log| ==> log[i].Reaped? || log[i] == GroupCheck(true)
  }

  /** From `start` on: one group kill, and a look at the leader exactly when a refusal may come from zombies. */
  predicate KillSent(log: seq<Event>, start: nat, zombieEperm: bool) {
    && start < |log| && log[start].GroupKill?
    && (if log[start].result.NotPermitted? && zombieEperm then |log| == start + 2 && log[start + 1].LeaderCheck?
        else |log| == start + 1)
  }

  /** The kill was delivered, found nobody, or was refused by a group whose leader is a zombie. */
  predicate KillWentWell(log: seq<Event>, start: nat) {
    && start < |log| && log[start].GroupKill?
    && (|| log[start].result.Sent? || log[start].result.NoSuchProcess?
        || (start + 1 < |log| && log[start].result.NotPermitted? && log[start + 1] == LeaderCheck(true)))
  }

  /** What a fallback to the leader is reported as. */
  function FallbackProblems(log: seq<Event>, start: nat): seq<Problem> {
    if NoFallback(log, start) then []
    else if Since(log, start, ChildKill(false)) then [TreeKill, ChildKillFailed]
    else [TreeKill]
  }

  function WaitProblems(answer: Waited): seq<Problem> {
    match answer
    case ExitReported => []
    case WaitTimedOut => [NoExitInGrace]
    case _ => [LeaderWait]
  }

  lemma FallbackSplit(log: seq<Event>, later: seq<Event>, start: nat)
    requires log <= later && start <= |log|
    ensures NoFallback(later, start) <==> NoFallback(log, start) && NoFallback(later, |log|)
  {
    if NoFallback(later, start) {
      assert forall i :: start <= i < |log| ==> log[i] == later[i];
    }
  }

  lemma SinceSplit(log: seq<Event>, later: seq<Event>, start: nat, e: Event)
    requires log <= later && start <= |log|
    ensures Since(later, start, e) <==> Since(log, start, e) || Since(later, |log|, e)
  {
    if Since(log, start, e) {
      var i :| start <= i < |log| && log[i] == e;
      assert later[i] == e;
    }
    if Since(later, start, e) {
      var i :| start <= i < |later| && later[i] == e;
      assert i < |log| ==> log[i] == e;
    }
  }

  lemma Extend(log: seq<Event>, e: Event)
    requires Safe(log) && (e.GroupKill? ==> !LeaderReaped(log))
    ensures Safe(log + [e])
    ensures LeaderReaped(log + [e]) <==> LeaderReaped(log) || e.Reaped?
  {
    var more := log + [e];
    assert more[|log|] == e;
    assert forall i :: 0 <= i < |log| ==> more[i] == log[i];
  }

  /** The operating system and the clock. `waited` adds up the time spent in timed waits. */
  class Os {
    var clock: nat
    var waited: nat
    var log: seq<Event>

    /** Time passes; only `spent` of it counts as waiting. */
    method Pass(spent: nat)
      modifies this`clock, this`waited
      ensures waited == old(waited) + spent && clock >= old(clock) + spent
    {
      var other: nat :| 0 <= other;
      clock := clock + spent + other;
      waited := waited + spent;
    }

    method KillGroup() returns (result: Signalled)
      modifies this
      ensures log == old(log) + [GroupKill(result)] && waited == old(waited) && clock >= old(clock)
    {
      result := *;
      log := log + [GroupKill(result)];
      Pass(0);
    }

    method KillChild() returns (ok: bool)
      modifies this
      ensures log == old(log) + [ChildKill(ok)] && waited == old(waited) && clock >= old(clock)
    {
      ok := *;
      log := log + [ChildKill(ok)];
      Pass(0);
    }

    method TryWait() returns (r: Polled)
      modifies this
      ensures log == old(log) + (if r.Status? then [Reaped(r.status)] else [])
      ensures waited == old(waited) && clock >= old(clock)
    {
      r := *;
      if r.Status? {
        log := log + [Reaped(r.status)];
      }
      Pass(0);
      assert log == old(log) + (if r.Status? then [Reaped(r.status)] else []);
    }

    /** Signal 0 to the group: nothing is delivered. */
    method ProbeGroup() returns (result: Signalled)
      modifies this`clock, this`waited
      ensures waited == old(waited) && clock >= old(clock)
    {
      result := *;
      Pass(0);
    }

    method LeaderHasExited() returns (exited: bool)
      modifies this
      ensures log == old(log) + [LeaderCheck(exited)] && waited == old(waited) && clock >= old(clock)
    {
      exited := *;
      log := log + [LeaderCheck(exited)];
      Pass(0);
    }

    /** Waits for the waiter thread's message for at most `timeout`. */
    method ReceiveExit(timeout: nat) returns (r: Waited)
      modifies this
      ensures log == old(log) + [ExitWait(r)]
      ensures old(waited) <= waited <= old(waited) + timeout && clock - old(clock) >= waited - old(waited)
    {
      r := *;
      log := log + [ExitWait(r)];
      var w: nat :| 0 <= w;
      Pass(Min(w, timeout));
    }

    method ReceivePipe(pipe: Pipe, timeout: nat) returns (got: bool)
      modifies this
      ensures log == old(log) + [if got then Drained(pipe) else NotDrained(pipe)]
      ensures old(waited) <= waited <= old(waited) + timeout && clock - old(clock) >= waited - old(waited)
    {
      got := *;
      log := log + [if got then Drained(pipe) else NotDrained(pipe)];
      var w: nat :| 0 <= w;
      Pass(Min(w, timeout));
    }
  }

  function Remaining(deadline: nat, now: nat): nat {
    if deadline > now then deadline - now else 0
  }

  /** Polls the leader until it is reaped, an error, or the grace period ends. */
  method BoundedReap(os: Os) returns (r: Polled)
    modifies os
    ensures os.log == old(os.log) + (if r.Status? then [Reaped(r.status)] else [])
    ensures old(os.waited) <= os.waited <= old(os.waited) + GRACE
  {
    var deadline := os.clock + GRACE;
    while true
      invariant os.log == old(os.log)
      invariant os.clock - old(os.clock) >= os.waited - old(os.waited) >= 0
      invariant os.waited <= old(os.waited) + GRACE
      decreases Remaining(deadline, os.clock)
    {
      r := os.TryWait();
      if !r.Running? {
        return;
      }
      var remaining := Remaining(deadline, os.clock);
      if remaining == 0 {
        return;
      }
      os.Pass(Min(remaining, POLL_SLEEP));
    }
  }

  /** Whether the group has disappeared once its leader is reaped; it has not while a member lives on. */
  method GroupGone(os: Os) returns (gone: bool)
    modifies os
    ensures os.log == old(os.log) + [GroupCheck(gone)]
    ensures old(os.waited) <= os.waited <= old(os.waited) + GRACE
  {
    gone := PollGroup(os);
    os.log := os.log + [GroupCheck(gone)];
  }

  method PollGroup(os: Os) returns (gone: bool)
    modifies os`clock, os`waited
    ensures old(os.waited) <= os.waited <= old(os.waited) + GRACE
  {
    var deadline := os.clock + GRACE;
    while true
      invariant os.clock - old(os.clock) >= os.waited - old(os.waited) >= 0
      invariant os.waited <= old(os.waited) + GRACE
      decreases Remaining(deadline, os.clock)
    {
      var answer := os.ProbeGroup();
      if answer.NoSuchProcess? {
        return true;
      }
      if !answer.NotPermitted? {
        return false;
      }
      var remaining := Remaining(deadline, os.clock);
      if remaining == 0 {
        return false;
      }
      os.Pass(Min(remaining, POLL_SLEEP));
    }
  }

  class ProcessTree {
    const os: Os
    /** Darwin reports EPERM for a group of zombies. */
    const zombieEperm: bool
    var exitSeen: bool
    var reaped: bool

    constructor (os: Os, zombieEperm: bool)
      ensures this.os == os && this.zombieEperm == zombieEperm && !exitSeen && !reaped
    {
      this.os := os;
      this.zombieEperm := zombieEperm;
      exitSeen := false;
      reaped := false;
    }

    /** The flag tells the truth, and no signal was ever sent too late. */
    ghost predicate Valid()
      reads this, os
    {
      Safe(os.log) && (reaped <==> LeaderReaped(os.log))
    }

    method WaitExit(timeout: nat) returns (r: Waited)
      requires Valid()
      modifies this`exitSeen, os
      ensures Valid()
      ensures if old(exitSeen) then os.log == old(os.log) && r.ExitReported? else os.log == old(os.log) + [ExitWait(r)]
      ensures exitSeen == (old(exitSeen) || r.ExitReported?)
      ensures old(os.waited) <= os.waited <= old(os.waited) + timeout
    {
      if exitSeen {
        return ExitReported;
      }
      ghost var before := os.log;
      r := os.ReceiveExit(timeout);
      Extend(before, ExitWait(r));
      if r.ExitReported? {
        exitSeen := true;
      }
    }

    /** Kills the group unless the leader was reaped; `ok` is false when an error is to be reported. */
    method Terminate() returns (ok: bool)
      requires Valid()
      modifies os
      ensures Valid() && os.waited == old(os.waited) && old(os.log) <= os.log
      ensures if reaped then ok && os.log == old(os.log)
              else KillSent(os.log, |old(os.log)|, zombieEperm) && (ok <==> KillWentWell(os.log, |old(os.log)|))
    {
      if reaped {
        return true;
      }
      ghost var before := os.log;
      var result := os.KillGroup();
      Extend(before, GroupKill(result));
      ok := result.Sent? || result.NoSuchProcess?;
      if result.NotPermitted? && zombieEperm {
        before := os.log;
        ok := os.LeaderHasExited();
        Extend(before, LeaderCheck(ok));
      }
    }

    /** The last kill of the group, then the reap. Called once, while the leader is unreaped. */
    method Reap(problems: seq<Problem>) returns (status: Option<int>, more: seq<Problem>)
      requires Valid() && !reaped
      modifies this`reaped, os
      ensures Valid() && old(os.log) <= os.log
      ensures reaped <==> status.Some?
      ensures status.Some? ==> Since(os.log, |old(os.log)|, Reaped(status.value))
      ensures problems <= more
      ensures more == problems <==> status.Some? && CleanEnd(os.log, |old(os.log)|, zombieEperm)
      ensures |os.log| > |old(os.log)| && os.log[|old(os.log)|].GroupKill?
      ensures forall i :: |old(os.log)| < i < |os.log| ==> os.log[i].Reaped? || os.log[i].GroupCheck?
      ensures os.waited <= old(os.waited) + 2 * GRACE
    {
      more := problems;
      ghost var before := os.log;
      var result := os.KillGroup();
      Extend(before, GroupKill(result));
      var unverified := result.NotPermitted? && zombieEperm;
      if !unverified && !result.Sent? && !result.NoSuchProcess? {
        more := more + [FinalTreeKill];
      }
      before := os.log;
      var polled := BoundedReap(os);
      if polled.Status? {
        Extend(before, Reaped(polled.status));
        assert os.log[|before|] == Reaped(polled.status);
        reaped := true;
        if unverified {
          before := os.log;
          var gone := GroupGone(os);
          Extend(before, GroupCheck(gone));
          assert os.log[|before|] == GroupCheck(gone);
          if !gone {
            more := more + [LiveMember];
          }
        }
        return Some(polled.status), more;
      }
      more := more + [if polled.Running? then NotReapedInGrace else LeaderReap];
      if unverified {
        more := more + [EpermUnverified];
      }
      status := None;
    }

    method Drop()
      requires Valid()
      modifies os
      ensures Valid() && old(os.log) <= os.log && os.waited == old(os.waited)
      ensures LeaderReaped(os.log) <==> old(LeaderReaped(os.log))
      ensures if reaped then os.log == old(os.log) else KillSent(os.log, |old(os.log)|, zombieEperm)
    {
      var _ := Terminate();
    }
  }

  /** Kills the group and, when that fails or is made to fail, the leader alone. */
  method KillTree(tree: ProcessTree, injected: bool, problems: seq<Problem>) returns (more: seq<Problem>)
    requires tree.Valid()
    modifies tree.os
    ensures tree.Valid() && old(tree.os.log) <= tree.os.log && tree.os.waited == old(tree.os.waited)
    ensures forall i :: |old(tree.os.log)| <= i < |tree.os.log| ==>
              tree.os.log[i].GroupKill? || tree.os.log[i].LeaderCheck? || tree.os.log[i].ChildKill?
    ensures !tree.reaped ==> |tree.os.log| > |old(tree.os.log)|
    ensures NoFallback(tree.os.log, |old(tree.os.log)|) <==>
              !injected && (tree.reaped || KillWentWell(tree.os.log, |old(tree.os.log)|))
    ensures more == problems + FallbackProblems(tree.os.log, |old(tree.os.log)|)
  {
    more := problems;
    ghost var start := |tree.os.log|;
    var ok := false;
    if !injected {
      ok := tree.Terminate();
    }
    if !ok {
      more := more + [TreeKill];
      ghost var before := tree.os.log;
      var killed := tree.os.KillChild();
      Extend(before, ChildKill(killed));
      FellBack(before, killed, start);
      if !killed {
        more := more + [ChildKillFailed];
      }
    } else {
      assert NoFallback(tree.os.log, start);
    }
  }

  lemma FellBack(before: seq<Event>, killed: bool, start: nat)
    requires start <= |before| && forall i :: start <= i < |before| ==> !before[i].ChildKill?
    ensures !NoFallback(before + [ChildKill(killed)], start)
    ensures Since(before + [ChildKill(killed)], start, ChildKill(false)) <==> !killed
  {
    var log := before + [ChildKill(killed)];
    assert log[|before|] == ChildKill(killed);
    assert forall i :: 0 <= i < |before| ==> log[i] == before[i];
  }

  /** What a pipe delivers in the end: nothing for a missing pipe. */
  function PipeContent(calls: Option<seq<ReadResult>>, limit: Option<nat>): seq<Byte> {
    if calls.None? then [] else Kept(Stream(calls.value), limit)
  }

  /** The supervisor's end of a reader thread. */
  class PipeReader {
    const pipe: Pipe
    const started: bool
    ghost const source: seq<Byte>
    const sent: seq<Byte>
    var bytes: Option<seq<Byte>>

    ghost predicate Valid()
      reads this
    {
      sent == source && (bytes.Some? ==> started && bytes.value == source)
    }

    /** The thread may fail to start; otherwise it reads the whole pipe and sends what it keeps. */
    constructor (pipe: Pipe, calls: Option<seq<ReadResult>>, limit: Option<nat>)
      ensures Valid() && bytes.None? && this.pipe == pipe && source == PipeContent(calls, limit)
    {
      this.pipe := pipe;
      var content: seq<Byte> := [];
      if calls.Some? {
        if limit.Some? {
          content := ReadBounded(calls.value, limit.value);
        } else {
          content := Stream(calls.value);
        }
      }
      source := PipeContent(calls, limit);
      sent := content;
      started := *;
      bytes := None;
    }

    /** A started reader that has not delivered. */
    ghost function LateProblems(): seq<Problem>
      reads this
    {
      if started && bytes.None? then [DrainTimedOut(pipe)] else []
    }

    /** Waits until the deadline for the bytes; true when they are still missing. */
    method Collect(os: Os, deadline: nat) returns (pending: bool)
      requires Valid() && Safe(os.log)
      modifies this, os
      ensures Valid() && Safe(os.log) && old(os.log) <= os.log
      ensures LeaderReaped(os.log) <==> old(LeaderReaped(os.log))
      ensures forall i :: |old(os.log)| <= i < |os.log| ==> os.log[i] == Drained(pipe) || os.log[i] == NotDrained(pipe)
      ensures pending <==> started && bytes.None?
      ensures old(bytes.Some?) ==> bytes.Some?
      ensures Since(os.log, |old(os.log)|, Drained(pipe)) <==> bytes.Some? && old(bytes.None?)
      ensures old(os.waited) <= os.waited <= old(os.waited) + Remaining(deadline, old(os.clock))
      ensures os.clock - old(os.clock) >= os.waited - old(os.waited)
    {
      if !started || bytes.Some? {
        return false;
      }
      ghost var before := os.log;
      var got := os.ReceivePipe(pipe, Remaining(deadline, os.clock));
      Extend(before, if got then Drained(pipe) else NotDrained(pipe));
      if got {
        bytes := Some(sent);
        assert os.log[|before|] == Drained(pipe);
      }
      pending := !got;
    }
  }

  datatype Outcome = Exited | TimedOut | Broken

  datatype Faults = Faults(failTreeKill: bool, failWait: bool)

  datatype Result =
    | Success(status: int, stdout: seq<Byte>, stderr: seq<Byte>)
    | TimeoutError(problems: seq<Problem>)
    | FailedError(problems: seq<Problem>)
    | TeardownIncomplete(problems: seq<Problem>)
    | StatusUnavailable

  /** First wait: how the run is going to be reported. */
  method Observe(tree: ProcessTree, started: bool, timeout: nat, faults: Faults) returns (outcome: Outcome)
    requires tree.Valid() && !tree.exitSeen
    modifies tree`exitSeen, tree.os
    ensures tree.Valid() && old(tree.os.log) <= tree.os.log
    ensures tree.os.waited <= old(tree.os.waited) + timeout && tree.exitSeen == outcome.Exited?
    ensures !started || faults.failWait ==> outcome.Broken? && tree.os.log == old(tree.os.log)
    ensures started && !faults.failWait ==>
              exists r :: tree.os.log == old(tree.os.log) + [ExitWait(r)] && (outcome.Exited? <==> r.ExitReported?) && (outcome.TimedOut? <==> r.WaitTimedOut?)
  {
    if !started || faults.failWait {
      return Broken;
    }
    var r := tree.WaitExit(timeout);
    outcome := match r
               case ExitReported => Exited
               case WaitTimedOut => TimedOut
               case _ => Broken;
  }

  /** Without an exit in time: kill, then wait for the leader once more. */
  method StopLeader(tree: ProcessTree, faults: Faults) returns (problems: seq<Problem>)
    requires tree.Valid() && !tree.reaped && !tree.exitSeen
    modifies tree`exitSeen, tree.os
    ensures tree.Valid() && old(tree.os.log) <= tree.os.log
    ensures tree.os.waited <= old(tree.os.waited) + GRACE
    ensures |tree.os.log| > |old(tree.os.log)| + 1 && !tree.os.log[|old(tree.os.log)|].ExitWait?
    ensures var last := tree.os.log[|tree.os.log| - 1];
            last.ExitWait? && problems == FallbackProblems(tree.os.log, |old(tree.os.log)|) + WaitProblems(last.answer)
  {
    ghost var start := |tree.os.log|;
    problems := KillTree(tree, faults.failTreeKill, []);
    ghost var killed := tree.os.log;
    var r := tree.WaitExit(GRACE);
    WaitChangesNothing(killed, ExitWait(r), start);
    if r.WaitTimedOut? {
      problems := problems + [NoExitInGrace];
    } else if !r.ExitReported? {
      problems := problems + [LeaderWait];
    }
  }

  lemma WaitChangesNothing(log: seq<Event>, e: Event, start: nat)
    requires start <= |log| && !e.ChildKill?
    ensures FallbackProblems(log + [e], start) == FallbackProblems(log, start)
  {
    FallbackSplit(log, log + [e], start);
    SinceSplit(log, log + [e], start, ChildKill(false));
  }

  datatype Drains = Drains(outPending: bool, errPending: bool)

  /** Both pipes against one deadline. */
  method CollectBoth(os: Os, out: PipeReader, err: PipeReader) returns (drains: Drains)
    requires out != err && out.pipe != err.pipe && out.Valid() && err.Valid() && Safe(os.log)
    modifies os, out, err
    ensures out.Valid() && err.Valid() && Safe(os.log) && old(os.log) <= os.log
    ensures LeaderReaped(os.log) <==> old(LeaderReaped(os.log))
    ensures os.waited <= old(os.waited) + GRACE
    ensures NoFallback(os.log, |old(os.log)|)
    ensures drains.outPending <==> out.started && out.bytes.None?
    ensures drains.errPending <==> err.started && err.bytes.None?
    ensures forall i :: |old(os.log)| <= i < |os.log| ==> os.log[i].Drained? || os.log[i].NotDrained?
    ensures Since(os.log, |old(os.log)|, Drained(out.pipe)) <==> out.bytes.Some? && old(out.bytes.None?)
    ensures Since(os.log, |old(os.log)|, Drained(err.pipe)) <==> err.bytes.Some? && old(err.bytes.None?)
    ensures old(out.bytes.Some?) ==> out.bytes.Some?
    ensures old(err.bytes.Some?) ==> err.bytes.Some?
  {
    var deadline := os.clock + GRACE;
    ghost var start := |os.log|;
    var outPending := out.Collect(os, deadline);
    ghost var middle := os.log;
    var errPending := err.Collect(os, deadline);
    SinceSplit(middle, os.log, start, Drained(out.pipe));
    SinceSplit(middle, os.log, start, Drained(err.pipe));
    FallbackSplit(middle, os.log, start);
    drains := Drains(outPending, errPending);
  }

  /** A kill between two drains is all there is to report about kills. */
  lemma DrainsKillNothing(first: seq<Event>, killed: seq<Event>, last: seq<Event>, start: nat)
    requires start <= |first| && first <= killed <= last && NoFallback(first, start) && NoFallback(last, |killed|)
    ensures FallbackProblems(last, start) == FallbackProblems(killed, |first|)
  {
    FallbackSplit(first, killed, start);
    FallbackSplit(killed, last, start);
    SinceSplit(first, killed, start, ChildKill(false));
    SinceSplit(killed, last, start, ChildKill(false));
  }

  /** Drains both pipes; after a clean exit a late pipe is retried once behind a kill. */
  method Drain(tree: ProcessTree, exited: bool, out: PipeReader, err: PipeReader, faults: Faults, before: seq<Problem>)
    returns (problems: seq<Problem>)
    requires out != err && out.pipe != err.pipe && out.Valid() && err.Valid() && tree.Valid()
    requires out.bytes.None? && err.bytes.None? && (exited ==> out.started && err.started)
    modifies tree.os, out, err
    ensures out.Valid() && err.Valid() && tree.Valid()
    ensures old(tree.os.log) <= tree.os.log && before <= problems
    ensures tree.os.waited <= old(tree.os.waited) + (if exited then 2 else 1) * GRACE
    ensures problems == before + FallbackProblems(tree.os.log, |old(tree.os.log)|) + out.LateProblems() + err.LateProblems()
    ensures !exited ==> NoFallback(tree.os.log, |old(tree.os.log)|)
    ensures out.bytes.Some? <==> Since(tree.os.log, |old(tree.os.log)|, Drained(out.pipe))
    ensures err.bytes.Some? <==> Since(tree.os.log, |old(tree.os.log)|, Drained(err.pipe))
  {
    var os := tree.os;
    ghost var start := |os.log|;
    problems := before;
    var drains := CollectBoth(os, out, err);
    if exited && (drains.outPending || drains.errPending) {
      ghost var first := os.log;
      problems := KillTree(tree, faults.failTreeKill, problems);
      ghost var killed := os.log;
      drains := CollectBoth(os, out, err);
      assert first <= os.log;
      SinceSplit(first, killed, start, Drained(out.pipe));
      SinceSplit(first, killed, start, Drained(err.pipe));
      SinceSplit(killed, os.log, start, Drained(out.pipe));
      SinceSplit(killed, os.log, start, Drained(err.pipe));
      DrainsKillNothing(first, killed, os.log, start);
    }
    if drains.outPending {
      problems := problems + [DrainTimedOut(out.pipe)];
    }
    if drains.errPending {
      problems := problems + [DrainTimedOut(err.pipe)];
    }
  }

  /** The reap's own kill is the only place where a clean end can start. */
  lemma OnlyEnd(before: seq<Event>, log: seq<Event>, start: nat, zombieEperm: bool)
    requires before <= log && |before| < |log| && log[|before|].GroupKill? && start <= |before|
    requires forall i :: |before| < i < |log| ==> log[i].Reaped? || log[i].GroupCheck?
    ensures (exists final :: start <= final && CleanEnd(log, final, zombieEperm)) <==> CleanEnd(log, |before|, zombieEperm)
    ensures NoFallback(log, start) <==> NoFallback(before, start)
  {
    if final :| start <= final && CleanEnd(log, final, zombieEperm) {
      assert final >= |before|;
    }
    if NoFallback(log, start) {
      forall i | start <= i < |before| ensures !before[i].ChildKill? {
        assert log[i] == before[i];
      }
    }
  }

  /** The report of the exit itself drains nothing and kills nothing. */
  lemma AfterExit(before: seq<Event>, exited: seq<Event>, later: seq<Event>)
    requires exited == before + [ExitWait(ExitReported)] && exited <= later
    ensures NoFallback(later, |before|) <==> NoFallback(later, |exited|)
    ensures forall pipe :: Since(later, |before|, Drained(pipe)) <==> Since(later, |exited|, Drained(pipe))
  {
    assert later[|before|] == ExitWait(ExitReported);
  }

  /** The reap drains nothing. */
  lemma NoDrainAfter(before: seq<Event>, later: seq<Event>, start: nat)
    requires before <= later && start <= |before| && |before| < |later| && later[|before|].GroupKill?
    requires forall i :: |before| < i < |later| ==> later[i].Reaped? || later[i].GroupCheck?
    ensures forall pipe :: Since(later, start, Drained(pipe)) <==> Since(before, start, Drained(pipe))
  {
    forall pipe ensures Since(later, start, Drained(pipe)) <==> Since(before, start, Drained(pipe)) {
      SinceSplit(before, later, start, Drained(pipe));
    }
  }

  /** Both pipes delivered, no kill fell back, the leader was reaped and the final kill was clean. */
  ghost predicate CleanRun(log: seq<Event>, start: nat, zombieEperm: bool) {
    && Since(log, start, Drained(Stdout)) && Since(log, start, Drained(Stderr))
    && NoFallback(log, start) && LeaderReaped(log)
    && exists final :: start <= final && CleanEnd(log, final, zombieEperm)
  }

  /** How the first event of a run decides its outcome. */
  function OutcomeOf(first: Event): Outcome {
    if first == ExitWait(ExitReported) then Exited
    else if first == ExitWait(WaitTimedOut) then TimedOut
    else Broken
  }

  /** Waits, kills and drains: everything before the final reap. */
  method WindDown(tree: ProcessTree, out: PipeReader, err: PipeReader, timeout: nat, faults: Faults)
    returns (outcome: Outcome, problems: seq<Problem>)
    requires tree.Valid() && !tree.reaped && !tree.exitSeen
    requires out != err && out.pipe == Stdout && err.pipe == Stderr && out.Valid() && err.Valid()
    requires out.bytes.None? && err.bytes.None?
    modifies tree`exitSeen, tree.os, out, err
    ensures tree.Valid() && out.Valid() && err.Valid()
    ensures |tree.os.log| > |old(tree.os.log)| && old(tree.os.log) <= tree.os.log
    ensures outcome == OutcomeOf(tree.os.log[|old(tree.os.log)|])
    ensures faults.failWait ==> outcome.Broken?
    ensures tree.os.waited <= old(tree.os.waited) + timeout + 2 * GRACE
    ensures outcome.Exited? ==>
              (problems == [] <==> out.bytes.Some? && err.bytes.Some? && NoFallback(tree.os.log, |old(tree.os.log)|))
    ensures outcome.Exited? ==> (out.bytes.Some? <==> Since(tree.os.log, |old(tree.os.log)|, Drained(Stdout)))
    ensures outcome.Exited? ==> (err.bytes.Some? <==> Since(tree.os.log, |old(tree.os.log)|, Drained(Stderr)))
  {
    hide Since, NoFallback, Safe, LeaderReaped;
    ghost var start := |tree.os.log|;
    outcome := Observe(tree, out.started && err.started, timeout, faults);
    problems := [];
    if !outcome.Exited? {
      problems := StopLeader(tree, faults);
    }
    ghost var stopped := tree.os.log;
    problems := Drain(tree, outcome.Exited?, out, err, faults, problems);
    if outcome.Exited? {
      AfterExit(stopped[..start], stopped, tree.os.log);
    }
  }

  method SuperviseInner(tree: ProcessTree, stdout: Option<seq<ReadResult>>, stderr: Option<seq<ReadResult>>,
                        timeout: nat, faults: Faults, limit: Option<nat>)
    returns (r: Result, problems: seq<Problem>)
    requires tree.Valid() && !tree.reaped && !tree.exitSeen
    modifies tree, tree.os
    ensures tree.Valid() && old(tree.os.log) <= tree.os.log && |tree.os.log| > |old(tree.os.log)|
    ensures tree.os.waited <= old(tree.os.waited) + timeout + 4 * GRACE
    ensures var outcome := OutcomeOf(tree.os.log[|old(tree.os.log)|]);
            && (r.Success? <==> outcome.Exited? && CleanRun(tree.os.log, |old(tree.os.log)|, tree.zombieEperm))
            && (r.TeardownIncomplete? <==> outcome.Exited? && !CleanRun(tree.os.log, |old(tree.os.log)|, tree.zombieEperm))
            && (r.TimeoutError? <==> outcome.TimedOut?)
            && (r.FailedError? <==> outcome.Broken?)
            && !r.StatusUnavailable?
    ensures if r.Success? then problems == [] else r.problems == problems
    ensures r.Success? ==> Since(tree.os.log, |old(tree.os.log)|, Reaped(r.status))
    ensures r.Success? ==> r.stdout == PipeContent(stdout, limit) && r.stderr == PipeContent(stderr, limit)
    ensures faults.failWait ==> r.FailedError?
  {
    hide Since, NoFallback, Kept, Stream, Safe;
    var os := tree.os;
    ghost var start := |os.log|;
    var out := new PipeReader(Stdout, stdout, limit);
    var err := new PipeReader(Stderr, stderr, limit);
    var outcome;
    outcome, problems := WindDown(tree, out, err, timeout, faults);
    ghost var drained := os.log;
    var status;
    status, problems := tree.Reap(problems);
    OnlyEnd(drained, os.log, start, tree.zombieEperm);
    NoDrainAfter(drained, os.log, start);
    if status.Some? {
      SinceSplit(drained, os.log, start, Reaped(status.value));
    }
    hide CleanEnd;
    match outcome
    case TimedOut => r := TimeoutError(problems);
    case Broken => r := FailedError(problems);
    case Exited =>
      if problems != [] {
        r := TeardownIncomplete(problems);
      } else if status.Some? {
        r := Success(status.value, if out.bytes.Some? then out.bytes.value else [], if err.bytes.Some? then err.bytes.value else []);
      } else {
        r := StatusUnavailable;
      }
  }

  /** Starts the process and its waiter thread. When the thread cannot start, the group and the
      leader are killed and the leader is reaped, and no tree is left to drop. */
  method Spawn(os: Os, zombieEperm: bool) returns (tree: ProcessTree?, cleanup: seq<Problem>)
    requires os.log == []
    modifies os
    ensures Safe(os.log) && os.waited <= old(os.waited) + GRACE
    ensures tree != null ==>
              && fresh(tree) && tree.os == os && tree.zombieEperm == zombieEperm && tree.Valid()
              && !tree.reaped && !tree.exitSeen && os.log == [] && os.waited == old(os.waited)
    ensures tree == null && os.log != [] ==>
              (cleanup == [] <==> |os.log| == 3 && os.log[0] == GroupKill(Sent) && os.log[1] == ChildKill(true) && os.log[2].Reaped?)
  {
    tree, cleanup := null, [];
    var spawned: bool := *;
    if !spawned {
      return;
    }
    var waiterStarted: bool := *;
    if waiterStarted {
      tree := new ProcessTree(os, zombieEperm);
      return;
    }
    var result := os.KillGroup();
    var killed := os.KillChild();
    if !result.Sent? {
      cleanup := cleanup + [TreeKill];
    }
    if !killed {
      cleanup := cleanup + [ChildKillFailed];
    }
    var polled := BoundedReap(os);
    if !polled.Status? {
      cleanup := cleanup + [if polled.Running? then NotReapedInGrace else LeaderReap];
    }
  }

  /** Every life of a process tree: failed startup, dropped at once, or supervised and dropped. */
  method Lifecycle(os: Os, zombieEperm: bool, supervised: bool, stdout: Option<seq<ReadResult>>, stderr: Option<seq<ReadResult>>,
                   timeout: nat, faults: Faults, limit: Option<nat>)
    returns (r: Option<Result>)
    requires os.log == []
    modifies os
    ensures Safe(os.log)
    ensures os.waited <= old(os.waited) + timeout + 4 * GRACE
  {
    hide Safe, LeaderReaped, CleanRun;
    r := None;
    var tree, cleanup := Spawn(os, zombieEperm);
    if tree == null {
      return;
    }
    if supervised {
      var result, problems := SuperviseInner(tree, stdout, stderr, timeout, faults, limit);
      r := Some(result);
    }
    tree.Drop();
  }

  /** The guard in `Drop` is needed: killing the group once more after the reap would not be safe. */
  lemma LateKillIsUnsafe(log: seq<Event>, answer: Signalled)
    requires LeaderReaped(log)
    ensures !Safe(log + [GroupKill(answer)])
  {
    var i :| 0 <= i < |log| && log[i].Reaped?;
    var more := log + [GroupKill(answer)];
    assert more[i].Reaped? && more[|log|].GroupKill?;
  }
}
