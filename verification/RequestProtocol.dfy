/**
  The request and close protocol of the Node client: a fair reader-writer lock
  around the optional client, a versioned shutdown flag, and two biased selects
  per request. Any number of requests and closes run interleaved; one poll of a
  select is two steps, because the flag can be signalled between its arms.
 */
module RequestProtocol {

  datatype LockWait = NotQueued | Queued | Granted

  datatype Outcome = Closed | Finished | Cancelled

  datatype Request =
    | Fresh
    | Admission(seen: nat, wait: LockWait)      // suspended in the first select
    | PollingLock(seen: nat, granted: bool)     // flag found unchanged, about to poll the lock
    | HasGuard(seen: nat)                       // read guard obtained, flag not re-read yet
    | Running(seen: nat)                        // suspended in the second select, guard held
    | PollingOperation(seen: nat)               // flag found unchanged, about to poll the operation
    | Done(outcome: Outcome)

  datatype Closer =
    | Unused
    | Signalled                                 // flag sent, write lock not requested yet
    | WriteQueued
    | WriteHeld
    | Ended(took: bool)

  datatype Waiter = Reader(r: nat) | Writer(c: nat)

  datatype State = State(
    senderAlive: bool,
    flag: bool,
    version: nat,
    client: bool,
    queue: seq<Waiter>,
    requests: seq<Request>,
    closers: seq<Closer>)

  datatype Step =
    | Subscribe(r: nat)
    | PollFlagFirst(r: nat)
    | PollLock(r: nat)
    | Admit(r: nat)
    | PollFlagSecond(r: nat)
    | PollOperation(r: nat, ready: bool)
    | Cancel(r: nat)
    | Close(c: nat)
    | PollWrite(c: nat)
    | Grant
    | Take(c: nat)
    | AbandonClose(c: nat)
    | DropSender

  predicate HoldsRead(q: Request) {
    || (q.Admission? && q.wait.Granted?)
    || (q.PollingLock? && q.granted)
    || q.HasGuard? || q.Running? || q.PollingOperation?
  }

  predicate Active(q: Request) {
    !q.Fresh? && !q.Done?
  }

  ghost predicate ReaderHolds(s: State) {
    exists r :: 0 <= r < |s.requests| && HoldsRead(s.requests[r])
  }

  ghost predicate WriterHolds(s: State) {
    exists c :: 0 <= c < |s.closers| && s.closers[c].WriteHeld?
  }

  /** `changed()` is ready: a newer version, or the sender is gone. */
  predicate Changed(s: State, seen: nat) {
    seen != s.version || !s.senderAlive
  }

  function Remove(queue: seq<Waiter>, x: Waiter): seq<Waiter> {
    if queue == [] then []
    else if queue[0] == x then Remove(queue[1..], x)
    else [queue[0]] + Remove(queue[1..], x)
  }

  ghost predicate Enabled(s: State, step: Step) {
    match step
    case Subscribe(r) => s.senderAlive && r < |s.requests| && s.requests[r].Fresh?
    // A poll that finds both arms pending changes nothing and is not a step.
    case PollFlagFirst(r) =>
      r < |s.requests| && s.requests[r].Admission? && (Changed(s, s.requests[r].seen) || !s.requests[r].wait.Queued?)
    case PollLock(r) => r < |s.requests| && s.requests[r].PollingLock?
    case Admit(r) => r < |s.requests| && s.requests[r].HasGuard?
    case PollFlagSecond(r) => r < |s.requests| && s.requests[r].Running?
    case PollOperation(r, _) => r < |s.requests| && s.requests[r].PollingOperation?
    case Cancel(r) => r < |s.requests| && Active(s.requests[r])
    case Close(c) => s.senderAlive && c < |s.closers| && s.closers[c].Unused?
    case PollWrite(c) => c < |s.closers| && s.closers[c].Signalled?
    case Grant =>
      && s.queue != [] && !WriterHolds(s)
      && (s.queue[0].Writer? ==> !ReaderHolds(s))
      && (match s.queue[0]
          case Reader(r) => r < |s.requests| && s.requests[r].Admission?
          case Writer(c) => c < |s.closers|)
    case Take(c) => c < |s.closers| && s.closers[c].WriteHeld?
    case AbandonClose(c) =>
      c < |s.closers| && (s.closers[c].Signalled? || s.closers[c].WriteQueued? || s.closers[c].WriteHeld?)
    case DropSender => s.senderAlive
  }

  function SetRequest(s: State, r: nat, q: Request): State
    requires r < |s.requests|
  {
    s.(requests := s.requests[r := q])
  }

  function SetCloser(s: State, c: nat, k: Closer): State
    requires c < |s.closers|
  {
    s.(closers := s.closers[c := k])
  }

  /** Leaving the first select drops the lock future: its queue entry or its grant. */
  function Finish(s: State, r: nat, outcome: Outcome): State
    requires r < |s.requests|
  {
    SetRequest(s, r, Done(outcome)).(queue := Remove(s.queue, Reader(r)))
  }

  ghost function Apply(s: State, step: Step): State
    requires Enabled(s, step)
  {
    match step
    case Subscribe(r) => SetRequest(s, r, Admission(s.version, NotQueued))
    case PollFlagFirst(r) =>
      var q := s.requests[r];
      if Changed(s, q.seen) then Finish(s, r, Closed)
      else SetRequest(s, r, PollingLock(q.seen, q.wait.Granted?))
    case PollLock(r) =>
      var q := s.requests[r];
      if q.granted || (s.queue == [] && !WriterHolds(s)) then SetRequest(s, r, HasGuard(q.seen))
      else SetRequest(s, r, Admission(q.seen, Queued)).(queue := s.queue + [Reader(r)])
    case Admit(r) =>
      if s.flag || !s.client then Finish(s, r, Closed) else SetRequest(s, r, Running(s.version))
    case PollFlagSecond(r) =>
      var q := s.requests[r];
      if Changed(s, q.seen) then Finish(s, r, Closed) else SetRequest(s, r, PollingOperation(q.seen))
    case PollOperation(r, ready) =>
      if ready then Finish(s, r, Finished) else SetRequest(s, r, Running(s.requests[r].seen))
    case Cancel(r) => Finish(s, r, Cancelled)
    case Close(c) => SetCloser(s, c, Signalled).(flag := true, version := s.version + 1)
    case PollWrite(c) =>
      if s.queue == [] && !ReaderHolds(s) && !WriterHolds(s) then SetCloser(s, c, WriteHeld)
      else SetCloser(s, c, WriteQueued).(queue := s.queue + [Writer(c)])
    case Grant =>
      var rest := s.(queue := s.queue[1..]);
      if s.queue[0].Reader? then
        var r := s.queue[0].r;
        SetRequest(rest, r, Admission(s.requests[r].seen, Granted))
      else
        SetCloser(rest, s.queue[0].c, WriteHeld)
    case Take(c) => SetCloser(s, c, Ended(s.client)).(client := false)
    case AbandonClose(c) => SetCloser(s, c, Ended(false)).(queue := Remove(s.queue, Writer(c)))
    case DropSender => s.(senderAlive := false)
  }

  ghost predicate Initial(s: State) {
    && s.senderAlive && !s.flag && s.version == 0 && s.client && s.queue == []
    && (forall r :: 0 <= r < |s.requests| ==> s.requests[r].Fresh?)
    && (forall c :: 0 <= c < |s.closers| ==> s.closers[c].Unused?)
  }

  ghost predicate IsRun(states: seq<State>, steps: seq<Step>) {
    && |states| == |steps| + 1
    && Initial(states[0])
    && forall i :: 0 <= i < |steps| ==> Enabled(states[i], steps[i]) && states[i + 1] == Apply(states[i], steps[i])
  }

  // ---- what every step keeps ----

  ghost predicate NoDuplicates(queue: seq<Waiter>) {
    forall i, j :: 0 <= i < j < |queue| ==> queue[i] != queue[j]
  }

  /** The queue holds exactly the suspended lock futures, each once. */
  ghost predicate QueueMatches(s: State) {
    && NoDuplicates(s.queue)
    && (forall r: nat :: Reader(r) in s.queue <==> r < |s.requests| && s.requests[r].Admission? && s.requests[r].wait.Queued?)
    && (forall c: nat :: Writer(c) in s.queue <==> c < |s.closers| && s.closers[c].WriteQueued?)
  }

  /** A writer holds the lock alone. */
  ghost predicate LockExclusive(s: State) {
    && (WriterHolds(s) ==> !ReaderHolds(s))
    && (forall c, d | 0 <= c < |s.closers| && 0 <= d < |s.closers| ::
          s.closers[c].WriteHeld? && s.closers[d].WriteHeld? ==> c == d)
  }

  /** The flag is set exactly after the first close; an admitted request has seen no close. */
  ghost predicate FlagConsistent(s: State) {
    && (s.flag <==> s.version > 0)
    && (forall r :: 0 <= r < |s.requests| && (s.requests[r].Running? || s.requests[r].PollingOperation?) ==>
          s.requests[r].seen == 0 && s.client)
  }

  /** At most one close took the client, and then it is gone. */
  ghost predicate TakenOnce(s: State) {
    && (s.client ==> forall c :: 0 <= c < |s.closers| ==> s.closers[c] != Ended(true))
    && (forall c, d | 0 <= c < |s.closers| && 0 <= d < |s.closers| ::
          s.closers[c] == Ended(true) && s.closers[d] == Ended(true) ==> c == d)
  }

  ghost predicate Inv(s: State) {
    QueueMatches(s) && LockExclusive(s) && FlagConsistent(s) && TakenOnce(s)
  }

  lemma {:induction false} RemoveKeeps(queue: seq<Waiter>, x: Waiter)
    requires NoDuplicates(queue)
    ensures NoDuplicates(Remove(queue, x))
    ensures forall y :: y in Remove(queue, x) <==> y in queue && y != x
  {
    if queue != [] {
      RemoveKeeps(queue[1..], x);
      RemoveHead(queue);
      var rest := Remove(queue[1..], x);
      assert queue[0] !in rest;
      assert queue == [queue[0]] + queue[1..];
      assert NoDuplicates([queue[0]] + rest);
    }
  }

  predicate IsQueued(q: Request) {
    q.Admission? && q.wait.Queued?
  }

  lemma QueueAfterRequest(s: State, s': State, r: nat)
    requires QueueMatches(s) && r < |s.requests| == |s'.requests|
    requires s'.requests == s.requests[r := s'.requests[r]]
    requires forall c: nat :: c < |s'.closers| && s'.closers[c].WriteQueued? <==> c < |s.closers| && s.closers[c].WriteQueued?
    requires
      || (!IsQueued(s'.requests[r]) && s'.queue == Remove(s.queue, Reader(r)))
      || (!IsQueued(s.requests[r]) && !IsQueued(s'.requests[r]) && s'.queue == s.queue)
      || (!IsQueued(s.requests[r]) && IsQueued(s'.requests[r]) && s'.queue == s.queue + [Reader(r)])
    ensures QueueMatches(s')
  {
    RemoveKeeps(s.queue, Reader(r));
  }

  lemma QueueAfterCloser(s: State, s': State, c: nat)
    requires QueueMatches(s) && c < |s.closers| == |s'.closers| && s'.requests == s.requests
    requires s'.closers == s.closers[c := s'.closers[c]]
    requires
      || (!s'.closers[c].WriteQueued? && s'.queue == Remove(s.queue, Writer(c)))
      || (!s.closers[c].WriteQueued? && !s'.closers[c].WriteQueued? && s'.queue == s.queue)
      || (!s.closers[c].WriteQueued? && s'.closers[c].WriteQueued? && s'.queue == s.queue + [Writer(c)])
    ensures QueueMatches(s')
  {
    RemoveKeeps(s.queue, Writer(c));
  }

  lemma {:induction false} RemoveAbsent(queue: seq<Waiter>, x: Waiter)
    requires x !in queue
    ensures Remove(queue, x) == queue
  {
    if queue != [] {
      RemoveAbsent(queue[1..], x);
    }
  }

  lemma RemoveFront(queue: seq<Waiter>)
    requires queue != [] && NoDuplicates(queue)
    ensures Remove(queue, queue[0]) == queue[1..]
  {
    RemoveHead(queue);
    RemoveAbsent(queue[1..], queue[0]);
  }

  function RequestOf(step: Step): int {
    match step
    case Subscribe(r) => r
    case PollFlagFirst(r) => r
    case PollLock(r) => r
    case Admit(r) => r
    case PollFlagSecond(r) => r
    case PollOperation(r, _) => r
    case Cancel(r) => r
    case _ => -1
  }

  function CloserOf(step: Step): int {
    match step
    case Close(c) => c
    case PollWrite(c) => c
    case Take(c) => c
    case AbandonClose(c) => c
    case _ => -1
  }

  lemma QueueKept(s: State, step: Step)
    requires QueueMatches(s) && Enabled(s, step)
    ensures QueueMatches(Apply(s, step))
  {
    var s' := Apply(s, step);
    if RequestOf(step) >= 0 {
      QueueAfterRequest(s, s', RequestOf(step));
    } else if CloserOf(step) >= 0 {
      QueueAfterCloser(s, s', CloserOf(step));
    } else if step.Grant? {
      RemoveFront(s.queue);
      if s.queue[0].Reader? {
        QueueAfterRequest(s, s', s.queue[0].r);
      } else {
        QueueAfterCloser(s, s', s.queue[0].c);
      }
    }
  }

  lemma RemoveHead(queue: seq<Waiter>)
    requires queue != [] && NoDuplicates(queue)
    ensures forall y :: y in queue[1..] <==> y in queue && y != queue[0]
  {
    forall y | y in queue[1..]
      ensures y in queue && y != queue[0]
    {
      var k :| 0 <= k < |queue[1..]| && queue[1..][k] == y;
      assert queue[k + 1] == y;
    }
  }

  lemma LockKept(s: State, step: Step)
    requires QueueMatches(s) && LockExclusive(s) && Enabled(s, step)
    ensures LockExclusive(Apply(s, step))
  {
    if step.PollLock? || step.Grant? || step.PollWrite? {
      LockAcquired(s, step);
    } else {
      ReadersShrink(s, step);
      WritersShrink(s, step);
      hide Apply, Enabled;
    }
  }

  lemma ReadersShrink(s: State, step: Step)
    requires Enabled(s, step) && !step.PollLock? && !step.Grant?
    ensures var s' := Apply(s, step);
            && |s'.requests| == |s.requests|
            && (forall r :: 0 <= r < |s'.requests| && HoldsRead(s'.requests[r]) ==> HoldsRead(s.requests[r]))
  {
    hide Remove, ReaderHolds, WriterHolds, Changed;
    if RequestOf(step) < 0 {
      assert Apply(s, step).requests == s.requests;
    } else {
      var r := RequestOf(step);
      assert Apply(s, step).requests == s.requests[r := Apply(s, step).requests[r]];
    }
  }

  lemma WritersShrink(s: State, step: Step)
    requires Enabled(s, step) && !step.PollWrite? && !step.Grant?
    ensures var s' := Apply(s, step);
            && |s'.closers| == |s.closers|
            && (forall c :: 0 <= c < |s'.closers| && s'.closers[c].WriteHeld? ==> s.closers[c].WriteHeld?)
  {
    hide Remove, ReaderHolds, WriterHolds, Changed, HoldsRead;
    if CloserOf(step) < 0 {
      assert Apply(s, step).closers == s.closers;
    } else {
      var c := CloserOf(step);
      assert Apply(s, step).closers == s.closers[c := Apply(s, step).closers[c]];
    }
  }

  lemma LockAcquired(s: State, step: Step)
    requires QueueMatches(s) && LockExclusive(s) && Enabled(s, step)
    requires step.PollLock? || step.Grant? || step.PollWrite?
    ensures LockExclusive(Apply(s, step))
  {
  }

  lemma FlagKeptElsewhere(s: State, step: Step)
    requires FlagConsistent(s) && Enabled(s, step) && !step.Take?
    ensures FlagConsistent(Apply(s, step))
  {
    hide Remove, ReaderHolds, WriterHolds, Changed, HoldsRead;
  }

  lemma FlagKept(s: State, step: Step)
    requires LockExclusive(s) && FlagConsistent(s) && Enabled(s, step)
    ensures FlagConsistent(Apply(s, step))
  {
    hide Remove, Changed;
    if step.Take? {
      assert WriterHolds(s) by { assert s.closers[step.c].WriteHeld?; }
      assert forall r :: 0 <= r < |s.requests| ==> !HoldsRead(s.requests[r]);
    } else {
      FlagKeptElsewhere(s, step);
      hide Apply, Enabled, FlagConsistent;
    }
  }

  lemma TakenKept(s: State, step: Step)
    requires TakenOnce(s) && Enabled(s, step)
    ensures TakenOnce(Apply(s, step))
  {
    hide Remove, ReaderHolds, WriterHolds, Changed;
  }

  lemma RunLength(states: seq<State>, steps: seq<Step>)
    requires IsRun(states, steps)
    ensures |states| == |steps| + 1
  {
  }

  lemma RunStep(states: seq<State>, steps: seq<Step>, i: nat)
    requires IsRun(states, steps) && i < |steps|
    ensures |states| == |steps| + 1
    ensures Enabled(states[i], steps[i]) && states[i + 1] == Apply(states[i], steps[i])
  {
  }

  lemma InitialInv(states: seq<State>, steps: seq<Step>)
    requires IsRun(states, steps)
    ensures |states| > 0 && Inv(states[0])
  {
  }

  lemma {:induction false} InvHolds(states: seq<State>, steps: seq<Step>, i: nat)
    requires IsRun(states, steps) && i < |states|
    ensures Inv(states[i])
  {
    hide IsRun, Apply, Enabled, QueueMatches, LockExclusive, FlagConsistent, TakenOnce;
    RunLength(states, steps);
    if i == 0 {
      InitialInv(states, steps);
    } else {
      InvHolds(states, steps, i - 1);
      RunStep(states, steps, i - 1);
      QueueKept(states[i - 1], steps[i - 1]);
      LockKept(states[i - 1], steps[i - 1]);
      FlagKept(states[i - 1], steps[i - 1]);
      TakenKept(states[i - 1], steps[i - 1]);
    }
  }

  // ---- safety over whole runs ----

  lemma MonotoneStep(s: State, step: Step)
    requires Enabled(s, step)
    ensures var s' := Apply(s, step);
            && (s.flag ==> s'.flag) && (s'.client ==> s.client)
            && |s'.requests| == |s.requests| && |s'.closers| == |s.closers|
  {
    hide Remove, ReaderHolds, WriterHolds, Changed;
  }

  lemma {:induction false} Monotone(states: seq<State>, steps: seq<Step>, i: nat, j: nat)
    requires IsRun(states, steps) && i <= j < |states|
    ensures states[i].flag ==> states[j].flag
    ensures states[j].client ==> states[i].client
    ensures |states[i].requests| == |states[j].requests| && |states[i].closers| == |states[j].closers|
    decreases j
  {
    hide IsRun, Apply, Enabled;
    RunLength(states, steps);
    if i < j {
      Monotone(states, steps, i, j - 1);
      RunStep(states, steps, j - 1);
      MonotoneStep(states[j - 1], steps[j - 1]);
    }
  }

  /** The client is taken at most once, and never while a request holds a read guard. */
  lemma ClientTakenOnce(states: seq<State>, steps: seq<Step>, i: nat, j: nat, c: nat, d: nat)
    requires IsRun(states, steps) && i <= j < |steps|
    requires steps[i] == Take(c) && steps[j] == Take(d)
    ensures !ReaderHolds(states[i])
    ensures states[i].client && states[j].client ==> i == j
  {
    InvHolds(states, steps, i);
    RunStep(states, steps, i);
    if i < j {
      Monotone(states, steps, i + 1, j);
    }
  }

  lemma AfterSignalStep(s: State, step: Step, r: nat)
    requires Inv(s) && s.flag && Enabled(s, step) && r < |s.requests|
    ensures var q, q' := s.requests[r], Apply(s, step).requests[r];
            && (q'.PollingOperation? ==> q' == q && RequestOf(step) != r)
            && (q'.Running? ==> q.Running? || q.PollingOperation?)
            && (q' == Done(Finished) ==> q == q' || q.PollingOperation?)
  {
  }

  /**
    Once the flag is signalled no poll that begins afterwards polls an operation:
    a request found polling its operation has been in that very poll since the
    signal, one that was not admitted never is, and only an operation polled
    across the signal can still finish.
   */
  lemma {:induction false} AfterSignal(states: seq<State>, steps: seq<Step>, i: nat, j: nat, r: nat)
    requires IsRun(states, steps) && i <= j < |states| && states[i].flag && r < |states[i].requests|
    ensures r < |states[j].requests|
    ensures var before, now := states[i].requests[r], states[j].requests[r];
            && (now.PollingOperation? ==> now == before && forall k :: i <= k < j ==> RequestOf(steps[k]) != r)
            && (now.Running? ==> before.Running? || before.PollingOperation?)
            && (now == Done(Finished) ==> before == now || before.PollingOperation?)
    decreases j
  {
    hide IsRun, Apply, Enabled, Inv, RequestOf;
    RunLength(states, steps);
    Monotone(states, steps, i, j);
    if i < j {
      AfterSignal(states, steps, i, j - 1, r);
      Monotone(states, steps, i, j - 1);
      InvHolds(states, steps, j - 1);
      RunStep(states, steps, j - 1);
      AfterSignalStep(states[j - 1], steps[j - 1], r);
    }
  }

  /** A request that starts after a close never touches the client and can only end `Closed` or `Cancelled`. */
  lemma LateRequestNeverRuns(states: seq<State>, steps: seq<Step>, i: nat, j: nat, r: nat)
    requires IsRun(states, steps) && i <= j < |states| && states[i].flag
    requires r < |states[i].requests| && states[i].requests[r].Fresh?
    ensures r < |states[j].requests|
    ensures var q := states[j].requests[r]; !q.Running? && !q.PollingOperation? && q != Done(Finished)
  {
    AfterSignal(states, steps, i, j, r);
  }

  // ---- no lost shutdown ----

  /** The step a pending request takes next after a signal; `Grant` when it waits for the lock. */
  function NextStep(q: Request, r: nat, version: nat): Step {
    match q
    case Admission(seen, wait) => if seen == version && wait.Queued? then Grant else PollFlagFirst(r)
    case PollingLock(_, _) => PollLock(r)
    case HasGuard(_) => Admit(r)
    case Running(_) => PollFlagSecond(r)
    case PollingOperation(_) => PollOperation(r, false)
    case _ => Cancel(r)
  }

  /**
    After a signal every pending request can move, except one that subscribed after
    the last close and is queued for the lock; every suspended request that
    subscribed before it, and every request holding a guard outside an operation
    poll, ends `Closed` in that one move.
   */
  lemma NoLostShutdown(s: State, r: nat)
    requires Inv(s) && s.flag && r < |s.requests| && Active(s.requests[r])
    ensures var q, step := s.requests[r], NextStep(s.requests[r], r, s.version);
            && (step != Grant ==> Enabled(s, step))
            && (step == Grant ==> Reader(r) in s.queue)
            && (q.Admission? && q.seen != s.version ==> Apply(s, step).requests[r] == Done(Closed))
            && (q.HasGuard? || q.Running? ==> Apply(s, step).requests[r] == Done(Closed))
            && (q.PollingLock? && q.granted ==> Apply(s, step).requests[r].HasGuard?)
            && (q.PollingOperation? ==> Apply(s, step).requests[r].Running?)
  {
  }

  function Weight(q: Request): nat {
    match q
    case Fresh => 0
    case Admission(_, wait) => if wait.NotQueued? then 7 else if wait.Queued? then 5 else 4
    case PollingLock(_, granted) => if granted then 3 else 6
    case HasGuard(_) => 2
    case Running(_) => 1
    case PollingOperation(_) => 2
    case Done(_) => 0
  }

  function CloserWeight(k: Closer): nat {
    match k
    case Unused => 0
    case Signalled => 4
    case WriteQueued => 3
    case WriteHeld => 2
    case Ended(_) => 0
  }

  /** New work: it is outside the protocol steps the measure bounds. */
  predicate IsArrival(step: Step) {
    step.Subscribe? || step.Close? || step.DropSender?
  }

  function RequestTotal(requests: seq<Request>): nat {
    if requests == [] then 0 else Weight(requests[0]) + RequestTotal(requests[1..])
  }

  function CloserTotal(closers: seq<Closer>): nat {
    if closers == [] then 0 else CloserWeight(closers[0]) + CloserTotal(closers[1..])
  }

  /** Work left before everything pending has ended. */
  function Remaining(s: State): nat {
    RequestTotal(s.requests) + CloserTotal(s.closers)
  }

  lemma {:induction false} RequestTotalUpdate(requests: seq<Request>, r: nat, q: Request)
    requires r < |requests|
    ensures RequestTotal(requests[r := q]) == RequestTotal(requests) - Weight(requests[r]) + Weight(q)
  {
    if r == 0 {
      assert requests[r := q][1..] == requests[1..];
    } else {
      RequestTotalUpdate(requests[1..], r - 1, q);
      assert requests[r := q][1..] == requests[1..][r - 1 := q];
    }
  }

  lemma {:induction false} CloserTotalUpdate(closers: seq<Closer>, c: nat, k: Closer)
    requires c < |closers|
    ensures CloserTotal(closers[c := k]) == CloserTotal(closers) - CloserWeight(closers[c]) + CloserWeight(k)
  {
    if c == 0 {
      assert closers[c := k][1..] == closers[1..];
    } else {
      CloserTotalUpdate(closers[1..], c - 1, k);
      assert closers[c := k][1..] == closers[1..][c - 1 := k];
    }
  }

  /** The request a step moves, counting the one a grant serves; -1 when it moves a closer. */
  function MovedRequest(s: State, step: Step): int {
    if step.Grant? then (if s.queue != [] && s.queue[0].Reader? then s.queue[0].r else -1) else RequestOf(step)
  }

  function MovedCloser(s: State, step: Step): int {
    if step.Grant? then (if s.queue != [] && s.queue[0].Writer? then s.queue[0].c else -1) else CloserOf(step)
  }

  /** A protocol step moves one request or one closer, and makes it lighter. */
  lemma MovedGetsLighter(s: State, step: Step)
    requires Inv(s) && s.flag && Enabled(s, step) && !IsArrival(step)
    ensures var s', r, c := Apply(s, step), MovedRequest(s, step), MovedCloser(s, step);
            && (r >= 0 ==>
                  && r < |s.requests| == |s'.requests| && s'.requests == s.requests[r := s'.requests[r]]
                  && Weight(s'.requests[r]) < Weight(s.requests[r]) && s'.closers == s.closers)
            && (r < 0 ==>
                  && 0 <= c < |s.closers| == |s'.closers| && s'.closers == s.closers[c := s'.closers[c]]
                  && CloserWeight(s'.closers[c]) < CloserWeight(s.closers[c]) && s'.requests == s.requests)
  {
    if step.Grant? {
      assert s.queue[0] in s.queue;
    }
  }

  /** After a signal every protocol step strictly reduces the remaining work. */
  lemma WorkDecreases(s: State, step: Step)
    requires Inv(s) && s.flag && Enabled(s, step) && !IsArrival(step)
    ensures Remaining(Apply(s, step)) < Remaining(s)
  {
    hide Apply, Enabled, Inv, Weight, CloserWeight;
    MovedGetsLighter(s, step);
    var s', r, c := Apply(s, step), MovedRequest(s, step), MovedCloser(s, step);
    if r >= 0 {
      RequestTotalUpdate(s.requests, r, s'.requests[r]);
    } else {
      CloserTotalUpdate(s.closers, c, s'.closers[c]);
    }
  }

  ghost predicate Quiet(s: State) {
    && (forall r :: 0 <= r < |s.requests| ==> !Active(s.requests[r]))
    && (forall c :: 0 <= c < |s.closers| ==> s.closers[c].Unused? || s.closers[c].Ended?)
  }

  /** After a signal the protocol is never stuck: some step other than giving up is enabled. */
  lemma SomeStepEnabled(s: State) returns (step: Step)
    requires Inv(s) && s.flag && !Quiet(s)
    ensures Enabled(s, step) && !IsArrival(step) && !step.Cancel? && !step.AbandonClose?
  {
    if r: nat :| r < |s.requests| && Active(s.requests[r]) && NextStep(s.requests[r], r, s.version) != Grant {
      NoLostShutdown(s, r);
      step := NextStep(s.requests[r], r, s.version);
    } else if c: nat :| c < |s.closers| && s.closers[c].Signalled? {
      step := PollWrite(c);
    } else if c: nat :| c < |s.closers| && s.closers[c].WriteHeld? {
      step := Take(c);
    } else {
      // Only queued waiters are left, and none of them holds the lock.
      step := Grant;
      assert !ReaderHolds(s);
      if r: nat :| r < |s.requests| && Active(s.requests[r]) {
        assert Reader(r) in s.queue;
      } else {
        var c: nat :| c < |s.closers| && !s.closers[c].Unused? && !s.closers[c].Ended?;
        assert Writer(c) in s.queue;
      }
      assert s.queue[0] in s.queue;
    }
  }

  /** From the signal on, a run without new arrivals has at most `Remaining` steps left. */
  lemma {:induction false} ShutdownTerminates(states: seq<State>, steps: seq<Step>, i: nat, j: nat)
    requires IsRun(states, steps) && i <= j < |states| && states[i].flag
    requires forall k :: i <= k < j ==> !IsArrival(steps[k])
    ensures j - i + Remaining(states[j]) <= Remaining(states[i])
    decreases j
  {
    hide IsRun, Apply, Enabled, Inv, Remaining;
    RunLength(states, steps);
    if i < j {
      ShutdownTerminates(states, steps, i, j - 1);
      Monotone(states, steps, i, j - 1);
      InvHolds(states, steps, j - 1);
      RunStep(states, steps, j - 1);
      WorkDecreases(states[j - 1], steps[j - 1]);
    }
  }

  // ---- a queued close is served despite new arrivals ----

  /** `x` stands before `y` in the queue. */
  ghost predicate Before(queue: seq<Waiter>, x: Waiter, y: Waiter) {
    exists i, j :: 0 <= i < j < |queue| && queue[i] == x && queue[j] == y
  }

  /** The load a request puts on the queued close `c`: nothing unless it is served first. */
  ghost function RequestLoad(s: State, c: nat, r: nat): nat
    requires r < |s.requests|
  {
    if HoldsRead(s.requests[r]) || Before(s.queue, Reader(r), Writer(c)) then Weight(s.requests[r]) else 0
  }

  ghost function CloserLoad(s: State, c: nat, d: nat): nat
    requires d < |s.closers|
  {
    if d == c || s.closers[d].WriteHeld? || Before(s.queue, Writer(d), Writer(c)) then CloserWeight(s.closers[d]) else 0
  }

  ghost function RequestLoads(s: State, c: nat, n: nat): nat
    requires n <= |s.requests|
  {
    if n == 0 then 0 else RequestLoads(s, c, n - 1) + RequestLoad(s, c, n - 1)
  }

  ghost function CloserLoads(s: State, c: nat, n: nat): nat
    requires n <= |s.closers|
  {
    if n == 0 then 0 else CloserLoads(s, c, n - 1) + CloserLoad(s, c, n - 1)
  }

  /** Work that must happen before the queued close `c` holds the lock. */
  ghost function Ahead(s: State, c: nat): nat {
    RequestLoads(s, c, |s.requests|) + CloserLoads(s, c, |s.closers|)
  }

  /** The step moves something that is served before the queued close `c`, or `c` itself. */
  ghost predicate ServesAhead(s: State, step: Step, c: nat) {
    var r, d := MovedRequest(s, step), MovedCloser(s, step);
    || (0 <= r < |s.requests| && RequestLoad(s, c, r) > 0)
    || (r < 0 && 0 <= d < |s.closers| && CloserLoad(s, c, d) > 0)
  }

  lemma {:induction false} BeforeRemove(queue: seq<Waiter>, z: Waiter, x: Waiter, y: Waiter)
    requires x != z && y != z
    ensures Before(Remove(queue, z), x, y) <==> Before(queue, x, y)
  {
    if queue != [] {
      var rest := queue[1..];
      BeforeRemove(rest, z, x, y);
      BeforeCons(queue[0], rest, x, y);
      assert queue == [queue[0]] + rest;
      if queue[0] != z {
        BeforeCons(queue[0], Remove(rest, z), x, y);
        MemberRemove(rest, z, y);
      }
    }
  }

  lemma {:induction false} MemberRemove(queue: seq<Waiter>, z: Waiter, y: Waiter)
    requires y != z
    ensures y in Remove(queue, z) <==> y in queue
  {
    if queue != [] {
      MemberRemove(queue[1..], z, y);
      assert queue == [queue[0]] + queue[1..];
    }
  }

  lemma BeforeCons(h: Waiter, rest: seq<Waiter>, x: Waiter, y: Waiter)
    ensures Before([h] + rest, x, y) <==> (h == x && y in rest) || Before(rest, x, y)
  {
    var queue := [h] + rest;
    if Before(queue, x, y) {
      var i, j :| 0 <= i < j < |queue| && queue[i] == x && queue[j] == y;
      assert rest[j - 1] == y;
      if i > 0 {
        assert rest[i - 1] == x;
      }
    }
    if h == x && y in rest {
      var k :| 0 <= k < |rest| && rest[k] == y;
      assert queue[0] == x && queue[k + 1] == y;
    }
    if Before(rest, x, y) {
      var i, j :| 0 <= i < j < |rest| && rest[i] == x && rest[j] == y;
      assert queue[i + 1] == x && queue[j + 1] == y;
    }
  }

  /** Newcomers join behind everyone already queued. */
  lemma BeforeAppend(queue: seq<Waiter>, z: Waiter, x: Waiter, y: Waiter)
    requires y != z
    ensures Before(queue + [z], x, y) <==> Before(queue, x, y)
  {
    if Before(queue + [z], x, y) {
      var i, j :| 0 <= i < j < |queue + [z]| && (queue + [z])[i] == x && (queue + [z])[j] == y;
      assert queue[i] == x && queue[j] == y;
    }
    if Before(queue, x, y) {
      var i, j :| 0 <= i < j < |queue| && queue[i] == x && queue[j] == y;
      assert (queue + [z])[i] == x && (queue + [z])[j] == y;
    }
  }

  lemma {:induction false} LoadsCompare(s: State, s': State, c: nat, n: nat)
    requires n <= |s.requests| && n <= |s'.requests|
    requires forall r :: 0 <= r < n ==> RequestLoad(s', c, r) <= RequestLoad(s, c, r)
    ensures RequestLoads(s', c, n) <= RequestLoads(s, c, n)
    ensures (exists r :: 0 <= r < n && RequestLoad(s', c, r) < RequestLoad(s, c, r)) ==>
              RequestLoads(s', c, n) < RequestLoads(s, c, n)
  {
    if n > 0 {
      LoadsCompare(s, s', c, n - 1);
    }
  }

  lemma {:induction false} CloserLoadsCompare(s: State, s': State, c: nat, n: nat)
    requires n <= |s.closers| && n <= |s'.closers|
    requires forall d :: 0 <= d < n ==> CloserLoad(s', c, d) <= CloserLoad(s, c, d)
    ensures CloserLoads(s', c, n) <= CloserLoads(s, c, n)
    ensures (exists d :: 0 <= d < n && CloserLoad(s', c, d) < CloserLoad(s, c, d)) ==>
              CloserLoads(s', c, n) < CloserLoads(s, c, n)
  {
    if n > 0 {
      CloserLoadsCompare(s, s', c, n - 1);
    }
  }

  /** No step moves a waiter in front of the queued close `c`. */
  lemma OrderKept(s: State, step: Step, c: nat, x: Waiter)
    requires Inv(s) && Enabled(s, step) && c < |s.closers| && s.closers[c].WriteQueued?
    requires c < |Apply(s, step).closers| && Apply(s, step).closers[c].WriteQueued?
    ensures Before(Apply(s, step).queue, x, Writer(c)) ==> Before(s.queue, x, Writer(c))
  {
    var s' := Apply(s, step);
    RemoveKeeps(s.queue, x);
    if step.Grant? {
      RemoveFront(s.queue);
      RemovedFirst(s.queue, s.queue[0], x, Writer(c));
    } else if s'.queue == s.queue {
    } else if RequestOf(step) >= 0 {
      BeforeAppend(s.queue, Reader(RequestOf(step)), x, Writer(c));
      RemovedFirst(s.queue, Reader(RequestOf(step)), x, Writer(c));
    } else {
      BeforeAppend(s.queue, Writer(CloserOf(step)), x, Writer(c));
      RemovedFirst(s.queue, Writer(CloserOf(step)), x, Writer(c));
    }
  }

  lemma RemovedFirst(queue: seq<Waiter>, z: Waiter, x: Waiter, y: Waiter)
    requires NoDuplicates(queue)
    ensures Before(Remove(queue, z), x, y) ==> Before(queue, x, y)
  {
    RemoveKeeps(queue, z);
    BeforeMember(Remove(queue, z), x, y);
    if x != z && y != z {
      BeforeRemove(queue, z, x, y);
    }
  }

  lemma BeforeMember(queue: seq<Waiter>, x: Waiter, y: Waiter)
    ensures Before(queue, x, y) ==> x in queue && y in queue
    ensures queue != [] && y in queue && queue[0] != y ==> Before(queue, queue[0], y)
  {
    if queue != [] && y in queue && queue[0] != y {
      var k :| 0 <= k < |queue| && queue[k] == y;
      assert queue[0] == queue[0] && queue[k] == y;
    }
  }

  /** While a close is queued, nobody obtains the lock but those already in front of it. */
  lemma NoBarging(s: State, step: Step, c: nat, r: nat)
    requires Inv(s) && Enabled(s, step) && c < |s.closers| && s.closers[c].WriteQueued? && r < |s.requests|
    requires r < |Apply(s, step).requests| && HoldsRead(Apply(s, step).requests[r])
    ensures HoldsRead(s.requests[r]) || Before(s.queue, Reader(r), Writer(c))
  {
    assert Writer(c) in s.queue;
    hide QueueMatches, LockExclusive, FlagConsistent, TakenOnce, Remove, ReaderHolds, WriterHolds, Changed;
    if step.PollLock? || step.Grant? {
      BeforeMember(s.queue, Reader(r), Writer(c));
    } else {
      ReadersShrink(s, step);
      hide Apply, Enabled;
    }
  }

  lemma NoBargingWriter(s: State, step: Step, c: nat, d: nat)
    requires Inv(s) && Enabled(s, step) && c < |s.closers| && s.closers[c].WriteQueued? && d < |s.closers|
    requires c < |Apply(s, step).closers| && Apply(s, step).closers[c].WriteQueued?
    requires d < |Apply(s, step).closers| && Apply(s, step).closers[d].WriteHeld?
    ensures s.closers[d].WriteHeld? || Before(s.queue, Writer(d), Writer(c))
  {
    assert Writer(c) in s.queue;
    hide QueueMatches, LockExclusive, FlagConsistent, TakenOnce, Remove, ReaderHolds, WriterHolds, Changed;
    if step.PollWrite? || step.Grant? {
      BeforeMember(s.queue, Writer(d), Writer(c));
    } else {
      WritersShrink(s, step);
      hide Apply, Enabled;
    }
  }

  lemma CountedRequest(s: State, c: nat, r: nat)
    requires Inv(s) && r < |s.requests|
    ensures RequestLoad(s, c, r) > 0 <==> HoldsRead(s.requests[r]) || Before(s.queue, Reader(r), Writer(c))
  {
    BeforeMember(s.queue, Reader(r), Writer(c));
  }

  lemma CountedCloser(s: State, c: nat, d: nat)
    requires Inv(s) && d < |s.closers| && c < |s.closers| && s.closers[c].WriteQueued?
    ensures CloserLoad(s, c, d) > 0 <==> d == c || s.closers[d].WriteHeld? || Before(s.queue, Writer(d), Writer(c))
  {
    BeforeMember(s.queue, Writer(d), Writer(c));
  }

  lemma UnmovedRequests(s: State, step: Step)
    requires Enabled(s, step)
    ensures var s' := Apply(s, step);
            && |s'.requests| == |s.requests|
            && (forall r :: 0 <= r < |s.requests| && r != MovedRequest(s, step) ==> s'.requests[r] == s.requests[r])
  {
    hide Remove, ReaderHolds, WriterHolds, Changed;
  }

  lemma UnmovedClosers(s: State, step: Step)
    requires Enabled(s, step)
    ensures var s' := Apply(s, step);
            && |s'.closers| == |s.closers|
            && (forall d :: 0 <= d < |s.closers| && d != MovedCloser(s, step) ==> s'.closers[d] == s.closers[d])
  {
    hide Remove, ReaderHolds, WriterHolds, Changed;
  }

  /** What one step, arrivals included, does to the request `r` and the closer `d`. */
  lemma UnmovedUnchanged(s: State, step: Step)
    requires Enabled(s, step)
    ensures var s' := Apply(s, step);
            && |s'.requests| == |s.requests| && |s'.closers| == |s.closers|
            && (forall r :: 0 <= r < |s.requests| && r != MovedRequest(s, step) ==> s'.requests[r] == s.requests[r])
            && (forall d :: 0 <= d < |s.closers| && d != MovedCloser(s, step) ==> s'.closers[d] == s.closers[d])
  {
    UnmovedRequests(s, step);
    UnmovedClosers(s, step);
    hide Apply, Enabled;
  }

  lemma ArrivalsAreLight(s: State, step: Step, c: nat)
    requires Inv(s) && Enabled(s, step) && IsArrival(step) && c < |s.closers| && s.closers[c].WriteQueued?
    ensures forall r :: 0 <= r < |s.requests| && r == MovedRequest(s, step) ==> RequestLoad(s, c, r) == 0
    ensures forall d :: 0 <= d < |s.closers| && d == MovedCloser(s, step) ==> CloserLoad(s, c, d) == 0
  {
  }

  ghost predicate StillQueued(s: State, step: Step, c: nat)
    requires Enabled(s, step)
  {
    && c < |s.closers| && s.closers[c].WriteQueued?
    && c < |Apply(s, step).closers| && Apply(s, step).closers[c].WriteQueued?
  }

  lemma RequestLoadNeverGrows(s: State, step: Step, c: nat, r: nat)
    requires Inv(s) && s.flag && Enabled(s, step) && StillQueued(s, step, c)
    requires r < |s.requests| && r < |Apply(s, step).requests| && Inv(Apply(s, step))
    ensures RequestLoad(Apply(s, step), c, r) <= RequestLoad(s, c, r)
    ensures r == MovedRequest(s, step) && RequestLoad(s, c, r) > 0 ==>
              RequestLoad(Apply(s, step), c, r) < RequestLoad(s, c, r)
  {
    var s' := Apply(s, step);
    UnmovedUnchanged(s, step);
    OrderKept(s, step, c, Reader(r));
    CountedRequest(s, c, r);
    CountedRequest(s', c, r);
    if HoldsRead(s'.requests[r]) {
      NoBarging(s, step, c, r);
    }
    if IsArrival(step) {
      ArrivalsAreLight(s, step, c);
    } else {
      MovedGetsLighter(s, step);
    }
    hide Apply, Enabled, Inv, HoldsRead, Before, Weight, MovedRequest;
  }

  lemma CloserLoadNeverGrows(s: State, step: Step, c: nat, d: nat)
    requires Inv(s) && s.flag && Enabled(s, step) && StillQueued(s, step, c)
    requires d < |s.closers| && d < |Apply(s, step).closers| && Inv(Apply(s, step))
    ensures CloserLoad(Apply(s, step), c, d) <= CloserLoad(s, c, d)
    ensures MovedRequest(s, step) < 0 && d == MovedCloser(s, step) && CloserLoad(s, c, d) > 0 ==>
              CloserLoad(Apply(s, step), c, d) < CloserLoad(s, c, d)
  {
    var s' := Apply(s, step);
    UnmovedUnchanged(s, step);
    OrderKept(s, step, c, Writer(d));
    CountedCloser(s, c, d);
    CountedCloser(s', c, d);
    if s'.closers[d].WriteHeld? {
      NoBargingWriter(s, step, c, d);
    }
    if IsArrival(step) {
      ArrivalsAreLight(s, step, c);
    } else {
      MovedGetsLighter(s, step);
    }
    hide Apply, Enabled, Inv, Before, CloserWeight, MovedCloser, MovedRequest;
  }

  lemma InvKept(s: State, step: Step)
    requires Inv(s) && Enabled(s, step)
    ensures Inv(Apply(s, step))
  {
    hide Apply, Enabled, QueueMatches, LockExclusive, FlagConsistent, TakenOnce;
    QueueKept(s, step);
    LockKept(s, step);
    FlagKept(s, step);
    TakenKept(s, step);
  }

  /** No step adds to the work ahead of a queued close; serving something ahead removes some. */
  lemma AheadNeverGrows(s: State, step: Step, c: nat)
    requires Inv(s) && s.flag && Enabled(s, step) && StillQueued(s, step, c)
    ensures Ahead(Apply(s, step), c) <= Ahead(s, c)
    ensures ServesAhead(s, step, c) ==> Ahead(Apply(s, step), c) < Ahead(s, c)
  {
    hide Apply, Enabled, Inv, StillQueued, MovedRequest, MovedCloser, RequestLoad, CloserLoad;
    InvKept(s, step);
    MonotoneStep(s, step);
    var s' := Apply(s, step);
    forall r | 0 <= r < |s.requests|
      ensures RequestLoad(s', c, r) <= RequestLoad(s, c, r)
      ensures r == MovedRequest(s, step) && RequestLoad(s, c, r) > 0 ==> RequestLoad(s', c, r) < RequestLoad(s, c, r)
    {
      RequestLoadNeverGrows(s, step, c, r);
    }
    forall d | 0 <= d < |s.closers|
      ensures CloserLoad(s', c, d) <= CloserLoad(s, c, d)
      ensures MovedRequest(s, step) < 0 && d == MovedCloser(s, step) && CloserLoad(s, c, d) > 0 ==>
                CloserLoad(s', c, d) < CloserLoad(s, c, d)
    {
      CloserLoadNeverGrows(s, step, c, d);
    }
    LoadsCompare(s, s', c, |s.requests|);
    CloserLoadsCompare(s, s', c, |s.closers|);
  }

  /** While a close is queued after a signal, something ahead of it can move without giving up. */
  lemma AheadCanMove(s: State, c: nat) returns (step: Step)
    requires Inv(s) && s.flag && c < |s.closers| && s.closers[c].WriteQueued?
    ensures Enabled(s, step) && ServesAhead(s, step, c)
    ensures !IsArrival(step) && !step.Cancel? && !step.AbandonClose?
  {
    if r: nat :| r < |s.requests| && HoldsRead(s.requests[r]) {
      step := NextStep(s.requests[r], r, s.version);
      NoLostShutdown(s, r);
    } else if d: nat :| d < |s.closers| && s.closers[d].WriteHeld? {
      step := Take(d);
    } else {
      step := Grant;
      assert Writer(c) in s.queue;
      assert s.queue[0] in s.queue;
      BeforeMember(s.queue, s.queue[0], Writer(c));
    }
  }

  ghost function Served(states: seq<State>, steps: seq<Step>, c: nat, i: nat, j: nat): nat
    requires i <= j <= |steps| < |states|
    decreases j
  {
    if i == j then 0
    else Served(states, steps, c, i, j - 1) + if ServesAhead(states[j - 1], steps[j - 1], c) then 1 else 0
  }

  /**
    A queued close obtains the write lock after at most `Ahead` steps of what is in
    front of it, however many requests and closes arrive meanwhile.
   */
  lemma {:induction false} QueuedCloseIsServed(states: seq<State>, steps: seq<Step>, c: nat, i: nat, j: nat)
    requires IsRun(states, steps) && i <= j < |states| && states[i].flag
    requires forall k :: i <= k <= j ==> c < |states[k].closers| && states[k].closers[c].WriteQueued?
    ensures j <= |steps|
    ensures Served(states, steps, c, i, j) + Ahead(states[j], c) <= Ahead(states[i], c)
    decreases j
  {
    hide IsRun, Apply, Enabled, Inv, Ahead, ServesAhead;
    RunLength(states, steps);
    if i < j {
      QueuedCloseIsServed(states, steps, c, i, j - 1);
      Monotone(states, steps, i, j - 1);
      InvHolds(states, steps, j - 1);
      RunStep(states, steps, j - 1);
      AheadNeverGrows(states[j - 1], steps[j - 1], c);
    }
  }
}
