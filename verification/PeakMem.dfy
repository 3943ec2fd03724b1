/**
  The peak-memory tracker as an interleaved step system.

  Any number of threads allocate, free and reallocate blocks; every atomic
  instruction of the accounting code is one step. Any number of measurers compete
  for the window token and run the four-instruction reset. A run is an arbitrary
  interleaving of those steps.
 */
module PeakMem {
  import opened Common

  /** A block slot: bytes counted in CURRENT, and bytes held from the system while in flux. */
  datatype Block =
    | Free
    | Live(size: nat)
    | Busy(accounted: nat, system: nat)

  /** What a thread is about to do inside the allocator. */
  datatype Thread =
    | Idle
    | AddPending(block: nat, delta: nat)
    | MaxPending(block: nat, value: nat)
    | SubPending(block: nat, delta: nat, freed: bool)

  /** Progress of one measurer through acquire, reset, workload and final read. */
  datatype Window =
    | Out
    | Acquired
    | Loaded1(first: nat)
    | Stored
    | Loaded2(second: nat)
    | Open
    | Reported(peak: nat)

  datatype State = State(
    current: nat,
    peak: nat,
    active: nat,
    threads: seq<Thread>,
    blocks: seq<Block>,
    windows: seq<Window>)

  datatype Step =
    | SystemAlloc(t: nat, b: nat, n: nat)
    | SystemFree(t: nat, b: nat)
    | SystemRealloc(t: nat, b: nat, n: nat)
    | FetchAdd(t: nat)
    | FetchMax(t: nat)
    | FetchSub(t: nat)
    | Acquire(w: nat)
    | AcquireFails(w: nat)
    | LoadFirst(w: nat)
    | StorePeak(w: nat)
    | LoadSecond(w: nat)
    | RaisePeak(w: nat)
    | ReadPeak(w: nat)
    | Release(w: nat)

  function Max(a: nat, b: nat): nat {
    if a >= b then a else b
  }

  function AccountedBytes(b: Block): nat {
    match b
    case Free => 0
    case Live(size) => size
    case Busy(accounted, _) => accounted
  }

  function SystemBytes(b: Block): nat {
    match b
    case Free => 0
    case Live(size) => size
    case Busy(_, system) => system
  }

  /** Bytes counted in CURRENT over all blocks. */
  function Accounted(blocks: seq<Block>): nat {
    if blocks == [] then 0 else AccountedBytes(blocks[0]) + Accounted(blocks[1..])
  }

  ghost predicate Enabled(s: State, step: Step) {
    match step
    case SystemAlloc(t, b, n) => t < |s.threads| && s.threads[t].Idle? && b < |s.blocks| && s.blocks[b].Free?
    case SystemFree(t, b) => t < |s.threads| && s.threads[t].Idle? && b < |s.blocks| && s.blocks[b].Live?
    case SystemRealloc(t, b, n) => t < |s.threads| && s.threads[t].Idle? && b < |s.blocks| && s.blocks[b].Live?
    case FetchAdd(t) => t < |s.threads| && s.threads[t].AddPending?
    case FetchMax(t) => t < |s.threads| && s.threads[t].MaxPending?
    case FetchSub(t) => t < |s.threads| && s.threads[t].SubPending?
    case Acquire(w) => w < |s.windows| && s.windows[w].Out? && s.active == 0
    case AcquireFails(w) => w < |s.windows| && s.windows[w].Out? && s.active != 0
    case LoadFirst(w) => w < |s.windows| && s.windows[w].Acquired?
    case StorePeak(w) => w < |s.windows| && s.windows[w].Loaded1?
    case LoadSecond(w) => w < |s.windows| && s.windows[w].Stored?
    case RaisePeak(w) => w < |s.windows| && s.windows[w].Loaded2?
    case ReadPeak(w) => w < |s.windows| && s.windows[w].Open?
    // Open: a bare reset, an unwind or a cancellation; Reported: a finished measurement.
    case Release(w) => w < |s.windows| && (s.windows[w].Open? || s.windows[w].Reported?)
  }

  function SetBlock(s: State, b: nat, x: Block): State {
    if b < |s.blocks| then s.(blocks := s.blocks[b := x]) else s
  }

  function GetBlock(s: State, b: nat): Block {
    if b < |s.blocks| then s.blocks[b] else Free
  }

  function SetThread(s: State, t: nat, x: Thread): State
    requires t < |s.threads|
  {
    s.(threads := s.threads[t := x])
  }

  function SetWindow(s: State, w: nat, x: Window): State
    requires w < |s.windows|
  {
    s.(windows := s.windows[w := x])
  }

  /** Reallocation: growth adds `new - old`, shrinking subtracts `old - new`. */
  function ReallocWork(b: nat, old_: nat, new_: nat): Thread {
    if new_ >= old_ then AddPending(b, new_ - old_) else SubPending(b, old_ - new_, false)
  }

  function Apply(s: State, step: Step): State
    requires Enabled(s, step)
  {
    match step
    case SystemAlloc(t, b, n) =>
      SetBlock(SetThread(s, t, AddPending(b, n)), b, Busy(0, n))
    case SystemFree(t, b) =>
      var size := s.blocks[b].size;
      SetBlock(SetThread(s, t, SubPending(b, size, true)), b, Busy(size, 0))
    case SystemRealloc(t, b, n) =>
      var size := s.blocks[b].size;
      SetBlock(SetThread(s, t, ReallocWork(b, size, n)), b, Busy(size, n))
    case FetchAdd(t) =>
      var work := s.threads[t];
      var now := (s.current + work.delta) % MODULUS;
      var held := SystemBytes(GetBlock(s, work.block));
      SetBlock(SetThread(s.(current := now), t, MaxPending(work.block, now)), work.block, Busy(held, held))
    case FetchMax(t) =>
      var work := s.threads[t];
      var held := SystemBytes(GetBlock(s, work.block));
      SetBlock(SetThread(s.(peak := Max(s.peak, work.value)), t, Idle), work.block, Live(held))
    case FetchSub(t) =>
      var work := s.threads[t];
      var now := (s.current - work.delta) % MODULUS;
      var held := SystemBytes(GetBlock(s, work.block));
      SetBlock(SetThread(s.(current := now), t, Idle), work.block, if work.freed then Free else Live(held))
    case Acquire(w) => SetWindow(s.(active := 1), w, Acquired)
    case AcquireFails(w) => s
    case LoadFirst(w) => SetWindow(s, w, Loaded1(s.current))
    case StorePeak(w) => SetWindow(s.(peak := s.windows[w].first), w, Stored)
    case LoadSecond(w) => SetWindow(s, w, Loaded2(s.current))
    case RaisePeak(w) => SetWindow(s.(peak := Max(s.peak, s.windows[w].second)), w, Open)
    case ReadPeak(w) => SetWindow(s, w, Reported(s.peak))
    case Release(w) => SetWindow(s.(active := 0), w, Out)
  }

  ghost predicate Initial(s: State) {
    && s.current == 0 && s.peak == 0 && s.active == 0
    && (forall t :: 0 <= t < |s.threads| ==> s.threads[t].Idle?)
    && (forall b :: 0 <= b < |s.blocks| ==> s.blocks[b].Free?)
    && (forall w :: 0 <= w < |s.windows| ==> s.windows[w].Out?)
  }

  /** `states` is the sequence of states passed through by `steps`. */
  ghost predicate IsRun(states: seq<State>, steps: seq<Step>) {
    && |states| == |steps| + 1
    && Initial(states[0])
    && forall i :: 0 <= i < |steps| ==> Enabled(states[i], steps[i]) && states[i + 1] == Apply(states[i], steps[i])
  }

  // ---- what every step keeps ----

  /** A pending thread holds its block, in the condition its pending instruction expects. */
  ghost predicate OwnsBlock(s: State, t: nat)
    requires t < |s.threads|
  {
    match s.threads[t]
    case Idle => true
    case AddPending(b, delta) =>
      b < |s.blocks| && s.blocks[b].Busy? && s.blocks[b].system == s.blocks[b].accounted + delta
    case MaxPending(b, _) =>
      b < |s.blocks| && s.blocks[b].Busy? && s.blocks[b].system == s.blocks[b].accounted
    case SubPending(b, delta, freed) =>
      && b < |s.blocks| && s.blocks[b].Busy?
      && s.blocks[b].accounted == s.blocks[b].system + delta
      && (freed ==> s.blocks[b].system == 0)
  }

  ghost predicate Ownership(s: State) {
    && (forall t :: 0 <= t < |s.threads| ==> OwnsBlock(s, t))
    && (forall t, u :: 0 <= t < |s.threads| && 0 <= u < |s.threads| && t != u
                       && !s.threads[t].Idle? && !s.threads[u].Idle? ==>
                         s.threads[t].block != s.threads[u].block)
  }

  /** The token is taken exactly while one measurer is inside its window. */
  ghost predicate Exclusive(s: State) {
    && (s.active == 0 || s.active == 1)
    && (s.active == 0 <==> forall w :: 0 <= w < |s.windows| ==> s.windows[w].Out?)
    && (forall v, w :: 0 <= v < |s.windows| && 0 <= w < |s.windows| && !s.windows[v].Out? && !s.windows[w].Out? ==> v == w)
  }

  ghost predicate Counted(s: State) {
    s.current == Accounted(s.blocks) % MODULUS
  }

  ghost predicate Inv(s: State) {
    Ownership(s) && Exclusive(s) && Counted(s)
  }

  lemma {:induction false} AccountedUpdate(blocks: seq<Block>, b: nat, x: Block)
    requires b < |blocks|
    ensures Accounted(blocks[b := x]) == Accounted(blocks) - AccountedBytes(blocks[b]) + AccountedBytes(x)
    ensures AccountedBytes(blocks[b]) <= Accounted(blocks)
  {
    if b == 0 {
      assert blocks[b := x][1..] == blocks[1..];
    } else {
      AccountedUpdate(blocks[1..], b - 1, x);
      assert blocks[b := x][1..] == blocks[1..][b - 1 := x];
    }
  }

  lemma ModAdd(a: int, d: int)
    ensures (a % MODULUS + d) % MODULUS == (a + d) % MODULUS
  {
  }

  lemma {:induction false} AllFree(blocks: seq<Block>)
    requires forall b :: 0 <= b < |blocks| ==> blocks[b].Free?
    ensures Accounted(blocks) == 0
  {
    if blocks != [] {
      AllFree(blocks[1..]);
    }
  }

  /** Changing one thread and the one block it works on keeps the others' ownership. */
  lemma OwnershipAfterThread(s: State, s': State, t: nat, b: nat)
    requires Ownership(s) && t < |s.threads| && b < |s.blocks|
    requires |s'.threads| == |s.threads| && s'.threads == s.threads[t := s'.threads[t]]
    requires |s'.blocks| == |s.blocks| && s'.blocks == s.blocks[b := s'.blocks[b]]
    requires s'.threads[t].Idle? || s'.threads[t].block == b
    requires OwnsBlock(s', t)
    requires s.blocks[b].Busy? ==> !s.threads[t].Idle? && s.threads[t].block == b
    ensures Ownership(s')
  {
    forall u | 0 <= u < |s'.threads|
      ensures OwnsBlock(s', u)
      ensures u != t && !s'.threads[u].Idle? ==> s'.threads[u].block != b
    {
      assert OwnsBlock(s, u);
    }
  }

  function ThreadOf(step: Step): int {
    match step
    case SystemAlloc(t, _, _) => t
    case SystemFree(t, _) => t
    case SystemRealloc(t, _, _) => t
    case FetchAdd(t) => t
    case FetchMax(t) => t
    case FetchSub(t) => t
    case _ => -1
  }

  lemma OwnershipKept(s: State, step: Step)
    requires Ownership(s) && Enabled(s, step)
    ensures Ownership(Apply(s, step))
  {
    var s' := Apply(s, step);
    var t := ThreadOf(step);
    if t < 0 {
      forall u | 0 <= u < |s'.threads|
        ensures OwnsBlock(s', u)
      {
        assert OwnsBlock(s, u);
      }
    } else {
      assert OwnsBlock(s, t);
      var b := if step.SystemAlloc? || step.SystemFree? || step.SystemRealloc? then step.b else s.threads[t].block;
      OwnershipAfterThread(s, s', t, b);
    }
  }

  /** CURRENT and one block moving by the same amount keeps the count. */
  lemma CountedAfter(s: State, s': State, b: nat, delta: int)
    requires Counted(s) && b < |s.blocks| == |s'.blocks| && s'.blocks == s.blocks[b := s'.blocks[b]]
    requires AccountedBytes(s'.blocks[b]) == AccountedBytes(s.blocks[b]) + delta
    requires s'.current == (s.current + delta) % MODULUS
    ensures Counted(s')
  {
    AccountedUpdate(s.blocks, b, s'.blocks[b]);
    ModAdd(Accounted(s.blocks), delta);
  }

  lemma CountedKept(s: State, step: Step)
    requires Ownership(s) && Counted(s) && Enabled(s, step)
    ensures Counted(Apply(s, step))
  {
    hide Accounted;
    var s' := Apply(s, step);
    match step
    case SystemAlloc(t, b, n) => CountedAfter(s, s', b, 0);
    case SystemFree(t, b) => CountedAfter(s, s', b, 0);
    case SystemRealloc(t, b, n) => CountedAfter(s, s', b, 0);
    case FetchAdd(t) =>
      assert OwnsBlock(s, t);
      CountedAfter(s, s', s.threads[t].block, s.threads[t].delta);
    case FetchMax(t) =>
      assert OwnsBlock(s, t);
      CountedAfter(s, s', s.threads[t].block, 0);
    case FetchSub(t) =>
      assert OwnsBlock(s, t);
      var delta: int := s.threads[t].delta;
      CountedAfter(s, s', s.threads[t].block, -delta);
    case _ =>
  }

  lemma ExclusiveKept(s: State, step: Step)
    requires Exclusive(s) && Enabled(s, step)
    ensures Exclusive(Apply(s, step))
  {
    var s' := Apply(s, step);
    if s'.windows != s.windows {
      assert exists w :: 0 <= w < |s.windows| && s' .windows == s.windows[w := s'.windows[w]];
    }
  }

  lemma RunLength(states: seq<State>, steps: seq<Step>)
    requires IsRun(states, steps)
    ensures |states| == |steps| + 1
  {
  }

  lemma RunStep(states: seq<State>, steps: seq<Step>, i: nat)
    requires IsRun(states, steps) && i < |steps|
    ensures |states| == |steps| + 1
    ensures Enabled(states[i], steps[i]) && states[i + 1] == Apply(states[i], steps[i])
  {
  }

  lemma {:induction false} InvHolds(states: seq<State>, steps: seq<Step>, i: nat)
    requires IsRun(states, steps) && i < |states|
    ensures Inv(states[i])
  {
    if i == 0 {
      AllFree(states[0].blocks);
    } else {
      InvHolds(states, steps, i - 1);
      RunStep(states, steps, i - 1);
      hide IsRun, Apply, Enabled, Ownership, Counted, Exclusive;
      OwnershipKept(states[i - 1], steps[i - 1]);
      CountedKept(states[i - 1], steps[i - 1]);
      ExclusiveKept(states[i - 1], steps[i - 1]);
    }
  }

  // ---- the live-byte counter ----

  /** In every state of every run CURRENT is the number of accounted bytes, modulo the word size. */
  lemma CurrentIsAccounted(states: seq<State>, steps: seq<Step>, i: nat)
    requires IsRun(states, steps) && i < |states|
    ensures states[i].current == Accounted(states[i].blocks) % MODULUS
    ensures states[i].current == Accounted(states[i].blocks) <==> Accounted(states[i].blocks) < MODULUS
  {
    InvHolds(states, steps, i);
  }

  /** Bytes held from the system, and bytes released to it but still counted. */
  function System(blocks: seq<Block>): nat {
    if blocks == [] then 0 else SystemBytes(blocks[0]) + System(blocks[1..])
  }

  function Backlog(blocks: seq<Block>): nat {
    if blocks == [] then 0
    else Backlog(blocks[1..]) +
         if AccountedBytes(blocks[0]) > SystemBytes(blocks[0])
         then AccountedBytes(blocks[0]) - SystemBytes(blocks[0]) else 0
  }

  lemma {:induction false} AccountedBound(blocks: seq<Block>)
    ensures Accounted(blocks) <= System(blocks) + Backlog(blocks)
  {
    if blocks != [] {
      AccountedBound(blocks[1..]);
    }
  }

  /** The counter is exact while the system's bytes plus the not yet subtracted ones fit a word. */
  lemma NeverWraps(states: seq<State>, steps: seq<Step>, i: nat)
    requires IsRun(states, steps) && i < |states|
    requires System(states[i].blocks) + Backlog(states[i].blocks) < MODULUS
    ensures states[i].current == Accounted(states[i].blocks)
  {
    CurrentIsAccounted(states, steps, i);
    AccountedBound(states[i].blocks);
  }

  /** With no thread inside the allocator the counter is the number of bytes held from the system. */
  lemma {:induction false} QuiescentTotals(blocks: seq<Block>)
    requires forall b :: 0 <= b < |blocks| ==> !blocks[b].Busy?
    ensures Accounted(blocks) == System(blocks)
  {
    if blocks != [] {
      QuiescentTotals(blocks[1..]);
    }
  }

  /**
    The only instruction a reallocation from `old_` to `new_` runs on CURRENT moves it by
    `new_ - old_` in machine arithmetic, and exactly so while the accounted total fits a word.
   */
  lemma ReallocNeverSpikes(s: State, t: nat, b: nat, n: nat, middle: State)
    requires Inv(s) && Enabled(s, SystemRealloc(t, b, n))
    requires Inv(middle) && |middle.threads| == |s.threads|
    requires middle.threads[t] == Apply(s, SystemRealloc(t, b, n)).threads[t]
    ensures n >= s.blocks[b].size ==>
              && Enabled(middle, FetchAdd(t)) && !Enabled(middle, FetchSub(t))
              && Apply(middle, FetchAdd(t)).current == (middle.current + (n - s.blocks[b].size)) % MODULUS
              && Apply(middle, FetchAdd(t)).current <= middle.current + (n - s.blocks[b].size)
    ensures n < s.blocks[b].size ==>
              && Enabled(middle, FetchSub(t)) && !Enabled(middle, FetchAdd(t))
              && Apply(middle, FetchSub(t)).current == (middle.current - (s.blocks[b].size - n)) % MODULUS
              && (Accounted(middle.blocks) < MODULUS ==>
                    Apply(middle, FetchSub(t)).current == middle.current - (s.blocks[b].size - n))
  {
    assert OwnsBlock(middle, t);
    if n < s.blocks[b].size {
      AccountedUpdate(middle.blocks, b, Free);
    }
  }

  // ---- measurement windows ----

  ghost predicate Holding(s: State, w: nat) {
    w < |s.windows| && !s.windows[w].Out?
  }

  /** The largest CURRENT in states `i..=j`. */
  function MaxCurrent(states: seq<State>, i: nat, j: nat): nat
    requires i <= j < |states|
    decreases j
  {
    if i == j then states[i].current else Max(MaxCurrent(states, i, j - 1), states[j].current)
  }

  lemma {:induction false} MaxCurrentIsMaximum(states: seq<State>, i: nat, j: nat)
    requires i <= j < |states|
    ensures forall k :: i <= k <= j ==> states[k].current <= MaxCurrent(states, i, j)
    ensures exists k :: i <= k <= j && states[k].current == MaxCurrent(states, i, j)
    decreases j
  {
    if i == j {
      assert states[i].current == MaxCurrent(states, i, j);
    } else {
      MaxCurrentIsMaximum(states, i, j - 1);
      var k :| i <= k <= j - 1 && states[k].current == MaxCurrent(states, i, j - 1);
      assert states[if states[j].current > states[k].current then j else k].current == MaxCurrent(states, i, j);
    }
  }

  /** No allocation sits between its `fetch_add` and its `fetch_max`. */
  ghost predicate NoneHalfAccounted(s: State) {
    forall t :: 0 <= t < |s.threads| ==> !s.threads[t].MaxPending?
  }

  ghost predicate WindowStepOf(step: Step, w: nat) {
    match step
    case Acquire(v) => v == w
    case LoadFirst(v) => v == w
    case StorePeak(v) => v == w
    case LoadSecond(v) => v == w
    case RaisePeak(v) => v == w
    case ReadPeak(v) => v == w
    case Release(v) => v == w
    case _ => false
  }

  ghost predicate WritesPeakBare(step: Step) {
    step.StorePeak? || step.RaisePeak? || step.Acquire? || step.Release?
  }

  /** While a measurer holds the token, nobody else acquires, resets or releases. */
  lemma NoOtherReset(s: State, step: Step, w: nat)
    requires Inv(s) && Holding(s, w) && Enabled(s, step)
    ensures WritesPeakBare(step) ==> WindowStepOf(step, w)
    ensures !WindowStepOf(step, w) ==> |Apply(s, step).windows| == |s.windows| && Apply(s, step).windows[w] == s.windows[w]
  {
  }

  // ---- lower bound ----

  /** Some place that ends up in PEAK already carries at least `c`. */
  ghost predicate Covered(s: State, w: nat, c: nat) {
    || c <= s.peak
    || (exists t :: 0 <= t < |s.threads| && s.threads[t].MaxPending? && c <= s.threads[t].value)
    || (w < |s.windows| && s.windows[w].Loaded2? && c <= s.windows[w].second)
  }

  ghost predicate Watching(s: State, w: nat) {
    w < |s.windows| && (s.windows[w].Loaded2? || s.windows[w].Open?)
  }

  lemma CoveredKept(s: State, step: Step, w: nat, c: nat)
    requires Inv(s) && Enabled(s, step) && Watching(s, w) && Covered(s, w, c)
    ensures Covered(Apply(s, step), w, c)
  {
    NoOtherReset(s, step, w);
    var s' := Apply(s, step);
    if exists t :: 0 <= t < |s.threads| && s.threads[t].MaxPending? && c <= s.threads[t].value {
      var t :| 0 <= t < |s.threads| && s.threads[t].MaxPending? && c <= s.threads[t].value;
      if step != FetchMax(t) {
        assert s'.threads[t] == s.threads[t];
      }
    }
  }

  /** A subtraction of more than CURRENT holds: in machine arithmetic it can raise CURRENT. */
  ghost predicate Underflows(s: State, step: Step) {
    step.FetchSub? && Enabled(s, step) && s.threads[step.t].delta > s.current
  }

  /** Such a subtraction that writes more than PEAK has or is about to get. */
  ghost predicate Escapes(s: State, step: Step, w: nat) {
    Underflows(s, step) && !Covered(s, w, (s.current - s.threads[step.t].delta) % MODULUS)
  }

  /** A subtraction changes nothing about what is covered. */
  lemma SubKeepsCover(s: State, step: Step, w: nat, c: nat)
    requires step.FetchSub? && Enabled(s, step)
    ensures Covered(Apply(s, step), w, c) <==> Covered(s, w, c)
  {
    var s' := Apply(s, step);
    assert forall t :: 0 <= t < |s.threads| && t != step.t ==> s'.threads[t] == s.threads[t];
    if exists t :: 0 <= t < |s.threads| && s.threads[t].MaxPending? && c <= s.threads[t].value {
      var t :| 0 <= t < |s.threads| && s.threads[t].MaxPending? && c <= s.threads[t].value;
      assert s'.threads[t].MaxPending?;
    }
  }

  /** No step but an addition or an underflowing subtraction raises CURRENT. */
  lemma OnlyAddRaisesCurrent(s: State, step: Step)
    requires Inv(s) && Enabled(s, step) && !step.FetchAdd? && !Underflows(s, step)
    ensures Apply(s, step).current <= s.current
  {
    hide Accounted;
  }

  /** The counter escapes coverage in exactly one way. */
  lemma CurrentCovered(s: State, step: Step, w: nat)
    requires Inv(s) && Enabled(s, step) && Watching(s, w) && Covered(s, w, s.current)
    ensures Covered(Apply(s, step), w, Apply(s, step).current) <==> !Escapes(s, step, w)
  {
    hide Accounted;
    var s' := Apply(s, step);
    if step.FetchAdd? {
      assert s'.threads[step.t].MaxPending? && s'.current <= s'.threads[step.t].value;
    } else if Underflows(s, step) {
      hide Inv;
      SubKeepsCover(s, step, w, s'.current);
    } else {
      OnlyAddRaisesCurrent(s, step);
      CoveredKept(s, step, w, s.current);
      hide Apply, Enabled, Inv;
    }
  }

  /** The steps from a first load to a final read of the same window. */
  ghost predicate IsWindow(states: seq<State>, steps: seq<Step>, w: nat, i1: nat, i2: nat, ir: nat) {
    && IsRun(states, steps)
    && i1 < i2 < ir < |steps|
    && steps[i1] == LoadFirst(w) && steps[i2] == LoadSecond(w) && steps[ir] == ReadPeak(w)
    && forall k :: i1 < k < ir ==> steps[k] != Release(w)
  }

  function Rank(w: Window): nat {
    match w
    case Out => 0
    case Acquired => 1
    case Loaded1(_) => 2
    case Stored => 3
    case Loaded2(_) => 4
    case Open => 5
    case Reported(_) => 6
  }

  function RankAt(s: State, w: nat): nat {
    if w < |s.windows| then Rank(s.windows[w]) else 0
  }

  lemma ForwardStep(s: State, step: Step, w: nat)
    requires Inv(s) && Holding(s, w) && Enabled(s, step) && step != Release(w)
    ensures Holding(Apply(s, step), w) && RankAt(s, w) <= RankAt(Apply(s, step), w)
  {
    NoOtherReset(s, step, w);
  }

  /** Until it is released a window only moves forward. */
  lemma {:induction false} WindowMovesForward(states: seq<State>, steps: seq<Step>, w: nat, i: nat, j: nat)
    requires IsRun(states, steps) && i <= j < |states| && Holding(states[i], w)
    requires forall k :: i <= k < j ==> steps[k] != Release(w)
    ensures Holding(states[j], w) && RankAt(states[i], w) <= RankAt(states[j], w)
    decreases j
  {
    hide IsRun, Apply, Enabled, Inv, Holding, RankAt;
    RunLength(states, steps);
    if i < j {
      WindowMovesForward(states, steps, w, i, j - 1);
      InvHolds(states, steps, j - 1);
      RunStep(states, steps, j - 1);
      ForwardStep(states[j - 1], steps[j - 1], w);
    }
  }

  /** Where the window stands between its three marked instructions. */
  lemma WindowPhase(states: seq<State>, steps: seq<Step>, w: nat, i1: nat, i2: nat, ir: nat, j: nat)
    requires IsWindow(states, steps, w, i1, i2, ir) && i1 < j <= ir
    ensures j <= i2 ==> 2 <= RankAt(states[j], w) <= 3
    ensures i2 < j ==> Watching(states[j], w)
  {
    assert states[i1 + 1] == Apply(states[i1], steps[i1]);
    WindowMovesForward(states, steps, w, i1 + 1, j);
    if j <= i2 {
      WindowMovesForward(states, steps, w, j, i2);
    } else {
      assert states[i2 + 1] == Apply(states[i2], steps[i2]);
      WindowMovesForward(states, steps, w, i2 + 1, j);
      WindowMovesForward(states, steps, w, j, ir);
    }
  }

  lemma SecondLoadCovers(s: State, w: nat)
    requires Enabled(s, LoadSecond(w))
    ensures var s' := Apply(s, LoadSecond(w));
            Covered(s', w, s'.current) && s'.current == s.current
  {
  }

  lemma FirstLoadBounds(s: State, w: nat)
    requires Enabled(s, LoadFirst(w)) && NoneHalfAccounted(s)
    ensures var s' := Apply(s, LoadFirst(w));
            Bounded(s', w, s'.current) && s'.current == s.current
  {
  }

  lemma {:induction false} LowerBound(states: seq<State>, steps: seq<Step>, w: nat, i1: nat, i2: nat, ir: nat, j: nat)
    requires IsWindow(states, steps, w, i1, i2, ir) && i2 < j <= ir
    requires forall k :: i2 < k < ir ==> !Escapes(states[k], steps[k], w)
    ensures Covered(states[j], w, MaxCurrent(states, i2, j)) && Covered(states[j], w, states[j].current)
    decreases j
  {
    hide IsRun, Apply, Enabled, Inv, Covered, Watching, Escapes;
    RunLength(states, steps);
    RunStep(states, steps, j - 1);
    if j == i2 + 1 {
      SecondLoadCovers(states[i2], w);
    } else {
      LowerBound(states, steps, w, i1, i2, ir, j - 1);
      InvHolds(states, steps, j - 1);
      WindowPhase(states, steps, w, i1, i2, ir, j - 1);
      CoveredKept(states[j - 1], steps[j - 1], w, MaxCurrent(states, i2, j - 1));
      CurrentCovered(states[j - 1], steps[j - 1], w);
    }
  }

  // ---- upper bound ----

  lemma WatchingRank(s: State, w: nat)
    ensures Watching(s, w) ==> RankAt(s, w) >= 4
  {
  }

  /** Everything that can still reach PEAK is at most `m`. */
  ghost predicate Bounded(s: State, w: nat, m: nat) {
    && w < |s.windows|
    && (forall t :: 0 <= t < |s.threads| && s.threads[t].MaxPending? ==> s.threads[t].value <= m)
    && (s.windows[w].Loaded1? ==> s.windows[w].first <= m)
    && (s.windows[w].Loaded2? ==> s.windows[w].second <= m)
    && (RankAt(s, w) >= 3 ==> s.peak <= m)
  }

  lemma BoundedKept(s: State, step: Step, w: nat, m: nat)
    requires Inv(s) && Enabled(s, step) && Bounded(s, w, m) && RankAt(s, w) >= 2 && s.current <= m
    requires step != Release(w)
    ensures Bounded(Apply(s, step), w, Max(m, Apply(s, step).current))
  {
    NoOtherReset(s, step, w);
    var s' := Apply(s, step);
    forall t | 0 <= t < |s'.threads| && s'.threads[t].MaxPending?
      ensures s'.threads[t].value <= Max(m, s'.current)
    {
      if s'.threads[t] == s.threads[t] {
        assert s.threads[t].MaxPending?;
      } else {
        assert step == FetchAdd(t);
      }
    }
  }

  lemma {:induction false} UpperBound(states: seq<State>, steps: seq<Step>, w: nat, i1: nat, i2: nat, ir: nat, j: nat)
    requires IsWindow(states, steps, w, i1, i2, ir) && i1 < j <= ir
    requires NoneHalfAccounted(states[i1])
    ensures Bounded(states[j], w, MaxCurrent(states, i1, j))
    decreases j
  {
    hide IsRun, Apply, Enabled, Inv, Bounded, RankAt, Watching;
    RunLength(states, steps);
    RunStep(states, steps, j - 1);
    if j == i1 + 1 {
      FirstLoadBounds(states[i1], w);
    } else {
      UpperBound(states, steps, w, i1, i2, ir, j - 1);
      InvHolds(states, steps, j - 1);
      WindowPhase(states, steps, w, i1, i2, ir, j - 1);
      MaxCurrentIsMaximum(states, i1, j - 1);
      WatchingRank(states[j - 1], w);
      BoundedKept(states[j - 1], steps[j - 1], w, MaxCurrent(states, i1, j - 1));
    }
  }

  /**
    The reported peak lies between the maximum of CURRENT from the second load on
    and its maximum from the first load on, for every interleaving.
   */
  lemma ReportedPeak(states: seq<State>, steps: seq<Step>, w: nat, i1: nat, i2: nat, ir: nat)
    requires IsWindow(states, steps, w, i1, i2, ir)
    ensures states[ir + 1].windows[w] == Reported(states[ir].peak)
    ensures NoneHalfAccounted(states[i1]) ==> states[ir].peak <= MaxCurrent(states, i1, ir)
    ensures NoneHalfAccounted(states[ir]) && (forall k :: i2 < k < ir ==> !Escapes(states[k], steps[k], w))
            ==> MaxCurrent(states, i2, ir) <= states[ir].peak
  {
    hide Escapes;
    assert states[ir + 1] == Apply(states[ir], steps[ir]);
    if NoneHalfAccounted(states[i1]) {
      UpperBound(states, steps, w, i1, i2, ir, ir);
    }
    if NoneHalfAccounted(states[ir]) && forall k :: i2 < k < ir ==> !Escapes(states[k], steps[k], w) {
      LowerBound(states, steps, w, i1, i2, ir, ir);
    }
  }

  /** The lower bound for windows in which no subtraction takes more than CURRENT holds. */
  lemma ReportedPeakWithoutUnderflow(states: seq<State>, steps: seq<Step>, w: nat, i1: nat, i2: nat, ir: nat)
    requires IsWindow(states, steps, w, i1, i2, ir) && NoneHalfAccounted(states[ir])
    requires forall k :: i2 < k < ir ==> !Underflows(states[k], steps[k])
    ensures MaxCurrent(states, i2, ir) <= states[ir].peak
  {
    hide IsRun, Apply, Enabled, Covered;
    ReportedPeak(states, steps, w, i1, i2, ir);
  }

  /** A pending subtraction is part of the accounted total. */
  lemma {:induction false} PartOfTotal(blocks: seq<Block>, b: nat)
    requires b < |blocks|
    ensures AccountedBytes(blocks[b]) <= Accounted(blocks)
  {
    if b > 0 {
      PartOfTotal(blocks[1..], b - 1);
    }
  }

  /** While the accounted total fits a word nothing underflows. */
  lemma FittingNeverUnderflows(s: State, step: Step)
    requires Inv(s) && Accounted(s.blocks) < MODULUS
    ensures !Underflows(s, step)
  {
    if step.FetchSub? && Enabled(s, step) {
      assert OwnsBlock(s, step.t);
      PartOfTotal(s.blocks, s.threads[step.t].block);
    }
  }

  /** So the lower bound holds for windows whose accounted total fits a word. */
  lemma ReportedPeakWhenFitting(states: seq<State>, steps: seq<Step>, w: nat, i1: nat, i2: nat, ir: nat)
    requires IsWindow(states, steps, w, i1, i2, ir) && NoneHalfAccounted(states[ir])
    requires forall k :: i2 < k < ir ==> Accounted(states[k].blocks) < MODULUS
    ensures MaxCurrent(states, i2, ir) <= states[ir].peak
  {
    hide IsRun, Underflows, Inv, Accounted, MaxCurrent, NoneHalfAccounted;
    RunLength(states, steps);
    forall k | i2 < k < ir ensures !Underflows(states[k], steps[k]) {
      InvHolds(states, steps, k);
      FittingNeverUnderflows(states[k], steps[k]);
    }
    ReportedPeakWithoutUnderflow(states, steps, w, i1, i2, ir);
  }

  /**
    And the guard is exact: whenever a window is open, nothing is half-accounted and a
    subtraction would escape, the run that takes it and then reads reports too little.
   */
  lemma EscapeBreaksTheReport(states: seq<State>, steps: seq<Step>, w: nat, i1: nat, i2: nat, t: nat)
    returns (states': seq<State>, steps': seq<Step>)
    requires IsRun(states, steps) && |states| == |steps| + 1 && i1 < i2 < |steps|
    requires steps[i1] == LoadFirst(w) && steps[i2] == LoadSecond(w) && forall k :: i1 < k < |steps| ==> steps[k] != Release(w)
    requires var s := states[|steps|];
             w < |s.windows| && s.windows[w].Open? && NoneHalfAccounted(s) && Escapes(s, FetchSub(t), w)
    ensures IsWindow(states', steps', w, i1, i2, |steps| + 1)
    ensures states <= states' && states'[|steps| + 1] == Apply(states[|steps|], FetchSub(t))
    ensures NoneHalfAccounted(states'[|steps| + 1])
    ensures states'[|steps| + 1].peak < MaxCurrent(states', i2, |steps| + 1)
  {
    hide IsRun;
    var n := |steps|;
    var s := states[n];
    var s1 := Apply(s, FetchSub(t));
    states', steps' := Extend(states, steps, FetchSub(t), s1);
    states', steps' := Extend(states', steps', ReadPeak(w), Apply(s1, ReadPeak(w)));
    assert states'[n + 1] == s1;
    assert forall k :: 0 <= k < n ==> steps'[k] == steps[k];
    MaxCurrentIsMaximum(states', i2, n + 1);
    assert !(s1.current <= s.peak);
  }

  /** Between a window's acquisition and its release every peak-writing window step is its own. */
  lemma WindowIsExclusive(states: seq<State>, steps: seq<Step>, w: nat, i: nat, j: nat)
    requires IsRun(states, steps) && i < j < |steps| && steps[i] == Acquire(w)
    requires forall k :: i < k < j ==> steps[k] != Release(w)
    ensures WritesPeakBare(steps[j]) ==> WindowStepOf(steps[j], w)
    ensures steps[j] != Acquire(w)
  {
    assert states[i + 1] == Apply(states[i], steps[i]);
    WindowMovesForward(states, steps, w, i + 1, j);
    InvHolds(states, steps, j);
    NoOtherReset(states[j], steps[j], w);
  }

  // ---- the hypotheses are needed ----

  lemma Extend(states: seq<State>, steps: seq<Step>, step: Step, next: State) returns (states': seq<State>, steps': seq<Step>)
    requires IsRun(states, steps) && |states| == |steps| + 1
    requires Enabled(states[|steps|], step) && next == Apply(states[|steps|], step)
    ensures states' == states + [next] && steps' == steps + [step] && IsRun(states', steps')
  {
    states', steps' := states + [next], steps + [step];
    forall i | 0 <= i < |steps'|
      ensures Enabled(states'[i], steps'[i]) && states'[i + 1] == Apply(states'[i], steps'[i])
    {
      if i < |steps| {
        RunStep(states, steps, i);
      }
    }
  }

  lemma Start(s: State) returns (states: seq<State>, steps: seq<Step>)
    requires Initial(s)
    ensures states == [s] && steps == [] && IsRun(states, steps)
  {
    states, steps := [s], [];
  }

  /** A run continued by the first two steps of an allocation. */
  lemma HalfAllocate(states: seq<State>, steps: seq<Step>, t: nat, b: nat, n: nat)
    returns (states': seq<State>, steps': seq<Step>)
    requires IsRun(states, steps) && |states| == |steps| + 1 && Enabled(states[|steps|], SystemAlloc(t, b, n))
    ensures |steps'| == |steps| + 2 && |states'| == |states| + 2 && IsRun(states', steps')
    ensures states' == states + states'[|states|..] && steps' == steps + [SystemAlloc(t, b, n), FetchAdd(t)]
    ensures var s := states[|steps|];
            var now := (s.current + n) % MODULUS;
            states'[|steps'|] ==
              s.(current := now, threads := s.threads[t := MaxPending(b, now)], blocks := s.blocks[b := Busy(n, n)])
  {
    hide IsRun;
    var s := states[|steps|];
    var s1 := s.(threads := s.threads[t := AddPending(b, n)], blocks := s.blocks[b := Busy(0, n)]);
    states', steps' := Extend(states, steps, SystemAlloc(t, b, n), s1);
    states', steps' := Extend(states', steps', FetchAdd(t), Apply(s1, FetchAdd(t)));
  }

  /** A run continued by a whole allocation. */
  lemma Allocate(states: seq<State>, steps: seq<Step>, t: nat, b: nat, n: nat)
    returns (states': seq<State>, steps': seq<Step>)
    requires IsRun(states, steps) && |states| == |steps| + 1 && Enabled(states[|steps|], SystemAlloc(t, b, n))
    ensures |steps'| == |steps| + 3 && |states'| == |states| + 3 && IsRun(states', steps')
    ensures states' == states + states'[|states|..] && steps' == steps + [SystemAlloc(t, b, n), FetchAdd(t), FetchMax(t)]
    ensures var s := states[|steps|];
            var now := (s.current + n) % MODULUS;
            && states'[|states| + 1].current == now
            && states'[|steps'|] == s.(current := now, peak := Max(s.peak, now), blocks := s.blocks[b := Live(n)])
  {
    hide IsRun;
    states', steps' := HalfAllocate(states, steps, t, b, n);
    var s2 := states'[|steps'|];
    states', steps' := Extend(states', steps', FetchMax(t), Apply(s2, FetchMax(t)));
  }

  /** A run continued by a whole deallocation. */
  lemma Deallocate(states: seq<State>, steps: seq<Step>, t: nat, b: nat)
    returns (states': seq<State>, steps': seq<Step>)
    requires IsRun(states, steps) && |states| == |steps| + 1 && Enabled(states[|steps|], SystemFree(t, b))
    ensures |steps'| == |steps| + 2 && |states'| == |states| + 2 && IsRun(states', steps')
    ensures states' == states + states'[|states|..] && steps' == steps + [SystemFree(t, b), FetchSub(t)]
    ensures var s := states[|steps|];
            states'[|steps'|] == s.(current := (s.current - s.blocks[b].size) % MODULUS, blocks := s.blocks[b := Free])
  {
    hide IsRun;
    var s := states[|steps|];
    var s1 := Apply(s, SystemFree(t, b));
    states', steps' := Extend(states, steps, SystemFree(t, b), s1);
    states', steps' := Extend(states', steps', FetchSub(t), Apply(s1, FetchSub(t)));
  }

  lemma FirstLoad(threads: seq<Thread>, blocks: seq<Block>) returns (states: seq<State>, steps: seq<Step>)
    requires forall t :: 0 <= t < |threads| ==> threads[t].Idle?
    requires forall b :: 0 <= b < |blocks| ==> blocks[b].Free?
    ensures |states| == 3 && steps == [Acquire(0), LoadFirst(0)] && IsRun(states, steps)
    ensures states[0].threads == states[1].threads == threads
    ensures states[2] == State(0, 0, 1, threads, blocks, [Loaded1(0)])
  {
    hide IsRun;
    states, steps := Start(State(0, 0, 0, threads, blocks, [Out]));
    states, steps := Extend(states, steps, Acquire(0), State(0, 0, 1, threads, blocks, [Acquired]));
    states, steps := Extend(states, steps, LoadFirst(0), State(0, 0, 1, threads, blocks, [Loaded1(0)]));
  }

  function Opening(w: nat): seq<Step> {
    [Acquire(w), LoadFirst(w), StorePeak(w), LoadSecond(w), RaisePeak(w)]
  }

  /** A run continued by opening the window without interruption. */
  lemma OpenAt(states: seq<State>, steps: seq<Step>) returns (states': seq<State>, steps': seq<Step>)
    requires IsRun(states, steps) && |states| == |steps| + 1
    requires states[|steps|].windows == [Out] && states[|steps|].active == 0
    ensures |states'| == |states| + 5 && steps' == steps + Opening(0) && IsRun(states', steps')
    ensures states'[..|states|] == states
    ensures forall i :: |steps| <= i <= |steps| + 5 ==>
              states'[i].threads == states[|steps|].threads && states'[i].current == states[|steps|].current
    ensures var s := states[|steps|]; states'[|steps| + 5] == s.(peak := s.current, active := 1, windows := [Open])
  {
    hide IsRun;
    var s := states[|steps|];
    var c := s.current;
    var at := s.(active := 1, windows := [Acquired]);
    states', steps' := Extend(states, steps, Acquire(0), at);
    states', steps' := Extend(states', steps', LoadFirst(0), at.(windows := [Loaded1(c)]));
    states', steps' := Extend(states', steps', StorePeak(0), at.(peak := c, windows := [Stored]));
    states', steps' := Extend(states', steps', LoadSecond(0), at.(peak := c, windows := [Loaded2(c)]));
    states', steps' := Extend(states', steps', RaisePeak(0), at.(peak := c, windows := [Open]));
  }

  /** A window opened on an idle system with the given threads and blocks. */
  lemma OpenWindow(threads: seq<Thread>, blocks: seq<Block>) returns (states: seq<State>, steps: seq<Step>)
    requires forall t :: 0 <= t < |threads| ==> threads[t].Idle?
    requires forall b :: 0 <= b < |blocks| ==> blocks[b].Free?
    ensures |states| == 6 && steps == Opening(0) && IsRun(states, steps)
    ensures states[5] == State(0, 0, 1, threads, blocks, [Open])
    ensures forall i :: 0 <= i <= 5 ==> states[i].threads == threads
  {
    hide IsRun;
    states, steps := Start(State(0, 0, 0, threads, blocks, [Out]));
    states, steps := OpenAt(states, steps);
  }

  lemma HalfRun() returns (states: seq<State>, steps: seq<Step>)
    ensures |states| == 9 && steps == Opening(0) + [SystemAlloc(0, 0, 10), FetchAdd(0), ReadPeak(0)] && IsRun(states, steps)
    ensures states[1].threads == [Idle] && states[7].current == 10 && states[7].peak == 0
  {
    hide IsRun;
    states, steps := OpenWindow([Idle], [Free]);
    states, steps := HalfAllocate(states, steps, 0, 0, 10);
    states, steps := Extend(states, steps, ReadPeak(0), State(10, 0, 1, [MaxPending(0, 10)], [Busy(10, 10)], [Reported(0)]));
  }

  /** An allocation half-accounted at the final read is missed by the report. */
  lemma HalfAccountedAtRead()
    ensures exists states: seq<State>, steps: seq<Step> :: IsWindow(states, steps, 0, 1, 3, 7)
              && NoneHalfAccounted(states[1]) && states[7].peak < MaxCurrent(states, 3, 7)
  {
    hide IsRun, Apply, Enabled;
    var states, steps := HalfRun();
    MaxCurrentIsMaximum(states, 3, 7);
    assert IsWindow(states, steps, 0, 1, 3, 7);
  }

  lemma BurstPrefix() returns (states: seq<State>, steps: seq<Step>)
    ensures |states| == 7 && |steps| == 6 && IsRun(states, steps)
    ensures steps[1] == LoadFirst(0) && forall i :: 0 <= i < 6 ==> steps[i] != Release(0)
    ensures states[1].threads == [Idle] && states[4].current == 10
    ensures states[6] == State(10, 0, 1, [Idle], [Live(10)], [Stored])
  {
    hide IsRun;
    states, steps := FirstLoad([Idle], [Free]);
    states, steps := Allocate(states, steps, 0, 0, 10);
    states, steps := Extend(states, steps, StorePeak(0), State(10, 0, 1, [Idle], [Live(10)], [Stored]));
  }

  /** A burst that ends between the two loads is missed: the lower bound starts at the second load. */
  lemma BurstBetweenLoads()
    ensures exists states: seq<State>, steps: seq<Step> :: IsWindow(states, steps, 0, 1, 8, 10)
              && NoneHalfAccounted(states[1]) && NoneHalfAccounted(states[10])
              && states[10].peak < MaxCurrent(states, 1, 10)
  {
    hide IsRun;
    var states, steps := BurstPrefix();
    states, steps := Deallocate(states, steps, 0, 0);
    states, steps := Extend(states, steps, LoadSecond(0), State(0, 0, 1, [Idle], [Free], [Loaded2(0)]));
    states, steps := Extend(states, steps, RaisePeak(0), State(0, 0, 1, [Idle], [Free], [Open]));
    states, steps := Extend(states, steps, ReadPeak(0), State(0, 0, 1, [Idle], [Free], [Reported(0)]));
    hide Apply, Enabled;
    MaxCurrentIsMaximum(states, 1, 10);
    assert states[4].current == 10;
    assert IsWindow(states, steps, 0, 1, 8, 10);
  }

  lemma StalePrefix() returns (states: seq<State>, steps: seq<Step>)
    ensures |states| == 8 && |steps| == 7 && IsRun(states, steps)
    ensures forall i :: 0 <= i < 7 ==> steps[i] != Release(0)
    ensures states[7] == State(10, 5, 0, [MaxPending(0, 15), Idle], [Busy(10, 10), Free], [Out])
  {
    hide IsRun;
    states, steps := Start(State(0, 0, 0, [Idle, Idle], [Free, Free], [Out]));
    states, steps := Allocate(states, steps, 1, 1, 5);
    states, steps := HalfAllocate(states, steps, 0, 0, 10);
    states, steps := Deallocate(states, steps, 1, 1);
  }

  /** An allocation half-accounted at the first load can be reported although it is over. */
  lemma HalfAccountedAtFirstLoad()
    ensures exists states: seq<State>, steps: seq<Step> :: IsWindow(states, steps, 0, 8, 10, 13)
              && NoneHalfAccounted(states[13]) && MaxCurrent(states, 8, 13) < states[13].peak
  {
    hide IsRun;
    var states, steps := StalePrefix();
    states, steps := OpenAt(states, steps);
    states, steps := Extend(states, steps, FetchMax(0), State(10, 15, 1, [Idle, Idle], [Live(10), Free], [Open]));
    states, steps := Extend(states, steps, ReadPeak(0), State(10, 15, 1, [Idle, Idle], [Live(10), Free], [Reported(15)]));
    hide Apply, Enabled;
    MaxCurrentIsMaximum(states, 8, 13);
    assert IsWindow(states, steps, 0, 8, 10, 13);
  }

  /** An allocation whose block is freed again, with the subtraction still to come. */
  lemma AllocateThenHoldFree(states: seq<State>, steps: seq<Step>, t: nat, n: nat)
    returns (states': seq<State>, steps': seq<Step>)
    requires IsRun(states, steps) && |states| == |steps| + 1 && Enabled(states[|steps|], SystemAlloc(t, t, n))
    ensures |states'| == |states| + 4 && IsRun(states', steps')
    ensures steps' == steps + [SystemAlloc(t, t, n), FetchAdd(t), FetchMax(t), SystemFree(t, t)]
    ensures var s := states[|steps|];
            var now := (s.current + n) % MODULUS;
            states'[|steps'|] == s.(current := now, peak := Max(s.peak, now),
                                    threads := s.threads[t := SubPending(t, n, true)],
                                    blocks := s.blocks[t := Busy(n, 0)])
  {
    hide IsRun;
    states', steps' := Allocate(states, steps, t, t, n);
    var s := states'[|steps'|];
    states', steps' := Extend(states', steps', SystemFree(t, t), Apply(s, SystemFree(t, t)));
  }

  const A_BLOCK: nat := 0x7fff_ffff_ffff_ffff
  const B_BLOCK: nat := 0x7fff_ffff_ffff_ffcd

  lemma FourBlocks(a: Block, b: Block, c: Block, d: Block)
    ensures System([a, b, c, d]) == SystemBytes(a) + SystemBytes(b) + SystemBytes(c) + SystemBytes(d)
    ensures Accounted([a, b, c, d]) == AccountedBytes(a) + AccountedBytes(b) + AccountedBytes(c) + AccountedBytes(d)
  {
    assert [a, b, c, d][1..] == [b, c, d];
    assert [b, c, d][1..] == [c, d];
    assert [c, d][1..] == [d];
    assert System([d]) == SystemBytes(d) + System([d][1..]);
    assert System([c, d]) == SystemBytes(c) + System([d]);
    assert System([b, c, d]) == SystemBytes(b) + System([c, d]);
    assert Accounted([d]) == AccountedBytes(d) + Accounted([d][1..]);
    assert Accounted([c, d]) == AccountedBytes(c) + Accounted([d]);
    assert Accounted([b, c, d]) == AccountedBytes(b) + Accounted([c, d]);
  }

  /** Two blocks of nearly half the address space, freed with their subtractions still to come. */
  lemma HeldFrees() returns (states: seq<State>, steps: seq<Step>)
    ensures |states| == 9 && |steps| == 8 && IsRun(states, steps) && forall i :: 0 <= i < 8 ==> steps[i] != Release(0)
    ensures states[8] == State(MODULUS - 52, MODULUS - 52, 0,
                               [Idle, SubPending(1, A_BLOCK, true), SubPending(2, B_BLOCK, true)],
                               [Free, Busy(A_BLOCK, 0), Busy(B_BLOCK, 0), Free], [Out])
  {
    hide IsRun;
    states, steps := Start(State(0, 0, 0, [Idle, Idle, Idle], [Free, Free, Free, Free], [Out]));
    states, steps := AllocateThenHoldFree(states, steps, 1, A_BLOCK);
    states, steps := AllocateThenHoldFree(states, steps, 2, B_BLOCK);
  }

  lemma WrapRun() returns (states: seq<State>, steps: seq<Step>)
    ensures |states| == |steps| + 1 && IsRun(states, steps)
    ensures states[|steps|].blocks == [Busy(100, 0), Busy(A_BLOCK, 0), Busy(B_BLOCK, 0), Free]
  {
    hide IsRun;
    states, steps := HeldFrees();
    states, steps := AllocateThenHoldFree(states, steps, 0, 100);
  }

  /** The counter can wrap although the system holds nothing, when enough frees have not reached their `fetch_sub`. */
  lemma CounterCanWrap()
    ensures exists states: seq<State>, steps: seq<Step> :: IsRun(states, steps)
              && var s := states[|steps|];
                 System(s.blocks) == 0 && s.current < Accounted(s.blocks)
  {
    hide IsRun, Accounted, System;
    var states, steps := WrapRun();
    FourBlocks(Busy(100, 0), Busy(A_BLOCK, 0), Busy(B_BLOCK, 0), Free);
    CurrentIsAccounted(states, steps, |steps|);
  }

  /** Then ten live bytes and an open window. */
  lemma EscapePrefix() returns (states: seq<State>, steps: seq<Step>)
    ensures |states| == 17 && |steps| == 16 && IsRun(states, steps)
    ensures steps[12] == LoadFirst(0) && steps[14] == LoadSecond(0) && forall i :: 0 <= i < 16 ==> steps[i] != Release(0)
    ensures var pending := [Idle, SubPending(1, A_BLOCK, true), SubPending(2, B_BLOCK, true)];
            && states[12].threads == pending
            && states[16] == State(MODULUS - 42, MODULUS - 42, 1, pending,
                                   [Live(10), Busy(A_BLOCK, 0), Busy(B_BLOCK, 0), Free], [Open])
  {
    hide IsRun;
    states, steps := HeldFrees();
    states, steps := Allocate(states, steps, 0, 0, 10);
    hide Apply, Enabled;
    states, steps := OpenAt(states, steps);
  }

  /** CURRENT has wrapped to 5 under a PEAK of 2^64 - 42, and ten bytes are about to be subtracted. */
  const ESCAPING: State :=
    State(5, MODULUS - 42, 1,
          [SubPending(0, 10, true), SubPending(1, A_BLOCK, true), SubPending(2, B_BLOCK, true)],
          [Busy(10, 0), Busy(A_BLOCK, 0), Busy(B_BLOCK, 0), Live(47)],
          [Open])

  lemma EscapingEscapes()
    ensures Escapes(ESCAPING, FetchSub(0), 0)
    ensures Apply(ESCAPING, FetchSub(0)).blocks == [Free, Busy(A_BLOCK, 0), Busy(B_BLOCK, 0), Live(47)]
  {
  }

  lemma EscapeRun() returns (states: seq<State>, steps: seq<Step>)
    ensures |states| == 21 && |steps| == 20 && IsRun(states, steps)
    ensures steps[12] == LoadFirst(0) && steps[14] == LoadSecond(0) && forall i :: 0 <= i < 20 ==> steps[i] != Release(0)
    ensures NoneHalfAccounted(states[12]) && states[20] == ESCAPING
  {
    hide IsRun;
    states, steps := EscapePrefix();
    states, steps := Allocate(states, steps, 0, 3, 47);
    states, steps := Extend(states, steps, SystemFree(0, 0), ESCAPING);
  }

  /**
    A subtraction that escapes is missed by the report, although the system holds 47 bytes at the
    read, nothing is half-accounted at either end and no block is larger than half the address space.
   */
  lemma UnderflowInWindow()
    ensures exists states: seq<State>, steps: seq<Step> :: IsWindow(states, steps, 0, 12, 14, 21)
              && NoneHalfAccounted(states[12]) && NoneHalfAccounted(states[21])
              && System(states[21].blocks) == 47 && states[21].peak < MaxCurrent(states, 14, 21)
  {
    hide IsRun, Apply, Enabled, Escapes, System, MaxCurrent;
    var states, steps := EscapeRun();
    EscapingEscapes();
    states, steps := EscapeBreaksTheReport(states, steps, 0, 12, 14, 0);
    FourBlocks(Free, Busy(A_BLOCK, 0), Busy(B_BLOCK, 0), Live(47));
  }
}
