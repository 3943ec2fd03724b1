/**
  The accounting code itself, run by one thread: the three counters as fields and
  each accounting function as a method. The interleaved behaviour is in PeakMem.
 */
module PeakTracker {
  import opened Common
  import opened PeakMem

  /** One call into the allocator. */
  datatype Op =
    | Alloc(size: nat)
    | Dealloc(size: nat)
    | Realloc(oldSize: nat, newSize: nat)

  /** The signed effect of a call on the live-byte counter. */
  function Delta(op: Op): int {
    match op
    case Alloc(size) => size
    case Dealloc(size) => -(size as int)
    case Realloc(oldSize, newSize) => newSize - oldSize
  }

  /** Live bytes after a workload. */
  function LiveAfter(current: int, ops: seq<Op>): int {
    if ops == [] then current else LiveAfter(current, ops[..|ops| - 1]) + Delta(ops[|ops| - 1])
  }

  /** A workload that frees only what is live and never fills a machine word. */
  ghost predicate Fits(current: int, ops: seq<Op>) {
    forall i :: 0 <= i <= |ops| ==> 0 <= LiveAfter(current, ops[..i]) < MODULUS
  }

  /** `peak` is the largest live count before, between and after the calls of a workload. */
  ghost predicate IsHighWater(current: int, ops: seq<Op>, peak: int) {
    && (forall i :: 0 <= i <= |ops| ==> LiveAfter(current, ops[..i]) <= peak)
    && (exists i :: 0 <= i <= |ops| && LiveAfter(current, ops[..i]) == peak)
  }

  /** The calls that look at the peak: allocations, and reallocations that do not shrink. */
  predicate Adds(op: Op) {
    op.Alloc? || (op.Realloc? && op.newSize >= op.oldSize)
  }

  /** The counter after the first `i` calls, in machine arithmetic. */
  function CounterAt(current: int, ops: seq<Op>, i: nat): U64
    requires i <= |ops|
  {
    LiveAfter(current, ops[..i]) % MODULUS
  }

  /** A point of the workload at which the counter reaches the peak: its start, and the end of each adding call. */
  predicate Noted(ops: seq<Op>, i: int) {
    0 <= i <= |ops| && (i == 0 || Adds(ops[i - 1]))
  }

  /** `peak` is the largest counter value that was noted. */
  ghost predicate IsNotedPeak(current: int, ops: seq<Op>, peak: int) {
    && (forall i :: Noted(ops, i) ==> CounterAt(current, ops, i) <= peak)
    && (exists i :: Noted(ops, i) && CounterAt(current, ops, i) == peak)
  }

  class PeakCounters {
    var current: U64
    var peak: U64
    var windowActive: nat

    constructor ()
      ensures current == 0 && peak == 0 && windowActive == 0
    {
      current, peak, windowActive := 0, 0, 0;
    }

    method AccountAlloc(size: nat)
      modifies this`current, this`peak
      ensures current == (old(current) + size) % MODULUS
      ensures peak == Max(old(peak), current)
    {
      current := (current + size) % MODULUS;
      peak := Max(peak, current);
    }

    method AccountDealloc(size: nat)
      modifies this`current
      ensures current == (old(current) - size) % MODULUS
    {
      current := (current - size) % MODULUS;
    }

    /** Growth never adds more than `new - old`; shrinking leaves the peak alone. */
    method AccountRealloc(oldSize: nat, newSize: nat)
      modifies this`current, this`peak
      ensures current == (old(current) + newSize - oldSize) % MODULUS
      ensures peak == if newSize >= oldSize then Max(old(peak), current) else old(peak)
    {
      if newSize >= oldSize {
        AccountAlloc(newSize - oldSize);
      } else {
        AccountDealloc(oldSize - newSize);
      }
    }

    method Account(op: Op)
      modifies this`current, this`peak
      ensures current == (old(current) + Delta(op)) % MODULUS
      ensures peak == if Adds(op) then Max(old(peak), current) else old(peak)
    {
      match op
      case Alloc(size) => AccountAlloc(size);
      case Dealloc(size) => AccountDealloc(size);
      case Realloc(oldSize, newSize) => AccountRealloc(oldSize, newSize);
    }

    method ResetPeakOwned()
      modifies this`peak
      ensures peak == current
    {
      peak := current;
      peak := Max(peak, current);
    }

    /** Takes the token if it is free. */
    method Acquire() returns (ok: bool)
      modifies this`windowActive
      ensures ok <==> old(windowActive) == 0
      ensures windowActive == if ok then 1 else old(windowActive)
    {
      ok := windowActive == 0;
      if ok {
        windowActive := 1;
      }
    }

    /** Refused, and nothing touched, while a window is open. */
    method Reset() returns (ok: bool)
      modifies this`peak, this`windowActive
      ensures ok <==> old(windowActive) == 0
      ensures windowActive == old(windowActive)
      ensures peak == if ok then current else old(peak)
    {
      ok := Acquire();
      if ok {
        ResetPeakOwned();
        windowActive := 0;
      }
    }

    /**
      A refused measurement runs nothing. A granted one reports the largest counter value that was
      noted, which is the workload's high water whenever the workload fits.
     */
    method Measure(workload: seq<Op>) returns (r: Option<nat>)
      modifies this
      ensures r.None? <==> old(windowActive) != 0
      ensures r.None? ==> current == old(current) && peak == old(peak)
      ensures r.Some? ==> current == LiveAfter(old(current), workload) % MODULUS
      ensures r.Some? ==> IsNotedPeak(old(current), workload, r.value)
      ensures r.Some? && Fits(old(current), workload) ==> IsHighWater(old(current), workload, r.value)
      ensures windowActive == old(windowActive)
    {
      var ok := Acquire();
      if !ok {
        return None;
      }
      ResetPeakOwned();
      ghost var start, at := current, 0;
      assert workload[..0] == [];
      assert workload[..|workload|] == workload;
      var i := 0;
      while i < |workload|
        invariant 0 <= i <= |workload| && windowActive == 1
        invariant current == CounterAt(start, workload, i)
        invariant forall j :: Noted(workload, j) && j <= i ==> CounterAt(start, workload, j) <= peak
        invariant Noted(workload, at) && at <= i && CounterAt(start, workload, at) == peak
      {
        CounterStep(start, workload, i);
        Account(workload[i]);
        i := i + 1;
        if current == peak && Noted(workload, i) {
          at := i;
        }
      }
      windowActive := 0;
      r := Some(peak);
      if Fits(start, workload) {
        NotedIsHighWater(start, workload, peak);
      }
    }
  }

  lemma CounterStep(current: int, ops: seq<Op>, i: nat)
    requires i < |ops|
    ensures CounterAt(current, ops, i + 1) == (CounterAt(current, ops, i) + Delta(ops[i])) % MODULUS
  {
    assert ops[..i + 1][..i] == ops[..i];
    ModAdd(LiveAfter(current, ops[..i]), Delta(ops[i]));
  }

  /** The last adding call at or before `i`, or the start, holds at least as many live bytes. */
  lemma {:induction false} SomeNotedAbove(current: int, ops: seq<Op>, i: nat) returns (j: nat)
    requires i <= |ops|
    ensures j <= i && Noted(ops, j) && LiveAfter(current, ops[..i]) <= LiveAfter(current, ops[..j])
  {
    if Noted(ops, i) {
      j := i;
    } else {
      j := SomeNotedAbove(current, ops, i - 1);
      assert ops[..i][..i - 1] == ops[..i - 1];
    }
  }

  lemma NotedIsHighWater(current: int, ops: seq<Op>, peak: int)
    requires Fits(current, ops) && IsNotedPeak(current, ops, peak)
    ensures IsHighWater(current, ops, peak)
  {
    hide LiveAfter;
    assert forall i :: 0 <= i <= |ops| ==> CounterAt(current, ops, i) == LiveAfter(current, ops[..i]);
    forall i | 0 <= i <= |ops| ensures LiveAfter(current, ops[..i]) <= peak {
      var j := SomeNotedAbove(current, ops, i);
    }
    var i :| Noted(ops, i) && CounterAt(current, ops, i) == peak;
    assert LiveAfter(current, ops[..i]) == peak;
  }

  /** Running one workload after the other adds their effects. */
  lemma {:induction false} LiveAfterAppend(current: int, before: seq<Op>, after: seq<Op>)
    ensures LiveAfter(current, before + after) == LiveAfter(LiveAfter(current, before), after)
  {
    if after == [] {
      assert before + after == before;
    } else {
      var init := after[..|after| - 1];
      LiveAfterAppend(current, before, init);
      assert (before + after)[..|before + after| - 1] == before + init;
    }
  }

  lemma PrefixOfBoth(current: int, before: seq<Op>, after: seq<Op>, i: nat)
    requires i <= |before| + |after|
    ensures LiveAfter(current, (before + after)[..i])
         == if i <= |before| then LiveAfter(current, before[..i])
            else LiveAfter(LiveAfter(current, before), after[..i - |before|])
  {
    if i <= |before| {
      assert (before + after)[..i] == before[..i];
    } else {
      assert (before + after)[..i] == before + after[..i - |before|];
      LiveAfterAppend(current, before, after[..i - |before|]);
    }
  }

  /** Every count of the first workload is one of both. */
  lemma FirstCounts(current: int, before: seq<Op>, after: seq<Op>, p: int)
    requires exists i :: 0 <= i <= |before| && LiveAfter(current, before[..i]) == p
    ensures exists i :: 0 <= i <= |before + after| && LiveAfter(current, (before + after)[..i]) == p
  {
    hide LiveAfter;
    var i :| 0 <= i <= |before| && LiveAfter(current, before[..i]) == p;
    PrefixOfBoth(current, before, after, i);
  }

  /** So is every count of the second, run behind the first. */
  lemma SecondCounts(current: int, before: seq<Op>, after: seq<Op>, q: int)
    requires exists i :: 0 <= i <= |after| && LiveAfter(LiveAfter(current, before), after[..i]) == q
    ensures exists i :: 0 <= i <= |before + after| && LiveAfter(current, (before + after)[..i]) == q
  {
    hide LiveAfter;
    var i :| 0 <= i <= |after| && LiveAfter(LiveAfter(current, before), after[..i]) == q;
    if i == 0 {
      LiveAfterNothing(LiveAfter(current, before));
      assert after[..0] == [] && before[..|before|] == before;
      FirstCounts(current, before, after, q);
    } else {
      PrefixOfBoth(current, before, after, |before| + i);
      assert LiveAfter(current, (before + after)[..|before| + i]) == q;
    }
  }

  /** Two measurements in a row say as much as one over both workloads: its high water is the larger of theirs. */
  lemma HighWaterAppend(current: int, before: seq<Op>, after: seq<Op>, p: int, q: int)
    requires IsHighWater(current, before, p) && IsHighWater(LiveAfter(current, before), after, q)
    ensures IsHighWater(current, before + after, if p < q then q else p)
  {
    hide LiveAfter;
    var both, m := before + after, if p < q then q else p;
    forall i | 0 <= i <= |both| ensures LiveAfter(current, both[..i]) <= m {
      PrefixOfBoth(current, before, after, i);
    }
    if p < q {
      SecondCounts(current, before, after, q);
    } else {
      FirstCounts(current, before, after, p);
    }
  }

  lemma LiveAfterNothing(current: int)
    ensures LiveAfter(current, []) == current
  {
  }
}
