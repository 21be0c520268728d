/** Isolate::AdjustAmountOfExternalAllocatedMemory: a 64-bit counter kept with
    wrapping arithmetic, and a limit that follows it down. */
module ExternalMemory {
  import opened Basics

  const MEMORY_REDUCER_ACTIVATION_LIMIT := 32 * 1024 * 1024
  const EXTERNAL_ALLOCATION_SOFT_LIMIT := 64 * 1024 * 1024

  /** static_cast<uint64_t> */
  function ToUint64(x: int): int {
    x % TWO64
  }

  /** static_cast<int64_t> of an unsigned value, and of any integer modulo 2^64. */
  function ToInt64(x: int): (r: int)
    ensures IsInt64(r)
  {
    (x + TWO63) % TWO64 - TWO63
  }

  datatype Counters = Counters(memory: int, limit: int, atLastMarkCompact: int)

  predicate InRange(c: Counters) {
    IsInt64(c.memory) && IsInt64(c.limit) && IsInt64(c.atLastMarkCompact)
  }

  function Adjusted(c: Counters, change: int): Counters {
    var amount := ToInt64(ToUint64(change) + ToUint64(c.memory));
    var lowerLimit := ToInt64(ToUint64(c.limit) + ToUint64(change));
    c.(memory := amount,
       limit := if change < 0 && lowerLimit > EXTERNAL_ALLOCATION_SOFT_LIMIT then lowerLimit else c.limit)
  }

  class Isolate {
    var externalMemory: int
    var externalMemoryLimit: int
    var externalMemoryAtLastMarkCompact: int
    var pressureChecks: nat       // calls of CheckMemoryPressure
    var limitReports: nat         // calls of ReportExternalAllocationLimitReached

    function Value(): Counters
      reads this
    {
      Counters(externalMemory, externalMemoryLimit, externalMemoryAtLastMarkCompact)
    }

    /** The external callbacks are assumed to leave the three counters alone. */
    method AdjustAmountOfExternalAllocatedMemory(change: int) returns (r: int)
      requires IsInt64(change) && InRange(Value())
      modifies this
      ensures InRange(Value()) && Value() == Adjusted(old(Value()), change)
      ensures r == externalMemory
      ensures pressureChecks == old(pressureChecks) +
        (if ToInt64(externalMemory - externalMemoryAtLastMarkCompact) > 32 * 1024 * 1024 then 1 else 0)
      ensures limitReports == old(limitReports) +
        (if change > 0 && externalMemory > externalMemoryLimit then 1 else 0)
    {
      var amount := ToInt64(ToUint64(change) + ToUint64(externalMemory));
      externalMemory := amount;
      var diff := ToInt64(ToUint64(externalMemory) - ToUint64(externalMemoryAtLastMarkCompact));
      WrapAbsorbs(externalMemory, -externalMemoryAtLastMarkCompact);
      WrapAbsorbsMinus(externalMemory, externalMemoryAtLastMarkCompact);
      if diff > MEMORY_REDUCER_ACTIVATION_LIMIT {
        pressureChecks := pressureChecks + 1;
      }
      if change < 0 {
        var lowerLimit := ToInt64(ToUint64(externalMemoryLimit) + ToUint64(change));
        if lowerLimit > EXTERNAL_ALLOCATION_SOFT_LIMIT {
          externalMemoryLimit := lowerLimit;
        }
      } else if change > 0 && amount > externalMemoryLimit {
        limitReports := limitReports + 1;
      }
      return externalMemory;
    }
  }

  // ---------------------------------------------------------------------
  // Wrapping arithmetic

  lemma SameResidue(x: int, k: int)
    ensures ToInt64(x + k * TWO64) == ToInt64(x)
  {
    var y := x + TWO63;
    assert (y + k * TWO64) % TWO64 == y % TWO64;
  }

  lemma WrapAbsorbs(a: int, b: int)
    ensures ToInt64(ToUint64(a) + ToUint64(b)) == ToInt64(a + b)
    ensures ToInt64(ToInt64(a) + b) == ToInt64(a + b)
  {
    SameResidue(ToUint64(a) + ToUint64(b), a / TWO64 + b / TWO64);
    assert ToUint64(a) + ToUint64(b) + (a / TWO64 + b / TWO64) * TWO64 == a + b;
    SameResidue(ToInt64(a) + b, (a + TWO63) / TWO64);
  }

  lemma WrapAbsorbsMinus(a: int, b: int)
    ensures ToInt64(ToUint64(a) - ToUint64(b)) == ToInt64(a - b)
  {
    SameResidue(ToUint64(a) - ToUint64(b), a / TWO64 - b / TWO64);
    assert ToUint64(a) - ToUint64(b) + (a / TWO64 - b / TWO64) * TWO64 == a - b;
  }

  lemma WrapExact(x: int)
    ensures ToInt64(x) == x <==> IsInt64(x)
  {
  }

  lemma WrapIsCongruent(x: int)
    ensures (ToInt64(x) - x) % TWO64 == 0
  {
    var q := (x + TWO63) / TWO64;
    assert ToInt64(x) - x == -q * TWO64;
    assert (-q * TWO64) % TWO64 == 0;
  }

  // ---------------------------------------------------------------------
  // Runs

  function AdjustedAll(c: Counters, changes: seq<int>): Counters {
    if changes == [] then c
    else Adjusted(AdjustedAll(c, changes[..|changes| - 1]), changes[|changes| - 1])
  }

  function Sum(changes: seq<int>): int {
    if changes == [] then 0 else Sum(changes[..|changes| - 1]) + changes[|changes| - 1]
  }

  lemma {:induction false} CounterWraps(c: Counters, changes: seq<int>)
    requires InRange(c)
    ensures AdjustedAll(c, changes).memory == ToInt64(c.memory + Sum(changes))
  {
    if changes == [] {
      WrapExact(c.memory);
    } else {
      var before := changes[..|changes| - 1];
      CounterWraps(c, before);
      StepIsTotal(AdjustedAll(c, before), c.memory + Sum(before), changes[|changes| - 1]);
    }
  }

  /** The counter is the true total modulo 2^64, so it is the true total exactly
      when that fits. */
  lemma CounterIsTotal(c: Counters, changes: seq<int>)
    requires InRange(c)
    ensures var total, memory := c.memory + Sum(changes), AdjustedAll(c, changes).memory;
      && IsInt64(memory) && (memory - total) % 0x1_0000_0000_0000_0000 == 0
      && (memory == total <==> IsInt64(total))
  {
    CounterWraps(c, changes);
    WrapExact(c.memory + Sum(changes));
    WrapIsCongruent(c.memory + Sum(changes));
  }

  lemma StepIsTotal(c: Counters, total: int, change: int)
    requires c.memory == ToInt64(total)
    ensures Adjusted(c, change).memory == ToInt64(total + change)
  {
    WrapAbsorbs(change, c.memory);
    WrapAbsorbs(total, change);
  }

  lemma {:induction false} SumWithout(changes: seq<int>, i: nat)
    requires i < |changes|
    ensures Sum(changes) == Sum(changes[..i] + changes[i + 1..]) + changes[i]
  {
    var n := |changes|;
    var without := changes[..i] + changes[i + 1..];
    if i == n - 1 {
      assert without == changes[..n - 1];
    } else {
      SumWithout(changes[..n - 1], i);
      assert without[..n - 2] == changes[..n - 1][..i] + changes[..n - 1][i + 1..];
      assert without[n - 2] == changes[n - 1];
    }
  }

  lemma MultisetWithout(s: seq<int>, i: nat)
    requires i < |s|
    ensures multiset(s[..i] + s[i + 1..]) == multiset(s) - multiset{s[i]}
  {
    assert s == s[..i] + [s[i]] + s[i + 1..];
  }

  lemma {:induction false} SumOfPermutation(a: seq<int>, b: seq<int>)
    requires multiset(a) == multiset(b)
    ensures Sum(a) == Sum(b)
  {
    if a == [] {
      assert b == [] by { assert |multiset(b)| == 0; }
    } else {
      var last := a[|a| - 1];
      assert last in multiset(b);
      var i :| 0 <= i < |b| && b[i] == last;
      MultisetWithout(b, i);
      MultisetWithout(a, |a| - 1);
      assert a[..|a| - 1] + a[|a| - 1 + 1..] == a[..|a| - 1];
      SumOfPermutation(a[..|a| - 1], b[..i] + b[i + 1..]);
      SumWithout(b, i);
    }
  }

  /** The counter does not depend on the order of the changes. */
  lemma CounterIgnoresOrder(c: Counters, a: seq<int>, b: seq<int>)
    requires InRange(c) && multiset(a) == multiset(b)
    ensures AdjustedAll(c, a).memory == AdjustedAll(c, b).memory
  {
    SumOfPermutation(a, b);
    CounterWraps(c, a);
    CounterWraps(c, b);
  }

  /** The limit, exactly: a negative change lowers it by its amount if the result
      stays above 64 MiB, where going below -2^63 wraps round; nothing else moves it. */
  lemma LimitMoves(c: Counters, change: int)
    requires InRange(c) && IsInt64(change)
    ensures var sum := c.limit + change;
      var lowered := if sum < -0x8000_0000_0000_0000 then sum + 0x1_0000_0000_0000_0000 else sum;
      Adjusted(c, change).limit == if change < 0 && lowered > 0x400_0000 then lowered else c.limit
    ensures Adjusted(c, change).atLastMarkCompact == c.atLastMarkCompact
  {
    WrapAbsorbs(c.limit, change);
    var sum := c.limit + change;
    WrapExact(sum);
    if sum < -TWO63 {
      SameResidue(sum, 1);
      WrapExact(sum + TWO64);
    }
  }

  /** What a run makes of a limit, in plain integers. */
  function LoweredAll(limit: int, changes: seq<int>): int {
    if changes == [] then limit else
    var earlier, change := LoweredAll(limit, changes[..|changes| - 1]), changes[|changes| - 1];
    if change < 0 && earlier + change > 0x400_0000 then earlier + change else earlier
  }

  /** From a limit of zero or more nothing ever wraps. */
  lemma {:induction false} LimitFollowsChanges(c: Counters, changes: seq<int>)
    requires InRange(c) && c.limit >= 0 && (forall i :: 0 <= i < |changes| ==> IsInt64(changes[i]))
    ensures AdjustedAll(c, changes).limit == LoweredAll(c.limit, changes) >= 0
    ensures InRange(AdjustedAll(c, changes))
  {
    if changes != [] {
      var before, change := changes[..|changes| - 1], changes[|changes| - 1];
      LimitFollowsChanges(c, before);
      LimitMoves(AdjustedAll(c, before), change);
    }
  }

  /** The limit only ever moves to values above the soft limit; started at the
      soft limit or more, it never rises and never falls below. */
  lemma {:induction false} LimitKeepsFloor(c: Counters, changes: seq<int>)
    requires InRange(c) && (forall i :: 0 <= i < |changes| ==> IsInt64(changes[i]))
    ensures var limit := AdjustedAll(c, changes).limit;
      && (limit == c.limit || limit > EXTERNAL_ALLOCATION_SOFT_LIMIT)
      && (c.limit >= EXTERNAL_ALLOCATION_SOFT_LIMIT ==> EXTERNAL_ALLOCATION_SOFT_LIMIT <= limit <= c.limit)
  {
    if changes != [] {
      var before, change := changes[..|changes| - 1], changes[|changes| - 1];
      LimitKeepsFloor(c, before);
      LimitStep(AdjustedAll(c, before), change);
    }
  }

  lemma LimitStep(c: Counters, change: int)
    requires IsInt64(change)
    ensures var limit := Adjusted(c, change).limit;
      && (limit == c.limit || limit > EXTERNAL_ALLOCATION_SOFT_LIMIT)
      && (EXTERNAL_ALLOCATION_SOFT_LIMIT <= c.limit < TWO63 ==> EXTERNAL_ALLOCATION_SOFT_LIMIT <= limit <= c.limit)
  {
    if EXTERNAL_ALLOCATION_SOFT_LIMIT <= c.limit < TWO63 && change < 0 {
      WrapAbsorbs(c.limit, change);
      WrapExact(c.limit + change);
    }
  }
}
