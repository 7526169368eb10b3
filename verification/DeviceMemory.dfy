/** The device memory resource's counters. The maximum is not set to the new use when that exceeds it:
    the size of the allocation is added to it, so it can run ahead of the true peak. */
module DeviceMemory {
  import opened Collections

  datatype Counters = Counters(used: nat, max: nat)

  /** A null pointer or zero bytes is ignored. */
  datatype Op = Allocate(bytes: nat) | Deallocate(isNull: bool, bytes: nat)

  function Next(c: Counters, op: Op): Counters
  {
    match op
    case Allocate(bytes) =>
      if bytes == 0 then c
      else Counters(c.used + bytes, if c.max < c.used + bytes then c.max + bytes else c.max)
    case Deallocate(isNull, bytes) =>
      if isNull || bytes == 0 then c
      else c.(used := if c.used < bytes then 0 else c.used - bytes)
  }

  function After(c: Counters, ops: seq<Op>): Counters
    decreases |ops|
  {
    if ops == [] then c else After(Next(c, ops[0]), ops[1..])
  }

  /** The largest use seen at any point of the run. */
  function Peak(c: Counters, ops: seq<Op>): nat
    decreases |ops|
  {
    if ops == [] then c.used else Max(c.used, Peak(Next(c, ops[0]), ops[1..]))
  }

  function Largest(ops: seq<Op>): nat
  {
    if ops == [] then 0 else Max(if ops[0].Allocate? then ops[0].bytes else 0, Largest(ops[1..]))
  }

  lemma {:induction false} PeakBound(c: Counters, ops: seq<Op>)
    requires c.used <= c.max
    ensures Peak(c, ops) <= After(c, ops).max
    ensures After(c, ops).max == c.max || c.max < After(c, ops).max < Peak(c, ops) + Largest(ops)
    decreases |ops|
  {
    if ops == [] {
    } else {
      var c1 := Next(c, ops[0]);
      PeakBound(c1, ops[1..]);
      assert Peak(c1, ops[1..]) >= c1.used;
      assert c1.max == c.max || c1.max < c1.used + Largest(ops);
    }
  }

  /** Over every run from zero: true peak <= reported maximum, and the overshoot is less than the largest
      single allocation; nothing allocated means nothing reported. */
  lemma MaximumBracketsPeak(ops: seq<Op>)
    ensures var c := After(Counters(0, 0), ops);
            && c.used <= Peak(Counters(0, 0), ops) <= c.max
            && (c.max == 0 || c.max < Peak(Counters(0, 0), ops) + Largest(ops))
  {
    PeakBound(Counters(0, 0), ops);
    UsedAtMostPeak(Counters(0, 0), ops);
  }

  lemma {:induction false} UsedAtMostPeak(c: Counters, ops: seq<Op>)
    ensures After(c, ops).used <= Peak(c, ops)
    decreases |ops|
  {
    if ops == [] {
    } else {
      UsedAtMostPeak(Next(c, ops[0]), ops[1..]);
    }
  }

  /** The peak is the largest use after any prefix of the run, and some prefix reaches it. */
  lemma {:induction false} PeakIsReached(c: Counters, ops: seq<Op>) returns (k: nat)
    ensures forall i :: 0 <= i <= |ops| ==> After(c, ops[..i]).used <= Peak(c, ops)
    ensures k <= |ops| && After(c, ops[..k]).used == Peak(c, ops)
    decreases |ops|
  {
    assert After(c, ops[..0]) == c;
    if ops == [] {
      k := 0;
    } else {
      var c1, rest := Next(c, ops[0]), ops[1..];
      var j := PeakIsReached(c1, rest);
      forall i | 0 < i <= |ops|
        ensures After(c, ops[..i]) == After(c1, rest[..i - 1])
      {
        assert ops[..i][1..] == rest[..i - 1];
      }
      k := if Peak(c1, rest) > c.used then j + 1 else 0;
    }
  }

  /** No allocation is larger than the largest, and some allocation is that large, unless there is none. */
  lemma {:induction false} LargestIsLargest(ops: seq<Op>)
    ensures forall i :: 0 <= i < |ops| && ops[i].Allocate? ==> ops[i].bytes <= Largest(ops)
    ensures Largest(ops) == 0 || exists i :: 0 <= i < |ops| && ops[i] == Allocate(Largest(ops))
  {
    if ops == [] {
    } else {
      LargestIsLargest(ops[1..]);
      forall i | 0 < i < |ops| && ops[i].Allocate?
        ensures ops[i].bytes <= Largest(ops)
      {
        assert ops[i] == ops[1..][i - 1];
      }
      if i :| 0 <= i < |ops[1..]| && ops[1..][i] == Allocate(Largest(ops)) {
        assert ops[i + 1] == Allocate(Largest(ops));
      } else if Largest(ops) > 0 {
        assert ops[0] == Allocate(Largest(ops));
      }
    }
  }

  // ---------------------------------------------------------------- when the maximum is the peak

  /** Every allocation that raises the maximum starts with all of it in use. */
  predicate Tight(c: Counters, ops: seq<Op>)
    decreases |ops|
  {
    ops == []
    || (&& (ops[0].Allocate? && c.max < c.used + ops[0].bytes ==> c.used == c.max)
        && Tight(Next(c, ops[0]), ops[1..]))
  }

  /** The maximum is the peak now and after every operation of the run, `peak` being the peak so far. */
  predicate Exact(c: Counters, peak: nat, ops: seq<Op>)
    decreases |ops|
  {
    c.max == peak && (ops == [] || Exact(Next(c, ops[0]), Max(peak, Next(c, ops[0]).used), ops[1..]))
  }

  lemma {:induction false} ExactIsTight(c: Counters, peak: nat, ops: seq<Op>)
    requires c.used <= peak == c.max
    ensures Exact(c, peak, ops) <==> Tight(c, ops)
    decreases |ops|
  {
    if ops == [] {
    } else {
      var c1 := Next(c, ops[0]);
      if c1.max == Max(peak, c1.used) {
        ExactIsTight(c1, c1.max, ops[1..]);
      }
    }
  }

  /** The peak of a run that starts with this peak behind it. */
  function PeakWith(peak: nat, c: Counters, ops: seq<Op>): nat
  {
    Max(peak, Peak(c, ops))
  }

  lemma PeakNext(peak: nat, c: Counters, ops: seq<Op>, k: nat)
    requires 0 < k <= |ops| && c.used <= peak
    ensures var c1 := Next(c, ops[0]);
            && After(c, ops[..k]) == After(c1, ops[1..][..k - 1])
            && PeakWith(peak, c, ops[..k]) == PeakWith(Max(peak, c1.used), c1, ops[1..][..k - 1])
  {
    assert ops[..k][1..] == ops[1..][..k - 1];
    PeakAtLeast(Next(c, ops[0]), ops[1..][..k - 1]);
  }

  lemma PeakAtLeast(c: Counters, ops: seq<Op>)
    ensures Peak(c, ops) >= c.used
  {
  }

  lemma {:induction false} ExactIsEveryPrefix(c: Counters, peak: nat, ops: seq<Op>)
    requires c.used <= peak
    ensures Exact(c, peak, ops) <==> forall k :: 0 <= k <= |ops| ==> After(c, ops[..k]).max == PeakWith(peak, c, ops[..k])
    decreases |ops|
  {
    assert After(c, ops[..0]) == c && PeakWith(peak, c, ops[..0]) == peak;
    if ops == [] {
    } else {
      var c1, rest := Next(c, ops[0]), ops[1..];
      var peak1 := Max(peak, c1.used);
      ExactIsEveryPrefix(c1, peak1, rest);
      forall k | 0 < k <= |ops|
        ensures After(c, ops[..k]).max == PeakWith(peak, c, ops[..k])
           <==> After(c1, rest[..k - 1]).max == PeakWith(peak1, c1, rest[..k - 1])
      {
        PeakNext(peak, c, ops, k);
      }
      forall k | 0 <= k <= |rest|
        ensures After(c, ops[..k + 1]).max == PeakWith(peak, c, ops[..k + 1])
           <==> After(c1, rest[..k]).max == PeakWith(peak1, c1, rest[..k])
      {
        PeakNext(peak, c, ops, k + 1);
      }
    }
  }

  /** From zero, the maximum is the true peak throughout a run exactly when every allocation that raises
      the maximum starts with all of it in use. */
  lemma MaximumIsPeak(ops: seq<Op>)
    ensures (forall k :: 0 <= k <= |ops| ==> After(Counters(0, 0), ops[..k]).max == Peak(Counters(0, 0), ops[..k]))
       <==> Tight(Counters(0, 0), ops)
  {
    ExactIsTight(Counters(0, 0), 0, ops);
    ExactIsEveryPrefix(Counters(0, 0), 0, ops);
    assert forall k :: 0 <= k <= |ops| ==> PeakWith(0, Counters(0, 0), ops[..k]) == Peak(Counters(0, 0), ops[..k]);
  }

  // ---------------------------------------------------------------- use

  /** Some deallocation of the run was for more bytes than were in use. */
  predicate Clamps(c: Counters, ops: seq<Op>)
    decreases |ops|
  {
    ops != [] && ((ops[0].Deallocate? && !ops[0].isNull && ops[0].bytes > c.used) || Clamps(Next(c, ops[0]), ops[1..]))
  }

  function Change(op: Op): int
  {
    match op
    case Allocate(bytes) => bytes
    case Deallocate(isNull, bytes) => if isNull then 0 else 0 - bytes
  }

  function Balance(ops: seq<Op>): int
  {
    if ops == [] then 0 else Change(ops[0]) + Balance(ops[1..])
  }

  /** Use is what was allocated less what was freed exactly when no deallocation was clamped; otherwise it
      stays above that for good. */
  lemma {:induction false} UsedIsBalance(c: Counters, ops: seq<Op>)
    ensures After(c, ops).used >= c.used + Balance(ops)
    ensures After(c, ops).used == c.used + Balance(ops) <==> !Clamps(c, ops)
    decreases |ops|
  {
    if ops == [] {
    } else {
      UsedIsBalance(Next(c, ops[0]), ops[1..]);
    }
  }

  /** The overshoot is real: 2 bytes, freed, then 3 bytes reports 5 where the peak was 3. */
  lemma MaximumCanOvershoot()
    ensures var ops := [Allocate(2), Deallocate(false, 2), Allocate(3)];
            After(Counters(0, 0), ops).max == 5 && Peak(Counters(0, 0), ops) == 3
  {
    var ops := [Allocate(2), Deallocate(false, 2), Allocate(3)];
    var c1 := Next(Counters(0, 0), ops[0]);
    var c2 := Next(c1, ops[1]);
    var c3 := Next(c2, ops[2]);
    assert ops[1..][1..][1..] == [];
    assert ops[1..][1..] == [Allocate(3)];
    assert ops[1..] == [Deallocate(false, 2), Allocate(3)];
    assert After(c2, ops[1..][1..]) == After(c3, []) && Peak(c2, ops[1..][1..]) == 3;
  }

  class DeviceMemoryResource {
    var usedMemory: nat
    var maxUsedMemory: nat

    function View(): Counters
      reads this
    {
      Counters(usedMemory, maxUsedMemory)
    }

    constructor ()
      ensures View() == Counters(0, 0)
    {
      usedMemory, maxUsedMemory := 0, 0;
    }

    method DoAllocate(bytes: nat)
      modifies this
      ensures View() == Next(old(View()), Allocate(bytes))
      ensures usedMemory == old(usedMemory) + bytes
      ensures maxUsedMemory == old(maxUsedMemory) + if usedMemory > old(maxUsedMemory) then bytes else 0
    {
      if bytes <= 0 { return; }
      usedMemory := usedMemory + bytes;
      if maxUsedMemory < usedMemory {
        maxUsedMemory := maxUsedMemory + bytes;
      }
    }

    method DoDeallocate(isNull: bool, bytes: nat)
      modifies this
      ensures View() == Next(old(View()), Deallocate(isNull, bytes))
      ensures maxUsedMemory == old(maxUsedMemory)
      ensures usedMemory == if isNull then old(usedMemory) else Max(0, old(usedMemory) - bytes)
    {
      if isNull || bytes == 0 { return; }
      if usedMemory < bytes {
        usedMemory := 0;
      } else {
        usedMemory := usedMemory - bytes;
      }
    }
  }
}
