/** MemoryAllocator: the pool of units as an array of owner ids, the list of
    allocation records, the Next Fit cursor and the operation counters,
    updated in place by the configure, malloc and free operations. Every
    operation is proved to move the abstract state as AllocatorSpec says. */
module Allocator {

  import Arith
  import opened Pool
  import opened AllocatorSpec

  /** The result a search loop over runs keeps: Best Fit's choice among the
      runs closed before i, with its length, N+1 while there is none. */
  ghost predicate BestSoFar(u: seq<int>, n: int, i: int, best: int, bestLength: int)
  {
    if best == -1 then
      bestLength == |u| + 1 && forall t :: Closed(u, t, i) ==> RunLen(u, t) < n
    else
      Closed(u, best, i) && RunLen(u, best) >= n && bestLength == RunLen(u, best) &&
      forall t :: Closed(u, t, i) && RunLen(u, t) >= n ==>
        RunLen(u, best) <= RunLen(u, t) && (t < best ==> RunLen(u, best) < RunLen(u, t))
  }

  /** Worst Fit's choice among the runs closed before i, -1 while there is none. */
  ghost predicate WorstSoFar(u: seq<int>, n: int, i: int, worst: int, worstLength: int)
  {
    if worst == -1 then
      worstLength == -1 && forall t :: Closed(u, t, i) ==> RunLen(u, t) < n
    else
      Closed(u, worst, i) && RunLen(u, worst) >= n && worstLength == RunLen(u, worst) &&
      forall t :: Closed(u, t, i) && RunLen(u, t) >= n ==>
        RunLen(u, worst) >= RunLen(u, t) && (t < worst ==> RunLen(u, worst) > RunLen(u, t))
  }

  /** One step of First Fit's scan over unit i: a free unit that completes
      n trailing free units is the first fit; otherwise there is still no fit
      ending at or before i+1. */
  lemma FirstFitStep(u: seq<int>, n: int, i: int, len: int)
    requires TrailingFree(u, i, len) && i < |u| && 0 <= len < n
    requires forall s :: 0 <= s && s + n <= i ==> !Fits(u, s, n)
    ensures u[i] == FREE && len + 1 >= n ==> i + 1 - n == FirstFit(u, n)
    ensures !(u[i] == FREE && len + 1 >= n) ==> forall s :: 0 <= s && s + n <= i + 1 ==> !Fits(u, s, n)
  {
    TrailingStep(u, i, len);
    FirstFitRule(u, n);
    if u[i] == FREE && len + 1 >= n {
      FirstFitUnique(u, n, i + 1 - n, FirstFit(u, n));
    }
    forall s | 0 <= s && s + n == i + 1 && !(u[i] == FREE && len + 1 >= n)
      ensures !Fits(u, s, n)
    {
      if u[i] == FREE {
        assert u[i - len - 1] != FREE;
      }
    }
  }

  /** Next Fit's answer when the scan of the rotated pool first fits at
      offset k: the start is c+k wrapped once at the pool's end. */
  lemma NextFitFound(u: seq<int>, c: int, n: int, k: int)
    requires 0 <= c < |u| && n >= 1 && 0 <= k && k == FirstFit(Rotate(u, c), n)
    ensures Place(u, c, NF, n) == (WrapOnce(c + k, |u|), k + n)
    ensures 0 <= WrapOnce(c + k, |u|) < |u|
  {
    Arith.ModWrap(c + k, |u|);
  }

  /** A scan that found no fit up to the pool's end agrees with First Fit's -1. */
  lemma FirstFitNone(u: seq<int>, n: int)
    requires n >= 1
    requires forall s :: 0 <= s && s + n <= |u| ==> !Fits(u, s, n)
    ensures FirstFit(u, n) == -1
  {
    FirstFitRule(u, n);
    FirstFitUnique(u, n, -1, FirstFit(u, n));
  }

  /** One step of Best Fit's scan: an owned unit i closes the trailing run,
      which replaces the choice when it is sufficient and strictly shorter. */
  lemma BestStep(u: seq<int>, n: int, i: int, len: int, best: int, bestLength: int, next: (int, int))
    requires TrailingFree(u, i, len) && i < |u| && n >= 1
    requires BestSoFar(u, n, i, best, bestLength)
    requires next == if u[i] != FREE && len >= n && len < bestLength then (i - len, len) else (best, bestLength)
    ensures BestSoFar(u, n, i + 1, next.0, next.1)
  {
    ScanStep(u, i, len);
  }

  /** The end of Best Fit's scan: checking the trailing run yields Best Fit's rule. */
  lemma BestEndRule(u: seq<int>, n: int, len: int, best: int, bestLength: int)
    requires TrailingFree(u, |u|, len) && n >= 1
    requires BestSoFar(u, n, |u|, best, bestLength)
    ensures IsBestFit(u, n, if len >= n && len < bestLength then |u| - len else best)
  {
    ScanEnd(u, len);
    var r := if len >= n && len < bestLength then |u| - len else best;
    if r != -1 {
      forall t | 0 <= t && IsRunStart(u, t) && RunLen(u, t) >= n
        ensures RunLen(u, r) <= RunLen(u, t) && (t < r ==> RunLen(u, r) < RunLen(u, t))
      {
        if !(len > 0 && t == |u| - len) {
          assert Closed(u, t, |u|);
        }
      }
    }
  }

  lemma BestEnd(u: seq<int>, n: int, len: int, best: int, bestLength: int)
    requires TrailingFree(u, |u|, len) && n >= 1
    requires BestSoFar(u, n, |u|, best, bestLength)
    ensures BestFit(u, n) == if len >= n && len < bestLength then |u| - len else best
  {
    BestEndRule(u, n, len, best, bestLength);
    BestFitRule(u, n);
    BestFitUnique(u, n, BestFit(u, n), if len >= n && len < bestLength then |u| - len else best);
  }

  lemma WorstStep(u: seq<int>, n: int, i: int, len: int, worst: int, worstLength: int, next: (int, int))
    requires TrailingFree(u, i, len) && i < |u| && n >= 1
    requires WorstSoFar(u, n, i, worst, worstLength)
    requires next == if u[i] != FREE && len >= n && len > worstLength then (i - len, len) else (worst, worstLength)
    ensures WorstSoFar(u, n, i + 1, next.0, next.1)
  {
    ScanStep(u, i, len);
  }

  lemma WorstEndRule(u: seq<int>, n: int, len: int, worst: int, worstLength: int)
    requires TrailingFree(u, |u|, len) && n >= 1
    requires WorstSoFar(u, n, |u|, worst, worstLength)
    ensures IsWorstFit(u, n, if len >= n && len > worstLength then |u| - len else worst)
  {
    ScanEnd(u, len);
    var r := if len >= n && len > worstLength then |u| - len else worst;
    if r != -1 {
      forall t | 0 <= t && IsRunStart(u, t) && RunLen(u, t) >= n
        ensures RunLen(u, r) >= RunLen(u, t) && (t < r ==> RunLen(u, r) > RunLen(u, t))
      {
        if !(len > 0 && t == |u| - len) {
          assert Closed(u, t, |u|);
        }
      }
    }
  }

  lemma WorstEnd(u: seq<int>, n: int, len: int, worst: int, worstLength: int)
    requires TrailingFree(u, |u|, len) && n >= 1
    requires WorstSoFar(u, n, |u|, worst, worstLength)
    ensures WorstFit(u, n) == if len >= n && len > worstLength then |u| - len else worst
  {
    WorstEndRule(u, n, len, worst, worstLength);
    WorstFitRule(u, n);
    WorstFitUnique(u, n, WorstFit(u, n), if len >= n && len > worstLength then |u| - len else worst);
  }

  /** The number of free units immediately before unit i, as the scans count it. */
  function TrailLen(u: seq<int>, i: nat): nat
    requires i <= |u|
  {
    if i == 0 then 0 else if u[i - 1] == FREE then TrailLen(u, i - 1) + 1 else 0
  }

  lemma {:induction false} TrailLenFree(u: seq<int>, i: nat)
    requires i <= |u|
    ensures TrailingFree(u, i, TrailLen(u, i))
  {
    if i > 0 {
      TrailLenFree(u, i - 1);
      TrailingStep(u, i - 1, TrailLen(u, i - 1));
    }
  }

  /** Best Fit's choice and its length after inspecting units 0..i-1, step
      by step as the scan updates them. */
  function BestClosed(u: seq<int>, n: int, i: nat): (int, int)
    requires i <= |u|
  {
    if i == 0 then (-1, |u| + 1)
    else
      var (b, bl) := BestClosed(u, n, i - 1);
      var len := TrailLen(u, i - 1);
      if u[i - 1] != FREE && len >= n && len < bl then (i - 1 - len, len) else (b, bl)
  }

  /** The stepwise choice is Best Fit's rule restricted to the runs closed so far. */
  lemma {:induction false} BestClosedSoFar(u: seq<int>, n: int, i: nat)
    requires i <= |u| && n >= 1
    ensures BestSoFar(u, n, i, BestClosed(u, n, i).0, BestClosed(u, n, i).1)
  {
    if i > 0 {
      var prev := BestClosed(u, n, i - 1);
      var len := TrailLen(u, i - 1);
      BestClosedSoFar(u, n, i - 1);
      TrailLenFree(u, i - 1);
      BestStep(u, n, i - 1, len, prev.0, prev.1, BestClosed(u, n, i));
    } else {
      assert forall t :: !Closed(u, t, 0);
    }
  }

  function WorstClosed(u: seq<int>, n: int, i: nat): (int, int)
    requires i <= |u|
  {
    if i == 0 then (-1, -1)
    else
      var (w, wl) := WorstClosed(u, n, i - 1);
      var len := TrailLen(u, i - 1);
      if u[i - 1] != FREE && len >= n && len > wl then (i - 1 - len, len) else (w, wl)
  }

  lemma {:induction false} WorstClosedSoFar(u: seq<int>, n: int, i: nat)
    requires i <= |u| && n >= 1
    ensures WorstSoFar(u, n, i, WorstClosed(u, n, i).0, WorstClosed(u, n, i).1)
  {
    if i > 0 {
      var prev := WorstClosed(u, n, i - 1);
      var len := TrailLen(u, i - 1);
      WorstClosedSoFar(u, n, i - 1);
      TrailLenFree(u, i - 1);
      WorstStep(u, n, i - 1, len, prev.0, prev.1, WorstClosed(u, n, i));
    } else {
      assert forall t :: !Closed(u, t, 0);
    }
  }

  /** The longest run closed before i, as the scan for the largest block
      keeps it; 0 while none is closed. */
  function MaxClosed(u: seq<int>, i: nat): nat
    requires i <= |u|
  {
    if i == 0 then 0
    else
      var m := MaxClosed(u, i - 1);
      var len := TrailLen(u, i - 1);
      if u[i - 1] != FREE && len > m then len else m
  }

  /** m bounds every run closed before i and is attained unless it is 0. */
  ghost predicate MaxSoFar(u: seq<int>, i: int, m: int)
  {
    (forall t :: Closed(u, t, i) ==> RunLen(u, t) <= m) &&
    (m > 0 ==> exists t :: Closed(u, t, i) && RunLen(u, t) == m)
  }

  lemma {:induction false} MaxClosedSoFar(u: seq<int>, i: nat)
    requires i <= |u|
    ensures MaxSoFar(u, i, MaxClosed(u, i))
  {
    if i > 0 {
      MaxClosedSoFar(u, i - 1);
      TrailLenFree(u, i - 1);
      ScanStep(u, i - 1, TrailLen(u, i - 1));
    } else {
      assert forall t :: !Closed(u, t, 0);
    }
  }

  /** The end of the scan: checking the trailing run gives the longest run. */
  lemma MaxEnd(u: seq<int>, len: int, m: int)
    requires TrailingFree(u, |u|, len) && m >= 0 && MaxSoFar(u, |u|, m)
    ensures MaxRunFrom(u, 0) == if len > m then len else m
  {
    ScanEnd(u, len);
    MaxRunUnique(u, if len > m then len else m);
  }

  /** The shortest run closed before i, as the scan for the smallest block
      keeps it; 0 while none is closed. */
  function MinClosed(u: seq<int>, i: nat): nat
    requires i <= |u|
  {
    if i == 0 then 0
    else
      var m := MinClosed(u, i - 1);
      var len := TrailLen(u, i - 1);
      if u[i - 1] != FREE && len > 0 && (m == 0 || len < m) then len else m
  }

  /** m is a positive lower bound of every run closed before i and is
      attained unless it is 0. */
  ghost predicate MinSoFar(u: seq<int>, i: int, m: int)
  {
    (forall t :: Closed(u, t, i) ==> 0 < m <= RunLen(u, t)) &&
    (m > 0 ==> exists t :: Closed(u, t, i) && RunLen(u, t) == m)
  }

  lemma {:induction false} MinClosedSoFar(u: seq<int>, i: nat)
    requires i <= |u|
    ensures MinSoFar(u, i, MinClosed(u, i))
  {
    if i > 0 {
      MinClosedSoFar(u, i - 1);
      TrailLenFree(u, i - 1);
      ScanStep(u, i - 1, TrailLen(u, i - 1));
    } else {
      assert forall t :: !Closed(u, t, 0);
    }
  }

  lemma MinEnd(u: seq<int>, len: int, m: int)
    requires TrailingFree(u, |u|, len) && m >= 0 && MinSoFar(u, |u|, m)
    ensures MinRunFrom(u, 0) == if len > 0 && (m == 0 || len < m) then len else m
  {
    ScanEnd(u, len);
    MinRunUnique(u, if len > 0 && (m == 0 || len < m) then len else m);
  }

  class MemoryAllocator {
    var memoryUnitSize: int
    var memoryUnitCount: int
    var algorithmName: string
    var unitJobId: array<int>
    var allocations: seq<AllocationRecord>
    var nextFitSearchStart: int
    var currentJobId: int
    var allocationCount: int
    var allocationOperationCount: int
    var freeRequestCount: int
    var freeOperationCount: int

    predicate Valid()
      reads this
    {
      0 <= memoryUnitCount == unitJobId.Length &&
      0 <= nextFitSearchStart && (nextFitSearchStart == 0 || nextFitSearchStart < memoryUnitCount)
    }

    /** The fields as an AllocatorSpec state. */
    function Abs(): AllocState
      reads this, unitJobId
    {
      AllocState(algorithmName, memoryUnitSize, memoryUnitCount, unitJobId[..], allocations,
                 nextFitSearchStart, currentJobId, allocationCount, allocationOperationCount,
                 freeRequestCount, freeOperationCount)
    }

    constructor ()
      ensures Valid() && Abs() == Initial() && fresh(unitJobId)
    {
      memoryUnitSize := 0;
      memoryUnitCount := 0;
      algorithmName := "";
      unitJobId := new int[0];
      allocations := [];
      nextFitSearchStart := 0;
      currentJobId := -1;
      allocationCount := 0;
      allocationOperationCount := 0;
      freeRequestCount := 0;
      freeOperationCount := 0;
    }

    /** configure: a fresh pool of free units and cleared bookkeeping. */
    method Configure(memoryUnitSizeValue: int, memoryUnitCountValue: int, algorithmNameValue: string)
      requires memoryUnitCountValue >= 0
      modifies this
      ensures Valid() && fresh(unitJobId)
      ensures Abs() == AllocatorSpec.Configure(old(Abs()), memoryUnitSizeValue, memoryUnitCountValue, algorithmNameValue)
    {
      memoryUnitSize := memoryUnitSizeValue;
      memoryUnitCount := memoryUnitCountValue;
      algorithmName := algorithmNameValue;
      unitJobId := new int[memoryUnitCountValue](_ => FREE);
      assert unitJobId[..] == seq(memoryUnitCountValue, _ => FREE);
      allocations := [];
      nextFitSearchStart := 0;
      allocationCount := 0;
      allocationOperationCount := 0;
      freeRequestCount := 0;
      freeOperationCount := 0;
    }

    method SetCurrentJobId(jobIdValue: int)
      modifies this`currentJobId
      ensures Abs() == SetCurrentJob(old(Abs()), jobIdValue)
    {
      currentJobId := jobIdValue;
    }

    /** Units needed for sizeBytes, rounded up. */
    method RequiredUnitsFor(sizeBytes: int) returns (requiredUnits: int)
      requires memoryUnitSize > 0 && sizeBytes > 0
      ensures requiredUnits == RequiredUnits(sizeBytes, memoryUnitSize)
    {
      requiredUnits := (sizeBytes + memoryUnitSize - 1) / memoryUnitSize;
    }

    /** The bookkeeping every successful malloc does. */
    method RecordAllocation(location: int, requiredUnits: int, sizeBytes: int)
      modifies this`allocations, this`allocationCount
      ensures allocations == old(allocations) + [AllocationRecord(location, requiredUnits, sizeBytes, currentJobId, true)]
      ensures allocationCount == old(allocationCount) + 1
    {
      allocations := allocations + [AllocationRecord(location, requiredUnits, sizeBytes, currentJobId, true)];
      allocationCount := allocationCount + 1;
    }

    method MallocFF(sizeBytes: int) returns (location: int)
      requires Valid() && sizeBytes > 0
      modifies this`allocations, this`allocationCount, this`allocationOperationCount,
        this`nextFitSearchStart, unitJobId
      ensures Valid()
      ensures (Abs(), location) == Malloc(old(Abs()), FF, sizeBytes)
    {
      if memoryUnitSize <= 0 {
        return -1;
      }
      var requiredUnits := RequiredUnitsFor(sizeBytes);
      location := AllocateFirstFit(requiredUnits);
      if location >= 0 {
        RecordAllocation(location, requiredUnits, sizeBytes);
      }
    }

    method MallocNF(sizeBytes: int) returns (location: int)
      requires Valid() && sizeBytes > 0
      modifies this`allocations, this`allocationCount, this`allocationOperationCount,
        this`nextFitSearchStart, unitJobId
      ensures Valid()
      ensures (Abs(), location) == Malloc(old(Abs()), NF, sizeBytes)
    {
      if memoryUnitSize <= 0 {
        return -1;
      }
      var requiredUnits := RequiredUnitsFor(sizeBytes);
      location := AllocateNextFit(requiredUnits);
      if location >= 0 {
        RecordAllocation(location, requiredUnits, sizeBytes);
      }
    }

    method MallocBF(sizeBytes: int) returns (location: int)
      requires Valid() && sizeBytes > 0
      modifies this`allocations, this`allocationCount, this`allocationOperationCount,
        this`nextFitSearchStart, unitJobId
      ensures Valid()
      ensures (Abs(), location) == Malloc(old(Abs()), BF, sizeBytes)
    {
      if memoryUnitSize <= 0 {
        return -1;
      }
      var requiredUnits := RequiredUnitsFor(sizeBytes);
      location := AllocateBestFit(requiredUnits);
      if location >= 0 {
        RecordAllocation(location, requiredUnits, sizeBytes);
      }
    }

    method MallocWF(sizeBytes: int) returns (location: int)
      requires Valid() && sizeBytes > 0
      modifies this`allocations, this`allocationCount, this`allocationOperationCount,
        this`nextFitSearchStart, unitJobId
      ensures Valid()
      ensures (Abs(), location) == Malloc(old(Abs()), WF, sizeBytes)
    {
      if memoryUnitSize <= 0 {
        return -1;
      }
      var requiredUnits := RequiredUnitsFor(sizeBytes);
      location := AllocateWorstFit(requiredUnits);
      if location >= 0 {
        RecordAllocation(location, requiredUnits, sizeBytes);
      }
    }

    /** freeFF: scan the records in order, release the first active one
      starting at startIndex. */
    method FreeFF(startIndex: int)
      requires Valid()
      modifies this`allocations, this`freeRequestCount, this`freeOperationCount, unitJobId
      ensures Valid()
      ensures Abs() == Free(old(Abs()), startIndex)
    {
      if startIndex < 0 {
        return;
      }
      freeRequestCount := freeRequestCount + 1;
      var count := |allocations|;
      var i := 0;
      while i < count
        invariant 0 <= i <= count == |allocations|
        invariant allocations == old(allocations) && unitJobId[..] == old(unitJobId[..])
        invariant freeOperationCount == old(freeOperationCount) + i
        invariant freeRequestCount == old(freeRequestCount) + 1
        invariant forall j :: 0 <= j < i ==> !(allocations[j].isActive && allocations[j].startIndex == startIndex)
      {
        freeOperationCount := freeOperationCount + 1;
        var record := allocations[i];
        if record.isActive && record.startIndex == startIndex {
          assert FindActiveFrom(old(allocations), startIndex, 0) == i;
          MarkUnitsFree(record.startIndex, record.unitCount);
          allocations := allocations[i := record.(isActive := false)];
          ghost var st := old(Abs());
          assert unitJobId[..] == MarkRange(st.units, record.startIndex, record.unitCount, FREE);
          assert allocations == st.records[i := st.records[i].(isActive := false)];
          assert freeOperationCount == st.freeOps + i + 1;
          assert freeRequestCount == st.freeRequests + 1;
          return;
        }
        i := i + 1;
      }
      assert FindActiveFrom(old(allocations), startIndex, 0) == -1;
    }

    /** First Fit's scan: track the trailing run of free units and stop as
        soon as it is long enough. Returns the start found (or -1) and the
        number of units inspected; nothing is changed. */
    method ScanFirstFit(requiredUnits: int) returns (start: int, inspected: int)
      requires Valid() && requiredUnits >= 1
      ensures (start, inspected) == Place(unitJobId[..], nextFitSearchStart, FF, requiredUnits)
    {
      ghost var u := unitJobId[..];
      start := -1;
      var length := 0;
      var i := 0;
      while i < memoryUnitCount
        invariant 0 <= i <= memoryUnitCount
        invariant TrailingFree(u, i, length) && length < requiredUnits
        invariant start == (if length == 0 then -1 else i - length)
        invariant forall s :: 0 <= s && s + requiredUnits <= i ==> !Fits(u, s, requiredUnits)
      {
        TrailingStep(u, i, length);
        FirstFitStep(u, requiredUnits, i, length);
        if unitJobId[i] == FREE {
          if length == 0 {
            start := i;
          }
          length := length + 1;
          if length >= requiredUnits {
            return start, i + 1;
          }
        } else {
          start := -1;
          length := 0;
        }
        i := i + 1;
      }
      FirstFitNone(u, requiredUnits);
      return -1, i;
    }

    /** allocateFirstFit: the scan, then on success the block is marked. */
    method AllocateFirstFit(requiredUnits: int) returns (start: int)
      requires Valid() && requiredUnits >= 1
      modifies this`allocationOperationCount, unitJobId
      ensures Valid()
      ensures start == Place(old(unitJobId[..]), old(nextFitSearchStart), FF, requiredUnits).0
      ensures allocationOperationCount == old(allocationOperationCount) + Place(old(unitJobId[..]), old(nextFitSearchStart), FF, requiredUnits).1
      ensures unitJobId[..] == if start >= 0 then MarkRange(old(unitJobId[..]), start, requiredUnits, currentJobId)
                               else old(unitJobId[..])
    {
      var inspected;
      start, inspected := ScanFirstFit(requiredUnits);
      allocationOperationCount := allocationOperationCount + inspected;
      if start >= 0 {
        MarkUnitsAllocated(start, requiredUnits);
      }
    }

    /** Next Fit's scan: as First Fit, but over N units from the cursor,
        indices taken modulo N. Returns the start found (or -1) and the
        number of units inspected; nothing is changed. */
    method ScanNextFit(requiredUnits: int) returns (start: int, examined: int)
      requires Valid() && requiredUnits >= 1
      ensures (start, examined) == Place(unitJobId[..], nextFitSearchStart, NF, requiredUnits)
    {
      ghost var u := unitJobId[..];
      ghost var c := nextFitSearchStart;
      ghost var rot := Rotate(u, c);
      examined := 0;
      var index := nextFitSearchStart;
      start := -1;
      var length := 0;
      while examined < memoryUnitCount
        invariant 0 <= examined <= memoryUnitCount
        invariant index == c + examined
        invariant TrailingFree(rot, examined, length) && length < requiredUnits
        invariant start == (if length == 0 then -1 else WrapOnce(c + examined - length, memoryUnitCount))
        invariant forall s :: 0 <= s && s + requiredUnits <= examined ==> !Fits(rot, s, requiredUnits)
      {
        Arith.ModWrap(index, memoryUnitCount);
        var realIndex := index % memoryUnitCount;
        TrailingStep(rot, examined, length);
        FirstFitStep(rot, requiredUnits, examined, length);
        assert rot[examined] == unitJobId[realIndex];
        if unitJobId[realIndex] == FREE {
          if length == 0 {
            start := realIndex;
          }
          length := length + 1;
          if length >= requiredUnits {
            NextFitFound(u, c, requiredUnits, examined + 1 - requiredUnits);
            return start, examined + 1;
          }
        } else {
          start := -1;
          length := 0;
        }
        examined := examined + 1;
        index := index + 1;
      }
      FirstFitNone(rot, requiredUnits);
      return -1, examined;
    }

    /** allocateNextFit: the scan, then on success the block is marked and
        the cursor moves past it. */
    method AllocateNextFit(requiredUnits: int) returns (start: int)
      requires Valid() && requiredUnits >= 1
      modifies this`allocationOperationCount, this`nextFitSearchStart, unitJobId
      ensures Valid()
      ensures start == Place(old(unitJobId[..]), old(nextFitSearchStart), NF, requiredUnits).0
      ensures allocationOperationCount == old(allocationOperationCount) + Place(old(unitJobId[..]), old(nextFitSearchStart), NF, requiredUnits).1
      ensures unitJobId[..] == if start >= 0 then MarkRange(old(unitJobId[..]), start, requiredUnits, currentJobId)
                               else old(unitJobId[..])
      ensures nextFitSearchStart == if start >= 0 then (start + requiredUnits) % memoryUnitCount
                                    else old(nextFitSearchStart)
    {
      var examined;
      start, examined := ScanNextFit(requiredUnits);
      allocationOperationCount := allocationOperationCount + examined;
      if start >= 0 {
        MarkUnitsAllocated(start, requiredUnits);
        nextFitSearchStart := (start + requiredUnits) % memoryUnitCount;
      }
    }

    /** Best Fit's scan: close each run at the owned unit after it and keep
        the shortest sufficient one seen; the trailing run is checked last.
        Returns the choice (or -1) and the N units inspected; nothing is
        changed. */
    method ScanBestFit(requiredUnits: int) returns (bestStart: int, inspected: int)
      requires Valid() && requiredUnits >= 1
      ensures (bestStart, inspected) == Place(unitJobId[..], nextFitSearchStart, BF, requiredUnits)
    {
      ghost var u := unitJobId[..];
      bestStart := -1;
      var bestLength := memoryUnitCount + 1;
      var start := -1;
      var length := 0;
      var i := 0;
      while i < memoryUnitCount
        invariant 0 <= i <= memoryUnitCount
        invariant length == TrailLen(u, i)
        invariant start == (if length == 0 then -1 else i - length)
        invariant (bestStart, bestLength) == BestClosed(u, requiredUnits, i)
      {
        if unitJobId[i] == FREE {
          if length == 0 {
            start := i;
          }
          length := length + 1;
        } else {
          if length >= requiredUnits && length < bestLength {
            bestStart := start;
            bestLength := length;
          }
          start := -1;
          length := 0;
        }
        i := i + 1;
      }
      TrailLenFree(u, i);
      BestClosedSoFar(u, requiredUnits, i);
      BestEnd(u, requiredUnits, length, bestStart, bestLength);
      if length >= requiredUnits && length < bestLength {
        bestStart := start;
      }
      inspected := i;
    }

    /** allocateBestFit: the scan, then on success the block is marked. */
    method AllocateBestFit(requiredUnits: int) returns (bestStart: int)
      requires Valid() && requiredUnits >= 1
      modifies this`allocationOperationCount, unitJobId
      ensures Valid()
      ensures bestStart == Place(old(unitJobId[..]), old(nextFitSearchStart), BF, requiredUnits).0
      ensures allocationOperationCount == old(allocationOperationCount) + Place(old(unitJobId[..]), old(nextFitSearchStart), BF, requiredUnits).1
      ensures unitJobId[..] == if bestStart >= 0 then MarkRange(old(unitJobId[..]), bestStart, requiredUnits, currentJobId)
                               else old(unitJobId[..])
    {
      var inspected;
      bestStart, inspected := ScanBestFit(requiredUnits);
      allocationOperationCount := allocationOperationCount + inspected;
      if bestStart >= 0 {
        MarkUnitsAllocated(bestStart, requiredUnits);
      }
    }

    /** Worst Fit's scan: as Best Fit, keeping the longest sufficient run. */
    method ScanWorstFit(requiredUnits: int) returns (worstStart: int, inspected: int)
      requires Valid() && requiredUnits >= 1
      ensures (worstStart, inspected) == Place(unitJobId[..], nextFitSearchStart, WF, requiredUnits)
    {
      ghost var u := unitJobId[..];
      worstStart := -1;
      var worstLength := -1;
      var start := -1;
      var length := 0;
      var i := 0;
      while i < memoryUnitCount
        invariant 0 <= i <= memoryUnitCount
        invariant length == TrailLen(u, i)
        invariant start == (if length == 0 then -1 else i - length)
        invariant (worstStart, worstLength) == WorstClosed(u, requiredUnits, i)
      {
        if unitJobId[i] == FREE {
          if length == 0 {
            start := i;
          }
          length := length + 1;
        } else {
          if length >= requiredUnits && length > worstLength {
            worstStart := start;
            worstLength := length;
          }
          start := -1;
          length := 0;
        }
        i := i + 1;
      }
      TrailLenFree(u, i);
      WorstClosedSoFar(u, requiredUnits, i);
      WorstEnd(u, requiredUnits, length, worstStart, worstLength);
      if length >= requiredUnits && length > worstLength {
        worstStart := start;
      }
      inspected := i;
    }

    /** allocateWorstFit: the scan, then on success the block is marked. */
    method AllocateWorstFit(requiredUnits: int) returns (worstStart: int)
      requires Valid() && requiredUnits >= 1
      modifies this`allocationOperationCount, unitJobId
      ensures Valid()
      ensures worstStart == Place(old(unitJobId[..]), old(nextFitSearchStart), WF, requiredUnits).0
      ensures allocationOperationCount == old(allocationOperationCount) + Place(old(unitJobId[..]), old(nextFitSearchStart), WF, requiredUnits).1
      ensures unitJobId[..] == if worstStart >= 0 then MarkRange(old(unitJobId[..]), worstStart, requiredUnits, currentJobId)
                               else old(unitJobId[..])
    {
      var inspected;
      worstStart, inspected := ScanWorstFit(requiredUnits);
      allocationOperationCount := allocationOperationCount + inspected;
      if worstStart >= 0 {
        MarkUnitsAllocated(worstStart, requiredUnits);
      }
    }

    /** Tag units startIndex.. with the current job, stopping at the pool's end. */
    method MarkUnitsAllocated(startIndex: int, unitCount: int)
      requires Valid() && startIndex >= 0
      modifies unitJobId
      ensures unitJobId[..] == MarkRange(old(unitJobId[..]), startIndex, unitCount, currentJobId)
    {
      var end := startIndex + unitCount;
      if end > memoryUnitCount {
        end := memoryUnitCount;
      }
      var i := startIndex;
      while i < end
        invariant startIndex <= i && (i <= end || i == startIndex)
        invariant forall k :: 0 <= k < unitJobId.Length ==>
          unitJobId[k] == (if startIndex <= k < i then currentJobId else old(unitJobId[k]))
      {
        unitJobId[i] := currentJobId;
        i := i + 1;
      }
    }

    /** Mark units startIndex.. free, stopping at the pool's end. */
    method MarkUnitsFree(startIndex: int, unitCount: int)
      requires Valid() && startIndex >= 0
      modifies unitJobId
      ensures unitJobId[..] == MarkRange(old(unitJobId[..]), startIndex, unitCount, FREE)
    {
      var end := startIndex + unitCount;
      if end > memoryUnitCount {
        end := memoryUnitCount;
      }
      var i := startIndex;
      while i < end
        invariant startIndex <= i && (i <= end || i == startIndex)
        invariant forall k :: 0 <= k < unitJobId.Length ==>
          unitJobId[k] == (if startIndex <= k < i then FREE else old(unitJobId[k]))
      {
        unitJobId[i] := FREE;
        i := i + 1;
      }
    }

    // ------------------------------------------------------------ metrics

    method GetTotalMemorySize() returns (total: int)
      requires Valid()
      ensures total == TotalBytes(Abs())
    {
      total := memoryUnitCount * memoryUnitSize;
    }

    method GetAllocatedMemorySize() returns (bytes: int)
      requires Valid()
      ensures bytes == AllocatedBytes(Abs())
    {
      var usedUnits := 0;
      var i := 0;
      while i < memoryUnitCount
        invariant 0 <= i <= memoryUnitCount
        invariant usedUnits == CountUsed(unitJobId[..i])
      {
        assert unitJobId[..i + 1][..i] == unitJobId[..i];
        if unitJobId[i] != FREE {
          usedUnits := usedUnits + 1;
        }
        i := i + 1;
      }
      assert unitJobId[..i] == unitJobId[..];
      bytes := usedUnits * memoryUnitSize;
    }

    method GetFreeMemorySize() returns (bytes: int)
      requires Valid()
      ensures bytes == FreeBytes(Abs())
    {
      var freeUnits := 0;
      var i := 0;
      while i < memoryUnitCount
        invariant 0 <= i <= memoryUnitCount
        invariant freeUnits == CountFree(unitJobId[..i])
      {
        assert unitJobId[..i + 1][..i] == unitJobId[..i];
        if unitJobId[i] == FREE {
          freeUnits := freeUnits + 1;
        }
        i := i + 1;
      }
      assert unitJobId[..i] == unitJobId[..];
      bytes := freeUnits * memoryUnitSize;
    }

    method GetRequiredMemorySize() returns (total: int)
      ensures total == RequiredBytes(Abs())
    {
      total := 0;
      var count := |allocations|;
      var i := 0;
      while i < count
        invariant 0 <= i <= count
        invariant total == SumActive(allocations[..i])
      {
        assert allocations[..i + 1][..i] == allocations[..i];
        var record := allocations[i];
        if record.isActive {
          total := total + record.requestedBytes;
        }
        i := i + 1;
      }
      assert allocations[..i] == allocations;
    }

    /** Count the free runs: one each time a free unit follows an owned unit
        or the pool's start. */
    method GetExternalFragmentationCount() returns (count: int)
      requires Valid()
      ensures count == ExternalFragments(Abs())
    {
      ghost var u := unitJobId[..];
      count := 0;
      var inFreeBlock := false;
      var i := 0;
      while i < memoryUnitCount
        invariant 0 <= i <= memoryUnitCount
        invariant inFreeBlock == (i > 0 && u[i - 1] == FREE)
        invariant count == |RunStartsBelow(u, i)|
      {
        if unitJobId[i] == FREE {
          if !inFreeBlock {
            assert RunStartsBelow(u, i + 1) == RunStartsBelow(u, i) + {i};
            inFreeBlock := true;
            count := count + 1;
          } else {
            assert RunStartsBelow(u, i + 1) == RunStartsBelow(u, i);
          }
        } else {
          assert RunStartsBelow(u, i + 1) == RunStartsBelow(u, i);
          inFreeBlock := false;
        }
        i := i + 1;
      }
    }

    method GetLargestFreeBlockSize() returns (bytes: int)
      requires Valid()
      ensures bytes == LargestFreeBlock(Abs())
    {
      ghost var u := unitJobId[..];
      var maxLength := 0;
      var length := 0;
      var i := 0;
      while i < memoryUnitCount
        invariant 0 <= i <= memoryUnitCount
        invariant length == TrailLen(u, i) && maxLength == MaxClosed(u, i)
      {
        if unitJobId[i] == FREE {
          length := length + 1;
        } else {
          if length > maxLength {
            maxLength := length;
          }
          length := 0;
        }
        i := i + 1;
      }
      TrailLenFree(u, i);
      MaxClosedSoFar(u, i);
      MaxEnd(u, length, maxLength);
      if length > maxLength {
        maxLength := length;
      }
      bytes := maxLength * memoryUnitSize;
    }

    method GetSmallestFreeBlockSize() returns (bytes: int)
      requires Valid()
      ensures bytes == SmallestFreeBlock(Abs())
    {
      ghost var u := unitJobId[..];
      var minLength := 0;
      var length := 0;
      var i := 0;
      while i < memoryUnitCount
        invariant 0 <= i <= memoryUnitCount
        invariant length == TrailLen(u, i) && minLength == MinClosed(u, i)
      {
        if unitJobId[i] == FREE {
          length := length + 1;
        } else {
          if length > 0 && (minLength == 0 || length < minLength) {
            minLength := length;
          }
          length := 0;
        }
        i := i + 1;
      }
      TrailLenFree(u, i);
      MinClosedSoFar(u, i);
      MinEnd(u, length, minLength);
      if length > 0 && (minLength == 0 || length < minLength) {
        minLength := length;
      }
      bytes := minLength * memoryUnitSize;
    }
  }
}
