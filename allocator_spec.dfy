/** The fixed-pool unit allocator as a state value with pure transitions:
    configure, the four placement policies, free, and the metric queries.
    The class in memory_allocator.dfy is proved to follow these. */
module AllocatorSpec {

  import opened Pool
  import Arith

  /** One successful allocation; deactivated (never removed) on free. */
  datatype AllocationRecord = AllocationRecord(
    startIndex: int, unitCount: int, requestedBytes: int, jobId: int, isActive: bool)

  datatype Policy = FF | NF | BF | WF

  /** The allocator's fields. `units[i] == FREE` marks unit i free,
      `cursor` is Next Fit's search start. */
  datatype AllocState = AllocState(
    algorithmName: string,
    unitSize: int,
    unitCount: int,
    units: seq<int>,
    records: seq<AllocationRecord>,
    cursor: int,
    currentJob: int,
    allocationCount: int,
    allocationOps: int,
    freeRequests: int,
    freeOps: int)
  {
    predicate Valid()
    {
      unitCount >= 0 && |units| == unitCount &&
      0 <= cursor && (cursor == 0 || cursor < unitCount)
    }
  }

  /** The state a freshly constructed allocator is in. */
  function Initial(): (st: AllocState)
    ensures st.Valid()
  {
    AllocState("", 0, 0, [], [], 0, -1, 0, 0, 0, 0)
  }

  /** configure: a pool of `count` free units; records, cursor and counters
      reset; the current job tag is kept. */
  function Configure(st: AllocState, size: int, count: int, name: string): (r: AllocState)
    requires count >= 0
    ensures r.Valid()
  {
    st.(algorithmName := name, unitSize := size, unitCount := count,
        units := seq(count, _ => FREE), records := [], cursor := 0,
        allocationCount := 0, allocationOps := 0, freeRequests := 0, freeOps := 0)
  }

  function SetCurrentJob(st: AllocState, jobId: int): AllocState
  {
    st.(currentJob := jobId)
  }

  /** Units needed for a request: the quotient rounded up. */
  function RequiredUnits(sizeBytes: int, unitSize: int): (r: int)
    requires unitSize > 0 && sizeBytes > 0
    ensures r >= 1
    ensures (r - 1) * unitSize < sizeBytes <= r * unitSize
  {
    var x := sizeBytes + unitSize - 1;
    var q := x / unitSize;
    assert x == q * unitSize + x % unitSize;
    assert q * unitSize - unitSize == (q - 1) * unitSize;
    q
  }

  /** The placement search of a policy over the units, from the cursor for
      Next Fit: the chosen start (or -1) and the number of units inspected. */
  function Place(units: seq<int>, cursor: int, p: Policy, req: int): (res: (int, int))
    requires 0 <= cursor && (cursor == 0 || cursor < |units|) && req >= 1
    ensures res.0 == -1 || (0 <= res.0 < |units|)
  {
    var n := |units|;
    match p
    case FF =>
      var r := FirstFit(units, req);
      if r == -1 then (-1, n) else (r, r + req)
    case NF =>
      var k := FirstFit(Rotate(units, cursor), req);
      if k == -1 then (-1, n) else ((cursor + k) % n, k + req)
    case BF => (BestFit(units, req), n)
    case WF => (WorstFit(units, req), n)
  }

  /** mallocFF/NF/BF/WF. */
  function Malloc(st: AllocState, p: Policy, sizeBytes: int): (res: (AllocState, int))
    requires st.Valid() && sizeBytes > 0
    ensures res.0.Valid()
  {
    if st.unitSize <= 0 then (st, -1)
    else
      var req := RequiredUnits(sizeBytes, st.unitSize);
      var (loc, inspected) := Place(st.units, st.cursor, p, req);
      var st1 := st.(allocationOps := st.allocationOps + inspected);
      if loc < 0 then (st1, -1)
      else
        (st1.(units := MarkRange(st.units, loc, req, st.currentJob),
              cursor := if p == NF then (loc + req) % st.unitCount else st.cursor,
              records := st.records + [AllocationRecord(loc, req, sizeBytes, st.currentJob, true)],
              allocationCount := st.allocationCount + 1),
         loc)
  }

  /** Index of the first active record starting at s, from index i on. */
  function FindActiveFrom(recs: seq<AllocationRecord>, s: int, i: nat): (r: int)
    ensures r == -1 || (i <= r < |recs| && recs[r].isActive && recs[r].startIndex == s)
    ensures forall j :: i <= j < |recs| && (r == -1 || j < r) ==>
      !(recs[j].isActive && recs[j].startIndex == s)
    decreases |recs| - i
  {
    if i >= |recs| then -1
    else if recs[i].isActive && recs[i].startIndex == s then i
    else FindActiveFrom(recs, s, i + 1)
  }

  /** freeFF: ignore negative starts; otherwise count the request, scan the
      records in order and release the first active one starting there. */
  function Free(st: AllocState, s: int): (r: AllocState)
    requires st.Valid()
    ensures r.Valid()
  {
    if s < 0 then st
    else
      var i := FindActiveFrom(st.records, s, 0);
      var inspected := if i == -1 then |st.records| else i + 1;
      var st1 := st.(freeRequests := st.freeRequests + 1, freeOps := st.freeOps + inspected);
      if i == -1 then st1
      else
        var rec := st.records[i];
        st1.(units := MarkRange(st.units, rec.startIndex, rec.unitCount, FREE),
             records := st.records[i := rec.(isActive := false)])
  }

  // ---------------------------------------------------------------- metrics

  function SumActive(recs: seq<AllocationRecord>): int
  {
    if |recs| == 0 then 0
    else SumActive(recs[..|recs| - 1]) + (if recs[|recs| - 1].isActive then recs[|recs| - 1].requestedBytes else 0)
  }

  function TotalBytes(st: AllocState): int { st.unitCount * st.unitSize }
  function AllocatedBytes(st: AllocState): int { CountUsed(st.units) * st.unitSize }
  function FreeBytes(st: AllocState): int { CountFree(st.units) * st.unitSize }
  function RequiredBytes(st: AllocState): int { SumActive(st.records) }
  function ExternalFragments(st: AllocState): int { |RunStartSet(st.units)| }
  function LargestFreeBlock(st: AllocState): int { MaxRunFrom(st.units, 0) * st.unitSize }
  function SmallestFreeBlock(st: AllocState): int { MinRunFrom(st.units, 0) * st.unitSize }

  // ---------------------------------------------------------------- lemmas

  lemma {:induction false} CountFreeAllFree(u: seq<int>)
    requires forall k :: 0 <= k < |u| ==> u[k] == FREE
    ensures CountFree(u) == |u| && CountUsed(u) == 0
    decreases |u|
  {
    if |u| > 0 {
      CountFreeAllFree(u[..|u| - 1]);
    }
  }

  /** After configure every unit is free and the pool is one free run. */
  lemma ConfigureFreesPool(st: AllocState, size: int, count: int, name: string)
    requires count >= 0
    ensures var r := Configure(st, size, count, name);
      (forall k :: 0 <= k < count ==> r.units[k] == FREE) &&
      r.records == [] && r.cursor == 0 && r.currentJob == st.currentJob &&
      r.allocationCount == 0 && r.allocationOps == 0 && r.freeRequests == 0 && r.freeOps == 0 &&
      AllocatedBytes(r) == 0 && FreeBytes(r) == TotalBytes(r) && RequiredBytes(r) == 0 &&
      ExternalFragments(r) == (if count > 0 then 1 else 0)
  {
    var r := Configure(st, size, count, name);
    CountFreeAllFree(r.units);
    if count > 0 {
      assert RunStartSet(r.units) == {0};
    } else {
      assert RunStartSet(r.units) == {};
    }
  }

  /** With a non-positive unit size every malloc fails and changes nothing. */
  lemma MallocInert(st: AllocState, p: Policy, sizeBytes: int)
    requires st.Valid() && sizeBytes > 0 && st.unitSize <= 0
    ensures Malloc(st, p, sizeBytes) == (st, -1)
  {
  }

  /** Success appends exactly one active record and counts one allocation;
      failure leaves units, records, cursor and the count alone. */
  lemma MallocRecords(st: AllocState, p: Policy, sizeBytes: int)
    requires st.Valid() && sizeBytes > 0 && st.unitSize > 0
    ensures var (r, loc) := Malloc(st, p, sizeBytes);
      var req := RequiredUnits(sizeBytes, st.unitSize);
      (loc >= 0 ==>
        r.records == st.records + [AllocationRecord(loc, req, sizeBytes, st.currentJob, true)] &&
        r.allocationCount == st.allocationCount + 1 &&
        RequiredBytes(r) == RequiredBytes(st) + sizeBytes) &&
      (loc < 0 ==>
        loc == -1 && r.records == st.records && r.allocationCount == st.allocationCount &&
        r.units == st.units && r.cursor == st.cursor) &&
      r.freeRequests == st.freeRequests && r.freeOps == st.freeOps &&
      r.unitCount == st.unitCount && r.unitSize == st.unitSize && r.currentJob == st.currentJob
  {
    var (r, loc) := Malloc(st, p, sizeBytes);
    if loc >= 0 {
      assert r.records[..|r.records| - 1] == st.records;
    }
  }

  /** First Fit takes the lowest start of enough free units, owns exactly
      those units, and inspects start+req units (all N on failure). */
  lemma FirstFitPlacement(st: AllocState, sizeBytes: int)
    requires st.Valid() && sizeBytes > 0 && st.unitSize > 0
    ensures var (r, loc) := Malloc(st, FF, sizeBytes);
      var req := RequiredUnits(sizeBytes, st.unitSize);
      IsFirstFit(st.units, req, loc) &&
      r.allocationOps == st.allocationOps + (if loc >= 0 then loc + req else st.unitCount) &&
      (loc >= 0 ==> (loc + req <= st.unitCount &&
        forall k :: 0 <= k < st.unitCount ==>
          r.units[k] == (if loc <= k < loc + req then st.currentJob else st.units[k])))
  {
    var req := RequiredUnits(sizeBytes, st.unitSize);
    FirstFitRule(st.units, req);
  }

  /** Best Fit owns the start of a shortest sufficient run (lowest on ties);
      it inspects every unit. */
  lemma BestFitPlacement(st: AllocState, sizeBytes: int)
    requires st.Valid() && sizeBytes > 0 && st.unitSize > 0
    ensures var (r, loc) := Malloc(st, BF, sizeBytes);
      var req := RequiredUnits(sizeBytes, st.unitSize);
      IsBestFit(st.units, req, loc) &&
      r.allocationOps == st.allocationOps + st.unitCount &&
      (loc >= 0 ==> (loc + req <= st.unitCount &&
        forall k :: 0 <= k < st.unitCount ==>
          r.units[k] == (if loc <= k < loc + req then st.currentJob else st.units[k])))
  {
    var req := RequiredUnits(sizeBytes, st.unitSize);
    var loc := BestFit(st.units, req);
    BestFitRule(st.units, req);
    if loc >= 0 {
      RunStartFits(st.units, loc, req);
    }
  }

  /** Worst Fit owns the start of a longest sufficient run (lowest on ties);
      it inspects every unit. */
  lemma WorstFitPlacement(st: AllocState, sizeBytes: int)
    requires st.Valid() && sizeBytes > 0 && st.unitSize > 0
    ensures var (r, loc) := Malloc(st, WF, sizeBytes);
      var req := RequiredUnits(sizeBytes, st.unitSize);
      IsWorstFit(st.units, req, loc) &&
      r.allocationOps == st.allocationOps + st.unitCount &&
      (loc >= 0 ==> (loc + req <= st.unitCount &&
        forall k :: 0 <= k < st.unitCount ==>
          r.units[k] == (if loc <= k < loc + req then st.currentJob else st.units[k])))
  {
    var req := RequiredUnits(sizeBytes, st.unitSize);
    var loc := WorstFit(st.units, req);
    WorstFitRule(st.units, req);
    if loc >= 0 {
      RunStartFits(st.units, loc, req);
    }
  }

  /** Next Fit scans at most N units from the cursor with indices mod N; on
      success the cursor moves to (start+req) mod N, on failure neither the
      cursor nor any unit changes. */
  lemma NextFitPlacement(st: AllocState, sizeBytes: int)
    requires st.Valid() && sizeBytes > 0 && st.unitSize > 0
    ensures var (r, loc) := Malloc(st, NF, sizeBytes);
      var req := RequiredUnits(sizeBytes, st.unitSize);
      var k := FirstFit(Rotate(st.units, st.cursor), req);
      st.allocationOps <= r.allocationOps <= st.allocationOps + st.unitCount &&
      (loc == -1 <==> k == -1) &&
      (loc >= 0 ==>
        loc == (st.cursor + k) % st.unitCount &&
        r.cursor == (loc + req) % st.unitCount &&
        r.allocationOps == st.allocationOps + k + req &&
        Fits(Rotate(st.units, st.cursor), k, req) &&
        r.units == MarkRange(st.units, loc, req, st.currentJob)) &&
      (loc == -1 ==> (r.cursor == st.cursor && r.units == st.units &&
        r.allocationOps == st.allocationOps + st.unitCount))
  {
    var req := RequiredUnits(sizeBytes, st.unitSize);
    FirstFitRule(Rotate(st.units, st.cursor), req);
  }

  /** The Next Fit quirk: a run found across the pool's end is only marked
      up to unit N-1, so fewer than the required units become owned and the
      required bytes exceed the allocated bytes. */
  lemma NextFitWrapLosesUnits()
    ensures var st := AllocState("Next Fit", 8, 4, [FREE, 7, FREE, FREE],
                                 [AllocationRecord(1, 1, 8, 7, true)], 2, 9, 1, 0, 0, 0);
      var (r, loc) := Malloc(st, NF, 24);
      loc == 2 && r.units == [FREE, 7, 9, 9] && r.cursor == 1 &&
      RequiredBytes(r) == 32 && AllocatedBytes(r) == 24 && RequiredBytes(r) > AllocatedBytes(r)
  {
    var st := AllocState("Next Fit", 8, 4, [FREE, 7, FREE, FREE],
                         [AllocationRecord(1, 1, 8, 7, true)], 2, 9, 1, 0, 0, 0);
    assert RequiredUnits(24, 8) == 3 by {
      Arith.DivModUnique(31, 8, 3, 7);
    }
    var rot := Rotate(st.units, 2);
    assert rot == [FREE, FREE, FREE, 7];
    assert Fits(rot, 0, 3);
    assert FirstFit(rot, 3) == 0;
    var (r, loc) := Malloc(st, NF, 24);
    assert r.units == [FREE, 7, 9, 9];
    var u := r.units;
    assert u[..3] == [FREE, 7, 9];
    assert [FREE, 7, 9][..2] == [FREE, 7];
    assert [FREE, 7][..1] == [FREE];
    assert [FREE][..0] == [];
    assert CountUsed([FREE]) == 0;
    assert CountUsed([FREE, 7]) == 1;
    assert CountUsed([FREE, 7, 9]) == 2;
    assert CountUsed(u) == 3;
    var recs := r.records;
    assert recs == [AllocationRecord(1, 1, 8, 7, true), AllocationRecord(2, 3, 24, 9, true)];
    assert recs[..1] == [AllocationRecord(1, 1, 8, 7, true)];
    assert recs[..1][..0] == [];
    assert SumActive(recs[..1]) == 8;
    assert loc == 2 && r.cursor == 1;
  }

  /** freeFF with a negative start changes nothing; otherwise it counts the
      request, inspects records up to the first active match (all of them if
      none matches), deactivates that record and frees its clamped units;
      the configuration, the job tag, the cursor and the allocation counters
      stay as they were. */
  lemma FreeEffect(st: AllocState, s: int)
    requires st.Valid()
    ensures s < 0 ==> Free(st, s) == st
    ensures s >= 0 ==>
      var r := Free(st, s);
      var i := FindActiveFrom(st.records, s, 0);
      r.freeRequests == st.freeRequests + 1 &&
      r.freeOps == st.freeOps + (if i == -1 then |st.records| else i + 1) &&
      |r.records| == |st.records| &&
      r.allocationCount == st.allocationCount && r.allocationOps == st.allocationOps &&
      r.cursor == st.cursor && r.currentJob == st.currentJob &&
      r.algorithmName == st.algorithmName && r.unitSize == st.unitSize && r.unitCount == st.unitCount &&
      (i == -1 ==> r.records == st.records && r.units == st.units) &&
      (i >= 0 ==>
        st.records[i].isActive && st.records[i].startIndex == s &&
        (forall j :: 0 <= j < i ==> !(st.records[j].isActive && st.records[j].startIndex == s)) &&
        r.records[i] == st.records[i].(isActive := false) &&
        (forall j :: 0 <= j < |st.records| && j != i ==> r.records[j] == st.records[j]) &&
        (forall k :: 0 <= k < st.unitCount ==>
          r.units[k] == (if s <= k < s + st.records[i].unitCount then FREE else st.units[k])))
  {
  }

  /** Deactivating an active record lowers the active sum by its bytes. */
  lemma {:induction false} SumActiveDeactivate(recs: seq<AllocationRecord>, i: int)
    requires 0 <= i < |recs| && recs[i].isActive
    ensures SumActive(recs[i := recs[i].(isActive := false)]) == SumActive(recs) - recs[i].requestedBytes
    decreases |recs|
  {
    var recs' := recs[i := recs[i].(isActive := false)];
    var n := |recs|;
    if i < n - 1 {
      SumActiveDeactivate(recs[..n - 1], i);
      assert recs'[..n - 1] == recs[..n - 1][i := recs[i].(isActive := false)];
    } else {
      assert recs'[..n - 1] == recs[..n - 1];
    }
  }

  /** Freeing a matched record removes exactly its bytes from the required total. */
  lemma FreeRequiredBytes(st: AllocState, s: int)
    requires st.Valid() && s >= 0
    ensures var i := FindActiveFrom(st.records, s, 0);
      RequiredBytes(Free(st, s)) ==
        RequiredBytes(st) - (if i == -1 then 0 else st.records[i].requestedBytes)
  {
    var i := FindActiveFrom(st.records, s, 0);
    if i >= 0 {
      SumActiveDeactivate(st.records, i);
    }
  }

  /** Allocated plus free bytes is the pool's total. */
  lemma Accounting(st: AllocState)
    requires st.Valid()
    ensures AllocatedBytes(st) + FreeBytes(st) == TotalBytes(st)
  {
    FreePlusUsed(st.units);
    assert (CountUsed(st.units) + CountFree(st.units)) * st.unitSize ==
      CountUsed(st.units) * st.unitSize + CountFree(st.units) * st.unitSize;
  }

  /** No free run exactly when no unit is free. */
  lemma NoFreeUnitFragments(st: AllocState)
    requires st.Valid() && st.unitSize > 0
    ensures ExternalFragments(st) == 0 <==> FreeBytes(st) == 0
  {
    RunExistsIffFree(st.units);
    if CountFree(st.units) > 0 {
      Arith.MulNonneg(CountFree(st.units) - 1, st.unitSize);
    }
  }

  /** The largest and the smallest free run are zero exactly when no unit
      is free, and the smallest never exceeds the largest. */
  lemma FreeRunBounds(u: seq<int>)
    ensures MaxRunFrom(u, 0) == 0 <==> CountFree(u) == 0
    ensures MinRunFrom(u, 0) == 0 <==> CountFree(u) == 0
    ensures MinRunFrom(u, 0) <= MaxRunFrom(u, 0)
  {
    RunExistsIffFree(u);
    MaxRunFromBounds(u, 0);
    MinRunFromBounds(u, 0);
    if CountFree(u) > 0 {
      var s :| s in RunStartSet(u);
      assert IsRunStart(u, s);
    } else {
      assert forall t :: IsRunStart(u, t) ==> t in RunStartSet(u);
    }
  }

  /** The same facts stated in bytes for a positive unit size. */
  lemma FreeBlockBounds(st: AllocState)
    requires st.Valid() && st.unitSize > 0
    ensures LargestFreeBlock(st) == 0 <==> FreeBytes(st) == 0
    ensures SmallestFreeBlock(st) == 0 <==> FreeBytes(st) == 0
    ensures SmallestFreeBlock(st) <= LargestFreeBlock(st)
  {
    var u, w := st.units, st.unitSize;
    FreeRunBounds(u);
    Arith.MulMonotone(MinRunFrom(u, 0), MaxRunFrom(u, 0), w);
    if CountFree(u) > 0 {
      Arith.MulPositive(CountFree(u), w);
      Arith.MulPositive(MinRunFrom(u, 0), w);
      Arith.MulPositive(MaxRunFrom(u, 0), w);
    }
  }
}
