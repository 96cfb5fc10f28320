/** The simulation object: its configuration, random generator, four
    allocators, workload, event array and per-policy tables, and the
    methods that generate the workload, build and sort the events, replay
    them time by time and collect the statistics. Each method is proved to
    follow the value-level definitions of Workload, Events and Replay. */
module Simulation {

  import opened AllocatorSpec
  import opened Allocator
  import opened RandomGen
  import opened Workload
  import opened Events
  import opened Metrics
  import opened Replay
  import Arith

  /** What the simulation keeps per policy besides its allocator. */
  datatype Tables = Tables(
    codeLoc: seq<int>, stackLoc: seq<int>, heapLoc: seq<int>,
    heapAllocCount: int, heapAllocBytes: int, log: seq<LogRow>)

  lemma NegOnesStep(n: nat)
    ensures NegOnes(n) + [-1] == NegOnes(n + 1)
  {
    assert forall k :: 0 <= k < n + 1 ==> (NegOnes(n) + [-1])[k] == -1;
  }

  /** Tables whose location vectors are all -1 for nj jobs and nh elements. */
  function Reset(t: Tables, nj: nat, nh: nat): Tables
  {
    t.(codeLoc := NegOnes(nj), stackLoc := NegOnes(nj), heapLoc := NegOnes(nh))
  }

  function ResetAll(q: Quad<Tables>, nj: nat, nh: nat): Quad<Tables>
  {
    Quad(Reset(q.ff, nj, nh), Reset(q.nf, nj, nh), Reset(q.bf, nj, nh), Reset(q.wf, nj, nh))
  }

  /** A policy's tables when run starts replaying: no locations, the heap
      counters at 0 and an empty log. */
  function StartTables(nj: nat, nh: nat): Tables
  {
    Tables(NegOnes(nj), NegOnes(nj), NegOnes(nh), 0, 0, [])
  }

  /** One more -1 at the end of each job vector of one policy... */
  function PushJob(t: Tables): Tables
  {
    t.(codeLoc := t.codeLoc + [-1], stackLoc := t.stackLoc + [-1])
  }

  /** ...and of each element vector. */
  function PushHeap(t: Tables): Tables
  {
    t.(heapLoc := t.heapLoc + [-1])
  }

  lemma PushJobReset(q: Quad<Tables>, nj: nat, nh: nat)
    ensures var r := ResetAll(q, nj, nh);
      Quad(PushJob(r.ff), PushJob(r.nf), PushJob(r.bf), PushJob(r.wf)) == ResetAll(q, nj + 1, nh)
  {
    NegOnesStep(nj);
  }

  /** k more -1 slots at the end of every policy's element vector. */
  function PadHeaps(q: Quad<Tables>, k: nat): Quad<Tables>
  {
    Quad(q.ff.(heapLoc := q.ff.heapLoc + NegOnes(k)), q.nf.(heapLoc := q.nf.heapLoc + NegOnes(k)),
         q.bf.(heapLoc := q.bf.heapLoc + NegOnes(k)), q.wf.(heapLoc := q.wf.heapLoc + NegOnes(k)))
  }

  lemma PadHeapsZero(q: Quad<Tables>)
    ensures PadHeaps(q, 0) == q
  {
    assert NegOnes(0) == [];
    assert q.ff.heapLoc + [] == q.ff.heapLoc && q.nf.heapLoc + [] == q.nf.heapLoc;
    assert q.bf.heapLoc + [] == q.bf.heapLoc && q.wf.heapLoc + [] == q.wf.heapLoc;
  }

  /** A -1 slot at the end of every policy's element vector. */
  function PushHeaps(q: Quad<Tables>): Quad<Tables>
  {
    Quad(PushHeap(q.ff), PushHeap(q.nf), PushHeap(q.bf), PushHeap(q.wf))
  }

  lemma PadHeapsStep(q: Quad<Tables>, k: nat)
    ensures PushHeaps(PadHeaps(q, k)) == PadHeaps(q, k + 1)
  {
    NegOnesStep(k);
    assert q.ff.heapLoc + NegOnes(k) + [-1] == q.ff.heapLoc + NegOnes(k + 1);
    assert q.nf.heapLoc + NegOnes(k) + [-1] == q.nf.heapLoc + NegOnes(k + 1);
    assert q.bf.heapLoc + NegOnes(k) + [-1] == q.bf.heapLoc + NegOnes(k + 1);
    assert q.wf.heapLoc + NegOnes(k) + [-1] == q.wf.heapLoc + NegOnes(k + 1);
  }

  lemma PadHeapsReset(q: Quad<Tables>, nj: nat, nh: nat, k: nat)
    ensures PadHeaps(ResetAll(q, nj, nh), k) == ResetAll(q, nj, nh + k)
  {
    assert NegOnes(nh) + NegOnes(k) == NegOnes(nh + k);
  }

  /** Moving the next element from the rest to the part already built. */
  lemma ConsShift<T>(whole: seq<T>, done: seq<T>, x: T, rest: seq<T>)
    requires whole == done + ([x] + rest)
    ensures whole == (done + [x]) + rest
  {
  }

  lemma ElementStep(s: Stream, whole: seq<HeapElement>, cur: seq<HeapElement>, pos: nat, job: Job, per: int, t: int, i: int, e: HeapElement)
    requires t < job.runTime && i < per
    requires whole == cur + HeapElementsFrom(s, pos, job, per, |cur|, t, i)
    requires e == HeapElement(|cur|, job.jobId, job.arrivalTime + t, MapDraw(1, job.runTime, RawAt(s, pos + 1)), MapDraw(20, 50, RawAt(s, pos)))
    ensures whole == (cur + [e]) + HeapElementsFrom(s, pos + 2, job, per, |cur| + 1, t, i + 1)
  {
    HeapElementsFromStep(s, pos, job, per, |cur|, t, i);
    ConsShift(whole, cur, e, HeapElementsFrom(s, pos + 2, job, per, |cur| + 1, t, i + 1));
  }

  /** The malloc of a policy's allocator. */
  method MallocOn(a: MemoryAllocator, p: Policy, sizeBytes: int) returns (location: int)
    requires a.Valid() && sizeBytes > 0
    modifies a`allocations, a`allocationCount, a`allocationOperationCount, a`nextFitSearchStart, a.unitJobId
    ensures a.Valid()
    ensures (a.Abs(), location) == Malloc(old(a.Abs()), p, sizeBytes)
  {
    match p
    case FF => location := a.MallocFF(sizeBytes);
    case NF => location := a.MallocNF(sizeBytes);
    case BF => location := a.MallocBF(sizeBytes);
    case WF => location := a.MallocWF(sizeBytes);
  }

  /** A policy's allocator state and tables as a Replay lane. */
  function LaneFrom(st: AllocState, tb: Tables): Lane
  {
    Lane(st, tb.codeLoc, tb.stackLoc, tb.heapLoc, tb.heapAllocCount, tb.heapAllocBytes, tb.log)
  }

  /** The arrival branch of processEventsAtTime on one policy: the job's
      id made current, code then stack allocated, both locations stored
      (-1 included) and each logged with its size. */
  method ArriveOn(a: MemoryAllocator, p: Policy, tb: Tables, job: Job, t: int) returns (r: Tables)
    requires a.Valid() && 0 <= job.jobId < |tb.codeLoc| && 0 <= job.jobId < |tb.stackLoc|
    requires job.codeSize > 0 && job.stackSize > 0
    modifies a`currentJobId, a`allocations, a`allocationCount, a`allocationOperationCount, a`nextFitSearchStart, a.unitJobId
    ensures a.Valid()
    ensures LaneFrom(a.Abs(), r) == OnArrive(LaneFrom(old(a.Abs()), tb), p, job, t)
  {
    a.SetCurrentJobId(job.jobId);
    var locCode := MallocOn(a, p, job.codeSize);
    var locStack := MallocOn(a, p, job.stackSize);
    r := tb.(codeLoc := tb.codeLoc[job.jobId := locCode], stackLoc := tb.stackLoc[job.jobId := locStack]);
    r := r.(log := r.log + [AllocLog(t, job.jobId, job.codeSize, locCode)]);
    r := r.(log := r.log + [AllocLog(t, job.jobId, job.stackSize, locStack)]);
  }

  /** The departure branch on one policy: the stored code then stack
      location freed with freeFF and logged, each only if it is held. */
  method DepartOn(a: MemoryAllocator, tb: Tables, job: Job, t: int) returns (r: Tables)
    requires a.Valid() && 0 <= job.jobId < |tb.codeLoc| && 0 <= job.jobId < |tb.stackLoc|
    modifies a`allocations, a`freeRequestCount, a`freeOperationCount, a.unitJobId
    ensures a.Valid()
    ensures LaneFrom(a.Abs(), r) == OnDepart(LaneFrom(old(a.Abs()), tb), job, t)
  {
    var locCode := tb.codeLoc[job.jobId];
    var locStack := tb.stackLoc[job.jobId];
    r := tb;
    if locCode >= 0 {
      a.FreeFF(locCode);
      r := r.(log := r.log + [FreeLog(t, job.jobId, locCode)]);
    }
    if locStack >= 0 {
      a.FreeFF(locStack);
      r := r.(log := r.log + [FreeLog(t, job.jobId, locStack)]);
    }
  }

  /** The heap allocation branch on one policy: the element's job made
      current, the element allocated, its location stored and logged, and
      the heap counters raised on success. */
  method HeapAllocOn(a: MemoryAllocator, p: Policy, tb: Tables, e: HeapElement, t: int) returns (r: Tables)
    requires a.Valid() && 0 <= e.elementId < |tb.heapLoc| && e.sizeBytes > 0
    modifies a`currentJobId, a`allocations, a`allocationCount, a`allocationOperationCount, a`nextFitSearchStart, a.unitJobId
    ensures a.Valid()
    ensures LaneFrom(a.Abs(), r) == OnHeapAlloc(LaneFrom(old(a.Abs()), tb), p, e, t)
  {
    a.SetCurrentJobId(e.jobId);
    var loc := MallocOn(a, p, e.sizeBytes);
    r := tb.(heapLoc := tb.heapLoc[e.elementId := loc], log := tb.log + [AllocLog(t, e.jobId, e.sizeBytes, loc)]);
    if loc >= 0 {
      r := r.(heapAllocCount := r.heapAllocCount + 1, heapAllocBytes := r.heapAllocBytes + e.sizeBytes);
    }
  }

  /** The heap free branch on one policy: the stored location freed with
      freeFF and logged under the event's job id if held, then the slot
      cleared to -1. */
  method HeapFreeOn(a: MemoryAllocator, tb: Tables, elementId: int, jobId: int, t: int) returns (r: Tables)
    requires a.Valid() && 0 <= elementId < |tb.heapLoc|
    modifies a`allocations, a`freeRequestCount, a`freeOperationCount, a.unitJobId
    ensures a.Valid()
    ensures LaneFrom(a.Abs(), r) == OnHeapFree(LaneFrom(old(a.Abs()), tb), elementId, jobId, t)
  {
    var loc := tb.heapLoc[elementId];
    r := tb;
    if loc >= 0 {
      a.FreeFF(loc);
      r := r.(log := r.log + [FreeLog(t, jobId, loc)]);
    }
    r := r.(heapLoc := r.heapLoc[elementId := -1]);
  }

  /** One policy's sample: the four byte getters, the two percentages of
      the pool, the fragment count and the clamped internal percentage. */
  method SampleOn(a: MemoryAllocator, t: int, algorithm: string) returns (row: SampleRow)
    requires a.Valid()
    ensures row == Sample(a.Abs(), t, algorithm)
  {
    var totalBytes := a.GetTotalMemorySize();
    var allocatedBytes := a.GetAllocatedMemorySize();
    var freeBytes := a.GetFreeMemorySize();
    var requiredBytes := a.GetRequiredMemorySize();
    var percentInUse, percentFree, percentInternal := 0, 0, 0;
    if totalBytes > 0 {
      percentInUse := Arith.CDiv(100 * allocatedBytes, totalBytes);
      percentFree := Arith.CDiv(100 * freeBytes, totalBytes);
    }
    var externalFragments := a.GetExternalFragmentationCount();
    if allocatedBytes > 0 {
      var internalWaste := allocatedBytes - requiredBytes;
      if internalWaste < 0 {
        internalWaste := 0;
      }
      percentInternal := Arith.CDiv(100 * internalWaste, allocatedBytes);
    }
    row := SampleRow(t, algorithm, allocatedBytes, freeBytes, requiredBytes, externalFragments,
                     percentInUse, percentFree, percentInternal);
  }

  /** One policy's final statistics: the byte getters and percentages, the
      averages over the samples and over the operation counters, the peaks,
      the extreme free blocks, the heap counters kept by the simulation,
      the total operations and the operations per time step. */
  method FinalOn(a: MemoryAllocator, accum: Acc, sampleCount: int, endTime: int,
                 heapAllocCount: int, heapAllocBytes: int) returns (f: FinalStats)
    requires a.Valid()
    ensures f == Final(a.Abs(), accum, sampleCount, endTime, heapAllocCount, heapAllocBytes)
  {
    var totalBytes := a.GetTotalMemorySize();
    var allocatedBytes := a.GetAllocatedMemorySize();
    var freeBytes := a.GetFreeMemorySize();
    var requiredBytes := a.GetRequiredMemorySize();
    var largestFreeBlockBytes := a.GetLargestFreeBlockSize();
    var smallestFreeBlockBytes := a.GetSmallestFreeBlockSize();
    var numAlloc, numAllocOps := a.allocationCount, a.allocationOperationCount;
    var numFree, numFreeOps := a.freeRequestCount, a.freeOperationCount;
    var percentInUse, percentFree, percentInternal := 0, 0, 0;
    if totalBytes > 0 {
      percentInUse := Arith.CDiv(100 * allocatedBytes, totalBytes);
      percentFree := Arith.CDiv(100 * freeBytes, totalBytes);
    }
    if allocatedBytes > 0 {
      var internalWaste := allocatedBytes - requiredBytes;
      if internalWaste < 0 {
        internalWaste := 0;
      }
      percentInternal := Arith.CDiv(100 * internalWaste, allocatedBytes);
    }
    var avgPercentInUse, avgPercentInternal := 0, 0;
    if sampleCount > 0 {
      avgPercentInUse := Arith.CDiv(accum.sumInUse, sampleCount);
      avgPercentInternal := Arith.CDiv(accum.sumInternal, sampleCount);
    }
    var avgAllocOps, avgFreeOps := 0, 0;
    if numAlloc > 0 {
      avgAllocOps := Arith.CDiv(numAllocOps, numAlloc);
    }
    if numFree > 0 {
      avgFreeOps := Arith.CDiv(numFreeOps, numFree);
    }
    var totalOperations := numAllocOps + numFreeOps;
    var operationsPerTime := 0;
    var totalTimeSteps := endTime + 1;
    if totalTimeSteps > 0 {
      operationsPerTime := Arith.CDiv(totalOperations, totalTimeSteps);
    }
    f := FinalStats(totalBytes, allocatedBytes, freeBytes, requiredBytes,
                    percentInUse, percentFree, percentInternal,
                    avgPercentInUse, avgPercentInternal, accum.maxInUse, accum.maxExternalFrag,
                    largestFreeBlockBytes, smallestFreeBlockBytes, heapAllocCount, heapAllocBytes,
                    numAlloc, numAllocOps, numFree, numFreeOps,
                    avgAllocOps, avgFreeOps, totalOperations, operationsPerTime);
  }

  class MemorySimulation {
    var config: SimConfig
    var rng: RandomGenerator
    var allocatorFirstFit: MemoryAllocator
    var allocatorNextFit: MemoryAllocator
    var allocatorBestFit: MemoryAllocator
    var allocatorWorstFit: MemoryAllocator
    var jobs: seq<Job>
    var heapElements: seq<HeapElement>
    var events: seq<Event>
    var tables: Quad<Tables>
    var acc: Quad<Acc>
    var sampleCount: int
    var summary: seq<SampleRow>

    /** Four distinct allocators with distinct pools, each valid; tables
        sized to the workload. */
    ghost predicate Valid()
      reads this`allocatorFirstFit, this`allocatorNextFit, this`allocatorBestFit, this`allocatorWorstFit
      reads allocatorFirstFit, allocatorNextFit, allocatorBestFit, allocatorWorstFit
    {
      allocatorFirstFit != allocatorNextFit && allocatorFirstFit != allocatorBestFit &&
      allocatorFirstFit != allocatorWorstFit && allocatorNextFit != allocatorBestFit &&
      allocatorNextFit != allocatorWorstFit && allocatorBestFit != allocatorWorstFit &&
      allocatorFirstFit.unitJobId != allocatorNextFit.unitJobId &&
      allocatorFirstFit.unitJobId != allocatorBestFit.unitJobId &&
      allocatorFirstFit.unitJobId != allocatorWorstFit.unitJobId &&
      allocatorNextFit.unitJobId != allocatorBestFit.unitJobId &&
      allocatorNextFit.unitJobId != allocatorWorstFit.unitJobId &&
      allocatorBestFit.unitJobId != allocatorWorstFit.unitJobId &&
      allocatorFirstFit.Valid() && allocatorNextFit.Valid() &&
      allocatorBestFit.Valid() && allocatorWorstFit.Valid()
    }

    ghost predicate Sized()
      reads this`tables, this`jobs, this`heapElements
    {
      Fits(tables.ff) && Fits(tables.nf) && Fits(tables.bf) && Fits(tables.wf)
    }

    ghost predicate Fits(t: Tables)
      reads this`jobs, this`heapElements
    {
      |t.codeLoc| == |jobs| && |t.stackLoc| == |jobs| && |t.heapLoc| == |heapElements|
    }

    /** The four lanes. */
    ghost function Lanes(): Quad<Lane>
      reads this`allocatorFirstFit, this`allocatorNextFit, this`allocatorBestFit, this`allocatorWorstFit, this`tables
      reads allocatorFirstFit, allocatorNextFit, allocatorBestFit, allocatorWorstFit
      reads allocatorFirstFit.unitJobId, allocatorNextFit.unitJobId
      reads allocatorBestFit.unitJobId, allocatorWorstFit.unitJobId
    {
      Quad(LaneFrom(allocatorFirstFit.Abs(), tables.ff), LaneFrom(allocatorNextFit.Abs(), tables.nf),
           LaneFrom(allocatorBestFit.Abs(), tables.bf), LaneFrom(allocatorWorstFit.Abs(), tables.wf))
    }

    /** The four allocator states. */
    ghost function Allocs(): Quad<AllocState>
      reads this`allocatorFirstFit, this`allocatorNextFit, this`allocatorBestFit, this`allocatorWorstFit
      reads allocatorFirstFit, allocatorNextFit, allocatorBestFit, allocatorWorstFit
      reads allocatorFirstFit.unitJobId, allocatorNextFit.unitJobId
      reads allocatorBestFit.unitJobId, allocatorWorstFit.unitJobId
    {
      Quad(allocatorFirstFit.Abs(), allocatorNextFit.Abs(), allocatorBestFit.Abs(), allocatorWorstFit.Abs())
    }

    /** The four pools, which allocation and freeing rewrite in place but
        never replace. */
    function Pools(): (array<int>, array<int>, array<int>, array<int>)
      reads this`allocatorFirstFit, this`allocatorNextFit, this`allocatorBestFit, this`allocatorWorstFit
      reads allocatorFirstFit, allocatorNextFit, allocatorBestFit, allocatorWorstFit
    {
      (allocatorFirstFit.unitJobId, allocatorNextFit.unitJobId, allocatorBestFit.unitJobId, allocatorWorstFit.unitJobId)
    }

    /** Everything the tick loop updates, as a Replay world. */
    ghost function WorldOf(): World
      reads this`allocatorFirstFit, this`allocatorNextFit, this`allocatorBestFit, this`allocatorWorstFit
      reads this`tables, this`acc, this`sampleCount, this`summary
      reads allocatorFirstFit, allocatorNextFit, allocatorBestFit, allocatorWorstFit
      reads allocatorFirstFit.unitJobId, allocatorNextFit.unitJobId
      reads allocatorBestFit.unitJobId, allocatorWorstFit.unitJobId
    {
      World(Lanes(), acc, sampleCount, summary)
    }

    /** Construction: default configuration, default-seeded generator
        (its stream is the argument), four unconfigured allocators. */
    constructor (stream: Stream)
      ensures Valid() && config == DefaultConfig()
      ensures rng.source == stream && rng.position == 0
      ensures allocatorFirstFit.Abs() == Initial() && allocatorNextFit.Abs() == Initial()
      ensures allocatorBestFit.Abs() == Initial() && allocatorWorstFit.Abs() == Initial()
    {
      config := DefaultConfig();
      rng := new RandomGenerator(stream);
      allocatorFirstFit := new MemoryAllocator();
      allocatorNextFit := new MemoryAllocator();
      allocatorBestFit := new MemoryAllocator();
      allocatorWorstFit := new MemoryAllocator();
      jobs := [];
      heapElements := [];
      events := [];
      tables := All(Tables([], [], [], 0, 0, []));
      acc := All(Zero());
      sampleCount := 0;
      summary := [];
    }

    /** configure: keep the configuration, reseed (the seed's stream is the
        argument) and configure the allocators. */
    method Configure(cfg: SimConfig, stream: Stream)
      requires Valid() && cfg.memoryUnitCount >= 0
      modifies this`config, rng, allocatorFirstFit, allocatorNextFit, allocatorBestFit, allocatorWorstFit
      ensures Valid() && config == cfg && rng.source == stream && rng.position == 0
      ensures allocatorFirstFit.Abs() == AllocatorSpec.Configure(old(allocatorFirstFit.Abs()), cfg.memoryUnitSize, cfg.memoryUnitCount, "First Fit")
      ensures allocatorNextFit.Abs() == AllocatorSpec.Configure(old(allocatorNextFit.Abs()), cfg.memoryUnitSize, cfg.memoryUnitCount, "Next Fit")
      ensures allocatorBestFit.Abs() == AllocatorSpec.Configure(old(allocatorBestFit.Abs()), cfg.memoryUnitSize, cfg.memoryUnitCount, "Best Fit")
      ensures allocatorWorstFit.Abs() == AllocatorSpec.Configure(old(allocatorWorstFit.Abs()), cfg.memoryUnitSize, cfg.memoryUnitCount, "Worst Fit")
    {
      config := cfg;
      rng.Reseed(stream);
      InitializeAllocators();
    }

    /** initializeAllocators: the same pool shape for all four. */
    method InitializeAllocators()
      requires Valid() && config.memoryUnitCount >= 0
      modifies allocatorFirstFit, allocatorNextFit, allocatorBestFit, allocatorWorstFit
      ensures Valid()
      ensures allocatorFirstFit.Abs() == AllocatorSpec.Configure(old(allocatorFirstFit.Abs()), config.memoryUnitSize, config.memoryUnitCount, "First Fit")
      ensures allocatorNextFit.Abs() == AllocatorSpec.Configure(old(allocatorNextFit.Abs()), config.memoryUnitSize, config.memoryUnitCount, "Next Fit")
      ensures allocatorBestFit.Abs() == AllocatorSpec.Configure(old(allocatorBestFit.Abs()), config.memoryUnitSize, config.memoryUnitCount, "Best Fit")
      ensures allocatorWorstFit.Abs() == AllocatorSpec.Configure(old(allocatorWorstFit.Abs()), config.memoryUnitSize, config.memoryUnitCount, "Worst Fit")
    {
      allocatorFirstFit.Configure(config.memoryUnitSize, config.memoryUnitCount, "First Fit");
      allocatorNextFit.Configure(config.memoryUnitSize, config.memoryUnitCount, "Next Fit");
      allocatorBestFit.Configure(config.memoryUnitSize, config.memoryUnitCount, "Best Fit");
      allocatorWorstFit.Configure(config.memoryUnitSize, config.memoryUnitCount, "Worst Fit");
    }

    // ------------------------------------------------------------ workload

    /** chooseJobType: one draw in 1..100 against the configured shares. */
    method ChooseJobType() returns (typeCode: int)
      modifies rng`position
      ensures rng.position == old(rng.position) + 1
      ensures typeCode == TypeCode(MapDraw(1, 100, RawAt(rng.source, old(rng.position))), config.percentSmall, config.percentMedium)
    {
      var r := rng.RandomInclusive(1, 100);
      if r <= config.percentSmall {
        typeCode := 0;
      } else if r <= config.percentSmall + config.percentMedium {
        typeCode := 1;
      } else {
        typeCode := 2;
      }
    }

    /** createRandomJob: four draws, type first. */
    method CreateRandomJob(jobIdValue: int, arrivalTime: int) returns (job: Job)
      modifies rng`position
      ensures rng.position == old(rng.position) + 4
      ensures job == RandomJob(rng.source, old(rng.position), config, jobIdValue, arrivalTime)
    {
      var typeCode := ChooseJobType();
      if typeCode == 0 {
        var runTime := rng.RandomInclusive(4, 6);
        var codeSize := rng.RandomInclusive(40, 80);
        var stackSize := rng.RandomInclusive(20, 40);
        job := Job(jobIdValue, 'S', arrivalTime, runTime, codeSize, stackSize, runTime * 5);
      } else if typeCode == 1 {
        var runTime := rng.RandomInclusive(9, 11);
        var codeSize := rng.RandomInclusive(60, 120);
        var stackSize := rng.RandomInclusive(40, 80);
        job := Job(jobIdValue, 'M', arrivalTime, runTime, codeSize, stackSize, runTime * 10);
      } else {
        var runTime := rng.RandomInclusive(24, 26);
        var codeSize := rng.RandomInclusive(120, 220);
        var stackSize := rng.RandomInclusive(70, 110);
        job := Job(jobIdValue, 'L', arrivalTime, runTime, codeSize, stackSize, runTime * 25);
      }
    }

    /** createHeapElementsForJob: the elements of HeapElementsFor appended,
        two draws each, and a -1 slot per element in every policy's table. */
    method CreateHeapElementsForJob(job: Job)
      modifies this`heapElements, this`tables, rng`position
      ensures var hs := HeapElementsFor(rng.source, old(rng.position), job, |old(heapElements)|);
        heapElements == old(heapElements) + hs &&
        rng.position == old(rng.position) + 2 * |hs| &&
        tables == PadHeaps(old(tables), |hs|)
    {
      ghost var s, p0, h0, t0 := rng.source, rng.position, heapElements, tables;
      PadHeapsZero(t0);
      if job.heapElementCount <= 0 || job.runTime <= 0 {
        return;
      }
      if |heapElements| > HeapCap {
        return;
      }
      var perTime := Arith.CDiv(job.heapElementCount, job.runTime);
      if perTime <= 0 {
        perTime := 1;
      }
      assert perTime == PerTime(job);
      ghost var all := HeapElementsFrom(s, p0, job, perTime, |h0|, 0, 0);
      for t := 0 to job.runTime
        invariant |h0| <= |heapElements| && rng.source == s
        invariant rng.position == p0 + 2 * (|heapElements| - |h0|)
        invariant h0 + all == heapElements + HeapElementsFrom(s, rng.position, job, perTime, |heapElements|, t, 0)
        invariant tables == PadHeaps(t0, |heapElements| - |h0|)
      {
        CreateHeapElementsAt(job, perTime, t, h0, t0);
      }
      HeapElementsFromLength(s, p0, job, perTime, |h0|, 0, 0);
      assert heapElements == h0 + all;
    }

    /** The inner loop of createHeapElementsForJob: perTime elements
        arriving at the job's arrival plus t, each with a -1 slot. */
    method CreateHeapElementsAt(job: Job, perTime: int, t: int, ghost h0: seq<HeapElement>, ghost t0: Quad<Tables>)
      requires 0 <= t < job.runTime && perTime > 0
      requires |h0| <= |heapElements| && tables == PadHeaps(t0, |heapElements| - |h0|)
      modifies this`heapElements, this`tables, rng`position
      ensures |old(heapElements)| <= |heapElements|
      ensures old(heapElements) + HeapElementsFrom(rng.source, old(rng.position), job, perTime, |old(heapElements)|, t, 0) ==
        heapElements + HeapElementsFrom(rng.source, rng.position, job, perTime, |heapElements|, t + 1, 0)
      ensures rng.position == old(rng.position) + 2 * (|heapElements| - |old(heapElements)|)
      ensures tables == PadHeaps(t0, |heapElements| - |h0|)
    {
      ghost var s, p1, h1 := rng.source, rng.position, heapElements;
      ghost var whole := h1 + HeapElementsFrom(s, p1, job, perTime, |h1|, t, 0);
      var arrivalTime := job.arrivalTime + t;
      for i := 0 to perTime
        invariant |h1| <= |heapElements| && rng.source == s
        invariant rng.position == p1 + 2 * (|heapElements| - |h1|)
        invariant whole == heapElements + HeapElementsFrom(s, rng.position, job, perTime, |heapElements|, t, i)
        invariant tables == PadHeaps(t0, |heapElements| - |h0|)
      {
        ghost var k, pos, cur := |heapElements| - |h0|, rng.position, heapElements;
        CreateHeapElement(job, arrivalTime);
        ElementStep(s, whole, cur, pos, job, perTime, t, i, heapElements[|cur|]);
        PadHeapsStep(t0, k);
      }
      assert HeapElementsFrom(s, rng.position, job, perTime, |heapElements|, t, perTime) ==
        HeapElementsFrom(s, rng.position, job, perTime, |heapElements|, t + 1, 0);
    }

    /** One pass of the inner loop: size then lifetime drawn, the element
        numbered by its index, and a -1 slot for it in every policy. */
    method CreateHeapElement(job: Job, arrivalTime: int)
      modifies this`heapElements, this`tables, rng`position
      ensures heapElements == old(heapElements) + [HeapElement(|old(heapElements)|, job.jobId, arrivalTime,
        MapDraw(1, job.runTime, RawAt(rng.source, old(rng.position) + 1)), MapDraw(20, 50, RawAt(rng.source, old(rng.position))))]
      ensures rng.position == old(rng.position) + 2
      ensures tables == PushHeaps(old(tables))
    {
      var sizeBytes := rng.RandomInclusive(20, 50);
      var lifetime := rng.RandomInclusive(1, job.runTime);
      var element := HeapElement(|heapElements|, job.jobId, arrivalTime, lifetime, sizeBytes);
      heapElements := heapElements + [element];
      tables := PushHeaps(tables);
    }

    /** buildJobsAndHeapElements: clear the workload and the job and element
        tables, then the arrival loop; the result is Generate's. */
    method BuildJobsAndHeapElements()
      modifies this`jobs, this`heapElements, this`tables, rng`position
      ensures var g := Generate(old(rng.source), old(rng.position), old(config));
        jobs == g.0 && heapElements == g.1 && rng.position == g.2
      ensures tables == ResetAll(old(tables), |jobs|, |heapElements|)
    {
      ghost var s, p0, t0 := rng.source, rng.position, tables;
      jobs := [];
      heapElements := [];
      tables := ResetAll(tables, 0, 0);
      var jobIdValue := 0;
      var baseTime := 1;
      var offset := rng.RandomInclusive(0, 4);
      var nextArrival := baseTime + offset;
      GenerateStart(s, p0, config, jobs, heapElements, rng.position, baseTime, nextArrival);
      ArrivalLoop(jobIdValue, baseTime, nextArrival, t0);
    }

    /** The arrival loop of buildJobsAndHeapElements, from a job count,
        base time and first arrival on: a job every three ticks plus a
        drawn offset until an arrival reaches the end of the prefill. */
    method ArrivalLoop(jobIdValue0: int, baseTime0: int, nextArrival0: int, ghost t0: Quad<Tables>)
      requires jobIdValue0 == |jobs| && baseTime0 <= nextArrival0 <= baseTime0 + 4
      requires tables == ResetAll(t0, |jobs|, |heapElements|)
      modifies this`jobs, this`heapElements, this`tables, rng`position
      ensures var g := GenerateFrom(rng.source, old(rng.position), config, old(jobs), old(heapElements), baseTime0, nextArrival0);
        jobs == g.0 && heapElements == g.1 && rng.position == g.2
      ensures tables == ResetAll(t0, |jobs|, |heapElements|)
    {
      ghost var s := rng.source;
      ghost var g := GenerateFrom(s, rng.position, config, jobs, heapElements, baseTime0, nextArrival0);
      var jobIdValue, baseTime, nextArrival := jobIdValue0, baseTime0, nextArrival0;
      var endTime := 2000;
      while nextArrival < endTime
        invariant jobIdValue == |jobs| && baseTime <= nextArrival <= baseTime + 4
        invariant GenerateFrom(s, rng.position, config, jobs, heapElements, baseTime, nextArrival) == g
        invariant tables == ResetAll(t0, |jobs|, |heapElements|)
        decreases PrefillTime - baseTime
      {
        nextArrival := ArriveNext(jobIdValue, baseTime, nextArrival, t0);
        jobIdValue := jobIdValue + 1;
        baseTime := baseTime + 3;
      }
      GenerateDone(s, rng.position, config, jobs, heapElements, baseTime, nextArrival);
    }

    /** One pass of the arrival loop: the job arriving at nextArrival, its
        heap elements and table slots, and the offset of the next arrival
        three ticks later; the remaining generation is unchanged. */
    method ArriveNext(jobIdValue: int, baseTime: int, nextArrival: int, ghost t0: Quad<Tables>) returns (next: int)
      requires jobIdValue == |jobs| && baseTime <= nextArrival <= baseTime + 4 && nextArrival < PrefillTime
      requires tables == ResetAll(t0, |jobs|, |heapElements|)
      modifies this`jobs, this`heapElements, this`tables, rng`position
      ensures |jobs| == |old(jobs)| + 1 && baseTime + 3 <= next <= baseTime + 7
      ensures GenerateFrom(rng.source, old(rng.position), config, old(jobs), old(heapElements), baseTime, nextArrival) ==
        GenerateFrom(rng.source, rng.position, config, jobs, heapElements, baseTime + 3, next)
      ensures tables == ResetAll(t0, |jobs|, |heapElements|)
    {
      ghost var s, p, js, hs0 := rng.source, rng.position, jobs, heapElements;
      var job := CreateRandomJob(jobIdValue, nextArrival);
      jobs := jobs + [job];
      PushJobReset(t0, |js|, |hs0|);
      tables := Quad(PushJob(tables.ff), PushJob(tables.nf), PushJob(tables.bf), PushJob(tables.wf));
      CreateHeapElementsForJob(job);
      ghost var hs := heapElements[|hs0|..];
      assert heapElements == hs0 + hs;
      PadHeapsReset(t0, |jobs|, |hs0|, |hs|);
      ghost var q := rng.position;
      var offset := rng.RandomInclusive(0, 4);
      next := baseTime + 3 + offset;
      IterateFrom(s, p, config, js, hs0, baseTime, nextArrival, job, hs, jobs, heapElements, q, next);
    }

    // -------------------------------------------------------------- events

    /** buildEvents: arrival and departure per job, then allocation and
        free per element, sorted by the exchange sort in a fresh array. */
    method BuildEvents()
      modifies this`events
      ensures events == ExchangeSort(Emitted(jobs, heapElements))
      ensures WellFormed(jobs, heapElements) ==> AllRefs(events, jobs, heapElements)
    {
      var es: seq<Event> := [];
      var jobCount := |jobs|;
      for i := 0 to jobCount
        invariant es == JobEvents(jobs[..i])
      {
        var job := jobs[i];
        es := es + [Event(job.arrivalTime, job.jobId, -1, 0)];
        es := es + [Event(job.arrivalTime + job.runTime, job.jobId, -1, 1)];
        assert jobs[..i + 1][..i] == jobs[..i];
      }
      assert jobs[..jobCount] == jobs;
      ghost var je := es;
      var heapCount := |heapElements|;
      for i := 0 to heapCount
        invariant es == je + HeapEvents(heapElements[..i])
      {
        var element := heapElements[i];
        es := es + [Event(element.arrivalTime, element.jobId, element.elementId, 2)];
        es := es + [Event(DepartureTime(element), element.jobId, element.elementId, 3)];
        assert heapElements[..i + 1][..i] == heapElements[..i];
      }
      assert heapElements[..heapCount] == heapElements;
      var a := new Event[|es|](k requires 0 <= k < |es| => es[k]);
      assert a[..] == es;
      ExchangeSortInPlace(a);
      events := a[..];
      if WellFormed(jobs, heapElements) {
        EmittedRefs(jobs, heapElements);
        SortedRefs(Emitted(jobs, heapElements), jobs, heapElements);
      }
    }

    // -------------------------------------------------------------- replay

    /** The arrival branch on one policy's allocator and tables. */
    method ArriveLane(p: Policy, job: Job, t: int)
      requires Valid() && Sized() && 0 <= job.jobId < |jobs| && job.codeSize > 0 && job.stackSize > 0
      modifies allocatorFirstFit, allocatorNextFit, allocatorBestFit, allocatorWorstFit
      modifies allocatorFirstFit.unitJobId, allocatorNextFit.unitJobId
      modifies allocatorBestFit.unitJobId, allocatorWorstFit.unitJobId
      modifies this`tables
      ensures Valid() && Sized() && Pools() == old(Pools())
      ensures Lanes() == old(Lanes()).Set(p, OnArrive(old(Lanes()).Get(p), p, job, t))
    {
      match p
      case FF =>
        var r := ArriveOn(allocatorFirstFit, FF, tables.ff, job, t);
        tables := tables.(ff := r);
      case NF =>
        var r := ArriveOn(allocatorNextFit, NF, tables.nf, job, t);
        tables := tables.(nf := r);
      case BF =>
        var r := ArriveOn(allocatorBestFit, BF, tables.bf, job, t);
        tables := tables.(bf := r);
      case WF =>
        var r := ArriveOn(allocatorWorstFit, WF, tables.wf, job, t);
        tables := tables.(wf := r);
    }

    /** The arrival branch: code and stack on First, Next, Best and Worst
        Fit, in that order. */
    method ArriveAll(job: Job, t: int)
      requires Valid() && Sized() && 0 <= job.jobId < |jobs| && job.codeSize > 0 && job.stackSize > 0
      modifies allocatorFirstFit, allocatorNextFit, allocatorBestFit, allocatorWorstFit
      modifies allocatorFirstFit.unitJobId, allocatorNextFit.unitJobId
      modifies allocatorBestFit.unitJobId, allocatorWorstFit.unitJobId
      modifies this`tables
      ensures Valid() && Sized() && Pools() == old(Pools())
      ensures Lanes() == Quad(OnArrive(old(Lanes()).ff, FF, job, t), OnArrive(old(Lanes()).nf, NF, job, t),
                              OnArrive(old(Lanes()).bf, BF, job, t), OnArrive(old(Lanes()).wf, WF, job, t))
    {
      ArriveLane(FF, job, t);
      ArriveLane(NF, job, t);
      ArriveLane(BF, job, t);
      ArriveLane(WF, job, t);
    }

    /** The departure branch on one policy's allocator and tables. */
    method DepartLane(p: Policy, job: Job, t: int)
      requires Valid() && Sized() && 0 <= job.jobId < |jobs|
      modifies allocatorFirstFit, allocatorNextFit, allocatorBestFit, allocatorWorstFit
      modifies allocatorFirstFit.unitJobId, allocatorNextFit.unitJobId
      modifies allocatorBestFit.unitJobId, allocatorWorstFit.unitJobId
      modifies this`tables
      ensures Valid() && Sized() && Pools() == old(Pools())
      ensures Lanes() == old(Lanes()).Set(p, OnDepart(old(Lanes()).Get(p), job, t))
    {
      match p
      case FF =>
        var r := DepartOn(allocatorFirstFit, tables.ff, job, t);
        tables := tables.(ff := r);
      case NF =>
        var r := DepartOn(allocatorNextFit, tables.nf, job, t);
        tables := tables.(nf := r);
      case BF =>
        var r := DepartOn(allocatorBestFit, tables.bf, job, t);
        tables := tables.(bf := r);
      case WF =>
        var r := DepartOn(allocatorWorstFit, tables.wf, job, t);
        tables := tables.(wf := r);
    }

    /** The departure branch, policy by policy; every policy frees with
        freeFF. */
    method DepartAll(job: Job, t: int)
      requires Valid() && Sized() && 0 <= job.jobId < |jobs|
      modifies allocatorFirstFit, allocatorNextFit, allocatorBestFit, allocatorWorstFit
      modifies allocatorFirstFit.unitJobId, allocatorNextFit.unitJobId
      modifies allocatorBestFit.unitJobId, allocatorWorstFit.unitJobId
      modifies this`tables
      ensures Valid() && Sized() && Pools() == old(Pools())
      ensures Lanes() == Quad(OnDepart(old(Lanes()).ff, job, t), OnDepart(old(Lanes()).nf, job, t),
                              OnDepart(old(Lanes()).bf, job, t), OnDepart(old(Lanes()).wf, job, t))
    {
      DepartLane(FF, job, t);
      DepartLane(NF, job, t);
      DepartLane(BF, job, t);
      DepartLane(WF, job, t);
    }

    /** The heap allocation branch on one policy's allocator and tables. */
    method HeapAllocLane(p: Policy, e: HeapElement, t: int)
      requires Valid() && Sized() && 0 <= e.elementId < |heapElements| && e.sizeBytes > 0
      modifies allocatorFirstFit, allocatorNextFit, allocatorBestFit, allocatorWorstFit
      modifies allocatorFirstFit.unitJobId, allocatorNextFit.unitJobId
      modifies allocatorBestFit.unitJobId, allocatorWorstFit.unitJobId
      modifies this`tables
      ensures Valid() && Sized() && Pools() == old(Pools())
      ensures Lanes() == old(Lanes()).Set(p, OnHeapAlloc(old(Lanes()).Get(p), p, e, t))
    {
      match p
      case FF =>
        var r := HeapAllocOn(allocatorFirstFit, FF, tables.ff, e, t);
        tables := tables.(ff := r);
      case NF =>
        var r := HeapAllocOn(allocatorNextFit, NF, tables.nf, e, t);
        tables := tables.(nf := r);
      case BF =>
        var r := HeapAllocOn(allocatorBestFit, BF, tables.bf, e, t);
        tables := tables.(bf := r);
      case WF =>
        var r := HeapAllocOn(allocatorWorstFit, WF, tables.wf, e, t);
        tables := tables.(wf := r);
    }

    /** The heap allocation branch, policy by policy. */
    method HeapAllocAll(e: HeapElement, t: int)
      requires Valid() && Sized() && 0 <= e.elementId < |heapElements| && e.sizeBytes > 0
      modifies allocatorFirstFit, allocatorNextFit, allocatorBestFit, allocatorWorstFit
      modifies allocatorFirstFit.unitJobId, allocatorNextFit.unitJobId
      modifies allocatorBestFit.unitJobId, allocatorWorstFit.unitJobId
      modifies this`tables
      ensures Valid() && Sized() && Pools() == old(Pools())
      ensures Lanes() == Quad(OnHeapAlloc(old(Lanes()).ff, FF, e, t), OnHeapAlloc(old(Lanes()).nf, NF, e, t),
                              OnHeapAlloc(old(Lanes()).bf, BF, e, t), OnHeapAlloc(old(Lanes()).wf, WF, e, t))
    {
      HeapAllocLane(FF, e, t);
      HeapAllocLane(NF, e, t);
      HeapAllocLane(BF, e, t);
      HeapAllocLane(WF, e, t);
    }

    /** The heap free branch on one policy's allocator and tables. */
    method HeapFreeLane(p: Policy, elementId: int, jobId: int, t: int)
      requires Valid() && Sized() && 0 <= elementId < |heapElements|
      modifies allocatorFirstFit, allocatorNextFit, allocatorBestFit, allocatorWorstFit
      modifies allocatorFirstFit.unitJobId, allocatorNextFit.unitJobId
      modifies allocatorBestFit.unitJobId, allocatorWorstFit.unitJobId
      modifies this`tables
      ensures Valid() && Sized() && Pools() == old(Pools())
      ensures Lanes() == old(Lanes()).Set(p, OnHeapFree(old(Lanes()).Get(p), elementId, jobId, t))
    {
      match p
      case FF =>
        var r := HeapFreeOn(allocatorFirstFit, tables.ff, elementId, jobId, t);
        tables := tables.(ff := r);
      case NF =>
        var r := HeapFreeOn(allocatorNextFit, tables.nf, elementId, jobId, t);
        tables := tables.(nf := r);
      case BF =>
        var r := HeapFreeOn(allocatorBestFit, tables.bf, elementId, jobId, t);
        tables := tables.(bf := r);
      case WF =>
        var r := HeapFreeOn(allocatorWorstFit, tables.wf, elementId, jobId, t);
        tables := tables.(wf := r);
    }

    /** The heap free branch, policy by policy: each policy's own stored
        location is freed, and each slot cleared. */
    method HeapFreeAll(elementId: int, jobId: int, t: int)
      requires Valid() && Sized() && 0 <= elementId < |heapElements|
      modifies allocatorFirstFit, allocatorNextFit, allocatorBestFit, allocatorWorstFit
      modifies allocatorFirstFit.unitJobId, allocatorNextFit.unitJobId
      modifies allocatorBestFit.unitJobId, allocatorWorstFit.unitJobId
      modifies this`tables
      ensures Valid() && Sized() && Pools() == old(Pools())
      ensures Lanes() == Quad(OnHeapFree(old(Lanes()).ff, elementId, jobId, t), OnHeapFree(old(Lanes()).nf, elementId, jobId, t),
                              OnHeapFree(old(Lanes()).bf, elementId, jobId, t), OnHeapFree(old(Lanes()).wf, elementId, jobId, t))
    {
      HeapFreeLane(FF, elementId, jobId, t);
      HeapFreeLane(NF, elementId, jobId, t);
      HeapFreeLane(BF, elementId, jobId, t);
      HeapFreeLane(WF, elementId, jobId, t);
    }

    /** One event of processEventsAtTime, dispatched on its type; a type
        outside 0..3 changes nothing. */
    method ApplyEvent(ev: Event, t: int)
      requires Valid() && Sized() && EventRefs(ev, jobs, heapElements)
      modifies allocatorFirstFit, allocatorNextFit, allocatorBestFit, allocatorWorstFit
      modifies allocatorFirstFit.unitJobId, allocatorNextFit.unitJobId
      modifies allocatorBestFit.unitJobId, allocatorWorstFit.unitJobId
      modifies this`tables
      ensures Valid() && Sized() && Pools() == old(Pools())
      ensures LanesValid(old(Lanes()), |jobs|, |heapElements|)
      ensures Lanes() == EventAll(old(Lanes()), ev, jobs, heapElements, t)
    {
      if ev.eventType == 0 {
        ArriveAll(jobs[ev.jobId], t);
      } else if ev.eventType == 1 {
        DepartAll(jobs[ev.jobId], t);
      } else if ev.eventType == 2 {
        HeapAllocAll(heapElements[ev.elementId], t);
      } else if ev.eventType == 3 {
        HeapFreeAll(ev.elementId, ev.jobId, t);
      }
    }

    /** processEventsAtTime: every event of the array in order, those not
        at the current time skipped; the result is Replay's tick on each
        lane. */
    method ProcessEventsAtTime(currentTime: int)
      requires Valid() && Sized() && AllRefs(events, jobs, heapElements)
      modifies allocatorFirstFit, allocatorNextFit, allocatorBestFit, allocatorWorstFit
      modifies allocatorFirstFit.unitJobId, allocatorNextFit.unitJobId
      modifies allocatorBestFit.unitJobId, allocatorWorstFit.unitJobId
      modifies this`tables
      ensures Valid() && Sized() && Pools() == old(Pools())
      ensures LanesValid(old(Lanes()), |jobs|, |heapElements|)
      ensures Lanes() == TickAll(old(Lanes()), events, jobs, heapElements, currentTime)
    {
      ghost var l0, evs := Lanes(), events;
      assert LanesValid(l0, |jobs|, |heapElements|);
      TickAllFromZero(l0, evs, jobs, heapElements, currentTime, 0);
      var eventCount := |events|;
      for i := 0 to eventCount
        invariant Valid() && Sized() && Pools() == old(Pools())
        invariant Lanes() == TickAllFrom(l0, evs, jobs, heapElements, currentTime, i)
      {
        TickAllFromStep(l0, evs, jobs, heapElements, currentTime, i);
        var ev := events[i];
        if ev.time != currentTime {
          continue;
        }
        ApplyEvent(ev, currentTime);
      }
      TickAllFromAll(l0, evs, jobs, heapElements, currentTime, eventCount);
    }

    /** The sampling block of run: a row per policy in the order FF, NF,
        BF, WF, each folded into its running sums and peaks and written to
        the summary, then one more sample counted. */
    method TakeSample(t: int)
      requires Valid()
      modifies this`acc, this`sampleCount, this`summary
      ensures WorldOf() == SampleWorld(old(WorldOf()), t)
    {
      var rows := SampleRows(t);
      acc := Quad(Accumulate(acc.ff, rows.ff), Accumulate(acc.nf, rows.nf), Accumulate(acc.bf, rows.bf), Accumulate(acc.wf, rows.wf));
      summary := summary + [rows.ff, rows.nf, rows.bf, rows.wf];
      sampleCount := sampleCount + 1;
    }

    /** The four summary rows of one sample, read off the allocators. */
    method SampleRows(t: int) returns (rows: Quad<SampleRow>)
      requires Valid()
      ensures rows == SampleAll(Lanes(), t)
    {
      var rowFF := SampleOn(allocatorFirstFit, t, "FF");
      var rowNF := SampleOn(allocatorNextFit, t, "NF");
      var rowBF := SampleOn(allocatorBestFit, t, "BF");
      var rowWF := SampleOn(allocatorWorstFit, t, "WF");
      rows := Quad(rowFF, rowNF, rowBF, rowWF);
    }

    // ----------------------------------------------------------------- run

    /** The start of run: the sample count, the accumulators and the heap
        counters reset, the workload built, the events built and sorted,
        and the logs and the summary started empty. */
    method StartRun()
      requires Valid()
      modifies this`jobs, this`heapElements, this`events, this`tables, this`acc, this`sampleCount, this`summary, rng`position
      ensures Valid() && Sized()
      ensures var g := Generate(old(rng.source), old(rng.position), old(config));
        jobs == g.0 && heapElements == g.1 && rng.position == g.2
      ensures events == ExchangeSort(Emitted(jobs, heapElements)) && AllRefs(events, jobs, heapElements)
      ensures Allocs() == old(Allocs())
      ensures sampleCount == 0 && acc == All(Zero()) && summary == []
      ensures tables == All(StartTables(|jobs|, |heapElements|))
    {
      ghost var t0 := tables;
      BuildJobsAndHeapElements();
      BuildEvents();
      ResetRun(t0);
    }

    /** The resets at the start of run (the accumulators, the sample count
        and the heap counters) and the truncation of the summary and log
        files when their writers open. */
    method ResetRun(ghost t0: Quad<Tables>)
      requires tables == ResetAll(t0, |jobs|, |heapElements|)
      modifies this`tables, this`acc, this`sampleCount, this`summary
      ensures Sized()
      ensures sampleCount == 0 && acc == All(Zero()) && summary == []
      ensures tables == All(StartTables(|jobs|, |heapElements|))
    {
      sampleCount := 0;
      acc := All(Zero());
      summary := [];
      tables := Quad(tables.ff.(heapAllocCount := 0, heapAllocBytes := 0, log := []),
                     tables.nf.(heapAllocCount := 0, heapAllocBytes := 0, log := []),
                     tables.bf.(heapAllocCount := 0, heapAllocBytes := 0, log := []),
                     tables.wf.(heapAllocCount := 0, heapAllocBytes := 0, log := []));
    }

    /** The tick loop of run over the times 0..endTime: each time's events
        processed, then a sample at the sample times. */
    method TickLoop(endTime: int)
      requires Valid() && Sized() && AllRefs(events, jobs, heapElements) && endTime >= PrefillTime
      modifies allocatorFirstFit, allocatorNextFit, allocatorBestFit, allocatorWorstFit
      modifies allocatorFirstFit.unitJobId, allocatorNextFit.unitJobId
      modifies allocatorBestFit.unitJobId, allocatorWorstFit.unitJobId
      modifies this`tables, this`acc, this`sampleCount, this`summary
      ensures Valid() && Sized() && Pools() == old(Pools())
      ensures WorldValid(old(WorldOf()), |jobs|, |heapElements|)
      ensures WorldOf() == ReplayUpTo(old(WorldOf()), events, jobs, heapElements, endTime + 1)
    {
      ghost var w0, evs, js, hs := WorldOf(), events, jobs, heapElements;
      ghost var w := w0;
      var prefillTime, sampleInterval := 2000, 200;
      for time := 0 to endTime + 1
        invariant Valid() && Sized() && Pools() == old(Pools())
        invariant WorldValid(w, |js|, |hs|) && w == ReplayUpTo(w0, evs, js, hs, time)
        invariant WorldOf() == w
      {
        TickOnce(time, prefillTime, sampleInterval);
        assert ReplayUpTo(w0, evs, js, hs, time + 1) == StepTime(w, evs, js, hs, time);
        w := StepTime(w, evs, js, hs, time);
      }
    }

    /** One pass of the tick loop: the time's events, then the sample if
        the time is a sample time. */
    method TickOnce(time: int, prefillTime: int, sampleInterval: int)
      requires Valid() && Sized() && AllRefs(events, jobs, heapElements)
      requires prefillTime == SampleStart && sampleInterval == SampleInterval
      modifies allocatorFirstFit, allocatorNextFit, allocatorBestFit, allocatorWorstFit
      modifies allocatorFirstFit.unitJobId, allocatorNextFit.unitJobId
      modifies allocatorBestFit.unitJobId, allocatorWorstFit.unitJobId
      modifies this`tables, this`acc, this`sampleCount, this`summary
      ensures Valid() && Sized() && Pools() == old(Pools())
      ensures WorldValid(old(WorldOf()), |jobs|, |heapElements|)
      ensures WorldOf() == StepTime(old(WorldOf()), events, jobs, heapElements, time)
    {
      ghost var w := WorldOf();
      ProcessEventsAtTime(time);
      ghost var ticked := w.(lanes := TickAll(w.lanes, events, jobs, heapElements, time));
      assert WorldOf() == ticked;
      if time >= prefillTime && (time - prefillTime) % sampleInterval == 0 {
        TakeSample(time);
      }
    }

    /** The final statistics of run, policy by policy. */
    method FinalStatistics(endTime: int) returns (stats: Quad<FinalStats>)
      requires Valid()
      ensures stats == FinalAll(WorldOf(), endTime)
    {
      var fFF := FinalOn(allocatorFirstFit, acc.ff, sampleCount, endTime,
                         tables.ff.heapAllocCount, tables.ff.heapAllocBytes);
      var fNF := FinalOn(allocatorNextFit, acc.nf, sampleCount, endTime,
                         tables.nf.heapAllocCount, tables.nf.heapAllocBytes);
      var fBF := FinalOn(allocatorBestFit, acc.bf, sampleCount, endTime,
                         tables.bf.heapAllocCount, tables.bf.heapAllocBytes);
      var fWF := FinalOn(allocatorWorstFit, acc.wf, sampleCount, endTime,
                         tables.wf.heapAllocCount, tables.wf.heapAllocBytes);
      stats := Quad(fFF, fNF, fBF, fWF);
    }

    /** The part of run after the build: the tick loop up to the last
        event's time but at least to the end of the prefill, then the
        final statistics of each policy. */
    method Simulate() returns (stats: Quad<FinalStats>)
      requires Valid() && Sized() && AllRefs(events, jobs, heapElements)
      modifies allocatorFirstFit, allocatorNextFit, allocatorBestFit, allocatorWorstFit
      modifies allocatorFirstFit.unitJobId, allocatorNextFit.unitJobId
      modifies allocatorBestFit.unitJobId, allocatorWorstFit.unitJobId
      modifies this`tables, this`acc, this`sampleCount, this`summary
      ensures Valid() && Sized()
      ensures jobs == old(jobs) && heapElements == old(heapElements) && events == old(events)
      ensures WorldValid(old(WorldOf()), |jobs|, |heapElements|)
      ensures WorldOf() == ReplayUpTo(old(WorldOf()), events, jobs, heapElements, EndTime(events) + 1)
      ensures stats == FinalAll(WorldOf(), EndTime(events))
    {
      var endTime := EndTimeOfEvents();
      TickLoop(endTime);
      stats := FinalStatistics(endTime);
    }

    /** The last event's time (the events are sorted), but at least the
        end of the prefill. */
    method EndTimeOfEvents() returns (endTime: int)
      ensures endTime == EndTime(events)
    {
      var lastEventTime := 0;
      if |events| > 0 {
        lastEventTime := events[|events| - 1].time;
      }
      var prefillTime := 2000;
      endTime := lastEventTime;
      if endTime < prefillTime {
        endTime := prefillTime;
      }
    }

    /** run: the workload and sorted events as generated, then the
        simulation from the allocators' initial state. */
    method Run() returns (stats: Quad<FinalStats>)
      requires Valid()
      modifies allocatorFirstFit, allocatorNextFit, allocatorBestFit, allocatorWorstFit
      modifies allocatorFirstFit.unitJobId, allocatorNextFit.unitJobId
      modifies allocatorBestFit.unitJobId, allocatorWorstFit.unitJobId
      modifies this`jobs, this`heapElements, this`events, this`tables, this`acc, this`sampleCount, this`summary, rng`position
      ensures Valid() && Sized()
      ensures var g := Generate(old(rng.source), old(rng.position), old(config));
        jobs == g.0 && heapElements == g.1
      ensures events == ExchangeSort(Emitted(jobs, heapElements)) && AllRefs(events, jobs, heapElements)
      ensures var w0 := StartWorld(old(Allocs()), |jobs|, |heapElements|);
        WorldValid(w0, |jobs|, |heapElements|) &&
        WorldOf() == ReplayUpTo(w0, events, jobs, heapElements, EndTime(events) + 1)
      ensures stats == FinalAll(WorldOf(), EndTime(events))
    {
      StartRun();
      stats := Simulate();
    }
  }
}
