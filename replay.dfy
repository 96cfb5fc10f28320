/** The replay of the sorted events against the four allocators, as values:
    one Lane per policy (its allocator, its location tables, its heap
    counters and its log), the event step, the per-time tick, and the tick
    loop with its samples. The class in memory_simulation.dfy is proved to
    follow these. */
module Replay {

  import opened AllocatorSpec
  import opened Workload
  import opened Events
  import opened Metrics

  /** One value per policy, in the order First, Next, Best, Worst Fit. */
  datatype Quad<T> = Quad(ff: T, nf: T, bf: T, wf: T)
  {
    function Get(p: Policy): T
    {
      match p
      case FF => ff
      case NF => nf
      case BF => bf
      case WF => wf
    }

    function Set(p: Policy, v: T): (r: Quad<T>)
      ensures r.Get(p) == v
      ensures forall q: Policy :: q != p ==> r.Get(q) == Get(q)
    {
      match p
      case FF => this.(ff := v)
      case NF => this.(nf := v)
      case BF => this.(bf := v)
      case WF => this.(wf := v)
    }
  }

  function All<T>(v: T): Quad<T> { Quad(v, v, v, v) }

  /** The label a policy's rows carry in the summary file. */
  function Label(p: Policy): string
  {
    match p
    case FF => "FF"
    case NF => "NF"
    case BF => "BF"
    case WF => "WF"
  }

  // ------------------------------------------------------------------ logs

  datatype LogEvent = AllocRow | FreeRow

  /** One row of a policy's log file: a free row has size 0. */
  datatype LogRow = LogRow(time: int, jobId: int, event: LogEvent, sizeBytes: int, location: int)

  function AllocLog(t: int, jobId: int, sizeBytes: int, location: int): LogRow
  {
    LogRow(t, jobId, AllocRow, sizeBytes, location)
  }

  function FreeLog(t: int, jobId: int, location: int): LogRow
  {
    LogRow(t, jobId, FreeRow, 0, location)
  }

  /** Allocation rows that name a location. */
  function Successes(log: seq<LogRow>): nat
  {
    if |log| == 0 then 0
    else
      var last := log[|log| - 1];
      Successes(log[..|log| - 1]) + (if last.event == AllocRow && last.location >= 0 then 1 else 0)
  }

  /** Free rows. */
  function FreeRows(log: seq<LogRow>): nat
  {
    if |log| == 0 then 0
    else FreeRows(log[..|log| - 1]) + (if log[|log| - 1].event == FreeRow then 1 else 0)
  }

  lemma {:induction false} CountsAppend(a: seq<LogRow>, b: seq<LogRow>)
    ensures Successes(a + b) == Successes(a) + Successes(b)
    ensures FreeRows(a + b) == FreeRows(a) + FreeRows(b)
    decreases |b|
  {
    if |b| == 0 {
      assert a + b == a;
    } else {
      CountsAppend(a, b[..|b| - 1]);
      assert (a + b)[..|a + b| - 1] == a + b[..|b| - 1];
      assert (a + b)[|a + b| - 1] == b[|b| - 1];
    }
  }

  // ----------------------------------------------------------------- lanes

  /** What one policy keeps: its allocator, where each job's code and stack
      and each heap element went (-1 for nowhere), its heap counters and
      its log. */
  datatype Lane = Lane(
    alloc: AllocState,
    codeLoc: seq<int>, stackLoc: seq<int>, heapLoc: seq<int>,
    heapAllocCount: int, heapAllocBytes: int,
    log: seq<LogRow>)

  predicate LaneValid(l: Lane, nJobs: int, nHeaps: int)
  {
    l.alloc.Valid() && |l.codeLoc| == nJobs && |l.stackLoc| == nJobs && |l.heapLoc| == nHeaps
  }

  /** A location vector of n slots, none holding anything. */
  function NegOnes(n: nat): seq<int> { seq(n, _ => -1) }

  /** A lane before the first event: tables of -1, counters at 0, empty log. */
  function StartLane(a: AllocState, nJobs: nat, nHeaps: nat): (l: Lane)
  {
    Lane(a, NegOnes(nJobs), NegOnes(nJobs), NegOnes(nHeaps), 0, 0, [])
  }

  /** Every event refers to existing jobs and elements. */
  predicate AllRefs(evs: seq<Event>, jobs: seq<Job>, heaps: seq<HeapElement>)
  {
    forall i :: 0 <= i < |evs| ==> EventRefs(evs[i], jobs, heaps)
  }

  /** A free only for a location that is held. */
  function FreeHeld(a: AllocState, loc: int): (r: AllocState)
    requires a.Valid()
    ensures r.Valid()
  {
    if loc >= 0 then Free(a, loc) else a
  }

  function FreeRowIfHeld(t: int, jobId: int, loc: int): seq<LogRow>
  {
    if loc >= 0 then [FreeLog(t, jobId, loc)] else []
  }

  /** Job arrival: the job's code then its stack are allocated under its
      id and both locations recorded, -1 for a failure, each with a row. */
  function OnArrive(l: Lane, p: Policy, job: Job, t: int): (r: Lane)
    requires l.alloc.Valid() && 0 <= job.jobId < |l.codeLoc| && 0 <= job.jobId < |l.stackLoc|
    requires job.codeSize > 0 && job.stackSize > 0
  {
    var (a1, code) := Malloc(SetCurrentJob(l.alloc, job.jobId), p, job.codeSize);
    var (a2, stack) := Malloc(a1, p, job.stackSize);
    l.(alloc := a2,
       codeLoc := l.codeLoc[job.jobId := code], stackLoc := l.stackLoc[job.jobId := stack],
       log := l.log + [AllocLog(t, job.jobId, job.codeSize, code)] + [AllocLog(t, job.jobId, job.stackSize, stack)])
  }

  /** Job departure: the recorded code then stack are freed where held,
      each with a row; the tables keep their entries. */
  function OnDepart(l: Lane, job: Job, t: int): (r: Lane)
    requires l.alloc.Valid() && 0 <= job.jobId < |l.codeLoc| && 0 <= job.jobId < |l.stackLoc|
  {
    var code, stack := l.codeLoc[job.jobId], l.stackLoc[job.jobId];
    l.(alloc := FreeHeld(FreeHeld(l.alloc, code), stack),
       log := l.log + FreeRowIfHeld(t, job.jobId, code) + FreeRowIfHeld(t, job.jobId, stack))
  }

  /** Heap allocation: the element is allocated under its job's id, its
      location recorded with a row, and counted on success. */
  function OnHeapAlloc(l: Lane, p: Policy, e: HeapElement, t: int): (r: Lane)
    requires l.alloc.Valid() && 0 <= e.elementId < |l.heapLoc| && e.sizeBytes > 0
  {
    var (a1, loc) := Malloc(SetCurrentJob(l.alloc, e.jobId), p, e.sizeBytes);
    l.(alloc := a1, heapLoc := l.heapLoc[e.elementId := loc],
       heapAllocCount := if loc >= 0 then l.heapAllocCount + 1 else l.heapAllocCount,
       heapAllocBytes := if loc >= 0 then l.heapAllocBytes + e.sizeBytes else l.heapAllocBytes,
       log := l.log + [AllocLog(t, e.jobId, e.sizeBytes, loc)])
  }

  /** Heap free: the element's location is freed where held, with a row
      under the event's job id, and its slot cleared to -1. */
  function OnHeapFree(l: Lane, elementId: int, jobId: int, t: int): (r: Lane)
    requires l.alloc.Valid() && 0 <= elementId < |l.heapLoc|
  {
    var loc := l.heapLoc[elementId];
    l.(alloc := FreeHeld(l.alloc, loc), heapLoc := l.heapLoc[elementId := -1],
       log := l.log + FreeRowIfHeld(t, jobId, loc))
  }

  /** One event on one policy's lane, at time t, by its type: 0 arrival,
      1 departure, 2 heap allocation, 3 heap free; others change nothing. */
  function LaneEvent(l: Lane, p: Policy, ev: Event, jobs: seq<Job>, heaps: seq<HeapElement>, t: int): (r: Lane)
    requires LaneValid(l, |jobs|, |heaps|) && EventRefs(ev, jobs, heaps)
    ensures LaneValid(r, |jobs|, |heaps|)
  {
    match ev.eventType
    case 0 => OnArrive(l, p, jobs[ev.jobId], t)
    case 1 => OnDepart(l, jobs[ev.jobId], t)
    case 2 => OnHeapAlloc(l, p, heaps[ev.elementId], t)
    case 3 => OnHeapFree(l, ev.elementId, ev.jobId, t)
    case _ => l
  }

  // ------------------------------------------------- allocator bookkeeping

  /** A location is -1 or the start of one of the allocator's records. */
  predicate Held(a: AllocState, loc: int)
  {
    loc == -1 || exists i :: 0 <= i < |a.records| && a.records[i].startIndex == loc
  }

  /** Records are only appended or deactivated. */
  predicate Extends(a: AllocState, b: AllocState)
  {
    |a.records| <= |b.records| &&
    forall i :: 0 <= i < |a.records| ==> b.records[i].startIndex == a.records[i].startIndex
  }

  lemma HeldExtends(a: AllocState, b: AllocState, loc: int)
    requires Held(a, loc) && Extends(a, b)
    ensures Held(b, loc)
  {
    if loc != -1 {
      var i :| 0 <= i < |a.records| && a.records[i].startIndex == loc;
      assert b.records[i].startIndex == loc;
    }
  }

  /** What a malloc does to the counters and records: a location or -1,
      counted when it is a location, and the start of the new record. */
  lemma MallocBook(st: AllocState, p: Policy, sizeBytes: int)
    requires st.Valid() && sizeBytes > 0
    ensures var (r, loc) := Malloc(st, p, sizeBytes);
      (loc == -1 || 0 <= loc < st.unitCount) &&
      r.allocationCount == st.allocationCount + (if loc >= 0 then 1 else 0) &&
      r.freeRequests == st.freeRequests && r.unitCount == st.unitCount && r.unitSize == st.unitSize &&
      Extends(st, r) && Held(r, loc)
  {
    var (r, loc) := Malloc(st, p, sizeBytes);
    if st.unitSize > 0 {
      MallocRecords(st, p, sizeBytes);
      if loc >= 0 {
        assert r.records[|st.records|].startIndex == loc;
      }
    } else {
      MallocInert(st, p, sizeBytes);
    }
  }

  /** What a held free does: one free request for a location, none for -1,
      and the records keep their starts. */
  lemma FreeBook(st: AllocState, loc: int)
    requires st.Valid()
    ensures var r := FreeHeld(st, loc);
      r.freeRequests == st.freeRequests + (if loc >= 0 then 1 else 0) &&
      r.allocationCount == st.allocationCount && r.unitCount == st.unitCount && r.unitSize == st.unitSize &&
      Extends(st, r) && |r.records| == |st.records|
  {
    FreeEffect(st, loc);
  }

  // ----------------------------------------------------- lane invariants

  /** Every table entry is -1 or the start of one of the lane's allocations. */
  predicate TablesHeld(l: Lane)
  {
    (forall k :: 0 <= k < |l.codeLoc| ==> Held(l.alloc, l.codeLoc[k])) &&
    (forall k :: 0 <= k < |l.stackLoc| ==> Held(l.alloc, l.stackLoc[k])) &&
    (forall k :: 0 <= k < |l.heapLoc| ==> Held(l.alloc, l.heapLoc[k]))
  }

  lemma TablesHeldExtends(l: Lane, a: AllocState)
    requires TablesHeld(l) && Extends(l.alloc, a)
    ensures TablesHeld(l.(alloc := a))
  {
    forall k | 0 <= k < |l.codeLoc| ensures Held(a, l.codeLoc[k]) { HeldExtends(l.alloc, a, l.codeLoc[k]); }
    forall k | 0 <= k < |l.stackLoc| ensures Held(a, l.stackLoc[k]) { HeldExtends(l.alloc, a, l.stackLoc[k]); }
    forall k | 0 <= k < |l.heapLoc| ensures Held(a, l.heapLoc[k]) { HeldExtends(l.alloc, a, l.heapLoc[k]); }
  }

  lemma ExtendsTrans(a: AllocState, b: AllocState, c: AllocState)
    requires Extends(a, b) && Extends(b, c)
    ensures Extends(a, c)
  {
  }

  /** The allocation count minus the successful allocation rows. */
  function AllocBalance(l: Lane): int { l.alloc.allocationCount - Successes(l.log) }

  /** The free request count minus the free rows. */
  function FreeBalance(l: Lane): int { l.alloc.freeRequests - FreeRows(l.log) }

  /** What one event step keeps: at most two rows, all stamped t, are
      appended to the log; every allocation that succeeds gets a row with
      its location and every free request a row, so both balances stay;
      the heap counter rises only with a successful allocation; the pool's
      shape is unchanged; the tables keep holding only record starts. */
  predicate StepOk(l: Lane, r: Lane, t: int)
  {
    |l.log| <= |r.log| <= |l.log| + 2 && r.log[..|l.log|] == l.log &&
    (forall k :: |l.log| <= k < |r.log| ==> r.log[k].time == t) &&
    AllocBalance(r) == AllocBalance(l) && FreeBalance(r) == FreeBalance(l) &&
    0 <= r.heapAllocCount - l.heapAllocCount <= r.alloc.allocationCount - l.alloc.allocationCount &&
    r.alloc.unitCount == l.alloc.unitCount && r.alloc.unitSize == l.alloc.unitSize &&
    (TablesHeld(l) ==> TablesHeld(r))
  }

  lemma OnArriveOk(l: Lane, p: Policy, job: Job, t: int)
    requires l.alloc.Valid() && 0 <= job.jobId < |l.codeLoc| && 0 <= job.jobId < |l.stackLoc|
    requires job.codeSize > 0 && job.stackSize > 0
    ensures StepOk(l, OnArrive(l, p, job, t), t)
  {
    var a0 := SetCurrentJob(l.alloc, job.jobId);
    var (a1, code) := Malloc(a0, p, job.codeSize);
    var (a2, stack) := Malloc(a1, p, job.stackSize);
    MallocBook(a0, p, job.codeSize);
    MallocBook(a1, p, job.stackSize);
    AllocRowsAppend(l.log, t, job.jobId, job.codeSize, code, job.stackSize, stack);
    if TablesHeld(l) {
      ExtendsTrans(l.alloc, a1, a2);
      TablesHeldExtends(l, a2);
      HeldExtends(a1, a2, code);
    }
  }

  /** The two allocation rows of an arrival, appended to a log: stamped t,
      one success per location obtained, no free row. */
  lemma AllocRowsAppend(log: seq<LogRow>, t: int, jobId: int, size1: int, loc1: int, size2: int, loc2: int)
    ensures var r := log + [AllocLog(t, jobId, size1, loc1)] + [AllocLog(t, jobId, size2, loc2)];
      |r| == |log| + 2 && r[..|log|] == log &&
      (forall k :: |log| <= k < |r| ==> r[k].time == t) &&
      Successes(r) == Successes(log) + (if loc1 >= 0 then 1 else 0) + (if loc2 >= 0 then 1 else 0) &&
      FreeRows(r) == FreeRows(log)
  {
    var row1, row2 := AllocLog(t, jobId, size1, loc1), AllocLog(t, jobId, size2, loc2);
    CountsAppend(log, [row1]);
    CountsAppend(log + [row1], [row2]);
    assert (log + [row1] + [row2])[..|log|] == log;
  }

  /** The free rows of one held free, appended to a log: stamped t, no
      allocation row, one free row per held location. */
  lemma FreeRowsAppend(log: seq<LogRow>, t: int, jobId: int, loc: int)
    ensures var r := log + FreeRowIfHeld(t, jobId, loc);
      |log| <= |r| <= |log| + 1 && r[..|log|] == log &&
      (forall k :: |log| <= k < |r| ==> r[k].time == t) &&
      Successes(r) == Successes(log) && FreeRows(r) == FreeRows(log) + (if loc >= 0 then 1 else 0)
  {
    CountsAppend(log, FreeRowIfHeld(t, jobId, loc));
    assert (log + FreeRowIfHeld(t, jobId, loc))[..|log|] == log;
  }

  lemma OnDepartOk(l: Lane, job: Job, t: int)
    requires l.alloc.Valid() && 0 <= job.jobId < |l.codeLoc| && 0 <= job.jobId < |l.stackLoc|
    ensures StepOk(l, OnDepart(l, job, t), t)
  {
    var r := OnDepart(l, job, t);
    var code, stack := l.codeLoc[job.jobId], l.stackLoc[job.jobId];
    var a1 := FreeHeld(l.alloc, code);
    FreeBook(l.alloc, code);
    FreeBook(a1, stack);
    var log1 := l.log + FreeRowIfHeld(t, job.jobId, code);
    FreeRowsAppend(l.log, t, job.jobId, code);
    FreeRowsAppend(log1, t, job.jobId, stack);
    assert r.log == log1 + FreeRowIfHeld(t, job.jobId, stack);
    assert r.log[..|l.log|] == log1[..|l.log|];
    if TablesHeld(l) {
      ExtendsTrans(l.alloc, a1, r.alloc);
      TablesHeldExtends(l, r.alloc);
    }
  }

  lemma OnHeapAllocOk(l: Lane, p: Policy, e: HeapElement, t: int)
    requires l.alloc.Valid() && 0 <= e.elementId < |l.heapLoc| && e.sizeBytes > 0
    ensures StepOk(l, OnHeapAlloc(l, p, e, t), t)
  {
    var a0 := SetCurrentJob(l.alloc, e.jobId);
    MallocBook(a0, p, e.sizeBytes);
    var (a1, loc) := Malloc(a0, p, e.sizeBytes);
    CountsAppend(l.log, [AllocLog(t, e.jobId, e.sizeBytes, loc)]);
    if TablesHeld(l) {
      TablesHeldExtends(l, a1);
    }
  }

  lemma OnHeapFreeOk(l: Lane, elementId: int, jobId: int, t: int)
    requires l.alloc.Valid() && 0 <= elementId < |l.heapLoc|
    ensures StepOk(l, OnHeapFree(l, elementId, jobId, t), t)
  {
    var r := OnHeapFree(l, elementId, jobId, t);
    var loc := l.heapLoc[elementId];
    FreeBook(l.alloc, loc);
    CountsAppend(l.log, FreeRowIfHeld(t, jobId, loc));
    if TablesHeld(l) {
      TablesHeldExtends(l, r.alloc);
    }
  }

  lemma LaneEventFacts(l: Lane, p: Policy, ev: Event, jobs: seq<Job>, heaps: seq<HeapElement>, t: int)
    requires LaneValid(l, |jobs|, |heaps|) && EventRefs(ev, jobs, heaps)
    ensures StepOk(l, LaneEvent(l, p, ev, jobs, heaps, t), t)
  {
    match ev.eventType
    case 0 => OnArriveOk(l, p, jobs[ev.jobId], t);
    case 1 => OnDepartOk(l, jobs[ev.jobId], t);
    case 2 => OnHeapAllocOk(l, p, heaps[ev.elementId], t);
    case 3 => OnHeapFreeOk(l, ev.elementId, ev.jobId, t);
    case _ =>
  }

  // ------------------------------------------------------------------ ticks

  /** processEventsAtTime on one lane: the events evs[..n] in order, those
      not at time t skipped. */
  function TickFrom(l: Lane, p: Policy, evs: seq<Event>, jobs: seq<Job>, heaps: seq<HeapElement>,
                    t: int, n: int): (r: Lane)
    requires LaneValid(l, |jobs|, |heaps|) && AllRefs(evs, jobs, heaps) && 0 <= n <= |evs|
    ensures LaneValid(r, |jobs|, |heaps|)
  {
    if n == 0 then l
    else
      var prev := TickFrom(l, p, evs, jobs, heaps, t, n - 1);
      if evs[n - 1].time != t then prev else LaneEvent(prev, p, evs[n - 1], jobs, heaps, t)
  }

  function Tick(l: Lane, p: Policy, evs: seq<Event>, jobs: seq<Job>, heaps: seq<HeapElement>, t: int): (r: Lane)
    requires LaneValid(l, |jobs|, |heaps|) && AllRefs(evs, jobs, heaps)
    ensures LaneValid(r, |jobs|, |heaps|)
  {
    TickFrom(l, p, evs, jobs, heaps, t, |evs|)
  }

  /** The events at time t, in their order. */
  function AtTime(evs: seq<Event>, t: int): (r: seq<Event>)
    ensures forall e :: e in r <==> e in evs && e.time == t
  {
    if |evs| == 0 then []
    else
      var init := AtTime(evs[..|evs| - 1], t);
      assert evs == evs[..|evs| - 1] + [evs[|evs| - 1]];
      if evs[|evs| - 1].time == t then init + [evs[|evs| - 1]] else init
  }

  /** The events of a sequence in order, one after another. */
  function ApplyAll(l: Lane, p: Policy, es: seq<Event>, jobs: seq<Job>, heaps: seq<HeapElement>, t: int): (r: Lane)
    requires LaneValid(l, |jobs|, |heaps|) && AllRefs(es, jobs, heaps)
    ensures LaneValid(r, |jobs|, |heaps|)
  {
    if |es| == 0 then l
    else LaneEvent(ApplyAll(l, p, es[..|es| - 1], jobs, heaps, t), p, es[|es| - 1], jobs, heaps, t)
  }

  /** Skipping the events at other times is the same as applying exactly
      the events at time t, in their order. */
  lemma {:induction false} TickIsFiltered(l: Lane, p: Policy, evs: seq<Event>, jobs: seq<Job>,
                                          heaps: seq<HeapElement>, t: int, n: int)
    requires LaneValid(l, |jobs|, |heaps|) && AllRefs(evs, jobs, heaps) && 0 <= n <= |evs|
    ensures AllRefs(AtTime(evs[..n], t), jobs, heaps)
    ensures TickFrom(l, p, evs, jobs, heaps, t, n) == ApplyAll(l, p, AtTime(evs[..n], t), jobs, heaps, t)
    decreases n
  {
    var f := AtTime(evs[..n], t);
    forall i | 0 <= i < |f| ensures EventRefs(f[i], jobs, heaps)
    {
      assert f[i] in evs[..n];
      var j :| 0 <= j < n && evs[..n][j] == f[i];
      assert evs[j] == f[i];
    }
    if n > 0 {
      TickIsFiltered(l, p, evs, jobs, heaps, t, n - 1);
      assert evs[..n][..n - 1] == evs[..n - 1];
      if evs[n - 1].time == t {
        assert f[..|f| - 1] == AtTime(evs[..n - 1], t);
      }
    }
  }

  /** Over a whole tick the balances, the heap counter bound, the pool's
      shape and the held tables persist, and the log only grows. */
  lemma {:induction false} TickFacts(l: Lane, p: Policy, evs: seq<Event>, jobs: seq<Job>,
                                     heaps: seq<HeapElement>, t: int, n: int)
    requires LaneValid(l, |jobs|, |heaps|) && AllRefs(evs, jobs, heaps) && 0 <= n <= |evs|
    ensures var r := TickFrom(l, p, evs, jobs, heaps, t, n);
      |l.log| <= |r.log| && r.log[..|l.log|] == l.log &&
      AllocBalance(r) == AllocBalance(l) && FreeBalance(r) == FreeBalance(l) &&
      0 <= r.heapAllocCount - l.heapAllocCount <= r.alloc.allocationCount - l.alloc.allocationCount &&
      r.alloc.unitCount == l.alloc.unitCount && r.alloc.unitSize == l.alloc.unitSize &&
      (TablesHeld(l) ==> TablesHeld(r))
    decreases n
  {
    if n > 0 {
      TickFacts(l, p, evs, jobs, heaps, t, n - 1);
      var prev := TickFrom(l, p, evs, jobs, heaps, t, n - 1);
      if evs[n - 1].time == t {
        LaneEventFacts(prev, p, evs[n - 1], jobs, heaps, t);
        var r := LaneEvent(prev, p, evs[n - 1], jobs, heaps, t);
        assert r.log[..|l.log|] == r.log[..|prev.log|][..|l.log|];
      }
    }
  }

  // ------------------------------------------------------------ the run

  /** Everything the tick loop updates: the lanes, the running sums and
      peaks, the sample count and the summary rows. */
  datatype World = World(lanes: Quad<Lane>, acc: Quad<Acc>, sampleCount: int, summary: seq<SampleRow>)

  /** The world the tick loop starts from: the allocators as they are,
      fresh tables, zero accumulators, no samples, no summary rows. */
  function StartWorld(a: Quad<AllocState>, nJobs: nat, nHeaps: nat): World
  {
    World(Quad(StartLane(a.ff, nJobs, nHeaps), StartLane(a.nf, nJobs, nHeaps),
               StartLane(a.bf, nJobs, nHeaps), StartLane(a.wf, nJobs, nHeaps)),
          All(Zero()), 0, [])
  }

  predicate LanesValid(ls: Quad<Lane>, nJobs: int, nHeaps: int)
  {
    LaneValid(ls.ff, nJobs, nHeaps) && LaneValid(ls.nf, nJobs, nHeaps) &&
    LaneValid(ls.bf, nJobs, nHeaps) && LaneValid(ls.wf, nJobs, nHeaps)
  }

  predicate WorldValid(w: World, nJobs: int, nHeaps: int)
  {
    LanesValid(w.lanes, nJobs, nHeaps)
  }

  /** One event on all four lanes, each with its own policy. */
  function EventAll(ls: Quad<Lane>, ev: Event, jobs: seq<Job>, heaps: seq<HeapElement>, t: int): (r: Quad<Lane>)
    requires LanesValid(ls, |jobs|, |heaps|) && EventRefs(ev, jobs, heaps)
    ensures LanesValid(r, |jobs|, |heaps|)
  {
    Quad(LaneEvent(ls.ff, FF, ev, jobs, heaps, t), LaneEvent(ls.nf, NF, ev, jobs, heaps, t),
         LaneEvent(ls.bf, BF, ev, jobs, heaps, t), LaneEvent(ls.wf, WF, ev, jobs, heaps, t))
  }

  /** The four lanes after the first n events of processing time t. */
  function TickAllFrom(ls: Quad<Lane>, evs: seq<Event>, jobs: seq<Job>, heaps: seq<HeapElement>, t: int, n: int): (r: Quad<Lane>)
    requires LanesValid(ls, |jobs|, |heaps|) && AllRefs(evs, jobs, heaps) && 0 <= n <= |evs|
    ensures LanesValid(r, |jobs|, |heaps|)
  {
    Quad(TickFrom(ls.ff, FF, evs, jobs, heaps, t, n), TickFrom(ls.nf, NF, evs, jobs, heaps, t, n),
         TickFrom(ls.bf, BF, evs, jobs, heaps, t, n), TickFrom(ls.wf, WF, evs, jobs, heaps, t, n))
  }

  /** No events processed yet leaves the lanes as they are. */
  lemma TickAllFromZero(ls: Quad<Lane>, evs: seq<Event>, jobs: seq<Job>, heaps: seq<HeapElement>, t: int, n: int)
    requires LanesValid(ls, |jobs|, |heaps|) && AllRefs(evs, jobs, heaps) && n == 0
    ensures TickAllFrom(ls, evs, jobs, heaps, t, n) == ls
  {
  }

  /** The n-th event applies to all four lanes when it is at time t and
      to none otherwise. */
  lemma TickAllFromStep(ls: Quad<Lane>, evs: seq<Event>, jobs: seq<Job>, heaps: seq<HeapElement>, t: int, n: int)
    requires LanesValid(ls, |jobs|, |heaps|) && AllRefs(evs, jobs, heaps) && 0 <= n < |evs|
    ensures EventRefs(evs[n], jobs, heaps)
    ensures TickAllFrom(ls, evs, jobs, heaps, t, n + 1) ==
      if evs[n].time != t then TickAllFrom(ls, evs, jobs, heaps, t, n)
      else EventAll(TickAllFrom(ls, evs, jobs, heaps, t, n), evs[n], jobs, heaps, t)
  {
  }

  /** All the events processed is the whole tick. */
  lemma TickAllFromAll(ls: Quad<Lane>, evs: seq<Event>, jobs: seq<Job>, heaps: seq<HeapElement>, t: int, n: int)
    requires LanesValid(ls, |jobs|, |heaps|) && AllRefs(evs, jobs, heaps) && n == |evs|
    ensures TickAllFrom(ls, evs, jobs, heaps, t, n) == TickAll(ls, evs, jobs, heaps, t)
  {
  }

  /** The four lanes after processing time t. */
  function TickAll(ls: Quad<Lane>, evs: seq<Event>, jobs: seq<Job>, heaps: seq<HeapElement>, t: int): Quad<Lane>
    requires LanesValid(ls, |jobs|, |heaps|) && AllRefs(evs, jobs, heaps)
  {
    Quad(Tick(ls.ff, FF, evs, jobs, heaps, t), Tick(ls.nf, NF, evs, jobs, heaps, t),
         Tick(ls.bf, BF, evs, jobs, heaps, t), Tick(ls.wf, WF, evs, jobs, heaps, t))
  }

  /** The four samples at time t, one per lane. */
  function SampleAll(ls: Quad<Lane>, t: int): Quad<SampleRow>
  {
    Quad(Sample(ls.ff.alloc, t, "FF"), Sample(ls.nf.alloc, t, "NF"),
         Sample(ls.bf.alloc, t, "BF"), Sample(ls.wf.alloc, t, "WF"))
  }

  function AccumulateAll4(acc: Quad<Acc>, rows: Quad<SampleRow>): Quad<Acc>
  {
    Quad(Accumulate(acc.ff, rows.ff), Accumulate(acc.nf, rows.nf),
         Accumulate(acc.bf, rows.bf), Accumulate(acc.wf, rows.wf))
  }

  /** The sample taken after a sample time's events: a summary row per
      policy in the order FF, NF, BF, WF, each folded into its
      accumulator, and one more sample counted. */
  function SampleWorld(w: World, t: int): World
  {
    var rows := SampleAll(w.lanes, t);
    World(w.lanes, AccumulateAll4(w.acc, rows), w.sampleCount + 1,
          w.summary + [rows.ff, rows.nf, rows.bf, rows.wf])
  }

  /** One time step: process time t, then sample if t is a sample time. */
  function StepTime(w: World, evs: seq<Event>, jobs: seq<Job>, heaps: seq<HeapElement>, t: int): (r: World)
    requires WorldValid(w, |jobs|, |heaps|) && AllRefs(evs, jobs, heaps)
    ensures WorldValid(r, |jobs|, |heaps|)
  {
    var ticked := w.(lanes := TickAll(w.lanes, evs, jobs, heaps, t));
    if IsSampleTime(t) then SampleWorld(ticked, t) else ticked
  }

  /** The tick loop over the times 0..n-1. */
  function ReplayUpTo(w: World, evs: seq<Event>, jobs: seq<Job>, heaps: seq<HeapElement>, n: int): (r: World)
    requires WorldValid(w, |jobs|, |heaps|) && AllRefs(evs, jobs, heaps)
    ensures WorldValid(r, |jobs|, |heaps|)
    decreases n
  {
    if n <= 0 then w else StepTime(ReplayUpTo(w, evs, jobs, heaps, n - 1), evs, jobs, heaps, n - 1)
  }

  /** The accumulators fit the sample count. */
  predicate AccsOk(w: World)
  {
    AccOk(w.acc.ff, w.sampleCount) && AccOk(w.acc.nf, w.sampleCount) &&
    AccOk(w.acc.bf, w.sampleCount) && AccOk(w.acc.wf, w.sampleCount)
  }

  /** A step takes one sample exactly at sample times: four rows stamped
      t, labelled FF, NF, BF, WF, appended to the summary. */
  lemma StepTimeRows(w: World, evs: seq<Event>, jobs: seq<Job>, heaps: seq<HeapElement>, t: int)
    requires WorldValid(w, |jobs|, |heaps|) && AllRefs(evs, jobs, heaps)
    ensures var r := StepTime(w, evs, jobs, heaps, t);
      r.sampleCount == w.sampleCount + (if IsSampleTime(t) then 1 else 0) &&
      |r.summary| == |w.summary| + 4 * (r.sampleCount - w.sampleCount) &&
      w.summary <= r.summary &&
      (forall k :: |w.summary| <= k < |r.summary| ==> r.summary[k].time == t) &&
      (IsSampleTime(t) ==>
        r.summary[|w.summary|].algorithm == "FF" && r.summary[|w.summary| + 1].algorithm == "NF" &&
        r.summary[|w.summary| + 2].algorithm == "BF" && r.summary[|w.summary| + 3].algorithm == "WF")
  {
  }

  /** The samples of valid allocators keep the accumulators fitting the
      sample count. */
  lemma StepTimeAccs(w: World, evs: seq<Event>, jobs: seq<Job>, heaps: seq<HeapElement>, t: int)
    requires WorldValid(w, |jobs|, |heaps|) && AllRefs(evs, jobs, heaps) && AccsOk(w)
    ensures AccsOk(StepTime(w, evs, jobs, heaps, t))
  {
    var ls := TickAll(w.lanes, evs, jobs, heaps, t);
    if IsSampleTime(t) {
      var rows := SampleAll(ls, t);
      SampleBounds(ls.ff.alloc, t, "FF");
      SampleBounds(ls.nf.alloc, t, "NF");
      SampleBounds(ls.bf.alloc, t, "BF");
      SampleBounds(ls.wf.alloc, t, "WF");
      AccumulateOk(w.acc.ff, w.sampleCount, rows.ff);
      AccumulateOk(w.acc.nf, w.sampleCount, rows.nf);
      AccumulateOk(w.acc.bf, w.sampleCount, rows.bf);
      AccumulateOk(w.acc.wf, w.sampleCount, rows.wf);
    }
  }

  /** Over times 0..n-1 the loop takes one sample per sample time, writes
      four summary rows per sample and only appends to the summary. */
  lemma {:induction false} ReplayCounts(w: World, evs: seq<Event>, jobs: seq<Job>, heaps: seq<HeapElement>, n: int)
    requires WorldValid(w, |jobs|, |heaps|) && AllRefs(evs, jobs, heaps)
    ensures var r := ReplayUpTo(w, evs, jobs, heaps, n);
      r.sampleCount == w.sampleCount + SamplesBelow(n) &&
      |r.summary| == |w.summary| + 4 * SamplesBelow(n) &&
      w.summary <= r.summary
    decreases n
  {
    if n > 0 {
      ReplayCounts(w, evs, jobs, heaps, n - 1);
      var prev := ReplayUpTo(w, evs, jobs, heaps, n - 1);
      StepTimeRows(prev, evs, jobs, heaps, n - 1);
    }
  }

  /** Over times 0..n-1 the accumulators keep fitting the sample count. */
  lemma {:induction false} ReplayAccs(w: World, evs: seq<Event>, jobs: seq<Job>, heaps: seq<HeapElement>, n: int)
    requires WorldValid(w, |jobs|, |heaps|) && AllRefs(evs, jobs, heaps) && AccsOk(w)
    ensures AccsOk(ReplayUpTo(w, evs, jobs, heaps, n))
    decreases n
  {
    if n > 0 {
      ReplayAccs(w, evs, jobs, heaps, n - 1);
      StepTimeAccs(ReplayUpTo(w, evs, jobs, heaps, n - 1), evs, jobs, heaps, n - 1);
    }
  }

  /** The loop runs to the last event's time, but at least to the end of
      the prefill phase. */
  function EndTime(evs: seq<Event>): (e: int)
    ensures e >= PrefillTime
  {
    if |evs| > 0 && evs[|evs| - 1].time > PrefillTime then evs[|evs| - 1].time else PrefillTime
  }

  /** Over sorted events the loop's last time is at or after every event. */
  lemma EndTimeCovers(evs: seq<Event>)
    requires Sorted(evs)
    ensures forall k :: 0 <= k < |evs| ==> evs[k].time <= EndTime(evs)
  {
    if |evs| > 0 {
      LastIsLatest(evs);
    }
  }

  /** The statistics computed and printed per policy at the end of the
      run, the lane's heap counters among them. */
  function FinalAll(w: World, endTime: int): Quad<FinalStats>
  {
    Quad(FinalOfLane(w.lanes.ff, w.acc.ff, w.sampleCount, endTime),
         FinalOfLane(w.lanes.nf, w.acc.nf, w.sampleCount, endTime),
         FinalOfLane(w.lanes.bf, w.acc.bf, w.sampleCount, endTime),
         FinalOfLane(w.lanes.wf, w.acc.wf, w.sampleCount, endTime))
  }

  function FinalOfLane(l: Lane, a: Acc, sampleCount: int, endTime: int): FinalStats
  {
    Final(l.alloc, a, sampleCount, endTime, l.heapAllocCount, l.heapAllocBytes)
  }

  /** From lane l to lane r the heap allocation counter did not fall and
      grew by no more than the allocator's allocation count. */
  predicate HeapBelow(l: Lane, r: Lane)
  {
    0 <= r.heapAllocCount - l.heapAllocCount <= r.alloc.allocationCount - l.alloc.allocationCount
  }

  lemma TickAllHeap(ls: Quad<Lane>, evs: seq<Event>, jobs: seq<Job>, heaps: seq<HeapElement>, t: int)
    requires LanesValid(ls, |jobs|, |heaps|) && AllRefs(evs, jobs, heaps)
    ensures var r := TickAll(ls, evs, jobs, heaps, t);
      HeapBelow(ls.ff, r.ff) && HeapBelow(ls.nf, r.nf) && HeapBelow(ls.bf, r.bf) && HeapBelow(ls.wf, r.wf)
  {
    TickFacts(ls.ff, FF, evs, jobs, heaps, t, |evs|);
    TickFacts(ls.nf, NF, evs, jobs, heaps, t, |evs|);
    TickFacts(ls.bf, BF, evs, jobs, heaps, t, |evs|);
    TickFacts(ls.wf, WF, evs, jobs, heaps, t, |evs|);
  }

  /** The counter bound composes over consecutive stretches. */
  lemma HeapBelowTrans(a: Lane, b: Lane, c: Lane)
    requires HeapBelow(a, b) && HeapBelow(b, c)
    ensures HeapBelow(a, c)
  {
  }

  /** One time step: the tick moves the counters, the sample does not. */
  lemma StepTimeHeap(w: World, evs: seq<Event>, jobs: seq<Job>, heaps: seq<HeapElement>, t: int)
    requires WorldValid(w, |jobs|, |heaps|) && AllRefs(evs, jobs, heaps)
    ensures var r := StepTime(w, evs, jobs, heaps, t);
      HeapBelow(w.lanes.ff, r.lanes.ff) && HeapBelow(w.lanes.nf, r.lanes.nf) &&
      HeapBelow(w.lanes.bf, r.lanes.bf) && HeapBelow(w.lanes.wf, r.lanes.wf)
  {
    TickAllHeap(w.lanes, evs, jobs, heaps, t);
    assert StepTime(w, evs, jobs, heaps, t).lanes == TickAll(w.lanes, evs, jobs, heaps, t);
  }

  /** Over times 0..n-1 each lane's heap counter grows by at most what its
      allocation counter grows, never falling. */
  lemma {:induction false} ReplayHeap(w: World, evs: seq<Event>, jobs: seq<Job>, heaps: seq<HeapElement>, n: int)
    requires WorldValid(w, |jobs|, |heaps|) && AllRefs(evs, jobs, heaps)
    ensures var r := ReplayUpTo(w, evs, jobs, heaps, n);
      HeapBelow(w.lanes.ff, r.lanes.ff) && HeapBelow(w.lanes.nf, r.lanes.nf) &&
      HeapBelow(w.lanes.bf, r.lanes.bf) && HeapBelow(w.lanes.wf, r.lanes.wf)
    decreases n
  {
    if n > 0 {
      ReplayHeap(w, evs, jobs, heaps, n - 1);
      var prev := ReplayUpTo(w, evs, jobs, heaps, n - 1);
      var r := StepTime(prev, evs, jobs, heaps, n - 1);
      assert ReplayUpTo(w, evs, jobs, heaps, n) == r;
      StepTimeHeap(prev, evs, jobs, heaps, n - 1);
      HeapBelowTrans(w.lanes.ff, prev.lanes.ff, r.lanes.ff);
      HeapBelowTrans(w.lanes.nf, prev.lanes.nf, r.lanes.nf);
      HeapBelowTrans(w.lanes.bf, prev.lanes.bf, r.lanes.bf);
      HeapBelowTrans(w.lanes.wf, prev.lanes.wf, r.lanes.wf);
    }
  }

  /** In the final statistics of a replay from start lanes over fresh
      allocators, each policy's number of heap allocations lies between 0
      and its number of allocations: the heap counter rises only with a
      successful allocation. */
  lemma FinalHeapCounts(a: Quad<AllocState>, evs: seq<Event>, jobs: seq<Job>, heaps: seq<HeapElement>,
                        n: int, endTime: int)
    requires a.ff.Valid() && a.nf.Valid() && a.bf.Valid() && a.wf.Valid()
    requires a.ff.allocationCount == 0 && a.nf.allocationCount == 0
    requires a.bf.allocationCount == 0 && a.wf.allocationCount == 0
    requires AllRefs(evs, jobs, heaps)
    ensures var f := FinalAll(ReplayUpTo(StartWorld(a, |jobs|, |heaps|), evs, jobs, heaps, n), endTime);
      0 <= f.ff.heapAllocCount <= f.ff.numAllocations && 0 <= f.nf.heapAllocCount <= f.nf.numAllocations &&
      0 <= f.bf.heapAllocCount <= f.bf.numAllocations && 0 <= f.wf.heapAllocCount <= f.wf.numAllocations
  {
    var w := StartWorld(a, |jobs|, |heaps|);
    ReplayHeap(w, evs, jobs, heaps, n);
  }
}
