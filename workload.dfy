/** Workload generation: job types, jobs and their heap elements, fixed by
    the stream of raw draws. Each function takes the stream `s` and the
    position `p` of the next unread draw, so the order of draws is explicit. */
module Workload {

  import opened RandomGen
  import Arith

  /** The mix of job types, the pool shape and the seed of one run. The
      test name and the output paths are not modelled here. */
  datatype SimConfig = SimConfig(
    percentSmall: int, percentMedium: int, percentLarge: int,
    memoryUnitSize: int, memoryUnitCount: int, seed: nat)

  /** The configuration a run starts with when nothing is given. */
  function DefaultConfig(): SimConfig
  {
    SimConfig(33, 33, 34, 8, 5000, 125)
  }

  datatype Job = Job(
    jobId: int, jobType: char, arrivalTime: int, runTime: int,
    codeSize: int, stackSize: int, heapElementCount: int)

  datatype HeapElement = HeapElement(
    elementId: int, jobId: int, arrivalTime: int, lifetime: int, sizeBytes: int)

  function DepartureTime(e: HeapElement): int
  {
    e.arrivalTime + e.lifetime
  }

  /** Arrival generation runs while the next arrival is before this time. */
  const PrefillTime: int := 2000
  /** No more heap elements are created for a job once more than this many exist. */
  const HeapCap: int := 20000

  // ------------------------------------------------------------ job type

  /** chooseJobType on a draw r in 1..100: small up to percentSmall, medium
      up to percentSmall + percentMedium, large above. */
  function TypeCode(r: int, percentSmall: int, percentMedium: int): int
  {
    if r <= percentSmall then 0
    else if r <= percentSmall + percentMedium then 1
    else 2
  }

  /** The integers lo..hi-1 as a set. */
  function Range(lo: int, hi: int): set<int>
    decreases hi - lo
  {
    if lo >= hi then {} else Range(lo, hi - 1) + {hi - 1}
  }

  lemma {:induction false} RangeFacts(lo: int, hi: int)
    requires lo <= hi
    ensures |Range(lo, hi)| == hi - lo
    ensures forall r :: r in Range(lo, hi) <==> lo <= r < hi
    decreases hi - lo
  {
    if lo < hi {
      RangeFacts(lo, hi - 1);
    }
  }

  function DrawsOfType(percentSmall: int, percentMedium: int, code: int): set<int>
  {
    set r | 1 <= r <= 100 && TypeCode(r, percentSmall, percentMedium) == code
  }

  /** With shares that fit in 100, exactly percentSmall of the 100 possible
      draws give a small job, percentMedium a medium one and the rest a
      large one; percentLarge plays no part. */
  lemma TypeShares(percentSmall: int, percentMedium: int)
    requires 0 <= percentSmall && 0 <= percentMedium && percentSmall + percentMedium <= 100
    ensures |DrawsOfType(percentSmall, percentMedium, 0)| == percentSmall
    ensures |DrawsOfType(percentSmall, percentMedium, 1)| == percentMedium
    ensures |DrawsOfType(percentSmall, percentMedium, 2)| == 100 - percentSmall - percentMedium
  {
    var m := percentSmall + percentMedium;
    RangeFacts(1, percentSmall + 1);
    RangeFacts(percentSmall + 1, m + 1);
    RangeFacts(m + 1, 101);
    assert DrawsOfType(percentSmall, percentMedium, 0) == Range(1, percentSmall + 1);
    assert DrawsOfType(percentSmall, percentMedium, 1) == Range(percentSmall + 1, m + 1);
    assert DrawsOfType(percentSmall, percentMedium, 2) == Range(m + 1, 101);
  }

  // ----------------------------------------------------------------- jobs

  /** createRandomJob: the type draw, then runTime, codeSize and stackSize
      in the type's ranges; the heap element count is a multiple of runTime. */
  function RandomJob(s: Stream, p: nat, cfg: SimConfig, id: int, arrival: int): Job
  {
    var typeCode := TypeCode(MapDraw(1, 100, RawAt(s, p)), cfg.percentSmall, cfg.percentMedium);
    if typeCode == 0 then
      var runTime := MapDraw(4, 6, RawAt(s, p + 1));
      Job(id, 'S', arrival, runTime, MapDraw(40, 80, RawAt(s, p + 2)), MapDraw(20, 40, RawAt(s, p + 3)), runTime * 5)
    else if typeCode == 1 then
      var runTime := MapDraw(9, 11, RawAt(s, p + 1));
      Job(id, 'M', arrival, runTime, MapDraw(60, 120, RawAt(s, p + 2)), MapDraw(40, 80, RawAt(s, p + 3)), runTime * 10)
    else
      var runTime := MapDraw(24, 26, RawAt(s, p + 1));
      Job(id, 'L', arrival, runTime, MapDraw(120, 220, RawAt(s, p + 2)), MapDraw(70, 110, RawAt(s, p + 3)), runTime * 25)
  }

  /** The ranges of each job type. */
  predicate JobShape(j: Job)
  {
    (j.jobType == 'S' && 4 <= j.runTime <= 6 && 40 <= j.codeSize <= 80 &&
     20 <= j.stackSize <= 40 && j.heapElementCount == j.runTime * 5) ||
    (j.jobType == 'M' && 9 <= j.runTime <= 11 && 60 <= j.codeSize <= 120 &&
     40 <= j.stackSize <= 80 && j.heapElementCount == j.runTime * 10) ||
    (j.jobType == 'L' && 24 <= j.runTime <= 26 && 120 <= j.codeSize <= 220 &&
     70 <= j.stackSize <= 110 && j.heapElementCount == j.runTime * 25)
  }

  /** A generated job keeps its id and arrival, has the shape of its type,
      and its type is the one the first draw selects. */
  lemma RandomJobShape(s: Stream, p: nat, cfg: SimConfig, id: int, arrival: int)
    ensures var j := RandomJob(s, p, cfg, id, arrival);
      var code := TypeCode(MapDraw(1, 100, RawAt(s, p)), cfg.percentSmall, cfg.percentMedium);
      j.jobId == id && j.arrivalTime == arrival && JobShape(j) &&
      j.jobType == (if code == 0 then 'S' else if code == 1 then 'M' else 'L')
  {
  }

  // -------------------------------------------------------- heap elements

  /** Elements per time unit: heapElementCount / runTime, at least 1. */
  function PerTime(job: Job): int
    requires job.runTime > 0
  {
    var q := Arith.CDiv(job.heapElementCount, job.runTime);
    if q <= 0 then 1 else q
  }

  /** How many elements createHeapElementsForJob appends when `existing`
      elements exist: none for an empty job or above the cap. */
  function HeapCount(job: Job, existing: int): nat
  {
    if job.heapElementCount <= 0 || job.runTime <= 0 || existing > HeapCap then 0
    else
      Arith.MulPositive(job.runTime, PerTime(job));
      job.runTime * PerTime(job)
  }

  /** The nested loops of createHeapElementsForJob from time step t and
      inner index i on: element `id` arrives at the job's arrival plus t and
      reads two draws at p, the size first and the lifetime second. */
  function HeapElementsFrom(s: Stream, p: nat, job: Job, per: int, id: int, t: int, i: int): seq<HeapElement>
    decreases job.runTime - t, per - i
  {
    if t >= job.runTime then []
    else if i >= per then HeapElementsFrom(s, p, job, per, id, t + 1, 0)
    else
      [HeapElement(id, job.jobId, job.arrivalTime + t,
                   MapDraw(1, job.runTime, RawAt(s, p + 1)), MapDraw(20, 50, RawAt(s, p)))] +
      HeapElementsFrom(s, p + 2, job, per, id + 1, t, i + 1)
  }

  /** One pass of the inner loop: the element built from the next two draws. */
  lemma HeapElementsFromStep(s: Stream, p: nat, job: Job, per: int, id: int, t: int, i: int)
    requires t < job.runTime && i < per
    ensures HeapElementsFrom(s, p, job, per, id, t, i) ==
      [HeapElement(id, job.jobId, job.arrivalTime + t, MapDraw(1, job.runTime, RawAt(s, p + 1)), MapDraw(20, 50, RawAt(s, p)))] +
      HeapElementsFrom(s, p + 2, job, per, id + 1, t, i + 1)
  {
  }

  /** The loops append perTime elements for each remaining time step. */
  lemma {:induction false} HeapElementsFromLength(s: Stream, p: nat, job: Job, per: int, id: int, t: int, i: int)
    requires per > 0 && 0 <= i <= per
    ensures |HeapElementsFrom(s, p, job, per, id, t, i)| == if t >= job.runTime then 0 else (job.runTime - t) * per - i
    decreases job.runTime - t, per - i
  {
    if t < job.runTime {
      if i >= per {
        HeapElementsFromLength(s, p, job, per, id, t + 1, 0);
        assert (job.runTime - t) * per - per == (job.runTime - (t + 1)) * per;
      } else {
        HeapElementsFromLength(s, p + 2, job, per, id + 1, t, i + 1);
      }
    }
  }

  /** An element with the given id, owned by `job`, arriving at or after
      time step t of its run and before its end, 20..50 bytes and living
      1..runTime time units, which may outlast the job. */
  predicate ElementShape(job: Job, t: int, id: int, e: HeapElement)
  {
    e.elementId == id && e.jobId == job.jobId &&
    job.arrivalTime + t <= e.arrivalTime < job.arrivalTime + job.runTime &&
    20 <= e.sizeBytes <= 50 && 1 <= e.lifetime <= job.runTime
  }

  /** Every element the loops append from (t, i) on has that shape, with
      consecutive ids. */
  lemma {:induction false} HeapElementsFromShape(s: Stream, p: nat, job: Job, per: int, id: int, t: int, i: int)
    requires t >= 0
    ensures forall k :: 0 <= k < |HeapElementsFrom(s, p, job, per, id, t, i)| ==>
      ElementShape(job, t, id + k, HeapElementsFrom(s, p, job, per, id, t, i)[k])
    decreases job.runTime - t, per - i
  {
    var hs := HeapElementsFrom(s, p, job, per, id, t, i);
    if t < job.runTime {
      if i >= per {
        HeapElementsFromShape(s, p, job, per, id, t + 1, 0);
        assert hs == HeapElementsFrom(s, p, job, per, id, t + 1, 0);
        forall k | 0 <= k < |hs|
          ensures ElementShape(job, t, id + k, hs[k])
        {
          assert ElementShape(job, t + 1, id + k, hs[k]);
        }
      } else {
        HeapElementsFromShape(s, p + 2, job, per, id + 1, t, i + 1);
        var rest := HeapElementsFrom(s, p + 2, job, per, id + 1, t, i + 1);
        assert hs == [hs[0]] + rest;
        forall k | 1 <= k < |hs|
          ensures ElementShape(job, t, id + k, hs[k])
        {
          assert hs[k] == rest[k - 1];
          assert ElementShape(job, t, id + 1 + (k - 1), rest[k - 1]);
        }
      }
    }
  }

  /** The elements createHeapElementsForJob appends, `base` being the
      number that already exist. */
  function HeapElementsFor(s: Stream, p: nat, job: Job, base: int): (hs: seq<HeapElement>)
    ensures |hs| == HeapCount(job, base)
  {
    if job.heapElementCount <= 0 || job.runTime <= 0 || base > HeapCap then []
    else
      HeapElementsFromLength(s, p, job, PerTime(job), base, 0, 0);
      HeapElementsFrom(s, p, job, PerTime(job), base, 0, 0)
  }

  /** Each element has the next index as its id, belongs to the job,
      arrives during the job's run, is 20..50 bytes and lives 1..runTime
      time units, which may outlast the job. */
  lemma HeapElementsShape(s: Stream, p: nat, job: Job, base: int)
    ensures var hs := HeapElementsFor(s, p, job, base);
      forall k :: 0 <= k < |hs| ==>
        hs[k].elementId == base + k && hs[k].jobId == job.jobId &&
        job.arrivalTime <= hs[k].arrivalTime < job.arrivalTime + job.runTime &&
        20 <= hs[k].sizeBytes <= 50 && 1 <= hs[k].lifetime <= job.runTime
  {
    if !(job.heapElementCount <= 0 || job.runTime <= 0 || base > HeapCap) {
      var hs := HeapElementsFor(s, p, job, base);
      HeapElementsFromShape(s, p, job, PerTime(job), base, 0, 0);
      assert forall k :: 0 <= k < |hs| ==> ElementShape(job, 0, base + k, hs[k]);
    }
  }

  /** For the job shapes the count is runTime * (heapElementCount / runTime),
      i.e. exactly heapElementCount, up to 26 * 25 elements. */
  lemma HeapCountOfShape(job: Job, existing: int)
    requires JobShape(job) && existing <= HeapCap
    ensures HeapCount(job, existing) == job.heapElementCount <= 650
  {
    var per := if job.jobType == 'S' then 5 else if job.jobType == 'M' then 10 else 25;
    assert job.heapElementCount == per * job.runTime;
    Arith.DivModUnique(job.heapElementCount, job.runTime, per, 0);
  }

  // ---------------------------------------------------- jobs and elements

  /** The arrival loop of buildJobsAndHeapElements from one iteration on:
      returns the jobs, the elements, the next unread position and the
      first arrival that was not used (at or after PrefillTime). */
  function GenerateFrom(s: Stream, p: nat, cfg: SimConfig, jobs: seq<Job>, heaps: seq<HeapElement>,
                        baseTime: int, nextArrival: int): (seq<Job>, seq<HeapElement>, nat, int)
    requires baseTime <= nextArrival <= baseTime + 4
    decreases 2 * PrefillTime - baseTime - nextArrival, 1
  {
    if nextArrival >= PrefillTime then (jobs, heaps, p, nextArrival)
    else Iterate(s, p, cfg, jobs, heaps, baseTime, nextArrival)
  }

  /** One iteration: the job at nextArrival, its elements, then the next
      offset draw. */
  function Iterate(s: Stream, p: nat, cfg: SimConfig, jobs: seq<Job>, heaps: seq<HeapElement>,
                        baseTime: int, nextArrival: int): (seq<Job>, seq<HeapElement>, nat, int)
    requires baseTime <= nextArrival <= baseTime + 4 && nextArrival < PrefillTime
    decreases 2 * PrefillTime - baseTime - nextArrival, 0
  {
      var job := RandomJob(s, p, cfg, |jobs|, nextArrival);
      var hs := HeapElementsFor(s, p + 4, job, |heaps|);
      var q := p + 4 + 2 * |hs|;
      GenerateFrom(s, q + 1, cfg, jobs + [job], heaps + hs, baseTime + 3, baseTime + 3 + MapDraw(0, 4, RawAt(s, q)))
  }

  /** Job k: id k, the shape of its type, arrival between 1 + 3k and
      1 + 3k + 4 and before PrefillTime. */
  predicate JobOk(j: Job, k: int)
  {
    j.jobId == k && JobShape(j) &&
    1 + 3 * k <= j.arrivalTime <= 1 + 3 * k + 4 && j.arrivalTime < PrefillTime
  }

  /** Element k: id k, owned by one of `jobs`, 20..50 bytes, arriving during
      its job's run and living 1..runTime time units. */
  predicate HeapOk(jobs: seq<Job>, e: HeapElement, k: int)
  {
    e.elementId == k && 0 <= e.jobId < |jobs| && 20 <= e.sizeBytes <= 50 &&
    jobs[e.jobId].arrivalTime <= e.arrivalTime < jobs[e.jobId].arrivalTime + jobs[e.jobId].runTime &&
    1 <= e.lifetime <= jobs[e.jobId].runTime
  }

  /** What the generated workload satisfies. */
  ghost predicate WellFormed(jobs: seq<Job>, heaps: seq<HeapElement>)
  {
    (forall k :: 0 <= k < |jobs| ==> JobOk(jobs[k], k)) &&
    (forall k :: 0 <= k < |heaps| ==> HeapOk(jobs, heaps[k], k)) &&
    |heaps| <= HeapCap + 650
  }

  /** One iteration keeps the workload well formed. */
  lemma GenerateStep(s: Stream, p: nat, cfg: SimConfig, jobs: seq<Job>, heaps: seq<HeapElement>,
                     baseTime: int, nextArrival: int)
    requires WellFormed(jobs, heaps) && baseTime == 1 + 3 * |jobs| && baseTime <= nextArrival <= baseTime + 4
    requires nextArrival < PrefillTime
    ensures var job := RandomJob(s, p, cfg, |jobs|, nextArrival);
      WellFormed(jobs + [job], heaps + HeapElementsFor(s, p + 4, job, |heaps|))
  {
    var job := RandomJob(s, p, cfg, |jobs|, nextArrival);
    var hs := HeapElementsFor(s, p + 4, job, |heaps|);
    RandomJobShape(s, p, cfg, |jobs|, nextArrival);
    HeapElementsShape(s, p + 4, job, |heaps|);
    if |hs| > 0 {
      HeapCountOfShape(job, |heaps|);
    }
    var js := jobs + [job];
    var all := heaps + hs;
    forall k | 0 <= k < |js|
      ensures JobOk(js[k], k)
    {
      if k < |jobs| {
        assert js[k] == jobs[k];
      }
    }
    forall k | 0 <= k < |all|
      ensures HeapOk(js, all[k], k)
    {
      if k < |heaps| {
        assert all[k] == heaps[k];
        assert HeapOk(jobs, heaps[k], k);
        assert js[heaps[k].jobId] == jobs[heaps[k].jobId];
      } else {
        assert all[k] == hs[k - |heaps|];
        assert js[job.jobId] == job;
      }
    }
  }

  /** The loop's result: job k has id k and arrives at 1 + 3k plus an offset
      of 0..4 before PrefillTime, elements are numbered by index and belong
      to a job, and generation stopped at the first arrival at or after
      PrefillTime, the one job |jobs| would have had. */
  lemma {:induction false} GenerateFromFacts(s: Stream, p: nat, cfg: SimConfig, jobs: seq<Job>,
                                             heaps: seq<HeapElement>, baseTime: int, nextArrival: int)
    requires WellFormed(jobs, heaps) && baseTime == 1 + 3 * |jobs| && baseTime <= nextArrival <= baseTime + 4
    ensures var r := GenerateFrom(s, p, cfg, jobs, heaps, baseTime, nextArrival);
      WellFormed(r.0, r.1) && jobs <= r.0 && heaps <= r.1 &&
      r.3 >= PrefillTime && 1 + 3 * |r.0| <= r.3 <= 1 + 3 * |r.0| + 4
    decreases PrefillTime - baseTime
  {
    if nextArrival < PrefillTime {
      var job := RandomJob(s, p, cfg, |jobs|, nextArrival);
      var hs := HeapElementsFor(s, p + 4, job, |heaps|);
      var q := p + 4 + 2 * |hs|;
      var next := baseTime + 3 + MapDraw(0, 4, RawAt(s, q));
      GenerateStep(s, p, cfg, jobs, heaps, baseTime, nextArrival);
      GenerateFromFacts(s, q + 1, cfg, jobs + [job], heaps + hs, baseTime + 3, next);
      var r := GenerateFrom(s, q + 1, cfg, jobs + [job], heaps + hs, baseTime + 3, next);
      assert GenerateFrom(s, p, cfg, jobs, heaps, baseTime, nextArrival) == r;
      assert jobs <= jobs + [job] && heaps <= heaps + hs;
    }
  }

  /** Job k arrives no earlier than 1 + 3k, so at most 667 arrive before PrefillTime. */
  lemma JobCountBound(jobs: seq<Job>, heaps: seq<HeapElement>)
    requires WellFormed(jobs, heaps)
    ensures |jobs| <= 667
  {
    if |jobs| > 0 {
      assert JobOk(jobs[|jobs| - 1], |jobs| - 1);
    }
  }

  /** buildJobsAndHeapElements: one offset draw, then the loop from time 1.
      The result is well formed, has at most 667 jobs, and generation
      stopped at the first arrival at or after PrefillTime. */
  function Generate(s: Stream, p: nat, cfg: SimConfig): (r: (seq<Job>, seq<HeapElement>, nat, int))
    ensures WellFormed(r.0, r.1) && |r.0| <= 667
    ensures r.3 >= PrefillTime && 1 + 3 * |r.0| <= r.3 <= 1 + 3 * |r.0| + 4
  {
    var first := 1 + MapDraw(0, 4, RawAt(s, p));
    GenerateFromFacts(s, p + 1, cfg, [], [], 1, first);
    var r := GenerateFrom(s, p + 1, cfg, [], [], 1, first);
    JobCountBound(r.0, r.1);
    r
  }

  /** Generate's first step: the offset draw, then the loop from time 1
      with no jobs and no elements yet. */
  lemma GenerateStart(s: Stream, p: nat, cfg: SimConfig, jobs: seq<Job>, heaps: seq<HeapElement>,
                      q: nat, baseTime: int, first: int)
    requires jobs == [] && heaps == [] && q == p + 1 && baseTime == 1 && first == 1 + MapDraw(0, 4, RawAt(s, p))
    ensures baseTime <= first <= baseTime + 4
    ensures Generate(s, p, cfg) == GenerateFrom(s, q, cfg, jobs, heaps, baseTime, first)
  {
  }

  /** Generation ends at the first arrival at or after PrefillTime. */
  lemma GenerateDone(s: Stream, p: nat, cfg: SimConfig, jobs: seq<Job>, heaps: seq<HeapElement>,
                     baseTime: int, nextArrival: int)
    requires baseTime <= nextArrival <= baseTime + 4 && nextArrival >= PrefillTime
    ensures GenerateFrom(s, p, cfg, jobs, heaps, baseTime, nextArrival) == (jobs, heaps, p, nextArrival)
  {
  }

  /** One pass of the arrival loop, in terms of the job and elements drawn,
      the position q of the next offset draw and the arrival it yields. */
  lemma IterateFrom(s: Stream, p: nat, cfg: SimConfig, jobs: seq<Job>, heaps: seq<HeapElement>,
                    baseTime: int, nextArrival: int, job: Job, hs: seq<HeapElement>,
                    jobs': seq<Job>, heaps': seq<HeapElement>, q: nat, next: int)
    requires baseTime <= nextArrival <= baseTime + 4 && nextArrival < PrefillTime
    requires job == RandomJob(s, p, cfg, |jobs|, nextArrival) && hs == HeapElementsFor(s, p + 4, job, |heaps|)
    requires jobs' == jobs + [job] && heaps' == heaps + hs
    requires q == p + 4 + 2 * |hs| && next == baseTime + 3 + MapDraw(0, 4, RawAt(s, q))
    ensures baseTime + 3 <= next <= baseTime + 3 + 4
    ensures GenerateFrom(s, p, cfg, jobs, heaps, baseTime, nextArrival) ==
      GenerateFrom(s, q + 1, cfg, jobs', heaps', baseTime + 3, next)
  {
  }
}
