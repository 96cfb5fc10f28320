/** The integer arithmetic of a run's samples and final statistics:
    when samples are taken, the percentage formulas, the running sums and
    peaks, and the averages derived from them. */
module Metrics {

  import opened AllocatorSpec
  import opened Pool
  import Arith

  /** Samples start at the end of the prefill phase... */
  const SampleStart: int := 2000
  /** ...and are taken every this many time units. */
  const SampleInterval: int := 200

  /** The sampling rule of the tick loop. */
  predicate IsSampleTime(t: int)
  {
    t >= SampleStart && (t - SampleStart) % SampleInterval == 0
  }

  /** How many of the times 0..n-1 are sample times. */
  function SamplesBelow(n: int): nat
    decreases n
  {
    if n <= 0 then 0 else SamplesBelow(n - 1) + (if IsSampleTime(n - 1) then 1 else 0)
  }

  /** One sample at 2000 and one every 200 after it: a replay of times
      0..endTime takes (endTime - 2000) / 200 + 1 samples when endTime is at
      least 2000. */
  lemma {:induction false} SamplesBelowClosed(n: int)
    ensures SamplesBelow(n) == if n <= SampleStart then 0 else (n - SampleStart - 1) / SampleInterval + 1
    decreases n
  {
    if 0 < n <= SampleStart {
      SamplesBelowClosed(n - 1);
    } else if n > SampleStart {
      SamplesBelowClosed(n - 1);
      var d := n - 1 - SampleStart;
      var q, r := d / 200, d % 200;
      assert d == q * 200 + r;
      assert IsSampleTime(n - 1) <==> r == 0;
      if d == 0 {
        assert SamplesBelow(n) == 1;
      } else if r == 0 {
        Arith.DivModUnique(d - 1, 200, q - 1, 199);
        assert SamplesBelow(n) == (d - 1) / 200 + 2;
      } else {
        Arith.DivModUnique(d - 1, 200, q, r - 1);
        assert SamplesBelow(n) == (d - 1) / 200 + 1;
      }
    }
  }

  // ----------------------------------------------------------- percentages

  /** `(100 * part) / total`, or 0 when total is not positive. */
  function PercentOf(part: int, total: int): int
  {
    if total > 0 then Arith.CDiv(100 * part, total) else 0
  }

  /** Internal waste: allocated minus required bytes, clamped at 0, as a
      percentage of allocated bytes, or 0 when nothing is allocated. */
  function InternalPercent(inUse: int, required: int): int
  {
    if inUse > 0 then
      var waste := if inUse - required < 0 then 0 else inUse - required;
      Arith.CDiv(100 * waste, inUse)
    else 0
  }

  /** A part of a positive total is 0..100 percent of it, all of it 100. */
  lemma PercentBounds(part: int, total: int)
    requires 0 <= part <= total
    ensures 0 <= PercentOf(part, total) <= 100
    ensures total > 0 && part == total ==> PercentOf(part, total) == 100
    ensures part == 0 ==> PercentOf(part, total) == 0
  {
    if total > 0 {
      Arith.MulMonotone(part, total, 100);
      Arith.DivModUnique(100 * part, total, (100 * part) / total, (100 * part) % total);
      if (100 * part) / total > 100 {
        Arith.MulMonotone(101, (100 * part) / total, total);
      }
      if part == total {
        Arith.DivModUnique(100 * total, total, 100, 0);
      }
    }
  }

  /** Internal fragmentation is never negative, is 0 when the requests
      cover the inUse bytes (as a Next Fit wrap can make happen), and is
      at most 100 when the required bytes are not negative. */
  lemma InternalBounds(inUse: int, required: int)
    ensures 0 <= InternalPercent(inUse, required)
    ensures required >= inUse ==> InternalPercent(inUse, required) == 0
    ensures required >= 0 ==> InternalPercent(inUse, required) <= 100
  {
    if inUse > 0 {
      var waste := if inUse - required < 0 then 0 else inUse - required;
      Arith.MulNonneg(100, waste);
      if required >= 0 {
        PercentBounds(waste, inUse);
      }
    }
  }

  /** In-use and free percentages of a split pool add up to 99 or 100:
      each quotient is truncated, losing less than one percent. */
  lemma InUsePlusFree(inUse: int, free: int, total: int)
    requires inUse >= 0 && free >= 0 && inUse + free == total && total > 0
    ensures 99 <= PercentOf(inUse, total) + PercentOf(free, total) <= 100
  {
    Arith.MulNonneg(100, inUse);
    Arith.MulNonneg(100, free);
    var q1, r1 := (100 * inUse) / total, (100 * inUse) % total;
    var q2, r2 := (100 * free) / total, (100 * free) % total;
    assert 100 * inUse == q1 * total + r1;
    assert 100 * free == q2 * total + r2;
    var d := 100 - q1 - q2;
    assert d * total == r1 + r2 by {
      assert 100 * total == q1 * total + q2 * total + r1 + r2;
      assert d * total == 100 * total - q1 * total - q2 * total;
    }
    if d >= 2 {
      Arith.MulMonotone(2, d, total);
    } else if d < 0 {
      Arith.MulMonotone(d, -1, total);
    }
  }

  // --------------------------------------------------------------- samples

  /** One row of the summary file. */
  datatype SampleRow = SampleRow(
    time: int, algorithm: string,
    allocatedBytes: int, freeBytes: int, requiredBytes: int, externalFragments: int,
    percentInUse: int, percentFree: int, percentInternal: int)

  /** The metrics of one allocator at a sample time. */
  function Sample(st: AllocState, t: int, algorithm: string): SampleRow
  {
    var total := TotalBytes(st);
    var inUse := AllocatedBytes(st);
    var free := FreeBytes(st);
    var required := RequiredBytes(st);
    SampleRow(t, algorithm, inUse, free, required, ExternalFragments(st),
              PercentOf(inUse, total), PercentOf(free, total), InternalPercent(inUse, required))
  }

  /** Allocated bytes never exceed the pool, so the in-use percentage of a
      sample is 0..100, and with free bytes it makes 99 or 100. */
  lemma SampleBounds(st: AllocState, t: int, algorithm: string)
    requires st.Valid()
    ensures var row := Sample(st, t, algorithm);
      0 <= row.percentInUse <= 100 && 0 <= row.percentFree <= 100 && 0 <= row.percentInternal &&
      (TotalBytes(st) > 0 ==> 99 <= row.percentInUse + row.percentFree <= 100)
  {
    Accounting(st);
    var used, free := CountUsed(st.units), CountFree(st.units);
    FreePlusUsed(st.units);
    InternalBounds(AllocatedBytes(st), RequiredBytes(st));
    if st.unitSize > 0 {
      Arith.MulNonneg(used, st.unitSize);
      Arith.MulNonneg(free, st.unitSize);
      PercentBounds(AllocatedBytes(st), TotalBytes(st));
      PercentBounds(FreeBytes(st), TotalBytes(st));
      if TotalBytes(st) > 0 {
        InUsePlusFree(AllocatedBytes(st), FreeBytes(st), TotalBytes(st));
      }
    } else {
      Arith.MulNonneg(st.unitCount, -st.unitSize);
    }
  }

  /** The per-algorithm running sums and peaks. */
  datatype Acc = Acc(sumInUse: int, sumInternal: int, maxInUse: int, maxExternalFrag: int)

  function Zero(): Acc { Acc(0, 0, 0, 0) }

  /** Add one sample: sums grow by its percentages, peaks rise to it. */
  function Accumulate(a: Acc, row: SampleRow): Acc
  {
    Acc(a.sumInUse + row.percentInUse, a.sumInternal + row.percentInternal,
        if row.percentInUse > a.maxInUse then row.percentInUse else a.maxInUse,
        if row.externalFragments > a.maxExternalFrag then row.externalFragments else a.maxExternalFrag)
  }

  /** The accumulator after a sequence of samples. */
  function AccumulateAll(a: Acc, rows: seq<SampleRow>): Acc
  {
    if |rows| == 0 then a else Accumulate(AccumulateAll(a, rows[..|rows| - 1]), rows[|rows| - 1])
  }

  /** The peaks are running maxima: from zero, each peak bounds every
      sample, and is 0 or attained by one of them. */
  lemma {:induction false} PeaksAreMaxima(rows: seq<SampleRow>)
    ensures var a := AccumulateAll(Zero(), rows);
      a.maxInUse >= 0 && a.maxExternalFrag >= 0 &&
      (forall k :: 0 <= k < |rows| ==> rows[k].percentInUse <= a.maxInUse) &&
      (forall k :: 0 <= k < |rows| ==> rows[k].externalFragments <= a.maxExternalFrag) &&
      (a.maxInUse == 0 || exists k :: 0 <= k < |rows| && rows[k].percentInUse == a.maxInUse) &&
      (a.maxExternalFrag == 0 || exists k :: 0 <= k < |rows| && rows[k].externalFragments == a.maxExternalFrag)
  {
    if |rows| > 0 {
      var init := rows[..|rows| - 1];
      PeaksAreMaxima(init);
      var a := AccumulateAll(Zero(), init);
      var b := AccumulateAll(Zero(), rows);
      forall k | 0 <= k < |rows|
        ensures rows[k].percentInUse <= b.maxInUse && rows[k].externalFragments <= b.maxExternalFrag
      {
        if k < |rows| - 1 {
          assert rows[k] == init[k];
        }
      }
      if b.maxInUse != 0 && b.maxInUse == a.maxInUse {
        var k :| 0 <= k < |init| && init[k].percentInUse == a.maxInUse;
        assert rows[k] == init[k];
      }
      if b.maxExternalFrag != 0 && b.maxExternalFrag == a.maxExternalFrag {
        var k :| 0 <= k < |init| && init[k].externalFragments == a.maxExternalFrag;
        assert rows[k] == init[k];
      }
    }
  }

  /** What an accumulator over `count` samples with 0..100 percentages
      satisfies: the sum is at most count times the peak. */
  predicate AccOk(a: Acc, count: int)
  {
    count >= 0 && 0 <= a.maxInUse <= 100 && 0 <= a.sumInUse <= count * a.maxInUse &&
    0 <= a.sumInternal && 0 <= a.maxExternalFrag
  }

  lemma AccumulateOk(a: Acc, count: int, row: SampleRow)
    requires AccOk(a, count)
    requires 0 <= row.percentInUse <= 100 && 0 <= row.percentInternal
    ensures AccOk(Accumulate(a, row), count + 1)
  {
    var b := Accumulate(a, row);
    Arith.MulMonotone(a.maxInUse, b.maxInUse, count);
    assert (count + 1) * b.maxInUse == count * b.maxInUse + b.maxInUse;
  }

  // ------------------------------------------------------ final statistics

  /** The final statistics of one algorithm. */
  datatype FinalStats = FinalStats(
    totalBytes: int, allocatedBytes: int, freeBytes: int, requiredBytes: int,
    percentInUse: int, percentFree: int, percentInternal: int,
    avgPercentInUse: int, avgPercentInternal: int, peakPercentInUse: int, peakExternalFrag: int,
    largestFreeBlock: int, smallestFreeBlock: int, heapAllocCount: int, heapAllocBytes: int,
    numAllocations: int, numAllocationOps: int, numFreeRequests: int, numFreeOps: int,
    avgAllocOps: int, avgFreeOps: int, totalOperations: int, operationsPerTime: int)

  /** Truncating quotient, or 0 when the divisor is not positive. */
  function Average(sum: int, count: int): int
  {
    if count > 0 then Arith.CDiv(sum, count) else 0
  }

  /** The statistics of one allocator at the end of a run; the heap
      counters are kept by the simulation, not by the allocator. */
  function Final(st: AllocState, a: Acc, sampleCount: int, endTime: int, heapCount: int, heapBytes: int): FinalStats
  {
    var total := TotalBytes(st);
    var inUse := AllocatedBytes(st);
    var free := FreeBytes(st);
    var required := RequiredBytes(st);
    FinalStats(total, inUse, free, required,
               PercentOf(inUse, total), PercentOf(free, total), InternalPercent(inUse, required),
               Average(a.sumInUse, sampleCount), Average(a.sumInternal, sampleCount),
               a.maxInUse, a.maxExternalFrag, LargestFreeBlock(st), SmallestFreeBlock(st),
               heapCount, heapBytes,
               st.allocationCount, st.allocationOps, st.freeRequests, st.freeOps,
               Average(st.allocationOps, st.allocationCount), Average(st.freeOps, st.freeRequests),
               st.allocationOps + st.freeOps, Average(st.allocationOps + st.freeOps, endTime + 1))
  }

  /** The average in-use percentage over the samples never exceeds the
      peak, and is 0 when no sample was taken. */
  lemma AverageBelowPeak(st: AllocState, a: Acc, sampleCount: int, endTime: int, heapCount: int, heapBytes: int)
    requires AccOk(a, sampleCount)
    ensures var f := Final(st, a, sampleCount, endTime, heapCount, heapBytes);
      0 <= f.avgPercentInUse <= f.peakPercentInUse && (sampleCount == 0 ==> f.avgPercentInUse == 0)
  {
    if sampleCount > 0 {
      var q, r := a.sumInUse / sampleCount, a.sumInUse % sampleCount;
      assert a.sumInUse == q * sampleCount + r;
      if q > a.maxInUse {
        Arith.MulMonotone(a.maxInUse + 1, q, sampleCount);
      }
    }
  }
}
