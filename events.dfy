/** The event list of a run: two events per job and two per heap element,
    put in (time, eventType) order by an in-place exchange sort. */
module Events {

  import opened Workload

  /** eventType: 0 job arrival, 1 job departure, 2 heap allocation,
      3 heap free. Job events carry elementId -1. */
  datatype Event = Event(time: int, jobId: int, elementId: int, eventType: int)

  function Arrive(j: Job): Event { Event(j.arrivalTime, j.jobId, -1, 0) }
  function Depart(j: Job): Event { Event(j.arrivalTime + j.runTime, j.jobId, -1, 1) }
  function HeapAlloc(e: HeapElement): Event { Event(e.arrivalTime, e.jobId, e.elementId, 2) }
  function HeapRelease(e: HeapElement): Event { Event(DepartureTime(e), e.jobId, e.elementId, 3) }

  // ------------------------------------------------------------- emission

  /** The first emission loop: arrival then departure, job by job. */
  function JobEvents(jobs: seq<Job>): (es: seq<Event>)
    ensures |es| == 2 * |jobs|
  {
    if |jobs| == 0 then []
    else JobEvents(jobs[..|jobs| - 1]) + [Arrive(jobs[|jobs| - 1]), Depart(jobs[|jobs| - 1])]
  }

  /** The second emission loop: allocation then free, element by element. */
  function HeapEvents(heaps: seq<HeapElement>): (es: seq<Event>)
    ensures |es| == 2 * |heaps|
  {
    if |heaps| == 0 then []
    else HeapEvents(heaps[..|heaps| - 1]) + [HeapAlloc(heaps[|heaps| - 1]), HeapRelease(heaps[|heaps| - 1])]
  }

  /** What buildEvents emits before sorting. */
  function Emitted(jobs: seq<Job>, heaps: seq<HeapElement>): seq<Event>
  {
    JobEvents(jobs) + HeapEvents(heaps)
  }

  /** Job k contributes events 2k (arrival) and 2k+1 (departure). */
  lemma {:induction false} JobEventsAt(jobs: seq<Job>, k: int)
    requires 0 <= k < |jobs|
    ensures JobEvents(jobs)[2 * k] == Arrive(jobs[k])
    ensures JobEvents(jobs)[2 * k + 1] == Depart(jobs[k])
  {
    if k < |jobs| - 1 {
      JobEventsAt(jobs[..|jobs| - 1], k);
    }
  }

  /** Element k contributes events 2k (allocation) and 2k+1 (free). */
  lemma {:induction false} HeapEventsAt(heaps: seq<HeapElement>, k: int)
    requires 0 <= k < |heaps|
    ensures HeapEvents(heaps)[2 * k] == HeapAlloc(heaps[k])
    ensures HeapEvents(heaps)[2 * k + 1] == HeapRelease(heaps[k])
  {
    if k < |heaps| - 1 {
      HeapEventsAt(heaps[..|heaps| - 1], k);
    }
  }

  /** Every emitted event is one of the four events of a job or element. */
  lemma EmittedFrom(jobs: seq<Job>, heaps: seq<HeapElement>, i: int)
    requires 0 <= i < |Emitted(jobs, heaps)|
    ensures var ev := Emitted(jobs, heaps)[i];
      if i < 2 * |jobs| then
        ev == (if i % 2 == 0 then Arrive(jobs[i / 2]) else Depart(jobs[i / 2]))
      else
        var e := heaps[(i - 2 * |jobs|) / 2];
        ev == (if (i - 2 * |jobs|) % 2 == 0 then HeapAlloc(e) else HeapRelease(e))
  {
    if i < 2 * |jobs| {
      JobEventsAt(jobs, i / 2);
    } else {
      HeapEventsAt(heaps, (i - 2 * |jobs|) / 2);
    }
  }

  /** The lookups processEventsAtTime makes for an event exist: the job
      or element it names, the table slot that one's own id selects, and a
      positive size for every request. */
  predicate EventRefs(ev: Event, jobs: seq<Job>, heaps: seq<HeapElement>)
  {
    match ev.eventType
    case 0 =>
      0 <= ev.jobId < |jobs| && 0 <= jobs[ev.jobId].jobId < |jobs| &&
      jobs[ev.jobId].codeSize > 0 && jobs[ev.jobId].stackSize > 0
    case 1 => 0 <= ev.jobId < |jobs| && 0 <= jobs[ev.jobId].jobId < |jobs|
    case 2 =>
      0 <= ev.elementId < |heaps| && 0 <= heaps[ev.elementId].elementId < |heaps| &&
      heaps[ev.elementId].sizeBytes > 0
    case 3 => 0 <= ev.elementId < |heaps|
    case _ => true
  }

  /** Every event emitted for a generated workload has its lookups. */
  lemma EmittedRefs(jobs: seq<Job>, heaps: seq<HeapElement>)
    requires WellFormed(jobs, heaps)
    ensures forall i :: 0 <= i < |Emitted(jobs, heaps)| ==> EventRefs(Emitted(jobs, heaps)[i], jobs, heaps)
  {
    forall i | 0 <= i < |Emitted(jobs, heaps)|
      ensures EventRefs(Emitted(jobs, heaps)[i], jobs, heaps)
    {
      EmittedFrom(jobs, heaps, i);
      if i < 2 * |jobs| {
        assert JobOk(jobs[i / 2], i / 2);
      } else {
        var k := (i - 2 * |jobs|) / 2;
        assert HeapOk(jobs, heaps[k], k);
      }
    }
  }

  // --------------------------------------------------------- exchange sort

  /** The swap test: `x` goes before `y` by time, then by event type. */
  predicate Before(x: Event, y: Event)
  {
    x.time < y.time || (x.time == y.time && x.eventType < y.eventType)
  }

  /** Compare positions i and j and swap them when j's event goes first. */
  function SwapIf(s: seq<Event>, i: int, j: int): (r: seq<Event>)
    requires 0 <= i < j < |s|
    ensures |r| == |s|
  {
    if Before(s[j], s[i]) then s[i := s[j]][j := s[i]] else s
  }

  /** The inner loop from j on, for a fixed i. */
  function InnerPass(s: seq<Event>, i: int, j: int): (r: seq<Event>)
    requires 0 <= i < j
    ensures |r| == |s|
    decreases |s| - j
  {
    if j >= |s| then s else InnerPass(SwapIf(s, i, j), i, j + 1)
  }

  /** The outer loop from i on. */
  function OuterPass(s: seq<Event>, i: nat): (r: seq<Event>)
    ensures |r| == |s|
    decreases |s| - i
  {
    if i >= |s| then s else OuterPass(InnerPass(s, i, i + 1), i + 1)
  }

  function ExchangeSort(s: seq<Event>): seq<Event>
  {
    OuterPass(s, 0)
  }

  /** Non-decreasing in (time, eventType). */
  predicate Sorted(s: seq<Event>)
  {
    forall a, b :: 0 <= a < b < |s| ==> !Before(s[b], s[a])
  }

  lemma BeforeTransitive(x: Event, y: Event, z: Event)
    requires Before(x, y) && Before(y, z)
    ensures Before(x, z)
  {
  }

  /** A swap permutes the sequence and leaves every other position alone. */
  lemma SwapIfFacts(s: seq<Event>, i: int, j: int)
    requires 0 <= i < j < |s|
    ensures multiset(SwapIf(s, i, j)) == multiset(s)
    ensures forall k :: 0 <= k < |s| && k != i && k != j ==> SwapIf(s, i, j)[k] == s[k]
    ensures multiset(SwapIf(s, i, j)[i..]) == multiset(s[i..])
  {
    if Before(s[j], s[i]) {
      var r := s[i := s[j]][j := s[i]];
      assert s[i..] == [s[i]] + s[i + 1..];
      assert r[i..] == [s[j]] + r[i + 1..];
      assert r[i + 1..] == s[i + 1..][j - i - 1 := s[i]];
    }
  }

  /** After the inner loop up to j, position i holds an event no later
      element of s[i+1..j] goes before; positions below i are untouched
      and s[i..] is only permuted. */
  lemma {:induction false} InnerPassFacts(s: seq<Event>, i: int, j: int)
    requires 0 <= i < j <= |s|
    requires forall k :: i < k < j ==> !Before(s[k], s[i])
    ensures var r := InnerPass(s, i, j);
      (forall k :: i < k < |s| ==> !Before(r[k], r[i])) &&
      r[..i] == s[..i] && multiset(r[i..]) == multiset(s[i..])
    decreases |s| - j
  {
    if j < |s| {
      var t := SwapIf(s, i, j);
      SwapIfFacts(s, i, j);
      forall k | i < k < j + 1
        ensures !Before(t[k], t[i])
      {
        if Before(s[j], s[i]) {
          if k < j && Before(t[k], t[i]) {
            BeforeTransitive(s[k], s[j], s[i]);
          }
        }
      }
      InnerPassFacts(t, i, j + 1);
      assert t[..i] == s[..i];
    }
  }

  /** Positions below i are sorted and no later element goes before them. */
  predicate PrefixDone(s: seq<Event>, i: int)
    requires 0 <= i <= |s|
  {
    (forall a, b :: 0 <= a < b < i ==> !Before(s[b], s[a])) &&
    (forall a, k :: 0 <= a < i <= k < |s| ==> !Before(s[k], s[a]))
  }

  /** An element of a permuted suffix comes from the original suffix. */
  lemma FromSuffix(s: seq<Event>, r: seq<Event>, i: int, k: int)
    requires 0 <= i <= k < |r| && |r| == |s| && multiset(r[i..]) == multiset(s[i..])
    ensures exists k' :: i <= k' < |s| && s[k'] == r[k]
  {
    assert r[k] == r[i..][k - i];
    assert r[k] in multiset(s[i..]);
    var m :| 0 <= m < |s[i..]| && s[i..][m] == r[k];
    assert s[i + m] == r[k];
  }

  /** One outer pass extends the done prefix by one and only permutes. */
  lemma OuterStep(s: seq<Event>, i: nat)
    requires i < |s| && PrefixDone(s, i)
    ensures var r := InnerPass(s, i, i + 1);
      PrefixDone(r, i + 1) && multiset(r) == multiset(s)
  {
    var r := InnerPass(s, i, i + 1);
    InnerPassFacts(s, i, i + 1);
    assert s == s[..i] + s[i..] && r == r[..i] + r[i..];
    forall a | 0 <= a < i
      ensures r[a] == s[a]
    {
      assert r[a] == r[..i][a];
    }
    forall a, k | 0 <= a < i + 1 <= k < |r|
      ensures !Before(r[k], r[a])
    {
      if a < i {
        FromSuffix(s, r, i, k);
      }
    }
    forall a, b | 0 <= a < b < i + 1
      ensures !Before(r[b], r[a])
    {
      if b == i {
        FromSuffix(s, r, i, i);
      }
    }
  }

  /** The outer loop from a done prefix on sorts and only permutes. */
  lemma {:induction false} OuterPassFacts(s: seq<Event>, i: nat)
    requires i <= |s| && PrefixDone(s, i)
    ensures Sorted(OuterPass(s, i)) && multiset(OuterPass(s, i)) == multiset(s)
    decreases |s| - i
  {
    if i < |s| {
      OuterStep(s, i);
      OuterPassFacts(InnerPass(s, i, i + 1), i + 1);
    } else {
      assert OuterPass(s, i) == s;
    }
  }

  /** The sort's result is ordered by (time, eventType) and is a
      permutation of its input. */
  lemma ExchangeSortCorrect(s: seq<Event>)
    ensures Sorted(ExchangeSort(s))
    ensures multiset(ExchangeSort(s)) == multiset(s)
  {
    OuterPassFacts(s, 0);
  }

  /** The sort is not stable: two events with the same time and type come
      out in reverse order when an earlier event has to pass over them. */
  lemma ExchangeSortNotStable()
    ensures var a, b, c := Event(5, 0, -1, 0), Event(5, 1, -1, 0), Event(1, 2, -1, 0);
      ExchangeSort([a, b, c]) == [c, b, a]
  {
    var a, b, c := Event(5, 0, -1, 0), Event(5, 1, -1, 0), Event(1, 2, -1, 0);
    var s0 := InnerPass([a, b, c], 0, 1);
    assert SwapIf([a, b, c], 0, 1) == [a, b, c];
    assert SwapIf([a, b, c], 0, 2) == [c, b, a];
    assert InnerPass([c, b, a], 0, 3) == [c, b, a];
    assert InnerPass([a, b, c], 0, 2) == [c, b, a];
    assert s0 == [c, b, a];
    assert SwapIf([c, b, a], 1, 2) == [c, b, a];
    assert InnerPass([c, b, a], 1, 3) == [c, b, a];
    assert InnerPass([c, b, a], 1, 2) == [c, b, a];
    assert InnerPass([c, b, a], 2, 3) == [c, b, a];
    assert OuterPass([c, b, a], 3) == [c, b, a];
    assert OuterPass([c, b, a], 2) == [c, b, a];
    assert OuterPass([c, b, a], 1) == [c, b, a];
  }

  /** The last event of a sorted list has the largest time, so replaying
      up to it reaches every event. */
  lemma LastIsLatest(s: seq<Event>)
    requires Sorted(s) && |s| > 0
    ensures forall k :: 0 <= k < |s| ==> s[k].time <= s[|s| - 1].time
  {
    forall k | 0 <= k < |s|
      ensures s[k].time <= s[|s| - 1].time
    {
      if k < |s| - 1 {
        assert !Before(s[|s| - 1], s[k]);
      }
    }
  }

  /** Sorting keeps every event of the list, so the lookups stay valid. */
  lemma SortedRefs(s: seq<Event>, jobs: seq<Job>, heaps: seq<HeapElement>)
    requires forall i :: 0 <= i < |s| ==> EventRefs(s[i], jobs, heaps)
    ensures forall i :: 0 <= i < |ExchangeSort(s)| ==> EventRefs(ExchangeSort(s)[i], jobs, heaps)
  {
    var r := ExchangeSort(s);
    ExchangeSortCorrect(s);
    forall i | 0 <= i < |r|
      ensures EventRefs(r[i], jobs, heaps)
    {
      assert r[i] in multiset(s);
      var k :| 0 <= k < |s| && s[k] == r[i];
    }
  }

  // ---------------------------------------------------- the sort in place

  /** buildEvents' nested swap loops on the array. */
  method ExchangeSortInPlace(events: array<Event>)
    modifies events
    ensures events[..] == ExchangeSort(old(events[..]))
  {
    ghost var s0 := events[..];
    var n := events.Length;
    var i := 0;
    while i < n
      invariant 0 <= i <= n
      invariant OuterPass(events[..], i) == ExchangeSort(s0)
    {
      var j := i + 1;
      while j < n
        invariant i + 1 <= j <= n
        invariant OuterPass(InnerPass(events[..], i, j), i + 1) == ExchangeSort(s0)
      {
        ghost var before := events[..];
        var swap := false;
        if events[j].time < events[i].time {
          swap := true;
        } else if events[j].time == events[i].time && events[j].eventType < events[i].eventType {
          swap := true;
        }
        if swap {
          var temp := events[i];
          events[i] := events[j];
          events[j] := temp;
        }
        assert events[..] == SwapIf(before, i, j);
        j := j + 1;
      }
      i := i + 1;
    }
  }
}
