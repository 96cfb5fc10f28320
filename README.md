# Memory allocation simulator, modelled in Dafny

The system simulates four placement policies for a fixed pool of equal-sized
memory units: First Fit, Next Fit, Best Fit and Worst Fit. All four run side
by side on the same workload.

- **Workload.** A seeded random source generates jobs (small, medium or large;
  each has code, stack and heap elements) until the first arrival at or after
  time 2000.
- **Events.** Each job contributes an arrival and a departure event, and each
  heap element an allocation and a free event. An exchange sort puts the
  events in (time, event type) order.
- **Time loop.** At each time step the loop replays the events of that time
  against the four allocators and writes one log row per allocation or free.
- **Sampling.** From time 2000 on, every 200 time units, the loop samples used
  bytes, free bytes, required bytes, external fragments and three
  percentages. These feed the running sums and peaks. At the end comes a
  final statistics block per policy.

The modules follow the program's files:

- `arith.dfy`: C++ truncating division.
- `random_generator.dfy`: `RandomGenerator`, `randomInclusive` and `roundUpTo`.
- `csv_writer.dfy`: `CsvWriter`.
- `pool.dfy`: the unit-sequence searches behind the four policies, stated as
  reference functions and characterising predicates.
- `allocator_spec.dfy`: the allocator as a state value with pure
  transitions.
- `memory_allocator.dfy`: the class `MemoryAllocator` with the C++ loops,
  each method proved equal to the pure transition.
- `workload.dfy`: job and heap-element generation.
- `events.dfy`: emission and the exchange sort.
- `metrics.dfy`: the percentage arithmetic, sampling and final statistics.
- `replay.dfy`: one policy's lane of `processEventsAtTime`, and the time
  loop over all four.
- `memory_simulation.dfy`: the class `MemorySimulation`, with the imperative
  `run`, proved equal to the replay functions.

## Model

| member | source | states |
|---|---|---|
| Arith.CDiv | src/memorysimulation.cpp:115 | C++ `/` truncates toward zero; for a non-negative dividend and a positive divisor it agrees with Euclidean division |
| RandomGen.MapDraw | src/randomgenerator.cpp:18-33 | the mapped draw always lies between the smaller and the larger bound, whichever order they are given in |
| RandomGen.MapDrawSymmetric | src/randomgenerator.cpp:19-24 | swapping reversed bounds makes the order of the bounds irrelevant to the result |
| RandomGen.MapDrawPoint | src/randomgenerator.cpp:26-31 | a one-value range always yields that value |
| RandomGen.MapDrawResidue | src/randomgenerator.cpp:28-31 | the offset from the low bound is the raw value modulo the width, so raw values one width apart map to the same result |
| RandomGen.CRem | src/randomgenerator.cpp:40 | C++ `%` gives a remainder with the dividend's sign and less than the divisor in magnitude |
| RandomGen.RoundUpToIsNextMultiple | src/randomgenerator.cpp:37-42 | for a positive unit and a non-negative value, roundUpTo returns a multiple of the unit that is at least the value and less than value + unit, i.e. the next multiple |
| RandomGen.RoundUpToIdempotent | src/randomgenerator.cpp:37-42 | a multiple is returned unchanged, so rounding twice equals rounding once |
| RandomGen.RandomGenerator.constructor | src/randomgenerator.cpp:4-11 | a new generator reads its seeded stream from the start |
| RandomGen.RandomGenerator.Reseed | src/randomgenerator.cpp:13-16 | reseeding restarts from the beginning of the new seed's stream |
| RandomGen.RandomGenerator.RandomInclusive | src/randomgenerator.cpp:18-33 | consumes exactly one raw value; returns that value's mapping into the range, within both bounds |
| Csv.Joined | src/csvwriter.cpp:33-48 | a joined record always ends in a newline |
| Csv.JoinedLength | src/csvwriter.cpp:33-48 | the record length is the sum of the field lengths plus one comma per pair of neighbours plus the newline |
| Csv.JoinedEmpty | src/csvwriter.cpp:33-48 | an empty field list gives a record that is just the newline |
| Csv.JoinedShape | src/csvwriter.cpp:33-48 | the record of a non-empty field list starts with its first field |
| Csv.Split | src/csvwriter.cpp:33-48 | splitting at commas, the inverse of joining, always yields at least one field |
| Csv.JoinSplitRoundTrip | src/csvwriter.cpp:33-48 | fields free of commas and newlines come back unchanged when their joined record, minus the newline, is split again |
| Csv.CsvWriter.constructor | src/csvwriter.cpp:7-10 | a writer keeps its path and starts with an empty buffer |
| Csv.CsvWriter.Join | src/csvwriter.cpp:33-48 | the loop's result is exactly the joined record |
| Csv.CsvWriter.Header | src/csvwriter.cpp:13-16 | the header record is appended to the buffer and nothing else changes |
| Csv.CsvWriter.Row | src/csvwriter.cpp:19-22 | the row record is appended; what was written before stays a prefix of the buffer |
| Pool.FirstFitFromRule | src/memoryallocator.cpp:170-200 | the First Fit reference result is the lowest start with enough consecutive free units, or -1 when there is none |
| Pool.FirstFitRule | src/memoryallocator.cpp:170-200 | First Fit over the whole pool meets the first-fit characterisation |
| Pool.FirstFitUnique | src/memoryallocator.cpp:170-200 | the first-fit characterisation has only one solution |
| Pool.RunLen | src/memoryallocator.cpp:252-278 | the length of the free run from a start: all units in it are free, and it stops at a used unit or at the end |
| Pool.RunStartsApart | src/memoryallocator.cpp:252-278 | two distinct free blocks are separated by at least one used unit |
| Pool.RunStartBefore | src/memoryallocator.cpp:390-410 | every free unit lies inside the maximal free block of some block start |
| Pool.BestFitFromRule | src/memoryallocator.cpp:244-285 | the Best Fit reference picks a block start whose run is long enough and shortest among such runs, the lowest one on ties, or -1 |
| Pool.BestFitRule | src/memoryallocator.cpp:244-285 | Best Fit over the whole pool meets the best-fit characterisation |
| Pool.BestFitUnique | src/memoryallocator.cpp:244-285 | the best-fit characterisation has only one solution |
| Pool.WorstFitFromRule | src/memoryallocator.cpp:288-323 | the Worst Fit reference picks a block start whose run is long enough and longest, the lowest one on ties, or -1 |
| Pool.WorstFitRule | src/memoryallocator.cpp:288-323 | Worst Fit over the whole pool meets the worst-fit characterisation |
| Pool.WorstFitUnique | src/memoryallocator.cpp:288-323 | the worst-fit characterisation has only one solution |
| Pool.RunStartFits | src/memoryallocator.cpp:244-285 | a block long enough gives the request enough free units from its start |
| Pool.ScanStep | src/memoryallocator.cpp:252-275 | one step of the left-to-right free-run scan: the trailing run grows or closes, and a run closes exactly when a used unit follows it |
| Pool.ScanEnd | src/memoryallocator.cpp:252-278 | at the end of the scan the trailing run, if any, is the last block, and the blocks seen are exactly the blocks of the pool |
| Pool.RotateAt | src/memoryallocator.cpp:210-215 | Next Fit's index (cursor + k) mod N reads the rotated pool at k |
| Pool.MarkRange | src/memoryallocator.cpp:326-344 | marking sets exactly the units in [start, start+n) that fall inside the pool, and keeps every other unit |
| Pool.FreePlusUsed | src/memoryallocator.cpp:353-372 | every unit is either free or used |
| Pool.CountFreePositive | src/memoryallocator.cpp:365-372 | some unit is free exactly when the free count is positive |
| Pool.RunExistsIffFree | src/memoryallocator.cpp:390-410 | there is a free block exactly when some unit is free |
| Pool.MaxRunFromBounds | src/memoryallocator.cpp:412-433 | the largest-run reference is at least every block's length and is attained by one, or is 0 when there are no blocks |
| Pool.MinRunFromBounds | src/memoryallocator.cpp:435-460 | the smallest-run reference is positive and at most every block's length, is attained by one, or is 0 when there are no blocks |
| Pool.MaxRunUnique | src/memoryallocator.cpp:412-433 | any bound that every block respects and some block attains is the largest run |
| Pool.MinRunUnique | src/memoryallocator.cpp:435-460 | any positive bound below every block and attained by some block is the smallest run |
| AllocatorSpec.Initial | src/memoryallocator.cpp:3-17 | the freshly constructed allocator is well formed: an empty pool with the cursor at 0 |
| AllocatorSpec.Configure | src/memoryallocator.cpp:19-36 | configure yields a well-formed pool of exactly `count` units |
| AllocatorSpec.ConfigureFreesPool | src/memoryallocator.cpp:19-36 | after configure every unit is free, records and counters are zero, the job tag is kept, and the pool is one free block (none if empty) |
| AllocatorSpec.RequiredUnits | src/memoryallocator.cpp:48-49 | the units a request needs: the least r >= 1 with r units covering the bytes |
| AllocatorSpec.Place | src/memoryallocator.cpp:170-323 | the placement chosen by any policy is -1 or a unit index inside the pool |
| AllocatorSpec.Malloc | src/memoryallocator.cpp:43-141 | every malloc keeps the allocator well formed |
| AllocatorSpec.MallocInert | src/memoryallocator.cpp:43-141 | with a non-positive unit size every malloc returns -1 and changes nothing |
| AllocatorSpec.MallocRecords | src/memoryallocator.cpp:43-141 | a success appends one active record (start, units, bytes, current job) and adds the bytes to the required total; a failure returns -1 and changes neither units nor records nor cursor; free counters, pool shape and job tag never change |
| AllocatorSpec.FirstFitPlacement | src/memoryallocator.cpp:43-67 | mallocFF takes the lowest start of enough free units, marks exactly those units with the job, and counts start + units inspected (all N on failure) |
| AllocatorSpec.NextFitPlacement | src/memoryallocator.cpp:70-93 | mallocNF succeeds exactly when some rotation-relative start fits; it returns (cursor + k) mod N, advances the cursor to (start + units) mod N, and on failure leaves cursor and units alone and counts N operations |
| AllocatorSpec.NextFitWrapLosesUnits | src/memoryallocator.cpp:202-242 | a Next Fit run found across the pool's end is marked only up to unit N-1, so the required bytes exceed the allocated bytes |
| AllocatorSpec.BestFitPlacement | src/memoryallocator.cpp:95-117 | mallocBF takes the start of a shortest long-enough block (lowest on ties), marks exactly its units, and counts N operations |
| AllocatorSpec.WorstFitPlacement | src/memoryallocator.cpp:119-141 | mallocWF takes the start of a longest long-enough block (lowest on ties), marks exactly its units, and counts N operations |
| AllocatorSpec.FindActiveFrom | src/memoryallocator.cpp:150-167 | the record search returns the first active record with the given start, and no earlier record matches; or -1 when none matches |
| AllocatorSpec.Free | src/memoryallocator.cpp:143-168 | freeFF keeps the allocator well formed |
| AllocatorSpec.FreeEffect | src/memoryallocator.cpp:143-168 | a negative start changes nothing; otherwise the request is counted, the records up to the first active match (all of them if none) are counted as operations, and that record is deactivated, with its other fields kept, and its units, clamped to the pool, freed; the configuration, job tag, cursor and allocation counters are unchanged |
| AllocatorSpec.SumActiveDeactivate | src/memoryallocator.cpp:374-387 | deactivating an active record lowers the required bytes by exactly its request |
| AllocatorSpec.FreeRequiredBytes | src/memoryallocator.cpp:143-168 | a free that finds its record reduces the required bytes by that record's request, otherwise by nothing |
| AllocatorSpec.CountFreeAllFree | src/memoryallocator.cpp:19-36 | a pool whose units are all free has every unit counted free and none used |
| AllocatorSpec.Accounting | src/memoryallocator.cpp:347-372 | allocated bytes plus free bytes equal the total bytes |
| AllocatorSpec.NoFreeUnitFragments | src/memoryallocator.cpp:390-410 | the fragment count is 0 exactly when there are no free bytes |
| AllocatorSpec.FreeRunBounds | src/memoryallocator.cpp:412-460 | largest and smallest runs are 0 exactly when no unit is free, and the smallest never exceeds the largest |
| AllocatorSpec.FreeBlockBounds | src/memoryallocator.cpp:412-460 | largest and smallest free block sizes are 0 exactly when there are no free bytes, and the smallest never exceeds the largest |
| Allocator.FirstFitStep | src/memoryallocator.cpp:175-197 | one step of First Fit's run counter keeps "no start below here fits" and the trailing-run length |
| Allocator.NextFitFound | src/memoryallocator.cpp:210-227 | when Next Fit's run counter reaches the request, the start it reports, read in the rotated pool, is the first fit there |
| Allocator.FirstFitNone | src/memoryallocator.cpp:198-199 | a scan that ends without reaching the request means no start fits |
| Allocator.BestEnd | src/memoryallocator.cpp:277-278 | the best candidate after the end-of-pool check is the Best Fit reference result |
| Allocator.WorstEnd | src/memoryallocator.cpp:318 | the worst candidate after the end-of-pool check is the Worst Fit reference result |
| Allocator.MaxEnd | src/memoryallocator.cpp:429-432 | the running maximum after the end-of-pool check is the largest run |
| Allocator.MinEnd | src/memoryallocator.cpp:455-459 | the running minimum after the end-of-pool check is the smallest run |
| Allocator.MemoryAllocator.constructor | src/memoryallocator.cpp:3-17 | the new object is in the initial state |
| Allocator.MemoryAllocator.Configure | src/memoryallocator.cpp:19-36 | the object's new state is the configure transition of its old state |
| Allocator.MemoryAllocator.SetCurrentJobId | src/memoryallocator.cpp:38-41 | only the job tag changes |
| Allocator.MemoryAllocator.RequiredUnitsFor | src/memoryallocator.cpp:48-49 | returns the ceiling of bytes over unit size |
| Allocator.MemoryAllocator.RecordAllocation | src/memoryallocator.cpp:52-63 | appends one active record with the current job, and counts one allocation |
| Allocator.MemoryAllocator.MallocFF | src/memoryallocator.cpp:43-67 | the new state and the returned location are those of the First Fit malloc transition |
| Allocator.MemoryAllocator.MallocNF | src/memoryallocator.cpp:70-93 | the new state and the returned location are those of the Next Fit malloc transition |
| Allocator.MemoryAllocator.MallocBF | src/memoryallocator.cpp:95-117 | the new state and the returned location are those of the Best Fit malloc transition |
| Allocator.MemoryAllocator.MallocWF | src/memoryallocator.cpp:119-141 | the new state and the returned location are those of the Worst Fit malloc transition |
| Allocator.MemoryAllocator.FreeFF | src/memoryallocator.cpp:143-168 | the new state is the free transition of the old state |
| Allocator.MemoryAllocator.ScanFirstFit | src/memoryallocator.cpp:170-200 | the loop finds the first-fit start and the number of units it inspects |
| Allocator.MemoryAllocator.AllocateFirstFit | src/memoryallocator.cpp:170-200 | returns the first-fit start, adds the inspected count to the operation counter, and marks exactly the chosen units with the job (nothing on failure) |
| Allocator.MemoryAllocator.ScanNextFit | src/memoryallocator.cpp:202-242 | the wrapping loop finds the Next Fit start and the number of units it examines |
| Allocator.MemoryAllocator.AllocateNextFit | src/memoryallocator.cpp:202-242 | returns the Next Fit start, counts the units examined, marks the chosen units and moves the cursor to (start + units) mod N; on failure neither units nor cursor change |
| Allocator.MemoryAllocator.ScanBestFit | src/memoryallocator.cpp:244-285 | the loop finds the best-fit start, inspecting every unit |
| Allocator.MemoryAllocator.AllocateBestFit | src/memoryallocator.cpp:244-285 | returns the best-fit start, counts N operations and marks exactly the chosen units |
| Allocator.MemoryAllocator.ScanWorstFit | src/memoryallocator.cpp:288-323 | the loop finds the worst-fit start, inspecting every unit |
| Allocator.MemoryAllocator.AllocateWorstFit | src/memoryallocator.cpp:288-323 | returns the worst-fit start, counts N operations and marks exactly the chosen units |
| Allocator.MemoryAllocator.MarkUnitsAllocated | src/memoryallocator.cpp:326-334 | sets the units in the range that lie inside the pool to the current job, and keeps every other unit |
| Allocator.MemoryAllocator.MarkUnitsFree | src/memoryallocator.cpp:336-344 | sets the units in the range that lie inside the pool to free, and keeps every other unit |
| Allocator.MemoryAllocator.GetTotalMemorySize | src/memoryallocator.cpp:347-350 | returns units times unit size |
| Allocator.MemoryAllocator.GetAllocatedMemorySize | src/memoryallocator.cpp:353-363 | the counting loop returns the used units times the unit size |
| Allocator.MemoryAllocator.GetFreeMemorySize | src/memoryallocator.cpp:365-372 | the counting loop returns the free units times the unit size |
| Allocator.MemoryAllocator.GetRequiredMemorySize | src/memoryallocator.cpp:374-387 | the loop returns the sum of the requested bytes of every active record |
| Allocator.MemoryAllocator.GetExternalFragmentationCount | src/memoryallocator.cpp:390-410 | the loop returns the number of maximal free blocks |
| Allocator.MemoryAllocator.GetLargestFreeBlockSize | src/memoryallocator.cpp:412-433 | the loop returns the longest free block times the unit size |
| Allocator.MemoryAllocator.GetSmallestFreeBlockSize | src/memoryallocator.cpp:435-460 | the loop returns the shortest free block times the unit size, 0 if there is none |
| Workload.RangeFacts | src/memorysimulation.cpp:51-60 | the draws lo..hi-1 form a set of exactly hi - lo values |
| Workload.TypeShares | src/memorysimulation.cpp:51-60 | of the 100 possible draws, exactly percentSmall select a small job, percentMedium a medium one, and the rest a large one; percentLarge plays no part |
| Workload.RandomJobShape | src/memorysimulation.cpp:63-102 | a generated job keeps its id and arrival, gets the type its first draw selects, and has that type's run time, code, stack and heap count ranges |
| Workload.HeapElementsFromLength | src/memorysimulation.cpp:119-140 | the nested loops from step t and index i create (runTime - t) * perTime - i elements |
| Workload.HeapElementsFromShape | src/memorysimulation.cpp:119-140 | each created element has the running index as its id, arrives at the job's arrival plus its step and has its size and lifetime in range |
| Workload.HeapElementsFor | src/memorysimulation.cpp:105-141 | the routine creates the number of elements the guards, the cap and perTime allow |
| Workload.HeapElementsShape | src/memorysimulation.cpp:119-140 | every created element belongs to the job, arrives during its run, is 20..50 bytes and lives 1..runTime |
| Workload.HeapCountOfShape | src/memorysimulation.cpp:110-116 | for the three job shapes, below the cap, exactly heapElementCount elements are created, at most 650 |
| Workload.GenerateStep | src/memorysimulation.cpp:170-193 | one arrival iteration keeps the generated workload well formed |
| Workload.GenerateFromFacts | src/memorysimulation.cpp:170-193 | the arrival loop keeps the workload well formed and stops at an arrival at or after 2000 |
| Workload.JobCountBound | src/memorysimulation.cpp:166-192 | job k arrives no earlier than 1 + 3k, so at most 667 jobs arrive before time 2000 |
| Workload.Generate | src/memorysimulation.cpp:144-194 | the workload is well formed: ids are indices, jobs have their shapes, every element names an existing job; there are at most 667 jobs, and the loop stopped at the first arrival at or after 2000 |
| Workload.GenerateStart | src/memorysimulation.cpp:163-168 | the first arrival, drawn from 1..5, opens the loop |
| Workload.GenerateDone | src/memorysimulation.cpp:170 | an arrival at or after 2000 ends generation without creating another job |
| Workload.IterateFrom | src/memorysimulation.cpp:170-193 | one iteration appends the job and its elements and draws the next arrival 3..7 after the base time |
| Events.JobEvents | src/memorysimulation.cpp:213-232 | two events per job |
| Events.HeapEvents | src/memorysimulation.cpp:234-252 | two events per heap element |
| Events.JobEventsAt | src/memorysimulation.cpp:213-232 | job k contributes its arrival at position 2k and its departure at 2k + 1 |
| Events.HeapEventsAt | src/memorysimulation.cpp:234-252 | element k contributes its allocation at position 2k and its free at 2k + 1 of the heap part |
| Events.EmittedFrom | src/memorysimulation.cpp:211-252 | every emitted event is one of the four events of a job or element, at a position that identifies it |
| Events.EmittedRefs | src/memorysimulation.cpp:211-252 | every event of a generated workload names a job or element that exists, with positive request sizes |
| Events.ExchangeSortCorrect | src/memorysimulation.cpp:254-271 | the exchange sort yields a list in (time, event type) order that is a permutation of its input |
| Events.ExchangeSortNotStable | src/memorysimulation.cpp:254-271 | the swap test alone does not keep equal events in order: two tied arrivals end up reversed |
| Events.LastIsLatest | src/memorysimulation.cpp:575 | in a sorted list the last event has the latest time |
| Events.SortedRefs | src/memorysimulation.cpp:254-271 | sorting keeps every event, so the lookups stay valid |
| Events.ExchangeSortInPlace | src/memorysimulation.cpp:254-271 | the nested swap loops leave the array equal to the exchange sort of its old contents |
| Metrics.SamplesBelowClosed | src/memorysimulation.cpp:620-626 | the times below n taken as sample times number (n - 2001) / 200 + 1 once n exceeds 2000, else none |
| Metrics.PercentBounds | src/memorysimulation.cpp:638-642 | a part of a whole is 0..100 percent, 100 for the whole and 0 for nothing |
| Metrics.InternalBounds | src/memorysimulation.cpp:646-652 | the internal fragmentation percentage is never negative, is 0 when required covers in-use, and is at most 100 |
| Metrics.InUsePlusFree | src/memorysimulation.cpp:638-642 | with truncation the in-use and free percentages of a pool sum to 99 or 100 |
| Metrics.SampleBounds | src/memorysimulation.cpp:629-673 | every sample of a well-formed allocator has percentages in range, and in-use plus free makes 99 or 100 |
| Metrics.PeaksAreMaxima | src/memorysimulation.cpp:654-661 | the running peaks bound every sample and are attained by one of them (or are 0) |
| Metrics.AccumulateOk | src/memorysimulation.cpp:654-661 | adding a sample keeps the in-use sum at most count times the peak |
| Metrics.AverageBelowPeak | src/memorysimulation.cpp:861-868 | the average in-use percentage is between 0 and the peak, and 0 with no samples |
| Replay.Quad.Set | src/memorysimulation.cpp:300-523 | updating one policy's entry changes that entry and leaves the other three |
| Replay.CountsAppend | src/memorysimulation.cpp:275-296 | success rows and free rows of a log add up over concatenation |
| Replay.FreeHeld | src/memorysimulation.cpp:376-426 | freeing a held location keeps the allocator well formed |
| Replay.LaneEvent | src/memorysimulation.cpp:308-521 | one event on one policy keeps the lane's tables sized to the workload |
| Replay.HeldExtends | src/memorysimulation.cpp:300-523 | a location held by a record stays held as records are appended or deactivated |
| Replay.MallocBook | src/memorysimulation.cpp:316-351 | a malloc returns -1 or a unit, counts itself exactly on success, keeps earlier record starts, and leaves its location held |
| Replay.FreeBook | src/memorysimulation.cpp:376-426 | a free counts one request exactly for a held location and keeps records and allocation count |
| Replay.TablesHeldExtends | src/memorysimulation.cpp:300-523 | tables of held locations stay held as the allocator extends its records |
| Replay.ExtendsTrans | src/memorysimulation.cpp:300-523 | extending the records is transitive |
| Replay.OnArriveOk | src/memorysimulation.cpp:310-351 | the arrival of a job appends two rows stamped t, one per malloc; the records' balance with the log is kept; the shape is unchanged; the tables stay held |
| Replay.AllocRowsAppend | src/memorysimulation.cpp:275-284 | the two allocation rows of an arrival extend the log by exactly two rows stamped t, keep its prefix, add one success per location obtained and no free row |
| Replay.FreeRowsAppend | src/memorysimulation.cpp:287-296 | a held free appends one free row stamped t, none for -1 |
| Replay.OnDepartOk | src/memorysimulation.cpp:353-426 | the departure of a job appends at most two free rows stamped t, one per held location, keeping both balances and the held tables |
| Replay.OnHeapAllocOk | src/memorysimulation.cpp:430-480 | a heap allocation appends one row, counts the element only on success and keeps the balances |
| Replay.OnHeapFreeOk | src/memorysimulation.cpp:483-521 | a heap free appends a row only for a held location, clears the slot and keeps the balances |
| Replay.LaneEventFacts | src/memorysimulation.cpp:308-521 | every event step keeps the lane invariant: at most two rows stamped t, balances, heap counter bound, shape and held tables |
| Replay.TickFrom | src/memorysimulation.cpp:300-523 | the event scan keeps the lane sized to the workload |
| Replay.Tick | src/memorysimulation.cpp:300-523 | a tick keeps the lane sized to the workload |
| Replay.AtTime | src/memorysimulation.cpp:304-308 | the events handled at time t are exactly the listed events with that time |
| Replay.ApplyAll | src/memorysimulation.cpp:300-523 | applying a list of events keeps the lane sized |
| Replay.TickIsFiltered | src/memorysimulation.cpp:300-523 | scanning the whole list and skipping other times equals applying, in order, just the events of time t |
| Replay.TickFacts | src/memorysimulation.cpp:300-523 | over a whole tick the log only grows, the balances, heap counter bound, shape and held tables persist |
| Replay.EventAll | src/memorysimulation.cpp:308-521 | one event applied to all four policies keeps every lane sized |
| Replay.TickAllFrom | src/memorysimulation.cpp:300-523 | the scan over all four policies keeps every lane sized |
| Replay.TickAllFromZero | src/memorysimulation.cpp:300-523 | before the first event nothing has changed |
| Replay.TickAllFromStep | src/memorysimulation.cpp:300-523 | handling one more event applies it to all four policies exactly when its time is t |
| Replay.TickAllFromAll | src/memorysimulation.cpp:300-523 | the full scan is the tick of all four policies |
| Replay.StepTime | src/memorysimulation.cpp:622-823 | one time step keeps the world sized and well formed |
| Replay.ReplayUpTo | src/memorysimulation.cpp:620-825 | the time loop keeps the world sized and well formed |
| Replay.StepTimeRows | src/memorysimulation.cpp:626-823 | a step samples exactly at sample times: one more sample, four summary rows stamped t labelled FF, NF, BF, WF in that order, appended |
| Replay.StepTimeAccs | src/memorysimulation.cpp:654-821 | the samples keep every accumulator fitting the sample count |
| Replay.ReplayCounts | src/memorysimulation.cpp:620-825 | over times 0..n-1 the sample count grows by the number of sample times, four summary rows are written per sample, and the summary only grows |
| Replay.ReplayAccs | src/memorysimulation.cpp:620-825 | the accumulators fit the sample count throughout the loop |
| Replay.EndTime | src/memorysimulation.cpp:575-580 | the loop's end time is at least 2000 |
| Replay.TickAllHeap | src/memorysimulation.cpp:436-444 | over one tick each lane's heap counter does not fall and grows by at most its allocator's allocation count |
| Replay.StepTimeHeap | src/memorysimulation.cpp:436-444 | over one time step, sample included, each lane's heap counter does not fall and grows by at most its allocator's allocation count |
| Replay.ReplayHeap | src/memorysimulation.cpp:436-444 | over times 0..n-1 each lane's heap counter does not fall and grows by at most its allocator's allocation count |
| Replay.FinalHeapCounts | src/memorysimulation.cpp:902-903 | in the final statistics of a replay over fresh allocators, each policy's number of heap allocations lies between 0 and its number of allocations |
| Replay.EndTimeCovers | src/memorysimulation.cpp:575-580 | over sorted events the end time is at or after every event's time, so the loop reaches every event |
| Simulation.NegOnesStep | src/memorysimulation.cpp:135-138 | pushing -1 onto a table of -1 gives the longer table of -1 |
| Simulation.PushJobReset | src/memorysimulation.cpp:147-184 | pushing a job's slots onto reset tables gives the reset tables for one more job |
| Simulation.PadHeapsStep | src/memorysimulation.cpp:135-138 | pushing one heap slot per policy extends the padding by one |
| Simulation.PadHeapsReset | src/memorysimulation.cpp:135-138 | padding reset tables with k heap slots gives the reset tables for k more elements |
| Simulation.ElementStep | src/memorysimulation.cpp:123-139 | appending the next element moves it from the remaining loop output to the elements created |
| Simulation.MallocOn | src/memorysimulation.cpp:316-335 | dispatching on the policy gives that policy's malloc transition |
| Simulation.ArriveOn | src/memorysimulation.cpp:310-351 | the job-arrival code for one allocator follows the lane's arrival step |
| Simulation.DepartOn | src/memorysimulation.cpp:353-426 | the job-departure code for one allocator follows the lane's departure step |
| Simulation.HeapAllocOn | src/memorysimulation.cpp:430-480 | the heap-allocation code for one allocator follows the lane's allocation step |
| Simulation.HeapFreeOn | src/memorysimulation.cpp:483-521 | the heap-free code for one allocator follows the lane's free step |
| Simulation.SampleOn | src/memorysimulation.cpp:629-673 | the metric calls and percentage arithmetic give the sample row of the allocator's state |
| Simulation.FinalOn | src/memorysimulation.cpp:829-911 | the getter calls, averages, total operations and the simulation's heap counters give the final statistics of the allocator's state |
| Simulation.MemorySimulation.constructor | src/memorysimulation.cpp:6-27 | the default configuration, a generator at the start of its stream, four allocators in their initial state |
| Simulation.MemorySimulation.Configure | src/memorysimulation.cpp:35-40 | stores the configuration, reseeds, and configures the four allocators with their names |
| Simulation.MemorySimulation.InitializeAllocators | src/memorysimulation.cpp:43-49 | each allocator is configured with the configured unit size and count and its policy's name |
| Simulation.MemorySimulation.ChooseJobType | src/memorysimulation.cpp:51-60 | one draw in 1..100 selects the type by the configured shares |
| Simulation.MemorySimulation.CreateRandomJob | src/memorysimulation.cpp:63-102 | four draws build the job the generation function describes |
| Simulation.MemorySimulation.CreateHeapElementsForJob | src/memorysimulation.cpp:105-141 | appends exactly the elements the generation function describes, two draws each, with one -1 slot per element in each policy's table |
| Simulation.MemorySimulation.CreateHeapElementsAt | src/memorysimulation.cpp:119-140 | the remaining steps of the nested loops append the described elements |
| Simulation.MemorySimulation.CreateHeapElement | src/memorysimulation.cpp:125-138 | appends one element with the next index, two draws for size and lifetime, and a -1 slot per policy |
| Simulation.MemorySimulation.BuildJobsAndHeapElements | src/memorysimulation.cpp:144-194 | the jobs, elements and draws consumed are those of the generation function, with tables of -1 sized to them |
| Simulation.MemorySimulation.ArrivalLoop | src/memorysimulation.cpp:170-193 | the arrival loop produces what the generation function produces from its state |
| Simulation.MemorySimulation.ArriveNext | src/memorysimulation.cpp:172-192 | one arrival adds one job and draws the next arrival 3..7 after the base time |
| Simulation.MemorySimulation.BuildEvents | src/memorysimulation.cpp:197-272 | the events are the emitted events in exchange-sort order; for a generated workload every event's lookups exist |
| Simulation.MemorySimulation.ArriveLane | src/memorysimulation.cpp:310-351 | one policy's lane takes the arrival step; the others and the pools stay |
| Simulation.MemorySimulation.ArriveAll | src/memorysimulation.cpp:310-351 | all four lanes, FF, NF, BF, WF, take the arrival step |
| Simulation.MemorySimulation.DepartLane | src/memorysimulation.cpp:353-426 | one policy's lane takes the departure step |
| Simulation.MemorySimulation.DepartAll | src/memorysimulation.cpp:353-426 | all four lanes take the departure step |
| Simulation.MemorySimulation.HeapAllocLane | src/memorysimulation.cpp:430-480 | one policy's lane takes the heap allocation step |
| Simulation.MemorySimulation.HeapAllocAll | src/memorysimulation.cpp:430-480 | all four lanes take the heap allocation step |
| Simulation.MemorySimulation.HeapFreeLane | src/memorysimulation.cpp:483-521 | one policy's lane takes the heap free step |
| Simulation.MemorySimulation.HeapFreeAll | src/memorysimulation.cpp:483-521 | all four lanes take the heap free step |
| Simulation.MemorySimulation.ApplyEvent | src/memorysimulation.cpp:305-522 | one event is applied to all four lanes by its type |
| Simulation.MemorySimulation.ProcessEventsAtTime | src/memorysimulation.cpp:300-523 | the lanes become the tick of the old lanes at the given time |
| Simulation.MemorySimulation.TakeSample | src/memorysimulation.cpp:626-822 | the world takes one sample of all four allocators |
| Simulation.MemorySimulation.SampleRows | src/memorysimulation.cpp:629-818 | the four rows are the samples of the four allocators |
| Simulation.MemorySimulation.StartRun | src/memorysimulation.cpp:525-555 | generation and the sorted events as specified, accumulators and counters reset, allocators untouched |
| Simulation.MemorySimulation.ResetRun | src/memorysimulation.cpp:527-551 | the sample count, sums and peaks are zero and every table slot is -1 |
| Simulation.MemorySimulation.TickLoop | src/memorysimulation.cpp:620-825 | the loop over times 0..endTime leaves the world equal to the replay of that many steps |
| Simulation.MemorySimulation.TickOnce | src/memorysimulation.cpp:622-823 | one iteration is one replay step, with the sample taken at sample times |
| Simulation.MemorySimulation.FinalStatistics | src/memorysimulation.cpp:829-883 | the four final statistics blocks of the current world |
| Simulation.MemorySimulation.Simulate | src/memorysimulation.cpp:575-883 | the loop runs to the end time, and the statistics are the final ones of the replayed world |
| Simulation.MemorySimulation.EndTimeOfEvents | src/memorysimulation.cpp:575-580 | the last event's time, at least 2000 |
| Simulation.MemorySimulation.Run | src/memorysimulation.cpp:525-883 | the run generates what the generation function describes, sorts its events, replays them from fresh tables to the end time, and returns the final statistics of that world |

## Left out

- The random engine (`rngGenerator`, seeded by an unsigned seed) is outside this model. Its raw values are a finite sequence of naturals read at a moving position, and reading past the end yields 0.
  - The constructor's stream stands for the sequence seed 123 yields.
  - `Configure` and `Reseed` take the stream for the configured seed.
- Console output is not modelled: the configuration print-out in `run` and the final statistics print-out. The values printed per policy, the heap counters and total operations among them, are the fields of `FinalStats`.
- The CSV files are not modelled.
  - `CsvWriter.close` writes the buffer to disk and is left out.
  - The simulation keeps its per-policy logs as `LogRow` values and its summary as `SampleRow` values, rather than as CSV text.
  - The CSV header rows written in `run` are therefore not part of the world either.
- Test name and file paths are configuration text only; they are not modelled.
- `percentLarge` is never read by job selection; large jobs take whatever share is left over (see `Workload.TypeShares`).
- The failed-allocation counter is declared but never maintained, so it is not modelled.
- The dead `lastEventTime` computation at the top of `buildEvents` is left out; it has no effect.
- Integer width is not modelled.
  - Values are unbounded integers: the 32-bit `int` and `unsigned` overflow the C++ could reach with extreme configurations is not modelled.
  - Truncating `/` and `%` are modelled explicitly.
- Allocator.MemoryAllocator.MallocFF: requires `sizeBytes > 0` (likewise `MallocNF`, `MallocBF`, `MallocWF`).
  - For a zero or negative size, C++ integer division would give a zero or negative unit count.
  - Every caller requests a positive size: code, stack and heap sizes are drawn from ranges starting at 20.
- Allocator.MemoryAllocator.Configure: requires a unit count of at least 0, because resizing a vector to a negative count fails in C++.
- Simulation.MemorySimulation.Configure: requires `cfg.memoryUnitCount >= 0`, for the same reason: it configures the four allocators with that count.
- Simulation.MemorySimulation.InitializeAllocators: requires `config.memoryUnitCount >= 0`, for the same reason.
- The four counter getters (`getNumberOfAllocations` and the other three) are plain field reads.
  - They are not separate members.
  - The final statistics read those fields directly.
- Events are kept as a sequence field. `BuildEvents` sorts them in a local array with the in-place exchange sort, then stores the result.
- Each `allocate…` member is split in two: a read-only scan (`Scan…`) and the update (`Allocate…`).
  - The C++ marks the units and returns from inside the loop.
  - The final state and the returned value are the same.
- `ResetRun` resets the counters after the workload is built rather than before.
  - The two sets of fields are disjoint, so the resulting state is the same.
- Simulation.MemorySimulation.Run: does not state the generator's final position; `StartRun` does.
- The copy-pasted per-policy blocks of `processEventsAtTime` and `run` are modelled once.
  - Each block is one member taking the policy as a parameter (`…On`, `…Lane`).
  - A four-way member applies it to First Fit, Next Fit, Best Fit and Worst Fit in the source's order.
  - The heap-free block is processed lane by lane in the same order. The policies share no state, so the order does not change the result.
- Events whose type is not 0..3 change nothing, as in the source. Generated events never have such a type.
