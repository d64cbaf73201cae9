# Verified models of cc-lib

This project models parts of cc-lib, the shared library of ClusterCockpit, and proves what its callers rely on. Each
module below stands for one component; state that the library changes in place is modelled by classes and loops, and
concurrency by step systems that cover every interleaving.

| files | component |
|---|---|
| `CacheState`, `CacheEviction`, `CacheHeap` | the LRU cache: its critical sections as functions of an abstract state, the eviction policy, and a heap with real `next`/`prev` pointers that refines both |
| `CacheMachine`, `CacheTheorems`, `CacheHistory` | the same cache used by any number of goroutines at once, and what its runs leave behind |
| `CacheSimulation` | the pointer cache serving any interleaving of requests, as a run of that machine |
| `FlushProtocol`, `FlushTheorems`, `FlushLimits`, `FlushClose`, `FlushTimers` | the buffering of the InfluxDB and the HTTP sink: encoder lock, timer lock, flush timer, how far its promises reach, what `Close` achieves, and what an armed timer means |
| `Resampler` (with `Floats`) | the three downsampling algorithms |
| `Numerals`, `Names`, `HostGrammar`, `Hostlist` | expansion of compact host lists |
| `Counting`, `Topology` | lookup tables of a node's hardware topology and the exclusivity queries |
| `Statistics`, `JobMetrics`, `NodeScope` | median, statistics series, percentiles and aggregation to node scope |
| `MessageView`, `ProcessorRuns`, `Processor` | the message processor: rules as edits of values, whole runs, and the methods on shared maps |
| `RuleEffects` | what each rule, stage and unit conversion does to a message, map by map |
| `Units`, `ProcessorUnits` | reading, printing and converting units, and the unit stages of the message processor with that package |
| `Options`, `Sets` | optional values and facts about finite sets |

To verify: `dafny verify dfyconfig.toml`.

## How the models are built

- **Cache.** `CacheState` gives every critical section as a function on a state with a map, a recency list, sizes and
  waiting counters. The methods of `CacheHeap.Cache` change real pointers and are proved equal to those functions.
  `CacheMachine` runs the same functions as atomic steps of goroutines: enter, wake, finish a computation, delete, walk,
  on entries of any type. With the entry objects for that type `CacheSimulation.Interleave` serves requests of any
  number of goroutines on the heap, section by section, and is a run of the machine; the theorems about runs so hold of
  the pointers. The step of a goroutine that makes no entry names an entry object all the same, which it does not use.
  `Get` and `Put` are cut where they wait or compute, so each is several methods: `GetEnter`, `GetResume`, `GetFinish`
  and `PutEnter`, `PutResume`. The value that `Get` returns is read in the same step as the unlock before it. A closure
  is taken to return, and `now` plus the time to live is taken not to be the zero time. The state between computing and
  finishing is any reachable one, since other goroutines run meanwhile.
- **Sinks.** One step is one stretch of code between two accesses to shared variables. Messages are neither dropped nor
  refused by the encoder. `log` and `taken` only record what was encoded and what the flushes took.
- **Samples** are exact reals or NaN. The bucket boundaries of the largest-triangle algorithm are floors of multiples
  that may be off by less than one half, which rounding never exceeds for series that fit in memory.
- **Map iteration** is a free choice in every loop over a Go map; where an order is recorded, it is a ghost result.
- **Conditions** of processor rules are arbitrary functions of the message, the environment and the fixed variables, and
  may fail.

## What does not hold

These properties fail in the code as it is. Each has a lemma with a concrete run or input, or an exact condition.

- Both sinks can leave a record in the encoder with no timer armed (`FlushLimits.RecordStranded`). All runs are free of
  this exactly if there is no delay, or nobody writes, or the sink is the InfluxDB sink with a batch size of 1
  (`FlushLimits.NeverStrandsExactly`); a given run leaves a record exactly when a `Write` has found `timerLock` held by a
  callback that had already emptied the encoder (`FlushTheorems.StrandedExactly`).
- The InfluxDB sink can hold any number of records more than its batch size (`FlushLimits.Overgrow`): its runs stay
  within a batch exactly if nobody writes, or, for a positive batch size, one goroutine writes or there is no delay and
  no more goroutines write than a batch has records (`FlushLimits.BatchExactly`).
- The HTTP sink can make a second timer. A `Close` with no writer active always empties the encoder
  (`FlushClose.CloseFlushes`), but leaves no timer armed exactly under the same condition as below
  (`FlushClose.CloseDisarmsExactly`). All runs of a sink have one timer, which `flushTimer`
  names at rest, exactly if it is the InfluxDB sink, or there is no delay, or one goroutine writes
  (`FlushLimits.OneTimerExactly`).
- `Put` evicts nothing: for every limit two calls exceed it (`CacheHistory.PutExceeds`). It records its size exactly if
  the key was there or the size is 0, and meets the limit exactly if the memory before, with the size of an overwritten
  entry replaced, does (`CacheHistory.PutMemory`). At the end of a computing `Get` the limit is met or what could still
  go has waiters (`CacheTheorems.LimitAfterFinish`).
- A negative old frequency makes the resamplers allocate a negative length (`Resampler.PanicsExactly`). For a resampled
  length of 1 the largest-triangle algorithm returns two points, and for 3 its middle point is always the sample before
  the last (`Resampler.ThreePoints`). Its documentation gives 100 as the length below which data is left alone; the code
  uses a variable that starts at 1000.
- The host list documentation promises that trailing commas and spaces are trimmed; any delimiters behind a valid list
  make it an error (`Hostlist.TrailingDelimiters`).
- The expansion never ends exactly if the first item that is not acceptable is a range up to the largest 64-bit number
  with fitting padding, whatever follows it (`Hostlist.ExpansionEndless`); `n[18446744073709551615-18446744073709551615]`
  is such an input (`Hostlist.EndlessList`). The counter of such a loop wraps and stays within its guard forever
  (`Hostlist.LoopNeverEnds`).
- The exclusive flag of the topology queries is right for all topologies exactly if no id is repeated
  (`TopologyIndex.FlagRightExactly`); with a repeated id it can be wrong both ways (`TopologyIndex.RepeatedIdDenies`,
  `TopologyIndex.RepeatedIdMisleads`). Before the tables are built the answer is no group, and true, which is
  right exactly if the ids are in no group (`TopologyIndex.UnbuiltRightExactly`).
- The flag of `GetSocketsFromCores` does not always speak of hardware threads as its documentation says. Cores said to
  have their sockets have all threads, in every query, exactly if all threads of sockets with cores are in cores
  (`TopologyIndex.Topology.ExclusiveHoldsExactly`). Cores with all threads are said to have their sockets, in every query,
  exactly if no core is spare (`HeldIsExclusiveExactly`): of any sockets, a core that touches one of them has a thread
  that the other cores, as far as they touch no further sockets, do not have. If no core is in two sockets and all threads are in cores, that is to say that
  every core has a thread of its own (`SpareHasNoThread`). `SocketFlagWrong` names a topology for each failure.
- The median counts a missing sample as 0, so it can leave the interval from minimum to maximum
  (`JobMetrics.MedianBounds` says exactly when). `AddPercentiles` panics for three series without statistics
  (`JobMetrics.JobMetric.AddPercentiles`).
- `AddNodeScope` depends on map order when two scopes are unknown and none is known (`NodeScope.OrderMatters`). The
  documentation puts accelerators on the level of hardware threads; the code puts them below (`NodeScope.Hierarchy`).
- The environment of the message processor differs from the message when a tag or meta key mentions `type-id`
  (`MessageView.InitialMirror`), after normalizing exactly if a readable unit is a tag
  (`ProcessorUnits.NormalizingMirror`), and after a conversion exactly if one takes place, unless the unit is in the meta
  data and has the wanted prefix (`ProcessorUnits.ConversionMirror`).
- The message type depends on map order unless all fields are of one type (`MessageView.TypeDetermined`). Whether a
  message is dropped by its type then depends on it too, exactly if the types of its fields are not all dropped or all
  kept (`ProcessorRuns.DropDetermined`); a metric with any further field is an example (`ProcessorRuns.MetricByChance`).
- A field that cannot be deleted can be moved away: it stays in every run over given stages exactly if none of them moves
  fields (`ProcessorRuns.ProtectedExactly`).
- Units in millionths and billionths print in a form that is not read back; others are read back up to the corrections
  of their prefix (`Units.ShortReads`), exactly the writable ones unchanged (`Units.ShortParses`).
- `INVALID_UNIT` is a valid unit: its text reads as flops (`Units.InvalidUnitValid`). So the unit that
  `GetUnitPrefixFactor` returns does not tell a refusal, only the missing function does (`Units.RefusalLooksValid`).

## Model

| member | source | states |
|---|---|---|
| CacheHeap.Cache.InsertFront | lrucache/cache.go:423-435 | the pointers change so that the list, read from head to tail, is the old one with the entry in front |
| CacheHeap.Cache.Bypass | lrucache/cache.go:442-450 | the neighbours of an entry are joined: the chain skips exactly that entry in both directions |
| CacheHeap.Cache.UnlinkEntry | lrucache/cache.go:438-451 | the list loses exactly the entry, wherever it stands; map, sizes and other entries stay |
| CacheHeap.Cache.EvictEntry | lrucache/cache.go:455-465 | refuses exactly an entry with waiters; otherwise the entry leaves list and map and its size is given back |
| CacheHeap.Cache.GetPresent | lrucache/cache.go:202-223 | a completed entry: expired and evicted, or returned and moved to the front; the panic about an entry that should have been waited for cannot fire |
| CacheHeap.Cache.GetEnter | lrucache/cache.go:192-230 | the pointer code of the first critical section equals the abstract one, keeps the cache valid and does not panic |
| CacheHeap.Cache.GetResume | lrucache/cache.go:196-230 | the same for the section after waiting |
| CacheHeap.Cache.Land | lrucache/cache.go:248-262 | storing a computed value lists the entry, adds its size and broadcasts exactly if someone else waits |
| CacheHeap.Cache.EvictLoop | lrucache/cache.go:267-275 | the pointer walk from the tail equals the abstract eviction loop, although it unlinks entries while it walks |
| CacheHeap.Cache.GetFinish | lrucache/cache.go:245-278 | the end of a computing Get: store, list, count, evict |
| CacheHeap.Cache.PutEnter | lrucache/cache.go:298-326 | Put up to a wait: overwrites and moves to the front, or makes an entry of size 0 |
| CacheHeap.Cache.PutResume | lrucache/cache.go:303-317 | Put after waiting: overwrites, with the difference in size accounted for |
| CacheHeap.Cache.Del | lrucache/cache.go:344-352 | reports true exactly if the key was there and nobody waited, and then it is gone |
| CacheHeap.Cache.LinksAgree | lrucache/cache.go:389-399 | in a valid cache the neighbours of every entry point back to it |
| CacheHeap.Cache.EndsAgree | lrucache/cache.go:409-419 | in a valid cache head and tail are both nil or both proper ends |
| CacheHeap.Cache.Keys | lrucache/cache.go:371-420 | for every order of the walk: evicts exactly the expired entries without waiters, calls back on the others, and none of the sanity panics fires |
| CacheEviction.TrimInv | lrucache/cache.go:267-275 | the eviction loop keeps all cache invariants and never removes an entry with waiters |
| CacheEviction.TrimEvictsVictims | lrucache/cache.go:267-275 | the loop removes exactly the disposable entries for which the less recently used disposable ones do not free enough |
| CacheEviction.EvictionPolicy | lrucache/cache.go:264-275 | the policy as a whole: who goes if no size is negative; for any sizes, that order is kept, that nothing goes under the limit, nor an entry with waiters or of size 0 in time, and that afterwards the limit is met or nothing left could go |
| CacheEviction.LeastRecentFirst | lrucache/cache.go:267-275 | no disposable entry less recently used than an evicted one survives |
| CacheEviction.TrimLimit | lrucache/cache.go:268-275 | a walk that ends over the limit refused every entry it left |
| CacheEviction.WalkEnd | lrucache/cache.go:377-407 | when Keys has visited every key, its count is the used memory and the state is the swept one |
| CacheEviction.SweepExactly | lrucache/cache.go:378-387 | the walk of Keys takes out a key if and only if its entry is past its time and nobody counts on it |
| CacheEviction.DelExactly | lrucache/cache.go:344-352 | Del succeeds if and only if the key is there and nobody counts on its entry, and what it changes |
| CacheState.GetEnterInv | lrucache/cache.go:192-230 | the first section of Get keeps map, list, counters and memory in step |
| CacheState.CompleteInv | lrucache/cache.go:248-262 | so does storing a computed value |
| CacheState.PutEnterInv | lrucache/cache.go:302-326 | so does Put |
| CacheState.PutResumeInv | lrucache/cache.go:303-317 | so does Put after waiting |
| CacheState.SweepInv | lrucache/cache.go:378-387 | so does the eviction of expired entries in Keys |
| CacheMachine.StepSafe | lrucache/cache.go:189-420 | every enabled step of every goroutine keeps the cache invariants, the counters, the plain-map reading and the recency order |
| CacheTheorems.AlwaysSafe | lrucache/cache.go:189-420 | all of that holds in every state of every run from the empty cache |
| CacheTheorems.Extend | lrucache/cache.go:189-420 | runs are never stuck for a reason outside the model: every enabled action extends a run |
| CacheTheorems.SingleFlight | lrucache/cache.go:225-246 | two goroutines never compute the same key at once |
| CacheTheorems.CountsExact | lrucache/cache.go:196-199 | a remark on the invariant: the counter of an entry is its owner, if in flight, plus the goroutines waiting; an entry with a count stays in the map |
| CacheTheorems.NoLostWakeup | lrucache/cache.go:253-259 | whoever sleeps waits for an entry whose owner is computing and can finish |
| CacheTheorems.FinishWakes | lrucache/cache.go:253-259 | finishing wakes every sleeper of the entry |
| CacheTheorems.NoDeadlock | lrucache/cache.go:189-352 | while some call has not returned, some call can go on |
| CacheTheorems.EnterReturnsLatest | lrucache/cache.go:192-223 | a Get that does not compute returns the latest value of its key; it computes only if the key is absent, or expired with nobody waiting |
| CacheTheorems.WakeReturnsLatest | lrucache/cache.go:196-223 | the same after waiting |
| CacheTheorems.StoredIsLatest | lrucache/cache.go:248-352 | a remark on the step system: which actions change the recorded latest values, and how |
| CacheHistory.LatestRecorded | lrucache/cache.go:248-352 | in every run the record of a key has the value and the expiration of the last finished computation or Put of it, unless a successful Del came later |
| CacheHistory.EntryIsLatest | lrucache/cache.go:248-317 | in every run every complete entry has the value and the expiration that its key was last given, also by a Put that waited |
| CacheHistory.GetReturnsExactly | lrucache/cache.go:196-230 | in every run a Get that finds its key complete returns without computing if and only if it is not later than the expiration last given, or another goroutine counts on the entry; with which value, and what happens otherwise |
| CacheHistory.GetReturnsLatest | lrucache/cache.go:192-223 | in every run a Get that does not compute returns the value of the last finished computation or Put of its key, with no successful Del since |
| CacheTheorems.AlwaysSizes | lrucache/cache.go:250-261 | with non-negative sizes given, no entry of any run has a negative size |
| CacheTheorems.LimitAfterFinish | lrucache/cache.go:261-275 | when a computing Get ends, the limit is met or every listed entry of positive size or past its time has waiters; only such entries without waiters are gone, and none under the limit; and if no size is negative, exactly the victims are gone |
| CacheHistory.PutMemory | lrucache/cache.go:302-326 | when a Put is done: whose size is recorded, how the memory changed, exactly when it meets the limit, and that every key stays |
| CacheHistory.PutExceeds | lrucache/cache.go:302-326 | for every limit a run of two Puts of one key that exceeds it |
| CacheSimulation.Serve | lrucache/cache.go:189-420 | serving one request on the heap is the step of the machine that serves it, and the caller gets the reply of that step |
| CacheSimulation.Interleave | lrucache/cache.go:189-420 | serving any sequence of requests on the heap is a run of the machine with one step and one reply for each request that fits, so every theorem about runs holds of the pointers |
| CacheSimulation.ReplyIsLatest | lrucache/cache.go:192-223 | a value that a Get returns on the heap without computing it is that of the last finished computation or Put of its key |
| CacheSimulation.ReplyExactly | lrucache/cache.go:196-230 | exactly what a Get on the heap gets to see that finds its key complete, and that a computing Get gets its value |
| FlushProtocol.EncoderStep | sinks/influxSink.go:248-384 | every step keeps the encoder lock with the goroutine that the code says holds it |
| FlushProtocol.TokenStep | sinks/influxSink.go:342-361 | every step keeps the timer token with exactly one holder or one armed timer |
| FlushProtocol.RecordStep | sinks/influxSink.go:248-384 | every step keeps flushed plus buffered records equal to the encoded ones, in order |
| FlushProtocol.PromiseStep | sinks/influxSink.go:325-361 | every step keeps a flush ahead for a non-empty encoder unless a writer was refused by a spent callback |
| FlushTheorems.AlwaysInv | sinks/influxSink.go:248-428 | these hold in every reachable state of both sinks |
| FlushTheorems.TokenExact | sinks/httpSink.go:97-121 | timerLock is held exactly by one goroutine before arming or after Stop, by an armed timer, or by its callback, and these exclude one another |
| FlushTheorems.UnlocksHeld | sinks/influxSink.go:323-334 | neither lock is ever unlocked while free, nor the encoder by another goroutine, the early unlocks of the InfluxDB sink included |
| FlushTheorems.NoDeadlock | sinks/influxSink.go:248-428 | the two locks never block everyone |
| FlushTheorems.NothingLost | sinks/influxSink.go:369-384 | in every run the flushed buffers in order followed by the encoder are the encoded records, and the counter counts the buffer |
| FlushTheorems.StrandedExactly | sinks/influxSink.go:342-366 | at rest records are left behind if and only if a writer was refused by a callback that had already emptied the encoder |
| FlushTheorems.AlwaysBatch | sinks/influxSink.go:330-341 | in every run a full batch has a goroutine that is about to take it |
| FlushTheorems.SingleWriterBound | sinks/influxSink.go:323-341 | with one writing goroutine the encoder never holds more than a batch |
| FlushLimits.OneTimerExactly | sinks/httpSink.go:97-121 | for all runs in which given goroutines write: one timer at most, named by flushTimer at rest, if and only if the sink is the InfluxDB sink, or there is no delay, or one goroutine writes |
| FlushLimits.RecordStranded | sinks/httpSink.go:97-125 | for either sink, any delay and any batch size but 1, a run of any writer that ends with a record and no timer |
| FlushLimits.NeverStrandsExactly | sinks/influxSink.go:323-366 | for all runs in which given goroutines write: no record is left behind at rest if and only if there is no delay, or none of them, or the sink is the InfluxDB sink with a batch size of 1 |
| FlushLimits.OwnFlushAlways | sinks/influxSink.go:323-329 | without a delay every record in the encoder has its own writer on the way to flushing, so there are no more records than writers |
| FlushLimits.Overgrow | sinks/influxSink.go:330-341 | for every batch size, any two writers and any number k a run with k records more than a batch |
| FlushLimits.BatchExactly | sinks/influxSink.go:323-341 | for all runs in which given goroutines write: the encoder holds at most a batch if and only if there are none, or the batch size is positive and there is one, or no delay and no more of them than a batch has records |
| FlushLimits.TwoTimers | sinks/httpSink.go:97-117 | for any two writers a run in which the HTTP sink's armed timer is not the one in flushTimer |
| FlushClose.CloseFlushes | sinks/influxSink.go:409-428 | a Close with no writer active leaves the encoder empty and everything encoded in the flushed buffers, in order; and no timer armed for the InfluxDB sink, without a delay, or with one writer |
| FlushClose.CloseDisarmsExactly | sinks/httpSink.go:190-206 | for all runs in which given goroutines write: such a Close leaves no timer armed if and only if the sink is the InfluxDB sink, or there is no delay, or one goroutine writes |
| FlushTimers.ArmedHasRecords | sinks/influxSink.go:325-361 | in every run of the InfluxDB sink with one writer and no Close, an armed timer has records to flush: a full batch stops the timer before it is flushed |
| Resampler.AcceptedLength | resampler/resampler.go:127-147 | for a positive old frequency: exactly when data is resampled or refused, and that the length at least halves with fewer than step samples left over |
| Resampler.PanicsExactly | resampler/resampler.go:127-147 | exactly when the resamplers allocate a negative length |
| Resampler.SimpleResampler | resampler/resampler.go:109-125 | every index is in range and the result is every step-th sample |
| Resampler.AverageResampler | resampler/resampler.go:315-344 | each output is the mean of the samples of its bucket that are not NaN, or NaN if there is none |
| Resampler.AverageConservesMass | resampler/resampler.go:323-341 | the means times their counts add up to the sum of the covered samples |
| Resampler.AverageBetween | resampler/resampler.go:336-340 | a mean lies between the bounds of its bucket, and is NaN exactly if all its samples are |
| Resampler.CalculateTriangleArea | resampler/resampler.go:43-46 | the area is never negative and is NaN exactly if a coordinate is |
| Resampler.AreaOfTriangle | resampler/resampler.go:43-46 | the area is that of the shoelace formula, does not depend on the order of the corners, and is half of base times height |
| Resampler.CalculateAverageDataPoint | resampler/resampler.go:60-79 | the result is the centroid: the middle of the positions and the mean of the values, NaN if any is |
| Resampler.BucketsTile | resampler/resampler.go:206-220 | for four or more points the buckets are not empty and tile the samples from 1 to n - 3, whatever the rounding |
| Resampler.BoundaryBounds | resampler/resampler.go:206-220 | every boundary is within 1.5 of the exact multiple of the bucket size |
| Resampler.BucketSizes | resampler/resampler.go:206-220 | every bucket differs from the exact size by less than two samples, and from any other by less than four |
| Resampler.ExactBuckets | resampler/resampler.go:206-220 | without rounding errors a boundary is the first integer above the multiple, and all buckets but the last differ from the exact size by less than one |
| Resampler.SingleBucket | resampler/resampler.go:206-223 | for three points there is one bucket and nothing left to average |
| Resampler.LargestTriangle | resampler/resampler.go:236-256 | the pick is the first sample of maximal area, or the last one whose area is NaN |
| Resampler.LargestTriangleThreeBucket | resampler/resampler.go:195-279 | all accesses and slices are in range; the result has the first and last sample and the right pick of every bucket between |
| Resampler.PicksIncrease | resampler/resampler.go:217-272 | the picks move strictly forward, exactly one in each bucket |
| Resampler.PicksNear | resampler/resampler.go:217-272 | the i-th pick lies between the multiples i - 1 and i of the bucket size, give or take half a sample |
| Resampler.PickSpansLargest | resampler/resampler.go:223-256 | without NaN a pick is the first sample of its bucket to span the largest triangle with the previous pick and the mean point of the next bucket, in closed form |
| Resampler.PicksUnique | resampler/resampler.go:217-272 | data and boundaries determine the picks |
| Resampler.ThreePoints | resampler/resampler.go:217-272 | for three points the middle one is the sample before the last |
| Resampler.PickWithNaN | resampler/resampler.go:236-256 | what a NaN in the previous pick, the averaged slice or the bucket does to the pick |
| HostGrammar.ScanPrinted | hostlist/hostlist.go:37-60 | the scanner reads back every well-formed host expression behind any delimiters, if it ends there |
| HostGrammar.ScanExactly | hostlist/hostlist.go:37-60 | exactly what the scanner matches and leaves: a well-formed host expression behind delimiters that takes as many characters as it can |
| HostGrammar.ScanLonger | hostlist/hostlist.go:122-128 | a match does not change when more input follows behind a comma, unless the input stopped in a bracket |
| Hostlist.Expand | hostlist/hostlist.go:122-202 | the loops compute the expansion function on every input, errors and endless ranges included |
| Hostlist.ExpandRange | hostlist/hostlist.go:160-191 | one range: its errors and its names behind those found so far |
| Hostlist.RangeNumbers | hostlist/hostlist.go:170-190 | every number of a range is printed in the width its ends ask for, and the ends as they were written |
| Hostlist.RangeExact | hostlist/hostlist.go:160-190 | an accepted range gives end - start + 1 different names, first and last with the literal ends, of one width if the ends agree in width |
| Hostlist.ItemMeaning | hostlist/hostlist.go:147-190 | an item is accepted exactly under the documented conditions and yields exactly the names it denotes |
| Hostlist.CollectMeaning | hostlist/hostlist.go:123-195 | the same for a whole input, before sorting |
| Hostlist.ExpansionMeaning | hostlist/hostlist.go:122-202 | the expansion succeeds exactly for inputs that parse with acceptable ranges, and is the strictly increasing list of the denoted names |
| Hostlist.ExpansionEndless | hostlist/hostlist.go:122-195 | the expansion never ends if and only if the first item that is not acceptable is an endless range, even if the input is malformed further on |
| Hostlist.ItemEndless | hostlist/hostlist.go:160-190 | exactly which ranges never end: up to the largest number or beyond, not decreasing, without a padding error |
| Hostlist.LoopNeverEnds | hostlist/hostlist.go:188-190 | the wrapping counter stays within the guard forever if and only if the range ends at the largest number |
| Hostlist.EndlessList | hostlist/hostlist.go:188-190 | an input that never ends |
| Hostlist.UnionLaw | hostlist/hostlist.go:122-202 | joining a valid list and any non-empty input by any delimiters merges the names, or fails as the second input does |
| Hostlist.TrailingDelimiters | hostlist/hostlist.go:122-127 | any commas and spaces after a valid list make it invalid |
| Hostlist.ParsePrinted | hostlist/hostlist.go:37-60 | every list of well-formed host expressions is read back from its spelling with any delimiters between them |
| Hostlist.ParseExactly | hostlist/hostlist.go:37-60 | an input parses, and as given expressions, if and only if it is a spelling of them |
| Hostlist.ThreeNumbers | hostlist/hostlist.go:117-121 | a range of three numbers is malformed, whatever the name and the numbers |
| Hostlist.MalformedRange | hostlist/hostlist.go:117-121 | so is n[1-2-3] |
| Hostlist.ForeignCharacter | hostlist/hostlist.go:117-118 | an input with any other character than letters, digits, hyphens, delimiters and brackets is not expanded |
| Hostlist.Reexpansion | hostlist/hostlist.go:122-202 | expanding the comma-separated result gives the same result |
| Names.SortedSetIs | hostlist/hostlist.go:196-200 | sorting and compacting gives a strictly increasing list with the same members |
| Names.IncreasingUnique | hostlist/hostlist.go:196-200 | there is only one such list |
| Names.LessExactly | hostlist/hostlist.go:196-200 | the order of names: a proper prefix comes first, and else the smaller character where they first differ |
| Numerals.PadRestores | hostlist/hostlist.go:175-190 | padding to the width of a numeral gives it back and keeps smaller numbers at that width |
| TopologyIndex.BuildIndex | schema/cluster.go:147-166 | the table is the exact inverse of the nested lists, multiplicities included |
| TopologyIndex.Topology.InitTopologyMaps | schema/cluster.go:135-193 | all tables agree with the groups, and a second call changes nothing |
| TopologyIndex.Topology.IndexCores | schema/cluster.go:168-182 | each core has the different sockets it touches and each socket the number of cores that touch it |
| TopologyIndex.Topology.IndexDomains | schema/cluster.go:184-192 | a memory domain belongs to the first socket that holds its first thread, if there is one |
| TopologyIndex.Topology.GetSocketsFromHWThreads | schema/cluster.go:198-217 | the different sockets that share a thread with the input, and whether the input hits each as often as it has threads; nothing, and true, before the tables are built |
| TopologyIndex.Topology.GetCoresFromHWThreads | schema/cluster.go:245-264 | the same for cores |
| TopologyIndex.Topology.GetMemoryDomainsFromHWThreads | schema/cluster.go:269-288 | the same for memory domains |
| TopologyIndex.Topology.GetSocketsFromCores | schema/cluster.go:222-240 | the same for the cores of each socket |
| TopologyIndex.ExclusiveMeansAll | schema/cluster.go:198-288 | for ids without repetition exclusive holds if and only if every group found is contained in the input |
| TopologyIndex.SelectionUnique | schema/cluster.go:210-216 | answers do not depend on map order |
| TopologyIndex.FlagRightExactly | schema/cluster.go:198-288 | the flag is right for every topology if and only if no id is repeated |
| TopologyIndex.NothingFound | schema/cluster.go:198-288 | before the tables are built every query finds nothing and says that it is exclusive |
| TopologyIndex.UnbuiltRightExactly | schema/cluster.go:198-288 | and that answer is right if and only if the ids are in no group |
| TopologyIndex.RepeatedIdMisleads | schema/cluster.go:198-217 | a repeated id can stand in for a missing one |
| TopologyIndex.RepeatedIdDenies | schema/cluster.go:198-217 | every repetition is counted too often in some topology |
| TopologyIndex.Topology.ExclusiveHoldsExactly | schema/cluster.go:219-240 | in every query exclusive cores have all threads of the sockets found, if and only if all threads of sockets with cores are in cores |
| TopologyIndex.Topology.HeldIsExclusiveExactly | schema/cluster.go:219-240 | in every query cores with all threads of the sockets found are exclusive, if and only if no core is spare |
| TopologyIndex.Topology.SocketFlagExactly | schema/cluster.go:219-240 | for every topology: the flag says in every query whether the cores have all threads, if and only if both conditions hold |
| TopologyIndex.Topology.SpareHasNoThread | schema/cluster.go:219-240 | if no core is in two sockets and all threads are in cores, no core is spare if and only if every core has a thread of its own |
| TopologyIndex.Topology.SocketFlagWrong | schema/cluster.go:219-240 | two topologies for which it does not |
| TopologyIndex.Topology.GetMemoryDomainsBySocket | schema/cluster.go:292-308 | fails exactly for an id without a socket, which is every id before the tables are built; otherwise splits the ids by socket in their order |
| TopologyIndex.Topology.OfSocketTimes | schema/cluster.go:292-308 | no id is lost or repeated by the split |
| TopologyIndex.Topology.InOneList | schema/cluster.go:292-308 | no id is in the lists of two sockets |
| Counting.Pigeonhole | schema/cluster.go:203-216 | different ids hit a group as often as it has elements exactly if they include all of them |
| Statistics.SortedCopyIs | util/statistics.go:32-37 | the copy is sorted and has the same samples |
| Statistics.Mean | util/statistics.go:41-50 | the sum over the number of samples; an error and NaN for none |
| Statistics.SumIsTotal | util/statistics.go:41-50 | the sum is the total of the samples, or NaN if one of them is |
| Statistics.MeanBounds | util/statistics.go:41-50 | the mean times the number of samples is their total, and lies between any bounds they meet |
| Statistics.Median | util/statistics.go:56-69 | the middle of the sorted samples, or the mean of the two middle ones |
| Statistics.MiddleBetween | util/statistics.go:56-69 | the median is between the two middle samples, half of their sum, and NaN if the lower one is |
| Statistics.MedianHalves | util/statistics.go:56-69 | at least half of the samples come no later than the median and half no earlier, NaN coming first; the median is NaN exactly if half of the samples are |
| JobMetrics.StepStatistics | schema/metrics.go:205-241 | minimum, maximum and median at one step, NaN for fewer than three samples |
| JobMetrics.JobMetric.AddStatisticsSeries | schema/metrics.go:188-271 | the statistics of every step, NaN where a series has ended, and no change if there are some or too few series |
| JobMetrics.Extremes | schema/metrics.go:208-223 | within single-precision range the extremes are samples and bound all others |
| JobMetrics.StatisticsExactly | schema/metrics.go:208-241 | a step has statistics if and only if three series have a number there; the extremes are then samples and bound the others |
| JobMetrics.MedianWithin | schema/metrics.go:205-241 | without NaN the median lies between the extremes with half of the samples on each side |
| JobMetrics.MedianBounds | schema/metrics.go:208-241 | with NaN it does so if and only if zero does or fewer than half of the slots are NaN |
| JobMetrics.JobMetric.AddPercentiles | schema/metrics.go:372-424 | every index is in range; exactly when it panics; existing percentiles stay and each new one is right at every step |
| JobMetrics.PercentileRank | schema/metrics.go:411-418 | more than p percent of the samples are not above the percentile and at least 100 - p percent not below |
| JobMetrics.PercentileMonotone | schema/metrics.go:411-418 | percentiles grow with p |
| NodeScope.Hierarchy | schema/metrics.go:107-143 | from coarse to fine: node, socket, memory domain, core, hardware thread, accelerator, then unknown and invalid scopes |
| NodeScope.MaxOfCoarsest | schema/metrics.go:279-282 | whatever the map order, the chosen scope is one of the coarsest |
| NodeScope.OrderMatters | schema/metrics.go:279-282 | the choice depends on the order if and only if two scopes are unknown and none is known |
| NodeScope.LastWins | schema/metrics.go:136-143 | every coarsest scope is the outcome of some order |
| NodeScope.SumHost | schema/metrics.go:300-335 | one host: sums while all its series last, NaN up to the longest, mean of averages and extremes |
| NodeScope.SumHosts | schema/metrics.go:289-335 | one series for each hostname |
| NodeScope.ExtremesBound | schema/metrics.go:301-306 | the extremes of a host bound those of its series |
| NodeScope.ExtremesReached | schema/metrics.go:301-306 | and within single-precision range they are those of some of its series |
| NodeScope.HostAverage | schema/metrics.go:301-334 | the average of a host is the mean of the averages of its series, and lies between any bounds they meet |
| NodeScope.AveragesConserve | schema/metrics.go:301-334 | the averages of the hosts, weighted by their series, add up to those of all series |
| NodeScope.NodeSumsConserve | schema/metrics.go:318-328 | at every step below the shortest series the host sums add up to the sum over all series |
| NodeScope.JobData.AddNodeScope | schema/metrics.go:273-339 | adds a node scope exactly if there is none and some other valid scope, from a coarsest one, and changes nothing else |
| MessageView.SanitizeFirst | messageProcessor/messageProcessor.go:180-182 | the first type-id of a key becomes typeid, the text before it stays and the rest is treated alike |
| MessageView.SanitizedSame | messageProcessor/messageProcessor.go:180-182 | sanitized entries are the entries themselves if and only if no key mentions type-id, in every order |
| MessageView.InitialMirror | messageProcessor/messageProcessor.go:184-244 | the first environment shows the message if and only if no tag or meta key mentions type-id |
| MessageView.TypesPossible | messageProcessor/messageProcessor.go:203-222 | the types that map order can give a message are those of its fields, and every field can be the last one walked |
| MessageView.TypesByName | messageProcessor/messageProcessor.go:203-222 | which fields make which type possible, by name |
| MessageView.TypeDetermined | messageProcessor/messageProcessor.go:203-222 | the type does not depend on map order if and only if all fields are of one type |
| MessageView.RulesKeepMirror | messageProcessor/messageProcessorFuncs.go:26-148 | rules in any order keep the environment equal to the message |
| ProcessorRuns.RunKeepsMirror | messageProcessor/messageProcessor.go:771-969 | so does every run without unit stages, after every stage |
| ProcessorRuns.RunRefines | messageProcessor/messageProcessor.go:771-969 | such a run does what its rules say of the message alone |
| ProcessorRuns.ProtectedFieldsStay | messageProcessor/messageProcessorFuncs.go:96-106 | only a stage that moves fields can cost a message its value, event, log or control field |
| ProcessorRuns.ProtectedExactly | messageProcessor/messageProcessorFuncs.go:26-106 | such a field stays in every run over given stages, with any rules, if and only if none of them moves fields |
| ProcessorRuns.DropDetermined | messageProcessor/messageProcessor.go:803-810 | dropping by type does not depend on map order if and only if the types of the fields are all dropped or all kept |
| ProcessorRuns.MetricByChance | messageProcessor/messageProcessor.go:803-810 | a metric with any further field can be dropped and can be kept |
| RuleEffects.ConditionDecides | messageProcessor/messageProcessorFuncs.go:26-299 | a rule acts if and only if its condition holds, and fails if it cannot be evaluated |
| RuleEffects.MovesTag | messageProcessor/messageProcessorFuncs.go:26-87 | moving a tag to the meta data or the fields, map by map: its text under the new key in both copies, nothing else, and nothing for an absent key |
| RuleEffects.MovesMeta | messageProcessor/messageProcessorFuncs.go:26-87 | the same for meta data |
| RuleEffects.MovesField | messageProcessor/messageProcessorFuncs.go:26-87 | the same for fields, with their printed text |
| RuleEffects.Adds | messageProcessor/messageProcessorFuncs.go:122-148 | an addition sets one entry of one map in both copies |
| RuleEffects.Deletes | messageProcessor/messageProcessorFuncs.go:89-120 | a deletion takes out one entry of one map in both copies, or fails for the four protected fields |
| RuleEffects.Renames | messageProcessor/messageProcessorFuncs.go:282-299 | renaming sets the name and keeps the old one in the meta data |
| RuleEffects.SingleRule | messageProcessor/messageProcessorFuncs.go:26-148 | with a single rule the methods on the shared maps leave exactly what it does |
| RuleEffects.StageEffects | messageProcessor/messageProcessor.go:794-965 | what the stages without rules do: dropping by name and type, renaming by name, and that unit stages leave other messages than metrics alone |
| RuleEffects.DropsExactly | messageProcessor/messageProcessorFuncs.go:198-209 | a message is dropped if and only if the first condition that does not say no says yes; the stage fails if and only if it cannot be evaluated |
| RuleEffects.Normalizes | messageProcessor/messageProcessorFuncs.go:211-228 | where normalizing writes the short form of a readable unit, in both copies |
| RuleEffects.Converts | messageProcessor/messageProcessorFuncs.go:230-280 | the value, the unit of the message and the unit of the environment after a conversion, and when nothing happens |
| ProcessorRuns.NormalizeMirror | messageProcessor/messageProcessorFuncs.go:211-228 | normalizing leaves the environment out of step exactly if the unit is a valid tag |
| ProcessorRuns.ChangePrefixMirror | messageProcessor/messageProcessorFuncs.go:230-280 | so does a conversion unless the unit is in the meta data and keeps its short form |
| ProcessorUnits.ConversionOf | messageProcessor/messageProcessorFuncs.go:230-280 | with the unit package: a conversion takes place exactly for a known prefix and a readable unit, and changes the short form exactly if the prefix is another |
| ProcessorUnits.NormalizingMirror | messageProcessor/messageProcessorFuncs.go:211-228 | with the unit package: normalizing leaves the environment out of step exactly if a readable unit is a tag |
| ProcessorUnits.ConversionMirror | messageProcessor/messageProcessorFuncs.go:230-280 | with the unit package: a conversion leaves it in step exactly if none takes place, or the unit is in the meta data with the wanted prefix |
| ProcessorUnits.NormalizeTwice | messageProcessor/messageProcessorFuncs.go:211-228 | normalizing a second time changes nothing |
| Processor.FromMessage | ccMessage/ccMessage.go:449-457 | the copy shows the same message and shares no map with it |
| Processor.FieldParams | messageProcessor/messageProcessor.go:203-226 | fields are copied, special ones get a variable, and the type is that of the field walked last |
| Processor.GetParamMap | messageProcessor/messageProcessor.go:184-244 | the environment is one of those the model starts from, on maps of its own |
| Processor.MoveInMessage | messageProcessor/messageProcessorFuncs.go:26-87 | all rules are applied once in some order to both copies, up to a failing condition |
| Processor.DeleteIf | messageProcessor/messageProcessorFuncs.go:89-120 | the same for deletions, which stop with an error at a protected field |
| Processor.AddIf | messageProcessor/messageProcessorFuncs.go:122-148 | the same for additions |
| Processor.RenameMessagesIf | messageProcessor/messageProcessorFuncs.go:282-299 | the same for renaming, which keeps the old name in the meta data |
| Processor.DropMessagesIf | messageProcessor/messageProcessorFuncs.go:198-209 | drops exactly if a condition holds before one fails |
| Processor.NormalizeUnits | messageProcessor/messageProcessorFuncs.go:211-228 | both copies change as the model says |
| Processor.ChangeUnitPrefixes | messageProcessor/messageProcessorFuncs.go:230-280 | the same for conversions |
| Processor.ProcessStage | messageProcessor/messageProcessor.go:794-965 | each stage computes what the run model says and walks all its rules |
| Processor.MessageProcessor.ProcessMessage | messageProcessor/messageProcessor.go:771-969 | the caller's message and its maps do not change, and the new message is what the stages compute in some order of rules |
| Processor.ProcessedMirror | messageProcessor/messageProcessor.go:771-969 | from end to end: without unit stages, and if no tag or meta key mentions type-id, the environment shows the message after every stage and at the end |
| Units.OnePrefix | ccUnits/ccUnitPrefix.go:171-180 | at most one prefix pattern matches a string, so table order does not matter |
| Units.OneMeasure | ccUnits/ccUnitMeasure.go:131-140 | the same for measures |
| Units.ShortMeasure | ccUnits/ccUnitMeasure.go:122-140 | the short form of a measure is read as that measure |
| Units.ReadsExactly | ccUnits/ccUnits.go:204-252 | for every string, split as the expressions split it: exactly whether it is a unit, and its prefix, measure and second measure |
| Units.SomeSplit | ccUnits/ccUnits.go:204-252 | every string splits in this way |
| Units.ShortReads | ccUnits/ccUnits.go:204-252 | what the short form of every valid unit is read as: the unit with its prefix corrected, or no valid unit for millionths and billionths |
| Units.ReadsCorrected | ccUnits/ccUnits.go:235-243 | the corrections in full: which prefixes become another when a unit is printed and read, and which one |
| Units.ShortParses | ccUnits/ccUnits.go:204-252 | a valid unit is read back from its short form if and only if it is writable |
| Units.ReadWritable | ccUnits/ccUnits.go:204-252 | whatever string is read gives a writable unit or the one without prefix and measure |
| Units.ReadPrintRead | ccUnits/ccUnits.go:48-54 | printing what was read and reading it again gives the same unit, for every string |
| Units.Ladders | ccUnits/ccUnitPrefix.go:14-36 | each prefix is a thousand, or 1024, of the one below it, and no prefix is 1 |
| Units.ConvertKeeps | ccUnits/ccUnits.go:81-105 | a conversion keeps the quantity: the new value times the new factor is the old value times the old factor |
| Units.ConvertRung | ccUnits/ccUnits.go:81-105 | one rung down a ladder multiplies a value by 1000, or by 1024, and one rung up divides it |
| Units.ConvertThrough | ccUnits/ccUnits.go:81-105 | conversions of floating-point values compose and undo each other |
| Units.ConversionKeepsUnit | ccUnits/ccUnits.go:164-172 | a conversion scales between the two prefixes and changes only the prefix of every valid unit; for millionths and billionths it returns no function and INVALID_UNIT |
| Units.InvalidUnitValid | ccUnits/ccUnits.go:31 | INVALID_UNIT is flops, a valid unit |
| Units.RefusalLooksValid | ccUnits/ccUnits.go:164-172 | exactly when a conversion is refused, and that the unit returned is then valid whatever the prefix |

## Left out

- The panic-recovery branch of `Get` (lrucache/cache.go:232-241): closures are taken to return.
- `lrucache/handler.go`, receivers, clients, encoders, retries and sleeps: network input and output. A flush ends where the buffer has been taken.
- Messages dropped by a sink's processor, and encoder errors: such a `Write` of the InfluxDB sink unlocks an encoder it has not locked.
- The sinks are step systems rather than classes, because their methods interleave in the middle.
- IEEE rounding and infinities; the conversion of integer values, which truncates; the cap that `fmt` puts on very large widths.
- The compilation and evaluation of rule conditions, the base environment, JSON configuration, and the methods that add and remove rules or check stage names.
- Series carry no id, and a unit is a value: `SetPrefix` and `AddUnitDenominator` are updates of a field.
- Sorting and compacting are library calls in the source and functions here.
- Temperature conversions, unit to unit conversion, rounding of statistics, accelerator ids, size estimates, scope comparisons and role checks: they would add only easy members.
- Memory domains, accelerators and dies beyond the lists that the queries use; `ccTopology`, which calls a C library.
- Processor.Convert: takes the converted value from a parameter, because the unit package is a parameter of the runs; `ProcessorUnits` puts in the package, with the scaling of a value as the parameter that is left.
