# Policies, simulators and gates of the performance helpers, in Dafny

Models and proofs of the parts of the repository whose claims range over all traces, all
interleavings or all inputs. Each source component is one module with a functional
specification of its state, and, where the source updates an object or loops, a class or
methods proved against that specification; the theorems are lemmas about the specification.

- **Replacement policies** (`Sequences`, `LinkedMaps`, `Lru`, `Recency`, `Generational`,
  `Replay`, `Sieve`, `SieveCache`, `CompactingFifo`, `Hybrid`, `HybridCache`): the pointer-linked
  LRU and SIEVE, the two-Map generational cache, 2Q and S3-FIFO with SIEVE in the hot queue,
  and the replay that compares them.
- **Camera prefetch** (`Prefetch`, `PrefetchRun`, `PrefetchSteps`, `SlidingFlights`): the frame-stepped scheduler, what
  it asks for and what becomes of it, and exactly when it wastes nothing on the flights the bench builds.
- **Admission gate** (`AdmissionGate`): the asynchronous semaphore as a system of atomic steps, with a cap
  that may differ at every step.
- **Stream transformations** (`Coalescer`, `Framing`, `FrameDecoder`): keyed last-write-wins
  batching, the frame codec, and the naive and the incremental stream reader.
- **PowerBatch** (`PowerBatch`, `AbortableWaits`): queue, shared promise, scheduler flag and callbacks in
  flight, any number of running handlers, and the waits of flushes whose callers may abort them.
- **Regression gate** (`Statistics`, `RegressionGate`, `RegressionReport`): percentiles, medians, the verdict and
  the reason lines.
- **Metrics** (`MetricsSeries`, `MetricsCollector`, `Prometheus`, `PrometheusText`, `PrometheusReader`,
  `PrometheusDocument`): flattening
  and the exposition text with a reader that undoes it, after the "Line format" part of the Prometheus
  text exposition format 0.0.4.
- **Adaptive controller** (`AdaptiveProposal`).

Where code and documentation disagree, the model follows the code:

- The generational cache is documented as over-filling up to 2x (bench/claims.js:1780-1781). `get`
  promotes without a flip check (1801-1809), so no multiple of the capacity bounds it
  (`Generational.OverfillIsUnbounded`). A promotion is surplus when the current Map is at least one short of
  full. With `now` of them since the last flip and `before` in the generation before, the bound holds
  exactly when there was no flip yet, or now + before <= 1 while now > 0, or the current Map's size
  + before <= capacity while now = 0 (`Generational.WithinTwiceIffSurplusFits`). A caller who knows only
  how many keys there are has it exactly when they all fit the capacity: then no trace over them breaks the bound, and
  with one key more some trace does (`Generational.WithinTwiceIffKeysFit`).
- The prefetch bench prints that tiles land late whatever the window when the lead does not cover the
  latency (bench/claims.js:7757). `Math.round` forgives less than half a frame, so the condition on lead and
  latency is latency < (lead + 1/2) frames (`SlidingFlights.WasteFreeIffLeadCoversLatency`). Past it a sliding
  flight wastes something exactly when it has at least lead + 3 frames and the window is either wider than a frame or
  sees the destination land at frame FRAMES - lead - 2 at the latest
  (`SlidingFlights.WasteIffShortLeadAndRoom`); a narrow window can hide it
  (`SlidingFlights.NarrowWindowsHideAShortLead`).
- The coalescer's `send` listens for any message (bench/claims.js:7127-7136), so overlapping flushes count one
  reply more than once: once all are answered, `applied` was right throughout exactly when no flush was posted while an
  earlier diff was unanswered (`Coalescer.CountIsRightIffNoOverlap`). The store does not depend on it.
- `formatPrometheus` checks help text for line breaks and prints it unescaped (src/helpers/metrics.js:256-289), though
  the format reads backslash escapes there and drops blanks around it: it reads back exactly when it holds no backslash
  and neither starts nor ends with a blank or a tab (`PrometheusReader.HelpReadsBackIff`). Nor are descriptors compared
  with each other, though the format allows a name one group of lines: the text as a whole says what its descriptors say
  exactly when, besides, none is named like another one or like one of another's samples
  (`PrometheusDocument.DocumentIsFaithfulIff`).
- A comment says that regressions are ranked by how far past their own threshold they moved
  (bench/baseline.js:371); the ranking reads the move itself (`RegressionReport.FurthestMoveFirst`). The two agree on
  all reports, to within the tenth of a percent that is read, exactly when the recorded sites with a positive median
  share one threshold, which a `slowdownTolerance` of at least 1 keeps from being negative
  (`RegressionReport.RanksByExcessIff`); two thresholds always misrank some report
  (`RegressionReport.TwoThresholdsMisrank`).
- `raceWithAbort` is documented to reject if the signal fires first (src/utils/abort.js:21-22). First means before the
  reaction to the settled promise has run, not before the promise settled
  (`AbortableWaits.AbandonedIffFiredBeforeTheReaction`, with the input in `AbortableWaits.AbortBeatsASettledPromise`).
- Both hybrids give each region at least one slot, so at capacities 0 and 1 residents exceed the
  capacity (`Hybrid.ResidentsFitCapacity`).
- A snapshot of the adaptive controller must hold an integer cooldown, which the constructor does not
  ask for (`AdaptiveProposal.SnapshotsRestoreIffCooldownIsInteger`).
- A throw of the incremental frame decoder discards the frames its chunk completed, so what is delivered
  of a failing stream depends on its chunking, exactly when it carries a frame at all
  (`FrameDecoder.DeliveryIgnoresChunkingIff`); what is held and how it fails never does.

Every `.dfy` file belongs to the project; `dafny verify dfyconfig.toml` checks it.

## Model

| member | source | states |
|---|---|---|
| LinkedMaps.LinkedMap.Lookup | bench/claims.js:1287-1289 | the Map finds a node exactly for the keys the queue holds, and it is the node at that key's position |
| LinkedMaps.LinkedMap.Membership | bench/claims.js:1271-1283 | Map and list agree: same keys, and each key maps to the node that stands where its entry stands |
| LinkedMaps.LinkedMap.Append | bench/claims.js:1304-1310 | linking at the newest end keeps the chain doubly linked and duplicate-free |
| LinkedMaps.LinkedMap.Unlink | bench/claims.js:1342-1349 | unlinking any node, at either end or between, keeps the chain doubly linked and takes out that node alone |
| LinkedMaps.LinkedMap.Push | bench/claims.js:1303-1312 | a new key becomes the newest entry, unvisited; nothing else changes |
| LinkedMaps.LinkedMap.Remove | bench/claims.js:1336-1338 | one position is cut out of entries and bits, and its key leaves the Map |
| LinkedMaps.LinkedMap.MoveToEnd | bench/claims.js:1711-1716 | an LRU hit moves one entry to the newest end and keeps the order of the rest |
| LinkedMaps.LinkedMap.SetValue | bench/claims.js:1299 | overwriting a value in the node changes that one entry and its value alone |
| LinkedMaps.LinkedMap.Mark | bench/claims.js:1292 | setting or clearing a visited bit changes that one bit alone |
| Lru.BenchLru.constructor | bench/claims.js:1698-1705 | an empty, valid cache |
| Lru.BenchLru.Get | bench/claims.js:1707-1718 | returns the value held for the key and makes it most recent; a miss changes nothing |
| Lru.BenchLru.Set | bench/claims.js:1720-1744 | an update moves the key to the end with the new value; an insertion appends it and keeps the last `capacity` entries; the eviction counter counts the loss |
| Lru.BenchLru.Trim | bench/claims.js:1736-1743 | the eviction loop leaves exactly the last `capacity` entries and its `break` loses nothing |
| Lru.BenchLru.EvictOldest | bench/claims.js:1737-1742 | one round of the loop drops exactly the oldest entry |
| Lru.SetStores | bench/claims.js:1720-1744 | a set leaves its key most recent with the new value, and whatever else stays as it was |
| Lru.GetKeepsEntries | bench/claims.js:1707-1718 | a hit makes its entry most recent, value included, and loses nothing |
| Recency.ReplayStepOnKeys | bench/claims.js:1866-1872 | get-then-set-on-miss through the linked list is one access on the key order, whatever the values |
| Recency.RecencyIsByLastAccess | bench/claims.js:1693-1718 | the recency order really is by last access: of two keys the later one was used after the last use of the earlier |
| Recency.RecencyOfConcat | bench/claims.js:1856-1873 | the recency order of a later stretch of trace ends the recency order of the whole |
| Recency.LruHoldsMostRecent | bench/claims.js:1697-1762 | on every trace LRU holds exactly the last `min(capacity, distinct)` distinct keys in recency order |
| Recency.LruInclusion | bench/claims.js:1697-1762 | inclusion: on every trace the smaller cache is the most recent part of the larger one |
| Recency.LruHitsMonotone | bench/claims.js:1856-1873 | hits never fall as capacity grows, on any trace, whichever keys are counted |
| Recency.LruStackDistance | bench/claims.js:1697-1762 | a key is resident if and only if fewer than `capacity` distinct keys were used since its last use |
| Generational.BenchGenerational.constructor | bench/claims.js:1793-1799 | two empty generations |
| Generational.BenchGenerational.Get | bench/claims.js:1801-1809 | a hit in the old Map promotes, without a flip check; a miss changes nothing |
| Generational.BenchGenerational.Set | bench/claims.js:1811-1823 | a new key enters the current Map, which becomes the old one when it fills; flips and peak are counted |
| Generational.GenerationsAreTraceSuffixes | bench/claims.js:1801-1823 | the current Map is exactly the keys accessed since the last flip, the old one exactly those between the two last flips, and a completed generation has at least `capacity` of them |
| Generational.ResidentsAreATraceSuffix | bench/claims.js:1801-1823 | the residents are exactly the keys accessed since the flip before last: the whole trace, or a suffix with at least `capacity` distinct keys |
| Generational.GenerationalHoldsLru | bench/claims.js:1697-1840 | on every trace the generational cache holds every key that LRU of the same capacity holds |
| Generational.GenerationalHitsAtLeastLru | bench/claims.js:1856-1873 | so its hit count on any trace is never below LRU's, whichever keys are counted |
| Generational.OverfillIsSurplus | bench/claims.js:1801-1823 | the exact sizes of both Maps on every trace: what they hold beyond `capacity - 1` and `capacity` is the surplus promotions, those made while the current Map is one short of full or fuller |
| Generational.WithinTwiceIffSurplusFits | bench/claims.js:1780-1786 | the documented 2x bound holds of a trace if and only if its surplus promotions fit: before the first flip, or with at most one in the two generations, or while the current Map leaves room for those of the old one |
| Generational.OverfillIsUnbounded | bench/claims.js:1780-1786 | the documented 2x bound is false: for every `n` a trace of promotions leaves `n` residents at any capacity |
| Generational.WithinTwiceIffKeysFit | bench/claims.js:1780-1786 | for a caller who knows only how many keys there are: the bound holds of all traces over `n` keys if and only if `n` is at most the capacity |
| Replay.RequestLru | bench/claims.js:1864-1872 | one request hits exactly when the key is resident, and ends with the key most recent |
| Replay.ReplayLru | bench/claims.js:1856-1893 | the hits, misses, hot counts, peak and survivors that are reported, as functions of the stream alone |
| Replay.LruSizeGrows | bench/claims.js:1874-1875 | LRU residency never shrinks during a replay, so the observed peak is the final size |
| Replay.CountSurvivorsLru | bench/claims.js:1879-1880 | `survivors` is the number of resident ids of the working set, and counting does not touch the order |
| Replay.ReplayGenerational | bench/claims.js:1856-1893 | the same report for the generational cache, with its flips |
| Replay.CountSurvivorsGenerational | bench/claims.js:1879-1880 | `survivors` counts the working-set ids in either generation |
| Replay.GenerationalNeverReportsLess | bench/claims.js:1856-1893 | on the same stream the generational row never reports fewer hits, hot hits or survivors than the LRU row |
| Replay.ObservedPeakWithinTwiceIff | bench/claims.js:1874-1875 | the peak that a replay reports stays within twice the capacity if and only if the surplus promotions fit after every access |
| Replay.ObservedPeakWithinTwiceIffIdsFit | bench/claims.js:1874-1875 | and it does for all streams over `n` ids if and only if `n` is at most the capacity |
| SieveCache.BenchSieve.constructor | bench/claims.js:1269-1285 | an empty cache with a null hand |
| SieveCache.BenchSieve.Get | bench/claims.js:1287-1294 | a hit returns the value and sets one bit; order, hand and everything else stay |
| SieveCache.BenchSieve.Set | bench/claims.js:1296-1314 | an update overwrites and marks; an insertion appends unvisited and, when over-full, evicts exactly once |
| SieveCache.BenchSieve.EvictOne | bench/claims.js:1316-1340 | the pointer sweep, unlink and hand move refine the positional eviction; the hand ends null-free on a live node |
| SieveCache.BenchSieve.SweepHand | bench/claims.js:1320-1331 | the loop ends at the node the positional sweep names, and the guard counts the cleared bits, at most the size, so the return at line 1330 is never taken |
| SieveCache.BenchSieve.PassVisited | bench/claims.js:1324-1329 | one step of the hand clears one bit and moves toward the oldest node, wrapping to the newest |
| SieveCache.BenchSieve.EvictAtHand | bench/claims.js:1332-1339 | the hand leaves the victim before it is unlinked and lands on a linked node |
| Sieve.SweepStopsAtFirstClear | bench/claims.js:1323-1331 | the sweep stops at the first clear position behind the hand, having cleared exactly the visited ones it passed |
| Sieve.StepKeepsValid | bench/claims.js:1287-1340 | every get and set keeps the queue duplicate-free and within capacity, with a null or live hand |
| Sieve.OverflowEvictsOneUnvisited | bench/claims.js:1313-1340 | an over-full set evicts exactly one entry whose bit was clear before the sweep; every visited entry survives |
| Sieve.EvictionWalksFromTheHand | bench/claims.js:1316-1340 | the eviction in positions: from the hand, or the oldest entry while it is null, toward the oldest and on from the newest, clearing what it passes; the first clear entry goes and the hand moves past it |
| Sieve.NewestSurvivesIff | bench/claims.js:1296-1340 | an inserted key is the newest entry, unvisited, and is evicted by its own insertion exactly when the queue was full and every entry from the hand back to the oldest was visited |
| Sieve.SweepsArePaidForByHits | bench/claims.js:1287-1340 | over any run, bits cleared plus bits still set equal bits raised by hits and updates, and insertions equal residents plus evictions |
| Sieve.ResidentsCarryTheLastSet | bench/claims.js:1287-1302 | after any run every resident carries the last value set for its key |
| Sieve.LifetimeDrops | bench/claims.js:1316-1340 | an operation on another key evicts an untouched entry or costs it life for each eviction it outlives |
| Sieve.UntouchedLeaves | bench/claims.js:1316-1340 | an untouched entry is gone once the run has evicted as often as its position allows |
| Sieve.OneShotKeysLeave | bench/claims.js:1316-1340 | a key set once and never touched again is gone within `2 * capacity` evictions |
| CompactingFifo.Fifo.IndexOf | bench/claims.js:1453-1464 | the linear scan finds the key's position among the live slots, or none |
| CompactingFifo.Fifo.SetValue | bench/claims.js:1467-1474 | an update in place changes one live entry |
| CompactingFifo.Fifo.Push | bench/claims.js:1476-1496 | append-then-evict refines a bounded queue: the last `capacity` entries stay, the others leave in order |
| CompactingFifo.Fifo.EvictFront | bench/claims.js:1479-1486 | moving the head, compacted or not, drops exactly the oldest live entry |
| CompactingFifo.Fifo.LengthAndCopiesBounded | bench/claims.js:1478-1486 | the array never exceeds capacity plus the larger of 1024 and the capacity, and copies never exceed evictions |
| HybridCache.HybridSieve.TwoQ | bench/claims.js:1385-1409 | 2Q's regions: a quarter, a half, and the rest of the capacity, each at least 1 |
| HybridCache.HybridSieve.S3Fifo | bench/claims.js:1557-1579 | S3-FIFO's regions: a tenth, a fifth, and the rest of the capacity, each at least 1 |
| HybridCache.HybridSieve.Get | bench/claims.js:1411-1422 | a hot hit marks, a FIFO hit returns without promoting (also 1581-1591) |
| HybridCache.HybridSieve.Set | bench/claims.js:1424-1442 | hot update, FIFO update, promotion of a ghost, or first sighting, in that order (also 1593-1614) |
| HybridCache.HybridSieve.SetCold | bench/claims.js:1431-1441 | the three cases of a key that is not hot |
| HybridCache.HybridSieve.PushFirstSighting | bench/claims.js:1476-1496 | a first sighting enters the FIFO, and the key pushed out becomes a ghost (also 1631-1647) |
| HybridCache.HybridSieve.AddGhosts | bench/claims.js:1487-1494 | every key that leaves the FIFO is remembered, in order, and counted as an eviction |
| HybridCache.HybridSieve.AddGhost | bench/claims.js:1489-1493 | the ghost set keeps its most recently inserted keys down to its bound |
| Hybrid.StepKeepsValid | bench/claims.js:1424-1442 | every operation keeps hot queue, FIFO and ghosts pairwise disjoint, duplicate-free and within their bounds (also 1593-1614) |
| Hybrid.ResidentsFit | bench/claims.js:1390-1392 | from capacity 2 on, residents never exceed the configured capacity, over all runs (also 1561-1563) |
| Hybrid.ResidentsFitCapacity | bench/claims.js:1390-1392 | that bound holds of all runs if and only if the capacity is at least 2 |
| Hybrid.StepPromotes | bench/claims.js:1424-1442 | a step makes a key hot only by setting it while it is a ghost |
| Hybrid.StepSights | bench/claims.js:1424-1442 | a step makes a key known to the FIFO or the ghosts only by setting it |
| Hybrid.HotKeysWereSetTwice | bench/claims.js:1435-1440 | after any run, a hot key has been set at least twice, and a FIFO or ghost key at least once |
| Hybrid.ResidentsCarryTheLastSet | bench/claims.js:1424-1442 | after any run, every entry of both value regions carries the last value set for its key |
| Hybrid.GetReturnsTheLastSet | bench/claims.js:1411-1422 | after any run a lookup hits exactly the keys of the two value regions, and returns the last value set, from whichever holds it (also 1581-1591) |
| Hybrid.OneSightingLasts | bench/claims.js:1411-1496 | a key sighted once is found, with the last value set, until as many other first sightings have followed as the FIFO holds, whatever else happens; with the last of those it is missed and remembered (also 1581-1647) |
| Hybrid.SightingAges | bench/claims.js:1476-1496 | only another first sighting ages a FIFO entry, and only one that finds the FIFO full of younger keys drops it |
| Hybrid.GhostTurnsHotIff | bench/claims.js:1431-1441 | a remembered key that is set again enters the hot queue as its newest entry, and is evicted again at once exactly when the queue was full and every entry from the hand back to the oldest was marked (also 1600-1612) |
| Hybrid.GetOnlyMarks | bench/claims.js:1411-1422 | a lookup marks the hot entry of its key and changes nothing else in any region (also 1581-1591) |
| Hybrid.RegionsAreShares | bench/claims.js:1385-1409 | from capacity 10 on, the FIFO is a quarter or a tenth of the capacity, rounded down, the ghosts twice that share, and the hot queue the rest of the capacity (also 1557-1579) |
| Hybrid.ScanLeavesHotAlone | bench/claims.js:1372-1383 | scan resistance: a scan of any length over unknown distinct keys leaves the hot queue untouched, bits, order and hand, and only slides FIFO and ghosts |
| Hybrid.SlideTwice | bench/claims.js:1476-1496 | sliding two stretches of keys through FIFO and ghosts is sliding them at once |
| PrefetchRun.LastCoveredMap | bench/claims.js:7658-7663 | the map holds exactly the last frame that covers each tile |
| PrefetchRun.RetireLanded | bench/claims.js:7670-7682 | requests that have landed become available, the late ones are counted, the rest stay in flight in order |
| PrefetchRun.AbandonPassed | bench/claims.js:7691-7703 | a request is dropped exactly when no remaining frame covers its tile |
| PrefetchRun.IssueWanted | bench/claims.js:7706-7714 | wanted tiles neither available nor in flight are requested until the window is full |
| PrefetchRun.RunWindow | bench/claims.js:7640-7718 | the loop refines the frame function; outstanding stays within the window, and a covering lead gives no late and no abandoned tile |
| Prefetch.EveryRunBalances | bench/claims.js:7640-7718 | at every frame of every flight: in flight <= window, no tile issued twice, issued = landed + abandoned + outstanding |
| Prefetch.RetireConserves | bench/claims.js:7670-7682 | retiring moves each tile from in flight to available or leaves it, losing and inventing none |
| Prefetch.AbandonConserves | bench/claims.js:7691-7703 | abandoning moves each tile from in flight to abandoned or leaves it; what is abandoned lies behind for good |
| Prefetch.IssueConserves | bench/claims.js:7706-7714 | issuing keeps the balance and the window, and never reissues an abandoned tile |
| PrefetchSteps.CursorAsksForTheFirstMissing | bench/claims.js:7706-7715 | a frame asks for the first tiles of its target frame that were never asked for, in order and each once, due one latency from now, and stops only at a full window |
| PrefetchSteps.WindowIsFullOrAllIsOnItsWay | bench/claims.js:7706-7715 | after every frame of every run the window is full, or every tile of the target frame has landed or is in flight |
| PrefetchSteps.RequestsMeetTheirFate | bench/claims.js:7668-7703 | a request whose time has not come flies on in order while some remaining frame covers its tile and is dropped otherwise; late landings are counted in order |
| PrefetchSteps.LandedTilesAreAvailable | bench/claims.js:7668-7682 | a tile becomes available exactly when a request for it was due, and counts from its own due time |
| Prefetch.CoveredLeadWastesNothing | bench/claims.js:7640-7718 | at every frame, if the latency is below the lead and half a frame, nothing was late or abandoned and every request in flight is aimed at a frame ahead |
| Prefetch.LeadOfLatencyWastesNothing | bench/claims.js:7744-7755 | the printed claim: a lead of at least the latency means no late and no abandoned tile, for every flight and window |
| SlidingFlights.WasteFreeIffLeadCoversLatency | bench/claims.js:7597-7615 | all the flights the bench can build, through all windows, are waste-free if and only if the latency is below the lead and half a frame, whatever the tiles per frame; and so are all flights whatsoever |
| SlidingFlights.WasteIffShortLeadAndRoom | bench/claims.js:7640-7718 | on every single sliding flight and window: something lands late or is abandoned if and only if the lead is too short and the window leaves room, at once when wider than a frame, else once the destination has landed, while ground is left to pass |
| SlidingFlights.NarrowWindowsHideAShortLead | bench/claims.js:7756-7760 | against the printed line: at the defaults and two seconds per tile no window up to a frame's tiles wastes anything on any flight |
| SlidingFlights.MissedIsWasted | bench/claims.js:7670-7703 | a request for ground that passes before it lands makes the whole flight count waste |
| SlidingFlights.DestinedToTheEnd | bench/claims.js:7705-7714 | once the cursor only asks for the last frame nothing more is wasted |
| SlidingFlights.WindowWaits | bench/claims.js:7665-7714 | a window filled with the destination on the opening frame changes nothing until that lands |
| SlidingFlights.SteadyIsBuilt | bench/claims.js:7600-7615 | a flight of even steps is one the generator can draw |
| AdmissionGate.Gate.Acquire | bench/claims.js:5582-5590 | the slot is claimed inside the decision; otherwise the caller queues |
| AdmissionGate.Gate.Release | bench/claims.js:5595-5601 | a completion frees its slot and hands free slots to waiters in order |
| AdmissionGate.Gate.Observe | bench/claims.js:5594 | the peak is the largest pending count seen after an acquire |
| AdmissionGate.RunAccounted | bench/claims.js:5569-5602 | under every interleaving and every cap: each submission is granted once or waiting once, and pending counts the granted that have not completed |
| AdmissionGate.StepLine | bench/claims.js:5582-5602 | a step moves people forward in the line, appends the newcomer, or lets the newcomer in ahead of the waiters |
| AdmissionGate.FifoIffNobodyOvertakes | bench/claims.js:5582-5602 | grants are in submission order if and only if no submission ever found a free slot while others waited |
| AdmissionGate.FallingCapsAreFair | bench/claims.js:5575-5602 | while the cap never rises nobody overtakes and grants are in submission order, under every interleaving |
| AdmissionGate.ChangeIsFairIffItLowers | bench/claims.js:5575-5602 | a change of cap is fair to every interleaving if and only if it does not raise the cap |
| AdmissionGate.RisingCapOvertakes | bench/claims.js:5575-5580 | from any cap to any larger one, a later submission can overtake a waiter |
| AdmissionGate.UncappedGrantsAtOnce | bench/claims.js:5576 | with a cap of Infinity everyone is granted on submission |
| AdmissionGate.PeakWithinTheLargestCap | bench/claims.js:5594-5601 | however the cap moves, pending and the recorded peak stay within the largest cap there was |
| AdmissionGate.PeakIsGreatestObserved | bench/claims.js:5594 | the reported peak is the greatest pending count that a continuation observed |
| AdmissionGate.FixedCapSettles | bench/claims.js:5569-5602 | with a fixed cap, pending and peak stay within it, and anyone waits only while it is used up |
| AdmissionGate.FixedCapGrantsInOrder | bench/claims.js:5569-5602 | with a fixed cap, exactly the first `completed + cap` submissions have been granted, in order |
| AdmissionGate.WaiterGrantedAfterItsTurn | bench/claims.js:5595-5601 | with a fixed cap, a waiter with `k` ahead is granted if and only if at least `k + 1` completions followed |
| AdmissionGate.NobodyIsStranded | bench/claims.js:5569-5602 | with caps that admit somebody, fixed or moving, someone waits only while a request is in service |
| Coalescer.Worker.Diff | bench/claims.js:7111-7116 | the worker applies a diff update by update and answers with its length |
| Coalescer.CoalescerArm.Mutate | bench/claims.js:7251-7259 | last write wins in place; past the bound the oldest pending id is dropped and counted |
| Coalescer.CoalescerArm.Flush | bench/claims.js:7238-7244 | a flush posts the pending mutations as one diff and empties the Map; an empty flush does nothing |
| Coalescer.CoalescerArm.OnReply | bench/claims.js:7127-7136 | a reply answers the oldest diff and resolves every send that waits, each adding it to the report |
| Coalescer.ApplyPut | bench/claims.js:7209-7218 | overwriting a pending mutation and then applying leaves the store as applying and then overwriting does |
| Coalescer.ApplyConcat | bench/claims.js:7185-7201 | applying in batches is applying in one go, which is all the un-merged arm relies on |
| Coalescer.SeenStep | bench/claims.js:7104-7136 | a reply changes nothing of what the worker will have seen, a flush adds the pending mutations |
| Coalescer.CoalescingPreservesTheStore | bench/claims.js:7173-7268 | for every stream and every interleaving of flushes and replies, while nothing is dropped, flushing now will give the store of applying every mutation one by one, with a subset of its dirty tiles |
| Coalescer.FlushedRunEqualsDirect | bench/claims.js:7264-7267 | so a run that ends with the draining flush, once answered, equals the per-mutation arm's store |
| Coalescer.AppliedIsAnsweredIff | bench/claims.js:7238-7247 | the reported `applied` is what the worker has answered for, throughout a run, if and only if every reply finds exactly one send waiting |
| Coalescer.CountIsRightIffNoOverlap | bench/claims.js:7238-7247 | in the flusher's terms: once every diff is answered, the count was right throughout if and only if no flush was posted while an earlier diff was unanswered |
| Coalescer.DrainedCountIsRightIffNoOverlap | bench/claims.js:7238-7247 | and so for every run that ends with the draining flush, which counts as one of them |
| Coalescer.OverlapMiscounts | bench/claims.js:7127-7136 | two flushes before the first reply count it twice |
| Coalescer.DropsNothingIffWithinBound | bench/claims.js:7251-7257 | nothing is dropped if and only if no stretch between flushes touches more ids than the bound |
| Coalescer.IdsBelowBoundNeverDrop | bench/claims.js:7148-7153 | with ids below the bound, as the stream has them, the drop branch never fires |
| Coalescer.StoreIsKeptIffIdsFit | bench/claims.js:7251-7267 | all streams over `n` ids end with the direct store, wherever the flushes fell, if and only if the ids fit the bound |
| Coalescer.DropLosesAWrite | bench/claims.js:7251-7257 | at every bound, more distinct ids than that between two flushes lose writes |
| Coalescer.PendingIsABoundedQueue | bench/claims.js:7249-7260 | what is pending is a queue of ids with a bound: each holds the last mutation of its id, a repeated id keeps its place, and a new one past the bound drops the oldest |
| Coalescer.UpdatesCountResolvedSends | bench/claims.js:7238-7247 | the reported `updates` counts the sends that have been resolved |
| Framing.ParseInPieces | src/helpers/powerMessageCodec.js:496-534 | reading a stream in two pieces is reading it whole: frames, tail and failure |
| Framing.ChunkingDoesNotMatter | bench/claims.js:4606-4619 | the same for any way of cutting a stream into chunks |
| Framing.DecodePrefix | src/helpers/powerMessageCodec.js:309-348 | bytes behind a whole frame do not change what it decodes to |
| Framing.EncodedFramesReadBack | src/helpers/powerMessageCodec.js:221-348 | any list of encodable frames followed by an incomplete tail reads back as exactly those frames and that tail |
| Framing.ReadFramesEncodeBack | src/helpers/powerMessageCodec.js:221-348 | and back: what a strict reader takes, re-encoded, is byte for byte what it consumed |
| Framing.LengthReadsBack | src/helpers/powerMessageCodec.js:284-292 | the four length bytes read back the payload length modulo 2^32 |
| Framing.RawRoundTripIffLengthFits | src/helpers/powerMessageCodec.js:221-231 | a raw payload survives framing if and only if its length fits the 32-bit field |
| Framing.OversizedIsRefusedOnItsHeader | src/helpers/powerMessageCodec.js:500-518 | a frame over the ceiling is refused on its header alone, and the frames before it are kept |
| Framing.DecodesIff | src/helpers/powerMessageCodec.js:309-347 | bytes decode exactly when they start with the bytes of a frame whose version is accepted, whose codec is known and whose JSON payload parses, and then to that frame and its length |
| FrameDecoder.NaiveDrain | bench/claims.js:4609-4616 | the inner loop takes exactly the whole frames at the front |
| FrameDecoder.NaiveDecodeAll | bench/claims.js:4602-4619 | the re-concatenating reader returns the frames of the whole stream, whatever the chunks |
| FrameDecoder.Decoder.constructor | src/helpers/powerMessageCodec.js:452-455 | an empty decoder over a 1024-byte buffer |
| FrameDecoder.Decoder.Push | src/helpers/powerMessageCodec.js:496-534 | the two-cursor decoder holds and returns what parsing tail plus chunk gives; a throw returns no frames and keeps the rest |
| FrameDecoder.Decoder.Drain | src/helpers/powerMessageCodec.js:502-532 | whole frames are taken off the front in order until one is missing, refused or oversized |
| FrameDecoder.Decoder.Reserve | src/helpers/powerMessageCodec.js:462-482 | room is made by compacting or by growing, and neither changes the bytes held |
| FrameDecoder.Decoder.Compact | src/helpers/powerMessageCodec.js:469 | moving the live bytes to the front of the same buffer |
| FrameDecoder.Decoder.Grow | src/helpers/powerMessageCodec.js:471-478 | moving the live bytes to a larger buffer |
| FrameDecoder.Decoder.Doubled | src/helpers/powerMessageCodec.js:473-475 | doubling stops at the first fitting capacity, below twice what is needed |
| FrameDecoder.Decoder.Append | src/helpers/powerMessageCodec.js:499-500 | a chunk lands directly behind the bytes held |
| FrameDecoder.Decoder.Consume | src/helpers/powerMessageCodec.js:523-524 | the read cursor moves past exactly one whole frame |
| FrameDecoder.Decoder.MovedBytesAreLinear | src/helpers/powerMessageCodec.js:380-386 | all copying by compaction and growth together is at most 3 bytes per byte pushed, over every run |
| FrameDecoder.Decoder.Flush | src/helpers/powerMessageCodec.js:546-557 | a copy of the remainder, or in strict mode the length that is missing |
| FrameDecoder.Decoder.Reset | src/helpers/powerMessageCodec.js:571-574 | drops what is held and keeps the buffer |
| FrameDecoder.Decoder.Dispose | src/helpers/powerMessageCodec.js:584-587 | leaves a decoder that can be pushed to again |
| FrameDecoder.IncrementalDecodeAll | bench/claims.js:4621-4628 | on any chunking it ends as the naive reader does, and with the same frames when the stream does not fail |
| FrameDecoder.FailureIsFinal | src/helpers/powerMessageCodec.js:496-534 | after a throw nothing further is delivered |
| FrameDecoder.DeliveredIsAPrefix | src/helpers/powerMessageCodec.js:496-534 | however a stream is cut, what is delivered is a prefix of the frames it carries, and all of them while nothing throws |
| FrameDecoder.DeliveryIgnoresChunkingIff | src/helpers/powerMessageCodec.js:496-534 | all chunkings of a stream deliver the frames it carries if and only if the stream does not fail, or fails before its first frame: a throw takes the frames of its own chunk with it |
| PowerBatch.PowerBatch.constructor | src/helpers/powerBatch.js:44-81 | an empty batch, with a `maxSize` of at least 1 or none |
| PowerBatch.PowerBatch.Add | src/helpers/powerBatch.js:91-105 | queues the item under the shared promise, then schedules or, when full, cancels the schedule and runs at once; returns that promise |
| PowerBatch.PowerBatch.Flush | src/helpers/powerBatch.js:118-132 | nothing to wait for when idle, otherwise the shared promise with a callback on its way; the flush itself does not depend on the signal, the wait does |
| PowerBatch.PowerBatch.EnsurePendingPromise | src/helpers/powerBatch.js:143-157 | one pending promise per batch being assembled |
| PowerBatch.PowerBatch.RunQueued | src/helpers/powerBatch.js:163-181 | the queue is handed over whole, in order, with the promise its items share |
| PowerBatch.PowerBatch.OnTick | src/helpers/powerScheduler.js:494-511 | the flag is cleared before the callback; a stale callback does nothing while disarmed |
| PowerBatch.PowerBatch.OnHandlerDone | src/helpers/powerBatch.js:184-190 | the handler's outcome settles the promise of the items it received |
| PowerBatch.PowerBatch.CancelSchedule | src/helpers/powerScheduler.js:444-457 | cancelling disarms; only a microtask stays in flight |
| PowerBatch.PowerBatch.Clear | src/helpers/powerBatch.js:222-229 | queued items are dropped, their promise is rejected, the schedule cancelled |
| PowerBatch.StepKeepsInv | src/helpers/powerBatch.js:91-229 | every atomic step keeps queue, pending promise, scheduler, segments and tickets coupled |
| PowerBatch.TicketsAreTheAdds | src/helpers/powerBatch.js:91-105 | the items on record are those of the `add` calls, every one and in order |
| PowerBatch.ItemsAreTakenExactlyOnce | src/helpers/powerBatch.js:91-191 | over every interleaving each item of each `add` call is in exactly one delivered or cleared segment or still queued, in add order, in batches of at most `maxSize`, and the promise `add` returned settles as its own batch did |
| PowerBatch.NothingWaitsWithoutAWakeUp | src/helpers/powerBatch.js:91-132 | between steps a queue, a pending promise and an armed scheduler come and go together, a callback is on its way, and the rethrow at line 189 never happens |
| PowerBatch.NextTickDeliversTheQueue | src/helpers/powerBatch.js:163-181 | whichever callback fires next, stale or not, delivers the whole queue as one batch |
| PowerBatch.HistoryIsFinal | src/helpers/powerBatch.js:184-229 | later events never move a taken item or change a settled promise |
| PowerBatch.BatchStartsWhen | src/helpers/powerBatch.js:91-105 | over every interleaving: an `add` hands a batch over exactly when it makes the queue `maxSize` long, a callback exactly when something is queued, `clear` takes what is queued, and nothing else ends a batch; each takes the whole queue |
| PowerBatch.AddsAreBatchedBySize | src/helpers/powerBatch.js:91-105 | `n` adds in one turn start `n / maxSize` batches of exactly `maxSize` items, in order, and leave `n % maxSize` queued; without a `maxSize` none is started |
| PowerBatch.FlushWaitsIffQueued | src/helpers/powerBatch.js:118-132 | a flush with nothing queued is settled at once, any other waits for the promise of the batch that will take the queue |
| PowerBatch.CallbacksInFlight | src/helpers/powerScheduler.js:330-457 | a cancellable callback is in flight exactly while something is queued; a microtask cannot be taken back, so every arming leaves one that fires later |
| AbortableWaits.AbandonedIffFiredBeforeTheReaction | src/utils/abort.js:25-63 | a wait with a live signal ends with the abort if and only if the signal fired before the reaction to the settled promise ran, follows the promise if and only if the reaction ran first, and goes on exactly while neither has happened, over every interleaving |
| AbortableWaits.WaitsSettleOnce | src/utils/abort.js:33-62 | every wait, raced or not, settles once: no later settlement, abort or reaction changes how it ended |
| AbortableWaits.AbortLeavesTheBatchAlone | src/helpers/powerBatch.js:118-132 | signals abandon waits and nothing else: the batch runs as if no signal had been passed to any flush |
| AbortableWaits.PlainWaitsFollowThePromise | src/utils/abort.js:26-31 | without a signal the wait follows the shared promise, whatever fires |
| AbortableWaits.AbortBeatsASettledPromise | src/utils/abort.js:51-61 | the input that tells the two readings apart: after `clear` has rejected the promise, an abort in the same turn still decides the wait |
| AbortableWaits.RacedView.constructor | src/utils/abort.js:34-62 | a raced wait starts out listening and unsettled |
| AbortableWaits.RacedView.OnAbort | src/utils/abort.js:51-58 | the abort listener runs once and rejects the view unless it has settled |
| AbortableWaits.RacedView.OnReaction | src/utils/abort.js:39-50 | the reaction takes the listener off and settles the view as the promise, unless it has settled |
| Statistics.SortSorts | bench/baseline.js:161 | the sorted copy is sorted and has the same values as often |
| Statistics.PercentileWithin | bench/baseline.js:159-168 | an interpolated percentile lies between any bounds on the values |
| Statistics.PercentileMonotone | bench/baseline.js:159-168 | percentiles never fall as the rank grows |
| Statistics.MedianIsPercentile50 | bench/run.js:555-560 | the harness's median is the gate's 50th percentile |
| Statistics.TrimKeepsTheMedian | bench/run.js:462-473 | the symmetric trim never moves the median |
| Statistics.MedianResistsAMinority | bench/run.js:555-560 | the median stays within bounds that more than half of the values respect on either side |
| Statistics.OneSampleCannotMoveTheFigure | bench/run.js:450-473 | from three samples on, one arbitrary sample cannot pull the figure out of the range of the others |
| Statistics.FiguresIgnoreOrder | bench/run.js:462-473 | no reported figure depends on the order of the samples |
| Statistics.PercentileOfEvenSteps | bench/baseline.js:159-168 | on evenly spaced samples a percentile is linear in its rank |
| Statistics.RankIsShare | bench/baseline.js:159-168 | the rank is that share of the way from the first sample to the last |
| Statistics.TrimmedMedianReportsTheRange | bench/run.js:462-473 | the reported range is that of all samples and is attained; the trim starts at five |
| RegressionGate.Compare | bench/baseline.js:199-431 | the loops and the verdict: fail if and only if some site counts, inconclusive if and only if none does and the machine moved or got noisier; the sites it found, in order |
| RegressionReport.Report | bench/baseline.js:199-431 | the whole returned record: status, count, and the reason lines in the order in which they are assembled |
| RegressionReport.RankSorts | bench/baseline.js:281-287 | the ranking of both kinds of site line is a stable sort by the figure printed in the line, highest first (also 382-384) |
| RegressionReport.FurthestMoveFirst | bench/baseline.js:371-384 | regression lines come furthest move first, to within the tenth of a percent that the ranking reads back |
| RegressionReport.WidestFirst | bench/baseline.js:279-285 | the lines of sites not judged come widest first, by the ratio of the spreads as printed |
| RegressionReport.RanksByExcessIff | bench/baseline.js:371-384 | the documented order, furthest past its own threshold first, holds of all reports against a baseline, to within the tenth that is read, if and only if all recorded sites share one threshold |
| RegressionReport.TwoThresholdsMisrank | bench/baseline.js:371-384 | given two different thresholds, two measurements whose lines are ranked against their moves past them |
| RegressionReport.NothingIsDropped | bench/baseline.js:356-369 | every site past its threshold is a line of its own or counted as explained, only a shift explains any, and every noisy site is a line of its own |
| RegressionReport.LineShowsTheMove | bench/baseline.js:268-277 | a line names its site, the recorded median and then the one measured now, which is higher, and the move between them |
| RegressionReport.NoisyLineShowsTheWidening | bench/baseline.js:254-257 | a noisy line says from which recorded spread to which the band widened, past what is tolerated |
| RegressionReport.HeadlineFigures | bench/baseline.js:315-416 | the figures of the headlines: the noise now against the recorded, the median move of the machine, the share of the run that counts and whether it is most of it, and how many the machine explains |
| RegressionReport.ReasonsAreInReadingOrder | bench/baseline.js:405-423 | what could not be trusted comes first, then how much moved, then the sites that count, then those not judged |
| RegressionReport.SilentIffNothingHappened | bench/baseline.js:415-431 | there are no reason lines if and only if the run passes and no site was noisy |
| RegressionGate.JudgeSites | bench/baseline.js:248-277 | each recorded band is set aside as too wide, collected as a regression, or passed |
| RegressionGate.CollectDeltas | bench/baseline.js:308-312 | the relative moves of the sites with a positive recorded median |
| RegressionGate.MeasureShift | bench/baseline.js:318-319 | the machine moved when enough sites give a median move beyond the tolerance |
| RegressionGate.FilterByShift | bench/baseline.js:359-362 | a shift keeps only regressions that moved further than the machine; without one all are kept |
| RegressionGate.CountedAreRegressed | bench/baseline.js:427-429 | the filtered list is non-empty exactly when some site counts |
| RegressionGate.RegressedIff | bench/baseline.js:248-277 | a site is past its threshold exactly when it is recorded with a positive median, its band is not widened, and it got slower than both its own recorded spread and the median spread of the machine excuse |
| RegressionGate.WithinEitherSpreadNeverCounts | bench/baseline.js:268-277 | a site within either spread never counts against a run, and one past both with an unwidened band is always in the list |
| RegressionGate.VerdictIff | bench/baseline.js:301-362 | a regressed site counts unless the machine moved, in the median, at least as far; the run is noisier than its record by its 95th percentile |
| RegressionGate.BandByBand | bench/baseline.js:248-313 | every list and count of the report takes the bands of the run one by one, in order: the regressed, the noisy, the moves, and how many have a record |
| RegressionGate.RecordedIsLast | bench/baseline.js:208 | of two records of one label the last counts |
| RegressionGate.BaselineRecords | bench/baseline.js:480-496 | a baseline keeps the bands and records the 95th percentile and the median of their spreads, to the nearest hundredth |
| RegressionGate.MinorityCannotHideARegression | bench/baseline.js:289-319 | while fewer than half of the compared sites got slower beyond the tolerance and fewer than half faster, the run fails if and only if some site regressed, however the others moved |
| RegressionGate.UniformMoveFailsOnlyUnshifted | bench/baseline.js:359-362 | a uniform move fails the run if and only if it does not register as a shift and some site is past its threshold |
| RegressionGate.OwnBaselinePasses | bench/baseline.js:480-496 | a report compared with its own baseline passes with no noisy site, rounding to two decimals included |
| RegressionGate.OwnBaselinePassesByDefault | bench/baseline.js:201-206 | in particular with the default tolerances |
| RegressionGate.EveryReportPassesItselfIff | bench/baseline.js:480-496 | every report passes against its own baseline, with no noisy site, if and only if the spread and slowdown tolerances are at least 1, the noise tolerance at least 1.5 and the shift tolerance not negative |
| RegressionGate.RoundingLosesLittle | bench/baseline.js:491 | a positive figure rounded to hundredths is more than two thirds of what it was |
| Prometheus.TwoPassesAreOneEscape | src/helpers/metrics.js:283 | the two `replaceAll` passes are one simultaneous escape of backslash and quote |
| Prometheus.PrintsIffValid | src/helpers/metrics.js:263-285 | labels print if and only if every name is valid and no value holds a line break, as their comma-joined list |
| Prometheus.SectionReadsBack | src/helpers/metrics.js:263-286 | a printed label section reads back as exactly its label list, values unescaped |
| Prometheus.SectionsAreDistinct | src/helpers/metrics.js:263-286 | distinct label lists print distinct sections |
| PrometheusText.FormatPrometheus | src/helpers/metrics.js:244-329 | the text of all descriptors, or the first error in order, with nothing returned |
| PrometheusText.DocumentPrintsIff | src/helpers/metrics.js:244-329 | the text is printed exactly when every descriptor is named, typed, documented on one line, validly labelled and finite, with buckets that never fall from 0 on, ties allowed |
| PrometheusText.DescriptorPrintsIff | src/helpers/metrics.js:249-327 | and so for one descriptor |
| PrometheusText.FirstBadDescriptorDecides | src/helpers/metrics.js:248-329 | the first descriptor that cannot be printed decides the error |
| PrometheusText.OutputReadsLineByLine | src/helpers/metrics.js:328 | a line reader of the text sees exactly the intended lines: no value ends a line early |
| PrometheusText.KindsByName | src/helpers/metrics.js:289-290 | the TYPE line names the kind |
| PrometheusText.SampleReadsBack | src/helpers/metrics.js:296 | a sample line reads back as name, labels and value text |
| PrometheusText.BucketReadsBack | src/helpers/metrics.js:318-320 | a spliced bucket line is a sample of `name_bucket` whose last label is `le`, and reads back as that |
| PrometheusReader.DocumentReadsBack | src/helpers/metrics.js:244-329 | the whole text, cut into lines and read with any blanks between tokens, gives every descriptor's metadata and samples, all and in order |
| PrometheusReader.DescriptorReadsBack | src/helpers/metrics.js:249-327 | the lines of one descriptor read back as its help, type and samples, bucket by bucket |
| PrometheusReader.HelpReadsBackIff | src/helpers/metrics.js:287-289 | help text is printed unescaped, so a reader of the format gets it back if and only if it holds no backslash and neither starts nor ends with a blank or a tab |
| PrometheusDocument.DocumentIsAcceptedIff | src/helpers/metrics.js:244-329 | a reader that keeps the format's rules for the lines of a metric name accepts the text if and only if no descriptor is named like another one or its samples and every help text is validly escaped as it stands |
| PrometheusDocument.DocumentIsFaithfulIff | src/helpers/metrics.js:244-329 | that reader gets exactly what the descriptors say if and only if their names are clear in that sense and no help text holds a backslash or an outer blank |
| MetricsSeries.WalkInto | src/helpers/metrics.js:88-113 | the recursive walk with its one mutable output map |
| MetricsSeries.Flatten | src/helpers/metrics.js:78-116 | the series of one helper; nothing for an empty name or a non-object |
| MetricsSeries.NothingWithoutAName | src/helpers/metrics.js:75-76 | without a name, or of anything but an object, there is no series |
| MetricsSeries.WalkWritesTheLeaves | src/helpers/metrics.js:88-113 | the walk writes the leaves outside nested arrays, in order, under their joined names, and nothing else |
| MetricsSeries.SplitRecoversThePath | src/helpers/metrics.js:57-58 | on dot-free keys, splitting a joined name recovers the path |
| MetricsSeries.LeafPathsAreDistinct | src/helpers/metrics.js:88-113 | in a tree of dot-free keys every leaf has its own path |
| MetricsSeries.FlatteningIsLossless | src/helpers/metrics.js:78-116 | on dot-free keys each leaf appears under exactly one key with its value, its path is recoverable, and there is nothing else |
| MetricsSeries.SeriesShowsTheTree | src/helpers/metrics.js:78-114 | against the tree itself: the value that a path leads to is shown as it is under the joined path, number, flag, text or null, and what is not finite as its text; nothing else is in the series |
| MetricsSeries.SeriesDeterminesTheLeaves | src/helpers/metrics.js:78-114 | so a series has one reading: trees that flatten to the same one have the same value at every leaf path, but for a text that spells a number that is not finite |
| MetricsCollector.Collector.Register | src/helpers/metrics.js:382-391 | a new name is appended, a known one replaced in place, an empty one refused |
| MetricsCollector.Collector.Unregister | src/helpers/metrics.js:401-403 | removes exactly that name and keeps the order of the rest |
| MetricsCollector.Collector.TakeSnapshot | src/helpers/metrics.js:415-441 | merges the series of every source that answers, records the message of every one that throws, and adds names, version and time |
| MetricsCollector.SeriesKeysStartWithTheName | src/helpers/metrics.js:431 | every key of a source starts with prefix, name and a dot |
| MetricsCollector.NamesCollideIffNested | src/helpers/metrics.js:431-432 | two sources can write the same key if and only if one name extends the other by a dot |
| MetricsCollector.SnapshotAddsNothing | src/helpers/metrics.js:415-441 | whatever a snapshot holds, some source wrote |
| MetricsCollector.SnapshotIsLossless | src/helpers/metrics.js:415-441 | with no name a dotted extension of another, a snapshot holds every series of every source that answered |
| MetricsCollector.LaterSourceWins | src/helpers/metrics.js:431-432 | where two sources write one key the later one is seen |
| MetricsCollector.ErrorsAreTheThrows | src/helpers/metrics.js:420-430 | a source that throws is recorded under its own name with its own message, and nobody else is |
| AdaptiveProposal.PowerAdaptiveProposal.constructor | src/helpers/powerAdaptiveProposal.js:32-71 | starts at the initial value with the options in range |
| AdaptiveProposal.PowerAdaptiveProposal.MakeProposal | src/helpers/powerAdaptiveProposal.js:108-127 | cooldown, then hysteresis, then a clamped step against the signal |
| AdaptiveProposal.PowerAdaptiveProposal.RollBackTo | src/helpers/powerAdaptiveProposal.js:130-138 | an in-range target is taken with a full cooldown; otherwise refused with the state unchanged |
| AdaptiveProposal.PowerAdaptiveProposal.RestoreFrom | src/helpers/powerAdaptiveProposal.js:84-101 | a snapshot is taken exactly when value and integer cooldown are in range; the counters stay |
| AdaptiveProposal.PowerAdaptiveProposal.OnResult | src/helpers/powerAdaptiveProposal.js:160-178 | the stability counters and the record handed out |
| AdaptiveProposal.ValueStaysInBounds | src/helpers/powerAdaptiveProposal.js:84-138 | over every run of proposals, rollbacks and restores the value stays in `[min, max]`, and reversals stay below adjustments |
| AdaptiveProposal.ProposalIsBounded | src/helpers/powerAdaptiveProposal.js:119-126 | a proposal moves by at most `maxStep` and the signal, against its sign, and reports a change exactly when there is one |
| AdaptiveProposal.ProposalMoves | src/helpers/powerAdaptiveProposal.js:108-127 | what one proposal does, exactly: the cooldown counts down, the hysteresis absorbs, and otherwise the value moves against the signal by the lesser of `maxStep` and the signal, or to the bound in the way, and a move starts the cooldown anew |
| AdaptiveProposal.RollbackTakesTheTarget | src/helpers/powerAdaptiveProposal.js:130-138 | a rollback in range takes its target with a full cooldown, any other is refused |
| AdaptiveProposal.RestoreTakesTheSnapshot | src/helpers/powerAdaptiveProposal.js:84-101 | a snapshot is taken over exactly when it is in range, and the counters stay |
| AdaptiveProposal.CountersCountTheRun | src/helpers/powerAdaptiveProposal.js:160-178 | over every run, adjustments are its changes and rollbacks, and the peak is its strongest signal |
| AdaptiveProposal.ReversalsTurnAround | src/helpers/powerAdaptiveProposal.js:160-178 | a reversal is an adjustment in the direction opposite to that of the last one |
| AdaptiveProposal.SnapshotsRestoreIffCooldownIsInteger | src/helpers/powerAdaptiveProposal.js:79-101 | every snapshot of every run, restored in mid-life or not, can be restored if and only if the cooldown is an integer |
| AdaptiveProposal.RestoredControllerIsIndistinguishable | src/helpers/powerAdaptiveProposal.js:79-127 | a restored controller, whatever its own history, gives identical results for every future signal sequence |
| AdaptiveProposal.ChangesAreSpaced | src/helpers/powerAdaptiveProposal.js:110-124 | two changes are at least `cooldown + 1` proposals apart |
| AdaptiveProposal.ChangesAreRateLimited | src/helpers/powerAdaptiveProposal.js:110-124 | among `n` proposals the changes cost `cooldown + 1` each out of `n + cooldown` |
| AdaptiveProposal.DriftIsBounded | src/helpers/powerAdaptiveProposal.js:119-123 | the value drifts by at most `maxStep` per change |

## Left out

- SIEVE and the hybrids' hot queues at capacity 0: evicting the only node leaves the hand on an unlinked one (bench/claims.js:1334-1339); `BenchSieve` requires a capacity of at least 1, which the hybrids always give it.
- SieveCache.BenchSieve.SweepHand: the guard's early return is not in the body; the contract bounds the guard below its limit.
- Generational.BenchGenerational.Get: the Maps only ever hold the value 1, so they are modelled as sets.
- HybridCache.HybridSieve.Set: the two hybrid classes are one class with two constructors, since they differ in their region sizes alone; their shared eviction counter is the sum of the FIFO's and the hot queue's.
- Replay.ReplayLru: only the LRU and the generational replay are modelled as loops; SIEVE and the hybrids are covered over arbitrary runs of gets and sets. Timing and the hit-rate quotients are left out.
- Region sizes use integer division for `Math.floor(capacity * 0.25)` and its like.
- `BenchBlockQueue` (bench/claims.js:2696-2755), whose one cursor serves both ends, and `BenchAdaptive` (2237-2343), which wraps a cache that is not part of this model.
- The seeded generators of streams and flights, console tables and worker threads of the bench: traces and streams are arbitrary, and a flight may take any step that the generator can draw.
- PrefetchRun.IssueWanted: iterates the wanted tiles as listed where the source iterates their Set; a repeated tile is then already in flight.
- AdmissionGate.Gate.Acquire: promises are numbers and the pool is not part of this model; the adaptive cap is read once per step.
- Coalescer.CoalescerArm.Flush: timers and the JSON round trip of the diff are left out; a flush may come anywhere between mutations. The worker applies a diff at the step in which its reply arrives.
- Framing.Decode: parsing a JSON payload is a predicate on its bytes; copies and views of raw payloads are not told apart; the byte `or` of the length is a sum.
- FrameDecoder.Decoder.Flush: returns the missing length where the source throws a message with it.
- PowerBatch.PowerBatch.RunQueued: the handler call is a later step of its own, so a handler that calls back synchronously is an interleaving like any other; the ring buffer behind the queue is a sequence.
- PowerBatch.PowerBatch.Flush: the abort reason is one value, and `dispose` is `clear`.
- PowerBatch.PowerBatch.CancelSchedule: macrotask, yield and postTask callbacks all count as cancellable; the shared message channel is left out.
- RegressionReport.Report: the wording of the lines and the command line are left out, and with the wording a label that holds a percentage of its own, which the ranking would read first; figures are reals, with no floating-point rounding but the decimals that are printed or kept.
- Prometheus.PrintsIffValid: numbers are given with their decimal text; coercions of non-string names and values are left out.
- PrometheusText.OutputReadsLineByLine: assumes that finite numbers print as some digits, signs, points and exponents, and nothing else.
- PrometheusDocument.ReadDocument: blanks inside the braces, timestamps and samples repeated under one name and label set, which the format leaves undefined, are not told apart; the printer writes none of the first two.
- MetricsSeries.FlatteningIsLossless: a key named `__proto__`, which a plain JS object treats specially, is left out.
- MetricsCollector.Collector.TakeSnapshot: each source's callback is read once per snapshot, as a function of its number, and the clock is a parameter; `toOTLP`, observations, the shared default collector and `attach` are left out.
- AdaptiveProposal.PowerAdaptiveProposal.MakeProposal: checks for non-finite numbers and unknown options are left out, as are `stats` and its aliases.
