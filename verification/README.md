# A verified model of vmops-bench

vmops-bench measures how virtual-memory operations (map, unmap, protect, and the TLB
shootdowns they cause) scale over the cores of a machine. Its threads meet at barriers,
hammer one address space, sample latencies into one shared array, and run on cores that
are picked node by node or given as a list. This project models those parts in Dafny and
proves what they are for. `dafny verify dfyconfig.toml` checks all of it.

| file | part |
|---|---|
| `Barrier.dfy`, `BarrierRuns.dfy`, `BarrierObject.dfy` | the sense-reversing barrier: one shared access per step, whole runs of n threads, and the object the steps update |
| `VirtualMemory.dfy`, `Regions.dfy` | the address space and its four operations; the private 512 GiB regions |
| `Bench4k.dfy` | the benchmarks of many 4 KiB mappings: n threads, one barrier, one address space, any interleaving, any call may fail |
| `Bench4kMemory.dfy`, `Bench4kRing.dfy` | conservation of mappings; the `addrs[]` rings against the address space |
| `Bench4kRuns.dfy`, `Bench4kOverlap.dfy`, `Bench4kFair.dfy`, `Bench4kOrder.dfy`, `Bench4kWitness.dfy` | phases and completion, exactly when phases can overlap, fair runs, the order of page accesses, runs in which a promise is broken |
| `Bench4kAlone.dfy`, `Bench4kCode.dfy` | isolated mode refines each thread running alone; the function as its loops are written |
| `Bench4kProgress.dfy`, `BenchWholeProgress.dfy`, `MapLoopsProgress.dfy`, `ProtectProgress.dfy` | exactly when a step succeeds and a timed loop goes on, and runs of k iterations for every k up to the limit |
| `BenchWhole.dfy`, `BenchWholeRuns.dfy` | the benchmarks of one large mapping, with the driver and spinners of the TLB benchmark; their fair runs |
| `MapLoops.dfy`, `MapLoopsIsolated.dfy`, `MapLoopsMemory.dfy`, `MapLoopsCode.dfy` | the timed loops that map, or map and unmap: n threads over one address space, their reach in isolated mode, conservation in default mode, and the loops as they are written |
| `MapLoopsReport.dfy` | from a run of these loops to the reported latency |
| `ProtectLoops.dfy`, `TlbMemory.dfy` | the address space under the protect loop and under the TLB benchmark |
| `Sampler.dfy`, `Latency.dfy`, `SamplerArray.dfy` | the latency sampler, what its samples mean, and the flat array of all threads |
| `Topology.dfy`, `Residues.dfy` | the order of cores |
| `CoreList.dfy`, `Options.dfy`, `Vregion.dfy` | the two scanners and the slot allocator |
| `Sums.dfy`, `Schedules.dfy`, `MachineWords.dfy` | sums and cardinalities, fair schedules, word sizes |

## How the model is built

* Concurrency is a state machine under sequential consistency. In the barrier every read,
  fetch-and-add and write of `cycle` and `counter` is a step of its own; in the benchmarks
  a step is one such access or one call into the platform. A run is a schedule of thread
  numbers, together with what the environment answers. The history variables `done`,
  `round`, `closers`, `open`, `leaks` and `log` influence no step.
* The kernel is an input: each call carries `ok` (does the kernel grant it) and, for a map
  without fixed address, the range it picks, which succeeds only when that range is free.
  A call that fails has no effect, but for a protect of several pages, which may have
  changed the first of them. Unmapping a range that is not mapped succeeds and has no
  effect, as in POSIX.1-2017.
* Arithmetic that wraps in the source wraps here: the 32-bit barrier counter, `tid + 2`,
  region addresses, `offset + size`, `page++`, `sampling_next`, `strtoul` and its
  truncation.
* The Linux barrier is the one of libpthread; the model uses the Barrelfish one, whose
  wait returns 0 to every thread.
* `Config.Valid` says what the source needs to work: at least one thread and fewer than
  2^32; a memory size of at least one page (argument preparation has mapped one page of
  the object, `PrepopulateGivesPages`); in isolated mode thread numbers with
  `tid + 2 < 2^25` and a size of at most 512 GiB (`RegionsDisjointIff`, `RegionFitsIff`
  show what happens at the limit).

## What turned out not to hold, and exactly when it does

* A 4 KiB thread whose setup fails skips the ready barrier, and its clean-up can overlap the
  timed loops of the others. From a reachable state such an overlap is still possible exactly
  when nobody has run out of memory, one thread has its timed loop before it or is in it, and
  the setup of another may still fail, or has failed and is not cleaned up (`OverlapIff`); from
  the start that is every benchmark of two or more threads (`OverlapFromStart`).
  `SetupFailureOverlaps` is one such run.
* The run can end exactly when one number of waits is possible for all threads
  (`Bench4kRuns.CompletesIff`): once all setups are decided, when they went alike
  (`PossibleIffSameEnding`). Under a fair scheduler it then ends by itself, and hangs
  otherwise (`Bench4kFair.FairRunSettles`); every benchmark of two or more threads has a run
  that hangs (`Bench4kWitness.HangReachable`).
* In the other benchmarks a failing call in a timed loop returns past the end barrier. The
  run then hangs unless all loops fail (`LoopFailureHangs`, `BenchWhole.CompletesIff`); every
  such benchmark of two or more threads has a run that hangs (`BenchWholeRuns.HangReachable`).
* After a failed re-map `addrs[idx]` still names the unmapped page: the rings mirror the
  address space exactly when no re-map has failed (`RingWholeIff`), and every configuration
  that re-maps can get there (`StaleReachable`). In default mode the kernel may give that page
  to another thread, whose live page the clean-up would then unmap (`StaleHitsLive`). The
  address space is restored nevertheless (`Bench4kMemory.Conservation`).
* A fixed map replaces what was there: in isolated mode the address space is restored
  exactly when it held none of the fixed pages at entry (`IsolatedConservationIff`); for every
  entry that holds one there is a run that loses it (`FixedPageIsLost`).
* The filled core order lists every core once exactly when each belongs to exactly one of
  the nodes, and writes past its array exactly when its list is longer (`ListedIff`,
  `FillLinux`, `FillBarrelfish`).
* The interleaved core order writes past its array exactly when some node n has more cores
  than there are indices congruent to n (`InBoundsIff`, `InterleaveLinux`), as for one core on
  the first node and two on the second (`UnbalancedNodes`). It is sure to list every core once
  exactly when each core belongs to one node and each node has as many cores as indices
  (`PermutationIff`).
* The map-only loop can leave its region exactly when as many ranges as it may map do not fit
  into 512 GiB (`LeavesRegionIff`); it then maps over the next thread's region
  (`RunsIntoNeighbour`). The threads are independent of each other exactly when they do fit
  (`RefinementIff`).
* In isolated mode the driver of the TLB benchmark maps and unmaps at a fixed address, and so
  takes away a page of a thread's own view exactly when the kernel has put that page into the
  driver's range (`IsolatedKeepsPageIff`); in default mode it never does (`DefaultKeepsViews`).
* The core-list parser returns a count that is one too large exactly for a trailing comma
  (`CountIsRightIff`), and does so for every list with a comma appended (`TrailingComma`). It
  keeps exactly the numbers below 2^32 (`EntryIsValueIff`).
* The slices of the sample array are apart exactly when stats * (n - 1) is below 2^32
  (`SlicesApartIff`). When only stats * n reaches 2^32 the slices are still apart, but the
  reporting loop sums no more than a part of thread 0's samples (`Report`,
  `WrapsWithSlicesApart`).

## Model

| member | source | states |
|---|---|---|
| `Barrier.InitInv` | src/platform/barrelfish.c:732-740 | a freshly initialised barrier of n threads satisfies the invariant, for every n from 1 to 2^32 - 1 |
| `Barrier.AddIsExact` | src/platform/barrelfish.c:745 | while the counter is below max, neither the 32-bit fetch-and-add nor `max - 1` wraps |
| `Barrier.AddArrives` | src/platform/barrelfish.c:745 | a fetch-and-add makes exactly this thread an arrival of the round, and it takes the last-arriver branch iff everybody else has arrived |
| `Barrier.AddKeepsInv` | src/platform/barrelfish.c:745 | the fetch-and-add keeps the invariant, also when it completes the round |
| `Barrier.FlipReleases` | src/platform/barrelfish.c:746-757 | when the last arriver flips, every other thread is spinning on exactly the sense that the flip changes, so all of them are released at once |
| `Barrier.FlipKeepsInv` | src/platform/barrelfish.c:746-747 | the flip keeps the invariant |
| `Barrier.StepKeepsInv` | src/platform/barrelfish.c:742-761 | every single shared access of any thread keeps the invariant |
| `Barrier.StepIsLocal` | src/platform/barrelfish.c:742-761 | an access moves one thread only, and a wait is counted exactly when the thread leaves the barrier |
| `BarrierRuns.RunKeepsInv` | src/platform/barrelfish.c:742-761 | the invariant holds in every state of every run, whatever number of waits each thread performs |
| `BarrierRuns.BarrierSafety` | src/platform/barrelfish.c:742-761 | in every interleaving nobody has returned from its k-th wait before all n threads have entered their k-th; completed counts differ by at most one |
| `BarrierRuns.OneLastArriverPerRound` | src/platform/barrelfish.c:744-747 | one thread per round takes the last-arriver branch; the counter is the number of arrivals of the round except from the reset to the flip |
| `BarrierRuns.NoLostWakeup` | src/platform/barrelfish.c:751-757 | a released spinner stays released however long the others run: the sense cannot flip twice before its next read |
| `BarrierRuns.SomebodyMoves` | src/platform/barrelfish.c:742-761 | while equal quotas are not used up, some thread has a step that is not an idle spin read |
| `BarrierRuns.MoveDecreases` | src/platform/barrelfish.c:742-761 | every step that is not an idle spin read lowers a natural-number measure of the run |
| `BarrierRuns.CanFinish` | src/platform/barrelfish.c:742-761 | with equal quotas no reachable state is a deadlock |
| `BarrierRuns.CompletesIffEqual` | src/platform/barrelfish.c:742-761 | n threads can complete their waits iff all of them perform the same number of waits |
| `BarrierRuns.FairBarrierTerminates` | src/platform/barrelfish.c:742-761 | under every fair schedule n threads with q waits each are done after at most 5nq windows in which each gets a turn |
| `BarrierObject.Execution.Access` | src/platform/barrelfish.c:742-761 | the next access of a thread, on the object's fields in place, is exactly a step of the state machine |
| `BarrierObject.Execution.Interleave` | src/platform/barrelfish.c:742-761 | any schedule of accesses on the object is exactly a run, so all theorems about runs hold of it |
| `VirtualMemory.OnePageEffect` | src/platform/linux.c:294-405 | a call of any of the four operations on one page changes that page only, and when it is refused, nothing; with the status returned in each case |
| `VirtualMemory.MapFixedEffect` | src/platform/linux.c:334-365 | a map at a fixed address shows the object in order on exactly the pages of its range, and when it is refused changes nothing; it is refused for bad arguments exactly when the object is invalid, offset + size (modulo 2^64) exceeds it, or the address is null |
| `VirtualMemory.MapFixedSucceedsIff` | src/platform/linux.c:334-365 | a fixed map of any size succeeds iff it is granted, the object is valid, offset + size (modulo 2^64) is in its bounds, the address is a page and not null, the size is not 0 and the offset a multiple of 4096 |
| `VirtualMemory.MapAnywhereEffect` | src/platform/linux.c:294-321 | the same for a map at an address the kernel picks, which moreover takes only pages that were free |
| `VirtualMemory.MapAnywhereSucceedsIff` | src/platform/linux.c:294-321 | a map of any size at a picked address succeeds iff the same holds and no page of the range is in use |
| `VirtualMemory.UnmapEffect` | src/platform/linux.c:399-405 | a granted unmap empties the pages of its range, mapped or not, and leaves every other page alone |
| `VirtualMemory.UnmapSucceedsIff` | src/platform/linux.c:399-405 | an unmap succeeds iff it is granted for a non-empty range that starts at a page |
| `VirtualMemory.ProtectEffect` | src/platform/linux.c:376-388 | a protect succeeds on mapped pages only and then changes the permission of exactly its range; one that fails has done so for a proper part at the start of the range, if any, and on one page for nothing; what a page shows never changes |
| `VirtualMemory.ProtectSucceedsIff` | src/platform/linux.c:376-388 | a protect succeeds iff it is granted for such a range, all of whose pages are mapped |
| `VirtualMemory.OnePageProtect` | src/benchmarks/protect.c:147-152 | a protect of one page changes it as a whole or not at all |
| `Regions.AddressOfSlot` | src/benchmarks/utils.h:114-120 | after the 32-bit and 64-bit wraps a region is slot (tid + 2) mod 2^25 of the address space, for every tid |
| `Regions.RegionStart` | src/benchmarks/utils.h:114-120 | in bytes, below the last slot: the region of thread t starts at 512 GiB * t + 1280 GiB |
| `Regions.RegionsDisjointIff` | src/benchmarks/utils.h:114-120 | two threads' 512 GiB regions are disjoint iff their ids differ modulo 2^25 |
| `Regions.RegionFitsIff` | src/benchmarks/utils.h:114-120 | a region does not run over 2^64 iff its thread is not in the last slot; its start is a page and not null |
| `Regions.FixedAddrInjective` | src/benchmarks/mapunmap.c:142-154 | the fixed addresses of all threads are in their regions and pairwise different while nmaps * 4096 stays within a region |
| `Bench4k.StepKeepsInv` | src/benchmarks/mapunmap.c:116-237 | the control invariant of all threads: each stands where its number of completed waits says, for every step and every failure |
| `Bench4k.PagesOfObject` | src/benchmarks/mapunmap.c:135 | the ring has an entry for each whole page of the object: nmaps * 4096 <= memsize < (nmaps + 1) * 4096 |
| `Bench4k.RingInBounds` | src/benchmarks/mapunmap.c:145-158 | every offset i * 4096 of the ring passes the bounds check of the memory object |
| `Bench4k.RunKeepsInv` | src/benchmarks/mapunmap.c:116-237 | the control invariant holds in every state of every run |
| `Bench4kMemory.ProgramEffect` | src/benchmarks/mapunmap.c:142-228 | each platform call touches at most one page, which its ring names afterwards; in default mode that page was free, or one that the thread's ring already named, if only by an entry that a failed re-map has left behind |
| `Bench4kMemory.StepKeepsMemory` | src/benchmarks/mapunmap.c:142-228 | at each step every mapped page is an untouched entry page, a live ring entry or a leak, and no untouched entry page is lost |
| `Bench4kMemory.Conservation` | src/benchmarks/mapunmap.c:142-228 | for every interleaving with a successful clean-up, whatever failed before: the address space ends as it began except for pages a ring named; always exactly in default mode |
| `Bench4kMemory.IsolatedConservationIff` | src/benchmarks/mapunmap.c:142-154 | in isolated mode the address space is restored iff it held none of the fixed pages at entry |
| `Bench4kRing.ProgramAdvances` | src/benchmarks/mapunmap.c:174-210 | a thread's step keeps its own ring exact and touches no page that another ring could name |
| `Bench4kRing.AdvanceKeepsRing` | src/benchmarks/mapunmap.c:174-210 | a thread's step keeps all other rings exact and disjoint from its own |
| `Bench4kRing.RunKeepsRing` | src/benchmarks/mapunmap.c:142-228 | in every state of every run, until the clean-up of a ring with a failed re-map begins, the rings of all threads mirror the address space |
| `Bench4kRing.RingWholeIff` | src/benchmarks/mapunmap.c:196-206 | until clean-up, entry j of each ring shows offset j * 4096 of its thread's object and no page is named twice, iff no re-map has failed |
| `Bench4kRing.RingShowsObject` | src/benchmarks/mapunmap.c:142-167 | in every run, when a thread stands at the ready barrier, each whole page of its object is shown, read-write, by an entry of its ring |
| `Bench4kRuns.PhaseSeparation` | src/benchmarks/mapunmap.c:166-232 | while any thread is in its timed loop nobody sets up, and whoever cleans up is a thread whose setup failed |
| `Bench4kOverlap.OverlapIff` | src/benchmarks/mapunmap.c:142-232 | from a reachable state a run can lead to a clean-up beside a timed loop iff nobody lacks memory, one thread has its timed loop ahead or is in it, and another's setup may fail or has failed with its clean-up not over |
| `Bench4kOverlap.OverlapFromStart` | src/benchmarks/mapunmap.c:142-232 | from the start such a run exists iff there are two or more threads |
| `Bench4kOverlap.LeadAll` | src/benchmarks/mapunmap.c:142-219 | from any state in which nobody lacks memory or has returned from more than one wait, a run to one in which all have returned from their first: with no other setup failing, and that of one chosen thread failing if that is still ahead of it |
| `Bench4kOverlap.SetupFails` | src/benchmarks/mapunmap.c:142-149 | for every configuration of two or more threads a run in which the setup of thread 0 fails, that of thread 1 does not, and the first cleans up when the second begins its timed loop |
| `Bench4kRuns.CompletesIff` | src/benchmarks/mapunmap.c:136-232 | a reachable state can run to its end iff one number of waits is still possible for all threads |
| `Bench4kRuns.Complete` | src/benchmarks/protect.c:136-180 | such a state has a continuation to the end that leaks no further page |
| `Bench4kRuns.PossibleBefore` | src/benchmarks/mapunmap.c:136-149 | no step gives a thread back a number of waits it had lost |
| `Bench4kOverlap.SetupFailureOverlaps` | src/benchmarks/mapunmap.c:149 | so every configuration of two or more threads has a run in which a clean-up overlaps a timed loop |
| `Bench4kWitness.StaleReachable` | src/benchmarks/mapunmap.c:196-206 | for every configuration that re-maps, every entry and every thread, a reachable state in which that thread's re-map has failed and its ring names a page that is not mapped, so that the rings are not whole |
| `Bench4kWitness.StaleHitsLive` | src/benchmarks/mapunmap.c:201-206 | in default mode, for any two threads, a reachable state in which the stale entry of one names a page that the kernel has since given to the other, which the first one's clean-up would unmap |
| `Bench4kWitness.HangReachable` | src/benchmarks/mapunmap.c:142-149 | for every configuration of two or more threads and every entry, a reachable state that can no longer end |
| `Bench4kWitness.FixedPageIsLost` | src/benchmarks/mapunmap.c:142-151 | for every entry that holds a fixed page, a run with all setups and clean-ups successful that does not restore it |
| `Bench4kFair.UsefulStep` | src/benchmarks/mapunmap.c:116-237 | every step that is not an idle spin read lowers a natural-number measure, whatever the environment answers |
| `Bench4kFair.FairRunSettles` | src/benchmarks/mapunmap.c:116-237 | under every fair schedule and every environment a run settles within a bound, and is then over iff all threads have ended alike: all set up, none set up, or all out of memory |
| `Bench4kFair.PossibleIffSameEnding` | src/benchmarks/mapunmap.c:136-149 | once no thread is still setting up, one number of waits is possible for all iff their setups went alike |
| `Bench4kFair.FairRunEnds` | src/benchmarks/protect.c:136-180 | a fair run in which every thread has set up is over, whatever calls have failed since |
| `Bench4kAlone.ProgramStaysHome` | src/benchmarks/mapunmap.c:142-191 | in isolated mode a step neither reads nor writes outside the thread's region |
| `Bench4kAlone.IsolatedRefinement` | src/benchmarks/mapunmap.c:142-191 | for every interleaving of n threads each thread's locals and its view of its region equal those of the thread running alone on the same inputs |
| `Bench4kAlone.AloneStepIsStep` | src/benchmarks/mapunmap.c:116-237 | a step of a thread alone is its step among the others, but for the accesses that wait at the barrier, in either mode |
| `Bench4kCode.SetupRing` | src/benchmarks/mapunmap.c:142-164 | the setup loop over the array performs exactly the setup steps, reaches the ready barrier iff all maps succeed, and each whole page of the object is then shown at an address of the array |
| `Bench4kCode.TimedLoop` | src/benchmarks/mapunmap.c:174-210 | the timed loop over the array performs exactly the timed steps, ends, and returns the number of whole iterations, never more than nops |
| `Bench4kCode.CleanupRing` | src/benchmarks/mapunmap.c:221-228 | the clean-up loop performs exactly the clean-up steps, skipping null entries and going on after failures |
| `Bench4kCode.BenchRun4k` | src/benchmarks/mapunmap.c:116-237 | the whole function always returns, with the locals and the address space of the state machine running alone, and a count of at most nops |
| `Bench4kProgress.StepOutcome` | src/benchmarks/mapunmap.c:142-228 | in every state of every run a call of any thread fails iff it is denied, or picks no free page, and a timed loop goes on iff there is time and nops, or 2^64 - 1, is not reached |
| `Bench4kProgress.KIterations` | src/benchmarks/mapunmap.c:116-237 | for every configuration, entry and k up to the limit, a run in which all threads make exactly k iterations, clean up and end |
| `Bench4kProgress.AtMostNops` | src/benchmarks/mapunmap.c:174-210 | in no run a thread makes more iterations than nops |
| `Bench4kProgress.SameObjectIff` | src/benchmarks/utils.c:212-239 | two threads map the same object iff the configuration shares it; it has the size asked for |
| `Bench4kOrder.RingOrder` | src/benchmarks/mapunmap.c:175-177 | in every run, the i-th iteration that thread t begins works on page (t + i) mod nmaps |
| `Bench4kOrder.RingIsFair` | src/benchmarks/mapunmap.c:175-190 | in every run, until the page counter wraps, the m iterations that a thread has begun have worked on each page floor or ceil of m / nmaps times |
| `Bench4kOrder.PrepopulateGivesPages` | src/benchmarks/utils.c:242-249 | a prepopulating map that succeeded implies nmaps >= 1, so `% nmaps` is defined |
| `BenchWhole.StepKeepsInv` | src/benchmarks/tlbshoot.c:18-122 | every step keeps the control invariant of the one-mapping benchmarks, early returns and the `done` flag included |
| `BenchWhole.DriverGoesFirst` | src/benchmarks/tlbshoot.c:49-63 | no spinner leaves its loop, and nobody passes the final barrier, before thread 0 has ended its timed loop and set `done` |
| `BenchWhole.FlagMeansCompletion` | src/benchmarks/tlbshoot.c:110-121 | once `done` is set all threads can always reach the end |
| `BenchWhole.CompletesIff` | src/benchmarks/mapunmap.c:48-103 | a reachable state can run to its end iff one number of waits is still possible for all threads |
| `BenchWhole.LoopFailureHangs` | src/benchmarks/mapunmap.c:59-69 | after a failing call in a timed loop the run can end iff all other loops can still fail; in the TLB benchmark, never with a spinner |
| `BenchWholeRuns.FairRunSettles` | src/benchmarks/mapunmap.c:48-103 | under every fair schedule and every environment a run settles within a bound, and is then over iff all threads have ended alike: regularly, by a failed setup, or by a failed iteration |
| `BenchWholeRuns.FairRunEnds` | src/benchmarks/mapunmap.c:48-103 | a fair run in which no call has failed is over |
| `BenchWholeRuns.FairFlagEnds` | src/benchmarks/tlbshoot.c:110-121 | a fair run of the TLB benchmark in which the driver has set `done` is over for all threads |
| `BenchWholeRuns.HangReachable` | src/benchmarks/mapunmap.c:59-69 | every such benchmark of two or more threads has a run in which thread 0 fails in its first iteration and which can no longer end |
| `BenchWholeProgress.StepOutcome` | src/benchmarks/protect.c:35-84 | a thread fails iff a call is denied, a loop goes on iff there is time and nops, or 2^64 - 1, is not reached, and the driver sets the flag behind its loop |
| `BenchWholeProgress.KIterations` | src/benchmarks/mapunmap.c:48-103 | for every benchmark and k up to the limit, a run in which each thread with a timed loop makes exactly k iterations and all end |
| `BenchWholeProgress.AtMostNops` | src/benchmarks/mapunmap.c:57-80 | in no run a thread makes more iterations than nops |
| `BenchWholeProgress.SetupFailsIff` | src/benchmarks/tlbshoot.c:33-39 | a thread can fail to map before the ready barrier iff the benchmark maps there |
| `MapLoopsIsolated.StepAtHome` | src/benchmarks/mapunmap.c:55-69 | a loop whose ranges fit into its region depends on that region only, and changes no other |
| `MapLoopsIsolated.IsolatedRefinement` | src/benchmarks/mapunmap.c:55-77 | for any interleaving of n loops, mapping and unmapping or only mapping, whose ranges fit into 512 GiB, each thread's locals and its view of its region equal those of its loop alone on the same inputs |
| `MapLoopsIsolated.RefinementIff` | src/benchmarks/mapunmap.c:55-77 | for two or more threads, all interleavings of all runs are as if each thread ran alone iff the ranges a loop can map fit into 512 GiB, which the configuration tells |
| `MapLoopsIsolated.PairsClear` | src/benchmarks/mapunmap.c:57-69 | a loop that maps and unmaps changes no page outside its range; when it is not between its calls and no unmap has failed, the range is empty from the first whole iteration on, and before it the space is that of the start |
| `MapLoopsIsolated.ReachIff` | src/benchmarks/mapunmap.c:266-276 | a map-only loop holds ranges of its own region only iff so many fit into 512 GiB |
| `MapLoopsIsolated.LeavesRegionIff` | src/benchmarks/mapunmap.c:266-276 | some run of a map-only loop leaves its region iff as many ranges as can be mapped do not fit into 512 GiB |
| `MapLoopsIsolated.RunsIntoNeighbour` | src/benchmarks/mapunmap.c:266-276 | such a run, whose last range covers the first page of the next thread's region |
| `MapLoopsIsolated.NounmapFills` | src/benchmarks/mapunmap.c:266-280 | when a map-only loop's ranges fit into its region, each shows its part of the object afterwards, and no other page has changed |
| `MapLoopsMemory.StepKeepsMemory` | src/benchmarks/mapunmap.c:78-93 | in default mode each step of each loop keeps the start's pages untouched and every held range on pages of its own |
| `MapLoopsMemory.Conservation` | src/benchmarks/mapunmap.c:78-93 | for any interleaving of n loops in default mode and any failures: no page of the start is touched, each held range shows its object, held ranges are pairwise disjoint, and nothing else is mapped |
| `MapLoopsMemory.RestoredIff` | src/benchmarks/mapunmap.c:78-93 | the address space is that of the start iff no loop holds a range |
| `MapLoopsMemory.PairsRestore` | src/benchmarks/mapunmap.c:78-93 | n interleaved loops that map and unmap leave the address space as it was when none is between its calls and no unmap has failed, whatever maps have failed |
| `MapLoopsMemory.AloneHoldsOnly` | src/benchmarks/mapunmap.c:281-295 | a loop running alone adds its held ranges on free, pairwise disjoint pages, overwrites nothing and changes nothing else |
| `MapLoopsProgress.RunOnTime` | src/benchmarks/mapunmap.c:57-80 | in every run of n loops each reading but the last is before the end, no loop makes more than nops iterations (2^64 - 1 for nops 0), and one that has ended the regular way has its last reading at or past the end or has made exactly so many |
| `MapLoopsProgress.StepOutcome` | src/benchmarks/mapunmap.c:57-69 | a loop goes on iff its last reading is before the end and nops is not reached; it fails iff a call is denied, or picks a range in use; and it reads the clock once for each whole iteration |
| `MapLoopsProgress.KIterations` | src/benchmarks/mapunmap.c:78-102 | for every number of loops, any space and k up to the limit, a run in which each of them completes k iterations: in default mode for all three loops, in isolated mode for the one that unmaps |
| `MapLoopsProgress.OffsetIs` | src/benchmarks/mapunmap.c:340-343 | map i of the loop over single pages shows page (t + i) mod 2^64 mod nmaps |
| `MapLoopsProgress.SameObjectIff` | src/benchmarks/utils.c:212-239 | two threads map the same object iff the configuration shares it; it has the size asked for |
| `MapLoopsCode.BenchRunIsolated` | src/benchmarks/mapunmap.c:55-77 | the loop is exactly the state machine alone, ends in time (at or past its end time, or at nops) and feeds the sampler exactly its clock readings; no page outside its range changes whatever fails, and when no call has failed the range is unmapped, or, after no iteration at all, as it was |
| `MapLoopsCode.BenchRunDefault` | src/benchmarks/mapunmap.c:78-102 | the loop is exactly the state machine alone, ends in time and feeds the sampler exactly its clock readings; it leaves nothing behind, and at most one range after a failing call |
| `MapLoopsCode.NounmapIsolated` | src/benchmarks/mapunmap.c:266-280 | the same, counting before the sampler call; range i lies i * memsize bytes into the region modulo 2^64, and all lie in the region iff they fit; they then show the object, and no other page has changed |
| `MapLoopsCode.NounmapDefault` | src/benchmarks/mapunmap.c:281-295 | the same; each iteration adds a whole view of the object on pages free before, and overwrites nothing |
| `MapLoopsCode.Nounmap4kIsolated` | src/benchmarks/mapunmap.c:336-351 | the loop over single pages is exactly the state machine alone and ends in time; map i lies i * 4096 bytes into the region, all lie in it iff counter * 4096 fits, and map i then shows page (tid + i) mod nmaps of the object |
| `MapLoopsCode.Nounmap4kDefault` | src/benchmarks/mapunmap.c:352-366 | the same in default mode: each iteration adds a view of that page on a page free before |
| `ProtectLoops.OneStep` | src/benchmarks/protect.c:35-84 | a call changes only a page of its own thread's view, takes only a free page in default mode, and keeps what the view shows; a failing protect may change the right on a part of it |
| `ProtectLoops.Conservation` | src/benchmarks/protect.c:35-84 | for every interleaving of n threads in either mode and whatever fails: a page of a view shows that view and is in no other, writable unless its thread is between its two calls or one has failed; every other page is as at entry, but for the holes that unmapped views leave in isolated mode |
| `ProtectLoops.RestoredIff` | src/benchmarks/protect.c:35-84 | in default mode the address space is that of the entry iff no view is left |
| `ProtectLoops.GrantedProtects` | src/benchmarks/protect.c:57-67 | in every run a protect that the kernel grants succeeds: its range is always mapped |
| `ProtectLoops.BenchRun` | src/benchmarks/protect.c:35-84 | the function as written is exactly the state machine alone; it leaves its view writable, or after a failing call what the unmap has left, and touches nothing else |
| `ProtectProgress.StepOutcome` | src/benchmarks/protect.c:35-84 | in every state of every run a call fails iff it is denied, or picks a range in use; the loop goes on iff there is time and nops is not reached; and a granted way out leaves nothing mapped |
| `ProtectProgress.KIterations` | src/benchmarks/protect.c:35-84 | for every number of threads, entry and k up to the limit, a run in which every thread makes exactly k iterations and ends, with its view whole and writable |
| `ProtectProgress.AtMostNops` | src/benchmarks/protect.c:56-71 | in no run a thread makes more iterations than nops |
| `TlbMemory.ViewsApart` | src/benchmarks/tlbshoot.c:33-39 | at the ready barrier the views that the threads have mapped are on pages free at entry and pairwise disjoint |
| `TlbMemory.DefaultKeepsViews` | src/benchmarks/tlbshoot.c:87-109 | in default mode all views stay mapped throughout the driver's loop, and the space is again that of the barrier whenever the driver is between two iterations |
| `TlbMemory.IsolatedKeepsPageIff` | src/benchmarks/tlbshoot.c:66-86 | in isolated mode a mapped page outside the driver's range never changes, and one inside is gone after the first iteration |
| `Latency.CallsSnoc` | src/benchmarks/mapunmap.c:71-74 | an iteration adds one sampler call, with the time since the start and the time since the previous reading |
| `Sampler.Bookkeeping` | src/benchmarks/utils.h:133-148 | the recorded samples are the accepted calls in order, within capacity, none from the warm-up, each with the thread number and the elapsed time, operation number and latency of its call |
| `Sampler.SamplesOfThread` | src/benchmarks/utils.h:146 | all samples of a thread carry its number, with increasing operation numbers if its calls have such |
| `Sampler.ChosenIsSeparated` | src/benchmarks/utils.h:138-148 | the recorded calls come after the warm-up, in order, at least the sampling interval apart |
| `Sampler.GreedyStaysAhead` | src/benchmarks/utils.h:138-148 | below capacity no separated selection of calls is longer than the recorded one or ends earlier |
| `Sampler.SamplerIsOptimal` | src/benchmarks/utils.h:130-149 | the number of samples is the smaller of the capacity and the size of the largest separated selection of the calls after the warm-up |
| `Sampler.SpacedIffNoWrap` | src/benchmarks/utils.h:148 | neighbouring samples are at least the interval apart iff adding the interval does not wrap at 64 bits |
| `Latency.CallsNonDecreasing` | src/benchmarks/mapunmap.c:71-74 | the elapsed times a timed loop passes never decrease, so optimality applies to every loop |
| `Latency.RecordedTime` | src/benchmarks/mapunmap.c:50-76 | the recorded latencies sum to at most the time since the tenth operation, and to exactly that with interval 0 and room for every call |
| `Latency.EverythingRecorded` | src/benchmarks/utils.h:133-148 | with interval 0 every call after the tenth is recorded until the capacity is used |
| `Latency.RecordedIntervalsApart` | src/benchmarks/mapunmap.c:103-108 | recorded samples denote intervals of time that do not overlap |
| `SamplerArray.Stats.AddStats` | src/benchmarks/utils.h:130-149 | on the object the call is the sampler's step; it writes at most one entry, with the thread number and the three numbers of the call, inside its own slice |
| `SamplerArray.SlicesApart` | src/benchmarks/utils.c:260 | the slices of two threads do not overlap |
| `SamplerArray.SlicesApartIff` | src/benchmarks/utils.c:260 | with the offsets computed in 32 bits, no two of n slices share an entry iff stats * (n - 1) is below 2^32 |
| `SamplerArray.WrapsWithSlicesApart` | src/benchmarks/utils.c:157 | with 10,000,000 samples and 430 threads the slices are apart while the bound of the reporting loop wraps to 5,032,704 |
| `SamplerArray.Prepare` | src/benchmarks/utils.c:251-261 | the slices cover a zeroed array of stats * n entries, and each sampler starts fresh on its own, whenever the offsets do not wrap |
| `SamplerArray.AddFrom` | src/benchmarks/utils.h:146 | a call of one thread leaves the samples of every other thread as they were |
| `SamplerArray.Interleave` | src/benchmarks/utils.c:251-261 | any interleaving of the threads' calls leaves each with what its own calls alone would have recorded, and slice t with entries of thread t in the order of their operations, whenever the offsets do not wrap |
| `SamplerArray.TotalOfSlice` | src/benchmarks/utils.c:157-160 | unwritten slots add nothing, so a slice contributes the sum of its recorded samples |
| `SamplerArray.FlatSumIsPerThread` | src/benchmarks/utils.c:152-162 | the sum over the flat array is the sum over the threads of what each records alone |
| `SamplerArray.SumLatencies` | src/benchmarks/utils.c:157-160 | the loop sums the first stats * n entries modulo 2^32 |
| `SamplerArray.Report` | src/benchmarks/utils.c:152-162 | for every interleaving the reporting loop computes the sum of what each thread records alone, or, when its bound wraps, the sum of the first stats * n - 2^32 samples of thread 0 |
| `SamplerArray.ReportedTime` | src/benchmarks/utils.c:152-162 | for n timed loops with their own clock readings, in any interleaving, the reported sum is at most what the threads have measured after their tenth operations, and exactly that with interval 0 and room for every call |
| `MapLoopsReport.RunCalls` | src/benchmarks/mapunmap.c:72-76 | in every run of n interleaved loops the sampler calls of a thread, among those of all threads, are exactly those of its own clock readings |
| `MapLoopsReport.CallIs` | src/benchmarks/mapunmap.c:72-76 | in every run the i-th sampler call of a thread carries the time since its start, the time since its previous reading and the iteration number, from 0 on or, in the map-only loop, from 1 on |
| `MapLoopsReport.RunSamples` | src/benchmarks/utils.h:146 | in every run the samples of a thread carry its number and increasing iteration numbers |
| `MapLoopsReport.RunReports` | src/benchmarks/utils.c:152-162 | for every run of n interleaved loops, whatever fails in it, and every order in which their sampler calls reach the array: the reported latency is at most what the threads have measured after their tenth operations, and exactly that with interval 0 and room for every call |
| `Topology.FillWrites` | src/platform/linux.c:150-152 | each core of a node is written, at the index that the loops have reached when they come to it |
| `Topology.FillOrder` | src/platform/linux.c:148-154 | for any node masks the core that the loops meet first comes first in the list |
| `Topology.FillLength` | src/platform/linux.c:148-154 | the list has as many entries as all nodes together have cores |
| `Topology.TwoHomes` | src/platform/linux.c:146-155 | a core of two nodes is written twice |
| `Topology.ListedIff` | src/platform/linux.c:146-155 | the fill lists every core exactly once iff every core belongs to exactly one node |
| `Topology.PartitionIsListed` | src/platform/linux.c:146-155 | it is then grouped by node and ascending within each node |
| `Topology.FillNodes` | src/platform/linux.c:148-154 | for any node masks the loops write that list, and stay inside the array iff it is no longer than the array |
| `Topology.FillLinux` | src/platform/linux.c:146-155 | for any node masks: no write leaves the array iff the list fits; the array is a permutation of all cores iff each belongs to exactly one node, and then grouped by node and ascending within each node |
| `Topology.FillBarrelfish` | src/platform/barrelfish.c:257-283 | the same with core 0 last, for any node masks; when each other core belongs to exactly one node every proper prefix leaves core 0 out |
| `Topology.SequentialBarrelfish` | src/platform/barrelfish.c:185-194 | the sequential fallback is 1, 2, ..., with core 0 last: a permutation whose proper prefixes leave core 0 out |
| `Topology.InBoundsIff` | src/platform/linux.c:156-166 | for any node masks the interleaved writes stay in the array iff no node n has more cores than there are indices congruent to n |
| `Topology.FitIffBalanced` | src/platform/linux.c:156-166 | when each core belongs to exactly one node, no node is too large iff each has exactly as many cores as there are such indices |
| `Topology.CoreIsPlaced` | src/platform/linux.c:156-166 | for any node masks that fit, each core of node n is at an index congruent to n |
| `Topology.CoresAscend` | src/platform/linux.c:156-166 | the cores of a node are in ascending order, without a gap, and what is not written stays as it was |
| `Topology.WrittenIff` | src/platform/linux.c:156-166 | index i is written iff the node i mod nnodes has more than i / nnodes cores |
| `Topology.InterleavedIsPermutation` | src/platform/linux.c:156-166 | with such nodes the array lists every core once, index i on node i mod nnodes, whatever it held before |
| `Topology.PermutationIff` | src/platform/linux.c:141-166 | for any node masks: the loops write inside the array and leave each core in it once, whatever malloc has left there, iff each core belongs to exactly one node and the nodes are balanced |
| `Topology.InterleaveLinux` | src/platform/linux.c:156-166 | for any node masks: the writes stay inside iff no node is too large, and the loops then compute the interleaved array, with what malloc has left at the indices that no core goes to; with a partition it is a permutation iff they stay inside |
| `Topology.UnbalancedNodes` | src/platform/linux.c:162 | three cores, the first alone on its node: a partition whose last write is at index 3 |
| `Topology.PrefixIsFair` | src/main.c:209-213 | the first p cores, as the list is truncated, use floor or ceil of p / nnodes cores of each node |
| `CoreList.ParseCoresList` | src/main.c:41-101 | for every string all accesses are in bounds and the loops end; it accepts, exits or runs out of memory as the grammar says, with the entries first in a list of one slot more than commas, and the commas overwritten |
| `CoreList.StrToUl` | src/main.c:91 | the digits from a position to the terminator the parser has written, saturating at 2^64 - 1 |
| `CoreList.FieldIsDone` | src/main.c:73-95 | ending a field with a terminator and storing its number keeps the rest of the string readable and the list in step |
| `CoreList.AcceptedIff` | src/main.c:49-87 | a string is accepted iff it is not empty and holds only digits and commas, each comma right behind a digit |
| `CoreList.FieldsRead` | src/main.c:73-95 | digit runs of any length, joined by commas, with or without a comma at the end, are read as the list of their entries |
| `CoreList.AcceptedIsJoin` | src/main.c:73-95 | every accepted string is such a join |
| `CoreList.CountIsRightIff` | src/main.c:54-62 | the returned count equals the number of entries written iff the string does not end in a comma; otherwise it is one too large |
| `CoreList.TrailingComma` | src/main.c:56-62 | every list in comma-joined decimal form is also accepted with a comma appended, and its count is then one too large |
| `CoreList.EntryIsValueIff` | src/main.c:91 | an entry is the number that was written iff that number is below 2^32 |
| `CoreList.ValueConcat` | src/main.c:91 | numbers are read in decimal notation: the digits in front count by the power of ten of those behind |
| `CoreList.EntryIs` | src/main.c:91 | an entry is the number modulo 2^32 below 2^64, and 2^32 - 1 from there on |
| `CoreList.ValueOfDecimal` | src/main.c:91 | reading the decimal form of a number gives the number |
| `CoreList.RoundTrip` | src/main.c:41-101 | any non-empty list of 32-bit numbers is read back from its comma-joined decimal form, with its length |
| `Options.UniqueDecomposition` | src/benchmarks/utils.c:41-59 | a string is the concatenation of at most one sequence of option words |
| `Options.ParseOptions` | src/benchmarks/utils.c:32-74 | accepted iff a concatenation of option words without both -shared and -independent; the flags are the meaning of the words, and a rejected string leaves the configuration alone |
| `Options.InterpretConcat` | src/benchmarks/utils.c:32-74 | what a written sequence of words is read as: refused iff it holds both sharing words, shared unless -independent is among them |
| `Options.ReadAs` | src/benchmarks/utils.c:32-74 | a sequence of words is refused iff it has both sharing words; otherwise it is shared unless -independent is among them, and -isolated and -4k set their flags |
| `Options.OnlyTheSetMatters` | src/benchmarks/utils.c:41-59 | the order and the repetition of the words do not matter |
| `Options.ScriptSuffixParses` | scripts/run.sh:35 | each of the eight suffixes the run script builds is read back as the choice it was built from |
| `Vregion.Allocator.AllocVregion` | src/platform/barrelfish.c:458-490 | the call on the per-core fields is the allocator's step: free list first, then the chunk, a new chunk when there is none; it fails iff there is neither and malloc fails, without effect |
| `Vregion.FailsIff` | src/platform/barrelfish.c:458-490 | a call fails iff its core has neither a free slot nor a chunk and malloc fails |
| `Vregion.FreeSlotFirst` | src/platform/barrelfish.c:461-469 | a free slot is handed out first, from the head of the list, and no chunk is touched |
| `Vregion.StepIsGood` | src/platform/barrelfish.c:458-490 | a call keeps buf null or strictly below end in a chunk of its core, hands out a slot that was not taken, and gives none back |
| `Vregion.RunKeepsInv` | src/platform/barrelfish.c:458-490 | that holds after any calls from any cores |
| `Vregion.Freshness` | src/platform/barrelfish.c:458-490 | over any sequence of calls no slot is handed out twice, whatever distinct slots the free lists hold at the start |
| `Vregion.OwnChunk` | src/platform/barrelfish.c:471-481 | with empty free lists a slot comes from a chunk that the calling core has allocated |
| `Vregion.KthSuccess` | src/platform/barrelfish.c:471-487 | with empty free lists the k-th success on a core hands out slot (k - 1) mod 2000 of the newest chunk of that core, whatever calls come between on other cores |
| `Vregion.MemorySuffices` | src/platform/barrelfish.c:458-490 | while there is memory every call succeeds |
| `Vregion.ChunksAllocated` | src/platform/barrelfish.c:471-487 | with empty free lists a core with k successful calls has allocated ceil(k / 2000) chunks |

## Left out

- Weak memory and compiler reordering: the model is sequentially consistent, also for the non-volatile read of `done`.
- The kernel: `mmap`, `munmap`, `mprotect`, `memfd_create`, Barrelfish capabilities and the SKB are inputs that may fail, without effect but for a protect of several pages.
- A clock that steps back: the timed loops are modelled with readings that never decrease, while `plat_get_time` on Linux reads CLOCK_REALTIME (src/platform/linux.c:596-601), which can be set back.
- Huge pages, NUMA placement of memory, thread affinity, `rdtsc`, sleeping, and conversion to milliseconds: times are integer ticks, and an iteration of the state machines carries only whether time is left.
- Logging, CSV files, and the fields `count` and `duration` of the thread arguments.
- Sampler calls in the 4 KiB and protect loops: the source makes none there. The calls of the TLB driver, alone, are those of `Latency`.
- The additions of the spinners to `*sum` in the TLB benchmark, which race and are only printed.
- The barrier waits of `bench_run_nounmap_4k_fn` of mapunmap.c: it passes both on success and on failure.
- src/benchmarks/protectelevate.c, whose setup protects the first page whatever page it has just mapped, and the disabled block in src/benchmarks/tlbshoot.c:124-247.
- Creation and joining of threads, thread cancellation, and the error paths of argument preparation; on one of them src/benchmarks/utils.c:232-234 destroys `args[i]` in a loop over j.
- The sequential fallback on Linux, which lists 0, 1, 2 and so on.
- The interleaved order on Barrelfish: it resets its index per node, so src/platform/barrelfish.c:283 does not append core 0 there.
- Bytes of a core list that are no ASCII characters, for which `isdigit` of a negative `char` is undefined in C.
- Topology.InterleavedIsPermutation: demands that each core below nproc belongs to exactly one node, and so does `PrefixIsFair`; the source does not check it, and `numa_num_task_cpus` counts allowed CPUs, whose numbers need not be 0 to nproc - 1. What holds without it is `PermutationIff` and `InterleaveLinux`.
- Topology.InterleaveLinux: stops at the first write outside the array, which C leaves undefined.
- Topology.FillLinux: a write outside the array is where the model stops, because C leaves it undefined.
- SamplerArray.Prepare: demands that stats * (n - 1) is below 2^32; beyond it two slices share entries (`SlicesApartIff`), and what the threads then overwrite is not modelled.
- Sampler.SamplerIsOptimal: demands that elapsed time plus interval stays below 2^64; the spacing beyond it is `SpacedIffNoWrap`.
- Bench4kOrder.RingIsFair: holds until the 64-bit page counter wraps.
