# Verified model of the cluster memory-bandwidth regulator

The repository throttles the CPU cores of a cluster when the cluster, together with the GPU, has used
more memory bandwidth than its budget. This project models its logic in Dafny and proves what that
logic keeps. `dafny verify dfyconfig.toml` checks the whole project.

## What is modelled

**The kernel module** (`cl_mem_reg.c`). `Regulator` is a state machine over any number of cores and
clusters. A timer callback is cut into the accesses other cores can observe: compare-and-swap on the
shared tick count, read-back and re-arming, then either the regulation body, or charging and checking.
Throttle interrupts arrive as separate steps, receiver threads add and check on their own, cores
generate events and time advances. A run is any interleaving, from the initial state. `wiped`,
`gpuCharged` and `charged` are ledgers. On this machine stand

- `TickCounter`, `Throttling`, `Conservation` and `Periods` (`RegulatorRuns.dfy`): laws of every run, with no hypothesis;
- `Punctuality`: if time never reaches a core's deadline, the cores of a cluster stay in step and skip no tick;
  `Witnesses`: from any state before a regulation tick, a core can skip it if and only if time may reach its deadline;
- `Lockstep` and `Budget`: uniform throttling and the budget guarantee for punctual runs, with receivers at work;
- `Overshoot`, `Spending` and `Extremes`: the guarantee in numbers, and runs that reach it, for every number of
  cores, every demand and every budget;
- `Kernel`: the callback, the throttle interrupt and the receiver as methods on the module's own per-core and
  per-cluster structures, proved to simulate the machine's steps when undisturbed.

`Mailbox` is a second machine, one step per access to the two words or the ready flag of the slot between
the profiler's `write()` and the receiver thread. `Election` is the leader election, `Conversion` the
arithmetic of budgets and periods.

**The counter sampler** (`include/sampler.h` and what it drives). `CounterSet` and `IndexTables` compile
registered counters into index tables, `SampleLayout` builds the block layout, `BlockWalk` walks it,
`GpuSampler` clears and fills the sample buffer, `Profiler` is the signal handler that writes two words
to the module. The partner of the indexed code is `SampleSums`, a direct sum over the blocks.

**Containers and decoder.** `HashMap`, `Vector`, `Bitset` (over `Bits`), two ring buffers (`Queues.dfy`)
and `PropDecoder` (over `LittleEndian`).

Hypotheses, named where a theorem uses them: timers never fire before they are due; logging is off and the
module is not being unloaded; accesses to one word are atomic and seen in one order by all cores. For
`Lockstep` and `Budget` also: at least two ticks per regulation period, without which there is no regulation tick
at all (`Lockstep.RegulationExistsIff`; it is so exactly for T_R > T_A, `Conversion.OneTickIff`), and these
conditions on steps: time does not reach the deadline of a core's callback
(`Punctual`), a throttle interrupt arrives before the core's next callback (`Prompt`), a receiver does not
throttle in the middle of a regulation tick (`GpuOutside`), a core generates at most `e` events per interval and
none while stopped (`Demand`), and at any time receivers have added between -`d` and `g` events since the last
reset (`Received`). `Budget.Setting` asks for a leader inside the cluster and a budget that leaves room for the
overshoot below 2^31.

## What the code does that its documentation or its surroundings do not say

- A core whose callback for the tick due at start + k * T_A is not over before start + (k + 1) * T_A can jump to
  the shared count and skip a regulation tick; it then stays throttled although the usage was wiped. From any state
  before a regulation tick some continuation skips it if and only if time may reach that deadline
  (`Witnesses.SkipsIffDeadline`); as long as time does not, no core skips anything (`Punctuality.PunctualMeansInStep`).
- The regulation tick does not charge. The highest usage n cores can reach with budget b and e events per
  interval, receivers apart, is `Overshoot.Peak(n, e, b)` when a period has M >= 3 ticks, 2ne when it has two, and
  Mne when the cores cannot even spend the budget before the last tick (`Spending.MaximumGuarantee`,
  `Extremes.MaximumIsExact`). It is at most b + 2ne for every budget; one interval per core, b + ne, is enough if and
  only if the budget is at least (2n - 1)e, or ne with two ticks per period (`Extremes.OneIntervalIff`). Receivers
  that may take d off the usage between two resets raise the budget b by d, and what they may add comes on top; with
  both the maximum is still reached.
- A GPU sample is charged under every schedule if and only if its write finds the receiver waiting and nothing
  published (`Mailbox.WriteChargedIff`). A write between the receiver's charge and its cleaning is lost, and the
  wake it causes charges -1 (`Mailbox.OvertakingWriteIsLost`). No stored word is ever charged twice, whatever
  the interleaving and the size of the samples (`Mailbox.NoStoreChargedTwice`).
- The comment at `include/sampler.h:411` says that the previous poll is cleared. Four of eight bytes are. The low
  32 bits, which are all the profiler writes, are right for every history; the full 64-bit value is right
  exactly when the earlier carries add up to nothing modulo 2^32 (`SampleSums.ClearedIffNoCarry`), and two samples
  are enough to make it wrong (`SampleSums.StaleCell`).
- `sampler__sample_now` marks the buffer valid even when the sample carried an error or stretched flag.
- The profiler puts the write beats into the word for reads and the other way round (`gpu_profiler.c:66-74`);
  the charge is symmetric, so it does not matter (`Profiler.SampleIsCharged`).
- A budget converted to events and back loses nothing exactly when the regulation period is 62 us or more
  (`Conversion.RoundTripExactlyFrom62`). The check at `cl_mem_reg.c:1088` admits a period of 0, which its
  message excludes; the conversions then divide by zero, and the model requires a period of at least 1.
- The 8- and 16-bit property readers or the bytes into an uninitialised variable; a record is read exactly when
  that holds no other one bits than the value (`PropDecoder.NarrowRecordIff`).
- The receiver multiplies in int arithmetic: its charge is a quarter of the beats exactly while their sum is a
  28-bit two's-complement number (`Mailbox.ChargeExact`).
- The budget in events is stored in an int without a check (`cl_mem_reg.c:1109`); it is truncated exactly when
  the MB reach 131072 times the periods per second (`Conversion.StoredBudgetExactIff`).
- `hashmap__reserve` hashes with the old capacity; the table stays usable exactly when every stored key has
  the same bucket under both capacities (`HashMap.Map.Reserve`). A rehash turns chains around, so a key put
  twice changes its value (`HashMap.RehashKeepsLookupIff`, `HashMap.OlderValueReturns`).
- `uint64_queue__push` is not guarded: pushing to a full queue empties it (`Uint64Queue.Queue.Push`).
- The fixed layout array is large enough exactly up to 16 L2 slices, which the loop counts modulo 256
  (`SampleLayout.FitsIffSixteenSlices`).
- The property decoder comes to an end exactly on blobs that are sequences of frames (`PropDecoder.EndsIffFramed`)
  and hangs on all others, for example on most truncated blobs (`PropDecoder.CutBlob`). It reads past its mask
  array when more than 16 core groups are announced, and counts cores in the low 32 bits of the 64-bit mask only
  (`PropDecoder.CoreCountExact`).

## Model

| member | source | states |
|---|---|---|
| TickCounter.TickStep | cl_mem_reg.c:435-437 | one step raises the shared count by at most one, only through a core whose local count equals it; a read-back strictly raises that core's local count and touches no other; no local count passes the shared one |
| TickCounter.TicksInEveryRun | cl_mem_reg.c:435-437 | the same for every step of every run on any number of cores; the shared count never decreases |
| Throttling.ThrottleLaw | cl_mem_reg.c:330-384 | a core is throttled exactly by the interrupt that reaches it or by its own finding the cluster over budget, and released exactly by its own regulation body; an interrupt is sent exactly by somebody else's finding and pends until it arrives |
| Throttling.StopsOnlyOverBudget | cl_mem_reg.c:523-541 | in every step of every run a core turns from running to stopped if and only if the step is a check of its cluster that finds the usage over budget, and back if and only if it is its own regulation body with no interrupt pending |
| Throttling.StoppedSince | cl_mem_reg.c:461-541 | in every run a stopped core has been stopped without a break since a step that found its cluster over budget |
| Throttling.NeverBlocked | cl_mem_reg.c:417-459 | which steps are possible in any state: of a callback's steps exactly the next one, receivers, events and time always |
| Conservation.ImbalanceStep | cl_mem_reg.c:470-493 | one step changes usage plus wiped by exactly what it adds to readings and receiver charges, modulo 2^32, and exactly if its addition does not overflow |
| Conservation.TelescopedStep | cl_mem_reg.c:490-493 | each core's total charge stays equal to the counter reading of its last charge |
| Conservation.ConservedInEveryRun | cl_mem_reg.c:461-493 | in every run usage plus everything wiped equals the cores' charged readings plus all receiver charges, modulo 2^32 and exactly without overflow: no event is lost or charged twice across a regulation tick |
| Periods.ArmedStep | cl_mem_reg.c:439-441 | every timer stays due at start + local count * T_A, and the shared count runs at most one tick ahead of time |
| Periods.RegulatedStep | cl_mem_reg.c:461-476 | the leader wipes at most once per regulation tick it goes through |
| Periods.ArmedInEveryRun | cl_mem_reg.c:435-441 | both invariants hold in every state of every run |
| Periods.ResetsCounted | cl_mem_reg.c:470-473 | in every run the period count of a cluster is the number of regulation bodies its leader has executed |
| Periods.TicksFollowTime | cl_mem_reg.c:435-473 | no drift: ticks are at most elapsed / T_A + 1 and regulation periods at most elapsed / (M * T_A) + 1, in every state of every run |
| Periods.ResetNeverEarly | cl_mem_reg.c:439-473 | the reset at tick 1 + j * M never happens before start + j * M * T_A |
| Punctuality.OnTimeStep | cl_mem_reg.c:435-441 | a step that does not carry time to a deadline keeps every core of the cluster on time |
| Punctuality.OnTimeMeansInStep | cl_mem_reg.c:435-441 | while the cluster is on time, a core enters tick k + 1 only when all have finished tick k, and it fetches exactly the next tick |
| Punctuality.PunctualMeansInStep | cl_mem_reg.c:435-456 | if time never reaches a deadline of the cluster, every step of every run is in step and no core skips a tick |
| Punctuality.CountedInPunctualRun | cl_mem_reg.c:450-473 | in every punctual run the leader has counted exactly the regulation ticks 1, 1 + M, 1 + 2M, ... it has gone through |
| Punctuality.PeriodsKeepUp | cl_mem_reg.c:435-473 | in every state of a punctual run the regulation periods counted are the elapsed periods of M * T_A or one more: no period is lost |
| Lockstep.TogetherStep | cl_mem_reg.c:435-437 | in lockstep all cores of a cluster are in one tick, and it changes only when all have finished it |
| Lockstep.ReopeningStep | cl_mem_reg.c:461-476 | inside a regulation tick every core that has finished is running and has no interrupt pending |
| Lockstep.SteadyStep | cl_mem_reg.c:531-541 | outside regulation ticks a step keeps the cores all stopped or all running |
| Lockstep.UniformInEveryRun | cl_mem_reg.c:450-541 | the lockstep invariant holds in every state of every punctual, disciplined run |
| Lockstep.ThrottlingIsUniform | cl_mem_reg.c:461-541 | in every state of a punctual run outside a regulation tick the cores of a cluster are all stopped or all running, and after a check that leaves usage over budget all are stopped |
| Lockstep.RegulationReopens | cl_mem_reg.c:461-468 | in every punctual, disciplined run the regulation body that finishes a regulation tick leaves every core of the cluster running |
| Lockstep.RegulationExistsIff | cl_mem_reg.c:450-456 | there is a regulation tick if and only if a period has at least two ticks |
| Lockstep.ClosingStep | cl_mem_reg.c:531-541 | within an aggregation tick, over budget, every core that finishes leaves itself stopped |
| Lockstep.FullTickStopsCluster | cl_mem_reg.c:478-541 | an aggregation tick ends with every core of the cluster stopped if it starts over budget by more than what negative receiver charges take off during it |
| Budget.CoresStep | cl_mem_reg.c:450-493 | a core's uncharged events stay within one interval's demand, or two after a regulation tick, and so does a charge |
| Budget.ExposureBound | cl_mem_reg.c:490-493 | unchecked charges and uncharged events together fit one interval per core, in the first tick after a reset two for each core that has not finished it |
| Budget.StopBound | cl_mem_reg.c:531-541 | at the moment the cluster is stopped, what is charged and what is still to be charged are within the peak |
| Budget.CheckBound | cl_mem_reg.c:531-541 | a check keeps what is checked within the budget, or stops the cluster with charges and residues within the peak |
| Budget.RegulateBound | cl_mem_reg.c:461-476 | at the end of a regulation tick the wiped usage covers what is still uncharged |
| Budget.UsageStep | cl_mem_reg.c:450-541 | every step that meets the hypotheses, receivers included, keeps the usage invariant |
| Budget.WithinWorst | cl_mem_reg.c:450-541 | the invariant keeps what the cores have charged since the reset between 0 and the worst case |
| Budget.BudgetGuarantee | cl_mem_reg.c:450-541 | in every reachable state the usage of a cluster is between -d and the worst that its n cores can reach, plus g, for receivers that at any time have added between -d and g since the reset |
| Budget.OvershootInIntervals | cl_mem_reg.c:450-541 | for such receivers the usage never exceeds budget + d + 2ne + g; from budget + d = (2n - 1)e on (ne with two ticks per period) it never exceeds budget + d + ne + g |
| Spending.ChargeSpends | cl_mem_reg.c:490-493 | a charge uses up at least as much of what the cores may have charged since the reset |
| Spending.SpendStep | cl_mem_reg.c:450-493 | every step keeps what the cores have charged since the reset within one interval per executed body |
| Spending.MaximumGuarantee | cl_mem_reg.c:450-541 | in every reachable state for such receivers the usage is between -d and the maximum plus g; for budgets the cores cannot spend before the last of M ticks the maximum is Mne |
| Overshoot.PeakIsMax | cl_mem_reg.c:450-541 | the peak is the maximum of being throttled in the first tick after 0 to n - 1 cores have finished it, and of being throttled later |
| Overshoot.OneIntervalFrom | cl_mem_reg.c:450-541 | the peak is within budget + ne if and only if the budget is at least (2n - 1)e |
| Extremes.EarlyIsReached | cl_mem_reg.c:450-541 | for every configuration with three or more ticks per period and every j < n, a punctual run in which receivers take off all they may reaches the usage of being throttled in the first tick with j cores finished |
| Extremes.LateIsReached | cl_mem_reg.c:450-541 | a punctual run with such receivers spends the whole budget, or all the cores can spend until the last tick of a period, and charges one more interval of every core |
| Extremes.TwoTickWorst | cl_mem_reg.c:450-493 | with two ticks per period a punctual run with such receivers makes the cores charge 2ne |
| Extremes.MaximumIsReached | cl_mem_reg.c:450-541 | for every configuration, demand and budget, and whatever receivers may take off, a punctual run reaches the maximum |
| Extremes.MaximumIsExact | cl_mem_reg.c:450-541 | for every configuration, demand and budget, and all bounds -d and g on receivers, the maximum plus g is reached by some run and exceeded by none |
| Extremes.OneIntervalIff | cl_mem_reg.c:450-541 | budget + d + ne + g bounds every run of a configuration if and only if budget + d is at least (2n - 1)e (ne with two ticks per period) |
| Witnesses.LateCoreSkips | cl_mem_reg.c:435-456 | every run that ends in a state before a regulation tick is continued, to the core's deadline and no further, by one in which another core executes its regulation body and the late core executes none and ends behind the tick, throttled if it was |
| Witnesses.JumpsAreLate | cl_mem_reg.c:435-441 | in every run, with no hypothesis, a core that fetches a later tick than the next one does so at or after its deadline |
| Witnesses.OnlyLateCoresSkip | cl_mem_reg.c:435-456 | in every continuation in which the core executes no regulation body and time is before its deadline, it has not passed the regulation tick |
| Witnesses.SkipsIffDeadline | cl_mem_reg.c:435-456 | from any reachable state before a regulation tick: some continuation up to a given time carries the core past the tick without its regulation body if and only if that time is not before its deadline |
| Witnesses.LateCoreMissesRegulation | cl_mem_reg.c:435-456 | such a run exists: from tick 2 on core 1 executes no regulation body and stays throttled, although core 0 executed its own, wiped the usage and reopened |
| Kernel.Module.constructor | cl_mem_reg.c:1087-1115 | the initialised structures agree with the machine's initial state and no cluster is marked throttled |
| Kernel.Module.OnEachCpuMask | cl_mem_reg.c:330-345 | every cpu of the cluster other than the caller gets an interrupt, the caller is throttled if it belongs to the cluster, nobody else is touched |
| Kernel.Module.Interrupt | cl_mem_reg.c:374-384 | a throttle interrupt that arrives simulates the machine's delivery |
| Kernel.Module.TimerCallback | cl_mem_reg.c:417-459 | from any module state that agrees with a machine state, wherever other cores stand, an undisturbed callback leads to one that agrees with the machine after swap, fetch and body |
| Kernel.Module.RegulationPeriod | cl_mem_reg.c:461-476 | simulates the machine's regulation step: the core runs again, the cluster is no longer marked throttled, and nothing but the leader's wipe touches the usage |
| Kernel.Module.AggregationPeriod | cl_mem_reg.c:478-546 | simulates the machine's charge and check: every event up to the counter reading is charged; a running core that finds usage over budget stops exactly the cores of its cluster, marking the cluster if it leads it; a throttled core, or one within budget, stops nobody and sends no interrupt |
| Kernel.Module.CheckBudget | cl_mem_reg.c:523-541 | the same of the check alone |
| Kernel.Module.Receive | cl_mem_reg.c:574-605 | simulates the machine's receiver steps: the charge is added to the usage; over budget exactly the cores of the cluster are stopped, within budget every core stays as it is and no interrupt is sent |
| Kernel.CallbackLaw | cl_mem_reg.c:417-546 | a callback strictly advances its core to the shared count; a regulation tick reopens the core, wipes and counts a period only for the leader, charges nothing and touches no other core; any other tick charges every new event, throttles its core and sends an interrupt to each other core of the cluster exactly if it is not throttled itself and finds usage over budget, and leaves everything else alone |
| Conversion.BytesToEventsIsFloor | cl_mem_reg.c:359-361 | the conversion is the floor of bytes / 64 on the whole int range, negative arguments included |
| Conversion.PeriodRounding | cl_mem_reg.c:1047-1049 | T_R <= M * T_A < T_R + T_A for M the ceiling |
| Conversion.OneTickIff | cl_mem_reg.c:1047-1049 | M is 1 if and only if T_R <= T_A |
| Conversion.MbToEventsExact | cl_mem_reg.c:348-351 | no budget of the non-negative int range overflows: the conversion is one exact division by the periods per second |
| Conversion.MbToEventsAny | cl_mem_reg.c:348-351 | for every argument the bytes are reduced once modulo 2^64; a negative one becomes a huge number of events |
| Conversion.BudgetAccuracy | cl_mem_reg.c:348-351 | the budget in events is at least the floor of the exact value and below twice the exact value |
| Conversion.StoredBudgetExactIff | cl_mem_reg.c:1109-1110 | the int that holds the budget in events is exact if and only if the MB are below 131072 times the periods per second |
| Conversion.EventsToMbExact | cl_mem_reg.c:353-357 | without overflow the way back is the exact value rounded up |
| Conversion.EventsToMbAny | cl_mem_reg.c:353-357 | for every number of events the numerator is reduced once modulo 2^64 and the quotient cut to an int |
| Conversion.RoundTrip | cl_mem_reg.c:348-357 | from 62 us on, MB to events and back gives at least the MB, and exactly the MB when the period divides a second |
| Conversion.SmallBudgetLost | cl_mem_reg.c:348-357 | below 62 us a budget of one MB is rounded to no event |
| Conversion.RoundTripExactlyFrom62 | cl_mem_reg.c:348-357 | no budget loses a megabyte if and only if the period is at least 62 us |
| Mailbox.ChargeAtMostQuarter | cl_mem_reg.c:574-575 | for any two words of at least -1 four charges never exceed their sum; without int overflow the charge is the floor of a quarter |
| Mailbox.ChargeExact | cl_mem_reg.c:574-575 | for any two words, overflow included, the charge is a quarter, rounded down, of their sum as a 28-bit two's-complement number; of the sum itself if and only if it is one |
| Mailbox.NeverBlocked | cl_mem_reg.c:567-606 | which accesses are possible in any state: the words of a write in any order, the receiver's accesses one after another, a wake exactly when published |
| Mailbox.InvStep | cl_mem_reg.c:567-605 | every access keeps what is still to be consumed covered by what was stored |
| Mailbox.LedgersStep | cl_mem_reg.c:567-605 | every access keeps the tag of a word, and the tag the receiver holds, above all tags charged so far, unless it is a cleaned word's |
| Mailbox.NoStoreChargedTwice | cl_mem_reg.c:567-605 | under every word-level interleaving each charge is that of one store of each word, or of a cleaned word, and the store numbers charged strictly increase word by word: no store is charged twice |
| Mailbox.ChargesBelowBeats | cl_mem_reg.c:567-605 | under every word-level interleaving four times the total charge never exceeds the beats written |
| Mailbox.EverySampleChargedOnce | cl_mem_reg.c:567-600 | if every write finds the receiver waiting, each sample is charged exactly once, in order, as floor((r + w) / 4) |
| Mailbox.CleanSlotDelivers | cl_mem_reg.c:567-600 | a sample written to a clean slot is on its way, unaltered, or charged exactly once, at every point of every schedule |
| Mailbox.SomeScheduleLoses | cl_mem_reg.c:567-600 | from any state whose slot is not clean, some schedule of one write and the rest of the receiver's turn makes fewer charges than are due |
| Mailbox.WriteChargedIff | cl_mem_reg.c:567-600 | in every reachable state: a write is charged with its own value, and nothing due is lost, under every schedule if and only if it finds the receiver waiting and nothing published |
| Mailbox.OvertakingWriteIsLost | cl_mem_reg.c:597-600 | from any state between the charge and the cleaning, any sample can be lost while -1 is charged instead |
| Mailbox.TurnLaw | cl_mem_reg.c:567-606 | an undisturbed turn charges the published pair once and leaves a clean slot that needs a new write |
| Mailbox.Slot.constructor | cl_mem_reg.c:1163-1165 | the slot has 16 bytes of any content and nothing is published |
| Mailbox.Slot.Write | cl_mem_reg.c:944-959 | more than 16 bytes are refused and change nothing; otherwise the bytes replace a prefix of the slot, the rest is kept, and the slot is published |
| Mailbox.Slot.Receive | cl_mem_reg.c:574-600 | charges the two ints of the slot, at most a quarter of their sum, cleans both to -1 (eight bytes of 255) and unpublishes |
| Mailbox.WritePair | gpu_profiler.c:72-75 | after a write of the eight bytes of two ints the slot's two words are those ints |
| Mailbox.WriteThenReceive | cl_mem_reg.c:574-600 | writing the eight bytes of r and w and receiving charges (r + w) / 4 and leaves eight bytes of 255 |
| Mailbox.TwoIntsArrive | gpu_profiler.c:72-75 | the two ints of an eight-byte write are the two words the receiver reads |
| Election.Cluster.constructor | cl_mem_reg.c:1095-1115 | no start time, no leader |
| Election.StartsValues | cl_mem_reg.c:784 | each recorded start time stays, and a core that does not record keeps its value |
| Election.Cluster.Record | cl_mem_reg.c:784 | records one start time and elects nobody: a leader time is still attained by the leader |
| Election.Cluster.Scan | cl_mem_reg.c:785-803 | elects a core with the minimum of all recorded times, the first of them unless the leader is as early |
| Election.Cluster.Start | cl_mem_reg.c:784-803 | with nothing in between, recording a start time and scanning elects the core exactly if it is earlier than the leader so far |
| Election.Cluster.Interleaved | cl_mem_reg.c:784-803 | recordings and scans of any cores in any order: once every core that recorded has scanned, the leader time is the minimum of all recorded times and the leader attains it |
| Election.Cluster.StartAll | cl_mem_reg.c:784-803 | if the cores start one after another, in any order, that holds after each of them |
| Election.OrderIrrelevant | cl_mem_reg.c:799-802 | for distinct start times two orders elect the same core |
| CounterSet.Set.constructor | include/data_structure/set.h:21-24 | the empty set |
| CounterSet.Set.ContainsCounter | include/tools.h:62-76 | true exactly if the counter is in the list |
| CounterSet.Set.Insert | include/data_structure/set.h:26-55 | a new counter becomes the head, a known one changes nothing; counters stay distinct |
| IndexTables.ListsAppend | include/sampler.h:561-571 | appending a counter's entry to its block's list keeps every list exact |
| IndexTables.HardwareExactly | include/sampler.h:551-578 | exactly the hardware counters of the list are sampled, in list order |
| IndexTables.AddList | include/sampler.h:602-606 | the inner loop adds each listed value once to its own cell and touches no other cell |
| IndexTables.ListIsDirect | include/sampler.h:594-606 | adding through a block's list equals adding every counter's own term of that block directly |
| IndexTables.TablesAreBijective | include/sampler.h:522-579 | counters and positions 0..n-1 correspond one to one and each counter occurs exactly once across the lists, under its own block type |
| GpuSampler.Sampler.constructor | include/sampler.h:522-579 | from any set of counters: exact tables over its hardware counters and one zeroed cell each |
| GpuSampler.Sampler.Register | include/sampler.h:551-578 | a counter gets the next position, a zeroed cell and a list entry; the tables stay exact |
| GpuSampler.Sampler.AddBlock | include/sampler.h:594-606 | every cell grows by its counter's term of the block, zero for other block types |
| GpuSampler.Sampler.Fill | include/sampler.h:588-609 | the indexed loop adds to every cell the direct sum over all blocks, modulo 2^64 |
| GpuSampler.Sampler.Clear | include/sampler.h:411-418 | only the low four bytes of every cell are zeroed |
| GpuSampler.Sampler.SampleNow | include/sampler.h:389-430 | every cell becomes its high half plus the direct sum; the buffer is marked valid whatever the flags; nothing happens before sampling is started |
| GpuSampler.Sampler.GetCounterValue | include/sampler.h:477-500 | the cell of the counter, or which of the two failures applies |
| GpuSampler.AccumulatedStep | include/sampler.h:594-608 | block-wise addition accumulates to the direct sum over a longer prefix of the layout |
| SampleSums.ReadableInMapping | include/sampler.h:600-605 | with a layout that fits the sample buffer every counter word read lies inside the mapping |
| SampleSums.WordChange | include/sampler.h:594-606 | on any memory, changing one word changes a counter's sum by exactly the shifted difference if the word is at the counter's offset in a block of its type of the sample's buffer, and not at all otherwise |
| SampleSums.SameWords | include/sampler.h:594-606 | samples that agree on those words have equal sums |
| SampleSums.OneWord | include/sampler.h:594-606 | with one word that is not zero the sum is that word shifted, in 32 bits, or nothing |
| SampleSums.CellAfter | include/sampler.h:412-423 | one clear and fill: the low half is the sample's, its carry is added to the old high half |
| SampleSums.HistoryOfCell | include/sampler.h:412-423 | for every history the low 32 bits are the last sample's alone and the high half is the sum of all carries modulo 2^32 |
| SampleSums.ClearedIffNoCarry | include/sampler.h:411-418 | the 64-bit value is the last sample's sum if and only if the earlier carries add up to 0 modulo 2^32 |
| SampleSums.StaleCell | include/sampler.h:412-423 | two samples of ordinary 32-bit words after which the cell shows 2^32 although the second sum is 0 |
| SampleLayout.Layout.constructor | include/sample_layout.h:58-69 | an empty layout with room for 82 entries |
| SampleLayout.Layout.PushBack | include/sample_layout.h:76-80 | appends one entry |
| SampleLayout.Layout.PushFront | include/sample_layout.h:93-119 | front end and tiler, each if enabled, at the first two slots |
| SampleLayout.Layout.Populate | include/sample_layout.h:92-158 | the entries are front end, tiler, memory slices and set cores, each at its slot |
| SampleLayout.Layout.PushCores | include/sample_layout.h:137-155 | one entry per set bit, numbered by rank, at the slot of its bit |
| SampleLayout.LayoutIsOrdered | include/sample_layout.h:92-158 | byte ranges are block-aligned, increasing, disjoint and inside block_size * (2 + slices + 64), for every slice count and mask |
| SampleLayout.LayoutExactly | include/sample_layout.h:92-158 | an entry is in the layout if and only if it is the front end at byte 0, the tiler at 256, a memory slice at its slot behind them, or a set bit of the mask at its slot behind the slices, with its rank as index, and that type is enabled |
| SampleLayout.LayoutSize | include/sample_layout.h:92-158 | the entry count is the sum of the enabled blocks, cores counted by set bits |
| SampleLayout.CoresNumbered | include/sample_layout.h:140-153 | core entries are numbered 0, 1, 2, ... and there are as many as set bits |
| SampleLayout.CoreRank | include/sample_layout.h:140-153 | each set bit has an entry whose index is its rank and whose offset is the slot of the bit |
| SampleLayout.FullMaskOverflows | include/sample_layout.h:61-66 | from 17 slices on a full mask overflows the array |
| SampleLayout.FitsIffSixteenSlices | include/sample_layout.h:61-66 | the array holds every layout if and only if there are at most 16 slices, counted in eight bits |
| BlockWalk.Iterator.End | include/hwcnt/block_iterator.h:18-26 | the end iterator has no reader |
| BlockWalk.Iterator.Begin | include/hwcnt/block_iterator.h:28-36 | stands on the first block, or at the end of an empty layout |
| BlockWalk.Iterator.Next | include/backend.h:210-239 | yields the next entry's metadata and advances, or reports the end and changes nothing |
| BlockWalk.Iterator.Increment | include/hwcnt/block_iterator.h:38-52 | moves from block k to block k + 1 or to the end |
| BlockWalk.Iterator.Equals | include/hwcnt/block_iterator.h:54-75 | two ended iterators are equal, an ended and a running one are not, running ones by reader and position |
| BlockWalk.Walk | include/hwcnt/blocks_view.h:22-32 | begin to end terminates and yields every layout entry exactly once in order, with its values at buffer_size * buffer_index + offset, the empty layout included |
| BlockWalk.InsideOwnBuffer | include/backend.h:225-227 | every block lies inside its own sample's buffer |
| BlockWalk.BlocksDisjoint | include/backend.h:225-227 | different blocks, of one sample or of two, never overlap |
| BlockWalk.BufferByBuffer | include/backend.h:225-227 | a block of buffer 0 lies at its entry's offset, that of the next buffer one buffer size further |
| BlockWalk.InsideMapping | include/backend.h:225-227 | every block yielded lies inside the mapped buffers |
| Profiler.Profiler.constructor | gpu_profiler.c:200-215 | both beat counters registered, zeroed cells, sampling started |
| Profiler.Profiler.OnSigusr1 | gpu_profiler.c:43-79 | writes the low 32 bits of this sample's two sums, crosswise, unless the device cannot be opened or is closed |
| Profiler.Profiler.Poll | gpu_profiler.c:43-79 | over every history of signals each write carries its own sample's beats and each cell is the one its history determines |
| Profiler.LowHalf | gpu_profiler.c:67-70 | truncating a cell to int depends on the last sample only |
| Profiler.OneWordWritten | gpu_profiler.c:64-75 | from one memory word to the device: word 32 of a memory block is written second, word 47 first, any other word of the mapping not at all |
| Profiler.SampleIsCharged | gpu_profiler.c:64-75 | end to end: the cluster is charged a quarter of the beats summed over the memory blocks, rounded down |
| HashMap.HashIsBase31 | include/data_structure/hashmap.h:22-29 | the rolling hash is the key's number in base 31, first byte most significant, modulo 2^32 |
| HashMap.BucketOfKey | include/data_structure/hashmap.h:22-29 | the bucket is that number modulo the capacity |
| HashMap.FindFinds | include/data_structure/hashmap.h:150-160 | a chain walk finds the first node of the chain with the key, or there is none |
| HashMap.MoveChain | include/data_structure/hashmap.h:94-103 | the chain's nodes end up at the heads of their new buckets, first node deepest |
| HashMap.Map.constructor | include/data_structure/hashmap.h:31-43 | ten empty buckets |
| HashMap.Map.Rehash | include/data_structure/hashmap.h:80-105 | the exact table after doubling; every node is filed by the new capacity and none is lost |
| HashMap.Map.Reserve | include/data_structure/hashmap.h:45-78 | the exact table after growing; the map stays valid if and only if both capacities agree on every stored key |
| HashMap.Map.Put | include/data_structure/hashmap.h:121-148 | the exact new table; the map gains the key; placement and 4 * size < 3 * capacity are kept |
| HashMap.Map.Get | include/data_structure/hashmap.h:150-160 | finds a value exactly for stored keys: the first in the chain, and the map's value when keys were put once |
| HashMap.Map.Contains | include/data_structure/hashmap.h:162-172 | true exactly for stored keys |
| HashMap.RelinkedHolds | include/data_structure/hashmap.h:94-103 | relinking all chains loses no node and files each by the new modulus |
| HashMap.FindRelinked | include/data_structure/hashmap.h:94-103 | after relinking, a lookup finds the last node of the old chain |
| HashMap.RehashKeepsLookupIff | include/data_structure/hashmap.h:80-105 | a lookup survives a rehash if and only if the first and the last node with the key carry the same value |
| HashMap.OlderValueReturns | include/data_structure/hashmap.h:80-148 | on any map with room, a new key put twice is found with its newer value in the table before the next rehash and with its older value in the doubled table, which holds all entries |
| HashMap.PlacedPut | include/data_structure/hashmap.h:140-147 | a node put at the head of its bucket keeps every node in place |
| HashMap.PlacedBoth | include/data_structure/hashmap.h:45-78 | a table filled by one modulus is right for another if and only if the two agree on every stored key |
| Vector.Vec.constructor | include/data_structure/vector.h:14-23 | an empty vector |
| Vector.Vec.Resize | include/data_structure/vector.h:43-50 | twice the room, the same elements |
| Vector.Vec.PushBack | include/data_structure/vector.h:52-63 | appends, growing when full |
| Vector.Vec.Get | include/data_structure/vector.h:65-70 | the element, or nothing out of bounds |
| Vector.Vec.Update | include/data_structure/vector.h:72-76 | replaces one element, nothing out of bounds |
| Vector.Vec.Remove | include/data_structure/vector.h:78-86 | drops one element and keeps the order of the others |
| RingIndex.WindowPush | include/data_structure/session_queue.h:52-54 | writing the slot behind the window appends to it and overwrites none of its elements |
| RingIndex.WindowPop | include/data_structure/session_queue.h:60-62 | advancing past the first slot drops exactly the first element |
| RingIndex.WalksInOrderIffDivides | include/data_structure/session_queue.h:52-54 | free-running 64-bit indices walk through the slots in order if and only if the slot count divides 2^64 |
| SessionQueue.Queue.constructor | include/data_structure/session_queue.h:19-29 | an empty queue |
| SessionQueue.Queue.IsEmpty | include/data_structure/session_queue.h:37-39 | true exactly for no elements |
| SessionQueue.Queue.IsFull | include/data_structure/session_queue.h:41-43 | true exactly for as many elements as slots |
| SessionQueue.Queue.Push | include/data_structure/session_queue.h:49-55 | appends, across wrap-around of the indices |
| SessionQueue.Queue.Pop | include/data_structure/session_queue.h:57-64 | removes and returns the oldest element, across wrap-around |
| SessionQueue.Queue.Front | include/data_structure/session_queue.h:66-71 | the oldest element |
| SessionQueue.Queue.Back | include/data_structure/session_queue.h:73-78 | the newest element, across wrap-around |
| SessionQueue.Queue.At | include/data_structure/session_queue.h:80-85 | the element at an index, across wrap-around |
| Uint64Queue.Queue.constructor | include/data_structure/uint64_queue.h:16-21 | an empty queue with n + 1 slots |
| Uint64Queue.Queue.IsEmpty | include/data_structure/uint64_queue.h:27-29 | true exactly for no elements |
| Uint64Queue.Queue.IsFull | include/data_structure/uint64_queue.h:31-33 | true exactly for n elements, one fewer than slots |
| Uint64Queue.Queue.Size | include/data_structure/uint64_queue.h:35-41 | the number of elements |
| Uint64Queue.Queue.Push | include/data_structure/uint64_queue.h:43-46 | appends; on a full queue all elements are lost |
| Uint64Queue.Queue.Pop | include/data_structure/uint64_queue.h:48-52 | removes and returns the oldest element |
| Uint64Queue.Queue.Front | include/data_structure/uint64_queue.h:54-58 | the oldest element |
| Uint64Queue.Queue.Back | include/data_structure/uint64_queue.h:60-64 | the newest element |
| Uint64Queue.Queue.At | include/data_structure/uint64_queue.h:66-71 | the element at an index |
| Bitset.Set.constructor | include/data_structure/bitset.h:31-35 | all bits zero |
| Bitset.Set.FromUint64 | include/data_structure/bitset.h:129-136 | bit by bit, a bitset whose value is the 64-bit value |
| Bitset.Set.SetBit | include/data_structure/bitset.h:41-43 | sets one bit of the value and keeps all others |
| Bitset.Set.GetBit | include/data_structure/bitset.h:49-51 | the bit of the value, across words |
| Bitset.Set.Any | include/data_structure/bitset.h:53-60 | true exactly if the value is not zero |
| Bitset.Set.ShiftRight | include/data_structure/bitset.h:92-119 | in place, over any number of words and for every shift: exactly the floor of the value by 2^positions |
| Bitset.ShiftedValue | include/data_structure/bitset.h:103-114 | the words the loop computes stand for the shifted value |
| Bitset.Set.PopCount | include/data_structure/bitset.h:164-171 | the number of one bits of the value |
| Bitset.WordPopCount | include/data_structure/bitset.h:155-162 | the number of one bits of a word |
| Bitset.CountUint64 | include/data_structure/bitset.h:129-171 | converting a 64-bit value and counting gives its number of one bits |
| Bits.CountIsSize | include/data_structure/bitset.h:155-162 | the count of one bits is the size of the set of positions that hold a one |
| LittleEndian.WordOfBytes | include/instance.h:179-198 | the number read from the bytes of v is v, truncated to their width |
| LittleEndian.LowestFirst | include/instance.h:159-198 | the first byte is the least significant one |
| PropDecoder.Decoder.constructor | include/instance.h:151-157 | everything is unread |
| PropDecoder.Decoder.ReadBytes | include/instance.h:159-198 | the little-endian number of the next bytes, or-ed into what the variable held; exactly those bytes are consumed |
| PropDecoder.Decoder.Step | include/instance.h:209-248 | one record, or id 0 and value 0 on truncated data, with exactly the bytes consumed that the code consumes |
| PropDecoder.Decoder.Collect | include/instance.h:258-340 | keeps the last value of each property it knows, until fewer than four bytes are left |
| PropDecoder.Decoder.Run | include/instance.h:250-346 | the decoded constants, or which of the two ways it fails |
| PropDecoder.HeaderRoundTrip | include/instance.h:361-376 | id and size packed into a header are unpacked again |
| PropDecoder.EndsIffFramed | include/instance.h:258-262 | on arbitrary bytes the loop ends if and only if they are a sequence of frames: a header with its whole value, or a bare header whose value does not fit in what follows; otherwise one to three bytes stay unread for ever |
| PropDecoder.RecordRead | include/instance.h:209-248 | an encoded record in front of any bytes is read back and exactly consumed |
| PropDecoder.RecordsRead | include/instance.h:209-248 | an encoded list of records is read back in order, whatever follows |
| PropDecoder.DecodesRecords | include/instance.h:250-346 | a well-formed blob is decoded to the end, unless it announces more than 16 groups; properties get their last values, the mask is the or of the first groups' masks, and the core count is the number of ones among the mask's low 32 bits |
| PropDecoder.CoresOfDecoded | include/instance.h:346 | whatever is decoded, the core count is the number of cores in the 64-bit mask if and only if no core is numbered above 31 |
| PropDecoder.KnownBlob | include/instance.h:250-346 | 36 given bytes decode to GPU id 513, 3 slices, core mask 3 and 2 cores |
| PropDecoder.NarrowRecordIff | include/instance.h:159-177 | an 8- or 16-bit record is read exactly if and only if every one bit of the uninitialised variable is a one bit of the value |
| PropDecoder.CutBlob | include/instance.h:209-262 | a well-formed blob cut anywhere in its last record hangs the decoder unless the cut is at a multiple of four up to 8 bytes, or leaves in the second half of a 64-bit value exactly the bytes its first half, read as a header, asks for |
| PropDecoder.CutRecordIgnored | include/instance.h:209-262 | where such a cut leaves at most eight bytes of the record and does not hang, the result is that of the blob without the record |
| PropDecoder.LastWins | include/instance.h:263-339 | of several records with one id the last counts |
| PropDecoder.LastAbsent | include/instance.h:250-339 | without a record of an id its variable keeps its initial content |
| PropDecoder.MaskIsUnion | include/instance.h:342-344 | a core is in the mask if and only if it is in one of the first groups' masks |
| PropDecoder.MaskIndependent | include/instance.h:252-344 | with a record for every counted group the mask does not depend on the uninitialised array |
| PropDecoder.CoreCountExact | include/instance.h:346 | the core count is the number of cores in the mask if and only if no core is numbered above 31 |

## Left out

- Kernel and operating-system plumbing: perf events, hrtimers, IPIs, kthreads, sysfs, debugfs, character devices, signals, file logging; timers, counters and interrupts are environment steps of the machine.
- The idle loop of the throttle thread (`cl_mem_reg.c:918-938`): a throttled core is one that generates no events, which is the `Demand` hypothesis.
- Stopping counters and unloading the module while callbacks run.
- Wrap-around of the 64-bit perf counters, tick count and nanosecond times, which are unbounded here; the 32-bit usage does wrap.
- SessionQueue.Queue.constructor: asks for a slot count that divides 2^64; `RingIndex.WalksInOrderIffDivides` shows what happens to others.
- Weak memory ordering between cores: every access is one atomic step.
- Kernel.Module.TimerCallback: describes a callback nobody interrupts; interleaved callbacks are the runs of `Regulator`.
- Kernel.Module.AggregationPeriod: no other core accesses the usage in between; interleaved charges and checks are steps of `Regulator`.
- Kernel.Module.Receive: no core accesses the usage between addition and check; interleaved ones are steps of `Regulator`.
- Kernel.Module.constructor: the structures are allocated by its caller; leader and budgets are those of the configuration.
- Mailbox.Slot.Write: does not model a failing `copy_from_user`, after which the content of the slot is unspecified; in the `Mailbox` machine every write has eight bytes, as the profiler's has.
- Mailbox.Slot.Receive: describes a turn no write interrupts; interleaved turns are the runs of the `Mailbox` machine.
- Election.Cluster.Scan: is one step; two cores scanning at once are not modelled.
- Election.Cluster.Start: takes a core's recording and scan as one step; `Election.Cluster.Interleaved` separates them.
- Election.Cluster.StartAll: describes cores that start one after another.
- Lockstep.FullTickStopsCluster: assumes that additions to this cluster's usage in the tick do not overflow 32 bits, as then the usage can turn negative.
- Budget.BudgetGuarantee: assumes that receivers do not throttle inside a regulation tick, after which a regulated core could be stopped until the next one.
- Allocation failure and freeing in the containers, debug output and example functions.
- HashMap.Map.Put: the capacity is not bounded by int, and the load-factor test, which is in single precision in the source, is exact here.
- GpuSampler.Sampler.constructor: the index tables are finite maps, not instances of `HashMap` and `Vector`; the `reserve` on the empty map at `include/sampler.h:526` is covered by `HashMap.Map.Reserve`.
- `GpuSampler` counters that are not hardware counters, which the source ignores too, and 64-bit block buffers, which it does not support.
- Profiler.Profiler.constructor: only the two counters the profiler registers are defined; the two other hardcoded definitions and the enable maps of `include/sampler.h:232-263` are not modelled.
- How a sample gets into memory: ioctl, mmap, poll, sessions and timestamps; a sample is any array of 32-bit words.
- SampleLayout.Layout.PushBack: the source writes without a check; the model asks for room, because a write past the array has no defined effect.
- SampleLayout.Layout.Populate: asks for a layout that fits the array, which `SampleLayout.FitsIffSixteenSlices` characterises; byte offsets are unbounded, so slice counts near 2^56, whose offsets would wrap around in `size_t`, are not modelled.
- SampleLayout.Layout.PushCores: asks for room for the set bits of the mask, as the source writes without a check.
- PropDecoder.Decoder.Collect: stops with one to three bytes unread, where the source's loop repeats for ever (`PropDecoder.EndsIffFramed`).
- PropDecoder.Decoder.Run: warp width, execution engines, L2 slice size, bus width and tile size, which are finite tables or single shifts.
- PropDecoder.Decoder.ReadBytes: the uninitialised variable of the 8- and 16-bit readers is a parameter; `PropDecoder.NarrowRecordIff` says for which of its values such a record is read exactly.
- `bitset__shift_left`, `set__remove`, `convert_by_mask` and `is_vinstr_available`, none of which does what its name says.
- Product tables, product-id fields and version types, which are finite and easy.
