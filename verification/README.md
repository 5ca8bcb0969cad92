# Verified model of the plugin-host sidecar

The sidecar hosts audio plugins in a process of its own. The radio application sends it blocks of
samples through one shared-memory ring and reads the processed blocks from another; a control socket
carries load, unload and parameter traffic; plugin editors run on a GUI thread. This project models
those parts in Dafny and proves what they promise, over every interleaving and every input.

| file | what it is about |
|---|---|
| `Wrappers.dfy` | values that may be absent, and stock facts the other modules share |
| `Bits.dfy` | bitwise and wrapping arithmetic on natural numbers: masks, power-of-two tests, roundings |
| `RingProtocol.dfy` | the ring as atomic steps of two agents with stale copies of `head` and `tail`; refinement of a bounded FIFO |
| `ShmRing.dfy` | the ring as the object its callers use, and the geometry of a created mapping |
| `ChainSpec.dfy` | what a chain of stateful, possibly failing plugins computes on a block |
| `SlotLifecycle.dfy` | the eight chain slots under loads, unloads and callback changes, store by store |
| `PluginChain.dfy` | the chain object: parallel arrays, one store at a time, and the ping-pong walk |
| `ChainWalk.dfy` | the audio thread's walk over the slots, its loads interleaved with the control thread's stores |
| `DataPlane.dfy` | host writer, audio thread and host reader as one interleaved machine, and its invariant |
| `StreamTheorems.dfy` | what that machine promises: the stream, wakeups, drops, latency, termination |
| `Passthrough.dfy` | the audio thread's loops as a program over the ring objects |
| `Codec.dfy` | little-endian words, strings, parameter-list bodies, load requests |
| `ControlPipe.dfy` | length-prefixed framing over a fragmenting byte stream |
| `ControlWriters.dfy` | several threads writing frames under one mutex |
| `Coalescing.dfy` | the filter that swallows small, quick parameter edits, against whole histories |
| `PendingChanges.dfy` | the bounded queue of changes between editor, host and audio thread |
| `EditBridge.dfy` | `performEdit`, the edit queue, the drain thread and its shutdown, interleaved |
| `TimerWheel.dfy` | the GUI run loop's timers, with handlers that register and unregister from inside their calls |
| `ClapTimers.dfy` | the timer registry a CLAP host offers, with its 32-bit id counter |
| `ClapLifecycle.dfy` | what a CLAP host calls on plugin modules, and what well-bracketed means |
| `ClapPlugin.dfy` | the CLAP host and editor-view objects, every flag updated where the source does |
| `ClapProcess.dfy` | one block through a CLAP plugin: topology checks, pending changes, mono and stereo paths |

Concurrency is modelled by step machines: each agent has a program counter, and an acquire load, a
release store or a critical section is one atomic step. History fields (everything published, every
edit made, every call into a module) exist for the statements; no step's outcome depends on them.
Objects whose methods update fields are classes; each method's contract equates the new state with a
specification function of the old one, and the lemmas about runs are about those same functions.

## Main results

* **Stream.** `StreamTheorems.EndToEnd`: in every interleaving, what the host has read followed by what
  is still unread is the chain, its state threaded through, applied in order to the blocks that were not
  dropped. `StreamTheorems.EveryBlockHeard` says the same by the plugins alone: from each processed block
  a trace of plugin worlds and samples, one step a slot, leads to what the host reads.
* **Ring.** `RingProtocol.RingRefinesFifo`: the ring is a bounded FIFO, also past the wrap at 2^64.
* **Wakeups, drops, latency, termination.** `StreamTheorems.NoLostWakeup`, `DropsOnlyWhenFull`,
  `LatencyBounded`, `DrainEnds`.
* **Chain.** `PluginChain.PluginChain.Process` equals a left fold over the slots and follows such a trace;
  the last successful plugin is heard (`ChainSpec.LastSuccessHeard`), a failing one never
  (`ChainSpec.ScribblesNeverHeard`).
* **Slots.** `SlotLifecycle.EveryRunSettled`, `SlotLifecycle.StoresCoherent`, in terms of the operations
  alone `SlotLifecycle.RoutedAsLastSet` and `SlotLifecycle.LoadedAsLastPlaced`, and, load by load,
  `ChainWalk.UndisturbedWalk` and `ChainWalk.WalkRunsWhatWasThere`.
* **Control channel.** `ControlPipe.RoundTripExactly`, `ControlWriters.WireIsAMerge`,
  `ControlPipe.FramesReadBack`, `ControlPipe.EndAfterFrames`, `Codec.ParamListDecodesUniquely`.
* **Edits.** `Coalescing.ForwardingRule`, `EditBridge.EditsConserved`, `EditBridge.StopHeardExactly`,
  `PendingChanges.BlockPresents`.
* **Timers.** `TimerWheel.EveryRunSpaced`, `TimerWheel.ScanReturns`.
* **CLAP.** `ClapLifecycle.EveryRunBracketed`, `ClapLifecycle.TimersFollowThePlugin`.

## Where the code and its comments differ

The model follows the code; each difference is a theorem.

* The drain loop is said to be bounded by the slot count (src/audio/passthrough.cpp:52-54). It is once
  the host stops publishing; every further publication buys another round (`StreamTheorems.DrainBudget`,
  `StreamTheorems.DrainEnds`), so that while the host publishes it can go around any number of times
  (`StreamTheorems.DrainUnboundedUnderPublishing`).
* Coalescing is said never to lose the final resting value (src/vst3/plugin_host.cpp:133-135). It loses
  it exactly if the filter's guard holds for the last edit and the value last forwarded differs
  (`Coalescing.RestingValueHeard`); a quick sweep over the whole range is reported as its start alone
  (`Coalescing.SweepIsSwallowed`).
* The same comment promises at most about 100 frames per second and parameter
  (src/vst3/plugin_host.cpp:128-131). Within 10 ms of the edit forwarded last, an edit is forwarded exactly if
  it is 0.001 or more away from the one before (`Coalescing.ForwardedInWindowExactly`), so a drag in coarse
  steps forwards all its edits (`Coalescing.CoarseSweepIsForwarded`); the promise holds for the edits that did
  not jump (`Coalescing.RateBound`).
* The handler's destructor says that its notification wakes a possibly sleeping drain thread
  (src/vst3/plugin_host.cpp:116-118). It stores the flag and notifies without holding the queue mutex, so
  the notification can fall between the drain thread's test and its sleep (`EditBridge.StopCanBeMissed`), and
  the join then waits for a further edit or a spurious wake-up (`EditBridge.MissedStopHangs`). Without these
  two the join can return exactly if, at the notification, the drain thread is not between test and sleep or
  an edit is still under way, whose notification wakes it (`EditBridge.StopHeardExactly`).
* `Send` accepts a payload of exactly 2^20 bytes, `Recv` rejects the resulting length
  (`ControlPipe.RoundTripExactly` gives the exact condition).
* A receive that fails has lost the stream exactly if bytes had arrived before (`ControlPipe.CutStreamLoses`,
  `ControlPipe.FailedReceiveLoses`); a timeout inside a heartbeat's frame loses the goodbye behind it
  (`ControlPipe.TimeoutLosesTheGoodbye`).
* A lossy send that the kernel takes in part breaks the framing: everything else is delivered exactly if
  the kernel took none of it (`ControlWriters.PartialLossySendSilencesTheNext`).
* Slots start 160 bytes into the mapping, so they are not 64-byte aligned (`ShmRing.SlotsMisaligned`), and
  the slot size is stored in 32 bits (`ShmRing.GeometrySoundExactly` gives the exact condition).
* A walk that is overtaken by an unload or a load can call an instance that is not, or no longer, loaded
  completely; the stores that leave such an instance in place are exactly two, and the slot's loaded flag is
  down at both (`SlotLifecycle.UnreadyWindow`, `ChainWalk.WalkRunsWhatWasThere`).
* During a load there is a moment at which the plugin already runs but its edits go nowhere
  (`SlotLifecycle.UnroutedWindow`), and installing a first callback has such a window for every slot
  whose turn is still to come (`SlotLifecycle.FirstCallbackWindow`).
* A comment in the CLAP unload path says that a new instance starts with a clean timer registry
  (src/clap/clap_plugin.cpp:522-524). Plugins may call the registry from inside every call of the host,
  also after the clearing, while a load has not succeeded yet and while the prior plugin is torn down.
  What is left is clean exactly if those calls undo one another (`ClapLifecycle.TimersFollowThePlugin`): a
  plugin that registers a timer and then fails to be activated leaves it behind
  (`ClapLifecycle.FailedLoadLeavesTimer`), and a load over a plugin that leaves the cleaning to the host
  keeps all its timers (`ClapLifecycle.SilentLoadKeepsTimers`). The chain, the only caller, builds a fresh
  host object for every load (src/vst3/plugin_chain.cpp:147), so there a stale timer dies with its object.
* Timer ids come from a 32-bit counter and can collide (`ClapTimers.IdsCanCollide`); they are distinct exactly
  if no two registered timers are a multiple of 2^32 registrations apart (`ClapLifecycle.EveryRunTimers`).
* A timer interval so long that its deadline wraps past 2^64 ms is due at once, and two immediate scans
  fire such an entry twice, and no other (`TimerWheel.DeadlineFits`, `TimerWheel.WrapBreaksSpacing`). So it is
  for every entry of a reachable wheel and every second scan before its interval is over
  (`TimerWheel.FiresEarlyExactly`).
* A handler that is unregistered and registered again by another handler's callback is called in the same
  scan although its new entry is not due (`TimerWheel.RegisteredAgainIsCalledEarly`).

## Model

| member | source | states |
|---|---|---|
| `Bits.PowerOfTwoTest` | src/ipc/shm_ring.cpp:35-37 | the test that clears the lowest bit accepts exactly the powers of two |
| `Bits.ClearLowBits` | src/ipc/shm_ring.cpp:39-46 | masking with the complement of 2^k - 1 subtracts the remainder modulo 2^k |
| `Bits.MaskIsMod` | src/ipc/shm_ring.cpp:71-72 | masking with 2^k - 1 is the remainder modulo 2^k |
| `Bits.DistanceSurvivesWrap` | src/ipc/shm_ring.cpp:78-80 | the 64-bit difference of two wrapped counters is their true distance as long as that fits |
| `RingProtocol.MaskedIndexIsModulo` | src/ipc/shm_ring.cpp:70-75 | for every power-of-two slot count, masking the wrapped counter selects the slot of the unbounded counter modulo the slot count |
| `RingProtocol.InFlightSlotsDistinct` | src/ipc/shm_ring.cpp:70-75 | indices less than a ring apart select different slots, whatever the counters wrapped to |
| `RingProtocol.FullTestExact` | src/ipc/shm_ring.cpp:77-84 | on a possibly stale copy of `tail`, the 64-bit test reports full exactly if that copy saw slotCount unreleased blocks |
| `RingProtocol.EmptyTestExact` | src/ipc/shm_ring.cpp:93-101 | on a possibly stale copy of `head`, the test reports empty exactly if everything published by then has been taken |
| `RingProtocol.FrontIsOldest` | src/ipc/shm_ring.cpp:93-101 | the slot a reader owns holds the oldest unreleased block, for as long as it owns it |
| `RingProtocol.WriterOwnsItsSlot` | src/ipc/shm_ring.cpp:77-84 | the slot being filled is none of the slots the consumer may read |
| `RingProtocol.WriteInvisible` | src/ipc/shm_ring.cpp:77-91 | filling the acquired slot changes neither the queue nor the block the consumer is reading |
| `RingProtocol.PublishEnqueues` | src/ipc/shm_ring.cpp:86-91 | publishing appends the filled slot to a queue that had room, also across the wrap of `head` |
| `RingProtocol.ReleaseDequeues` | src/ipc/shm_ring.cpp:103-107 | releasing removes the oldest block, also across the wrap of `tail` |
| `RingProtocol.StepKeepsInv` | src/ipc/shm_ring.cpp:77-107 | every atomic step keeps 0 <= head - tail <= slotCount and acts on the queue as the FIFO action it stands for |
| `RingProtocol.RingRefinesFifo` | src/ipc/shm_ring.cpp:77-107 | every interleaving of producer and consumer steps is a behaviour of a bounded FIFO of slotCount blocks |
| `RingProtocol.PublishedSlotsStand` | src/ipc/shm_ring.cpp:77-107 | over every run, a published slot is not rewritten before it is released |
| `ShmRing.ShmRing.constructor` | src/ipc/shm_ring.cpp:164-171 | a created ring is empty with both counters zero, and sound |
| `ShmRing.ShmRing.Acquire` | src/ipc/shm_ring.cpp:77-84 | returns the slot of `head`, or none exactly if the queue is full; the queue is unchanged |
| `ShmRing.ShmRing.Fill` | src/audio/passthrough.cpp:69-93 | the caller's stores into its slot leave the queue and the block being read alone |
| `ShmRing.ShmRing.Publish` | src/ipc/shm_ring.cpp:86-91 | the filled slot becomes the newest unread block |
| `ShmRing.ShmRing.Read` | src/ipc/shm_ring.cpp:93-101 | returns the slot holding the oldest unread block, or none exactly if there is none |
| `ShmRing.ShmRing.Release` | src/ipc/shm_ring.cpp:103-107 | takes exactly the block just read off the queue |
| `ShmRing.CreateAcceptsPowersOfTwo` | src/ipc/shm_ring.cpp:127-129 | a mapping is created exactly for power-of-two slot counts |
| `ShmRing.RoundUpIsLeastMultiple` | src/ipc/shm_ring.cpp:39-46 | the rounding expression gives the least multiple of a power of two that is at least n |
| `ShmRing.RoundsToLines` | src/ipc/shm_ring.cpp:39-42 | rounding to cache lines gives the least multiple of 64 |
| `ShmRing.RoundsToPages` | src/ipc/shm_ring.cpp:44-46 | rounding to pages gives the least multiple of 4096 |
| `ShmRing.SlotsInside` | src/ipc/shm_ring.cpp:134-137 | slots large enough for a block, in a mapping large enough for all of them, hold their block, follow one another and stay inside |
| `ShmRing.GeometrySoundExactly` | src/ipc/shm_ring.cpp:134-171 | every slot of a created mapping holds its block (64 bytes of header and 4 a sample), lies inside and is disjoint from the others, exactly if the rounded block size fits the 32-bit field |
| `ShmRing.CreatedSizes` | src/ipc/shm_ring.cpp:134-168 | then slots are the least multiple of 64 bytes that holds a block, and the mapping the least multiple of 4096 that holds them and the control block |
| `ShmRing.SlotsMisaligned` | src/ipc/shm_ring.cpp:134-173 | every slot starts 32 bytes off a 64-byte boundary |
| `ChainSpec.NoSuccessIsIdentity` | src/vst3/plugin_chain.cpp:353-387 | if no slot succeeds the output is exactly the input |
| `ChainSpec.ScribblesNeverHeard` | src/vst3/plugin_chain.cpp:358-381 | what failing plugins write to their destination reaches neither the output nor a later slot |
| `ChainSpec.SkippedSlotsVanish` | src/vst3/plugin_chain.cpp:358-381 | empty, unloaded and bypassed slots might as well not be there |
| `ChainSpec.FoldComposes` | src/vst3/plugin_chain.cpp:358-381 | a chain is the sequential composition of its parts, plugin state included |
| `ChainSpec.FoldTrace` | src/vst3/plugin_chain.cpp:358-381 | a trace leads from the input to the result of the fold: a skipped slot changes nothing, a plugin that is run moves its world on, and if it succeeds every sample is the one it wrote |
| `ChainSpec.ProcessHeard` | src/vst3/plugin_chain.cpp:340-388 | a block's processed frames follow such a trace when the chain is on and are copied when it is off; frames past the block size keep what they held |
| `ChainSpec.TraceIsUnique` | src/vst3/plugin_chain.cpp:358-381 | there is only one such trace |
| `ChainSpec.LastSuccessHeard` | src/vst3/plugin_chain.cpp:377-387 | with a success, every output sample is that of the last successful plugin on the samples that reached it; without one the output is the input |
| `ChainSpec.ToInt32` | src/audio/passthrough.cpp:88-90 | the conversion keeps the residue modulo 2^32 and lands in the signed range |
| `PluginChain.PluginChain.RunPlugin` | src/vst3/plugin_chain.cpp:362-376 | a plugin, successful or not, writes only the processed frames of its destination |
| `PluginChain.PluginChain.TrySlot` | src/vst3/plugin_chain.cpp:362-376 | a slot's turn succeeds exactly if the slot shows an instance that succeeds; world and samples then are what that instance makes of them, and else stay, but for the world of a failing one |
| `PluginChain.PluginChain.Process` | src/vst3/plugin_chain.cpp:340-388 | with two ping-pong buffers that never alias, the output is the left fold of the successful slots in index order, and a trace of plugin worlds and samples leads to it; the input is copied when the chain is off or nothing succeeds |
| `PluginChain.PluginChain.Replace` | src/vst3/plugin_chain.cpp:101-192 | slot and stores are those of the lifecycle specification, and no other slot changes |
| `PluginChain.PluginChain.LoadSlot` | src/vst3/plugin_chain.cpp:95-193 | leaves the slot, and passes through the stores, that the lifecycle specification says; status 6 for a bad index, 2 for an unknown format, else the format's own |
| `PluginChain.PluginChain.UnloadSlot` | src/vst3/plugin_chain.cpp:224-254 | empties the slot through the specified stores; tells whether it was loaded |
| `PluginChain.PluginChain.TearDown` | src/vst3/plugin_chain.cpp:105-130 | the previous instance is unloaded, its pointer reset, the format cleared, in that order |
| `PluginChain.PluginChain.Vacate` | src/vst3/plugin_chain.cpp:101-130 | the loaded flag is down before anything else changes |
| `PluginChain.PluginChain.Announce` | src/vst3/plugin_chain.cpp:156-182 | format, then loaded flag, then the wrapped callback |
| `PluginChain.PluginChain.Build` | src/vst3/plugin_chain.cpp:132-191 | a successful load is announced, a failing one leaves the pointer null again |
| `PluginChain.PluginChain.InstallAt` | src/vst3/plugin_chain.cpp:199-220 | one slot's instance gets the current callback with its index, in at most one store |
| `PluginChain.PluginChain.SetParamChangedCallback` | src/vst3/plugin_chain.cpp:195-222 | every loaded instance gets the new callback with its own index; at every store the slots up to some index have it and the others are as they were |
| `PluginChain.PluginChain.SetSlotBypass` | src/vst3/plugin_chain.cpp:256-260 | changes that slot's bypass flag and nothing else; 6 for a bad index |
| `PluginChain.PluginChain.SetChainEnabled` | src/vst3/plugin_chain.cpp:262-264 | changes the master flag and nothing else |
| `SlotLifecycle.StoresCoherent` | src/vst3/plugin_chain.cpp:95-260 | at every store of every operation, loaded implies a matching format and a fully loaded instance; bypass flags are untouched |
| `SlotLifecycle.LoadStoresCoherent` | src/vst3/plugin_chain.cpp:95-193 | no store of a load, successful or not, shows a slot that says it is loaded and is not |
| `SlotLifecycle.TearDownCoherent` | src/vst3/plugin_chain.cpp:224-254 | throughout a teardown the slot says it is not loaded, and it ends up empty with its bypass flag kept |
| `SlotLifecycle.OtherSlotsUntouched` | src/vst3/plugin_chain.cpp:95-260 | operations on one slot leave the others alone, store by store |
| `SlotLifecycle.UnroutedWindow` | src/vst3/plugin_chain.cpp:95-260 | among the stores of all operations, a running plugin without its callback is left exactly by the last but one of a successful load with a callback set |
| `SlotLifecycle.FirstCallbackWindow` | src/vst3/plugin_chain.cpp:195-222 | while a callback change goes from slot to slot, a plugin runs without any callback exactly if the callback is the first one and its slot's turn is to come |
| `SlotLifecycle.LoadedSlotSettles` | src/vst3/plugin_chain.cpp:95-193 | whatever the slot held before, a load ends loaded exactly if the format is known and the load succeeds |
| `SlotLifecycle.InstallKeepsPointers` | src/vst3/plugin_chain.cpp:195-222 | a callback change replaces callbacks and no instance |
| `SlotLifecycle.AfterKeepsSettled` | src/vst3/plugin_chain.cpp:95-264 | every operation keeps all slots settled and no instance in two slots |
| `SlotLifecycle.EveryRunSettled` | src/vst3/plugin_chain.cpp:95-264 | over every run: loaded iff format set iff exactly that pointer non-null, and each instance reports to the current callback with its own index |
| `SlotLifecycle.RoutedAsLastSet` | src/vst3/plugin_chain.cpp:166-222 | after every series of operations the closure of a loaded plugin carries its own slot's index and the callback of the last change in that series; there is none without one, or after one that removed it |
| `SlotLifecycle.LoadedAsLastPlaced` | src/vst3/plugin_chain.cpp:95-254 | a slot is loaded iff the last load or unload of it was a load of a known format that succeeded, and then holds that load's instance in that format |
| `SlotLifecycle.BypassAsLastSet` | src/vst3/plugin_chain.cpp:256-260 | a bypass flag is what it was set to last, through all loads and unloads, and down at first |
| `SlotLifecycle.EnabledAsLastSet` | src/vst3/plugin_chain.cpp:262-264 | the chain is on iff it was switched on last |
| `SlotLifecycle.EveryStoreCoherent` | src/vst3/plugin_chain.cpp:95-264 | over every run, each store of each operation shows a coherent slot, and the last one a settled slot |
| `SlotLifecycle.SettledView` | src/vst3/plugin_chain.cpp:358-376 | an undisturbed walk runs exactly the loaded, unbypassed slots |
| `SlotLifecycle.ViewExactly` | src/vst3/plugin_chain.cpp:358-376 | a slot shows an instance iff it is loaded, not bypassed, and the pointer of its own format is set to that instance |
| `SlotLifecycle.UnreadyWindow` | src/vst3/plugin_chain.cpp:95-260 | among the stores of all operations, an instance that is not loaded completely is left in place exactly by the one that tells the slot's instance to unload and the one that puts a new instance there |
| `ChainWalk.HistoryClean` | src/vst3/plugin_chain.cpp:95-264 | over every run, no store leaves a slot that says it is loaded with another pointer than its format's, or with an instance not loaded completely |
| `ChainWalk.HistoryEnds` | src/vst3/plugin_chain.cpp:95-264 | between operations the slots are as the operations leave them |
| `ChainWalk.WalkRunsWhatWasThere` | src/vst3/plugin_chain.cpp:358-376 | with stores falling between any two loads: an instance run was in that slot when its pointer was loaded, after the slot said loaded and not bypassed; it was loaded completely if the slot still said so |
| `ChainWalk.UndisturbedWalk` | src/vst3/plugin_chain.cpp:340-388 | a walk during which nothing is stored puts the block through the instances of exactly the loaded, unbypassed slots in index order, each loaded completely |
| `DataPlane.ReplayExtends` | src/audio/passthrough.cpp:55-99 | deciding one more block extends the reference stream by that block's result, or not at all |
| `DataPlane.DispatchInBounds` | src/audio/passthrough.cpp:76-93 | at the dispatch the input slot holds the next undecided block, and all accesses stay inside the slots |
| `DataPlane.DispatchEmits` | src/audio/passthrough.cpp:67-93 | header copy and dispatch leave in the output slot the block the reference stream emits |
| `DataPlane.AudioReadTestKeeps` | src/audio/passthrough.cpp:56-57 | leaving the drain loop keeps successful waits <= consumed blocks |
| `DataPlane.AudioDropKeeps` | src/audio/passthrough.cpp:59-65 | a drop keeps the stream and counter invariants |
| `DataPlane.AudioPublishKeeps` | src/audio/passthrough.cpp:95 | a publication keeps them |
| `DataPlane.AudioReleaseKeeps` | src/audio/passthrough.cpp:96 | the release of the input slot keeps them |
| `DataPlane.DispatchKeeps` | src/audio/passthrough.cpp:87-93 | the dispatch keeps them, whatever the control thread did meanwhile |
| `DataPlane.StepKeeps` | src/audio/passthrough.cpp:44-100 | every step of host writer, audio thread and host reader keeps the whole invariant |
| `DataPlane.EveryRun` | src/audio/passthrough.cpp:44-100 | the invariant holds after every run from fresh rings |
| `StreamTheorems.EndToEnd` | src/audio/passthrough.cpp:55-99 | in every interleaving, blocks read followed by blocks still unread are the chain applied in order to the blocks not dropped; consumed = processed + dropped up to the program counter |
| `StreamTheorems.EveryBlockHeard` | src/audio/passthrough.cpp:67-93 | in every interleaving each output block belongs to one processed block, in order; a mono block with the chain on is led to it by a trace of plugin worlds and samples that starts where the previous one ended, any other comes out as it went in; header fields are kept and forty reserved bytes zeroed |
| `StreamTheorems.EmitHeard` | src/audio/passthrough.cpp:67-93 | the same for one block |
| `StreamTheorems.ObservationsDispatched` | src/audio/passthrough.cpp:87-90 | what the chain showed to these blocks is what it showed at the dispatches, in order |
| `StreamTheorems.SentWereStarted` | src/ipc/shm_ring.cpp:77-91 | what is sent is what the host set out to send, in order, but for the blocks a full ring refused |
| `StreamTheorems.ReplayIsSubsequence` | src/audio/passthrough.cpp:67-95 | the emitted blocks match a subsequence of the sent ones one to one, header fields kept, reserved bytes zero |
| `StreamTheorems.KeptLength` | src/audio/passthrough.cpp:59-97 | as many blocks come out as were not dropped |
| `StreamTheorems.DisabledChainIsTransparent` | src/vst3/plugin_chain.cpp:348-351 | with the chain off, or nothing succeeding, samples come out as they went in |
| `StreamTheorems.SlotsNeverShared` | src/ipc/shm_ring.cpp:77-107 | with both rings and all three agents running, no slot is filled while it may be read, and the dispatch stays in bounds |
| `StreamTheorems.NoLostWakeup` | src/audio/passthrough.cpp:44-58 | at the outer wait with the semaphore at zero at most one block is unread, and then the host is between publishing and posting |
| `StreamTheorems.OutputPostsMatchProcessed` | src/audio/passthrough.cpp:95-98 | at the loop heads, output posts = processed = published output blocks |
| `StreamTheorems.DropsOnlyWhenFull` | src/audio/passthrough.cpp:59-65 | a block is dropped only if the output ring held slotCount unread blocks when `tail` was loaded |
| `StreamTheorems.LatencyBounded` | src/audio/passthrough.cpp:55-99 | sent - received - dropped never exceeds the two ring depths together |
| `StreamTheorems.AudioIsWaitFree` | src/audio/passthrough.cpp:55-99 | inside the drain loop the audio thread's next step is always available |
| `StreamTheorems.ReaderReads` | src/ipc/shm_ring.cpp:93-107 | over every run, a host that reads while a block is unread gets the oldest one, by its own steps alone |
| `StreamTheorems.WaitingChoices` | src/audio/passthrough.cpp:44-50 | at the outer wait the audio thread can time out and stop, and wakes iff something was posted |
| `StreamTheorems.StepUsesUpRemaining` | src/audio/passthrough.cpp:55-99 | a publication adds ten steps to the audio thread's work, no other foreign step adds any, and each of its own takes one away |
| `StreamTheorems.DrainBudget` | src/audio/passthrough.cpp:52-99 | the steps inside the drain loop are paid for by the blocks unread at the start and those published meanwhile, ten each |
| `StreamTheorems.DrainEnds` | src/audio/passthrough.cpp:52-99 | the drain loop consumes no more than the unread blocks and those published meanwhile; without a publication at most slotCount, within a bounded number of steps |
| `StreamTheorems.DrainUnboundedUnderPublishing` | src/audio/passthrough.cpp:52-99 | while the host publishes, the drain loop can go around any number of times |
| `StreamTheorems.FirstRound` | src/audio/passthrough.cpp:44-99 | the state that starts such a run is reached from fresh rings |
| `Passthrough.DrainedIsReplay` | src/audio/passthrough.cpp:55-99 | with the hosts at rest, exactly the blocks that fit the room left are processed, in order, and the rest dropped |
| `Passthrough.Passthrough.constructor` | src/audio/passthrough.cpp:36-43 | a new loop has counted nothing |
| `Passthrough.Passthrough.Forward` | src/audio/passthrough.cpp:67-95 | the block read is emitted into the output ring with the plugin state moved on |
| `Passthrough.Passthrough.DropFront` | src/audio/passthrough.cpp:59-65 | a full output ring costs the oldest block and one count |
| `Passthrough.Passthrough.ForwardFront` | src/audio/passthrough.cpp:67-98 | publish, release, count and signal go together, once per block |
| `Passthrough.Passthrough.Dispose` | src/audio/passthrough.cpp:59-98 | the block found is processed if the output ring has room and dropped if it has not |
| `Passthrough.Passthrough.Iterate` | src/audio/passthrough.cpp:55-99 | one iteration disposes of the oldest block as the specification says, or finds nothing |
| `Passthrough.Passthrough.Drain` | src/audio/passthrough.cpp:52-99 | the inner loop ends with the input ring empty and the specified blocks, counters and plugin state |
| `Passthrough.Passthrough.RunPassthrough` | src/audio/passthrough.cpp:44-101 | nothing happens until a wait succeeds before a stop flag is seen; the first such wait drains everything |
| `Codec.DecodeEncode` | src/main.cpp:273-289 | a little-endian encoding reads back as the value |
| `Codec.EncodeDecode` | src/main.cpp:297-311 | bytes read as a value are that value's encoding |
| `Codec.DigitIsShiftedMask` | src/main.cpp:273-289 | shifting and masking picks the digit to the base 256 |
| `Codec.OrAppendsDigit` | src/main.cpp:303-308 | or-ing a shifted byte into the bits read so far adds it as the next digit |
| `Codec.AppendU32Le` | src/main.cpp:273-278 | appends the four-byte encoding, which decodes to the value |
| `Codec.AppendF64Le` | src/main.cpp:282-289 | appends the eight-byte encoding of the bit pattern |
| `Codec.AppendString` | src/main.cpp:290-294 | appends the length word and the bytes |
| `Codec.ReadU32LeIsValue` | src/main.cpp:297-302 | the or of the shifted bytes is their value |
| `Codec.ReadF64Le` | src/main.cpp:303-311 | the accumulation loop returns the value of the eight bytes, for every pattern |
| `Codec.U32RoundTrip` | src/main.cpp:273-302 | a word written anywhere in a body reads back as itself |
| `Codec.ReadU32Injective` | src/main.cpp:297-302 | only a word's own encoding reads as it |
| `Codec.BuildParamListBody` | src/main.cpp:389-406 | the loop builds the specified body; a failed request carries no list |
| `Codec.ParamDecodesUniquely` | src/main.cpp:398-404 | a parameter record can be split off and read in only one way |
| `Codec.ParamListDecodesUniquely` | src/main.cpp:389-406 | different reports never share a body, and no body is a proper prefix of another |
| `Codec.ListLayout` | src/main.cpp:389-406 | a report is slot, status, and with status zero the number of records and the records |
| `Codec.ParamLayout` | src/main.cpp:397-405 | a record is the id, the name and the units with their lengths in front, and the numbers |
| `Codec.NumbersLayout` | src/main.cpp:401-404 | the numbers are default, current value, the step count in two's complement, and the flags |
| `Codec.LoadPluginAcceptsExactly` | src/main.cpp:549-560 | the 32-bit size test accepts exactly the encodings of a path short enough for it |
| `Codec.SlotLoadPluginAcceptsExactly` | src/main.cpp:606-619 | the same for the request with a slot byte |
| `ControlPipe.ParseFrame` | src/ipc/control_pipe.cpp:236-265 | a frame is received as its message, or rejected after its length word if the payload has exactly 2^20 bytes |
| `ControlPipe.ParseExactly` | src/ipc/control_pipe.cpp:245-250 | a length of zero or beyond 2^20 is rejected as soon as its four bytes are there; any other frame is taken as soon as it is complete |
| `ControlPipe.SmallMessagesRoundTrip` | src/ipc/control_pipe.cpp:83-118 | frames of small enough messages are received as sent, whatever follows them |
| `ControlPipe.RoundTripExactly` | src/ipc/control_pipe.cpp:83-265 | of the messages `Send` accepts, the receiver gets back exactly what was sent, with no byte left, iff every payload is below 2^20 bytes |
| `ControlPipe.LargeMessageRejected` | src/ipc/control_pipe.cpp:251 | the first message of exactly 2^20 bytes is rejected, after all before it were delivered |
| `ControlPipe.CutStreamLoses` | src/ipc/control_pipe.cpp:236-265 | of receivable messages everything is delivered exactly if no byte is missing in front |
| `ControlPipe.ReadingStarts` | src/ipc/control_pipe.cpp:199-232 | a read consumes anything at all exactly if, interruptions aside, bytes arrive first |
| `ControlPipe.ReadingExactly` | src/ipc/control_pipe.cpp:191-234 | by its script: a read consumes what arrives before the first outcome it cannot go on from, up to what it wants; if that is too little it fails, and reports a closed connection iff that outcome is a hang-up or an end of file |
| `ControlPipe.ReceiveClosesExactly` | src/ipc/control_pipe.cpp:236-265 | a receive reports a closed connection iff the last outcome it ran into, anywhere in the frame, was a hang-up or an end of file |
| `ControlPipe.FailedReceiveLoses` | src/ipc/control_pipe.cpp:191-265 | after a failed receive the rest of the session is intact exactly if it failed before any byte arrived |
| `ControlPipe.TimeoutLosesTheGoodbye` | src/ipc/control_pipe.cpp:200-215 | as a run of a receive: four bytes of a heartbeat arrive, the time is up, and the goodbye behind it is never seen |
| `ControlPipe.SmoothReceive` | src/ipc/control_pipe.cpp:191-265 | on a stream that keeps flowing, in whatever pieces, a receive does exactly what parsing says |
| `ControlPipe.StopCutsShort` | src/main.cpp:529-546 | a stop flag seen earlier cuts the handled messages short and changes nothing else about them |
| `ControlPipe.SmoothReader` | src/main.cpp:529-546 | on such a stream, given the turns, the reader handles exactly the messages the stream holds up to a goodbye |
| `ControlPipe.FramesReadBack` | src/main.cpp:529-546 | the round trip: frames of receivable messages, arriving in whatever pieces, are handled as sent, with no byte left unless a goodbye ends the session; a stop flag leaves the first few of them handled |
| `ControlPipe.EndAfterFrames` | src/main.cpp:529-546 | frames of receivable messages without a goodbye, in whatever pieces, and then the end: all are handled, and the reader stops iff the end is a hang-up or an end of file, and tries again after a deadline, a timeout or an error |
| `ControlPipe.ControlPipe.SendAll` | src/ipc/control_pipe.cpp:97-116 | partial sends and interruptions do not change the bytes; a failure leaves a proper prefix |
| `ControlPipe.ControlPipe.Send` | src/ipc/control_pipe.cpp:83-118 | success puts exactly the frame on the wire; a closed pipe or an oversized payload puts nothing |
| `ControlPipe.ControlPipe.TrySendNonBlocking` | src/ipc/control_pipe.cpp:120-183 | success puts exactly the frame on the wire; nothing is written when the queue has too little room |
| `ControlPipe.ControlPipe.RecvTurn` | src/ipc/control_pipe.cpp:200-231 | one turn of the loop ends the read as its outcome says, or brings some more bytes |
| `ControlPipe.ControlPipe.RecvAll` | src/ipc/control_pipe.cpp:191-234 | for every sequence of outcomes: whether it succeeds, whether the peer closed, and how many bytes are gone; fragmentation does not matter |
| `ControlPipe.ControlPipe.RecvBody` | src/ipc/control_pipe.cpp:253-263 | tag and payload of the frame, or the bytes consumed in vain |
| `ControlPipe.ControlPipe.Recv` | src/ipc/control_pipe.cpp:236-265 | a message is returned only if it is the next frame; in every other case the contract says how many bytes are lost |
| `ControlPipe.ControlPipe.ReadMessages` | src/main.cpp:529-546 | the loop handles messages until a stop flag, a goodbye or a closed connection, and tries again after any other failure; on a closed descriptor it handles nothing |
| `ControlWriters.TruncatedFrameSwallows` | src/ipc/control_pipe.cpp:236-265 | a truncated frame swallows what follows until its announced length is filled |
| `ControlWriters.WriteKeeps` | src/ipc/control_pipe.cpp:97-116 | each partial write of the mutex holder extends its unfinished frame |
| `ControlWriters.CompletedKeeps` | src/main.cpp:253-267 | a message that has gone out whole becomes the next one of its thread in the merge |
| `ControlWriters.UnlockKeeps` | src/main.cpp:253-257 | releasing the mutex turns the finished frame into a logged message of that thread |
| `ControlWriters.LossyTakenKeeps` | src/main.cpp:263-267 | a lossy message that is taken goes out whole |
| `ControlWriters.AbsentKeeps` | src/ipc/control_pipe.cpp:86-124 | a message that is too large to be sent, or a lossy one that is not taken, leaves no trace on the wire |
| `ControlWriters.WireIsAMerge` | src/main.cpp:250-267 | in every interleaving the wire holds a merge of the threads' messages, each thread's own in its order, blocking ones all there, lossy ones whole or absent, oversized ones absent; between messages the receiver gets that merge with nothing left over iff every message of it is receivable |
| `ControlWriters.BlockingSendSettles` | src/main.cpp:253-257 | a blocking send of a message that is not too large can always go through, in whatever pieces the kernel takes the frame, and then the message is on the wire as a whole |
| `ControlWriters.OtherSendSettles` | src/main.cpp:263-267 | a lossy send is over at once, taken or not, and a message that is too large is refused |
| `ControlWriters.PartialLossySendSilencesTheNext` | src/ipc/control_pipe.cpp:167-181 | around a lossy frame of which the kernel took k bytes, everything else is delivered with nothing left over iff k is zero; followers that fit the missing part are silenced |
| `Coalescing.MapHoldsHistory` | src/vst3/plugin_host.cpp:170-187 | for each it holds the last edit's value and the last forwarded edit's time |
| `Coalescing.MapKnowsEdited` | src/vst3/plugin_host.cpp:170-187 | after every history the map knows exactly the parameters edited so far |
| `Coalescing.ForwardingRule` | src/vst3/plugin_host.cpp:170-187 | with a monotone clock an edit is forwarded iff it is the parameter's first, or 10 ms after every forwarded one, or 0.001 above or below the previous edit |
| `Coalescing.DriftBounded` | src/vst3/plugin_host.cpp:174-180 | after k swallowed edits the unsent drift is below 0.001 k, up or down |
| `Coalescing.ForwardedInWindowExactly` | src/vst3/plugin_host.cpp:170-187 | within 10 ms of the edit forwarded last, an edit is forwarded iff it is 0.001 or more away from the edit before it |
| `Coalescing.RateBound` | src/vst3/plugin_host.cpp:128-131 | the forwarded edits of a parameter, the first and those that jumped not counted, are at most one per 10 ms of the time passed |
| `Coalescing.CoarseSweepIsForwarded` | src/vst3/plugin_host.cpp:128-131 | a sweep in steps of 0.001 or more, up or down, within one instant is forwarded edit by edit, however many there are |
| `Coalescing.RestingValueHeard` | src/vst3/plugin_host.cpp:133-135 | the host ends up with the resting value iff the guard lets the last edit through or an earlier forwarded value equals it |
| `Coalescing.SweepIsSwallowed` | src/vst3/plugin_host.cpp:133-135 | a sweep in smaller steps, up or down, within one instant is reported as its start alone, however far it goes |
| `PendingChanges.PushKeepsLast` | src/vst3/plugin_host.cpp:718-724 | dropping the oldest on overflow keeps exactly the newest 256 |
| `PendingChanges.PendingIsTheTail` | src/vst3/plugin_host.cpp:718-724 | between drains the queue is the last min(n, 256) of the n changes pushed since the previous one |
| `PendingChanges.BlockPresents` | src/vst3/plugin_host.cpp:846-860 | a successful drain presents exactly those, in push order; a failed `try_lock` presents nothing |
| `PendingChanges.AcceptedInOrder` | src/vst3/plugin_host.cpp:846-860 | a block is handed exactly the changes its queue accepts, in order, also behind one that it refuses |
| `PendingChanges.DrainWindow` | src/vst3/plugin_host.cpp:846-860 | what a drain presents is one stretch of the push sequence, up to the newest push |
| `PendingChanges.NothingPresentedTwice` | src/vst3/plugin_host.cpp:846-860 | two drains present disjoint stretches, in order |
| `PendingChanges.LostOnlyByOverflow` | src/vst3/plugin_host.cpp:720-722 | a change is missing from the next drain only if 256 later ones were pushed before it |
| `PendingChanges.ActivePlugin.Push` | src/vst3/plugin_host.cpp:718-724 | one more change at the end, at the price of the oldest if the queue was full |
| `PendingChanges.ActivePlugin.Drain` | src/vst3/plugin_host.cpp:846-860 | hands over all pending changes the SDK queue accepts and clears them, or does nothing without the lock |
| `PendingChanges.SetParam` | src/vst3/plugin_host.cpp:926-950 | nothing without a controller; else the value clamped to the unit interval is stored and pushed, and the answer is what the controller keeps of it |
| `EditBridge.EditKeeps` | src/vst3/plugin_host.cpp:162-187 | an edit keeps filter state, forwarded edits and history in agreement |
| `EditBridge.EnqueueKeeps` | src/vst3/plugin_host.cpp:207-217 | overflow gives up the oldest edit and counts it, and nothing else is lost |
| `EditBridge.TestKeeps` | src/vst3/plugin_host.cpp:246-263 | the drain thread's critical section takes the oldest edit, exits only stopped and empty, and else goes to sleep |
| `EditBridge.EditsConserved` | src/vst3/plugin_host.cpp:162-269 | over every interleaving: enqueued edits are the popped ones followed by the queue, each popped one counted as dropped or dispatched in order; the queue never exceeds 2048; the audio side gets each edit first |
| `EditBridge.HistoryIsMade` | src/vst3/plugin_host.cpp:162-187 | the history these statements speak of is what the editor did, edit by edit |
| `EditBridge.DropsOnlyFull` | src/vst3/plugin_host.cpp:207-215 | over every run an edit is given up only by an enqueue that finds 2048 others, and then it is the oldest |
| `EditBridge.EditGoesThrough` | src/vst3/plugin_host.cpp:162-219 | a forwarded edit can go to the audio side and to the queue, leave the drain thread awake and return |
| `EditBridge.ExitLeavesNothing` | src/vst3/plugin_host.cpp:240-263 | if no edit is enqueued after the drain thread exited, every forwarded edit was counted as dropped or dispatched |
| `EditBridge.NoEditSleptOver` | src/vst3/plugin_host.cpp:215-252 | the drain thread sleeps over a queued edit only while that edit's notification is still to come |
| `EditBridge.StopCanBeMissed` | src/vst3/plugin_host.cpp:115-126 | the destructor's notification can fall between the drain thread's test and its sleep |
| `EditBridge.MissedStopHangs` | src/vst3/plugin_host.cpp:115-126 | after that only a further edit or a spurious wake-up can happen |
| `EditBridge.JoinsExactly` | src/vst3/plugin_host.cpp:115-126 | without further edits and spurious wake-ups, a join can return iff the drain thread is awake or an edit is still under way |
| `EditBridge.StopHeardExactly` | src/vst3/plugin_host.cpp:115-126 | so the destructor's notification leads to the join's return iff, when it is made, the drain thread is not between its test and its sleep, or an edit is still under way |
| `EditBridge.HeardStaysHeard` | src/vst3/plugin_host.cpp:115-126 | once the drain thread is awake, the join returns or can return after every such run |
| `EditBridge.HangsOnlyIfMissed` | src/vst3/plugin_host.cpp:115-126 | over every run, a join cannot return iff the drain thread sleeps, or is about to, with no edit under way, and then the notification fell into that gap |
| `EditBridge.ShutdownDrains` | src/vst3/plugin_host.cpp:240-269 | otherwise the drain thread dispatches everything queued, in order, and exits after a known number of steps |
| `EditBridge.HostComponentHandler.Coalesce` | src/vst3/plugin_host.cpp:172-187 | decides and remembers as the filter specification says |
| `EditBridge.HostComponentHandler.EnqueueEdit` | src/vst3/plugin_host.cpp:207-215 | a bounded push that counts an overflow |
| `EditBridge.HostComponentHandler.PerformEdit` | src/vst3/plugin_host.cpp:162-219 | a swallowed edit reaches neither queue, a forwarded one both |
| `EditBridge.HostComponentHandler.PopFront` | src/vst3/plugin_host.cpp:246-263 | takes the oldest edit, or reports exit or wait |
| `EditBridge.HostComponentHandler.DrainAfterStop` | src/vst3/plugin_host.cpp:244-269 | after a stop the loop returns, with everything queued handed to an installed callback in order |
| `TimerWheel.HostRunLoop.constructor` | src/vst3/host_run_loop.cpp:26 | a new run loop has no timers |
| `TimerWheel.HostRunLoop.RegisterTimer` | src/vst3/host_run_loop.cpp:62-71 | a null handler or a zero interval is refused; else one more entry, due an interval from now |
| `TimerWheel.HostRunLoop.UnregisterTimer` | src/vst3/host_run_loop.cpp:73-81 | all entries of the handler are gone, the others keep their order; the status tells whether there were any |
| `TimerWheel.HostRunLoop.Reschedule` | src/vst3/host_run_loop.cpp:121-128 | due entries are moved on and their handlers collected, the others untouched |
| `TimerWheel.HostRunLoop.FireAll` | src/vst3/host_run_loop.cpp:129-135 | each collected handler is called if it is registered when its turn comes |
| `TimerWheel.HostRunLoop.MsUntilSoonest` | src/vst3/host_run_loop.cpp:138-145 | the time to the earliest deadline, floored at zero |
| `TimerWheel.HostRunLoop.HandleTimersAndGetNextFireMs` | src/vst3/host_run_loop.cpp:112-146 | the whole scan, with re-entrant handlers, does what the scan specification says |
| `TimerWheel.EveryRunSpaced` | src/vst3/host_run_loop.cpp:112-146 | over every run, whatever the handlers register or unregister: handlers are called only while registered, and scans that fire one entry are at least its interval apart unless a deadline wrapped |
| `TimerWheel.DeadlineFits` | src/vst3/host_run_loop.cpp:68 | a deadline is its interval away iff the sum fits 64 bits, and else already past |
| `TimerWheel.WrapBreaksSpacing` | src/vst3/host_run_loop.cpp:68-127 | for every interval and time of registration, two immediate scans break the spacing iff the deadline does not fit 64 bits |
| `TimerWheel.FiresEarlyExactly` | src/vst3/host_run_loop.cpp:112-146 | of two scans, the second before the interval of an entry is over that the first one fired and that is still there, whatever handlers do in both: it fires again iff its deadline did not fit 64 bits, and then the spacing is broken |
| `TimerWheel.ScanReturns` | src/vst3/host_run_loop.cpp:136-145 | the sentinel exactly if no entry remains (or the clock is zero and all deadlines are the last word), else the time to the earliest deadline floored at zero |
| `TimerWheel.ScanCatchesUp` | src/vst3/host_run_loop.cpp:121-128 | a scan leaves no deadline at or before its own start, so missed fires do not pile up |
| `TimerWheel.CallsAreDue` | src/vst3/host_run_loop.cpp:129-135 | a scan calls a handler at most once per due entry of it |
| `TimerWheel.DueEntryStands` | src/vst3/host_run_loop.cpp:129-135 | the entry a handler is called for is still there iff no handler called before it in this scan unregistered it |
| `TimerWheel.StandingIsCalled` | src/vst3/host_run_loop.cpp:129-135 | a due handler that none before it has unregistered is called in its turn |
| `TimerWheel.DueInOrder` | src/vst3/host_run_loop.cpp:121-128 | the turns are those of the due entries, in the order of the entries |
| `TimerWheel.WithoutInOrder` | src/vst3/host_run_loop.cpp:73-81 | an unregistration takes all entries of the handler and keeps the order of the others |
| `TimerWheel.RegisterExactly` | src/vst3/host_run_loop.cpp:62-71 | a registration adds one entry behind the others, due an interval from now, less 2^64 if that does not fit |
| `TimerWheel.RegisteredAgainIsCalledEarly` | src/vst3/host_run_loop.cpp:129-135 | whatever two due entries there are, if the first handler unregisters the second and registers it again, the second is called although its entry is not due |
| `ClapLifecycle.FailedLoadStage` | src/clap/clap_plugin.cpp:392-453 | a load failing at any step leaves every instance's resources as they were |
| `ClapLifecycle.LoadedStage` | src/clap/clap_plugin.cpp:502-514 | after a load the new instance holds everything, the prior one and its GUI nothing |
| `ClapLifecycle.EveryRunBracketed` | src/clap/clap_plugin.cpp:387-535 | over every run all calls for every instance are in order; only the active instance holds anything, with a GUI exactly while its view has one |
| `ClapLifecycle.ActiveAsLastLoaded` | src/clap/clap_plugin.cpp:387-535 | over every run the active plugin is that of the last load that succeeded, with that load's own number and extension, unless an unload came after it |
| `ClapLifecycle.AcquireExactly` | src/clap/clap_view.cpp:31-56 | a view is created on first use, with a GUI iff the plugin offers one and makes it |
| `ClapLifecycle.AttachExactly` | src/clap/clap_view.cpp:104-130 | an attach embeds an existing GUI iff window system and parent are right, and shows it iff the plugin then can and does |
| `ClapLifecycle.DropsExactly` | src/clap/clap_view.cpp:58-149 | what is shown is hidden, what was created is destroyed; a release forgets the view, a removal keeps it with nothing created |
| `ClapLifecycle.StageCounts` | src/clap/clap_plugin.cpp:296-319 | calls in order undo each acquisition exactly once, except those still held |
| `ClapLifecycle.GuiGoneBeforePlugin` | src/clap/clap_plugin.cpp:502-535 | whenever a plugin is destroyed, its GUIs are gone and it is neither active nor processing |
| `ClapLifecycle.UnloadReleasesAll` | src/clap/clap_plugin.cpp:517-535 | after an unload, every acquisition ever made has been undone |
| `ClapLifecycle.FailedLoadUndone` | src/clap/clap_plugin.cpp:392-453 | a failing load undoes its own acquisitions and touches neither the active plugin nor its view; the registry is what plugins' timer calls meanwhile make of it |
| `ClapLifecycle.FailedLoadCalls` | src/clap/clap_plugin.cpp:392-453 | call by call: up to the step that fails, and then the way back |
| `ClapLifecycle.ErrorCodeTells` | src/clap/clap_plugin.cpp:392-453 | 1 iff the module did not open, 2 iff its entry is missing, 3 iff it has no effect, 0 iff nothing failed |
| `ClapLifecycle.IncompleteGuiLeaks` | src/clap/clap_view.cpp:58-72 | an extension without the functions to undo what it offers breaks the bracketing |
| `ClapLifecycle.MadeRegistry` | src/clap/clap_plugin.cpp:213-241 | a series of host calls changes the registry by exactly the timer calls plugins make from inside them |
| `ClapLifecycle.TimersFollowThePlugin` | src/clap/clap_plugin.cpp:387-535 | after each operation every timer belongs to the active plugin iff the timer calls made during it unregister what others had registered and undo what others register meanwhile; an unload starts that count with a cleared registry |
| `ClapLifecycle.SilentLoadKeepsTimers` | src/clap/clap_plugin.cpp:502-514 | without a timer call meanwhile, a load over a loaded plugin is clean iff no timer is registered |
| `ClapLifecycle.FailedLoadLeavesTimer` | src/clap/clap_plugin.cpp:428-447 | a plugin that registers a timer while it is created and then fails to be activated leaves it behind |
| `ClapLifecycle.EveryRunTimers` | src/clap/clap_plugin.cpp:213-241 | over every run, re-entrant calls included: periods of at least 16 ms, ids as the 32-bit counter gave them out, distinct iff no two registered timers are a multiple of 2^32 registrations apart |
| `ClapTimers.IdsDistinctExactly` | src/clap/clap_plugin.cpp:221-224 | the same for any registry in order |
| `ClapTimers.RegisterKeepsDistinct` | src/clap/clap_plugin.cpp:221-224 | a registration keeps ids distinct iff the counter does not stand at a registered one |
| `ClapTimers.RecentDistinct` | src/clap/clap_plugin.cpp:221-224 | ids are distinct as long as every registered timer is among the last 2^32 registrations |
| `ClapTimers.IdsCanCollide` | src/clap/clap_plugin.cpp:221-224 | a timer kept while 2^32 - 1 others come and go shares its id with the next one |
| `ClapTimers.UnregisterExact` | src/clap/clap_plugin.cpp:229-241 | with distinct ids, unregistering removes exactly the timer that was given the id |
| `ClapTimers.RemainingExactly` | src/clap/clap_plugin.cpp:213-241 | after any timer calls exactly those timers are registered that were before or were registered meanwhile, and that no later call unregistered |
| `ClapTimers.OwnedExactly` | src/clap/clap_plugin.cpp:213-241 | all of them have one owner iff the calls unregister what others had and undo what others registered |
| `ClapPlugin.TimerRegistry.constructor` | src/clap/clap_plugin.cpp:166-167 | no timers, and the counter at one |
| `ClapPlugin.TimerRegistry.HostTimerRegister` | src/clap/clap_plugin.cpp:213-228 | for whatever instance and whether or not a plugin is active: the counter's id, which then moves on, and a period of at least 16 ms |
| `ClapPlugin.TimerRegistry.HostTimerUnregister` | src/clap/clap_plugin.cpp:229-241 | the first entry with that id is gone, the others keep their order; tells whether there was one |
| `ClapPlugin.TimerRegistry.Clear` | src/clap/clap_plugin.cpp:525-528 | the timers go, the counter stays |
| `ClapPlugin.TimerRegistry.Reenter` | src/clap/clap_plugin.cpp:213-241 | any sequence of timer calls from inside a call |
| `ClapPlugin.Sdk.Make` | src/clap/clap_plugin.cpp:296-319 | a call into a plugin is logged, and the plugin makes its timer calls before it returns |
| `ClapPlugin.ActiveClap.TearDownActive` | src/clap/clap_plugin.cpp:296-319 | stop, deactivate, destroy, deinit, close, each once, with the plugin's timer calls from inside each, and no flag left set |
| `ClapPlugin.ClapViewWrapper.constructor` | src/clap/clap_view.cpp:31-56 | creates the GUI at once if it can; the flag says whether it did |
| `ClapPlugin.ClapViewWrapper.HideAndDestroy` | src/clap/clap_view.cpp:58-72 | a GUI that exists is hidden if shown, and then destroyed; nothing else is called |
| `ClapPlugin.ClapViewWrapper.Destruct` | src/clap/clap_view.cpp:58-72 | hides what is shown, destroys what was created, clears all flags |
| `ClapPlugin.ClapViewWrapper.Attached` | src/clap/clap_view.cpp:104-130 | succeeds only embedded and shown; a GUI that was never created is not touched |
| `ClapPlugin.ClapViewWrapper.Removed` | src/clap/clap_view.cpp:132-149 | hides, destroys and clears, so that the destructor has nothing left to do |
| `ClapPlugin.ClapPlugin.constructor` | src/clap/clap_plugin.cpp:380 | a new host has no plugin and no view |
| `ClapPlugin.ClapPlugin.ResetEditorView` | src/clap/clap_plugin.cpp:502-504 | dropping the wrapper hides and destroys its GUI |
| `ClapPlugin.ClapPlugin.TryLoad` | src/clap/clap_plugin.cpp:392-453 | each failing step releases exactly what was acquired, in reverse order, with the source's error code, and plugins make their timer calls from inside each call |
| `ClapPlugin.ClapPlugin.Unwind` | src/clap/clap_plugin.cpp:405-452 | a failing branch releases what its load holds, from the top down |
| `ClapPlugin.ClapPlugin.Exchange` | src/clap/clap_plugin.cpp:506-513 | the new plugin is published before the prior one is torn down |
| `ClapPlugin.ClapPlugin.Install` | src/clap/clap_plugin.cpp:502-514 | the prior plugin's view goes before the plugins change over |
| `ClapPlugin.ClapPlugin.LoadPlugin` | src/clap/clap_plugin.cpp:387-515 | the view goes first, then the swap, then the prior plugin; a failure leaves plugin and view alone; the registry follows the timer calls made from inside all these calls |
| `ClapPlugin.ClapPlugin.UnloadPlugin` | src/clap/clap_plugin.cpp:517-535 | view, timers and plugin go in that order; timer calls made during the teardown come after the clearing |
| `ClapPlugin.ClapPlugin.AcquireEditorView` | src/clap/clap_plugin.cpp:806-815 | null without a GUI extension, else the one wrapper, created on first use |
| `ClapPlugin.ClapPlugin.ReleaseEditorView` | src/clap/clap_plugin.cpp:817-820 | the wrapper and its GUI are gone |
| `ClapProcess.ClapProcessor.Collect` | src/clap/clap_plugin.cpp:283-294 | of a plugin's output events exactly the parameter values are kept, in order |
| `ClapProcess.ClapProcessor.Process` | src/clap/clap_plugin.cpp:541-672 | without a running plugin, or for an unfit block or topology, nothing is written and the pending changes stay; an accepted block hears all of them, a stereo plugin's output is the mean of its two channels, and its own parameter changes go to the callback |
| `ClapProcess.SymmetricStereoIsMono` | src/clap/clap_plugin.cpp:616-652 | duplicating the input and averaging the outputs is transparent for a plugin whose sides agree with a mono effect |
| `ClapProcess.HeardHalfWay` | src/clap/clap_plugin.cpp:616-652 | a stereo plugin is heard half way between its two sides, each of which has heard the whole block; a mono plugin as it is |
| `ClapProcess.ParamValuesInOrder` | src/clap/clap_plugin.cpp:283-294 | the parameter values kept of the output events are all of them, in order |

## Left out

- Operating-system and SDK calls (shared memory, semaphores, sockets, `poll`, dynamic loading, X11, plugin internals) are abstract steps: a counting semaphore, a stream with arbitrary fragmentation, transformers that may fail, callbacks that may re-enter. Calls past the end of a script fail.
- Waiting for a `Process` call in flight while the control thread loads or unloads: no code does, although a comment credits a fence with that (src/vst3/plugin_host.cpp:736-740); `SlotLifecycle.UnreadyWindow` names the stores such a call must not be overtaken by.
- `ChainWalk.UndisturbedWalk`: an instance's number stands for the instance alone; in the stream theorems the number in `Run` stands for it with the parameter changes pending in that block.
- Weak memory: acquire loads, release stores and critical sections are atomic steps in one order.
- Semaphore overflow, and the host reader's own waiting on the output semaphore.
- Host blocks that do not fit the ring's geometry: the sidecar does not check them, and the stream theorems assume they fit.
- `OpenExisting`: it validates neither slot size nor total size; the geometry results are about created mappings.
- Floating-point rounding and NaN: samples and parameter values are reals, the codecs carry bit patterns.
- 64-bit wrap-around of the statistics counters and of the dropped-edit counter.
- The SDK's merging of several changes of one parameter in a block: changes are presented as a list.
- The width of the SDK's timer interval, which is not part of this model: deadlines are 64-bit sums.
- Calls through an editor-view pointer kept after its release, and views attached through it.
- Growing a plugin's GUI: sizes, resizing and size constraints.
- The idle tick of CLAP plugins (`request_flush`, `on_main_thread`, the due test of timers); the timer calls plugins make from it are those at any other moment.
- Registrations of CLAP timers by several threads at once: taking the id and storing the entry are one step.
- CLAP's blocking lock around the pending queue: it is the case of `PendingChanges` in which every block has the lock.
- `GuiThread`, `EditorWindow`, `HostPlugFrame`, file-descriptor handlers: X11 plumbing.
- The VST2 host and the VST3 loading sequence: the same shapes as the CLAP one.
- Argument parsing, idle mode, heartbeat logging, other platforms' wakeups.
- `ControlWriters.WireIsAMerge`: assumes that a blocking send of a message that is not too large completes and that a lossy send is all or nothing; `ControlWriters.PartialLossySendSilencesTheNext` shows that the second is needed.
- `ClapLifecycle.EveryRunBracketed`: assumes that a GUI extension offering `create` offers `destroy`, and with `show` also `hide`; `ClapLifecycle.IncompleteGuiLeaks` shows that this is needed.
- `ClapLifecycle.TimersFollowThePlugin`: assumes that every registered timer stays among the last 2^32 registrations; `ClapTimers.IdsCanCollide` shows that older ones can share their id with another.
- `EditBridge.EditsConserved`: one GUI thread calls `performEdit`, as the source's comments say.
- `Passthrough.Passthrough.RunPassthrough`: the two host agents stand still; the interleaved machine is in `DataPlane`.
