# r2: verified models of its core

r2 forwards packets: forwarding threads run a graph of nodes over packets made of pooled buffers, a
control thread changes what they do, a scheduler shares the outgoing links, and counters and logs are
kept in shared memory. This project models six parts of it and proves what they promise.

- **Hierarchical fair service curve scheduler** (`FloorDivision`, `ServiceCurve`, `CurveMinimum`,
  `KeyTree`, `Hfsc*`): the fixed-point service curves, and the class tree with its counts, ordered
  trees, floors and byte counts, over all runs. `HfscScheduler` updates fields in place and is proved
  equal to the functions of `HfscState`, which the other modules reason about.
- **Two-table route switch** (`RouteSwitch`, `RouteControl`): the protocol between the control thread and
  any number of forwarding threads over channels and counted references, over all interleavings.
- **Packets and their pool** (`Particle`, `Packet`, `PacketAccess`, `PacketHeaders`, `PacketPool`,
  `PoolRuns`, `PoolSystem`): a chain of buffers that is one sequence of bytes, and a pool that loses and
  duplicates nothing. `PoolSystem` shows the operations on the heap to be the steps of `PoolRuns`.
- **Allocator and counters** (`PowerOfTwo`, `Bin`, `CounterMemory`, `CounterDirectory`, `CounterFlavors`):
  powers of two in machine words, an allocator whose objects tile its range, a memory layout from which a
  reader rebuilds the live counters, and what callers get when it is full.
- **Graph runner** (`GraphRunner`): one ordered pass over the nodes that loses no queued packet.
- **Ring log** (`LogSlot`, `RingLog`, `LogReader`): slots written and dumped, character for character, and read
  back from the dump.

Objects that the code changes in place are classes, and each of their methods is stated by the function
or the relation that the lemmas are about. `dafny verify dfyconfig.toml` checks everything.

Some promises hold only under a condition. These are stated with it: a convex curve's update is the minimum
of both curves only if it restarts or the kept curve is not ahead (`ConvexMinimum`), the curve inverse is late
on a flat start (`InverseTimeBound`) and wraps past a flat end (`FlatSlopeWraps`), a rate of 2^40 bits per
second or more loses its upper bits (`RateTight`), the virtual time of a class
underflows when its curve is behind its offset (`AdvanceWordExact`, `SubtractionUnderflows`), the bytes of a
fast curve by the time of day do not fit a word (`RtscX2YWordExact`, `FastCurveWraps`), dequeue is
bound to return a queued packet if packets are put on leaves and classes under interior classes
(`WorkConserved`), and in general exactly if one of its two criteria finds one (`DequeueReturns`), so that a
packet on an interior class without a real-time curve stays there and can keep back that of a sibling leaf
(`InteriorNeverSends`, `InteriorBlocksLeaf`), a
pushed header that is spread over particles cannot be read (`PushHeader`), a request above 2^31 bytes gets the
smallest object (`LargeEnough`), an array of no counters, or one of more than two when there is no room for
it, panics instead of sharing a dummy (`NewArray`, `EmptyArrayPanics`, `FullArrayPanics`), the drop node can be
added twice (`AddKeepsUnique`), a thread sleeps on a packet that a client leaves behind when nobody asks
for another pass (`SleepsOnPacket`), and a dump has a line for each call if no format has a line break
(`DumpIsRead`).

## Model

| member | source | states |
|---|---|---|
| `ServiceCurve.SegX2YExact` | sched/src/hfsc.rs:74-81 | the multiplication split into high and low part is exactly the product scaled down by 2^24 |
| `ServiceCurve.SegY2XExact` | sched/src/hfsc.rs:83-91 | the same for the inverse slope and 2^10, and infinity for a flat slope and any bytes |
| `ServiceCurve.SlopesFit` | sched/src/hfsc.rs:93-103 | every configurable slope is below 2^40 and every finite inverse slope below 2^54 |
| `ServiceCurve.SegX2YWordExact` | sched/src/hfsc.rs:74-81 | with 64-bit wrap-around at every operation the result is the exact product if and only if that product fits 64 bits |
| `ServiceCurve.SegY2XWordExact` | sched/src/hfsc.rs:83-91 | the same for the inverse slope |
| `ServiceCurve.RateReciprocal` | sched/src/hfsc.rs:93-103 | slope and inverse slope of one rate multiply to at most 2^34, whatever the truncation |
| `ServiceCurve.RateTight` | sched/src/hfsc.rs:93-103 | truncation takes no more from that product than slope and inverse slope together, if and only if the rate is below 2^40 bits per second: scaling a higher one drops bits |
| `ServiceCurve.RateIsPerSecond` | sched/src/hfsc.rs:93-103 | below that a rate is in bits per second, both as a slope and as an inverse slope, but for truncation |
| `ServiceCurve.ConfiguredLength` | sched/src/hfsc.rs:105-118 | the first segment of a configured curve lasts for its milliseconds, in nanoseconds |
| `ServiceCurve.ConfiguredWellFormed` | sched/src/hfsc.rs:109-118 | a configured curve has the height of its first segment and reciprocal slopes |
| `ServiceCurve.SegInverse` | sched/src/hfsc.rs:74-91 | the time a segment takes for y bytes never serves more than y bytes |
| `ServiceCurve.SegInverseTime` | sched/src/hfsc.rs:74-91 | the bytes of x nanoseconds never take longer than x |
| `ServiceCurve.SegInverseAtLeast` | sched/src/hfsc.rs:74-91 | one nanosecond after the time for y bytes a segment has served them, but for what its two truncated slopes lose of y |
| `ServiceCurve.ConfiguredLost` | sched/src/hfsc.rs:93-103 | how much that is at most for a configured rate: one byte, and of y the part that slope and inverse slope together are of 2^34 |
| `ServiceCurve.RtscX2YMono` | sched/src/hfsc.rs:153-163 | bytes granted never fall with time, across the segment boundary too |
| `ServiceCurve.RtscY2XMono` | sched/src/hfsc.rs:137-151 | the time for more bytes is never earlier, across the segment boundary too |
| `ServiceCurve.RtscY2XWordExact` | sched/src/hfsc.rs:137-151 | with 64-bit wrap-around the time of a whole curve is the exact one if and only if that fits 64 bits |
| `ServiceCurve.FlatSlopeWraps` | sched/src/hfsc.rs:149 | past the first segment of a curve with a flat second slope the time is infinite, but in 64 bits it wraps to the last nanosecond of that segment |
| `ServiceCurve.RtscX2YWordExact` | sched/src/hfsc.rs:153-163 | with 64-bit wrap-around the bytes a whole curve grants by a time are the exact ones if and only if those fit 64 bits |
| `ServiceCurve.FastCurveWraps` | sched/src/hfsc.rs:153-163 | they do not for a new deadline curve of 100 Gbit/s, at any time of the system clock since the end of 2023 |
| `ServiceCurve.InverseBound` | sched/src/hfsc.rs:137-163 | at the time a curve assigns to y bytes it has granted at most y bytes |
| `ServiceCurve.InverseAtLeast` | sched/src/hfsc.rs:137-163 | one nanosecond later it has granted at least y bytes, but for the loss of the segment that y falls into: both segments, and curves after any updates |
| `ServiceCurve.TooEarly` | sched/src/hfsc.rs:137-163 | so a time by which the curve has granted less than that is not after the one assigned to y |
| `ServiceCurve.InverseTimeBound` | sched/src/hfsc.rs:137-163 | the time assigned to the bytes granted by t is at most t if and only if t is not within a flat first segment |
| `CurveMinimum.UpdateToMin` | sched/src/hfsc.rs:165-220 | the field-by-field update is the function that the curve lemmas are about |
| `CurveMinimum.UpdateKeepsWellFormed` | sched/src/hfsc.rs:165-220 | an update keeps the slopes and the height of the first segment consistent |
| `CurveMinimum.UpdateKeepsCurve` | sched/src/hfsc.rs:165-220 | an update at a time not before the curve also keeps the first segment within one byte of slope difference of the configured one |
| `CurveMinimum.ConcaveMinimum` | sched/src/hfsc.rs:178-219 | for a concave curve the update is, at every later time, the minimum of the old curve and the restarted one, up to 4 bytes and one nanosecond of slope difference |
| `CurveMinimum.ConvexUpdate` | sched/src/hfsc.rs:166-176 | for a convex curve the update keeps the old curve or restarts, and never lies above the old curve by more than one byte of rounding |
| `CurveMinimum.ConvexKeptExcess` | sched/src/hfsc.rs:166-176 | how far a kept convex curve can exceed the restarted one: no more than at the end of the first segment, up to 3 bytes |
| `CurveMinimum.ConvexMinimum` | sched/src/hfsc.rs:166-176 | when a convex update is the minimum of both curves: if it is, up to e bytes, then the old curve is not behind or is at most e bytes ahead at the end of the restarted curve's first segment; and whenever that is so it is the minimum, up to e + 3 bytes |
| `CurveMinimum.ConvexIsNotMinimum` | sched/src/hfsc.rs:166-176 | a configured convex curve whose update is not the minimum, not even up to almost a megabyte |
| `CurveMinimum.LinearMinimum` | sched/src/hfsc.rs:166-176 | with equal slopes the update is the minimum up to 2 bytes |
| `CurveMinimum.EnvelopeIsLeast` | sched/src/hfsc.rs:165-220 | the envelope used below is the least of the initial and all restarted curves |
| `CurveMinimum.ActivatedCurve` | sched/src/hfsc.rs:165-220 | any sequence of updates at times that do not go back yields a curve of the configuration that starts no later than the last of them |
| `CurveMinimum.CurveIsEnvelopeOfRestarts` | sched/src/hfsc.rs:165-220 | after any number of updates a concave or linear curve is the envelope of all restarts, within the slack of each update |
| `KeyTree.WithKeys` | sched/src/hfsc.rs:21-36 | insertion into an ordered tree adds exactly its key and keeps the order |
| `KeyTree.WithoutKeys` | sched/src/hfsc.rs:21-36 | removal takes exactly its key out and keeps the order |
| `KeyTree.Insert` | sched/src/hfsc.rs:21-36 | insertion by the comparison alone, which never compares keys of one class with different times |
| `KeyTree.Delete` | sched/src/hfsc.rs:21-36 | removal by the comparison alone, under the same condition |
| `HfscInvariant.InitVKeeps` | sched/src/hfsc.rs:443-525 | activation of any class, leaf or not, keeps every child tree exact, all counts right on the way to the root, every active child at or above its parent's floor, and all bytes |
| `HfscInvariant.JoinTimeAboveFloor` | sched/src/hfsc.rs:477-498 | a class joining its siblings starts at or above its parent's floor |
| `HfscServing.UpdateVKeeps` | sched/src/hfsc.rs:386-441 | serving keeps child trees, counts and floors, whether or not classes go passive on the way up |
| `HfscServing.UpdateVBytes` | sched/src/hfsc.rs:386-441 | exactly the served class and its ancestors below the root are credited with the bytes |
| `HfscServing.UpdateVFloors` | sched/src/hfsc.rs:424-439 | serving leaves every floor as it is |
| `HfscServing.GetMinVKeeps` | sched/src/hfsc.rs:358-384 | the descent changes floors only, never lowers one, and keeps every active child at or above its parent's |
| `HfscDescent.DescentExists` | sched/src/hfsc.rs:358-384 | from any class there is a path down by the active child of least virtual time, and of least index in a tie, to a class without active children |
| `HfscDescent.DescentUnique` | sched/src/hfsc.rs:358-384 | there is only one |
| `HfscDescent.GetMinVIsLastLeaf` | sched/src/hfsc.rs:358-384 | the descent returns the last leaf on that path, or nothing if no leaf is on it |
| `HfscDescent.TidyDescent` | sched/src/hfsc.rs:358-384 | if only leaves have packets and no class is under a leaf, the path ends at a leaf with packets |
| `HfscDescent.ActiveIffQueued` | sched/src/hfsc.rs:386-525 | a class counts as active if and only if it or a class below it has packets queued |
| `HfscScheduling.EnqueueKeeps` | sched/src/hfsc.rs:527-556 | on any class, leaf or not, a packet is accepted exactly if the class is in use and below its limit, is appended to that queue alone, and every invariant is kept; one for a full queue is counted as dropped and changes nothing else |
| `HfscScheduling.PickDeadlineLeast` | sched/src/hfsc.rs:341-356 | the scan of the ordered tree that stops early finds a least deadline among all keys up to now, the first of them in a tie |
| `HfscScheduling.GetMinDLeast` | sched/src/hfsc.rs:341-356 | the real-time pick is the class of least deadline among all classes eligible now, in a tie the one eligible for longest and then of least index, and 0 exactly when none has a finite deadline |
| `HfscScheduling.DequeueKeeps` | sched/src/hfsc.rs:558-620 | dequeue keeps every invariant; it returns the head of the queue of the class that the real-time criterion picks, or else of the last leaf on the path of least virtual times, or nothing and changes floors only |
| `HfscScheduling.DequeueReturns` | sched/src/hfsc.rs:558-620 | it returns a packet if and only if a class eligible now has a finite deadline or the last leaf on that path has packets |
| `HfscScheduling.DequeueEmpty` | sched/src/hfsc.rs:558-620 | with nothing queued it returns nothing and changes nothing |
| `HfscScheduling.TidyDequeue` | sched/src/hfsc.rs:558-620 | work conservation: with packets on leaves only and no class under a leaf, it returns a packet if and only if one is queued |
| `HfscRuns.NewSchedInv` | sched/src/hfsc.rs:232-269 | a new scheduler has the invariant |
| `HfscRuns.NewSchedIs` | sched/src/hfsc.rs:232-269 | it has a root of the given rate, a dummy that is not in use, and nothing queued |
| `HfscRuns.CreateClassKeeps` | sched/src/hfsc.rs:279-313 | a class is created exactly under a fresh name and an existing parent in use, leaf or not, with which error otherwise; it has the limit and the curves it was given, from the origin, starts idle, and changes no other class; every invariant is kept |
| `HfscRuns.StepKeeps` | sched/src/hfsc.rs:279-620 | every operation, whatever its arguments, keeps the invariant and all configurations, and lowers no floor of a class with active children |
| `HfscRuns.RunKeeps` | sched/src/hfsc.rs:279-620 | so does every run of any create, enqueue and dequeue operations |
| `HfscRuns.FloorOverRun` | sched/src/hfsc.rs:358-384 | over any run in which a class always has active children its floor never falls |
| `HfscRuns.WorkConserved` | sched/src/hfsc.rs:279-620 | after every run of a new scheduler that puts packets on leaves and classes under interior classes only, dequeue returns a packet if and only if one is queued |
| `HfscJoin.JoinTimeIs` | sched/src/hfsc.rs:474-498 | a class joins its active siblings in the middle between their floor and their greatest virtual time, or at that time without a floor, or where it was if it is not behind and the period is the same; alone it joins at 0 |
| `HfscJoin.ActivateJoins` | sched/src/hfsc.rs:470-523 | and with which curve, offset, adjustment and period, and how its parent goes on with its round or begins one |
| `HfscJoin.EnqueueJoins` | sched/src/hfsc.rs:443-556 | in every enqueue each class that goes active, the one that gets the packet or one above it, joins so, and every other class keeps its virtual time |
| `HfscTurn.UpdateVTurns` | sched/src/hfsc.rs:386-441 | serving moves the class and those above it to the time that their curves have for the bytes sent, or to the floor and adjusted to it; a class going idle stays and may end its round; no other class moves |
| `HfscTurn.DescentFloors` | sched/src/hfsc.rs:358-384 | the descent raises the floors on its path to the virtual time of the child that it goes to, and no others |
| `HfscTurn.DequeueTurns` | sched/src/hfsc.rs:558-620 | so does every dequeue: serving by either criterion and, without a class due, the descent |
| `HfscQueues.StepMoves` | sched/src/hfsc.rs:279-620 | every operation, whatever its arguments, moves packets at the head and tail of queues and bytes to senders and their ancestors only, and only leaves and real-time classes send |
| `HfscQueues.Conservation` | sched/src/hfsc.rs:527-620 | over every run of any operations each class's accepted packets are its sent packets, in order, followed by its queue |
| `HfscQueues.BytesConserved` | sched/src/hfsc.rs:386-440 | over every run of any operations a class with a parent is credited with exactly the bytes sent by the classes under it |
| `HfscDeadlines.RunHistory` | sched/src/hfsc.rs:727-757 | over every run of any operations a deadline curve is what the activations of its class made of it, and nothing else changes it |
| `HfscDeadlines.DeadlineCurveIsEnvelope` | sched/src/hfsc.rs:727-747 | in every run under a clock that does not go back, the deadline curve of a concave or linear real-time class is the envelope of its restarts within the slack of each update |
| `HfscDeadlines.RealTimeFieldsLag` | sched/src/hfsc.rs:568-590 | after a packet sent by deadline, eligible time and deadline are computed from the byte count before that packet, by the curves of before |
| `HfscDeadlines.DeadlineLags` | sched/src/hfsc.rs:592-612 | after a packet of a real-time class sent by virtual time its deadline is, and its eligible time stays as it was |
| `HfscDeadlines.WakeUpTimes` | sched/src/hfsc.rs:727-747 | a packet that finds its queue empty has both computed from the bytes sent so far, the eligible time by the deadline curve or, if that is convex, by its second slope alone |
| `HfscDeadlines.TimesOverRun` | sched/src/hfsc.rs:527-620 | over every run of any operations of a new scheduler, every real-time class with packets has both times from the byte counts that its own last operations left, and counts the bytes it sent by deadline |
| `HfscInterior.InteriorNeverSends` | sched/src/hfsc.rs:358-384 | in no run of any operations does a class that is neither a leaf nor real-time send a packet: it keeps all that it has accepted |
| `HfscInterior.TakesReturn` | sched/src/hfsc.rs:558-620 | in any state that a run can reach, one of several dequeues returns a packet if and only if the last leaf on the path of least virtual times has packets, or at one of them a class is eligible and has a finite deadline |
| `HfscInterior.PacketReturnedIfDue` | sched/src/hfsc.rs:558-620 | in particular the packet of a single class under the root, whatever its curves, is returned if and only if it is a leaf, or at one of them its eligible time has come and its deadline is finite |
| `HfscInterior.InteriorBlocksLeaf` | sched/src/hfsc.rs:358-384 | with a packet on an interior class without a real-time curve and then one on a sibling leaf, no dequeue returns either unless the leaf is eligible with a finite deadline, and both queues stay |
| `HfscUnderflow.AdvanceWordExact` | sched/src/hfsc.rs:424-431 | in 64 bits the virtual time of a class that stays active is the exact one if and only if it is neither negative nor too large, which the subtraction not underflowing ensures |
| `HfscUnderflow.SubtractionUnderflows` | sched/src/hfsc.rs:424-431 | two leaves of one rate and eight puts and takes, after which the subtraction does underflow |
| `HfscScheduler.Hfsc.CreateClass` | sched/src/hfsc.rs:279-313 | the operation on the mutable scheduler is the step of the run model |
| `HfscScheduler.Hfsc.InitV` | sched/src/hfsc.rs:443-525 | the recursive update of fields and trees in place is the function that the invariant lemmas are about, and no assertion in it fails |
| `HfscScheduler.Hfsc.UpdateV` | sched/src/hfsc.rs:386-441 | likewise for serving |
| `HfscScheduler.Hfsc.GetMinD` | sched/src/hfsc.rs:341-356 | likewise for the real-time pick |
| `HfscScheduler.Hfsc.GetMinV` | sched/src/hfsc.rs:358-384 | likewise for the descent |
| `HfscScheduler.Hfsc.Enqueue` | sched/src/hfsc.rs:527-556 | likewise for enqueue, with the invariant kept |
| `HfscScheduler.Hfsc.Dequeue` | sched/src/hfsc.rs:558-620 | likewise for dequeue, with the invariant kept |
| `RouteSwitch.ApplyUpdates` | main/src/ipv4.rs:257-263 | adding a route gives its prefix that route, deleting one leaves its prefix without, and no other prefix, or mask length, changes |
| `RouteSwitch.AfterIsLast` | main/src/ipv4.rs:245-305 | after a history of updates a prefix has a route if and only if the last one for it was an addition, and then that one |
| `RouteSwitch.RefcountIsExact` | main/src/ipv4.rs:266-277 | a table has a reference count of 1 exactly if no thread holds it, has it in hand or in its channel, and none is being sent |
| `RouteSwitch.CountsMove` | main/src/ipv4.rs:264-277 | by how much each step changes the count of each table |
| `RouteSwitch.ChannelsKeepOrder` | main/src/main.rs:112-120 | over any interleaving a thread takes what is sent to it in order, and nothing is lost |
| `RouteSwitch.InitInv` | main/src/ipv4.rs:95-109 | two equal tables and threads that read the current one have the invariant |
| `RouteSwitch.StepKeepsInv` | main/src/ipv4.rs:245-305 | every step of the control thread and of any forwarding thread keeps the invariant, in particular the unwrap of the standby table never fails |
| `RouteSwitch.ReadersSeeHistory` | main/src/ipv4.rs:85-94 | every forwarding thread reads a whole table, the routes after all updates or after all but the last |
| `RouteSwitch.WritesAreExclusive` | main/src/ipv4.rs:267-277 | a table is being written only while no thread holds it or has it in hand or in its channel, and it is not being sent |
| `RouteSwitch.StandbyIsFree` | main/src/ipv4.rs:255-263 | beginning an update never finds the standby table shared |
| `RouteSwitch.NeverBackwards` | gnodes/layer3/ipv4/fwd/src/lib.rs:119-126 | no step takes a thread back to an older table |
| `RouteSwitch.UpdateComplete` | main/src/ipv4.rs:266-278 | when an update ends both tables hold the routes after it, every thread already reads the new one and the standby table is unshared |
| `RouteSwitch.HistoryGrows` | main/src/ipv4.rs:258-263 | each update enters the route history once |
| `RouteSwitch.ThreadStepsWork` | main/src/msgs.rs:11-27 | receiving or switching always leaves a thread with less to do |
| `RouteSwitch.WaitingMeansWork` | main/src/ipv4.rs:266-278 | while the control thread waits for the old table, some thread can take a step |
| `RouteSwitch.WaitIsBounded` | main/src/ipv4.rs:266-278 | the wait ends after at most as many thread steps as there was work when it began, in any order |
| `RouteSwitch.RunNeverBackwards` | gnodes/layer3/ipv4/fwd/src/lib.rs:119-126 | over any interleaving no thread ends with an older table than it began with |
| `RouteSwitch.EveryInterleaving` | main/src/ipv4.rs:245-305 | over any interleaving: no panic, no torn or partial table under a reader, no thread going back |
| `RouteControl.R2.Broadcast` | main/src/main.rs:112-120 | the loop over the threads, with threads running in between, gives each the new table |
| `RouteControl.R2.UpdateStandby` | main/src/ipv4.rs:257-265 | the first half of an update: the standby table is written and announced |
| `RouteControl.R2.UpdateOld` | main/src/ipv4.rs:266-278 | the second half: the waiting loop ends and the old table is written |
| `RouteControl.R2.AddOrDelRoute` | main/src/ipv4.rs:245-305 | an update returns with both tables equal: the prefix has the route added, or has none if it was deleted, and every other prefix is as before; all threads are on the new table, and the standby table is unshared |
| `Particles.Particle.Prepend` | packet/src/lib.rs:379-393 | as much of the end of the data as fits goes before the head, and no other byte of the buffer changes |
| `Particles.Particle.Append` | packet/src/lib.rs:397-402 | as much of the start of the data as fits goes after the tail, and no other byte changes |
| `Particles.Particle.MoveTail` | packet/src/lib.rs:404-415 | the tail moves within head and end of the buffer or not at all |
| `Particles.Particle.MoveHead` | packet/src/lib.rs:417-427 | the head moves within start of the buffer and tail or not at all |
| `Particles.LastGrows` | packet/src/lib.rs:529-546 | bytes added to the last particle are bytes added to the whole packet's end |
| `Particles.FirstGrows` | packet/src/lib.rs:510-527 | bytes added before the first particle's data are bytes added to the packet's front |
| `Packets.PktsHeap.TakeParticle` | packet/src/lib.rs:304-312 | the first free particle, empty at the headroom and unchained |
| `Packets.PktsHeap.FreePart` | packet/src/lib.rs:319-322 | a freed particle becomes the first free one |
| `Packets.PktsHeap.FreePkt` | packet/src/lib.rs:314-317 | a freed packet becomes the first idle one |
| `Packets.Packet.LastParticle` | packet/src/lib.rs:429-435 | the walk along the chain ends at its last particle |
| `Packets.PushParticle` | packet/src/lib.rs:493-496 | a particle pushed becomes the last of the chain and adds no bytes |
| `Packets.AppendRounds` | packet/src/lib.rs:529-546 | the loop of append ends, and takes particles only in the pool's order and only for bytes that the last one has no room for |
| `Packets.Append` | packet/src/lib.rs:529-546 | append succeeds exactly if the room in the last particle and the pool suffices; then the packet is its bytes followed by the new ones with the length counted, in no more particles than they need; else it has taken in as many as fit, emptied the pool and left the length |
| `Packets.RoomIs` | packet/src/lib.rs:510-546 | the room at either end of a packet, on which append and prepend succeed or fail: its own buffer's and that of every free particle |
| `Packets.PrependRounds` | packet/src/lib.rs:510-527 | the loop of prepend ends, the end of the bytes going in first |
| `Packets.Prepend` | packet/src/lib.rs:510-527 | prepend succeeds exactly if the headroom and the pool suffice; then the packet is the new bytes followed by its own with the length counted; else it has taken in as many of the last bytes as fit and left the length |
| `PacketAccess.Data` | packet/src/lib.rs:674-690 | there is data at exactly the offsets within the packet, and what is returned starts there and is the rest of the particle |
| `PacketAccess.Slices` | packet/src/lib.rs:702-716 | the slices are the data of the particles that have any, in order, and joined they are the packet |
| `PacketAccess.MoveTail` | packet/src/lib.rs:548-557 | the end of the packet moves within the last particle or not at all, with the bytes and the length to match |
| `PacketAccess.MoveHead` | packet/src/lib.rs:559-568 | the front of the packet moves within the first particle or not at all, with the bytes and the length to match |
| `PacketHeaders.GetHeader` | packet/src/lib.rs:608-620 | a header is returned if the first buffer holds all of it, else nothing |
| `PacketHeaders.SetHeader` | packet/src/lib.rs:597-606 | marking succeeds exactly if the first particle has that many bytes, and then the header is the packet's first bytes |
| `PacketHeaders.PullHeader` | packet/src/lib.rs:572-583 | a pulled header is gone from the packet and can still be read, as can the other layer's |
| `PacketHeaders.PrependWhole` | packet/src/lib.rs:587-595 | where the prepended bytes lie in the buffer that is then the first |
| `PacketHeaders.PushHeader` | packet/src/lib.rs:587-595 | a pushed header can be read back if and only if it fitted into the headroom, or there was none and it fitted into one new particle; within the headroom it leaves the other layer's header readable |
| `PacketHeaders.PushThenPull` | packet/src/lib.rs:572-595 | a header pushed whole and pulled again leaves the packet as it was; one that was spread over particles cannot be pulled |
| `PacketPool.Pkt` | packet/src/lib.rs:288-302 | a packet of one particle, both the pool's next, and empty; or none and the pool unchanged |
| `PacketPool.FreeChain` | packet/src/lib.rs:198-208 | freeing walks the whole chain once: all particles come back unlinked, the last one first |
| `PacketPool.Free` | packet/src/lib.rs:198-212 | the pool gets back the whole chain and then the packet, which has no particle left |
| `PacketPool.ReturnQueue.Push` | packet/src/lib.rs:153-162 | a dropped packet goes to the end of its return queue if there is room |
| `PoolRuns.PacketsStep` | packet/src/lib.rs:287-327 | every operation keeps every packet in exactly one of pool, return queue and caller |
| `PoolRuns.ParticlesStep` | packet/src/lib.rs:287-327 | every operation keeps every particle in exactly one of the free list and one chain, once |
| `PoolRuns.RunKeepsPlaces` | packet/src/lib.rs:170-327 | so does every run from a new pool |
| `PoolRuns.QueueHasRoom` | packet/src/lib.rs:148-163 | in every run a return queue with room for all packets has room when a packet is dropped, so the unwrap does not fail |
| `PoolRuns.QueueFills` | packet/src/lib.rs:148-163 | with a particle for every packet there is a run that fills the queue with all packets, so a smaller queue does overflow |
| `PoolRuns.AllReturned` | packet/src/lib.rs:198-212 | once no packet is out or queued the pool has all packets and particles again, each once |
| `PoolSystem.NewPool` | packet/src/lib.rs:245-284 | a new pool's packets and particles are all different, with buffers of their own |
| `PoolSystem.Start` | packet/src/lib.rs:245-284 | a new pool and an empty queue are the start of a run |
| `PoolSystem.NewPkt` | packet/src/lib.rs:288-302 | on the heap, making a packet is the step of the run model, and possible exactly if there is an idle packet and a free particle; it is empty, at the headroom |
| `PoolSystem.Append` | packet/src/lib.rs:529-546 | on the heap, append is a step of the run model, with the outcome of Packets.Append, and every other packet keeps its bytes |
| `PoolSystem.Prepend` | packet/src/lib.rs:510-527 | on the heap, prepend is a step of the run model, with the outcome of Packets.Prepend, and every other packet keeps its bytes |
| `PoolSystem.Drop` | packet/src/lib.rs:148-163 | on the heap, dropping is the step of the run model if the queue has room |
| `PoolSystem.RecycleOne` | packet/src/lib.rs:198-212 | on the heap, freeing a queued packet is the step of the run model, and every other packet keeps its bytes |
| `PoolSystem.RecycleAll` | graph/src/lib.rs:291-294 | the loop at the start of a graph run empties the queue and returns exactly the queued packets |
| `PowerOfTwo.Pow2U32` | common/src/lib.rs:24-33 | the sequence of shifts gives the next power of two for every word |
| `PowerOfTwo.SpreadWord` | common/src/lib.rs:26-30 | five steps set every bit below the top bit of any word |
| `PowerOfTwo.NextIsLeast` | common/src/lib.rs:24-33 | for 1 to 2^31 it is the least power of two that is not smaller |
| `PowerOfTwo.RoundsUp` | common/src/lib.rs:24-33 | for 0 and above 2^31 the wrap-around gives 0 |
| `Bins.RoundedIs` | counters/src/bin.rs:37-42 | a size is rounded up to a power of two of at least the smallest object, in the bin of its exponent |
| `Bins.LargeEnough` | counters/src/bin.rs:37-42 | an object is large enough exactly for sizes up to 2^31: a larger request gets the smallest object |
| `Bins.BatchIs` | counters/src/bin.rs:46-54 | a batch is one page of objects, or one object larger than a page, or nothing if page times object size does not fit a word |
| `Bins.TilesOnce` | counters/src/bin.rs:56-61 | no address is in two objects |
| `Bins.TilesMore` | counters/src/bin.rs:56-61 | an object carved at the end overlaps no other and leaves no gap |
| `Bins.CarveOne` | counters/src/bin.rs:56-61 | a carved object goes to the bin of its size |
| `Bins.HandOut` | counters/src/bin.rs:66-80 | handing an object out keeps every free object once and in the bin of its size |
| `Bins.PutBackExact` | counters/src/bin.rs:83-95 | taking an object back does so if and only if it was handed out, for a size of that bin |
| `Bins.Bin.constructor` | counters/src/bin.rs:24-34 | a new allocator has carved nothing, and is sound exactly for object and page sizes from 1 to 2^31 |
| `Bins.Bin.Index` | counters/src/bin.rs:37-42 | the rounded size and its bin, by counting leading zeros |
| `Bins.Bin.Resize` | counters/src/bin.rs:45-63 | the whole batch is carved if it fits below the maximum, else nothing is |
| `Bins.Bin.Get` | counters/src/bin.rs:66-80 | a request is served exactly if it is not 0 and its bin has an object or a batch fits; it gets an object of the rounded size that was not handed out, the one freed last or the first of a new batch, with all objects disjoint and tiling the range as before |
| `Bins.Bin.ServedWhileLeft` | counters/src/bin.rs:45-80 | a size is served exactly as long as there are objects left for it, in its bin and in the batches that fit; each request served leaves one fewer (Bins.Bin.Get) |
| `Bins.Bin.Free` | counters/src/bin.rs:83-95 | any object and size are taken, unless the size is 0 or has no bin, which panics; the object is the next to be handed out for that bin, and the allocator stays sound exactly if it was handed out for a size of it |
| `CounterMemory.AreasFit` | counters/src/lib.rs:19-46 | header, directory, values and names follow one another and fit the mapped memory |
| `CounterMemory.PutDirIs` | counters/src/lib.rs:165-169 | a directory entry written is read back, and no byte outside it changes |
| `CounterDirectory.EntryAdded` | counters/src/lib.rs:158-172 | writing a new entry's name, directory entry and the header leaves every other entry as it was |
| `CounterDirectory.EntryRemoved` | counters/src/lib.rs:190-203 | clearing an entry leaves every other as it was |
| `CounterDirectory.CountingIsHarmless` | counters/src/lib.rs:7-17 | writes to counter values disturb nothing that a reader looks at |
| `CounterDirectory.Counters.constructor` | counters/src/lib.rs:117-144 | a new memory that is zero holds no counter |
| `CounterDirectory.Counters.Separated` | counters/src/lib.rs:147-172 | the names and the values of different counters overlap nowhere |
| `CounterDirectory.Counters.Get` | counters/src/lib.rs:147-183 | a counter is added under its name with values of its own exactly when all three areas have room; otherwise none is, the directory entry is given back, or it panics if the counters take more than an entry or nothing, and values or names taken in vain are lost |
| `CounterDirectory.Counters.Free` | counters/src/lib.rs:190-204 | a counter freed is gone, its three places are given back, and all others stay |
| `CounterDirectory.ReadAll` | counters/src/lib.rs:237-255 | the reader's loop over the directory builds the listing of the entries there are |
| `CounterDirectory.ListingIsExact` | counters/src/lib.rs:237-255 | the listing has exactly the names of the counters within the reader's limits, each with the addresses of its last counter in the directory |
| `CounterDirectory.CounterAddresses` | counters/src/flavors.rs:213-220 | the addresses of consecutive 64-bit values |
| `CounterDirectory.Counters.Snapshot` | counters/src/lib.rs:224-257 | after any successful allocations and frees a reader that maps the memory anywhere finds exactly the names of the live counters within its limits, each with the value addresses of its counter, the last one if there are several |
| `CounterDirectory.FitsEntryBin` | counters/src/lib.rs:175-181 | a directory entry given back under the size of its counters goes to its own bin, the only one, if and only if they take no more than an entry |
| `CounterFlavors.Pool.constructor` | counters/src/lib.rs:99-144 | a new pool holds the three dummies and no other counter, and has objects left for exactly 65503 arrays of 32 |
| `CounterFlavors.HandedOutAsRead` | counters/src/flavors.rs:213-220 | a counter of one's own is within the limits of a reader, who finds its values at the addresses that were handed out |
| `CounterFlavors.Pool.NewCounter` | counters/src/flavors.rs:61-68 | a single counter is always handed out, a new one under the longest part of its name that fits 64 bytes, which a reader finds at its address, or else the dummy |
| `CounterFlavors.Pool.NewPktsBytes` | counters/src/flavors.rs:113-124 | so is a pair, with the second counter behind the first, both where a reader finds them |
| `CounterFlavors.Pool.NewArray` | counters/src/flavors.rs:179-197 | so is an array of at most 32, except that it panics exactly if there is a directory entry, some area has no object for it, and it is not of 1 or 2 |
| `CounterFlavors.EmptyArrayPanics` | counters/src/flavors.rs:186-187 | an array of no counters panics already in a new pool |
| `CounterFlavors.NoArrays` | counters/src/bin.rs:45-80 | when there is no object left for an array of 32 there is none for more than two counters |
| `CounterFlavors.FullArrayPanics` | counters/src/lib.rs:175-181 | after 65503 arrays of 32 counters in a new pool an array of three or more panics |
| `GraphRunner.QueuesKeepAll` | graph/src/lib.rs:55-74 | queues are first in first out and lose nothing: what a client got and what is left is what was there and what was pushed |
| `GraphRunner.WorkIsEarliest` | graph/src/lib.rs:60-89 | the work a client announces is what some push to a node that had its turn or some wakeup asked for, at the earliest time asked for |
| `GraphRunner.LeftMeansAsked` | graph/src/lib.rs:60-74 | a packet left with a node that had its turn has made its sender ask to run again at once |
| `GraphRunner.NoLostWork` | graph/src/lib.rs:290-321 | if every client takes the packets it finds queued, a queue that is not empty after a pass means the result is work now |
| `GraphRunner.SleepsOnPacket` | graph/src/lib.rs:290-321 | a pass leaves a packet queued and announces no work if and only if nobody asks for another pass and some client does not take what it finds queued |
| `GraphRunner.UndrainedSleeps` | graph/src/lib.rs:290-321 | such a pass: a client behind the drop node that does nothing about its packets |
| `GraphRunner.Dispatch.Pop` | graph/src/lib.rs:55-57 | the first packet of the node's own queue |
| `GraphRunner.Dispatch.Push` | graph/src/lib.rs:60-74 | a packet is queued if the queue has any capacity, and counted either way |
| `GraphRunner.Dispatch.Wakeup` | graph/src/lib.rs:79-88 | the earliest of the times asked for is kept |
| `GraphRunner.Dispatch.Client` | graph/src/lib.rs:35-36 | whatever a client does, none of its packets is dropped: the capacity of the queues does not bound them; each is counted with the node that it goes to |
| `GraphRunner.AddKeepsUnique` | graph/src/lib.rs:245-258 | adding keeps node names unique if and only if it does not add the name of node 0 again |
| `GraphRunner.AddOnce` | graph/src/lib.rs:245-249 | adding a node a second time does nothing |
| `GraphRunner.EdgesAreRight` | graph/src/lib.rs:260-285 | an edge leads to the node of its name, or to node 0 if there is none |
| `GraphRunner.Graph.constructor` | graph/src/lib.rs:185-210 | a new graph has the drop node alone |
| `GraphRunner.Graph.Add` | graph/src/lib.rs:245-258 | a node whose name has no index but 0 is appended with its edges by name, an empty queue and counts of 0, and its name gets its index |
| `GraphRunner.Graph.Finalize` | graph/src/lib.rs:272-285 | every edge of every node is resolved by name: to the index of its name, or to 0 if it has none |
| `GraphRunner.Graph.Run` | graph/src/lib.rs:290-321 | one pass gives every node its turn in order; the result is whether any client asked for more, and the earliest time; every packet pushed is counted and none dropped |
| `GraphRunner.Graph.Round` | main/src/main.rs:229-237 | when the thread sleeps every queue is empty if and only if every client took what it found queued; the nodes that control messages add are then there, after those from before, and all edges are resolved anew |
| `LogSlot.BytesRoundTrip` | log/src/lib.rs:240-249 | a number written in its size is read back |
| `LogSlot.LowByteFirst` | log/src/lib.rs:240-249 | its low byte comes first |
| `LogSlot.KeepIsLongest` | log/src/lib.rs:242-250 | what fits is the longest prefix of the values |
| `LogSlot.ReadsWhatFits` | log/src/lib.rs:223-252 | whatever was in a slot, reading gives back the longest prefix of the values copied that fits |
| `LogSlot.ReadsShown` | log/src/lib.rs:266-292 | and of those the first 16 |
| `LogSlot.PutOtherSlot` | log/src/lib.rs:183-194 | a write within one slot leaves the others |
| `RingLog.ToJson` | log/src/lib.rs:128-147 | the text of a call, with commas exactly between its values |
| `RingLog.Logger.constructor` | log/src/lib.rs:152-172 | a new log has no call, and is sound exactly if it has a slot and slots hold an index and a time |
| `RingLog.Logger.GetEntry` | log/src/lib.rs:183-196 | the next slot going around gets the entry's index and the time, and no other slot changes |
| `RingLog.Logger.Copy` | log/src/lib.rs:223-252 | a value that fits is copied and one that does not is skipped; its size is recorded by the first call alone |
| `RingLog.Logger.CopyAll` | log/src/lib.rs:41-50 | all values of a call are copied one behind the other, and the entry's sizes are then those of its values |
| `RingLog.RingMore` | log/src/lib.rs:183-194 | the next call takes the slot of the oldest and leaves the others |
| `RingLog.Logger.Stop` | log/src/lib.rs:178-180 | logging is stopped from then on |
| `RingLog.Logger.Log` | log/src/lib.rs:57-72 | a call is added to the ring, or nothing happens if logging is stopped |
| `RingLog.Logger.LoadValues` | log/src/lib.rs:268-292 | the decoding loop by the recorded sizes reads exactly the values of the slot, and never finds another size |
| `RingLog.RingStep` | log/src/lib.rs:257-260 | walking once around from the next slot meets the unused slots and then the calls, oldest first |
| `RingLog.CallSeen` | log/src/lib.rs:301-310 | the separators come out exactly between calls |
| `RingLog.Logger.Serialize` | log/src/lib.rs:255-314 | the dump is, character for character, the last calls, as many as there are slots, oldest first, each with its entry, time and values that fitted, with commas exactly between them |
| `LogReader.DecimalIsRead` | log/src/lib.rs:128-147 | every number is written in decimal digits, none of them a leading zero, from which it is read back |
| `LogReader.ListIsRead` | log/src/lib.rs:138-145 | so is every list of numbers with commas |
| `LogReader.JsonIsRead` | log/src/lib.rs:128-147 | the text of a call is read back as its index, format, time and values, whatever the format is |
| `LogReader.DumpIsRead` | log/src/lib.rs:255-314 | the dump is read back as the last calls, as many as there are slots, oldest first, each with all of these, as long as no format breaks the line |

## Left out

- `destroy_class` and the reuse of freed class indices: it neither lowers the packet count nor forgets the class name, so runs are over create, enqueue and dequeue.
- Upper-limit curves: they are stored and never influence scheduling.
- Absolute fairness and real-time delay bounds: eligible times lag one packet (RealTimeFieldsLag) and offsets of interior classes are used twice, so no such bound is claimed.
- Machine width in the scheduler's tree layer: times, bytes and virtual times are unbounded integers. Where the code's words differ is stated beside it, by SegX2YWordExact, SegY2XWordExact, RtscX2YWordExact, RtscY2XWordExact and AdvanceWordExact.
- HfscScheduling.GetMinDLeast: takes the deadline past a flat second slope as infinite, where the code's word is the one FlatSlopeWraps gives.
- HfscScheduler.Hfsc.UpdateV: subtracts without wrapping; AdvanceWordExact says exactly when the code's words do the same.
- The fields of a class are grouped into three records and trees hold keys only, since the value stored under a key is always its class index; unused parameters of the recursive updates are dropped.
- Clocks: the time of an operation is a parameter.
- The route table's trie: a table is a map from prefix and mask length to leaf, and a write to it is one torn interval.
- Atomic reference counts, channels and locks: counts are sums over holders and messages, channels are first-in first-out sequences, steps are atomic.
- Channels of dead threads: every send succeeds.
- Raw memory behind packets and particles: they are objects, and a buffer belongs to its particle; the DPDK pool, interface indices and next-hop fields of packets, and the pool's allocation-failure counter are not modelled.
- Signed and unsigned pointer-size conversions in moving heads and tails: lengths are unbounded.
- Layer 2 and layer 3 twins: pull, push, set and get are one operation with the layer as a parameter.
- Packets.PktsHeap.TakeParticle: requires a headroom within the particle size; with a larger one the code hands out a particle whose head is behind its buffer.
- PacketPool.Pkt: requires the same headroom, and so does PoolSystem.NewPkt.
- Word arithmetic in `pow2_u32` and the allocator wraps around as in a release build; a debug build would panic on those inputs.
- An allocator of a smallest object or page of size 0: its constructor is stated to be unsound, and carving, which would loop or divide by zero, is not modelled on it.
- CounterDirectory.Counters.Get: requires sizes of up to 2^31, above which an object is smaller than what is written to it (LargeEnough).
- Giving counters back through their flavours, which leaves the dummies alone: Counters.Free is the operation for all others.
- Shared memory calls, and names that are not valid text: a name is its bytes.
- Graph clients: a client is any sequence of pops, pushes and wakeups; counters for performance, cloning of graphs and the payload of control messages are left out, as are messages other than the addition of nodes.
- The 256-packet queue bound of the graph: `capacity() >= 1` does not enforce it, which Dispatch.Client states.
- The time that a pass returns: the thread loop ignores it.
- Logs without slots, or with slots of less than 12 bytes: the constructor is stated to be unsound for them, and logging, which would divide by zero or write past a slot, is not modelled on them.
- RingLog.Logger.Log: takes entries that no other logger has indexed and values of 1, 2, 4 or 8 bytes; other sizes make the dump panic, and fewer than 2^32 logging places.
- The log's memory is that of a little-endian machine, and several threads logging at once are not modelled.
- Quotes inside a format string: they are written to the dump as they are.
- Ethernet, ARP and interface nodes, configuration, generated interfaces and drivers.
