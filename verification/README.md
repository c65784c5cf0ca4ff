# Verified models of the concurrent and protocol cores of linuxyz

linuxyz is a collection of small C programs. This Dafny project models the ones that
carry a real protocol or a shared data structure, and proves what they promise for every
run, every interleaving and every input.

| files | system |
|---|---|
| `RcuMap`, `RcuSystem`, `RcuRuns`, `RcuProgress`, `RcuTasks`, `RcuTaskRuns`, `RcuCode`, `RcuHash` | the RCU hash map and its reader and writer tasks |
| `GpioLine`, `GpioBatch`, `GpioCode` | the two-wire GPIO line code of a network card |
| `RingQueue`, `RingCode`, `ListQueue`, `TestData` | the two bounded blocking queues |
| `Fnv`, `StripedMap`, `StripedThreads`, `StripedCode` | the striped hash map and its increment and decrement threads |
| `Deth`, `DethCode` | the paired virtual Ethernet driver |
| `SpinLock`, `SpinCode` | the compare-and-swap spinlock and the threads it guards |
| `UriUnescape` | the in-place percent decoder of the HTTP server |
| `Arith` | remainder arithmetic that the models share |

How the models are built:

- Code that updates memory in place is a class or an array method (`...Code`, `ListQueue.Queue`,
  `UriUnescape`), and each method is proved equal to a function on the old state. Lists that
  the source links through its nodes are linked objects, or references into a heap map for
  the RCU lists, whose removed nodes readers still follow.
- Concurrency is a step system over those functions: a step is what a thread does between
  two points where another thread can interfere. Theorems are about every sequence of steps,
  and the `Run` and `CheckedRun` methods run the code under any such sequence.
- Widths are explicit: `uint32_t` indices, `uint16_t` and `uint64_t` values, the `int` ctl
  counter and `char` wrap as in the source.
- Auxiliary fields (a node's insertion slot, a reader's record of what was linked, logs of
  frames, packet numbers) are named as such where they are declared, and no step decides
  anything by them.

What holds only under a condition is stated with the exact condition:

- the ring queue is first in first out and loses no wakeup in all runs if and only if its
  size divides 2^32 or at most 2^32 items are sent (`RingQueue.FifoExactly`,
  `RingQueue.NoLostWakeupExactly`), because head and tail wrap;
- the linked queue is safe without spurious wakeups if and only if its limit is at least 2
  (`ListQueue.SafeExactly`), and a spurious wakeup breaks it at every limit
  (`ListQueue.SpuriousCrash`, `ListQueue.SpuriousOverfill`), because neither operation looks
  again after its wait;
- a GPIO packet fits the receive buffer if and only if it has at most 1500 bytes
  (`GpioLine.PacketArrives`), and a receiver whose ctl count has passed 3 stays silent until
  the counter has wrapped and not longer (`GpioBatch.StuckUntilWrap`);
- in a run of the Ethernet driver "stopped exactly when the pool is empty" holds throughout
  if and only if setup and every transmit timeout could allocate a packet
  (`Deth.StoppedExactly`);
- the percent decoder gives back what was encoded if and only if no plus sign for a space
  comes before the first escape (`UriUnescape.InvertsExactly`, `UriUnescape.DecodeEncoded`).

## Model

| member | source | states |
|---|---|---|
| `RcuMap.UpdateRefines` | ksync-rcu-cmap/rcucmap.c:57-98 | an update acts as one on a finite map, keeps every bucket valid (one node per key, in the bucket its hash selects), puts a new key first in its bucket and otherwise keeps the order of every chain |
| `RcuMap.RemoveRefines` | ksync-rcu-cmap/rcucmap.c:101-127 | a removal acts as one on a finite map, keeps every bucket valid, and takes only the key out of the order of the chains |
| `RcuMap.UpdateEvolves` | ksync-rcu-cmap/rcucmap.c:57-98 | an update changes no entry already allocated, leaves the next of every unlinked node alone, gives a replacement the slot of the node it replaces, and links no unlinked node again |
| `RcuMap.RemoveEvolves` | ksync-rcu-cmap/rcucmap.c:101-127 | the same of a removal |
| `RcuMap.HolderFacts` | ksync-rcu-cmap/rcucmap.c:65-71 | the locked walk finds a linked node with the key, and fails exactly when there is none |
| `RcuHash.ScrambleValues` | ksync-rcu-cmap/rcucmap.c:33-38 | the hash of two keys, one with bits in both halves, computed through |
| `RcuHash.BucketOfOne` | ksync-rcu-cmap/rcucmap.c:33-38 | the bucket of key 1 in the tasks' map |
| `RcuSystem.WalkableEvolves` | ksync-rcu-cmap/rcucmap.c:57-127 | across any write, every link a reader may still follow, stale ones too, leads to an allocated node of a lower slot and skips no slot that is still linked |
| `RcuSystem.AdvanceOk` | ksync-rcu-cmap/rcucmap.c:130-141 | each visit of a lookup keeps what the lookup may claim, touches only allocated nodes, and moves to a lower slot |
| `RcuSystem.StepInv` | ksync-rcu-cmap/rcucmap.c:52-141 | every step of any number of readers and writers, and of reclamation, keeps the invariant |
| `RcuRuns.RunInv` | ksync-rcu-cmap/rcucmap.c:52-141 | the invariant holds at every moment of every run |
| `RcuRuns.NoUseAfterFree` | ksync-rcu-cmap/rcucmap.c:52-55 | in every run no walk faults, no node reachable from a cursor inside a critical section has been reclaimed, and a returned node stays allocated until the section ends |
| `RcuRuns.LookupEnds` | ksync-rcu-cmap/rcucmap.c:130-141 | in every run, whatever writers do meanwhile, a lookup visits at most one node more than there had been insertions when it began |
| `RcuProgress.LookupReturns` | ksync-rcu-cmap/rcucmap.c:130-141 | in every run a lookup that is walking can go on by its own visits until it returns |
| `RcuProgress.CanSettle` | ksync-rcu-cmap/rcucmap.c:52-141 | every run can go on, without changing the represented map, until no reader is inside, nothing is pending or retired, and exactly the linked nodes are allocated |
| `RcuRuns.ReclaimedOnce` | ksync-rcu-cmap/rcucmap.c:52-55 | between two reclaims of an address it was allocated again |
| `RcuRuns.RetiredOnce` | ksync-rcu-cmap/rcucmap.c:87-96 | between two retirements of an address it was reclaimed and allocated again |
| `RcuRuns.Linearizable` | ksync-rcu-cmap/rcucmap.c:57-141 | a lookup's answer, a node or none, was the map's answer for the key at some moment between the start of the lookup and its return |
| `RcuRuns.RunRefines` | ksync-rcu-cmap/rcucmap.c:57-127 | at every step of every run an update or a removal changes the represented finite map exactly as its operation would, and every other step leaves it alone |
| `RcuTasks.MoveOk` | ksync-rcu-cmap/rcucmap.c:166-230 | every move of the writer task, the reader task and reclamation keeps the tasks' invariant |
| `RcuTasks.ExecutionOk` | ksync-rcu-cmap/rcucmap.c:166-230 | that invariant holds at every moment of every execution |
| `RcuTasks.ReaderLeavesLast` | ksync-rcu-cmap/rcucmap.c:195-230 | the reader leaves its loop only after every removal has been made and the map is empty, in every interleaving in which the last key's first insert succeeds |
| `RcuTaskRuns.MapExactly` | ksync-rcu-cmap/rcucmap.c:166-193 | at every moment of an execution in which no allocation has failed, the map holds exactly the multiples that the writer has stored |
| `RcuTaskRuns.SumExactly` | ksync-rcu-cmap/rcucmap.c:206-225 | a pass of the reader during which nothing is stored or removed adds up exactly the values of the map, and ends the loop if and only if they add up to zero |
| `RcuTaskRuns.ReaderLeaves` | ksync-rcu-cmap/rcucmap.c:206-225 | a pass that starts after the last removal ends the loop, in every interleaving |
| `RcuTaskRuns.ReaderCanLeave` | ksync-rcu-cmap/rcucmap.c:166-230 | every execution can be continued until the reader has left its loop |
| `RcuCode.CcMap.constructor` | ksync-rcu-cmap/rcucmap.c:40-50 | a new map is valid, empty and hashes with the source's hash function |
| `RcuCode.CcMap.Walk` | ksync-rcu-cmap/rcucmap.c:65-71 | the loop over a bucket stops at the key's node, knowing the node before it |
| `RcuCode.CcMap.ListAdd` | ksync-rcu-cmap/rcucmap.c:76-79 | writing head and next is insertion at the head |
| `RcuCode.CcMap.ListReplace` | ksync-rcu-cmap/rcucmap.c:80-84 | copying a node and redirecting one link is replacement in place |
| `RcuCode.CcMap.ListDel` | ksync-rcu-cmap/rcucmap.c:118-118 | redirecting one link is deletion, and the node keeps its next |
| `RcuCode.CcMap.Update` | ksync-rcu-cmap/rcucmap.c:57-98 | the code updates the finite map, retires exactly the replaced node and returns the bucket; without memory it changes nothing and returns -1 |
| `RcuCode.CcMap.Remove` | ksync-rcu-cmap/rcucmap.c:101-127 | the code removes the key, retires exactly its node, and returns the bucket or -1 |
| `RcuCode.CcMap.Get` | ksync-rcu-cmap/rcucmap.c:130-141 | the lookup loop, undisturbed, returns the node that carries the key's binding, or NULL exactly when there is none |
| `GpioLine.PayloadArrives` | kdev-gpio-irqsock/kgpio_irqsk.c:392-422 | any bits sent are received in order, exactly while they fit the buffer |
| `GpioLine.DelimiterArrives` | kdev-gpio-irqsock/kgpio_irqsk.c:446-471 | three ctl pulses and a data pulse deliver the whole bytes received and reset the receiver, or do nothing when nothing was received |
| `GpioLine.PacketArrives` | kdev-gpio-irqsock/kgpio_irqsk.c:383-433 | a packet fits if and only if it has at most 1500 bytes, and then arrives byte for byte and leaves the receiver in its initial state |
| `GpioLine.PacketFlushes` | kdev-gpio-irqsock/kgpio_irqsk.c:383-433 | the opening delimiter: a receiver that holds part of a frame delivers it, and then the packet arrives whole |
| `GpioLine.WiresOfOne` | kdev-gpio-irqsock/kgpio_irqsk.c:383-433 | the pulses for a packet of one byte 1, one by one: delimiters, lowest bit first, a ctl pulse at each change of level |
| `GpioLine.RoundTrip` | kdev-gpio-irqsock/kgpio_irqsk.c:383-498 | the pulses of any sequence of packets deliver exactly the non-empty ones, in order, and leave the receiver synchronised |
| `GpioBatch.ReceiverRefinesBatch` | kdev-gpio-irqsock/kgpio_irqsk.c:436-498 | for every pulse train that fits, the interrupt handlers deliver exactly the frames of a decoder that reads the whole train at once, and bits beyond the count are zero |
| `GpioBatch.StuckUntilWrap` | kdev-gpio-irqsock/kgpio_irqsk.c:436-480 | once the ctl count has passed 3 nothing is delivered before the counter wraps, and for every such state some train with exactly that many ctl pulses delivers |
| `GpioBatch.LosesSync` | kdev-gpio-irqsock/kgpio_irqsk.c:436-439 | one ctl pulse too many brings the initial receiver into such a state |
| `GpioCode.Sender.SendBit` | kdev-gpio-irqsock/kgpio_irqsk.c:396-418 | one bit is a ctl pulse exactly when the level changes, and a data pulse |
| `GpioCode.Sender.SendByte` | kdev-gpio-irqsock/kgpio_irqsk.c:394-420 | the inner loop sends a byte least significant bit first |
| `GpioCode.Sender.SendBytes` | kdev-gpio-irqsock/kgpio_irqsk.c:392-422 | the outer loop sends all bytes in order |
| `GpioCode.Sender.GpioTx` | kdev-gpio-irqsock/kgpio_irqsk.c:383-433 | the loops emit exactly the encoder's pulse train and leave the level at 0 |
| `GpioCode.Sender.SendAll` | kdev-gpio-irqsock/kgpio_irqsk.c:383-433 | packet after packet, the wire carries the train of the whole sequence |
| `GpioCode.Receiver.DataIrq` | kdev-gpio-irqsock/kgpio_irqsk.c:441-498 | the data interrupt on the byte array is the decoder's data step, and queues a frame exactly when a delimiter ends one |
| `GpioCode.Receiver.Interrupt` | kdev-gpio-irqsock/kgpio_irqsk.c:45-74 | the whole bytes received so far are queued |
| `GpioCode.Receiver.Poll` | kdev-gpio-irqsock/kgpio_irqsk.c:77-138 | a poll hands over the queued frame, or counts it as dropped, and empties the queue |
| `GpioCode.Receiver.ServeAll` | kdev-gpio-irqsock/kgpio_irqsk.c:436-498 | both interrupt handlers and the poll, called in any order that leaves the one-place queue free, do what the event model does |
| `GpioCode.RunFeeds` | kdev-gpio-irqsock/kgpio_irqsk.c:45-138 | however polls fall between pulses and whichever find no memory, every frame delivered was polled or is queued, in order, and every one polled was received or counted as dropped |
| `GpioCode.PolledRoundTrip` | kdev-gpio-irqsock/kgpio_irqsk.c:383-498 | after the pulses of any packets, the frames polled, received or dropped, and the one still queued are the non-empty packets in order |
| `GpioCode.Loopback` | kdev-gpio-irqsock/kgpio_irqsk.c:383-498 | sender code, handlers and polls joined by the wires: every non-empty packet is polled in order and received when its poll gets memory |
| `RingQueue.StepInv` | data-queue-concurrent/static.c:135-179 | every step keeps the ring's invariant, with stale indices after a wait and with spurious wakeups |
| `RingQueue.RingIsFifo` | data-queue-concurrent/static.c:135-179 | in every run dequeued items are a prefix of enqueued ones, at most limit are outstanding, and in_use marks exactly the slots from head to tail, when limit divides 2^32 (then past any wraparound) or at most 2^32 items are sent |
| `RingQueue.NoLostWakeup` | data-queue-concurrent/static.c:140-173 | under the same condition an unsignalled waiting producer means a full ring, an unsignalled waiting consumer an empty one, both never wait together, and if neither can go on all items have been delivered |
| `RingQueue.CanDeliver` | data-queue-concurrent/static.c:135-179 | under that condition every run can go on, without spurious wakeups, until every item is delivered |
| `RingQueue.BreaksOnWrap` | data-queue-concurrent/static.c:138-146 | otherwise a run with items of the test program's form, without spurious wakeups, overwrites an item and delivers a later one in its place |
| `RingQueue.WaitsEarly` | data-queue-concurrent/static.c:138-146 | otherwise, whatever the items, a run without spurious wakeups leaves the producer waiting at a ring that is not full |
| `RingQueue.FifoExactly` | data-queue-concurrent/static.c:135-179 | whatever the items, every run is first in first out if and only if limit divides 2^32 or at most 2^32 items are sent |
| `RingQueue.NoLostWakeupExactly` | data-queue-concurrent/static.c:135-179 | whatever the items, no run loses a wakeup if and only if that holds |
| `RingCode.Bucket.constructor` | data-queue-concurrent/static.c:106-120 | a new ring has limit free slots and both indices at 0 |
| `RingCode.Bucket.FinishEnqueue` | data-queue-concurrent/static.c:135-156 | the rest of enqueue fills the slot of its index and signals exactly when the ring looked empty |
| `RingCode.Bucket.FinishDequeue` | data-queue-concurrent/static.c:158-179 | the rest of dequeue frees the slot of its index and signals exactly when the ring looked full |
| `TestData.CheckReceived` | data-queue-concurrent/static.c:194-208 | the test's comparison passes exactly when the items received are the first items sent, and otherwise names the wrong field of the first wrong item |
| `TestData.SentItems` | data-queue-concurrent/static.c:182-192 | item k has k + 1 on top and k - 1 at the bottom, modulo 2^32 |
| `RingCode.Program.Run` | data-queue-concurrent/static.c:135-208 | enqueue and dequeue as code on the array, run under any schedule with waits and wakeups, reach the state of the step model |
| `RingCode.TestProgram` | data-queue-concurrent/static.c:182-208 | the test program, stopped at any moment of any schedule, passes its check when the limit divides 2^32 or it sends at most 2^32 items |
| `ListQueue.Queue.constructor` | data-queue-concurrent/dynamic.c:52-59 | a new queue is empty |
| `ListQueue.Queue.Enqueue` | data-queue-concurrent/dynamic.c:81-106 | a new node at the head end appends the item; prev and next mirror each other and len stays exact; it signals exactly when the list was empty |
| `ListQueue.Queue.Dequeue` | data-queue-concurrent/dynamic.c:108-134 | the oldest item leaves at the tail end; links and len stay exact; it signals exactly when the list was full and does not become empty; without a node it crashes on the null tail |
| `ListQueue.SafeRuns` | data-queue-concurrent/dynamic.c:81-134 | with limit at least 2 and no spurious wakeup every run is first in first out, within limit, never dequeues from the empty list and never leaves both threads waiting |
| `ListQueue.SafeExactly` | data-queue-concurrent/dynamic.c:81-134 | that holds if and only if limit is at least 2 |
| `ListQueue.CanDeliver` | data-queue-concurrent/dynamic.c:81-134 | every such run can go on until every item is delivered |
| `ListQueue.SpuriousCrash` | data-queue-concurrent/dynamic.c:112-118 | a spurious wakeup of the consumer dequeues from the empty list, at any limit |
| `ListQueue.SpuriousOverfill` | data-queue-concurrent/dynamic.c:84-86 | a spurious wakeup of the producer exceeds any limit |
| `ListQueue.Program.Run` | data-queue-concurrent/dynamic.c:81-163 | enqueue and dequeue as code on the linked list, run under any schedule with waits and wakeups, reach the state of the step model, crashes included |
| `ListQueue.TestProgram` | data-queue-concurrent/dynamic.c:137-163 | the test program, stopped at any moment of any schedule without spurious wakeups, passes its check when the limit is at least 2 |
| `Fnv.ShiftAddIsMultiply` | data-hashmap-concurrent/cmap.c:42-43 | the shifts and adds multiply by 2^40 + 435 modulo 2^64 |
| `Fnv.RoundUndone` | data-hashmap-concurrent/cmap.c:38-47 | xoring the octet again undoes the xor of a round |
| `Fnv.TimesInverse` | data-hashmap-concurrent/cmap.c:42-43 | multiplying by the inverse of the prime undoes the rest, so a round is one to one |
| `Fnv.Basis` | data-hashmap-concurrent/cmap.c:28-48 | FNV-1 started with 0 takes the text that defines the initial value to that value |
| `Fnv.KeyBytesNumber` | data-hashmap-concurrent/cmap.c:75-75 | the eight bytes hashed are those of the index, lowest first |
| `Fnv.BucketOfOne` | data-hashmap-concurrent/cmap.c:29-52 | the bucket of index 1 among 1024 is 746 |
| `Fnv.HashFunc` | data-hashmap-concurrent/cmap.c:29-52 | the loop computes 64-bit FNV-1 of any byte string and reduces it modulo the number of buckets |
| `StripedMap.OperationsValid` | data-hashmap-concurrent/cmap.c:74-153 | set, get and del keep every live slot in the bucket of its hash and every chain at the larger of data_size and the bucket's peak |
| `StripedMap.OperationsOnPairs` | data-hashmap-concurrent/cmap.c:74-153 | for any keys, set adds one live pair, del takes one with the key if there is one, get changes the value of one |
| `StripedMap.AllocRepresents` | data-hashmap-concurrent/cmap.c:57-72 | a new map represents the empty finite map |
| `StripedMap.SetRefines` | data-hashmap-concurrent/cmap.c:74-100 | setting an absent key acts as on a finite map |
| `StripedMap.DelRefines` | data-hashmap-concurrent/cmap.c:129-153 | deleting acts as on a finite map |
| `StripedMap.GetRefines` | data-hashmap-concurrent/cmap.c:102-127 | a get with a callback updates the key's value, and of an absent key changes nothing |
| `StripedMap.ChainLength` | data-hashmap-concurrent/cmap.c:57-153 | in every run each chain is exactly as long as the larger of data_size and the most live entries its bucket ever held |
| `StripedThreads.FilledZero` | data-hashmap-concurrent/cmap.c:239-248 | after the insertions every key is there with value 0, and every free slot is 0 |
| `StripedThreads.ValuesTrack` | data-hashmap-concurrent/cmap.c:179-228 | in every interleaving of any number of threads no lookup misses, and each key's value is its index times (increments past it minus decrements past it) modulo 2^64 |
| `StripedThreads.FinalScanZero` | data-hashmap-concurrent/cmap.c:262-282 | once as many increment as decrement threads are done, every slot, used or free, is zero |
| `StripedThreads.CanFinish` | data-hashmap-concurrent/cmap.c:192-228 | every run of the program can be continued to one that ends every thread, and with as many increment as decrement threads every slot is then zero |
| `StripedCode.Separate` | data-hashmap-concurrent/cmap.c:57-100 | the linked lists of different buckets share no node |
| `StripedCode.Table.constructor` | data-hashmap-concurrent/cmap.c:57-72 | the nested loops link up buck_size lists of data_size free nodes |
| `StripedCode.Table.Set` | data-hashmap-concurrent/cmap.c:74-100 | on linked nodes, the first free node of the hashed bucket is filled in place or a new one is linked in front; no other bucket is touched |
| `StripedCode.Table.Get` | data-hashmap-concurrent/cmap.c:102-127 | the walk over next applies the callback to the first live node with the key and returns the bucket, or returns -1 and changes nothing |
| `StripedCode.Table.Del` | data-hashmap-concurrent/cmap.c:129-153 | the walk over next clears the first live node with the key, which keeps its place, and returns the bucket, or returns -1 and changes nothing |
| `StripedCode.Table.FinalScan` | data-hashmap-concurrent/cmap.c:269-283 | the scan returns 0 exactly when every slot is zero |
| `StripedCode.CheckedRun` | data-hashmap-concurrent/cmap.c:230-287 | main as code on linked nodes with the FNV hash, under any interleaving: no lookup misses, and once as many increment as decrement threads are done the scan returns 0 |
| `Deth.Padded` | kdev-net-eth/deth.c:240-247 | a frame shorter than 60 bytes is filled up with zeros to 60, any other is sent as it is |
| `Deth.XmitLedgers` | kdev-net-eth/deth.c:232-362 | a transmission, with or without a packet in the pool, keeps the books and every device's set of packets |
| `Deth.XmitInv` | kdev-net-eth/deth.c:232-362 | a transmission on a queue that runs keeps the invariant |
| `Deth.PollLedgers` | kdev-net-eth/deth.c:175-228 | a poll keeps the books and every device's set of packets, whatever allocations fail |
| `Deth.PollInv` | kdev-net-eth/deth.c:175-228 | a poll keeps the invariant |
| `Deth.TimeoutInv` | kdev-net-eth/deth.c:414-432 | a timeout keeps the invariant if and only if it could allocate a packet |
| `Deth.StoppedWhenEmpty` | kdev-net-eth/deth.c:53-91 | in every run of transmissions, polls and timeouts that can allocate, a tx queue is stopped exactly when its pool is empty, the lock is never left held and every transmitted buffer is freed exactly once |
| `Deth.StoppedExactly` | kdev-net-eth/deth.c:414-432 | stopped exactly when empty holds throughout a run if and only if the driver was set up with a packet and every timeout of the run could allocate one |
| `Deth.LeftLocked` | kdev-net-eth/deth.c:57-63 | after a timeout that could allocate nothing the next transmission sends nothing and leaves the lock held |
| `Deth.FramesConserved` | kdev-net-eth/deth.c:133-228 | in every run, whatever timeouts can allocate, the frames sent are those received, dropped and queued at the peer; tx_packets is rx_packets plus rx_dropped plus queued plus tx_errors; tx_bytes is the bytes sent plus, for each timeout, those of the frame sent last |
| `Deth.TimeoutEffect` | kdev-net-eth/deth.c:414-432 | after any run a timeout gives a pool of as many packets as could be allocated, wakes the queue, and counts an error, a packet and the length sent last; nothing is sent |
| `Deth.PacketsStay` | kdev-net-eth/deth.c:53-122 | without timeouts each packet of a device is in exactly one of its pool and the peer's rx queue, and the total is constant |
| `Deth.PacketsUnique` | kdev-net-eth/deth.c:53-122 | in no run is a packet ever in two places |
| `Deth.PollTakes` | kdev-net-eth/deth.c:186-222 | a poll takes packets up to its budget and leaves NAPI scheduled exactly when the budget was used up |
| `Deth.PollsDrain` | kdev-net-eth/deth.c:175-228 | after any run, whatever timeouts could allocate, waiting packets have NAPI scheduled, polls take packets up to the sum of their budgets, and NAPI is complete once the budgets add up to more than was waiting |
| `Deth.NoStall` | kdev-net-eth/deth.c:76-91 | a stopped device always has packets at a peer whose NAPI is scheduled, and that peer's next poll wakes it |
| `Deth.BurstReversed` | kdev-net-eth/deth.c:93-122 | after any run a burst sent to an empty queue is received completely but last frame first |
| `DethCode.Separate` | kdev-net-eth/deth.c:53-122 | well-linked lists share no packet and no packet comes twice in one, so the one next field of a packet serves one list at a time |
| `DethCode.List.Link` | kdev-net-eth/deth.c:82-83 | writing next and head puts a packet that is in no list in front, and the list stays well linked |
| `DethCode.List.Unlink` | kdev-net-eth/deth.c:60-65 | following next takes the first packet off, and the list stays well linked |
| `DethCode.Device.constructor` | kdev-net-eth/deth.c:446-472 | a new device has a full pool, nothing queued and its queue running |
| `DethCode.Device.SetupPool` | kdev-net-eth/deth.c:19-38 | the loop links up new packets of the device and keeps all four lists well linked |
| `DethCode.Device.TeardownPool` | kdev-net-eth/deth.c:41-50 | the loop frees exactly the packets of the pool and keeps all four lists well linked |
| `DethCode.Device.ReserveBuffer` | kdev-net-eth/deth.c:53-74 | the first packet leaves the pool for no other list and the last one stops the queue; with none left the lock stays held; all four lists stay well linked |
| `DethCode.Device.ReleaseBuffer` | kdev-net-eth/deth.c:76-91 | a packet in no list goes back in front, the queue is woken exactly when the pool was empty, and all four lists stay well linked |
| `DethCode.Device.RxProd` | kdev-net-eth/deth.c:93-104 | a packet in no list is relinked into the rx queue and all four lists stay well linked |
| `DethCode.Device.RxCons` | kdev-net-eth/deth.c:108-122 | the first packet of the rx queue, if there is one, leaves it for no other list and all four lists stay well linked |
| `DethCode.Device.NapiInterrupt` | kdev-net-eth/deth.c:133-172 | pending bits are cleared, an rx bit schedules NAPI, a tx bit counts the packet and frees its buffer |
| `DethCode.Device.TxTimeout` | kdev-net-eth/deth.c:414-432 | the code is the model's timeout: the old pool is freed, a new one linked up, and all four lists stay well linked |
| `DethCode.Driver.HwTx` | kdev-net-eth/deth.c:262-362 | relinking one packet from the pool to the peer's rx queue is the model's transmission, with its early returns, and all four lists stay well linked |
| `DethCode.Driver.Xmit` | kdev-net-eth/deth.c:232-259 | the code is the model's entry point |
| `DethCode.Driver.Poll` | kdev-net-eth/deth.c:175-228 | the loop, which relinks each packet into the pool it names, is the model's poll, returns the number of packets taken, and keeps all four lists well linked |
| `DethCode.Driver.Run` | kdev-net-eth/deth.c:175-432 | the code, called in any order in which timeouts can allocate, follows the step model: it never finds the lock held, and all four lists stay well linked |
| `SpinLock.StepInv` | data-byte-align/main.c:77-136 | every compare-and-swap, load, store and unlock of either thread keeps the invariant |
| `SpinLock.MutualExclusion` | data-byte-align/main.c:69-84 | under every schedule at most one thread is between lock and unlock, and the lock word is 1 exactly then |
| `SpinLock.NoLostUpdate` | data-byte-align/main.c:86-136 | under every schedule each field is the closed form 0 + 1 + 2 + ... over the rounds of thread_one past it, restarting after 65535, less that of thread_two, modulo 2^32 or for number2 2^16 |
| `SpinLock.SumTotal` | data-byte-align/main.c:93-102 | n rounds add q * 2147450880 + r * (r - 1) / 2, where n is 65536 q + r |
| `SpinLock.FinishedZero` | data-byte-align/main.c:157-179 | after both threads finish every field of every element is zero, for any number of rounds and any length |
| `SpinLock.Progress` | data-byte-align/main.c:77-136 | until both are finished some thread can take a step nearer its end |
| `SpinCode.Program.Run` | data-byte-align/main.c:69-136 | compare-and-swaps, loads, stores and unlocks on the array, under any schedule, reach the state of the step model |
| `SpinCode.CheckedRun` | data-byte-align/main.c:157-179 | under every schedule that ends both threads the final check passes |
| `SpinCode.Shared.Raise` | data-byte-align/main.c:99-103 | the loop adds the round's number to every field, modulo its width |
| `SpinCode.Shared.Lower` | data-byte-align/main.c:125-129 | the loop subtracts it |
| `SpinCode.Shared.FinalCheck` | data-byte-align/main.c:166-179 | the check passes exactly when every field is zero |
| `SpinCode.RoundRuns` | data-byte-align/main.c:97-105 | the loads and stores of one thread from lock to unlock add up to its loop over the array |
| `UriUnescape.SkipLiteral` | dev-net-ip-netfilter/nat_httpd.c:139-140 | the first loop stops at the first escape, white space or end |
| `UriUnescape.Next` | dev-net-ip-netfilter/nat_httpd.c:145-154 | one round of the second loop decodes one character, reading no byte after the NUL |
| `UriUnescape.DecodeRest` | dev-net-ip-netfilter/nat_httpd.c:143-156 | the second loop, which overwrites what it reads from, writes what the decoder gives on a copy |
| `UriUnescape.UriUnescape` | dev-net-ip-netfilter/nat_httpd.c:133-158 | the whole buffer afterwards: what the decoder gives on a copy, a NUL, and every later byte as it was |
| `UriUnescape.InvertsExactly` | dev-net-ip-netfilter/nat_httpd.c:133-158 | for any mix of safe characters, plus signs and escapes in either case, decoding undoes encoding if and only if no plus sign comes before the first escape |
| `UriUnescape.StrayPercent` | dev-net-ip-netfilter/nat_httpd.c:146-154 | after encoded text a percent sign that fewer than two characters follow stands for itself |
| `UriUnescape.SpaceEnds` | dev-net-ip-netfilter/nat_httpd.c:139-144 | after encoded text any of the six white-space characters ends the string |
| `UriUnescape.AnyDigits` | dev-net-ip-netfilter/nat_httpd.c:146-152 | any two characters after a percent sign make a byte, each by its low four bits and nine more above the digit 9, for signed and unsigned char |
| `UriUnescape.RoundTrip` | dev-net-ip-netfilter/nat_httpd.c:146-152 | percent-encoding every byte, as in section 2.1 of RFC 3986, is undone for every byte string |
| `UriUnescape.DecodeEncoded` | dev-net-ip-netfilter/nat_httpd.c:133-158 | the in-place decoder on a buffer with an encoded string leaves what was encoded, ended by a NUL, if and only if no plus sign comes before the first escape |
| `UriUnescape.DecodeEscaped` | dev-net-ip-netfilter/nat_httpd.c:133-158 | on a buffer with every byte percent-encoded the in-place decoder leaves the original string |

## Left out

- The socket, epoll, io_uring, curl, TLS, GStreamer, DPDK and GPIO-library programs, kernel module plumbing, and the hex, vector, grep and cat utilities: I/O or easy members.
- data-queue-channel, kneigh, ksync-rcu and epoll-tcp-async-pool: further copies of a ring, a packet pool, an RCU list and a worker pool.
- RCU: the kernel's list and grace-period functions are taken as documented (a removed node keeps its next, a grace period waits for the readers that were active); memory is sequentially consistent; the back links of the kernel's list are represented by the node that a walk has just passed; `delete_ccmap` is not modelled.
- RCU tasks: delays and printed text; `task_init_val` is one shared flag.
- GpioCode.Receiver.DataIrq: assumes that a completed frame is polled before the next one ends, because the source's queue has one place and no check.
- GpioLine.RoundTrip: pulse timing and lost pulses are not modelled, and a packet is at most 1500 bytes, because a longer one writes past the source's buffer.
- GPIO requests, header printing, the print-only test mode and `geth_tx_timeout`.
- The spinning build of `static.c`, more than one producer or consumer, and `delete_queue`.
- TestData.CheckReceived: its outcome Passed stands for do_dequeue reaching its end, where the source has no return statement, so the value its caller then sees is not modelled.
- ListQueue: `len` is unbounded, since a list of 2^32 nodes is out of reach.
- StripedMap: a lookup that misses returns -1 and releases its own lock (the source unlocks bucket -1), and bucket heads start null (the source leaves them uninitialised); an index is hashed from its bytes in little-endian order; the SHA-256 build, timing and `cmap_free` are not modelled.
- Deth: entry points are atomic, so re-entry of xmit from the network stack and races inside them are not modelled; both interfaces stay open and lockup is 0; counters do not wrap; the size of a packet's data array and the printing of headers are not modelled.
- DethCode.Driver.HwTx: requires that the device's lock is free, because on a held lock the source spins for ever; it is left held only by a transmission from an empty pool, which needs a pool for which nothing could be allocated, and polls and timeouts after that are modelled although they would spin too.
- SpinLock: thread placement and timing; memory is sequentially consistent.
- UriUnescape: `isspace` is that of the C locale.
