# Verified model of the MVVMM device side

MVVMM is a small KVM monitor. This project models the device side of its virtio
split virtqueues (sections 2.6.5 to 2.6.8 of VIRTIO 1.1), the asynchronous block
path behind them, the network device, the register file, and the serial console
with its keyboard escape, and proves what they promise over every input and
every run.

How the model is laid out:

- `Words`, `GuestMemory`, `Chains`, `Acyclic`, `QueueCopy`, `SizeLoop`: guest memory is one byte array.
  A chain is a relation between memory, a head and a list of descriptors; its
  flattened view is a sequence of guest addresses, and a copy is a scatter or a
  gather over it. The loops of `virtio.c` are methods proved against that.
- `Rings`, `Registers`, `VirtioDevice`: the used ring as an unbounded history of
  completions, the registers as the last writes of an event log, and the class
  `Device` that keeps both in its invariant.
- `NetDevice`: receive and transmit on top of `Device`.
- `BlockModel`, `BlockInvariant`, `BlockMemory`, `BlockControl`, `BlockStorage`,
  `BlockHeap`, `BlockRuns`, `BlockTheorems`, `DiskConsistency`: the block request
  lifecycle as a step machine of guest, notifying threads and workers, its
  invariant, and the theorems over all its runs. Finishing a request is two
  steps, the answer into memory and the used element, and everybody else may run
  in between. `BlockProgress` bounds the steps to a quiet state; `BlockRings`
  gives every run its guest memories, rings in bytes included; `BlockBytes` says
  what a run does in bytes of requests, disk and guest, without the machine's own
  terms; `BlockBacklog` and `BlockLeak` are runs on which a property fails. `BlockDevice` is the device's
  own code for both ends of a request, against the functions of the machine.
- `PoolSpec`, `PoolProtocol`, `PoolProof`, `PoolTheorems`, `PoolGuarantees`: the
  thread pool at the level of its locks, and the atomic pool it refines, which
  the block machine uses. `ThreadPool` is the submit scan as code.
- `Serial`, `Keyboard`: the one-byte mailbox and the Ctrl-A decoder. The port is
  what its trace of accesses and stores makes of the initial port, so theorems
  about traces hold for every interleaving.

What the code relies on without checking appears as a precondition: chains are
finite, at most 1025 descriptors long (1024 in the block machine), their copied
parts lie in memory and clear of their own descriptors, their total lengths fit
a C `int`; rings are aligned, in memory and apart from each other; the driver
leaves a published request alone until it is returned and keeps at most `num`
outstanding; queue sizes are powers of two up to 2^16. Memory is sequentially consistent.

Points at which the code does less than one might expect, each stated exactly:

- The queue size register accepts every power of two, but the 16-bit index only
  selects the right slot for sizes up to 2^16 (`SlotAcrossWrap`, both ways).
- A queue of size 2^16 with 2^16 requests waiting looks empty to the 16-bit
  indices: a drain takes all that is published if and only if fewer than 2^16
  wait at its snapshot, and from 2^16 it takes none (`DrainEnds`, `QueueNotify`;
  `FullBacklog` is such a run).
- A request of a type other than IN and OUT leaks its callback argument; nothing
  else leaks (`ReleasedOnce`; `LeakRun` is such a run).
- A transmit chain that is malformed or shorter than the 12-byte header is
  neither sent nor returned on the used ring, and everything is returned exactly
  when no chain is such (`TakeNext`, `AllReturnedIff`, `ShortChainLost`).
- The size walk of a chain has no bound. Where every fetch on the way either
  reads a whole entry or fails, it ends if and only if the head itself is out of
  reach, or no walk from the head revisits a descriptor or is led out of the
  table, or some walk from it comes to a readable descriptor after a writable one
  (`LoopEndsIff`). It spins on a descriptor linked to itself and on one linked to
  an entry out of reach, since a failed fetch leaves the old descriptor in place
  (`SpinsOnItself`, `SpinsOutside`). An entry address is 64 bits wide and wraps;
  a fetch fails only for addresses above the size of memory.
- The serial stream loses, replaces or repeats a byte exactly at the accesses
  that `Spoils` lists: reading offset 0 with DLAB set while a byte is pending,
  overwriting it there with a different byte, and changing data-ready through
  offset 5. A divisor latch is never read back: the register is.
- The decoder is transparent exactly for the strings in which every Ctrl-A is
  followed by neither Ctrl-A nor Ctrl-C (`TransparentIff`).

## Model

| member | source | states |
|---|---|---|
| Words.PowerOfTwoTest | virtio.c:873 | the bit test of the queue size register accepts exactly the powers of two |
| Words.SlotOf | virtio.c:619 | masking the 16-bit index with num - 1 gives the slot of the unbounded count, for every power of two up to 2^16 |
| Words.SlotAcrossWrap | virtio.c:679-680 | for a power of two, masked 16-bit index and unbounded count agree at every count if and only if num is at most 2^16 |
| Words.SameIndex | virtio.c:678 | two counts at most 2^16 apart have equal 16-bit indices if and only if they are equal or exactly 2^16 apart |
| Words.LittleEndian | virtio.c:241-251 | 16-, 32- and 64-bit fields are their bytes, lowest first |
| GuestMemory.WriteThenRead | virtio.c:306-323 | what is written to a range of guest memory is read back from it, and every disjoint range reads as before |
| GuestMemory.MemcpyFromGuest | virtio.c:287-304 | the page-chunked loop copies exactly the flat byte range, ends, and answers 0 if and only if every chunk start translates |
| GuestMemory.MemcpyToGuest | virtio.c:306-323 | the page-chunked loop overwrites exactly the flat byte range and nothing else, ends, and answers 0 if and only if every chunk start translates |
| GuestMemory.TranslatesIff | virtio.c:287-323 | a copy fails exactly when its own address, or a 4096-byte page it enters, lies above the size of memory |
| GuestMemory.Read16 | virtio.c:241-251 | aligned loads give the little-endian value, unaligned ones and ones past the end give 0 |
| GuestMemory.Store | virtio.c:253-281 | aligned stores change exactly their bytes, unaligned ones nothing |
| Chains.ChainUnique | virtio.c:325-332 | memory and head determine the chain |
| Chains.NoRevisit | virtio.c:643-659 | a chain that ends visits no descriptor twice |
| Chains.FlagBits | virtio.c:84-85 | a descriptor is linked if and only if mask 1 of its flags is set, and writable if and only if mask 2 is |
| Chains.DescBytes | virtio.c:88-93 | entry idx of the table is the 16 bytes at table + 16 * idx: address, length, flags, next |
| Chains.TwoEntries | virtio.c:643-659 | from the bytes of two table entries, a readable one linked to a writable one: the chain, its readable view and its writable view |
| Acyclic.FiniteIff | virtio.c:643-659 | the chain from a head is finite if and only if no walk from it revisits a descriptor or leaves the table |
| Acyclic.WalkBound | virtio.c:643-659 | a walk without repetition has at most 2^16 links |
| Chains.ScatterGather | virtio.c:387-415 | bytes scattered over distinct addresses are gathered back unchanged |
| Chains.ScatterFrame | virtio.c:387-415 | scattering changes no byte outside its addresses |
| Chains.ScatterKeepsEntries | virtio.c:387-415 | scattering clear of a chain's table entries leaves the chain as it is |
| QueueCopy.GetDesc | virtio.c:325-332 | fetches the descriptor at the index, for every index in the table |
| QueueCopy.FirstWritable | virtio.c:348-363 | finds the first writable descriptor if the chain has one, fails otherwise, after at most 1025 fetches on any memory |
| QueueCopy.SeekOffset | virtio.c:368-385 | finds the descriptor and the rest offset of byte `offset` of the run if and only if the run is that long, zero-length descriptors included, after at most 1025 fetches on any memory |
| QueueCopy.CopyTurn | virtio.c:387-415 | one turn of the copy loop: what is left, applied to the bytes now there, still gives the whole copy |
| QueueCopy.Transfer | virtio.c:387-415 | the copy loop moves the window of the run, as far as the run reaches, within 1025 turns |
| QueueCopy.MemcpyToFromQueue | virtio.c:334-417 | equals gathering or scattering the window of the flattened view, partial when the view is shorter; 0 exactly when the window is complete; chain intact; at most 1 + 3 * 1025 fetches on any memory, cyclic chains included |
| QueueCopy.SkipsToWritable | virtio.c:643-659 | the two-phase walk accepts exactly the chains that have readable descriptors first and then only writable ones |
| QueueCopy.ReadableSize | virtio.c:643-651 | wherever the walk ends, the first loop sums the length of the readable view modulo 2^32 and stops at the first writable descriptor |
| QueueCopy.WritableSize | virtio.c:653-659 | wherever the walk ends, the second loop succeeds exactly on writable descriptors only and sums their view |
| QueueCopy.ChainWalkEnds | virtio.c:643-659 | on every finite chain the size walk ends, after all of it or at the readable descriptor that is out of place |
| QueueCopy.SizeWalk | virtio.c:632-665 | wherever the walk ends, cyclic chains and heads out of reach included: 0 exactly for a well-shaped walk, with the lengths of both views as C ints |
| SizeLoop.LoopIsWalk | virtio.c:643-659 | the loop, which keeps the old descriptor when a fetch fails, stops after some number of turns if and only if there is a walk that ends |
| SizeLoop.WalkEndsIff | virtio.c:643-659 | from a head in the table a walk ends if and only if the chain is acyclic and in the table, or has a readable descriptor after a writable one |
| SizeLoop.LoopEndsIff | virtio.c:632-665 | get_desc_rw_size ends if and only if the head is out of reach, or the chain is acyclic and in the table, or it has a readable descriptor after a writable one |
| SizeLoop.SpinsOnItself | virtio.c:643-651 | on a descriptor linked to itself the loop does not end |
| SizeLoop.SpinsOutside | virtio.c:643-651 | on a descriptor linked to an entry out of reach the loop does not end |
| QueueCopy.GetDescRwSize | virtio.c:632-665 | on a chain: 0 exactly for well-shaped ones, with the lengths of both views as C ints |
| Rings.StoresInOrder | virtio.c:606-622 | after each of the first two stores the used ring still shows the old history with its last num - 1 entries intact; after the third the history is longer by the new entry |
| Rings.PublishedExactly | virtio.c:613-622 | a completion changes exactly the eight bytes of its slot, id before length, and the two bytes of the index |
| Rings.UsedBytesAre | virtio.c:613-622 | the used ring in bytes: index at 2, eight bytes per element from 4 on, the last num completions in their slots |
| Rings.AvailBytesAre | virtio.c:677-680 | the available ring in bytes: flags at 0, index at 2, one half word per slot from 4 on |
| Rings.SuppressBit | virtio.c:624-625 | interrupts are suppressed exactly by bit 0 of the first byte of the available ring |
| Rings.PayloadFirst | virtio.c:606-622 | with the payload written before the three stores, every prefix of the payload and every stage after it shows the old history, or the new element together with the whole payload |
| Rings.SeenMeansThere | virtio.c:606-622 | whoever reads the new index finds the new element and its payload |
| Rings.PublishedFrame | virtio.c:606-622 | a completion writes to its own used ring only |
| Rings.UsedRingKept | virtio.c:606-622 | memory changes elsewhere keep the used ring |
| Rings.ReadAvailHead | virtio.c:679-680 | the slot selected by the wrapped last_avail_idx holds the head published as number k |
| Registers.PendingMeans | virtio.c:624-629 | an interrupt is pending if and only if a completion that was not suppressed happened after the last acknowledgement of bit 0 and the last reset |
| Registers.LastWriteWins | virtio.c:854-920 | the register value is that of the last write made while the queue was selected, if no reset follows |
| Registers.UnwrittenIsZero | virtio.c:178-195 | a register not written under its selection since the last reset reads 0 |
| Registers.LastSizeWins | virtio.c:872-876 | the size of a queue is the last power of two written for it, if no reset follows |
| Registers.UnsizedIsMax | virtio.c:193 | a queue given no power of two since the last reset has the maximal size |
| Registers.NumIsPow2 | virtio.c:872-876 | after any writes and resets every queue size is a power of two |
| Registers.RegisterMap | virtio.c:46-69 | the offset of every writable register and what a write to it does to the selected queue, the selection, the status and the pending interrupt |
| Registers.ConfigBytewise | virtio.c:690-720 | a configuration read of width 1 is the byte, and reads of widths 2 and 4 agree with byte reads |
| Registers.ConfigReadsBack | virtio.c:722-748 | a configuration write is read back byte by byte and leaves other bytes alone |
| Registers.ConfigOutside | virtio.c:690-748 | accesses that do not fit, or are of another width, read 0 and write nothing |
| VirtioDevice.Device.constructor | virtio.c:178-195 | a new device holds the registers of the empty log |
| VirtioDevice.Device.Reset | virtio.c:178-195 | clears all registers and queues and keeps which queue is received manually |
| VirtioDevice.Device.MmioWrite | virtio.c:854-920 | every write keeps: each 64-bit address, size, ready bit, selection, status and pending interrupt is what the log of writes gives; configuration writes change their bytes only |
| VirtioDevice.Device.WriteQueueRegister | virtio.c:872-906 | only the selected queue changes, as the register says |
| VirtioDevice.Device.WriteRegister | virtio.c:864-914 | the switch over registers keeps the invariant for every value |
| VirtioDevice.Device.WriteStatus | virtio.c:895-903 | writing 0 resets everything, any other value only the status |
| VirtioDevice.Device.MmioRead | virtio.c:750-842 | every register reads what was last written to it since the last reset, or its fixed value |
| VirtioDevice.Device.ReadConfig | virtio.c:690-720 | little-endian read of 1, 2 or 4 bytes that fit, 0 otherwise |
| VirtioDevice.Device.WriteConfig | virtio.c:722-748 | little-endian write of 1, 2 or 4 bytes that fit, nothing otherwise |
| VirtioDevice.Device.PublishUsed | virtio.c:613-622 | the three stores give the memory of the next completion, across index wrap, in the order id, length, index |
| VirtioDevice.Device.ConsumeDesc | virtio.c:606-630 | the used ring represents the history with the new element for its last num completions and index k mod 2^16, the trace of memories shows the stores in order; the event says suppressed exactly when bit 0 of the first byte of the available ring is set, and the interrupt status is 1 when it is not |
| NetDevice.InOrder | virtio.c:1107-1128 | for well-formed chains, packets and used elements match the published chains one to one, in order |
| NetDevice.AllReturnedIff | virtio.c:1107-1128 | as many completions as chains if and only if every chain is well shaped and holds the header |
| NetDevice.ShortChainLost | virtio.c:1116-1117 | a chain of one byte is neither sent nor returned |
| NetDevice.HeaderThenPacket | virtio.c:1176-1177 | the two successive copies are one write of header and packet |
| NetDevice.PutPacket | virtio.c:1175-1177 | scatters twelve zero bytes and the packet over the start of the writable view |
| NetDevice.Net.constructor | virtio.c:178-195 | the device with its two queues set up and empty rings starts in lockstep |
| NetDevice.Net.Lockstep | virtio.c:1178-1179 | in every state between calls the receive queue's used index equals last_avail_idx |
| NetDevice.Net.GuestWrite | virtio.c:241-281 | guest stores outside the used rings keep the invariant of the device |
| NetDevice.Net.Deliver | virtio.c:1174-1179 | memory is exactly the packet scattered and the completion published; on the way the index never covers the packet before all of it is in memory; the guest gathers twelve zero bytes and the packet; the interrupt as bit 0 of the available flags says; nothing else changes |
| NetDevice.Net.WritePacket | virtio.c:1150-1182 | delivered if and only if the queue is ready, not empty, the chain well shaped and 12 bytes longer than the packet; a dropped packet changes nothing, an interrupt included |
| NetDevice.Net.RecvRequest | virtio.c:1107-1128 | sends the readable view without its first 12 bytes and completes the head with length 0, or does nothing when the view is shorter; memory and interrupts exactly |
| NetDevice.Net.TakePacket | virtio.c:1116-1128 | one packet of at least 12 bytes: sent without them, one used element, one interrupt event |
| NetDevice.Net.ServeNext | virtio.c:678-685 | head, sizes and request of one chain, malformed chains skipped |
| NetDevice.Net.TakeNext | virtio.c:678-686 | one turn of the drain takes the next published chain |
| NetDevice.Net.DrainTx | virtio.c:677-687 | takes every published chain in order if fewer than 2^16 wait and none of 2^16, across wrap; memory is exactly that with their completions published, with one interrupt event each |
| NetDevice.Net.QueueNotify | virtio.c:668-688 | drains the transmit queue and leaves the manually received queue alone; over any run the tap holds the packets of the chains taken; memory and interrupts exactly |
| NetDevice.Net.MmioWrite | virtio.c:854-920 | lockstep and order survive every register write that is neither a queue register nor a reset, the interrupt acknowledgement and a notification with its drain included; the log, the configuration and guest memory after it exactly |
| BlockDevice.ReadPart | virtio.c:1007-1008 | the copy out of a chain gives that part of its readable bytes, or fails exactly when the chain is too short |
| BlockModel.KindBytes | virtio.c:941-942 | a request reads if its first four bytes are 0 and writes if they are 1, little endian, and its sector is bytes 8 to 15 |
| BlockDevice.RecvRequest | virtio.c:997-1053 | ignores, aborts on or submits a request exactly as its header bytes say; what is submitted is the task of the step machine: direction, sector, buffer and byte count in bytes of the request |
| BlockDevice.PutAnswer | virtio.c:967-976 | scatters the answer over the writable view |
| BlockDevice.Finish | virtio.c:966-978 | copy and completion: memory exactly, the answer in place before the index covers it, the interrupt as bit 0 of the available flags says |
| BlockDevice.ReqEnd | virtio.c:950-982 | for both kinds, memory is exactly the answer (the read buffer with the status in its last byte, or the status alone) and one used element of that length; status 0 or 1; on the way the index never covers the completion before its answer; history and interrupt grow by it |
| BlockDevice.StatusInMemory | virtio.c:961-976 | after that the guest finds each byte of the answer at its writable address, the status last |
| BlockDevice.RequestFits | virtio.c:997-1053 | the requests of the step machine meet what RecvRequest and ReqEnd rely on |
| BlockRuns.StepKeepsInv | virtio.c:668-688 | every step of guest, notifying threads and workers keeps the whole invariant |
| BlockRuns.RunKeepsInv | virtio.c:950-1053 | every state of every run satisfies it |
| BlockTheorems.Conservation | virtio.c:668-688 | requests popped are, each once, the completed, the skipped, those in flight and the one in hand; in flight at most one per worker; completed are exactly reads and writes |
| BlockTheorems.CompletedOnce | virtio.c:984-995 | no request is completed twice |
| BlockTheorems.QuietMeansCompleted | virtio.c:997-1053 | in a quiet state every read and write was completed, also those the pool rejected |
| BlockTheorems.DrainCovers | virtio.c:677-678 | (avail_idx - last_avail_idx) mod 2^16 is the number of heads waiting if and only if these are fewer than 2^16; otherwise the drain stops at once |
| BlockTheorems.PopsInOrder | virtio.c:679-681 | each pop takes the next request in publication order and finds chain and bytes as they were published |
| BlockTheorems.DrainEnds | virtio.c:678-687 | from snapshot to end a drain takes exactly what was published at the snapshot if and only if fewer than 2^16 requests were waiting; from 2^16 it takes none |
| BlockBacklog.FullBacklog | virtio.c:873 | a run of a queue of size 2^16 with 2^16 requests published and a drain that ends with none taken |
| BlockTheorems.NoneSkipped | virtio.c:678-686 | over any notifies no published head is taken twice or passed over; last_avail_idx is the count modulo 2^16 |
| BlockTheorems.VisibleMeansAnswered | virtio.c:966-978 | in every reachable state, whatever runs between the answer and its publication, each completion the guest has not taken back has its answer in guest memory, and each request not completed is as it was published |
| BlockTheorems.NeverMisused | blkdev.c:36-66 | data buffer, callback argument and request record are never used or released unless live, on every path |
| BlockTheorems.ReleasedOnce | virtio.c:1009-1048 | in a quiet state all three blocks of every read and write are released, and only the argument of requests of other types is left |
| BlockLeak.LeakRun | virtio.c:1049-1050 | a run with one request of type 4 that ends quiet with its callback argument live and nothing completed |
| BlockTheorems.Progress | virtio.c:984-995 | in every reachable state that is not quiet the device or a worker can take a step, a further notification only when nobody holds the lock and requests wait |
| BlockProgress.WorkFalls | virtio.c:668-688 | every step of a drain or a worker lowers the work that is left, the start of a notification adds two |
| BlockProgress.BoundedWork | virtio.c:984-995 | without steps of the guest the device takes no more steps than the work that is left and two more per notification |
| BlockProgress.MovesUnlessAtRest | blkdev.c:36-66 | away from rest the lock holder or a worker can take a step |
| BlockProgress.NoneAtRest | blkdev.c:36-66 | at rest none can |
| BlockProgress.BecomesQuiet | virtio.c:984-995 | after one notification with fewer than 2^16 requests waiting the device side comes to rest in a bounded number of steps, and is then quiet |
| BlockTheorems.PoolAsSpecified | blkdev.c:76-133 | the block device moves flags and slots only as the pool does |
| BlockRings.RunInOneMemory | virtio.c:606-622 | every run has guest memories that hold its rings in bytes and its requests and answers as the machine has them, each obtained from the one before by the stores of its step |
| BlockRings.BytesTell | virtio.c:677-680 | in those bytes the indices are the counts modulo 2^16, the last num completions are in their slots and every waiting head is in the slot of its publication number |
| BlockRings.AnswersInMemory | virtio.c:966-978 | in that one memory each completion not taken back has its answer |
| BlockRings.StoresShowAnswer | virtio.c:620-622 | at every store of every publication, in one memory, the index covers the new element only once it is written, and its answer is there |
| DiskConsistency.ReplayMisses | blkdev.c:44-49 | disk operations that miss a range leave it alone |
| DiskConsistency.WriteStored | blkdev.c:44-46 | a write completed with OK put its bytes on the disk at its place in the log |
| DiskConsistency.ReadDelivers | virtio.c:958-969 | a read completed with OK delivers the disk bytes at its place in the log, padding and the status byte last, and they are in the guest's buffers until it takes them back |
| DiskConsistency.OthersMiss | blkdev.c:36-66 | with no other overlapping write in flight nothing in between touches the range |
| DiskConsistency.SeesWrite | blkdev.c:36-66 | the disk the read sees holds the bytes of the write |
| DiskConsistency.ReadAfterWrite | virtio.c:1015-1048 | in every run, a read published after a covering write was completed with OK, with no other overlapping write in flight, places exactly the write's bytes in the guest's writable segments, status byte last |
| DiskConsistency.ByteAfterWrite | blkdev.c:36-66 | byte by byte, so also for reads over several writes: a byte that a completed write stored, with no other write to that byte in flight, is delivered as that write left it |
| DiskConsistency.ByteUntouched | blkdev.c:36-66 | a byte that no write touched is delivered as the disk was at the start |
| BlockBytes.StartIsOffset | blkdev.c:90 | a request begins on the disk at 512 times the number in its header bytes 8 to 15, modulo 2^64 |
| BlockBytes.LengthInBytes | virtio.c:1021 | it is about the whole sectors of its data, or of the writable bytes before the last |
| BlockBytes.SectorsApart | blkdev.c:90-92 | requests for disjoint sectors do not overlap on the disk |
| BlockBytes.DiskStep | blkdev.c:43-57 | every disk operation of every run, short and failed ones included: a read leaves the disk alone; a write of n bytes puts the first n data bytes of its request at its place and changes no other byte, zeros filling a gap; complete exactly when n is all it asked for and there was no error |
| BlockBytes.OkIffComplete | blkdev.c:51-57 | a completion is OK if and only if it reached the disk and its operation moved every byte asked for without an error |
| BlockBytes.WriteReachesDisk | blkdev.c:44 | a write completed with OK put request byte 16 + i at disk byte 512 * sector + i, for all its whole sectors, and changed nothing else |
| BlockBytes.ReadComesFromDisk | virtio.c:958-969 | every completed read, short and refused ones included: byte i is disk byte 512 * sector + i at its step as far as it got, then zeros, then the status |
| BlockBytes.StatusByte | virtio.c:958-978 | every completion, refused ones included: used length 1 for a write and the writable size for a read, as many bytes written, the last 0 or 1, and in guest memory until the request is taken back |
| BlockBytes.ServedIff | virtio.c:1015-1051 | at rest the completed requests are exactly those whose bytes ask for a read or a write |
| ThreadPool.WorkerPool.Run | threadpool.c:64-87 | the first idle worker is reserved and handed the task, -1 without any change when all are busy, reservation without a task while quitting |
| PoolTheorems.NextKeepsInv | threadpool.c:9-31 | every step between two lock operations, and setting quit, keeps the invariant of locks, flags, slots and tasks |
| PoolTheorems.RunKeepsInv | threadpool.c:9-31 | every state of every run satisfies it |
| PoolGuarantees.ExactlyOnce | threadpool.c:64-87 | in every reachable state no task ran twice, only accepted ones ran, and an accepted one that did not run yet sits with a worker that has not exited |
| PoolGuarantees.AllRan | threadpool.c:24-26 | once the slots are empty exactly the accepted tasks have run |
| PoolGuarantees.AcceptedTaskRuns | threadpool.c:13-24 | the worker of an accepted task always has a step that brings it closer to running it, also after quit |
| PoolGuarantees.NeverOverwrites | threadpool.c:68-80 | a hand-over finds its slot empty, a cleared flag means an empty slot |
| PoolGuarantees.PoolRefines | threadpool.c:64-87 | every step is a move of the atomic pool or leaves it alone |
| PoolGuarantees.WaitsDownward | threadpool.c:67-73 | a thread waits only for threads of lower rank |
| PoolGuarantees.NoDeadlock | threadpool.c:9-31 | before shutdown the wait-for graph over device lock, pool lock and worker locks is acyclic in every reachable state |
| PoolGuarantees.FreeToMove | threadpool.c:64-87 | whoever does not wait for a held lock can take a step |
| PoolGuarantees.NobodyStuck | virtio.c:562-564 | before shutdown the holders of wanted locks lead in at most two hops to a thread that can take a step |
| Serial.StreamStep | serial.c:131-164 | an access breaks the stream equation if and only if it is one that Spoils lists |
| Serial.StreamOfTrace | serial.c:88-164 | in every interleaving of guest accesses and stores, until an access spoils it, the bytes accepted are those read and the pending one |
| Serial.LineStep | serial.c:110-164 | an access breaks the agreement of interrupt line and interrupt register if and only if it is one that Confuses lists |
| Serial.LineOfTrace | serial.c:88-164 | in every interleaving, until the guest writes over the interrupt register, the line is high if and only if the register shows an interrupt |
| Serial.Masks | serial.c:39-53 | data-ready, DLAB and the two interrupt enables are masks 0x01 of register 5, 0x80 of 3, 0x01 and 0x02 of 1 |
| Serial.ReadEffect | serial.c:110-129 | what a read at each offset does to registers, latches, line and output |
| Serial.WriteEffect | serial.c:131-164 | what a write at each offset does, with and without DLAB |
| Serial.StoreEffect | serial.c:100-105 | what a store does: the byte, data-ready, the receive interrupt where enabled, and nothing else |
| Serial.WriteMeans | serial.c:88-108 | every write takes some waits, none timed out before the last, and then stores into an empty mailbox or drops at a timeout |
| Serial.SerialPort.constructor | serial.c:73-82 | the port starts with an empty mailbox and the line low |
| Serial.SerialPort.ReadReg | serial.c:110-129 | reading offset 0 empties the mailbox, reading offset 2 gives the interrupt and takes it back or passes on to transmit |
| Serial.SerialPort.Perform | serial.c:131-164 | the registers, latches, line and output after an access |
| Serial.SerialPort.HandleSerial | serial.c:131-164 | one access extends the trace by itself; every read answers the register, which is the byte taken from the stream |
| Serial.SerialPort.StoreByte | serial.c:100-105 | the byte goes into the empty mailbox and extends the trace by the store, which StoreEffect describes |
| Serial.SerialPort.WriteToSerial | serial.c:88-108 | whatever the guest does during the waits, the trace grows by its accesses and, if accepted, the store: the byte in the mailbox, the receive interrupt with the line raised exactly where enabled, all else as before; accepted at once when the mailbox is empty |
| Keyboard.DoubledDecodes | main.c:69-98 | every byte string, typed with each Ctrl-A doubled, decodes to itself without exiting |
| Keyboard.DoubledThen | main.c:69-98 | a doubled string is decoded on its own, whatever follows |
| Keyboard.CutAtExit | main.c:81-84 | up to the exit sequence everything is sent, after it nothing; a last single Ctrl-A is kept back |
| Keyboard.Escapes | main.c:81-96 | the bytes 1 1, 1 3 and 1 c: what each of them sends |
| Keyboard.TransparentIff | main.c:69-98 | a string decodes to itself if and only if every Ctrl-A in it is followed by a byte other than Ctrl-A and Ctrl-C |
| Keyboard.KilledIff | main.c:81-84 | the exit sequence is recognised exactly at a Ctrl-C after an odd number of Ctrl-A |
| Keyboard.Send | serial.c:88-108 | one write after any accesses of the guest: the trace of that write, and the byte accepted or counted as lost |
| Keyboard.TakeTurn | main.c:75-97 | one turn sends what the escaped flag and the byte say, and the mailbox accepts a subsequence of it |
| Keyboard.KeyboardThread | main.c:69-98 | the loop with its escaped flag and poll timeouts sends exactly the decoded string and does nothing else to the port; what the mailbox accepts on top of what it had is a subsequence of it, all of it when nothing was lost |
| Keyboard.TypeToGuest | main.c:69-98 | a string typed with Ctrl-A doubled, none of it dropped and no access that spoils, is what the guest read and the pending byte |

## Left out

- KVM ioctls, eventfd, irqfd, poll and mmap: foreign calls; a notification is a step or a method call, an interrupt a recorded event or a line level.
- CPU setup, kernel and initrd loading, memory-slot layout in mvvm.c: constants and linear arithmetic.
- TAP handling and terminal handling: the tap is a sequence of packets, the terminal a sequence of polls; the EOF test of the keyboard thread cannot become true and is not modelled.
- Option and memory-size parsing in main.c.
- Device teardown and thread joining beyond the quit flag. A worker leaves by unlocking the pool lock and keeps its own, so the deadlock theorems end when quit is set; the exactly-once theorems do not.
- Device reset and queue reconfiguration while requests are in flight: the network device and the block machine start from queues that are set up and do not change them.
- The abort paths for malformed OUT requests and the IN request without a writable byte: the step machine assumes the driver builds neither; `BlockDevice.RecvRequest` shows when the code aborts.
- C11 fences and weak memory: steps are sequentially consistent.
- Failing malloc.
- Baud rate, FIFO and modem behaviour of the UART.
- The guest kernel module.
- GuestMemory.MemcpyToGuest: a chunk that starts inside memory and runs past its end is cut off at the end, where the C code writes beyond the mapping.
- GuestMemory.MemcpyFromGuest: cut off at the end of memory in the same way.
- QueueCopy.Transfer: a descriptor of 2^31 bytes or more ends the copy with its own status, where the C code moves its pointers backwards.
- QueueCopy.CopyTurn: ends its turn at a descriptor of 2^31 bytes or more in the same way.
- QueueCopy.ReadableSize: requires that the walk ends; where it does not, which SizeLoop.LoopEndsIff says exactly, the C loop does not return.
- QueueCopy.WritableSize: requires that the walk ends, for the same reason.
- QueueCopy.GetDescRwSize: is about finite chains; every other input on which the walk ends is the subject of QueueCopy.SizeWalk.
- SizeLoop.LoopEndsIff: leaves out tables with an entry that begins in memory and runs past its end, where the C fetch reads beyond the mapping.
- BlockRings.RunInOneMemory: that requests lie apart from the rings is an assumption about the driver.
- BlockProgress.BecomesQuiet: that the scheduler takes the steps is not part of the model; a backlog of 2^16 stays, as DrainEnds says.
- ThreadPool.WorkerPool.Run: seen while no worker clears a flag; PoolProtocol takes the interleavings.
- NetDevice.Net.WritePacket: total length below 2^31, as the C int needs.
- Keyboard.KeyboardThread: the process exits at Ctrl-A Ctrl-C; what the thread does until the signal arrives is not modelled.
