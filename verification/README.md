# Verified model of the FPGA DMA stack

A Dafny model of the stack that moves data between an FPGA and host memory, with proofs about it. The hardware
stages are state machines that read and write streams, one call or one clock edge at a time; the host allocator is
a linked list that is split in place. Each is written in that form, as a class whose methods do what the code does,
and each method is proved equal to one step of a function on values. The results below are about runs of those
steps: every input, every schedule, every interleaving.

`dafny verify dfyconfig.toml` checks everything. The files, in the order to read them:

- `Axis` (words, packets, frames), `Streams`, `Runs`, `Mem` (commands and machine arithmetic), `Wrappers`: shared ground.
- `PacketSplit`, `Splitter`: the page-boundary splitter. Three stages with bounded queues between them cut a write
  command at the end of a 2 MiB page and re-cut the 64-byte words of its packet. The outputs do not depend on the
  schedule, and the two pieces are the bytes of the packet exactly when the cut is a multiple of eight bytes.
- `Tlb`, `TlbMessages`, `Setup`, `BaseRegisters`: the translation buffer and how it is filled, from the driver's page list
  through the host's register writes and the bus state machine to the table, together with the base register that runs
  one write behind.
- `WritePath`: the splitter and the translation buffer side by side. Whatever the schedule, the memory writes are those
  of writing every byte on its own to the page of its own address.
- `Allocator`, `AllocatorBlocks`: the first-fit allocator as the linked list that the code keeps, and what clients find in
  their blocks. `AllocatorConcurrent`, `AllocatorSafety`, `AllocatorFirstFit`, `AllocatorData`, `AllocatorProgress`: the same allocator statement
  by statement, with one locked `allocate` and any number of unlocked `free`s interleaved.
- `Shift`, `Width`, `Merge`: stream transformers that undo each other, and the fair merger.
- `TxInterface`, `TxFlow`: store-and-forward towards the MAC, two state machines and a token queue.
- `Bench`, `Padding`: the traffic generator, which is shown to meet the contract of the write path, and the frame padder.

Packets are well formed as in sections 2.4 and 2.5 of ARM IHI 0051A (AMBA 4 AXI4-Stream): every word but the last is
full, and the last keeps a non-empty run of its lowest bytes. Command lengths, addresses, counters and registers wrap
where the code's widths make them wrap.

Several promises hold only under a condition; where they do not hold in general the exact condition is proved:

- A split packet is right exactly when every command that crosses a page end starts at a multiple of eight bytes into
  its page (`WritePath.FramesFitIffAligned`); the switches have no other cases.
- The translation buffer agrees with the page list exactly when each group of 512 small pages is contiguous
  (`Setup.AgreesWithPageList`), and its miss counter tells mapped from unmapped entries exactly when no earlier fill
  reached further (`Tlb.MissesExact`).
- The splitter and the translation buffer see the same page ends exactly when the last two bases written are congruent
  modulo a page (`BaseRegisters.SplitterAgrees`).
- The allocator's list stays sound exactly when no request is rounded to zero bytes (`Allocator.ZeroRequestBreaks`).
- Tokens count the frames in the transmit queue, and all frames leave it, exactly when no frame is a single word
  (`TxInterface.TokensCountFrames`, `TxInterface.AllFramesLeave`). That a frame in progress never stalls needs no condition.
- A padded frame has the length it needs exactly when its word count is not mistaken by the eight-bit counter
  (`Padding.PadFrame`).
- A generated packet is right exactly when the keep bits that the loop does not set were clear before
  (`Bench.PacketOk`); the default constructor at hls/axi_utils.hpp:82 leaves them unassigned.

## Model

| member | source | states |
|---|---|---|
| PacketSplit.PkgSplit.Call | hls/mem_write_cmd_page_boundary_check_512/mem_write_cmd_page_boundary_check_512.cpp:103-321 | one call consumes its inputs, sends its word and moves on as the stage's step function says, or changes nothing when an input is missing |
| PacketSplit.PkgSplit.First | hls/mem_write_cmd_page_boundary_check_512/mem_write_cmd_page_boundary_check_512.cpp:120-192 | the first-piece state: length counted down, last word masked to the cut |
| PacketSplit.PkgSplit.Second | hls/mem_write_cmd_page_boundary_check_512/mem_write_cmd_page_boundary_check_512.cpp:193-269 | the second-piece state, and where it goes when a piece or the packet ends |
| PacketSplit.PkgSplit.SwitchSecond | hls/mem_write_cmd_page_boundary_check_512/mem_write_cmd_page_boundary_check_512.cpp:197-251 | the seven cases are one cut at a byte position; any other length passes the word on |
| PacketSplit.PkgSplit.SwitchLast | hls/mem_write_cmd_page_boundary_check_512/mem_write_cmd_page_boundary_check_512.cpp:270-316 | the seven cases move the upper bytes down; any other length sends the unassigned word |
| PacketSplit.CopyPacket | hls/mem_write_cmd_page_boundary_check_512/mem_write_cmd_page_boundary_check_512.cpp:120-178 | the packet of an unsplit command leaves word for word, and the stage is idle again |
| PacketSplit.CutPacket | hls/mem_write_cmd_page_boundary_check_512/mem_write_cmd_page_boundary_check_512.cpp:120-320 | a cut at a multiple of eight bytes gives two well-formed packets, the first of exactly the announced length, that together carry the packet's bytes |
| PacketSplit.MiscutPacket | hls/mem_write_cmd_page_boundary_check_512/mem_write_cmd_page_boundary_check_512.cpp:135-161 | with any other cut the first frame is longer than announced |
| PacketSplit.SplitStream | hls/mem_write_cmd_page_boundary_check_512/mem_write_cmd_page_boundary_check_512.cpp:88-322 | any list of matching packets is consumed completely, one or two frames per command; they carry the cut payloads when all cuts are aligned, and have the right lengths only then |
| Splitter.MemWriteCmdPageBoundaryCheck.CalculatePageOffset | hls/mem_write_cmd_page_boundary_check_512/mem_write_cmd_page_boundary_check_512.cpp:36-42 | a command moves on with its offset in its page |
| Splitter.BoundaryCheckStage.Call | hls/mem_write_cmd_page_boundary_check_512/mem_write_cmd_page_boundary_check_512.cpp:57-85 | a command is sent whole, or its first piece is sent and the second is held for the next call; together they are its pieces |
| Splitter.MemWriteCmdPageBoundaryCheck.Move | hls/mem_write_cmd_page_boundary_check_512/mem_write_cmd_page_boundary_check_512.cpp:343-350 | each stage called on the shared streams is one action of the three-stage state machine |
| Splitter.MemWriteCmdPageBoundaryCheck.Run | hls/mem_write_cmd_page_boundary_check_512/mem_write_cmd_page_boundary_check_512.cpp:343-350 | any schedule of calls is a run of that state machine |
| Splitter.FireKeeps | hls/mem_write_cmd_page_boundary_check_512/mem_write_cmd_page_boundary_check_512.cpp:33-86 | no action of any stage changes what has been sent together with what is still to be sent |
| Splitter.PrefixesAlways | hls/mem_write_cmd_page_boundary_check_512/mem_write_cmd_page_boundary_check_512.cpp:343-350 | in every state that any schedule reaches, both outputs are prefixes of one sequential function of the inputs |
| Splitter.QuiescentIsDrained | hls/mem_write_cmd_page_boundary_check_512/mem_write_cmd_page_boundary_check_512.cpp:343-350 | the queues of depth two and four cannot block the stages for good: when nothing can move, everything has been sent |
| Splitter.MovesBounded | hls/mem_write_cmd_page_boundary_check_512/mem_write_cmd_page_boundary_check_512.cpp:343-350 | every schedule moves only boundedly often |
| Splitter.CanFinish | hls/mem_write_cmd_page_boundary_check_512/mem_write_cmd_page_boundary_check_512.cpp:343-350 | from every state the stages can be scheduled until nothing moves |
| Splitter.QueuesBounded | hls/mem_write_cmd_page_boundary_check_512/mem_write_cmd_page_boundary_check_512.cpp:343-346 | the two queues never hold more than two and four items |
| Splitter.SchedulesAgree | hls/mem_write_cmd_page_boundary_check_512/mem_write_cmd_page_boundary_check_512.cpp:326-352 | all schedules that run until nothing can move send the same commands and words; the frames carry the payloads cut at page ends when crossings are aligned, and have the right lengths only then |
| Tlb.TlbBlock.Call | hls/tlb/tlb.cpp:87-143 | one call serves a write command, else a read command, else a mapping: translation sent, counters moved, or table, base and top index updated; everything else unchanged |
| Tlb.TlbBlock.Lookup | hls/tlb/tlb.cpp:90-104 | the physical address of the first byte, the length in 28 bits, the miss counter moved exactly beyond the top index, and the crossing counter exactly when the command reaches beyond its page |
| Tlb.Fill | sw/src/fpga/Fpga.cpp:101-105 | after the fill loop entry i holds page i, all other entries are as before, the base is the buffer's, the top index is the last page unless an earlier fill reached further, and both counters are as before |
| Tlb.MissesExact | hls/tlb/tlb.cpp:95-99 | after a fill, a one-byte lookup at the start of a page moves the miss counter for exactly the unmapped pages, if and only if no earlier fill reached further, and never the crossing counter |
| Tlb.CountersExact | hls/tlb/tlb.cpp:95-104 | after any list of commands the miss counter has grown by the number of commands beyond the top index and the crossing counter by the number that leave their page, in 32 bits |
| BaseRegisters.BaseRegister.PosEdge | hdl/common/dma_inf.sv:154-164 | a base write moves the old base to the splitter's register |
| BaseRegisters.OneBehind | hdl/common/dma_inf.sv:159-161 | modulo a page, the splitter's register holds the base before the last, and the newest register and the translation buffer the last |
| BaseRegisters.LastTwoBases | hdl/common/dma_inf.sv:152-163 | the two registers hold exactly the last base and the one before it, in 48 bits |
| BaseRegisters.LastBase | hls/tlb/tlb.cpp:131-134 | the translation buffer holds exactly the last base written, or its old one |
| BaseRegisters.SplitterAgrees | hdl/common/dma_inf.sv:159-169 | splitter and translation buffer agree on page ends if and only if the last two bases are congruent modulo a page |
| TlbMessages.DmaController.Edge | hdl/common/dma_controller.sv:194-289 | one clock edge of the write state machine |
| TlbMessages.DmaController.TakeWord | hdl/common/dma_controller.sv:232-255 | a word goes to its slice of the message; the fifth completes it |
| TlbMessages.MessageRegister | hdl/common/dma_controller.sv:217 | a write reaches the message register exactly at the 32 addresses from 64 on, modulo 4096 |
| TlbMessages.DecodeAllWords | sw/src/fpga/FpgaController.cpp:61-65 | the five words of each mapping, read back five at a time, are the mappings |
| TlbMessages.MessagesArrive | hdl/common/dma_controller.sv:207-287 | under any stalls on the bus and at the receiver, the mappings handed over are a prefix of those written; when all writes are answered they are all of them, once each and in order, and the word counter is zero |
| TlbMessages.CanFinish | hdl/common/dma_controller.sv:207-287 | from every reachable state all writes can still be answered |
| Setup.WriteTlb | sw/src/fpga/FpgaController.cpp:55-69 | exactly five writes to address 64: the halves of the virtual address, low first, those of the physical address, and the base flag |
| Setup.PagesCover | driver/xdma_driver.c:337 | the page count covers the buffer, and one page less would not |
| Setup.FillTlb | sw/src/fpga/Fpga.cpp:101-105 | the loop writes one message per 2 MiB page, the first as the base |
| Setup.CountHugePages | driver/xdma_driver.c:358-371 | counting every 512th page counts the 2 MiB pages, the last one rounded up |
| Setup.GetMapping | driver/xdma_driver.c:389-404 | the request is refused when the caller has too little room, and otherwise returns every 512th page |
| Setup.AgreesWithPageList | driver/xdma_driver.c:396-404 | after sampling and filling, every byte of the buffer is translated to its own small page, if and only if each group of 512 pages is contiguous |
| Setup.InitializationAgrees | hdl/common/dma_controller.sv:207-287 | the same through the host's register writes and any clock-by-clock run of the controller |
| WritePath.PiecesOk | hls/mem_write_cmd_page_boundary_check_512/mem_write_cmd_page_boundary_check_512.cpp:63-84 | every command the splitter sends lies in one mapped page |
| WritePath.AllCommandWrites | hls/tlb/tlb.cpp:87-106 | the translated pieces with the cut payloads make exactly the byte-at-a-time writes of the commands |
| WritePath.WritesAreByteWrites | hls/mem_write_cmd_page_boundary_check_512/mem_write_cmd_page_boundary_check_512.cpp:29-322 | for every schedule of splitter and translation buffer the memory writes so far are, in order, a prefix of the byte-at-a-time writes, and all of them at the end; write commands move no event counter |
| WritePath.CanFinish | hls/mem_write_cmd_page_boundary_check_512/mem_write_cmd_page_boundary_check_512.cpp:343-350 | every request has a schedule that finishes it with all its byte writes made |
| WritePath.ReadsTranslated | hls/tlb/tlb.cpp:107-116 | under any schedule the read commands served are the first of those offered, in order, each sent on to the physical address of its first byte |
| WritePath.LookupServes | hls/tlb/tlb.cpp:87-110 | a waiting write command is served first, and a read command when no write waits |
| WritePath.FramesFitIffAligned | hls/mem_write_cmd_page_boundary_check_512/mem_write_cmd_page_boundary_check_512.cpp:133-163 | each DMA command is paired with a frame of its length if and only if crossing commands are aligned to eight bytes |
| Allocator.RoundUp | sw/src/fpga/MemoryManager.cpp:58 | the rounded request is a multiple of 4096, less than a page above the request, and zero exactly for a request of zero or one that wraps |
| Allocator.MemoryManager.constructor | sw/src/fpga/MemoryManager.cpp:35-41 | one free chunk over the zeroed buffer |
| Allocator.MemoryManager.Allocate | sw/src/fpga/MemoryManager.cpp:54-78 | the list and the returned address after the walk are those of the specification on the list's contents |
| Allocator.MemoryManager.TakeChunk | sw/src/fpga/MemoryManager.cpp:62-71 | the chunk is taken and what is left of it is linked behind it |
| Allocator.MemoryManager.SplitChunk | sw/src/fpga/MemoryManager.cpp:64-69 | the new element holds the rest of the size and the old link; no other element changes |
| Allocator.MemoryManager.Free | sw/src/fpga/MemoryManager.cpp:80-90 | the walk wipes and frees the chunks that start at the address, and leaves the list and the other bytes alone |
| Allocator.FirstFit | sw/src/fpga/MemoryManager.cpp:59-77 | an address is returned if and only if some chunk is free and at least as large as the rounded request, and it is the lowest such chunk's |
| Allocator.AllocateExact | sw/src/fpga/MemoryManager.cpp:59-77 | on any list: nothing changes when no free chunk is large enough; otherwise the first that is becomes taken, an exact fit whole, a larger one with one free chunk of the rest behind it, and no other chunk changes |
| Allocator.AllocateTiles | sw/src/fpga/MemoryManager.cpp:64-69 | splitting keeps the chunks tiling the buffer without gap, overlap or empty chunk, if and only if the rounded request is not zero or nothing is free |
| Allocator.AllocateRefines | sw/src/fpga/MemoryManager.cpp:64-69 | chunk starts are never lost and at most one is added |
| Allocator.TilesBound | sw/src/fpga/MemoryManager.cpp:58-69 | there are at most as many chunks as pages |
| Allocator.FreeExact | sw/src/fpga/MemoryManager.cpp:83-89 | freeing wipes and frees the one chunk that starts at the address, or does nothing |
| Allocator.RunKeeps | sw/src/fpga/MemoryManager.cpp:54-90 | in every run of requests, releases and client writes the chunks tile the buffer at page starts, free memory is zero, and the chunk count never falls nor exceeds the pages |
| Allocator.AllocateDelivers | sw/src/fpga/MemoryManager.cpp:54-78 | in every reachable state a request fails exactly when no free chunk is at least as large as the rounded request; otherwise it returns the lowest such block, inside the buffer and all zero, with the rest of a larger chunk free behind it, and changes no other chunk and no byte of memory |
| Allocator.LiveBlocksApart | sw/src/fpga/MemoryManager.cpp:54-90 | in every reachable state chunks are in address order and disjoint |
| Allocator.ZeroRequestBreaks | sw/src/fpga/MemoryManager.cpp:58-69 | a request keeps the invariant if and only if it is not rounded to zero bytes or no chunk is free |
| AllocatorBlocks.BlocksHoldWrites | sw/src/fpga/MemoryManager.cpp:54-90 | in every reachable state the taken chunks are exactly the blocks handed out and not given back, and each holds exactly what was written to it since, over zeros |
| AllocatorSafety.StepKeeps | sw/src/fpga/MemoryManager.cpp:54-90 | every statement of `allocate` and `free`, every byte of a wipe and every client write keeps the concurrent invariant |
| AllocatorSafety.RunKeeps | sw/src/fpga/MemoryManager.cpp:54-90 | so does every interleaving |
| AllocatorSafety.OneOwner | sw/src/fpga/MemoryManager.cpp:60-71 | a chunk never has two owners among clients, releasing threads and the holder of the lock, and its flag says free exactly when it has none |
| AllocatorSafety.LiveBlocksDisjoint | sw/src/fpga/MemoryManager.cpp:64-71 | blocks in the hands of clients never share a byte |
| AllocatorSafety.HandsOutZeroed | sw/src/fpga/MemoryManager.cpp:60-71 | a block is handed out only after its wiping has finished, with the requested size and no other owner |
| AllocatorSafety.WalkFindsItsChunk | sw/src/fpga/MemoryManager.cpp:80-90 | a `free` that crosses a half-done split still finds its chunk, wipes only that one, and never ends with nothing released |
| AllocatorData.StepKeepsData | sw/src/fpga/MemoryManager.cpp:54-90 | no step of any thread changes a byte of a block that stays live, except a write of its owner to that byte |
| AllocatorData.BlocksHoldWrites | sw/src/fpga/MemoryManager.cpp:54-90 | under every interleaving the live blocks are exactly those handed out and not given back, and each holds exactly what its owner wrote since, over zeros |
| AllocatorProgress.AllocateEnds | sw/src/fpga/MemoryManager.cpp:54-78 | a call of `allocate` is over after boundedly many steps of its own, whatever the other threads do |
| AllocatorProgress.FreeEnds | sw/src/fpga/MemoryManager.cpp:80-90 | so is a call of `free` |
| AllocatorFirstFit.FirstFit | sw/src/fpga/MemoryManager.cpp:59-77 | under any interleaving, when `allocate` gives up it has passed over every chunk since the call, and when it takes one, that is large enough and every lower chunk was passed over: it was taken, too small, or its exchange failed |
| AllocatorFirstFit.SearchEnds | sw/src/fpga/MemoryManager.cpp:59-74 | the search takes boundedly many steps of its own, whatever other threads do |
| Shift.LeftShifter.Call | hls/axi_utils.hpp:451-528 | one call of the left shifter |
| Shift.RightShifter.Call | hls/axi_utils.hpp:376-447 | one call of the right shifter, for an offset of at least one |
| Shift.LeftPacket | hls/axi_utils.hpp:479-521 | a packet leaves as one well-formed packet: the carried bytes, then all of its own |
| Shift.RightPacket | hls/axi_utils.hpp:393-446 | a packet leaves as one frame without exactly its first k bytes, well formed if and only if it was longer than k |
| Shift.LeftShiftPackets | hls/axi_utils.hpp:451-528 | every packet of a stream gets exactly k zero bytes in front and stays well formed |
| Shift.RightShiftPackets | hls/axi_utils.hpp:376-447 | every packet of a stream loses exactly its first k bytes |
| Shift.WideOffsetLeavesHole | hls/axi_utils.hpp:497 | in words wide enough for an offset beyond 32, the literal would leave a hole in the keep bits |
| Shift.LeftByNothing | hls/axi_utils.hpp:486-489 | an offset of zero leaves every stream as it is |
| Shift.RoundTrip | hls/axi_utils.hpp:376-528 | right after left by the same offset gives back every packet: bytes, word boundaries, keep and last bits |
| Width.DoubleWidth.Call | hls/axi_utils.hpp:264-326 | one call of the doubling converter |
| Width.HalfWidth.Call | hls/axi_utils.hpp:329-365 | one call of the halving converter |
| Width.DoublePacket | hls/axi_utils.hpp:278-304 | a packet leaves as its words joined in pairs, and `even` is back at its initial value |
| Width.HalfWords | hls/axi_utils.hpp:341-364 | words leave in halves, empty upper halves left out, and the state is back at FIRST |
| Width.DoublePackets | hls/axi_utils.hpp:264-326 | doubling keeps packet boundaries and bytes |
| Width.HalfPackets | hls/axi_utils.hpp:329-365 | halving keeps packet boundaries and bytes |
| Width.HalfOfDouble | hls/axi_utils.hpp:264-365 | halving after doubling gives back every word exactly |
| Width.DoubleOfHalf | hls/axi_utils.hpp:264-365 | doubling after halving gives back every packet, up to bytes under cleared keep bits |
| Merge.FairMerger.Call | hls/axi_utils.hpp:548-579 | one call serves the preferred stream if it waits, else the other, and passes the preference on |
| Merge.OrderKept | hls/axi_utils.hpp:553-578 | for every interleaving of arrivals and calls, what came from a stream is its arrivals in order, nothing lost or doubled |
| Merge.OvertakenOnce | hls/axi_utils.hpp:553-578 | a waiting item sees at most one item of the other stream go first, none when its stream is preferred |
| Merge.TakesTurns | hls/axi_utils.hpp:553-578 | no stream is served twice in a row while the other waits at the second call |
| Merge.CallsWork | hls/axi_utils.hpp:553-578 | calls write an item each until nothing waits |
| TxInterface.TxRegisters.WriteMachine | hdl/ultraplus/tx_interface.v:122-153 | next state and enable of the write machine |
| TxInterface.TxRegisters.ReadMachine | hdl/ultraplus/tx_interface.v:155-182 | next state, push flag and enable of the read machine |
| TxInterface.TxRegisters.PosEdge | hdl/ultraplus/tx_interface.v:104-217 | one clock edge of both machines and both queues, and the word the MAC receives |
| TxInterface.BalanceKept | hdl/ultraplus/tx_interface.v:131-181 | last words queued and frames promised change together in every cycle, except for a last word taken while the write machine is idle |
| TxInterface.NoUnderrun | hdl/ultraplus/tx_interface.v:110-114 | for all traffic the MAC receives a prefix of the input in order, and valid stays high from a frame's first word to its last |
| TxInterface.TokensCountFrames | hdl/ultraplus/tx_interface.v:131-181 | tokens plus enables in flight plus the frame being sent equal the last words queued, if and only if no frame so far was a single word |
| TxFlow.HandshakesExact | hdl/ultraplus/tx_interface.v:104-111 | a word is taken exactly when one is offered and neither queue is full, and the oldest queued word is sent exactly when the push flag is up and the MAC is ready |
| TxInterface.AllFramesLeave | hdl/ultraplus/tx_interface.v:131-181 | once the source pauses and the MAC is ready, every complete frame leaves within a bounded time, if and only if no frame was a single word |
| TxInterface.FullQueue | hdl/ultraplus/tx_interface.v:104-181 | a full data queue moves within three ready cycles if it holds a counted frame, and otherwise nothing is ever taken or sent again |
| TxInterface.FittingFramesFlow | hdl/ultraplus/tx_interface.v:104-181 | frames of two words up to the queue's depth never block it |
| TxFlow.StoreAndForward | hdl/ultraplus/tx_interface.v:104-181 | with a persistent source and a ready MAC all frames of two words up to the queue's depth are taken and sent, word for word, within seven cycles a word and two more |
| Bench.CmdGenerator.Call | hls/dma_bench/dma_bench.cpp:50-115 | one call starts a run, sends a command to the queue of the direction, or waits for room there |
| Bench.CmdGenerator.Advance | hls/dma_bench/dma_bench.cpp:73-89 | the address after a command, and the end of the run |
| Bench.AddressWalk | hls/dma_bench/dma_bench.cpp:73-84 | the walk steps from each address of the closed form to the next |
| Bench.RunCommands | hls/dma_bench/dma_bench.cpp:50-115 | however often the queues are full, a write run sends to the write queue only and a read run to the read queue only: the addresses of the walk in order, and the run ends after exactly the number asked for |
| Bench.KthAddress | hls/dma_bench/dma_bench.cpp:55-84 | command k is for base + step * (k mod ((mem - chunk) / step + 1)), or for the base if nothing steps or no chunk fits |
| Bench.CommandsInWindow | hls/dma_bench/dma_bench.cpp:81-84 | every command lies in the window if and only if one chunk fits it |
| Bench.DataGenerator.Call | hls/dma_bench/dma_bench.cpp:133-170 | one call starts a run, or sends a word and counts it |
| Bench.DataGenerator.Fill | hls/dma_bench/dma_bench.cpp:146-154 | the fill loop sets every byte, and the keep bits of the bytes that remain |
| Bench.PacketOk | hls/dma_bench/dma_bench.cpp:146-156 | a generated packet is well formed and of the chunk length if and only if no keep bit beyond it was set before |
| Bench.PacketBytes | hls/dma_bench/dma_bench.cpp:149 | byte j of packet i is i + (j mod 64), modulo 256 |
| Bench.RunWords | hls/dma_bench/dma_bench.cpp:133-170 | the words sent are a prefix of one packet per access, and all of them after as many calls as there are words |
| Bench.MeetsContract | hls/dma_bench/dma_bench.cpp:69-91 | commands and packets of a whole run match, lie in mapped pages and cross page ends only where they are aligned |
| Bench.BenchWrites | hls/dma_bench/dma_bench.cpp:69-170 | what a whole write run sends to the two write queues makes, through the write path and under any schedule, the byte writes of the walk, and moves no event counter |
| Padding.FramePadder.Call | hls/ethernet_frame_padding/ethernet_frame_padding.cpp:18-63 | one call copies a word, ends a frame, or sends a padding word |
| Padding.FrameRun | hls/ethernet_frame_padding/ethernet_frame_padding.cpp:18-63 | one frame leaves as its padded form, and state and counter are back at zero |
| Padding.PadFrame | hls/ethernet_frame_padding/ethernet_frame_padding.cpp:28-61 | the padded frame is well formed and starts with the frame's bytes, for any length; it has max(60, len) bytes if and only if the eight-bit counter does not mistake it; a short frame's last word keeps the bytes it carried and all later ones are zero |
| Padding.PadFrames | hls/ethernet_frame_padding/ethernet_frame_padding.cpp:13-63 | the same for every sequence of frames; frames of up to 255 words always get the right length |

## Left out

- Allocator.MemoryManager.Allocate: the exchange of the flag does not fail spuriously here, so that first fit is exact; what first fit means with such failures, and with other threads, is `AllocatorFirstFit.FirstFit`.
- Shift.RightShifter.Call: an offset of zero, for which the code takes bit ranges of negative width and drops first words of longer packets; and the `dest` field, which the remainder state copies from an unassigned word.
- Tlb.TlbBlock.Call: indices beyond 16384 entries are a precondition, because the code indexes its table without a check; the two output registers that repeat the counters are not kept apart from them.
- TlbMessages.DmaController.Edge: the two pulses that reset the DMA length counters, and the constant response code.
- WritePath.WritesAreByteWrites: commands that are empty, reach outside the table or cross more than one page end are excluded, as hdl/common/dma_inf.sv:167 admits; physical addresses are below 2^48 and the DMA engine is the pairing of the k-th command with the k-th frame.
- Bench.RunCommands: address sums are assumed not to pass 2^64; the comparison with the end of the window is made on wider sums, as in the code.
- Blocking writes: a stage that would wait for room in a stream inside a call is modelled as a call that does not take place; words that the code never assigns are one arbitrary fixed word.
- AllocatorConcurrent: sequentially consistent memory, and clients that release only blocks they own; the weaker orders that C++ would allow are not modelled.
- `fair_pkg_merger` (hls/axi_utils.hpp:581-658): after the first word from the first input it forwards from the second, so packets of several words are not kept whole.
- `data_consumer` and `clock` of the traffic generator: a counter of last flags and a cycle counter.
- The benchmark registers, the read half of the control registers, and the board's DDR path of the translation buffer.
- `rx_interface.v`, which depends on MAC statistics and vendor FIFO flags, and the 7-series transmit interface, which has the same state machines as the one modelled.
- Board top levels, data movers, clock crossings, PCI probing, memory mapping and interrupts: wiring and I/O around parts that cannot be seen.
- `lenToKeep`, `keepToLen` and the opcode predicates of hls/axi_utils.cpp: finite tables.
